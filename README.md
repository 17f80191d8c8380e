# Message store canister, modelled in Dafny

The system is a small Internet Computer canister that keeps user messages
(title, body, attachment URL, creation and update timestamps) in one stable
B-tree map from a generated string id to the message. It answers five
requests: list all messages, get one by id, add one, update one, and delete
one. Each request is one read or one read-modify-write of that map, behind
simple guards. An empty id is refused. A create with an empty title, body or
attachment URL is refused. An id that is not stored gives "not found".

The model has three modules:

- `MessageStore` (message_store.dfy): the records, the error cases and the
  five handlers as pure transitions on `map<string, Message>`. Each mutating
  handler returns a `Step`: the reply and the map it leaves behind. Its
  contract states the reply in every case, the new map entry, and that every
  other key is untouched. Every error path leaves the map unchanged.
  `getMessages` is a ghost function. It lists the stored messages in an
  enumeration of the keys whose order is left open.
- `MessageProperties` (message_properties.dfy): properties that relate the
  handlers to one another.
  - Lookups after each kind of mutation.
  - The invariant that every message is stored under its own id.
  - The timestamp order `createdAt <= updatedAt`, which holds only when the
    clock does not go back.
  - The listing, which holds every stored message exactly once.
  - Replays of whole request sequences. With fresh generated ids, the size of
    the store is its initial size plus successful creates minus successful
    deletes.
- `Canister` (canister.dfy): the class `MessageCanister`, whose `storage`
  field is the module-level stable map. `addMessage`, `updateMessage` and
  `deleteMessage` are methods with `modifies this` that change the map in
  place. Each is proved equal, in reply and new map, to its transition in
  `MessageStore`, and each keeps the stored-under-own-id invariant.

The host's inputs are parameters:
- `freshId` stands for `uuidv4()`. It must be non-empty. It is not assumed
  to be absent from the map.
- `now: Nat64` stands for `ic.time()`.
- The booleans `readFails` and `insertFails` stand for an exception thrown by
  the stable map and caught by the handler. In each such case the handler
  returns the storage error and the map is unchanged.

Behaviour of the code that the model keeps as it is:
- `updateMessage` does not re-validate the payload. An update may set an
  empty title, body or attachment URL.
- `addMessage` checks only that the three fields are non-empty; the
  attachment URL is not checked for being a URL.
- `updatedAt >= createdAt` is not something the code guarantees. It holds
  when the clock is monotone, and `ClockGoingBackBreaksTimestampOrder` shows
  the case where it does not.
- `updateMessage` inserts the new record under the id stored inside the
  existing record, not under the argument id. The two agree whenever the
  store keeps every message under its own id, and every handler preserves
  that invariant.

## Model

| member | source | states |
|---|---|---|
| MessageStore.GetMessage | src/index.ts:33-43 | succeeds exactly when the id is non-empty and stored, and then returns the stored message; otherwise "invalid id" for the empty id and "not found" carrying the id |
| MessageStore.AddMessage | src/index.ts:47-62 | succeeds exactly when title, body and attachment URL are all non-empty and the insert does not throw; the message carries the generated id, the clock value, no update time and the payload fields; the map then holds it under that id and is unchanged elsewhere; each error path (missing fields, failed insert) leaves the map unchanged |
| MessageStore.UpdateMessage | src/index.ts:66-87 | empty id gives "invalid id", absent id gives "not found", a throwing insert gives the update error, all with the map unchanged; otherwise the result keeps the stored id and createdAt, takes the three payload fields unchecked, and sets updatedAt to the clock value, and the map holds it under its id and is unchanged elsewhere |
| MessageStore.DeleteMessage | src/index.ts:91-101 | succeeds exactly when the id is non-empty and stored, returning the message stored there; the key is then absent and every other entry unchanged; on failure the map is unchanged and the error is "invalid id" or "not found" |
| MessageStore.KeyOrder | src/index.ts:25 | an enumeration of the stored keys: as long as the key set, covering exactly the key set, with no key twice |
| MessageStore.ValuesOf | src/index.ts:25 | as many messages as stored keys, and a message is listed exactly when some key maps to it |
| MessageStore.GetMessages | src/index.ts:23-29 | a failing read gives the retrieval error; otherwise the list holds as many messages as the map has keys, exactly the map's values |
| MessageProperties.EmptyIdRejected | src/index.ts:35-37 | getMessage, updateMessage and deleteMessage all refuse the empty id with "invalid id" and leave the map unchanged |
| MessageProperties.GetAfterAdd | src/index.ts:54-61 | after a successful create, getMessage on the generated id returns the created message, with no update time |
| MessageProperties.GetAfterUpdate | src/index.ts:72-83 | when every message is stored under its own id, after a successful update of a stored id, getMessage returns the same id and createdAt, the payload fields and the new time |
| MessageProperties.GetAfterDelete | src/index.ts:97-100 | for a non-empty id, after deleteMessage, getMessage on that id gives "not found", whether or not the id was stored |
| MessageProperties.UpdateRewritesOwnEntry | src/index.ts:75-78 | when every message is stored under its own id, a successful update replaces exactly the argument id's entry and keeps the key set |
| MessageProperties.AddOverwritesOnCollision | src/index.ts:54-56 | on a successful create, a generated id that is already stored replaces that message; the key set stays the same |
| MessageProperties.AddKeepsIdsMatchKeys | src/index.ts:54-56 | a create keeps every message stored under its own id |
| MessageProperties.UpdateKeepsIdsMatchKeys | src/index.ts:75-78 | an update keeps every message stored under its own id |
| MessageProperties.DeleteKeepsIdsMatchKeys | src/index.ts:97 | a delete keeps every message stored under its own id |
| MessageProperties.ListingIsValueMultiset | src/index.ts:25 | when every message is stored under its own id, the listing is exactly the multiset of stored values, each message once |
| MessageProperties.UpdateKeepsTimestampOrder | src/index.ts:75 | if the clock reads no earlier than the stored createdAt, an update keeps updatedAt no earlier than createdAt for every message |
| MessageProperties.ClockGoingBackBreaksTimestampOrder | src/index.ts:75 | with a clock reading earlier than createdAt, a successful update stores an updatedAt before createdAt |
| MessageProperties.AddSize | src/index.ts:54-56 | a create with an unused id grows the store by one key on success and not at all on failure |
| MessageProperties.UpdateSize | src/index.ts:72-78 | when every message is stored under its own id, an update never changes the key set |
| MessageProperties.DeleteSize | src/index.ts:97 | a delete shrinks the store by one key on success and not at all on failure |
| MessageProperties.ApplySize | src/index.ts:33-101 | with a generated id that is not already stored, and when every message is stored under its own id, any single request changes the number of stored messages by +1 for a successful create, -1 for a successful delete and 0 otherwise, and adds no key besides the generated one |
| MessageProperties.ApplyKeepsIdsMatchKeys | src/index.ts:33-101 | any single request keeps every message stored under its own id |
| MessageProperties.RunKeepsIdsMatchKeys | src/index.ts:33-101 | any sequence of requests keeps every message stored under its own id |
| MessageProperties.RunSize | src/index.ts:33-101 | when every message is stored under its own id and generated ids are never seen before, the store ends with its initial size plus successful creates minus successful deletes |
| MessageProperties.ListingAfterRunFromEmpty | src/index.ts:23-29 | from an empty store, after any request sequence with fresh generated ids, getMessages lists as many messages as successful creates minus successful deletes |
| Canister.MessageCanister.constructor | src/index.ts:19 | the stable map starts empty |
| Canister.MessageCanister.GetMessage | src/index.ts:33-43 | the query returns what MessageStore.GetMessage gives on the current map |
| Canister.MessageCanister.AddMessage | src/index.ts:47-62 | the reply and the map after the in-place insert are those of MessageStore.AddMessage on the old map; every message stays under its own id |
| Canister.MessageCanister.UpdateMessage | src/index.ts:66-87 | the reply and the map after the in-place insert are those of MessageStore.UpdateMessage on the old map; on success only the argument id's entry changes; every message stays under its own id |
| Canister.MessageCanister.DeleteMessage | src/index.ts:91-101 | the reply and the map after the in-place remove are those of MessageStore.DeleteMessage on the old map; every message stays under its own id |

## Left out

- The Azle and Candid plumbing is not modelled. This covers the `$query` and `$update` markers, the library's `Result`, `Opt` and `match` helpers, and the `StableBTreeMap` constructor arguments (memory id, key and value size limits). The store is a plain map.
- The size limits of the stable map (44-byte keys, 1024-byte values) are not modelled. An insert that exceeds them is covered only as an unspecified failure, through the `insertFails` flag.
- Why the stable map throws is not modelled. The try/catch paths are a host-supplied flag. The exception text interpolated into the error message is not kept.
- `uuidv4()` and `ic.time()` are host randomness and a host clock. They are parameters of the handlers.
- The `globalThis.crypto` shim at the end of the file is left out. It feeds `Math.random()` bytes to the id generator and holds no store logic.
- Error messages are error cases, not strings. `NotFound` carries the id that the message text interpolates.
- MessageStore.GetMessages: the iteration order of the stable B-tree is not modelled. The listing follows an unspecified enumeration of the keys.
- MessageStore.GetMessages: `MessageCanister` does not expose `getMessages`; the listing is modelled only by this ghost function over the class's `storage` map.
