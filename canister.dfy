/**
 * The canister itself: the module-level stable map that the handlers read
 * and update in place. Each method does what its handler does to the map
 * and is proved to agree with the transition of the same name in
 * MessageStore, while keeping every message under its own id.
 */
module Canister {
  import opened MessageStore

  class MessageCanister {
    /** The stable B-tree map from message id to message. */
    var storage: Store

    ghost predicate Valid()
      reads this
    {
      IdsMatchKeys(storage)
    }

    constructor ()
      ensures Valid() && storage == map[]
    {
      storage := map[];
    }

    /** getMessage: a query; the storage is only read. */
    method GetMessage(id: string) returns (r: Result<Message>)
      ensures r == MessageStore.GetMessage(storage, id)
    {
      r := MessageStore.GetMessage(storage, id);
    }

    /**
     * addMessage, with the generated id, the clock reading and whether the
     * insert throws supplied by the host.
     */
    method AddMessage(payload: Payload, freshId: string, now: Nat64, insertFails: bool)
      returns (r: Result<Message>)
      requires Valid() && freshId != ""
      modifies this
      ensures Valid()
      ensures Step(r, storage) == MessageStore.AddMessage(old(storage), payload, freshId, now, insertFails)
    {
      if !IsComplete(payload) {
        return Err(MissingFields);
      }
      var message := Message(freshId, payload.title, payload.body, payload.attachmentURL, now, None);
      if insertFails {
        return Err(AddFailed);
      }
      storage := storage[message.id := message];
      r := Ok(message);
    }

    /** updateMessage: the payload is taken as it is, without the check addMessage makes. */
    method UpdateMessage(id: string, payload: Payload, now: Nat64, insertFails: bool)
      returns (r: Result<Message>)
      requires Valid()
      modifies this
      ensures Valid()
      ensures Step(r, storage) == MessageStore.UpdateMessage(old(storage), id, payload, now, insertFails)
      ensures r.Ok? ==> storage == old(storage)[id := r.value]
    {
      if id == "" {
        return Err(InvalidId);
      }
      if id !in storage {
        return Err(NotFound(id));
      }
      var existing := storage[id];
      var updated := existing.(title := payload.title, body := payload.body,
                               attachmentURL := payload.attachmentURL, updatedAt := Some(now));
      if insertFails {
        return Err(UpdateFailed);
      }
      storage := storage[updated.id := updated];
      r := Ok(updated);
    }

    /** deleteMessage: remove the entry and return what it held. */
    method DeleteMessage(id: string) returns (r: Result<Message>)
      requires Valid()
      modifies this
      ensures Valid()
      ensures Step(r, storage) == MessageStore.DeleteMessage(old(storage), id)
    {
      if id == "" {
        return Err(InvalidId);
      }
      if id in storage {
        r := Ok(storage[id]);
        storage := storage - {id};
      } else {
        r := Err(NotFound(id));
      }
    }
  }
}
