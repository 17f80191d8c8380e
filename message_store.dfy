/**
 * The message store of the canister: its records and its five request
 * handlers, each written as a pure transition on the map from message id
 * to message. The host's id generator and clock are parameters, and so is
 * the outcome of the stable-memory calls that the handlers wrap in
 * try/catch.
 */
module MessageStore {

  /** The unsigned 64-bit timestamps returned by the host clock. */
  type Nat64 = x: int | 0 <= x < 0x1_0000_0000_0000_0000

  datatype Option<T> = None | Some(value: T)

  /** A stored message: its id never changes, createdAt is set once. */
  datatype Message = Message(
    id: string,
    title: string,
    body: string,
    attachmentURL: string,
    createdAt: Nat64,
    updatedAt: Option<Nat64>)

  /** What a caller supplies on create and update. */
  datatype Payload = Payload(title: string, body: string, attachmentURL: string)

  /**
   * The failures a handler reports. The three storage failures stand for an
   * exception thrown by the stable-memory map and caught by the handler.
   */
  datatype Error =
    | InvalidId
    | NotFound(id: string)
    | MissingFields
    | RetrieveFailed
    | AddFailed
    | UpdateFailed

  datatype Result<T> = Ok(value: T) | Err(error: Error)

  /** The stable map from message id to message. */
  type Store = map<string, Message>

  /** What a mutating handler returns, and the store it leaves behind. */
  datatype Step = Step(reply: Result<Message>, after: Store)

  /** Every message is stored under its own id. */
  ghost predicate IdsMatchKeys(store: Store)
  {
    forall k :: k in store ==> store[k].id == k
  }

  /** `after` agrees with `before` on every key other than `key`. */
  ghost predicate SameElsewhere(before: Store, after: Store, key: string)
  {
    forall k :: k != key ==>
      (k in after <==> k in before) && (k in before ==> after[k] == before[k])
  }

  /** All three payload fields are non-empty (JavaScript truthiness of a string). */
  predicate IsComplete(p: Payload)
  {
    p.title != "" && p.body != "" && p.attachmentURL != ""
  }

  /** getMessage: reject the empty id, then look the id up. */
  function GetMessage(store: Store, id: string): (r: Result<Message>)
    ensures r.Ok? <==> id != "" && id in store
    ensures r.Ok? ==> r.value == store[id]
    ensures r.Err? ==> r.error == (if id == "" then InvalidId else NotFound(id))
  {
    if id == "" then Err(InvalidId)
    else if id in store then Ok(store[id])
    else Err(NotFound(id))
  }

  /**
   * addMessage: reject an incomplete payload, otherwise compose the message
   * from the generated id, the clock and the payload and insert it under its
   * id, overwriting whatever that id held. A failed insert leaves the store
   * as it was.
   */
  function AddMessage(store: Store, payload: Payload, freshId: string, now: Nat64,
                      insertFails: bool): (s: Step)
    requires freshId != ""
    ensures s.reply.Ok? <==> IsComplete(payload) && !insertFails
    ensures s.reply.Err? ==> s.after == store
    ensures !IsComplete(payload) ==> s.reply == Err(MissingFields)
    ensures IsComplete(payload) && insertFails ==> s.reply == Err(AddFailed)
    ensures s.reply.Ok? ==>
      var m := s.reply.value;
      m.id == freshId && m.createdAt == now && m.updatedAt == None &&
      m.title == payload.title && m.body == payload.body &&
      m.attachmentURL == payload.attachmentURL &&
      freshId in s.after && s.after[freshId] == m &&
      SameElsewhere(store, s.after, freshId)
  {
    if !IsComplete(payload) then
      Step(Err(MissingFields), store)
    else
      var m := Message(freshId, payload.title, payload.body, payload.attachmentURL, now, None);
      if insertFails then Step(Err(AddFailed), store)
      else Step(Ok(m), store[m.id := m])
  }

  /**
   * updateMessage: reject the empty id, look the id up, then keep the stored
   * id and createdAt, take the three fields from the payload without
   * checking them, stamp updatedAt with the clock, and insert the result
   * under its own (stored) id.
   */
  function UpdateMessage(store: Store, id: string, payload: Payload, now: Nat64,
                         insertFails: bool): (s: Step)
    ensures s.reply.Ok? <==> id != "" && id in store && !insertFails
    ensures s.reply.Err? ==> s.after == store
    ensures id == "" ==> s.reply == Err(InvalidId)
    ensures id != "" && id !in store ==> s.reply == Err(NotFound(id))
    ensures id != "" && id in store && insertFails ==> s.reply == Err(UpdateFailed)
    ensures s.reply.Ok? ==>
      var m := s.reply.value;
      m.id == store[id].id && m.createdAt == store[id].createdAt &&
      m.title == payload.title && m.body == payload.body &&
      m.attachmentURL == payload.attachmentURL && m.updatedAt == Some(now) &&
      m.id in s.after && s.after[m.id] == m &&
      SameElsewhere(store, s.after, m.id)
  {
    if id == "" then Step(Err(InvalidId), store)
    else if id !in store then Step(Err(NotFound(id)), store)
    else
      var existing := store[id];
      var m := existing.(title := payload.title, body := payload.body,
                         attachmentURL := payload.attachmentURL, updatedAt := Some(now));
      if insertFails then Step(Err(UpdateFailed), store)
      else Step(Ok(m), store[m.id := m])
  }

  /** deleteMessage: reject the empty id, then remove the id and return what it held. */
  function DeleteMessage(store: Store, id: string): (s: Step)
    ensures s.reply.Ok? <==> id != "" && id in store
    ensures s.reply.Err? ==> s.after == store
    ensures s.reply.Err? ==> s.reply.error == (if id == "" then InvalidId else NotFound(id))
    ensures s.reply.Ok? ==>
      s.reply.value == store[id] && id !in s.after && SameElsewhere(store, s.after, id)
  {
    if id == "" then Step(Err(InvalidId), store)
    else if id in store then Step(Ok(store[id]), store - {id})
    else Step(Err(NotFound(id)), store)
  }

  /**
   * Some enumeration of a set of keys, each key exactly once. The stable
   * B-tree fixes an order of its own; which one is not modelled.
   */
  ghost function KeyOrder(keys: set<string>): (ks: seq<string>)
    ensures |ks| == |keys|
    ensures forall k :: k in ks <==> k in keys
    ensures forall i, j :: 0 <= i < j < |ks| ==> ks[i] != ks[j]
    decreases keys
  {
    if keys == {} then []
    else
      var k :| k in keys;
      [k] + KeyOrder(keys - {k})
  }

  /** The stored messages, one per key, in the order of KeyOrder. */
  ghost function ValuesOf(store: Store): (ms: seq<Message>)
    ensures |ms| == |store|
    ensures forall m :: m in ms <==> m in store.Values
  {
    var ks := KeyOrder(store.Keys);
    var ms := seq(|ks|, i requires 0 <= i < |ks| => store[ks[i]]);
    ListedValues(store, ks, ms);
    ms
  }

  lemma ListedValues(store: Store, ks: seq<string>, ms: seq<Message>)
    requires forall k :: k in ks <==> k in store
    requires |ms| == |ks| && forall i :: 0 <= i < |ks| ==> ms[i] == store[ks[i]]
    ensures forall m :: m in ms <==> m in store.Values
  {
  }

  /** getMessages: every stored message, or the retrieval failure. */
  ghost function GetMessages(store: Store, readFails: bool): (r: Result<seq<Message>>)
    ensures r.Ok? <==> !readFails
    ensures r.Err? ==> r.error == RetrieveFailed
    ensures r.Ok? ==> |r.value| == |store| && forall m :: m in r.value <==> m in store.Values
  {
    if readFails then Err(RetrieveFailed) else Ok(ValuesOf(store))
  }
}
