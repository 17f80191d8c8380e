/**
 * What the handlers guarantee together: the store invariants they keep,
 * what a lookup sees after each mutation, and how the number of stored
 * messages follows a sequence of requests.
 */
module MessageProperties {
  import opened MessageStore

  // ---------------------------------------------------------------------
  // Guards
  // ---------------------------------------------------------------------

  /** The empty id is refused by all three id-taking handlers, without touching the store. */
  lemma EmptyIdRejected(store: Store, payload: Payload, now: Nat64, insertFails: bool)
    ensures GetMessage(store, "") == Err(InvalidId)
    ensures UpdateMessage(store, "", payload, now, insertFails) == Step(Err(InvalidId), store)
    ensures DeleteMessage(store, "") == Step(Err(InvalidId), store)
  {
  }

  // ---------------------------------------------------------------------
  // Lookups after a mutation
  // ---------------------------------------------------------------------

  /** A created message is found under its id, with no update time. */
  lemma GetAfterAdd(store: Store, payload: Payload, freshId: string, now: Nat64)
    requires freshId != "" && IsComplete(payload)
    ensures GetMessage(AddMessage(store, payload, freshId, now, false).after, freshId)
         == Ok(Message(freshId, payload.title, payload.body, payload.attachmentURL, now, None))
  {
  }

  /** After an update of a stored id, a lookup sees the payload, the old createdAt and the new time. */
  lemma GetAfterUpdate(store: Store, id: string, payload: Payload, now: Nat64)
    requires IdsMatchKeys(store)
    requires id != "" && id in store
    ensures GetMessage(UpdateMessage(store, id, payload, now, false).after, id)
         == Ok(Message(id, payload.title, payload.body, payload.attachmentURL,
                       store[id].createdAt, Some(now)))
  {
  }

  /** After a delete, the id is not found, whether or not it was present. */
  lemma GetAfterDelete(store: Store, id: string)
    requires id != ""
    ensures GetMessage(DeleteMessage(store, id).after, id) == Err(NotFound(id))
  {
  }

  /** Under the invariant, an update rewrites exactly the entry of its argument id. */
  lemma UpdateRewritesOwnEntry(store: Store, id: string, payload: Payload, now: Nat64)
    requires IdsMatchKeys(store)
    requires id != "" && id in store
    ensures var s := UpdateMessage(store, id, payload, now, false);
      s.reply.Ok? && s.after == store[id := s.reply.value] && s.after.Keys == store.Keys
  {
  }

  /**
   * The generated id is not checked against the store: a collision replaces
   * the message stored there and the store does not grow.
   */
  lemma AddOverwritesOnCollision(store: Store, payload: Payload, freshId: string, now: Nat64)
    requires freshId != "" && IsComplete(payload) && freshId in store
    ensures var s := AddMessage(store, payload, freshId, now, false);
      s.after.Keys == store.Keys && s.after[freshId].createdAt == now
  {
  }

  // ---------------------------------------------------------------------
  // Invariants of the store
  // ---------------------------------------------------------------------

  lemma AddKeepsIdsMatchKeys(store: Store, payload: Payload, freshId: string, now: Nat64,
                             insertFails: bool)
    requires freshId != "" && IdsMatchKeys(store)
    ensures IdsMatchKeys(AddMessage(store, payload, freshId, now, insertFails).after)
  {
  }

  lemma UpdateKeepsIdsMatchKeys(store: Store, id: string, payload: Payload, now: Nat64,
                                insertFails: bool)
    requires IdsMatchKeys(store)
    ensures IdsMatchKeys(UpdateMessage(store, id, payload, now, insertFails).after)
  {
  }

  lemma DeleteKeepsIdsMatchKeys(store: Store, id: string)
    requires IdsMatchKeys(store)
    ensures IdsMatchKeys(DeleteMessage(store, id).after)
  {
  }

  /** Under the invariant, no two stored messages are equal, so the listing has no duplicates. */
  lemma {:induction false} ListingIsValueMultiset(store: Store)
    requires IdsMatchKeys(store)
    ensures multiset(ValuesOf(store)) == multiset(store.Values)
  {
    var ms := ValuesOf(store);
    forall i, j | 0 <= i < j < |ms| ensures ms[i] != ms[j] {
      ValuesDistinct(store, i, j);
    }
    DistinctMultiset(ms);
    forall m ensures multiset(ms)[m] == multiset(store.Values)[m] {
      assert m in ms <==> m in store.Values;
    }
  }

  lemma ValuesDistinct(store: Store, i: int, j: int)
    requires IdsMatchKeys(store)
    requires 0 <= i < j < |ValuesOf(store)|
    ensures ValuesOf(store)[i] != ValuesOf(store)[j]
  {
  }

  /** A sequence without repetitions holds each of its elements once. */
  lemma {:induction false} DistinctMultiset(ms: seq<Message>)
    requires forall i, j :: 0 <= i < j < |ms| ==> ms[i] != ms[j]
    ensures forall m :: multiset(ms)[m] == if m in ms then 1 else 0
  {
    if ms != [] {
      DistinctMultiset(ms[1..]);
      assert ms == [ms[0]] + ms[1..];
      assert ms[0] !in ms[1..];
    }
  }

  /** Every stored message whose updatedAt is set was not updated before it was created. */
  ghost predicate UpdatedNotBeforeCreated(store: Store)
  {
    forall k :: k in store && store[k].updatedAt.Some? ==>
      store[k].createdAt <= store[k].updatedAt.value
  }

  /**
   * The handlers themselves do not order the two timestamps: the order holds
   * after an update only when the clock has not gone back past the stored
   * createdAt.
   */
  lemma UpdateKeepsTimestampOrder(store: Store, id: string, payload: Payload, now: Nat64,
                                  insertFails: bool)
    requires UpdatedNotBeforeCreated(store)
    requires id in store ==> store[id].createdAt <= now
    ensures UpdatedNotBeforeCreated(UpdateMessage(store, id, payload, now, insertFails).after)
  {
  }

  /** With a clock that goes back, an update yields updatedAt before createdAt. */
  lemma ClockGoingBackBreaksTimestampOrder()
    ensures var store := map["a" := Message("a", "t", "b", "u", 5, None)];
      var s := UpdateMessage(store, "a", Payload("t", "b", "u"), 3, false);
      s.reply.Ok? && s.reply.value.updatedAt == Some(3) && s.reply.value.createdAt == 5 &&
      !UpdatedNotBeforeCreated(s.after)
  {
    var store := map["a" := Message("a", "t", "b", "u", 5, None)];
    var s := UpdateMessage(store, "a", Payload("t", "b", "u"), 3, false);
    assert s.after["a"].updatedAt == Some(3);
  }

  // ---------------------------------------------------------------------
  // Sequences of requests
  // ---------------------------------------------------------------------

  /** One call of a mutating or id-lookup handler, with the host's values it consumes. */
  datatype Request =
    | Get(id: string)
    | Add(payload: Payload, freshId: string, now: Nat64, insertFails: bool)
    | Update(id: string, payload: Payload, now: Nat64, insertFails: bool)
    | Delete(id: string)

  /** The generator produces non-empty ids. */
  predicate WellFormed(reqs: seq<Request>)
  {
    forall i :: 0 <= i < |reqs| && reqs[i].Add? ==> reqs[i].freshId != ""
  }

  function Apply(store: Store, req: Request): Step
    requires req.Add? ==> req.freshId != ""
  {
    match req
    case Get(id) => Step(GetMessage(store, id), store)
    case Add(p, freshId, now, fails) => AddMessage(store, p, freshId, now, fails)
    case Update(id, p, now, fails) => UpdateMessage(store, id, p, now, fails)
    case Delete(id) => DeleteMessage(store, id)
  }

  /** The store after serving the requests one after another. */
  function Run(store: Store, reqs: seq<Request>): Store
    requires WellFormed(reqs)
    decreases |reqs|
  {
    if reqs == [] then store
    else Run(Apply(store, reqs[0]).after, reqs[1..])
  }

  /** Successful creates minus successful deletes along the run. */
  function NetGrowth(store: Store, reqs: seq<Request>): int
    requires WellFormed(reqs)
    decreases |reqs|
  {
    if reqs == [] then 0
    else
      var s := Apply(store, reqs[0]);
      var delta := if s.reply.Err? then 0 else if reqs[0].Add? then 1
                   else if reqs[0].Delete? then -1 else 0;
      delta + NetGrowth(s.after, reqs[1..])
  }

  /**
   * Every generated id is new: not among `used` (which covers the keys
   * already stored) and not generated twice.
   */
  predicate FreshIds(used: set<string>, reqs: seq<Request>)
    decreases |reqs|
  {
    reqs == [] ||
    (if reqs[0].Add? then reqs[0].freshId !in used && FreshIds(used + {reqs[0].freshId}, reqs[1..])
     else FreshIds(used, reqs[1..]))
  }

  lemma ApplyKeepsIdsMatchKeys(store: Store, req: Request)
    requires req.Add? ==> req.freshId != ""
    requires IdsMatchKeys(store)
    ensures IdsMatchKeys(Apply(store, req).after)
  {
    match req
    case Get(_) =>
    case Add(p, freshId, now, fails) => AddKeepsIdsMatchKeys(store, p, freshId, now, fails);
    case Update(id, p, now, fails) => UpdateKeepsIdsMatchKeys(store, id, p, now, fails);
    case Delete(id) => DeleteKeepsIdsMatchKeys(store, id);
  }

  /** Every message stays under its own id, whatever the requests. */
  lemma {:induction false} RunKeepsIdsMatchKeys(store: Store, reqs: seq<Request>)
    requires WellFormed(reqs) && IdsMatchKeys(store)
    ensures IdsMatchKeys(Run(store, reqs))
    decreases |reqs|
  {
    if reqs != [] {
      ApplyKeepsIdsMatchKeys(store, reqs[0]);
      assert WellFormed(reqs[1..]) by {
        forall i | 0 <= i < |reqs[1..]| && reqs[1..][i].Add? ensures reqs[1..][i].freshId != "" {
          assert reqs[1..][i] == reqs[i + 1];
        }
      }
      RunKeepsIdsMatchKeys(Apply(store, reqs[0]).after, reqs[1..]);
    }
  }

  lemma AddSize(store: Store, payload: Payload, freshId: string, now: Nat64, insertFails: bool)
    requires freshId != "" && freshId !in store
    ensures var s := AddMessage(store, payload, freshId, now, insertFails);
      s.after.Keys <= store.Keys + {freshId} &&
      |s.after| == |store| + (if s.reply.Ok? then 1 else 0)
  {
  }

  lemma UpdateSize(store: Store, id: string, payload: Payload, now: Nat64, insertFails: bool)
    requires IdsMatchKeys(store)
    ensures var s := UpdateMessage(store, id, payload, now, insertFails);
      s.after.Keys == store.Keys && |s.after| == |store|
  {
  }

  lemma DeleteSize(store: Store, id: string)
    ensures var s := DeleteMessage(store, id);
      s.after.Keys <= store.Keys && |s.after| == |store| - (if s.reply.Ok? then 1 else 0)
  {
  }

  /** One request changes the number of stored messages by its own share of NetGrowth. */
  lemma ApplySize(store: Store, req: Request, used: set<string>)
    requires req.Add? ==> req.freshId != "" && req.freshId !in used
    requires IdsMatchKeys(store) && store.Keys <= used
    ensures var s := Apply(store, req);
      |s.after| == |store| + (if s.reply.Err? then 0 else if req.Add? then 1
                               else if req.Delete? then -1 else 0)
    ensures Apply(store, req).after.Keys <= used + (if req.Add? then {req.freshId} else {})
  {
    match req
    case Get(_) =>
    case Add(p, freshId, now, fails) => AddSize(store, p, freshId, now, fails);
    case Update(id, p, now, fails) => UpdateSize(store, id, p, now, fails);
    case Delete(id) => DeleteSize(store, id);
  }

  /**
   * With fresh generated ids, the store holds its initial messages plus the
   * successful creates minus the successful deletes.
   */
  lemma {:induction false} RunSize(store: Store, reqs: seq<Request>, used: set<string>)
    requires WellFormed(reqs) && IdsMatchKeys(store)
    requires store.Keys <= used && FreshIds(used, reqs)
    ensures |Run(store, reqs)| == |store| + NetGrowth(store, reqs)
    decreases |reqs|
  {
    if reqs != [] {
      var req := reqs[0];
      var used' := used + (if req.Add? then {req.freshId} else {});
      ApplySize(store, req, used);
      ApplyKeepsIdsMatchKeys(store, req);
      assert WellFormed(reqs[1..]) by {
        forall i | 0 <= i < |reqs[1..]| && reqs[1..][i].Add? ensures reqs[1..][i].freshId != "" {
          assert reqs[1..][i] == reqs[i + 1];
        }
      }
      RunSize(Apply(store, req).after, reqs[1..], used');
    }
  }

  /** From an empty store, the listing holds exactly NetGrowth messages. */
  lemma ListingAfterRunFromEmpty(reqs: seq<Request>)
    requires WellFormed(reqs) && FreshIds({}, reqs)
    ensures var r := GetMessages(Run(map[], reqs), false);
      r.Ok? && |r.value| == NetGrowth(map[], reqs)
  {
    RunSize(map[], reqs, {});
  }
}
