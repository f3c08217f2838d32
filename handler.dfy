/**
 * One request of the frame endpoint, after the user id has been read and the
 * pet row looked up: default a missing pet, apply the action, run the
 * attention gate, and persist. The store and the notifier are outside the
 * model; what the handler asks of them is recorded as a log of writes.
 */
module Handler {
  import opened Wrappers
  import opened Catalog
  import opened Economy

  /** What a request asks of the store and of the notifier, in order. */
  datatype Write =
    | Insert(fid: string, pet: PetState)
    | Notify(fid: string, message: string)
    | Update(fid: string, pet: PetState)

  /** A refused request (status and error text), or a rendered frame showing `pet`. */
  datatype Response =
    | Failure(status: int, error: string, writes: seq<Write>)
    | Frame(pet: PetState, writes: seq<Write>)

  const AttentionMessage: string := "Your pet needs attention! Come back to feed and play with it."
  const NotEnoughCoinsError: string := "Not enough coins"

  /** The pet the action is applied to: the stored row, or a new pet. */
  function Loaded(stored: Option<PetState>): (p: PetState)
    ensures stored.Some? ==> p == stored.value
    ensures stored.None? ==> p == NewPet()
  {
    stored.GetOr(NewPet())
  }

  /**
   * The whole request on values. `stored` is the row the store returned for
   * `fid` and `now` the clock reading taken after the action.
   */
  function Respond(stored: Option<PetState>, fid: string, action: string, item: Option<string>,
                   now: int, shop: Shop): (r: Response)
    ensures r.Failure? <==> Apply(Loaded(stored), action, item, shop).NotEnoughCoins?
    ensures r.Failure? ==> r.status == 400 && r.error == NotEnoughCoinsError
    ensures forall w :: w in r.writes ==> w.fid == fid
    ensures stored.None? <==> |r.writes| > 0 && r.writes[0] == Insert(fid, NewPet())
    ensures r.Failure? ==> r.writes == (if stored.None? then [Insert(fid, NewPet())] else [])
    ensures r.Frame? ==> r.pet == Notified(Apply(Loaded(stored), action, item, shop).pet, now)
    ensures r.Frame? ==>
              r.writes == (if stored.None? then [Insert(fid, NewPet())] else [])
                        + (if ShouldNotify(Apply(Loaded(stored), action, item, shop).pet, now)
                           then [Notify(fid, AttentionMessage)] else [])
                        + [Update(fid, r.pet)]
    ensures r.Frame? ==> |r.writes| > 0 && r.writes[|r.writes| - 1] == Update(fid, r.pet)
    ensures r.Frame? ==>
              (Notify(fid, AttentionMessage) in r.writes <==> ShouldNotify(Apply(Loaded(stored), action, item, shop).pet, now))
  {
    var created := if stored.None? then [Insert(fid, NewPet())] else [];
    match Apply(Loaded(stored), action, item, shop)
    case NotEnoughCoins => Failure(400, NotEnoughCoinsError, created)
    case Applied(acted) =>
      var final := Notified(acted, now);
      var alert := if ShouldNotify(acted, now) then [Notify(fid, AttentionMessage)] else [];
      Frame(final, created + alert + [Update(fid, final)])
  }

  /** The handler as it runs: it builds a `Pet` record and updates its fields in place. */
  method HandleRequest(stored: Option<PetState>, fid: string, action: string, item: Option<string>,
                       now: int, shop: Shop) returns (resp: Response)
    ensures resp == Respond(stored, fid, action, item, now, shop)
  {
    var writes: seq<Write> := [];
    var pet: Pet;
    if stored.None? {
      pet := new Pet(NewPet());
      writes := writes + [Insert(fid, pet.Snapshot())];
    } else {
      pet := new Pet(stored.value);
    }
    var rejected := pet.ApplyAction(action, item, shop);
    if rejected {
      resp := Failure(400, NotEnoughCoinsError, writes);
      return;
    }
    var fired := pet.MaybeNotify(now);
    if fired {
      writes := writes + [Notify(fid, AttentionMessage)];
    }
    writes := writes + [Update(fid, pet.Snapshot())];
    resp := Frame(pet.Snapshot(), writes);
  }

  // ---------------------------------------------------------------------------
  // The store, and a sequence of requests against it

  /** The pets table, keyed by user id. */
  type Store = map<string, PetState>

  datatype Request = Request(fid: string, action: string, item: Option<string>, now: int)

  /** An insert adds the row; an update changes an existing row only; a notification leaves the table alone. */
  function CommitOne(store: Store, w: Write): (s: Store) {
    match w
    case Insert(fid, pet) => store[fid := pet]
    case Notify(_, _) => store
    case Update(fid, pet) => if fid in store then store[fid := pet] else store
  }

  function Commit(store: Store, ws: seq<Write>): (s: Store)
    decreases |ws|
  {
    if ws == [] then store else Commit(CommitOne(store, ws[0]), ws[1..])
  }

  /** The response to `req` given the current table. */
  function Serve(store: Store, req: Request, shop: Shop): (r: Response) {
    Respond(if req.fid in store then Some(store[req.fid]) else None, req.fid, req.action, req.item, req.now, shop)
  }

  /** The table after `req` has been served and its writes committed. */
  function After(store: Store, req: Request, shop: Shop): (s: Store) {
    Commit(store, Serve(store, req, shop).writes)
  }

  datatype Trace = Trace(store: Store, writes: seq<Write>)

  /** Requests served one after another; the final table and every write, in order. */
  function Replay(store: Store, reqs: seq<Request>, shop: Shop): (t: Trace)
    decreases |reqs|
  {
    if reqs == [] then Trace(store, [])
    else
      var first := Serve(store, reqs[0], shop).writes;
      var rest := Replay(Commit(store, first), reqs[1..], shop);
      Trace(rest.store, first + rest.writes)
  }

  predicate StoreWellFormed(store: Store) {
    forall fid :: fid in store ==> WellFormed(store[fid])
  }

  /** No notification for `fid` is among `ws`. */
  predicate NoNotifyFor(ws: seq<Write>, fid: string) {
    forall w :: w in ws ==> !(w.Notify? && w.fid == fid)
  }

  // ---------------------------------------------------------------------------
  // Lemmas about one request

  lemma {:induction false} CommitAppend(store: Store, a: seq<Write>, b: seq<Write>)
    ensures Commit(store, a + b) == Commit(Commit(store, a), b)
    decreases |a|
  {
    if a == [] {
      assert a + b == b;
    } else {
      assert (a + b)[1..] == a[1..] + b;
      CommitAppend(CommitOne(store, a[0]), a[1..], b);
    }
  }

  /**
   * What one request does to the table. A refused purchase writes nothing to
   * an existing row, and for a new user leaves only the default row, which
   * is inserted before the action runs. Every other request leaves the row
   * equal to the pet it shows.
   */
  lemma AfterEffect(store: Store, req: Request, shop: Shop)
    ensures var resp := Serve(store, req, shop);
      After(store, req, shop) ==
        if resp.Failure? then (if req.fid in store then store else store[req.fid := NewPet()])
        else store[req.fid := resp.pet]
  {
    var stored := if req.fid in store then Some(store[req.fid]) else None;
    var resp := Serve(store, req, shop);
    var created := if stored.None? then [Insert(req.fid, NewPet())] else [];
    var s1 := Commit(store, created);
    if req.fid !in store {
      assert created == [Insert(req.fid, NewPet())];
      assert created[1..] == [];
      assert s1 == Commit(CommitOne(store, created[0]), []);
    }
    assert s1 == if req.fid in store then store else store[req.fid := NewPet()];
    assert req.fid in s1;
    if resp.Frame? {
      var acted := Apply(Loaded(stored), req.action, req.item, shop).pet;
      var alert := if ShouldNotify(acted, req.now) then [Notify(req.fid, AttentionMessage)] else [];
      assert resp.writes == created + alert + [Update(req.fid, resp.pet)];
      CommitAppend(store, created + alert, [Update(req.fid, resp.pet)]);
      CommitAppend(store, created, alert);
      assert Commit(s1, alert) == s1;
    } else {
      assert resp.writes == created;
    }
  }

  /** A refused purchase by a known user persists nothing. */
  lemma RejectedBuyPersistsNothing(store: Store, req: Request, shop: Shop)
    requires req.fid in store && Serve(store, req, shop).Failure?
    ensures After(store, req, shop) == store
    ensures req.action == "buy" && req.item.Some? && req.item.value in shop
    ensures store[req.fid].coins < shop[req.item.value].cost
  {
    AfterEffect(store, req, shop);
    RejectionOnlyForUnaffordableBuy(store[req.fid], req.action, req.item, shop);
  }

  /** A request touches only its own user's row. */
  lemma OtherRowsUntouched(store: Store, req: Request, shop: Shop, other: string)
    requires other != req.fid
    ensures other in After(store, req, shop) <==> other in store
    ensures other in store ==> After(store, req, shop)[other] == store[other]
  {
    AfterEffect(store, req, shop);
  }

  /** With a gentle catalog, every row of the table stays within its ranges. */
  lemma AfterPreservesWellFormed(store: Store, req: Request, shop: Shop)
    requires StoreWellFormed(store) && Gentle(shop)
    ensures StoreWellFormed(After(store, req, shop))
  {
    AfterEffect(store, req, shop);
    var p := if req.fid in store then store[req.fid] else NewPet();
    var step := Apply(p, req.action, req.item, shop);
    if step.Applied? {
      ApplyPreservesWellFormed(p, req.action, req.item, shop);
      assert WellFormed(Notified(step.pet, req.now));
    }
  }

  /** The worked request: a new user feeds the pet. */
  lemma NewUserFeedScenario()
    ensures Serve(map[], Request("u1", "feed", None, 0), ShopItems)
            == Frame(PetState(4, 5, 1, 0), [Insert("u1", PetState(5, 5, 0, 0)), Update("u1", PetState(4, 5, 1, 0))])
  {
  }

  /** The worked refusal: a known user with 2 coins tries to buy a toy. */
  lemma PoorUserToyScenario()
    ensures var store := map["u2" := PetState(5, 5, 2, 0)];
      Serve(store, Request("u2", "buy", Some("toy"), 0), ShopItems) == Failure(400, "Not enough coins", []) &&
      After(store, Request("u2", "buy", Some("toy"), 0), ShopItems) == store
  {
    ShippedCatalog();
  }

  // ---------------------------------------------------------------------------
  // Lemmas about sequences of requests

  /** With a gentle catalog, the ranges hold for every row after any sequence of requests. */
  lemma {:induction false} ReplayPreservesWellFormed(store: Store, reqs: seq<Request>, shop: Shop)
    requires StoreWellFormed(store) && Gentle(shop)
    ensures StoreWellFormed(Replay(store, reqs, shop).store)
    decreases |reqs|
  {
    if reqs != [] {
      AfterPreservesWellFormed(store, reqs[0], shop);
      ReplayPreservesWellFormed(After(store, reqs[0], shop), reqs[1..], shop);
    }
  }

  /** The same for the shipped catalog. */
  lemma ShippedReplayPreservesWellFormed(store: Store, reqs: seq<Request>)
    requires StoreWellFormed(store)
    ensures StoreWellFormed(Replay(store, reqs, ShopItems).store)
  {
    ShippedCatalog();
    ReplayPreservesWellFormed(store, reqs, ShopItems);
  }

  /** Every write a request produces is about that request's user. */
  lemma ServeWritesOwnRow(store: Store, req: Request, shop: Shop)
    ensures forall w :: w in Serve(store, req, shop).writes ==> w.fid == req.fid
  {
  }

  /**
   * The cooldown over time: once a pet's notification time is `t`, requests
   * for it within an hour of `t` never notify and never move `t`, whatever
   * they do and whatever other users' requests come between them.
   */
  lemma {:induction false} QuietWithinCooldown(store: Store, reqs: seq<Request>, shop: Shop, fid: string, t: int)
    requires fid in store && store[fid].lastNotified == t
    requires forall i :: 0 <= i < |reqs| && reqs[i].fid == fid ==> reqs[i].now - t <= NotificationCooldown
    ensures fid in Replay(store, reqs, shop).store
    ensures Replay(store, reqs, shop).store[fid].lastNotified == t
    ensures NoNotifyFor(Replay(store, reqs, shop).writes, fid)
    decreases |reqs|
  {
    if reqs != [] {
      var req := reqs[0];
      var resp := Serve(store, req, shop);
      var next := After(store, req, shop);
      AfterEffect(store, req, shop);
      ServeWritesOwnRow(store, req, shop);
      if req.fid == fid {
        var step := Apply(store[fid], req.action, req.item, shop);
        if step.Applied? {
          SilentWithinCooldown(step.pet, req.now);
          assert !ShouldNotify(step.pet, req.now);
          assert Notify(fid, AttentionMessage) !in resp.writes;
          assert NoNotifyFor(resp.writes, fid);
        } else {
          assert NoNotifyFor(resp.writes, fid);
        }
      } else {
        assert NoNotifyFor(resp.writes, fid);
      }
      assert fid in next && next[fid].lastNotified == t;
      assert forall i :: 0 <= i < |reqs[1..]| && reqs[1..][i].fid == fid ==> reqs[1..][i].now - t <= NotificationCooldown by {
        forall i | 0 <= i < |reqs[1..]| && reqs[1..][i].fid == fid ensures reqs[1..][i].now - t <= NotificationCooldown {
          assert reqs[1..][i] == reqs[i + 1];
        }
      }
      QuietWithinCooldown(next, reqs[1..], shop, fid, t);
      var rest := Replay(next, reqs[1..], shop);
      assert Replay(store, reqs, shop).writes == resp.writes + rest.writes;
    }
  }
}
