/** src/_services/subscriptionService.ts: subscribing to an influencer or a
    store is a toggle that creates the row or physically deletes it. Neither
    toggle checks that the target exists. */
module Subscriptions {
  import opened Common
  import opened Schema

  /** The target column a subscription toggle works on. */
  datatype SubTarget = ToInfluencer | ToStore

  function SubTargetOf(s: Subscription, k: SubTarget): Option<nat>
  {
    match k
    case ToInfluencer => s.influencerId
    case ToStore => s.storeId
  }

  predicate SubMatches(s: Subscription, k: SubTarget, target: nat, user: nat)
  {
    s.userId == user && SubTargetOf(s, k) == Some(target)
  }

  /** The row `create({<target column>: target, user_Id: user})` inserts; the
      two `*_deactivate` flags take the column default. */
  function NewSubscription(id: nat, k: SubTarget, target: nat, user: nat, deactivated: bool): (s: Subscription)
    ensures s.id == id && SubMatches(s, k, target, user)
    ensures forall k2 :: k2 != k ==> SubTargetOf(s, k2) == None
    ensures s.influencerDeactivate == deactivated && s.storeDeactivate == deactivated
  {
    match k
    case ToInfluencer => Subscription(id, user, Some(target), None, deactivated, deactivated)
    case ToStore => Subscription(id, user, None, Some(target), deactivated, deactivated)
  }

  /** findFirst({<target column>: target, user_Id: user}). */
  function FindSubscription(subs: seq<Subscription>, k: SubTarget, target: nat, user: nat): (r: Option<nat>)
    ensures r.Some? ==> r.value < |subs| && SubMatches(subs[r.value], k, target, user)
    ensures r.Some? ==> forall j :: 0 <= j < r.value ==> !SubMatches(subs[j], k, target, user)
    ensures r.None? ==> forall j :: 0 <= j < |subs| ==> !SubMatches(subs[j], k, target, user)
  {
    FirstIndex(subs, (s: Subscription) => SubMatches(s, k, target, user))
  }

  /** The subscription table after one toggle. */
  function SubToggled(subs: seq<Subscription>, k: SubTarget, target: nat, user: nat, freshId: nat, deactivated: bool)
    : seq<Subscription>
  {
    match FindSubscription(subs, k, target, user)
    case Some(i) => RemoveAt(subs, i)
    case None => subs + [NewSubscription(freshId, k, target, user, deactivated)]
  }

  predicate IsSubscribed(subs: seq<Subscription>, k: SubTarget, user: nat, target: nat)
  {
    exists i :: 0 <= i < |subs| && SubMatches(subs[i], k, target, user)
  }

  /** At most one row per (user, non-null target) in column `k`. */
  ghost predicate AtMostOneSub(subs: seq<Subscription>, k: SubTarget)
  {
    forall i, j :: 0 <= i < j < |subs| && subs[i].userId == subs[j].userId && SubTargetOf(subs[i], k).Some? ==>
      SubTargetOf(subs[i], k) != SubTargetOf(subs[j], k)
  }

  /** Subscribing and then unsubscribing gives back the very same table,
      because the second toggle deletes the row the first one created. */
  lemma SubToggleTwice(subs: seq<Subscription>, k: SubTarget, target: nat, user: nat, f1: nat, f2: nat, d: bool)
    requires FindSubscription(subs, k, target, user).None?
    ensures SubToggled(SubToggled(subs, k, target, user, f1, d), k, target, user, f2, d) == subs
  {
    var row := NewSubscription(f1, k, target, user, d);
    FirstIndexAppend(subs, row, (s: Subscription) => SubMatches(s, k, target, user));
    assert FindSubscription(subs + [row], k, target, user) == Some(|subs|);
    assert RemoveAt(subs + [row], |subs|) == subs;
  }

  /** A toggle on either column keeps "at most one row per pair" in both columns. */
  lemma SubToggleKeepsAtMostOne(subs: seq<Subscription>, k: SubTarget, target: nat, user: nat, freshId: nat, d: bool,
                                 u: SubTarget)
    requires AtMostOneSub(subs, u)
    ensures AtMostOneSub(SubToggled(subs, k, target, user, freshId, d), u)
  {
    var r := SubToggled(subs, k, target, user, freshId, d);
    match FindSubscription(subs, k, target, user)
    case Some(x) =>
      forall i, j | 0 <= i < j < |r| && r[i].userId == r[j].userId && SubTargetOf(r[i], u).Some?
        ensures SubTargetOf(r[i], u) != SubTargetOf(r[j], u)
      {
        var i', j' := if i < x then i else i + 1, if j < x then j else j + 1;
        assert r[i] == subs[i'] && r[j] == subs[j'];
      }
    case None =>
      forall i, j | 0 <= i < j < |r| && r[i].userId == r[j].userId && SubTargetOf(r[i], u).Some?
        ensures SubTargetOf(r[i], u) != SubTargetOf(r[j], u)
      {
        assert r[i] == subs[i];
        if j == |subs| {
          assert !SubMatches(subs[i], k, target, user);
        } else {
          assert r[j] == subs[j];
        }
      }
  }

  /** Under the invariant, a toggle flips the subscription it is asked about
      and leaves every other pair of that column alone. */
  lemma SubToggleFlips(subs: seq<Subscription>, k: SubTarget, target: nat, user: nat, freshId: nat, d: bool)
    requires AtMostOneSub(subs, k)
    ensures IsSubscribed(SubToggled(subs, k, target, user, freshId, d), k, user, target) <==> !IsSubscribed(subs, k, user, target)
    ensures forall u2: nat, x2: nat :: (u2, x2) != (user, target) ==>
      (IsSubscribed(SubToggled(subs, k, target, user, freshId, d), k, u2, x2) <==> IsSubscribed(subs, k, u2, x2))
  {
    var r := SubToggled(subs, k, target, user, freshId, d);
    match FindSubscription(subs, k, target, user)
    case Some(x) =>
      assert SubMatches(subs[x], k, target, user);
      forall i | 0 <= i < |r|
        ensures !SubMatches(r[i], k, target, user)
      {
        var i' := if i < x then i else i + 1;
        assert r[i] == subs[i'];
      }
      forall u2: nat, x2: nat | (u2, x2) != (user, target)
        ensures IsSubscribed(r, k, u2, x2) <==> IsSubscribed(subs, k, u2, x2)
      {
        if IsSubscribed(r, k, u2, x2) {
          var i :| 0 <= i < |r| && SubMatches(r[i], k, x2, u2);
          var i' := if i < x then i else i + 1;
          assert r[i] == subs[i'];
        }
        if IsSubscribed(subs, k, u2, x2) {
          var i :| 0 <= i < |subs| && SubMatches(subs[i], k, x2, u2);
          assert i != x;
          var i' := if i < x then i else i - 1;
          assert r[i'] == subs[i];
        }
      }
    case None =>
      assert SubMatches(r[|subs|], k, target, user);
      forall u2: nat, x2: nat | (u2, x2) != (user, target)
        ensures IsSubscribed(r, k, u2, x2) <==> IsSubscribed(subs, k, u2, x2)
      {
        if IsSubscribed(r, k, u2, x2) {
          var i :| 0 <= i < |r| && SubMatches(r[i], k, x2, u2);
          assert i < |subs| && r[i] == subs[i];
        }
        if IsSubscribed(subs, k, u2, x2) {
          var i :| 0 <= i < |subs| && SubMatches(subs[i], k, x2, u2);
          assert r[i] == subs[i];
        }
      }
  }

  /** Two toggles of the same pair, from any state that keeps the invariant,
      restore who is subscribed to what, even when the first toggle deletes
      and the second re-creates under a new key. */
  lemma {:induction false} SubToggleTwiceRestoresPairs(subs: seq<Subscription>, k: SubTarget, target: nat, user: nat,
                                                        f1: nat, f2: nat, d: bool)
    requires AtMostOneSub(subs, k)
    ensures forall u2: nat, x2: nat ::
      IsSubscribed(SubToggled(SubToggled(subs, k, target, user, f1, d), k, target, user, f2, d), k, u2, x2)
      <==> IsSubscribed(subs, k, u2, x2)
  {
    var once := SubToggled(subs, k, target, user, f1, d);
    SubToggleFlips(subs, k, target, user, f1, d);
    SubToggleKeepsAtMostOne(subs, k, target, user, f1, d, k);
    SubToggleFlips(once, k, target, user, f2, d);
  }

  /** The toggle shared by both services (src/_services/subscriptionService.ts:31-68). */
  method ToggleSubscription(db: Database, k: SubTarget, target: nat, user: nat)
    returns (status: int, created: Option<Subscription>)
    requires db.Valid()
    modifies db`subscriptions, db`nextSubscriptionId
    ensures db.Valid()
    ensures db.subscriptions ==
            SubToggled(old(db.subscriptions), k, target, user, old(db.nextSubscriptionId), db.defaults.deactivated)
    ensures status == 200 <==> IsSubscribed(old(db.subscriptions), k, user, target)
    ensures status == 200 ==> created == None && db.nextSubscriptionId == old(db.nextSubscriptionId)
    ensures status != 200 ==> status == 201 && db.nextSubscriptionId == old(db.nextSubscriptionId) + 1
    ensures status != 200 ==>
      created == Some(NewSubscription(old(db.nextSubscriptionId), k, target, user, db.defaults.deactivated))
  {
    var existing := FindSubscription(db.subscriptions, k, target, user);
    if existing.Some? {
      var i := existing.value;
      KeyedRemove(db.subscriptions, SubscriptionKey, db.nextSubscriptionId, i);
      db.subscriptions := RemoveAt(db.subscriptions, i);
      status, created := 200, None;
    } else {
      var row := NewSubscription(db.nextSubscriptionId, k, target, user, db.defaults.deactivated);
      KeyedAppend(db.subscriptions, SubscriptionKey, db.nextSubscriptionId, row);
      db.subscriptions := db.subscriptions + [row];
      db.nextSubscriptionId := db.nextSubscriptionId + 1;
      status, created := 201, Some(row);
    }
  }

  /** subInfluencer (src/_services/subscriptionService.ts:28-78): never 404,
      the influencer is not looked up. */
  method SubInfluencer(db: Database, influencerId: nat, tokenId: nat) returns (status: int, created: Option<Subscription>)
    requires db.Valid()
    modifies db`subscriptions, db`nextSubscriptionId
    ensures db.Valid()
    ensures db.subscriptions == SubToggled(old(db.subscriptions), ToInfluencer, influencerId, tokenId,
                                           old(db.nextSubscriptionId), db.defaults.deactivated)
    ensures status == 200 <==> IsSubscribed(old(db.subscriptions), ToInfluencer, tokenId, influencerId)
    ensures status in {200, 201}
  {
    status, created := ToggleSubscription(db, ToInfluencer, influencerId, tokenId);
  }

  /** subStore (src/_services/subscriptionService.ts:98-148). */
  method SubStore(db: Database, storeId: nat, tokenId: nat) returns (status: int, created: Option<Subscription>)
    requires db.Valid()
    modifies db`subscriptions, db`nextSubscriptionId
    ensures db.Valid()
    ensures db.subscriptions == SubToggled(old(db.subscriptions), ToStore, storeId, tokenId,
                                           old(db.nextSubscriptionId), db.defaults.deactivated)
    ensures status == 200 <==> IsSubscribed(old(db.subscriptions), ToStore, tokenId, storeId)
    ensures status in {200, 201}
  {
    status, created := ToggleSubscription(db, ToStore, storeId, tokenId);
  }

  // ---------------------------------------------------------------------------
  // The three list reads.

  /** findMany({user_Id: user, <target column>: {not: null}}). */
  function SubscribedRows(subs: seq<Subscription>, k: SubTarget, user: nat): seq<Subscription>
  {
    Filter(subs, (s: Subscription) => s.userId == user && SubTargetOf(s, k).Some?)
  }

  /** getSubListForInfluencer / getSubListForStore
      (src/_services/subscriptionService.ts:168-203, 223-256): 204 and no data
      when the user has no such row, otherwise 200 and one entry per row. */
  function SubList(subs: seq<Subscription>, k: SubTarget, user: nat): (r: Listing<Option<nat>>)
    ensures r.status == 204 <==> forall i :: 0 <= i < |subs| ==> !(subs[i].userId == user && SubTargetOf(subs[i], k).Some?)
    ensures r.status == 204 ==> r.data.None?
    ensures r.status != 204 ==> r.status == 200 && r.data.Some? && |r.data.value| == |SubscribedRows(subs, k, user)|
  {
    var rows := SubscribedRows(subs, k, user);
    if |rows| == 0 then Listing(204, None)
    else
      assert rows[0] in subs && rows[0].userId == user && SubTargetOf(rows[0], k).Some?;
      Listing(200, Some(seq(|rows|, i requires 0 <= i < |rows| => Serialized(SubTargetOf(rows[i], k)))))
  }

  /** A (positive) target is listed iff the user is subscribed to it. */
  lemma SubListShowsSubscribed(subs: seq<Subscription>, k: SubTarget, user: nat, target: nat)
    requires target > 0
    ensures (SubList(subs, k, user).data.Some? && Some(target) in SubList(subs, k, user).data.value)
            <==> IsSubscribed(subs, k, user, target)
  {
    var rows := SubscribedRows(subs, k, user);
    var r := SubList(subs, k, user);
    if r.data.Some? && Some(target) in r.data.value {
      var x :| 0 <= x < |r.data.value| && r.data.value[x] == Some(target);
      assert rows[x] in subs;
      var i :| 0 <= i < |subs| && subs[i] == rows[x];
      assert SubMatches(subs[i], k, target, user);
    }
    if IsSubscribed(subs, k, user, target) {
      var i :| 0 <= i < |subs| && SubMatches(subs[i], k, target, user);
      assert subs[i] in rows;
      var x :| 0 <= x < |rows| && rows[x] == subs[i];
      assert r.data.value[x] == Some(target);
    }
  }

  /** One entry of getSubscriptionList: `?.toString()` keeps 0 and maps null to undefined. */
  datatype SubEntry = SubEntry(storeId: Option<nat>, influencerId: Option<nat>)

  /** `subscription.store_Id || subscription.influencer_Id` as a JS condition. */
  predicate Truthy(id: Option<nat>)
  {
    id.Some? && id.value != 0
  }

  predicate Kept(s: Subscription)
  {
    Truthy(s.storeId) || Truthy(s.influencerId)
  }

  function EntryOf(s: Subscription): SubEntry
  {
    SubEntry(s.storeId, s.influencerId)
  }

  /** getSubscriptionList (src/_services/subscriptionService.ts:267-317):
      always 200; no data when the user has no row at all; otherwise the rows
      with a truthy store or influencer id, which may leave an empty list. */
  function SubscriptionList(subs: seq<Subscription>, user: nat): (r: Listing<SubEntry>)
    ensures r.status == 200
    ensures r.data.None? <==> forall i :: 0 <= i < |subs| ==> subs[i].userId != user
  {
    var rows := Filter(subs, (s: Subscription) => s.userId == user);
    if |rows| == 0 then Listing(200, None)
    else
      assert rows[0] in subs && rows[0].userId == user;
      var kept := Filter(rows, Kept);
      Listing(200, Some(seq(|kept|, i requires 0 <= i < |kept| => EntryOf(kept[i]))))
  }

  /** The full list holds exactly the user's rows that have a truthy store or
      influencer id. */
  lemma SubscriptionListExact(subs: seq<Subscription>, user: nat, e: SubEntry)
    ensures (SubscriptionList(subs, user).data.Some? && e in SubscriptionList(subs, user).data.value)
            <==> exists i :: 0 <= i < |subs| && subs[i].userId == user && Kept(subs[i]) && EntryOf(subs[i]) == e
  {
    var rows := Filter(subs, (s: Subscription) => s.userId == user);
    var kept := Filter(rows, Kept);
    var r := SubscriptionList(subs, user);
    if r.data.Some? && e in r.data.value {
      var x :| 0 <= x < |r.data.value| && r.data.value[x] == e;
      assert kept[x] in rows;
      var y :| 0 <= y < |rows| && rows[y] == kept[x];
      assert rows[y] in subs;
      var i :| 0 <= i < |subs| && subs[i] == rows[y];
      assert subs[i].userId == user && Kept(subs[i]) && EntryOf(subs[i]) == e;
    }
    if exists i :: 0 <= i < |subs| && subs[i].userId == user && Kept(subs[i]) && EntryOf(subs[i]) == e {
      var i :| 0 <= i < |subs| && subs[i].userId == user && Kept(subs[i]) && EntryOf(subs[i]) == e;
      assert subs[i] in rows;
      var y :| 0 <= y < |rows| && rows[y] == subs[i];
      assert rows[y] in kept;
      var x :| 0 <= x < |kept| && kept[x] == rows[y];
      assert r.data.value[x] == e;
    }
  }
}
