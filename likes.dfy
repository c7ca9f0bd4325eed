/** src/_services/likeServices.ts: liking a notice, an influencer, a store or
    a membership is a toggle on the `like` table. The first request creates a
    row; the next one does not delete it but nulls its target column and sets
    `disabled`, leaving a tombstone. The four service functions differ only in
    the target column and in the table they check the target against. */
module Likes {
  import opened Common
  import opened Schema

  /** The target column a toggle works on. */
  datatype Target = OnNotice | OnInfluencer | OnStore | OnMembership

  function TargetOf(l: Like, t: Target): Option<nat>
  {
    match t
    case OnNotice => l.noticeId
    case OnInfluencer => l.influencerId
    case OnStore => l.storeId
    case OnMembership => l.membershipId
  }

  /** The row `create` inserts: only the target column set, not disabled. */
  function NewLike(id: nat, t: Target, target: nat, user: nat): (l: Like)
    ensures l.id == id && l.userId == user && !l.disabled
    ensures forall u :: TargetOf(l, u) == if u == t then Some(target) else None
  {
    Like(id, user,
      if t == OnNotice then Some(target) else None,
      if t == OnInfluencer then Some(target) else None,
      if t == OnStore then Some(target) else None,
      if t == OnMembership then Some(target) else None,
      false)
  }

  /** The row after `update({target: null, disabled: true})`. */
  function Revoked(l: Like, t: Target): (r: Like)
    ensures r.id == l.id && r.userId == l.userId && r.disabled
    ensures TargetOf(r, t) == None
    ensures forall u :: u != t ==> TargetOf(r, u) == TargetOf(l, u)
  {
    match t
    case OnNotice => l.(noticeId := None, disabled := true)
    case OnInfluencer => l.(influencerId := None, disabled := true)
    case OnStore => l.(storeId := None, disabled := true)
    case OnMembership => l.(membershipId := None, disabled := true)
  }

  predicate Matches(l: Like, t: Target, target: nat, user: nat)
  {
    l.userId == user && TargetOf(l, t) == Some(target)
  }

  /** findFirst({<target column>: target, user_id: user}). */
  function FindLike(likes: seq<Like>, t: Target, target: nat, user: nat): (r: Option<nat>)
    ensures r.Some? ==> r.value < |likes| && Matches(likes[r.value], t, target, user)
    ensures r.Some? ==> forall j :: 0 <= j < r.value ==> !Matches(likes[j], t, target, user)
    ensures r.None? ==> forall j :: 0 <= j < |likes| ==> !Matches(likes[j], t, target, user)
  {
    FirstIndex(likes, (l: Like) => Matches(l, t, target, user))
  }

  /** The like table after one toggle, `freshId` being the next key. */
  function Toggled(likes: seq<Like>, t: Target, target: nat, user: nat, freshId: nat): seq<Like>
  {
    match FindLike(likes, t, target, user)
    case Some(i) => likes[i := Revoked(likes[i], t)]
    case None => likes + [NewLike(freshId, t, target, user)]
  }

  /** `user` currently likes `target` through column `t`. */
  predicate IsLiked(likes: seq<Like>, t: Target, user: nat, target: nat)
  {
    exists i :: 0 <= i < |likes| && Matches(likes[i], t, target, user)
  }

  /** At most one row per (user, non-null target) in column `t`. */
  ghost predicate AtMostOne(likes: seq<Like>, t: Target)
  {
    forall i, j :: 0 <= i < j < |likes| && likes[i].userId == likes[j].userId && TargetOf(likes[i], t).Some? ==>
      TargetOf(likes[i], t) != TargetOf(likes[j], t)
  }

  /** A toggle on any column keeps "at most one live like per pair" in every column. */
  lemma ToggleKeepsAtMostOne(likes: seq<Like>, t: Target, target: nat, user: nat, freshId: nat, u: Target)
    requires AtMostOne(likes, u)
    ensures AtMostOne(Toggled(likes, t, target, user, freshId), u)
  {
    var r := Toggled(likes, t, target, user, freshId);
    match FindLike(likes, t, target, user)
    case Some(k) =>
      forall i, j | 0 <= i < j < |r| && r[i].userId == r[j].userId && TargetOf(r[i], u).Some?
        ensures TargetOf(r[i], u) != TargetOf(r[j], u)
      {
        if i != k && j != k {
          assert r[i] == likes[i] && r[j] == likes[j];
        } else if i == k {
          assert r[j] == likes[j];
        } else {
          assert r[i] == likes[i];
        }
      }
    case None =>
      forall i, j | 0 <= i < j < |r| && r[i].userId == r[j].userId && TargetOf(r[i], u).Some?
        ensures TargetOf(r[i], u) != TargetOf(r[j], u)
      {
        if j == |likes| {
          assert r[i] == likes[i];
          assert !Matches(likes[i], t, target, user);
        } else {
          assert r[i] == likes[i] && r[j] == likes[j];
        }
      }
  }

  /** Under the invariant, a toggle flips exactly the pair it is asked about
      and leaves every other pair of that column as it was. */
  lemma ToggleFlips(likes: seq<Like>, t: Target, target: nat, user: nat, freshId: nat)
    requires AtMostOne(likes, t)
    ensures IsLiked(Toggled(likes, t, target, user, freshId), t, user, target) <==> !IsLiked(likes, t, user, target)
    ensures forall u2: nat, x2: nat :: (u2, x2) != (user, target) ==>
      (IsLiked(Toggled(likes, t, target, user, freshId), t, u2, x2) <==> IsLiked(likes, t, u2, x2))
  {
    var r := Toggled(likes, t, target, user, freshId);
    match FindLike(likes, t, target, user)
    case Some(k) =>
      assert IsLiked(likes, t, user, target) by { assert Matches(likes[k], t, target, user); }
      forall i | 0 <= i < |r|
        ensures !Matches(r[i], t, target, user)
      {
        if i != k {
          assert r[i] == likes[i];
        }
      }
      forall u2: nat, x2: nat | (u2, x2) != (user, target)
        ensures IsLiked(r, t, u2, x2) <==> IsLiked(likes, t, u2, x2)
      {
        if IsLiked(r, t, u2, x2) {
          var i :| 0 <= i < |r| && Matches(r[i], t, x2, u2);
          assert i != k && r[i] == likes[i];
        }
        if IsLiked(likes, t, u2, x2) {
          var i :| 0 <= i < |likes| && Matches(likes[i], t, x2, u2);
          assert i != k && r[i] == likes[i];
        }
      }
    case None =>
      assert Matches(r[|likes|], t, target, user);
      forall u2: nat, x2: nat | (u2, x2) != (user, target)
        ensures IsLiked(r, t, u2, x2) <==> IsLiked(likes, t, u2, x2)
      {
        if IsLiked(r, t, u2, x2) {
          var i :| 0 <= i < |r| && Matches(r[i], t, x2, u2);
          assert i < |likes| && r[i] == likes[i];
        }
        if IsLiked(likes, t, u2, x2) {
          var i :| 0 <= i < |likes| && Matches(likes[i], t, x2, u2);
          assert r[i] == likes[i];
        }
      }
  }

  /** Like then unlike, from a state with no like for the pair: the table
      gains exactly one tombstone (no target, disabled), and the set of live
      likes is what it was, in every column. */
  lemma ToggleTwice(likes: seq<Like>, t: Target, target: nat, user: nat, f1: nat, f2: nat)
    requires FindLike(likes, t, target, user).None?
    ensures Toggled(Toggled(likes, t, target, user, f1), t, target, user, f2) ==
            likes + [Revoked(NewLike(f1, t, target, user), t)]
    ensures forall u :: TargetOf(Revoked(NewLike(f1, t, target, user), t), u) == None
    ensures forall u, u2: nat, x2: nat :: IsLiked(Toggled(Toggled(likes, t, target, user, f1), t, target, user, f2), u, u2, x2)
                                <==> IsLiked(likes, u, u2, x2)
  {
    var once := likes + [NewLike(f1, t, target, user)];
    var p := (l: Like) => Matches(l, t, target, user);
    FirstIndexAppend(likes, NewLike(f1, t, target, user), p);
    assert FindLike(once, t, target, user) == Some(|likes|);
    var twice := likes + [Revoked(NewLike(f1, t, target, user), t)];
    assert Toggled(once, t, target, user, f2) == twice;
    forall u, u2: nat, x2: nat
      ensures IsLiked(twice, u, u2, x2) <==> IsLiked(likes, u, u2, x2)
    {
      if IsLiked(twice, u, u2, x2) {
        var i :| 0 <= i < |twice| && Matches(twice[i], u, x2, u2);
        assert i < |likes| && twice[i] == likes[i];
      }
      if IsLiked(likes, u, u2, x2) {
        var i :| 0 <= i < |likes| && Matches(likes[i], u, x2, u2);
        assert twice[i] == likes[i];
      }
    }
  }

  /** The toggle shared by the four services, once the target is known to exist
      (src/_services/likeServices.ts:53-93). */
  method ToggleLike(db: Database, t: Target, target: nat, user: nat) returns (status: int, created: Option<Like>)
    requires db.Valid()
    modifies db`likes, db`nextLikeId
    ensures db.Valid()
    ensures db.likes == Toggled(old(db.likes), t, target, user, old(db.nextLikeId))
    ensures IsLiked(old(db.likes), t, user, target) ==>
      status == 200 && created == None && db.nextLikeId == old(db.nextLikeId)
    ensures !IsLiked(old(db.likes), t, user, target) ==>
      status == 201 && created == Some(NewLike(old(db.nextLikeId), t, target, user)) &&
      db.nextLikeId == old(db.nextLikeId) + 1
  {
    var existing := FindLike(db.likes, t, target, user);
    if existing.Some? {
      var i := existing.value;
      var revoked := Revoked(db.likes[i], t);
      KeyedUpdate(db.likes, LikeKey, db.nextLikeId, i, revoked);
      db.likes := db.likes[i := revoked];
      status, created := 200, None;
    } else {
      var row := NewLike(db.nextLikeId, t, target, user);
      KeyedAppend(db.likes, LikeKey, db.nextLikeId, row);
      db.likes := db.likes + [row];
      db.nextLikeId := db.nextLikeId + 1;
      status, created := 201, Some(row);
    }
  }

  /** createLikeNotice (src/_services/likeServices.ts:32-103). */
  method CreateLikeNotice(db: Database, noticeId: nat, tokenId: nat) returns (status: int, created: Option<Like>)
    requires db.Valid()
    modifies db`likes, db`nextLikeId
    ensures db.Valid()
    ensures status == 404 <==> FindByKey(db.notices, NoticeKey, noticeId).None?
    ensures status == 404 ==> db.likes == old(db.likes) && db.nextLikeId == old(db.nextLikeId) && created == None
    ensures status != 404 ==> db.likes == Toggled(old(db.likes), OnNotice, noticeId, tokenId, old(db.nextLikeId))
    ensures status != 404 ==> (status == 200 <==> IsLiked(old(db.likes), OnNotice, tokenId, noticeId))
    ensures status in {200, 201, 404}
  {
    if FindByKey(db.notices, NoticeKey, noticeId).None? {
      return 404, None;
    }
    status, created := ToggleLike(db, OnNotice, noticeId, tokenId);
  }

  /** createLikeInfluencer (src/_services/likeServices.ts:195-265). */
  method CreateLikeInfluencer(db: Database, influencerId: nat, tokenId: nat) returns (status: int, created: Option<Like>)
    requires db.Valid()
    modifies db`likes, db`nextLikeId
    ensures db.Valid()
    ensures status == 404 <==> FindByKey(db.influencers, InfluencerKey, influencerId).None?
    ensures status == 404 ==> db.likes == old(db.likes) && db.nextLikeId == old(db.nextLikeId) && created == None
    ensures status != 404 ==> db.likes == Toggled(old(db.likes), OnInfluencer, influencerId, tokenId, old(db.nextLikeId))
    ensures status != 404 ==> (status == 200 <==> IsLiked(old(db.likes), OnInfluencer, tokenId, influencerId))
    ensures status in {200, 201, 404}
  {
    if FindByKey(db.influencers, InfluencerKey, influencerId).None? {
      return 404, None;
    }
    status, created := ToggleLike(db, OnInfluencer, influencerId, tokenId);
  }

  /** createLikeStore (src/_services/likeServices.ts:355-420). */
  method CreateLikeStore(db: Database, storeId: nat, tokenId: nat) returns (status: int, created: Option<Like>)
    requires db.Valid()
    modifies db`likes, db`nextLikeId
    ensures db.Valid()
    ensures status == 404 <==> FindByKey(db.stores, StoreKey, storeId).None?
    ensures status == 404 ==> db.likes == old(db.likes) && db.nextLikeId == old(db.nextLikeId) && created == None
    ensures status != 404 ==> db.likes == Toggled(old(db.likes), OnStore, storeId, tokenId, old(db.nextLikeId))
    ensures status != 404 ==> (status == 200 <==> IsLiked(old(db.likes), OnStore, tokenId, storeId))
    ensures status in {200, 201, 404}
  {
    if FindByKey(db.stores, StoreKey, storeId).None? {
      return 404, None;
    }
    status, created := ToggleLike(db, OnStore, storeId, tokenId);
  }

  /** CreateLikeMembership (src/_services/likeServices.ts:508-579). */
  method CreateLikeMembership(db: Database, membershipId: nat, tokenId: nat) returns (status: int, created: Option<Like>)
    requires db.Valid()
    modifies db`likes, db`nextLikeId
    ensures db.Valid()
    ensures status == 404 <==> FindByKey(db.memberships, MembershipKey, membershipId).None?
    ensures status == 404 ==> db.likes == old(db.likes) && db.nextLikeId == old(db.nextLikeId) && created == None
    ensures status != 404 ==> db.likes == Toggled(old(db.likes), OnMembership, membershipId, tokenId, old(db.nextLikeId))
    ensures status != 404 ==> (status == 200 <==> IsLiked(old(db.likes), OnMembership, tokenId, membershipId))
    ensures status in {200, 201, 404}
  {
    if FindByKey(db.memberships, MembershipKey, membershipId).None? {
      return 404, None;
    }
    status, created := ToggleLike(db, OnMembership, membershipId, tokenId);
  }

  // ---------------------------------------------------------------------------
  // The four getLikeListFor* reads.

  /** findMany({user_id: user, <target column>: {not: null}}). */
  function LikedRows(likes: seq<Like>, t: Target, user: nat): seq<Like>
  {
    Filter(likes, (l: Like) => l.userId == user && TargetOf(l, t).Some?)
  }

  /** getLikeListForNotice / ForInfluencer / ForStore / ForMembership
      (src/_services/likeServices.ts:123-170, 285-332, 440-486, 598-647):
      always status 200; no data, only a message, when the user has no live
      like in that column; otherwise one entry per live like, in table order. */
  function LikeList(likes: seq<Like>, t: Target, user: nat): (r: Listing<Option<nat>>)
    ensures r.status == 200
    ensures r.data.None? <==> forall i :: 0 <= i < |likes| ==> !(likes[i].userId == user && TargetOf(likes[i], t).Some?)
    ensures r.data.Some? ==> |r.data.value| == |LikedRows(likes, t, user)|
  {
    var rows := LikedRows(likes, t, user);
    if |rows| == 0 then Listing(200, None)
    else
      assert rows[0] in likes && rows[0].userId == user && TargetOf(rows[0], t).Some?;
      Listing(200, Some(seq(|rows|, i requires 0 <= i < |rows| => Serialized(TargetOf(rows[i], t)))))
  }

  /** The list shows exactly the live likes: a (positive) target is in the
      user's list iff the toggles left it liked, so tombstones never appear. */
  lemma LikeListShowsLiked(likes: seq<Like>, t: Target, user: nat, target: nat)
    requires target > 0
    ensures (LikeList(likes, t, user).data.Some? && Some(target) in LikeList(likes, t, user).data.value)
            <==> IsLiked(likes, t, user, target)
  {
    var rows := LikedRows(likes, t, user);
    var r := LikeList(likes, t, user);
    if r.data.Some? && Some(target) in r.data.value {
      var k :| 0 <= k < |r.data.value| && r.data.value[k] == Some(target);
      assert rows[k] in likes;
      var i :| 0 <= i < |likes| && likes[i] == rows[k];
      assert Matches(likes[i], t, target, user);
    }
    if IsLiked(likes, t, user, target) {
      var i :| 0 <= i < |likes| && Matches(likes[i], t, target, user);
      assert likes[i] in rows;
      var k :| 0 <= k < |rows| && rows[k] == likes[i];
      assert r.data.value[k] == Some(target);
    }
  }
}
