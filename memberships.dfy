/** src/_services/membershipService.ts: an enabled store or influencer issues
    memberships; a user marks a membership they hold as used. */
module Memberships {
  import opened Common
  import opened Schema

  /** `store.findFirst({user_id}) || influencer.findFirst({user_id})`: the
      `enabled` flag of the owner found, the store taking precedence. */
  function OwnerEnabled(stores: seq<Store>, influencers: seq<Influencer>, user: nat): (r: Option<bool>)
    ensures (exists i :: 0 <= i < |stores| && stores[i].userId == user) ==>
      exists i :: 0 <= i < |stores| && stores[i].userId == user && r == Some(stores[i].enabled)
    ensures (forall i :: 0 <= i < |stores| ==> stores[i].userId != user) ==>
      (r.None? <==> forall j :: 0 <= j < |influencers| ==> influencers[j].userId != user)
    ensures (forall i :: 0 <= i < |stores| ==> stores[i].userId != user) && r.Some? ==>
      exists j :: 0 <= j < |influencers| && influencers[j].userId == user && r == Some(influencers[j].enabled)
  {
    match FirstIndex(stores, (s: Store) => s.userId == user)
    case Some(i) => Some(stores[i].enabled)
    case None =>
      match FirstIndex(influencers, (f: Influencer) => f.userId == user)
      case Some(j) => Some(influencers[j].enabled)
      case None => None
  }

  /** The row `membership.create` inserts: `store_Id` is the token's user id
      whichever kind of owner issued it, and neither `influencer_Id` nor
      `user_Id` is set. */
  function NewMembership(id: nat, user: nat, info: MembershipInfo, now: int, d: Defaults): Membership
  {
    Membership(id, Some(user), None, None, info, now, d.useYn)
  }

  /** createMembership (src/_services/membershipService.ts:26-87): 403 when
      there is no owner or the owner is disabled, otherwise 201. */
  method CreateMembership(db: Database, info: MembershipInfo, tokenId: nat, now: int)
    returns (status: int, created: Option<Membership>)
    requires db.Valid()
    modifies db`memberships, db`nextMembershipId
    ensures db.Valid()
    ensures status == 403 <==> OwnerEnabled(db.stores, db.influencers, tokenId) != Some(true)
    ensures status in {201, 403}
    ensures status == 403 ==>
      db.memberships == old(db.memberships) && db.nextMembershipId == old(db.nextMembershipId) && created.None?
    ensures status == 201 ==> created == Some(NewMembership(old(db.nextMembershipId), tokenId, info, now, db.defaults))
    ensures status == 201 ==> db.memberships == old(db.memberships) + [created.value]
    ensures status == 201 ==> db.nextMembershipId == old(db.nextMembershipId) + 1
  {
    var owner := OwnerEnabled(db.stores, db.influencers, tokenId);
    if owner != Some(true) {
      return 403, None;
    }
    var row := NewMembership(db.nextMembershipId, tokenId, info, now, db.defaults);
    KeyedAppend(db.memberships, MembershipKey, db.nextMembershipId, row);
    db.memberships := db.memberships + [row];
    db.nextMembershipId := db.nextMembershipId + 1;
    status, created := 201, Some(row);
  }

  /** The columns getAllMembership serialises (not the price). */
  datatype MembershipView = MembershipView(
    id: nat, image: string, subject: string, description: string, expirationPeriod: string,
    discountRate: string, issuer: string)

  function ViewOf(m: Membership): MembershipView
  {
    MembershipView(m.id, m.info.image, m.info.subject, m.info.description, m.info.expirationPeriod,
                   m.info.discountRate, m.info.issuer)
  }

  /** getAllMembership (src/_services/membershipService.ts:106-143). */
  function GetAllMembership(memberships: seq<Membership>): (r: Listing<MembershipView>)
    ensures r.status == 204 <==> |memberships| == 0
    ensures r.status == 204 ==> r.data.None?
    ensures r.status != 204 ==> r.status == 200 && r.data.Some? && |r.data.value| == |memberships|
    ensures r.status != 204 ==> forall i :: 0 <= i < |memberships| ==>
      var v, m := r.data.value[i], memberships[i].info;
      v.id == memberships[i].id && v.image == m.image && v.subject == m.subject && v.description == m.description &&
      v.expirationPeriod == m.expirationPeriod && v.discountRate == m.discountRate && v.issuer == m.issuer
  {
    if |memberships| == 0 then Listing(204, None)
    else Listing(200, Some(seq(|memberships|, i requires 0 <= i < |memberships| => ViewOf(memberships[i]))))
  }

  /** membership.findFirst({user_Id: token id, Id: id}). */
  function FindHeld(memberships: seq<Membership>, user: nat, id: int): (r: Option<nat>)
    ensures r.Some? ==> r.value < |memberships| && memberships[r.value].userId == Some(user) &&
                        memberships[r.value].id == id
    ensures r.None? ==> forall j :: 0 <= j < |memberships| ==>
      memberships[j].userId != Some(user) || memberships[j].id != id
  {
    FirstIndex(memberships, (m: Membership) => m.userId == Some(user) && m.id == id)
  }

  /** The membership table after updateMembershipUseYn. */
  function Used(memberships: seq<Membership>, user: nat, id: int): (r: seq<Membership>)
    ensures |r| == |memberships|
  {
    match FindHeld(memberships, user, id)
    case None => memberships
    case Some(i) => memberships[i := memberships[i].(useYn := true)]
  }

  /** updateMembershipUseYn (src/_services/membershipService.ts:154-199): the
      response carries the flag as it was before the update. */
  method UpdateMembershipUseYn(db: Database, id: int, tokenId: nat) returns (status: int, previous: Option<bool>)
    requires db.Valid()
    modifies db`memberships
    ensures db.Valid()
    ensures status == 404 <==> FindHeld(old(db.memberships), tokenId, id).None?
    ensures status in {200, 404}
    ensures db.memberships == Used(old(db.memberships), tokenId, id)
    ensures status == 404 ==> previous.None?
    ensures status == 200 ==> previous == Some(old(db.memberships)[FindHeld(old(db.memberships), tokenId, id).value].useYn)
  {
    var found := FindHeld(db.memberships, tokenId, id);
    if found.None? {
      return 404, None;
    }
    var i := found.value;
    var before := db.memberships[i].useYn;
    var row := db.memberships[i].(useYn := true);
    KeyedUpdate(db.memberships, MembershipKey, db.nextMembershipId, i, row);
    db.memberships := db.memberships[i := row];
    status, previous := 200, Some(before);
  }

  /** Marking a membership used sets the flag on that row only, and doing it
      again changes nothing and finds the flag already set. */
  lemma {:induction false} UseIdempotent(memberships: seq<Membership>, user: nat, id: int)
    ensures FindHeld(Used(memberships, user, id), user, id) == FindHeld(memberships, user, id)
    ensures Used(Used(memberships, user, id), user, id) == Used(memberships, user, id)
    ensures FindHeld(memberships, user, id).Some? ==>
      Used(memberships, user, id)[FindHeld(memberships, user, id).value].useYn
    ensures forall j :: 0 <= j < |memberships| && (memberships[j].userId != Some(user) || memberships[j].id != id) ==>
      Used(memberships, user, id)[j] == memberships[j]
  {
    var u := Used(memberships, user, id);
    var p := (m: Membership) => m.userId == Some(user) && m.id == id;
    FirstIndexCongruent(u, memberships, p);
    match FindHeld(memberships, user, id)
    case None =>
    case Some(i) =>
      assert u[i := u[i].(useYn := true)] == u;
  }

  /** A membership createMembership just issued has no holder, so no user can
      mark it used: updateMembershipUseYn on its id answers 404. */
  lemma NewMembershipNotHeld(memberships: seq<Membership>, next: nat, user: nat, owner: nat, info: MembershipInfo,
                             now: int, d: Defaults)
    requires Keyed(memberships, MembershipKey, next)
    ensures FindHeld(memberships + [NewMembership(next, owner, info, now, d)], user, next).None?
  {
    var s := memberships + [NewMembership(next, owner, info, now, d)];
    forall j | 0 <= j < |s|
      ensures s[j].userId != Some(user) || s[j].id != next
    {
      if j < |memberships| {
        assert s[j] == memberships[j];
        assert memberships[j] in memberships;
      }
    }
  }
}
