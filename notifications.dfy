/** src/_services/notificationService.ts: on request, a user is sent one
    notification per membership created in the last 24 hours by a store (or
    an influencer) they actively follow, or one per public notice of the last
    24 hours. Notifications are only ever appended. */
module Notifications {
  import opened Common
  import opened Schema

  /** The look-back window, 24 * 60 * 60 * 1000 milliseconds. */
  const DayMs: int := 86400000

  const MembershipTitle: string := "\U{C0C8} \U{BA64}\U{BC84}\U{C2ED} \U{C54C}\U{B9BC}"
  const NoticeTitle: string := "\U{ACF5}\U{C9C0}\U{C0AC}\U{D56D}"

  /** Which kind of followed owner a membership alert is about. */
  datatype Channel = ViaStore | ViaInfluencer

  function FollowedId(s: Subscription, c: Channel): Option<nat>
  {
    match c
    case ViaStore => s.storeId
    case ViaInfluencer => s.influencerId
  }

  function Deactivated(s: Subscription, c: Channel): bool
  {
    match c
    case ViaStore => s.storeDeactivate
    case ViaInfluencer => s.influencerDeactivate
  }

  function OwnerOf(m: Membership, c: Channel): Option<nat>
  {
    match c
    case ViaStore => m.storeId
    case ViaInfluencer => m.influencerId
  }

  /** An active follow of `user` through channel `c`, of owner `x`. */
  predicate Follows(s: Subscription, c: Channel, user: nat, x: nat)
  {
    s.userId == user && !Deactivated(s, c) && FollowedId(s, c) == Some(x)
  }

  /** findMany({user_Id, <c>_deactivate: false}), then `.map(<c>_Id)` and
      `.filter(id !== null)`: the owners the user actively follows. */
  function FollowedIds(subs: seq<Subscription>, c: Channel, user: nat): (ids: seq<nat>)
    ensures |ids| <= |subs|
    ensures forall x :: x in ids <==> exists i :: 0 <= i < |subs| && Follows(subs[i], c, user, x)
  {
    if |subs| == 0 then []
    else
      var rest := FollowedIds(subs[1..], c, user);
      if subs[0].userId == user && !Deactivated(subs[0], c) && FollowedId(subs[0], c).Some?
      then [FollowedId(subs[0], c).value] + rest
      else rest
  }

  /** membership.findMany({<c>_Id: {in: ids}, CreateDate: {gte: now - DayMs}}). */
  predicate Fresh(m: Membership, c: Channel, ids: seq<nat>, now: int)
  {
    OwnerOf(m, c).Some? && OwnerOf(m, c).value in ids && m.createDate >= now - DayMs
  }

  /** The memberships that trigger an alert, in table order. */
  function Alerts(subs: seq<Subscription>, ms: seq<Membership>, c: Channel, user: nat, now: int): seq<Membership>
  {
    var ids := FollowedIds(subs, c, user);
    Filter(ms, (m: Membership) => Fresh(m, c, ids, now))
  }

  /** notices.findMany({status: "PUBLIC", CreateDate: {gte: now - DayMs}}). */
  function NoticeAlerts(notices: seq<Notice>, now: int): seq<Notice>
  {
    Filter(notices, (n: Notice) => n.status == Public && n.createDate >= now - DayMs)
  }

  /** The columns one `notification.create` sets besides its key and user. */
  datatype Draft = Draft(title: string, storeId: Option<nat>, influencerId: Option<nat>)

  function MembershipDraft(c: Channel): Membership -> Draft
  {
    (m: Membership) =>
      match c
      case ViaStore => Draft(MembershipTitle, m.storeId, None)
      case ViaInfluencer => Draft(MembershipTitle, None, m.influencerId)
  }

  function NoticeDraft(n: Notice): Draft
  {
    Draft(NoticeTitle, None, None)
  }

  function Materialize(d: Draft, id: nat, user: nat): Notification
  {
    Notification(id, user, d.title, d.storeId, d.influencerId)
  }

  /** The rows the creation loop appends for `items`, keys from `firstId` on. */
  function Created<T>(items: seq<T>, draft: T -> Draft, user: nat, firstId: nat): (r: seq<Notification>)
    ensures |r| == |items|
  {
    seq(|items|, k requires 0 <= k < |items| => Materialize(draft(items[k]), firstId + k, user))
  }

  /** One more iteration of the creation loop appends one more row. */
  lemma CreatedStep<T>(items: seq<T>, draft: T -> Draft, user: nat, firstId: nat, k: nat)
    requires k < |items|
    ensures Created(items[..k + 1], draft, user, firstId) ==
            Created(items[..k], draft, user, firstId) + [Materialize(draft(items[k]), firstId + k, user)]
  {
    var a := Created(items[..k + 1], draft, user, firstId);
    var b := Created(items[..k], draft, user, firstId) + [Materialize(draft(items[k]), firstId + k, user)];
    forall j | 0 <= j < |a|
      ensures a[j] == b[j]
    {
      assert items[..k + 1][j] == items[j];
      if j < k {
        assert items[..k][j] == items[j];
      }
    }
  }

  /** The `for ... of` loop shared by the three services: one
      `notification.create` per item, collected in `created`. */
  method CreateNotifications<T>(db: Database, user: nat, items: seq<T>, draft: T -> Draft)
    returns (created: seq<Notification>)
    requires db.Valid()
    modifies db`notifications, db`nextNotificationId
    ensures db.Valid()
    ensures created == Created(items, draft, user, old(db.nextNotificationId))
    ensures db.notifications == old(db.notifications) + created
    ensures db.nextNotificationId == old(db.nextNotificationId) + |items|
  {
    ghost var first := db.nextNotificationId;
    ghost var before := db.notifications;
    created := [];
    for k := 0 to |items|
      invariant Keyed(db.notifications, NotificationKey, db.nextNotificationId)
      invariant created == Created(items[..k], draft, user, first)
      invariant db.notifications == before + created
      invariant db.nextNotificationId == first + k
    {
      CreatedStep(items, draft, user, first, k);
      var n := Materialize(draft(items[k]), db.nextNotificationId, user);
      KeyedAppend(db.notifications, NotificationKey, db.nextNotificationId, n);
      db.notifications := db.notifications + [n];
      db.nextNotificationId := db.nextNotificationId + 1;
      created := created + [n];
    }
    assert items[..|items|] == items;
  }

  /** user_setting.findFirst({user_Id: user}). */
  function FindSetting(settings: seq<UserSetting>, user: nat): (r: Option<nat>)
    ensures r.Some? ==> r.value < |settings| && settings[r.value].userId == user
    ensures r.None? ==> forall j :: 0 <= j < |settings| ==> settings[j].userId != user
  {
    FirstIndex(settings, (s: UserSetting) => s.userId == user)
  }

  /** The user's notify switch is "OFF". */
  predicate SwitchedOff(settings: seq<UserSetting>, user: nat)
  {
    var f := FindSetting(settings, user);
    f.Some? && settings[f.value].notify == Off
  }

  /** notifyMembershipForStore (src/_services/notificationService.ts:33-119):
      `userSetting!.notify` throws on a missing setting, which ends in 500. */
  method NotifyMembershipForStore(db: Database, user: nat, now: int) returns (status: int, created: seq<Notification>)
    requires db.Valid()
    modifies db`notifications, db`nextNotificationId
    ensures db.Valid()
    ensures FindSetting(db.settings, user).None? ==> status == 500
    ensures SwitchedOff(db.settings, user) ==> status == 200
    ensures status != 500 && !SwitchedOff(db.settings, user) ==>
      created == Created(Alerts(db.subscriptions, db.memberships, ViaStore, user, now), MembershipDraft(ViaStore),
                         user, old(db.nextNotificationId))
    ensures db.notifications == old(db.notifications) + created
    ensures status == 201 <==> |created| > 0
    ensures status in {200, 201, 500}
  {
    var setting := FindSetting(db.settings, user);
    if setting.None? {
      return 500, [];
    }
    if db.settings[setting.value].notify == Off {
      return 200, [];
    }
    var ids := FollowedIds(db.subscriptions, ViaStore, user);
    var recent := Filter(db.memberships, (m: Membership) => Fresh(m, ViaStore, ids, now));
    created := CreateNotifications(db, user, recent, MembershipDraft(ViaStore));
    status := if |created| > 0 then 201 else 200;
  }

  /** notifyMembershipForInfluencer (src/_services/notificationService.ts:142-228):
      `userSetting?.notify` lets a missing setting through. */
  method NotifyMembershipForInfluencer(db: Database, user: nat, now: int) returns (status: int, created: seq<Notification>)
    requires db.Valid()
    modifies db`notifications, db`nextNotificationId
    ensures db.Valid()
    ensures SwitchedOff(db.settings, user) ==> status == 200 && created == []
    ensures !SwitchedOff(db.settings, user) ==>
      created == Created(Alerts(db.subscriptions, db.memberships, ViaInfluencer, user, now), MembershipDraft(ViaInfluencer),
                         user, old(db.nextNotificationId))
    ensures db.notifications == old(db.notifications) + created
    ensures status == 201 <==> |created| > 0
    ensures status in {200, 201}
  {
    var setting := FindSetting(db.settings, user);
    if setting.Some? && db.settings[setting.value].notify == Off {
      return 200, [];
    }
    var ids := FollowedIds(db.subscriptions, ViaInfluencer, user);
    var recent := Filter(db.memberships, (m: Membership) => Fresh(m, ViaInfluencer, ids, now));
    created := CreateNotifications(db, user, recent, MembershipDraft(ViaInfluencer));
    status := if |created| > 0 then 201 else 200;
  }

  /** notifyForNotices (src/_services/notificationService.ts:251-311): no
      setting and no subscription is consulted. */
  method NotifyForNotices(db: Database, user: nat, now: int) returns (status: int, created: seq<Notification>)
    requires db.Valid()
    modifies db`notifications, db`nextNotificationId
    ensures db.Valid()
    ensures created == Created(NoticeAlerts(db.notices, now), NoticeDraft, user, old(db.nextNotificationId))
    ensures db.notifications == old(db.notifications) + created
    ensures status == 201 <==> |created| > 0
    ensures status in {200, 201}
  {
    var recent := NoticeAlerts(db.notices, now);
    created := CreateNotifications(db, user, recent, NoticeDraft);
    status := if |created| > 0 then 201 else 200;
  }

  /** A membership raises an alert exactly when it was created in the last
      day by an owner the user follows through a live subscription. */
  lemma AlertsExact(subs: seq<Subscription>, ms: seq<Membership>, c: Channel, user: nat, now: int, m: Membership)
    ensures m in Alerts(subs, ms, c, user, now) <==>
      m in ms && m.createDate >= now - DayMs && OwnerOf(m, c).Some? &&
      exists i :: 0 <= i < |subs| && Follows(subs[i], c, user, OwnerOf(m, c).value)
  {
    var ids := FollowedIds(subs, c, user);
    var a := Alerts(subs, ms, c, user, now);
    if m in ms && Fresh(m, c, ids, now) {
      var i :| 0 <= i < |ms| && ms[i] == m;
      assert ms[i] in a;
    }
    if m in a {
      var k :| 0 <= k < |a| && a[k] == m;
      assert Fresh(a[k], c, ids, now);
    }
  }

  /** Every membership alert goes to the requesting user and names an owner
      that user follows through a live subscription. */
  lemma AlertsNameFollowedOwner(subs: seq<Subscription>, ms: seq<Membership>, c: Channel, user: nat, now: int,
                                firstId: nat)
    ensures forall k :: 0 <= k < |Alerts(subs, ms, c, user, now)| ==>
      var n := Created(Alerts(subs, ms, c, user, now), MembershipDraft(c), user, firstId)[k];
      n.userId == user && n.title == MembershipTitle && n.id == firstId + k &&
      exists i :: 0 <= i < |subs| && subs[i].userId == user && !Deactivated(subs[i], c) &&
        FollowedId(subs[i], c) == (if c == ViaStore then n.storeId else n.influencerId)
  {
    var a := Alerts(subs, ms, c, user, now);
    var ids := FollowedIds(subs, c, user);
    var cr := Created(a, MembershipDraft(c), user, firstId);
    forall k | 0 <= k < |a|
      ensures exists i ::
        0 <= i < |subs| && subs[i].userId == user && !Deactivated(subs[i], c) &&
        FollowedId(subs[i], c) == (if c == ViaStore then cr[k].storeId else cr[k].influencerId)
    {
      assert Fresh(a[k], c, ids, now);
      var x := OwnerOf(a[k], c).value;
      var i :| 0 <= i < |subs| && Follows(subs[i], c, user, x);
    }
  }

  /** A notice alert is raised exactly for each public notice of the last day. */
  lemma NoticeAlertsExact(notices: seq<Notice>, now: int, n: Notice)
    ensures n in NoticeAlerts(notices, now) <==> n in notices && n.status == Public && n.createDate >= now - DayMs
  {
    var a := NoticeAlerts(notices, now);
    if n in notices && n.status == Public && n.createDate >= now - DayMs {
      var i :| 0 <= i < |notices| && notices[i] == n;
      assert notices[i] in a;
    }
  }
}
