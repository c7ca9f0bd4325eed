/** The relational store behind the services. Each record type lists the
    columns the services read or write (the interfaces under types/interface give the field
    names); every table is a field of one `Database` object, updated in place
    by the service methods, with an auto-increment counter per table that
    creates rows. */
module Schema {
  import opened Common

  datatype User = User(
    id: nat,
    email: string,
    name: string,
    role: string,
    verificationCode: Option<string>,
    isVerified: bool,
    refreshToken: Option<string>,
    disabled: bool)

  /** A code issued to an address that has no account yet. */
  datatype VerificationCode = VerificationCode(id: nat, email: string, code: string, expiresAt: int)

  /** The columns createStore fills in. */
  datatype StoreCard = StoreCard(
    name: string, zipCode: string, addressEtc: string, phone: string, country: string, address: string)

  /** The further columns only updateStore writes; null until then. */
  datatype StoreExtras = StoreExtras(
    openTime: Option<string>, closeTime: Option<string>, openDays: Option<string>,
    website: Option<string>, images: Option<string>, kind: Option<string>,
    referralCode: Option<string>)

  datatype Store = Store(id: nat, userId: nat, card: StoreCard, extras: StoreExtras, enabled: bool)

  datatype InfluencerCard = InfluencerCard(
    account: string, imageUrl: string, contents: string, referralCode: string, website: string)

  datatype Influencer = Influencer(id: nat, userId: nat, card: InfluencerCard, enabled: bool)

  datatype NoticeStatus = Public | Private

  datatype Notice = Notice(
    id: nat,
    userId: nat,
    subject: string,
    contents: string,
    startDate: Option<string>,
    endDate: Option<string>,
    status: NoticeStatus,
    createDate: int)

  /** The descriptive columns of a membership, copied from the request. */
  datatype MembershipInfo = MembershipInfo(
    image: string, subject: string, description: string, expirationPeriod: string,
    discountRate: string, issuer: string, price: string)

  datatype Membership = Membership(
    id: nat,
    storeId: Option<nat>,
    influencerId: Option<nat>,
    userId: Option<nat>,
    info: MembershipInfo,
    createDate: int,
    useYn: bool)

  /** A like row points at one target; a revoked like has its target nulled
      and `disabled` set. */
  datatype Like = Like(
    id: nat,
    userId: nat,
    noticeId: Option<nat>,
    influencerId: Option<nat>,
    storeId: Option<nat>,
    membershipId: Option<nat>,
    disabled: bool)

  datatype Subscription = Subscription(
    id: nat,
    userId: nat,
    influencerId: Option<nat>,
    storeId: Option<nat>,
    influencerDeactivate: bool,
    storeDeactivate: bool)

  datatype Notification = Notification(
    id: nat,
    userId: nat,
    title: string,
    storeId: Option<nat>,
    influencerId: Option<nat>)

  datatype Switch = On | Off

  datatype UserSetting = UserSetting(userId: nat, notify: Switch)

  /** Column defaults the database fills in when a service leaves a column
      out of `create`. The schema is not part of this model, so they are
      parameters of the database rather than fixed values. */
  datatype Defaults = Defaults(
    role: string,
    userDisabled: bool,
    storeEnabled: bool,
    influencerEnabled: bool,
    noticeStatus: NoticeStatus,
    useYn: bool,
    deactivated: bool)

  function UserKey(u: User): nat { u.id }
  function CodeKey(c: VerificationCode): nat { c.id }
  function StoreKey(s: Store): nat { s.id }
  function InfluencerKey(i: Influencer): nat { i.id }
  function NoticeKey(n: Notice): nat { n.id }
  function MembershipKey(m: Membership): nat { m.id }
  function LikeKey(l: Like): nat { l.id }
  function SubscriptionKey(s: Subscription): nat { s.id }
  function NotificationKey(n: Notification): nat { n.id }

  /** The unique constraint on `user.email` that findUnique({email}) relies on. */
  ghost predicate EmailsDistinct(users: seq<User>)
  {
    forall i, j :: 0 <= i < j < |users| ==> users[i].email != users[j].email
  }

  class Database {
    const defaults: Defaults

    var users: seq<User>
    var nextUserId: nat
    var codes: seq<VerificationCode>
    var nextCodeId: nat
    var stores: seq<Store>
    var nextStoreId: nat
    var influencers: seq<Influencer>
    var nextInfluencerId: nat
    var notices: seq<Notice>
    var nextNoticeId: nat
    var memberships: seq<Membership>
    var nextMembershipId: nat
    var likes: seq<Like>
    var nextLikeId: nat
    var subscriptions: seq<Subscription>
    var nextSubscriptionId: nat
    var notifications: seq<Notification>
    var nextNotificationId: nat
    var settings: seq<UserSetting>

    /** Primary keys are distinct and below their counters; emails are unique. */
    ghost predicate Valid()
      reads this
    {
      Keyed(users, UserKey, nextUserId) && EmailsDistinct(users) &&
      Keyed(codes, CodeKey, nextCodeId) &&
      Keyed(stores, StoreKey, nextStoreId) &&
      Keyed(influencers, InfluencerKey, nextInfluencerId) &&
      Keyed(notices, NoticeKey, nextNoticeId) &&
      Keyed(memberships, MembershipKey, nextMembershipId) &&
      Keyed(likes, LikeKey, nextLikeId) &&
      Keyed(subscriptions, SubscriptionKey, nextSubscriptionId) &&
      Keyed(notifications, NotificationKey, nextNotificationId)
    }

    /** An empty database whose auto-increment keys start at 1; the user
        settings table is maintained outside the modelled services and is
        given as it is. */
    constructor (d: Defaults, initialSettings: seq<UserSetting>)
      ensures Valid() && defaults == d && settings == initialSettings
      ensures users == [] && codes == [] && stores == [] && influencers == [] && notices == []
      ensures memberships == [] && likes == [] && subscriptions == [] && notifications == []
    {
      defaults := d;
      users, codes, stores, influencers, notices := [], [], [], [], [];
      memberships, likes, subscriptions, notifications := [], [], [], [];
      nextUserId, nextCodeId, nextStoreId, nextInfluencerId, nextNoticeId := 1, 1, 1, 1, 1;
      nextMembershipId, nextLikeId, nextSubscriptionId, nextNotificationId := 1, 1, 1, 1;
      settings := initialSettings;
    }
  }
}
