# smemers service layer in Dafny

This project models the service layer of the smemers backend, a membership and benefits platform. On it:

- stores and influencers issue memberships;
- users like, subscribe to and are notified about them;
- administrators publish notices.

The services are request handlers over a relational database reached through an ORM. Each one checks its guards in a fixed order, answers with an HTTP status, and updates at most a few tables.

## How it is modelled

- **Database.** The database is one object, `Schema.Database`. Each table is a `seq` field of records. Each table also has its own auto-increment counter.
  - Its invariant `Valid()` says that keys are unique and below the counter, and that user e-mail addresses are unique.
  - Column defaults that the schema fills in are not visible in the services. They are a `Defaults` value the database is built with.
- **Services.** Every service is a method on that object, and its `modifies` clause names exactly the tables the service writes.
  - Each method's `ensures` ties the status and the new tables to pure functions of the old tables.
  - Lemmas about those functions state what the services promise: toggles flip, invariants are kept, and codes expire.
- **ORM calls.** `findUnique`, `findFirst` and `findMany` are modelled by `FindByKey`, `FirstIndex` and `Filter` in `Common`. `update` and `delete` by key are `UpdateByKey` and `DeleteByKey`.
  - A request field that JavaScript tests with `!x` is a `string` in which `""` stands for a missing value.
  - An update field the request leaves `undefined` is `None`, and the column keeps its value.
- **External inputs.** Time is an integer number of milliseconds (`now`). The random verification code and the outcome of sending mail are parameters. Access and refresh tokens come from an opaque `Users.Signer`.
- **Timers.** The three-minute `setTimeout` callbacks are explicit expiry methods. The caller runs one of them when the timer fires.

Three behaviours of the code, as written, are modelled as the code does them:

- **createMembership** stores the caller's user id in `store_Id`. This happens even when the caller is an influencer. `influencer_Id` and `user_Id` stay null, so no user can ever mark such a membership as used (`Memberships.NewMembershipNotHeld`).
- **createInfluencer** inserts the row before validating the account e-mail. A 400 answer therefore leaves the row behind.
- **The like list services** answer 200 with a message only when the list is empty. Their doc comments mention 204, but the code returns 200.

## Model

| member | source | states |
|---|---|---|
| Validate.EmailIffAddressShape | src/middleware/validate.ts:1-4 | the e-mail test accepts exactly local@domain where local is non-empty and both parts are free of whitespace and '@', and the domain has a '.' with characters on both sides |
| Validate.EmailHasOneAt | src/middleware/validate.ts:2 | every accepted address has exactly one '@' |
| Validate.EmailRejectsAtCount | src/middleware/validate.ts:2 | a string with no '@' or with two or more is rejected |
| Validate.EmailHasNoSpace | src/middleware/validate.ts:2 | an accepted address contains no whitespace character |
| Validate.EmailAccepted | src/middleware/validate.ts:6 | "example@example.com" is accepted |
| Validate.EmailRejected | src/middleware/validate.ts:7 | "example@example" is rejected |
| Validate.TailShape | src/middleware/validate.ts:11 | the "-ddd(d)-dddd" tail of a phone number has two '-' and digits elsewhere |
| Validate.TailDashes | src/middleware/validate.ts:11 | the subscriber tail of a phone number holds exactly two '-' |
| Validate.PhonePrefix | src/middleware/validate.ts:9-13 | an accepted phone number opens with a two- or three-digit area prefix beginning with '0', followed by a subscriber tail |
| Validate.PhoneShape | src/middleware/validate.ts:9-13 | every accepted phone number starts with '0', has exactly two '-', only digits elsewhere, and is 11 to 13 characters long |
| Validate.PhoneExamples | src/middleware/validate.ts:15-17 | "010-1234-5678", "02-123-4567" and "031-123-4567" are accepted |
| Likes.NewLike | src/_services/likeServices.ts:77-85 | a created like has the given key and user, is not disabled, and sets only the given target column |
| Likes.Revoked | src/_services/likeServices.ts:63-71 | an unliked row keeps its key and user, is disabled, has the toggled target nulled and other columns kept |
| Likes.FindLike | src/_services/likeServices.ts:54-59 | the lookup finds the first row of that user with that target, or reports that none exists |
| Likes.ToggleKeepsAtMostOne | src/_services/likeServices.ts:54-92 | if each (user, target) pair has at most one live like in a column before a toggle, the same holds after it, in every column |
| Likes.ToggleFlips | src/_services/likeServices.ts:61-92 | under that invariant a toggle flips whether the pair is liked and leaves every other pair as it was |
| Likes.ToggleTwice | src/_services/likeServices.ts:61-92 | like then unlike from "not liked" leaves the table plus one tombstone with every target null, and restores every liked pair |
| Likes.ToggleLike | src/_services/likeServices.ts:53-93 | the table becomes the toggled table, and the status is 200 if the pair was liked, 201 otherwise |
| Likes.CreateLikeNotice | src/_services/likeServices.ts:32-103 | 404 with the table unchanged if the notice is absent; otherwise the toggle, with 200 exactly when it unlikes |
| Likes.CreateLikeInfluencer | src/_services/likeServices.ts:195-265 | the same toggle on the influencer column |
| Likes.CreateLikeStore | src/_services/likeServices.ts:355-420 | the same toggle on the store column |
| Likes.CreateLikeMembership | src/_services/likeServices.ts:508-579 | the same toggle on the membership column |
| Likes.LikeList | src/_services/likeServices.ts:123-170 | always 200, with no data exactly when the user has no row with that target set, otherwise one entry per such row |
| Likes.LikeListShowsLiked | src/_services/likeServices.ts:126-155 | a positive target is listed exactly when the user currently likes it, so tombstones never appear |
| Subscriptions.NewSubscription | src/_services/subscriptionService.ts:53-59 | a created subscription matches the pair, sets only its target column and takes the default deactivation flags |
| Subscriptions.FindSubscription | src/_services/subscriptionService.ts:31-36 | the lookup finds the first row of that user with that target, or reports that none exists |
| Subscriptions.SubToggleTwice | src/_services/subscriptionService.ts:38-68 | subscribing and then unsubscribing gives back the original table |
| Subscriptions.SubToggleKeepsAtMostOne | src/_services/subscriptionService.ts:31-68 | a toggle keeps "at most one subscription per (user, target)" in both columns |
| Subscriptions.SubToggleFlips | src/_services/subscriptionService.ts:31-68 | under that invariant a toggle flips whether the pair is subscribed and leaves every other pair as it was |
| Subscriptions.SubToggleTwiceRestoresPairs | src/_services/subscriptionService.ts:38-68 | from any state keeping the invariant, two toggles of a pair restore every subscribed pair |
| Subscriptions.ToggleSubscription | src/_services/subscriptionService.ts:31-68 | the matching row is deleted with 200, or one row is appended with 201 |
| Subscriptions.SubInfluencer | src/_services/subscriptionService.ts:28-78 | the influencer toggle never checks that the target exists and answers only 200 or 201 |
| Subscriptions.SubStore | src/_services/subscriptionService.ts:98-148 | the store toggle, with the same statuses |
| Subscriptions.SubList | src/_services/subscriptionService.ts:168-203 | as the code writes it: 204 with no data exactly when the user has no row with that target, otherwise 200 with one entry per row |
| Subscriptions.SubListShowsSubscribed | src/_services/subscriptionService.ts:171-191 | a positive target is listed exactly when the user is subscribed to it |
| Subscriptions.SubscriptionList | src/_services/subscriptionService.ts:267-317 | always 200, with no data exactly when the user has no subscription at all |
| Subscriptions.SubscriptionListExact | src/_services/subscriptionService.ts:282-302 | the full list holds exactly the entries of the user's rows that have a truthy store or influencer id |
| Users.FindUserByEmail | src/_services/userService.ts:57-59 | the lookup finds the user with that address, or reports that none exists |
| Users.FindCode | src/_services/userService.ts:74-79 | the lookup finds a code row for that address and code, ignoring its expiry time |
| Users.FindUserWithCode | src/_services/userService.ts:259-264 | the lookup finds a user holding that address and code |
| Users.NewUser | src/_services/userService.ts:98-106 | the created user has the given key, address, name and code, is not yet verified and has no token |
| Users.RegisterUser | src/_services/userService.ts:32-188 | guards in order (401, 400, 409, 400) with no user created on failure; on success exactly one verified user holding the code and its refresh token is appended, with 200 |
| Users.NewUserKeepsTable | src/_services/userService.ts:98-106 | appending a user with a new address keeps keys and addresses unique, and the address then finds that row |
| Users.RegisterWrites | src/_services/userService.ts:98-139 | the create, the verification update and the token update of a registration leave the old table plus one verified row holding the refresh token, with keys and addresses still unique |
| Users.SameEmailRewrite | src/_services/userService.ts:423-426 | an update that keeps a user's key and address keeps keys and addresses unique |
| Users.RegisterIgnoresExpiry | src/_services/userService.ts:74-79 | the stored expiry time never affects registration |
| Users.LoginAfterRegister | src/_services/userService.ts:259-296 | straight after a registration, logging in with the same address and code succeeds |
| Users.LoginUser | src/_services/userService.ts:214-338 | guards in order (400, 400, 404, 400) with users unchanged on failure; 200 exactly when a user holds the address and code, and then only that user's refresh token changes |
| Users.LoginNeedsHeldCode | src/_services/userService.ts:238-275 | with unique addresses, a login succeeds exactly when the user with that address holds the code |
| Users.SendVerificationCode | src/_services/userService.ts:362-485 | a malformed address gives 400 with no change; an unknown address gets a code row expiring now + 180000 ms; a known user gets the code on their row; the matching timer is armed |
| Users.ExpireCodeRow | src/_services/userService.ts:401-417 | the code-row timer empties that row's code |
| Users.ExpireUserCode | src/_services/userService.ts:429-445 | the user timer nulls the user's code |
| Users.RegisterAfterSend | src/_services/userService.ts:383-398 | a code sent to an unregistered address registers it |
| Users.RegisterFailsAfterCodeExpiry | src/_services/userService.ts:401-417 | once the timer has emptied the only row with that code, the code no longer registers |
| Users.LoginAfterSend | src/_services/userService.ts:419-426 | a code sent to a registered address logs that user in |
| Users.LoginFailsAfterUserExpiry | src/_services/userService.ts:429-445 | after the user timer has fired, no code logs that address in |
| Users.StaleTimerClearsNewerCode | src/_services/userService.ts:429-445 | as written, the timer from an earlier request wipes a code issued later, so the newer code stops working |
| Users.IntendedTimerKeepsNewerCode | src/_services/userService.ts:429-445 | a timer that clears only its own code still expires that code and leaves a newer code usable |
| Users.ExpireUserCodeIfCurrent | src/_services/userService.ts:429-445 | the corrected timer step clears the code only if it is still the one issued |
| Users.RemoveMemberAccount | src/_services/userService.ts:506-555 | 400 for a missing id, 404 for an absent user, otherwise exactly that user is deleted with 200 |
| Users.RemoveTwice | src/_services/userService.ts:518-535 | after a removal only other users remain, and removing again answers 404 |
| Users.DisabledMemberAccount | src/_services/userService.ts:576-627 | 400, then 404 for an absent user, then 409 if already disabled, otherwise the user is disabled with 200 |
| Users.DisableTwice | src/_services/userService.ts:590-617 | a second disable answers 409 |
| Users.LoginIgnoresDisabled | src/_services/userService.ts:238-275 | login never looks at `disabled`, so a disabled account logs in as before |
| Notifications.FollowedIds | src/_services/notificationService.ts:55-67 | the followed owners are exactly the non-null ids on the user's subscriptions that are not deactivated |
| Notifications.Created | src/_services/notificationService.ts:81-98 | one notification per item, with consecutive keys |
| Notifications.CreateNotifications | src/_services/notificationService.ts:81-98 | the loop appends exactly the created notifications and never touches existing ones |
| Notifications.CreatedStep | src/_services/notificationService.ts:81-98 | one more loop iteration adds exactly the next drafted notification, numbered by its position |
| Notifications.FindSetting | src/_services/notificationService.ts:39-45 | the lookup finds the user's setting, or reports that none exists |
| Notifications.NotifyMembershipForStore | src/_services/notificationService.ts:33-119 | a missing setting gives 500, "OFF" gives 200 with nothing created, otherwise one notification per alerting membership; 201 exactly when any was created |
| Notifications.NotifyMembershipForInfluencer | src/_services/notificationService.ts:142-228 | the same over influencer columns, and a missing setting proceeds |
| Notifications.NotifyForNotices | src/_services/notificationService.ts:251-311 | one notification per public notice of the last 86400000 ms, independent of subscriptions |
| Notifications.AlertsExact | src/_services/notificationService.ts:55-98 | a membership alerts exactly when it was created in the last day by an owner the user follows through a live subscription |
| Notifications.AlertsNameFollowedOwner | src/_services/notificationService.ts:87-93 | every membership notification goes to the requesting user, carries the title and names an owner the user follows |
| Notifications.NoticeAlertsExact | src/_services/notificationService.ts:260-285 | a notice alerts exactly when it is public and created in the last day |
| Stores.FindInfluencerOf | src/_services/storeService.ts:38-42 | the lookup finds the user's influencer account, or reports that none exists |
| Stores.CreateStoreKeepsNoDualOwner | src/_services/storeService.ts:38-87 | a store opened by createStore never gives its user both roles |
| Stores.CreateStore | src/_services/storeService.ts:34-106 | 409 if the user is an influencer, then 400 for an empty name or address, both with nothing created; otherwise one store of that user is appended with 201 |
| Stores.StoreById | src/_services/storeService.ts:125-166 | 200 with the store's view exactly when the key exists, otherwise 404 |
| Stores.AllStores | src/_services/storeService.ts:184-220 | 404 exactly on an empty table, otherwise one entry per store in table order showing its id and card |
| Stores.EnabledStore | src/_services/storeService.ts:241-282 | 404 with no change for an absent key, otherwise `enabled` flips on that store and the new value is reported |
| Stores.EnableStoreTwice | src/_services/storeService.ts:254-257 | flipping twice gives back the table |
| Stores.UpdateStore | src/_services/storeService.ts:304-374 | 404 with no change for an absent key, otherwise that row takes the given fields |
| Stores.UpdateStoreFacts | src/_services/storeService.ts:317-334 | an update changes only that store, keeps its key, owner and flag, and repeating it changes nothing |
| Stores.DeleteStore | src/_services/storeService.ts:394-439 | 404 with no change for an absent key, otherwise exactly the rows with that key are removed |
| Influencers.FindStoreOf | src/_services/influencerServcice.ts:38-42 | the lookup finds the user's store, or reports that none exists |
| Influencers.CreateInfluencerKeepsNoDualOwner | src/_services/influencerServcice.ts:38-70 | an influencer inserted by createInfluencer, even one rejected afterwards, never gives its user both roles |
| Influencers.CreateInfluencer | src/_services/influencerServcice.ts:30-113 | 409 with nothing created if the user owns a store; otherwise the row is appended, then 400 if the account is not an e-mail address (row kept) or 201 |
| Influencers.InfluencerById | src/_services/influencerServcice.ts:133-173 | 200 with the influencer's view exactly when the key exists, otherwise 404 |
| Influencers.AllInfluencers | src/_services/influencerServcice.ts:190-224 | 404 exactly on an empty table, otherwise one entry per influencer in table order showing its id, account, image, contents and referral code |
| Influencers.EnabledInfluencer | src/_services/influencerServcice.ts:244-293 | 404 with no change for an absent key, otherwise `enabled` flips on that influencer |
| Influencers.EnableInfluencerTwice | src/_services/influencerServcice.ts:263-268 | flipping twice gives back the table |
| Influencers.UpdateInfluencer | src/_services/influencerServcice.ts:315-380 | 404 with no change for an absent key, otherwise that row takes the given fields |
| Influencers.UpdateInfluencerFacts | src/_services/influencerServcice.ts:332-341 | an update changes only that influencer, keeps its key, owner and flag, and repeating it changes nothing |
| Influencers.DeleteInfluencer | src/_services/influencerServcice.ts:399-438 | 404 with no change for an absent key, otherwise exactly the rows with that key are removed |
| Notices.AdminGateExact | src/_services/noticeService.ts:37-47 | the gate passes exactly for an existing user whose role is "Admin" |
| Notices.NoticeCreate | src/_services/noticeService.ts:34-95 | 403 for a non-admin, then 400 for an empty subject or contents, both with no change; otherwise one notice by the caller is appended with 201 |
| Notices.FindAllNotice | src/_services/noticeService.ts:116-152 | as the code writes it: 204 exactly on an empty table, otherwise every notice in order |
| Notices.FindNoticeById | src/_services/noticeService.ts:175-213 | 400 exactly for an id that is not positive, then 404 for an absent key, otherwise 200 with that notice |
| Notices.FindAllPrivateNotice | src/_services/noticeService.ts:235-285 | 403 for a non-admin; otherwise 200, with a message only when no notice is private, else only private notices |
| Notices.PrivateNoticesExact | src/_services/noticeService.ts:251-267 | an admin is shown every private notice and nothing else |
| Notices.UpdateNotice | src/_services/noticeService.ts:314-377 | 403, then 400, then 404, each with no change; otherwise that notice is edited with 200 |
| Notices.UpdateNoticeFacts | src/_services/noticeService.ts:350-358 | an edit changes only that notice and only its subject, contents and dates |
| Notices.RemoveNotice | src/_services/noticeService.ts:402-457 | 403, then 400 for an id that is not positive, then 404, each with no change; otherwise exactly that notice is deleted with 200 |
| Memberships.OwnerEnabled | src/_services/membershipService.ts:34-42 | a user's store decides, and only when there is none does the user's influencer account decide |
| Memberships.CreateMembership | src/_services/membershipService.ts:26-87 | 403 with nothing created unless the owner found is enabled; otherwise one membership with `store_Id` equal to the caller's id is appended with 201 |
| Memberships.GetAllMembership | src/_services/membershipService.ts:106-143 | as the code writes it: 204 exactly on an empty table, otherwise one entry per membership in table order showing every column but the price |
| Memberships.FindHeld | src/_services/membershipService.ts:157-162 | the lookup finds a membership with that key held by the caller, or reports that none exists |
| Memberships.UpdateMembershipUseYn | src/_services/membershipService.ts:154-199 | 404 with no change when the caller holds no such membership, otherwise `UseYn` is set on it and the old value is reported |
| Memberships.UseIdempotent | src/_services/membershipService.ts:176-190 | marking as used touches only that row, sets the flag, and a repeat changes nothing |
| Memberships.NewMembershipNotHeld | src/_services/membershipService.ts:52-63 | a membership just created has no holder, so marking it used answers 404 |

## Left out

- Radius search: `getStoresWithinRadius` and its haversine distance use floating-point trigonometry, so they are not modelled.
- Tokens: JWT signing and verification are not modelled. Tokens come from an opaque `Users.Signer`, and the caller's id is a plain integer.
- Mail: nodemailer is not modelled. Whether a mail went out is the `mailSent` parameter.
- Logging: the winston logger only writes logs and is left out.
- Time and randomness: wall-clock timers are explicit expiry methods, and the `Math.random` code is a parameter.
- Responses: JSON bodies and messages, `Response` objects and bigint `toString` are reduced to a status and a small payload.
- Exceptions: the generic catch-to-500 paths, foreign-key failures and unique-constraint violations (e.g. a duplicate influencer account) are not modelled. The only 500 modelled is the store notification's missing setting.
- Column defaults: the values the schema fills in (role, enabled flags, notice status, `UseYn`, deactivation flags) are the `Defaults` parameter, because the schema is not part of this model.
- The `user_setting` table is never written by the modelled services. It is given when the database is built.
- Unused services: `termService.ts` and the commented-out blocks are dead code.
- Undefined filters: a `findFirst` whose filter field is `undefined` matches any row under the ORM. The model always passes a value.
- Memberships.CreateMembership: `new Date(expiration_Period)` is kept as the request string, so an unparsable date is not modelled.
- Subscriptions.SubList: the 204 branch is modelled as the code writes it. A `Response` whose status is 204 may not carry a body, so the constructor throws and the catch answers 500 whenever the user has no row with that target. The model does not capture that 500.
- Notices.FindAllNotice: the same holds for its 204 branch on an empty notice table. The model answers 204 where the running service answers 500.
- Memberships.GetAllMembership: the same holds for its 204 branch on an empty membership table. The model answers 204 where the running service answers 500.
- Notifications.NotifyMembershipForStore: the 201 reply serialises the created rows with `JSON.stringify`, and their ids are `bigint`. Without a `toJSON` for bigint that call throws, so the catch answers 500 after the rows have been inserted. The model assumes bigint serialises and answers 201.
- Notifications.NotifyMembershipForInfluencer: the same bigint serialisation applies to its 201 reply. The model answers 201 where the running service answers 500 after inserting.
- Notifications.NotifyForNotices: the same bigint serialisation applies to its 201 reply. The model answers 201 where the running service answers 500 after inserting.
- Notices.NoticeCreate: the `user_id` serialised in the reply is a function reference, which JSON drops; the reply body is not modelled.

## Findings

| source | as written | input that shows it | evidently intended | confidence | as-written member | corrected member |
|---|---|---|---|---|---|---|
| src/_services/userService.ts:429-445 | the timer armed by sendVerificationCode for a registered user nulls whatever code the user holds when it fires | a registered user requests code c1, then requests c2 within three minutes; when c1's timer fires, c2 is wiped and logging in with c2 fails | a timer clears its own code only, so a newer code stays usable for its full three minutes | not executed | Users.StaleTimerClearsNewerCode | Users.IntendedTimerKeepsNewerCode |

