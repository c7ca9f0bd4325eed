/** src/_services/userService.ts: passwordless accounts. A code is issued by
    mail, kept either in a `verification_codes` row (address not yet
    registered) or on the user row (registered address), and wiped by a
    timer three minutes later. Registration and login check that code and
    store a refresh token on success. Timers are explicit expiry steps here,
    the clock is the `now` parameter, the random code and the mail outcome
    are parameters, and tokens come from an opaque signer. */
module Users {
  import opened Common
  import opened Schema
  import opened Validate

  /** The two token signers, as uninterpreted functions of the signed row. */
  datatype Signer = Signer(access: User -> string, refresh: User -> string)

  /** What a successful register or login hands back. */
  datatype Session = Session(userId: nat, accessToken: string, refreshToken: string)

  /** A pending timer: the one sendVerificationCode arms for a code row, or
      the one it arms for a registered user, with the code it issued. */
  datatype Expiry = CodeRowExpiry(codeId: nat) | UserCodeExpiry(email: string, code: string)

  /** Lifetime of an issued code, in milliseconds. */
  const CodeLifetime: int := 180000

  /** findUnique({email}). */
  function FindUserByEmail(users: seq<User>, email: string): (r: Option<nat>)
    ensures r.Some? ==> r.value < |users| && users[r.value].email == email
    ensures r.None? ==> forall j :: 0 <= j < |users| ==> users[j].email != email
  {
    FirstIndex(users, (u: User) => u.email == email)
  }

  predicate CodeMatches(c: VerificationCode, email: string, code: string)
  {
    c.email == email && c.code == code
  }

  /** verification_codes.findFirst({email, verification_code: code}); the
      row's expiry time is not part of the query. */
  function FindCode(codes: seq<VerificationCode>, email: string, code: string): (r: Option<nat>)
    ensures r.Some? ==> r.value < |codes| && CodeMatches(codes[r.value], email, code)
    ensures r.None? ==> forall j :: 0 <= j < |codes| ==> !CodeMatches(codes[j], email, code)
  {
    FirstIndex(codes, (c: VerificationCode) => CodeMatches(c, email, code))
  }

  predicate HoldsCode(u: User, email: string, code: string)
  {
    u.email == email && u.verificationCode == Some(code)
  }

  /** user.findFirst({email, verificationCode: code}). */
  function FindUserWithCode(users: seq<User>, email: string, code: string): (r: Option<nat>)
    ensures r.Some? ==> r.value < |users| && HoldsCode(users[r.value], email, code)
    ensures r.None? ==> forall j :: 0 <= j < |users| ==> !HoldsCode(users[j], email, code)
  {
    FirstIndex(users, (u: User) => HoldsCode(u, email, code))
  }

  // ---------------------------------------------------------------------------
  // registerUser

  /** The status registerUser answers with; an empty string is a missing field. */
  function RegisterStatus(users: seq<User>, codes: seq<VerificationCode>, email: string, code: string): int
  {
    if email == "" || code == "" then 401
    else if !ValidateEmail(email) then 400
    else if FindUserByEmail(users, email).Some? then 409
    else if FindCode(codes, email, code).None? then 400
    else 200
  }

  /** The row `user.create` inserts: unverified, no token yet. */
  function NewUser(id: nat, email: string, name: string, code: string, d: Defaults): (u: User)
    ensures u.id == id && u.email == email && u.name == name && u.verificationCode == Some(code)
    ensures !u.isVerified && u.refreshToken.None? && u.role == d.role
  {
    User(id, email, name, d.role, Some(code), false, None, d.userDisabled)
  }

  /** The same row once registration has finished: verified, and holding the
      refresh token signed over the row as created. */
  function RegisteredUser(id: nat, email: string, name: string, code: string, d: Defaults, signer: Signer): User
  {
    var u := NewUser(id, email, name, code, d);
    u.(isVerified := true, refreshToken := Some(signer.refresh(u)))
  }

  /** registerUser (src/_services/userService.ts:32-188): four guards in
      order, then create, mark verified by email, store the token by id. */
  method RegisterUser(db: Database, email: string, name: string, code: string, signer: Signer)
    returns (status: int, session: Option<Session>)
    requires db.Valid()
    modifies db`users, db`nextUserId
    ensures db.Valid()
    ensures status == RegisterStatus(old(db.users), db.codes, email, code)
    ensures email == "" || code == "" ==> status == 401
    ensures email != "" && code != "" && !ValidateEmail(email) ==> status == 400
    ensures email != "" && code != "" && ValidateEmail(email) && FindUserByEmail(old(db.users), email).Some? ==> status == 409
    ensures status != 200 ==> db.users == old(db.users) && db.nextUserId == old(db.nextUserId) && session.None?
    ensures status == 200 ==> db.nextUserId == old(db.nextUserId) + 1
    ensures status == 200 ==>
      db.users == old(db.users) + [RegisteredUser(old(db.nextUserId), email, name, code, db.defaults, signer)]
    ensures status == 200 ==> session == Some(Session(old(db.nextUserId),
      signer.access(NewUser(old(db.nextUserId), email, name, code, db.defaults)),
      signer.refresh(NewUser(old(db.nextUserId), email, name, code, db.defaults))))
  {
    if email == "" || code == "" {
      return 401, None;
    }
    if !ValidateEmail(email) {
      return 400, None;
    }
    if FindUserByEmail(db.users, email).Some? {
      return 409, None;
    }
    if FindCode(db.codes, email, code).None? {
      return 400, None;
    }
    // user.create
    var created := NewUser(db.nextUserId, email, name, code, db.defaults);
    ghost var before := db.users;
    RegisterWrites(db.users, db.nextUserId, created, signer.refresh(created));
    db.users := db.users + [created];
    db.nextUserId := db.nextUserId + 1;
    // user.update({where: {email}, data: {isVerified: true}})
    var byEmail := FindUserByEmail(db.users, email);
    var i := byEmail.value;
    db.users := db.users[i := db.users[i].(isVerified := true)];
    // tokens over the created row, then user.update({where: {id}, data: {refreshToken}})
    var access := signer.access(created);
    var refresh := signer.refresh(created);
    var byId := FindByKey(db.users, UserKey, created.id);
    var j := byId.value;
    db.users := db.users[j := db.users[j].(refreshToken := Some(refresh))];
    status, session := 200, Some(Session(created.id, access, refresh));
  }

  /** Appending a user whose address is new keeps keys and addresses unique,
      and the address now finds the appended row. */
  lemma NewUserKeepsTable(users: seq<User>, next: nat, u: User)
    requires Keyed(users, UserKey, next) && EmailsDistinct(users)
    requires u.id == next && FindUserByEmail(users, u.email).None?
    ensures Keyed(users + [u], UserKey, next + 1) && EmailsDistinct(users + [u])
    ensures FindUserByEmail(users + [u], u.email) == Some(|users|)
  {
    KeyedAppend(users, UserKey, next, u);
    FirstIndexAppend(users, u, (x: User) => x.email == u.email);
  }

  /** Rewriting one user row without touching its key or address keeps keys
      and addresses unique. */
  lemma SameEmailRewrite(users: seq<User>, next: nat, i: nat, x: User)
    requires Keyed(users, UserKey, next) && EmailsDistinct(users)
    requires i < |users| && x.id == users[i].id && x.email == users[i].email
    ensures Keyed(users[i := x], UserKey, next) && EmailsDistinct(users[i := x])
  {
    KeyedUpdate(users, UserKey, next, i, x);
  }

  /** The three writes of a registration, on the table: the address finds
      the appended row, the key finds it after the first update, and the
      result is the old table plus the registered row, still keyed and with
      unique addresses. */
  lemma RegisterWrites(before: seq<User>, next: nat, u: User, refresh: string)
    requires Keyed(before, UserKey, next) && EmailsDistinct(before)
    requires u.id == next && FindUserByEmail(before, u.email).None?
    ensures FindUserByEmail(before + [u], u.email) == Some(|before|)
    ensures FindByKey((before + [u])[|before| := u.(isVerified := true)], UserKey, u.id) == Some(|before|)
    ensures (before + [u])[|before| := u.(isVerified := true)][|before| := u.(isVerified := true, refreshToken := Some(refresh))]
            == before + [u.(isVerified := true, refreshToken := Some(refresh))]
    ensures Keyed(before + [u.(isVerified := true, refreshToken := Some(refresh))], UserKey, next + 1)
    ensures EmailsDistinct(before + [u.(isVerified := true, refreshToken := Some(refresh))])
  {
    NewUserKeepsTable(before, next, u);
    var s1 := (before + [u])[|before| := u.(isVerified := true)];
    KeyedUpdate(before + [u], UserKey, next + 1, |before|, u.(isVerified := true));
    KeyedFind(s1, UserKey, next + 1, |before|);
    var w := u.(isVerified := true, refreshToken := Some(refresh));
    assert s1[|before| := w] == before + [w];
    KeyedAppend(before, UserKey, next, w);
    assert forall k :: 0 <= k < |before| ==> (before + [w])[k] == before[k];
  }

  /** The expiry time stored on a code row is never consulted: two code
      tables that agree on addresses and codes give the same answer, however
      far in the past either one's rows expired. */
  lemma RegisterIgnoresExpiry(users: seq<User>, codes: seq<VerificationCode>, codes2: seq<VerificationCode>,
                              email: string, code: string)
    requires |codes| == |codes2|
    requires forall i :: 0 <= i < |codes| ==> codes[i].email == codes2[i].email && codes[i].code == codes2[i].code
    ensures RegisterStatus(users, codes, email, code) == RegisterStatus(users, codes2, email, code)
  {
    FirstIndexCongruent(codes, codes2, (c: VerificationCode) => CodeMatches(c, email, code));
  }

  /** Directly after a successful registration, logging in with the same
      address and code succeeds. */
  lemma LoginAfterRegister(users: seq<User>, codes: seq<VerificationCode>, id: nat, email: string, name: string,
                           code: string, d: Defaults, signer: Signer)
    requires RegisterStatus(users, codes, email, code) == 200
    ensures LoginStatus(users + [RegisteredUser(id, email, name, code, d, signer)], email, code) == 200
  {
    var row := RegisteredUser(id, email, name, code, d, signer);
    FirstIndexAppend(users, row, (u: User) => u.email == email);
    FirstIndexAppend(users, row, (u: User) => HoldsCode(u, email, code));
    assert FindUserWithCode(users, email, code).None?;
  }

  // ---------------------------------------------------------------------------
  // loginUser

  /** The status loginUser answers with. */
  function LoginStatus(users: seq<User>, email: string, code: string): int
  {
    if email == "" || code == "" then 400
    else if !ValidateEmail(email) then 400
    else if FindUserByEmail(users, email).None? then 404
    else if FindUserWithCode(users, email, code).None? then 400
    else 200
  }

  /** The user table after a successful login: the found user's refresh
      token replaced by one signed over that user. */
  function LoggedIn(users: seq<User>, email: string, signer: Signer): seq<User>
  {
    match FindUserByEmail(users, email)
    case Some(i) => users[i := users[i].(refreshToken := Some(signer.refresh(users[i])))]
    case None => users
  }

  /** loginUser (src/_services/userService.ts:214-338). */
  method LoginUser(db: Database, email: string, code: string, signer: Signer) returns (status: int, session: Option<Session>)
    requires db.Valid()
    modifies db`users
    ensures db.Valid()
    ensures status == LoginStatus(old(db.users), email, code)
    ensures status == 200 <==>
      email != "" && code != "" && ValidateEmail(email) &&
      exists i :: 0 <= i < |old(db.users)| && HoldsCode(old(db.users)[i], email, code)
    ensures status != 200 ==> db.users == old(db.users) && session.None?
    ensures status == 200 ==> db.users == LoggedIn(old(db.users), email, signer) && session.Some?
  {
    if email == "" || code == "" {
      return 400, None;
    }
    if !ValidateEmail(email) {
      return 400, None;
    }
    var found := FindUserByEmail(db.users, email);
    if found.None? {
      return 404, None;
    }
    if FindUserWithCode(db.users, email, code).None? {
      return 400, None;
    }
    var i := found.value;
    var user := db.users[i];
    var access := signer.access(user);
    var refresh := signer.refresh(user);
    KeyedFind(db.users, UserKey, db.nextUserId, i);
    SameEmailRewrite(db.users, db.nextUserId, i, user.(refreshToken := Some(refresh)));
    db.users := db.users[i := user.(refreshToken := Some(refresh))];
    status, session := 200, Some(Session(user.id, access, refresh));
  }

  /** The login query finds the one user with the address, so a login
      succeeds exactly when that user holds the code. */
  lemma LoginNeedsHeldCode(users: seq<User>, email: string, code: string)
    requires EmailsDistinct(users)
    requires email != "" && code != "" && ValidateEmail(email)
    ensures LoginStatus(users, email, code) == 200 <==>
      exists i :: 0 <= i < |users| && users[i].email == email && users[i].verificationCode == Some(code)
  {
    if exists i :: 0 <= i < |users| && users[i].email == email && users[i].verificationCode == Some(code) {
      var i :| 0 <= i < |users| && users[i].email == email && users[i].verificationCode == Some(code);
      assert HoldsCode(users[i], email, code);
    }
  }

  // ---------------------------------------------------------------------------
  // sendVerificationCode and its two timers

  /** The user table after `user.update({where: {email}, data: {verificationCode}})`. */
  function IssuedUserCode(users: seq<User>, email: string, code: string): seq<User>
  {
    match FindUserByEmail(users, email)
    case Some(i) => users[i := users[i].(verificationCode := Some(code))]
    case None => users
  }

  /** The user-code timer as written: it nulls whatever code the user holds. */
  function UserCodeExpired(users: seq<User>, email: string): seq<User>
  {
    match FindUserByEmail(users, email)
    case Some(i) => users[i := users[i].(verificationCode := None)]
    case None => users
  }

  /** The code-row timer: the row with that key gets an empty code; when the
      row is gone the update fails and the failure is only logged. */
  function CodeRowExpired(codes: seq<VerificationCode>, id: nat): seq<VerificationCode>
  {
    match FindByKey(codes, CodeKey, id)
    case Some(i) => codes[i := codes[i].(code := "")]
    case None => codes
  }

  /** sendVerificationCode (src/_services/userService.ts:362-485). The HTTP
      status is 200 whichever way the mail goes; the body reports 201 or 502. */
  method SendVerificationCode(db: Database, email: string, code: string, now: int, mailSent: bool)
    returns (status: int, reported: Option<int>, timer: Option<Expiry>)
    requires db.Valid()
    modifies db`users, db`codes, db`nextCodeId
    ensures db.Valid()
    ensures !ValidateEmail(email) ==> status == 400 && reported.None? && timer.None?
    ensures !ValidateEmail(email) ==>
      db.users == old(db.users) && db.codes == old(db.codes) && db.nextCodeId == old(db.nextCodeId)
    ensures ValidateEmail(email) ==> status == 200 && reported == Some(if mailSent then 201 else 502)
    ensures ValidateEmail(email) && FindUserByEmail(old(db.users), email).None? ==>
      db.codes == old(db.codes) + [VerificationCode(old(db.nextCodeId), email, code, now + CodeLifetime)] &&
      db.nextCodeId == old(db.nextCodeId) + 1 && db.users == old(db.users) &&
      timer == Some(CodeRowExpiry(old(db.nextCodeId)))
    ensures ValidateEmail(email) && FindUserByEmail(old(db.users), email).Some? ==>
      db.users == IssuedUserCode(old(db.users), email, code) &&
      db.codes == old(db.codes) && db.nextCodeId == old(db.nextCodeId) &&
      timer == Some(UserCodeExpiry(email, code))
  {
    var user := FindUserByEmail(db.users, email);
    if !ValidateEmail(email) {
      return 400, None, None;
    }
    var expiresAt := now + CodeLifetime;
    if user.None? {
      var row := VerificationCode(db.nextCodeId, email, code, expiresAt);
      KeyedAppend(db.codes, CodeKey, db.nextCodeId, row);
      db.codes := db.codes + [row];
      db.nextCodeId := db.nextCodeId + 1;
      timer := Some(CodeRowExpiry(row.id));
    } else {
      var i := user.value;
      SameEmailRewrite(db.users, db.nextUserId, i, db.users[i].(verificationCode := Some(code)));
      db.users := db.users[i := db.users[i].(verificationCode := Some(code))];
      timer := Some(UserCodeExpiry(email, code));
    }
    status := 200;
    reported := Some(if mailSent then 201 else 502);
  }

  /** The timer armed for a code row (src/_services/userService.ts:401-417). */
  method ExpireCodeRow(db: Database, id: nat)
    requires db.Valid()
    modifies db`codes
    ensures db.Valid()
    ensures db.codes == CodeRowExpired(old(db.codes), id)
  {
    var found := FindByKey(db.codes, CodeKey, id);
    if found.Some? {
      var i := found.value;
      KeyedUpdate(db.codes, CodeKey, db.nextCodeId, i, db.codes[i].(code := ""));
      db.codes := db.codes[i := db.codes[i].(code := "")];
    }
  }

  /** The timer armed for a registered user (src/_services/userService.ts:429-445):
      it clears the user's code whichever code that is by then. */
  method ExpireUserCode(db: Database, email: string)
    requires db.Valid()
    modifies db`users
    ensures db.Valid()
    ensures db.users == UserCodeExpired(old(db.users), email)
  {
    var found := FindUserByEmail(db.users, email);
    if found.Some? {
      var i := found.value;
      SameEmailRewrite(db.users, db.nextUserId, i, db.users[i].(verificationCode := None));
      db.users := db.users[i := db.users[i].(verificationCode := None)];
    }
  }

  /** A code sent to an unregistered address registers it. */
  lemma RegisterAfterSend(users: seq<User>, codes: seq<VerificationCode>, id: nat, email: string, code: string, expiresAt: int)
    requires ValidateEmail(email) && code != ""
    requires FindUserByEmail(users, email).None?
    ensures RegisterStatus(users, codes + [VerificationCode(id, email, code, expiresAt)], email, code) == 200
  {
    FirstIndexAppend(codes, VerificationCode(id, email, code, expiresAt), (c: VerificationCode) => CodeMatches(c, email, code));
  }

  /** Once the timer has emptied the only row carrying a code, that code no
      longer registers the address. */
  lemma RegisterFailsAfterCodeExpiry(users: seq<User>, codes: seq<VerificationCode>, next: nat, id: nat, email: string,
                                     code: string)
    requires Keyed(codes, CodeKey, next) && code != ""
    requires forall j :: 0 <= j < |codes| && codes[j].id != id ==> !CodeMatches(codes[j], email, code)
    ensures RegisterStatus(users, CodeRowExpired(codes, id), email, code) != 200
  {
    var r := CodeRowExpired(codes, id);
    forall j | 0 <= j < |r|
      ensures !CodeMatches(r[j], email, code)
    {
      match FindByKey(codes, CodeKey, id)
      case Some(i) =>
        if i != j {
          assert r[j] == codes[j];
        }
      case None =>
        assert r[j] == codes[j];
    }
  }

  /** A code sent to a registered address logs that user in. */
  lemma LoginAfterSend(users: seq<User>, email: string, code: string)
    requires EmailsDistinct(users)
    requires ValidateEmail(email) && code != ""
    requires FindUserByEmail(users, email).Some?
    ensures LoginStatus(IssuedUserCode(users, email, code), email, code) == 200
  {
    var i := FindUserByEmail(users, email).value;
    var r := IssuedUserCode(users, email, code);
    FirstIndexCongruent(users, r, (u: User) => u.email == email);
    LoginNeedsHeldCode(r, email, code);
    assert HoldsCode(r[i], email, code);
  }

  /** After the user-code timer has fired, no code logs that address in. */
  lemma LoginFailsAfterUserExpiry(users: seq<User>, email: string, code: string)
    requires EmailsDistinct(users)
    ensures LoginStatus(UserCodeExpired(users, email), email, code) != 200
  {
    var r := UserCodeExpired(users, email);
    forall j | 0 <= j < |r|
      ensures !HoldsCode(r[j], email, code)
    {
      match FindUserByEmail(users, email)
      case Some(i) =>
        if j != i {
          assert r[j] == users[j];
        }
      case None =>
        assert r[j] == users[j];
    }
  }

  /** The timer armed by an earlier request clears a code issued by a later
      one: a user who asks for a second code sees it wiped when the first
      code's three minutes are up. */
  lemma StaleTimerClearsNewerCode(users: seq<User>, email: string, c1: string, c2: string)
    requires EmailsDistinct(users)
    requires ValidateEmail(email) && c2 != ""
    requires FindUserByEmail(users, email).Some?
    ensures LoginStatus(IssuedUserCode(IssuedUserCode(users, email, c1), email, c2), email, c2) == 200
    ensures LoginStatus(UserCodeExpired(IssuedUserCode(IssuedUserCode(users, email, c1), email, c2), email), email, c2) != 200
  {
    var once := IssuedUserCode(users, email, c1);
    FirstIndexCongruent(users, once, (u: User) => u.email == email);
    assert EmailsDistinct(once);
    LoginAfterSend(once, email, c2);
    var twice := IssuedUserCode(once, email, c2);
    FirstIndexCongruent(once, twice, (u: User) => u.email == email);
    assert EmailsDistinct(twice);
    LoginFailsAfterUserExpiry(twice, email, c2);
  }

  /** The timer as evidently intended: it clears the code only if it is still
      the one this timer was armed for. */
  function UserCodeExpiredIfCurrent(users: seq<User>, email: string, code: string): seq<User>
  {
    match FindUserByEmail(users, email)
    case Some(i) =>
      if users[i].verificationCode == Some(code) then users[i := users[i].(verificationCode := None)] else users
    case None => users
  }

  /** The intended timer still expires its own code, and leaves a newer code usable. */
  lemma IntendedTimerKeepsNewerCode(users: seq<User>, email: string, c1: string, c2: string)
    requires EmailsDistinct(users)
    requires ValidateEmail(email) && c1 != "" && c2 != "" && c1 != c2
    requires FindUserByEmail(users, email).Some?
    ensures LoginStatus(UserCodeExpiredIfCurrent(IssuedUserCode(users, email, c1), email, c1), email, c1) != 200
    ensures LoginStatus(UserCodeExpiredIfCurrent(IssuedUserCode(IssuedUserCode(users, email, c1), email, c2), email, c1),
                        email, c2) == 200
  {
    var once := IssuedUserCode(users, email, c1);
    FirstIndexCongruent(users, once, (u: User) => u.email == email);
    assert EmailsDistinct(once);
    var i := FindUserByEmail(users, email).value;
    assert once[i].verificationCode == Some(c1);
    assert UserCodeExpiredIfCurrent(once, email, c1) == UserCodeExpired(once, email);
    LoginFailsAfterUserExpiry(once, email, c1);
    var twice := IssuedUserCode(once, email, c2);
    FirstIndexCongruent(once, twice, (u: User) => u.email == email);
    assert twice[i].verificationCode == Some(c2);
    assert UserCodeExpiredIfCurrent(twice, email, c1) == twice;
    LoginAfterSend(once, email, c2);
  }

  /** A user-code timer as evidently intended, for the expiry step armed with `code`. */
  method ExpireUserCodeIfCurrent(db: Database, email: string, code: string)
    requires db.Valid()
    modifies db`users
    ensures db.Valid()
    ensures db.users == UserCodeExpiredIfCurrent(old(db.users), email, code)
  {
    var found := FindUserByEmail(db.users, email);
    if found.Some? && db.users[found.value].verificationCode == Some(code) {
      var i := found.value;
      SameEmailRewrite(db.users, db.nextUserId, i, db.users[i].(verificationCode := None));
      db.users := db.users[i := db.users[i].(verificationCode := None)];
    }
  }

  // ---------------------------------------------------------------------------
  // removeMemberAccount and disabledMemberAccount; an id of 0 is a missing id.

  function RemoveStatus(users: seq<User>, userId: nat): int
  {
    if userId == 0 then 400
    else if FindByKey(users, UserKey, userId).None? then 404
    else 200
  }

  /** removeMemberAccount (src/_services/userService.ts:506-555). */
  method RemoveMemberAccount(db: Database, userId: nat) returns (status: int)
    requires db.Valid()
    modifies db`users
    ensures db.Valid()
    ensures status == RemoveStatus(old(db.users), userId)
    ensures status != 200 ==> db.users == old(db.users)
    ensures status == 200 ==> db.users == DeleteByKey(old(db.users), UserKey, userId)
  {
    if userId == 0 {
      return 400;
    }
    var found := FindByKey(db.users, UserKey, userId);
    if found.None? {
      return 404;
    }
    var i := found.value;
    KeyedRemove(db.users, UserKey, db.nextUserId, i);
    db.users := RemoveAt(db.users, i);
    status := 200;
  }

  /** Removal takes out exactly that account, so removing it again answers 404. */
  lemma RemoveTwice(users: seq<User>, next: nat, userId: nat)
    requires Keyed(users, UserKey, next)
    requires RemoveStatus(users, userId) == 200
    ensures RemoveStatus(DeleteByKey(users, UserKey, userId), userId) == 404
    ensures forall u :: u in DeleteByKey(users, UserKey, userId) <==> u in users && u.id != userId
  {
    DeleteByKeyFacts(users, UserKey, next, userId);
  }

  function DisableStatus(users: seq<User>, userId: nat): int
  {
    if userId == 0 then 400
    else match FindByKey(users, UserKey, userId)
      case None => 404
      case Some(i) => if users[i].disabled then 409 else 200
  }

  function Disable(u: User): User
  {
    u.(disabled := true)
  }

  function Disabled(users: seq<User>, userId: nat): seq<User>
  {
    UpdateByKey(users, UserKey, userId, Disable)
  }

  /** disabledMemberAccount (src/_services/userService.ts:576-627). */
  method DisabledMemberAccount(db: Database, userId: nat) returns (status: int)
    requires db.Valid()
    modifies db`users
    ensures db.Valid()
    ensures status == DisableStatus(old(db.users), userId)
    ensures status != 200 ==> db.users == old(db.users)
    ensures status == 200 ==> db.users == Disabled(old(db.users), userId)
  {
    if userId == 0 {
      return 400;
    }
    var found := FindByKey(db.users, UserKey, userId);
    if found.None? {
      return 404;
    }
    var i := found.value;
    if db.users[i].disabled {
      return 409;
    }
    SameEmailRewrite(db.users, db.nextUserId, i, Disable(db.users[i]));
    db.users := db.users[i := Disable(db.users[i])];
    status := 200;
  }

  /** Disabling an account twice: the second call answers 409. */
  lemma DisableTwice(users: seq<User>, userId: nat)
    requires DisableStatus(users, userId) == 200
    ensures DisableStatus(Disabled(users, userId), userId) == 409
  {
    var i := FindByKey(users, UserKey, userId).value;
    FindByKeyUpdate(users, UserKey, i, Disable(users[i]), userId);
  }

  /** Login never looks at `disabled`: a disabled account logs in as before. */
  lemma LoginIgnoresDisabled(users: seq<User>, userId: nat, email: string, code: string)
    ensures LoginStatus(Disabled(users, userId), email, code) == LoginStatus(users, email, code)
  {
    var r := Disabled(users, userId);
    FirstIndexCongruent(users, r, (u: User) => u.email == email);
    FirstIndexCongruent(users, r, (u: User) => HoldsCode(u, email, code));
  }
}
