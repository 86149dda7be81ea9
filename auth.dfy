/** Accounts: registration with a single-use invite code (the first member
    becomes an organizer), login, and the member's own profile update.
    Password hashing and comparison are given as functions; tokens are not
    modelled. */
module Auth {
  import opened Api
  import opened Text
  import opened Tables
  import opened Query
  import opened SetClause
  import opened Notifications

  // ----------------------------------------------------------- registration

  /** A register body; None is an absent field. */
  datatype RegisterBody = RegisterBody(
    email: Option<string>, password: Option<string>, displayName: Option<string>, inviteCode: Option<string>)

  /** The failing fields of a register body, in validator order; `isEmail`
      is the e-mail syntax check. */
  function RegisterErrors(body: RegisterBody, isEmail: string -> bool): (errs: seq<string>)
    ensures errs == [] <==>
      && body.email.Some? && isEmail(body.email.value)
      && |OrEmpty(body.password)| >= 8
      && 1 <= |Trim(OrEmpty(body.displayName))| <= 100
      && Trim(OrEmpty(body.inviteCode)) != []
  {
    (if body.email.Some? && isEmail(body.email.value) then [] else ["email"])
    + (if |OrEmpty(body.password)| >= 8 then [] else ["password"])
    + (if 1 <= |Trim(OrEmpty(body.displayName))| <= 100 then [] else ["display_name"])
    + (if Trim(OrEmpty(body.inviteCode)) != [] then [] else ["invite_code"])
  }

  /** The code an invite is looked up by: trimmed (by the validator, then
      again by the handler, which by `TrimIdempotent` is one trim) and
      upper-cased by `upper`, the handler's `toUpperCase()`. */
  function InviteKey(upper: CaseMap, code: string): string {
    upper(Trim(code))
  }

  function InviteIndex(codes: seq<InviteCode>, key: string): (k: int)
    ensures -1 <= k < |codes|
    ensures k >= 0 ==> codes[k].code == key && forall i :: 0 <= i < k ==> codes[i].code != key
    ensures k < 0 <==> forall i :: 0 <= i < |codes| ==> codes[i].code != key
  {
    FirstIndex(codes, (c: InviteCode) => c.code == key)
  }

  /** The lookup answers with the first row carrying the code. */
  lemma InviteIndexIsFirst(codes: seq<InviteCode>, key: string, k: nat)
    requires k < |codes| && codes[k].code == key
    requires forall i :: 0 <= i < k ==> codes[i].code != key
    ensures InviteIndex(codes, key) == k
  {
  }

  function EmailIndex(users: seq<User>, email: string): (k: int)
    ensures -1 <= k < |users|
    ensures k >= 0 ==> users[k].email == email && forall i :: 0 <= i < k ==> users[i].email != email
    ensures k < 0 <==> forall i :: 0 <= i < |users| ==> users[i].email != email
  {
    FirstIndex(users, (u: User) => u.email == email)
  }

  lemma EmailIndexIsFirst(users: seq<User>, email: string, k: nat)
    requires k < |users| && users[k].email == email
    requires forall i :: 0 <= i < k ==> users[i].email != email
    ensures EmailIndex(users, email) == k
  {
  }

  /** The row registration inserts: the normalized e-mail, the trimmed
      display name, the password's hash, and the organizer role exactly
      when nobody has registered yet; contact details start unset. */
  function Registered(s: State, body: RegisterBody, normalize: string -> string, hash: string -> string,
                      now: Timestamp): User {
    User(s.nextId, normalize(OrEmpty(body.email)), Trim(OrEmpty(body.displayName)), hash(OrEmpty(body.password)),
         if |s.users| == 0 then Admin else Member, None, None, None, now, now)
  }

  /** The invite after `UPDATE invite_codes SET used_by = $1, used_at = NOW()`. */
  function Consumed(c: InviteCode, userId: Id, now: Timestamp): InviteCode {
    c.(usedBy := Some(userId), usedAt := Some(now))
  }

  /** The tables after a registration: the member inserted under the next
      id, and invite `k` marked as used by them. */
  function Admitted(s: State, body: RegisterBody, normalize: string -> string, hash: string -> string,
                    now: Timestamp, k: int): State
    requires 0 <= k < |s.inviteCodes|
  {
    s.(users := s.users + [Registered(s, body, normalize, hash, now)],
       inviteCodes := s.inviteCodes[k := Consumed(s.inviteCodes[k], s.nextId, now)],
       nextId := s.nextId + 1)
  }

  lemma AdmittedAppendsAndConsumes(s: State, body: RegisterBody, normalize: string -> string, hash: string -> string,
                                   now: Timestamp, k: int)
    requires 0 <= k < |s.inviteCodes|
    ensures Admitted(s, body, normalize, hash, now, k)
         == s.(users := s.users + [Registered(s, body, normalize, hash, now)],
               inviteCodes := s.inviteCodes[k := Consumed(s.inviteCodes[k], s.nextId, now)],
               nextId := s.nextId + 1)
  {
  }

  /** `POST /api/auth/register`: validate; the invite must exist and be
      unused; the e-mail must be free; then insert the member and mark the
      invite as used by them. */
  function RegisterStep(s: State, body: RegisterBody, isEmail: string -> bool, upper: CaseMap, normalize: string -> string,
                        hash: string -> string, now: Timestamp): (r: Step<PublicUser>)
    ensures r.result.Err? ==> r.after == s
    ensures r.result.Ok? <==>
      && RegisterErrors(body, isEmail) == []
      && InviteIndex(s.inviteCodes, InviteKey(upper, OrEmpty(body.inviteCode))) >= 0
      && s.inviteCodes[InviteIndex(s.inviteCodes, InviteKey(upper, OrEmpty(body.inviteCode)))].usedBy.None?
      && EmailIndex(s.users, normalize(OrEmpty(body.email))) < 0
    ensures r.result.Ok? ==>
      && (r.result.value.role == Admin <==> |s.users| == 0)
      && r.result.value == Public(Registered(s, body, normalize, hash, now), false)
      && r.after == Admitted(s, body, normalize, hash, now, InviteIndex(s.inviteCodes, InviteKey(upper, OrEmpty(body.inviteCode))))
  {
    var errs := RegisterErrors(body, isEmail);
    if errs != [] then Step(Err(Invalid(errs)), s)
    else RegisterWithInvite(s, body, normalize, hash, now, InviteIndex(s.inviteCodes, InviteKey(upper, OrEmpty(body.inviteCode))))
  }

  /** The rest of the handler once the invite lookup has answered `k`
      (-1 when no invite carries the code). */
  function RegisterWithInvite(s: State, body: RegisterBody, normalize: string -> string, hash: string -> string,
                              now: Timestamp, k: int): Step<PublicUser>
    requires -1 <= k < |s.inviteCodes|
  {
    if k < 0 then Step(Err(InvalidInviteCode), s)
    else if s.inviteCodes[k].usedBy.Some? then Step(Err(InviteCodeUsed), s)
    else if EmailIndex(s.users, normalize(OrEmpty(body.email))) >= 0 then Step(Err(EmailTaken), s)
    else
      Step(Ok(Public(Registered(s, body, normalize, hash, now), false)), Admitted(s, body, normalize, hash, now, k))
  }

  /** Past the lookup, a free invite and an e-mail nobody uses admit the
      member. */
  lemma RegisterWithInviteAccepted(s: State, body: RegisterBody, normalize: string -> string, hash: string -> string,
                                   now: Timestamp, k: int)
    requires 0 <= k < |s.inviteCodes| && s.inviteCodes[k].usedBy.None?
    requires EmailIndex(s.users, normalize(OrEmpty(body.email))) < 0
    ensures RegisterWithInvite(s, body, normalize, hash, now, k)
         == Step(Ok(Public(Registered(s, body, normalize, hash, now), false)), Admitted(s, body, normalize, hash, now, k))
  {
  }

  /** A registration that passes every check appends the new member and
      consumes the invite. */
  lemma RegisterAccepted(s: State, body: RegisterBody, isEmail: string -> bool, upper: CaseMap, normalize: string -> string,
                         hash: string -> string, now: Timestamp, k: int)
    requires RegisterErrors(body, isEmail) == []
    requires k == InviteIndex(s.inviteCodes, InviteKey(upper, OrEmpty(body.inviteCode)))
    requires k >= 0 && s.inviteCodes[k].usedBy.None?
    requires EmailIndex(s.users, normalize(OrEmpty(body.email))) < 0
    ensures RegisterStep(s, body, isEmail, upper, normalize, hash, now)
         == Step(Ok(Public(Registered(s, body, normalize, hash, now), false)),
                 s.(users := s.users + [Registered(s, body, normalize, hash, now)],
                    inviteCodes := s.inviteCodes[k := Consumed(s.inviteCodes[k], s.nextId, now)],
                    nextId := s.nextId + 1))
  {
    RegisterWithInviteAccepted(s, body, normalize, hash, now, k);
    assert RegisterStep(s, body, isEmail, upper, normalize, hash, now) == RegisterWithInvite(s, body, normalize, hash, now, k);
    AdmittedAppendsAndConsumes(s, body, normalize, hash, now, k);
  }

  /** The refusals, in the order the handler tries them; the tables stay
      as they were. */
  lemma RegisterRefused(s: State, body: RegisterBody, isEmail: string -> bool, upper: CaseMap, normalize: string -> string,
                        hash: string -> string, now: Timestamp)
    ensures RegisterErrors(body, isEmail) != [] ==>
      RegisterStep(s, body, isEmail, upper, normalize, hash, now) == Step(Err(Invalid(RegisterErrors(body, isEmail))), s)
    ensures RegisterErrors(body, isEmail) == [] && InviteIndex(s.inviteCodes, InviteKey(upper, OrEmpty(body.inviteCode))) < 0 ==>
      RegisterStep(s, body, isEmail, upper, normalize, hash, now) == Step(Err(InvalidInviteCode), s)
    ensures RegisterErrors(body, isEmail) == [] && InviteIndex(s.inviteCodes, InviteKey(upper, OrEmpty(body.inviteCode))) >= 0
            && s.inviteCodes[InviteIndex(s.inviteCodes, InviteKey(upper, OrEmpty(body.inviteCode)))].usedBy.Some? ==>
      RegisterStep(s, body, isEmail, upper, normalize, hash, now) == Step(Err(InviteCodeUsed), s)
    ensures RegisterErrors(body, isEmail) == [] && InviteIndex(s.inviteCodes, InviteKey(upper, OrEmpty(body.inviteCode))) >= 0
            && s.inviteCodes[InviteIndex(s.inviteCodes, InviteKey(upper, OrEmpty(body.inviteCode)))].usedBy.None?
            && EmailIndex(s.users, normalize(OrEmpty(body.email))) >= 0 ==>
      RegisterStep(s, body, isEmail, upper, normalize, hash, now) == Step(Err(EmailTaken), s)
  {
  }

  /** The same, for the member row and the invite as `Register` builds them. */
  lemma RegisterCommits(s: State, body: RegisterBody, isEmail: string -> bool, upper: CaseMap, normalize: string -> string,
                        hash: string -> string, now: Timestamp, k: int, u: User, invite: InviteCode)
    requires RegisterErrors(body, isEmail) == []
    requires k == InviteIndex(s.inviteCodes, InviteKey(upper, OrEmpty(body.inviteCode)))
    requires k >= 0 && s.inviteCodes[k].usedBy.None?
    requires EmailIndex(s.users, normalize(OrEmpty(body.email))) < 0
    requires u == User(s.nextId, normalize(OrEmpty(body.email)), Trim(OrEmpty(body.displayName)),
                       hash(OrEmpty(body.password)), if |s.users| == 0 then Admin else Member, None, None, None, now, now)
    requires invite == Consumed(s.inviteCodes[k], u.id, now)
    ensures RegisterStep(s, body, isEmail, upper, normalize, hash, now)
         == Step(Ok(Public(u, false)), s.(users := s.users + [u], inviteCodes := s.inviteCodes[k := invite],
                                          nextId := s.nextId + 1))
  {
    RegisterAccepted(s, body, isEmail, upper, normalize, hash, now, k);
  }

  /** Inserting the member and then consuming the invite is the state
      `RegisterStep` describes. */
  lemma InsertThenConsume(s: State, s1: State, s2: State, u: User, k: int, invite: InviteCode)
    requires 0 <= k < |s.inviteCodes|
    requires s1 == s.(users := s.users + [u], nextId := s.nextId + 1)
    requires s2 == s1.(inviteCodes := s1.inviteCodes[k := invite])
    ensures s2 == s.(users := s.users + [u], inviteCodes := s.inviteCodes[k := invite], nextId := s.nextId + 1)
  {
  }

  /** Right after startup, the first registration with a valid body and a
      code that folds to `FOUNDER2026` succeeds, and makes the new member
      an organizer. */
  lemma FounderRegisters(body: RegisterBody, isEmail: string -> bool, upper: CaseMap, normalize: string -> string,
                         hash: string -> string, start: Timestamp, now: Timestamp)
    requires RegisterErrors(body, isEmail) == []
    requires InviteKey(upper, OrEmpty(body.inviteCode)) == "FOUNDER2026"
    ensures RegisterStep(Seeded(start), body, isEmail, upper, normalize, hash, now).result.Ok?
    ensures RegisterStep(Seeded(start), body, isEmail, upper, normalize, hash, now).result.value.role == Admin
  {
    var s := Seeded(start);
    var key := InviteKey(upper, OrEmpty(body.inviteCode));
    assert s.inviteCodes[0].code == key;
    var k := InviteIndex(s.inviteCodes, key);
    assert k == 0;
    assert s.inviteCodes[k].usedBy.None?;
    assert EmailIndex(s.users, normalize(OrEmpty(body.email))) < 0;
  }

  /** An invite admits one registration: once used, registering again with
      the same code (in any letter case the lookup folds) is refused as
      already used, whoever tries. */
  lemma InviteAdmitsOneRegistration(s: State, body: RegisterBody, again: RegisterBody, isEmail: string -> bool, upper: CaseMap,
                                    normalize: string -> string, hash: string -> string, now: Timestamp, later: Timestamp)
    requires RegisterStep(s, body, isEmail, upper, normalize, hash, now).result.Ok?
    requires RegisterErrors(again, isEmail) == []
    requires InviteKey(upper, OrEmpty(again.inviteCode)) == InviteKey(upper, OrEmpty(body.inviteCode))
    ensures RegisterStep(RegisterStep(s, body, isEmail, upper, normalize, hash, now).after, again, isEmail, upper, normalize, hash, later).result
         == Err(InviteCodeUsed)
  {
    var key := InviteKey(upper, OrEmpty(body.inviteCode));
    var k := InviteIndex(s.inviteCodes, key);
    RegisterAccepted(s, body, isEmail, upper, normalize, hash, now, k);
    var codes := s.inviteCodes[k := Consumed(s.inviteCodes[k], s.nextId, now)];
    var t := s.(users := s.users + [Registered(s, body, normalize, hash, now)], inviteCodes := codes,
                nextId := s.nextId + 1);
    forall i | 0 <= i < k ensures codes[i].code != key {
      assert codes[i] == s.inviteCodes[i];
    }
    InviteIndexIsFirst(codes, key, k);
    assert t.inviteCodes[k].usedBy.Some?;
  }

  /** Registration keeps e-mail addresses unique among the members. */
  lemma RegisterKeepsEmailsUnique(s: State, body: RegisterBody, isEmail: string -> bool, upper: CaseMap, normalize: string -> string,
                                  hash: string -> string, now: Timestamp)
    requires forall i, j :: 0 <= i < j < |s.users| ==> s.users[i].email != s.users[j].email
    ensures var users := RegisterStep(s, body, isEmail, upper, normalize, hash, now).after.users;
      forall i, j :: 0 <= i < j < |users| ==> users[i].email != users[j].email
  {
    var step := RegisterStep(s, body, isEmail, upper, normalize, hash, now);
    if step.result.Err? {
      return;
    }
    var u := Registered(s, body, normalize, hash, now);
    var users := step.after.users;
    assert users == s.users + [u];
    assert EmailIndex(s.users, u.email) < 0;
    forall i, j | 0 <= i < j < |users| ensures users[i].email != users[j].email {
      assert users[i] == s.users[i];
      if j == |s.users| {
        assert users[j] == u;
      } else {
        assert users[j] == s.users[j];
      }
    }
  }

  method Register(db: Db, body: RegisterBody, isEmail: string -> bool, upper: CaseMap, normalize: string -> string,
                  hash: string -> string, now: Timestamp) returns (r: Result<PublicUser>)
    requires db.Valid()
    modifies db
    ensures db.Valid()
    ensures Step(r, db.Snapshot()) == RegisterStep(old(db.Snapshot()), body, isEmail, upper, normalize, hash, now)
  {
    ghost var s := db.Snapshot();
    RegisterRefused(s, body, isEmail, upper, normalize, hash, now);
    var errs := RegisterErrors(body, isEmail);
    if errs != [] {
      return Err(Invalid(errs));
    }
    var k := InviteIndex(db.inviteCodes, InviteKey(upper, OrEmpty(body.inviteCode)));
    if k < 0 {
      return Err(InvalidInviteCode);
    }
    if db.inviteCodes[k].usedBy.Some? {
      return Err(InviteCodeUsed);
    }
    var email := normalize(OrEmpty(body.email));
    if EmailIndex(db.users, email) >= 0 {
      return Err(EmailTaken);
    }
    var role := if |db.users| == 0 then Admin else Member;
    var u := User(db.nextId, email, Trim(OrEmpty(body.displayName)), hash(OrEmpty(body.password)),
                  role, None, None, None, now, now);
    var invite := Consumed(db.inviteCodes[k], u.id, now);
    RegisterCommits(s, body, isEmail, upper, normalize, hash, now, k, u, invite);
    db.InsertUser(u);
    ghost var s1 := db.Snapshot();
    assert s1 == s.(users := s.users + [u], nextId := s.nextId + 1);
    db.UpdateInviteCode(k, invite);
    assert db.Snapshot() == s1.(inviteCodes := s1.inviteCodes[k := invite]);
    InsertThenConsume(s, s1, db.Snapshot(), u, k, invite);
    r := Ok(Public(u, false));
    assert Step(r, db.Snapshot()) == Step(Ok(Public(u, false)), s.(users := s.users + [u], inviteCodes := s.inviteCodes[k := invite], nextId := s.nextId + 1));
    assert Step(r, db.Snapshot()) == RegisterStep(s, body, isEmail, upper, normalize, hash, now);
    assert old(db.Snapshot()) == s;
    assert Step(r, db.Snapshot()) == RegisterStep(old(db.Snapshot()), body, isEmail, upper, normalize, hash, now);
    assert db.Valid();
  }

  // ------------------------------------------------------------------ login

  datatype LoginBody = LoginBody(email: Option<string>, password: Option<string>)

  function LoginErrors(body: LoginBody, isEmail: string -> bool): (errs: seq<string>)
    ensures errs == [] <==> body.email.Some? && isEmail(body.email.value) && OrEmpty(body.password) != []
  {
    (if body.email.Some? && isEmail(body.email.value) then [] else ["email"])
    + (if OrEmpty(body.password) != [] then [] else ["password"])
  }

  /** `POST /api/auth/login`: `matches(password, hash)` is the hash
      comparison. An unknown e-mail and a wrong password are refused with
      the same answer; a member signs in as their row without the hash. */
  function Login(s: State, body: LoginBody, isEmail: string -> bool, normalize: string -> string,
                 matches: (string, string) -> bool): (r: Result<PublicUser>)
    ensures r.Err? ==> r.error == (if LoginErrors(body, isEmail) != [] then Invalid(LoginErrors(body, isEmail))
                                   else BadCredentials)
    ensures r.Ok? <==>
      && LoginErrors(body, isEmail) == []
      && EmailIndex(s.users, normalize(OrEmpty(body.email))) >= 0
      && matches(OrEmpty(body.password), s.users[EmailIndex(s.users, normalize(OrEmpty(body.email)))].passwordHash)
    ensures r.Ok? ==> exists u :: u in s.users && u.email == normalize(OrEmpty(body.email))
                              && matches(OrEmpty(body.password), u.passwordHash) && r.value == Public(u, false)
  {
    var errs := LoginErrors(body, isEmail);
    if errs != [] then Err(Invalid(errs))
    else
      var k := EmailIndex(s.users, normalize(OrEmpty(body.email)));
      if k < 0 then Err(BadCredentials)
      else if !matches(OrEmpty(body.password), s.users[k].passwordHash) then Err(BadCredentials)
      else Ok(Public(s.users[k], false))
  }

  /** Login answers with the first member holding the e-mail when the
      password matches that member's hash. */
  lemma LoginFinds(s: State, login: LoginBody, isEmail: string -> bool, normalize: string -> string,
                   matches: (string, string) -> bool, k: nat)
    requires LoginErrors(login, isEmail) == []
    requires k < |s.users| && s.users[k].email == normalize(OrEmpty(login.email))
    requires forall i :: 0 <= i < k ==> s.users[i].email != normalize(OrEmpty(login.email))
    requires matches(OrEmpty(login.password), s.users[k].passwordHash)
    ensures Login(s, login, isEmail, normalize, matches) == Ok(Public(s.users[k], false))
  {
    EmailIndexIsFirst(s.users, normalize(OrEmpty(login.email)), k);
  }

  /** A member who has just registered can sign in with the same e-mail and
      password, as the member registration created, when the comparison
      accepts the password against its own hash. */
  lemma RegisterThenLogin(s: State, body: RegisterBody, isEmail: string -> bool, upper: CaseMap, normalize: string -> string,
                          hash: string -> string, matches: (string, string) -> bool, now: Timestamp)
    requires RegisterErrors(body, isEmail) == []
    requires InviteIndex(s.inviteCodes, InviteKey(upper, OrEmpty(body.inviteCode))) >= 0
    requires s.inviteCodes[InviteIndex(s.inviteCodes, InviteKey(upper, OrEmpty(body.inviteCode)))].usedBy.None?
    requires EmailIndex(s.users, normalize(OrEmpty(body.email))) < 0
    requires matches(OrEmpty(body.password), hash(OrEmpty(body.password)))
    ensures Login(RegisterStep(s, body, isEmail, upper, normalize, hash, now).after, LoginBody(body.email, body.password),
                  isEmail, normalize, matches)
         == RegisterStep(s, body, isEmail, upper, normalize, hash, now).result
  {
    var u := Registered(s, body, normalize, hash, now);
    var k := InviteIndex(s.inviteCodes, InviteKey(upper, OrEmpty(body.inviteCode)));
    RegisterAccepted(s, body, isEmail, upper, normalize, hash, now, k);
    var t := s.(users := s.users + [u], inviteCodes := s.inviteCodes[k := Consumed(s.inviteCodes[k], s.nextId, now)],
                nextId := s.nextId + 1);
    LoginFinds(t, LoginBody(body.email, body.password), isEmail, normalize, matches, |s.users|);
  }

  // ---------------------------------------------------------- profile update

  /** A JSON value as far as the profile validator looks at it: an object
      (with its `JSON.stringify` text) or anything else. */
  datatype Json = JsonObject(text: string) | NotAnObject

  /** A profile body; None is an absent field. */
  datatype ProfileBody = ProfileBody(
    displayName: Option<string>, contactChannel: Option<string>, contactAddress: Option<string>,
    notificationPrefs: Option<Json>)

  /** The channels a member may choose. */
  predicate KnownChannel(c: string) {
    c == "email" || c == "sms" || c == "discord" || c == "slack"
  }

  function ProfileErrors(body: ProfileBody): (errs: seq<string>)
    ensures errs == [] <==>
      && (body.displayName.Some? ==> 1 <= |Trim(body.displayName.value)| <= 100)
      && (body.contactChannel.Some? ==> KnownChannel(body.contactChannel.value))
      && (body.notificationPrefs.Some? ==> body.notificationPrefs.value.JsonObject?)
  {
    (if body.displayName.None? || 1 <= |Trim(body.displayName.value)| <= 100 then [] else ["display_name"])
    + (if body.contactChannel.None? || KnownChannel(body.contactChannel.value) then [] else ["contact_channel"])
    + (if body.notificationPrefs.None? || body.notificationPrefs.value.JsonObject? then [] else ["notification_prefs"])
  }

  datatype UserColumn = DisplayNameColumn | ContactChannelColumn | ContactAddressColumn | PrefsColumn

  /** The `updates`/`values` lists of `PATCH /api/auth/me`, one item per
      supplied field in a fixed column order, each with the next
      placeholder. */
  method BuildProfileUpdate(displayName: Option<string>, channel: Option<string>, address: Option<string>,
                            prefs: Option<string>)
    returns (updates: seq<Assignment<UserColumn>>, values: seq<string>, idx: nat)
    ensures Numbered(updates) && |values| == |updates| && idx == |updates| + 1
    ensures updates == [] <==> displayName.None? && channel.None? && address.None? && prefs.None?
    ensures Assigned(updates, values, DisplayNameColumn) == displayName
    ensures Assigned(updates, values, ContactChannelColumn) == channel
    ensures Assigned(updates, values, ContactAddressColumn) == address
    ensures Assigned(updates, values, PrefsColumn) == prefs
  {
    updates, values, idx := [], [], 1;
    if displayName.Some? {
      updates, values, idx := Push(updates, values, idx, DisplayNameColumn, displayName.value);
    }
    if channel.Some? {
      updates, values, idx := Push(updates, values, idx, ContactChannelColumn, channel.value);
    }
    assert Assigned(updates, values, DisplayNameColumn) == displayName;
    assert Assigned(updates, values, ContactChannelColumn) == channel;
    if address.Some? {
      updates, values, idx := Push(updates, values, idx, ContactAddressColumn, address.value);
    }
    if prefs.Some? {
      updates, values, idx := Push(updates, values, idx, PrefsColumn, prefs.value);
    }
  }

  /** The row an `UPDATE users SET <updates>` leaves. */
  function ApplyProfileUpdate(u: User, updates: seq<Assignment<UserColumn>>, values: seq<string>): User {
    var dn := Assigned(updates, values, DisplayNameColumn);
    var cc := Assigned(updates, values, ContactChannelColumn);
    var ca := Assigned(updates, values, ContactAddressColumn);
    var np := Assigned(updates, values, PrefsColumn);
    u.(displayName := if dn.Some? then dn.value else u.displayName,
       contactChannel := if cc.Some? then cc else u.contactChannel,
       contactAddress := if ca.Some? then ca else u.contactAddress,
       notificationPrefs := if np.Some? then np else u.notificationPrefs)
  }

  /** The values the handler binds: the sanitized (trimmed) display name
      and address, the channel as given, the preferences as JSON text. */
  function ProfileValues(body: ProfileBody): (Option<string>, Option<string>, Option<string>, Option<string>) {
    (if body.displayName.Some? then Some(Trim(body.displayName.value)) else None,
     body.contactChannel,
     if body.contactAddress.Some? then Some(Trim(body.contactAddress.value)) else None,
     if body.notificationPrefs.Some? && body.notificationPrefs.value.JsonObject?
     then Some(body.notificationPrefs.value.text) else None)
  }

  /** The member's row after a valid profile update: supplied fields
      replaced, everything else kept. */
  function Profiled(u: User, body: ProfileBody): User
    requires ProfileErrors(body) == []
  {
    var v := ProfileValues(body);
    u.(displayName := if v.0.Some? then v.0.value else u.displayName,
       contactChannel := if v.1.Some? then v.1 else u.contactChannel,
       contactAddress := if v.2.Some? then v.2 else u.contactAddress,
       notificationPrefs := if v.3.Some? then v.3 else u.notificationPrefs)
  }

  function NoProfileFields(body: ProfileBody): bool {
    body.displayName.None? && body.contactChannel.None? && body.contactAddress.None?
    && body.notificationPrefs.None?
  }

  /** `PATCH /api/auth/me`: validate, refuse an empty update, then update
      the caller's own row. When the caller's row is gone the update finds
      nothing and the answer carries no user. */
  function PatchMeStep(s: State, caller: Caller, body: ProfileBody): (r: Step<Option<PublicUser>>)
    ensures r.result.Err? ==> r.after == s
    ensures r.result == Err(NoFieldsToUpdate) <==> ProfileErrors(body) == [] && NoProfileFields(body)
    ensures r.result.Ok? <==> ProfileErrors(body) == [] && !NoProfileFields(body)
    ensures r.result.Ok? && UserIndex(s.users, caller.id) < 0 ==> r.result.value.None? && r.after == s
    ensures r.result.Ok? && UserIndex(s.users, caller.id) >= 0 ==>
      var k := UserIndex(s.users, caller.id);
      && r.result.value == Some(Public(Profiled(s.users[k], body), true))
      && r.after == s.(users := s.users[k := Profiled(s.users[k], body)])
  {
    var errs := ProfileErrors(body);
    if errs != [] then Step(Err(Invalid(errs)), s)
    else if NoProfileFields(body) then Step(Err(NoFieldsToUpdate), s)
    else
      var k := UserIndex(s.users, caller.id);
      if k < 0 then Step(Ok(None), s)
      else
        var row := Profiled(s.users[k], body);
        Step(Ok(Some(Public(row, true))), s.(users := s.users[k := row]))
  }

  /** A valid, non-empty update of an existing member replaces their row by
      the profiled one. */
  lemma PatchMeAccepted(s: State, caller: Caller, body: ProfileBody, k: int)
    requires ProfileErrors(body) == [] && !NoProfileFields(body)
    requires k == UserIndex(s.users, caller.id) && k >= 0
    ensures PatchMeStep(s, caller, body)
         == Step(Ok(Some(Public(Profiled(s.users[k], body), true))), s.(users := s.users[k := Profiled(s.users[k], body)]))
  {
  }

  /** A profile update changes only the supplied fields of the caller's own
      row: identity, e-mail, hash and role are kept, and every other
      member's row is untouched. A chosen channel is one of the known ones,
      and notifications are then sent on it. */
  lemma PatchMeOnlySuppliedFields(s: State, caller: Caller, body: ProfileBody, j: nat)
    requires ProfileErrors(body) == [] && !NoProfileFields(body)
    requires UserIndex(s.users, caller.id) >= 0
    requires j < |s.users|
    ensures var old_ := s.users[UserIndex(s.users, caller.id)];
      var users := PatchMeStep(s, caller, body).after.users;
      var row := users[UserIndex(s.users, caller.id)];
      && |users| == |s.users|
      && (j != UserIndex(s.users, caller.id) ==> users[j] == s.users[j])
      && row.(displayName := old_.displayName, contactChannel := old_.contactChannel,
              contactAddress := old_.contactAddress, notificationPrefs := old_.notificationPrefs) == old_
      && (body.displayName.None? ==> row.displayName == old_.displayName)
      && (body.contactChannel.None? ==> row.contactChannel == old_.contactChannel)
      && (body.contactAddress.None? ==> row.contactAddress == old_.contactAddress)
      && (body.notificationPrefs.None? ==> row.notificationPrefs == old_.notificationPrefs)
      && (body.displayName.Some? ==> 1 <= |row.displayName| <= 100)
      && (body.contactChannel.Some? ==>
            KnownChannel(row.contactChannel.value) && ChannelOf(row) == body.contactChannel.value)
  {
    var k := UserIndex(s.users, caller.id);
    PatchMeAccepted(s, caller, body, k);
  }

  /** Binding exactly the handler's values gives the profiled row. */
  lemma ProfileUpdateIsProfiled(u: User, body: ProfileBody, updates: seq<Assignment<UserColumn>>, values: seq<string>)
    requires ProfileErrors(body) == []
    requires Assigned(updates, values, DisplayNameColumn) == ProfileValues(body).0
    requires Assigned(updates, values, ContactChannelColumn) == ProfileValues(body).1
    requires Assigned(updates, values, ContactAddressColumn) == ProfileValues(body).2
    requires Assigned(updates, values, PrefsColumn) == ProfileValues(body).3
    ensures ApplyProfileUpdate(u, updates, values) == Profiled(u, body)
  {
  }

  method PatchMe(db: Db, caller: Caller, body: ProfileBody) returns (r: Result<Option<PublicUser>>)
    requires db.Valid()
    modifies db
    ensures db.Valid()
    ensures Step(r, db.Snapshot()) == PatchMeStep(old(db.Snapshot()), caller, body)
  {
    var errs := ProfileErrors(body);
    if errs != [] {
      return Err(Invalid(errs));
    }
    var v := ProfileValues(body);
    var updates, values, idx := BuildProfileUpdate(v.0, v.1, v.2, v.3);
    if |updates| == 0 {
      return Err(NoFieldsToUpdate);
    }
    // values.push(req.user.id); ... WHERE id = $idx
    var k := UserIndex(db.users, caller.id);
    if k < 0 {
      return Ok(None);
    }
    var row := ApplyProfileUpdate(db.users[k], updates, values);
    ProfileUpdateIsProfiled(db.users[k], body, updates, values);
    db.UpdateUser(k, row);
    r := Ok(Some(Public(row, true)));
  }
}
