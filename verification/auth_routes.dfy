/**
 * Account routes (server/routes/auth.js): registration, password login and
 * the admin-key login that provisions the single master admin account.
 */
module AuthRoutes {
  import opened Wrappers
  import opened Text
  import opened Seqs
  import opened Models

  const InvalidRoleMessage: string := "Invalid role"
  const UserExistsMessage: string := "User already exists"
  const InvalidCredentialsMessage: string := "Invalid credentials"
  const InvalidAdminKeyMessage: string := "Invalid admin key"
  /** What bcryptjs throws when asked to hash or compare a missing password. */
  const MissingPasswordMessage: string := "Illegal arguments: undefined, string"
  /** Mongoose's validation error for a new account, shortened to its first words. */
  const UserValidationFailedMessage: string := "User validation failed"
  const DefaultAdminKey: string := "admin123"
  const MasterAdminEmail: string := "admin@campushb.com"
  const MasterAdminPassword: string := "admin@123"
  const MasterAdminName: string := "System Admin"
  const MasterAdminCollege: string := "HiringBazar Headquarters"

  /** The user summary every successful sign-in returns. */
  datatype SessionUser = SessionUser(id: Id, name: string, role: string, collegeName: string)

  /** A signed token for `{id, role}` and the user summary. */
  datatype Session = Session(token: string, user: SessionUser)

  function SessionFor(u: User, sign: Claims -> string): Session {
    Session(sign(Claims(u.id, RoleName(u.role))), SessionUser(u.id, u.name, RoleName(u.role), u.collegeName))
  }

  /** The `findOne({email})` filter. */
  function HasEmail(email: string): User -> bool {
    (u: User) => u.email == email
  }

  /** The User schema's required text fields other than the password hash: a missing or empty value fails validation. */
  predicate MissesRequiredAccountField(name: string, email: string, collegeName: string) {
    name == "" || email == "" || collegeName == ""
  }

  /**
   * POST /register: rejects a role outside student/staff/admin, then an
   * email already in use, both with 400; a missing password makes hashing
   * throw, and an account missing a required field fails validation on
   * save, both with 500; otherwise stores one new active account with the
   * hashed password and answers with a session for it.
   */
  method Register(db: Database, name: string, email: string, password: Option<string>, collegeName: string,
                  role: string, crypto: Crypto) returns (r: Response<Session>)
    requires db.Valid()
    modifies db
    ensures db.Valid()
    ensures db.jobs == old(db.jobs) && db.applications == old(db.applications)
    ensures role !in ValidRoles ==> r == Error(400, InvalidRoleMessage) && db.users == old(db.users)
    ensures role in ValidRoles && IndexOf(old(db.users), HasEmail(email)).Some? ==>
      r == Error(400, UserExistsMessage) && db.users == old(db.users)
    ensures role in ValidRoles && IndexOf(old(db.users), HasEmail(email)).None? && password.None? ==>
      r == Error(500, MissingPasswordMessage) && db.users == old(db.users)
    ensures role in ValidRoles && IndexOf(old(db.users), HasEmail(email)).None? && password.Some? &&
            MissesRequiredAccountField(name, email, collegeName) ==>
      r == Error(500, UserValidationFailedMessage) && db.users == old(db.users)
    ensures r.Ok? <==>
      role in ValidRoles && IndexOf(old(db.users), HasEmail(email)).None? && password.Some? &&
      !MissesRequiredAccountField(name, email, collegeName)
    ensures r.Ok? ==>
      var u := User(old(db.nextId), name, email, crypto.hash(password.value), collegeName,
                    ParseRole(role).value, Some(true), old(db.clock));
      db.users == old(db.users) + [u] && r.body == SessionFor(u, crypto.sign)
  {
    var parsed := ParseRole(role);
    if parsed.None? {
      return Error(400, InvalidRoleMessage);
    }
    var existing := IndexOf(db.users, HasEmail(email));
    if existing.Some? {
      return Error(400, UserExistsMessage);
    }
    if password.None? {
      return Error(500, MissingPasswordMessage);
    }
    var hashed := crypto.hash(password.value);
    if MissesRequiredAccountField(name, email, collegeName) {
      return Error(500, UserValidationFailedMessage);
    }
    var id, now := db.Stamp();
    var user := User(id, name, email, hashed, collegeName, parsed.value, Some(true), now);
    AppendKeepsValidUsers(db.users, user, db.nextId, db.clock);
    db.users := db.users + [user];
    r := Ok(SessionFor(user, crypto.sign));
  }

  /** A new account with a fresh id and timestamp and an unused email keeps the collection valid. */
  lemma AppendKeepsValidUsers(users: seq<User>, u: User, nextId: Id, clock: nat)
    requires ValidUsers(users, nextId, clock)
    requires forall v :: v in users ==> v.id < u.id && v.createdAt < u.createdAt && v.email != u.email
    requires u.id < nextId && u.createdAt < clock
    ensures ValidUsers(users + [u], nextId, clock)
  {
    forall i | 0 <= i < |users| ensures UserPrecedes(users[i], u) {
      assert users[i] in users;
    }
    PairwiseAppend(users, u, UserPrecedes);
  }

  /**
   * POST /login: an unknown email and a wrong password give the same 400
   * "Invalid credentials"; a missing password for a known email makes the
   * comparison throw, which answers 500; otherwise a session for the
   * account found.
   */
  function Login(users: seq<User>, email: string, password: Option<string>, crypto: Crypto): (r: Response<Session>)
    ensures IndexOf(users, HasEmail(email)).None? ==> r == Error(400, InvalidCredentialsMessage)
    ensures IndexOf(users, HasEmail(email)).Some? && password.None? <==> r == Error(500, MissingPasswordMessage)
    ensures password.Some? && r.Error? ==> r == Error(400, InvalidCredentialsMessage)
    ensures r.Ok? <==>
      && IndexOf(users, HasEmail(email)).Some? && password.Some?
      && crypto.compare(password.value, users[IndexOf(users, HasEmail(email)).value].password)
    ensures r.Ok? ==> exists u :: u in users && u.email == email && r.body == SessionFor(u, crypto.sign)
  {
    match IndexOf(users, HasEmail(email))
    case None => Error(400, InvalidCredentialsMessage)
    case Some(i) =>
      if password.None? then Error(500, MissingPasswordMessage)
      else if !crypto.compare(password.value, users[i].password) then Error(400, InvalidCredentialsMessage)
      else Ok(SessionFor(users[i], crypto.sign))
  }

  /** A caller cannot tell an unknown email from a wrong password. */
  lemma LoginHidesWhichCheckFailed(users: seq<User>, unknown: string, known: string, wrong: string, crypto: Crypto)
    requires forall u :: u in users ==> u.email != unknown
    requires IndexOf(users, HasEmail(known)).Some?
    requires !crypto.compare(wrong, users[IndexOf(users, HasEmail(known)).value].password)
    ensures Login(users, unknown, Some(wrong), crypto) == Login(users, known, Some(wrong), crypto)
  {
  }

  /**
   * With a hash that compares equal to its own password, an account just
   * registered can sign in with that password and gets the same session
   * registration returned.
   */
  lemma {:induction false} LoginAfterRegister(users: seq<User>, u: User, password: string, crypto: Crypto)
    requires forall v :: v in users ==> v.email != u.email
    requires u.password == crypto.hash(password)
    requires crypto.compare(password, crypto.hash(password))
    ensures Login(users + [u], u.email, Some(password), crypto) == Ok(SessionFor(u, crypto.sign))
  {
    var all := users + [u];
    var found := IndexOf(all, HasEmail(u.email));
    assert HasEmail(u.email)(all[|users|]);
    assert found.Some?;
  }

  lemma DefaultAdminKeyIsTrimmed()
    ensures Trim(DefaultAdminKey) == DefaultAdminKey
  {
    var k := DefaultAdminKey;
    assert k[0] == 'a' && k[|k| - 1] == '3';
    assert !IsSpace('a') && !IsSpace('3');
    TrimUnpadded(k);
  }

  /** The expected admin key: ADMIN_KEY when set and non-empty, otherwise "admin123", trimmed. */
  function ExpectedAdminKey(configured: Option<string>): (r: string)
    ensures Truthy(configured) ==> r == Trim(configured.value)
    ensures !Truthy(configured) ==> r == DefaultAdminKey
    ensures r != [] ==> !IsSpace(r[0]) && !IsSpace(r[|r| - 1])
  {
    DefaultAdminKeyIsTrimmed();
    Trim(if Truthy(configured) then configured.value else DefaultAdminKey)
  }

  /** The admin-key check: a key is present and its trim equals the expected key. */
  predicate AdminKeyAccepted(adminKey: Option<string>, configured: Option<string>) {
    Truthy(adminKey) && Trim(adminKey.value) == ExpectedAdminKey(configured)
  }

  /** Whitespace around the submitted key does not matter. */
  lemma AdminKeyIgnoresPadding(left: string, key: string, right: string, configured: Option<string>)
    requires key != "" && AllSpace(left) && AllSpace(right)
    ensures AdminKeyAccepted(Some(left + key + right), configured) == AdminKeyAccepted(Some(key), configured)
  {
    TrimIgnoresPadding(left, key, right);
  }

  /** With no key configured, exactly the keys that trim to "admin123" are accepted. */
  lemma DefaultAdminKeyAccepted(adminKey: string)
    ensures AdminKeyAccepted(Some(adminKey), None) <==> Trim(adminKey) == DefaultAdminKey
  {
    if Trim(adminKey) == DefaultAdminKey {
      assert adminKey != "";
    }
  }

  /** The account admin-login creates when none has the master admin email. */
  function MasterAdmin(id: Id, now: nat, hashed: string): User {
    User(id, MasterAdminName, MasterAdminEmail, hashed, MasterAdminCollege, Admin, Some(true), now)
  }

  /** The user collection after admin-login's find-or-create. */
  function WithMasterAdmin(users: seq<User>, id: Id, now: nat, hashed: string): (r: seq<User>)
    ensures IndexOf(r, HasEmail(MasterAdminEmail)).Some?
    ensures IndexOf(users, HasEmail(MasterAdminEmail)).Some? ==> r == users
    ensures IndexOf(users, HasEmail(MasterAdminEmail)).None? ==> r == users + [MasterAdmin(id, now, hashed)]
  {
    if IndexOf(users, HasEmail(MasterAdminEmail)).Some? then users
    else
      var r := users + [MasterAdmin(id, now, hashed)];
      assert HasEmail(MasterAdminEmail)(r[|users|]);
      r
  }

  /** Admin-login is idempotent on the store: a second find-or-create adds nobody. */
  lemma MasterAdminIdempotent(users: seq<User>, id1: Id, now1: nat, hash1: string, id2: Id, now2: nat, hash2: string)
    ensures WithMasterAdmin(WithMasterAdmin(users, id1, now1, hash1), id2, now2, hash2)
         == WithMasterAdmin(users, id1, now1, hash1)
  {
  }

  /** Creating the master admin with a fresh id and timestamp keeps the collection valid. */
  lemma MasterAdminKeepsValid(users: seq<User>, id: Id, now: nat, hashed: string, nextId: Id, clock: nat)
    requires ValidUsers(users, nextId, clock) && id < nextId && now < clock
    requires forall v :: v in users ==> v.id < id && v.createdAt < now
    ensures ValidUsers(WithMasterAdmin(users, id, now, hashed), nextId, clock)
  {
    if IndexOf(users, HasEmail(MasterAdminEmail)).None? {
      var admin := MasterAdmin(id, now, hashed);
      forall v | v in users ensures v.email != admin.email {
        assert !HasEmail(MasterAdminEmail)(v);
      }
      AppendKeepsValidUsers(users, admin, nextId, clock);
    }
  }

  /**
   * Admin-login's find-or-create: the account with the master admin email,
   * created with a fresh id and timestamp only when no account has it.
   */
  method FindOrCreateMasterAdmin(db: Database, crypto: Crypto) returns (admin: User)
    requires db.Valid()
    modifies db
    ensures db.Valid()
    ensures db.jobs == old(db.jobs) && db.applications == old(db.applications)
    ensures db.users == WithMasterAdmin(old(db.users), old(db.nextId), old(db.clock), crypto.hash(MasterAdminPassword))
    ensures admin == db.users[IndexOf(db.users, HasEmail(MasterAdminEmail)).value]
  {
    if IndexOf(db.users, HasEmail(MasterAdminEmail)).None? {
      var hashed := crypto.hash(MasterAdminPassword);
      var id, now := db.Stamp();
      MasterAdminKeepsValid(db.users, id, now, hashed, db.nextId, db.clock);
      db.users := WithMasterAdmin(db.users, id, now, hashed);
    }
    admin := db.users[IndexOf(db.users, HasEmail(MasterAdminEmail)).value];
  }

  /**
   * POST /admin-login: 401 unless the key is accepted; otherwise finds the
   * account with the master admin email, creating it only when it is absent,
   * and answers with a session for it.
   */
  method AdminLogin(db: Database, adminKey: Option<string>, configured: Option<string>, crypto: Crypto)
    returns (r: Response<Session>)
    requires db.Valid()
    modifies db
    ensures db.Valid()
    ensures db.jobs == old(db.jobs) && db.applications == old(db.applications)
    ensures !AdminKeyAccepted(adminKey, configured) ==> r == Error(401, InvalidAdminKeyMessage) && db.users == old(db.users)
    ensures AdminKeyAccepted(adminKey, configured) ==>
      && db.users == WithMasterAdmin(old(db.users), old(db.nextId), old(db.clock), crypto.hash(MasterAdminPassword))
      && r == Ok(SessionFor(db.users[IndexOf(db.users, HasEmail(MasterAdminEmail)).value], crypto.sign))
  {
    if !AdminKeyAccepted(adminKey, configured) {
      return Error(401, InvalidAdminKeyMessage);
    }
    var admin := FindOrCreateMasterAdmin(db, crypto);
    r := Ok(SessionFor(admin, crypto.sign));
  }
}
