/**
 * server/src/controllers/authController.ts: registration, login, search and the admin's user
 * management. bcrypt's hash (with its random salt) is the parameter `hash`, bcrypt's compare is
 * `compare`, the signed JWT is represented by the user id it is signed for, and Mongo's
 * case-insensitive `$regex` match of the query against a username is `matches`.
 */
module AuthController {
  import opened Wrappers
  import opened Ids
  import opened Http
  import Text
  import opened Store

  const DEFAULT_JOB_TITLE := "Software Engineer"
  const SEARCH_LIMIT := 10

  /** JavaScript truthiness of an optional string: present and not empty. */
  predicate Truthy(s: Option<string>) {
    s.Some? && s.value != ""
  }

  /** The user fields the handlers send back. */
  datatype Profile = Profile(
    id: Id,
    username: string,
    email: string,
    isAdmin: Option<bool>,
    isActive: Option<bool>,
    jobTitle: Option<string>)

  function ProfileOf(u: User): (p: Profile)
    ensures p.id == u.id && p.username == u.username && p.email == u.email
  {
    Profile(u.id, u.username, u.email, u.isAdmin, u.isActive, u.jobTitle)
  }

  /** A successful registration or login: the profile and the id the issued token is signed for. */
  datatype Session = Session(profile: Profile, tokenFor: Id)

  /** The document registerUser and createUser insert: the username is stored lower-cased, the password hashed. */
  function NewUser(id: Id, username: string, email: string, hashed: string, isAdmin: Option<bool>, jobTitle: Option<string>): (u: User)
    ensures u.id == id && u.email == email && u.password == hashed && u.projects == [] && u.isActive.None?
    ensures u.username == Text.Lower(username)
    ensures forall i :: 0 <= i < |u.username| ==> !('A' <= u.username[i] <= 'Z')
  {
    User(id, Text.Lower(username), email, hashed, isAdmin, None, jobTitle, [])
  }

  datatype RegisterBody = RegisterBody(username: Option<string>, email: string, password: Option<string>)

  /** `registerUser`: refuses a taken e-mail; otherwise stores the new user and logs it in. */
  method RegisterUser(db: Db, body: RegisterBody, hash: string -> string) returns (reply: Reply<Session>)
    requires db.Valid()
    modifies db
    ensures db.Valid()
    ensures db.projects == old(db.projects) && db.tickets == old(db.tickets) && db.comments == old(db.comments)
    ensures UserWithEmail(old(db.users), body.email).Some? ==>
      reply == Fail(BAD_REQUEST, "User already exists") && unchanged(db)
    ensures UserWithEmail(old(db.users), body.email).None? && (body.username.None? || body.password.None?) ==>
      reply.status == SERVER_ERROR && unchanged(db)
    ensures UserWithEmail(old(db.users), body.email).None? && body.username.Some? && body.password.Some? ==>
      var u := NewUser(old(db.nextId), body.username.value, body.email, hash(body.password.value), None, None);
      && db.users == old(db.users) + [u] && db.nextId == old(db.nextId) + 1
      && reply == Reply(CREATED, Payload(Session(ProfileOf(u), u.id)))
  {
    if UserWithEmail(db.users, body.email).Some? {
      return Fail(BAD_REQUEST, "User already exists");
    }
    // bcrypt.hash(undefined) and undefined.toLowerCase() both throw
    if body.password.None? || body.username.None? {
      return Fail(SERVER_ERROR, "Server error during registration");
    }
    var hashed := hash(body.password.value);
    var user := NewUser(db.nextId, body.username.value, body.email, hashed, None, None);
    db.InsertUser(user);
    reply := Reply(CREATED, Payload(Session(ProfileOf(user), user.id)));
  }

  datatype CreateUserBody = CreateUserBody(
    username: Option<string>,
    email: string,
    password: Option<string>,
    isAdmin: Option<bool>,
    jobTitle: Option<string>)

  /** `isAdmin || false` */
  function AdminFlag(isAdmin: Option<bool>): (b: bool)
    ensures b <==> isAdmin == Some(true)
  {
    isAdmin.Some? && isAdmin.value
  }

  /** `jobTitle || 'Software Engineer'` */
  function JobTitleOrDefault(jobTitle: Option<string>): (t: string)
    ensures Truthy(jobTitle) ==> t == jobTitle.value
    ensures !Truthy(jobTitle) ==> t == DEFAULT_JOB_TITLE
  {
    if Truthy(jobTitle) then jobTitle.value else DEFAULT_JOB_TITLE
  }

  /** `createUser` (admin only): as registerUser, with the admin flag and job title defaulted. */
  method CreateUser(db: Db, body: CreateUserBody, hash: string -> string) returns (reply: Reply<Profile>)
    requires db.Valid()
    modifies db
    ensures db.Valid()
    ensures db.projects == old(db.projects) && db.tickets == old(db.tickets) && db.comments == old(db.comments)
    ensures UserWithEmail(old(db.users), body.email).Some? ==>
      reply == Fail(BAD_REQUEST, "User already exists") && unchanged(db)
    ensures UserWithEmail(old(db.users), body.email).None? && (body.username.None? || body.password.None?) ==>
      reply.status == SERVER_ERROR && unchanged(db)
    ensures UserWithEmail(old(db.users), body.email).None? && body.username.Some? && body.password.Some? ==>
      var u := NewUser(old(db.nextId), body.username.value, body.email, hash(body.password.value),
                       Some(AdminFlag(body.isAdmin)), Some(JobTitleOrDefault(body.jobTitle)));
      && db.users == old(db.users) + [u] && db.nextId == old(db.nextId) + 1
      && reply == Reply(CREATED, Payload(ProfileOf(u)))
  {
    if UserWithEmail(db.users, body.email).Some? {
      return Fail(BAD_REQUEST, "User already exists");
    }
    if body.password.None? || body.username.None? {
      return Fail(SERVER_ERROR, "Server Error");
    }
    var hashed := hash(body.password.value);
    var user := NewUser(db.nextId, body.username.value, body.email, hashed,
                        Some(AdminFlag(body.isAdmin)), Some(JobTitleOrDefault(body.jobTitle)));
    db.InsertUser(user);
    reply := Reply(CREATED, Payload(ProfileOf(user)));
  }

  datatype LoginBody = LoginBody(email: string, password: Option<string>)

  /** The supplied password matches the stored hash. */
  predicate PasswordMatches(u: User, body: LoginBody, compare: (string, string) -> bool) {
    body.password.Some? && compare(body.password.value, u.password)
  }

  /** `loginUser`: 401 unless the e-mail is known and the password matches; then 403 for a deactivated account. */
  function LoginUser(users: seq<User>, body: LoginBody, compare: (string, string) -> bool): (reply: Reply<Session>)
    ensures reply.status == OK <==>
      exists i :: 0 <= i < |users| && UserWithEmail(users, body.email) == Some(i)
        && PasswordMatches(users[i], body, compare) && users[i].isActive != Some(false)
    ensures reply.status == FORBIDDEN <==>
      exists i :: 0 <= i < |users| && UserWithEmail(users, body.email) == Some(i)
        && PasswordMatches(users[i], body, compare) && users[i].isActive == Some(false)
    ensures reply.status == UNAUTHORIZED <==>
      || UserWithEmail(users, body.email).None?
      || (body.password.Some? && !compare(body.password.value, users[UserWithEmail(users, body.email).value].password))
    // bcrypt.compare(undefined, hash) throws, and the catch block answers 500
    ensures reply.status == SERVER_ERROR <==> UserWithEmail(users, body.email).Some? && body.password.None?
    ensures reply.status in {OK, FORBIDDEN, UNAUTHORIZED, SERVER_ERROR}
    ensures reply.status == OK ==>
      var u := users[UserWithEmail(users, body.email).value];
      reply.body == Payload(Session(ProfileOf(u), u.id))
  {
    var found := UserWithEmail(users, body.email);
    if found.None? then Fail(UNAUTHORIZED, "Invalid email or password")
    else
      var user := users[found.value];
      // bcrypt.compare(undefined, hash) throws
      if body.password.None? then Fail(SERVER_ERROR, "Server error during login")
      else if !compare(body.password.value, user.password) then Fail(UNAUTHORIZED, "Invalid email or password")
      else if user.isActive == Some(false) then Fail(FORBIDDEN, "Account is deactivated. Contact admin.")
      else Reply(OK, Payload(Session(ProfileOf(user), user.id)))
  }

  /** An account without an `isActive` field logs in like an active one. */
  lemma UndefinedIsActive(users: seq<User>, body: LoginBody, compare: (string, string) -> bool, k: nat)
    requires k < |users| && UserWithEmail(users, body.email) == Some(k)
    requires PasswordMatches(users[k], body, compare) && users[k].isActive.None?
    ensures LoginUser(users, body, compare).status == OK
  {
  }

  /** The `query` parameter: absent, one string, or repeated (which Express turns into an array). */
  datatype Query = NoQuery | QueryText(text: string) | QueryList(items: seq<string>)

  /** The fields `.select('_id username email jobTitle')` keeps. */
  datatype SearchHit = SearchHit(id: Id, username: string, email: string, jobTitle: Option<string>)

  function HitOf(u: User): SearchHit {
    SearchHit(u.id, u.username, u.email, u.jobTitle)
  }

  /** `User.find({ username: { $regex: query, $options: 'i' }, isActive: true })`, in natural order. */
  function ActiveMatching(users: seq<User>, query: string, matches: (string, string) -> bool): (r: seq<User>)
    ensures |r| <= |users|
    ensures forall u :: u in r <==> u in users && u.isActive == Some(true) && matches(query, u.username)
  {
    Select(users, (u: User) => u.isActive == Some(true) && matches(query, u.username))
  }

  function Hits(users: seq<User>): (r: seq<SearchHit>)
    ensures |r| == |users| && forall i :: 0 <= i < |users| ==> r[i] == HitOf(users[i])
  {
    if users == [] then [] else [HitOf(users[0])] + Hits(users[1..])
  }

  /** `searchUsers`: 400 without a single non-empty query string; otherwise at most ten active matching users. */
  function SearchUsers(users: seq<User>, query: Query, matches: (string, string) -> bool): (reply: Reply<seq<SearchHit>>)
    ensures !(query.QueryText? && query.text != "") <==> reply == Fail(BAD_REQUEST, "Query is required")
    ensures reply.status == OK || reply.status == BAD_REQUEST
    ensures reply.status == OK ==> reply.body.Payload?
    ensures reply.status == OK ==>
      var found := ActiveMatching(users, query.text, matches);
      && |reply.body.value| == (if |found| < SEARCH_LIMIT then |found| else SEARCH_LIMIT)
      && (forall i :: 0 <= i < |reply.body.value| ==> reply.body.value[i] == HitOf(found[i]))
      && forall h :: h in reply.body.value ==>
           exists u :: u in users && u.isActive == Some(true) && matches(query.text, u.username) && h == HitOf(u)
  {
    if !(query.QueryText? && query.text != "") then Fail(BAD_REQUEST, "Query is required")
    else
      var found := ActiveMatching(users, query.text, matches);
      var limited := if |found| < SEARCH_LIMIT then found else found[..SEARCH_LIMIT];
      var hits := Hits(limited);
      assert forall h :: h in hits ==> exists u :: u in limited && h == HitOf(u) by {
        forall h | h in hits ensures exists u :: u in limited && h == HitOf(u) {
          var k :| 0 <= k < |hits| && hits[k] == h;
          assert limited[k] in limited;
        }
      }
      assert forall u :: u in limited ==> u in found;
      Reply(OK, Payload(hits))
  }

  /** With at most ten matches, every active matching user is among the hits. */
  lemma {:induction false} FewMatchesAllListed(users: seq<User>, query: string, matches: (string, string) -> bool)
    requires query != ""
    requires |ActiveMatching(users, query, matches)| <= SEARCH_LIMIT
    ensures forall u :: u in users && u.isActive == Some(true) && matches(query, u.username) ==>
      HitOf(u) in SearchUsers(users, QueryText(query), matches).body.value
  {
    var found := ActiveMatching(users, query, matches);
    var hits := SearchUsers(users, QueryText(query), matches).body.value;
    forall u | u in users && u.isActive == Some(true) && matches(query, u.username) ensures HitOf(u) in hits {
      var i :| 0 <= i < |found| && found[i] == u;
      assert hits[i] == HitOf(u);
    }
  }

  datatype UpdateBody = UpdateBody(
    username: Option<string>,
    email: Option<string>,
    jobTitle: Option<string>,
    isAdmin: Option<bool>,
    isActive: Option<bool>,
    password: Option<string>)

  /** A password is replaced only by one that is not blank. */
  predicate NewPassword(body: UpdateBody) {
    body.password.Some? && body.password.value != "" && Text.Trim(body.password.value) != ""
  }

  /** The user `updateUser` saves: the specification of its field-by-field assignments. */
  function Updated(u: User, body: UpdateBody, hash: string -> string): (r: User)
    ensures r.id == u.id && r.projects == u.projects
    // `req.body.x || user.x`: a truthy string replaces the field, anything else keeps it
    ensures Truthy(body.username) ==> r.username == body.username.value
    ensures !Truthy(body.username) ==> r.username == u.username
    ensures Truthy(body.email) ==> r.email == body.email.value
    ensures !Truthy(body.email) ==> r.email == u.email
    ensures Truthy(body.jobTitle) ==> r.jobTitle == body.jobTitle
    ensures !Truthy(body.jobTitle) ==> r.jobTitle == u.jobTitle
    // `!== undefined`: a provided flag is applied, `false` included; an absent one is kept
    ensures body.isAdmin.Some? ==> r.isAdmin == body.isAdmin
    ensures body.isAdmin.None? ==> r.isAdmin == u.isAdmin
    ensures body.isActive.Some? ==> r.isActive == body.isActive
    ensures body.isActive.None? ==> r.isActive == u.isActive
    // a password is replaced, by its hash, only when a non-blank one is given
    ensures NewPassword(body) ==> r.password == hash(body.password.value)
    ensures !NewPassword(body) ==> r.password == u.password
    ensures body == UpdateBody(None, None, None, None, None, None) ==> r == u
  {
    User(
      u.id,
      if Truthy(body.username) then body.username.value else u.username,
      if Truthy(body.email) then body.email.value else u.email,
      if NewPassword(body) then hash(body.password.value) else u.password,
      if body.isAdmin.Some? then body.isAdmin else u.isAdmin,
      if body.isActive.Some? then body.isActive else u.isActive,
      if Truthy(body.jobTitle) then body.jobTitle else u.jobTitle,
      u.projects)
  }

  /** The handler's assignments, one provided field at a time, onto the loaded document. */
  method Assign(u: User, body: UpdateBody, hash: string -> string) returns (user: User)
    ensures user == Updated(u, body, hash)
  {
    user := u;
    if Truthy(body.username) { user := user.(username := body.username.value); }
    if Truthy(body.email) { user := user.(email := body.email.value); }
    if Truthy(body.jobTitle) { user := user.(jobTitle := body.jobTitle); }
    if body.isAdmin.Some? { user := user.(isAdmin := body.isAdmin); }
    if body.isActive.Some? { user := user.(isActive := body.isActive); }
    if body.password.Some? && body.password.value != "" && Text.Trim(body.password.value) != "" {
      user := user.(password := hash(body.password.value));
    }
  }

  /** Saving would break the unique index: another user already has this e-mail. */
  predicate EmailClash(users: seq<User>, k: nat, email: string) {
    exists j :: 0 <= j < |users| && j != k && users[j].email == email
  }

  /** `updateUser`: assigns the provided fields one by one and saves, unless the id is unknown or the e-mail is taken. */
  method UpdateUser(db: Db, id: Id, body: UpdateBody, hash: string -> string) returns (reply: Reply<Profile>)
    requires db.Valid()
    modifies db
    ensures db.Valid()
    ensures db.projects == old(db.projects) && db.tickets == old(db.tickets) && db.comments == old(db.comments)
    ensures UserWithId(old(db.users), id).None? ==> reply == Fail(NOT_FOUND, "User not found") && unchanged(db)
    ensures UserWithId(old(db.users), id).Some? ==>
      var k := UserWithId(old(db.users), id).value;
      var u := Updated(old(db.users)[k], body, hash);
      if EmailClash(old(db.users), k, u.email) then
        reply == Fail(BAD_REQUEST, "Username or Email already exists") && unchanged(db)
      else
        db.users == old(db.users)[k := u] && db.nextId == old(db.nextId) && reply == Reply(OK, Payload(ProfileOf(u)))
  {
    var found := UserWithId(db.users, id);
    if found.None? {
      return Fail(NOT_FOUND, "User not found");
    }
    var k := found.value;
    var user := Assign(db.users[k], body, hash);
    if EmailClash(db.users, k, user.email) {
      return Fail(BAD_REQUEST, "Username or Email already exists");
    }
    ReplaceUserKeepsOk(db.users, k, user, db.nextId);
    db.WriteUsers(db.users[k := user]);
    reply := Reply(OK, Payload(ProfileOf(user)));
  }

  lemma ReplaceUserKeepsOk(users: seq<User>, k: nat, u: User, bound: Id)
    requires UsersOk(users, bound) && k < |users|
    requires u.id == users[k].id && u.projects == users[k].projects
    requires !EmailClash(users, k, u.email)
    ensures UsersOk(users[k := u], bound)
  {
    var r := users[k := u];
    forall i, j | 0 <= i < j < |r| ensures r[i].id != r[j].id && r[i].email != r[j].email {
      if i == k {
        assert users[j].email != u.email;
      } else if j == k {
        assert users[i].email != u.email;
      }
    }
  }

  /** Empty strings leave username, e-mail and job title as they were. */
  lemma EmptyStringsKeepFields(u: User, body: UpdateBody, hash: string -> string)
    requires body.username == Some("") && body.email == Some("") && body.jobTitle == Some("")
    ensures var v := Updated(u, body, hash); v.username == u.username && v.email == u.email && v.jobTitle == u.jobTitle
  {
  }

  /** `isAdmin` and `isActive` are applied whenever they are present, `false` included. */
  lemma FlagsApplyEvenWhenFalse(u: User, body: UpdateBody, hash: string -> string)
    requires body.isAdmin == Some(false) && body.isActive == Some(false)
    ensures var v := Updated(u, body, hash); v.isAdmin == Some(false) && v.isActive == Some(false)
  {
  }

  /** The stored hash changes exactly when a non-blank password is supplied. */
  lemma {:induction false} PasswordChangesOnlyWhenNonBlank(u: User, body: UpdateBody, hash: string -> string)
    ensures body.password.None? || Text.IsBlank(body.password.value) ==> Updated(u, body, hash).password == u.password
    ensures body.password.Some? && !Text.IsBlank(body.password.value) ==> Updated(u, body, hash).password == hash(body.password.value)
  {
    if body.password.Some? {
      Text.TrimEmptyIffBlank(body.password.value);
    }
  }

  /** Removing the user at `k` removes exactly the user with that id and keeps the users consistent. */
  lemma RemoveUserKeepsOk(users: seq<User>, k: nat, bound: Id)
    requires UsersOk(users, bound) && k < |users|
    ensures var r := users[..k] + users[k + 1..];
      && UsersOk(r, bound)
      && (forall u :: u in r ==> u.id != users[k].id)
      && (forall u :: u in users && u.id != users[k].id ==> u in r)
  {
    var r := users[..k] + users[k + 1..];
    assert forall i :: 0 <= i < |r| ==> r[i] == users[if i < k then i else i + 1];
    forall u | u in users && u.id != users[k].id ensures u in r {
      var i :| 0 <= i < |users| && users[i] == u;
      assert if i < k then r[i] == u else r[i - 1] == u;
    }
  }

  /** `deleteUser`: 404 for an unknown id, 400 for the acting user; otherwise that user, and only it, is removed. */
  method DeleteUser(db: Db, id: Id, actor: Option<Id>) returns (reply: Reply<()>)
    requires db.Valid()
    modifies db
    ensures db.Valid()
    ensures db.projects == old(db.projects) && db.tickets == old(db.tickets) && db.comments == old(db.comments)
    ensures UserWithId(old(db.users), id).None? ==> reply == Fail(NOT_FOUND, "User not found") && unchanged(db)
    ensures UserWithId(old(db.users), id).Some? && actor.None? ==> reply.status == SERVER_ERROR && unchanged(db)
    ensures UserWithId(old(db.users), id).Some? && actor == Some(id) ==>
      reply == Fail(BAD_REQUEST, "You cannot delete yourself") && unchanged(db)
    ensures UserWithId(old(db.users), id).Some? && actor.Some? && actor != Some(id) ==>
      var k := UserWithId(old(db.users), id).value;
      && reply == Reply(OK, Message("User removed"))
      && db.users == old(db.users)[..k] + old(db.users)[k + 1..] && db.nextId == old(db.nextId)
      && (forall u :: u in db.users ==> u.id != id)
      && (forall u :: u in old(db.users) && u.id != id ==> u in db.users)
  {
    var found := UserWithId(db.users, id);
    if found.None? {
      return Fail(NOT_FOUND, "User not found");
    }
    // req.user._id on a missing req.user throws
    if actor.None? {
      return Fail(SERVER_ERROR, "Server Error");
    }
    var k := found.value;
    if db.users[k].id == actor.value {
      return Fail(BAD_REQUEST, "You cannot delete yourself");
    }
    RemoveUserKeepsOk(db.users, k, db.nextId);
    db.WriteUsers(db.users[..k] + db.users[k + 1..]);
    reply := Reply(OK, Message("User removed"));
  }
}
