/**
 * server/src/models/user.ts: the Mongoose UserSchema, and the unique index on `email` that
 * makes the collection refuse a second document with the same address.
 */
module UserModel {
  import opened Wrappers
  import opened Ids
  import Text
  import EmailPattern
  import Primitives

  const PASSWORD_MIN := 6
  const ROLES: seq<string> := ["user", "admin"]
  const DEFAULT_ROLE := "user"

  datatype UserDoc = UserDoc(id: Id, name: string, email: string, password: string, role: string, createdAt: int)

  datatype UserFields = UserFields(name: Option<string>, email: Option<string>, password: Option<string>, role: Option<string>)

  datatype Path = Name | Email | Password | Role

  /** What a query returns by default: `select: false` keeps the password out. */
  datatype UserView = UserView(id: Id, name: string, email: string, role: string, createdAt: int)

  predicate NameValid(name: Option<string>) {
    name.Some? && name.value != ""
  }

  predicate EmailValid(email: Option<string>) {
    email.Some? && email.value != "" && EmailPattern.Matches(email.value)
  }

  predicate PasswordValid(password: Option<string>) {
    password.Some? && Text.JsLength(password.value) >= PASSWORD_MIN
  }

  /** `minlength` counts UTF-16 code units: three emoji are six units, enough for a password. */
  lemma {:induction false} AstralPasswordLongEnough()
    ensures PasswordValid(Some(seq(3, _ => '\U{1F600}')))
    ensures !PasswordValid(Some(seq(5, _ => 'a')))
  {
    Text.JsLengthAstral(seq(3, _ => '\U{1F600}'));
    Text.JsLengthBmp(seq(5, _ => 'a'));
  }

  predicate RoleValid(role: Option<string>) {
    role.None? || role.value in ROLES
  }

  /** Validating a new user document at time `now`. */
  function Validate(f: UserFields, id: Id, now: int): (r: Result<UserDoc, set<Path>>)
    ensures r.Ok? <==> NameValid(f.name) && EmailValid(f.email) && PasswordValid(f.password) && RoleValid(f.role)
    ensures r.Err? ==> r.error != {} && (Name in r.error <==> !NameValid(f.name))
    ensures r.Err? ==> (Password in r.error <==> !PasswordValid(f.password))
    ensures r.Err? ==> (Email in r.error <==> !EmailValid(f.email))
    ensures r.Err? ==> (Role in r.error <==> !RoleValid(f.role))
    ensures r.Ok? ==> r.value.role == (if f.role.Some? then f.role.value else DEFAULT_ROLE)
    ensures r.Ok? ==> Text.JsLength(r.value.password) >= PASSWORD_MIN && r.value.role in ROLES
    ensures r.Ok? ==> r.value.name == f.name.value && r.value.email == f.email.value
    ensures r.Ok? ==> r.value.id == id && r.value.createdAt == now
  {
    var failed :=
      (if NameValid(f.name) then {} else {Name})
      + (if EmailValid(f.email) then {} else {Email})
      + (if PasswordValid(f.password) then {} else {Password})
      + (if RoleValid(f.role) then {} else {Role});
    if failed == {} then
      Ok(UserDoc(id, f.name.value, f.email.value, f.password.value,
                 if f.role.Some? then f.role.value else DEFAULT_ROLE, now))
    else
      Err(failed)
  }

  /** `unique: true` on email. */
  predicate UniqueEmails(docs: seq<UserDoc>) {
    forall i, j :: 0 <= i < j < |docs| ==> docs[i].email != docs[j].email
  }

  datatype InsertError = Invalid(paths: set<Path>) | DuplicateKey

  /** Inserting a document: it must validate, and its e-mail must not be taken. */
  function Insert(docs: seq<UserDoc>, f: UserFields, id: Id, now: int): (r: Result<seq<UserDoc>, InsertError>)
    ensures r.Ok? <==> Validate(f, id, now).Ok? && forall i :: 0 <= i < |docs| ==> docs[i].email != f.email.value
    ensures r.Ok? ==> r.value == docs + [Validate(f, id, now).value]
    ensures Validate(f, id, now).Err? ==> r == Err(Invalid(Validate(f, id, now).error))
    ensures r.Err? ==> (r.error == DuplicateKey <==>
      Validate(f, id, now).Ok? && exists i :: 0 <= i < |docs| && docs[i].email == f.email.value)
  {
    match Validate(f, id, now)
    case Err(paths) => Err(Invalid(paths))
    case Ok(doc) =>
      if exists i :: 0 <= i < |docs| && docs[i].email == doc.email then Err(DuplicateKey)
      else Ok(docs + [doc])
  }

  /** The collection never holds two users with the same e-mail. */
  lemma {:induction false} InsertKeepsEmailsUnique(docs: seq<UserDoc>, f: UserFields, id: Id, now: int)
    requires UniqueEmails(docs)
    requires Insert(docs, f, id, now).Ok?
    ensures UniqueEmails(Insert(docs, f, id, now).value)
  {
    var r := Insert(docs, f, id, now).value;
    var doc := Validate(f, id, now).value;
    forall i, j | 0 <= i < j < |r| ensures r[i].email != r[j].email {
      if j == |docs| {
        assert r[j] == doc && r[i] == docs[i];
      } else {
        assert r[i] == docs[i] && r[j] == docs[j];
      }
    }
  }

  function DefaultView(u: UserDoc): (v: UserView)
    ensures v.id == u.id && v.name == u.name && v.email == u.email && v.role == u.role
  {
    UserView(u.id, u.name, u.email, u.role, u.createdAt)
  }

  /**
   * The schema and the controllers disagree: registerUser and createUser build a document from
   * `username`, `email` and `password` (the schema has no `username`, so Mongoose drops it) and
   * never a `name`, which the schema requires.
   */
  lemma RegisterFieldsLackName(email: string, password: string, id: Id, now: int)
    ensures var r := Validate(UserFields(None, Some(email), Some(password), None), id, now);
      r.Err? && Name in r.error
  {
  }

  /** "user+tag@amazon.com" passes the request e-mail validator but not the schema's pattern. */
  lemma EmailPatternsDisagree()
    ensures Primitives.AmazonAddress("user+tag@amazon.com")
    ensures !EmailValid(Some("user+tag@amazon.com"))
  {
    EmailPattern.RejectsPlusInLocalPart();
    var local := "user+tag";
    assert forall i :: 0 <= i < |local| ==> Primitives.IsLocalPartChar(local[i]);
    Primitives.AmazonAddressOf(local);
    assert local + Primitives.AMAZON_DOMAIN == "user+tag@amazon.com";
  }
}
