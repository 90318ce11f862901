/**
 * The user schema as a validator: `username`, `password`, `role` and `region`
 * are required strings, `role` must be one of the four role names, and a
 * saved user gets its id and timestamps. Uniqueness of `username` is an index
 * of the store, checked when the user is inserted (`Insert`).
 */
module UserSchema {
  import opened Wrappers
  import opened Domain

  /** The fields handed to `new User({...})`; each may be missing. */
  datatype UserDoc = UserDoc(
    username: Option<string>, password: Option<string>, role: Option<string>, region: Option<string>)

  datatype FieldError = Required(path: string) | NotInEnum(path: string, value: string) | Duplicate(path: string)

  /** The `required` check on a string path: present and not empty. */
  predicate Given(v: Option<string>) {
    v.Some? && v.value != ""
  }

  /** The error `e` when the check fails, no error otherwise. */
  function ErrorIf(fails: bool, e: FieldError): (r: seq<FieldError>)
    ensures forall x :: x in r <==> fails && x == e
    ensures r == [] <==> !fails
  {
    if fails then [e] else []
  }

  function RequiredError(path: string, v: Option<string>): (r: seq<FieldError>)
    ensures forall x :: x in r <==> !Given(v) && x == Required(path)
    ensures r == [] <==> Given(v)
  {
    ErrorIf(!Given(v), Required(path))
  }

  /** One error per failing path, in schema order; an absent role fails `required`, a present one the enum. */
  function Errors(d: UserDoc): (es: seq<FieldError>)
    ensures es == [] <==>
      Given(d.username) && Given(d.password) && Given(d.role) && Given(d.region) &&
      ParseRole(d.role.value).Some?
  {
    RequiredError("username", d.username) + RequiredError("password", d.password) +
    RoleErrors(d.role) + RequiredError("region", d.region)
  }

  /** The `role` path: `required` first, then the enum. */
  function RoleErrors(role: Option<string>): (r: seq<FieldError>)
    ensures forall x :: x in r <==>
      (!Given(role) && x == Required("role")) ||
      (Given(role) && ParseRole(role.value).None? && x == NotInEnum("role", role.value))
    ensures r == [] <==> Given(role) && ParseRole(role.value).Some?
  {
    if !Given(role) then [Required("role")]
    else if ParseRole(role.value).None? then [NotInEnum("role", role.value)]
    else []
  }

  /** An error is reported exactly when one of the four path checks reports it. */
  lemma ErrorsParts(d: UserDoc)
    ensures forall x :: x in Errors(d) <==>
      x in RequiredError("username", d.username) || x in RequiredError("password", d.password) ||
      x in RoleErrors(d.role) || x in RequiredError("region", d.region)
  {
  }

  /** Each required path is reported exactly when it is missing or empty. */
  lemma ErrorsNameFields(d: UserDoc)
    ensures Required("username") in Errors(d) <==> !Given(d.username)
    ensures Required("password") in Errors(d) <==> !Given(d.password)
    ensures Required("region") in Errors(d) <==> !Given(d.region)
    ensures Required("role") in Errors(d) <==> !Given(d.role)
  {
    ErrorsParts(d);
  }

  /** A role that is given but not one of the four is reported as outside the enum. */
  lemma ErrorsNameRole(d: UserDoc)
    ensures (exists v :: NotInEnum("role", v) in Errors(d)) <==> Given(d.role) && ParseRole(d.role.value).None?
  {
    ErrorsParts(d);
    if Given(d.role) && ParseRole(d.role.value).None? {
      assert NotInEnum("role", d.role.value) in RoleErrors(d.role);
    }
  }

  /** `new User(doc)` followed by validation. */
  function Validate(d: UserDoc, id: Id, now: nat): (r: Result<User, seq<FieldError>>)
    ensures r.Ok? <==> Errors(d) == []
    ensures r.Err? ==> r.error == Errors(d)
    ensures r.Ok? ==>
      && r.value.id == id
      && Some(r.value.username) == d.username
      && Some(r.value.passwordHash) == d.password
      && Some(RoleName(r.value.role)) == d.role
      && Some(r.value.region) == d.region
      && r.value.createdAt == now && r.value.updatedAt == now
  {
    var es := Errors(d);
    if es != [] then Err(es)
    else Ok(User(id, d.username.value, d.password.value, ParseRole(d.role.value).value,
                 d.region.value, now, now))
  }

  /** `region` is a free string: any non-empty region passes, whatever its spelling. */
  lemma AnyRegionAccepted(username: string, password: string, role: Role, region: string, id: Id, now: nat)
    requires username != "" && password != "" && region != ""
    ensures Validate(UserDoc(Some(username), Some(password), Some(RoleName(role)), Some(region)), id, now).Ok?
  {
    RoleNameRoundTrip(role);
  }

  /** Saving into the store: the unique index on `username` rejects a second user with the same name. */
  function Insert(users: seq<User>, u: User): (r: Result<seq<User>, FieldError>)
    ensures r.Ok? <==> forall i :: 0 <= i < |users| ==> users[i].username != u.username
    ensures r.Ok? ==> r.value == users + [u]
    ensures r.Err? ==> r.error == Duplicate("username")
    ensures r.Ok? && UniqueUsernames(users) ==> UniqueUsernames(r.value)
  {
    if FindUserByUsername(users, u.username).Some? then Err(Duplicate("username"))
    else Ok(users + [u])
  }
}
