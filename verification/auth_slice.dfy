/**
 * The client's session store: the `auth` slice of the state container and
 * the two browser-storage keys it mirrors ("token" and "role"). Each
 * reducer is a function from the session before to the session after.
 */
module AuthSlice {
  import opened Wrappers

  /** A value inside the user object: a string, or a nested object of strings. */
  datatype Field = Text(s: string) | Nested(fields: map<string, string>)

  datatype AuthState = AuthState(
    token: Option<string>,          // `undefined` is None
    isLogged: bool,
    user: map<string, Field>,
    role: Option<Field>,            // absent until the first login
    loading: bool,
    error: Option<string>)

  /** The slice together with the browser's `localStorage`. */
  datatype Session = Session(state: AuthState, storage: map<string, string>)

  /** What `localStorage.setItem` stores for a value: its string conversion. */
  function Stored(v: Option<Field>): string {
    match v
    case None => "undefined"
    case Some(Text(s)) => s
    case Some(Nested(_)) => "[object Object]"
  }

  function Lookup(m: map<string, Field>, k: string): Option<Field> {
    if k in m then Some(m[k]) else None
  }

  /** The initial state: the token survives a reload through storage; an empty stored token counts as none. */
  function Initial(storage: map<string, string>): (s: AuthState)
    ensures s.token.Some? <==> "token" in storage && storage["token"] != ""
    ensures s.token.Some? ==> s.token.value == storage["token"]
    ensures !s.isLogged && s.user == map[] && s.role.None? && !s.loading && s.error.None?
  {
    var t := if "token" in storage && storage["token"] != "" then Some(storage["token"]) else None;
    AuthState(t, false, map[], None, false, None)
  }

  /** `login`: take the token and the user, copy the user's role, mark logged in, and persist token and role. */
  function Login(s: Session, token: string, user: map<string, Field>): (r: Session)
    ensures r.state.token == Some(token) && r.state.user == user && r.state.isLogged
    ensures r.state.role == Lookup(user, "role")
    ensures r.state.loading == s.state.loading && r.state.error == s.state.error
    ensures r.storage.Keys == s.storage.Keys + {"token", "role"}
    ensures r.storage["token"] == token && r.storage["role"] == Stored(Lookup(user, "role"))
    ensures forall k :: k in s.storage && k != "token" && k != "role" ==> r.storage[k] == s.storage[k]
  {
    var role := Lookup(user, "role");
    Session(s.state.(token := Some(token), user := user, role := role, isLogged := true),
            s.storage["token" := token]["role" := Stored(role)])
  }

  /** `payload.roleId?.type` is truthy. */
  predicate RoleIdTyped(payload: map<string, Field>) {
    "roleId" in payload && payload["roleId"].Nested? &&
    "type" in payload["roleId"].fields && payload["roleId"].fields["type"] != ""
  }

  /** `updateUserState`: spread the payload over the user, and store `payload.role` when `payload.roleId?.type` is truthy. */
  function UpdateUserState(s: Session, payload: map<string, Field>): (r: Session)
    ensures r.state.user.Keys == s.state.user.Keys + payload.Keys
    ensures forall k :: k in payload ==> r.state.user[k] == payload[k]
    ensures forall k :: k in s.state.user && k !in payload ==> r.state.user[k] == s.state.user[k]
    ensures r.state == s.state.(user := r.state.user)
    ensures !RoleIdTyped(payload) ==> r.storage == s.storage
    ensures RoleIdTyped(payload) ==> r.storage == s.storage["role" := Stored(Lookup(payload, "role"))]
  {
    var storage := if RoleIdTyped(payload) then s.storage["role" := Stored(Lookup(payload, "role"))] else s.storage;
    Session(s.state.(user := s.state.user + payload), storage)
  }

  /** Spreading the same payload twice is the same as once. */
  lemma UpdateUserStateIdempotent(s: Session, payload: map<string, Field>)
    ensures UpdateUserState(UpdateUserState(s, payload), payload) == UpdateUserState(s, payload)
  {
    var once := UpdateUserState(s, payload);
    var twice := UpdateUserState(once, payload);
    assert twice.state.user == once.state.user;
  }

  /** `setLoading`: only `loading` changes. */
  function SetLoading(s: Session, loading: bool): (r: Session)
    ensures r.state.loading == loading
    ensures r.state.(loading := s.state.loading) == s.state && r.storage == s.storage
  {
    Session(s.state.(loading := loading), s.storage)
  }

  /** `clearError`: only `error` changes, to null. */
  function ClearError(s: Session): (r: Session)
    ensures r.state.error.None?
    ensures r.state.(error := s.state.error) == s.state && r.storage == s.storage
  {
    Session(s.state.(error := None), s.storage)
  }

  /**
   * `logout`: the thunk removes the stored token and role, then the
   * fulfilled case empties the token and the user and clears `isLogged`.
   * `role` is left as it was.
   */
  function Logout(s: Session): (r: Session)
    ensures r.state.token == Some("") && r.state.user == map[] && !r.state.isLogged
    ensures r.state.role == s.state.role && r.state.loading == s.state.loading && r.state.error == s.state.error
    ensures r.storage.Keys == s.storage.Keys - {"token", "role"}
    ensures forall k :: k in r.storage ==> r.storage[k] == s.storage[k]
  {
    Session(s.state.(token := Some(""), user := map[], isLogged := false), s.storage - {"token", "role"})
  }

  /** A reload after `login` restores the token from storage (when it is not empty). */
  lemma LoginSurvivesReload(s: Session, token: string, user: map<string, Field>)
    requires token != ""
    ensures Initial(Login(s, token, user).storage).token == Some(token)
  {
  }

  /** A reload after `logout` starts without a token. */
  lemma LogoutSurvivesReload(s: Session)
    ensures Initial(Logout(s).storage).token.None?
  {
  }

  /** After `login` then `logout`, the in-memory `role` still holds the logged-out user's role. */
  lemma LogoutKeepsRole(s: Session, token: string, user: map<string, Field>)
    requires "role" in user
    ensures Logout(Login(s, token, user)).state.role == Some(user["role"])
    ensures "role" !in Logout(Login(s, token, user)).storage
  {
  }
}
