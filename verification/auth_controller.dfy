/**
 * The account handlers: `register` and `login` issue a 24-hour token,
 * `getMe` returns the caller's own record, `getAllUsers` lists every user,
 * and `getUserStats` counts users per role and per region. Stored users
 * never leave the server with their password hash.
 *
 * Password hashing is opaque (`Crypto`); a database failure is a fault
 * parameter, `None` when the call succeeds. The texts of errors thrown by
 * the libraries are abbreviated to fixed strings.
 */
module AuthController {
  import opened Wrappers
  import opened Domain
  import opened Http
  import opened AuthMiddleware
  import UserSchema
  import Seqs

  /** `bcrypt.hash(password, 10)` and `bcrypt.compare(password, hash)`. */
  datatype Crypto = Crypto(hash: string -> string, compare: (string, string) -> bool)

  /** A hash is never empty and always matches the password it was made from. */
  ghost predicate SoundCrypto(crypto: Crypto) {
    forall p: string :: crypto.hash(p) != "" && crypto.compare(p, crypto.hash(p))
  }

  /** A user as sent to clients: `select("-password")`. */
  datatype PublicUser = PublicUser(id: Id, username: string, role: Role, region: string, createdAt: nat, updatedAt: nat)

  function Public(u: User): PublicUser {
    PublicUser(u.id, u.username, u.role, u.region, u.createdAt, u.updatedAt)
  }

  function ClaimsOf(u: User): Claims {
    Claims(u.id, u.role, u.region)
  }

  /** The user document `register` builds: the request's fields with the password replaced by its hash. */
  function Hashed(body: UserSchema.UserDoc, crypto: Crypto): UserSchema.UserDoc
    requires body.password.Some?
  {
    body.(password := Some(crypto.hash(body.password.value)))
  }

  /** `register` succeeds exactly when this holds: a password, a valid hashed document, a free username, a working save. */
  ghost predicate Registrable(body: UserSchema.UserDoc, users: seq<User>, crypto: Crypto, saveFault: Option<string>) {
    && body.password.Some?
    && UserSchema.Errors(Hashed(body, crypto)) == []
    && (forall i :: 0 <= i < |users| ==> users[i].username != body.username.value)
    && saveFault.None?
  }

  /**
   * `register`: hash the password, validate and insert the user, and answer
   * 201 with a token for the new user; any failure is 400 and stores nothing.
   */
  function Register(body: UserSchema.UserDoc, st: Store, crypto: Crypto, jwt: Jwt, now: nat, saveFault: Option<string>)
    : (h: Handled<string, Store>)
    ensures h.response.Reply? <==> Registrable(body, st.users, crypto, saveFault)
    ensures h.response.Failure? ==> h.response.status == 400 && h.state == st
    ensures h.response.Reply? ==>
      && h.response.status == 201
      && |h.state.users| == |st.users| + 1
      && h.state.users[..|st.users|] == st.users
      && h.state.transactions == st.transactions
      && h.state.audits == st.audits
      && var u := h.state.users[|st.users|];
         && u.id == st.nextId
         && Some(u.username) == body.username
         && u.passwordHash == crypto.hash(body.password.value)
         && Some(RoleName(u.role)) == body.role
         && Some(u.region) == body.region
         && u.createdAt == now
         && h.response.body == jwt.sign(ClaimsOf(u), TokenLifetime)
    ensures WellFormed(st) ==> WellFormed(h.state)
  {
    if body.password.None? then Handled(Failure(400, "Illegal arguments", None), st)
    else
      var v := UserSchema.Validate(Hashed(body, crypto), st.nextId, now);
      if v.Err? then Handled(Failure(400, "User validation failed", None), st)
      else
        var ins := UserSchema.Insert(st.users, v.value);
        if ins.Err? then Handled(Failure(400, "E11000 duplicate key error", None), st)
        else if saveFault.Some? then Handled(Failure(400, saveFault.value, None), st)
        else
          var u := v.value;
          var st' := st.(users := ins.value, nextId := st.nextId + 1);
          assert st'.users[..|st.users|] == st.users;
          Handled(Reply(201, jwt.sign(ClaimsOf(u), TokenLifetime)), st')
  }

  /** An empty password is hashed like any other, and its non-empty hash satisfies `required`. */
  lemma EmptyPasswordRegisters(username: string, role: Role, region: string, st: Store, crypto: Crypto, jwt: Jwt, now: nat)
    requires SoundCrypto(crypto)
    requires username != "" && region != ""
    requires forall i :: 0 <= i < |st.users| ==> st.users[i].username != username
    ensures Register(UserSchema.UserDoc(Some(username), Some(""), Some(RoleName(role)), Some(region)),
                     st, crypto, jwt, now, None).response.Reply?
  {
    assert crypto.hash("") != "";
    RoleNameRoundTrip(role);
  }

  /**
   * The user `User.findOne({ username })` returns. Without a `username` in
   * the body the filter key is `undefined` and Mongoose drops it, so the
   * query matches every user and returns the first stored one.
   */
  function LoginCandidate(username: Option<string>, users: seq<User>): (u: Option<User>)
    ensures username.Some? ==> u == FindUserByUsername(users, username.value)
    ensures username.None? ==> (u.None? <==> users == []) && (users != [] ==> u == Some(users[0]))
  {
    if username.Some? then FindUserByUsername(users, username.value)
    else if users == [] then None
    else Some(users[0])
  }

  /**
   * `login`: 200 with a token for the user of that name when the password
   * matches; the same 401 "Invalid credentials" for an unknown name and a
   * wrong password; 400 when the lookup fails or there is no password to
   * compare. A body without a name is checked against the first stored user.
   */
  function Login(username: Option<string>, password: Option<string>, users: seq<User>, crypto: Crypto, jwt: Jwt,
                 lookupFault: Option<string>): (r: Response<string>)
    ensures lookupFault.Some? ==> r == Failure(400, lookupFault.value, None)
    ensures r.Failure? ==> r.status == 400 || r == Failure(401, "Invalid credentials", None)
    ensures lookupFault.None? && username.Some? && (forall i :: 0 <= i < |users| ==> users[i].username != username.value) ==>
      r == Failure(401, "Invalid credentials", None)
    ensures lookupFault.None? && users == [] ==> r == Failure(401, "Invalid credentials", None)
    ensures r.Reply? ==>
      && r.status == 200
      && password.Some?
      && exists i :: 0 <= i < |users| &&
           (if username.Some? then users[i].username == username.value else i == 0) &&
           crypto.compare(password.value, users[i].passwordHash) &&
           r.body == jwt.sign(ClaimsOf(users[i]), TokenLifetime)
  {
    if lookupFault.Some? then Failure(400, lookupFault.value, None)
    else
      var user := LoginCandidate(username, users);
      if user.None? then Failure(401, "Invalid credentials", None)
      else if password.None? then Failure(400, "Illegal arguments", None)
      else if !crypto.compare(password.value, user.value.passwordHash) then Failure(401, "Invalid credentials", None)
      else
        var i :| 0 <= i < |users| && users[i] == user.value && (username.None? ==> i == 0);
        Reply(200, jwt.sign(ClaimsOf(user.value), TokenLifetime))
  }

  /** A body with a password but no name signs in as the first stored user when the password is theirs. */
  lemma MissingUsernameSignsInFirstUser(password: string, users: seq<User>, crypto: Crypto, jwt: Jwt)
    requires users != [] && crypto.compare(password, users[0].passwordHash)
    ensures Login(None, Some(password), users, crypto, jwt, None) == Reply(200, jwt.sign(ClaimsOf(users[0]), TokenLifetime))
  {
  }

  /** A stored user with the right password gets a token for themselves. */
  lemma {:induction false} LoginWithRightPassword(users: seq<User>, i: nat, password: string, crypto: Crypto, jwt: Jwt)
    requires UniqueUsernames(users) && i < |users|
    requires crypto.compare(password, users[i].passwordHash)
    ensures Login(Some(users[i].username), Some(password), users, crypto, jwt, None) ==
      Reply(200, jwt.sign(ClaimsOf(users[i]), TokenLifetime))
  {
    FindUserByUsernameUnique(users, i);
  }

  /** A wrong password is answered exactly as an unknown username is. */
  lemma WrongPasswordLooksLikeUnknownUser(users: seq<User>, i: nat, password: string, other: seq<User>,
                                          crypto: Crypto, jwt: Jwt)
    requires UniqueUsernames(users) && i < |users|
    requires !crypto.compare(password, users[i].passwordHash)
    requires forall k :: 0 <= k < |other| ==> other[k].username != users[i].username
    ensures Login(Some(users[i].username), Some(password), users, crypto, jwt, None) ==
      Login(Some(users[i].username), Some(password), other, crypto, jwt, None)
  {
    FindUserByUsernameUnique(users, i);
  }

  /** After a successful `register`, logging in with the same name and password returns the same token. */
  lemma {:induction false} RegisterThenLogin(body: UserSchema.UserDoc, st: Store, crypto: Crypto, jwt: Jwt, now: nat)
    requires SoundCrypto(crypto) && WellFormed(st)
    requires Register(body, st, crypto, jwt, now, None).response.Reply?
    ensures
      var h := Register(body, st, crypto, jwt, now, None);
      Login(body.username, body.password, h.state.users, crypto, jwt, None) == Reply(200, h.response.body)
  {
    var h := Register(body, st, crypto, jwt, now, None);
    var n := |st.users|;
    var u := h.state.users[n];
    assert crypto.compare(body.password.value, crypto.hash(body.password.value));
    LoginWithRightPassword(h.state.users, n, body.password.value, crypto, jwt);
  }

  /** The token `register` hands out authenticates the new user, as stored. */
  lemma {:induction false} RegisterThenAuthenticate(body: UserSchema.UserDoc, st: Store, crypto: Crypto, jwt: Jwt, now: nat)
    requires Sound(jwt) && WellFormed(st)
    requires Register(body, st, crypto, jwt, now, None).response.Reply?
    ensures
      var h := Register(body, st, crypto, jwt, now, None);
      Authenticate(Some("Bearer " + h.response.body), h.state.users, jwt, false) ==
        Pass(ReqUser(st.nextId, h.state.users[|st.users|].role, h.state.users[|st.users|].region))
  {
    var h := Register(body, st, crypto, jwt, now, None);
    var n := |st.users|;
    IssuedTokenAuthenticates(h.state.users, jwt, n, ClaimsOf(h.state.users[n]));
  }

  /**
   * `getMe`: 401 without a caller, 500 when the lookup fails, 404 when the
   * caller's user is gone, otherwise the caller's own stored record.
   */
  function GetMe(caller: Option<ReqUser>, users: seq<User>, lookupFails: bool): (r: Response<PublicUser>)
    ensures caller.None? ==> r == Failure(401, "Not authenticated", None)
    ensures caller.Some? && lookupFails ==> r == Failure(500, "Internal server error", None)
    ensures caller.Some? && !lookupFails && (forall i :: 0 <= i < |users| ==> users[i].id != caller.value.userId) ==>
      r == Failure(404, "User not found", None)
    ensures r.Reply? ==>
      && r.status == 200
      && caller.Some?
      && exists i :: 0 <= i < |users| && users[i].id == caller.value.userId && r.body == Public(users[i])
  {
    if caller.None? then Failure(401, "Not authenticated", None)
    else if lookupFails then Failure(500, "Internal server error", None)
    else
      var user := FindUserById(users, caller.value.userId);
      if user.None? then Failure(404, "User not found", None)
      else
        var i :| 0 <= i < |users| && users[i] == user.value;
        Reply(200, Public(user.value))
  }

  /** Behind `authenticate`, `getMe` returns exactly the stored record the token names. */
  lemma {:induction false} MeAfterAuthenticate(header: Option<string>, users: seq<User>, jwt: Jwt)
    requires UniqueUserIds(users)
    requires Authenticate(header, users, jwt, false).Pass?
    ensures
      var caller := Authenticate(header, users, jwt, false).user;
      exists i :: 0 <= i < |users| && users[i].id == caller.userId &&
        GetMe(Some(caller), users, false) == Reply(200, Public(users[i]))
  {
    var caller := Authenticate(header, users, jwt, false).user;
    var i :| 0 <= i < |users| && users[i].id == jwt.verify(BearerToken(header).value).value.userId &&
      caller == AsCaller(users[i]);
    FindUserByIdUnique(users, i);
  }

  /** `getAllUsers`: every stored user, in store order, without passwords; 500 when the query fails. */
  function GetAllUsers(users: seq<User>, fault: Option<string>): (r: Response<seq<PublicUser>>)
    ensures fault.Some? ==> r == Failure(500, fault.value, None)
    ensures fault.None? ==> r.Reply? && r.status == 200 && |r.body| == |users|
    ensures r.Reply? ==> forall i :: 0 <= i < |users| ==> r.body[i] == Public(users[i])
  {
    if fault.Some? then Failure(500, fault.value, None)
    else Reply(200, seq(|users|, i requires 0 <= i < |users| => Public(users[i])))
  }

  /** `GET /api/auth/`: `authenticate`, then `getAllUsers`; there is no role check and no region scoping. */
  function UsersRoute(header: Option<string>, users: seq<User>, jwt: Jwt, lookupFails: bool, fault: Option<string>)
    : (r: Response<seq<PublicUser>>)
    ensures Authenticate(header, users, jwt, lookupFails).Halt? ==> r.Failure? && r.status == 401
    ensures Authenticate(header, users, jwt, lookupFails).Pass? ==> r == GetAllUsers(users, fault)
  {
    var g := Authenticate(header, users, jwt, lookupFails);
    if g.Halt? then Failure(g.status, g.error, None) else GetAllUsers(users, fault)
  }

  /** Any authenticated caller, whatever their role or region, receives every user. */
  lemma EveryCallerSeesAllUsers(header: Option<string>, users: seq<User>, jwt: Jwt)
    requires Authenticate(header, users, jwt, false).Pass?
    ensures UsersRoute(header, users, jwt, false, None) == GetAllUsers(users, None)
    ensures |UsersRoute(header, users, jwt, false, None).body| == |users|
  {
  }

  /** The `getUserStats` answer: users per role and per region, and their total. */
  datatype UserStats = UserStats(
    roleDistribution: seq<Seqs.Entry<string>>, regionDistribution: seq<Seqs.Entry<string>>, totalUsers: nat)

  function RoleNames(users: seq<User>): (names: seq<string>)
    ensures |names| == |users|
    ensures forall i :: 0 <= i < |users| ==> names[i] == RoleName(users[i].role)
  {
    seq(|users|, i requires 0 <= i < |users| => RoleName(users[i].role))
  }

  function Regions(users: seq<User>): (regions: seq<string>)
    ensures |regions| == |users|
    ensures forall i :: 0 <= i < |users| ==> regions[i] == users[i].region
  {
    seq(|users|, i requires 0 <= i < |users| => users[i].region)
  }

  /**
   * `getUserStats`: the two `$group` pipelines, with groups in order of first
   * appearance; `roles` and `total` fall back to `[]` and `0` when there is
   * no user at all.
   */
  function GetUserStats(users: seq<User>, fault: Option<string>): (r: Response<UserStats>)
    ensures fault.Some? ==> r == Failure(500, fault.value, None)
    ensures fault.None? ==> r.Reply? && r.status == 200
    ensures r.Reply? ==>
      && r.body.totalUsers == |users|
      && Seqs.Keys(r.body.roleDistribution) == Seqs.Dedup(RoleNames(users))
      && Seqs.Keys(r.body.regionDistribution) == Seqs.Dedup(Regions(users))
      && Seqs.SumCounts(r.body.roleDistribution) == |users|
      && Seqs.SumCounts(r.body.regionDistribution) == |users|
      && (forall k :: 0 <= k < |r.body.roleDistribution| ==>
            r.body.roleDistribution[k].count == Seqs.Count(RoleNames(users), r.body.roleDistribution[k].key))
      && (forall k :: 0 <= k < |r.body.regionDistribution| ==>
            r.body.regionDistribution[k].count == Seqs.Count(Regions(users), r.body.regionDistribution[k].key))
  {
    if fault.Some? then Failure(500, fault.value, None)
    else
      var roles := Seqs.Tally(RoleNames(users));
      Seqs.TallyEmpty(RoleNames(users));
      Reply(200, UserStats(roles, Seqs.Tally(Regions(users)), if roles == [] then 0 else Seqs.SumCounts(roles)))
  }

  /** Every role in the role distribution is held by at least one user, and there are at most four entries. */
  lemma {:induction false} RoleDistributionBounded(users: seq<User>)
    ensures
      var s := GetUserStats(users, None).body;
      && |s.roleDistribution| <= 4
      && forall k :: 0 <= k < |s.roleDistribution| ==> s.roleDistribution[k].count >= 1
  {
    var names := RoleNames(users);
    RoleDistributionIsTally(users);
    forall m | 0 <= m < |names| ensures names[m] in AllRoleNames {
      RoleNameListed(users[m].role);
    }
    TallyOfRoleNames(names);
  }

  lemma RoleDistributionIsTally(users: seq<User>)
    ensures GetUserStats(users, None).body.roleDistribution == Seqs.Tally(RoleNames(users))
  {
  }

  const AllRoleNames: seq<string> := ["global_admin", "regional_admin", "sending_partner", "receiving_partner"]

  lemma RoleNameListed(r: Role)
    ensures RoleName(r) in AllRoleNames
  {
    match r
    case GlobalAdmin => assert RoleName(r) == AllRoleNames[0];
    case RegionalAdmin => assert RoleName(r) == AllRoleNames[1];
    case SendingPartner => assert RoleName(r) == AllRoleNames[2];
    case ReceivingPartner => assert RoleName(r) == AllRoleNames[3];
  }

  lemma {:induction false} TallyOfRoleNames(names: seq<string>)
    requires forall m :: 0 <= m < |names| ==> names[m] in AllRoleNames
    ensures |Seqs.Tally(names)| <= 4
    ensures forall k :: 0 <= k < |Seqs.Tally(names)| ==> Seqs.Tally(names)[k].count >= 1
  {
    var tally := Seqs.Tally(names);
    var keys := Seqs.Keys(tally);
    forall k | 0 <= k < |keys| ensures keys[k] in AllRoleNames {
      assert keys[k] in Seqs.Dedup(names);
    }
    Seqs.NoDupsSubsetBound(keys, AllRoleNames);
    Seqs.TallyPositive(names);
    forall k | 0 <= k < |tally| ensures tally[k].count >= 1 {
      assert tally[k] in tally;
    }
  }
}
