/**
 * The server's stored documents and the store that holds them. The document
 * database is three sequences in insertion order plus the next free id;
 * `createdAt`/`updatedAt` are the clock readings (milliseconds) the
 * `timestamps` option writes when a document is first saved.
 */
module Domain {
  import opened Wrappers

  type Id = nat

  datatype Role = GlobalAdmin | RegionalAdmin | SendingPartner | ReceivingPartner

  /** The role's stored spelling. */
  function RoleName(r: Role): string {
    match r
    case GlobalAdmin => "global_admin"
    case RegionalAdmin => "regional_admin"
    case SendingPartner => "sending_partner"
    case ReceivingPartner => "receiving_partner"
  }

  /** The role enum check: exactly the four stored spellings are roles. */
  function ParseRole(s: string): (r: Option<Role>)
    ensures r.Some? ==> RoleName(r.value) == s
    ensures r.None? ==> forall role: Role :: RoleName(role) != s
  {
    if s == "global_admin" then Some(GlobalAdmin)
    else if s == "regional_admin" then Some(RegionalAdmin)
    else if s == "sending_partner" then Some(SendingPartner)
    else if s == "receiving_partner" then Some(ReceivingPartner)
    else None
  }

  lemma RoleNameRoundTrip(r: Role)
    ensures ParseRole(RoleName(r)) == Some(r)
  {
  }

  datatype Status = Pending | Completed | Rejected

  function StatusName(s: Status): string {
    match s
    case Pending => "pending"
    case Completed => "completed"
    case Rejected => "rejected"
  }

  /** The status enum check. */
  function ParseStatus(s: string): (r: Option<Status>)
    ensures r.Some? ==> StatusName(r.value) == s
    ensures r.None? ==> forall st: Status :: StatusName(st) != s
  {
    if s == "pending" then Some(Pending)
    else if s == "completed" then Some(Completed)
    else if s == "rejected" then Some(Rejected)
    else None
  }

  datatype User = User(
    id: Id, username: string, passwordHash: string, role: Role, region: string,
    createdAt: nat, updatedAt: nat)

  /**
   * Amounts and rates are JavaScript numbers; the model keeps them as
   * integers and never computes with them.
   */
  datatype Transaction = Transaction(
    id: Id, amount: int, currencyFrom: string, currencyTo: string, conversionRate: int,
    sender: Id, receiver: Id, region: string, status: Status,
    createdAt: nat, updatedAt: nat)

  datatype AuditRecord = AuditRecord(
    id: Id, action: string, userId: Id, details: Option<string>,
    createdAt: nat, updatedAt: nat)

  datatype Store = Store(
    users: seq<User>, transactions: seq<Transaction>, audits: seq<AuditRecord>, nextId: Id)

  predicate UniqueUserIds(users: seq<User>) {
    forall i, j :: 0 <= i < j < |users| ==> users[i].id != users[j].id
  }

  predicate UniqueUsernames(users: seq<User>) {
    forall i, j :: 0 <= i < j < |users| ==> users[i].username != users[j].username
  }

  /** What the database guarantees: unique `_id`s, the unique `username` index, fresh ids below `nextId`. */
  predicate WellFormed(st: Store) {
    && UniqueUserIds(st.users)
    && UniqueUsernames(st.users)
    && (forall i :: 0 <= i < |st.users| ==> st.users[i].id < st.nextId)
    && (forall i :: 0 <= i < |st.transactions| ==> st.transactions[i].id < st.nextId)
    && (forall i :: 0 <= i < |st.audits| ==> st.audits[i].id < st.nextId)
  }

  /** Saving a transaction under the next id keeps the store well formed. */
  lemma SaveTransactionKeepsWellFormed(st: Store, tx: Transaction)
    requires WellFormed(st) && tx.id == st.nextId
    ensures WellFormed(st.(transactions := st.transactions + [tx], nextId := st.nextId + 1))
  {
  }

  /** Saving an audit record under the next id keeps the store well formed. */
  lemma SaveAuditKeepsWellFormed(st: Store, a: AuditRecord)
    requires WellFormed(st) && a.id == st.nextId
    ensures WellFormed(st.(audits := st.audits + [a], nextId := st.nextId + 1))
  {
  }

  /** `User.findById(id)`: the stored user with that `_id`, if any. */
  function FindUserById(users: seq<User>, id: Id): (r: Option<User>)
    ensures r.Some? ==> r.value in users && r.value.id == id
    ensures r.None? <==> forall i :: 0 <= i < |users| ==> users[i].id != id
  {
    if users == [] then None
    else if users[0].id == id then Some(users[0])
    else FindUserById(users[1..], id)
  }

  /** `User.findOne({ username })`. */
  function FindUserByUsername(users: seq<User>, username: string): (r: Option<User>)
    ensures r.Some? ==> r.value in users && r.value.username == username
    ensures r.None? <==> forall i :: 0 <= i < |users| ==> users[i].username != username
  {
    if users == [] then None
    else if users[0].username == username then Some(users[0])
    else FindUserByUsername(users[1..], username)
  }

  /** With unique ids the lookup finds the one user that has the id. */
  lemma FindUserByIdUnique(users: seq<User>, i: nat)
    requires UniqueUserIds(users) && i < |users|
    ensures FindUserById(users, users[i].id) == Some(users[i])
  {
    var r := FindUserById(users, users[i].id);
    var j :| 0 <= j < |users| && users[j] == r.value;
    assert j == i;
  }

  /** With unique usernames the lookup finds the one user that has the name. */
  lemma FindUserByUsernameUnique(users: seq<User>, i: nat)
    requires UniqueUsernames(users) && i < |users|
    ensures FindUserByUsername(users, users[i].username) == Some(users[i])
  {
    var r := FindUserByUsername(users, users[i].username);
    var j :| 0 <= j < |users| && users[j] == r.value;
    assert j == i;
  }
}

/** What a request handler sends back: a status with a JSON body, or a status with an error. */
module Http {
  import opened Wrappers

  datatype Response<T> =
    | Reply(status: nat, body: T)
    | Failure(status: nat, error: string, details: Option<string>)

  /** A handler's response together with the store it leaves behind. */
  datatype Handled<T, S> = Handled(response: Response<T>, state: S)

  /** The server's `NODE_ENV`: error details are sent only in development. */
  datatype Env = Development | Production
}
