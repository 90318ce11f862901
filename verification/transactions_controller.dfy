/**
 * The transaction handlers behind `authenticate`: `createTransaction` saves
 * the request body as a transaction and then writes a "transaction_create"
 * audit record; `getTransactions` returns every stored transaction.
 *
 * Saving the transaction and creating the audit record are two separate
 * writes: when the second fails the transaction stays stored although the
 * request is answered with 400. Neither handler looks at the caller's role
 * or region.
 */
module TransactionsController {
  import opened Wrappers
  import opened Domain
  import opened Http
  import opened AuthMiddleware
  import TransactionSchema
  import AuditLogSchema
  import Text

  const CreateAction: string := "transaction_create"

  /** The `details` text of the audit record for a new transaction. */
  function CreatedDetails(id: Id): string {
    "Created transaction " + Text.DecimalString(id)
  }

  /** The audit record `createTransaction` asks for: the caller (if any) as `userId`. */
  function CreateAudit(caller: Option<ReqUser>, txId: Id): AuditLogSchema.AuditDoc {
    AuditLogSchema.AuditDoc(Some(CreateAction), if caller.Some? then Some(caller.value.userId) else None,
                            Some(CreatedDetails(txId)))
  }

  /**
   * `createTransaction`: validate and save the body (400 and no change on
   * failure), then create the audit record (400 on failure, the transaction
   * kept), then answer 201 with the saved transaction.
   */
  function CreateTransaction(body: TransactionSchema.TransactionDoc, caller: Option<ReqUser>, st: Store, now: nat,
                             saveFault: Option<string>, auditFault: Option<string>): (h: Handled<Transaction, Store>)
    ensures h.state.users == st.users
    ensures h.response.Failure? ==> h.response.status == 400
    ensures TransactionSchema.Validate(body, st.nextId, now).Err? || saveFault.Some? ==>
      h.response.Failure? && h.state == st
    ensures h.response.Reply? <==>
      TransactionSchema.Validate(body, st.nextId, now).Ok? && saveFault.None? && caller.Some? && auditFault.None?
    ensures h.response.Reply? ==>
      var tx := TransactionSchema.Validate(body, st.nextId, now).value;
      && h.response.status == 201
      && h.response.body == tx
      && h.state.transactions == st.transactions + [tx]
      && h.state.audits == st.audits +
           [AuditRecord(st.nextId + 1, CreateAction, caller.value.userId, Some(CreatedDetails(tx.id)), now, now)]
    ensures TransactionSchema.Validate(body, st.nextId, now).Ok? && saveFault.None? &&
            (caller.None? || auditFault.Some?) ==>
      && h.response.Failure?
      && h.state.transactions == st.transactions + [TransactionSchema.Validate(body, st.nextId, now).value]
      && h.state.audits == st.audits
    ensures WellFormed(st) ==> WellFormed(h.state)
  {
    var v := TransactionSchema.Validate(body, st.nextId, now);
    if v.Err? then Handled(Failure(400, "Transaction validation failed", None), st)
    else if saveFault.Some? then Handled(Failure(400, saveFault.value, None), st)
    else
      var tx := v.value;
      var saved := st.(transactions := st.transactions + [tx], nextId := st.nextId + 1);
      assert WellFormed(st) ==> WellFormed(saved) by {
        if WellFormed(st) {
          SaveTransactionKeepsWellFormed(st, tx);
        }
      }
      var a := AuditLogSchema.Validate(CreateAudit(caller, tx.id), saved.nextId, now);
      if a.Err? then Handled(Failure(400, "AuditLog validation failed", None), saved)
      else if auditFault.Some? then Handled(Failure(400, auditFault.value, None), saved)
      else
        assert WellFormed(saved) ==> WellFormed(saved.(audits := saved.audits + [a.value], nextId := saved.nextId + 1)) by {
          if WellFormed(saved) {
            SaveAuditKeepsWellFormed(saved, a.value);
          }
        }
        Handled(Reply(201, tx), saved.(audits := saved.audits + [a.value], nextId := saved.nextId + 1))
  }

  /** `getTransactions`: every stored transaction, in store order; 500 when the query fails. */
  function GetTransactions(st: Store, fault: Option<string>): (r: Response<seq<Transaction>>)
    ensures fault.Some? ==> r == Failure(500, fault.value, None)
    ensures fault.None? ==> r.Reply? && r.status == 200
    ensures r.Reply? ==> r.body == st.transactions
  {
    if fault.Some? then Failure(500, fault.value, None) else Reply(200, st.transactions)
  }

  /** `GET /api/transactions`: `authenticate`, then `getTransactions`. */
  function ListRoute(header: Option<string>, st: Store, jwt: Jwt, lookupFails: bool, fault: Option<string>)
    : (r: Response<seq<Transaction>>)
    ensures Authenticate(header, st.users, jwt, lookupFails).Halt? ==> r.Failure? && r.status == 401
    ensures Authenticate(header, st.users, jwt, lookupFails).Pass? ==> r == GetTransactions(st, fault)
  {
    var g := Authenticate(header, st.users, jwt, lookupFails);
    if g.Halt? then Failure(g.status, g.error, None) else GetTransactions(st, fault)
  }

  /** `POST /api/transactions`: `authenticate`, then `createTransaction` with the authenticated caller. */
  function CreateRoute(header: Option<string>, body: TransactionSchema.TransactionDoc, st: Store, jwt: Jwt,
                       lookupFails: bool, now: nat, saveFault: Option<string>, auditFault: Option<string>)
    : (h: Handled<Transaction, Store>)
    ensures Authenticate(header, st.users, jwt, lookupFails).Halt? ==>
      h.response.Failure? && h.response.status == 401 && h.state == st
    ensures Authenticate(header, st.users, jwt, lookupFails).Pass? ==>
      h == CreateTransaction(body, Some(Authenticate(header, st.users, jwt, lookupFails).user), st, now,
                             saveFault, auditFault)
  {
    var g := Authenticate(header, st.users, jwt, lookupFails);
    if g.Halt? then Handled(Failure(g.status, g.error, None), st)
    else CreateTransaction(body, Some(g.user), st, now, saveFault, auditFault)
  }

  /**
   * Behind `authenticate` the caller is always known, so a valid body is
   * stored and audited unless a database write fails.
   */
  lemma AuthenticatedCreateSucceeds(header: Option<string>, body: TransactionSchema.TransactionDoc, st: Store,
                                    jwt: Jwt, now: nat)
    requires Authenticate(header, st.users, jwt, false).Pass?
    requires TransactionSchema.Validate(body, st.nextId, now).Ok?
    ensures CreateRoute(header, body, st, jwt, false, now, None, None).response ==
      Reply(201, TransactionSchema.Validate(body, st.nextId, now).value)
  {
  }

  /** A created transaction is listed, after those stored before it. */
  lemma CreatedThenListed(body: TransactionSchema.TransactionDoc, caller: ReqUser, st: Store, now: nat)
    requires CreateTransaction(body, Some(caller), st, now, None, None).response.Reply?
    ensures
      var h := CreateTransaction(body, Some(caller), st, now, None, None);
      GetTransactions(h.state, None) == Reply(200, st.transactions + [h.response.body])
  {
  }

  /**
   * Every authenticated caller gets the same list, whatever their role or
   * region: a regional admin sees the other regions' transactions too.
   */
  lemma ListIgnoresCaller(h1: Option<string>, h2: Option<string>, st: Store, jwt: Jwt)
    requires Authenticate(h1, st.users, jwt, false).Pass? && Authenticate(h2, st.users, jwt, false).Pass?
    ensures ListRoute(h1, st, jwt, false, None) == ListRoute(h2, st, jwt, false, None) == Reply(200, st.transactions)
  {
  }

  /** A concrete case: a `regional_admin` of "europe" is sent an "asia" transaction. */
  lemma RegionalAdminSeesOtherRegions(header: Option<string>, jwt: Jwt, admin: User, tx: Transaction)
    requires admin.role == RegionalAdmin && admin.region == "europe" && tx.region == "asia"
    requires Authenticate(header, [admin], jwt, false).Pass?
    ensures
      var r := ListRoute(header, Store([admin], [tx], [], 0), jwt, false, None);
      && r.Reply?
      && Authenticate(header, [admin], jwt, false).user.region == "europe"
      && exists i :: 0 <= i < |r.body| && r.body[i].region == "asia"
  {
    var r := ListRoute(header, Store([admin], [tx], [], 0), jwt, false, None);
    assert r.body[0] == tx;
  }
}
