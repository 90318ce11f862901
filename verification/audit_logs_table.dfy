/**
 * The audit-log table: search over action, details and the log's user
 * name, an action filter, the applied-filter chips with their remove
 * buttons, and pagination over the filtered logs.
 */
module AuditLogsTable {
  import opened Wrappers
  import Seqs
  import Text
  import Pagination
  import AuditController
  import AuditLogSchema
  import AuthMiddleware
  import Domain
  import Http

  const All: string := "all"

  /** The user object a log row may carry; its `_id` is an opaque id, kept as the server's. */
  datatype LogUser = LogUser(id: Option<nat>, username: Option<string>, email: Option<string>)

  datatype LogRow = LogRow(id: nat, action: string, details: Option<string>, user: Option<LogUser>, createdAt: nat)

  predicate Truthy(v: Option<string>) {
    v.Some? && v.value != ""
  }

  function UserName(l: LogRow): Option<string> {
    if l.user.Some? then l.user.value.username else None
  }

  /**
   * The search test: an empty term matches everything; otherwise the
   * action, the details or the user's name contains the term, ignoring case.
   */
  predicate MatchesSearch(l: LogRow, term: string) {
    || term == ""
    || Text.ContainsIgnoringCase(l.action, term)
    || (Truthy(l.details) && Text.ContainsIgnoringCase(l.details.value, term))
    || (Truthy(UserName(l)) && Text.ContainsIgnoringCase(UserName(l).value, term))
  }

  predicate Matches(l: LogRow, search: string, action: string) {
    MatchesSearch(l, search) && (action == All || l.action == action)
  }

  /** `filteredLogs`: the matching logs in their original order. */
  function Filtered(logs: seq<LogRow>, search: string, action: string): (r: seq<LogRow>)
    ensures Seqs.IsSubseq(r, logs) && |r| <= |logs|
    ensures forall i :: 0 <= i < |r| ==> Matches(r[i], search, action)
    ensures forall i :: 0 <= i < |logs| && Matches(logs[i], search, action) ==> logs[i] in r
  {
    var r := Seqs.Filter(logs, Test(search, action));
    Seqs.SubseqLength(r, logs);
    r
  }

  function Test(search: string, action: string): LogRow -> bool {
    l => Matches(l, search, action)
  }

  /** "Showing X of Y logs": X never exceeds Y, and with no filter X is Y. */
  lemma {:induction false} ShowingCount(logs: seq<LogRow>, search: string, action: string)
    ensures |Filtered(logs, search, action)| <= |logs|
    ensures search == "" && action == All ==> Filtered(logs, search, action) == logs
  {
    if search == "" && action == All {
      Seqs.FilterAll(logs, Test(search, action));
    }
  }

  /** A kept log's action is the chosen one, unless the filter is "all". */
  lemma KeptActionMatches(logs: seq<LogRow>, search: string, action: string, i: nat)
    requires action != All && i < |Filtered(logs, search, action)|
    ensures Filtered(logs, search, action)[i].action == action
  {
  }

  /** `uniqueActions`: every action, once, in order of first appearance. */
  function UniqueActions(logs: seq<LogRow>): (acts: seq<string>)
    ensures Seqs.NoDups(acts)
    ensures forall i :: 0 <= i < |acts| ==> exists j :: 0 <= j < |logs| && logs[j].action == acts[i]
    ensures forall j :: 0 <= j < |logs| ==> logs[j].action in acts
  {
    var all := seq(|logs|, j requires 0 <= j < |logs| => logs[j].action);
    var acts := Seqs.Dedup(all);
    assert forall j :: 0 <= j < |logs| ==> all[j] == logs[j].action;
    assert forall i :: 0 <= i < |acts| ==> acts[i] in all;
    acts
  }

  /** The options keep the order in which actions first appear. */
  lemma {:induction false} UniqueActionsInFirstOrder(logs: seq<LogRow>)
    ensures
      var all := seq(|logs|, j requires 0 <= j < |logs| => logs[j].action);
      forall i, k :: 0 <= i < k < |UniqueActions(logs)| ==>
        Seqs.FirstIndex(all, UniqueActions(logs)[i]) < Seqs.FirstIndex(all, UniqueActions(logs)[k])
  {
    var all := seq(|logs|, j requires 0 <= j < |logs| => logs[j].action);
    Seqs.DedupFirstOccurrence(all);
  }

  datatype TableState = TableState(page: nat, rowsPerPage: int, search: string, action: string)

  const Initial: TableState := TableState(0, 10, "", All)

  datatype Event =
    | ChangePage(newPage: nat)
    | ChangeRowsPerPage(value: int)
    | SetSearch(term: string)
    | SetAction(action: string)
    | ClearAll
    | Remove(filterType: string)

  /** The handlers: every event but `ChangePage` returns to page 0; `Remove` clears only the named filter. */
  function Step(s: TableState, e: Event): (r: TableState)
    ensures e.ChangePage? ==> r == s.(page := e.newPage)
    ensures !e.ChangePage? ==> r.page == 0
    ensures e.ChangeRowsPerPage? ==> r == s.(rowsPerPage := e.value, page := 0)
    ensures !e.ChangeRowsPerPage? ==> r.rowsPerPage == s.rowsPerPage
    ensures e.SetSearch? ==> r == s.(search := e.term, page := 0)
    ensures e.SetAction? ==> r == s.(action := e.action, page := 0)
    ensures e.ClearAll? ==> r.search == "" && r.action == All
    ensures e.Remove? && e.filterType == "search" ==> r == s.(search := "", page := 0)
    ensures e.Remove? && e.filterType == "action" ==> r == s.(action := All, page := 0)
    ensures e.Remove? && e.filterType != "search" && e.filterType != "action" ==> r == s.(page := 0)
  {
    match e
    case ChangePage(p) => s.(page := p)
    case ChangeRowsPerPage(v) => s.(rowsPerPage := v, page := 0)
    case SetSearch(t) => s.(search := t, page := 0)
    case SetAction(a) => s.(action := a, page := 0)
    case ClearAll => s.(search := "", action := All, page := 0)
    case Remove(k) =>
      if k == "search" then s.(search := "", page := 0)
      else if k == "action" then s.(action := All, page := 0)
      else s.(page := 0)
  }

  datatype Chip = Chip(filterType: string, text: string)

  /** The applied-filter chips: one for a non-empty search, one for an action other than "all". */
  function Chips(s: TableState): (cs: seq<Chip>)
    ensures |cs| == (if s.search != "" then 1 else 0) + (if s.action != All then 1 else 0)
    ensures s.search != "" ==> cs[0].filterType == "search"
    ensures (exists i :: 0 <= i < |cs| && cs[i].filterType == "search") <==> s.search != ""
    ensures (exists i :: 0 <= i < |cs| && cs[i].filterType == "action") <==> s.action != All
    ensures forall i :: 0 <= i < |cs| && cs[i].filterType == "search" ==> cs[i].text == "Search: \"" + s.search + "\""
    ensures forall i :: 0 <= i < |cs| && cs[i].filterType == "action" ==> cs[i].text == "Action: " + s.action
  {
    var a := if s.search != "" then [Chip("search", "Search: \"" + s.search + "\"")] else [];
    var b := if s.action != All then [Chip("action", "Action: " + s.action)] else [];
    assert "search"[0] != "action"[0];
    var cs := a + b;
    assert forall i :: 0 <= i < |cs| ==> cs[i] in a || cs[i] in b;
    assert s.search != "" ==> cs[0].filterType == "search";
    assert s.action != All ==> cs[|cs| - 1].filterType == "action";
    cs
  }

  /** Deleting a chip removes exactly that chip; the other stays. */
  lemma RemoveDropsOnlyThatChip(s: TableState, i: nat)
    requires i < |Chips(s)|
    ensures
      var c := Chips(s)[i];
      var after := Chips(Step(s, Remove(c.filterType)));
      && |after| == |Chips(s)| - 1
      && c !in after
      && forall d :: d in Chips(s) && d != c ==> d in after
  {
  }

  /** "Clear all" leaves no chip and every log shown. */
  lemma {:induction false} ClearAllShowsEverything(s: TableState, logs: seq<LogRow>)
    ensures Chips(Step(s, ClearAll)) == []
    ensures Filtered(logs, Step(s, ClearAll).search, Step(s, ClearAll).action) == logs
  {
    ShowingCount(logs, "", All);
  }

  /** The user cell: the user's name, or "System". */
  function UserLabel(l: LogRow): (shown: string)
    ensures Truthy(UserName(l)) ==> shown == UserName(l).value
    ensures !Truthy(UserName(l)) ==> shown == "System"
  {
    if Truthy(UserName(l)) then UserName(l).value else "System"
  }

  /**
   * A log as the audit endpoint sends it: the row carries a user object
   * exactly when the `user` virtual was populated, with that user's id and
   * name (users have no e-mail field).
   */
  function RowOfView(v: AuditController.AuditView): (l: LogRow)
    ensures l.id == v.record.id && l.action == v.record.action && l.details == v.record.details
    ensures l.createdAt == v.record.createdAt
    ensures l.user.Some? <==> v.user.Some?
    ensures v.user.Some? ==> l.user.value.id == Some(v.user.value.id) && UserName(l) == Some(v.user.value.username)
  {
    var u := if v.user.Some? then Some(LogUser(Some(v.user.value.id), Some(v.user.value.username), None)) else None;
    LogRow(v.record.id, v.record.action, v.record.details, u, v.record.createdAt)
  }

  /** A log served without a `user` reads "System", and a search can find it by its action and details only. */
  lemma UserlessRow(v: AuditController.AuditView, term: string)
    requires v.user.None?
    ensures UserLabel(RowOfView(v)) == "System"
    ensures MatchesSearch(RowOfView(v), term) <==>
      || term == ""
      || Text.ContainsIgnoringCase(v.record.action, term)
      || (Truthy(v.record.details) && Text.ContainsIgnoringCase(v.record.details.value, term))
  {
  }

  /**
   * The regional branch projects the joined user away, so each of its logs
   * reads "System" and a search never matches a user name.
   */
  lemma RegionalLogsHaveNoUser(caller: AuthMiddleware.ReqUser, st: Domain.Store, env: Http.Env, k: nat, term: string)
    requires caller.region != AuditController.GlobalRegion
    requires k < |AuditController.GetAuditLogs(caller, st, None, env).body|
    ensures
      var v := AuditController.GetAuditLogs(caller, st, None, env).body[k];
      && UserLabel(RowOfView(v)) == "System"
      && (MatchesSearch(RowOfView(v), term) <==>
           || term == ""
           || Text.ContainsIgnoringCase(v.record.action, term)
           || (Truthy(v.record.details) && Text.ContainsIgnoringCase(v.record.details.value, term)))
  {
    UserlessRow(AuditController.GetAuditLogs(caller, st, None, env).body[k], term);
  }

  /**
   * The global branch carries the populated `user`: a log reads its owner's
   * name and a search for that name finds it; only a log whose owner is gone
   * (or has an empty name) reads "System".
   */
  lemma GlobalLogsShowOwner(caller: AuthMiddleware.ReqUser, st: Domain.Store, env: Http.Env, k: nat)
    requires caller.region == AuditController.GlobalRegion
    requires k < |AuditController.GetAuditLogs(caller, st, None, env).body|
    ensures
      var v := AuditController.GetAuditLogs(caller, st, None, env).body[k];
      var owner := AuditLogSchema.UserOf(st.users, v.record);
      && v.record in st.audits
      && (owner.Some? && owner.value.username != "" ==>
           && UserLabel(RowOfView(v)) == owner.value.username
           && MatchesSearch(RowOfView(v), owner.value.username))
      && (owner.None? || owner.value.username == "" ==> UserLabel(RowOfView(v)) == "System")
  {
    var body := AuditController.GetAuditLogs(caller, st, None, env).body;
    var v := body[k];
    assert v == AuditController.Populate(st.users, v.record);
    assert v.record in multiset(AuditController.Records(body));
    var owner := AuditLogSchema.UserOf(st.users, v.record);
    if owner.Some? && owner.value.username != "" {
      Text.ContainsTrivial(Text.Lower(owner.value.username));
    }
  }

  /** The rows shown: the current page of the filtered logs. */
  function VisibleRows(logs: seq<LogRow>, s: TableState): (r: seq<LogRow>)
    ensures s.rowsPerPage > 0 ==> |r| <= s.rowsPerPage
    ensures forall k :: 0 <= k < |r| ==> Matches(r[k], s.search, s.action)
  {
    var f := Filtered(logs, s.search, s.action);
    var r := Pagination.PageRows(f, s.page, s.rowsPerPage);
    forall k | 0 <= k < |r| ensures Matches(r[k], s.search, s.action) {
      Pagination.PageRowIsRow(f, s.page, s.rowsPerPage, k);
    }
    r
  }

  function EmptyRows(logs: seq<LogRow>, s: TableState): nat {
    Pagination.EmptyRows(s.page, s.rowsPerPage, |Filtered(logs, s.search, s.action)|)
  }

  function NavDisabled(logs: seq<LogRow>, s: TableState): Pagination.Buttons
    requires s.rowsPerPage != 0
  {
    Pagination.DisabledButtons(|Filtered(logs, s.search, s.action)|, s.page, s.rowsPerPage)
  }
}
