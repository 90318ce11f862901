/**
 * The transactions table: a free-text search plus status and region
 * filters over the transactions it is given, the filter options offered,
 * the labels of a row, and pagination over the filtered rows. The
 * component's local state and the events that change it are a small state
 * machine: every event except a page change goes back to the first page.
 */
module TransactionsTable {
  import opened Wrappers
  import opened ClientRows
  import Seqs
  import Text
  import Pagination

  /** The select value that switches a filter off. */
  const All: string := "all"

  const RowsPerPageOptions: seq<int> := [5, 10, 25, -1]

  datatype Filters = Filters(search: string, status: string, region: string)

  const NoFilters: Filters := Filters("", All, All)

  datatype TableState = TableState(page: nat, rowsPerPage: int, filters: Filters)

  const Initial: TableState := TableState(0, 10, NoFilters)

  /**
   * The search test: an empty term matches everything; otherwise the
   * sender's or receiver's username contains the term ignoring case, or the
   * amount's text contains the term exactly.
   */
  predicate MatchesSearch(t: TxRow, term: string) {
    || term == ""
    || (Username(t.sender).Some? && Text.ContainsIgnoringCase(Username(t.sender).value, term))
    || (Username(t.receiver).Some? && Text.ContainsIgnoringCase(Username(t.receiver).value, term))
    || Text.Contains(Text.IntString(t.amount), term)
  }

  predicate Matches(t: TxRow, f: Filters) {
    && MatchesSearch(t, f.search)
    && (f.status == All || t.status == Some(f.status))
    && (f.region == All || t.region == Some(f.region))
  }

  function Test(f: Filters): TxRow -> bool {
    t => Matches(t, f)
  }

  /** `filteredTransactions`: the matching rows, in their original order. */
  function Filtered(txs: seq<TxRow>, f: Filters): (r: seq<TxRow>)
    ensures Seqs.IsSubseq(r, txs) && |r| <= |txs|
    ensures forall i :: 0 <= i < |r| ==> Matches(r[i], f)
    ensures forall i :: 0 <= i < |txs| && Matches(txs[i], f) ==> txs[i] in r
  {
    var r := Seqs.Filter(txs, Test(f));
    Seqs.SubseqLength(r, txs);
    r
  }

  /** A kept row has the chosen status and region, unless the filter is "all". */
  lemma KeptRowsMatchSelects(txs: seq<TxRow>, f: Filters, i: nat)
    requires i < |Filtered(txs, f)|
    ensures f.status != All ==> Filtered(txs, f)[i].status == Some(f.status)
    ensures f.region != All ==> Filtered(txs, f)[i].region == Some(f.region)
  {
  }

  /** With no filter set every row is kept. */
  lemma {:induction false} NoFiltersKeepAll(txs: seq<TxRow>)
    ensures Filtered(txs, NoFilters) == txs
  {
    Seqs.FilterAll(txs, Test(NoFilters));
  }

  /** Name search ignores case: a term matches a sender whose username contains it in any letter case. */
  lemma NameSearchIgnoresCase(t: TxRow, term: string)
    requires Username(t.sender).Some? && Text.Contains(Text.Lower(Username(t.sender).value), Text.Lower(term))
    ensures MatchesSearch(t, term)
    ensures MatchesSearch(t, Text.Lower(term))
  {
    Text.LowerIdempotent(term);
  }

  /** Amount search is plain substring search on the amount's text. */
  lemma AmountSearch(t: TxRow)
    ensures MatchesSearch(t, Text.IntString(t.amount))
  {
    Text.ContainsTrivial(Text.IntString(t.amount));
  }

  datatype Event =
    | ChangePage(newPage: nat)
    | ChangeRowsPerPage(value: int)
    | SetSearch(term: string)
    | SetStatus(status: string)
    | SetRegion(region: string)
    | ClearFilters

  /** The handlers: each sets its piece of state and, except `ChangePage`, goes back to page 0. */
  function Step(s: TableState, e: Event): (r: TableState)
    ensures e.ChangePage? ==> r == s.(page := e.newPage)
    ensures !e.ChangePage? ==> r.page == 0
    ensures e.ChangeRowsPerPage? ==> r.rowsPerPage == e.value && r.filters == s.filters
    ensures !e.ChangeRowsPerPage? ==> r.rowsPerPage == s.rowsPerPage
    ensures e.SetSearch? ==> r.filters == s.filters.(search := e.term)
    ensures e.SetStatus? ==> r.filters == s.filters.(status := e.status)
    ensures e.SetRegion? ==> r.filters == s.filters.(region := e.region)
    ensures e.ClearFilters? ==> r.filters == NoFilters
  {
    match e
    case ChangePage(p) => s.(page := p)
    case ChangeRowsPerPage(v) => s.(rowsPerPage := v, page := 0)
    case SetSearch(t) => s.(filters := s.filters.(search := t), page := 0)
    case SetStatus(st) => s.(filters := s.filters.(status := st), page := 0)
    case SetRegion(rg) => s.(filters := s.filters.(region := rg), page := 0)
    case ClearFilters => s.(filters := NoFilters, page := 0)
  }

  /** The "Clear filters" chip is shown exactly while some filter is set. */
  predicate ClearChipShown(f: Filters) {
    f.search != "" || f.status != All || f.region != All
  }

  /** Without the chip the table is unfiltered; after "Clear filters" the chip is gone and every row is back on page 0. */
  lemma {:induction false} ClearFiltersRestoresAll(s: TableState, txs: seq<TxRow>)
    ensures !ClearChipShown(s.filters) ==> Filtered(txs, s.filters) == txs
    ensures !ClearChipShown(Step(s, ClearFilters).filters)
    ensures Filtered(txs, Step(s, ClearFilters).filters) == txs && Step(s, ClearFilters).page == 0
  {
    NoFiltersKeepAll(txs);
  }

  /** The selectable rows-per-page values stay selectable. */
  lemma StepKeepsRowsPerPageOption(s: TableState, e: Event)
    requires s.rowsPerPage in RowsPerPageOptions
    requires e.ChangeRowsPerPage? ==> e.value in RowsPerPageOptions
    ensures Step(s, e).rowsPerPage in RowsPerPageOptions
  {
  }

  /** `uniqueRegions`: the distinct non-empty regions, in order of first appearance. */
  function UniqueRegions(txs: seq<TxRow>): (rs: seq<string>)
    ensures Seqs.NoDups(rs)
    ensures forall i :: 0 <= i < |rs| ==> rs[i] != "" && exists j :: 0 <= j < |txs| && txs[j].region == Some(rs[i])
    ensures forall j :: 0 <= j < |txs| && Truthy(txs[j].region) ==> txs[j].region.value in rs
  {
    var vs := seq(|txs|, j requires 0 <= j < |txs| => txs[j].region);
    var rs := DistinctTruthy(vs);
    assert forall j :: 0 <= j < |txs| ==> vs[j] == txs[j].region;
    assert forall i :: 0 <= i < |rs| ==> Some(rs[i]) in vs;
    rs
  }

  /** `uniqueStatuses`: the distinct non-empty statuses, in order of first appearance. */
  function UniqueStatuses(txs: seq<TxRow>): (ss: seq<string>)
    ensures Seqs.NoDups(ss)
    ensures forall i :: 0 <= i < |ss| ==> ss[i] != "" && exists j :: 0 <= j < |txs| && txs[j].status == Some(ss[i])
    ensures forall j :: 0 <= j < |txs| && Truthy(txs[j].status) ==> txs[j].status.value in ss
  {
    var vs := seq(|txs|, j requires 0 <= j < |txs| => txs[j].status);
    var ss := DistinctTruthy(vs);
    assert forall j :: 0 <= j < |txs| ==> vs[j] == txs[j].status;
    assert forall i :: 0 <= i < |ss| ==> Some(ss[i]) in vs;
    ss
  }

  /** Choosing an offered region keeps at least the row it was taken from. */
  lemma OfferedRegionNonEmpty(txs: seq<TxRow>, i: nat)
    requires i < |UniqueRegions(txs)|
    ensures Filtered(txs, NoFilters.(region := UniqueRegions(txs)[i])) != []
  {
    var r := UniqueRegions(txs)[i];
    var j :| 0 <= j < |txs| && txs[j].region == Some(r);
    assert Matches(txs[j], NoFilters.(region := r));
  }

  /** The region cell: `region?.replace("_", " ") || "N/A"`; only the first underscore becomes a space. */
  function RegionLabel(region: Option<string>): (l: string)
    ensures !Truthy(region) ==> l == "N/A"
    ensures Truthy(region) ==> |l| == |region.value|
    ensures Truthy(region) && '_' !in region.value ==> l == region.value
    ensures Truthy(region) && '_' in region.value ==>
      var k := Seqs.FirstIndex(region.value, '_');
      l[k] == ' ' && forall i :: 0 <= i < |l| && i != k ==> l[i] == region.value[i]
  {
    if region.None? then "N/A"
    else
      var r := Text.ReplaceFirst(region.value, '_', ' ');
      if r == "" then "N/A" else r
  }

  /** A region with two underscores keeps the second one in its label. */
  lemma RegionLabelKeepsLaterUnderscores(region: string, j: nat)
    requires j < |region| && region[j] == '_' && j != Seqs.FirstIndex(region, '_')
    ensures '_' in RegionLabel(Some(region))
  {
    Text.ReplaceFirstLeavesLater(region, '_', ' ', j);
  }

  /** A party cell: the username when it is non-empty, "N/A" otherwise. */
  function PartyLabel(p: Party): (l: string)
    ensures Truthy(Username(p)) ==> l == Username(p).value
    ensures !Truthy(Username(p)) ==> l == "N/A"
  {
    if Truthy(Username(p)) then Username(p).value else "N/A"
  }

  datatype Tone = Success | Danger | Warning

  /** The status badge colour: completed is success, rejected is danger, anything else warning. */
  function StatusTone(status: Option<string>): (t: Tone)
    ensures t == Success <==> status == Some("completed")
    ensures t == Danger <==> status == Some("rejected")
  {
    if status == Some("completed") then Success
    else if status == Some("rejected") then Danger
    else Warning
  }

  /** The rows shown: the current page of the filtered rows. */
  function VisibleRows(txs: seq<TxRow>, s: TableState): (r: seq<TxRow>)
    ensures s.rowsPerPage > 0 ==> |r| <= s.rowsPerPage
    ensures forall k :: 0 <= k < |r| ==> Matches(r[k], s.filters)
  {
    var f := Filtered(txs, s.filters);
    var r := Pagination.PageRows(f, s.page, s.rowsPerPage);
    forall k | 0 <= k < |r| ensures Matches(r[k], s.filters) {
      Pagination.PageRowIsRow(f, s.page, s.rowsPerPage, k);
    }
    r
  }

  /** After any filter change the table shows the first rows of the new result. */
  lemma {:induction false} FilterChangeShowsFirstPage(txs: seq<TxRow>, s: TableState, e: Event)
    requires !e.ChangePage? && !e.ChangeRowsPerPage? && s.rowsPerPage > 0
    ensures
      var s' := Step(s, e);
      var f := Filtered(txs, s'.filters);
      VisibleRows(txs, s') == f[..if |f| < s.rowsPerPage then |f| else s.rowsPerPage]
  {
    var s' := Step(s, e);
    var f := Filtered(txs, s'.filters);
    var r := Pagination.PageRows(f, 0, s.rowsPerPage);
    var n := if |f| < s.rowsPerPage then |f| else s.rowsPerPage;
    assert |r| == n;
    assert forall k :: 0 <= k < n ==> r[k] == f[k];
  }

  /** The blank padding rows below the shown ones. */
  function EmptyRows(txs: seq<TxRow>, s: TableState): nat {
    Pagination.EmptyRows(s.page, s.rowsPerPage, |Filtered(txs, s.filters)|)
  }

  /** The four navigation buttons' disabled flags, over the filtered count. */
  function NavDisabled(txs: seq<TxRow>, s: TableState): Pagination.Buttons
    requires s.rowsPerPage != 0
  {
    Pagination.DisabledButtons(|Filtered(txs, s.filters)|, s.page, s.rowsPerPage)
  }

  /** With "All" rows per page every filtered row is shown, there is no padding, and forward navigation is off. */
  lemma AllRowsOption(txs: seq<TxRow>, s: TableState)
    requires s.rowsPerPage == -1
    ensures VisibleRows(txs, s) == Filtered(txs, s.filters)
    ensures EmptyRows(txs, s) == 0
    ensures NavDisabled(txs, s).next && NavDisabled(txs, s).last
  {
  }
}
