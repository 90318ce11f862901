/**
 * The table pagination shared, line for line, by the transactions, audit-log
 * and user tables: the four navigation buttons of `TablePaginationActions`,
 * the rows shown on a page, and the blank padding rows below them.
 *
 * `rowsPerPage` is one of the option values 5, 10, 25 or -1 ("All"); it is
 * an `int` here and only required to be non-zero where it divides.
 */
module Pagination {

  /** `Math.ceil(a / b)` for a non-zero integer divisor. */
  function CeilDiv(a: int, b: int): (q: int)
    requires b != 0
    ensures b > 0 ==> (q - 1) * b < a <= q * b
    ensures b < 0 ==> q * b <= a < (q - 1) * b
  {
    if b > 0 then -((-a) / b) else -(a / (-b))
  }

  /** Target of the "last page" button: `Math.max(0, Math.ceil(count / rowsPerPage) - 1)`. */
  function LastPage(count: nat, rowsPerPage: int): (p: nat)
    requires rowsPerPage != 0
    ensures rowsPerPage > 0 && count > 0 ==> p * rowsPerPage < count <= (p + 1) * rowsPerPage
    ensures count == 0 || rowsPerPage < 0 ==> p == 0
  {
    var c := CeilDiv(count, rowsPerPage);
    if c - 1 > 0 then c - 1 else 0
  }

  /** Which of first / back / next / last are disabled. */
  datatype Buttons = Buttons(first: bool, back: bool, next: bool, last: bool)

  /**
   * `page === 0` disables first and back;
   * `page >= Math.ceil(count / rowsPerPage) - 1` disables next and last.
   */
  function DisabledButtons(count: nat, page: nat, rowsPerPage: int): (b: Buttons)
    requires rowsPerPage != 0
    ensures b.first == b.back && b.next == b.last
    ensures b.first <==> page == 0
    ensures rowsPerPage > 0 ==> (b.next <==> (page + 1) * rowsPerPage >= count)
    ensures rowsPerPage < 0 ==> b.next
  {
    var atEnd := page >= CeilDiv(count, rowsPerPage) - 1;
    assert rowsPerPage > 0 ==> (atEnd <==> (page + 1) * rowsPerPage >= count) by {
      if rowsPerPage > 0 {
        AtEndIff(count, page, rowsPerPage);
      }
    }
    Buttons(page == 0, page == 0, atEnd, atEnd)
  }

  /** With a positive page size, `page` is the last page or beyond exactly when the next page would start past the rows. */
  lemma AtEndIff(count: nat, page: nat, rowsPerPage: int)
    requires rowsPerPage > 0
    ensures page >= CeilDiv(count, rowsPerPage) - 1 <==> (page + 1) * rowsPerPage >= count
  {
    var q := CeilDiv(count, rowsPerPage);
    if page >= q - 1 {
      MulMonotone(q, page + 1, rowsPerPage);
    } else {
      MulMonotone(page + 1, q - 1, rowsPerPage);
    }
  }

  lemma MulMonotone(x: int, y: int, d: int)
    requires x <= y && d > 0
    ensures x * d <= y * d
  {
    assert y * d == x * d + (y - x) * d;
  }

  /** The page each button moves to when clicked. */
  datatype Targets = Targets(first: int, back: int, next: int, last: nat)

  function ButtonTargets(count: nat, page: nat, rowsPerPage: int): (t: Targets)
    requires rowsPerPage != 0
    ensures t.first == 0 && t.back == page - 1 && t.next == page + 1
    ensures t.last == LastPage(count, rowsPerPage)
  {
    Targets(0, page - 1, page + 1, LastPage(count, rowsPerPage))
  }

  /**
   * An enabled button never leads off the table: back leads to a page
   * `>= 0`, and next and last lead to pages that have rows.
   */
  lemma EnabledButtonsStayInRange(count: nat, page: nat, rowsPerPage: int)
    requires rowsPerPage > 0
    ensures !DisabledButtons(count, page, rowsPerPage).back ==> ButtonTargets(count, page, rowsPerPage).back >= 0
    ensures !DisabledButtons(count, page, rowsPerPage).next ==>
      ButtonTargets(count, page, rowsPerPage).next * rowsPerPage < count &&
      ButtonTargets(count, page, rowsPerPage).last * rowsPerPage < count
  {
  }

  /** `s.slice(start, end)` for `0 <= start <= end`: indices past the end are clamped. */
  function Slice<T>(s: seq<T>, start: nat, end: nat): (r: seq<T>)
    requires start <= end
    ensures |r| <= end - start
    ensures forall k :: 0 <= k < |r| ==> start + k < |s| && r[k] == s[start + k]
    ensures start + |r| == end || start + |r| >= |s|
  {
    var lo := if start < |s| then start else |s|;
    var hi := if end < |s| then end else |s|;
    s[lo..hi]
  }

  /**
   * The rows on `page`: `rows.slice(page * rpp, page * rpp + rpp)` when
   * `rpp > 0`, every row otherwise.
   */
  function PageRows<T>(rows: seq<T>, page: nat, rowsPerPage: int): (r: seq<T>)
    ensures rowsPerPage > 0 ==> |r| <= rowsPerPage
    ensures rowsPerPage > 0 ==>
      forall k :: 0 <= k < |r| ==> page * rowsPerPage + k < |rows| && r[k] == rows[page * rowsPerPage + k]
    ensures rowsPerPage > 0 && (page + 1) * rowsPerPage <= |rows| ==> |r| == rowsPerPage
    ensures rowsPerPage > 0 && page * rowsPerPage <= |rows| <= (page + 1) * rowsPerPage ==>
      |r| == |rows| - page * rowsPerPage
    ensures rowsPerPage <= 0 ==> r == rows
  {
    if rowsPerPage > 0 then Slice(rows, page * rowsPerPage, page * rowsPerPage + rowsPerPage)
    else rows
  }

  /** Where entry `k` of a page sits in the full list. */
  function RowIndex(page: nat, rowsPerPage: int, k: nat): nat {
    if rowsPerPage > 0 then page * rowsPerPage + k else k
  }

  /** Entry `k` of a page is the row at `RowIndex` of the full list. */
  lemma PageRowIsRow<T>(rows: seq<T>, page: nat, rowsPerPage: int, k: nat)
    requires k < |PageRows(rows, page, rowsPerPage)|
    ensures RowIndex(page, rowsPerPage, k) < |rows|
    ensures PageRows(rows, page, rowsPerPage)[k] == rows[RowIndex(page, rowsPerPage, k)]
  {
  }

  /** Every row is shown on some page: row `i` is entry `i % rpp` of page `i / rpp`. */
  lemma RowOnItsPage<T>(rows: seq<T>, rowsPerPage: int, i: nat)
    requires rowsPerPage > 0 && i < |rows|
    ensures i % rowsPerPage < |PageRows(rows, i / rowsPerPage, rowsPerPage)|
    ensures PageRows(rows, i / rowsPerPage, rowsPerPage)[i % rowsPerPage] == rows[i]
  {
    var p := i / rowsPerPage;
    assert p * rowsPerPage + i % rowsPerPage == i;
    assert p * rowsPerPage <= i;
    assert i < (p + 1) * rowsPerPage;
  }

  /** Distinct pages show distinct rows: every row of an earlier page precedes every row of a later one. */
  lemma PagesDisjoint<T>(rows: seq<T>, rowsPerPage: int, p1: nat, k1: nat, p2: nat, k2: nat)
    requires rowsPerPage > 0 && p1 < p2
    requires k1 < |PageRows(rows, p1, rowsPerPage)| && k2 < |PageRows(rows, p2, rowsPerPage)|
    ensures p1 * rowsPerPage + k1 < p2 * rowsPerPage + k2
  {
    assert (p2 - p1) * rowsPerPage >= rowsPerPage by {
      MulAtLeast(p2 - p1, rowsPerPage);
    }
    assert (p2 - p1) * rowsPerPage == p2 * rowsPerPage - p1 * rowsPerPage;
  }

  lemma MulAtLeast(a: int, d: int)
    requires a >= 1 && d > 0
    ensures a * d >= d
  {
    assert a * d == (a - 1) * d + d;
  }

  /**
   * Blank rows padding the last page:
   * `page > 0 ? Math.max(0, (1 + page) * rowsPerPage - length) : 0`.
   */
  function EmptyRows(page: nat, rowsPerPage: int, length: nat): (n: nat)
    ensures page == 0 ==> n == 0
    ensures rowsPerPage < 0 ==> n == 0
    ensures page > 0 && (1 + page) * rowsPerPage >= length ==> n == (1 + page) * rowsPerPage - length
    ensures (1 + page) * rowsPerPage <= length ==> n == 0
  {
    if page > 0 then
      var d := (1 + page) * rowsPerPage - length;
      if d > 0 then d else 0
    else 0
  }

  /** On a later page that has rows, the shown rows and the padding fill exactly one page. */
  lemma PaddingFillsPage<T>(rows: seq<T>, page: nat, rowsPerPage: int)
    requires rowsPerPage > 0 && page > 0 && page * rowsPerPage <= |rows|
    ensures |PageRows(rows, page, rowsPerPage)| + EmptyRows(page, rowsPerPage, |rows|) == rowsPerPage
  {
  }
}
