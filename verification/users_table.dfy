/**
 * The user list: one row per user with the role shown as a coloured chip,
 * and the same pagination as the other tables. The table receives the
 * already filtered users from the user-management page and keeps only its
 * own page and page size.
 */
module UsersTable {
  import Text
  import Pagination

  /** A user as the table reads it from the server's answer. */
  datatype UserRow = UserRow(id: string, username: string, role: string, region: string, createdAt: nat)

  /** The chip colours of the four roles. */
  const RoleColors: seq<(string, string)> := [
    ("global_admin", "primary"),
    ("regional_admin", "secondary"),
    ("sending_partner", "success"),
    ("receiving_partner", "warning")
  ]

  /** `getRoleColor`: the role's entry in the colour table, or "default" for anything else. */
  function RoleColor(role: string): (c: string)
    ensures (exists k :: 0 <= k < |RoleColors| && RoleColors[k].0 == role) ==> c != "default"
    ensures (forall k :: 0 <= k < |RoleColors| ==> RoleColors[k].0 != role) ==> c == "default"
    ensures forall k :: 0 <= k < |RoleColors| && RoleColors[k].0 == role ==> c == RoleColors[k].1
  {
    assert RoleColors[0] == ("global_admin", "primary") && RoleColors[1] == ("regional_admin", "secondary");
    assert RoleColors[2] == ("sending_partner", "success") && RoleColors[3] == ("receiving_partner", "warning");
    if role == "global_admin" then "primary"
    else if role == "regional_admin" then "secondary"
    else if role == "sending_partner" then "success"
    else if role == "receiving_partner" then "warning"
    else "default"
  }

  /** The four roles get four different colours, none of them the fallback. */
  lemma RoleColorsDistinct(i: nat, j: nat)
    requires i < j < |RoleColors|
    ensures RoleColor(RoleColors[i].0) != RoleColor(RoleColors[j].0)
    ensures RoleColor(RoleColors[i].0) != "default"
  {
  }

  /** The chip text: `role.replace(/_/g, " ")`, every underscore a space. */
  function RoleText(role: string): (t: string)
    ensures |t| == |role| && '_' !in t
    ensures forall i :: 0 <= i < |role| && role[i] != '_' ==> t[i] == role[i]
    ensures forall i :: 0 <= i < |role| && role[i] == '_' ==> t[i] == ' '
  {
    Text.ReplaceAll(role, '_', ' ')
  }

  /** Different role spellings without spaces keep different chip texts. */
  lemma RoleTextInjective(a: string, b: string)
    requires ' ' !in a && ' ' !in b
    requires RoleText(a) == RoleText(b)
    ensures a == b
  {
    assert |a| == |b|;
    forall i | 0 <= i < |a| ensures a[i] == b[i] {
      if a[i] == '_' {
        assert RoleText(a)[i] == ' ';
        assert b[i] == '_';
      } else {
        assert RoleText(a)[i] == a[i];
        assert b[i] != '_';
      }
    }
  }

  datatype TableState = TableState(page: nat, rowsPerPage: int)

  const Initial: TableState := TableState(0, 10)

  datatype Event = ChangePage(newPage: nat) | ChangeRowsPerPage(value: int)

  /** `handleChangePage` keeps the page size; `handleChangeRowsPerPage` returns to page 0. */
  function Step(s: TableState, e: Event): (r: TableState)
    ensures e.ChangePage? ==> r.page == e.newPage && r.rowsPerPage == s.rowsPerPage
    ensures e.ChangeRowsPerPage? ==> r.page == 0 && r.rowsPerPage == e.value
  {
    match e
    case ChangePage(p) => s.(page := p)
    case ChangeRowsPerPage(v) => TableState(0, v)
  }

  /** The rows of the current page, in the order received. */
  function VisibleRows(users: seq<UserRow>, s: TableState): (r: seq<UserRow>)
    ensures s.rowsPerPage <= 0 ==> r == users
    ensures s.rowsPerPage > 0 ==> |r| <= s.rowsPerPage
    ensures forall k :: 0 <= k < |r| ==> r[k] in users
  {
    var r := Pagination.PageRows(users, s.page, s.rowsPerPage);
    forall k | 0 <= k < |r| ensures r[k] in users {
      Pagination.PageRowIsRow(users, s.page, s.rowsPerPage, k);
    }
    r
  }

  function EmptyRows(users: seq<UserRow>, s: TableState): nat {
    Pagination.EmptyRows(s.page, s.rowsPerPage, |users|)
  }

  /** The "No users found" row appears exactly when there are no users at all. */
  predicate ShowsNoUsers(users: seq<UserRow>) {
    |users| == 0
  }

  /**
   * The table keeps its page when the parent hands it a shorter list. Once
   * the page lies past the last row, nothing is shown, the padding grows
   * to at least a full page, and "No users found" stays hidden while any
   * user remains.
   */
  lemma StalePageShowsNothing(users: seq<UserRow>, s: TableState)
    requires s.rowsPerPage > 0 && s.page > 0 && s.page * s.rowsPerPage >= |users| > 0
    ensures VisibleRows(users, s) == []
    ensures EmptyRows(users, s) >= s.rowsPerPage
    ensures !ShowsNoUsers(users)
  {
  }

  /** The first page after a page-size change is a full page or the whole list. */
  lemma PageSizeChangeShowsFirstRows(users: seq<UserRow>, s: TableState, v: int)
    requires v > 0
    ensures
      var r := VisibleRows(users, Step(s, ChangeRowsPerPage(v)));
      && |r| == (if |users| < v then |users| else v)
      && forall k :: 0 <= k < |r| ==> r[k] == users[k]
  {
  }
}
