/**
 * The user-management page: it loads the user list and the user statistics
 * together, filters the list by role, region and a search term, and offers
 * the regions present in the list as filter options.
 */
module UserManagement {
  import opened Wrappers
  import Seqs
  import Text
  import opened Domain
  import opened Http
  import AuthController
  import UsersTable

  type UserRow = UsersTable.UserRow

  const All: string := "all"

  /** The role filter's options: "all" and the four stored role spellings. */
  const RoleOptions: seq<string> := [All, "global_admin", "regional_admin", "sending_partner", "receiving_partner"]

  /** A user of the server's answer as the page reads it; ids and dates arrive as text and numbers. */
  function RowOf(u: AuthController.PublicUser, id: string): (r: UserRow)
    ensures r.username == u.username && r.role == RoleName(u.role) && r.region == u.region
  {
    UsersTable.UserRow(id, u.username, RoleName(u.role), u.region, u.createdAt)
  }

  datatype Filters = Filters(role: string, region: string, search: string)

  const NoFilters: Filters := Filters(All, All, "")

  /** The select filters: each is either "all" or equal to the user's field. */
  predicate SelectsMatch(u: UserRow, f: Filters) {
    (f.role == All || u.role == f.role) && (f.region == All || u.region == f.region)
  }

  /** The search: name, role or (a non-empty) region contains the term, ignoring case. */
  predicate SearchMatches(u: UserRow, term: string) {
    || Text.ContainsIgnoringCase(u.username, term)
    || Text.ContainsIgnoringCase(u.role, term)
    || (u.region != "" && Text.ContainsIgnoringCase(u.region, term))
  }

  /** `filteredUsers`' test: without a search term only the selects count. */
  predicate Matches(u: UserRow, f: Filters) {
    SelectsMatch(u, f) && (f.search == "" || SearchMatches(u, f.search))
  }

  /** `filteredUsers`: the matching users, in the order received. */
  function FilteredUsers(users: seq<UserRow>, f: Filters): (r: seq<UserRow>)
    ensures Seqs.IsSubseq(r, users) && |r| <= |users|
    ensures forall i :: 0 <= i < |r| ==> Matches(r[i], f)
    ensures forall i :: 0 <= i < |users| && Matches(users[i], f) ==> users[i] in r
  {
    var r := Seqs.Filter(users, Test(f));
    Seqs.SubseqLength(r, users);
    r
  }

  function Test(f: Filters): UserRow -> bool {
    u => Matches(u, f)
  }

  /** Filtering a list extended by one user. */
  lemma FilteredUsersAppend(s: seq<UserRow>, x: UserRow, f: Filters)
    ensures FilteredUsers(s + [x], f) == FilteredUsers(s, f) + (if Matches(x, f) then [x] else [])
  {
    Seqs.FilterSnoc(s, x, Test(f));
  }

  /** With no filter set every user is listed. */
  lemma {:induction false} NoFiltersKeepAll(users: seq<UserRow>)
    ensures FilteredUsers(users, NoFilters) == users
  {
    Seqs.FilterAll(users, Test(NoFilters));
  }

  /** A search term is found in a user's own name, whatever its case. */
  lemma SearchFindsOwnName(u: UserRow)
    requires SelectsMatch(u, Filters(All, All, Text.Lower(u.username)))
    ensures Matches(u, Filters(All, All, Text.Lower(u.username)))
    ensures Matches(u, Filters(All, All, u.username))
  {
    Text.ContainsTrivial(Text.Lower(u.username));
    Text.LowerIdempotent(u.username);
  }

  /** Role filter selecting `name`, nothing else. */
  function RoleFilter(name: string): Filters {
    Filters(name, All, "")
  }

  /**
   * The number of users the role filter lists is the role's count among the
   * users: the same number the role distribution of the statistics reports.
   */
  lemma RoleFilterCount(users: seq<AuthController.PublicUser>, rows: seq<UserRow>, r: Role)
    requires |rows| == |users|
    requires forall i :: 0 <= i < |users| ==> rows[i].role == RoleName(users[i].role)
    ensures |FilteredUsers(rows, RoleFilter(RoleName(r)))| == Seqs.Count(PublicRoleNames(users), RoleName(r))
  {
    RoleFilterCountRows(rows, RoleName(r));
    assert RowRoles(rows) == PublicRoleNames(users);
  }

  function RowRoles(rows: seq<UserRow>): (names: seq<string>)
    ensures |names| == |rows|
    ensures forall i :: 0 <= i < |rows| ==> names[i] == rows[i].role
  {
    seq(|rows|, i requires 0 <= i < |rows| => rows[i].role)
  }

  lemma {:induction false} RoleFilterCountRows(rows: seq<UserRow>, name: string)
    requires name != All
    ensures |FilteredUsers(rows, RoleFilter(name))| == Seqs.Count(RowRoles(rows), name)
  {
    if rows != [] {
      var n := |rows| - 1;
      RoleFilterCountRows(rows[..n], name);
      LastRowStep(rows, name);
      CountLast(RowRoles(rows), name);
      assert RowRoles(rows)[..n] == RowRoles(rows[..n]);
    }
  }

  lemma LastRowStep(rows: seq<UserRow>, name: string)
    requires rows != [] && name != All
    ensures |FilteredUsers(rows, RoleFilter(name))| ==
      |FilteredUsers(rows[..|rows| - 1], RoleFilter(name))| + (if rows[|rows| - 1].role == name then 1 else 0)
  {
    var n := |rows| - 1;
    assert rows == rows[..n] + [rows[n]];
    FilteredUsersAppend(rows[..n], rows[n], RoleFilter(name));
  }

  lemma CountLast(s: seq<string>, x: string)
    requires s != []
    ensures Seqs.Count(s, x) == Seqs.Count(s[..|s| - 1], x) + (if s[|s| - 1] == x then 1 else 0)
  {
  }

  function PublicRoleNames(users: seq<AuthController.PublicUser>): (names: seq<string>)
    ensures |names| == |users|
    ensures forall i :: 0 <= i < |users| ==> names[i] == RoleName(users[i].role)
  {
    seq(|users|, i requires 0 <= i < |users| => RoleName(users[i].role))
  }

  /**
   * The pie chart and the role filter agree: for each role the statistics
   * report, the role filter lists as many of the received users as the
   * statistics count.
   */
  lemma RoleFilterMatchesDistribution(users: seq<User>, rows: seq<UserRow>, r: Role)
    requires |rows| == |users|
    requires forall i :: 0 <= i < |users| ==> rows[i].role == RoleName(users[i].role)
    ensures
      var dist := AuthController.GetUserStats(users, None).body.roleDistribution;
      forall k :: 0 <= k < |dist| && dist[k].key == RoleName(r) ==>
        dist[k].count == |FilteredUsers(rows, RoleFilter(RoleName(r)))|
  {
    var list := AuthController.GetAllUsers(users, None).body;
    assert PublicRoleNames(list) == AuthController.RoleNames(users);
    RoleFilterCount(list, rows, r);
  }

  /**
   * The region options: `Array.from(new Set(users.map(u => u.region)))`,
   * each region once in order of first appearance. Unlike the
   * transactions table, an empty region is offered too.
   */
  function RegionOptions(users: seq<UserRow>): (opts: seq<string>)
    ensures Seqs.NoDups(opts)
    ensures forall i :: 0 <= i < |users| ==> users[i].region in opts
    ensures forall k :: 0 <= k < |opts| ==> exists i :: 0 <= i < |users| && users[i].region == opts[k]
  {
    var all := seq(|users|, i requires 0 <= i < |users| => users[i].region);
    var opts := Seqs.Dedup(all);
    assert forall i :: 0 <= i < |users| ==> all[i] == users[i].region;
    assert forall k :: 0 <= k < |opts| ==> opts[k] in all;
    opts
  }

  /** Choosing a region option lists exactly the users of that region (with no other filter). */
  lemma RegionOptionSelectsItsUsers(users: seq<UserRow>, k: nat, i: nat)
    requires k < |RegionOptions(users)| && i < |users|
    requires RegionOptions(users)[k] != All
    ensures users[i] in FilteredUsers(users, Filters(All, RegionOptions(users)[k], "")) <==>
      users[i].region == RegionOptions(users)[k]
  {
    var f := Filters(All, RegionOptions(users)[k], "");
    var r := FilteredUsers(users, f);
    if users[i] in r {
      var j :| 0 <= j < |r| && r[j] == users[i];
      assert Matches(r[j], f);
    }
  }

  /** The page's data: the users and the statistics, both empty until loaded. */
  datatype Page = Page(users: seq<AuthController.PublicUser>, stats: Option<AuthController.UserStats>, loading: bool)

  const Loading: Page := Page([], None, true)

  /**
   * `fetchData`: without a stored token nothing is requested; otherwise both
   * requests run together and the page takes both answers or neither.
   * Either way `loading` ends false. (The error handler calls an undefined
   * `setError`, so a failure only leaves the page empty.)
   */
  function Fetch(token: Option<string>, usersRes: Response<seq<AuthController.PublicUser>>,
                 statsRes: Response<AuthController.UserStats>): (p: Page)
    ensures !p.loading
    ensures (p.stats.Some? || p.users != []) ==> token.Some? && token.value != "" && usersRes.Reply? && statsRes.Reply?
    ensures token.Some? && token.value != "" && usersRes.Reply? && statsRes.Reply? ==>
      p.users == usersRes.body && p.stats == Some(statsRes.body)
    ensures p.stats.None? ==> p.users == []
  {
    if token.Some? && token.value != "" && usersRes.Reply? && statsRes.Reply? then
      Page(usersRes.body, Some(statsRes.body), false)
    else
      Page([], None, false)
  }

  /** The "Total Users" card: `stats?.totalUsers || 0`. */
  function TotalUsersShown(p: Page): (n: nat)
    ensures p.stats.None? ==> n == 0
    ensures p.stats.Some? ==> n == p.stats.value.totalUsers
  {
    if p.stats.Some? then p.stats.value.totalUsers else 0
  }

  /** After a successful load the card shows the number of stored users, which is the number of rows received. */
  lemma TotalMatchesList(token: string, users: seq<User>)
    requires token != ""
    ensures
      var p := Fetch(Some(token), AuthController.GetAllUsers(users, None), AuthController.GetUserStats(users, None));
      TotalUsersShown(p) == |users| == |p.users|
  {
  }

  /** A failed statistics request leaves the user list empty as well. */
  lemma StatsFailureHidesUsers(token: Option<string>, users: seq<User>, fault: string)
    ensures Fetch(token, AuthController.GetAllUsers(users, None), AuthController.GetUserStats(users, Some(fault))).users == []
  {
  }
}
