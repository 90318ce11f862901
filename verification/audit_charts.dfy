/**
 * The audit-log pie chart: one slice per action, in order of first
 * appearance, coloured from a palette keyed by the lower-cased action.
 */
module AuditLogsChart {
  import Seqs
  import Text
  import Charts
  import AuditLogsTable

  type LogRow = AuditLogsTable.LogRow
  type Slice = Charts.Slice

  const UnknownColor: string := "#9E9E9E"

  /**
   * `getActionColor`: the palette's colour for the lower-cased action, or
   * grey when the palette has none (or an empty one). The palette itself
   * is a parameter.
   */
  function ActionColor(palette: map<string, string>, action: string): (c: string)
    ensures c != ""
    ensures Text.Lower(action) in palette && palette[Text.Lower(action)] != "" ==> c == palette[Text.Lower(action)]
    ensures Text.Lower(action) !in palette || palette[Text.Lower(action)] == "" ==> c == UnknownColor
  {
    var k := Text.Lower(action);
    if k in palette && palette[k] != "" then palette[k] else UnknownColor
  }

  function ColorOf(palette: map<string, string>): string -> string {
    a => ActionColor(palette, a)
  }

  function ActionOf(l: LogRow): string {
    l.action
  }

  /** `pieData`: the action counts of `reduce` as slices, in `Object.entries` order. */
  function PieData(logs: seq<LogRow>, palette: map<string, string>): (slices: seq<Slice>)
    ensures |slices| == |Seqs.Dedup(Seqs.Map(logs, ActionOf))|
    ensures forall k :: 0 <= k < |slices| ==>
      && slices[k].name == Seqs.Dedup(Seqs.Map(logs, ActionOf))[k]
      && slices[k].value == Seqs.Count(Seqs.Map(logs, ActionOf), slices[k].name)
      && slices[k].value >= 1
      && slices[k].color == ActionColor(palette, slices[k].name)
    ensures Charts.SumValues(slices) == |logs|
    ensures slices == [] <==> logs == []
  {
    Charts.PieOf(Seqs.Map(logs, ActionOf), ColorOf(palette))
  }

  /** "No audit logs available" replaces the chart exactly when there is no log. */
  predicate ShowsPlaceholder(logs: seq<LogRow>, palette: map<string, string>) {
    PieData(logs, palette) == []
  }

  lemma PlaceholderIffNoLogs(logs: seq<LogRow>, palette: map<string, string>)
    ensures ShowsPlaceholder(logs, palette) <==> logs == []
    ensures !ShowsPlaceholder(logs, palette) ==> Charts.SumValues(PieData(logs, palette)) == |logs|
  {
  }

  /** The slices name the same actions as the table's action filter, in the same order. */
  lemma SlicesAreActionOptions(logs: seq<LogRow>, palette: map<string, string>)
    ensures |PieData(logs, palette)| == |AuditLogsTable.UniqueActions(logs)|
    ensures forall k :: 0 <= k < |PieData(logs, palette)| ==>
      PieData(logs, palette)[k].name == AuditLogsTable.UniqueActions(logs)[k]
  {
    assert Seqs.Map(logs, ActionOf) == seq(|logs|, j requires 0 <= j < |logs| => logs[j].action);
  }

  /** Choosing a slice's action in the table's filter shows as many logs as the slice counts. */
  lemma SliceMatchesActionFilter(logs: seq<LogRow>, palette: map<string, string>, k: nat)
    requires k < |PieData(logs, palette)|
    requires PieData(logs, palette)[k].name != AuditLogsTable.All
    ensures
      var n := PieData(logs, palette)[k].name;
      |AuditLogsTable.Filtered(logs, "", n)| == PieData(logs, palette)[k].value
  {
    var n := PieData(logs, palette)[k].name;
    ActionFilterKeepsAction(logs, n);
    Seqs.FilterCountsImage(logs, AuditLogsTable.Test("", n), ActionOf, n);
  }

  /** With no search term, the action filter keeps exactly the logs of that action. */
  lemma ActionFilterKeepsAction(logs: seq<LogRow>, n: string)
    requires n != AuditLogsTable.All
    ensures forall i :: 0 <= i < |logs| ==> (AuditLogsTable.Test("", n)(logs[i]) <==> ActionOf(logs[i]) == n)
  {
  }

  /** The legend's text: every underscore of the action shown as a space. */
  function LegendText(action: string): (t: string)
    ensures |t| == |action| && '_' !in t
    ensures forall i :: 0 <= i < |action| ==> t[i] == (if action[i] == '_' then ' ' else action[i])
  {
    Text.ReplaceAll(action, '_', ' ')
  }

  /** Actions written without spaces keep different legend entries. */
  lemma LegendTextInjective(a: string, b: string)
    requires ' ' !in a && ' ' !in b && LegendText(a) == LegendText(b)
    ensures a == b
  {
    Text.ReplaceAllInjective(a, b, '_', ' ');
  }
}

/**
 * The three cards above the audit logs: how many logs, how many distinct
 * users they carry, and the time of the first (newest) log.
 */
module AuditLogsStats {
  import opened Wrappers
  import Seqs
  import opened Http
  import Domain
  import AuthMiddleware
  import AuditLogsTable
  import AuditController
  import AuditLogSchema

  type LogRow = AuditLogsTable.LogRow

  /** `log.user?._id`: missing when the log carries no user object, or the object has no id. */
  function UserIdOf(l: LogRow): Option<nat> {
    if l.user.Some? then l.user.value.id else None
  }

  datatype Stats = Stats(totalActions: nat, activeUsers: nat, lastActivity: Option<nat>)

  /**
   * `totalLogs`, `activeUsers` (the size of the set of user ids, where a
   * missing id is one more value) and `lastUpdated` (the first log's time).
   */
  function StatsOf(logs: seq<LogRow>): (s: Stats)
    ensures s.totalActions == |logs|
    ensures s.activeUsers == |set l | l in logs :: UserIdOf(l)|
    ensures s.activeUsers <= s.totalActions
    ensures s.activeUsers == 0 <==> logs == []
    ensures s.lastActivity.None? <==> logs == []
    ensures logs != [] ==> s.lastActivity == Some(logs[0].createdAt)
  {
    var ids := Seqs.Map(logs, UserIdOf);
    Seqs.DedupCard(ids);
    assert (set x | x in ids) == (set l | l in logs :: UserIdOf(l)) by {
      forall l | l in logs ensures UserIdOf(l) in ids {
        var i :| 0 <= i < |logs| && logs[i] == l;
        assert ids[i] == UserIdOf(l);
      }
    }
    assert logs != [] ==> ids[0] in Seqs.Dedup(ids);
    Stats(|logs|, |Seqs.Dedup(ids)|, if logs == [] then None else Some(logs[0].createdAt))
  }

  /** The "Last Activity" card: the formatted time, or "N/A". The date formatting is a parameter. */
  function LastActivityText(s: Stats, format: nat -> string): (t: string)
    ensures s.lastActivity.None? ==> t == "N/A"
    ensures s.lastActivity.Some? ==> t == format(s.lastActivity.value)
  {
    if s.lastActivity.Some? then format(s.lastActivity.value) else "N/A"
  }

  /** The page's logs: the body of a successful answer, otherwise none. */
  function ServedRows(r: Response<seq<AuditController.AuditView>>): (logs: seq<LogRow>)
    ensures r.Failure? ==> logs == []
    ensures r.Reply? ==> |logs| == |r.body| && forall k :: 0 <= k < |logs| ==> logs[k] == AuditLogsTable.RowOfView(r.body[k])
  {
    if r.Reply? then Seqs.Map(r.body, AuditLogsTable.RowOfView) else []
  }

  /** Logs without a user id all count as one more "user": `new Set([undefined, ...]).size` counts `undefined` once. */
  lemma UserlessLogsCountOnce(logs: seq<LogRow>)
    requires forall i :: 0 <= i < |logs| ==> UserIdOf(logs[i]).None?
    ensures StatsOf(logs).activeUsers == if logs == [] then 0 else 1
  {
    if logs != [] {
      assert (set l | l in logs :: UserIdOf(l)) == {None} by {
        assert UserIdOf(logs[0]) == None;
      }
    }
  }

  /**
   * The regional branch projects the joined user away, so however many
   * users acted, the "Active Users" card shows 1 for any non-empty answer.
   */
  lemma RegionalLogsShowOneActiveUser(caller: AuthMiddleware.ReqUser, st: Domain.Store, fault: Option<string>, env: Env)
    requires caller.region != AuditController.GlobalRegion
    ensures
      var logs := ServedRows(AuditController.GetAuditLogs(caller, st, fault, env));
      StatsOf(logs).activeUsers == if logs == [] then 0 else 1
  {
    var r := AuditController.GetAuditLogs(caller, st, fault, env);
    var logs := ServedRows(r);
    forall i | 0 <= i < |logs| ensures UserIdOf(logs[i]).None? {
      assert logs[i] == AuditLogsTable.RowOfView(r.body[i]);
    }
    UserlessLogsCountOnce(logs);
  }

  /** The id the card reads from a log served to a global caller: its owner's id, or nothing for an orphan. */
  function OwnerId(users: seq<Domain.User>, rec: Domain.AuditRecord): (id: Option<nat>)
    ensures id.Some? ==> id.value == rec.userId
    ensures id.None? <==> forall i :: 0 <= i < |users| ==> users[i].id != rec.userId
  {
    if AuditLogSchema.UserOf(users, rec).Some? then Some(rec.userId) else None
  }

  lemma GlobalRowId(users: seq<Domain.User>, rec: Domain.AuditRecord)
    ensures UserIdOf(AuditLogsTable.RowOfView(AuditController.Populate(users, rec))) == OwnerId(users, rec)
  {
  }

  /**
   * A global caller's logs carry the populated `user`, so "Active Users"
   * counts the distinct owners of all stored logs, with every orphan log
   * adding one shared "undefined".
   */
  lemma {:induction false} GlobalActiveUsersCountOwners(caller: AuthMiddleware.ReqUser, st: Domain.Store, env: Env)
    requires caller.region == AuditController.GlobalRegion
    ensures
      var logs := ServedRows(AuditController.GetAuditLogs(caller, st, None, env));
      StatsOf(logs).activeUsers == |set a | a in st.audits :: OwnerId(st.users, a)|
  {
    var r := AuditController.GetAuditLogs(caller, st, None, env);
    var logs := ServedRows(r);
    RowIdsAreOwnerIds(st.users, st.audits, r.body, logs);
  }

  /** Rows made from populated views of `audits`, in any order, carry exactly the owner ids of `audits`. */
  lemma RowIdsAreOwnerIds(users: seq<Domain.User>, audits: seq<Domain.AuditRecord>,
                          body: seq<AuditController.AuditView>, logs: seq<LogRow>)
    requires multiset(AuditController.Records(body)) == multiset(audits)
    requires forall k :: 0 <= k < |body| ==> body[k] == AuditController.Populate(users, body[k].record)
    requires |logs| == |body| && forall k :: 0 <= k < |logs| ==> logs[k] == AuditLogsTable.RowOfView(body[k])
    ensures (set l | l in logs :: UserIdOf(l)) == (set a | a in audits :: OwnerId(users, a))
  {
    var recs := AuditController.Records(body);
    forall k | 0 <= k < |logs| ensures UserIdOf(logs[k]) == OwnerId(users, recs[k]) {
      GlobalRowId(users, recs[k]);
    }
    SameIds(users, audits, recs, logs);
  }

  /** Rows whose ids are the owner ids of a reordering of `audits` carry the same set of ids as `audits`. */
  lemma SameIds(users: seq<Domain.User>, audits: seq<Domain.AuditRecord>, recs: seq<Domain.AuditRecord>, logs: seq<LogRow>)
    requires multiset(recs) == multiset(audits)
    requires |logs| == |recs| && forall k :: 0 <= k < |logs| ==> UserIdOf(logs[k]) == OwnerId(users, recs[k])
    ensures (set l | l in logs :: UserIdOf(l)) == (set a | a in audits :: OwnerId(users, a))
  {
    forall l | l in logs ensures UserIdOf(l) in (set a | a in audits :: OwnerId(users, a)) {
      var k :| 0 <= k < |logs| && logs[k] == l;
      assert recs[k] in multiset(audits);
    }
    forall a | a in audits ensures OwnerId(users, a) in (set l | l in logs :: UserIdOf(l)) {
      assert a in multiset(recs);
      var k :| 0 <= k < |recs| && recs[k] == a;
      assert logs[k] in logs;
    }
  }

  /** Because the audit endpoint answers newest first, "Last Activity" is the latest time of any served log. */
  lemma LastActivityIsNewest(caller: AuthMiddleware.ReqUser, st: Domain.Store, env: Env)
    ensures
      var r := AuditController.GetAuditLogs(caller, st, None, env);
      var s := StatsOf(ServedRows(r));
      && (s.lastActivity.None? <==> r.body == [])
      && forall k :: 0 <= k < |r.body| ==> r.body[k].record.createdAt <= s.lastActivity.value
  {
    var r := AuditController.GetAuditLogs(caller, st, None, env);
    assert AuditController.NewestFirst(r.body);
  }
}
