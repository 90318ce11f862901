/**
 * The transaction status pie: one slice per status value, in order of first
 * appearance, coloured by status.
 */
module StatusPieChart {
  import opened Wrappers
  import opened ClientRows
  import Seqs
  import Charts
  import TransactionsTable

  type Slice = Charts.Slice

  /** `getStatusColor`. */
  function StatusColor(status: string): (c: string)
    ensures status == "completed" ==> c == "#4CAF50"
    ensures status == "pending" ==> c == "#FFC107"
    ensures status == "rejected" ==> c == "#F44336"
    ensures status != "completed" && status != "pending" && status != "rejected" ==> c == "#9E9E9E"
  {
    if status == "completed" then "#4CAF50"
    else if status == "pending" then "#FFC107"
    else if status == "rejected" then "#F44336"
    else "#9E9E9E"
  }

  /** The key a row is counted under: its status, or "undefined" when it has none. */
  function StatusKey(t: TxRow): string {
    KeyText(t.status)
  }

  /** `pieData`: the status counts of `reduce` as slices, in `Object.entries` order. */
  function PieData(txs: seq<TxRow>): (slices: seq<Slice>)
    ensures |slices| == |Seqs.Dedup(Seqs.Map(txs, StatusKey))|
    ensures forall k :: 0 <= k < |slices| ==>
      && slices[k].name == Seqs.Dedup(Seqs.Map(txs, StatusKey))[k]
      && slices[k].value == Seqs.Count(Seqs.Map(txs, StatusKey), slices[k].name)
      && slices[k].value >= 1
      && slices[k].color == StatusColor(slices[k].name)
  {
    Charts.PieOf(Seqs.Map(txs, StatusKey), StatusColor)
  }

  /** The slices add up to the number of transactions. */
  lemma PieCoversAll(txs: seq<TxRow>)
    ensures Charts.SumValues(PieData(txs)) == |txs|
  {
  }

  /**
   * A slice and the table's status filter agree: choosing the slice's
   * status in the table keeps as many rows as the slice counts.
   */
  lemma SliceMatchesStatusFilter(txs: seq<TxRow>, k: nat)
    requires k < |PieData(txs)|
    requires PieData(txs)[k].name != "undefined" && PieData(txs)[k].name != TransactionsTable.All
    ensures
      var n := PieData(txs)[k].name;
      |TransactionsTable.Filtered(txs, TransactionsTable.NoFilters.(status := n))| == PieData(txs)[k].value
  {
    var n := PieData(txs)[k].name;
    var f := TransactionsTable.NoFilters.(status := n);
    StatusFilterKeepsStatus(txs, n);
    Seqs.FilterCountsImage(txs, TransactionsTable.Test(f), StatusKey, n);
  }

  /** Filtering on a status name other than "undefined" keeps exactly the rows counted under it. */
  lemma StatusFilterKeepsStatus(txs: seq<TxRow>, n: string)
    requires n != "undefined" && n != TransactionsTable.All
    ensures forall i :: 0 <= i < |txs| ==>
      (TransactionsTable.Test(TransactionsTable.NoFilters.(status := n))(txs[i]) <==> StatusKey(txs[i]) == n)
  {
  }
}

/**
 * The transactions-per-region bar chart: one bar per region value, in order
 * of first appearance.
 */
module TxRegionBarChart {
  import opened Wrappers
  import opened ClientRows
  import Seqs
  import TransactionsTable
  import Charts

  /** A bar: the region's name (`key`) and its number of transactions. */
  type Bar = Seqs.Entry<string>

  function RegionKey(t: TxRow): string {
    KeyText(t.region)
  }

  /**
   * `prepareBarData`: the region counts of `reduce` as bars, in
   * `Object.entries` order. Every region is taken as a fresh own key of the
   * accumulator; names inherited from `Object.prototype` and the
   * integer-first key order are not part of this model.
   */
  function BarData(txs: seq<TxRow>): (bars: seq<Bar>)
    ensures |bars| == |Seqs.Dedup(Seqs.Map(txs, RegionKey))|
    ensures forall k :: 0 <= k < |bars| ==>
      && bars[k].key == Seqs.Dedup(Seqs.Map(txs, RegionKey))[k]
      && bars[k].count == Seqs.Count(Seqs.Map(txs, RegionKey), bars[k].key)
      && bars[k].count >= 1
    ensures Seqs.SumCounts(bars) == |txs|
    ensures bars == [] <==> txs == []
  {
    Charts.Counts(Seqs.Map(txs, RegionKey))
  }

  /** A row without a region is counted under the name "undefined". */
  lemma MissingRegionCountedAsUndefined(txs: seq<TxRow>, j: nat)
    requires j < |txs| && txs[j].region.None?
    ensures exists k :: 0 <= k < |BarData(txs)| && BarData(txs)[k].key == "undefined"
  {
    var keys := Seqs.Map(txs, RegionKey);
    assert keys[j] == "undefined";
    var k :| 0 <= k < |Seqs.Dedup(keys)| && Seqs.Dedup(keys)[k] == "undefined";
    assert BarData(txs)[k].key == "undefined";
  }

  /** A bar and the table's region filter agree on the number of rows. */
  lemma BarMatchesRegionFilter(txs: seq<TxRow>, k: nat)
    requires k < |BarData(txs)|
    requires BarData(txs)[k].key != "undefined" && BarData(txs)[k].key != TransactionsTable.All
    ensures
      var n := BarData(txs)[k].key;
      |TransactionsTable.Filtered(txs, TransactionsTable.NoFilters.(region := n))| == BarData(txs)[k].count
  {
    var n := BarData(txs)[k].key;
    var f := TransactionsTable.NoFilters.(region := n);
    RegionFilterKeepsRegion(txs, n);
    Seqs.FilterCountsImage(txs, TransactionsTable.Test(f), RegionKey, n);
  }

  /** Filtering on a region name other than "undefined" keeps exactly the rows counted under it. */
  lemma RegionFilterKeepsRegion(txs: seq<TxRow>, n: string)
    requires n != "undefined" && n != TransactionsTable.All
    ensures forall i :: 0 <= i < |txs| ==>
      (TransactionsTable.Test(TransactionsTable.NoFilters.(region := n))(txs[i]) <==> RegionKey(txs[i]) == n)
  {
  }
}

/**
 * The top-senders bar chart: transactions grouped by sender, the groups
 * ordered by size (largest first, ties in order of first appearance), the
 * first eight shown.
 */
module TopSendersChart {
  import opened Wrappers
  import opened ClientRows
  import Seqs
  import Sorting
  import Text

  const MaxBars: nat := 8

  /** The grouping key: `transaction.sender._id || transaction.sender`, or no key when the sender is falsy. */
  function SenderKey(p: Party): (k: Option<string>)
    ensures p.Absent? ==> k.None?
    ensures p.Ref? ==> (k.Some? <==> p.id != "") && (k.Some? ==> k.value == p.id)
    ensures p.Populated? && p.id != "" ==> k == Some(p.id)
    ensures p.Populated? && p.id == "" ==> k == Some("[object Object]")
  {
    match p
    case Absent => None
    case Ref(id) => if id != "" then Some(id) else None
    case Populated(id, _, _) => if id != "" then Some(id) else Some("[object Object]")
  }

  predicate Counted(t: TxRow) {
    SenderKey(t.sender).Some?
  }

  function Key(t: TxRow): string {
    SenderKey(t.sender).GetOr("")
  }

  /** The transactions the `reduce` counts, in order. */
  function Senders(txs: seq<TxRow>): (ss: seq<TxRow>)
    ensures |ss| <= |txs|
    ensures forall i :: 0 <= i < |ss| ==> ss[i] in txs && Counted(ss[i])
    ensures forall i :: 0 <= i < |txs| && Counted(txs[i]) ==> txs[i] in ss
  {
    var ss := Seqs.Filter(txs, Counted);
    Seqs.SubseqLength(ss, txs);
    ss
  }

  function SenderKeys(txs: seq<TxRow>): seq<string> {
    Seqs.Map(Senders(txs), Key)
  }

  /** An accumulator entry: the key, how many transactions carry it, and the first sender seen with it. */
  datatype Group = Group(key: string, count: nat, sender: Party)

  function GroupCount(g: Group): nat {
    g.count
  }

  /** The sender of the first counted transaction that carries `key`. */
  function FirstSender(keys: seq<string>, ss: seq<TxRow>, key: string): Party
    requires |keys| == |ss| && key in keys
  {
    ss[Seqs.FirstIndex(keys, key)].sender
  }

  /** The accumulator's entries: a bucket's key and count with the first sender seen under the key. */
  function GroupsFrom(tally: seq<Seqs.Entry<string>>, keys: seq<string>, ss: seq<TxRow>): (gs: seq<Group>)
    requires |keys| == |ss|
    requires forall k :: 0 <= k < |tally| ==> tally[k].key in keys
    ensures |gs| == |tally|
    ensures forall k :: 0 <= k < |tally| ==>
      gs[k] == Group(tally[k].key, tally[k].count, FirstSender(keys, ss, tally[k].key))
  {
    seq(|tally|, k requires 0 <= k < |tally| => Group(tally[k].key, tally[k].count, FirstSender(keys, ss, tally[k].key)))
  }

  /** One group per distinct key, in order of first appearance, with its count and first sender. */
  function GroupsOf(keys: seq<string>, ss: seq<TxRow>): (gs: seq<Group>)
    requires |keys| == |ss|
    ensures |gs| == |Seqs.Dedup(keys)|
    ensures forall k :: 0 <= k < |gs| ==>
      && gs[k].key == Seqs.Dedup(keys)[k]
      && gs[k].count == Seqs.Count(keys, gs[k].key) >= 1
      && gs[k].sender == FirstSender(keys, ss, gs[k].key)
  {
    GroupsOfTally(keys, ss);
    GroupsFrom(Seqs.Tally(keys), keys, ss)
  }

  lemma GroupsOfTally(keys: seq<string>, ss: seq<TxRow>)
    requires |keys| == |ss|
    ensures forall k :: 0 <= k < |Seqs.Tally(keys)| ==> Seqs.Tally(keys)[k].key in keys
    ensures
      var gs := GroupsFrom(Seqs.Tally(keys), keys, ss);
      && |gs| == |Seqs.Dedup(keys)|
      && forall k :: 0 <= k < |gs| ==>
        && gs[k].key == Seqs.Dedup(keys)[k]
        && gs[k].count == Seqs.Count(keys, gs[k].key) >= 1
        && gs[k].sender == FirstSender(keys, ss, gs[k].key)
  {
    var d := Seqs.Dedup(keys);
    var tally := Seqs.Tally(keys);
    Seqs.TallyBuckets(keys);
    assert forall k :: 0 <= k < |d| ==> d[k] in keys;
  }

  function Total(gs: seq<Group>): nat {
    if gs == [] then 0 else gs[0].count + Total(gs[1..])
  }

  lemma {:induction false} TotalOfGroups(tally: seq<Seqs.Entry<string>>, keys: seq<string>, ss: seq<TxRow>)
    requires |keys| == |ss|
    requires forall k :: 0 <= k < |tally| ==> tally[k].key in keys
    ensures Total(GroupsFrom(tally, keys, ss)) == Seqs.SumCounts(tally)
  {
    if tally != [] {
      TotalOfGroups(tally[1..], keys, ss);
      assert GroupsFrom(tally, keys, ss)[1..] == GroupsFrom(tally[1..], keys, ss);
    }
  }

  /** `Object.values(senderCounts)`: the groups of the counted transactions. */
  function Groups(txs: seq<TxRow>): seq<Group> {
    GroupsOf(SenderKeys(txs), Senders(txs))
  }

  /** The groups together count every transaction that has a sender, and no other. */
  lemma GroupsCountSenders(txs: seq<TxRow>)
    ensures Total(Groups(txs)) == |Senders(txs)| <= |txs|
  {
    var keys := SenderKeys(txs);
    var ss := Senders(txs);
    GroupsOfTally(keys, ss);
    assert Groups(txs) == GroupsFrom(Seqs.Tally(keys), keys, ss);
    TotalOfGroups(Seqs.Tally(keys), keys, ss);
  }

  /** Distinct groups have distinct keys. */
  lemma GroupKeysDistinct(txs: seq<TxRow>, i: nat, j: nat)
    requires i < j < |Groups(txs)|
    ensures Groups(txs)[i].key != Groups(txs)[j].key
  {
  }

  /** The groups the chart shows: the eight largest, largest first. */
  function TopGroups(txs: seq<TxRow>): (top: seq<Group>)
    ensures |top| == if |Groups(txs)| < MaxBars then |Groups(txs)| else MaxBars
    ensures Sorting.SortedDesc(top, GroupCount)
    ensures forall k :: 0 <= k < |top| ==> top[k] in Groups(txs)
    ensures forall g :: g in Groups(txs) && g !in top ==> forall k :: 0 <= k < |top| ==> top[k].count >= g.count
  {
    Sorting.Top(Groups(txs), GroupCount, MaxBars)
  }

  /** Ties keep their order: among equally large groups the sort changes nothing. */
  lemma SortKeepsTieOrder(txs: seq<TxRow>, c: nat)
    ensures Sorting.WithKey(Sorting.SortDesc(Groups(txs), GroupCount), GroupCount, c) ==
      Sorting.WithKey(Groups(txs), GroupCount, c)
  {
    Sorting.SortStable(Groups(txs), GroupCount, c);
  }

  /** `username?.charAt(0).toUpperCase()`. */
  function Avatar(username: Option<string>): (a: Option<string>)
    ensures username.None? ==> a.None?
    ensures username == Some("") ==> a == Some("")
    ensures username.Some? && username.value != "" ==> a == Some([Text.UpperChar(username.value[0])])
  {
    if username.None? then None
    else if username.value == "" then Some("")
    else Some([Text.UpperChar(username.value[0])])
  }

  datatype Bar = Bar(name: Option<string>, count: nat, avatar: Option<string>, role: Option<string>)

  /** `senderData`: a bar per shown group, from the group's first sender. */
  function SenderData(txs: seq<TxRow>): (bars: seq<Bar>)
    ensures |bars| <= MaxBars
    ensures |bars| == |TopGroups(txs)|
    ensures forall k :: 0 <= k < |bars| ==>
      && bars[k].count == TopGroups(txs)[k].count
      && bars[k].name == Username(TopGroups(txs)[k].sender)
      && bars[k].avatar == Avatar(bars[k].name)
      && bars[k].role == PartyRole(TopGroups(txs)[k].sender)
  {
    var top := TopGroups(txs);
    seq(|top|, k requires 0 <= k < |top| =>
      Bar(Username(top[k].sender), top[k].count, Avatar(Username(top[k].sender)), PartyRole(top[k].sender)))
  }

  /** The shown bars never count more transactions than there are. */
  lemma {:induction false} BarsCountTransactions(txs: seq<TxRow>, k: nat)
    requires k < |SenderData(txs)|
    ensures 1 <= SenderData(txs)[k].count <= |txs|
  {
    var g := TopGroups(txs)[k];
    assert g in Groups(txs);
    var i :| 0 <= i < |Groups(txs)| && Groups(txs)[i] == g;
    assert g.count == Seqs.Count(SenderKeys(txs), g.key);
    assert |SenderKeys(txs)| <= |txs|;
  }

  /** Senders populated without an id all fall into the single group "[object Object]". */
  lemma IdlessSendersShareAGroup(a: TxRow, b: TxRow)
    requires a.sender.Populated? && a.sender.id == "" && b.sender.Populated? && b.sender.id == ""
    ensures Counted(a) && Counted(b) && Key(a) == Key(b) == "[object Object]"
  {
  }

  /** A sender sent as a bare id is counted, but its bar has no name, avatar or role. */
  lemma BareIdBarIsBlank(txs: seq<TxRow>, k: nat)
    requires k < |SenderData(txs)| && TopGroups(txs)[k].sender.Ref?
    ensures SenderData(txs)[k].name.None? && SenderData(txs)[k].avatar.None? && SenderData(txs)[k].role.None?
  {
  }
}
