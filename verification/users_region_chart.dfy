/**
 * The users-per-region bar chart: the statistics' region distribution,
 * largest count first.
 */
module UsersRegionChart {
  import opened Wrappers
  import Seqs
  import Sorting
  import opened Domain
  import AuthController

  type Bar = Seqs.Entry<string>

  function BarCount(b: Bar): nat {
    b.count
  }

  /**
   * `[...data].sort((a, b) => b.count - a.count)`: the same bars, largest
   * count first; the sort is stable, so bars of equal count keep the order
   * they arrived in.
   */
  function SortedData(data: seq<Bar>): (bars: seq<Bar>)
    ensures multiset(bars) == multiset(data)
    ensures Sorting.SortedDesc(bars, BarCount)
    ensures forall c: nat :: Sorting.WithKey(bars, BarCount, c) == Sorting.WithKey(data, BarCount, c)
  {
    forall c: nat ensures Sorting.WithKey(Sorting.SortDesc(data, BarCount), BarCount, c) == Sorting.WithKey(data, BarCount, c) {
      Sorting.SortStable(data, BarCount, c);
    }
    Sorting.SortDesc(data, BarCount)
  }

  /**
   * Fed with the server's statistics, the chart has one bar per region of
   * the stored users, each counting that region's users.
   */
  lemma ServerBarsCountUsers(users: seq<User>)
    ensures
      var bars := SortedData(AuthController.GetUserStats(users, None).body.regionDistribution);
      var regions := AuthController.Regions(users);
      && |bars| == |Seqs.Dedup(regions)|
      && (forall k :: 0 <= k < |bars| ==> bars[k].key in regions && bars[k].count == Seqs.Count(regions, bars[k].key) >= 1)
      && (forall i :: 0 <= i < |users| ==> exists k :: 0 <= k < |bars| && bars[k].key == users[i].region)
  {
    var regions := AuthController.Regions(users);
    var dist := AuthController.GetUserStats(users, None).body.regionDistribution;
    assert dist == Seqs.Tally(regions);
    TallyReordered(regions, SortedData(dist));
    forall i | 0 <= i < |users| ensures users[i].region in regions {
      assert regions[i] == users[i].region;
    }
  }

  /** Any reordering of a count's buckets: one bucket per distinct key, each with its count, every key present. */
  lemma TallyReordered(keys: seq<string>, bars: seq<Bar>)
    requires multiset(bars) == multiset(Seqs.Tally(keys))
    ensures |bars| == |Seqs.Dedup(keys)|
    ensures forall k :: 0 <= k < |bars| ==> bars[k].key in keys && bars[k].count == Seqs.Count(keys, bars[k].key) >= 1
    ensures forall x :: x in keys ==> exists k :: 0 <= k < |bars| && bars[k].key == x
  {
    var tally := Seqs.Tally(keys);
    Seqs.TallyBuckets(keys);
    assert |multiset(bars)| == |multiset(tally)|;
    BarsFromBuckets(keys, Seqs.Dedup(keys), tally, bars);
    BucketsInBars(keys, Seqs.Dedup(keys), tally, bars);
  }

  /** Every bar is one of the buckets, so it carries a key and that key's count. */
  lemma BarsFromBuckets(keys: seq<string>, distinct: seq<string>, tally: seq<Bar>, bars: seq<Bar>)
    requires multiset(bars) == multiset(tally)
    requires |tally| == |distinct|
    requires forall j :: 0 <= j < |distinct| ==> distinct[j] in keys
    requires forall j :: 0 <= j < |tally| ==> tally[j].key == distinct[j] && tally[j].count == Seqs.Count(keys, distinct[j]) >= 1
    ensures forall k :: 0 <= k < |bars| ==> bars[k].key in keys && bars[k].count == Seqs.Count(keys, bars[k].key) >= 1
  {
    forall k | 0 <= k < |bars|
      ensures bars[k].key in keys && bars[k].count == Seqs.Count(keys, bars[k].key) >= 1
    {
      assert bars[k] in multiset(tally);
      var j :| 0 <= j < |tally| && tally[j] == bars[k];
      assert distinct[j] in keys;
    }
  }

  /** Every key has its bucket among the bars. */
  lemma BucketsInBars(keys: seq<string>, distinct: seq<string>, tally: seq<Bar>, bars: seq<Bar>)
    requires multiset(bars) == multiset(tally)
    requires |tally| == |distinct|
    requires forall x :: x in keys ==> x in distinct
    requires forall j :: 0 <= j < |tally| ==> tally[j].key == distinct[j]
    ensures forall x :: x in keys ==> exists k :: 0 <= k < |bars| && bars[k].key == x
  {
    forall x | x in keys ensures exists k :: 0 <= k < |bars| && bars[k].key == x {
      var j :| 0 <= j < |distinct| && distinct[j] == x;
      assert tally[j] in multiset(bars);
      var k :| 0 <= k < |bars| && bars[k] == tally[j];
      assert bars[k].key == x;
    }
  }
}
