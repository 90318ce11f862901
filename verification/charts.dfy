/**
 * What the pie charts share: a slice per counted key, built from the
 * buckets of a `reduce` count in `Object.entries` order.
 */
module Charts {
  import Seqs

  datatype Slice = Slice(name: string, value: nat, color: string)

  /** One slice per bucket, coloured by its key. */
  function Slices(tally: seq<Seqs.Entry<string>>, color: string -> string): (slices: seq<Slice>)
    ensures |slices| == |tally|
    ensures forall k :: 0 <= k < |tally| ==>
      slices[k] == Slice(tally[k].key, tally[k].count, color(tally[k].key))
  {
    seq(|tally|, k requires 0 <= k < |tally| => Slice(tally[k].key, tally[k].count, color(tally[k].key)))
  }

  function SumValues(slices: seq<Slice>): nat {
    if slices == [] then 0 else slices[0].value + SumValues(slices[1..])
  }

  /** The slices add up to what the buckets add up to. */
  lemma {:induction false} SumValuesOfTally(tally: seq<Seqs.Entry<string>>, color: string -> string)
    ensures SumValues(Slices(tally, color)) == Seqs.SumCounts(tally)
  {
    if tally != [] {
      SumValuesOfTally(tally[1..], color);
      assert Slices(tally, color)[1..] == Slices(tally[1..], color);
    }
  }

  /**
   * The buckets of counting `keys` with `reduce`: one per distinct key, in
   * order of first appearance, each with its number of occurrences;
   * together they cover every key.
   */
  function Counts(keys: seq<string>): (es: seq<Seqs.Entry<string>>)
    ensures |es| == |Seqs.Dedup(keys)|
    ensures forall k :: 0 <= k < |es| ==>
      es[k].key == Seqs.Dedup(keys)[k] && es[k].count == Seqs.Count(keys, es[k].key) >= 1
    ensures Seqs.SumCounts(es) == |keys|
    ensures es == [] <==> keys == []
  {
    CountsOfTally(keys);
    Seqs.Tally(keys)
  }

  lemma CountsOfTally(keys: seq<string>)
    ensures |Seqs.Tally(keys)| == |Seqs.Dedup(keys)|
    ensures forall k :: 0 <= k < |Seqs.Tally(keys)| ==>
      Seqs.Tally(keys)[k].key == Seqs.Dedup(keys)[k] && Seqs.Tally(keys)[k].count == Seqs.Count(keys, Seqs.Tally(keys)[k].key) >= 1
    ensures Seqs.Tally(keys) == [] <==> keys == []
  {
    Seqs.TallyBuckets(keys);
    Seqs.TallyEmpty(keys);
  }

  /** The slices of counting `keys`, coloured by key. */
  function PieOf(keys: seq<string>, color: string -> string): (slices: seq<Slice>)
    ensures |slices| == |Seqs.Dedup(keys)|
    ensures forall k :: 0 <= k < |slices| ==>
      && slices[k].name == Seqs.Dedup(keys)[k]
      && slices[k].value == Seqs.Count(keys, slices[k].name)
      && slices[k].value >= 1
      && slices[k].color == color(slices[k].name)
    ensures SumValues(slices) == |keys|
    ensures slices == [] <==> keys == []
  {
    SumValuesOfTally(Counts(keys), color);
    Slices(Counts(keys), color)
  }
}
