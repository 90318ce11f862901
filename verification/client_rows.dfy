/**
 * The records the dashboard receives from the server, as its components
 * read them. A transaction's `sender` and `receiver` arrive either as a bare
 * id or as a populated user object, and any field may be missing.
 */
module ClientRows {
  import opened Wrappers
  import Seqs

  /** A transaction party: missing, a bare id, or a populated user. */
  datatype Party =
    | Absent
    | Ref(id: string)
    | Populated(id: string, username: Option<string>, role: Option<string>)

  /** `party?.username`: only a populated party has one. */
  function Username(p: Party): (u: Option<string>)
    ensures u.Some? ==> p.Populated?
  {
    if p.Populated? then p.username else None
  }

  function PartyRole(p: Party): Option<string> {
    if p.Populated? then p.role else None
  }

  datatype TxRow = TxRow(
    id: string, amount: int, currencyFrom: string, sender: Party, receiver: Party,
    region: Option<string>, status: Option<string>, createdAt: nat)

  /** `Boolean(v)` for an optional string: present and non-empty. */
  predicate Truthy(v: Option<string>) {
    v.Some? && v.value != ""
  }

  /** The property key a value becomes in `acc[value]`: `undefined` is spelled out. */
  function KeyText(v: Option<string>): (k: string)
    ensures v.Some? ==> k == v.value
  {
    if v.Some? then v.value else "undefined"
  }

  /** The truthy values of a list, in order: what `v && set.add(v)` lets through. */
  function TruthyValues(vs: seq<Option<string>>): (r: seq<string>)
    ensures |r| <= |vs|
    ensures forall i :: 0 <= i < |r| ==> r[i] != "" && Some(r[i]) in vs
    ensures forall j :: 0 <= j < |vs| && Truthy(vs[j]) ==> vs[j].value in r
  {
    if vs == [] then []
    else
      var rest := TruthyValues(vs[1..]);
      assert forall i :: 0 <= i < |rest| ==> Some(rest[i]) in vs by {
        forall i | 0 <= i < |rest| ensures Some(rest[i]) in vs {
          assert Some(rest[i]) in vs[1..];
        }
      }
      assert forall j :: 1 <= j < |vs| && Truthy(vs[j]) ==> vs[j].value in rest by {
        forall j | 1 <= j < |vs| && Truthy(vs[j]) ensures vs[j].value in rest {
          assert vs[1..][j - 1] == vs[j];
        }
      }
      if Truthy(vs[0]) then [vs[0].value] + rest else rest
  }

  /** The distinct truthy values in order of first appearance: `Array.from(set)` after the `forEach`. */
  function DistinctTruthy(vs: seq<Option<string>>): (r: seq<string>)
    ensures Seqs.NoDups(r)
    ensures forall i :: 0 <= i < |r| ==> r[i] != "" && Some(r[i]) in vs
    ensures forall j :: 0 <= j < |vs| && Truthy(vs[j]) ==> vs[j].value in r
  {
    var t := TruthyValues(vs);
    var r := Seqs.Dedup(t);
    assert forall i :: 0 <= i < |r| ==> r[i] in t;
    r
  }
}
