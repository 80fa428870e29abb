/** A Python dict with string keys, as the sequence of its entries in
    insertion order: assigning to an existing key keeps its place, a new key
    goes last, and `pop` closes the gap. */
module Dicts {
  import opened Optional

  type Dict<V> = seq<(string, V)>

  predicate HasKey<V>(d: Dict<V>, k: string) {
    exists i :: 0 <= i < |d| && d[i].0 == k
  }

  /** What a dict guarantees: no key twice. */
  predicate KeysDistinct<V>(d: Dict<V>) {
    forall i, j :: 0 <= i < j < |d| ==> d[i].0 != d[j].0
  }

  /** The position of key `k`. */
  function Find<V>(d: Dict<V>, k: string): (r: Option<nat>)
    ensures r.Some? <==> HasKey(d, k)
    ensures r.Some? ==> r.value < |d| && d[r.value].0 == k
    ensures r.Some? ==> forall j :: 0 <= j < r.value ==> d[j].0 != k
  {
    if d == [] then None
    else if d[0].0 == k then Some(0)
    else match Find(d[1..], k)
      case None => None
      case Some(i) => Some(i + 1)
  }

  /** `d.get(k)`. */
  function Get<V>(d: Dict<V>, k: string): (r: Option<V>)
    ensures r.Some? <==> HasKey(d, k)
    ensures r.Some? ==> (k, r.value) in d
  {
    match Find(d, k)
    case None => None
    case Some(i) => Some(d[i].1)
  }

  /** `d[k] = v`. */
  function Put<V>(d: Dict<V>, k: string, v: V): (r: Dict<V>)
    ensures HasKey(r, k)
    ensures !HasKey(d, k) ==> r == d + [(k, v)]
    ensures HasKey(d, k) ==>
              |r| == |d| && r[Find(d, k).value] == (k, v) &&
              forall j :: 0 <= j < |d| && j != Find(d, k).value ==> r[j] == d[j]
  {
    match Find(d, k)
    case None => assert (d + [(k, v)])[|d|].0 == k; d + [(k, v)]
    case Some(i) => assert d[i := (k, v)][i].0 == k; d[i := (k, v)]
  }

  /** `d.pop(k)` on a key that is present. */
  function Pop<V>(d: Dict<V>, k: string): (r: Dict<V>)
    requires HasKey(d, k)
    ensures |r| == |d| - 1
    ensures multiset(r) + multiset{d[Find(d, k).value]} == multiset(d)
    ensures forall j :: 0 <= j < |r| ==> r[j] == d[if j < Find(d, k).value then j else j + 1]
  {
    var i := Find(d, k).value;
    assert d == d[..i] + [d[i]] + d[i + 1..];
    d[..i] + d[i + 1..]
  }

  /** `list(d.values())`. */
  function Values<V>(d: Dict<V>): (r: seq<V>)
    ensures |r| == |d| && forall i :: 0 <= i < |d| ==> r[i] == d[i].1
  {
    if d == [] then [] else [d[0].1] + Values(d[1..])
  }

  /** After `d[k] = v`, `k` reads `v` and every other key reads as before. */
  lemma {:induction false} PutGet<V>(d: Dict<V>, k: string, v: V, k2: string)
    requires KeysDistinct(d)
    ensures KeysDistinct(Put(d, k, v))
    ensures Get(Put(d, k, v), k) == Some(v)
    ensures k2 != k ==> Get(Put(d, k, v), k2) == Get(d, k2)
  {
    var r := Put(d, k, v);
    PutDistinct(d, k, v);
    var i := if HasKey(d, k) then Find(d, k).value else |d|;
    assert r[i] == (k, v);
    if k2 != k && HasKey(d, k2) {
      var j := Find(d, k2).value;
      assert r[j] == d[j];
    }
  }

  /** `d[k] = v` keeps the keys distinct. */
  lemma {:induction false} PutDistinct<V>(d: Dict<V>, k: string, v: V)
    requires KeysDistinct(d)
    ensures KeysDistinct(Put(d, k, v))
    ensures forall j :: 0 <= j < |Put(d, k, v)| ==> Put(d, k, v)[j].0 == if j < |d| then d[j].0 else k
  {
  }

  /** After `d.pop(k)`, `k` is gone and every other key reads as before. */
  lemma {:induction false} PopGet<V>(d: Dict<V>, k: string, k2: string)
    requires KeysDistinct(d) && HasKey(d, k)
    ensures KeysDistinct(Pop(d, k))
    ensures !HasKey(Pop(d, k), k)
    ensures k2 != k ==> Get(Pop(d, k), k2) == Get(d, k2)
  {
    var i := Find(d, k).value;
    var r := Pop(d, k);
    if k2 != k && HasKey(d, k2) {
      var j := Find(d, k2).value;
      assert r[if j < i then j else j - 1] == d[j];
    }
  }

  /** The values after `d.pop(k)` are the values before, less the popped
      one, in their order. */
  lemma {:induction false} PopValues<V>(d: Dict<V>, k: string)
    requires HasKey(d, k)
    ensures var i := Find(d, k).value;
      Values(Pop(d, k)) == Values(d)[..i] + Values(d)[i + 1..]
  {
  }

  /** A new key's value goes last among the values. */
  lemma {:induction false} AppendValues<V>(d: Dict<V>, k: string, v: V)
    ensures Values(d + [(k, v)]) == Values(d) + [v]
  {
  }
}
