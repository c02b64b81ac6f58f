/**
 * Python dictionaries keyed by strings. A dictionary iterates in insertion
 * order, so it is a sequence of (key, value) entries; `d[k]`, `k in d` and
 * `d.get(k)` look at the first entry with key `k`, which is the only one in a
 * dictionary whose keys are unique.
 */
module Dicts {
  import opened Wrappers

  type Dict<V> = seq<(string, V)>

  /** The position of the entry for `k`, if any. */
  function IndexOf<V>(d: Dict<V>, k: string): (r: Option<nat>)
    ensures r.Some? ==> r.value < |d| && d[r.value].0 == k
    ensures r.Some? ==> forall j :: 0 <= j < r.value ==> d[j].0 != k
    ensures r.None? <==> forall j :: 0 <= j < |d| ==> d[j].0 != k
    decreases |d|
  {
    if |d| == 0 then None
    else if d[0].0 == k then Some(0)
    else match IndexOf(d[1..], k)
      case None => None
      case Some(i) => Some(i + 1)
  }

  /** `k in d`. */
  predicate HasKey<V>(d: Dict<V>, k: string) {
    IndexOf(d, k).Some?
  }

  /** `d.get(k)`. */
  function Get<V>(d: Dict<V>, k: string): (r: Option<V>)
    ensures r.Some? <==> HasKey(d, k)
    ensures r.Some? ==> r.value == d[IndexOf(d, k).value].1
  {
    match IndexOf(d, k)
    case None => None
    case Some(i) => Some(d[i].1)
  }

  /** `d[k] = v` for a key already present: the entry keeps its place. */
  function Put<V>(d: Dict<V>, k: string, v: V): (r: Dict<V>)
    requires HasKey(d, k)
    ensures |r| == |d| && Keys(r) == Keys(d)
    ensures Get(r, k) == Some(v)
    ensures forall j :: 0 <= j < |d| && j != IndexOf(d, k).value ==> r[j] == d[j]
  {
    var i := IndexOf(d, k).value;
    var r := d[i := (k, v)];
    assert Keys(r) == Keys(d);
    SameKeysSameIndex(r, d, k);
    r
  }

  /** `list(d.keys())`. */
  function Keys<V>(d: Dict<V>): (r: seq<string>)
    ensures |r| == |d| && forall j :: 0 <= j < |d| ==> r[j] == d[j].0
  {
    seq(|d|, j requires 0 <= j < |d| => d[j].0)
  }

  /** `list(d.values())`. */
  function Values<V>(d: Dict<V>): (r: seq<V>)
    ensures |r| == |d| && forall j :: 0 <= j < |d| ==> r[j] == d[j].1
  {
    seq(|d|, j requires 0 <= j < |d| => d[j].1)
  }

  /** A key is present exactly when it is among the keys. */
  lemma HasKeyInKeys<V>(d: Dict<V>, k: string)
    ensures HasKey(d, k) <==> k in Keys(d)
  {
    if k in Keys(d) {
      var j :| 0 <= j < |Keys(d)| && Keys(d)[j] == k;
      assert d[j].0 == k;
    }
  }

  /** Lookups depend on the keys only, so a dictionary with the same keys answers `in` alike. */
  lemma {:induction false} SameKeysSameIndex<V, W>(d: Dict<V>, e: Dict<W>, k: string)
    requires Keys(d) == Keys(e)
    ensures IndexOf(d, k) == IndexOf(e, k)
    decreases |d|
  {
    if |d| > 0 {
      assert d[0].0 == Keys(d)[0] == Keys(e)[0] == e[0].0;
      assert Keys(d[1..]) == Keys(d)[1..];
      assert Keys(e[1..]) == Keys(e)[1..];
      SameKeysSameIndex(d[1..], e[1..], k);
    } else {
      assert |e| == |Keys(e)| == 0;
    }
  }

  /** Writing a key twice keeps only the second value. */
  lemma PutPut<V>(d: Dict<V>, k: string, v: V, w: V)
    requires HasKey(d, k)
    ensures HasKey(Put(d, k, v), k)
    ensures Put(Put(d, k, v), k, w) == Put(d, k, w)
  {
    SameKeysSameIndex(Put(d, k, v), d, k);
  }
}
