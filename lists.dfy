/**
 * The array searches the repositories use: `findIndex` and `find` on a record's id.
 */
module Lists {
  import opened Wrappers

  /** `findIndex` on a key: the first position whose key matches, or -1. */
  function FindIndex<T>(xs: seq<T>, key: T -> string, k: string): (i: int)
    ensures -1 <= i < |xs|
    ensures i >= 0 ==> key(xs[i]) == k
    ensures forall j :: 0 <= j < |xs| && (i == -1 || j < i) ==> key(xs[j]) != k
  {
    if xs == [] then -1
    else if key(xs[0]) == k then 0
    else
      var r := FindIndex(xs[1..], key, k);
      if r == -1 then -1 else r + 1
  }

  /** `find` on a key: the first matching record, or undefined. */
  function Find<T>(xs: seq<T>, key: T -> string, k: string): (r: Option<T>)
    ensures r.Some? <==> FindIndex(xs, key, k) >= 0
    ensures r.Some? ==> r.value == xs[FindIndex(xs, key, k)]
  {
    var i := FindIndex(xs, key, k);
    if i == -1 then None else Some(xs[i])
  }

  /** The search depends only on the keys: two lists with the same keys in the same places agree. */
  lemma FindIndexSameKeys<T>(a: seq<T>, b: seq<T>, key: T -> string, k: string)
    requires |a| == |b| && forall j :: 0 <= j < |a| ==> key(a[j]) == key(b[j])
    ensures FindIndex(b, key, k) == FindIndex(a, key, k)
  {
    var i, m := FindIndex(a, key, k), FindIndex(b, key, k);
    if i != -1 {
      assert key(b[i]) == k;
    }
    if m != -1 {
      assert key(a[m]) == k;
    }
  }
}
