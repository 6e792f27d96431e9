/**
 * Python's `collections.OrderedDict` as a sequence of (key, value) pairs in
 * insertion order. Assigning to a present key keeps its position; assigning
 * to a new key appends it; `popitem(last=False)` removes the first pair.
 */
module OrderedDict {

  /** Position of key k, or -1 when it is absent. */
  function IndexOf<K(==), V>(d: seq<(K, V)>, k: K): (i: int)
    ensures -1 <= i < |d|
    ensures i >= 0 ==> d[i].0 == k && forall j :: 0 <= j < i ==> d[j].0 != k
    ensures i == -1 ==> forall j :: 0 <= j < |d| ==> d[j].0 != k
  {
    if d == [] then -1
    else if d[0].0 == k then 0
    else
      var i := IndexOf(d[1..], k);
      if i < 0 then -1 else i + 1
  }

  /** `k in d` */
  predicate Contains<K(==), V>(d: seq<(K, V)>, k: K)
  {
    IndexOf(d, k) >= 0
  }

  /** The keys, in insertion order. */
  function Keys<K, V>(d: seq<(K, V)>): (ks: seq<K>)
    ensures |ks| == |d| && forall i :: 0 <= i < |d| ==> ks[i] == d[i].0
  {
    seq(|d|, i requires 0 <= i < |d| => d[i].0)
  }

  /** `d[k] = v` */
  function Put<K(==), V>(d: seq<(K, V)>, k: K, v: V): (r: seq<(K, V)>)
    ensures Contains(d, k) ==> r == d[IndexOf(d, k) := (k, v)]
    ensures !Contains(d, k) ==> r == d + [(k, v)]
  {
    var i := IndexOf(d, k);
    if i >= 0 then d[i := (k, v)] else d + [(k, v)]
  }

  /** The pairs of d with distinct keys: then IndexOf finds the only occurrence. */
  ghost predicate DistinctKeys<K, V>(d: seq<(K, V)>)
  {
    forall i, j :: 0 <= i < j < |d| ==> d[i].0 != d[j].0
  }

  /**
   * What `d[k] = v` means for a dictionary: k then holds v, every other key
   * keeps its value and its place, and a new key lands at the end.
   */
  lemma {:induction false} PutSemantics<K, V>(d: seq<(K, V)>, k: K, v: V)
    requires DistinctKeys(d)
    ensures var r := Put(d, k, v);
      && DistinctKeys(r)
      && |r| == (if Contains(d, k) then |d| else |d| + 1)
      && Keys(r)[..|d|] == Keys(d)
      && IndexOf(r, k) >= 0 && r[IndexOf(r, k)] == (k, v)
      && forall i :: 0 <= i < |d| && d[i].0 != k ==> r[i] == d[i]
  {
    var r := Put(d, k, v);
    if Contains(d, k) {
      var i := IndexOf(d, k);
      var a := IndexOf(r, k);
      assert r[i].0 == k;
      assert a != -1 && !(a > i);
    } else {
      assert r[|d|] == (k, v);
      assert IndexOf(r, k) == |d|;
    }
  }
}
