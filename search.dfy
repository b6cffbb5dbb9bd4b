/**
 * The one lookup every table and grid of the console performs: the first row whose key is a
 * given value. gorm's `First(&row, "col = ?", v)` over a table and JavaScript's
 * `rows.find(r => r.col === v)` over a grid's data source both answer with it.
 */
module Search {
  import opened Wrappers

  /**
   * The index of the first element whose key is `k`, or none. A found index holds the key and
   * no earlier element does; none is found exactly when no element has the key.
   */
  function First<T, K(==)>(xs: seq<T>, key: T -> K, k: K): (r: Option<nat>)
    ensures r.Some? ==> r.value < |xs| && key(xs[r.value]) == k
    ensures r.Some? ==> forall j :: 0 <= j < r.value ==> key(xs[j]) != k
    ensures r.None? <==> forall j :: 0 <= j < |xs| ==> key(xs[j]) != k
  {
    if xs == [] then None
    else if key(xs[0]) == k then Some(0)
    else match First(xs[1..], key, k)
      case Some(i) => Some(i + 1)
      case None => None
  }

  /** The element at the first index with key `k`, or none (`find`'s answer). */
  function FirstElement<T, K(==)>(xs: seq<T>, key: T -> K, k: K): (r: Option<T>)
    ensures r.Some? ==> r.value in xs && key(r.value) == k
    ensures r.None? <==> forall j :: 0 <= j < |xs| ==> key(xs[j]) != k
  {
    match First(xs, key, k)
    case Some(i) => Some(xs[i])
    case None => None
  }

  /** An index that holds the key, with no earlier one that does, is what the search finds. */
  lemma FirstIsEarliestMatch<T, K>(xs: seq<T>, key: T -> K, k: K, i: nat)
    requires i < |xs| && key(xs[i]) == k
    requires forall j :: 0 <= j < i ==> key(xs[j]) != k
    ensures First(xs, key, k) == Some(i)
  {
    var r := First(xs, key, k);
    assert r.Some?;
    assert !(r.value < i);
  }

  /**
   * Searching a concatenation searches the first part, then the second: a match in `a` wins,
   * and otherwise the index is the one in `b`, shifted past `a`.
   */
  lemma FirstAppend<T, K>(a: seq<T>, b: seq<T>, key: T -> K, k: K)
    ensures First(a, key, k).Some? ==> First(a + b, key, k) == First(a, key, k)
    ensures First(a, key, k).None? && First(b, key, k).Some? ==>
              First(a + b, key, k) == Some(|a| + First(b, key, k).value)
    ensures First(a, key, k).None? && First(b, key, k).None? ==> First(a + b, key, k).None?
  {
    var ab, ra, rb := a + b, First(a, key, k), First(b, key, k);
    if ra.Some? {
      var i := ra.value;
      forall j | 0 <= j < i
        ensures key(ab[j]) != k
      {
        assert ab[j] == a[j];
      }
      assert ab[i] == a[i];
      FirstIsEarliestMatch(ab, key, k, i);
    } else if rb.Some? {
      var i := |a| + rb.value;
      forall j | 0 <= j < i
        ensures key(ab[j]) != k
      {
        if j < |a| {
          assert ab[j] == a[j];
        } else {
          assert ab[j] == b[j - |a|];
        }
      }
      assert ab[i] == b[rb.value];
      FirstIsEarliestMatch(ab, key, k, i);
    } else {
      forall j | 0 <= j < |ab|
        ensures key(ab[j]) != k
      {
        if j < |a| {
          assert ab[j] == a[j];
        } else {
          assert ab[j] == b[j - |a|];
        }
      }
    }
  }

  /**
   * Two tables whose rows carry the same keys, row by row, answer every search with the same
   * index: a write that leaves the key column alone does not change what a lookup finds.
   */
  lemma {:induction false} SameKeysSameFirst<T, K>(a: seq<T>, b: seq<T>, key: T -> K, k: K)
    requires |a| == |b| && forall j :: 0 <= j < |a| ==> key(a[j]) == key(b[j])
    ensures First(a, key, k) == First(b, key, k)
  {
    if a != [] && key(a[0]) != k {
      SameKeysSameFirst(a[1..], b[1..], key, k);
    }
  }

  /** When no two rows share a key (a primary key), the search finds the one row that has it. */
  lemma FirstOfUniqueKey<T, K>(xs: seq<T>, key: T -> K, j: nat)
    requires j < |xs| && forall i, l :: 0 <= i < l < |xs| ==> key(xs[i]) != key(xs[l])
    ensures First(xs, key, key(xs[j])) == Some(j)
  {
  }
}
