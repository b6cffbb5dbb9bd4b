/**
 * The order of a Go `for k := range m` loop: unspecified, so the model takes it as a
 * parameter; all it may assume is that every key comes exactly once.
 */
module MapOrder {
  /** `order` names every key exactly once and nothing else. */
  ghost predicate Enumerates(order: seq<int>, keys: set<int>) {
    forall k :: multiset(order)[k] == if k in keys then 1 else 0
  }

  lemma EnumeratesMembers(order: seq<int>, keys: set<int>)
    requires Enumerates(order, keys)
    ensures forall k :: k in order <==> k in keys
  {
    forall k
      ensures k in order <==> k in keys
    {
      assert multiset(order)[k] == if k in keys then 1 else 0;
    }
  }

  /** No key comes twice. */
  lemma EnumeratesDistinct(order: seq<int>, keys: set<int>)
    requires Enumerates(order, keys)
    ensures forall i, j :: 0 <= i < j < |order| ==> order[i] != order[j]
  {
    forall i, j | 0 <= i < j < |order|
      ensures order[i] != order[j]
    {
      var v := order[j];
      assert order == order[..j] + order[j..];
      assert order[..j][i] == order[i];
      assert multiset(order[..j])[order[i]] >= 1;
      assert multiset(order[j..])[v] >= 1 by { assert order[j..][0] == v; }
      assert multiset(order) == multiset(order[..j]) + multiset(order[j..]);
      assert order[i] == v ==> multiset(order)[v] >= 2;
      assert multiset(order)[v] <= 1;
    }
  }
}
