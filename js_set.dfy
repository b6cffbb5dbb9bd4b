/**
 * A JavaScript `Set` as the page controllers use it: a sequence without duplicates, kept in
 * insertion order (the order `Array.from(set)` and iteration observe). `add` of a present value
 * keeps its position; `delete` keeps the order of the rest.
 */
module JsSet {

  /** No value occurs twice. */
  ghost predicate NoDup<T>(s: seq<T>) {
    forall i, j :: 0 <= i < j < |s| ==> s[i] != s[j]
  }

  /** `set.add(x)`. */
  function Add<T(==,!new)>(s: seq<T>, x: T): (r: seq<T>)
    ensures forall y :: y in r <==> y in s || y == x
    ensures NoDup(s) ==> NoDup(r)
    ensures x in s ==> r == s
    ensures x !in s ==> r == s + [x]
  {
    if x in s then s else s + [x]
  }

  /** `set.delete(x)`. */
  function Delete<T(==,!new)>(s: seq<T>, x: T): (r: seq<T>)
    ensures forall y :: y in r <==> y in s && y != x
    ensures NoDup(s) ==> NoDup(r)
    ensures x !in s ==> r == s
    ensures |r| <= |s|
  {
    if s == [] then []
    else
      var rest := Delete(s[..|s| - 1], x);
      var last := s[|s| - 1];
      assert s == s[..|s| - 1] + [last];
      if last == x then rest
      else
        assert NoDup(s) ==> last !in s[..|s| - 1];
        rest + [last]
  }

  /** `xs.forEach(x => set.add(x))`. */
  function AddAll<T(==,!new)>(s: seq<T>, xs: seq<T>): (r: seq<T>)
    ensures forall y :: y in r <==> y in s || y in xs
    ensures NoDup(s) ==> NoDup(r)
  {
    if xs == [] then s
    else
      assert xs == xs[..|xs| - 1] + [xs[|xs| - 1]];
      Add(AddAll(s, xs[..|xs| - 1]), xs[|xs| - 1])
  }

  /** `xs.forEach(x => set.delete(x))`. */
  function DeleteAll<T(==,!new)>(s: seq<T>, xs: seq<T>): (r: seq<T>)
    ensures forall y :: y in r <==> y in s && y !in xs
    ensures NoDup(s) ==> NoDup(r)
  {
    if xs == [] then s
    else
      assert xs == xs[..|xs| - 1] + [xs[|xs| - 1]];
      Delete(DeleteAll(s, xs[..|xs| - 1]), xs[|xs| - 1])
  }

  /** `new Set(xs)`: the distinct values of `xs`, each at its first occurrence. */
  function FromSeq<T(==,!new)>(xs: seq<T>): (r: seq<T>)
    ensures forall y :: y in r <==> y in xs
    ensures NoDup(r)
  {
    AddAll([], xs)
  }

  /** Adding the values of `xs + ys` is adding those of `xs`, then those of `ys`. */
  lemma {:induction false} AddAllConcat<T(!new)>(s: seq<T>, xs: seq<T>, ys: seq<T>)
    ensures AddAll(s, xs + ys) == AddAll(AddAll(s, xs), ys)
  {
    if ys == [] {
      assert xs + ys == xs;
    } else {
      var zs := xs + ys;
      assert zs[..|zs| - 1] == xs + ys[..|ys| - 1];
      assert zs[|zs| - 1] == ys[|ys| - 1];
      AddAllConcat(s, xs, ys[..|ys| - 1]);
    }
  }

  /** A set built from values that are already distinct keeps them in their order. */
  lemma {:induction false} FromSeqOfDistinct<T(!new)>(xs: seq<T>)
    requires NoDup(xs)
    ensures FromSeq(xs) == xs
  {
    if xs != [] {
      var init := xs[..|xs| - 1];
      assert NoDup(init);
      FromSeqOfDistinct(init);
      assert xs[|xs| - 1] !in init;
      assert init + [xs[|xs| - 1]] == xs;
    }
  }

  /** Deleting a value just added to a set that lacked it gives the set back. */
  lemma DeleteUndoesAdd<T(!new)>(s: seq<T>, x: T)
    requires x !in s
    ensures Delete(Add(s, x), x) == s
  {
    assert (s + [x])[..|s|] == s;
  }

  /** `set.size`: a sequence without duplicates has as many values as its distinct members. */
  lemma {:induction false} SizeOfDistinct<T>(s: seq<T>)
    requires NoDup(s)
    ensures |(set x | x in s)| == |s|
  {
    if s != [] {
      var init := s[..|s| - 1];
      var last := s[|s| - 1];
      assert NoDup(init);
      SizeOfDistinct(init);
      assert s == init + [last];
      assert last !in init;
      assert (set x | x in s) == (set x | x in init) + {last};
    }
  }

  /** Two sets with the same members have the same size, whatever their order. */
  lemma SameMembersSameSize<T>(s: seq<T>, t: seq<T>)
    requires NoDup(s) && NoDup(t)
    requires forall i :: 0 <= i < |s| ==> s[i] in t
    requires forall j :: 0 <= j < |t| ==> t[j] in s
    ensures |s| == |t|
  {
    SizeOfDistinct(s);
    SizeOfDistinct(t);
    assert (set x | x in s) == (set x | x in t);
  }
}
