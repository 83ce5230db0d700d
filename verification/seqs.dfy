/** Distinctness and first-seen de-duplication of sequences, the ordering Python
    dictionaries and "seen" sets give the rule compiler. */
module Seqs {

  predicate Distinct<T(==)>(xs: seq<T>) {
    forall i, j :: 0 <= i < j < |xs| ==> xs[i] != xs[j]
  }

  lemma ConcatAssoc<T>(x: seq<T>, y: seq<T>, z: seq<T>)
    ensures (x + y) + z == x + (y + z)
  {
  }

  /** The elements of `xs`, each once, in order of first appearance. */
  function Unique<T(==)>(xs: seq<T>): (u: seq<T>)
    ensures Distinct(u)
    ensures forall i :: 0 <= i < |u| ==> u[i] in xs
    ensures forall i :: 0 <= i < |xs| ==> xs[i] in u
  {
    if |xs| == 0 then []
    else
      var init := xs[..|xs| - 1];
      var x := xs[|xs| - 1];
      if x in init then Unique(init) else Unique(init) + [x]
  }

  lemma UniqueSnoc<T>(xs: seq<T>, x: T)
    ensures Unique(xs + [x]) == if x in xs then Unique(xs) else Unique(xs) + [x]
  {
    assert (xs + [x])[..|xs|] == xs;
  }

  /** Position of the first occurrence of `x`. */
  function FirstIndex<T(==)>(xs: seq<T>, x: T): (i: nat)
    requires x in xs
    ensures i < |xs| && xs[i] == x && x !in xs[..i]
  {
    if xs[0] == x then 0
    else
      var i := 1 + FirstIndex(xs[1..], x);
      assert xs[..i] == [xs[0]] + xs[1..][..i - 1];
      i
  }

  /** A first occurrence is determined by its three defining facts. */
  lemma FirstIndexIsUnique<T>(xs: seq<T>, x: T, k: nat)
    requires k < |xs| && xs[k] == x && x !in xs[..k]
    ensures FirstIndex(xs, x) == k
  {
  }

  /** Appending to a sequence does not move the first occurrence of an earlier element. */
  lemma FirstIndexSnoc<T>(xs: seq<T>, y: T, x: T)
    requires x in xs
    ensures FirstIndex(xs + [y], x) == FirstIndex(xs, x)
  {
    var k := FirstIndex(xs, x);
    assert (xs + [y])[..k] == xs[..k];
    FirstIndexIsUnique(xs + [y], x, k);
  }

  /** `Unique` lists elements in the order of their first occurrence in `xs`. */
  lemma {:induction false} UniqueFirstSeenOrder<T>(xs: seq<T>, i: nat, j: nat)
    requires i < j < |Unique(xs)|
    ensures FirstIndex(xs, Unique(xs)[i]) < FirstIndex(xs, Unique(xs)[j])
  {
    var init := xs[..|xs| - 1];
    var x := xs[|xs| - 1];
    assert xs == init + [x];
    var u := Unique(init);
    if x in init {
      UniqueFirstSeenOrder(init, i, j);
      FirstIndexSnoc(init, x, u[i]);
      FirstIndexSnoc(init, x, u[j]);
    } else {
      FirstIndexSnoc(init, x, u[i]);
      if j < |u| {
        UniqueFirstSeenOrder(init, i, j);
        FirstIndexSnoc(init, x, u[j]);
      } else {
        assert Unique(xs)[j] == x;
        assert xs[..|init|] == init;
        FirstIndexIsUnique(xs, x, |init|);
      }
    }
  }
}
