/** Folding in any order. */
module Folds {

  function Fold<A, B>(f: (A, B) -> A, a: A, xs: seq<B>): A {
    if xs == [] then a else Fold(f, f(a, xs[0]), xs[1..])
  }

  lemma {:induction false} FoldSnoc<A, B>(f: (A, B) -> A, a: A, xs: seq<B>, x: B)
    ensures Fold(f, a, xs + [x]) == f(Fold(f, a, xs), x)
  {
    if xs == [] {
      assert [x][1..] == [];
    } else {
      assert (xs + [x])[1..] == xs[1..] + [x];
      FoldSnoc(f, f(a, xs[0]), xs[1..], x);
    }
  }

  // From accumulators in `inv`, elements of `xs` can be folded in any order.
  ghost predicate Commutes<A(!new), B(!new)>(f: (A, B) -> A, inv: A -> bool, xs: seq<B>) {
    && (forall a, x | inv(a) && x in xs :: inv(f(a, x)))
    && (forall a, x, y | inv(a) && x in xs && y in xs :: f(f(a, x), y) == f(f(a, y), x))
  }

  lemma {:induction false} FoldFrom<A(!new), B(!new)>(f: (A, B) -> A, inv: A -> bool, a: A, xs: seq<B>, i: nat)
    requires Commutes(f, inv, xs) && inv(a) && i < |xs|
    ensures Fold(f, a, xs) == Fold(f, f(a, xs[i]), xs[..i] + xs[i + 1..])
  {
    if i == 0 {
      assert xs[..0] + xs[1..] == xs[1..];
    } else {
      var y, x := xs[0], xs[i];
      var rest := xs[1..];
      assert forall z | z in rest :: z in xs;
      FoldFrom(f, inv, f(a, y), rest, i - 1);
      assert rest[i - 1] == x;
      var shorter := xs[..i] + xs[i + 1..];
      assert shorter[0] == y && shorter[1..] == rest[..i - 1] + rest[i..];
      assert f(f(a, y), x) == f(f(a, x), y);
    }
  }

  lemma RemovedAt<B>(s: seq<B>, i: nat)
    requires i < |s|
    ensures multiset(s) == multiset(s[..i] + s[i + 1..]) + multiset{s[i]}
  {
    assert s == s[..i] + [s[i]] + s[i + 1..];
    assert multiset(s) == multiset(s[..i]) + multiset{s[i]} + multiset(s[i + 1..]);
    assert multiset(s[..i] + s[i + 1..]) == multiset(s[..i]) + multiset(s[i + 1..]);
  }

  // A permutation has the first element somewhere, and the rest around it.
  lemma PermutedTail<B>(xs: seq<B>, ys: seq<B>) returns (i: nat)
    requires xs != [] && multiset(xs) == multiset(ys)
    ensures i < |ys| && ys[i] == xs[0]
    ensures multiset(xs[1..]) == multiset(ys[..i] + ys[i + 1..])
  {
    assert xs[0] in multiset(ys);
    i :| 0 <= i < |ys| && ys[i] == xs[0];
    RemovedAt(ys, i);
    RemovedAt(xs, 0);
    assert xs[..0] + xs[1..] == xs[1..];
    SameRest(multiset(xs[1..]), multiset(ys[..i] + ys[i + 1..]), xs[0]);
  }

  lemma SameRest<B>(a: multiset<B>, b: multiset<B>, x: B)
    requires a + multiset{x} == b + multiset{x}
    ensures a == b
  {
    assert a == (a + multiset{x}) - multiset{x};
    assert b == (b + multiset{x}) - multiset{x};
  }

  lemma CommutesPermuted<A(!new), B(!new)>(f: (A, B) -> A, inv: A -> bool, xs: seq<B>, ys: seq<B>)
    requires Commutes(f, inv, xs) && multiset(xs) == multiset(ys)
    ensures Commutes(f, inv, ys)
  {
    forall y | y in ys
      ensures y in xs
    {
      assert y in multiset(xs);
    }
  }

  lemma {:induction false} FoldPermutes<A(!new), B(!new)>(f: (A, B) -> A, inv: A -> bool, a: A, xs: seq<B>, ys: seq<B>)
    requires Commutes(f, inv, xs) && inv(a) && multiset(xs) == multiset(ys)
    ensures Fold(f, a, xs) == Fold(f, a, ys)
    decreases |xs|
  {
    if xs == [] {
      assert |multiset(ys)| == 0;
    } else {
      var i := PermutedTail(xs, ys);
      CommutesPermuted(f, inv, xs, ys);
      FoldFrom(f, inv, a, ys, i);
      FoldPermutes(f, inv, f(a, xs[0]), xs[1..], ys[..i] + ys[i + 1..]);
    }
  }

  function Map<A, B>(f: A -> B, xs: seq<A>): seq<B> {
    seq(|xs|, i requires 0 <= i < |xs| => f(xs[i]))
  }

  lemma {:induction false} MapPermutes<A, B>(f: A -> B, xs: seq<A>, ys: seq<A>)
    requires multiset(xs) == multiset(ys)
    ensures multiset(Map(f, xs)) == multiset(Map(f, ys))
    decreases |xs|
  {
    if xs == [] {
      assert |multiset(ys)| == 0;
    } else {
      var i := PermutedTail(xs, ys);
      MapPermutes(f, xs[1..], ys[..i] + ys[i + 1..]);
      RemovedAt(Map(f, ys), i);
      assert Map(f, ys)[..i] + Map(f, ys)[i + 1..] == Map(f, ys[..i] + ys[i + 1..]);
      assert Map(f, xs) == [f(xs[0])] + Map(f, xs[1..]);
    }
  }
}
