/** Small sequence combinators for the `flatMap`, `filter` and `reduce`
    calls of the source. */
module SeqUtil {

  /** `xs.flatMap(f)` */
  function ConcatMap<A, B>(f: A -> seq<B>, xs: seq<A>): seq<B>
    decreases |xs|
  {
    if xs == [] then [] else f(xs[0]) + ConcatMap(f, xs[1..])
  }

  lemma {:induction false} ConcatMapAppend<A, B>(f: A -> seq<B>, a: seq<A>, b: seq<A>)
    decreases |a|
    ensures ConcatMap(f, a + b) == ConcatMap(f, a) + ConcatMap(f, b)
  {
    if a == [] {
      assert a + b == b;
    } else {
      assert (a + b)[0] == a[0] && (a + b)[1..] == a[1..] + b;
      ConcatMapAppend(f, a[1..], b);
    }
  }

  /** The prefix form used by loop invariants. */
  lemma ConcatMapSnoc<A, B>(f: A -> seq<B>, xs: seq<A>, i: nat)
    requires i < |xs|
    ensures ConcatMap(f, xs[..i + 1]) == ConcatMap(f, xs[..i]) + f(xs[i])
  {
    assert xs[..i + 1] == xs[..i] + [xs[i]];
    ConcatMapAppend(f, xs[..i], [xs[i]]);
  }

  lemma ConcatMapSplit<A, B>(f: A -> seq<B>, xs: seq<A>, i: nat)
    requires i <= |xs|
    ensures ConcatMap(f, xs) == ConcatMap(f, xs[..i]) + ConcatMap(f, xs[i..])
  {
    assert xs == xs[..i] + xs[i..];
    ConcatMapAppend(f, xs[..i], xs[i..]);
  }

  /** Every element of a flatMap comes from the image of some input. */
  lemma {:induction false} ConcatMapMembers<A, B>(f: A -> seq<B>, xs: seq<A>)
    decreases |xs|
    ensures forall y :: y in ConcatMap(f, xs) ==> exists x :: x in xs && y in f(x)
  {
    if xs != [] {
      ConcatMapMembers(f, xs[1..]);
      forall y | y in ConcatMap(f, xs)
        ensures exists x :: x in xs && y in f(x)
      {
        if y !in f(xs[0]) {
          assert y in ConcatMap(f, xs[1..]);
          var x :| x in xs[1..] && y in f(x);
          assert x in xs;
        }
      }
    }
  }

  /** Every element of the image of an input is in the flatMap. */
  lemma {:induction false} ConcatMapHas<A, B>(f: A -> seq<B>, xs: seq<A>, x: A, y: B)
    requires x in xs && y in f(x)
    ensures y in ConcatMap(f, xs)
    decreases |xs|
  {
    if xs[0] != x {
      ConcatMapHas(f, xs[1..], x, y);
    }
  }

  lemma Regroup<T>(a: seq<T>, b: seq<T>, c: seq<T>, d: seq<T>)
    ensures a + (b + c) + d == (a + b) + (c + d)
  {
  }
}
