/** Two lists that correspond one to one hold the same results, as multisets: the way
    two enumerations in different orders are compared. */
module Bags {
  import opened Seqs

  ghost function MapSeq<A, B>(f: A -> B, xs: seq<A>): (r: seq<B>)
    ensures |r| == |xs| && forall i :: 0 <= i < |xs| ==> r[i] == f(xs[i])
  {
    seq(|xs|, i requires 0 <= i < |xs| => f(xs[i]))
  }

  function Without<T>(s: seq<T>, i: nat): seq<T>
    requires i < |s|
  {
    s[..i] + s[i + 1..]
  }

  lemma WithoutDistinct<T>(s: seq<T>, i: nat)
    requires i < |s| && Distinct(s)
    ensures Distinct(Without(s, i)) && forall x :: x in Without(s, i) <==> x in s && x != s[i]
  {
    forall x | x in s && x != s[i]
      ensures x in Without(s, i)
    {
      var k :| 0 <= k < |s| && s[k] == x;
      assert Without(s, i)[if k < i then k else k - 1] == x;
    }
  }

  lemma MapWithout<A, B>(f: A -> B, s: seq<A>, i: nat)
    requires i < |s|
    ensures multiset(MapSeq(f, s)) == multiset(MapSeq(f, Without(s, i))) + multiset{f(s[i])}
  {
    var m := MapSeq(f, s);
    assert m == m[..i] + [m[i]] + m[i + 1..];
    assert MapSeq(f, Without(s, i)) == m[..i] + m[i + 1..];
  }

  /** `f` pairs the elements of `xs` with those of `ys`, and pairs have equal images. */
  ghost predicate Pairs<A, B, C>(xs: seq<A>, ys: seq<B>, f: A -> B, p: A -> C, q: B -> C) {
    && Distinct(xs) && Distinct(ys)
    && (forall x :: x in xs ==> f(x) in ys && q(f(x)) == p(x))
    && (forall x, x' :: x in xs && x' in xs && f(x) == f(x') ==> x == x')
    && (forall y :: y in ys ==> exists x :: x in xs && f(x) == y)
  }

  lemma {:induction false} PairedBags<A, B, C>(xs: seq<A>, ys: seq<B>, f: A -> B, p: A -> C, q: B -> C)
    requires Pairs(xs, ys, f, p, q)
    ensures multiset(MapSeq(p, xs)) == multiset(MapSeq(q, ys))
    decreases |xs|
  {
    if xs == [] {
      NoMembers(ys);
      assert MapSeq(p, xs) == [] && MapSeq(q, ys) == [];
    } else {
      var n := |xs| - 1;
      var x := xs[n];
      assert x in xs;
      var i :| 0 <= i < |ys| && ys[i] == f(x);
      WithoutDistinct(xs, n);
      WithoutDistinct(ys, i);
      assert forall y :: y in Without(ys, i) ==> y in ys;
      PairedBags(Without(xs, n), Without(ys, i), f, p, q);
      MapWithout(p, xs, n);
      MapWithout(q, ys, i);
    }
  }
}
