/** The bounded heap behind a vector search and what it keeps: the best hits seen so far. */
module TopK {
  import opened Seqs

  /** Scores are any total order; reals stand for them. */
  datatype Hit = Hit(id: int, score: real)

  /** `a` ranks below `b`: a lower score, or the same score and a larger id. */
  predicate Worse(a: Hit, b: Hit) {
    a.score < b.score || (a.score == b.score && a.id > b.id)
  }

  function Bag(s: seq<Hit>): set<Hit> {
    set h | h in s
  }

  /** The `k` best of `all`. */
  ghost predicate Best(all: set<Hit>, k: nat, top: set<Hit>) {
    && top <= all
    && |top| == (if |all| < k then |all| else k)
    && forall x, y :: x in top && y in all && y !in top ==> Worse(y, x)
  }

  lemma BestUnique(all: set<Hit>, k: nat, a: set<Hit>, b: set<Hit>)
    requires Best(all, k, a) && Best(all, k, b)
    ensures a == b
  {
    if x :| x in a && x !in b {
      if b <= a {
        SubsetSmaller(b, a, x);
        assert false;
      }
      var y :| y in b && y !in a;
      assert false;
    }
    assert a <= b;
    if y :| y in b && y !in a {
      SubsetSmaller(a, b, y);
      assert false;
    }
  }

  lemma BestFew(all: set<Hit>, k: nat, top: set<Hit>)
    requires Best(all, k, top)
    ensures |all| <= k ==> top == all
    ensures top != all ==> |top| == k
  {
    if y :| y in all && y !in top {
      SubsetSmaller(top, all, y);
    }
  }

  /** The best of two parts are the best of their bests. */
  lemma BestMerged(a: set<Hit>, b: set<Hit>, k: nat, ta: set<Hit>, tb: set<Hit>, top: set<Hit>)
    requires Best(a, k, ta) && Best(b, k, tb) && Best(ta + tb, k, top)
    ensures Best(a + b, k, top)
  {
    BestFew(a, k, ta);
    BestFew(b, k, tb);
    BestFew(ta + tb, k, top);
    SubsetSize(ta + tb, a + b);
    if ta != a {
      SubsetSize(ta, ta + tb);
    } else if tb != b {
      SubsetSize(tb, ta + tb);
    }
    forall x, y | x in top && y in a + b && y !in top
      ensures Worse(y, x)
    {
      if y !in ta + tb {
        if y in a {
          BeatenBySide(a, k, ta, tb, top, x, y);
        } else {
          assert ta + tb == tb + ta;
          BeatenBySide(b, k, tb, ta, top, x, y);
        }
      }
    }
  }

  lemma BeatenBySide(a: set<Hit>, k: nat, ta: set<Hit>, tb: set<Hit>, top: set<Hit>, x: Hit, y: Hit)
    requires Best(a, k, ta) && Best(ta + tb, k, top)
    requires y in a && y !in ta && x in top
    ensures Worse(y, x)
  {
    BestFew(a, k, ta);
    SubsetSize(ta, ta + tb);
    if x !in ta {
      if ta <= top {
        SubsetSmaller(ta, top, x);
        assert false;
      }
      var z :| z in ta && z !in top;
      assert Worse(z, x) && Worse(y, z);
    }
  }

  // --------------------------------------------------------------- the heap

  function Parent(i: nat): nat
    requires i > 0
  {
    (i - 1) / 2
  }

  /** The root is the worst of the items. */
  ghost predicate Heap(items: seq<Hit>) {
    forall i :: 0 < i < |items| ==> !Worse(items[i], items[Parent(i)])
  }

  /** A heap but for the item at `j`, which may be worse than its parent. */
  ghost predicate RisingAt(items: seq<Hit>, j: nat) {
    && (forall i :: 0 < i < |items| && i != j ==> !Worse(items[i], items[Parent(i)]))
    && (forall i :: 0 < i < |items| && 0 < j < |items| && Parent(i) == j ==> !Worse(items[i], items[Parent(j)]))
  }

  /** A heap but for the item at `j`, which may be better than its children. */
  ghost predicate SinkingAt(items: seq<Hit>, j: nat) {
    && (forall i :: 0 < i < |items| && Parent(i) != j ==> !Worse(items[i], items[Parent(i)]))
    && (forall i :: 0 < i < |items| && 0 < j < |items| && Parent(i) == j ==> !Worse(items[i], items[Parent(j)]))
  }

  lemma {:induction false} RootWorst(items: seq<Hit>, i: nat)
    requires Heap(items) && i < |items|
    ensures !Worse(items[i], items[0])
  {
    if i > 0 {
      RootWorst(items, Parent(i));
    }
  }

  lemma SwapBag(s: seq<Hit>, i: nat, j: nat)
    requires i < |s| && j < |s|
    ensures multiset(s[i := s[j]][j := s[i]]) == multiset(s)
  {
  }

  lemma BagOf(a: seq<Hit>, b: seq<Hit>)
    requires multiset(a) == multiset(b)
    ensures Bag(a) == Bag(b) && |a| == |b| && (Distinct(a) ==> Distinct(b))
  {
    forall h
      ensures h in Bag(a) <==> h in Bag(b)
    {
      assert h in a <==> h in multiset(a);
      assert h in b <==> h in multiset(b);
    }
    assert |multiset(a)| == |a| && |multiset(b)| == |b|;
    if Distinct(a) {
      DistinctCounts(a);
      forall i, j | 0 <= i < j < |b|
        ensures b[i] != b[j]
      {
        if b[i] == b[j] {
          CountTwice(b, i, j);
          assert false;
        }
      }
    }
  }

  lemma {:induction false} DistinctCounts(a: seq<Hit>)
    requires Distinct(a)
    ensures forall h :: multiset(a)[h] <= 1
  {
    if a != [] {
      var n := |a| - 1;
      DistinctCounts(a[..n]);
      assert a == a[..n] + [a[n]];
      assert a[n] !in a[..n];
      assert a[n] !in multiset(a[..n]);
    }
  }

  lemma CountTwice(b: seq<Hit>, i: nat, j: nat)
    requires i < j < |b| && b[i] == b[j]
    ensures multiset(b)[b[i]] >= 2
  {
    assert b == b[..i] + [b[i]] + b[i + 1..j] + [b[j]] + b[j + 1..];
  }

  class HitHeap {
    var items: seq<Hit>

    constructor ()
      ensures items == []
    {
      items := [];
    }

    method Swap(i: nat, j: nat)
      requires i < |items| && j < |items|
      modifies this
      ensures items == old(items[i := items[j]][j := items[i]]) && multiset(items) == multiset(old(items))
    {
      SwapBag(items, i, j);
      items := items[i := items[j]][j := items[i]];
    }

    method Up(j0: nat)
      requires j0 < |items| && RisingAt(items, j0)
      modifies this
      ensures Heap(items) && multiset(items) == multiset(old(items))
    {
      hide Heap, RisingAt, Worse;
      var j: nat := j0;
      while j > 0 && Worse(items[j], items[Parent(j)])
        invariant j < |items| && RisingAt(items, j) && multiset(items) == multiset(old(items))
      {
        RiseStep(items, j);
        Swap(Parent(j), j);
        j := Parent(j);
      }
      RiseDone(items, j);
    }

    method Down(i0: nat)
      requires i0 < |items| && SinkingAt(items, i0)
      modifies this
      ensures Heap(items) && multiset(items) == multiset(old(items))
    {
      hide Heap, SinkingAt, Worse;
      var i: nat := i0;
      while 2 * i + 1 < |items|
        invariant i < |items| == |old(items)|
        invariant SinkingAt(items, i) && multiset(items) == multiset(old(items))
        decreases |items| - i
      {
        var j := 2 * i + 1;
        if j + 1 < |items| && Worse(items[j + 1], items[j]) {
          j := j + 1;
        }
        LesserChild(items, i, j);
        if !Worse(items[j], items[i]) {
          SinkDone(items, i);
          return;
        }
        SinkStep(items, i, j);
        Swap(i, j);
        i := j;
      }
      SinkDone(items, i);
    }

    /** Keeps `x` if fewer than `k` hits are held or if it beats the worst one held. */
    method Offer(x: Hit, k: nat, ghost seen: set<Hit>)
      requires k > 0 && Heap(items) && Distinct(items) && Best(seen, k, Bag(items)) && x !in seen
      modifies this
      ensures Heap(items) && Distinct(items) && Best(seen + {x}, k, Bag(items))
    {
      SizeOf(items);
      if |items| < k {
        BestGrows(seen, k, items, x);
        items := items + [x];
        ghost var grown := items;
        Up(|items| - 1);
        BagOf(grown, items);
        return;
      }
      ghost var before := items;
      RootIsWorst(items);
      if Worse(items[0], x) {
        BestReplaces(seen, k, items, x);
        items := items[0 := x];
        ghost var replaced := items;
        Down(0);
        BagOf(replaced, items);
      } else {
        BestStays(seen, k, items, x);
      }
    }
  }

  lemma RiseStep(items: seq<Hit>, j: nat)
    requires 0 < j < |items| && RisingAt(items, j) && Worse(items[j], items[Parent(j)])
    ensures RisingAt(items[Parent(j) := items[j]][j := items[Parent(j)]], Parent(j))
  {
    var p := Parent(j);
    var s := items[p := items[j]][j := items[p]];
    forall c | 0 < c < |s| && c != p
      ensures !Worse(s[c], s[Parent(c)])
    {
      assert !Worse(items[c], items[Parent(c)]) || c == j;
    }
    forall c | 0 < c < |s| && 0 < p < |s| && Parent(c) == p
      ensures !Worse(s[c], s[Parent(p)])
    {
      assert !Worse(items[p], items[Parent(p)]);
    }
  }

  lemma RiseDone(items: seq<Hit>, j: nat)
    requires j < |items| && RisingAt(items, j) && (j > 0 ==> !Worse(items[j], items[Parent(j)]))
    ensures Heap(items)
  {
  }

  /** Neither child is worse than `j`, the child that was picked. */
  lemma LesserChild(items: seq<Hit>, i: nat, j: nat)
    requires 2 * i + 1 < |items|
    requires j == (if 2 * i + 2 < |items| && Worse(items[2 * i + 2], items[2 * i + 1]) then 2 * i + 2 else 2 * i + 1)
    ensures !Worse(items[2 * i + 1], items[j])
    ensures 2 * i + 2 < |items| ==> !Worse(items[2 * i + 2], items[j])
    ensures !Worse(items[j], items[i]) ==>
      !Worse(items[2 * i + 1], items[i]) && (2 * i + 2 < |items| ==> !Worse(items[2 * i + 2], items[i]))
  {
  }

  lemma SinkDone(items: seq<Hit>, i: nat)
    requires i < |items| && SinkingAt(items, i)
    requires 2 * i + 1 < |items| ==> !Worse(items[2 * i + 1], items[i])
    requires 2 * i + 2 < |items| ==> !Worse(items[2 * i + 2], items[i])
    ensures Heap(items)
  {
    forall c | 0 < c < |items|
      ensures !Worse(items[c], items[Parent(c)])
    {
      if Parent(c) == i {
        assert c == 2 * i + 1 || c == 2 * i + 2;
      }
    }
  }

  lemma SinkStep(items: seq<Hit>, i: nat, j: nat)
    requires i < |items| && SinkingAt(items, i) && (j == 2 * i + 1 || j == 2 * i + 2) && j < |items|
    requires Worse(items[j], items[i])
    requires 2 * i + 1 < |items| ==> !Worse(items[2 * i + 1], items[j])
    requires 2 * i + 2 < |items| ==> !Worse(items[2 * i + 2], items[j])
    ensures SinkingAt(items[i := items[j]][j := items[i]], j)
  {
    var s := items[i := items[j]][j := items[i]];
    forall c | 0 < c < |s| && Parent(c) != j
      ensures !Worse(s[c], s[Parent(c)])
    {
      if Parent(c) == i {
        assert c == 2 * i + 1 || c == 2 * i + 2;
      }
    }
  }

  lemma {:induction false} SizeOf(items: seq<Hit>)
    requires Distinct(items)
    ensures |Bag(items)| == |items|
  {
    if items == [] {
      assert Bag(items) == {};
    } else {
      var n := |items| - 1;
      SizeOf(items[..n]);
      assert items == items[..n] + [items[n]];
      assert Bag(items) == Bag(items[..n]) + {items[n]};
    }
  }

  lemma RootIsWorst(items: seq<Hit>)
    requires Heap(items)
    ensures forall h :: h in items ==> !Worse(h, items[0])
  {
    forall i | 0 <= i < |items|
      ensures !Worse(items[i], items[0])
    {
      RootWorst(items, i);
    }
  }

  lemma BestGrows(seen: set<Hit>, k: nat, items: seq<Hit>, x: Hit)
    requires Best(seen, k, Bag(items)) && |Bag(items)| < k && x !in seen && Heap(items) && Distinct(items)
    ensures Best(seen + {x}, k, Bag(items + [x])) && RisingAt(items + [x], |items|) && Distinct(items + [x])
  {
    BestFew(seen, k, Bag(items));
    assert Bag(items + [x]) == seen + {x};
    assert forall h :: h in items ==> h in Bag(items);
  }

  lemma BestReplaces(seen: set<Hit>, k: nat, items: seq<Hit>, x: Hit)
    requires Best(seen, k, Bag(items)) && |items| == k > 0 && x !in seen && Heap(items) && Distinct(items)
    requires Worse(items[0], x) && forall h :: h in items ==> !Worse(h, items[0])
    ensures Best(seen + {x}, k, Bag(items[0 := x])) && SinkingAt(items[0 := x], 0) && Distinct(items[0 := x])
  {
    var s, w := items[0 := x], items[0];
    assert forall h :: h in items ==> h in Bag(items);
    forall h
      ensures h in Bag(s) <==> h == x || (h in Bag(items) && h != w)
    {
      assert s[0] == x;
      if h in Bag(items) && h != w {
        var i :| 0 <= i < |items| && items[i] == h;
        assert s[i] == h;
      }
    }
    assert Distinct(s) by {
      forall i, j | 0 <= i < j < |s|
        ensures s[i] != s[j]
      {
        assert items[j] in items;
      }
    }
    SizeOf(s);
    SizeOf(items);
    SubsetSize(Bag(items), seen);
    assert |seen + {x}| == |seen| + 1;
    forall a, b | a in Bag(s) && b in seen + {x} && b !in Bag(s)
      ensures Worse(b, a)
    {
      if b == w {
        if a != x {
          assert a in items && !Worse(a, w);
        }
      } else {
        assert b !in Bag(items) && w in Bag(items) && Worse(b, w);
      }
    }
  }

  lemma BestStays(seen: set<Hit>, k: nat, items: seq<Hit>, x: Hit)
    requires Best(seen, k, Bag(items)) && |Bag(items)| == |items| == k > 0 && x !in seen
    requires !Worse(items[0], x) && forall h :: h in items ==> !Worse(h, items[0])
    ensures Best(seen + {x}, k, Bag(items))
  {
    SubsetSize(Bag(items), seen);
    assert |seen + {x}| == |seen| + 1;
    forall a, b | a in Bag(items) && b in seen + {x} && b !in Bag(items)
      ensures Worse(b, a)
    {
      if b == x {
        assert a in items;
        assert items[0] in Bag(items);
        assert x != items[0];
      }
    }
  }
}
