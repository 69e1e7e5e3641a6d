/** Entries in the order of their names, as `sort.Strings` leaves them, and what
    does not depend on the order they came in. */
module NameSort {
  import opened Seqs

  /** Byte order on names. */
  predicate Less(a: string, b: string) {
    if b == [] then false
    else if a == [] then true
    else a[0] < b[0] || (a[0] == b[0] && Less(a[1..], b[1..]))
  }

  lemma {:induction false} LessOrders(a: string, b: string)
    ensures !(Less(a, b) && Less(b, a))
    ensures a != b ==> Less(a, b) || Less(b, a)
    decreases |a| + |b|
  {
    if a != [] && b != [] {
      LessOrders(a[1..], b[1..]);
      assert a == [a[0]] + a[1..] && b == [b[0]] + b[1..];
    }
  }

  lemma {:induction false} LessTrans(a: string, b: string, c: string)
    requires Less(a, b) && Less(b, c)
    ensures Less(a, c)
    decreases |a|
  {
    if a != [] && a[0] == b[0] == c[0] {
      LessTrans(a[1..], b[1..], c[1..]);
    }
  }

  /** The order: a proper prefix comes first, otherwise the first character that differs decides. */
  lemma {:induction false} LessMeans(a: string, b: string)
    ensures Less(a, b) <==> a < b || exists i :: DiffersAt(a, b, i) && a[i] < b[i]
    decreases |a|
  {
    if a != [] && b != [] && a[0] == b[0] {
      LessMeans(a[1..], b[1..]);
      PrefixTail(a, b);
      DiffersTail(a, b);
    } else if a != [] && b != [] {
      assert DiffersAt(a, b, 0);
      assert !(a < b);
    }
  }

  /** The first place where both have a character and not the same. */
  ghost predicate DiffersAt(a: string, b: string, i: int) {
    0 <= i < |a| && i < |b| && a[..i] == b[..i] && a[i] != b[i]
  }

  lemma PrefixTail(a: string, b: string)
    requires a != [] && b != [] && a[0] == b[0]
    ensures a < b <==> a[1..] < b[1..]
  {
    assert a == [a[0]] + a[1..] && b == [b[0]] + b[1..];
    if a[1..] < b[1..] {
      assert b == a + b[1..][|a| - 1..];
    }
    if a < b {
      assert b[1..] == a[1..] + b[|a|..];
    }
  }

  lemma DiffersTail(a: string, b: string)
    requires a != [] && b != [] && a[0] == b[0]
    ensures (exists i :: DiffersAt(a, b, i) && a[i] < b[i]) <==> exists i :: DiffersAt(a[1..], b[1..], i) && a[1..][i] < b[1..][i]
  {
    if i :| DiffersAt(a, b, i) && a[i] < b[i] {
      assert a[1..][..i - 1] == a[..i][1..] && b[1..][..i - 1] == b[..i][1..];
      assert DiffersAt(a[1..], b[1..], i - 1);
    }
    if i :| DiffersAt(a[1..], b[1..], i) && a[1..][i] < b[1..][i] {
      assert a[..i + 1] == [a[0]] + a[1..][..i] && b[..i + 1] == [b[0]] + b[1..][..i];
      assert DiffersAt(a, b, i + 1);
    }
  }

  function InsertPair<T>(p: (string, T), ps: seq<(string, T)>): seq<(string, T)> {
    if ps == [] || Less(p.0, ps[0].0) then [p] + ps else [ps[0]] + InsertPair(p, ps[1..])
  }

  function SortPairs<T>(ps: seq<(string, T)>): seq<(string, T)> {
    if ps == [] then [] else InsertPair(ps[0], SortPairs(ps[1..]))
  }

  ghost predicate ByName<T>(ps: seq<(string, T)>) {
    forall i, j :: 0 <= i < j < |ps| ==> Less(ps[i].0, ps[j].0)
  }

  lemma {:induction false} InsertMember<T>(p: (string, T), ps: seq<(string, T)>, q: (string, T))
    ensures q in InsertPair(p, ps) <==> q == p || q in ps
    ensures |InsertPair(p, ps)| == |ps| + 1
    decreases |ps|
  {
    if ps != [] && !Less(p.0, ps[0].0) {
      InsertMember(p, ps[1..], q);
      assert ps == [ps[0]] + ps[1..];
    }
  }

  lemma {:induction false} InsertSorts<T>(p: (string, T), ps: seq<(string, T)>)
    requires ByName(ps) && forall q :: q in ps ==> q.0 != p.0
    ensures ByName(InsertPair(p, ps))
    decreases |ps|
  {
    if ps == [] {
    } else if Less(p.0, ps[0].0) {
      forall j | 0 <= j < |ps|
        ensures Less(p.0, ps[j].0)
      {
        if j > 0 {
          LessTrans(p.0, ps[0].0, ps[j].0);
        }
      }
    } else {
      var rest := InsertPair(p, ps[1..]);
      InsertSorts(p, ps[1..]);
      forall j | 0 <= j < |rest|
        ensures Less(ps[0].0, rest[j].0)
      {
        InsertMember(p, ps[1..], rest[j]);
        LessOrders(p.0, ps[0].0);
        assert ps[0] in ps;
      }
    }
  }

  ghost predicate NamesApart<T>(ps: seq<(string, T)>) {
    forall i, j :: 0 <= i < j < |ps| ==> ps[i].0 != ps[j].0
  }

  lemma {:induction false} SortMember<T>(ps: seq<(string, T)>, q: (string, T))
    ensures q in SortPairs(ps) <==> q in ps
    ensures |SortPairs(ps)| == |ps|
    decreases |ps|
  {
    if ps != [] {
      SortMember(ps[1..], q);
      InsertMember(ps[0], SortPairs(ps[1..]), q);
      assert ps == [ps[0]] + ps[1..];
    }
  }

  lemma {:induction false} SortSorts<T>(ps: seq<(string, T)>)
    requires NamesApart(ps)
    ensures ByName(SortPairs(ps))
    decreases |ps|
  {
    if ps != [] {
      SortSorts(ps[1..]);
      forall q | q in SortPairs(ps[1..])
        ensures q.0 != ps[0].0
      {
        SortMember(ps[1..], q);
        var k :| 0 <= k < |ps[1..]| && ps[1..][k] == q;
        assert ps[k + 1] == q;
      }
      InsertSorts(ps[0], SortPairs(ps[1..]));
    }
  }

  /** A list in name order is determined by its elements. */
  lemma {:induction false} ByNameUnique<T>(ps: seq<(string, T)>, qs: seq<(string, T)>)
    requires ByName(ps) && ByName(qs) && forall p :: p in ps <==> p in qs
    ensures ps == qs
    decreases |ps|
  {
    if ps == [] {
      NoMembers(qs);
    } else {
      FirstMember(ps);
      assert qs != [];
      FirstMember(qs);
      var i :| 0 <= i < |qs| && qs[i] == ps[0];
      var j :| 0 <= j < |ps| && ps[j] == qs[0];
      if i > 0 {
        assert Less(qs[0].0, qs[i].0);
        assert j > 0 ==> Less(ps[0].0, ps[j].0);
        LessOrders(qs[0].0, ps[0].0);
        assert false;
      }
      forall p
        ensures p in ps[1..] <==> p in qs[1..]
      {
        TailMember(ps, p);
        TailMember(qs, p);
      }
      ByNameUnique(ps[1..], qs[1..]);
      assert ps == [ps[0]] + ps[1..] && qs == [qs[0]] + qs[1..];
    }
  }

  lemma TailMember<T>(ps: seq<(string, T)>, p: (string, T))
    requires ps != [] && ByName(ps)
    ensures p in ps[1..] <==> p in ps && p != ps[0]
  {
    assert ps == [ps[0]] + ps[1..];
    if p in ps[1..] {
      var k :| 0 <= k < |ps[1..]| && ps[1..][k] == p;
      LessOrders(ps[0].0, ps[k + 1].0);
    }
  }

  lemma SamePairs<T>(ps: seq<(string, T)>, qs: seq<(string, T)>)
    requires NamesApart(ps) && NamesApart(qs) && |ps| == |qs|
    requires forall i :: 0 <= i < |ps| ==> ps[i] in qs
    ensures SortPairs(ps) == SortPairs(qs)
  {
    forall q | q in qs
      ensures q in ps
    {
      if q !in ps {
        var i :| 0 <= i < |qs| && qs[i] == q;
        var rest := qs[..i] + qs[i + 1..];
        forall p | p in ps
          ensures p in rest
        {
          var j :| 0 <= j < |qs| && qs[j] == p;
          assert rest[if j < i then j else j - 1] == p;
        }
        DistinctFits(ps, rest);
        assert false;
      }
    }
    SortSorts(ps);
    SortSorts(qs);
    forall p
      ensures p in SortPairs(ps) <==> p in SortPairs(qs)
    {
      SortMember(ps, p);
      SortMember(qs, p);
    }
    ByNameUnique(SortPairs(ps), SortPairs(qs));
  }
}
