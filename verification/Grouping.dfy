/** Grouping and DISTINCT, by the keys of the rows. */
module Grouping {
  import opened Seqs
  import opened Keys

  ghost predicate Increasing(s: seq<nat>) {
    forall i, j :: 0 <= i < j < |s| ==> s[i] < s[j]
  }

  ghost predicate AllValid(keys: seq<Value>) {
    forall i :: 0 <= i < |keys| ==> Valid(keys[i])
  }

  predicate InGroup(groups: seq<seq<nat>>, g: nat, r: nat) {
    g < |groups| && r in groups[g]
  }

  ghost predicate HasRow(groups: seq<seq<nat>>, r: nat) {
    exists g: nat :: InGroup(groups, g, r)
  }

  /** The row a group starts with. */
  ghost predicate Starts(groups: seq<seq<nat>>, g: nat, r: nat) {
    g < |groups| && groups[g] != [] && groups[g][0] == r
  }

  /** Row numbers in groups: rows in order within a group, groups in the order they are first
      seen, every row in a group, and two rows in the same group exactly if they are equivalent. */
  ghost predicate Groups(groups: seq<seq<nat>>, keys: seq<Value>) {
    && (forall g :: 0 <= g < |groups| ==> groups[g] != [] && Increasing(groups[g]))
    && (forall g: nat, r: nat :: InGroup(groups, g, r) ==> r < |keys|)
    && (forall g: nat, h: nat, r: nat, s: nat :: g < h && Starts(groups, g, r) && Starts(groups, h, s) ==> r < s)
    && (forall r: nat :: r < |keys| ==> HasRow(groups, r))
    && (forall g: nat, h: nat, r: nat, s: nat :: InGroup(groups, g, r) && InGroup(groups, h, s) && r < |keys| && s < |keys| ==>
      (g == h <==> Equiv(keys[r], keys[s])))
  }

  /** The groups of the first rows: `of` gives each row its group, `labels` each group its key. */
  ghost predicate Progress(groups: seq<seq<nat>>, keys: seq<Value>, n: nat, index: map<string, nat>,
                           of: seq<nat>, labels: seq<string>)
  {
    && n == |of| <= |keys| && |labels| == |groups|
    && (forall r :: 0 <= r < n ==> of[r] < |groups| && labels[of[r]] == Key(keys[r]))
    && (forall g :: 0 <= g < |groups| ==> groups[g] != [] && Increasing(groups[g]))
    && (forall g: nat, r: nat :: InGroup(groups, g, r) <==> g < |groups| && r < n && of[r] == g)
    && (forall g :: 0 <= g < |labels| ==> labels[g] in index && index[labels[g]] == g)
    && (forall k :: k in index ==> index[k] < |labels| && labels[index[k]] == k)
    && (forall g, h :: 0 <= g < h < |groups| ==> groups[g][0] < groups[h][0])
  }

  lemma Joins(groups: seq<seq<nat>>, keys: seq<Value>, n: nat, index: map<string, nat>, of: seq<nat>, labels: seq<string>)
    requires Progress(groups, keys, n, index, of, labels) && n < |keys| && Key(keys[n]) in index
    ensures var g := index[Key(keys[n])];
      Progress(groups[g := groups[g] + [n]], keys, n + 1, index, of + [g], labels)
  {
    hide Key;
    var g := index[Key(keys[n])];
    var gs := groups[g := groups[g] + [n]];
    forall h: nat, r: nat
      ensures InGroup(gs, h, r) <==> h < |gs| && r < n + 1 && (of + [g])[r] == h
    {
      assert InGroup(gs, h, r) <==> InGroup(groups, h, r) || (h == g && r == n);
    }
    forall i, j | 0 <= i < j < |gs[g]|
      ensures gs[g][i] < gs[g][j]
    {
      assert InGroup(groups, g, groups[g][i]);
    }
  }

  lemma Opens(groups: seq<seq<nat>>, keys: seq<Value>, n: nat, index: map<string, nat>, of: seq<nat>, labels: seq<string>)
    requires Progress(groups, keys, n, index, of, labels) && n < |keys| && Key(keys[n]) !in index
    ensures Progress(groups + [[n]], keys, n + 1, index[Key(keys[n]) := |groups|], of + [|groups|], labels + [Key(keys[n])])
  {
    hide Key;
    var gs := groups + [[n]];
    forall h: nat, r: nat
      ensures InGroup(gs, h, r) <==> h < |gs| && r < n + 1 && (of + [|groups|])[r] == h
    {
      assert InGroup(gs, h, r) <==> InGroup(groups, h, r) || (h == |groups| && r == n);
    }
    forall g | 0 <= g < |groups|
      ensures groups[g][0] < n
    {
      assert InGroup(groups, g, groups[g][0]);
    }
  }

  lemma Finished(groups: seq<seq<nat>>, keys: seq<Value>, index: map<string, nat>, of: seq<nat>, labels: seq<string>)
    requires AllValid(keys) && Progress(groups, keys, |keys|, index, of, labels)
    ensures Groups(groups, keys)
  {
    hide Key, Equiv;
    forall r: nat | r < |keys|
      ensures HasRow(groups, r)
    {
      assert InGroup(groups, of[r], r);
    }
    forall g: nat, h: nat, r: nat, s: nat | InGroup(groups, g, r) && InGroup(groups, h, s) && r < |keys| && s < |keys|
      ensures g == h <==> Equiv(keys[r], keys[s])
    {
      assert of[r] == g && of[s] == h;
      KeyCanonical(keys[r], keys[s]);
    }
  }

  /** `groupRows`: `keys` are the grouping values of the rows. */
  method GroupRows(keys: seq<Value>) returns (groups: seq<seq<nat>>)
    requires AllValid(keys)
    ensures Groups(groups, keys)
  {
    hide Key, Progress, Groups;
    groups := [];
    var index: map<string, nat> := map[];
    ghost var of: seq<nat>, labels: seq<string> := [], [];
    NothingYet(keys);
    for n := 0 to |keys|
      invariant Progress(groups, keys, n, index, of, labels)
    {
      var k := Key(keys[n]);
      ProgressIndex(groups, keys, n, index, of, labels);
      if k in index {
        Joins(groups, keys, n, index, of, labels);
        of := of + [index[k]];
        groups := groups[index[k] := groups[index[k]] + [n]];
      } else {
        Opens(groups, keys, n, index, of, labels);
        of, labels := of + [|groups|], labels + [k];
        index := index[k := |groups|];
        groups := groups + [[n]];
      }
    }
    Finished(groups, keys, index, of, labels);
  }

  lemma NothingYet(keys: seq<Value>)
    ensures Progress([], keys, 0, map[], [], [])
  {
  }

  lemma ProgressIndex(groups: seq<seq<nat>>, keys: seq<Value>, n: nat, index: map<string, nat>, of: seq<nat>, labels: seq<string>)
    requires Progress(groups, keys, n, index, of, labels)
    ensures forall k :: k in index ==> index[k] < |groups|
  {
  }

  /** No earlier row is equivalent. */
  ghost predicate Fresh(keys: seq<Value>, r: nat)
    requires r < |keys|
  {
    forall s: nat :: s < r ==> !Equiv(keys[s], keys[r])
  }

  lemma FreshKey(keys: seq<Value>, r: nat, seen: set<string>)
    requires AllValid(keys) && r < |keys|
    requires forall s: nat :: s < r ==> Key(keys[s]) in seen
    requires forall k :: k in seen ==> exists s: nat :: s < r && Key(keys[s]) == k
    ensures Key(keys[r]) !in seen <==> Fresh(keys, r)
  {
    hide Key, Equiv;
    forall s: nat | s < r
      ensures Key(keys[s]) == Key(keys[r]) <==> Equiv(keys[s], keys[r])
    {
      KeyCanonical(keys[s], keys[r]);
    }
  }

  /** DISTINCT: a row is kept unless an earlier one is equivalent. */
  method DistinctRows(keys: seq<Value>) returns (kept: seq<nat>)
    requires AllValid(keys)
    ensures Increasing(kept)
    ensures forall r: nat :: r in kept <==> r < |keys| && Fresh(keys, r)
  {
    hide Key, Equiv, Fresh;
    kept := [];
    var seen: set<string> := {};
    for r := 0 to |keys|
      invariant Increasing(kept) && forall i :: 0 <= i < |kept| ==> kept[i] < r
      invariant forall s: nat :: s < r ==> Key(keys[s]) in seen
      invariant forall k :: k in seen ==> exists s: nat :: s < r && Key(keys[s]) == k
      invariant forall x: nat :: x in kept <==> x < r && Fresh(keys, x)
    {
      FreshKey(keys, r, seen);
      if Key(keys[r]) !in seen {
        seen := seen + {Key(keys[r])};
        kept := kept + [r];
      }
    }
  }

  /** DISTINCT keeps exactly the first row of every group. */
  lemma DistinctIsFirsts(keys: seq<Value>, groups: seq<seq<nat>>, kept: seq<nat>)
    requires AllValid(keys) && Groups(groups, keys) && Increasing(kept)
    requires forall r: nat :: r in kept <==> r < |keys| && Fresh(keys, r)
    ensures |kept| == |groups| && forall g :: 0 <= g < |groups| ==> Starts(groups, g, kept[g])
  {
    hide Equiv;
    var firsts: seq<nat> := seq(|groups|, g requires 0 <= g < |groups| => groups[g][0]);
    assert forall g :: 0 <= g < |groups| ==> Starts(groups, g, firsts[g]);
    forall r: nat
      ensures r in kept <==> r in firsts
    {
      if r in firsts {
        var g :| 0 <= g < |groups| && firsts[g] == r;
        assert InGroup(groups, g, r);
        forall s: nat | s < r
          ensures !Equiv(keys[s], keys[r])
        {
          EarlierElsewhere(keys, groups, g, s);
        }
      }
      if r in kept {
        assert HasRow(groups, r);
        var g: nat :| InGroup(groups, g, r);
        var f := groups[g][0];
        assert InGroup(groups, g, f);
        assert firsts[g] == f <= r;
        assert Equiv(keys[f], keys[r]);
      }
    }
    IncreasingUnique(kept, firsts);
  }

  lemma EarlierElsewhere(keys: seq<Value>, groups: seq<seq<nat>>, g: nat, s: nat)
    requires Groups(groups, keys) && g < |groups| && s < groups[g][0]
    ensures groups[g][0] < |keys| && !Equiv(keys[s], keys[groups[g][0]])
  {
    hide Equiv;
    assert InGroup(groups, g, groups[g][0]);
    assert HasRow(groups, s);
    var h: nat :| InGroup(groups, h, s);
    assert h != g;
  }

  lemma {:induction false} IncreasingUnique(a: seq<nat>, b: seq<nat>)
    requires Increasing(a) && Increasing(b) && forall x: nat :: x in a <==> x in b
    ensures a == b
    decreases |a|
  {
    if a == [] {
      NoMembers(b);
    } else {
      var n := |a| - 1;
      assert a[n] in b;
      assert b != [];
      var m := |b| - 1;
      assert b[m] in a;
      var i :| 0 <= i < |b| && b[i] == a[n];
      var j :| 0 <= j < |a| && a[j] == b[m];
      assert a[n] == b[m];
      forall x: nat
        ensures x in a[..n] <==> x in b[..m]
      {
        InitMember(a, x);
        InitMember(b, x);
      }
      IncreasingUnique(a[..n], b[..m]);
      assert a == a[..n] + [a[n]] && b == b[..m] + [b[m]];
    }
  }

  lemma InitMember(a: seq<nat>, x: nat)
    requires Increasing(a) && a != []
    ensures x in a[..|a| - 1] <==> x in a && x != a[|a| - 1]
  {
    assert a == a[..|a| - 1] + [a[|a| - 1]];
  }
}
