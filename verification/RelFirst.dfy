/** `matchRelFirst`: looking a relationship up by its properties instead of walking to it. */
module RelFirst {
  import opened Seqs
  import opened Graphs
  import opened Walks
  import opened Patterns
  import opened Matches
  import opened Parts
  import Matchers

  predicate Unbound(v: Option<string>, r: Row) {
    v.Some? ==> v.value !in r
  }

  /** What `matchRelFirst` checks: one single-hop link, nothing bound, no condition on the ends. */
  ghost predicate Applies(part: Part, r: Row) {
    && |part.links| == 1 && part.links[0].rel.range.None?
    && Unbound(part.start.v, r) && Unbound(part.links[0].rel.v, r) && Unbound(part.links[0].node.v, r)
    && forall row :: part.start.where(row)
  }

  /** The directions in which the pattern may read a relationship; a self-loop only once. */
  function Orients(dir: Dir, rel: Rel): seq<(int, int)> {
    (if dir != DirLeft then [(rel.start, rel.end)] else []) +
    (if dir != DirRight && !(dir != DirLeft && rel.start == rel.end) then [(rel.end, rel.start)] else [])
  }

  /** The rest of the pattern accepts the relationship in this orientation. */
  predicate RestAccepts(part: Part, r: Row, rel: Rel, o: (int, int))
    requires part.links != []
  {
    part.start.matches(o.0, r) && BindStep(part.links[0], rel, o.1, With(r, part.start.v, NodeV(o.0))).Some?
  }

  /** Binding the start variable does not change the verdict of the property map and types on any
      relationship that the rest of the pattern accepts. */
  ghost predicate StartFree(part: Part, r: Row)
    requires part.links != []
  {
    forall rel, o :: o in Orients(part.links[0].rel.dir, rel) && RestAccepts(part, r, rel, o) ==>
      part.links[0].rel.matches(rel, With(r, part.start.v, NodeV(o.0))) == part.links[0].rel.matches(rel, r)
  }

  function TryOrient(g: Graph, part: Part, r: Row, used: set<int>, rel: Rel, o: (int, int)): seq<Match>
    requires part.links != []
  {
    if o.0 !in g.nodes || o.1 !in g.nodes || !part.start.matches(o.0, r) then []
    else
      match BindStep(part.links[0], rel, o.1, With(r, part.start.v, NodeV(o.0)))
      case None => []
      case Some(r3) => [Match(r3, o.1, Path([o.0, o.1], [rel]), used + {rel.id}, [Chain([rel], [o.1])])]
  }

  function TryOrients(g: Graph, part: Part, r: Row, used: set<int>, rel: Rel, os: seq<(int, int)>): seq<Match>
    requires part.links != []
  {
    if os == [] then []
    else TryOrients(g, part, r, used, rel, os[..|os| - 1]) + TryOrient(g, part, r, used, rel, os[|os| - 1])
  }

  function TryRel(g: Graph, part: Part, r: Row, used: set<int>, rel: Rel): seq<Match>
    requires part.links != []
  {
    if rel.id in used || !part.links[0].rel.matches(rel, r) then []
    else TryOrients(g, part, r, used, rel, Orients(part.links[0].rel.dir, rel))
  }

  function RelFirstMatches(g: Graph, part: Part, r: Row, used: set<int>, rels: seq<Rel>): seq<Match>
    requires part.links != []
  {
    if rels == [] then []
    else RelFirstMatches(g, part, r, used, rels[..|rels| - 1]) + TryRel(g, part, r, used, rels[|rels| - 1])
  }

  function Scan(rels: seq<Rel>, hint: Rel -> bool): seq<Rel> {
    if rels == [] then []
    else Scan(rels[..|rels| - 1], hint) + if hint(rels[|rels| - 1]) then [rels[|rels| - 1]] else []
  }

  // --------------------------------------------------------------- running it

  ghost function FoundAll(ms: seq<Match>): seq<Event<Match>> {
    if ms == [] then [] else [Found(ms[0])] + FoundAll(ms[1..])
  }

  lemma {:induction false} FoundAllConcat(a: seq<Match>, b: seq<Match>)
    ensures FoundAll(a + b) == FoundAll(a) + FoundAll(b)
  {
    if a == [] {
      assert a + b == b;
    } else {
      assert (a + b)[0] == a[0] && (a + b)[1..] == a[1..] + b;
      FoundAllConcat(a[1..], b);
    }
  }

  lemma {:induction false} OrientsPrefix(g: Graph, part: Part, r: Row, used: set<int>, rel: Rel, os: seq<(int, int)>, k: nat)
    requires part.links != [] && k <= |os|
    ensures TryOrients(g, part, r, used, rel, os[..k]) <= TryOrients(g, part, r, used, rel, os)
    decreases |os|
  {
    hide TryOrient;
    if k < |os| {
      OrientsPrefix(g, part, r, used, rel, os[..|os| - 1], k);
      assert os[..|os| - 1][..k] == os[..k];
    } else {
      assert os[..k] == os;
    }
  }

  lemma {:induction false} RelsPrefix(g: Graph, part: Part, r: Row, used: set<int>, rels: seq<Rel>, k: nat)
    requires part.links != [] && k <= |rels|
    ensures RelFirstMatches(g, part, r, used, rels[..k]) <= RelFirstMatches(g, part, r, used, rels)
    decreases |rels|
  {
    hide TryRel;
    if k < |rels| {
      RelsPrefix(g, part, r, used, rels[..|rels| - 1], k);
      assert rels[..|rels| - 1][..k] == rels[..k];
    } else {
      assert rels[..k] == rels;
    }
  }

  /** One more batch of matches of a longer list has been handed on. */
  lemma Handed(g: Graph, limit: nat, parts: seq<Part>, done: seq<Match>, here: seq<Match>, all: seq<Match>, cap: nat,
               o0: seq<Row>, p0: bool, o1: seq<Row>, p1: bool, o2: seq<Row>, p2: bool, stop: bool)
    requires parts != [] && done + here <= all
    requires Matchers.Emitted(o0, p0, Then(g, limit, parts, FoundAll(done)), cap, o1, p1, false)
    requires Matchers.Emitted(o1, p1, Then(g, limit, parts, FoundAll(here)), cap, o2, p2, stop)
    ensures stop ==> Matchers.Emitted(o0, p0, Then(g, limit, parts, FoundAll(all)), cap, o2, p2, true)
    ensures !stop ==>
      Matchers.Emitted(o0, p0, Then(g, limit, parts, FoundAll(done + here)), cap, o2, p2, false) && Matchers.Room(cap, o2)
  {
    hide Matchers.Emitted, Then;
    var later := all[|done + here|..];
    assert all == done + (here + later);
    FoundAllConcat(done, here + later);
    FoundAllConcat(here, later);
    FoundAllConcat(done, here);
    Matchers.Continue(g, limit, parts, FoundAll(done), FoundAll(here), FoundAll(later), cap, o0, p0, o1, p1, o2, p2, stop);
  }

  /** One relationship read in one direction: it is marked used while the rest of the MATCH runs. */
  method RunOrient(mt: Matchers.Matcher, i: nat, r: Row, rel: Rel, o: (int, int)) returns (stop: bool)
    requires i < |mt.parts| && mt.parts[i].links != [] && Matchers.Room(mt.stopAfter, mt.out) && rel.id !in mt.used
    modifies mt
    ensures mt.used == old(mt.used)
    ensures Matchers.Emitted(old(mt.out), old(mt.relPruned),
        Then(mt.g, mt.relLimit, mt.parts[i..], FoundAll(TryOrient(mt.g, mt.parts[i], r, mt.used, rel, o))),
        mt.stopAfter, mt.out, mt.relPruned, stop)
  {
    hide Matchers.Emitted, Then, Rows, BindStep;
    var part := mt.parts[i];
    Matchers.ThenNone(mt.g, mt.relLimit, mt.parts[i..]);
    Matchers.EmittedNothing(mt.out, mt.relPruned, mt.stopAfter);
    stop := false;
    if o.0 !in mt.g.nodes || o.1 !in mt.g.nodes || !part.start.matches(o.0, r) {
      return;
    }
    var b := BindStep(part.links[0], rel, o.1, With(r, part.start.v, NodeV(o.0)));
    if b.Some? {
      ghost var m := Match(b.value, o.1, Path([o.0, o.1], [rel]), mt.used + {rel.id}, [Chain([rel], [o.1])]);
      assert FoundAll([m]) == [Found(m)];
      Matchers.ThenOne(mt.g, mt.relLimit, mt.parts[i..], Found(m));
      assert mt.parts[i..][1..] == mt.parts[i + 1..];
      mt.used := mt.used + {rel.id};
      stop := mt.Rec(i + 1, With(b.value, part.v, PathV(Path([o.0, o.1], [rel]))));
      mt.used := mt.used - {rel.id};
    }
  }

  /** The loop over the orientations of one relationship. */
  method RunOrients(mt: Matchers.Matcher, i: nat, r: Row, rel: Rel, os: seq<(int, int)>) returns (stop: bool)
    requires i < |mt.parts| && mt.parts[i].links != [] && Matchers.Room(mt.stopAfter, mt.out) && rel.id !in mt.used
    modifies mt
    ensures mt.used == old(mt.used)
    ensures Matchers.Emitted(old(mt.out), old(mt.relPruned),
        Then(mt.g, mt.relLimit, mt.parts[i..], FoundAll(TryOrients(mt.g, mt.parts[i], r, mt.used, rel, os))),
        mt.stopAfter, mt.out, mt.relPruned, stop)
  {
    hide Matchers.Emitted, Then, TryOrient, FoundAll;
    ghost var part := mt.parts[i];
    NoneFound(mt.g, mt.relLimit, mt.parts[i..]);
    Matchers.EmittedNothing(mt.out, mt.relPruned, mt.stopAfter);
    stop := false;
    for k := 0 to |os|
      invariant mt.used == old(mt.used) && Matchers.Room(mt.stopAfter, mt.out)
      invariant Matchers.Emitted(old(mt.out), old(mt.relPruned),
          Then(mt.g, mt.relLimit, mt.parts[i..], FoundAll(TryOrients(mt.g, part, r, mt.used, rel, os[..k]))),
          mt.stopAfter, mt.out, mt.relPruned, false)
    {
      ghost var o1, p1 := mt.out, mt.relPruned;
      assert os[..k + 1][..k] == os[..k];
      OrientsPrefix(mt.g, part, r, mt.used, rel, os, k + 1);
      stop := RunOrient(mt, i, r, rel, os[k]);
      Handed(mt.g, mt.relLimit, mt.parts[i..], TryOrients(mt.g, part, r, mt.used, rel, os[..k]), TryOrient(mt.g, part, r, mt.used, rel, os[k]),
             TryOrients(mt.g, part, r, mt.used, rel, os), mt.stopAfter, old(mt.out), old(mt.relPruned), o1, p1, mt.out, mt.relPruned, stop);
      if stop {
        return;
      }
    }
    assert os[..|os|] == os;
    stop := false;
  }

  /** `matchRelFirst`: the relationships the scan returns, each in its orientations; the rest of the
      MATCH runs for every match found, and the used set is as before. */
  method MatchRelFirst(mt: Matchers.Matcher, i: nat, r: Row, hint: Rel -> bool) returns (stop: bool)
    requires i < |mt.parts| && mt.parts[i].links != [] && Matchers.Room(mt.stopAfter, mt.out)
    modifies mt
    ensures mt.used == old(mt.used)
    ensures Matchers.Emitted(old(mt.out), old(mt.relPruned),
        Then(mt.g, mt.relLimit, mt.parts[i..], FoundAll(RelFirstMatches(mt.g, mt.parts[i], r, mt.used, Scan(mt.g.rels, hint)))),
        mt.stopAfter, mt.out, mt.relPruned, stop)
  {
    hide Matchers.Emitted, Then, TryOrients, FoundAll, Scan, Orients;
    var part := mt.parts[i];
    var rels := Scan(mt.g.rels, hint);
    NoneFound(mt.g, mt.relLimit, mt.parts[i..]);
    Matchers.EmittedNothing(mt.out, mt.relPruned, mt.stopAfter);
    stop := false;
    for k := 0 to |rels|
      invariant mt.used == old(mt.used) && Matchers.Room(mt.stopAfter, mt.out)
      invariant Matchers.Emitted(old(mt.out), old(mt.relPruned),
          Then(mt.g, mt.relLimit, mt.parts[i..], FoundAll(RelFirstMatches(mt.g, part, r, mt.used, rels[..k]))),
          mt.stopAfter, mt.out, mt.relPruned, false)
    {
      var rel := rels[k];
      ghost var done := RelFirstMatches(mt.g, part, r, mt.used, rels[..k]);
      assert rels[..k + 1][..k] == rels[..k];
      if rel.id in mt.used || !part.links[0].rel.matches(rel, r) {
        assert done + [] == done;
        continue;
      }
      ghost var o1, p1 := mt.out, mt.relPruned;
      RelsPrefix(mt.g, part, r, mt.used, rels, k + 1);
      stop := RunOrients(mt, i, r, rel, Orients(part.links[0].rel.dir, rel));
      Handed(mt.g, mt.relLimit, mt.parts[i..], done, TryRel(mt.g, part, r, mt.used, rel),
             RelFirstMatches(mt.g, part, r, mt.used, rels), mt.stopAfter, old(mt.out), old(mt.relPruned), o1, p1, mt.out, mt.relPruned, stop);
      if stop {
        return;
      }
    }
    assert rels[..|rels|] == rels;
    stop := false;
  }

  lemma NoneFound(g: Graph, limit: nat, parts: seq<Part>)
    requires parts != []
    ensures Then(g, limit, parts, FoundAll([])) == []
  {
  }

  // ------------------------------------------------------------- exactness

  lemma {:induction false} ScanMember(rels: seq<Rel>, hint: Rel -> bool)
    ensures forall rel :: rel in Scan(rels, hint) <==> rel in rels && hint(rel)
    ensures NoRepeat(rels) ==> NoRepeat(Scan(rels, hint))
  {
    if rels != [] {
      var init := rels[..|rels| - 1];
      ScanMember(init, hint);
      var last := rels[|rels| - 1];
      assert rels == init + [last];
      if NoRepeat(rels) {
        var head := Scan(init, hint);
        forall i | 0 <= i < |head|
          ensures head[i].id != last.id
        {
          assert head[i] in head;
          var k :| 0 <= k < |init| && init[k] == head[i];
          assert rels[k] == head[i] && rels[|rels| - 1] == last;
        }
      }
    }
  }

  /** The match a relationship and an orientation stand for. */
  ghost predicate Oriented(g: Graph, part: Part, r: Row, used: set<int>, rel: Rel, o: (int, int), m: Match)
    requires part.links != []
  {
    && o.0 in g.nodes && o.1 in g.nodes && part.start.matches(o.0, r)
    && var b := BindStep(part.links[0], rel, o.1, With(r, part.start.v, NodeV(o.0)));
    && b.Some?
    && m == Match(b.value, o.1, Path([o.0, o.1], [rel]), used + {rel.id}, [Chain([rel], [o.1])])
  }

  lemma OrientOf(g: Graph, part: Part, r: Row, used: set<int>, rel: Rel, o: (int, int), m: Match)
    requires part.links != [] && Oriented(g, part, r, used, rel, o, m)
    ensures m.path.nodes == [o.0, o.1]
  {
  }

  lemma {:induction false} OrientsMember(g: Graph, part: Part, r: Row, used: set<int>, rel: Rel, os: seq<(int, int)>)
    requires part.links != [] && Distinct(os)
    ensures forall m :: m in TryOrients(g, part, r, used, rel, os) <==>
        exists o :: o in os && Oriented(g, part, r, used, rel, o, m)
    ensures Distinct(TryOrients(g, part, r, used, rel, os))
  {
    if os != [] {
      var init, o := os[..|os| - 1], os[|os| - 1];
      OrientsMember(g, part, r, used, rel, init);
      var here := TryOrient(g, part, r, used, rel, o);
      assert forall m :: m in here <==> Oriented(g, part, r, used, rel, o, m);
      assert os == init + [o];
      assert forall x :: x in os <==> x in init || x == o;
      var before := TryOrients(g, part, r, used, rel, init);
      forall m | m in before
        ensures m !in here
      {
        var o' :| o' in init && Oriented(g, part, r, used, rel, o', m);
        assert o' != o;
        if Oriented(g, part, r, used, rel, o, m) {
          OrientOf(g, part, r, used, rel, o, m);
          OrientOf(g, part, r, used, rel, o', m);
          assert false;
        }
      }
      DistinctConcat(before, here);
    }
  }

  lemma OrientsExact(dir: Dir, rel: Rel)
    ensures forall a, b :: (a, b) in Orients(dir, rel) <==> Joins(dir, rel, a, b)
    ensures Distinct(Orients(dir, rel))
  {
  }

  /** A match that uses the relationship `rel` in some direction. */
  ghost predicate RelMatch(g: Graph, part: Part, r: Row, used: set<int>, rel: Rel, m: Match)
    requires part.links != []
  {
    && rel.id !in used && part.links[0].rel.matches(rel, r)
    && exists o :: o in Orients(part.links[0].rel.dir, rel) && Oriented(g, part, r, used, rel, o, m)
  }

  lemma {:induction false} RelFirstMember(g: Graph, part: Part, r: Row, used: set<int>, rels: seq<Rel>)
    requires part.links != [] && NoRepeat(rels)
    ensures forall m :: m in RelFirstMatches(g, part, r, used, rels) <==>
        exists rel :: rel in rels && RelMatch(g, part, r, used, rel, m)
    ensures Distinct(RelFirstMatches(g, part, r, used, rels))
  {
    if rels != [] {
      hide TryOrients, Oriented;
      var init, rel := rels[..|rels| - 1], rels[|rels| - 1];
      RelFirstMember(g, part, r, used, init);
      OrientsExact(part.links[0].rel.dir, rel);
      OrientsMember(g, part, r, used, rel, Orients(part.links[0].rel.dir, rel));
      var here := TryRel(g, part, r, used, rel);
      assert forall m :: m in here <==> RelMatch(g, part, r, used, rel, m);
      assert forall x :: x in rels <==> x in init || x == rel;
      var before := RelFirstMatches(g, part, r, used, init);
      forall m | m in before
        ensures m !in here
      {
        var rel' :| rel' in init && RelMatch(g, part, r, used, rel', m);
        if RelMatch(g, part, r, used, rel, m) {
          RelOf(g, part, r, used, rel', m);
          RelOf(g, part, r, used, rel, m);
          assert false;
        }
      }
      DistinctConcat(before, here);
    }
  }

  lemma RelOf(g: Graph, part: Part, r: Row, used: set<int>, rel: Rel, m: Match)
    requires part.links != [] && RelMatch(g, part, r, used, rel, m)
    ensures m.path.rels == [rel]
  {
  }

  /** A match of a single-hop link is one chain of one admissible relationship. */
  lemma SingleHop(g: Graph, part: Part, r2: Row, n: int, used: set<int>, m: Match)
    requires g.Valid() && |part.links| == 1 && part.links[0].rel.range.None?
    requires Completes(g, part.links, Begin(r2, n, used), m)
    ensures |m.path.rels| == 1 && |m.path.nodes| == 2 && m.path.nodes[0] == n
    ensures var rel, end := m.path.rels[0], m.path.nodes[1];
      && rel in g.rels && Joins(part.links[0].rel.dir, rel, n, end) && end in g.nodes
      && rel.id !in used && part.links[0].rel.matches(rel, r2)
      && var b := BindStep(part.links[0], rel, end, r2);
      && b.Some? && m == Match(b.value, end, Path([n, end], [rel]), used + {rel.id}, [Chain([rel], [end])])
  {
    hide BindStep;
    var m0 := Begin(r2, n, used);
    var c := m.chains[0];
    assert HopOk(g, part.links[0].rel, m0, c, 0);
    assert part.links[1..] == [];
    var rel := c.rels[0];
    assert c == Chain([rel], [c.nodes[0]]);
    assert Ids([rel]) == {rel.id};
    var b := Bind(part.links[0], c, At(m0, c), m0.row);
    assert m == Joined(m0, b.value, c);
    assert [] + c.rels == [rel] && [n] + c.nodes == [n, c.nodes[0]];
    assert [] + [c] == [c];
  }

  lemma HopSingle(g: Graph, part: Part, r2: Row, n: int, used: set<int>, rel: Rel, end: int, m: Match)
    requires g.Valid() && |part.links| == 1 && part.links[0].rel.range.None?
    requires rel in g.rels && Joins(part.links[0].rel.dir, rel, n, end) && end in g.nodes
    requires rel.id !in used && part.links[0].rel.matches(rel, r2)
    requires BindStep(part.links[0], rel, end, r2).Some?
    requires m == Match(BindStep(part.links[0], rel, end, r2).value, end, Path([n, end], [rel]),
                        used + {rel.id}, [Chain([rel], [end])])
    ensures Completes(g, part.links, Begin(r2, n, used), m)
  {
    hide BindStep;
    var m0 := Begin(r2, n, used);
    var c := Chain([rel], [end]);
    assert HopOk(g, part.links[0].rel, m0, c, 0);
    assert Chained(g, part.links[0].rel, m0, c);
    assert Ids([rel]) == {rel.id};
    assert m == Joined(m0, m.row, c);
    assert part.links[1..] == [];
  }

  /** The scan filter of a node plays no part in binding it. */
  lemma SameBind(l1: Link, l2: Link, rel: Rel, end: int, r: Row)
    requires l1.rel == l2.rel && l1.node.v == l2.node.v && l1.node.matches == l2.node.matches && l1.node.where == l2.node.where
    ensures BindStep(l1, rel, end, r) == BindStep(l2, rel, end, r)
  {
  }

  /** A single-hop match, spelled out. */
  lemma SingleMatch(g: Graph, part: Part, r: Row, used: set<int>, m: Match)
    requires g.Valid() && Applies(part, r) && StartFree(part, r)
    ensures PartMatch(g, Unhint(part), r, used, m) <==>
      |m.path.rels| == 1 && m.path.rels[0] in g.rels && RelMatch(g, part, r, used, m.path.rels[0], m)
  {
    hide Completes, BindStep;
    var p := Unhint(part);
    var link := part.links[0];
    if PartMatch(g, p, r, used, m) {
      var n := ChoiceOf(m).start;
      var r2 := With(r, part.start.v, NodeV(n));
      assert StartAt(g, p.start, n, r) == Some(r2);
      SingleHop(g, p, r2, n, used, m);
      SameBind(p.links[0], link, m.path.rels[0], m.path.nodes[1], r2);
      var rel, end := m.path.rels[0], m.path.nodes[1];
      assert (n, end) in Orients(link.rel.dir, rel) && RestAccepts(part, r, rel, (n, end));
      assert Oriented(g, part, r, used, rel, (n, end), m);
    }
    if |m.path.rels| == 1 && m.path.rels[0] in g.rels && RelMatch(g, part, r, used, m.path.rels[0], m) {
      var rel := m.path.rels[0];
      var o :| o in Orients(link.rel.dir, rel) && Oriented(g, part, r, used, rel, o, m);
      var r2 := With(r, part.start.v, NodeV(o.0));
      SameBind(p.links[0], link, rel, o.1, r2);
      assert RestAccepts(part, r, rel, o);
      HopSingle(g, p, r2, o.0, used, rel, o.1, m);
      assert StartAt(g, p.start, o.0, r) == Some(r2);
    }
  }

  /** Starting from the relationship finds exactly the matches of the node-first walk whose
      relationship passes the scan, each once. */
  lemma RelFirstExact(g: Graph, part: Part, r: Row, used: set<int>, hint: Rel -> bool)
    requires g.Valid() && Applies(part, r) && StartFree(part, r)
    ensures Distinct(RelFirstMatches(g, part, r, used, Scan(g.rels, hint)))
    ensures forall m :: m in RelFirstMatches(g, part, r, used, Scan(g.rels, hint)) <==>
        PartMatch(g, Unhint(part), r, used, m) && |m.path.rels| == 1 && hint(m.path.rels[0])
  {
    hide RelMatch, PartMatch;
    ScanMember(g.rels, hint);
    RelFirstMember(g, part, r, used, Scan(g.rels, hint));
    forall m
      ensures m in RelFirstMatches(g, part, r, used, Scan(g.rels, hint)) <==>
          PartMatch(g, Unhint(part), r, used, m) && |m.path.rels| == 1 && hint(m.path.rels[0])
    {
      SingleMatch(g, part, r, used, m);
      if rel :| rel in Scan(g.rels, hint) && RelMatch(g, part, r, used, rel, m) {
        RelOf(g, part, r, used, rel, m);
      }
    }
  }

  /** On every graph and whatever has been used, starting from the relationship finds what the
      node-first walk finds. */
  ghost predicate RelFirstAgrees(part: Part, r: Row)
    requires part.links != []
  {
    forall g: Graph, used, m :: g.Valid() ==>
      (m in RelFirstMatches(g, part, r, used, g.rels) <==> PartMatch(g, Unhint(part), r, used, m))
  }

  /** The one relationship between its two ends. */
  function Alone(rel: Rel): Graph {
    Graph([rel], if rel.start == rel.end then [rel.start] else [rel.start, rel.end])
  }

  function TheMatch(part: Part, r: Row, rel: Rel, o: (int, int)): Match
    requires part.links != [] && RestAccepts(part, r, rel, o)
  {
    var row := BindStep(part.links[0], rel, o.1, With(r, part.start.v, NodeV(o.0))).value;
    Match(row, o.1, Path([o.0, o.1], [rel]), {} + {rel.id}, [Chain([rel], [o.1])])
  }

  /** On that graph the plan finds the match if the relationship is admitted before the start
      variable is bound, and the walk if it is admitted after. */
  lemma AlonePlan(part: Part, r: Row, rel: Rel, o: (int, int))
    requires Applies(part, r) && o in Orients(part.links[0].rel.dir, rel) && RestAccepts(part, r, rel, o)
    ensures Alone(rel).Valid()
    ensures TheMatch(part, r, rel, o) in RelFirstMatches(Alone(rel), part, r, {}, [rel]) <==> part.links[0].rel.matches(rel, r)
  {
    var g, m := Alone(rel), TheMatch(part, r, rel, o);
    hide RelFirstMatches, BindStep;
    RelFirstMember(g, part, r, {}, [rel]);
    if part.links[0].rel.matches(rel, r) {
      assert Oriented(g, part, r, {}, rel, o, m);
      assert RelMatch(g, part, r, {}, rel, m);
      assert rel in [rel];
    }
  }

  lemma AloneWalk(part: Part, r: Row, rel: Rel, o: (int, int))
    requires Applies(part, r) && o in Orients(part.links[0].rel.dir, rel) && RestAccepts(part, r, rel, o)
    ensures PartMatch(Alone(rel), Unhint(part), r, {}, TheMatch(part, r, rel, o)) <==>
      part.links[0].rel.matches(rel, With(r, part.start.v, NodeV(o.0)))
  {
    var g, m, p := Alone(rel), TheMatch(part, r, rel, o), Unhint(part);
    var r2 := With(r, part.start.v, NodeV(o.0));
    hide Completes, BindStep;
    OrientsExact(part.links[0].rel.dir, rel);
    SameBind(p.links[0], part.links[0], rel, o.1, r2);
    assert StartAt(g, p.start, o.0, r) == Some(r2);
    assert g.Valid();
    if PartMatch(g, p, r, {}, m) {
      var n := ChoiceOf(m).start;
      SingleHop(g, p, With(r, part.start.v, NodeV(n)), n, {}, m);
      assert n == o.0;
    }
    if part.links[0].rel.matches(rel, r2) {
      HopSingle(g, p, r2, o.0, {}, rel, o.1, m);
      StartOfCompletes(g, p, r2, o.0, {}, m);
    }
  }

  lemma RelFirstLoses(part: Part, r: Row, rel: Rel, o: (int, int))
    requires Applies(part, r) && o in Orients(part.links[0].rel.dir, rel) && RestAccepts(part, r, rel, o)
    requires part.links[0].rel.matches(rel, With(r, part.start.v, NodeV(o.0))) && !part.links[0].rel.matches(rel, r)
    ensures Alone(rel).Valid() && PartMatch(Alone(rel), Unhint(part), r, {}, TheMatch(part, r, rel, o))
    ensures RelFirstMatches(Alone(rel), part, r, {}, Alone(rel).rels) == []
  {
    hide PartMatch, BindStep;
    AloneWalk(part, r, rel, o);
    assert [rel][..0] == [];
    assert TryRel(Alone(rel), part, r, {}, rel) == [];
  }

  /** The plan agrees with the walk on all graphs exactly if the map and types do not depend on the
      start variable, which `matchRelFirst` does not check. */
  lemma RelFirstIff(part: Part, r: Row)
    requires Applies(part, r)
    ensures RelFirstAgrees(part, r) <==> StartFree(part, r)
  {
    hide PartMatch, RelFirstMatches, RestAccepts, BindStep;
    var all := (rel: Rel) => true;
    if StartFree(part, r) {
      forall g: Graph, used, m | g.Valid()
        ensures m in RelFirstMatches(g, part, r, used, g.rels) <==> PartMatch(g, Unhint(part), r, used, m)
      {
        ScanAll(g.rels, all);
        RelFirstExact(g, part, r, used, all);
        if PartMatch(g, Unhint(part), r, used, m) {
          OneRelationship(g, part, r, used, m);
        }
      }
    }
    if RelFirstAgrees(part, r) {
      forall rel, o | o in Orients(part.links[0].rel.dir, rel) && RestAccepts(part, r, rel, o)
        ensures part.links[0].rel.matches(rel, With(r, part.start.v, NodeV(o.0))) == part.links[0].rel.matches(rel, r)
      {
        AlonePlan(part, r, rel, o);
        AloneWalk(part, r, rel, o);
        var g, m := Alone(rel), TheMatch(part, r, rel, o);
        assert m in RelFirstMatches(g, part, r, {}, g.rels) <==> PartMatch(g, Unhint(part), r, {}, m);
      }
    }
  }

  lemma {:induction false} ScanAll(rels: seq<Rel>, hint: Rel -> bool)
    requires forall rel :: hint(rel)
    ensures Scan(rels, hint) == rels
  {
    if rels != [] {
      ScanAll(rels[..|rels| - 1], hint);
      assert rels == rels[..|rels| - 1] + [rels[|rels| - 1]];
    }
  }

  lemma OneRelationship(g: Graph, part: Part, r: Row, used: set<int>, m: Match)
    requires g.Valid() && Applies(part, r) && PartMatch(g, Unhint(part), r, used, m)
    ensures |m.path.rels| == 1
  {
    hide Completes, BindStep;
    var p := Unhint(part);
    var n := ChoiceOf(m).start;
    SingleHop(g, p, StartAt(g, p.start, n, r).value, n, used, m);
  }
}
