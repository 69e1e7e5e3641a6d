/** The backtracking matcher: a shared used set and stacks, every push undone. */
module Matchers {
  import opened Seqs
  import opened Graphs
  import opened Walks
  import opened Patterns
  import opened Matches
  import Meanings
  import opened Parts

  /** What delivering a stream of rows to a collector does: the rows are appended until the
      collector has had enough (`cap` rows, 0 for no bound), and a cut raises the flag. */
  ghost predicate Emitted(before: seq<Row>, pruned: bool, evs: seq<Event<Row>>, cap: nat,
                          after: seq<Row>, pruned': bool, stop: bool) {
    var all := before + Founds(evs);
    if cap > 0 && |all| >= cap then stop && after == all[..cap]
    else !stop && after == all && (pruned' <==> pruned || Cut in evs)
  }

  predicate Room(cap: nat, out: seq<Row>) {
    cap == 0 || |out| < cap
  }

  lemma EmittedNothing(out: seq<Row>, pruned: bool, cap: nat)
    requires Room(cap, out)
    ensures Emitted(out, pruned, [], cap, out, pruned, false)
  {
    assert out + Founds<Row>([]) == out;
  }

  lemma EmittedAlso(o0: seq<Row>, p0: bool, a: seq<Event<Row>>, cap: nat, o1: seq<Row>, p1: bool,
                    b: seq<Event<Row>>, o2: seq<Row>, p2: bool, stop: bool)
    requires Emitted(o0, p0, a, cap, o1, p1, false) && Emitted(o1, p1, b, cap, o2, p2, stop)
    ensures Emitted(o0, p0, a + b, cap, o2, p2, stop)
  {
    FoundsConcat(a, b);
    assert o0 + (Founds(a) + Founds(b)) == (o0 + Founds(a)) + Founds(b);
  }

  lemma EmittedStopped(o0: seq<Row>, p0: bool, a: seq<Event<Row>>, cap: nat, o1: seq<Row>, p1: bool,
                       b: seq<Event<Row>>, p2: bool)
    requires Emitted(o0, p0, a, cap, o1, p1, true)
    ensures Emitted(o0, p0, a + b, cap, o1, p2, true)
  {
    FoundsConcat(a, b);
    assert o0 + (Founds(a) + Founds(b)) == (o0 + Founds(a)) + Founds(b);
  }

  /** `pathState`: the path walked since the part's start node. */
  class PathState {
    var nodes: seq<int>
    var rels: seq<Rel>

    constructor (n: int)
      ensures nodes == [n] && rels == []
    {
      nodes, rels := [n], [];
    }
  }

  /** The stacks `walkVarLength` shares with its depth-first search. */
  class ChainState {
    var rels: seq<Rel>
    var visited: seq<int>

    constructor ()
      ensures rels == [] && visited == []
    {
      rels, visited := [], [];
    }
  }

  class Matcher {
    const g: Graph
    const parts: seq<Part>
    const relLimit: nat
    const stopAfter: nat
    var used: set<int>
    var out: seq<Row>
    var relPruned: bool

    constructor (g: Graph, parts: seq<Part>, relLimit: nat, stopAfter: nat, used: set<int>)
      ensures this.g == g && this.parts == parts && this.relLimit == relLimit && this.stopAfter == stopAfter
      ensures this.used == used && out == [] && !relPruned
    {
      this.g, this.parts, this.relLimit, this.stopAfter := g, parts, relLimit, stopAfter;
      this.used, out, relPruned := used, [], false;
    }

    /** The recursion over the parts: emits the row once all of them are matched. */
    method Rec(i: nat, r: Row) returns (stop: bool)
      requires i <= |parts| && Room(stopAfter, out)
      modifies this
      ensures used == old(used)
      ensures Emitted(old(out), old(relPruned), Rows(g, relLimit, parts[i..], r, used), stopAfter, out, relPruned, stop)
      decreases |parts| - i, if i < |parts| then |parts[i].links| + 2 else 0
    {
      if i == |parts| {
        assert Founds([Found(r)]) == [r] + Founds<Row>([]);
        out := out + [r];
        stop := stopAfter > 0 && |out| >= stopAfter;
      } else {
        stop := MatchPart(i, r);
      }
    }

    /** `forEachStart`: every candidate node is tried as the start. */
    method MatchPart(i: nat, r: Row) returns (stop: bool)
      requires i < |parts| && Room(stopAfter, out)
      modifies this
      ensures used == old(used)
      ensures Emitted(old(out), old(relPruned), Rows(g, relLimit, parts[i..], r, used), stopAfter, out, relPruned, stop)
      decreases |parts| - i, |parts[i].links| + 1, Unused(g, used), 1
    {
      hide Emitted, Then, FromStart, Candidates;
      ThenNone(g, relLimit, parts[i..]);
      var part := parts[i];
      var cands := Candidates(g, part.start, r);
      ghost var rest := parts[i..];
      ghost var done: seq<Event<Match>> := [];
      EmittedNothing(out, relPruned, stopAfter);
      for k := 0 to |cands|
        invariant used == old(used) && Room(stopAfter, out)
        invariant StartEvents(g, relLimit, part, r, used, cands) == done + StartEvents(g, relLimit, part, r, used, cands[k..])
        invariant Emitted(old(out), old(relPruned), Then(g, relLimit, rest, done), stopAfter, out, relPruned, false)
      {
        assert cands[k..][0] == cands[k] && cands[k..][1..] == cands[k + 1..];
        ghost var later := StartEvents(g, relLimit, part, r, used, cands[k + 1..]);
        ghost var o1, p1 := out, relPruned;
        stop := TryStart(i, cands[k], r);
        Continue(g, relLimit, rest, done, FromStart(g, relLimit, part, r, used, cands[k]), later, stopAfter,
                 old(out), old(relPruned), o1, p1, out, relPruned, stop);
        if stop {
          return;
        }
        done := done + FromStart(g, relLimit, part, r, used, cands[k]);
      }
      assert done + [] == done;
      stop := false;
    }

    method TryStart(i: nat, n: int, r: Row) returns (stop: bool)
      requires i < |parts| && Room(stopAfter, out)
      modifies this
      ensures used == old(used)
      ensures Emitted(old(out), old(relPruned),
                      Then(g, relLimit, parts[i..], FromStart(g, relLimit, parts[i], r, used, n)),
                      stopAfter, out, relPruned, stop)
      decreases |parts| - i, |parts[i].links| + 1, Unused(g, used), 0
    {
      hide Emitted, Then, Matches.Walk, StartAt;
      var part := parts[i];
      ThenNone(g, relLimit, parts[i..]);
      EmittedNothing(out, relPruned, stopAfter);
      stop := false;
      var b := StartAt(g, part.start, n, r);
      if b.Some? {
        var ps := new PathState(n);
        assert part.links[0..] == part.links;
        stop := Walk(i, 0, n, b.value, ps, Begin(b.value, n, used));
      }
    }

    /** `walk` from link `j` on; `m` is the partial match the stacks describe. */
    method Walk(i: nat, j: nat, cur: int, r: Row, ps: PathState, ghost m: Match) returns (stop: bool)
      requires i < |parts| && j <= |parts[i].links| && Room(stopAfter, out)
      requires m.row == r && m.at == cur && m.path == Path(ps.nodes, ps.rels) && m.used == used
      modifies this, ps
      ensures used == old(used) && ps.nodes == old(ps.nodes) && ps.rels == old(ps.rels)
      ensures Emitted(old(out), old(relPruned), Then(g, relLimit, parts[i..], Matches.Walk(g, relLimit, parts[i].links[j..], m)),
                      stopAfter, out, relPruned, stop)
      decreases |parts| - i, |parts[i].links| - j, Unused(g, used), 3
    {
      hide Emitted, Rows, Then, Matches.Dfs, Hops;
      var part := parts[i];
      ghost var links := part.links[j..];
      ghost var rest := parts[i..];
      if j == |part.links| {
        var r2 := With(r, part.v, PathV(Path(ps.nodes, ps.rels)));
        assert rest[1..] == parts[i + 1..];
        stop := Rec(i + 1, r2);
        ThenOne(g, relLimit, rest, Found(m));
        return;
      }
      if OverBudget(relLimit, |ps.rels|) {
        ThenOne(g, relLimit, rest, Cut);
        EmittedCut(out, relPruned, stopAfter);
        relPruned := true;
        return false;
      }
      var link := part.links[j];
      if link.rel.range.Some? {
        var cs := new ChainState();
        assert m.used + Ids([]) == m.used;
        stop := Dfs(i, j, cur, r, ps, cs, m);
        return;
      }
      SingleHop(g, relLimit, links, m);
      stop := WalkHops(i, j, cur, r, ps, m);
    }

    /** `expand` for a single hop: every offered relationship is taken in turn. */
    method WalkHops(i: nat, j: nat, cur: int, r: Row, ps: PathState, ghost m: Match) returns (stop: bool)
      requires i < |parts| && j < |parts[i].links| && parts[i].links[j].rel.range.None? && Room(stopAfter, out)
      requires m.row == r && m.at == cur && m.path == Path(ps.nodes, ps.rels) && m.used == used
      modifies this, ps
      ensures used == old(used) && ps.nodes == old(ps.nodes) && ps.rels == old(ps.rels)
      ensures Emitted(old(out), old(relPruned),
                      Then(g, relLimit, parts[i..], Hops(g, relLimit, parts[i].links[j..], m, Chain([], []),
                                                         Offers(g, parts[i].links[j].rel.dir, cur))),
                      stopAfter, out, relPruned, stop)
      decreases |parts| - i, |parts[i].links| - j, Unused(g, used), 1
    {
      hide Emitted, Then, Matches.Walk, Take, Offers, CanTake, BindStep;
      var link := parts[i].links[j];
      ghost var links := parts[i].links[j..];
      ghost var rest := parts[i..];
      var offers := Offers(g, link.rel.dir, cur);
      ghost var done: seq<Event<Match>> := [];
      ThenNone(g, relLimit, rest);
      EmittedNothing(out, relPruned, stopAfter);
      for k := 0 to |offers|
        invariant used == old(used) && ps.nodes == old(ps.nodes) && ps.rels == old(ps.rels) && Room(stopAfter, out)
        invariant Hops(g, relLimit, links, m, Chain([], []), offers)
               == done + Hops(g, relLimit, links, m, Chain([], []), offers[k..])
        invariant Emitted(old(out), old(relPruned), Then(g, relLimit, rest, done), stopAfter, out, relPruned, false)
      {
        var h := offers[k];
        assert offers[k..][0] == h && offers[k..][1..] == offers[k + 1..] && h in offers;
        ghost var later := Hops(g, relLimit, links, m, Chain([], []), offers[k + 1..]);
        ghost var o1, p1 := out, relPruned;
        stop := TryHop(i, j, r, ps, h, m);
        Continue(g, relLimit, rest, done, Take(g, relLimit, links, m, Chain([], []), h), later, stopAfter,
                 old(out), old(relPruned), o1, p1, out, relPruned, stop);
        if stop {
          return;
        }
        done := done + Take(g, relLimit, links, m, Chain([], []), h);
      }
      assert done + [] == done;
      stop := false;
    }

    /** The callback of `expand`: bind, push, walk on, pop. */
    method TryHop(i: nat, j: nat, r: Row, ps: PathState, h: Hop, ghost m: Match) returns (stop: bool)
      requires i < |parts| && j < |parts[i].links| && parts[i].links[j].rel.range.None? && Room(stopAfter, out)
      requires m.row == r && m.path == Path(ps.nodes, ps.rels) && m.used == used && h.rel in g.rels
      modifies this, ps
      ensures used == old(used) && ps.nodes == old(ps.nodes) && ps.rels == old(ps.rels)
      ensures Emitted(old(out), old(relPruned),
                      Then(g, relLimit, parts[i..], Take(g, relLimit, parts[i].links[j..], m, Chain([], []), h)),
                      stopAfter, out, relPruned, stop)
      decreases |parts| - i, |parts[i].links| - j, Unused(g, used), 0
    {
      hide Emitted, Then, Matches.Walk, Take, BindStep;
      var link := parts[i].links[j];
      ghost var links := parts[i].links[j..];
      SingleTake(g, relLimit, links, m, h);
      ThenNone(g, relLimit, parts[i..]);
      EmittedNothing(out, relPruned, stopAfter);
      stop := false;
      if CanTake(g, link.rel, r, used, h) {
        var b := BindStep(link, h.rel, h.to, r);
        if b.Some? {
          used := used + {h.rel.id};
          ps.nodes := ps.nodes + [h.to];
          ps.rels := ps.rels + [h.rel];
          assert parts[i].links[j + 1..] == links[1..];
          stop := Walk(i, j + 1, h.to, b.value, ps, Joined(m, b.value, Chain([h.rel], [h.to])));
          ps.nodes := ps.nodes[..|ps.nodes| - 1];
          ps.rels := ps.rels[..|ps.rels| - 1];
          used := used - {h.rel.id};
        }
      }
    }

    /** `walkVarLength`'s search: the link at `j` has consumed the chain on the stacks `cs`. */
    method Dfs(i: nat, j: nat, node: int, r: Row, ps: PathState, cs: ChainState, ghost m: Match) returns (stop: bool)
      requires i < |parts| && j < |parts[i].links| && parts[i].links[j].rel.range.Some? && Room(stopAfter, out)
      requires m.row == r && m.path == Path(ps.nodes, ps.rels)
      requires node == At(m, Chain(cs.rels, cs.visited)) && used == m.used + Ids(cs.rels)
      modifies this, ps, cs
      ensures used == old(used) && ps.nodes == old(ps.nodes) && ps.rels == old(ps.rels)
      ensures cs.rels == old(cs.rels) && cs.visited == old(cs.visited)
      ensures Emitted(old(out), old(relPruned),
                      Then(g, relLimit, parts[i..], Matches.Dfs(g, relLimit, parts[i].links[j..], m, Chain(cs.rels, cs.visited))),
                      stopAfter, out, relPruned, stop)
      decreases |parts| - i, |parts[i].links| - j, Unused(g, used), 2
    {
      hide Emitted, Then, Arrive, Onward;
      var link := parts[i].links[j];
      ghost var links := parts[i].links[j..];
      ghost var rest := parts[i..];
      ghost var c := Chain(cs.rels, cs.visited);
      ghost var arrive := Arrive(g, relLimit, links, m, c);
      ghost var onward := Onward(g, relLimit, links, m, c);
      ThenNone(g, relLimit, rest);
      EmittedNothing(out, relPruned, stopAfter);
      stop := End(i, j, node, r, ps, cs, m);
      assert [] + arrive == arrive && [] + (arrive + onward) == arrive + onward;
      Continue(g, relLimit, rest, [], arrive, onward, stopAfter, old(out), old(relPruned),
               old(out), old(relPruned), out, relPruned, stop);
      if stop {
        return;
      }
      ghost var o1, p1 := out, relPruned;
      stop := Further(i, j, node, r, ps, cs, m);
      assert (arrive + onward) + [] == arrive + onward && onward + [] == onward;
      Continue(g, relLimit, rest, arrive, onward, [], stopAfter, old(out), old(relPruned),
               o1, p1, out, relPruned, stop);
    }

    /** At depth `min` or more the chain may end here: the rest of the pattern is walked with
        the chain appended to the path. */
    method End(i: nat, j: nat, node: int, r: Row, ps: PathState, cs: ChainState, ghost m: Match) returns (stop: bool)
      requires i < |parts| && j < |parts[i].links| && parts[i].links[j].rel.range.Some? && Room(stopAfter, out)
      requires m.row == r && m.path == Path(ps.nodes, ps.rels)
      requires node == At(m, Chain(cs.rels, cs.visited)) && used == m.used + Ids(cs.rels)
      modifies this, ps
      ensures used == old(used) && ps.nodes == old(ps.nodes) && ps.rels == old(ps.rels)
      ensures Emitted(old(out), old(relPruned),
                      Then(g, relLimit, parts[i..], Arrive(g, relLimit, parts[i].links[j..], m, Chain(cs.rels, cs.visited))),
                      stopAfter, out, relPruned, stop)
      decreases |parts| - i, |parts[i].links| - j, Unused(g, used), 0
    {
      hide Emitted, Then, Matches.Walk, BindVarLength;
      var link := parts[i].links[j];
      ghost var links := parts[i].links[j..];
      ghost var c := Chain(cs.rels, cs.visited);
      ThenNone(g, relLimit, parts[i..]);
      EmittedNothing(out, relPruned, stopAfter);
      stop := false;
      if |cs.rels| >= link.rel.range.value.min {
        var b := BindVarLength(link, cs.rels, node, r);
        if b.Some? {
          ps.nodes := ps.nodes + cs.visited;
          ps.rels := ps.rels + cs.rels;
          assert parts[i].links[j + 1..] == links[1..];
          stop := Walk(i, j + 1, node, b.value, ps, Joined(m, b.value, c));
          ps.nodes := ps.nodes[..|ps.nodes| - |cs.visited|];
          ps.rels := ps.rels[..|ps.rels| - |cs.rels|];
        }
      }
    }

    /** Below depth `max` and within the budget every offered relationship is pushed, searched
        from, and popped. */
    method Further(i: nat, j: nat, node: int, r: Row, ps: PathState, cs: ChainState, ghost m: Match) returns (stop: bool)
      requires i < |parts| && j < |parts[i].links| && parts[i].links[j].rel.range.Some? && Room(stopAfter, out)
      requires m.row == r && m.path == Path(ps.nodes, ps.rels)
      requires node == At(m, Chain(cs.rels, cs.visited)) && used == m.used + Ids(cs.rels)
      modifies this, ps, cs
      ensures used == old(used) && ps.nodes == old(ps.nodes) && ps.rels == old(ps.rels)
      ensures cs.rels == old(cs.rels) && cs.visited == old(cs.visited)
      ensures Emitted(old(out), old(relPruned),
                      Then(g, relLimit, parts[i..], Onward(g, relLimit, parts[i].links[j..], m, Chain(cs.rels, cs.visited))),
                      stopAfter, out, relPruned, stop)
      decreases |parts| - i, |parts[i].links| - j, Unused(g, used), 1
    {
      hide Emitted, Then, Take, Offers, CanTake, Matches.Dfs;
      var link := parts[i].links[j];
      ghost var links := parts[i].links[j..];
      ghost var rest := parts[i..];
      ghost var c := Chain(cs.rels, cs.visited);
      ThenNone(g, relLimit, rest);
      EmittedNothing(out, relPruned, stopAfter);
      if link.rel.range.value.max >= 0 && |cs.rels| >= link.rel.range.value.max {
        return false;
      }
      if OverBudget(relLimit, |ps.rels| + |cs.rels|) {
        ThenOne(g, relLimit, rest, Cut);
        EmittedCut(out, relPruned, stopAfter);
        relPruned := true;
        return false;
      }
      var offers := Offers(g, link.rel.dir, node);
      ghost var done: seq<Event<Match>> := [];
      for k := 0 to |offers|
        invariant used == old(used) && ps.nodes == old(ps.nodes) && ps.rels == old(ps.rels) && Room(stopAfter, out)
        invariant cs.rels == old(cs.rels) && cs.visited == old(cs.visited)
        invariant Hops(g, relLimit, links, m, c, offers) == done + Hops(g, relLimit, links, m, c, offers[k..])
        invariant Emitted(old(out), old(relPruned), Then(g, relLimit, rest, done), stopAfter, out, relPruned, false)
      {
        var h := offers[k];
        assert offers[k..][0] == h && offers[k..][1..] == offers[k + 1..] && h in offers;
        ghost var later := Hops(g, relLimit, links, m, c, offers[k + 1..]);
        ghost var o1, p1 := out, relPruned;
        stop := Push(i, j, r, ps, cs, h, m);
        Continue(g, relLimit, rest, done, Take(g, relLimit, links, m, c, h), later, stopAfter,
                 old(out), old(relPruned), o1, p1, out, relPruned, stop);
        if stop {
          return;
        }
        done := done + Take(g, relLimit, links, m, c, h);
      }
      assert done + [] == done;
      stop := false;
    }

    method Push(i: nat, j: nat, r: Row, ps: PathState, cs: ChainState, h: Hop, ghost m: Match) returns (stop: bool)
      requires i < |parts| && j < |parts[i].links| && parts[i].links[j].rel.range.Some? && Room(stopAfter, out)
      requires m.row == r && m.path == Path(ps.nodes, ps.rels) && h.rel in g.rels
      requires used == m.used + Ids(cs.rels)
      modifies this, ps, cs
      ensures used == old(used) && ps.nodes == old(ps.nodes) && ps.rels == old(ps.rels)
      ensures cs.rels == old(cs.rels) && cs.visited == old(cs.visited)
      ensures Emitted(old(out), old(relPruned),
                      Then(g, relLimit, parts[i..], Take(g, relLimit, parts[i].links[j..], m, Chain(cs.rels, cs.visited), h)),
                      stopAfter, out, relPruned, stop)
      decreases |parts| - i, |parts[i].links| - j, Unused(g, used), 0
    {
      hide Emitted, Then, Matches.Dfs;
      var link := parts[i].links[j];
      ghost var c := Chain(cs.rels, cs.visited);
      ThenNone(g, relLimit, parts[i..]);
      EmittedNothing(out, relPruned, stopAfter);
      stop := false;
      if CanTake(g, link.rel, r, used, h) {
        LongerUses(g, m.used, c, h);
        used := used + {h.rel.id};
        cs.rels := cs.rels + [h.rel];
        cs.visited := cs.visited + [h.to];
        stop := Dfs(i, j, h.to, r, ps, cs, m);
        cs.visited := cs.visited[..|cs.visited| - 1];
        cs.rels := cs.rels[..|cs.rels| - 1];
        used := used - {h.rel.id};
      }
    }
  }

  lemma EmittedCut(out: seq<Row>, pruned: bool, cap: nat)
    requires Room(cap, out)
    ensures Emitted(out, pruned, [Cut], cap, out, true, false)
  {
    assert Founds<Row>([Cut]) == [] + Founds<Row>([]);
    assert out + [] == out;
    assert Event<Row>.Cut in [Event<Row>.Cut];
  }

  lemma ThenNone(g: Graph, limit: nat, parts: seq<Part>)
    requires parts != []
    ensures Then(g, limit, parts, []) == []
  {
  }

  lemma ThenOne(g: Graph, limit: nat, parts: seq<Part>, ev: Event<Match>)
    requires parts != []
    ensures Then(g, limit, parts, [ev]) == Next(g, limit, parts, ev)
  {
    assert [ev][1..] == [];
    assert Next(g, limit, parts, ev) + [] == Next(g, limit, parts, ev);
  }

  /** One more batch of events has been delivered: either the collector is satisfied, which
      settles the whole stream, or the batch joins what has been delivered. */
  lemma Continue(g: Graph, limit: nat, parts: seq<Part>, done: seq<Event<Match>>, evs: seq<Event<Match>>,
                 later: seq<Event<Match>>, cap: nat, o0: seq<Row>, p0: bool, o1: seq<Row>, p1: bool,
                 o2: seq<Row>, p2: bool, stop: bool)
    requires parts != []
    requires Emitted(o0, p0, Then(g, limit, parts, done), cap, o1, p1, false)
    requires Emitted(o1, p1, Then(g, limit, parts, evs), cap, o2, p2, stop)
    ensures stop ==> Emitted(o0, p0, Then(g, limit, parts, done + (evs + later)), cap, o2, p2, true)
    ensures !stop ==> Emitted(o0, p0, Then(g, limit, parts, done + evs), cap, o2, p2, false) && Room(cap, o2)
    ensures done + (evs + later) == (done + evs) + later
  {
    ThenConcat(g, limit, parts, done, evs);
    EmittedAlso(o0, p0, Then(g, limit, parts, done), cap, o1, p1, Then(g, limit, parts, evs), o2, p2, stop);
    assert done + (evs + later) == (done + evs) + later;
    ThenConcat(g, limit, parts, done + evs, later);
    if stop {
      EmittedStopped(o0, p0, Then(g, limit, parts, done + evs), cap, o2, p2, Then(g, limit, parts, later), p2);
    }
  }

  /** A single hop is a chain of exactly one relationship. */
  lemma SingleHop(g: Graph, limit: nat, links: seq<Link>, m: Match)
    requires links != [] && links[0].rel.range.None? && !OverBudget(limit, |m.path.rels|)
    ensures Matches.Walk(g, limit, links, m)
         == Hops(g, limit, links, m, Chain([], []), Offers(g, links[0].rel.dir, m.at))
  {
    var c := Chain([], []);
    assert Arrive(g, limit, links, m, c) == [];
    assert Dfs(g, limit, links, m, c) == [] + Onward(g, limit, links, m, c);
  }

  lemma SingleTake(g: Graph, limit: nat, links: seq<Link>, m: Match, h: Hop)
    requires links != [] && links[0].rel.range.None? && h.rel in g.rels
    ensures Take(g, limit, links, m, Chain([], []), h)
         == if !CanTake(g, links[0].rel, m.row, m.used, h) then []
            else match BindStep(links[0], h.rel, h.to, m.row)
                 case None => []
                 case Some(r2) => Matches.Walk(g, limit, links[1..], Joined(m, r2, Chain([h.rel], [h.to])))
    ensures Joined(m, m.row, Chain([h.rel], [h.to])).used == m.used + {h.rel.id}
  {
    var c := Chain([], []);
    IdsPush([], h.rel);
    assert m.used + Ids([]) == m.used && [] + [h.rel] == [h.rel];
    var d := Longer(c, h);
    assert d == Chain([h.rel], [h.to]);
    if CanTake(g, links[0].rel, m.row, m.used, h) {
      LongerUses(g, m.used, c, h);
      assert Onward(g, limit, links, m, d) == [];
      assert Dfs(g, limit, links, m, d) == Arrive(g, limit, links, m, d) + [];
    }
  }

  /** `matchParts` by the plain walk: the rows of exactly the solutions, in order, each once; with
      `stopAfter`, the first so many of them. Scan hints the patterns imply cost no solution. */
  method MatchParts(g: Graph, parts: seq<Part>, r: Row, stopAfter: nat, used: set<int>) returns (rows: seq<Row>)
    requires g.Valid()
    ensures var sols := Solutions(g, parts, r, used);
      && Distinct(sols) && (forall sol :: sol in sols <==> IsSolution(g, parts, r, used, sol))
      && |rows| == (if stopAfter > 0 && |sols| > stopAfter then stopAfter else |sols|)
      && forall i :: 0 <= i < |rows| ==> Solves(g, parts, r, sols[i]) && rows[i] == RowOf(g, parts, r, sols[i])
    ensures var sols := Solutions(g, parts, r, used);
      && (forall sol :: sol in sols <==> Meanings.IsAnswer(g, parts, r, used, sol))
      && forall i :: 0 <= i < |rows| ==> Meanings.Answers(g, parts, r, sols[i], rows[i])
    ensures (forall i :: 0 <= i < |parts| ==> ScansAll(parts[i])) ==>
      forall sol :: sol in Solutions(g, parts, r, used) <==> IsSolution(g, UnhintAll(parts), r, used, sol)
  {
    hide Emitted, Rows, Solves, RowOf, IsSolution, Solutions, ScansAll, Meanings.Answers, Meanings.IsAnswer;
    var matcher := new Matcher(g, parts, 0, stopAfter, used);
    var stop := matcher.Rec(0, r);
    assert parts[0..] == parts;
    rows := matcher.out;
    EmittedRows(g, parts, r, used, stopAfter, rows, matcher.relPruned, stop);
    SolutionsExact(g, parts, r, used);
    RowsAnswer(g, parts, r, used, rows);
    if forall i :: 0 <= i < |parts| ==> ScansAll(parts[i]) {
      forall sol
        ensures IsSolution(g, parts, r, used, sol) <==> IsSolution(g, UnhintAll(parts), r, used, sol)
      {
        HintsDropNoSolution(g, parts, r, used, sol);
      }
    }
  }

  lemma RowsAnswer(g: Graph, parts: seq<Part>, r: Row, used: set<int>, rows: seq<Row>)
    requires var sols := Solutions(g, parts, r, used);
      && (forall sol :: sol in sols <==> IsSolution(g, parts, r, used, sol))
      && |rows| <= |sols| && forall i :: 0 <= i < |rows| ==> Solves(g, parts, r, sols[i]) && rows[i] == RowOf(g, parts, r, sols[i])
    ensures var sols := Solutions(g, parts, r, used);
      && (forall sol :: sol in sols <==> Meanings.IsAnswer(g, parts, r, used, sol))
      && forall i :: 0 <= i < |rows| ==> Meanings.Answers(g, parts, r, sols[i], rows[i])
  {
    hide Solutions, Solves, RowOf, IsSolution, Meanings.Answers, Meanings.IsAnswer;
    forall sol
      ensures IsSolution(g, parts, r, used, sol) <==> Meanings.IsAnswer(g, parts, r, used, sol)
    {
      Meanings.SolutionMeans(g, parts, r, used, sol);
    }
    forall i | 0 <= i < |rows|
      ensures Meanings.Answers(g, parts, r, Solutions(g, parts, r, used)[i], rows[i])
    {
      Meanings.AnswersExact(g, parts, r, Solutions(g, parts, r, used)[i], rows[i]);
    }
  }

  /** What delivering all the rows of a MATCH amounts to. */
  lemma EmittedRows(g: Graph, parts: seq<Part>, r: Row, used: set<int>, cap: nat, rows: seq<Row>, pruned: bool, stop: bool)
    requires g.Valid() && Emitted([], false, Rows(g, 0, parts, r, used), cap, rows, pruned, stop)
    ensures var sols := Solutions(g, parts, r, used);
      && |rows| == (if cap > 0 && |sols| > cap then cap else |sols|)
      && forall i :: 0 <= i < |rows| ==> Solves(g, parts, r, sols[i]) && rows[i] == RowOf(g, parts, r, sols[i])
  {
    hide Rows, Solves, RowOf, Solutions;
    RowsExact(g, parts, r, used);
    assert [] + Founds(Rows(g, 0, parts, r, used)) == Founds(Rows(g, 0, parts, r, used));
  }
}
