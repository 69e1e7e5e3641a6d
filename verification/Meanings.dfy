/** What an answer to MATCH is, link by link, in terms of the graph and of the rows before and after. */
module Meanings {
  import opened Seqs
  import opened Graphs
  import opened Walks
  import opened Patterns
  import opened Matches
  import opened Parts

  /** From `a`, a relationship pattern of that direction leads over `rel` to `b`. */
  predicate Leads(dir: Dir, rel: Rel, a: int, b: int) {
    match dir
    case DirRight => rel.start == a && rel.end == b
    case DirLeft => rel.end == a && rel.start == b
    case DirBoth => (rel.start == a && rel.end == b) || (rel.end == a && rel.start == b)
  }

  /** `after` is `before` with the two variables bound, the second one last, and nothing else changed. */
  ghost predicate Binds(before: Row, first: Option<string>, val1: Value, second: Option<string>, val2: Value, after: Row) {
    forall x: string ::
      if second == Some(x) then x in after && after[x] == val2
      else if first == Some(x) then x in after && after[x] == val1
      else (x in after <==> x in before) && (x in before ==> after[x] == before[x])
  }

  /** The part may start at `n`: a bound variable must hold it; an unbound one is bound to it, and then
      the inline WHERE must hold. */
  ghost predicate Starts(g: Graph, np: NodePat, n: int, before: Row, after: Row) {
    && n in g.nodes && np.matches(n, before)
    && if np.v.Some? && np.v.value in before then before[np.v.value] == NodeV(n) && after == before
       else np.narrow(n, before) && Binds(before, None, NullV, np.v, NodeV(n), after) && np.where(after)
  }

  predicate LengthAllowed(range: Option<Range>, n: nat) {
    match range
    case None => n == 1
    case Some(b) => b.min <= n && (b.max < 0 || n <= b.max)
  }

  /** The node the chain has reached after `i` relationships. */
  function Reached(from: int, c: Chain, i: nat): int
    requires i <= |c.nodes|
  {
    if i == 0 then from else c.nodes[i - 1]
  }

  ghost predicate Hops(g: Graph, rp: RelPat, from: int, c: Chain, row: Row) {
    && |c.nodes| == |c.rels|
    && forall i :: 0 <= i < |c.rels| ==>
      c.rels[i] in g.rels && c.nodes[i] in g.nodes && rp.matches(c.rels[i], row) && Leads(rp.dir, c.rels[i], Reached(from, c, i), c.nodes[i])
  }

  /** A bound relationship variable holds this relationship, or exactly this list. */
  predicate Agrees(range: Option<Range>, val: Value, rels: seq<Rel>) {
    if range.Some? then val == RelsV(rels) else |rels| == 1 && val.RelV? && val.rel.id == rels[0].id
  }

  function BoundTo(range: Option<Range>, rels: seq<Rel>): Value {
    if range.Some? then RelsV(rels) else if |rels| == 1 then RelV(rels[0]) else NullV
  }

  /** One link: the chain leads along the pattern to a node that matches; bound variables agree; the
      relationship, or the list of them, and the node are bound; the inline conditions hold in the new
      row, that of a relationship pattern for single hops only. */
  ghost predicate Follows(g: Graph, link: Link, from: int, c: Chain, before: Row, after: Row) {
    var rp, np := link.rel, link.node;
    && Hops(g, rp, from, c, before) && LengthAllowed(rp.range, |c.rels|)
    && var end := Reached(from, c, |c.nodes|);
    && np.matches(end, before)
    && (np.v.Some? && np.v.value in before ==> before[np.v.value] == NodeV(end))
    && (rp.v.Some? && rp.v.value in before ==> Agrees(rp.range, before[rp.v.value], c.rels))
    && Binds(before, rp.v, BoundTo(rp.range, c.rels), np.v, NodeV(end), after)
    && np.where(after) && (rp.range.None? ==> rp.where(after))
  }

  ghost predicate FollowsAll(g: Graph, links: seq<Link>, from: int, cs: seq<Chain>, before: Row, after: Row)
    decreases |links|
  {
    if links == [] then cs == [] && after == before
    else
      && cs != []
      && exists row: Row :: Follows(g, links[0], from, cs[0], before, row)
          && FollowsAll(g, links[1..], Reached(from, cs[0], |cs[0].nodes|), cs[1..], row, after)
  }

  function NodesOf(cs: seq<Chain>): seq<int> {
    if cs == [] then [] else cs[0].nodes + NodesOf(cs[1..])
  }

  ghost function PathOf(c: Choice): Value {
    PathV(Path([c.start] + NodesOf(c.chains), Rels(c.chains)))
  }

  /** One part: a start, its links one after the other, and the path variable bound at the end. */
  ghost predicate PartAnswers(g: Graph, part: Part, before: Row, c: Choice, after: Row) {
    exists started: Row, walked: Row :: AnswersVia(g, part, before, c, started, walked, after)
  }

  ghost predicate AnswersVia(g: Graph, part: Part, before: Row, c: Choice, started: Row, walked: Row, after: Row) {
    && Starts(g, part.start, c.start, before, started)
    && FollowsAll(g, part.links, c.start, c.chains, started, walked)
    && Binds(walked, None, NullV, part.v, PathOf(c), after)
  }

  /** The choices answer the parts one after the other, ending with the row `after`. */
  ghost predicate Answers(g: Graph, parts: seq<Part>, before: Row, sol: seq<Choice>, after: Row)
    decreases |parts|
  {
    if parts == [] then sol == [] && after == before
    else sol != [] && exists row: Row :: PartAnswers(g, parts[0], before, sol[0], row) && Answers(g, parts[1..], row, sol[1..], after)
  }

  lemma BindsIs(before: Row, first: Option<string>, val1: Value, second: Option<string>, val2: Value, after: Row)
    ensures Binds(before, first, val1, second, val2, after) <==> after == With(With(before, first, val1), second, val2)
  {
    var row := With(With(before, first, val1), second, val2);
    assert Binds(before, first, val1, second, val2, row);
    if Binds(before, first, val1, second, val2, after) {
      assert forall x :: x in after <==> x in row;
      assert after == row;
    }
  }

  lemma StartsIs(g: Graph, part: Part, r: Row, n: int, r0: Row)
    ensures Starts(g, part.start, n, r, r0) <==> n in Candidates(g, part.start, r) && StartAt(g, part.start, n, r) == Some(r0)
  {
    hide Binds;
    BindsIs(r, None, NullV, part.start.v, NodeV(n), r0);
  }

  lemma HopsIs(g: Graph, rp: RelPat, m: Match, c: Chain)
    ensures Hops(g, rp, m.at, c, m.row) <==> |c.nodes| == |c.rels| && forall i :: 0 <= i < |c.rels| ==> HopOk(g, rp, m, c, i)
  {
    if |c.nodes| == |c.rels| {
      forall i | 0 <= i < |c.rels|
        ensures HopOk(g, rp, m, c, i) <==>
          c.rels[i] in g.rels && c.nodes[i] in g.nodes && rp.matches(c.rels[i], m.row) && Leads(rp.dir, c.rels[i], Reached(m.at, c, i), c.nodes[i])
      {
      }
    }
  }

  lemma BindIs(link: Link, c: Chain, end: int, r: Row, r2: Row)
    requires LengthAllowed(link.rel.range, |c.rels|)
    requires forall i :: 0 <= i < |c.rels| ==> link.rel.matches(c.rels[i], r)
    ensures Bind(link, c, end, r) == Some(r2) <==>
      var rp, np := link.rel, link.node;
      && np.matches(end, r)
      && (np.v.Some? && np.v.value in r ==> r[np.v.value] == NodeV(end))
      && (rp.v.Some? && rp.v.value in r ==> Agrees(rp.range, r[rp.v.value], c.rels))
      && Binds(r, rp.v, BoundTo(rp.range, c.rels), np.v, NodeV(end), r2)
      && np.where(r2) && (rp.range.None? ==> rp.where(r2))
  {
    hide Binds, With;
    BindsIs(r, link.rel.v, BoundTo(link.rel.range, c.rels), link.node.v, NodeV(end), r2);
  }

  lemma LinkMeans(g: Graph, link: Link, m: Match, c: Chain, row: Row)
    ensures Follows(g, link, m.at, c, m.row, row) <==>
      && |c.nodes| == |c.rels| && (forall i :: 0 <= i < |c.rels| ==> HopOk(g, link.rel, m, c, i))
      && InRange(link.rel, |c.rels|) && Bind(link, c, At(m, c), m.row) == Some(row)
  {
    hide Bind, Binds, Agrees, HopOk;
    HopsIs(g, link.rel, m, c);
    if Hops(g, link.rel, m.at, c, m.row) && LengthAllowed(link.rel.range, |c.rels|) {
      BindIs(link, c, At(m, c), m.row, row);
    }
  }

  lemma {:induction false} ChainsMean(g: Graph, links: seq<Link>, m: Match, cs: seq<Chain>, row: Row)
    ensures FollowsAll(g, links, m.at, cs, m.row, row) <==> Fits(g, links, m, cs) && Replay(g, links, m, cs).row == row
    decreases |links|
  {
    hide Follows, Bind, HopOk, InRange;
    if links != [] && cs != [] {
      var c := cs[0];
      var b := Bind(links[0], c, At(m, c), m.row);
      if b.Some? {
        ChainsMean(g, links[1..], Joined(m, b.value, c), cs[1..], row);
        LinkMeans(g, links[0], m, c, b.value);
      }
      forall r1: Row
        ensures Follows(g, links[0], m.at, c, m.row, r1) ==> b == Some(r1)
      {
        LinkMeans(g, links[0], m, c, r1);
      }
    }
  }

  lemma {:induction false} ReplayPath(g: Graph, links: seq<Link>, m: Match, cs: seq<Chain>)
    requires Fits(g, links, m, cs)
    ensures Replay(g, links, m, cs).path == Path(m.path.nodes + NodesOf(cs), m.path.rels + Rels(cs))
    decreases |links|
  {
    hide Bind, HopOk, InRange;
    if links != [] {
      var c := cs[0];
      var next := Joined(m, Bind(links[0], c, At(m, c), m.row).value, c);
      ReplayPath(g, links[1..], next, cs[1..]);
      assert (m.path.nodes + c.nodes) + NodesOf(cs[1..]) == m.path.nodes + NodesOf(cs);
      assert (m.path.rels + c.rels) + Rels(cs[1..]) == m.path.rels + Rels(cs);
    } else {
      assert m.path.nodes + NodesOf(cs) == m.path.nodes && m.path.rels + Rels(cs) == m.path.rels;
    }
  }

  /** One part of the enumeration's notion of a solution, and the row it hands on. */
  ghost predicate PartSolves(g: Graph, part: Part, r: Row, c: Choice, row: Row) {
    && c.start in Candidates(g, part.start, r)
    && var b := StartAt(g, part.start, c.start, r);
    && b.Some?
    && var m := Begin(b.value, c.start, {});
    && Fits(g, part.links, m, c.chains)
    && row == Finish(part, Replay(g, part.links, m, c.chains))
  }

  lemma PartMeans(g: Graph, part: Part, r: Row, c: Choice, row: Row)
    ensures PartAnswers(g, part, r, c, row) <==> PartSolves(g, part, r, c, row)
  {
    hide Starts, FollowsAll, Binds, Candidates, StartAt, Fits, Replay;
    if PartAnswers(g, part, r, c, row) {
      var started, walked :| AnswersVia(g, part, r, c, started, walked, row);
      WalkMeans(g, part, r, c, started, walked, row);
    }
    if PartSolves(g, part, r, c, row) {
      var started := StartAt(g, part.start, c.start, r).value;
      var walked := Replay(g, part.links, Begin(started, c.start, {}), c.chains).row;
      WalkMeans(g, part, r, c, started, walked, row);
    }
  }

  lemma WalkMeans(g: Graph, part: Part, r: Row, c: Choice, started: Row, walked: Row, row: Row)
    ensures AnswersVia(g, part, r, c, started, walked, row) <==>
      && c.start in Candidates(g, part.start, r) && StartAt(g, part.start, c.start, r) == Some(started)
      && Fits(g, part.links, Begin(started, c.start, {}), c.chains)
      && Replay(g, part.links, Begin(started, c.start, {}), c.chains).row == walked
      && row == Finish(part, Replay(g, part.links, Begin(started, c.start, {}), c.chains))
  {
    hide Starts, FollowsAll, Binds, Candidates, StartAt, Fits, Replay;
    var m := Begin(started, c.start, {});
    StartsIs(g, part, r, c.start, started);
    ChainsMean(g, part.links, m, c.chains, walked);
    BindsIs(walked, None, NullV, part.v, PathOf(c), row);
    if Fits(g, part.links, m, c.chains) {
      ReplayPath(g, part.links, m, c.chains);
      var end := Replay(g, part.links, m, c.chains);
      assert [] + Rels(c.chains) == Rels(c.chains);
      assert PathV(end.path) == PathOf(c);
    }
  }

  lemma SolvesFirst(g: Graph, parts: seq<Part>, r: Row, sol: seq<Choice>, row: Row, after: Row)
    requires parts != [] && sol != [] && PartSolves(g, parts[0], r, sol[0], row)
    ensures Solves(g, parts, r, sol) <==> Solves(g, parts[1..], row, sol[1..])
    ensures Solves(g, parts, r, sol) ==> RowOf(g, parts, r, sol) == RowOf(g, parts[1..], row, sol[1..])
  {
    hide Candidates, StartAt, Fits, Replay;
  }

  lemma SolvesSplit(g: Graph, parts: seq<Part>, r: Row, sol: seq<Choice>) returns (row: Row)
    requires parts != [] && Solves(g, parts, r, sol)
    ensures sol != [] && PartSolves(g, parts[0], r, sol[0], row)
  {
    hide Candidates, StartAt, Fits, Replay;
    row := Finish(parts[0], Replay(g, parts[0].links, Begin(StartAt(g, parts[0].start, sol[0].start, r).value, sol[0].start, {}), sol[0].chains));
  }

  /** The solutions of the enumeration and their rows are exactly the answers. */
  lemma {:induction false} AnswersExact(g: Graph, parts: seq<Part>, r: Row, sol: seq<Choice>, row: Row)
    ensures Answers(g, parts, r, sol, row) <==> Solves(g, parts, r, sol) && RowOf(g, parts, r, sol) == row
    decreases |parts|
  {
    hide PartAnswers, PartSolves;
    if parts != [] && sol != [] {
      if Answers(g, parts, r, sol, row) {
        hide Solves, RowOf;
        var next: Row :| PartAnswers(g, parts[0], r, sol[0], next) && Answers(g, parts[1..], next, sol[1..], row);
        PartMeans(g, parts[0], r, sol[0], next);
        AnswersExact(g, parts[1..], next, sol[1..], row);
        SolvesFirst(g, parts, r, sol, next, row);
      }
      if Solves(g, parts, r, sol) && RowOf(g, parts, r, sol) == row {
        hide Solves, RowOf;
        var next := SolvesSplit(g, parts, r, sol);
        PartMeans(g, parts[0], r, sol[0], next);
        SolvesFirst(g, parts, r, sol, next, row);
        AnswersExact(g, parts[1..], next, sol[1..], row);
      }
    }
  }

  /** The choices answer the MATCH: no relationship occurs twice or is used already. */
  ghost predicate IsAnswer(g: Graph, parts: seq<Part>, r: Row, used: set<int>, sol: seq<Choice>) {
    Fresh(AllRels(sol), used) && exists row: Row :: Answers(g, parts, r, sol, row)
  }

  /** A solution is what answers the parts in some row and uses no relationship twice. */
  lemma SolutionMeans(g: Graph, parts: seq<Part>, r: Row, used: set<int>, sol: seq<Choice>)
    ensures IsSolution(g, parts, r, used, sol) <==> IsAnswer(g, parts, r, used, sol)
  {
    hide Answers, Solves, RowOf, Fresh;
    if Solves(g, parts, r, sol) {
      AnswersExact(g, parts, r, sol, RowOf(g, parts, r, sol));
    }
    forall row: Row
      ensures Answers(g, parts, r, sol, row) ==> Solves(g, parts, r, sol)
    {
      AnswersExact(g, parts, r, sol, row);
    }
  }
}
