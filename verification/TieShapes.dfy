/** Which patterns iterative deepening can lose matches of, read off their lengths alone. */
module TieShapes {
  import opened Seqs
  import opened Graphs
  import opened Walks
  import opened Patterns
  import opened Matches
  import opened Budget
  import opened Parts
  import opened Selectors
  import opened Deepening

  /** A range such as `*3..2`, which no chain satisfies. */
  predicate EmptyRange(rp: RelPat) {
    0 <= High(rp) < Low(rp)
  }

  /** More than one length is in range. */
  predicate Slack(rp: RelPat) {
    High(rp) < 0 || High(rp) > Low(rp)
  }

  /** The last link may be empty or not, and an earlier one can make up the difference. */
  predicate TieShape(links: seq<Link>) {
    && |links| >= 2
    && (forall i :: 0 <= i < |links| ==> !EmptyRange(links[i].rel))
    && Low(links[|links| - 1].rel) == 0 && High(links[|links| - 1].rel) != 0
    && exists i :: 0 <= i < |links| - 1 && Slack(links[i].rel)
  }

  function LowSum(links: seq<Link>): nat {
    if links == [] then 0 else Low(links[0].rel) + LowSum(links[1..])
  }

  // --------------------------------------------------- other shapes have no ties

  lemma {:induction false} LastChain(g: Graph, links: seq<Link>, m: Match, m': Match)
    requires links != [] && Completes(g, links, m, m')
    ensures m'.chains != [] && InRange(links[|links| - 1].rel, |m'.chains[|m'.chains| - 1].rels|)
    ensures forall i :: 0 <= i < |links| ==> !EmptyRange(links[i].rel)
    ensures (forall i :: 0 <= i < |links| - 1 ==> !Slack(links[i].rel)) ==> Lead(m') == |m.path.rels| + LowSum(links[..|links| - 1])
    decreases |links|
  {
    var c := m'.chains[|m.chains|];
    var next := Joined(m, Bind(links[0], c, At(m, c), m.row).value, c);
    if |links| > 1 {
      LastChain(g, links[1..], next, m');
      assert links[..|links| - 1][0] == links[0] && links[..|links| - 1][1..] == links[1..][..|links| - 2];
      assert forall i :: 0 < i < |links| ==> links[i] == links[1..][i - 1];
    } else {
      assert m'.chains[|m'.chains| - 1] == c;
    }
  }

  lemma LastChainOf(g: Graph, part: Part, r: Row, used: set<int>, m: Match)
    requires g.Valid() && part.links != [] && m in PartMatches(g, 0, part, r, used)
    ensures m.chains != [] && InRange(part.links[|part.links| - 1].rel, |m.chains[|m.chains| - 1].rels|)
    ensures forall i :: 0 <= i < |part.links| ==> !EmptyRange(part.links[i].rel)
    ensures (forall i :: 0 <= i < |part.links| - 1 ==> !Slack(part.links[i].rel)) ==>
        Lead(m) == LowSum(part.links[..|part.links| - 1])
  {
    hide PartEvents, Founds, Completes, Slack;
    var inner := Inner(part);
    PartExact(g, inner, r, used);
    FoundsMember(PartEvents(g, 0, inner, r, used), m);
    var n := ChoiceOf(m).start;
    LastChain(g, part.links, Begin(StartAt(g, inner.start, n, r).value, n, used), m);
  }

  /** A pattern of any other shape has no ties, whatever the graph. */
  lemma NoTieOutside(g: Graph, part: Part, r: Row, used: set<int>)
    requires g.Valid() && !TieShape(part.links)
    ensures NoTie(PartMatches(g, 0, part, r, used))
  {
    var ms := PartMatches(g, 0, part, r, used);
    var last := |part.links| - 1;
    forall m | m in ms
      ensures if last < 0 then m.chains == []
        else m.chains != [] && InRange(part.links[last].rel, |m.chains[|m.chains| - 1].rels|)
      ensures last >= 0 && (forall i :: 0 <= i < last ==> !Slack(part.links[i].rel)) ==> Lead(m) == LowSum(part.links[..last])
      ensures forall i :: 0 <= i <= last ==> !EmptyRange(part.links[i].rel)
    {
      MatchShape(g, part, r, used, m);
      if last >= 0 {
        LastChainOf(g, part, r, used, m);
      }
    }
    hide LowSum, PartMatches, Slack, EmptyRange, Low, High;
    assert NoTie(ms);
  }

  // ------------------------------------------------------- this shape has a tie

  ghost predicate PermissiveNode(np: NodePat) {
    (forall n, row :: np.matches(n, row)) && (forall row :: np.where(row)) && forall n, row :: np.narrow(n, row)
  }

  ghost predicate PermissiveRel(rp: RelPat) {
    rp.v.None? && (forall rel, row :: rp.matches(rel, row)) && forall row :: rp.where(row)
  }

  ghost predicate PermissiveLinks(links: seq<Link>) {
    forall i :: 0 <= i < |links| ==> PermissiveRel(links[i].rel) && PermissiveNode(links[i].node)
  }

  /** Directions, ranges and node variables only: nothing else is asked of a match. */
  ghost predicate Permissive(part: Part) {
    PermissiveNode(part.start) && PermissiveLinks(part.links)
  }

  predicate NamedEnds(part: Part) {
    part.links != [] && part.start.v.Some? && part.links[|part.links| - 1].node.v.Some?
  }

  function LoopRels(from: nat, n: nat): seq<Rel> {
    seq(n, i requires 0 <= i < n => Rel(from + i, 0, 0))
  }

  /** One node with `n` relationships to itself. */
  function Loops(n: nat): Graph {
    Graph(LoopRels(0, n), [0])
  }

  function LoopChain(from: nat, n: nat): Chain {
    Chain(LoopRels(from, n), seq(n, i requires 0 <= i < n => 0))
  }

  function BothAtZero(part: Part): Row
    requires NamedEnds(part)
  {
    map[part.start.v.value := NodeV(0), part.links[|part.links| - 1].node.v.value := NodeV(0)]
  }

  ghost predicate AllZero(row: Row) {
    forall v :: v in row ==> row[v] == NodeV(0)
  }

  lemma LoopChained(n: nat, rp: RelPat, m: Match, from: nat, len: nat)
    requires PermissiveRel(rp) && m.at == 0 && from + len <= n && forall id :: id in m.used ==> id < from
    ensures Chained(Loops(n), rp, m, LoopChain(from, len))
    ensures forall id :: id in Ids(LoopChain(from, len).rels) ==> id < from + len
  {
    var g, c := Loops(n), LoopChain(from, len);
    forall i | 0 <= i < len
      ensures HopOk(g, rp, m, c, i)
    {
      assert g.rels[from + i] == c.rels[i];
      assert c.rels[i] in g.rels && 0 in g.nodes;
    }
  }

  lemma LoopBinds(link: Link, c: Chain, row: Row)
    requires PermissiveRel(link.rel) && PermissiveNode(link.node) && AllZero(row) && InRange(link.rel, |c.rels|)
    ensures Bind(link, c, 0, row).Some? && AllZero(Bind(link, c, 0, row).value)
  {
  }

  function Total(counts: seq<nat>): nat {
    if counts == [] then 0 else counts[0] + Total(counts[1..])
  }

  /** Walking loops: any choice of lengths in range is a match if there are enough loops. */
  lemma {:induction false} LoopCompletes(n: nat, links: seq<Link>, m: Match, from: nat, counts: seq<nat>) returns (m': Match)
    requires PermissiveLinks(links) && |counts| == |links| && forall i :: 0 <= i < |links| ==> InRange(links[i].rel, counts[i])
    requires from + Total(counts) <= n && m.at == 0 && AllZero(m.row) && forall id :: id in m.used ==> id < from
    ensures Completes(Loops(n), links, m, m') && |m'.path.rels| == |m.path.rels| + Total(counts)
    ensures m.chains <= m'.chains && |m'.chains| == |m.chains| + |links|
    ensures links != [] ==> |m'.chains[|m'.chains| - 1].rels| == counts[|counts| - 1]
    decreases |links|
  {
    if links == [] {
      m' := m;
    } else {
      var c := LoopChain(from, counts[0]);
      LoopChained(n, links[0].rel, m, from, counts[0]);
      LoopBinds(links[0], c, m.row);
      var next := Joined(m, Bind(links[0], c, 0, m.row).value, c);
      hide Chained, AllZero, Bind, PermissiveRel, PermissiveNode;
      m' := LoopCompletes(n, links[1..], next, from + counts[0], counts[1..]);
      assert m'.chains[|m.chains|] == c;
    }
  }

  function Lows(links: seq<Link>): (counts: seq<nat>)
    ensures |counts| == |links| && forall i :: 0 <= i < |links| ==> counts[i] == Low(links[i].rel)
  {
    seq(|links|, i requires 0 <= i < |links| => Low(links[i].rel))
  }

  lemma {:induction false} TotalBumped(counts: seq<nat>, i: nat)
    requires i < |counts|
    ensures Total(counts[i := counts[i] + 1]) == Total(counts) + 1
  {
    if i == 0 {
      assert counts[0 := counts[0] + 1][1..] == counts[1..];
    } else {
      TotalBumped(counts[1..], i - 1);
      assert counts[i := counts[i] + 1][1..] == counts[1..][i - 1 := counts[1..][i - 1] + 1];
    }
  }

  lemma {:induction false} TotalLows(links: seq<Link>)
    ensures Total(Lows(links)) == LowSum(links)
  {
    if links != [] {
      assert Lows(links)[1..] == Lows(links[1..]);
      TotalLows(links[1..]);
    }
  }

  lemma LoopFound(part: Part, n: nat, m: Match)
    requires Permissive(part) && NamedEnds(part)
    requires Completes(Loops(n), part.links, Begin(BothAtZero(part), 0, {}), m)
    ensures m in PartMatches(Loops(n), 0, part, BothAtZero(part), {})
  {
    hide PartEvents, Founds, Completes, PermissiveLinks;
    var inner, r := Inner(part), BothAtZero(part);
    assert StartAt(Loops(n), inner.start, 0, r) == Some(r);
    StartOfCompletes(Loops(n), inner, r, 0, {}, m);
    PartExact(Loops(n), inner, r, {});
    assert PartMatch(Loops(n), inner, r, {}, m);
    FoundsMember(PartEvents(Loops(n), 0, inner, r, {}), m);
  }

  /** Every length may be its minimum, and one of them one more. */
  ghost predicate Bumpable(links: seq<Link>, i: nat) {
    i < |links| && forall j :: 0 <= j < |links| ==> InRange(links[j].rel, Low(links[j].rel) + if j == i then 1 else 0)
  }

  /** Lengths at their minimum but for one more somewhere give a match over one loop more. */
  lemma LoopMatch(part: Part, i: nat) returns (m: Match)
    requires Permissive(part) && NamedEnds(part) && Bumpable(part.links, i)
    ensures m in PartMatches(Loops(LowSum(part.links) + 1), 0, part, BothAtZero(part), {})
    ensures |m.path.rels| == LowSum(part.links) + 1 && m.chains != []
    ensures |m.chains[|m.chains| - 1].rels| ==
      Low(part.links[|part.links| - 1].rel) + if i == |part.links| - 1 then 1 else 0
  {
    hide PartMatches, PermissiveLinks, PermissiveNode, InRange, Low, LowSum, Total, Completes;
    var links, r := part.links, BothAtZero(part);
    var counts := Lows(links)[i := Lows(links)[i] + 1];
    TotalLows(links);
    TotalBumped(Lows(links), i);
    m := LoopCompletes(LowSum(links) + 1, links, Begin(r, 0, {}), 0, counts);
    LoopFound(part, LowSum(links) + 1, m);
  }

  lemma ShapeBumps(links: seq<Link>, i: nat)
    requires TieShape(links) && i < |links| && (i == |links| - 1 || Slack(links[i].rel))
    ensures Bumpable(links, i)
  {
    assert forall j :: 0 <= j < |links| ==> !EmptyRange(links[j].rel);
  }

  /** Every pattern of this shape loses a match on some graph: one node with enough loops. */
  lemma TieShapeLoses(part: Part) returns (k: nat)
    requires Permissive(part) && NamedEnds(part) && TieShape(part.links)
    ensures var g, r := Loops(LowSum(part.links) + 1), BothAtZero(part);
      && g.Valid() && EndsBound(part, r) && k >= 1
      && |Deepened(g, part, r, {}, SelShortestGroups, k)| < |Enumerated(g, part, r, {}, SelShortestGroups, k)|
  {
    hide PartMatches, Deepened, Enumerated, LowSum, Bumpable, Permissive, Slack, EmptyRange;
    var links := part.links;
    var i :| 0 <= i < |links| - 1 && Slack(links[i].rel);
    ShapeBumps(links, i);
    ShapeBumps(links, |links| - 1);
    var x := LoopMatch(part, i);
    var y := LoopMatch(part, |links| - 1);
    k := TieLoses(Loops(LowSum(links) + 1), part, BothAtZero(part), {}, x, y);
  }

  ghost predicate Agree(g: Graph, part: Part, r: Row, used: set<int>, kind: Kind, k: nat) {
    Deepened(g, part, r, used, kind, k) == Enumerated(g, part, r, used, kind, k)
  }

  /** Deepening is right for a pattern on every graph exactly when it does not have this shape. */
  lemma TieShapeIff(part: Part)
    requires Permissive(part) && NamedEnds(part)
    ensures !TieShape(part.links) <==>
      forall g: Graph, r, used, kind, k: nat :: g.Valid() && EndsBound(part, r) && ShortestKind(kind) && k >= 1 ==>
        Agree(g, part, r, used, kind, k)
  {
    hide Deepened, Enumerated, TieShape, EndsBound, PartMatches;
    if TieShape(part.links) {
      var k := TieShapeLoses(part);
      assert !Agree(Loops(LowSum(part.links) + 1), part, BothAtZero(part), {}, SelShortestGroups, k);
      assert ShortestKind(SelShortestGroups);
    } else {
      forall g: Graph, r, used, kind, k: nat | g.Valid() && EndsBound(part, r) && ShortestKind(kind) && k >= 1
        ensures Agree(g, part, r, used, kind, k)
      {
        NoTieOutside(g, part, r, used);
        DeepeningAgrees(g, part, r, used, kind, k);
      }
    }
  }

  const ANY_NODE := NodePat(None, (n: int, r: Row) => true, (r: Row) => true, (n: int, r: Row) => true)

  function BoundTo(v: string): NodePat {
    NodePat(Some(v), (n: int, r: Row) => true, (r: Row) => true, (n: int, r: Row) => true)
  }

  /** `-[*0..]->` */
  const STAR := RelPat(None, DirRight, (rel: Rel, r: Row) => true, (r: Row) => true, Some(Range(0, -1)))

  /** `(a)-[*0..]->()-[*0..]->(c)` */
  const TWO_STARS := Part(None, BoundTo("a"), [Link(STAR, ANY_NODE), Link(STAR, BoundTo("c"))])

  /** One node with one relationship to itself. */
  const ONE_LOOP := Graph([Rel(0, 0, 0)], [0])

  const BOTH_BOUND: Row := map["a" := NodeV(0), "c" := NodeV(0)]

  /** With `a` and `c` bound to a node with a single loop, a selector over `TWO_STARS` loses one
      of the two matches of length one. */
  lemma DeepeningCanLose() returns (k: nat)
    ensures TWO_STARS.start.v == Some("a") && |TWO_STARS.links| == 2 && TWO_STARS.links[1].node.v == Some("c")
    ensures ONE_LOOP.Valid() && EndsBound(TWO_STARS, BOTH_BOUND) && k >= 1
    ensures |Deepened(ONE_LOOP, TWO_STARS, BOTH_BOUND, {}, SelShortestGroups, k)|
          < |Enumerated(ONE_LOOP, TWO_STARS, BOTH_BOUND, {}, SelShortestGroups, k)|
  {
    StarShape();
    hide Deepened, Enumerated, TieShape, LowSum, Loops, Permissive, BothAtZero, EndsBound;
    k := TieShapeLoses(TWO_STARS);
  }

  lemma StarShape()
    ensures Permissive(TWO_STARS) && NamedEnds(TWO_STARS) && TieShape(TWO_STARS.links) && LowSum(TWO_STARS.links) == 0
    ensures Loops(1) == ONE_LOOP && BothAtZero(TWO_STARS) == BOTH_BOUND
  {
    var links := TWO_STARS.links;
    assert Slack(links[0].rel);
    var tail := links[1..];
    assert tail == [Link(STAR, BoundTo("c"))] && tail[1..] == [];
    assert LowSum(tail) == 0;
    assert LoopRels(0, 1) == [Rel(0, 0, 0)];
  }
}
