/** `shortestPaths`: which of the three searches answers, and why they agree. */
module ShortestPaths {
  import opened Seqs
  import opened Graphs
  import opened Walks
  import opened BreadthFirst
  import opened Bidirectional
  import opened SlowSearch

  /** A walk with a loop cut out: the nodes at `x` and `y` are the same. */
  ghost function Cut(p: Path, x: nat, y: nat): Path
    requires x < y <= |p.rels| && |p.nodes| == |p.rels| + 1
  {
    Path(p.nodes[..x + 1] + p.nodes[y + 1..], p.rels[..x] + p.rels[y..])
  }

  lemma CutWalk(q: Search, s: int, e: int, p: Path, x: nat, y: nat)
    requires Connects(q, s, e, p) && x < y <= |p.rels| && p.nodes[x] == p.nodes[y]
    ensures Connects(q, s, e, Cut(p, x, y)) && |Cut(p, x, y).rels| < |p.rels|
  {
    var c := Cut(p, x, y);
    forall i | 0 <= i < |c.rels|
      ensures Step(q, c.nodes[i], c.rels[i], c.nodes[i + 1])
    {
      var k := if i < x then i else i - x + y;
      assert Step(q, p.nodes[k], p.rels[k], p.nodes[k + 1]);
    }
  }

  /** A shortest walk repeats no node, so it repeats no relationship. */
  lemma ShortestIsTrail(q: Search, s: int, e: int, p: Path)
    requires q.graph.Valid()
    requires Connects(q, s, e, p) && forall p' :: Connects(q, s, e, p') ==> |p.rels| <= |p'.rels|
    ensures TrailFrom(q, s, p)
  {
    forall i, j | 0 <= i < j < |p.rels|
      ensures p.rels[i].id != p.rels[j].id
    {
      if p.rels[i].id == p.rels[j].id {
        assert Step(q, p.nodes[i], p.rels[i], p.nodes[i + 1]);
        assert Step(q, p.nodes[j], p.rels[j], p.nodes[j + 1]);
        assert p.rels[i] == p.rels[j];
        CutWalk(q, s, e, p, i, if p.nodes[i] == p.nodes[j] then j else j + 1);
      }
    }
  }

  lemma {:induction false} ShortestExists(q: Search, s: int, e: int, w: Path) returns (p: Path)
    requires Connects(q, s, e, w)
    ensures Connects(q, s, e, p) && |p.rels| <= |w.rels|
    ensures forall p' :: Connects(q, s, e, p') ==> |p.rels| <= |p'.rels|
    decreases |w.rels|
  {
    if w': Path :| Connects(q, s, e, w') && |w'.rels| < |w.rels| {
      p := ShortestExists(q, s, e, w');
    } else {
      p := w;
    }
  }

  /** For distinct ends and a minimum of at most one, the node-based notion of shortest path
      is the trail-based one. */
  lemma WalksRefineTrails(q: Search, s: int, e: int, min: nat, max: int, p: Path)
    requires q.graph.Valid() && s != e && min <= 1
    ensures IsShortest(q, s, e, max, p) <==> IsShortestTrail(q, s, e, min, max, p)
  {
    if IsShortest(q, s, e, max, p) {
      ShortestIsTrail(q, s, e, p);
      assert forall p' :: LongTrail(q, s, e, min, p') ==> Connects(q, s, e, p');
    }
    if IsShortestTrail(q, s, e, min, max, p) {
      var w := ShortestExists(q, s, e, p);
      ShortestIsTrail(q, s, e, w);
      assert LongTrail(q, s, e, min, w);
    }
  }

  lemma NoneRefines(q: Search, s: int, e: int, min: nat, max: int)
    requires q.graph.Valid()
    requires forall p :: Connects(q, s, e, p) ==> !Within(max, p)
    ensures forall p :: LongTrail(q, s, e, min, p) ==> !Within(max, p)
  {
    forall p | LongTrail(q, s, e, min, p)
      ensures !Within(max, p)
    {
      assert Connects(q, s, e, p);
    }
  }

  /** The relationship leads from `a` to `b` along, against or in either direction. */
  predicate Points(dir: Dir, rel: Rel, a: int, b: int) {
    match dir
    case DirRight => (rel.start, rel.end) == (a, b)
    case DirLeft => (rel.end, rel.start) == (a, b)
    case DirBoth => (rel.start, rel.end) == (a, b) || (rel.end, rel.start) == (a, b)
  }

  /** What a trail is: relationships of the graph that the pattern admits, none used by the MATCH and none
      twice, each leading in the pattern's direction from one node to the next live one. */
  lemma TrailMeans(q: Search, s: int, e: int, min: nat, p: Path)
    ensures LongTrail(q, s, e, min, p) <==>
      && |p.nodes| == |p.rels| + 1 && p.nodes[0] == s && p.nodes[|p.rels|] == e && |p.rels| >= min
      && (forall i, j :: 0 <= i < j < |p.rels| ==> p.rels[i].id != p.rels[j].id)
      && forall i :: 0 <= i < |p.rels| ==> Traversed(q, p.nodes[i], p.rels[i], p.nodes[i + 1])
  {
    forall a, rel, b
      ensures Step(q, a, rel, b) <==> Traversed(q, a, rel, b)
    {
      assert Joins(q.dir, rel, a, b) <==> Points(q.dir, rel, a, b);
    }
    hide Step, Traversed;
  }

  predicate Traversed(q: Search, a: int, rel: Rel, b: int) {
    rel in q.graph.rels && rel.id in q.admits && rel.id !in q.used && b in q.graph.nodes && Points(q.dir, rel, a, b)
  }

  /** The effective upper bound under the engine's hop limit (0: none configured). */
  function HopBound(max: int, hops: nat): int {
    if hops > 0 && max < 0 then hops else max
  }

  /** No longer than the pattern and the engine's limit allow. */
  predicate InBounds(p: Path, max: int, hops: nat) {
    (max < 0 || |p.rels| <= max) && (hops == 0 || |p.rels| <= hops)
  }

  /** The search that answers runs over its cap: the frontier of the trail search, or the number
      of shortest paths all of which are wanted. */
  ghost predicate OverCap(q: Search, s: int, e: int, min: nat, max: int, all: bool) {
    if s == e || min > 1 then exists n: nat, ps: seq<Path> :: Overfull(q, s, e, min, n, ps) && (max < 0 || n <= max)
    else all && exists ps: seq<Path> :: TooMany(q, s, e, max, ps)
  }

  /** `shortestPaths`: whatever search answers, the result is the shortest trails of length at
      least `min`: all of them, or one. */
  method FindShortestPaths(q: Search, s: int, e: int, min: nat, max: int, all: bool, hops: nat)
    returns (r: Result<seq<Path>>)
    requires q.graph.Valid() && s in q.graph.nodes && e in q.graph.nodes
    ensures r.Error? <==> (hops > 0 && max > hops) || OverCap(q, s, e, min, HopBound(max, hops), all)
    ensures r.Ok? ==>
      && Distinct(r.value)
      && forall p :: p in r.value ==> IsShortestTrail(q, s, e, min, HopBound(max, hops), p)
    ensures r.Ok? ==> forall p :: p in r.value ==> InBounds(p, max, hops)
    ensures r.Ok? && all ==> forall p :: IsShortestTrail(q, s, e, min, HopBound(max, hops), p) ==> p in r.value
    ensures r.Ok? && !all ==> |r.value| <= 1
    ensures r == Ok([]) ==> forall p :: LongTrail(q, s, e, min, p) ==> !InBounds(p, max, hops)
  {
    var bound := max;
    if hops > 0 {
      if max > hops {
        return Error;
      }
      if max < 0 {
        bound := hops;
      }
    }
    if s == e || min > 1 {
      r := ShortestPathsSlow(q, s, e, min, bound, all);
      return;
    }
    forall p
      ensures IsShortest(q, s, e, bound, p) <==> IsShortestTrail(q, s, e, min, bound, p)
    {
      WalksRefineTrails(q, s, e, min, bound, p);
    }
    if !all {
      var ps := ShortestPathBidirectional(q, s, e, bound);
      if ps == [] {
        NoneRefines(q, s, e, min, bound);
      }
      return Ok(ps);
    }
    r := ShortestPathsBFS(q, s, e, bound, all);
    if r == Ok([]) {
      NoneRefines(q, s, e, min, bound);
    }
  }
}
