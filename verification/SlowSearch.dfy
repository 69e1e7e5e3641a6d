/** `shortestPathsSlow`: whole trails extended level by level, for cycles and minimum lengths above one. */
module SlowSearch {
  import opened Seqs
  import opened Graphs
  import opened Walks

  const MAX_FRONTIER := 100000

  ghost predicate TrailFrom(q: Search, s: int, p: Path) {
    IsWalk(q, p) && p.nodes[0] == s && NoRepeat(p.rels)
  }

  /** A trail from `s` to `e` of at least `min` relationships. */
  ghost predicate LongTrail(q: Search, s: int, e: int, min: nat, p: Path) {
    TrailFrom(q, s, p) && p.nodes[|p.rels|] == e && |p.rels| >= min
  }

  /** A trail within [min, max] than which no trail of length at least `min` is shorter. */
  ghost predicate IsShortestTrail(q: Search, s: int, e: int, min: nat, max: int, p: Path) {
    && LongTrail(q, s, e, min, p)
    && Within(max, p)
    && forall p' :: LongTrail(q, s, e, min, p') ==> |p.rels| <= |p'.rels|
  }

  /** `mergeUsed`: the search state in which the relationships of a path are taken too. */
  function Taking(q: Search, rels: seq<Rel>): Search {
    q.(used := q.used + Ids(rels))
  }

  lemma TakingStep(q: Search, s: int, p: Path, rel: Rel, b: int)
    requires TrailFrom(q, s, p)
    ensures Step(Taking(q, p.rels), p.nodes[|p.rels|], rel, b)
       <==> Step(q, p.nodes[|p.rels|], rel, b) && NoRepeat(p.rels + [rel])
  {
    if rel.id in Ids(p.rels) {
      var k :| 0 <= k < |p.rels| && p.rels[k].id == rel.id;
      assert (p.rels + [rel])[k].id == (p.rels + [rel])[|p.rels|].id;
    } else {
      forall k | 0 <= k < |p.rels|
        ensures p.rels[k].id != rel.id
      {
        assert p.rels[k] in p.rels;
      }
    }
  }

  lemma TrailExtends(q: Search, s: int, p: Path, h: Hop)
    requires TrailFrom(q, s, p) && Step(Taking(q, p.rels), p.nodes[|p.rels|], h.rel, h.to)
    ensures TrailFrom(q, s, Extend(p, h.rel, h.to))
    ensures Init(Extend(p, h.rel, h.to)) == p && LastHop(Extend(p, h.rel, h.to)) == h
  {
    TakingStep(q, s, p, h.rel, h.to);
    ExtendWalk(q, s, p.nodes[|p.rels|], p, h.rel, h.to);
  }

  function LastHop(p: Path): Hop
    requires |p.rels| > 0 && |p.nodes| == |p.rels| + 1
  {
    Hop(p.rels[|p.rels| - 1], p.nodes[|p.rels|])
  }

  lemma TrailShrinks(q: Search, s: int, p: Path)
    requires TrailFrom(q, s, p) && |p.rels| > 0
    ensures TrailFrom(q, s, Init(p)) && p == Extend(Init(p), LastHop(p).rel, LastHop(p).to)
    ensures Step(Taking(q, Init(p).rels), Init(p).nodes[|p.rels| - 1], LastHop(p).rel, LastHop(p).to)
  {
    InitWalk(q, s, p.nodes[|p.rels|], p);
    TakingStep(q, s, Init(p), LastHop(p).rel, LastHop(p).to);
    assert Init(p).rels + [LastHop(p).rel] == p.rels;
  }

  /** A trail is no longer than the number of relationships. */
  lemma TrailFits(q: Search, s: int, p: Path)
    requires TrailFrom(q, s, p)
    ensures |p.rels| <= |q.graph.rels|
  {
    forall r | r in p.rels
      ensures r in q.graph.rels
    {
      var i :| 0 <= i < |p.rels| && p.rels[i] == r;
      assert Step(q, p.nodes[i], p.rels[i], p.nodes[i + 1]);
    }
    DistinctFits(p.rels, q.graph.rels);
  }

  /** The frontier of a level: all trails of that length, none of them an answer. */
  ghost predicate TrailLevel(q: Search, s: int, e: int, min: nat, frontier: seq<Path>, depth: nat) {
    && Distinct(frontier)
    && (forall p :: p in frontier <==> TrailFrom(q, s, p) && |p.rels| == depth)
    && (forall p :: LongTrail(q, s, e, min, p) ==> |p.rels| > depth)
  }

  /** The trails one level has produced after `done` trails, and `tried` hops of the next. */
  ghost predicate Produced(q: Search, s: int, frontier: seq<Path>, depth: nat, done: nat, tried: seq<Hop>, p: Path)
    requires done <= |frontier|
  {
    && TrailFrom(q, s, p) && |p.rels| == depth + 1
    && (|| Init(p) in frontier[..done]
        || (done < |frontier| && Init(p) == frontier[done] && LastHop(p) in tried))
  }

  predicate Hits(e: int, min: nat, p: Path)
    requires |p.nodes| == |p.rels| + 1
  {
    p.nodes[|p.rels|] == e && |p.rels| >= min
  }

  ghost predicate Sorted(q: Search, s: int, e: int, min: nat, frontier: seq<Path>, depth: nat, done: nat,
                         tried: seq<Hop>, found: seq<Path>, next: seq<Path>)
    requires done <= |frontier|
  {
    && Distinct(found) && Distinct(next)
    && (forall p :: p in found <==> Produced(q, s, frontier, depth, done, tried, p) && Hits(e, min, p))
    && (forall p :: p in next <==> Produced(q, s, frontier, depth, done, tried, p) && !Hits(e, min, p))
  }

  lemma SortOne(q: Search, s: int, e: int, min: nat, frontier: seq<Path>, depth: nat, i: nat,
                tried: seq<Hop>, found: seq<Path>, next: seq<Path>, h: Hop)
    requires i < |frontier| && TrailLevel(q, s, e, min, frontier, depth)
    requires Sorted(q, s, e, min, frontier, depth, i, tried, found, next)
    requires h !in tried && Step(Taking(q, frontier[i].rels), frontier[i].nodes[|frontier[i].rels|], h.rel, h.to)
    ensures var p := Extend(frontier[i], h.rel, h.to);
      && |p.nodes| == |p.rels| + 1
      && Sorted(q, s, e, min, frontier, depth, i, tried + [h],
                if Hits(e, min, p) then found + [p] else found, if Hits(e, min, p) then next else next + [p])
  {
    var base := frontier[i];
    assert base in frontier;
    TrailExtends(q, s, base, h);
    var p := Extend(base, h.rel, h.to);
    assert base !in frontier[..i];
    assert !Produced(q, s, frontier, depth, i, tried, p);
    forall p'
      ensures Produced(q, s, frontier, depth, i, tried + [h], p') <==>
              Produced(q, s, frontier, depth, i, tried, p') || p' == p
    {
      if Produced(q, s, frontier, depth, i, tried + [h], p') && !Produced(q, s, frontier, depth, i, tried, p') {
        TrailShrinks(q, s, p');
      }
    }
  }

  lemma SortedTrail(q: Search, s: int, e: int, min: nat, frontier: seq<Path>, depth: nat, i: nat,
                    hops: seq<Hop>, found: seq<Path>, next: seq<Path>)
    requires i < |frontier| && TrailLevel(q, s, e, min, frontier, depth)
    requires Sorted(q, s, e, min, frontier, depth, i, hops, found, next)
    requires forall h :: h in hops <==>
        Step(Taking(q, frontier[i].rels), frontier[i].nodes[|frontier[i].rels|], h.rel, h.to)
    ensures Sorted(q, s, e, min, frontier, depth, i + 1, [], found, next)
  {
    assert frontier[..i + 1] == frontier[..i] + [frontier[i]];
    forall p
      ensures Produced(q, s, frontier, depth, i + 1, [], p) <==> Produced(q, s, frontier, depth, i, hops, p)
    {
      if TrailFrom(q, s, p) && |p.rels| == depth + 1 {
        TrailShrinks(q, s, p);
      }
    }
  }

  lemma SortedLevel(q: Search, s: int, e: int, min: nat, frontier: seq<Path>, depth: nat,
                    found: seq<Path>, next: seq<Path>)
    requires TrailLevel(q, s, e, min, frontier, depth)
    requires Sorted(q, s, e, min, frontier, depth, |frontier|, [], found, next)
    ensures forall p :: p in found <==> LongTrail(q, s, e, min, p) && |p.rels| == depth + 1
    ensures found == [] ==> TrailLevel(q, s, e, min, next, depth + 1)
  {
    assert frontier[..|frontier|] == frontier;
    forall p
      ensures Produced(q, s, frontier, depth, |frontier|, [], p) <==> TrailFrom(q, s, p) && |p.rels| == depth + 1
    {
      if TrailFrom(q, s, p) && |p.rels| == depth + 1 {
        TrailShrinks(q, s, p);
      }
    }
  }

  /** One level of the search: extends every trail of the frontier by every admissible hop. */
  method ExtendTrails(q: Search, ghost s: int, e: int, min: nat, frontier: seq<Path>, ghost depth: nat)
    returns (found: seq<Path>, next: seq<Path>)
    requires q.graph.Valid() && TrailLevel(q, s, e, min, frontier, depth)
    ensures Sorted(q, s, e, min, frontier, depth, |frontier|, [], found, next)
  {
    found, next := [], [];
    for i := 0 to |frontier|
      invariant Sorted(q, s, e, min, frontier, depth, i, [], found, next)
    {
      var base := frontier[i];
      assert base in frontier;
      var node := base.nodes[|base.rels|];
      var hops := Expand(Taking(q, base.rels), node);
      for j := 0 to |hops|
        invariant Sorted(q, s, e, min, frontier, depth, i, hops[..j], found, next)
      {
        var h := hops[j];
        assert h in hops && h !in hops[..j];
        assert hops[..j + 1] == hops[..j] + [h];
        SortOne(q, s, e, min, frontier, depth, i, hops[..j], found, next, h);
        var p := Extend(base, h.rel, h.to);
        if h.to == e && |p.rels| >= min {
          found := found + [p];
        } else {
          next := next + [p];
        }
      }
      assert hops[..|hops|] == hops;
      SortedTrail(q, s, e, min, frontier, depth, i, hops, found, next);
    }
  }

  /** More trails of length `n` than the frontier may hold, and no answer up to that length. */
  ghost predicate Overfull(q: Search, s: int, e: int, min: nat, n: nat, ps: seq<Path>) {
    && |ps| > MAX_FRONTIER && Distinct(ps) && n > 0
    && (forall p :: p in ps ==> TrailFrom(q, s, p) && |p.rels| == n)
    && (forall p :: LongTrail(q, s, e, min, p) ==> |p.rels| > n)
  }

  lemma LevelFits(q: Search, s: int, e: int, min: nat, frontier: seq<Path>, depth: nat, ps: seq<Path>)
    requires TrailLevel(q, s, e, min, frontier, depth) && Overfull(q, s, e, min, depth, ps)
    ensures |frontier| > MAX_FRONTIER
  {
    DistinctFits(ps, frontier);
  }

  /** Exactly the shortest trails of length at least `min` (one of them unless `all`);
      it fails exactly when a level before the answer holds more trails than the cap. */
  method ShortestPathsSlow(q: Search, s: int, e: int, min: nat, max: int, all: bool) returns (r: Result<seq<Path>>)
    requires q.graph.Valid()
    ensures r.Ok? ==> Distinct(r.value) && forall p :: p in r.value ==> IsShortestTrail(q, s, e, min, max, p)
    ensures r.Ok? && all ==> forall p :: IsShortestTrail(q, s, e, min, max, p) ==> p in r.value
    ensures r.Ok? && !all ==> |r.value| <= 1
    ensures r == Ok([]) ==> forall p :: LongTrail(q, s, e, min, p) ==> !Within(max, p)
    ensures r.Error? <==> exists n: nat, ps: seq<Path> :: Overfull(q, s, e, min, n, ps) && (max < 0 || n <= max)
  {
    if s == e && min == 0 {
      OnlyEmptyTrail(q, s, max);
      return Ok([Path([s], [])]);
    }
    var found: seq<Path> := [];
    var frontier := [Path([s], [])];
    var depth := 0;
    assert TrailLevel(q, s, e, min, frontier, depth) by {
      forall p | TrailFrom(q, s, p) && |p.rels| == 0
        ensures p in frontier
      {
        assert p == Path([s], []);
      }
    }
    while |frontier| > 0 && (max < 0 || depth < max) && |found| == 0
      invariant found == [] && TrailLevel(q, s, e, min, frontier, depth)
      invariant max < 0 || depth <= max || depth == 0
      invariant forall n: nat, ps: seq<Path> :: Overfull(q, s, e, min, n, ps) ==> n > depth
      decreases |q.graph.rels| + 1 - depth
    {
      TrailFits(q, s, frontier[0]);
      var next;
      found, next := ExtendTrails(q, s, e, min, frontier, depth);
      SortedLevel(q, s, e, min, frontier, depth, found, next);
      if |found| > 0 {
        assert found[0] in found && LongTrail(q, s, e, min, found[0]);
        assert forall n: nat, ps: seq<Path> :: !Overfull(q, s, e, min, n, ps);
        break;
      }
      frontier := next;
      depth := depth + 1;
      if |frontier| > MAX_FRONTIER {
        assert Overfull(q, s, e, min, depth, frontier);
        return Error;
      }
      forall n: nat, ps: seq<Path> | Overfull(q, s, e, min, n, ps)
        ensures n > depth
      {
        if n == depth {
          LevelFits(q, s, e, min, frontier, depth, ps);
        }
      }
    }
    if found == [] {
      forall p | LongTrail(q, s, e, min, p)
        ensures !Within(max, p)
      {
        if |frontier| == 0 {
          TrailPrefix(q, s, p, depth);
          assert false;
        }
      }
    }
    if n: nat, ps: seq<Path> :| Overfull(q, s, e, min, n, ps) && (max < 0 || n <= max) {
      if found == [] {
        assert ps[0] in ps;
        TrailPrefix(q, s, ps[0], depth);
      }
      assert false;
    }
    if !all && |found| > 1 {
      found := found[..1];
    }
    r := Ok(found);
  }

  lemma OnlyEmptyTrail(q: Search, s: int, max: int)
    ensures forall p :: p in [Path([s], [])] <==> IsShortestTrail(q, s, s, 0, max, p)
  {
    var trivial := Path([s], []);
    assert LongTrail(q, s, s, 0, trivial);
    forall p | IsShortestTrail(q, s, s, 0, max, p)
      ensures p == trivial
    {
      assert |p.rels| <= |trivial.rels|;
    }
  }

  /** A longer trail passes through a trail of every smaller length. */
  lemma TrailPrefix(q: Search, s: int, p: Path, k: nat)
    requires TrailFrom(q, s, p) && k <= |p.rels|
    ensures TrailFrom(q, s, Path(p.nodes[..k + 1], p.rels[..k]))
  {
  }
}
