/** `shortestPathBidirectional`: two searches, one from each end, until they meet. */
module Bidirectional {
  import opened Seqs
  import opened Graphs
  import opened Walks
  import opened BreadthFirst

  ghost function Backwards(p: Path): Path {
    Path(Reverse(p.nodes), Reverse(p.rels))
  }

  ghost function Head(p: Path, k: nat): Path
    requires k <= |p.rels| && |p.nodes| == |p.rels| + 1
  {
    Path(p.nodes[..k + 1], p.rels[..k])
  }

  ghost function Tail(p: Path, k: nat): Path
    requires k <= |p.rels| && |p.nodes| == |p.rels| + 1
  {
    Path(p.nodes[k..], p.rels[k..])
  }

  lemma WalkLive(q: Search, s: int, e: int, p: Path)
    requires Connects(q, s, e, p) && s in q.graph.nodes
    ensures forall i :: 0 <= i < |p.nodes| ==> p.nodes[i] in q.graph.nodes
  {
    forall i | 0 <= i < |p.nodes|
      ensures p.nodes[i] in q.graph.nodes
    {
      if i > 0 {
        assert Step(q, p.nodes[i - 1], p.rels[i - 1], p.nodes[i - 1 + 1]);
      }
    }
  }

  /** A walk read backwards is a walk of the flipped pattern. */
  lemma BackwardsWalk(q: Search, s: int, e: int, p: Path)
    requires Connects(q, s, e, p) && s in q.graph.nodes
    ensures Connects(Flip(q), e, s, Backwards(p))
  {
    WalkLive(q, s, e, p);
    var b := Backwards(p);
    forall i | 0 <= i < |b.rels|
      ensures Step(Flip(q), b.nodes[i], b.rels[i], b.nodes[i + 1])
    {
      var j := |p.rels| - 1 - i;
      assert Step(q, p.nodes[j], p.rels[j], p.nodes[j + 1]);
      StepFlips(q, p.nodes[j], p.rels[j], p.nodes[j + 1]);
    }
  }

  lemma SplitWalk(q: Search, s: int, e: int, p: Path, k: nat)
    requires Connects(q, s, e, p) && k <= |p.rels|
    ensures Connects(q, s, p.nodes[k], Head(p, k))
    ensures Connects(q, p.nodes[k], e, Tail(p, k))
  {
  }

  /** A single predecessor per node, seen as the general predecessor lists. */
  ghost function Lift(pred: map<int, Pred>): Preds {
    map n | n in pred :: [pred[n]]
  }

  /** One half of the search after whole levels. */
  ghost predicate Half(q: Search, root: int, dist: map<int, int>, pred: map<int, Pred>, front: seq<int>, depth: int) {
    depth >= 0 && root in q.graph.nodes && LevelDone(q, root, dist, Lift(pred), false, front, depth)
  }

  lemma FirstHalf(q: Search, root: int)
    requires root in q.graph.nodes
    ensures Half(q, root, map[root := 0], map[], [root], 0)
  {
  }

  lemma HalfLabels(q: Search, root: int, dist: map<int, int>, pred: map<int, Pred>, front: seq<int>, depth: int)
    requires Half(q, root, dist, pred, front, depth)
    ensures Labelled(q, root, dist, Lift(pred))
    ensures forall n :: n in dist ==> 0 <= dist[n] <= depth && n in Universe(q, root)
    ensures forall n :: n in front ==> n in dist && dist[n] == depth
  {
  }

  /** While the two balls are disjoint, every walk between the roots is longer than the
      radii together. */
  lemma Apart(q: Search, s: int, e: int, distF: map<int, int>, predF: map<int, Pred>, frontF: seq<int>, depthF: int,
              distB: map<int, int>, predB: map<int, Pred>, frontB: seq<int>, depthB: int, p: Path)
    requires Half(q, s, distF, predF, frontF, depthF) && Half(Flip(q), e, distB, predB, frontB, depthB)
    requires forall n :: n in distF ==> n !in distB
    requires Connects(q, s, e, p)
    ensures |p.rels| > depthF + depthB
    ensures frontF != [] && frontB != []
  {
    BackwardsWalk(q, s, e, p);
    if |p.rels| <= depthF + depthB {
      var k := if |p.rels| <= depthF then |p.rels| else depthF;
      SplitWalk(q, s, e, p, k);
      LabelBound(q, distF, depthF, s, p.nodes[k], Head(p, k));
      WalkLive(q, s, e, p);
      BackwardsWalk(q, p.nodes[k], e, Tail(p, k));
      LabelBound(Flip(q), distB, depthB, e, p.nodes[k], Backwards(Tail(p, k)));
      assert false;
    }
    if frontF == [] {
      assert forall a :: a in distF && distF[a] == depthF ==> a in frontF;
      LabelClosed(q, distF, s, e, p);
      assert false;
    }
    if frontB == [] {
      assert forall a :: a in distB && distB[a] == depthB ==> a in frontB;
      LabelClosed(Flip(q), distB, e, s, Backwards(p));
      assert false;
    }
  }

  /** The best meeting node among the nodes a level has just labelled. */
  ghost predicate Met(next: seq<int>, depth: int, other: map<int, int>, meet: Option<int>, best: int) {
    match meet
    case None => best == -1 && forall n :: n in next ==> n !in other
    case Some(m) =>
      && m in next && m in other && best == depth + 1 + other[m]
      && forall n :: n in next && n in other ==> other[m] <= other[n]
  }

  /** `dist` is `before` with exactly the nodes of `next` added. */
  ghost predicate Grown(before: map<int, int>, dist: map<int, int>, next: seq<int>) {
    && (forall n :: n in before ==> n in dist)
    && (forall n :: n in next ==> n in dist && n !in before)
    && (forall n :: n in dist ==> n in before || n in next)
  }

  lemma VisitNewSingle(q: Search, root: int, dist: map<int, int>, pred: map<int, Pred>, front: seq<int>, i: nat,
                       tried: seq<Hop>, next: seq<int>, depth: int, h: Hop)
    requires i < |front| && depth >= 0 && Distinct(front)
    requires InLevel(q, root, dist, Lift(pred), false, front, i, tried, next, depth)
    requires Step(q, front[i], h.rel, h.to) && h.to !in dist
    ensures InLevel(q, root, dist[h.to := depth + 1], Lift(pred[h.to := Pred(h.rel, front[i])]), false, front, i,
                    tried + [h], next + [h.to], depth)
  {
    hide InLevel;
    VisitNew(q, root, dist, Lift(pred), false, front, i, tried, next, depth, h);
    assert Lift(pred[h.to := Pred(h.rel, front[i])]) == Lift(pred)[h.to := [Pred(h.rel, front[i])]];
  }

  /** The running minimum over the nodes labelled by both searches. */
  function Nearer(depth: int, other: map<int, int>, meet: Option<int>, best: int, n: int): (Option<int>, int) {
    if n in other && (best < 0 || depth + 1 + other[n] < best) then (Some(n), depth + 1 + other[n]) else (meet, best)
  }

  lemma NearerMet(next: seq<int>, depth: int, other: map<int, int>, meet: Option<int>, best: int, n: int)
    requires depth >= 0 && (forall m :: m in other ==> 0 <= other[m])
    requires Met(next, depth, other, meet, best)
    ensures var (m, b) := Nearer(depth, other, meet, best, n); Met(next + [n], depth, other, m, b)
  {
  }

  /** One level of one half, noting where it meets the other half. */
  method Advance(q: Search, ghost root: int, dist0: map<int, int>, pred0: map<int, Pred>,
                 front: seq<int>, depth: int, other: map<int, int>)
    returns (dist: map<int, int>, pred: map<int, Pred>, next: seq<int>, meet: Option<int>, best: int)
    requires q.graph.Valid() && Half(q, root, dist0, pred0, front, depth)
    requires forall n :: n in other ==> 0 <= other[n]
    ensures Half(q, root, dist, pred, next, depth + 1)
    ensures Grown(dist0, dist, next)
    ensures Met(next, depth, other, meet, best)
  {
    hide InLevel, LevelDone, Lift;
    LevelStarts(q, root, dist0, Lift(pred0), false, front, depth);
    dist, pred, next, meet, best := dist0, pred0, [], None, -1;
    for i := 0 to |front|
      invariant InLevel(q, root, dist, Lift(pred), false, front, i, [], next, depth)
      invariant Grown(dist0, dist, next)
      invariant Met(next, depth, other, meet, best)
    {
      var node := front[i];
      var hops := Expand(q, node);
      for j := 0 to |hops|
        invariant InLevel(q, root, dist, Lift(pred), false, front, i, hops[..j], next, depth)
        invariant Grown(dist0, dist, next)
        invariant Met(next, depth, other, meet, best)
      {
        var h := hops[j];
        assert h in hops && h !in hops[..j];
        assert hops[..j + 1] == hops[..j] + [h];
        if h.to in dist {
          VisitSeen(q, root, dist, Lift(pred), false, front, i, hops[..j], next, depth, h);
        } else {
          VisitNewSingle(q, root, dist, pred, front, i, hops[..j], next, depth, h);
          NearerMet(next, depth, other, meet, best, h.to);
          dist := dist[h.to := depth + 1];
          pred := pred[h.to := Pred(h.rel, node)];
          next := next + [h.to];
          if h.to in other {
            var total := depth + 1 + other[h.to];
            if best < 0 || total < best {
              best, meet := total, Some(h.to);
            }
          }
        }
      }
      assert hops[..|hops|] == hops;
      NodeFinished(q, root, dist, Lift(pred), false, front, i, hops, next, depth);
    }
    LevelFinished(q, root, dist, Lift(pred), false, front, next, depth);
  }

  /** The forward half of the answer: `s` ... `meet`, rebuilt towards `s`. */
  method TraceBack(q: Search, s: int, dist: map<int, int>, pred: map<int, Pred>, meet: int) returns (p: Path)
    requires Labelled(q, s, dist, Lift(pred)) && meet in dist
    ensures Connects(q, s, meet, p) && |p.rels| == dist[meet]
  {
    p := Path([meet], []);
    var n := meet;
    while n != s
      invariant n in dist && Connects(q, n, meet, p) && |p.rels| == dist[meet] - dist[n]
      decreases dist[n]
    {
      assert Lift(pred)[n] == [pred[n]];
      var pr := pred[n];
      assert PredOf(q, dist, n, pr);
      p := Path([pr.from] + p.nodes, [pr.rel] + p.rels);
      n := pr.from;
    }
  }

  /** The backward half: continues a path at `meet` along the backward labels to `e`. */
  method TraceOn(q: Search, s: int, e: int, dist: map<int, int>, pred: map<int, Pred>, meet: int, head: Path)
    returns (p: Path)
    requires Labelled(Flip(q), e, dist, Lift(pred)) && meet in dist && e in q.graph.nodes
    requires Connects(q, s, meet, head)
    ensures Connects(q, s, e, p) && |p.rels| == |head.rels| + dist[meet]
  {
    p := head;
    var n := meet;
    while n != e
      invariant n in dist && Connects(q, s, n, p) && |p.rels| == |head.rels| + dist[meet] - dist[n]
      decreases dist[n]
    {
      assert Lift(pred)[n] == [pred[n]];
      var pr := pred[n];
      assert PredOf(Flip(q), dist, n, pr);
      StepFlips(q, n, pr.rel, pr.from);
      ExtendWalk(q, s, n, p, pr.rel, pr.from);
      p := Extend(p, pr.rel, pr.from);
      n := pr.from;
    }
  }

  /** For distinct ends: no path exactly when none is short enough, otherwise one of the
      shortest. */
  method ShortestPathBidirectional(q: Search, s: int, e: int, max: int) returns (r: seq<Path>)
    requires q.graph.Valid() && s != e && s in q.graph.nodes && e in q.graph.nodes
    ensures |r| <= 1
    ensures r == [] <==> forall p :: Connects(q, s, e, p) ==> !Within(max, p)
    ensures forall p :: p in r ==> IsShortest(q, s, e, max, p)
  {
    hide Half, Labelled, Connects;
    FirstHalf(q, s);
    FirstHalf(Flip(q), e);
    var back := Flip(q);
    var distF, distB := map[s := 0], map[e := 0];
    var predF: map<int, Pred>, predB: map<int, Pred> := map[], map[];
    var frontF, frontB := [s], [e];
    var depthF, depthB := 0, 0;
    var meet: Option<int>, best := None, -1;
    while |frontF| > 0 && |frontB| > 0 && meet.None?
      invariant Half(q, s, distF, predF, frontF, depthF) && Half(back, e, distB, predB, frontB, depthB)
      invariant meet.None? ==> forall n :: n in distF ==> n !in distB
      invariant meet.Some? ==> meet.value in distF && meet.value in distB
      invariant meet.Some? ==> best == distF[meet.value] + distB[meet.value] && best <= depthF + depthB
      invariant meet.Some? ==> forall p :: Connects(q, s, e, p) ==> |p.rels| >= depthF + depthB
      invariant meet.Some? ==> max < 0 || best <= max
      decreases Universe(q, s) - distF.Keys, Universe(q, e) - distB.Keys, |frontF| + |frontB|
    {
      forall p | Connects(q, s, e, p)
        ensures |p.rels| > depthF + depthB
      {
        Apart(q, s, e, distF, predF, frontF, depthF, distB, predB, frontB, depthB, p);
      }
      if max >= 0 && depthF + depthB >= max {
        return [];
      }
      HalfLabels(q, s, distF, predF, frontF, depthF);
      HalfLabels(back, e, distB, predB, frontB, depthB);
      var next;
      if |frontF| <= |frontB| {
        ghost var before := distF;
        distF, predF, next, meet, best := Advance(q, s, distF, predF, frontF, depthF, distB);
        HalfLabels(q, s, distF, predF, next, depthF + 1);
        Shrinks(q, s, before, distF, next);
        frontF, depthF := next, depthF + 1;
      } else {
        ghost var before := distB;
        distB, predB, next, meet, best := Advance(back, e, distB, predB, frontB, depthB, distF);
        HalfLabels(back, e, distB, predB, next, depthB + 1);
        Shrinks(back, e, before, distB, next);
        frontB, depthB := next, depthB + 1;
      }
    }
    if meet.None? || (max >= 0 && best > max) {
      if p: Path :| meet.None? && Connects(q, s, e, p) {
        Apart(q, s, e, distF, predF, frontF, depthF, distB, predB, frontB, depthB, p);
        assert false;
      }
      return [];
    }
    HalfLabels(q, s, distF, predF, frontF, depthF);
    HalfLabels(back, e, distB, predB, frontB, depthB);
    var head := TraceBack(q, s, distF, predF, meet.value);
    var p := TraceOn(q, s, e, distB, predB, meet.value, head);
    assert IsShortest(q, s, e, max, p);
    r := [p];
  }

  lemma Shrinks(q: Search, root: int, before: map<int, int>, dist: map<int, int>, next: seq<int>)
    requires Grown(before, dist, next)
    requires forall n :: n in dist ==> n in Universe(q, root)
    ensures Universe(q, root) - dist.Keys <= Universe(q, root) - before.Keys
    ensures next == [] ==> dist.Keys == before.Keys
    ensures next != [] ==> Universe(q, root) - dist.Keys < Universe(q, root) - before.Keys
  {
    forall n | n in before.Keys
      ensures n in dist.Keys
    {
      assert n in before;
    }
    if next == [] {
      forall n | n in dist.Keys
        ensures n in before.Keys
      {
        assert n in dist;
      }
    } else {
      var n := next[0];
      assert n in next && n in Universe(q, root) - before.Keys;
    }
  }
}
