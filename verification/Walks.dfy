/** Walks over the step relation and the distance labels breadth-first search keeps:
    a label is the length of a shortest walk. */
module Walks {
  import opened Seqs
  import opened Graphs

  /** `nodes[i]` and `nodes[i+1]` are joined by `rels[i]`. */
  datatype Path = Path(nodes: seq<int>, rels: seq<Rel>)

  ghost predicate IsWalk(q: Search, p: Path) {
    && |p.nodes| == |p.rels| + 1
    && forall i :: 0 <= i < |p.rels| ==> Step(q, p.nodes[i], p.rels[i], p.nodes[i + 1])
  }

  ghost predicate Connects(q: Search, s: int, e: int, p: Path) {
    IsWalk(q, p) && p.nodes[0] == s && p.nodes[|p.rels|] == e
  }

  ghost predicate Within(max: int, p: Path) {
    max < 0 || |p.rels| <= max
  }

  /** A walk from `s` to `e` of at most `max` steps (any number if `max < 0`) than which
      no walk from `s` to `e` is shorter. */
  ghost predicate IsShortest(q: Search, s: int, e: int, max: int, p: Path) {
    && Connects(q, s, e, p)
    && Within(max, p)
    && forall p' :: Connects(q, s, e, p') ==> |p.rels| <= |p'.rels|
  }

  function Extend(p: Path, rel: Rel, n: int): Path {
    Path(p.nodes + [n], p.rels + [rel])
  }

  /** The walk without its last step. */
  function Init(p: Path): Path
    requires |p.rels| > 0 && |p.nodes| > 0
  {
    Path(p.nodes[..|p.nodes| - 1], p.rels[..|p.rels| - 1])
  }

  lemma ExtendWalk(q: Search, s: int, n: int, p: Path, rel: Rel, m: int)
    requires Connects(q, s, n, p) && Step(q, n, rel, m)
    ensures Connects(q, s, m, Extend(p, rel, m))
  {
  }

  lemma InitWalk(q: Search, s: int, n: int, p: Path)
    requires Connects(q, s, n, p) && |p.rels| > 0
    ensures Connects(q, s, p.nodes[|p.rels| - 1], Init(p))
    ensures Step(q, p.nodes[|p.rels| - 1], p.rels[|p.rels| - 1], n)
    ensures p == Extend(Init(p), p.rels[|p.rels| - 1], n)
  {
  }

  /** Every step out of `a` has been taken, and leads to a label at most one larger. */
  ghost predicate Expanded(q: Search, dist: map<int, int>, a: int) {
    a in dist && forall rel, b :: Step(q, a, rel, b) ==> b in dist && dist[b] <= dist[a] + 1
  }

  /** All nodes labelled below `depth` have been expanded. */
  ghost predicate ExpandedBelow(q: Search, dist: map<int, int>, depth: int) {
    forall a :: a in dist && dist[a] < depth ==> Expanded(q, dist, a)
  }

  /** Labels never overestimate the length of a walk inside the expanded region. */
  lemma {:induction false} LabelBound(q: Search, dist: map<int, int>, depth: int, s: int, n: int, p: Path)
    requires s in dist && dist[s] == 0
    requires ExpandedBelow(q, dist, depth)
    requires Connects(q, s, n, p) && |p.rels| <= depth
    ensures n in dist && dist[n] <= |p.rels|
    decreases |p.rels|
  {
    if |p.rels| > 0 {
      InitWalk(q, s, n, p);
      LabelBound(q, dist, depth, s, p.nodes[|p.rels| - 1], Init(p));
    }
  }

  /** Once the whole labelled region is expanded, nothing outside it is reachable. */
  lemma {:induction false} LabelClosed(q: Search, dist: map<int, int>, s: int, n: int, p: Path)
    requires s in dist && forall a :: a in dist ==> Expanded(q, dist, a)
    requires Connects(q, s, n, p)
    ensures n in dist
    decreases |p.rels|
  {
    if |p.rels| > 0 {
      InitWalk(q, s, n, p);
      LabelClosed(q, dist, s, p.nodes[|p.rels| - 1], Init(p));
    }
  }

  /** All nodes a search from `s` can label. */
  ghost function Universe(q: Search, s: int): set<int> {
    {s} + set n | n in q.graph.nodes
  }
}
