/** `shortestPathsBFS`: level-by-level search, and the paths rebuilt from predecessors. */
module BreadthFirst {
  import opened Seqs
  import opened Graphs
  import opened Walks

  const MAX_SHORTEST_PATHS := 100000

  datatype Pred = Pred(rel: Rel, from: int)

  type Preds = map<int, seq<Pred>>

  /** Labels and predecessor lists agree: a predecessor is one step away and one label below. */
  ghost predicate Labelled(q: Search, s: int, dist: map<int, int>, preds: Preds) {
    && s in dist && dist[s] == 0
    && (forall n :: n in dist ==> 0 <= dist[n] && (dist[n] == 0 ==> n == s) && n in Universe(q, s))
    && (forall n :: n in preds <==> n in dist && n != s)
    && (forall n :: n in preds ==> preds[n] != [] && Distinct(preds[n]))
    && (forall n, pr :: n in preds && pr in preds[n] ==> PredOf(q, dist, n, pr))
  }

  ghost predicate PredOf(q: Search, dist: map<int, int>, n: int, pr: Pred) {
    && n in dist && pr.from in dist && dist[n] == dist[pr.from] + 1
    && Step(q, pr.from, pr.rel, n)
  }

  /** Every tight step out of `a` is remembered as a predecessor. */
  ghost predicate Recorded(q: Search, dist: map<int, int>, preds: Preds, a: int) {
    && a in dist
    && forall rel, b :: Step(q, a, rel, b) && b in dist && dist[b] == dist[a] + 1
        ==> b in preds && Pred(rel, a) in preds[b]
  }

  ghost predicate RecordedBelow(q: Search, dist: map<int, int>, preds: Preds, depth: int) {
    forall a :: a in dist && dist[a] < depth ==> Recorded(q, dist, preds, a)
  }

  // ---------------------------------------------------------------- the search

  /** Between levels: labels up to `depth`, the frontier being exactly the nodes at `depth`. */
  ghost predicate LevelDone(q: Search, s: int, dist: map<int, int>, preds: Preds, all: bool,
                            frontier: seq<int>, depth: int) {
    && Labelled(q, s, dist, preds)
    && Distinct(frontier)
    && (forall n :: n in frontier <==> n in dist && dist[n] == depth)
    && (forall n :: n in dist ==> dist[n] <= depth)
    && ExpandedBelow(q, dist, depth)
    && (all ==> RecordedBelow(q, dist, preds, depth))
  }

  /** Inside a level: `done` frontier nodes are expanded, and of the next one the hops `tried`. */
  ghost predicate InLevel(q: Search, s: int, dist: map<int, int>, preds: Preds, all: bool,
                          frontier: seq<int>, done: nat, tried: seq<Hop>, next: seq<int>, depth: int)
    requires done <= |frontier|
  {
    && Labelled(q, s, dist, preds)
    && (forall n :: n in frontier <==> n in dist && dist[n] == depth)
    && (forall n :: n in next <==> n in dist && dist[n] == depth + 1)
    && (forall n :: n in dist ==> dist[n] <= depth + 1)
    && Distinct(next)
    && ExpandedBelow(q, dist, depth)
    && (forall i :: 0 <= i < done ==> Expanded(q, dist, frontier[i]))
    && (forall h :: h in tried ==> h.to in dist && dist[h.to] <= depth + 1)
    && (all ==> RecordedBelow(q, dist, preds, depth))
    && (all ==> forall i :: 0 <= i < done ==> Recorded(q, dist, preds, frontier[i]))
    && (all && done < |frontier| ==>
          (forall h :: h in tried && dist[h.to] == depth + 1 ==>
            h.to in preds && Pred(h.rel, frontier[done]) in preds[h.to]))
    && (forall n, pr :: n in next && n in preds && pr in preds[n] ==>
        || pr.from in frontier[..done]
        || (done < |frontier| && pr.from == frontier[done] && Hop(pr.rel, n) in tried))
  }

  lemma VisitNewLabels(q: Search, s: int, dist: map<int, int>, preds: Preds, depth: int, node: int, h: Hop)
    requires Labelled(q, s, dist, preds) && depth >= 0 && node in dist && dist[node] == depth
    requires Step(q, node, h.rel, h.to) && h.to !in dist
    ensures Labelled(q, s, dist[h.to := depth + 1], preds[h.to := [Pred(h.rel, node)]])
  {
    var d, p := dist[h.to := depth + 1], preds[h.to := [Pred(h.rel, node)]];
    forall m, pr | m in p && pr in p[m]
      ensures PredOf(q, d, m, pr)
    {
      if m != h.to {
        assert PredOf(q, dist, m, pr);
      }
    }
  }

  lemma VisitNewKeeps(q: Search, dist: map<int, int>, preds: Preds, n: int, d: int, pr: Pred, a: int)
    requires n !in dist && a in dist && dist[a] < d && Expanded(q, dist, a)
    ensures Expanded(q, dist[n := d], a)
    ensures Recorded(q, dist, preds, a) ==> Recorded(q, dist[n := d], preds[n := [pr]], a)
  {
  }

  lemma VisitNew(q: Search, s: int, dist: map<int, int>, preds: Preds, all: bool,
                 frontier: seq<int>, i: nat, tried: seq<Hop>, next: seq<int>, depth: int, h: Hop)
    requires i < |frontier| && depth >= 0 && Distinct(frontier)
    requires InLevel(q, s, dist, preds, all, frontier, i, tried, next, depth)
    requires Step(q, frontier[i], h.rel, h.to) && h.to !in dist
    ensures InLevel(q, s, dist[h.to := depth + 1], preds[h.to := [Pred(h.rel, frontier[i])]], all,
                    frontier, i, tried + [h], next + [h.to], depth)
  {
    hide Labelled, Expanded, Recorded;
    var pr := Pred(h.rel, frontier[i]);
    var d, p := dist[h.to := depth + 1], preds[h.to := [pr]];
    assert frontier[i] in frontier;
    VisitNewLabels(q, s, dist, preds, depth, frontier[i], h);
    forall a | a in dist && Expanded(q, dist, a) && dist[a] <= depth
      ensures Expanded(q, d, a) && (Recorded(q, dist, preds, a) ==> Recorded(q, d, p, a))
    {
      VisitNewKeeps(q, dist, preds, h.to, depth + 1, pr, a);
    }
    assert forall k :: 0 <= k < i ==> frontier[k] in frontier;
  }

  lemma VisitSeenLabels(q: Search, s: int, dist: map<int, int>, preds: Preds, n: int, pr: Pred)
    requires Labelled(q, s, dist, preds) && n in preds && PredOf(q, dist, n, pr) && pr !in preds[n]
    ensures Labelled(q, s, dist, preds[n := preds[n] + [pr]])
    ensures forall a :: Recorded(q, dist, preds, a) ==> Recorded(q, dist, preds[n := preds[n] + [pr]], a)
  {
  }

  lemma VisitSeen(q: Search, s: int, dist: map<int, int>, preds: Preds, all: bool,
                  frontier: seq<int>, i: nat, tried: seq<Hop>, next: seq<int>, depth: int, h: Hop)
    requires i < |frontier| && depth >= 0 && Distinct(frontier)
    requires InLevel(q, s, dist, preds, all, frontier, i, tried, next, depth)
    requires Step(q, frontier[i], h.rel, h.to) && h !in tried && h.to in dist
    ensures all && dist[h.to] == depth + 1 ==>
      && h.to in preds
      && InLevel(q, s, dist, preds[h.to := preds[h.to] + [Pred(h.rel, frontier[i])]], all,
                 frontier, i, tried + [h], next, depth)
    ensures !(all && dist[h.to] == depth + 1) ==>
      InLevel(q, s, dist, preds, all, frontier, i, tried + [h], next, depth)
  {
    if all && dist[h.to] == depth + 1 {
      var pr := Pred(h.rel, frontier[i]);
      assert frontier[i] in frontier;
      assert h.to in next && h.to in preds;
      assert pr !in preds[h.to];
      assert PredOf(q, dist, h.to, pr);
      VisitSeenLabels(q, s, dist, preds, h.to, pr);
      hide Labelled, Expanded, Recorded;
      assert InLevel(q, s, dist, preds[h.to := preds[h.to] + [pr]], all, frontier, i, tried + [h], next, depth);
    }
  }

  lemma LevelStarts(q: Search, s: int, dist: map<int, int>, preds: Preds, all: bool, frontier: seq<int>, depth: int)
    requires LevelDone(q, s, dist, preds, all, frontier, depth)
    ensures InLevel(q, s, dist, preds, all, frontier, 0, [], [], depth) && Distinct(frontier)
  {
  }

  lemma LevelFinished(q: Search, s: int, dist: map<int, int>, preds: Preds, all: bool,
                      frontier: seq<int>, next: seq<int>, depth: int)
    requires InLevel(q, s, dist, preds, all, frontier, |frontier|, [], next, depth)
    ensures LevelDone(q, s, dist, preds, all, next, depth + 1)
  {
    forall a | a in dist && dist[a] < depth + 1
      ensures Expanded(q, dist, a) && (all ==> Recorded(q, dist, preds, a))
    {
      if dist[a] == depth {
        assert a in frontier;
      }
    }
  }

  lemma NodeFinished(q: Search, s: int, dist: map<int, int>, preds: Preds, all: bool,
                     frontier: seq<int>, i: nat, hops: seq<Hop>, next: seq<int>, depth: int)
    requires i < |frontier| && depth >= 0
    requires InLevel(q, s, dist, preds, all, frontier, i, hops, next, depth)
    requires forall h :: h in hops <==> Step(q, frontier[i], h.rel, h.to)
    ensures InLevel(q, s, dist, preds, all, frontier, i + 1, [], next, depth)
  {
    var node := frontier[i];
    assert node in frontier;
    forall rel, b | Step(q, node, rel, b)
      ensures b in dist && dist[b] <= dist[node] + 1
      ensures all && dist[b] == dist[node] + 1 ==> b in preds && Pred(rel, node) in preds[b]
    {
      assert Hop(rel, b) in hops;
    }
    assert Expanded(q, dist, node) && (all ==> Recorded(q, dist, preds, node));
    assert frontier[..i + 1] == frontier[..i] + [node];
  }

  // ---------------------------------------------------------------- rebuilding

  /** The paths the predecessor lists describe, in the order they are rebuilt. */
  ghost function PathsTo(q: Search, s: int, dist: map<int, int>, preds: Preds, all: bool, n: int): seq<Path>
    requires Labelled(q, s, dist, preds) && n in dist
    decreases dist[n]
  {
    if n == s then [Path([s], [])]
    else PathsVia(q, s, dist, preds, all, n, if all then preds[n] else preds[n][..1])
  }

  ghost function PathsVia(q: Search, s: int, dist: map<int, int>, preds: Preds, all: bool, n: int, prs: seq<Pred>)
    : seq<Path>
    requires Labelled(q, s, dist, preds) && n in dist
    requires forall pr :: pr in prs ==> PredOf(q, dist, n, pr)
    decreases dist[n], |prs|
  {
    if prs == [] then []
    else
      assert PredOf(q, dist, n, prs[0]);
      ExtendAll(PathsTo(q, s, dist, preds, all, prs[0].from), prs[0].rel, n) +
      PathsVia(q, s, dist, preds, all, n, prs[1..])
  }

  ghost function ExtendAll(ps: seq<Path>, rel: Rel, n: int): (r: seq<Path>)
    ensures |r| == |ps| && forall i :: 0 <= i < |ps| ==> r[i] == Extend(ps[i], rel, n)
  {
    seq(|ps|, i requires 0 <= i < |ps| => Extend(ps[i], rel, n))
  }

  /** Soundness and uniqueness: the rebuilt paths are walks of the labelled length, without
      repetition; following only first predecessors gives exactly one. */
  lemma {:induction false} PathsToSound(q: Search, s: int, dist: map<int, int>, preds: Preds, all: bool, n: int)
    requires Labelled(q, s, dist, preds) && n in dist
    ensures forall p :: p in PathsTo(q, s, dist, preds, all, n) ==> Connects(q, s, n, p) && |p.rels| == dist[n]
    ensures Distinct(PathsTo(q, s, dist, preds, all, n))
    ensures PathsTo(q, s, dist, preds, all, n) != []
    ensures !all ==> |PathsTo(q, s, dist, preds, all, n)| == 1
    decreases dist[n]
  {
    if n != s {
      var prs := if all then preds[n] else preds[n][..1];
      PathsViaSound(q, s, dist, preds, all, n, prs);
      if !all {
        assert prs[1..] == [];
        assert PredOf(q, dist, n, prs[0]);
        PathsToSound(q, s, dist, preds, all, prs[0].from);
      }
    }
  }

  /** The walks to `pr.from`, each extended by the step over `pr`. */
  ghost predicate Through(q: Search, s: int, n: int, len: int, prs: seq<Pred>, p: Path) {
    && Connects(q, s, n, p) && |p.rels| == len && len > 0
    && Pred(p.rels[len - 1], p.nodes[len - 1]) in prs
  }

  lemma ExtendAllThrough(q: Search, s: int, n: int, len: int, pr: Pred, ps: seq<Path>)
    requires Step(q, pr.from, pr.rel, n) && Distinct(ps)
    requires forall p :: p in ps ==> Connects(q, s, pr.from, p) && |p.rels| + 1 == len
    ensures forall p :: p in ExtendAll(ps, pr.rel, n) ==> Through(q, s, n, len, [pr], p)
    ensures Distinct(ExtendAll(ps, pr.rel, n))
  {
    var here := ExtendAll(ps, pr.rel, n);
    forall i | 0 <= i < |here|
      ensures Through(q, s, n, len, [pr], here[i]) && Init(here[i]) == ps[i]
    {
      assert ps[i] in ps;
      ExtendWalk(q, s, pr.from, ps[i], pr.rel, n);
    }
  }

  lemma {:induction false} PathsViaSound(q: Search, s: int, dist: map<int, int>, preds: Preds, all: bool,
                                         n: int, prs: seq<Pred>)
    requires Labelled(q, s, dist, preds) && n in dist && Distinct(prs)
    requires forall pr :: pr in prs ==> PredOf(q, dist, n, pr)
    ensures forall p :: p in PathsVia(q, s, dist, preds, all, n, prs) ==> Through(q, s, n, dist[n], prs, p)
    ensures Distinct(PathsVia(q, s, dist, preds, all, n, prs))
    ensures prs != [] ==> PathsVia(q, s, dist, preds, all, n, prs) != []
    decreases dist[n], |prs|
  {
    if prs != [] {
      var pr := prs[0];
      assert PredOf(q, dist, n, pr);
      PathsToSound(q, s, dist, preds, all, pr.from);
      PathsViaSound(q, s, dist, preds, all, n, prs[1..]);
      var shorter := PathsTo(q, s, dist, preds, all, pr.from);
      ExtendAllThrough(q, s, n, dist[n], pr, shorter);
      DistinctConcat(ExtendAll(shorter, pr.rel, n), PathsVia(q, s, dist, preds, all, n, prs[1..]));
    }
  }

  /** Completeness: if all nodes below `n` are expanded and recorded, every walk of the
      labelled length is rebuilt. */
  lemma {:induction false} PathsToComplete(q: Search, s: int, dist: map<int, int>, preds: Preds, n: int, p: Path)
    requires Labelled(q, s, dist, preds) && n in dist
    requires ExpandedBelow(q, dist, dist[n]) && RecordedBelow(q, dist, preds, dist[n])
    requires Connects(q, s, n, p) && |p.rels| == dist[n]
    ensures p in PathsTo(q, s, dist, preds, true, n)
    decreases dist[n]
  {
    if n == s {
      assert p == Path([s], []);
    } else {
      InitWalk(q, s, n, p);
      var m := p.nodes[|p.rels| - 1];
      LabelBound(q, dist, dist[n], s, m, Init(p));
      assert Expanded(q, dist, m) && Recorded(q, dist, preds, m);
      PathsToComplete(q, s, dist, preds, m, Init(p));
      PathsViaMember(q, s, dist, preds, n, preds[n], Pred(p.rels[|p.rels| - 1], m), Init(p));
    }
  }

  lemma {:induction false} PathsViaMember(q: Search, s: int, dist: map<int, int>, preds: Preds, n: int,
                                          prs: seq<Pred>, pr: Pred, p: Path)
    requires Labelled(q, s, dist, preds) && n in dist && pr in prs
    requires forall x :: x in prs ==> PredOf(q, dist, n, x)
    requires pr.from in dist && p in PathsTo(q, s, dist, preds, true, pr.from)
    ensures Extend(p, pr.rel, n) in PathsVia(q, s, dist, preds, true, n, prs)
    decreases |prs|
  {
    if pr == prs[0] {
      var ps := PathsTo(q, s, dist, preds, true, pr.from);
      var i :| 0 <= i < |ps| && ps[i] == p;
      assert ExtendAll(ps, pr.rel, n)[i] == Extend(p, pr.rel, n);
    } else {
      PathsViaMember(q, s, dist, preds, n, prs[1..], pr, p);
    }
  }

  /** A rebuilt path completed by the steps already on the builder's two stacks. */
  ghost function Completed(p: Path, nodes: seq<int>, rels: seq<Rel>): Path {
    Path(p.nodes + Reverse(nodes), p.rels + Reverse(rels))
  }

  ghost function CompleteAll(ps: seq<Path>, nodes: seq<int>, rels: seq<Rel>): (r: seq<Path>)
    ensures |r| == |ps| && forall i :: 0 <= i < |ps| ==> r[i] == Completed(ps[i], nodes, rels)
  {
    seq(|ps|, i requires 0 <= i < |ps| => Completed(ps[i], nodes, rels))
  }

  lemma PushCompletes(ps: seq<Path>, nodes: seq<int>, rels: seq<Rel>, n: int, rel: Rel)
    ensures CompleteAll(ps, nodes + [n], rels + [rel]) == CompleteAll(ExtendAll(ps, rel, n), nodes, rels)
  {
    assert (nodes + [n])[..|nodes|] == nodes && (rels + [rel])[..|rels|] == rels;
    forall i | 0 <= i < |ps|
      ensures Completed(ps[i], nodes + [n], rels + [rel]) == Completed(Extend(ps[i], rel, n), nodes, rels)
    {
      assert ps[i].nodes + ([n] + Reverse(nodes)) == (ps[i].nodes + [n]) + Reverse(nodes);
      assert ps[i].rels + ([rel] + Reverse(rels)) == (ps[i].rels + [rel]) + Reverse(rels);
    }
  }

  lemma CompleteAllConcat(a: seq<Path>, b: seq<Path>, nodes: seq<int>, rels: seq<Rel>)
    ensures CompleteAll(a + b, nodes, rels) == CompleteAll(a, nodes, rels) + CompleteAll(b, nodes, rels)
  {
  }

  /** What a collector holds when more than `cap` results are an error: the first `cap + 1`. */
  ghost function Capped<T>(s: seq<T>, cap: nat): seq<T> {
    if |s| <= cap then s else s[..cap + 1]
  }

  /** The state `pathsFromPreds` shares with its recursive walk: the paths found and the
      two stacks of the steps from the current node to the target. */
  class PathBuilder {
    ghost const q: Search
    const s: int
    ghost const dist: map<int, int>
    const preds: Preds
    const all: bool
    var out: seq<Path>
    var rels: seq<Rel>
    var nodes: seq<int>

    constructor (q: Search, s: int, ghost dist: map<int, int>, preds: Preds, all: bool)
      ensures this.q == q && this.s == s && this.dist == dist && this.preds == preds && this.all == all
      ensures out == [] && rels == [] && nodes == []
    {
      this.q, this.s, this.dist, this.preds, this.all := q, s, dist, preds, all;
      out, rels, nodes := [], [], [];
    }

    /** Appends every path to `n`, completed by the stacks, and restores the stacks;
        false once the cap is exceeded. */
    method Walk(n: int) returns (ok: bool)
      requires Labelled(q, s, dist, preds) && n in dist
      requires |out| <= MAX_SHORTEST_PATHS
      modifies this
      ensures nodes == old(nodes) && rels == old(rels)
      ensures var found := old(out) + CompleteAll(PathsTo(q, s, dist, preds, all, n), nodes, rels);
              out == Capped(found, MAX_SHORTEST_PATHS) && ok == (|found| <= MAX_SHORTEST_PATHS)
      decreases dist[n]
    {
      if n == s {
        var p := Path([s] + Reverse(nodes), Reverse(rels));
        assert [] + Reverse(rels) == Reverse(rels);
        out := out + [p];
        return |out| <= MAX_SHORTEST_PATHS;
      }
      ghost var prs := if all then preds[n] else preds[n][..1];
      ghost var found := old(out) + CompleteAll(PathsVia(q, s, dist, preds, all, n, prs), nodes, rels);
      assert prs[0..] == prs;
      for i := 0 to |preds[n]|
        invariant i <= |prs| && (!all ==> i == 0)
        invariant nodes == old(nodes) && rels == old(rels)
        invariant found == out + CompleteAll(PathsVia(q, s, dist, preds, all, n, prs[i..]), nodes, rels)
        invariant |out| <= MAX_SHORTEST_PATHS
      {
        var pr := preds[n][i];
        assert prs[i..][0] == pr && prs[i..][1..] == prs[i + 1..] && PredOf(q, dist, n, pr);
        ghost var before := out;
        ghost var here := PathsTo(q, s, dist, preds, all, pr.from);
        ghost var rest := PathsVia(q, s, dist, preds, all, n, prs[i + 1..]);
        rels, nodes := rels + [pr.rel], nodes + [n];
        ok := Walk(pr.from);
        rels, nodes := rels[..|rels| - 1], nodes[..|nodes| - 1];
        assert nodes == old(nodes) && rels == old(rels);
        PushCompletes(here, nodes, rels, n, pr.rel);
        Resume(found, before, ExtendAll(here, pr.rel, n), rest, nodes, rels, MAX_SHORTEST_PATHS);
        if !ok || !all {
          assert !all ==> rest == [];
          return;
        }
      }
      ok := true;
    }
  }

  /** Splitting the still expected paths after the first batch keeps their total, cut or not. */
  lemma Resume(found: seq<Path>, out: seq<Path>, batch: seq<Path>, rest: seq<Path>,
               nodes: seq<int>, rels: seq<Rel>, cap: nat)
    requires found == out + CompleteAll(batch + rest, nodes, rels)
    ensures found == (out + CompleteAll(batch, nodes, rels)) + CompleteAll(rest, nodes, rels)
    ensures |out + CompleteAll(batch, nodes, rels)| > cap ==>
        Capped(found, cap) == Capped(out + CompleteAll(batch, nodes, rels), cap)
  {
    CompleteAllConcat(batch, rest, nodes, rels);
  }

  /** The label tables when the search has stopped with `e` labelled. */
  ghost predicate Answers(q: Search, s: int, e: int, max: int, all: bool, dist: map<int, int>, preds: Preds) {
    && Labelled(q, s, dist, preds)
    && e in dist && (max < 0 || dist[e] <= max)
    && ExpandedBelow(q, dist, dist[e])
    && (all ==> RecordedBelow(q, dist, preds, dist[e]))
  }

  lemma RebuiltShortest(q: Search, s: int, e: int, max: int, all: bool, dist: map<int, int>, preds: Preds)
    requires Answers(q, s, e, max, all, dist, preds)
    ensures forall p :: p in PathsTo(q, s, dist, preds, all, e) ==> IsShortest(q, s, e, max, p)
    ensures all ==> forall p :: IsShortest(q, s, e, max, p) ==> p in PathsTo(q, s, dist, preds, all, e)
  {
    var found := PathsTo(q, s, dist, preds, all, e);
    PathsToSound(q, s, dist, preds, all, e);
    forall p | Connects(q, s, e, p)
      ensures dist[e] <= |p.rels|
      ensures all && |p.rels| == dist[e] ==> p in found
    {
      if |p.rels| <= dist[e] {
        LabelBound(q, dist, dist[e], s, e, p);
      }
      if all && |p.rels| == dist[e] {
        PathsToComplete(q, s, dist, preds, e, p);
      }
    }
    assert found[0] in found;
  }

  ghost predicate TooMany(q: Search, s: int, e: int, max: int, ps: seq<Path>) {
    |ps| > MAX_SHORTEST_PATHS && Distinct(ps) && forall p :: p in ps ==> IsShortest(q, s, e, max, p)
  }

  lemma CompletedByNothing(ps: seq<Path>)
    ensures CompleteAll(ps, [], []) == ps
  {
    forall i | 0 <= i < |ps|
      ensures Completed(ps[i], [], []) == ps[i]
    {
      assert ps[i].nodes + Reverse<int>([]) == ps[i].nodes && ps[i].rels + Reverse<Rel>([]) == ps[i].rels;
    }
  }

  /** A target without a label when the search stops is out of reach within `max`. */
  lemma Unreached(q: Search, s: int, e: int, max: int, all: bool, dist: map<int, int>, preds: Preds,
                  frontier: seq<int>, depth: int)
    requires LevelDone(q, s, dist, preds, all, frontier, depth) && e !in dist
    requires |frontier| == 0 || (max >= 0 && depth >= max)
    ensures forall p :: Connects(q, s, e, p) ==> !Within(max, p)
  {
    forall p | Connects(q, s, e, p)
      ensures !Within(max, p)
    {
      if Within(max, p) {
        if |frontier| == 0 {
          assert forall a :: a in dist && dist[a] == depth ==> a in frontier;
          LabelClosed(q, dist, s, e, p);
        } else {
          LabelBound(q, dist, depth, s, e, p);
        }
        assert false;
      }
    }
  }

  /** Expands one whole level: every node of the frontier, every hop out of it. */
  method ExpandLevel(q: Search, ghost s: int, dist0: map<int, int>, preds0: Preds, all: bool,
                     frontier: seq<int>, depth: int)
    returns (dist: map<int, int>, preds: Preds, next: seq<int>)
    requires q.graph.Valid() && depth >= 0
    requires LevelDone(q, s, dist0, preds0, all, frontier, depth)
    ensures LevelDone(q, s, dist, preds, all, next, depth + 1)
    ensures dist0.Keys <= dist.Keys && (next == [] ==> dist == dist0)
    ensures forall n :: n in next ==> n !in dist0
  {
    hide InLevel, LevelDone;
    LevelStarts(q, s, dist0, preds0, all, frontier, depth);
    dist, preds, next := dist0, preds0, [];
    for i := 0 to |frontier|
      invariant InLevel(q, s, dist, preds, all, frontier, i, [], next, depth)
      invariant dist0.Keys <= dist.Keys && (next == [] ==> dist == dist0)
      invariant forall n :: n in next ==> n !in dist0
    {
      var node := frontier[i];
      var hops := Expand(q, node);
      for j := 0 to |hops|
        invariant InLevel(q, s, dist, preds, all, frontier, i, hops[..j], next, depth)
        invariant dist0.Keys <= dist.Keys && (next == [] ==> dist == dist0)
        invariant forall n :: n in next ==> n !in dist0
      {
        var h := hops[j];
        assert h in hops && h !in hops[..j];
        assert hops[..j + 1] == hops[..j] + [h];
        if h.to !in dist {
          VisitNew(q, s, dist, preds, all, frontier, i, hops[..j], next, depth, h);
          dist := dist[h.to := depth + 1];
          preds := preds[h.to := [Pred(h.rel, node)]];
          next := next + [h.to];
        } else {
          VisitSeen(q, s, dist, preds, all, frontier, i, hops[..j], next, depth, h);
          if all && dist[h.to] == depth + 1 {
            preds := preds[h.to := preds[h.to] + [Pred(h.rel, node)]];
          }
        }
      }
      assert hops[..|hops|] == hops;
      NodeFinished(q, s, dist, preds, all, frontier, i, hops, next, depth);
    }
    LevelFinished(q, s, dist, preds, all, frontier, next, depth);
  }

  lemma FirstLevel(q: Search, s: int, all: bool)
    ensures LevelDone(q, s, map[s := 0], map[], all, [s], 0)
  {
  }

  lemma LevelAnswers(q: Search, s: int, e: int, max: int, all: bool, dist: map<int, int>, preds: Preds,
                     next: seq<int>, depth: int)
    requires LevelDone(q, s, dist, preds, all, next, depth) && e in dist && (max < 0 || depth <= max)
    ensures Answers(q, s, e, max, all, dist, preds)
  {
  }

  lemma LevelProgress(q: Search, s: int, before: map<int, int>, dist: map<int, int>, preds: Preds, all: bool,
                      next: seq<int>, depth: int)
    requires LevelDone(q, s, dist, preds, all, next, depth)
    requires before.Keys <= dist.Keys && forall n :: n in next ==> n !in before
    ensures next != [] ==> Universe(q, s) - dist.Keys < Universe(q, s) - before.Keys
  {
    if next != [] {
      var n := next[0];
      assert n in next;
      assert n in dist && n !in before;
    }
  }

  /** `shortestPathsBFS`. With `all`, exactly the shortest paths, each once; without, one of
      them if there is any. It fails exactly when all are wanted and there are more than the cap. */
  method ShortestPathsBFS(q: Search, s: int, e: int, max: int, all: bool) returns (r: Result<seq<Path>>)
    requires q.graph.Valid()
    ensures r.Ok? ==> Distinct(r.value) && forall p :: p in r.value ==> IsShortest(q, s, e, max, p)
    ensures r.Ok? && all ==> forall p :: IsShortest(q, s, e, max, p) ==> p in r.value
    ensures r.Ok? && !all ==> |r.value| <= 1
    ensures r == Ok([]) ==> forall p :: Connects(q, s, e, p) ==> !Within(max, p)
    ensures r.Error? <==> all && exists ps: seq<Path> :: TooMany(q, s, e, max, ps)
  {
    hide LevelDone;
    FirstLevel(q, s, all);
    var dist: map<int, int> := map[s := 0];
    var preds: Preds := map[];
    var frontier := [s];
    var depth := 0;
    ghost var settled := false;
    while |frontier| > 0 && (max < 0 || depth < max)
      invariant depth >= 0 && (max < 0 || depth <= max || depth == 0)
      invariant LevelDone(q, s, dist, preds, all, frontier, depth)
      invariant !settled && (e in dist ==> depth == 0)
      decreases Universe(q, s) - dist.Keys, |frontier|
    {
      ghost var before := dist;
      var next;
      dist, preds, next := ExpandLevel(q, s, dist, preds, all, frontier, depth);
      if e in dist {
        LevelAnswers(q, s, e, max, all, dist, preds, next, depth + 1);
        settled := true;
        break;
      }
      LevelProgress(q, s, before, dist, preds, all, next, depth + 1);
      frontier := next;
      depth := depth + 1;
    }
    if e !in dist {
      Unreached(q, s, e, max, all, dist, preds, frontier, depth);
      assert forall ps: seq<Path> :: TooMany(q, s, e, max, ps) ==> ps[0] in ps;
      return Ok([]);
    }
    if !settled {
      LevelAnswers(q, s, e, max, all, dist, preds, frontier, depth);
    }
    ghost var found := PathsTo(q, s, dist, preds, all, e);
    RebuiltShortest(q, s, e, max, all, dist, preds);
    PathsToSound(q, s, dist, preds, all, e);
    CompletedByNothing(found);
    var builder := new PathBuilder(q, s, dist, preds, all);
    var ok := builder.Walk(e);
    assert [] + found == found;
    if ok {
      r := Ok(builder.out);
      if ps: seq<Path> :| all && TooMany(q, s, e, max, ps) {
        DistinctFits(ps, found);
        assert false;
      }
    } else {
      r := Error;
      assert TooMany(q, s, e, max, found);
    }
  }
}
