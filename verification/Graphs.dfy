/** The property graph as the matcher sees it: the live relationships in id order
    and the relationships one pattern step may traverse from a node. */
module Graphs {
  import opened Seqs

  datatype Rel = Rel(id: int, start: int, end: int)

  datatype Dir = DirBoth | DirRight | DirLeft

  /** What `expand` hands to its callback: a relationship and the node at its other end. */
  datatype Hop = Hop(rel: Rel, to: int)

  /** The live relationships and the ids of the live nodes, both in id order (the order of
      every adjacency list and every scan). */
  datatype Graph = Graph(rels: seq<Rel>, nodes: seq<int>) {
    ghost predicate Valid() {
      NoRepeat(rels) && Distinct(nodes)
    }
  }

  /** No relationship occurs twice. */
  ghost predicate NoRepeat(rels: seq<Rel>) {
    forall i, j :: 0 <= i < j < |rels| ==> rels[i].id != rels[j].id
  }

  function Ids(rels: seq<Rel>): (ids: set<int>) {
    set r | r in rels :: r.id
  }

  /** One relationship pattern in a fixed row: its direction, the ids of the relationships
      that satisfy its types and property map, and the ids the MATCH has already used. */
  datatype Search = Search(graph: Graph, dir: Dir, admits: set<int>, used: set<int>)

  /** `flipDir`: the same pattern traversed from its far end. */
  function FlipDir(dir: Dir): Dir {
    match dir
    case DirRight => DirLeft
    case DirLeft => DirRight
    case DirBoth => DirBoth
  }

  function Flip(q: Search): Search {
    q.(dir := FlipDir(q.dir))
  }

  predicate Joins(dir: Dir, rel: Rel, a: int, b: int) {
    || (dir != DirLeft && rel.start == a && rel.end == b)
    || (dir != DirRight && rel.end == a && rel.start == b)
  }

  /** The declarative meaning of one traversal step. */
  predicate Step(q: Search, a: int, rel: Rel, b: int) {
    && rel in q.graph.rels
    && Joins(q.dir, rel, a, b)
    && rel.id !in q.used
    && rel.id in q.admits
    && b in q.graph.nodes
  }

  function OutHops(rels: seq<Rel>, n: int): (hops: seq<Hop>)
    ensures forall h :: h in hops ==> h.rel in rels
  {
    if rels == [] then []
    else
      var r := rels[|rels| - 1];
      OutHops(rels[..|rels| - 1], n) + if r.start == n then [Hop(r, r.end)] else []
  }

  function InHops(rels: seq<Rel>, n: int, skipLoops: bool): (hops: seq<Hop>)
    ensures forall h :: h in hops ==> h.rel in rels
  {
    if rels == [] then []
    else
      var r := rels[|rels| - 1];
      InHops(rels[..|rels| - 1], n, skipLoops) +
      if r.end == n && !(skipLoops && r.start == r.end) then [Hop(r, r.start)] else []
  }

  /** Everything adjacent to `n` in the pattern's direction, before any filtering: the
      outgoing list, then the incoming list, an undirected self-loop only once. */
  function Offers(g: Graph, dir: Dir, n: int): (hops: seq<Hop>)
    ensures forall h :: h in hops ==> h.rel in g.rels
  {
    (if dir != DirLeft then OutHops(g.rels, n) else []) +
    (if dir != DirRight then InHops(g.rels, n, dir != DirLeft) else [])
  }

  predicate Admissible(q: Search, h: Hop) {
    h.rel.id !in q.used && h.rel.id in q.admits && h.to in q.graph.nodes
  }

  lemma {:induction false} OutHopsExact(rels: seq<Rel>, n: int)
    requires NoRepeat(rels)
    ensures forall h :: h in OutHops(rels, n) <==> h.rel in rels && h.rel.start == n && h.rel.end == h.to
    ensures Distinct(OutHops(rels, n))
  {
    if rels != [] {
      var init := rels[..|rels| - 1];
      OutHopsExact(init, n);
      assert rels == init + [rels[|rels| - 1]];
    }
  }

  lemma {:induction false} InHopsExact(rels: seq<Rel>, n: int, skipLoops: bool)
    requires NoRepeat(rels)
    ensures forall h :: h in InHops(rels, n, skipLoops) <==>
        h.rel in rels && h.rel.end == n && h.rel.start == h.to && !(skipLoops && h.rel.start == h.rel.end)
    ensures Distinct(InHops(rels, n, skipLoops))
  {
    if rels != [] {
      var init := rels[..|rels| - 1];
      InHopsExact(init, n, skipLoops);
      assert rels == init + [rels[|rels| - 1]];
    }
  }

  /** The adjacency lists offer every joining relationship exactly once, self-loops included. */
  lemma OffersExact(g: Graph, dir: Dir, n: int)
    requires g.Valid()
    ensures forall h :: h in Offers(g, dir, n) <==> h.rel in g.rels && Joins(dir, h.rel, n, h.to)
    ensures Distinct(Offers(g, dir, n))
  {
    OutHopsExact(g.rels, n);
    InHopsExact(g.rels, n, dir != DirLeft);
    var a := if dir != DirLeft then OutHops(g.rels, n) else [];
    var b := if dir != DirRight then InHops(g.rels, n, dir != DirLeft) else [];
    DistinctConcat(a, b);
  }

  lemma StepOffered(q: Search, n: int, h: Hop)
    requires q.graph.Valid()
    ensures h in Offers(q.graph, q.dir, n) && Admissible(q, h) <==> Step(q, n, h.rel, h.to)
  {
    OffersExact(q.graph, q.dir, n);
  }

  lemma DistinctNext<T>(s: seq<T>, i: nat)
    requires Distinct(s) && i < |s|
    ensures s[i] !in s[..i] && s[..i + 1] == s[..i] + [s[i]]
  {
  }

  /** `expand`: both adjacency lists, each entry tried against `used`, the pattern and the
      far node. Its result is the step relation out of `n`, without repetition. */
  method Expand(q: Search, n: int) returns (hops: seq<Hop>)
    requires q.graph.Valid()
    ensures forall h :: h in hops <==> Step(q, n, h.rel, h.to)
    ensures Distinct(hops)
  {
    hide Offers, Step, Admissible;
    var offers := Offers(q.graph, q.dir, n);
    OffersExact(q.graph, q.dir, n);
    hops := [];
    for i := 0 to |offers|
      invariant forall h :: h in hops <==> h in offers[..i] && Admissible(q, h)
      invariant Distinct(hops)
    {
      DistinctNext(offers, i);
      if Admissible(q, offers[i]) {
        hops := hops + [offers[i]];
      }
    }
    assert offers[..|offers|] == offers;
    forall h
      ensures h in offers && Admissible(q, h) <==> Step(q, n, h.rel, h.to)
    {
      StepOffered(q, n, h);
    }
  }

  /** Traversing backwards is the converse relation between live nodes. */
  lemma StepFlips(q: Search, a: int, rel: Rel, b: int)
    requires a in q.graph.nodes && b in q.graph.nodes
    ensures Step(q, a, rel, b) <==> Step(Flip(q), b, rel, a)
  {
  }
}
