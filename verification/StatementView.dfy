/** The per-statement view: caches over the tables, snapshots for the counters, deletions deferred to the end. */
module StatementView {
  import opened Seqs
  import opened Keys
  import opened Tables
  import opened NetCounts
  import opened LabelText

  datatype Counters = Counters(nodesCreated: int, nodesDeleted: int, relsCreated: int, relsDeleted: int,
                               propsSet: int, propsRemoved: int, labelsAdded: int, labelsRemoved: int)

  // --------------------------------------------------------- storable values

  predicate IsScalar(v: Value) {
    v.Bool? || v.Int? || v.Flt? || v.Str? || v.Temporal? || v.Point? || v.Vector?
  }

  function TypeTag(v: Value): nat {
    match v
    case Bool(_) => 1
    case Int(_) => 2
    case Flt(_) => 2
    case Str(_) => 3
    case Point(_) => 4
    case Vector(_) => 5
    case Temporal(k, _) => 6 + k
    case _ => 0
  }

  /** `checkPropValue`: a scalar, or a list of scalars of one type; integers and floats mix. */
  predicate Acceptable(v: Value) {
    match v
    case List(vs) => forall i :: 0 <= i < |vs| ==> IsScalar(vs[i]) && TypeTag(vs[i]) == TypeTag(vs[0])
    case _ => IsScalar(v)
  }

  predicate Finite(v: Value) {
    v.Flt? && v.f.Text? ==> v.f.t != "NaN" && v.f.t != "+Inf" && v.f.t != "-Inf"
  }

  /** Whether `encodeValue` can write it: NaN and the infinities cannot be stored. */
  predicate Encodable(v: Value) {
    Finite(v) && (v.List? ==> forall i :: 0 <= i < |v.vals| ==> Finite(v.vals[i]))
  }

  predicate AllEncodable(props: Props) {
    forall k :: k in props ==> Encodable(props[k])
  }

  /** `cleanProps` drops nulls and rejects what cannot be stored. */
  function CleanProps(props: Props): Result<Props> {
    if forall k :: k in props ==> props[k].Null? || Acceptable(props[k]) then
      var kept := map k | k in props && !props[k].Null? :: props[k];
      if AllEncodable(kept) then Ok(kept) else Error
    else Error
  }

  /** A scalar the store takes: not null, and finite if it is a float. */
  ghost predicate PlainScalar(v: Value) {
    || v.Bool? || v.Int? || v.Str? || v.Temporal? || v.Point? || v.Vector?
    || (v.Flt? && v.f != Text("NaN") && v.f != Text("+Inf") && v.f != Text("-Inf"))
  }

  ghost predicate SameSort(a: Value, b: Value) {
    || (a.Bool? && b.Bool?) || ((a.Int? || a.Flt?) && (b.Int? || b.Flt?)) || (a.Str? && b.Str?)
    || (a.Point? && b.Point?) || (a.Vector? && b.Vector?) || (a.Temporal? && b.Temporal? && a.kind == b.kind)
  }

  /** A plain scalar, or a list of plain scalars of one sort; integers and floats are one sort. */
  ghost predicate Storable(v: Value) {
    || PlainScalar(v)
    || (v.List? && (forall x :: x in v.vals ==> PlainScalar(x)) && forall x, y :: x in v.vals && y in v.vals ==> SameSort(x, y))
  }

  /** The properties that are not null, unchanged. */
  ghost predicate StoredAs(props: Props, kept: Props) {
    && (forall k :: k in kept <==> k in props && !props[k].Null?)
    && (forall k :: k in kept ==> kept[k] == props[k])
  }

  lemma StorableMeans(v: Value)
    ensures Acceptable(v) && Encodable(v) <==> Storable(v)
  {
    if v.List? {
      if Acceptable(v) && Encodable(v) {
        forall x, y | x in v.vals && y in v.vals
          ensures PlainScalar(x) && SameSort(x, y)
        {
          var i :| 0 <= i < |v.vals| && v.vals[i] == x;
          var j :| 0 <= j < |v.vals| && v.vals[j] == y;
          assert TypeTag(v.vals[i]) == TypeTag(v.vals[j]);
          assert Finite(v.vals[i]);
        }
      }
      if Storable(v) {
        forall i | 0 <= i < |v.vals|
          ensures IsScalar(v.vals[i]) && TypeTag(v.vals[i]) == TypeTag(v.vals[0]) && Finite(v.vals[i])
        {
          assert v.vals[i] in v.vals && v.vals[0] in v.vals;
          assert SameSort(v.vals[i], v.vals[0]);
        }
      }
    }
  }

  /** What `CleanProps` lets through, and what it makes of it. */
  lemma CleanMeans(props: Props)
    ensures CleanProps(props).Ok? <==> forall k :: k in props && !props[k].Null? ==> Storable(props[k])
    ensures CleanProps(props).Ok? ==> StoredAs(props, CleanProps(props).value)
  {
    hide Acceptable, Encodable, Storable;
    forall k | k in props
      ensures Acceptable(props[k]) && Encodable(props[k]) <==> Storable(props[k])
    {
      StorableMeans(props[k]);
    }
    var kept: Props := map k | k in props && !props[k].Null? :: props[k];
    assert AllEncodable(kept) <==> forall k :: k in props && !props[k].Null? ==> Encodable(props[k]) by {
      assert forall k :: k in kept <==> k in props && !props[k].Null?;
    }
  }

  function Dedupe(ls: seq<string>): seq<string> {
    if ls == [] then []
    else
      var init := Dedupe(ls[..|ls| - 1]);
      if ls[|ls| - 1] in init then init else init + [ls[|ls| - 1]]
  }

  lemma {:induction false} DedupeIs(ls: seq<string>)
    ensures Distinct(Dedupe(ls)) && forall l :: l in Dedupe(ls) <==> l in ls
    ensures Distinct(ls) ==> Dedupe(ls) == ls
  {
    if ls != [] {
      DedupeIs(ls[..|ls| - 1]);
      assert ls == ls[..|ls| - 1] + [ls[|ls| - 1]];
    }
  }

  // -------------------------------------------------------------- invariants

  /** Cached entities mirror their rows. */
  ghost predicate CacheOk(t: Tables, nodes: map<int, NodeEnt>, rels: map<int, RelEnt>) {
    && (forall id :: id in nodes ==> id in t.nodes && nodes[id].val == ReadRow(t.nodes[id]))
    && (forall e :: e in rels ==> e in t.edges && rels[e].row == t.edges[e])
  }

  /** The delete lists name each entity marked deleted once. */
  ghost predicate MarksOk(nodes: map<int, NodeEnt>, rels: map<int, RelEnt>, delNodes: seq<int>, delRels: seq<int>) {
    && Distinct(delNodes) && (forall id :: id in delNodes <==> id in nodes && nodes[id].deleted)
    && Distinct(delRels) && (forall e :: e in delRels <==> e in rels && rels[e].deleted)
  }

  /** A loaded adjacency list is exactly the relationships on that side, in id order. */
  ghost predicate AdjOk(t: Tables, rels: map<int, RelEnt>, adj: map<int, seq<int>>, outgoing: bool) {
    forall n :: n in adj ==> adj[n] == EdgesAt(t, n, outgoing) && forall e :: e in adj[n] ==> e in rels
  }

  /** What the statement did so far to the tables it began with: it created the created
      entities, and changed only entities it took a snapshot of. */
  ghost predicate HistoryOk(base: Tables, t: Tables, createdNodes: set<int>, createdRels: set<int>,
                            nodeSnap: map<int, NodeVal>, relSnap: map<int, Props>)
  {
    && t.nodes.Keys == base.nodes.Keys + createdNodes && createdNodes !! base.nodes.Keys
    && t.edges.Keys == base.edges.Keys + createdRels && createdRels !! base.edges.Keys
    && (forall id :: id in nodeSnap ==> id in base.nodes && nodeSnap[id] == ReadRow(base.nodes[id]))
    && (forall id :: id in base.nodes && id !in nodeSnap ==> t.nodes[id] == base.nodes[id])
    && (forall e :: e in relSnap ==> e in base.edges && relSnap[e] == base.edges[e].props)
    && (forall e :: e in base.edges && e !in relSnap ==> t.edges[e] == base.edges[e])
    && (forall e :: e in base.edges ==> t.edges[e].(props := base.edges[e].props) == base.edges[e])
  }

  /** Created and changed entities are cached. */
  ghost predicate TouchedCached(nodes: map<int, NodeEnt>, rels: map<int, RelEnt>, createdNodes: set<int>, createdRels: set<int>,
                                nodeSnap: map<int, NodeVal>, relSnap: map<int, Props>)
  {
    createdNodes + nodeSnap.Keys <= nodes.Keys && createdRels + relSnap.Keys <= rels.Keys
  }

  function WithNode(t: Tables, id: int, val: NodeVal): Tables {
    t.(nodes := t.nodes[id := RowOf(val)], labelRows := (set p | p in t.labelRows && p.0 != id) + LabelPairs(id, val.labels))
  }

  function WithEdge(t: Tables, e: int, row: EdgeRow): Tables {
    t.(edges := t.edges[e := row])
  }

  /** node_labels stays in step exactly if the column can hold the labels. */
  lemma WithNodeOk(t: Tables, id: int, val: NodeVal)
    requires TablesOk(t) && id in t.nodes && Distinct(val.labels)
    ensures TablesOk(WithNode(t, id, val)) <==> Readable(val.labels)
  {
    hide Split, Join, Readable;
    var u := WithNode(t, id, val);
    LabelsSurviveIff(val.labels);
    if Readable(val.labels) {
      forall x, l
        ensures (x, l) in u.labelRows <==> x in u.nodes && l in LabelsOf(u, x)
      {
        assert (x, l) in LabelPairs(id, val.labels) <==> x == id && l in val.labels;
      }
    } else {
      LabelsLost(val.labels);
      var l :| l in val.labels && l !in LabelsOf(u, id);
      assert (id, l) in u.labelRows;
    }
  }

  /** The fields of a view as one value; `base` is what the tables held when the statement began. */
  datatype View = View(base: Tables, t: Tables, nodes: map<int, NodeEnt>, rels: map<int, RelEnt>,
                       outAdj: map<int, seq<int>>, inAdj: map<int, seq<int>>, delNodes: seq<int>, delRels: seq<int>,
                       createdNodes: set<int>, createdRels: set<int>,
                       nodeSnap: map<int, NodeVal>, relSnap: map<int, Props>, counters: Counters)

  ghost predicate BasesOk(base: Tables, t: Tables) {
    TablesOk(base) && TablesOk(t) && base.nextNode <= t.nextNode && base.nextEdge <= t.nextEdge
  }

  ghost predicate AdjacencyOk(t: Tables, rels: map<int, RelEnt>, outAdj: map<int, seq<int>>, inAdj: map<int, seq<int>>) {
    AdjOk(t, rels, outAdj, true) && AdjOk(t, rels, inAdj, false)
  }

  /** Created entities are counted as they come; everything else when the statement ends. */
  ghost predicate CountersOk(createdNodes: set<int>, createdRels: set<int>, counters: Counters) {
    counters == Counters(|createdNodes|, 0, |createdRels|, 0, 0, 0, 0, 0)
  }

  ghost predicate Inv(v: View) {
    && BasesOk(v.base, v.t)
    && CacheOk(v.t, v.nodes, v.rels)
    && MarksOk(v.nodes, v.rels, v.delNodes, v.delRels)
    && AdjacencyOk(v.t, v.rels, v.outAdj, v.inAdj)
    && HistoryOk(v.base, v.t, v.createdNodes, v.createdRels, v.nodeSnap, v.relSnap)
    && TouchedCached(v.nodes, v.rels, v.createdNodes, v.createdRels, v.nodeSnap, v.relSnap)
    && CountersOk(v.createdNodes, v.createdRels, v.counters)
  }

  /** Only more is cached. */
  ghost predicate OnlyCached(a: View, b: View) {
    && b == a.(nodes := b.nodes, rels := b.rels, outAdj := b.outAdj, inAdj := b.inAdj)
    && (forall id :: id in a.nodes ==> id in b.nodes && b.nodes[id] == a.nodes[id])
    && (forall e :: e in a.rels ==> e in b.rels && b.rels[e] == a.rels[e])
  }

  lemma OnlyCachedSame(v: View)
    ensures OnlyCached(v, v)
  {
  }

  lemma OnlyCachedTrans(a: View, b: View, c: View)
    requires OnlyCached(a, b) && OnlyCached(b, c)
    ensures OnlyCached(a, c)
  {
  }

  lemma NodeJoins(t: Tables, nodes: map<int, NodeEnt>, rels: map<int, RelEnt>, delNodes: seq<int>, delRels: seq<int>, id: int)
    requires CacheOk(t, nodes, rels) && MarksOk(nodes, rels, delNodes, delRels) && id in t.nodes && id !in nodes
    ensures var more := nodes[id := NodeEnt(ReadRow(t.nodes[id]), false)];
      CacheOk(t, more, rels) && MarksOk(more, rels, delNodes, delRels)
  {
  }

  lemma NodeCached(v: View, id: int)
    requires Inv(v) && id in v.t.nodes && id !in v.nodes
    ensures var w := v.(nodes := v.nodes[id := NodeEnt(ReadRow(v.t.nodes[id]), false)]);
      Inv(w) && OnlyCached(v, w)
  {
    hide BasesOk, AdjacencyOk, HistoryOk, CacheOk, MarksOk;
    NodeJoins(v.t, v.nodes, v.rels, v.delNodes, v.delRels, id);
  }

  lemma AdjGrows(t: Tables, rels: map<int, RelEnt>, more: map<int, RelEnt>, adj: map<int, seq<int>>, outgoing: bool)
    requires AdjOk(t, rels, adj, outgoing) && forall e :: e in rels ==> e in more
    ensures AdjOk(t, more, adj, outgoing)
  {
    hide EdgesAt;
  }

  lemma AdjacencyGrows(t: Tables, rels: map<int, RelEnt>, more: map<int, RelEnt>, outAdj: map<int, seq<int>>, inAdj: map<int, seq<int>>)
    requires AdjacencyOk(t, rels, outAdj, inAdj) && forall e :: e in rels ==> e in more
    ensures AdjacencyOk(t, more, outAdj, inAdj)
  {
    hide AdjOk;
    AdjGrows(t, rels, more, outAdj, true);
    AdjGrows(t, rels, more, inAdj, false);
  }

  lemma RelJoins(t: Tables, nodes: map<int, NodeEnt>, rels: map<int, RelEnt>, delNodes: seq<int>, delRels: seq<int>, e: int)
    requires CacheOk(t, nodes, rels) && MarksOk(nodes, rels, delNodes, delRels) && e in t.edges && e !in rels
    ensures var more := rels[e := RelEnt(t.edges[e], false)];
      CacheOk(t, nodes, more) && MarksOk(nodes, more, delNodes, delRels)
  {
  }

  lemma RelCached(v: View, e: int)
    requires Inv(v) && e in v.t.edges && e !in v.rels
    ensures var w := v.(rels := v.rels[e := RelEnt(v.t.edges[e], false)]);
      Inv(w) && OnlyCached(v, w)
  {
    hide BasesOk, AdjacencyOk, HistoryOk, CacheOk, MarksOk;
    RelJoins(v.t, v.nodes, v.rels, v.delNodes, v.delRels, e);
    AdjacencyGrows(v.t, v.rels, v.rels[e := RelEnt(v.t.edges[e], false)], v.outAdj, v.inAdj);
  }

  lemma AdjCached(v: View, n: int, outgoing: bool)
    requires Inv(v) && forall e :: e in EdgesAt(v.t, n, outgoing) ==> e in v.rels
    ensures var es := EdgesAt(v.t, n, outgoing);
      var w := if outgoing then v.(outAdj := v.outAdj[n := es]) else v.(inAdj := v.inAdj[n := es]);
      Inv(w) && OnlyCached(v, w)
  {
    hide BasesOk, EdgesAt, HistoryOk, MarksOk, CacheOk, TouchedCached, CountersOk, AdjOk;
    AdjJoins(v.t, v.rels, if outgoing then v.outAdj else v.inAdj, n, outgoing);
  }

  lemma EdgesStored(t: Tables, n: int, outgoing: bool)
    ensures forall e :: e in EdgesAt(t, n, outgoing) ==> e in t.edges
  {
    EdgesBelowIs(t, n, outgoing, t.nextEdge);
  }

  lemma AdjJoins(t: Tables, rels: map<int, RelEnt>, adj: map<int, seq<int>>, n: int, outgoing: bool)
    requires AdjOk(t, rels, adj, outgoing) && forall e :: e in EdgesAt(t, n, outgoing) ==> e in rels
    ensures AdjOk(t, rels, adj[n := EdgesAt(t, n, outgoing)], outgoing)
  {
    hide EdgesAt;
  }

  lemma AdjKnown(v: View, n: int, outgoing: bool)
    requires Inv(v)
    ensures var adj := if outgoing then v.outAdj else v.inAdj;
      n in adj ==> adj[n] == EdgesAt(v.t, n, outgoing) && forall e :: e in adj[n] ==> e in v.rels
  {
    hide BasesOk, EdgesAt, HistoryOk, MarksOk, CacheOk;
  }

  lemma EdgesAtIs(t: Tables, n: int, outgoing: bool)
    requires TablesOk(t)
    ensures forall e :: e in EdgesAt(t, n, outgoing) <==> e in t.edges && Side(t.edges[e], outgoing) == n
    ensures Ascending(EdgesAt(t, n, outgoing))
  {
    EdgesBelowIs(t, n, outgoing, t.nextEdge);
  }

  lemma CachedNode(v: View, id: int)
    requires Inv(v) && id in v.nodes
    ensures id in v.t.nodes && v.nodes[id].val == ReadRow(v.t.nodes[id]) && (v.nodes[id].deleted <==> id in v.delNodes)
  {
    hide BasesOk, AdjacencyOk, HistoryOk;
  }

  lemma CachedReadable(v: View, id: int)
    requires Inv(v) && id in v.nodes
    ensures Readable(v.nodes[id].val.labels)
  {
    hide Inv, Readable;
    CachedNode(v, id);
    SplitReadable(v.t.nodes[id].labels);
  }

  lemma CachedRel(v: View, e: int)
    requires Inv(v) && e in v.rels
    ensures e in v.t.edges && v.rels[e].row == v.t.edges[e] && (v.rels[e].deleted <==> e in v.delRels)
  {
    hide BasesOk, AdjOk, HistoryOk;
  }

  lemma InvTables(v: View)
    requires Inv(v)
    ensures TablesOk(v.t) && TablesOk(v.base)
  {
    hide AdjOk, HistoryOk, MarksOk, CacheOk;
  }

  /** A live relationship has not been marked deleted. */
  ghost predicate Live(v: View, e: int) {
    e in v.t.edges && e !in v.delRels
  }

  // ------------------------------------------------------------------ writing

  lemma EdgesAtSame(t: Tables, u: Tables, adj: map<int, seq<int>>, rels: map<int, RelEnt>, outgoing: bool)
    requires AdjOk(t, rels, adj, outgoing) && t.nextEdge == u.nextEdge && t.edges.Keys == u.edges.Keys
    requires forall e :: e in t.edges ==> Side(t.edges[e], outgoing) == Side(u.edges[e], outgoing)
    ensures AdjOk(u, rels, adj, outgoing)
  {
    forall n
      ensures EdgesAt(t, n, outgoing) == EdgesAt(u, n, outgoing)
    {
      EdgesBelowSame(t, u, n, outgoing, t.nextEdge);
    }
    hide EdgesAt;
  }

  lemma SameEdgesAdjacency(t: Tables, u: Tables, rels: map<int, RelEnt>, outAdj: map<int, seq<int>>, inAdj: map<int, seq<int>>)
    requires AdjacencyOk(t, rels, outAdj, inAdj) && t.edges == u.edges && t.nextEdge == u.nextEdge
    ensures AdjacencyOk(u, rels, outAdj, inAdj)
  {
    hide AdjOk;
    EdgesAtSame(t, u, outAdj, rels, true);
    EdgesAtSame(t, u, inAdj, rels, false);
  }

  /** The tables after INSERT INTO nodes and its label rows. */
  function InsertNode(t: Tables, val: NodeVal): Tables {
    t.(nodes := t.nodes[t.nextNode := RowOf(val)], labelRows := t.labelRows + LabelPairs(t.nextNode, val.labels),
       nextNode := t.nextNode + 1)
  }

  lemma InsertNodeOk(t: Tables, val: NodeVal)
    requires TablesOk(t) && Distinct(val.labels)
    ensures TablesOk(InsertNode(t, val)) <==> Readable(val.labels)
    ensures t.nextNode !in t.nodes
  {
    hide Split, Join, Readable;
    var u := InsertNode(t, val);
    LabelsSurviveIff(val.labels);
    if Readable(val.labels) {
      forall x, l
        ensures (x, l) in u.labelRows <==> x in u.nodes && l in LabelsOf(u, x)
      {
        assert (x, l) in LabelPairs(t.nextNode, val.labels) <==> x == t.nextNode && l in val.labels;
      }
    } else {
      LabelsLost(val.labels);
      var l :| l in val.labels && l !in LabelsOf(u, t.nextNode);
      assert (t.nextNode, l) in u.labelRows;
    }
  }

  ghost function NodeCreated(v: View, val: NodeVal): View {
    var id := v.t.nextNode;
    v.(t := InsertNode(v.t, val), nodes := v.nodes[id := NodeEnt(val, false)], createdNodes := v.createdNodes + {id},
       counters := v.counters.(nodesCreated := v.counters.nodesCreated + 1))
  }

  lemma InsertNodeHistory(base: Tables, t: Tables, createdNodes: set<int>, createdRels: set<int>,
                          nodeSnap: map<int, NodeVal>, relSnap: map<int, Props>, val: NodeVal)
    requires HistoryOk(base, t, createdNodes, createdRels, nodeSnap, relSnap) && BasesOk(base, t)
    ensures HistoryOk(base, InsertNode(t, val), createdNodes + {t.nextNode}, createdRels, nodeSnap, relSnap)
    ensures t.nextNode !in createdNodes
  {
    var u := InsertNode(t, val);
    assert t.nextNode !in t.nodes && t.nextNode !in base.nodes;
    assert u.nodes.Keys == t.nodes.Keys + {t.nextNode};
  }

  lemma InsertNodeCache(t: Tables, nodes: map<int, NodeEnt>, rels: map<int, RelEnt>, delNodes: seq<int>, delRels: seq<int>, val: NodeVal)
    requires TablesOk(t) && CacheOk(t, nodes, rels) && MarksOk(nodes, rels, delNodes, delRels) && Readable(val.labels)
    ensures CacheOk(InsertNode(t, val), nodes[t.nextNode := NodeEnt(val, false)], rels)
    ensures MarksOk(nodes[t.nextNode := NodeEnt(val, false)], rels, delNodes, delRels)
  {
    hide Split, Join, Readable;
    LabelsSurviveIff(val.labels);
    assert t.nextNode !in t.nodes;
    assert t.nextNode !in nodes;
  }

  lemma NodeCounted(nodes: map<int, NodeEnt>, rels: map<int, RelEnt>, createdNodes: set<int>, createdRels: set<int>,
                    nodeSnap: map<int, NodeVal>, relSnap: map<int, Props>, counters: Counters, id: int, ent: NodeEnt)
    requires TouchedCached(nodes, rels, createdNodes, createdRels, nodeSnap, relSnap)
    requires CountersOk(createdNodes, createdRels, counters) && id !in createdNodes
    ensures TouchedCached(nodes[id := ent], rels, createdNodes + {id}, createdRels, nodeSnap, relSnap)
    ensures CountersOk(createdNodes + {id}, createdRels, counters.(nodesCreated := counters.nodesCreated + 1))
  {
  }

  /** Creating a node keeps the view right exactly if the label column can hold its labels. */
  lemma CreateNodeOk(v: View, val: NodeVal)
    requires Inv(v) && Distinct(val.labels)
    ensures Inv(NodeCreated(v, val)) <==> Readable(val.labels)
    ensures v.t.nextNode !in v.t.nodes
  {
    hide AdjacencyOk, CacheOk, MarksOk, HistoryOk, TablesOk, TouchedCached, CountersOk, Readable;
    var w := NodeCreated(v, val);
    InsertNodeOk(v.t, val);
    if !Readable(val.labels) {
      return;
    }
    InsertNodeCache(v.t, v.nodes, v.rels, v.delNodes, v.delRels, val);
    InsertNodeHistory(v.base, v.t, v.createdNodes, v.createdRels, v.nodeSnap, v.relSnap, val);
    NodeCounted(v.nodes, v.rels, v.createdNodes, v.createdRels, v.nodeSnap, v.relSnap, v.counters, v.t.nextNode, NodeEnt(val, false));
    SameEdgesAdjacency(v.t, w.t, v.rels, v.outAdj, v.inAdj);
  }

  /** A node created with the one label `a,b` is read back with two labels, and found under none of them. */
  lemma CommaLabel(v: View, props: Props)
    requires Inv(v)
    ensures var w, id := NodeCreated(v, NodeVal(["a,b"], props)), v.t.nextNode;
      && w.nodes[id].val.labels == ["a,b"] && LabelsOf(w.t, id) == ["a", "b"]
      && (id, "a,b") in w.t.labelRows && (id, "a") !in w.t.labelRows && (id, "b") !in w.t.labelRows
  {
    InvTables(v);
    hide Inv, Split, Join;
    CommaSplits();
  }

  function InsertEdge(t: Tables, row: EdgeRow): Tables {
    t.(edges := t.edges[t.nextEdge := row], nextEdge := t.nextEdge + 1)
  }

  function Appended(adj: map<int, seq<int>>, n: int, e: int): map<int, seq<int>> {
    if n in adj then adj[n := adj[n] + [e]] else adj
  }

  lemma AdjAppended(t: Tables, row: EdgeRow, rels: map<int, RelEnt>, adj: map<int, seq<int>>, outgoing: bool)
    requires TablesOk(t) && AdjOk(t, rels, adj, outgoing)
    ensures AdjOk(InsertEdge(t, row), rels[t.nextEdge := RelEnt(row, false)], Appended(adj, Side(row, outgoing), t.nextEdge), outgoing)
  {
    var u, e := InsertEdge(t, row), t.nextEdge;
    forall n
      ensures EdgesAt(u, n, outgoing) == EdgesAt(t, n, outgoing) + if Side(row, outgoing) == n then [e] else []
    {
      EdgesBelowSame(t, u, n, outgoing, t.nextEdge);
    }
    hide EdgesAt;
  }

  ghost function RelCreated(v: View, row: EdgeRow): View {
    var e := v.t.nextEdge;
    v.(t := InsertEdge(v.t, row), rels := v.rels[e := RelEnt(row, false)],
       outAdj := Appended(v.outAdj, row.start, e), inAdj := Appended(v.inAdj, row.end, e),
       createdRels := v.createdRels + {e}, counters := v.counters.(relsCreated := v.counters.relsCreated + 1))
  }

  lemma InsertEdgeHistory(base: Tables, t: Tables, createdNodes: set<int>, createdRels: set<int>,
                          nodeSnap: map<int, NodeVal>, relSnap: map<int, Props>, row: EdgeRow)
    requires HistoryOk(base, t, createdNodes, createdRels, nodeSnap, relSnap) && BasesOk(base, t)
    ensures HistoryOk(base, InsertEdge(t, row), createdNodes, createdRels + {t.nextEdge}, nodeSnap, relSnap)
    ensures t.nextEdge !in createdRels
  {
    var u := InsertEdge(t, row);
    assert t.nextEdge !in t.edges && t.nextEdge !in base.edges;
    assert u.edges.Keys == t.edges.Keys + {t.nextEdge};
  }

  lemma InsertEdgeCache(t: Tables, nodes: map<int, NodeEnt>, rels: map<int, RelEnt>, delNodes: seq<int>, delRels: seq<int>, row: EdgeRow)
    requires TablesOk(t) && CacheOk(t, nodes, rels) && MarksOk(nodes, rels, delNodes, delRels)
    ensures CacheOk(InsertEdge(t, row), nodes, rels[t.nextEdge := RelEnt(row, false)])
    ensures MarksOk(nodes, rels[t.nextEdge := RelEnt(row, false)], delNodes, delRels)
  {
    assert t.nextEdge !in t.edges;
    assert t.nextEdge !in rels;
  }

  lemma InsertEdgeOk(t: Tables, row: EdgeRow)
    requires TablesOk(t) && row.start in t.nodes && row.end in t.nodes
    ensures TablesOk(InsertEdge(t, row)) && t.nextEdge !in t.edges
  {
  }

  lemma AdjacencyAppended(t: Tables, row: EdgeRow, rels: map<int, RelEnt>, outAdj: map<int, seq<int>>, inAdj: map<int, seq<int>>)
    requires TablesOk(t) && AdjacencyOk(t, rels, outAdj, inAdj)
    ensures AdjacencyOk(InsertEdge(t, row), rels[t.nextEdge := RelEnt(row, false)], Appended(outAdj, row.start, t.nextEdge), Appended(inAdj, row.end, t.nextEdge))
  {
    hide AdjOk, TablesOk, Appended, InsertEdge;
    AdjAppended(t, row, rels, outAdj, true);
    AdjAppended(t, row, rels, inAdj, false);
  }

  lemma CountedAndCached(nodes: map<int, NodeEnt>, rels: map<int, RelEnt>, createdNodes: set<int>, createdRels: set<int>,
                         nodeSnap: map<int, NodeVal>, relSnap: map<int, Props>, counters: Counters, e: int, ent: RelEnt)
    requires TouchedCached(nodes, rels, createdNodes, createdRels, nodeSnap, relSnap)
    requires CountersOk(createdNodes, createdRels, counters) && e !in createdRels
    ensures TouchedCached(nodes, rels[e := ent], createdNodes, createdRels + {e}, nodeSnap, relSnap)
    ensures CountersOk(createdNodes, createdRels + {e}, counters.(relsCreated := counters.relsCreated + 1))
  {
  }

  lemma CreateRelOk(v: View, row: EdgeRow)
    requires Inv(v) && row.start in v.t.nodes && row.end in v.t.nodes
    ensures Inv(RelCreated(v, row)) && v.t.nextEdge !in v.t.edges
  {
    hide AdjacencyOk, CacheOk, MarksOk, HistoryOk, TablesOk, Appended, TouchedCached, CountersOk;
    InsertEdgeOk(v.t, row);
    InsertEdgeCache(v.t, v.nodes, v.rels, v.delNodes, v.delRels, row);
    InsertEdgeHistory(v.base, v.t, v.createdNodes, v.createdRels, v.nodeSnap, v.relSnap, row);
    CountedAndCached(v.nodes, v.rels, v.createdNodes, v.createdRels, v.nodeSnap, v.relSnap, v.counters, v.t.nextEdge, RelEnt(row, false));
    AdjacencyAppended(v.t, row, v.rels, v.outAdj, v.inAdj);
  }

  /** `snapNode`: an existing node is remembered before its first change. */
  function SnapNode(createdNodes: set<int>, nodeSnap: map<int, NodeVal>, id: int, val: NodeVal): map<int, NodeVal> {
    if id in createdNodes || id in nodeSnap then nodeSnap else nodeSnap[id := val]
  }

  ghost function NodeChanged(v: View, id: int, val: NodeVal): View
    requires id in v.nodes
  {
    v.(t := WithNode(v.t, id, val), nodes := v.nodes[id := v.nodes[id].(val := val)],
       nodeSnap := SnapNode(v.createdNodes, v.nodeSnap, id, v.nodes[id].val))
  }

  lemma ChangeNodeHistory(base: Tables, t: Tables, createdNodes: set<int>, createdRels: set<int>,
                          nodeSnap: map<int, NodeVal>, relSnap: map<int, Props>, id: int, val: NodeVal)
    requires HistoryOk(base, t, createdNodes, createdRels, nodeSnap, relSnap) && id in t.nodes
    ensures HistoryOk(base, WithNode(t, id, val), createdNodes, createdRels, SnapNode(createdNodes, nodeSnap, id, ReadRow(t.nodes[id])), relSnap)
  {
    var u := WithNode(t, id, val);
    assert u.nodes.Keys == t.nodes.Keys;
    assert id !in createdNodes ==> id in base.nodes;
  }

  lemma ChangeNodeCache(t: Tables, nodes: map<int, NodeEnt>, rels: map<int, RelEnt>, delNodes: seq<int>, delRels: seq<int>, id: int, val: NodeVal)
    requires CacheOk(t, nodes, rels) && MarksOk(nodes, rels, delNodes, delRels) && id in nodes && Readable(val.labels)
    ensures CacheOk(WithNode(t, id, val), nodes[id := nodes[id].(val := val)], rels)
    ensures MarksOk(nodes[id := nodes[id].(val := val)], rels, delNodes, delRels)
    ensures id in t.nodes && nodes[id].val == ReadRow(t.nodes[id])
  {
    hide Split, Join, Readable;
    LabelsSurviveIff(val.labels);
  }

  /** Rewriting a node keeps the view right exactly if the label column can hold its labels. */
  lemma ChangeNodeOk(v: View, id: int, val: NodeVal)
    requires Inv(v) && id in v.nodes && Distinct(val.labels)
    ensures Inv(NodeChanged(v, id, val)) <==> Readable(val.labels)
  {
    hide AdjacencyOk, CacheOk, MarksOk, HistoryOk, TablesOk, Readable;
    var w := NodeChanged(v, id, val);
    CachedNode(v, id);
    WithNodeOk(v.t, id, val);
    if !Readable(val.labels) {
      return;
    }
    ChangeNodeCache(v.t, v.nodes, v.rels, v.delNodes, v.delRels, id, val);
    ChangeNodeHistory(v.base, v.t, v.createdNodes, v.createdRels, v.nodeSnap, v.relSnap, id, val);
    SameEdgesAdjacency(v.t, w.t, v.rels, v.outAdj, v.inAdj);
    WithNodeKeeps(v.t, id, val);
  }

  lemma WithNodeKeeps(t: Tables, id: int, val: NodeVal)
    ensures WithNode(t, id, val).nextNode == t.nextNode && WithNode(t, id, val).nextEdge == t.nextEdge
  {
  }

  /** An UPDATE of the property column alone leaves the labels and node_labels right. */
  lemma PropsOnly(t: Tables, id: int, props: Props)
    requires TablesOk(t) && id in t.nodes
    ensures t.(nodes := t.nodes[id := t.nodes[id].(props := props)]) == WithNode(t, id, ReadRow(t.nodes[id]).(props := props))
    ensures Readable(LabelsOf(t, id))
  {
    hide Split, Join, Readable;
    SplitReadable(t.nodes[id].labels);
    var labels := LabelsOf(t, id);
    var rows := (set p | p in t.labelRows && p.0 != id) + LabelPairs(id, labels);
    forall p
      ensures p in rows <==> p in t.labelRows
    {
      assert p in LabelPairs(id, labels) <==> p.0 == id && p.1 in labels;
      assert p == (p.0, p.1);
    }
    assert rows == t.labelRows;
  }

  function SnapRel(createdRels: set<int>, relSnap: map<int, Props>, e: int, props: Props): map<int, Props> {
    if e in createdRels || e in relSnap then relSnap else relSnap[e := props]
  }

  ghost function RelChanged(v: View, e: int, props: Props): View
    requires e in v.rels
  {
    var row := v.rels[e].row.(props := props);
    v.(t := WithEdge(v.t, e, row), rels := v.rels[e := v.rels[e].(row := row)],
       relSnap := SnapRel(v.createdRels, v.relSnap, e, v.rels[e].row.props))
  }

  lemma ChangeRelHistory(base: Tables, t: Tables, createdNodes: set<int>, createdRels: set<int>,
                         nodeSnap: map<int, NodeVal>, relSnap: map<int, Props>, e: int, props: Props)
    requires HistoryOk(base, t, createdNodes, createdRels, nodeSnap, relSnap) && e in t.edges
    ensures HistoryOk(base, WithEdge(t, e, t.edges[e].(props := props)), createdNodes, createdRels, nodeSnap,
                      SnapRel(createdRels, relSnap, e, t.edges[e].props))
  {
    var u := WithEdge(t, e, t.edges[e].(props := props));
    assert u.edges.Keys == t.edges.Keys;
    assert e !in createdRels ==> e in base.edges;
  }

  lemma ChangeRelCache(t: Tables, nodes: map<int, NodeEnt>, rels: map<int, RelEnt>, delNodes: seq<int>, delRels: seq<int>, e: int, props: Props)
    requires CacheOk(t, nodes, rels) && MarksOk(nodes, rels, delNodes, delRels) && e in rels
    ensures e in t.edges && rels[e].row == t.edges[e]
    ensures var row := t.edges[e].(props := props);
      && CacheOk(WithEdge(t, e, row), nodes, rels[e := rels[e].(row := row)])
      && MarksOk(nodes, rels[e := rels[e].(row := row)], delNodes, delRels)
  {
  }

  lemma WithEdgeOk(t: Tables, e: int, props: Props)
    requires TablesOk(t) && e in t.edges
    ensures var u := WithEdge(t, e, t.edges[e].(props := props));
      && TablesOk(u) && u.edges.Keys == t.edges.Keys && u.nextNode == t.nextNode && u.nextEdge == t.nextEdge
      && forall x :: x in t.edges ==> Side(t.edges[x], true) == Side(u.edges[x], true) && Side(t.edges[x], false) == Side(u.edges[x], false)
  {
  }

  lemma ChangeRelAdj(t: Tables, rels: map<int, RelEnt>, outAdj: map<int, seq<int>>, inAdj: map<int, seq<int>>, e: int, props: Props, ent: RelEnt)
    requires TablesOk(t) && e in t.edges && AdjacencyOk(t, rels, outAdj, inAdj)
    ensures AdjacencyOk(WithEdge(t, e, t.edges[e].(props := props)), rels[e := ent], outAdj, inAdj)
  {
    hide AdjOk, TablesOk, WithEdge;
    var u := WithEdge(t, e, t.edges[e].(props := props));
    WithEdgeOk(t, e, props);
    EdgesAtSame(t, u, outAdj, rels, true);
    EdgesAtSame(t, u, inAdj, rels, false);
    AdjGrows(u, rels, rels[e := ent], outAdj, true);
    AdjGrows(u, rels, rels[e := ent], inAdj, false);
  }

  lemma ChangeRelOk(v: View, e: int, props: Props)
    requires Inv(v) && e in v.rels
    ensures Inv(RelChanged(v, e, props))
  {
    hide AdjacencyOk, CacheOk, MarksOk, HistoryOk, TablesOk, WithEdge;
    var w := RelChanged(v, e, props);
    ChangeRelCache(v.t, v.nodes, v.rels, v.delNodes, v.delRels, e, props);
    ChangeRelHistory(v.base, v.t, v.createdNodes, v.createdRels, v.nodeSnap, v.relSnap, e, props);
    WithEdgeOk(v.t, e, props);
    ChangeRelAdj(v.t, v.rels, v.outAdj, v.inAdj, e, props, w.rels[e]);
  }

  ghost function RelMarked(v: View, e: int): View
    requires e in v.rels
  {
    if v.rels[e].deleted then v
    else v.(rels := v.rels[e := v.rels[e].(deleted := true)], delRels := v.delRels + [e])
  }

  lemma MarkRelOk(v: View, e: int)
    requires Inv(v) && e in v.rels
    ensures Inv(RelMarked(v, e))
    ensures forall x :: x in RelMarked(v, e).delRels <==> x in v.delRels || x == e
  {
    hide BasesOk, AdjacencyOk, HistoryOk, CacheOk, MarksOk;
    RelMark(v.t, v.nodes, v.rels, v.delNodes, v.delRels, e);
    AdjacencyGrows(v.t, v.rels, RelMarked(v, e).rels, v.outAdj, v.inAdj);
  }

  lemma RelMark(t: Tables, nodes: map<int, NodeEnt>, rels: map<int, RelEnt>, delNodes: seq<int>, delRels: seq<int>, e: int)
    requires CacheOk(t, nodes, rels) && MarksOk(nodes, rels, delNodes, delRels) && e in rels
    ensures rels[e].deleted ==> e in delRels
    ensures !rels[e].deleted ==>
      var more := rels[e := rels[e].(deleted := true)];
      CacheOk(t, nodes, more) && MarksOk(nodes, more, delNodes, delRels + [e])
  {
    if !rels[e].deleted {
      DistinctConcat(delRels, [e]);
    }
  }

  ghost function NodeMarked(v: View, id: int): View
    requires id in v.nodes
  {
    if v.nodes[id].deleted then v
    else v.(nodes := v.nodes[id := v.nodes[id].(deleted := true)], delNodes := v.delNodes + [id])
  }

  lemma MarkNodeOk(v: View, id: int)
    requires Inv(v) && id in v.nodes
    ensures Inv(NodeMarked(v, id))
  {
    hide BasesOk, AdjacencyOk, HistoryOk, CacheOk, MarksOk;
    NodeMark(v.t, v.nodes, v.rels, v.delNodes, v.delRels, id);
  }

  lemma NodeMark(t: Tables, nodes: map<int, NodeEnt>, rels: map<int, RelEnt>, delNodes: seq<int>, delRels: seq<int>, id: int)
    requires CacheOk(t, nodes, rels) && MarksOk(nodes, rels, delNodes, delRels) && id in nodes
    ensures !nodes[id].deleted ==>
      var more := nodes[id := nodes[id].(deleted := true)];
      CacheOk(t, more, rels) && MarksOk(more, rels, delNodes + [id], delRels)
  {
    if !nodes[id].deleted {
      DistinctConcat(delNodes, [id]);
    }
  }

  /** `addLabels`: those not yet there are appended. */
  function AddedLabels(have: seq<string>, ls: seq<string>): seq<string> {
    if ls == [] then have
    else
      var init := AddedLabels(have, ls[..|ls| - 1]);
      var l := ls[|ls| - 1];
      if l in init then init else init + [l]
  }

  lemma {:induction false} AddedLabelsIs(have: seq<string>, ls: seq<string>)
    ensures Distinct(have) ==> Distinct(AddedLabels(have, ls))
    ensures forall l :: l in AddedLabels(have, ls) <==> l in have || l in ls
    ensures AddedLabels(have, ls) == have <==> forall l :: l in ls ==> l in have
    ensures have <= AddedLabels(have, ls)
  {
    if ls != [] {
      AddedLabelsIs(have, ls[..|ls| - 1]);
      assert ls == ls[..|ls| - 1] + [ls[|ls| - 1]];
    }
  }

  /** The first occurrence is cut out. */
  function WithoutLabel(have: seq<string>, l: string): seq<string> {
    if have == [] then []
    else if have[0] == l then have[1..]
    else [have[0]] + WithoutLabel(have[1..], l)
  }

  function RemovedLabels(have: seq<string>, ls: seq<string>): seq<string> {
    if ls == [] then have else WithoutLabel(RemovedLabels(have, ls[..|ls| - 1]), ls[|ls| - 1])
  }

  lemma {:induction false} WithoutLabelIs(have: seq<string>, l: string)
    requires Distinct(have)
    ensures Distinct(WithoutLabel(have, l)) && forall x :: x in WithoutLabel(have, l) <==> x in have && x != l
    ensures l !in have ==> WithoutLabel(have, l) == have
  {
    if have != [] {
      WithoutLabelIs(have[1..], l);
      assert have == [have[0]] + have[1..];
      assert have[0] !in have[1..];
    }
  }

  lemma {:induction false} RemovedLabelsIs(have: seq<string>, ls: seq<string>)
    requires Distinct(have)
    ensures Distinct(RemovedLabels(have, ls)) && forall x :: x in RemovedLabels(have, ls) <==> x in have && x !in ls
  {
    if ls != [] {
      var init := ls[..|ls| - 1];
      RemovedLabelsIs(have, init);
      WithoutLabelIs(RemovedLabels(have, init), ls[|ls| - 1]);
      assert ls == init + [ls[|ls| - 1]];
    }
  }

  /** What SET and REMOVE of one property leave, or None if the value cannot be stored. */
  function PropsAfter(props: Props, key: string, v: Value): Option<Props> {
    if v.Null? then Some(props - {key})
    else if Acceptable(v) && AllEncodable(props[key := v]) then Some(props[key := v])
    else None
  }

  // ------------------------------------------------------------- finishing

  /** Some node marked deleted still has a live relationship. */
  ghost predicate Blocked(v: View) {
    exists e :: Live(v, e) && (v.t.edges[e].start in v.delNodes || v.t.edges[e].end in v.delNodes)
  }

  function Ids(s: seq<int>): set<int> {
    set x | x in s
  }

  lemma IdsStep(s: seq<int>, i: nat)
    requires i < |s|
    ensures Ids(s[..i + 1]) == Ids(s[..i]) + {s[i]}
    ensures Distinct(s) ==> s[i] !in Ids(s[..i])
  {
    assert s[..i + 1] == s[..i] + [s[i]];
  }

  function EdgesLess(t: Tables, del: set<int>): Tables {
    t.(edges := t.edges - del)
  }

  /** Label rows go with their node. */
  function NodesLess(t: Tables, del: set<int>): Tables {
    t.(nodes := t.nodes - del, labelRows := set p | p in t.labelRows && p.0 !in del)
  }

  lemma LessNothing(t: Tables)
    ensures EdgesLess(t, {}) == t && NodesLess(t, {}) == t
  {
    assert t.edges - {} == t.edges && t.nodes - {} == t.nodes;
    assert (set p | p in t.labelRows && p.0 !in {}) == t.labelRows;
  }

  lemma LessOne(t: Tables, del: set<int>, x: int)
    ensures EdgesLess(EdgesLess(t, del), {x}) == EdgesLess(t, del + {x})
    ensures NodesLess(NodesLess(t, del), {x}) == NodesLess(t, del + {x})
  {
    assert t.edges - del - {x} == t.edges - (del + {x});
    assert t.nodes - del - {x} == t.nodes - (del + {x});
  }

  /** The tables without the deleted rows. */
  function Purged(t: Tables, delNodes: seq<int>, delRels: seq<int>): Tables {
    NodesLess(EdgesLess(t, Ids(delRels)), Ids(delNodes))
  }

  lemma PurgeTables(t: Tables, delNodes: seq<int>, delRels: seq<int>)
    requires TablesOk(t)
    requires forall e :: e in t.edges && e !in delRels ==> t.edges[e].start !in delNodes && t.edges[e].end !in delNodes
    ensures TablesOk(Purged(t, delNodes, delRels))
  {
    var u := Purged(t, delNodes, delRels);
    forall id, l
      ensures (id, l) in u.labelRows <==> id in u.nodes && l in LabelsOf(u, id)
    {
      assert (id, l) in t.labelRows <==> id in t.nodes && l in LabelsOf(t, id);
    }
    assert NothingDangles(u);
  }

  /** Unless it is blocked, deleting leaves nothing dangling and node_labels in step. */
  lemma PurgedOk(v: View)
    requires Inv(v) && !Blocked(v)
    ensures TablesOk(Purged(v.t, v.delNodes, v.delRels))
  {
    InvTables(v);
    hide Inv, TablesOk;
    forall e | e in v.t.edges && e !in v.delRels
      ensures v.t.edges[e].start !in v.delNodes && v.t.edges[e].end !in v.delNodes
    {
      assert Live(v, e);
    }
    PurgeTables(v.t, v.delNodes, v.delRels);
  }

  lemma InStep(t: Tables)
    requires TablesOk(t)
    ensures LabelsInStep(t)
  {
  }

  lemma InvMarks(v: View)
    requires Inv(v)
    ensures MarksOk(v.nodes, v.rels, v.delNodes, v.delRels) && CacheOk(v.t, v.nodes, v.rels)
    ensures HistoryOk(v.base, v.t, v.createdNodes, v.createdRels, v.nodeSnap, v.relSnap)
    ensures TouchedCached(v.nodes, v.rels, v.createdNodes, v.createdRels, v.nodeSnap, v.relSnap)
    ensures CountersOk(v.createdNodes, v.createdRels, v.counters)
  {
    hide AdjOk, HistoryOk, CacheOk, MarksOk, BasesOk;
  }

  /** Every cached node is in the final tables exactly if it is not deleted. */
  lemma EndedNodes(v: View, id: int)
    requires Inv(v) && id in v.nodes
    ensures LiveRow(v.nodes[id], Purged(v.t, v.delNodes, v.delRels), id)
    ensures id in v.createdNodes ==> id !in v.base.nodes
    ensures id in v.nodeSnap ==> id !in v.createdNodes && id in v.base.nodes && ReadRow(v.base.nodes[id]) == v.nodeSnap[id] && Distinct(v.nodeSnap[id].labels)
    ensures id !in v.createdNodes ==>
      id in v.base.nodes && Distinct(LabelsOf(v.base, id))
      && ReadRow(v.base.nodes[id]) == if id in v.nodeSnap then v.nodeSnap[id] else v.nodes[id].val
  {
    InvTables(v);
    InvMarks(v);
    hide Inv, MarksOk, CacheOk;
    CachedNode(v, id);
  }

  /** A node that was not created, changed or deleted is as it was. */
  lemma EndedUntouched(v: View, id: int)
    requires Inv(v) && id !in v.createdNodes && id !in v.nodeSnap && id !in v.delNodes
    ensures var u := Purged(v.t, v.delNodes, v.delRels);
      (id in u.nodes <==> id in v.base.nodes) && (id in u.nodes ==> u.nodes[id] == v.base.nodes[id])
  {
    InvMarks(v);
    hide Inv, MarksOk, CacheOk;
  }

  lemma EndedRels(v: View, e: int)
    requires Inv(v) && e in v.rels
    ensures LiveEdge(v.rels[e], Purged(v.t, v.delNodes, v.delRels), e)
    ensures e in v.createdRels ==> e !in v.base.edges
    ensures e in v.relSnap ==> e !in v.createdRels && e in v.base.edges && v.base.edges[e].props == v.relSnap[e]
    ensures e !in v.createdRels ==>
      e in v.base.edges && v.base.edges[e].props == if e in v.relSnap then v.relSnap[e] else v.rels[e].row.props
  {
    hide Inv, MarksOk, CacheOk, CountersOk, TouchedCached, HistoryOk, Purged;
    InvMarks(v);
    CachedRel(v, e);
    PurgedEdge(v.t, v.delNodes, v.delRels, e);
    RelHistory(v.base, v.t, v.createdNodes, v.createdRels, v.nodeSnap, v.relSnap, e);
  }

  lemma PurgedEdge(t: Tables, delNodes: seq<int>, delRels: seq<int>, e: int)
    ensures var u := Purged(t, delNodes, delRels);
      (e in u.edges <==> e in t.edges && e !in delRels) && (e in u.edges ==> u.edges[e] == t.edges[e])
  {
  }

  lemma RelHistory(base: Tables, t: Tables, createdNodes: set<int>, createdRels: set<int>,
                   nodeSnap: map<int, NodeVal>, relSnap: map<int, Props>, e: int)
    requires HistoryOk(base, t, createdNodes, createdRels, nodeSnap, relSnap) && e in t.edges
    ensures e in createdRels <==> e !in base.edges
    ensures e in relSnap ==> e in base.edges && base.edges[e].props == relSnap[e]
    ensures e in base.edges && e !in relSnap ==> base.edges[e] == t.edges[e]
  {
  }

  lemma EndedUntouchedRels(v: View, e: int)
    requires Inv(v) && e !in v.createdRels && e !in v.relSnap && e !in v.delRels
    ensures var u := Purged(v.t, v.delNodes, v.delRels);
      (e in u.edges <==> e in v.base.edges) && (e in u.edges ==> u.edges[e] == v.base.edges[e])
  {
    InvMarks(v);
    hide Inv, MarksOk, CacheOk;
  }

  lemma MarkedCached(v: View)
    requires Inv(v)
    ensures forall id :: id in v.delNodes ==> id in v.nodes && v.nodes[id].deleted
    ensures forall id :: id in v.nodes && v.nodes[id].deleted ==> id in v.delNodes
    ensures forall e :: e in v.delRels ==> e in v.rels && v.rels[e].deleted
    ensures forall e :: e in v.rels && v.rels[e].deleted ==> e in v.delRels
    ensures Distinct(v.delNodes) && Distinct(v.delRels)
    ensures v.createdNodes + v.nodeSnap.Keys <= v.nodes.Keys && v.createdRels + v.relSnap.Keys <= v.rels.Keys
  {
    InvMarks(v);
    hide Inv, CacheOk, HistoryOk, CountersOk;
  }

  /** Created minus deleted is the change in the number of rows. */
  ghost predicate RowsConserved(base: Tables, t: Tables, c: Counters) {
    && c.nodesCreated == |t.nodes.Keys - base.nodes.Keys| && c.nodesDeleted == |base.nodes.Keys - t.nodes.Keys|
    && c.relsCreated == |t.edges.Keys - base.edges.Keys| && c.relsDeleted == |base.edges.Keys - t.edges.Keys|
  }

  /** Exactly what the statement did, in all eight numbers. */
  ghost predicate CountersExact(base: Tables, t: Tables, c: Counters) {
    && RowsConserved(base, t, c)
    && c.propsSet == TotalSet(base, t) && c.propsRemoved == TotalRemoved(base, t)
    && c.labelsAdded == |Labels(t) - Labels(base)| && c.labelsRemoved == |Labels(base) - Labels(t)|
  }

  /** The conservation laws behind the counters. */
  lemma CountersBalance(base: Tables, t: Tables, c: Counters)
    requires CountersExact(base, t, c)
    ensures c.nodesCreated - c.nodesDeleted == |t.nodes| - |base.nodes|
    ensures c.relsCreated - c.relsDeleted == |t.edges| - |base.edges|
    ensures c.propsSet - c.propsRemoved == StoredProps(t) - StoredProps(base)
    ensures c.labelsAdded - c.labelsRemoved == |Labels(t)| - |Labels(base)|
  {
    hide TotalSet, TotalRemoved, StoredProps, Labels;
    PropsConserved(base, t);
    SetChange(base.nodes.Keys, t.nodes.Keys);
    SetChange(base.edges.Keys, t.edges.Keys);
    SetChange(Labels(base), Labels(t));
    assert |t.nodes| == |t.nodes.Keys| && |base.nodes| == |base.nodes.Keys|;
    assert |t.edges| == |t.edges.Keys| && |base.edges| == |base.edges.Keys|;
  }

  /** One more node: the labels given, each once, joined in the column and listed in node_labels,
      and the properties that are not null. */
  ghost predicate NewNode(before: Tables, after: Tables, id: int, held: seq<string>, labels: seq<string>, props: Props)
    requires id in after.nodes
  {
    && id !in before.nodes && after.nodes == before.nodes[id := after.nodes[id]] && after.edges == before.edges
    && Distinct(held) && (forall l :: l in held <==> l in labels) && (Distinct(labels) ==> held == labels)
    && after.nodes[id].labels == Join(held)
    && (forall p :: p in after.labelRows <==> p in before.labelRows || (p.0 == id && p.1 in labels))
    && StoredAs(props, after.nodes[id].props)
  }

  /** One more relationship, with the properties that are not null. */
  ghost predicate NewEdge(before: Tables, after: Tables, e: int, typ: string, start: int, end: int, props: Props)
    requires e in after.edges
  {
    && e !in before.edges && after.edges == before.edges[e := after.edges[e]] && after.nodes == before.nodes
    && after.labelRows == before.labelRows
    && after.edges[e].typ == typ && after.edges[e].start == start && after.edges[e].end == end
    && StoredAs(props, after.edges[e].props)
  }

  /** One property changed, or dropped if `v` is null. */
  ghost predicate PropSet(before: Props, after: Props, key: string, v: Value) {
    && (forall k :: k != key ==> (k in after <==> k in before) && (k in after ==> after[k] == before[k]))
    && (if v.Null? then key !in after else key in after && after[key] == v)
  }

  /** A null drops the property; any other value must be storable, and what else the entity holds too. */
  ghost predicate CanSet(props: Props, key: string, v: Value) {
    v.Null? || (Storable(v) && forall k :: k in props && k != key ==> Encodable(props[k]))
  }

  /** Nothing but the node's row differs, and in it nothing but the properties. */
  ghost predicate NodePropSet(before: Tables, after: Tables, id: int, key: string, v: Value) {
    && id in before.nodes && id in after.nodes
    && after == before.(nodes := before.nodes[id := before.nodes[id].(props := after.nodes[id].props)])
    && PropSet(before.nodes[id].props, after.nodes[id].props, key, v)
  }

  ghost predicate RelPropSet(before: Tables, after: Tables, e: int, key: string, v: Value) {
    && e in before.edges && e in after.edges
    && after == before.(edges := before.edges[e := before.edges[e].(props := after.edges[e].props)])
    && PropSet(before.edges[e].props, after.edges[e].props, key, v)
  }

  /** The labels of one node are now `held`, in the column and in node_labels. */
  ghost predicate Relabelled(before: Tables, after: Tables, id: int, held: seq<string>) {
    && id in before.nodes
    && after.nodes == before.nodes[id := NodeRow(Join(held), before.nodes[id].props)] && after.edges == before.edges
    && forall p :: p in after.labelRows <==> (if p.0 == id then p.1 in held else p in before.labelRows)
  }

  /** `some` without repetition, in the order of `all`. */
  ghost predicate InOrder(some: seq<string>, all: seq<string>) {
    Distinct(some) && forall i, j, p, q :: 0 <= i < j < |some| && 0 <= p < |all| && 0 <= q < |all| && all[p] == some[i] && all[q] == some[j] ==> p < q
  }

  /** Dropping a property that is not there changes nothing. */
  lemma NothingDropped(t: Tables, x: int, key: string)
    ensures x in t.nodes && key !in t.nodes[x].props ==> NodePropSet(t, t, x, key, Null)
    ensures x in t.edges && key !in t.edges[x].props ==> RelPropSet(t, t, x, key, Null)
  {
    assert x in t.nodes ==> t.nodes == t.nodes[x := t.nodes[x]];
    assert x in t.edges ==> t.edges == t.edges[x := t.edges[x]];
  }

  /** Exactly the marked rows are gone. */
  ghost predicate RowsGone(before: Tables, after: Tables, delNodes: seq<int>, delRels: seq<int>) {
    && (forall id :: id in after.nodes <==> id in before.nodes && id !in delNodes)
    && (forall id :: id in after.nodes ==> after.nodes[id] == before.nodes[id])
    && (forall e :: e in after.edges <==> e in before.edges && e !in delRels)
    && (forall e :: e in after.edges ==> after.edges[e] == before.edges[e])
    && (forall p :: p in after.labelRows <==> p in before.labelRows && p.0 !in delNodes)
  }

  lemma PurgedGoes(t: Tables, delNodes: seq<int>, delRels: seq<int>)
    ensures RowsGone(t, Purged(t, delNodes, delRels), delNodes, delRels)
  {
  }

  lemma PropsAfterMeans(props: Props, key: string, v: Value)
    ensures PropsAfter(props, key, v).Some? <==> CanSet(props, key, v)
    ensures PropsAfter(props, key, v).Some? ==> PropSet(props, PropsAfter(props, key, v).value, key, v)
  {
    hide Acceptable, Encodable, Storable;
    StorableMeans(v);
    var more := props[key := v];
    assert AllEncodable(more) <==> Encodable(v) && forall k :: k in props && k != key ==> Encodable(props[k]) by {
      assert forall k :: k in more <==> k == key || k in props;
      assert forall k :: k in props && k != key ==> more[k] == props[k];
      assert more[key] == v;
    }
  }

  lemma RelabelledIs(t: Tables, id: int, val: NodeVal)
    requires id in t.nodes && val.props == t.nodes[id].props
    ensures Relabelled(t, WithNode(t, id, val), id, val.labels)
  {
    hide Join;
    forall p
      ensures p in LabelPairs(id, val.labels) <==> p.0 == id && p.1 in val.labels
    {
      assert p == (p.0, p.1);
    }
  }

  lemma RelabelledSame(t: Tables, id: int)
    requires TablesOk(t) && id in t.nodes
    ensures Relabelled(t, t, id, ReadRow(t.nodes[id]).labels)
  {
    hide Split, Join;
    SplitReadable(t.nodes[id].labels);
    assert t.nodes == t.nodes[id := t.nodes[id]];
    forall p
      ensures p in t.labelRows <==> (if p.0 == id then p.1 in LabelsOf(t, id) else p in t.labelRows)
    {
      assert p == (p.0, p.1);
    }
  }

  lemma {:induction false} WithoutOrder(have: seq<string>, l: string)
    requires Distinct(have)
    ensures InOrder(WithoutLabel(have, l), have)
    decreases |have|
  {
    WithoutLabelIs(have, l);
    if have == [] || have[0] == l {
    } else {
      var tail, rest := have[1..], WithoutLabel(have[1..], l);
      WithoutOrder(tail, l);
      var now := WithoutLabel(have, l);
      assert now == [have[0]] + rest;
      forall i, j, p, q | 0 <= i < j < |now| && 0 <= p < |have| && 0 <= q < |have| && have[p] == now[i] && have[q] == now[j]
        ensures p < q
      {
        assert now[j] == rest[j - 1] && now[j] != now[0] == have[0];
        if p > 0 {
          assert i > 0;
          assert tail[p - 1] == rest[i - 1] && tail[q - 1] == rest[j - 1];
        }
      }
    }
  }

  lemma OrderTrans(a: seq<string>, b: seq<string>, c: seq<string>)
    requires InOrder(a, b) && InOrder(b, c) && forall l :: l in a ==> l in b
    ensures InOrder(a, c)
  {
    forall i, j, p, q | 0 <= i < j < |a| && 0 <= p < |c| && 0 <= q < |c| && c[p] == a[i] && c[q] == a[j]
      ensures p < q
    {
      assert a[i] in b && a[j] in b;
      var x :| 0 <= x < |b| && b[x] == a[i];
      var y :| 0 <= y < |b| && b[y] == a[j];
    }
  }

  lemma {:induction false} RemovedOrder(have: seq<string>, ls: seq<string>)
    requires Distinct(have)
    ensures InOrder(RemovedLabels(have, ls), have)
    decreases |ls|
  {
    if ls != [] {
      var init := ls[..|ls| - 1];
      var mid := RemovedLabels(have, init);
      RemovedOrder(have, init);
      RemovedLabelsIs(have, init);
      WithoutLabelIs(mid, ls[|ls| - 1]);
      WithoutOrder(mid, ls[|ls| - 1]);
      OrderTrans(WithoutLabel(mid, ls[|ls| - 1]), mid, have);
    }
  }

  lemma NewNodeIs(t: Tables, val: NodeVal, labels: seq<string>, props: Props)
    requires t.nextNode !in t.nodes && StoredAs(props, val.props) && Distinct(val.labels) && (Distinct(labels) ==> val.labels == labels)
    requires forall l :: l in val.labels <==> l in labels
    ensures NewNode(t, InsertNode(t, val), t.nextNode, val.labels, labels, props)
  {
    hide StoredAs, Join;
    forall p
      ensures p in LabelPairs(t.nextNode, val.labels) <==> p.0 == t.nextNode && p.1 in labels
    {
      assert p == (p.0, p.1);
    }
  }

  lemma NewEdgeIs(t: Tables, row: EdgeRow, props: Props)
    requires t.nextEdge !in t.edges && StoredAs(props, row.props)
    ensures t.nextEdge in InsertEdge(t, row).edges && NewEdge(t, InsertEdge(t, row), t.nextEdge, row.typ, row.start, row.end, props)
  {
    hide StoredAs;
  }

  class GraphView {
    ghost const base: Tables
    var t: Tables
    var nodes: map<int, NodeEnt>
    var rels: map<int, RelEnt>
    var outAdj: map<int, seq<int>>
    var inAdj: map<int, seq<int>>
    var delNodes: seq<int>
    var delRels: seq<int>
    var createdNodes: set<int>
    var createdRels: set<int>
    var nodeSnap: map<int, NodeVal>
    var relSnap: map<int, Props>
    var counters: Counters

    ghost function Value(): View
      reads this
    {
      View(base, t, nodes, rels, outAdj, inAdj, delNodes, delRels, createdNodes, createdRels, nodeSnap, relSnap, counters)
    }

    constructor (t0: Tables)
      requires TablesOk(t0)
      ensures Inv(Value()) && t == base == t0
    {
      base, t := t0, t0;
      nodes, rels, outAdj, inAdj := map[], map[], map[], map[];
      delNodes, delRels := [], [];
      createdNodes, createdRels, nodeSnap, relSnap := {}, {}, map[], map[];
      counters := Counters(0, 0, 0, 0, 0, 0, 0, 0);
    }

    /** One shared value per node; None if there is no such row. */
    method LoadNode(id: int) returns (r: Option<NodeEnt>)
      requires Inv(Value())
      modifies `nodes
      ensures Inv(Value()) && OnlyCached(old(Value()), Value())
      ensures r.Some? <==> id in t.nodes
      ensures r.Some? ==> id in nodes && r.value == nodes[id] && r.value.val == ReadRow(t.nodes[id])
    {
      hide Inv;
      if id in nodes {
        CachedNode(Value(), id);
        return Some(nodes[id]);
      }
      if id !in t.nodes {
        return None;
      }
      NodeCached(Value(), id);
      nodes := nodes[id := NodeEnt(ReadRow(t.nodes[id]), false)];
      return Some(nodes[id]);
    }

    /** One shared value per relationship that a query returned. */
    method LoadRels(es: seq<int>)
      requires Inv(Value()) && forall e :: e in es ==> e in t.edges
      modifies `rels
      ensures Inv(Value()) && OnlyCached(old(Value()), Value())
      ensures forall e :: e in es ==> e in rels
    {
      hide Inv;
      for i := 0 to |es|
        invariant Inv(Value()) && OnlyCached(old(Value()), Value())
        invariant forall j :: 0 <= j < i ==> es[j] in rels
      {
        assert es[i] in es;
        if es[i] !in rels {
          RelCached(Value(), es[i]);
          rels := rels[es[i] := RelEnt(t.edges[es[i]], false)];
        }
      }
    }

    /** The relationships on one side of a node, deleted ones included. */
    method LoadAdj(n: int, outgoing: bool) returns (es: seq<int>)
      requires Inv(Value())
      modifies `rels, `outAdj, `inAdj
      ensures Inv(Value()) && OnlyCached(old(Value()), Value())
      ensures es == EdgesAt(t, n, outgoing) && forall e :: e in es ==> e in rels
    {
      hide Inv, EdgesAt, OnlyCached;
      AdjKnown(Value(), n, outgoing);
      OnlyCachedSame(Value());
      if outgoing && n in outAdj {
        return outAdj[n];
      }
      if !outgoing && n in inAdj {
        return inAdj[n];
      }
      es := EdgesAt(t, n, outgoing);
      EdgesStored(t, n, outgoing);
      LoadRels(es);
      AdjCached(Value(), n, outgoing);
      ghost var before := Value();
      if outgoing {
        outAdj := outAdj[n := es];
      } else {
        inAdj := inAdj[n := es];
      }
      OnlyCachedTrans(old(Value()), before, Value());
    }

    method LiveRels(n: int, outgoing: bool) returns (live: seq<int>)
      requires Inv(Value())
      modifies `rels, `outAdj, `inAdj
      ensures Inv(Value()) && OnlyCached(old(Value()), Value())
      ensures Ascending(live) && forall e :: e in live <==> Live(Value(), e) && Side(t.edges[e], outgoing) == n
      ensures forall e :: e in live ==> e in rels
    {
      hide Inv, EdgesAt;
      var es := LoadAdj(n, outgoing);
      InvTables(Value());
      EdgesAtIs(t, n, outgoing);
      live := [];
      for i := 0 to |es|
        invariant Inv(Value()) && OnlyCached(old(Value()), Value())
        invariant forall e :: e in es ==> e in rels
        invariant Ascending(live) && forall j :: 0 <= j < |live| ==> live[j] in es[..i]
        invariant forall j :: 0 <= j < i ==> (es[j] in live <==> es[j] !in delRels)
      {
        assert es[i] in es;
        CachedRel(Value(), es[i]);
        assert es[i] !in es[..i];
        if !rels[es[i]].deleted {
          live := live + [es[i]];
        }
      }
      forall e
        ensures e in live <==> Live(Value(), e) && Side(t.edges[e], outgoing) == n
      {
        if e in es {
          var j :| 0 <= j < |es| && es[j] == e;
        }
      }
    }

    /** The view stays right exactly if the label column can hold the labels; only a property that
        cannot be stored makes it fail. */
    method CreateNode(labels: seq<string>, props: Props) returns (r: Result<int>)
      requires Inv(Value())
      modifies this
      ensures r.Error? <==> CleanProps(props).Error?
      ensures r.Error? ==> Value() == old(Value())
      ensures r.Ok? ==> r.value == old(t.nextNode) && r.value !in old(t.nodes)
      ensures r.Ok? ==> Value() == NodeCreated(old(Value()), NodeVal(Dedupe(labels), CleanProps(props).value))
      ensures r.Ok? ==> (Inv(Value()) <==> Readable(Dedupe(labels)))
      ensures r.Ok? <==> forall k :: k in props && !props[k].Null? ==> Storable(props[k])
      ensures r.Ok? ==> r.value in t.nodes && r.value in nodes && NewNode(old(t), t, r.value, nodes[r.value].val.labels, labels, props)
    {
      hide Inv, CleanProps, Dedupe, Readable, Storable, StoredAs, Join, NewNode;
      CleanMeans(props);
      var clean := CleanProps(props);
      if clean.Error? {
        return Error;
      }
      DedupeIs(labels);
      var val := NodeVal(Dedupe(labels), clean.value);
      CreateNodeOk(Value(), val);
      NewNodeIs(t, val, labels, props);
      var id := t.nextNode;
      t := InsertNode(t, val);
      nodes := nodes[id := NodeEnt(val, false)];
      createdNodes := createdNodes + {id};
      counters := counters.(nodesCreated := counters.nodesCreated + 1);
      return Ok(id);
    }

    /** The INSERT of `createRel`; loaded adjacency lists are kept current. */
    method AddRel(row: EdgeRow) returns (e: int)
      requires Inv(Value()) && row.start in nodes && row.end in nodes
      modifies this
      ensures Inv(Value()) && Value() == RelCreated(old(Value()), row)
      ensures e == old(t.nextEdge) && e !in old(t.edges)
    {
      hide Inv, Appended, InsertEdge;
      CachedNode(Value(), row.start);
      CachedNode(Value(), row.end);
      CreateRelOk(Value(), row);
      e := t.nextEdge;
      t := InsertEdge(t, row);
      rels := rels[e := RelEnt(row, false)];
      outAdj := Appended(outAdj, row.start, e);
      inAdj := Appended(inAdj, row.end, e);
      createdRels := createdRels + {e};
      counters := counters.(relsCreated := counters.relsCreated + 1);
    }

    /** Only a property that cannot be stored makes it fail. */
    method CreateRel(typ: string, start: int, end: int, props: Props) returns (r: Result<int>)
      requires Inv(Value()) && start in nodes && end in nodes
      modifies this
      ensures Inv(Value())
      ensures r.Error? <==> CleanProps(props).Error?
      ensures r.Error? ==> Value() == old(Value())
      ensures r.Ok? ==> r.value == old(t.nextEdge) && r.value !in old(t.edges)
      ensures r.Ok? ==> Value() == RelCreated(old(Value()), EdgeRow(typ, start, end, CleanProps(props).value))
      ensures r.Ok? <==> forall k :: k in props && !props[k].Null? ==> Storable(props[k])
      ensures r.Ok? ==> r.value in t.edges && NewEdge(old(t), t, r.value, typ, start, end, props)
    {
      hide Inv, CleanProps, Appended, InsertEdge, Storable, StoredAs, NewEdge;
      CleanMeans(props);
      var clean := CleanProps(props);
      if clean.Error? {
        return Error;
      }
      var row := EdgeRow(typ, start, end, clean.value);
      var e := AddRel(row);
      NewEdgeIs(old(t), row, props);
      return Ok(e);
    }

    /** On an error the tables are as before, but the cached value may not be: the statement ends. */
    method SetNodeProp(id: int, key: string, v: Value) returns (r: Result<()>)
      requires Inv(Value()) && id in nodes
      modifies this
      ensures r.Ok? <==> !old(nodes[id].deleted) && PropsAfter(old(nodes[id].val.props), key, v).Some?
      ensures r.Error? ==> t == old(t)
      ensures r.Ok? ==> Inv(Value())
      ensures r.Ok? ==> Value() == if v.Null? && key !in old(nodes[id].val.props) then old(Value())
        else NodeChanged(old(Value()), id, old(nodes[id].val).(props := PropsAfter(old(nodes[id].val.props), key, v).value))
      ensures r.Ok? <==> !old(nodes[id].deleted) && CanSet(old(nodes[id].val.props), key, v)
      ensures r.Ok? ==> NodePropSet(old(t), t, id, key, v) && id in nodes && nodes[id].val.props == t.nodes[id].props
    {
      hide Inv, AllEncodable, Acceptable, WithNode, Readable, CanSet, PropSet;
      PropsAfterMeans(nodes[id].val.props, key, v);
      CachedNode(Value(), id);
      var ent := nodes[id];
      if ent.deleted {
        return Error;
      }
      if v.Null? {
        if key !in ent.val.props {
          NothingDropped(t, id, key);
          return Ok(());
        }
      } else if !Acceptable(v) {
        return Error;
      }
      CachedNode(Value(), id);
      InvTables(Value());
      nodeSnap := SnapNode(createdNodes, nodeSnap, id, ent.val);
      var props := if v.Null? then ent.val.props - {key} else ent.val.props[key := v];
      nodes := nodes[id := ent.(val := ent.val.(props := props))];
      if !v.Null? && !AllEncodable(props) {
        return Error;
      }
      DistinctLabels(old(t), id);
      PropsOnly(t, id, props);
      ChangeNodeOk(old(Value()), id, ent.val.(props := props));
      t := t.(nodes := t.nodes[id := t.nodes[id].(props := props)]);
      return Ok(());
    }

    method SetRelProp(e: int, key: string, v: Value) returns (r: Result<()>)
      requires Inv(Value()) && e in rels
      modifies this
      ensures r.Ok? <==> !old(rels[e].deleted) && PropsAfter(old(rels[e].row.props), key, v).Some?
      ensures r.Error? ==> t == old(t)
      ensures r.Ok? ==> Inv(Value())
      ensures r.Ok? ==> Value() == if v.Null? && key !in old(rels[e].row.props) then old(Value())
        else RelChanged(old(Value()), e, PropsAfter(old(rels[e].row.props), key, v).value)
      ensures r.Ok? <==> !old(rels[e].deleted) && CanSet(old(rels[e].row.props), key, v)
      ensures r.Ok? ==> RelPropSet(old(t), t, e, key, v) && e in rels && rels[e].row.props == t.edges[e].props
    {
      hide Inv, AllEncodable, Acceptable, CanSet, PropSet;
      PropsAfterMeans(rels[e].row.props, key, v);
      CachedRel(Value(), e);
      var ent := rels[e];
      if ent.deleted {
        return Error;
      }
      if v.Null? {
        if key !in ent.row.props {
          NothingDropped(t, e, key);
          return Ok(());
        }
      } else if !Acceptable(v) {
        return Error;
      }
      CachedRel(Value(), e);
      relSnap := SnapRel(createdRels, relSnap, e, ent.row.props);
      var props := if v.Null? then ent.row.props - {key} else ent.row.props[key := v];
      var row := ent.row.(props := props);
      rels := rels[e := ent.(row := row)];
      if !v.Null? && !AllEncodable(props) {
        return Error;
      }
      ChangeRelOk(old(Value()), e, props);
      t := t.(edges := t.edges[e := row]);
      return Ok(());
    }

    method AddLabels(id: int, labels: seq<string>) returns (r: Result<()>)
      requires Inv(Value()) && id in nodes
      modifies this
      ensures r.Ok? <==> !old(nodes[id].deleted)
      ensures r.Error? ==> Value() == old(Value())
      ensures r.Ok? ==> var had := old(nodes[id].val.labels);
        Value() == if AddedLabels(had, labels) == had then old(Value())
          else NodeChanged(old(Value()), id, old(nodes[id].val).(labels := AddedLabels(had, labels)))
      ensures r.Ok? ==> (Inv(Value()) <==> Readable(AddedLabels(old(nodes[id].val.labels), labels)))
      ensures r.Ok? ==> id in nodes && Relabelled(old(t), t, id, nodes[id].val.labels)
      ensures r.Ok? ==> var had, now := old(nodes[id].val.labels), nodes[id].val.labels;
        had <= now && Distinct(now) && forall l :: l in now <==> l in had || l in labels
    {
      hide Inv, WithNode, AddedLabels, Readable, Relabelled;
      var ent := nodes[id];
      if ent.deleted {
        return Error;
      }
      CachedNode(Value(), id);
      InvTables(Value());
      DistinctLabels(t, id);
      AddedLabelsIs(ent.val.labels, labels);
      var now := ent.val.labels;
      var changed := false;
      assert now == AddedLabels(now, labels[..0]) by {
        AddedLabelsIs(now, labels[..0]);
      }
      for i := 0 to |labels|
        invariant Value() == old(Value())
        invariant now == AddedLabels(ent.val.labels, labels[..i])
        invariant changed <==> now != ent.val.labels
      {
        AddedStep(ent.val.labels, labels, i);
        AddedLabelsIs(ent.val.labels, labels[..i]);
        if labels[i] !in now {
          now := now + [labels[i]];
          changed := true;
        }
      }
      assert labels[..|labels|] == labels;
      if changed {
        var val := ent.val.(labels := now);
        ChangeNodeOk(Value(), id, val);
        nodeSnap := SnapNode(createdNodes, nodeSnap, id, ent.val);
        nodes := nodes[id := ent.(val := val)];
        t := WithNode(t, id, val);
        RelabelledIs(old(t), id, val);
      } else {
        CachedReadable(Value(), id);
        RelabelledSame(t, id);
      }
      return Ok(());
    }

    method RemoveLabels(id: int, labels: seq<string>) returns (r: Result<()>)
      requires Inv(Value()) && id in nodes
      modifies this
      ensures r.Ok? <==> !old(nodes[id].deleted)
      ensures r.Error? ==> Value() == old(Value())
      ensures r.Ok? ==> var had := old(nodes[id].val.labels);
        Value() == if RemovedLabels(had, labels) == had then old(Value())
          else NodeChanged(old(Value()), id, old(nodes[id].val).(labels := RemovedLabels(had, labels)))
      ensures r.Ok? ==> (Inv(Value()) <==> Readable(RemovedLabels(old(nodes[id].val.labels), labels)))
      ensures r.Ok? ==> id in nodes && Relabelled(old(t), t, id, nodes[id].val.labels)
      ensures r.Ok? ==> var had, now := old(nodes[id].val.labels), nodes[id].val.labels;
        InOrder(now, had) && forall l :: l in now <==> l in had && l !in labels
    {
      hide Inv, WithNode, WithoutLabel, RemovedLabels, Readable, Relabelled, InOrder;
      var ent := nodes[id];
      if ent.deleted {
        return Error;
      }
      CachedNode(Value(), id);
      InvTables(Value());
      DistinctLabels(t, id);
      RemovedLabelsIs(ent.val.labels, labels);
      RemovedOrder(ent.val.labels, labels);
      var now := ent.val.labels;
      var changed := false;
      RemovedNone(ent.val.labels, labels);
      for i := 0 to |labels|
        invariant Value() == old(Value())
        invariant now == RemovedLabels(ent.val.labels, labels[..i]) && Distinct(now)
        invariant |now| <= |ent.val.labels|
        invariant if changed then |now| < |ent.val.labels| else now == ent.val.labels
      {
        RemovedStep(ent.val.labels, labels, i);
        WithoutLabelIs(now, labels[i]);
        WithoutSize(now, labels[i]);
        if labels[i] in now {
          changed := true;
        }
        now := WithoutLabel(now, labels[i]);
      }
      assert labels[..|labels|] == labels;
      if changed {
        var val := ent.val.(labels := now);
        ChangeNodeOk(Value(), id, val);
        nodeSnap := SnapNode(createdNodes, nodeSnap, id, ent.val);
        nodes := nodes[id := ent.(val := val)];
        t := WithNode(t, id, val);
        RelabelledIs(old(t), id, val);
      } else {
        CachedReadable(Value(), id);
        RelabelledSame(t, id);
      }
      return Ok(());
    }

    /** Marks a relationship; it is removed when the statement ends. */
    method DeleteRel(e: int)
      requires Inv(Value()) && e in rels
      modifies `rels, `delRels
      ensures Inv(Value()) && Value() == RelMarked(old(Value()), e)
      ensures forall x :: x in delRels <==> x in old(delRels) || x == e
    {
      hide Inv;
      MarkRelOk(Value(), e);
      CachedRel(Value(), e);
      if rels[e].deleted {
        return;
      }
      rels := rels[e := rels[e].(deleted := true)];
      delRels := delRels + [e];
    }

    /** Marks every live relationship of a node; a self-loop is found on both sides. */
    method DetachRels(id: int)
      requires Inv(Value())
      modifies `rels, `outAdj, `inAdj, `delRels
      ensures Inv(Value()) && t == old(t) && nodes == old(nodes) && delNodes == old(delNodes)
      ensures forall e :: e in delRels <==>
        e in old(delRels) || (e in t.edges && (t.edges[e].start == id || t.edges[e].end == id))
    {
      hide Inv;
      var leaving := LiveRels(id, true);
      var entering := LiveRels(id, false);
      var all := leaving + entering;
      for i := 0 to |all|
        invariant Inv(Value()) && t == old(t) && nodes == old(nodes) && delNodes == old(delNodes)
        invariant forall e :: e in all ==> e in rels
        invariant forall e :: e in delRels <==> e in old(delRels) || e in all[..i]
      {
        assert all[i] in all;
        assert all[..i + 1] == all[..i] + [all[i]];
        DeleteRel(all[i]);
      }
      assert all[..|all|] == all;
    }

    /** With `detach` the live relationships of the node are deleted with it. */
    method DeleteNode(id: int, detach: bool)
      requires Inv(Value()) && id in nodes
      modifies `rels, `outAdj, `inAdj, `delRels, `nodes, `delNodes
      ensures Inv(Value()) && t == old(t)
      ensures forall x :: x in delNodes <==> x in old(delNodes) || x == id
      ensures forall e :: e in delRels <==>
        e in old(delRels) || (detach && id !in old(delNodes) && e in t.edges && (t.edges[e].start == id || t.edges[e].end == id))
    {
      hide Inv;
      CachedNode(Value(), id);
      if nodes[id].deleted {
        return;
      }
      if detach {
        DetachRels(id);
      }
      MarkNodeOk(Value(), id);
      nodes := nodes[id := nodes[id].(deleted := true)];
      delNodes := delNodes + [id];
    }

    /** The first loop of `finish`: does a deleted node still have a live relationship? */
    method Connected() returns (blocked: bool)
      requires Inv(Value())
      modifies `rels, `outAdj, `inAdj
      ensures Inv(Value()) && OnlyCached(old(Value()), Value())
      ensures blocked <==> Blocked(Value())
    {
      hide Inv;
      for i := 0 to |delNodes|
        invariant Inv(Value()) && OnlyCached(old(Value()), Value())
        invariant forall e, j :: Live(Value(), e) && 0 <= j < i ==> t.edges[e].start != delNodes[j] && t.edges[e].end != delNodes[j]
      {
        var leaving := LiveRels(delNodes[i], true);
        var entering := LiveRels(delNodes[i], false);
        if |leaving| + |entering| > 0 {
          var e := if leaving != [] then leaving[0] else entering[0];
          assert e in leaving || e in entering;
          assert Live(Value(), e);
          return true;
        }
      }
      return false;
    }

    /** DELETE FROM edges, row by row. */
    method PurgeRels()
      requires Distinct(delRels)
      modifies `t, `counters
      ensures t == EdgesLess(old(t), Ids(delRels))
      ensures counters == old(counters).(relsCreated := old(counters).relsCreated - Mine(createdRels, Ids(delRels)),
                                         relsDeleted := old(counters).relsDeleted + Others(createdRels, Ids(delRels)))
    {
      hide EdgesLess, Mine, Others, Ids;
      LessNothing(t);
      NoneOut(createdRels);
      assert Ids([]) == {} by {
        NoIds();
      }
      for i := 0 to |delRels|
        invariant t == EdgesLess(old(t), Ids(delRels[..i]))
        invariant counters == old(counters).(relsCreated := old(counters).relsCreated - Mine(createdRels, Ids(delRels[..i])),
                                             relsDeleted := old(counters).relsDeleted + Others(createdRels, Ids(delRels[..i])))
      {
        var e := delRels[i];
        IdsStep(delRels, i);
        LessOne(old(t), Ids(delRels[..i]), e);
        OneOut(createdRels, Ids(delRels[..i]), e);
        t := EdgesLess(t, {e});
        if e in createdRels {
          counters := counters.(relsCreated := counters.relsCreated - 1);
        } else {
          counters := counters.(relsDeleted := counters.relsDeleted + 1);
        }
      }
      assert delRels[..|delRels|] == delRels;
    }

    /** DELETE FROM nodes, row by row; the label rows cascade. */
    method PurgeNodes()
      requires Distinct(delNodes)
      modifies `t, `counters
      ensures t == NodesLess(old(t), Ids(delNodes))
      ensures counters == old(counters).(nodesCreated := old(counters).nodesCreated - Mine(createdNodes, Ids(delNodes)),
                                         nodesDeleted := old(counters).nodesDeleted + Others(createdNodes, Ids(delNodes)))
    {
      hide NodesLess, Mine, Others, Ids;
      LessNothing(t);
      NoneOut(createdNodes);
      assert Ids([]) == {} by {
        NoIds();
      }
      for i := 0 to |delNodes|
        invariant t == NodesLess(old(t), Ids(delNodes[..i]))
        invariant counters == old(counters).(nodesCreated := old(counters).nodesCreated - Mine(createdNodes, Ids(delNodes[..i])),
                                             nodesDeleted := old(counters).nodesDeleted + Others(createdNodes, Ids(delNodes[..i])))
      {
        var id := delNodes[i];
        IdsStep(delNodes, i);
        LessOne(old(t), Ids(delNodes[..i]), id);
        OneOut(createdNodes, Ids(delNodes[..i]), id);
        t := NodesLess(t, {id});
        if id in createdNodes {
          counters := counters.(nodesCreated := counters.nodesCreated - 1);
        } else {
          counters := counters.(nodesDeleted := counters.nodesDeleted + 1);
        }
      }
      assert delNodes[..|delNodes|] == delNodes;
    }

    /** The DELETE statements of `finish`, with the row counters. */
    method Purge()
      requires Inv(Value()) && !Blocked(Value())
      modifies `t, `counters
      ensures t == Purged(old(t), delNodes, delRels) && TablesOk(t) && RowsGone(old(t), t, delNodes, delRels)
      ensures RowsConserved(base, t, counters)
      ensures counters == Counters(counters.nodesCreated, counters.nodesDeleted, counters.relsCreated, counters.relsDeleted, 0, 0, 0, 0)
    {
      hide Inv, Blocked, TablesOk, EdgesLess, NodesLess, Mine, Others, Ids, RowsConserved, RowsGone;
      ghost var v := Value();
      PurgedGoes(t, delNodes, delRels);
      MarkedLists(v);
      PurgedOk(v);
      StartCounters(v);
      PurgeRels();
      PurgeNodes();
      PurgedCounts(v, counters);
    }

    /** The deletions have been applied to the tables and nothing else has changed since `v`. */
    ghost predicate Ended(v: View)
      reads this
    {
      Value() == v.(t := Purged(v.t, v.delNodes, v.delRels), counters := counters)
    }

    /** The node half of `netCounters`: properties and labels. */
    method NetNodes(ghost v: View) returns (sets: int, rems: int, added: nat, removed: nat)
      requires Inv(v) && !Blocked(v) && Ended(v)
      ensures sets == Sum(base.nodes.Keys + t.nodes.Keys, NodeSets(base, t))
      ensures rems == Sum(base.nodes.Keys + t.nodes.Keys, NodeRemoves(base, t))
      ensures added == |Labels(t) - Labels(base)| && removed == |Labels(base) - Labels(t)|
    {
      hide Inv, Blocked, Labels, TablesOk, Purged, LiveRow, Counted, Sum;
      NodeFacts(v);
      NothingCounted(base, t);
      ghost var live := set id | id in nodeSnap && id in nodes && !nodes[id].deleted;
      var s1, g1 := CountCreated(base, t, nodes, createdNodes, 0, 0, map[], map[], {});
      assert {} + createdNodes == createdNodes;
      var s2, r2, g2, l2 := CountChanged(base, t, nodes, nodeSnap, s1, 0, g1, map[], createdNodes, live);
      var r3, l3 := CountDeleted(base, t, nodes, nodeSnap, delNodes, createdNodes, s2, r2, g2, l2, createdNodes + live);
      ghost var done := createdNodes + live + OldOnes(delNodes, createdNodes);
      DoneNodes(v, done, s2, r3, g2, l3);
      PurgedOk(v);
      InvTables(v);
      InStep(base);
      InStep(t);
      added, removed := CountLabels(base, t, done, g2, l3);
      sets, rems := s2, r3;
    }

    /** The relationship half. */
    method NetRels(ghost v: View) returns (sets: int, rems: int)
      requires Inv(v) && Ended(v)
      ensures sets == Sum(base.edges.Keys + t.edges.Keys, EdgeSets(base, t))
      ensures rems == Sum(base.edges.Keys + t.edges.Keys, EdgeRemoves(base, t))
    {
      hide Inv, Purged, LiveEdge, CountedEdges, Sum;
      RelFacts(v);
      NoEdgesCounted(base, t);
      ghost var live := set e | e in relSnap && e in rels && !rels[e].deleted;
      var s1 := CountCreatedRels(base, t, rels, createdRels, 0, 0, {});
      assert {} + createdRels == createdRels;
      var s2, r2 := CountChangedRels(base, t, rels, relSnap, s1, 0, createdRels, live);
      var r3 := CountDeletedRels(base, t, rels, relSnap, delRels, createdRels, s2, r2, createdRels + live);
      DoneRels(v, createdRels + live + OldOnes(delRels, createdRels), s2, r3);
      sets, rems := s2, r3;
    }

    /** `netCounters`. */
    method NetCounters(ghost v: View)
      requires Inv(v) && !Blocked(v) && Ended(v) && RowsConserved(base, t, counters)
      modifies `counters
      ensures CountersExact(base, t, counters)
    {
      hide Inv, Blocked, Purged, TablesOk, RowsConserved, Labels, Sum, NodeSets, NodeRemoves, EdgeSets, EdgeRemoves;
      var ns, nr, added, removed := NetNodes(v);
      var es, er := NetRels(v);
      counters := counters.(propsSet := ns + es, propsRemoved := nr + er, labelsAdded := added, labelsRemoved := removed);
      ConservedRows(base, t, old(counters), counters);
    }

    /** `finish`, up to the constraint checks: either a deleted node keeps a live relationship
        and the tables stay as they are, or the deleted rows go, nothing dangles, and the counters
        say exactly what the statement did. */
    method Finish() returns (r: Result<()>)
      requires Inv(Value())
      modifies `t, `rels, `outAdj, `inAdj, `counters
      ensures r.Error? <==> Blocked(old(Value()))
      ensures r.Error? ==> t == old(t)
      ensures r.Ok? ==> t == Purged(old(t), delNodes, delRels) && TablesOk(t) && CountersExact(base, t, counters)
      ensures r.Ok? ==> RowsGone(old(t), t, delNodes, delRels)
    {
      hide Inv, Blocked, Purged, TablesOk, RowsConserved, CountersExact, OnlyCached, RowsGone;
      ghost var v0 := Value();
      var blocked := Connected();
      ghost var v := Value();
      BlockedSame(v0, v);
      CachedFrame(v0, v);
      if blocked {
        return Error;
      }
      Purge();
      NetCounters(v);
      return Ok(());
    }
  }

  lemma ConservedRows(base: Tables, t: Tables, d: Counters, c: Counters)
    requires RowsConserved(base, t, d)
    requires c.nodesCreated == d.nodesCreated && c.nodesDeleted == d.nodesDeleted
    requires c.relsCreated == d.relsCreated && c.relsDeleted == d.relsDeleted
    ensures RowsConserved(base, t, c)
  {
  }

  lemma CachedFrame(a: View, b: View)
    requires OnlyCached(a, b)
    ensures b.t == a.t && b.delNodes == a.delNodes && b.delRels == a.delRels && b.createdNodes == a.createdNodes
    ensures b.createdRels == a.createdRels && b.nodeSnap == a.nodeSnap && b.relSnap == a.relSnap
  {
  }

  lemma BlockedSame(a: View, b: View)
    requires OnlyCached(a, b)
    ensures Blocked(a) <==> Blocked(b)
  {
    if Blocked(a) {
      var e :| Live(a, e) && (a.t.edges[e].start in a.delNodes || a.t.edges[e].end in a.delNodes);
      assert Live(b, e);
    }
    if Blocked(b) {
      var e :| Live(b, e) && (b.t.edges[e].start in b.delNodes || b.t.edges[e].end in b.delNodes);
      assert Live(a, e);
    }
  }

  function Mine(made: set<int>, gone: set<int>): nat {
    |made * gone|
  }

  function Others(made: set<int>, gone: set<int>): nat {
    |gone - made|
  }

  lemma NoIds()
    ensures Ids([]) == {}
  {
  }

  lemma NoneOut(made: set<int>)
    ensures Mine(made, {}) == 0 && Others(made, {}) == 0
  {
    assert made * {} == {};
  }

  lemma OneOut(made: set<int>, gone: set<int>, x: int)
    requires x !in gone
    ensures Mine(made, gone + {x}) == Mine(made, gone) + if x in made then 1 else 0
    ensures Others(made, gone + {x}) == Others(made, gone) + if x in made then 0 else 1
  {
    if x in made {
      assert made * (gone + {x}) == made * gone + {x};
      assert (gone + {x}) - made == gone - made;
    } else {
      assert made * (gone + {x}) == made * gone;
      assert (gone + {x}) - made == (gone - made) + {x};
    }
  }

  /** Rows created and deleted, as sets. */
  lemma RowSets(base: set<int>, made: set<int>, gone: set<int>)
    requires made !! base && gone <= base + made
    ensures |(base + made - gone) - base| == |made| - Mine(made, gone)
    ensures |base - (base + made - gone)| == Others(made, gone)
  {
    assert (base + made - gone) - base == made - gone;
    assert base - (base + made - gone) == gone - made;
    assert made == (made - gone) + (made * gone);
  }

  lemma StartCounters(v: View)
    requires Inv(v)
    ensures v.counters == Counters(|v.createdNodes|, 0, |v.createdRels|, 0, 0, 0, 0, 0)
  {
    InvMarks(v);
    hide Inv;
  }

  lemma MarkedRows(v: View, x: int)
    requires Inv(v)
    ensures x in v.delNodes ==> x in v.t.nodes
    ensures x in v.delRels ==> x in v.t.edges
  {
    InvMarks(v);
    hide Inv, HistoryOk;
  }

  lemma PurgedNodeCounts(v: View)
    requires Inv(v)
    ensures var u, gone := Purged(v.t, v.delNodes, v.delRels), Ids(v.delNodes);
      && |u.nodes.Keys - v.base.nodes.Keys| == |v.createdNodes| - Mine(v.createdNodes, gone)
      && |v.base.nodes.Keys - u.nodes.Keys| == Others(v.createdNodes, gone)
  {
    InvMarks(v);
    hide Inv, Mine, Others;
    var gone := Ids(v.delNodes);
    forall x | x in gone
      ensures x in v.t.nodes
    {
      MarkedRows(v, x);
    }
    RowSets(v.base.nodes.Keys, v.createdNodes, gone);
    assert Purged(v.t, v.delNodes, v.delRels).nodes.Keys == v.base.nodes.Keys + v.createdNodes - gone;
  }

  lemma PurgedRelCounts(v: View)
    requires Inv(v)
    ensures var u, gone := Purged(v.t, v.delNodes, v.delRels), Ids(v.delRels);
      && |u.edges.Keys - v.base.edges.Keys| == |v.createdRels| - Mine(v.createdRels, gone)
      && |v.base.edges.Keys - u.edges.Keys| == Others(v.createdRels, gone)
  {
    InvMarks(v);
    hide Inv, Mine, Others;
    var gone := Ids(v.delRels);
    forall x | x in gone
      ensures x in v.t.edges
    {
      MarkedRows(v, x);
    }
    RowSets(v.base.edges.Keys, v.createdRels, gone);
    assert Purged(v.t, v.delNodes, v.delRels).edges.Keys == v.base.edges.Keys + v.createdRels - gone;
  }

  lemma MarkedLists(v: View)
    requires Inv(v)
    ensures Distinct(v.delNodes) && Distinct(v.delRels)
  {
    hide Inv;
    MarkedCached(v);
  }

  lemma PurgedCounts(v: View, c: Counters)
    requires Inv(v)
    requires c.nodesCreated == |v.createdNodes| - Mine(v.createdNodes, Ids(v.delNodes))
    requires c.nodesDeleted == Others(v.createdNodes, Ids(v.delNodes))
    requires c.relsCreated == |v.createdRels| - Mine(v.createdRels, Ids(v.delRels))
    requires c.relsDeleted == Others(v.createdRels, Ids(v.delRels))
    ensures RowsConserved(v.base, Purged(v.t, v.delNodes, v.delRels), c)
  {
    hide Inv, Purged, Mine, Others, Ids;
    PurgedNodeCounts(v);
    PurgedRelCounts(v);
  }

  lemma NothingCounted(base: Tables, t: Tables)
    ensures Counted(base, t, {}, 0, 0, map[], map[])
  {
    assert forall l :: Gained(base, t, {}, l) == {} && Gained(t, base, {}, l) == {};
  }

  lemma NoEdgesCounted(base: Tables, t: Tables)
    ensures CountedEdges(base, t, {}, 0, 0)
  {
  }

  lemma NodeFacts(v: View)
    requires Inv(v)
    ensures var u := Purged(v.t, v.delNodes, v.delRels);
      && (forall id :: id in v.createdNodes ==> id in v.nodes && id !in v.base.nodes && LiveRow(v.nodes[id], u, id))
      && (forall id :: id in v.nodeSnap ==> id in v.nodes && LiveRow(v.nodes[id], u, id) && id in v.base.nodes
                                            && ReadRow(v.base.nodes[id]) == v.nodeSnap[id] && Distinct(v.nodeSnap[id].labels) && id !in v.createdNodes)
      && (forall id :: id in v.delNodes && id !in v.createdNodes ==>
        id in v.nodes && v.nodes[id].deleted && id !in u.nodes && id in v.base.nodes && Distinct(LabelsOf(v.base, id))
        && ReadRow(v.base.nodes[id]) == if id in v.nodeSnap then v.nodeSnap[id] else v.nodes[id].val)
    ensures Distinct(v.delNodes)
  {
    hide Inv, LiveRow;
    MarkedCached(v);
    forall id | id in v.nodes
      ensures LiveRow(v.nodes[id], Purged(v.t, v.delNodes, v.delRels), id)
      ensures id in v.createdNodes ==> id !in v.base.nodes
      ensures id in v.nodeSnap ==>
        id !in v.createdNodes && id in v.base.nodes && ReadRow(v.base.nodes[id]) == v.nodeSnap[id] && Distinct(v.nodeSnap[id].labels)
      ensures id !in v.createdNodes ==>
        id in v.base.nodes && Distinct(LabelsOf(v.base, id))
        && ReadRow(v.base.nodes[id]) == if id in v.nodeSnap then v.nodeSnap[id] else v.nodes[id].val
    {
      EndedNodes(v, id);
    }
  }

  lemma RelFacts(v: View)
    requires Inv(v)
    ensures var u := Purged(v.t, v.delNodes, v.delRels);
      && (forall e :: e in v.createdRels ==> e in v.rels && e !in v.base.edges && LiveEdge(v.rels[e], u, e))
      && (forall e :: e in v.relSnap ==> e in v.rels && LiveEdge(v.rels[e], u, e) && e in v.base.edges
                                         && v.base.edges[e].props == v.relSnap[e] && e !in v.createdRels)
      && (forall e :: e in v.delRels && e !in v.createdRels ==>
        e in v.rels && v.rels[e].deleted && e !in u.edges && e in v.base.edges
        && v.base.edges[e].props == if e in v.relSnap then v.relSnap[e] else v.rels[e].row.props)
    ensures Distinct(v.delRels)
  {
    hide Inv, LiveEdge;
    MarkedCached(v);
    forall e | e in v.rels
      ensures LiveEdge(v.rels[e], Purged(v.t, v.delNodes, v.delRels), e)
      ensures e in v.createdRels ==> e !in v.base.edges
      ensures e in v.relSnap ==> e !in v.createdRels && e in v.base.edges && v.base.edges[e].props == v.relSnap[e]
      ensures e !in v.createdRels ==>
        e in v.base.edges && v.base.edges[e].props == if e in v.relSnap then v.relSnap[e] else v.rels[e].row.props
    {
      EndedRels(v, e);
    }
  }

  lemma SameProps(props: Props)
    ensures PropsSetBy(props, props) == {} && PropsRemovedBy(props, props) == {}
  {
  }

  /** Counting the touched nodes counts them all. */
  lemma DoneNodes(v: View, done: set<int>, sets: int, rems: int, gained: map<string, int>, lost: map<string, int>)
    requires Inv(v)
    requires done == v.createdNodes + (set id | id in v.nodeSnap && id in v.nodes && !v.nodes[id].deleted) + OldOnes(v.delNodes, v.createdNodes)
    requires Counted(v.base, Purged(v.t, v.delNodes, v.delRels), done, sets, rems, gained, lost)
    ensures var u := Purged(v.t, v.delNodes, v.delRels);
      && sets == Sum(v.base.nodes.Keys + u.nodes.Keys, NodeSets(v.base, u))
      && rems == Sum(v.base.nodes.Keys + u.nodes.Keys, NodeRemoves(v.base, u))
      && LabelCounts(v.base, u, done, gained, lost)
      && (forall id, l :: id !in done ==> (HasLabel(u, id, l) <==> HasLabel(v.base, id, l)))
  {
    hide Inv, PropsSetBy, PropsRemovedBy, LabelCounts, Sum;
    var u := Purged(v.t, v.delNodes, v.delRels);
    var ids := v.base.nodes.Keys + u.nodes.Keys;
    MarkedCached(v);
    forall id | id !in done
      ensures NodeSets(v.base, u)(id) == 0 && NodeRemoves(v.base, u)(id) == 0
      ensures forall l :: HasLabel(u, id, l) <==> HasLabel(v.base, id, l)
    {
      EndedUntouched(v, id);
      SameProps(NodeProps(u, id));
    }
    forall id | id !in ids
      ensures NodeSets(v.base, u)(id) == 0 && NodeRemoves(v.base, u)(id) == 0
    {
      SameProps(map[]);
    }
    SumOnly(done, ids, NodeSets(v.base, u));
    SumOnly(done, ids, NodeRemoves(v.base, u));
  }

  /** Two sets outside which nothing weighs have the same sum. */
  lemma SumOnly(a: set<int>, b: set<int>, f: int -> int)
    requires forall x :: x !in a || x !in b ==> f(x) == 0
    ensures Sum(a, f) == Sum(b, f)
  {
    hide Sum;
    forall x | x in a + b && x !in a
      ensures f(x) == 0
    {
    }
    forall x | x in a + b && x !in b
      ensures f(x) == 0
    {
    }
    SumWiden(a, a + b, f);
    SumWiden(b, a + b, f);
  }

  lemma DoneRels(v: View, done: set<int>, sets: int, rems: int)
    requires Inv(v)
    requires done == v.createdRels + (set e | e in v.relSnap && e in v.rels && !v.rels[e].deleted) + OldOnes(v.delRels, v.createdRels)
    requires CountedEdges(v.base, Purged(v.t, v.delNodes, v.delRels), done, sets, rems)
    ensures var u := Purged(v.t, v.delNodes, v.delRels);
      && sets == Sum(v.base.edges.Keys + u.edges.Keys, EdgeSets(v.base, u))
      && rems == Sum(v.base.edges.Keys + u.edges.Keys, EdgeRemoves(v.base, u))
  {
    hide Inv, PropsSetBy, PropsRemovedBy, Sum;
    var u := Purged(v.t, v.delNodes, v.delRels);
    var ids := v.base.edges.Keys + u.edges.Keys;
    MarkedCached(v);
    forall e | e !in done
      ensures EdgeSets(v.base, u)(e) == 0 && EdgeRemoves(v.base, u)(e) == 0
    {
      EndedUntouchedRels(v, e);
      SameProps(EdgeProps(u, e));
    }
    forall e | e !in ids
      ensures EdgeSets(v.base, u)(e) == 0 && EdgeRemoves(v.base, u)(e) == 0
    {
      SameProps(map[]);
    }
    SumOnly(done, ids, EdgeSets(v.base, u));
    SumOnly(done, ids, EdgeRemoves(v.base, u));
  }

  lemma DistinctLabels(t: Tables, id: int)
    requires TablesOk(t) && id in t.nodes
    ensures Distinct(LabelsOf(t, id))
  {
  }

  lemma AddedStep(have: seq<string>, ls: seq<string>, i: nat)
    requires i < |ls|
    ensures AddedLabels(have, ls[..i + 1]) ==
      var init := AddedLabels(have, ls[..i]);
      if ls[i] in init then init else init + [ls[i]]
  {
    assert ls[..i + 1][..i] == ls[..i];
  }

  lemma RemovedStep(have: seq<string>, ls: seq<string>, i: nat)
    requires i < |ls|
    ensures RemovedLabels(have, ls[..i + 1]) == WithoutLabel(RemovedLabels(have, ls[..i]), ls[i])
  {
    assert ls[..i + 1][..i] == ls[..i];
  }

  lemma RemovedNone(have: seq<string>, ls: seq<string>)
    ensures RemovedLabels(have, ls[..0]) == have
  {
  }

  lemma {:induction false} WithoutSize(have: seq<string>, l: string)
    ensures |WithoutLabel(have, l)| == |have| - if l in have then 1 else 0
  {
    if have != [] && have[0] != l {
      WithoutSize(have[1..], l);
      assert have == [have[0]] + have[1..];
    }
  }
}
