/** Pattern parts, rows, and how one matched step extends a row. Predicates stand for
    labels, property maps and inline conditions. */
module Patterns {
  import opened Seqs
  import opened Graphs
  import opened Walks

  /** Run-time values. Numbers are exact; a list of relationships has its own form. */
  datatype Value =
    | NodeV(node: int)
    | RelV(rel: Rel)
    | RelsV(rels: seq<Rel>)
    | PathV(path: Path)
    | NullV
    | BoolV(truth: bool)
    | NumV(num: real)
    | StrV(str: string)
    | ListV(vals: seq<Value>)

  type Row = map<string, Value>

  /** `matches` is the label expression and property map, evaluated in the row before the
      node is bound; `where` the inline WHERE, evaluated after; `narrow` what the scan for
      start candidates already filters on (a label and property equalities). */
  datatype NodePat = NodePat(v: Option<string>, matches: (int, Row) -> bool, where: Row -> bool,
                             narrow: (int, Row) -> bool)

  /** `max < 0` is unbounded. */
  datatype Range = Range(min: nat, max: int)

  /** `range` is None for a single hop. */
  datatype RelPat = RelPat(v: Option<string>, dir: Dir, matches: (Rel, Row) -> bool, where: Row -> bool,
                           range: Option<Range>)

  datatype Link = Link(rel: RelPat, node: NodePat)

  /** A chain pattern: a start node and the relationship/node pairs after it. */
  datatype Part = Part(v: Option<string>, start: NodePat, links: seq<Link>)

  function With(r: Row, v: Option<string>, val: Value): Row {
    match v
    case None => r
    case Some(name) => r[name := val]
  }

  /** `bindStep`: a bound variable must already hold the entity; the inline conditions see
      the new bindings. */
  function BindStep(link: Link, rel: Rel, other: int, r: Row): Option<Row> {
    var rp, np := link.rel, link.node;
    if rp.v.Some? && rp.v.value in r && !(r[rp.v.value].RelV? && r[rp.v.value].rel.id == rel.id) then None
    else if np.v.Some? && np.v.value in r && r[np.v.value] != NodeV(other) then None
    else if !np.matches(other, r) then None
    else
      var r2 := With(With(r, rp.v, RelV(rel)), np.v, NodeV(other));
      if rp.where(r2) && np.where(r2) then Some(r2) else None
  }

  /** `bindVarLength`: binds the list of relationships; the relationship pattern's inline
      WHERE is not consulted here. */
  function BindVarLength(link: Link, chain: seq<Rel>, end: int, r: Row): Option<Row> {
    var rp, np := link.rel, link.node;
    if np.v.Some? && np.v.value in r && r[np.v.value] != NodeV(end) then None
    else if exists i :: 0 <= i < |chain| && !rp.matches(chain[i], r) then None
    else if !np.matches(end, r) then None
    else if rp.v.Some? && rp.v.value in r && r[rp.v.value] != RelsV(chain) then None
    else
      var r2 := With(With(r, rp.v, RelsV(chain)), np.v, NodeV(end));
      if np.where(r2) then Some(r2) else None
  }

  /** `forEachStart` for one candidate node: the row it starts the pattern with. */
  function StartAt(g: Graph, np: NodePat, n: int, r: Row): Option<Row> {
    if np.v.Some? && np.v.value in r then
      if r[np.v.value] == NodeV(n) && n in g.nodes && np.matches(n, r) then Some(r) else None
    else if n in g.nodes && np.narrow(n, r) && np.matches(n, r) then
      var r2 := With(r, np.v, NodeV(n));
      if np.where(r2) then Some(r2) else None
    else None
  }

  /** The nodes `forEachStart` tries. */
  function Candidates(g: Graph, np: NodePat, r: Row): seq<int> {
    if np.v.Some? && np.v.value in r then
      if r[np.v.value].NodeV? then [r[np.v.value].node] else []
    else g.nodes
  }

  predicate CanTake(g: Graph, rp: RelPat, r: Row, used: set<int>, h: Hop) {
    h.rel.id !in used && rp.matches(h.rel, r) && h.to in g.nodes
  }

  function Low(rp: RelPat): nat {
    if rp.range.Some? then rp.range.value.min else 1
  }

  function High(rp: RelPat): int {
    if rp.range.Some? then rp.range.value.max else 1
  }

  /** The relationships one link traverses and the nodes it reaches. */
  datatype Chain = Chain(rels: seq<Rel>, nodes: seq<int>)

  function Bind(link: Link, c: Chain, end: int, r: Row): Option<Row> {
    if link.rel.range.Some? then BindVarLength(link, c.rels, end, r)
    else if |c.rels| == 1 then BindStep(link, c.rels[0], end, r)
    else None
  }

  /** A match under construction: the row so far, the node reached, the path walked, the
      relationships used by the whole MATCH, and the chain chosen for every link. */
  datatype Match = Match(row: Row, at: int, path: Path, used: set<int>, chains: seq<Chain>)

  function At(m: Match, c: Chain): int {
    if c.nodes == [] then m.at else c.nodes[|c.nodes| - 1]
  }

  function Joined(m: Match, row: Row, c: Chain): Match {
    Match(row, At(m, c), Path(m.path.nodes + c.nodes, m.path.rels + c.rels), m.used + Ids(c.rels), m.chains + [c])
  }

  function Begin(r: Row, n: int, used: set<int>): Match {
    Match(r, n, Path([n], []), used, [])
  }

  /** The row handed on once a part is complete: its path variable is bound last. */
  function Finish(part: Part, m: Match): Row {
    With(m.row, part.v, PathV(m.path))
  }

  /** `later` keeps the bindings of `row`; a relationship may be bound again, to the one with its id. */
  ghost predicate Keeps(row: Row, later: Row) {
    forall v :: v in row ==>
      v in later && (later[v] == row[v] || (row[v].RelV? && later[v].RelV? && row[v].rel.id == later[v].rel.id))
  }

  /** The node pattern with a start scan that drops nothing. */
  function NoHint(np: NodePat): NodePat {
    np.(narrow := (n: int, r: Row) => true)
  }

  function Unhint(part: Part): Part {
    Part(part.v, NoHint(part.start),
         seq(|part.links|, i requires 0 <= i < |part.links| => part.links[i].(node := NoHint(part.links[i].node))))
  }

  function UnhintAll(parts: seq<Part>): (r: seq<Part>)
    ensures |r| == |parts| && forall i :: 0 <= i < |parts| ==> r[i] == Unhint(parts[i])
  {
    seq(|parts|, i requires 0 <= i < |parts| => Unhint(parts[i]))
  }
}
