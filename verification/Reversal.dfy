/** `reversed`: matching a chain from its last node gives the same rows. */
module Reversal {
  import opened Seqs
  import opened Graphs
  import opened Walks
  import opened Patterns
  import opened Matches
  import opened Parts
  import opened Bags

  function NodeAt(part: Part, i: nat): NodePat
    requires i <= |part.links|
  {
    if i == 0 then part.start else part.links[i - 1].node
  }

  function RelAt(part: Part, i: nat): RelPat
    requires i < |part.links|
  {
    part.links[i].rel
  }

  // ------------------------------------------------------------ applicability

  ghost predicate Declares(part: Part, v: string) {
    || (exists i :: 0 <= i <= |part.links| && NodeAt(part, i).v == Some(v))
    || (exists i :: 0 <= i < |part.links| && RelAt(part, i).v == Some(v))
  }

  /** The rows may differ only in variables the part introduces. */
  ghost predicate Alike(part: Part, r1: Row, r2: Row) {
    forall v :: !Declares(part, v) ==> (v in r1 <==> v in r2) && (v in r1 ==> r1[v] == r2[v])
  }

  ghost predicate StableNode(part: Part, np: NodePat) {
    && (forall n, r1, r2 :: Alike(part, r1, r2) ==> np.matches(n, r1) == np.matches(n, r2))
    && (forall r :: np.where(r))
  }

  ghost predicate StableRel(part: Part, rp: RelPat) {
    && (forall rel, r1, r2 :: Alike(part, r1, r2) ==> rp.matches(rel, r1) == rp.matches(rel, r2))
    && (forall r :: rp.where(r))
    && (rp.range.Some? ==> rp.v.None?)
  }

  /** What `reversed` requires, in the matcher's terms: no path variable, no inline WHERE, no
      named variable-length relationship, and no property map that depends on a variable of
      the part. */
  ghost predicate Reversible(part: Part) {
    && part.v.None?
    && (forall i :: 0 <= i <= |part.links| ==> StableNode(part, NodeAt(part, i)))
    && (forall i :: 0 <= i < |part.links| ==> StableRel(part, RelAt(part, i)))
  }

  /** No variable names both a node and a relationship (the analyser rejects that). */
  ghost predicate WellTyped(part: Part) {
    forall i, j, v :: 0 <= i <= |part.links| && 0 <= j < |part.links| && NodeAt(part, i).v == Some(v) ==>
      RelAt(part, j).v != Some(v)
  }

  /** The start scan drops nothing. */
  ghost predicate Unhinted(np: NodePat) {
    forall n, r :: np.narrow(n, r)
  }

  // ---------------------------------------------------------------- reversing

  function FlipRel(rp: RelPat): RelPat {
    rp.(dir := FlipDir(rp.dir))
  }

  function FlipLink(part: Part, i: nat): Link
    requires i < |part.links|
  {
    Link(FlipRel(RelAt(part, |part.links| - 1 - i)), NodeAt(part, |part.links| - 1 - i))
  }

  /** The elements in the opposite order with every direction flipped. */
  function Reversed(part: Part): Part {
    Part(part.v, NodeAt(part, |part.links|), seq(|part.links|, i requires 0 <= i < |part.links| => FlipLink(part, i)))
  }

  lemma ReversedAt(part: Part)
    ensures |Reversed(part).links| == |part.links|
    ensures forall i :: 0 <= i <= |part.links| ==> NodeAt(Reversed(part), i) == NodeAt(part, |part.links| - i)
    ensures forall i :: 0 <= i < |part.links| ==> RelAt(Reversed(part), i) == FlipRel(RelAt(part, |part.links| - 1 - i))
  {
    forall i | 0 <= i <= |part.links|
      ensures NodeAt(Reversed(part), i) == NodeAt(part, |part.links| - i)
    {
      if i > 0 {
        assert Reversed(part).links[i - 1] == FlipLink(part, i - 1);
      }
    }
  }

  lemma ReversedTwice(part: Part)
    ensures Reversed(Reversed(part)) == part
  {
    var p := Reversed(part);
    var n := |part.links|;
    ReversedAt(part);
    ReversedAt(p);
    forall i | 0 <= i < n
      ensures Reversed(p).links[i] == part.links[i]
    {
      assert RelAt(Reversed(p), i) == FlipRel(RelAt(p, n - 1 - i)) == FlipRel(FlipRel(RelAt(part, i)));
      assert NodeAt(Reversed(p), i + 1) == NodeAt(p, n - 1 - i) == NodeAt(part, i + 1);
    }
    assert NodeAt(Reversed(p), 0) == NodeAt(part, 0);
  }

  lemma ReversedDeclares(part: Part, v: string)
    ensures Declares(Reversed(part), v) ==> Declares(part, v)
  {
    var p, n := Reversed(part), |part.links|;
    ReversedAt(part);
    if i: nat :| i <= n && NodeAt(p, i).v == Some(v) {
      assert NodeAt(part, n - i).v == Some(v);
    }
    if i: nat :| i < n && RelAt(p, i).v == Some(v) {
      assert RelAt(part, n - 1 - i).v == Some(v);
    }
  }

  lemma ReversedAlike(part: Part, r1: Row, r2: Row)
    requires Alike(Reversed(part), r1, r2)
    ensures Alike(part, r1, r2)
  {
    forall v | !Declares(part, v)
      ensures (v in r1 <==> v in r2) && (v in r1 ==> r1[v] == r2[v])
    {
      ReversedDeclares(part, v);
    }
  }

  lemma ReversedApplies(part: Part)
    requires Reversible(part) && WellTyped(part)
    ensures Reversible(Reversed(part)) && WellTyped(Reversed(part))
  {
    var p, n := Reversed(part), |part.links|;
    ReversedAt(part);
    forall r1, r2 | Alike(p, r1, r2)
      ensures Alike(part, r1, r2)
    {
      ReversedAlike(part, r1, r2);
    }
    hide Alike;
    forall i | 0 <= i <= n
      ensures StableNode(p, NodeAt(p, i))
    {
      assert StableNode(part, NodeAt(part, n - i));
    }
    forall i | 0 <= i < n
      ensures StableRel(p, RelAt(p, i))
    {
      assert StableRel(part, RelAt(part, n - 1 - i));
    }
  }

  // -------------------------------------------- matches without an order

  function EndOf(a: int, c: Chain): int {
    if c.nodes == [] then a else c.nodes[|c.nodes| - 1]
  }

  /** The nodes between the chains: the start, then where each chain ends. */
  ghost function Stops(a: int, cs: seq<Chain>): (b: seq<int>)
    ensures |b| == |cs| + 1 && b[0] == a
    decreases |cs|
  {
    if cs == [] then [a] else [a] + Stops(EndOf(a, cs[0]), cs[1..])
  }

  /** `c` leads from `a` to `b` by admissible traversals, judged in the row `r`. */
  ghost predicate Leads(g: Graph, rp: RelPat, r: Row, a: int, c: Chain, b: int) {
    && |c.nodes| == |c.rels|
    && InRange(rp, |c.rels|)
    && EndOf(a, c) == b
    && forall i :: 0 <= i < |c.rels| ==> HopOk(g, rp, Begin(r, a, {}), c, i)
  }

  type Binding = (string, Value)

  ghost function NodeBind(np: NodePat, n: int): set<Binding> {
    if np.v.Some? then {(np.v.value, NodeV(n))} else {}
  }

  ghost function RelBind(rp: RelPat, c: Chain): set<Binding> {
    if rp.v.Some? && |c.rels| == 1 then {(rp.v.value, RelV(c.rels[0]))} else {}
  }

  ghost function BindsFrom(part: Part, cs: seq<Chain>, b: seq<int>, k: nat): set<Binding>
    requires |cs| == |part.links| && |b| == |cs| + 1 && k <= |cs|
    decreases |cs| - k
  {
    if k == |cs| then {}
    else RelBind(RelAt(part, k), cs[k]) + NodeBind(NodeAt(part, k + 1), b[k + 1]) + BindsFrom(part, cs, b, k + 1)
  }

  ghost function AllBinds(part: Part, cs: seq<Chain>, b: seq<int>): set<Binding>
    requires |cs| == |part.links| && |b| == |cs| + 1
  {
    NodeBind(part.start, b[0]) + BindsFrom(part, cs, b, 0)
  }

  ghost predicate Binds(part: Part, cs: seq<Chain>, b: seq<int>, e: Binding)
    requires |cs| == |part.links| && |b| == |cs| + 1
  {
    || (exists i :: 0 <= i <= |cs| && e in NodeBind(NodeAt(part, i), b[i]))
    || (exists i :: 0 <= i < |cs| && e in RelBind(RelAt(part, i), cs[i]))
  }

  lemma {:induction false} BindsFromExact(part: Part, cs: seq<Chain>, b: seq<int>, k: nat, e: Binding)
    requires |cs| == |part.links| && |b| == |cs| + 1 && k <= |cs|
    ensures e in BindsFrom(part, cs, b, k) <==>
      || (exists i :: k < i <= |cs| && e in NodeBind(NodeAt(part, i), b[i]))
      || (exists i :: k <= i < |cs| && e in RelBind(RelAt(part, i), cs[i]))
    decreases |cs| - k
  {
    if k < |cs| {
      BindsFromExact(part, cs, b, k + 1, e);
      assert e in NodeBind(NodeAt(part, k + 1), b[k + 1]) ==> exists i :: k < i <= |cs| && e in NodeBind(NodeAt(part, i), b[i]);
      assert e in RelBind(RelAt(part, k), cs[k]) ==> exists i :: k <= i < |cs| && e in RelBind(RelAt(part, i), cs[i]);
    }
  }

  lemma AllBindsExact(part: Part, cs: seq<Chain>, b: seq<int>)
    requires |cs| == |part.links| && |b| == |cs| + 1
    ensures forall e :: e in AllBinds(part, cs, b) <==> Binds(part, cs, b, e)
  {
    forall e
      ensures e in AllBinds(part, cs, b) <==> Binds(part, cs, b, e)
    {
      BindsFromExact(part, cs, b, 0, e);
      assert e in NodeBind(NodeAt(part, 0), b[0]) ==> Binds(part, cs, b, e);
    }
  }

  /** Entities are compared by id. */
  predicate SameEntity(x: Value, y: Value) {
    || (x.NodeV? && y.NodeV? && x.node == y.node)
    || (x.RelV? && y.RelV? && x.rel.id == y.rel.id)
  }

  /** Every variable has one value, agreeing with what the row already holds. */
  ghost predicate Consistent(r: Row, bs: set<Binding>) {
    && (forall e :: e in bs && e.0 in r ==> SameEntity(r[e.0], e.1))
    && (forall e, f :: e in bs && f in bs && e.0 == f.0 ==> e.1 == f.1)
  }

  /** `row` is `r` with exactly the bindings added. */
  ghost predicate Extends(r: Row, bs: set<Binding>, row: Row) {
    && (forall e :: e in bs ==> e.0 in row && row[e.0] == e.1)
    && (forall v :: v in r ==> v in row)
    && (forall v :: v in row ==> (exists e :: e in bs && e.0 == v) || (v in r && row[v] == r[v]))
  }

  lemma ExtendsUnique(r: Row, bs: set<Binding>, row: Row, row': Row)
    requires Extends(r, bs, row) && Extends(r, bs, row')
    ensures row == row'
  {
    forall v | v in row || v in row'
      ensures v in row && v in row' && row[v] == row'[v]
    {
    }
  }

  /** The bound values are nodes or stored relationships. */
  ghost predicate Genuine(g: Graph, bs: set<Binding>) {
    forall e :: e in bs ==> e.1.NodeV? || (e.1.RelV? && e.1.rel in g.rels)
  }

  lemma SameIsEqual(g: Graph, x: Value, y: Value)
    requires g.Valid() && (x.RelV? ==> x.rel in g.rels) && (y.RelV? ==> y.rel in g.rels)
    ensures SameEntity(x, y) ==> x == y
  {
  }

  /** Binding in two stages is binding all at once. */
  lemma ConsistentSplit(g: Graph, r: Row, a: set<Binding>, b: set<Binding>, mid: Row)
    requires Consistent(r, a) && Extends(r, a, mid) && g.Valid() && Genuine(g, a) && Genuine(g, b)
    ensures Consistent(r, a + b) <==> Consistent(mid, b)
  {
    if Consistent(mid, b) {
      forall e, f | e in a && f in b && e.0 == f.0
        ensures e.1 == f.1
      {
        SameIsEqual(g, mid[f.0], f.1);
      }
      forall e | e in b && e.0 in r
        ensures SameEntity(r[e.0], e.1)
      {
        if f :| f in a && f.0 == e.0 {
          assert f.1 == e.1;
        } else {
          assert mid[e.0] == r[e.0];
        }
      }
    }
    if Consistent(r, a + b) {
      forall e | e in b && e.0 in mid
        ensures SameEntity(mid[e.0], e.1)
      {
        if f :| f in a && f.0 == e.0 {
          assert f in a + b && e in a + b;
        } else {
          assert e in a + b && mid[e.0] == r[e.0];
        }
      }
      forall e, f | e in b && f in b && e.0 == f.0
        ensures e.1 == f.1
      {
        assert e in a + b && f in a + b;
      }
    }
  }

  lemma ExtendsSplit(g: Graph, r: Row, a: set<Binding>, b: set<Binding>, mid: Row, row: Row)
    requires Extends(r, a, mid) && Consistent(mid, b) && Extends(mid, b, row)
    requires g.Valid() && Genuine(g, a) && Genuine(g, b)
    ensures Extends(r, a + b, row)
  {
    forall e | e in a + b
      ensures e.0 in row && row[e.0] == e.1
    {
      if e !in b {
        if f :| f in b && f.0 == e.0 {
          SameIsEqual(g, mid[f.0], f.1);
        } else {
          assert e.0 in mid;
        }
      }
    }
    forall v | v in row
      ensures (exists e :: e in a + b && e.0 == v) || (v in r && row[v] == r[v])
    {
      if e :| e in b && e.0 == v {
        assert e in a + b;
      } else if e :| e in a && e.0 == v {
        assert e in a + b;
      }
    }
  }

  // ----------------------------------------- from the links to whole matches

  /** A link that is a single hop or an unnamed variable-length relationship binds exactly
      its relationship and its node. */
  lemma BindExact(g: Graph, part: Part, k: nat, row: Row, c: Chain, b: int)
    requires k < |part.links| && StableRel(part, RelAt(part, k)) && StableNode(part, NodeAt(part, k + 1)) && WellTyped(part)
    requires InRange(RelAt(part, k), |c.rels|)
    requires forall i :: 0 <= i < |c.rels| ==> RelAt(part, k).matches(c.rels[i], row)
    ensures var bs := RelBind(RelAt(part, k), c) + NodeBind(NodeAt(part, k + 1), b);
      var res := Bind(part.links[k], c, b, row);
      && (res.Some? <==> NodeAt(part, k + 1).matches(b, row) && Consistent(row, bs))
      && (res.Some? ==> Extends(row, bs, res.value))
  {
    var rp, np := RelAt(part, k), NodeAt(part, k + 1);
    assert rp == part.links[k].rel && np == part.links[k].node;
    assert rp.v.Some? ==> np.v != rp.v;
    var bs := RelBind(rp, c) + NodeBind(np, b);
    var res := Bind(part.links[k], c, b, row);
    if rp.range.None? {
      assert |c.rels| == 1;
      var r2 := With(With(row, rp.v, RelV(c.rels[0])), np.v, NodeV(b));
      assert rp.v.Some? ==> (rp.v.value, RelV(c.rels[0])) in bs;
      assert np.v.Some? ==> (np.v.value, NodeV(b)) in bs;
      assert Extends(row, bs, r2);
    } else {
      assert RelBind(rp, c) == {};
      assert np.v.Some? ==> (np.v.value, NodeV(b)) in bs;
      assert Extends(row, bs, With(row, np.v, NodeV(b)));
    }
  }

  ghost predicate ChainsLead(g: Graph, part: Part, r: Row, cs: seq<Chain>, b: seq<int>, k: nat)
    requires |cs| == |part.links| && |b| == |cs| + 1
  {
    forall i :: k <= i < |cs| ==> Leads(g, RelAt(part, i), r, b[i], cs[i], b[i + 1])
  }

  ghost predicate NodesMatch(part: Part, r: Row, b: seq<int>, k: nat)
    requires |b| == |part.links| + 1
  {
    forall i :: k <= i < |b| ==> NodeAt(part, i).matches(b[i], r)
  }

  lemma AlikeBinds(part: Part, cs: seq<Chain>, b: seq<int>, k: nat, r: Row, row: Row, row': Row)
    requires |cs| == |part.links| && |b| == |cs| + 1 && k < |cs|
    requires Alike(part, r, row)
    requires Extends(row, RelBind(RelAt(part, k), cs[k]) + NodeBind(NodeAt(part, k + 1), b[k + 1]), row')
    ensures Alike(part, r, row')
  {
    forall v | !Declares(part, v)
      ensures (v in r <==> v in row') && (v in r ==> r[v] == row'[v])
    {
      assert NodeAt(part, k + 1).v != Some(v) && RelAt(part, k).v != Some(v);
    }
  }

  lemma {:induction false} GenuineFrom(g: Graph, part: Part, r: Row, cs: seq<Chain>, b: seq<int>, k: nat)
    requires |cs| == |part.links| && |b| == |cs| + 1 && k <= |cs|
    requires ChainsLead(g, part, r, cs, b, k)
    ensures Genuine(g, BindsFrom(part, cs, b, k))
    decreases |cs| - k
  {
    if k < |cs| {
      GenuineFrom(g, part, r, cs, b, k + 1);
      assert Leads(g, RelAt(part, k), r, b[k], cs[k], b[k + 1]);
      assert |cs[k].rels| == 1 ==> HopOk(g, RelAt(part, k), Begin(r, b[k], {}), cs[k], 0);
    }
  }

  ghost predicate Stopping(cs: seq<Chain>, b: seq<int>) {
    |b| == |cs| + 1 && forall i :: 0 <= i < |cs| ==> b[i + 1] == EndOf(b[i], cs[i])
  }

  /** Judging a chain's traversals in an alike row. */
  lemma LeadsAlike(g: Graph, part: Part, r: Row, k: nat, m: Match, c: Chain)
    requires k < |part.links| && StableRel(part, RelAt(part, k)) && Alike(part, r, m.row) && |c.nodes| == |c.rels|
    ensures (forall i :: 0 <= i < |c.rels| ==> HopOk(g, RelAt(part, k), m, c, i))
       <==> (forall i :: 0 <= i < |c.rels| ==> HopOk(g, RelAt(part, k), Begin(r, m.at, {}), c, i))
  {
    forall i | 0 <= i < |c.rels|
      ensures HopOk(g, RelAt(part, k), m, c, i) <==> HopOk(g, RelAt(part, k), Begin(r, m.at, {}), c, i)
    {
      assert RelAt(part, k).matches(c.rels[i], m.row) == RelAt(part, k).matches(c.rels[i], r);
    }
  }

  ghost predicate FitsLoosely(g: Graph, part: Part, r: Row, row: Row, cs: seq<Chain>, b: seq<int>, k: nat)
    requires |cs| == |part.links| && |b| == |cs| + 1 && k <= |cs|
  {
    && ChainsLead(g, part, r, cs, b, k)
    && NodesMatch(part, r, b, k + 1)
    && Consistent(row, BindsFrom(part, cs, b, k))
  }

  /** Walking the links in order imposes nothing but what each link asks on its own, and the
      consistency of all bindings. */
  lemma {:induction false} FitsWhole(g: Graph, part: Part, r: Row, k: nat, m: Match, cs: seq<Chain>, b: seq<int>)
    requires g.Valid() && Reversible(part) && WellTyped(part)
    requires |cs| == |part.links| && Stopping(cs, b) && k <= |cs|
    requires m.at == b[k] && Alike(part, r, m.row)
    ensures Fits(g, part.links[k..], m, cs[k..]) <==> FitsLoosely(g, part, r, m.row, cs, b, k)
    ensures Fits(g, part.links[k..], m, cs[k..]) ==>
      Extends(m.row, BindsFrom(part, cs, b, k), Replay(g, part.links[k..], m, cs[k..]).row)
    decreases |cs| - k
  {
    if k < |cs| {
      var c, rp := cs[k], RelAt(part, k);
      var links := part.links[k..];
      assert links[0] == part.links[k] && links[1..] == part.links[k + 1..];
      assert cs[k..][0] == c && cs[k..][1..] == cs[k + 1..];
      assert At(m, c) == b[k + 1];
      assert StableRel(part, rp) && StableNode(part, NodeAt(part, k + 1));
      if |c.nodes| == |c.rels| && InRange(rp, |c.rels|) {
        LeadsAlike(g, part, r, k, m, c);
        if forall i :: 0 <= i < |c.rels| ==> HopOk(g, rp, m, c, i) {
          FitsStep(g, part, r, k, m, cs, b);
        }
      }
      assert FitsLoosely(g, part, r, m.row, cs, b, k) ==> Leads(g, rp, r, b[k], c, b[k + 1]);
    }
  }

  lemma {:induction false} FitsStep(g: Graph, part: Part, r: Row, k: nat, m: Match, cs: seq<Chain>, b: seq<int>)
    requires g.Valid() && Reversible(part) && WellTyped(part)
    requires |cs| == |part.links| && Stopping(cs, b) && k < |cs|
    requires m.at == b[k] && Alike(part, r, m.row)
    requires Leads(g, RelAt(part, k), r, b[k], cs[k], b[k + 1])
    requires forall i :: 0 <= i < |cs[k].rels| ==> HopOk(g, RelAt(part, k), m, cs[k], i)
    ensures Fits(g, part.links[k..], m, cs[k..]) <==> FitsLoosely(g, part, r, m.row, cs, b, k)
    ensures Fits(g, part.links[k..], m, cs[k..]) ==>
      Extends(m.row, BindsFrom(part, cs, b, k), Replay(g, part.links[k..], m, cs[k..]).row)
    decreases |cs| - k, 0
  {
    hide Extends, Consistent, Alike, Genuine, BindsFrom;
    var c, rp := cs[k], RelAt(part, k);
    assert part.links[k..][0] == part.links[k] && part.links[k..][1..] == part.links[k + 1..];
    assert cs[k..][0] == c && cs[k..][1..] == cs[k + 1..];
    forall i | 0 <= i < |c.rels|
      ensures rp.matches(c.rels[i], m.row)
    {
      assert HopOk(g, rp, m, c, i);
    }
    BindExact(g, part, k, m.row, c, b[k + 1]);
    var here := RelBind(rp, c) + NodeBind(NodeAt(part, k + 1), b[k + 1]);
    var bound := Bind(part.links[k], c, b[k + 1], m.row);
    BindsStep(part, cs, b, k);
    assert NodeAt(part, k + 1).matches(b[k + 1], m.row) == NodeAt(part, k + 1).matches(b[k + 1], r);
    LeadSplit(g, part, r, cs, b, k);
    if bound.Some? {
      var next := Joined(m, bound.value, c);
      AlikeBinds(part, cs, b, k, r, m.row, next.row);
      FitsWhole(g, part, r, k + 1, next, cs, b);
      if ChainsLead(g, part, r, cs, b, k) {
        GenuineFrom(g, part, r, cs, b, k + 1);
        GenuineHere(g, part, r, cs, b, k);
        ConsistentSplit(g, m.row, here, BindsFrom(part, cs, b, k + 1), next.row);
        if Fits(g, part.links[k..], m, cs[k..]) {
          ExtendsSplit(g, m.row, here, BindsFrom(part, cs, b, k + 1), next.row,
                       Replay(g, part.links[k + 1..], next, cs[k + 1..]).row);
        }
      }
    } else {
      ConsistentPart(m.row, here, BindsFrom(part, cs, b, k + 1));
    }
  }

  lemma BindsStep(part: Part, cs: seq<Chain>, b: seq<int>, k: nat)
    requires |cs| == |part.links| && |b| == |cs| + 1 && k < |cs|
    ensures BindsFrom(part, cs, b, k)
         == (RelBind(RelAt(part, k), cs[k]) + NodeBind(NodeAt(part, k + 1), b[k + 1])) + BindsFrom(part, cs, b, k + 1)
  {
  }

  lemma LeadSplit(g: Graph, part: Part, r: Row, cs: seq<Chain>, b: seq<int>, k: nat)
    requires |cs| == |part.links| && |b| == |cs| + 1 && k < |cs|
    ensures ChainsLead(g, part, r, cs, b, k) <==>
      Leads(g, RelAt(part, k), r, b[k], cs[k], b[k + 1]) && ChainsLead(g, part, r, cs, b, k + 1)
    ensures NodesMatch(part, r, b, k + 1) <==> NodeAt(part, k + 1).matches(b[k + 1], r) && NodesMatch(part, r, b, k + 2)
  {
  }

  lemma ConsistentPart(r: Row, a: set<Binding>, b: set<Binding>)
    ensures Consistent(r, a + b) ==> Consistent(r, a)
  {
  }

  lemma GenuineHere(g: Graph, part: Part, r: Row, cs: seq<Chain>, b: seq<int>, k: nat)
    requires |cs| == |part.links| && |b| == |cs| + 1 && k < |cs|
    requires Leads(g, RelAt(part, k), r, b[k], cs[k], b[k + 1])
    ensures Genuine(g, RelBind(RelAt(part, k), cs[k]) + NodeBind(NodeAt(part, k + 1), b[k + 1]))
  {
    assert |cs[k].rels| == 1 ==> HopOk(g, RelAt(part, k), Begin(r, b[k], {}), cs[k], 0);
  }

  ghost function CatNodes(cs: seq<Chain>): seq<int> {
    if cs == [] then [] else cs[0].nodes + CatNodes(cs[1..])
  }

  /** The match a choice of chains amounts to. */
  ghost function Built(start: int, cs: seq<Chain>, row: Row, used: set<int>): Match {
    Match(row, Stops(start, cs)[|cs|], Path([start] + CatNodes(cs), Rels(cs)), used + Ids(Rels(cs)), cs)
  }

  lemma AddJoins<T>(a: seq<T>, b: seq<T>, c: seq<T>)
    ensures a + b + c == a + (b + c)
  {
  }

  lemma {:induction false} ReplayBuilds(g: Graph, links: seq<Link>, m: Match, cs: seq<Chain>)
    requires Fits(g, links, m, cs)
    ensures |cs| == |links|
    ensures var e := Replay(g, links, m, cs);
      e.at == Stops(m.at, cs)[|cs|] && e.chains == m.chains + cs
      && e.path == Path(m.path.nodes + CatNodes(cs), m.path.rels + Rels(cs))
    decreases |links|
  {
    if links != [] {
      var next := Joined(m, Bind(links[0], cs[0], At(m, cs[0]), m.row).value, cs[0]);
      ReplayBuilds(g, links[1..], next, cs[1..]);
      hide Fits, Bind;
      var e := Replay(g, links, m, cs);
      AddJoins(m.path.nodes, cs[0].nodes, CatNodes(cs[1..]));
      AddJoins(m.path.rels, cs[0].rels, Rels(cs[1..]));
      AddJoins(m.chains, [cs[0]], cs[1..]);
      assert [cs[0]] + cs[1..] == cs;
    } else {
      assert m.path == Path(m.path.nodes + [], m.path.rels + []) && m.chains == m.chains + [];
    }
  }

  lemma {:induction false} StopsStopping(a: int, cs: seq<Chain>)
    ensures Stopping(cs, Stops(a, cs))
    decreases |cs|
  {
    if cs != [] {
      var rest := Stops(EndOf(a, cs[0]), cs[1..]);
      StopsStopping(EndOf(a, cs[0]), cs[1..]);
      var b := Stops(a, cs);
      assert b == [a] + rest;
      forall i | 0 <= i < |cs|
        ensures b[i + 1] == EndOf(b[i], cs[i])
      {
        if i > 0 {
          assert rest[i] == EndOf(rest[i - 1], cs[1..][i - 1]);
        }
      }
    }
  }

  lemma {:induction false} StoppingUnique(cs: seq<Chain>, b: seq<int>, b': seq<int>)
    requires Stopping(cs, b) && Stopping(cs, b') && b[0] == b'[0]
    ensures b == b'
    decreases |cs|
  {
    if cs == [] {
      assert b == [b[0]] && b' == [b[0]];
    } else {
      assert b[1] == b'[1];
      assert forall i :: 0 <= i < |cs| - 1 ==> cs[1..][i] == cs[i + 1];
      StoppingUnique(cs[1..], b[1..], b'[1..]);
      assert b == [b[0]] + b[1..] && b' == [b'[0]] + b'[1..];
    }
  }

  /** Everything a match of the part has to satisfy, with no order of evaluation left. */
  ghost predicate Whole(g: Graph, part: Part, r: Row, used: set<int>, start: int, cs: seq<Chain>, row: Row) {
    && |cs| == |part.links|
    && start in g.nodes
    && var b := Stops(start, cs);
    && NodesMatch(part, r, b, 0)
    && ChainsLead(g, part, r, cs, b, 0)
    && Consistent(r, AllBinds(part, cs, b))
    && Extends(r, AllBinds(part, cs, b), row)
    && Fresh(Rels(cs), used)
  }

  lemma StartExact(g: Graph, np: NodePat, n: int, r: Row)
    requires Unhinted(np) && forall row :: np.where(row)
    ensures n in Candidates(g, np, r) && StartAt(g, np, n, r).Some? <==>
        n in g.nodes && np.matches(n, r) && Consistent(r, NodeBind(np, n))
    ensures n in Candidates(g, np, r) && StartAt(g, np, n, r).Some? ==>
        Extends(r, NodeBind(np, n), StartAt(g, np, n, r).value)
  {
    assert np.v.Some? ==> (np.v.value, NodeV(n)) in NodeBind(np, n);
  }

  /** The matches of a reversible part, free of the order in which they are found. */
  lemma PartWhole(g: Graph, part: Part, r: Row, used: set<int>, m: Match)
    requires g.Valid() && Reversible(part) && WellTyped(part) && Unhinted(part.start)
    ensures PartMatch(g, part, r, used, m) <==>
      var c := ChoiceOf(m);
      Whole(g, part, r, used, c.start, c.chains, m.row) && m == Built(c.start, c.chains, m.row, used)
  {
    hide Extends, Consistent, Fresh, Alike, StartAt, Candidates;
    var c := ChoiceOf(m);
    var n, cs := c.start, c.chains;
    PartMatchIff(g, part, r, used, m);
    assert StableNode(part, NodeAt(part, 0));
    StartExact(g, part.start, n, r);
    var b := Stops(n, cs);
    StopsStopping(n, cs);
    if n in Candidates(g, part.start, r) && StartAt(g, part.start, n, r).Some? {
      var m0 := Begin(StartAt(g, part.start, n, r).value, n, {});
      if Fits(g, part.links, m0, cs) {
        ReplayBuilds(g, part.links, m0, cs);
      }
      if |cs| == |part.links| {
        StartWhole(g, part, r, n, m0, cs, b);
        if Whole(g, part, r, used, n, cs, m.row) {
          ExtendsUnique(r, AllBinds(part, cs, b), m.row, Replay(g, part.links, m0, cs).row);
        }
      }
    } else if Whole(g, part, r, used, n, cs, m.row) {
      assert part.start.matches(b[0], r);
      ConsistentPart(r, NodeBind(part.start, n), BindsFrom(part, cs, b, 0));
      assert false;
    }
  }

  lemma StartWhole(g: Graph, part: Part, r: Row, n: int, m0: Match, cs: seq<Chain>, b: seq<int>)
    requires g.Valid() && Reversible(part) && WellTyped(part)
    requires |cs| == |part.links| && Stopping(cs, b) && b[0] == n == m0.at
    requires Consistent(r, NodeBind(part.start, n)) && Extends(r, NodeBind(part.start, n), m0.row)
    requires part.start.matches(n, r)
    ensures Fits(g, part.links, m0, cs) <==>
      NodesMatch(part, r, b, 0) && ChainsLead(g, part, r, cs, b, 0) && Consistent(r, AllBinds(part, cs, b))
    ensures Fits(g, part.links, m0, cs) ==> Extends(r, AllBinds(part, cs, b), Replay(g, part.links, m0, cs).row)
  {
    hide Extends, Consistent, Genuine;
    AlikeStart(part, r, n, m0.row);
    assert part.links[0..] == part.links && cs[0..] == cs;
    FitsWhole(g, part, r, 0, m0, cs, b);
    assert NodesMatch(part, r, b, 0) <==> NodesMatch(part, r, b, 1) by {
      assert NodeAt(part, 0).matches(b[0], r);
    }
    if ChainsLead(g, part, r, cs, b, 0) {
      GenuineFrom(g, part, r, cs, b, 0);
      GenuineNode(g, part.start, n);
      ConsistentSplit(g, r, NodeBind(part.start, n), BindsFrom(part, cs, b, 0), m0.row);
      if Fits(g, part.links, m0, cs) {
        ExtendsSplit(g, r, NodeBind(part.start, n), BindsFrom(part, cs, b, 0), m0.row, Replay(g, part.links, m0, cs).row);
      }
    }
  }

  lemma GenuineNode(g: Graph, np: NodePat, n: int)
    ensures Genuine(g, NodeBind(np, n))
  {
  }

  lemma AlikeStart(part: Part, r: Row, n: int, row: Row)
    requires Extends(r, NodeBind(part.start, n), row)
    ensures Alike(part, r, row)
  {
    forall v | !Declares(part, v)
      ensures (v in r <==> v in row) && (v in r ==> r[v] == row[v])
    {
      assert NodeAt(part, 0).v != Some(v);
    }
  }

  // ------------------------------------------------------------- the mirror

  ghost function RevChain(a: int, c: Chain): Chain {
    Chain(Reverse(c.rels), if c.nodes == [] then [] else Reverse([a] + c.nodes[..|c.nodes| - 1]))
  }

  /** One hop of a chain, walked the other way round. */
  lemma HopMirror(g: Graph, rp: RelPat, r: Row, a: int, c: Chain, b: int, i: nat)
    requires Leads(g, rp, r, a, c, b) && a in g.nodes && i < |c.rels|
    ensures HopOk(g, FlipRel(rp), Begin(r, b, {}), RevChain(a, c), i)
  {
    var d, n := RevChain(a, c), |c.rels|;
    var j := n - 1 - i;
    var back := [a] + c.nodes[..n - 1];
    assert back[0] == a && (j > 0 ==> back[j] == c.nodes[j - 1]);
    assert HopOk(g, rp, Begin(r, a, {}), c, j);
    assert d.rels[i] == c.rels[j];
    assert d.nodes[i] == (if j == 0 then a else c.nodes[j - 1]);
    assert j > 0 ==> HopOk(g, rp, Begin(r, a, {}), c, j - 1);
    assert (if i == 0 then b else d.nodes[i - 1]) == c.nodes[j];
  }

  lemma LeadsMirror(g: Graph, rp: RelPat, r: Row, a: int, c: Chain, b: int)
    requires Leads(g, rp, r, a, c, b) && a in g.nodes
    ensures Leads(g, FlipRel(rp), r, b, RevChain(a, c), a) && b in g.nodes
    ensures RevChain(b, RevChain(a, c)) == c
  {
    var d := RevChain(a, c);
    var n := |c.rels|;
    if n > 0 {
      assert HopOk(g, rp, Begin(r, a, {}), c, n - 1);
    }
    forall i | 0 <= i < n
      ensures HopOk(g, FlipRel(rp), Begin(r, b, {}), d, i)
    {
      HopMirror(g, rp, r, a, c, b, i);
    }
    RevChainTwice(a, c, b);
  }

  lemma RevChainTwice(a: int, c: Chain, b: int)
    requires |c.nodes| == |c.rels| && b == if c.nodes == [] then a else c.nodes[|c.nodes| - 1]
    ensures RevChain(b, RevChain(a, c)) == c
  {
    var e := RevChain(b, RevChain(a, c));
    assert e.rels == c.rels;
    assert e.nodes == c.nodes;
  }

  ghost function MirrorChains(b: seq<int>, cs: seq<Chain>): seq<Chain>
    requires |b| == |cs| + 1
  {
    seq(|cs|, i requires 0 <= i < |cs| => RevChain(b[|cs| - 1 - i], cs[|cs| - 1 - i]))
  }

  lemma {:induction false} RelsAppend(a: seq<Chain>, b: seq<Chain>)
    ensures Rels(a + b) == Rels(a) + Rels(b)
  {
    if a == [] {
      assert a + b == b;
    } else {
      assert (a + b)[0] == a[0] && (a + b)[1..] == a[1..] + b;
      RelsAppend(a[1..], b);
    }
  }

  lemma {:induction false} MirrorRels(b: seq<int>, cs: seq<Chain>)
    requires |b| == |cs| + 1
    ensures Rels(MirrorChains(b, cs)) == Reverse(Rels(cs))
    decreases |cs|
  {
    var ms := MirrorChains(b, cs);
    if cs == [] {
      assert Reverse<Rel>([]) == [];
    } else {
      var n := |cs| - 1;
      var init, last := cs[..n], cs[n];
      assert cs == init + [last];
      RelsAppend(init, [last]);
      assert Rels([last]) == last.rels + Rels([]);
      assert Rels(cs) == Rels(init) + last.rels;
      assert ms[0] == RevChain(b[n], last);
      assert ms[1..] == MirrorChains(b[..n + 1], init);
      MirrorRels(b[..n + 1], init);
      assert Reverse(Rels(cs)) == Reverse(last.rels) + Reverse(Rels(init));
    }
  }

  lemma ReversedFresh(rels: seq<Rel>, used: set<int>)
    ensures Fresh(rels, used) ==> Fresh(Reverse(rels), used)
    ensures Ids(Reverse(rels)) == Ids(rels)
  {
    var rev := Reverse(rels);
    forall x | x in rels
      ensures x in rev
    {
      var i :| 0 <= i < |rels| && rels[i] == x;
      assert rev[|rels| - 1 - i] == x;
    }
    forall x | x in rev
      ensures x in rels
    {
    }
  }

  /** Position by position, the mirrored part binds what the part binds. */
  lemma MirrorBindAt(part: Part, cs: seq<Chain>, b: seq<int>)
    requires |cs| == |part.links| && |b| == |cs| + 1
    ensures forall i {:trigger NodeAt(Reversed(part), i)} :: 0 <= i <= |cs| ==>
        |Reversed(part).links| == |cs| && NodeBind(NodeAt(Reversed(part), i), Reverse(b)[i]) == NodeBind(NodeAt(part, |cs| - i), b[|cs| - i])
    ensures forall i {:trigger RelAt(Reversed(part), i)} :: 0 <= i < |cs| ==>
        |Reversed(part).links| == |cs|
        && RelBind(RelAt(Reversed(part), i), MirrorChains(b, cs)[i]) == RelBind(RelAt(part, |cs| - 1 - i), cs[|cs| - 1 - i])
  {
    ReversedAt(part);
  }

  /** A binding of one part is a binding of the other if positions correspond. */
  lemma BindsTransfer(p: Part, cs: seq<Chain>, b: seq<int>, p': Part, cs': seq<Chain>, b': seq<int>, e: Binding)
    requires |cs| == |p.links| && |b| == |cs| + 1 && |cs'| == |p'.links| && |b'| == |cs'| + 1 && |cs| == |cs'|
    requires forall i :: 0 <= i <= |cs| ==> NodeBind(NodeAt(p, i), b[i]) == NodeBind(NodeAt(p', |cs| - i), b'[|cs| - i])
    requires forall i :: 0 <= i < |cs| ==> RelBind(RelAt(p, i), cs[i]) == RelBind(RelAt(p', |cs| - 1 - i), cs'[|cs| - 1 - i])
    requires Binds(p, cs, b, e)
    ensures Binds(p', cs', b', e)
  {
    hide NodeBind, RelBind;
    if i: nat :| i <= |cs| && e in NodeBind(NodeAt(p, i), b[i]) {
      assert e in NodeBind(NodeAt(p', |cs| - i), b'[|cs| - i]);
    } else {
      var i: nat :| i < |cs| && e in RelBind(RelAt(p, i), cs[i]);
      assert e in RelBind(RelAt(p', |cs| - 1 - i), cs'[|cs| - 1 - i]);
    }
  }

  lemma MirrorBinds(part: Part, cs: seq<Chain>, b: seq<int>)
    requires |cs| == |part.links| && |b| == |cs| + 1
    ensures |Reversed(part).links| == |cs|
    ensures AllBinds(Reversed(part), MirrorChains(b, cs), Reverse(b)) == AllBinds(part, cs, b)
  {
    hide NodeBind, RelBind, Binds, AllBinds;
    var p, cs', b' := Reversed(part), MirrorChains(b, cs), Reverse(b);
    var n := |cs|;
    MirrorBindAt(part, cs, b);
    AllBindsExact(part, cs, b);
    AllBindsExact(p, cs', b');
    forall i | 0 <= i <= n
      ensures NodeBind(NodeAt(part, i), b[i]) == NodeBind(NodeAt(p, n - i), b'[n - i])
    {
      assert NodeBind(NodeAt(p, n - i), b'[n - i]) == NodeBind(NodeAt(part, n - (n - i)), b[n - (n - i)]);
    }
    forall i | 0 <= i < n
      ensures RelBind(RelAt(part, i), cs[i]) == RelBind(RelAt(p, n - 1 - i), cs'[n - 1 - i])
    {
      assert RelBind(RelAt(p, n - 1 - i), cs'[n - 1 - i]) == RelBind(RelAt(part, i), cs[i]);
    }
    forall e
      ensures Binds(p, cs', b', e) <==> Binds(part, cs, b, e)
    {
      if Binds(part, cs, b, e) {
        BindsTransfer(part, cs, b, p, cs', b', e);
      }
      if Binds(p, cs', b', e) {
        BindsTransfer(p, cs', b', part, cs, b, e);
      }
    }
  }

  lemma {:induction false} StopsLive(g: Graph, part: Part, r: Row, cs: seq<Chain>, b: seq<int>, i: nat)
    requires |cs| == |part.links| && |b| == |cs| + 1 && i <= |cs|
    requires ChainsLead(g, part, r, cs, b, 0) && b[0] in g.nodes
    ensures b[i] in g.nodes
  {
    if i > 0 {
      StopsLive(g, part, r, cs, b, i - 1);
      LeadsMirror(g, RelAt(part, i - 1), r, b[i - 1], cs[i - 1], b[i]);
    }
  }

  /** The stops of the mirrored chains are the stops in reverse, and mirroring twice changes nothing. */
  lemma MirrorStops(g: Graph, part: Part, r: Row, cs: seq<Chain>, b: seq<int>)
    requires |cs| == |part.links| && Stopping(cs, b) && b[0] in g.nodes && ChainsLead(g, part, r, cs, b, 0)
    ensures |Reversed(part).links| == |cs|
    ensures ChainsLead(g, Reversed(part), r, MirrorChains(b, cs), Reverse(b), 0)
    ensures Stops(b[|cs|], MirrorChains(b, cs)) == Reverse(b)
    ensures MirrorChains(Reverse(b), MirrorChains(b, cs)) == cs
    ensures b[|cs|] in g.nodes
  {
    hide Leads, RevChain, Stops;
    var p := Reversed(part);
    var n := |cs|;
    var b', cs' := Reverse(b), MirrorChains(b, cs);
    ReversedAt(part);
    forall i | 0 <= i <= n
      ensures b[i] in g.nodes
    {
      StopsLive(g, part, r, cs, b, i);
    }
    forall i | 0 <= i < n
      ensures Leads(g, RelAt(p, i), r, b'[i], cs'[i], b'[i + 1])
      ensures b'[i + 1] == EndOf(b'[i], cs'[i])
    {
      assert RelAt(p, i) == FlipRel(RelAt(part, n - 1 - i));
      LeadsMirror(g, RelAt(part, n - 1 - i), r, b[n - 1 - i], cs[n - 1 - i], b[n - i]);
      LeadsEnd(g, RelAt(p, i), r, b'[i], cs'[i], b'[i + 1]);
    }
    forall i | 0 <= i < n
      ensures MirrorChains(b', cs')[i] == cs[i]
    {
      LeadsMirror(g, RelAt(part, i), r, b[i], cs[i], b[i + 1]);
      assert b'[n - 1 - i] == b[i + 1] && cs'[n - 1 - i] == RevChain(b[i], cs[i]);
    }
    StopsStopping(b'[0], cs');
    StoppingUnique(cs', b', Stops(b'[0], cs'));
  }

  /** The mirror image of a match is a match of the reversed part, with the same row. */
  lemma WholeMirror(g: Graph, part: Part, r: Row, used: set<int>, start: int, cs: seq<Chain>, row: Row)
    requires Whole(g, part, r, used, start, cs, row)
    ensures var b := Stops(start, cs);
      && Whole(g, Reversed(part), r, used, b[|cs|], MirrorChains(b, cs), row)
      && Stops(b[|cs|], MirrorChains(b, cs)) == Reverse(b)
      && MirrorChains(Reverse(b), MirrorChains(b, cs)) == cs
  {
    hide ChainsLead, Extends, Consistent, Fresh, AllBinds, Stops, MirrorChains;
    var p := Reversed(part);
    var n := |cs|;
    var b := Stops(start, cs);
    StopsStopping(start, cs);
    MirrorStops(g, part, r, cs, b);
    ReversedAt(part);
    forall i | 0 <= i <= n
      ensures NodeAt(p, i).matches(Reverse(b)[i], r)
    {
      assert NodeAt(part, n - i).matches(b[n - i], r);
    }
    MirrorBinds(part, cs, b);
    MirrorRels(b, cs);
    ReversedFresh(Rels(cs), used);
    MirrorSize(b, cs);
  }

  lemma MirrorSize(b: seq<int>, cs: seq<Chain>)
    requires |b| == |cs| + 1
    ensures |MirrorChains(b, cs)| == |cs|
  {
  }

  lemma LeadsEnd(g: Graph, rp: RelPat, r: Row, a: int, c: Chain, b: int)
    requires Leads(g, rp, r, a, c, b)
    ensures EndOf(a, c) == b
  {
  }

  ghost function MirrorOf(used: set<int>, m: Match): Match {
    var c := ChoiceOf(m);
    var b := Stops(c.start, c.chains);
    Built(b[|c.chains|], MirrorChains(b, c.chains), m.row, used)
  }

  lemma MirrorMatch(g: Graph, part: Part, r: Row, used: set<int>, m: Match)
    requires g.Valid() && Reversible(part) && WellTyped(part)
    requires Unhinted(part.start) && Unhinted(NodeAt(part, |part.links|))
    requires PartMatch(g, part, r, used, m)
    ensures PartMatch(g, Reversed(part), r, used, MirrorOf(used, m))
    ensures MirrorOf(used, MirrorOf(used, m)) == m
    ensures MirrorOf(used, m).row == m.row && MirrorOf(used, m).used == m.used
  {
    hide Whole, MirrorChains, Stops, PartMatch;
    var c := ChoiceOf(m);
    var b := Stops(c.start, c.chains);
    var m' := MirrorOf(used, m);
    PartWhole(g, part, r, used, m);
    WholeMirror(g, part, r, used, c.start, c.chains, m.row);
    ReversedApplies(part);
    assert ChoiceOf(m') == Choice(b[|c.chains|], MirrorChains(b, c.chains));
    PartWhole(g, Reversed(part), r, used, m');
    MirrorRels(b, c.chains);
    ReversedFresh(Rels(c.chains), used);
    WholeSizes(g, part, r, used, c.start, c.chains, m.row);
    WholeSizes(g, Reversed(part), r, used, b[|c.chains|], MirrorChains(b, c.chains), m.row);
  }

  lemma WholeSizes(g: Graph, part: Part, r: Row, used: set<int>, start: int, cs: seq<Chain>, row: Row)
    requires Whole(g, part, r, used, start, cs, row)
    ensures |cs| == |part.links| && Reverse(Stops(start, cs))[|cs|] == start
  {
  }

  /** What a part hands to the rest of the MATCH. */
  ghost function Outcome(m: Match): (Row, set<int>) {
    (m.row, m.used)
  }

  /** Walking a part backwards yields the same rows and used sets, as a multiset. */
  lemma ReversedSameRows(g: Graph, part: Part, r: Row, used: set<int>)
    requires g.Valid() && Reversible(part) && WellTyped(part)
    requires Unhinted(part.start) && Unhinted(NodeAt(part, |part.links|))
    ensures multiset(MapSeq(Outcome, Founds(PartEvents(g, 0, part, r, used))))
         == multiset(MapSeq(Outcome, Founds(PartEvents(g, 0, Reversed(part), r, used))))
  {
    hide PartMatch, PartEvents, Founds, MirrorOf, Reversible;
    var xs := Founds(PartEvents(g, 0, part, r, used));
    var ys := Founds(PartEvents(g, 0, Reversed(part), r, used));
    var f := (m: Match) => MirrorOf(used, m);
    ReversedApplies(part);
    ReversedTwice(part);
    ReversedAt(part);
    PartMembers(g, part, r, used);
    PartMembers(g, Reversed(part), r, used);
    forall x | x in xs
      ensures f(x) in ys && Outcome(f(x)) == Outcome(x) && f(f(x)) == x
    {
      MirrorMatch(g, part, r, used, x);
    }
    forall y | y in ys
      ensures f(y) in xs && f(f(y)) == y
    {
      MirrorMatch(g, Reversed(part), r, used, y);
    }
    PairedBags(xs, ys, f, Outcome, Outcome);
  }

  lemma PartMembers(g: Graph, part: Part, r: Row, used: set<int>)
    requires g.Valid()
    ensures Distinct(Founds(PartEvents(g, 0, part, r, used)))
    ensures forall m :: m in Founds(PartEvents(g, 0, part, r, used)) <==> PartMatch(g, part, r, used, m)
  {
    var evs := PartEvents(g, 0, part, r, used);
    PartExact(g, part, r, used);
    FoundsDistinct(evs);
    forall m
      ensures m in Founds(evs) <==> PartMatch(g, part, r, used, m)
    {
      FoundsMember(evs, m);
    }
  }
}
