/** Patterns as written on which a plan differs from the walk, or an inline WHERE is passed over. */
module PlanGaps {
  import opened Seqs
  import opened Graphs
  import opened Walks
  import opened Patterns
  import opened Matches
  import opened Parts
  import opened Reversal
  import opened RelFirst
  import opened Exprs
  import opened Written

  function Any(v: Option<string>): NodeSyntax {
    NodeSyntax(v, [], [], [])
  }

  // ------------------------------------------------- starting at a relationship

  /** `(a)-[{t: 1, k: a.x}]->()` */
  function KeyedByStart(): PartSyntax {
    PartSyntax(None, Any(Some("a")),
               [LinkSyntax(RelSyntax(None, DirRight, [], [], [("t", Lit(NumV(1.0))), ("k", Prop(Ident("a"), "x"))], None), Any(None))])
  }

  function KeyedStore(): Store {
    Store(map[0 := map["x" := NumV(2.0)]], map[1 := map["t" := NumV(1.0), "k" := NumV(2.0)]], map[], map[], map[])
  }

  lemma KeyedRel(row: Row)
    ensures RelMatches(KeyedStore(), KeyedByStart().links[0].rel, Rel(1, 0, 1), row) <==>
      Eval(KeyedStore(), Prop(Ident("a"), "x"), row) == Some(NumV(2.0))
  {
    var spec := KeyedByStart().links[0].rel.props;
    assert spec[0] == ("t", Lit(NumV(1.0))) && spec[1] == ("k", Prop(Ident("a"), "x"));
    assert Equals(NumV(1.0), NumV(1.0)) == TriTrue;
  }

  lemma KeyedHint()
    ensures MayStartAtRel(KeyedStore(), [], KeyedByStart(), map[]) && !StartUnused(KeyedByStart())
  {
    var spec := KeyedByStart().links[0].rel.props;
    assert HintValue(KeyedStore(), spec[0].1, map[]) == Some(NumV(1.0));
    assert PushableKey("t");
    assert HintOf(KeyedStore(), "t", spec[0].1, map[]) == [Hint("t", NumV(1.0))];
    assert Mentions(spec[1].1, {"a"});
  }

  lemma AnyMatches(st: Store, v: Option<string>, n: int, row: Row)
    ensures NodeMatches(st, Any(v), n, row)
  {
  }

  lemma KeyedPart()
    ensures var p := Compile(KeyedStore(), [], KeyedByStart());
      && Applies(p, map[]) && p.links[0].rel.dir == DirRight && p.start.v == Some("a")
      && RestAccepts(p, map[], Rel(1, 0, 1), (0, 1))
      && forall row :: p.links[0].rel.matches(Rel(1, 0, 1), row) == RelMatches(KeyedStore(), KeyedByStart().links[0].rel, Rel(1, 0, 1), row)
  {
    hide NodeMatches, RelMatches, Narrowed, KeyedStore, Compile;
    var ps := KeyedByStart();
    var p := Compile(KeyedStore(), [], ps);
    CompileAt(KeyedStore(), [], ps);
    assert p.start == NodeAt(p, 0) && p.links[0].rel == RelAt(p, 0) && p.links[0].node == NodeAt(p, 1);
    AnyMatches(KeyedStore(), Some("a"), 0, map[]);
    AnyMatches(KeyedStore(), None, 1, map["a" := NodeV(0)]);
    assert With(map[], Some("a"), NodeV(0)) == map["a" := NodeV(0)];
  }

  /** The pattern passes every test of `matchRelFirst`. The walk finds its match; the plan, which
      evaluates the map before `a` is bound, finds none. */
  lemma RelFirstLosesMatch() returns (g: Graph, m: Match)
    ensures g.Valid() && MayStartAtRel(KeyedStore(), [], KeyedByStart(), map[])
    ensures var p := Compile(KeyedStore(), [], KeyedByStart());
      PartMatch(g, Unhint(p), map[], {}, m) && RelFirstMatches(g, p, map[], {}, g.rels) == []
  {
    var st := KeyedStore();
    var p := Compile(st, [], KeyedByStart());
    var rel := Rel(1, 0, 1);
    KeyedHint();
    KeyedPart();
    KeyedRel(map[]);
    KeyedRel(map["a" := NodeV(0)]);
    KeyOfStart();
    hide RelMatches, MayStartAtRel, KeyedStore, KeyedByStart, Compile, Eval, RestAccepts, PartMatch, RelFirstMatches, Applies;
    assert With(map[], Some("a"), NodeV(0)) == map["a" := NodeV(0)];
    g, m := Alone(rel), TheMatch(p, map[], rel, (0, 1));
    RelFirstLoses(p, map[], rel, (0, 1));
  }

  lemma KeyOfStart()
    ensures Eval(KeyedStore(), Prop(Ident("a"), "x"), map["a" := NodeV(0)]) == Some(NumV(2.0))
    ensures Eval(KeyedStore(), Prop(Ident("a"), "x"), map[]) == None
  {
    assert Eval(KeyedStore(), Ident("a"), map["a" := NodeV(0)]) == Some(NodeV(0));
    assert Eval(KeyedStore(), Ident("a"), map[]) == None;
  }

  // ------------------------------------------------------ walking backwards

  /** `(a:N)-[:R]->(b:N {i: 7, ok: a.i IS :: INTEGER})` */
  function TypedByStart(isInteger: Value -> Option<Value>): PartSyntax {
    PartSyntax(None, NodeSyntax(Some("a"), ["N"], [], []),
               [LinkSyntax(RelSyntax(None, DirRight, ["R"], [], [], None),
                           NodeSyntax(Some("b"), ["N"], [], [("i", Lit(NumV(7.0))), ("ok", Test(Prop(Ident("a"), "i"), isInteger))]))])
  }

  function TypedStore(): Store {
    Store(map[0 := map["i" := NumV(1.0)], 1 := map["i" := NumV(7.0), "ok" := BoolV(true)]], map[],
          map[0 := {"N"}, 1 := {"N"}], map[1 := "R"], map[])
  }

  lemma TypedScores(isInteger: Value -> Option<Value>)
    ensures var st, ps := TypedStore(), TypedByStart(isInteger);
      StartScore(st, NodeSyntaxAt(ps, 1), [], map[]) == 2 && StartScore(st, ps.start, [], map[]) == 1
  {
    var st, b := TypedStore(), NodeSyntaxAt(TypedByStart(isInteger), 1);
    assert HintValue(st, b.props[0].1, map[]) == Some(NumV(7.0));
    assert PushableKey("i");
    assert HintOf(st, "i", b.props[0].1, map[]) == [Hint("i", NumV(7.0))];
  }

  lemma TypedReverses(isInteger: Value -> Option<Value>)
    ensures MayReverse(TypedStore(), [], TypedByStart(isInteger), map[]) && HiddenPart(TypedByStart(isInteger))
  {
    var ps := TypedByStart(isInteger);
    var b := NodeSyntaxAt(ps, 1);
    TypedScores(isInteger);
    hide StartScore, TypedStore;
    assert "a" in Declared(ps);
    assert Hidden(b.props[1].1, Declared(ps));
    assert HiddenIn(b.props, b.computed, Declared(ps));
  }

  lemma TypedEnd(isInteger: Value -> Option<Value>, n: int, row: Row)
    requires isInteger(NumV(1.0)) == Some(BoolV(true))
    ensures var b := NodeSyntaxAt(TypedByStart(isInteger), 1);
      && ("a" !in row ==> !NodeMatches(TypedStore(), b, n, row))
      && ("a" in row && row["a"] == NodeV(0) ==> NodeMatches(TypedStore(), b, 1, row))
  {
    var b := NodeSyntaxAt(TypedByStart(isInteger), 1);
    assert b.props[0] == ("i", Lit(NumV(7.0))) && b.props[1] == ("ok", Test(Prop(Ident("a"), "i"), isInteger));
    if "a" !in row {
      assert Eval(TypedStore(), Ident("a"), row) == None;
      assert Eval(TypedStore(), Prop(Ident("a"), "i"), row) == None;
      assert Eval(TypedStore(), b.props[1].1, row) == None;
    } else if row["a"] == NodeV(0) {
      assert Eval(TypedStore(), Ident("a"), row) == Some(NodeV(0));
      assert Eval(TypedStore(), Prop(Ident("a"), "i"), row) == Some(NumV(1.0));
      assert Eval(TypedStore(), b.props[1].1, row) == Some(BoolV(true));
      assert Equals(BoolV(true), BoolV(true)) == TriTrue && Equals(NumV(7.0), NumV(7.0)) == TriTrue;
    }
  }

  lemma {:induction false} NoStart(g: Graph, part: Part, r: Row, cands: seq<int>)
    requires forall n :: StartAt(g, part.start, n, r).None?
    ensures StartEvents(g, 0, part, r, {}, cands) == []
  {
    if cands != [] {
      NoStart(g, part, r, cands[1..]);
    }
  }

  /** What matters of the part: `rel` leads from 0 to 1, and the last node pattern matches once `a`
      is bound and nowhere before. */
  ghost predicate NeedsStart(p: Part, rel: Rel) {
    && |p.links| == 1 && p.links[0].rel.range.None? && p.links[0].rel.dir == DirRight && p.start.v == Some("a")
    && rel == Rel(1, 0, 1)
    && p.start.matches(0, map[]) && p.start.narrow(0, map[]) && p.start.where(map["a" := NodeV(0)])
    && p.links[0].rel.matches(rel, map["a" := NodeV(0)]) && BindStep(p.links[0], rel, 1, map["a" := NodeV(0)]).Some?
    && (forall n :: !p.links[0].node.matches(n, map[]))
    && p.links[0].node.v == Some("b")
  }

  lemma ReversalLoses(p: Part, rel: Rel) returns (m: Match)
    requires NeedsStart(p, rel)
    ensures Alone(rel).Valid() && PartMatch(Alone(rel), p, map[], {}, m)
    ensures PartEvents(Alone(rel), 0, Reversed(p), map[], {}) == []
  {
    var g := Alone(rel);
    var bound: Row := map["a" := NodeV(0)];
    hide BindStep, Completes;
    assert StartAt(g, p.start, 0, map[]) == Some(bound);
    m := Match(BindStep(p.links[0], rel, 1, bound).value, 1, Path([0, 1], [rel]), {} + {1}, [Chain([rel], [1])]);
    HopSingle(g, p, bound, 0, {}, rel, 1, m);
    StartOfCompletes(g, p, bound, 0, {}, m);
    ReversedAt(p);
    assert Reversed(p).start == NodeAt(p, 1);
    NoStart(g, Reversed(p), map[], Candidates(g, Reversed(p).start, map[]));
  }

  lemma TypedPart(isInteger: Value -> Option<Value>)
    requires isInteger(NumV(1.0)) == Some(BoolV(true))
    ensures NeedsStart(Compile(TypedStore(), [], TypedByStart(isInteger)), Rel(1, 0, 1))
  {
    var st, ps := TypedStore(), TypedByStart(isInteger);
    var p := Compile(st, [], ps);
    var rel := Rel(1, 0, 1);
    var bound: Row := map["a" := NodeV(0)];
    TypedFirst(isInteger);
    TypedEnd(isInteger, 1, bound);
    forall n
      ensures !NodeMatches(st, NodeSyntaxAt(ps, 1), n, map[])
    {
      TypedEnd(isInteger, n, map[]);
    }
    hide RelMatches, NodeMatches, Narrowed, TypedStore, Compile;
    CompileAt(st, [], ps);
    assert p.start == NodeAt(p, 0) && p.links[0].rel == RelAt(p, 0) && p.links[0].node == NodeAt(p, 1);
  }

  lemma TypedFirst(isInteger: Value -> Option<Value>)
    ensures var st, ps := TypedStore(), TypedByStart(isInteger);
      && NodeMatches(st, ps.start, 0, map[]) && Narrowed(st, ps.start, [], 0, map[])
      && RelMatches(st, ps.links[0].rel, Rel(1, 0, 1), map["a" := NodeV(0)])
  {
  }

  /** The pattern passes every test of `reversed`. The walk finds its match; the walk of the reversed
      pattern, which evaluates the type test before `a` is bound, finds none. */
  lemma ReversalLosesMatch(isInteger: Value -> Option<Value>) returns (g: Graph, m: Match)
    requires isInteger(NumV(1.0)) == Some(BoolV(true))
    ensures g.Valid() && MayReverse(TypedStore(), [], TypedByStart(isInteger), map[])
    ensures var p := Compile(TypedStore(), [], TypedByStart(isInteger));
      PartMatch(g, p, map[], {}, m) && PartEvents(g, 0, Reversed(p), map[], {}) == []
  {
    TypedReverses(isInteger);
    TypedPart(isInteger);
    hide MayReverse, TypedStore, TypedByStart, Compile, NeedsStart, PartMatch, PartEvents, Reversed;
    var rel := Rel(1, 0, 1);
    g := Alone(rel);
    m := ReversalLoses(Compile(TypedStore(), [], TypedByStart(isInteger)), rel);
  }

  // ------------------------------------------------------------ inline WHERE

  function Free(v: Option<string>): NodePat {
    NodePat(v, (n: int, row: Row) => true, (row: Row) => true, (n: int, row: Row) => true)
  }

  /** `()-[r {range} WHERE false]->()` */
  function FalseRel(range: Option<Range>): Part {
    Part(None, Free(None), [Link(RelPat(Some("r"), DirRight, (rel: Rel, row: Row) => true, (row: Row) => false, range), Free(None))])
  }

  /** The inline WHERE of a variable-length relationship is not evaluated: `WHERE false` rejects a
      single hop and lets `*1..1` match. */
  lemma VarLengthWhereIgnored() returns (g: Graph, m: Match)
    ensures g.Valid() && PartMatch(g, FalseRel(Some(Range(1, 1))), map[], {}, m)
    ensures forall x :: !PartMatch(g, FalseRel(None), map[], {}, x)
  {
    var rel := Rel(1, 0, 1);
    g := Alone(rel);
    var part := FalseRel(Some(Range(1, 1)));
    var m0, c := Begin(map[], 0, {}), Chain([rel], [1]);
    assert StartAt(g, part.start, 0, map[]) == Some(map[]);
    assert HopOk(g, part.links[0].rel, m0, c, 0);
    assert Chained(g, part.links[0].rel, m0, c);
    var row: Row := map["r" := RelsV([rel])];
    assert Bind(part.links[0], c, 1, map[]) == Some(row);
    m := Joined(m0, row, c);
    assert part.links[1..] == [];
    assert Completes(g, part.links, m0, m);
    StartOfCompletes(g, part, map[], 0, {}, m);
    forall x
      ensures !PartMatch(g, FalseRel(None), map[], {}, x)
    {
      FalseHop(g, x);
    }
  }

  lemma FalseHop(g: Graph, m: Match)
    requires g.Valid()
    ensures !PartMatch(g, FalseRel(None), map[], {}, m)
  {
    hide Completes;
    var part := FalseRel(None);
    if PartMatch(g, part, map[], {}, m) {
      var n := ChoiceOf(m).start;
      SingleHop(g, part, map[], n, {}, m);
    }
  }

  /** `(a WHERE false)` */
  function FalseNode(): Part {
    Part(None, Free(Some("a")).(where := (row: Row) => false), [])
  }

  /** The inline WHERE of a start node that is already bound is not evaluated. */
  lemma BoundStartWhereIgnored() returns (g: Graph, m: Match)
    ensures g.Valid() && PartMatch(g, FalseNode(), map["a" := NodeV(0)], {}, m)
    ensures forall x :: !PartMatch(g, FalseNode(), map[], {}, x)
  {
    g := Graph([], [0]);
    m := Begin(map["a" := NodeV(0)], 0, {});
    assert StartAt(g, FalseNode().start, 0, map["a" := NodeV(0)]).Some?;
    StartOfCompletes(g, FalseNode(), map["a" := NodeV(0)], 0, {}, m);
  }
}
