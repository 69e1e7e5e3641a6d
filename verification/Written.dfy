/** From patterns as written to sound plans: when what `reversed` and `matchRelFirst` test is enough. */
module Written {
  import opened Seqs
  import opened Graphs
  import opened Walks
  import opened Patterns
  import opened Reversal
  import opened RelFirst
  import opened Plans
  import opened Exprs

  datatype LinkSyntax = LinkSyntax(rel: RelSyntax, node: NodeSyntax)

  datatype PartSyntax = PartSyntax(v: Option<string>, start: NodeSyntax, links: seq<LinkSyntax>)

  function CompileNode(st: Store, pushed: seq<Pushed>, ns: NodeSyntax): NodePat {
    NodePat(ns.v, (n: int, row: Row) => NodeMatches(st, ns, n, row), (row: Row) => true,
            (n: int, row: Row) => Narrowed(st, ns, pushed, n, row))
  }

  function CompileRel(st: Store, rs: RelSyntax): RelPat {
    RelPat(rs.v, rs.dir, (rel: Rel, row: Row) => RelMatches(st, rs, rel, row), (row: Row) => true, rs.range)
  }

  function CompileLink(st: Store, pushed: seq<Pushed>, l: LinkSyntax): Link {
    Link(CompileRel(st, l.rel), CompileNode(st, pushed, l.node))
  }

  function Compile(st: Store, pushed: seq<Pushed>, ps: PartSyntax): (p: Part)
    ensures |p.links| == |ps.links|
  {
    Part(ps.v, CompileNode(st, pushed, ps.start),
         seq(|ps.links|, i requires 0 <= i < |ps.links| => CompileLink(st, pushed, ps.links[i])))
  }

  function NodeSyntaxAt(ps: PartSyntax, i: nat): NodeSyntax
    requires i <= |ps.links|
  {
    if i == 0 then ps.start else ps.links[i - 1].node
  }

  function Names(v: Option<string>): set<string> {
    if v.Some? then {v.value} else {}
  }

  /** The variables a part introduces. */
  function Declared(ps: PartSyntax): set<string> {
    Names(ps.start.v) + set i, x | 0 <= i < |ps.links| && x in Names(ps.links[i].rel.v) + Names(ps.links[i].node.v) :: x
  }

  predicate TouchFree(props: seq<(string, Expr)>, names: set<string>) {
    forall i :: 0 <= i < |props| ==> !Touches(props[i].1, names)
  }

  predicate HiddenIn(props: seq<(string, Expr)>, computed: seq<Expr>, names: set<string>) {
    || (exists i :: 0 <= i < |props| && Hidden(props[i].1, names))
    || (exists i :: 0 <= i < |computed| && Mentions(computed[i], names))
  }

  /** A variable of the part occurs where `reversed` does not look: in a part of a property map that
      `walkExpr` does not enter, or in a computed label or type. */
  predicate HiddenPart(ps: PartSyntax) {
    || (exists i :: 0 <= i <= |ps.links| && HiddenIn(NodeSyntaxAt(ps, i).props, NodeSyntaxAt(ps, i).computed, Declared(ps)))
    || (exists i :: 0 <= i < |ps.links| && HiddenIn(ps.links[i].rel.props, ps.links[i].rel.computed, Declared(ps)))
  }

  /** `startScore`: a bound node, a property equality, a label, nothing. */
  function StartScore(st: Store, ns: NodeSyntax, pushed: seq<Pushed>, r: Row): nat {
    if ns.v.Some? && ns.v.value in r && r[ns.v.value].NodeV? then 3
    else if ScanHints(st, ns, pushed, r) != [] then 2
    else if ns.labels != [] then 1
    else 0
  }

  /** The tests of `reversed`. */
  predicate MayReverse(st: Store, pushed: seq<Pushed>, ps: PartSyntax, r: Row) {
    && ps.v.None? && ps.links != []
    && StartScore(st, NodeSyntaxAt(ps, |ps.links|), pushed, r) > StartScore(st, ps.start, pushed, r)
    && (forall i :: 0 <= i < |ps.links| && ps.links[i].rel.range.Some? ==> ps.links[i].rel.v.None?)
    && (forall i :: 0 <= i <= |ps.links| ==> TouchFree(NodeSyntaxAt(ps, i).props, Declared(ps)))
    && (forall i :: 0 <= i < |ps.links| ==> TouchFree(ps.links[i].rel.props, Declared(ps)))
  }

  /** The tests of `matchRelFirst`. */
  predicate MayStartAtRel(st: Store, pushed: seq<Pushed>, ps: PartSyntax, r: Row) {
    && |ps.links| == 1 && ps.links[0].rel.range.None?
    && ps.start.props == [] && ps.links[0].node.props == []
    && Unbound(ps.start.v, r) && Unbound(ps.links[0].rel.v, r) && Unbound(ps.links[0].node.v, r)
    && RelHints(st, ps.links[0].rel, pushed, r) != []
  }

  /** The relationship's map and types do not mention the start variable. */
  predicate StartUnused(ps: PartSyntax)
    requires ps.links != []
  {
    Unmentioned(ps.links[0].rel.props, ps.links[0].rel.computed, Names(ps.start.v))
  }

  predicate TypedApart(ps: PartSyntax) {
    forall i, j :: 0 <= i <= |ps.links| && 0 <= j < |ps.links| && NodeSyntaxAt(ps, i).v.Some? ==>
      ps.links[j].rel.v != NodeSyntaxAt(ps, i).v
  }

  lemma CompileAt(st: Store, pushed: seq<Pushed>, ps: PartSyntax)
    ensures forall i :: 0 <= i <= |ps.links| ==>
        NodeAt(Compile(st, pushed, ps), i) == CompileNode(st, pushed, NodeSyntaxAt(ps, i))
    ensures forall i :: 0 <= i < |ps.links| ==> RelAt(Compile(st, pushed, ps), i) == CompileRel(st, ps.links[i].rel)
  {
  }

  lemma DeclaredIs(st: Store, pushed: seq<Pushed>, ps: PartSyntax, v: string)
    requires Declares(Compile(st, pushed, ps), v)
    ensures v in Declared(ps)
  {
    CompileAt(st, pushed, ps);
    var p := Compile(st, pushed, ps);
    if i: nat :| i <= |p.links| && NodeAt(p, i).v == Some(v) {
      assert v in Names(NodeSyntaxAt(ps, i).v);
      assert i > 0 ==> v in Names(ps.links[i - 1].rel.v) + Names(ps.links[i - 1].node.v);
    } else {
      var i: nat :| i < |p.links| && RelAt(p, i).v == Some(v);
      assert v in Names(ps.links[i].rel.v) + Names(ps.links[i].node.v);
    }
  }

  predicate Unmentioned(props: seq<(string, Expr)>, computed: seq<Expr>, names: set<string>) {
    && (forall i :: 0 <= i < |props| ==> !Mentions(props[i].1, names))
    && (forall i :: 0 <= i < |computed| ==> !Mentions(computed[i], names))
  }

  lemma NothingHidden(props: seq<(string, Expr)>, computed: seq<Expr>, names: set<string>)
    ensures Unmentioned(props, computed, names) <==> TouchFree(props, names) && !HiddenIn(props, computed, names)
  {
    hide Mentions, Touches, Hidden;
    forall i | 0 <= i < |props|
      ensures Mentions(props[i].1, names) <==> Touches(props[i].1, names) || Hidden(props[i].1, names)
    {
      MentionsIff(props[i].1, names);
    }
  }

  lemma PropsStable(st: Store, spec: seq<(string, Expr)>, props: Props, names: set<string>, r1: Row, r2: Row)
    requires Unmentioned(spec, [], names) && AgreeOutside(names, r1, r2)
    ensures PropsMatch(st, spec, props, r1) == PropsMatch(st, spec, props, r2)
  {
    hide Eval, Mentions;
    forall i | 0 <= i < |spec|
      ensures Eval(st, spec[i].1, r1) == Eval(st, spec[i].1, r2)
    {
      EvalStable(st, spec[i].1, names, r1, r2);
    }
  }

  lemma ComputedStable(st: Store, computed: seq<Expr>, held: set<string>, names: set<string>, r1: Row, r2: Row)
    requires Unmentioned([], computed, names) && AgreeOutside(names, r1, r2)
    ensures HasComputed(st, computed, held, r1) == HasComputed(st, computed, held, r2)
  {
    hide Eval, Mentions;
    forall i | 0 <= i < |computed|
      ensures Eval(st, computed[i], r1) == Eval(st, computed[i], r2)
    {
      EvalStable(st, computed[i], names, r1, r2);
    }
  }

  lemma {:induction false} SomeComputedStable(st: Store, computed: seq<Expr>, held: set<string>, names: set<string>, r1: Row, r2: Row)
    requires Unmentioned([], computed, names) && AgreeOutside(names, r1, r2)
    ensures SomeComputed(st, computed, held, r1) == SomeComputed(st, computed, held, r2)
  {
    hide Eval, Mentions;
    if computed != [] {
      EvalStable(st, computed[0], names, r1, r2);
      SomeComputedStable(st, computed[1..], held, names, r1, r2);
    }
  }

  lemma NodeMatchesStable(st: Store, ns: NodeSyntax, n: int, names: set<string>, r1: Row, r2: Row)
    requires Unmentioned(ns.props, ns.computed, names) && AgreeOutside(names, r1, r2)
    ensures NodeMatches(st, ns, n, r1) == NodeMatches(st, ns, n, r2)
  {
    hide PropsMatch, HasComputed;
    PropsStable(st, ns.props, NodeProps(st, n), names, r1, r2);
    ComputedStable(st, ns.computed, if n in st.nodeLabels then st.nodeLabels[n] else {}, names, r1, r2);
  }

  lemma RelMatchesStable(st: Store, rs: RelSyntax, rel: Rel, names: set<string>, r1: Row, r2: Row)
    requires Unmentioned(rs.props, rs.computed, names) && AgreeOutside(names, r1, r2)
    ensures RelMatches(st, rs, rel, r1) == RelMatches(st, rs, rel, r2)
  {
    hide PropsMatch, SomeComputed;
    PropsStable(st, rs.props, RelProps(st, rel), names, r1, r2);
    if rel.id in st.relTypes {
      SomeComputedStable(st, rs.computed, {st.relTypes[rel.id]}, names, r1, r2);
    }
  }

  /** Where no variable is hidden, the tests of `reversed` are enough. */
  lemma MayReverseReversible(st: Store, pushed: seq<Pushed>, ps: PartSyntax, r: Row)
    requires MayReverse(st, pushed, ps, r) && !HiddenPart(ps)
    ensures Reversible(Compile(st, pushed, ps))
  {
    hide PropsMatch, NodeMatches, RelMatches, Declares, Narrowed, StartScore, HiddenIn, TouchFree, Unmentioned;
    var p := Compile(st, pushed, ps);
    CompileAt(st, pushed, ps);
    forall r1, r2 | Alike(p, r1, r2)
      ensures AgreeOutside(Declared(ps), r1, r2)
    {
      AlikeAgrees(st, pushed, ps, r1, r2);
    }
    hide Alike, AgreeOutside, Declared;
    forall i | 0 <= i <= |p.links|
      ensures StableNode(p, NodeAt(p, i))
    {
      var ns := NodeSyntaxAt(ps, i);
      NothingHidden(ns.props, ns.computed, Declared(ps));
      forall n, r1, r2 | Alike(p, r1, r2)
        ensures NodeAt(p, i).matches(n, r1) == NodeAt(p, i).matches(n, r2)
      {
        NodeMatchesStable(st, ns, n, Declared(ps), r1, r2);
      }
    }
    forall i | 0 <= i < |p.links|
      ensures StableRel(p, RelAt(p, i))
    {
      var rs := ps.links[i].rel;
      NothingHidden(rs.props, rs.computed, Declared(ps));
      forall rel, r1, r2 | Alike(p, r1, r2)
        ensures RelAt(p, i).matches(rel, r1) == RelAt(p, i).matches(rel, r2)
      {
        RelMatchesStable(st, rs, rel, Declared(ps), r1, r2);
      }
    }
  }

  lemma AlikeAgrees(st: Store, pushed: seq<Pushed>, ps: PartSyntax, r1: Row, r2: Row)
    requires Alike(Compile(st, pushed, ps), r1, r2)
    ensures AgreeOutside(Declared(ps), r1, r2)
  {
    hide Compile, Declared, Declares;
    forall v | v !in Declared(ps)
      ensures (v in r1 <==> v in r2) && (v in r1 ==> r1[v] == r2[v])
    {
      if Declares(Compile(st, pushed, ps), v) {
        DeclaredIs(st, pushed, ps, v);
        assert false;
      }
    }
  }

  /** The relationship-first plan also needs the relationship's map and types to be free of the
      start variable, which `matchRelFirst` does not test. */
  lemma MayStartAtRelApplies(st: Store, pushed: seq<Pushed>, ps: PartSyntax, r: Row)
    requires MayStartAtRel(st, pushed, ps, r) && StartUnused(ps)
    ensures Applies(Compile(st, pushed, ps), r) && StartFree(Compile(st, pushed, ps), r)
  {
    hide PropsMatch, RelMatches, Narrowed, Mentions, RelHints;
    var p := Compile(st, pushed, ps);
    CompileAt(st, pushed, ps);
    assert p.start == NodeAt(p, 0) && p.links[0].rel == RelAt(p, 0) && p.links[0].node == NodeAt(p, 1);
    forall rel, n
      ensures p.links[0].rel.matches(rel, With(r, p.start.v, NodeV(n))) == p.links[0].rel.matches(rel, r)
    {
      RelMatchesStable(st, ps.links[0].rel, rel, Names(ps.start.v), With(r, p.start.v, NodeV(n)), r);
    }
  }

  lemma TypedApartWellTyped(st: Store, pushed: seq<Pushed>, ps: PartSyntax)
    requires TypedApart(ps)
    ensures WellTyped(Compile(st, pushed, ps))
  {
    var p := Compile(st, pushed, ps);
    CompileAt(st, pushed, ps);
    forall i, j, v | 0 <= i <= |p.links| && 0 <= j < |p.links| && NodeAt(p, i).v == Some(v)
      ensures RelAt(p, j).v != Some(v)
    {
      assert NodeSyntaxAt(ps, i).v.Some?;
    }
  }

  /** The rows a WHERE lets through. */
  function Accepts(st: Store, where: Expr): Row -> bool {
    (row: Row) => Eval(st, where, row) == Some(BoolV(true))
  }

  lemma WrittenHintsSound(st: Store, where: Expr, ps: PartSyntax)
    ensures HintsSound(Compile(st, WhereEqualities(where), ps), Accepts(st, where))
  {
    hide NodeMatches, Narrowed, Eval, Keeps;
    var pushed := WhereEqualities(where);
    var p := Compile(st, pushed, ps);
    CompileAt(st, pushed, ps);
    forall i | 0 <= i <= |p.links|
      ensures NodeHintSound(NodeAt(p, i), Accepts(st, where))
    {
      var ns := NodeSyntaxAt(ps, i);
      forall n, row, later | NodeKept(NodeAt(p, i), Accepts(st, where), n, row, later)
        ensures NodeAt(p, i).narrow(n, row)
      {
        HintsDropOnlyNonMatches(st, ns, where, n, row, later);
      }
    }
    assert p.start == NodeAt(p, 0);
  }

  function CompileAll(st: Store, pushed: seq<Pushed>, parts: seq<PartSyntax>): (r: seq<Part>)
    ensures |r| == |parts| && forall i :: 0 <= i < |parts| ==> r[i] == Compile(st, pushed, parts[i])
  {
    seq(|parts|, i requires 0 <= i < |parts| => Compile(st, pushed, parts[i]))
  }

  /** A plan the planner may pick for the part as written. */
  ghost predicate MayPick(st: Store, where: Expr, ps: PartSyntax, r: Row, plan: Plan) {
    match plan
    case Forward => true
    case Backward => MayReverse(st, WhereEqualities(where), ps, r) && !HiddenPart(ps)
    case FromRels(hint) =>
      && MayStartAtRel(st, WhereEqualities(where), ps, r) && StartUnused(ps)
      && forall rel :: hint(rel) == RelNarrowed(st, ps.links[0].rel, WhereEqualities(where), rel, r)
  }

  lemma PickFits(st: Store, where: Expr, ps: PartSyntax, r: Row, choose: Chooser)
    requires TypedApart(ps) && MayPick(st, where, ps, r, choose(Compile(st, WhereEqualities(where), ps), r))
    ensures PlanFits(choose, Compile(st, WhereEqualities(where), ps), r, Accepts(st, where))
  {
    hide Applies, StartFree, WellTyped, Reversible, RelMatches, RelNarrowed, Eval, Keeps;
    var pushed := WhereEqualities(where);
    var p := Compile(st, pushed, ps);
    TypedApartWellTyped(st, pushed, ps);
    match choose(p, r)
    case Forward =>
    case Backward => MayReverseReversible(st, pushed, ps, r);
    case FromRels(hint) =>
      MayStartAtRelApplies(st, pushed, ps, r);
      CompileAt(st, pushed, ps);
      assert p.links[0].rel == RelAt(p, 0);
      forall rel, later | RelKept(p.links[0].rel, Accepts(st, where), rel, r, later)
        ensures hint(rel)
      {
        RelHintsDropOnlyNonMatches(st, ps.links[0].rel, where, rel, r, later);
      }
  }

  /** A MATCH as written: whichever of the permitted plans is picked for each part in each row,
      and with every scan filtered on labels, types, property maps and the equalities of the
      WHERE, the rows that survive the WHERE are those of the plain unfiltered walk. */
  lemma WrittenPlansAgree(st: Store, g: Graph, where: Expr, parts: seq<PartSyntax>, r: Row, used: set<int>, choose: Chooser)
    requires g.Valid() && PathsFree(CompileAll(st, WhereEqualities(where), parts), r)
    requires forall i :: 0 <= i < |parts| ==> TypedApart(parts[i])
    requires forall i, row :: 0 <= i < |parts| ==>
        MayPick(st, where, parts[i], row, choose(Compile(st, WhereEqualities(where), parts[i]), row))
    ensures var ps := CompileAll(st, WhereEqualities(where), parts);
      multiset(Filter(Accepts(st, where), PlannedRows(g, choose, ps, r, used)))
      == multiset(Filter(Accepts(st, where), PlannedRows(g, NodeFirst(), UnhintAll(ps), r, used)))
  {
    hide PlanFits, MayPick, HintsSound, PathsFree, TypedApart;
    var ps := CompileAll(st, WhereEqualities(where), parts);
    forall i | 0 <= i < |ps|
      ensures HintsSound(ps[i], Accepts(st, where))
    {
      WrittenHintsSound(st, where, parts[i]);
    }
    forall i, row | 0 <= i < |ps|
      ensures PlanFits(choose, ps[i], row, Accepts(st, where))
    {
      PickFits(st, where, parts[i], row, choose);
    }
    PlansSameRows(g, choose, ps, r, used, Accepts(st, where));
  }
}
