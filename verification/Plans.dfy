/** Where a part starts and what its scans filter on does not change the rows that survive the WHERE. */
module Plans {
  import opened Seqs
  import opened Graphs
  import opened Walks
  import opened Patterns
  import opened Matches
  import opened Parts
  import opened Bags
  import opened Reversal
  import opened RelFirst

  /** The three ways `matchPart` has of enumerating a chain. `hint` is what `scanRels` filters on. */
  datatype Plan = Forward | Backward | FromRels(hint: Rel -> bool)

  type Chooser = (Part, Row) -> Plan

  function NodeFirst(): Chooser {
    (p: Part, r: Row) => Forward
  }

  ghost predicate Allowed(part: Part, r: Row, plan: Plan) {
    match plan
    case Forward => true
    case Backward => Reversible(part) && WellTyped(part)
    case FromRels(_) => Applies(part, r) && StartFree(part, r) && WellTyped(part)
  }

  ghost function PlanMatches(g: Graph, plan: Plan, part: Part, r: Row, used: set<int>): seq<Match> {
    match plan
    case Forward => Founds(PartEvents(g, 0, part, r, used))
    case Backward => Founds(PartEvents(g, 0, Reversed(part), r, used))
    case FromRels(hint) => if part.links == [] then [] else RelFirstMatches(g, part, r, used, Scan(g.rels, hint))
  }

  /** `matchParts` with a plan chosen for every part in the row it starts from. */
  ghost function PlannedRows(g: Graph, choose: Chooser, parts: seq<Part>, r: Row, used: set<int>): seq<Row>
    decreases |parts|, 1, 0
  {
    if parts == [] then [r]
    else PlannedThen(g, choose, parts, PlanMatches(g, choose(parts[0], r), parts[0], r, used))
  }

  ghost function PlannedThen(g: Graph, choose: Chooser, parts: seq<Part>, ms: seq<Match>): seq<Row>
    requires parts != []
    decreases |parts|, 0, |ms|
  {
    if ms == [] then []
    else PlannedRows(g, choose, parts[1..], Finish(parts[0], ms[0]), ms[0].used) + PlannedThen(g, choose, parts, ms[1..])
  }

  /** With the node-first plan throughout, these are the rows of the plain enumeration. */
  lemma {:induction false} NodeFirstRows(g: Graph, parts: seq<Part>, r: Row, used: set<int>)
    ensures PlannedRows(g, NodeFirst(), parts, r, used) == Founds(Rows(g, 0, parts, r, used))
    decreases |parts|, 1, 0
  {
    if parts != [] {
      NodeFirstThen(g, parts, PartEvents(g, 0, parts[0], r, used));
    }
  }

  lemma {:induction false} NodeFirstThen(g: Graph, parts: seq<Part>, evs: seq<Event<Match>>)
    requires parts != []
    ensures PlannedThen(g, NodeFirst(), parts, Founds(evs)) == Founds(Then(g, 0, parts, evs))
    decreases |parts|, 0, |evs|
  {
    if evs != [] {
      NodeFirstThen(g, parts, evs[1..]);
      FoundsConcat(Next(g, 0, parts, evs[0]), Then(g, 0, parts, evs[1..]));
      match evs[0]
      case Cut =>
        assert Next(g, 0, parts, evs[0]) == [Cut] && Founds<Row>([Cut]) == [] && Founds(evs) == Founds(evs[1..]);
      case Found(m) =>
        NodeFirstRows(g, parts[1..], Finish(parts[0], m), m.used);
        assert ([m] + Founds(evs[1..]))[1..] == Founds(evs[1..]);
    }
  }

  // -------------------------------------------------------------------- bags

  function Filter<T>(p: T -> bool, s: seq<T>): seq<T> {
    if s == [] then [] else (if p(s[0]) then [s[0]] else []) + Filter(p, s[1..])
  }

  lemma {:induction false} FilterConcat<T>(p: T -> bool, a: seq<T>, b: seq<T>)
    ensures Filter(p, a + b) == Filter(p, a) + Filter(p, b)
  {
    if a == [] {
      assert a + b == b;
    } else {
      FilterConcat(p, a[1..], b);
      var first := if p(a[0]) then [a[0]] else [];
      assert (a + b)[0] == a[0] && (a + b)[1..] == a[1..] + b;
      assert Filter(p, a + b) == first + (Filter(p, a[1..]) + Filter(p, b));
      assert Filter(p, a) == first + Filter(p, a[1..]);
    }
  }

  lemma {:induction false} FilterNone<T>(p: T -> bool, s: seq<T>)
    requires forall x :: x in s ==> !p(x)
    ensures Filter(p, s) == []
  {
    if s != [] {
      FilterNone(p, s[1..]);
    }
  }

  ghost function SumOver<A, B>(xs: seq<A>, f: A -> multiset<B>): multiset<B> {
    if xs == [] then multiset{} else f(xs[0]) + SumOver(xs[1..], f)
  }

  lemma {:induction false} SumWithout<A, B>(xs: seq<A>, i: nat, f: A -> multiset<B>)
    requires i < |xs|
    ensures SumOver(xs, f) == f(xs[i]) + SumOver(Without(xs, i), f)
  {
    if i == 0 {
      assert Without(xs, 0) == xs[1..];
    } else {
      assert Without(xs, i)[0] == xs[0] && Without(xs, i)[1..] == Without(xs[1..], i - 1);
      SumWithout(xs[1..], i - 1, f);
    }
  }

  lemma WithoutBag<A>(xs: seq<A>, i: nat)
    requires i < |xs|
    ensures multiset(Without(xs, i)) == multiset(xs) - multiset{xs[i]}
  {
    assert xs == xs[..i] + [xs[i]] + xs[i + 1..];
  }

  lemma {:induction false} SumBags<A, B>(xs: seq<A>, ys: seq<A>, f: A -> multiset<B>)
    requires multiset(xs) == multiset(ys)
    ensures SumOver(xs, f) == SumOver(ys, f)
    decreases |xs|
  {
    if xs == [] {
      assert |multiset(ys)| == |ys|;
    } else {
      hide SumOver, Without;
      var x := xs[0];
      assert x in multiset(xs);
      var i :| 0 <= i < |ys| && ys[i] == x;
      WithoutBag(xs, 0);
      WithoutBag(ys, i);
      assert |multiset(Without(xs, 0))| < |multiset(xs)|;
      SumBags(Without(xs, 0), Without(ys, i), f);
      SumWithout(xs, 0, f);
      SumWithout(ys, i, f);
    }
  }

  lemma {:induction false} SumSame<A, B>(xs: seq<A>, f: A -> multiset<B>, h: A -> multiset<B>)
    requires forall x :: x in xs ==> f(x) == h(x)
    ensures SumOver(xs, f) == SumOver(xs, h)
  {
    if xs != [] {
      SumSame(xs[1..], f, h);
    }
  }

  /** Leaving out elements that contribute nothing does not change the sum. */
  lemma {:induction false} SumDrops<A, K, B>(xs: seq<A>, ys: seq<A>, k: A -> K, f: K -> multiset<B>)
    requires Distinct(xs) && Distinct(ys) && (forall y :: y in ys ==> y in xs)
    requires forall x :: x in xs && x !in ys ==> f(k(x)) == multiset{}
    ensures SumOver(MapSeq(k, xs), f) == SumOver(MapSeq(k, ys), f)
    decreases |xs|
  {
    if xs == [] {
      NoMembers(ys);
    } else {
      hide SumOver;
      var x := xs[0];
      var rest := Without(xs, 0);
      WithoutDistinct(xs, 0);
      SumMapped(xs, 0, k, f);
      if x in ys {
        var i :| 0 <= i < |ys| && ys[i] == x;
        WithoutDistinct(ys, i);
        SumDrops(rest, Without(ys, i), k, f);
        SumMapped(ys, i, k, f);
      } else {
        assert f(k(x)) == multiset{};
        SumDrops(rest, ys, k, f);
      }
    }
  }

  lemma SumMapped<A, K, B>(xs: seq<A>, i: nat, k: A -> K, f: K -> multiset<B>)
    requires i < |xs|
    ensures SumOver(MapSeq(k, xs), f) == f(k(xs[i])) + SumOver(MapSeq(k, Without(xs, i)), f)
  {
    SumWithout(MapSeq(k, xs), i, f);
    assert Without(MapSeq(k, xs), i) == MapSeq(k, Without(xs, i));
  }

  // ------------------------------------------------------ what a match keeps

  predicate Named(links: seq<Link>, v: string) {
    exists i :: 0 <= i < |links| && (links[i].rel.v == Some(v) || links[i].node.v == Some(v))
  }

  lemma BindKeeps(link: Link, c: Chain, end: int, r: Row, r2: Row, v: string)
    requires Bind(link, c, end, r) == Some(r2)
    ensures v in r ==> v in r2 && (r2[v] == r[v] || (r[v].RelV? && r2[v].RelV? && r[v].rel.id == r2[v].rel.id))
    ensures v in r2 ==> v in r || link.rel.v == Some(v) || link.node.v == Some(v)
  {
  }

  lemma {:induction false} CompletesKeeps(g: Graph, links: seq<Link>, m: Match, m': Match)
    requires Completes(g, links, m, m')
    ensures Keeps(m.row, m'.row)
    ensures forall v :: v in m'.row ==> v in m.row || Named(links, v)
    decreases |links|
  {
    hide Bind, Chained;
    if links != [] {
      var c := m'.chains[|m.chains|];
      var b := Bind(links[0], c, At(m, c), m.row);
      CompletesKeeps(g, links[1..], Joined(m, b.value, c), m');
      forall v
        ensures v in m.row ==> v in b.value && (b.value[v] == m.row[v] || (m.row[v].RelV? && b.value[v].RelV? && m.row[v].rel.id == b.value[v].rel.id))
        ensures v in b.value ==> v in m.row || links[0].rel.v == Some(v) || links[0].node.v == Some(v)
      {
        BindKeeps(links[0], c, At(m, c), m.row, b.value, v);
      }
      forall v | v in m'.row && v !in m.row
        ensures Named(links, v)
      {
        if Named(links[1..], v) {
          var i: nat :| i < |links| - 1 && (links[1..][i].rel.v == Some(v) || links[1..][i].node.v == Some(v));
          assert links[i + 1].rel.v == Some(v) || links[i + 1].node.v == Some(v);
        } else {
          assert links[0].rel.v == Some(v) || links[0].node.v == Some(v);
        }
      }
    }
  }

  lemma NamedDeclares(part: Part, v: string)
    requires Named(part.links, v) || part.start.v == Some(v)
    ensures Declares(part, v)
  {
    if part.start.v == Some(v) {
      assert NodeAt(part, 0).v == Some(v);
    } else {
      var i: nat :| i < |part.links| && (part.links[i].rel.v == Some(v) || part.links[i].node.v == Some(v));
      assert RelAt(part, i).v == Some(v) || NodeAt(part, i + 1).v == Some(v);
    }
  }

  /** A match keeps the row it started from, adds only variables of the part, and binds the
      start variable to the node it started at. */
  lemma MatchKeeps(g: Graph, part: Part, r: Row, used: set<int>, m: Match)
    requires PartMatch(g, part, r, used, m)
    ensures Keeps(r, m.row)
    ensures forall v :: v in m.row ==> v in r || Declares(part, v)
    ensures part.start.v.Some? ==> part.start.v.value in m.row && m.row[part.start.v.value] == NodeV(ChoiceOf(m).start)
  {
    hide Completes, Declares, Named;
    var n := ChoiceOf(m).start;
    var r2 := StartAt(g, part.start, n, r).value;
    CompletesKeeps(g, part.links, Begin(r2, n, used), m);
    assert Keeps(r, r2);
    forall v | v in m.row && v !in r
      ensures Declares(part, v)
    {
      if v in r2 {
        assert part.start.v == Some(v);
      }
      NamedDeclares(part, v);
    }
  }

  /** The analyser binds a path variable after the elements of its part and rejects it if it
      is already declared. */
  ghost predicate PathsFree(parts: seq<Part>, r: Row) {
    forall i :: 0 <= i < |parts| && parts[i].v.Some? ==> PathFree(parts, r, i)
  }

  ghost predicate PathFree(parts: seq<Part>, r: Row, i: nat)
    requires i < |parts| && parts[i].v.Some?
  {
    var v := parts[i].v.value;
    && v !in r
    && (forall j :: 0 <= j <= i ==> !Declares(parts[j], v))
    && (forall j :: 0 <= j < i ==> parts[j].v != Some(v))
  }

  lemma FinishKeeps(parts: seq<Part>, r: Row, m: Match)
    requires parts != [] && PathsFree(parts, r) && Keeps(r, m.row)
    requires forall v :: v in m.row ==> v in r || Declares(parts[0], v)
    ensures Keeps(m.row, Finish(parts[0], m)) && Keeps(r, Finish(parts[0], m))
    ensures PathsFree(parts[1..], Finish(parts[0], m))
  {
    hide Declares;
    var r2 := Finish(parts[0], m);
    if parts[0].v.Some? {
      assert PathFree(parts, r, 0);
    }
    assert Keeps(m.row, r2);
    KeepsOn(r, m.row, r2);
    forall i | 0 <= i < |parts| - 1 && parts[1..][i].v.Some?
      ensures PathFree(parts[1..], r2, i)
    {
      assert PathFree(parts, r, i + 1);
      var v := parts[i + 1].v.value;
      assert !Declares(parts[0], v) && parts[0].v != Some(v);
      forall j | 0 <= j <= i
        ensures !Declares(parts[1..][j], v)
      {
        assert parts[1..][j] == parts[j + 1];
      }
      forall j | 0 <= j < i
        ensures parts[1..][j].v != Some(v)
      {
        assert parts[1..][j] == parts[j + 1];
      }
    }
  }

  lemma KeepsOn(a: Row, b: Row, c: Row)
    requires Keeps(a, b) && Keeps(b, c)
    ensures Keeps(a, c)
  {
  }

  // ------------------------------------------------------------- sound hints

  /** The node scan drops only nodes that no row accepted by the WHERE binds. */
  ghost predicate NodeHintSound(np: NodePat, accepts: Row -> bool) {
    forall n, row, later :: NodeKept(np, accepts, n, row, later) ==> np.narrow(n, row)
  }

  ghost predicate NodeKept(np: NodePat, accepts: Row -> bool, n: int, row: Row, later: Row) {
    && np.matches(n, row) && Keeps(row, later) && accepts(later)
    && (np.v.Some? ==> np.v.value in later && later[np.v.value] == NodeV(n))
  }

  ghost predicate RelHintSound(rp: RelPat, hint: Rel -> bool, accepts: Row -> bool, row: Row) {
    forall rel, later :: RelKept(rp, accepts, rel, row, later) ==> hint(rel)
  }

  ghost predicate RelKept(rp: RelPat, accepts: Row -> bool, rel: Rel, row: Row, later: Row) {
    && rp.matches(rel, row) && Keeps(row, later) && accepts(later)
    && (rp.v.Some? ==> rp.v.value in later && later[rp.v.value].RelV? && later[rp.v.value].rel.id == rel.id)
  }

  ghost predicate HintsSound(part: Part, accepts: Row -> bool) {
    NodeHintSound(part.start, accepts) && NodeHintSound(NodeAt(part, |part.links|), accepts)
  }

  /** Every plan the chooser picks is one the code may pick, with sound scans. */
  ghost predicate PlansFit(choose: Chooser, parts: seq<Part>, accepts: Row -> bool) {
    && (forall i :: 0 <= i < |parts| ==> HintsSound(parts[i], accepts))
    && (forall i, r :: 0 <= i < |parts| ==> PlanFits(choose, parts[i], r, accepts))
  }

  ghost predicate PlanFits(choose: Chooser, part: Part, r: Row, accepts: Row -> bool) {
    var plan := choose(part, r);
    Allowed(part, r, plan) && (plan.FromRels? ==> RelHintSound(part.links[0].rel, plan.hint, accepts, r))
  }

  lemma UnhintAt(part: Part)
    ensures |Unhint(part).links| == |part.links|
    ensures forall i :: 0 <= i <= |part.links| ==> NodeAt(Unhint(part), i) == NoHint(NodeAt(part, i))
    ensures forall i :: 0 <= i < |part.links| ==> RelAt(Unhint(part), i) == RelAt(part, i)
  {
  }

  lemma UnhintReversed(part: Part)
    ensures Reversed(Unhint(part)) == Unhint(Reversed(part))
  {
    ReversedAt(part);
    ReversedAt(Unhint(part));
    UnhintAt(part);
    UnhintAt(Reversed(part));
    var a, b := Reversed(Unhint(part)), Unhint(Reversed(part));
    forall i | 0 <= i < |part.links|
      ensures a.links[i] == b.links[i]
    {
      assert RelAt(a, i) == RelAt(b, i) && NodeAt(a, i + 1) == NodeAt(b, i + 1);
    }
    assert NodeAt(a, 0) == NodeAt(b, 0);
  }

  lemma UnhintDeclares(part: Part, v: string)
    ensures Declares(Unhint(part), v) <==> Declares(part, v)
  {
    UnhintAt(part);
    var p := Unhint(part);
    if i: nat :| i <= |part.links| && NodeAt(part, i).v == Some(v) {
      assert NodeAt(p, i).v == Some(v);
    }
    if i: nat :| i < |part.links| && RelAt(part, i).v == Some(v) {
      assert RelAt(p, i).v == Some(v);
    }
  }

  lemma UnhintReversible(part: Part)
    requires Reversible(part) && WellTyped(part)
    ensures Reversible(Unhint(part)) && WellTyped(Unhint(part))
  {
    var p := Unhint(part);
    UnhintAt(part);
    forall r1, r2 | Alike(p, r1, r2)
      ensures Alike(part, r1, r2)
    {
      forall v | !Declares(part, v)
        ensures (v in r1 <==> v in r2) && (v in r1 ==> r1[v] == r2[v])
      {
        UnhintDeclares(part, v);
      }
    }
    hide Alike;
    forall i | 0 <= i <= |part.links|
      ensures StableNode(p, NodeAt(p, i))
    {
      assert StableNode(part, NodeAt(part, i));
    }
    forall i | 0 <= i < |part.links|
      ensures StableRel(p, RelAt(p, i))
    {
      assert StableRel(part, RelAt(part, i));
    }
  }

  lemma {:induction false} CompletesUnhinted(g: Graph, l1: seq<Link>, l2: seq<Link>, m: Match, m': Match)
    requires |l1| == |l2| && forall i :: 0 <= i < |l1| ==> l2[i] == l1[i].(node := NoHint(l1[i].node))
    ensures Completes(g, l1, m, m') <==> Completes(g, l2, m, m')
    decreases |l1|
  {
    hide Chained;
    if l1 != [] && |m'.chains| > |m.chains| {
      var c := m'.chains[|m.chains|];
      var b := Bind(l1[0], c, At(m, c), m.row);
      assert Bind(l2[0], c, At(m, c), m.row) == b;
      if b.Some? {
        CompletesUnhinted(g, l1[1..], l2[1..], Joined(m, b.value, c), m');
      }
    }
  }

  /** The start scan only removes matches that begin at a dropped node. */
  lemma HintedMatch(g: Graph, part: Part, r: Row, used: set<int>, m: Match)
    ensures PartMatch(g, part, r, used, m) <==>
      && PartMatch(g, Unhint(part), r, used, m)
      && ((part.start.v.Some? && part.start.v.value in r) || part.start.narrow(ChoiceOf(m).start, r))
  {
    hide Completes;
    var p := Unhint(part);
    var n := ChoiceOf(m).start;
    var b := StartAt(g, p.start, n, r);
    if b.Some? {
      CompletesUnhinted(g, part.links, p.links, Begin(b.value, n, used), m);
    }
  }

  // ---------------------------------------------------------------- the result

  /** What a match hands to the parts after it. */
  ghost function Handed(part: Part): Match -> (Row, set<int>) {
    m => (Finish(part, m), m.used)
  }

  /** The surviving rows of the remaining parts. */
  ghost function Surviving(g: Graph, choose: Chooser, parts: seq<Part>, accepts: Row -> bool): ((Row, set<int>)) -> multiset<Row> {
    (o: (Row, set<int>)) => multiset(Filter(accepts, PlannedRows(g, choose, parts, o.0, o.1)))
  }

  lemma {:induction false} ThenSum(g: Graph, choose: Chooser, parts: seq<Part>, ms: seq<Match>, accepts: Row -> bool)
    requires parts != []
    ensures multiset(Filter(accepts, PlannedThen(g, choose, parts, ms)))
         == SumOver(MapSeq(Handed(parts[0]), ms), Surviving(g, choose, parts[1..], accepts))
    decreases |ms|
  {
    hide PlannedRows;
    var k := Handed(parts[0]);
    if ms == [] {
      assert MapSeq(k, ms) == [];
    } else {
      ThenSum(g, choose, parts, ms[1..], accepts);
      FilterConcat(accepts, PlannedRows(g, choose, parts[1..], Finish(parts[0], ms[0]), ms[0].used), PlannedThen(g, choose, parts, ms[1..]));
      assert MapSeq(k, ms)[1..] == MapSeq(k, ms[1..]);
      assert MapSeq(k, ms)[0] == (Finish(parts[0], ms[0]), ms[0].used);
    }
  }

  /** The rows of the remaining parts keep the row they start from. */
  lemma {:induction false} RowsKeep(g: Graph, parts: seq<Part>, r: Row, used: set<int>, later: Row)
    requires g.Valid() && PathsFree(parts, r)
    requires later in PlannedRows(g, NodeFirst(), parts, r, used)
    ensures Keeps(r, later)
    decreases |parts|, 1, 0
  {
    if parts == [] {
      assert later == r;
    } else {
      PartMembers(g, parts[0], r, used);
      ThenKeep(g, parts, r, used, Founds(PartEvents(g, 0, parts[0], r, used)), later);
    }
  }

  lemma {:induction false} ThenKeep(g: Graph, parts: seq<Part>, r: Row, used: set<int>, ms: seq<Match>, later: Row)
    requires g.Valid() && parts != [] && PathsFree(parts, r)
    requires forall m :: m in ms ==> PartMatch(g, parts[0], r, used, m)
    requires later in PlannedThen(g, NodeFirst(), parts, ms)
    ensures Keeps(r, later)
    decreases |parts|, 0, |ms|
  {
    hide PartMatch, PathsFree, Keeps, PlannedRows;
    var m := ms[0];
    assert m in ms;
    var here := PlannedRows(g, NodeFirst(), parts[1..], Finish(parts[0], m), m.used);
    if later in here {
      MatchKeeps(g, parts[0], r, used, m);
      FinishKeeps(parts, r, m);
      RowsKeep(g, parts[1..], Finish(parts[0], m), m.used, later);
      KeepsOn(r, Finish(parts[0], m), later);
    } else {
      ThenKeep(g, parts, r, used, ms[1..], later);
    }
  }

  lemma UnhintPathsFree(parts: seq<Part>, r: Row)
    requires PathsFree(parts, r)
    ensures PathsFree(UnhintAll(parts), r)
  {
    hide Declares;
    var base := UnhintAll(parts);
    forall i | 0 <= i < |base| && base[i].v.Some?
      ensures PathFree(base, r, i)
    {
      assert PathFree(parts, r, i);
      forall j | 0 <= j <= i
        ensures !Declares(base[j], base[i].v.value)
      {
        UnhintDeclares(parts[j], base[i].v.value);
      }
    }
  }

  /** What one match contributes is nothing if the WHERE accepts no row that keeps its row. */
  lemma ContributesNothing(g: Graph, parts: seq<Part>, r: Row, m: Match, accepts: Row -> bool)
    requires g.Valid() && parts != [] && PathsFree(parts, r) && Keeps(r, m.row)
    requires forall v :: v in m.row ==> v in r || Declares(parts[0], v)
    requires forall later :: Keeps(m.row, later) && Keeps(r, later) ==> !accepts(later)
    ensures Surviving(g, NodeFirst(), parts[1..], accepts)(Handed(parts[0])(m)) == multiset{}
  {
    hide Keeps, PathsFree, PlannedRows;
    FinishKeeps(parts, r, m);
    var r2 := Finish(parts[0], m);
    var rows := PlannedRows(g, NodeFirst(), parts[1..], r2, m.used);
    forall later | later in rows
      ensures !accepts(later)
    {
      RowsKeep(g, parts[1..], r2, m.used, later);
      KeepsOn(m.row, r2, later);
      KeepsOn(r, m.row, later);
    }
    FilterNone(accepts, rows);
  }

  /** A match the start scan drops contributes nothing; `p` is the part or its reversal. */
  lemma DroppedStart(g: Graph, parts: seq<Part>, p: Part, r: Row, used: set<int>, m: Match, accepts: Row -> bool)
    requires g.Valid() && parts != [] && PathsFree(parts, r) && NodeHintSound(p.start, accepts)
    requires forall v :: Declares(Unhint(p), v) ==> Declares(parts[0], v)
    requires PartMatch(g, Unhint(p), r, used, m) && !PartMatch(g, p, r, used, m)
    ensures Surviving(g, NodeFirst(), parts[1..], accepts)(Handed(parts[0])(m)) == multiset{}
  {
    hide Completes, Declares, PathsFree;
    HintedMatch(g, p, r, used, m);
    MatchKeeps(g, Unhint(p), r, used, m);
    var n := ChoiceOf(m).start;
    forall later | Keeps(m.row, later) && Keeps(r, later)
      ensures !accepts(later)
    {
      assert !p.start.narrow(n, r);
      assert !NodeKept(p.start, accepts, n, r, later);
    }
    ContributesNothing(g, parts, r, m, accepts);
  }

  lemma RelMatchRow(g: Graph, part: Part, r: Row, used: set<int>, m: Match)
    requires part.links != [] && WellTyped(part)
    requires |m.path.rels| == 1 && RelMatch(g, part, r, used, m.path.rels[0], m)
    ensures part.links[0].rel.matches(m.path.rels[0], r)
    ensures part.links[0].rel.v.Some? ==>
      part.links[0].rel.v.value in m.row && m.row[part.links[0].rel.v.value] == RelV(m.path.rels[0])
  {
    if part.links[0].rel.v.Some? {
      assert RelAt(part, 0).v == part.links[0].rel.v && NodeAt(part, 1).v == part.links[0].node.v;
    }
    var rel := m.path.rels[0];
    var o :| o in Orients(part.links[0].rel.dir, rel) && Oriented(g, part, r, used, rel, o, m);
  }

  /** A match the relationship scan drops contributes nothing. */
  lemma DroppedRel(g: Graph, parts: seq<Part>, part: Part, hint: Rel -> bool, r: Row, used: set<int>, m: Match, accepts: Row -> bool)
    requires g.Valid() && parts != [] && PathsFree(parts, r)
    requires forall v :: Declares(Unhint(part), v) ==> Declares(parts[0], v)
    requires Applies(part, r) && StartFree(part, r) && WellTyped(part) && RelHintSound(part.links[0].rel, hint, accepts, r)
    requires PartMatch(g, Unhint(part), r, used, m) && |m.path.rels| == 1 && !hint(m.path.rels[0])
    ensures Surviving(g, NodeFirst(), parts[1..], accepts)(Handed(parts[0])(m)) == multiset{}
  {
    hide PartMatch, Declares, PathsFree, RelMatch, WellTyped, StartFree;
    MatchKeeps(g, Unhint(part), r, used, m);
    SingleMatch(g, part, r, used, m);
    RelMatchRow(g, part, r, used, m);
    forall later | Keeps(m.row, later) && Keeps(r, later)
      ensures !accepts(later)
    {
      assert !RelKept(part.links[0].rel, accepts, m.path.rels[0], r, later);
    }
    ContributesNothing(g, parts, r, m, accepts);
  }

  /** The matches a plan enumerates are among those of the part or its reversal, so they keep
      the row they start from. */
  lemma PlanFinish(g: Graph, plan: Plan, parts: seq<Part>, r: Row, used: set<int>, m: Match)
    requires g.Valid() && parts != [] && PathsFree(parts, r) && Allowed(parts[0], r, plan)
    requires m in PlanMatches(g, plan, parts[0], r, used)
    ensures PathsFree(parts[1..], Finish(parts[0], m))
  {
    hide PartMatch, Declares, PathsFree, Reversible, WellTyped, Applies, StartFree, RelFirstMatches;
    var part := parts[0];
    match plan
    case Forward =>
      PartMembers(g, part, r, used);
      MatchKeeps(g, part, r, used, m);
      FinishKeeps(parts, r, m);
    case Backward =>
      PartMembers(g, Reversed(part), r, used);
      MatchKeeps(g, Reversed(part), r, used, m);
      forall v | Declares(Reversed(part), v)
        ensures Declares(part, v)
      {
        ReversedDeclares(part, v);
      }
      FinishKeeps(parts, r, m);
    case FromRels(hint) =>
      RelFirstExact(g, part, r, used, hint);
      MatchKeeps(g, Unhint(part), r, used, m);
      forall v | Declares(Unhint(part), v)
        ensures Declares(part, v)
      {
        UnhintDeclares(part, v);
      }
      FinishKeeps(parts, r, m);
  }

  /** Summed over what the remaining parts contribute, a plan's matches equal the plain ones. */
  lemma PlanSum(g: Graph, plan: Plan, parts: seq<Part>, r: Row, used: set<int>, accepts: Row -> bool)
    requires g.Valid() && parts != [] && PathsFree(parts, r)
    requires Allowed(parts[0], r, plan) && HintsSound(parts[0], accepts)
    requires plan.FromRels? ==> RelHintSound(parts[0].links[0].rel, plan.hint, accepts, r)
    ensures var rest := Surviving(g, NodeFirst(), UnhintAll(parts)[1..], accepts);
      SumOver(MapSeq(Handed(parts[0]), PlanMatches(g, plan, parts[0], r, used)), rest)
      == SumOver(MapSeq(Handed(parts[0]), Founds(PartEvents(g, 0, Unhint(parts[0]), r, used))), rest)
  {
    hide PartMatch, Declares, PathsFree, Reversible, WellTyped, Applies, StartFree, RelFirstMatches, PartEvents,
         Surviving, SumOver, NodeHintSound, RelHintSound;
    var part := parts[0];
    var base := UnhintAll(parts);
    var rest := Surviving(g, NodeFirst(), base[1..], accepts);
    var ms := PlanMatches(g, plan, part, r, used);
    var bs := Founds(PartEvents(g, 0, Unhint(part), r, used));
    UnhintPathsFree(parts, r);
    SameHanded(part, Unhint(part));
    PartMembers(g, Unhint(part), r, used);
    match plan
    case Forward =>
      PartMembers(g, part, r, used);
      forall x | x in bs && x !in ms
        ensures rest(Handed(part)(x)) == multiset{}
      {
        DroppedStart(g, base, part, r, used, x, accepts);
      }
      forall x | x in ms
        ensures x in bs
      {
        HintedMatch(g, part, r, used, x);
      }
      SumDrops(bs, ms, Handed(part), rest);
    case Backward =>
      var back := Reversed(part);
      var cs := Founds(PartEvents(g, 0, Unhint(back), r, used));
      PartMembers(g, back, r, used);
      PartMembers(g, Unhint(back), r, used);
      forall v | Declares(Unhint(back), v)
        ensures Declares(base[0], v)
      {
        UnhintDeclares(back, v);
        ReversedDeclares(part, v);
        UnhintDeclares(part, v);
      }
      forall x | x in cs && x !in ms
        ensures rest(Handed(part)(x)) == multiset{}
      {
        DroppedStart(g, base, back, r, used, x, accepts);
      }
      forall x | x in ms
        ensures x in cs
      {
        HintedMatch(g, back, r, used, x);
      }
      SumDrops(cs, ms, Handed(part), rest);
      BackwardBags(g, part, r, used);
      SumBags(MapSeq(Handed(part), cs), MapSeq(Handed(part), bs), rest);
    case FromRels(hint) =>
      RelFirstExact(g, part, r, used, hint);
      AppliesLinks(part, r);
      forall x | x in bs && x !in ms
        ensures rest(Handed(part)(x)) == multiset{}
      {
        SingleMatch(g, part, r, used, x);
        DroppedRel(g, base, part, hint, r, used, x, accepts);
      }
      SumDrops(bs, ms, Handed(part), rest);
  }

  lemma AppliesLinks(part: Part, r: Row)
    requires Applies(part, r)
    ensures part.links != []
  {
  }

  lemma SameHanded(p: Part, q: Part)
    requires p.v == q.v
    ensures forall m :: Handed(p)(m) == Handed(q)(m)
    ensures forall ms :: MapSeq(Handed(p), ms) == MapSeq(Handed(q), ms)
  {
  }

  lemma BackwardBags(g: Graph, part: Part, r: Row, used: set<int>)
    requires g.Valid() && Reversible(part) && WellTyped(part)
    ensures multiset(MapSeq(Handed(part), Founds(PartEvents(g, 0, Unhint(part), r, used))))
         == multiset(MapSeq(Handed(part), Founds(PartEvents(g, 0, Unhint(Reversed(part)), r, used))))
  {
    hide PartEvents;
    UnhintReversible(part);
    UnhintReversed(part);
    UnhintAt(part);
    ReversedSameRows(g, Unhint(part), r, used);
    var xs := Founds(PartEvents(g, 0, Unhint(part), r, used));
    var ys := Founds(PartEvents(g, 0, Unhint(Reversed(part)), r, used));
    assert MapSeq(Handed(part), xs) == MapSeq(Outcome, xs);
    assert MapSeq(Handed(part), ys) == MapSeq(Outcome, ys);
  }

  /** Whatever plan is chosen for each part and whatever the scans filter on, the rows that
      survive the WHERE are those of the plain node-first walk, as a multiset. */
  lemma {:induction false} PlansSameRows(g: Graph, choose: Chooser, parts: seq<Part>, r: Row, used: set<int>, accepts: Row -> bool)
    requires g.Valid() && PathsFree(parts, r) && PlansFit(choose, parts, accepts)
    ensures multiset(Filter(accepts, PlannedRows(g, choose, parts, r, used)))
         == multiset(Filter(accepts, PlannedRows(g, NodeFirst(), UnhintAll(parts), r, used)))
    decreases |parts|
  {
    hide PathsFree, PlanMatches, PlannedThen, HintsSound, Allowed, RelHintSound;
    if parts != [] {
      var base, part, rest := UnhintAll(parts), parts[0], parts[1..];
      var plan := choose(part, r);
      assert PlanFits(choose, part, r, accepts);
      var ms := PlanMatches(g, plan, part, r, used);
      var bs := PlanMatches(g, Forward, base[0], r, used);
      PlanIsWalk(g, base[0], r, used);
      assert base[1..] == UnhintAll(rest);
      ThenSum(g, choose, parts, ms, accepts);
      ThenSum(g, NodeFirst(), base, bs, accepts);
      PlanSum(g, plan, parts, r, used, accepts);
      SameHanded(part, base[0]);
      var f, h := Surviving(g, choose, rest, accepts), Surviving(g, NodeFirst(), base[1..], accepts);
      FitsRest(choose, parts, accepts);
      forall o | o in MapSeq(Handed(part), ms)
        ensures f(o) == h(o)
      {
        var i :| 0 <= i < |ms| && MapSeq(Handed(part), ms)[i] == o;
        assert ms[i] in ms;
        PlanFinish(g, plan, parts, r, used, ms[i]);
        PlansSameRows(g, choose, rest, o.0, o.1, accepts);
      }
      SumSame(MapSeq(Handed(part), ms), f, h);
    }
  }

  lemma PlanIsWalk(g: Graph, part: Part, r: Row, used: set<int>)
    ensures PlanMatches(g, Forward, part, r, used) == Founds(PartEvents(g, 0, part, r, used))
  {
  }

  lemma FitsRest(choose: Chooser, parts: seq<Part>, accepts: Row -> bool)
    requires parts != [] && PlansFit(choose, parts, accepts)
    ensures PlansFit(choose, parts[1..], accepts)
  {
    hide HintsSound, PlanFits;
    forall i | 0 <= i < |parts| - 1
      ensures HintsSound(parts[1..][i], accepts) && forall r :: PlanFits(choose, parts[1..][i], r, accepts)
    {
      assert parts[1..][i] == parts[i + 1];
    }
  }
}
