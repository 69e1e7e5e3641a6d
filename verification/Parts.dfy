/** Whole MATCH clauses: several parts sharing one used set, and their declarative set of solutions. */
module Parts {
  import opened Seqs
  import opened Graphs
  import opened Walks
  import opened Patterns
  import opened Matches

  /** `matchPart` for a plain chain, from each of the start candidates in turn. */
  ghost function StartEvents(g: Graph, limit: nat, part: Part, r: Row, used: set<int>, cands: seq<int>): seq<Event<Match>> {
    if cands == [] then []
    else FromStart(g, limit, part, r, used, cands[0]) + StartEvents(g, limit, part, r, used, cands[1..])
  }

  ghost function FromStart(g: Graph, limit: nat, part: Part, r: Row, used: set<int>, n: int): seq<Event<Match>> {
    match StartAt(g, part.start, n, r)
    case None => []
    case Some(r2) => Walk(g, limit, part.links, Begin(r2, n, used))
  }

  ghost function PartEvents(g: Graph, limit: nat, part: Part, r: Row, used: set<int>): seq<Event<Match>> {
    StartEvents(g, limit, part, r, used, Candidates(g, part.start, r))
  }

  /** `matchParts`: for every match of the first part, all matches of the others. */
  ghost function Rows(g: Graph, limit: nat, parts: seq<Part>, r: Row, used: set<int>): seq<Event<Row>>
    decreases |parts|, 1, 0
  {
    if parts == [] then [Found(r)]
    else Then(g, limit, parts, PartEvents(g, limit, parts[0], r, used))
  }

  ghost function Then(g: Graph, limit: nat, parts: seq<Part>, evs: seq<Event<Match>>): seq<Event<Row>>
    requires parts != []
    decreases |parts|, 0, |evs|
  {
    if evs == [] then [] else Next(g, limit, parts, evs[0]) + Then(g, limit, parts, evs[1..])
  }

  ghost function Next(g: Graph, limit: nat, parts: seq<Part>, ev: Event<Match>): seq<Event<Row>>
    requires parts != []
    decreases |parts|, 0, 0
  {
    match ev
    case Cut => [Cut]
    case Found(m) => Rows(g, limit, parts[1..], Finish(parts[0], m), m.used)
  }

  lemma {:induction false} ThenConcat(g: Graph, limit: nat, parts: seq<Part>, a: seq<Event<Match>>, b: seq<Event<Match>>)
    requires parts != []
    ensures Then(g, limit, parts, a + b) == Then(g, limit, parts, a) + Then(g, limit, parts, b)
  {
    if a == [] {
      assert a + b == b;
    } else {
      assert (a + b)[0] == a[0] && (a + b)[1..] == a[1..] + b;
      ThenConcat(g, limit, parts, a[1..], b);
    }
  }

  // ------------------------------------------------------------- solutions

  /** What one part is matched with: its start node and the chain of every link. */
  datatype Choice = Choice(start: int, chains: seq<Chain>)

  ghost function Rels(cs: seq<Chain>): seq<Rel> {
    if cs == [] then [] else cs[0].rels + Rels(cs[1..])
  }

  ghost function AllRels(sol: seq<Choice>): seq<Rel> {
    if sol == [] then [] else Rels(sol[0].chains) + AllRels(sol[1..])
  }

  /** The chains satisfy the links one after the other, each seeing the row and node the
      previous ones left; nothing is said about relationships being used. */
  ghost predicate Fits(g: Graph, links: seq<Link>, m: Match, cs: seq<Chain>)
    decreases |links|
  {
    if links == [] then cs == []
    else
      && cs != []
      && |cs[0].nodes| == |cs[0].rels|
      && (forall i :: 0 <= i < |cs[0].rels| ==> HopOk(g, links[0].rel, m, cs[0], i))
      && InRange(links[0].rel, |cs[0].rels|)
      && var b := Bind(links[0], cs[0], At(m, cs[0]), m.row);
      && b.Some?
      && Fits(g, links[1..], Joined(m, b.value, cs[0]), cs[1..])
  }

  ghost function Replay(g: Graph, links: seq<Link>, m: Match, cs: seq<Chain>): Match
    requires Fits(g, links, m, cs)
    decreases |links|
  {
    if links == [] then m
    else Replay(g, links[1..], Joined(m, Bind(links[0], cs[0], At(m, cs[0]), m.row).value, cs[0]), cs[1..])
  }

  /** The choices satisfy the parts one after the other, each in the row the previous left. */
  ghost predicate Solves(g: Graph, parts: seq<Part>, r: Row, sol: seq<Choice>)
    decreases |parts|
  {
    if parts == [] then sol == []
    else
      && sol != []
      && sol[0].start in Candidates(g, parts[0].start, r)
      && var b := StartAt(g, parts[0].start, sol[0].start, r);
      && b.Some?
      && var m := Begin(b.value, sol[0].start, {});
      && Fits(g, parts[0].links, m, sol[0].chains)
      && Solves(g, parts[1..], Finish(parts[0], Replay(g, parts[0].links, m, sol[0].chains)), sol[1..])
  }

  ghost function RowOf(g: Graph, parts: seq<Part>, r: Row, sol: seq<Choice>): Row
    requires Solves(g, parts, r, sol)
    decreases |parts|
  {
    if parts == [] then r
    else
      var m := Begin(StartAt(g, parts[0].start, sol[0].start, r).value, sol[0].start, {});
      RowOf(g, parts[1..], Finish(parts[0], Replay(g, parts[0].links, m, sol[0].chains)), sol[1..])
  }

  /** Cypher's relationship isomorphism: distinct across all parts, none used before. */
  ghost predicate Fresh(rels: seq<Rel>, used: set<int>) {
    NoRepeat(rels) && forall i :: 0 <= i < |rels| ==> rels[i].id !in used
  }

  ghost predicate IsSolution(g: Graph, parts: seq<Part>, r: Row, used: set<int>, sol: seq<Choice>) {
    Solves(g, parts, r, sol) && Fresh(AllRels(sol), used)
  }

  lemma FreshConcat(a: seq<Rel>, b: seq<Rel>, used: set<int>)
    ensures Fresh(a + b, used) <==> Fresh(a, used) && Fresh(b, used + Ids(a))
  {
    if Fresh(a + b, used) {
      forall i | 0 <= i < |a|
        ensures a[i].id !in used
      {
        assert (a + b)[i] == a[i];
      }
      forall i, j | 0 <= i < j < |a|
        ensures a[i].id != a[j].id
      {
        assert (a + b)[i] == a[i] && (a + b)[j] == a[j];
      }
      forall i | 0 <= i < |b|
        ensures b[i].id !in used + Ids(a)
      {
        assert (a + b)[|a| + i] == b[i];
        forall k | 0 <= k < |a|
          ensures a[k].id != b[i].id
        {
          assert (a + b)[k] == a[k];
        }
      }
      forall i, j | 0 <= i < j < |b|
        ensures b[i].id != b[j].id
      {
        assert (a + b)[|a| + i] == b[i] && (a + b)[|a| + j] == b[j];
      }
    }
    if Fresh(a, used) && Fresh(b, used + Ids(a)) {
      forall i, j | 0 <= i < j < |a + b|
        ensures (a + b)[i].id != (a + b)[j].id
      {
        if i < |a| <= j {
          assert a[i] in a && b[j - |a|].id !in Ids(a);
        }
      }
    }
  }

  /** The enumeration's notion of completing a match, in declarative terms. */
  lemma {:induction false} CompletesIff(g: Graph, links: seq<Link>, m: Match, m': Match)
    ensures Completes(g, links, m, m') <==>
      && m.chains <= m'.chains
      && var cs := m'.chains[|m.chains|..];
      && Fits(g, links, m, cs) && Fresh(Rels(cs), m.used) && m' == Replay(g, links, m, cs)
    decreases |links|
  {
    if links == [] {
      if m.chains <= m'.chains && m'.chains[|m.chains|..] == [] {
        assert m.chains == m'.chains;
      }
    } else {
      if Completes(g, links, m, m') {
        CompletesChains(g, links, m, m');
      }
      if m.chains <= m'.chains && |m'.chains| > |m.chains| {
        var cs := m'.chains[|m.chains|..];
        var c := cs[0];
        var b := Bind(links[0], c, At(m, c), m.row);
        if b.Some? {
          var next := Joined(m, b.value, c);
          CompletesIff(g, links[1..], next, m');
          assert next.chains <= m'.chains;
          assert m'.chains[|next.chains|..] == cs[1..];
          FreshConcat(c.rels, Rels(cs[1..]), m.used);
        }
      }
    }
  }

  /** The used set plays no part in what a replay binds and walks. */
  lemma {:induction false} ReplayUsed(g: Graph, links: seq<Link>, m: Match, used: set<int>, cs: seq<Chain>)
    ensures Fits(g, links, m, cs) <==> Fits(g, links, m.(used := used), cs)
    ensures Fits(g, links, m, cs) ==>
      var a, b := Replay(g, links, m, cs), Replay(g, links, m.(used := used), cs);
      a.row == b.row && a.at == b.at && a.path == b.path && a.chains == b.chains && a.used == m.used + Ids(Rels(cs))
    decreases |links|
  {
    assert m.used + Ids(Rels([])) == m.used;
    if links != [] && cs != [] {
      var c := cs[0];
      assert forall i | 0 <= i < |c.rels| && |c.nodes| == |c.rels| ::
          HopOk(g, links[0].rel, m, c, i) <==> HopOk(g, links[0].rel, m.(used := used), c, i);
      var b := Bind(links[0], c, At(m, c), m.row);
      if b.Some? {
        var next := Joined(m, b.value, c);
        var next' := Joined(m.(used := used), b.value, c);
        assert next' == next.(used := next'.used);
        ReplayUsed(g, links[1..], next, next'.used, cs[1..]);
        IdsConcat(c.rels, Rels(cs[1..]));
        assert m.used + Ids(Rels(cs)) == next.used + Ids(Rels(cs[1..]));
      }
    }
  }

  lemma IdsConcat(a: seq<Rel>, b: seq<Rel>)
    ensures Ids(a + b) == Ids(a) + Ids(b)
  {
    forall x | x in Ids(a) + Ids(b)
      ensures x in Ids(a + b)
    {
      var r :| (r in a || r in b) && r.id == x;
      assert r in a + b;
    }
  }

  lemma {:induction false} ReplayChains(g: Graph, links: seq<Link>, m: Match, cs: seq<Chain>)
    requires Fits(g, links, m, cs)
    ensures Replay(g, links, m, cs).chains == m.chains + cs
    ensures m.path.nodes <= Replay(g, links, m, cs).path.nodes
    decreases |links|
  {
    if links != [] {
      ReplayChains(g, links[1..], Joined(m, Bind(links[0], cs[0], At(m, cs[0]), m.row).value, cs[0]), cs[1..]);
    }
  }

  lemma {:induction false} FoundsDistinct<T>(evs: seq<Event<T>>)
    requires Distinct(evs)
    ensures Distinct(Founds(evs))
  {
    if evs != [] {
      FoundsDistinct(evs[1..]);
      match evs[0]
      case Cut =>
      case Found(x) =>
        FoundsMember(evs[1..], x);
        assert evs[0] !in evs[1..];
        DistinctConcat([x], Founds(evs[1..]));
    }
  }

  // ------------------------------------------------- the matches of one part

  function ChoiceOf(m: Match): Choice {
    Choice(if m.path.nodes == [] then m.at else m.path.nodes[0], m.chains)
  }

  ghost predicate PartMatch(g: Graph, part: Part, r: Row, used: set<int>, m: Match) {
    var n := ChoiceOf(m).start;
    && n in Candidates(g, part.start, r)
    && var b := StartAt(g, part.start, n, r);
    && b.Some?
    && Completes(g, part.links, Begin(b.value, n, used), m)
  }

  lemma StartOfCompletes(g: Graph, part: Part, r: Row, n: int, used: set<int>, m: Match)
    requires Completes(g, part.links, Begin(r, n, used), m)
    ensures ChoiceOf(m).start == n
  {
    var m0 := Begin(r, n, used);
    CompletesIff(g, part.links, m0, m);
    ReplayChains(g, part.links, m0, m.chains[|m0.chains|..]);
  }

  lemma {:induction false} StartEventsExact(g: Graph, part: Part, r: Row, used: set<int>, cands: seq<int>)
    requires g.Valid() && Distinct(cands)
    ensures forall m :: Found(m) in StartEvents(g, 0, part, r, used, cands) <==>
        ChoiceOf(m).start in cands && StartAt(g, part.start, ChoiceOf(m).start, r).Some?
        && Completes(g, part.links, Begin(StartAt(g, part.start, ChoiceOf(m).start, r).value, ChoiceOf(m).start, used), m)
    ensures Distinct(StartEvents(g, 0, part, r, used, cands)) && Cut !in StartEvents(g, 0, part, r, used, cands)
  {
    if cands != [] {
      var n := cands[0];
      var here := FromStart(g, 0, part, r, used, n);
      var rest := StartEvents(g, 0, part, r, used, cands[1..]);
      StartEventsExact(g, part, r, used, cands[1..]);
      var b := StartAt(g, part.start, n, r);
      if b.Some? {
        var m0 := Begin(b.value, n, used);
        WalkDistinct(g, part.links, m0);
        forall m
          ensures Found(m) in here <==> Completes(g, part.links, m0, m)
          ensures Completes(g, part.links, m0, m) ==> ChoiceOf(m).start == n
        {
          if Found(m) in here {
            WalkSound(g, part.links, m0, m);
          }
          if Completes(g, part.links, m0, m) {
            WalkComplete(g, part.links, m0, m);
            StartOfCompletes(g, part, b.value, n, used, m);
          }
        }
      }
      forall e | e in here
        ensures e !in rest
      {
        assert e.Found?;
      }
      DistinctConcat(here, rest);
      assert forall x :: x in cands <==> x == n || x in cands[1..];
    }
  }

  /** One part: every completion from every start candidate, each once. */
  lemma PartExact(g: Graph, part: Part, r: Row, used: set<int>)
    requires g.Valid()
    ensures forall m :: Found(m) in PartEvents(g, 0, part, r, used) <==> PartMatch(g, part, r, used, m)
    ensures Distinct(PartEvents(g, 0, part, r, used)) && Cut !in PartEvents(g, 0, part, r, used)
  {
    StartEventsExact(g, part, r, used, Candidates(g, part.start, r));
  }

  /** A part's match is determined by the choice it makes, and carries the right used set. */
  lemma PartMatchIff(g: Graph, part: Part, r: Row, used: set<int>, m: Match)
    ensures PartMatch(g, part, r, used, m) <==>
      var c := ChoiceOf(m);
      && c.start in Candidates(g, part.start, r)
      && var b := StartAt(g, part.start, c.start, r);
      && b.Some?
      && var m0 := Begin(b.value, c.start, {});
      && Fits(g, part.links, m0, c.chains) && Fresh(Rels(c.chains), used)
      && m == Replay(g, part.links, m0, c.chains).(used := used + Ids(Rels(c.chains)))
  {
    var c := ChoiceOf(m);
    var b := StartAt(g, part.start, c.start, r);
    if b.Some? {
      var m0, mu := Begin(b.value, c.start, {}), Begin(b.value, c.start, used);
      assert mu == m0.(used := used);
      CompletesIff(g, part.links, mu, m);
      assert m.chains[|mu.chains|..] == c.chains;
      ReplayUsed(g, part.links, m0, used, c.chains);
      ReplayUsed(g, part.links, mu, {}, c.chains);
    }
  }

  // --------------------------------------------------- the whole enumeration

  ghost function Prepend(c: Choice, sols: seq<seq<Choice>>): (r: seq<seq<Choice>>)
    ensures |r| == |sols| && forall i :: 0 <= i < |sols| ==> r[i] == [c] + sols[i]
  {
    seq(|sols|, i requires 0 <= i < |sols| => [c] + sols[i])
  }

  /** The choices behind the rows, in the order of the rows. */
  ghost function Solutions(g: Graph, parts: seq<Part>, r: Row, used: set<int>): seq<seq<Choice>>
    decreases |parts|, 1, 0
  {
    if parts == [] then [[]]
    else SolutionsVia(g, parts, Founds(PartEvents(g, 0, parts[0], r, used)))
  }

  ghost function SolutionsVia(g: Graph, parts: seq<Part>, ms: seq<Match>): seq<seq<Choice>>
    requires parts != []
    decreases |parts|, 0, |ms|
  {
    if ms == [] then []
    else
      Prepend(ChoiceOf(ms[0]), Solutions(g, parts[1..], Finish(parts[0], ms[0]), ms[0].used)) +
      SolutionsVia(g, parts, ms[1..])
  }

  lemma PrependMember(c: Choice, inner: seq<seq<Choice>>, sol: seq<Choice>)
    ensures sol in Prepend(c, inner) <==> sol != [] && sol[0] == c && sol[1..] in inner
  {
    var here := Prepend(c, inner);
    if sol in here {
      var i :| 0 <= i < |here| && here[i] == sol;
      assert sol[1..] == inner[i];
    }
    if sol != [] && sol[0] == c && sol[1..] in inner {
      var i :| 0 <= i < |inner| && inner[i] == sol[1..];
      assert here[i] == sol;
    }
  }

  lemma {:induction false} SolutionsViaMember(g: Graph, parts: seq<Part>, ms: seq<Match>, sol: seq<Choice>)
    requires parts != []
    ensures sol in SolutionsVia(g, parts, ms) <==>
      && sol != []
      && exists m :: m in ms && ChoiceOf(m) == sol[0]
                     && sol[1..] in Solutions(g, parts[1..], Finish(parts[0], m), m.used)
    decreases |ms|
  {
    if ms != [] {
      SolutionsViaMember(g, parts, ms[1..], sol);
      var inner := Solutions(g, parts[1..], Finish(parts[0], ms[0]), ms[0].used);
      PrependMember(ChoiceOf(ms[0]), inner, sol);
      assert forall m :: m in ms <==> m == ms[0] || m in ms[1..];
      hide Prepend, Solutions;
    }
  }

  /** The enumeration of a MATCH is exactly its set of solutions, each once. */
  lemma {:induction false} SolutionsExact(g: Graph, parts: seq<Part>, r: Row, used: set<int>)
    requires g.Valid()
    ensures forall sol :: sol in Solutions(g, parts, r, used) <==> IsSolution(g, parts, r, used, sol)
    ensures Distinct(Solutions(g, parts, r, used))
    decreases |parts|, 1, 0
  {
    if parts == [] {
      assert AllRels([]) == [];
      assert Solutions(g, parts, r, used) == [[]];
    } else {
      var part := parts[0];
      var evs := PartEvents(g, 0, part, r, used);
      var ms := Founds(evs);
      PartExact(g, part, r, used);
      FoundsDistinct(evs);
      forall m
        ensures m in ms <==> PartMatch(g, part, r, used, m)
      {
        FoundsMember(evs, m);
      }
      forall sol
        ensures sol in Solutions(g, parts, r, used) <==> IsSolution(g, parts, r, used, sol)
      {
        SolutionsViaMember(g, parts, ms, sol);
        OneSolution(g, parts, r, used, ms, sol);
      }
      SolutionsViaDistinct(g, parts, r, used, ms);
    }
  }

  lemma {:induction false} OneSolution(g: Graph, parts: seq<Part>, r: Row, used: set<int>, ms: seq<Match>, sol: seq<Choice>)
    requires g.Valid() && parts != []
    requires forall m :: m in ms <==> PartMatch(g, parts[0], r, used, m)
    ensures IsSolution(g, parts, r, used, sol) <==>
      && sol != []
      && exists m :: m in ms && ChoiceOf(m) == sol[0]
                     && sol[1..] in Solutions(g, parts[1..], Finish(parts[0], m), m.used)
    decreases |parts|, 0, 0
  {
    hide PartMatch, Fits, Replay, Fresh, Solutions;
    if sol != [] {
      var part, c := parts[0], sol[0];
      FreshConcat(Rels(c.chains), AllRels(sol[1..]), used);
      if IsSolution(g, parts, r, used, sol) {
        var b := StartAt(g, part.start, c.start, r);
        var m0 := Begin(b.value, c.start, {});
        var m := Replay(g, part.links, m0, c.chains).(used := used + Ids(Rels(c.chains)));
        ReplayChains(g, part.links, m0, c.chains);
        assert ChoiceOf(m) == c;
        PartMatchIff(g, part, r, used, m);
        SolutionsExact(g, parts[1..], Finish(part, m), m.used);
        assert m in ms;
      }
      forall m | m in ms && ChoiceOf(m) == c
        ensures sol[1..] in Solutions(g, parts[1..], Finish(part, m), m.used) ==> IsSolution(g, parts, r, used, sol)
      {
        PartMatchIff(g, part, r, used, m);
        SolutionsExact(g, parts[1..], Finish(part, m), m.used);
      }
    }
  }

  lemma {:induction false} SolutionsViaDistinct(g: Graph, parts: seq<Part>, r: Row, used: set<int>, ms: seq<Match>)
    requires g.Valid() && parts != [] && Distinct(ms)
    requires forall m :: m in ms ==> PartMatch(g, parts[0], r, used, m)
    ensures Distinct(SolutionsVia(g, parts, ms))
    decreases |parts|, 0, |ms|
  {
    if ms != [] {
      var m := ms[0];
      var inner := Solutions(g, parts[1..], Finish(parts[0], m), m.used);
      var here, rest := Prepend(ChoiceOf(m), inner), SolutionsVia(g, parts, ms[1..]);
      SolutionsExact(g, parts[1..], Finish(parts[0], m), m.used);
      SolutionsViaDistinct(g, parts, r, used, ms[1..]);
      assert Distinct(here) by {
        forall i, j | 0 <= i < j < |here|
          ensures here[i] != here[j]
        {
          assert here[i][1..] == inner[i] && here[j][1..] == inner[j];
        }
      }
      PartMatchIff(g, parts[0], r, used, m);
      forall sol | sol in here
        ensures sol !in rest
      {
        SolutionsViaMember(g, parts, ms[1..], sol);
        forall m' | m' in ms[1..]
          ensures ChoiceOf(m') != ChoiceOf(m)
        {
          PartMatchIff(g, parts[0], r, used, m');
        }
      }
      DistinctConcat(here, rest);
    }
  }

  /** The rows are those of the solutions, one for one and in order, and nothing is cut. */
  lemma {:induction false} RowsExact(g: Graph, parts: seq<Part>, r: Row, used: set<int>)
    requires g.Valid()
    ensures var rows, sols := Founds(Rows(g, 0, parts, r, used)), Solutions(g, parts, r, used);
      |rows| == |sols| && forall i :: 0 <= i < |sols| ==> Solves(g, parts, r, sols[i]) && rows[i] == RowOf(g, parts, r, sols[i])
    ensures Cut !in Rows(g, 0, parts, r, used)
    decreases |parts|, 1, 0
  {
    if parts == [] {
      assert Founds([Found(r)]) == [r] + Founds<Row>([]);
    } else {
      PartExact(g, parts[0], r, used);
      ThenExact(g, parts, r, used, PartEvents(g, 0, parts[0], r, used));
    }
  }

  /** Rows that belong to solutions, one for one and in order. */
  ghost predicate RowsOf(g: Graph, parts: seq<Part>, r: Row, rows: seq<Row>, sols: seq<seq<Choice>>) {
    |rows| == |sols| && forall i :: 0 <= i < |sols| ==> Solves(g, parts, r, sols[i]) && rows[i] == RowOf(g, parts, r, sols[i])
  }

  lemma RowsOfConcat(g: Graph, parts: seq<Part>, r: Row, rows: seq<Row>, sols: seq<seq<Choice>>, rows': seq<Row>, sols': seq<seq<Choice>>)
    requires RowsOf(g, parts, r, rows, sols) && RowsOf(g, parts, r, rows', sols')
    ensures RowsOf(g, parts, r, rows + rows', sols + sols')
  {
    hide Solves, RowOf;
  }

  lemma RowsOfPrepended(g: Graph, parts: seq<Part>, r: Row, used: set<int>, m: Match, rows: seq<Row>, inner: seq<seq<Choice>>)
    requires g.Valid() && parts != [] && PartMatch(g, parts[0], r, used, m)
    requires RowsOf(g, parts[1..], Finish(parts[0], m), rows, inner)
    ensures RowsOf(g, parts, r, rows, Prepend(ChoiceOf(m), inner))
  {
    PartMatchIff(g, parts[0], r, used, m);
    var here := Prepend(ChoiceOf(m), inner);
    forall i | 0 <= i < |here|
      ensures Solves(g, parts, r, here[i]) && rows[i] == RowOf(g, parts, r, here[i])
    {
      assert here[i][0] == ChoiceOf(m) && here[i][1..] == inner[i];
    }
  }

  lemma {:induction false} ThenExact(g: Graph, parts: seq<Part>, r: Row, used: set<int>, evs: seq<Event<Match>>)
    requires g.Valid() && parts != [] && Cut !in evs
    requires forall m :: Found(m) in evs ==> PartMatch(g, parts[0], r, used, m)
    ensures RowsOf(g, parts, r, Founds(Then(g, 0, parts, evs)), SolutionsVia(g, parts, Founds(evs)))
    ensures Cut !in Then(g, 0, parts, evs)
    decreases |parts|, 0, |evs|
  {
    if evs != [] {
      assert evs[0] in evs;
      var m := evs[0].value;
      ThenExact(g, parts, r, used, evs[1..]);
      RowsExact(g, parts[1..], Finish(parts[0], m), m.used);
      var rest, here := Then(g, 0, parts, evs[1..]), Next(g, 0, parts, evs[0]);
      var inner := Solutions(g, parts[1..], Finish(parts[0], m), m.used);
      FoundsConcat(here, rest);
      assert Founds(evs) == [m] + Founds(evs[1..]);
      hide RowsOf, PartMatch;
      RowsOfPrepended(g, parts, r, used, m, Founds(here), inner);
      RowsOfConcat(g, parts, r, Founds(here), Prepend(ChoiceOf(m), inner), Founds(rest), SolutionsVia(g, parts, Founds(evs[1..])));
    }
  }

  // -------------------------------------------------------------- start hints

  /** The scan for start candidates keeps every node that matches. */
  ghost predicate ScansAll(part: Part) {
    forall n, row :: part.start.matches(n, row) ==> part.start.narrow(n, row)
  }

  lemma {:induction false} FitsUnhinted(g: Graph, l1: seq<Link>, l2: seq<Link>, m: Match, cs: seq<Chain>)
    requires |l1| == |l2| && forall i :: 0 <= i < |l1| ==> l2[i] == l1[i].(node := NoHint(l1[i].node))
    ensures Fits(g, l1, m, cs) <==> Fits(g, l2, m, cs)
    ensures Fits(g, l1, m, cs) ==> Replay(g, l1, m, cs) == Replay(g, l2, m, cs)
    decreases |l1|
  {
    if l1 != [] && cs != [] {
      var b := Bind(l1[0], cs[0], At(m, cs[0]), m.row);
      assert Bind(l2[0], cs[0], At(m, cs[0]), m.row) == b;
      if b.Some? {
        FitsUnhinted(g, l1[1..], l2[1..], Joined(m, b.value, cs[0]), cs[1..]);
      }
    }
  }

  lemma {:induction false} SolvesUnhinted(g: Graph, parts: seq<Part>, r: Row, sol: seq<Choice>)
    requires forall i :: 0 <= i < |parts| ==> ScansAll(parts[i])
    ensures Solves(g, parts, r, sol) <==> Solves(g, UnhintAll(parts), r, sol)
    decreases |parts|
  {
    if parts != [] && sol != [] {
      var part, c := parts[0], sol[0];
      assert UnhintAll(parts)[0] == Unhint(part) && UnhintAll(parts)[1..] == UnhintAll(parts[1..]);
      var b := StartAt(g, part.start, c.start, r);
      assert StartAt(g, Unhint(part).start, c.start, r) == b;
      if b.Some? {
        var m := Begin(b.value, c.start, {});
        FitsUnhinted(g, part.links, Unhint(part).links, m, c.chains);
        if Fits(g, part.links, m, c.chains) {
          SolvesUnhinted(g, parts[1..], Finish(part, Replay(g, part.links, m, c.chains)), sol[1..]);
        }
      }
    }
  }

  /** Scan hints the node patterns themselves imply drop no solution. */
  lemma HintsDropNoSolution(g: Graph, parts: seq<Part>, r: Row, used: set<int>, sol: seq<Choice>)
    requires forall i :: 0 <= i < |parts| ==> ScansAll(parts[i])
    ensures IsSolution(g, parts, r, used, sol) <==> IsSolution(g, UnhintAll(parts), r, used, sol)
  {
    SolvesUnhinted(g, parts, r, sol);
  }
}
