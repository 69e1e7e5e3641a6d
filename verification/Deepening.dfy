/** Iterative deepening for path selectors with both ends bound, against enumerating every match. */
module Deepening {
  import opened Seqs
  import opened Graphs
  import opened Walks
  import opened Patterns
  import opened Matches
  import opened Budget
  import opened Parts
  import opened Selectors

  const HIDDEN_PATH := "\0path"

  /** The variable the inner pattern binds its path to. */
  function PathVar(part: Part): string {
    if part.v.Some? then part.v.value else HIDDEN_PATH
  }

  function Inner(part: Part): Part {
    part.(v := Some(PathVar(part)))
  }

  /** What the collector reads off an emitted row. */
  function ItemOf(v: string, row: Row): Item {
    if v in row && row[v].PathV? && row[v].path.nodes != [] then
      var p := row[v].path;
      Item(row, (p.nodes[0], p.nodes[|p.nodes| - 1]), |p.rels|)
    else Item(row, (0, 0), 0)
  }

  ghost function Items(part: Part, ms: seq<Match>): seq<Item> {
    if ms == [] then []
    else [ItemOf(PathVar(part), Finish(Inner(part), ms[0]))] + Items(part, ms[1..])
  }

  ghost predicate Rooted(m: Match) {
    m.path.nodes != [] && m.at == m.path.nodes[|m.path.nodes| - 1]
  }

  /** `endsBound`: the first and last node patterns are variables bound to nodes. */
  predicate EndsBound(part: Part, r: Row) {
    && part.links != []
    && BoundNode(part.start, r)
    && BoundNode(part.links[|part.links| - 1].node, r)
  }

  predicate BoundNode(np: NodePat, r: Row) {
    np.v.Some? && np.v.value in r && r[np.v.value].NodeV?
  }

  ghost function PartMatches(g: Graph, limit: nat, part: Part, r: Row, used: set<int>): seq<Match> {
    Founds(PartEvents(g, limit, Inner(part), r, used))
  }

  // ------------------------------------------------ limited against unlimited

  lemma {:induction false} StartsKeep(g: Graph, limit: nat, part: Part, r: Row, used: set<int>, cands: seq<int>)
    requires g.Valid() && limit > 0 && part.links != []
    ensures SameKept(limit, StartEvents(g, limit, part, r, used, cands), StartEvents(g, 0, part, r, used, cands))
  {
    if cands != [] {
      var b := StartAt(g, part.start, cands[0], r);
      if b.Some? {
        WalkKeeps(g, limit, part.links, Begin(b.value, cands[0], used));
      }
      StartsKeep(g, limit, part, r, used, cands[1..]);
      SameKeptConcat(limit, FromStart(g, limit, part, r, used, cands[0]), FromStart(g, 0, part, r, used, cands[0]),
                     StartEvents(g, limit, part, r, used, cands[1..]), StartEvents(g, 0, part, r, used, cands[1..]));
    }
  }

  /** The limited search of a part emits exactly the affordable matches of the full
      enumeration, in the same order. */
  lemma LimitedExact(g: Graph, limit: nat, part: Part, r: Row, used: set<int>)
    requires g.Valid() && limit > 0 && part.links != []
    ensures PartMatches(g, limit, part, r, used) == Keep(limit, PartMatches(g, 0, part, r, used))
  {
    StartsKeep(g, limit, Inner(part), r, used, Candidates(g, part.start, r));
  }

  lemma {:induction false} StartsUncut(g: Graph, limit: nat, part: Part, r: Row, used: set<int>, cands: seq<int>)
    requires Cut !in StartEvents(g, limit, part, r, used, cands)
    ensures StartEvents(g, limit, part, r, used, cands) == StartEvents(g, 0, part, r, used, cands)
  {
    if cands != [] {
      var b := StartAt(g, part.start, cands[0], r);
      if b.Some? {
        WalkUncut(g, limit, part.links, Begin(b.value, cands[0], used));
      }
      StartsUncut(g, limit, part, r, used, cands[1..]);
    }
  }

  lemma {:induction false} StartsFit(g: Graph, limit: nat, part: Part, r: Row, used: set<int>, cands: seq<int>)
    requires limit > |g.rels| + 1
    ensures Cut !in StartEvents(g, limit, part, r, used, cands)
  {
    if cands != [] {
      var b := StartAt(g, part.start, cands[0], r);
      if b.Some? {
        WalkFits(g, limit, part.links, Begin(b.value, cands[0], used));
      }
      StartsFit(g, limit, part, r, used, cands[1..]);
    }
  }

  /** A search that was not cut has found everything. */
  lemma UncutExact(g: Graph, limit: nat, part: Part, r: Row, used: set<int>)
    requires Cut !in PartEvents(g, limit, Inner(part), r, used)
    ensures PartMatches(g, limit, part, r, used) == PartMatches(g, 0, part, r, used)
  {
    StartsUncut(g, limit, Inner(part), r, used, Candidates(g, part.start, r));
  }

  /** Beyond the number of relationships nothing is cut. */
  lemma UncutBeyond(g: Graph, limit: nat, part: Part, r: Row, used: set<int>)
    requires limit > |g.rels| + 1
    ensures Cut !in PartEvents(g, limit, Inner(part), r, used)
  {
    StartsFit(g, limit, Inner(part), r, used, Candidates(g, part.start, r));
  }

  // ---------------------------------------------------- one partition only

  lemma BindKeepsNodes(link: Link, c: Chain, end: int, row: Row, v: string)
    requires Bind(link, c, end, row).Some? && v in row && row[v].NodeV?
    ensures var r2 := Bind(link, c, end, row).value;
      v in r2 && r2[v] == row[v] && (link.node.v == Some(v) ==> row[v] == NodeV(end))
  {
  }

  lemma {:induction false} CompletesRooted(g: Graph, links: seq<Link>, m: Match, m': Match)
    requires Completes(g, links, m, m') && Rooted(m)
    ensures Rooted(m') && m.path.nodes <= m'.path.nodes
    decreases |links|
  {
    if links != [] {
      var c := m'.chains[|m.chains|];
      CompletesRooted(g, links[1..], Joined(m, Bind(links[0], c, At(m, c), m.row).value, c), m');
    }
  }

  lemma {:induction false} CompletesEnd(g: Graph, links: seq<Link>, m: Match, m': Match, v: string)
    requires links != [] && links[|links| - 1].node.v == Some(v)
    requires Completes(g, links, m, m') && v in m.row && m.row[v].NodeV?
    ensures m.row[v] == NodeV(m'.at)
    decreases |links|
  {
    var c := m'.chains[|m.chains|];
    var next := Joined(m, Bind(links[0], c, At(m, c), m.row).value, c);
    BindKeepsNodes(links[0], c, At(m, c), m.row, v);
    if |links| > 1 {
      CompletesEnd(g, links[1..], next, m', v);
    }
  }

  /** A match of a part, as the selector sees it. */
  lemma MatchShape(g: Graph, part: Part, r: Row, used: set<int>, m: Match)
    requires g.Valid() && m in PartMatches(g, 0, part, r, used)
    ensures Rooted(m) && |m.chains| == |part.links|
    ensures part.links != [] ==> 0 <= Lead(m) <= |m.path.rels|
    ensures ItemOf(PathVar(part), Finish(Inner(part), m))
         == Item(Finish(Inner(part), m), (m.path.nodes[0], m.at), |m.path.rels|)
    ensures EndsBound(part, r) ==> EndKey(part, r) == (m.path.nodes[0], m.at)
  {
    var inner := Inner(part);
    PartExact(g, inner, r, used);
    FoundsMember(PartEvents(g, 0, inner, r, used), m);
    var n := ChoiceOf(m).start;
    var m0 := Begin(StartAt(g, inner.start, n, r).value, n, used);
    CompletesRooted(g, inner.links, m0, m);
    CompletesChains(g, inner.links, m0, m);
    if part.links != [] {
      CompletesLength(g, part.links, m0, m);
    }
    if EndsBound(part, r) {
      CompletesEnd(g, part.links, m0, m, part.links[|part.links| - 1].node.v.value);
    }
  }

  lemma {:induction false} ItemsMember(part: Part, ms: seq<Match>)
    ensures |Items(part, ms)| == |ms|
    ensures forall i :: 0 <= i < |ms| ==> Items(part, ms)[i] == ItemOf(PathVar(part), Finish(Inner(part), ms[i]))
  {
    if ms != [] {
      ItemsMember(part, ms[1..]);
    }
  }

  lemma {:induction false} KeepMember(limit: nat, ms: seq<Match>)
    ensures forall m :: m in Keep(limit, ms) <==> m in ms && Affordable(limit, m)
  {
    if ms != [] {
      KeepMember(limit, ms[1..]);
      assert forall m :: m in ms <==> m == ms[0] || m in ms[1..];
    }
  }

  function EndKey(part: Part, r: Row): (int, int)
    requires EndsBound(part, r)
  {
    (r[part.start.v.value].node, r[part.links[|part.links| - 1].node.v.value].node)
  }

  /** With both ends bound there is a single partition. */
  lemma SinglePartition(g: Graph, part: Part, r: Row, used: set<int>, ms: seq<Match>)
    requires g.Valid() && EndsBound(part, r)
    requires forall m :: m in ms ==> m in PartMatches(g, 0, part, r, used)
    ensures forall it :: it in Items(part, ms) ==> it.key == EndKey(part, r)
  {
    ItemsMember(part, ms);
    forall i | 0 <= i < |ms|
      ensures Items(part, ms)[i].key == EndKey(part, r)
    {
      assert ms[i] in ms;
      MatchShape(g, part, r, used, ms[i]);
    }
  }

  // -------------------------------------------------------------- the search

  /** The limit at which the search stops, starting from `limit`. */
  ghost function StopAt(g: Graph, part: Part, r: Row, used: set<int>, kind: Kind, k: nat, limit: nat): nat
    requires limit <= |g.rels| + 1
    decreases |g.rels| + 1 - limit
  {
    var evs := PartEvents(g, limit + 1, Inner(part), r, used);
    if Satisfied(kind, k, Items(part, Founds(evs))) || Cut !in evs then limit
    else
      assert limit <= |g.rels| by {
        if limit > |g.rels| {
          UncutBeyond(g, limit + 1, part, r, used);
        }
      }
      StopAt(g, part, r, used, kind, k, limit + 1)
  }

  /** The matches the search has when it stops. */
  ghost function Reached(g: Graph, part: Part, r: Row, used: set<int>, kind: Kind, k: nat): seq<Match> {
    PartMatches(g, StopAt(g, part, r, used, kind, k, 0) + 1, part, r, used)
  }

  ghost function Deepened(g: Graph, part: Part, r: Row, used: set<int>, kind: Kind, k: nat): seq<Item> {
    ChooseAll(kind, k, Items(part, Reached(g, part, r, used, kind, k)))
  }

  ghost function Enumerated(g: Graph, part: Part, r: Row, used: set<int>, kind: Kind, k: nat): seq<Item> {
    ChooseAll(kind, k, Items(part, PartMatches(g, 0, part, r, used)))
  }

  /** The last link matched no relationship at all. */
  predicate Tailless(m: Match) {
    m.chains != [] && m.chains[|m.chains| - 1].rels == []
  }

  /** No two matches of the same length differ in whether the last link is empty. */
  ghost predicate NoTie(ms: seq<Match>) {
    forall x, y :: x in ms && y in ms && |x.path.rels| == |y.path.rels| && Tailless(x) ==> Tailless(y)
  }

  /** Some matches of this length end in an empty last link, some do not. */
  ghost predicate Mixed(ms: seq<Match>, len: int) {
    exists x, y :: x in ms && y in ms && |x.path.rels| == len == |y.path.rels| && Tailless(x) && !Tailless(y)
  }

  lemma AffordableIff(m: Match, limit: nat)
    requires m.chains != [] && limit > 0
    ensures Affordable(limit, m) <==> |m.path.rels| < limit - 1 || (|m.path.rels| == limit - 1 && !Tailless(m))
  {
  }

  lemma {:induction false} KeepIsShort(part: Part, limit: nat, ms: seq<Match>, len: int)
    requires forall m :: m in ms ==> (Affordable(limit, m) <==> |m.path.rels| <= len)
    requires forall m :: m in ms ==> ItemOf(PathVar(part), Finish(Inner(part), m)).length == |m.path.rels|
    ensures Items(part, Keep(limit, ms)) == Short(Items(part, ms), len)
  {
    if ms != [] {
      assert ms[0] in ms;
      KeepIsShort(part, limit, ms[1..], len);
      if Affordable(limit, ms[0]) {
        assert Keep(limit, ms)[0] == ms[0] && Keep(limit, ms)[1..] == Keep(limit, ms[1..]);
      } else {
        assert Keep(limit, ms) == Keep(limit, ms[1..]);
      }
      assert Items(part, ms)[1..] == Items(part, ms[1..]);
    }
  }

  /** Without a tie at its own length a limited search is the full enumeration up to some length. */
  lemma LimitedIsShort(g: Graph, limit: nat, part: Part, r: Row, used: set<int>) returns (len: int)
    requires g.Valid() && limit > 0 && part.links != [] && !Mixed(PartMatches(g, 0, part, r, used), limit - 1)
    ensures Items(part, PartMatches(g, limit, part, r, used)) == Short(Items(part, PartMatches(g, 0, part, r, used)), len)
  {
    var ms := PartMatches(g, 0, part, r, used);
    LimitedExact(g, limit, part, r, used);
    forall m | m in ms
      ensures m.chains != [] && ItemOf(PathVar(part), Finish(Inner(part), m)).length == |m.path.rels|
    {
      MatchShape(g, part, r, used, m);
    }
    len := limit - 1;
    if exists x :: x in ms && |x.path.rels| == limit - 1 && Tailless(x) {
      len := limit - 2;
    }
    forall m | m in ms
      ensures Affordable(limit, m) <==> |m.path.rels| <= len
    {
      AffordableIff(m, limit);
    }
    KeepIsShort(part, limit, ms, len);
  }

  lemma {:induction false} StopSettled(g: Graph, part: Part, r: Row, used: set<int>, kind: Kind, k: nat, limit: nat)
    requires limit <= |g.rels| + 1
    ensures var stop := StopAt(g, part, r, used, kind, k, limit);
      var evs := PartEvents(g, stop + 1, Inner(part), r, used);
      limit <= stop <= |g.rels| + 1 && (Satisfied(kind, k, Items(part, Founds(evs))) || Cut !in evs)
    decreases |g.rels| + 1 - limit
  {
    hide PartEvents, Satisfied, Items, Founds;
    var evs := PartEvents(g, limit + 1, Inner(part), r, used);
    if !Satisfied(kind, k, Items(part, Founds(evs))) && Cut in evs {
      if limit > |g.rels| {
        UncutBeyond(g, limit + 1, part, r, used);
      }
      StopSettled(g, part, r, used, kind, k, limit + 1);
    }
  }

  /** Without a tie at the length where it stops, deepening chooses what enumerating everything
      would choose. */
  lemma AgreesUnmixed(g: Graph, part: Part, r: Row, used: set<int>, kind: Kind, k: nat)
    requires g.Valid() && EndsBound(part, r) && ShortestKind(kind) && k >= 1
    requires !Mixed(PartMatches(g, 0, part, r, used), StopAt(g, part, r, used, kind, k, 0))
    ensures Deepened(g, part, r, used, kind, k) == Enumerated(g, part, r, used, kind, k)
  {
    hide PartEvents, Satisfied, Items, Founds, Keep, Choose, ChooseAll, Short, SortedByLength, Mixed, StopAt, Affordable;
    var all := PartMatches(g, 0, part, r, used);
    var limit := StopAt(g, part, r, used, kind, k, 0) + 1;
    StopSettled(g, part, r, used, kind, k, 0);
    if Cut !in PartEvents(g, limit, Inner(part), r, used) {
      UncutExact(g, limit, part, r, used);
    } else {
      var some := PartMatches(g, limit, part, r, used);
      LimitedExact(g, limit, part, r, used);
      KeepMember(limit, all);
      var len := LimitedIsShort(g, limit, part, r, used);
      SettledByShort(kind, k, Items(part, all), len);
      ChooseBound(g, part, r, used, kind, k, all);
      ChooseBound(g, part, r, used, kind, k, some);
    }
  }

  /** Without ties, deepening chooses what enumerating everything would choose. */
  lemma DeepeningAgrees(g: Graph, part: Part, r: Row, used: set<int>, kind: Kind, k: nat)
    requires g.Valid() && EndsBound(part, r) && ShortestKind(kind) && k >= 1
    requires NoTie(PartMatches(g, 0, part, r, used))
    ensures Deepened(g, part, r, used, kind, k) == Enumerated(g, part, r, used, kind, k)
  {
    hide PartMatches, Deepened, Enumerated, StopAt;
    AgreesUnmixed(g, part, r, used, kind, k);
  }

  /** With both ends bound the selector reduces all matches together. */
  lemma ChooseBound(g: Graph, part: Part, r: Row, used: set<int>, kind: Kind, k: nat, ms: seq<Match>)
    requires g.Valid() && EndsBound(part, r)
    requires forall m :: m in ms ==> m in PartMatches(g, 0, part, r, used)
    ensures ChooseAll(kind, k, Items(part, ms)) == Choose(kind, k, SortedByLength(Items(part, ms)))
  {
    SinglePartition(g, part, r, used, ms);
    ChooseOne(kind, k, Items(part, ms), EndKey(part, r));
  }

  // ------------------------------------------------------------ the tie case

  lemma {:induction false} KeepCount(part: Part, limit: nat, ms: seq<Match>, len: int, x: Match)
    requires forall m :: m in ms ==> (Affordable(limit, m) ==> |m.path.rels| <= len)
    requires forall m :: m in ms ==> ItemOf(PathVar(part), Finish(Inner(part), m)).length == |m.path.rels|
    ensures |Keep(limit, ms)| <= |Short(Items(part, ms), len)|
    ensures x in ms && |x.path.rels| <= len && !Affordable(limit, x) ==> |Keep(limit, ms)| < |Short(Items(part, ms), len)|
  {
    if ms != [] {
      assert ms[0] in ms;
      KeepCount(part, limit, ms[1..], len, x);
      assert Items(part, ms)[1..] == Items(part, ms[1..]);
      assert x in ms <==> x == ms[0] || x in ms[1..];
    }
  }

  lemma LengthsOf(part: Part, ms: seq<Match>)
    requires forall m :: m in ms ==> ItemOf(PathVar(part), Finish(Inner(part), m)).length == |m.path.rels|
    ensures Lengths(Items(part, ms)) == set m | m in ms :: |m.path.rels|
  {
    ItemsMember(part, ms);
    var its := Items(part, ms);
    forall l | l in Lengths(its)
      ensures l in set m | m in ms :: |m.path.rels|
    {
      var it :| it in its && it.length == l;
      var i :| 0 <= i < |its| && its[i] == it;
      assert ms[i] in ms;
    }
    forall m | m in ms
      ensures |m.path.rels| in Lengths(its)
    {
      var i :| 0 <= i < |ms| && ms[i] == m;
      assert its[i] in its;
    }
  }

  /** The lengths a search can have found by the time its limit is `limit`. */
  ghost function LengthsUpTo(ms: seq<Match>, len: int): set<int> {
    set m | m in ms && |m.path.rels| <= len :: |m.path.rels|
  }

  /** Before the tie is reached the selector is neither satisfied nor uncut. */
  lemma BeforeTie(g: Graph, part: Part, r: Row, used: set<int>, y: Match, limit: nat)
    requires g.Valid() && part.links != [] && y in PartMatches(g, 0, part, r, used) && limit < |y.path.rels|
    ensures var k := |LengthsUpTo(PartMatches(g, 0, part, r, used), |y.path.rels|)|;
      var evs := PartEvents(g, limit + 1, Inner(part), r, used);
      !Satisfied(SelShortestGroups, k, Items(part, Founds(evs))) && Cut in evs
  {
    var all := PartMatches(g, 0, part, r, used);
    var some := PartMatches(g, limit + 1, part, r, used);
    var ls := LengthsUpTo(all, |y.path.rels|);
    LimitedExact(g, limit + 1, part, r, used);
    KeepMember(limit + 1, all);
    forall m | m in all
      ensures m.chains != [] && ItemOf(PathVar(part), Finish(Inner(part), m)).length == |m.path.rels|
    {
      MatchShape(g, part, r, used, m);
    }
    LengthsOf(part, some);
    assert |y.path.rels| in ls - Lengths(Items(part, some));
    SubsetSmaller(Lengths(Items(part, some)), ls, |y.path.rels|);
    if Cut !in PartEvents(g, limit + 1, Inner(part), r, used) {
      UncutExact(g, limit + 1, part, r, used);
    }
  }

  /** At the tie's length the search has found a match of every length up to it. */
  lemma AtTie(g: Graph, part: Part, r: Row, used: set<int>, y: Match)
    requires g.Valid() && part.links != [] && y in PartMatches(g, 0, part, r, used) && !Tailless(y)
    ensures Lengths(Items(part, PartMatches(g, |y.path.rels| + 1, part, r, used)))
         == LengthsUpTo(PartMatches(g, 0, part, r, used), |y.path.rels|)
  {
    hide PartEvents, Items, Founds, Keep, Affordable, Tailless;
    var len := |y.path.rels|;
    var all := PartMatches(g, 0, part, r, used);
    var some := PartMatches(g, len + 1, part, r, used);
    LimitedExact(g, len + 1, part, r, used);
    KeepMember(len + 1, all);
    forall m | m in all
      ensures ItemOf(PathVar(part), Finish(Inner(part), m)).length == |m.path.rels|
      ensures Affordable(len + 1, m) <==> |m.path.rels| < len || (|m.path.rels| == len && !Tailless(m))
    {
      MatchShape(g, part, r, used, m);
      AffordableIff(m, len + 1);
    }
    LengthsOf(part, some);
    forall l | l in LengthsUpTo(all, len)
      ensures l in Lengths(Items(part, some))
    {
      var m :| m in all && |m.path.rels| == l;
      assert (if l < len then m else y) in some;
    }
  }

  lemma {:induction false} StopsAtTie(g: Graph, part: Part, r: Row, used: set<int>, y: Match, limit: nat)
    requires g.Valid() && part.links != [] && y in PartMatches(g, 0, part, r, used) && !Tailless(y)
    requires limit <= |y.path.rels| && limit <= |g.rels| + 1
    ensures StopAt(g, part, r, used, SelShortestGroups, |LengthsUpTo(PartMatches(g, 0, part, r, used), |y.path.rels|)|, limit)
         == |y.path.rels|
    decreases |y.path.rels| - limit
  {
    hide PartEvents, Items, Founds, Lengths, LengthsUpTo, Tailless;
    if limit < |y.path.rels| {
      BeforeTie(g, part, r, used, y, limit);
      if limit > |g.rels| {
        UncutBeyond(g, limit + 1, part, r, used);
      }
      StopsAtTie(g, part, r, used, y, limit + 1);
    } else {
      AtTie(g, part, r, used, y);
    }
  }

  /** A tie makes `SHORTEST k GROUPS` lose a match for some `k`. */
  lemma TieLoses(g: Graph, part: Part, r: Row, used: set<int>, x: Match, y: Match) returns (k: nat)
    requires g.Valid() && EndsBound(part, r)
    requires x in PartMatches(g, 0, part, r, used) && y in PartMatches(g, 0, part, r, used)
    requires |x.path.rels| == |y.path.rels| && Tailless(x) && !Tailless(y)
    ensures k == |LengthsUpTo(PartMatches(g, 0, part, r, used), |y.path.rels|)| >= 1
    ensures |Deepened(g, part, r, used, SelShortestGroups, k)| < |Enumerated(g, part, r, used, SelShortestGroups, k)|
  {
    hide PartEvents, Items, Founds, Keep, Affordable, Tailless, Choose, ChooseAll, Short, SortedByLength, StopAt, Lengths;
    var len := |y.path.rels|;
    var all := PartMatches(g, 0, part, r, used);
    var some := PartMatches(g, len + 1, part, r, used);
    k := |LengthsUpTo(all, len)|;
    assert len in LengthsUpTo(all, len);
    LimitedExact(g, len + 1, part, r, used);
    KeepMember(len + 1, all);
    StopsAtTie(g, part, r, used, y, 0);
    AtTie(g, part, r, used, y);
    ChooseBound(g, part, r, used, SelShortestGroups, k, all);
    ChooseBound(g, part, r, used, SelShortestGroups, k, some);
    forall m | m in all
      ensures ItemOf(PathVar(part), Finish(Inner(part), m)).length == |m.path.rels|
      ensures Affordable(len + 1, m) ==> |m.path.rels| <= len
    {
      MatchShape(g, part, r, used, m);
      AffordableIff(m, len + 1);
    }
    MatchShape(g, part, r, used, x);
    AffordableIff(x, len + 1);
    KeepCount(part, len + 1, all, len, x);
    ShortLengths(part, all, len);
    SatisfiedGroups(k, Short(Items(part, all), len));
    SettledByShort(SelShortestGroups, k, Items(part, all), len);
    AllGroups(Items(part, some), k);
    AllGroups(Short(Items(part, all), len), k);
    ItemsMember(part, some);
  }

  lemma SatisfiedGroups(k: nat, its: seq<Item>)
    ensures Satisfied(SelShortestGroups, k, its) <==> |Lengths(its)| >= k
  {
  }

  lemma ShortLengths(part: Part, ms: seq<Match>, len: int)
    requires forall m :: m in ms ==> ItemOf(PathVar(part), Finish(Inner(part), m)).length == |m.path.rels|
    ensures Lengths(Short(Items(part, ms), len)) == LengthsUpTo(ms, len)
  {
    var its := Items(part, ms);
    ItemsMember(part, ms);
    ShortMember(its, len);
    forall l | l in Lengths(Short(its, len))
      ensures l in LengthsUpTo(ms, len)
    {
      var it :| it in Short(its, len) && it.length == l;
      var i :| 0 <= i < |its| && its[i] == it;
      assert ms[i] in ms;
    }
    forall l | l in LengthsUpTo(ms, len)
      ensures l in Lengths(Short(its, len))
    {
      var m :| m in ms && |m.path.rels| == l && l <= len;
      var i :| 0 <= i < |ms| && ms[i] == m;
      assert its[i] in Short(its, len);
    }
  }

  /** Matches of at most `k` lengths are all kept by `SHORTEST k GROUPS`. */
  lemma AllGroups(its: seq<Item>, k: nat)
    requires |Lengths(its)| <= k
    ensures |Choose(SelShortestGroups, k, SortedByLength(its))| == |its|
  {
    var p := SortedByLength(its);
    SortedSize(its);
    LayersAscending(its, MaxLength(its) + 1);
    LengthsSame(p, its);
    assert Lengths(p) - {-1} == Lengths(p);
    GroupsWhole(p, -1, k);
  }

  lemma {:induction false} KeepShort(part: Part, limit: nat, ms: seq<Match>, len: int)
    requires forall m :: m in ms && |m.path.rels| <= len ==> Affordable(limit, m)
    requires forall m :: m in ms ==> ItemOf(PathVar(part), Finish(Inner(part), m)).length == |m.path.rels|
    ensures Short(Items(part, Keep(limit, ms)), len) == Short(Items(part, ms), len)
  {
    if ms != [] {
      assert ms[0] in ms;
      KeepShort(part, limit, ms[1..], len);
      assert Items(part, ms)[1..] == Items(part, ms[1..]);
      if Affordable(limit, ms[0]) {
        assert Keep(limit, ms)[0] == ms[0] && Keep(limit, ms)[1..] == Keep(limit, ms[1..]);
      } else {
        assert Keep(limit, ms) == Keep(limit, ms[1..]);
      }
    }
  }

  lemma KeepFits(part: Part, limit: nat, ms: seq<Match>, len: int)
    requires forall m :: m in ms ==> (Affordable(limit, m) ==> |m.path.rels| <= len)
    requires forall m :: m in ms ==> ItemOf(PathVar(part), Finish(Inner(part), m)).length == |m.path.rels|
    ensures |Keep(limit, ms)| <= |Short(Items(part, ms), len)|
  {
    if ms != [] {
      KeepCount(part, limit, ms, len, ms[0]);
    }
  }

  /** A limited search has all the matches shorter than its own length, and none longer than it. */
  lemma LimitedShort(g: Graph, len: nat, part: Part, r: Row, used: set<int>)
    requires g.Valid() && part.links != []
    ensures var some, all := Items(part, PartMatches(g, len + 1, part, r, used)), Items(part, PartMatches(g, 0, part, r, used));
      Short(some, len - 1) == Short(all, len - 1) && |some| <= |Short(all, len)|
      && forall it :: it in some ==> it.length <= len && it in all
  {
    hide PartEvents, Founds, Affordable, Items, Keep, Short, ItemOf, Finish;
    var all := PartMatches(g, 0, part, r, used);
    LimitedExact(g, len + 1, part, r, used);
    KeepMember(len + 1, all);
    forall m | m in all
      ensures ItemOf(PathVar(part), Finish(Inner(part), m)).length == |m.path.rels|
      ensures (Affordable(len + 1, m) ==> |m.path.rels| <= len) && (|m.path.rels| <= len - 1 ==> Affordable(len + 1, m))
    {
      MatchShape(g, part, r, used, m);
      AffordableIff(m, len + 1);
    }
    KeepShort(part, len + 1, all, len - 1);
    KeepFits(part, len + 1, all, len);
    ItemsMember(part, Keep(len + 1, all));
    KeptItems(part, len, Keep(len + 1, all), all);
  }

  lemma KeptItems(part: Part, len: int, kept: seq<Match>, all: seq<Match>)
    requires forall m :: m in kept ==> m in all && ItemOf(PathVar(part), Finish(Inner(part), m)).length <= len
    ensures forall it :: it in Items(part, kept) ==> it.length <= len && it in Items(part, all)
  {
    ItemsMember(part, kept);
    ItemsMember(part, all);
    hide Items, ItemOf;
    forall i | 0 <= i < |kept|
      ensures Items(part, kept)[i].length <= len && Items(part, kept)[i] in Items(part, all)
    {
      assert kept[i] in kept;
      var j :| 0 <= j < |all| && all[j] == kept[i];
      assert Items(part, all)[j] == Items(part, kept)[i];
    }
  }

  /** A tie at the length where `SHORTEST k GROUPS` stops does no harm if it is not the last
      length wanted. */
  lemma GroupsPastTie(g: Graph, part: Part, r: Row, used: set<int>, k: nat)
    requires g.Valid() && EndsBound(part, r) && k >= 1
    requires var stop := StopAt(g, part, r, used, SelShortestGroups, k, 0);
      Mixed(PartMatches(g, 0, part, r, used), stop) && |LengthsUpTo(PartMatches(g, 0, part, r, used), stop)| != k
    ensures Deepened(g, part, r, used, SelShortestGroups, k) == Enumerated(g, part, r, used, SelShortestGroups, k)
  {
    hide PartEvents, Items, Founds, Keep, Affordable, Choose, ChooseAll, Short, SortedByLength, StopAt, Lengths, LengthsUpTo;
    var all := PartMatches(g, 0, part, r, used);
    var len: int := StopAt(g, part, r, used, SelShortestGroups, k, 0);
    var some := PartMatches(g, len + 1, part, r, used);
    StopSettled(g, part, r, used, SelShortestGroups, k, 0);
    if Cut !in PartEvents(g, len + 1, Inner(part), r, used) {
      UncutExact(g, len + 1, part, r, used);
    } else {
      var x, y :| x in all && y in all && |x.path.rels| == len == |y.path.rels| && Tailless(x) && !Tailless(y);
      AtTie(g, part, r, used, y);
      LimitedShort(g, len, part, r, used);
      LimitedExact(g, len + 1, part, r, used);
      KeepMember(len + 1, all);
      forall m | m in all
        ensures ItemOf(PathVar(part), Finish(Inner(part), m)).length == |m.path.rels|
      {
        MatchShape(g, part, r, used, m);
      }
      ShortLengths(part, all, len - 1);
      OneLengthFewer(all, len);
      SettledByShort(SelShortestGroups, k, Items(part, all), len - 1);
      SettledByShort(SelShortestGroups, k, Items(part, some), len - 1);
      ChooseBound(g, part, r, used, SelShortestGroups, k, all);
      ChooseBound(g, part, r, used, SelShortestGroups, k, some);
    }
  }

  lemma OneLengthFewer(ms: seq<Match>, len: int)
    ensures |LengthsUpTo(ms, len)| <= |LengthsUpTo(ms, len - 1)| + 1
  {
    var all, fewer := LengthsUpTo(ms, len), LengthsUpTo(ms, len - 1);
    forall l | l in all
      ensures l in fewer + {len}
    {
      var m :| m in ms && |m.path.rels| <= len && |m.path.rels| == l;
      assert l <= len - 1 ==> l in fewer;
    }
    SubsetSize(all, fewer + {len});
  }

  /** One call of `SHORTEST k GROUPS` loses matches exactly when the `k`th smallest length is mixed. */
  lemma GroupsAgreeIff(g: Graph, part: Part, r: Row, used: set<int>, k: nat)
    requires g.Valid() && EndsBound(part, r) && k >= 1
    ensures Deepened(g, part, r, used, SelShortestGroups, k) == Enumerated(g, part, r, used, SelShortestGroups, k) <==>
      forall len: nat :: Mixed(PartMatches(g, 0, part, r, used), len) ==> |LengthsUpTo(PartMatches(g, 0, part, r, used), len)| != k
  {
    hide PartMatches, Deepened, Enumerated, StopAt, LengthsUpTo, Tailless;
    var all := PartMatches(g, 0, part, r, used);
    var stop := StopAt(g, part, r, used, SelShortestGroups, k, 0);
    if forall len: nat :: Mixed(all, len) ==> |LengthsUpTo(all, len)| != k {
      if Mixed(all, stop) {
        GroupsPastTie(g, part, r, used, k);
      } else {
        AgreesUnmixed(g, part, r, used, SelShortestGroups, k);
      }
    } else {
      var len: nat :| Mixed(all, len) && |LengthsUpTo(all, len)| == k;
      var x, y :| x in all && y in all && |x.path.rels| == len == |y.path.rels| && Tailless(x) && !Tailless(y);
      var k' := TieLoses(g, part, r, used, x, y);
    }
  }

  lemma {:induction false} SameStop(g: Graph, part: Part, r: Row, used: set<int>, k: nat, limit: nat)
    requires limit <= |g.rels| + 1
    ensures StopAt(g, part, r, used, SelAllShortest, k, limit) == StopAt(g, part, r, used, SelShortestGroups, 1, limit)
    decreases |g.rels| + 1 - limit
  {
    hide PartEvents, Items, Founds, Satisfied;
    var its := Items(part, Founds(PartEvents(g, limit + 1, Inner(part), r, used)));
    SameSatisfied(k, its);
    if !Satisfied(SelShortestGroups, 1, its) && Cut in PartEvents(g, limit + 1, Inner(part), r, used) {
      if limit > |g.rels| {
        UncutBeyond(g, limit + 1, part, r, used);
      }
      SameStop(g, part, r, used, k, limit + 1);
    }
  }

  lemma SameSatisfied(k: nat, its: seq<Item>)
    ensures Satisfied(SelAllShortest, k, its) == Satisfied(SelShortestGroups, 1, its)
  {
    if its != [] {
      assert its[0] in its && its[0].length as int in Lengths(its);
      SubsetSize({its[0].length as int}, Lengths(its));
    }
  }

  lemma {:induction false} SameChoice(k: nat, ms: seq<Item>, keys: seq<(int, int)>)
    ensures ChooseEach(SelAllShortest, k, ms, keys) == ChooseEach(SelShortestGroups, 1, ms, keys)
  {
    if keys != [] {
      SameChoice(k, ms, keys[..|keys| - 1]);
    }
  }

  /** One call of `ALL SHORTEST` loses matches exactly when the smallest length is mixed. */
  lemma AllShortestAgreeIff(g: Graph, part: Part, r: Row, used: set<int>, k: nat)
    requires g.Valid() && EndsBound(part, r) && k >= 1
    ensures Deepened(g, part, r, used, SelAllShortest, k) == Enumerated(g, part, r, used, SelAllShortest, k) <==>
      forall len: nat :: Mixed(PartMatches(g, 0, part, r, used), len) ==> |LengthsUpTo(PartMatches(g, 0, part, r, used), len)| != 1
  {
    hide PartMatches, Items, LengthsUpTo, Mixed, StopAt, ChooseEach;
    SameStop(g, part, r, used, k, 0);
    var some, all := Items(part, Reached(g, part, r, used, SelAllShortest, k)), Items(part, PartMatches(g, 0, part, r, used));
    SameChoice(k, some, Keys(some));
    SameChoice(k, all, Keys(all));
    GroupsAgreeIff(g, part, r, used, 1);
  }

  ghost predicate SameLengths(a: seq<Item>, b: seq<Item>) {
    |a| == |b| && forall i :: 0 <= i < |a| ==> a[i].length == b[i].length
  }

  /** `ANY SHORTEST` and `SHORTEST k` lose nothing even with ties: they deliver as many matches,
      of the same lengths, all of them matches of the pattern. */
  lemma AnyKeepLengths(g: Graph, part: Part, r: Row, used: set<int>, kind: Kind, k: nat)
    requires g.Valid() && EndsBound(part, r) && k >= 1 && (kind == SelAnyShortest || kind == SelShortest)
    ensures SameLengths(Deepened(g, part, r, used, kind, k), Enumerated(g, part, r, used, kind, k))
    ensures forall it :: it in Deepened(g, part, r, used, kind, k) ==> it in Items(part, PartMatches(g, 0, part, r, used))
  {
    hide PartEvents, Items, Founds, Keep, Affordable, Short, SortedByLength, StopAt, ChooseAll;
    var all := PartMatches(g, 0, part, r, used);
    var len := StopAt(g, part, r, used, kind, k, 0);
    var some := PartMatches(g, len + 1, part, r, used);
    StopSettled(g, part, r, used, kind, k, 0);
    ChooseBound(g, part, r, used, kind, k, all);
    SortedSize(Items(part, all));
    if Cut !in PartEvents(g, len + 1, Inner(part), r, used) {
      UncutExact(g, len + 1, part, r, used);
    } else {
      LimitedExact(g, len + 1, part, r, used);
      KeepMember(len + 1, all);
      LimitedShort(g, len, part, r, used);
      ChooseBound(g, part, r, used, kind, k, some);
      SortedSize(Items(part, some));
      SameLengthsFirst(Items(part, some), Items(part, all), len, if kind == SelAnyShortest then 1 else k);
    }
  }

  /** Deepening and full enumeration choose alike for every shortest-path selector exactly
      when no tie exists. */
  lemma DeepeningIff(g: Graph, part: Part, r: Row, used: set<int>)
    requires g.Valid() && EndsBound(part, r)
    ensures NoTie(PartMatches(g, 0, part, r, used)) <==>
      forall kind, k: nat :: ShortestKind(kind) && k >= 1 ==>
        Deepened(g, part, r, used, kind, k) == Enumerated(g, part, r, used, kind, k)
  {
    var all := PartMatches(g, 0, part, r, used);
    if NoTie(all) {
      forall kind, k: nat | ShortestKind(kind) && k >= 1
        ensures Deepened(g, part, r, used, kind, k) == Enumerated(g, part, r, used, kind, k)
      {
        DeepeningAgrees(g, part, r, used, kind, k);
      }
    } else {
      var x, y :| x in all && y in all && |x.path.rels| == |y.path.rels| && Tailless(x) && !Tailless(y);
      var k := TieLoses(g, part, r, used, x, y);
      assert ShortestKind(SelShortestGroups);
    }
  }
}
