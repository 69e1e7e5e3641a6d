/** The length limit of iterative deepening, against the unlimited enumeration: which
    matches a limit leaves, and when it cuts nothing. */
module Budget {
  import opened Seqs
  import opened Graphs
  import opened Walks
  import opened Patterns
  import opened Matches

  /** The relationships matched before the last link starts. */
  function Lead(m: Match): int {
    if m.chains == [] then 0 else |m.path.rels| - |m.chains[|m.chains| - 1].rels|
  }

  /** What a search under `limit` can still find: at most `limit - 1` relationships, and
      fewer than that before the last link starts. */
  predicate Affordable(limit: nat, m: Match) {
    |m.path.rels| + 1 <= limit && Lead(m) + 1 < limit
  }

  ghost function Keep(limit: nat, ms: seq<Match>): seq<Match> {
    if ms == [] then []
    else (if Affordable(limit, ms[0]) then [ms[0]] else []) + Keep(limit, ms[1..])
  }

  lemma {:induction false} KeepConcat(limit: nat, a: seq<Match>, b: seq<Match>)
    ensures Keep(limit, a + b) == Keep(limit, a) + Keep(limit, b)
  {
    if a == [] {
      assert a + b == b;
    } else {
      assert (a + b)[0] == a[0] && (a + b)[1..] == a[1..] + b;
      KeepConcat(limit, a[1..], b);
    }
  }

  lemma {:induction false} KeepNone(limit: nat, ms: seq<Match>)
    requires forall m :: m in ms ==> !Affordable(limit, m)
    ensures Keep(limit, ms) == []
  {
    if ms != [] {
      assert ms[0] in ms;
      KeepNone(limit, ms[1..]);
    }
  }

  ghost predicate SameKept(limit: nat, limited: seq<Event<Match>>, full: seq<Event<Match>>) {
    Founds(limited) == Keep(limit, Founds(full))
  }

  lemma SameKeptConcat(limit: nat, a: seq<Event<Match>>, a': seq<Event<Match>>, b: seq<Event<Match>>, b': seq<Event<Match>>)
    requires SameKept(limit, a, a') && SameKept(limit, b, b')
    ensures SameKept(limit, a + b, a' + b')
  {
    FoundsConcat(a, b);
    FoundsConcat(a', b');
    KeepConcat(limit, Founds(a'), Founds(b'));
  }

  lemma NoneKept(limit: nat, full: seq<Event<Match>>)
    requires forall m :: Found(m) in full ==> !Affordable(limit, m)
    ensures SameKept(limit, [], full) && SameKept(limit, [Cut], full)
  {
    forall m | m in Founds(full)
      ensures !Affordable(limit, m)
    {
      FoundsMember(full, m);
    }
    KeepNone(limit, Founds(full));
  }

  /** A completion has walked at least what was walked before it. */
  lemma {:induction false} CompletesLength(g: Graph, links: seq<Link>, m: Match, m': Match)
    requires links != [] && Completes(g, links, m, m')
    ensures |m.chains| < |m'.chains|
    ensures Lead(m') >= |m.path.rels| && |m'.path.rels| >= |m.path.rels| + |m'.chains[|m.chains|].rels|
    ensures |links| > 1 ==> Lead(m') >= |m.path.rels| + |m'.chains[|m.chains|].rels|
    decreases |links|
  {
    var c := m'.chains[|m.chains|];
    var next := Joined(m, Bind(links[0], c, At(m, c), m.row).value, c);
    if |links| > 1 {
      CompletesLength(g, links[1..], next, m');
    } else {
      assert m' == next && m'.chains[|m'.chains| - 1] == c;
    }
  }

  /** The limited walk finds exactly the affordable matches of the unlimited one, in its order. */
  lemma {:induction false} WalkKeeps(g: Graph, limit: nat, links: seq<Link>, m: Match)
    requires g.Valid() && limit > 0 && links != []
    ensures SameKept(limit, Walk(g, limit, links, m), Walk(g, 0, links, m))
    decreases |links|, Unused(g, m.used), 3, 0
  {
    if OverBudget(limit, |m.path.rels|) {
      forall m' | Found(m') in Walk(g, 0, links, m)
        ensures !Affordable(limit, m')
      {
        WalkSound(g, links, m, m');
        CompletesLength(g, links, m, m');
      }
      NoneKept(limit, Walk(g, 0, links, m));
    } else {
      assert m.used + Ids([]) == m.used;
      DfsKeeps(g, limit, links, m, Chain([], []));
    }
  }

  ghost predicate Paid(limit: nat, links: seq<Link>, m: Match, c: Chain) {
    links != [] && !OverBudget(limit, |m.path.rels|) && |m.path.rels| + |c.rels| + 1 <= limit
  }

  lemma {:induction false} DfsKeeps(g: Graph, limit: nat, links: seq<Link>, m: Match, c: Chain)
    requires g.Valid() && limit > 0 && Paid(limit, links, m, c) && Chained(g, links[0].rel, m, c)
    requires High(links[0].rel) < 0 || |c.rels| <= High(links[0].rel) || |c.rels| == 0
    ensures SameKept(limit, Dfs(g, limit, links, m, c), Dfs(g, 0, links, m, c))
    decreases |links|, Unused(g, m.used + Ids(c.rels)), 2, 0
  {
    ArriveKeeps(g, limit, links, m, c);
    OnwardKeeps(g, limit, links, m, c);
    SameKeptConcat(limit, Arrive(g, limit, links, m, c), Arrive(g, 0, links, m, c),
                   Onward(g, limit, links, m, c), Onward(g, 0, links, m, c));
  }

  lemma {:induction false} ArriveKeeps(g: Graph, limit: nat, links: seq<Link>, m: Match, c: Chain)
    requires g.Valid() && limit > 0 && Paid(limit, links, m, c)
    ensures SameKept(limit, Arrive(g, limit, links, m, c), Arrive(g, 0, links, m, c))
    decreases |links|, Unused(g, m.used + Ids(c.rels)), 0, 0
  {
    var b := Bind(links[0], c, At(m, c), m.row);
    if |c.rels| >= Low(links[0].rel) && b.Some? {
      var next := Joined(m, b.value, c);
      if |links| > 1 {
        WalkKeeps(g, limit, links[1..], next);
      } else {
        assert Walk(g, limit, links[1..], next) == [Found(next)] == Walk(g, 0, links[1..], next);
        assert Founds([Found(next)]) == [next] + Founds<Match>([]);
        assert Affordable(limit, next);
        assert Keep(limit, [next]) == [next] + Keep(limit, []);
      }
    }
  }

  lemma {:induction false} OnwardKeeps(g: Graph, limit: nat, links: seq<Link>, m: Match, c: Chain)
    requires g.Valid() && limit > 0 && Paid(limit, links, m, c) && Chained(g, links[0].rel, m, c)
    requires High(links[0].rel) < 0 || |c.rels| <= High(links[0].rel) || |c.rels| == 0
    ensures SameKept(limit, Onward(g, limit, links, m, c), Onward(g, 0, links, m, c))
    decreases |links|, Unused(g, m.used + Ids(c.rels)), 1, 0
  {
    if High(links[0].rel) < 0 || |c.rels| < High(links[0].rel) {
      var offers := Offers(g, links[0].rel.dir, At(m, c));
      OffersExact(g, links[0].rel.dir, At(m, c));
      if OverBudget(limit, |m.path.rels| + |c.rels|) {
        forall m' | Found(m') in Hops(g, 0, links, m, c, offers)
          ensures !Affordable(limit, m')
        {
          HopsSound(g, links, m, c, offers, m');
          CompletesLength(g, links, m, m');
        }
        NoneKept(limit, Hops(g, 0, links, m, c, offers));
      } else {
        HopsKeep(g, limit, links, m, c, offers);
      }
    }
  }

  lemma {:induction false} HopsKeep(g: Graph, limit: nat, links: seq<Link>, m: Match, c: Chain, offers: seq<Hop>)
    requires g.Valid() && limit > 0 && Paid(limit, links, m, c) && Chained(g, links[0].rel, m, c)
    requires !OverBudget(limit, |m.path.rels| + |c.rels|)
    requires High(links[0].rel) < 0 || |c.rels| < High(links[0].rel)
    requires forall h :: h in offers ==> h.rel in g.rels && Joins(links[0].rel.dir, h.rel, At(m, c), h.to)
    ensures SameKept(limit, Hops(g, limit, links, m, c, offers), Hops(g, 0, links, m, c, offers))
    decreases |links|, Unused(g, m.used + Ids(c.rels)), 0, |offers|
  {
    if offers != [] {
      var h := offers[0];
      if CanTake(g, links[0].rel, m.row, m.used + Ids(c.rels), h) {
        LongerUses(g, m.used, c, h);
        LongerChained(g, links[0].rel, m, c, h);
        DfsKeeps(g, limit, links, m, Longer(c, h));
      }
      HopsKeep(g, limit, links, m, c, offers[1..]);
      SameKeptConcat(limit, Take(g, limit, links, m, c, h), Take(g, 0, links, m, c, h),
                     Hops(g, limit, links, m, c, offers[1..]), Hops(g, 0, links, m, c, offers[1..]));
    }
  }

  /** A walk that was not cut is the unlimited walk. */
  lemma {:induction false} WalkUncut(g: Graph, limit: nat, links: seq<Link>, m: Match)
    requires Cut !in Walk(g, limit, links, m)
    ensures Walk(g, limit, links, m) == Walk(g, 0, links, m)
    decreases |links|, Unused(g, m.used), 3, 0
  {
    if links != [] {
      assert OverBudget(limit, |m.path.rels|) ==> Event<Match>.Cut in [Event<Match>.Cut];
      assert m.used + Ids([]) == m.used;
      DfsUncut(g, limit, links, m, Chain([], []));
    }
  }

  lemma {:induction false} DfsUncut(g: Graph, limit: nat, links: seq<Link>, m: Match, c: Chain)
    requires links != [] && Cut !in Dfs(g, limit, links, m, c)
    ensures Dfs(g, limit, links, m, c) == Dfs(g, 0, links, m, c)
    decreases |links|, Unused(g, m.used + Ids(c.rels)), 2, 0
  {
    var b := Bind(links[0], c, At(m, c), m.row);
    if |c.rels| >= Low(links[0].rel) && b.Some? {
      WalkUncut(g, limit, links[1..], Joined(m, b.value, c));
    }
    if High(links[0].rel) < 0 || |c.rels| < High(links[0].rel) {
      assert Cut !in Onward(g, limit, links, m, c);
      assert OverBudget(limit, |m.path.rels| + |c.rels|) ==> Event<Match>.Cut in [Event<Match>.Cut];
      HopsUncut(g, limit, links, m, c, Offers(g, links[0].rel.dir, At(m, c)));
    }
  }

  lemma {:induction false} HopsUncut(g: Graph, limit: nat, links: seq<Link>, m: Match, c: Chain, offers: seq<Hop>)
    requires links != [] && forall h :: h in offers ==> h.rel in g.rels
    requires Cut !in Hops(g, limit, links, m, c, offers)
    ensures Hops(g, limit, links, m, c, offers) == Hops(g, 0, links, m, c, offers)
    decreases |links|, Unused(g, m.used + Ids(c.rels)), 0, |offers|
  {
    if offers != [] {
      var h := offers[0];
      if CanTake(g, links[0].rel, m.row, m.used + Ids(c.rels), h) {
        LongerUses(g, m.used, c, h);
        DfsUncut(g, limit, links, m, Longer(c, h));
      }
      HopsUncut(g, limit, links, m, c, offers[1..]);
    }
  }

  /** The path of a partial match is a trail of used relationships. */
  ghost predicate Trailing(g: Graph, m: Match, rels: seq<Rel>) {
    && NoRepeat(m.path.rels + rels)
    && forall r :: r in m.path.rels + rels ==> r in g.rels && r.id in m.used + Ids(rels)
  }

  lemma TrailingFits(g: Graph, m: Match, rels: seq<Rel>)
    requires Trailing(g, m, rels)
    ensures |m.path.rels| + |rels| <= |g.rels|
  {
    DistinctFits(m.path.rels + rels, g.rels);
  }

  lemma TrailingLonger(g: Graph, m: Match, c: Chain, h: Hop)
    requires Trailing(g, m, c.rels) && h.rel in g.rels && h.rel.id !in m.used + Ids(c.rels)
    ensures Trailing(g, m, Longer(c, h).rels)
  {
    IdsPush(c.rels, h.rel);
    var all := m.path.rels + c.rels;
    assert m.path.rels + Longer(c, h).rels == all + [h.rel];
    forall i | 0 <= i < |all|
      ensures all[i].id != h.rel.id
    {
      assert all[i] in all;
    }
  }

  /** A limit beyond the number of relationships cuts nothing. */
  lemma {:induction false} WalkFits(g: Graph, limit: nat, links: seq<Link>, m: Match)
    requires limit > |g.rels| + 1 && Trailing(g, m, [])
    ensures Cut !in Walk(g, limit, links, m)
    decreases |links|, Unused(g, m.used), 3, 0
  {
    if links != [] {
      TrailingFits(g, m, []);
      assert m.used + Ids([]) == m.used;
      DfsFits(g, limit, links, m, Chain([], []));
    }
  }

  lemma {:induction false} DfsFits(g: Graph, limit: nat, links: seq<Link>, m: Match, c: Chain)
    requires limit > |g.rels| + 1 && links != [] && Trailing(g, m, c.rels)
    ensures Cut !in Dfs(g, limit, links, m, c)
    decreases |links|, Unused(g, m.used + Ids(c.rels)), 2, 0
  {
    TrailingFits(g, m, c.rels);
    var b := Bind(links[0], c, At(m, c), m.row);
    if |c.rels| >= Low(links[0].rel) && b.Some? {
      var next := Joined(m, b.value, c);
      assert next.path.rels + [] == m.path.rels + c.rels && next.used + Ids([]) == m.used + Ids(c.rels);
      WalkFits(g, limit, links[1..], next);
    }
    HopsFit(g, limit, links, m, c, Offers(g, links[0].rel.dir, At(m, c)));
  }

  lemma {:induction false} HopsFit(g: Graph, limit: nat, links: seq<Link>, m: Match, c: Chain, offers: seq<Hop>)
    requires limit > |g.rels| + 1 && links != [] && Trailing(g, m, c.rels)
    requires forall h :: h in offers ==> h.rel in g.rels
    ensures Cut !in Hops(g, limit, links, m, c, offers)
    decreases |links|, Unused(g, m.used + Ids(c.rels)), 0, |offers|
  {
    if offers != [] {
      var h := offers[0];
      if CanTake(g, links[0].rel, m.row, m.used + Ids(c.rels), h) {
        LongerUses(g, m.used, c, h);
        TrailingLonger(g, m, c, h);
        DfsFits(g, limit, links, m, Longer(c, h));
      }
      HopsFit(g, limit, links, m, c, offers[1..]);
    }
  }
}
