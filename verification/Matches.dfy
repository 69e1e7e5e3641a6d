/** The enumeration `walk` performs, as a stream of events, and what it enumerates:
    every completion of a partial match, each once. */
module Matches {
  import opened Seqs
  import opened Graphs
  import opened Walks
  import opened Patterns

  /** `Cut` marks a place where the length limit stopped the walk. */
  datatype Event<T> = Cut | Found(value: T)

  ghost function Founds<T>(evs: seq<Event<T>>): seq<T> {
    if evs == [] then []
    else (match evs[0] case Cut => [] case Found(x) => [x]) + Founds(evs[1..])
  }

  lemma {:induction false} FoundsConcat<T>(a: seq<Event<T>>, b: seq<Event<T>>)
    ensures Founds(a + b) == Founds(a) + Founds(b)
  {
    if a == [] {
      assert a + b == b;
    } else {
      assert (a + b)[0] == a[0] && (a + b)[1..] == a[1..] + b;
      FoundsConcat(a[1..], b);
    }
  }

  lemma {:induction false} FoundsMember<T>(evs: seq<Event<T>>, x: T)
    ensures x in Founds(evs) <==> Found(x) in evs
  {
    if evs != [] {
      FoundsMember(evs[1..], x);
      assert evs == [evs[0]] + evs[1..];
    }
  }

  /** `overBudget`: with limit 0 there is none, otherwise paths stay below the limit. */
  predicate OverBudget(limit: nat, n: nat) {
    limit > 0 && n + 1 >= limit
  }

  ghost function Unused(g: Graph, used: set<int>): set<int> {
    Ids(g.rels) - used
  }

  /** Everything `walk` does from a partial match on, over the remaining links. */
  ghost function Walk(g: Graph, limit: nat, links: seq<Link>, m: Match): seq<Event<Match>>
    decreases |links|, Unused(g, m.used), 3, 0
  {
    if links == [] then [Found(m)]
    else if OverBudget(limit, |m.path.rels|) then [Cut]
    else
      assert m.used + Ids([]) == m.used;
      Dfs(g, limit, links, m, Chain([], []))
  }

  /** The first link has consumed the chain `c`: it may end here, or go on. */
  ghost function Dfs(g: Graph, limit: nat, links: seq<Link>, m: Match, c: Chain): seq<Event<Match>>
    requires links != []
    decreases |links|, Unused(g, m.used + Ids(c.rels)), 2, 0
  {
    Arrive(g, limit, links, m, c) + Onward(g, limit, links, m, c)
  }

  ghost function Arrive(g: Graph, limit: nat, links: seq<Link>, m: Match, c: Chain): seq<Event<Match>>
    requires links != []
    decreases |links|, Unused(g, m.used + Ids(c.rels)), 0, 0
  {
    if |c.rels| < Low(links[0].rel) then []
    else
      match Bind(links[0], c, At(m, c), m.row)
      case None => []
      case Some(r2) => Walk(g, limit, links[1..], Joined(m, r2, c))
  }

  ghost function Onward(g: Graph, limit: nat, links: seq<Link>, m: Match, c: Chain): seq<Event<Match>>
    requires links != []
    decreases |links|, Unused(g, m.used + Ids(c.rels)), 1, 0
  {
    if High(links[0].rel) >= 0 && |c.rels| >= High(links[0].rel) then []
    else if OverBudget(limit, |m.path.rels| + |c.rels|) then [Cut]
    else
      Hops(g, limit, links, m, c, Offers(g, links[0].rel.dir, At(m, c)))
  }

  ghost function Hops(g: Graph, limit: nat, links: seq<Link>, m: Match, c: Chain, offers: seq<Hop>): seq<Event<Match>>
    requires links != [] && forall h :: h in offers ==> h.rel in g.rels
    decreases |links|, Unused(g, m.used + Ids(c.rels)), 0, |offers|
  {
    if offers == [] then []
    else Take(g, limit, links, m, c, offers[0]) + Hops(g, limit, links, m, c, offers[1..])
  }

  ghost function Take(g: Graph, limit: nat, links: seq<Link>, m: Match, c: Chain, h: Hop): seq<Event<Match>>
    requires links != [] && h.rel in g.rels
    decreases |links|, Unused(g, m.used + Ids(c.rels)), 0, 0
  {
    if !CanTake(g, links[0].rel, m.row, m.used + Ids(c.rels), h) then []
    else
      LongerUses(g, m.used, c, h);
      Dfs(g, limit, links, m, Longer(c, h))
  }

  function Longer(c: Chain, h: Hop): Chain {
    Chain(c.rels + [h.rel], c.nodes + [h.to])
  }

  lemma IdsPush(rels: seq<Rel>, rel: Rel)
    ensures Ids(rels + [rel]) == Ids(rels) + {rel.id}
  {
    forall x | x in Ids(rels) + {rel.id}
      ensures x in Ids(rels + [rel])
    {
      if x in Ids(rels) {
        var r :| r in rels && r.id == x;
        assert r in rels + [rel];
      } else {
        assert rel in rels + [rel];
      }
    }
  }

  lemma LongerUses(g: Graph, used: set<int>, c: Chain, h: Hop)
    ensures used + Ids(Longer(c, h).rels) == used + Ids(c.rels) + {h.rel.id}
    ensures h.rel in g.rels && h.rel.id !in used + Ids(c.rels) ==>
        Unused(g, used + Ids(Longer(c, h).rels)) < Unused(g, used + Ids(c.rels))
  {
    IdsPush(c.rels, h.rel);
    if h.rel in g.rels && h.rel.id !in used + Ids(c.rels) {
      assert h.rel.id in Unused(g, used + Ids(c.rels));
    }
  }

  // ------------------------------------------------------- what is enumerated

  /** One admissible traversal from `from`, ignoring what has been used. */
  predicate Hopped(g: Graph, rp: RelPat, r: Row, from: int, h: Hop) {
    h.rel in g.rels && Joins(rp.dir, h.rel, from, h.to) && rp.matches(h.rel, r) && h.to in g.nodes
  }

  predicate HopOk(g: Graph, rp: RelPat, m: Match, c: Chain, i: nat)
    requires i < |c.rels| && |c.nodes| == |c.rels|
  {
    Hopped(g, rp, m.row, if i == 0 then m.at else c.nodes[i - 1], Hop(c.rels[i], c.nodes[i]))
  }

  /** `c` is a chain of admissible traversals from the current node that repeats no
      relationship and uses none that is already used. */
  ghost predicate Chained(g: Graph, rp: RelPat, m: Match, c: Chain) {
    && |c.nodes| == |c.rels|
    && (forall i :: 0 <= i < |c.rels| ==> HopOk(g, rp, m, c, i))
    && NoRepeat(c.rels)
    && (forall i :: 0 <= i < |c.rels| ==> c.rels[i].id !in m.used)
  }

  predicate InRange(rp: RelPat, n: nat) {
    n >= Low(rp) && (High(rp) < 0 || n <= High(rp))
  }

  /** `m'` completes `m`: it chooses for every remaining link a chain whose length is in range
      and whose binding succeeds. */
  ghost predicate Completes(g: Graph, links: seq<Link>, m: Match, m': Match)
    decreases |links|
  {
    if links == [] then m' == m
    else
      && |m'.chains| > |m.chains|
      && var c := m'.chains[|m.chains|];
      && Chained(g, links[0].rel, m, c)
      && InRange(links[0].rel, |c.rels|)
      && var b := Bind(links[0], c, At(m, c), m.row);
      && b.Some?
      && Completes(g, links[1..], Joined(m, b.value, c), m')
  }

  ghost predicate Prefixed(c: Chain, d: Chain) {
    c.rels <= d.rels && c.nodes <= d.nodes
  }

  /** A completion whose chain for the first link continues `c`. */
  ghost predicate CompletesVia(g: Graph, links: seq<Link>, m: Match, c: Chain, m': Match) {
    && links != [] && Completes(g, links, m, m') && Prefixed(c, m'.chains[|m.chains|])
  }

  lemma {:induction false} CompletesChains(g: Graph, links: seq<Link>, m: Match, m': Match)
    requires Completes(g, links, m, m')
    ensures m.chains <= m'.chains && |m'.chains| == |m.chains| + |links|
    decreases |links|
  {
    if links != [] {
      var c := m'.chains[|m.chains|];
      CompletesChains(g, links[1..], Joined(m, Bind(links[0], c, At(m, c), m.row).value, c), m');
    }
  }

  lemma LongerChained(g: Graph, rp: RelPat, m: Match, c: Chain, h: Hop)
    requires Chained(g, rp, m, c) && Hopped(g, rp, m.row, At(m, c), h) && h.rel.id !in m.used + Ids(c.rels)
    ensures Chained(g, rp, m, Longer(c, h))
  {
    var d := Longer(c, h);
    forall i | 0 <= i < |c.rels|
      ensures c.rels[i].id != h.rel.id
    {
      assert c.rels[i] in c.rels;
    }
    forall i | 0 <= i < |d.rels|
      ensures HopOk(g, rp, m, d, i)
    {
      if i < |c.rels| {
        assert HopOk(g, rp, m, c, i);
      }
    }
  }

  /** Everything the walk finds is a completion. */
  lemma {:induction false} WalkSound(g: Graph, links: seq<Link>, m: Match, m': Match)
    requires g.Valid() && Found(m') in Walk(g, 0, links, m)
    ensures Completes(g, links, m, m')
    decreases |links|, Unused(g, m.used), 3, 0
  {
    if links != [] {
      assert m.used + Ids([]) == m.used;
      DfsSound(g, links, m, Chain([], []), m');
    }
  }

  lemma {:induction false} DfsSound(g: Graph, links: seq<Link>, m: Match, c: Chain, m': Match)
    requires g.Valid() && links != [] && Chained(g, links[0].rel, m, c)
    requires High(links[0].rel) < 0 || |c.rels| <= High(links[0].rel) || |c.rels| == 0
    requires Found(m') in Dfs(g, 0, links, m, c)
    ensures CompletesVia(g, links, m, c, m')
    decreases |links|, Unused(g, m.used + Ids(c.rels)), 2, 0
  {
    if Found(m') in Arrive(g, 0, links, m, c) {
      ArriveSound(g, links, m, c, m');
    } else {
      OffersExact(g, links[0].rel.dir, At(m, c));
      HopsSound(g, links, m, c, Offers(g, links[0].rel.dir, At(m, c)), m');
    }
  }

  lemma {:induction false} ArriveSound(g: Graph, links: seq<Link>, m: Match, c: Chain, m': Match)
    requires g.Valid() && links != [] && Chained(g, links[0].rel, m, c)
    requires High(links[0].rel) < 0 || |c.rels| <= High(links[0].rel) || |c.rels| == 0
    requires Found(m') in Arrive(g, 0, links, m, c)
    ensures CompletesVia(g, links, m, c, m') && m'.chains[|m.chains|] == c
    decreases |links|, Unused(g, m.used + Ids(c.rels)), 0, 0
  {
    var next := Joined(m, Bind(links[0], c, At(m, c), m.row).value, c);
    WalkSound(g, links[1..], next, m');
    CompletesChains(g, links[1..], next, m');
  }

  lemma {:induction false} HopsSound(g: Graph, links: seq<Link>, m: Match, c: Chain, offers: seq<Hop>, m': Match)
    requires g.Valid() && links != [] && Chained(g, links[0].rel, m, c)
    requires High(links[0].rel) < 0 || |c.rels| < High(links[0].rel)
    requires forall h :: h in offers ==> h.rel in g.rels && Joins(links[0].rel.dir, h.rel, At(m, c), h.to)
    requires Found(m') in Hops(g, 0, links, m, c, offers)
    ensures exists h :: h in offers && CompletesVia(g, links, m, Longer(c, h), m')
    decreases |links|, Unused(g, m.used + Ids(c.rels)), 0, |offers|
  {
    var h := offers[0];
    if Found(m') in Take(g, 0, links, m, c, h) {
      LongerUses(g, m.used, c, h);
      LongerChained(g, links[0].rel, m, c, h);
      DfsSound(g, links, m, Longer(c, h), m');
      assert h in offers;
    } else {
      HopsSound(g, links, m, c, offers[1..], m');
      var k :| k in offers[1..] && CompletesVia(g, links, m, Longer(c, k), m');
      assert k in offers;
    }
  }

  /** Every completion is found. */
  lemma {:induction false} WalkComplete(g: Graph, links: seq<Link>, m: Match, m': Match)
    requires g.Valid() && Completes(g, links, m, m')
    ensures Found(m') in Walk(g, 0, links, m)
    decreases |links|, 1, 0
  {
    if links != [] {
      DfsComplete(g, links, m, Chain([], []), m');
    }
  }

  lemma {:induction false} DfsComplete(g: Graph, links: seq<Link>, m: Match, c: Chain, m': Match)
    requires g.Valid() && CompletesVia(g, links, m, c, m') && |c.nodes| == |c.rels|
    ensures Found(m') in Dfs(g, 0, links, m, c)
    decreases |links|, 0, |m'.chains[|m.chains|].rels| - |c.rels|
  {
    var d := m'.chains[|m.chains|];
    if |c.rels| == |d.rels| {
      assert c == d;
      WalkComplete(g, links[1..], Joined(m, Bind(links[0], c, At(m, c), m.row).value, c), m');
    } else {
      var i := |c.rels|;
      var h := Hop(d.rels[i], d.nodes[i]);
      assert HopOk(g, links[0].rel, m, d, i);
      assert At(m, c) == if i == 0 then m.at else d.nodes[i - 1];
      assert h.rel.id !in Ids(c.rels) by {
        if h.rel.id in Ids(c.rels) {
          assert false;
        }
      }
      DfsComplete(g, links, m, Longer(c, h), m');
      OffersExact(g, links[0].rel.dir, At(m, c));
      HopsContain(g, 0, links, m, c, Offers(g, links[0].rel.dir, At(m, c)), h, Found(m'));
    }
  }

  lemma {:induction false} HopsContain(g: Graph, limit: nat, links: seq<Link>, m: Match, c: Chain, offers: seq<Hop>,
                                       h: Hop, ev: Event<Match>)
    requires links != [] && h in offers && forall k :: k in offers ==> k.rel in g.rels
    requires ev in Take(g, limit, links, m, c, h)
    ensures ev in Hops(g, limit, links, m, c, offers)
    decreases |offers|
  {
    if offers[0] != h {
      HopsContain(g, limit, links, m, c, offers[1..], h, ev);
    }
  }

  /** Nothing is found twice, and without a limit nothing is cut. */
  lemma {:induction false} WalkDistinct(g: Graph, links: seq<Link>, m: Match)
    requires g.Valid()
    ensures Distinct(Walk(g, 0, links, m)) && Cut !in Walk(g, 0, links, m)
    decreases |links|, Unused(g, m.used), 3, 0
  {
    if links != [] {
      assert m.used + Ids([]) == m.used;
      DfsDistinct(g, links, m, Chain([], []));
    }
  }

  lemma {:induction false} DfsDistinct(g: Graph, links: seq<Link>, m: Match, c: Chain)
    requires g.Valid() && links != [] && Chained(g, links[0].rel, m, c)
    requires High(links[0].rel) < 0 || |c.rels| <= High(links[0].rel) || |c.rels| == 0
    ensures Distinct(Dfs(g, 0, links, m, c)) && Cut !in Dfs(g, 0, links, m, c)
    decreases |links|, Unused(g, m.used + Ids(c.rels)), 2, 0
  {
    var arrive := Arrive(g, 0, links, m, c);
    var onward := Onward(g, 0, links, m, c);
    if arrive != [] {
      WalkDistinct(g, links[1..], Joined(m, Bind(links[0], c, At(m, c), m.row).value, c));
    }
    if onward != [] {
      OffersExact(g, links[0].rel.dir, At(m, c));
      HopsDistinct(g, links, m, c, Offers(g, links[0].rel.dir, At(m, c)));
    }
    forall e | e in arrive
      ensures e !in onward
    {
      if e in onward {
        ArriveSound(g, links, m, c, e.value);
        HopsSound(g, links, m, c, Offers(g, links[0].rel.dir, At(m, c)), e.value);
        assert false;
      }
    }
    DistinctConcat(arrive, onward);
  }

  lemma {:induction false} HopsDistinct(g: Graph, links: seq<Link>, m: Match, c: Chain, offers: seq<Hop>)
    requires g.Valid() && links != [] && Chained(g, links[0].rel, m, c) && Distinct(offers)
    requires High(links[0].rel) < 0 || |c.rels| < High(links[0].rel)
    requires forall h :: h in offers ==> h.rel in g.rels && Joins(links[0].rel.dir, h.rel, At(m, c), h.to)
    ensures Distinct(Hops(g, 0, links, m, c, offers)) && Cut !in Hops(g, 0, links, m, c, offers)
    decreases |links|, Unused(g, m.used + Ids(c.rels)), 0, |offers|
  {
    if offers != [] {
      var h := offers[0];
      var here := Take(g, 0, links, m, c, h);
      var rest := Hops(g, 0, links, m, c, offers[1..]);
      if here != [] {
        LongerUses(g, m.used, c, h);
        LongerChained(g, links[0].rel, m, c, h);
        DfsDistinct(g, links, m, Longer(c, h));
      }
      HopsDistinct(g, links, m, c, offers[1..]);
      forall e | e in here
        ensures e !in rest
      {
        if e in rest {
          DfsSound(g, links, m, Longer(c, h), e.value);
          HopsSound(g, links, m, c, offers[1..], e.value);
          assert false;
        }
      }
      DistinctConcat(here, rest);
    }
  }
}
