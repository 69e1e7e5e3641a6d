/** `matchSelected`: collecting the matches of a part, deepening, and reducing every partition. */
module Selected {
  import opened Seqs
  import opened Graphs
  import opened Walks
  import opened Patterns
  import opened Matches
  import opened Budget
  import opened Parts
  import opened Matchers
  import opened Selectors
  import opened Deepening
  import opened TieShapes

  const MAX_SELECTED_MATCHES := 1000000

  // --------------------------------------------------------------- collecting

  ghost function FinishAll(part: Part, ms: seq<Match>): seq<Row> {
    if ms == [] then [] else [Finish(part, ms[0])] + FinishAll(part, ms[1..])
  }

  /** Matching a single part emits one row per match. */
  lemma {:induction false} SinglePart(g: Graph, limit: nat, part: Part, evs: seq<Event<Match>>)
    ensures Founds(Then(g, limit, [part], evs)) == FinishAll(part, Founds(evs))
    ensures Cut in Then(g, limit, [part], evs) <==> Cut in evs
  {
    if evs != [] {
      SinglePart(g, limit, part, evs[1..]);
      FoundsConcat(Next(g, limit, [part], evs[0]), Then(g, limit, [part], evs[1..]));
      assert [part][1..] == [];
      match evs[0]
      case Cut =>
        assert Founds<Row>([Cut]) == [] + Founds<Row>([]);
        assert Founds(evs) == Founds(evs[1..]);
      case Found(m) =>
        var row := Finish(part, m);
        assert Next(g, limit, [part], evs[0]) == [Found(row)];
        assert Founds([Found(row)]) == [row] + Founds<Row>([]);
        assert Founds(evs) == [m] + Founds(evs[1..]);
    }
  }

  lemma {:induction false} FinishedItems(part: Part, ms: seq<Match>)
    ensures |FinishAll(Inner(part), ms)| == |ms| == |Items(part, ms)|
    ensures forall i :: 0 <= i < |ms| ==>
        Items(part, ms)[i] == ItemOf(PathVar(part), FinishAll(Inner(part), ms)[i])
  {
    if ms != [] {
      FinishedItems(part, ms[1..]);
    }
  }

  /** The collector's bound: enough matches, or one more than may be enumerated. */
  function CollectCap(stopAfter: nat): nat {
    if 0 < stopAfter <= MAX_SELECTED_MATCHES then stopAfter else MAX_SELECTED_MATCHES + 1
  }

  ghost predicate Grouped(items: seq<Item>, groups: map<(int, int), seq<Item>>, order: seq<(int, int)>) {
    && order == Keys(items)
    && (forall key :: key in order <==> key in groups)
    && forall key :: key in groups ==> groups[key] == GroupOf(items, key)
  }

  /** Runs the matcher on the inner pattern, with the collector's bound. */
  method RunInner(g: Graph, part: Part, r: Row, used: set<int>, relLimit: nat, cap: nat)
    returns (rows: seq<Row>, pruned: bool)
    requires g.Valid() && cap > 0
    ensures var all := FinishAll(Inner(part), PartMatches(g, relLimit, part, r, used));
      && rows == (if |all| >= cap then all[..cap] else all)
      && (|all| < cap ==> (pruned <==> Cut in PartEvents(g, relLimit, Inner(part), r, used)))
  {
    hide PartEvents, Founds, FinishAll;
    var inner := Inner(part);
    var matcher := new Matcher(g, [inner], relLimit, cap, used);
    var stop := matcher.Rec(0, r);
    assert [inner][0..] == [inner];
    SinglePart(g, relLimit, inner, PartEvents(g, relLimit, inner, r, used));
    rows, pruned := matcher.out, matcher.relPruned;
    ghost var all := FinishAll(inner, PartMatches(g, relLimit, part, r, used));
    assert [] + all == all;
  }

  /** `collect`: runs the matcher and files every match under its (start, end) pair. */
  method Collect(g: Graph, part: Part, r: Row, used: set<int>, relLimit: nat, stopAfter: nat)
    returns (ok: bool, groups: map<(int, int), seq<Item>>, order: seq<(int, int)>, pruned: bool, ghost items: seq<Item>)
    requires g.Valid()
    ensures var all := Items(part, PartMatches(g, relLimit, part, r, used));
      && (ok <==> |all| <= MAX_SELECTED_MATCHES || 0 < stopAfter <= MAX_SELECTED_MATCHES)
      && (ok ==> items == if |all| >= CollectCap(stopAfter) then all[..CollectCap(stopAfter)] else all)
    ensures ok && stopAfter == 0 ==> (pruned <==> Cut in PartEvents(g, relLimit, Inner(part), r, used))
    ensures ok ==> Grouped(items, groups, order)
  {
    hide PartEvents, Founds, Items, FinishAll, ItemOf, PartMatches, Grouped;
    var rows;
    rows, pruned := RunInner(g, part, r, used, relLimit, CollectCap(stopAfter));
    FinishedItems(part, PartMatches(g, relLimit, part, r, used));
    groups, order, items, ok := map[], [], [], false;
    if |rows| > MAX_SELECTED_MATCHES {
      return;
    }
    ok := true;
    NothingGrouped();
    for i := 0 to |rows|
      invariant |items| == i && forall k :: 0 <= k < i ==> items[k] == ItemOf(PathVar(part), rows[k])
      invariant Grouped(items, groups, order)
    {
      var item := ItemOf(PathVar(part), rows[i]);
      FileItem(items, groups, order, item);
      if item.key !in groups {
        order := order + [item.key];
        groups := groups[item.key := [item]];
      } else {
        groups := groups[item.key := groups[item.key] + [item]];
      }
      items := items + [item];
    }
  }

  lemma NothingGrouped()
    ensures Grouped([], map[], [])
  {
  }

  lemma FileItem(items: seq<Item>, groups: map<(int, int), seq<Item>>, order: seq<(int, int)>, item: Item)
    requires Grouped(items, groups, order)
    ensures item.key !in groups ==> Grouped(items + [item], groups[item.key := [item]], order + [item.key])
    ensures item.key in groups ==> Grouped(items + [item], groups[item.key := groups[item.key] + [item]], order)
  {
    var more := items + [item];
    assert more[..|more| - 1] == items;
    forall key
      ensures GroupOf(more, key) == GroupOf(items, key) + if item.key == key then [item] else []
    {
    }
    if item.key !in groups {
      NoGroup(items, item.key);
    }
  }

  lemma {:induction false} NoGroup(items: seq<Item>, key: (int, int))
    requires key !in Keys(items)
    ensures GroupOf(items, key) == []
  {
    if items != [] {
      NoGroup(items[..|items| - 1], key);
    }
  }

  // ----------------------------------------------------------------- reducing

  /** One step of the scan for leading groups. */
  lemma GroupsStep(ms: seq<Item>, i: nat, last: int, k: int)
    requires i <= |ms|
    ensures i == |ms| ==> Groups(ms[i..], last, k) == []
    ensures i < |ms| && ms[i].length == last ==> Groups(ms[i..], last, k) == [ms[i]] + Groups(ms[i + 1..], last, k)
    ensures i < |ms| && ms[i].length != last && k <= 0 ==> Groups(ms[i..], last, k) == []
    ensures i < |ms| && ms[i].length != last && k > 0 ==>
        Groups(ms[i..], last, k) == [ms[i]] + Groups(ms[i + 1..], ms[i].length, k - 1)
  {
    if i < |ms| {
      assert ms[i..][0] == ms[i] && ms[i..][1..] == ms[i + 1..];
    }
  }

  /** ALL SHORTEST: everything as short as the first. */
  method TakeShortest(ms: seq<Item>) returns (chosen: seq<Item>)
    requires ms != []
    ensures chosen == Groups(ms, -1, 1)
  {
    hide Groups;
    chosen := [ms[0]];
    var i := 1;
    assert ms[0..] == ms;
    GroupsStep(ms, 0, -1, 1);
    while i < |ms| && ms[i].length == ms[0].length
      invariant 1 <= i <= |ms|
      invariant Groups(ms, -1, 1) == chosen + Groups(ms[i..], ms[0].length, 0)
    {
      GroupsStep(ms, i, ms[0].length, 0);
      chosen := chosen + [ms[i]];
      i := i + 1;
    }
    GroupsStep(ms, i, ms[0].length, 0);
  }

  /** SHORTEST k GROUPS: stops where the (k+1)-th length begins. */
  method TakeGroups(ms: seq<Item>, k: nat) returns (chosen: seq<Item>)
    ensures chosen == Groups(ms, -1, k)
  {
    hide Groups;
    chosen := [];
    var distinct: nat, last: int := 0, -1;
    assert ms[0..] == ms;
    for i := 0 to |ms|
      invariant 0 <= distinct <= k
      invariant Groups(ms, -1, k) == chosen + Groups(ms[i..], last, k - distinct)
    {
      GroupsStep(ms, i, last, k - distinct);
      if ms[i].length != last {
        if distinct + 1 > k {
          return;
        }
        distinct, last := distinct + 1, ms[i].length;
      }
      chosen := chosen + [ms[i]];
    }
    GroupsStep(ms, |ms|, last, k - distinct);
  }

  /** The selector's `switch` over one sorted partition. */
  method Reduce(kind: Kind, k: nat, ms: seq<Item>) returns (chosen: seq<Item>)
    requires ms != []
    ensures chosen == Choose(kind, k, ms)
  {
    match kind
    case SelAll => chosen := ms;
    case SelAny => chosen := if |ms| < k then ms else ms[..k];
    case SelAnyShortest => chosen := ms[..1];
    case SelAllShortest => chosen := TakeShortest(ms);
    case SelShortest => chosen := if |ms| < k then ms else ms[..k];
    case SelShortestGroups => chosen := TakeGroups(ms, k);
  }

  /** The rows handed on: without the hidden path variable. */
  function Strip(part: Part, row: Row): Row {
    if part.v.Some? then row else row - {HIDDEN_PATH}
  }

  function StripAll(part: Part, items: seq<Item>): (rows: seq<Row>)
    ensures |rows| == |items|
    ensures forall i :: 0 <= i < |rows| ==> rows[i] == if part.v.Some? then items[i].row else items[i].row - {"\0path"}
  {
    if items == [] then [] else StripAll(part, items[..|items| - 1]) + [Strip(part, items[|items| - 1].row)]
  }

  lemma {:induction false} StripConcat(part: Part, a: seq<Item>, b: seq<Item>)
    ensures StripAll(part, a + b) == StripAll(part, a) + StripAll(part, b)
  {
    if b == [] {
      assert a + b == a;
    } else {
      assert (a + b)[..|a + b| - 1] == a + b[..|b| - 1];
      StripConcat(part, a, b[..|b| - 1]);
    }
  }

  lemma GroupNotEmpty(items: seq<Item>, key: (int, int))
    requires key in Keys(items)
    ensures GroupOf(items, key) != []
  {
  }

  /** Hands on the rows chosen from one partition. */
  method HandOn(part: Part, chosen: seq<Item>, before: seq<Row>) returns (out: seq<Row>)
    ensures out == before + StripAll(part, chosen)
  {
    hide Strip;
    out := before;
    for j := 0 to |chosen|
      invariant out == before + StripAll(part, chosen[..j])
    {
      assert chosen[..j + 1][..j] == chosen[..j];
      out := out + [Strip(part, chosen[j].row)];
    }
    assert chosen[..|chosen|] == chosen;
  }

  lemma ChooseNext(kind: Kind, k: nat, items: seq<Item>, order: seq<(int, int)>, i: nat)
    requires i < |order|
    ensures ChooseEach(kind, k, items, order[..i + 1])
         == ChooseEach(kind, k, items, order[..i]) + Choose(kind, k, SortedByLength(GroupOf(items, order[i])))
  {
    hide Choose, SortedByLength, GroupOf;
    assert order[..i + 1][..i] == order[..i];
  }

  method ReduceAll(part: Part, kind: Kind, k: nat, groups: map<(int, int), seq<Item>>, order: seq<(int, int)>,
                   ghost items: seq<Item>)
    returns (out: seq<Row>)
    requires Grouped(items, groups, order)
    ensures out == StripAll(part, ChooseAll(kind, k, items))
  {
    hide Choose, SortedByLength, GroupOf, Keys, StripAll, ChooseEach;
    out := [];
    NothingChosen(part, kind, k, items);
    for i := 0 to |order|
      invariant out == StripAll(part, ChooseEach(kind, k, items, order[..i]))
    {
      var key := order[i];
      assert key in order;
      GroupNotEmpty(items, key);
      SortedSize(groups[key]);
      var chosen := Reduce(kind, k, SortedByLength(groups[key]));
      ChooseNext(kind, k, items, order, i);
      StripConcat(part, ChooseEach(kind, k, items, order[..i]), chosen);
      out := HandOn(part, chosen, out);
    }
    assert order[..|order|] == order;
  }

  lemma NothingChosen(part: Part, kind: Kind, k: nat, items: seq<Item>)
    ensures StripAll(part, ChooseEach(kind, k, items, [])) == []
  {
  }

  /** The deepening loop: limits 0, 1, 2, ... until the lengths found determine the result or
      the limit cut nothing off. */
  method Deepen(g: Graph, part: Part, r: Row, used: set<int>, kind: Kind, k: nat)
    returns (ok: bool, groups: map<(int, int), seq<Item>>, order: seq<(int, int)>, ghost items: seq<Item>)
    requires g.Valid() && EndsBound(part, r)
    ensures ok <==> |Items(part, Reached(g, part, r, used, kind, k))| <= MAX_SELECTED_MATCHES
    ensures ok ==> items == Items(part, Reached(g, part, r, used, kind, k)) && Grouped(items, groups, order)
  {
    hide PartMatches, PartEvents, Items, Satisfied, EndsBound, Grouped;
    BoundLinks(part, r);
    var limit := 0;
    var pruned;
    UncutBeyond(g, |g.rels| + 2, part, r, used);
    while true
      invariant limit <= |g.rels| + 1
      invariant StopAt(g, part, r, used, kind, k, 0) == StopAt(g, part, r, used, kind, k, limit)
      decreases |g.rels| + 1 - limit
    {
      ok, groups, order, pruned, items := Collect(g, part, r, used, limit + 1, 0);
      if !ok {
        StopLater(g, part, r, used, kind, k, limit);
        return;
      }
      assert items == Items(part, PartMatches(g, limit + 1, part, r, used));
      var found := if order == [] then [] else if order[0] in groups then groups[order[0]] else [];
      OnlyGroup(g, limit + 1, part, r, used, items, groups, order);
      StopStep(g, part, r, used, kind, k, limit);
      if Satisfied(kind, k, found) || !pruned {
        break;
      }
      limit := limit + 1;
    }
  }

  lemma StopStep(g: Graph, part: Part, r: Row, used: set<int>, kind: Kind, k: nat, limit: nat)
    requires limit <= |g.rels| + 1
    ensures var go := !Satisfied(kind, k, Items(part, PartMatches(g, limit + 1, part, r, used)))
                   && Cut in PartEvents(g, limit + 1, Inner(part), r, used);
      && (go ==> limit <= |g.rels| && StopAt(g, part, r, used, kind, k, limit) == StopAt(g, part, r, used, kind, k, limit + 1))
      && (!go ==> StopAt(g, part, r, used, kind, k, limit) == limit)
  {
    hide Satisfied, Items, PartEvents, Founds;
    if limit > |g.rels| {
      UncutBeyond(g, limit + 1, part, r, used);
    }
  }

  /** Deepening applies: a shortest selector between bound ends. */
  predicate Deepens(part: Part, r: Row, kind: Kind) {
    ShortestKind(kind) && EndsBound(part, r)
  }

  /** The enumeration may stop at the first `k` matches: ANY k between bound ends. */
  predicate StopsEarly(part: Part, r: Row, kind: Kind) {
    kind == SelAny && EndsBound(part, r)
  }

  /** The rows are what the selector owes every (start, end) partition of the matches found, the
      partitions in first-seen order. */
  ghost predicate Chosen(part: Part, kind: Kind, k: nat, found: seq<Item>, rows: seq<Row>) {
    exists picks :: Selects(kind, k, found, picks) && rows == StripAll(part, Flat(picks))
  }

  lemma ChosenAll(part: Part, kind: Kind, k: nat, found: seq<Item>)
    requires k >= 1
    ensures Chosen(part, kind, k, found, StripAll(part, ChooseAll(kind, k, found)))
  {
    hide Selects, StripAll, ChooseAll;
    var picks := ChooseAllSelects(kind, k, found);
  }

  lemma FirstReduce(k: nat, all: seq<Item>)
    requires 1 <= k <= |all|
    ensures Reduces(SelAny, k, all, SortedByLength(all[..k])) && |SortedByLength(all[..k])| == k
  {
    hide SortedByLength, Layer, Ascending;
    var some, rest := all[..k], all[k..];
    SortedIs(some);
    SortedSize(some);
    assert all == some + rest;
    BagSum(some, rest);
    forall len: nat
      ensures Layer(SortedByLength(some), len) <= Layer(all, len)
    {
      LayerConcat(some, rest, len);
    }
  }

  lemma FlatOne(kept: seq<Item>)
    ensures Flat([kept]) == kept
  {
    assert [kept][..0] == [];
    assert Flat([kept]) == Flat([]) + kept;
  }

  /** The first `k` matches found are a choice of ANY k among all of them. */
  lemma ChosenEarly(part: Part, k: nat, all: seq<Item>, key: (int, int))
    requires 1 <= k <= |all| && forall i :: 0 <= i < |all| ==> all[i].key == key
    ensures Chosen(part, SelAny, k, all, StripAll(part, ChooseAll(SelAny, k, all[..k])))
  {
    hide StripAll, SortedByLength, Reduces, GroupOf, Keys, ChooseAll, Flat;
    var kept := SortedByLength(all[..k]);
    OneGroup(all, key);
    ChooseOne(SelAny, k, all[..k], key);
    FirstReduce(k, all);
    FlatOne(kept);
    assert ChooseAll(SelAny, k, all[..k]) == kept;
    assert Selects(SelAny, k, all, [kept]);
  }

  /** `matchSelected`. A shortest selector over bound ends deepens; every other selector
      reduces the full enumeration, except that ANY k over bound ends takes the first k. It fails
      exactly for k below 1 and if more matches are collected than the cap allows. */
  method MatchSelected(g: Graph, part: Part, r: Row, used: set<int>, kind: Kind, k: int)
    returns (res: Result<seq<Row>>)
    requires g.Valid()
    ensures var all := Items(part, PartMatches(g, 0, part, r, used));
      && (res.Ok? <==>
            && k >= 1
            && if Deepens(part, r, kind) then |Items(part, Reached(g, part, r, used, kind, k))| <= MAX_SELECTED_MATCHES
               else |all| <= MAX_SELECTED_MATCHES || (StopsEarly(part, r, kind) && k <= MAX_SELECTED_MATCHES))
      && (res.Ok? ==> res.value == StripAll(part,
            if Deepens(part, r, kind) then Deepened(g, part, r, used, kind, k)
            else ChooseAll(kind, k, if StopsEarly(part, r, kind) && |all| >= k then all[..k] else all)))
    ensures res.Ok? && Deepens(part, r, kind) && !TieShape(part.links) ==>
      res.value == StripAll(part, Enumerated(g, part, r, used, kind, k))
    ensures res.Ok? && !(Deepens(part, r, kind) && TieShape(part.links)) ==>
      Chosen(part, kind, k, Items(part, PartMatches(g, 0, part, r, used)), res.value)
    ensures res.Ok? && Deepens(part, r, kind) ==> Chosen(part, kind, k, Items(part, Reached(g, part, r, used, kind, k)), res.value)
  {
    hide PartMatches, PartEvents, Items, ChooseAll, EndsBound, TieShape, NoTie, StripAll, Reached, Grouped, Chosen;
    if k < 1 {
      return Error;
    }
    var groups: map<(int, int), seq<Item>>, order: seq<(int, int)>;
    ghost var items: seq<Item>;
    var ok, pruned;
    if Deepens(part, r, kind) {
      ok, groups, order, items := Deepen(g, part, r, used, kind, k);
      if !ok {
        return Error;
      }
      if !TieShape(part.links) {
        NoTieOutside(g, part, r, used);
        DeepeningAgrees(g, part, r, used, kind, k);
      }
    } else {
      var stopAfter := if StopsEarly(part, r, kind) then k else 0;
      ok, groups, order, pruned, items := Collect(g, part, r, used, 0, stopAfter);
      if !ok {
        return Error;
      }
    }
    var out := ReduceAll(part, kind, k, groups, order, items);
    res := Ok(out);
    ChosenAll(part, kind, k, items);
    if StopsEarly(part, r, kind) {
      AllOneKey(g, part, r, used);
      if k <= |Items(part, PartMatches(g, 0, part, r, used))| {
        ChosenEarly(part, k, Items(part, PartMatches(g, 0, part, r, used)), EndKey(part, r));
      }
    }
    if Deepens(part, r, kind) && !TieShape(part.links) {
      ChosenAll(part, kind, k, Items(part, PartMatches(g, 0, part, r, used)));
    }
  }

  lemma AllOneKey(g: Graph, part: Part, r: Row, used: set<int>)
    requires g.Valid() && EndsBound(part, r)
    ensures var all := Items(part, PartMatches(g, 0, part, r, used));
      forall i :: 0 <= i < |all| ==> all[i].key == EndKey(part, r)
  {
    hide PartMatches, Items, EndsBound;
    var all := Items(part, PartMatches(g, 0, part, r, used));
    SinglePartition(g, part, r, used, PartMatches(g, 0, part, r, used));
    forall i | 0 <= i < |all|
      ensures all[i].key == EndKey(part, r)
    {
      assert all[i] in all;
    }
  }

  lemma BoundLinks(part: Part, r: Row)
    requires EndsBound(part, r)
    ensures part.links != []
  {
  }

  /** A larger limit finds no fewer matches. */
  lemma LimitedGrows(g: Graph, less: nat, more: nat, part: Part, r: Row, used: set<int>)
    requires g.Valid() && 0 < less <= more && part.links != []
    ensures |Items(part, PartMatches(g, less, part, r, used))| <= |Items(part, PartMatches(g, more, part, r, used))|
  {
    hide PartMatches, Items;
    LimitedExact(g, less, part, r, used);
    LimitedExact(g, more, part, r, used);
    KeepGrows(less, more, PartMatches(g, 0, part, r, used));
    ItemsMember(part, PartMatches(g, less, part, r, used));
    ItemsMember(part, PartMatches(g, more, part, r, used));
  }

  lemma {:induction false} KeepGrows(less: nat, more: nat, ms: seq<Match>)
    requires less <= more
    ensures |Keep(less, ms)| <= |Keep(more, ms)|
  {
    if ms != [] {
      KeepGrows(less, more, ms[1..]);
    }
  }

  lemma {:induction false} StopAtLeast(g: Graph, part: Part, r: Row, used: set<int>, kind: Kind, k: nat, limit: nat)
    requires limit <= |g.rels| + 1
    ensures StopAt(g, part, r, used, kind, k, limit) >= limit
    decreases |g.rels| + 1 - limit
  {
    hide Satisfied, Items, PartEvents, Founds;
    StopStep(g, part, r, used, kind, k, limit);
    if limit <= |g.rels| {
      StopAtLeast(g, part, r, used, kind, k, limit + 1);
    }
  }

  /** The search ends with at least the matches it has on the way. */
  lemma StopLater(g: Graph, part: Part, r: Row, used: set<int>, kind: Kind, k: nat, limit: nat)
    requires g.Valid() && limit <= |g.rels| + 1 && part.links != []
    requires StopAt(g, part, r, used, kind, k, 0) == StopAt(g, part, r, used, kind, k, limit)
    ensures |Items(part, PartMatches(g, limit + 1, part, r, used))| <= |Items(part, Reached(g, part, r, used, kind, k))|
  {
    hide PartMatches, Items, StopAt;
    StopAtLeast(g, part, r, used, kind, k, limit);
    LimitedGrows(g, limit + 1, StopAt(g, part, r, used, kind, k, 0) + 1, part, r, used);
  }

  /** With both ends bound the only partition holds everything found. */
  lemma OnlyGroup(g: Graph, limit: nat, part: Part, r: Row, used: set<int>, items: seq<Item>,
                  groups: map<(int, int), seq<Item>>, order: seq<(int, int)>)
    requires g.Valid() && limit > 0 && EndsBound(part, r) && Grouped(items, groups, order)
    requires items == Items(part, PartMatches(g, limit, part, r, used))
    ensures order == [] ==> items == []
    ensures order != [] ==> order[0] in groups && groups[order[0]] == items
  {
    var some := PartMatches(g, limit, part, r, used);
    LimitedExact(g, limit, part, r, used);
    KeepMember(limit, PartMatches(g, 0, part, r, used));
    SinglePartition(g, part, r, used, some);
    OneGroup(items, EndKey(part, r));
    if order != [] {
      assert order[0] in order;
    }
  }
}
