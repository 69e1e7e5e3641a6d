/** The property and label counters of a finished statement, worked out from snapshots,
    against the change in the whole database. */
module NetCounts {
  import opened Seqs
  import opened Keys
  import opened Tables
  import opened LabelText

  // -------------------------------------------------------------- properties

  function PropsSetBy(before: Props, after: Props): set<string> {
    set k | k in after && (k !in before || Key(before[k]) != Key(after[k]))
  }

  function PropsRemovedBy(before: Props, after: Props): set<string> {
    set k | k in before && (k !in after || Key(before[k]) != Key(after[k]))
  }

  /** A property is set if it is new or its value is no longer equivalent, and removed if it is gone
      or its value is no longer equivalent. */
  lemma DiffMeans(before: Props, after: Props)
    requires (forall k :: k in before ==> Valid(before[k])) && forall k :: k in after ==> Valid(after[k])
    ensures PropsSetBy(before, after) == set k | k in after && (k in before ==> !Equiv(before[k], after[k]))
    ensures PropsRemovedBy(before, after) == set k | k in before && (k in after ==> !Equiv(before[k], after[k]))
  {
    hide Key, Valid, Equiv;
    forall k | k in before && k in after
      ensures Key(before[k]) == Key(after[k]) <==> Equiv(before[k], after[k])
    {
      KeyCanonical(before[k], after[k]);
    }
  }

  /** Set minus removed is the change in size: a changed value counts as one of each. */
  lemma DiffBalances(before: Props, after: Props)
    ensures |PropsSetBy(before, after)| - |PropsRemovedBy(before, after)| == |after| - |before|
  {
    hide PropsSetBy, PropsRemovedBy, Kept;
    PropsSplit(before, after);
    SplitSize(after, PropsSetBy(before, after), Kept(before, after));
    SplitSize(before, PropsRemovedBy(before, after), Kept(before, after));
  }

  function Kept(before: Props, after: Props): set<string> {
    set k | k in before && k in after && Key(before[k]) == Key(after[k])
  }

  lemma PropsSplit(before: Props, after: Props)
    ensures after.Keys == PropsSetBy(before, after) + Kept(before, after) && PropsSetBy(before, after) !! Kept(before, after)
    ensures before.Keys == PropsRemovedBy(before, after) + Kept(before, after) && PropsRemovedBy(before, after) !! Kept(before, after)
  {
    hide Key;
  }

  lemma SplitSize(props: Props, a: set<string>, b: set<string>)
    requires props.Keys == a + b && a !! b
    ensures |props| == |a| + |b|
  {
    assert |props| == |props.Keys|;
  }

  method Pick<T>(s: set<T>) returns (x: T)
    requires s != {}
    ensures x in s
  {
    x :| x in s;
  }

  /** How many of `s` are among those of `all` no longer to do. */
  ghost function Seen<T>(s: set<T>, all: set<T>, todo: set<T>): nat {
    |s * (all - todo)|
  }

  lemma SeenNone<T>(s: set<T>, all: set<T>)
    ensures Seen(s, all, all) == 0
  {
    assert s * (all - all) == {};
  }

  lemma SeenOne<T>(s: set<T>, all: set<T>, todo: set<T>, x: T)
    requires todo <= all && x in todo
    ensures Seen(s, all, todo - {x}) == Seen(s, all, todo) + if x in s then 1 else 0
  {
    var a, b := s * (all - todo), s * (all - (todo - {x}));
    if x in s {
      assert b == a + {x};
    } else {
      assert b == a;
    }
  }

  lemma SeenAll<T>(s: set<T>, all: set<T>)
    requires s <= all
    ensures Seen(s, all, {}) == |s|
  {
    assert s * (all - {}) == s;
  }

  /** `diffProps`. */
  method DiffProps(before: Props, after: Props) returns (added: nat, removed: nat)
    ensures added == |PropsSetBy(before, after)| && removed == |PropsRemovedBy(before, after)|
  {
    hide Key, PropsSetBy, PropsRemovedBy, Seen;
    ghost var sets, changed := PropsSetBy(before, after), PropsRemovedBy(before, after) * after.Keys;
    ghost var dropped := PropsRemovedBy(before, after) - after.Keys;
    DiffMembers(before, after);
    added, removed := 0, 0;
    var todo := after.Keys;
    SeenNone(sets, after.Keys);
    SeenNone(changed, after.Keys);
    while todo != {}
      invariant todo <= after.Keys
      invariant added == Seen(sets, after.Keys, todo) && removed == Seen(changed, after.Keys, todo)
      decreases todo
    {
      var k := Pick(todo);
      SeenOne(sets, after.Keys, todo, k);
      SeenOne(changed, after.Keys, todo, k);
      todo := todo - {k};
      if k !in before {
        added := added + 1;
      } else if Key(before[k]) != Key(after[k]) {
        added := added + 1;
        removed := removed + 1;
      }
    }
    SeenAll(sets, after.Keys);
    SeenAll(changed, after.Keys);
    todo := before.Keys;
    SeenNone(dropped, before.Keys);
    while todo != {}
      invariant todo <= before.Keys
      invariant removed == |changed| + Seen(dropped, before.Keys, todo)
      decreases todo
    {
      var k := Pick(todo);
      SeenOne(dropped, before.Keys, todo, k);
      todo := todo - {k};
      if k !in after {
        removed := removed + 1;
      }
    }
    SeenAll(dropped, before.Keys);
    assert changed + dropped == PropsRemovedBy(before, after);
  }

  lemma DiffMembers(before: Props, after: Props)
    ensures forall k :: k in PropsSetBy(before, after) <==> k in after && (k !in before || Key(before[k]) != Key(after[k]))
    ensures forall k :: k in PropsRemovedBy(before, after) <==> k in before && (k !in after || Key(before[k]) != Key(after[k]))
  {
  }

  function NodeProps(t: Tables, id: int): Props {
    if id in t.nodes then t.nodes[id].props else map[]
  }

  function EdgeProps(t: Tables, e: int): Props {
    if e in t.edges then t.edges[e].props else map[]
  }

  ghost function NodeSets(base: Tables, t: Tables): int -> int {
    id => |PropsSetBy(NodeProps(base, id), NodeProps(t, id))|
  }

  ghost function NodeRemoves(base: Tables, t: Tables): int -> int {
    id => |PropsRemovedBy(NodeProps(base, id), NodeProps(t, id))|
  }

  ghost function EdgeSets(base: Tables, t: Tables): int -> int {
    e => |PropsSetBy(EdgeProps(base, e), EdgeProps(t, e))|
  }

  ghost function EdgeRemoves(base: Tables, t: Tables): int -> int {
    e => |PropsRemovedBy(EdgeProps(base, e), EdgeProps(t, e))|
  }

  /** Properties set and removed between two states of the tables, entity by entity. */
  ghost function TotalSet(base: Tables, t: Tables): int {
    Sum(base.nodes.Keys + t.nodes.Keys, NodeSets(base, t)) + Sum(base.edges.Keys + t.edges.Keys, EdgeSets(base, t))
  }

  ghost function TotalRemoved(base: Tables, t: Tables): int {
    Sum(base.nodes.Keys + t.nodes.Keys, NodeRemoves(base, t)) + Sum(base.edges.Keys + t.edges.Keys, EdgeRemoves(base, t))
  }

  ghost function NodePropCount(t: Tables): int -> int {
    id => |NodeProps(t, id)|
  }

  ghost function EdgePropCount(t: Tables): int -> int {
    e => |EdgeProps(t, e)|
  }

  /** How many properties are stored. */
  ghost function StoredProps(t: Tables): int {
    Sum(t.nodes.Keys, NodePropCount(t)) + Sum(t.edges.Keys, EdgePropCount(t))
  }

  lemma {:induction false} SumsDiffer(s: set<int>, f: int -> int, g: int -> int, h: int -> int, k: int -> int)
    requires forall x :: x in s ==> f(x) - g(x) == h(x) - k(x)
    ensures Sum(s, f) - Sum(s, g) == Sum(s, h) - Sum(s, k)
    decreases |s|
  {
    if s != {} {
      var x := Some0(s);
      var rest := s - {x};
      assert rest + {x} == s;
      SumsDiffer(rest, f, g, h, k);
      SumInsert(rest, x, f);
      SumInsert(rest, x, g);
      SumInsert(rest, x, h);
      SumInsert(rest, x, k);
    }
  }

  lemma HalfConserved(b: set<int>, a: set<int>, sets: int -> int, rems: int -> int, had: int -> int, has: int -> int)
    requires forall x :: sets(x) - rems(x) == has(x) - had(x)
    requires (forall x :: x !in b ==> had(x) == 0) && forall x :: x !in a ==> has(x) == 0
    ensures Sum(b + a, sets) - Sum(b + a, rems) == Sum(a, has) - Sum(b, had)
  {
    hide Sum;
    var all := b + a;
    SumsDiffer(all, sets, rems, has, had);
    forall x | x in all && x !in a
      ensures has(x) == 0
    {
    }
    SumWiden(a, all, has);
    forall x | x in all && x !in b
      ensures had(x) == 0
    {
    }
    SumWiden(b, all, had);
  }

  /** Properties set minus removed is the change in the number stored. */
  lemma PropsConserved(base: Tables, t: Tables)
    ensures TotalSet(base, t) - TotalRemoved(base, t) == StoredProps(t) - StoredProps(base)
  {
    hide PropsSetBy, PropsRemovedBy, Sum;
    forall x
      ensures NodeSets(base, t)(x) - NodeRemoves(base, t)(x) == NodePropCount(t)(x) - NodePropCount(base)(x)
    {
      DiffBalances(NodeProps(base, x), NodeProps(t, x));
    }
    forall x
      ensures EdgeSets(base, t)(x) - EdgeRemoves(base, t)(x) == EdgePropCount(t)(x) - EdgePropCount(base)(x)
    {
      DiffBalances(EdgeProps(base, x), EdgeProps(t, x));
    }
    HalfConserved(base.nodes.Keys, t.nodes.Keys, NodeSets(base, t), NodeRemoves(base, t), NodePropCount(base), NodePropCount(t));
    HalfConserved(base.edges.Keys, t.edges.Keys, EdgeSets(base, t), EdgeRemoves(base, t), EdgePropCount(base), EdgePropCount(t));
  }

  // ------------------------------------------------------------------- labels

  predicate HasLabel(t: Tables, id: int, l: string) {
    id in t.nodes && l in LabelsOf(t, id)
  }

  function Holders(t: Tables, l: string): set<int> {
    set id | id in t.nodes && HasLabel(t, id, l)
  }

  /** The labels in use. */
  function Labels(t: Tables): set<string> {
    set p | p in t.labelRows :: p.1
  }

  /** SELECT count(*) FROM node_labels WHERE label = ? */
  function CountRows(t: Tables, l: string): nat {
    |set p | p in t.labelRows && p.1 == l|
  }

  lemma {:induction false} PairsCounted(ids: set<int>, l: string)
    ensures |set id | id in ids :: (id, l)| == |ids|
    decreases |ids|
  {
    if ids == {} {
      assert (set id | id in ids :: (id, l)) == {};
    } else {
      var x := Some0(ids);
      PairsCounted(ids - {x}, l);
      assert (set id | id in ids :: (id, l)) == (set id | id in ids - {x} :: (id, l)) + {(x, l)};
    }
  }

  lemma Some0<T>(s: set<T>) returns (x: T)
    requires s != {}
    ensures x in s
  {
    x :| x in s;
  }

  lemma RowsAreHolders(t: Tables, l: string)
    requires LabelsInStep(t)
    ensures CountRows(t, l) == |Holders(t, l)|
    ensures l in Labels(t) <==> Holders(t, l) != {}
  {
    var rows := set p | p in t.labelRows && p.1 == l;
    var pairs := set id | id in Holders(t, l) :: (id, l);
    forall p
      ensures p in rows <==> p in pairs
    {
      assert p == (p.0, p.1);
      if p in rows {
        assert HasLabel(t, p.0, l);
      }
    }
    assert rows == pairs;
    PairsCounted(Holders(t, l), l);
    if l in Labels(t) {
      var p :| p in t.labelRows && p.1 == l;
      assert p == (p.0, p.1);
      assert (p.0, l) in t.labelRows;
      assert HasLabel(t, p.0, l);
      assert p.0 in Holders(t, l);
    }
    if Holders(t, l) != {} {
      var id := Some0(Holders(t, l));
      assert (id, l) in t.labelRows;
    }
  }

  function At(m: map<string, int>, l: string): int {
    if l in m then m[l] else 0
  }

  /** Counts up every label listed that is not in `skip`. */
  method Bump(m: map<string, int>, ls: seq<string>, skip: seq<string>) returns (r: map<string, int>)
    requires Distinct(ls) && forall l :: l in m ==> m[l] > 0
    ensures forall l :: At(r, l) == At(m, l) + if l in ls && l !in skip then 1 else 0
    ensures forall l :: l in r ==> r[l] > 0
  {
    r := m;
    for i := 0 to |ls|
      invariant forall l :: At(r, l) == At(m, l) + if l in ls[..i] && l !in skip then 1 else 0
      invariant forall l :: l in r ==> r[l] > 0
    {
      assert ls[i] !in ls[..i];
      assert ls[..i + 1] == ls[..i] + [ls[i]];
      if ls[i] !in skip {
        r := r[ls[i] := At(r, ls[i]) + 1];
      }
    }
    assert ls[..|ls|] == ls;
  }

  /** Nodes among `done` that came to hold, or ceased to hold, a label. */
  ghost function Gained(base: Tables, t: Tables, done: set<int>, l: string): set<int> {
    set id | id in done && HasLabel(t, id, l) && !HasLabel(base, id, l)
  }

  ghost predicate LabelCounts(base: Tables, t: Tables, done: set<int>, gained: map<string, int>, lost: map<string, int>) {
    && (forall l :: At(gained, l) == |Gained(base, t, done, l)|)
    && (forall l :: At(lost, l) == |Gained(t, base, done, l)|)
    && (forall l :: l in gained ==> gained[l] > 0)
    && (forall l :: l in lost ==> lost[l] > 0)
  }

  lemma GainedStep(base: Tables, t: Tables, done: set<int>, id: int, l: string)
    requires id !in done
    ensures |Gained(base, t, done + {id}, l)| == |Gained(base, t, done, l)| + if HasLabel(t, id, l) && !HasLabel(base, id, l) then 1 else 0
  {
    var a, b := Gained(base, t, done, l), Gained(base, t, done + {id}, l);
    if HasLabel(t, id, l) && !HasLabel(base, id, l) {
      assert b == a + {id};
    } else {
      assert b == a;
    }
  }

  /** The label queries at the end: which labels came into use and which went out of use. */
  method CountLabels(ghost base: Tables, t: Tables, ghost done: set<int>, gained: map<string, int>, lost: map<string, int>)
    returns (added: nat, removed: nat)
    requires LabelsInStep(base) && LabelsInStep(t) && LabelCounts(base, t, done, gained, lost)
    requires forall id, l :: id !in done ==> (HasLabel(t, id, l) <==> HasLabel(base, id, l))
    ensures added == |Labels(t) - Labels(base)| && removed == |Labels(base) - Labels(t)|
  {
    hide LabelCounts, LabelsInStep, CountRows, Labels, HasLabel, At, Seen;
    ghost var news, gone := Labels(t) - Labels(base), Labels(base) - Labels(t);
    added, removed := 0, 0;
    var all := gained.Keys + lost.Keys;
    var todo := all;
    assert news <= all && gone <= all by {
      forall l
        ensures l in news ==> l in gained
        ensures l in gone ==> l in lost
      {
        ChangedAffected(base, t, done, gained, lost, l);
      }
    }
    SeenNone(news, all);
    SeenNone(gone, all);
    while todo != {}
      invariant todo <= all
      invariant added == Seen(news, all, todo) && removed == Seen(gone, all, todo)
      decreases todo
    {
      var l := Pick(todo);
      SeenOne(news, all, todo, l);
      SeenOne(gone, all, todo, l);
      todo := todo - {l};
      var after := CountRows(t, l);
      var before := after - At(gained, l) + At(lost, l);
      BeforeIs(base, t, done, gained, lost, l);
      if before <= 0 && after > 0 {
        added := added + 1;
      } else if before > 0 && after <= 0 {
        removed := removed + 1;
      }
    }
    SeenAll(news, all);
    SeenAll(gone, all);
  }

  lemma GainedAll(base: Tables, t: Tables, done: set<int>, l: string)
    requires forall id, x :: id !in done ==> (HasLabel(t, id, x) <==> HasLabel(base, id, x))
    ensures Gained(base, t, done, l) == Holders(t, l) - Holders(base, l)
    ensures Gained(t, base, done, l) == Holders(base, l) - Holders(t, l)
  {
  }

  /** The count before the statement is recovered from the count after it. */
  lemma BeforeIs(base: Tables, t: Tables, done: set<int>, gained: map<string, int>, lost: map<string, int>, l: string)
    requires LabelsInStep(base) && LabelsInStep(t) && LabelCounts(base, t, done, gained, lost)
    requires forall id, x :: id !in done ==> (HasLabel(t, id, x) <==> HasLabel(base, id, x))
    ensures CountRows(t, l) - At(gained, l) + At(lost, l) == CountRows(base, l)
    ensures l in Labels(t) <==> CountRows(t, l) > 0
    ensures l in Labels(base) <==> CountRows(base, l) > 0
  {
    RowsAreHolders(base, l);
    RowsAreHolders(t, l);
    GainedAll(base, t, done, l);
    hide HasLabel, Holders, Gained, Labels, LabelsInStep, CountRows;
    SetChange(Holders(base, l), Holders(t, l));
  }

  lemma ChangedAffected(base: Tables, t: Tables, done: set<int>, gained: map<string, int>, lost: map<string, int>, l: string)
    requires LabelsInStep(base) && LabelsInStep(t) && LabelCounts(base, t, done, gained, lost)
    requires forall id, x :: id !in done ==> (HasLabel(t, id, x) <==> HasLabel(base, id, x))
    ensures l in Labels(t) - Labels(base) ==> l in gained
    ensures l in Labels(base) - Labels(t) ==> l in lost
  {
    RowsAreHolders(base, l);
    RowsAreHolders(t, l);
    BeforeIs(base, t, done, gained, lost, l);
  }

  /** Everything counted so far about the entities in `done`. */
  ghost predicate Counted(base: Tables, t: Tables, done: set<int>, sets: int, rems: int, gained: map<string, int>, lost: map<string, int>) {
    && sets == Sum(done, NodeSets(base, t)) && rems == Sum(done, NodeRemoves(base, t))
    && LabelCounts(base, t, done, gained, lost)
  }

  predicate Comes(base: Tables, t: Tables, id: int, l: string) {
    HasLabel(t, id, l) && !HasLabel(base, id, l)
  }

  lemma CountOneMore(base: Tables, t: Tables, done: set<int>, id: int, sets: int, rems: int, gained: map<string, int>, lost: map<string, int>,
                     sets': int, rems': int, gained': map<string, int>, lost': map<string, int>)
    requires Counted(base, t, done, sets, rems, gained, lost) && id !in done
    requires sets' == sets + |PropsSetBy(NodeProps(base, id), NodeProps(t, id))|
    requires rems' == rems + |PropsRemovedBy(NodeProps(base, id), NodeProps(t, id))|
    requires forall l :: At(gained', l) == At(gained, l) + if Comes(base, t, id, l) then 1 else 0
    requires forall l :: At(lost', l) == At(lost, l) + if Comes(t, base, id, l) then 1 else 0
    requires (forall l :: l in gained' ==> gained'[l] > 0) && forall l :: l in lost' ==> lost'[l] > 0
    ensures Counted(base, t, done + {id}, sets', rems', gained', lost')
  {
    hide Sum, PropsSetBy, PropsRemovedBy, HasLabel, Gained;
    SumInsert(done, id, NodeSets(base, t));
    SumInsert(done, id, NodeRemoves(base, t));
    forall l
      ensures At(gained', l) == |Gained(base, t, done + {id}, l)| && At(lost', l) == |Gained(t, base, done + {id}, l)|
    {
      GainedStep(base, t, done, id, l);
      GainedStep(t, base, done, id, l);
    }
  }

  /** An entity that is neither before nor after adds nothing. */
  lemma CountAbsent(base: Tables, t: Tables, done: set<int>, id: int, sets: int, rems: int, gained: map<string, int>, lost: map<string, int>)
    requires Counted(base, t, done, sets, rems, gained, lost) && id !in done && id !in base.nodes && id !in t.nodes
    ensures Counted(base, t, done + {id}, sets, rems, gained, lost)
  {
    hide LabelCounts, Sum;
    CountOneMore(base, t, done, id, sets, rems, gained, lost, sets, rems, gained, lost) by {
      assert LabelCounts(base, t, done, gained, lost);
      LabelCountsPositive(base, t, done, gained, lost);
    }
  }

  lemma LabelCountsPositive(base: Tables, t: Tables, done: set<int>, gained: map<string, int>, lost: map<string, int>)
    requires LabelCounts(base, t, done, gained, lost)
    ensures (forall l :: l in gained ==> gained[l] > 0) && forall l :: l in lost ==> lost[l] > 0
  {
  }

  /** The first loop of `netCounters`: a live created node brings its properties and labels. */
  method CountCreated(ghost base: Tables, ghost t: Tables, nodes: map<int, NodeEnt>, created: set<int>,
                      sets0: int, ghost rems: int, gained0: map<string, int>, ghost lost: map<string, int>, ghost done0: set<int>)
    returns (sets: int, gained: map<string, int>)
    requires Counted(base, t, done0, sets0, rems, gained0, lost) && created !! done0
    requires forall id :: id in created ==> id in nodes && id !in base.nodes && LiveRow(nodes[id], t, id)
    ensures Counted(base, t, done0 + created, sets, rems, gained, lost)
  {
    hide Counted, PropsSetBy, PropsRemovedBy, Split;
    sets, gained := sets0, gained0;
    var todo := created;
    assert done0 + (created - todo) == done0;
    while todo != {}
      invariant todo <= created && Counted(base, t, done0 + (created - todo), sets, rems, gained, lost)
      decreases todo
    {
      var id := Pick(todo);
      ghost var done := done0 + (created - todo);
      todo := todo - {id};
      assert done0 + (created - todo) == done + {id};
      if nodes[id].deleted {
        CountAbsent(base, t, done, id, sets, rems, gained, lost);
        continue;
      }
      var val := nodes[id].val;
      CountedGained(base, t, done, sets, rems, gained, lost);
      var more := Bump(gained, val.labels, []);
      FromNothing(val.props);
      assert NodeProps(base, id) == map[] && NodeProps(t, id) == val.props;
      CountOneMore(base, t, done, id, sets, rems, gained, lost, sets + |val.props|, rems, more, lost);
      gained := more;
      sets := sets + |val.props|;
    }
    assert done0 + (created - {}) == done0 + created;
  }

  lemma CountedGained(base: Tables, t: Tables, done: set<int>, sets: int, rems: int, gained: map<string, int>, lost: map<string, int>)
    requires Counted(base, t, done, sets, rems, gained, lost)
    ensures (forall l :: l in gained ==> gained[l] > 0) && forall l :: l in lost ==> lost[l] > 0
  {
  }

  lemma FromNothing(props: Props)
    ensures PropsSetBy(map[], props) == props.Keys && PropsRemovedBy(map[], props) == {}
    ensures PropsSetBy(props, map[]) == {} && PropsRemovedBy(props, map[]) == props.Keys
    ensures |props| == |props.Keys|
  {
  }

  /** A cached node that is not deleted has its row in the final tables; a deleted one has none. */
  ghost predicate LiveRow(ent: NodeEnt, t: Tables, id: int) {
    if ent.deleted then id !in t.nodes else id in t.nodes && ReadRow(t.nodes[id]) == ent.val && Distinct(ent.val.labels)
  }

  /** The third loop: a live changed node counts by its difference from the snapshot. */
  method CountChanged(ghost base: Tables, ghost t: Tables, nodes: map<int, NodeEnt>, snaps: map<int, NodeVal>,
                      sets0: int, rems0: int, gained0: map<string, int>, lost0: map<string, int>, ghost done0: set<int>, ghost live: set<int>)
    returns (sets: int, rems: int, gained: map<string, int>, lost: map<string, int>)
    requires Counted(base, t, done0, sets0, rems0, gained0, lost0) && live !! done0
    requires live == set id | id in snaps && id in nodes && !nodes[id].deleted
    requires forall id :: id in snaps ==> id in nodes && LiveRow(nodes[id], t, id) && id in base.nodes
                                          && ReadRow(base.nodes[id]) == snaps[id] && Distinct(snaps[id].labels)
    ensures Counted(base, t, done0 + live, sets, rems, gained, lost)
  {
    hide Counted, PropsSetBy, PropsRemovedBy;
    sets, rems, gained, lost := sets0, rems0, gained0, lost0;
    var todo := snaps.Keys;
    assert done0 + (live - todo) == done0;
    while todo != {}
      invariant todo <= snaps.Keys && Counted(base, t, done0 + (live - todo), sets, rems, gained, lost)
      decreases todo
    {
      var id := Pick(todo);
      ghost var done := done0 + (live - todo);
      todo := todo - {id};
      if nodes[id].deleted {
        assert done0 + (live - todo) == done;
        continue;
      }
      assert done0 + (live - todo) == done + {id};
      var before, after := snaps[id], nodes[id].val;
      var a, r := DiffProps(before.props, after.props);
      CountedGained(base, t, done, sets, rems, gained, lost);
      var more := Bump(gained, after.labels, before.labels);
      var less := Bump(lost, before.labels, after.labels);
      CountOneMore(base, t, done, id, sets, rems, gained, lost, sets + a, rems + r, more, less);
      sets, rems, gained, lost := sets + a, rems + r, more, less;
    }
    assert done0 + (live - {}) == done0 + live;
  }

  lemma OldOnesStep(del: seq<int>, created: set<int>, i: nat)
    requires Distinct(del) && i < |del|
    ensures del[i] in del && del[i] !in OldOnes(del[..i], created)
    ensures del[i] in created ==> OldOnes(del[..i + 1], created) == OldOnes(del[..i], created)
    ensures del[i] !in created ==> OldOnes(del[..i + 1], created) == OldOnes(del[..i], created) + {del[i]}
  {
    assert del[..i + 1] == del[..i] + [del[i]];
  }

  /** The fifth loop: a deleted node that existed before loses what it had then. */
  method CountDeleted(ghost base: Tables, ghost t: Tables, nodes: map<int, NodeEnt>, snaps: map<int, NodeVal>, delNodes: seq<int>, created: set<int>,
                      ghost sets: int, rems0: int, ghost gained: map<string, int>, lost0: map<string, int>, ghost done0: set<int>)
    returns (rems: int, lost: map<string, int>)
    requires Counted(base, t, done0, sets, rems0, gained, lost0) && Distinct(delNodes)
    requires forall id :: id in delNodes && id !in created ==>
        id !in done0 && id in nodes && id !in t.nodes && id in base.nodes && Distinct(LabelsOf(base, id))
        && ReadRow(base.nodes[id]) == if id in snaps then snaps[id] else nodes[id].val
    ensures Counted(base, t, done0 + OldOnes(delNodes, created), sets, rems, gained, lost)
  {
    hide Counted, PropsSetBy, PropsRemovedBy;
    rems, lost := rems0, lost0;
    assert done0 + OldOnes(delNodes[..0], created) == done0;
    for i := 0 to |delNodes|
      invariant Counted(base, t, done0 + OldOnes(delNodes[..i], created), sets, rems, gained, lost)
    {
      var id := delNodes[i];
      ghost var done := done0 + OldOnes(delNodes[..i], created);
      OldOnesStep(delNodes, created, i);
      if id in created {
        continue;
      }
      assert done0 + OldOnes(delNodes[..i + 1], created) == done + {id};
      var val := if id in snaps then snaps[id] else nodes[id].val;
      CountedGained(base, t, done, sets, rems, gained, lost);
      var less := Bump(lost, val.labels, []);
      FromNothing(val.props);
      assert NodeProps(base, id) == val.props && NodeProps(t, id) == map[];
      CountOneMore(base, t, done, id, sets, rems, gained, lost, sets, rems + |val.props|, gained, less);
      rems, lost := rems + |val.props|, less;
    }
    assert delNodes[..|delNodes|] == delNodes;
  }

  function OldOnes(del: seq<int>, created: set<int>): set<int> {
    set id | id in del && id !in created
  }

  ghost predicate CountedEdges(base: Tables, t: Tables, done: set<int>, sets: int, rems: int) {
    sets == Sum(done, EdgeSets(base, t)) && rems == Sum(done, EdgeRemoves(base, t))
  }

  lemma CountEdge(base: Tables, t: Tables, done: set<int>, e: int, sets: int, rems: int)
    requires CountedEdges(base, t, done, sets, rems) && e !in done
    ensures CountedEdges(base, t, done + {e}, sets + |PropsSetBy(EdgeProps(base, e), EdgeProps(t, e))|,
                         rems + |PropsRemovedBy(EdgeProps(base, e), EdgeProps(t, e))|)
  {
    hide Sum, PropsSetBy, PropsRemovedBy;
    SumInsert(done, e, EdgeSets(base, t));
    SumInsert(done, e, EdgeRemoves(base, t));
  }

  ghost predicate LiveEdge(ent: RelEnt, t: Tables, e: int) {
    if ent.deleted then e !in t.edges else e in t.edges && t.edges[e] == ent.row
  }

  method CountCreatedRels(ghost base: Tables, ghost t: Tables, rels: map<int, RelEnt>, created: set<int>,
                          sets0: int, ghost rems: int, ghost done0: set<int>)
    returns (sets: int)
    requires CountedEdges(base, t, done0, sets0, rems) && created !! done0
    requires forall e :: e in created ==> e in rels && e !in base.edges && LiveEdge(rels[e], t, e)
    ensures CountedEdges(base, t, done0 + created, sets, rems)
  {
    hide CountedEdges, PropsSetBy, PropsRemovedBy;
    sets := sets0;
    var todo := created;
    assert done0 + (created - todo) == done0;
    while todo != {}
      invariant todo <= created && CountedEdges(base, t, done0 + (created - todo), sets, rems)
      decreases todo
    {
      var e := Pick(todo);
      ghost var done := done0 + (created - todo);
      todo := todo - {e};
      assert done0 + (created - todo) == done + {e};
      CountEdge(base, t, done, e, sets, rems);
      FromNothing(EdgeProps(t, e));
      assert EdgeProps(base, e) == map[];
      if !rels[e].deleted {
        sets := sets + |rels[e].row.props|;
      }
    }
    assert done0 + (created - {}) == done0 + created;
  }

  method CountChangedRels(ghost base: Tables, ghost t: Tables, rels: map<int, RelEnt>, snaps: map<int, Props>,
                          sets0: int, rems0: int, ghost done0: set<int>, ghost live: set<int>)
    returns (sets: int, rems: int)
    requires CountedEdges(base, t, done0, sets0, rems0) && live !! done0
    requires live == set e | e in snaps && e in rels && !rels[e].deleted
    requires forall e :: e in snaps ==> e in rels && LiveEdge(rels[e], t, e) && e in base.edges && base.edges[e].props == snaps[e]
    ensures CountedEdges(base, t, done0 + live, sets, rems)
  {
    hide CountedEdges, PropsSetBy, PropsRemovedBy;
    sets, rems := sets0, rems0;
    var todo := snaps.Keys;
    assert done0 + (live - todo) == done0;
    while todo != {}
      invariant todo <= snaps.Keys && CountedEdges(base, t, done0 + (live - todo), sets, rems)
      decreases todo
    {
      var e := Pick(todo);
      ghost var done := done0 + (live - todo);
      todo := todo - {e};
      if rels[e].deleted {
        assert done0 + (live - todo) == done;
        continue;
      }
      assert done0 + (live - todo) == done + {e};
      var a, r := DiffProps(snaps[e], rels[e].row.props);
      CountEdge(base, t, done, e, sets, rems);
      sets, rems := sets + a, rems + r;
    }
    assert done0 + (live - {}) == done0 + live;
  }

  method CountDeletedRels(ghost base: Tables, ghost t: Tables, rels: map<int, RelEnt>, snaps: map<int, Props>, delRels: seq<int>, created: set<int>,
                          ghost sets: int, rems0: int, ghost done0: set<int>)
    returns (rems: int)
    requires CountedEdges(base, t, done0, sets, rems0) && Distinct(delRels)
    requires forall e :: e in delRels && e !in created ==>
        e !in done0 && e in rels && e !in t.edges && e in base.edges
        && base.edges[e].props == if e in snaps then snaps[e] else rels[e].row.props
    ensures CountedEdges(base, t, done0 + OldOnes(delRels, created), sets, rems)
  {
    hide CountedEdges, PropsSetBy, PropsRemovedBy;
    rems := rems0;
    assert done0 + OldOnes(delRels[..0], created) == done0;
    for i := 0 to |delRels|
      invariant CountedEdges(base, t, done0 + OldOnes(delRels[..i], created), sets, rems)
    {
      var e := delRels[i];
      ghost var done := done0 + OldOnes(delRels[..i], created);
      OldOnesStep(delRels, created, i);
      if e in created {
        continue;
      }
      assert done0 + OldOnes(delRels[..i + 1], created) == done + {e};
      var props := if e in snaps then snaps[e] else rels[e].row.props;
      CountEdge(base, t, done, e, sets, rems);
      FromNothing(props);
      assert EdgeProps(base, e) == props && EdgeProps(t, e) == map[];
      rems := rems + |props|;
    }
    assert delRels[..|delRels|] == delRels;
  }
}
