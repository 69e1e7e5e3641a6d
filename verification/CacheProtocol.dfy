/** The cache protocol as a state machine: no interleaving of careful steps loses an update. */
module CacheProtocol {
  import opened Seqs
  import opened Matrices
  import opened VectorCache

  /** A database version. Index ids are allocated once (AUTOINCREMENT). */
  datatype Db = Db(indexes: map<int, Index>, nextId: int)

  /** What a commit leaves to be applied to the cache: the deltas of its statements, or after
      an import the order to forget everything. */
  datatype Change = Deltas(ds: seq<Delta>) | Reset

  /** A matrix being built: the index and the epoch read before the build. */
  datatype Ask = Ask(index: int, epoch: nat)

  /** A statement that may use the cache; it reads the version `snapshot`. */
  datatype Reader = Reader(snapshot: nat, asked: Option<Ask>)

  /** The write transaction: what it sees, the deltas it has collected, whether a statement of
      it failed half-way and was not rolled back, and whether it is an import. */
  datatype Writer = Writer(view: Db, ds: seq<Delta>, broken: bool, imports: bool)

  /** `versions` are the committed databases; `pending` the changes committed and not applied. */
  datatype State = State(versions: seq<Db>, pending: seq<Change>, cache: Cache, epoch: nat,
                         readers: map<int, Reader>, writer: Option<Writer>)

  datatype Step =
    | Open(r: int)
    | Lookup(r: int, index: int)
    | Install(r: int, fits: bool)
    | Close(r: int)
    | Begin
    | Write(after: Db, touched: set<int>, ds: seq<Delta>)
    | Fail(after: Db)
    | ImportRows(after: Db)
    | CreateIndex(ix: Index)
    | DropIndex(id: int)
    | Commit
    | Rollback
    | Apply(i: nat)

  ghost function Last(s: State): Db
    requires s.versions != []
  {
    s.versions[|s.versions| - 1]
  }

  /** The version whose changes were the last to be applied. */
  ghost function Base(s: State): int {
    |s.versions| - 1 - |s.pending|
  }

  /** The data may change, the indexes may not. */
  ghost predicate SameSchema(a: Db, b: Db) {
    && a.nextId == b.nextId && a.indexes.Keys == b.indexes.Keys
    && forall id :: id in a.indexes ==>
      a.indexes[id].dim == b.indexes[id].dim && a.indexes[id].metric == b.indexes[id].metric && b.indexes[id].Valid()
  }

  /** What `vectorDeltas` emits for a statement that touched these nodes. */
  ghost predicate Records(ds: seq<Delta>, after: Db, touched: set<int>) {
    && (forall d :: d in ds ==> d.index in after.indexes)
    && (forall id, n :: id in after.indexes ==>
      LastFor(ds, id, n) == if n in touched then Some(VectorAt(after.indexes[id], n)) else None)
  }

  ghost predicate Untouched(before: Db, after: Db, touched: set<int>) {
    forall id, n :: id in before.indexes && id in after.indexes && n !in touched ==>
      && VectorAt(before.indexes[id], n) == VectorAt(after.indexes[id], n)
      && StoredAt(before.indexes[id], n) == StoredAt(after.indexes[id], n)
  }

  ghost predicate Enabled(s: State, step: Step) {
    match step
    case Open(r) => r !in s.readers && s.versions != []
    case Lookup(r, index) =>
      && r in s.readers && s.readers[r].asked.None? && s.readers[r].snapshot < |s.versions|
      && index in s.versions[s.readers[r].snapshot].indexes
    case Install(r, _) =>
      && r in s.readers && s.readers[r].asked.Some? && s.readers[r].snapshot < |s.versions|
      && s.readers[r].asked.value.index in s.versions[s.readers[r].snapshot].indexes
    case Close(r) => r in s.readers
    case Begin => s.writer.None? && s.versions != []
    case Write(after, touched, ds) =>
      && s.writer.Some? && !s.writer.value.imports
      && SameSchema(s.writer.value.view, after) && Untouched(s.writer.value.view, after, touched) && Records(ds, after, touched)
    case Fail(after) => s.writer.Some? && SameSchema(s.writer.value.view, after)
    case ImportRows(after) => s.writer.Some? && s.writer.value.ds == [] && SameSchema(s.writer.value.view, after)
    case CreateIndex(ix) => s.writer.Some? && ix.Valid()
    case DropIndex(id) => s.writer.Some? && id in s.writer.value.view.indexes
    case Commit => s.writer.Some?
    case Rollback => s.writer.Some?
    case Apply(i) => i < |s.pending|
  }

  ghost function Next(s: State, step: Step): State
    requires Enabled(s, step)
  {
    match step
    case Open(r) => s.(readers := s.readers[r := Reader(|s.versions| - 1, None)])
    case Lookup(r, index) =>
      if index in s.cache then s
      else s.(readers := s.readers[r := s.readers[r].(asked := Some(Ask(index, s.epoch)))])
    case Install(r, fits) =>
      var a := s.readers[r].asked.value;
      var m := Built(s.versions[s.readers[r].snapshot].indexes[a.index]);
      s.(cache := if s.epoch == a.epoch && fits then s.cache[a.index := m] else s.cache,
         readers := s.readers[r := s.readers[r].(asked := None)])
    case Close(r) => s.(readers := s.readers - {r})
    case Begin => s.(writer := Some(Writer(Last(s), [], false, false)))
    case Write(after, _, ds) => s.(writer := Some(s.writer.value.(view := after, ds := s.writer.value.ds + ds)))
    case Fail(after) => s.(writer := Some(s.writer.value.(view := after, broken := true)))
    case ImportRows(after) => s.(writer := Some(s.writer.value.(view := after, imports := true)))
    case CreateIndex(ix) =>
      var v := s.writer.value.view;
      s.(cache := s.cache - {v.nextId}, epoch := s.epoch + 1,
         writer := Some(s.writer.value.(view := Db(v.indexes[v.nextId := ix], v.nextId + 1))))
    case DropIndex(id) =>
      var v := s.writer.value.view;
      s.(cache := s.cache - {id}, epoch := s.epoch + 1, writer := Some(s.writer.value.(view := v.(indexes := v.indexes - {id}))))
    case Commit =>
      var w := s.writer.value;
      s.(versions := s.versions + [w.view], pending := s.pending + [if w.imports then Reset else Deltas(w.ds)], writer := None)
    case Rollback => s.(writer := None)
    case Apply(i) =>
      var rest := s.pending[..i] + s.pending[i + 1..];
      match s.pending[i]
      case Reset => s.(cache := map[], epoch := s.epoch + 1, pending := rest)
      case Deltas(ds) =>
        if ds == [] then s.(pending := rest)
        else s.(cache := PatchAll(s.cache, ds), epoch := s.epoch + 1, pending := rest)
  }

  /** A build reads a version no older than the last one applied when it read the epoch. */
  ghost predicate SnapshotRule(s: State, step: Step) {
    step.Lookup? && step.r in s.readers && step.index !in s.cache ==> s.readers[step.r].snapshot >= Base(s)
  }

  /** Batches are applied in commit order. */
  ghost predicate OrderRule(s: State, step: Step) {
    step.Apply? ==> step.i == 0
  }

  /** A transaction with a failed statement is rolled back. */
  ghost predicate RollbackRule(s: State, step: Step) {
    step.Commit? && s.writer.Some? ==> !s.writer.value.broken
  }

  ghost predicate DbAgrees(db: Db) {
    forall id :: id in db.indexes ==> db.indexes[id].Agrees()
  }

  /** Only vectors are written that both readers read alike. */
  ghost predicate AgreeRule(step: Step) {
    match step
    case Write(after, _, _) => DbAgrees(after)
    case Fail(after) => DbAgrees(after)
    case ImportRows(after) => DbAgrees(after)
    case CreateIndex(ix) => ix.Agrees()
    case _ => true
  }

  /** The four things the code relies on and does not enforce. */
  datatype Rule = Snapshots | Ordered | Clean | Agreed

  ghost predicate Obeys(s: State, step: Step, rules: set<Rule>) {
    && (Snapshots in rules ==> SnapshotRule(s, step))
    && (Ordered in rules ==> OrderRule(s, step))
    && (Clean in rules ==> RollbackRule(s, step))
    && (Agreed in rules ==> AgreeRule(step))
  }

  ghost predicate Careful(s: State, step: Step) {
    Obeys(s, step, {Snapshots, Ordered, Clean, Agreed})
  }

  ghost function Start(db: Db): State {
    State([db], [], map[], 0, map[], None)
  }

  ghost predicate Runs(s: State, steps: seq<Step>)
    decreases |steps|
  {
    steps == [] || (Enabled(s, steps[0]) && Runs(Next(s, steps[0]), steps[1..]))
  }

  ghost predicate RunObeys(s: State, steps: seq<Step>, rules: set<Rule>)
    requires Runs(s, steps)
    decreases |steps|
  {
    steps == [] || (Obeys(s, steps[0], rules) && RunObeys(Next(s, steps[0]), steps[1..], rules))
  }

  ghost predicate CarefulRun(s: State, steps: seq<Step>)
    requires Runs(s, steps)
  {
    RunObeys(s, steps, {Snapshots, Ordered, Clean, Agreed})
  }

  ghost function End(s: State, steps: seq<Step>): State
    requires Runs(s, steps)
    decreases |steps|
  {
    if steps == [] then s else End(Next(s, steps[0]), steps[1..])
  }

  // --------------------------------------------------------- how versions relate

  ghost predicate DbValid(db: Db) {
    forall id :: id in db.indexes ==> id < db.nextId && db.indexes[id].Valid() && db.indexes[id].Agrees()
  }

  /** Ids are allocated once, and an index keeps its dimension and metric. */
  ghost predicate Succeeds(a: Db, b: Db) {
    && a.nextId <= b.nextId
    && forall id :: id in b.indexes && id < a.nextId ==>
      id in a.indexes && a.indexes[id].dim == b.indexes[id].dim && a.indexes[id].metric == b.indexes[id].metric
  }

  /** The deltas account for the difference between two versions. */
  ghost predicate Explains(ds: seq<Delta>, a: Db, b: Db) {
    && (forall d :: d in ds ==> d.index < b.nextId)
    && (forall id, n :: id in b.indexes ==> ExplainsAt(ds, a, b, id, n))
  }

  ghost predicate ExplainsAt(ds: seq<Delta>, a: Db, b: Db, id: int, n: int)
    requires id in b.indexes
  {
    && (LastFor(ds, id, n).Some? ==> LastFor(ds, id, n).value == VectorAt(b.indexes[id], n))
    && (LastFor(ds, id, n).None? && id in a.indexes ==> VectorAt(a.indexes[id], n) == VectorAt(b.indexes[id], n))
  }

  /** Consecutive versions and the changes between them. */
  ghost predicate History(vs: seq<Db>, cs: seq<Change>) {
    && |vs| == |cs| + 1
    && (forall k :: 0 <= k < |vs| ==> DbValid(vs[k]))
    && (forall k :: 0 <= k < |cs| ==> Succeeds(vs[k], vs[k + 1]))
    && (forall k :: 0 <= k < |cs| && cs[k].Deltas? ==> Explains(cs[k].ds, vs[k], vs[k + 1]))
  }

  lemma SucceedsTrans(a: Db, b: Db, c: Db)
    requires Succeeds(a, b) && Succeeds(b, c)
    ensures Succeeds(a, c)
  {
  }

  lemma ExplainsTrans(ds1: seq<Delta>, ds2: seq<Delta>, a: Db, b: Db, c: Db)
    requires Explains(ds1, a, b) && Explains(ds2, b, c) && Succeeds(a, b) && Succeeds(b, c) && DbValid(a) && DbValid(b)
    ensures Explains(ds1 + ds2, a, c)
  {
    forall id, n | id in c.indexes
      ensures ExplainsAt(ds1 + ds2, a, c, id, n)
    {
      LastForConcat(ds1, ds2, id, n);
      assert ExplainsAt(ds2, b, c, id, n);
      if id in b.indexes {
        assert ExplainsAt(ds1, a, b, id, n);
      } else {
        assert id >= b.nextId;
        NoDeltas(ds1, id, n, b.nextId);
      }
    }
  }

  lemma {:induction false} NoDeltas(ds: seq<Delta>, id: int, n: int, bound: int)
    requires forall d :: d in ds ==> d.index < bound
    requires id >= bound
    ensures LastFor(ds, id, n).None?
  {
    if ds != [] {
      assert ds[|ds| - 1] in ds;
      NoDeltas(ds[..|ds| - 1], id, n, bound);
    }
  }

  lemma {:induction false} HistorySucceeds(vs: seq<Db>, cs: seq<Change>, i: nat, j: nat)
    requires History(vs, cs) && i <= j < |vs|
    ensures Succeeds(vs[i], vs[j])
    decreases j - i
  {
    if i < j {
      HistorySucceeds(vs, cs, i, j - 1);
      SucceedsTrans(vs[i], vs[j - 1], vs[j]);
    }
  }

  /** The matrix after the remaining batches. */
  ghost function Settle(h: Held, id: int, cs: seq<Change>): Held
    decreases |cs|
  {
    if cs == [] then h
    else
      match cs[0]
      case Reset => h
      case Deltas(ds) => Settle(Patch(h, id, ds), id, cs[1..])
  }

  ghost predicate NoReset(cs: seq<Change>) {
    forall k :: 0 <= k < |cs| ==> cs[k].Deltas?
  }

  lemma {:induction false} SettleAppend(h: Held, id: int, cs: seq<Change>, ds: seq<Delta>)
    requires NoReset(cs)
    ensures Settle(h, id, cs + [Deltas(ds)]) == Patch(Settle(h, id, cs), id, ds)
    decreases |cs|
  {
    if cs == [] {
      assert cs + [Deltas(ds)] == [Deltas(ds)];
      assert [Deltas(ds)][1..] == [];
    } else {
      assert (cs + [Deltas(ds)])[0] == cs[0] && (cs + [Deltas(ds)])[1..] == cs[1..] + [Deltas(ds)];
      SettleAppend(Patch(h, id, cs[0].ds), id, cs[1..], ds);
    }
  }

  /** One batch brings a matrix from one version to the next. */
  lemma PatchCatchesUp(id: int, ds: seq<Delta>, a: Db, b: Db)
    requires Explains(ds, a, b) && Succeeds(a, b) && DbValid(a) && DbValid(b) && id in a.indexes && id in b.indexes
    ensures Patch(Built(a.indexes[id]), id, ds) == Built(b.indexes[id])
  {
    var h, want := Built(a.indexes[id]), Built(b.indexes[id]);
    forall n
      ensures RowAt(Patch(h, id, ds), n) == RowAt(want, n)
    {
      assert ExplainsAt(ds, a, b, id, n);
      PatchRow(h, id, ds, n);
      BuiltRow(a.indexes[id], n);
      BuiltRow(b.indexes[id], n);
    }
    RowsDecide(Patch(h, id, ds), want);
  }

  lemma HistoryTail(vs: seq<Db>, cs: seq<Change>)
    requires History(vs, cs) && cs != []
    ensures History(vs[1..], cs[1..])
  {
  }

  lemma StillThere(vs: seq<Db>, cs: seq<Change>, id: int, i: nat, j: nat)
    requires History(vs, cs) && i <= j < |vs| && id in vs[j].indexes && id < vs[i].nextId
    ensures id in vs[i].indexes
    ensures vs[i].indexes[id].dim == vs[j].indexes[id].dim && vs[i].indexes[id].metric == vs[j].indexes[id].metric
  {
    HistorySucceeds(vs, cs, i, j);
  }

  lemma {:induction false} SettleCatchesUp(id: int, vs: seq<Db>, cs: seq<Change>)
    requires History(vs, cs) && NoReset(cs) && id in vs[0].indexes && id in vs[|cs|].indexes
    ensures Settle(Built(vs[0].indexes[id]), id, cs) == Built(vs[|cs|].indexes[id])
    decreases |cs|
  {
    if cs != [] {
      hide Explains, Built, Patch;
      HistoryTail(vs, cs);
      assert id < vs[0].nextId && Succeeds(vs[0], vs[1]);
      StillThere(vs, cs, id, 1, |cs|);
      PatchCatchesUp(id, cs[0].ds, vs[0], vs[1]);
      SettleCatchesUp(id, vs[1..], cs[1..]);
    }
  }

  ghost predicate Touched(cs: seq<Change>, id: int, n: int) {
    exists k :: 0 <= k < |cs| && TouchedAt(cs[k], id, n)
  }

  ghost predicate TouchedAt(c: Change, id: int, n: int) {
    c.Deltas? && LastFor(c.ds, id, n).Some?
  }

  /** A node no batch touches keeps its vector. */
  lemma {:induction false} Unchanged(vs: seq<Db>, cs: seq<Change>, id: int, n: int, v: nat)
    requires History(vs, cs) && NoReset(cs) && v <= |cs| && id in vs[0].indexes && id in vs[v].indexes
    requires !Touched(cs[..v], id, n)
    ensures VectorAt(vs[0].indexes[id], n) == VectorAt(vs[v].indexes[id], n)
    decreases v
  {
    if v > 0 {
      StillThere(vs, cs, id, v - 1, v) by {
        HistorySucceeds(vs, cs, 0, v - 1);
      }
      assert Succeeds(vs[v - 1], vs[v]) && Explains(cs[v - 1].ds, vs[v - 1], vs[v]);
      assert !TouchedAt(cs[..v][v - 1], id, n);
      assert ExplainsAt(cs[v - 1].ds, vs[v - 1], vs[v], id, n);
      var init := cs[..v - 1];
      forall k | 0 <= k < |init|
        ensures !TouchedAt(init[k], id, n)
      {
        assert cs[..v][k] == init[k];
      }
      Unchanged(vs, cs, id, n, v - 1);
    }
  }

  lemma TouchedLater(cs: seq<Change>, v: nat, id: int, n: int)
    requires 0 < v <= |cs| && Touched(cs[..v], id, n) && !TouchedAt(cs[0], id, n)
    ensures Touched(cs[1..][..v - 1], id, n)
  {
    var a, b := cs[..v], cs[1..][..v - 1];
    var k :| 0 <= k < |a| && TouchedAt(a[k], id, n);
    assert b[k - 1] == a[k];
  }

  /** The row of `h` is that of version `v`, or a batch before that version will set it. */
  ghost predicate AheadAt(h: Held, id: int, vs: seq<Db>, cs: seq<Change>, v: nat, n: int)
    requires v < |vs| && v <= |cs| && id in vs[v].indexes
  {
    RowAt(h, n) == RowAt(Built(vs[v].indexes[id]), n) || Touched(cs[..v], id, n)
  }

  /** Replaying old batches over a newer matrix disturbs it only until the newer ones follow. */
  lemma AheadStep(h: Held, id: int, vs: seq<Db>, cs: seq<Change>, v: nat, n: int)
    requires History(vs, cs) && NoReset(cs) && 0 < v <= |cs| && id in vs[v].indexes
    requires h.dim == vs[v].indexes[id].dim && h.metric == vs[v].indexes[id].metric
    requires AheadAt(h, id, vs, cs, v, n)
    ensures AheadAt(Patch(h, id, cs[0].ds), id, vs[1..], cs[1..], v - 1, n)
  {
    hide Patch, Built, Explains, DbValid, Succeeds;
    var ds := cs[0].ds;
    assert Explains(ds, vs[0], vs[1]);
    PatchRow(h, id, ds, n);
    if Touched(cs[1..][..v - 1], id, n) {
    } else if LastFor(ds, id, n).None? {
      if Touched(cs[..v], id, n) {
        TouchedLater(cs, v, id, n);
      }
    } else {
      DeltaKnown(ds, vs[0], vs[1], id, n);
      StillThere(vs, cs, id, 1, v);
      ExplainedAt(ds, vs[0], vs[1], id, n);
      HistoryTail(vs, cs);
      Unchanged(vs[1..], cs[1..], id, n, v - 1);
      BuiltRow(vs[v].indexes[id], n);
      ValidAt(vs, cs, 1, id);
      ValidAt(vs, cs, v, id);
    }
  }

  lemma DeltaKnown(ds: seq<Delta>, a: Db, b: Db, id: int, n: int)
    requires Explains(ds, a, b) && LastFor(ds, id, n).Some?
    ensures id < b.nextId
  {
    if id >= b.nextId {
      NoDeltas(ds, id, n, b.nextId);
    }
  }

  lemma ExplainedAt(ds: seq<Delta>, a: Db, b: Db, id: int, n: int)
    requires Explains(ds, a, b) && id in b.indexes
    ensures ExplainsAt(ds, a, b, id, n)
  {
  }

  lemma ValidAt(vs: seq<Db>, cs: seq<Change>, k: nat, id: int)
    requires History(vs, cs) && k < |vs| && id in vs[k].indexes
    ensures vs[k].indexes[id].Valid() && vs[k].indexes[id].Agrees() && id < vs[k].nextId
  {
    assert DbValid(vs[k]);
  }

  /** A matrix built from any version at or after the oldest pending change ends up right. */
  lemma {:induction false} SettleFromAhead(h: Held, id: int, vs: seq<Db>, cs: seq<Change>, v: nat)
    requires History(vs, cs) && NoReset(cs) && v <= |cs| && id in vs[v].indexes && id in vs[|cs|].indexes
    requires h.dim == vs[v].indexes[id].dim && h.metric == vs[v].indexes[id].metric
    requires forall n :: AheadAt(h, id, vs, cs, v, n)
    ensures Settle(h, id, cs) == Built(vs[|cs|].indexes[id])
    decreases v
  {
    hide Patch, History, Touched;
    HistorySizes(vs, cs);
    if v == 0 {
      forall n
        ensures RowAt(h, n) == RowAt(Built(vs[0].indexes[id]), n)
      {
        assert AheadAt(h, id, vs, cs, 0, n);
        NothingTouched(cs[..0], id, n);
      }
      RowsDecide(h, Built(vs[0].indexes[id]));
      SettleCatchesUp(id, vs, cs);
    } else {
      HistoryTail(vs, cs);
      var h', vs', cs', v' := Patch(h, id, cs[0].ds), vs[1..], cs[1..], v - 1;
      forall n
        ensures AheadAt(h', id, vs', cs', v', n)
      {
        AheadStep(h, id, vs, cs, v, n);
      }
      SettleFromAhead(h', id, vs', cs', v');
    }
  }

  lemma HistorySizes(vs: seq<Db>, cs: seq<Change>)
    requires History(vs, cs)
    ensures |vs| == |cs| + 1
  {
  }

  lemma NothingTouched(cs: seq<Change>, id: int, n: int)
    requires cs == []
    ensures !Touched(cs, id, n)
  {
  }

  // -------------------------------------------------------------- the invariant

  /** Once the pending batches are applied, `h` is what a rebuild would give. */
  ghost predicate Current(s: State, id: int, h: Held)
    requires s.versions != []
  {
    NoReset(s.pending) && id in Last(s).indexes ==> Settle(h, id, s.pending) == Built(Last(s).indexes[id])
  }

  ghost predicate ReaderOk(s: State, rd: Reader)
    requires s.versions != []
  {
    && rd.snapshot < |s.versions|
    && (rd.asked.Some? ==>
      && rd.asked.value.index in s.versions[rd.snapshot].indexes
      && rd.asked.value.epoch <= s.epoch
      && (rd.asked.value.epoch == s.epoch ==>
        Current(s, rd.asked.value.index, Built(s.versions[rd.snapshot].indexes[rd.asked.value.index]))))
  }

  ghost predicate WriterOk(s: State, w: Writer)
    requires s.versions != []
  {
    && DbValid(w.view) && Succeeds(Last(s), w.view)
    && (!w.imports && !w.broken ==> Explains(w.ds, Last(s), w.view))
  }

  ghost predicate VersionsOk(s: State) {
    && s.versions != [] && |s.pending| < |s.versions|
    && History(s.versions[Base(s)..], s.pending)
    && (forall k :: 0 <= k < |s.versions| ==> DbValid(s.versions[k]) && s.versions[k].nextId <= Last(s).nextId)
  }

  ghost predicate Inv(s: State) {
    && VersionsOk(s)
    && (forall id :: id in s.cache ==> id < Last(s).nextId && Current(s, id, s.cache[id]))
    && (forall r :: r in s.readers ==> ReaderOk(s, s.readers[r]))
    && (s.writer.Some? ==> WriterOk(s, s.writer.value))
  }

  lemma InvStart(db: Db)
    requires DbValid(db)
    ensures Inv(Start(db))
  {
  }

  /** A build that starts from a recent enough snapshot will be current. */
  lemma AskedCurrent(s: State, id: int, v: nat)
    requires VersionsOk(s) && Base(s) <= v < |s.versions| && id in s.versions[v].indexes
    ensures Current(s, id, Built(s.versions[v].indexes[id]))
  {
    hide History, Settle, Built;
    if NoReset(s.pending) && id in Last(s).indexes {
      var vs := s.versions[Base(s)..];
      var h := Built(s.versions[v].indexes[id]);
      assert vs[v - Base(s)] == s.versions[v];
      BuiltShape(s.versions[v].indexes[id]);
      SettleFromAhead(h, id, vs, s.pending, v - Base(s));
    }
  }

  lemma BuiltShape(ix: Index)
    ensures Built(ix).dim == ix.dim && Built(ix).metric == ix.metric
  {
  }

  lemma InvReader(s: State, step: Step)
    requires Inv(s) && Enabled(s, step) && Careful(s, step)
    requires step.Open? || step.Lookup? || step.Install? || step.Close?
    ensures Inv(Next(s, step))
  {
    hide History, Settle, Built, NoReset;
    var s' := Next(s, step);
    assert s'.versions == s.versions && s'.pending == s.pending && s'.epoch == s.epoch;
    assert forall id, h :: Current(s, id, h) ==> Current(s', id, h);
    if step.Lookup? && step.index !in s.cache {
      AskedCurrent(s, step.index, s.readers[step.r].snapshot);
    }
  }

  predicate WriterStep(step: Step) {
    step.Begin? || step.Write? || step.Fail? || step.ImportRows? || step.CreateIndex? || step.DropIndex? || step.Rollback?
  }

  lemma WriterKeeps(s: State, step: Step)
    requires VersionsOk(s) && (s.writer.Some? ==> WriterOk(s, s.writer.value)) && Enabled(s, step) && WriterStep(step) && AgreeRule(step)
    ensures Next(s, step).versions == s.versions
    ensures Next(s, step).writer.Some? ==> WriterOk(Next(s, step), Next(s, step).writer.value)
  {
    hide History, Explains;
    match step
    case Begin =>
      ExplainsNothing(Last(s));
    case Write(after, touched, ds) =>
      WriteExplains(s.writer.value.view, after, touched, ds);
      var w := s.writer.value;
      if !w.broken {
        ExplainsTrans(w.ds, ds, Last(s), w.view, after);
      }
    case CreateIndex(ix) =>
      var w := s.writer.value;
      if !w.imports && !w.broken {
        CreateExplains(w.ds, Last(s), w.view, ix);
      }
    case DropIndex(id) =>
      var w := s.writer.value;
      if !w.imports && !w.broken {
        DropExplains(w.ds, Last(s), w.view, id);
      }
    case _ =>
  }

  lemma InvWriter(s: State, step: Step)
    requires Inv(s) && Enabled(s, step) && WriterStep(step) && AgreeRule(step)
    ensures Inv(Next(s, step))
  {
    hide History, Settle, Built, NoReset, Explains, Current, WriterOk;
    var s' := Next(s, step);
    WriterKeeps(s, step);
    assert forall id, h :: Current(s', id, h) == Current(s, id, h) by {
      SameCurrent(s, s');
    }
  }

  lemma SameCurrent(s: State, s': State)
    requires s.versions != [] && s.versions == s'.versions && s.pending == s'.pending
    ensures forall id, h :: Current(s', id, h) == Current(s, id, h)
  {
  }

  lemma ExplainsNothing(a: Db)
    ensures Explains([], a, a)
  {
  }

  lemma WriteExplains(a: Db, b: Db, touched: set<int>, ds: seq<Delta>)
    requires DbValid(a) && SameSchema(a, b) && DbAgrees(b) && Untouched(a, b, touched) && Records(ds, b, touched)
    ensures Explains(ds, a, b) && DbValid(b) && Succeeds(a, b)
  {
  }

  lemma CreateExplains(ds: seq<Delta>, a: Db, v: Db, ix: Index)
    requires Explains(ds, a, v) && DbValid(a) && Succeeds(a, v)
    ensures Explains(ds, a, Db(v.indexes[v.nextId := ix], v.nextId + 1))
  {
    var b := Db(v.indexes[v.nextId := ix], v.nextId + 1);
    forall id, n | id in b.indexes
      ensures ExplainsAt(ds, a, b, id, n)
    {
      if id == v.nextId {
        NoDeltas(ds, id, n, v.nextId);
      } else {
        assert ExplainsAt(ds, a, v, id, n);
      }
    }
  }

  lemma DropExplains(ds: seq<Delta>, a: Db, v: Db, dropped: int)
    requires Explains(ds, a, v)
    ensures Explains(ds, a, v.(indexes := v.indexes - {dropped}))
  {
    var b := v.(indexes := v.indexes - {dropped});
    forall id, n | id in b.indexes
      ensures ExplainsAt(ds, a, b, id, n)
    {
      assert ExplainsAt(ds, a, v, id, n);
    }
  }

  lemma InvCommit(s: State)
    requires Inv(s) && Enabled(s, Commit) && Careful(s, Commit)
    ensures Inv(Next(s, Commit))
  {
    hide Settle, Built, Explains, DbValid, Succeeds;
    var s' := Next(s, Commit);
    var w := s.writer.value;
    var c := if w.imports then Reset else Deltas(w.ds);
    var vs, vs' := s.versions[Base(s)..], s'.versions[Base(s')..];
    assert Base(s') == Base(s) && vs' == vs + [w.view];
    GrowsId(Last(s), w.view);
    assert vs[|vs| - 1] == Last(s);
    forall k | 0 <= k < |s'.pending|
      ensures Succeeds(vs'[k], vs'[k + 1])
      ensures s'.pending[k].Deltas? ==> Explains(s'.pending[k].ds, vs'[k], vs'[k + 1])
    {
      if k < |s.pending| {
        assert vs'[k] == vs[k] && vs'[k + 1] == vs[k + 1] && s'.pending[k] == s.pending[k];
      } else {
        assert vs'[k] == Last(s) && vs'[k + 1] == w.view;
      }
    }
    assert History(vs', s'.pending);
    forall id, h | Current(s, id, h) && id < Last(s).nextId
      ensures Current(s', id, h)
    {
      CommitCurrent(s, id, h);
    }
    forall r | r in s'.readers
      ensures ReaderOk(s', s'.readers[r])
    {
      var rd := s.readers[r];
      assert ReaderOk(s, rd);
      assert s'.versions[rd.snapshot] == s.versions[rd.snapshot];
      assert DbValid(s.versions[rd.snapshot]);
      if rd.asked.Some? {
        KnownId(s.versions[rd.snapshot], rd.asked.value.index);
      }
    }
  }

  lemma GrowsId(a: Db, b: Db)
    requires Succeeds(a, b)
    ensures a.nextId <= b.nextId
  {
  }

  lemma KnownId(db: Db, id: int)
    requires DbValid(db) && id in db.indexes
    ensures id < db.nextId
  {
  }

  lemma CommitCurrent(s: State, id: int, h: Held)
    requires VersionsOk(s) && s.writer.Some? && WriterOk(s, s.writer.value) && !s.writer.value.broken
    requires Current(s, id, h) && id < Last(s).nextId
    ensures Current(Next(s, Commit), id, h)
  {
    hide Settle, Built, History, Patch, Explains;
    var s' := Next(s, Commit);
    var w := s.writer.value;
    if NoReset(s'.pending) && id in Last(s').indexes {
      assert s'.pending[|s.pending|] == if w.imports then Reset else Deltas(w.ds);
      forall k | 0 <= k < |s.pending|
        ensures s.pending[k].Deltas?
      {
        assert s'.pending[k] == s.pending[k];
      }
      SettleAppend(h, id, s.pending, w.ds);
      PatchCatchesUp(id, w.ds, Last(s), w.view);
    }
  }

  lemma ApplyVersions(s: State)
    requires VersionsOk(s) && s.pending != []
    ensures VersionsOk(Next(s, Apply(0))) && Next(s, Apply(0)).pending == s.pending[1..] && s.versions != []
  {
    hide DbValid, History;
    var s' := Next(s, Apply(0));
    assert s.pending[..0] + s.pending[1..] == s.pending[1..];
    HistoryTail(s.versions[Base(s)..], s.pending);
    assert s'.versions[Base(s')..] == s.versions[Base(s)..][1..];
  }

  lemma ApplyReader(s: State, rd: Reader)
    requires VersionsOk(s) && s.pending != [] && ReaderOk(s, rd)
    ensures ReaderOk(Next(s, Apply(0)), rd)
  {
    hide VersionsOk, Current, PatchAll;
    var s' := Next(s, Apply(0));
    ApplyVersions(s);
    if rd.asked.Some? && rd.asked.value.epoch == s'.epoch {
      var h := Built(s.versions[rd.snapshot].indexes[rd.asked.value.index]);
      assert Patch(h, rd.asked.value.index, []) == h;
      ApplyCurrent(s, s', rd.asked.value.index, h);
    }
  }

  lemma InvApply(s: State)
    requires Inv(s) && s.pending != []
    ensures Inv(Next(s, Apply(0)))
  {
    hide VersionsOk, Current, ReaderOk, WriterOk, PatchAll;
    var s' := Next(s, Apply(0));
    ApplyVersions(s);
    forall id | id in s'.cache
      ensures id < Last(s').nextId && Current(s', id, s'.cache[id])
    {
      PatchAllAt(s.cache, s.pending[0].ds);
      if s.pending[0].ds == [] {
        assert Patch(s.cache[id], id, []) == s.cache[id];
      }
      ApplyCurrent(s, s', id, s.cache[id]);
    }
    forall r | r in s'.readers
      ensures ReaderOk(s', s'.readers[r])
    {
      ApplyReader(s, s.readers[r]);
    }
    if s.writer.Some? {
      ApplyWriter(s, s', s.writer.value);
    }
  }

  lemma ApplyWriter(s: State, s': State, w: Writer)
    requires s.versions != [] && s'.versions == s.versions && WriterOk(s, w)
    ensures WriterOk(s', w)
  {
  }

  lemma ApplyCurrent(s: State, s': State, id: int, h: Held)
    requires s.versions != [] && s'.versions == s.versions && s.pending != [] && s'.pending == s.pending[1..]
    requires s.pending[0].Deltas? && Current(s, id, h)
    ensures Current(s', id, Patch(h, id, s.pending[0].ds))
  {
    if NoReset(s'.pending) {
      forall k | 0 <= k < |s.pending|
        ensures s.pending[k].Deltas?
      {
        assert k > 0 ==> s'.pending[k - 1] == s.pending[k];
      }
    }
  }

  lemma InvStep(s: State, step: Step)
    requires Inv(s) && Enabled(s, step) && Careful(s, step)
    ensures Inv(Next(s, step))
  {
    hide Inv, Next;
    match step
    case Commit => InvCommit(s);
    case Apply(i) => InvApply(s);
    case Open(_) => InvReader(s, step);
    case Lookup(_, _) => InvReader(s, step);
    case Install(_, _) => InvReader(s, step);
    case Close(_) => InvReader(s, step);
    case _ => InvWriter(s, step);
  }

  /** Over every careful run the invariant holds. */
  lemma {:induction false} InvRun(s: State, steps: seq<Step>)
    requires Inv(s) && Runs(s, steps) && CarefulRun(s, steps)
    ensures Inv(End(s, steps))
    decreases |steps|
  {
    if steps != [] {
      hide Inv, Next, Obeys;
      assert Careful(s, steps[0]);
      InvStep(s, steps[0]);
      InvRun(Next(s, steps[0]), steps[1..]);
    }
  }

  /** Whatever the interleaving: for every index, the cached matrix followed by the pending
      batches in commit order is the committed vectors; with nothing pending it is what a
      rebuild would give. */
  lemma CacheNeverStale(db: Db, steps: seq<Step>, id: int)
    requires DbValid(db) && Runs(Start(db), steps) && CarefulRun(Start(db), steps)
    ensures var s := End(Start(db), steps);
      s.versions != [] && (id in s.cache && id in Last(s).indexes ==>
        && (NoReset(s.pending) ==> Settle(s.cache[id], id, s.pending) == Built(Last(s).indexes[id]))
        && (s.pending == [] ==> s.cache[id] == Built(Last(s).indexes[id])))
  {
    InvStart(db);
    InvRun(Start(db), steps);
  }

  // ------------------------------------------------------ the rules are needed

  /** A database with one index holding one vector. */
  ghost function Single(x: real): Db {
    Db(map[0 := Index(1, Metric((v: Vec) => Some(v), (a: Vec, b: Vec) => 0.0), map[0 := [x]], map[0 := [x]])], 1)
  }

  ghost function Sets(x: real): Step {
    Write(Single(x), {0}, [Delta(0, 0, Some([x]))])
  }

  lemma SinglesDiffer(x: real, y: real)
    requires x != y
    ensures Built(Single(x).indexes[0]) != Built(Single(y).indexes[0])
    ensures DbValid(Single(x))
  {
    assert Built(Single(x).indexes[0]).rows[0] == [x] && Built(Single(y).indexes[0]).rows[0] == [y];
    assert [x][0] == x && [y][0] == y;
  }

  ghost function MatrixOf(x: real): Held {
    Built(Single(x).indexes[0])
  }

  lemma SingleHas(x: real)
    ensures 0 in Single(x).indexes && DbValid(Single(x)) && Built(Single(x).indexes[0]) == MatrixOf(x)
  {
  }

  /** One permitted step from `s` to `t`. */
  ghost predicate Goes(s: State, step: Step, t: State, rules: set<Rule>) {
    Enabled(s, step) && Obeys(s, step, rules) && Next(s, step) == t
  }

  ghost predicate Reaches(s: State, steps: seq<Step>, t: State, rules: set<Rule>) {
    Runs(s, steps) && RunObeys(s, steps, rules) && End(s, steps) == t
  }

  lemma Stays(s: State, rules: set<Rule>)
    ensures Reaches(s, [], s, rules)
  {
  }

  lemma GoesOn(s: State, step: Step, t: State, rest: seq<Step>, u: State, rules: set<Rule>)
    requires Goes(s, step, t, rules) && Reaches(t, rest, u, rules)
    ensures Reaches(s, [step] + rest, u, rules)
  {
    assert ([step] + rest)[0] == step && ([step] + rest)[1..] == rest;
  }

  lemma GoesBegin(s: State, rules: set<Rule>)
    requires s.writer.None? && s.versions != []
    ensures Goes(s, Begin, s.(writer := Some(Writer(s.versions[|s.versions| - 1], [], false, false))), rules)
  {
  }

  lemma OneRecord(db: Db, y: real)
    requires db.indexes.Keys == {0} && VectorAt(db.indexes[0], 0) == Some([y])
    ensures Records([Delta(0, 0, Some([y]))], db, {0})
  {
  }

  lemma SinglesAlike(x: real, y: real)
    ensures SameSchema(Single(x), Single(y)) && Untouched(Single(x), Single(y), {0}) && DbAgrees(Single(y))
  {
  }

  lemma GoesSet(s: State, x: real, y: real, rules: set<Rule>)
    requires s.writer == Some(Writer(Single(x), [], false, false))
    ensures Goes(s, Sets(y), s.(writer := Some(Writer(Single(y), [Delta(0, 0, Some([y]))], false, false))), rules)
  {
    OneRecord(Single(y), y);
    hide Records, Untouched, PatchOne, Built;
    SinglesAlike(x, y);
    assert [] + [Delta(0, 0, Some([y]))] == [Delta(0, 0, Some([y]))];
  }

  lemma GoesFail(s: State, x: real, y: real, rules: set<Rule>)
    requires s.writer == Some(Writer(Single(x), [], false, false))
    ensures Goes(s, Fail(Single(y)), s.(writer := Some(Writer(Single(y), [], true, false))), rules)
  {
  }

  lemma GoesCommit(s: State, rules: set<Rule>)
    requires s.writer.Some? && !s.writer.value.imports && (Clean in rules ==> !s.writer.value.broken)
    ensures Goes(s, Commit, s.(versions := s.versions + [s.writer.value.view],
                               pending := s.pending + [Deltas(s.writer.value.ds)], writer := None), rules)
  {
  }

  lemma GoesApply(s: State, i: nat, rules: set<Rule>)
    requires i < |s.pending| && s.pending[i].Deltas? && s.pending[i].ds != [] && (Ordered in rules ==> i == 0)
    ensures Goes(s, Apply(i), s.(cache := PatchAll(s.cache, s.pending[i].ds), epoch := s.epoch + 1,
                                 pending := s.pending[..i] + s.pending[i + 1..]), rules)
  {
  }

  lemma GoesApplyNothing(s: State, rules: set<Rule>)
    requires s.pending != [] && s.pending[0] == Deltas([])
    ensures Goes(s, Apply(0), s.(pending := s.pending[1..]), rules)
  {
    assert s.pending[..0] + s.pending[1..] == s.pending[1..];
  }

  lemma GoesOpen(s: State, r: int, rules: set<Rule>)
    requires r !in s.readers && s.versions != []
    ensures Goes(s, Open(r), s.(readers := s.readers[r := Reader(|s.versions| - 1, None)]), rules)
  {
  }

  /** A reader looks the index up, finds nothing, builds and installs. */
  lemma BuildsFresh(s: State, r: int, v: nat, x: real, rest: seq<Step>, u: State, rules: set<Rule>) returns (steps: seq<Step>)
    requires r in s.readers && s.readers[r] == Reader(v, None) && v < |s.versions| && s.versions[v] == Single(x) && 0 !in s.cache
    requires Snapshots in rules ==> v >= Base(s)
    requires Reaches(s.(cache := s.cache[0 := MatrixOf(x)]), rest, u, rules)
    ensures Reaches(s, steps, u, rules)
  {
    hide Reaches, Built;
    var s1 := s.(readers := s.readers[r := Reader(v, Some(Ask(0, s.epoch)))]);
    var s2 := s.(cache := s.cache[0 := MatrixOf(x)]);
    SingleHas(x);
    assert s1.readers[r := Reader(v, None)] == s.readers;
    assert Goes(s, Lookup(r, 0), s1, rules);
    assert Goes(s1, Install(r, true), s2, rules);
    GoesOn(s1, Install(r, true), s2, rest, u, rules);
    steps := [Install(r, true)] + rest;
    GoesOn(s, Lookup(r, 0), s1, steps, u, rules);
    steps := [Lookup(r, 0)] + steps;
  }

  lemma PatchSingle(x: real, y: real)
    ensures PatchAll(map[0 := MatrixOf(x)], [Delta(0, 0, Some([y]))]) == map[0 := MatrixOf(y)]
  {
    var h := MatrixOf(x);
    assert PatchOne(h, Delta(0, 0, Some([y]))).rows == MatrixOf(y).rows;
    assert [Delta(0, 0, Some([y]))][..0] == [];
  }

  lemma PatchEmpty(ds: seq<Delta>)
    ensures PatchAll(map[], ds) == map[]
  {
    PatchAllAt(map[], ds);
  }

  /** The run ends with nothing pending and a cached matrix that is not the committed one. */
  ghost predicate EndsStale(db: Db, steps: seq<Step>, rules: set<Rule>) {
    && DbValid(db) && Runs(Start(db), steps) && RunObeys(Start(db), steps, rules)
    && var s := End(Start(db), steps);
    && s.pending == [] && s.versions != [] && 0 in s.cache && 0 in Last(s).indexes
    && s.cache[0] != Built(Last(s).indexes[0])
  }

  lemma StaleEnd(steps: seq<Step>, t: State, rules: set<Rule>, x: real, y: real)
    requires Reaches(Start(Single(1.0)), steps, t, rules) && x != y
    requires t.pending == [] && t.versions != [] && t.versions[|t.versions| - 1] == Single(x) && t.cache == map[0 := MatrixOf(y)]
    ensures EndsStale(Single(1.0), steps, rules)
  {
    SinglesDiffer(y, x);
    SingleHas(x);
    SingleHas(1.0);
  }

  /** A reader whose snapshot is older than the last applied batch installs a matrix that
      misses it for good. */
  lemma StaleWithoutSnapshotRule() returns (db: Db, steps: seq<Step>)
    ensures EndsStale(db, steps, {Ordered, Clean, Agreed})
  {
    hide Reaches, Goes, EndsStale, MatrixOf, Single, PatchAll, Sets;
    var rules := {Ordered, Clean, Agreed};
    db := Single(1.0);
    var b2 := [Delta(0, 0, Some([2.0]))];
    var s0 := State([db], [], map[], 0, map[], None);
    var s1 := s0.(readers := map[1 := Reader(0, None)]);
    var s2 := s1.(writer := Some(Writer(db, [], false, false)));
    var s3 := s1.(writer := Some(Writer(Single(2.0), b2, false, false)));
    var s4 := State([db, Single(2.0)], [Deltas(b2)], map[], 0, s1.readers, None);
    var s5 := s4.(epoch := 1, pending := []);
    var s6 := s5.(cache := map[0 := MatrixOf(1.0)]);
    GoesOpen(s0, 1, rules);
    GoesBegin(s1, rules);
    GoesSet(s2, 1.0, 2.0, rules);
    GoesCommit(s3, rules);
    assert s3.versions + [Single(2.0)] == s4.versions && s3.pending + [Deltas(b2)] == s4.pending;
    GoesApply(s4, 0, rules);
    assert s4.pending[..0] + s4.pending[1..] == [];
    PatchEmpty(b2);
    Stays(s6, rules);
    steps := BuildsFresh(s5, 1, 0, 1.0, [], s6, rules);
    GoesOn(s4, Apply(0), s5, steps, s6, rules);
    steps := [Apply(0)] + steps;
    GoesOn(s3, Commit, s4, steps, s6, rules);
    steps := [Commit] + steps;
    GoesOn(s2, Sets(2.0), s3, steps, s6, rules);
    steps := [Sets(2.0)] + steps;
    GoesOn(s1, Begin, s2, steps, s6, rules);
    steps := [Begin] + steps;
    GoesOn(s0, Open(1), s1, steps, s6, rules);
    steps := [Open(1)] + steps;
    StaleEnd(steps, s6, rules, 2.0, 1.0);
  }

  /** The state once a reader has cached the index. */
  ghost function Warm(): State {
    State([Single(1.0)], [], map[0 := MatrixOf(1.0)], 0, map[1 := Reader(0, None)], None)
  }

  lemma WarmUp(rest: seq<Step>, u: State, rules: set<Rule>) returns (steps: seq<Step>)
    requires Reaches(Warm(), rest, u, rules)
    ensures Reaches(Start(Single(1.0)), steps, u, rules)
  {
    hide Reaches, Goes, MatrixOf, Single;
    var s0 := Start(Single(1.0));
    var s1 := s0.(readers := map[1 := Reader(0, None)]);
    GoesOpen(s0, 1, rules);
    steps := BuildsFresh(s1, 1, 0, 1.0, rest, u, rules);
    GoesOn(s0, Open(1), s1, steps, u, rules);
    steps := [Open(1)] + steps;
  }

  /** The last two steps: the newer batch is applied before the older one. */
  lemma AppliedBackwards(s6: State, db: Db, rules: set<Rule>) returns (steps: seq<Step>, s8: State)
    requires rules == {Snapshots, Clean, Agreed} && db == Single(1.0)
    requires s6 == Warm().(versions := [db, Single(2.0), Single(3.0)],
                           pending := [Deltas([Delta(0, 0, Some([2.0]))]), Deltas([Delta(0, 0, Some([3.0]))])])
    ensures s8 == s6.(pending := [], cache := map[0 := MatrixOf(2.0)], epoch := 2) && Reaches(s6, steps, s8, rules)
  {
    hide Reaches, Goes, MatrixOf, Single, PatchAll;
    var b2, b3 := [Delta(0, 0, Some([2.0]))], [Delta(0, 0, Some([3.0]))];
    var s7 := s6.(pending := [Deltas(b2)], cache := map[0 := MatrixOf(3.0)], epoch := 1);
    s8 := s6.(pending := [], cache := map[0 := MatrixOf(2.0)], epoch := 2);
    GoesApply(s6, 1, rules);
    PatchSingle(1.0, 3.0);
    assert s6.pending[..1] + s6.pending[2..] == s7.pending;
    GoesApply(s7, 0, rules);
    PatchSingle(3.0, 2.0);
    assert s7.pending[..0] + s7.pending[1..] == [];
    Stays(s8, rules);
    GoesOn(s7, Apply(0), s8, [], s8, rules);
    steps := [Apply(0)] + [];
    GoesOn(s6, Apply(1), s7, steps, s8, rules);
    steps := [Apply(1)] + steps;
  }

  /** Two batches applied in the wrong order leave the older value in the cache. */
  lemma StaleWithoutOrder() returns (db: Db, steps: seq<Step>)
    ensures EndsStale(db, steps, {Snapshots, Clean, Agreed})
  {
    hide Reaches, Goes, EndsStale, MatrixOf, Single, PatchAll, Sets, Start;
    var rules := {Snapshots, Clean, Agreed};
    db := Single(1.0);
    var b2, b3 := [Delta(0, 0, Some([2.0]))], [Delta(0, 0, Some([3.0]))];
    var s0 := Warm();
    var s1 := s0.(writer := Some(Writer(db, [], false, false)));
    var s2 := s0.(writer := Some(Writer(Single(2.0), b2, false, false)));
    var s3 := s0.(versions := [db, Single(2.0)], pending := [Deltas(b2)]);
    var s4 := s3.(writer := Some(Writer(Single(2.0), [], false, false)));
    var s5 := s3.(writer := Some(Writer(Single(3.0), b3, false, false)));
    var s6 := s0.(versions := [db, Single(2.0), Single(3.0)], pending := [Deltas(b2), Deltas(b3)]);
    GoesBegin(s0, rules);
    GoesSet(s1, 1.0, 2.0, rules);
    GoesCommit(s2, rules);
    assert s2.versions + [Single(2.0)] == s3.versions && s2.pending + [Deltas(b2)] == s3.pending;
    GoesBegin(s3, rules);
    GoesSet(s4, 2.0, 3.0, rules);
    GoesCommit(s5, rules);
    assert s5.versions + [Single(3.0)] == s6.versions && s5.pending + [Deltas(b3)] == s6.pending;
    var s8;
    steps, s8 := AppliedBackwards(s6, db, rules);
    GoesOn(s5, Commit, s6, steps, s8, rules);
    steps := [Commit] + steps;
    GoesOn(s4, Sets(3.0), s5, steps, s8, rules);
    steps := [Sets(3.0)] + steps;
    GoesOn(s3, Begin, s4, steps, s8, rules);
    steps := [Begin] + steps;
    GoesOn(s2, Commit, s3, steps, s8, rules);
    steps := [Commit] + steps;
    GoesOn(s1, Sets(2.0), s2, steps, s8, rules);
    steps := [Sets(2.0)] + steps;
    GoesOn(s0, Begin, s1, steps, s8, rules);
    steps := WarmUp([Begin] + steps, s8, rules);
    StaleEnd(steps, s8, rules, 3.0, 2.0);
  }

  /** A statement that fails half-way in a transaction leaves writes without deltas; if the
      caller commits anyway, the cache never hears of them. */
  lemma StaleWithoutRollback() returns (db: Db, steps: seq<Step>)
    ensures EndsStale(db, steps, {Snapshots, Ordered, Agreed})
  {
    hide Reaches, Goes, EndsStale, MatrixOf, Single, PatchAll, Start;
    var rules := {Snapshots, Ordered, Agreed};
    db := Single(1.0);
    var s0 := Warm();
    var s1 := s0.(writer := Some(Writer(db, [], false, false)));
    var s2 := s0.(writer := Some(Writer(Single(2.0), [], true, false)));
    var s3 := s0.(versions := [db, Single(2.0)], pending := [Deltas([])]);
    var s4 := s3.(pending := []);
    GoesBegin(s0, rules);
    GoesFail(s1, 1.0, 2.0, rules);
    GoesCommit(s2, rules);
    assert s2.versions + [Single(2.0)] == s3.versions && s2.pending + [Deltas([])] == s3.pending;
    GoesApplyNothing(s3, rules);
    Stays(s4, rules);
    GoesOn(s3, Apply(0), s4, [], s4, rules);
    steps := [Apply(0)] + [];
    GoesOn(s2, Commit, s3, steps, s4, rules);
    steps := [Commit] + steps;
    GoesOn(s1, Fail(Single(2.0)), s2, steps, s4, rules);
    steps := [Fail(Single(2.0))] + steps;
    GoesOn(s0, Begin, s1, steps, s4, rules);
    steps := WarmUp([Begin] + steps, s4, rules);
    StaleEnd(steps, s4, rules, 2.0, 1.0);
  }

  /** A database whose one node is read as `x` by a build and as `y` by a statement. */
  ghost function TwoFaced(x: real, y: real): Db {
    Db(map[0 := Single(x).indexes[0].(vectors := map[0 := [y]])], 1)
  }

  lemma GoesTwoFaced(s: State, x: real, y: real, rules: set<Rule>)
    requires s.writer == Some(Writer(Single(1.0), [], false, false)) && Agreed !in rules
    ensures Goes(s, Write(TwoFaced(x, y), {0}, [Delta(0, 0, Some([y]))]),
                 s.(writer := Some(Writer(TwoFaced(x, y), [Delta(0, 0, Some([y]))], false, false))), rules)
  {
    OneRecord(TwoFaced(x, y), y);
    hide Records;
    assert [] + [Delta(0, 0, Some([y]))] == [Delta(0, 0, Some([y]))];
  }

  lemma TwoFacedBuilt(x: real, y: real)
    requires x != y
    ensures 0 in TwoFaced(x, y).indexes && Built(TwoFaced(x, y).indexes[0]) != MatrixOf(y)
  {
    SinglesDiffer(x, y);
    BuiltRow(TwoFaced(x, y).indexes[0], 0);
    BuiltRow(Single(x).indexes[0], 0);
    BuiltRow(Single(y).indexes[0], 0);
    assert [x][0] == x && [y][0] == y;
  }

  /** Where the two readers differ, a patched matrix is not what a build would give. */
  lemma StaleWithoutAgreement() returns (db: Db, steps: seq<Step>)
    ensures EndsStale(db, steps, {Snapshots, Ordered, Clean})
  {
    hide Reaches, Goes, MatrixOf, Single, TwoFaced, PatchAll, Start, DbValid, Built;
    var rules := {Snapshots, Ordered, Clean};
    db := Single(1.0);
    var odd, b := TwoFaced(3.0, 2.0), [Delta(0, 0, Some([2.0]))];
    var s0 := Warm();
    var s1 := s0.(writer := Some(Writer(db, [], false, false)));
    var s2 := s0.(writer := Some(Writer(odd, b, false, false)));
    var s3 := s0.(versions := [db, odd], pending := [Deltas(b)]);
    var s4 := s3.(pending := [], cache := map[0 := MatrixOf(2.0)], epoch := 1);
    GoesBegin(s0, rules);
    GoesTwoFaced(s1, 3.0, 2.0, rules);
    GoesCommit(s2, rules);
    assert s2.versions + [odd] == s3.versions && s2.pending + [Deltas(b)] == s3.pending;
    GoesApply(s3, 0, rules);
    PatchSingle(1.0, 2.0);
    assert s3.pending[..0] + s3.pending[1..] == [];
    Stays(s4, rules);
    GoesOn(s3, Apply(0), s4, [], s4, rules);
    steps := [Apply(0)] + [];
    GoesOn(s2, Commit, s3, steps, s4, rules);
    steps := [Commit] + steps;
    GoesOn(s1, Write(odd, {0}, b), s2, steps, s4, rules);
    steps := [Write(odd, {0}, b)] + steps;
    GoesOn(s0, Begin, s1, steps, s4, rules);
    steps := WarmUp([Begin] + steps, s4, rules);
    SingleHas(1.0);
    TwoFacedBuilt(3.0, 2.0);
    EndsOdd(steps, s4, rules, odd, 2.0);
  }

  lemma EndsOdd(steps: seq<Step>, t: State, rules: set<Rule>, odd: Db, y: real)
    requires DbValid(Single(1.0)) && Reaches(Start(Single(1.0)), steps, t, rules)
    requires t.pending == [] && t.versions != [] && t.versions[|t.versions| - 1] == odd && t.cache == map[0 := MatrixOf(y)]
    requires 0 in odd.indexes && Built(odd.indexes[0]) != MatrixOf(y)
    ensures EndsStale(Single(1.0), steps, rules)
  {
  }
}
