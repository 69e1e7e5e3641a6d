/** The shared cache of vector matrices, one per index, and the deltas statements feed it. */
module VectorCache {
  import opened Seqs
  import opened Matrices

  /** How one node's vector changed: None if the node is no longer in the index. */
  datatype Delta = Delta(index: int, node: int, vec: Option<Vec>)

  /** What a database version holds for an index: `stored` as a build reads the texts of the
      nodes (`StoredVector`), `vectors` as a statement reads the decoded properties (`float32s`). */
  datatype Index = Index(dim: nat, metric: Metric, stored: map<int, Vec>, vectors: map<int, Vec>) {
    ghost predicate Valid() {
      (forall n :: n in vectors ==> |vectors[n]| == dim) && forall n :: n in stored ==> |stored[n]| == dim
    }

    /** Both readers yield the same rows; `StoredVectors.ReadersAgree` says for which values they do. */
    ghost predicate Agrees() {
      forall n :: Prepared(metric, StoredAt(this, n)) == Prepared(metric, VectorAt(this, n))
    }
  }

  /** A matrix as a value. */
  datatype Held = Held(dim: nat, metric: Metric, rows: Table)

  type Cache = map<int, Held>

  function VectorAt(ix: Index, n: int): Option<Vec> {
    if n in ix.vectors then Some(ix.vectors[n]) else None
  }

  function StoredAt(ix: Index, n: int): Option<Vec> {
    if n in ix.stored then Some(ix.stored[n]) else None
  }

  function RowAt(h: Held, n: int): Option<Vec> {
    if n in h.rows then Some(h.rows[n]) else None
  }

  function Prepared(metric: Metric, v: Option<Vec>): Option<Vec> {
    match v
    case None => None
    case Some(x) => metric.prepare(x)
  }

  /** A matrix built from scratch. */
  ghost function Built(ix: Index): Held {
    Held(ix.dim, ix.metric, map n | n in ix.stored && ix.metric.prepare(ix.stored[n]).Some? :: ix.metric.prepare(ix.stored[n]).value)
  }

  lemma BuiltRow(ix: Index, n: int)
    ensures RowAt(Built(ix), n) == Prepared(ix.metric, StoredAt(ix, n))
    ensures ix.Agrees() ==> RowAt(Built(ix), n) == Prepared(ix.metric, VectorAt(ix, n))
  {
  }

  lemma RowsDecide(a: Held, b: Held)
    requires a.dim == b.dim && a.metric == b.metric && forall n :: RowAt(a, n) == RowAt(b, n)
    ensures a == b
  {
    forall n
      ensures n in a.rows <==> n in b.rows
    {
      assert RowAt(a, n) == RowAt(b, n);
    }
    forall n | n in a.rows && n in b.rows
      ensures a.rows[n] == b.rows[n]
    {
      assert RowAt(a, n) == RowAt(b, n);
    }
    SameMap(a.rows, b.rows);
  }

  /** Building by upserting every vector read, in whatever order they are read, gives `Built`. */
  lemma BuiltByUpserting(ix: Index, ids: seq<int>, vecs: seq<Vec>)
    requires |ids| == |vecs| && Distinct(ids)
    requires forall i :: 0 <= i < |ids| ==> ids[i] in ix.stored && ix.stored[ids[i]] == vecs[i]
    requires forall n :: n in ix.stored ==> n in ids
    ensures UpsertedAll(map[], ix.metric, ids, vecs) == Built(ix).rows
  {
    hide UpsertedAll;
    UpsertedAllIs(ix.metric, ids, vecs);
    var a, b := UpsertedAll(map[], ix.metric, ids, vecs), Built(ix).rows;
    forall n
      ensures n in a <==> n in b
    {
      if n in ids {
        var i :| 0 <= i < |ids| && ids[i] == n;
      }
    }
    forall n | n in a && n in b
      ensures a[n] == b[n]
    {
      var i :| 0 <= i < |ids| && ids[i] == n;
    }
    SameMap(a, b);
  }

  // ------------------------------------------------------------------ patching

  /** `Remove` or `Upsert`; a vector of the wrong dimension is refused and changes nothing. */
  function PatchOne(h: Held, d: Delta): Held {
    match d.vec
    case None => h.(rows := h.rows - {d.node})
    case Some(v) => if |v| != h.dim then h else h.(rows := Upserted(h.rows, h.metric, d.node, v))
  }

  /** What a batch does to the matrix of one index. */
  function Patch(h: Held, id: int, ds: seq<Delta>): (r: Held)
    ensures r.dim == h.dim && r.metric == h.metric
  {
    if ds == [] then h
    else
      var init := Patch(h, id, ds[..|ds| - 1]);
      var d := ds[|ds| - 1];
      if d.index == id then PatchOne(init, d) else init
  }

  /** What a batch does to the cache. */
  function PatchAll(c: Cache, ds: seq<Delta>): Cache {
    if ds == [] then c
    else
      var init := PatchAll(c, ds[..|ds| - 1]);
      var d := ds[|ds| - 1];
      if d.index in init then init[d.index := PatchOne(init[d.index], d)] else init
  }

  lemma {:induction false} PatchAllAt(c: Cache, ds: seq<Delta>)
    ensures PatchAll(c, ds).Keys == c.Keys
    ensures forall id :: id in c ==> PatchAll(c, ds)[id] == Patch(c[id], id, ds)
  {
    if ds != [] {
      hide PatchOne;
      PatchAllAt(c, ds[..|ds| - 1]);
    }
  }

  /** The last word of a batch about one node of one index. */
  function LastFor(ds: seq<Delta>, id: int, n: int): Option<Option<Vec>> {
    if ds == [] then None
    else
      var d := ds[|ds| - 1];
      if d.index == id && d.node == n then Some(d.vec) else LastFor(ds[..|ds| - 1], id, n)
  }

  /** Only the last delta for a node matters. */
  lemma {:induction false} PatchRow(h: Held, id: int, ds: seq<Delta>, n: int)
    ensures LastFor(ds, id, n).None? ==> RowAt(Patch(h, id, ds), n) == RowAt(h, n)
    ensures LastFor(ds, id, n).Some? && (LastFor(ds, id, n).value.Some? ==> |LastFor(ds, id, n).value.value| == h.dim) ==>
        RowAt(Patch(h, id, ds), n) == Prepared(h.metric, LastFor(ds, id, n).value)
  {
    if ds != [] {
      PatchRow(h, id, ds[..|ds| - 1], n);
    }
  }

  /** A delta for the node that is not refused: a removal, or a vector of the matrix's dimension. */
  predicate Applies(d: Delta, h: Held, id: int, n: int) {
    d.index == id && d.node == n && (d.vec.Some? ==> |d.vec.value| == h.dim)
  }

  /** A node's row after a batch: what the last delta not refused says, the prepared vector or no row. */
  lemma {:induction false} PatchedRow(h: Held, id: int, ds: seq<Delta>, n: int, i: nat)
    requires i < |ds| && Applies(ds[i], h, id, n) && forall k :: i < k < |ds| ==> !Applies(ds[k], h, id, n)
    ensures RowAt(Patch(h, id, ds), n) == if ds[i].vec.Some? then h.metric.prepare(ds[i].vec.value) else None
    decreases |ds|
  {
    hide PatchOne, RowAt;
    var init, d := ds[..|ds| - 1], ds[|ds| - 1];
    PatchOneRow(Patch(h, id, init), d, id, n);
    if i < |init| {
      assert init[i] == ds[i];
      PatchedRow(h, id, init, n, i);
    }
  }

  /** Without such a delta, the row it had. */
  lemma {:induction false} UnpatchedRow(h: Held, id: int, ds: seq<Delta>, n: int)
    requires forall k :: 0 <= k < |ds| ==> !Applies(ds[k], h, id, n)
    ensures RowAt(Patch(h, id, ds), n) == RowAt(h, n)
    decreases |ds|
  {
    hide PatchOne, RowAt;
    if ds != [] {
      var init, d := ds[..|ds| - 1], ds[|ds| - 1];
      PatchOneRow(Patch(h, id, init), d, id, n);
      UnpatchedRow(h, id, init, n);
    }
  }

  lemma PatchOneRow(h: Held, d: Delta, id: int, n: int)
    ensures var next := if d.index == id then PatchOne(h, d) else h;
      RowAt(next, n) ==
        if !Applies(d, h, id, n) then RowAt(h, n) else if d.vec.Some? then h.metric.prepare(d.vec.value) else None
  {
  }

  lemma {:induction false} LastForConcat(a: seq<Delta>, b: seq<Delta>, id: int, n: int)
    ensures LastFor(a + b, id, n) == if LastFor(b, id, n).Some? then LastFor(b, id, n) else LastFor(a, id, n)
    decreases |b|
  {
    if b == [] {
      assert a + b == a;
    } else {
      assert (a + b)[..|a + b| - 1] == a + b[..|b| - 1];
      LastForConcat(a, b[..|b| - 1], id, n);
    }
  }

  // ---------------------------------------------------------- statement deltas

  /** A touched node is recorded with the vector it has now, in every index listed. */
  function Recorded(indexes: map<int, Index>, order: seq<int>, touched: seq<int>, id: int, n: int): Option<Option<Vec>>
    requires forall x :: x in order ==> x in indexes
  {
    if id in order && n in touched then Some(VectorAt(indexes[id], n)) else None
  }

  function Overlaid<T>(a: Option<T>, b: Option<T>): Option<T> {
    if a.Some? then a else b
  }

  /** `vectorDeltas`: for every vector index, each touched node once, with its vector as it is
      now. The lists are the created nodes, the changed ones and the deleted ones. */
  method VectorDeltas(indexes: map<int, Index>, order: seq<int>, created: seq<int>, changed: seq<int>, deleted: seq<int>)
    returns (ds: seq<Delta>)
    requires forall id :: id in order ==> id in indexes
    ensures forall id, n :: LastFor(ds, id, n) == Recorded(indexes, order, created + changed + deleted, id, n)
    ensures forall d :: d in ds ==> d.index in order
  {
    ds := [];
    var touched := created + changed + deleted;
    for i := 0 to |order|
      invariant forall id, n :: LastFor(ds, id, n) == Recorded(indexes, order[..i], touched, id, n)
      invariant forall d :: d in ds ==> d.index in order
    {
      var id := order[i];
      var seen: set<int> := {};
      ghost var before := ds;
      for j := 0 to |touched|
        invariant seen == set n | n in touched[..j]
        invariant forall d :: d in ds ==> d.index in order
        invariant forall x, n :: LastFor(ds, x, n) == Overlaid(Recorded(indexes, [id], touched[..j], x, n), LastFor(before, x, n))
      {
        var n := touched[j];
        assert touched[..j + 1] == touched[..j] + [n];
        if n in seen {
          continue;
        }
        ghost var was := ds;
        ds := ds + [Delta(id, n, VectorAt(indexes[id], n))];
        assert ds[..|ds| - 1] == was;
        seen := seen + {n};
      }
      assert touched[..|touched|] == touched;
      assert order[..i + 1] == order[..i] + [id];
    }
    assert order[..|order|] == order;
  }

  // ----------------------------------------------------------------- the cache

  /** The state shared by all statements. Every method body is one critical section. */
  class Engine {
    var matrices: map<int, Matrix>
    var epoch: nat

    ghost predicate Valid()
      reads this, matrices.Values
    {
      && (forall id :: id in matrices ==> matrices[id].Valid())
      && (forall a, b :: a in matrices && b in matrices && a != b ==> matrices[a] != matrices[b])
    }

    ghost function View(): Cache
      reads this, matrices.Values
      requires Valid()
    {
      map id | id in matrices :: Held(matrices[id].dim, matrices[id].metric, matrices[id].Contents())
    }

    constructor ()
      ensures Valid() && View() == map[] && epoch == 0
    {
      matrices, epoch := map[], 0;
    }

    /** One delta against its matrix, if that is cached. */
    method ApplyOne(d: Delta)
      requires Valid()
      modifies matrices.Values
      ensures Valid() && matrices == old(matrices)
      ensures View() == if d.index in old(View()) then old(View())[d.index := PatchOne(old(View())[d.index], d)] else old(View())
    {
      if d.index !in matrices {
        return;
      }
      var m := matrices[d.index];
      assert m in matrices.Values;
      match d.vec {
        case None => m.Remove(d.node);
        case Some(v) => var _ := m.Upsert(d.node, v);
      }
      ghost var was, now := old(View()), View();
      forall id | id in matrices && id != d.index
        ensures now[id] == was[id]
      {
        assert matrices[id] in matrices.Values && matrices[id] != m;
      }
      assert now[d.index] == PatchOne(was[d.index], d);
      SameMap(now, was[d.index := PatchOne(was[d.index], d)]);
    }

    /** An empty batch leaves the epoch alone. */
    method ApplyVectorDeltas(ds: seq<Delta>)
      requires Valid()
      modifies this, matrices.Values
      ensures Valid() && matrices == old(matrices)
      ensures View() == PatchAll(old(View()), ds)
      ensures epoch == old(epoch) + if ds == [] then 0 else 1
    {
      if ds == [] {
        return;
      }
      epoch := epoch + 1;
      for i := 0 to |ds|
        invariant Valid() && matrices == old(matrices) && epoch == old(epoch) + 1
        invariant View() == PatchAll(old(View()), ds[..i])
      {
        assert ds[..i + 1][..i] == ds[..i];
        ApplyOne(ds[i]);
      }
      assert ds[..|ds|] == ds;
    }

    method DropVectorMatrix(id: int)
      requires Valid()
      modifies this
      ensures Valid() && View() == old(View()) - {id} && epoch == old(epoch) + 1
    {
      matrices := matrices - {id};
      epoch := epoch + 1;
      SameMap(View(), old(View()) - {id});
    }

    method InvalidateVectors()
      requires Valid()
      modifies this
      ensures Valid() && View() == map[] && epoch == old(epoch) + 1
    {
      matrices := map[];
      epoch := epoch + 1;
    }

    /** The first critical section of `matrixFor`: the cached matrix, or the epoch to build under. */
    method Lookup(id: int) returns (m: Option<Matrix>, at: nat)
      requires Valid()
      ensures m.Some? <==> id in View()
      ensures m.Some? ==> m.value.Valid() && Held(m.value.dim, m.value.metric, m.value.Contents()) == View()[id]
      ensures at == epoch
    {
      m := if id in matrices then Some(matrices[id]) else None;
      at := epoch;
    }

    /** The second: the matrix is kept only if the epoch has not moved and the memory budget allows. */
    method Install(id: int, m: Matrix, at: nat, fits: bool)
      requires Valid() && m.Valid() && m !in matrices.Values
      modifies this
      ensures Valid() && epoch == old(epoch)
      ensures View() == if old(epoch) == at && fits then old(View())[id := Held(m.dim, m.metric, m.Contents())] else old(View())
    {
      if epoch != at || !fits {
        return;
      }
      assert forall x :: x in matrices ==> matrices[x] in matrices.Values;
      ghost var was := View();
      matrices := matrices[id := m];
      SameMap(View(), was[id := Held(m.dim, m.metric, m.Contents())]);
    }
  }

  /** An explicit transaction, as far as the cache is concerned: its deltas reach the cache when
      it commits, all at once and in statement order, or never. */
  class Tx {
    const eng: Engine
    var done: bool
    var deltas: seq<Delta>

    constructor (eng: Engine)
      ensures this.eng == eng && !done && deltas == []
    {
      this.eng, done, deltas := eng, false, [];
    }

    /** `outcome` is what the interpreter made of the statement. */
    method Run(outcome: Result<seq<Delta>>) returns (r: Result<()>)
      modifies this
      ensures done == old(done)
      ensures r.Ok? <==> !old(done) && outcome.Ok?
      ensures deltas == if r.Ok? then old(deltas) + outcome.value else old(deltas)
    {
      if done {
        return Error;
      }
      match outcome {
        case Error => return Error;
        case Ok(ds) =>
          deltas := deltas + ds;
          return Ok(());
      }
    }

    /** `stored` tells whether the database committed. */
    method Commit(stored: bool) returns (r: Result<()>)
      requires eng.Valid()
      modifies this, eng, eng.matrices.Values
      ensures eng.Valid() && eng.matrices == old(eng.matrices)
      ensures r.Ok? <==> !old(done) && stored
      ensures r.Ok? ==>
        && done && deltas == [] && eng.View() == PatchAll(old(eng.View()), old(deltas))
        && eng.epoch == old(eng.epoch) + if old(deltas) == [] then 0 else 1
      ensures r.Error? ==>
        done == old(done) && deltas == old(deltas) && eng.View() == old(eng.View()) && eng.epoch == old(eng.epoch)
    {
      if done || !stored {
        return Error;
      }
      done := true;
      eng.ApplyVectorDeltas(deltas);
      deltas := [];
      return Ok(());
    }

    /** Harmless after a commit; never touches the cache. `stored` tells whether the database
        rolled back. */
    method Rollback(stored: bool) returns (r: Result<()>)
      modifies this
      ensures done && r.Ok? == (old(done) || stored)
      ensures deltas == if old(done) then old(deltas) else []
    {
      if done {
        return Ok(());
      }
      done := true;
      deltas := [];
      return if stored then Ok(()) else Error;
    }
  }

  /** The usual pattern: run, commit, and a deferred rollback that must not undo anything. */
  method RunAndCommit(tx: Tx, outcomes: seq<Result<seq<Delta>>>, stored: bool) returns (r: Result<()>)
    requires !tx.done && tx.deltas == [] && tx.eng.Valid()
    modifies tx, tx.eng, tx.eng.matrices.Values
    ensures tx.done && tx.eng.Valid()
    ensures r.Ok? <==> stored && forall i :: 0 <= i < |outcomes| ==> outcomes[i].Ok?
    ensures tx.eng.View() == if r.Ok? then PatchAll(old(tx.eng.View()), AllDeltas(outcomes)) else old(tx.eng.View())
  {
    hide PatchAll, Linked, TableOf, AllDeltas;
    NoDeltas();
    for i := 0 to |outcomes|
      invariant !tx.done && tx.deltas == AllDeltas(outcomes[..i])
      invariant tx.eng.Valid() && tx.eng.View() == old(tx.eng.View()) && unchanged(tx.eng) && unchanged(tx.eng.matrices.Values)
      invariant forall j :: 0 <= j < i ==> outcomes[j].Ok?
    {
      MoreDeltas(outcomes, i);
      var ran := tx.Run(outcomes[i]);
      if ran.Error? {
        var _ := tx.Rollback(true);
        return Error;
      }
    }
    assert outcomes[..|outcomes|] == outcomes;
    assert forall j :: 0 <= j < |outcomes| ==> outcomes[j].Ok?;
    r := tx.Commit(stored);
    var _ := tx.Rollback(true);
  }

  /** The deltas of the statements that succeeded, in order. */
  function AllDeltas(outcomes: seq<Result<seq<Delta>>>): seq<Delta> {
    if outcomes == [] then []
    else AllDeltas(outcomes[..|outcomes| - 1]) + match outcomes[|outcomes| - 1] case Ok(ds) => ds case Error => []
  }

  lemma NoDeltas()
    ensures AllDeltas([]) == []
  {
  }

  lemma MoreDeltas(outcomes: seq<Result<seq<Delta>>>, i: nat)
    requires i < |outcomes|
    ensures outcomes[i].Ok? ==> AllDeltas(outcomes[..i + 1]) == AllDeltas(outcomes[..i]) + outcomes[i].value
  {
    assert outcomes[..i + 1][..i] == outcomes[..i];
  }
}
