/** The dense matrix behind a vector index, as a map from ids to prepared rows. */
module Matrices {
  import opened Seqs

  type Vec = seq<real>

  /** `prepare` is what is stored for a vector: its normalisation under cosine (None for a zero
      vector, which has no direction), the vector itself under the Euclidean metric. */
  datatype Metric = Metric(prepare: Vec -> Option<Vec>, score: (Vec, Vec) -> real)

  type Table = map<int, Vec>

  /** What storing `v` under `id` means for the table. */
  function Upserted(t: Table, metric: Metric, id: int, v: Vec): Table {
    match metric.prepare(v)
    case None => t - {id}
    case Some(row) => t[id := row]
  }

  /** Ids, positions and rows correspond one to one. */
  ghost predicate Linked(ids: seq<int>, rows: seq<Vec>, pos: map<int, nat>) {
    && |rows| == |ids|
    && (forall id :: id in pos ==> pos[id] < |ids| && ids[pos[id]] == id)
    && (forall i :: 0 <= i < |ids| ==> ids[i] in pos && pos[ids[i]] == i)
  }

  ghost function TableOf(ids: seq<int>, rows: seq<Vec>, pos: map<int, nat>): Table
    requires Linked(ids, rows, pos)
  {
    map id | id in pos :: rows[pos[id]]
  }

  lemma SameMap<K, V>(a: map<K, V>, b: map<K, V>)
    requires forall id :: id in a <==> id in b
    requires forall id :: id in a && id in b ==> a[id] == b[id]
    ensures a == b
  {
  }

  /** Moving the last entry into the gap removes exactly one id. */
  lemma SwapRemoves(ids: seq<int>, rows: seq<Vec>, pos: map<int, nat>, id: int)
    requires Linked(ids, rows, pos) && id in pos
    ensures var p, last := pos[id], |ids| - 1;
      var ids', rows', pos' := ids[p := ids[last]][..last], rows[p := rows[last]][..last], pos[ids[last] := p] - {id};
      Linked(ids', rows', pos') && TableOf(ids', rows', pos') == TableOf(ids, rows, pos) - {id}
  {
    var p, last := pos[id], |ids| - 1;
    var ids', rows', pos' := ids[p := ids[last]][..last], rows[p := rows[last]][..last], pos[ids[last] := p] - {id};
    forall x | x in pos'
      ensures pos'[x] < |ids'| && ids'[pos'[x]] == x && rows'[pos'[x]] == rows[pos[x]]
    {
      assert pos[x] != p;
    }
    forall i | 0 <= i < last
      ensures ids'[i] in pos' && pos'[ids'[i]] == i
    {
      assert pos[ids[i]] == i && pos[ids[last]] == last;
    }
  }

  lemma RowAppended(ids: seq<int>, rows: seq<Vec>, pos: map<int, nat>, id: int, row: Vec)
    requires Linked(ids, rows, pos) && id !in pos
    ensures Linked(ids + [id], rows + [row], pos[id := |ids|])
    ensures TableOf(ids + [id], rows + [row], pos[id := |ids|]) == TableOf(ids, rows, pos)[id := row]
  {
    var a, b := TableOf(ids + [id], rows + [row], pos[id := |ids|]), TableOf(ids, rows, pos)[id := row];
    forall x | x in a && x in b
      ensures a[x] == b[x]
    {
    }
    SameMap(a, b);
  }

  lemma PosInRange(ids: seq<int>, rows: seq<Vec>, pos: map<int, nat>, id: int)
    requires Linked(ids, rows, pos) && id in pos
    ensures pos[id] < |ids| == |rows|
  {
  }

  lemma RowReplaced(ids: seq<int>, rows: seq<Vec>, pos: map<int, nat>, id: int, row: Vec)
    requires Linked(ids, rows, pos) && id in pos
    ensures Linked(ids, rows[pos[id] := row], pos)
    ensures TableOf(ids, rows[pos[id] := row], pos) == TableOf(ids, rows, pos)[id := row]
  {
    var a, b := TableOf(ids, rows[pos[id] := row], pos), TableOf(ids, rows, pos)[id := row];
    forall x | x in a && x in b
      ensures a[x] == b[x]
    {
    }
    SameMap(a, b);
  }

  class Matrix {
    const dim: nat
    const metric: Metric
    var ids: seq<int>
    var rows: seq<Vec>
    var pos: map<int, nat>

    ghost predicate Valid()
      reads this
    {
      Linked(ids, rows, pos)
    }

    ghost function Contents(): Table
      reads this
      requires Valid()
    {
      TableOf(ids, rows, pos)
    }

    constructor (dim: nat, metric: Metric)
      ensures Valid() && Contents() == map[]
      ensures this.dim == dim && this.metric == metric
    {
      this.dim := dim;
      this.metric := metric;
      ids, rows, pos := [], [], map[];
    }

    /** The matrix over given rows: `Builder.Matrix` ends by building the position map. */
    constructor FromRows(dim: nat, metric: Metric, ids: seq<int>, rows: seq<Vec>)
      requires |rows| == |ids| && Distinct(ids)
      ensures Valid() && this.dim == dim && this.metric == metric && this.ids == ids && this.rows == rows
      ensures forall i :: 0 <= i < |ids| ==> ids[i] in Contents() && Contents()[ids[i]] == rows[i]
      ensures forall id :: id in Contents() ==> id in ids
    {
      this.dim := dim;
      this.metric := metric;
      this.ids, this.rows, this.pos := ids, rows, map[];
      new;
      for i := 0 to |ids|
        invariant this.ids == ids && this.rows == rows
        invariant forall id :: id in pos ==> pos[id] < i && ids[pos[id]] == id
        invariant forall j :: 0 <= j < i ==> ids[j] in pos && pos[ids[j]] == j
      {
        pos := pos[ids[i] := i];
      }
    }

    /** A row is overwritten in place or appended; a vector the metric cannot hold is removed. */
    method Upsert(id: int, v: Vec) returns (r: Result<bool>)
      requires Valid()
      modifies this
      ensures Valid()
      ensures |v| != dim ==> r.Error? && Contents() == old(Contents())
      ensures |v| == dim ==> r == Ok(metric.prepare(v).Some?) && Contents() == Upserted(old(Contents()), metric, id, v)
    {
      hide Linked, TableOf;
      if |v| != dim {
        return Error;
      }
      match metric.prepare(v) {
        case None =>
          Remove(id);
          return Ok(false);
        case Some(row) =>
          if id in pos {
            RowReplaced(ids, rows, pos, id, row);
            PosInRange(ids, rows, pos, id);
            rows := rows[pos[id] := row];
          } else {
            RowAppended(ids, rows, pos, id, row);
            pos := pos[id := |ids|];
            ids := ids + [id];
            rows := rows + [row];
          }
          return Ok(true);
      }
    }

    /** The removed row is replaced by the last one. */
    method Remove(id: int)
      requires Valid()
      modifies this
      ensures Valid() && Contents() == old(Contents()) - {id}
    {
      if id !in pos {
        return;
      }
      SwapRemoves(ids, rows, pos, id);
      var p, last := pos[id], |ids| - 1;
      assert ids[last] == ids[p] ==> p == last;
      if p != last {
        rows := rows[p := rows[last]];
        ids := ids[p := ids[last]];
        pos := pos[ids[p] := p];
      } else {
        assert rows[p := rows[last]] == rows && ids[p := ids[last]] == ids && pos[ids[last] := p] == pos;
      }
      ids := ids[..last];
      rows := rows[..last];
      pos := pos - {id};
    }
  }

  // ----------------------------------------------------------------- building

  /** Upserting entries one by one, in order. */
  ghost function UpsertedAll(t: Table, metric: Metric, ids: seq<int>, vecs: seq<Vec>): Table
    requires |ids| == |vecs|
  {
    if ids == [] then t
    else Upserted(UpsertedAll(t, metric, ids[..|ids| - 1], vecs[..|ids| - 1]), metric, ids[|ids| - 1], vecs[|ids| - 1])
  }

  /** Upserting distinct ids leaves exactly the vectors the metric can hold. */
  lemma {:induction false} UpsertedAllIs(metric: Metric, ids: seq<int>, vecs: seq<Vec>)
    requires |ids| == |vecs| && Distinct(ids)
    ensures forall i :: 0 <= i < |ids| ==> (ids[i] in UpsertedAll(map[], metric, ids, vecs) <==> metric.prepare(vecs[i]).Some?)
    ensures forall i :: 0 <= i < |ids| && metric.prepare(vecs[i]).Some? ==>
        UpsertedAll(map[], metric, ids, vecs)[ids[i]] == metric.prepare(vecs[i]).value
    ensures forall id :: id in UpsertedAll(map[], metric, ids, vecs) ==> id in ids
  {
    if ids != [] {
      var n := |ids| - 1;
      UpsertedAllIs(metric, ids[..n], vecs[..n]);
      var before := UpsertedAll(map[], metric, ids[..n], vecs[..n]);
      assert ids[n] !in ids[..n];
      assert ids[n] !in before;
      assert forall id :: id in ids[..n] ==> id in ids;
    }
  }

  /** Rows collected before they are indexed. */
  lemma KeptDistinct(ids: seq<int>, from: seq<nat>, kept: seq<int>)
    requires Distinct(ids) && |from| == |kept|
    requires forall j :: 0 <= j < |from| ==> from[j] < |ids| && kept[j] == ids[from[j]]
    requires forall j, k :: 0 <= j < k < |from| ==> from[j] < from[k]
    ensures Distinct(kept)
  {
  }

  /** The compacted entries, each from where `from` says, are what upserting all of them leaves. */
  lemma CompactedTable(metric: Metric, ids: seq<int>, vecs: seq<Vec>, from: seq<nat>, kept: seq<int>, rows: seq<Vec>, t: Table)
    requires |ids| == |vecs| && Distinct(ids) && |from| == |kept| == |rows|
    requires forall j :: 0 <= j < |from| ==> from[j] < |ids| && metric.prepare(vecs[from[j]]) == Some(rows[j]) && kept[j] == ids[from[j]]
    requires forall j :: 0 <= j < |ids| && metric.prepare(vecs[j]).Some? ==> j in from
    requires forall j :: 0 <= j < |kept| ==> kept[j] in t && t[kept[j]] == rows[j]
    requires forall id :: id in t ==> id in kept
    ensures t == UpsertedAll(map[], metric, ids, vecs)
  {
    hide UpsertedAll;
    UpsertedAllIs(metric, ids, vecs);
    var want := UpsertedAll(map[], metric, ids, vecs);
    forall id | id in t
      ensures id in want && t[id] == want[id]
    {
      var j :| 0 <= j < |kept| && kept[j] == id;
      assert ids[from[j]] == id;
    }
    forall id | id in want
      ensures id in t
    {
      var j :| 0 <= j < |ids| && ids[j] == id;
      var k :| 0 <= k < |from| && from[k] == j;
      assert kept[k] == id;
    }
  }

  class Builder {
    const dim: nat
    const metric: Metric
    var ids: seq<int>
    var rows: seq<Vec>

    ghost predicate Valid()
      reads this
    {
      |rows| == |ids| && forall i :: 0 <= i < |rows| ==> |rows[i]| == dim
    }

    /** A row handed out by `NextRow` that has been neither kept nor discarded. */
    ghost predicate Open()
      reads this
    {
      |rows| == |ids| + 1 && forall i :: 0 <= i < |rows| ==> |rows[i]| == dim
    }

    constructor (dim: nat, metric: Metric)
      ensures Valid() && ids == [] && this.dim == dim && this.metric == metric
    {
      this.dim := dim;
      this.metric := metric;
      ids, rows := [], [];
    }

    /** `v` is what the caller writes into the row. */
    method NextRow(v: Vec)
      requires Valid() && |v| == dim
      modifies this
      ensures Open() && ids == old(ids) && rows == old(rows) + [v]
    {
      rows := rows + [v];
    }

    method Keep(id: int)
      requires Open()
      modifies this
      ensures Valid() && ids == old(ids) + [id] && rows == old(rows)
    {
      ids := ids + [id];
    }

    method Discard()
      requires Open()
      modifies this
      ensures Valid() && ids == old(ids) && rows == old(rows)[..|ids|]
    {
      rows := rows[..|rows| - 1];
    }

    /** Normalises every row and notes which are held. */
    method Prepare() returns (keep: seq<bool>)
      requires Valid()
      modifies this
      ensures ids == old(ids) && |rows| == |keep| == |ids|
      ensures forall j :: 0 <= j < |keep| ==> keep[j] == metric.prepare(old(rows)[j]).Some?
      ensures forall j :: 0 <= j < |keep| && keep[j] ==> rows[j] == metric.prepare(old(rows)[j]).value
    {
      keep := [];
      for i := 0 to |ids|
        invariant ids == old(ids) && |rows| == |ids| && |keep| == i
        invariant forall j :: 0 <= j < i ==> keep[j] == metric.prepare(old(rows)[j]).Some?
        invariant forall j :: 0 <= j < i && keep[j] ==> rows[j] == metric.prepare(old(rows)[j]).value
        invariant forall j :: i <= j < |ids| ==> rows[j] == old(rows)[j]
      {
        var prepared := metric.prepare(rows[i]);
        keep := keep + [prepared.Some?];
        if prepared.Some? {
          rows := rows[i := prepared.value];
        }
      }
    }

    /** Moves the held entries to the front in place and cuts off the rest; `from` tells where
        each came from. */
    method Compact(keep: seq<bool>) returns (ghost from: seq<nat>)
      requires |keep| == |ids| == |rows|
      modifies this
      ensures |ids| == |rows| == |from|
      ensures forall j :: 0 <= j < |from| ==> from[j] < |keep| && keep[from[j]]
      ensures forall j, k :: 0 <= j < k < |from| ==> from[j] < from[k]
      ensures forall j :: 0 <= j < |keep| && keep[j] ==> j in from
      ensures forall j :: 0 <= j < |from| ==> ids[j] == old(ids)[from[j]] && rows[j] == old(rows)[from[j]]
    {
      var n, out := |ids|, 0;
      from := [];
      for i := 0 to n
        invariant 0 <= out <= i && |rows| == |ids| == n && out == |from|
        invariant forall j :: 0 <= j < out ==> from[j] < i && keep[from[j]]
        invariant forall j, k :: 0 <= j < k < out ==> from[j] < from[k]
        invariant forall j :: 0 <= j < i && keep[j] ==> j in from
        invariant forall j :: 0 <= j < out ==> ids[j] == old(ids)[from[j]] && rows[j] == old(rows)[from[j]]
        invariant forall j :: i <= j < n ==> ids[j] == old(ids)[j] && rows[j] == old(rows)[j]
      {
        if !keep[i] {
          continue;
        }
        if out != i {
          rows := rows[out := rows[i]];
          ids := ids[out := ids[i]];
        }
        from := from + [i];
        out := out + 1;
      }
      ids, rows := ids[..out], rows[..out];
    }

    /** Prepares every row, drops those the metric cannot hold, and indexes the others: the
        matrix that upserting the rows one by one would have given. */
    method Build() returns (m: Matrix)
      requires Valid() && Distinct(ids)
      modifies this
      ensures fresh(m) && m.Valid() && m.dim == dim && m.metric == metric
      ensures m.Contents() == UpsertedAll(map[], metric, old(ids), old(rows))
    {
      hide UpsertedAll, Linked, TableOf;
      var keep := Prepare();
      ghost var from := Compact(keep);
      KeptDistinct(old(ids), from, ids);
      m := new Matrix.FromRows(dim, metric, ids, rows);
      CompactedTable(metric, old(ids), old(rows), from, ids, rows, m.Contents());
    }
  }

  ghost function AllIds(bs: seq<Builder>): seq<int>
    reads bs
  {
    if bs == [] then [] else AllIds(bs[..|bs| - 1]) + bs[|bs| - 1].ids
  }

  ghost function AllRows(bs: seq<Builder>): seq<Vec>
    reads bs
  {
    if bs == [] then [] else AllRows(bs[..|bs| - 1]) + bs[|bs| - 1].rows
  }

  lemma NothingMerged()
    ensures AllIds([]) == [] && AllRows([]) == []
  {
  }

  lemma MergedNext(bs: seq<Builder>, i: nat)
    requires i < |bs|
    ensures AllIds(bs[..i + 1]) == AllIds(bs[..i]) + bs[i].ids && AllRows(bs[..i + 1]) == AllRows(bs[..i]) + bs[i].rows
  {
    assert bs[..i + 1][..i] == bs[..i];
  }

  /** `MergeBuilders`: the rows the workers collected, one worker after the other. */
  method MergeBuilders(bs: seq<Builder>) returns (out: Builder)
    requires bs != []
    requires forall b :: b in bs ==> b.Valid() && b.dim == bs[0].dim && b.metric == bs[0].metric
    ensures fresh(out) && out.Valid() && out.dim == bs[0].dim && out.metric == bs[0].metric
    ensures out.ids == AllIds(bs) && out.rows == AllRows(bs)
  {
    hide AllIds, AllRows;
    out := new Builder(bs[0].dim, bs[0].metric);
    NothingMerged();
    for i := 0 to |bs|
      invariant fresh(out) && out.Valid() && out.dim == bs[0].dim && out.metric == bs[0].metric
      invariant forall b :: b in bs ==> b.Valid() && b.dim == bs[0].dim && b.metric == bs[0].metric
      invariant out.ids == AllIds(bs[..i]) && out.rows == AllRows(bs[..i])
    {
      MergedNext(bs, i);
      assert bs[i] in bs;
      out.ids := out.ids + bs[i].ids;
      out.rows := out.rows + bs[i].rows;
    }
    assert bs[..|bs|] == bs;
  }

  /** How the rows were split among the workers does not matter: two ways of ordering the same
      entries with distinct ids build the same table. */
  lemma SplitIrrelevant(metric: Metric, ids1: seq<int>, vecs1: seq<Vec>, ids2: seq<int>, vecs2: seq<Vec>)
    requires |ids1| == |vecs1| && |ids2| == |vecs2| && Distinct(ids1) && Distinct(ids2)
    requires forall id, v :: Entry(ids1, vecs1, id, v) <==> Entry(ids2, vecs2, id, v)
    ensures UpsertedAll(map[], metric, ids1, vecs1) == UpsertedAll(map[], metric, ids2, vecs2)
  {
    hide UpsertedAll, Entry;
    TableIncluded(metric, ids1, vecs1, ids2, vecs2);
    TableIncluded(metric, ids2, vecs2, ids1, vecs1);
    var a, b := UpsertedAll(map[], metric, ids1, vecs1), UpsertedAll(map[], metric, ids2, vecs2);
    forall x
      ensures x in a <==> x in b
    {
    }
    forall x | x in a && x in b
      ensures a[x] == b[x]
    {
    }
    SameMap(a, b);
  }

  ghost predicate Entry(ids: seq<int>, vecs: seq<Vec>, id: int, v: Vec)
    requires |ids| == |vecs|
  {
    exists i :: 0 <= i < |ids| && ids[i] == id && vecs[i] == v
  }

  lemma TableIncluded(metric: Metric, ids1: seq<int>, vecs1: seq<Vec>, ids2: seq<int>, vecs2: seq<Vec>)
    requires |ids1| == |vecs1| && |ids2| == |vecs2| && Distinct(ids1) && Distinct(ids2)
    requires forall id, v :: Entry(ids1, vecs1, id, v) ==> Entry(ids2, vecs2, id, v)
    ensures forall id :: id in UpsertedAll(map[], metric, ids1, vecs1) ==>
        id in UpsertedAll(map[], metric, ids2, vecs2)
        && UpsertedAll(map[], metric, ids1, vecs1)[id] == UpsertedAll(map[], metric, ids2, vecs2)[id]
  {
    hide UpsertedAll;
    UpsertedAllIs(metric, ids1, vecs1);
    UpsertedAllIs(metric, ids2, vecs2);
    forall id | id in UpsertedAll(map[], metric, ids1, vecs1)
      ensures id in UpsertedAll(map[], metric, ids2, vecs2)
      ensures UpsertedAll(map[], metric, ids1, vecs1)[id] == UpsertedAll(map[], metric, ids2, vecs2)[id]
    {
      var i :| 0 <= i < |ids1| && ids1[i] == id;
      assert Entry(ids1, vecs1, id, vecs1[i]);
      var j :| 0 <= j < |ids2| && ids2[j] == id && vecs2[j] == vecs1[i];
    }
  }
}
