/** Exact nearest-neighbour search: the `k` best rows of a matrix, however the scan is split. */
module Searches {
  import opened Seqs
  import opened Matrices
  import opened TopK

  const MIN_ROWS_PER_WORKER := 2048

  /** Every row of the table with its score. */
  function HitsOf(t: Table, metric: Metric, q: Vec): set<Hit> {
    set id | id in t :: Hit(id, metric.score(q, t[id]))
  }

  function HitAt(ids: seq<int>, rows: seq<Vec>, metric: Metric, q: Vec, i: nat): Hit
    requires i < |ids| == |rows|
  {
    Hit(ids[i], metric.score(q, rows[i]))
  }

  function HitRange(ids: seq<int>, rows: seq<Vec>, metric: Metric, q: Vec, lo: nat, hi: nat): set<Hit>
    requires lo <= hi <= |ids| == |rows|
  {
    set i: nat | lo <= i < hi :: HitAt(ids, rows, metric, q, i)
  }

  lemma RangeSplits(ids: seq<int>, rows: seq<Vec>, metric: Metric, q: Vec, lo: nat, mid: nat, hi: nat)
    requires lo <= mid <= hi <= |ids| == |rows|
    ensures HitRange(ids, rows, metric, q, lo, hi)
         == HitRange(ids, rows, metric, q, lo, mid) + HitRange(ids, rows, metric, q, mid, hi)
  {
    forall i: nat | lo <= i < hi
      ensures HitAt(ids, rows, metric, q, i) in HitRange(ids, rows, metric, q, lo, mid) + HitRange(ids, rows, metric, q, mid, hi)
    {
      if i < mid {
        assert HitAt(ids, rows, metric, q, i) in HitRange(ids, rows, metric, q, lo, mid);
      } else {
        assert HitAt(ids, rows, metric, q, i) in HitRange(ids, rows, metric, q, mid, hi);
      }
    }
  }

  lemma RangeApart(ids: seq<int>, rows: seq<Vec>, metric: Metric, q: Vec, lo: nat, mid: nat, hi: nat)
    requires lo <= mid <= hi <= |ids| == |rows| && Distinct(ids)
    ensures HitRange(ids, rows, metric, q, lo, mid) !! HitRange(ids, rows, metric, q, mid, hi)
  {
  }

  lemma RangeIsTable(ids: seq<int>, rows: seq<Vec>, pos: map<int, nat>, metric: Metric, q: Vec)
    requires Linked(ids, rows, pos)
    ensures HitRange(ids, rows, metric, q, 0, |ids|) == HitsOf(TableOf(ids, rows, pos), metric, q)
    ensures Distinct(ids)
  {
    var t := TableOf(ids, rows, pos);
    forall h | h in HitsOf(t, metric, q)
      ensures h in HitRange(ids, rows, metric, q, 0, |ids|)
    {
      var id :| id in t && h == Hit(id, metric.score(q, t[id]));
      assert h == HitAt(ids, rows, metric, q, pos[id]);
    }
    forall h | h in HitRange(ids, rows, metric, q, 0, |ids|)
      ensures h in HitsOf(t, metric, q)
    {
      var i: nat :| i < |ids| && h == HitAt(ids, rows, metric, q, i);
      assert ids[i] in t;
    }
    forall i, j | 0 <= i < j < |ids|
      ensures ids[i] != ids[j]
    {
      assert pos[ids[i]] == i && pos[ids[j]] == j;
    }
  }

  /** Best first. */
  ghost predicate Ranked(hits: seq<Hit>) {
    forall i, j :: 0 <= i < j < |hits| ==> Worse(hits[j], hits[i])
  }

  function InsertHit(x: Hit, s: seq<Hit>): seq<Hit> {
    if s == [] || Worse(s[0], x) then [x] + s else [s[0]] + InsertHit(x, s[1..])
  }

  function SortHits(s: seq<Hit>): seq<Hit> {
    if s == [] then [] else InsertHit(s[0], SortHits(s[1..]))
  }

  lemma {:induction false} InsertBag(x: Hit, s: seq<Hit>)
    ensures multiset(InsertHit(x, s)) == multiset(s) + multiset{x}
    decreases |s|
  {
    if !(s == [] || Worse(s[0], x)) {
      InsertBag(x, s[1..]);
      assert s == [s[0]] + s[1..];
    }
  }

  lemma {:induction false} InsertRanks(x: Hit, s: seq<Hit>)
    requires Ranked(s) && x !in s
    ensures Ranked(InsertHit(x, s))
    decreases |s|
  {
    if s == [] {
    } else if Worse(s[0], x) {
      forall j | 0 <= j < |s|
        ensures Worse(s[j], x)
      {
        assert j > 0 ==> Worse(s[j], s[0]);
      }
    } else {
      InsertRanks(x, s[1..]);
      var r := InsertHit(x, s[1..]);
      InsertBag(x, s[1..]);
      forall i | 0 <= i < |r|
        ensures Worse(r[i], s[0])
      {
        assert r[i] in multiset(r);
        assert r[i] == x || r[i] in s[1..];
        assert s[0] in s;
      }
    }
  }

  lemma {:induction false} SortRanks(s: seq<Hit>)
    requires Distinct(s)
    ensures Ranked(SortHits(s)) && multiset(SortHits(s)) == multiset(s)
    decreases |s|
  {
    if s != [] {
      SortRanks(s[1..]);
      assert s == [s[0]] + s[1..];
      assert s[0] !in s[1..];
      assert s[0] !in multiset(SortHits(s[1..]));
      InsertRanks(s[0], SortHits(s[1..]));
      InsertBag(s[0], SortHits(s[1..]));
    }
  }

  lemma ChunksCover(n: nat, workers: nat)
    requires workers > 0
    ensures workers * ((n + workers - 1) / workers) >= n
  {
    var chunk := (n + workers - 1) / workers;
    assert n + workers - 1 == workers * chunk + (n + workers - 1) % workers;
  }

  function Min(a: nat, b: nat): nat {
    if a < b then a else b
  }

  /** One worker: the best of its rows. */
  method ScanChunk(m: Matrix, q: Vec, k: nat, lo: nat, hi: nat) returns (hits: seq<Hit>)
    requires m.Valid() && Distinct(m.ids) && k > 0 && lo <= hi <= |m.ids| == |m.rows|
    ensures Distinct(hits) && Best(HitRange(m.ids, m.rows, m.metric, q, lo, hi), k, Bag(hits))
  {
    hide Best, Linked;
    var h := new HitHeap();
    EmptyBest(k);
    assert HitRange(m.ids, m.rows, m.metric, q, lo, lo) == {};
    assert Bag([]) == {};
    for i := lo to hi
      invariant Heap(h.items) && Distinct(h.items)
      invariant Best(HitRange(m.ids, m.rows, m.metric, q, lo, i), k, Bag(h.items))
    {
      var x := Hit(m.ids[i], m.metric.score(q, m.rows[i]));
      ghost var seen := HitRange(m.ids, m.rows, m.metric, q, lo, i);
      RangeSplits(m.ids, m.rows, m.metric, q, lo, i, i + 1);
      RangeApart(m.ids, m.rows, m.metric, q, lo, i, i + 1);
      assert x == HitAt(m.ids, m.rows, m.metric, q, i);
      assert HitRange(m.ids, m.rows, m.metric, q, i, i + 1) == {x};
      h.Offer(x, k, seen);
    }
    hits := h.items;
  }

  lemma EmptyBest(k: nat)
    ensures Best({}, k, {})
  {
  }

  lemma BestOfBest(all: set<Hit>, k: nat, top: set<Hit>)
    requires Best(all, k, top)
    ensures Best(top, k, top)
  {
  }

  lemma BestWithin(all: set<Hit>, k: nat, top: set<Hit>)
    requires Best(all, k, top)
    ensures top <= all
  {
  }

  /** What the merged heap has been offered. */
  ghost function Offered(held: set<Hit>, hits: seq<Hit>, j: nat): set<Hit>
    requires j <= |hits|
  {
    held + Bag(hits[..j])
  }

  lemma OfferedStep(held: set<Hit>, hits: seq<Hit>, j: nat)
    requires Distinct(hits) && j < |hits| && held !! Bag(hits)
    ensures hits[j] !in Offered(held, hits, j) && Offered(held, hits, j + 1) == Offered(held, hits, j) + {hits[j]}
  {
    assert hits[..j + 1] == hits[..j] + [hits[j]];
    assert hits[j] in Bag(hits);
  }

  lemma OfferedEnds(held: set<Hit>, hits: seq<Hit>)
    ensures Offered(held, hits, 0) == held && Offered(held, hits, |hits|) == held + Bag(hits)
  {
    assert hits[..|hits|] == hits;
  }

  /** Offers one worker's hits to the merged heap. */
  method MergeInto(h: HitHeap, hits: seq<Hit>, k: nat, ghost all: set<Hit>, ghost more: set<Hit>)
    requires k > 0 && Heap(h.items) && Distinct(h.items) && Distinct(hits)
    requires Best(all, k, Bag(h.items)) && Best(more, k, Bag(hits)) && all !! more
    modifies h
    ensures Heap(h.items) && Distinct(h.items) && Best(all + more, k, Bag(h.items))
  {
    hide Best, Heap, Bag, Distinct, Offered;
    ghost var held := Bag(h.items);
    BestOfBest(all, k, held);
    BestWithin(all, k, held);
    BestWithin(more, k, Bag(hits));
    OfferedEnds(held, hits);
    for j := 0 to |hits|
      invariant Heap(h.items) && Distinct(h.items)
      invariant Best(Offered(held, hits, j), k, Bag(h.items))
    {
      OfferedStep(held, hits, j);
      h.Offer(hits[j], k, Offered(held, hits, j));
    }
    BestMerged(all, more, k, held, Bag(hits), Bag(h.items));
  }

  /** Read off scores and ids: as many hits as asked for or as there are rows, each with the score of
      its row, by score from the highest and then by id from the lowest; a row left out has a lower
      score than every hit, or the same score and a larger id. */
  ghost predicate Nearest(t: Table, metric: Metric, q: Vec, k: nat, hits: seq<Hit>) {
    && |hits| == (if k < |t| then k else |t|)
    && (forall i :: 0 <= i < |hits| ==> hits[i].id in t && hits[i].score == metric.score(q, t[hits[i].id]))
    && (forall i, j :: 0 <= i < j < |hits| ==>
      hits[i].score > hits[j].score || (hits[i].score == hits[j].score && hits[i].id < hits[j].id))
    && (forall id, i :: id in t && 0 <= i < |hits| && (forall j :: 0 <= j < |hits| ==> hits[j].id != id) ==>
      metric.score(q, t[id]) < hits[i].score || (metric.score(q, t[id]) == hits[i].score && id > hits[i].id))
  }

  /** `Search` with up to `procs` workers: exactly the min(k, n) best rows by score, then id,
      best first. The answer is determined by what the matrix holds; neither the order of its
      rows nor the split of the scan shows. */
  method Search(m: Matrix, query: Vec, k: int, procs: nat) returns (r: Result<seq<Hit>>)
    requires m.Valid() && procs > 0
    ensures r.Error? <==> |query| != m.dim || k < 1 || m.metric.prepare(query).None?
    ensures r.Ok? ==>
      Ranked(r.value) && Best(HitsOf(m.Contents(), m.metric, m.metric.prepare(query).value), k, Bag(r.value))
    ensures r.Ok? ==> Nearest(m.Contents(), m.metric, m.metric.prepare(query).value, k, r.value)
  {
    hide Best, Linked, HitRange, TableOf, HitsOf, Ranked, Worse, Nearest;
    if |query| != m.dim || k < 1 {
      return Error;
    }
    var prepared := m.metric.prepare(query);
    if prepared.None? {
      return Error;
    }
    var q := prepared.value;
    RangeIsTable(m.ids, m.rows, m.pos, m.metric, q);
    LinkedSizes(m.ids, m.rows, m.pos);
    var n := |m.ids|;
    var workers := n / MIN_ROWS_PER_WORKER;
    if workers > procs {
      workers := procs;
    }
    if workers < 1 {
      workers := 1;
    }
    var chunk := (n + workers - 1) / workers;
    ChunksCover(n, workers);
    var results: seq<seq<Hit>> := [];
    for w := 0 to workers
      invariant |results| == w
      invariant forall v :: 0 <= v < w ==> ChunkDone(m, q, k, chunk, v, results[v])
    {
      BoundsMeet(chunk, w);
      var hits := ScanChunk(m, q, k, Min(w * chunk, n), Min((w + 1) * chunk, n));
      results := results + [hits];
    }
    var merged := new HitHeap();
    EmptyBest(k);
    EmptyRange(m.ids, m.rows, m.metric, q);
    assert Bag([]) == {};
    for w := 0 to workers
      invariant Heap(merged.items) && Distinct(merged.items)
      invariant Best(HitRange(m.ids, m.rows, m.metric, q, 0, Min(w * chunk, n)), k, Bag(merged.items))
    {
      BoundsMeet(chunk, w);
      var lo, hi := Min(w * chunk, n), Min((w + 1) * chunk, n);
      assert ChunkDone(m, q, k, chunk, w, results[w]);
      RangeSplits(m.ids, m.rows, m.metric, q, 0, lo, hi);
      RangeApart(m.ids, m.rows, m.metric, q, 0, lo, hi);
      MergeInto(merged, results[w], k, HitRange(m.ids, m.rows, m.metric, q, 0, lo), HitRange(m.ids, m.rows, m.metric, q, lo, hi));
    }
    var out := SortHits(merged.items);
    SortRanks(merged.items);
    BagOf(merged.items, out);
    BestHits(m.Contents(), m.metric, q, k, out);
    return Ok(out);
  }

  function HitsAmong(t: Table, ids: set<int>, metric: Metric, q: Vec): set<Hit>
    requires ids <= t.Keys
  {
    set id | id in ids :: Hit(id, metric.score(q, t[id]))
  }

  lemma {:induction false} HitsCount(t: Table, ids: set<int>, metric: Metric, q: Vec)
    requires ids <= t.Keys
    ensures |HitsAmong(t, ids, metric, q)| == |ids|
    decreases |ids|
  {
    if ids == {} {
      assert HitsAmong(t, ids, metric, q) == {};
    } else {
      var x := AnyOf(ids);
      HitsCount(t, ids - {x}, metric, q);
      assert HitsAmong(t, ids, metric, q) == HitsAmong(t, ids - {x}, metric, q) + {Hit(x, metric.score(q, t[x]))};
    }
  }

  lemma AnyOf<T>(s: set<T>) returns (x: T)
    requires s != {}
    ensures x in s
  {
    x :| x in s;
  }

  /** What a ranking of the best hits says about scores and ids. */
  lemma BestHits(t: Table, metric: Metric, q: Vec, k: nat, hits: seq<Hit>)
    requires Distinct(hits) && Ranked(hits) && Best(HitsOf(t, metric, q), k, Bag(hits))
    ensures Nearest(t, metric, q, k, hits)
  {
    var all := HitsOf(t, metric, q);
    HitsCount(t, t.Keys, metric, q);
    assert all == HitsAmong(t, t.Keys, metric, q);
    SizeOf(hits);
    forall i | 0 <= i < |hits|
      ensures hits[i] in all && hits[i] in Bag(hits)
    {
      assert hits[i] in hits;
    }
    forall id, i | id in t && 0 <= i < |hits| && forall j :: 0 <= j < |hits| ==> hits[j].id != id
      ensures Worse(Hit(id, metric.score(q, t[id])), hits[i])
    {
      var y := Hit(id, metric.score(q, t[id]));
      assert y in all && y !in Bag(hits);
    }
  }

  ghost predicate ChunkDone(m: Matrix, q: Vec, k: nat, chunk: nat, w: nat, hits: seq<Hit>)
    reads m
  {
    && |m.ids| == |m.rows| && w * chunk <= (w + 1) * chunk && Distinct(hits)
    && Best(HitRange(m.ids, m.rows, m.metric, q, Min(w * chunk, |m.ids|), Min((w + 1) * chunk, |m.ids|)), k, Bag(hits))
  }

  lemma BoundsMeet(chunk: nat, w: nat)
    ensures 0 <= w * chunk <= (w + 1) * chunk
  {
  }

  lemma LinkedSizes(ids: seq<int>, rows: seq<Vec>, pos: map<int, nat>)
    requires Linked(ids, rows, pos)
    ensures |ids| == |rows|
  {
  }

  lemma EmptyRange(ids: seq<int>, rows: seq<Vec>, metric: Metric, q: Vec)
    requires |ids| == |rows|
    ensures HitRange(ids, rows, metric, q, 0, 0) == {}
  {
  }

  /** A ranking is determined by the hits it ranks, so the answer is unique. */
  lemma {:induction false} RankedUnique(a: seq<Hit>, b: seq<Hit>)
    requires Ranked(a) && Ranked(b) && Bag(a) == Bag(b)
    ensures a == b
    decreases |a|
  {
    if a == [] {
      assert forall h :: h in b ==> h in Bag(b);
      assert Bag(a) == {};
      NoMembers(b);
    } else {
      assert a[0] in Bag(b);
      assert b != [];
      assert b[0] in Bag(a);
      var i :| 0 <= i < |b| && b[i] == a[0];
      var j :| 0 <= j < |a| && a[j] == b[0];
      assert i == 0;
      assert Bag(a[1..]) == Bag(a) - {a[0]} by {
        assert a == [a[0]] + a[1..];
      }
      assert Bag(b[1..]) == Bag(b) - {b[0]} by {
        assert b == [b[0]] + b[1..];
      }
      RankedUnique(a[1..], b[1..]);
      assert a == [a[0]] + a[1..] && b == [b[0]] + b[1..];
    }
  }

  /** Two answers to the same question agree: the result of a search is a function of the table. */
  lemma SearchUnique(t: Table, metric: Metric, q: Vec, k: nat, a: seq<Hit>, b: seq<Hit>)
    requires Ranked(a) && Ranked(b)
    requires Best(HitsOf(t, metric, q), k, Bag(a)) && Best(HitsOf(t, metric, q), k, Bag(b))
    ensures a == b
  {
    BestUnique(HitsOf(t, metric, q), k, Bag(a), Bag(b));
    RankedUnique(a, b);
  }
}
