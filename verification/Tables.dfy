/** The SQL tables as finite maps, and the bookkeeping over them: node_labels in step,
    adjacency in id order, sums over finite sets. */
module Tables {
  import opened Seqs
  import opened Keys
  import opened LabelText

  /** Stored property maps: no null values. */
  type Props = map<string, Value>

  /** A row of the table of nodes; its label column is text. */
  datatype NodeRow = NodeRow(labels: string, props: Props)

  /** A node as the statement sees it. */
  datatype NodeVal = NodeVal(labels: seq<string>, props: Props)

  function ReadRow(row: NodeRow): NodeVal {
    NodeVal(Split(row.labels), row.props)
  }

  function RowOf(val: NodeVal): NodeRow {
    NodeRow(Join(val.labels), val.props)
  }

  datatype EdgeRow = EdgeRow(typ: string, start: int, end: int, props: Props)

  /** `labelRows` is the junction table node_labels; ids come from counters. */
  datatype Tables = Tables(nodes: map<int, NodeRow>, edges: map<int, EdgeRow>, labelRows: set<(int, string)>,
                           nextNode: nat, nextEdge: nat)

  /** A cached entity: as last written, and whether it is marked deleted. */
  datatype NodeEnt = NodeEnt(val: NodeVal, deleted: bool)

  datatype RelEnt = RelEnt(row: EdgeRow, deleted: bool)

  function LabelPairs(id: int, labels: seq<string>): set<(int, string)> {
    set l | l in labels :: (id, l)
  }

  /** The labels in the column of a node. */
  function LabelsOf(t: Tables, id: int): seq<string> {
    if id in t.nodes then Split(t.nodes[id].labels) else []
  }

  /** node_labels has one row for every label of every node. */
  ghost predicate LabelsInStep(t: Tables) {
    forall id, l :: (id, l) in t.labelRows <==> id in t.nodes && l in LabelsOf(t, id)
  }

  /** Both ends of every relationship exist. */
  ghost predicate NothingDangles(t: Tables) {
    forall e :: e in t.edges ==> t.edges[e].start in t.nodes && t.edges[e].end in t.nodes
  }

  ghost predicate TablesOk(t: Tables) {
    && LabelsInStep(t) && NothingDangles(t)
    && (forall id :: id in t.nodes ==> 0 <= id < t.nextNode && Distinct(LabelsOf(t, id)))
    && (forall e :: e in t.edges ==> 0 <= e < t.nextEdge)
  }

  /** The node a relationship has on one side. */
  function Side(e: EdgeRow, outgoing: bool): int {
    if outgoing then e.start else e.end
  }

  /** The relationships on one side of a node with ids below `k`, in id order. */
  function EdgesBelow(t: Tables, n: int, outgoing: bool, k: nat): seq<int> {
    if k == 0 then []
    else EdgesBelow(t, n, outgoing, k - 1) + if k - 1 in t.edges && Side(t.edges[k - 1], outgoing) == n then [k - 1] else []
  }

  /** What the adjacency query returns. */
  function EdgesAt(t: Tables, n: int, outgoing: bool): seq<int> {
    EdgesBelow(t, n, outgoing, t.nextEdge)
  }

  lemma {:induction false} EdgesBelowIs(t: Tables, n: int, outgoing: bool, k: nat)
    ensures forall e :: e in EdgesBelow(t, n, outgoing, k) <==> 0 <= e < k && e in t.edges && Side(t.edges[e], outgoing) == n
    ensures Ascending(EdgesBelow(t, n, outgoing, k))
  {
    if k > 0 {
      EdgesBelowIs(t, n, outgoing, k - 1);
      var init := EdgesBelow(t, n, outgoing, k - 1);
      assert forall i :: 0 <= i < |init| ==> init[i] in init;
    }
  }

  /** A new relationship goes to the end of the lists of its two ends. */
  lemma {:induction false} EdgesBelowSame(t: Tables, u: Tables, n: int, outgoing: bool, k: nat)
    requires forall e :: 0 <= e < k ==> (e in t.edges <==> e in u.edges)
    requires forall e :: 0 <= e < k && e in t.edges && e in u.edges ==> Side(t.edges[e], outgoing) == Side(u.edges[e], outgoing)
    ensures EdgesBelow(t, n, outgoing, k) == EdgesBelow(u, n, outgoing, k)
  {
    if k > 0 {
      EdgesBelowSame(t, u, n, outgoing, k - 1);
    }
  }

  ghost predicate Ascending(s: seq<int>) {
    forall i, j :: 0 <= i < j < |s| ==> s[i] < s[j]
  }

  lemma {:induction false} AscendingUnique(a: seq<int>, b: seq<int>)
    requires Ascending(a) && Ascending(b) && forall x :: x in a <==> x in b
    ensures a == b
    decreases |a|
  {
    if a == [] {
      NoMembers(b);
    } else {
      var n := |a| - 1;
      assert a[n] in a;
      assert b != [];
      var m := |b| - 1;
      assert b[m] in b;
      var i :| 0 <= i < |b| && b[i] == a[n];
      var j :| 0 <= j < |a| && a[j] == b[m];
      assert a[n] == b[m];
      forall x
        ensures x in a[..n] <==> x in b[..m]
      {
        InitOfAscending(a, x);
        InitOfAscending(b, x);
      }
      AscendingUnique(a[..n], b[..m]);
      assert a == a[..n] + [a[n]] && b == b[..m] + [b[m]];
    }
  }

  lemma InitOfAscending(a: seq<int>, x: int)
    requires Ascending(a) && a != []
    ensures x in a[..|a| - 1] <==> x in a && x != a[|a| - 1]
  {
    assert a == a[..|a| - 1] + [a[|a| - 1]];
  }

  // --------------------------------------------------------------------- sums

  ghost function Sum<T>(s: set<T>, f: T -> int): int {
    if s == {} then 0
    else
      var x :| x in s;
      f(x) + Sum(s - {x}, f)
  }

  lemma {:induction false} SumInsert<T>(s: set<T>, x: T, f: T -> int)
    requires x !in s
    ensures Sum(s + {x}, f) == Sum(s, f) + f(x)
    decreases |s|
  {
    var t := s + {x};
    var y :| y in t && Sum(t, f) == f(y) + Sum(t - {y}, f);
    if y == x {
      assert t - {y} == s;
    } else {
      assert t - {y} == (s - {y}) + {x};
      SumInsert(s - {y}, x, f);
      SumInsert(s - {y}, y, f);
      assert (s - {y}) + {y} == s;
    }
  }

  lemma {:induction false} SumSame<T>(s: set<T>, f: T -> int, g: T -> int)
    requires forall x :: x in s ==> f(x) == g(x)
    ensures Sum(s, f) == Sum(s, g)
    decreases |s|
  {
    if s != {} {
      var x :| x in s;
      SumSame(s - {x}, f, g);
      assert (s - {x}) + {x} == s;
      SumInsert(s - {x}, x, f);
      SumInsert(s - {x}, x, g);
    }
  }

  /** Elements of weight zero do not matter. */
  lemma {:induction false} SumWiden<T>(s: set<T>, t: set<T>, f: T -> int)
    requires s <= t && forall x :: x in t && x !in s ==> f(x) == 0
    ensures Sum(s, f) == Sum(t, f)
    decreases |t|
  {
    if s != t {
      var x :| x in t && x !in s;
      SumWiden(s, t - {x}, f);
      assert (t - {x}) + {x} == t;
      SumInsert(t - {x}, x, f);
    }
  }

  lemma {:induction false} SumMinus<T>(s: set<T>, f: T -> int, g: T -> int, h: T -> int)
    requires forall x :: x in s ==> h(x) == f(x) - g(x)
    ensures Sum(s, h) == Sum(s, f) - Sum(s, g)
    decreases |s|
  {
    if s != {} {
      var x :| x in s;
      SumMinus(s - {x}, f, g, h);
      assert (s - {x}) + {x} == s;
      SumInsert(s - {x}, x, f);
      SumInsert(s - {x}, x, g);
      SumInsert(s - {x}, x, h);
    }
  }

  /** The change in the size of a set is what came minus what went. */
  lemma SetChange<T>(before: set<T>, after: set<T>)
    ensures |after| - |before| == |after - before| - |before - after|
  {
    assert after == (after - before) + (after * before);
    assert before == (before - after) + (after * before);
  }
}
