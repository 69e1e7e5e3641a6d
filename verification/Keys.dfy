/** Grouping keys: `groupKey` is equal for two values exactly when they are equivalent. */
module Keys {
  import opened Seqs
  import opened Decimals
  import opened NameSort

  /** Floating-point values: those printed as integers, and the others by their shortest text
      (fractions, infinities, NaN, magnitudes from 9.2e18 up). */
  datatype Float = Whole(n: int) | Text(t: string)

  /** Values of a row. A map is its entries in no particular order; a temporal value is its kind
      and text, a point or vector its text. */
  datatype Value =
    | Null
    | Bool(b: bool)
    | Int(n: int)
    | Flt(f: Float)
    | Str(s: string)
    | List(vals: seq<Value>)
    | Map(entries: seq<(string, Value)>)
    | Node(id: int)
    | Rel(id: int)
    | Temporal(kind: nat, text: string)
    | Point(text: string)
    | Vector(text: string)
    | Path(nodes: seq<int>, rels: seq<int>)

  /** Texts never contain the terminator, a float's text is not an integer's, a map has
      distinct keys, a path alternates. */
  predicate Valid(v: Value)
    decreases v
  {
    match v
    case Flt(Text(t)) => !IntText(t) && ';' !in t
    case Temporal(kind, text) => 0 < kind < 10 && ';' !in text
    case Point(text) => ';' !in text
    case Vector(text) => ';' !in text
    case List(vals) => forall i :: 0 <= i < |vals| ==> Valid(vals[i])
    case Map(es) =>
      && (forall i :: 0 <= i < |es| ==> Valid(es[i].1))
      && (forall i, j :: 0 <= i < j < |es| ==> es[i].0 != es[j].0)
    case Path(nodes, rels) => |nodes| == |rels| + 1
    case _ => true
  }

  function Number(v: Value): Option<Float> {
    match v
    case Int(n) => Some(Whole(n))
    case Flt(f) => Some(f)
    case _ => None
  }

  /** Equivalence for DISTINCT and grouping: null with null, NaN with NaN, numbers by value,
      lists element by element, maps key by key. */
  predicate Equiv(a: Value, b: Value)
    decreases a, 0
  {
    match a
    case Null => b.Null?
    case Bool(x) => b == Bool(x)
    case Int(_) => Number(b) == Number(a)
    case Flt(_) => Number(b) == Number(a)
    case Str(s) => b == Str(s)
    case List(xs) => b.List? && |b.vals| == |xs| && forall i :: 0 <= i < |xs| ==> Equiv(xs[i], b.vals[i])
    case Map(es) =>
      && b.Map? && |b.entries| == |es|
      && forall i :: 0 <= i < |es| ==> Matched(es[i].0, es[i].1, b.entries)
    case Node(id) => b == Node(id)
    case Rel(id) => b == Rel(id)
    case Temporal(kind, text) => b == Temporal(kind, text)
    case Point(text) => b == Point(text)
    case Vector(text) => b == Vector(text)
    case Path(nodes, rels) => b == Path(nodes, rels)
  }

  /** Some entry has that name and an equivalent value. */
  predicate Matched(name: string, v: Value, entries: seq<(string, Value)>)
    decreases v, 1
  {
    exists j :: 0 <= j < |entries| && entries[j].0 == name && Equiv(v, entries[j].1)
  }

  /** A name and the key of its value. */
  type Pair = (string, string)

  // ------------------------------------------------------------------ the key

  function Concat(ss: seq<string>): string {
    if ss == [] then "" else ss[0] + Concat(ss[1..])
  }

  /** The ids of a path, nodes and relationships alternating. */
  function PathKey(nodes: seq<int>, rels: seq<int>): string
    decreases |nodes|, 1
  {
    if nodes == [] then "" else Itoa(nodes[0]) + "," + PathTail(nodes, rels)
  }

  function PathTail(nodes: seq<int>, rels: seq<int>): string
    requires nodes != []
    decreases |nodes|, 0
  {
    if rels == [] then PathKey(nodes[1..], []) else Itoa(rels[0]) + "," + PathKey(nodes[1..], rels[1..])
  }

  function EntryText(p: Pair): string {
    Itoa(|p.0|) + ":" + p.0 + p.1
  }

  function EntryTexts(ps: seq<Pair>): (r: seq<string>)
    ensures |r| == |ps| && forall i :: 0 <= i < |ps| ==> r[i] == EntryText(ps[i])
  {
    seq(|ps|, i requires 0 <= i < |ps| => EntryText(ps[i]))
  }

  function FloatText(f: Float): string {
    match f
    case Whole(n) => Itoa(n)
    case Text(t) => t
  }

  /** `writeKey`. */
  function Key(v: Value): string
    decreases v
  {
    match v
    case Null => "n;"
    case Bool(b) => if b then "bt;" else "bf;"
    case Int(n) => "d" + Itoa(n) + ";"
    case Flt(f) => "d" + FloatText(f) + ";"
    case Str(s) => "s" + Itoa(|s|) + ":" + s
    case List(vals) => "l[" + Concat(seq(|vals|, i requires 0 <= i < |vals| => Key(vals[i]))) + "];"
    case Map(es) =>
      "m{" + Concat(EntryTexts(SortPairs(seq(|es|, i requires 0 <= i < |es| => (es[i].0, Key(es[i].1)))))) + "};"
    case Node(id) => "N" + Itoa(id) + ";"
    case Rel(id) => "R" + Itoa(id) + ";"
    case Temporal(kind, text) => "T" + Itoa(kind) + text + ";"
    case Point(text) => "S" + text + ";"
    case Vector(text) => "V" + text + ";"
    case Path(nodes, rels) => "P[" + PathKey(nodes, rels) + "];"
  }

  function KeysOf(vals: seq<Value>): (r: seq<string>)
    ensures |r| == |vals| && forall i :: 0 <= i < |vals| ==> r[i] == Key(vals[i])
  {
    seq(|vals|, i requires 0 <= i < |vals| => Key(vals[i]))
  }

  function PairsOf(es: seq<(string, Value)>): (r: seq<Pair>)
    ensures |r| == |es| && forall i :: 0 <= i < |es| ==> r[i] == (es[i].0, Key(es[i].1))
  {
    seq(|es|, i requires 0 <= i < |es| => (es[i].0, Key(es[i].1)))
  }

  lemma KeyOfList(vals: seq<Value>)
    ensures Key(List(vals)) == "l[" + Concat(KeysOf(vals)) + "];"
  {
    assert KeysOf(vals) == seq(|vals|, i requires 0 <= i < |vals| => Key(List(vals).vals[i]));
  }

  lemma KeyOfMap(es: seq<(string, Value)>)
    ensures Key(Map(es)) == "m{" + Concat(EntryTexts(SortPairs(PairsOf(es)))) + "};"
  {
    assert PairsOf(es) == seq(|es|, i requires 0 <= i < |es| => (Map(es).entries[i].0, Key(Map(es).entries[i].1)));
  }

  // ---------------------------------------------------- equivalent, so same key

  /** Equivalent values have equal keys. */
  lemma {:induction false} EquivKeys(a: Value, b: Value)
    requires Valid(a) && Valid(b) && Equiv(a, b)
    ensures Key(a) == Key(b)
    decreases a
  {
    match a
    case List(xs) =>
      KeyOfList(xs);
      KeyOfList(b.vals);
      forall i | 0 <= i < |xs|
        ensures Key(xs[i]) == Key(b.vals[i])
      {
        EquivKeys(xs[i], b.vals[i]);
      }
      assert KeysOf(xs) == KeysOf(b.vals);
    case Map(es) =>
      KeyOfMap(es);
      KeyOfMap(b.entries);
      forall i | 0 <= i < |es|
        ensures PairsOf(es)[i] in PairsOf(b.entries)
      {
        var j :| 0 <= j < |b.entries| && b.entries[j].0 == es[i].0 && Equiv(es[i].1, b.entries[j].1);
        EquivKeys(es[i].1, b.entries[j].1);
        assert PairsOf(b.entries)[j] == PairsOf(es)[i];
      }
      SamePairs(PairsOf(es), PairsOf(b.entries));
    case _ =>
  }

  // ---------------------------------------------------- same key, so equivalent

  /** Two texts that, whatever follows them, cannot be confused unless they are equal. */
  ghost predicate Apart(k: string, l: string) {
    forall x, y :: k + x == l + y ==> k == l
  }

  lemma ApartTail(k: string, l: string, x: string, y: string)
    requires Apart(k, l) && k + x == l + y
    ensures k == l && x == y
  {
    Counted(k, l, x, y);
  }

  /** The marker each kind of value starts with. */
  lemma KeyStarts(v: Value)
    ensures Key(v) != "" && Key(v)[0] != ']' && Key(v)[0] != '}'
  {
  }

  lemma ConcatHead(ks: seq<string>, c: char, x: string)
    requires forall i :: 0 <= i < |ks| ==> ks[i] != "" && ks[i][0] != c
    ensures Concat(ks) + [c] + x != ""
    ensures ((Concat(ks) + [c] + x)[0] == c) == (ks == [])
  {
    if ks != [] {
      assert (Concat(ks) + [c] + x)[0] == ks[0][0];
    }
  }

  lemma {:induction false} ConcatReads(ks: seq<string>, ls: seq<string>, c: char, x: string, y: string)
    requires forall i :: 0 <= i < |ks| ==> ks[i] != "" && ks[i][0] != c
    requires forall i :: 0 <= i < |ls| ==> ls[i] != "" && ls[i][0] != c
    requires forall i, j :: 0 <= i < |ks| && 0 <= j < |ls| ==> Apart(ks[i], ls[j])
    requires Concat(ks) + [c] + x == Concat(ls) + [c] + y
    ensures ks == ls && x == y
    decreases |ks|
  {
    hide Apart;
    var s, t := Concat(ks) + [c] + x, Concat(ls) + [c] + y;
    ConcatHead(ks, c, x);
    ConcatHead(ls, c, y);
    assert (ks == []) == (ls == []);
    if ks == [] {
      assert s == [c] + x && t == [c] + y;
      assert x == s[1..] && y == t[1..];
    } else {
      var s', t' := Concat(ks[1..]) + [c] + x, Concat(ls[1..]) + [c] + y;
      assert s == ks[0] + s' && t == ls[0] + t';
      ApartTail(ks[0], ls[0], s', t');
      ConcatReads(ks[1..], ls[1..], c, x, y);
      assert ks == [ks[0]] + ks[1..] && ls == [ls[0]] + ls[1..];
    }
  }

  lemma EntryApart(p: Pair, q: Pair)
    requires Apart(p.1, q.1)
    ensures Apart(EntryText(p), EntryText(q))
    ensures EntryText(p) == EntryText(q) ==> p == q
  {
    forall x, y | EntryText(p) + x == EntryText(q) + y
      ensures p == q
    {
      EntryReads(p, q, x, y);
    }
    if EntryText(p) == EntryText(q) {
      EntryReads(p, q, "", "");
    }
  }

  lemma EntryReads(p: Pair, q: Pair, x: string, y: string)
    requires Apart(p.1, q.1) && EntryText(p) + x == EntryText(q) + y
    ensures p == q
  {
    hide Apart;
    var a, b := p.0 + p.1 + x, q.0 + q.1 + y;
    assert EntryText(p) + x == Itoa(|p.0|) + [':'] + a;
    assert EntryText(q) + y == Itoa(|q.0|) + [':'] + b;
    ItoaLacks(|p.0|, ':');
    ItoaLacks(|q.0|, ':');
    Terminated(Itoa(|p.0|), Itoa(|q.0|), ':', a, b);
    ItoaInjective(|p.0|, |q.0|);
    assert a == p.0 + (p.1 + x) && b == q.0 + (q.1 + y);
    Counted(p.0, q.0, p.1 + x, q.1 + y);
    ApartTail(p.1, q.1, x, y);
  }

  lemma {:induction false} PathLacks(nodes: seq<int>, rels: seq<int>)
    ensures ']' !in PathKey(nodes, rels)
    decreases |nodes|
  {
    if nodes != [] {
      ItoaLacks(nodes[0], ']');
      if rels != [] {
        ItoaLacks(rels[0], ']');
      }
      PathLacks(nodes[1..], if rels == [] then [] else rels[1..]);
    }
  }

  lemma IdReads(m: int, n: int, x: string, y: string)
    requires Itoa(m) + "," + x == Itoa(n) + "," + y
    ensures m == n && x == y
  {
    ItoaLacks(m, ',');
    ItoaLacks(n, ',');
    assert Itoa(m) + "," + x == Itoa(m) + [','] + x && Itoa(n) + "," + y == Itoa(n) + [','] + y;
    Terminated(Itoa(m), Itoa(n), ',', x, y);
    ItoaInjective(m, n);
  }

  lemma {:induction false} PathReads(n1: seq<int>, r1: seq<int>, n2: seq<int>, r2: seq<int>)
    requires |n1| == |r1| + 1 && |n2| == |r2| + 1 && PathKey(n1, r1) == PathKey(n2, r2)
    ensures n1 == n2 && r1 == r2
    decreases |n1|
  {
    IdReads(n1[0], n2[0], PathTail(n1, r1), PathTail(n2, r2));
    PathTailEmpty(n1, r1);
    PathTailEmpty(n2, r2);
    if r1 != [] {
      IdReads(r1[0], r2[0], PathKey(n1[1..], r1[1..]), PathKey(n2[1..], r2[1..]));
      PathReads(n1[1..], r1[1..], n2[1..], r2[1..]);
      assert r1 == [r1[0]] + r1[1..] && r2 == [r2[0]] + r2[1..];
    }
    assert n1 == [n1[0]] + n1[1..] && n2 == [n2[0]] + n2[1..];
  }

  lemma PathTailEmpty(nodes: seq<int>, rels: seq<int>)
    requires |nodes| == |rels| + 1
    ensures (PathTail(nodes, rels) == "") == (rels == [])
  {
  }

  function Mark(v: Value): char {
    match v
    case Null => 'n'
    case Bool(_) => 'b'
    case Int(_) => 'd'
    case Flt(_) => 'd'
    case Str(_) => 's'
    case List(_) => 'l'
    case Map(_) => 'm'
    case Node(_) => 'N'
    case Rel(_) => 'R'
    case Temporal(_, _) => 'T'
    case Point(_) => 'S'
    case Vector(_) => 'V'
    case Path(_, _) => 'P'
  }

  lemma KeyMark(v: Value)
    ensures Key(v) != "" && Key(v)[0] == Mark(v)
  {
  }

  lemma SameMark(a: Value, b: Value, x: string, y: string)
    requires Key(a) + x == Key(b) + y
    ensures Mark(a) == Mark(b)
  {
    KeyMark(a);
    KeyMark(b);
    assert (Key(a) + x)[0] == Mark(a) && (Key(b) + y)[0] == Mark(b);
  }

  /** A marker, a text without the terminator, and the terminator. */
  lemma MarkedReads(m: string, a: string, b: string, x: string, y: string)
    requires ';' !in a && ';' !in b && m + a + ";" + x == m + b + ";" + y
    ensures a == b
  {
    assert m + a + ";" + x == m + (a + [';'] + x) && m + b + ";" + y == m + (b + [';'] + y);
    Counted(m, m, a + [';'] + x, b + [';'] + y);
    Terminated(a, b, ';', x, y);
  }

  lemma NumberReads(a: Value, b: Value, x: string, y: string)
    requires Valid(a) && Valid(b) && Number(a).Some? && Number(b).Some? && Key(a) + x == Key(b) + y
    ensures Number(a) == Number(b)
  {
    var f, g := Number(a).value, Number(b).value;
    FloatLacks(a, f);
    FloatLacks(b, g);
    MarkedReads("d", FloatText(f), FloatText(g), x, y);
    if f.Whole? {
      ItoaReads(f.n);
    }
    if g.Whole? {
      ItoaReads(g.n);
    }
  }

  lemma FloatLacks(v: Value, f: Float)
    requires Valid(v) && Number(v) == Some(f)
    ensures ';' !in FloatText(f) && (f.Text? ==> !IntText(f.t)) && Key(v) == "d" + FloatText(f) + ";"
  {
    if f.Whole? {
      ItoaLacks(f.n, ';');
    }
  }

  lemma StringReads(s: string, t: string, x: string, y: string)
    requires Key(Str(s)) + x == Key(Str(t)) + y
    ensures s == t
  {
    assert Key(Str(s)) + x == "s" + (Itoa(|s|) + [':'] + (s + x));
    assert Key(Str(t)) + y == "s" + (Itoa(|t|) + [':'] + (t + y));
    Counted("s", "s", Itoa(|s|) + [':'] + (s + x), Itoa(|t|) + [':'] + (t + y));
    ItoaLacks(|s|, ':');
    ItoaLacks(|t|, ':');
    Terminated(Itoa(|s|), Itoa(|t|), ':', s + x, t + y);
    ItoaInjective(|s|, |t|);
    Counted(s, t, x, y);
  }

  lemma IdKeyReads(mark: string, m: int, n: int, x: string, y: string)
    requires mark + Itoa(m) + ";" + x == mark + Itoa(n) + ";" + y
    ensures m == n
  {
    ItoaLacks(m, ';');
    ItoaLacks(n, ';');
    MarkedReads(mark, Itoa(m), Itoa(n), x, y);
    ItoaInjective(m, n);
  }

  lemma TemporalReads(k: nat, s: string, l: nat, t: string, x: string, y: string)
    requires 0 < k < 10 && 0 < l < 10 && ';' !in s && ';' !in t
    requires Key(Temporal(k, s)) + x == Key(Temporal(l, t)) + y
    ensures k == l && s == t
  {
    var u, v := Itoa(k) + s, Itoa(l) + t;
    ItoaLacks(k, ';');
    ItoaLacks(l, ';');
    assert Key(Temporal(k, s)) == "T" + u + ";" && Key(Temporal(l, t)) == "T" + v + ";";
    MarkedReads("T", u, v, x, y);
    assert |Itoa(k)| == 1 && |Itoa(l)| == 1;
    Counted(Itoa(k), Itoa(l), s, t);
    ItoaInjective(k, l);
  }

  lemma TextKeyReads(s: string, t: string, x: string, y: string)
    requires ';' !in s && ';' !in t
    ensures Key(Point(s)) + x == Key(Point(t)) + y ==> s == t
    ensures Key(Vector(s)) + x == Key(Vector(t)) + y ==> s == t
  {
    assert Key(Point(s)) == "S" + s + ";" && Key(Point(t)) == "S" + t + ";";
    assert Key(Vector(s)) == "V" + s + ";" && Key(Vector(t)) == "V" + t + ";";
    if Key(Point(s)) + x == Key(Point(t)) + y {
      MarkedReads("S", s, t, x, y);
    }
    if Key(Vector(s)) + x == Key(Vector(t)) + y {
      MarkedReads("V", s, t, x, y);
    }
  }

  lemma PathBody(v: Value, x: string)
    requires v.Path?
    ensures Key(v) + x == "P[" + (PathKey(v.nodes, v.rels) + [']'] + (";" + x))
  {
    hide PathKey;
  }

  lemma PathKeyReads(a: Value, b: Value, x: string, y: string)
    requires Valid(a) && Valid(b) && a.Path? && b.Path? && Key(a) + x == Key(b) + y
    ensures a == b
  {
    var s, t := PathKey(a.nodes, a.rels), PathKey(b.nodes, b.rels);
    PathLacks(a.nodes, a.rels);
    PathLacks(b.nodes, b.rels);
    PathBody(a, x);
    PathBody(b, y);
    hide Key, PathKey;
    Counted("P[", "P[", s + [']'] + (";" + x), t + [']'] + (";" + y));
    Terminated(s, t, ']', ";" + x, ";" + y);
    PathReads(a.nodes, a.rels, b.nodes, b.rels);
  }

  lemma ListBody(vals: seq<Value>, x: string)
    ensures Key(List(vals)) + x == "l[" + (Concat(KeysOf(vals)) + [']'] + (";" + x))
    ensures forall i :: 0 <= i < |vals| ==> KeysOf(vals)[i] != "" && KeysOf(vals)[i][0] != ']'
  {
    KeyOfList(vals);
    forall i | 0 <= i < |vals|
      ensures KeysOf(vals)[i] != "" && KeysOf(vals)[i][0] != ']'
    {
      KeyStarts(vals[i]);
    }
  }

  lemma MapBody(es: seq<(string, Value)>, x: string)
    ensures Key(Map(es)) + x == "m{" + (Concat(EntryTexts(SortPairs(PairsOf(es)))) + ['}'] + (";" + x))
    ensures var ts := EntryTexts(SortPairs(PairsOf(es)));
      forall i :: 0 <= i < |ts| ==> ts[i] != "" && ts[i][0] != '}'
  {
    KeyOfMap(es);
    var ps := SortPairs(PairsOf(es));
    forall i | 0 <= i < |ps|
      ensures EntryText(ps[i]) != "" && EntryText(ps[i])[0] != '}'
    {
      ItoaLacks(|ps[i].0|, '}');
      assert EntryText(ps[i])[0] == Itoa(|ps[i].0|)[0];
    }
  }

  /** Keys are prefix-free up to equivalence: if the key of one value, followed by anything, reads
      like the key of another followed by anything, the values are equivalent. */
  lemma {:induction false} KeyReads(a: Value, b: Value, x: string, y: string)
    requires Valid(a) && Valid(b) && Key(a) + x == Key(b) + y
    ensures Equiv(a, b)
    decreases a, 1
  {
    hide Key, Concat;
    SameMark(a, b, x, y);
    match a
    case Null =>
    case Bool(_) =>
      BoolReads(a, b, x, y);
    case Int(_) => NumberReads(a, b, x, y);
    case Flt(_) => NumberReads(a, b, x, y);
    case Str(s) => StringReads(s, b.s, x, y);
    case Node(id) =>
      NodeKeys(id, b.id);
      IdKeyReads("N", id, b.id, x, y);
    case Rel(id) =>
      NodeKeys(id, b.id);
      IdKeyReads("R", id, b.id, x, y);
    case Temporal(k, t) => TemporalReads(k, t, b.kind, b.text, x, y);
    case Point(t) => TextKeyReads(t, b.text, x, y);
    case Vector(t) => TextKeyReads(t, b.text, x, y);
    case Path(_, _) => PathKeyReads(a, b, x, y);
    case List(_) => ListReads(a, b, x, y);
    case Map(_) => MapReads(a, b, x, y);
  }

  lemma BoolReads(a: Value, b: Value, x: string, y: string)
    requires a.Bool? && b.Bool? && Key(a) + x == Key(b) + y
    ensures a == b
  {
    assert (Key(a) + x)[1] == (if a.b then 't' else 'f') && (Key(b) + y)[1] == if b.b then 't' else 'f';
  }

  lemma NodeKeys(m: int, n: int)
    ensures Key(Node(m)) == "N" + Itoa(m) + ";" && Key(Node(n)) == "N" + Itoa(n) + ";"
    ensures Key(Rel(m)) == "R" + Itoa(m) + ";" && Key(Rel(n)) == "R" + Itoa(n) + ";"
  {
  }

  lemma {:induction false} ListReads(a: Value, b: Value, x: string, y: string)
    requires Valid(a) && Valid(b) && a.List? && b.List? && Key(a) + x == Key(b) + y
    ensures Equiv(a, b)
    decreases a, 0
  {
    hide Key, Concat, Apart;
    ListBody(a.vals, x);
    ListBody(b.vals, y);
    var ks, ls := KeysOf(a.vals), KeysOf(b.vals);
    Counted("l[", "l[", Concat(ks) + [']'] + (";" + x), Concat(ls) + [']'] + (";" + y));
    forall i, j | 0 <= i < |ks| && 0 <= j < |ls|
      ensures Apart(ks[i], ls[j])
    {
      ValuesApart(a.vals[i], b.vals[j]);
    }
    ConcatReads(ks, ls, ']', ";" + x, ";" + y);
    forall i | 0 <= i < |a.vals|
      ensures Equiv(a.vals[i], b.vals[i])
    {
      assert ks[i] == ls[i];
      assert Key(a.vals[i]) + "" == Key(b.vals[i]) + "";
      KeyReads(a.vals[i], b.vals[i], "", "");
    }
  }

  lemma {:induction false} ValuesApart(a: Value, b: Value)
    requires Valid(a) && Valid(b)
    ensures Apart(Key(a), Key(b))
    decreases a, 2
  {
    hide Key;
    forall x, y | Key(a) + x == Key(b) + y
      ensures Key(a) == Key(b)
    {
      KeyReads(a, b, x, y);
      EquivKeys(a, b);
    }
  }

  lemma {:induction false} MapReads(a: Value, b: Value, x: string, y: string)
    requires Valid(a) && Valid(b) && a.Map? && b.Map? && Key(a) + x == Key(b) + y
    ensures Equiv(a, b)
    decreases a, 0
  {
    hide Key, Concat, Apart, SortPairs, EntryText;
    MapBody(a.entries, x);
    MapBody(b.entries, y);
    var ps, qs := SortPairs(PairsOf(a.entries)), SortPairs(PairsOf(b.entries));
    var ks, ls := EntryTexts(ps), EntryTexts(qs);
    Counted("m{", "m{", Concat(ks) + ['}'] + (";" + x), Concat(ls) + ['}'] + (";" + y));
    forall i, j | 0 <= i < |ks| && 0 <= j < |ls|
      ensures Apart(ks[i], ls[j]) && (ks[i] == ls[j] ==> ps[i] == qs[j])
    {
      var m := EntryOf(a.entries, i);
      var n := EntryOf(b.entries, j);
      ValuesApart(a.entries[m].1, b.entries[n].1);
      EntryApart(ps[i], qs[j]);
    }
    ConcatReads(ks, ls, '}', ";" + x, ";" + y);
    assert ps == qs;
    assert |a.entries| == |b.entries| by {
      SortMember(PairsOf(a.entries), ("", ""));
      SortMember(PairsOf(b.entries), ("", ""));
    }
    forall i | 0 <= i < |a.entries|
      ensures Matched(a.entries[i].0, a.entries[i].1, b.entries)
    {
      var p := PairsOf(a.entries)[i];
      SortMember(PairsOf(a.entries), p);
      SortMember(PairsOf(b.entries), p);
      var j :| 0 <= j < |b.entries| && PairsOf(b.entries)[j] == p;
      assert Key(a.entries[i].1) + "" == Key(b.entries[j].1) + "";
      KeyReads(a.entries[i].1, b.entries[j].1, "", "");
    }
  }

  /** The entry a sorted pair comes from. */
  lemma EntryOf(es: seq<(string, Value)>, i: nat) returns (m: nat)
    requires i < |SortPairs(PairsOf(es))|
    ensures m < |es| && SortPairs(PairsOf(es))[i] == (es[m].0, Key(es[m].1))
  {
    var p := SortPairs(PairsOf(es))[i];
    SortMember(PairsOf(es), p);
    m :| 0 <= m < |es| && PairsOf(es)[m] == p;
  }

  /** `groupKey` is canonical: two values share a key if and only if they are equivalent. */
  lemma KeyCanonical(a: Value, b: Value)
    requires Valid(a) && Valid(b)
    ensures Key(a) == Key(b) <==> Equiv(a, b)
  {
    if Key(a) == Key(b) {
      KeyReads(a, b, "", "");
    }
    if Equiv(a, b) {
      EquivKeys(a, b);
    }
  }

  /** Equivalence is one: the keys see to it. */
  lemma EquivIsEquivalence(a: Value, b: Value, c: Value)
    requires Valid(a) && Valid(b) && Valid(c)
    ensures Equiv(a, a) && (Equiv(a, b) ==> Equiv(b, a)) && (Equiv(a, b) && Equiv(b, c) ==> Equiv(a, c))
  {
    hide Key, Equiv, Valid;
    KeyCanonical(a, a);
    KeyCanonical(a, b);
    KeyCanonical(b, a);
    KeyCanonical(b, c);
    KeyCanonical(a, c);
  }

  predicate Numeric(v: Value) {
    v.Int? || v.Flt?
  }

  /** The same numbers, and the same keys with equivalent values: everything else is equivalent only
      to itself, lists position by position. */
  lemma EquivMeans(a: Value, b: Value)
    requires Valid(a) && Valid(b)
    ensures !a.List? && !a.Map? && !Numeric(a) ==> (Equiv(a, b) <==> a == b)
    ensures (a.Int? && b.Int?) || (a.Flt? && b.Flt?) ==> (Equiv(a, b) <==> a == b)
    ensures forall n, f :: a == Int(n) && b == Flt(f) ==> (Equiv(a, b) <==> f == Whole(n)) && (Equiv(b, a) <==> f == Whole(n))
    ensures Numeric(a) && !Numeric(b) ==> !Equiv(a, b)
    ensures a.List? ==> (Equiv(a, b) <==> b.List? && |a.vals| == |b.vals| && forall i :: 0 <= i < |a.vals| ==> Equiv(a.vals[i], b.vals[i]))
    ensures a.Map? ==> (Equiv(a, b) <==> b.Map? && SameEntries(a.entries, b.entries))
  {
    hide Valid;
    if a.Map? && b.Map? {
      EntriesMean(a, b);
    }
  }

  /** Every key of either is a key of the other, with an equivalent value. */
  ghost predicate SameEntries(es: seq<(string, Value)>, fs: seq<(string, Value)>) {
    && (forall i :: 0 <= i < |es| ==> Matched(es[i].0, es[i].1, fs))
    && forall j :: 0 <= j < |fs| ==> Covers(es, fs[j].0, fs[j].1)
  }

  ghost predicate Covers(es: seq<(string, Value)>, name: string, v: Value) {
    exists i :: 0 <= i < |es| && es[i].0 == name && Equiv(es[i].1, v)
  }

  lemma EntriesMean(a: Value, b: Value)
    requires Valid(a) && Valid(b) && a.Map? && b.Map?
    ensures Equiv(a, b) <==> SameEntries(a.entries, b.entries)
  {
    var es, fs := a.entries, b.entries;
    EntriesValid(a);
    EntriesValid(b);
    MapEquiv(a, b);
    hide Equiv, Valid, Matched;
    if Equiv(a, b) {
      forall j | 0 <= j < |fs|
        ensures Covers(es, fs[j].0, fs[j].1)
      {
        var i := MatchedBack(a, b, j);
      }
    }
    if SameEntries(es, fs) {
      NamesCount(es);
      NamesCount(fs);
      NamesSame(es, fs);
    }
  }

  lemma EntriesValid(a: Value)
    requires Valid(a) && a.Map?
    ensures forall i, j :: 0 <= i < j < |a.entries| ==> a.entries[i].0 != a.entries[j].0
    ensures forall i :: 0 <= i < |a.entries| ==> Valid(a.entries[i].1)
  {
  }

  lemma MapEquiv(a: Value, b: Value)
    requires a.Map? && b.Map?
    ensures Equiv(a, b) <==>
      |a.entries| == |b.entries| && forall i :: 0 <= i < |a.entries| ==> Matched(a.entries[i].0, a.entries[i].1, b.entries)
  {
  }

  lemma MatchedBack(a: Value, b: Value, j: nat) returns (i: nat)
    requires Valid(a) && Valid(b) && a.Map? && b.Map? && Equiv(a, b) && j < |b.entries|
    ensures i < |a.entries| && a.entries[i].0 == b.entries[j].0 && Equiv(a.entries[i].1, b.entries[j].1)
  {
    EntriesValid(a);
    EntriesValid(b);
    EquivIsEquivalence(a, b, a);
    MapEquiv(b, a);
    hide Equiv, Valid;
    assert Matched(b.entries[j].0, b.entries[j].1, a.entries);
    i :| 0 <= i < |a.entries| && a.entries[i].0 == b.entries[j].0 && Equiv(b.entries[j].1, a.entries[i].1);
    EquivIsEquivalence(b.entries[j].1, a.entries[i].1, b.entries[j].1);
  }

  ghost function Names(es: seq<(string, Value)>): set<string> {
    set i | 0 <= i < |es| :: es[i].0
  }

  lemma NamesSame(es: seq<(string, Value)>, fs: seq<(string, Value)>)
    requires SameEntries(es, fs)
    ensures Names(es) == Names(fs)
  {
    hide Equiv;
    forall i | 0 <= i < |es|
      ensures es[i].0 in Names(fs)
    {
      assert Matched(es[i].0, es[i].1, fs);
    }
  }

  lemma {:induction false} NamesCount(es: seq<(string, Value)>)
    requires forall i, j :: 0 <= i < j < |es| ==> es[i].0 != es[j].0
    ensures |Names(es)| == |es|
  {
    if es != [] {
      var n := |es| - 1;
      NamesCount(es[..n]);
      assert Names(es) == Names(es[..n]) + {es[n].0};
      assert es[n].0 !in Names(es[..n]);
    }
  }
}
