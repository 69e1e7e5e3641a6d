/** Property values, the trees they are stored as, and the whole round trip. */
module Stored {
  import opened Seqs
  import opened Decimals
  import opened NameSort
  import opened Between
  import opened JsonText
  import opened Codec

  /** Storable property values. Floats and coordinates are their texts; dates, times and
      durations their kind and text. */
  datatype PV =
    | PBool(b: bool)
    | PInt(n: int)
    | PFlt(t: string)
    | PStr(s: string)
    | PList(items: seq<PV>)
    | PTemporal(kind: int, text: string)
    | PPoint(srid: int, x: string, y: string, z: string)
    | PVector(typ: string, coords: seq<string>)

  /** What the parsers of other packages accept: the text of a temporal value of a kind, and the
      coordinates of a vector type. */
  datatype Accepts = Accepts(temporal: (int, string) -> bool, vector: (string, seq<string>) -> bool)

  /** A coordinate's text: an integer in range without superfluous characters, or a float. */
  predicate CoordText(t: string) {
    (IntText(t) && t == Itoa(IntValue(t)) && Fits64(IntValue(t))) || FloatText(t)
  }

  predicate Storable(v: PV, acc: Accepts)
    decreases v
  {
    match v
    case PInt(n) => Fits64(n)
    case PFlt(t) => FloatText(t)
    case PList(items) => forall i :: 0 <= i < |items| ==> Storable(items[i], acc)
    case PTemporal(kind, text) => Fits64(kind) && acc.temporal(kind, text)
    case PPoint(srid, x, y, z) => Fits64(srid) && CoordText(x) && CoordText(y) && CoordText(z)
    case PVector(typ, coords) => acc.vector(typ, coords) && forall i :: 0 <= i < |coords| ==> CoordText(coords[i])
    case _ => true
  }

  function NumTree(t: string): Json {
    if IntText(t) then JInt(IntValue(t)) else JFlt(t)
  }

  function NumTrees(ts: seq<string>): (r: seq<Json>)
    ensures |r| == |ts| && forall i :: 0 <= i < |ts| ==> r[i] == NumTree(ts[i])
  {
    seq(|ts|, i requires 0 <= i < |ts| => NumTree(ts[i]))
  }

  /** `encodeValue`: values JSON has no word for become objects with a `$` member. */
  function Tree(v: PV): Json
    decreases v
  {
    match v
    case PBool(b) => JBool(b)
    case PInt(n) => JInt(n)
    case PFlt(t) => JFlt(t)
    case PStr(s) => JStr(s)
    case PList(items) => JArr(seq(|items|, i requires 0 <= i < |items| => Tree(items[i])))
    case PTemporal(kind, text) => JObj([("$t", JInt(kind)), ("v", JStr(text))])
    case PPoint(srid, x, y, z) => JObj([("$p", JInt(srid)), ("c", JArr([NumTree(x), NumTree(y), NumTree(z)]))])
    case PVector(typ, coords) => JObj([("$v", JStr(typ)), ("c", JArr(NumTrees(coords)))])
  }

  /** The member of a decoded object; the last one wins, as in a map. */
  function Member(fs: seq<(string, Json)>, name: string): Option<Json> {
    if fs == [] then None
    else if fs[|fs| - 1].0 == name then Some(fs[|fs| - 1].1)
    else Member(fs[..|fs| - 1], name)
  }

  function NumText(j: Json): Option<string> {
    match j
    case JInt(n) => Some(Itoa(n))
    case JFlt(t) => Some(t)
    case _ => None
  }

  function NumTexts(js: seq<Json>): Option<seq<string>> {
    if forall i :: 0 <= i < |js| ==> NumText(js[i]).Some?
    then Some(seq(|js|, i requires 0 <= i < |js| && NumText(js[i]).Some? => NumText(js[i]).value))
    else None
  }

  /** `reviveTemporal`; None for an object that is none of the three. */
  function Revive(j: Json, acc: Accepts): Option<PV>
    decreases j
  {
    match j
    case JNull => None
    case JBool(b) => Some(PBool(b))
    case JInt(n) => Some(PInt(n))
    case JFlt(t) => Some(PFlt(t))
    case JStr(s) => Some(PStr(s))
    case JArr(items) =>
      if forall i :: 0 <= i < |items| ==> Revive(items[i], acc).Some?
      then Some(PList(seq(|items|, i requires 0 <= i < |items| && Revive(items[i], acc).Some? => Revive(items[i], acc).value)))
      else None
    case JObj(fs) => ReviveObject(fs, acc)
  }

  function ReviveObject(fs: seq<(string, Json)>, acc: Accepts): Option<PV> {
    var vec := ReviveVector(Member(fs, "$v"), Member(fs, "c"), acc);
    var point := RevivePoint(Member(fs, "$p"), Member(fs, "c"));
    if vec.Some? then vec
    else if point.Some? then point
    else
      match (Member(fs, "$t"), Member(fs, "v"))
      case (Some(JInt(kind)), Some(JStr(text))) => if acc.temporal(kind, text) then Some(PTemporal(kind, text)) else None
      case _ => None
  }

  function ReviveVector(typ: Option<Json>, c: Option<Json>, acc: Accepts): Option<PV> {
    match (typ, c)
    case (Some(JStr(t)), Some(JArr(items))) =>
      (match NumTexts(items)
       case None => None
       case Some(coords) => if acc.vector(t, coords) then Some(PVector(t, coords)) else None)
    case _ => None
  }

  function RevivePoint(srid: Option<Json>, c: Option<Json>): Option<PV> {
    match (srid, c)
    case (Some(JInt(n)), Some(JArr(items))) =>
      (match NumTexts(items)
       case None => None
       case Some(cs) => if |cs| == 3 then Some(PPoint(n, cs[0], cs[1], cs[2])) else None)
    case _ => None
  }

  // --------------------------------------------------------------- round trip

  lemma CoordReads(t: string)
    requires CoordText(t)
    ensures NumText(NumTree(t)) == Some(t) && Writable(NumTree(t)) && Text(NumTree(t)) == t
    ensures NumTree(t).JInt? || NumTree(t).JFlt?
  {
    if FloatText(t) && IntText(t) {
      FloatNotInt(t);
    }
  }

  lemma IntChars(t: string)
    requires IntText(t)
    ensures forall i :: 0 <= i < |t| ==> IsDigit(t[i]) || t[i] == '-'
  {
    forall i | 0 <= i < |t|
      ensures IsDigit(t[i]) || t[i] == '-'
    {
      if !AllDigits(t) && i > 0 {
        assert t[1..][i - 1] == t[i];
      }
    }
  }

  lemma FloatNotInt(t: string)
    requires FloatText(t)
    ensures !IntText(t)
  {
    if IntText(t) {
      IntChars(t);
    }
  }

  lemma CoordsRead(ts: seq<string>)
    requires forall i :: 0 <= i < |ts| ==> CoordText(ts[i])
    ensures NumTexts(NumTrees(ts)) == Some(ts)
    ensures forall i :: 0 <= i < |ts| ==> Writable(NumTrees(ts)[i])
  {
    forall i | 0 <= i < |ts|
      ensures NumText(NumTrees(ts)[i]) == Some(ts[i]) && Writable(NumTrees(ts)[i])
    {
      CoordReads(ts[i]);
    }
    assert NumTexts(NumTrees(ts)).value == ts;
  }

  lemma TwoMembers(a: string, x: Json, b: string, y: Json, name: string)
    ensures Member([(a, x), (b, y)], name) == if name == b then Some(y) else if name == a then Some(x) else None
  {
    var fs := [(a, x), (b, y)];
    var one := [(a, x)];
    assert fs[..1] == one && one[..0] == [];
    assert Member(one, name) == if name == a then Some(x) else None;
    assert Member(fs, name) == if fs[1].0 == name then Some(fs[1].1) else Member(fs[..1], name);
  }

  lemma TemporalRevives(kind: int, text: string, acc: Accepts)
    requires acc.temporal(kind, text)
    ensures ReviveObject([("$t", JInt(kind)), ("v", JStr(text))], acc) == Some(PTemporal(kind, text))
  {
    hide Member;
    TwoMembers("$t", JInt(kind), "v", JStr(text), "$v");
    TwoMembers("$t", JInt(kind), "v", JStr(text), "$p");
    TwoMembers("$t", JInt(kind), "v", JStr(text), "c");
    TwoMembers("$t", JInt(kind), "v", JStr(text), "$t");
    TwoMembers("$t", JInt(kind), "v", JStr(text), "v");
  }

  lemma PointRevives(srid: int, x: string, y: string, z: string, acc: Accepts)
    requires CoordText(x) && CoordText(y) && CoordText(z)
    ensures var c := JArr([NumTree(x), NumTree(y), NumTree(z)]);
      ReviveObject([("$p", JInt(srid)), ("c", c)], acc) == Some(PPoint(srid, x, y, z)) && Writable(c)
  {
    hide Member, NumTexts, NumTree, CoordText;
    var c := JArr([NumTree(x), NumTree(y), NumTree(z)]);
    CoordsRead([x, y, z]);
    assert NumTrees([x, y, z]) == c.items;
    TwoMembers("$p", JInt(srid), "c", c, "$v");
    TwoMembers("$p", JInt(srid), "c", c, "$p");
    TwoMembers("$p", JInt(srid), "c", c, "c");
  }

  lemma VectorRevives(typ: string, coords: seq<string>, acc: Accepts)
    requires acc.vector(typ, coords) && forall i :: 0 <= i < |coords| ==> CoordText(coords[i])
    ensures var c := JArr(NumTrees(coords));
      ReviveObject([("$v", JStr(typ)), ("c", c)], acc) == Some(PVector(typ, coords)) && Writable(c)
  {
    hide Member, NumTexts, NumTree, CoordText;
    var c := JArr(NumTrees(coords));
    CoordsRead(coords);
    TwoMembers("$v", JStr(typ), "c", c, "$v");
    TwoMembers("$v", JStr(typ), "c", c, "c");
  }

  /** A stored value's tree can be written, and revives to the value. */
  lemma {:induction false} TreeRevives(v: PV, acc: Accepts)
    requires Storable(v, acc)
    ensures Writable(Tree(v)) && Revive(Tree(v), acc) == Some(v)
    decreases v
  {
    hide ReviveObject, NumTree, CoordText, FloatText;
    match v
    case PList(_) => ListRevives(v, acc);
    case PTemporal(kind, text) => TemporalRevives(kind, text, acc);
    case PPoint(srid, x, y, z) => PointRevives(srid, x, y, z, acc);
    case PVector(typ, coords) => VectorRevives(typ, coords, acc);
    case _ =>
  }

  lemma {:induction false} ListRevives(v: PV, acc: Accepts)
    requires v.PList? && Storable(v, acc)
    ensures Writable(Tree(v)) && Revive(Tree(v), acc) == Some(v)
    decreases v, 0
  {
    var trees := Tree(v).items;
    forall i | 0 <= i < |v.items|
      ensures Writable(trees[i]) && Revive(trees[i], acc) == Some(v.items[i])
    {
      TreeRevives(v.items[i], acc);
    }
    assert Revive(Tree(v), acc).value.items == v.items;
  }

  /** A property map as its entries, in the order a loop over the map happens to visit them. */
  type PropList = seq<(string, PV)>

  ghost predicate StorableProps(ps: PropList, acc: Accepts) {
    && (forall i :: 0 <= i < |ps| ==> Storable(ps[i].1, acc))
    && (forall i, j :: 0 <= i < j < |ps| ==> ps[i].0 != ps[j].0)
  }

  function Fields(ps: PropList): (r: seq<(string, Json)>)
    ensures |r| == |ps| && forall i :: 0 <= i < |ps| ==> r[i] == (ps[i].0, Tree(ps[i].1))
  {
    seq(|ps|, i requires 0 <= i < |ps| => (ps[i].0, Tree(ps[i].1)))
  }

  /** `encodeProps` sorts the names first. */
  function EncodeProps(ps: PropList): string {
    Text(JObj(Fields(SortPairs(ps))))
  }

  /** `decodeProps` through the fast decoder. */
  function DecodeProps(s: string, acc: Accepts): Option<PropList> {
    match DecodeObject(s)
    case None => None
    case Some(fs) =>
      if forall i :: 0 <= i < |fs| ==> Revive(fs[i].1, acc).Some?
      then Some(seq(|fs|, i requires 0 <= i < |fs| && Revive(fs[i].1, acc).Some? => (fs[i].0, Revive(fs[i].1, acc).value)))
      else None
  }

  lemma SortStorable(ps: PropList, acc: Accepts)
    requires StorableProps(ps, acc)
    ensures NamesApart(ps) && ByName(SortPairs(ps)) && |SortPairs(ps)| == |ps| && StorableProps(SortPairs(ps), acc)
    ensures forall p :: p in SortPairs(ps) <==> p in ps
  {
    hide Storable, SortPairs;
    var qs := SortPairs(ps);
    SortSorts(ps);
    forall p
      ensures |qs| == |ps| && (p in qs <==> p in ps)
    {
      SortMember(ps, p);
    }
    SortMember(ps, ("", PBool(true)));
    forall i | 0 <= i < |qs|
      ensures Storable(qs[i].1, acc)
    {
      assert qs[i] in qs;
      var j :| 0 <= j < |ps| && ps[j] == qs[i];
    }
    forall i, j | 0 <= i < j < |qs|
      ensures qs[i].0 != qs[j].0
    {
      LessOrders(qs[i].0, qs[j].0);
    }
  }

  lemma ListRoundTrip(ps: PropList, acc: Accepts)
    requires StorableProps(ps, acc)
    ensures DecodeProps(Text(JObj(Fields(ps))), acc) == Some(ps)
  {
    hide Text, DecodeValue, Revive, Tree, Storable;
    var j := JObj(Fields(ps));
    forall i | 0 <= i < |ps|
      ensures Writable(Tree(ps[i].1)) && Revive(Tree(ps[i].1), acc) == Some(ps[i].1)
    {
      TreeRevives(ps[i].1, acc);
    }
    TextReads(j, "");
    assert Text(j) + "" == Text(j);
    TextOpens(j);
    NoSpace(Text(j));
    assert DecodeObject(Text(j)) == Some(Fields(ps));
    var got := DecodeProps(Text(j), acc).value;
    forall i | 0 <= i < |ps|
      ensures got[i] == ps[i]
    {
    }
    assert got == ps;
  }

  /** Decoding the encoding of any storable property map returns its entries, by name. */
  lemma PropsRoundTrip(ps: PropList, acc: Accepts)
    requires StorableProps(ps, acc)
    ensures var got := DecodeProps(EncodeProps(ps), acc);
      got.Some? && ByName(got.value) && |got.value| == |ps| && forall p :: p in got.value <==> p in ps
  {
    hide DecodeProps, Text, Fields, StorableProps;
    SortStorable(ps, acc);
    ListRoundTrip(SortPairs(ps), acc);
  }

  /** The text depends on the map alone, and determines it: two property maps are stored as the same
      text exactly if they have the same entries. */
  lemma PropsTextCanonical(ps: PropList, qs: PropList, acc: Accepts)
    requires StorableProps(ps, acc) && StorableProps(qs, acc)
    ensures EncodeProps(ps) == EncodeProps(qs) <==> (forall p :: p in ps <==> p in qs)
  {
    PropsRoundTrip(ps, acc);
    PropsRoundTrip(qs, acc);
    hide DecodeProps, EncodeProps, StorableProps;
    if forall p :: p in ps <==> p in qs {
      SortStorable(ps, acc);
      SortStorable(qs, acc);
      ByNameUnique(SortPairs(ps), SortPairs(qs));
      SameText(ps, qs);
    }
  }

  lemma SameText(ps: PropList, qs: PropList)
    requires SortPairs(ps) == SortPairs(qs)
    ensures EncodeProps(ps) == EncodeProps(qs)
  {
    hide Text, Fields, SortPairs;
  }

  // -------------------------------------------------------------- the cursor

  /** `fastDecoder`: every method reads from the cursor and leaves it after what it read. */
  class FastDecoder {
    const s: string
    var i: nat

    ghost predicate Valid()
      reads this
    {
      i <= |s|
    }

    /** The text not read yet. */
    function Left(): string
      reads this
      requires Valid()
    {
      s[i..]
    }

    constructor (s: string)
      ensures Valid() && this.s == s && i == 0
    {
      this.s := s;
      i := 0;
    }

    method Ws()
      requires Valid()
      modifies this
      ensures Valid() && Left() == SkipWs(old(Left())) && i >= old(i)
    {
      while i < |s| && IsSpace(s[i])
        invariant i <= |s| && i >= old(i) && SkipWs(s[i..]) == SkipWs(old(Left()))
      {
        assert s[i..][1..] == s[i + 1..];
        i := i + 1;
      }
      assert i < |s| ==> s[i..][0] == s[i];
    }

    method Str() returns (r: Option<string>)
      requires Valid()
      modifies this
      ensures Valid() && i >= old(i)
      ensures r.Some? <==> DecodeString(old(Left())).Some?
      ensures r.Some? ==> DecodeString(old(Left())) == Some((r.value, Left())) && i > old(i)
    {
      hide CloseAt, Unescape;
      if i >= |s| || s[i] != '"' {
        return None;
      }
      var start := i;
      ghost var body := s[start + 1..];
      assert Left()[1..] == body;
      i := i + 1;
      while i < |s|
        invariant start < i <= |s| && CloseAt(body) == Shifted(CloseAt(s[i..]), i - start - 1)
      {
        CloseStep(s, i);
        if s[i] == '"' {
          i := i + 1;
          var raw := s[start + 1..i - 1];
          assert raw == body[..i - start - 2] && s[i..] == body[i - start - 1..];
          if '\\' !in raw {
            return Some(raw);
          }
          return Unescape(raw);
        } else if s[i] == '\\' {
          if i + 2 > |s| {
            assert CloseAt(body).None?;
            i := |s|;
            return None;
          }
          i := i + 2;
        } else {
          i := i + 1;
        }
      }
      CloseNone();
      assert s[i..] == "";
      return None;
    }

    method Number() returns (r: Option<Json>)
      requires Valid()
      modifies this
      ensures Valid() && i >= old(i)
      ensures r.Some? <==> DecodeNumber(old(Left())).Some?
      ensures r.Some? ==> DecodeNumber(old(Left())) == Some((r.value, Left()))
    {
      hide ParseInt64, NumberLength;
      var start := i;
      ghost var here := s[start..];
      var float := false;
      while i < |s| && NumChar(s[i])
        invariant start <= i <= |s|
        invariant NumRun(here) == i - start + NumRun(s[i..])
        invariant float <==> Marked(s[start..i])
      {
        MarkedStep(s[start..i], s[i]);
        assert s[start..i + 1] == s[start..i] + [s[i]];
        if s[i] == '.' || s[i] == 'e' || s[i] == 'E' {
          float := true;
        }
        assert s[i..][1..] == s[i + 1..] && s[i..][0] == s[i];
        i := i + 1;
      }
      var lit := s[start..i];
      assert i < |s| ==> s[i..][0] == s[i];
      assert NumRun(here) == i - start;
      assert lit == here[..i - start] && s[i..] == here[i - start..];
      if !float {
        var n := ParseInt64(lit);
        if n.Some? {
          return Some(JInt(n.value));
        }
      }
      return if NumberLength(lit) == Some(|lit|) then Some(JFlt(lit)) else None;
    }

    method Value() returns (r: Option<Json>)
      requires Valid()
      modifies this
      ensures Valid() && i >= old(i)
      ensures r.Some? <==> DecodeValue(old(Left())).Some?
      ensures r.Some? ==> DecodeValue(old(Left())) == Some((r.value, Left())) && i > old(i)
      decreases |s| - i, 2
    {
      hide DecodeString, DecodeNumber, DecodeItems, DecodeFields;
      Ws();
      if i >= |s| {
        return None;
      }
      ghost var here := Left();
      assert here[0] == s[i] && here[1..] == s[i + 1..];
      if s[i] == '{' {
        r := Object();
      } else if s[i] == '[' {
        r := Array();
      } else if s[i] == '"' {
        var str := Str();
        return if str.Some? then Some(JStr(str.value)) else None;
      } else if StartsWith(s[i..], "true") {
        i := i + 4;
        return Some(JBool(true));
      } else if StartsWith(s[i..], "false") {
        i := i + 5;
        return Some(JBool(false));
      } else if StartsWith(s[i..], "null") {
        i := i + 4;
        return Some(JNull);
      } else if s[i] == '-' || IsDigit(s[i]) {
        r := Number();
        NumberMoves(here);
      } else {
        return None;
      }
    }

    method Array() returns (r: Option<Json>)
      requires Valid() && i < |s| && s[i] == '['
      modifies this
      ensures Valid() && i >= old(i)
      ensures r.Some? <==> DecodeValue(old(Left())).Some?
      ensures r.Some? ==> DecodeValue(old(Left())) == Some((r.value, Left())) && i > old(i)
      decreases |s| - i, 1
    {
      hide DecodeValue, SkipWs;
      ghost var whole := Left();
      ArrayStarts(whole);
      assert whole[1..] == s[i + 1..];
      i := i + 1;
      Ws();
      assert i < |s| ==> Left()[0] == s[i];
      if i < |s| && s[i] == ']' {
        assert Left()[1..] == s[i + 1..];
        i := i + 1;
        return Some(JArr([]));
      }
      var out: seq<Json> := [];
      while true
        invariant Valid() && i > old(i) && DecodeValue(whole) == DecodeItems(Left(), out)
        decreases |s| - i
      {
        var v := Value();
        if v.None? {
          return None;
        }
        Ws();
        if i >= |s| {
          return None;
        }
        assert Left()[0] == s[i] && Left()[1..] == s[i + 1..];
        if s[i] == ',' {
          out := out + [v.value];
          i := i + 1;
        } else if s[i] == ']' {
          i := i + 1;
          return Some(JArr(out + [v.value]));
        } else {
          return None;
        }
      }
    }

    /** One round of the loop of `object`, up to the comma or brace. */
    method Field() returns (r: Option<(string, Json)>)
      requires Valid()
      modifies this
      ensures Valid() && i >= old(i)
      ensures r.Some? <==> DecodeField(old(Left())).Some?
      ensures r.Some? ==> DecodeField(old(Left())) == Some((r.value, Left())) && i > old(i)
      decreases |s| - i, 3
    {
      hide DecodeValue, DecodeString;
      Ws();
      var name := Str();
      if name.None? {
        return None;
      }
      Ws();
      if i >= |s| {
        return None;
      }
      assert Left()[0] == s[i] && Left()[1..] == s[i + 1..];
      if s[i] != ':' {
        return None;
      }
      i := i + 1;
      var v := Value();
      if v.None? {
        return None;
      }
      return Some((name.value, v.value));
    }

    method Object() returns (r: Option<Json>)
      requires Valid() && i < |s| && s[i] == '{'
      modifies this
      ensures Valid() && i >= old(i)
      ensures r.Some? <==> DecodeValue(old(Left())).Some?
      ensures r.Some? ==> DecodeValue(old(Left())) == Some((r.value, Left())) && i > old(i) && r.value.JObj?
      decreases |s| - i, 1
    {
      hide DecodeValue, DecodeField, SkipWs;
      ghost var whole := Left();
      ObjectStarts(whole);
      assert whole[1..] == s[i + 1..];
      i := i + 1;
      Ws();
      assert i < |s| ==> Left()[0] == s[i];
      if i < |s| && s[i] == '}' {
        assert Left()[1..] == s[i + 1..];
        i := i + 1;
        return Some(JObj([]));
      }
      var out: seq<(string, Json)> := [];
      while true
        invariant Valid() && i > old(i) && DecodeValue(whole) == DecodeFields(Left(), out)
        decreases |s| - i
      {
        var f := Field();
        if f.None? {
          return None;
        }
        Ws();
        if i >= |s| {
          return None;
        }
        assert Left()[0] == s[i] && Left()[1..] == s[i + 1..];
        if s[i] == ',' {
          out := out + [f.value];
          i := i + 1;
        } else if s[i] == '}' {
          i := i + 1;
          return Some(JObj(out + [f.value]));
        } else {
          return None;
        }
      }
    }
  }

  lemma CloseNone()
    ensures CloseAt("") == None
  {
  }

  predicate Marked(t: string) {
    '.' in t || 'e' in t || 'E' in t
  }

  lemma MarkedStep(t: string, c: char)
    ensures Marked(t + [c]) <==> Marked(t) || c == '.' || c == 'e' || c == 'E'
  {
  }

  lemma ArrayStarts(s: string)
    requires s != "" && s[0] == '['
    ensures var t := SkipWs(s[1..]);
      DecodeValue(s) == if t != "" && t[0] == ']' then Some((JArr([]), t[1..])) else DecodeItems(t, [])
  {
    hide DecodeItems, DecodeFields, DecodeString, DecodeNumber;
    NoSpace(s);
  }

  lemma ObjectStarts(s: string)
    requires s != "" && s[0] == '{'
    ensures var t := SkipWs(s[1..]);
      DecodeValue(s) == if t != "" && t[0] == '}' then Some((JObj([]), t[1..])) else DecodeFields(t, [])
  {
    FieldsSkipWs(s[1..], []);
    hide DecodeItems, DecodeFields, DecodeString, DecodeNumber;
    NoSpace(s);
  }

  lemma NumberMoves(s: string)
    requires s != "" && (s[0] == '-' || IsDigit(s[0]))
    ensures DecodeNumber(s).Some? ==> |DecodeNumber(s).value.1| < |s|
  {
  }

  lemma {:induction false} SkipTwice(s: string)
    ensures SkipWs(SkipWs(s)) == SkipWs(s)
    decreases |s|
  {
    if s != "" && IsSpace(s[0]) {
      SkipTwice(s[1..]);
    }
  }

  lemma FieldsSkipWs(s: string, done: seq<(string, Json)>)
    ensures DecodeFields(SkipWs(s), done) == DecodeFields(s, done)
  {
    SkipTwice(s);
  }

  /** `fastDecodeObject`. */
  method FastDecode(s: string) returns (r: Option<seq<(string, Json)>>)
    ensures r == DecodeObject(s)
  {
    hide DecodeValue, SkipWs;
    var d := new FastDecoder(s);
    assert d.Left() == s;
    d.Ws();
    ghost var t := d.Left();
    if d.i >= |s| || s[d.i] != '{' {
      return None;
    }
    assert t[0] == s[d.i];
    var j := d.Object();
    if j.None? {
      return None;
    }
    d.Ws();
    return if d.i == |s| then Some(j.value.fields) else None;
  }
}
