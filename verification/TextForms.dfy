/** The stored text of properties, letter by letter: what the encoder writes for each kind of value and which
    spellings of strings and numbers the decoder takes. */
module TextForms {
  import opened Seqs
  import opened Decimals
  import opened NameSort
  import opened Between
  import opened JsonText
  import opened Codec
  import opened Stored

  // ----------------------------------------------------------------- writing

  /** The texts with commas between them. */
  function Commas(ts: seq<string>): string {
    if ts == [] then "" else if |ts| == 1 then ts[0] else ts[0] + "," + Commas(ts[1..])
  }

  function Texts(items: seq<Json>): (r: seq<string>)
    ensures |r| == |items| && forall i :: 0 <= i < |items| ==> r[i] == Text(items[i])
  {
    seq(|items|, i requires 0 <= i < |items| => Text(items[i]))
  }

  function MemberText(name: string, v: Json): string {
    Quote(name) + ":" + Text(v)
  }

  function MemberTexts(fs: seq<(string, Json)>): (r: seq<string>)
    ensures |r| == |fs| && forall i :: 0 <= i < |fs| ==> r[i] == MemberText(fs[i].0, fs[i].1)
  {
    seq(|fs|, i requires 0 <= i < |fs| => MemberText(fs[i].0, fs[i].1))
  }

  lemma {:induction false} ItemsForm(items: seq<Json>)
    requires items != []
    ensures ItemsText(items) == Commas(Texts(items)) + "]"
    decreases |items|
  {
    hide Text;
    if |items| > 1 {
      ItemsForm(items[1..]);
      assert Texts(items)[1..] == Texts(items[1..]);
      assert Commas(Texts(items)) == Text(items[0]) + "," + Commas(Texts(items[1..]));
    }
  }

  lemma ArrayForm(items: seq<Json>)
    ensures Text(JArr(items)) == "[" + Commas(Texts(items)) + "]"
  {
    ArrayUnfolds(items);
    hide Text, ItemsText;
    if items != [] {
      ItemsForm(items);
    }
  }

  lemma ArrayUnfolds(items: seq<Json>)
    ensures Text(JArr(items)) == "[" + if items == [] then "]" else ItemsText(items)
  {
  }

  lemma {:induction false} FieldsForm(j: Json, k: nat)
    requires j.JObj? && k < |j.fields|
    ensures FieldsText(j, k) == Commas(MemberTexts(j.fields[k..])) + "}"
    decreases |j.fields| - k
  {
    hide Text, Quote;
    var f, ts := j.fields[k], MemberTexts(j.fields[k..]);
    if k + 1 < |j.fields| {
      FieldsForm(j, k + 1);
      assert ts[1..] == MemberTexts(j.fields[k + 1..]);
      assert Commas(ts) == MemberText(f.0, f.1) + "," + Commas(ts[1..]);
    }
  }

  lemma ObjectForm(fs: seq<(string, Json)>)
    ensures Text(JObj(fs)) == "{" + Commas(MemberTexts(fs)) + "}"
  {
    ObjectUnfolds(fs);
    hide Text, FieldsText;
    if fs != [] {
      FieldsForm(JObj(fs), 0);
      assert JObj(fs).fields[0..] == fs;
    }
  }

  lemma ObjectUnfolds(fs: seq<(string, Json)>)
    ensures Text(JObj(fs)) == "{" + if fs == [] then "}" else FieldsText(JObj(fs), 0)
  {
  }

  lemma TwoForm(a: string, x: Json, b: string, y: Json)
    ensures Text(JObj([(a, x), (b, y)])) == "{" + Quote(a) + ":" + Text(x) + "," + Quote(b) + ":" + Text(y) + "}"
  {
    hide Text, Quote;
    var fs := [(a, x), (b, y)];
    ObjectForm(fs);
    var ts := MemberTexts(fs);
    assert ts == [MemberText(a, x), MemberText(b, y)];
    assert ts[1..] == [MemberText(b, y)];
  }

  lemma Names()
    ensures Quote("$t") == "\"$t\"" && Quote("v") == "\"v\"" && Quote("$p") == "\"$p\"" && Quote("c") == "\"c\"" && Quote("$v") == "\"$v\""
  {
  }

  lemma CoordTexts(ts: seq<string>)
    requires forall i :: 0 <= i < |ts| ==> CoordText(ts[i])
    ensures Texts(NumTrees(ts)) == ts
  {
    hide Text, CoordText, NumTree;
    forall i | 0 <= i < |ts|
      ensures Texts(NumTrees(ts))[i] == ts[i]
    {
      CoordReads(ts[i]);
    }
  }

  /** The text of a temporal value, a point, a vector and a list. */
  lemma StoredForm(v: PV, acc: Accepts)
    requires Storable(v, acc)
    ensures v.PTemporal? ==> Text(Tree(v)) == "{\"$t\":" + Itoa(v.kind) + ",\"v\":" + Quote(v.text) + "}"
    ensures v.PPoint? ==> Text(Tree(v)) == "{\"$p\":" + Itoa(v.srid) + ",\"c\":[" + v.x + "," + v.y + "," + v.z + "]}"
    ensures v.PVector? ==> Text(Tree(v)) == "{\"$v\":" + Quote(v.typ) + ",\"c\":[" + Commas(v.coords) + "]}"
    ensures v.PList? ==> Text(Tree(v)) == "[" + Commas(PlainTexts(v.items)) + "]"
  {
    match v
    case PTemporal(kind, text) => TemporalForm(kind, text);
    case PPoint(srid, x, y, z) => PointForm(srid, x, y, z);
    case PVector(typ, coords) => VectorForm(typ, coords);
    case PList(items) => ListForm(items);
    case _ =>
  }

  lemma Leaves(n: int, s: string)
    ensures Text(JInt(n)) == Itoa(n) && Text(JStr(s)) == Quote(s)
  {
  }

  lemma TemporalForm(kind: int, text: string)
    ensures Text(Tree(PTemporal(kind, text))) == "{\"$t\":" + Itoa(kind) + ",\"v\":" + Quote(text) + "}"
  {
    Names();
    hide Quote, Text, Itoa;
    Leaves(kind, text);
    TwoForm("$t", JInt(kind), "v", JStr(text));
    Spread("\"$t\"", Itoa(kind), "\"v\"", Quote(text));
  }

  lemma Spread(a: string, x: string, b: string, y: string)
    ensures "{" + a + ":" + x + "," + b + ":" + y + "}" == "{" + (a + ":") + x + ("," + b + ":") + y + "}"
  {
  }

  lemma VectorForm(typ: string, coords: seq<string>)
    requires forall i :: 0 <= i < |coords| ==> CoordText(coords[i])
    ensures Text(Tree(PVector(typ, coords))) == "{\"$v\":" + Quote(typ) + ",\"c\":[" + Commas(coords) + "]}"
  {
    Names();
    CoordTexts(coords);
    var c := NumTrees(coords);
    VectorTree(typ, coords);
    hide *;
    Leaves(0, typ);
    TwoForm("$v", JStr(typ), "c", JArr(c));
    ArrayForm(c);
    VectorMarks(Quote(typ), Commas(coords));
  }

  lemma VectorTree(typ: string, coords: seq<string>)
    ensures Tree(PVector(typ, coords)) == JObj([("$v", JStr(typ)), ("c", JArr(NumTrees(coords)))])
  {
    hide NumTrees;
  }

  lemma VectorMarks(x: string, y: string)
    ensures "{" + "\"$v\"" + ":" + x + "," + "\"c\"" + ":" + ("[" + y + "]") + "}" == "{\"$v\":" + x + ",\"c\":[" + y + "]}"
  {
    Marks("\"$v\"", "{\"$v\":", x, y);
  }

  lemma PointMarks(x: string, y: string)
    ensures "{" + "\"$p\"" + ":" + x + "," + "\"c\"" + ":" + ("[" + y + "]") + "}" == "{\"$p\":" + x + ",\"c\":[" + y + "]}"
  {
    Marks("\"$p\"", "{\"$p\":", x, y);
  }

  lemma Marks(a: string, head: string, x: string, y: string)
    requires head == "{" + a + ":"
    ensures "{" + a + ":" + x + "," + "\"c\"" + ":" + ("[" + y + "]") + "}" == head + x + ",\"c\":[" + y + "]}"
  {
    assert "," + "\"c\"" + ":" + "[" == ",\"c\":[";
    assert "]" + "}" == "]}";
  }

  lemma ListForm(items: seq<PV>)
    ensures Text(Tree(PList(items))) == "[" + Commas(PlainTexts(items)) + "]"
  {
    hide Text, Commas;
    var trees := Tree(PList(items)).items;
    ArrayForm(trees);
    assert Texts(trees) == PlainTexts(items);
  }

  function PlainTexts(items: seq<PV>): (r: seq<string>)
    ensures |r| == |items| && forall i :: 0 <= i < |items| ==> r[i] == Text(Tree(items[i]))
  {
    seq(|items|, i requires 0 <= i < |items| => Text(Tree(items[i])))
  }

  lemma PointForm(srid: int, x: string, y: string, z: string)
    requires CoordText(x) && CoordText(y) && CoordText(z)
    ensures Text(Tree(PPoint(srid, x, y, z))) == "{\"$p\":" + Itoa(srid) + ",\"c\":[" + x + "," + y + "," + z + "]}"
  {
    Names();
    hide Quote, Text, Itoa, CoordText, NumTree, Commas;
    var c := [NumTree(x), NumTree(y), NumTree(z)];
    Leaves(srid, "");
    TwoForm("$p", JInt(srid), "c", JArr(c));
    ArrayForm(c);
    assert NumTrees([x, y, z]) == c;
    CoordTexts([x, y, z]);
    ThreeCommas(x, y, z);
    PointMarks(Itoa(srid), x + "," + y + "," + z);
    assert (x + "," + y + "," + z) + "]}" == x + "," + y + "," + z + "]}";
  }

  lemma ThreeCommas(x: string, y: string, z: string)
    ensures Commas([x, y, z]) == x + "," + y + "," + z
  {
    assert [x, y, z][1..] == [y, z] && [y, z][1..] == [z];
    assert Commas([y, z]) == y + "," + z;
  }

  /** A plain value is written as JSON has it. */
  lemma PlainForm(n: int, t: string, s: string)
    ensures Text(Tree(PBool(true))) == "true" && Text(Tree(PBool(false))) == "false"
    ensures Text(Tree(PInt(n))) == Itoa(n) && Text(Tree(PFlt(t))) == t && Text(Tree(PStr(s))) == Quote(s)
  {
  }

  function EntryTexts(ps: PropList): (r: seq<string>)
    ensures |r| == |ps| && forall i :: 0 <= i < |ps| ==> r[i] == Quote(ps[i].0) + ":" + Text(Tree(ps[i].1))
  {
    seq(|ps|, i requires 0 <= i < |ps| => Quote(ps[i].0) + ":" + Text(Tree(ps[i].1)))
  }

  /** A property map is written as one object with its entries in the order of their names. */
  lemma PropsForm(ps: PropList, acc: Accepts) returns (qs: PropList)
    requires StorableProps(ps, acc)
    ensures EncodeProps(ps) == "{" + Commas(EntryTexts(qs)) + "}"
    ensures ByName(qs) && |qs| == |ps| && forall p :: p in qs <==> p in ps
  {
    hide Text, Quote, Storable, SortPairs, Tree, ByName;
    qs := SortPairs(ps);
    SortStorable(ps, acc);
    ObjectForm(Fields(qs));
    assert MemberTexts(Fields(qs)) == EntryTexts(qs);
  }

  // ----------------------------------------------------------------- reading

  /** White space is dropped from the front, and nothing else. */
  lemma {:induction false} SpacesDropped(s: string) returns (spaces: string)
    ensures s == spaces + SkipWs(s)
    ensures forall i :: 0 <= i < |spaces| ==> spaces[i] in " \t\n\r"
    ensures SkipWs(s) != "" ==> SkipWs(s)[0] !in " \t\n\r"
  {
    if s != "" && IsSpace(s[0]) {
      var more := SpacesDropped(s[1..]);
      spaces := [s[0]] + more;
      assert s == [s[0]] + s[1..];
    } else {
      spaces := "";
    }
  }

  predicate Blank(s: string) {
    forall i :: 0 <= i < |s| ==> s[i] in " \t\n\r"
  }

  lemma {:induction false} BlankDropped(blank: string, s: string)
    requires Blank(blank) && (s != "" ==> s[0] !in " \t\n\r")
    ensures SkipWs(blank + s) == s
  {
    if blank == "" {
      assert blank + s == s;
    } else {
      assert blank[0] in " \t\n\r";
      assert forall i :: 0 <= i < |blank[1..]| ==> blank[1..][i] == blank[i + 1];
      BlankDropped(blank[1..], s);
      SpaceFirst(blank[0], blank[1..] + s);
      assert blank + s == [blank[0]] + (blank[1..] + s);
    }
  }

  lemma SpaceFirst(c: char, s: string)
    requires c in " \t\n\r"
    ensures SkipWs([c] + s) == SkipWs(s)
  {
    assert ([c] + s)[1..] == s;
  }

  /** An object is decoded with white space around it and nothing else. */
  lemma WholeTextOnly(before: string, fs: seq<(string, Json)>, after: string)
    requires Blank(before) && Writable(JObj(fs))
    ensures DecodeObject(before + Text(JObj(fs)) + after) == if Blank(after) then Some(fs) else None
  {
    ObjectUnfolds(fs);
    hide Text, DecodeValue, SkipWs, Blank, Writable, FieldsText;
    var t := Text(JObj(fs)) + after;
    assert t[0] == '{';
    assert before + Text(JObj(fs)) + after == before + t;
    BlankDropped(before, t);
    ObjectReads(after, JObj(fs));
    BlankOnly(after);
  }

  lemma BlankOnly(s: string)
    ensures SkipWs(s) == "" <==> Blank(s)
  {
    var spaces := SpacesDropped(s);
    if Blank(s) {
      BlankDropped(s, "");
      assert s + "" == s;
    } else {
      assert SkipWs(s) == "" ==> s == spaces;
    }
  }

  /** Of members with one name the last counts. */
  lemma {:induction false} LastMember(fs: seq<(string, Json)>, name: string, v: Json)
    ensures Member(fs, name) == Some(v) <==>
      exists i :: 0 <= i < |fs| && fs[i] == (name, v) && forall k :: i < k < |fs| ==> fs[k].0 != name
    ensures Member(fs, name) == None <==> forall i :: 0 <= i < |fs| ==> fs[i].0 != name
  {
    if fs != [] {
      var n := |fs| - 1;
      LastMember(fs[..n], name, v);
      if fs[n].0 != name {
        assert forall i :: 0 <= i < n ==> fs[..n][i] == fs[i];
        if i :| 0 <= i < n && fs[i] == (name, v) && forall k :: i < k < |fs| ==> fs[k].0 != name {
          assert fs[..n][i] == (name, v);
        }
      } else if fs[n].1 == v {
        assert fs[n] == (name, v);
      }
    }
  }

  function Prepended(c: char, rest: Option<string>): Option<string> {
    match rest
    case None => None
    case Some(t) => Some([c] + t)
  }

  /** The character a two-letter escape stands for. */
  lemma EscapeLetters(rest: string)
    ensures Unescape("\\\"" + rest) == Prepended('"', Unescape(rest)) && Unescape("\\\\" + rest) == Prepended('\\', Unescape(rest))
    ensures Unescape("\\/" + rest) == Prepended('/', Unescape(rest)) && Unescape("\\n" + rest) == Prepended('\n', Unescape(rest))
    ensures Unescape("\\r" + rest) == Prepended('\r', Unescape(rest)) && Unescape("\\t" + rest) == Prepended('\t', Unescape(rest))
    ensures Unescape("\\b" + rest) == Prepended(8 as char, Unescape(rest)) && Unescape("\\f" + rest) == Prepended(12 as char, Unescape(rest))
  {
    LetterRead('"', rest);
    LetterRead('\\', rest);
    LetterRead('/', rest);
    LetterRead('n', rest);
    LetterRead('r', rest);
    LetterRead('t', rest);
    LetterRead('b', rest);
    LetterRead('f', rest);
    hide Unescape;
  }

  lemma LetterRead(c: char, rest: string)
    requires c in "\"\\/nrtbf"
    ensures UnescapeOne(['\\', c] + rest).Some? && UnescapeOne(['\\', c] + rest).value.1 == 2
    ensures Unescape(['\\', c] + rest) == Prepended(UnescapeOne(['\\', c]).value.0, Unescape(rest))
    ensures UnescapeOne(['\\', c]).Some? && UnescapeOne(['\\', c]).value.0 ==
      if c == 'n' then '\n' else if c == 'r' then '\r' else if c == 't' then '\t' else if c == 'b' then 8 as char else if c == 'f' then 12 as char else c
  {
    var s := ['\\', c] + rest;
    assert s[2..] == rest;
  }

  predicate HexFour(h: string) {
    |h| == 4 && IsHex(h[0]) && IsHex(h[1]) && IsHex(h[2]) && IsHex(h[3])
  }

  function HexNumber(h: string): nat
    requires HexFour(h)
  {
    HexValue(h[0]) * 4096 + HexValue(h[1]) * 256 + HexValue(h[2]) * 16 + HexValue(h[3])
  }

  /** Four hex digits name a character. */
  lemma UnicodeEscape(h: string, rest: string)
    requires HexFour(h) && !(0xD800 <= HexNumber(h) < 0xE000)
    ensures Unescape("\\u" + h + rest) == Prepended(HexNumber(h) as char, Unescape(rest))
  {
    var s := "\\u" + h + rest;
    assert s[6..] == rest;
    UnitRead(h, rest);
    hide ReadUnit, HexNumber, HexFour;
  }

  /** The two halves of a pair name one character above 0xFFFF. */
  lemma UnicodePair(h: string, l: string, rest: string)
    requires HexFour(h) && HexFour(l) && 0xD800 <= HexNumber(h) < 0xDC00 <= HexNumber(l) < 0xE000
    ensures Unescape("\\u" + h + "\\u" + l + rest)
      == Prepended((0x1_0000 + (HexNumber(h) - 0xD800) * 0x400 + (HexNumber(l) - 0xDC00)) as char, Unescape(rest))
  {
    var s, t := "\\u" + h + "\\u" + l + rest, "\\u" + l + rest;
    assert s == "\\u" + h + t;
    assert s[6..] == t && s[12..] == rest;
    UnitRead(h, t);
    UnitRead(l, rest);
    hide ReadUnit, HexNumber, HexFour;
  }

  /** The digits, in either case. */
  lemma HexDigits()
    ensures HexFour("00e9") && HexNumber("00e9") == 0xE9 && HexFour("20AC") && HexNumber("20AC") == 0x20AC
    ensures HexFour("1f60") && HexNumber("1f60") == 0x1F60 && HexFour("FbD8") && HexNumber("FbD8") == 0xFBD8
  {
  }

  lemma UnitRead(h: string, rest: string)
    requires HexFour(h)
    ensures ReadUnit("\\u" + h + rest) == Some(HexNumber(h))
  {
  }

  // ------------------------------------------------------------------ numbers

  /** Digits with at most one dot among them. */
  ghost predicate Mantissa(m: string) {
    exists whole: string, frac: string :: SplitAt(m, whole, frac)
  }

  predicate SplitAt(m: string, whole: string, frac: string) {
    AllDigits(whole) && AllDigits(frac) && ((m == whole && frac == "") || m == whole + "." + frac)
  }

  predicate Exponent(x: string) {
    || x == ""
    || ((x[0] == 'e' || x[0] == 'E') && |x| >= 2 && AllDigits(x[1..]))
    || ((x[0] == 'e' || x[0] == 'E') && |x| >= 3 && (x[1] == '+' || x[1] == '-') && AllDigits(x[2..]))
  }

  /** A sign, a mantissa with a digit in it and an exponent. */
  ghost predicate NumberForm(t: string) {
    exists sign: string, m: string, x: string :: NumberParts(t, sign, m, x)
  }

  ghost predicate NumberParts(t: string, sign: string, m: string, x: string) {
    t == sign + m + x && (sign == "" || sign == "-") && Mantissa(m) && HasDigit(m) && Exponent(x)
  }

  lemma {:induction false} RunDigits(s: string)
    ensures AllDigits(s[..DigitsRun(s)]) && (DigitsRun(s) < |s| ==> !IsDigit(s[DigitsRun(s)]))
  {
    if s != "" && IsDigit(s[0]) {
      RunDigits(s[1..]);
      var n := DigitsRun(s);
      assert s[..n] == [s[0]] + s[1..][..n - 1];
    }
  }

  lemma {:induction false} AllRun(s: string)
    requires AllDigits(s)
    ensures DigitsRun(s) == |s|
  {
    if s != "" {
      assert IsDigit(s[0]);
      assert forall i :: 0 <= i < |s[1..]| ==> s[1..][i] == s[i + 1];
      AllRun(s[1..]);
    }
  }

  lemma ExponentIs(x: string)
    ensures ExponentLength(x) == Some(|x|) <==> Exponent(x)
  {
    if x != "" && (x[0] == 'e' || x[0] == 'E') {
      var c := if 1 < |x| && (x[1] == '+' || x[1] == '-') then 2 else 1;
      RunDigits(x[c..]);
      if DigitsRun(x[c..]) == |x[c..]| {
        assert x[c..][..|x| - c] == x[c..];
      }
      if AllDigits(x[c..]) {
        AllRun(x[c..]);
      }
      assert 1 < |x| ==> x[1..][0] == x[1];
    }
  }

  lemma {:induction false} RunWhole(d: string, rest: string, dot: bool)
    requires AllDigits(d)
    ensures MantissaRun(d + rest, dot) == |d| + MantissaRun(rest, dot)
  {
    if d == "" {
      assert d + rest == rest;
    } else {
      assert IsDigit(d[0]) && (d + rest)[0] == d[0];
      assert forall i :: 0 <= i < |d[1..]| ==> d[1..][i] == d[i + 1];
      RunWhole(d[1..], rest, dot);
      assert (d + rest)[1..] == d[1..] + rest;
    }
  }

  lemma {:induction false} RunAfterDot(s: string)
    ensures AllDigits(s[..MantissaRun(s, true)])
  {
    if s != "" && IsDigit(s[0]) {
      RunAfterDot(s[1..]);
      var n := MantissaRun(s, true);
      assert s[..n] == [s[0]] + s[1..][..n - 1];
    }
  }

  lemma {:induction false} RunSplits(s: string) returns (whole: string, frac: string)
    ensures SplitAt(s[..MantissaRun(s, false)], whole, frac)
  {
    var n := MantissaRun(s, false);
    if s != "" && IsDigit(s[0]) {
      var w, f := RunSplits(s[1..]);
      whole, frac := [s[0]] + w, f;
      assert s[..n] == [s[0]] + s[1..][..n - 1];
      assert [s[0]] + (w + "." + f) == whole + "." + f;
    } else if s != "" && s[0] == '.' {
      RunAfterDot(s[1..]);
      whole, frac := "", s[1..][..n - 1];
      assert s[..n] == "." + s[1..][..n - 1];
    } else {
      whole, frac := "", "";
    }
  }

  /** The mantissa's run stops where an exponent begins. */
  lemma RunStops(m: string, x: string)
    requires Mantissa(m) && (x == "" || x[0] == 'e' || x[0] == 'E')
    ensures MantissaRun(m + x, false) == |m|
  {
    hide MantissaRun, AllDigits;
    var whole, frac :| SplitAt(m, whole, frac);
    LetterStops(x);
    if m == whole {
      RunWhole(whole, x, false);
    } else {
      var tail := "." + (frac + x);
      assert m + x == whole + tail;
      RunWhole(whole, tail, false);
      DotRun(frac + x);
      RunWhole(frac, x, true);
    }
  }

  lemma LetterStops(x: string)
    requires x == "" || x[0] == 'e' || x[0] == 'E'
    ensures MantissaRun(x, false) == 0 && MantissaRun(x, true) == 0
  {
  }

  lemma DotRun(s: string)
    ensures MantissaRun("." + s, false) == 1 + MantissaRun(s, true)
  {
    assert ("." + s)[1..] == s;
  }

  ghost predicate UnsignedForm(u: string) {
    exists m: string, x: string :: u == m + x && Mantissa(m) && HasDigit(m) && Exponent(x)
  }

  lemma UnsignedIs(u: string)
    ensures UnsignedLength(u) == Some(|u|) <==> UnsignedForm(u)
  {
    hide Exponent, ExponentLength, MantissaRun;
    var n := MantissaRun(u, false);
    var whole, frac := RunSplits(u);
    assert u == u[..n] + u[n..] && Mantissa(u[..n]);
    ExponentIs(u[n..]);
    if UnsignedForm(u) {
      var m, x :| u == m + x && Mantissa(m) && HasDigit(m) && Exponent(x);
      ExponentStarts(x);
      RunStops(m, x);
      assert u[..|m|] == m && u[|m|..] == x;
    }
  }

  lemma ExponentStarts(x: string)
    requires Exponent(x)
    ensures x == "" || x[0] == 'e' || x[0] == 'E'
  {
  }

  /** A number is read whole exactly if it is an optional minus, digits with at most one dot and at least
      one digit, and perhaps an exponent. */
  lemma NumberIs(t: string)
    ensures NumberLength(t) == Some(|t|) <==> NumberForm(t)
  {
    hide UnsignedLength, Mantissa, Exponent, HasDigit, UnsignedForm, NumberParts;
    var minus := t != "" && t[0] == '-';
    var u := if minus then t[1..] else t;
    UnsignedIs(u);
    assert t == (if minus then "-" else "") + u;
    if UnsignedForm(u) {
      SignWritten(if minus then "-" else "", u);
    }
    if NumberForm(t) {
      var sign, m, x :| NumberParts(t, sign, m, x);
      SignSeen(t, sign, m, x);
      assert u == m + x;
    }
  }

  lemma SignWritten(sign: string, u: string)
    requires UnsignedForm(u) && (sign == "" || sign == "-")
    ensures NumberForm(sign + u)
  {
    hide Mantissa, Exponent, HasDigit;
    var m, x :| u == m + x && Mantissa(m) && HasDigit(m) && Exponent(x);
    assert sign + u == sign + m + x;
    assert NumberParts(sign + u, sign, m, x);
  }

  lemma SignSeen(t: string, sign: string, m: string, x: string)
    requires NumberParts(t, sign, m, x)
    ensures UnsignedForm(m + x) && t == sign + (m + x) && (sign == "-" <==> t != "" && t[0] == '-')
    ensures m + x == if sign == "-" then t[1..] else t
  {
    hide Mantissa, Exponent, HasDigit;
    assert sign + m + x == sign + (m + x);
    if sign == "" {
      assert t == m + x;
      hide UnsignedForm;
      if t != "" && t[0] == '-' {
        NoMinus(t);
      }
    } else {
      assert t[1..] == m + x;
    }
  }

  lemma NoMinus(t: string)
    requires t != "" && t[0] == '-'
    ensures !UnsignedForm(t)
  {
    UnsignedIs(t);
    assert MantissaRun(t, false) == 0;
  }
}
