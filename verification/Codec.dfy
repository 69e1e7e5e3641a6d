/** Stored properties as JSON text: the encoder, and the decoder that reads it back,
    whatever legitimately follows a value. */
module Codec {
  import opened Seqs
  import opened Decimals
  import opened Between
  import opened JsonText

  /** JSON trees. Integers are 64-bit; any other number is kept as its text; fields in order. */
  datatype Json =
    | JNull
    | JBool(b: bool)
    | JInt(n: int)
    | JFlt(t: string)
    | JStr(s: string)
    | JArr(items: seq<Json>)
    | JObj(fields: seq<(string, Json)>)

  /** A float's text is a number that cannot be taken for an integer. */
  predicate FloatText(t: string) {
    NumberText(t) && ('.' in t || 'e' in t || 'E' in t)
  }

  predicate Writable(j: Json)
    decreases j
  {
    match j
    case JInt(n) => Fits64(n)
    case JFlt(t) => FloatText(t)
    case JArr(items) => forall i :: 0 <= i < |items| ==> Writable(items[i])
    case JObj(fs) => forall i :: 0 <= i < |fs| ==> Writable(fs[i].1)
    case _ => true
  }

  // ------------------------------------------------------------------ writing

  function Text(j: Json): string
    decreases j, 0, 0
  {
    match j
    case JNull => "null"
    case JBool(b) => if b then "true" else "false"
    case JInt(n) => Itoa(n)
    case JFlt(t) => t
    case JStr(s) => Quote(s)
    case JArr(items) => "[" + (if items == [] then "]" else ItemsText(items))
    case JObj(fs) => "{" + (if fs == [] then "}" else FieldsText(j, 0))
  }

  /** Items with their commas, and the closing bracket. */
  function ItemsText(items: seq<Json>): string
    requires items != []
    decreases items, 1
  {
    Text(items[0]) + if |items| == 1 then "]" else "," + ItemsText(items[1..])
  }

  /** The fields from the `k`th on. */
  function FieldsText(j: Json, k: nat): string
    requires j.JObj? && k < |j.fields|
    decreases j, -1, |j.fields| - k
  {
    Quote(j.fields[k].0) + (":" + (Text(j.fields[k].1) + if k + 1 == |j.fields| then "}" else "," + FieldsText(j, k + 1)))
  }

  // ------------------------------------------------------------------ reading

  predicate IsSpace(c: char) {
    c == ' ' || c == '\t' || c == '\n' || c == '\r'
  }

  function SkipWs(s: string): (r: string)
    ensures |r| <= |s|
  {
    if s != "" && IsSpace(s[0]) then SkipWs(s[1..]) else s
  }

  predicate StartsWith(s: string, word: string) {
    |s| >= |word| && s[..|word|] == word
  }

  /** `strconv.ParseInt` with 64 bits. */
  function ParseInt64(lit: string): Option<int> {
    if IntText(lit) && lit != "-" && Fits64(IntValue(lit)) then Some(IntValue(lit)) else None
  }

  /** `number`: the run of number characters, an integer if it has no fraction or exponent and fits. */
  function DecodeNumber(s: string): Option<(Json, string)> {
    var n := NumRun(s);
    var lit := s[..n];
    var whole := if '.' in lit || 'e' in lit || 'E' in lit then None else ParseInt64(lit);
    if whole.Some? then Some((JInt(whole.value), s[n..]))
    else if NumberLength(lit) == Some(n) then Some((JFlt(lit), s[n..]))
    else None
  }

  /** `str`: escapes are undone only if there are any. */
  function DecodeString(s: string): (r: Option<(string, string)>)
    ensures r.Some? ==> |r.value.1| < |s|
  {
    if s == "" || s[0] != '"' then None
    else
      CloseFits(s[1..]);
      match CloseAt(s[1..])
      case None => None
      case Some(n) =>
        var raw := s[1..][..n];
        match if '\\' in raw then Unescape(raw) else Some(raw)
        case None => None
        case Some(out) => Some((out, s[1..][n + 1..]))
  }

  function DecodeValue(s0: string): (r: Option<(Json, string)>)
    ensures r.Some? ==> |r.value.1| < |s0|
    decreases |s0|, 2
  {
    var s := SkipWs(s0);
    if s == "" then None
    else if s[0] == '{' then
      var t := SkipWs(s[1..]);
      if t != "" && t[0] == '}' then Some((JObj([]), t[1..])) else DecodeFields(s[1..], [])
    else if s[0] == '[' then
      var t := SkipWs(s[1..]);
      if t != "" && t[0] == ']' then Some((JArr([]), t[1..])) else DecodeItems(t, [])
    else if s[0] == '"' then
      match DecodeString(s)
      case None => None
      case Some((str, rest)) => Some((JStr(str), rest))
    else if StartsWith(s, "true") then Some((JBool(true), s[4..]))
    else if StartsWith(s, "false") then Some((JBool(false), s[5..]))
    else if StartsWith(s, "null") then Some((JNull, s[4..]))
    else if s[0] == '-' || IsDigit(s[0]) then DecodeNumber(s)
    else None
  }

  /** The loop of `array`, after what has been read. */
  function DecodeItems(s: string, done: seq<Json>): (r: Option<(Json, string)>)
    ensures r.Some? ==> |r.value.1| < |s|
    decreases |s|, 3
  {
    match DecodeValue(s)
    case None => None
    case Some((v, rest)) =>
      var t := SkipWs(rest);
      if t == "" then None
      else if t[0] == ',' then DecodeItems(t[1..], done + [v])
      else if t[0] == ']' then Some((JArr(done + [v]), t[1..]))
      else None
  }

  /** A name, a colon and a value. */
  function DecodeField(s0: string): (r: Option<((string, Json), string)>)
    ensures r.Some? ==> |r.value.1| < |s0|
    decreases |s0|, 3
  {
    match DecodeString(SkipWs(s0))
    case None => None
    case Some((name, r1)) =>
      var s2 := SkipWs(r1);
      if s2 == "" || s2[0] != ':' then None
      else
        match DecodeValue(s2[1..])
        case None => None
        case Some((v, rest)) => Some(((name, v), rest))
  }

  /** The loop of `object`. */
  function DecodeFields(s0: string, done: seq<(string, Json)>): (r: Option<(Json, string)>)
    ensures r.Some? ==> |r.value.1| < |s0|
    decreases |s0|, 4
  {
    match DecodeField(s0)
    case None => None
    case Some((f, rest)) =>
      var t := SkipWs(rest);
      if t == "" then None
      else if t[0] == ',' then DecodeFields(t[1..], done + [f])
      else if t[0] == '}' then Some((JObj(done + [f]), t[1..]))
      else None
  }

  /** `fastDecodeObject`. */
  function DecodeObject(s: string): Option<seq<(string, Json)>> {
    var t := SkipWs(s);
    if t == "" || t[0] != '{' then None
    else
      match DecodeValue(t)
      case Some((JObj(fs), rest)) => if SkipWs(rest) == "" then Some(fs) else None
      case _ => None
  }

  // --------------------------------------------------------------- round trip

  /** What may follow a value. */
  predicate Ends(rest: string) {
    rest == "" || rest[0] == ',' || rest[0] == ']' || rest[0] == '}'
  }

  lemma NoSpace(s: string)
    requires s != "" && !IsSpace(s[0])
    ensures SkipWs(s) == s
  {
  }

  lemma QuoteReads(name: string, rest: string)
    ensures DecodeString(Quote(name) + rest) == Some((name, rest))
  {
    var s := Quote(name) + rest;
    assert s[1..] == Escape(name) + (['"'] + rest);
    QuoteCloses(name, rest);
    var n := |Escape(name)|;
    assert s[1..][..n] == Escape(name) && s[1..][n + 1..] == rest;
    EscapeRound(name);
    NoEscapes(name);
  }

  lemma IntReads(n: int, rest: string)
    requires Fits64(n) && Ends(rest)
    ensures DecodeNumber(Itoa(n) + rest) == Some((JInt(n), rest))
    ensures Itoa(n)[0] == '-' || IsDigit(Itoa(n)[0])
  {
    ItoaReads(n);
    ItoaLacks(n, '.');
    ItoaLacks(n, 'e');
    ItoaLacks(n, 'E');
    var t := Itoa(n);
    forall i | 0 <= i < |t|
      ensures NumChar(t[i])
    {
      if !AllDigits(t) && i > 0 {
        assert t[1..][i - 1] == t[i];
      }
    }
    NumRunOf(t, rest);
    assert (t + rest)[..|t|] == t && (t + rest)[|t|..] == rest;
    if n >= 0 {
      DecReads(n);
    } else {
      DecReads(-n);
    }
  }

  lemma FloatReads(t: string, rest: string)
    requires FloatText(t) && Ends(rest)
    ensures DecodeNumber(t + rest) == Some((JFlt(t), rest))
  {
    NumRunOf(t, rest);
    assert (t + rest)[..|t|] == t && (t + rest)[|t|..] == rest;
  }

  predicate OpensValue(c: char) {
    c == '"' || c == '[' || c == '{' || c == 't' || c == 'f' || c == 'n' || c == '-' || IsDigit(c)
  }

  lemma TextOpens(j: Json)
    requires Writable(j)
    ensures Text(j) != "" && OpensValue(Text(j)[0])
    ensures j.JObj? <==> Text(j)[0] == '{'
    ensures j.JArr? <==> Text(j)[0] == '['
    ensures j.JStr? <==> Text(j)[0] == '"'
    ensures j.JInt? || j.JFlt? <==> (Text(j)[0] == '-' || IsDigit(Text(j)[0]))
  {
    if j.JInt? {
      IntReads(j.n, "");
    }
  }

  lemma ScalarReads(j: Json, rest: string)
    requires Writable(j) && Ends(rest) && !j.JArr? && !j.JObj?
    ensures DecodeValue(Text(j) + rest) == Some((j, rest))
  {
    hide DecodeNumber, DecodeString, Quote, DecodeFields, DecodeItems, FloatText, NumberText;
    var s := Text(j) + rest;
    TextOpens(j);
    assert s[0] == Text(j)[0];
    NoSpace(s);
    match j
    case JNull =>
      assert s[..4] == "null" && s[4..] == rest;
    case JBool(b) =>
      assert b ==> s[..4] == "true" && s[4..] == rest;
      assert !b ==> s[..5] == "false" && s[5..] == rest;
    case JInt(n) => IntReads(n, rest);
    case JFlt(t) => FloatReads(t, rest);
    case JStr(str) => QuoteReads(str, rest);
  }

  /** Reading what was written gives the tree back, whatever legitimately follows. */
  lemma {:induction false} TextReads(j: Json, rest: string)
    requires Writable(j) && Ends(rest)
    ensures DecodeValue(Text(j) + rest) == Some((j, rest))
    decreases j, 0, 0
  {
    if j.JArr? {
      ArrayReads(j.items, rest, j);
    } else if j.JObj? {
      ObjectReads(rest, j);
    } else {
      ScalarReads(j, rest);
    }
  }

  lemma ArrayOpens(s: string, t: string)
    requires s == "[" + t && t != "" && !IsSpace(t[0])
    ensures DecodeValue(s) == if t[0] == ']' then Some((JArr([]), t[1..])) else DecodeItems(t, [])
  {
    hide DecodeItems, DecodeFields, DecodeString, DecodeNumber;
    NoSpace(s);
    NoSpace(t);
    assert s[1..] == t;
  }

  lemma {:induction false} ArrayReads(items: seq<Json>, rest: string, j: Json)
    requires j == JArr(items) && Writable(j) && Ends(rest)
    ensures DecodeValue(Text(j) + rest) == Some((j, rest))
    decreases items, 3, 0
  {
    hide DecodeItems, DecodeValue, ItemsText;
    var s := Text(j) + rest;
    if items == [] {
      assert s == "[" + ("]" + rest);
      assert ("]" + rest)[1..] == rest;
      ArrayOpens(s, "]" + rest);
    } else {
      var t := ItemsText(items) + rest;
      assert s == "[" + t;
      ItemsOpen(items, rest);
      ArrayOpens(s, t);
      ItemsRead(items, rest, []);
      assert [] + items == items;
    }
  }

  lemma ItemsOpen(items: seq<Json>, rest: string)
    requires items != [] && forall i :: 0 <= i < |items| ==> Writable(items[i])
    ensures var s := ItemsText(items) + rest; s != "" && OpensValue(s[0])
  {
    TextOpens(items[0]);
  }

  lemma ItemsStop(s: string, v: Json, after: string, done: seq<Json>)
    requires DecodeValue(s) == Some((v, "]" + after))
    ensures DecodeItems(s, done) == Some((JArr(done + [v]), after))
  {
    hide DecodeValue;
    assert ("]" + after)[1..] == after;
    NoSpace("]" + after);
  }

  lemma ItemsGoOn(s: string, v: Json, after: string, done: seq<Json>)
    requires DecodeValue(s) == Some((v, "," + after))
    ensures DecodeItems(s, done) == DecodeItems(after, done + [v])
  {
    hide DecodeValue;
    assert ("," + after)[1..] == after;
    NoSpace("," + after);
  }

  lemma {:induction false} ItemsRead(items: seq<Json>, rest: string, done: seq<Json>)
    requires items != [] && forall i :: 0 <= i < |items| ==> Writable(items[i])
    ensures DecodeItems(ItemsText(items) + rest, done) == Some((JArr(done + items), rest))
    decreases items, 2, 0
  {
    hide DecodeValue, DecodeItems, Text;
    var s := ItemsText(items) + rest;
    if |items| == 1 {
      assert s == Text(items[0]) + ("]" + rest);
      TextReads(items[0], "]" + rest);
      ItemsStop(s, items[0], rest, done);
      assert done + [items[0]] == done + items;
    } else {
      var after := ItemsText(items[1..]) + rest;
      assert s == Text(items[0]) + ("," + after);
      TextReads(items[0], "," + after);
      ItemsGoOn(s, items[0], after, done);
      ItemsRead(items[1..], rest, done + [items[0]]);
      assert done + [items[0]] + items[1..] == done + items;
    }
  }

  lemma {:induction false} ObjectReads(rest: string, j: Json)
    requires j.JObj? && Writable(j)
    ensures DecodeValue(Text(j) + rest) == Some((j, rest))
    decreases j, -1, |j.fields| + 1
  {
    hide DecodeFields, FieldsText;
    var s := Text(j) + rest;
    NoSpace(s);
    if j.fields == [] {
      assert s[1..] == "}" + rest;
      NoSpace(s[1..]);
      assert s[1..][1..] == rest;
    } else {
      assert s[1..] == FieldsText(j, 0) + rest;
      FieldsOpen(j, 0, rest);
      NoSpace(s[1..]);
      FieldsRead(j, 0, rest, []);
      assert [] + j.fields[0..] == j.fields;
    }
  }

  lemma FieldsOpen(j: Json, k: nat, rest: string)
    requires j.JObj? && k < |j.fields|
    ensures var s := FieldsText(j, k) + rest; s != "" && s[0] == '"'
  {
    QuoteOpens(j.fields[k].0);
  }

  lemma FieldsStop(s: string, f: (string, Json), after: string, done: seq<(string, Json)>)
    requires DecodeField(s) == Some((f, "}" + after))
    ensures DecodeFields(s, done) == Some((JObj(done + [f]), after))
  {
    hide DecodeField;
    assert ("}" + after)[1..] == after;
    NoSpace("}" + after);
  }

  lemma FieldsGoOn(s: string, f: (string, Json), after: string, done: seq<(string, Json)>)
    requires DecodeField(s) == Some((f, "," + after))
    ensures DecodeFields(s, done) == DecodeFields(after, done + [f])
  {
    hide DecodeField;
    assert ("," + after)[1..] == after;
    NoSpace("," + after);
  }

  lemma FieldReads(f: (string, Json), value: string, after: string)
    requires DecodeValue(value) == Some((f.1, after))
    ensures DecodeField(Quote(f.0) + (":" + value)) == Some((f, after))
  {
    hide DecodeValue, DecodeString, Quote;
    QuoteOpens(f.0);
    NoSpace(Quote(f.0) + (":" + value));
    QuoteReads(f.0, ":" + value);
    NoSpace(":" + value);
    assert (":" + value)[1..] == value;
  }

  lemma {:induction false} FieldsRead(j: Json, k: nat, rest: string, done: seq<(string, Json)>)
    requires j.JObj? && k < |j.fields| && Writable(j)
    ensures DecodeFields(FieldsText(j, k) + rest, done) == Some((JObj(done + j.fields[k..]), rest))
    decreases j, -1, |j.fields| - k
  {
    hide DecodeValue, DecodeField, DecodeFields, Quote, Text;
    var f, s := j.fields[k], FieldsText(j, k) + rest;
    assert j.fields[k..] == [f] + j.fields[k + 1..];
    if k + 1 == |j.fields| {
      var value := Text(f.1) + ("}" + rest);
      assert s == Quote(f.0) + (":" + value);
      TextReads(f.1, "}" + rest);
      FieldReads(f, value, "}" + rest);
      FieldsStop(s, f, rest, done);
      assert done + [f] == done + j.fields[k..];
    } else {
      var after := FieldsText(j, k + 1) + rest;
      var value := Text(f.1) + ("," + after);
      assert s == Quote(f.0) + (":" + value);
      TextReads(f.1, "," + after);
      FieldReads(f, value, "," + after);
      FieldsGoOn(s, f, after, done);
      FieldsRead(j, k + 1, rest, done + [f]);
      assert done + [f] + j.fields[k + 1..] == done + j.fields[k..];
    }
  }

  lemma QuoteOpens(name: string)
    ensures |Quote(name)| >= 2 && Quote(name)[0] == '"'
  {
  }
}
