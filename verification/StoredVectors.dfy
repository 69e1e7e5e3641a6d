/** The second reader of stored properties: one vector pulled out of the text, everything else
    skipped without decoding. */
module StoredVectors {
  import opened Seqs
  import opened Decimals
  import opened Between
  import opened JsonText
  import opened Codec
  import opened Stored
  import opened NameSort

  // ----------------------------------------------------------------- skipping

  /** Characters that end a bare word or number. */
  predicate EndsBare(c: char) {
    c == ',' || c == '}' || c == ']' || IsSpace(c)
  }

  function SkipBare(s: string): string {
    if s == "" || EndsBare(s[0]) then s else SkipBare(s[1..])
  }

  /** The text after the bracket that brings the depth to 0; strings are stepped over whole. It
      starts at an opening bracket, so the depth is never 0 at a closing one. */
  function SkipDepth(s: string, depth: nat): Option<string>
    decreases |s|
  {
    if s == "" then None
    else if s[0] == '"' then
      CloseFits(s[1..]);
      match CloseAt(s[1..])
      case None => None
      case Some(n) => SkipDepth(s[1..][n + 1..], depth)
    else if s[0] == '[' || s[0] == '{' then SkipDepth(s[1..], depth + 1)
    else if s[0] == ']' || s[0] == '}' then
      if depth == 0 then None
      else if depth == 1 then Some(s[1..]) else SkipDepth(s[1..], depth - 1)
    else SkipDepth(s[1..], depth)
  }

  /** `skipValue`: the text after the value at the front. */
  function SkipValue(s0: string): Option<string> {
    var s := SkipWs(s0);
    if s == "" then None
    else if s[0] == '"' then
      CloseFits(s[1..]);
      match CloseAt(s[1..])
      case None => None
      case Some(n) => Some(s[1..][n + 1..])
    else if s[0] == '[' || s[0] == '{' then SkipDepth(s, 0)
    else Some(SkipBare(s))
  }

  lemma {:induction false} DepthShortens(s: string, depth: nat)
    ensures SkipDepth(s, depth).Some? ==> |SkipDepth(s, depth).value| < |s|
    decreases |s|
  {
    if s != "" {
      if s[0] == '"' {
        CloseFits(s[1..]);
        if CloseAt(s[1..]).Some? {
          DepthShortens(s[1..][CloseAt(s[1..]).value + 1..], depth);
        }
      } else if s[0] == '[' || s[0] == '{' {
        DepthShortens(s[1..], depth + 1);
      } else if s[0] == ']' || s[0] == '}' {
        if depth > 1 {
          DepthShortens(s[1..], depth - 1);
        }
      } else {
        DepthShortens(s[1..], depth);
      }
    }
  }

  lemma {:induction false} BareShortens(s: string)
    ensures |SkipBare(s)| <= |s|
  {
    if s != "" && !EndsBare(s[0]) {
      BareShortens(s[1..]);
    }
  }

  lemma ValueShortens(s: string)
    ensures SkipValue(s).Some? ==> |SkipValue(s).value| <= |s|
  {
    DepthShortens(SkipWs(s), 0);
    BareShortens(SkipWs(s));
    if SkipWs(s) != "" {
      CloseFits(SkipWs(s)[1..]);
    }
  }

  function SkipWsCommas(s: string): (r: string)
    ensures |r| <= |s|
  {
    if s != "" && (IsSpace(s[0]) || s[0] == ',') then SkipWsCommas(s[1..]) else s
  }

  /** The loop of `objectMember`: the text from the value of the named member on. */
  function FindMember(s0: string, key: string): Option<string>
    decreases |s0|
  {
    var s := SkipWsCommas(s0);
    if s == "" || s[0] != '"' then None
    else
      CloseFits(s[1..]);
      match CloseAt(s[1..])
      case None => None
      case Some(n) =>
        var t := SkipWs(s[1..][n + 1..]);
        if t == "" || t[0] != ':' then None
        else
          var val := SkipWs(t[1..]);
          if s[1..][..n] == key then Some(val)
          else
            ValueShortens(val);
            match SkipValue(val)
            case None => None
            case Some(rest) => FindMember(rest, key)
  }

  function ObjectMember(text: string, key: string): Option<string> {
    var s := SkipWs(text);
    if s == "" || s[0] != '{' then None else FindMember(s[1..], key)
  }

  /** `fits` tells whether a number's text is finite as a 32-bit float. */
  function ParseItems(s0: string, n: nat, fits: string -> bool): Option<seq<string>>
    requires n > 0
    decreases n
  {
    var s := SkipWs(s0);
    match NumberLength(s)
    case None => None
    case Some(m) =>
      if !fits(s[..m]) then None
      else
        var t := SkipWs(s[m..]);
        if t == "" then None
        else if n == 1 then (if t[0] == ']' then Some([s[..m]]) else None)
        else if t[0] != ',' then None
        else
          match ParseItems(t[1..], n - 1, fits)
          case None => None
          case Some(rest) => Some([s[..m]] + rest)
  }

  /** `ParseFloat32s` for a vector of dimension `n`. */
  function ParseFloats(text: string, n: nat, fits: string -> bool): Option<seq<string>>
    requires n > 0
  {
    var s := SkipWs(text);
    if s == "" || s[0] != '[' then None else ParseItems(s[1..], n, fits)
  }

  function StoredVector(props: string, key: string, n: nat, fits: string -> bool): Option<seq<string>>
    requires n > 0
  {
    match ObjectMember(props, key)
    case None => None
    case Some(val) =>
      if val != "" && val[0] == '{' then
        match ObjectMember(val, "c")
        case None => None
        case Some(c) => ParseFloats(c, n, fits)
      else ParseFloats(val, n, fits)
  }

  // ----------------------------------------------- skipping what was written

  predicate NoBrackets(t: string) {
    forall i :: 0 <= i < |t| ==> t[i] != '"' && t[i] != '[' && t[i] != '{' && t[i] != ']' && t[i] != '}'
  }

  lemma {:induction false} DepthPlain(t: string, rest: string, depth: nat)
    requires NoBrackets(t)
    ensures SkipDepth(t + rest, depth) == SkipDepth(rest, depth)
    decreases |t|
  {
    if t == "" {
      assert t + rest == rest;
    } else {
      assert (t + rest)[0] == t[0] && (t + rest)[1..] == t[1..] + rest;
      DepthPlain(t[1..], rest, depth);
    }
  }

  lemma DepthQuote(name: string, rest: string, depth: nat)
    ensures SkipDepth(Quote(name) + rest, depth) == SkipDepth(rest, depth)
  {
    var s := Quote(name) + rest;
    assert s[1..] == Escape(name) + (['"'] + rest);
    QuoteCloses(name, rest);
    assert s[1..][|Escape(name)| + 1..] == rest;
  }

  lemma WordPlain(j: Json)
    requires Writable(j) && !j.JStr? && !j.JArr? && !j.JObj?
    ensures NoBrackets(Text(j)) && Text(j) != ""
    ensures forall i :: 0 <= i < |Text(j)| ==> !EndsBare(Text(j)[i])
  {
    var t := Text(j);
    if j.JInt? {
      ItoaReads(j.n);
      IntChars(t);
    } else if j.JFlt? {
      forall i | 0 <= i < |t|
        ensures NumChar(t[i])
      {
      }
    }
  }

  lemma DepthOpens(c: char, rest: string, depth: nat)
    requires c == '[' || c == '{'
    ensures SkipDepth([c] + rest, depth) == SkipDepth(rest, depth + 1)
  {
    assert ([c] + rest)[1..] == rest;
  }

  /** Stepping over a written value inside brackets leaves the depth as it was. */
  lemma {:induction false} DepthOver(j: Json, rest: string, depth: nat)
    requires Writable(j) && depth > 0
    ensures SkipDepth(Text(j) + rest, depth) == SkipDepth(rest, depth)
    decreases j, 0, 0
  {
    hide SkipDepth, Quote, ItemsText, FieldsText;
    if j.JStr? {
      DepthQuote(j.s, rest, depth);
    } else if j.JArr? {
      var inner := (if j.items == [] then "]" else ItemsText(j.items)) + rest;
      assert Text(j) + rest == ['['] + inner;
      DepthOpens('[', inner, depth);
      if j.items == [] {
        assert inner == [']'] + rest;
        DepthCloses(']', rest, depth + 1);
      } else {
        DepthItems(j.items, rest, depth + 1);
      }
    } else if j.JObj? {
      var inner := (if j.fields == [] then "}" else FieldsText(j, 0)) + rest;
      assert Text(j) + rest == ['{'] + inner;
      DepthOpens('{', inner, depth);
      if j.fields == [] {
        assert inner == ['}'] + rest;
        DepthCloses('}', rest, depth + 1);
      } else {
        DepthFields(j, 0, rest, depth + 1);
      }
    } else {
      WordPlain(j);
      DepthPlain(Text(j), rest, depth);
    }
  }

  function Shallower(rest: string, depth: nat): Option<string>
    requires depth > 0
  {
    if depth == 1 then Some(rest) else SkipDepth(rest, depth - 1)
  }

  lemma DepthCloses(c: char, rest: string, depth: nat)
    requires depth > 0 && (c == ']' || c == '}')
    ensures SkipDepth([c] + rest, depth) == Shallower(rest, depth)
  {
    assert ([c] + rest)[1..] == rest;
  }

  lemma {:induction false} DepthItems(items: seq<Json>, rest: string, depth: nat)
    requires items != [] && depth > 0 && forall i :: 0 <= i < |items| ==> Writable(items[i])
    ensures SkipDepth(ItemsText(items) + rest, depth) == Shallower(rest, depth)
    decreases items, 2, 0
  {
    hide SkipDepth;
    var after := (if |items| == 1 then "]" else "," + ItemsText(items[1..])) + rest;
    assert ItemsText(items) + rest == Text(items[0]) + after;
    DepthOver(items[0], after, depth);
    if |items| == 1 {
      assert after == [']'] + rest;
      DepthCloses(']', rest, depth);
    } else {
      assert after == "," + (ItemsText(items[1..]) + rest);
      DepthPlain(",", ItemsText(items[1..]) + rest, depth);
      DepthItems(items[1..], rest, depth);
    }
  }

  lemma {:induction false} DepthFields(j: Json, k: nat, rest: string, depth: nat)
    requires j.JObj? && k < |j.fields| && Writable(j) && depth > 0
    ensures SkipDepth(FieldsText(j, k) + rest, depth) == Shallower(rest, depth)
    decreases j, -1, |j.fields| - k
  {
    hide SkipDepth, Quote;
    var f := j.fields[k];
    var after := (if k + 1 == |j.fields| then "}" else "," + FieldsText(j, k + 1)) + rest;
    assert FieldsText(j, k) + rest == Quote(f.0) + (":" + (Text(f.1) + after));
    DepthQuote(f.0, ":" + (Text(f.1) + after), depth);
    DepthPlain(":", Text(f.1) + after, depth);
    DepthOver(f.1, after, depth);
    if k + 1 == |j.fields| {
      assert after == ['}'] + rest;
      DepthCloses('}', rest, depth);
    } else {
      assert after == "," + (FieldsText(j, k + 1) + rest);
      DepthPlain(",", FieldsText(j, k + 1) + rest, depth);
      DepthFields(j, k + 1, rest, depth);
    }
  }

  lemma {:induction false} BareOver(t: string, rest: string)
    requires forall i :: 0 <= i < |t| ==> !EndsBare(t[i])
    requires rest != "" && EndsBare(rest[0])
    ensures SkipBare(t + rest) == rest
    decreases |t|
  {
    if t == "" {
      assert t + rest == rest;
    } else {
      assert (t + rest)[0] == t[0] && (t + rest)[1..] == t[1..] + rest;
      BareOver(t[1..], rest);
    }
  }

  lemma BracketOver(j: Json, rest: string)
    requires Writable(j) && (j.JArr? || j.JObj?)
    ensures SkipDepth(Text(j) + rest, 0) == Some(rest)
  {
    hide SkipDepth, Quote, ItemsText, FieldsText;
    if j.JArr? {
      var inner := (if j.items == [] then "]" else ItemsText(j.items)) + rest;
      assert Text(j) + rest == ['['] + inner;
      DepthOpens('[', inner, 0);
      if j.items == [] {
        assert inner == [']'] + rest;
        DepthCloses(']', rest, 1);
      } else {
        DepthItems(j.items, rest, 1);
      }
    } else {
      var inner := (if j.fields == [] then "}" else FieldsText(j, 0)) + rest;
      assert Text(j) + rest == ['{'] + inner;
      DepthOpens('{', inner, 0);
      if j.fields == [] {
        assert inner == ['}'] + rest;
        DepthCloses('}', rest, 1);
      } else {
        DepthFields(j, 0, rest, 1);
      }
    }
  }

  /** A written value is skipped exactly, by quotes, by brackets or by delimiters. */
  lemma SkipOver(j: Json, rest: string)
    requires Writable(j) && rest != "" && Ends(rest)
    ensures SkipValue(Text(j) + rest) == Some(rest)
  {
    hide SkipDepth, ItemsText, FieldsText, SkipBare;
    var s := Text(j) + rest;
    TextOpens(j);
    assert s[0] == Text(j)[0];
    NoSpace(s);
    if j.JStr? {
      QuoteParts(j.s, rest);
    } else if j.JArr? || j.JObj? {
      BracketOver(j, rest);
    } else {
      WordPlain(j);
      BareOver(Text(j), rest);
    }
  }

  lemma QuoteParts(name: string, rest: string)
    ensures var s := Quote(name) + rest;
      CloseAt(s[1..]) == Some(|Escape(name)|) && |s[1..]| > |Escape(name)|
      && s[1..][..|Escape(name)|] == Escape(name) && s[1..][|Escape(name)| + 1..] == rest
  {
    var s := Quote(name) + rest;
    assert s[1..] == Escape(name) + (['"'] + rest);
    QuoteCloses(name, rest);
  }

  // ---------------------------------------------------------- finding a member

  /** A name JSON writes as it is, such as a plain identifier. */
  predicate PlainName(key: string) {
    Escape(key) == key
  }

  lemma EscapeInjective(a: string, b: string)
    ensures Escape(a) == Escape(b) <==> a == b
  {
    EscapeRound(a);
    EscapeRound(b);
  }

  /** The first field of that name from the `k`th on. */
  function FirstField(j: Json, k: nat, key: string): Option<nat>
    requires j.JObj? && k <= |j.fields|
    decreases |j.fields| - k
  {
    if k == |j.fields| then None
    else if j.fields[k].0 == key then Some(k)
    else FirstField(j, k + 1, key)
  }

  /** What follows the value of a field. */
  function AfterField(j: Json, k: nat, rest: string): string
    requires j.JObj? && k < |j.fields|
  {
    (if k + 1 == |j.fields| then "}" else "," + FieldsText(j, k + 1)) + rest
  }

  lemma {:induction false} FirstFieldIs(j: Json, k: nat, key: string)
    requires j.JObj? && k <= |j.fields|
    ensures var i := FirstField(j, k, key);
      && (i.Some? ==> k <= i.value < |j.fields| && j.fields[i.value].0 == key)
      && (i.None? ==> forall m :: k <= m < |j.fields| ==> j.fields[m].0 != key)
    decreases |j.fields| - k
  {
    if k < |j.fields| && j.fields[k].0 != key {
      FirstFieldIs(j, k + 1, key);
    }
  }

  lemma {:induction false} FindsField(j: Json, k: nat, rest: string, key: string)
    requires j.JObj? && k < |j.fields| && Writable(j) && PlainName(key)
    ensures FindMember(FieldsText(j, k) + rest, key) ==
      match FirstField(j, k, key)
      case None => None
      case Some(i) => if i < |j.fields| then Some(Text(j.fields[i].1) + AfterField(j, i, rest)) else None
    decreases |j.fields| - k
  {
    hide FindMember, Quote;
    var f := j.fields[k];
    var after := AfterField(j, k, rest);
    assert FieldsText(j, k) + rest == Quote(f.0) + (":" + (Text(f.1) + after));
    FindStep(f.0, f.1, after, key);
    if f.0 != key {
      if k + 1 < |j.fields| {
        assert after == "," + (FieldsText(j, k + 1) + rest);
        CommaSkipped(FieldsText(j, k + 1) + rest, key);
        FindsField(j, k + 1, rest, key);
      } else {
        assert after == "}" + rest;
        BraceStops(rest, key);
      }
    }
  }

  lemma BraceStops(rest: string, key: string)
    ensures FindMember("}" + rest, key) == None
  {
  }

  lemma CommaSkipped(s: string, key: string)
    ensures FindMember("," + s, key) == FindMember(s, key)
  {
    assert ("," + s)[1..] == s;
    assert SkipWsCommas("," + s) == SkipWsCommas(s);
  }

  /** One round of `objectMember` on a written field. */
  lemma FindStep(name: string, j: Json, after: string, key: string)
    requires Writable(j) && PlainName(key) && after != "" && Ends(after)
    ensures FindMember(Quote(name) + (":" + (Text(j) + after)), key) ==
      if name == key then Some(Text(j) + after) else FindMember(after, key)
  {
    hide SkipValue, Text, Quote;
    var value := Text(j) + after;
    var s := Quote(name) + (":" + value);
    QuoteOpens(name);
    assert SkipWsCommas(s) == s;
    QuoteParts(name, ":" + value);
    NoSpace(":" + value);
    assert (":" + value)[1..] == value;
    TextOpens(j);
    assert value[0] == Text(j)[0];
    NoSpace(value);
    EscapeInjective(name, key);
    SkipOver(j, after);
  }

  /** Looking a member up in a written object. */
  lemma MemberFound(j: Json, rest: string, key: string)
    requires j.JObj? && Writable(j) && PlainName(key)
    ensures ObjectMember(Text(j) + rest, key) ==
      match FirstField(j, 0, key)
      case None => None
      case Some(i) => if i < |j.fields| then Some(Text(j.fields[i].1) + AfterField(j, i, rest)) else None
  {
    hide FindMember, FieldsText;
    var s := Text(j) + rest;
    NoSpace(s);
    if j.fields == [] {
      assert s[1..] == "}" + rest;
      BraceStops(rest, key);
    } else {
      assert s[1..] == FieldsText(j, 0) + rest;
      FindsField(j, 0, rest, key);
    }
  }

  // ------------------------------------------------------- reading a vector

  lemma {:induction false} DigitsMantissa(t: string, dot: bool)
    requires AllDigits(t)
    ensures MantissaRun(t, dot) == |t|
  {
    if t != "" {
      assert IsDigit(t[0]);
      DigitsMantissa(t[1..], dot);
    }
  }

  lemma IntIsNumber(n: int)
    ensures NumberText(Itoa(n))
  {
    ItoaReads(n);
    var t := Itoa(n);
    IntChars(t);
    var d := if n < 0 then Dec(-n) else Dec(n);
    DecReads(if n < 0 then -n else n);
    DigitsMantissa(d, false);
    assert d[..|d|] == d && d[|d|..] == "";
    assert IsDigit(d[0]);
    assert UnsignedLength(d) == Some(|d|);
    if n < 0 {
      assert t[1..] == d;
    }
  }

  lemma NotANumber(j: Json, after: string)
    requires Writable(j) && NumText(j).None?
    ensures NumberLength(Text(j) + after).None?
  {
    TextOpens(j);
    var s := Text(j) + after;
    assert s[0] == Text(j)[0];
    assert MantissaRun(s, false) == 0;
    assert s[..0] == "";
  }

  lemma ANumber(j: Json, after: string)
    requires Writable(j) && NumText(j).Some? && after != "" && Ends(after)
    ensures NumText(j) == Some(Text(j)) && NumberLength(Text(j) + after) == Some(|Text(j)|)
  {
    if j.JInt? {
      IntIsNumber(j.n);
    }
    NumberLocal(Text(j), after);
  }

  ghost predicate AllFit(ts: seq<string>, fits: string -> bool) {
    forall i :: 0 <= i < |ts| ==> fits(ts[i])
  }

  /** What reading `n` numbers from a written list gives. */
  ghost function Coords(items: seq<Json>, n: nat, fits: string -> bool): Option<seq<string>> {
    match NumTexts(items)
    case None => None
    case Some(ts) => if |ts| == n && AllFit(ts, fits) then Some(ts) else None
  }

  lemma CoordsCons(items: seq<Json>, n: nat, fits: string -> bool)
    requires items != [] && n > 0
    ensures Coords(items, n, fits) ==
      if NumText(items[0]).None? || !fits(NumText(items[0]).value) then None
      else
        match Coords(items[1..], n - 1, fits)
        case None => None
        case Some(ts) => Some([NumText(items[0]).value] + ts)
  {
    var rest := items[1..];
    assert forall i :: 0 <= i < |rest| ==> rest[i] == items[i + 1];
    if NumTexts(items).Some? {
      var ts := NumTexts(items).value;
      assert forall i :: 0 <= i < |rest| ==> NumText(rest[i]).Some?;
      assert NumTexts(rest).value == ts[1..];
      assert ts == [ts[0]] + ts[1..];
      assert AllFit(ts, fits) <==> fits(ts[0]) && AllFit(ts[1..], fits) by {
        assert forall i :: 0 <= i < |ts[1..]| ==> ts[1..][i] == ts[i + 1];
      }
    } else {
      NumTextsRest(items);
    }
  }

  lemma NumTextsRest(items: seq<Json>)
    requires items != []
    ensures NumTexts(items).Some? <==> NumText(items[0]).Some? && NumTexts(items[1..]).Some?
  {
    if NumText(items[0]).Some? && NumTexts(items[1..]).Some? {
      forall i | 0 <= i < |items|
        ensures NumText(items[i]).Some?
      {
        assert i > 0 ==> items[1..][i - 1] == items[i];
      }
    }
    if NumTexts(items).Some? {
      assert forall i :: 0 <= i < |items[1..]| ==> NumText(items[1..][i]) == NumText(items[i + 1]);
    }
  }

  lemma {:induction false} ItemsParsed(items: seq<Json>, n: nat, fits: string -> bool, rest: string)
    requires items != [] && n > 0 && forall i :: 0 <= i < |items| ==> Writable(items[i])
    ensures ParseItems(ItemsText(items) + rest, n, fits) == Coords(items, n, fits)
    decreases |items|
  {
    hide Coords, NumberLength, Text;
    var j := items[0];
    var after := (if |items| == 1 then "]" else "," + ItemsText(items[1..])) + rest;
    var s := ItemsText(items) + rest;
    assert s == Text(j) + after;
    TextOpens(j);
    assert s[0] == Text(j)[0];
    NoSpace(s);
    CoordsCons(items, n, fits);
    if NumText(j).None? {
      NotANumber(j, after);
    } else {
      ANumber(j, after);
      assert s[..|Text(j)|] == Text(j) && s[|Text(j)|..] == after;
      NoSpace(after);
      CoordsOne(items[1..], n - 1, fits);
      assert after[0] == if |items| == 1 then ']' else ',';
      assert [Text(j)] + [] == [Text(j)];
      if |items| > 1 && n > 1 {
        assert after[1..] == ItemsText(items[1..]) + rest;
        ItemsParsed(items[1..], n - 1, fits, rest);
      }
    }
  }

  lemma CoordsOne(items: seq<Json>, n: nat, fits: string -> bool)
    ensures items == [] && n == 0 ==> Coords(items, n, fits) == Some([])
    ensures |items| != n ==> Coords(items, n, fits) == None
  {
  }

  lemma NoItems(n: nat, fits: string -> bool, rest: string)
    requires n > 0
    ensures ParseItems("]" + rest, n, fits) == None
  {
    var s := "]" + rest;
    NoSpace(s);
    assert s[..0] == "";
    assert NumberLength(s).None?;
  }

  /** Reading a vector of dimension `n` from any written value. */
  lemma FloatsParsed(j: Json, n: nat, fits: string -> bool, rest: string)
    requires Writable(j) && n > 0
    ensures ParseFloats(Text(j) + rest, n, fits) == if j.JArr? then Coords(j.items, n, fits) else None
  {
    hide Coords, ParseItems, ItemsText;
    var s := Text(j) + rest;
    TextOpens(j);
    assert s[0] == Text(j)[0];
    NoSpace(s);
    if j.JArr? {
      if j.items == [] {
        assert s[1..] == "]" + rest;
        NoItems(n, fits, rest);
        CoordsOne(j.items, n, fits);
      } else {
        assert s[1..] == ItemsText(j.items) + rest;
        ItemsParsed(j.items, n, fits, rest);
      }
    }
  }

  // ------------------------------------------------------------ the two readers

  function Lookup(ps: PropList, key: string): Option<PV> {
    if ps == [] then None
    else if ps[0].0 == key then Some(ps[0].1)
    else Lookup(ps[1..], key)
  }

  predicate IsNumber(v: PV) {
    v.PInt? || v.PFlt?
  }

  function NumberOf(v: PV): string {
    match v
    case PInt(n) => Itoa(n)
    case PFlt(t) => t
    case _ => ""
  }

  /** `float32s` on the decoded property: a vector or a list of numbers, of the right dimension. */
  ghost function DecodedVector(v: Option<PV>, n: nat): Option<seq<string>> {
    match v
    case Some(PVector(_, coords)) => if |coords| == n then Some(coords) else None
    case Some(PList(items)) =>
      if |items| == n && forall i :: 0 <= i < |items| ==> IsNumber(items[i])
      then Some(seq(|items|, i requires 0 <= i < |items| => NumberOf(items[i])))
      else None
    case _ => None
  }

  ghost function IfFits(ts: Option<seq<string>>, fits: string -> bool): Option<seq<string>> {
    if ts.Some? && AllFit(ts.value, fits) then ts else None
  }

  /** What the text reader takes for the vector: also the coordinates of a point. */
  ghost function TextVector(v: Option<PV>, n: nat, fits: string -> bool): Option<seq<string>> {
    match v
    case Some(PPoint(_, x, y, z)) => if n == 3 then IfFits(Some([x, y, z]), fits) else None
    case _ => IfFits(DecodedVector(v, n), fits)
  }

  lemma {:induction false} LookupIsFirst(ps: PropList, all: PropList, k: nat, key: string)
    requires k <= |all| && ps == all[k..]
    ensures var i := FirstField(JObj(Fields(all)), k, key);
      (i.None? <==> Lookup(ps, key).None?) && (i.Some? ==> i.value < |all| && Lookup(ps, key) == Some(all[i.value].1))
    decreases |all| - k
  {
    if k < |all| {
      assert ps[1..] == all[k + 1..];
      LookupIsFirst(ps[1..], all, k + 1, key);
    }
  }

  lemma {:induction false} ListCoords(items: seq<PV>, n: nat, fits: string -> bool, acc: Accepts)
    requires forall i :: 0 <= i < |items| ==> Storable(items[i], acc)
    ensures Coords(Tree(PList(items)).items, n, fits) == IfFits(DecodedVector(Some(PList(items)), n), fits)
  {
    var trees := Tree(PList(items)).items;
    forall i | 0 <= i < |items|
      ensures NumText(trees[i]).Some? <==> IsNumber(items[i])
      ensures IsNumber(items[i]) ==> NumText(trees[i]) == Some(NumberOf(items[i]))
    {
      assert trees[i] == Tree(items[i]);
    }
    if NumTexts(trees).Some? {
      assert forall i :: 0 <= i < |items| ==> IsNumber(items[i]);
      if |items| == n {
        assert NumTexts(trees).value == DecodedVector(Some(PList(items)), n).value;
      }
    } else if |items| == n && (forall i :: 0 <= i < |items| ==> IsNumber(items[i])) {
      assert forall i :: 0 <= i < |trees| ==> NumText(trees[i]).Some?;
    }
  }

  lemma PlainC()
    ensures PlainName("c")
  {
    assert "c"[1..] == "";
    assert Escape("c") == EscapeChar('c') + Escape("");
  }

  lemma SecondField(a: string, x: Json, y: Json)
    requires a != "c"
    ensures FirstField(JObj([(a, x), ("c", y)]), 0, "c") == Some(1)
  {
    var j := JObj([(a, x), ("c", y)]);
    assert FirstField(j, 1, "c") == Some(1);
  }

  lemma NoSecondField(a: string, x: Json, b: string, y: Json)
    requires a != "c" && b != "c"
    ensures FirstField(JObj([(a, x), (b, y)]), 0, "c") == None
  {
    var j := JObj([(a, x), (b, y)]);
    assert FirstField(j, 2, "c") == None;
    assert FirstField(j, 1, "c") == None;
  }

  /** Reading from where a stored value starts. */
  ghost function ReadAt(val: string, n: nat, fits: string -> bool): Option<seq<string>>
    requires n > 0
  {
    if val != "" && val[0] == '{' then
      match ObjectMember(val, "c")
      case None => None
      case Some(c) => ParseFloats(c, n, fits)
    else ParseFloats(val, n, fits)
  }

  lemma ObjectRead(j: Json, rest: string, n: nat, fits: string -> bool)
    requires j.JObj? && Writable(j) && n > 0
    ensures ReadAt(Text(j) + rest, n, fits) ==
      match FirstField(j, 0, "c")
      case None => None
      case Some(i) => if i < |j.fields| && j.fields[i].1.JArr? then Coords(j.fields[i].1.items, n, fits) else None
  {
    hide Text, ParseFloats, ObjectMember, Coords;
    PlainC();
    TextOpens(j);
    assert (Text(j) + rest)[0] == Text(j)[0];
    MemberFound(j, rest, "c");
    FirstFieldIs(j, 0, "c");
    var i := FirstField(j, 0, "c");
    if i.Some? {
      FloatsParsed(j.fields[i.value].1, n, fits, AfterField(j, i.value, rest));
    }
  }

  lemma CoordTrees(ts: seq<string>, n: nat, fits: string -> bool)
    requires forall i :: 0 <= i < |ts| ==> CoordText(ts[i])
    ensures Coords(NumTrees(ts), n, fits) == if |ts| == n then IfFits(Some(ts), fits) else None
  {
    CoordsRead(ts);
  }

  /** From the start of the property's value. */
  lemma ValueRead(v: PV, rest: string, n: nat, fits: string -> bool, acc: Accepts)
    requires Storable(v, acc) && n > 0
    ensures ReadAt(Text(Tree(v)) + rest, n, fits) == TextVector(Some(v), n, fits)
  {
    hide Text, ReadAt, Coords, CoordText, NumTree;
    TreeRevives(v, acc);
    match v
    case PTemporal(kind, text) =>
      ObjectRead(Tree(v), rest, n, fits);
      NoSecondField("$t", JInt(kind), "v", JStr(text));
    case PPoint(srid, x, y, z) =>
      ObjectRead(Tree(v), rest, n, fits);
      SecondField("$p", JInt(srid), JArr([NumTree(x), NumTree(y), NumTree(z)]));
      CoordTrees([x, y, z], n, fits);
      assert NumTrees([x, y, z]) == [NumTree(x), NumTree(y), NumTree(z)];
    case PVector(typ, coords) =>
      ObjectRead(Tree(v), rest, n, fits);
      SecondField("$v", JStr(typ), JArr(NumTrees(coords)));
      CoordTrees(coords, n, fits);
    case PList(items) =>
      PlainRead(Tree(v), rest, n, fits);
      ListCoords(items, n, fits, acc);
    case _ =>
      PlainRead(Tree(v), rest, n, fits);
  }

  lemma PlainRead(j: Json, rest: string, n: nat, fits: string -> bool)
    requires Writable(j) && !j.JObj? && n > 0
    ensures ReadAt(Text(j) + rest, n, fits) == if j.JArr? then Coords(j.items, n, fits) else None
  {
    hide Text, ParseFloats, Coords;
    TextOpens(j);
    assert (Text(j) + rest)[0] == Text(j)[0];
    FloatsParsed(j, n, fits, rest);
  }

  lemma {:induction false} LookupIs(ps: PropList, key: string, v: PV)
    requires NamesApart(ps)
    ensures Lookup(ps, key) == Some(v) <==> (key, v) in ps
  {
    if ps != [] {
      LookupIs(ps[1..], key, v);
      assert ps == [ps[0]] + ps[1..];
    }
  }

  /** The order of the entries does not matter. */
  lemma LookupAnyOrder(ps: PropList, qs: PropList, key: string)
    requires NamesApart(ps) && NamesApart(qs) && forall p :: p in ps <==> p in qs
    ensures Lookup(ps, key) == Lookup(qs, key)
  {
    if Lookup(ps, key).Some? {
      LookupIs(ps, key, Lookup(ps, key).value);
      LookupIs(qs, key, Lookup(ps, key).value);
    } else if Lookup(qs, key).Some? {
      LookupIs(ps, key, Lookup(qs, key).value);
      LookupIs(qs, key, Lookup(qs, key).value);
    }
  }

  /** What the text reader finds in the encoding of a property map. */
  lemma StoredReads(ps: PropList, key: string, n: nat, fits: string -> bool, acc: Accepts)
    requires StorableProps(ps, acc) && PlainName(key) && n > 0
    ensures StoredVector(EncodeProps(ps), key, n, fits) == TextVector(Lookup(ps, key), n, fits)
  {
    hide StoredVector, TextVector, Lookup, SortPairs, Text, Fields;
    SortStorable(ps, acc);
    SortedApart(SortPairs(ps));
    LookupAnyOrder(ps, SortPairs(ps), key);
    ListReads(SortPairs(ps), key, n, fits, acc);
  }

  lemma SortedApart(ps: PropList)
    requires ByName(ps)
    ensures NamesApart(ps)
  {
    forall i, j | 0 <= i < j < |ps|
      ensures ps[i].0 != ps[j].0
    {
      LessOrders(ps[i].0, ps[j].0);
    }
  }

  lemma ListReads(ps: PropList, key: string, n: nat, fits: string -> bool, acc: Accepts)
    requires StorableProps(ps, acc) && PlainName(key) && n > 0
    ensures StoredVector(Text(JObj(Fields(ps))), key, n, fits) == TextVector(Lookup(ps, key), n, fits)
  {
    hide Text, ObjectMember, ParseFloats, TextVector, Tree, Storable;
    var j := JObj(Fields(ps));
    forall i | 0 <= i < |ps|
      ensures Writable(Tree(ps[i].1))
    {
      TreeRevives(ps[i].1, acc);
    }
    MemberFound(j, "", key);
    assert Text(j) + "" == Text(j);
    assert ps[0..] == ps;
    LookupIsFirst(ps, ps, 0, key);
    FirstFieldIs(j, 0, key);
    var i := FirstField(j, 0, key);
    if i.Some? {
      ValueRead(ps[i.value].1, AfterField(j, i.value, ""), n, fits, acc);
    } else {
      assert TextVector(None, n, fits) == None by {
        NoVector(n, fits);
      }
    }
  }

  lemma NoVector(n: nat, fits: string -> bool)
    ensures TextVector(None, n, fits) == None
  {
  }

  /** The reader that skips and the full decode agree on a property exactly unless it is a point
      and the index has three dimensions, or the full decode accepts a coordinate too large for
      32 bits. */
  lemma ReadersAgree(ps: PropList, key: string, n: nat, fits: string -> bool, acc: Accepts)
    requires StorableProps(ps, acc) && PlainName(key) && n > 0
    ensures DecodeProps(EncodeProps(ps), acc).Some? && Lookup(DecodeProps(EncodeProps(ps), acc).value, key) == Lookup(ps, key)
    ensures var v := Lookup(ps, key);
      StoredVector(EncodeProps(ps), key, n, fits) == DecodedVector(v, n) <==>
        && !(n == 3 && v.Some? && v.value.PPoint? && fits(v.value.x) && fits(v.value.y) && fits(v.value.z))
        && (DecodedVector(v, n).Some? ==> AllFit(DecodedVector(v, n).value, fits))
  {
    PropsRoundTrip(ps, acc);
    StoredReads(ps, key, n, fits, acc);
    SortStorable(ps, acc);
    hide EncodeProps, DecodeProps, StoredVector, SortPairs, StorableProps;
    SortedApart(DecodeProps(EncodeProps(ps), acc).value);
    LookupAnyOrder(ps, DecodeProps(EncodeProps(ps), acc).value, key);
    var v := Lookup(ps, key);
    if v.Some? && v.value.PPoint? {
      var cs := [v.value.x, v.value.y, v.value.z];
      assert AllFit(cs, fits) <==> fits(cs[0]) && fits(cs[1]) && fits(cs[2]);
    }
  }

  // ---------------------------------------------------------------- the cursor

  /** White space from an index on. */
  method SkipSpaces(s: string, i0: nat) returns (i: nat)
    requires i0 <= |s|
    ensures i0 <= i <= |s| && s[i..] == SkipWs(s[i0..])
    ensures i < |s| ==> !IsSpace(s[i])
  {
    i := i0;
    while i < |s| && IsSpace(s[i])
      invariant i0 <= i <= |s| && SkipWs(s[i..]) == SkipWs(s[i0..])
    {
      assert s[i..][1..] == s[i + 1..];
      i := i + 1;
    }
    assert i < |s| ==> s[i..][0] == s[i];
  }

  /** The index after the string that starts at `i0`, or -1. */
  method SkipString(s: string, i0: nat) returns (r: int)
    requires i0 < |s| && s[i0] == '"'
    ensures r < 0 ==> CloseAt(s[i0 + 1..]).None?
    ensures r >= 0 ==> i0 + 1 < r <= |s| && CloseAt(s[i0 + 1..]) == Some(r - i0 - 2)
  {
    var i := i0 + 1;
    ghost var body := s[i0 + 1..];
    while i < |s|
      invariant i0 < i <= |s|
      invariant CloseAt(body) == match CloseAt(s[i..]) case None => None case Some(n) => Some(n + (i - i0 - 1))
    {
      if s[i] == '\\' {
        if i + 2 > |s| {
          return -1;
        }
        assert s[i..][2..] == s[i + 2..];
        i := i + 2;
      } else if s[i] == '"' {
        return i + 1;
      } else {
        assert s[i..][1..] == s[i + 1..];
        i := i + 1;
      }
    }
    return -1;
  }

  /** The loop over brackets, and the strings between them. */
  method SkipBracketsAt(s: string, i0: nat) returns (r: int)
    requires i0 < |s| && (s[i0] == '[' || s[i0] == '{')
    ensures r < 0 ==> SkipDepth(s[i0..], 0).None?
    ensures r >= 0 ==> i0 <= r <= |s| && SkipDepth(s[i0..], 0) == Some(s[r..])
  {
    hide CloseAt;
    var i := i0;
    var depth: nat := 0;
    while i < |s|
      invariant i0 <= i <= |s| && SkipDepth(s[i0..], 0) == SkipDepth(s[i..], depth)
      invariant depth > 0 || i == i0
    {
      assert s[i..][0] == s[i] && s[i..][1..] == s[i + 1..];
      if s[i] == '"' {
        var next := SkipString(s, i);
        if next < 0 {
          return -1;
        }
        assert s[i + 1..][next - i - 2 + 1..] == s[next..];
        i := next;
        continue;
      }
      if s[i] == '[' || s[i] == '{' {
        depth := depth + 1;
      } else if s[i] == ']' || s[i] == '}' {
        depth := depth - 1;
        if depth == 0 {
          return i + 1;
        }
      }
      i := i + 1;
    }
    return -1;
  }

  /** `skipValue`: the index after the value, or -1 if it is malformed. */
  method SkipValueAt(s: string, i0: nat) returns (r: int)
    requires i0 <= |s|
    ensures r < 0 ==> SkipValue(s[i0..]).None?
    ensures r >= 0 ==> i0 <= r <= |s| && SkipValue(s[i0..]) == Some(s[r..])
  {
    hide CloseAt, SkipDepth;
    var i := SkipSpaces(s, i0);
    if i >= |s| {
      return -1;
    }
    ghost var from := s[i..];
    assert from[0] == s[i] && from[1..] == s[i + 1..];
    if s[i] == '"' {
      r := SkipString(s, i);
      if r >= 0 {
        assert s[i + 1..][r - i - 2 + 1..] == s[r..];
      }
      return;
    }
    if s[i] == '[' || s[i] == '{' {
      r := SkipBracketsAt(s, i);
      return;
    }
    while i < |s| && !EndsBare(s[i])
      invariant i0 <= i <= |s| && SkipBare(from) == SkipBare(s[i..])
    {
      assert s[i..][0] == s[i] && s[i..][1..] == s[i + 1..];
      i := i + 1;
    }
    assert i < |s| ==> s[i..][0] == s[i];
    return i;
  }

  /** `ParseFloat32s`: the coordinates read, if there are exactly `n`. */
  method ParseFloat32s(text: string, n: nat, fits: string -> bool) returns (r: Option<seq<string>>)
    requires n > 0
    ensures r == ParseFloats(text, n, fits)
  {
    hide NumberLength, ParseItems, SkipWs, Prefixed;
    var i := SkipSpaces(text, 0);
    assert text[0..] == text;
    if i >= |text| || text[i] != '[' {
      return None;
    }
    assert text[i..][0] == text[i] && text[i..][1..] == text[i + 1..];
    i := i + 1;
    var dst: seq<string> := [];
    ghost var whole := ParseItems(text[i..], n, fits);
    PrefixedNothing(whole);
    for k := 0 to n
      invariant i <= |text| && |dst| == k
      invariant k < n ==> whole == Prefixed(dst, ParseItems(text[i..], n - k, fits))
      invariant k == n ==> (i < |text| ==> !IsSpace(text[i])) && whole == if i < |text| && text[i] == ']' then Some(dst) else None
    {
      ghost var left := text[i..];
      ItemsStep(left, n - k, fits, dst);
      i := SkipSpaces(text, i);
      var m := NumberLength(text[i..]);
      if m.None? || !fits(text[i..][..m.value]) {
        return None;
      }
      var tok := text[i..][..m.value];
      assert text[i..][m.value..] == text[i + m.value..];
      i := SkipSpaces(text, i + m.value);
      if i >= |text| {
        return None;
      }
      assert text[i..][0] == text[i] && text[i..][1..] == text[i + 1..];
      dst := dst + [tok];
      if k < n - 1 {
        if text[i] != ',' {
          return None;
        }
        i := i + 1;
      }
    }
    ghost var before := i;
    i := SkipSpaces(text, i);
    StaysPut(text[before..]);
    assert before < |text| ==> text[before..][0] == text[before];
    assert i == before by {
      assert |text[i..]| == |text[before..]|;
    }
    return if i < |text| && text[i] == ']' then Some(dst) else None;
  }

  lemma StaysPut(s: string)
    ensures s == "" || !IsSpace(s[0]) ==> SkipWs(s) == s
  {
  }

  lemma PrefixedNothing(ts: Option<seq<string>>)
    ensures Prefixed([], ts) == ts
  {
    assert ts.Some? ==> [] + ts.value == ts.value;
  }

  /** One round of the loop: a number, then a comma or the closing bracket. */
  lemma ItemsStep(s0: string, n: nat, fits: string -> bool, done: seq<string>)
    requires n > 0
    ensures var s := SkipWs(s0);
      var m := NumberLength(s);
      Prefixed(done, ParseItems(s0, n, fits)) ==
        if m.None? || !fits(s[..m.value]) then None
        else
          var t := SkipWs(s[m.value..]);
          if t == "" then None
          else if n == 1 then (if t[0] == ']' then Some(done + [s[..m.value]]) else None)
          else if t[0] != ',' then None
          else Prefixed(done + [s[..m.value]], ParseItems(t[1..], n - 1, fits))
  {
    hide NumberLength, SkipWs;
    var s := SkipWs(s0);
    var m := NumberLength(s);
    if m.Some? {
      var t := SkipWs(s[m.value..]);
      if n > 1 && t != "" && ParseItems(t[1..], n - 1, fits).Some? {
        var rest := ParseItems(t[1..], n - 1, fits).value;
        assert done + ([s[..m.value]] + rest) == done + [s[..m.value]] + rest;
      }
    }
  }

  ghost function Prefixed(done: seq<string>, rest: Option<seq<string>>): Option<seq<string>> {
    match rest
    case None => None
    case Some(ts) => Some(done + ts)
  }

  /** White space and commas from an index on. */
  method SkipSeparators(s: string, i0: nat) returns (i: nat)
    requires i0 <= |s|
    ensures i0 <= i <= |s| && s[i..] == SkipWsCommas(s[i0..])
  {
    i := i0;
    while i < |s| && (IsSpace(s[i]) || s[i] == ',')
      invariant i0 <= i <= |s| && SkipWsCommas(s[i..]) == SkipWsCommas(s[i0..])
    {
      assert s[i..][1..] == s[i + 1..];
      i := i + 1;
    }
    assert i < |s| ==> s[i..][0] == s[i];
  }

  /** `objectMember`: the index where the member's value starts, or -1. */
  method FindMemberAt(text: string, key: string) returns (r: int)
    ensures r < 0 ==> ObjectMember(text, key).None?
    ensures r >= 0 ==> r <= |text| && ObjectMember(text, key) == Some(text[r..])
  {
    hide CloseAt, SkipValue, SkipWs, SkipWsCommas;
    var i := SkipSpaces(text, 0);
    assert text[0..] == text;
    if i >= |text| || text[i] != '{' {
      return -1;
    }
    assert text[i..][0] == text[i] && text[i..][1..] == text[i + 1..];
    i := i + 1;
    while true
      invariant 0 < i <= |text| && ObjectMember(text, key) == FindMember(text[i..], key)
      decreases |text| - i
    {
      i := SkipSeparators(text, i);
      if i >= |text| || text[i] != '"' {
        return -1;
      }
      assert text[i..][0] == text[i] && text[i..][1..] == text[i + 1..];
      var end := SkipString(text, i);
      if end < 0 {
        return -1;
      }
      var name := text[i + 1..end - 1];
      assert name == text[i + 1..][..end - i - 2];
      assert text[i + 1..][end - i - 1..] == text[end..];
      i := SkipSpaces(text, end);
      if i >= |text| || text[i] != ':' {
        return -1;
      }
      assert text[i..][0] == text[i] && text[i..][1..] == text[i + 1..];
      i := SkipSpaces(text, i + 1);
      if name == key {
        return i;
      }
      var next := SkipValueAt(text, i);
      if next < 0 {
        return -1;
      }
      i := next;
    }
  }

  /** `StoredVector`. */
  method ReadStoredVector(props: string, key: string, n: nat, fits: string -> bool) returns (r: Option<seq<string>>)
    requires n > 0
    ensures r == StoredVector(props, key, n, fits)
  {
    hide ObjectMember, ParseFloats;
    var at := FindMemberAt(props, key);
    if at < 0 {
      return None;
    }
    var val := props[at..];
    if val != "" && val[0] == '{' {
      var c := FindMemberAt(val, "c");
      if c < 0 {
        return None;
      }
      val := val[c..];
    }
    r := ParseFloat32s(val, n, fits);
  }
}
