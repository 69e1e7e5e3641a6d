/** The lexical layer of stored property text: strings with escapes as RFC 8259 has them
    in section 7, and numbers as in section 6. */
module JsonText {
  import opened Seqs
  import opened Decimals

  // ------------------------------------------------------------------ strings

  function HexDigit(n: nat): char
    requires n < 16
  {
    if n < 10 then '0' + n as char else 'a' + (n - 10) as char
  }

  predicate IsHex(c: char) {
    '0' <= c <= '9' || 'a' <= c <= 'f' || 'A' <= c <= 'F'
  }

  function HexValue(c: char): (n: nat)
    requires IsHex(c)
    ensures n < 16
  {
    if '0' <= c <= '9' then (c - '0') as nat else if 'a' <= c <= 'f' then (c - 'a') as nat + 10 else (c - 'A') as nat + 10
  }

  function Hex4(n: nat): string
    requires n < 0x1_0000
  {
    [HexDigit(n / 4096), HexDigit(n / 256 % 16), HexDigit(n / 16 % 16), HexDigit(n % 16)]
  }

  const BACKSPACE := 0x8 as char
  const FORM_FEED := 0xC as char

  /** The characters the encoder writes as four hex digits: controls, and those special in HTML
      or JavaScript. */
  predicate HexEscaped(c: char) {
    (c as int < 0x20 && c != '\n' && c != '\r' && c != '\t' && c != BACKSPACE && c != FORM_FEED) || c == '<' || c == '>' || c == '&'
    || c as int == 0x2028 || c as int == 0x2029
  }

  function EscapeChar(c: char): string {
    if c == '"' then ['\\', '"']
    else if c == '\\' then ['\\', '\\']
    else if c == '\n' then ['\\', 'n']
    else if c == '\r' then ['\\', 'r']
    else if c == '\t' then ['\\', 't']
    else if c == BACKSPACE then ['\\', 'b']
    else if c == FORM_FEED then ['\\', 'f']
    else if HexEscaped(c) then ['\\', 'u'] + Hex4(c as int)
    else [c]
  }

  function Escape(s: string): string {
    if s == "" then "" else EscapeChar(s[0]) + Escape(s[1..])
  }

  /** `json.Marshal` of a string. */
  function Quote(s: string): string {
    ['"'] + Escape(s) + ['"']
  }

  /** A `u` escape with its four digits. */
  function ReadUnit(s: string): (r: Option<nat>)
    ensures r.Some? ==> r.value < 0x1_0000
  {
    if |s| >= 6 && s[0] == '\\' && s[1] == 'u' && IsHex(s[2]) && IsHex(s[3]) && IsHex(s[4]) && IsHex(s[5]) then
      Some(HexValue(s[2]) * 4096 + HexValue(s[3]) * 256 + HexValue(s[4]) * 16 + HexValue(s[5]))
    else None
  }

  /** Half of a surrogate pair: with its other half one character, alone the replacement character. */
  function Surrogate(n: nat, next: Option<nat>): (char, nat)
    requires 0xD800 <= n < 0xE000
  {
    if n < 0xDC00 && next.Some? && 0xDC00 <= next.value < 0xE000
    then ((0x1_0000 + (n - 0xD800) * 0x400 + (next.value - 0xDC00)) as char, 12)
    else (0xFFFD as char, 6)
  }

  /** What an escape sequence stands for and how long it is. */
  function UnescapeOne(s: string): Option<(char, nat)> {
    if |s| < 2 || s[0] != '\\' then None
    else if s[1] == '"' || s[1] == '\\' || s[1] == '/' then Some((s[1], 2))
    else if s[1] == 'n' then Some(('\n', 2))
    else if s[1] == 'r' then Some(('\r', 2))
    else if s[1] == 't' then Some(('\t', 2))
    else if s[1] == 'b' then Some((BACKSPACE, 2))
    else if s[1] == 'f' then Some((FORM_FEED, 2))
    else
      match ReadUnit(s)
      case None => None
      case Some(n) => if 0xD800 <= n < 0xE000 then Some(Surrogate(n, ReadUnit(s[6..]))) else Some((n as char, 6))
  }

  /** `json.Unmarshal` of a string: a bare control character is an error. */
  function Unescape(s: string): Option<string>
    decreases |s|
  {
    if s == "" then Some("")
    else if s[0] == '\\' then
      match UnescapeOne(s)
      case None => None
      case Some((c, n)) =>
        if n > |s| then None
        else
          match Unescape(s[n..])
          case None => None
          case Some(rest) => Some([c] + rest)
    else if s[0] as int < 0x20 then None
    else
      match Unescape(s[1..])
      case None => None
      case Some(rest) => Some([s[0]] + rest)
  }

  lemma HexRound(n: nat)
    requires n < 0x1_0000
    ensures var h := Hex4(n);
      && |h| == 4 && IsHex(h[0]) && IsHex(h[1]) && IsHex(h[2]) && IsHex(h[3])
      && HexValue(h[0]) * 4096 + HexValue(h[1]) * 256 + HexValue(h[2]) * 16 + HexValue(h[3]) == n
  {
    hide HexDigit, HexValue, IsHex;
    HexPlain(n / 4096);
    HexPlain(n / 256 % 16);
    HexPlain(n / 16 % 16);
    HexPlain(n % 16);
    FourDigits(n);
  }

  lemma FourDigits(n: nat)
    ensures n == n / 4096 * 4096 + n / 256 % 16 * 256 + n / 16 % 16 * 16 + n % 16
  {
    assert n / 16 == n / 256 * 16 + n / 16 % 16;
    assert n / 256 == n / 4096 * 16 + n / 256 % 16;
  }

  lemma HexOne(c: char, rest: string)
    requires HexEscaped(c)
    ensures UnescapeOne(['\\', 'u'] + Hex4(c as int) + rest) == Some((c, 6))
  {
    HexRound(c as int);
    var h := Hex4(c as int);
    var s := ['\\', 'u'] + h + rest;
    hide Hex4, HexValue, IsHex;
    assert s[2] == h[0] && s[3] == h[1] && s[4] == h[2] && s[5] == h[3];
  }

  lemma EscapedOne(c: char, rest: string)
    requires |EscapeChar(c)| > 1
    ensures UnescapeOne(EscapeChar(c) + rest) == Some((c, |EscapeChar(c)|)) && EscapeChar(c)[0] == '\\'
  {
    if |EscapeChar(c)| == 2 {
    } else {
      HexOne(c, rest);
    }
  }

  lemma EscapedChar(c: char, rest: string)
    ensures Unescape(EscapeChar(c) + rest) ==
      match Unescape(rest) case None => None case Some(t) => Some([c] + t)
  {
    var e := EscapeChar(c);
    var s := e + rest;
    assert s[|e|..] == rest;
    if |e| > 1 {
      EscapedOne(c, rest);
      hide UnescapeOne, EscapeChar;
    }
  }

  lemma {:induction false} EscapeRound(s: string)
    ensures Unescape(Escape(s)) == Some(s)
  {
    if s != "" {
      EscapeRound(s[1..]);
      EscapedChar(s[0], Escape(s[1..]));
      assert s == [s[0]] + s[1..];
    }
  }

  /** The length of a string literal that starts at the front, up to its closing quote; a
      backslash hides the character after it. The text is what follows the opening quote. */
  function CloseAt(s: string): Option<nat>
    decreases |s|
  {
    if s == "" then None
    else if s[0] == '"' then Some(0)
    else if s[0] == '\\' then
      if |s| < 2 then None
      else
        match CloseAt(s[2..])
        case None => None
        case Some(n) => Some(n + 2)
    else
      match CloseAt(s[1..])
      case None => None
      case Some(n) => Some(n + 1)
  }

  lemma {:induction false} CloseFits(s: string)
    ensures CloseAt(s).Some? ==> CloseAt(s).value < |s| && s[CloseAt(s).value] == '"'
    decreases |s|
  {
    if s != "" && s[0] != '"' {
      if s[0] == '\\' {
        if |s| >= 2 {
          CloseFits(s[2..]);
        }
      } else {
        CloseFits(s[1..]);
      }
    }
  }

  function Shifted(close: Option<nat>, k: nat): Option<nat> {
    match close
    case None => None
    case Some(n) => Some(n + k)
  }

  /** One step of the scan for the closing quote, in terms of positions. */
  lemma CloseStep(s: string, i: nat)
    requires i < |s|
    ensures s[i] == '"' ==> CloseAt(s[i..]) == Some(0)
    ensures s[i] == '\\' && i + 2 > |s| ==> CloseAt(s[i..]) == None
    ensures s[i] == '\\' && i + 2 <= |s| ==> CloseAt(s[i..]) == Shifted(CloseAt(s[i + 2..]), 2)
    ensures s[i] != '"' && s[i] != '\\' ==> CloseAt(s[i..]) == Shifted(CloseAt(s[i + 1..]), 1)
  {
    assert s[i..][0] == s[i] && s[i..][1..] == s[i + 1..];
    assert i + 2 <= |s| ==> s[i..][2..] == s[i + 2..];
  }

  predicate Plain(c: char) {
    c != '"' && c != '\\'
  }

  lemma PlainClose(c: char, rest: string)
    requires Plain(c)
    ensures CloseAt([c] + rest) == Shifted(CloseAt(rest), 1)
  {
    assert ([c] + rest)[1..] == rest;
  }

  lemma HiddenClose(c: char, rest: string)
    ensures CloseAt(['\\', c] + rest) == Shifted(CloseAt(rest), 2)
  {
    assert (['\\', c] + rest)[2..] == rest;
  }

  lemma HexPlain(n: nat)
    requires n < 16
    ensures IsHex(HexDigit(n)) && HexValue(HexDigit(n)) == n && HexDigit(n) != '"' && HexDigit(n) != '\\'
  {
  }

  /** Six escape characters hide nothing that follows. */
  lemma HiddenSix(a: char, b: char, c: char, d: char, rest: string)
    requires Plain(a) && Plain(b) && Plain(c) && Plain(d)
    ensures CloseAt(['\\', 'u', a, b, c, d] + rest) == Shifted(CloseAt(rest), 6)
  {
    hide CloseAt;
    var r3 := [d] + rest;
    var r2 := [c] + r3;
    var r1 := [b] + r2;
    PlainClose(d, rest);
    PlainClose(c, r3);
    PlainClose(b, r2);
    PlainClose(a, r1);
    HiddenClose('u', [a] + r1);
    assert ['\\', 'u', a, b, c, d] + rest == ['\\', 'u'] + ([a] + r1);
  }

  lemma CloseChar(c: char, rest: string)
    ensures CloseAt(EscapeChar(c) + rest) == Shifted(CloseAt(rest), |EscapeChar(c)|)
  {
    hide CloseAt, HexDigit;
    var e, n := EscapeChar(c), c as int;
    if |e| == 1 {
      PlainClose(c, rest);
    } else if |e| == 2 {
      HiddenClose(e[1], rest);
      assert e + rest == ['\\', e[1]] + rest;
    } else {
      HexPlain(n / 4096);
      HexPlain(n / 256 % 16);
      HexPlain(n / 16 % 16);
      HexPlain(n % 16);
      HiddenSix(e[2], e[3], e[4], e[5], rest);
      assert e == ['\\', 'u', e[2], e[3], e[4], e[5]];
    }
  }

  lemma EscapeStep(s: string, rest: string)
    requires s != ""
    ensures Escape(s) + rest == EscapeChar(s[0]) + (Escape(s[1..]) + rest) && |Escape(s)| == |Escape(s[1..])| + |EscapeChar(s[0])|
  {
    hide EscapeChar;
  }

  /** A quoted string ends at its own closing quote, whatever it contains. */
  lemma {:induction false} QuoteCloses(s: string, rest: string)
    ensures CloseAt(Escape(s) + (['"'] + rest)) == Some(|Escape(s)|)
    decreases |s|
  {
    var tail := ['"'] + rest;
    if s == "" {
      assert Escape(s) + tail == tail;
    } else {
      hide CloseAt, EscapeChar, Escape;
      QuoteCloses(s[1..], rest);
      CloseChar(s[0], Escape(s[1..]) + tail);
      EscapeStep(s, tail);
    }
  }

  /** A string written without backslashes is written as it is. */
  lemma {:induction false} NoEscapes(s: string)
    ensures '\\' !in Escape(s) ==> Escape(s) == s
  {
    if s != "" {
      NoEscapes(s[1..]);
      assert EscapeChar(s[0])[0] == '\\' || EscapeChar(s[0]) == [s[0]];
      assert Escape(s)[0] == EscapeChar(s[0])[0];
      assert s == [s[0]] + s[1..];
    }
  }

  // ------------------------------------------------------------------ numbers

  predicate NumChar(c: char) {
    IsDigit(c) || c == '-' || c == '+' || c == '.' || c == 'e' || c == 'E'
  }

  predicate AllNum(s: string) {
    forall i :: 0 <= i < |s| ==> NumChar(s[i])
  }

  /** The maximal run of number characters, as the decoder takes it. */
  function NumRun(s: string): (n: nat)
    ensures n <= |s|
  {
    if s == "" || !NumChar(s[0]) then 0 else 1 + NumRun(s[1..])
  }

  lemma {:induction false} NumRunOf(t: string, rest: string)
    requires AllNum(t) && (rest != "" ==> !NumChar(rest[0]))
    ensures NumRun(t + rest) == |t|
    decreases |t|
  {
    if t == "" {
      assert t + rest == rest;
    } else {
      assert NumChar(t[0]);
      assert (t + rest)[1..] == t[1..] + rest;
      NumRunOf(t[1..], rest);
    }
  }

  /** Digits with at most one dot. */
  function MantissaRun(s: string, dot: bool): (n: nat)
    ensures n <= |s|
  {
    if s == "" then 0
    else if IsDigit(s[0]) then 1 + MantissaRun(s[1..], dot)
    else if s[0] == '.' && !dot then 1 + MantissaRun(s[1..], true)
    else 0
  }

  predicate HasDigit(s: string) {
    exists i :: 0 <= i < |s| && IsDigit(s[i])
  }

  function DigitsRun(s: string): (n: nat)
    ensures n <= |s|
  {
    if s == "" || !IsDigit(s[0]) then 0 else 1 + DigitsRun(s[1..])
  }

  /** The length of an exponent at the front, 0 if there is none, None if it lacks digits. */
  function ExponentLength(s: string): (r: Option<nat>)
    ensures r.Some? ==> r.value <= |s|
  {
    if s != "" && (s[0] == 'e' || s[0] == 'E') then
      var c := if 1 < |s| && (s[1] == '+' || s[1] == '-') then 2 else 1;
      var d := DigitsRun(s[c..]);
      if d == 0 then None else Some(c + d)
    else Some(0)
  }

  function UnsignedLength(s: string): (r: Option<nat>)
    ensures r.Some? ==> r.value <= |s|
  {
    var m := MantissaRun(s, false);
    if !HasDigit(s[..m]) then None
    else
      match ExponentLength(s[m..])
      case None => None
      case Some(x) => Some(m + x)
  }

  /** How much of the text `parseNumber` reads. */
  function NumberLength(s: string): (r: Option<nat>)
    ensures r.Some? ==> r.value <= |s|
  {
    if s != "" && s[0] == '-' then
      match UnsignedLength(s[1..])
      case None => None
      case Some(n) => Some(n + 1)
    else UnsignedLength(s)
  }

  /** A number as the encoder writes it. */
  predicate NumberText(t: string) {
    t != "" && AllNum(t) && (IsDigit(t[0]) || t[0] == '-') && NumberLength(t) == Some(|t|)
  }

  lemma {:induction false} MantissaLocal(t: string, rest: string, dot: bool)
    requires rest != "" ==> !NumChar(rest[0])
    ensures MantissaRun(t + rest, dot) == MantissaRun(t, dot)
    decreases |t|
  {
    if t == "" {
      assert t + rest == rest;
    } else {
      assert (t + rest)[1..] == t[1..] + rest;
      MantissaLocal(t[1..], rest, dot);
      MantissaLocal(t[1..], rest, true);
    }
  }

  lemma {:induction false} DigitsLocal(t: string, rest: string)
    requires rest != "" ==> !NumChar(rest[0])
    ensures DigitsRun(t + rest) == DigitsRun(t)
    decreases |t|
  {
    if t == "" {
      assert t + rest == rest;
    } else {
      assert (t + rest)[1..] == t[1..] + rest;
      DigitsLocal(t[1..], rest);
    }
  }

  lemma ExponentLocal(t: string, rest: string)
    requires ExponentLength(t) == Some(|t|) && (rest != "" ==> !NumChar(rest[0]))
    ensures ExponentLength(t + rest) == Some(|t|)
  {
    var s := t + rest;
    if t != "" {
      assert s[0] == t[0];
      var c := if 1 < |t| && (t[1] == '+' || t[1] == '-') then 2 else 1;
      assert 1 < |t|;
      assert s[1] == t[1];
      assert s[c..] == t[c..] + rest;
      DigitsLocal(t[c..], rest);
    }
  }

  lemma UnsignedLocal(t: string, rest: string)
    requires UnsignedLength(t) == Some(|t|) && (rest != "" ==> !NumChar(rest[0]))
    ensures UnsignedLength(t + rest) == Some(|t|)
  {
    hide ExponentLength;
    var s, m := t + rest, MantissaRun(t, false);
    MantissaLocal(t, rest, false);
    assert s[..m] == t[..m] && s[m..] == t[m..] + rest;
    ExponentLocal(t[m..], rest);
  }

  /** A number is read to its end and no further. */
  lemma NumberLocal(t: string, rest: string)
    requires NumberText(t) && (rest != "" ==> !NumChar(rest[0]))
    ensures NumberLength(t + rest) == Some(|t|)
  {
    hide UnsignedLength;
    if t[0] == '-' {
      assert (t + rest)[1..] == t[1..] + rest;
      UnsignedLocal(t[1..], rest);
    } else {
      UnsignedLocal(t, rest);
    }
  }
}
