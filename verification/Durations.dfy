/** ISO 8601 durations: printing one and parsing it again gives the same duration. */
module Durations {
  import opened Seqs
  import opened Decimals
  import opened Calendar
  import opened Between

  // ----------------------------------------------------------------- printing

  function Piece(n: int, unit: char): string {
    if n == 0 then "" else Itoa(n) + [unit]
  }

  /** `%09d` for `0 <= n < 1e9`. */
  function Padded(n: nat, width: nat): string {
    if width == 0 then "" else Padded(n / 10, width - 1) + [DigitChar(n % 10)]
  }

  /** `strings.TrimRight(s, "0")`. */
  function Trimmed(s: string): string {
    if s == [] || s[|s| - 1] != '0' then s else Trimmed(s[..|s| - 1])
  }

  /** The seconds and nanoseconds as written: both of one sign. */
  function SignedSeconds(d: Duration): int {
    if d.seconds < 0 && d.nanos > 0 then d.seconds + 1 else d.seconds
  }

  function SignedNanos(d: Duration): int {
    if d.seconds < 0 && d.nanos > 0 then d.nanos - NS_PER_SEC else d.nanos
  }

  function Abs(n: int): nat {
    if n < 0 then -n else n
  }

  /** The seconds component, e.g. -6.5S. */
  function SecondsText(s: int, nanos: int): string {
    (if s < 0 || nanos < 0 then "-" else "") + Itoa(Abs(s))
    + (if nanos != 0 then "." + Trimmed(Padded(Abs(nanos), 9)) else "") + "S"
  }

  function TimeText(d: Duration): string {
    var secs, nanos := SignedSeconds(d), SignedNanos(d);
    var head := Piece(Quo(secs, 3600), 'H') + Piece(Quo(Rem(secs, 3600), 60), 'M');
    var s := Rem(secs, 60);
    head + if s != 0 || nanos != 0 || (secs == 0 && d.months == 0 && d.days == 0) then SecondsText(s, nanos) else ""
  }

  /** `Duration.String` after the leading P. */
  function Body(d: Duration): string {
    Piece(Quo(d.months, 12), 'Y') + Piece(Rem(d.months, 12), 'M') + Piece(d.days, 'D')
    + if d.seconds != 0 || d.nanos != 0 || (d.months == 0 && d.days == 0) then "T" + TimeText(d) else ""
  }

  function Print(d: Duration): string {
    "P" + Body(d)
  }

  // ------------------------------------------------------------------ parsing

  /** The amounts read so far; fractions are exact. */
  datatype Parts = Parts(years: real, months: real, weeks: real, days: real, hours: real, minutes: real, seconds: real, nanos: real)

  function NoParts(): Parts {
    Parts(0.0, 0.0, 0.0, 0.0, 0.0, 0.0, 0.0, 0.0)
  }

  function DigitRun(s: string): (n: nat)
    ensures n <= |s| && AllDigits(s[..n]) && (n < |s| ==> !IsDigit(s[n]))
  {
    if s == [] || !IsDigit(s[0]) then 0
    else
      var n := 1 + DigitRun(s[1..]);
      RunIs(s, n);
      n
  }

  lemma RunIs(s: string, n: nat)
    requires s != [] && IsDigit(s[0]) && 1 <= n <= |s| && AllDigits(s[1..][..n - 1])
    ensures AllDigits(s[..n])
  {
    forall i | 0 <= i < n
      ensures IsDigit(s[..n][i])
    {
      if i > 0 {
        assert s[1..][..n - 1][i - 1] == s[i];
      }
    }
  }

  function Pow10(k: nat): (p: int)
    ensures p > 0
  {
    if k == 0 then 1 else 10 * Pow10(k - 1)
  }

  function Fraction(digits: string): real
    requires AllDigits(digits)
  {
    ValueOf(digits) as real / Pow10(|digits|) as real
  }

  /** One number with its unit at the front of the text. */
  datatype Token = Token(value: real, unit: char, length: nat)

  function Upper(c: char): char {
    if 'a' <= c <= 'z' then c - 'a' + 'A' else c
  }

  predicate IsUnit(c: char) {
    c == 'Y' || c == 'M' || c == 'W' || c == 'D' || c == 'H' || c == 'S'
  }

  /** Digits, perhaps a fraction, and the unit, in either case. */
  function ScanUnsigned(u: string): (r: Option<Token>)
    ensures r.Some? ==> 0 < r.value.length <= |u|
  {
    var n := DigitRun(u);
    if n == 0 then None
    else
      var m := if n < |u| && (u[n] == '.' || u[n] == ',') then DigitRun(u[n + 1..]) else 0;
      var value := ValueOf(u[..n]) as real + if m > 0 then Fraction(u[n + 1..][..m]) else 0.0;
      var end := if m > 0 then n + 1 + m else n;
      if end < |u| && IsUnit(Upper(u[end])) then Some(Token(value, Upper(u[end]), end + 1)) else None
  }

  /** `[+-]?\d+([.,]\d+)?[YMWDHS]`. */
  function ScanToken(s: string): (r: Option<Token>)
    ensures r.Some? ==> 0 < r.value.length <= |s|
  {
    if s != "" && s[0] == '-' then
      match ScanUnsigned(s[1..])
      case None => None
      case Some(tok) => Some(Token(-tok.value, tok.unit, tok.length + 1))
    else if s != "" && s[0] == '+' then
      match ScanUnsigned(s[1..])
      case None => None
      case Some(tok) => Some(Token(tok.value, tok.unit, tok.length + 1))
    else ScanUnsigned(s)
  }

  /** Which field a unit fills; None if it may not stand here. */
  function Fill(p: Parts, tok: Token, inTime: bool): Option<Parts> {
    if tok.unit == 'Y' && !inTime then Some(p.(years := tok.value))
    else if tok.unit == 'M' && !inTime then Some(p.(months := tok.value))
    else if tok.unit == 'W' && !inTime then Some(p.(weeks := tok.value))
    else if tok.unit == 'D' && !inTime then Some(p.(days := tok.value))
    else if tok.unit == 'H' && inTime then Some(p.(hours := tok.value))
    else if tok.unit == 'M' && inTime then Some(p.(minutes := tok.value))
    else if tok.unit == 'S' && inTime then Some(p.(seconds := tok.value))
    else None
  }

  function ParseParts(s: string, p: Parts, inTime: bool): Option<Parts>
    decreases |s|
  {
    if s == "" then Some(p)
    else if Upper(s[0]) == 'T' then (if inTime then None else ParseParts(s[1..], p, true))
    else
      match ScanToken(s)
      case None => None
      case Some(tok) =>
        match Fill(p, tok, inTime)
        case None => None
        case Some(q) => ParseParts(s[tok.length..], q, inTime)
  }

  /** The loop of `parseDuration`. */
  method ParseLoop(text: string) returns (r: Option<Parts>)
    ensures r == ParseParts(text, NoParts(), false)
  {
    var s, p, inTime := text, NoParts(), false;
    while s != ""
      invariant ParseParts(text, NoParts(), false) == ParseParts(s, p, inTime)
      decreases |s|
    {
      if Upper(s[0]) == 'T' {
        if inTime {
          return None;
        }
        inTime, s := true, s[1..];
        continue;
      }
      var tok := ScanToken(s);
      if tok.None? {
        return None;
      }
      var q := Fill(p, tok.value, inTime);
      if q.None? {
        return None;
      }
      p, s := q.value, s[tok.value.length..];
    }
    return Some(p);
  }

  /** The integer part, toward zero. */
  function Trunc(x: real): int {
    if x >= 0.0 then x.Floor else -((-x).Floor)
  }

  /** `build`: fractions cascade, and whole nanoseconds are kept after absorbing noise. */
  function Build(p: Parts): Result<Duration> {
    var months := p.years * 12.0 + p.months;
    var wholeMonths := Trunc(months);
    var days := p.weeks * 7.0 + p.days + (months - wholeMonths as real) * (3652425.0 / 120000.0);
    var wholeDays := Trunc(days);
    var nanos := (days - wholeDays as real) * 86400000000000.0 + p.hours * 3600000000000.0 + p.minutes * 60000000000.0 + p.seconds * 1000000000.0 + p.nanos;
    var scaled := nanos * 1000000.0;
    var rounded := Trunc(scaled + if scaled < 0.0 then -0.5 else 0.5);
    var total := Quo(rounded, 1_000_000);
    if Fits64(wholeMonths) && Fits64(wholeDays) then DurationFromNanos(wholeMonths, wholeDays, total) else Error
  }

  /** `Neg`, whose range error is dropped. */
  function Neg(d: Duration): Duration {
    match DurationFromNanos(Wrap64(-d.months), Wrap64(-d.days), -TimeNanos(d))
    case Ok(n) => n
    case Error => Duration(0, 0, 0, 0)
  }

  /** `parseDuration` on the unit form. */
  function ParseUnits(body: string): Result<Duration> {
    if body == "" || body == "T" then Error
    else
      match ParseParts(body, NoParts(), false)
      case None => Error
      case Some(p) => Build(p)
  }

  predicate DigitsAt(s: string, i: nat, n: nat) {
    i + n <= |s| && AllDigits(s[i..i + n])
  }

  /** P2012-02-02T14:37:21.545: fixed positions, up to nine fractional digits. */
  predicate CalendarForm(s: string) {
    && |s| >= 19 && DigitsAt(s, 0, 4) && s[4] == '-' && DigitsAt(s, 5, 2) && s[7] == '-' && DigitsAt(s, 8, 2) && s[10] == 'T'
    && DigitsAt(s, 11, 2) && s[13] == ':' && DigitsAt(s, 14, 2) && s[16] == ':' && DigitsAt(s, 17, 2)
    && (|s| == 19 || (s[19] == '.' && 20 < |s| <= 29 && DigitsAt(s, 20, |s| - 20)))
  }

  function NumberAt(s: string, i: nat, n: nat): real
    requires DigitsAt(s, i, n)
  {
    ValueOf(s[i..i + n]) as real
  }

  function CalendarParts(s: string): Parts
    requires CalendarForm(s)
  {
    Parts(NumberAt(s, 0, 4), NumberAt(s, 5, 2), 0.0, NumberAt(s, 8, 2), NumberAt(s, 11, 2), NumberAt(s, 14, 2), NumberAt(s, 17, 2),
          if |s| == 19 then 0.0 else Fraction(s[20..20 + (|s| - 20)]) * 1000000000.0)
  }

  /** `parseDuration`. */
  function Parse(text: string): Result<Duration> {
    var neg := text != "" && text[0] == '-';
    var s := if text != "" && (text[0] == '-' || text[0] == '+') then text[1..] else text;
    if |s| < 2 || Upper(s[0]) != 'P' then Error
    else
      match if CalendarForm(s[1..]) then Build(CalendarParts(s[1..])) else ParseUnits(s[1..])
      case Error => Error
      case Ok(d) => Ok(if neg then Neg(d) else d)
  }

  // --------------------------------------------------------------- round trip

  predicate Normal(d: Duration) {
    Fits64(d.months) && Fits64(d.days) && Fits64(d.seconds) && 0 <= d.nanos < NS_PER_SEC
  }

  lemma {:induction false} RunOf(digits: string, rest: string)
    requires AllDigits(digits) && (rest != "" ==> !IsDigit(rest[0]))
    ensures DigitRun(digits + rest) == |digits|
    decreases |digits|
  {
    if digits == "" {
      assert digits + rest == rest;
    } else {
      assert IsDigit(digits[0]);
      assert (digits + rest)[1..] == digits[1..] + rest;
      RunOf(digits[1..], rest);
    }
  }

  lemma ScanPlain(u: string, n: nat, unit: char)
    requires 0 < n < |u| && DigitRun(u) == n && u[n] == unit && IsUnit(unit)
    ensures AllDigits(u[..n]) && ScanUnsigned(u) == Some(Token(ValueOf(u[..n]) as real, unit, n + 1))
  {
    hide Fraction, ValueOf, DigitRun;
  }

  /** A number without a fraction, with its unit. */
  lemma ScanWhole(digits: string, unit: char, rest: string)
    requires digits != "" && AllDigits(digits) && IsUnit(unit)
    ensures ScanUnsigned(digits + [unit] + rest) == Some(Token(ValueOf(digits) as real, unit, |digits| + 1))
  {
    hide ScanUnsigned, ValueOf, DigitRun;
    var u := digits + [unit] + rest;
    assert u == digits + ([unit] + rest);
    RunOf(digits, [unit] + rest);
    assert u[..|digits|] == digits && u[|digits|] == unit;
    ScanPlain(u, |digits|, unit);
  }

  lemma FractionLayout(digits: string, frac: string, unit: char, rest: string)
    requires AllDigits(digits) && AllDigits(frac) && IsUnit(unit)
    ensures var u, n, m := digits + "." + frac + [unit] + rest, |digits|, |frac|;
      && |u| > n + 1 + m && u[..n] == digits && u[n] == '.' && u[n + 1..][..m] == frac && u[n + 1 + m] == unit
      && DigitRun(u) == n && DigitRun(u[n + 1..]) == m
  {
    hide DigitRun;
    var u := digits + "." + frac + [unit] + rest;
    var tail := "." + frac + [unit] + rest;
    var n := |digits|;
    assert u == digits + tail && tail[0] == '.';
    RunOf(digits, tail);
    var after := frac + ([unit] + rest);
    assert u[n + 1..] == after;
    assert ([unit] + rest)[0] == unit;
    RunOf(frac, [unit] + rest);
    assert after[..|frac|] == frac;
  }

  /** A number with a fraction, with its unit. */
  lemma ScanFraction(u: string, digits: string, frac: string, unit: char, n: nat, m: nat)
    requires n == |digits| > 0 && AllDigits(digits) && m == |frac| > 0 && AllDigits(frac) && IsUnit(unit)
    requires |u| > n + 1 + m && u[..n] == digits && u[n] == '.' && u[n + 1..][..m] == frac && u[n + 1 + m] == unit
    requires DigitRun(u) == n && DigitRun(u[n + 1..]) == m
    ensures ScanUnsigned(u) == Some(Token(ValueOf(digits) as real + Fraction(frac), unit, |digits| + |frac| + 2))
  {
    ScanLaidOut(u, n, m, unit);
  }

  lemma ScanLaidOut(u: string, n: nat, m: nat, unit: char)
    requires n > 0 && m > 0 && n + 1 + m < |u| && u[n] == '.' && u[n + 1 + m] == unit && IsUnit(unit)
    requires DigitRun(u) == n && DigitRun(u[n + 1..]) == m
    ensures AllDigits(u[..n]) && AllDigits(u[n + 1..][..m])
    ensures ScanUnsigned(u) == Some(Token(ValueOf(u[..n]) as real + Fraction(u[n + 1..][..m]), unit, n + m + 2))
  {
    hide Fraction, ValueOf;
  }

  /** A minus sign negates what follows; without one the text starts with a digit. */
  lemma ScanSigned(neg: bool, u: string, tok: Token)
    requires ScanUnsigned(u) == Some(tok)
    ensures var s := (if neg then "-" else "") + u;
      && s != "" && Upper(s[0]) != 'T'
      && ScanToken(s) == Some(Token(if neg then -tok.value else tok.value, tok.unit, tok.length + if neg then 1 else 0))
  {
    hide ScanUnsigned;
    StartsWithDigit(u);
    var s := (if neg then "-" else "") + u;
    if neg {
      assert s[0] == '-' && s[1..] == u;
    } else {
      assert s == u;
    }
  }

  lemma StartsWithDigit(u: string)
    requires ScanUnsigned(u).Some?
    ensures u != "" && IsDigit(u[0])
  {
  }

  lemma ScanInt(n: int, unit: char, rest: string)
    requires IsUnit(unit)
    ensures ScanToken(Itoa(n) + [unit] + rest) == Some(Token(n as real, unit, |Itoa(n)| + 1))
    ensures Upper((Itoa(n) + [unit] + rest)[0]) != 'T'
  {
    hide ScanUnsigned, ScanToken;
    var digits := Dec(Abs(n));
    DecReads(Abs(n));
    ScanWhole(digits, unit, rest);
    var tok := Token(Abs(n) as real, unit, |digits| + 1);
    ScanSigned(n < 0, digits + [unit] + rest, tok);
    assert Itoa(n) + [unit] + rest == (if n < 0 then "-" else "") + (digits + [unit] + rest);
  }

  /** One printed component is read into its field. */
  lemma ParsePiece(n: int, unit: char, rest: string, p: Parts, inTime: bool)
    requires IsUnit(unit)
    ensures ParseParts(Piece(n, unit) + rest, p, inTime) ==
      if n == 0 then ParseParts(rest, p, inTime)
      else
        match Fill(p, Token(n as real, unit, |Itoa(n)| + 1), inTime)
        case None => None
        case Some(q) => ParseParts(rest, q, inTime)
  {
    if n == 0 {
      assert Piece(n, unit) + rest == rest;
    } else {
      var s := Itoa(n) + [unit] + rest;
      ScanInt(n, unit, rest);
      assert Piece(n, unit) + rest == s;
      assert s[|Itoa(n)| + 1..] == rest;
    }
  }

  lemma {:induction false} PaddedReads(n: nat, width: nat)
    ensures |Padded(n, width)| == width && AllDigits(Padded(n, width))
    ensures n < Pow10(width) ==> ValueOf(Padded(n, width)) == n
  {
    if width > 0 {
      PaddedReads(n / 10, width - 1);
      var s := Padded(n, width);
      assert s[..|s| - 1] == Padded(n / 10, width - 1);
    }
  }

  lemma {:induction false} TrimmedReads(s: string)
    requires AllDigits(s)
    ensures AllDigits(Trimmed(s)) && Fraction(Trimmed(s)) == Fraction(s)
    ensures ValueOf(s) != 0 ==> Trimmed(s) != ""
    decreases |s|
  {
    if s != [] && s[|s| - 1] == '0' {
      var init := s[..|s| - 1];
      TrimmedReads(init);
      assert ValueOf(s) == ValueOf(init) * 10;
      assert Pow10(|s|) == 10 * Pow10(|init|);
      TenthsCancel(ValueOf(init), Pow10(|init|));
    }
  }

  lemma TenthsCancel(a: int, b: int)
    requires b > 0
    ensures (a * 10) as real / (10 * b) as real == a as real / b as real
  {
    var x := a as real / b as real;
    assert x * b as real == a as real;
    assert x * (10 * b) as real == (a * 10) as real;
  }

  /** The printed fraction stands for the nanoseconds. */
  lemma FractionReads(m: nat)
    requires 0 < m < NS_PER_SEC
    ensures var f := Trimmed(Padded(m, 9));
      f != "" && AllDigits(f) && Fraction(f) == m as real / 1000000000.0
  {
    assert Pow10(3) == 1000;
    assert Pow10(6) == 1000000;
    assert Pow10(9) == 1_000_000_000;
    PaddedReads(m, 9);
    TrimmedReads(Padded(m, 9));
  }

  lemma ScanWholeSeconds(s: int)
    ensures var t := SecondsText(s, 0);
      t != "" && Upper(t[0]) != 'T' && ScanToken(t) == Some(Token(s as real, 'S', |t|))
  {
    hide ScanUnsigned, ScanToken, Fraction, ValueOf, Padded, Trimmed;
    var t := SecondsText(s, 0);
    var digits := Dec(Abs(s));
    DecReads(Abs(s));
    assert Itoa(Abs(s)) == digits;
    var u := digits + ['S'] + "";
    ScanWhole(digits, 'S', "");
    ScanSigned(s < 0, u, Token(Abs(s) as real, 'S', |digits| + 1));
    assert t == (if s < 0 then "-" else "") + u;
  }

  lemma SecondsLayout(s: int, nanos: int)
    requires nanos != 0
    ensures SecondsText(s, nanos) == (if s < 0 || nanos < 0 then "-" else "")
      + (Itoa(Abs(s)) + "." + Trimmed(Padded(Abs(nanos), 9)) + ['S'] + "")
  {
    hide Itoa, Trimmed, Padded;
  }

  lemma ScanFractionalSeconds(u: string, digits: string, f: string)
    requires digits != "" && AllDigits(digits) && f != "" && AllDigits(f) && u == digits + "." + f + ['S'] + ""
    ensures ScanUnsigned(u) == Some(Token(ValueOf(digits) as real + Fraction(f), 'S', |digits| + |f| + 2)) && |u| == |digits| + |f| + 2
  {
    hide ScanUnsigned, Fraction, ValueOf, DigitRun;
    FractionLayout(digits, f, 'S', "");
    ScanFraction(u, digits, f, 'S', |digits|, |f|);
  }

  lemma ScanSeconds(s: int, nanos: int)
    requires -NS_PER_SEC < nanos < NS_PER_SEC && ((s >= 0 && nanos >= 0) || (s <= 0 && nanos <= 0))
    ensures var t := SecondsText(s, nanos);
      t != "" && Upper(t[0]) != 'T' && ScanToken(t) == Some(Token(s as real + nanos as real / 1000000000.0, 'S', |t|))
  {
    hide ScanUnsigned, ScanToken, Fraction, ValueOf, Padded, Trimmed, Itoa, SecondsText, AllDigits;
    if nanos == 0 {
      ScanWholeSeconds(s);
    } else {
      var digits, f := Itoa(Abs(s)), Trimmed(Padded(Abs(nanos), 9));
      var u := digits + "." + f + ['S'] + "";
      SecondsLayout(s, nanos);
      NatDigits(Abs(s));
      FractionReads(Abs(nanos));
      ScanFractionalSeconds(u, digits, f);
      ScanSigned(s < 0 || nanos < 0, u, Token(Abs(s) as real + Fraction(f), 'S', |u|));
      NegatedParts(s, nanos);
    }
  }

  lemma NatDigits(n: nat)
    ensures Itoa(n) != "" && AllDigits(Itoa(n)) && ValueOf(Itoa(n)) == n
  {
    DecReads(n);
  }

  lemma NegatedParts(s: int, nanos: int)
    requires (s >= 0 && nanos >= 0) || (s <= 0 && nanos <= 0)
    ensures var x := Abs(s) as real + Abs(nanos) as real / 1000000000.0;
      (if s < 0 || nanos < 0 then -x else x) == s as real + nanos as real / 1000000000.0
  {
  }

  lemma ParseSeconds(s: int, nanos: int, p: Parts)
    requires -NS_PER_SEC < nanos < NS_PER_SEC && ((s >= 0 && nanos >= 0) || (s <= 0 && nanos <= 0))
    ensures ParseParts(SecondsText(s, nanos), p, true) == Some(p.(seconds := s as real + nanos as real / 1000000000.0))
  {
    hide ScanToken, SecondsText;
    ScanSeconds(s, nanos);
    var t := SecondsText(s, nanos);
    assert t[|t|..] == "";
  }

  /** The amounts a duration is printed as. */
  ghost function Printed(d: Duration): Parts {
    var secs := SignedSeconds(d);
    Parts(Quo(d.months, 12) as real, Rem(d.months, 12) as real, 0.0, d.days as real,
          Quo(secs, 3600) as real, Quo(Rem(secs, 3600), 60) as real,
          Rem(secs, 60) as real + SignedNanos(d) as real / 1000000000.0, 0.0)
  }

  lemma SignsAgree(d: Duration)
    requires Normal(d)
    ensures var s, nanos := Rem(SignedSeconds(d), 60), SignedNanos(d);
      -NS_PER_SEC < nanos < NS_PER_SEC && ((s >= 0 && nanos >= 0) || (s <= 0 && nanos <= 0))
    ensures SignedSeconds(d) * NS_PER_SEC + SignedNanos(d) == TimeNanos(d)
  {
  }

  lemma ParseHours(h: int, rest: string, p: Parts)
    requires p.hours == 0.0
    ensures ParseParts(Piece(h, 'H') + rest, p, true) == ParseParts(rest, p.(hours := h as real), true)
  {
    hide ParseParts, Piece;
    ParsePiece(h, 'H', rest, p, true);
    assert h == 0 ==> p.(hours := h as real) == p;
  }

  lemma ParseMinutes(m: int, rest: string, p: Parts)
    requires p.minutes == 0.0
    ensures ParseParts(Piece(m, 'M') + rest, p, true) == ParseParts(rest, p.(minutes := m as real), true)
  {
    hide ParseParts, Piece;
    ParsePiece(m, 'M', rest, p, true);
    assert m == 0 ==> p.(minutes := m as real) == p;
  }

  lemma ParseTime(d: Duration, p: Parts)
    requires Normal(d) && p.hours == p.minutes == p.seconds == 0.0
    ensures ParseParts(TimeText(d), p, true) ==
      var q := Printed(d);
      Some(p.(hours := q.hours, minutes := q.minutes, seconds := q.seconds))
  {
    hide ParseParts, SecondsText, Quo, Rem;
    SignsAgree(d);
    var secs, nanos := SignedSeconds(d), SignedNanos(d);
    var h, m, s := Quo(secs, 3600), Quo(Rem(secs, 3600), 60), Rem(secs, 60);
    var last := if s != 0 || nanos != 0 || (secs == 0 && d.months == 0 && d.days == 0) then SecondsText(s, nanos) else "";
    assert TimeText(d) == Piece(h, 'H') + (Piece(m, 'M') + last);
    hide Piece;
    ParseHours(h, Piece(m, 'M') + last, p);
    var p1 := p.(hours := h as real);
    ParseMinutes(m, last, p1);
    var p2 := p1.(minutes := m as real);
    ParseSeconds(s, nanos, p2);
    ParseNothing(p2, true);
  }

  lemma ParseNothing(p: Parts, inTime: bool)
    ensures ParseParts("", p, inTime) == Some(p)
  {
  }

  lemma ParseBody(d: Duration)
    requires Normal(d)
    ensures ParseParts(Body(d), NoParts(), false) == Some(Printed(d))
  {
    hide ParseParts, TimeText, Quo, Rem;
    var y, m := Quo(d.months, 12), Rem(d.months, 12);
    var time := if d.seconds != 0 || d.nanos != 0 || (d.months == 0 && d.days == 0) then "T" + TimeText(d) else "";
    assert Body(d) == Piece(y, 'Y') + (Piece(m, 'M') + (Piece(d.days, 'D') + time));
    ParsePiece(y, 'Y', Piece(m, 'M') + (Piece(d.days, 'D') + time), NoParts(), false);
    var p1 := NoParts().(years := y as real);
    ParsePiece(m, 'M', Piece(d.days, 'D') + time, p1, false);
    var p2 := p1.(months := m as real);
    ParsePiece(d.days, 'D', time, p2, false);
    var p3 := p2.(days := d.days as real);
    if time != "" {
      ParseT(TimeText(d), p3);
      ParseTime(d, p3);
    } else {
      ParseNothing(p3, false);
      ZeroTime(d);
    }
  }

  lemma ParseT(rest: string, p: Parts)
    ensures ParseParts("T" + rest, p, false) == ParseParts(rest, p, true)
  {
    assert ("T" + rest)[1..] == rest;
  }

  lemma ZeroTime(d: Duration)
    requires d.seconds == 0 && d.nanos == 0
    ensures Printed(d).hours == 0.0 && Printed(d).minutes == 0.0 && Printed(d).seconds == 0.0
  {
  }

  lemma TruncWhole(n: int)
    ensures Trunc(n as real) == n
  {
  }

  /** Building from the printed amounts gives the duration back: nothing is lost to fractions. */
  lemma BuildPrinted(d: Duration)
    requires Normal(d)
    ensures Build(Printed(d)) == Ok(d)
  {
    var p := Printed(d);
    SignsAgree(d);
    var secs, nanos := SignedSeconds(d), SignedNanos(d);
    assert p.years * 12.0 + p.months == d.months as real;
    TruncWhole(d.months);
    assert p.weeks * 7.0 + p.days + (d.months as real - d.months as real) * (3652425.0 / 120000.0) == d.days as real;
    TruncWhole(d.days);
    TimeAdds(secs, nanos);
    assert p.hours * 3600000000000.0 + p.minutes * 60000000000.0 + p.seconds * 1000000000.0 == TimeNanos(d) as real;
    RoundWhole(TimeNanos(d));
    DivUnique(TimeNanos(d), NS_PER_SEC, d.seconds, d.nanos);
  }

  lemma TimeAdds(secs: int, nanos: int)
    ensures Quo(secs, 3600) as real * 3600000000000.0 + Quo(Rem(secs, 3600), 60) as real * 60000000000.0
      + (Rem(secs, 60) as real + nanos as real / 1000000000.0) * 1000000000.0 == (secs * NS_PER_SEC + nanos) as real
  {
    SecondsParts(secs);
    hide Quo, Rem;
    NanosAdd(secs, Quo(secs, 3600), Quo(Rem(secs, 3600), 60), Rem(secs, 60), nanos);
  }

  lemma SecondsParts(secs: int)
    ensures secs == Quo(secs, 3600) * 3600 + Quo(Rem(secs, 3600), 60) * 60 + Rem(secs, 60)
  {
    var h, rest := Quo(secs, 3600), Rem(secs, 3600);
    if secs >= 0 {
      MinutesLeft(secs);
    } else {
      MinutesLeft(-secs);
      assert Quo(secs, 3600) == -(-secs / 3600) && Quo(secs, 60) == -(-secs / 60);
      assert rest == -(-secs % 3600) && Quo(rest, 60) == -(-secs % 3600 / 60);
    }
  }

  lemma MinutesLeft(n: nat)
    ensures n / 60 == n / 3600 * 60 + n % 3600 / 60
    ensures n == n / 3600 * 3600 + n % 3600 / 60 * 60 + n % 60
  {
    var h, m := n / 3600, n % 3600 / 60;
    DivUnique(n, 60, h * 60 + m, n % 3600 % 60);
  }

  lemma NanosAdd(secs: int, h: int, m: int, s: int, nanos: int)
    requires secs == h * 3600 + m * 60 + s
    ensures h as real * 3600000000000.0 + m as real * 60000000000.0 + (s as real + nanos as real / 1000000000.0) * 1000000000.0
         == (secs * NS_PER_SEC + nanos) as real
  {
    var x := nanos as real / 1000000000.0;
    assert x * 1000000000.0 == nanos as real;
    assert (s as real + x) * 1000000000.0 == s as real * 1000000000.0 + nanos as real;
  }

  lemma RoundWhole(n: int)
    ensures var scaled := n as real * 1000000.0;
      Quo(Trunc(scaled + if scaled < 0.0 then -0.5 else 0.5), 1_000_000) == n
  {
    var k := n * 1_000_000;
    assert n as real * 1000000.0 == k as real;
    if n < 0 {
      assert (0.5 - k as real).Floor == -k;
    } else {
      assert (k as real + 0.5).Floor == k;
    }
  }

  /** Printed text never looks like the calendar form: four digits are followed by a digit or a unit. */
  lemma NotCalendar(d: Duration)
    requires Normal(d)
    ensures !CalendarForm(Body(d)) && Body(d) != "" && Body(d) != "T"
  {
    hide Quo, Rem, TimeText, CalendarForm, Itoa;
    var y, m := Quo(d.months, 12), Rem(d.months, 12);
    var time := if d.seconds != 0 || d.nanos != 0 || (d.months == 0 && d.days == 0) then "T" + TimeText(d) else "";
    var tail := Piece(d.days, 'D') + time;
    assert Body(d) == Piece(y, 'Y') + (Piece(m, 'M') + tail);
    if y != 0 {
      PieceFirst(y, 'Y', Piece(m, 'M') + tail);
    } else if m != 0 {
      assert Body(d) == Piece(m, 'M') + tail;
      PieceFirst(m, 'M', tail);
    } else if d.days != 0 {
      assert Body(d) == Piece(d.days, 'D') + time;
      PieceFirst(d.days, 'D', time);
    } else {
      MonthsZero(d.months);
      assert Body(d) == time;
      TimeNotEmpty(d);
      NoLeadingDigit(Body(d));
    }
  }

  lemma NoLeadingDigit(s: string)
    requires s != "" && !IsDigit(s[0])
    ensures !CalendarForm(s)
  {
    if DigitsAt(s, 0, 4) {
      FourDigits(s);
    }
  }

  lemma FourDigits(s: string)
    requires DigitsAt(s, 0, 4)
    ensures IsDigit(s[0]) && IsDigit(s[1]) && IsDigit(s[2]) && IsDigit(s[3])
  {
    assert s[0..4][0] == s[0] && s[0..4][1] == s[1] && s[0..4][2] == s[2] && s[0..4][3] == s[3];
  }

  lemma MonthsZero(months: int)
    requires Quo(months, 12) == 0 && Rem(months, 12) == 0
    ensures months == 0
  {
  }

  lemma TimeNotEmpty(d: Duration)
    requires Normal(d) && d.months == 0 && d.days == 0
    ensures TimeText(d) != ""
  {
  }

  lemma PieceFirst(n: int, unit: char, rest: string)
    requires n != 0 && IsUnit(unit)
    ensures var s := Piece(n, unit) + rest;
      !CalendarForm(s) && |s| >= 2
  {
    var s := Piece(n, unit) + rest;
    ItoaReads(n);
    var k := |Itoa(n)|;
    assert s[k] == unit;
    assert forall i :: 0 <= i < k ==> s[i] == Itoa(n)[i];
    if DigitsAt(s, 0, 4) {
      FourDigits(s);
      assert k >= 4;
      assert k > 4 ==> s[4] == Itoa(n)[4] && IsDigit(Itoa(n)[0]) && AllDigits(Itoa(n));
    }
  }

  /** For every duration in range, parsing its rendering gives the same four fields, mixed and
      negative components included. */
  lemma RoundTrip(d: Duration)
    requires Normal(d)
    ensures Parse(Print(d)) == Ok(d)
  {
    hide CalendarForm, Build, Body, ParseParts, Printed;
    NotCalendar(d);
    ParseBody(d);
    BuildPrinted(d);
    assert Print(d)[1..] == Body(d);
  }

  /** So a duration is determined by its text. */
  lemma PrintInjective(a: Duration, b: Duration)
    requires Normal(a) && Normal(b) && Print(a) == Print(b)
    ensures a == b
  {
    hide Parse, Print;
    RoundTrip(a);
    RoundTrip(b);
  }

  /** Negation is exact unless a component is the least 64-bit value. */
  lemma NegExact(d: Duration)
    requires Normal(d)
    ensures Neg(d).months == -d.months && Neg(d).days == -d.days && TimeNanos(Neg(d)) == -TimeNanos(d)
      <==> d.months != MIN64 && d.days != MIN64 && !(d.seconds == MIN64 && d.nanos == 0)
  {
    var n := -TimeNanos(d);
    if d.nanos == 0 {
      DivUnique(n, NS_PER_SEC, -d.seconds, 0);
    } else {
      DivUnique(n, NS_PER_SEC, -d.seconds - 1, NS_PER_SEC - d.nanos);
    }
  }
}
