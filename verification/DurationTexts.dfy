/** What a duration text means: the texts that are accepted, and the months, days and seconds they stand for. */
module DurationTexts {
  import opened Seqs
  import opened Decimals
  import opened Calendar
  import opened Between
  import opened Durations

  // ------------------------------------------------------- written amounts

  /** One number with its unit: `-1.5W`; without a fraction the separator is not written. */
  datatype Amount = Amount(sign: string, whole: string, sep: char, frac: string, unit: char)

  predicate WellWritten(a: Amount) {
    && (a.sign == "" || a.sign == "-" || a.sign == "+")
    && a.whole != "" && AllDigits(a.whole) && AllDigits(a.frac) && (a.sep == '.' || a.sep == ',')
    && IsUnit(Upper(a.unit))
  }

  function FractionText(a: Amount): string {
    if a.frac == "" then "" else [a.sep] + a.frac
  }

  function UnsignedText(a: Amount): string {
    a.whole + FractionText(a) + [a.unit]
  }

  function AmountText(a: Amount): string {
    a.sign + UnsignedText(a)
  }

  function Magnitude(a: Amount): real
    requires WellWritten(a)
  {
    ValueOf(a.whole) as real + ValueOf(a.frac) as real / Pow10(|a.frac|) as real
  }

  function AmountOf(a: Amount): real
    requires WellWritten(a)
  {
    if a.sign == "-" then -Magnitude(a) else Magnitude(a)
  }

  function TextOf(written: seq<Amount>): string {
    if written == [] then "" else AmountText(written[0]) + TextOf(written[1..])
  }

  /** What is written for a unit: the last amount with it, or nothing. */
  function Given(written: seq<Amount>, unit: char): real
    requires forall i :: 0 <= i < |written| ==> WellWritten(written[i])
  {
    if written == [] then 0.0
    else if Upper(written[|written| - 1].unit) == unit then AmountOf(written[|written| - 1])
    else Given(written[..|written| - 1], unit)
  }

  /** A duration in unit form, after the leading P; `mark` is the T before the time amounts. */
  datatype Written = Written(date: seq<Amount>, mark: string, time: seq<Amount>)

  predicate IsDate(c: char) {
    c == 'Y' || c == 'M' || c == 'W' || c == 'D'
  }

  predicate IsTime(c: char) {
    c == 'H' || c == 'M' || c == 'S'
  }

  predicate UnitForm(w: Written) {
    && (forall i :: 0 <= i < |w.date| ==> WellWritten(w.date[i]) && IsDate(Upper(w.date[i].unit)))
    && (forall i :: 0 <= i < |w.time| ==> WellWritten(w.time[i]) && IsTime(Upper(w.time[i].unit)))
    && (w.mark == "T" || w.mark == "t" || (w.mark == "" && w.time == []))
  }

  function BodyOf(w: Written): string {
    TextOf(w.date) + w.mark + TextOf(w.time)
  }

  function Months(w: Written): real
    requires UnitForm(w)
  {
    12.0 * Given(w.date, 'Y') + Given(w.date, 'M')
  }

  function Days(w: Written): real
    requires UnitForm(w)
  {
    7.0 * Given(w.date, 'W') + Given(w.date, 'D')
  }

  function Seconds(w: Written): real
    requires UnitForm(w)
  {
    3600.0 * Given(w.time, 'H') + 60.0 * Given(w.time, 'M') + Given(w.time, 'S')
  }

  // ------------------------------------------------------- what is meant

  /** `n` is `x` without its fraction. */
  predicate TowardZero(x: real, n: int) {
    if x >= 0.0 then n as real <= x < n as real + 1.0 else n as real - 1.0 < x <= n as real
  }

  /** The integer nearest to `x`, away from zero in the middle. */
  predicate Nearest(x: real, n: int) {
    if x >= 0.0 then n as real - 0.5 <= x < n as real + 0.5 else n as real - 0.5 < x <= n as real + 0.5
  }

  /** `n` is `x` nanoseconds rounded to the millionth and then cut to whole ones. */
  ghost predicate WholeNanos(x: real, n: int) {
    exists r: int :: CutAt(x, r, n)
  }

  predicate CutAt(x: real, millionths: int, n: int) {
    Nearest(x * 1000000.0, millionths) && TowardZero(millionths as real / 1000000.0, n)
  }

  /** The duration that so many months, days and seconds make: a fraction of a month becomes days, at
      30.436875 days a month, a fraction of a day becomes seconds, at 86400 a day. */
  ghost predicate Makes(months: real, days: real, seconds: real, d: Duration) {
    && Normal(d)
    && TowardZero(months, d.months)
    && var allDays := days + (months - d.months as real) * 30.436875;
    && TowardZero(allDays, d.days)
    && var allSeconds := seconds + (allDays - d.days as real) * 86400.0;
    && WholeNanos(allSeconds * 1000000000.0, TimeNanos(d))
  }

  lemma TruncIs(x: real, n: int)
    ensures TowardZero(x, Trunc(x))
    ensures TowardZero(x, n) <==> n == Trunc(x)
  {
  }

  lemma NearestIs(x: real, n: int)
    ensures Nearest(x, n) <==> n == Trunc(x + if x < 0.0 then -0.5 else 0.5)
  {
  }

  lemma QuoIs(r: int, n: int)
    ensures TowardZero(r as real / 1000000.0, n) <==> n == Quo(r, 1_000_000)
  {
    var x := r as real / 1000000.0;
    assert x * 1000000.0 == r as real;
    var q := Quo(r, 1_000_000);
    assert r >= 0 ==> q * 1_000_000 <= r < q * 1_000_000 + 1_000_000;
    assert r < 0 ==> q * 1_000_000 - 1_000_000 < r <= q * 1_000_000;
    assert TowardZero(x, q);
  }

  lemma WholeNanosIs(x: real, n: int)
    ensures var scaled := x * 1000000.0;
      WholeNanos(x, n) <==> n == Quo(Trunc(scaled + if scaled < 0.0 then -0.5 else 0.5), 1_000_000)
  {
    hide Nearest, TowardZero, Trunc, Quo;
    var scaled := x * 1000000.0;
    var r := Trunc(scaled + if scaled < 0.0 then -0.5 else 0.5);
    NearestIs(scaled, r);
    QuoIs(r, n);
    if WholeNanos(x, n) {
      var r' :| CutAt(x, r', n);
      NearestIs(scaled, r');
    }
    assert CutAt(x, r, n) <==> TowardZero(r as real / 1000000.0, n);
  }

  /** The seconds among the amounts read, nanoseconds included. */
  function TimeOf(p: Parts): real {
    3600.0 * p.hours + 60.0 * p.minutes + p.seconds + p.nanos / 1000000000.0
  }

  /** `Build` makes of its amounts what they mean, and fails only if that is out of range. */
  lemma BuildMakes(p: Parts, d: Duration)
    ensures Build(p) == Ok(d) <==> Makes(12.0 * p.years + p.months, 7.0 * p.weeks + p.days, TimeOf(p), d)
  {
    hide TowardZero, Trunc, Quo, WholeNanos;
    var months := p.years * 12.0 + p.months;
    var m := Trunc(months);
    TruncIs(months, d.months);
    assert 3652425.0 / 120000.0 == 30.436875;
    var allDays := p.weeks * 7.0 + p.days + (months - m as real) * 30.436875;
    var n := Trunc(allDays);
    TruncIs(allDays, d.days);
    var nanos := (allDays - n as real) * 86400000000000.0 + p.hours * 3600000000000.0 + p.minutes * 60000000000.0 + p.seconds * 1000000000.0 + p.nanos;
    assert (TimeOf(p) + (allDays - n as real) * 86400.0) * 1000000000.0 == nanos by {
      assert p.nanos / 1000000000.0 * 1000000000.0 == p.nanos;
    }
    WholeNanosIs(nanos, TimeNanos(d));
    var scaled := nanos * 1000000.0;
    var total := Quo(Trunc(scaled + if scaled < 0.0 then -0.5 else 0.5), 1_000_000);
    assert Build(p) == if Fits64(m) && Fits64(n) then DurationFromNanos(m, n, total) else Error;
    hide Build;
    FromNanosIs(m, n, total, d);
  }

  lemma FromNanosIs(months: int, days: int, nanos: int, d: Duration)
    ensures Fits64(months) && Fits64(days) && DurationFromNanos(months, days, nanos) == Ok(d)
      <==> Normal(d) && d.months == months && d.days == days && TimeNanos(d) == nanos
  {
    if Normal(d) && TimeNanos(d) == nanos {
      DivUnique(nanos, NS_PER_SEC, d.seconds, d.nanos);
    }
  }

  // ------------------------------------------------------- reading a text

  lemma UnitNoDigit(c: char)
    requires IsUnit(Upper(c))
    ensures !IsDigit(c) && c != '.' && c != ',' && c != '-' && c != '+'
  {
  }

  lemma Digits(s: string, n: nat, rest: string)
    requires AllDigits(s) && (rest != "" ==> !IsDigit(rest[0])) && n == |s|
    ensures DigitRun(s + rest) == n && (s + rest)[..n] == s && (s + rest)[n..] == rest
  {
    RunOf(s, rest);
  }

  lemma ScanNoFraction(u: string, n: nat)
    requires 0 < n < |u| && DigitRun(u) == n && u[n] != '.' && u[n] != ',' && IsUnit(Upper(u[n]))
    ensures AllDigits(u[..n]) && ScanUnsigned(u) == Some(Token(ValueOf(u[..n]) as real, Upper(u[n]), n + 1))
  {
    hide ValueOf, DigitRun, Upper, Fraction;
  }

  lemma ScanWithFraction(u: string, n: nat, m: nat)
    requires n > 0 && m > 0 && n + 1 + m < |u| && (u[n] == '.' || u[n] == ',') && IsUnit(Upper(u[n + 1 + m]))
    requires DigitRun(u) == n && DigitRun(u[n + 1..]) == m
    ensures AllDigits(u[..n]) && AllDigits(u[n + 1..][..m])
    ensures ScanUnsigned(u) == Some(Token(ValueOf(u[..n]) as real + Fraction(u[n + 1..][..m]), Upper(u[n + 1 + m]), n + m + 2))
  {
    hide ValueOf, DigitRun, Upper, Fraction;
  }

  lemma ScanWhole0(a: Amount, rest: string)
    requires WellWritten(a) && a.frac == ""
    ensures ScanUnsigned(UnsignedText(a) + rest) == Some(Token(ValueOf(a.whole) as real, Upper(a.unit), |UnsignedText(a)|))
  {
    hide ScanUnsigned, ValueOf, DigitRun, Upper;
    var u, n := UnsignedText(a) + rest, |a.whole|;
    UnitNoDigit(a.unit);
    assert u == a.whole + ([a.unit] + rest);
    Digits(a.whole, n, [a.unit] + rest);
    assert u[n] == a.unit;
    ScanNoFraction(u, n);
  }

  lemma ScanFraction0(a: Amount, rest: string)
    requires WellWritten(a) && a.frac != ""
    ensures ScanUnsigned(UnsignedText(a) + rest) == Some(Token(ValueOf(a.whole) as real + Fraction(a.frac), Upper(a.unit), |UnsignedText(a)|))
  {
    hide ScanUnsigned, ValueOf, DigitRun, Upper, Fraction, IsUnit;
    var n, m := |a.whole|, |a.frac|;
    UnitNoDigit(a.unit);
    var after := [a.unit] + rest;
    var tail := [a.sep] + (a.frac + after);
    var u := a.whole + tail;
    assert UnsignedText(a) + rest == u;
    assert |UnsignedText(a)| == n + m + 2;
    hide UnsignedText;
    Digits(a.whole, n, tail);
    assert tail[0] == a.sep && tail[1..] == a.frac + after;
    assert u[n..][0] == u[n] && u[n..][1..] == u[n + 1..];
    Digits(a.frac, m, after);
    assert u[n + 1..][m..][0] == u[n + 1 + m];
    ScanWithFraction(u, n, m);
  }

  /** The scanner reads a written amount, whatever follows it. */
  lemma ScanWritten(a: Amount, rest: string)
    requires WellWritten(a)
    ensures ScanUnsigned(UnsignedText(a) + rest) == Some(Token(Magnitude(a), Upper(a.unit), |UnsignedText(a)|))
  {
    hide ScanUnsigned, ValueOf, Pow10, Upper, AllDigits;
    if a.frac == "" {
      ScanWhole0(a, rest);
      NoFraction();
    } else {
      ScanFraction0(a, rest);
    }
  }

  lemma NoFraction()
    ensures ValueOf("") as real / Pow10(0) as real == 0.0
  {
  }

  lemma ScanAmount(a: Amount, rest: string)
    requires WellWritten(a)
    ensures var s := AmountText(a) + rest;
      && s != "" && Upper(s[0]) != 'T'
      && ScanToken(s) == Some(Token(AmountOf(a), Upper(a.unit), |AmountText(a)|))
      && s[|AmountText(a)|..] == rest
  {
    hide ScanUnsigned, Magnitude, AllDigits, IsUnit;
    var u, s := UnsignedText(a) + rest, AmountText(a) + rest;
    ScanWritten(a, rest);
    StartsWithDigit(u);
    assert s == a.sign + u;
    if a.sign != "" {
      assert s[0] == a.sign[0] && s[1..] == u;
    } else {
      assert s == u;
    }
  }

  function Filled(p: Parts, written: seq<Amount>, inTime: bool): Parts
    requires forall i :: 0 <= i < |written| ==> WellWritten(written[i])
  {
    if inTime then
      p.(hours := if Has(written, 'H') then Given(written, 'H') else p.hours, minutes := if Has(written, 'M') then Given(written, 'M') else p.minutes,
         seconds := if Has(written, 'S') then Given(written, 'S') else p.seconds)
    else
      p.(years := if Has(written, 'Y') then Given(written, 'Y') else p.years, months := if Has(written, 'M') then Given(written, 'M') else p.months,
         weeks := if Has(written, 'W') then Given(written, 'W') else p.weeks, days := if Has(written, 'D') then Given(written, 'D') else p.days)
  }

  predicate Has(written: seq<Amount>, unit: char) {
    exists i :: 0 <= i < |written| && Upper(written[i].unit) == unit
  }

  lemma {:induction false} GivenFirst(a: Amount, written: seq<Amount>, unit: char)
    requires WellWritten(a) && forall i :: 0 <= i < |written| ==> WellWritten(written[i])
    ensures Given([a] + written, unit) ==
      if Has(written, unit) then Given(written, unit) else if Upper(a.unit) == unit then AmountOf(a) else 0.0
    ensures Has([a] + written, unit) <==> Upper(a.unit) == unit || Has(written, unit)
    decreases |written|
  {
    hide WellWritten, AmountOf, Upper;
    var all := [a] + written;
    assert all[0] == a;
    if written == [] {
      assert all[..0] == [];
    } else {
      var n := |written| - 1;
      assert all[..|all| - 1] == [a] + written[..n];
      GivenFirst(a, written[..n], unit);
      assert forall i :: 0 <= i < n ==> written[..n][i] == written[i];
      if i :| 0 <= i < |written| && Upper(written[i].unit) == unit {
        assert all[i + 1] == written[i];
        if i < n {
          assert written[..n][i] == written[i];
        }
      }
    }
  }

  lemma {:induction false} GivenNot(written: seq<Amount>, unit: char)
    requires (forall i :: 0 <= i < |written| ==> WellWritten(written[i])) && !Has(written, unit)
    ensures Given(written, unit) == 0.0
  {
    if written != [] {
      var n := |written| - 1;
      assert forall i :: 0 <= i < n ==> written[..n][i] == written[i];
      GivenNot(written[..n], unit);
    }
  }

  /** Amounts of the right units are read one after the other, the last of a unit winning. */
  lemma {:induction false} ParseWritten(written: seq<Amount>, rest: string, p: Parts, inTime: bool)
    requires forall i :: 0 <= i < |written| ==>
      WellWritten(written[i]) && if inTime then IsTime(Upper(written[i].unit)) else IsDate(Upper(written[i].unit))
    ensures ParseParts(TextOf(written) + rest, p, inTime) == ParseParts(rest, Filled(p, written, inTime), inTime)
    decreases |written|
  {
    hide WellWritten, ScanToken, AmountText, AmountOf, Given, Has, Upper;
    if written == [] {
      assert TextOf(written) + rest == rest;
      NothingFilled(p, inTime);
    } else {
      var a, tail := written[0], written[1..];
      assert forall i :: 0 <= i < |tail| ==> tail[i] == written[i + 1];
      var s := AmountText(a) + (TextOf(tail) + rest);
      assert TextOf(written) + rest == s;
      ScanAmount(a, TextOf(tail) + rest);
      var q := Fill(p, Token(AmountOf(a), Upper(a.unit), |AmountText(a)|), inTime);
      assert q.Some?;
      ParseWritten(tail, rest, q.value, inTime);
      assert written == [a] + tail;
      FilledFirst(p, a, tail, inTime);
    }
  }

  lemma NothingFilled(p: Parts, inTime: bool)
    ensures Filled(p, [], inTime) == p
  {
  }

  lemma FilledFirst(p: Parts, a: Amount, tail: seq<Amount>, inTime: bool)
    requires WellWritten(a) && (forall i :: 0 <= i < |tail| ==> WellWritten(tail[i]))
    requires if inTime then IsTime(Upper(a.unit)) else IsDate(Upper(a.unit))
    ensures var q := Fill(p, Token(AmountOf(a), Upper(a.unit), |AmountText(a)|), inTime);
      q.Some? && Filled(q.value, tail, inTime) == Filled(p, [a] + tail, inTime)
  {
    hide WellWritten, AmountText, AmountOf, Given, Has, Upper;
    GivenFirst(a, tail, 'Y');
    GivenFirst(a, tail, 'M');
    GivenFirst(a, tail, 'W');
    GivenFirst(a, tail, 'D');
    GivenFirst(a, tail, 'H');
    GivenFirst(a, tail, 'S');
  }

  lemma ParseMark(mark: string, rest: string, p: Parts)
    requires mark == "T" || mark == "t"
    ensures ParseParts(mark + rest, p, false) == ParseParts(rest, p, true)
  {
    assert (mark + rest)[1..] == rest;
  }

  lemma FilledParts(date: seq<Amount>, time: seq<Amount>)
    requires (forall i :: 0 <= i < |date| ==> WellWritten(date[i])) && forall i :: 0 <= i < |time| ==> WellWritten(time[i])
    ensures Filled(Filled(NoParts(), date, false), time, true) == PartsOf(date, time)
  {
    hide WellWritten, Given, Has;
    AllGiven(date);
    AllGiven(time);
  }

  function PartsOf(date: seq<Amount>, time: seq<Amount>): Parts
    requires (forall i :: 0 <= i < |date| ==> WellWritten(date[i])) && forall i :: 0 <= i < |time| ==> WellWritten(time[i])
  {
    Parts(Given(date, 'Y'), Given(date, 'M'), Given(date, 'W'), Given(date, 'D'), Given(time, 'H'), Given(time, 'M'), Given(time, 'S'), 0.0)
  }

  lemma WrittenParts(w: Written)
    requires UnitForm(w)
    ensures ParseParts(BodyOf(w), NoParts(), false) == Some(PartsOf(w.date, w.time))
  {
    hide WellWritten, ParseParts, Filled, PartsOf, TextOf, Upper;
    var rest := w.mark + TextOf(w.time);
    assert BodyOf(w) == TextOf(w.date) + rest;
    ParseWritten(w.date, rest, NoParts(), false);
    var p := Filled(NoParts(), w.date, false);
    FilledParts(w.date, w.time);
    if w.mark == "" {
      NoneGiven();
      assert rest == "";
      ParseNothing(p, false);
      NothingFilled(p, true);
    } else {
      ParseMark(w.mark, TextOf(w.time), p);
      assert TextOf(w.time) == TextOf(w.time) + "";
      ParseWritten(w.time, "", p, true);
      ParseNothing(Filled(p, w.time, true), true);
    }
  }

  lemma NoneGiven()
    ensures TextOf([]) == ""
  {
  }

  lemma AllGiven(written: seq<Amount>)
    requires forall i :: 0 <= i < |written| ==> WellWritten(written[i])
    ensures forall unit :: !Has(written, unit) ==> Given(written, unit) == 0.0
  {
    forall unit | !Has(written, unit)
      ensures Given(written, unit) == 0.0
    {
      GivenNot(written, unit);
    }
  }

  /** A text in unit form is never mistaken for the calendar form. */
  lemma NoCalendar(w: Written)
    requires UnitForm(w)
    ensures !CalendarForm(BodyOf(w))
  {
    hide CalendarForm, AmountText, TextOf, WellWritten, IsTime, IsDate, Upper;
    NoneGiven();
    if w.date == [] {
      NoDate(w.mark, TextOf(w.time));
      assert BodyOf(w) == w.mark + TextOf(w.time);
    } else {
      var a, rest := w.date[0], w.mark + TextOf(w.time);
      FirstText(w.date);
      assert BodyOf(w) == AmountText(a) + (TextOf(w.date[1..]) + rest);
      AmountNoCalendar(a, TextOf(w.date[1..]) + rest);
    }
  }

  lemma NoDate(mark: string, rest: string)
    requires mark == "T" || mark == "t" || (mark == "" && rest == "")
    ensures !CalendarForm(mark + rest)
  {
    hide CalendarForm;
    if mark == "" {
      EmptyNoCalendar();
    } else {
      assert (mark + rest)[0] == mark[0];
      NoLeadingDigit(mark + rest);
    }
  }

  lemma FirstText(written: seq<Amount>)
    requires written != []
    ensures TextOf(written) == AmountText(written[0]) + TextOf(written[1..])
  {
  }

  lemma EmptyNoCalendar()
    ensures !CalendarForm("")
  {
  }

  lemma AmountNoCalendar(a: Amount, rest: string)
    requires WellWritten(a)
    ensures !CalendarForm(AmountText(a) + rest)
  {
    hide Upper;
    var s, n := AmountText(a) + rest, |a.whole|;
    UnitNoDigit(a.unit);
    if a.sign != "" {
      assert s[0] == a.sign[0];
      NoLeadingDigit(s);
    } else {
      var tail := FractionText(a) + [a.unit] + rest;
      assert s == a.whole + tail;
      assert tail[0] == if a.frac == "" then a.unit else a.sep;
      assert s[n] == tail[0];
      assert forall i :: 0 <= i < n ==> s[i] == a.whole[i];
      if DigitsAt(s, 0, 4) {
        FourDigits(s);
        assert n > 4 ==> IsDigit(s[4]);
      }
    }
  }

  /** The unit form: the duration that its months, days and seconds make, and an error exactly if they
      make none in range. */
  lemma ParseUnitForm(p: char, w: Written, d: Duration)
    requires UnitForm(w) && Upper(p) == 'P'
    ensures Parse([p] + BodyOf(w)) == Ok(d) <==>
      BodyOf(w) != "" && BodyOf(w) != "T" && Makes(Months(w), Days(w), Seconds(w), d)
  {
    hide BodyOf, Build, CalendarForm, ParseParts, Makes, Given, WellWritten, IsDate, IsTime;
    var text := [p] + BodyOf(w);
    assert text[1..] == BodyOf(w);
    NoCalendar(w);
    WrittenParts(w);
    BuildMakes(PartsOf(w.date, w.time), d);
    LetterNoSign(p);
  }

  lemma LetterNoSign(p: char)
    requires Upper(p) == 'P'
    ensures p != '-' && p != '+'
  {
  }

  // ------------------------------------------------ nothing else is accepted

  lemma UnsignedWritten(u: string) returns (a: Amount)
    requires ScanUnsigned(u).Some?
    ensures WellWritten(a) && a.sign == "" && Upper(a.unit) == ScanUnsigned(u).value.unit
    ensures |UnsignedText(a)| == ScanUnsigned(u).value.length && u == UnsignedText(a) + u[ScanUnsigned(u).value.length..]
  {
    hide DigitRun, ValueOf, Fraction, Upper, UnsignedText;
    var n := DigitRun(u);
    var m := if n < |u| && (u[n] == '.' || u[n] == ',') then DigitRun(u[n + 1..]) else 0;
    if m > 0 {
      a := Amount("", u[..n], u[n], u[n + 1..][..m], u[n + 1 + m]);
      Taken(u, n, m);
    } else {
      a := Amount("", u[..n], '.', "", u[n]);
      TakenWhole(u, n);
    }
  }

  lemma Taken(u: string, n: nat, m: nat)
    requires 0 < m && n + m + 1 < |u|
    ensures var t := UnsignedText(Amount("", u[..n], u[n], u[n + 1..][..m], u[n + 1 + m]));
      |t| == n + m + 2 && u == t + u[n + m + 2..]
  {
    var a, b, c := u[..n], u[n..n + 1], u[n + 1..][..m];
    var k := n + 1 + m;
    assert u[..n + 1] == a + b && [u[n]] == b;
    assert u[..k] == u[..n + 1] + c by {
      assert c == u[n + 1..k];
    }
    assert u[..k + 1] == u[..k] + [u[k]];
    assert UnsignedText(Amount("", a, u[n], c, u[k])) == u[..k + 1] by {
      assert a + ([u[n]] + c) == a + b + c;
    }
  }

  lemma TakenWhole(u: string, n: nat)
    requires n < |u|
    ensures var t := UnsignedText(Amount("", u[..n], '.', "", u[n]));
      |t| == n + 1 && u == t + u[n + 1..]
  {
  }

  lemma TokenWritten(s: string) returns (a: Amount)
    requires ScanToken(s).Some?
    ensures WellWritten(a) && Upper(a.unit) == ScanToken(s).value.unit
    ensures |AmountText(a)| == ScanToken(s).value.length && s == AmountText(a) + s[ScanToken(s).value.length..]
  {
    hide ScanUnsigned, WellWritten, UnsignedText, Upper;
    if s[0] == '-' || s[0] == '+' {
      var b := UnsignedWritten(s[1..]);
      a := b.(sign := [s[0]]);
      Resigned(b, [s[0]]);
      Prefixed(s, UnsignedText(b));
    } else {
      a := UnsignedWritten(s);
      assert AmountText(a) == UnsignedText(a);
    }
  }

  lemma Prefixed(s: string, t: string)
    requires s != "" && |t| < |s| && s[1..] == t + s[1..][|t|..]
    ensures s == [s[0]] + t + s[|t| + 1..]
  {
    assert s[1..][|t|..] == s[|t| + 1..];
    assert s == [s[0]] + s[1..];
  }

  lemma Resigned(a: Amount, sign: string)
    requires WellWritten(a) && (sign == "-" || sign == "+")
    ensures WellWritten(a.(sign := sign)) && UnsignedText(a.(sign := sign)) == UnsignedText(a)
  {
  }

  lemma {:induction false} TimeWritten(s: string, p: Parts) returns (time: seq<Amount>)
    requires ParseParts(s, p, true).Some?
    ensures TextOf(time) == s && forall i :: 0 <= i < |time| ==> WellWritten(time[i]) && IsTime(Upper(time[i].unit))
    decreases |s|
  {
    hide ScanToken, WellWritten, AmountText, Upper;
    if s == "" {
      time := [];
    } else {
      var tok := ScanToken(s).value;
      var a := TokenWritten(s);
      var rest := TimeWritten(s[tok.length..], Fill(p, tok, true).value);
      time := [a] + rest;
      assert time[1..] == rest;
    }
  }

  lemma {:induction false} BodyWritten(s: string, p: Parts) returns (w: Written)
    requires ParseParts(s, p, false).Some?
    ensures UnitForm(w) && BodyOf(w) == s
    decreases |s|
  {
    hide ScanToken, WellWritten, AmountText, UnitForm, BodyOf, Upper;
    if s == "" {
      w := Written([], "", []);
      OnlyTime("", []);
    } else if Upper(s[0]) == 'T' {
      var time := TimeWritten(s[1..], p);
      w := Written([], [s[0]], time);
      IsMark(s[0]);
      OnlyTime([s[0]], time);
      assert s == [s[0]] + s[1..];
    } else {
      var tok := ScanToken(s).value;
      var a := TokenWritten(s);
      var v := BodyWritten(s[tok.length..], Fill(p, tok, false).value);
      w := v.(date := [a] + v.date);
      MoreDate(a, v);
    }
  }

  lemma IsMark(c: char)
    requires Upper(c) == 'T'
    ensures c == 'T' || c == 't'
  {
  }

  lemma OnlyTime(mark: string, time: seq<Amount>)
    requires mark == "T" || mark == "t" || (mark == "" && time == [])
    requires forall i :: 0 <= i < |time| ==> WellWritten(time[i]) && IsTime(Upper(time[i].unit))
    ensures UnitForm(Written([], mark, time)) && BodyOf(Written([], mark, time)) == mark + TextOf(time)
  {
    hide WellWritten, Upper;
    assert TextOf([]) + mark == mark;
  }

  lemma MoreDate(a: Amount, v: Written)
    requires UnitForm(v) && WellWritten(a) && IsDate(Upper(a.unit))
    ensures var w := v.(date := [a] + v.date);
      UnitForm(w) && BodyOf(w) == AmountText(a) + BodyOf(v)
  {
    hide WellWritten, Upper, AmountText, IsDate, IsTime;
    var w := v.(date := [a] + v.date);
    FirstText(w.date);
    assert w.date[1..] == v.date;
  }

  predicate SignText(sign: string) {
    sign == "" || sign == "-" || sign == "+"
  }

  /** Every text accepted is a sign, a P and either the calendar form or the unit form. */
  lemma AcceptsOnly(text: string) returns (sign: string, p: char, body: string, w: Written)
    requires Parse(text).Ok?
    ensures text == sign + [p] + body && SignText(sign) && Upper(p) == 'P'
    ensures CalendarForm(body) || (UnitForm(w) && BodyOf(w) == body)
  {
    hide CalendarForm, Build, ParseParts, UnitForm, BodyOf, Upper;
    var s := if text[0] == '-' || text[0] == '+' then text[1..] else text;
    sign, p, body, w := if text[0] == '-' || text[0] == '+' then [text[0]] else "", s[0], s[1..], Written([], "", []);
    assert text == sign + s && s == [p] + body;
    if !CalendarForm(body) {
      w := BodyWritten(body, NoParts());
    }
  }

  // ----------------------------------------------------------------- signs

  predicate Opposite(e: Duration, d: Duration) {
    e.months == -d.months && e.days == -d.days && TimeNanos(e) == -TimeNanos(d)
  }

  predicate Negatable(d: Duration) {
    d.months != MIN64 && d.days != MIN64 && !(d.seconds == MIN64 && d.nanos == 0)
  }

  lemma Unsigned(text: string)
    requires text == "" || (text[0] != '-' && text[0] != '+')
    ensures Parse("+" + text) == Parse(text)
    ensures Parse(text).Error? ==> Parse("-" + text).Error?
    ensures Parse(text).Ok? ==> Parse("-" + text) == Ok(Neg(Parse(text).value)) && Normal(Parse(text).value)
  {
    hide CalendarForm, ParseParts, Neg, Build, Upper;
    assert ("+" + text)[1..] == text && ("-" + text)[1..] == text;
    if Parse(text).Ok? {
      var d := Parse(text).value;
      var parts := if CalendarForm(text[1..]) then CalendarParts(text[1..]) else ParseParts(text[1..], NoParts(), false).value;
      BuildMakes(parts, d);
    }
  }

  /** A leading minus negates every component, unless one is the least 64-bit value; a leading plus
      changes nothing; no text carries two signs. */
  lemma ParseSigned(text: string)
    requires text == "" || (text[0] != '-' && text[0] != '+')
    ensures Parse("+" + text) == Parse(text)
    ensures Parse("-" + text).Ok? <==> Parse(text).Ok?
    ensures Parse(text).Ok? ==>
      (Opposite(Parse("-" + text).value, Parse(text).value) <==> Negatable(Parse(text).value))
  {
    hide Parse, Neg;
    Unsigned(text);
    if Parse(text).Ok? {
      NegExact(Parse(text).value);
    }
  }

  // ---------------------------------------------------------- whole amounts

  function WholeAmount(n: int, unit: char): (a: Amount)
    requires IsUnit(unit)
    ensures WellWritten(a) && a.unit == unit && AmountText(a) == Itoa(n) + [unit] && AmountOf(a) == n as real
  {
    ItoaParts(n);
    NoFraction();
    Amount(if n < 0 then "-" else "", Itoa(Abs(n)), '.', "", unit)
  }

  lemma ItoaParts(n: int)
    ensures var digits := Itoa(Abs(n));
      digits != "" && AllDigits(digits) && ValueOf(digits) == Abs(n) && Itoa(n) == (if n < 0 then "-" else "") + digits
  {
    NatDigits(Abs(n));
  }

  /** Whole amounts make themselves. */
  lemma WholeMakes(months: int, days: int, seconds: int, d: Duration)
    ensures Makes(months as real, days as real, seconds as real, d) <==> Normal(d) && d == Duration(months, days, seconds, 0)
  {
    hide WholeNanos, Normal, TowardZero;
    ZeroWhole(months, d.months);
    ZeroWhole(days, d.days);
    WholeSeconds(seconds, TimeNanos(d));
    if Normal(d) && TimeNanos(d) == seconds * NS_PER_SEC {
      SecondsOnly(d, seconds);
    }
  }

  lemma SecondsOnly(d: Duration, seconds: int)
    requires Normal(d) && TimeNanos(d) == seconds * NS_PER_SEC
    ensures d.seconds == seconds && d.nanos == 0
  {
    DivUnique(TimeNanos(d), NS_PER_SEC, d.seconds, d.nanos);
    DivUnique(TimeNanos(d), NS_PER_SEC, seconds, 0);
  }

  lemma ZeroWhole(k: int, n: int)
    ensures TowardZero(k as real, n) <==> n == k
  {
  }

  lemma WholeSeconds(seconds: int, n: int)
    ensures WholeNanos(seconds as real * 1000000000.0, n) <==> n == seconds * NS_PER_SEC
  {
    hide WholeNanos, Trunc, Quo;
    var k := seconds * NS_PER_SEC;
    assert seconds as real * 1000000000.0 == k as real;
    WholeNanosIs(k as real, n);
    RoundWhole(k);
  }

  /** What a text of whole amounts stands for; an error if a component is out of range. */
  function InRange(d: Duration): Result<Duration> {
    if Normal(d) then Ok(d) else Error
  }

  lemma ParseWhole(w: Written, months: int, days: int, seconds: int)
    requires UnitForm(w) && BodyOf(w) != "" && BodyOf(w) != "T"
    requires Months(w) == months as real && Days(w) == days as real && Seconds(w) == seconds as real
    ensures Parse("P" + BodyOf(w)) == InRange(Duration(months, days, seconds, 0))
  {
    hide Parse, BodyOf, Makes, UnitForm, Months, Days, Seconds, Normal;
    var d := Duration(months, days, seconds, 0);
    forall e: Duration
      ensures Parse("P" + BodyOf(w)) == Ok(e) <==> Normal(e) && e == d
    {
      ParseUnitForm('P', w, e);
      WholeMakes(months, days, seconds, e);
    }
    if Parse("P" + BodyOf(w)).Ok? {
      var e := Parse("P" + BodyOf(w)).value;
      assert Parse("P" + BodyOf(w)) == Ok(e);
    }
  }

  lemma GivenOne(a: Amount, unit: char)
    requires WellWritten(a)
    ensures Given([a], unit) == if Upper(a.unit) == unit then AmountOf(a) else 0.0
    ensures Given([], unit) == 0.0 && TextOf([a]) == AmountText(a) && TextOf([]) == ""
  {
    hide WellWritten, Upper, AmountOf, AmountText;
    assert [a][..0] == [] && [a][1..] == [];
  }

  /** A whole number of one calendar unit, for every number: years are 12 months, weeks 7 days. */
  lemma ParseDateUnit(n: int, unit: char)
    requires IsDate(unit)
    ensures Parse("P" + Itoa(n) + [unit]) == InRange(
      Duration(if unit == 'Y' then 12 * n else if unit == 'M' then n else 0, if unit == 'W' then 7 * n else if unit == 'D' then n else 0, 0, 0))
  {
    hide Parse, WellWritten, AmountOf, AmountText, Given, TextOf, Itoa, InRange;
    var a := WholeAmount(n, unit);
    var w := Written([a], "", []);
    GivenOne(a, 'Y');
    GivenOne(a, 'M');
    GivenOne(a, 'W');
    GivenOne(a, 'D');
    NoneGivenAt();
    assert BodyOf(w) == Itoa(n) + [unit];
    assert "P" + BodyOf(w) == "P" + Itoa(n) + [unit];
    ParseWhole(w, if unit == 'Y' then 12 * n else if unit == 'M' then n else 0, if unit == 'W' then 7 * n else if unit == 'D' then n else 0, 0);
  }

  lemma NoneGivenAt()
    ensures forall unit :: Given([], unit) == 0.0
  {
  }

  /** A whole number of one clock unit, for every number. */
  lemma ParseTimeUnit(n: int, unit: char)
    requires IsTime(unit)
    ensures Parse("PT" + Itoa(n) + [unit]) == InRange(Duration(0, 0, if unit == 'H' then 3600 * n else if unit == 'M' then 60 * n else n, 0))
  {
    hide Parse, WellWritten, AmountOf, AmountText, Given, TextOf, Itoa, InRange;
    var a := WholeAmount(n, unit);
    var w := Written([], "T", [a]);
    GivenOne(a, 'H');
    GivenOne(a, 'M');
    GivenOne(a, 'S');
    NoneGivenAt();
    assert BodyOf(w) == "T" + (Itoa(n) + [unit]);
    assert "P" + BodyOf(w) == "PT" + Itoa(n) + [unit];
    ParseWhole(w, 0, 0, if unit == 'H' then 3600 * n else if unit == 'M' then 60 * n else n);
  }

  lemma GivenFour(a: Amount, b: Amount, c: Amount, d: Amount, unit: char)
    requires WellWritten(a) && WellWritten(b) && WellWritten(c) && WellWritten(d)
    ensures Given([a, b, c, d], unit) == if Upper(d.unit) == unit then AmountOf(d) else if Upper(c.unit) == unit then AmountOf(c)
      else if Upper(b.unit) == unit then AmountOf(b) else if Upper(a.unit) == unit then AmountOf(a) else 0.0
    ensures TextOf([a, b, c, d]) == AmountText(a) + AmountText(b) + AmountText(c) + AmountText(d)
  {
    hide WellWritten, AmountOf, AmountText, Upper;
    hide Given, TextOf;
    GivenThree(a, b, c, unit);
    assert [a, b, c, d] == [a, b, c] + [d];
    GivenLast([a, b, c], d, unit);
    GivenOne(d, unit);
    TextJoins([a, b, c], [d]);
  }

  lemma GivenLast(written: seq<Amount>, a: Amount, unit: char)
    requires WellWritten(a) && forall i :: 0 <= i < |written| ==> WellWritten(written[i])
    ensures Given(written + [a], unit) == if Upper(a.unit) == unit then AmountOf(a) else Given(written, unit)
  {
    hide WellWritten, AmountOf, Upper;
    var all := written + [a];
    assert all[|all| - 1] == a && all[..|all| - 1] == written;
  }

  lemma GivenThree(a: Amount, b: Amount, c: Amount, unit: char)
    requires WellWritten(a) && WellWritten(b) && WellWritten(c)
    ensures Given([a, b, c], unit) == if Upper(c.unit) == unit then AmountOf(c) else if Upper(b.unit) == unit then AmountOf(b)
      else if Upper(a.unit) == unit then AmountOf(a) else 0.0
    ensures TextOf([a, b, c]) == AmountText(a) + AmountText(b) + AmountText(c)
  {
    hide WellWritten, AmountOf, AmountText, Upper;
    hide Given, TextOf;
    GivenOne(a, unit);
    GivenOne(b, unit);
    GivenOne(c, unit);
    assert [a, b] == [a] + [b] && [a, b, c] == [a, b] + [c];
    GivenLast([a], b, unit);
    GivenLast([a, b], c, unit);
    TextJoins([a], [b]);
    TextJoins([a, b], [c]);
  }

  lemma {:induction false} TextJoins(a: seq<Amount>, b: seq<Amount>)
    ensures TextOf(a + b) == TextOf(a) + TextOf(b)
  {
    hide AmountText, TextOf;
    if a == [] {
      assert a + b == b;
      NoneGiven();
    } else {
      TextJoins(a[1..], b);
      FirstText(a);
      FirstText(a + b);
      assert (a + b)[0] == a[0] && (a + b)[1..] == a[1..] + b;
    }
  }

  /** The whole unit form: a text is the sum of its parts. */
  lemma ParseAllUnits(years: int, months: int, weeks: int, days: int, hours: int, minutes: int, seconds: int)
    ensures Parse("P" + Itoa(years) + "Y" + Itoa(months) + "M" + Itoa(weeks) + "W" + Itoa(days) + "D"
      + "T" + Itoa(hours) + "H" + Itoa(minutes) + "M" + Itoa(seconds) + "S")
      == InRange(Duration(12 * years + months, 7 * weeks + days, 3600 * hours + 60 * minutes + seconds, 0))
  {
    hide Parse, WellWritten, AmountOf, AmountText, Given, TextOf, Itoa, InRange, BodyOf;
    var y, m, k, d := WholeAmount(years, 'Y'), WholeAmount(months, 'M'), WholeAmount(weeks, 'W'), WholeAmount(days, 'D');
    var h, n, s := WholeAmount(hours, 'H'), WholeAmount(minutes, 'M'), WholeAmount(seconds, 'S');
    var w := Written([y, m, k, d], "T", [h, n, s]);
    GivenFour(y, m, k, d, 'Y');
    GivenFour(y, m, k, d, 'M');
    GivenFour(y, m, k, d, 'W');
    GivenFour(y, m, k, d, 'D');
    GivenThree(h, n, s, 'H');
    GivenThree(h, n, s, 'M');
    GivenThree(h, n, s, 'S');
    AllUnitsText(w, Itoa(years), Itoa(months), Itoa(weeks), Itoa(days), Itoa(hours), Itoa(minutes), Itoa(seconds));
    ParseWhole(w, 12 * years + months, 7 * weeks + days, 3600 * hours + 60 * minutes + seconds);
  }

  lemma AllUnitsText(w: Written, y: string, m: string, k: string, d: string, h: string, n: string, s: string)
    requires w.mark == "T" && TextOf(w.date) == (y + ['Y']) + (m + ['M']) + (k + ['W']) + (d + ['D'])
    requires TextOf(w.time) == (h + ['H']) + (n + ['M']) + (s + ['S'])
    ensures "P" + BodyOf(w) == "P" + y + "Y" + m + "M" + k + "W" + d + "D" + "T" + h + "H" + n + "M" + s + "S"
    ensures BodyOf(w) != "" && BodyOf(w) != "T"
  {
    hide TextOf;
    assert |BodyOf(w)| >= 8;
  }

  /** A bare T is refused, a bare t is no time at all. */
  lemma BareMark()
    ensures Parse("PT") == Error && Parse("Pt") == Ok(Duration(0, 0, 0, 0))
  {
    hide Parse, Given, TextOf;
    var w := Written([], "t", []);
    NoneGivenAt();
    NoneGiven();
    assert BodyOf(w) == "t" && "P" + BodyOf(w) == "Pt";
    ParseWhole(w, 0, 0, 0);
    var v := Written([], "T", []);
    assert BodyOf(v) == "T" && ['P'] + BodyOf(v) == "PT";
    if Parse("PT").Ok? {
      ParseUnitForm('P', v, Parse("PT").value);
    }
  }

  // ---------------------------------------------------------------- fractions

  /** One amount with a fraction: a fraction of a year, a month, a week or a day cascades. */
  lemma ParseFraction(sign: string, whole: string, sep: char, frac: string, unit: char, d: Duration)
    requires IsDate(unit) && WellWritten(Amount(sign, whole, sep, frac, unit)) && frac != ""
    ensures var x := AmountOf(Amount(sign, whole, sep, frac, unit));
      Parse("P" + sign + whole + [sep] + frac + [unit]) == Ok(d) <==>
        Makes(if unit == 'Y' then 12.0 * x else if unit == 'M' then x else 0.0, if unit == 'W' then 7.0 * x else if unit == 'D' then x else 0.0, 0.0, d)
  {
    hide Parse, WellWritten, AmountOf, Given, TextOf, Makes, AmountText;
    var a := Amount(sign, whole, sep, frac, unit);
    var w := Written([a], "", []);
    GivenOne(a, 'Y');
    GivenOne(a, 'M');
    GivenOne(a, 'W');
    GivenOne(a, 'D');
    NoneGivenAt();
    FractionWritten(a);
    assert BodyOf(w) == AmountText(a);
    assert ['P'] + BodyOf(w) == "P" + sign + whole + [sep] + frac + [unit];
    ParseUnitForm('P', w, d);
  }

  lemma FractionWritten(a: Amount)
    requires a.frac != ""
    ensures AmountText(a) == a.sign + a.whole + [a.sep] + a.frac + [a.unit]
  {
  }

  lemma Digit(c: char)
    requires IsDigit(c)
    ensures AllDigits([c]) && ValueOf([c]) == DigitValue(c) && Pow10(1) == 10
  {
    assert [c][..0] == "";
  }

  /** Half a month is 15 days and 18873 seconds, half a week 3 days and 43200 seconds, half a day back
      43200 seconds back; half a year is 6 months. */
  lemma Halves()
    ensures Parse("P0.5Y") == Ok(Duration(6, 0, 0, 0))
    ensures Parse("P0.5M") == Ok(Duration(0, 15, 18873, 0))
    ensures Parse("P0,5W") == Ok(Duration(0, 3, 43200, 0))
    ensures Parse("P-0.5D") == Ok(Duration(0, 0, -43200, 0))
  {
    hide Parse, Makes, ValueOf;
    Digit('0');
    Digit('5');
    MakesHalves();
    ParseFraction("", "0", '.', "5", 'Y', Duration(6, 0, 0, 0));
    assert "P" + "" + "0" + ['.'] + "5" + ['Y'] == "P0.5Y";
    ParseFraction("", "0", '.', "5", 'M', Duration(0, 15, 18873, 0));
    assert "P" + "" + "0" + ['.'] + "5" + ['M'] == "P0.5M";
    ParseFraction("", "0", ',', "5", 'W', Duration(0, 3, 43200, 0));
    assert "P" + "" + "0" + [','] + "5" + ['W'] == "P0,5W";
    ParseFraction("-", "0", '.', "5", 'D', Duration(0, 0, -43200, 0));
    assert "P" + "-" + "0" + ['.'] + "5" + ['D'] == "P-0.5D";
  }

  lemma MakesHalves()
    ensures Makes(6.0, 0.0, 0.0, Duration(6, 0, 0, 0))
    ensures Makes(0.5, 0.0, 0.0, Duration(0, 15, 18873, 0))
    ensures Makes(0.0, 3.5, 0.0, Duration(0, 3, 43200, 0))
    ensures Makes(0.0, -0.5, 0.0, Duration(0, 0, -43200, 0))
  {
    hide WholeNanos;
    WholeSeconds(0, 0);
    WholeSeconds(18873, 18873 * NS_PER_SEC);
    WholeSeconds(43200, 43200 * NS_PER_SEC);
    WholeSeconds(-43200, -43200 * NS_PER_SEC);
  }

  // ------------------------------------------------------------ calendar form

  /** The fields of a calendar form, in unit form. */
  function FieldsOf(s: string): Written
    requires CalendarForm(s)
  {
    Written([Field(s[0..4], "", 'Y'), Field(s[5..7], "", 'M'), Field(s[8..10], "", 'D')], "T",
            [Field(s[11..13], "", 'H'), Field(s[14..16], "", 'M'), Field(s[17..19], if |s| == 19 then "" else s[20..], 'S')])
  }

  function Field(whole: string, frac: string, unit: char): Amount {
    Amount("", whole, '.', frac, unit)
  }

  lemma FieldsForm(s: string)
    requires CalendarForm(s)
    ensures UnitForm(FieldsOf(s)) && BodyOf(FieldsOf(s)) != "" && BodyOf(FieldsOf(s)) != "T"
  {
    var w := FieldsOf(s);
    if |s| > 19 {
      assert s[20..] == s[20..20 + (|s| - 20)];
    }
    BodyLong(w);
  }

  lemma BodyLong(w: Written)
    requires UnitForm(w) && w.date != []
    ensures |BodyOf(w)| >= 2
  {
  }

  lemma PlainField(whole: string, unit: char)
    requires whole != "" && AllDigits(whole) && IsUnit(unit)
    ensures WellWritten(Field(whole, "", unit)) && AmountOf(Field(whole, "", unit)) == ValueOf(whole) as real
  {
    hide ValueOf, AllDigits;
    NoFraction();
    assert Upper(unit) == unit;
    assert AllDigits("") by {
      NoDigits();
    }
  }

  lemma NoDigits()
    ensures AllDigits("")
  {
  }

  lemma FieldsMean(s: string)
    requires CalendarForm(s) && UnitForm(FieldsOf(s))
    ensures var p, w := CalendarParts(s), FieldsOf(s);
      12.0 * p.years + p.months == Months(w) && 7.0 * p.weeks + p.days == Days(w) && TimeOf(p) == Seconds(w)
  {
    hide ValueOf, CalendarForm, UnitForm, AllDigits, Given, Fraction, WellWritten, AmountOf;
    var w := FieldsOf(s);
    DateFields(s);
    TimeFields(s);
  }

  lemma DateFields(s: string)
    requires CalendarForm(s) && UnitForm(FieldsOf(s))
    ensures var p, date := CalendarParts(s), FieldsOf(s).date;
      Given(date, 'Y') == p.years && Given(date, 'M') == p.months && Given(date, 'W') == 0.0 && Given(date, 'D') == p.days
  {
    hide ValueOf, Given, Fraction, WellWritten, AmountOf, TextOf;
    PlainField(s[0..4], 'Y');
    PlainField(s[5..7], 'M');
    PlainField(s[8..10], 'D');
    var y, m, d := Field(s[0..4], "", 'Y'), Field(s[5..7], "", 'M'), Field(s[8..10], "", 'D');
    GivenThree(y, m, d, 'Y');
    GivenThree(y, m, d, 'M');
    GivenThree(y, m, d, 'W');
    GivenThree(y, m, d, 'D');
  }

  lemma SecondField(whole: string, frac: string)
    requires whole != "" && AllDigits(whole) && AllDigits(frac)
    ensures var a := Field(whole, frac, 'S');
      WellWritten(a) && AmountOf(a) == ValueOf(whole) as real + if frac == "" then 0.0 else Fraction(frac)
  {
    hide ValueOf, AllDigits, Pow10;
    NoFraction();
  }

  lemma TimeFields(s: string)
    requires CalendarForm(s) && UnitForm(FieldsOf(s))
    ensures var p, time := CalendarParts(s), FieldsOf(s).time;
      Given(time, 'H') == p.hours && Given(time, 'M') == p.minutes && Given(time, 'S') == p.seconds + p.nanos / 1000000000.0
  {
    hide ValueOf, Given, Fraction, WellWritten, AmountOf, TextOf;
    PlainField(s[11..13], 'H');
    PlainField(s[14..16], 'M');
    var frac := if |s| == 19 then "" else s[20..];
    if |s| > 19 {
      assert s[20..] == s[20..20 + (|s| - 20)];
      var f := Fraction(frac);
      assert f * 1000000000.0 / 1000000000.0 == f;
    }
    SecondField(s[17..19], frac);
    var h, m, sec := Field(s[11..13], "", 'H'), Field(s[14..16], "", 'M'), Field(s[17..19], frac, 'S');
    GivenThree(h, m, sec, 'H');
    GivenThree(h, m, sec, 'M');
    GivenThree(h, m, sec, 'S');
  }

  /** The calendar form means the unit form with the same fields. */
  lemma CalendarIsUnits(p: char, s: string)
    requires CalendarForm(s) && Upper(p) == 'P'
    ensures UnitForm(FieldsOf(s)) && Parse([p] + s) == Parse([p] + BodyOf(FieldsOf(s)))
  {
    hide Build, CalendarForm, ParseParts, Makes, UnitForm, FieldsOf, BodyOf, CalendarParts, Months, Days, Seconds, TimeOf, Upper;
    var w := FieldsOf(s);
    FieldsForm(s);
    FieldsMean(s);
    CalendarBuilds(p, s);
    var r := Build(CalendarParts(s));
    forall d: Duration
      ensures r == Ok(d) <==> Parse([p] + BodyOf(w)) == Ok(d)
    {
      BuildMakes(CalendarParts(s), d);
      ParseUnitForm(p, w, d);
    }
    SameResult(r, Parse([p] + BodyOf(w)));
  }

  lemma SameResult(a: Result<Duration>, b: Result<Duration>)
    requires forall d: Duration :: a == Ok(d) <==> b == Ok(d)
    ensures a == b
  {
    if a.Ok? {
      assert b == Ok(a.value);
    } else if b.Ok? {
      assert a == Ok(b.value);
    }
  }

  lemma CalendarBuilds(p: char, s: string)
    requires CalendarForm(s) && Upper(p) == 'P'
    ensures Parse([p] + s) == Build(CalendarParts(s))
  {
    hide Build, CalendarForm, ParseParts, CalendarParts;
    var text := [p] + s;
    assert text[0] == p && text[1..] == s;
    LetterNoSign(p);
    CalendarLong(s);
  }

  lemma CalendarLong(s: string)
    requires CalendarForm(s)
    ensures s != ""
  {
  }

  // ------------------------------------------------------------- printed text

  /** What is printed: years and months, days, and after a T hours, minutes and seconds, each with the sign
      of its own and carried into the next; seconds are left out if they are zero and something is written. */
  lemma PrintIs(d: Duration, years: int, months: int, hours: int, minutes: int, seconds: int, nanos: int)
    requires Normal(d) && d.months == 12 * years + months && -12 < months < 12 && SameSign(years, months)
    requires TimeNanos(d) == (3600 * hours + 60 * minutes + seconds) * NS_PER_SEC + nanos
    requires -60 < minutes < 60 && -60 < seconds < 60 && -NS_PER_SEC < nanos < NS_PER_SEC
    requires SameSign(hours, minutes) && SameSign(hours, seconds) && SameSign(hours, nanos)
    requires SameSign(minutes, seconds) && SameSign(minutes, nanos) && SameSign(seconds, nanos)
    ensures Print(d) == "P" + Piece(years, 'Y') + Piece(months, 'M') + Piece(d.days, 'D')
      + if d.seconds == 0 && d.nanos == 0 && (d.months != 0 || d.days != 0) then "" else
        "T" + Piece(hours, 'H') + Piece(minutes, 'M') + WrittenSeconds(seconds, nanos, hours == 0 && minutes == 0 && d.months == 0 && d.days == 0)
  {
    hide Piece, SecondsText, Quo, Rem, Normal;
    QuoSigned(d.months, 12, years, months);
    SecondsSigned(d, 3600 * hours + 60 * minutes + seconds, nanos);
    hide SignedSeconds, SignedNanos;
    QuoSigned(3600 * hours + 60 * minutes + seconds, 3600, hours, 60 * minutes + seconds);
    QuoSigned(60 * minutes + seconds, 60, minutes, seconds);
    QuoSigned(3600 * hours + 60 * minutes + seconds, 60, 60 * hours + minutes, seconds);
  }

  function WrittenSeconds(seconds: int, nanos: int, nothingElse: bool): string {
    if seconds != 0 || nanos != 0 || nothingElse then SecondsText(seconds, nanos) else ""
  }

  /** Neither of two numbers is negative while the other is positive. */
  predicate SameSign(a: int, b: int) {
    (a >= 0 && b >= 0) || (a <= 0 && b <= 0)
  }

  lemma QuoSigned(a: int, b: int, q: int, r: int)
    requires b > 0 && a == q * b + r && -b < r < b && SameSign(q, r)
    ensures Quo(a, b) == q && Rem(a, b) == r
  {
    if a >= 0 {
      SignsDown(q, b, r);
      DivUnique(a, b, q, r);
    } else {
      SignsDown(-q, b, -r);
      assert -a == -q * b + -r;
      DivUnique(-a, b, -q, -r);
    }
  }

  lemma SignsDown(q: int, b: int, r: int)
    requires b > 0 && q * b + r >= 0 && SameSign(q, r) && -b < r < b
    ensures q >= 0 && r >= 0
  {
    assert q < 0 ==> q * b <= -b;
  }

  lemma SecondsSigned(d: Duration, seconds: int, nanos: int)
    requires Normal(d) && TimeNanos(d) == seconds * NS_PER_SEC + nanos && -NS_PER_SEC < nanos < NS_PER_SEC && SameSign(seconds, nanos)
    ensures SignedSeconds(d) == seconds && SignedNanos(d) == nanos
    ensures d.seconds == 0 && d.nanos == 0 <==> seconds == 0 && nanos == 0
  {
  }

  /** Examples: a fraction is written without trailing zeros, seconds and their fraction share one sign,
      and nothing at all is PT0S. */
  lemma PrintExamples()
    ensures Print(Duration(14, 3, 3661, 500_000_000)) == "P1Y2M3DT1H1M1.5S"
    ensures Print(Duration(-14, 0, 0, 0)) == "P-1Y-2M"
    ensures Print(Duration(0, 0, -2, 500_000_000)) == "PT-1.5S"
    ensures Print(Duration(0, 0, 0, 0)) == "PT0S"
  {
    hide Print, Piece, SecondsText;
    SmallPieces();
    SmallSeconds();
    PrintIs(Duration(14, 3, 3661, 500_000_000), 1, 2, 1, 1, 1, 500_000_000);
    PrintIs(Duration(-14, 0, 0, 0), -1, -2, 0, 0, 0, 0);
    PrintIs(Duration(0, 0, -2, 500_000_000), 0, 0, 0, 0, -1, -500_000_000);
    PrintIs(Duration(0, 0, 0, 0), 0, 0, 0, 0, 0, 0);
  }

  lemma SmallSeconds()
    ensures SecondsText(1, 500_000_000) == "1.5S" && SecondsText(-1, -500_000_000) == "-1.5S" && SecondsText(0, 0) == "0S"
  {
    hide Padded, Trimmed, Itoa;
    SmallPieces();
    HalfSecond();
  }

  lemma SmallPieces()
    ensures forall unit :: Piece(0, unit) == ""
    ensures Piece(1, 'Y') == "1Y" && Piece(2, 'M') == "2M" && Piece(3, 'D') == "3D" && Piece(1, 'H') == "1H" && Piece(1, 'M') == "1M"
    ensures Piece(-1, 'Y') == "-1Y" && Piece(-2, 'M') == "-2M" && Itoa(1) == "1" && Itoa(0) == "0"
  {
  }

  lemma HalfSecond()
    ensures Trimmed(Padded(500_000_000, 9)) == "5"
  {
    hide Padded, Trimmed;
    Appended(0, 0, 5);
    Appended(5, 1, 0);
    Appended(50, 2, 0);
    Appended(500, 3, 0);
    Appended(5_000, 4, 0);
    Appended(50_000, 5, 0);
    Appended(500_000, 6, 0);
    Appended(5_000_000, 7, 0);
    Appended(50_000_000, 8, 0);
    Unpadded();
  }

  lemma Appended(n: nat, width: nat, digit: nat)
    requires digit < 10
    ensures Padded(10 * n + digit, width + 1) == Padded(n, width) + [DigitChar(digit)] && Padded(n, 0) == ""
    ensures digit == 0 ==> Trimmed(Padded(10 * n + digit, width + 1)) == Trimmed(Padded(n, width))
  {
    hide Trimmed;
    var s := Padded(10 * n + digit, width + 1);
    assert s[..|s| - 1] == Padded(n, width);
    TrimLast(s);
  }

  lemma TrimLast(s: string)
    requires s != ""
    ensures Trimmed(s) == if s[|s| - 1] == '0' then Trimmed(s[..|s| - 1]) else s
  {
  }

  lemma Unpadded()
    ensures Padded(0, 0) + [DigitChar(5)] == "5" && Trimmed("5") == "5"
  {
  }
}
