/** `duration.between` on local date-times, and adding a duration to one. */
module Between {
  import opened Seqs
  import opened Calendar

  datatype Duration = Duration(months: int, days: int, seconds: int, nanos: int)

  const MAX64: int := 0x7fff_ffff_ffff_ffff
  const MIN64: int := -0x8000_0000_0000_0000

  predicate Fits64(x: int) {
    MIN64 <= x <= MAX64
  }

  /** 64-bit two's complement. */
  function Wrap64(x: int): (w: int)
    ensures Fits64(w)
    ensures w == x <==> Fits64(x)
  {
    (x - MIN64) % 0x1_0000_0000_0000_0000 + MIN64
  }

  function TimeNanos(d: Duration): int {
    d.seconds * NS_PER_SEC + d.nanos
  }

  /** `durationFromNanos`: floor seconds and the nanoseconds left. */
  function DurationFromNanos(months: int, days: int, nanos: int): (r: Result<Duration>)
    ensures r.Ok? ==> TimeNanos(r.value) == nanos && 0 <= r.value.nanos < NS_PER_SEC
                      && r.value.months == months && r.value.days == days
  {
    var d := Duration(months, days, nanos / NS_PER_SEC, nanos % NS_PER_SEC);
    if Fits64(d.seconds) then Ok(d) else Error
  }

  /** `addBig`: the seconds are converted to a 64-bit count of nanoseconds. */
  function AddBig(t: Local, nanos: int): (r: Local)
    requires t.Valid()
    ensures r.Valid()
  {
    FromInstant(Instant(t) + Wrap64(nanos / NS_PER_SEC * NS_PER_SEC) + nanos % NS_PER_SEC)
  }

  /** `shift` on a local date-time. */
  function Shift(t: Local, d: Duration): (r: Local)
    requires t.Valid()
    ensures r.Valid()
  {
    AddBig(AddDays(AddMonths(t, d.months), d.days), TimeNanos(d))
  }

  /** Adding a time span moves the instant by exactly that span if and only if its whole seconds
      stay within 292 years; beyond, the 64-bit nanosecond count wraps. */
  lemma AddBigExact(t: Local, nanos: int)
    requires t.Valid()
    ensures Instant(AddBig(t, nanos)) == Instant(t) + nanos <==> -9_223_372_036 <= nanos / NS_PER_SEC <= 9_223_372_036
  {
  }

  // ------------------------------------------------------------------ between

  /** `b` with its date moved one day toward `a` if its clock has not reached that of `a`. */
  function AdjustEnd(a: Local, b: Local): (e: Local)
    requires a.Valid() && b.Valid()
    ensures e.Valid() && e.clock == b.clock
    ensures DayNumber(e) == DayNumber(b) +
        (if DayNumber(b) > DayNumber(a) && b.clock < a.clock then -1
         else if DayNumber(b) < DayNumber(a) && b.clock > a.clock then 1 else 0)
  {
    if DayNumber(b) > DayNumber(a) && b.clock < a.clock then AddDays(b, -1)
    else if DayNumber(b) < DayNumber(a) && b.clock > a.clock then AddDays(b, 1)
    else b
  }

  function Packed(t: Local): int {
    t.month * 32 + t.day
  }

  function WholeMonths(a: Local, b: Local): int
    requires a.Valid() && b.Valid()
  {
    Quo(Packed(AdjustEnd(a, b)) - Packed(a), 32)
  }

  function WholeDays(a: Local, b: Local): int
    requires a.Valid() && b.Valid()
  {
    DayNumber(AdjustEnd(a, b)) - DayNumber(a)
  }

  function InSeconds(a: Local, b: Local): Result<Duration>
    requires a.Valid() && b.Valid()
  {
    DurationFromNanos(0, 0, Instant(b) - Instant(a))
  }

  /** Months first, then days, then the rest. */
  function DurationBetween(a: Local, b: Local): Result<Duration>
    requires a.Valid() && b.Valid()
  {
    var months := WholeMonths(a, b);
    var mid := AddMonths(a, months);
    var days := WholeDays(mid, b);
    DurationFromNanos(months, days, Instant(b) - Instant(AddDays(mid, days)))
  }

  /** The end date lies in the month-long window that starts `WholeMonths` after `a`, judged by
      month and day of the month without clamping. */
  lemma MonthWindow(a: Local, b: Local)
    requires a.Valid() && b.Valid()
    ensures var e, k := AdjustEnd(a, b), WholeMonths(a, b);
      if DayNumber(a) <= DayNumber(b) then
        && k >= 0
        && (a.month + k < e.month || (a.month + k == e.month && a.day <= e.day))
        && (e.month < a.month + k + 1 || (e.month == a.month + k + 1 && e.day < a.day))
      else
        && k <= 0
        && (a.month + k > e.month || (a.month + k == e.month && a.day >= e.day))
        && (e.month > a.month + k - 1 || (e.month == a.month + k - 1 && e.day > a.day))
  {
    hide DayNumber;
    var e := AdjustEnd(a, b);
    DayOrder(a, e);
    DayOrder(e, a);
    LengthAtMost31(a);
    LengthAtMost31(e);
  }

  lemma LengthAtMost31(t: Local)
    requires t.Valid()
    ensures 1 <= t.day <= 31
  {
  }

  /** Moving by the whole months stops between the two dates, clamping included. */
  lemma MidInside(a: Local, b: Local)
    requires a.Valid() && b.Valid()
    ensures var e, mid := AdjustEnd(a, b), AddMonths(a, WholeMonths(a, b));
      if DayNumber(a) <= DayNumber(b) then DayNumber(a) <= DayNumber(mid) <= DayNumber(e)
      else DayNumber(e) <= DayNumber(mid) <= DayNumber(a)
  {
    hide DayNumber, WholeMonths;
    var e, mid := AdjustEnd(a, b), AddMonths(a, WholeMonths(a, b));
    MonthWindow(a, b);
    DayOrder(a, mid);
    DayOrder(mid, a);
    DayOrder(mid, e);
    DayOrder(e, mid);
  }

  /** Nothing is lost to the signs: the rest after whole days is less than a day, and lies on
      the same side. */
  lemma RestUnderDay(mid: Local, b: Local)
    requires mid.Valid() && b.Valid()
    ensures var days := WholeDays(mid, b);
      var rest := Instant(b) - Instant(AddDays(mid, days));
      && -NS_PER_DAY < rest < NS_PER_DAY
      && (DayNumber(mid) < DayNumber(b) ==> days >= 0 && rest >= 0)
      && (DayNumber(mid) > DayNumber(b) ==> days <= 0 && rest <= 0)
      && (DayNumber(mid) == DayNumber(b) ==> days == 0 && rest == b.clock - mid.clock)
  {
    hide DayNumber, Instant, MonthLen, AddDays;
    var m := AddDays(mid, WholeDays(mid, b));
    RestIs(m, b);
    if DayNumber(b) > DayNumber(mid) && b.clock < mid.clock {
      assert DayNumber(b) - DayNumber(m) == 1;
    } else if DayNumber(b) < DayNumber(mid) && b.clock > mid.clock {
      assert DayNumber(b) - DayNumber(m) == -1;
    } else {
      assert DayNumber(b) - DayNumber(m) == 0;
    }
  }

  lemma RestIs(a: Local, b: Local)
    ensures Instant(b) - Instant(a) == (DayNumber(b) - DayNumber(a)) * NS_PER_DAY + (b.clock - a.clock)
  {
  }

  lemma InstantOrder(a: Local, b: Local)
    requires a.Valid() && b.Valid()
    ensures DayNumber(a) < DayNumber(b) ==> Instant(a) < Instant(b)
    ensures DayNumber(a) == DayNumber(b) ==> Instant(b) - Instant(a) == b.clock - a.clock
  {
    hide DayNumber;
    RestIs(a, b);
  }

  predicate NeverOpposite(d: Duration) {
    (d.months >= 0 && d.days >= 0 && TimeNanos(d) >= 0) || (d.months <= 0 && d.days <= 0 && TimeNanos(d) <= 0)
  }

  /** The components of `duration.between` never have opposite signs, and point from `a` to `b`. */
  lemma BetweenSigns(a: Local, b: Local)
    requires a.Valid() && b.Valid()
    ensures DurationBetween(a, b).Ok?
    ensures var d := DurationBetween(a, b).value;
      && NeverOpposite(d)
      && -NS_PER_DAY < TimeNanos(d) < NS_PER_DAY
      && (Instant(a) < Instant(b) ==> d.months >= 0 && d.days >= 0 && TimeNanos(d) >= 0)
      && (Instant(b) < Instant(a) ==> d.months <= 0 && d.days <= 0 && TimeNanos(d) <= 0)
  {
    hide DayNumber, WholeMonths, WholeDays, Instant;
    var mid := AddMonths(a, WholeMonths(a, b));
    MonthWindow(a, b);
    MidInside(a, b);
    RestUnderDay(mid, b);
    InstantOrder(a, b);
    InstantOrder(b, a);
    var rest := Instant(b) - Instant(AddDays(mid, WholeDays(mid, b)));
    assert Fits64(rest / NS_PER_SEC);
    if DayNumber(a) == DayNumber(b) {
      SameDay(a, b);
    }
  }

  lemma SameDay(a: Local, b: Local)
    requires a.Valid() && b.Valid() && DayNumber(a) == DayNumber(b)
    ensures WholeMonths(a, b) == 0
  {
    hide DayNumber;
    DayOrder(a, b);
    DayOrder(b, a);
    assert DayNumber(AdjustEnd(a, b)) == DayNumber(b);
    DayOrder(AdjustEnd(a, b), b);
    DayOrder(b, AdjustEnd(a, b));
  }

  /** `a` shifted by `duration.between(a, b)` is `b`, for all `a` and `b`. */
  lemma ShiftBetween(a: Local, b: Local)
    requires a.Valid() && b.Valid()
    ensures DurationBetween(a, b).Ok? && Shift(a, DurationBetween(a, b).value) == b
  {
    hide WholeMonths, WholeDays, DayNumber;
    BetweenSigns(a, b);
    var d := DurationBetween(a, b).value;
    var mid := AddDays(AddMonths(a, d.months), d.days);
    assert TimeNanos(d) == Instant(b) - Instant(mid);
    AddBigExact(mid, TimeNanos(d));
    InstantUnique(Shift(a, d), b);
  }

  /** The days left over are fewer than the longer of the two months they can span: never more
      than 30. */
  lemma DaysUnderMonth(a: Local, b: Local)
    requires a.Valid() && b.Valid() && DurationBetween(a, b).Ok?
    ensures var d := DurationBetween(a, b).value;
      var mid := a.month + d.months;
      && -30 <= d.days <= 30
      && (d.days >= 0 ==> d.days < MonthLen(mid) || d.days < MonthLen(mid + 1))
      && (d.days < 0 ==> -d.days < MonthLen(mid) || -d.days < MonthLen(mid - 1))
  {
    hide WholeMonths, MonthLen, MonthStart;
    var k := WholeMonths(a, b);
    var e, mid := AdjustEnd(a, b), AddMonths(a, k);
    MonthWindow(a, b);
    MidInside(a, b);
    MonthFollows(a.month + k);
    MonthFollows(a.month + k - 1);
    Lengths(a.month + k - 1, a.day);
    Lengths(a.month + k, a.day);
    Lengths(a.month + k + 1, a.day);
    LengthAtMost31(a);
    SameEnd(a, b);
  }

  /** Lengths of neighbouring months: after a month too short for day `d` comes one long enough. */
  lemma Lengths(month: int, d: int)
    ensures 28 <= MonthLen(month) <= 31
    ensures MonthLen(month) < d <= 31 ==> MonthLen(month + 1) == 31
  {
    var y, m := month / 12, month % 12;
    assert m < 11 ==> (month + 1) / 12 == y && (month + 1) % 12 == m + 1;
    assert m == 11 ==> (month + 1) % 12 == 0;
  }

  /** The day adjustment is the same seen from `a` and from the intermediate date, unless that
      already reached the end date. */
  lemma SameEnd(a: Local, b: Local)
    requires a.Valid() && b.Valid()
    ensures var mid := AddMonths(a, WholeMonths(a, b));
      DayNumber(AdjustEnd(mid, b)) == DayNumber(AdjustEnd(a, b))
  {
    hide WholeMonths, DayNumber;
    MidInside(a, b);
  }

  lemma ReachedSameClock(a: Local, b: Local, n: Local)
    requires a.Valid() && b.Valid() && n.Valid() && n.clock == a.clock && DayNumber(a) != DayNumber(b)
    ensures DayNumber(a) < DayNumber(b) ==> (Instant(n) <= Instant(b) <==> DayNumber(n) <= DayNumber(AdjustEnd(a, b)))
    ensures DayNumber(a) > DayNumber(b) ==> (Instant(n) >= Instant(b) <==> DayNumber(n) >= DayNumber(AdjustEnd(a, b)))
  {
    hide DayNumber, Instant, MonthLen;
    InstantOrder(n, b);
    InstantOrder(b, n);
  }

  /** The months are as many as fit, with one exception: the date reached is the last day of a
      month too short for the day of `a` (from 31 January to 28 February no month is counted,
      although adding one would land exactly there). */
  lemma MonthsGreedy(a: Local, b: Local)
    requires a.Valid() && b.Valid() && Instant(a) <= Instant(b)
    ensures var e, k := AdjustEnd(a, b), WholeMonths(a, b);
      Instant(AddMonths(a, k)) <= Instant(b)
      && (Instant(AddMonths(a, k + 1)) <= Instant(b) <==>
        e.month == a.month + k + 1 && e.day == MonthLen(e.month) && e.day < a.day)
  {
    hide DayNumber, Instant, WholeMonths, MonthLen;
    var e, k := AdjustEnd(a, b), WholeMonths(a, b);
    var mid, n := AddMonths(a, k), AddMonths(a, k + 1);
    assert e.Valid() && 1 <= e.day <= MonthLen(e.month);
    InstantOrder(b, a);
    MonthWindow(a, b);
    MidInside(a, b);
    DayOrder(n, e);
    DayOrder(n, b);
    DayOrder(a, b);
    DayOrder(b, a);
    InstantOrder(a, b);
    InstantOrder(b, n);
    InstantOrder(mid, b);
    if DayNumber(a) < DayNumber(b) {
      ReachedSameClock(a, b, n);
      ReachedSameClock(a, b, mid);
    } else {
      SameDay(a, b);
      DayOrder(e, b);
      DayOrder(b, e);
    }
  }

  /** Counting backwards there is no exception. */
  lemma MonthsGreedyBack(a: Local, b: Local)
    requires a.Valid() && b.Valid() && Instant(b) < Instant(a)
    ensures var k := WholeMonths(a, b);
      Instant(AddMonths(a, k - 1)) < Instant(b) <= Instant(AddMonths(a, k))
  {
    hide DayNumber, Instant, WholeMonths, MonthLen;
    var e, k := AdjustEnd(a, b), WholeMonths(a, b);
    var mid, n := AddMonths(a, k), AddMonths(a, k - 1);
    InstantOrder(a, b);
    InstantOrder(b, a);
    MonthWindow(a, b);
    MidInside(a, b);
    DayOrder(e, n);
    DayOrder(a, b);
    DayOrder(b, a);
    DayOrder(b, n);
    InstantOrder(n, b);
    if DayNumber(a) > DayNumber(b) {
      ReachedSameClock(a, b, n);
      ReachedSameClock(a, b, mid);
    } else {
      SameDay(a, b);
      InstantOrder(b, mid);
      DayOrder(a, mid);
      DayOrder(mid, a);
    }
  }

  /** `a` shifted by `duration.inSeconds(a, b)` is `b` only while the span stays within 292 years:
      `addBig` then no longer multiplies exactly. */
  lemma ShiftInSeconds(a: Local, b: Local)
    requires a.Valid() && b.Valid() && InSeconds(a, b).Ok?
    ensures Shift(a, InSeconds(a, b).value) == b <==> -9_223_372_036 <= InSeconds(a, b).value.seconds <= 9_223_372_036
  {
    hide DayNumber, Instant;
    var d := InSeconds(a, b).value;
    AddMonthsNone(a);
    AddBigExact(a, TimeNanos(d));
    DivUnique(TimeNanos(d), NS_PER_SEC, d.seconds, d.nanos);
    assert DayNumber(AddDays(a, 0)) == DayNumber(a);
    DayUnique(AddDays(a, 0), a);
    if Instant(Shift(a, d)) == Instant(b) {
      InstantUnique(Shift(a, d), b);
    }
  }

  lemma AddMonthsNone(a: Local)
    requires a.Valid()
    ensures AddMonths(a, 0) == a
  {
  }

  /** A concrete exception to greed: one month would fit, and none is counted. */
  lemma EndOfMonthNotCounted()
    ensures var a, b := Local(24012, 31, 0), Local(24013, 28, 0);
      a.Valid() && b.Valid() && WholeMonths(a, b) == 0 && AddMonths(a, 1) == b
  {
    assert MonthLen(24012) == 31 && MonthLen(24013) == 28;
  }

  /** When both clocks agree and the months are known, the rest is whole days. */
  lemma BetweenSameClock(a: Local, b: Local, k: int, n: int)
    requires a.Valid() && b.Valid() && a.clock == b.clock && Quo(Packed(b) - Packed(a), 32) == k
    requires DayNumber(b) - DayNumber(AddMonths(a, k)) == n
    ensures DurationBetween(a, b) == Ok(Duration(k, n, 0, 0))
  {
    hide DayNumber, Instant, Quo, MonthLen, AddMonths, AddDays, DurationFromNanos;
    assert AdjustEnd(a, b) == b;
    var mid := AddMonths(a, k);
    assert AdjustEnd(mid, b) == b;
    RestIs(AddDays(mid, n), b);
    NoRest(k, n);
  }

  lemma NoRest(k: int, n: int)
    ensures DurationFromNanos(k, n, 0) == Ok(Duration(k, n, 0, 0))
  {
  }

  /** Swapping the operands does not negate the result: from 31 January to 30 March it is one
      month and 30 days, back again minus one month and minus 28 days. */
  lemma BetweenNotAntisymmetric()
    ensures var a, b := Local(24012, 31, 0), Local(24014, 30, 0);
      && a.Valid() && b.Valid()
      && DurationBetween(a, b) == Ok(Duration(1, 30, 0, 0)) && DurationBetween(b, a) == Ok(Duration(-1, -28, 0, 0))
  {
    hide MonthStart, DurationBetween;
    var a, b := Local(24012, 31, 0), Local(24014, 30, 0);
    assert MonthLen(24012) == 31 && MonthLen(24013) == 28 && MonthLen(24014) == 31;
    MonthFollows(24012);
    MonthFollows(24013);
    assert AddMonths(a, 1) == Local(24013, 28, 0) && AddMonths(b, -1) == Local(24013, 28, 0);
    BetweenSameClock(a, b, 1, 30);
    BetweenSameClock(b, a, -1, -28);
  }
}
