/** When swapping the operands of `duration.between` negates the result. */
module Mirrored {
  import opened Seqs
  import opened Calendar
  import opened Between

  /** The later date's clock has not reached the earlier one's, so a day is not counted. */
  predicate Late(a: Local, b: Local) {
    DayNumber(a) < DayNumber(b) && b.clock < a.clock
  }

  function Least(x: int, y: int): int {
    if x < y then x else y
  }

  /** Read off the two dates, `a` the earlier: if no month is clamped on the way forward, the day
      of `b` must exist in the month of `a`; otherwise the days left over must come out alike. */
  predicate Mirrors(a: Local, b: Local) {
    if (if Late(a, b) then a.day < b.day else a.day <= b.day) then b.day <= MonthLen(a.month)
    else
      && (Late(a, b) && b.day == 1 ==> a.day <= MonthLen(b.month - 1))
      && MonthLen(b.month - 1) - Least(a.day, MonthLen(b.month - 1)) + b.day
      == MonthLen(a.month) - a.day + Least(b.day, MonthLen(a.month + 1))
  }

  predicate Opposite(d: Duration, e: Duration) {
    e.months == -d.months && e.days == -d.days && TimeNanos(e) == -TimeNanos(d)
  }

  lemma DayBefore(t: Local)
    requires t.Valid()
    ensures AddDays(t, -1) == if t.day > 1 then t.(day := t.day - 1) else Local(t.month - 1, MonthLen(t.month - 1), t.clock)
  {
    hide MonthStart, AddDays;
    var y := if t.day > 1 then t.(day := t.day - 1) else Local(t.month - 1, MonthLen(t.month - 1), t.clock);
    MonthFollows(t.month - 1);
    Lengths(t.month - 1, 1);
    hide MonthLen;
    DayUnique(AddDays(t, -1), y);
  }

  lemma DayAfter(t: Local)
    requires t.Valid()
    ensures AddDays(t, 1) == if t.day < MonthLen(t.month) then t.(day := t.day + 1) else Local(t.month + 1, 1, t.clock)
  {
    hide MonthStart, AddDays;
    var y := if t.day < MonthLen(t.month) then t.(day := t.day + 1) else Local(t.month + 1, 1, t.clock);
    MonthFollows(t.month);
    Lengths(t.month + 1, 1);
    hide MonthLen;
    DayUnique(AddDays(t, 1), y);
  }

  /** The three components in terms of the adjusted end. */
  lemma Components(a: Local, b: Local)
    requires a.Valid() && b.Valid()
    ensures DurationBetween(a, b).Ok?
    ensures var d, e := DurationBetween(a, b).value, AdjustEnd(a, b);
      && d.months == WholeMonths(a, b) && d.days == DayNumber(e) - DayNumber(AddMonths(a, d.months))
      && TimeNanos(d) == (DayNumber(b) - DayNumber(e)) * NS_PER_DAY + (b.clock - a.clock)
  {
    BetweenSigns(a, b);
    SameEnd(a, b);
    hide DayNumber, WholeMonths, AddMonths, AddDays, Instant, AdjustEnd, DurationFromNanos, TimeNanos, MonthLen, MonthStart;
    var mid := AddMonths(a, WholeMonths(a, b));
    RestIs(AddDays(mid, WholeDays(mid, b)), b);
  }

  /** How many months are counted each way. */
  lemma MonthsBothWays(a: Local, b: Local)
    requires a.Valid() && b.Valid() && DayNumber(a) < DayNumber(b)
    ensures var k := b.month - a.month;
      && (WholeMonths(a, b) == if Late(a, b) then
           (if a.day < b.day then k else if b.day > 1 || a.day <= MonthLen(b.month - 1) then k - 1 else k - 2)
         else if a.day <= b.day then k else k - 1)
      && -WholeMonths(b, a) == if Late(a, b) then (if a.day < b.day && a.day < MonthLen(a.month) then k else k - 1)
         else if a.day <= b.day then k else k - 1
  {
    DayOrder(a, b);
    MonthWindow(a, b);
    MonthWindow(b, a);
    DayOrder(b, a);
    Lengths(b.month - 1, a.day);
    LengthAtMost31(a);
    if Late(a, b) {
      DayBefore(b);
      DayAfter(a);
    }
    hide WholeMonths, DayNumber, MonthLen, AddDays;
  }

  /** One day is not counted, or none, whichever way the dates are compared. */
  lemma EndsBothWays(a: Local, b: Local)
    requires a.Valid() && b.Valid() && DayNumber(a) <= DayNumber(b)
    ensures var days := if Late(a, b) then 1 else 0;
      DayNumber(AdjustEnd(a, b)) == DayNumber(b) - days && DayNumber(AdjustEnd(b, a)) == DayNumber(a) + days
  {
    hide DayNumber;
  }

  lemma RestBothWays(a: Local, b: Local)
    requires a.Valid() && b.Valid() && DayNumber(a) <= DayNumber(b)
    ensures DurationBetween(a, b).Ok? && DurationBetween(b, a).Ok?
    ensures TimeNanos(DurationBetween(b, a).value) == -TimeNanos(DurationBetween(a, b).value)
  {
    hide WholeMonths, DayNumber, AddMonths, DurationBetween, AdjustEnd, TimeNanos, Late, Instant, MonthLen;
    Components(a, b);
    Components(b, a);
    EndsBothWays(a, b);
    Cancels(DayNumber(b) - DayNumber(AdjustEnd(a, b)), DayNumber(a) - DayNumber(AdjustEnd(b, a)), b.clock - a.clock);
  }

  lemma Cancels(x: int, y: int, c: int)
    requires y == -x
    ensures y * NS_PER_DAY - c == -(x * NS_PER_DAY + c)
  {
  }

  /** Months and days decide: the rest is negated anyway. */
  lemma OppositeWhen(a: Local, b: Local)
    requires a.Valid() && b.Valid() && DayNumber(a) <= DayNumber(b)
    ensures DurationBetween(a, b).Ok? && DurationBetween(b, a).Ok?
    ensures Opposite(DurationBetween(a, b).value, DurationBetween(b, a).value) <==>
      var k := WholeMonths(a, b);
      WholeMonths(b, a) == -k && DayNumber(AddMonths(b, -k)) - DayNumber(a) == DayNumber(b) - DayNumber(AddMonths(a, k))
  {
    hide WholeMonths, DayNumber, MonthLen, AddMonths, DurationBetween, AdjustEnd, TimeNanos, Late;
    Components(a, b);
    Components(b, a);
    EndsBothWays(a, b);
    RestBothWays(a, b);
  }

  lemma MirrorsSame(a: Local, b: Local)
    requires a.Valid() && b.Valid() && DayNumber(a) == DayNumber(b)
    ensures Mirrors(a, b) && DurationBetween(a, b).Ok? && DurationBetween(b, a).Ok?
    ensures Opposite(DurationBetween(a, b).value, DurationBetween(b, a).value)
  {
    hide WholeMonths, DayNumber, MonthLen, AddMonths, DurationBetween, Opposite;
    SameDay(a, b);
    SameDay(b, a);
    DayOrder(a, b);
    DayOrder(b, a);
    OppositeWhen(a, b);
    AddMonthsNone(a);
    AddMonthsNone(b);
  }

  /** The days left over, forward and back, when the months agree. */
  lemma DaysBothWays(a: Local, b: Local, k: int)
    requires a.Valid() && b.Valid() && (k == b.month - a.month || k == b.month - a.month - 1)
    ensures DayNumber(b) - DayNumber(AddMonths(a, k)) == (if k == b.month - a.month then b.day - Least(a.day, MonthLen(b.month))
      else MonthLen(b.month - 1) - Least(a.day, MonthLen(b.month - 1)) + b.day)
    ensures DayNumber(AddMonths(b, -k)) - DayNumber(a) == (if k == b.month - a.month then Least(b.day, MonthLen(a.month)) - a.day
      else MonthLen(a.month) - a.day + Least(b.day, MonthLen(a.month + 1)))
  {
    hide MonthStart, MonthLen;
    MonthFollows(b.month - 1);
    MonthFollows(a.month);
  }

  lemma MirrorsOrdered(a: Local, b: Local)
    requires a.Valid() && b.Valid() && DayNumber(a) < DayNumber(b)
    ensures DurationBetween(a, b).Ok? && DurationBetween(b, a).Ok?
    ensures Opposite(DurationBetween(a, b).value, DurationBetween(b, a).value) <==> Mirrors(a, b)
  {
    hide WholeMonths, DayNumber, MonthLen, AddMonths, DurationBetween, Opposite;
    OppositeWhen(a, b);
    MonthsBothWays(a, b);
    DayOrder(a, b);
    if WholeMonths(b, a) == -WholeMonths(a, b) {
      DaysBothWays(a, b, WholeMonths(a, b));
    }
  }

  /** Swapping the operands negates the result exactly when the two dates mirror each other. */
  lemma BetweenMirrored(a: Local, b: Local)
    requires a.Valid() && b.Valid()
    ensures DurationBetween(a, b).Ok? && DurationBetween(b, a).Ok?
    ensures Opposite(DurationBetween(a, b).value, DurationBetween(b, a).value) <==>
      if DayNumber(a) <= DayNumber(b) then Mirrors(a, b) else Mirrors(b, a)
  {
    hide DayNumber, Mirrors, DurationBetween;
    if DayNumber(a) == DayNumber(b) {
      BetweenSigns(a, b);
      BetweenSigns(b, a);
      MirrorsSame(a, b);
    } else if DayNumber(a) < DayNumber(b) {
      MirrorsOrdered(a, b);
    } else {
      MirrorsOrdered(b, a);
    }
  }
}
