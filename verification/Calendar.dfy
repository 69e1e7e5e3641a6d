/** The proleptic Gregorian calendar on local date-times. Years are unbounded; day 0 is the
    first of January of year 0. */
module Calendar {

  const NS_PER_SEC: int := 1_000_000_000
  const NS_PER_DAY: int := 86_400 * NS_PER_SEC

  /** Go's `/` and `%`, which truncate toward zero. */
  function Quo(a: int, b: int): int
    requires b > 0
  {
    if a >= 0 then a / b else -(-a / b)
  }

  function Rem(a: int, b: int): int
    requires b > 0
  {
    a - Quo(a, b) * b
  }

  /** `floorDiv`: truncated division corrected when the signs differ and something is left. */
  function FloorDiv(a: int, b: int): (q: int)
    requires b > 0
    ensures q == a / b
  {
    var q := Quo(a, b);
    FloorIsEuclid(a, b);
    if Rem(a, b) != 0 && a < 0 then q - 1 else q
  }

  lemma FloorIsEuclid(a: int, b: int)
    requires b > 0
    ensures (if Rem(a, b) != 0 && a < 0 then Quo(a, b) - 1 else Quo(a, b)) == a / b
  {
    if a < 0 {
      var q, r := -a / b, -a % b;
      assert -a == q * b + r;
      if r == 0 {
        assert a == -q * b;
        DivUnique(a, b, -q, 0);
      } else {
        assert a == (-q - 1) * b + (b - r);
        DivUnique(a, b, -q - 1, b - r);
      }
    }
  }

  lemma DivUnique(a: int, b: int, q: int, r: int)
    requires b > 0 && 0 <= r < b && a == q * b + r
    ensures a / b == q && a % b == r
  {
    var q', r' := a / b, a % b;
    assert a == b * q' + r' == b * q + r;
    if q > q' {
      Spread(b, q, q');
    } else if q < q' {
      Spread(b, q', q);
    }
  }

  lemma {:induction false} Spread(b: int, x: int, y: int)
    requires b > 0 && x > y
    ensures b * x >= b * y + b
    decreases x - y
  {
    assert b * x == b * (x - 1) + b;
    if x - 1 > y {
      Spread(b, x - 1, y);
    }
  }

  predicate Leap(y: int) {
    y % 4 == 0 && (y % 100 != 0 || y % 400 == 0)
  }

  /** `daysIn`; months count from 1. */
  function DaysIn(y: int, m: int): (n: int)
    ensures 28 <= n <= 31
  {
    match m
    case 4 => 30
    case 6 => 30
    case 9 => 30
    case 11 => 30
    case 2 => if Leap(y) then 29 else 28
    case _ => 31
  }

  /** A month counted from January of year 0, and its length. */
  function MonthLen(month: int): int {
    DaysIn(month / 12, month % 12 + 1)
  }

  /** The days before January of year `y`. */
  function YearStart(y: int): int {
    365 * y + (y + 3) / 4 - (y + 99) / 100 + (y + 399) / 400
  }

  /** The days of a year before its month `m`, counted from 0. */
  function Before(y: int, m: nat): int {
    if m == 0 then 0 else Before(y, m - 1) + DaysIn(y, m)
  }

  function MonthStart(month: int): int {
    YearStart(month / 12) + Before(month / 12, month % 12)
  }

  lemma YearLength(y: int)
    ensures YearStart(y + 1) == YearStart(y) + if Leap(y) then 366 else 365
  {
    Carry(y, 4);
    Carry(y, 100);
    Carry(y, 400);
    Multiples(y);
    LeapsAdd(y, (y + 3) / 4, (y + 99) / 100, (y + 399) / 400);
  }

  lemma Multiples(y: int)
    ensures y % 400 == 0 ==> y % 100 == 0
    ensures y % 100 == 0 ==> y % 4 == 0
  {
    if y % 400 == 0 {
      DivUnique(y, 100, 4 * (y / 400), 0);
    }
    if y % 100 == 0 {
      DivUnique(y, 4, 25 * (y / 100), 0);
    }
  }

  lemma LeapsAdd(y: int, a: int, b: int, c: int)
    requires (y + 4) / 4 == a + if y % 4 == 0 then 1 else 0
    requires (y + 100) / 100 == b + if y % 100 == 0 then 1 else 0
    requires (y + 400) / 400 == c + if y % 400 == 0 then 1 else 0
    requires (y % 400 == 0 ==> y % 100 == 0) && (y % 100 == 0 ==> y % 4 == 0)
    ensures (y + 4) / 4 - (y + 100) / 100 + (y + 400) / 400 == a - b + c + if Leap(y) then 1 else 0
  {
  }

  lemma Carry(y: int, k: int)
    requires k > 0
    ensures (y + 1 + (k - 1)) / k == (y + (k - 1)) / k + if y % k == 0 then 1 else 0
  {
    var q, r := y / k, y % k;
    assert y == q * k + r;
    if r == 0 {
      DivUnique(y + k, k, q + 1, 0);
      DivUnique(y + k - 1, k, q, k - 1);
    } else {
      assert y + k == (q + 1) * k + r;
      DivUnique(y + k, k, q + 1, r);
      assert y + k - 1 == (q + 1) * k + (r - 1);
      DivUnique(y + k - 1, k, q + 1, r - 1);
    }
  }

  lemma YearMonths(y: int)
    ensures Before(y, 11) + DaysIn(y, 12) == if Leap(y) then 366 else 365
  {
    assert Before(y, 1) == 31;
    assert Before(y, 3) == Before(y, 2) + 31 == 62 + DaysIn(y, 2);
    assert Before(y, 5) == Before(y, 3) + 61;
    assert Before(y, 7) == Before(y, 5) + 61;
    assert Before(y, 9) == Before(y, 7) + 61;
    assert Before(y, 11) == Before(y, 9) + 61;
  }

  /** Months follow one another without gaps. */
  lemma MonthFollows(month: int)
    ensures MonthStart(month + 1) == MonthStart(month) + MonthLen(month)
  {
    var y, m := month / 12, month % 12;
    if m < 11 {
      assert (month + 1) / 12 == y && (month + 1) % 12 == m + 1;
    } else {
      assert (month + 1) / 12 == y + 1 && (month + 1) % 12 == 0;
      YearLength(y);
      YearMonths(y);
    }
  }

  lemma {:induction false} MonthsApart(a: int, b: int)
    requires a <= b
    ensures MonthStart(b) >= MonthStart(a) + 28 * (b - a)
    decreases b - a
  {
    if a < b {
      hide MonthStart;
      MonthsApart(a, b - 1);
      MonthFollows(b - 1);
    }
  }

  /** A wall-clock time: month, day of the month and nanoseconds since midnight. */
  datatype Local = Local(month: int, day: int, clock: int) {
    ghost predicate Valid() {
      1 <= day <= MonthLen(month) && 0 <= clock < NS_PER_DAY
    }
  }

  function DayNumber(t: Local): int {
    MonthStart(t.month) + t.day - 1
  }

  /** Nanoseconds since day 0. */
  function Instant(t: Local): int {
    DayNumber(t) * NS_PER_DAY + t.clock
  }

  function FindMonth(n: int, from: int): (month: int)
    requires MonthStart(from) <= n
    ensures MonthStart(month) <= n < MonthStart(month + 1)
    decreases n - MonthStart(from)
  {
    MonthFollows(from);
    hide MonthStart;
    if n < MonthStart(from + 1) then from else FindMonth(n, from + 1)
  }

  /** The month a day falls in. */
  function MonthOf(n: int): (month: int)
    ensures MonthStart(month) <= n < MonthStart(month + 1)
  {
    hide MonthStart;
    EarlyEnough(n);
    FindMonth(n, if n >= 0 then 0 else n / 28)
  }

  lemma EarlyEnough(n: int)
    ensures MonthStart(if n >= 0 then 0 else n / 28) <= n
  {
    assert MonthStart(0) == 0;
    if n < 0 {
      hide MonthStart;
      MonthsApart(n / 28, 0);
    }
  }

  function FromDay(n: int, clock: int): (t: Local)
    requires 0 <= clock < NS_PER_DAY
    ensures t.Valid() && DayNumber(t) == n && t.clock == clock
  {
    var month := MonthOf(n);
    MonthFollows(month);
    Local(month, n - MonthStart(month) + 1, clock)
  }

  /** The civil date of a day number is unique. */
  lemma DayUnique(a: Local, b: Local)
    requires a.Valid() && b.Valid() && DayNumber(a) == DayNumber(b) && a.clock == b.clock
    ensures a == b
  {
    hide MonthStart, MonthLen;
    MonthFollows(a.month);
    MonthFollows(b.month);
    if a.month < b.month {
      MonthsApart(a.month + 1, b.month);
    } else if b.month < a.month {
      MonthsApart(b.month + 1, a.month);
    }
  }

  /** Day numbers order dates as month, then day. */
  lemma DayOrder(a: Local, b: Local)
    requires a.Valid() && b.Valid()
    ensures DayNumber(a) <= DayNumber(b) <==> a.month < b.month || (a.month == b.month && a.day <= b.day)
  {
    hide MonthStart, MonthLen;
    MonthFollows(a.month);
    MonthFollows(b.month);
    if a.month < b.month {
      MonthsApart(a.month + 1, b.month);
    } else if b.month < a.month {
      MonthsApart(b.month + 1, a.month);
    }
  }

  lemma InstantUnique(a: Local, b: Local)
    requires a.Valid() && b.Valid() && Instant(a) == Instant(b)
    ensures a == b
  {
    hide MonthStart, MonthLen;
    DivUnique(Instant(a), NS_PER_DAY, DayNumber(a), a.clock);
    DivUnique(Instant(b), NS_PER_DAY, DayNumber(b), b.clock);
    DayUnique(a, b);
  }

  function FromInstant(i: int): (t: Local)
    ensures t.Valid() && Instant(t) == i
  {
    FromDay(i / NS_PER_DAY, i % NS_PER_DAY)
  }

  /** `AddDate(0, 0, n)`. */
  function AddDays(t: Local, n: int): (r: Local)
    requires t.Valid()
    ensures r.Valid() && DayNumber(r) == DayNumber(t) + n && r.clock == t.clock
  {
    FromDay(DayNumber(t) + n, t.clock)
  }

  /** `addMonths`: the day is clamped to the end of the month. */
  function AddMonths(t: Local, months: int): (r: Local)
    requires t.Valid()
    ensures r.Valid() && r.month == t.month + months && r.clock == t.clock
    ensures r.day == if t.day > MonthLen(r.month) then MonthLen(r.month) else t.day
  {
    var y, m := t.month / 12, t.month % 12 + 1;
    var total := y * 12 + (m - 1) + months;
    var ny := FloorDiv(total, 12);
    var nm := total - ny * 12;
    var dim := DaysIn(ny, nm + 1);
    Local(ny * 12 + nm, if t.day > dim then dim else t.day, t.clock)
  }

  // ------------------------------------------------- the Gregorian calendar

  /** The date written year-month-day, at midnight. */
  function Date(year: int, month: int, day: int): Local
    requires 1 <= month <= 12
  {
    Local(12 * year + month - 1, day, 0)
  }

  /** Thirty days in April, June, September and November; February has 29 in years divisible by 4, those
      divisible by 100 only if divisible by 400. */
  lemma DateValid(year: int, month: int, day: int)
    requires 1 <= month <= 12
    ensures Date(year, month, day).Valid() <==>
      1 <= day <= if month == 2 then (if year % 4 == 0 && (year % 100 == 0 ==> year % 400 == 0) then 29 else 28)
                  else if month in {4, 6, 9, 11} then 30 else 31
  {
    MonthSplit(year, month);
  }

  lemma MonthSplit(year: int, month: int)
    requires 1 <= month <= 12
    ensures Date(year, month, 1).month / 12 == year && Date(year, month, 1).month % 12 == month - 1
  {
    DivUnique(12 * year + month - 1, 12, year, month - 1);
  }

  /** Day numbers count one date after the other: within the month, then the first of the next month, and
      after the 31st of December the first of January. */
  lemma NextDay(year: int, month: int, day: int)
    requires 1 <= month <= 12 && Date(year, month, day).Valid()
    ensures var next :=
        if Date(year, month, day + 1).Valid() then Date(year, month, day + 1)
        else if month < 12 then Date(year, month + 1, 1) else Date(year + 1, 1, 1);
      DayNumber(next) == DayNumber(Date(year, month, day)) + 1
  {
    hide MonthStart, MonthLen;
    MonthFollows(12 * year + month - 1);
  }

  /** The first of January 1970 is 719528 days after that of year 0. */
  lemma Epoch()
    ensures DayNumber(Date(1970, 1, 1)) == 719_528 && DayNumber(Date(0, 1, 1)) == 0
  {
  }
}
