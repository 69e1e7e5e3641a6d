/** Decimal text of integers, and reading text up to a terminator or of a known length,
    whatever follows it. */
module Decimals {

  function DigitChar(d: nat): char
    requires d < 10
  {
    '0' + d as char
  }

  predicate IsDigit(c: char) {
    '0' <= c <= '9'
  }

  function DigitValue(c: char): nat
    requires IsDigit(c)
  {
    (c - '0') as nat
  }

  /** The decimal digits of `n`, without leading zeros. */
  function Dec(n: nat): (s: string)
    ensures |s| > 0
  {
    if n < 10 then [DigitChar(n)] else Dec(n / 10) + [DigitChar(n % 10)]
  }

  predicate AllDigits(s: string) {
    forall i :: 0 <= i < |s| ==> IsDigit(s[i])
  }

  function ValueOf(s: string): nat
    requires AllDigits(s)
  {
    if s == [] then 0 else ValueOf(s[..|s| - 1]) * 10 + DigitValue(s[|s| - 1])
  }

  lemma {:induction false} DecReads(n: nat)
    ensures AllDigits(Dec(n)) && ValueOf(Dec(n)) == n
  {
    if n >= 10 {
      DecReads(n / 10);
      var s := Dec(n);
      assert s[..|s| - 1] == Dec(n / 10);
    } else {
      assert Dec(n)[..0] == [];
    }
  }

  /** `strconv.FormatInt(n, 10)`. */
  function Itoa(n: int): (s: string)
    ensures |s| > 0
  {
    if n < 0 then "-" + Dec(-n) else Dec(n)
  }

  predicate IntText(s: string) {
    s != [] && (AllDigits(s) || (s[0] == '-' && AllDigits(s[1..])))
  }

  function IntValue(s: string): int
    requires IntText(s)
  {
    if AllDigits(s) then ValueOf(s) else 0 - ValueOf(s[1..])
  }

  lemma ItoaReads(n: int)
    ensures IntText(Itoa(n)) && IntValue(Itoa(n)) == n
  {
    if n < 0 {
      DecReads(-n);
      assert Itoa(n)[1..] == Dec(-n);
      assert !IsDigit(Itoa(n)[0]);
    } else {
      DecReads(n);
    }
  }

  lemma ItoaInjective(m: int, n: int)
    requires Itoa(m) == Itoa(n)
    ensures m == n
  {
    ItoaReads(m);
    ItoaReads(n);
  }

  lemma ItoaLacks(n: int, c: char)
    requires !IsDigit(c) && c != '-'
    ensures c !in Itoa(n)
  {
    ItoaReads(n);
    var s := Itoa(n);
    forall i | 0 <= i < |s|
      ensures s[i] != c
    {
      if !AllDigits(s) && i > 0 {
        assert s[1..][i - 1] == s[i];
      }
    }
  }

  lemma FirstAt(a: string, c: char, x: string)
    requires c !in a
    ensures (a + [c] + x)[|a|] == c
    ensures forall i :: 0 <= i < |a| ==> (a + [c] + x)[i] != c
  {
    var s := a + [c] + x;
    forall i | 0 <= i < |a|
      ensures s[i] != c
    {
      assert s[i] == a[i];
    }
  }

  /** Text up to the first terminator is read back whatever follows. */
  lemma Terminated(a: string, b: string, c: char, x: string, y: string)
    requires c !in a && c !in b && a + [c] + x == b + [c] + y
    ensures a == b && x == y
  {
    var s, t := a + [c] + x, b + [c] + y;
    FirstAt(a, c, x);
    FirstAt(b, c, y);
    assert |a| == |b|;
    assert a == s[..|a|] && b == t[..|b|];
    assert x == s[|a| + 1..] && y == t[|b| + 1..];
  }

  /** Text of known length is read back whatever follows. */
  lemma Counted(a: string, b: string, x: string, y: string)
    requires |a| == |b| && a + x == b + y
    ensures a == b && x == y
  {
    assert a == (a + x)[..|a|] && b == (b + y)[..|b|];
    assert x == (a + x)[|a|..] && y == (b + y)[|b|..];
  }
}
