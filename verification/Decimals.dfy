/** Decimal numerals, as they appear in the names of temporary files. */
module Decimals {
  import opened Verifier

  /** A process identifier is a 32-bit number. */
  type Pid = n: nat | n < 0x1_0000_0000

  function Decimal(n: nat): (digits: string)
    ensures digits != ""
  {
    if n < 10 then [HEX_DIGITS[n]] else Decimal(n / 10) + [HEX_DIGITS[n % 10]]
  }

  predicate IsDigit(c: char) {
    '0' <= c <= '9'
  }

  lemma {:induction false} DecimalDigits(n: nat)
    ensures forall i | 0 <= i < |Decimal(n)| :: IsDigit(Decimal(n)[i])
  {
    if n >= 10 {
      DecimalDigits(n / 10);
    }
  }

  /** The number a decimal numeral stands for. */
  function Number(digits: string): nat
    requires forall i | 0 <= i < |digits| :: IsDigit(digits[i])
  {
    if digits == "" then 0
    else
      assert IsDigit(digits[|digits| - 1]);
      10 * Number(digits[..|digits| - 1]) + (digits[|digits| - 1] as nat - '0' as nat)
  }

  lemma {:induction false} DecimalReads(n: nat)
    ensures forall i | 0 <= i < |Decimal(n)| :: IsDigit(Decimal(n)[i])
    ensures Number(Decimal(n)) == n
  {
    DecimalDigits(n);
    DigitReads(n % 10);
    var digits := Decimal(n);
    if n >= 10 {
      DecimalReads(n / 10);
      assert digits[..|digits| - 1] == Decimal(n / 10);
    } else {
      assert digits[..0] == "";
    }
  }

  lemma {:induction false} DecimalLength(n: nat, k: nat)
    requires k >= 1 && n < Power10(k)
    ensures |Decimal(n)| <= k
  {
    if n >= 10 {
      DecimalLength(n / 10, k - 1);
    }
  }

  function Power10(k: nat): (p: nat)
    ensures p >= 1
  {
    if k == 0 then 1 else 10 * Power10(k - 1)
  }

  lemma {:induction false} DecimalInjective(m: nat, n: nat)
    requires Decimal(m) == Decimal(n)
    ensures m == n
  {
    var d, e := Decimal(m), Decimal(n);
    assert d[|d| - 1] == HEX_DIGITS[m % 10] && e[|e| - 1] == HEX_DIGITS[n % 10];
    DigitInjective(m % 10, n % 10);
    if m >= 10 && n >= 10 {
      assert d[..|d| - 1] == Decimal(m / 10) && e[..|e| - 1] == Decimal(n / 10);
      DecimalInjective(m / 10, n / 10);
    }
  }

  lemma PidText(pid: Pid)
    ensures 1 <= |Decimal(pid)| <= 10 && forall i | 0 <= i < |Decimal(pid)| :: IsDigit(Decimal(pid)[i])
  {
    assert Power10(10) == 10_000_000_000;
    DecimalLength(pid, 10);
    DecimalDigits(pid);
  }

  lemma LastDash(f1: string, d1: string, f2: string, d2: string)
    requires f1 + "-" + d1 == f2 + "-" + d2 && forall i | 0 <= i < |d2| :: IsDigit(d2[i])
    ensures |d1| >= |d2|
  {
    var s := f1 + "-" + d1;
    assert s[|f1|] == '-';
    assert s == f2 + "-" + d2;
    assert forall i | |f2| < i < |s| :: s[i] == d2[i - |f2| - 1];
  }

  /** The numeral behind the last dash is determined, and so is what stands before it. */
  lemma LastNumeral(f1: string, m: nat, f2: string, n: nat)
    requires f1 + "-" + Decimal(m) == f2 + "-" + Decimal(n)
    ensures m == n && f1 == f2
  {
    var d1, d2 := Decimal(m), Decimal(n);
    DecimalDigits(m);
    DecimalDigits(n);
    LastDash(f1, d1, f2, d2);
    LastDash(f2, d2, f1, d1);
    assert (f1 + "-" + d1)[..|f1|] == f1 && (f2 + "-" + d2)[..|f2|] == f2;
    assert (f1 + "-" + d1)[|f1| + 1..] == d1 && (f2 + "-" + d2)[|f2| + 1..] == d2;
    DecimalInjective(m, n);
  }
}
