/** Decimal rendering of non-negative integers, as Go's `strconv.Itoa` writes
    them: no sign, no leading zeros, "0" for zero. */
module Decimal {

  predicate IsDigit(c: char)
  {
    '0' <= c <= '9'
  }

  function DigitChar(d: nat): (c: char)
    requires d < 10
    ensures IsDigit(c)
  {
    ('0' as int + d) as char
  }

  /** `strconv.Itoa` on a non-negative argument. */
  function Itoa(n: nat): (s: string)
    ensures |s| >= 1
    ensures forall i :: 0 <= i < |s| ==> IsDigit(s[i])
    ensures |s| > 1 ==> s[0] != '0'
  {
    if n < 10 then [DigitChar(n)] else Itoa(n / 10) + [DigitChar(n % 10)]
  }

  /** The value a string of digits denotes. */
  function Atoi(s: string): nat
    requires forall i :: 0 <= i < |s| ==> IsDigit(s[i])
  {
    if |s| == 0 then 0
    else
      assert IsDigit(s[|s| - 1]);
      Atoi(s[..|s| - 1]) * 10 + (s[|s| - 1] as int - '0' as int)
  }

  function Pow10(k: nat): (p: nat)
    ensures p >= 1
  {
    if k == 0 then 1 else 10 * Pow10(k - 1)
  }

  /** Reading back a rendering gives the number. */
  lemma {:induction false} AtoiItoa(n: nat)
    ensures Atoi(Itoa(n)) == n
  {
    if n >= 10 {
      AtoiItoa(n / 10);
      var s := Itoa(n);
      assert s[..|s| - 1] == Itoa(n / 10);
    }
  }

  /** Distinct numbers render differently. */
  lemma ItoaInjective(m: nat, n: nat)
    requires Itoa(m) == Itoa(n)
    ensures m == n
  {
    AtoiItoa(m);
    AtoiItoa(n);
  }

  /** A number below 10^k renders in at most k digits. */
  lemma {:induction false} ItoaLength(n: nat, k: nat)
    requires 1 <= k
    requires n < Pow10(k)
    ensures |Itoa(n)| <= k
  {
    if n >= 10 {
      assert k >= 2;
      ItoaLength(n / 10, k - 1);
    }
  }

  /** The digit strings `Itoa` produces: at least one digit, no leading zero. */
  predicate Canonical(s: string)
  {
    && |s| >= 1
    && (forall i :: 0 <= i < |s| ==> IsDigit(s[i]))
    && (|s| > 1 ==> s[0] != '0')
  }

  /** A digit string with a leading non-zero digit denotes at least 1. */
  lemma {:induction false} AtoiLeading(s: string)
    requires Canonical(s) && s[0] != '0'
    ensures Atoi(s) >= 1
  {
    if |s| > 1 {
      AtoiLeading(s[..|s| - 1]);
    }
  }

  /** Rendering the value of a canonical digit string gives the string back. */
  lemma {:induction false} ItoaAtoi(s: string)
    requires Canonical(s)
    ensures Itoa(Atoi(s)) == s
  {
    var n := Atoi(s);
    if |s| == 1 {
      assert s[..0] == [] && Atoi(s[..0]) == 0;
      assert n == s[0] as int - '0' as int;
      assert DigitChar(n) == s[0];
    } else {
      var front := s[..|s| - 1];
      assert Canonical(front);
      AtoiLeading(front);
      ItoaAtoi(front);
      assert n / 10 == Atoi(front) && n % 10 == s[|s| - 1] as int - '0' as int;
      assert DigitChar(n % 10) == s[|s| - 1];
      assert s == front + [s[|s| - 1]];
    }
  }
}

