// Decimal digit strings: the `f"day{d}"` rendering of a day number and the
// `int(...)` reading of a digit suffix.
module Decimal {

  predicate IsDigit(c: char) { '0' <= c <= '9' }

  predicate AllDigits(s: string) { forall k | 0 <= k < |s| :: IsDigit(s[k]) }

  function DigitValue(c: char): (v: nat)
    requires IsDigit(c)
    ensures v < 10
  {
    c as int - '0' as int
  }

  function DigitChar(v: nat): (c: char)
    requires v < 10
    ensures IsDigit(c) && DigitValue(c) == v
  {
    ('0' as int + v) as char
  }

  /** The value of a string of decimal digits, most significant first; "" reads as 0. */
  function DigitsValue(s: string): nat
    requires AllDigits(s)
    decreases |s|
  {
    if s == [] then 0 else 10 * DigitsValue(s[..|s| - 1]) + DigitValue(s[|s| - 1])
  }

  function Pow10(k: nat): (p: nat)
    ensures p >= 1
  {
    if k == 0 then 1 else 10 * Pow10(k - 1)
  }

  /** Shortest decimal rendering of n, as Python's `str(n)` for a non-negative int. */
  function NatToString(n: nat): (s: string)
    ensures |s| >= 1 && AllDigits(s)
    ensures s[0] == '0' <==> n == 0
    ensures n == 0 ==> s == "0"
    decreases n
  {
    if n < 10 then [DigitChar(n)] else NatToString(n / 10) + [DigitChar(n % 10)]
  }

  /** Reading back a rendered number gives the number. */
  lemma {:induction false} DigitsValueOfNatToString(n: nat)
    ensures DigitsValue(NatToString(n)) == n
    decreases n
  {
    var s := NatToString(n);
    if n >= 10 {
      DigitsValueOfNatToString(n / 10);
      assert s[..|s| - 1] == NatToString(n / 10);
    }
  }

  /** A digit string is at least the value of any of its prefixes. */
  lemma {:induction false} DigitsValuePrefix(s: string, k: nat)
    requires AllDigits(s) && k <= |s|
    ensures DigitsValue(s[..k]) <= DigitsValue(s)
    decreases |s|
  {
    if k < |s| {
      assert s[..|s| - 1][..k] == s[..k];
      DigitsValuePrefix(s[..|s| - 1], k);
      assert DigitsValue(s[..|s| - 1]) <= DigitsValue(s);
    } else {
      assert s[..k] == s;
    }
  }

  lemma DivMod10(q: nat, r: nat)
    requires r < 10
    ensures (10 * q + r) / 10 == q && (10 * q + r) % 10 == r
  {
  }

  /** A digit string without a leading zero is the rendering of its own value. */
  lemma {:induction false} NatToStringOfDigits(s: string)
    requires |s| >= 1 && AllDigits(s)
    requires s[0] != '0' || |s| == 1
    ensures NatToString(DigitsValue(s)) == s
    decreases |s|
  {
    var init, last := s[..|s| - 1], s[|s| - 1];
    var q, r := DigitsValue(init), DigitValue(last);
    assert DigitChar(r) == last;
    if |s| == 1 {
      assert init == [];
    } else {
      NatToStringOfDigits(init);
      assert q >= 1 by {
        DigitsValuePrefix(init, 1);
        assert init[..1] == [s[0]];
      }
      DivMod10(q, r);
      assert NatToString(10 * q + r) == NatToString(q) + [DigitChar(r)];
      assert s == init + [last];
    }
  }
}
