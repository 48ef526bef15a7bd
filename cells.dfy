// Cells of the roster table, and the two ways the scoring reads a cell:
// as a number (`pd.to_numeric(..., errors="coerce").fillna(0)`) and as a
// flag (`column == 1`).
module Cells {
  import opened Decimal

  datatype Option<T> = None | Some(value: T)

  /** A table cell as the CSV reader leaves it: a number, a text that the reader
      could not type as a number, or a missing value (NaN). */
  datatype Cell = Num(value: real) | Text(text: string) | Missing

  /** Position of the first '.' in s, or |s| when there is none. */
  function IndexOfDot(s: string): (k: nat)
    ensures k <= |s|
    ensures k < |s| ==> s[k] == '.'
    ensures forall j | 0 <= j < k :: s[j] != '.'
  {
    if s == [] || s[0] == '.' then 0 else 1 + IndexOfDot(s[1..])
  }

  /** An unsigned decimal numeral: digits, optionally a '.' and more digits,
      with at least one digit in all. */
  function ParseUnsigned(s: string): Option<real>
  {
    var k := IndexOfDot(s);
    var whole := s[..k];
    var frac := if k < |s| then s[k + 1..] else [];
    if AllDigits(whole) && AllDigits(frac) && |whole| + |frac| >= 1 then
      Some(DigitsValue(whole) as real + FractionValue(frac))
    else
      None
  }

  /** The value of the digits after a decimal point. */
  function FractionValue(frac: string): (r: real)
    requires AllDigits(frac)
    ensures frac == [] ==> r == 0.0
  {
    DigitsValue(frac) as real / Pow10(|frac|) as real
  }

  /** The numeric reading of a text cell: an optional sign and an unsigned
      numeral. A plain digit string reads as its decimal value. */
  function ParseNumber(s: string): (r: Option<real>)
    ensures |s| >= 1 && AllDigits(s) ==> r == Some(DigitsValue(s) as real)
  {
    if |s| > 0 && s[0] == '-' then
      match ParseUnsigned(s[1..])
      case Some(v) => Some(-v)
      case None => None
    else if |s| > 0 && s[0] == '+' then
      ParseUnsigned(s[1..])
    else
      if |s| >= 1 && AllDigits(s) then
        DigitsParse(s);
        ParseUnsigned(s)
      else
        ParseUnsigned(s)
  }

  lemma DigitsParse(s: string)
    requires |s| >= 1 && AllDigits(s)
    ensures ParseUnsigned(s) == Some(DigitsValue(s) as real)
  {
    var k := IndexOfDot(s);
    assert k == |s| && s[..k] == s;
  }

  /** A cell that coercion turns into NaN: missing, or a text that is not a numeral. */
  predicate NonNumeric(c: Cell)
  {
    c.Missing? || (c.Text? && ParseNumber(c.text).None?)
  }

  /** `pd.to_numeric(cell, errors="coerce")` followed by `fillna(0)`. */
  function ToNumber(c: Cell): (v: real)
    ensures c.Num? ==> v == c.value
    ensures c.Text? && ParseNumber(c.text).Some? ==> v == ParseNumber(c.text).value
    ensures NonNumeric(c) ==> v == 0.0
  {
    match c
    case Num(x) => x
    case Text(s) => (match ParseNumber(s) case Some(x) => x case None => 0.0)
    case Missing => 0.0
  }

  /** `cell == 1` on a table column: true only of a number equal to 1; a text "1"
      or a missing value compares unequal. */
  predicate IsOne(c: Cell)
  {
    c == Num(1.0)
  }

  /** A flag cell equals 1 exactly when it is a number that coerces to 1;
      a text or a missing value never does. */
  lemma IsOneIsNumericOne(c: Cell)
    ensures IsOne(c) <==> c.Num? && ToNumber(c) == 1.0
    ensures c.Text? || c.Missing? ==> !IsOne(c)
  {
  }

  /** A text that reads as a number consists of at least one digit and at
      most one '.', after an optional leading sign; so a word such as "DNP"
      is non-numeric. */
  lemma ParsedTextIsNumeral(s: string)
    requires ParseNumber(s).Some?
    ensures |s| >= 1
    ensures forall j | 0 < j < |s| :: IsDigit(s[j]) || s[j] == '.'
    ensures IsDigit(s[0]) || s[0] in ['.', '-', '+']
    ensures exists j | 0 <= j < |s| :: IsDigit(s[j])
    ensures forall i, j | 0 <= i < j < |s| :: !(s[i] == '.' && s[j] == '.')
  {
    if |s| > 0 && (s[0] == '-' || s[0] == '+') {
      var u := s[1..];
      assert ParseUnsigned(u).Some?;
      UnsignedNumeral(u);
      assert forall j | 1 <= j < |s| :: s[j] == u[j - 1];
      var d :| 0 <= d < |u| && IsDigit(u[d]);
      assert IsDigit(s[d + 1]);
    } else {
      UnsignedNumeral(s);
    }
  }

  /** The characters of an unsigned numeral: digits, at least one of them,
      and one '.' at most. */
  lemma UnsignedNumeral(u: string)
    requires ParseUnsigned(u).Some?
    ensures forall j | 0 <= j < |u| :: IsDigit(u[j]) || (u[j] == '.' && j == IndexOfDot(u))
    ensures exists j | 0 <= j < |u| :: IsDigit(u[j])
  {
    var k := IndexOfDot(u);
    var whole := u[..k];
    var frac := if k < |u| then u[k + 1..] else [];
    forall j | 0 <= j < |u|
      ensures IsDigit(u[j]) || (u[j] == '.' && j == k)
    {
      if j < k {
        assert whole[j] == u[j];
      } else if j > k {
        assert frac[j - k - 1] == u[j];
      }
    }
    if |whole| >= 1 {
      assert IsDigit(u[0]) by { assert whole[0] == u[0]; }
    } else {
      assert IsDigit(u[k + 1]) by { assert frac[0] == u[k + 1]; }
    }
  }

  /** The decimal rendering of a natural number reads back as that number. */
  lemma ParseNatToString(n: nat)
    ensures ParseNumber(NatToString(n)) == Some(n as real)
  {
    var s := NatToString(n);
    var k := IndexOfDot(s);
    assert k == |s| && s[..k] == s;
    DigitsValueOfNatToString(n);
    assert ParseUnsigned(s) == Some(n as real);
  }
}
