// Column names: the normalisation applied to every header of the roster
// table, and the detection of the day columns `day<N>` with their numbers.
module Columns {
  import opened Decimal
  import opened Sorting

  /** Python's `str.isspace` for one character: the characters `str.strip()` removes. */
  predicate IsSpace(c: char)
  {
    var n := c as int;
    (9 <= n <= 13) || (28 <= n <= 32) || n == 0x85 || n == 0xA0 || n == 0x1680
    || (0x2000 <= n <= 0x200A) || n == 0x2028 || n == 0x2029 || n == 0x202F
    || n == 0x205F || n == 0x3000
  }

  predicate IsUpper(c: char) { 'A' <= c <= 'Z' }

  /** Drops leading whitespace. */
  function TrimStart(s: string): (r: string)
    ensures |r| <= |s| && r == s[|s| - |r|..]
    ensures r == [] || !IsSpace(r[0])
    ensures forall k | 0 <= k < |s| - |r| :: IsSpace(s[k])
  {
    if s != [] && IsSpace(s[0]) then TrimStart(s[1..]) else s
  }

  /** Drops trailing whitespace. */
  function TrimEnd(s: string): (r: string)
    ensures |r| <= |s| && r == s[..|r|]
    ensures r == [] || !IsSpace(r[|r| - 1])
    ensures forall k | |r| <= k < |s| :: IsSpace(s[k])
  {
    if s != [] && IsSpace(s[|s| - 1]) then TrimEnd(s[..|s| - 1]) else s
  }

  /** `str.strip()`. */
  function Strip(s: string): string
  {
    TrimEnd(TrimStart(s))
  }

  function LowerChar(c: char): (d: char)
  {
    if IsUpper(c) then (c as int - 'A' as int + 'a' as int) as char else c
  }

  /** `str.lower()` on the letters A-Z. */
  function Lower(s: string): (r: string)
    ensures |r| == |s| && forall k | 0 <= k < |s| :: r[k] == LowerChar(s[k])
  {
    seq(|s|, k requires 0 <= k < |s| => LowerChar(s[k]))
  }

  /** `str.replace(" ", "")`. */
  function RemoveSpaces(s: string): (r: string)
    ensures forall k | 0 <= k < |r| :: r[k] != ' '
    ensures (forall k | 0 <= k < |s| :: s[k] != ' ') ==> r == s
    decreases |s|
  {
    if s == [] then []
    else (if s[0] == ' ' then [] else [s[0]]) + RemoveSpaces(s[1..])
  }

  /** Removing spaces keeps every other character as often as it occurs. */
  lemma {:induction false} RemoveSpacesKeepsOthers(s: string)
    ensures multiset(RemoveSpaces(s)) == multiset(s)[' ' := 0]
    decreases |s|
  {
    if s != [] {
      assert s == [s[0]] + s[1..];
      RemoveSpacesKeepsOthers(s[1..]);
    }
  }

  /** Removing spaces works piece by piece, so the kept characters stay in
      their order. */
  lemma {:induction false} RemoveSpacesAppend(a: string, b: string)
    ensures RemoveSpaces(a + b) == RemoveSpaces(a) + RemoveSpaces(b)
    decreases |a|
  {
    if a == [] {
      assert a + b == b;
    } else {
      var x, rest := a[0], a[1..];
      var kept := if x == ' ' then [] else [x];
      assert a == [x] + rest;
      assert a + b == [x] + (rest + b);
      calc {
        RemoveSpaces(a + b);
        { RemoveSpacesCons(x, rest + b); }
        kept + RemoveSpaces(rest + b);
        { RemoveSpacesAppend(rest, b); }
        kept + (RemoveSpaces(rest) + RemoveSpaces(b));
        (kept + RemoveSpaces(rest)) + RemoveSpaces(b);
        { RemoveSpacesCons(x, rest); }
        RemoveSpaces(a) + RemoveSpaces(b);
      }
    }
  }

  lemma RemoveSpacesCons(c: char, t: string)
    ensures RemoveSpaces([c] + t) == (if c == ' ' then [] else [c]) + RemoveSpaces(t)
  {
    assert ([c] + t)[0] == c && ([c] + t)[1..] == t;
  }

  /** `RemoveSpaces` on a single character: a space goes, anything else stays. */
  lemma RemoveSpacesChar(c: char)
    ensures RemoveSpaces([c]) == if c == ' ' then [] else [c]
  {
    assert [c][1..] == [];
  }

  /** The normalisation the dashboard applies to every column name:
      strip, lower-case, remove spaces. A normalised name has no spaces, no
      upper-case letters, and no whitespace at either end. */
  function Normalize(s: string): (r: string)
    ensures forall k | 0 <= k < |r| :: r[k] != ' ' && !IsUpper(r[k])
    ensures r == [] || (!IsSpace(r[0]) && !IsSpace(r[|r| - 1]))
  {
    var t := Strip(s);
    var l := Lower(t);
    StripEnds(s);
    LoweredEnds(t);
    LoweredHasNoUpper(t);
    RemoveSpaces(l)
  }

  lemma LoweredHasNoUpper(t: string)
    ensures var r := RemoveSpaces(Lower(t)); forall k | 0 <= k < |r| :: !IsUpper(r[k])
  {
    var l := Lower(t);
    var r := RemoveSpaces(l);
    RemoveSpacesKeepsOthers(l);
    forall k | 0 <= k < |r|
      ensures !IsUpper(r[k])
    {
      assert r[k] in multiset(r);
      assert r[k] in l;
    }
  }

  /** The normalised header row. */
  function NormalizeColumns(columns: seq<string>): (r: seq<string>)
    ensures |r| == |columns|
    ensures forall k | 0 <= k < |columns| :: r[k] == Normalize(columns[k])
  {
    seq(|columns|, k requires 0 <= k < |columns| => Normalize(columns[k]))
  }

  lemma StripEnds(s: string)
    ensures var t := Strip(s); t == [] || (!IsSpace(t[0]) && !IsSpace(t[|t| - 1]))
  {
    var u := TrimStart(s);
    var t := TrimEnd(u);
    if t != [] {
      assert t[0] == u[0];
    }
  }

  lemma StripOfTrimmed(s: string)
    requires s == [] || (!IsSpace(s[0]) && !IsSpace(s[|s| - 1]))
    ensures Strip(s) == s
  {
  }

  lemma {:induction false} RemoveSpacesEnds(s: string)
    requires s != [] && s[0] != ' ' && s[|s| - 1] != ' '
    ensures var r := RemoveSpaces(s); r != [] && r[0] == s[0] && r[|r| - 1] == s[|s| - 1]
    decreases |s|
  {
    if |s| > 1 {
      var tail := s[1..];
      if tail[0] == ' ' {
        assert RemoveSpaces(s) == [s[0]] + RemoveSpaces(tail);
        assert RemoveSpaces(tail) == RemoveSpaces(tail[1..]);
        if |tail| > 1 {
          assert tail[|tail| - 1] == s[|s| - 1];
          RemoveSpacesLast(tail[1..]);
        }
      } else {
        RemoveSpacesEnds(tail);
      }
    }
  }

  lemma {:induction false} RemoveSpacesLast(s: string)
    requires s != [] && s[|s| - 1] != ' '
    ensures var r := RemoveSpaces(s); r != [] && r[|r| - 1] == s[|s| - 1]
    decreases |s|
  {
    if |s| > 1 {
      RemoveSpacesLast(s[1..]);
    }
  }

  /** Lower-casing and removing spaces keep a name free of whitespace at
      its ends. */
  lemma LoweredEnds(t: string)
    requires t == [] || (!IsSpace(t[0]) && !IsSpace(t[|t| - 1]))
    ensures var r := RemoveSpaces(Lower(t)); r == [] || (!IsSpace(r[0]) && !IsSpace(r[|r| - 1]))
  {
    var l := Lower(t);
    if l != [] {
      assert l[0] == LowerChar(t[0]) && l[|l| - 1] == LowerChar(t[|t| - 1]);
      RemoveSpacesEnds(l);
    } else {
      assert RemoveSpaces(l) == [];
    }
  }

  lemma LowerOfLowerCase(s: string)
    requires forall k | 0 <= k < |s| :: !IsUpper(s[k])
    ensures Lower(s) == s
  {
  }

  /** Normalising a column name twice gives the same name as normalising once. */
  lemma NormalizeIdempotent(s: string)
    ensures Normalize(Normalize(s)) == Normalize(s)
  {
    var r := Normalize(s);
    StripOfTrimmed(r);
    assert Strip(r) == r;
    LowerOfLowerCase(r);
    assert RemoveSpaces(r) == r;
  }

  /** `re.fullmatch(r"day\d+", c)`: "day" followed by one or more digits. */
  predicate IsDayColumn(c: string)
  {
    |c| >= 4 && c[..3] == "day" && AllDigits(c[3..])
  }

  /** A day column name is already normalised, so the header scan sees every
      day column of the file as written. */
  lemma DayColumnIsNormal(c: string)
    requires IsDayColumn(c)
    ensures Normalize(c) == c
  {
    assert forall k | 3 <= k < |c| :: IsDigit(c[k]) by {
      forall k | 3 <= k < |c|
        ensures IsDigit(c[k])
      {
        assert c[3..][k - 3] == c[k];
      }
    }
    assert c[0] == 'd' && c[1] == 'a' && c[2] == 'y';
    StripOfTrimmed(c);
    LowerOfLowerCase(c);
  }

  type DayColumn = c: string | IsDayColumn(c) witness "day1"

  /** `int(c.replace("day", ""))`: in a day column "day" occurs only as the
      prefix, so this is the value of the digits after it. Without a leading
      zero the column is exactly `"day" + str(n)` of its number n. */
  function DayNumber(c: DayColumn): (n: nat)
    ensures c[3] != '0' || |c| == 4 ==> c == "day" + NatToString(n)
  {
    var digits := c[3..];
    assert c == c[..3] + digits;
    if c[3] != '0' || |c| == 4 then
      NatToStringOfDigits(digits);
      DigitsValue(digits)
    else
      DigitsValue(digits)
  }

  /** `[c for c in columns if re.fullmatch(r"day\d+", c)]`. */
  function DayColumnsOf(columns: seq<string>): (r: seq<DayColumn>)
    ensures |r| <= |columns|
    ensures forall c :: c in r <==> c in columns && IsDayColumn(c)
  {
    if columns == [] then []
    else
      var rest := DayColumnsOf(columns[1..]);
      assert forall c :: c in columns <==> c == columns[0] || c in columns[1..];
      if IsDayColumn(columns[0]) then
        var c: DayColumn := columns[0];
        [c] + rest
      else rest
  }

  /** The filter keeps one header at a time: a day column stays, any other
      name goes. */
  lemma DayColumnsOfOne(c: string)
    ensures DayColumnsOf([c]) == if IsDayColumn(c) then [c] else []
  {
    assert [c][1..] == [];
  }

  /** The filter works piece by piece, so the day columns keep their header
      order and their repetitions. */
  lemma {:induction false} DayColumnsOfAppend(a: seq<string>, b: seq<string>)
    ensures DayColumnsOf(a + b) == DayColumnsOf(a) + DayColumnsOf(b)
    decreases |a|
  {
    if a == [] {
      assert a + b == b;
    } else {
      var x, rest := a[0], a[1..];
      assert (a + b)[0] == x && (a + b)[1..] == rest + b;
      DayColumnsOfAppend(rest, b);
    }
  }

  /** Each day column occurs in the result as often as in the header. */
  lemma {:induction false} DayColumnsOfCounts(columns: seq<string>)
    ensures forall c: DayColumn :: multiset(DayColumnsOf(columns))[c] == multiset(columns)[c]
    decreases |columns|
  {
    if columns != [] {
      var x, rest := columns[0], columns[1..];
      assert columns == [x] + rest;
      DayColumnsOfCounts(rest);
      DayColumnsOfAppend([x], rest);
      DayColumnsOfOne(x);
    }
  }

  /** The day columns of a header row in the order `day_cols.sort(key=...)`
      leaves them: by day number, ties in header order. */
  function DetectedDays(columns: seq<string>): seq<DayColumn>
  {
    SortBy(DayColumnsOf(columns), DayNumber)
  }

  /** The detected days are exactly the day columns of the header row, each as
      often as it occurs there, in ascending numeric order; columns with the
      same number (such as "day3" and "day03") keep their header order. */
  lemma DetectedDaysProperties(columns: seq<string>)
    ensures var r := DetectedDays(columns);
      && (forall c :: c in r <==> c in columns && IsDayColumn(c))
      && multiset(r) == multiset(DayColumnsOf(columns))
      && (forall c: DayColumn :: multiset(r)[c] == multiset(columns)[c])
      && SortedBy(r, DayNumber)
      && (forall n: nat :: WithKey(r, DayNumber, n) == WithKey(DayColumnsOf(columns), DayNumber, n))
  {
    DetectedDaysElements(columns);
    DayColumnsOfCounts(columns);
    SortByProperties(DayColumnsOf(columns), DayNumber);
    DetectedDaysStable(columns);
  }

  lemma DetectedDaysElements(columns: seq<string>)
    ensures var r := DetectedDays(columns);
      && (forall c :: c in r <==> c in columns && IsDayColumn(c))
      && multiset(r) == multiset(DayColumnsOf(columns))
  {
    var found := DayColumnsOf(columns);
    SortByProperties(found, DayNumber);
    assert forall c :: c in DetectedDays(columns) <==> c in multiset(found);
  }

  lemma DetectedDaysStable(columns: seq<string>)
    ensures forall n: nat :: WithKey(DetectedDays(columns), DayNumber, n) == WithKey(DayColumnsOf(columns), DayNumber, n)
  {
    forall n: nat
      ensures WithKey(DetectedDays(columns), DayNumber, n) == WithKey(DayColumnsOf(columns), DayNumber, n)
    {
      SortByStable(DayColumnsOf(columns), DayNumber, n);
    }
  }

  /** Detects the day columns of a (normalised) header row, sorts them in
      place by day number, and returns them with their day numbers
      (`day_cols` and `day_numbers`). */
  method DetectDayColumns(columns: seq<string>) returns (dayColumns: seq<DayColumn>, dayNumbers: seq<nat>)
    ensures dayColumns == DetectedDays(columns)
    ensures |dayNumbers| == |dayColumns|
    ensures forall i | 0 <= i < |dayColumns| :: dayNumbers[i] == DayNumber(dayColumns[i])
  {
    var found := DayColumnsOf(columns);
    var a := new DayColumn[|found|](k requires 0 <= k < |found| => found[k]);
    assert a[..] == found;
    SortInPlace(a, DayNumber);
    dayColumns := a[..];
    dayNumbers := seq(|dayColumns|, k requires 0 <= k < |dayColumns| => DayNumber(dayColumns[k]));
  }
}
