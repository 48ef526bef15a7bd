// `calculate_points(upto_day)`: each player's running total over days
// 1..upto_day, with the captain (x2) and vice-captain (x1.5) multipliers
// read from the `c_day<d>` and `vc_day<d>` flag columns.
module Scoring {
  import opened Decimal
  import opened Cells
  import opened Frames
  import opened Columns

  /** The column the scoring adds to its copy of the table. */
  const PlayerPoints: string := "player_points"

  /** `f"day{d}"`, `f"c_day{d}"`, `f"vc_day{d}"`. */
  function DayColumnName(d: nat): string { "day" + NatToString(d) }
  function CaptainColumnName(d: nat): string { "c_day" + NatToString(d) }
  function ViceCaptainColumnName(d: nat): string { "vc_day" + NatToString(d) }

  /** The name built for day d is a day column whose number is d, with a
      leading '0' only for day 0. */
  lemma DayColumnNameIsDayColumn(d: nat)
    ensures IsDayColumn(DayColumnName(d)) && DayNumber(DayColumnName(d)) == d
    ensures DayColumnName(d)[3] == '0' <==> d == 0
  {
    var r := DayColumnName(d);
    assert r[..3] == "day" && r[3..] == NatToString(d);
    DigitsValueOfNatToString(d);
  }

  /** Row i has a flag column of that name holding exactly 1. */
  predicate Flagged(t: Frame, column: string, i: nat)
    requires i < t.height
  {
    column in t.data && IsOne(t.data[column][i])
  }

  /** The multiplier of row i on day d: it starts at 1.0, becomes 2.0 where the
      captain flag is 1, then becomes 1.5 where the vice-captain flag is 1.
      Because the vice-captain rule is applied last, it wins when both are set. */
  function Multiplier(t: Frame, i: nat, d: nat): (m: real)
    requires i < t.height
    ensures m == 1.5 <==> Flagged(t, ViceCaptainColumnName(d), i)
    ensures m == 2.0 <==> !Flagged(t, ViceCaptainColumnName(d), i) && Flagged(t, CaptainColumnName(d), i)
    ensures m == 1.0 <==> !Flagged(t, ViceCaptainColumnName(d), i) && !Flagged(t, CaptainColumnName(d), i)
  {
    var initial := 1.0;
    var afterCaptain := if Flagged(t, CaptainColumnName(d), i) then 2.0 else initial;
    if Flagged(t, ViceCaptainColumnName(d), i) then 1.5 else afterCaptain
  }

  /** The points row i earns on day d: its coerced raw score times its
      multiplier, or nothing when the table has no column `day<d>`. */
  function DayPoints(t: Frame, i: nat, d: nat): (p: real)
    requires i < t.height
    ensures DayColumnName(d) !in t.data ==> p == 0.0
    ensures DayColumnName(d) in t.data && NonNumeric(t.data[DayColumnName(d)][i]) ==> p == 0.0
  {
    var day := DayColumnName(d);
    if day !in t.data then 0.0 else ToNumber(t.data[day][i]) * Multiplier(t, i, d)
  }

  /** Every day score of row i up to day `upto` that the scoring reads is at least 0. */
  predicate ScoresNonNegative(t: Frame, i: nat, upto: int)
    requires i < t.height
  {
    forall d: nat | 1 <= d <= upto && DayColumnName(d) in t.data ::
      ToNumber(t.data[DayColumnName(d)][i]) >= 0.0
  }

  /** The running total of row i after days 1..upto; it is never negative
      when the scores it reads are not. */
  function CumulativePoints(t: Frame, i: nat, upto: int): (r: real)
    requires i < t.height
    ensures ScoresNonNegative(t, i, upto) ==> r >= 0.0
    decreases upto
  {
    if upto < 1 then 0.0
    else
      var m := Multiplier(t, i, upto);
      assert m == 1.0 || m == 1.5 || m == 2.0;
      CumulativePoints(t, i, upto - 1) + DayPoints(t, i, upto)
  }

  /** The `player_points` column after days 1..upto. */
  function PointsColumn(t: Frame, upto: int): (r: seq<real>)
    ensures |r| == t.height
    ensures forall i | 0 <= i < t.height :: r[i] == CumulativePoints(t, i, upto)
  {
    seq(t.height, i requires 0 <= i < t.height => CumulativePoints(t, i, upto))
  }

  /** The table `calculate_points(upto)` returns: the input with the
      `player_points` column set. */
  function ScoredFrame(t: Frame, upto: int): Frame
  {
    SetColumn(t, PlayerPoints, Nums(PointsColumn(t, upto)))
  }

  lemma ScoringColumnsAreNotPlayerPoints(d: nat)
    ensures DayColumnName(d) != PlayerPoints
    ensures CaptainColumnName(d) != PlayerPoints
    ensures ViceCaptainColumnName(d) != PlayerPoints
  {
    assert DayColumnName(d)[0] == 'd';
    assert CaptainColumnName(d)[0] == 'c';
    assert ViceCaptainColumnName(d)[0] == 'v';
  }

  /** `multiplier[flags == 1] = value`. */
  method AssignWhereOne(multiplier: array<real>, flags: seq<Cell>, value: real)
    requires |flags| == multiplier.Length
    modifies multiplier
    ensures forall k | 0 <= k < multiplier.Length ::
      multiplier[k] == if IsOne(flags[k]) then value else old(multiplier[k])
  {
    var k := 0;
    while k < multiplier.Length
      invariant 0 <= k <= multiplier.Length
      invariant forall j | 0 <= j < k :: multiplier[j] == if IsOne(flags[j]) then value else old(multiplier[j])
      invariant forall j | k <= j < multiplier.Length :: multiplier[j] == old(multiplier[j])
    {
      if IsOne(flags[k]) {
        multiplier[k] := value;
      }
      k := k + 1;
    }
  }

  /** `player_points += points * multiplier`, element by element. */
  method AddProducts(total: array<real>, points: seq<real>, multiplier: array<real>)
    requires |points| == total.Length == multiplier.Length
    requires total != multiplier
    modifies total
    ensures forall k | 0 <= k < total.Length :: total[k] == old(total[k]) + points[k] * multiplier[k]
  {
    var k := 0;
    while k < total.Length
      invariant 0 <= k <= total.Length
      invariant forall j | 0 <= j < k :: total[j] == old(total[j]) + points[j] * multiplier[j]
      invariant forall j | k <= j < total.Length :: total[j] == old(total[j])
    {
      total[k] := total[k] + points[k] * multiplier[k];
      k := k + 1;
    }
  }

  /** One pass of the day loop: adds day d's points of every row to `total`. */
  method ScoreDay(temp: Frame, d: nat, total: array<real>)
    requires total.Length == temp.height
    modifies total
    ensures forall i | 0 <= i < temp.height :: total[i] == old(total[i]) + DayPoints(temp, i, d)
  {
    var dayColumn := "day" + NatToString(d);
    var captainColumn := "c_day" + NatToString(d);
    var viceColumn := "vc_day" + NatToString(d);
    if dayColumn !in temp.columns {
      return;
    }
    var points := seq(temp.height, i requires 0 <= i < temp.height => ToNumber(temp.data[dayColumn][i]));
    var multiplier := new real[temp.height](_ => 1.0);
    if captainColumn in temp.columns {
      AssignWhereOne(multiplier, temp.data[captainColumn], 2.0);
    }
    if viceColumn in temp.columns {
      AssignWhereOne(multiplier, temp.data[viceColumn], 1.5);
    }
    assert forall i | 0 <= i < temp.height :: multiplier[i] == Multiplier(temp, i, d);
    AddProducts(total, points, multiplier);
  }

  /** Setting the `player_points` column changes no day's points. */
  lemma DayPointsIgnorePlayerPoints(t: Frame, cells: seq<Cell>, i: nat, d: nat)
    requires |cells| == t.height && i < t.height
    ensures DayPoints(SetColumn(t, PlayerPoints, cells), i, d) == DayPoints(t, i, d)
  {
    ScoringColumnsAreNotPlayerPoints(d);
  }

  /** Setting a column twice is setting it to the second value. */
  lemma SetColumnTwice(t: Frame, name: string, first: seq<Cell>, second: seq<Cell>)
    requires |first| == |second| == t.height
    ensures SetColumn(SetColumn(t, name, first), name, second) == SetColumn(t, name, second)
  {
    var u := SetColumn(t, name, first);
    assert u.data[name := second] == t.data[name := second];
  }

  /** The scored table differs from the input only in its `player_points`
      column, appended when absent, which holds each row's running total. */
  lemma ScoredFrameShape(df: Frame, upto: int)
    ensures var r := ScoredFrame(df, upto);
      && r.height == df.height
      && r.columns == (if PlayerPoints in df.data then df.columns else df.columns + [PlayerPoints])
      && (forall c | c in df.data && c != PlayerPoints :: c in r.data && r.data[c] == df.data[c])
      && PlayerPoints in r.data && |r.data[PlayerPoints]| == df.height
      && (forall i | 0 <= i < df.height :: r.data[PlayerPoints][i] == Num(CumulativePoints(df, i, upto)))
  {
  }

  /** Setting the `player_points` column changes no running total. */
  lemma {:induction false} CumulativeIgnoresPlayerPoints(t: Frame, cells: seq<Cell>, i: nat, upto: int)
    requires |cells| == t.height && i < t.height
    ensures CumulativePoints(SetColumn(t, PlayerPoints, cells), i, upto) == CumulativePoints(t, i, upto)
    decreases upto
  {
    if upto >= 1 {
      CumulativeIgnoresPlayerPoints(t, cells, i, upto - 1);
      DayPointsIgnorePlayerPoints(t, cells, i, upto);
    }
  }

  /** The day loop: starting from 0.0, adds the points of days 1..uptoDay
      to every row's running total. */
  method AccumulateDays(temp: Frame, uptoDay: int) returns (points: seq<real>)
    ensures points == PointsColumn(temp, uptoDay)
  {
    var total := new real[temp.height](_ => 0.0);
    var d := 1;
    while d <= uptoDay
      invariant 1 <= d <= (if uptoDay < 1 then 1 else uptoDay + 1)
      invariant forall i | 0 <= i < temp.height :: total[i] == CumulativePoints(temp, i, d - 1)
    {
      ScoreDay(temp, d, total);
      d := d + 1;
    }
    points := total[..];
  }

  /** `calculate_points(upto_day)`: works on a copy of the table, sets its
      `player_points` column to 0.0, then adds each present day's points in
      turn. The result differs from the input only in that column. */
  method CalculatePoints(df: Frame, uptoDay: int) returns (temp: Frame)
    ensures temp == ScoredFrame(df, uptoDay)
    ensures temp.height == df.height
    ensures temp.columns == if PlayerPoints in df.data then df.columns else df.columns + [PlayerPoints]
    ensures forall c | c in df.data && c != PlayerPoints :: c in temp.data && temp.data[c] == df.data[c]
    ensures PlayerPoints in temp.data && |temp.data[PlayerPoints]| == df.height
    ensures forall i | 0 <= i < df.height ::
      temp.data[PlayerPoints][i] == Num(CumulativePoints(df, i, uptoDay))
  {
    var zeros := Nums(seq(df.height, _ => 0.0));
    var copy := SetColumn(df, PlayerPoints, zeros);
    var points := AccumulateDays(copy, uptoDay);
    forall i | 0 <= i < df.height
      ensures points[i] == CumulativePoints(df, i, uptoDay)
    {
      CumulativeIgnoresPlayerPoints(df, zeros, i, uptoDay);
    }
    assert points == PointsColumn(df, uptoDay);
    temp := SetColumn(copy, PlayerPoints, Nums(points));
    SetColumnTwice(df, PlayerPoints, zeros, Nums(points));
    ScoredFrameShape(df, uptoDay);
  }

  /** Every total starts at 0.0: a row scores nothing when none of the days
      1..upto has its `day<d>` column, and in particular when upto < 1. */
  lemma {:induction false} AbsentDaysScoreNothing(t: Frame, i: nat, upto: int)
    requires i < t.height
    requires forall d: nat | 1 <= d <= upto :: DayColumnName(d) !in t.data
    ensures CumulativePoints(t, i, upto) == 0.0
    decreases upto
  {
    if upto >= 1 {
      AbsentDaysScoreNothing(t, i, upto - 1);
    }
  }

  /** With non-negative scores the running total never decreases from one day
      boundary to a later one. */
  lemma {:induction false} CumulativeMonotone(t: Frame, i: nat, d1: int, d2: int)
    requires i < t.height && d1 <= d2
    requires ScoresNonNegative(t, i, d2)
    ensures CumulativePoints(t, i, d1) <= CumulativePoints(t, i, d2)
    decreases d2 - d1
  {
    if d1 < d2 {
      CumulativeMonotone(t, i, d1, d2 - 1);
      if d2 >= 1 {
        var m := Multiplier(t, i, d2);
        assert m == 1.0 || m == 1.5 || m == 2.0;
        assert DayPoints(t, i, d2) >= 0.0;
      }
    }
  }

  /** Row i of t and row j of u agree on column `name`: both have it with the
      same cell, or neither has it. */
  predicate SameCell(t: Frame, i: nat, u: Frame, j: nat, name: string)
    requires i < t.height && j < u.height
  {
    (name in t.data <==> name in u.data) && (name in t.data ==> t.data[name][i] == u.data[name][j])
  }

  /** The two rows agree on every column the scoring looks up for days 1..upto. */
  predicate AgreeOnScoringColumns(t: Frame, i: nat, u: Frame, j: nat, upto: int)
    requires i < t.height && j < u.height
  {
    forall d: nat | 1 <= d <= upto ::
      && SameCell(t, i, u, j, DayColumnName(d))
      && SameCell(t, i, u, j, CaptainColumnName(d))
      && SameCell(t, i, u, j, ViceCaptainColumnName(d))
  }

  /** A row's total after day `upto` depends only on the `day<d>`, `c_day<d>`
      and `vc_day<d>` columns for d in 1..upto. */
  lemma {:induction false} CumulativeLocal(t: Frame, i: nat, u: Frame, j: nat, upto: int)
    requires i < t.height && j < u.height
    requires AgreeOnScoringColumns(t, i, u, j, upto)
    ensures CumulativePoints(t, i, upto) == CumulativePoints(u, j, upto)
    decreases upto
  {
    if upto >= 1 {
      CumulativeLocal(t, i, u, j, upto - 1);
      DayPointsLocal(t, i, u, j, upto);
    }
  }

  lemma DayPointsLocal(t: Frame, i: nat, u: Frame, j: nat, d: nat)
    requires i < t.height && j < u.height
    requires SameCell(t, i, u, j, DayColumnName(d))
    requires SameCell(t, i, u, j, CaptainColumnName(d))
    requires SameCell(t, i, u, j, ViceCaptainColumnName(d))
    ensures DayPoints(t, i, d) == DayPoints(u, j, d)
  {
    MultiplierLocal(t, i, u, j, d);
  }

  lemma MultiplierLocal(t: Frame, i: nat, u: Frame, j: nat, d: nat)
    requires i < t.height && j < u.height
    requires SameCell(t, i, u, j, CaptainColumnName(d))
    requires SameCell(t, i, u, j, ViceCaptainColumnName(d))
    ensures Multiplier(t, i, d) == Multiplier(u, j, d)
  {
    FlaggedLocal(t, i, u, j, CaptainColumnName(d));
    FlaggedLocal(t, i, u, j, ViceCaptainColumnName(d));
  }

  lemma FlaggedLocal(t: Frame, i: nat, u: Frame, j: nat, name: string)
    requires i < t.height && j < u.height && SameCell(t, i, u, j, name)
    ensures Flagged(t, name, i) == Flagged(u, name, j)
  {
  }

  /** The scoring loop reads a column `day<N>` exactly when the name is a day
      column whose digits do not start with 0: it builds the name `f"day{d}"`
      for d = 1, 2, ..., so a header such as "day03" (or "day0") is never read. */
  lemma ScoringReadsDayColumn(c: string)
    ensures (exists d: nat :: d >= 1 && DayColumnName(d) == c) <==> IsDayColumn(c) && c[3] != '0'
  {
    if IsDayColumn(c) && c[3] != '0' {
      var digits := c[3..];
      NatToStringOfDigits(digits);
      var d := DigitsValue(digits);
      assert c == c[..3] + digits;
      assert DayColumnName(d) == c;
    }
    if exists d: nat :: d >= 1 && DayColumnName(d) == c {
      var d: nat :| d >= 1 && DayColumnName(d) == c;
      assert c[3..] == NatToString(d);
    }
  }

  /** Adding a column the scoring never reads (one that is not `day<d>`,
      `c_day<d>` or `vc_day<d>` for any d >= 1) leaves every total unchanged. */
  lemma {:induction false} UnreadColumnIgnored(t: Frame, name: string, cells: seq<Cell>, i: nat, upto: int)
    requires |cells| == t.height && i < t.height && name !in t.data
    requires forall d: nat | d >= 1 ::
      DayColumnName(d) != name && CaptainColumnName(d) != name && ViceCaptainColumnName(d) != name
    ensures CumulativePoints(SetColumn(t, name, cells), i, upto) == CumulativePoints(t, i, upto)
  {
    var u := SetColumn(t, name, cells);
    forall d: nat | 1 <= d <= upto
      ensures SameCell(u, i, t, i, DayColumnName(d))
      ensures SameCell(u, i, t, i, CaptainColumnName(d))
      ensures SameCell(u, i, t, i, ViceCaptainColumnName(d))
    {
      assert u.data == t.data[name := cells];
    }
    CumulativeLocal(u, i, t, i, upto);
  }

  /** In particular a day column with a leading zero, such as "day03", is
      detected by the header scan but contributes nothing to any total. */
  lemma LeadingZeroDayColumnIgnored(t: Frame, name: string, cells: seq<Cell>, i: nat, upto: int)
    requires |cells| == t.height && i < t.height && name !in t.data
    requires IsDayColumn(name) && name[3] == '0'
    ensures CumulativePoints(SetColumn(t, name, cells), i, upto) == CumulativePoints(t, i, upto)
  {
    ScoringReadsDayColumn(name);
    forall d: nat | d >= 1
      ensures DayColumnName(d) != name && CaptainColumnName(d) != name && ViceCaptainColumnName(d) != name
    {
      assert CaptainColumnName(d)[0] == 'c' && ViceCaptainColumnName(d)[0] == 'v' && name[0] == 'd';
    }
    UnreadColumnIgnored(t, name, cells, i, upto);
  }
}
