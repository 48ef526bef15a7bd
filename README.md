# Fantasy T20 tracker: scoring and ranking engine

This project models the computing core of the Fantasy T20 tracker dashboard
(`app.py`) in Dafny and proves properties of that model. It starts once the
roster table is in memory and covers:

- Normalising the column names: strip, lower-case, remove spaces.
- Detecting the `day<N>` columns and sorting them by day number.
- `calculate_points(upto_day)`: the running total of each player over days
  `1..upto_day`. The raw score is coerced to a number (0 when it is not one) and
  multiplied by 2.0 for a captain (`c_day<d> == 1`) or by 1.5 for a vice-captain
  (`vc_day<d> == 1`).
- The team table: one row per owner with the sum of that owner's player
  points. Rows are ranked with `rank(ascending=False, method="min")` and
  sorted by rank.
- The headline figures:
  - the number of teams;
  - the top team;
  - the total of all team points;
  - the top player, who has the largest summed points.

Modules, in dependency order:

- `Decimal` holds decimal digit strings. It covers `f"day{d}"` and
  `int("…")`.
- `Cells` models the table cells `Num | Text | Missing`, `to_numeric(errors="coerce").fillna(0)`
  and the flag test `== 1`.
- `Frames` models a rectangular column-oriented table (`Frame`), column
  assignment and the KeyError/IndexError lookups.
- `Sorting` holds a stable sort by an integer key (`SortBy`) and an in-place
  insertion sort on an array proved equal to it.
- `Columns` covers name normalisation and day-column detection.
- `Scoring` covers `calculate_points`. The model is imperative where the
  source is:
  - the day loop over a running-total array;
  - masked assignment into the multiplier array;
  - the element-wise `+=`.

  These are proved against the recursive specification `CumulativePoints`.
- `Grouping` covers `groupby(key)[...].sum()`.
- `Ranking` covers the team table, competition ranks, the headline figures
  and the top player.

Scores are `real`, so the sums carry no floating-point rounding. A cell read
from the CSV is a number, a text or missing (NaN).

When both flags are 1 the vice-captain assignment runs last (app.py:92-95),
so the multiplier is 1.5; see `Scoring.Multiplier`.

## Model

| member | source | states |
|---|---|---|
| Columns.NormalizeColumns | app.py:35-40 | every header is replaced by its normalised form, positions and count kept |
| Columns.TrimStart | app.py:37 | drops exactly the leading run of Python whitespace; the result starts with a non-space |
| Columns.TrimEnd | app.py:37 | drops exactly the trailing run of Python whitespace; the result ends with a non-space |
| Columns.Lower | app.py:38 | same length, each A-Z letter mapped to its lower case, every other character kept |
| Columns.RemoveSpaces | app.py:39 | the result has no ' ', and is the input itself when it had no ' ' |
| Columns.RemoveSpacesKeepsOthers | app.py:39 | the result holds every character of the input other than ' ', each as often as the input does, and nothing else |
| Columns.RemoveSpacesAppend | app.py:39 | removing spaces from a concatenation concatenates the results; with the one-character case this fixes the result to the non-space characters in their order |
| Columns.Normalize | app.py:35-40 | strip, lower-case, remove spaces: the normalised name has no space, no upper-case letter and no whitespace at either end |
| Columns.NormalizeIdempotent | app.py:35-40 | normalising a column name twice gives the same result as once |
| Columns.DayColumnIsNormal | app.py:35-45 | a name matching `day\d+` is already normalised, so the scan of the normalised header finds every day column as written in the file |
| Columns.DayNumber | app.py:50-51 | `int(c.replace("day", ""))` of a day column without a leading zero is the number n with `c == "day" + str(n)` |
| Columns.DayColumnsOf | app.py:45 | keeps exactly the names that are "day" followed by one or more digits, and never more names than the header has |
| Columns.DayColumnsOfAppend | app.py:45 | the scan of a concatenated header is the concatenation of the scans, so the day columns keep their header order |
| Columns.DayColumnsOfCounts | app.py:45 | each day column occurs in the scan as often as in the header |
| Columns.DetectedDaysProperties | app.py:45-51 | the detected days are exactly the header's day columns, each as often as in the header, in ascending numeric order, with equal numbers kept in header order |
| Columns.DetectDayColumns | app.py:45-51 | the in-place sort of the detected columns yields the stably sorted day columns, and `day_numbers[i]` is the number of `day_cols[i]` |
| Sorting.SortByProperties | app.py:50 | the sort by key is ordered by key, a permutation of its input, and the same length |
| Sorting.SortByStable | app.py:50 | elements with equal keys keep their relative order |
| Sorting.InsertInPlace | app.py:50 | one insertion step on the array places element i into the sorted prefix and leaves the rest untouched |
| Sorting.SortInPlace | app.py:50 | sorting the list in place leaves the array equal to the stable sort of its old contents |
| Decimal.NatToString | app.py:79-81 | `str(d)` is a non-empty digit string that starts with '0' only for 0 |
| Decimal.DigitsValueOfNatToString | app.py:51 | `int(str(d)) == d` |
| Decimal.NatToStringOfDigits | app.py:51 | a digit string without a leading zero is `str` of its own value |
| Cells.ParseNumber | app.py:86-88 | a plain digit string reads as its decimal value |
| Cells.ToNumber | app.py:86-88 | a number is kept, a numeric text gives its value, and a missing value or non-numeric text gives 0 |
| Cells.ParsedTextIsNumeral | app.py:86-88 | only a text of digits and at most one '.', with at least one digit, after an optional sign, is read as a number |
| Cells.IsOneIsNumericOne | app.py:93-95 | a flag cell equals 1 exactly when it is a number that coerces to 1; a text or a missing value never does |
| Cells.ParseNatToString | app.py:86-88 | the text of a whole number is read back as that number |
| Frames.SetColumn | app.py:76 | `temp["player_points"] = …` replaces or appends that one column and leaves every other column unchanged |
| Scoring.DayColumnNameIsDayColumn | app.py:79 | `f"day{d}"` is a day column whose number is d, with a leading '0' only for day 0 |
| Scoring.Multiplier | app.py:90-95 | the multiplier is 1.5 iff the vice-captain flag is exactly 1. It is 2.0 iff the captain flag is 1 and the vice-captain flag is not. Otherwise it is 1.0, including flags other than exactly 1 and absent flag columns |
| Scoring.DayPoints | app.py:83-88 | a day whose `day<d>` column is absent contributes 0, and a non-numeric or missing score contributes 0 whatever the multiplier |
| Scoring.AssignWhereOne | app.py:92-95 | `multiplier[flags == 1] = v` sets exactly the rows whose flag is 1 and keeps the others |
| Scoring.AddProducts | app.py:97 | `player_points += points * multiplier` adds each row's product to that row only |
| Scoring.ScoreDay | app.py:78-97 | one pass of the day loop adds that day's points of every row to the running total |
| Scoring.DayPointsIgnorePlayerPoints | app.py:76-88 | setting the `player_points` column changes no day's points |
| Scoring.AccumulateDays | app.py:78-97 | the day loop, starting from 0.0 and adding each day 1..upto_day in turn, ends with every row's running total |
| Scoring.CumulativeIgnoresPlayerPoints | app.py:76-97 | the zeroed `player_points` column of the copy changes no running total |
| Scoring.ScoredFrameShape | app.py:75-99 | the scored table keeps the row count and every other column, appends `player_points` when absent, and holds each row's running total there |
| Scoring.CalculatePoints | app.py:74-99 | returns the scored copy. Every other column and the row count are unchanged, `player_points` is appended if it was absent, and each row's points are its running total over days 1..upto_day |
| Scoring.AbsentDaysScoreNothing | app.py:76-84 | totals start at 0.0: a row scores 0 when no day 1..upto has its column, in particular when upto < 1 |
| Scoring.CumulativePoints | app.py:76-97 | with non-negative scores every running total is at least 0 |
| Scoring.CumulativeMonotone | app.py:76-97 | with non-negative scores the running total never decreases as upto_day grows |
| Scoring.CumulativeLocal | app.py:78-97 | a row's total depends only on its `day<d>`, `c_day<d>` and `vc_day<d>` cells for d in 1..upto |
| Scoring.ScoringReadsDayColumn | app.py:78-84 | the loop looks up a header `day<N>` iff it is a day column whose digits do not start with '0' |
| Scoring.UnreadColumnIgnored | app.py:78-97 | adding a column the loop never looks up changes no total |
| Scoring.LeadingZeroDayColumnIgnored | app.py:78-84 | a detected column such as "day03" contributes nothing to any total |
| Grouping.GroupKeys | app.py:150-153 | the groups are exactly the distinct non-missing keys, each once |
| Grouping.GroupTotals | app.py:150-153 | each group's total is the sum of the points of the rows with that key |
| Grouping.GroupTotalsConserve | app.py:150-159 | the group totals add up to the points of every row whose key is present |
| Grouping.SumPresentAll | app.py:150-159 | when no key is missing, the group totals account for all points |
| Ranking.MinRank | app.py:161-163 | a `method="min"` rank is at least 1, at most the number of totals for a total that occurs, and 1 exactly for a largest value |
| Ranking.RankTeams | app.py:150-165 | one row per owner group, in ascending rank order |
| Ranking.TeamTable | app.py:150-165 | a KeyError names the missing `owner_name` or `player_points` column; otherwise the table is in rank order with competition ranks |
| Ranking.LeagueSnapshot | app.py:176-178 | `iloc[0]` raises an IndexError exactly on an empty table; the team count is the row count, the top team the first row's owner and the total the sum of the team totals, and on a rank-ordered, competition-ranked table the top team has rank 1 and a largest total |
| Ranking.OwnerRowsFacts | app.py:150-163 | before sorting, the team rows are the owner groups in order, each with its owner's total and its competition rank, and no row repeats |
| Ranking.CompetitionRankOrder | app.py:161-163 | equal totals share a rank, and a strictly greater total has a strictly smaller rank and conversely. Ranks lie in 1..n, and rank 1 occurs |
| Ranking.CompetitionRankSkips | app.py:161-163 | a rank is 1 plus the number of teams ranked strictly better, so a tie of k teams makes the next rank skip by k |
| Ranking.CountAboveStrict | app.py:161-163 | a total counts among the totals above any smaller one, which is why ranks strictly separate |
| Ranking.SortKeepsCountAbove | app.py:165 | sorting by rank does not change how many totals lie above any value, so ranks computed before the sort stay valid after it |
| Ranking.SortKeepsSum | app.py:165 | sorting by rank does not change the sum of the totals |
| Ranking.SortKeepsNoDuplicates | app.py:165 | sorting keeps the rows distinct |
| Ranking.RankTeamsRanked | app.py:161-165 | the sorted team table is in ascending rank order, and each rank is 1 plus the number of teams with a strictly greater total |
| Ranking.RankTeamsOwners | app.py:150-159 | the sorted table has exactly one row per distinct present owner, with that owner's total |
| Ranking.RankTeamsConserve | app.py:150-178 | the team totals add up to the points of every row that has an owner |
| Ranking.RankTeamsProperties | app.py:150-165 | all of the above for the sorted team table |
| Ranking.FirstRowIsTop | app.py:165-177 | the first row of the rank-sorted table has rank 1 and the largest total |
| Ranking.NoOwnersIffAllMissing | app.py:150-153 | the team table is empty exactly when no row has an owner |
| Ranking.LeagueSnapshotProperties | app.py:176-178 | `iloc[0]` fails exactly when there are no owners. Otherwise the team count is the number of distinct owners, the top team has rank 1 and the largest total, and the total points are the sum over owned rows |
| Ranking.ArgMax | app.py:111-112 | picks a position holding a largest value |
| Ranking.TopPlayer | app.py:106-115 | a KeyError names a missing `player_name` or `player_points` column; otherwise `iloc[0]` raises exactly when no row names a player, and the top player is a named player whose summed points are at least every other player's |
| Ranking.TeamTableOfScoredFrame | app.py:150-165 | ranking the output of `calculate_points` succeeds and ranks owners by their sums of players' running totals |

## Left out

- Page configuration, sidebar widgets, CSS, HTML, table styling and Plotly
  charts: these are presentation only.
- Reading the CSV, the existence check and `st.stop()`. The table is a
  parameter of the model. When no day column is found, `DetectDayColumns`
  returns an empty list, and stopping the app is not modelled.
- The selected day comes from a sidebar widget. Here it is the `uptoDay`
  parameter of `Scoring.CalculatePoints`.
- Display rounding (`round(..., 1)`) and the "name (points)" strings of the
  per-owner player summary, together with its merge into the team table:
  these are formatting for display.
- Floating-point arithmetic: scores are exact reals, so sums equal their
  mathematical values.
- Ranking.TopPlayer: among players tied for the most points, pandas'
  unstable descending sort may return any of them. The model returns the
  first in group order.
- Ranking.RankTeams: pandas orders groups by sorted key and `sort_values`
  is not stable, so the order among owners with equal rank is
  unspecified. The model keeps groups in first-appearance order and sorts
  stably. Ranks, totals and membership do not depend on this choice.
- Cells.ToNumber: numeric text is limited to an optional sign, digits and
  one optional '.'. Exponents, "inf"/"nan", surrounding whitespace and
  thousands separators are not parsed. Boolean cells are not modelled.
- Cells.ParseNumber: its contract fixes the value only for plain digit
  strings. Signed and fractional numerals are read by the body, and
  ParsedTextIsNumeral bounds which texts read as numbers at all.
- Columns.Lower: lower-cases only A-Z rather than all of Unicode. The
  `\d` of the day pattern is ASCII 0-9.
- Frames.Values: a text cell in the `player_points` column reads as 0, where
  pandas would concatenate or raise. The column is only read on scored
  frames, which hold numbers alone there.
- Frames.Frame: a header repeated after normalisation is not representable.
- `config/captains.py` is a static owner-to-captain table that `app.py`
  never reads.
