// The league table and the headline figures: owner totals ranked with
// `rank(ascending=False, method="min")` and sorted by rank, the top team,
// the total of all team points, and the top player.
module Ranking {
  import opened Cells
  import opened Frames
  import opened Sorting
  import opened Grouping
  import opened Scoring

  const OwnerName: string := "owner_name"
  const PlayerName: string := "player_name"

  /** One row of the team table: owner, total points, rank. */
  datatype TeamRow = TeamRow(owner: Cell, total: real, rank: nat)

  /** `Series.rank(ascending=False, method="min")` of a value v of s: the
      values are ranked from the largest down, and a group of equal values
      gets the lowest of the positions it occupies, i.e. one more than the
      number of strictly larger values. */
  function MinRank(s: seq<real>, v: real): (r: nat)
    ensures r >= 1
    ensures v in s ==> r <= |s|
    ensures r == 1 <==> forall k | 0 <= k < |s| :: s[k] <= v
  {
    CountAboveZero(s, v);
    if v in s then
      CountAboveMember(s, v);
      1 + CountAbove(s, v)
    else
      1 + CountAbove(s, v)
  }

  /** The owner totals in group order, each with its rank (`team_df` before sorting). */
  function OwnerRows(keys: seq<Cell>, points: seq<real>): (r: seq<TeamRow>)
    requires |keys| == |points|
    ensures |r| == |GroupKeys(keys)|
  {
    var owners := GroupKeys(keys);
    var totals := GroupTotals(owners, keys, points);
    seq(|owners|, j requires 0 <= j < |owners| => TeamRow(owners[j], totals[j], MinRank(totals, totals[j])))
  }

  function RankKey(row: TeamRow): int
  {
    row.rank
  }

  /** `team_df.sort_values("Rank")`: one row per owner, in ascending rank. */
  function RankTeams(keys: seq<Cell>, points: seq<real>): (r: seq<TeamRow>)
    requires |keys| == |points|
    ensures |r| == |GroupKeys(keys)|
    ensures SortedBy(r, RankKey)
  {
    SortByProperties(OwnerRows(keys, points), RankKey);
    SortBy(OwnerRows(keys, points), RankKey)
  }

  /** The team table of a scored frame; grouping by a column the frame lacks
      raises a KeyError naming the first one missing. Otherwise the table is
      in ascending rank order with competition ranks. */
  function TeamTable(scored: Frame): (r: Result<seq<TeamRow>>)
    ensures OwnerName !in scored.data ==> r == Err(KeyError(OwnerName))
    ensures OwnerName in scored.data && PlayerPoints !in scored.data ==> r == Err(KeyError(PlayerPoints))
    ensures r.Ok? <==> OwnerName in scored.data && PlayerPoints in scored.data
    ensures r.Ok? ==> SortedBy(r.value, RankKey) && CompetitionRanked(r.value)
  {
    if OwnerName !in scored.data then Err(KeyError(OwnerName))
    else if PlayerPoints !in scored.data then Err(KeyError(PlayerPoints))
    else
      RankTeamsRanked(scored.data[OwnerName], Values(scored.data[PlayerPoints]));
      Ok(RankTeams(scored.data[OwnerName], Values(scored.data[PlayerPoints])))
  }

  /** The "Total Points" column of a team table. */
  function TotalsOf(rows: seq<TeamRow>): (r: seq<real>)
    ensures |r| == |rows| && forall j | 0 <= j < |rows| :: r[j] == rows[j].total
    decreases |rows|
  {
    if rows == [] then [] else TotalsOf(rows[..|rows| - 1]) + [rows[|rows| - 1].total]
  }

  /** The headline figures: number of teams, the first team of the sorted
      table, and the sum of all team totals. */
  datatype Snapshot = Snapshot(totalTeams: nat, topTeam: Cell, totalPoints: real)

  /** `team_df.shape[0]`, `team_df.iloc[0]["Owner"]` and
      `team_df["Total Points"].sum()`; `.iloc[0]` of an empty table raises an
      IndexError. On a table in rank order with competition ranks the top
      team has rank 1 and a largest total. */
  function LeagueSnapshot(teams: seq<TeamRow>): (r: Result<Snapshot>)
    ensures r.Err? <==> teams == []
    ensures r.Err? ==> r.error == IndexError
    ensures r.Ok? ==> r.value.totalTeams == |teams| && r.value.topTeam == teams[0].owner
    ensures r.Ok? ==> r.value.totalPoints == Sum(TotalsOf(teams))
    ensures r.Ok? && SortedBy(teams, RankKey) && CompetitionRanked(teams) ==>
      teams[0].rank == 1 && forall i | 0 <= i < |teams| :: teams[i].total <= teams[0].total
  {
    if teams == [] then Err(IndexError)
    else
      RankedFirstRow(teams);
      Ok(Snapshot(|teams|, teams[0].owner, Sum(TotalsOf(teams))))
  }

  lemma RankedFirstRow(teams: seq<TeamRow>)
    requires teams != []
    ensures SortedBy(teams, RankKey) && CompetitionRanked(teams) ==>
      teams[0].rank == 1 && forall i | 0 <= i < |teams| :: teams[i].total <= teams[0].total
  {
    if SortedBy(teams, RankKey) && CompetitionRanked(teams) {
      FirstRowIsTop(teams);
    }
  }

  // ---- counting strictly larger values ----

  lemma {:induction false} CountAboveMonotone(s: seq<real>, a: real, b: real)
    requires b <= a
    ensures CountAbove(s, a) <= CountAbove(s, b)
    decreases |s|
  {
    if s != [] {
      CountAboveMonotone(s[..|s| - 1], a, b);
    }
  }

  /** A value of s counts itself among the values above any smaller value. */
  lemma {:induction false} CountAboveStrict(s: seq<real>, a: real, b: real)
    requires b < a && a in s
    ensures CountAbove(s, a) < CountAbove(s, b)
    decreases |s|
  {
    var init := s[..|s| - 1];
    assert s == init + [s[|s| - 1]];
    if a in init {
      CountAboveStrict(init, a, b);
    } else {
      CountAboveMonotone(init, a, b);
    }
  }

  lemma {:induction false} CountAboveZero(s: seq<real>, v: real)
    ensures CountAbove(s, v) == 0 <==> forall k | 0 <= k < |s| :: s[k] <= v
    decreases |s|
  {
    if s != [] {
      CountAboveZero(s[..|s| - 1], v);
      assert forall k | 0 <= k < |s| - 1 :: s[..|s| - 1][k] == s[k];
    }
  }

  // ---- competition ranking ----

  /** Every row's rank is one more than the number of rows with a strictly
      larger total. */
  ghost predicate CompetitionRanked(rows: seq<TeamRow>)
  {
    forall i | 0 <= i < |rows| :: rows[i].rank == MinRank(TotalsOf(rows), rows[i].total)
  }

  /** In a competition-ranked table equal totals share a rank, a strictly
      larger total has a strictly smaller rank and conversely, ranks lie in
      1..n, and some row has rank 1. */
  lemma CompetitionRankOrder(rows: seq<TeamRow>)
    requires CompetitionRanked(rows)
    ensures forall i, j | 0 <= i < |rows| && 0 <= j < |rows| ::
      rows[i].total == rows[j].total ==> rows[i].rank == rows[j].rank
    ensures forall i, j | 0 <= i < |rows| && 0 <= j < |rows| ::
      rows[i].total > rows[j].total <==> rows[i].rank < rows[j].rank
    ensures forall i | 0 <= i < |rows| :: 1 <= rows[i].rank <= |rows|
    ensures rows != [] ==> exists i | 0 <= i < |rows| :: rows[i].rank == 1
  {
    var totals := TotalsOf(rows);
    forall i, j | 0 <= i < |rows| && 0 <= j < |rows|
      ensures rows[i].total > rows[j].total <==> rows[i].rank < rows[j].rank
    {
      assert rows[i].total == totals[i] && rows[j].total == totals[j];
      if rows[i].total > rows[j].total {
        CountAboveStrict(totals, totals[i], totals[j]);
      } else {
        CountAboveMonotone(totals, totals[j], totals[i]);
      }
    }
    forall i | 0 <= i < |rows|
      ensures rows[i].rank <= |rows|
    {
      CountAboveBound(totals, rows[i].total, i);
    }
    if rows != [] {
      var j := ArgMax(totals);
      CountAboveZero(totals, totals[j]);
    }
  }

  /** A value of s is never above itself, so fewer than |s| values are above it. */
  lemma {:induction false} CountAboveBound(s: seq<real>, v: real, i: nat)
    requires i < |s| && s[i] == v
    ensures CountAbove(s, v) < |s|
    decreases |s|
  {
    var init := s[..|s| - 1];
    if i < |s| - 1 {
      CountAboveBound(init, v, i);
    } else {
      CountAboveAtMost(init, v);
    }
  }

  lemma CountAboveMember(s: seq<real>, v: real)
    requires v in s
    ensures CountAbove(s, v) < |s|
  {
    var i :| 0 <= i < |s| && s[i] == v;
    CountAboveBound(s, v, i);
  }

  lemma {:induction false} CountAboveAtMost(s: seq<real>, v: real)
    ensures CountAbove(s, v) <= |s|
    decreases |s|
  {
    if s != [] {
      CountAboveAtMost(s[..|s| - 1], v);
    }
  }

  /** Competition ranks also count the rows of strictly better rank: a rank
      skips by the size of the tie group above it. */
  lemma CompetitionRankSkips(rows: seq<TeamRow>, i: nat)
    requires CompetitionRanked(rows) && i < |rows|
    ensures rows[i].rank == 1 + |set j | 0 <= j < |rows| && rows[j].rank < rows[i].rank|
  {
    CompetitionRankOrder(rows);
    var totals := TotalsOf(rows);
    var better := set j | 0 <= j < |rows| && rows[j].rank < rows[i].rank;
    var above := set j | 0 <= j < |totals| && totals[j] > rows[i].total;
    assert better == above;
    CountAboveIsSetSize(totals, rows[i].total);
  }

  lemma {:induction false} CountAboveIsSetSize(s: seq<real>, v: real)
    ensures CountAbove(s, v) == |set j | 0 <= j < |s| && s[j] > v|
    decreases |s|
  {
    if s != [] {
      var init := s[..|s| - 1];
      CountAboveIsSetSize(init, v);
      var before := set j | 0 <= j < |init| && init[j] > v;
      var now := set j | 0 <= j < |s| && s[j] > v;
      if s[|s| - 1] > v {
        assert now == before + {|s| - 1};
      } else {
        assert now == before;
      }
    }
  }

  // ---- sorting the team table keeps its totals ----

  lemma TotalsOfAppend(rows: seq<TeamRow>, row: TeamRow)
    ensures TotalsOf(rows + [row]) == TotalsOf(rows) + [row.total]
  {
    assert (rows + [row])[..|rows|] == rows;
  }

  lemma {:induction false} InsertKeepsCountAbove(rows: seq<TeamRow>, row: TeamRow, v: real)
    ensures CountAbove(TotalsOf(Insert(rows, row, RankKey)), v)
         == CountAbove(TotalsOf(rows), v) + (if row.total > v then 1 else 0)
    decreases |rows|
  {
    if rows == [] || RankKey(rows[|rows| - 1]) <= RankKey(row) {
      TotalsOfAppend(rows, row);
      CountAboveAppend(TotalsOf(rows), row.total, v);
    } else {
      var init, last := rows[..|rows| - 1], rows[|rows| - 1];
      assert rows == init + [last];
      InsertKeepsCountAbove(init, row, v);
      TotalsOfAppend(Insert(init, row, RankKey), last);
      CountAboveAppend(TotalsOf(Insert(init, row, RankKey)), last.total, v);
      TotalsOfAppend(init, last);
      CountAboveAppend(TotalsOf(init), last.total, v);
    }
  }

  lemma {:induction false} InsertKeepsSum(rows: seq<TeamRow>, row: TeamRow)
    ensures Sum(TotalsOf(Insert(rows, row, RankKey))) == Sum(TotalsOf(rows)) + row.total
    decreases |rows|
  {
    if rows == [] || RankKey(rows[|rows| - 1]) <= RankKey(row) {
      TotalsOfAppend(rows, row);
      SumAppend(TotalsOf(rows), row.total);
    } else {
      var init, last := rows[..|rows| - 1], rows[|rows| - 1];
      assert rows == init + [last];
      InsertKeepsSum(init, row);
      TotalsOfAppend(Insert(init, row, RankKey), last);
      SumAppend(TotalsOf(Insert(init, row, RankKey)), last.total);
      TotalsOfAppend(init, last);
      SumAppend(TotalsOf(init), last.total);
    }
  }

  /** Sorting by rank does not change how many totals lie above a value. */
  lemma {:induction false} SortKeepsCountAbove(rows: seq<TeamRow>, v: real)
    ensures CountAbove(TotalsOf(SortBy(rows, RankKey)), v) == CountAbove(TotalsOf(rows), v)
    decreases |rows|
  {
    if rows != [] {
      var init, last := rows[..|rows| - 1], rows[|rows| - 1];
      assert rows == init + [last];
      SortKeepsCountAbove(init, v);
      InsertKeepsCountAbove(SortBy(init, RankKey), last, v);
      TotalsOfAppend(init, last);
      CountAboveAppend(TotalsOf(init), last.total, v);
    }
  }

  /** Sorting by rank does not change the sum of the totals. */
  lemma {:induction false} SortKeepsSum(rows: seq<TeamRow>)
    ensures Sum(TotalsOf(SortBy(rows, RankKey))) == Sum(TotalsOf(rows))
    decreases |rows|
  {
    if rows != [] {
      var init, last := rows[..|rows| - 1], rows[|rows| - 1];
      assert rows == init + [last];
      SortKeepsSum(init);
      InsertKeepsSum(SortBy(init, RankKey), last);
      TotalsOfAppend(init, last);
      SumAppend(TotalsOf(init), last.total);
    }
  }

  // ---- the team table ----

  lemma OwnerRowsFacts(keys: seq<Cell>, points: seq<real>)
    requires |keys| == |points|
    ensures var rows := OwnerRows(keys, points);
      && TotalsOf(rows) == GroupTotals(GroupKeys(keys), keys, points)
      && CompetitionRanked(rows)
      && NoDuplicates(rows)
      && (forall j | 0 <= j < |rows| ::
            rows[j].owner == GroupKeys(keys)[j] && rows[j].total == GroupSum(keys, points, rows[j].owner))
  {
    var rows := OwnerRows(keys, points);
    assert TotalsOf(rows) == GroupTotals(GroupKeys(keys), keys, points);
  }

  /** Every row of the sorted table is a row of the unsorted one. */
  lemma SortedRowOrigin(rows: seq<TeamRow>, i: nat) returns (j: nat)
    requires i < |SortBy(rows, RankKey)|
    ensures j < |rows| && SortBy(rows, RankKey)[i] == rows[j]
  {
    SortByProperties(rows, RankKey);
    assert SortBy(rows, RankKey)[i] in multiset(rows);
    j :| 0 <= j < |rows| && SortBy(rows, RankKey)[i] == rows[j];
  }

  /** The sorted team table is in ascending rank order and its ranks are the
      competition ranks of its totals. */
  lemma RankTeamsRanked(keys: seq<Cell>, points: seq<real>)
    requires |keys| == |points|
    ensures var r := RankTeams(keys, points);
      && (forall i, j | 0 <= i < j < |r| :: r[i].rank <= r[j].rank)
      && CompetitionRanked(r)
  {
    var rows := OwnerRows(keys, points);
    var r := RankTeams(keys, points);
    OwnerRowsFacts(keys, points);
    SortByProperties(rows, RankKey);
    forall i | 0 <= i < |r|
      ensures r[i].rank == MinRank(TotalsOf(r), r[i].total)
    {
      var j := SortedRowOrigin(rows, i);
      SortKeepsCountAbove(rows, r[i].total);
    }
  }

  /** The sorted team table has one row per distinct present owner, and each
      row's total is the sum of that owner's points. */
  lemma RankTeamsOwners(keys: seq<Cell>, points: seq<real>)
    requires |keys| == |points|
    ensures var r := RankTeams(keys, points);
      && |r| == |GroupKeys(keys)|
      && (forall i | 0 <= i < |r| ::
            r[i].owner in keys && r[i].owner != Missing && r[i].total == GroupSum(keys, points, r[i].owner))
      && (forall k | k in keys && k != Missing :: exists i | 0 <= i < |r| :: r[i].owner == k)
      && (forall i, j | 0 <= i < j < |r| :: r[i].owner != r[j].owner)
  {
    RankTeamsRowsAreGroups(keys, points);
    RankTeamsCoverOwners(keys, points);
    RankTeamsDistinctOwners(keys, points);
  }

  lemma RankTeamsRowsAreGroups(keys: seq<Cell>, points: seq<real>)
    requires |keys| == |points|
    ensures var r := RankTeams(keys, points);
      forall i | 0 <= i < |r| ::
        r[i].owner in keys && r[i].owner != Missing && r[i].total == GroupSum(keys, points, r[i].owner)
  {
    var rows := OwnerRows(keys, points);
    var r := RankTeams(keys, points);
    var owners := GroupKeys(keys);
    OwnerRowsFacts(keys, points);
    forall i | 0 <= i < |r|
      ensures r[i].owner in keys && r[i].owner != Missing && r[i].total == GroupSum(keys, points, r[i].owner)
    {
      var j := SortedRowOrigin(rows, i);
      assert r[i].owner == owners[j];
      assert owners[j] in owners;
    }
  }

  lemma RankTeamsCoverOwners(keys: seq<Cell>, points: seq<real>)
    requires |keys| == |points|
    ensures var r := RankTeams(keys, points);
      forall k | k in keys && k != Missing :: exists i | 0 <= i < |r| :: r[i].owner == k
  {
    var rows := OwnerRows(keys, points);
    var r := RankTeams(keys, points);
    var owners := GroupKeys(keys);
    OwnerRowsFacts(keys, points);
    SortByProperties(rows, RankKey);
    forall k | k in keys && k != Missing
      ensures exists i | 0 <= i < |r| :: r[i].owner == k
    {
      var j :| 0 <= j < |owners| && owners[j] == k;
      assert rows[j] in multiset(r);
    }
  }

  lemma RankTeamsDistinctOwners(keys: seq<Cell>, points: seq<real>)
    requires |keys| == |points|
    ensures var r := RankTeams(keys, points);
      forall i, j | 0 <= i < j < |r| :: r[i].owner != r[j].owner
  {
    var rows := OwnerRows(keys, points);
    var r := RankTeams(keys, points);
    var owners := GroupKeys(keys);
    OwnerRowsFacts(keys, points);
    SortKeepsNoDuplicates(rows, RankKey);
    forall i, j | 0 <= i < j < |r|
      ensures r[i].owner != r[j].owner
    {
      var a := SortedRowOrigin(rows, i);
      var b := SortedRowOrigin(rows, j);
      assert r[i] != r[j];
      assert owners[a] == r[i].owner && owners[b] == r[j].owner;
    }
  }

  /** The team totals add up to the points of every row that has an owner. */
  lemma RankTeamsConserve(keys: seq<Cell>, points: seq<real>)
    requires |keys| == |points|
    ensures Sum(TotalsOf(RankTeams(keys, points))) == SumPresent(keys, points)
  {
    OwnerRowsFacts(keys, points);
    SortKeepsSum(OwnerRows(keys, points));
    GroupTotalsConserve(keys, points);
  }

  /** The sorted team table: sorted by ascending rank, competition ranked,
      exactly one row per distinct present owner, each row's total the sum of
      that owner's points, and the sum of all totals the sum of the points of
      every row that has an owner. */
  lemma RankTeamsProperties(keys: seq<Cell>, points: seq<real>)
    requires |keys| == |points|
    ensures var r := RankTeams(keys, points);
      && (forall i, j | 0 <= i < j < |r| :: r[i].rank <= r[j].rank)
      && CompetitionRanked(r)
      && |r| == |GroupKeys(keys)|
      && (forall i | 0 <= i < |r| ::
            r[i].owner in keys && r[i].owner != Missing && r[i].total == GroupSum(keys, points, r[i].owner))
      && (forall k | k in keys && k != Missing :: exists i | 0 <= i < |r| :: r[i].owner == k)
      && (forall i, j | 0 <= i < j < |r| :: r[i].owner != r[j].owner)
      && Sum(TotalsOf(r)) == SumPresent(keys, points)
  {
    RankTeamsRanked(keys, points);
    RankTeamsOwners(keys, points);
    RankTeamsConserve(keys, points);
  }

  lemma {:induction false} InsertKeepsNoDuplicates<T>(s: seq<T>, x: T, key: T -> int)
    requires NoDuplicates(s) && x !in multiset(s)
    ensures NoDuplicates(Insert(s, x, key))
    decreases |s|
  {
    InsertElements(s, x, key);
    if s == [] || key(s[|s| - 1]) <= key(x) {
      AppendKeepsNoDuplicates(s, x);
    } else {
      var init, last := s[..|s| - 1], s[|s| - 1];
      assert s == init + [last];
      InsertKeepsNoDuplicates(init, x, key);
      InsertElements(init, x, key);
      forall m | 0 <= m < |init|
        ensures init[m] != last
      {
        assert s[m] == init[m];
      }
      AppendKeepsNoDuplicates(Insert(init, x, key), last);
    }
  }

  lemma AppendKeepsNoDuplicates<T>(s: seq<T>, x: T)
    requires NoDuplicates(s) && x !in multiset(s)
    ensures NoDuplicates(s + [x])
  {
    forall i | 0 <= i < |s|
      ensures s[i] != x
    {
      assert s[i] in multiset(s);
    }
  }

  lemma {:induction false} SortKeepsNoDuplicates<T>(s: seq<T>, key: T -> int)
    requires NoDuplicates(s)
    ensures NoDuplicates(SortBy(s, key))
    decreases |s|
  {
    if s != [] {
      var init, last := s[..|s| - 1], s[|s| - 1];
      assert s == init + [last];
      SortKeepsNoDuplicates(init, key);
      SortByProperties(init, key);
      forall m | 0 <= m < |init|
        ensures init[m] != last
      {
        assert s[m] == init[m];
      }
      InsertKeepsNoDuplicates(SortBy(init, key), last, key);
    }
  }

  /** The headline figures of a team table sorted by rank: the top team has
      rank 1 and the largest total, and the total points are the sum of the
      team totals. */
  lemma LeagueSnapshotProperties(keys: seq<Cell>, points: seq<real>)
    requires |keys| == |points|
    ensures var teams := RankTeams(keys, points);
      && (LeagueSnapshot(teams).Err? <==> forall k | 0 <= k < |keys| :: keys[k] == Missing)
      && (LeagueSnapshot(teams).Ok? ==>
            var s := LeagueSnapshot(teams).value;
            && s.totalTeams == |GroupKeys(keys)|
            && teams[0].rank == 1
            && s.topTeam == teams[0].owner
            && (forall i | 0 <= i < |teams| :: teams[i].total <= teams[0].total)
            && s.totalPoints == SumPresent(keys, points))
  {
    var teams := RankTeams(keys, points);
    SortByProperties(OwnerRows(keys, points), RankKey);
    assert |teams| == |GroupKeys(keys)|;
    NoOwnersIffAllMissing(keys);
    if teams != [] {
      RankTeamsRanked(keys, points);
      FirstRowIsTop(teams);
      RankTeamsConserve(keys, points);
    }
  }

  /** The first row of a competition-ranked table in rank order has rank 1
      and the largest total. */
  lemma FirstRowIsTop(rows: seq<TeamRow>)
    requires rows != [] && CompetitionRanked(rows)
    requires forall i, j | 0 <= i < j < |rows| :: rows[i].rank <= rows[j].rank
    ensures rows[0].rank == 1
    ensures forall i | 0 <= i < |rows| :: rows[i].total <= rows[0].total
  {
    CompetitionRankOrder(rows);
    var j :| 0 <= j < |rows| && rows[j].rank == 1;
    assert rows[0].rank <= rows[j].rank;
    CountAboveZero(TotalsOf(rows), rows[0].total);
  }

  /** A key column forms no group exactly when every key is missing. */
  lemma NoOwnersIffAllMissing(keys: seq<Cell>)
    ensures GroupKeys(keys) == [] <==> forall k | 0 <= k < |keys| :: keys[k] == Missing
  {
    if GroupKeys(keys) == [] {
      forall k | 0 <= k < |keys|
        ensures keys[k] == Missing
      {
        assert keys[k] in keys;
      }
    } else {
      assert GroupKeys(keys)[0] in keys;
    }
  }

  // ---- the top player ----

  /** A player's summed points. */
  datatype PlayerTotal = PlayerTotal(player: Cell, points: real)

  /** The position of a largest value of s. */
  function ArgMax(s: seq<real>): (j: nat)
    requires s != []
    ensures j < |s| && forall k | 0 <= k < |s| :: s[k] <= s[j]
    decreases |s|
  {
    if |s| == 1 then 0
    else
      var i := ArgMax(s[..|s| - 1]);
      if s[|s| - 1] > s[i] then |s| - 1 else i
  }

  /** `top` is a present player name whose summed points are at least every
      other player's. */
  ghost predicate BestPlayer(names: seq<Cell>, points: seq<real>, top: PlayerTotal)
    requires |names| == |points|
  {
    && top.player in names && top.player != Missing
    && top.points == GroupSum(names, points, top.player)
    && forall k | k in names && k != Missing :: GroupSum(names, points, k) <= top.points
  }

  /** `groupby("player_name")["player_points"].sum()` sorted by points,
      descending, and its first row: a best player. Grouping by a column the
      frame lacks raises a KeyError, and taking the first row of an empty
      result an IndexError, which happens exactly when no row names a player. */
  function TopPlayer(scored: Frame): (r: Result<PlayerTotal>)
    ensures PlayerName !in scored.data ==> r == Err(KeyError(PlayerName))
    ensures PlayerName in scored.data && PlayerPoints !in scored.data ==> r == Err(KeyError(PlayerPoints))
    ensures PlayerName in scored.data && PlayerPoints in scored.data ==>
      (r == Err(IndexError) <==> forall k | 0 <= k < scored.height :: scored.data[PlayerName][k] == Missing)
    ensures r.Ok? ==>
      PlayerName in scored.data && PlayerPoints in scored.data &&
      BestPlayer(scored.data[PlayerName], Values(scored.data[PlayerPoints]), r.value)
  {
    if PlayerName !in scored.data then Err(KeyError(PlayerName))
    else if PlayerPoints !in scored.data then Err(KeyError(PlayerPoints))
    else
      var names := scored.data[PlayerName];
      var points := Values(scored.data[PlayerPoints]);
      var players := GroupKeys(names);
      NoOwnersIffAllMissing(names);
      if players == [] then Err(IndexError)
      else
        var totals := GroupTotals(players, names, points);
        var j := ArgMax(totals);
        LargestGroupIsBest(names, points);
        Ok(PlayerTotal(players[j], totals[j]))
  }

  /** The group with the largest total is a best player. */
  lemma LargestGroupIsBest(names: seq<Cell>, points: seq<real>)
    requires |names| == |points| && GroupKeys(names) != []
    ensures var players := GroupKeys(names);
      var totals := GroupTotals(players, names, points);
      BestPlayer(names, points, PlayerTotal(players[ArgMax(totals)], totals[ArgMax(totals)]))
  {
    var players := GroupKeys(names);
    var totals := GroupTotals(players, names, points);
    forall k | k in names && k != Missing
      ensures GroupSum(names, points, k) <= totals[ArgMax(totals)]
    {
      var m :| 0 <= m < |players| && players[m] == k;
    }
    assert players[ArgMax(totals)] in players;
  }

  // ---- the pipeline on a scored table ----

  /** Ranking the table `calculate_points(upto)` returns: each owner's total is
      the sum of that owner's players' running totals, and the team table is
      sorted by rank with competition ranks. */
  lemma TeamTableOfScoredFrame(df: Frame, upto: int)
    requires OwnerName in df.data
    ensures var scored := ScoredFrame(df, upto);
      var keys := df.data[OwnerName];
      var points := PointsColumn(df, upto);
      && TeamTable(scored).Ok?
      && TeamTable(scored).value == RankTeams(keys, points)
      && Sum(TotalsOf(TeamTable(scored).value)) == SumPresent(keys, points)
  {
    var scored := ScoredFrame(df, upto);
    assert scored.data[OwnerName] == df.data[OwnerName];
    ValuesOfNums(PointsColumn(df, upto));
    RankTeamsProperties(df.data[OwnerName], PointsColumn(df, upto));
  }
}
