/** The summary panel's team table: the per-team totals, one row per team in
    the order the totals object lists its keys, sorted by average points,
    highest first. */
module StatsSummary {
  import opened StableSort
  import opened MockData

  /** `{ team, ...data }`: a team and its totals, flattened into one row. */
  datatype TeamRow = TeamRow(team: Team, totalPoints: int, averagePoints: int, playerCount: int)

  /** Position of a team among the keys of the totals object, which are set
      in the order england, france, ireland, italy, scotland, wales. */
  function TeamIndex(t: Team): (i: int)
    ensures 0 <= i < 6 && AllTeams[i] == t
  {
    match t
    case England => 0
    case France => 1
    case Ireland => 2
    case Italy => 3
    case Scotland => 4
    case Wales => 5
  }

  function Row(perf: map<Team, TeamTotals>, t: Team): TeamRow
    requires t in perf
  {
    TeamRow(t, perf[t].totalPoints, perf[t].averagePoints, perf[t].playerCount)
  }

  /** `Object.entries(teamPerformance).map(...)` */
  function TeamRows(perf: map<Team, TeamTotals>): (r: seq<TeamRow>)
    requires forall t: Team :: t in perf
    ensures |r| == 6
    ensures forall i :: 0 <= i < 6 ==> r[i] == Row(perf, AllTeams[i])
  {
    seq(6, i requires 0 <= i < 6 => Row(perf, AllTeams[i]))
  }

  function NegatedAverage(row: TeamRow): int { -row.averagePoints }

  function RowRank(row: TeamRow): int { TeamIndex(row.team) }

  /** The rows come in key order. */
  lemma RowsInKeyOrder(perf: map<Team, TeamTotals>)
    requires forall t: Team :: t in perf
    ensures Ranked(TeamRows(perf), RowRank)
  {
    forall i | 0 <= i < 6 ensures TeamIndex(AllTeams[i]) == i {
    }
  }

  /** A rearrangement of the rows holds a row for every team, each carrying
      that team's totals. */
  lemma RearrangedRows(perf: map<Team, TeamTotals>, r: seq<TeamRow>)
    requires forall t: Team :: t in perf
    requires multiset(r) == multiset(TeamRows(perf))
    ensures forall t: Team :: Row(perf, t) in r
    ensures forall i :: 0 <= i < |r| ==> r[i] == Row(perf, r[i].team)
  {
    var rows := TeamRows(perf);
    forall t: Team ensures Row(perf, t) in r {
      assert rows[TeamIndex(t)] == Row(perf, t);
      assert Row(perf, t) in multiset(rows);
    }
    forall i | 0 <= i < |r| ensures r[i] == Row(perf, r[i].team) {
      assert r[i] in multiset(rows);
      var m :| 0 <= m < 6 && rows[m] == r[i];
    }
  }

  /** Equal averages keep the key order through the stable sort. */
  lemma TiesInKeyOrder(perf: map<Team, TeamTotals>, r: seq<TeamRow>)
    requires forall t: Team :: t in perf
    requires r == SortBy(TeamRows(perf), NegatedAverage)
    ensures forall i, j :: 0 <= i < j < |r| && r[i].averagePoints == r[j].averagePoints ==>
      TeamIndex(r[i].team) < TeamIndex(r[j].team)
  {
    var rows := TeamRows(perf);
    RowsInKeyOrder(perf);
    forall i, j | 0 <= i < j < |r| && r[i].averagePoints == r[j].averagePoints
      ensures TeamIndex(r[i].team) < TeamIndex(r[j].team)
    {
      StableKeepsRank(rows, r, NegatedAverage, RowRank, i, j);
    }
  }

  /** `teamPerformanceArray`: the rows sorted by average points, highest
      first; the sort is stable, so teams with equal averages keep the key
      order. */
  function TeamRanking(perf: map<Team, TeamTotals>): (r: seq<TeamRow>)
    requires forall t: Team :: t in perf
    ensures |r| == 6
    ensures forall t: Team :: Row(perf, t) in r
    ensures forall i :: 0 <= i < |r| ==> r[i] == Row(perf, r[i].team)
    ensures forall i, j :: 0 <= i < j < |r| ==> r[i].averagePoints >= r[j].averagePoints
    ensures forall i, j :: 0 <= i < j < |r| && r[i].averagePoints == r[j].averagePoints ==>
      TeamIndex(r[i].team) < TeamIndex(r[j].team)
    ensures forall i, j :: 0 <= i < j < |r| ==> r[i].team != r[j].team
  {
    var r := SortBy(TeamRows(perf), NegatedAverage);
    RearrangedRows(perf, r);
    TiesInKeyOrder(perf, r);
    assert forall i, j :: 0 <= i < j < |r| ==> NegatedAverage(r[i]) <= NegatedAverage(r[j]);
    r
  }

  /** On the seed players the table reads Scotland (57), Ireland (53), France
      (43), Wales (36), England (35), Italy (31). */
  lemma SeedRanking(perf: map<Team, TeamTotals>)
    requires forall t: Team :: t in perf && perf[t] == TeamTotalsOf(SeedPlayers, t)
    ensures var r := TeamRanking(perf);
      && [r[0].team, r[1].team, r[2].team, r[3].team, r[4].team, r[5].team] == [Scotland, Ireland, France, Wales, England, Italy]
      && [r[0].averagePoints, r[1].averagePoints, r[2].averagePoints, r[3].averagePoints, r[4].averagePoints, r[5].averagePoints] == [57, 53, 43, 36, 35, 31]
  {
    SeedTeamTotals(England);
    SeedTeamTotals(France);
    SeedTeamTotals(Ireland);
    SeedTeamTotals(Italy);
    SeedTeamTotals(Scotland);
    SeedTeamTotals(Wales);
    var r := TeamRanking(perf);
    forall i | 0 <= i < 6
      ensures r[i].team == Scotland <==> r[i].averagePoints == 57
      ensures r[i].team == Ireland <==> r[i].averagePoints == 53
      ensures r[i].team == France <==> r[i].averagePoints == 43
      ensures r[i].team == Wales <==> r[i].averagePoints == 36
      ensures r[i].team == England <==> r[i].averagePoints == 35
      ensures r[i].team == Italy <==> r[i].averagePoints == 31
    {
      assert r[i] == Row(perf, r[i].team);
    }
    assert r[0].averagePoints > r[1].averagePoints > r[2].averagePoints > r[3].averagePoints > r[4].averagePoints > r[5].averagePoints;
  }
}
