/**
 * The Teams tab (dashboard.py:148-209): the target column of "Team Averages
 * vs Targets", the target markers drawn over the bar chart, and one
 * unlimited leaderboard per metric the team has recorded.
 */
module TeamsTab {
  import opened Wrappers
  import opened Config
  import opened Table
  import opened Leaderboard

  /** One row of `avg_by_metric` as far as targets go: the metric and its
      Target cell, `None` when the band row has no such metric. */
  datatype MetricTarget = MetricTarget(metric: string, target: Option<real>)

  /** `targets.get(get_age_group(avg_age), {}).get(m, None)`: the band
      target of the metric when it is one of the ten target metrics, and
      `None` otherwise; a present target is never 0, so `dropna` is the only
      filter the markers need. */
  function TeamTarget(avgAge: real, m: string): (t: Option<real>)
    ensures t.Some? <==> m in MetricNames
    ensures t.Some? ==> t.value == Targets()[AgeGroup(avgAge)][m] && t.value > 0.0
  {
    Lookup(BandTargets(avgAge), m)
  }

  /** `.get(m, None)` on one band row. */
  function Lookup(bt: map<string, real>, m: string): (t: Option<real>)
    ensures t.Some? <==> m in bt
    ensures t.Some? ==> t.value == bt[m]
  {
    if m in bt then Some(bt[m]) else None
  }

  /** The metric of each target row. */
  function TargetMetrics(rows: seq<MetricTarget>): seq<string>
  {
    seq(|rows|, k requires 0 <= k < |rows| => rows[k].metric)
  }

  /** One target row per metric of `ms`, looked up in the band row `bt`. */
  function TargetRowsFor(ms: seq<string>, bt: map<string, real>): (rows: seq<MetricTarget>)
    ensures |rows| == |ms|
    ensures forall k :: 0 <= k < |rows| ==> rows[k].metric == ms[k] && rows[k].target == Lookup(bt, ms[k])
  {
    if ms == [] then []
    else [MetricTarget(ms[0], Lookup(bt, ms[0]))] + TargetRowsFor(ms[1..], bt)
  }

  /** The Target column of `avg_by_metric` for a team table whose mean age,
      rounded, is `avgAge`: one row per metric the team has recorded, none
      twice, with the band target exactly for the ten target metrics. */
  function TeamTargetRows(team: seq<Record>, avgAge: real): (rows: seq<MetricTarget>)
    ensures forall m :: m in TargetMetrics(rows) <==> m in MetricColumn(team)
    ensures NoDuplicates(TargetMetrics(rows))
    ensures forall r :: r in rows ==> (r.target.Some? <==> r.metric in MetricNames)
    ensures forall r :: r in rows && r.target.Some? ==>
      r.metric in MetricNames && r.target.value == Targets()[AgeGroup(avgAge)][r.metric]
  {
    var ms := Unique(MetricColumn(team));
    var rows := TargetRowsFor(ms, BandTargets(avgAge));
    assert TargetMetrics(rows) == ms;
    assert forall r :: r in rows ==> r.target == TeamTarget(avgAge, r.metric);
    rows
  }

  /** `avg_by_metric.dropna(subset=["Target"])`: the rows that get a marker. */
  function Markers(rows: seq<MetricTarget>): (marked: seq<MetricTarget>)
    ensures forall r :: r in marked <==> r in rows && r.target.Some?
  {
    Where(rows, (r: MetricTarget) => r.target.Some?)
  }

  /** The markers' metrics are the metrics of the rows with a target. */
  lemma MarkedMetricsOf(rows: seq<MetricTarget>)
    ensures forall m :: m in TargetMetrics(Markers(rows)) <==>
      exists j :: 0 <= j < |rows| && rows[j].metric == m && rows[j].target.Some?
  {
    var marked := Markers(rows);
    forall m ensures m in TargetMetrics(marked) <==>
      exists j :: 0 <= j < |rows| && rows[j].metric == m && rows[j].target.Some?
    {
      if m in TargetMetrics(marked) {
        var k :| 0 <= k < |marked| && marked[k].metric == m;
        assert marked[k] in rows;
      }
      if exists j :: 0 <= j < |rows| && rows[j].metric == m && rows[j].target.Some? {
        var j :| 0 <= j < |rows| && rows[j].metric == m && rows[j].target.Some?;
        assert rows[j] in marked;
        var k :| 0 <= k < |marked| && marked[k] == rows[j];
        assert TargetMetrics(marked)[k] == m;
      }
    }
  }

  /** A marker is drawn for a metric exactly when the team has recorded it
      and it is one of the ten target metrics. */
  lemma MarkedMetrics(team: seq<Record>, avgAge: real)
    ensures forall m :: m in TargetMetrics(Markers(TeamTargetRows(team, avgAge))) <==>
      m in MetricColumn(team) && m in MetricNames
  {
    var rows := TeamTargetRows(team, avgAge);
    MarkedMetricsOf(rows);
    forall m | m in MetricColumn(team) && m in MetricNames
      ensures exists j :: 0 <= j < |rows| && rows[j].metric == m && rows[j].target.Some?
    {
      var j :| 0 <= j < |rows| && TargetMetrics(rows)[j] == m;
      assert rows[j].metric == m;
    }
    forall m | exists j :: 0 <= j < |rows| && rows[j].metric == m && rows[j].target.Some?
      ensures m in MetricColumn(team) && m in MetricNames
    {
      var j :| 0 <= j < |rows| && rows[j].metric == m && rows[j].target.Some?;
      assert TargetMetrics(rows)[j] == m;
    }
  }

  /** No metric gets two markers. */
  lemma MarkedOnce(team: seq<Record>, avgAge: real)
    ensures NoDuplicates(TargetMetrics(Markers(TeamTargetRows(team, avgAge))))
  {
    var rows := TeamTargetRows(team, avgAge);
    var marked := Markers(rows);
    forall i, j | 0 <= i < j < |marked| ensures TargetMetrics(marked)[i] != TargetMetrics(marked)[j] {
      MarkedRowsDistinct(rows, marked, i, j);
    }
  }

  /** Each marker sits at the band's target for its metric, which is positive. */
  lemma MarkerHeights(team: seq<Record>, avgAge: real)
    ensures forall r :: r in Markers(TeamTargetRows(team, avgAge)) ==>
      r.target.Some? && r.target.value > 0.0 && r.metric in MetricNames &&
      r.target.value == Targets()[AgeGroup(avgAge)][r.metric]
  {
    var rows := TeamTargetRows(team, avgAge);
    assert forall r :: r in Markers(rows) ==> r in rows && r.target.Some?;
  }

  /** Two distinct positions of the markers hold rows with different metrics,
      since the target rows have distinct metrics and Where keeps order. */
  lemma MarkedRowsDistinct(rows: seq<MetricTarget>, marked: seq<MetricTarget>, i: int, j: int)
    requires NoDuplicates(TargetMetrics(rows))
    requires marked == Markers(rows)
    requires 0 <= i < j < |marked|
    ensures marked[i].metric != marked[j].metric
  {
    assert NoDuplicates(rows) by {
      forall a, b | 0 <= a < b < |rows| ensures rows[a] != rows[b] {
        assert TargetMetrics(rows)[a] != TargetMetrics(rows)[b];
      }
    }
    assert NoDuplicates(marked);
    var a :| 0 <= a < |rows| && rows[a] == marked[i];
    var b :| 0 <= b < |rows| && rows[b] == marked[j];
    assert a != b;
    assert TargetMetrics(rows)[a] != TargetMetrics(rows)[b];
  }

  /** One leaderboard of the team tab: its metric and its rows. */
  datatype Board = Board(metric: string, rows: seq<Row>)

  /** The metric of each board, in display order. */
  function BoardMetrics(boards: seq<Board>): seq<string>
  {
    seq(|boards|, k requires 0 <= k < |boards| => boards[k].metric)
  }

  /** The player appears on some row. */
  predicate Lists(rows: seq<Row>, name: string)
  {
    exists j :: 0 <= j < |rows| && rows[j].name == name
  }

  /** The "Team Leaderboard" section: nothing when no team is selected;
      otherwise, for each metric of the team table in order of first
      appearance, the untruncated leaderboard of the team's records with the
      global direction set, listing every team player who has the metric. */
  method TeamLeaderboards(df: seq<Record>, team: string) returns (boards: seq<Board>)
    ensures team == "" ==> boards == []
    ensures team != "" ==> BoardMetrics(boards) == Unique(MetricColumn(OfTeam(df, team)))
    ensures team != "" ==> forall m :: m in BoardMetrics(boards) <==>
      exists r :: r in df && r.team == team && r.metric == m
    ensures forall k :: 0 <= k < |boards| ==> IsTeamBoard(boards[k], OfTeam(df, team))
  {
    boards := [];
    if team == "" {
      return;
    }
    var teamDf := OfTeam(df, team);
    var ms := Unique(MetricColumn(teamDf));
    var i := 0;
    while i < |ms|
      invariant 0 <= i <= |ms|
      invariant |boards| == i
      invariant forall k :: 0 <= k < i ==> boards[k].metric == ms[k]
      invariant forall k :: 0 <= k < |boards| ==> IsTeamBoard(boards[k], teamDf)
    {
      var m := ms[i];
      var rows := RankPlayers(teamDf, m, m in LowerIsBetter, None);
      CompleteBoard(rows, teamDf, m);
      boards := boards + [Board(m, rows)];
      i := i + 1;
    }
    assert BoardMetrics(boards) == ms;
    TeamMetrics(df, team);
  }

  /** The board is the untruncated leaderboard of its metric over the team's
      records, in the global direction, and lists every team player with
      that metric. */
  ghost predicate IsTeamBoard(b: Board, teamDf: seq<Record>)
  {
    && IsLeaderboard(b.rows, teamDf, b.metric, b.metric in LowerIsBetter, None)
    && forall r :: r in teamDf && r.metric == b.metric ==> Lists(b.rows, r.fullName)
  }

  /** An untruncated leaderboard of the team lists every team player with
      the metric. */
  lemma CompleteBoard(rows: seq<Row>, teamDf: seq<Record>, m: string)
    requires IsLeaderboard(rows, teamDf, m, m in LowerIsBetter, None)
    ensures IsTeamBoard(Board(m, rows), teamDf)
  {
    forall r | r in teamDf && r.metric == m ensures Lists(rows, r.fullName) {
      UnlimitedBoardIsComplete(rows, teamDf, m, m in LowerIsBetter, r.fullName);
    }
  }

  /** `team_df["Metric_Type"].unique()` lists exactly the metrics some record
      of the team has. */
  lemma TeamMetrics(df: seq<Record>, team: string)
    ensures forall m :: m in Unique(MetricColumn(OfTeam(df, team))) <==>
      exists r :: r in df && r.team == team && r.metric == m
  {
    forall m ensures m in Unique(MetricColumn(OfTeam(df, team))) <==>
      exists r :: r in df && r.team == team && r.metric == m
    {
      InMetricColumn(OfTeam(df, team), m);
    }
  }
}
