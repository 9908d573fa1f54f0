/**
 * The Players tab's "Performance vs Targets" gauges (dashboard.py:94-100):
 * which metrics get a gauge, the value the gauge shows and its target.
 */
module PlayersTab {
  import opened Wrappers
  import opened Config
  import opened Table

  /** One gauge: the metric, the value shown and the band's target. */
  datatype Gauge = Gauge(metric: string, current: real, target: real)

  /** The metric of each gauge, in drawing order. */
  function GaugeColumn(gs: seq<Gauge>): seq<string>
  {
    seq(|gs|, k requires 0 <= k < |gs| => gs[k].metric)
  }

  /** `gauge_metrics`: the player's metrics, in order of first appearance,
      that have an entry in `ageTargets`. */
  function GaugeMetrics(player: seq<Record>, ageTargets: map<string, real>): (ms: seq<string>)
    ensures forall m :: m in ms <==> m in MetricColumn(player) && m in ageTargets
    ensures NoDuplicates(ms)
  {
    Where(Unique(MetricColumn(player)), (m: string) => m in ageTargets)
  }

  /** `player_df[player_df["Metric_Type"] == m]["Average"].iloc[-1]`: the
      Average of the player's last record for the metric in table order. */
  function LastAverage(player: seq<Record>, m: string): (v: real)
    requires m in MetricColumn(player)
    ensures exists i: nat :: IsLastFor(player, m, i) && v == player[i].average
  {
    var i := LastIndex(player, m);
    assert IsLastFor(player, m, i);
    player[i].average
  }

  /** One gauge per metric of `ms`, its value the metric's last Average and
      its target from `t`. */
  function GaugesFor(player: seq<Record>, ms: seq<string>, t: map<string, real>): (gs: seq<Gauge>)
    requires forall m :: m in ms ==> m in MetricColumn(player) && m in t
    ensures GaugeColumn(gs) == ms
    ensures forall k :: 0 <= k < |gs| ==>
      gs[k].metric == ms[k] && gs[k].target == t[ms[k]] && gs[k].current == LastAverage(player, ms[k])
  {
    if ms == [] then []
    else [Gauge(ms[0], LastAverage(player, ms[0]), t[ms[0]])] + GaugesFor(player, ms[1..], t)
  }

  /** The gauges drawn for a player with band targets `ageTargets`: one per
      gauge metric, none twice, each showing the Average of the player's last
      record for the metric in table order against the metric's target. */
  function PlayerGauges(player: seq<Record>, ageTargets: map<string, real>): (gs: seq<Gauge>)
    ensures forall m :: m in GaugeColumn(gs) <==> m in MetricColumn(player) && m in ageTargets
    ensures NoDuplicates(GaugeColumn(gs))
    ensures forall k :: 0 <= k < |gs| ==>
      gs[k].metric in ageTargets && gs[k].target == ageTargets[gs[k].metric]
    ensures forall k :: 0 <= k < |gs| ==>
      gs[k].metric in MetricColumn(player) && gs[k].current == LastAverage(player, gs[k].metric)
  {
    var ms := GaugeMetrics(player, ageTargets);
    GaugesFor(player, ms, ageTargets)
  }

  /** The Players tab for a non-empty player table: `age_targets` is the band
      of the age on the player's first row. */
  function PlayerTabGauges(player: seq<Record>): (gs: seq<Gauge>)
    requires player != []
    ensures forall m :: m in GaugeColumn(gs) <==> m in MetricColumn(player) && m in MetricNames
    ensures NoDuplicates(GaugeColumn(gs))
    ensures forall k :: 0 <= k < |gs| ==>
      gs[k].metric in MetricColumn(player) && gs[k].current == LastAverage(player, gs[k].metric)
    ensures forall k :: 0 <= k < |gs| ==>
      gs[k].metric in MetricNames && gs[k].target == Targets()[AgeGroup(player[0].age)][gs[k].metric]
  {
    var t := BandTargets(player[0].age);
    var gs := PlayerGauges(player, t);
    assert t.Keys == MetricNames;
    assert forall k :: 0 <= k < |gs| ==> gs[k].target == t[gs[k].metric];
    gs
  }

  /** The gauge section for the selected player: nothing when no player is
      selected or the player has no record; otherwise one gauge for each
      target metric the player has recorded. The gauge list is empty, and
      "No targets available" shown, exactly when the player has recorded
      none of the ten target metrics. */
  function PlayerView(df: seq<Record>, name: string): (v: Option<seq<Gauge>>)
    ensures v.Some? <==> name != "" && exists r :: r in df && r.fullName == name
    ensures v.Some? ==> forall m :: m in GaugeColumn(v.value) <==>
      m in MetricNames && exists r :: r in df && r.fullName == name && r.metric == m
    ensures v.Some? ==> (v.value == [] <==>
      forall r :: r in df && r.fullName == name ==> r.metric !in MetricNames)
    ensures v.Some? ==> NoDuplicates(GaugeColumn(v.value))
    ensures v.Some? ==> forall k :: 0 <= k < |v.value| ==>
      v.value[k].metric in MetricColumn(OfPlayer(df, name)) &&
      v.value[k].current == LastAverage(OfPlayer(df, name), v.value[k].metric)
    ensures v.Some? ==> forall k :: 0 <= k < |v.value| ==>
      v.value[k].metric in MetricNames &&
      v.value[k].target == Targets()[AgeGroup(OfPlayer(df, name)[0].age)][v.value[k].metric]
  {
    var player := OfPlayer(df, name);
    if name == "" || player == [] then
      None
    else
      GaugesOfRecords(player);
      Some(PlayerTabGauges(player))
  }

  /** The gauges of a non-empty player table, stated over its records: a
      gauge for each target metric some record has, and none at all exactly
      when no record has a target metric. */
  lemma GaugesOfRecords(player: seq<Record>)
    requires player != []
    ensures forall m :: m in GaugeColumn(PlayerTabGauges(player)) <==>
      m in MetricNames && exists r :: r in player && r.metric == m
    ensures PlayerTabGauges(player) == [] <==> forall r :: r in player ==> r.metric !in MetricNames
  {
    var gs := PlayerTabGauges(player);
    forall m { InMetricColumn(player, m); }
    if gs != [] {
      assert GaugeColumn(gs)[0] in GaugeColumn(gs);
    } else {
      assert forall m :: m !in GaugeColumn(gs);
    }
  }

  /** What a gauge shows, in terms of the whole table: the Average of the
      player's last record for the metric in table order. */
  lemma GaugeShowsLastRecord(df: seq<Record>, name: string)
    requires PlayerView(df, name).Some?
    ensures forall g :: g in PlayerView(df, name).value ==>
      exists j: nat :: IsLastOfPlayer(df, name, g.metric, j) && g.current == df[j].average
  {
    LastRecords(df, name, PlayerView(df, name).value);
  }

  /** Gauges showing the last Average in `player_df` show the player's last
      record in the whole table. */
  lemma LastRecords(df: seq<Record>, name: string, gs: seq<Gauge>)
    requires forall k :: 0 <= k < |gs| ==>
      gs[k].metric in MetricColumn(OfPlayer(df, name)) &&
      gs[k].current == LastAverage(OfPlayer(df, name), gs[k].metric)
    ensures forall g :: g in gs ==>
      exists j: nat :: IsLastOfPlayer(df, name, g.metric, j) && g.current == df[j].average
  {
    var player := OfPlayer(df, name);
    forall g | g in gs ensures exists j: nat :: IsLastOfPlayer(df, name, g.metric, j) && g.current == df[j].average {
      var k :| 0 <= k < |gs| && gs[k] == g;
      var i: nat :| IsLastFor(player, g.metric, i) && g.current == player[i].average;
      LastOfPlayer(df, name, g.metric, i);
    }
  }
}
