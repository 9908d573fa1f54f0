/**
 * The Leaderboard tab (dashboard.py:218-240): the top-N best-score board of
 * one metric over the whole table, with its own copy of the direction set.
 */
module LeaderboardTab {
  import opened Wrappers
  import opened Config
  import opened Table
  import opened Leaderboard

  /** `lower_is_better_metrics`, the tab's local direction set. */
  const LeaderboardLowerIsBetter: set<string> := {"10 yard sprint", "Pro Agility", "Home to 1B sprint"}

  /** The tab's local direction set is the global one, so a metric ranks the
      same way here as on the team tab and the gauges. */
  lemma SameDirections()
    ensures forall m :: m in LeaderboardLowerIsBetter <==> m in LowerIsBetter
  {
  }

  /** The board shown for the selected metric and slider value `topN`:
      nothing when no metric is selected; otherwise the first
      `min(topN, players)` rows of the metric's best-score ranking, numbered
      from 1. */
  method TopLeaderboard(df: seq<Record>, metric: string, topN: nat) returns (board: Option<seq<Row>>)
    ensures board.None? <==> metric == ""
    ensures board.Some? ==> IsLeaderboard(board.value, df, metric, metric in LeaderboardLowerIsBetter, Some(topN))
    ensures board.Some? ==> |board.value| == Cut(|Names(df, metric)|, Some(topN))
    ensures board.Some? ==>
      exists all :: (IsLeaderboard(all, df, metric, metric in LeaderboardLowerIsBetter, None) &&
                     |board.value| <= |all| && board.value == all[..|board.value|])
  {
    if metric == "" {
      return None;
    }
    var lower := metric in LeaderboardLowerIsBetter;
    var rows := RankPlayers(df, metric, lower, Some(topN));
    LeaderboardLength(rows, df, metric, lower, Some(topN));
    TopBoardIsPrefix(rows, df, metric, lower, topN);
    board := Some(rows);
  }

  /** Three players of one team with a single Bench record each (50, 70 and
      60; higher is better). */
  function BenchTable(): seq<Record>
  {
    [Record("A", "T", 9.0, "Bench", 50.0),
     Record("B", "T", 9.0, "Bench", 70.0),
     Record("C", "T", 9.0, "Bench", 60.0)]
  }

  /** On that table a top-2 Bench board has exactly one possible content:
      B with 70 ranked 1, then C with 60 ranked 2. */
  lemma TopTwoBench(rows: seq<Row>)
    requires IsLeaderboard(rows, BenchTable(), "Bench", false, Some(2))
    ensures rows == [Row(1, "B", 70.0), Row(2, "C", 60.0)]
  {
    var full: seq<Entry> :| IsRanking(full, BenchTable(), "Bench", false) && RankedAs(rows, Take(full, Some(2)));
    BenchRanking(full);
    ThreeSorted(full);
    assert Take(full, Some(2)) == full[..2];
    assert |rows| == 2 && rows[0] == Row(1, "B", 70.0) && rows[1] == Row(2, "C", 60.0);
  }

  /** Any ranking of BenchTable's Bench records holds the three players once
      each, best first. */
  lemma BenchRanking(full: seq<Entry>)
    requires IsRanking(full, BenchTable(), "Bench", false)
    ensures |full| == 3 && DistinctNames(full) && SortedBy(full, false)
    ensures forall k :: 0 <= k < |full| ==> BenchEntry(full[k])
  {
    BenchNames();
    RankingLength(full, BenchTable(), "Bench", false);
    BenchRankingEntries(full);
  }

  /** Each entry of such a ranking is a player with their one score. */
  lemma BenchRankingEntries(full: seq<Entry>)
    requires IsRanking(full, BenchTable(), "Bench", false)
    ensures forall k :: 0 <= k < |full| ==> BenchEntry(full[k])
  {
    forall k | 0 <= k < |full| ensures BenchEntry(full[k]) {
      BenchEntryOf(full[k]);
    }
  }

  /** An entry holding one of the three players with their best is a
      BenchTable entry. */
  lemma BenchEntryOf(e: Entry)
    requires e.name in Names(BenchTable(), "Bench")
    requires e.best == BestScore(BenchTable(), "Bench", e.name, false)
    ensures BenchEntry(e)
  {
    BenchNames();
    BenchBests();
    assert e.name == "A" || e.name == "B" || e.name == "C";
  }

  /** Each BenchTable player's best is their one Average. */
  lemma BenchBests()
    ensures "A" in Names(BenchTable(), "Bench") && BestScore(BenchTable(), "Bench", "A", false) == 50.0
    ensures "B" in Names(BenchTable(), "Bench") && BestScore(BenchTable(), "Bench", "B", false) == 70.0
    ensures "C" in Names(BenchTable(), "Bench") && BestScore(BenchTable(), "Bench", "C", false) == 60.0
  {
    var recs := BenchTable();
    SingleRecordBest(recs, 0);
    SingleRecordBest(recs, 1);
    SingleRecordBest(recs, 2);
  }

  /** BenchTable's Bench players are A, B and C. */
  lemma BenchNames()
    ensures Names(BenchTable(), "Bench") == {"A", "B", "C"}
    ensures |Names(BenchTable(), "Bench")| == 3
  {
    var recs := BenchTable();
    assert recs[0] in recs && recs[1] in recs && recs[2] in recs;
    assert "A"[0] != "B"[0] && "A"[0] != "C"[0] && "B"[0] != "C"[0];
  }

  /** An entry of BenchTable's ranking: a player with their one score. */
  predicate BenchEntry(e: Entry)
  {
    e == Entry("A", 50.0) || e == Entry("B", 70.0) || e == Entry("C", 60.0)
  }

  /** Three distinct BenchTable entries sorted best first put B, then C. */
  lemma ThreeSorted(full: seq<Entry>)
    requires |full| == 3 && DistinctNames(full) && SortedBy(full, false)
    requires forall k :: 0 <= k < |full| ==> BenchEntry(full[k])
    ensures full[0] == Entry("B", 70.0) && full[1] == Entry("C", 60.0)
  {
    assert BenchEntry(full[0]) && BenchEntry(full[1]) && BenchEntry(full[2]);
    assert full[0].best >= full[1].best >= full[2].best;
  }

  /** In BenchTable each player's best is their one Average. */
  lemma SingleRecordBest(recs: seq<Record>, i: nat)
    requires recs == BenchTable() && i < 3
    ensures recs[i].fullName in Names(recs, "Bench")
    ensures BestScore(recs, "Bench", recs[i].fullName, false) == recs[i].average
  {
    assert recs[i] in recs;
    var name := recs[i].fullName;
    assert forall r :: r in recs && r.fullName == name ==> r == recs[i];
    BestIsUnique(BestScore(recs, "Bench", name, false), recs[i].average, recs, "Bench", name, false);
  }
}
