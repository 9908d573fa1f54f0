/**
 * The direction-aware best-score leaderboard that the team tab
 * (dashboard.py:198-207) and the leaderboard tab (dashboard.py:226-238) both
 * build: keep the records of one metric, group them by full_name, reduce each
 * group with min (lower is better) or max, sort best first, optionally keep
 * the first top_n rows, and number the rows 1..n.
 */
module Leaderboard {
  import opened Wrappers
  import opened Config
  import opened Table

  /** One row of the grouped table: a player and their best score. */
  datatype Entry = Entry(name: string, best: real)

  /** One shown row, after the Rank column has been inserted. */
  datatype Row = Row(rank: nat, name: string, best: real)

  // ----- Specification -----

  /** The players that have at least one record for the metric. */
  function Names(recs: seq<Record>, metric: string): set<string>
  {
    set r | r in recs && r.metric == metric :: r.fullName
  }

  /** The player's Average values for the metric, in table order. */
  function Scores(recs: seq<Record>, metric: string, name: string): (s: seq<real>)
    ensures forall v :: v in s <==>
      exists r :: r in recs && r.metric == metric && r.fullName == name && r.average == v
  {
    if recs == [] then []
    else
      assert forall r :: r in recs <==> r == recs[0] || r in recs[1..];
      var rest := Scores(recs[1..], metric, name);
      if recs[0].metric == metric && recs[0].fullName == name then [recs[0].average] + rest else rest
  }

  /** The minimum (lower is better) or the maximum (higher is better) of a
      nonempty sequence of scores. */
  function Extreme(s: seq<real>, lower: bool): (v: real)
    requires s != []
    ensures v in s
    ensures forall x :: x in s ==> Better(v, x, lower)
  {
    if |s| == 1 then s[0]
    else
      assert forall x :: x in s <==> x == s[0] || x in s[1..];
      var rest := Extreme(s[1..], lower);
      if Better(s[0], rest, lower) then s[0] else rest
  }

  /** v is one of the player's Average values for the metric and is at least
      as good as each of them. */
  ghost predicate IsBestOf(v: real, recs: seq<Record>, metric: string, name: string, lower: bool)
  {
    && (exists r :: r in recs && r.metric == metric && r.fullName == name && r.average == v)
    && (forall r :: r in recs && r.metric == metric && r.fullName == name ==> Better(v, r.average, lower))
  }

  /** best_score: `groupby("full_name")["Average"].min()` when lower is
      better, `.max()` otherwise, for one player. */
  function BestScore(recs: seq<Record>, metric: string, name: string, lower: bool): (v: real)
    requires name in Names(recs, metric)
    ensures IsBestOf(v, recs, metric, name, lower)
  {
    var s := Scores(recs, metric, name);
    assert s != [] by {
      var r :| r in recs && r.metric == metric && r.fullName == name;
      assert r.average in s;
    }
    Extreme(s, lower)
  }

  /** A player has exactly one best score. */
  lemma BestIsUnique(v: real, w: real, recs: seq<Record>, metric: string, name: string, lower: bool)
    requires IsBestOf(v, recs, metric, name, lower) && IsBestOf(w, recs, metric, name, lower)
    ensures v == w
  {
    var rv :| rv in recs && rv.metric == metric && rv.fullName == name && rv.average == v;
    var rw :| rw in recs && rw.metric == metric && rw.fullName == name && rw.average == w;
    assert Better(v, rw.average, lower) && Better(w, rv.average, lower);
  }

  /** The names of a sequence of entries. */
  function NamesOf(entries: seq<Entry>): set<string>
  {
    set k | 0 <= k < |entries| :: entries[k].name
  }

  /** No player appears twice. */
  predicate DistinctNames(entries: seq<Entry>)
  {
    forall i, j :: 0 <= i < j < |entries| ==> entries[i].name != entries[j].name
  }

  /** Best first: non-decreasing scores when lower is better, non-increasing
      otherwise. Ties may come in any order. */
  predicate SortedBy(entries: seq<Entry>, lower: bool)
  {
    forall i, j :: 0 <= i < j < |entries| ==> Better(entries[i].best, entries[j].best, lower)
  }

  /** `full` is a complete ranking of the metric: every player with a record
      for it exactly once, with their best score, best first. */
  ghost predicate IsRanking(full: seq<Entry>, recs: seq<Record>, metric: string, lower: bool)
  {
    && NamesOf(full) == Names(recs, metric)
    && DistinctNames(full)
    && (forall k :: 0 <= k < |full| ==>
          full[k].name in Names(recs, metric) && full[k].best == BestScore(recs, metric, full[k].name, lower))
    && SortedBy(full, lower)
  }

  /** `head(top_n)` when a limit is given; the whole ranking otherwise. */
  function Take(full: seq<Entry>, limit: Option<nat>): (kept: seq<Entry>)
    ensures |kept| == Cut(|full|, limit)
    ensures kept == full[..|kept|]
  {
    match limit
    case None => full
    case Some(n) => if n < |full| then full[..n] else full
  }

  /** `rows` is `kept` with the Rank column 1..|kept| in front. */
  predicate RankedAs(rows: seq<Row>, kept: seq<Entry>)
  {
    |rows| == |kept| &&
    forall k :: 0 <= k < |rows| ==> rows[k] == Row(k + 1, kept[k].name, kept[k].best)
  }

  /** `rows` is what the dashboard shows for the metric: for some order of
      the tied players, the first rows of the ranking, numbered from 1. */
  ghost predicate IsLeaderboard(rows: seq<Row>, recs: seq<Record>, metric: string, lower: bool, limit: Option<nat>)
  {
    exists full :: IsRanking(full, recs, metric, lower) && RankedAs(rows, Take(full, limit))
  }

  /** The length `min(top_n, count)` of a board over `count` players. */
  function Cut(count: nat, limit: Option<nat>): nat
  {
    match limit
    case None => count
    case Some(n) => if n < count then n else count
  }

  /** Appending an entry adds its name to the names. */
  lemma NamesOfAppend(entries: seq<Entry>, e: Entry)
    ensures NamesOf(entries + [e]) == NamesOf(entries) + {e.name}
  {
    var next := entries + [e];
    forall x | x in NamesOf(next) ensures x in NamesOf(entries) + {e.name} {
      var k :| 0 <= k < |next| && next[k].name == x;
      if k < |entries| { assert entries[k].name == x; }
    }
    forall x | x in NamesOf(entries) ensures x in NamesOf(next) {
      var k :| 0 <= k < |entries| && entries[k].name == x;
      assert next[k].name == x;
    }
    assert next[|entries|].name == e.name;
  }

  // ----- Implementation -----

  /** Filter by metric, `groupby("full_name")` and reduce each group with min
      or max, in one pass over the table. */
  method GroupBest(recs: seq<Record>, metric: string, lower: bool) returns (best: map<string, real>)
    ensures best.Keys == Names(recs, metric)
    ensures forall n :: n in best ==> best[n] == BestScore(recs, metric, n, lower)
  {
    best := map[];
    var i := 0;
    while i < |recs|
      invariant 0 <= i <= |recs|
      invariant best.Keys == Names(recs[..i], metric)
      invariant forall n :: n in best ==> IsBestOf(best[n], recs[..i], metric, n, lower)
    {
      var r := recs[i];
      assert recs[..i + 1] == recs[..i] + [r];
      if r.metric == metric {
        if r.fullName !in best || !Better(best[r.fullName], r.average, lower) {
          best := best[r.fullName := r.average];
        }
      }
      i := i + 1;
    }
    assert recs[..i] == recs;
    forall n | n in best
      ensures best[n] == BestScore(recs, metric, n, lower)
    {
      BestIsUnique(best[n], BestScore(recs, metric, n, lower), recs, metric, n, lower);
    }
  }

  /** A player of the pool whose score is at least as good as every other's. */
  method PickBest(best: map<string, real>, pool: set<string>, lower: bool) returns (top: string)
    requires pool != {} && pool <= best.Keys
    ensures top in pool
    ensures forall n :: n in pool ==> Better(best[top], best[n], lower)
  {
    top :| top in pool;
    var rest := pool - {top};
    while rest != {}
      invariant rest <= pool && top in pool
      invariant forall n :: n in pool && n !in rest ==> Better(best[top], best[n], lower)
      decreases |rest|
    {
      var n :| n in rest;
      if !Better(best[top], best[n], lower) {
        top := n;
      }
      rest := rest - {n};
    }
  }

  /** What the selection loop of SortByBest keeps: `full` holds the players
      already taken from the map, each once and best first, and each of them
      is at least as good as every player still in `pool`. */
  ghost predicate SelectionInvariant(full: seq<Entry>, best: map<string, real>, pool: set<string>, lower: bool)
  {
    && pool <= best.Keys
    && NamesOf(full) == best.Keys - pool
    && DistinctNames(full)
    && (forall k :: 0 <= k < |full| ==> full[k].name in best && full[k].best == best[full[k].name])
    && SortedBy(full, lower)
    && (forall k, n :: 0 <= k < |full| && n in pool ==> Better(full[k].best, best[n], lower))
  }

  /** Moving the best player of the pool to the end of `full` keeps the
      selection invariant. */
  lemma SelectionStep(full: seq<Entry>, best: map<string, real>, pool: set<string>, top: string, lower: bool)
    requires SelectionInvariant(full, best, pool, lower)
    requires top in pool && forall n :: n in pool ==> Better(best[top], best[n], lower)
    ensures SelectionInvariant(full + [Entry(top, best[top])], best, pool - {top}, lower)
  {
    var next := full + [Entry(top, best[top])];
    NamesOfAppend(full, Entry(top, best[top]));
    forall k | 0 <= k < |full| ensures next[k].name != top {
      assert full[k].name in NamesOf(full);
    }
  }

  /** `sort_values("best_score")`, ascending when lower is better and
      descending otherwise: the grouped table in best-first order. Which of
      two tied players comes first is left open, as with the unstable sort. */
  method SortByBest(best: map<string, real>, lower: bool) returns (full: seq<Entry>)
    ensures NamesOf(full) == best.Keys
    ensures DistinctNames(full)
    ensures forall k :: 0 <= k < |full| ==> full[k].name in best && full[k].best == best[full[k].name]
    ensures SortedBy(full, lower)
  {
    full := [];
    var pool := best.Keys;
    while pool != {}
      invariant SelectionInvariant(full, best, pool, lower)
      decreases |pool|
    {
      var top := PickBest(best, pool, lower);
      SelectionStep(full, best, pool, top, lower);
      full := full + [Entry(top, best[top])];
      pool := pool - {top};
    }
  }

  /** `df_best.insert(0, "Rank", range(1, len(df_best) + 1))`. */
  method RankRows(kept: seq<Entry>) returns (rows: seq<Row>)
    ensures RankedAs(rows, kept)
  {
    rows := [];
    var i := 0;
    while i < |kept|
      invariant 0 <= i <= |kept|
      invariant RankedAs(rows, kept[..i])
    {
      rows := rows + [Row(i + 1, kept[i].name, kept[i].best)];
      i := i + 1;
    }
    assert kept[..i] == kept;
  }

  /** The whole pipeline for one metric; `limit` is `Some(top_n)` on the
      leaderboard tab and `None` on the team tab. */
  method RankPlayers(recs: seq<Record>, metric: string, lower: bool, limit: Option<nat>)
    returns (rows: seq<Row>)
    ensures IsLeaderboard(rows, recs, metric, lower, limit)
  {
    var best := GroupBest(recs, metric, lower);
    var full := SortByBest(best, lower);
    rows := RankRows(Take(full, limit));
    assert IsRanking(full, recs, metric, lower);
  }

  // ----- Properties -----

  /** A sequence of entries without repeated names has as many names as entries. */
  lemma {:induction false} DistinctNamesCount(entries: seq<Entry>)
    requires DistinctNames(entries)
    ensures |NamesOf(entries)| == |entries|
  {
    if entries != [] {
      var tail := entries[1..];
      assert DistinctNames(tail) by {
        forall i, j | 0 <= i < j < |tail| ensures tail[i].name != tail[j].name {
          assert tail[i] == entries[i + 1] && tail[j] == entries[j + 1];
        }
      }
      DistinctNamesCount(tail);
      assert NamesOf(entries) == {entries[0].name} + NamesOf(tail) by {
        forall x | x in NamesOf(entries) ensures x == entries[0].name || x in NamesOf(tail) {
          var k :| 0 <= k < |entries| && entries[k].name == x;
          if k > 0 { assert tail[k - 1].name == x; }
        }
        forall x | x in NamesOf(tail) ensures x in NamesOf(entries) {
          var k :| 0 <= k < |tail| && tail[k].name == x;
          assert entries[k + 1].name == x;
        }
      }
      forall k | 0 <= k < |tail| ensures tail[k].name != entries[0].name {
        assert tail[k] == entries[k + 1];
      }
    }
  }

  /** The rows of a board are the first entries of its ranking, numbered. */
  lemma RowsFollowRanking(rows: seq<Row>, full: seq<Entry>, limit: Option<nat>)
    requires RankedAs(rows, Take(full, limit))
    ensures |rows| <= |full|
    ensures forall k :: 0 <= k < |rows| ==>
      rows[k].rank == k + 1 && rows[k].name == full[k].name && rows[k].best == full[k].best
  {
    var kept := Take(full, limit);
    assert |kept| <= |full| && forall k :: 0 <= k < |kept| ==> kept[k] == full[k];
  }

  /** A complete ranking has one entry per player with a record for the metric. */
  lemma RankingLength(full: seq<Entry>, recs: seq<Record>, metric: string, lower: bool)
    requires IsRanking(full, recs, metric, lower)
    ensures |full| == |Names(recs, metric)|
  {
    DistinctNamesCount(full);
  }

  /** The board has min(top_n, number of players with the metric) rows, and
      all of them when there is no limit; with no record for the metric it is
      empty. */
  lemma LeaderboardLength(rows: seq<Row>, recs: seq<Record>, metric: string, lower: bool, limit: Option<nat>)
    requires IsLeaderboard(rows, recs, metric, lower, limit)
    ensures |rows| == Cut(|Names(recs, metric)|, limit)
    ensures Names(recs, metric) == {} ==> rows == []
  {
    var full: seq<Entry> :| IsRanking(full, recs, metric, lower) && RankedAs(rows, Take(full, limit));
    RankingLength(full, recs, metric, lower);
  }

  /** What each shown row holds: ranks 1..n with no rank shared, every player
      at most once with their min or max Average for the metric, best first. */
  lemma LeaderboardRows(rows: seq<Row>, recs: seq<Record>, metric: string, lower: bool, limit: Option<nat>)
    requires IsLeaderboard(rows, recs, metric, lower, limit)
    ensures forall k :: 0 <= k < |rows| ==> rows[k].rank == k + 1
    ensures forall k :: 0 <= k < |rows| ==>
      rows[k].name in Names(recs, metric) && rows[k].best == BestScore(recs, metric, rows[k].name, lower)
    ensures forall i, j :: 0 <= i < j < |rows| ==> rows[i].name != rows[j].name
    ensures forall i, j :: 0 <= i < j < |rows| ==> Better(rows[i].best, rows[j].best, lower)
  {
    var full: seq<Entry> :| IsRanking(full, recs, metric, lower) && RankedAs(rows, Take(full, limit));
    RowsFollowRanking(rows, full, limit);
  }

  /** Every player with the metric who is left off a truncated board is no
      better than any shown player, the last one included. */
  lemma LeftOutAreNoBetter(rows: seq<Row>, recs: seq<Record>, metric: string, lower: bool, limit: Option<nat>, name: string)
    requires IsLeaderboard(rows, recs, metric, lower, limit)
    requires name in Names(recs, metric)
    requires forall k :: 0 <= k < |rows| ==> rows[k].name != name
    ensures forall k :: 0 <= k < |rows| ==> Better(rows[k].best, BestScore(recs, metric, name, lower), lower)
  {
    var full: seq<Entry> :| IsRanking(full, recs, metric, lower) && RankedAs(rows, Take(full, limit));
    RowsFollowRanking(rows, full, limit);
    assert name in NamesOf(full);
    var j :| 0 <= j < |full| && full[j].name == name;
    assert forall k :: 0 <= k < |rows| ==> full[k].name != full[j].name;
    assert |rows| <= j;
  }

  /** Without a limit, as on the team tab, every player with a record for the
      metric is on the board. */
  lemma UnlimitedBoardIsComplete(rows: seq<Row>, recs: seq<Record>, metric: string, lower: bool, name: string)
    requires IsLeaderboard(rows, recs, metric, lower, None)
    requires name in Names(recs, metric)
    ensures exists k :: 0 <= k < |rows| && rows[k].name == name
  {
    var full: seq<Entry> :| IsRanking(full, recs, metric, lower) && RankedAs(rows, Take(full, None));
    assert name in NamesOf(full);
    var k :| 0 <= k < |full| && full[k].name == name;
    assert rows[k].name == name;
  }

  /** The ranking numbered from 1 in full, the untruncated board. */
  function Numbered(full: seq<Entry>): (rows: seq<Row>)
    ensures RankedAs(rows, full)
  {
    seq(|full|, k requires 0 <= k < |full| => Row(k + 1, full[k].name, full[k].best))
  }

  /** A board is the first rows of its ranking numbered in full. */
  lemma PrefixOfNumbered(rows: seq<Row>, full: seq<Entry>, limit: Option<nat>)
    requires RankedAs(rows, Take(full, limit))
    ensures |rows| <= |full| && rows == Numbered(full)[..|rows|]
  {
    RowsFollowRanking(rows, full, limit);
  }

  /** A board cut to top_n is a prefix of an uncut board of the same ranking. */
  lemma TopBoardIsPrefix(rows: seq<Row>, recs: seq<Record>, metric: string, lower: bool, topN: nat)
    requires IsLeaderboard(rows, recs, metric, lower, Some(topN))
    ensures exists all :: IsLeaderboard(all, recs, metric, lower, None) && |rows| <= |all| && rows == all[..|rows|]
  {
    var full: seq<Entry> :| IsRanking(full, recs, metric, lower) && RankedAs(rows, Take(full, Some(topN)));
    PrefixOfNumbered(rows, full, Some(topN));
    var all := Numbered(full);
    assert IsLeaderboard(all, recs, metric, lower, None) by {
      assert Take(full, None) == full;
    }
  }
}
