/**
 * The already-loaded records table and the table operations the dashboard
 * applies to it: row filters, `unique()` on a column and `iloc[-1]`.
 */
module Table {

  /** One row of the sheet after loading: the player's full name (first and
      last name joined), team, age, metric and the session's Average. */
  datatype Record = Record(fullName: string, team: string, age: real, metric: string, average: real)

  /** `df[mask]`: the rows that pass `keep`, in table order. A single row is
      kept exactly when it passes, and WhereAppend splits the filter over a
      concatenation, which together fix every row's place. */
  function Where<T(!new)>(xs: seq<T>, keep: T -> bool): (r: seq<T>)
    ensures forall x :: x in r <==> x in xs && keep(x)
    ensures |r| <= |xs|
    ensures NoDuplicates(xs) ==> NoDuplicates(r)
    ensures |xs| == 1 ==> r == (if keep(xs[0]) then xs else [])
  {
    if xs == [] then []
    else if keep(xs[0]) then [xs[0]] + Where(xs[1..], keep)
    else Where(xs[1..], keep)
  }

  /** x is the first element of xs that passes keep. */
  ghost predicate IsFirstKept<T>(xs: seq<T>, keep: T -> bool, x: T)
  {
    exists i :: 0 <= i < |xs| && xs[i] == x && keep(x) && forall j :: 0 <= j < i ==> !keep(xs[j])
  }

  /** The first kept element is the first element that passes the filter. */
  lemma {:induction false} WhereFirst<T(!new)>(xs: seq<T>, keep: T -> bool)
    ensures Where(xs, keep) != [] ==> IsFirstKept(xs, keep, Where(xs, keep)[0])
    decreases |xs|
  {
    if xs != [] && !keep(xs[0]) {
      WhereFirst(xs[1..], keep);
      if Where(xs, keep) != [] {
        var i :| 0 <= i < |xs[1..]| && xs[1..][i] == Where(xs, keep)[0] && keep(xs[1..][i]) &&
          forall j :: 0 <= j < i ==> !keep(xs[1..][j]);
        assert xs[i + 1] == xs[1..][i];
        assert forall j :: 0 < j < i + 1 ==> xs[j] == xs[1..][j - 1];
      }
    }
  }

  /** Filtering a concatenation filters each part and keeps them in order. */
  lemma {:induction false} WhereAppend<T(!new)>(a: seq<T>, b: seq<T>, keep: T -> bool)
    ensures Where(a + b, keep) == Where(a, keep) + Where(b, keep)
    decreases |a|
  {
    if a == [] {
      assert a + b == b;
    } else {
      assert (a + b)[1..] == a[1..] + b;
      WhereAppend(a[1..], b, keep);
    }
  }

  /** `df[df["full_name"] == name]` (dashboard.py:73): the player's records
      in table order, the first of them (`iloc[0]`, line 77) being the
      player's first record in the table. */
  function OfPlayer(df: seq<Record>, name: string): (r: seq<Record>)
    ensures forall x :: x in r <==> x in df && x.fullName == name
    ensures r != [] ==>
      exists i :: (0 <= i < |df| && df[i] == r[0] && df[i].fullName == name &&
                   forall j :: 0 <= j < i ==> df[j].fullName != name)
  {
    WhereFirst(df, NameIs(name));
    Where(df, NameIs(name))
  }

  /** The mask `df["full_name"] == name`. */
  function NameIs(name: string): Record -> bool
  {
    (x: Record) => x.fullName == name
  }

  /** `df[df["Team"] == team]` (dashboard.py:149). */
  function OfTeam(df: seq<Record>, team: string): (r: seq<Record>)
    ensures forall x :: x in r <==> x in df && x.team == team
  {
    Where(df, (x: Record) => x.team == team)
  }

  /** The Metric_Type column: one cell per record, in table order. */
  function MetricColumn(recs: seq<Record>): (c: seq<string>)
    ensures |c| == |recs|
    ensures forall k :: 0 <= k < |c| ==> c[k] == recs[k].metric
  {
    seq(|recs|, k requires 0 <= k < |recs| => recs[k].metric)
  }

  /** A metric occurs in the column exactly when some record has it. */
  lemma InMetricColumn(recs: seq<Record>, m: string)
    ensures m in MetricColumn(recs) <==> exists r :: r in recs && r.metric == m
  {
    if m in MetricColumn(recs) {
      var k :| 0 <= k < |recs| && MetricColumn(recs)[k] == m;
      assert recs[k] in recs;
    }
    if exists r :: r in recs && r.metric == m {
      var r :| r in recs && r.metric == m;
      var k :| 0 <= k < |recs| && recs[k] == r;
      assert MetricColumn(recs)[k] == m;
    }
  }

  /** No element occurs twice. */
  predicate NoDuplicates<T(==)>(xs: seq<T>)
  {
    forall i, j :: 0 <= i < j < |xs| ==> xs[i] != xs[j]
  }

  /** `unique()`: the distinct values of a column in order of first appearance. */
  function Unique<T(==, !new)>(xs: seq<T>): (u: seq<T>)
    ensures forall x :: x in u <==> x in xs
    ensures NoDuplicates(u)
    decreases |xs|
  {
    if xs == [] then []
    else
      var init, last := xs[..|xs| - 1], xs[|xs| - 1];
      assert xs == init + [last];
      var u := Unique(init);
      if last in u then u else u + [last]
  }

  /** Index i holds the last record of the table with metric m. */
  predicate IsLastFor(recs: seq<Record>, m: string, i: nat)
  {
    i < |recs| && recs[i].metric == m && forall j :: i < j < |recs| ==> recs[j].metric != m
  }

  /** The position `...[Metric_Type == m].iloc[-1]` reads: the last record with
      that metric in table order (not in date order). */
  function LastIndex(recs: seq<Record>, m: string): (i: nat)
    requires m in MetricColumn(recs)
    ensures IsLastFor(recs, m, i)
    decreases |recs|
  {
    var n := |recs| - 1;
    if recs[n].metric == m then n
    else
      assert m in MetricColumn(recs[..n]) by {
        var k :| 0 <= k < |recs| && recs[k].metric == m;
        assert MetricColumn(recs[..n])[k] == m;
      }
      LastIndex(recs[..n], m)
  }

  /** Index j holds the table's last record of the player for metric m. */
  predicate IsLastOfPlayer(df: seq<Record>, name: string, m: string, j: nat)
  {
    j < |df| && df[j].fullName == name && df[j].metric == m &&
    forall l :: j < l < |df| ==> df[l].fullName != name || df[l].metric != m
  }

  /** The last record for m in `player_df` is the player's last record for m
      in the whole table: filtering by player keeps table order. */
  lemma {:induction false} LastOfPlayer(df: seq<Record>, name: string, m: string, i: nat)
    requires IsLastFor(OfPlayer(df, name), m, i)
    ensures exists j: nat :: IsLastOfPlayer(df, name, m, j) && df[j] == OfPlayer(df, name)[i]
    decreases |df|
  {
    var n := |df| - 1;
    var init, last := df[..n], df[n];
    OfPlayerSnoc(df, name);
    var p := OfPlayer(init, name);
    LastAcrossSnoc(OfPlayer(df, name), p, last, last.fullName == name, m, i);
    if last.fullName == name && i == |p| {
      assert IsLastOfPlayer(df, name, m, n);
    } else {
      LastOfPlayer(init, name, m, i);
      var j: nat :| IsLastOfPlayer(init, name, m, j) && init[j] == p[i];
      ExtendLastOfPlayer(df, name, m, j);
    }
  }

  /** Where the last record for m lies when one row is appended to a table. */
  lemma LastAcrossSnoc(pd: seq<Record>, pi: seq<Record>, last: Record, kept: bool, m: string, i: nat)
    requires pd == pi + (if kept then [last] else [])
    requires IsLastFor(pd, m, i)
    ensures (kept && i == |pi|) || (IsLastFor(pi, m, i) && pd[i] == pi[i] && (kept ==> last.metric != m))
  {
    if !(kept && i == |pi|) {
      if kept { assert pd[|pi|] == last; }
      assert forall l :: i < l < |pi| ==> pd[l] == pi[l];
    }
  }

  /** A last record of the table minus its last row stays last when that
      row is not another record of the player for m. */
  lemma ExtendLastOfPlayer(df: seq<Record>, name: string, m: string, j: nat)
    requires df != [] && IsLastOfPlayer(df[..|df| - 1], name, m, j)
    requires df[|df| - 1].fullName != name || df[|df| - 1].metric != m
    ensures IsLastOfPlayer(df, name, m, j)
  {
    var n := |df| - 1;
    assert forall l :: j < l < n ==> df[l] == df[..n][l];
  }

  /** Filtering by player splits off the table's last row. */
  lemma OfPlayerSnoc(df: seq<Record>, name: string)
    requires df != []
    ensures OfPlayer(df, name) ==
      OfPlayer(df[..|df| - 1], name) + (if df[|df| - 1].fullName == name then [df[|df| - 1]] else [])
  {
    var n := |df| - 1;
    assert df == df[..n] + [df[n]];
    WhereAppend(df[..n], [df[n]], NameIs(name));
    assert Where([df[n]], NameIs(name)) == (if df[n].fullName == name then [df[n]] else []);
  }

  /** A last position that lies inside a prefix is last in the prefix. */
  lemma LastInPrefix(recs: seq<Record>, p: seq<Record>, m: string, i: nat)
    requires IsLastFor(recs, m, i) && i < |p| <= |recs| && p == recs[..|p|]
    ensures IsLastFor(p, m, i)
  {
    assert forall l :: i < l < |p| ==> p[l] == recs[l];
  }
}
