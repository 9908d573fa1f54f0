# LCB training dashboard: decision engine

A Dafny model of the logic inside `dashboard.py`, the Streamlit dashboard for
youth athletic training records. Each record holds a player's full name, team,
age, metric type and session Average. The model covers:

- the age-band classifier `get_age_group` and the per-band target table;
- the set of metrics where a lower value is better;
- the Players tab gauges: which metrics get a gauge, the value each shows, and
  its target;
- the Teams tab: the Target column of "Team Averages vs Targets", the target
  markers, and one leaderboard per metric;
- the Leaderboard tab: the top-N best-score board for one metric.

Both leaderboards use one pipeline, in `leaderboard.dfy`:

1. keep the metric's records;
2. group them by `full_name`;
3. reduce each group with `min` when lower is better, `max` otherwise;
4. sort best first;
5. optionally keep the first `top_n` rows;
6. insert a Rank column 1..n.

The pipeline is a method, `RankPlayers`. It is proved against a ghost
specification, `IsLeaderboard`: some complete ranking of the players exists
whose first rows, numbered from 1, are the board. The ranking lists every
player with a record for the metric exactly once, with that player's min or
max Average, best first. Tied players may come in any order, as `sort_values`
does not promise one. Ranks stay distinct and consecutive.

Files and modules:

- `wrappers.dfy` (`Wrappers`): the `Option` type.
- `config.dfy` (`Config`): age bands, `lower_is_better`, the target table.
- `table.dfy` (`Table`): the record type and the column operations `dashboard.py` uses: boolean filtering, `unique()` and `iloc[-1]`.
- `leaderboard.dfy` (`Leaderboard`): the best-score leaderboard.
- `players.dfy` (`PlayersTab`): the Players tab gauges.
- `teams.dfy` (`TeamsTab`): the Teams tab targets, markers and leaderboards.
- `leaderboard_tab.dfy` (`LeaderboardTab`): the Leaderboard tab.

Points of `dashboard.py` the model keeps as written:

- A gauge shows the Average of the player's last record for the metric in
  table order (`iloc[-1]`); the code never sorts by date.
- A player's best on either board is the min or max of the Average column.
- The top-N slider allows 3..20.
- The Leaderboard tab has its own copy of the lower-is-better set (line 228),
  separate from `lower_is_better` (line 50). `LeaderboardTab.SameDirections`
  proves the two sets are equal.

Ages and scores are `real`. A player's age is the Age cell of their first
record. A team's age is passed in as `avgAge`: it is the rounded mean of the
team's Age column, and that mean is not modelled.

## Model

| member | source | states |
|---|---|---|
| Config.AgeGroup | dashboard.py:43-48 | Every age gets one of the five bands 8U..16U. The age lies in that band's interval: above the previous band's upper age and at most its own. The last band has no upper age. |
| Config.BandsAreDisjoint | dashboard.py:43-48 | No age lies in two band intervals, so AgeGroup's contract determines its result. |
| Config.AgeGroupBoundaries | dashboard.py:43-48 | A boundary age belongs to the lower band: 8→8U, 9→10U, 10→10U, 11→12U, 12→12U, 13→14U, 14→14U, 15→16U. Ages 0 and 99 get 8U and 16U. |
| Config.AgeGroupMonotone | dashboard.py:43-48 | An older player is never placed in a younger band. |
| Config.BandRow | dashboard.py:52-56 | A row of the target table has exactly the ten metrics, each with a positive target. |
| Config.TargetsOfBand | dashboard.py:51-57 | Every band's row has the ten metrics, all positive. |
| Config.Targets | dashboard.py:51-57 | The table has an entry for exactly the five bands. Every entry has the same ten metrics, and every target is positive, so none is 0. |
| Config.BandTargets | dashboard.py:94 | `targets.get(get_age_group(age), {})` always returns the full ten-metric row of the age's band, never the `{}` fallback. |
| Config.EveryAgeHasTargets | dashboard.py:94 | AgeGroup of any age is a key of the target table, and its row has the ten metrics. |
| Config.Tightens8UTo10U | dashboard.py:50-53 | From 8U to 10U, every target gets strictly harder in its metric's direction: lower for the three lower-is-better metrics, higher for the rest. |
| Config.Tightens10UTo12U | dashboard.py:50-54 | The same strict tightening from 10U to 12U. |
| Config.Tightens12UTo14U | dashboard.py:50-55 | The same strict tightening from 12U to 14U. |
| Config.Tightens14UTo16U | dashboard.py:50-56 | The same strict tightening from 14U to 16U. |
| Table.Where | dashboard.py:73 | Boolean-mask filtering keeps exactly the elements satisfying the condition. It never lengthens the sequence and never introduces a duplicate. A single row is kept exactly when it passes. |
| Table.WhereFirst | dashboard.py:73-77 | The first kept row is the first row of the table that passes the filter. |
| Table.WhereAppend | dashboard.py:73 | Filtering a concatenation gives the filtered parts one after the other. With the single-row case of Where this fixes the filter to table order. |
| Table.OfPlayer | dashboard.py:73-77 | `player_df` holds exactly the records whose full_name is the selected player. Its first row, read by `iloc[0]` for the age, is the player's first record in the table. |
| Table.LastOfPlayer | dashboard.py:73-99 | The last record for a metric in `player_df` is the player's last record for that metric in the whole table. |
| Table.OfTeam | dashboard.py:149 | `team_df` holds exactly the records whose Team is the selected team. |
| Table.Unique | dashboard.py:95 | `unique()` has exactly the values of the column, each once. |
| Table.MetricColumn | dashboard.py:95 | The `Metric_Type` column has one cell per record, holding that record's metric, in table order. |
| Table.InMetricColumn | dashboard.py:95 | A metric occurs in the column exactly when some record has it. |
| Table.LastIndex | dashboard.py:99 | `iloc[-1]` after filtering by metric reads the record with that metric that no later record in table order shares. |
| Leaderboard.Scores | dashboard.py:202-205 | A player's group holds exactly the Averages of that player's records for the metric. |
| Leaderboard.Extreme | dashboard.py:202-205 | `min` (`max`) of a non-empty group is one of its values and is at least as good as every value. |
| Leaderboard.BestScore | dashboard.py:202-205 | A player's best_score is one of their Averages for the metric and is at least as good as all of them. |
| Leaderboard.BestIsUnique | dashboard.py:202-205 | Two values that both satisfy the best-score property are equal, so each player has a single best score. |
| Leaderboard.GroupBest | dashboard.py:199-205 | The grouped table has one key per player with a record for the metric, and each value is that player's best score. |
| Leaderboard.PickBest | dashboard.py:203-206 | The chosen player is in the pool, and their best is at least as good as every other player's in the pool. |
| Leaderboard.SelectionStep | dashboard.py:203-206 | Appending the best remaining player keeps the partial ranking distinct, sorted best first, and no worse than anyone still unranked. |
| Leaderboard.SortByBest | dashboard.py:203-206 | `sort_values` returns every grouped player once with their best, best first. |
| Leaderboard.RankRows | dashboard.py:207 | `insert(0, "Rank", range(1, len+1))`: row k holds rank k+1 and the k-th kept entry. |
| Leaderboard.Take | dashboard.py:233-236 | `head(top_n)` keeps the first min(top_n, rows) entries of the ranking; with no limit it keeps all of them. |
| Leaderboard.RankPlayers | dashboard.py:231-238 | The pipeline's output is a leaderboard of the metric: a numbered prefix of a complete best-first ranking, ties in any order. |
| Leaderboard.RowsFollowRanking | dashboard.py:233-238 | The shown rows are the first entries of the ranking, numbered from 1. |
| Leaderboard.RankingLength | dashboard.py:202-206 | A complete ranking has one entry per distinct player with the metric. |
| Leaderboard.LeaderboardLength | dashboard.py:233-239 | The board has min(top_n, number of players with the metric) rows, and all of them without a limit. It is empty when nobody has the metric. |
| Leaderboard.LeaderboardRows | dashboard.py:231-238 | Ranks are 1..n. Every row's player has the metric and shows their min or max Average. No player appears twice, and rows are sorted best first. |
| Leaderboard.LeftOutAreNoBetter | dashboard.py:233-236 | A player cut off by `head(top_n)` is no better than any shown player. |
| Leaderboard.UnlimitedBoardIsComplete | dashboard.py:198-207 | Without a limit, every player with a record for the metric is on the board. |
| Leaderboard.TopBoardIsPrefix | dashboard.py:233-236 | A top-N board is a prefix of an untruncated board of the same ranking. |
| PlayersTab.GaugeMetrics | dashboard.py:95 | `gauge_metrics` holds exactly the player's metrics that have a band target, each once. |
| PlayersTab.LastAverage | dashboard.py:99 | The gauge value is the Average of the player's last record for the metric in table order. |
| PlayersTab.GaugesFor | dashboard.py:97-100 | One gauge per listed metric, in order. Each shows the metric's last Average against the given target. |
| PlayersTab.PlayerGauges | dashboard.py:94-100 | Gauges exist exactly for the player's metrics that have a target, none twice. Each shows the last Average against `age_targets[metric]`. |
| PlayersTab.PlayerTabGauges | dashboard.py:77-100 | For a non-empty player table, gauges exist exactly for the player's metrics among the ten target metrics, none twice. Each shows the metric's last Average in table order. Each target is the table's target for the band of the age on the player's first row. |
| PlayersTab.PlayerView | dashboard.py:72-126 | The gauge section appears exactly when a non-empty player name with at least one record is selected. It has a gauge exactly for each target metric the player recorded, none twice. It is empty, and "No targets available" shown, exactly when the player recorded none. Each gauge shows the metric's last Average in `player_df`, against the band target for the age on `player_df`'s first row. |
| PlayersTab.GaugesOfRecords | dashboard.py:95-126 | For a non-empty player table there is a gauge for each target metric some record has, and the list is empty exactly when no record has a target metric. |
| PlayersTab.GaugeShowsLastRecord | dashboard.py:73-99 | Each gauge shown shows the Average of the player's last record for its metric in the whole table. |
| TeamsTab.TeamTarget | dashboard.py:170-172 | A metric's Target is present exactly for the ten target metrics. When present it is the table's target for the team age's band, and positive, never 0. |
| TeamsTab.Lookup | dashboard.py:171 | `.get(m, None)` is present exactly when the key is in the row, and then it holds the row's value. |
| TeamsTab.TargetRowsFor | dashboard.py:169-172 | One target row per metric, in order, with the metric's looked-up target. |
| TeamsTab.TeamTargetRows | dashboard.py:169-172 | `avg_by_metric` has one row per metric the team recorded, none twice. Target is present exactly for the ten target metrics and then equals the band's target. |
| TeamsTab.Markers | dashboard.py:184 | `dropna(subset=["Target"])` keeps exactly the rows whose Target is present. |
| TeamsTab.MarkedMetricsOf | dashboard.py:184 | The marked metrics are exactly the metrics of the rows with a present Target. |
| TeamsTab.MarkedMetrics | dashboard.py:169-184 | A marker is drawn for a metric exactly when the team recorded it and it is one of the ten target metrics. |
| TeamsTab.MarkedOnce | dashboard.py:184 | No metric gets two markers. |
| TeamsTab.MarkerHeights | dashboard.py:184-187 | Every marker sits at the band's target for its metric, which is positive. |
| TeamsTab.TeamLeaderboards | dashboard.py:148-207 | With no team selected there is no board. Otherwise the team gets one board per metric it recorded, in first-appearance order. Each board is the untruncated leaderboard of the team's records in the global direction, and lists every team player with that metric. |
| TeamsTab.CompleteBoard | dashboard.py:198-207 | An untruncated leaderboard of the team's records lists every team player who has the metric. |
| TeamsTab.TeamMetrics | dashboard.py:198 | `team_df["Metric_Type"].unique()` lists exactly the metrics some record of the team has. |
| LeaderboardTab.SameDirections | dashboard.py:228-229 | The tab's local direction set has exactly the members of the global `lower_is_better`. |
| LeaderboardTab.TopLeaderboard | dashboard.py:226-238 | There is no board exactly when no metric is selected. Otherwise the board is the metric's top-N leaderboard over the whole table, with min(top_n, players) rows, and it is a prefix of the untruncated board. |
| LeaderboardTab.TopTwoBench | dashboard.py:231-238 | With three players whose Bench bests are 50, 70 and 60 (higher is better) and top_n = 2, the only possible board is rank 1 with 70, then rank 2 with 60. |

## Left out

- `load_data` is not part of this model: the Google Sheets connection, credentials, column coercion and the building of `full_name`. The model starts from a table of records.
- The Streamlit widgets, the Plotly figures and all other display code are left out. The selected player, team, metric and `top_n` are parameters.
- Floating point is left out: NaN cells, `dropna` on the selection lists, `round` and `mean`. Averages and ages are exact reals.
- The team's mean age (line 152) is an input, `avgAge`, and the per-metric team means on line 169 are not modelled. Only the Target column of `avg_by_metric` is modelled.
- The Date column, `nunique()` in the profile cards, and the trend charts guarded by `len(df_metric) > 1` carry no decision logic and are left out.
- TeamsTab.TeamTargetRows: rows follow the order in which metrics first appear, while `groupby` sorts them by name. Only display order differs.
- Leaderboard.SortByBest: it is a selection sort over the grouped players, not pandas' sort algorithm. Its contract admits every order of tied players, so it says nothing about which order pandas picks.
- LeaderboardTab.TopLeaderboard: `top_n` is any natural number. The slider's bounds 3..20 are not assumed.
