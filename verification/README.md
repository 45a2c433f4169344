# Verified model of a network-supervision platform

This project models, in Dafny, the parts of the platform where an error would go unnoticed: a cached database
column kept up to date by triggers, outage episodes, the drawing of the network, the statistics under the history
graphs, the cutting of unpaid clients on the core router, and the batch scripts that must survive being interrupted.
Each part is written the way the code is written (a class or a method with its loop where the code changes things
step by step, functions where it computes) and is compared with an independent statement of what it is for.

| Files | What they are about |
|---|---|
| `SiteTriggers`, `SiteTransactions`, `SiteRequests`, `SiteDatabase` | `devices.site`, the three triggers that maintain it, the transactions that touch it, and the move of point-to-point radios to their own table |
| `Episodes`, `EpisodeMeaning`, `EpisodeQuery`, `EpisodeReports` | grouping incidents into outage episodes, in SQL and in Python, and what is reported of them |
| `SiteGraph`, `TopologyLayout`, `LayoutSeparation`, `LayoutRows`, `LayoutOrder`, `TopologyCards`, `DrawingSize`, `TopologyPorts`, `NetworkDrawing` | from the links of the network to the cards and lines of the drawing |
| `Routes`, `RouteVisits` | every simple path from a site to the root |
| `OrderStatistics`, `MetricHistory`, `MetricMeaning` | median, quantile, trend, segments and verdict of a metric |
| `RouterBlock`, `BlockScripts` | intent, belief and reality of a client cut on the router, under concurrency and crashes |
| `OutageSender`, `JournalRewrite`, `JournalWriting`, `ConsumptionBackfill` | a resumable mass mailing, an audit log with its reader and an in-place edit of it, a resumable daily backfill |
| `PowerMetrics` | two forms of one SQL query |
| `FibrePlan`, `FibreMeaning`, `Dashes` | what a fibre plan contains and how its lines are dashed |
| `Order`, `Reals`, `Text`, `Wrappers` | sorting, numbers, splitting text, `Option` and lookup |

## What turned out not to hold

Several promises of the code or of its comments hold only under a condition. The exact condition is proved both
ways, and lemmas give inputs that break the promise.

* **Episodes.** Both groupings compare an incident with the end of the previous row, not with the latest end. The
  groups are the chains of short pauses, and the episodes a merge gap apart, exactly when no row opens a group while
  an older incident is still within the gap (`NoReopen`; incidents that are not nested are enough,
  `NonNestedNeverReopens`). The downtime is the time out exactly when no row is counted twice (`CountsOnce`);
  `NestedIncidentsOvercount` gives a family that is, and raising the gap then lowers the downtime
  (`RaisingTheGapNeverLowers`). The Python docstring (lines 198-200) says an episode is ongoing when any incident is
  open; the code looks at the last one only (`OngoingCanBeMissed`, `OngoingIsSomeOpen`). Python and SQL give the same
  episodes exactly when no row outlives the last one of its group (`SqlVersusPython`, `NestedIncidentIsForgotten`).
  For both it is enough that incidents are not nested and, for the docstring, that closed ones ended before now
  (`NonNestedAgree`, `NonNestedHidesNothing`). A merge gap of 0 is said to disable merging; it does exactly when no
  row starts before the previous one ends (`NothingIsMerged`, `ZeroGapMerges`).
* **Router.** `block_by_mac` takes any drop rule of the MAC, disabled or on another chain, for a cut
  (`DisabledRuleTakenForCut`). Between the router's reply and its commit an unblocking has the flag up without a rule;
  what is kept is that the flag is true or about to be taken back (`Safe`). The job only acts when the flag and the
  desired state differ, so four kinds of crash, interleaving or foreign rule leave a state it never repairs;
  `JobRepairsTheRepairable` says exactly which. The migration's comment derives the desired state from two columns;
  the code also covers abandoned radios, and the model follows the code.
* **Mailing.** The script says an interruption never sends a message twice. It does when it falls between the reply
  and the log line (`InterruptionSendsTwice`); `SafeBeforeAnyRun` says from which logs a run can repeat a message, and
  `NobodyServedTwice` when a history does. A line break in an answer can count somebody else as served
  (`AnswerCanServeOthers`); `LogGrows` says exactly when it does, and `OneLineHasNoStrays` that it takes a break.
* **Journal.** The script says it splits lines as the reader does; the reader splits into nine pieces, the script
  into eight. The edit is still invisible to the reader (`ReaderSeesOnlyTheSource`). The writer cleans origin, agent
  and message, but not the client's name: a separator in it shifts the columns (`WrittenLineReadsBack`,
  `SeparatorInNameIsMisread`).
* **Drawing.** The graph is meant to fit its place. In height it does whenever its rows can; in width it sticks out by
  its margins unless there is room for the columns at their greatest distance (`HeightFits`, `WidthFits`).
* **Trend and verdict.** A lone spike does show at the ends of a series under a window of three, and nowhere else
  (`SpikeIgnoredExactly`). It changes the verdict on a level series of two to four points, and on no longer one
  (`OneSpikeIsStableExactly`, `ShortSeriesIsIrregular`).
* **Dry run.** The marking script's dry run foretells a real run except for rules the router refuses and MACs listed
  twice in different spellings (`DryRunForetells`, `RepeatIsNotForetold`).

## Model

| member | source | states |
|---|---|---|
| `SiteTriggers.StatementKeepsSites` | backend/alembic/versions/c0d1e2f3a4b5_centralize_site_and_dashboard_rpc.py:78-149 | after any one statement and its triggers every cached site equals the resolved one, if and only if the statement is harmless; only rows of a subtype that does not match the device's type can break it |
| `SiteTriggers.KeysKept` | backend/app/models/device.py:176-187 | every statement with its cascades keeps the foreign keys |
| `SiteTransactions.HarmlessTransaction` | backend/alembic/versions/c0d1e2f3a4b5_centralize_site_and_dashboard_rpc.py:78-149 | any sequence of harmless statements that ends with each device having exactly its subtype row ends with every cached site right, although an LR has none between its two inserts |
| `SiteTransactions.HistoryStaysConsistent` | backend/app/services/device_service.py:112-192 | over any history of creations, moves, reassignments, deletions and type changes, failed ones rolled back, site, subtype rows and keys agree after each transaction |
| `SiteTransactions.PromotionStaysConsistent` | backend/app/services/uisp_sync_service.py:185-216 | turning one Rocket or LR into a point-to-point radio is the migration for that one device, and keeps everything consistent |
| `SiteTransactions.DemotionStaysConsistent` | backend/app/services/uisp_sync_service.py:219-256 | the way back keeps everything consistent, although the site is wrong between its statements |
| `SiteTransactions.DemotionUndoesPromotion` | backend/app/services/uisp_sync_service.py:185-256 | an LR promoted and demoted again differs only in its Rocket, its site and its port, which is the old one where it was set and 443 where it was not; user, password and fingerprint are the old ones |
| `SiteTransactions.PromotionMovesRow` | backend/alembic/versions/b5c6d7e8f9a0_add_ptp_litebeam_type.py:50-72 | for each device, what the whole migration leaves: user, password and fingerprint those of the old row, the port too where it was set and 443 where it was not; LRs of a moved Rocket without Rocket and site; all other rows untouched |
| `SiteTransactions.PromotedConsistent` | backend/alembic/versions/b5c6d7e8f9a0_add_ptp_litebeam_type.py:50-72 | the database is consistent after the migration if and only if every selected id was a Rocket or an LR |
| `SiteTransactions.BackfillMakesConsistent` | backend/alembic/versions/c0d1e2f3a4b5_centralize_site_and_dashboard_rpc.py:152-153 | the first fill makes every site right whatever the tables hold |
| `SiteRequests.RequestsDoWhatTheyShould` | backend/app/services/device_service.py:112-192 | what every request leaves, column by column: the device created, moved, reassigned, removed or turned into another kind with its login, every other row as it was, and nothing at all when the request cannot be met |
| `SiteRequests.ToPtpOutcome` | backend/app/services/uisp_sync_service.py:185-216 | a promoted Rocket or LR keeps location, user, password and fingerprint, gets port 443 where it had none, and its LRs lose their Rocket |
| `SiteRequests.PtpToLrOutcome` | backend/app/services/uisp_sync_service.py:219-256 | a demoted radio becomes an LR without Rocket with the same login, port 22 where it had none |
| `SiteRequests.CleanSiteIs` | backend/alembic/versions/c0d1e2f3a4b5_centralize_site_and_dashboard_rpc.py:61-76 | the site of a location is the location without the blanks around it, and "Sans site" when nothing else is left |
| `SiteRequests.SitesMean` | backend/alembic/versions/c0d1e2f3a4b5_centralize_site_and_dashboard_rpc.py:61-119 | in a consistent database each device has the site of its own location, but an LR that of its Rocket's location, and "Sans site" without a Rocket |
| `SiteDatabase.Database.Execute` | backend/alembic/versions/c0d1e2f3a4b5_centralize_site_and_dashboard_rpc.py:78-149 | a statement run in place, row by row with its triggers, has exactly the specified effect or none |
| `SiteDatabase.Database.DeleteRockets` | backend/alembic/versions/c0d1e2f3a4b5_centralize_site_and_dashboard_rpc.py:122-149 | deleting Rockets detaches each of their LRs, whose trigger clears its site |
| `SiteDatabase.Database.Transact` | backend/app/services/device_service.py:112-192 | a transaction has the effect of all its statements or none |
| `SiteDatabase.Database.MigratePtp` | backend/alembic/versions/b5c6d7e8f9a0_add_ptp_litebeam_type.py:56-71 | the five statements in order have the effect that the lemmas above describe |
| `Episodes.MergeEpisodes` | backend/app/services/network_uptime_service.py:191-260 | the one-pass loop reports, for each cut of the rows, its first id and alert type, bounds, duration, severity and sub-incidents |
| `EpisodeQuery.PeersShareTheirGroup` | backend/alembic/versions/c0d1e2f3a4b5_centralize_site_and_dashboard_rpc.py:347-351 | the running sum of the query, which takes in all rows that start together, is the one taken row by row, if and only if no row opens a group among rows that start with it; a merge gap above 0 excludes that |
| `EpisodeQuery.QueryEpisodesAreFolded` | backend/alembic/versions/c0d1e2f3a4b5_centralize_site_and_dashboard_rpc.py:338-358 | the episodes of the query, grouped by its running sum, are those of the row-by-row sum and of a one-pass fold, under any gap above 0 and under a gap of 0 when no row opens a group among rows that start with it |
| `EpisodeQuery.PeersCanOpen` | backend/alembic/versions/c0d1e2f3a4b5_centralize_site_and_dashboard_rpc.py:347-351 | under a gap of 0 a family of rows that the two sums number differently |
| `EpisodeReports.PythonGroupsAreSqlGroups` | backend/app/services/network_uptime_service.py:238-258 | on the same rows in the same order the Python loop and the row-by-row sum of the query cut at the same places |
| `EpisodeReports.StartsAreCuts` | backend/app/services/network_uptime_service.py:238-258 | a row starts a group exactly when it is the first or the pause before it reaches the gap |
| `EpisodeReports.GroupsAreStretches` | backend/app/services/network_uptime_service.py:238-258 | each group is the stretch of rows from one such row to the next |
| `EpisodeReports.EpisodesTellOfTheirRows` | backend/app/services/network_uptime_service.py:191-260 | each episode tells of the rows from its start to the next: id, start and alert type of the first, end of the last, whether that is open, the duration between, and every row as a sub-incident in order |
| `EpisodeReports.NothingIsMerged` | backend/app/api/endpoints/network_uptime.py:52-62 | no two incidents are merged, if and only if a pause of at least the gap precedes every row; under a gap of 0, if no row starts before the previous one ends |
| `EpisodeReports.ZeroGapMerges` | backend/app/api/endpoints/network_uptime.py:52-62 | a gap of 0 still merges two incidents that overlap |
| `EpisodeMeaning.LagGroupsAreChains` | backend/alembic/versions/c0d1e2f3a4b5_centralize_site_and_dashboard_rpc.py:338-351 | two incidents share a group exactly when a chain of pauses below the gap links them, if and only if no row reopens |
| `EpisodeMeaning.IncidentInItsEpisode` | backend/alembic/versions/c0d1e2f3a4b5_centralize_site_and_dashboard_rpc.py:352-358 | every incident lies inside the episode of its group |
| `EpisodeMeaning.EpisodesApart` | backend/alembic/versions/c0d1e2f3a4b5_centralize_site_and_dashboard_rpc.py:338-358 | episodes are ordered and at least the merge gap apart, if and only if no row reopens |
| `EpisodeMeaning.EpisodesCoverOutages` | backend/alembic/versions/c0d1e2f3a4b5_centralize_site_and_dashboard_rpc.py:352-358 | the episodes cover the incidents and the short pauses between neighbours, and nothing else |
| `EpisodeMeaning.DowntimeVersusMeasure` | backend/alembic/versions/c0d1e2f3a4b5_centralize_site_and_dashboard_rpc.py:359-367 | the summed clipped durations are at least the time covered, and equal to it if and only if no two episodes overlap in the window |
| `EpisodeMeaning.DowntimeIsMeasure` | backend/alembic/versions/c0d1e2f3a4b5_centralize_site_and_dashboard_rpc.py:359-367 | a device's downtime is at least the time of the window it was out, and equal to it if and only if no row is counted twice: no instant of the window lies before the end of both an earlier row and a row of a group opened later; without reopening that holds |
| `EpisodeMeaning.NestedIncidentsOvercount` | backend/alembic/versions/c0d1e2f3a4b5_centralize_site_and_dashboard_rpc.py:338-367 | a long incident with two short ones inside gives overlapping episodes and more downtime than it lasted |
| `EpisodeMeaning.LargerGapCovers` | backend/alembic/versions/c0d1e2f3a4b5_centralize_site_and_dashboard_rpc.py:338-358 | every episode under a gap lies inside one under any larger gap, nested incidents included |
| `EpisodeMeaning.LargerGapMonotone` | backend/alembic/versions/c0d1e2f3a4b5_centralize_site_and_dashboard_rpc.py:338-367 | raising the gap never raises the number of episodes, and never lowers a downtime in which no row is counted twice |
| `EpisodeMeaning.RaisingTheGapNeverLowers` | backend/alembic/versions/c0d1e2f3a4b5_centralize_site_and_dashboard_rpc.py:338-367 | over all windows and all larger gaps the downtime never falls, if and only if no row is counted twice in any window |
| `EpisodeReports.SqlVersusPython` | backend/app/services/network_uptime_service.py:191-260 | same starts, Python ends no later, and the lists are equal if and only if no row ends after the last row of its group |
| `EpisodeReports.SqlEqualsPython` | backend/app/services/network_uptime_service.py:118-130 | Python never reports more downtime than SQL, and as much if and only if no row runs at an instant of the window after the end of the last row of its group |
| `EpisodeReports.SeverityIsHighest` | backend/app/services/network_uptime_service.py:246-253 | the severity reported is that of one of the incidents, and none ranks higher |
| `EpisodeReports.SeverityMeans` | backend/app/services/network_uptime_service.py:246-253 | critical when any incident is critical, else warning when any is a warning or has no severity, else the severity of the first |
| `EpisodeReports.OngoingIsSomeOpen` | backend/app/services/network_uptime_service.py:198-208 | every episode is reported as ongoing exactly when one of its incidents is open, if and only if no open row is followed, within its group, by a last row that is closed |
| `EpisodeReports.OngoingCanBeMissed` | backend/app/services/network_uptime_service.py:198-208 | two incidents for which the docstring's rule fails |
| `SiteGraph.Walk` | backend/app/services/site_topology_service.py:306-318 | every site found hangs from a parent one column nearer, all neighbours of found sites are found, and the walk is breadth first with neighbours taken by name |
| `SiteGraph.OneBreadthFirstWalk` | backend/app/services/site_topology_service.py:306-318 | there is one such walk: two of them give every site the same parent |
| `SiteGraph.ChooseRoot` | backend/app/services/site_topology_service.py:296-304 | the requested root if the graph has it, else a site with most links, the last by name among them |
| `SiteGraph.DepthIsDistance` | backend/app/services/site_topology_service.py:306-318 | a site has a depth exactly when a chain of links reaches it, and the depth is the length of the shortest |
| `TopologyLayout.Placer.Place` | frontend/components/TopologyGraph.tsx:690-702 | the recursive placement with its shared cursor and map has the effect of the specified recursion, described by the `LayoutRows` and `LayoutSeparation` rows |
| `TopologyLayout.LayoutUnits` | frontend/components/TopologyGraph.tsx:678-717 | the whole method returns the specified slots, row count and column count |
| `LayoutRows.PlacingFills` | frontend/components/TopologyGraph.tsx:690-702 | placing a branch moves the cursor by exactly the number of its sites without children, and gives each of these a whole row of its own, none left empty |
| `LayoutRows.RowsAreTakenOnce` | frontend/components/TopologyGraph.tsx:703-716 | there are as many rows as sites without children or not reached, and at least one; each row is the row of exactly one of them, the reached ones first |
| `LayoutRows.UnreachedInListOrder` | frontend/components/TopologyGraph.tsx:704-710 | sites not reached follow in the order of the list |
| `LayoutRows.LastColumnIsDeepest` | frontend/components/TopologyGraph.tsx:715 | the last column is that of the deepest site, and 0 when none has a depth |
| `LayoutSeparation.PlacingAdds` | frontend/components/TopologyGraph.tsx:690-702 | placing a subtree adds slots for exactly its sites, in fresh rows, unrelated sites at least one row apart |
| `LayoutSeparation.ChildrenInNameOrder` | frontend/components/TopologyGraph.tsx:691-699 | children lie top to bottom in name order and their parent in the middle of first and last |
| `LayoutOrder.ParentsInTheMiddle` | frontend/components/TopologyGraph.tsx:678-717 | in the finished layout of any tree the children of a reached site lie below one another by name, at least a row apart, and the site is halfway between the first and the last |
| `Order.NameLeMeans` | backend/app/services/site_topology_service.py:314 | names are compared by their first characters that differ, a beginning before the whole |
| `TopologyCards.LayoutSeparates` | frontend/components/TopologyGraph.tsx:678-717 | any two sites are a row apart or in different columns, sites not reached from the root included |
| `TopologyCards.LayoutComplete` | frontend/components/TopologyGraph.tsx:703-716 | every site is placed once, in its column, within the computed rows and columns |
| `TopologyCards.GeometryFits` | frontend/components/TopologyGraph.tsx:107-147 | for every viewport the sizes leave room for a card per row and column and contain the drawing |
| `TopologyCards.NoTwoCardsOverlap` | frontend/components/TopologyGraph.tsx:107-158 | for every tree and viewport no two cards overlap and every card lies inside the drawing |
| `DrawingSize.HeightFits` | frontend/components/TopologyGraph.tsx:111-119 | the drawing is no higher than its place if and only if its rows at their least height are not, and fills it exactly when the rows need not grow beyond their greatest height |
| `DrawingSize.WidthFits` | frontend/components/TopologyGraph.tsx:133-146 | the drawing is no wider than its place if and only if there is room for the columns at their greatest distance; with less room, but enough for the least distance, it is 32 pixels too wide |
| `DrawingSize.Centred` | frontend/components/TopologyGraph.tsx:140-144 | left and right margin are equal and at least 16 pixels |
| `DrawingSize.RegularSteps` | frontend/components/TopologyGraph.tsx:149-158 | neighbouring columns are 44 to 130 pixels apart, neighbouring rows 18 % of a row |
| `DrawingSize.RowsReachBothMargins` | frontend/components/TopologyGraph.tsx:145-156 | some card touches the upper margin and some card the lower one, for every tree |
| `DrawingSize.CardHoldsItsContent` | frontend/components/TopologyGraph.tsx:127-131 | icon, name and counter stay inside the card, with room for a name of 9.5 letter heights |
| `NetworkDrawing.WalkGivesTree` | backend/app/services/site_topology_service.py:1618-1646 | what the walk sends is always a tree that the layout accepts |
| `NetworkDrawing.ColumnIsDistance` | frontend/components/TopologyGraph.tsx:678-717 | a reached site is drawn in the column of its distance to the root, any other in column 0 |
| `NetworkDrawing.Draw` | backend/app/services/site_topology_service.py:280-318 | from any links, inventory and requested root to cards that never overlap, end to end, from a list of sites that is the only one these inputs allow |
| `NetworkDrawing.LinkOrderDoesNotMatter` | backend/app/services/site_topology_service.py:280-318 | what is sent depends only on which sites are linked, on the inventory and on the root asked for, not on order, direction or number of the links |
| `TopologyPorts.EveryEndFiledOnce` | frontend/components/TopologyGraph.tsx:531-548 | both ends of a link with two positions are filed, each on exactly one edge of one card |
| `TopologyPorts.FiledAreEnds` | frontend/components/TopologyGraph.tsx:531-548 | a card edge lists exactly the link ends that leave through it, in the order of the links |
| `TopologyPorts.FiledAreEndsAt` | frontend/components/TopologyGraph.tsx:531-548 | a port is filed on a card edge exactly when it is the end of a link between that card and another, with the height of that other card, on the right edge if the card is further left, on the left edge if further right, both ends on one column bulging the same way |
| `TopologyPorts.OffsetsSpread` | frontend/components/TopologyGraph.tsx:550-561 | heights on an edge increase, are symmetric about its middle and stay strictly inside the card |
| `TopologyPorts.OffsetsAreEven` | frontend/components/TopologyGraph.tsx:550-561 | neighbouring ports are equally far apart: 9 pixels, or less where that would take more than 62 % of the card |
| `TopologyPorts.HeightsFollowOtherEnds` | frontend/components/TopologyGraph.tsx:556-561 | a link whose other end is higher attaches higher |
| `TopologyPorts.SpreadPorts` | frontend/components/TopologyGraph.tsx:520-563 | the two maps and the loops give every card edge exactly those heights, none to a lone link and no height to anything else; links of one card edge whose other cards lie at different heights attach in that order, so they do not cross there |
| `TopologyPorts.HeightsDoNotCross` | frontend/components/TopologyGraph.tsx:550-561 | from positions and links alone: of two links of one card edge, the one to the higher card attaches higher |
| `Routes.WalkToRoot` | backend/app/services/site_topology_service.py:1251-1291 | the stack search makes its visits in order and runs out of budget if and only if the whole search is larger; the routes are the visits that end at the root, and the hop flag tells whether one was given up: all routes and every cut when the budget holds, a first part of them otherwise |
| `Routes.WalkIsExhaustive` | backend/app/services/site_topology_service.py:1251-1291 | the routes are exactly the simple paths to the root within the hop limit |
| `Routes.RoutesOnce` | backend/app/services/site_topology_service.py:1251-1291 | no route is returned twice |
| `Routes.CutIsGivenUp` | backend/app/services/site_topology_service.py:1280-1286 | the hop flag means a path of full length, short of the root, with somewhere left to go |
| `RouteVisits.VisitsAreSimplePaths` | backend/app/services/site_topology_service.py:1269-1289 | the search visits exactly the simple paths within the hop limit that do not go on beyond the root |
| `RouteVisits.VisitsInOrder` | backend/app/services/site_topology_service.py:1264-1289 | depth first: a path before those it leads to, and where two part the one to the later neighbour first |
| `RouteVisits.VisitsOnce` | backend/app/services/site_topology_service.py:1264-1289 | no path is visited twice, so the budget runs out exactly when there are more such paths than it allows |
| `OrderStatistics.MedianInRange` | frontend/components/MetricHistoryModal.tsx:35-40 | a median stays in any range that holds more than half of the values |
| `OrderStatistics.QuantileInRange` | frontend/components/MetricHistoryModal.tsx:42-50 | a quantile ignores as many wild values as lie below and above its rank |
| `OrderStatistics.HalfQuantileIsMedian` | frontend/components/MetricHistoryModal.tsx:35-50 | the quantile at one half is the median, for every list |
| `OrderStatistics.QuantileMonotone` | frontend/components/MetricHistoryModal.tsx:44-50 | a quantile never falls when its rank rises |
| `OrderStatistics.TrendIgnoresMinority` | frontend/components/MetricHistoryModal.tsx:52-71 | where more than half of a window is trusted, truncated windows included, the trend stays between the trusted values |
| `OrderStatistics.SpikeIgnoredExactly` | frontend/components/MetricHistoryModal.tsx:52-71 | for every length, window and pair of places: the trend at one place ignores any spike at the other if and only if the window there has more than two values, or does not hold the spike |
| `OrderStatistics.TrendOfRisingSeries` | frontend/components/MetricHistoryModal.tsx:63-71 | a rising series has a rising trend, equal to it where the window is whole |
| `MetricHistory.Split` | frontend/components/MetricHistoryModal.tsx:460-474 | the loop loses and moves no point; gaps inside a segment are within the limit and every cut is above it |
| `MetricHistory.SegmentCount` | frontend/components/MetricHistoryModal.tsx:460-474 | there is one segment more than there are gaps above the limit |
| `MetricHistory.Segments` | frontend/components/MetricHistoryModal.tsx:460-474 | n points, n at least 2, give at most n/2 segments rounded down |
| `MetricHistory.FewSegments` | frontend/components/MetricHistoryModal.tsx:29-33 | because the limit is at least the median gap, gaps above it are a minority |
| `MetricHistory.TrendWindow` | frontend/components/MetricHistoryModal.tsx:483-484 | the trend window is odd and between 3 and 15 |
| `MetricHistory.VerdictHasNoUnit` | frontend/components/MetricHistoryModal.tsx:309-393 | scaling values and threshold by a positive number never changes the verdict |
| `MetricMeaning.VerdictMeans` | frontend/components/MetricHistoryModal.tsx:309-393 | which text a series gets: worsening by the medians of its last quarter and the rest; else by how many values are on the wrong side of the threshold, half, a tenth or any; else by its spread |
| `MetricMeaning.WrongSideIsCounted` | frontend/components/MetricHistoryModal.tsx:309-393 | the values counted are those at or above a limit, or at or below it where low is bad; none without a threshold or a direction |
| `MetricMeaning.GapLimitMeans` | frontend/components/MetricHistoryModal.tsx:460-462 | two points are joined up to two bins apart, or two and a half usual gaps where that is more |
| `MetricMeaning.MedianGapIsMiddle` | frontend/components/MetricHistoryModal.tsx:29-33 | the usual gap is one of the gaps, at most half of them below it and fewer than half above |
| `MetricMeaning.TrendWindowMeans` | frontend/components/MetricHistoryModal.tsx:483-484 | the window is odd and from 3 to 15; between these it is less than half a point below 5 % of the points and at most one and a half above |
| `MetricHistory.OneSpikeIsStableExactly` | frontend/components/MetricHistoryModal.tsx:300-393 | a level series with one value replaced by any other is always stable, if and only if it has one point at most or five at least, or a level that is not positive and not two points |
| `MetricHistory.ShortSeriesIsIrregular` | frontend/components/MetricHistoryModal.tsx:300-393 | at every other length and level, a spike in the last place that makes the verdict irregular |
| `RouterBlock.StepIsSafeExactlyWhenGuarded` | backend/app/services/client_block_service.py:508-613 | each step of each process keeps "flag implies a rule that cuts", for the flag unless a removal is about to take it back and for what is about to be written, if and only if a condition on the state and, for an answer, on the router's reply |
| `RouterBlock.RequestIsSafeWhateverTheReply` | backend/app/services/client_block_service.py:569-613 | before a request is sent: whatever the router replies stays safe, if and only if nobody relies on the rule (removal), or nothing will be claimed or no rule that cuts nobody is in the way (block); and the exact condition for a removal that is granted |
| `RouterBlock.RunIsSafeExactlyWhenGuarded` | backend/scripts/mark_router_blocked.py:77-162 | for any number of processes, interleavings and crashes, a run is safe throughout exactly when every step was guarded |
| `RouterBlock.TidyRunsAreSafe` | backend/app/services/client_block_service.py:508-613 | with only our own rules on the router, blockings and unblockings may interleave and crash in any number and every state is safe, so that at rest the flag tells the truth, as long as nobody touches the router by hand, a removal has the client to itself up to the reply, leaves a rule that cuts if it is refused, and does not crash before it has taken back the flag |
| `RouterBlock.AnsweredPass` | backend/app/services/client_block_service.py:508-566 | one answered pass of the job leaves the flag up exactly when the order stands and the radio does not enforce it or is abandoned; from a repairable state, and from no other, a rule cuts exactly then; which rules it adds or removes |
| `RouterBlock.RefusedPass` | backend/app/services/client_block_service.py:508-566 | a refused pass changes neither the row nor whether the state is repairable |
| `RouterBlock.JobRepairsTheRepairable` | backend/app/services/client_block_service.py:508-566 | after any number of passes, one of them answered, a rule cuts exactly when the order stands and the radio does not enforce it or is abandoned, if and only if the state was repairable at the start |
| `RouterBlock.ReportsAreTrue` | backend/app/services/client_block_service.py:460-495 | in a safe state a reported router cut is real unless a removal waits for its commit, and a settled row reports every order as enforced; the radio is reported exactly when it enforces the order and is not abandoned, and then an aligned router has no rule that cuts |
| `RouterBlock.DisabledRuleTakenForCut` | backend/app/services/mikrotik_service.py:242-264 | a disabled rule makes a script record a cut that does not exist and the job never corrects it |
| `RouterBlock.CrashAfterRemovalSticks` | backend/app/services/client_block_service.py:569-613 | a crash between removal and commit leaves the flag up without a rule, and with a new order the client stays online for good |
| `RouterBlock.CrashAfterBlockSticks` | backend/scripts/block_out_of_supervision.py:107-126 | a crash between rule and commit cuts a client nobody ordered cut, for good |
| `RouterBlock.StaleRemovalSticks` | backend/app/services/client_block_service.py:736-775 | a removal that read the row of a client online, an order to block and the job in between: the flag stays up without a rule, for good |
| `BlockScripts.MarkOneIsTheMachine` | backend/scripts/mark_router_blocked.py:103-155 | one MAC of the marking script takes exactly the steps of the machine |
| `BlockScripts.BlockOneIsTheMachine` | backend/scripts/block_out_of_supervision.py:97-126 | one client of the blocking script takes exactly the steps of the machine |
| `BlockScripts.Network.MarkRun` | backend/scripts/mark_router_blocked.py:77-162 | the loop over the MACs with its five counters has the specified effect and counts, and the counters add up to the number of MACs |
| `BlockScripts.MarkedClientsAreCut` | backend/scripts/mark_router_blocked.py:112-155 | a client written by the run ends with the columns of a cut, the order keeping its old time, and is cut exactly when its MAC had no rule or one that cuts |
| `BlockScripts.RowsAfterMarking` | backend/scripts/mark_router_blocked.py:112-142 | every row after a run: the columns of a cut exactly when its MAC is listed, its row not up to date, and its rule enabled or, with none listed, asked for and granted; all other rows as before |
| `BlockScripts.MarkFilings` | backend/scripts/mark_router_blocked.py:96-155 | how each MAC is reported, dry run included, by inventory, rule and row, and when a rule is added |
| `BlockScripts.DryRunForetells` | backend/scripts/mark_router_blocked.py:112-147 | over any list a dry run changes nothing and foretells every line of the real run, if and only if the router refuses no rule it counts on and no MAC it would mark comes again |
| `BlockScripts.SecondRunWritesNothing` | backend/scripts/mark_router_blocked.py:139-142 | the same run again writes nothing, repeated MACs included |
| `BlockScripts.TargetsFiledAlone` | backend/scripts/block_out_of_supervision.py:97-132 | each target ends in the list, row and rule it would end in alone; a blocked one with the columns of a cut |
| `BlockScripts.BlockFilings` | backend/scripts/block_out_of_supervision.py:97-132 | a client is blocked exactly when its row knows of no rule and the router does not refuse; it then has the columns of a cut, and in every other case nothing changes |
| `BlockScripts.InterleavingDoesNotMatter` | backend/scripts/block_out_of_supervision.py:149-176 | however the concurrent calls take turns, once they are over each target has the row, rule and filing of the run that takes them one by one |
| `BlockScripts.Network.BlockOne` | backend/scripts/block_out_of_supervision.py:97-132 | router first, then the row, then the shared lists |
| `BlockScripts.Network.BlockRun` | backend/scripts/block_out_of_supervision.py:149-176 | the batch ends as specified, lists included, and every target is in one list or gone |
| `BlockScripts.Network.UnblockOne` | backend/scripts/unblock_clients.py:53-101 | one client of the rollback has the specified effect and filing |
| `BlockScripts.UnblockIsTheMachine` | backend/app/services/client_block_service.py:736-827 | the unblocking takes exactly the steps of the machine: intent, removal, its commit or an exception in its place, outcome of the radio |
| `BlockScripts.UnblockFilings` | backend/scripts/unblock_clients.py:53-101 | where a client is filed and what is left of the order: nothing changes in a dry run, an order the radio never enforced is cleared, any other counts as restored exactly when the radio answered that it lifted the block |
| `BlockScripts.UnblockingLeaves` | backend/app/services/client_block_service.py:736-827 | what an unblocking leaves of each column, whatever router and radio answer and wherever an exception comes: order gone, cut taken back when the router says so, unblocking still under way when the radio fails |
| `BlockScripts.ClearedClientsComeBack` | backend/scripts/unblock_clients.py:66-82 | clearing an order without touching the router lets the client back after one pass of the job, exactly when the flag was up or no rule cut |
| `BlockScripts.UnblockedClientsComeBack` | backend/app/services/client_block_service.py:736-827 | after an unblocking, whatever router and radio answered and however many rules went before the router failed, the job repairs the router exactly when the row knew of a rule or none of those left cuts |
| `OutageSender.NormalizeFinds` | backend/scripts/send_outage_whatsapp.py:56-60 | a number is found exactly when its eight digits are written, alone or after the country code |
| `OutageSender.PrintedNumberIsFound` | backend/scripts/send_outage_whatsapp.py:56-60 | a number printed in pairs behind the country code is found exactly when it is eight figures of which the first is 2, 3 or 4 |
| `OutageSender.CsvKeepsFirst` | backend/scripts/send_outage_whatsapp.py:88-98 | every number of the file is kept, with the name of its first row |
| `OutageSender.CsvDistinct` | backend/scripts/send_outage_whatsapp.py:88-98 | and kept once |
| `OutageSender.LoadCsv` | backend/scripts/send_outage_whatsapp.py:88-98 | the loop reads exactly those |
| `OutageSender.LineReadsBack` | backend/scripts/send_outage_whatsapp.py:101-110 | the first line of an entry is read back as its phone and outcome, whatever tabs follow |
| `OutageSender.LineFields` | backend/scripts/send_outage_whatsapp.py:172-173 | the line is time, phone, OK or KO, name and answer |
| `OutageSender.ThreeFieldsCount` | backend/scripts/send_outage_whatsapp.py:107-109 | three fields are enough for a line to count, two are not |
| `OutageSender.LogGrows` | backend/scripts/send_outage_whatsapp.py:172-173 | appending an entry serves its phone once more if it is an OK line, and whoever its stray lines name: nobody else if and only if no further line that a break in the name or the answer starts is an OK line |
| `OutageSender.HistoryIsAccounted` | backend/scripts/send_outage_whatsapp.py:150-186 | over any history of complete, limited, failing and interrupted runs, the OK lines of a phone and the messages lost before their line make up the messages it was sent and the stray lines that name it, with at most one OK line beside the strays |
| `OutageSender.NobodyServedTwice` | backend/scripts/send_outage_whatsapp.py:17-19 | over any history nobody is sent a second message if and only if no run starts with a message sent, none logged, and one more accepted |
| `OutageSender.RunSends` | backend/scripts/send_outage_whatsapp.py:150-186 | a run sends a phone one message if it accepts one and none otherwise, and never to a phone the log counts as served |
| `OutageSender.RunTodoUnderLimit` | backend/scripts/send_outage_whatsapp.py:150-154 | a run takes on all pending recipients without a limit, the first n under a limit of n, all but the last k under a limit of -k |
| `OutageSender.LimitedRunSends` | backend/scripts/send_outage_whatsapp.py:153-186 | under a limit of n it sends n messages at most, a lost one included |
| `OutageSender.PendingIsUnserved` | backend/scripts/send_outage_whatsapp.py:150-152 | pending are exactly the recipients the log does not count as served |
| `OutageSender.PendingKeepsOrder` | backend/scripts/send_outage_whatsapp.py:150-152 | in the order of the file |
| `OutageSender.SafeBeforeAnyRun` | backend/scripts/send_outage_whatsapp.py:150-155 | no run whatever can send a phone a further message, if and only if it was sent none or the log knows of one |
| `OutageSender.RunKeepsSafe` | backend/scripts/send_outage_whatsapp.py:167-186 | a run leaves a phone safe in that sense, if and only if it loses no message to it or a stray line names it |
| `OutageSender.WithoutLossNoRepeat` | backend/scripts/send_outage_whatsapp.py:17-19 | a history that loses no message to a phone never repeats one, whatever the limits, failures and answers |
| `OutageSender.InterruptionSendsTwice` | backend/scripts/send_outage_whatsapp.py:17-19 | the interruption that does send twice |
| `OutageSender.CompleteRunLeaves` | backend/scripts/send_outage_whatsapp.py:151-155 | a run that reaches its end leaves its failures and whoever was beyond the limit, in order and nobody else, if and only if no stray line names one of them |
| `OutageSender.AnswerCanServeOthers` | backend/scripts/send_outage_whatsapp.py:76-110 | a line break in an answer that is not JSON can make a failure count another phone as served |
| `OutageSender.Sender.AlreadySent` | backend/scripts/send_outage_whatsapp.py:101-110 | the phones with at least one OK line in the file |
| `OutageSender.Sender.Send` | backend/scripts/send_outage_whatsapp.py:167-186 | the loop has the specified effect on the log and on what was sent, counts its successes and failures, and sends no more than its limit |
| `JournalRewrite.RewriteKeepsFields` | backend/scripts/backfill_journal_source.py:60-82 | splitting an edited line again gives the new source and the seven other fields, if and only if the new field cannot be taken for part of a separator |
| `JournalRewrite.NoPipeIsClosed` | backend/scripts/backfill_journal_source.py:81-82 | which any source without a pipe cannot |
| `JournalRewrite.SplitUndoesJoin` | backend/scripts/backfill_journal_source.py:67-82 | joined fields split back into themselves exactly when all but the last are closed |
| `JournalRewrite.JoinUndoesSplit` | backend/scripts/backfill_journal_source.py:67-82 | a line cut at any number of separators joins back into itself |
| `JournalRewrite.RewriteTwice` | backend/scripts/backfill_journal_source.py:60-82 | editing twice is editing once |
| `JournalRewrite.ReaderSeesOnlyTheSource` | backend/app/services/fai_audit.py:198-240 | the journal's reader sees the new source and otherwise the same entry, agent and message included |
| `JournalRewrite.RewriteFile` | backend/scripts/backfill_journal_source.py:98-104 | every line in its place, and for every origin the number of lines that got it |
| `JournalWriting.WhichLinesAreRewritten` | backend/scripts/backfill_journal_source.py:60-82 | exactly the lines that order a cut, have the default origin and belong to a client whose reason is known and tells another origin get that origin, in the place of the old one; every other line stays as it is |
| `JournalWriting.WrittenLineReadsBack` | backend/app/services/fai_audit.py:109-138 | a line is read back as it was written, a message with separators included, if and only if the client's name cannot be taken for more than one column |
| `JournalWriting.SeparatorInNameIsMisread` | backend/app/services/fai_audit.py:134-138 | a name with a separator in it is never read back |
| `JournalWriting.OldLineReadsBack` | backend/app/services/fai_audit.py:187-240 | a line from before the agent was recorded is read back if and only if, moreover, its message does not begin like an agent column |
| `JournalWriting.CorrectedAsIfKnown` | backend/scripts/backfill_journal_source.py:60-82 | correcting a written line gives, letter by letter, the line that would have been written had the origin been known |
| `JournalWriting.FlatKeepsWords` | backend/app/services/fai_audit.py:122-128 | a flattened text has the words of the original |
| `JournalWriting.StripMeans` | backend/scripts/backfill_journal_source.py:70 | stripping takes away the white space around a text and nothing else |
| `ConsumptionBackfill.PlanHolds` | backend/scripts/backfill_consumption_daily.py:125-134 | the days planned are those of the range not done |
| `ConsumptionBackfill.PlanIsNewestFirst` | backend/scripts/backfill_consumption_daily.py:127-134 | newest first |
| `ConsumptionBackfill.InterruptionLeavesTheOldest` | backend/scripts/backfill_consumption_daily.py:127-128 | with or without force, a day that an interruption leaves short of its totals is older than every day it changed |
| `ConsumptionBackfill.FullRunWrites` | backend/scripts/backfill_consumption_daily.py:125-157 | a complete run writes the total of every client with samples on a planned day and leaves every other total; a day appears only if some client has samples |
| `ConsumptionBackfill.RunWrites` | backend/scripts/backfill_consumption_daily.py:147-157 | an interrupted run has written the days of its plan up to where it stopped, and no other |
| `ConsumptionBackfill.AnyHistoryEndsTheSame` | backend/scripts/backfill_consumption_daily.py:147-157 | any history of interrupted runs, each over its own days and with or without force, and one complete run end in the table of the complete run alone, if and only if none changed a day that this run would not have planned |
| `ConsumptionBackfill.RangesWithinStayIn` | backend/scripts/backfill_consumption_daily.py:125-157 | which holds when all ranges lie in that of the complete run and either it is forced or none of the others is |
| `ConsumptionBackfill.Summary.PlanDays` | backend/scripts/backfill_consumption_daily.py:125-134 | the backward loop plans exactly those days |
| `ConsumptionBackfill.Summary.Apply` | backend/scripts/backfill_consumption_daily.py:147-157 | the per-day loop commits a first part of the plan, with and without force |
| `PowerMetrics.InFormSelects` | backend/alembic/versions/c1d2e3f4a5b6_optimize_fn_site_overview_lateral.py:132-139 | the IN form returns exactly the latest sample of each wanted metric of each power device, each once |
| `PowerMetrics.LateralFormSelects` | backend/alembic/versions/c1d2e3f4a5b6_optimize_fn_site_overview_lateral.py:118-129 | so does the LATERAL form |
| `PowerMetrics.FormsAgree` | backend/alembic/versions/c1d2e3f4a5b6_optimize_fn_site_overview_lateral.py:118-139 | both forms return the same rows, as often |
| `PowerMetrics.SamePower` | backend/alembic/versions/c1d2e3f4a5b6_optimize_fn_site_overview_lateral.py:49-69 | each device gets the same power source and the same batteries in the same order, the source and the levels its last samples tell, and no source without a mains sample |
| `PowerMetrics.BatteriesInOrder` | backend/alembic/versions/c1d2e3f4a5b6_optimize_fn_site_overview_lateral.py:58-68 | the list holds exactly the battery rows of the device, lithium before lead-acid before the others |
| `PowerMetrics.IsBatteryMeans` | backend/alembic/versions/c1d2e3f4a5b6_optimize_fn_site_overview_lateral.py:118-139 | a battery metric begins with battery, a separator, anything, and ends with pct |
| `PowerMetrics.SlugOfName` | backend/alembic/versions/c1d2e3f4a5b6_optimize_fn_site_overview_lateral.py:60 | the slug of a full battery name is what stands between its two ends, further separators in it included |
| `FibrePlan.RingSegments` | backend/scripts/render_fiber_ring_plan.py:276-294 | each pair of neighbours on a ring is kept once, with exactly the rings that use it and its status |
| `FibreMeaning.StatusMeans` | backend/scripts/render_fiber_ring_plan.py:276-294 | a segment is to be built where no edge joins its sites, to be rebuilt where the last edge between them is not fibre, and there where it is |
| `FibreMeaning.RingsMean` | backend/scripts/render_fiber_ring_plan.py:283-293 | a segment names exactly the rings whose path runs along it |
| `FibreMeaning.PlacedMeans` | backend/scripts/render_fiber_ring_plan.py:450-457 | a site is on the map exactly when a row of its name is in the frame, at the place of the last such row |
| `FibreMeaning.OutsideMeans` | backend/scripts/render_fiber_ring_plan.py:450-457 | named as missing are exactly the rows without a place in the frame, one entry a row |
| `FibreMeaning.PlannedOutsideMeans` | backend/scripts/render_fiber_ring_plan.py:472-479 | a planned site is named as out of the frame exactly when it is, and no site of its name is on the map by then |
| `FibreMeaning.RoutesMean` | backend/scripts/render_fiber_ring_plan.py:481-495 | today's route, then on a project map the second one, each if its site is on the map, none without the globe |
| `FibreMeaning.EdgesMean` | backend/scripts/render_fiber_ring_plan.py:497-507 | how often each edge is drawn by radio and by wire |
| `FibreMeaning.WhoIsOnTheMap` | backend/scripts/render_fiber_ring_plan.py:450-495 | on the map are the sites with a row in the frame, on a project map the planned ones in the frame, and the globe when it is in the frame and a route to it starts on the map; else it is named as missing if one was wanted |
| `FibrePlan.PlannedNeverDisplace` | backend/scripts/render_fiber_ring_plan.py:467-479 | existing sites stay in their place, and a name is added exactly when a planned site of it lies in the frame, at the place of such a site |
| `FibrePlan.MakeLayers` | backend/scripts/render_fiber_ring_plan.py:430-510 | core sites, positions, planned sites, routes, icons and missing names are exactly those specified: existing sites, then planned ones, then the globe; the wanted routes with a place if the globe is in the frame; nothing dropped without being named and nothing named that has its place; every drawn edge once, on a ring, wired or by radio |
| `FibrePlan.CoreOnRings` | backend/scripts/render_fiber_ring_plan.py:441-449 | on a map of a ring project the core sites are the ends of the ring segments |
| `FibrePlan.CoreOnWire` | backend/scripts/render_fiber_ring_plan.py:432-446 | today they are the ends of wired edges, the last edge of a pair deciding |
| `Dashes.ImageDashes` | backend/scripts/render_fiber_ring_plan.py:385-401 | the image loop ends after length over period dashes, rounded up, and gives the specified ones |
| `Dashes.GeometryDashes` | backend/scripts/render_fiber_ring_plan.py:1004-1040 | so does the loop of the export |
| `Dashes.BothDrawings` | backend/scripts/render_fiber_ring_plan.py:385-401 | both give the same dashes |
| `Dashes.DashesAreApart` | backend/scripts/render_fiber_ring_plan.py:395-401 | from the start of the line whole dashes exactly a gap apart, of which only the last may be cut short, by the end of the line |
| `Dashes.EnoughIsDrawn` | backend/scripts/render_fiber_ring_plan.py:1028-1040 | at least dash over period of the line is drawn |

## Left out

Modelling choices:

- Floating point is modelled by exact real numbers, instants of incidents by integers, and the incidents of one
  device are taken as already selected. Those that start together may come in any order, the same for both pieces
  of code. What follows on episodes is about the row-by-row sum; `QueryEpisodesAreFolded` says when it is the query's.
- Sorting is stable and by a total order on characters. Where SQL leaves ties open the model assumes none (samples
  are unique per device, metric and time), but for batteries that are neither lithium nor lead-acid, which keep the
  order of their rows.
- Router, radio and messaging calls are reduced to their outcome: answered or refused, with a refused router request
  possibly carried out all the same. One router call is one step. Commits write the columns whose value differs from
  the one read, as the ORM does.
- `SiteDatabase.Database.Execute`: tables other than devices, rockets, lrs and ptp_litebeams, and columns other than
  type, location, site, Rocket and credentials, are not modelled.
- `BlockScripts.Network.BlockRun`: the concurrent calls are taken one after the other, so the order of each list is
  that of the targets; `InterleavingDoesNotMatter` covers everything but that order.
- `BlockScripts.Network.MarkRun`: during a run the router refuses a request by MAC, and parsing a MAC is given.
- `BlockScripts.Network.UnblockOne`: the outcome of `unblock_client` (router reply and rules left, radio reply,
  exception) is an input.
- `JournalWriting.WhichLinesAreRewritten`: letters are lowered in ASCII only, and the origin a reason tells is a
  function given as a parameter.
- `JournalWriting.WrittenLineReadsBack`: time stamp, action, hardware address and mode come from the program and hold
  no pipe and no white space around them.
- `ConsumptionBackfill.AnyHistoryEndsTheSame`: the totals of a day are the same in every run, so samples purged or
  arriving between two runs are not covered.
- `OutageSender.Sender.Send`: an entry reaches the file whole or not at all.
- `FibrePlan.MakeLayers`: site names are already normalised.
- `TopologyPorts.SpreadPorts`: the width of an end's line and its curve are not modelled.
- `SiteTransactions.HistoryStaysConsistent`: which LRs follow a moved Rocket is left to the request, so any may.

Not modelled:

- The other columns of the dashboard queries, the per-site sums and the JSON they build.
- The lifting of a block on the radio itself, its retries, the WhatsApp-only mode and the audit entries it makes.
- The journal's evidence files, filters and counters.
- Extra edges, anomalies, ranking and margins of routes, and everything about occupancy.
- Drawing itself: curves, colours, fonts, hover cards, label placement, map projections and KML text.
- The downgrade of the point-to-point migration, menus, forms, counters and plain column migrations: single branches.
