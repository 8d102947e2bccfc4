# Financial dashboard core in Dafny

This project models the data core of a financial reporting dashboard for a
corporate group. The dashboard shows balance sheets (BS), income statements
(P&L), cash-flow statements (CF) and a ratio analysis (FA) for a chosen
quarter, report scope and set of reporting units. The model covers the
following:

- **Labels** (`labels.dfy`): normalising account names (trim,
  upper-case, collapse runs of whitespace) and the two label markers. The
  markers are the "total" marker (tổng cộng) and the "assets" marker (tài sản).
- **Periods** (`periods.dfy`): the month-start convention, the
  previous-quarter shift, the same-period-last-year shift (both with
  JavaScript's day overflow), the quarter options and the period label.
- **Report versions** (`versions.dfy`): the historical pre-/post-audit rule
  and the effective version of the selected quarter. It also covers
  resolving a version for any period, the selection synchroniser, batching
  balance-sheet months by version, and the previous quarter's version for
  flow statements.
- **Fact netting** (`facts.dfy`): summing raw facts per (account, month).
- **Tree building** (`items.dfy`, `pathindex.dfy`, `treebuild.dfy`,
  `treefinalize.dfy`):
  - the cleaned account path and the flat items;
  - the path→stt index (the fewest-raw-levels rule);
  - the path tree with deposits;
  - bottom-up aggregation, stt back-fill and the percentage base;
  - the derived comparison columns and the lookups by stt and by id.
- **Waterfalls** (`waterfall.dfy`, `waterfallbars.dfy`): the bar list that
  the balance-sheet and flow charts build, and the chart's stacking of those
  bars.
- **Ratio engine** (`ratios.dfy`):
  - facts summed per indicator and date, with `safeDiv`;
  - quarterly versus cumulative flows and the flow chart's `subtract`;
  - the 26 ratios, with the DuPont identities proved;
  - the day count of a period.
- **Indicator lookup** (`indicators.dfy`): the first level at which an
  indicator name occurs, and its stt list.
- **View models**:
  - the balance-sheet table's comparison columns, variance bars and
    simplified export (`bstable.dfy`);
  - the analysis table's grouping (`analysisgroups.dfy`);
  - the sidebar's selection logic (`sidebar.dfy`);
  - the unit hierarchy and the group→entity flattening (`units.dfy`);
  - the legacy flat transform (`legacy.dfy`).

Amounts are exact reals, and a missing amount is `None`. Every operation is
a pure function over immutable data. The one exception is the chart's
running total, which is a method with a loop.

Where the written description of the system and the code disagree, the
model follows the code:

- **Default versions on first load.** Quarter 2 receives the *pre-audit*
  version when the post-audit version exists, because the code assigns
  `hnPreAudit` to Q2 (`App.tsx:371-374`).
- **Waterfall running total.** It starts at 0 and total bars do not move
  it (`components/WaterfallChart.tsx:39-60`). Change bars therefore float
  relative to 0 rather than on top of the opening total.
- **Row lookup.** `findRowByStt` and `findRowById` descend only into rows
  flagged `hasChildren` (`App.tsx:60-69`). The tree builder keeps that flag
  exact, and `TreeFinalize.GuardedFindAgrees` shows the guard changes
  nothing there.

## Model

| member | source | states |
|---|---|---|
| Labels.UpperIdempotent | lib/dataProcessing.ts:29 | upper-casing an upper-cased name changes nothing |
| Labels.UpperKeepsSpaces | lib/dataProcessing.ts:29 | upper-casing keeps every whitespace position, so the whitespace collapse sees the same runs before and after |
| Labels.NormalizeIdempotent | lib/dataProcessing.ts:28-30 | a normalised name is already normal: normalising twice equals normalising once |
| Labels.NormalizeTrim | lib/dataProcessing.ts:28-30 | trimming is idempotent and trimming first does not change the normalised name |
| Labels.CollapseNoAdjacent | lib/dataProcessing.ts:29 | after collapsing, no two whitespace characters are adjacent |
| Labels.CollapseOfCollapsed | lib/dataProcessing.ts:29 | a name without adjacent whitespace is left unchanged by the collapse |
| Labels.MarkersIgnoreTrim | lib/dataProcessing.ts:116 | whether a label carries the total marker or the assets marker does not depend on leading or trailing whitespace |
| Periods.ToMonthStart | lib/dataProcessing.ts:3-9 | an empty period stays empty; otherwise the result is day 1 of the same year and month |
| Periods.ToMonthStartIdempotent | lib/dataProcessing.ts:3-9 | the month start of a month start is itself, and the result is a valid date |
| Periods.Roll | lib/helpers.ts:9 | a day past the month's end rolls into the next month by the excess, as JavaScript dates do; a valid day is kept |
| Periods.PreviousQuarterEnd | lib/helpers.ts:5-11 | the previous-quarter shift is empty exactly for an empty period and yields a valid date |
| Periods.PreviousQuarterEndShift | lib/helpers.ts:5-11 | for days up to 28 the shift moves exactly three months back and keeps the day |
| Periods.PreviousQuarterEndRollExample | lib/helpers.ts:9 | 2024-05-31 shifts to 2024-03-02 because February has no 31st; 2025-03-01 shifts to 2024-12-01 |
| Periods.SamePeriodLastYear | lib/helpers.ts:13-18 | the one-year shift is empty exactly for an empty period and yields a valid date |
| Periods.SamePeriodLastYearShift | lib/helpers.ts:13-18 | apart from 29 February, the shift keeps month and day and lowers the year by one |
| Periods.FourQuartersMakeAYear | lib/helpers.ts:5-18 | for a month start, four previous-quarter shifts equal one same-period-last-year shift |
| Periods.QuarterOfValue | App.tsx:27-32 | a quarter option value ("03-01" …) names exactly one quarter, and any other string names none |
| Periods.QuarterOf | App.tsx:447 | the quarter of a date is the one whose three months contain the date's month |
| Periods.PreviousQuarterOfMonthStart | App.tsx:1526-1530 | from a quarter's month start, the previous-quarter shift lands in the previous quarter, in the previous year for Q1 |
| Periods.ReportingPeriod | App.tsx:414-418 | the reporting period of a year and quarter is a valid month start in that quarter |
| Periods.LabelOf | App.tsx:35-42 | the label is missing only for an empty period; otherwise it is the date's year and a quarter number 1..4 containing its month |
| Periods.LabelOfReportingPeriod | App.tsx:35-42 | the reporting period of (year, Qn) is labelled "Quý n/year" |
| Versions.ScopeFilter | App.tsx:206-208 | the scope filter keeps exactly the versions whose code belongs to the scope's pair |
| Versions.ScopeFilterIsFilter | App.tsx:206-208 | the scope filter equals the front-to-back `filter`: in-scope versions in list order, and nothing else |
| Versions.ScopeFilterHead | App.tsx:210 | the fallback `filteredTypes[0]` is the first version of the list whose code is in scope |
| Versions.HistoricalCode | App.tsx:44-55 | Q1 and Q3 take the scope's pre-audit code, every other quarter value takes the post-audit code |
| Versions.SyncKeepsResolution | App.tsx:381-388 | the per-quarter sync never changes the version a period of that quarter resolves to, which is the synced selection's code |
| Versions.EffectiveCode | App.tsx:205-232 | the effective code is in scope and is missing iff no version is in scope; a valid selection of the selected quarter wins; otherwise it is the first in-scope version's code |
| Versions.AnalCodeForPeriod | App.tsx:439-473 | no code for an empty period or an empty version list; other years use the historical rule; the selected year resolves the quarter's own selection |
| Versions.SelectedPeriodMatchesEffectiveCode | App.tsx:205-232 | for the selected year's reporting period, the per-period resolution agrees with the effective code |
| Versions.SyncValid | App.tsx:390-409 | after syncing, a quarter's selection is missing iff the scope has no version, and otherwise lies in scope |
| Versions.SyncIdempotent | App.tsx:390-409 | syncing an already synced selection changes nothing |
| Versions.Settle | App.tsx:347-411 | with no versions nothing changes; except for the consolidated first load, the selections are synced to the scope |
| Versions.SettleDefaults | App.tsx:359-378 | on the consolidated first load Q1 and Q3 get P01, Q4 gets P02 and Q2 gets P01 when P02 exists |
| Versions.SettleStabilises | App.tsx:347-411 | the effect reaches a fixed point: after two passes a third changes nothing |
| Versions.BalanceSheetWanted | App.tsx:533-548 | the BS query wants the reporting, comparison and last-year months, plus last December when a year is chosen; each of the first three months carries the version `getAnalCodeForPeriod` resolves for its own period, and last December the scope's post-audit code |
| Versions.BatchCodes | App.tsx:550-560 | the batches have distinct codes, and these are exactly the codes of the wanted periods that resolved |
| Versions.BatchMonths | App.tsx:550-560 | each batch holds exactly the months of the wanted periods with its code, in order |
| Versions.MonthsForNonEmpty | App.tsx:562-563 | every batch code has at least one month |
| Versions.BalanceSheetBatches | App.tsx:541-572 | one query per version code, each with at least one month, and every code in scope |
| Versions.PreviousQuarterSelection | App.tsx:577-581 | the previous quarter's selection for Q2..Q4, and none for Q1 |
| Versions.PreviousQuarterCode | App.tsx:575-592 | no previous-quarter version for the first quarter (its previous-quarter month is null at App.tsx:432-434); otherwise the version is in scope and missing iff the scope has none |
| Versions.PreviousQuarterCodeAgrees | App.tsx:575-592 | the flow query's previous-quarter code equals the per-period resolution of the previous quarter's end |
| FactNetting.NetKeys | App.tsx:644-654 | the netted facts have exactly one entry per distinct (account, date) key, in order of first appearance |
| FactNetting.NetSums | App.tsx:644-649 | each netted value is the sum of every raw value with its key |
| FactNetting.NetConserves | App.tsx:644-654 | netting preserves the grand total |
| FactNetting.AbsentKeyValues | App.tsx:644-654 | a key without a netted entry has no raw facts |
| Items.PathSpec | lib/dataProcessing.ts:33-42 | the cleaned path keeps the non-empty level names in order, drops a name equal (after normalising) to the one before, and has at most four entries |
| Items.PathExample | lib/dataProcessing.ts:33-42 | levels (–, "A", "A", "B", –) clean to ["A", "B"] |
| Items.CollapseRepeatsIsRunStarts | lib/dataProcessing.ts:36-41 | the reduce keeps exactly the first name of each run of equal names |
| Items.KeyPathCanonical | lib/dataProcessing.ts:94 | the key path has at most four keys, each already normalised, and no key repeats its parent's |
| Items.FactMapLastWins | lib/dataProcessing.ts:46-50 | the fact map has a value for (stt, month) iff some dated fact has that key, and then it holds the last such fact's value |
| Items.LevelOf | lib/dataProcessing.ts:53 | the level is the deepest non-empty level (every deeper level is empty), or 1 when levels 2 to 4 are all empty |
| Items.LabelOf | lib/dataProcessing.ts:54 | the label is the deepest non-empty level name, or "" when there is none |
| Items.MakeItems | lib/dataProcessing.ts:45-80 | one item per account in order; without an stt every amount is missing; otherwise each axis holds the last fact for its month, or nothing when the axis has no month |
| PathIndex.IndexKeys | lib/dataProcessing.ts:87-101 | a path key is in the index iff some item with an stt and a non-empty path has that key |
| PathIndex.IndexFewest | lib/dataProcessing.ts:97-98 | the indexed entry for a key has no more raw levels than any item with that key |
| PathIndex.IndexEarliest | lib/dataProcessing.ts:95-99 | the indexed stt comes from an item with the key, and every earlier item with the key has strictly more raw levels |
| TreeBuild.BuildOk | lib/dataProcessing.ts:103-156 | every node has id (level, key, sibling position), is keyed by its normalised name, has distinct sibling keys and an exact `hasChildren`, takes the total marker from its name and takes the stt the index gives its path |
| TreeBuild.BuildChildKeys | lib/dataProcessing.ts:139-156 | the children of any path are the distinct next keys of the items below it, in order of first appearance |
| TreeBuild.InsertOk | lib/dataProcessing.ts:139-156 | inserting one item's path keeps all the node invariants |
| TreeBuild.BuildFromOwnAt | lib/dataProcessing.ts:158-164 | the amount a node holds before aggregation is the running deposit of the items whose path ends exactly there and that carry an stt |
| TreeBuild.DepositedAtIsSum | lib/dataProcessing.ts:158-164 | that deposit is the sum of the contributing amounts, or missing when nothing contributed |
| TreeFinalize.Aggregate | lib/dataProcessing.ts:167-198 | aggregation changes only amounts, and a leaf is returned unchanged |
| TreeFinalize.AggregateTotals | lib/dataProcessing.ts:167-199 | after aggregation a node holds the sum of every amount in its subtree, missing iff no node in the subtree has one |
| TreeFinalize.AggregatedRootTotals | lib/dataProcessing.ts:199 | every aggregated root of a built tree holds its subtree total |
| TreeFinalize.Backfill | lib/dataProcessing.ts:203-213 | back-fill changes only stts, and a node that has an stt keeps it |
| TreeFinalize.BackfillIsSpineStt | lib/dataProcessing.ts:203-214 | a node's back-filled stt is its own, or else the one found by following first children down to the first stt |
| TreeFinalize.BackfillIdempotent | lib/dataProcessing.ts:203-214 | back-filling twice equals back-filling once |
| TreeFinalize.FinalizeKeepsFlags | lib/dataProcessing.ts:234-262 | computing the derived columns keeps `hasChildren` exact on every node |
| TreeFinalize.FirstAssetsRoot | lib/dataProcessing.ts:218 | the first root whose name carries the assets marker, or none when no root does |
| TreeFinalize.BaseIsHundredPercent | lib/dataProcessing.ts:247 | whenever the base is non-zero, the base node's own share is exactly 100 percent |
| TreeFinalize.DiffOf | lib/dataProcessing.ts:236 | the difference exists iff both amounts do, and it bridges the earlier amount to the end amount |
| TreeFinalize.DiffPctOf | lib/dataProcessing.ts:237 | the percentage exists iff the difference does and the earlier amount is non-zero, and it is the difference relative to the earlier amount's magnitude |
| TreeFinalize.CurrentQuarter | lib/dataProcessing.ts:250-258 | the quarter's own amount exists iff the end amount does, and with the previous quarter's amount (0 when missing) it adds up to the end amount |
| TreeFinalize.DerivedOf | lib/dataProcessing.ts:234-258 | each of the three comparisons bridges its source to the end amount, with its percentage relative to the source; the share exists iff the base is non-zero and the end amount exists, and is end/base in percent |
| TreeFinalize.Finalize | lib/dataProcessing.ts:234-262 | finalising changes only the derived columns; a node's columns are those of its own amounts against the one base, and every child is finalised the same way |
| TreeFinalize.FindIsPreOrderFirst | lib/dataProcessing.ts:221-228 | the lookup returns the first row in pre-order that matches, or nothing when none does |
| TreeFinalize.GuardedFindAgrees | App.tsx:60-69 | when `hasChildren` is exact, descending only into flagged rows finds the same row |
| TreeFinalize.FirstMatchIsFirst | App.tsx:60-69 | the first match matches, and no earlier row does; there is no match only when no row matches |
| TreeFinalize.FindRowBySttOnTree | App.tsx:60-69 | on a built tree, finding a row by stt returns the first pre-order row with that stt |
| TreeFinalize.BuildTreeFlagsExact | lib/dataProcessing.ts:82-279 | every node of a built tree has children iff it is flagged `hasChildren` |
| Waterfall.LeavesAllArePreOrderLeaves | App.tsx:1028-1045 | the leaf descendants are exactly the childless rows of the subtrees in pre-order |
| Waterfall.ChangesAreBigLeafChanges | App.tsx:1079-1095 | every change bar is a non-total bar larger than 1 in magnitude, and a bar with a given name and value exists iff some leaf has that name and a change of that value larger than 1 |
| Waterfall.ChangesInLeafOrder | App.tsx:1079-1095 | one bar per big leaf in leaf order: around any leaf come the bars of the earlier leaves, its own bar if its change is larger than 1, then those of the later leaves |
| Waterfall.MiddleShape | App.tsx:1079-1100 | between the totals come only change bars larger than 1 in magnitude, the leaf changes first; with a remainder bar they add up to the total change, otherwise they are within 1 of it |
| Waterfall.BarsShape | App.tsx:1062-1102 | a row's chart opens with the comparison total (0 when missing) and closes with the end total, and the bars between are as described for Waterfall.MiddleShape |
| Waterfall.BuildEmpty | App.tsx:1347-1358 | the chart is empty iff nothing is selected, the tree is empty, the row is not found or the row has no children |
| Waterfall.BuildSelected | App.tsx:1052-1057 | a selected row that is found and has children gets exactly its own chart |
| WaterfallBars.Draw | components/WaterfallChart.tsx:41-61 | a total bar has its full value as height and no base; a change bar spans from the running total to the running total plus its value, drawn as a rise or as a fall of positive height |
| WaterfallBars.Process | components/WaterfallChart.tsx:38-63 | one drawn bar per input bar, each placed on the sum of the change bars before it |
| Ratios.FactsByDateSums | App.tsx:1509-1517 | a date has an entry iff some fact has that date, an indicator has a value there iff one of its stts has a fact, and the value is the sum of those facts |
| Ratios.SafeDiv | App.tsx:1589 | the quotient exists iff both operands do and the denominator is non-zero, and quotient × denominator = numerator × multiplier |
| Ratios.Average | App.tsx:1554 | the average exists iff both ends do and is their midpoint |
| Ratios.Ebit | App.tsx:1590 | EBIT exists iff both parts do and exceeds profit before tax by the interest expense |
| Ratios.Purchases | App.tsx:1571 | purchases exist iff all three parts do and exceed COGS by the inventory build-up |
| Ratios.Flow | App.tsx:1541-1542 | a cumulative amount is the period's own value; a quarterly amount always exists and, added to the previous quarter's (0 when missing), gives the period's value (0 when missing) |
| Ratios.InputsOf | App.tsx:1546-1587 | each of the five flows is the period's amount in the cumulative pass and the quarter's own movement in the quarterly pass; assets, equity, inventory and liabilities close at the period and open at the pass's start snapshot; the end working capital treats missing parts as 0, while the opening one exists only when both of its parts do |
| Ratios.DaysInPeriod | App.tsx:1593-1594 | a quarterly pass covers 91.25 days; a cumulative pass covers 91.25 to 365 days, 91.25 for each quarter up to the one containing the month |
| Ratios.DaysInPeriodOfQuarter | App.tsx:1593-1594 | the cumulative day count at the end of quarter n is n × 91.25 |
| Ratios.DaysInPeriodAsWrittenDisagrees | App.tsx:1593-1594 | the unfloored day count exceeds the intended one by 2/3 of a quarter for every quarter, so Q1 is not 91.25 |
| Ratios.DaysAsWrittenExcess | App.tsx:1593-1594 | for every month the unfloored count exceeds the floored one by 0, 1/3 or 2/3 of a quarter's days, by how far the month is into its quarter |
| Ratios.DupontMargin | App.tsx:1609 | when the three DuPont factors exist, tax burden × interest burden × EBIT margin × revenue equals net income |
| Ratios.DupontEquity | App.tsx:1597-1610 | when ROA and leverage exist, ROE exists and equals ROA × financial leverage |
| Ratios.PreviousQuarterDateAgrees | App.tsx:1530 | the ratio engine's previous-quarter date equals the month start of the previous-quarter shift |
| Ratios.CalculateAndStoreAsWritten | App.tsx:1523-1615 | nothing is stored for a date without data; both passes agree on every closing-balance ratio; the cumulative days sales outstanding uses the unfloored day count |
| Ratios.CalculateAndStore | App.tsx:1523-1615 | nothing is stored for a date without data; both passes agree on every closing-balance ratio; the cumulative pre-tax margin is the period's own, the quarterly one that of the quarter's movements; capital adequacy opens at the previous quarter or at last December; days sales outstanding uses 91.25 days or the floored cumulative count |
| Ratios.AsWrittenDiffersOnlyInCumulativeDso | App.tsx:1593-1594 | the program as written stores the same ratios as the corrected one except the cumulative days sales outstanding, which it computes from the corrected day count plus the excess days |
| Ratios.FirstQuarterPassesShareOpening | App.tsx:1530-1531 | in Q1 both passes open from last December, so their capital adequacy ratios agree |
| Ratios.Subtract | App.tsx:1174-1180 | the result exists iff the current amount does, and with the earlier amount (0 when missing) it adds up to the current amount |
| Ratios.SubtractAgreesWithQuarterlyFlow | App.tsx:1174-1180 | where the current amount exists, the chart's subtraction equals the ratio engine's quarterly flow; where it does not, the chart shows nothing while the flow counts it as 0 |
| Indicators.FirstLevelFrom | App.tsx:494-500 | the returned level has a matching account and no earlier level does; none is returned only when no level matches |
| Indicators.SttsAtMembers | App.tsx:502-505 | an stt is collected iff some account matches the name at that level and carries it |
| Indicators.SttsForIndicatorSpec | App.tsx:475-515 | the result is empty when no level matches, has no duplicates, and at the first matching level holds exactly the stts of the matching accounts |
| Indicators.SttsForIndicatorOrder | App.tsx:502-508 | at the first matching level the result is that level's stts de-duplicated, in order of first occurrence |
| Legacy.FactsMapRouting | lib/helpers.ts:27-38 | an account has an entry iff it has a fact; its start is the last start-date fact; its end is the last end-date fact unless the two dates coincide |
| Legacy.NameOf | lib/helpers.ts:49 | the name is the deepest non-empty level, and "" exactly when all four are empty |
| Legacy.TransformSpec | lib/helpers.ts:40-56 | one item per account carrying its code, stt, level, total flag and parent; only level-4 accounts carry amounts, taken from the routed facts |
| Sidebar.AnalTypeChange | components/Sidebar.tsx:22-25 | the chosen version is the first in the list with the chosen code, and none exactly when no version has it |
| Sidebar.Toggle | components/Sidebar.tsx:79-84 | clicking a selected id filters it out and keeps the other ids in their order (an id selected once is cut out in place); clicking an unselected id appends it |
| Sidebar.ToggleTwice | components/Sidebar.tsx:79-84 | clicking an unselected id twice restores the selection |
| Sidebar.Label | components/Sidebar.tsx:86-93 | the placeholder when nothing is selected; the whole-group label when all are; for a single id (and not all), the first option with that id gives its name, or the placeholder when it is unnamed or missing; two or more ids, not all, give the count |
| Sidebar.SelectAllIsAllSelected | components/Sidebar.tsx:71-95 | after select-all the box reads all-selected iff there are options, and the button shows the whole-group label |
| Units.HierarchyIds | App.tsx:312-319 | the groups are the distinct group ids of the complete unit rows, in order of first appearance |
| Units.HierarchyChildren | App.tsx:313-318 | a group's entities are exactly those of the complete rows under that group, in row order |
| Units.NoGroupNoEntities | App.tsx:314-318 | an id without a group has no complete rows under it |
| Units.SelectedUnitCodesMembers | App.tsx:194-203 | an entity code is selected iff it belongs to the children of some selected group |
| Units.SelectedCodesOfHierarchy | App.tsx:194-203 | on a built hierarchy, the selected codes are those of the complete rows under some selected group id |
| BalanceSheetView.ColumnsAgree | components/BalanceSheetTable.tsx:129-131 | for each comparison choice, the diff and diff-percentage columns bridge the compared column to the end amount |
| BalanceSheetView.MaxAbsDiff | components/BalanceSheetTable.tsx:24-55 | the maximum is non-negative, bounds every visited row's difference, and is either 0 or attained |
| BalanceSheetView.MaxAbsDiffNoChanges | components/BalanceSheetTable.tsx:24-55 | without any difference the maximum is 0 |
| BalanceSheetView.VisitedIsPreOrder | components/BalanceSheetTable.tsx:26-52 | with exact `hasChildren` flags the traversal visits every row in pre-order |
| BalanceSheetView.BarWidth | components/BalanceSheetTable.tsx:57-64 | a bar exists iff the value does; its width is the magnitude relative to the maximum (at least 1) in percent, and at most 100 when the maximum bounds the value |
| BalanceSheetView.BarWithinTree | components/BalanceSheetTable.tsx:24-64 | every bar drawn in the table is between 0 and 100 percent wide |
| BalanceSheetView.Simplify | components/BalanceSheetTable.tsx:244-250 | the export keeps name, end and start amounts, and its children are the simplified children in order |
| BalanceSheetView.SimplifyKeepsNodes | components/BalanceSheetTable.tsx:244-250 | the export has exactly as many nodes as the tree |
| AnalysisGroups.CollectIsFilter | components/FinancialAnalysisView.tsx:36-43 | a group is collected iff some row falls in it, and it holds exactly those rows in order |
| AnalysisGroups.RowsInMembers | components/FinancialAnalysisView.tsx:38 | a row is in a group iff its metadata group (or "Khác" when missing) is that group |
| AnalysisGroups.ArrangeSpec | components/FinancialAnalysisView.tsx:53-55 | the arranged groups follow the order list, keeping only those with rows, each with its collected rows |
| AnalysisGroups.GroupedSpec | components/FinancialAnalysisView.tsx:35-57 | the shown groups are the non-empty groups of the fixed order; a row is shown iff its group is listed, so "Khác" rows never are |

## Left out

- Database queries, pagination, authentication, the AI analysis calls and
  React state orchestration. Query results are parameters of the model.
- Floating point. Amounts are exact reals, so there is no NaN, Infinity or
  rounding. `Number.isFinite` on an stt is modelled as the stt being present.
- Time zones. Dates are calendar dates and every date operation is taken
  in UTC.
- Labels.Upper: only ASCII, the Latin-1 letters à..þ (except ÷) and the
  Vietnamese letters are upper-cased. ß (which `toUpperCase` turns into
  "SS"), µ, ÿ and other scripts are left unchanged, because JavaScript's
  full Unicode case table is not part of this model.
- Labels.MarkersIgnoreTrim: the case-insensitive regular expressions are
  modelled as a scan for "word, whitespace, word" compared after
  upper-casing, using the same upper-casing subset.
- Path keys: the tree is keyed by the joined '|' string, as in the code
  (`PathIndex.Join`). The model does not state when two different paths
  join to the same key, which names containing '|' can cause.
- Node ids: `lv{level}-{key}-{n}` is modelled as a structured id, and so is
  the `row-{i}` item id.
- Versions: the selected year is modelled as an integer, while the code
  compares `String(year)` with a string.
- Indicator metadata: the static metadata table is a parameter map, not a
  copy of its entries.
- Analysis view assembly: the table rows, the ratio history, the date list
  for the ratio loop and the five-year history charts are not modelled.
  They arrange values the model computes.
- Sidebar.Label: the button's text is a datatype. The Vietnamese strings
  for the whole group and for the count are not modelled.
- Sidebar defaults: the default selection of the "PVFCCo" group on first
  load is not modelled.
- Formatting and charts: number formatting, colours, chart layout and
  tooltips are not modelled.
- The flow chart's quarter series: the P&L chart's per-quarter list
  (`App.tsx:1182-1205`) is covered only through `Ratios.Subtract` and its
  agreement with the quarterly flow. The list assembly itself is left out.

## Findings

| source | as written | input that shows it | evidently intended | confidence | as-written member | corrected member |
|---|---|---|---|---|---|---|
| App.tsx:1593-1594 | the cumulative day count uses `getUTCMonth() / 3 + 1` without flooring, so the quarter number is fractional | reporting date 2024-03-01, cumulative pass: (2/3 + 1) × 91.25 ≈ 152.08 days instead of 91.25; every quarter is 2/3 of a quarter too long | the quarter number `floor(month / 3) + 1`, as the same function computes at App.tsx:1526 | not executed | Ratios.CalculateAndStoreAsWritten with Ratios.DaysInPeriodAsWritten (shown by Ratios.DaysInPeriodAsWrittenDisagrees and Ratios.AsWrittenDiffersOnlyInCumulativeDso) | Ratios.CalculateAndStore with Ratios.DaysInPeriod (proved by Ratios.DaysInPeriodOfQuarter) |
