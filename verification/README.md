# Unified pricing layer: payable projection and order-explorer arithmetic

The system stores an append-only history of pricing and supplier facts. It derives the
current state of an order from them by projection rather than by mutation. This project
models the read side of that design as pure functions over immutable sequences of fact
rows:

- **Payable projection** (`Projection`, `ProjectionProperties`, `Scenarios`).
  `get_total_effective_payables` partitions an order's supplier timeline into fulfillment
  instances. The partition key is order detail, supplier reference, and instance id or the
  `'__BOOKING_LEVEL__'` sentinel. For each instance it:
  - takes the latest snapshot;
  - derives the supplier baseline from the snapshot's status (`StatusRules`), with the
    legacy cancellation-fee fallback;
  - selects timeline-linked obligation lines by status:
    - active statuses use the latest version per (party, obligation type);
    - cancelled and unknown statuses take the snapshot's own version or nothing;
  - always appends the standalone lines (version -1);
  - nets the lines per party (INCREASES adds, DECREASES subtracts), emits the supplier
    first, and sums the party totals.
- **Latest state** (`LatestState`). The four `*_latest` views keep the rows at the
  greatest version of their group. The `get_latest_*_version` lookups return that greatest
  version, or nothing when the group is empty.
- **Order explorer** (`Lineage`, `LineageProperties`):
  - the lineage of a pricing component;
  - its net amount: the latest original plus, for each refund id found in a refund's
    semantic id, the latest refund row of that id;
  - the regular/refund split of the latest breakdown, with its total;
  - `format_dimensions`.
- **JSON editor** (`BracketDepth`). `get_bracket_depth_indicators` gives the per-line
  nesting guides. The method versions walk the lines as the source does, and are proved
  equal to a recursive reference definition. The source's single loop is split into two
  passes with the same result: one reads each line's leading closers and bracket balance,
  the other carries the depth from line to line.
- **Scenario list** (`DisplayName`). `filename_to_display_name` turns a file name into a
  display name.

`Seqs`, `Strings` and `Wrappers` are the supporting library:
- filtering, grouping by key, and sums;
- Python's `split`/`join`/`replace`/`count`/`lstrip` and ASCII case mapping;
- `Option`.

`Facts` holds the row types, keeping only the columns the projections read. Nullable
columns are `Option`s. Database reads become sequence parameters: a table is a `seq` of
rows in insertion order.

Quirks of the source that the model keeps:
- **NULL supplier reference.** A NULL `supplier_reference_id` forms its own timeline
  partition. SQL `=` never matches NULL, so that instance gets no lines
  (`NullReferenceGetsNoLines`).
- **Two readings of an empty instance id.** The SQL partitions on
  `COALESCE(fulfillment_instance_id, '__BOOKING_LEVEL__')`. The Python lookup key maps any
  falsy id to the sentinel. So an instance whose id is the literal sentinel merges with
  the booking level (`SentinelIdMergesWithBookingLevel`). An instance whose id is `""` is
  a partition of its own, yet it reads the booking-level lines
  (`EmptyIdReadsBookingLines`).
- **Duplicate rows are all kept.** Two lines that share party, obligation type and
  version are both selected, and every copy of an identical row is selected as often as
  it occurs (`TiesAreAllSelected`). Two identical standalone rows are two obligations and
  count twice in the total (`IdenticalStandaloneLinesCountTwice`).
- **Leading closers count twice.** They lower the bracket depth before a line's indicator
  and again when the line's balance is added (`LeadingClosersCountTwice`). The running
  depth can become negative (`NegativeDepthExample`).
- **Two readings of a CancelledWithFee fee.** The report `CASE` reads
  `cancellation_fee_amount` directly. The projection expects the fee as a
  CANCELLATION_FEE line and uses the column only as a legacy fallback.
  `EffectivePayableVersusBaseline` states exactly when the two disagree.

## Model

| member | source | states |
|---|---|---|
| LatestState.LatestView | src/storage/database.py:267-309 | a row is in a latest view iff it is a row of the table and no row of its group has a greater version; a kept row appears as many times as in the table |
| LatestState.LatestViewAll | src/storage/database.py:267-309 | a table whose rows are each the latest of their group is its own latest view, order included |
| LatestState.PricingLatest | src/storage/database.py:268-276 | `order_pricing_latest` holds exactly the rows at the greatest version of their (order, semantic id) |
| LatestState.PaymentLatest | src/storage/database.py:279-287 | `payment_timeline_latest` holds exactly the rows at the greatest timeline version of their order |
| LatestState.SupplierLatest | src/storage/database.py:290-298 | `supplier_timeline_latest` holds exactly the rows at the greatest version of their (order, order detail) |
| LatestState.RefundLatest | src/storage/database.py:301-309 | `refund_timeline_latest` holds exactly the rows at the greatest version of their (order, refund id) |
| LatestState.LatestPricingVersion | src/storage/database.py:491-503 | None iff the order has no pricing rows; otherwise the greatest version of the order, attained by a row |
| LatestState.LatestPaymentTimelineVersion | src/storage/database.py:505-517 | None iff the order has no payment rows; otherwise the greatest timeline version, attained by a row |
| LatestState.LatestSupplierTimelineVersion | src/storage/database.py:519-532 | None iff the order detail has no supplier rows; otherwise the greatest version, attained by a row |
| LatestState.SupplierViewMatchesLookup | src/storage/database.py:519-532 | a row of an order detail is in `supplier_timeline_latest` iff its version is what the lookup returns, and a detail with a version has a row in the view |
| StatusRules.StatusBaseline | src/storage/database.py:715-732 | active statuses keep the timeline obligations and take the amount (NULL as 0); every other status, unknown included, gives 0 and drops them; the reason tells CancelledWithFee from CancelledNoFee/Voided |
| StatusRules.FinalBaseline | src/storage/database.py:835-844 | a CancelledWithFee snapshot with a positive fee column and no CANCELLATION_FEE line of the supplier takes the fee as baseline; otherwise the status baseline stands; only an active status can give a negative baseline |
| StatusRules.EffectivePayable | src/storage/database.py:1069-1076 | active statuses owe the amount (NULL as 0), CancelledWithFee owes the fee column (NULL as 0), all others owe 0 |
| StatusRules.EffectivePayableVersusBaseline | src/storage/database.py:994-999 | the report mapping and the projection baseline differ iff the status is CancelledWithFee and the fee column is non-zero and either negative or already covered by a fee line |
| Projection.LatestPerPartition | src/storage/database.py:685-693 | one row per listed partition key, from that partition, with no row of the partition at a greater version |
| Projection.OrderRows | src/storage/database.py:690-691 | the rows of the order and only those |
| Projection.LatestStatuses | src/storage/database.py:671-694 | every returned row belongs to the order and is latest in its partition; no two share a partition; every partition of the order is represented |
| Projection.InstanceLines | src/storage/database.py:742-748 | a line belongs to the instance iff it has the order, the order detail, an SQL-equal supplier reference, and the instance key; each such line is kept as many times as it occurs |
| Projection.ActiveProjection | src/storage/database.py:751-774 | a line is selected iff its version is at least 1 and no line of its (party, obligation type) has a greater version, as many times as it occurs |
| Projection.CancelledProjection | src/storage/database.py:776-791 | the lines at the snapshot's version, each as many times as it occurs, when there are any (override), otherwise nothing (reset) |
| Projection.Standalone | src/storage/database.py:793-804 | exactly the lines at version -1, each as many times as it occurs |
| Projection.Obligations | src/storage/database.py:806-807 | every standalone line is kept; under an active status a line is kept iff standalone or latest of its pair; otherwise iff standalone or at the snapshot's version; each kept line appears as many times as it occurs |
| Projection.SupplierParty | src/storage/database.py:831-857 | the supplier entry has type `SUPPLIER`, the supplier id as name and the baseline; it carries every supplier obligation as often as it occurs and no other, and totals the baseline plus their net |
| Projection.OtherParty | src/storage/database.py:816-873 | a non-supplier entry has baseline 0, every obligation of that party as often as it occurs and no other, total = adjustment = their net, and the type and name of the party's last obligation (the dict entry is overwritten) |
| Projection.OtherParties | src/storage/database.py:859-873 | one entry per listed party id, in the listed order |
| Projection.OtherPartyIds | src/storage/database.py:811-820 | the distinct party ids other than the supplier that carry some obligation, each once, in the order of their first obligation |
| Projection.OtherPartiesSum | src/storage/database.py:860-873 | the listed parties' totals add up to the sum over those ids of each id's net |
| Projection.Parties | src/storage/database.py:828-873 | the supplier entry first, then the other parties; the totals add up to the baseline plus the net of all obligations |
| Projection.ProjectInstance | src/storage/database.py:705-891 | every obligation is an instance line; instance total = baseline + net of all obligations; the supplier comes first with baseline + own net; the baseline is the fallback-adjusted status baseline |
| Projection.TotalEffectivePayables | src/storage/database.py:651-893 | one breakdown per latest snapshot of the order, in order, each projected from that snapshot |
| ProjectionProperties.ResultsFollowStatuses | src/storage/database.py:876-879 | the i-th result carries the partition and the status of the i-th latest snapshot |
| ProjectionProperties.ResultsFromLatestRows | src/storage/database.py:685-693 | each result's snapshot is a row of the order with the greatest version of its partition |
| ProjectionProperties.ResultsDistinct | src/storage/database.py:685-687 | no two results share a partition |
| ProjectionProperties.ResultForEveryPartition | src/storage/database.py:671-694 | every partition of the order has a result |
| ProjectionProperties.StatusOfPartition | src/storage/database.py:685-693 | for a row of the order, an index of the latest snapshot of its partition |
| ProjectionProperties.ResultCountIsPartitionCount | src/storage/database.py:671-694 | the number of results equals the number of distinct partitions of the order |
| ProjectionProperties.StatusCountIsPartitionCount | src/storage/database.py:685-693 | the number of latest snapshots equals the number of distinct partitions |
| ProjectionProperties.CoveringCount | src/storage/database.py:685-693 | a list of order rows with pairwise distinct partitions that covers every partition has one element per partition |
| ProjectionProperties.OnePartitionOneResult | src/storage/database.py:685-693 | an order whose rows all share one partition yields exactly one snapshot, its latest |
| ProjectionProperties.SentinelIdMergesWithBookingLevel | src/storage/database.py:687 | an instance id equal to the sentinel lands in the booking-level partition |
| ProjectionProperties.EmptyIdReadsBookingLines | src/storage/database.py:709 | an empty instance id is its own partition but selects exactly the booking-level lines |
| ProjectionProperties.NullReferenceGetsNoLines | src/storage/database.py:742-749 | a snapshot with a NULL supplier reference gets no obligations, only the supplier entry, and total = baseline |
| ProjectionProperties.ObligationsLayout | src/storage/database.py:806-807 | the standalone lines form the tail; before them every line is at version >= 1 (active) or at the snapshot's version (otherwise) |
| ProjectionProperties.CancellationReset | src/storage/database.py:789-791 | cancelled with no line at the snapshot's version: only the standalone lines remain |
| ProjectionProperties.CancellationOverride | src/storage/database.py:776-788 | cancelled: a non-standalone line is kept iff it is at the snapshot's version |
| ProjectionProperties.ActiveKeepsNewestOfEachPair | src/storage/database.py:754-768 | every pair seen at version >= 1 has a selected line, and no older line of the pair is selected over a newer one |
| ProjectionProperties.ActiveKeepsSingleVersionPairs | src/storage/database.py:754-772 | when every pair occurs at a single version >= 1, the active projection keeps all lines in order |
| ProjectionProperties.CancelledKeepsOwnVersion | src/storage/database.py:777-788 | lines all at the snapshot's version are kept as they are |
| ProjectionProperties.NoStandaloneLines | src/storage/database.py:793-804 | with no line at version -1 nothing standalone is added |
| ProjectionProperties.TiesAreAllSelected | src/storage/database.py:765-768 | a line that ties a selected line's pair and version is selected too, every copy of it |
| ProjectionProperties.IdenticalStandaloneLinesCountTwice | src/storage/database.py:793-826 | two identical standalone rows of an instance are both obligations and add twice their signed amount to the total |
| ProjectionProperties.DuplicateStandaloneObligations | src/storage/database.py:793-807 | two copies of a standalone row are both obligations, whatever the status |
| ProjectionProperties.InstanceObligations | src/storage/database.py:734-807 | each line of the instance occurs among its obligations as often as among all lines if it is standalone, as often again if the status selects it, and no other line occurs |
| ProjectionProperties.StandaloneSurvives | src/storage/database.py:793-807 | every standalone line of the instance is among its obligations, whatever the status |
| ProjectionProperties.NetIsIncreasesMinusDecreases | src/storage/database.py:822-826 | a net is the INCREASES amounts minus the DECREASES amounts; other effects add nothing |
| ProjectionProperties.OtherPartiesListed | src/storage/database.py:859-873 | after the supplier come exactly the other parties' entries, ordered by each party's first obligation |
| ProjectionProperties.PartiesShape | src/storage/database.py:816-873 | the supplier entry is first with baseline + own net and every supplier obligation as often as it occurs; every later entry is a non-supplier party with baseline 0, every one of its obligations as often as it occurs, total = net, and its last obligation's type and name |
| ProjectionProperties.PartiesDistinct | src/storage/database.py:859-873 | no party appears twice |
| ProjectionProperties.PartiesCoverObligations | src/storage/database.py:816-873 | every obligation's party has an entry |
| ProjectionProperties.SupplierWithoutLinesOwesBaseline | src/storage/database.py:831-833 | a supplier without obligations is still emitted, with total = baseline |
| Scenarios.ScenarioAInstances | test_v2_scenarios.py:91 | an issued booking has one instance |
| Scenarios.ScenarioAObligations | test_v2_scenarios.py:95 | the issued booking keeps its three obligations |
| Scenarios.ScenarioATotal | test_v2_scenarios.py:97-99 | 300000 - 45000 + 4694 + 516 = 260210 |
| Scenarios.ScenarioBInstances | test_v2_scenarios.py:139-140 | after cancellation the instance's snapshot is the cancellation |
| Scenarios.ScenarioBObligations | test_v2_scenarios.py:142 | cancellation without new lines drops the timeline obligations |
| Scenarios.ScenarioBTotal | test_v2_scenarios.py:141-143 | the legacy fee column is the baseline and the total is 50000 |
| Scenarios.ScenarioCObligations | test_v2_scenarios.py:190-196 | only the standalone penalty survives the cancellation |
| Scenarios.ScenarioCTotal | test_v2_scenarios.py:198-199 | 50000 + 500000 = 550000 |
| Scenarios.ScenarioDObligations | test_v2_scenarios.py:276-280 | the cancellation's own two adjusted lines replace the issued ones |
| Scenarios.ScenarioDBaseline | test_v2_scenarios.py:273-274 | the baseline is the 75000 fee |
| Scenarios.ScenarioDTotal | test_v2_scenarios.py:282-283 | 75000 + 2000 + 220 = 77220 |
| Scenarios.MultiInstanceCount | debug_multi_instance.py:118-131 | two redemptions and a booking-level row give three instances |
| Lineage.LineageOf | src/storage/database.py:446-471 | the originals are the non-refund rows of the semantic id; the refunds are the refund rows linking to it |
| Lineage.OriginalAmount | src/ui/order_explorer.py:305-306 | 0 without originals; otherwise the amount of an original of the greatest version |
| Lineage.FirstRfd | src/ui/order_explorer.py:318-322 | the first `RFD` part that has a following part, or None when there is none |
| Lineage.RefundId | src/ui/order_explorer.py:314-322 | an extracted refund id starts with `RFD-` |
| Lineage.TagRefunds | src/ui/order_explorer.py:311-327 | every tagged row is a refund row filed under the id extracted from it |
| Lineage.LatestAmount | src/ui/order_explorer.py:332 | the amount of a row of the group's greatest version |
| Lineage.RefundIds | src/ui/order_explorer.py:324-333 | each extracted refund id once |
| Lineage.NetAmount | src/ui/order_explorer.py:287-335 | present iff there are refund rows, and then the original amount plus the refund total |
| Lineage.OrderLatest | src/storage/database.py:423-431 | exactly the order's rows at the greatest version of their semantic id |
| Lineage.LatestBreakdown | src/ui/order_explorer.py:72-103 | nothing iff no latest rows; only refunds iff no regular row; else regular and refund rows split the latest rows by `is_refund`, each row kept as often as it occurs, and the total is the sum of the regular rows' amounts |
| Lineage.FormatPair | src/ui/order_explorer.py:772 | a pair renders with an `=` |
| Lineage.FormatPairs | src/ui/order_explorer.py:772 | one rendering per pair, in order |
| Lineage.FormatDimensions | src/ui/order_explorer.py:768-772 | the rendering is `ORDER` iff there are no dimensions |
| LineageProperties.FirstRfdFinds | src/ui/order_explorer.py:318-322 | the scan stops at the first `RFD` part that has a following part |
| LineageProperties.RefundIdFound | src/ui/order_explorer.py:314-322 | the refund id is `RFD-` plus the part after the first `RFD` |
| LineageProperties.RefundIdAbsent | src/ui/order_explorer.py:318-325 | without such an `RFD` part there is no refund id |
| LineageProperties.RefundIdExists | src/ui/order_explorer.py:314-325 | a refund id exists iff some non-last part is `RFD` |
| LineageProperties.RefundIdOfParts | src/ui/order_explorer.py:312-322 | hyphen-joined parts whose first `RFD` is followed by `id` yield `RFD-id` |
| LineageProperties.RefundIdNeedsHyphen | src/ui/order_explorer.py:315-322 | a semantic id without `-` has no refund id |
| LineageProperties.TaggedMember | src/ui/order_explorer.py:324-327 | every refund row with an id is filed under that id |
| LineageProperties.SameTagsSameTotal | src/ui/order_explorer.py:329-333 | the refund total depends only on the tagged rows |
| LineageProperties.RefundTotalUnidentified | src/ui/order_explorer.py:324-327 | a refund row without a refund id adds nothing to the total |
| LineageProperties.RefundTotalNewId | src/ui/order_explorer.py:324-333 | a row with a new refund id adds its amount |
| LineageProperties.RefundTotalSuperseded | src/ui/order_explorer.py:330-333 | a row not newer than an existing row of its id changes nothing |
| LineageProperties.RefundTotalRevised | src/ui/order_explorer.py:330-333 | a newer revision replaces the counted row of its id: total - old + new |
| LineageProperties.RefundTotalWithoutRevisions | src/ui/order_explorer.py:329-333 | when no id has two rows, the total is the plain sum of identified rows |
| LineageProperties.BreakdownSplitsLatest | src/ui/order_explorer.py:78-103 | regular and refund rows together number the latest rows, and the total is all latest amounts minus the refund amounts |
| LineageProperties.FormatDimensionsSingle | src/ui/order_explorer.py:768-772 | a single pair renders as `k=v` |
| LineageProperties.FormatDimensionsSnoc | src/ui/order_explorer.py:772 | one more pair appends `, k=v` |
| LineageProperties.PairHasOneEquals | src/ui/order_explorer.py:772 | a pair without `=` in key or value renders with exactly one `=` |
| LineageProperties.FormatDimensionsPairCount | src/ui/order_explorer.py:768-772 | with `=`-free keys and values, the rendering holds one `=` per pair |
| BracketDepth.LeadingClosers | src/ui/json_editor.py:404-409 | the count is a prefix of closers followed by a non-closer or the end |
| BracketDepth.Lead | src/ui/json_editor.py:400-409 | the leading-closer count is between 0 and the line's length |
| BracketDepth.Indicator | src/ui/json_editor.py:417 | empty at depth <= 0, otherwise three characters per level |
| BracketDepth.IndicatorGrows | src/ui/json_editor.py:417 | one more level adds one `│  ` |
| BracketDepth.CountLeadingClosers | src/ui/json_editor.py:403-409 | the loop counts the leading closers of the stripped line |
| BracketDepth.WalkLines | src/ui/json_editor.py:399-423 | the running-depth loop produces the reference indicators |
| BracketDepth.ReadShape | src/ui/json_editor.py:401-422 | one line's leading-closer count and bracket balance, as the reference defines them |
| BracketDepth.LineShapes | src/ui/json_editor.py:399-422 | the per-line counts, collected in line order, equal the reference shapes |
| BracketDepth.WalkShapes | src/ui/json_editor.py:411-423 | carrying the depth from line to line yields the reference indicators |
| BracketDepth.GetBracketDepthIndicators | src/ui/json_editor.py:385-425 | one indicator per `\n`-separated line, equal to the reference, the first one empty |
| BracketDepth.Shapes | src/ui/json_editor.py:399-422 | each line's leading closers and bracket balance, in order |
| BracketDepth.IndicatorsOf | src/ui/json_editor.py:396-425 | one indicator per line |
| BracketDepth.IndicatorAt | src/ui/json_editor.py:411-417 | line i's indicator is built from the depth after the lines before it minus line i's leading closers |
| BracketDepth.WalkFromContinues | src/ui/json_editor.py:399-423 | walking the rest from the depth the first lines leave continues the walk of the whole text |
| BracketDepth.FirstIndicatorEmpty | src/ui/json_editor.py:398-417 | the first indicator is empty |
| BracketDepth.CarryOver | src/ui/json_editor.py:411-423 | the depth after a line is the incoming depth minus leading closers plus the line's balance |
| BracketDepth.NoBracketsKeepDepth | src/ui/json_editor.py:420-423 | a line without brackets leaves the depth unchanged |
| BracketDepth.LeadingClosersCountTwice | src/ui/json_editor.py:411-423 | a line of only leading closers lowers the depth by twice their number |
| BracketDepth.DepthClosedForm | src/ui/json_editor.py:411-423 | the final depth is the sum of balances minus the sum of leading closers |
| BracketDepth.FinalDepth | src/ui/json_editor.py:396-423 | the depth after the whole text is its bracket balance minus all leading closers |
| BracketDepth.NegativeDepthExample | src/ui/json_editor.py:411-423 | the depth is never clamped: after `}` it is -2, and `}` then `{` gives two empty indicators |
| DisplayName.Word | src/ui/json_loader.py:33-39 | same length and letters up to case; an acronym has no lower-case letter; another part has its first character upper-cased and the rest lower-cased |
| DisplayName.WordKeeps | src/ui/json_loader.py:33-39 | characters that are not ASCII letters are kept in place |
| DisplayName.WordIgnoresCase | src/ui/json_loader.py:36-39 | parts that agree up to case get the same word |
| DisplayName.WordIdempotent | src/ui/json_loader.py:33-39 | transforming a word again changes nothing |
| DisplayName.Words | src/ui/json_loader.py:32-39 | one word per part, in order |
| DisplayName.FileDisplayName | src/ui/json_loader.py:26-42 | the display name holds no `-` |
| DisplayName.ReplaceSuffix | src/ui/json_loader.py:27 | removing `.json` from a stem without `.` plus `.json` gives the stem |
| DisplayName.DisplayNameOfStem | src/ui/json_loader.py:26-42 | for `stem.json` the name is the words of the hyphen parts joined by single spaces; splitting it on spaces gives those words back; there is one word per hyphen plus one |
| DisplayName.WordExamples | src/ui/json_loader.py:15-18 | `b2b` becomes `B2B` and `basic` becomes `Basic` |
| DisplayName.WordOf | src/ui/json_loader.py:36-39 | a non-acronym part becomes its first character upper-cased followed by the rest lower-cased |
| DisplayName.DocumentedWords | src/ui/json_loader.py:15-18 | `001`, `123456` stay; `single`, `item`, `pricing`, `affiliate`, `case`, `simple` are capitalised |
| DisplayName.DisplayNameOfPieces | src/ui/json_loader.py:26-42 | pieces without `-` or `.`, joined by `-` and ended by `.json`, are shown as their words joined by single spaces |
| DisplayName.BasicPricingExample | src/ui/json_loader.py:16 | `001-basic-single-item-pricing.json` is shown as `001 Basic Single Item Pricing` |
| DisplayName.AffiliateCaseExample | src/ui/json_loader.py:17 | `123456-b2b-affiliate-case.json` is shown as `123456 B2B Affiliate Case` |
| DisplayName.SimplePricingExample | src/ui/json_loader.py:18 | `simple-pricing.json` is shown as `Simple Pricing` |
| Strings.Split | src/ui/json_loader.py:30 | one more part than separators, no part holds the separator, and joining the parts gives the text back |
| Strings.SplitJoin | src/ui/json_editor.py:396 | splitting a join of separator-free parts gives the parts back |
| Strings.ReplaceAll | src/ui/json_loader.py:27 | a text without the pattern is left unchanged, and removing a pattern never lengthens the text |
| Strings.ReplaceAllLeftmost | src/ui/json_loader.py:27 | occurrences are replaced from the left: text before the first occurrence is copied, that occurrence replaced, and the scan goes on after it |
| Strings.LStrip | src/ui/json_editor.py:401 | the line with its leading whitespace dropped: a suffix, everything dropped is whitespace, and it starts with a non-whitespace character |
| Strings.Capitalize | src/ui/json_loader.py:39 | the first character upper-cased and the rest lower-cased |

## Left out

- SQLite I/O, the connection, DDL and every `insert_*` method: tables are sequences of rows in insertion order.
- Version assignment as max + 1: the ingestion pipeline that assigns versions is not part of this model. Only the lookups are modelled.
- Concurrent writers and `check_same_thread=False`: concurrency is not modelled.
- Raw pass-through reads and group-by listings (`get_payables_by_party`, `get_payables_timeline`, `get_supplier_payables_latest`, `get_*_timeline`): they hold no logic beyond SQL.
- The Streamlit rendering, `format_currency` (floating point) and `format_datetime` (date library): these are presentation only.
- `calculate_json_path`, `find_matching_bracket`, `format_json`, `validate_json` and file loading: these are JSON-library and filesystem wrappers.
- StatusRules.StatusBaseline and Projection.ProjectInstance: the baseline reason is an enumeration instead of the formatted sentence.
- Projection.LatestStatuses: SQL returns rows without `ORDER BY` in an unspecified order. The model lists partitions in first-appearance order, and its contracts do not depend on that order.
- Projection.LatestStatuses: on a version tie `ROW_NUMBER` picks an arbitrary row. The model picks the first, and the contracts promise only a row of the greatest version.
- Projection.OtherParty: an id without obligations gets no type and no name. The source never builds such an entry.
- Projection.InstanceLines: the line queries have no `ORDER BY` (src/storage/database.py:742-804). SQLite may return them in the order of the index `idx_payable_lines_supplier_ref` (src/storage/database.py:217-220), that is by party and obligation type. The model keeps table order. The order of `OtherPartyIds` (src/storage/database.py:860) and which line's `party_type` and `party_name` win (src/storage/database.py:819-820) follow from that choice.
- Lineage.LineageOf: the `ORDER BY version ASC` of both queries (src/storage/database.py:459, 468) is not modelled, so originals and refunds keep table order. On a version tie Python's `max` (src/ui/order_explorer.py:332) keeps the first row it is given. The model takes that row in table order, which is why `RefundTotalSuperseded` asks only `d.version >= c.version`; with the query's ordering dropped, which of two tying rows counts is the model's own choice.
- DisplayName.FileDisplayName: its own contract states only that no `-` remains. The whole result is stated by `DisplayNameOfStem` and `DisplayNameOfPieces` for names whose only `.` is in the final `.json`, and the removal step by `Strings.ReplaceAll` with `Strings.ReplaceAllLeftmost` for any text.
- Lineage.OrderLatest: the `ORDER BY component_type, dimensions` of `get_order_pricing_latest` is not modelled, so rows keep table order.
- Lineage.FormatDimensions: dimension values are taken as already rendered strings. Python's `str()` of JSON values is not modelled.
- Lineage.RefundId: the contract only gives the `RFD-` prefix. The exact extraction is stated by `LineageProperties.RefundIdFound`, `RefundIdAbsent` and `RefundIdOfParts`, at the level of parts and not of concrete semantic-id literals.
- DisplayName.Word: case mapping covers ASCII letters only. Python's Unicode `upper` and `capitalize` are not modelled.
- Strings.LStrip: whitespace is Python's `str.isspace` set written out as code points.
