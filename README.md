# Remotion financial-verification and office-network videos: a Dafny model

This project models the discrete logic of two Remotion videos.

The first is a financial-verification video. It shows a Bloomberg export of five companies, three annual-report documents being scanned, the figures extracted from them, a side-by-side comparison that reveals the differing cells one by one, and a scene that corrects each difference. The second is an office-network video: a title, a topology with animated connection lines, an inventory table and an issues scene.

The model covers:

- the data tables, with the proof that the annotated differences are exactly the cells where the two tables differ;
- the cell keys of the table component, their injectivity, the status-to-colour rule, the correction lookup and the value shown during a correction;
- the reveal loop of the comparison view, written as an imperative method with nested loops that writes two maps in place. The method is proved equal to a recursive specification, and the specification's properties are proved as lemmas: prefix order, monotonicity, the empty start, the full end, and that the counter agrees with the red cells;
- the frame schedules of the scenes: the highlight sweep, the document scans, the extraction, the row triggers and the correction windows;
- the timeline of each composition, under an explicit assumption about `Sequence`. A window `(from, duration, premount)` is visible for `from <= f < from + duration` at local frame `f - from`. It is premounted during the `premount` frames before `from`, and not mounted otherwise.

Every `interpolate` or `spring` output is a `real` parameter. Where the call clamps it, its range is a precondition. JavaScript's `Math.round` is `floor(x + 1/2)` and `Math.floor` is `floor`. A template literal `${n}` of a non-negative integer is its decimal rendering without leading zeros.

Two facts in the source are recorded as lemmas. Neither is changed.

- `src/Root.tsx:20` registers the financial video with 2520 frames, while `DURATION` is 2700 (`src/FinancialVerification/data.ts:159`). Scene 6's window `[2400, 2700)` is therefore rendered only for its first 120 frames (`FinancialVideo.LastSceneCutShort`).
- The office-network badge reads a fixed "4 Probleme erkannt" (`src/BueroNetzwerk/BueroNetzwerkVideo.tsx:343`), while five inventory rows carry an issue (`BueroNetzwerk.BadgeDisagreesWithTable`).

The office-network windows (0, 150), (150, 210), (360, 150) and (510, 90) end at 600, the length registered in `src/RootBueroNetzwerk.tsx:9`.

## Model

| member | source | states |
|---|---|---|
| Util.FindIndex | src/FinancialVerification/components/DataTable.tsx:175-177 | `Array.find`: the first index whose element satisfies the predicate, and none exactly when no element does |
| Util.Filter | src/FinancialVerification/components/ComparisonView.tsx:84-87 | `Array.filter`: every element of the result satisfies the predicate and comes from the input, and each satisfying value occurs in the result exactly as often as in the input, so `.length` counts the satisfying elements |
| Util.FilterConcat | src/FinancialVerification/components/ComparisonView.tsx:84-87 | filtering a concatenation is the concatenation of the filtered parts, so the result keeps the input's order |
| Util.FilterSingleton | src/FinancialVerification/components/ComparisonView.tsx:84-87 | a one-element input keeps its element iff it satisfies the predicate; with `FilterConcat` this fixes the result, order included |
| Util.JsRound | src/FinancialVerification/scenes/Scene5Correction.tsx:102-103 | `Math.round`: the integer within one half of `x`, halves going up |
| Util.JsFloor | src/FinancialVerification/scenes/Scene2ExcelData.tsx:58 | `Math.floor`: the greatest integer not above `x` |
| Util.NatToString | src/FinancialVerification/components/DataTable.tsx:34 | the decimal rendering of `${n}` is non-empty and all digits |
| Util.DigitsValueOfNatToString | src/FinancialVerification/components/DataTable.tsx:34 | reading the decimal rendering back gives the number, proved by induction on the digits |
| Util.NatToStringInjective | src/FinancialVerification/components/DataTable.tsx:34 | different numbers render differently |
| Data.AnnotatedCells | src/FinancialVerification/data.ts:109-131 | the annotated cells are exactly (2,2), (3,3) and (4,4) |
| Data.TablesAligned | src/FinancialVerification/data.ts:9-83 | both tables have five rows with the same company names in the same order |
| Data.ColumnTables | src/FinancialVerification/data.ts:85-99 | five distinct column keys and five labels; column 0 is `name` |
| Data.MismatchesWellFormed | src/FinancialVerification/data.ts:85-131 | each annotation points at a numeric cell in range, names that column's key, and quotes the two tables' differing values |
| Data.MismatchesDistinct | src/FinancialVerification/data.ts:109-131 | no two annotations name the same cell |
| Data.DifferencesAreAnnotated | src/FinancialVerification/data.ts:9-131 | a cell differs between the tables iff it is annotated, so there is no unannotated difference |
| Data.SceneTimingContiguous | src/FinancialVerification/data.ts:161-168 | scene 1 starts at 0, each later scene starts where the previous ends, every duration is positive |
| Data.SceneTimingEndsAtDuration | src/FinancialVerification/data.ts:158-168 | the last scene ends at `DURATION`, which is 90 seconds at `FPS` |
| DataTable.CellKey | src/FinancialVerification/components/DataTable.tsx:34 | the key `${row}-${col}`; `CellKeyShape` and `CellKeyInjective` state its shape and that it identifies the cell |
| DataTable.CellKeyShape | src/FinancialVerification/components/DataTable.tsx:34 | the key is the row's decimal rendering, one `-`, and the column's, with no `-` before it |
| DataTable.CellKeyInjective | src/FinancialVerification/components/DataTable.tsx:34 | two cells have the same key iff they have the same row and column |
| DataTable.StatusOf | src/FinancialVerification/components/DataTable.tsx:174 | a cell without an entry is neutral; otherwise it has its entry's status |
| DataTable.TextColour | src/FinancialVerification/components/DataTable.tsx:179-192 | success iff match or corrected, error iff mismatch, and for neutral the primary colour in the name column, secondary elsewhere |
| DataTable.BadgeColour | src/FinancialVerification/components/DataTable.tsx:181-192 | dim success iff match or corrected, dim error iff mismatch, transparent iff neutral |
| DataTable.BorderColour | src/FinancialVerification/components/DataTable.tsx:182-192 | transparent iff neutral, otherwise the same hue as the text |
| DataTable.CorrectionFor | src/FinancialVerification/components/DataTable.tsx:175-177 | the first correction naming both the row and the column, or none iff no correction names the cell |
| DataTable.ShownValue | src/FinancialVerification/components/DataTable.tsx:194-214 | the cell's own value when no correction applies or progress <= 0; the old value for 0 < p < 0.5; the new value from 0.5 on |
| DataTable.ShownFade | src/FinancialVerification/components/DataTable.tsx:195-214 | which fade ramp applies, in the same three cases, each iff its condition |
| DataTable.RenderCell | src/FinancialVerification/components/DataTable.tsx:173-215 | the step-by-step assignments give the status, colours, value and fade that the rules above specify |
| DataTable.CorrectedTableShowsReportFigures | src/FinancialVerification/components/DataTable.tsx:194-214 | with the annotations passed as corrections, every cell shows the report's figure from progress 0.5 on and the Bloomberg figure before the correction starts |
| DataTable.RowDelay | src/FinancialVerification/components/DataTable.tsx:143 | `rowIndex * 8` when rows are animated, else 0 |
| DataTable.RowFactor | src/FinancialVerification/components/DataTable.tsx:144-151 | exactly 1 when rows are not animated |
| DataTable.RowDelayMonotone | src/FinancialVerification/components/DataTable.tsx:143 | later rows never enter earlier; animated rows enter 8 frames apart |
| DataTable.IsHighlighted | src/FinancialVerification/components/DataTable.tsx:153 | a row is highlighted iff the highlight is defined and equals its index |
| DataTable.RowBackground | src/FinancialVerification/components/DataTable.tsx:161-165 | highlight iff highlighted, otherwise the even or odd stripe by parity |
| DataTable.AtMostOneHighlightedRow | src/FinancialVerification/components/DataTable.tsx:153 | no two rows are highlighted at once |
| ComparisonView.CellThreshold | src/FinancialVerification/components/ComparisonView.tsx:47 | `cellIndex * progressPerCell`, i.e. `cellIndex / 25` (`ThresholdValues`); growing with the index (`ThresholdMonotone`) |
| ComparisonView.MismatchFor | src/FinancialVerification/components/ComparisonView.tsx:50-52 | the `find` over the annotations: some annotation is found iff the cell is annotated, and the one found names that row and column |
| ComparisonView.ExcelUpTo | src/FinancialVerification/components/ComparisonView.tsx:44-64 | the Bloomberg map after the loop has visited the first `n` numeric cells; its meaning is stated by `UpToKeys` and `UpToCell` |
| ComparisonView.PdfUpTo | src/FinancialVerification/components/ComparisonView.tsx:44-64 | the report map after `n` visits; its meaning is stated by `UpToKeys` and `UpToCell` |
| ComparisonView.ExcelHighlights | src/FinancialVerification/components/ComparisonView.tsx:38-64 | `excelHighlights` after the loops; its meaning is stated by `HighlightsMeaning` |
| ComparisonView.PdfHighlights | src/FinancialVerification/components/ComparisonView.tsx:38-64 | `pdfHighlights` after the loops; its meaning is stated by `HighlightsMeaning` |
| ComparisonView.MismatchCount | src/FinancialVerification/components/ComparisonView.tsx:84-87 | `mismatchCount`; `MismatchCountCases` gives its value and `MismatchCountMatchesHighlights` shows it equals the number of red cells |
| ComparisonView.ExcelStatus | src/FinancialVerification/components/ComparisonView.tsx:50-61 | a revealed Bloomberg cell is a mismatch iff it is annotated, a match otherwise |
| ComparisonView.ThresholdMonotone | src/FinancialVerification/components/ComparisonView.tsx:41-47 | cell thresholds grow with the cell index |
| ComparisonView.KeyOfInjective | src/FinancialVerification/components/ComparisonView.tsx:46-53 | different visits write different keys |
| ComparisonView.UpToKeys | src/FinancialVerification/components/ComparisonView.tsx:44-64 | after any number of visits both maps have the same keys, all from visited cells, and every report entry is a match (induction) |
| ComparisonView.UpToCell | src/FinancialVerification/components/ComparisonView.tsx:44-64 | after `n` visits cell `j` has an entry iff `j < n` and its threshold is exceeded, and it carries the cell's status (induction) |
| ComparisonView.UpToMeaning | src/FinancialVerification/components/ComparisonView.tsx:44-64 | for the finished maps, the same per visit index |
| ComparisonView.HighlightsMeaning | src/FinancialVerification/components/ComparisonView.tsx:44-64 | exactly the revealed numeric cells have entries, the name column never does, a Bloomberg entry is a mismatch iff annotated and a match otherwise, every report entry is a match, and both maps have the same keys |
| ComparisonView.ComparisonCellStatus | src/FinancialVerification/components/ComparisonView.tsx:44-64 | what each cell of the two tables shows: neutral until revealed, then red iff annotated (Bloomberg) or green (report) |
| ComparisonView.RevealedPrefix | src/FinancialVerification/components/ComparisonView.tsx:46-49 | if a cell is revealed, every cell before it in row-major order is revealed in both maps |
| ComparisonView.RevealMonotone | src/FinancialVerification/components/ComparisonView.tsx:44-64 | more progress keeps every entry, with the same status |
| ComparisonView.NothingRevealedAtStart | src/FinancialVerification/components/ComparisonView.tsx:47-49 | at progress <= 0 both maps are empty and the counter is 0 |
| ComparisonView.EverythingRevealedAtEnd | src/FinancialVerification/components/ComparisonView.tsx:41-47 | past 19/25 all 20 numeric cells are revealed and the counter shows all three annotations |
| ComparisonView.AllNumericCellsRevealedAtEnd | src/FinancialVerification/components/ComparisonView.tsx:44-47 | the same per cell `(row, col)` |
| ComparisonView.MismatchCountCases | src/FinancialVerification/components/ComparisonView.tsx:84-87 | the counter counts the annotations at cell indices 9, 14 and 19 whose thresholds are exceeded |
| ComparisonView.MismatchIndices | src/FinancialVerification/components/ComparisonView.tsx:46-56 | visit indices 9, 14 and 19, and only these, carry an annotation |
| ComparisonView.MismatchKeyMember | src/FinancialVerification/components/ComparisonView.tsx:49-57 | a visited cell is marked mismatch iff it is revealed and annotated |
| ComparisonView.MismatchKeysWithin | src/FinancialVerification/components/ComparisonView.tsx:55-57 | only the three annotated cells can be marked mismatch |
| ComparisonView.MismatchCountMatchesHighlights | src/FinancialVerification/components/ComparisonView.tsx:46-87 | the counter equals the number of red Bloomberg cells |
| ComparisonView.VisitCell | src/FinancialVerification/components/ComparisonView.tsx:46-62 | one pass of the column loop's body turns the maps after `n` visits into the specified maps after `n + 1` visits |
| ComparisonView.VisitRow | src/FinancialVerification/components/ComparisonView.tsx:45-63 | the column loop over one row turns the maps after `4 * row` visits into the specified maps after `4 * row + 4` |
| ComparisonView.BuildHighlights | src/FinancialVerification/components/ComparisonView.tsx:38-64 | the nested loops, writing both maps in place, end with exactly the specified maps after all 20 numeric cells, whose meaning `HighlightsMeaning` states |
| ExcelScene.HighlightWindow | src/FinancialVerification/scenes/Scene2ExcelData.tsx:49-54 | the sweep runs from frame `6 fps` to `7 fps`, one second |
| ExcelScene.HighlightRow | src/FinancialVerification/scenes/Scene2ExcelData.tsx:56-59 | defined iff the progress lies in [0, 4], and then the integer part of the progress |
| ExcelScene.NoHighlightBeforeSweep | src/FinancialVerification/scenes/Scene2ExcelData.tsx:56-59 | undefined and no row highlighted while the progress is negative |
| ExcelScene.HighlightStaysInFirstRows | src/FinancialVerification/scenes/Scene2ExcelData.tsx:49-59 | over the clamped range [-1, 2] a highlighted row is 0, 1 or 2 and a valid table row; rows 3 and 4 are never highlighted |
| ExcelScene.EachFirstRowIsReached | src/FinancialVerification/scenes/Scene2ExcelData.tsx:49-59 | each of rows 0..2 is highlighted for some progress in range |
| ExcelScene.HighlightMonotone | src/FinancialVerification/scenes/Scene2ExcelData.tsx:56-59 | the highlight never moves back as progress grows |
| ExcelScene.ScanLineVisible | src/FinancialVerification/scenes/Scene2ExcelData.tsx:150 | the scan line renders iff 0 < y < 100 |
| ExcelScene.ScanLineHiddenAtEnds | src/FinancialVerification/scenes/Scene2ExcelData.tsx:61-70 | the line is hidden at both clamped ends -10 and 110 of this interpolation (the visibility test is on line 150) |
| PdfScene.DocumentEntrance | src/FinancialVerification/scenes/Scene3PdfExtraction.tsx:25-30 | non-negative entrance offsets, 9 frames per document at 30 fps |
| PdfScene.ScanStart | src/FinancialVerification/scenes/Scene3PdfExtraction.tsx:35 | `Math.round((2 + index * 1.5) * fps)`; `ScanScheduleOrdered` and `ScanScheduleAt30` state its schedule |
| PdfScene.ScanEnd | src/FinancialVerification/scenes/Scene3PdfExtraction.tsx:36 | `Math.round((4 + index * 1.5) * fps)`, two seconds after the start (`ScanScheduleOrdered`) |
| PdfScene.ScanScheduleOrdered | src/FinancialVerification/scenes/Scene3PdfExtraction.tsx:32-40 | each scan lasts two seconds and later documents start later |
| PdfScene.ScansEndAtExtractionStart | src/FinancialVerification/scenes/Scene3PdfExtraction.tsx:32-40 | every scan has ended by the extraction start, the last exactly then |
| PdfScene.ScanScheduleAt30 | src/FinancialVerification/scenes/Scene3PdfExtraction.tsx:32-40 | at 30 fps the scans are [60,120], [105,165], [150,210], each overlapping the next |
| PdfScene.View | src/FinancialVerification/scenes/Scene3PdfExtraction.tsx:111-141 | which parts a document draws for a scan progress; `ScanPhases` and `ScanFlagsConsistent` state them |
| PdfScene.ScanPhases | src/FinancialVerification/scenes/Scene3PdfExtraction.tsx:111-141 | over [0, 1] a document is untouched at 0, being scanned strictly inside, done at 1, each iff |
| PdfScene.ScanFlagsConsistent | src/FinancialVerification/scenes/Scene3PdfExtraction.tsx:111-141 | never the line and the checkmark together; the overlay border iff the line |
| PdfScene.ExtractionStart | src/FinancialVerification/scenes/Scene3PdfExtraction.tsx:196 | seven seconds in |
| PdfScene.ExtractionEnd | src/FinancialVerification/scenes/Scene3PdfExtraction.tsx:197-202 | five seconds after the extraction start |
| PdfScene.ExtractedRowCount | src/FinancialVerification/scenes/Scene3PdfExtraction.tsx:211-214 | never more rows than the table has |
| PdfScene.ExtractedRowCountBands | src/FinancialVerification/scenes/Scene3PdfExtraction.tsx:211-214 | at least `k` rows are shown iff the progress reached `k / 6` |
| PdfScene.ExtractedRowCountEnds | src/FinancialVerification/scenes/Scene3PdfExtraction.tsx:211-214 | no row at 0 or below 1/6, every row at 1 and already from 5/6 on |
| PdfScene.ExtractedRowCountMonotone | src/FinancialVerification/scenes/Scene3PdfExtraction.tsx:211-214 | rows never disappear as progress grows |
| PdfScene.ExtractedRows | src/FinancialVerification/scenes/Scene3PdfExtraction.tsx:384 | the shown rows are the first `count` report rows, in order |
| PdfScene.RowTrigger | src/FinancialVerification/scenes/Scene3PdfExtraction.tsx:385-386 | no row enters before the extraction starts |
| PdfScene.RowTriggerIncreasing | src/FinancialVerification/scenes/Scene3PdfExtraction.tsx:385-386 | rows enter ten frames apart, in order |
| PdfScene.PercentLabel | src/FinancialVerification/scenes/Scene3PdfExtraction.tsx:485 | between 0 and 100, 0 at the start and 100 at the end |
| PdfScene.PercentLabelMonotone | src/FinancialVerification/scenes/Scene3PdfExtraction.tsx:485 | the label never counts down |
| CorrectionScene.CorrectionDuration | src/FinancialVerification/scenes/Scene5Correction.tsx:42 | four seconds; `EndFrame` states that each correction lasts this long |
| CorrectionScene.CorrectionGap | src/FinancialVerification/scenes/Scene5Correction.tsx:43 | one second; `CorrectionWindowsDisjoint` states the gap between corrections |
| CorrectionScene.StartFrame | src/FinancialVerification/scenes/Scene5Correction.tsx:102-103 | card `idx` starts at `2 fps + 5 fps * idx` |
| CorrectionScene.EndFrame | src/FinancialVerification/scenes/Scene5Correction.tsx:104-109 | each correction lasts four seconds |
| CorrectionScene.CardEntrance | src/FinancialVerification/scenes/Scene5Correction.tsx:111-116 | a card enters before its correction, 15 frames before at 30 fps |
| CorrectionScene.CorrectionWindowsDisjoint | src/FinancialVerification/scenes/Scene5Correction.tsx:102-109 | the next correction starts one gap after the previous ends; windows of different cards never share a frame |
| CorrectionScene.AtMostOneCorrectionPlaying | src/FinancialVerification/scenes/Scene5Correction.tsx:102-109 | no frame lies in two cards' correction windows |
| CorrectionScene.EntranceAfterPreviousCorrection | src/FinancialVerification/scenes/Scene5Correction.tsx:102-116 | from 2 fps on a card enters only after the previous correction ends; at 1 fps the two coincide |
| CorrectionScene.ScheduleFitsScene | src/FinancialVerification/scenes/Scene5Correction.tsx:102-109 | at 30 fps the corrections play over [60,180], [210,330], [360,480], inside the scene's 600 frames |
| CorrectionScene.CardOf | src/FinancialVerification/scenes/Scene5Correction.tsx:118-119 | the row and column index stay in range; the card shows the company, the label and the two differing figures of both tables |
| CorrectionScene.BorderSuccess | src/FinancialVerification/scenes/Scene5Correction.tsx:136 | the border is green iff progress > 0.8 |
| CorrectionScene.VerifiedSuccess | src/FinancialVerification/scenes/Scene5Correction.tsx:239 | the verified value is green iff progress > 0.7 |
| CorrectionScene.ColourSwitchOrder | src/FinancialVerification/scenes/Scene5Correction.tsx:136-239 | the value (line 239) turns green before the border (line 136); neither at 0, both at 1 |
| Sequencer.Classify | src/FinancialVerification/FinancialVerificationVideo.tsx:25-31 | visible iff within the window, at local frame `f - from` inside the duration; premounted iff in the premount frames before it |
| Sequencer.ContiguousBounds | src/FinancialVerification/FinancialVerificationVideo.tsx:25-76 | every window of a contiguous list lies between its start and its end (induction) |
| Sequencer.ContiguousStep | src/FinancialVerification/FinancialVerificationVideo.tsx:25-76 | each window starts where the previous ends (induction) |
| Sequencer.TilingCovers | src/FinancialVerification/FinancialVerificationVideo.tsx:25-76 | some window is visible at a frame iff the frame lies in [start, end) (induction) |
| Sequencer.TilingDisjoint | src/FinancialVerification/FinancialVerificationVideo.tsx:25-76 | no frame is visible in two windows (induction) |
| Sequencer.PremountInsidePrevious | src/FinancialVerification/FinancialVerificationVideo.tsx:25-76 | a premount no longer than the previous window falls inside the previous window's visible frames |
| Sequencer.RenderedLength | src/Root.tsx:20 | a composition renders no more of a window than its duration |
| Sequencer.RenderedLengthMeaning | src/Root.tsx:20 | local frame `l` is rendered iff `l` is below the rendered length |
| FinancialVideo.LayerOrder | src/FinancialVerification/FinancialVerificationVideo.tsx:22-76 | the background comes first, then scenes 1 to 6 in order |
| FinancialVideo.SceneWindow | src/FinancialVerification/FinancialVerificationVideo.tsx:25-76 | scene `k` is hosted at its timing entry with a premount of 30 |
| FinancialVideo.SceneWindows | src/FinancialVerification/FinancialVerificationVideo.tsx:25-76 | one window per scene, in order |
| FinancialVideo.ScenesTile | src/FinancialVerification/FinancialVerificationVideo.tsx:25-76 | the scene windows tile [0, 2700) |
| FinancialVideo.ActiveScene | src/FinancialVerification/FinancialVerificationVideo.tsx:25-76 | a scene is returned iff the frame lies in [0, 2700); the returned scene is visible and is the only visible one; when none is returned no scene is visible |
| FinancialVideo.ExactlyOneScene | src/FinancialVerification/FinancialVerificationVideo.tsx:25-76 | at every frame of the timeline some scene is visible, no two scenes are visible together, and the visible one plays a local frame inside its duration |
| FinancialVideo.NoSceneOutsideTimeline | src/FinancialVerification/FinancialVerificationVideo.tsx:25-76 | before frame 0 and from frame 2700 on no scene is visible |
| FinancialVideo.PremountsOverlapOnlyPrevious | src/FinancialVerification/FinancialVerificationVideo.tsx:28-73 | each later scene is premounted only while the previous scene is visible |
| FinancialVideo.LastSceneCutShort | src/Root.tsx:20-21 | 2520 registered frames: scenes 1 to 5 are rendered in full, scene 6 only for 120 of its 300 frames; 84 instead of 90 seconds |
| BueroNetzwerk.ScenesTileRegisteredLength | src/RootBueroNetzwerk.tsx:9 | the windows (0,150), (150,210), (360,150), (510,90) of `src/BueroNetzwerk/BueroNetzwerkVideo.tsx:413-430` tile [0, 600), the registered length |
| BueroNetzwerk.PremountsOverlapOnlyPrevious | src/BueroNetzwerk/BueroNetzwerkVideo.tsx:413-428 | every premount is no longer than the previous scene and falls inside it |
| BueroNetzwerk.ExactlyOneScene | src/BueroNetzwerk/BueroNetzwerkVideo.tsx:413-430 | exactly one scene at every registered frame |
| BueroNetzwerk.SampleFrames | src/BueroNetzwerk/BueroNetzwerkVideo.tsx:413-430 | frame 200 shows only the topology scene, at local frame 50; no scene from frame 600 on |
| BueroNetzwerk.InventoryKeysUnique | src/BueroNetzwerk/BueroNetzwerkVideo.tsx:44-52 | row numbers are 1 to 7 in order, so the row keys (`key={item.nr}`, line 317) are unique |
| BueroNetzwerk.RowTrigger | src/BueroNetzwerk/BueroNetzwerkVideo.tsx:308 | no row enters before frame 10 |
| BueroNetzwerk.RowTriggerIncreasing | src/BueroNetzwerk/BueroNetzwerkVideo.tsx:308 | rows enter five frames apart, in order |
| BueroNetzwerk.RowStripe | src/BueroNetzwerk/BueroNetzwerkVideo.tsx:309 | the dark stripe iff the row index is even |
| BueroNetzwerk.StripesAlternate | src/BueroNetzwerk/BueroNetzwerkVideo.tsx:309 | neighbouring rows differ in stripe; rows two apart share it |
| BueroNetzwerk.ProblemCell | src/BueroNetzwerk/BueroNetzwerkVideo.tsx:310-333 | a warning sign and the issue when there is one, a check mark and "OK" otherwise |
| BueroNetzwerk.ProblemCellFlagsIssues | src/BueroNetzwerk/BueroNetzwerkVideo.tsx:310-333 | the cell starts with the warning sign iff the row has an issue |
| BueroNetzwerk.IssueCount | src/BueroNetzwerk/BueroNetzwerkVideo.tsx:44-52 | the number of rows whose `issue` is not null, i.e. the size of the set of their indices; never more than the rows |
| BueroNetzwerk.InventoryIssueRows | src/BueroNetzwerk/BueroNetzwerkVideo.tsx:44-52 | rows 3 to 7 carry an issue and rows 1 and 2 do not |
| BueroNetzwerk.BadgeDisagreesWithTable | src/BueroNetzwerk/BueroNetzwerkVideo.tsx:44-52 | five rows of the inventory carry an issue while the fixed badge of line 343 says four |
| BueroNetzwerk.Lerp | src/BueroNetzwerk/BueroNetzwerkVideo.tsx:184-185 | `x1 + (x2 - x1) * progress`; `LerpBounds` states its endpoints and bounds |
| BueroNetzwerk.LerpBounds | src/BueroNetzwerk/BueroNetzwerkVideo.tsx:184-185 | one endpoint coordinate: the start at progress 0, the end at 1, between them in between |
| BueroNetzwerk.Endpoint | src/BueroNetzwerk/BueroNetzwerkVideo.tsx:183-185 | the drawn end is the start at progress 0 and the end at 1, and stays on the segment |
| BueroNetzwerk.ConnectionsDrawInOrder | src/BueroNetzwerk/BueroNetzwerkVideo.tsx:215-229 | lines start in declaration order, and each finishes its 15-frame draw (line 183) inside the topology scene |

## Left out

- `interpolate`, `spring`, `Easing` and `Math.sin`: library and floating-point code that is not part of this model. Their outputs are parameters, with ranges from their clamp options where there are any. The fade opacities of the table's value, the check-mark opacity and all slide, scale and pulse values are therefore not modelled.
- Floating-point rounding: thresholds such as `cellIndex * (1 / 25)` are exact rationals here. A float rounding at a threshold could flip a strict comparison by one cell for a progress equal to that threshold.
- `Sequence` mounting, `useCurrentFrame` and `useVideoConfig`: library code that is not part of this model. The window semantics above is an assumption, and the frame rate is a parameter.
- Layout, colours as CSS values, SVG paths, particles, fonts (`loadFont`) and the `Img`/`staticFile` asset loading in `src/FinancialVerification/components/DataTable.tsx:105-111`: presentation and I/O. Colours are palette names.
- The scenes and components `Scene1Introduction`, `Scene4Comparison` (beyond the clamped `revealProgress` in [0, 1] it passes), `Scene6Final`, `AnimatedNumber`, `Highlight` and `Background`: each is only animation calls feeding styles.
- The office-network scenes' titles, device nodes and issue cards: static layout.
- DataTable.CorrectedTableShowsReportFigures: no caller in the repository passes `corrections` to the table, so this is a statement about the parameter's contract, not about a rendered scene.
- DataTable.RowFactor: the spring output itself is a parameter; only the non-animated case is fixed at 1.
- BueroNetzwerk.Endpoint: coordinates are reals; the SVG's own rounding is not modelled.
