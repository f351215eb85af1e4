# beratools: line cutting, width statistics, footprint bookkeeping and CRS checks in Dafny

This project models the deterministic rules of the BERA tools
(appliedgrg/beratools) that sit around the heavy raster and geometry work.
It proves properties of the model.

- **Line cutting.** `cut_line_by_length` and `split_line_nPart` cut a
  polyline into pieces of a fixed length. The polyline is modelled by the
  along-line positions of its vertices: a strictly increasing `seq<real>`.
- **Segment numbering.** `split_into_equal_Nth_segments` and
  `chk_df_multipart` explode a table and number its parts with `OLnSEG`
  within each `OLnFID`, ordered by (`OLnFID`, `OLnSEG`).
- **Cost surface.** The per-cell arithmetic of the cost surface: the canopy
  mask, the smoothing normalisation after the distance transform, and the
  blend before `exp`/`power`. A NaN or masked cell is `None`.
- **Printout.** `remove_nan_from_array` and `extract_string_from_printout`.
- **Fixed-width footprints.**
  - the per-line argument lists, with polygons filtered by `BT_GROUP`;
  - the sliding sample triples;
  - the per-triple maximum width;
  - zero filtering with the 5.0 default;
  - the fill by the column mean;
  - the buffer radius;
  - the per-group maximum (`line_footprint_fixed.py`).
- **Absolute canopy footprint.** `FootprintAbsolute` is modelled as a class
  whose `Compute` sets its three result fields:
  - threshold normalisation;
  - the choice of end points;
  - the CRS-string fallback;
  - the one-row footprint.

  Around it: `process_single_line`, the list of line objects, and the
  collection of results (`canopy_footprint_absolute.py`).
- **Arguments and CRS.** The value-normalisation loop of `check_arguments`
  and the decision tree of `compare_crs` (`spatial_common.py`).
- **Seed-line QC.** The MultiLineString records of
  `qc_merge_multilinestring` (both copies) and the fallback of
  `qc_split_lines_at_intersections`.
- **Tool execution.** `result_is_valid` and the loop of
  `execute_multiprocessing` (`tool_base.py`).

The calls into the geometry kernel, the raster libraries and modules
outside this model are inputs or function parameters:

- the perpendicular lines;
- intersections and lengths;
- `linemerge`;
- the spatial-index query;
- percentiles;
- raster shapes;
- the corridor search;
- `IsSameGeogCS`.

Where they can raise, their result is an `Option`.

Modules: `Wrappers` (Option), `Geo` (attribute values, geometries, ASCII
text helpers), `Seqs` (two generic sequence facts), `CutLine`, `SplitNPart`,
`Segments`, `CostSurface`, `Printout`, `Arguments`, `CrsCheck`,
`SeedLineQc`, `ToolBase`, `FixedWidth`, `CanopyFootprint`.

## Model

| member | source | states |
|---|---|---|
| CutLine.CutIndexFrom | beratools/tools/common.py:426-439 | the inner `for` stops at the first vertex whose along-line distance is within 1e-9 of `length` or beyond it, and no earlier vertex passes that test |
| CutLine.CutStep | beratools/tools/common.py:424-439 | one pass cuts a piece from the line's start whose length is within 1e-9 of `length` (exactly `length` when interpolated); the remaining line starts at the piece's last point, ends at the line's end, and is shorter by the piece's length |
| CutLine.StepShrinks | beratools/tools/common.py:423-439 | each pass leaves fewer whole multiples of `length`, or as many and fewer vertices, so the while loop ends |
| CutLine.Pieces | beratools/tools/common.py:423-439 | the outcome of the while loop over a non-empty line leaves a non-empty line |
| CutLine.MergeShortTail | beratools/tools/common.py:445-449 | with two or more pieces and a last piece strictly shorter than the threshold, the count drops by one and the new last piece is the last two joined, the joint vertex repeated; otherwise nothing changes |
| CutLine.CutByLength | beratools/tools/common.py:415-451 | a line no longer than `length` (the empty line included) gives no piece |
| CutLine.PiecesRest | beratools/tools/common.py:423-442 | the line the loop leaves ends at the line's last vertex and is no longer than `length`; it is the whole line when nothing was cut, and has a segment when the last cut was interpolated |
| CutLine.PiecesChain | beratools/tools/common.py:423-439 | the pieces cut in the loop chain from the first vertex to the start of the leftover line, each piece starting at the previous piece's last point, and each has a length within 1e-9 of `length` |
| CutLine.InterpolatedLastPiece | beratools/tools/common.py:435-438 | when the last cut was interpolated, the last piece is exactly `length` long |
| CutLine.MergeKeepsChain | beratools/tools/common.py:445-449 | merging the short tail keeps a chain between the same two positions, and keeps the result non-empty |
| CutLine.CutByLengthChain | beratools/tools/common.py:415-451 | as written, a line longer than `length` gives a non-empty chain from its first vertex that reaches its last vertex only when the last cut was interpolated |
| CutLine.PiecesUnfold | beratools/tools/common.py:423-439 | one pass of the while loop followed by the rest of the loop is the whole loop |
| CutLine.CutOnce | beratools/tools/common.py:424-439 | the body of the while loop (the `for` search with its `break`) computes the snapped or interpolated cut and sets `end_pt` exactly when it interpolated |
| CutLine.LoopStep | beratools/tools/common.py:423-439 | one pass keeps the loop invariant: the pieces so far plus those still to come are the pieces of the whole line |
| CutLine.CutLoop | beratools/tools/common.py:420-439 | the while loop returns the pieces, the leftover line and the `end_pt` state of the whole cut |
| CutLine.MergeLast | beratools/tools/common.py:445-449 | the in-place merge (`lines[-2]` overwritten, last piece popped) is the tail merge |
| CutLine.CutLineByLength | beratools/tools/common.py:371-451 | the method (empty check, loop, `end_pt` append, merge) computes the cut as written |
| CutLine.FiveUnitLineExample | beratools/tools/common.py:390-408 | a 5-unit line cut into 3-unit pieces keeps its 2-unit tail with threshold 1 and with threshold exactly 2 (the test is strict), and merges it into the first piece with threshold 2.5 |
| CutLine.InterpolatedPieces | beratools/tools/common.py:435-438 | a pass whose first vertex beyond `length` lies past it by at least 1e-9 interpolates the cut point at exactly `length` |
| CutLine.InterpolatedStep | beratools/tools/common.py:435-438 | such a pass is the interpolated step with the piece and leftover line stated |
| CutLine.CutIndexSkips | beratools/tools/common.py:426-439 | the search returns the first vertex passing the test, given that none before it does |
| CutLine.SnappedCutLosesTail | beratools/tools/common.py:430-442 | as written, a 6-unit line with a vertex at 3 cut into 3-unit pieces gives only its first half |
| CutLine.SixUnitLinePieces | beratools/tools/common.py:430-434 | that line snaps at its middle vertex and the loop ends with the second half unread and `end_pt` unset |
| CutLine.SnappedPieces | beratools/tools/common.py:430-434 | a pass whose first vertex at or beyond `length` is within 1e-9 of it cuts at that vertex and clears `end_pt` |
| CutLine.CutByLengthIntended | beratools/tools/common.py:441-442 | corrected cut: also gives no piece for a line no longer than `length` |
| CutLine.CutByLengthIntendedCovers | beratools/tools/common.py:441-442 | the corrected cut of a line longer than `length` chains from its first vertex to its last |
| CutLine.SnappedCutKeepsTailIntended | beratools/tools/common.py:441-442 | the corrected cut keeps the second half of the 6-unit line |
| SplitNPart.StepsDrop | beratools/tools/common.py:358 | each value `numpy.arange` produces brings it closer to its end |
| SplitNPart.Arange | beratools/tools/common.py:358 | the split distances start at `seg_length`, are `seg_length` apart and stay below the line length, the next one reaching it; there are none iff the start is not below the end |
| SplitNPart.FirstFrom | beratools/tools/common.py:361-364 | the first vertex at or beyond a position, vertices before it short of it |
| SplitNPart.FirstBeyond | beratools/tools/common.py:361-364 | the first vertex strictly beyond a position, vertices before it not beyond it |
| SplitNPart.SplitPointParts | beratools/tools/common.py:364 | the parts on either side of an inner split point are proper polylines from the line's start and to its end |
| SplitNPart.SplitAt | beratools/tools/common.py:364 | splitting at k inner points gives k + 1 parts |
| SplitNPart.SplitPoints | beratools/tools/common.py:361 | the interpolated split points increase and lie strictly inside the line |
| SplitNPart.SplitLineNPart | beratools/tools/common.py:356-368 | the segmentized line comes back unsplit iff it is no longer than `seg_length` |
| SplitNPart.SplitAtBounds | beratools/tools/common.py:361-364 | part k runs from split point k - 1 (or the start) to split point k (or the end) |
| SplitNPart.SplitAtChains | beratools/tools/common.py:361-364 | the parts chain from the line's first vertex to its last |
| SplitNPart.SplitPointGaps | beratools/tools/common.py:358-361 | the first split point is `seg_length` from the start, consecutive ones are `seg_length` apart, the last is within `seg_length` of the end |
| SplitNPart.SplitAtLengths | beratools/tools/common.py:358-364 | evenly spaced split points give parts of exactly that length but the last, which is no longer |
| SplitNPart.SplitLineNPartParts | beratools/tools/common.py:356-368 | a line longer than `seg_length` is split into one part more than the split distances; the parts cover the line, all but the last are `seg_length` long and the last is no longer |
| Segments.Number | beratools/tools/common.py:342 | numbering keeps every row's source, `OLnFID` and geometry |
| Segments.FidCountPrefix | beratools/tools/common.py:342 | the running count of an `OLnFID` does not decrease along the rows and grows past each row of that `OLnFID` |
| Segments.NumberReaches | beratools/tools/common.py:342 | every count below a group's size is reached by a row of the group |
| Segments.NumberKeys | beratools/tools/common.py:342 | within an `OLnFID`, `OLnSEG` increases in row order and takes exactly the values 0 .. k - 1 |
| Segments.Insert | beratools/tools/common.py:344 | inserting into a key-ordered table keeps it ordered and adds exactly the row |
| Segments.InsertStep | beratools/tools/common.py:344 | an insertion past the head keeps the head first and the order |
| Segments.SortedCons | beratools/tools/common.py:344 | a row no greater than every row of an ordered table can lead it |
| Segments.SortByKey | beratools/tools/common.py:344 | `sort_values(by=["OLnFID", "OLnSEG"])` gives an ordered permutation of the rows |
| Segments.DistinctOnce | beratools/tools/common.py:342-344 | rows with distinct keys occur at most once |
| Segments.TwiceCounted | beratools/tools/common.py:342-344 | a row at two positions occurs twice |
| Segments.PermutationKeepsDistinct | beratools/tools/common.py:344 | reordering keeps the keys distinct |
| Segments.NumberAndSort | beratools/tools/common.py:342-345 | after numbering and sorting, the rows are a permutation of the numbered rows in strictly increasing (`OLnFID`, `OLnSEG`) order |
| Segments.HasKeyPermutation | beratools/tools/common.py:344 | reordering keeps every key |
| Segments.NumberAndSortKeys | beratools/tools/common.py:342-345 | after sorting, the `OLnSEG` values of each `OLnFID` are exactly 0 .. k - 1 |
| Segments.ExplodeCutsRows | beratools/tools/common.py:339-340 | every exploded row comes from an input row with its `OLnFID`, and carries a piece of that row's cut, or a missing geometry exactly when that cut was empty |
| Segments.ExplodeCutsSize | beratools/tools/common.py:339-340 | explode gives one row per piece and one for an empty cut |
| Segments.LengthColumn | beratools/tools/common.py:347-352 | the lengths go to `LENGTH` iff the table has `LENGTH` but not `shape_leng`, otherwise to `shape_leng` |
| Segments.SplitIntoSegments | beratools/tools/common.py:334-353 | each line is cut with `cut_line_by_length(geometry, seg_length)` and its default threshold 0.5; the length column holds each row's piece length, missing for a missing geometry |
| Segments.SplitIntoSegmentsOrdered | beratools/tools/common.py:334-353 | the returned rows are the exploded pieces of those cuts, as many as the cuts give, numbered 0 .. k - 1 within each `OLnFID` and strictly ordered by (`OLnFID`, `OLnSEG`) |
| Segments.Cuts | beratools/tools/common.py:339 | the cut column holds, for every row, the cut of that row's own line with `seg_length` and the default merge threshold 0.5 |
| Segments.RowPieces | beratools/tools/common.py:340 | one input row explodes to one row per piece of its cut, carrying its source and `OLnFID`, or to one row with a missing geometry for an empty cut |
| Segments.ExplodeCuts | beratools/tools/common.py:340 | `explode` of the cut column: the rows of each input row, in row order |
| Segments.FidCountAppend | beratools/tools/common.py:342 | the count of an `OLnFID` over two tables one after the other is the sum of their counts |
| Segments.FidCountNone | beratools/tools/common.py:342 | a table without an `OLnFID` counts it 0 times |
| Segments.FidCountAll | beratools/tools/common.py:342 | a table whose rows all have one `OLnFID` counts it once per row |
| Segments.DistinctFresh | beratools/tools/common.py:322-328 | distinct `OLnFID`s are new row by row |
| Segments.EarlierFidsDiffer | beratools/tools/common.py:340-342 | with distinct `OLnFID`s, no row exploded from earlier input rows has the last row's `OLnFID` |
| Segments.ExplodeCutsCount | beratools/tools/common.py:339-342 | with distinct `OLnFID`s, the `cumcount` of every exploded row is the position of its piece within its own row's cut |
| Segments.EarlierCount | beratools/tools/common.py:340-342 | rows exploded from earlier input rows keep their count when a row is added |
| Segments.LastRowCount | beratools/tools/common.py:340-342 | the m-th row exploded from the last input row is counted m |
| Segments.ExplodeCutsFidCount | beratools/tools/common.py:339-342 | with distinct `OLnFID`s, an input row gives as many exploded rows as its cut has pieces, one for an empty cut |
| Segments.NumberedPiece | beratools/tools/common.py:339-342 | a numbered exploded row carries the piece of its own row's cut that its `OLnSEG` names |
| Segments.SplitIntoSegmentsPieces | beratools/tools/common.py:334-353 | with distinct `OLnFID`s, the row (`OLnFID` f, `OLnSEG` k) of the segment table carries piece k of the cut of the line with `OLnFID` f (the missing geometry, numbered 0, for an empty cut), and every piece of every line appears |
| Segments.Parts | beratools/tools/common.py:458 | explode keeps a single-part geometry as it is |
| Segments.ExplodeRows | beratools/tools/common.py:458 | `explode` of a table whose geometries are all present: each row's parts in row order, each carrying its source row and `OLnFID` |
| Segments.ChkDfMultipart | beratools/tools/common.py:453-468 | a missing geometry (whose type has no `upper`) returns the table unchanged with True; an unchanged table with False is the input |
| Segments.ChkDfMultipartFound | beratools/tools/common.py:453-468 | False comes back exactly when every geometry is present and none has the asked type (case ignored); the table is renumbered and sorted exactly when it has `OLnFID` and the type is found |
| CostSurface.CanopyOf | beratools/tools/common.py:516-520 | a canopy cell is 1.0 iff unmasked with a height at or above the threshold, else 0.0, and keeps its mask |
| CostSurface.CanopyMap | beratools/tools/common.py:516-520 | the map is the cell rule applied to every cell |
| CostSurface.SmoothCell | beratools/tools/common.py:493-496 | a smoothing cell is NaN iff it is masked or the maximum distance is 0 |
| CostSurface.SmoothCellRange | beratools/tools/common.py:494-496 | with a positive maximum distance an unmasked cell's smoothing cost lies in [0, 1]: 1 at distance 0, 0 from the maximum on |
| CostSurface.SmoothCellMonotone | beratools/tools/common.py:494-496 | the smoothing cost does not increase with the distance |
| CostSurface.SmoothCost | beratools/tools/common.py:493-496 | the raster is the cell rule applied to every cell |
| CostSurface.Ratio | beratools/tools/common.py:502-504 | the ratio is NaN iff a statistic is, and 0 where mean + std is 0 |
| CostSurface.Base | beratools/tools/common.py:505-507 | the base term is NaN iff a statistic is, and 0 where mean + std is at most 0 |
| CostSurface.Blend | beratools/tools/common.py:508-509 | a canopy cell is forced to 1; any other cell is NaN iff one of its inputs is |
| CostSurface.RatioRange | beratools/tools/common.py:502-504 | with non-negative statistics the ratio lies in [-1, 1] |
| CostSurface.BlendRange | beratools/tools/common.py:502-509 | with non-negative statistics and smoothing cost and avoidance in [0, 1], the blend lies in [0, 1] |
| CostSurface.CostBlend | beratools/tools/common.py:501-509 | the raster blend is the cell rule applied to every cell |
| CostSurface.CanopyForcesOne | beratools/tools/common.py:501-520 | after the canopy map, a cell at or above the height threshold blends to 1 and a masked cell gets its statistics' blend |
| CostSurface.RemoveNan | beratools/tools/common.py:163-167 | every NaN cell becomes the no-data cost and every other cell is unchanged |
| CostSurface.RemoveNanIdempotent | beratools/tools/common.py:163-167 | replacing NaN cells a second time changes nothing |
| CostSurface.RemoveNanFromArray | beratools/tools/common.py:163-167 | the in-place loop leaves the array equal to the NaN replacement of its old contents |
| Printout.LeadingSpaces | beratools/tools/common.py:178 | the leading whitespace run is maximal |
| Printout.TrailingSpaces | beratools/tools/common.py:178 | the trailing whitespace run is maximal |
| Printout.StripMeaning | beratools/tools/common.py:178 | `strip()` leaves a middle slice that neither starts nor ends with whitespace, everything removed is whitespace, and the result is empty iff the text is all whitespace |
| Printout.StripIdempotent | beratools/tools/common.py:178 | stripping twice is stripping once |
| Printout.Strip | beratools/tools/common.py:178 | `str.strip()`: the text between the leading and the trailing whitespace runs (characterised in StripMeaning) |
| Printout.MatchFrom | beratools/tools/common.py:171-176 | the search settles on the first token containing the key, or 0 when none does |
| Printout.ExtractStringMeaning | beratools/tools/common.py:169-178 | the result is the stripped first token containing the key, the stripped first token when none does, and an error for an empty token list |
| Printout.ExtractString | beratools/tools/common.py:169-178 | the stripped token the search settles on; `None` for no token (characterised in ExtractStringMeaning) |
| Printout.EmptyKeyPicksFirst | beratools/tools/common.py:174 | the empty key selects the first token |
| Printout.ExtractStringFromPrintout | beratools/tools/common.py:169-178 | the enumerate loop with its `break` computes that result |
| Arguments.Normalise | beratools/utility/spatial_common.py:103-106 | a value is rewritten to False or True iff its lower-cased text is "false" or "true", is kept otherwise, and `.lower()` fails on a non-text value |
| Arguments.NormaliseAll | beratools/utility/spatial_common.py:102-106 | the dictionary keeps its keys and every value is normalised, failing iff some value is not text |
| Arguments.NormaliseAllBooleans | beratools/utility/spatial_common.py:102-106 | a normalised dictionary holds booleans and texts that are neither "true" nor "false", so normalising it again fails iff a boolean was made |
| Arguments.VerboseOnlyForTrue | beratools/utility/spatial_common.py:101 | `verbose` is True only for the exact text "True" |
| Arguments.CheckArgumentsLoop | beratools/utility/spatial_common.py:101-108 | the in-place loop over the keys normalises the dictionary and fails on a missing input or a non-text value |
| Arguments.CheckArguments | beratools/utility/spatial_common.py:93-108 | the arguments come back exactly when the input is present and every value is text, with the same keys |
| CrsCheck.CompareCrs | beratools/utility/spatial_common.py:155-191 | as written: True only for a shared geographic system, or for equal readable projection names and equal CRS names |
| CrsCheck.CompareCrsOutcomes | beratools/utility/spatial_common.py:155-191 | a missing reference gives False; a shared geographic system gives True; True otherwise needs equal readable projection names and equal names; equal projection names with different names exit; an unnamed non-compound source never passes |
| CrsCheck.UnnamedSourceRejected | beratools/utility/spatial_common.py:163-166 | a non-compound source named "unnamed" without a shared geographic system gives False |
| CrsCheck.UnnamedDestinationNotRejected | beratools/utility/spatial_common.py:170-173 | as written, a non-compound "unnamed" destination on the source's projection makes the call exit, while the swapped call returns False |
| CrsCheck.CompareCrsIntendedSymmetric | beratools/utility/spatial_common.py:170-173 | corrected, an unnamed non-compound destination is rejected, and the decision is symmetric wherever neither order raises |
| CrsCheck.CompareCrsIntended | beratools/utility/spatial_common.py:155-191 | corrected: True only for a shared geographic system, or for equal readable projection names and equal CRS names, never for a non-compound "unnamed" pair |
| CrsCheck.CompareCrsIntendedAgrees | beratools/utility/spatial_common.py:155-191 | the corrected decision agrees with the written one except for a non-compound destination when exactly one reference is "unnamed" |
| SeedLineQc.PartRecords | beratools/tools/check_seed_line.py:53-57 | one record per part of an unmerged line, each with the row's attributes and the part as geometry |
| SeedLineQc.RowRecords | beratools/tools/check_seed_line.py:43-70 | a row gives only LineString records, each with the row's attributes, and none without a geometry |
| SeedLineQc.QcMerge | beratools/tools/check_seed_line.py:42-78 | the records of all rows, row by row (characterised in QcMergeOnlyLines, QcMergeAttributes and QcMergeKeepsLines) |
| SeedLineQc.QcMergeAppend | beratools/tools/check_seed_line.py:43-70 | the records of two tables one after the other are the records of their concatenation |
| SeedLineQc.RowRecordsCases | beratools/tools/check_seed_line.py:43-70 | a row without geometry or of another type gives nothing; a LineString passes unchanged; a MultiLineString merged into a LineString gives one record with the merged geometry; an unmergeable one gives one record per part; every record keeps the row's attributes and is a LineString |
| SeedLineQc.QcMergeOnlyLines | beratools/tools/check_seed_line.py:72-77 | the output holds only LineString records |
| SeedLineQc.QcMergeAttributes | beratools/tools/check_seed_line.py:43-70 | every output record carries the attributes of some input row |
| SeedLineQc.QcMergeKeepsLines | beratools/tools/check_seed_line.py:68-69 | a table of LineString records passes unchanged |
| SeedLineQc.QcMergeIdempotent | beratools/tools/check_seed_line.py:32-78 | applying the step twice is applying it once |
| SeedLineQc.QcMergeMultilinestring | beratools/tools/check_seed_line.py:42-78 | the row loop appending records computes the step |
| SeedLineQc.AppendRow | beratools/tools/check_seed_line.py:44-70 | one pass appends exactly the row's records |
| SeedLineQc.AppendParts | beratools/tools/check_seed_line.py:53-57 | the part loop appends one record per part |
| SeedLineQc.PartRecordsAppend | beratools/tools/check_seed_line.py:53-57 | one more part gives one more record at the end |
| SeedLineQc.OnlyLines | beratools/tools/common.py:93 | the geometry-type filter keeps only LineString records |
| SeedLineQc.OnlyLinesAppend | beratools/tools/common.py:93 | the filter distributes over concatenation |
| SeedLineQc.OnlyLinesOfLines | beratools/tools/common.py:93 | the filter keeps a table of LineStrings whole |
| SeedLineQc.QcMergeVariantsAgree | beratools/tools/common.py:55-94 | without missing geometries the copy in common.py gives the same records as the one in check_seed_line.py |
| SeedLineQc.QcMergeCommon | beratools/tools/common.py:55-94 | the common.py copy returns only LineString records, and raises on a missing geometry |
| SeedLineQc.QcSplit | beratools/tools/check_seed_line.py:90-99 | the splitter's table when it made one, the input table otherwise |
| ToolBase.ResultIsValidCases | beratools/core/tool_base.py:39-54 | None is invalid; a list or tuple is valid iff non-empty; a table or column iff it has a row and a column; any other value iff truthy |
| ToolBase.ResultIsValid | beratools/core/tool_base.py:39-54 | `result_is_valid`: non-empty lists and tuples, tables with a row and a column, truthy other values (characterised in ResultIsValidCases) |
| ToolBase.Collect | beratools/core/tool_base.py:93-105 | the collected results are all valid and no more than the items |
| ToolBase.CollectMeaning | beratools/core/tool_base.py:93-126 | a run gives None exactly when some item raises, otherwise the valid results in item order, never a partial list |
| ToolBase.ValidResultsAppend | beratools/core/tool_base.py:96-99 | the valid results of two item lists one after the other are those of their concatenation |
| ToolBase.ValidResultsPermutation | beratools/core/tool_base.py:79-121 | items completing in another order give a permutation of the valid results |
| ToolBase.RemoveAt | beratools/core/tool_base.py:79-121 | removing one item removes it once from the multiset |
| ToolBase.ValidResultsAt | beratools/core/tool_base.py:79-121 | the valid results split into those of one item and those of the others |
| ToolBase.RaisesPermutation | beratools/core/tool_base.py:122-124 | whether some item raises does not depend on the completion order |
| ToolBase.ParallelMatchesSequential | beratools/core/tool_base.py:75-124 | the pool modes return None exactly when the sequential mode does, and otherwise a permutation of its results |
| ToolBase.ExecuteMultiprocessing | beratools/core/tool_base.py:62-126 | the loop computes the run of its mode (an unrecognised mode gives `[]`), and `step` goes 1, 2, ..., len(in_data) |
| ToolBase.Execute | beratools/core/tool_base.py:62-126 | every result a run returns is valid (an unrecognised mode returns none) |
| ToolBase.Steps | beratools/core/tool_base.py:95-105 | the progress counts are 1 .. n |
| FixedWidth.InGroup | beratools/tools/line_footprint_fixed.py:72-73 | the polygons kept are exactly those of the line's group, each as often as the table has it (multiset), and no other |
| FixedWidth.InGroupAppend | beratools/tools/line_footprint_fixed.py:72-73 | the group filter keeps the table order: it distributes over concatenation |
| FixedWidth.LineArgsStep | beratools/tools/line_footprint_fixed.py:62-78 | the argument lists of the rows from i on are those of row i followed by those of the later rows |
| FixedWidth.ArgRows | beratools/tools/line_footprint_fixed.py:76 | the row of each argument list, in order |
| FixedWidth.LineArgsMeaning | beratools/tools/line_footprint_fixed.py:62-78 | one argument list per row with a geometry, in row order, each carrying the shared parameters; with a polygon group every candidate polygon is of the line's group, otherwise the candidates are the index query |
| FixedWidth.ArgRowsAppend | beratools/tools/line_footprint_fixed.py:76 | the rows of two argument lists one after the other are those of their concatenation |
| FixedWidth.PrepareLineArgs | beratools/tools/line_footprint_fixed.py:40-80 | the loop over the line table builds those argument lists |
| FixedWidth.EnsureGroups | beratools/tools/line_footprint_fixed.py:292-293 | a missing `BT_GROUP` is 1 .. n in row order; a present one is kept |
| FixedWidth.DefaultGroupsDistinct | beratools/tools/line_footprint_fixed.py:292-293 | the default groups put every row in a group of its own |
| FixedWidth.Triples | beratools/tools/line_footprint_fixed.py:202-203 | the triples are the consecutive windows (p[i], p[i+1], p[i+2]), max(0, n - 2) of them |
| FixedWidth.SamplePoints | beratools/tools/line_footprint_fixed.py:84-105 | the points of a LineString or a Point are its own vertices; for any other geometry the merged-line fallback decides, `None` where it raises |
| FixedWidth.Pieces | beratools/tools/line_footprint_fixed.py:226-238 | the pieces of an intersection contain no collection and no MultiLineString |
| FixedWidth.LinesOf | beratools/tools/line_footprint_fixed.py:231-234 | only the LineStrings of a collection are kept |
| FixedWidth.PartsOf | beratools/tools/line_footprint_fixed.py:235-236 | a MultiLineString contributes each of its parts |
| FixedWidth.MaxLengthMeaning | beratools/tools/line_footprint_fixed.py:245-246 | the running `max` is the largest of its start value and the piece lengths, and is one of them |
| FixedWidth.WidthAtMeaning | beratools/tools/line_footprint_fixed.py:203-246 | a width is the largest of 0 and its pieces' lengths, one of them or 0, and 0 where the perpendicular or the intersection failed |
| FixedWidth.FlattenStep | beratools/tools/line_footprint_fixed.py:240 | `perp_lines += line_list` adds the triple's pieces at the end |
| FixedWidth.CalculateWidths | beratools/tools/line_footprint_fixed.py:203-246 | `widths` has one cell per triple holding its width, `perp_lines` every piece in triple order and `perp_lines_original` each triple's perpendicular (None where it failed) |
| FixedWidth.TripleStep | beratools/tools/line_footprint_fixed.py:211-246 | one pass computes the triple's width, its pieces and its perpendicular |
| FixedWidth.RaiseToPieces | beratools/tools/line_footprint_fixed.py:245-246 | the loop over the pieces computes the running `max` |
| FixedWidth.NonZero | beratools/tools/line_footprint_fixed.py:126-127 | no zero is kept and every non-zero width is kept as often as it occurs (multiset); none is kept iff all are zero |
| FixedWidth.NonZeroStep | beratools/tools/line_footprint_fixed.py:126-127 | the filter of a width list is its head, when not zero, before the filter of its tail |
| FixedWidth.NonZeroAppend | beratools/tools/line_footprint_fixed.py:126-127 | the zero filter keeps the order of the widths: it distributes over concatenation |
| FixedWidth.QuantileWidths | beratools/tools/line_footprint_fixed.py:129-137 | each of the two widths is 5.0 or the percentile numpy gives for the non-zero widths (the asked one, then the 90th) |
| FixedWidth.QuantileWidthsDefault | beratools/tools/line_footprint_fixed.py:126-137 | all-zero widths give 5.0 for both widths; otherwise the percentile sees the non-zero widths |
| FixedWidth.Widths | beratools/tools/line_footprint_fixed.py:203-246 | one width per triple, the triple's width |
| FixedWidth.Intersections | beratools/tools/line_footprint_fixed.py:219-224 | the intersections are taken with the line's own candidate polygons: each is one of them intersected with the perpendicular, and a line without candidates has none; a query or position that fails gives none at that triple |
| FixedWidth.Perps | beratools/tools/line_footprint_fixed.py:210-217 | `perp_lines_original` holds each triple's perpendicular, `None` where it failed |
| FixedWidth.ProcessSingleLine | beratools/tools/line_footprint_fixed.py:108-150 | no row for a line without geometry; a row that comes back keeps the line's attributes and group, has both widths and a geometry, and holds only LineString parts with coordinates in both perpendicular columns |
| FixedWidth.FlattenHas | beratools/tools/line_footprint_fixed.py:240 | a piece found at one triple is among all the pieces |
| FixedWidth.FlattenNone | beratools/tools/line_footprint_fixed.py:240 | no piece at any triple means no piece at all |
| FixedWidth.BadPartDropsLine | beratools/tools/line_footprint_fixed.py:256-261 | a failed perpendicular, or a piece that is not a LineString (a Point), makes a `MultiLineString` of the return raise, so the line gets no row |
| FixedWidth.NoCandidatesDefaultWidths | beratools/tools/line_footprint_fixed.py:108-137 | a line with no candidate polygon finds no piece, and when it gets a row both widths are 5.0 |
| FixedWidth.ShortLineDefaultWidths | beratools/tools/line_footprint_fixed.py:117-141 | a line with fewer than three sample points gets a row, with 5.0 for both widths |
| FixedWidth.ScaleIsProduct | beratools/tools/line_footprint_fixed.py:168-169 | adding up n copies is multiplying by n |
| FixedWidth.Mean | beratools/tools/line_footprint_fixed.py:168-169 | pandas `mean()`: NaN cells skipped, NaN when none is left (its bounds in MeanBounds) |
| FixedWidth.SumBounds | beratools/tools/line_footprint_fixed.py:168-169 | the sum of the non-NaN cells lies between count times a lower and count times an upper bound |
| FixedWidth.MeanBounds | beratools/tools/line_footprint_fixed.py:168-169 | the NaN-skipping mean lies between any bounds of the non-NaN cells |
| FixedWidth.Filled | beratools/tools/line_footprint_fixed.py:172-176 | each cell is replaced by the mean iff it is NaN or 0.0 |
| FixedWidth.FilledMeaning | beratools/tools/line_footprint_fixed.py:168-176 | after the fill every cell is the mean or a non-zero width it had, and with a non-zero mean no cell is NaN or zero |
| FixedWidth.FillColumn | beratools/tools/line_footprint_fixed.py:168-176 | the in-place `.loc` assignments leave the column filled with the mean taken before them |
| FixedWidth.BufferRadius | beratools/tools/line_footprint_fixed.py:178-189 | half the quantile width, or 1.2 times the upper width halved; no buffer without geometry |
| FixedWidth.MaxOfGroupMeaning | beratools/tools/line_footprint_fixed.py:387-389 | a group maximum bounds every non-NaN cell of the group and is one of them |
| FixedWidth.GroupMax | beratools/tools/line_footprint_fixed.py:387-396 | every row gets the maximum of its group |
| FixedWidth.GroupMaxMeaning | beratools/tools/line_footprint_fixed.py:386-399 | rows of one group agree, no width decreases, and each new width is one of the group's widths |
| FixedWidth.Groups | beratools/tools/line_footprint_fixed.py:388 | the `BT_GROUP` of every row |
| FixedWidth.ApplyGroupMax | beratools/tools/line_footprint_fixed.py:386-399 | one row out per row in |
| FixedWidth.ApplyGroupMaxMeaning | beratools/tools/line_footprint_fixed.py:386-399 | only the two width columns change, each to its group maximum |
| CanopyFootprint.NormaliseThreshold | beratools/tools/canopy_footprint_absolute.py:64-73 | a number below 0 becomes 3.0 and any other is kept; a boolean becomes 1.0 or 0.0; an unparsable text becomes 3.0; None stays None; a normalised number is never negative |
| CanopyFootprint.SegmentList | beratools/tools/canopy_footprint_absolute.py:75-78 | the copy loop gives a point's vertex or a line's vertices in order, and fails for other geometries |
| CanopyFootprint.Endpoints | beratools/tools/canopy_footprint_absolute.py:75-82 | source and destination are the first and last vertex, failing for an empty line or a geometry without coordinates |
| CanopyFootprint.CrsString | beratools/tools/canopy_footprint_absolute.py:127-141 | the line's CRS text when it starts with "EPSG", "EPSG:4326" otherwise |
| CanopyFootprint.RequestOf | beratools/tools/canopy_footprint_absolute.py:76-107 | a request exists iff the line table has a geometry with end points |
| CanopyFootprint.RunMeaning | beratools/tools/canopy_footprint_absolute.py:56-158 | on a fresh object: without end points or shapes nothing is set; otherwise the footprint has exactly one row, the multipolygon of the shapes, with the CRS iff `set_crs` accepts it; corridor and centreline are set together exactly when nothing raised |
| CanopyFootprint.Run | beratools/tools/canopy_footprint_absolute.py:56-158 | a `compute` that does not raise sets all three fields; one that raises leaves corridor and centreline as they were |
| CanopyFootprint.RequestEndpoints | beratools/tools/canopy_footprint_absolute.py:64-107 | the request's source and destination are the line's first and last vertex, and its threshold is the normalised, non-negative one |
| CanopyFootprint.FootprintAbsolute.constructor | beratools/tools/canopy_footprint_absolute.py:38-54 | the inputs are kept and all three result fields start as None |
| CanopyFootprint.FootprintAbsolute.Compute | beratools/tools/canopy_footprint_absolute.py:56-158 | the fields end as the pipeline sets them from their old values, a raise leaving the later fields as they were |
| CanopyFootprint.ProcessSingleLine | beratools/tools/canopy_footprint_absolute.py:161-168 | the object itself is returned whether or not `compute` raised, with its fields as computed |
| CanopyFootprint.GenerateLineClassList | beratools/tools/canopy_footprint_absolute.py:171-185 | one fresh object per line, in order, with the shared inputs and no results |
| CanopyFootprint.KeptAppend | beratools/tools/canopy_footprint_absolute.py:220-225 | the kept values of two lists one after the other are those of their concatenation |
| CanopyFootprint.KeptMeaning | beratools/tools/canopy_footprint_absolute.py:220-225 | exactly the present values are kept; none is kept iff none is present |
| CanopyFootprint.FootprintsOf | beratools/tools/canopy_footprint_absolute.py:222 | the footprint field of each result, in order |
| CanopyFootprint.CorridorsOf | beratools/tools/canopy_footprint_absolute.py:224 | the corridor field of each result, in order |
| CanopyFootprint.CollectResults | beratools/tools/canopy_footprint_absolute.py:220-225 | the footprints and corridors that are set, in result order, and nothing for a missing or empty result list |
| CanopyFootprint.Written | beratools/tools/canopy_footprint_absolute.py:227-232 | nothing is written iff there is no footprint; otherwise the rows of all footprints in order |
| CanopyFootprint.WrittenOneRowEach | beratools/tools/canopy_footprint_absolute.py:227-230 | with one row per footprint, row i written is footprint i's multipolygon |

## Left out

- Geometry kernel: `segmentize`, `project`, `interpolate`, `split`, `intersection`, `simplify`, `buffer`, `linemerge` and `custom_line_merge` are not modelled. Their results are inputs or function parameters. Lines are one-dimensional along-line positions, so Euclidean lengths and `sqrt` never arise.
- Z coordinates are dropped by `cut_line_by_length` before cutting; that step is not modelled.
- CutLine.CutByLength: requires `length >= 1e-9`, which drops an error path of the source. For `length <= 0`, `shapely.segmentize` raises. For `0 < length < 1e-9`, the first vertex passes the `1e-9` test and the one-vertex `LineString(coords[:1])` raises on the first pass.
- Segments.SplitIntoSegments: requires proper lines and `seg_length >= 1e-9`. The raise of `cut_line_by_length` for a shorter length, and the raise for a row without geometry, propagate out of `apply`; neither is modelled. The lines are given after `segmentize`.
- Segments.SplitIntoSegmentsPieces: assumes distinct `OLnFID`s, which `split_line_fc` gives by numbering rows with their index; with shared `OLnFID`s the count runs over the rows of all lines that share it, as `NumberKeys` states.
- Raster work is not modelled: `clip_raster`, `cost_raster`, `corridor_raster`, `morph_raster`, `rasterio.features.shapes`, `rowcol`, the distance transform, focal statistics, and `exp`/`power` in `dyn_np_cost_raster`. The distance transform is an input of `SmoothCost`; the corridor pipeline is the `Kernel` parameter of `CanopyFootprint`.
- File and console I/O are not modelled: `read_file`, `to_file`, `vector_crs`, `raster_crs`, `print`, `tqdm` and the progress printer. `Steps` records the values handed to the printer.
- The process pools of `execute_multiprocessing` are not modelled. The order in which items complete is an input. Only that order and a raise are visible to the result.
- `argparse`, `shlex.split` and `json.loads` are not modelled. `check_arguments` receives the decoded dictionary; `extract_string_from_printout` receives the tokens.
- Arguments.Normalise: covers values that are null, booleans, numbers or texts; list and dictionary values, whose `.lower()` also raises, are the same non-text case.
- Geo.Lower and Geo.Upper: map ASCII letters only; Python's full Unicode case mapping is not modelled.
- `OLnFID`, `BT_GROUP`, `BT_NODATA_COST` and the default `PARALLEL_MODE` come from beratools/core/constants.py, which is not part of this model. The no-data cost is a parameter.
- FixedWidth.SamplePoints: the fallback of `generate_sample_points` for a geometry without `coords` (`linemerge`, then the flattened coordinates) is a function parameter. That branch appears to raise at `Point(float)` for a line merged into a LineString. This is not claimed as a finding: the outcome depends on shapely.
- FixedWidth.ProcessSingleLine: numpy percentile, the simplification, the perpendicular, the spatial-index query and the intersection are parameters. The raises it models are these: the perpendicular (kept as `None`), the query or a position outside the candidates (no pieces at that triple), reading the sample points, and the two `MultiLineString` constructors of the return. An intersection that raises on its own is not modelled. The perpendicular columns are kept as lists of parts, not as the MultiLineStrings they become.
- FixedWidth.GroupMax: the inner merge on `BT_GROUP` is modelled as keeping the row order of `line_attr`.
- CanopyFootprint.Run: the GeoDataFrame label `geometry[0]` is read as the first row.
- CanopyFootprint.CrsString: the CRS's `to_string()` or `str()` is given as text.
- The `poly` repair at canopy_footprint_absolute.py:136-137 is not modelled: `poly` is always a MultiPolygon, so that branch is never taken.
- CrsCheck: `IsSameGeogCS` is a relation the caller supplies. The normalised reference is the record of the fields the decision reads, and a missing coordinate operation is an outcome that raises.
- Not modelled because they are orchestration of code that is not part of this model: vertex_optimization.py, tool_template.py, `line_split2`, `identity_polygon`, `generate_line_args_DFP_NoClip`, and the `LineGrouping`, `LineSplitter` and `VertexGrouping` classes.
- Floating point is modelled as exact reals. NaN is `None`, and rounding is not modelled.

## Findings

| source | as written | input that shows it | evidently intended | confidence | as-written member | corrected member |
|---|---|---|---|---|---|---|
| beratools/tools/common.py:441-442 | the leftover line is appended only when the last cut was interpolated (`end_pt` set) | a line with vertices at 0, 3 and 6, cut with length 3: the cut snaps to the vertex at 3 and gives only [0, 3] | the leftover line is kept whenever it still has a segment, so the pieces cover the whole line | not executed | CutLine.SnappedCutLosesTail | CutLine.CutByLengthIntendedCovers, CutLine.SnappedCutKeepsTailIntended |
| beratools/utility/spatial_common.py:172 | the destination branch tests `crs_org_norm.name == "unnamed"` | source "NAD83 / UTM zone 10N" and a non-compound destination "unnamed" on the same projection: the call exits, while swapped it returns False | the destination branch tests the destination's own name, `crs_dst_norm.name` | not executed | CrsCheck.UnnamedDestinationNotRejected | CrsCheck.CompareCrsIntendedSymmetric |
