# Bronchiolitis pipeline rules, modelled in Dafny

The pipeline maps bronchiolitis cases in Puerto Madryn. It cleans the hospital's
medical records and address table, locates every case and counts cases per census
unit. It bins the units by unmet basic needs (NBI), labels the LISA clusters of
the case rates and colours the maps. These steps produce a PDF report. This project models the
small rules inside that glue code and proves what they compute:

- the LISA cluster labels (`(p_sim <= .05) * q` looked up in a vocabulary or in a
  `str(q)`-keyed dictionary) and the stricter `p < 0.05` spots of the hot/cold map;
- the three palette procedures: the pop-from-the-end walk of
  `get_colors_for_labels`, the value-based removal of `get_colors` (also inside
  `plot_lisa_map`), and the index-based removal of the cluster map's `__get_colors`;
- the table steps: readmission flags (a first-occurrence scan), address
  de-duplication, the twelve fixed address corrections, inner and left merges,
  NBI binning, per-unit point counting and the case rate;
- the `Report` object, which grows its HTML content section by section.

A Python dict is a sequence of (key, value) pairs in insertion order, so key order
is explicit. A DataFrame is a sequence of records, or a list of named columns
where column names matter. An exception is the `Err` case of a `Result`.

| module | models |
|---|---|
| `PyBase` | dict, list and `Counter` semantics, `str(int)` and `int(str)`, the exceptions |
| `Sorting` | `sort_values`, as a stable insertion sort on a numeric key |
| `Frames` | column assignment, the cast to text, projection and rename on a column-based frame |
| `Merge` | `pandas.merge`, inner and left, on one key column |
| `SpatialUtils` | src/bronchiolitis_package/spatial_utils.py, and the copy `__get_colors_for_labels` in tasks/spatial.py |
| `Spatial` | src/bronchiolitis_package/spatial.py; the palette of `plot_lisa_map` is the same code as `get_colors` and is modelled by `Cluster.GetColors` |
| `Cluster` | `get_colors` of tasks/cluster.py |
| `ClusterMap` | `__get_colors` of tasks/clustermap.py |
| `TasksSpatial` | the labelling and projection of `get_moranplot` and `get_moranplot_bv` in tasks/spatial.py |
| `SpatialVis` | tasks/spatial_vis.py |
| `NbiMap` | tasks/nbi_map.py |
| `Get` | tasks/get.py |
| `Raw` | tasks/raw.py |
| `Cases` | tasks/cases.py |
| `Report` | src/bronchiolitis_package/report.py |

In these places the model follows the code, not what one might expect:

- A zero population gives an infinite or NaN rate, not an error.
- An unexpected quadrant is not rejected: it is read with Python's list indexing,
  which wraps negative indices, or it raises `KeyError` in a dictionary.
- `get_hc` in tasks/raw.py flags readmissions before sorting by admission.
  So the flag follows the spreadsheet order, while `get_bronchiolitis_locations`
  flags after sorting (`Raw.SheetOrderFlagsEarlier`, `Raw.DateOrderFlagsLater`).

## Model

| member | source | states |
|---|---|---|
| SpatialUtils.PresentKeys | src/bronchiolitis_package/spatial_utils.py:9-16 | a key is kept exactly when it is a key of the colour dictionary and occurs among the labels, never more of them than there are keys |
| SpatialUtils.PopStep | src/bronchiolitis_package/spatial_utils.py:13-16 | popping the key at the end of the remaining key list appends it, when it occurs among the labels, after the present keys popped before it |
| SpatialUtils.ValuesOf | src/bronchiolitis_package/spatial_utils.py:18 | the final comprehension reads one colour per collected key, in order |
| SpatialUtils.ColorsForLabels | src/bronchiolitis_package/spatial_utils.py:9-18 | one colour per present key, and the i-th colour is the colour of the i-th present key counted from the end of the key order |
| SpatialUtils.GetColorsForLabels | src/bronchiolitis_package/spatial_utils.py:3-18 | the pop-from-the-end loop returns exactly the reversed present-key colours; its invariant is that the collected labels are the present keys among those popped so far, in pop order |
| SpatialUtils.NoLabelsNoColors | src/bronchiolitis_package/spatial_utils.py:12-18 | no labels give no colours |
| SpatialUtils.ColorsComeFromPresentKeys | src/bronchiolitis_package/spatial_utils.py:13-18 | every colour is the value of a key that occurs among the labels |
| SpatialUtils.PresentKeysDistinct | src/bronchiolitis_package/spatial_utils.py:10-16 | with distinct keys, each present key is collected once |
| SpatialUtils.ColorCountIsPresentKeyCount | src/bronchiolitis_package/spatial_utils.py:9-18 | the number of colours is the number of distinct keys that occur at least once among the labels |
| SpatialUtils.ColorsDependOnLabelSetOnly | src/bronchiolitis_package/spatial_utils.py:9-15 | the colours depend only on which labels occur, not on their order or multiplicity |
| SpatialUtils.UnknownLabelIgnored | src/bronchiolitis_package/spatial_utils.py:9-15 | a label that is not a key changes nothing and raises nothing |
| Cluster.KeptLabels | tasks/cluster.py:45-54 | Donut survives exactly when a Donut label occurs, Diamond likewise; Not significant, Hot spot and Cold spot always survive; 3 to 5 distinct names of the vocabulary |
| Cluster.KeptLabelsCases | tasks/cluster.py:46-54 | the four possible survivor lists, in vocabulary order |
| Cluster.TractsPalette | tasks/cluster.py:57 | the keys are the survivors and the k-th survivor gets the k-th fill colour of the unchanged list |
| Cluster.EdgePalette | tasks/cluster.py:22-26 | all five names with their edge colours, whatever the labels |
| Cluster.DonutColorIndex | tasks/cluster.py:37-43 | the Donut colour sits at index 2 of the colour list |
| Cluster.DiamondColorIndex | tasks/cluster.py:37-43 | the Diamond colour sits at index 4 of the colour list |
| Cluster.DiamondColorIndexWithoutDonut | tasks/cluster.py:48 | after the Donut colour is popped the Diamond colour sits at index 3 |
| Cluster.PopDonutLabel | tasks/cluster.py:49 | popping 'Donut' from the vocabulary copy removes its third name |
| Cluster.PopDonutColor | tasks/cluster.py:48 | popping the Donut colour removes the third colour |
| Cluster.PopDiamondLabel | tasks/cluster.py:54 | popping 'Diamond' removes the last name, with or without Donut |
| Cluster.PopDiamondColor | tasks/cluster.py:53 | popping the Diamond colour removes the last colour, with or without the Donut colour |
| Cluster.GetColors | tasks/cluster.py:20-59 | the pops and the two comprehensions produce exactly the fill palette of the survivors and the full edge palette |
| Cluster.FixedHeadColors | tasks/cluster.py:46-57 | 'Not significant' is always light grey and 'Hot spot' always red |
| Cluster.DroppedDonutShiftsColors | tasks/cluster.py:46-57 | without Donut, Cold spot takes 'cornflowerblue' and a present Diamond takes 'blue' |
| Cluster.AllPresentNoShift | tasks/cluster.py:46-57 | with Donut and Diamond present the palette is the vocabulary zipped with the fill colours |
| Cluster.DependsOnDonutAndDiamondOnly | tasks/cluster.py:27-54 | only whether Donut and Diamond occur decides the palette |
| ClusterMap.Succeeds | tasks/clustermap.py:41-53 | no IndexError exactly when the third name can be read, the name at the second index can be read, and that index is still inside the copy when it has to be popped |
| ClusterMap.Survivors | tasks/clustermap.py:41-53 | the copy loses one name per removed colour, keeps its first two names, and holds only vocabulary names |
| ClusterMap.SurvivorsByPops | tasks/clustermap.py:41-53 | the survivors are what the two index pops leave of the vocabulary copy |
| ClusterMap.GetColors | tasks/clustermap.py:16-58 | IndexError exactly when the vocabulary is too short for the reads and pops; otherwise the survivors zipped with the fill colours, and every vocabulary name zipped with the edge colours |
| ClusterMap.ShortVocabularyFails | tasks/clustermap.py:43-53 | a vocabulary of four names succeeds only when its third name is absent and its fourth present; shorter ones always fail |
| ClusterMap.AgreesWithClusterWhenDonutPresent | tasks/clustermap.py:41-56 | with the canonical vocabulary and a Donut label, both palettes equal those of tasks/cluster.py |
| ClusterMap.SurvivorsWithDonut | tasks/clustermap.py:41-53 | with the canonical vocabulary and a Donut label the survivors are the kept names of tasks/cluster.py |
| ClusterMap.DiamondFollowsColdSpotWithoutDonut | tasks/clustermap.py:49-53 | without Donut the second test reads 'Cold spot' from the unpopped vocabulary, so Diamond survives exactly when Cold spot occurs |
| ClusterMap.DiamondDroppedDespitePresence | tasks/clustermap.py:49-53 | a Diamond label without Donut and Cold spot labels loses its colour here but keeps it in tasks/cluster.py |
| ClusterMap.DiamondKeptDespiteAbsence | tasks/clustermap.py:49-53 | without Donut and Diamond but with Cold spot, Diamond keeps a colour here that tasks/cluster.py drops |
| ClusterMap.EdgePaletteIsZip | tasks/clustermap.py:19-21 | with distinct names the edge palette pairs the first five names positionally with the edge colours |
| Spatial.Quadfilter | src/bronchiolitis_package/spatial.py:103-104 | the quadrant of a unit whose p-value is at most 0.05, bound included, and 0 for any other unit |
| Spatial.LisaMapLabels | src/bronchiolitis_package/spatial.py:105-111 | one label per unit, in unit order, read with Python indexing; IndexError exactly when some filtered quadrant is outside -5 .. 4 |
| Spatial.LisaMapLabelsOfQuadrants | src/bronchiolitis_package/spatial.py:103-111 | for quadrants 0 .. 4, a significant unit is labelled by its quadrant and any other unit 'Not significant' |
| Spatial.NegativeQuadrantWraps | src/bronchiolitis_package/spatial.py:111 | a significant quadrant of -1 is not rejected and reads as 'Diamond' |
| Spatial.PlotLisaMapPalettes | src/bronchiolitis_package/spatial.py:103-142 | an IndexError in the labels stops everything; otherwise the palettes are those of tasks/cluster.py for those labels |
| Spatial.DonutLabelIffSignificantQuadrantTwo | src/bronchiolitis_package/spatial.py:103-111 | a 'Donut' label occurs exactly when some unit in quadrant 2 is significant |
| Spatial.DonutColoredIffSignificantQuadrantTwo | src/bronchiolitis_package/spatial.py:131-142 | the fill palette keeps Donut exactly when some unit in quadrant 2 is significant |
| Spatial.DonutOnlyAtTwo | src/bronchiolitis_package/spatial.py:105-111 | among quadrants 0 .. 4 only quadrant 2 reads as 'Donut' |
| Spatial.Spot | src/bronchiolitis_package/spatial.py:198-203 | the quadrant of a unit with p-value strictly below 0.05 and quadrant 1 .. 4, and 0 otherwise |
| Spatial.HotColdLabels | src/bronchiolitis_package/spatial.py:205-206 | one label per unit, always defined, read at the spot of that unit |
| Spatial.BoundaryDisagreement | src/bronchiolitis_package/spatial.py:198-206 | a p-value of exactly 0.05 is significant on the cluster map and not on this map; a quadrant of 5 fails there and not here |
| Spatial.HotColdAgreesOffBoundary | src/bronchiolitis_package/spatial.py:198-203 | off the 0.05 boundary and for quadrants 0 .. 4, both maps put a unit in the same category |
| Spatial.SignificanceLabels | src/bronchiolitis_package/spatial.py:259-262 | one label per unit; 'significant' exactly when the p-value is strictly below 0.05 |
| Spatial.QuadrantLabels | src/bronchiolitis_package/spatial.py:293-294 | one name per unit read at `q - 1` with Python indexing; IndexError exactly when a quadrant is outside -3 .. 4 |
| Spatial.QuadrantNamesOf | src/bronchiolitis_package/spatial.py:293-294 | quadrants 1 .. 4 are named Q1 .. Q4, and a quadrant of 0 wraps to Q4 |
| Spatial.StrategyArgs | src/bronchiolitis_package/spatial.py:50-54 | `k_neighbours` for 'knn', `band_distance` for 'distance_band', None for any other strategy |
| Spatial.MoranChoice | src/bronchiolitis_package/spatial.py:60-67 | the rate statistic when asked for, else the bivariate one, else the plain one; a missing column for the chosen statistic fails the assertion |
| Spatial.RateTakesPrecedence | src/bronchiolitis_package/spatial.py:60-65 | the rate statistic is used whatever the bivariate flags say |
| Spatial.GetSpatials | src/bronchiolitis_package/spatial.py:43-77 | an unknown strategy raises KeyError and leaves the weights untouched; a known one row-standardises them, and the local statistic is absent exactly when the weights have islands |
| TasksSpatial.QuadfilterLabels | tasks/spatial.py:131-133 | one label per unit, looked up under `str(quadfilter)`; a missing key raises KeyError for the first unit whose key is missing, every unit before it having a known key, and no label is produced |
| TasksSpatial.UnknownShifts | tasks/spatial.py:132-133 | behind a unit with a known key, the first unknown key of the rest is the first unknown key of the whole list |
| TasksSpatial.KeyOfUnit | tasks/spatial.py:131-132 | a unit with p-value at most 0.05, bound included, is looked up by its quadrant and any other unit under "0" |
| TasksSpatial.ClusterLabelsTable | tasks/spatial.py:128-147 | the saved table has exactly `toponimo_i`, `label`, `geometry` in that order, with the computed labels and the other two columns unchanged; the colours are those of the present keys, last key first; the errors are KeyError, ValueError for a length mismatch, and KeyError for a missing column |
| SpatialVis.MoranplotColors | tasks/spatial_vis.py:41-45 | the Moran-plot colours are exactly those of `get_colors_for_labels` for the units' labels, and a missing dictionary key raises the labelling's KeyError |
| SpatialVis.CreateBaseClustermap | tasks/spatial_vis.py:141-149 | the caller's frame gains the `label` column in place (or is left as it was on an error), and the returned table is its projection to `toponimo_i`, `label`, `geometry` |
| SpatialVis.ClustermapTableShape | tasks/spatial_vis.py:147-149 | with one label per row and both other columns present, the projection has exactly the three columns, carries the labels and keeps the other two columns |
| SpatialVis.PointGroups | tasks/spatial_vis.py:175-201 | two titled groups when differentiating, else all points as the one group 'Cases' |
| SpatialVis.PointGroupsPartition | tasks/spatial_vis.py:175-179 | admissions have the flag false, readmissions true, and together they are the input points with their multiplicities |
| SpatialVis.LegendMarks | tasks/spatial_vis.py:265-274 | the map marks come first, then the point marks; there are no point marks unless locations are painted |
| NbiMap.NbiCluster | tasks/nbi_map.py:31-39 | a unit gets no category exactly when its nbi is 5 |
| NbiMap.BinBounds | tasks/nbi_map.py:31-39 | "+ 25%" exactly above 25, "15 - 24,99%" exactly in (15, 25], "5 - 14,99%" exactly in (5, 15], "0 - 4,99%" exactly below 5 |
| NbiMap.DocstringExamples | tasks/nbi_map.py:23-26 | 3.29, 8.23 and 6.51 fall in the bins the docstring shows |
| NbiMap.MaskedAssign | tasks/nbi_map.py:36 | a masked write gives the value to the rows whose nbi satisfies the mask and leaves every other row as it was |
| NbiMap.GetNbiClusters | tasks/nbi_map.py:31-39 | after the four writes in source order every row carries its reference bin, so no row is written twice with different values and a row at exactly 5 keeps no category |
| NbiMap.Groups | tasks/nbi_map.py:60 | the groups are the categories that occur, each once, and rows without a category form no group |
| NbiMap.ClusterPalette | tasks/nbi_map.py:52-54 | the palette's keys are the four categories in the fixed order |
| NbiMap.PaletteAt | tasks/nbi_map.py:52-54 | the j-th category has the j-th colour |
| NbiMap.ZeroCounts | tasks/nbi_map.py:58 | every category starts with a count of 0 |
| NbiMap.CountCategories | tasks/nbi_map.py:58-73 | KeyError for a category outside the palette; otherwise all four categories, each with the number of its rows |
| NbiMap.PutCount | tasks/nbi_map.py:73 | one turn of the count loop sets the group's count and keeps the others |
| NbiMap.AllCounted | tasks/nbi_map.py:60-73 | after the last group every category holds its group size, and every category that occurs is in the palette |
| NbiMap.GroupsInPalette | tasks/nbi_map.py:60-62 | when every group is a palette key, every category that occurs is one of the four |
| NbiMap.CountedOrAbsent | tasks/nbi_map.py:58-73 | a category holds its number of rows whether it was a group or kept its initial 0 |
| NbiMap.MarkFromCounts | tasks/nbi_map.py:77-81 | the mark built from the palette and the counts is the colour and the labelled count of that category |
| NbiMap.LegendMarks | tasks/nbi_map.py:76-82 | one mark per category, in the fixed order, with its colour and count |
| NbiMap.NbiLegend | tasks/nbi_map.py:52-82 | the legend has four entries in the fixed order, coloured from the palette and labelled with each category's row count; KeyError for a category outside the palette |
| NbiMap.AbsentCategoryCountsZero | tasks/nbi_map.py:58-82 | a category with no row still gets its entry, with count 0 |
| Frames.Assign | tasks/spatial.py:136 | ValueError exactly when the list length differs from the row count; otherwise the column holds the list, a new name goes to the end, an existing one keeps its place, and every other column keeps its cells |
| Frames.Frame.SetColumn | tasks/spatial_vis.py:147 | the frame holds the assigned table, or is left as it was when the length does not match |
| Frames.Select | tasks/spatial.py:138-141 | KeyError naming a missing column exactly when some name is not a column; otherwise the named columns with their cells, in the order asked for |
| Frames.SelectTwo | tasks/get.py:186-187 | a two-name projection succeeds exactly when both are columns and gives them in that order |
| Frames.SelectThree | tasks/spatial.py:138-141 | a three-name projection succeeds exactly when the three are columns and gives them in that order; otherwise KeyError names the first missing one |
| Frames.Rename | tasks/get.py:184 | every column called `from` is called `to`; cells, order and every other name are kept (the same rename is tasks/raw.py:77) |
| Frames.RenameNames | tasks/get.py:184 | after the rename, `from` is gone and `to` is there exactly when `from` was |
| Frames.RenameDistinct | tasks/get.py:184 | renaming to a fresh name keeps the column names distinct |
| Frames.RenameFacts | tasks/get.py:184 | with distinct names and a fresh `to`, `to` holds the cells of `from` and every other column keeps its cells (also for the rename of tasks/raw.py:77) |
| Frames.AsString | tasks/get.py:183 | `astype('string')` on a cell gives text, missing or an untouched geometry; text is kept, an integer becomes its decimal text, and a cell is missing after exactly when it was before |
| Frames.AsStringIdempotent | tasks/get.py:183 | casting a cast cell again changes nothing |
| Frames.AsStringIntKeys | tasks/nbi_map.py:50 | two integer codes cast to the same text exactly when they are equal, so a join on the cast `toponimo_i` pairs the rows a join on the integers would |
| Frames.AsStrings | tasks/get.py:183 | a column cast cell by cell, same length |
| Frames.CastColumn | tasks/get.py:183 | KeyError for a missing column; on a well-formed table the cast succeeds, the column holds its cast cells in place, and the names, the row count and every other column are kept (the same cast is tasks/raw.py:76) |
| Get.Duplicated | tasks/get.py:58 | a position is flagged exactly when its value occurred at an earlier position |
| Get.DuplicatedScan | tasks/get.py:58 | the scan that remembers the values seen gives exactly the duplicate flags |
| Get.DuplicatedSnoc | tasks/get.py:58 | one more value adds one flag and keeps the earlier flags |
| Get.UnflaggedCountsDistinct | tasks/get.py:58 | the number of unflagged positions is the number of distinct values |
| Get.DropDuplicates | tasks/get.py:83 | no row twice, no row added, no row lost |
| Get.DropDuplicatesKeepsUnflagged | tasks/get.py:83 | removing duplicates keeps exactly the unflagged rows, as many as there are distinct rows |
| Get.DropDuplicatesIsUnflagged | tasks/get.py:83 | removing duplicates keeps exactly the rows `duplicated()` does not flag, in order |
| Get.DropDuplicatesCountsDistinct | tasks/get.py:83 | removing duplicates keeps as many rows as there are distinct rows |
| Get.DropDuplicatesKeepsOrder | tasks/get.py:79-83 | removing duplicates keeps a sorted table sorted |
| Get.Lower | tasks/get.py:70 | no capital letter remains, and any other character is kept |
| Get.ColumnName | tasks/get.py:68-74 | same length, no capital and no space left, every other character kept |
| Get.ColumnNameIdempotent | tasks/get.py:59 | renaming a renamed column changes nothing |
| Get.CaseColumnNames | tasks/get.py:50-59 | the six kept columns and the flag get the names of the case table |
| Get.ColumnNameKeeps | tasks/get.py:59 | a name without capitals and spaces is kept |
| Get.PrepareAddresses | tasks/get.py:76-84 | the addresses sorted by latitude² + longitude², without repeated rows, and with exactly the rows of the input |
| Get.CorrectionsWellFormed | tasks/get.py:87-115 | the twelve sources are distinct and no target is a source |
| Get.SequentialIsLookup | tasks/get.py:87-115 | writes with distinct sources and no chains, applied one after the other, give the table's lookup |
| Get.SamePairsSameResult | tasks/get.py:87-115 | two orders of the same correction pairs give the same result |
| Get.CorrectionOrderIrrelevant | tasks/get.py:87-115 | applying the twelve corrections in any order gives the same addresses |
| Get.SourcesDistinct | tasks/get.py:87-115 | no address is corrected twice: the twelve sources are distinct |
| Get.TargetsAreNoSources | tasks/get.py:87-115 | no corrected address is itself corrected again |
| Get.Corrected | tasks/get.py:87-115 | the dictionary lookup gives the address the twelve masked writes give, applied one after the other in source order |
| Get.CorrectedIdempotent | tasks/get.py:87-115 | correcting a corrected address changes nothing, and an address that is no source is unchanged |
| Get.LookupIdempotent | tasks/get.py:87-115 | without chains, the target of a source is not itself a source |
| Get.ReplaceAddress | tasks/get.py:87 | one masked write gives the new address to the matching rows and leaves every other row and field as it was |
| Get.ApplyCorrections | tasks/get.py:87-115 | after the twelve writes every address is its lookup in the table |
| Get.Admissions | tasks/get.py:54-56 | the records with HC, each as often as in the input, in ascending admission date |
| Get.FlaggedCases | tasks/get.py:50-61 | one case per record with HC, by admission date, a readmission exactly when an earlier case has the same HC |
| Get.ReadmissionFollowsAdmission | tasks/get.py:56-58 | a readmission follows an earlier case with its HC admitted on the same day or before |
| Get.CasesInAdmissionOrder | tasks/get.py:56-58 | flagging keeps the admission order of the sorted records |
| Get.CasesFlaggedByHc | tasks/get.py:58 | a case is a readmission exactly when an earlier case has its HC |
| Get.FirstAdmissionsCountPatients | tasks/get.py:54-58 | the number of cases that are not readmissions is the number of distinct HCs among the records |
| Get.FlagsOfFlaggedCases | tasks/get.py:58 | the flag column is the duplicate mask of the HC column |
| Get.HcsOfAdmissions | tasks/get.py:54-56 | the HCs of the admissions are those of the records with HC |
| Get.CorrectedCases | tasks/get.py:87-115 | every case with its address corrected, all else unchanged |
| Get.GetBronchiolitisLocations | tasks/get.py:47-122 | the stages in order (drop records without HC, sort, flag, address table, corrections, merge) give the reference table |
| Get.Locations | tasks/get.py:117-122 | every output row pairs a corrected case with an input address of the same text, and every matching pair is in the output |
| Get.UnlocatedCaseDropped | tasks/get.py:117-122 | a case whose address is in no row of the address table is not in the output |
| Get.NewbornRows | tasks/get.py:162-164 | the age-0 rows, as many as the mask keeps and in their order, each with its link as the area code's text and its newborn count copied from `casos`; every age-0 row has one |
| Get.NewbornDuplicatesKept | tasks/get.py:162 | two equal age-0 rows give two newborn rows |
| Get.GetShape | tasks/get.py:151-171 | at least one row per tract; every row is a tract, alone or with one of the age-0 rows NewbornRows keeps, of the same link; every tract is paired with each age-0 row of its link |
| Get.GetShapeAppend | tasks/get.py:166-171 | the merge works tract by tract: the merge of two tract tables put together is their two merges put together, in order |
| Get.GetShapeOfTract | tasks/get.py:166-171 | one tract gives itself alone when no age-0 row has its link, and otherwise exactly one row per age-0 row of its link, in order and with repeats |
| Get.GetShapeKeepsTracts | tasks/get.py:166-171 | every tract survives the left merge |
| Get.GetShapeOneRowPerTract | tasks/get.py:166-171 | with one age-0 row per link the merged table is the tract table row for row, a tract without a match getting none |
| Get.GetNbi | tasks/get.py:181-187 | KeyError for `toponimo_i` when that column is missing; on success the columns `toponimo_i` and `nbi`, in that order, with the input's row count |
| Get.GetNbiColumns | tasks/get.py:183-187 | with `toponimo_i` and `Unidades_7` and no `nbi`, the result is the two columns, `toponimo_i` holding its cells cast to text and `nbi` the cells of `Unidades_7` |
| Get.GetNbiMissingColumn | tasks/get.py:183-187 | without `toponimo_i` the cast raises KeyError for it; with it but without both `Unidades_7` and `nbi`, the projection raises KeyError for `nbi` |
| Get.NbiNotSelected | tasks/get.py:186-187 | projecting a table with `toponimo_i` but no `nbi` raises KeyError for `nbi` |
| Merge.Matches | tasks/get.py:118-122 | the partners of one left row: right rows of its key, each paired with it; none exactly when no right row has its key |
| Merge.MatchesOfUniqueKey | tasks/get.py:118-122 | a left row whose key only one right row has gets exactly that partner |
| Merge.InnerMerge | tasks/get.py:118-122 | every output row pairs a left and a right row of equal keys, and every such pair is in the output |
| Merge.InnerMergeOneToOne | tasks/get.py:118-122 | with unique right keys and every left key matched, the inner merge is the left table row for row |
| Merge.InnerMergeDropsUnmatched | tasks/get.py:118-122 | a left row without partner is not in the output |
| Merge.LeftMatches | tasks/get.py:166-171 | a left row with each of its partners (every partner appears), or alone with no right row exactly when it has none |
| Merge.LeftMerge | tasks/get.py:166-171 | the left merge has at least as many rows as the left table |
| Merge.LeftMergeKeepsEveryPair | tasks/get.py:166-171 | every left row is paired with each right row of its key |
| Merge.Partners | tasks/get.py:166-171 | the right rows of a key, in order: each has the key, every right row with the key is among them, and there are none exactly when no right row has the key |
| Merge.MatchesArePartners | tasks/get.py:166-171 | the matches of a left row are the row paired with each of its partners in turn, as many as there are partners |
| Merge.LeftMatchesArePartners | tasks/get.py:166-171 | a left row with partners gets exactly one output row per partner, in right-table order and with repeats |
| Merge.LeftMergeAppend | tasks/get.py:166-171 | the left merge of two left tables put together is their two left merges put together, so each left row contributes its own rows in order |
| Merge.LeftMergeOfOne | tasks/get.py:166-171 | a single left row gives exactly its own rows |
| Merge.LeftMergeRows | tasks/get.py:166-171 | every output row is a left row, with no partner or with a right row of its key |
| Merge.LeftMergeKeepsEveryRow | tasks/get.py:166-171 | every left row survives the left merge |
| Merge.LeftMatchesOfUniqueKeys | tasks/get.py:166-171 | with unique right keys a left row gives one output row |
| Merge.LeftMergeOneToOne | tasks/get.py:166-171 | with unique right keys the left merge is the left table row for row, with no partner exactly when no right row has the key |
| Raw.Upper | tasks/raw.py:31 | the upper-cased character is never a lower-case ASCII letter, and a character that is not one is kept |
| Raw.UpperName | tasks/raw.py:31 | the upper-cased name has the same length, holds no lower-case letter and keeps every other character in place |
| Raw.HcColumnNames | tasks/raw.py:30-31 | the output columns are HC, INGRESO, EDAD, DOMICILIO and ES_REINTERNACION |
| Raw.UpperNameKeeps | tasks/raw.py:31 | a name without lower-case letters comes out unchanged |
| Raw.SheetHcs | tasks/raw.py:30 | the HC column of rows that all have one, position by position |
| Raw.ToHcRows | tasks/raw.py:30 | each kept row gets the flag at its own position |
| Raw.SheetFlagged | tasks/raw.py:29-30 | the rows with HC, in sheet order, each flagged exactly when an earlier kept row has the same HC |
| Raw.GetHc | tasks/raw.py:29-33 | the output is sorted by admission day and is a permutation of the flagged rows, flagged before sorting |
| Raw.SheetKeepsBoth | tasks/raw.py:29 | two rows with HC both survive `dropna` |
| Raw.SheetFlaggedPair | tasks/raw.py:30 | of two rows of the same patient the second in the sheet is the one flagged |
| Raw.SheetOrderFlagsEarlier | tasks/raw.py:29-32 | when the later admission is written first, the earlier admission ends up flagged as the readmission |
| Raw.RecordsKeepBoth | tasks/get.py:54 | the same two records both survive the HC filter of `get_bronchiolitis_locations` |
| Raw.AdmissionsByDate | tasks/get.py:56 | the same two records sorted by admission day put the earlier one first |
| Raw.DateOrderFlagsLater | tasks/get.py:54-58 | `get_bronchiolitis_locations` flags the later admission of the same two rows, unlike `get_hc` |
| Raw.PrepareAddressTable | tasks/raw.py:59-62 | sorting by squared distance and dropping duplicates gives the address preparation of `get_bronchiolitis_locations` |
| Raw.Rate | tasks/raw.py:78 | the rate is finite exactly when the population is non-zero; a zero population gives +inf, -inf or NaN by the sign of the cases, never an error |
| Raw.RateTimesPopulation | tasks/raw.py:78 | the rate times the population is ten thousand times the cases |
| Raw.ZeroCasesZeroRate | tasks/raw.py:78 | a tract with inhabitants and no cases has rate zero |
| Raw.RateMonotone | tasks/raw.py:78 | for a fixed positive population more cases never give a lower rate |
| Cases.Intersections | tasks/cases.py:38-40 | one test per point, in point order, each the intersection of the unit's polygon with that point |
| Cases.Casos | tasks/cases.py:45 | a unit never counts more cases than there are points |
| Cases.CasosCountsHits | tasks/cases.py:38-45 | the count of a unit is the number of points that fall in it |
| Cases.PerUnit | tasks/cases.py:36-47 | one record per unit, in shapefile order, with its `toponimo_i` and its count |
| Cases.GetCases | tasks/cases.py:35-53 | one record per unit, a permutation of the per-unit records, each count bounded by the number of points, sorted by `casos` descending |
| Cases.ByCasosDescending | tasks/cases.py:51-52 | sorting by `casos` descending keeps every record and its bound, in non-increasing order of cases |
| Cases.OnePointTwoUnits | tasks/cases.py:36-45 | units are counted independently: one point in two overlapping units is a case of each |
| Cases.OnePointNoUnit | tasks/cases.py:36-45 | a point outside every unit is a case of none |
| Report.HtmlParams | src/bronchiolitis_package/report.py:75-86 | the parameter text always starts with the `Parámetros` heading |
| Report.NoParamsMarker | src/bronchiolitis_package/report.py:76-78 | the `<p>---</p>` placeholder follows the heading exactly when there are no parameters |
| Report.Fields | src/bronchiolitis_package/report.py:81-84 | three fields written into a fixed frame sit, unaltered, at offsets given by the frame and the fields before them |
| Report.ParamBlockFields | src/bronchiolitis_package/report.py:81-84 | a parameter's block holds its title, its description and its value, each as given and in that order |
| Report.Report.GetHtmlParams | src/bronchiolitis_package/report.py:75-86 | the loop appends one block per parameter after the heading, and the placeholder only for an empty list |
| Report.Report.constructor | src/bronchiolitis_package/report.py:57-73 | a new report holds its title, subtitle and parameters, no section and no temporary file, and its rendered parameters |
| Report.LastSegment | src/bronchiolitis_package/report.py:194 | the last segment is a suffix of the path without '/', preceded by '/' unless it is the whole path |
| Report.RStrip | src/bronchiolitis_package/report.py:194 | the stripped name is a prefix, does not end in a stripped character, and everything removed is one |
| Report.StrippedSegment | src/bronchiolitis_package/report.py:194 | the stripped last segment holds no '/' and does not end in a stripped character |
| Report.BaseName | src/bronchiolitis_package/report.py:194 | the base name holds no '/' and does not end in '.', 'p', 'n' or 'g' |
| Report.LastSegmentAfterSlash | src/bronchiolitis_package/report.py:194 | the last segment of `dir/name` is `name` |
| Report.PingStripped | src/bronchiolitis_package/report.py:194 | `rstrip('.png')` turns `ping.png` into `pi`: it strips characters, not the suffix |
| Report.BaseNameOfPing | src/bronchiolitis_package/report.py:194 | the image `figs/ping.png` gets the base name `pi` |
| Report.ResizedPath | src/bronchiolitis_package/report.py:194-195 | the resized copy's name ends in `.png` and, for a timestamp without '/', names a file of the working directory |
| Report.FigTemplate | src/bronchiolitis_package/report.py:200-205 | the figure holds its source, its width and its height as given, in that order |
| Report.SectionWithoutFigure | src/bronchiolitis_package/report.py:105-123 | without a figure (None or empty), a section is its text, its caption and the page break when asked for |
| Report.SectionWithFigure | src/bronchiolitis_package/report.py:105-123 | with a figure, a section is its text, the figure template of the resized image at the base width and the given height, its caption and the page break when asked for |
| Report.Section | src/bronchiolitis_package/report.py:102-123 | a section starts with its text; with a figure the resized image's template follows it and the caption follows the template; without one the caption follows the text; it ends with the page break when one is asked for |
| Report.Report.AddSection | src/bronchiolitis_package/report.py:88-123 | the section is appended to the content; a figure's resized copy is added to the files to remove, under the working directory; nothing else changes |
| Report.HeadLayout | src/bronchiolitis_package/report.py:125-155 | the page head opens with the fixed tags and holds the title, the subtitle and the parameters, each where the ones before it end |
| Report.PageLayout | src/bronchiolitis_package/report.py:153-159 | the sections come right after the head and the closing tags right after them |
| Report.ReportText | src/bronchiolitis_package/report.py:125-159 | the report text is the head, then the sections exactly as added, then the closing tags, each where the one before it ends |
| Report.Report.GetReportText | src/bronchiolitis_package/report.py:125-159 | the report's sections so far sit right after the head built from its title, subtitle and parameters, followed by the closing tags |
| Report.OpenInHead | src/bronchiolitis_package/report.py:126-131 | the head starts with its opening text |
| Report.TitleInHead | src/bronchiolitis_package/report.py:131 | the window title follows the opening text |
| Report.SubtitleInHead | src/bronchiolitis_package/report.py:150 | the subtitle sits after the heading title |
| Report.ParamsInHead | src/bronchiolitis_package/report.py:153 | the parameters sit after the subtitle |
| Sorting.Insert | tasks/get.py:56 | inserting into a sorted table keeps it sorted, adds exactly the new row and nothing else |
| Sorting.SortBy | tasks/get.py:56 | `sort_values`: the result is in ascending key order and a permutation of the input |
| Sorting.SortByMembers | tasks/get.py:56 | sorting keeps every row that is there and adds none |
| Sorting.SortedPair | tasks/get.py:56 | two rows of different keys have exactly one sorted order |
| PyBase.KeyIndex | tasks/cluster.py:26 | the position of a key, absent exactly when it is no key, and the first position holding it |
| PyBase.Lookup | tasks/nbi_map.py:62 | `d[k]` raises KeyError naming `k` exactly when `k` is not a key, and otherwise gives a value stored under `k` |
| PyBase.ValueAt | tasks/cluster.py:26 | a value stored under the key, the only one when keys are distinct |
| PyBase.Put | tasks/nbi_map.py:73 | `d[k] = v` on an insertion-ordered dict: an existing key keeps its place, a new one goes last |
| PyBase.PutSummary | tasks/nbi_map.py:73 | after `d[k] = v`, `k` maps to `v`, the keys are the old ones plus `k`, and every other key keeps its value |
| PyBase.KeysOfPut | tasks/nbi_map.py:73 | `d[k] = v` keeps every key in its place and adds `k` if it was new |
| PyBase.ValueAtPut | tasks/nbi_map.py:73 | after `d[k] = v` the key `k` reads `v` |
| PyBase.ValueAtPutOther | tasks/nbi_map.py:73 | after `d[k] = v` every other key reads what it read before |
| PyBase.Zip | tasks/cluster.py:26 | `zip` pairs position by position up to the shorter list |
| PyBase.FromPairs | tasks/cluster.py:57 | the dict comprehension over pairs has exactly the keys of the pairs |
| PyBase.FromPairsOfDistinct | tasks/cluster.py:26 | with no repeated key the comprehension is the pair list itself |
| PyBase.ZipDictPositional | tasks/cluster.py:57 | a comprehension over `zip` with distinct keys gives the i-th key the i-th value |
| PyBase.PyIndex | tasks/clustermap.py:42-43 | Python list indexing: IndexError exactly outside `-len .. len - 1`, negative indices counting from the end |
| PyBase.Filter | tasks/get.py:162 | a boolean mask keeps only rows that pass it, and every row that passes it |
| PyBase.FilterAppend | tasks/get.py:162 | masking a concatenation is concatenating the masked parts, so rows keep their order and their repeats |
| PyBase.FilterMembers | tasks/get.py:162 | a row is kept exactly when it is a row that passes the mask |
| PyBase.FilterSplits | tasks/get.py:162 | a mask and its negation together keep every row as often as the input |
| PyBase.RemoveAt | tasks/cluster.py:48 | `pop(i)` removes exactly position `i` and shifts the rest down |
| PyBase.IndexOf | tasks/cluster.py:48 | `index(x)` is the first position holding `x` |
| PyBase.IndexOfAt | tasks/cluster.py:48 | the first position holding `x` is what `index` returns |
| PyBase.Count | tasks/cluster.py:27 | `Counter(xs)[x]` never exceeds the list's length |
| PyBase.CountPositive | tasks/cluster.py:27 | the count is positive exactly when `x` occurs |
| PyBase.CountAppend | tasks/cluster.py:27 | counts over two lists add up |
| PyBase.NatToString | src/bronchiolitis_package/report.py:203 | `str(n)`: decimal digits, no leading zero, "0" exactly for zero |
| PyBase.IntToString | tasks/get.py:164 | `str(i)`: at least one character, a leading '-' exactly for a negative number |
| PyBase.IntToStringRoundTrip | tasks/get.py:164 | `int(str(i)) == i` for every integer |
| PyBase.IntToStringInjective | tasks/get.py:164 | two integers are written alike exactly when they are equal |
| PyBase.NatToStringRoundTrip | src/bronchiolitis_package/report.py:203 | reading the written digits back gives the number |

## Left out

- Statistics: the spatial weights and the Moran, Moran_Rate, Moran_BV and local Moran statistics are library calls. Their quadrants `q` and p-values `p_sim` are inputs, and the weights object is a class with only `transform` and `islands`.
- Rendering: every matplotlib, geopandas and splot plotting call, legends' layout, basemaps, insets and arrows. Legend marks are values of the model.
- I/O: reading and writing CSV, Excel, parquet, shapefiles and HTML, pdfkit, `os.remove` and `Report.build`. Also excluded is PIL resizing: the resized height `hsize` is a parameter of `Report.Report.AddSection`.
- The clock and the working directory: the timestamp in a resized image's name and `os.getcwd()` are parameters.
- Geometry: `to_crs`, `points_from_xy` and `intersects`. `intersects` is a parameter of `Cases`.
- `get_palettes` and `create_moranplot_figure` of `surnames_package` are not part of this model.
- Floating point: values are `real`. IEEE infinities and NaN are modelled only for the case rate, the one place where the code can divide by zero.
- Dates are day numbers, and only their order matters.
- Case mapping covers ASCII letters only (`str.lower` and `str.upper` on other letters are not modelled).
- Sorting.SortBy: pandas' default sort is not stable, so equal keys may come out in any order. The model keeps them in input order, which is one of the orders pandas may produce.
- Merge.InnerMerge: the output rows are grouped by left row, and each group is in right-table order. Only the rows themselves are promised, not pandas' exact row order.
- Frames.AsString: a float cell becomes the text a caller-supplied `floatRepr` gives, since Python's shortest float repr is not modelled. A geometry cell is left as it is rather than turned into its WKT text.
- Get.GetShape: the tract record holds `link` and `toponimo_i` as text, so the two `astype('string')` casts of tasks/get.py:152-153 are taken as done on the input.
- The `shape` step of tasks/raw.py is modelled by its parts: `Frames.CastColumn`, `Frames.Rename` and `Raw.Rate`. Its reading and writing of files is left out.
- The merge of tasks/nbi_map.py:50 on `toponimo_i` is not modelled. `Frames.AsStringIntKeys` states the fact it relies on: integer codes cast to text match exactly when the codes do.
- Frames.Select: a projection with several missing columns reports the first missing name, while pandas lists all of them.
- Frames.Select: tables are taken to have distinct column names. The projection returns the first column of a name, while pandas returns every column with that name. A rename onto a name that already exists is not modelled either: the `nbi` rename of `Get.GetNbi` into a table that already has `nbi` would give pandas two `nbi` columns.
- Report.PageLayout: states that the content comes right after the head and before the closing tags. It does not state that the content occurs only once in the page, which fails when a title or parameter contains the content's text.
- Report.Param: a parameter is a record with the three fields. The `KeyError` of a parameter dict without "title", "desc" or "value" is not modelled.
- Spatial.GetSpatials: the strategy argument is computed for every known strategy. The weights builders it is passed to are outside the model.
- The `groupby` in `get_nbi_map` visits groups in sorted key order. The model visits them in first-occurrence order. This is harmless: the counts, and the legend built afterwards in the fixed category order, do not depend on it.
- In `get_moranplot_bv` the tracts are first merged with the NBI table. That merge is not modelled: `TasksSpatial.ClusterLabelsTable` takes the merged table as its input.
