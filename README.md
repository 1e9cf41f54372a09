# oncoscape algorithm wrapper, modelled in Dafny

The model covers the web service that runs statistical analyses on data from
the Oncoscape document store:

- The POST endpoints `/plsr`, `/pca` and `/distance` check a request's keys
  against the algorithm's input parameters. They then construct the
  algorithm's wrapper from the request and run it.
- The constructor of `AbstractAlgorithmWrapper` fetches the molecular frame
  and, optionally, a second molecular frame and a clinical frame. It
  restricts the molecular frame to the requested samples, sorts rows by
  label and prunes columns holding null, "NaN" or "NaT". It reconciles the
  clinical frame with the molecular one and records an error when a frame
  ends up empty.
- `run_algorithm` of the PCA, PLSR and Distance wrappers installs a warning
  collector, runs the numeric routine unless an error is already set, and
  restores the handler. It then turns the routine's arrays into labelled
  JSON entries with `display_result`, or reports the error as the
  response's `reason`.
- The smoke-test driver summarises a request, reads a response's verdict,
  chooses diseases, maps sampled patients back to sample ids and filters a
  request down to an algorithm's parameters.

Frames are values: row labels, column labels and a matrix of cells. The
wrapper is a class whose constructor steps (`PruneMolecular`,
`AttachClinical`, `CheckRows`) and warning collector reassign its fields.
The process-wide warning handler is a second class. Loops in the source
are methods with loop invariants, each proved equal to a specification
function: the clinical build loop, the `rowhash` loop, `display_result`,
`get_projection`, `summary`, the sample remapping and the parameter filter.
Properties are proved about those functions as lemmas.

The numeric routines (scikit-learn's `PCA` and `PLSRegression`, numpy's
`corrcoef`) are parameters. Each is a `Computation`: the warnings it emits,
then the arrays it returns or the message of the exception it raises. The
document store is a value (`RecordStore.Store`). The request body reaches
the model as its set of keys and the constructor's `Params`.

Where the documented design and the code disagree, the model follows the
code:

- Requested samples restrict only the first molecular frame (lines 93-95),
  not the second.
- Molecular rows holding nulls are not dropped. Only columns are pruned
  (lines 97-99).
- The "NaN" and "NaT" columns are dropped by label (line 98), so a column
  goes whenever another column with the same label holds such a cell. The
  null columns are dropped by position (line 99).
- The clinical and molecular frames are not reconciled by a symmetric
  difference. The molecular frame loses only the labels of the clinical
  rows that held a null (lines 117-136).
- A sample missing from the sample map, or a patient missing from its
  inverse, is a `KeyError` that ends the request (lines 313 and 324). It is
  not a dropped row with a warning.
- The sample map maps sample ids to patient ids. The loop uses its inverse.
- `display_result` entries carry `id`, `d` and `m`, and always carry `m`.

## Model

| member | source | states |
|---|---|---|
| AlgorithmWrapper.Fetch | algorithm_wrapper.py:66-75 | the fetched frames are well shaped |
| AlgorithmWrapper.FetchSpec | algorithm_wrapper.py:66-75 | a null gene list fails on `len` before anything is fetched, then a null molecular collection fails in pymongo; otherwise with no genes every record is fetched, else exactly those whose id is listed; the second frame exists iff its collection is named; both come back with ascending labels |
| AlgorithmWrapper.SortAndPrune | algorithm_wrapper.py:97-99 | sorting and pruning keeps the frame well shaped |
| AlgorithmWrapper.SortAndPruneSpec | algorithm_wrapper.py:97-99 | the labels ascend and are a permutation of the input's; no cell left is null, "NaN" or "NaT"; a label survives iff no column carrying it holds "NaN" or "NaT" and some column carrying it holds no null; with distinct column labels, a column survives iff none of its cells was null, "NaN" or "NaT" |
| AlgorithmWrapper.SortAndPruneColumns | algorithm_wrapper.py:97-99 | the two column clauses of `SortAndPruneSpec`: which labels survive sorting and pruning, and, with distinct labels, which columns |
| AlgorithmWrapper.AlignMolecular | algorithm_wrapper.py:93-99 | restricting and pruning keeps the frame well shaped |
| AlgorithmWrapper.AlignMolecularRows | algorithm_wrapper.py:93-99 | with unique labels, the aligned frame keeps exactly the labels that are among the requested samples, or all labels when none are requested |
| AlgorithmWrapper.ClinicalStep | algorithm_wrapper.py:113-136 | the clinical step fails (pandas' KeyError in `.loc`) iff the molecular frame has labels and none of them is a clinical label |
| AlgorithmWrapper.ClinicalDropIsNoOp | algorithm_wrapper.py:113-131 | after `.loc` and `dropna` every clinical label is a molecular label, so dropping any labels the molecular frame lacks (line 130 as intended) leaves the clinical frame unchanged |
| AlgorithmWrapper.ClinicalStepValue | algorithm_wrapper.py:113-136 | the clinical frame is `.loc` of the molecular labels with null rows dropped; the molecular frame loses the labels of those null rows |
| AlgorithmWrapper.ClinicalStepClinical | algorithm_wrapper.py:113-119 | every clinical label left is a molecular label, and no clinical cell left is null |
| AlgorithmWrapper.ClinicalStepMolecular | algorithm_wrapper.py:117-136 | no label of a dropped clinical row is left in the molecular frame, and the molecular frame loses no other label |
| AlgorithmWrapper.ClinicalStepSpec | algorithm_wrapper.py:113-136 | the four properties of the clinical step together |
| AlgorithmWrapper.ClinicalStepSameSamples | algorithm_wrapper.py:113-136 | when each patient has one clinical record, the two frames end with the same set of labels |
| AlgorithmWrapper.AlignClinical | algorithm_wrapper.py:106-136 | a successful alignment leaves all frames well shaped |
| AlgorithmWrapper.Construct | algorithm_wrapper.py:57-136 | a successful construction leaves all frames well shaped |
| AlgorithmWrapper.InitialErrorSpec | algorithm_wrapper.py:138-147 | the second molecular frame and the clinical frame exist iff their collections are named; the error is None iff no frame is empty, and otherwise names the last empty frame in the order molecular, second molecular, clinical |
| AlgorithmWrapper.InitialError | algorithm_wrapper.py:138-147 | the three emptiness checks of the constructor, each overriding the last; `InitialErrorSpec` states which message results |
| AlgorithmWrapper.DropMolRowsAsWrittenRaises | algorithm_wrapper.py:130 | no name bound before line 130 is `mol_rows_to_drop`, so its lookup raises `NameError` whatever the clinical frame |
| AlgorithmWrapper.DropMolRowsAsWritten | algorithm_wrapper.py:130 | line 130 as written: the lookup of the unbound name; `DropMolRowsAsWrittenRaises` states its outcome |
| AlgorithmWrapper.ClinicalStepAsWritten | algorithm_wrapper.py:113-136 | the clinical step with line 130 as written; `ConstructAsWrittenRaises` states its outcome |
| AlgorithmWrapper.ConstructAsWritten | algorithm_wrapper.py:57-136 | the constructor's frame steps with line 130 as written; `ConstructAsWrittenRaises` states its outcome |
| AlgorithmWrapper.ConstructAsWrittenRaises | algorithm_wrapper.py:106-136 | as written, with a clinical collection named the construction always fails, and with `NameError` at line 130 whenever the corrected construction succeeds; it equals the corrected construction when that fails or when no clinical collection is named |
| AlgorithmWrapper.DiseaseAsWritten | pca_wrapper.py:45 | reading `self.disease` on a wrapper built as written; `DiseaseNeverSet` states that it raises `AttributeError` |
| AlgorithmWrapper.DiseaseNeverSet | algorithm_wrapper.py:57-75 | the constructor never sets `disease`, so reading it raises `AttributeError`; `mol_df2` and `clin_df` are set iff their collections are named |
| AlgorithmWrapper.InitAttributesOfConstruct | algorithm_wrapper.py:57-75 | a successful construction holds a second molecular frame, or a clinical frame, iff the constructor sets `mol_df2`, or `clin_df`; it never sets `disease` |
| AlgorithmWrapper.SortAndPruneSteps | algorithm_wrapper.py:97-99 | the three in-place steps compute `SortAndPrune` |
| AlgorithmWrapper.Wrapper.constructor | algorithm_wrapper.py:57-75 | stores the arguments and the fetched frames |
| AlgorithmWrapper.Wrapper.PruneMolecular | algorithm_wrapper.py:93-104 | the molecular frame becomes its restricted, sorted and pruned self; the second frame is sorted and pruned iff its collection is named; nothing else changes |
| AlgorithmWrapper.Wrapper.AttachClinical | algorithm_wrapper.py:106-136 | fails exactly as `AlignClinical` does, with its error; on success the fields hold its frames; params, error and warnings are unchanged |
| AlgorithmWrapper.Wrapper.Align | algorithm_wrapper.py:93-136 | the fields end as the molecular alignment followed by the clinical one, or the method fails with the same error |
| AlgorithmWrapper.Wrapper.CheckRows | algorithm_wrapper.py:138-147 | error becomes `InitialError` of the frames, warnings become empty, and the frames are unchanged |
| AlgorithmWrapper.Wrapper.CustomWarnFunction | algorithm_wrapper.py:150-153 | appends the message to the warnings and changes nothing else |
| AlgorithmWrapper.Create | algorithm_wrapper.py:46-147 | constructing fails iff `Construct` does, with its error; otherwise a fresh wrapper holds the arguments, the constructed frames, the initial error and no warnings |
| AlgorithmWrapper.WarningFilters.constructor | pca_wrapper.py:30-31 | the stock handler is installed |
| AlgorithmWrapper.WarningFilters.Emit | algorithm_wrapper.py:150-153 | with the collector installed, a warning is appended to that wrapper's warnings and nothing else changes; the handler stays |
| AlgorithmWrapper.WarningFilters.EmitAll | algorithm_wrapper.py:150-153 | the routine's warnings are appended in order |
| AlgorithmWrapper.FitPhaseSpec | pca_wrapper.py:30-40 | a set error skips the routine and survives it; otherwise the routine's warnings follow the earlier ones; the result exists iff the routine returned, and then the error is untouched; a raising routine's message becomes the error |
| AlgorithmWrapper.FitPhase | pca_wrapper.py:30-40 | the `try` around the numeric routine, skipped when an error is set; `FitPhaseSpec` states its outcomes |
| AlgorithmWrapper.WithWarningField | pca_wrapper.py:61-63 | merging the results and the "warning" entry into the base keeps its entries, adds no reason, and adds "warning" iff some warning was collected |
| AlgorithmWrapper.Fit | pca_wrapper.py:28-40 | the wrapper's error and warnings and the returned result are `FitPhase`'s; the previous handler is restored; frames and params are unchanged |
| Clinical.Present | algorithm_wrapper.py:326-329 | the loop's `break` position: every feature before it is in the record, and the feature at it is not |
| Clinical.PresentIsFirst | algorithm_wrapper.py:326-329 | the break position is the first missing feature |
| Clinical.Dedup | algorithm_wrapper.py:330 | a dict's keys filled from a list are each element once |
| Clinical.DedupPrefix | algorithm_wrapper.py:330 | one more assignment adds the key unless it is already present |
| Clinical.DedupDistinct | algorithm_wrapper.py:330 | filling from distinct features keeps their order |
| Clinical.RowKeys | algorithm_wrapper.py:325-330 | the keys of `rowhash` are distinct fields of the record |
| Clinical.RowKeysSpec | algorithm_wrapper.py:325-330 | a feature is a key of `rowhash` iff it comes before the first missing feature |
| Clinical.RowKeysAll | algorithm_wrapper.py:325-330 | a record holding every (distinct) feature contributes them all, in order |
| Clinical.RowFrame | algorithm_wrapper.py:331 | the row frame has the single label `key` and the `rowhash` keys as columns |
| Clinical.RowFrameCell | algorithm_wrapper.py:331 | the row holds the record's value under each of its keys and null elsewhere |
| Clinical.Reindex | algorithm_wrapper.py:334 | laying rows out under new columns puts each row's cell of that label in place, null when absent |
| Clinical.Append | algorithm_wrapper.py:334 | `append` stacks the rows of both frames in order |
| Clinical.UnionColumnsSpec | algorithm_wrapper.py:334 | the columns of an append are distinct and are the union of both frames' columns |
| Clinical.AppendColumns | algorithm_wrapper.py:334 | the same, stated for the appended frame |
| Clinical.AppendCells | algorithm_wrapper.py:334 | each appended row holds, under every label, what it held in its own frame |
| Clinical.Build | algorithm_wrapper.py:322-334 | a successful build has one row per record and distinct columns |
| Clinical.Step | algorithm_wrapper.py:324-334 | one turn fails iff the record's patient is not in the inverted map, and otherwise adds one row |
| Clinical.BuildFails | algorithm_wrapper.py:323-324 | the build fails iff some record's patient is missing from the inverted map |
| Clinical.BuildFailureSticks | algorithm_wrapper.py:323-334 | once a prefix fails, the whole loop fails with the same error |
| Clinical.BuildStep | algorithm_wrapper.py:323-334 | a successful build is the build of all but the last record with the last record's row appended |
| Clinical.BuildRows | algorithm_wrapper.py:324-334 | row `i` of a successful build is labelled with record `i`'s sample id, in cursor order |
| Clinical.ContributesSnoc | algorithm_wrapper.py:325-334 | a key is contributed by the records iff it is contributed by the earlier ones or the last one |
| Clinical.BuildColumns | algorithm_wrapper.py:325-334 | the columns of a successful build are exactly the keys some record contributes |
| Clinical.SnocCell | algorithm_wrapper.py:331-334 | appending a row keeps the earlier rows' cells and puts the record's cells in the new row |
| Clinical.BuildCells | algorithm_wrapper.py:323-334 | row `i` holds record `i`'s value under each key it contributed and null under every other column |
| Clinical.WantedPatients | algorithm_wrapper.py:313 | fails iff some requested sample is missing from the sample map; otherwise gives each sample's patient, in order |
| Clinical.ClinCollToDfSpec | algorithm_wrapper.py:307-336 | a returned clinical frame is well shaped |
| Clinical.ClinCollToDfPasses | algorithm_wrapper.py:310-320 | success implies the sample map exists, features are given and every requested sample is mapped |
| Clinical.ClinCollToDfSuccess | algorithm_wrapper.py:307-336 | a returned frame is the sorted build over the records the query finds |
| Clinical.ClinCollToDfRows | algorithm_wrapper.py:307-336 | the returned labels ascend and are, with multiplicity, the sample ids of the records found; its columns are the features some record contributes, each once |
| Clinical.MissingSampleFails | algorithm_wrapper.py:312-313 | a requested sample the map lacks makes the call raise, whatever else holds |
| Clinical.RowHashStep | algorithm_wrapper.py:326-330 | one turn of the inner loop keeps the dict equal to the record restricted to `Dedup` of the features copied so far |
| Clinical.RowHash | algorithm_wrapper.py:325-330 | the inner loop's dict has the `RowKeys` keys, each holding the record's value |
| Clinical.ClinCollToDf | algorithm_wrapper.py:307-336 | the method returns or raises exactly what `ClinCollToDfSpec` says |
| Clinical.RowOf | algorithm_wrapper.py:325-331 | the row the inner loop builds is `RowFrame` |
| Clinical.BuildSnoc | algorithm_wrapper.py:323-334 | the build over one more record is one more `Step` |
| Clinical.BuildLoop | algorithm_wrapper.py:322-334 | the loop over the cursor computes `Build` |
| Distance.Paired | distance_wrapper.py:17 | a name and that name with "2" appended sort in that order and are distinct |
| Distance.InputParameters | distance_wrapper.py:14-17 | the expected keys are sorted, distinct, and exactly `molecular_collection` and `molecular_collection2` |
| Distance.InputParametersUnique | distance_wrapper.py:17 | `sorted` has only this result on those keys |
| Distance.Intersect1d | distance_wrapper.py:47 | the shared genes are sorted, distinct, and exactly the labels in both lists |
| Distance.BlockStart | distance_wrapper.py:56 | the start row for `D[-n2:, ...]` is within the matrix and leaves exactly `n2` rows when there are enough |
| Distance.TrySpec | distance_wrapper.py:38-66 | the try block keeps the frames well shaped, and `D` is bound only with a second frame |
| Distance.TrySpecSkips | distance_wrapper.py:38-52 | a set error changes nothing; a missing second frame is the reason; the frames keep their labels whatever happens |
| Distance.TrySpecGenes | distance_wrapper.py:47-52 | the overlap is empty iff no gene is shared, and then it is the reason and `D` is unbound; otherwise both frames are cut to the shared genes, in the same sorted order |
| Distance.TryShared | distance_wrapper.py:47-64 | with a shared gene, the second frame stays, the routine's warnings follow the earlier ones, and `D` is bound iff the routine returned; a raising routine's message becomes the error |
| Distance.BaseFields | distance_wrapper.py:71-75 | the base response is "Distance", with no reason and no warning |
| Distance.Base | distance_wrapper.py:71-75 | the base response; `BaseFields` states its entries |
| Distance.Finish | distance_wrapper.py:68-82 | the NaN check and the response; `FinishOutcomes` and `FinishSuccess` state its outcomes |
| Distance.RunSpec | distance_wrapper.py:35-87 | `run_algorithm` on values; `RunSpecOutcomes` and `TrySpecBlock` state its outcomes |
| Distance.FinishOutcomes | distance_wrapper.py:68-82 | the warnings are kept; a reason iff the error ends set, and then the response is exactly the base plus that reason; with no error and an all-NaN `D` the error becomes the NaN message; "warning" iff no error and some warning was collected; an exception escapes only with no error recorded |
| Distance.RunSpecOutcomes | distance_wrapper.py:35-87 | a set error or missing second frame is the reason of an otherwise empty response; no shared gene gives exactly the base plus the overlap reason; a raising `corrcoef` gives exactly the base plus its message, and an all-NaN `D` the base plus the NaN reason, with the routine's warnings; the response obeys `FinishOutcomes` |
| Distance.BlockShape | distance_wrapper.py:55-56 | `D` is the bottom-left block of the full correlation matrix: a row per second-frame sample, a column per first-frame sample |
| Distance.FinishSuccess | distance_wrapper.py:76-82 | a bound, not all-NaN `D` is listed row by row under the second frame's samples, each entry carrying the first frame's samples |
| Distance.TrySpecBlock | distance_wrapper.py:47-56 | with a shared gene and a full square correlation, `D[i][j]` is the correlation of second-frame sample `i` with first-frame sample `j` |
| Distance.Try | distance_wrapper.py:38-66 | the in-place try block leaves the frames, error, warnings and `D` of `TrySpec` |
| Distance.Respond | distance_wrapper.py:68-87 | the NaN check and response leave the error and the result of `Finish`; frames and warnings are unchanged |
| Distance.RunAlgorithm | distance_wrapper.py:35-87 | the run leaves the frames of `TrySpec` and the error, warnings and result of `RunSpec`, and restores the handler |
| FlaskApp.RouteInvertsPath | flask_app.py:43-45 | a path is routed to a resource iff it is that resource's endpoint |
| FlaskApp.Route | flask_app.py:43-45 | the route table; `RouteInvertsPath` states that it inverts `Path` |
| FlaskApp.Expected | flask_app.py:22 | each endpoint's expected keys are sorted and distinct |
| FlaskApp.AdmitIff | flask_app.py:23 | a request is admitted iff its keys are exactly the expected ones: a missing or an extra key rejects it |
| FlaskApp.Admit | flask_app.py:22-23 | the key check; `AdmitIff` states which requests pass it |
| FlaskApp.RejectReason | flask_app.py:24-25 | the reason text naming the expected keys; `PostRejects` states that a rejection carries it |
| FlaskApp.Rejection | flask_app.py:24-28 | a rejection is HTTP 400 whose body has only a `reason` |
| FlaskApp.PostRejects | flask_app.py:22-28 | a request with other keys is answered 400 with the stated reason and nothing else, whatever the run would do |
| FlaskApp.PostAccepts | flask_app.py:29-31 | a request with exactly the expected keys gets the run's object with 200, or the run's exception, never a 400 |
| FlaskApp.Post | flask_app.py:19-31 | the `post` closure; `PostRejects` and `PostAccepts` state its answers |
| FlaskApp.ExpectsDisease | pca_wrapper.py:20-21 | the PCA and PLSR endpoints expect `disease` |
| FlaskApp.AdmittedDiseaseRaises | flask_app.py:29 | as written, every request the PCA and PLSR endpoints admit carries `disease`, which `__init__` rejects with a `TypeError` |
| FlaskApp.AdmittedBinds | flask_app.py:29 | with `disease` accepted by the constructor, every admitted request binds |
| FlaskApp.BindAsWritten | flask_app.py:29 | binding the request to the constructor's keywords as written; `AdmittedDiseaseRaises` states that every PCA and PLSR request fails it |
| FlaskApp.Bind | flask_app.py:29 | binding once the constructor takes `disease`; `AdmittedBinds` states that every admitted request passes it |
| Frames.CursorToDataFrame2Spec | algorithm_wrapper.py:218-226 | an empty cursor gives the empty frame; otherwise rows are the first record's `m`, columns the ids in cursor order, and each cell is the record's value or null past its end; the call fails exactly when some `d` is longer than `m` or all are shorter |
| Frames.CursorToDataFrame2 | algorithm_wrapper.py:218-226 | the frame built from a molecular cursor; `CursorToDataFrame2Spec` states its shape and cells |
| Frames.SortRowsSpec | algorithm_wrapper.py:97 | `sort_index` permutes the (label, row) pairs and leaves the labels ascending |
| Frames.SortRows | algorithm_wrapper.py:97 | `sort_index`; `SortRowsSpec` states that it permutes the rows into ascending label order |
| Frames.SortRowsLabels | algorithm_wrapper.py:97 | sorting permutes the labels |
| Frames.SortRowsKeepsRows | algorithm_wrapper.py:97 | every sorted row is an input row with its own data |
| Frames.SortRowsKeepsEveryRow | algorithm_wrapper.py:97 | every input row appears in the sorted frame |
| Frames.SortRowsDistinct | algorithm_wrapper.py:97 | unique labels stay unique and keep their rows |
| Frames.SortRowsClean | algorithm_wrapper.py:97-99 | a column holds no bad cell after sorting iff it held none before |
| Frames.SortRowsLabelClean | algorithm_wrapper.py:97-99 | no column under a label holds a bad cell after sorting iff none did before |
| Frames.DropColumnsWhere | algorithm_wrapper.py:99 | dropping columns by position keeps the rows |
| Frames.DropColumnsWhereSpec | algorithm_wrapper.py:99 | `dropna(axis=1)`: a column position survives iff none of its cells is bad, order is kept, and no bad cell is left |
| Frames.BadLabelsSpec | algorithm_wrapper.py:98 | a label is listed for dropping iff some column carrying it holds "NaN" or "NaT" (for the given test) |
| Frames.DropColumnLabels | algorithm_wrapper.py:98 | `drop(labels, 1)` keeps the rows |
| Frames.DropColumnLabelsSpec | algorithm_wrapper.py:98 | `drop(labels, 1)` keeps a label iff it was a column label and is not listed, removing every column carrying a listed label; no labels is the identity |
| Frames.PruneColumns | algorithm_wrapper.py:98-99 | pruning keeps the rows |
| Frames.PruneColumnsClean | algorithm_wrapper.py:98-99 | no cell left is null, "NaN" or "NaT" |
| Frames.PruneKeeps | algorithm_wrapper.py:98-99 | a label left after pruning has no column holding "NaN" or "NaT", and some column of it holds no null |
| Frames.PruneFinds | algorithm_wrapper.py:98-99 | a column holding no null whose label no column holding "NaN" or "NaT" carries is left after pruning |
| Frames.PruneColumnsSurvivors | algorithm_wrapper.py:98-99 | a label survives iff no column carrying it holds "NaN" or "NaT" and some column carrying it holds no null |
| Frames.PruneDropsSharedLabel | algorithm_wrapper.py:98 | a column holding no "NaN" or "NaT" is still dropped when another column with its label holds one |
| Frames.PruneColumnsDistinct | algorithm_wrapper.py:98-99 | with distinct column labels, a label survives iff its column holds no null, "NaN" or "NaT" |
| Frames.FilterLabels | algorithm_wrapper.py:94 | the list comprehension keeps exactly the labels that are among the samples |
| Frames.Loc | algorithm_wrapper.py:114 | `.loc` raises iff some labels are asked for and none is present |
| Frames.LocRowsLabels | algorithm_wrapper.py:114 | every label `.loc` yields was asked for |
| Frames.LocRows | algorithm_wrapper.py:114 | `.loc` of present or absent labels; `LocRowsLabels` and `LocRowsDistinct` state which rows it yields |
| Frames.LocRowsDistinct | algorithm_wrapper.py:114 | with unique labels, `.loc` yields one row per requested label, in order: its row or nulls |
| Frames.RestrictToSamplesSpec | algorithm_wrapper.py:93-95 | with unique labels, the restriction keeps exactly the rows among the samples, in order, with their own data; requested samples that are absent are ignored |
| Frames.RestrictToSamples | algorithm_wrapper.py:93-95 | the sample restriction; its own contract keeps the frame well shaped, and `RestrictToSamplesSpec` states which rows are kept |
| Frames.RestrictToAllSamples | algorithm_wrapper.py:93-95 | requesting every label changes nothing |
| Frames.DropNullRows | algorithm_wrapper.py:119 | `dropna` keeps the columns |
| Frames.DropNullRowsByLabel | algorithm_wrapper.py:117-119 | when equal labels hold equal rows, a label survives `dropna` iff it is not listed as heading a null row |
| Frames.DropNullRowsSpec | algorithm_wrapper.py:117-119 | no null is left; a label survives iff it heads a complete row; the listed labels are those heading a row with a null; order is kept |
| Frames.NullRowLabels | algorithm_wrapper.py:117-118 | the labels of rows holding a null; `DropNullRowsSpec` states which labels these are |
| Frames.DropLabels | algorithm_wrapper.py:135-136 | dropping labels keeps the columns |
| Frames.DropLabelsSpec | algorithm_wrapper.py:135-136 | exactly the rows under the labels are removed; order and uniqueness are kept; no labels is the identity |
| Frames.DropLabelsRows | algorithm_wrapper.py:135-136 | a label survives iff it was present and not dropped |
| Frames.DropAbsentLabels | algorithm_wrapper.py:130-131 | dropping labels that no row carries is the identity |
| Frames.SelectColumns | distance_wrapper.py:51-52 | `df[labels]` raises iff some label is not a column, and keeps the rows |
| Frames.SelectColumnsSpec | distance_wrapper.py:51-52 | selecting existing unique columns yields exactly those columns in the requested order |
| Json.IntTextRoundTrip | smoker.py:170-172 | reading `str(n)` back gives `n`; it starts with "-" iff `n` is negative, and the rest is a non-empty run of digits with no leading zero unless `n` is 0 |
| Json.Strings | flask_app.py:25 | a list of names becomes a JSON list whose item `i` is the `i`-th name |
| Numerics.ToList | pca_wrapper.py:57 | `tolist` gives a row per matrix row holding its cells |
| Numerics.Vector | pca_wrapper.py:60 | `tolist` of a vector gives a list whose item `i` is the `i`-th value |
| Numerics.Transpose | pca_wrapper.py:58 | transposition swaps the dimensions and the indices of each cell |
| Numerics.TransposeTwice | pca_wrapper.py:58 | transposing twice is the identity |
| Numerics.TransposeAllNaN | pca_wrapper.py:58 | transposing does not change whether all entries are NaN |
| Numerics.Slice | distance_wrapper.py:56 | the slice has numpy's clamped dimensions and the cells of the source offset by the start row |
| Order.SortedSetSpec | flask_app.py:23 | `sorted` of a set of keys is ascending, duplicate-free, with the same members |
| Order.SortedSetOfSorted | flask_app.py:23 | sorting a sorted duplicate-free list gives it back |
| Order.SortedUnique | flask_app.py:23 | two sorted duplicate-free lists with the same members are equal |
| Order.SortByPermutes | algorithm_wrapper.py:97 | the sort is a permutation |
| Order.SortBySorted | algorithm_wrapper.py:97 | the sort's result is ascending by key |
| Pca.InputParameters | pca_wrapper.py:17-21 | the expected keys are sorted, distinct, and exactly the five PCA parameters |
| Pca.InputParametersUnique | pca_wrapper.py:20-21 | `sorted` has only this result on those keys |
| Pca.RunSpecSkips | pca_wrapper.py:31-33 | a set error skips the fit and is reported as the reason; otherwise the warnings are those collected during the fit |
| Pca.RunSpecOutcomes | pca_wrapper.py:25-68 | a reason iff the error ends set, and then the response is exactly the base plus that reason; a raising fit gives exactly the base plus its message, and all-NaN scores the base plus the NaN reason, with the fit's warnings; "warning" iff no error and some warning was collected; an exception escapes only without an error; dataType `PCA` and the request's disease |
| Pca.BaseFields | pca_wrapper.py:45-53 | the base object has no reason or warning, dataType `PCA` and the disease |
| Pca.Base | pca_wrapper.py:45-53 | the base response; `BaseFields` states its entries |
| Pca.Finish | pca_wrapper.py:42-63 | the NaN check and the response; `FinishOutcomes` and `RunSpecSuccess` state its outcomes |
| Pca.RunSpec | pca_wrapper.py:25-68 | `run_algorithm` on values; `RunSpecSkips`, `RunSpecOutcomes` and `RunSpecSuccess` state its outcomes |
| Pca.FinishOutcomes | pca_wrapper.py:42-63 | the warnings are kept; a set error gives exactly the base plus that reason; with no error and all-NaN scores the error becomes the NaN message and is the only addition; the outcome properties of `RunSpecOutcomes`, for any fit result |
| Pca.RunSpecUnbound | pca_wrapper.py:35-42 | a fit raising with an empty message leaves `scores` unbound, and the NaN check raises `UnboundLocalError` |
| Pca.RunSpecSuccess | pca_wrapper.py:56-61 | with no error and scores not all NaN, scores are listed under the sample labels and loadings under the gene labels, in order, with no reason |
| Pca.LoadingsAsWrittenRaise | pca_wrapper.py:58-59 | as written, passing `False` as `m` makes the loadings call raise for every fit |
| Pca.RunAlgorithm | pca_wrapper.py:25-68 | the run leaves the error, warnings and result of `RunSpec` and restores the handler; the frames are unchanged |
| Plsr.InputParameters | plsr_wrapper.py:17-21 | the expected keys are sorted, distinct, and exactly the seven PLSR parameters |
| Plsr.InputParametersUnique | plsr_wrapper.py:19-21 | `sorted` has only this result on those keys |
| Plsr.Labelled | plsr_wrapper.py:59-65 | a missing `clin_df` is an `AttributeError`; otherwise the call succeeds iff `display_result` does and returns its list |
| Plsr.Payload | plsr_wrapper.py:59-65 | the results object has exactly the five result keys |
| Plsr.RunSpecSkips | plsr_wrapper.py:31-37 | a set error is the reason; with no clinical frame the fit's lookup of `clin_df` fails and becomes the reason; otherwise the warnings are those collected |
| Plsr.RunSpecOutcomes | plsr_wrapper.py:25-73 | a reason iff the error ends set, and then the response is exactly the base plus that reason; with a clinical frame, a raising fit gives exactly the base plus its message, and all-NaN x-scores the base plus the NaN reason, with the fit's warnings; "warning" iff no error and some warning was collected; an exception escapes only without an error; dataType `PLSR` and the disease |
| Plsr.BaseFields | plsr_wrapper.py:44-55 | the base object has no reason or warning, dataType `PLSR` and the disease |
| Plsr.Base | plsr_wrapper.py:44-55 | the base response; `BaseFields` states its entries |
| Plsr.FitCall | plsr_wrapper.py:35 | the fit call, whose lookup of `clin_df` raises without a clinical frame; `RunSpecSkips` states the outcome |
| Plsr.Finish | plsr_wrapper.py:41-68 | the NaN check and the response; `FinishOutcomes` and `RunSpecSuccess` state its outcomes |
| Plsr.RunSpec | plsr_wrapper.py:25-73 | `run_algorithm` on values; `RunSpecSkips`, `RunSpecOutcomes` and `RunSpecSuccess` state its outcomes |
| Plsr.FinishOutcomes | plsr_wrapper.py:41-68 | the warnings are kept; a set error gives exactly the base plus that reason; with no error and all-NaN x-scores the error becomes the NaN message and is the only addition; the outcome properties of `RunSpecOutcomes`, for any fit result |
| Plsr.PayloadSuccess | plsr_wrapper.py:59-65 | with results of the expected shapes every call succeeds and labels row `i` with the `i`-th sample or gene or feature |
| Plsr.RunSpecSuccess | plsr_wrapper.py:56-68 | with no error, a clinical frame and well-shaped results, the response is the base plus every result plus the warnings, with no reason |
| Plsr.LoadingsAsWrittenRaise | plsr_wrapper.py:61-62 | as written, passing `False` as `m` makes the x-loadings call raise for every fit |
| Plsr.Label | plsr_wrapper.py:59-65 | one `display_result` call computes `Labelled` |
| Plsr.RunAlgorithm | plsr_wrapper.py:25-73 | the run leaves the error, warnings and result of `RunSpec` and restores the handler; the frames are unchanged |
| RecordStore.FindMolecular | algorithm_wrapper.py:66-75 | with no query every record is found, otherwise exactly those whose id is listed |
| RecordStore.FindAllGenes | algorithm_wrapper.py:66-75 | a gene list naming every record finds what no query finds |
| RecordStore.GetDataFrame | algorithm_wrapper.py:228-251 | a fetched frame is well shaped |
| RecordStore.GetDataFrameSpec | algorithm_wrapper.py:228-251 | fetching fails iff building the cursor's frame does; a fetched frame has ascending labels that permute the first record's `m`, and the record ids as columns |
| RecordStore.FindClinical | algorithm_wrapper.py:312-319 | with no query every record is found, otherwise exactly those whose patient is listed |
| SampleMaps.Keys | algorithm_wrapper.py:320 | the keys of the map, in iteration order |
| SampleMaps.Lookup | algorithm_wrapper.py:313 | `m[k]` fails iff no entry has key `k`, and otherwise gives an entry's value |
| SampleMaps.LookupEntry | algorithm_wrapper.py:313 | in a dict, looking up an entry's key gives its value |
| SampleMaps.InvertDomain | algorithm_wrapper.py:320 | a patient is a key of the inverse iff some entry maps a sample to it |
| SampleMaps.InvertLast | algorithm_wrapper.py:320 | the inverse maps a patient to the sample of the last entry naming it |
| SampleMaps.InvertRoundTrip | algorithm_wrapper.py:320 | for an injective dict, the inverse undoes the lookup in both directions |
| SampleMaps.InvertDropsEarlier | algorithm_wrapper.py:320 | of two samples of one patient, the inverse keeps only the later |
| SampleMaps.InvertSound | algorithm_wrapper.py:320 | every pair of the inverse comes from an entry of the map |
| SampleMaps.InvertLookup | algorithm_wrapper.py:320 | in a dict, looking up the sample the inverse gives yields the patient back |
| Shaping.MValue | algorithm_wrapper.py:299-300 | the `m` value fails iff a bool was passed |
| Shaping.DisplayResult | algorithm_wrapper.py:265-304 | the method returns or raises what `DisplaySpec` says |
| Shaping.DisplaySpecProperties | algorithm_wrapper.py:293-304 | fails iff the label count differs from the input rows (AssertionError) or `m` is a bool; otherwise entry `i` has exactly `id`, `d`, `m`: the `i`-th label, the `i`-th row, and the same `m` |
| Shaping.DisplaySpec | algorithm_wrapper.py:265-304 | `display_result` on values; `DisplaySpecProperties` states its outcomes |
| Shaping.DisplayFlagRaises | algorithm_wrapper.py:298-300 | a bool `m` always raises: an AssertionError on a length mismatch, a TypeError otherwise |
| Shaping.GetProjection | algorithm_wrapper.py:256-263 | None iff the list is missing or empty; otherwise every item and only those map to 1 |
| Smoker.SummaryFailSticks | smoker.py:166-175 | once a key raises, the rest of the summary raises the same |
| Smoker.Summary | smoker.py:162-175 | the buffered loop computes `SummarySpec` |
| Smoker.SummarySpec | smoker.py:162-175 | `summary` on values; `SummaryRaises` and `SummaryEnding` state its outcomes |
| Smoker.Part | smoker.py:167-174 | one turn of the loop; `PartFails` and `PartShape` state what it writes |
| Smoker.Len | smoker.py:170 | `len` of a JSON value, an error for numbers, booleans and None; `PartFails` states when it fails |
| Smoker.PartFails | smoker.py:169-172 | only `genes` and `samples` can raise, and only for want of a length |
| Smoker.SummaryRaises | smoker.py:162-175 | the summary raises iff a `genes` or `samples` value has no length, with the error of the first one |
| Smoker.SummaryOnlyReadsKeys | smoker.py:164-167 | objects agreeing on the five keys summarise alike |
| Smoker.PartShape | smoker.py:167-174 | a key before the last writes nothing when absent and a piece ending in ", " when present |
| Smoker.SummaryFromTrailing | smoker.py:166-174 | before the last key the text is non-empty iff some key was present, and then ends in ", " |
| Smoker.SummaryEnding | smoker.py:162-175 | without `n_components` a non-empty summary ends in ", "; with it, the summary ends in its value; it is empty iff no key is present |
| Smoker.SuccessOfFailedPca | smoker.py:177-180 | a PCA run that starts with an error reports exactly that error and no warnings |
| Smoker.SuccessOfClean | smoker.py:177-180 | a response with neither entry reads "errors: none, warnings? none" |
| Smoker.SuccessLine | smoker.py:177-180 | the verdict line; `SuccessOfFailedPca` and `SuccessOfClean` state what it reads |
| Smoker.FirstField | smoker.py:69-71 | `split("_")[0]` is a prefix with no underscore that ends at the first underscore or the end |
| Smoker.FirstFieldOfName | smoker.py:69-71 | the disease of `d + "_samplemap"` is `d` |
| Smoker.Named | smoker.py:65-71 | a listed disease starts a collection with the suffix, followed by "_" |
| Smoker.PrunedDiseasesSpec | smoker.py:65-73 | a pruned disease has both a samplemap and a dashboard collection; a name with both is pruned |
| Smoker.PrunedDiseases | smoker.py:65-73 | the diseases with both collections; `PrunedDiseasesSpec` states it |
| Smoker.Remap | smoker.py:118-126 | a missing samplemap document fails on `.items()`; otherwise the remap over the inverted map |
| Smoker.RemapConcat | smoker.py:120-126 | remapping a concatenation remaps the parts in order |
| Smoker.RemapOne | smoker.py:121-125 | a patient is replaced by its sample or dropped with a warning |
| Smoker.RemapCount | smoker.py:120-126 | every patient is kept or logged, once |
| Smoker.RemapMembers | smoker.py:120-126 | each kept sample is a sampled patient's image; each mapped patient's sample is kept and each unmapped patient logged |
| Smoker.RemapSpec | smoker.py:120-126 | the remapping loop on values; `RemapCount`, `RemapMembers` and `RemapRoundTrip` state its outcomes |
| Smoker.RemapRoundTrip | smoker.py:118-126 | looking a kept sample up in the samplemap gives back a sampled patient |
| Smoker.FilterParams | smoker.py:156-158 | keeps exactly the keys that are input parameters, with their values |
| Smoker.SmokeKeysCover | smoker.py:150-158 | the smoker's keys include every PCA and PLSR parameter |
| Smoker.SmokeRejected | smoker.py:150-158 | no subset of the smoker's keys is admitted by the distance endpoint |
| Smoker.SmokeAdmission | smoker.py:150-158 | filtered, the smoker's object is admitted iff the endpoint is not distance, and as written the admitted ones fail to bind |

## Left out

- Database access, the Mongo connection and `init_db` are left out. The store is a value (`RecordStore.Store`) and a missing collection reads as empty.
- The `_id` field of sample-map documents is left out. A sample map is its list of sample-to-patient entries.
- Floating point is left out. A numeric result is NaN or a finite real (`Json.Scalar`), and clinical cells are null, text or a real.
- The numeric routines (scikit-learn PCA and PLS regression, numpy `corrcoef`) are left out. Each is a parameter giving its warnings and its arrays or its exception.
- JSON serialisation, `jsonify`, Flask's request parsing and the HTTP 500 answer to an uncaught exception are left out. The latter is `FlaskApp.Uncaught`.
- FlaskApp.BindAsWritten: the `TypeError` message does not name the offending keyword.
- Smoker.Summary: values written with `str` are limited to None, booleans, integers, strings and lists of those (`Printable`), because the model defines `str` only for these.
- `Json.Repr` does not reproduce Python's choice between single and double quotes for strings containing quotes.
- The model assumes the pandas 0.2x behaviour of `DataFrame.append` and `.loc` with missing labels.
- The process-wide warning handler is modelled for one request at a time. Concurrent requests sharing it are left out.
- Printing, `sys.stdout.flush`, timing (`datetime.now`) and the `WRAPPER_DEBUG` debugger hook are left out. They do not change the results.
- The `parallelize` path of `get_data_frame` is left out, as are `cursor_get_ids` and `cursor_to_data_frame`. They are not on the path the wrappers take.
- The projection argument of `get_data_frame` is left out, since it is always None.
- `distance-wrapper.py` is not part of this model. It is a second copy of the distance wrapper.
- The smoker's random choices (`random.choice`, `randint`, `sample`), `get_random_documents`, `main` and `doit` are left out. Their outcomes are parameters: the sampled patients, the collection names and the object handed to `FilterParams`.
- A summary's text written before an exception is left out. Only the exception is modelled.
- `entrypoint` and the `main` functions of the wrappers read a file and print, and are left out.
- The abstract `get_algorithm_name` and `get_default_input_file`, and the distance wrapper's overrides of them, are left out. Only `main` of the smoker uses them.
- Frames.SortRows: pandas' default `sort_index` is not stable, so the order among rows with equal labels is unspecified. The model sorts stably, and its contracts promise only ascending labels and a permutation of the rows.
- `Params` is typed: a request value of the wrong JSON type is not modelled, except a null gene list or molecular collection. Those fail with the messages of Python's `len` and of pymongo's collection lookup.
- Python's `sorted` on a list with duplicates is not modelled. Every list it sorts here is a set of distinct names.

## Findings

| source | as written | input that shows it | evidently intended | confidence | as-written member | corrected member |
|---|---|---|---|---|---|---|
| algorithm_wrapper.py:130-131 | drops from the clinical frame the labels in `mol_rows_to_drop`, a name that is never bound | any request naming a clinical collection, such as a PLSR request whose `clinical_collection` is not empty | drop nothing more from the clinical frame: its null rows were already dropped at line 119 | high; not executed | AlgorithmWrapper.DropMolRowsAsWritten, AlgorithmWrapper.DropMolRowsAsWrittenRaises, AlgorithmWrapper.ConstructAsWritten, AlgorithmWrapper.ConstructAsWrittenRaises | AlgorithmWrapper.ClinicalStep, AlgorithmWrapper.ClinicalDropIsNoOp |
| algorithm_wrapper.py:46-60 | `__init__` takes no `disease` keyword and never sets `self.disease`, yet the PCA and PLSR endpoints require the key (pca_wrapper.py:20) and their responses read the attribute (pca_wrapper.py:45, plsr_wrapper.py:44) | a request to `/pca` with exactly the five expected keys: binding raises `TypeError`, and a wrapper built otherwise raises `AttributeError` in `run_algorithm` | the constructor accepts `disease` and the response reports it | high; not executed | AlgorithmWrapper.DiseaseNeverSet, AlgorithmWrapper.InitAttributesOfConstruct, FlaskApp.AdmittedDiseaseRaises | FlaskApp.AdmittedBinds, Pca.RunSpecOutcomes, Plsr.RunSpecOutcomes |
| pca_wrapper.py:58-59 | `display_result(..., self.mol_df, False)` passes `False` in the position of `m`, so `len(m)` raises `TypeError` (or the assertion fails first) | any successful PCA fit; likewise plsr_wrapper.py:61-65 for the loadings and coefficients | pass `row_wise=False`, labelling the loadings by the frame's columns (genes or features) | high; not executed | Pca.LoadingsAsWrittenRaise, Plsr.LoadingsAsWrittenRaise, Shaping.DisplayFlagRaises | Pca.RunSpecSuccess, Plsr.PayloadSuccess |
