# Scania truck failure prediction: decision and storage logic in Dafny

The Scania APS failure pipeline validates raw batch files of sensor readings and moves them between storage folders. It quotes the label column before loading, splits a large CSV into timestamped batch files, and trains one classifier per KMeans cluster. It then promotes the best classifier of each cluster to Production and, at prediction time, finds each cluster's model file by name and writes the predictions to one output file.

This project models that decision, string and list logic, together with the Azure container and S3 bucket operations it runs on. A container or bucket is a map from blob name to content, and the local working directory is a map from file name to content. Tables are sequences of columns of optional strings. The training and prediction variants of the validators and of the transform differ only in the folder names they use, so each is modelled once and parameterised by a folder `Layout`.

Modules, one per source file, plus three shared ones:

- `Wrappers`: `Option` and `Result`.
- `Text`: the Python string operations the source uses, such as `split`, substring search, `str(n)` and lexicographic `max`.
- `Storage`: cells, frames, blobs, storage faults and the local directory.
- `ModelUtils` (`utils/model_utils.py`): the model name, the parameter grid copy and the score-metric choice.
- `BlobStorage` (`blob_operations.py`) and `S3Storage` (`s3_operations.py`): classes `Container` and `Bucket`.
- `Promotion` (`load_production_model.py`): the per-cluster pick and the registry class `Registry`.
- `RawValidation` (`train_data_validation.py`, `pred_data_validation.py`): the three checks.
- `SplitData` (`utils/split_data.py`): the batch splitter over class `Directory`.
- `Prediction` (`prediction_from_model.py`): model lookup and the per-cluster loop.
- `DataTransform` (`data_transformation_train.py`, `data_transformation_pred.py`): class `DataFrame`.

## Model

| member | source | states |
|---|---|---|
| ModelUtils.GetModelParamGrid | utils/model_utils.py:85-94 | the grid has exactly the keys and values of `model_params[key]`; a missing key is an error |
| ModelUtils.ScoreMetric | utils/model_utils.py:152-162 | accuracy is chosen exactly when the labels are non-empty and all equal, AUC otherwise (including no labels) |
| ModelUtils.SingleLabel | utils/model_utils.py:152 | `len(test_y.unique()) == 1` holds exactly when the labels are non-empty and all equal |
| ModelUtils.ModelScore | utils/model_utils.py:144-178 | the score is accuracy, or AUC, of the labels against the model's predictions, following the metric choice |
| BlobStorage.ModelFileName | scania/blob_storage_operations/blob_operations.py:1020-1026 | `KMeans` gets `name + format`; every other model gets `name + str(idx) + format` |
| BlobStorage.ModelFileNamesDistinct | scania/blob_storage_operations/blob_operations.py:1020-1026 | two different cluster indices give two different file names for the same non-KMeans model |
| BlobStorage.LoadPathWithSlash | scania/blob_storage_operations/blob_operations.py:947-953 | the load path meets the save path only when the directory given to `load_model` already ends in `/`, or there is none |
| BlobStorage.LoadPathSameDir | scania/blob_storage_operations/blob_operations.py:947-953 | loading with the same directory string the model was saved under never finds the saved blob |
| BlobStorage.ModelAt | scania/blob_storage_operations/blob_operations.py:947-975 | a load succeeds exactly when the path holds a pickled model, and returns that model |
| BlobStorage.SaveThenLoad | scania/blob_storage_operations/blob_operations.py:1020-1059 | a model saved under a directory loads back unchanged through the slash-ended directory and its stem |
| BlobStorage.Container.DeleteFile | scania/blob_storage_operations/blob_operations.py:339-380 | removes exactly that blob; a missing blob is a not-found error and changes nothing |
| BlobStorage.Container.UploadFile | scania/blob_storage_operations/blob_operations.py:269-321 | with `replace` an existing blob is deleted, then the local content is uploaded; without it nothing is uploaded; `remove` deletes the local file in both cases |
| BlobStorage.Container.UploadDfAsCsv | scania/blob_storage_operations/blob_operations.py:1152-1165 | the frame ends under the blob name and the temporary local file is gone |
| BlobStorage.Container.GetFilesFromFolder | scania/blob_storage_operations/blob_operations.py:624-628 | lists every blob whose name starts with `folder + "/"`, each once and nothing else |
| BlobStorage.Container.ReadCsv | scania/blob_storage_operations/blob_operations.py:714-745 | succeeds exactly when the blob exists and holds a table, and returns that table |
| BlobStorage.Container.ReadCsvFromFolder | scania/blob_storage_operations/blob_operations.py:675-687 | yields (frame, full path, last `/`-segment) for every blob in the folder, each once; fails only if some blob there is not a table |
| BlobStorage.Container.LoadModel | scania/blob_storage_operations/blob_operations.py:947-975 | looks the model up under `dir + name + format`, with no separator added |
| BlobStorage.Container.SaveModel | scania/blob_storage_operations/blob_operations.py:1020-1059 | the pickled model ends under `dir + "/" + file` (or `file`) and the local copy is removed |
| BlobStorage.Container.DeleteFolder | scania/blob_storage_operations/blob_operations.py:1094-1107 | removes exactly the blobs listed under the folder prefix |
| BlobStorage.CopyData | scania/blob_storage_operations/blob_operations.py:814-872 | the destination gets the source's content; a missing source is an error and changes nothing |
| BlobStorage.MovedSpec | scania/blob_storage_operations/blob_operations.py:894-908 | after a move the destination holds the source's content, the source name is gone and every other blob is kept |
| BlobStorage.MoveData | scania/blob_storage_operations/blob_operations.py:894-908 | copy then delete of the source, within one container or across two |
| S3Storage.Unwrap | scania/s3_bucket_operations/s3_operations.py:769-771 | a one-element list becomes its element; any other list, empty included, is returned as it is |
| S3Storage.Bucket.FilterPrefix | scania/s3_bucket_operations/s3_operations.py:762 | lists every key with the prefix (no `/` added), each once |
| S3Storage.Bucket.GetFileObject | scania/s3_bucket_operations/s3_operations.py:762-771 | one object exactly when one key has the prefix, otherwise the full list |
| S3Storage.Bucket.CsvAt | scania/s3_bucket_operations/s3_operations.py:241-257 | reading a key succeeds exactly when it holds a table |
| S3Storage.Bucket.ReadCsv | scania/s3_bucket_operations/s3_operations.py:281-296 | with `folder`, (frame, key, last `/`-segment) for every key with the prefix, and a single match raises; without `folder`, one frame, and any count other than one raises |
| S3Storage.Bucket.PutObject | scania/s3_bucket_operations/s3_operations.py:429 | creates the folder key `folder + "/"` |
| S3Storage.Bucket.UploadFile | scania/s3_bucket_operations/s3_operations.py:476-507 | the key is overwritten with the local content; the local file is deleted only when `remove` is set |
| S3Storage.Bucket.DeleteFile | scania/s3_bucket_operations/s3_operations.py:621-624 | the key is gone; deleting a missing key is not an error |
| S3Storage.Bucket.SaveModel | scania/s3_bucket_operations/s3_operations.py:858-900 | the pickled model ends under `model_dir + "/" + file`, the local copy is removed, and the result is `"success"` |
| S3Storage.DistinctCount | scania/s3_bucket_operations/s3_operations.py:769-771 | a listing without repeats is as long as the set of matching keys, so `len(x) == 1` tests for one match |
| S3Storage.CopyData | scania/s3_bucket_operations/s3_operations.py:577-582 | the destination key gets the source's content; a missing source is an error |
| S3Storage.MoveData | scania/s3_bucket_operations/s3_operations.py:664-674 | copy to the destination, then deletion of the source key |
| Promotion.MetricColumnInjective | scania/model/load_production_model.py:68-72 | different model names give different metric columns |
| Promotion.MetricColumnsExact | scania/model/load_production_model.py:68-72 | the columns are exactly `"metrics." + m + "-best_score"` for the registered names other than `KMeans` |
| Promotion.MetricColumnsOrder | scania/model/load_production_model.py:68-72 | columns keep the registry's order |
| Promotion.ColumnMax | scania/model/load_production_model.py:79 | a column's value is logged by some run and is at least every run's value for it |
| Promotion.InsertDescending | scania/model/load_production_model.py:79 | inserting into a descending list keeps it descending and adds exactly that pair |
| Promotion.SortDescending | scania/model/load_production_model.py:79 | `sort_values(ascending=False)`: descending and a permutation of its input |
| Promotion.FirstUnlogged | scania/model/load_production_model.py:79 | finds a column that no run logged, exactly when one exists |
| Promotion.MetricsDictShape | scania/model/load_production_model.py:79-86 | the dictionary fails exactly when some column was never logged; otherwise it holds every column once with its maximum, in descending order |
| Promotion.MatchingColumns | scania/model/load_production_model.py:121-123 | keeps exactly the columns containing the token |
| Promotion.BestColumnSpec | scania/model/load_production_model.py:118-127 | the pick for cluster i is the lexicographically greatest column containing `str(i)`; with no such column `max` raises |
| Promotion.PickIgnoresScores | scania/model/load_production_model.py:121 | the pick depends on the column names only, never on their scores |
| Promotion.BestColumnsSpec | scania/model/load_production_model.py:118-127 | one pick per cluster `0..num_clusters-1`, failing exactly when some cluster has no column |
| Promotion.CollectSpec | scania/model/load_production_model.py:118-127 | the comprehension succeeds exactly when every pick does and then lists the picks in order; otherwise it raises the first failing pick's fault |
| Promotion.UncoveredFails | scania/model/load_production_model.py:118-127 | a cluster index that no registered column contains has no pick |
| Promotion.ModelNameRoundTrip | scania/model/load_production_model.py:141 | `split(".")[1].split("-")[0]` of a metric column gives the model name back when it holds neither `.` nor `-` |
| Promotion.ModelNamesOfMetricColumns | scania/model/load_production_model.py:141 | the same round trip over the whole list of picks |
| Promotion.DictOfRegistered | scania/model/load_production_model.py:68-86 | when every registered model logged its metric, the dictionary exists and its keys are exactly their metric columns |
| Promotion.WinnerOfCluster | scania/model/load_production_model.py:118-127 | a covered cluster's pick is the metric column of its name-ranked winner |
| Promotion.WinnersOfClusters | scania/model/load_production_model.py:118-127 | the same for every cluster index |
| Promotion.TopModelNamesSpec | scania/model/load_production_model.py:68-141 | the top list has one entry per cluster: the registered name of the lexicographically greatest metric column containing `str(i)` |
| Promotion.TopModelNamesFails | scania/model/load_production_model.py:118-127 | the top list exists exactly when every cluster index is contained in some column, else promotion raises |
| Promotion.WinnerUnique | scania/model/load_production_model.py:118-127 | each cluster has at most one winner |
| Promotion.ContainsInColumn | scania/model/load_production_model.py:123 | a name containing the token gives a column containing it |
| Promotion.ColumnsOrderedAt | scania/model/load_production_model.py:119 | columns order as their model names do at the first difference |
| Promotion.ExtendedNameSortsLater | scania/model/load_production_model.py:119 | `X1` ranks below `X10` as a column name |
| Promotion.TenColumnContains | scania/model/load_production_model.py:123 | the column of `X10` contains both `"0"` and `"1"` |
| Promotion.OneColumnLacksZero | scania/model/load_production_model.py:123 | the column of `X1` does not contain `"0"` |
| Promotion.SubstringMatchHazard | scania/model/load_production_model.py:118-182 | with models `X1` and `X10` and two clusters, `X10` wins both and `X1` goes to Staging |
| Promotion.HazardTop | scania/model/load_production_model.py:118-141 | with models `X1` and `X10` and two clusters, the top list is `[X10, X10]` |
| Promotion.HazardPremises | scania/model/load_production_model.py:118-141 | the hazard's registry meets the conditions of the selection property |
| Promotion.TwoWinners | scania/model/load_production_model.py:118-141 | when one model wins both clusters, the top list names it twice |
| Promotion.TenWinsBoth | scania/model/load_production_model.py:118-127 | substring matching lets `X10` win clusters 0 and 1 |
| Promotion.NameRankingCounterexample | scania/model/load_production_model.py:118-127 | of two matching columns the later name wins, whatever the scores |
| Promotion.NameRankingExample | scania/model/load_production_model.py:118-127 | a column scored 0.3 beats one scored 0.9 |
| Promotion.BestScoringColumn | scania/model/load_production_model.py:118-127 | corrected pick: a matching column of highest score; fails exactly when none matches |
| Promotion.HighestMatching | scania/model/load_production_model.py:118-127 | finds a highest-scored entry containing the token, exactly when one exists |
| Promotion.BestScoringColumnPrefersScore | scania/model/load_production_model.py:118-127 | in the corrected pick the higher score wins |
| Promotion.BestScoringColumns | scania/model/load_production_model.py:118-127 | corrected picks, one per cluster, failing exactly when some cluster has no column |
| Promotion.ScoreWinnerOfCluster | scania/model/load_production_model.py:118-127 | a covered cluster's corrected pick is the column of a best-scoring model |
| Promotion.ScoreWinnersOfClusters | scania/model/load_production_model.py:118-127 | the same for every cluster |
| Promotion.TopModelNamesByScoreSpec | scania/model/load_production_model.py:68-141 | corrected top list: one entry per cluster, a registered model of highest maximum score among those whose column contains `str(i)` |
| Promotion.StageForSpec | scania/model/load_production_model.py:157-182 | Production exactly for a top name or `KMeans`, Staging for every other name |
| Promotion.Transitions | scania/model/load_production_model.py:155-182 | one transition per visited version |
| Promotion.VersionsComplete | scania/model/load_production_model.py:155-156 | the loops visit every latest version of every registered model and nothing else |
| Promotion.OneTransitionPerVersion | scania/model/load_production_model.py:155-182 | the k-th transition is for the k-th version, to the stage its name calls for |
| Promotion.ApplyTransitions | scania/model/load_production_model.py:155-182 | afterwards each visited version is at the stage its name calls for, and every other registry entry is unchanged |
| Promotion.ApplyKeys | scania/model/load_production_model.py:155-182 | afterwards the registry knows exactly its earlier entries plus the visited versions |
| Promotion.ApplySets | scania/model/load_production_model.py:155-182 | each visited version ends at the stage its name calls for |
| Promotion.ApplyKeeps | scania/model/load_production_model.py:155-182 | an entry that no visited version names keeps its stage |
| Promotion.PromotionIdempotent | scania/model/load_production_model.py:155-182 | promoting twice on unchanged data gives the same stages as promoting once |
| Promotion.ApplyAppend | scania/model/load_production_model.py:158-182 | one more transition changes only its own version's stage |
| Promotion.VersionsAppend | scania/model/load_production_model.py:155-156 | the visiting order is results-major, versions-minor |
| Promotion.TransitionsAppend | scania/model/load_production_model.py:155-182 | the transitions of a further registered model follow those before it |
| Promotion.Registry.TransitionModel | scania/model/load_production_model.py:158-182 | one transition sets that version's stage and nothing else |
| Promotion.Registry.TransitionAll | scania/model/load_production_model.py:155-182 | the nested loops issue exactly the transitions above, in order, and leave the registry at their effect |
| Promotion.Registry.LoadProductionModelByName | scania/model/load_production_model.py:66-202 | as written: computes the name-ranked top list; on any fault raises before the registry is touched, otherwise applies every transition |
| Promotion.Registry.LoadProductionModel | scania/model/load_production_model.py:66-202 | corrected: the same with the score-based top list, so each cluster's best-scoring model is promoted |
| RawValidation.FirstCsvMatch | scania/raw_data_validation/train_data_validation.py:229 | finds the first position where the regex `.csv` matches |
| RawValidation.BeforeCsv | scania/raw_data_validation/train_data_validation.py:229 | piece 0 of `re.split(".csv", name)` is the longest prefix before any match |
| RawValidation.BeforeCsvOfStem | scania/raw_data_validation/train_data_validation.py:229 | for a stem without `c`, piece 0 of `stem + ".csv"` is the stem |
| RawValidation.NameParts | scania/raw_data_validation/train_data_validation.py:229-231 | the `_`-split of piece 0 has at least one part |
| RawValidation.SecondSegment | scania/raw_data_validation/train_data_validation.py:207 | `f.split("/")[1]` of a path with a `/` contains no `/` |
| RawValidation.SecondSegmentOfListed | scania/raw_data_validation/train_data_validation.py:207 | the second segment of `raw_dir + "/" + name` is `name` |
| RawValidation.NameRouteSpec | scania/raw_data_validation/train_data_validation.py:216-272 | a matching name with too few `_`-parts raises; otherwise the file goes to `good/name` exactly when the regex and both stamp lengths pass, else to `bad/name` |
| RawValidation.DirsDiffer | scania/raw_data_validation/train_data_validation.py:216-220 | different folders give different paths for the same name |
| RawValidation.CopyRoutedSpec | scania/raw_data_validation/train_data_validation.py:215-272 | when every name routes, every raw file's content reaches its destination and every other blob is kept |
| RawValidation.RouteDeterminesRaw | scania/raw_data_validation/train_data_validation.py:216-220 | two raw names with the same destination are the same name |
| RawValidation.ValidateRawFileName | scania/raw_data_validation/train_data_validation.py:179-289 | lists the raw folder and copies each file in listing order to its route; a raising name stops the run |
| RawValidation.RawCheckSpec | scania/raw_data_validation/pred_data_validation.py:207-272 | each listed raw file is copied to exactly one of the good and bad folders, the good one exactly when its name passes |
| RawValidation.Bases | scania/raw_data_validation/train_data_validation.py:207 | the base names are the second segments of the listed paths, in order |
| RawValidation.PrefixStops | scania/raw_data_validation/train_data_validation.py:282-289 | once a file raises, later files are not copied |
| RawValidation.RunSpec | scania/raw_data_validation/train_data_validation.py:317-341 | when sources and destinations are apart, every action takes effect and every unwritten blob is kept |
| RawValidation.RunLocal | scania/raw_data_validation/train_data_validation.py:416-423 | the local files left after a check are the starting ones minus the uploaded temporaries |
| RawValidation.SeparatePrefix | scania/raw_data_validation/train_data_validation.py:317-341 | separation of sources and destinations holds for every prefix of the listing |
| RawValidation.LastUnwritten | scania/raw_data_validation/train_data_validation.py:317-341 | the last listed file is not overwritten by the earlier ones |
| RawValidation.StepSpec | scania/raw_data_validation/train_data_validation.py:317-341 | one more listed file keeps the effects of the earlier ones |
| RawValidation.StepEffects | scania/raw_data_validation/train_data_validation.py:317-341 | after one more file, every listed file, that one included, ends as its action says |
| RawValidation.RunExtend | scania/raw_data_validation/train_data_validation.py:317-341 | the run over one more file is the run so far followed by that file's step |
| RawValidation.StepLast | scania/raw_data_validation/train_data_validation.py:324-338 | a file's own move, upload or keep takes effect on it |
| RawValidation.StepOther | scania/raw_data_validation/train_data_validation.py:329-335 | a move or upload leaves every other name as it was |
| RawValidation.RunStops | scania/raw_data_validation/train_data_validation.py:351-358 | once a move raises, nothing after it happens |
| RawValidation.DirsApart | scania/raw_data_validation/train_data_validation.py:329 | paths in two different slash-free folders never collide |
| RawValidation.SameDirApart | scania/raw_data_validation/train_data_validation.py:400 | different names in one folder never collide |
| RawValidation.ListingOfFolder | scania/raw_data_validation/train_data_validation.py:310-322 | the entries read from the good folder are its listing |
| RawValidation.ListedNotWritten | scania/raw_data_validation/train_data_validation.py:329-335 | no move or upload overwrites a listed file still to be read |
| RawValidation.ColumnActions | scania/raw_data_validation/train_data_validation.py:324-341 | one action per listed file |
| RawValidation.ValidateColLength | scania/raw_data_validation/train_data_validation.py:291-358 | reads the good folder, then applies the column check to it; a read failure changes nothing |
| RawValidation.MoveWrongWidth | scania/raw_data_validation/train_data_validation.py:317-341 | the loop's effect is the column-check run over the entries |
| RawValidation.ColumnCheckSpec | scania/raw_data_validation/pred_data_validation.py:324-338 | a `.csv` file whose width differs moves to `bad/name`; every other file stays where it is |
| RawValidation.FindEmptyColumn | scania/raw_data_validation/train_data_validation.py:394-411 | the counting loop with its `break` reports exactly whether some column is entirely missing |
| RawValidation.MissingActions | scania/raw_data_validation/train_data_validation.py:393-426 | one action per listed file |
| RawValidation.ValidateMissingValuesInCol | scania/raw_data_validation/train_data_validation.py:360-430 | reads the good folder, then applies the missing-value check to it; a read failure changes nothing |
| RawValidation.SweepEmptyColumns | scania/raw_data_validation/train_data_validation.py:386-426 | the loop's effect on container and local files is the missing-value run over the entries |
| RawValidation.CheckMissingOne | scania/raw_data_validation/train_data_validation.py:386-426 | one table's turn: kept unless it ends in `.csv`; moved to `bad/name` when a column has no value (raising when the source is gone); otherwise re-uploaded to `good/name` through a local temporary that is then removed |
| RawValidation.MissingCheckSpec | scania/raw_data_validation/pred_data_validation.py:394-423 | a `.csv` file with an all-missing column moves once to `bad/name`; any other `.csv` file is re-uploaded to `good/name`; other files are untouched; no temporary file is left |
| RawValidation.MissingSeparate | scania/raw_data_validation/pred_data_validation.py:394-423 | with distinct names and separate folders, no move or upload lands on a listed file or on another file's destination |
| RawValidation.MissingUploaded | scania/raw_data_validation/pred_data_validation.py:394-423 | the local temporaries are exactly the `.csv` files with a value in every column |
| SplitData.StripSeparators | utils/split_data.py:31-41 | the stamp holds no separator |
| SplitData.StripSeparatorsSpec | utils/split_data.py:37 | joining separator-free pieces with `""` gives a separator-free stamp |
| SplitData.StripThreeFields | utils/split_data.py:31-41 | `"".join(s.split(sep))` of three fields joins them directly |
| SplitData.JoinThree | utils/split_data.py:37 | joining three pieces with `""` concatenates them |
| SplitData.FileNameOfClock | utils/split_data.py:31-45 | the name is `apsfailure_` + 8-digit date + `_` + 6-digit time + `.csv`, and it splits back into those three parts |
| SplitData.NamePartsOfBatchFile | utils/split_data.py:43-45 | a batch file name with digit stamps splits on `_` into `apsfailure`, the date digits and the time digits |
| SplitData.PathJoin | utils/split_data.py:47 | the path ends with the file name |
| SplitData.Directory.Create | utils/split_data.py:49 | opening a target for writing makes it an empty file |
| SplitData.Directory.WriteRow | utils/split_data.py:50-57 | a row is appended to that file only |
| SplitData.Directory.Remove | utils/split_data.py:65-66 | the file is gone and nothing else changes |
| SplitData.SplitCsv | utils/split_data.py:7-68 | `records_per_file <= 0` raises before anything is written; a source with no header raises; otherwise the files end as the batch function says |
| SplitData.OnePass | utils/split_data.py:20-66 | one outer pass writes the header and up to `r` rows, deletes the file when no row went in, and leaves the rest of the folder's evolution to the next pass |
| SplitData.LastPass | utils/split_data.py:60-66 | the pass that finds fewer than `r` rows is the last; its file stays only when it got a row |
| SplitData.NextPass | utils/split_data.py:52-68 | a pass that copies `r` rows hands the remaining rows to the next pass |
| SplitData.WriteBatch | utils/split_data.py:52-63 | the inner loop writes the header and then up to `r` rows, and reports exhaustion exactly when fewer than `r` rows remained |
| SplitData.BatchesSpec | utils/split_data.py:52-63 | the batches concatenate back to the rows; there are ceil(N / r); each is non-empty and at most `r`, and all but the last are exactly `r` |
| SplitData.DivShift | utils/split_data.py:20-68 | one more full batch adds one to the file count |
| SplitData.SplitFromBatches | utils/split_data.py:20-68 | the k-th timestamped file holds the header followed by the k-th batch |
| SplitData.DistinctTail | utils/split_data.py:43-47 | distinct timestamps for all passes stay distinct for the remaining passes |
| SplitData.StepBatches | utils/split_data.py:20-68 | one pass's file plus the later files give all the batches |
| SplitData.PassesShift | utils/split_data.py:20-68 | a full batch leaves one pass fewer |
| SplitData.SplitFromKeeps | utils/split_data.py:49-66 | files other than the targets are untouched |
| SplitData.SplitFromNoHeaderOnly | utils/split_data.py:65-66 | no kept file is header-only |
| SplitData.NoHeaderStep | utils/split_data.py:65-66 | a pass's file holds more than the header unless a later pass reopened it |
| SplitData.SplitCsvSpec | utils/split_data.py:7-68 | the kept files hold the header and the batches in creation order, with none header-only and every other file untouched |
| Prediction.DeletePredFile | scania/model/prediction_from_model.py:64-91 | the output file is deleted if it exists; otherwise nothing changes |
| Prediction.LastMatchSpec | scania/model/prediction_from_model.py:136-142 | no match exactly when no listed path contains the token; otherwise the last listed path that contains it |
| Prediction.FindCorrectModelFile | scania/model/prediction_from_model.py:110-169 | the last listed production path containing `str(cluster)`, cut at its first `.`; with no match it raises |
| Prediction.SubstringMatchTakesClusterTen | scania/model/prediction_from_model.py:138 | cluster 1 takes `XGBoost10` when it is listed after `XGBoost1` |
| Prediction.FoundNameNeverLoads | scania/model/prediction_from_model.py:144 | the found name keeps its directory, so the path `load_model` builds from it is never the one `save_model` wrote |
| Prediction.Unique | scania/model/prediction_from_model.py:215 | `unique()`: each label once, and the same labels |
| Prediction.Positions | scania/model/prediction_from_model.py:218 | exactly the rows of the cluster, in increasing order |
| Prediction.Picked | scania/model/prediction_from_model.py:218-220 | selecting rows by position keeps their order |
| Prediction.Predictions | scania/model/prediction_from_model.py:239 | one prediction per row, row by row |
| Prediction.Labels | scania/model/prediction_from_model.py:211-213 | one cluster label per row |
| Prediction.ResultFrame | scania/model/prediction_from_model.py:241-243 | columns `scania` and `prediction`, zipped up to the shorter list |
| Prediction.ClusterFrameSpec | scania/model/prediction_from_model.py:218-243 | as written: the j-th output row pairs the cluster's j-th id with the prediction for row j of the full data |
| Prediction.IntendedClusterFrameSpec | scania/model/prediction_from_model.py:218-243 | corrected: every output row is a row of the cluster paired with its own prediction, and every row of the cluster appears |
| Prediction.ClusterFrameMisaligned | scania/model/prediction_from_model.py:222 | with two rows in two clusters, cluster 1's id is paired with row 0's prediction |
| Prediction.PredictCluster | scania/model/prediction_from_model.py:218-252 | one pass returns the production folder's listing; it succeeds exactly when the last listed file containing `str(c)` exists and its name cut at the first `.` loads; the results are then built from that loaded model and overwrite the output file; a failure changes nothing |
| Prediction.PredictClusters | scania/model/prediction_from_model.py:217-252 | the loop in label order: no cluster gives no result; it succeeds exactly when every cluster's pass loads its model, and the output then holds only the last cluster's results; otherwise it stops at the first failing pass with that pass's fault, the output holding the previous pass's results (or untouched) |
| Prediction.PredictFromModel | scania/model/prediction_from_model.py:189-252 | the output is deleted first; a missing KMeans model raises; otherwise the cluster loop runs over the labels in order of first appearance with the same outcome as above (no rows: no result), uploading the source's misaligned results with `AsWritten` and the corrected ones with `Intended` |
| Prediction.OverwriteDeleted | scania/model/prediction_from_model.py:190-249 | deleting the output before overwriting it ends the same as overwriting it |
| DataTransform.CountNa | scania/data_transform/data_transformation_train.py:67 | the count is zero exactly when no cell is `"na"` |
| DataTransform.ColumnIndex | scania/data_transform/data_transformation_train.py:64 | `df["class"]` finds the first column of that name, and only fails when there is none |
| DataTransform.DataFrame.AddQuotesToString | scania/data_transform/data_transformation_train.py:64-70 | the column loop leaves the frame as the transform function says; without a `class` column it raises and changes nothing |
| DataTransform.NoNaUnchanged | scania/data_transform/data_transformation_train.py:67-70 | a column without `"na"` is left untouched |
| DataTransform.TransformSpec | scania/data_transform/data_transformation_pred.py:61-67 | names, column count and row counts are kept; every class cell x becomes `'x'`; in the other columns `"na"` becomes `"'na'"` and every other cell is unchanged |
| DataTransform.ClassNaQuotedOnce | scania/data_transform/data_transformation_pred.py:61-67 | a class value `"na"` ends as `"'na'"`, quoted once |
| DataTransform.NaPassIdempotent | scania/data_transform/data_transformation_train.py:66-70 | the `na` pass changes nothing the second time |
| DataTransform.TransformTwiceQuotesTwice | scania/data_transform/data_transformation_train.py:64 | a second run adds a second pair of quotes to every class cell |
| DataTransform.TransformNotIdempotent | scania/data_transform/data_transformation_train.py:64-70 | so the transform is not idempotent on any frame with a class cell |
| Text.SplitJoin | scania/raw_data_validation/train_data_validation.py:207 | `str.split(c)` loses nothing: joining the pieces with `c` gives the string back, and no piece holds `c` |
| Text.FirstSegmentShape | scania/model/prediction_from_model.py:144 | `split(".")[0]` is the prefix before the first `.` |
| Text.LastSegmentShape | scania/s3_bucket_operations/s3_operations.py:286 | `split("/")[-1]` is the suffix after the last `/` |
| Text.NatToStringInjective | scania/model/load_production_model.py:123 | different cluster indices give different `str(i)` |
| Text.MaxString | scania/model/load_production_model.py:119-125 | `max` of a list of names is a member that every member ranks below |
| Text.MaxStringBySet | scania/model/load_production_model.py:119-125 | `max` depends only on which names are present |

## Left out

- I/O is not modelled: the Azure and S3 SDKs, pymongo logging, the clock, `time.sleep` and the file system are maps or parameters. `split_csv` takes its timestamps as a `clock` function of the pass number.
- `pickle`, CSV and JSON formats are not modelled. A blob is a table, a model, or an empty folder marker.
- The number formatting of `str(x)` for float cells is not modelled, nor are duplicate column names, which pandas renames on read.
- The regex engine is an opaque predicate. Only whether the file name matches is used.
- AUC and accuracy are parameters. So are `kmeans.predict` and `model.predict`, which are taken to be row-wise.
- Preprocessing (imputation, dropping zero-variance columns) and `result.head().to_json()` are not modelled.
- The order in which a container or bucket lists names is left open. The model fixes only that each name appears once.
- The tracker's runs, the registered names and the registry are plain data. The mlflow calls around them are not modelled.
- Clustering, tuning, training, the FastAPI routes and the orchestration modules are not part of this model.
- RawValidation.ValidateRawFileName: requires that the raw and data containers are different objects. The source uses two different containers.
- Prediction.PredictFromModel: requires that the model and input containers are different objects. The source uses two different containers.
- RawValidation.ColumnCheckSpec: proved under three conditions:
  - the good and bad folder names contain no `/` and differ;
  - no two listed files share a last segment;
  - the listing is the folder's.

  When folders nest, a move could land on a file still to be read.
- RawValidation.MissingCheckSpec: proved under the same three conditions as the column check.
- SplitData.SplitCsvSpec: proved when the clock gives every pass a distinct file name. `datetime.now()` at one-second resolution can repeat, and then a later batch overwrites an earlier one.
- Calls that pass keyword arguments the callee does not accept are not modelled. Each would raise as written:
  - `load_file(file=...)` in `upload_file` (blob_operations.py:270-275);
  - `get_object(local_file_name=...)` (blob_operations.py:478-483, 520-525);
  - `get_blob_url(local_file_name=...)` (blob_operations.py:840-845);
  - `get_model_name(model=..., db_name=..., ...)` (model_utils.py:140-142);
  - `get_model_name(model=..., db_name=..., collection_name=...)` in `save_model` (blob_operations.py:1016-1018), so the source's `save_model` raises before it writes anything; `BlobStorage.Container.SaveModel` names the model as that call evidently means.

  Each member states what the called function's body does.
- `Model_Utils()` is constructed without the `db_name` and `collection_name` its constructor needs (blob_operations.py:23, model_utils.py:9), so constructing a `Blob_Operation` raises as written and none of its methods is reached. `BlobStorage` models what those methods do once an instance exists.
- The folder loops of the two transforms are not modelled. They index `t_pdf[3]` on a 3-tuple (data_transformation_train.py:62) and `t_pdf[idx][...]` (data_transformation_pred.py:55-59), so they raise on their first file. `DataFrame.AddQuotesToString` models the per-frame transform they mean to apply.
- The prediction loop takes a `Pairing`. `AsWritten` uploads `Prediction.ClusterFrame`, the source's misaligned pairing; `Intended` uploads `Prediction.IntendedClusterFrame`, where each id is paired with its own row's prediction; see Findings.
- `s3_operations.py` imports `app_logger` and a module-level `get_model_name` (s3_operations.py:9-10), neither of which exists: `utils/logger.py` defines the class `App_Logger`, and `get_model_name` is a method of `Model_Utils`. The import fails as written. `S3Storage` models what the bucket operations do once called, and `S3Storage.Bucket.SaveModel` names the model with `ModelUtils.ModelName`, the method the call at s3_operations.py:856 evidently means.
- `Promotion.Registry.LoadProductionModel` promotes by score, the corrected pick. `Promotion.Registry.LoadProductionModelByName` keeps the source's name-ranked pick; see Findings.
- Logging is not modelled. `exception_log` logs the error and raises it again (utils/logger.py:65-71), so a raised error ends the operation: it is a `Fail` result.

## Findings

| source | as written | input that shows it | evidently intended | confidence | as-written member | corrected member |
|---|---|---|---|---|---|---|
| scania/model/load_production_model.py:118-127 | `max` over `(file, metrics_dict[file])[0]` ranks the matching column names, not their scores | cluster 0 with `AdaBoostClassifier0` scored 0.9 and `RandomForestClassifier0` scored 0.3: the 0.3 model is promoted | each cluster's highest-scoring model is promoted | not executed | Promotion.NameRankingExample | Promotion.TopModelNamesByScoreSpec |
| scania/model/prediction_from_model.py:222 | `cluster_data = data.drop(...)` rebuilds the cluster's rows from the full data, so predictions for rows 0.. are paired with the cluster's ids | two rows, labels [0, 1]: cluster 1's id `b` is paired with the prediction for row 0 | each cluster's ids are paired with the predictions for that cluster's own rows | not executed | Prediction.ClusterFrameMisaligned | Prediction.IntendedClusterFrameSpec |
