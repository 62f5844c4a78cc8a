# Fold dataset transformations

A Dafny model of the two data-preparation scripts of an air-quality occupancy modelling project.
Each script loads the `train.csv` and `test.csv` files of one fold directory and writes a derived
CSV file beside each of them. The label is the last column of every file.

- `data_to_binary.py` rewrites every label to `1` when it is strictly greater than 0 and to `0`
  otherwise. It writes the result as `binary_class_<file>`.
- `data_to_nonempty.py` keeps exactly the rows whose label compares unequal to 0, in file order.
  It writes them as `nonempty_class_<file>`.

The model has four modules:

- `Tables` (tables.dfy): cells, rows, tables and the errors the scripts can raise. A cell is a
  number (an exact `real`), a missing value (pandas' NaN) or a string. A row is a non-empty
  sequence of cells, and its last cell is the label.
- `FoldBatch` (fold_batch.dfy): the fold directory as a class `Folder`. Its existence is fixed;
  its map from file name to table grows as outputs are written. This module also holds the
  read-transform-write step that both scripts share, and the `for file_name in files` loop over
  `train.csv` and `test.csv`. Both are written as specification functions, with lemmas about a
  whole run.
- `DataToBinary` (data_to_binary.dfy): `to_binary` and the label-column rewrite.
  `Series.map(to_binary)` is a loop over the rows (`MapToBinary`). The column assignment is an
  in-place loop over the frame's array of rows (`BinarizeLastColumn`). Then come the per-file
  function and the script's driver loop.
- `DataToNonempty` (data_to_nonempty.dfy): the boolean-mask filter as a recursive function, with
  its lemmas: subsequence, multiplicity, completeness, idempotence and the NaN rule. Then come
  the per-file function and the script's driver loop.

The model follows the code where the code and its comments disagree:

- The header comment of `data_to_binary.py` (lines 1-2) says non-zero values become 1. The code
  (lines 33-36) maps negative labels to 0. `ToBinary` follows the code.
- The header comment of `data_to_nonempty.py` (line 15) names the output `nonzero_class_`. The
  code (line 58) writes `nonempty_class_`. The model uses `nonempty_class_`.
- The scripts have no `try`/`except`. An exception on `train.csv` ends the loop before
  `test.csv` is read, and whatever was already written stays. The model keeps this: `RunFiles`
  stops at the first error. It does not model per-file isolation of failures.
- `NaN > 0` is false, so a missing label becomes 0 in the binary transform. `NaN != 0` is
  true, so a row with a missing label is kept by the filter. A string label makes `num > 0`
  raise `TypeError`, modelled as `Err(TypeError)`. `"s" != 0` is true, so the filter keeps such
  a row.

## Model

| member | source | states |
|---|---|---|
| Tables.SetLabel | scripts/data_processing/data_to_binary.py:57 | replacing a row's label keeps its width and every other cell, and the new label is the given value |
| FoldBatch.OutputName | scripts/data_processing/data_to_binary.py:60 | the output file name is the marker plus the input name; with a non-empty marker it is never the input name |
| FoldBatch.OutputNameInjective | scripts/data_processing/data_to_binary.py:60 | two different input names never give the same output name |
| FoldBatch.ReadAndTransform | scripts/data_processing/data_to_binary.py:48-51 | reading a file that is not in the folder fails with FileNotFound before any transform runs; a present file gives the transform's result on its table |
| FoldBatch.Process | scripts/data_processing/data_to_binary.py:48-61 | one read-transform-write step fails exactly when reading or transforming fails, with that error; on success the folder gains exactly the output name, holding the transformed table, and every other file is unchanged; `RunFoldTrainThenTest` states its effect within a run |
| FoldBatch.RunFiles | scripts/data_processing/data_to_binary.py:69-70 | the loop never reports a missing folder, never removes a file, and every file it adds is the output name of one of the handled files; `RunFilesOnlyWritesOutputs` states that all other names keep their tables |
| FoldBatch.RunFold | scripts/data_processing/data_to_binary.py:67-72 | the run reports the missing-folder diagnostic exactly when the folder does not exist, and then changes nothing; no file is ever removed; `RunFoldTrainThenTest` gives the full run |
| FoldBatch.RunFilesOnlyWritesOutputs | scripts/data_processing/data_to_binary.py:67-70 | across the loop, every name that is not the output of a handled file keeps its table, or stays absent |
| FoldBatch.RunFoldKeepsInputs | scripts/data_processing/data_to_binary.py:60-61 | with a non-empty marker, a run never overwrites or removes `train.csv` or `test.csv` |
| FoldBatch.RunFoldTrainThenTest | scripts/data_processing/data_to_binary.py:67-72 | a missing folder changes nothing and ends with the single diagnostic; otherwise `train.csv` is handled first; an exception on it ends the run with nothing written and `test.csv` unread; `test.csv` is read as it was before the run; each success adds exactly one output |
| DataToBinary.ToBinary | scripts/data_processing/data_to_binary.py:33-36 | the result is 0 or 1; it is 1 exactly when the label is a number strictly greater than 0, so negatives, 0 and NaN give 0; a string label raises TypeError |
| DataToBinary.BinarizeRows | scripts/data_processing/data_to_binary.py:57 | fails with TypeError exactly when some label is a string; otherwise the same number of rows in the same order, each the same width with all non-label cells unchanged, a label in {0, 1}, and a label of 1 exactly when the input label was positive |
| DataToBinary.Binarize | scripts/data_processing/data_to_binary.py:54-57 | the header is unchanged, the row count is unchanged, and a well-formed table stays well-formed; fails exactly when some label is a string |
| DataToBinary.BinarizeIdempotent | scripts/data_processing/data_to_binary.py:57 | applying the transform to its own output returns the same table |
| DataToBinary.SignExample | scripts/data_processing/data_to_binary.py:33-36 | labels -3, 0 and 4 become 0, 0 and 1 |
| DataToBinary.MapToBinary | scripts/data_processing/data_to_binary.py:57 | `map(to_binary)` over the frame yields, row by row, the binary value of each label, or TypeError exactly when some label is a string |
| DataToBinary.BinarizeLastColumn | scripts/data_processing/data_to_binary.py:57 | after the in-place column assignment the frame equals the relabelled rows; on TypeError the frame is unchanged |
| DataToBinary.ModifyCsvToBinary | scripts/data_processing/data_to_binary.py:38-62 | one read-relabel-write step: on success the folder gains `binary_class_<file>` holding the relabelled table and that name is returned; on failure the folder is unchanged and the error is the step's |
| DataToBinary.Run | scripts/data_processing/data_to_binary.py:67-72 | the folder and the outcome after the script body are those of the specified run over `train.csv` then `test.csv`, or the missing-folder diagnostic |
| DataToNonempty.IsNonzero | scripts/data_processing/data_to_nonempty.py:55 | the mask is false only for the number 0, so NaN and string labels count as nonzero; `NonzeroRowsMultiplicity` and `MissingLabelKept` state what the filter keeps through it |
| DataToNonempty.NonzeroRows | scripts/data_processing/data_to_nonempty.py:55 | every kept row has a label unequal to 0 and is a row of the input; the output is no longer than the input |
| DataToNonempty.ExtractNonzero | scripts/data_processing/data_to_nonempty.py:52-55 | the header is kept, every output row has a nonzero label, and a well-formed table stays well-formed |
| DataToNonempty.FilterStep | scripts/data_processing/data_to_nonempty.py:55 | the filter never raises and keeps the header |
| DataToNonempty.NonzeroRowsIsSubsequence | scripts/data_processing/data_to_nonempty.py:55 | the output is an order-preserving subsequence of the input, with rows unchanged |
| DataToNonempty.NonzeroRowsMultiplicity | scripts/data_processing/data_to_nonempty.py:55 | each row occurs in the output as often as in the input if its label is nonzero, and never otherwise |
| DataToNonempty.NonzeroRowsComplete | scripts/data_processing/data_to_nonempty.py:55 | every input row with a nonzero label is in the output |
| DataToNonempty.MissingLabelKept | scripts/data_processing/data_to_nonempty.py:55 | a row whose label is NaN is kept |
| DataToNonempty.NonzeroRowsKeepsAllNonzero | scripts/data_processing/data_to_nonempty.py:55 | rows whose labels are all nonzero pass the filter unchanged |
| DataToNonempty.ExtractNonzeroIdempotent | scripts/data_processing/data_to_nonempty.py:55 | filtering the output again gives the output |
| DataToNonempty.ThreeRowExample | scripts/data_processing/data_to_nonempty.py:55 | of the rows (1, 0.2, 0), (1, 0.3, 5) and (2, 0.1, 0) only (1, 0.3, 5) is kept |
| DataToNonempty.ExtractNonzeroClassRows | scripts/data_processing/data_to_nonempty.py:36-61 | one read-filter-write step: on success the folder gains `nonempty_class_<file>` holding the filtered table and that name is returned; the only failure is a missing input file, which leaves the folder unchanged |
| DataToNonempty.Run | scripts/data_processing/data_to_nonempty.py:65-70 | the folder and the outcome after the script body are those of the specified run over `train.csv` then `test.csv`, or the missing-folder diagnostic |

## Left out

- CSV parsing and writing (`pd.read_csv`, `to_csv`) are not modelled. A file is its parsed
  `Table`, and writing a file puts the table into the folder's map. Errors of the parser
  (empty or malformed files) and of the disk are not modelled. The only read error modelled is
  a missing file.
- `argparse`, the folder path template, `os.path.join`, `tqdm` and `print` are left out. The
  folder's existence is a boolean. The missing-folder message is the `FolderMissing` outcome.
  The per-file success messages are not modelled: the per-file methods return the name they
  wrote, and both `Run` methods discard it.
- Numeric dtypes are not modelled. Labels are exact reals, so the model does not distinguish
  the integer column that `to_binary` produces from a float column, and has no floating-point
  rounding. Boolean cells are not modelled.
- `scripts/data_processing/analize_dataset.py` is not part of this model. It does plotting,
  floating-point statistics and report writing.
- A group-filtered (group-tail) transformation is not part of this model, because neither
  script implements one.
