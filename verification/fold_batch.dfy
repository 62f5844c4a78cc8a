/** The part both scripts share: a fold directory holding parsed tables by file name, the
    read-transform-write step applied to one file, and the driver that applies it to
    `train.csv` and then `test.csv`, stopping at the first exception. */
module FoldBatch {
  import opened Tables

  /** The contents of a fold directory: file name to parsed table. */
  type Files = map<string, Table>

  /** The input files of a fold, in the order the driver handles them. */
  const INPUT_FILES: seq<string> := ["train.csv", "test.csv"]

  /** A fold directory. Whether it exists is fixed; the files it holds grow as outputs are written. */
  class Folder {
    const present: bool
    var files: Files

    constructor (present: bool, files: Files)
      ensures this.present == present && this.files == files
    {
      this.present := present;
      this.files := files;
    }
  }

  /** How a run of a script ends: both files handled, the single "folder does not exist"
      diagnostic, or an exception that stopped the loop. */
  datatype Outcome = Completed | FolderMissing | Raised(error: Error)

  /** The directory after a run together with how the run ended. */
  datatype Batch = Batch(files: Files, outcome: Outcome)

  /** The derived file's name: the script's marker prefix glued to the input file name, in the
      same directory. A non-empty prefix never gives back the input name. */
  function OutputName(prefix: string, name: string): (r: string)
    ensures prefix != [] ==> r != name
    ensures |r| == |prefix| + |name|
  {
    prefix + name
  }

  /** Distinct inputs get distinct outputs, so one run never writes two results to one name. */
  lemma OutputNameInjective(prefix: string, a: string, b: string)
    requires OutputName(prefix, a) == OutputName(prefix, b)
    ensures a == b
  {
    assert a == OutputName(prefix, a)[|prefix|..];
    assert b == OutputName(prefix, b)[|prefix|..];
  }

  /** Reading a file and transforming its table: a missing file raises before the transform runs,
      and a present file gives whatever the transform gives on its table. */
  function ReadAndTransform(files: Files, name: string, transform: Table -> Result<Table, Error>): (r: Result<Table, Error>)
    ensures name !in files ==> r == Err(FileNotFound(name))
    ensures name in files ==> r == transform(files[name])
  {
    if name !in files then Err(FileNotFound(name)) else transform(files[name])
  }

  /** One call of the per-file function: read, transform, and write the result under the output name. */
  function Process(files: Files, name: string, prefix: string, transform: Table -> Result<Table, Error>): (r: Result<Files, Error>)
    ensures r.Ok? <==> ReadAndTransform(files, name, transform).Ok?
    ensures r.Err? ==> r.error == ReadAndTransform(files, name, transform).error
    ensures r.Ok? ==> r.value.Keys == files.Keys + {OutputName(prefix, name)}
    ensures r.Ok? ==> r.value[OutputName(prefix, name)] == ReadAndTransform(files, name, transform).value
    ensures r.Ok? ==> forall k :: k in files && k != OutputName(prefix, name) ==> r.value[k] == files[k]
  {
    match ReadAndTransform(files, name, transform)
    case Err(e) => Err(e)
    case Ok(t) => Ok(files[OutputName(prefix, name) := t])
  }

  /** The `for file_name in files` loop: the files in order, the first exception ending the loop
      with what was already written left in place. */
  function RunFiles(files: Files, names: seq<string>, prefix: string, transform: Table -> Result<Table, Error>): (r: Batch)
    ensures !r.outcome.FolderMissing?
    ensures files.Keys <= r.files.Keys
    ensures forall k :: k in r.files && k !in files ==> exists n :: n in names && k == OutputName(prefix, n)
    decreases |names|
  {
    if names == [] then Batch(files, Completed)
    else
      var before := RunFiles(files, names[..|names| - 1], prefix, transform);
      if before.outcome.Raised? then before
      else match Process(before.files, names[|names| - 1], prefix, transform)
        case Err(e) => Batch(before.files, Raised(e))
        case Ok(after) => Batch(after, Completed)
  }

  /** A whole script run: the existence check, then the loop over the fold's two files. */
  function RunFold(present: bool, files: Files, prefix: string, transform: Table -> Result<Table, Error>): (r: Batch)
    ensures r.outcome.FolderMissing? <==> !present
    ensures !present ==> r.files == files
    ensures files.Keys <= r.files.Keys
  {
    if !present then Batch(files, FolderMissing) else RunFiles(files, INPUT_FILES, prefix, transform)
  }

  /** A name that is not the output of any handled file keeps its table, or stays absent. */
  lemma {:induction false} RunFilesOnlyWritesOutputs(files: Files, names: seq<string>, prefix: string,
                                                     transform: Table -> Result<Table, Error>, key: string)
    requires forall n :: n in names ==> key != OutputName(prefix, n)
    ensures var after := RunFiles(files, names, prefix, transform).files;
      (key in after <==> key in files) && (key in files ==> after[key] == files[key])
    decreases |names|
  {
    if names != [] {
      RunFilesOnlyWritesOutputs(files, names[..|names| - 1], prefix, transform, key);
    }
  }

  /** With a non-empty prefix, a run never overwrites or removes `train.csv` or `test.csv`. */
  lemma RunFoldKeepsInputs(present: bool, files: Files, prefix: string, transform: Table -> Result<Table, Error>, name: string)
    requires prefix != [] && name in INPUT_FILES
    ensures var after := RunFold(present, files, prefix, transform).files;
      (name in after <==> name in files) && (name in files ==> after[name] == files[name])
  {
    if present {
      forall n | n in INPUT_FILES
        ensures name != OutputName(prefix, n)
      {
        // Only a one-character prefix before "test.csv" has the length of "train.csv",
        // and then the second characters differ.
        if |prefix| == 1 && n == "test.csv" {
          assert OutputName(prefix, n)[1] == 't' != "train.csv"[1];
        }
      }
      RunFilesOnlyWritesOutputs(files, INPUT_FILES, prefix, transform, name);
    }
  }

  /** The run in full: nothing happens without the folder; otherwise `train.csv` is handled
      first and an exception on it stops the run before `test.csv` is read; `test.csv` is read
      as it was before the run, and each success writes one output file. */
  lemma RunFoldTrainThenTest(present: bool, files: Files, prefix: string, transform: Table -> Result<Table, Error>)
    ensures var b := RunFold(present, files, prefix, transform);
      var train := ReadAndTransform(files, "train.csv", transform);
      var test := ReadAndTransform(files, "test.csv", transform);
      && (!present ==> b == Batch(files, FolderMissing))
      && (present && train.Err? ==> b == Batch(files, Raised(train.error)))
      && (present && train.Ok? && test.Err? ==>
            b == Batch(files[OutputName(prefix, "train.csv") := train.value], Raised(test.error)))
      && (present && train.Ok? && test.Ok? ==>
            b == Batch(files[OutputName(prefix, "train.csv") := train.value]
                            [OutputName(prefix, "test.csv") := test.value], Completed))
  {
    if present {
      var first := RunFiles(files, ["train.csv"], prefix, transform);
      assert RunFiles(files, [], prefix, transform) == Batch(files, Completed);
      assert ["train.csv"][..0] == [];
      assert INPUT_FILES[..1] == ["train.csv"];
      if first.outcome.Completed? {
        assert "test.csv" != OutputName(prefix, "train.csv");
        assert ReadAndTransform(first.files, "test.csv", transform) == ReadAndTransform(files, "test.csv", transform);
      }
    }
  }
}
