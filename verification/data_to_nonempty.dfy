/** The nonzero row filter: keep exactly the rows whose label compares unequal to 0, in file
    order, and write them as `nonempty_class_<file>` beside the input. */
module DataToNonempty {
  import opened Tables
  import opened FoldBatch

  /** The marker the script puts in front of each input file name. */
  const PREFIX: string := "nonempty_class_"

  /** The mask `df[class_column] != 0`: true for every number other than 0, for NaN (which is
      unequal to everything) and for a string (which never equals the number 0). */
  function IsNonzero(v: Value): (b: bool)
    ensures b <==> v != Num(0.0)
    ensures v.Missing? || v.Text? ==> b
  {
    match v
    case Num(x) => x != 0.0
    case Missing => true
    case Text(_) => true
  }

  /** `xs` can be obtained from `ys` by deleting elements, keeping the order of the rest. */
  predicate IsSubsequence(xs: seq<Row>, ys: seq<Row>)
    decreases |ys|
  {
    xs == [] || (ys != [] && ((xs[0] == ys[0] && IsSubsequence(xs[1..], ys[1..])) || IsSubsequence(xs, ys[1..])))
  }

  /** `df[df[class_column] != 0]` on the rows: every row it keeps has a nonzero label and is a
      row of the input. */
  function NonzeroRows(rows: seq<Row>): (r: seq<Row>)
    ensures |r| <= |rows|
    ensures forall k :: 0 <= k < |r| ==> IsNonzero(Label(r[k])) && r[k] in rows
    decreases |rows|
  {
    if rows == [] then []
    else if IsNonzero(Label(rows[0])) then [rows[0]] + NonzeroRows(rows[1..])
    else NonzeroRows(rows[1..])
  }

  /** The filter on a whole table: the header is kept, and a well-formed table stays well-formed. */
  function ExtractNonzero(t: Table): (r: Table)
    ensures r.columns == t.columns && |r.rows| <= |t.rows|
    ensures forall k :: 0 <= k < |r.rows| ==> IsNonzero(Label(r.rows[k]))
    ensures WellFormed(t) ==> WellFormed(r)
  {
    Table(t.columns, NonzeroRows(t.rows))
  }

  /** The filter as the per-file transform of the shared driver; it cannot raise. */
  function FilterStep(t: Table): (r: Result<Table, Error>)
    ensures r.Ok? && r.value.columns == t.columns
  {
    Ok(ExtractNonzero(t))
  }

  /** The kept rows appear in the input in the same order, each unchanged. */
  lemma {:induction false} NonzeroRowsIsSubsequence(rows: seq<Row>)
    ensures IsSubsequence(NonzeroRows(rows), rows)
    decreases |rows|
  {
    if rows != [] {
      var rest := NonzeroRows(rows[1..]);
      NonzeroRowsIsSubsequence(rows[1..]);
      if IsNonzero(Label(rows[0])) {
        assert ([rows[0]] + rest)[1..] == rest;
      }
    }
  }

  /** Every row appears in the output exactly as often as in the input when its label is
      nonzero, and not at all otherwise: the output holds the nonzero-labelled input rows, each
      as many times as the input does, and nothing else. */
  lemma {:induction false} NonzeroRowsMultiplicity(rows: seq<Row>, row: Row)
    ensures multiset(NonzeroRows(rows))[row] == if IsNonzero(Label(row)) then multiset(rows)[row] else 0
    decreases |rows|
  {
    if rows != [] {
      NonzeroRowsMultiplicity(rows[1..], row);
      assert rows == [rows[0]] + rows[1..];
    }
  }

  /** Completeness: an input row with a nonzero label is in the output. */
  lemma {:induction false} NonzeroRowsComplete(rows: seq<Row>, row: Row)
    requires row in rows && IsNonzero(Label(row))
    ensures row in NonzeroRows(rows)
  {
    NonzeroRowsMultiplicity(rows, row);
  }

  /** A row whose label is missing is kept, because `NaN != 0` holds. */
  lemma {:induction false} MissingLabelKept(rows: seq<Row>, row: Row)
    requires row in rows && Label(row) == Missing
    ensures row in NonzeroRows(rows)
  {
    NonzeroRowsComplete(rows, row);
  }

  /** A table whose labels are all nonzero passes the filter unchanged. */
  lemma {:induction false} NonzeroRowsKeepsAllNonzero(rows: seq<Row>)
    requires forall k :: 0 <= k < |rows| ==> IsNonzero(Label(rows[k]))
    ensures NonzeroRows(rows) == rows
    decreases |rows|
  {
    if rows != [] {
      NonzeroRowsKeepsAllNonzero(rows[1..]);
      assert rows == [rows[0]] + rows[1..];
    }
  }

  /** Filtering the output again gives the output. */
  lemma ExtractNonzeroIdempotent(t: Table)
    ensures ExtractNonzero(ExtractNonzero(t)) == ExtractNonzero(t)
  {
    NonzeroRowsKeepsAllNonzero(NonzeroRows(t.rows));
  }

  /** Of the rows (1, 0.2, 0), (1, 0.3, 5) and (2, 0.1, 0) only the middle one is kept. */
  lemma ThreeRowExample()
    ensures var t := Table(["id", "f", "class"], [[Num(1.0), Num(0.2), Num(0.0)],
                                                  [Num(1.0), Num(0.3), Num(5.0)],
                                                  [Num(2.0), Num(0.1), Num(0.0)]]);
      ExtractNonzero(t) == Table(["id", "f", "class"], [[Num(1.0), Num(0.3), Num(5.0)]])
  {
  }

  /** `extract_nonzero_class_rows`: read the file, filter its rows and write
      `nonempty_class_<file>`; returns the name written. Exactly one call of the shared per-file step. */
  method ExtractNonzeroClassRows(folder: Folder, fileName: string) returns (res: Result<string, Error>)
    modifies folder
    ensures res.Ok? ==> Process(old(folder.files), fileName, PREFIX, FilterStep) == Ok(folder.files)
    ensures res.Ok? ==> res.value == OutputName(PREFIX, fileName)
    ensures res.Err? ==> res == Err(FileNotFound(fileName)) && fileName !in old(folder.files)
    ensures res.Err? ==> folder.files == old(folder.files)
  {
    if fileName !in folder.files {
      return Err(FileNotFound(fileName));
    }
    var kept := ExtractNonzero(folder.files[fileName]);
    var outName := OutputName(PREFIX, fileName);
    folder.files := folder.files[outName := kept];
    return Ok(outName);
  }

  /** The script body: nothing but the diagnostic when the folder is missing, otherwise
      `extract_nonzero_class_rows` on `train.csv` and then `test.csv`, an exception ending the loop. */
  method Run(folder: Folder) returns (outcome: Outcome)
    modifies folder
    ensures Batch(folder.files, outcome) == RunFold(folder.present, old(folder.files), PREFIX, FilterStep)
  {
    if !folder.present {
      return FolderMissing;
    }
    var i := 0;
    while i < |INPUT_FILES|
      invariant 0 <= i <= |INPUT_FILES|
      invariant RunFiles(old(folder.files), INPUT_FILES[..i], PREFIX, FilterStep) == Batch(folder.files, Completed)
    {
      assert INPUT_FILES[..i + 1][..i] == INPUT_FILES[..i];
      var r := ExtractNonzeroClassRows(folder, INPUT_FILES[i]);
      if r.Err? {
        return Raised(r.error);
      }
      i := i + 1;
    }
    assert INPUT_FILES[..i] == INPUT_FILES;
    return Completed;
  }
}
