/** The binary label transformer: every label becomes 1 when it is strictly positive and 0
    otherwise, and the relabelled table is written as `binary_class_<file>` beside the input. */
module DataToBinary {
  import opened Tables
  import opened FoldBatch

  /** The marker the script puts in front of each input file name. */
  const PREFIX: string := "binary_class_"

  /** The two labels the transformer produces. */
  predicate IsBinary(v: Value) {
    v == Num(0.0) || v == Num(1.0)
  }

  /** `to_binary`: 1 exactly when the label is strictly greater than 0, so 0, negative numbers and
      NaN (for which `NaN > 0` is false) all give 0; comparing a string with 0 raises TypeError. */
  function ToBinary(v: Value): (r: Result<Value, Error>)
    ensures r.Ok? <==> !v.Text?
    ensures r.Err? ==> r.error == TypeError
    ensures r.Ok? ==> IsBinary(r.value)
    ensures r.Ok? ==> (r.value == Num(1.0) <==> v.Num? && v.x > 0.0)
    ensures v.Missing? ==> r == Ok(Num(0.0))
  {
    match v
    case Num(x) => if x > 0.0 then Ok(Num(1.0)) else Ok(Num(0.0))
    case Missing => Ok(Num(0.0))
    case Text(_) => Err(TypeError)
  }

  /** True when some label of the rows is a string, on which `to_binary` raises. */
  predicate HasTextLabel(rows: seq<Row>) {
    exists k :: 0 <= k < |rows| && Label(rows[k]).Text?
  }

  /** The rows after `df[last_column] = df[last_column].map(to_binary)`. The column is mapped as a
      whole before it is assigned, so one string label fails the statement and changes nothing. */
  function BinarizeRows(rows: seq<Row>): (r: Result<seq<Row>, Error>)
    ensures r.Ok? <==> !HasTextLabel(rows)
    ensures r.Err? ==> r.error == TypeError
    ensures r.Ok? ==> |r.value| == |rows|
    ensures r.Ok? ==> forall k :: 0 <= k < |rows| ==>
      && |r.value[k]| == |rows[k]|
      && Features(r.value[k]) == Features(rows[k])
      && IsBinary(Label(r.value[k]))
      && (Label(r.value[k]) == Num(1.0) <==> Label(rows[k]).Num? && Label(rows[k]).x > 0.0)
  {
    if HasTextLabel(rows) then Err(TypeError)
    else Ok(seq(|rows|, k requires 0 <= k < |rows| => SetLabel(rows[k], ToBinary(Label(rows[k])).value)))
  }

  /** The transform on a whole table: the header is kept, and so is the shape of every row. */
  function Binarize(t: Table): (r: Result<Table, Error>)
    ensures r.Ok? <==> !HasTextLabel(t.rows)
    ensures r.Err? ==> r.error == TypeError
    ensures r.Ok? ==> r.value.columns == t.columns && |r.value.rows| == |t.rows|
    ensures r.Ok? && WellFormed(t) ==> WellFormed(r.value)
  {
    match BinarizeRows(t.rows)
    case Err(e) => Err(e)
    case Ok(rows) => Ok(Table(t.columns, rows))
  }

  /** Applying the transform to its own output changes nothing, since 0 and 1 map to themselves. */
  lemma BinarizeIdempotent(t: Table)
    requires Binarize(t).Ok?
    ensures Binarize(Binarize(t).value) == Binarize(t)
  {
    var u := Binarize(t).value;
    assert !HasTextLabel(u.rows) by {
      forall k | 0 <= k < |u.rows|
        ensures !Label(u.rows[k]).Text?
      {
        assert IsBinary(Label(u.rows[k]));
      }
    }
    var again := BinarizeRows(u.rows).value;
    forall k | 0 <= k < |u.rows|
      ensures again[k] == u.rows[k]
    {
      assert Features(again[k]) == Features(u.rows[k]);
      assert Label(again[k]) == Label(u.rows[k]);
      assert again[k] == Features(again[k]) + [Label(again[k])];
      assert u.rows[k] == Features(u.rows[k]) + [Label(u.rows[k])];
    }
    assert again == u.rows;
  }

  /** Labels -3, 0 and 4 become 0, 0 and 1. */
  lemma SignExample()
    ensures var rows: seq<Row> := [[Num(-3.0)], [Num(0.0)], [Num(4.0)]];
      Binarize(Table(["class"], rows)) == Ok(Table(["class"], [[Num(0.0)], [Num(0.0)], [Num(1.0)]]))
  {
    var rows: seq<Row> := [[Num(-3.0)], [Num(0.0)], [Num(4.0)]];
    assert !HasTextLabel(rows) by {
      forall k | 0 <= k < |rows|
        ensures !Label(rows[k]).Text?
      {
      }
    }
    var out := BinarizeRows(rows).value;
    assert out[0] == [Num(0.0)] && out[1] == [Num(0.0)] && out[2] == [Num(1.0)];
    assert out == [[Num(0.0)], [Num(0.0)], [Num(1.0)]];
  }

  /** `df[last_column].map(to_binary)`: the new label column, or the TypeError of the first string label. */
  method MapToBinary(rows: array<Row>) returns (labels: Result<seq<Value>, Error>)
    ensures labels.Ok? <==> !HasTextLabel(rows[..])
    ensures labels.Err? ==> labels.error == TypeError
    ensures labels.Ok? ==> |labels.value| == rows.Length
    ensures labels.Ok? ==> forall k :: 0 <= k < rows.Length ==> ToBinary(Label(rows[k])) == Ok(labels.value[k])
  {
    var mapped: seq<Value> := [];
    var i := 0;
    while i < rows.Length
      invariant 0 <= i <= rows.Length
      invariant |mapped| == i
      invariant forall k :: 0 <= k < i ==> ToBinary(Label(rows[k])) == Ok(mapped[k])
    {
      var b := ToBinary(Label(rows[i]));
      if b.Err? {
        assert Label(rows[..][i]).Text?;
        return Err(b.error);
      }
      mapped := mapped + [b.value];
      i := i + 1;
    }
    assert forall k :: 0 <= k < rows.Length ==> rows[..][k] == rows[k];
    return Ok(mapped);
  }

  /** Line 57 on the rows of the loaded frame, in place: on success every label slot holds its
      binary value; on a TypeError the frame is left as it was. */
  method BinarizeLastColumn(rows: array<Row>) returns (res: Result<(), Error>)
    modifies rows
    ensures res.Ok? <==> BinarizeRows(old(rows[..])).Ok?
    ensures res.Ok? ==> rows[..] == BinarizeRows(old(rows[..])).value
    ensures res.Err? ==> res.error == TypeError && rows[..] == old(rows[..])
  {
    var mapped := MapToBinary(rows);
    if mapped.Err? {
      return Err(mapped.error);
    }
    var labels := mapped.value;
    ghost var before := rows[..];
    var i := 0;
    while i < rows.Length
      invariant 0 <= i <= rows.Length
      invariant forall k :: 0 <= k < i ==> rows[k] == SetLabel(before[k], labels[k])
      invariant forall k :: i <= k < rows.Length ==> rows[k] == before[k]
    {
      rows[i] := SetLabel(rows[i], labels[i]);
      i := i + 1;
    }
    assert rows[..] == BinarizeRows(before).value;
    return Ok(());
  }

  /** `modify_csv_to_binary`: read the file, relabel its frame, and write `binary_class_<file>`;
      returns the name written. Exactly one call of the shared per-file step. */
  method ModifyCsvToBinary(folder: Folder, fileName: string) returns (res: Result<string, Error>)
    modifies folder
    ensures res.Ok? ==> Process(old(folder.files), fileName, PREFIX, Binarize) == Ok(folder.files)
    ensures res.Ok? ==> res.value == OutputName(PREFIX, fileName)
    ensures res.Err? ==> Process(old(folder.files), fileName, PREFIX, Binarize) == Err(res.error)
    ensures res.Err? ==> folder.files == old(folder.files)
  {
    if fileName !in folder.files {
      return Err(FileNotFound(fileName));
    }
    var t := folder.files[fileName];
    var frame := new Row[|t.rows|](k requires 0 <= k < |t.rows| => t.rows[k]);
    assert frame[..] == t.rows;
    var relabelled := BinarizeLastColumn(frame);
    if relabelled.Err? {
      return Err(relabelled.error);
    }
    var outName := OutputName(PREFIX, fileName);
    folder.files := folder.files[outName := Table(t.columns, frame[..])];
    return Ok(outName);
  }

  /** The script body: nothing but the diagnostic when the folder is missing, otherwise
      `modify_csv_to_binary` on `train.csv` and then `test.csv`, an exception ending the loop. */
  method Run(folder: Folder) returns (outcome: Outcome)
    modifies folder
    ensures Batch(folder.files, outcome) == RunFold(folder.present, old(folder.files), PREFIX, Binarize)
  {
    if !folder.present {
      return FolderMissing;
    }
    var i := 0;
    while i < |INPUT_FILES|
      invariant 0 <= i <= |INPUT_FILES|
      invariant RunFiles(old(folder.files), INPUT_FILES[..i], PREFIX, Binarize) == Batch(folder.files, Completed)
    {
      assert INPUT_FILES[..i + 1][..i] == INPUT_FILES[..i];
      var r := ModifyCsvToBinary(folder, INPUT_FILES[i]);
      if r.Err? {
        return Raised(r.error);
      }
      i := i + 1;
    }
    assert INPUT_FILES[..i] == INPUT_FILES;
    return Completed;
  }
}
