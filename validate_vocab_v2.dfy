/**
 * The long-form row checker of src/lib/validateVocabV2.ts: for every row,
 * one error per blank required column, then one error when the Japanese and
 * Vietnamese example lists have different non-zero lengths. Rows are
 * numbered as a spreadsheet shows them: the header is row 1.
 */
module ValidateVocabV2 {
  import opened Strings
  import opened Vocabulary

  /** The messages, kept as data: "missing column k" and "JP count != VI count". */
  datatype Message = MissingColumn(column: string) | CountMismatch(jp: nat, vi: nat)

  datatype RowErr = RowErr(row: int, message: Message)

  const Required: seq<string> := ["word_id", "kanji", "sense_index", "meaning_vi"]

  /** The spreadsheet row number of the row at position `i`. */
  function RowNumber(i: nat): int {
    i + 2
  }

  /**
   * `s ? s.split("||").filter(Boolean).length : 0`: the non-empty pieces,
   * counted without trimming.
   */
  function ExampleCount(s: string): nat {
    if s == "" then 0 else |Compact(Split(s, "||"))|
  }

  /** `!String(r[k] ?? "").trim()`. */
  predicate ColumnBlank(r: Row, k: string) {
    Trim(Cell(r, k)) == ""
  }

  /** The missing-column errors of the row at position `i`, for the columns `ks`, in order. */
  function MissingErrors(r: Row, i: nat, ks: seq<string>): (errs: seq<RowErr>)
    ensures |errs| <= |ks|
  {
    if ks == [] then []
    else
      MissingErrors(r, i, ks[..|ks| - 1]) +
        (if ColumnBlank(r, ks[|ks| - 1]) then [RowErr(RowNumber(i), MissingColumn(ks[|ks| - 1]))] else [])
  }

  /** Checking one more column appends that column's error, if any. */
  lemma MissingSnoc(r: Row, i: nat, ks: seq<string>, j: nat)
    requires j < |ks|
    ensures MissingErrors(r, i, ks[..j + 1]) == MissingErrors(r, i, ks[..j]) +
      (if ColumnBlank(r, ks[j]) then [RowErr(RowNumber(i), MissingColumn(ks[j]))] else [])
  {
    assert ks[..j + 1][..j] == ks[..j];
  }

  /** The count error of the row at position `i`, if any. */
  function MismatchErrors(r: Row, i: nat): seq<RowErr> {
    var jpN, viN := ExampleCount(Cell(r, "examples_jp")), ExampleCount(Cell(r, "examples_vi"));
    if jpN != 0 && viN != 0 && jpN != viN then [RowErr(RowNumber(i), CountMismatch(jpN, viN))] else []
  }

  /** All errors of the row at position `i`. */
  function RowErrors(r: Row, i: nat): seq<RowErr> {
    MissingErrors(r, i, Required) + MismatchErrors(r, i)
  }

  /** The errors of `rows` when the row at position `i` reports `check(r, i)`, row after row. */
  function ValidateFold(rows: seq<Row>, check: (Row, nat) -> seq<RowErr>): seq<RowErr> {
    if rows == [] then [] else ValidateFold(rows[..|rows| - 1], check) + check(rows[|rows| - 1], |rows| - 1)
  }

  /** `validateVocabV2`, as a value. */
  function ValidateSpec(rows: seq<Row>): seq<RowErr> {
    ValidateFold(rows, RowErrors)
  }

  /** `validateVocabV2`: the rows in order, each column check in order. */
  method Validate(rows: seq<Row>) returns (errs: seq<RowErr>)
    ensures errs == ValidateSpec(rows)
  {
    errs := [];
    var i := 0;
    while i < |rows|
      invariant 0 <= i <= |rows|
      invariant errs == ValidateFold(rows[..i], RowErrors)
    {
      assert rows[..i + 1][..i] == rows[..i];
      errs := CheckRow(errs, rows[i], i);
      i := i + 1;
    }
    assert rows[..i] == rows;
  }

  /** The `forEach` callback: pushes the errors of the row at position `i`. */
  method CheckRow(errs: seq<RowErr>, r: Row, i: nat) returns (errs': seq<RowErr>)
    ensures errs' == errs + RowErrors(r, i)
  {
    errs' := CheckColumns(errs, r, i, Required);
    var jp, vi := Cell(r, "examples_jp"), Cell(r, "examples_vi");
    var jpN := if jp != "" then |Compact(Split(jp, "||"))| else 0;
    var viN := if vi != "" then |Compact(Split(vi, "||"))| else 0;
    if jpN != 0 && viN != 0 && jpN != viN {
      errs' := errs' + [RowErr(RowNumber(i), CountMismatch(jpN, viN))];
    }
  }

  /** `for (const k of required)`: pushes one error per blank column of `ks`. */
  method CheckColumns(errs: seq<RowErr>, r: Row, i: nat, ks: seq<string>) returns (errs': seq<RowErr>)
    ensures errs' == errs + MissingErrors(r, i, ks)
  {
    errs' := errs;
    var j := 0;
    while j < |ks|
      invariant 0 <= j <= |ks|
      invariant errs' == errs + MissingErrors(r, i, ks[..j])
    {
      MissingSnoc(r, i, ks, j);
      var k := ks[j];
      if ColumnBlank(r, k) {
        errs' := errs' + [RowErr(RowNumber(i), MissingColumn(k))];
      }
      assert errs' == errs + MissingErrors(r, i, ks[..j + 1]);
      j := j + 1;
    }
    assert ks[..j] == ks;
  }

  /**
   * A column check reports the row exactly when the column is blank, with
   * the row's spreadsheet number.
   */
  lemma {:induction false} MissingExactly(r: Row, i: nat, ks: seq<string>)
    ensures forall e :: e in MissingErrors(r, i, ks) ==> e.row == RowNumber(i) && e.message.MissingColumn?
    ensures forall k :: RowErr(RowNumber(i), MissingColumn(k)) in MissingErrors(r, i, ks) <==>
      k in ks && IsBlank(Cell(r, k))
    decreases |ks|
  {
    if ks != [] {
      var init := ks[..|ks| - 1];
      MissingExactly(r, i, init);
      TrimSpec(Cell(r, ks[|ks| - 1]));
      assert forall k :: k in ks <==> k in init || k == ks[|ks| - 1] by {
        assert ks == init + [ks[|ks| - 1]];
      }
      forall k | k in init ensures (ColumnBlank(r, k) <==> IsBlank(Cell(r, k))) {
        TrimSpec(Cell(r, k));
      }
    }
  }

  /**
   * The errors of one row: at most five, all carrying its number; one per
   * blank required column, then the count error, which appears exactly when
   * both counts are non-zero and differ.
   */
  lemma RowErrorsShape(r: Row, i: nat)
    ensures |RowErrors(r, i)| <= 5
    ensures forall e :: e in RowErrors(r, i) ==> e.row == RowNumber(i)
    ensures forall k :: RowErr(RowNumber(i), MissingColumn(k)) in RowErrors(r, i) <==>
      k in Required && IsBlank(Cell(r, k))
    ensures (exists e :: e in RowErrors(r, i) && e.message.CountMismatch?) <==>
      var jpN, viN := ExampleCount(Cell(r, "examples_jp")), ExampleCount(Cell(r, "examples_vi"));
      jpN != 0 && viN != 0 && jpN != viN
    ensures forall a :: 0 <= a < |RowErrors(r, i)| - 1 ==> RowErrors(r, i)[a].message.MissingColumn?
  {
    var ms := MissingErrors(r, i, Required);
    MissingExactly(r, i, Required);
    assert forall a :: 0 <= a < |ms| ==> ms[a] in ms;
    if MismatchErrors(r, i) != [] {
      assert RowErrors(r, i)[|ms|] in RowErrors(r, i);
    }
  }

  /** A row check whose errors carry the row's number, at most five per row. */
  ghost predicate Numbered(check: (Row, nat) -> seq<RowErr>) {
    forall r, i, e :: e in check(r, i) ==> e.row == RowNumber(i)
  }

  ghost predicate AtMostFive(check: (Row, nat) -> seq<RowErr>) {
    forall r, i :: |check(r, i)| <= 5
  }

  lemma RowErrorsNumbered()
    ensures Numbered(RowErrors) && AtMostFive(RowErrors)
  {
    forall r, i ensures |RowErrors(r, i)| <= 5 && forall e :: e in RowErrors(r, i) ==> e.row == RowNumber(i) {
      RowErrorsShape(r, i);
    }
  }

  /** Every error names a row of the input: numbers run from 2 to the row count + 1. */
  lemma {:induction false} FoldRowsInRange(rows: seq<Row>, check: (Row, nat) -> seq<RowErr>)
    requires Numbered(check) && AtMostFive(check)
    ensures forall e :: e in ValidateFold(rows, check) ==> 2 <= e.row <= |rows| + 1
    ensures |ValidateFold(rows, check)| <= 5 * |rows|
    decreases |rows|
  {
    if rows != [] {
      FoldRowsInRange(rows[..|rows| - 1], check);
    }
  }

  /** Errors come out ordered by row. */
  lemma {:induction false} FoldOrdered(rows: seq<Row>, check: (Row, nat) -> seq<RowErr>)
    requires Numbered(check) && AtMostFive(check)
    ensures forall a, b :: 0 <= a < b < |ValidateFold(rows, check)| ==>
      ValidateFold(rows, check)[a].row <= ValidateFold(rows, check)[b].row
    decreases |rows|
  {
    if rows != [] {
      var init := rows[..|rows| - 1];
      FoldOrdered(init, check);
      FoldRowsInRange(init, check);
      var last := check(rows[|rows| - 1], |rows| - 1);
      var prev := ValidateFold(init, check);
      assert forall a :: 0 <= a < |prev| ==> prev[a] in prev;
      assert forall b :: 0 <= b < |last| ==> last[b] in last;
    }
  }

  /** The errors are exactly those of the individual rows. */
  lemma {:induction false} FoldMembers(rows: seq<Row>, check: (Row, nat) -> seq<RowErr>, e: RowErr)
    ensures e in ValidateFold(rows, check) <==> exists i :: 0 <= i < |rows| && e in check(rows[i], i)
    decreases |rows|
  {
    if rows != [] {
      var init := rows[..|rows| - 1];
      FoldMembers(init, check, e);
      assert forall i :: 0 <= i < |init| ==> init[i] == rows[i];
      if e in check(rows[|rows| - 1], |rows| - 1) {
        assert exists i :: 0 <= i < |rows| && e in check(rows[i], i) by {
          assert e in check(rows[|rows| - 1], |rows| - 1);
        }
      }
    }
  }

  /**
   * The errors of the whole table: numbered 2 to the row count + 1, at most
   * five per row, ordered by row, and exactly those of the individual rows.
   */
  lemma ValidateErrors(rows: seq<Row>, e: RowErr)
    ensures forall x :: x in ValidateSpec(rows) ==> 2 <= x.row <= |rows| + 1
    ensures |ValidateSpec(rows)| <= 5 * |rows|
    ensures forall a, b :: 0 <= a < b < |ValidateSpec(rows)| ==> ValidateSpec(rows)[a].row <= ValidateSpec(rows)[b].row
    ensures e in ValidateSpec(rows) <==> exists i :: 0 <= i < |rows| && e in RowErrors(rows[i], i)
  {
    RowErrorsNumbered();
    FoldRowsInRange(rows, RowErrors);
    FoldOrdered(rows, RowErrors);
    FoldMembers(rows, RowErrors, e);
  }

  /** A row whose listed columns are all filled has no missing-column error. */
  lemma {:induction false} NoneMissing(r: Row, i: nat, ks: seq<string>)
    requires forall k :: k in ks ==> !IsBlank(Cell(r, k))
    ensures MissingErrors(r, i, ks) == []
    decreases |ks|
  {
    if ks != [] {
      var init := ks[..|ks| - 1];
      assert forall k :: k in init ==> k in ks;
      NoneMissing(r, i, init);
      TrimSpec(Cell(r, ks[|ks| - 1]));
    }
  }

  /** A table of well-formed rows gets no errors. */
  lemma {:induction false} CleanRowsPass(rows: seq<Row>)
    requires forall i :: 0 <= i < |rows| ==>
      (forall k :: k in Required ==> !IsBlank(Cell(rows[i], k))) &&
      ExampleCount(Cell(rows[i], "examples_jp")) == ExampleCount(Cell(rows[i], "examples_vi"))
    ensures ValidateSpec(rows) == []
    decreases |rows|
  {
    if rows != [] {
      var init := rows[..|rows| - 1];
      assert forall i :: 0 <= i < |init| ==> init[i] == rows[i];
      CleanRowsPass(init);
      var r := rows[|rows| - 1];
      NoneMissing(r, |rows| - 1, Required);
    }
  }
}
