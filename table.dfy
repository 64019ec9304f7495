/** `TableFile`: writes rows of integers as right-justified columns into a
    sequence of data files. A file is opened on demand with a header line,
    and closed after its 101st row; each `close()` advances the file
    counter, which numbers the next file's name. The file system is the
    list of files opened so far, each a name and its lines (every line is
    written followed by a newline, which the lines here leave out). */
module Table {
  import opened Format

  /** The largest value of a 32-bit C++ `int`, the counter's type. */
  const IntMax := 0x7fff_ffff

  /** A file is closed once it holds more than this many rows. */
  const MaxRows := 100

  datatype DataFile = DataFile(name: string, lines: seq<string>)

  /** The fixed part of a table: the name stem and the columns. */
  datatype Schema = Schema(base: string, names: seq<string>, widths: seq<int>)

  /** The changing part: the files written so far (the open one last), and
      the stream's, the counter's and the row count's current values. */
  datatype TableState = TableState(files: seq<DataFile>, isOpen: bool, counter: nat, nLines: int)

  predicate WellShaped(sc: Schema) {
    |sc.names| == |sc.widths|
  }

  /** Each text right-justified in its column's width. */
  function Pad(texts: seq<string>, widths: seq<int>): (cells: seq<string>)
    requires |texts| == |widths|
    ensures |cells| == |texts|
  {
    seq(|texts|, i requires 0 <= i < |texts| => LeftPad(texts[i], widths[i]))
  }

  /** The padded texts side by side. */
  function Cells(texts: seq<string>, widths: seq<int>): string
    requires |texts| == |widths|
  {
    Concat(Pad(texts, widths))
  }

  function HeaderLine(sc: Schema): string
    requires WellShaped(sc)
  {
    Cells(sc.names, sc.widths)
  }

  /** The decimal texts of the first `k` values. */
  function RowTexts(values: seq<int>, k: nat): (texts: seq<string>)
    requires k <= |values|
    ensures |texts| == k
  {
    seq(k, i requires 0 <= i < k => IntToString(values[i]))
  }

  /** One row: as many values as there are columns, the rest ignored. */
  function RowLine(sc: Schema, values: seq<int>): string
    requires |sc.widths| <= |values|
  {
    Cells(RowTexts(values, |sc.widths|), sc.widths)
  }

  predicate RowsFit(sc: Schema, rows: seq<seq<int>>) {
    forall i :: 0 <= i < |rows| ==> |sc.widths| <= |rows[i]|
  }

  function RowLines(sc: Schema, rows: seq<seq<int>>): (lines: seq<string>)
    requires RowsFit(sc, rows)
    ensures |lines| == |rows|
  {
    seq(|rows|, i requires 0 <= i < |rows| => RowLine(sc, rows[i]))
  }

  /** `base_filename` followed by the counter zero-padded to ten digits and
      `.dat`. (Every counter an `int` can hold has at most ten digits.) */
  function FileName(base: string, counter: nat): (name: string)
    ensures 14 + |base| <= |name|
    ensures name[..|base|] == base && name[|name| - 4..] == ".dat"
  {
    var s := NatToString(counter);
    base + Repeat(if |s| <= 10 then 10 - |s| else 0, '0') + s + ".dat"
  }

  function Last(files: seq<DataFile>): DataFile
    requires |files| > 0
  {
    files[|files| - 1]
  }

  /** The lines `more` appended to the last file. */
  function Extend(files: seq<DataFile>, more: seq<string>): seq<DataFile>
    requires |files| > 0
  {
    files[..|files| - 1] + [DataFile(Last(files).name, Last(files).lines + more)]
  }

  /** While a file is open it is the last one, named by the current
      counter, its first line is the header and it holds `nLines` rows,
      at most `MaxRows`. */
  predicate Inv(st: TableState, sc: Schema) {
    && WellShaped(sc)
    && (st.isOpen ==>
          && |st.files| > 0
          && 0 <= st.nLines <= MaxRows
          && Last(st.files).name == FileName(sc.base, st.counter)
          && |Last(st.files).lines| == st.nLines + 1
          && Last(st.files).lines[0] == HeaderLine(sc))
  }

  /** `open()`: a new file named by the counter, holding the header, and no rows yet. */
  function OpenSpec(st: TableState, sc: Schema): (r: TableState)
    requires WellShaped(sc)
    ensures Inv(r, sc) && r.isOpen && r.nLines == 0 && r.counter == st.counter
    ensures |r.files| == |st.files| + 1 && r.files[..|st.files|] == st.files
  {
    TableState(st.files + [DataFile(FileName(sc.base, st.counter), [HeaderLine(sc)])], true, st.counter, 0)
  }

  /** `close()`: the stream is closed and the counter advances, whether or not a file was open. */
  function CloseSpec(st: TableState): (r: TableState)
    ensures !r.isOpen && r.counter == st.counter + 1
    ensures r.files == st.files && r.nLines == st.nLines
  {
    st.(isOpen := false, counter := st.counter + 1)
  }

  /** `write_row()`: open a file if none is, append the row, and close the
      file when this was its 101st row. */
  function WriteRowSpec(st: TableState, sc: Schema, values: seq<int>): (r: TableState)
    requires Inv(st, sc) && |sc.widths| <= |values|
    ensures Inv(r, sc)
    ensures r.isOpen <==> (st.isOpen ==> st.nLines < MaxRows)
  {
    var ready := if st.isOpen then st else OpenSpec(st, sc);
    var written := ready.(files := Extend(ready.files, [RowLine(sc, values)]), nLines := ready.nLines + 1);
    if written.nLines > MaxRows then CloseSpec(written) else written
  }

  /** `write_row` for each row in turn. */
  function WriteRows(st: TableState, sc: Schema, rows: seq<seq<int>>): (r: TableState)
    requires Inv(st, sc) && RowsFit(sc, rows)
    ensures Inv(r, sc)
    decreases |rows|
  {
    if rows == [] then st
    else WriteRows(WriteRowSpec(st, sc, rows[0]), sc, rows[1..])
  }

  /** The number of files `R` rows fill, 101 to a file: ceil(R / 101). */
  function NumFiles(r: nat): nat {
    (r + MaxRows) / (MaxRows + 1)
  }

  function Min(a: int, b: int): int {
    if a < b then a else b
  }

  /** The files `rows` fill when written from a closed table whose counter
      is `c`: file `j` is named by `c + j`, holds the header and then rows
      101 j up to 101 j + 100. */
  function ExpectedFiles(sc: Schema, c: nat, rows: seq<seq<int>>): (fs: seq<DataFile>)
    requires WellShaped(sc) && RowsFit(sc, rows)
    ensures |fs| == NumFiles(|rows|)
  {
    seq(NumFiles(|rows|), j requires 0 <= j < NumFiles(|rows|) =>
      DataFile(FileName(sc.base, c + j),
               [HeaderLine(sc)] + RowLines(sc, Chunk(rows, j))))
  }

  // ---- file names ----

  lemma Pow10Ten()
    ensures Pow10(10) == 10_000_000_000
  {
    assert Pow10(5) == 100_000;
  }

  /** For every counter an `int` can hold the name is the stem, exactly ten
      decimal digits that read back as the counter, and `.dat`. */
  lemma FileNameField(base: string, counter: nat)
    requires counter <= IntMax
    ensures var name := FileName(base, counter);
      && |name| == |base| + 14
      && name[..|base|] == base
      && name[|base| + 10..] == ".dat"
      && AllDigits(name[|base|..|base| + 10])
      && DigitsValue(name[|base|..|base| + 10]) == counter
  {
    var s := NatToString(counter);
    Pow10Ten();
    NatToStringLength(counter, 10, Pow10(10));
    var field := Repeat(10 - |s|, '0') + s;
    var name := FileName(base, counter);
    assert name == base + field + ".dat";
    assert name[..|base|] == base;
    assert name[|base|..|base| + 10] == field;
    assert name[|base| + 10..] == ".dat";
    NatToStringDigits(counter);
    DigitsValueWithZeros(10 - |s|, s);
    DigitsValueOfNatToString(counter);
  }

  /** Different counters give different names, so no file is reopened. */
  lemma FileNameInjective(base: string, c1: nat, c2: nat)
    requires c1 <= IntMax && c2 <= IntMax
    requires FileName(base, c1) == FileName(base, c2)
    ensures c1 == c2
  {
    FileNameField(base, c1);
    FileNameField(base, c2);
  }

  lemma FileNameExample()
    ensures FileName("data/t_", 42) == "data/t_0000000042.dat"
  {
    assert NatToString(42) == "42";
  }

  // ---- cell layout ----

  /** One more column extends the line by that column's cell. */
  lemma CellsStep(texts: seq<string>, widths: seq<int>, i: nat)
    requires |texts| == |widths| && i < |texts|
    ensures Cells(texts[..i + 1], widths[..i + 1]) == Cells(texts[..i], widths[..i]) + LeftPad(texts[i], widths[i])
  {
    var cell := LeftPad(texts[i], widths[i]);
    assert Pad(texts[..i + 1], widths[..i + 1]) == Pad(texts[..i], widths[..i]) + [cell];
    ConcatAppend(Pad(texts[..i], widths[..i]), [cell]);
    ConcatOne(cell);
  }

  /** Column `i` of a line occupies the place after the columns before it
      and is its text right-justified in the column's width: padded on the
      left with spaces, never truncated. */
  lemma CellAt(texts: seq<string>, widths: seq<int>, i: nat)
    requires |texts| == |widths| && i < |texts|
    ensures var cell := LeftPad(texts[i], widths[i]);
      && Cells(texts, widths) == Cells(texts[..i], widths[..i]) + cell + Cells(texts[i + 1..], widths[i + 1..])
      && |cell| == (if |texts[i]| < widths[i] then widths[i] else |texts[i]|)
      && cell[|cell| - |texts[i]|..] == texts[i]
      && (forall p :: 0 <= p < |cell| - |texts[i]| ==> cell[p] == ' ')
  {
    CellsSplit(texts, widths, i);
    LeftPadShape(texts[i], widths[i]);
  }

  lemma CellsSplit(texts: seq<string>, widths: seq<int>, i: nat)
    requires |texts| == |widths| && i < |texts|
    ensures Cells(texts, widths)
         == Cells(texts[..i], widths[..i]) + LeftPad(texts[i], widths[i]) + Cells(texts[i + 1..], widths[i + 1..])
  {
    var p := Pad(texts, widths);
    var before, cell, after := p[..i], p[i], p[i + 1..];
    assert Pad(texts[..i], widths[..i]) == before;
    assert Pad(texts[i + 1..], widths[i + 1..]) == after;
    assert p == before + [cell] + after;
    ConcatAppend(before + [cell], after);
    ConcatAppend(before, [cell]);
    ConcatOne(cell);
  }

  // ---- rotation ----

  lemma ExtendNil(files: seq<DataFile>)
    requires |files| > 0
    ensures Extend(files, []) == files
  {
    assert Last(files).lines + [] == Last(files).lines;
    assert files == files[..|files| - 1] + [Last(files)];
  }

  lemma ExtendTwice(files: seq<DataFile>, m1: seq<string>, m2: seq<string>)
    requires |files| > 0
    ensures |Extend(files, m1)| > 0
    ensures Extend(Extend(files, m1), m2) == Extend(files, m1 + m2)
  {
    var e := Extend(files, m1);
    assert e[..|e| - 1] == files[..|files| - 1];
    assert Last(e).lines + m2 == Last(files).lines + (m1 + m2);
  }

  /** A row written to an open file goes to its end; if it is the 101st
      the file is closed. */
  lemma WriteRowOpen(st: TableState, sc: Schema, values: seq<int>)
    requires Inv(st, sc) && |sc.widths| <= |values| && st.isOpen
    ensures var w := st.(files := Extend(st.files, [RowLine(sc, values)]), nLines := st.nLines + 1);
      WriteRowSpec(st, sc, values) == if st.nLines < MaxRows then w else CloseSpec(w)
  {
  }

  /** A row written to a closed table starts a new file after the header. */
  lemma WriteRowClosed(st: TableState, sc: Schema, values: seq<int>)
    requires Inv(st, sc) && |sc.widths| <= |values| && !st.isOpen
    ensures WriteRowSpec(st, sc, values)
         == TableState(st.files + [DataFile(FileName(sc.base, st.counter), [HeaderLine(sc), RowLine(sc, values)])],
                       true, st.counter, 1)
  {
    var o := OpenSpec(st, sc);
    var line := RowLine(sc, values);
    assert o.files[..|o.files| - 1] == st.files;
    assert Last(o.files).lines + [line] == [HeaderLine(sc), line];
  }

  lemma RowLinesCons(sc: Schema, rows: seq<seq<int>>)
    requires RowsFit(sc, rows) && rows != []
    ensures RowLines(sc, rows) == [RowLine(sc, rows[0])] + RowLines(sc, rows[1..])
  {
  }

  lemma WriteRowsCons(st: TableState, sc: Schema, rows: seq<seq<int>>)
    requires Inv(st, sc) && RowsFit(sc, rows) && rows != []
    ensures WriteRows(st, sc, rows) == WriteRows(WriteRowSpec(st, sc, rows[0]), sc, rows[1..])
  {
  }

  /** Writing to an open file that has room: the rows go to its end, and
      it is closed exactly when its 101st row is written. */
  lemma {:induction false} OpenRun(st: TableState, sc: Schema, rows: seq<seq<int>>)
    requires Inv(st, sc) && RowsFit(sc, rows) && st.isOpen
    requires st.nLines + |rows| <= MaxRows + 1
    ensures var r := WriteRows(st, sc, rows);
      && r.files == Extend(st.files, RowLines(sc, rows))
      && r.nLines == st.nLines + |rows|
      && r.isOpen == (st.nLines + |rows| <= MaxRows)
      && r.counter == st.counter + (if st.nLines + |rows| <= MaxRows then 0 else 1)
    decreases |rows|
  {
    if rows == [] {
      ExtendNil(st.files);
    } else {
      var line := RowLine(sc, rows[0]);
      var w := st.(files := Extend(st.files, [line]), nLines := st.nLines + 1);
      WriteRowsCons(st, sc, rows);
      WriteRowOpen(st, sc, rows[0]);
      RowLinesCons(sc, rows);
      if st.nLines == MaxRows {
        assert rows[1..] == [];
        assert RowLines(sc, rows) == [line];
      } else {
        OpenRun(w, sc, rows[1..]);
        ExtendTwice(st.files, [line], RowLines(sc, rows[1..]));
      }
    }
  }

  /** From a closed table, up to 101 rows fill one new file. */
  lemma FillFile(st: TableState, sc: Schema, rows: seq<seq<int>>)
    requires Inv(st, sc) && RowsFit(sc, rows) && !st.isOpen
    requires 1 <= |rows| <= MaxRows + 1
    ensures var r := WriteRows(st, sc, rows);
      && r.files == st.files + [DataFile(FileName(sc.base, st.counter), [HeaderLine(sc)] + RowLines(sc, rows))]
      && r.isOpen == (|rows| <= MaxRows)
      && r.counter == st.counter + (if |rows| <= MaxRows then 0 else 1)
      && (r.isOpen ==> r.nLines == |rows|)
  {
    var line := RowLine(sc, rows[0]);
    var name := FileName(sc.base, st.counter);
    var st1 := TableState(st.files + [DataFile(name, [HeaderLine(sc), line])], true, st.counter, 1);
    WriteRowsCons(st, sc, rows);
    WriteRowClosed(st, sc, rows[0]);
    OpenRun(st1, sc, rows[1..]);
    RowLinesCons(sc, rows);
    ExtendNew(st.files, name, HeaderLine(sc), line, RowLines(sc, rows[1..]));
  }

  lemma ExtendNew(files: seq<DataFile>, name: string, header: string, line: string, more: seq<string>)
    ensures Extend(files + [DataFile(name, [header, line])], more) == files + [DataFile(name, [header] + ([line] + more))]
  {
    var fs := files + [DataFile(name, [header, line])];
    assert fs[..|fs| - 1] == files;
    assert [header, line] + more == [header] + ([line] + more);
  }

  lemma {:induction false} WriteRowsAppend(st: TableState, sc: Schema, a: seq<seq<int>>, b: seq<seq<int>>)
    requires Inv(st, sc) && RowsFit(sc, a) && RowsFit(sc, b)
    ensures RowsFit(sc, a + b)
    ensures WriteRows(st, sc, a + b) == WriteRows(WriteRows(st, sc, a), sc, b)
    decreases |a|
  {
    assert RowsFit(sc, a + b) by {
      forall i | 0 <= i < |a + b| ensures |sc.widths| <= |(a + b)[i]| {
        if i >= |a| { assert (a + b)[i] == b[i - |a|]; }
      }
    }
    if a == [] {
      assert a + b == b;
    } else {
      var ab := a + b;
      assert ab[1..] == a[1..] + b && ab[0] == a[0];
      WriteRowsCons(st, sc, ab);
      WriteRowsCons(st, sc, a);
      WriteRowsAppend(WriteRowSpec(st, sc, a[0]), sc, a[1..], b);
    }
  }

  /** Rows 101 j up to 101 j + 100: those of file `j`. */
  function Chunk(rows: seq<seq<int>>, j: nat): seq<seq<int>>
    requires j < NumFiles(|rows|)
  {
    rows[101 * j .. Min(101 * j + 101, |rows|)]
  }

  lemma ChunkShift(rows: seq<seq<int>>, j: nat)
    requires MaxRows + 1 < |rows| && 1 <= j < NumFiles(|rows|)
    ensures j - 1 < NumFiles(|rows| - 101)
    ensures Chunk(rows, j) == Chunk(rows[101..], j - 1)
  {
    var tail := rows[101..];
    assert NumFiles(|rows|) == NumFiles(|tail|) + 1;
    var m := Min(101 * j + 101, |rows|);
    assert Min(101 * (j - 1) + 101, |tail|) == m - 101;
    SliceOfDrop(rows, 101, 101 * j, m);
  }

  /** A slice of what is left after dropping `d` elements, re-indexed.
      Generic, so that its proof sees none of the table's definitions. */
  lemma SliceOfDrop<T>(s: seq<T>, d: nat, a: nat, b: nat)
    requires d <= a <= b <= |s|
    ensures s[a..b] == s[d..][a - d .. b - d]
  {
  }

  lemma ExpectedSplit(sc: Schema, c: nat, rows: seq<seq<int>>)
    requires WellShaped(sc) && RowsFit(sc, rows) && MaxRows + 1 < |rows|
    ensures RowsFit(sc, rows[..101]) && RowsFit(sc, rows[101..])
    ensures ExpectedFiles(sc, c, rows)
         == [DataFile(FileName(sc.base, c), [HeaderLine(sc)] + RowLines(sc, rows[..101]))]
            + ExpectedFiles(sc, c + 1, rows[101..])
  {
    var tail := rows[101..];
    assert RowsFit(sc, tail) by {
      forall i | 0 <= i < |tail| ensures |sc.widths| <= |tail[i]| {
        assert tail[i] == rows[i + 101];
      }
    }
    var lhs := ExpectedFiles(sc, c, rows);
    var rest := ExpectedFiles(sc, c + 1, tail);
    var first := DataFile(FileName(sc.base, c), [HeaderLine(sc)] + RowLines(sc, rows[..101]));
    assert NumFiles(|rows|) == 1 + NumFiles(|tail|);
    assert lhs[0] == first by {
      assert Chunk(rows, 0) == rows[..101];
    }
    forall j | 1 <= j < |lhs| ensures lhs[j] == rest[j - 1] {
      ChunkShift(rows, j);
      assert c + j == c + 1 + (j - 1);
    }
    assert lhs == [first] + rest;
  }

  lemma ExpectedSingle(sc: Schema, c: nat, rows: seq<seq<int>>)
    requires WellShaped(sc) && RowsFit(sc, rows) && 1 <= |rows| <= MaxRows + 1
    ensures ExpectedFiles(sc, c, rows) == [DataFile(FileName(sc.base, c), [HeaderLine(sc)] + RowLines(sc, rows))]
  {
    assert NumFiles(|rows|) == 1;
    assert Chunk(rows, 0) == rows;
  }

  /** Rows written from a closed table fill files of 101 rows each, the
      last one possibly partial: the files expected, opened with
      consecutive counters. The table is left open exactly when the last
      file is partial, holding the remainder. */
  lemma {:induction false} Rotation(st: TableState, sc: Schema, rows: seq<seq<int>>)
    requires Inv(st, sc) && RowsFit(sc, rows) && !st.isOpen
    ensures var r := WriteRows(st, sc, rows);
      && r.files == st.files + ExpectedFiles(sc, st.counter, rows)
      && r.counter == st.counter + |rows| / 101
      && r.isOpen == (|rows| % 101 != 0)
      && (r.isOpen ==> r.nLines == |rows| % 101)
    decreases |rows|, 1
  {
    if rows == [] {
      assert st.files + [] == st.files;
    } else if |rows| <= MaxRows + 1 {
      FillFile(st, sc, rows);
      ExpectedSingle(sc, st.counter, rows);
    } else {
      RotationLong(st, sc, rows);
    }
  }

  /** `Rotation` for more than one file's worth: the first file, then the rest. */
  lemma {:induction false} RotationLong(st: TableState, sc: Schema, rows: seq<seq<int>>)
    requires Inv(st, sc) && RowsFit(sc, rows) && !st.isOpen && MaxRows + 1 < |rows|
    ensures var r := WriteRows(st, sc, rows);
      && r.files == st.files + ExpectedFiles(sc, st.counter, rows)
      && r.counter == st.counter + |rows| / 101
      && r.isOpen == (|rows| % 101 != 0)
      && (r.isOpen ==> r.nLines == |rows| % 101)
    decreases |rows|, 0
  {
    var b := rows[101..];
    FirstFile(st, sc, rows);
    var st1 := WriteRows(st, sc, rows[..101]);
    Rotation(st1, sc, b);
    RotationCombine(st, st1, WriteRows(st1, sc, b), sc, rows);
  }

  /** The bookkeeping of `RotationLong`: one file, then the files of the rest. */
  lemma RotationCombine(st: TableState, st1: TableState, r: TableState, sc: Schema, rows: seq<seq<int>>)
    requires WellShaped(sc) && RowsFit(sc, rows) && MaxRows + 1 < |rows|
    requires RowsFit(sc, rows[..101]) && RowsFit(sc, rows[101..])
    requires st1.files == st.files + [DataFile(FileName(sc.base, st.counter), [HeaderLine(sc)] + RowLines(sc, rows[..101]))]
    requires st1.counter == st.counter + 1
    requires r.files == st1.files + ExpectedFiles(sc, st1.counter, rows[101..])
    requires r.counter == st1.counter + |rows[101..]| / 101
    requires r.isOpen == (|rows[101..]| % 101 != 0)
    requires r.isOpen ==> r.nLines == |rows[101..]| % 101
    ensures r.files == st.files + ExpectedFiles(sc, st.counter, rows)
    ensures r.counter == st.counter + |rows| / 101
    ensures r.isOpen == (|rows| % 101 != 0)
    ensures r.isOpen ==> r.nLines == |rows| % 101
  {
    var b := rows[101..];
    ExpectedSplit(sc, st.counter, rows);
    var f0 := DataFile(FileName(sc.base, st.counter), [HeaderLine(sc)] + RowLines(sc, rows[..101]));
    assert st1.files + ExpectedFiles(sc, st1.counter, b) == st.files + ([f0] + ExpectedFiles(sc, st.counter + 1, b));
    assert |rows| / 101 == 1 + |b| / 101 && |rows| % 101 == |b| % 101;
  }

  /** The first 101 of more rows fill one file and close it. */
  lemma FirstFile(st: TableState, sc: Schema, rows: seq<seq<int>>)
    requires Inv(st, sc) && RowsFit(sc, rows) && !st.isOpen && MaxRows + 1 < |rows|
    ensures RowsFit(sc, rows[..101]) && RowsFit(sc, rows[101..])
    ensures var st1 := WriteRows(st, sc, rows[..101]);
      && WriteRows(st, sc, rows) == WriteRows(st1, sc, rows[101..])
      && st1.files == st.files + [DataFile(FileName(sc.base, st.counter), [HeaderLine(sc)] + RowLines(sc, rows[..101]))]
      && !st1.isOpen && st1.counter == st.counter + 1
  {
    var a, b := rows[..101], rows[101..];
    assert RowsFit(sc, b) by {
      forall i | 0 <= i < |b| ensures |sc.widths| <= |b[i]| {
        assert b[i] == rows[i + 101];
      }
    }
    assert a + b == rows;
    WriteRowsAppend(st, sc, a, b);
    FillFile(st, sc, a);
  }

  /** A new table fed `R` rows and then closed, as the simulation does,
      has written ceil(R / 101) files and closed R / 101 + 1 times; the
      final close advances the counter even when no file is open. */
  lemma WriteAllThenClose(sc: Schema, rows: seq<seq<int>>)
    requires WellShaped(sc) && RowsFit(sc, rows)
    ensures var r := CloseSpec(WriteRows(TableState([], false, 0, 0), sc, rows));
      && r.files == ExpectedFiles(sc, 0, rows)
      && |r.files| == NumFiles(|rows|)
      && r.counter == |rows| / 101 + 1
      && !r.isOpen
  {
    Rotation(TableState([], false, 0, 0), sc, rows);
  }

  /** 150 rows into a new table make two files: the first closed after
      its 101st row, the second open and holding the other 49. */
  lemma HundredFiftyRows(sc: Schema, rows: seq<seq<int>>)
    requires WellShaped(sc) && RowsFit(sc, rows) && |rows| == 150
    ensures var r := WriteRows(TableState([], false, 0, 0), sc, rows);
      && |r.files| == 2
      && |r.files[0].lines| == 102 && |r.files[1].lines| == 50
      && r.isOpen && r.nLines == 49 && r.counter == 1
  {
    var st := TableState([], false, 0, 0);
    Rotation(st, sc, rows);
    HundredFiftyFiles(sc, rows, WriteRows(st, sc, rows));
  }

  /** The bookkeeping of `HundredFiftyRows`, given what `Rotation` states. */
  lemma HundredFiftyFiles(sc: Schema, rows: seq<seq<int>>, r: TableState)
    requires WellShaped(sc) && RowsFit(sc, rows) && |rows| == 150
    requires r.files == [] + ExpectedFiles(sc, 0, rows)
    requires r.counter == 0 + |rows| / 101
    requires r.isOpen == (|rows| % 101 != 0)
    requires r.isOpen ==> r.nLines == |rows| % 101
    ensures |r.files| == 2 && |r.files[0].lines| == 102 && |r.files[1].lines| == 50
    ensures r.isOpen && r.nLines == 49 && r.counter == 1
  {
    var fs := ExpectedFiles(sc, 0, rows);
    assert r.files == fs;
    assert NumFiles(150) == 2;
    assert |Chunk(rows, 0)| == 101;
    assert |Chunk(rows, 1)| == 49;
  }

  /** `struct TableFile`. */
  class TableFile {
    const baseFilename: string
    const colNames: seq<string>
    const colWidths: seq<int>
    const nCols: int
    var files: seq<DataFile>
    var isOpen: bool
    var fileCounter: nat
    var nLines: int

    function Layout(): Schema {
      Schema(baseFilename, colNames, colWidths)
    }

    function State(): TableState
      reads this
    {
      TableState(files, isOpen, fileCounter, nLines)
    }

    /** The column vectors have one entry per column. */
    predicate Shaped() {
      nCols == |colNames| && WellShaped(Layout())
    }

    predicate Valid()
      reads this
    {
      Shaped() && Inv(State(), Layout())
    }

    /** The stem is the folder, a slash and the timestamp; the columns
        keep their order. No file is open yet. */
    constructor (folder: string, timestamp: string, columns: seq<(string, int)>)
      ensures baseFilename == folder + "/" + timestamp
      ensures |colNames| == |colWidths| == |columns|
      ensures forall i :: 0 <= i < |columns| ==> colNames[i] == columns[i].0 && colWidths[i] == columns[i].1
      ensures files == [] && !isOpen && fileCounter == 0
      ensures Valid()
    {
      baseFilename := folder + "/" + timestamp;
      var names: seq<string> := [];
      var widths: seq<int> := [];
      for i := 0 to |columns|
        invariant |names| == |widths| == i
        invariant forall t :: 0 <= t < i ==> names[t] == columns[t].0 && widths[t] == columns[t].1
      {
        names := names + [columns[i].0];
        widths := widths + [columns[i].1];
      }
      colNames := names;
      colWidths := widths;
      nCols := |names|;
      files := [];
      isOpen := false;
      fileCounter := 0;
      nLines := 0;
    }

    /** `open()`; the program opens only a closed table. */
    method Open()
      requires Valid() && !isOpen
      modifies this
      ensures State() == OpenSpec(old(State()), Layout())
      ensures Valid()
    {
      nLines := 0;
      var s := NatToString(fileCounter);
      var filename := baseFilename + Repeat(if |s| <= 10 then 10 - |s| else 0, '0') + s + ".dat";
      var header := FormatHeader();
      files := files + [DataFile(filename, [header])];
      isOpen := true;
    }

    /** `close()`. */
    method Close()
      requires Shaped()
      modifies this
      ensures State() == CloseSpec(old(State()))
      ensures Valid()
    {
      isOpen := false;
      fileCounter := fileCounter + 1;
    }

    /** `write_row()`: one value per column; the vector may not be shorter. */
    method WriteRow(values: seq<int>)
      requires Valid() && nCols <= |values|
      modifies this
      ensures State() == WriteRowSpec(old(State()), Layout(), values)
      ensures Valid()
    {
      ghost var st0 := State();
      if !isOpen {
        Open();
      }
      ghost var ready := State();
      assert ready == if st0.isOpen then st0 else OpenSpec(st0, Layout());
      var line := FormatRow(values);
      var current := files[|files| - 1];
      files := files[..|files| - 1] + [DataFile(current.name, current.lines + [line])];
      nLines := nLines + 1;
      assert State() == ready.(files := Extend(ready.files, [RowLine(Layout(), values)]), nLines := ready.nLines + 1);
      if nLines > MaxRows {
        Close();
      }
    }

    /** The header line `open()` writes: each column name right-justified in its width. */
    method FormatHeader() returns (header: string)
      requires Shaped()
      ensures header == HeaderLine(Layout())
    {
      header := "";
      for i := 0 to nCols
        invariant header == Cells(colNames[..i], colWidths[..i])
      {
        CellsStep(colNames, colWidths, i);
        header := header + LeftPad(colNames[i], colWidths[i]);
      }
      assert colNames[..nCols] == colNames && colWidths[..nCols] == colWidths;
    }

    /** The row line `write_row()` writes: each of the first `n_cols`
        values in decimal, right-justified in its column's width. */
    method FormatRow(values: seq<int>) returns (line: string)
      requires Shaped() && nCols <= |values|
      ensures line == RowLine(Layout(), values)
    {
      ghost var texts := RowTexts(values, nCols);
      line := "";
      for i := 0 to nCols
        invariant line == Cells(texts[..i], colWidths[..i])
      {
        CellsStep(texts, colWidths, i);
        line := line + LeftPad(IntToString(values[i]), colWidths[i]);
      }
      assert texts[..nCols] == texts && colWidths[..nCols] == colWidths;
    }
  }
}
