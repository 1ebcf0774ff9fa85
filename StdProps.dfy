/** Properties of the DataIO_Std model: which mode and index column the
    arguments select, what Read_1D makes of comment lines and labels, the
    shapes Read_2D, Read_Vector and Read_Mat3x3 accept and produce, and the
    names WriteNameToBuffer writes. */
module StdProps {
  import opened StdSpec

  // ---------------------------------------------------------------------------
  // processReadArgs and processWriteArgs

  /** The mode is that of the first of read1d, read2d, vector and mat3x3
      present, and read1d when none is. */
  lemma ModeFirstPresent(args: ArgList)
    ensures ModeOf(args) == OneD <==>
              args.HasKey("read1d") || !(args.HasKey("read2d") || args.HasKey("vector") || args.HasKey("mat3x3"))
    ensures ModeOf(args) == TwoD <==> !args.HasKey("read1d") && args.HasKey("read2d")
    ensures ModeOf(args) == Vector <==> !args.HasKey("read1d") && !args.HasKey("read2d") && args.HasKey("vector")
    ensures ModeOf(args) == Mat3x3 <==>
              !args.HasKey("read1d") && !args.HasKey("read2d") && !args.HasKey("vector") && args.HasKey("mat3x3")
  {
  }

  /** As written, an absent index key is stored as -2, not as the -1 that
      Read_1D takes for "no index column". */
  lemma AbsentIndexAsWritten(args: ArgList)
    requires "index" !in args.values
    ensures IndexColumnAsWritten(args) == (0, -2)
  {
  }

  /** Corrected: column 0 is refused; a column k >= 1 becomes k - 1; no
      column stays -1; so an accepted index column is never below -1. */
  lemma IndexColumnRange(args: ArgList)
    ensures var k := args.KeyInt("index", -1);
            var res := IndexColumn(args);
            (res.0 == 1 <==> k == 0) && (res.0 == 0 || res.0 == 1)
            && (res.0 == 0 ==> res.1 >= -1 && (res.1 == -1 <==> k < 0) && (k > 0 ==> res.1 == k - 1))
  {
  }

  /** The two agree whenever a column k >= 1 is given. */
  lemma IndexColumnAgrees(args: ArgList)
    requires args.KeyInt("index", -1) > 0
    ensures IndexColumn(args) == IndexColumnAsWritten(args)
  {
  }

  /** nosquare2d overrides square2d; the read settings are kept. */
  lemma NoSquareOverrides(args: ArgList, s: Settings)
    ensures var w := WriteSettings(args, s);
            (w.square2d <==> args.HasKey("square2d") && !args.HasKey("nosquare2d"))
            && w.mode == s.mode && w.indexcol == s.indexcol
            && (w.hasXcolumn <==> !args.HasKey("noxcol")) && (w.writeHeader <==> !args.HasKey("noheader"))
  {
  }

  // ---------------------------------------------------------------------------
  // Runs of lines with the same token count

  /** RunLength counts exactly the lines from `from` that have `n` tokens,
      up to the first that does not. */
  lemma {:induction false} RunMaximal(lines: seq<string>, from: nat, n: nat)
    requires from <= |lines|
    ensures forall j :: from <= j < from + RunLength(lines, from, n) ==> Count(lines[j]) == n
    ensures from + RunLength(lines, from, n) < |lines| ==> Count(lines[from + RunLength(lines, from, n)]) != n
    decreases |lines| - from
  {
    if from < |lines| && Count(lines[from]) == n {
      RunMaximal(lines, from + 1, n);
    }
  }

  // ---------------------------------------------------------------------------
  // Read_1D

  /** A comment line whose first label is "Frame". */
  predicate NamesFrame(s: string) {
    IsLabelLine(s) && |LabelsOf(s)| > 0 && LabelsOf(s)[0] == "Frame"
  }

  /** Some line in [a, b) is a comment line whose first label is "Frame". */
  predicate FrameBefore(lines: seq<string>, a: nat, b: nat) {
    exists j :: a <= j < b && j < |lines| && NamesFrame(lines[j])
  }

  /** Every line the comment scan passes is a comment line. */
  lemma {:induction false} ScanPasses(lines: seq<string>, s: LabelScan)
    requires s.line < |lines|
    ensures forall j :: s.line <= j < ScanLabels(lines, s).line ==> IsLabelLine(lines[j])
    decreases |lines| - s.line
  {
    if IsLabelLine(lines[s.line]) {
      var next := TakeLabels(s, LabelsOf(lines[s.line]));
      if next.line < |lines| {
        ScanPasses(lines, next);
        assert ScanLabels(lines, s) == ScanLabels(lines, next);
      }
    }
  }

  /** The comment scan stops at the first line that is not a comment line. */
  lemma {:induction false} ScanStops(lines: seq<string>, s: LabelScan)
    requires s.line < |lines|
    ensures var r := ScanLabels(lines, s);
            r.line < |lines| ==> !IsLabelLine(lines[r.line])
    decreases |lines| - s.line
  {
    if IsLabelLine(lines[s.line]) {
      var next := TakeLabels(s, LabelsOf(lines[s.line]));
      if next.line < |lines| {
        ScanStops(lines, next);
        assert ScanLabels(lines, s) == ScanLabels(lines, next);
      }
    }
  }

  /** The comment scan keeps the labels of the last comment line it passed,
      and those it started with when it passed none. */
  lemma {:induction false} ScanKeepsLast(lines: seq<string>, s: LabelScan)
    requires s.line < |lines|
    ensures var r := ScanLabels(lines, s);
            (r.line == s.line ==> r.labels == s.labels)
            && (r.line > s.line ==> r.labels == LabelsOf(lines[r.line - 1]))
    decreases |lines| - s.line
  {
    if IsLabelLine(lines[s.line]) {
      var next := TakeLabels(s, LabelsOf(lines[s.line]));
      if next.line < |lines| {
        ScanKeepsLast(lines, next);
        assert ScanLabels(lines, s) == ScanLabels(lines, next);
      }
    }
  }

  /** A "Frame" line in [a, b) is line a or one in [a + 1, b). */
  lemma FrameBeforeStep(lines: seq<string>, a: nat, b: nat)
    requires a < b && a < |lines|
    ensures FrameBefore(lines, a, b) <==> NamesFrame(lines[a]) || FrameBefore(lines, a + 1, b)
  {
    if FrameBefore(lines, a, b) && !NamesFrame(lines[a]) {
      var j :| a <= j < b && j < |lines| && NamesFrame(lines[j]);
      assert a + 1 <= j;
    }
  }

  /** The comment scan sets the index column to 0 exactly when there was
      none and a comment line before the data names "Frame" first; any other
      index column is kept. */
  lemma {:induction false} ScanIndex(lines: seq<string>, s: LabelScan)
    requires s.line < |lines|
    ensures var r := ScanLabels(lines, s);
            r.indexcol == if s.indexcol == -1 && FrameBefore(lines, s.line, r.line) then 0 else s.indexcol
    decreases |lines| - s.line
  {
    if IsLabelLine(lines[s.line]) {
      var next := TakeLabels(s, LabelsOf(lines[s.line]));
      var r := ScanLabels(lines, s);
      FrameBeforeStep(lines, s.line, r.line);
      if next.line < |lines| {
        ScanIndex(lines, next);
      }
    }
  }

  /** What a successful Read_1D is made of: the comment scan from line 0
      stops at a data line, whose token count is ntoken, and the scan's
      labels are kept when their number is 0 or ntoken. */
  lemma Parse1DRead(lines: seq<string>, indexcol: int)
    ensures var r := Parse1D(lines, indexcol);
            r.status == Read ==>
              |lines| > 0 && Count(lines[0]) > 0
              && var s := ScanLabels(lines, LabelScan(0, [], false, indexcol));
                 s.line < |lines| && r.first == s.line && r.ntoken == Count(lines[s.line]) && r.indexcol == s.indexcol
                 && r.labels == (if |s.labels| == 0 || r.ntoken == |s.labels| then s.labels else [])
  {
  }

  /** Read_1D's data line is the first line that is not a comment line; no
      such line is the "No data found" error. */
  lemma Parse1DFirst(lines: seq<string>, indexcol: int)
    requires |lines| > 0 && Count(lines[0]) > 0
    ensures var r := Parse1D(lines, indexcol);
            r.first <= |lines|
            && (forall j :: 0 <= j < r.first ==> IsLabelLine(lines[j]))
            && (r.first < |lines| ==> !IsLabelLine(lines[r.first]))
            && (r.status == NoDataFound <==> r.first == |lines|)
  {
    var start := LabelScan(0, [], false, indexcol);
    assert Parse1D(lines, indexcol).first == ScanLabels(lines, start).line;
    ScanPasses(lines, start);
    ScanStops(lines, start);
  }

  /** Read_1D's index column afterwards: 0 when there was none and a comment
      line before the data names "Frame" first, else the one it had. */
  lemma Parse1DIndex(lines: seq<string>, indexcol: int)
    requires |lines| > 0 && Count(lines[0]) > 0
    ensures var r := Parse1D(lines, indexcol);
            r.indexcol == if indexcol == -1 && FrameBefore(lines, 0, r.first) then 0 else indexcol
  {
    ScanIndex(lines, LabelScan(0, [], false, indexcol));
  }

  /** The labels Read_1D keeps are those of the comment line just before the
      data, and only when there are as many as the data line has tokens. */
  lemma Parse1DLabels(lines: seq<string>, indexcol: int)
    ensures var r := Parse1D(lines, indexcol);
            r.status == Read ==>
              (r.first == 0 ==> r.labels == [])
              && (r.first > 0 ==>
                    IsLabelLine(lines[r.first - 1])
                    && r.labels == if |LabelsOf(lines[r.first - 1])| == r.ntoken
                                   then LabelsOf(lines[r.first - 1]) else [])
  {
    var r := Parse1D(lines, indexcol);
    if r.status == Read {
      var start := LabelScan(0, [], false, indexcol);
      var s := ScanLabels(lines, start);
      Parse1DRead(lines, indexcol);
      ScanKeepsLast(lines, start);
      if s.line > 0 {
        ScanPasses(lines, start);
        assert IsLabelLine(lines[s.line - 1]);
      }
    }
  }

  /** A successful Read_1D reads at least the data line and then every line
      up to the first whose token count differs. */
  lemma Parse1DRows(lines: seq<string>, indexcol: int)
    ensures var r := Parse1D(lines, indexcol);
            r.status == Read ==>
              r.ntoken > 0 && 1 <= r.rows && r.first + r.rows <= |lines|
              && (forall j :: r.first <= j < r.first + r.rows ==> Count(lines[j]) == r.ntoken)
              && (r.first + r.rows < |lines| ==> Count(lines[r.first + r.rows]) != r.ntoken)
  {
    var r := Parse1D(lines, indexcol);
    if r.status == Read {
      RunMaximal(lines, r.first, r.ntoken);
    }
  }

  /** Corrected index column: when Read_1D succeeds with an index column,
      that column lies within every row it reads. */
  lemma Parse1DIndexInRow(lines: seq<string>, indexcol: int)
    requires indexcol >= -1
    ensures var r := Parse1D(lines, indexcol);
            r.status == Read && r.indexcol != -1 ==> 0 <= r.indexcol < r.ntoken
  {
    if |lines| > 0 && Count(lines[0]) > 0 {
      ScanIndex(lines, LabelScan(0, [], false, indexcol));
    }
  }

  /** As written, without an index key Read_1D gets -2: a "Frame" label no
      longer makes column 0 the index, and a successful read takes the
      index-column path with column -2, outside every row. */
  lemma AbsentIndexMisreads(args: ArgList, lines: seq<string>)
    requires "index" !in args.values
    ensures var r := Parse1D(lines, IndexColumnAsWritten(args).1);
            r.indexcol == -2 && (r.status == Read ==> r.indexcol != -1 && !(0 <= r.indexcol < r.ntoken))
  {
    if |lines| > 0 && Count(lines[0]) > 0 {
      ScanIndex(lines, LabelScan(0, [], false, -2));
    }
  }

  /** The tokens of the data line of the example file below. */
  lemma DataLineTokens()
    ensures Tokens("1 2.5") == ["1", "2.5"]
  {
    assert WordEnd("2.5", 1) == 3 && "2.5"[..3] == "2.5" && "2.5"[3..] == [];
    assert " 2.5"[1..] == "2.5";
    assert WordEnd("1 2.5", 1) == 1 && "1 2.5"[..1] == "1" && "1 2.5"[1..] == " 2.5";
  }

  /** The tokens after the '#' of the comment line of the example file. */
  lemma CommentLineTokens()
    ensures Tokens("Frame Value") == ["Frame", "Value"]
  {
    assert WordEnd("Value", 1) == 5 && "Value"[..5] == "Value" && "Value"[5..] == [];
    assert " Value"[1..] == "Value";
    assert WordEnd("Frame Value", 1) == 5 && "Frame Value"[..5] == "Frame" && "Frame Value"[5..] == " Value";
  }

  /** The two lines of the example file below: a comment line with labels
      "Frame" and "Value", then a data line with two tokens. */
  lemma ExampleTokens()
    ensures IsLabelLine("#Frame Value") && LabelsOf("#Frame Value") == ["Frame", "Value"]
    ensures Count("#Frame Value") > 0
    ensures !IsLabelLine("1 2.5") && Count("1 2.5") == 2
  {
    DataLineTokens();
    CommentLineTokens();
    assert SkipSpace("#Frame Value") == "#Frame Value";
    assert "#Frame Value"[1..] == "Frame Value";
    assert SkipSpace("1 2.5") == "1 2.5";
  }

  /** The comment scan of the example file stops at line 1 with the labels
      "Frame" and "Value"; the Frame rule applies only to the -1 index. */
  lemma ExampleScan(indexcol: int)
    ensures ScanLabels(["#Frame Value", "1 2.5"], LabelScan(0, [], false, indexcol))
            == LabelScan(1, ["Frame", "Value"], true, if indexcol == -1 then 0 else indexcol)
  {
    var lines := ["#Frame Value", "1 2.5"];
    ExampleTokens();
    var next := TakeLabels(LabelScan(0, [], false, indexcol), ["Frame", "Value"]);
    assert ScanLabels(lines, LabelScan(0, [], false, indexcol)) == ScanLabels(lines, next);
  }

  /** The file "#Frame Value" / "1 2.5": without an index key, as written
      the index column is -2, corrected it is the Frame column 0. */
  lemma FrameFileExample(args: ArgList)
    requires "index" !in args.values
    ensures var lines := ["#Frame Value", "1 2.5"];
            var written := Parse1D(lines, IndexColumnAsWritten(args).1);
            var fixed := Parse1D(lines, IndexColumn(args).1);
            written.status == Read && written.indexcol == -2
            && fixed.status == Read && fixed.indexcol == 0 && fixed.labels == ["Frame", "Value"]
  {
    ExampleTokens();
    ExampleScan(-2);
    ExampleScan(-1);
  }

  // ---------------------------------------------------------------------------
  // Read_2D

  /** The tokens of lines that have `n` each: `n` per line, line r's in
      places r*n to r*n + n. */
  lemma {:induction false} RowValuesRows(ls: seq<string>, n: nat)
    requires forall k :: 0 <= k < |ls| ==> Count(ls[k]) == n
    ensures |RowValues(ls)| == |ls| * n
    ensures forall r :: 0 <= r < |ls| ==>
              r * n + n <= |RowValues(ls)| && RowValues(ls)[r * n .. r * n + n] == Tokens(ls[r])
    decreases |ls|
  {
    if |ls| > 0 {
      var init := ls[..|ls| - 1];
      var last := Tokens(ls[|ls| - 1]);
      assert Count(ls[|ls| - 1]) == n;
      RowValuesRows(init, n);
      var a := RowValues(init);
      assert RowValues(ls) == a + last;
      MulStep(|init|, n);
      forall r | 0 <= r < |ls|
        ensures r * n + n <= |a + last| && (a + last)[r * n .. r * n + n] == Tokens(ls[r])
      {
        if r < |init| {
          MulMono(r + 1, |init|, n);
          MulStep(r, n);
          assert (a + last)[r * n .. r * n + n] == a[r * n .. r * n + n];
          assert ls[r] == init[r];
        } else {
          assert (a + last)[r * n .. r * n + n] == last;
        }
      }
    }
  }

  /** (i + 1) * n is i * n + n. */
  lemma MulStep(i: nat, n: nat)
    ensures (i + 1) * n == i * n + n
  {
  }

  /** i <= j gives i * n <= j * n. */
  lemma MulMono(i: nat, j: nat, n: nat)
    requires i <= j
    ensures i * n <= j * n
  {
    assert j * n == i * n + (j - i) * n;
  }

  /** Read_2D, Read_Vector and Read_Mat3x3 skip the leading lines that
      start with '#': every line from `i` up to FirstData is one, and the line
      FirstData stops at, if any, is not. */
  lemma {:induction false} FirstDataSkips(lines: seq<string>, i: nat)
    requires i <= |lines|
    ensures forall k :: i <= k < FirstData(lines, i) ==> IsHashLine(lines[k])
    ensures FirstData(lines, i) < |lines| ==> !IsHashLine(lines[FirstData(lines, i)])
    decreases |lines| - i
  {
    if i < |lines| && IsHashLine(lines[i]) {
      FirstDataSkips(lines, i + 1);
    }
  }

  /** Read_2D fails for want of a data line, for an empty first data line,
      or at the first line whose token count differs from it; otherwise the
      matrix has one row per data line, each with the first line's count. */
  lemma Parse2DShape(lines: seq<string>)
    ensures var d := FirstData(lines, 0);
            var res := Parse2D(lines);
            (res.Ok? ==>
              var m := res.value;
              d < |lines| && m.ncols == Count(lines[d]) >= 1 && m.nrows == |lines| - d
              && |m.values| == m.nrows * m.ncols
              && (forall k :: 0 <= k < m.nrows ==> Count(lines[d..][k]) == m.ncols)
              && (forall r :: 0 <= r < m.nrows ==>
                    r * m.ncols + m.ncols <= |m.values|
                    && m.values[r * m.ncols .. r * m.ncols + m.ncols] == Tokens(lines[d..][r])))
            && (res.Fail? ==>
              var e := res.error;
              (e == NoData <==> d == |lines|)
              && (e == NoTokens <==> d < |lines| && Count(lines[d]) == 0)
              && (e.ColumnsChange? ==>
                    d < e.line < |lines| && e.ncols == Count(lines[d]) && e.ntokens == Count(lines[e.line]) != e.ncols
                    && forall k :: d <= k < e.line ==> Count(lines[k]) == e.ncols)
              && !e.BadColumnCount?)
  {
    var d := FirstData(lines, 0);
    if d < |lines| && Count(lines[d]) >= 1 {
      var n := Count(lines[d]);
      RunMaximal(lines, d, n);
      if d + RunLength(lines, d, n) == |lines| {
        assert Parse2D(lines) == Ok(Matrix(n, |lines| - d, RowValues(lines[d..])));
        MatrixRows(lines, d, n);
      }
    }
  }

  /** When every line from `d` on has `n` tokens, the tokens of those lines
      in order hold line d + r's tokens at places r*n to (r+1)*n. */
  lemma MatrixRows(lines: seq<string>, d: nat, n: nat)
    requires d <= |lines| && forall j :: d <= j < |lines| ==> Count(lines[j]) == n
    ensures var ls := lines[d..];
            |RowValues(ls)| == |ls| * n
            && (forall k :: 0 <= k < |ls| ==> Count(ls[k]) == n)
            && (forall r :: 0 <= r < |ls| ==>
                  r * n + n <= |RowValues(ls)| && RowValues(ls)[r * n .. r * n + n] == Tokens(ls[r]))
  {
    var ls := lines[d..];
    forall k | 0 <= k < |ls|
      ensures Count(ls[k]) == n
    {
      assert ls[k] == lines[d + k];
    }
    RowValuesRows(ls, n);
  }

  // ---------------------------------------------------------------------------
  // Read_Vector and Read_Mat3x3

  /** Read_Vector accepts 3, 6 or 9 columns without an index and 4, 7 or 10
      with one, reads 6 values from 6 columns on and 3 below, and always
      within the row. */
  lemma VectorLayoutRule(ncols: nat)
    ensures VectorLayout(ncols).Ok? <==> ncols in {3, 4, 6, 7, 9, 10}
    ensures VectorLayout(ncols).Ok? ==>
              var l := VectorLayout(ncols).value;
              (l.hasIndex <==> ncols in {4, 7, 10}) && l.nv == (if ncols >= 6 then 6 else 3)
              && l.Offset() + l.nv <= ncols
    ensures VectorLayout(ncols).Fail? ==> VectorLayout(ncols).error == BadColumnCount(ncols)
  {
  }

  /** Read_Mat3x3 accepts 9 columns, or 10 with an index, and reads 9 values. */
  lemma Mat3x3LayoutRule(ncols: nat)
    ensures Mat3x3Layout(ncols).Ok? <==> ncols == 9 || ncols == 10
    ensures Mat3x3Layout(ncols).Ok? ==>
              Mat3x3Layout(ncols).value == Layout(ncols == 10, 9)
    ensures Mat3x3Layout(ncols).Fail? ==> Mat3x3Layout(ncols).error == BadColumnCount(ncols)
  {
  }

  /** Row k of FixedRows is the buffer of line k. */
  lemma {:induction false} FixedRowsAt(ls: seq<string>, ncols: nat, l: Layout, width: nat)
    requires l.nv <= width && l.Offset() + l.nv <= ncols
    requires forall k :: 0 <= k < |ls| ==> Count(ls[k]) == ncols
    ensures forall k :: 0 <= k < |ls| ==>
              Count(ls[k]) == ncols && FixedRows(ls, ncols, l, width)[k] == FixedRow(Tokens(ls[k]), l, width)
    decreases |ls|
  {
    if |ls| > 0 {
      var init := ls[..|ls| - 1];
      FixedRowsAt(init, ncols, l, width);
      forall k | 0 <= k < |ls|
        ensures Count(ls[k]) == ncols && FixedRows(ls, ncols, l, width)[k] == FixedRow(Tokens(ls[k]), l, width)
      {
        if k < |init| {
          assert ls[k] == init[k];
        }
      }
    }
  }

  /** Read_Vector and Read_Mat3x3 after the layout check: they fail at the
      first data line whose token count differs from the first one's, and
      otherwise give one buffer per data line, holding its values after any
      index and zeros after them. */
  lemma ParseRowsShape(lines: seq<string>, d: nat, ncols: nat, l: Layout, width: nat)
    requires d <= |lines| && l.nv <= width && l.Offset() + l.nv <= ncols
    requires d < |lines| ==> Count(lines[d]) == ncols
    ensures var res := ParseRows(lines, d, ncols, l, width);
            (res.Ok? ==>
              var rows := res.value;
              |rows| == |lines| - d
              && (forall k :: 0 <= k < |rows| ==> Count(lines[d..][k]) == ncols && |rows[k]| == width)
              && forall k, i :: 0 <= k < |rows| && 0 <= i < width ==>
                   rows[k][i] == if i < l.nv then Value(Tokens(lines[d..][k])[l.Offset() + i]) else Zero)
            && (res.Fail? ==>
              var e := res.error;
              e.ColumnsChange? && d < e.line < |lines| && e.ncols == ncols
              && e.ntokens == Count(lines[e.line]) != ncols
              && forall k :: d <= k < e.line ==> Count(lines[k]) == ncols)
  {
    RunMaximal(lines, d, ncols);
    if d + RunLength(lines, d, ncols) == |lines| {
      RunFills(lines, d, ncols);
      FixedRowsAt(lines[d..], ncols, l, width);
    }
  }

  /** Read_Vector: refused column counts, then ParseRowsShape with 6 values
      per buffer. */
  lemma ParseVectorsShape(lines: seq<string>)
    ensures var d := FirstData(lines, 0);
            var res := ParseVectors(lines);
            (res.Ok? ==>
              var rows := res.value;
              d < |lines| && Count(lines[d]) in {3, 4, 6, 7, 9, 10}
              && |rows| == |lines| - d
              && (forall k :: 0 <= k < |rows| ==> Count(lines[d..][k]) == Count(lines[d]) && |rows[k]| == 6)
              && forall k, i :: 0 <= k < |rows| && 0 <= i < 6 ==>
                   var ncols := Count(lines[d]);
                   var off := if ncols in {4, 7, 10} then 1 else 0;
                   var nv := if ncols >= 6 then 6 else 3;
                   rows[k][i] == if i < nv then Value(Tokens(lines[d..][k])[off + i]) else Zero)
            && (res.Fail? ==>
              var e := res.error;
              (e == NoTokens <==> d == |lines| || Count(lines[d]) == 0)
              && (e.BadColumnCount? ==> d < |lines| && e.ncols == Count(lines[d]) && e.ncols !in {0, 3, 4, 6, 7, 9, 10})
              && (e.ColumnsChange? ==> d < e.line < |lines| && e.ntokens == Count(lines[e.line]) != e.ncols)
              && e != NoData)
  {
    var d := FirstData(lines, 0);
    if d < |lines| && Count(lines[d]) >= 1 {
      var n := Count(lines[d]);
      VectorLayoutRule(n);
      if VectorLayout(n).Ok? {
        var l := VectorLayout(n).value;
        ParseRowsShape(lines, d, n, l, 6);
        assert ParseVectors(lines) == ParseRows(lines, d, n, l, 6);
        assert l.Offset() == (if n in {4, 7, 10} then 1 else 0);
      }
    }
  }

  /** Read_Mat3x3: refused column counts, then ParseRowsShape with 9 values
      per buffer. */
  lemma ParseMat3x3Shape(lines: seq<string>)
    ensures var d := FirstData(lines, 0);
            var res := ParseMat3x3(lines);
            (res.Ok? ==>
              var rows := res.value;
              d < |lines| && (Count(lines[d]) == 9 || Count(lines[d]) == 10)
              && |rows| == |lines| - d
              && (forall k :: 0 <= k < |rows| ==> Count(lines[d..][k]) == Count(lines[d]) && |rows[k]| == 9)
              && forall k, i :: 0 <= k < |rows| && 0 <= i < 9 ==>
                   var off := Count(lines[d]) - 9;
                   rows[k][i] == Value(Tokens(lines[d..][k])[off + i]))
            && (res.Fail? ==>
              var e := res.error;
              (e == NoTokens <==> d == |lines| || Count(lines[d]) == 0)
              && (e.BadColumnCount? ==> d < |lines| && e.ncols == Count(lines[d]) && e.ncols !in {0, 9, 10})
              && (e.ColumnsChange? ==> d < e.line < |lines| && e.ntokens == Count(lines[e.line]) != e.ncols)
              && e != NoData)
  {
    var d := FirstData(lines, 0);
    if d < |lines| && Count(lines[d]) >= 1 {
      var n := Count(lines[d]);
      if Mat3x3Layout(n).Ok? {
        ParseRowsShape(lines, d, n, Mat3x3Layout(n).value, 9);
      }
    }
  }

  // ---------------------------------------------------------------------------
  // WriteNameToBuffer and WriteSet2D

  /** A string without spaces is its own underscored form. */
  lemma UnderscoredFixed(s: string)
    requires forall i :: 0 <= i < |s| ==> s[i] != ' '
    ensures Underscored(s) == s
  {
  }

  /** Underscoring works character by character, so it splits over "+". */
  lemma UnderscoredConcat(a: string, b: string)
    ensures Underscored(a + b) == Underscored(a) + Underscored(b)
  {
  }

  /** The written name has no spaces. A left-aligned name without a leading
      '#' gets one and is cut to the width; any other name keeps its length;
      apart from spaces becoming '_', no character changes. */
  lemma HeaderNameShape(name: string, width: nat, leftAlign: bool)
    ensures var h := HeaderName(name, width, leftAlign);
            (forall i :: 0 <= i < |h| ==> h[i] != ' ')
            && (leftAlign && (|name| == 0 || name[0] != '#') ==>
                  |h| == (if |name| + 1 <= width then |name| + 1 else width)
                  && (|h| > 0 ==> h[0] == '#' && h[1..] == Underscored(name)[..|h| - 1]))
            && (!(leftAlign && (|name| == 0 || name[0] != '#')) ==> h == Underscored(name))
  {
    var h := HeaderName(name, width, leftAlign);
    var m := Marked(name, width, leftAlign);
    if leftAlign && (|name| == 0 || name[0] != '#') {
      MarkedHash(name, width);
      if |h| > 0 {
        var u := Underscored(name);
        forall i | 0 <= i < |h| - 1
          ensures h[1..][i] == u[..|h| - 1][i]
        {
          assert h[1..][i] == h[i + 1];
          assert m[i + 1] == name[i];
        }
      }
    }
  }

  /** The '#' mark put before a left-aligned name, cut to the width. */
  lemma MarkedHash(name: string, width: nat)
    requires |name| == 0 || name[0] != '#'
    ensures var m := Marked(name, width, true);
            |m| == (if |name| + 1 <= width then |name| + 1 else width)
            && (|m| > 0 ==> m[0] == '#')
            && forall i :: 1 <= i < |m| ==> m[i] == name[i - 1]
  {
    var t := "#" + name;
    assert Marked(name, width, true) == if |t| > width then t[..width] else t;
  }

  /** Writing a written name again changes nothing. */
  lemma HeaderNameIdempotent(name: string, width: nat, leftAlign: bool)
    ensures HeaderName(HeaderName(name, width, leftAlign), width, leftAlign) == HeaderName(name, width, leftAlign)
  {
    var h := HeaderName(name, width, leftAlign);
    HeaderNameShape(name, width, leftAlign);
    assert Marked(h, width, leftAlign) == h;
    UnderscoredFixed(h);
  }

  /** The top-left cell of a square grid is never cut to the x column
      width: its label starts with '#'. It is "#Frame" without axis labels,
      else "#X-Y" with the labels' spaces made underscores. */
  lemma GridHeaderUncut(xLabel: string, yLabel: string)
    ensures var h := HeaderName(GridLabel(xLabel, yLabel), XCOL_WIDTH, true);
            h == Underscored(GridLabel(xLabel, yLabel))
            && (|xLabel| == 0 && |yLabel| == 0 ==> h == "#Frame")
            && (|xLabel| > 0 || |yLabel| > 0 ==> h == "#" + Underscored(xLabel) + "-" + Underscored(yLabel))
  {
    var g := GridLabel(xLabel, yLabel);
    assert g[0] == '#';
    assert Marked(g, XCOL_WIDTH, true) == g;
    if |xLabel| == 0 && |yLabel| == 0 {
      UnderscoredFixed("#Frame");
    } else {
      UnderscoredAxes(xLabel, yLabel);
    }
  }

  /** The spaces of "#X-Y" made underscores are those of X and of Y. */
  lemma UnderscoredAxes(xLabel: string, yLabel: string)
    ensures Underscored("#" + xLabel + "-" + yLabel) == "#" + Underscored(xLabel) + "-" + Underscored(yLabel)
  {
    UnderscoredConcat("#" + xLabel, "-" + yLabel);
    UnderscoredConcat("#", xLabel);
    UnderscoredConcat("-", yLabel);
    UnderscoredFixed("#");
    UnderscoredFixed("-");
    assert "#" + xLabel + "-" + yLabel == ("#" + xLabel) + ("-" + yLabel);
  }

  /** WriteSet2D refuses a set that is not 2D; writes nothing before the
      data without a header; else a '#' comment: the grid cell when square,
      the x and y labels and the legend otherwise. */
  lemma Set2DHeaderCases(s: Settings, ndim: int, xLabel: string, yLabel: string, legend: string)
    ensures var (err, h) := Set2DHeader(s, ndim, xLabel, yLabel, legend);
            (err == 1 <==> ndim != 2) && (err == 0 || err == 1)
            && (|h| == 0 <==> ndim != 2 || !s.writeHeader)
            && (|h| > 0 ==> h[0] == '#')
            && (ndim == 2 && s.writeHeader && s.square2d ==> h == Underscored(GridLabel(xLabel, yLabel)))
            && (ndim == 2 && s.writeHeader && !s.square2d ==> h == "#" + xLabel + " " + yLabel + " " + legend + "\n")
  {
    GridHeaderUncut(xLabel, yLabel);
  }
}
