/** A DataIO_Std object (src/DataIO_Std.cpp): the settings processReadArgs
    and processWriteArgs store in its fields, the readers that use them, and
    the header names it writes. Each method is proved to give what the
    functions of StdSpec give. */
module StdIO {
  import opened StdSpec

  class DataIOStd {
    var mode: ReadMode
    var indexcol: int
    var isInverted: bool
    var hasXcolumn: bool
    var writeHeader: bool
    var square2d: bool

    /** The fields, as one value. */
    ghost function State(): Settings
      reads this
    {
      Settings(mode, indexcol, isInverted, hasXcolumn, writeHeader, square2d)
    }

    /** The constructor's defaults: read1d, an x column and a header, not
        inverted, not square. (indexcol_ is left unset there; it starts at
        "none" here.) */
    constructor ()
      ensures State() == Settings(OneD, -1, false, true, true, false)
    {
      mode := OneD;
      indexcol := -1;
      isInverted := false;
      hasXcolumn := true;
      writeHeader := true;
      square2d := false;
    }

    /** processReadArgs: the mode of the first mode keyword present, and the
        index column made 0-based; column 0 is an error. The index column is
        the corrected one of IndexColumn: an absent or negative column stays
        -1, where the source's unconditional decrement stores one less
        (IndexColumnAsWritten). */
    method ProcessReadArgs(args: ArgList) returns (err: int)
      modifies this
      ensures mode == ModeOf(args) && (err, indexcol) == IndexColumn(args)
      ensures State() == old(State()).(mode := mode, indexcol := indexcol)
    {
      mode := OneD;
      if args.HasKey("read1d") {
        mode := OneD;
      } else if args.HasKey("read2d") {
        mode := TwoD;
      } else if args.HasKey("vector") {
        mode := Vector;
      } else if args.HasKey("mat3x3") {
        mode := Mat3x3;
      }
      indexcol := args.KeyInt("index", -1);
      if indexcol == 0 {
        return 1;
      }
      if indexcol > 0 {
        indexcol := indexcol - 1;
      } else {
        indexcol := -1;
      }
      return 0;
    }

    /** processWriteArgs: invert, noxcol, noheader, and square2d unless
        nosquare2d is also given. */
    method ProcessWriteArgs(args: ArgList) returns (err: int)
      modifies this
      ensures err == 0 && State() == WriteSettings(args, old(State()))
    {
      isInverted := args.HasKey("invert");
      hasXcolumn := !args.HasKey("noxcol");
      writeHeader := !args.HasKey("noheader");
      square2d := args.HasKey("square2d");
      if args.HasKey("nosquare2d") {
        square2d := false;
      }
      return 0;
    }

    /** The leading white space of a line skipped, as Read_1D steps past it. */
    static method SkipWhite(text: string) returns (p: nat)
      ensures p <= |text| && text[p..] == SkipSpace(text)
    {
      p := 0;
      while p < |text| && IsSpace(text[p])
        invariant p <= |text| && SkipSpace(text[p..]) == SkipSpace(text)
      {
        assert text[p..][1..] == text[p + 1..];
        p := p + 1;
      }
    }

    /** Whether a line is a Read_1D comment line, and then its labels: the
        tokens after the '#' that follows any leading white space. */
    static method CommentLabels(text: string) returns (isComment: bool, labels: seq<string>)
      ensures isComment == IsLabelLine(text)
      ensures isComment ==> labels == LabelsOf(text)
    {
      var p := SkipWhite(text);
      isComment := p < |text| && text[p] == '#';
      labels := [];
      if isComment {
        assert text[p + 1..] == SkipSpace(text)[1..];
        labels := Tokens(text[p + 1..]);
      }
    }

    /** Read_1D's comment scan: each line that is '#' after white space
        gives its labels, until the first line that is not; at the end of
        the file instead, `line == |lines|`. */
    method ScanComments(lines: seq<string>) returns (line: nat, labels: seq<string>, hasLabels: bool)
      requires |lines| > 0
      modifies this
      ensures LabelScan(line, labels, hasLabels, indexcol) == ScanLabels(lines, LabelScan(0, [], false, old(indexcol)))
      ensures State() == old(State()).(indexcol := indexcol)
    {
      var ic;
      line, labels, hasLabels, ic := ScanLines(lines, indexcol);
      indexcol := ic;
    }

    /** The comment scan on its own, from index column `indexcol0`. */
    static method ScanLines(lines: seq<string>, indexcol0: int)
      returns (line: nat, labels: seq<string>, hasLabels: bool, indexcol: int)
      requires |lines| > 0
      ensures LabelScan(line, labels, hasLabels, indexcol) == ScanLabels(lines, LabelScan(0, [], false, indexcol0))
    {
      ghost var start := LabelScan(0, [], false, indexcol0);
      labels, hasLabels, line, indexcol := [], false, 0, indexcol0;
      var isCommentLine := true;
      while isCommentLine
        invariant line < |lines|
        invariant isCommentLine ==> ScanLabels(lines, LabelScan(line, labels, hasLabels, indexcol)) == ScanLabels(lines, start)
        invariant !isCommentLine ==> LabelScan(line, labels, hasLabels, indexcol) == ScanLabels(lines, start)
        decreases |lines| - line, isCommentLine
      {
        ghost var before := LabelScan(line, labels, hasLabels, indexcol);
        var found;
        isCommentLine, found := CommentLabels(lines[line]);
        if !isCommentLine {
          assert ScanLabels(lines, before) == before;
        } else {
          labels := found;
          if |labels| > 0 {
            hasLabels := true;
            if labels[0] == "Frame" && indexcol == -1 {
              indexcol := 0;
            }
          }
          line := line + 1;
          assert LabelScan(line, labels, hasLabels, indexcol) == TakeLabels(before, LabelsOf(lines[line - 1]));
          if line == |lines| {
            return;
          }
        }
      }
    }

    /** The number of rows Read_1D reads from line `first`: it stops at the
        first line whose token count is not `ntoken`. */
    static method CountRows(lines: seq<string>, first: nat, ntoken: nat) returns (rows: nat)
      requires first <= |lines|
      ensures rows == RunLength(lines, first, ntoken)
    {
      var line := first;
      rows := 0;
      while line < |lines|
        invariant first <= line <= |lines| && rows == line - first
        invariant RunLength(lines, first, ntoken) == rows + RunLength(lines, line, ntoken)
      {
        if Count(lines[line]) != ntoken {
          break;
        }
        rows := rows + 1;
        line := line + 1;
      }
    }

    /** Read_1D up to its data values: the first line must have tokens, the
        comment lines give labels (a first label "Frame" may set the index
        column), the labels must match the data line's token count to be
        kept, the index column must lie in the data line, and the rows are
        read while they keep its token count. indexcol_ is the only field
        it changes. */
    method Read1D(lines: seq<string>) returns (r: Read1DResult)
      modifies this
      ensures r == Parse1D(lines, old(indexcol))
      ensures State() == old(State()).(indexcol := r.indexcol)
    {
      if |lines| == 0 {
        return Read1DResult(NoLines, indexcol, [], false, 0, 0, 0);
      }
      var ntoken := Count(lines[0]);
      if ntoken == 0 {
        return Read1DResult(NoColumns, indexcol, [], false, 0, 0, 0);
      }
      var line, labels, hasLabels := ScanComments(lines);
      if line == |lines| {
        return Read1DResult(NoDataFound, indexcol, labels, hasLabels, 0, line, 0);
      }
      ntoken := Count(lines[line]);
      if |labels| > 0 && ntoken != |labels| {
        labels := [];
        hasLabels := false;
      }
      if indexcol != -1 && indexcol >= ntoken {
        return Read1DResult(IndexOutOfRange, indexcol, labels, hasLabels, ntoken, line, 0);
      }
      if ntoken == 0 {
        return Read1DResult(NoDataDetected, indexcol, labels, hasLabels, ntoken, line, 0);
      }
      var rows := CountRows(lines, line, ntoken);
      return Read1DResult(Read, indexcol, labels, hasLabels, ntoken, line, rows);
    }

    /** The leading comment lines skipped, as Read_2D, Read_Vector and
        Read_Mat3x3 each do. */
    static method SkipComments(lines: seq<string>) returns (d: nat)
      ensures d == FirstData(lines, 0)
    {
      d := 0;
      while d < |lines| && IsHashLine(lines[d])
        invariant d <= |lines| && FirstData(lines, d) == FirstData(lines, 0)
      {
        d := d + 1;
      }
    }

    /** Read_2D: the matrix of the data lines, or why there is none. */
    method Read2D(lines: seq<string>) returns (r: Result<Matrix>)
      ensures r == Parse2D(lines)
    {
      var line := SkipComments(lines);
      ghost var d := line;
      var ncols: int := -1;
      var nrows := 0;
      var matrix: seq<string> := [];
      while line < |lines|
        invariant d <= line <= |lines| && nrows == line - d
        invariant ncols == if line == d then -1 else Count(lines[d])
        invariant line > d ==> ncols >= 1
        invariant line > d ==> RunLength(lines, d, ncols) == (line - d) + RunLength(lines, line, ncols)
        invariant matrix == RowValues(lines[d..line])
      {
        var ntokens := Count(lines[line]);
        if ncols < 0 {
          ncols := ntokens;
          if ntokens < 1 {
            return Fail(NoTokens);
          }
        } else if ncols != ntokens {
          assert RunLength(lines, line, ncols) == 0;
          return Fail(ColumnsChange(line, ncols, ntokens));
        }
        var tokens := Tokens(lines[line]);
        var i := 0;
        while i < ntokens
          invariant i <= ntokens && matrix == RowValues(lines[d..line]) + tokens[..i]
        {
          matrix := matrix + [tokens[i]];
          i := i + 1;
        }
        assert lines[d..line + 1][..line - d] == lines[d..line];
        nrows := nrows + 1;
        line := line + 1;
      }
      if ncols < 0 {
        return Fail(NoData);
      }
      assert lines[d..line] == lines[d..];
      return Ok(Matrix(ncols, nrows, matrix));
    }

    /** The data rows of a vector or 3x3 file from line `d`: each must have
        `ncols` tokens; each fills the first `l.nv` places of a buffer of
        `width` values, zeroed once before the first row. */
    static method ReadRows(lines: seq<string>, d: nat, ncols: nat, l: Layout, width: nat) returns (r: Result<seq<seq<Cell>>>)
      requires d <= |lines| && l.nv <= width && l.Offset() + l.nv <= ncols
      ensures r == ParseRows(lines, d, ncols, l, width)
    {
      var buffer := new Cell[width](_ => Zero);
      var rows: seq<seq<Cell>> := [];
      var line := d;
      while line < |lines|
        invariant d <= line <= |lines|
        invariant RunLength(lines, d, ncols) == (line - d) + RunLength(lines, line, ncols)
        invariant forall k :: d <= k < line ==> Count(lines[k]) == ncols
        invariant rows == FixedRows(lines[d..line], ncols, l, width)
        invariant forall k :: l.nv <= k < width ==> buffer[k] == Zero
      {
        var ntokens := Count(lines[line]);
        if ncols != ntokens {
          return Fail(ColumnsChange(line, ncols, ntokens));
        }
        FillRow(buffer, Tokens(lines[line]), l);
        assert lines[d..line + 1][..line - d] == lines[d..line];
        rows := rows + [buffer[..]];
        line := line + 1;
      }
      assert lines[d..line] == lines[d..];
      return Ok(rows);
    }

    /** One row into the buffer: the index skipped, then the next `l.nv`
        tokens into its first places; the zeros after them stay. */
    static method FillRow(buffer: array<Cell>, tokens: seq<string>, l: Layout)
      requires l.nv <= buffer.Length && l.Offset() + l.nv <= |tokens|
      requires forall k :: l.nv <= k < buffer.Length ==> buffer[k] == Zero
      modifies buffer
      ensures buffer[..] == FixedRow(tokens, l, buffer.Length)
    {
      var i := 0;
      while i < l.nv
        invariant i <= l.nv
        invariant forall k :: 0 <= k < i ==> buffer[k] == Value(tokens[l.Offset() + k])
        invariant forall k :: l.nv <= k < buffer.Length ==> buffer[k] == Zero
      {
        buffer[i] := Value(tokens[l.Offset() + i]);
        i := i + 1;
      }
    }

    /** Read_Vector: rows of VX VY VZ [OX OY OZ], from 3, 6 or 9 columns, or
        4, 7 or 10 with an index. */
    method ReadVector(lines: seq<string>) returns (r: Result<seq<seq<Cell>>>)
      ensures r == ParseVectors(lines)
    {
      var d := SkipComments(lines);
      var ntokens := if d == |lines| then 0 else Count(lines[d]);
      var ncols := ntokens;
      if ntokens < 1 {
        return Fail(NoTokens);
      }
      var hasIndex: bool;
      if ncols == 3 || ncols == 6 || ncols == 9 {
        hasIndex := false;
      } else if ncols == 4 || ncols == 7 || ncols == 10 {
        hasIndex := true;
      } else {
        return Fail(BadColumnCount(ncols));
      }
      var nv := if ncols >= 6 then 6 else 3;
      r := ReadRows(lines, d, ncols, Layout(hasIndex, nv), 6);
    }

    /** Read_Mat3x3: rows of the nine matrix elements, from 9 columns, or 10
        with an index. */
    method ReadMat3x3(lines: seq<string>) returns (r: Result<seq<seq<Cell>>>)
      ensures r == ParseMat3x3(lines)
    {
      var d := SkipComments(lines);
      var ntokens := if d == |lines| then 0 else Count(lines[d]);
      if ntokens < 1 {
        return Fail(NoTokens);
      }
      var ncols := ntokens;
      var hasIndex: bool;
      if ncols == 9 {
        hasIndex := false;
      } else if ncols == 10 {
        hasIndex := true;
      } else {
        return Fail(BadColumnCount(ncols));
      }
      r := ReadRows(lines, d, ncols, Layout(hasIndex, 9), 9);
    }

    /** WriteNameToBuffer: the name of a column header, '#'-marked and cut to
        the width when left-aligned, with its spaces made underscores. */
    static method WriteNameToBuffer(name: string, width: nat, leftAlign: bool) returns (written: string)
      ensures written == HeaderName(name, width, leftAlign)
    {
      var temp := name;
      if leftAlign {
        if |temp| == 0 || temp[0] != '#' {
          temp := "#" + temp;
          if |temp| > width {
            temp := temp[..width];
          }
        }
      }
      ghost var marked := temp;
      var i := 0;
      while i < |temp|
        invariant i <= |temp| == |marked|
        invariant forall k :: 0 <= k < i ==> temp[k] == if marked[k] == ' ' then '_' else marked[k]
        invariant forall k :: i <= k < |temp| ==> temp[k] == marked[k]
      {
        if temp[i] == ' ' {
          temp := temp[i := '_'];
        }
        i := i + 1;
      }
      assert temp == Underscored(marked);
      return temp;
    }

    /** What WriteSet2D writes before a set's data. */
    method WriteSet2DHeader(ndim: int, xLabel: string, yLabel: string, legend: string) returns (err: int, header: string)
      ensures (err, header) == Set2DHeader(State(), ndim, xLabel, yLabel, legend)
    {
      if ndim != 2 {
        return 1, "";
      }
      header := "";
      if square2d {
        if writeHeader {
          var grid := if |xLabel| == 0 && |yLabel| == 0 then "#Frame" else "#" + xLabel + "-" + yLabel;
          header := WriteNameToBuffer(grid, XCOL_WIDTH, true);
        }
      } else if writeHeader {
        header := "#" + xLabel + " " + yLabel + " " + legend + "\n";
      }
      return 0, header;
    }
  }
}
