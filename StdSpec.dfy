/** What the standard text data file reader and writer of src/DataIO_Std.cpp
    decides, as functions over the lines of a file. A file is its sequence of
    lines without their terminators; a line is split into tokens at the
    separators " ,\t". The class in StdIO.dfy performs the same steps with
    loops and is proved to give what these give. */
module StdSpec {

  // ---------------------------------------------------------------------------
  // Arguments and settings

  /** The read modes of processReadArgs: read1d, read2d, vector and mat3x3. */
  datatype ReadMode = OneD | TwoD | Vector | Mat3x3

  /** The arguments a data file was given: the keywords present, and the
      integer given after each keyword that takes one. */
  datatype ArgList = ArgList(keys: set<string>, values: map<string, int>)
  {
    /** ArgList::hasKey. */
    predicate HasKey(k: string) {
      k in keys
    }

    /** ArgList::getKeyInt: the value given after `k`, else `def`. */
    function KeyInt(k: string, def: int): (v: int) {
      if k in values then values[k] else def
    }
  }

  /** The fields of a DataIO_Std object: mode_, indexcol_ (0-based, -1 for
      none), isInverted_, hasXcolumn_, writeHeader_ and square2d_. */
  datatype Settings = Settings(mode: ReadMode, indexcol: int, isInverted: bool,
                               hasXcolumn: bool, writeHeader: bool, square2d: bool)

  /** The mode of the first of read1d, read2d, vector and mat3x3 that is
      present, read1d when none is. */
  function ModeOf(args: ArgList): (mode: ReadMode) {
    if args.HasKey("read1d") then OneD
    else if args.HasKey("read2d") then TwoD
    else if args.HasKey("vector") then Vector
    else if args.HasKey("mat3x3") then Mat3x3
    else OneD
  }

  /** The status and indexcol_ processReadArgs leaves, as written: the user's
      1-based column minus one, so that an absent key (-1) is stored as -2;
      column 0 is refused and left as 0. */
  function IndexColumnAsWritten(args: ArgList): (res: (int, int)) {
    var k := args.KeyInt("index", -1);
    if k == 0 then (1, 0) else (0, k - 1)
  }

  /** The status and indexcol_ processReadArgs should leave: a column k >= 1
      becomes the 0-based k - 1, no column (or a negative one) stays -1, the
      value Read_1D tests for "no index column"; column 0 is refused. */
  function IndexColumn(args: ArgList): (res: (int, int)) {
    var k := args.KeyInt("index", -1);
    if k == 0 then (1, 0) else if k > 0 then (0, k - 1) else (0, -1)
  }

  /** The write flags processWriteArgs sets, the others kept. */
  function WriteSettings(args: ArgList, s: Settings): (w: Settings) {
    s.(isInverted := args.HasKey("invert"), hasXcolumn := !args.HasKey("noxcol"),
       writeHeader := !args.HasKey("noheader"),
       square2d := args.HasKey("square2d") && !args.HasKey("nosquare2d"))
  }

  // ---------------------------------------------------------------------------
  // Lines and tokens

  /** DataIO_Std::SEPARATORS. */
  predicate IsSeparator(c: char) {
    c == ' ' || c == ',' || c == '\t'
  }

  /** A token: a non-empty run of characters that are not separators. */
  predicate IsWord(t: string) {
    |t| > 0 && forall i :: 0 <= i < |t| ==> !IsSeparator(t[i])
  }

  /** The end of the word that starts `s` and has no separator before `i`. */
  function WordEnd(s: string, i: nat): (n: nat)
    requires 1 <= i <= |s|
    requires forall j :: 0 <= j < i ==> !IsSeparator(s[j])
    ensures i <= n <= |s| && (n == |s| || IsSeparator(s[n]))
    ensures forall j :: 0 <= j < n ==> !IsSeparator(s[j])
    decreases |s| - i
  {
    if i == |s| || IsSeparator(s[i]) then i else WordEnd(s, i + 1)
  }

  /** The tokens of a line: its maximal runs of non-separators, in order
      (how BufferedLine::TokenizeLine and ArgList::SetList split a line). */
  function Tokens(s: string): (ts: seq<string>)
    ensures forall i :: 0 <= i < |ts| ==> IsWord(ts[i])
    decreases |s|
  {
    if |s| == 0 then []
    else if IsSeparator(s[0]) then Tokens(s[1..])
    else
      var n := WordEnd(s, 1);
      [s[..n]] + Tokens(s[n..])
  }

  /** The number of tokens of a line. */
  function Count(s: string): (n: nat) {
    |Tokens(s)|
  }

  /** The number of lines from `from` on that have `n` tokens each, up to the
      first line that does not. */
  function RunLength(lines: seq<string>, from: nat, n: nat): (k: nat)
    requires from <= |lines|
    ensures from + k <= |lines|
    decreases |lines| - from
  {
    if from == |lines| || Count(lines[from]) != n then 0 else 1 + RunLength(lines, from + 1, n)
  }

  /** A comment line of Read_2D, Read_Vector and Read_Mat3x3: its first
      character is '#'. */
  predicate IsHashLine(s: string) {
    |s| > 0 && s[0] == '#'
  }

  /** The first line from `i` on that is not a comment line. */
  function FirstData(lines: seq<string>, i: nat): (d: nat)
    requires i <= |lines|
    ensures i <= d <= |lines|
    decreases |lines| - i
  {
    if i == |lines| || !IsHashLine(lines[i]) then i else FirstData(lines, i + 1)
  }

  // ---------------------------------------------------------------------------
  // Read_1D: comment lines, labels and the index column

  /** isspace in the C locale. */
  predicate IsSpace(c: char) {
    c == ' ' || c == '\t' || c == '\n' || c == '\r' || c == '\U{000B}' || c == '\U{000C}'
  }

  /** A line without its leading white space. */
  function SkipSpace(s: string): (t: string)
    ensures |t| <= |s|
    ensures |t| == 0 || !IsSpace(t[0])
  {
    if |s| > 0 && IsSpace(s[0]) then SkipSpace(s[1..]) else s
  }

  /** A comment line of Read_1D: '#' after any leading white space. */
  predicate IsLabelLine(s: string) {
    var t := SkipSpace(s);
    |t| > 0 && t[0] == '#'
  }

  /** The labels a comment line gives: the tokens after its '#'. */
  function LabelsOf(s: string): (labels: seq<string>)
    requires IsLabelLine(s)
  {
    Tokens(SkipSpace(s)[1..])
  }

  /** Where Read_1D's comment scan stands: the line it is at, the labels of
      the last comment line, whether any comment line gave labels, and
      indexcol_. */
  datatype LabelScan = LabelScan(line: nat, labels: seq<string>, hasLabels: bool, indexcol: int)

  /** The labels of a comment line taken in: a first label "Frame" makes
      column 0 the index column when there is none yet. */
  function TakeLabels(s: LabelScan, labels: seq<string>): (next: LabelScan) {
    LabelScan(s.line + 1, labels, s.hasLabels || |labels| > 0,
              if |labels| > 0 && labels[0] == "Frame" && s.indexcol == -1 then 0 else s.indexcol)
  }

  /** Read_1D's comment scan from line `s.line`: each comment line gives its
      labels, until the first line that is not a comment; reaching the end of
      the file instead leaves `line == |lines|`. */
  function ScanLabels(lines: seq<string>, s: LabelScan): (r: LabelScan)
    requires s.line < |lines|
    ensures s.line <= r.line <= |lines|
    ensures r.line > s.line ==> IsLabelLine(lines[r.line - 1])
    decreases |lines| - s.line
  {
    if !IsLabelLine(lines[s.line]) then s
    else
      var next := TakeLabels(s, LabelsOf(lines[s.line]));
      if next.line == |lines| then next else ScanLabels(lines, next)
  }

  /** How Read_1D ends: read, or one of its errors in the order it checks them. */
  datatype Status1D = Read | NoLines | NoColumns | NoDataFound | IndexOutOfRange | NoDataDetected

  /** What Read_1D decides: the status, indexcol_ afterwards, the labels kept,
      the data column count, the first data line and the number of rows read. */
  datatype Read1DResult = Read1DResult(status: Status1D, indexcol: int, labels: seq<string>,
                                       hasLabels: bool, ntoken: nat, first: nat, rows: nat)

  /** Read_1D on `lines` with indexcol_ at `indexcol`. The first line must have
      tokens; the comment scan must reach a data line; labels whose count is
      not the data line's token count are dropped; an index column must lie
      within the data line; rows are read while they keep the token count. */
  function Parse1D(lines: seq<string>, indexcol: int): (res: Read1DResult) {
    if |lines| == 0 then Read1DResult(NoLines, indexcol, [], false, 0, 0, 0)
    else if Count(lines[0]) == 0 then Read1DResult(NoColumns, indexcol, [], false, 0, 0, 0)
    else
      var s := ScanLabels(lines, LabelScan(0, [], false, indexcol));
      if s.line == |lines| then Read1DResult(NoDataFound, s.indexcol, s.labels, s.hasLabels, 0, s.line, 0)
      else
        var ntoken := Count(lines[s.line]);
        var keep := |s.labels| == 0 || ntoken == |s.labels|;
        var labels := if keep then s.labels else [];
        var hasLabels := keep && s.hasLabels;
        if s.indexcol != -1 && s.indexcol >= ntoken then
          Read1DResult(IndexOutOfRange, s.indexcol, labels, hasLabels, ntoken, s.line, 0)
        else if ntoken == 0 then
          Read1DResult(NoDataDetected, s.indexcol, labels, hasLabels, ntoken, s.line, 0)
        else
          Read1DResult(Read, s.indexcol, labels, hasLabels, ntoken, s.line, RunLength(lines, s.line, ntoken))
  }

  // ---------------------------------------------------------------------------
  // Read_2D, Read_Vector and Read_Mat3x3

  /** Why a 2D, vector or 3x3 read fails: no data line, a first data line
      without tokens, a column count the format refuses, or a data line at
      index `line` whose count differs from the first one's. */
  datatype ReadError = NoData | NoTokens | BadColumnCount(ncols: nat)
                     | ColumnsChange(line: nat, ncols: nat, ntokens: nat)

  datatype Result<T> = Ok(value: T) | Fail(error: ReadError)

  /** A 2D matrix as Read_2D builds it: dims (ncols, nrows) and the tokens in
      row order (their conversion by atof is not modelled). */
  datatype Matrix = Matrix(ncols: nat, nrows: nat, values: seq<string>)

  /** The tokens of the lines, one line after the other. */
  function RowValues(lines: seq<string>): (values: seq<string>) {
    if |lines| == 0 then [] else RowValues(lines[..|lines| - 1]) + Tokens(lines[|lines| - 1])
  }

  /** The error for a column count that changes at line `j`, if it does. */
  function ColumnCheck(lines: seq<string>, d: nat, ncols: nat): (j: nat)
    requires d <= |lines|
    ensures d <= j <= |lines|
  {
    d + RunLength(lines, d, ncols)
  }

  /** Read_2D: skip the leading comment lines; the first data line fixes
      ncols and must have a token; every later line must have ncols tokens. */
  function Parse2D(lines: seq<string>): (res: Result<Matrix>) {
    var d := FirstData(lines, 0);
    if d == |lines| then Fail(NoData)
    else
      var ncols := Count(lines[d]);
      if ncols < 1 then Fail(NoTokens)
      else
        var j := ColumnCheck(lines, d, ncols);
        if j < |lines| then Fail(ColumnsChange(j, ncols, Count(lines[j])))
        else Ok(Matrix(ncols, |lines| - d, RowValues(lines[d..])))
  }

  /** One value Read_Vector or Read_Mat3x3 hands to its data set: a token
      (converted by atof, not modelled), or the 0 the buffer was filled with. */
  datatype Cell = Value(token: string) | Zero

  /** How the rows of a vector or 3x3 file are read: whether the first token
      is an index to skip, and how many values follow it. */
  datatype Layout = Layout(hasIndex: bool, nv: nat)
  {
    function Offset(): nat { if hasIndex then 1 else 0 }
  }

  /** Read_Vector's column rule: 3, 6 or 9 columns without an index, 4, 7 or
      10 with one; 6 values read from 6 columns on, else 3. */
  function VectorLayout(ncols: nat): (res: Result<Layout>) {
    if ncols == 3 || ncols == 6 || ncols == 9 then Ok(Layout(false, if ncols >= 6 then 6 else 3))
    else if ncols == 4 || ncols == 7 || ncols == 10 then Ok(Layout(true, if ncols >= 6 then 6 else 3))
    else Fail(BadColumnCount(ncols))
  }

  /** Read_Mat3x3's column rule: 9 columns, or 10 with an index. */
  function Mat3x3Layout(ncols: nat): (res: Result<Layout>) {
    if ncols == 9 then Ok(Layout(false, 9))
    else if ncols == 10 then Ok(Layout(true, 9))
    else Fail(BadColumnCount(ncols))
  }

  /** The buffer of `width` values handed over for a row: the `nv` values
      after the index, then zeros. */
  function FixedRow(tokens: seq<string>, l: Layout, width: nat): (row: seq<Cell>)
    requires l.nv <= width && l.Offset() + l.nv <= |tokens|
    ensures |row| == width
  {
    seq(width, i requires 0 <= i < width => if i < l.nv then Value(tokens[l.Offset() + i]) else Zero)
  }

  /** The buffers handed over for the lines, each of which has `ncols` tokens. */
  function FixedRows(lines: seq<string>, ncols: nat, l: Layout, width: nat): (rows: seq<seq<Cell>>)
    requires l.nv <= width && l.Offset() + l.nv <= ncols
    requires forall k :: 0 <= k < |lines| ==> Count(lines[k]) == ncols
    ensures |rows| == |lines|
  {
    if |lines| == 0 then []
    else
      assert Count(lines[|lines| - 1]) == ncols;
      FixedRows(lines[..|lines| - 1], ncols, l, width) + [FixedRow(Tokens(lines[|lines| - 1]), l, width)]
  }

  /** Read_Vector and Read_Mat3x3 once the layout is known: every data line
      must have the first one's token count; each gives one buffer. */
  function ParseRows(lines: seq<string>, d: nat, ncols: nat, l: Layout, width: nat): (res: Result<seq<seq<Cell>>>)
    requires d <= |lines| && l.nv <= width && l.Offset() + l.nv <= ncols
  {
    var j := ColumnCheck(lines, d, ncols);
    if j < |lines| then Fail(ColumnsChange(j, ncols, Count(lines[j])))
    else
      RunFills(lines, d, ncols);
      Ok(FixedRows(lines[d..], ncols, l, width))
  }

  /** A run that reaches the end of the file covers every line from its start. */
  lemma RunFills(lines: seq<string>, d: nat, n: nat)
    requires d <= |lines| && d + RunLength(lines, d, n) == |lines|
    ensures forall k :: 0 <= k < |lines[d..]| ==> Count(lines[d..][k]) == n
    decreases |lines| - d
  {
    if d < |lines| {
      RunFills(lines, d + 1, n);
      forall k | 0 <= k < |lines[d..]|
        ensures Count(lines[d..][k]) == n
      {
        if k > 0 {
          assert lines[d..][k] == lines[d + 1..][k - 1];
        }
      }
    }
  }

  /** The token count of the first data line, or 0 when the comment lines
      run to the end of the file. */
  function FirstCount(lines: seq<string>, d: nat): (n: nat)
    requires d <= |lines|
  {
    if d == |lines| then 0 else Count(lines[d])
  }

  /** Read_Vector: rows of 6 values. */
  function ParseVectors(lines: seq<string>): (res: Result<seq<seq<Cell>>>) {
    var d := FirstData(lines, 0);
    var ncols := FirstCount(lines, d);
    if ncols < 1 then Fail(NoTokens)
    else match VectorLayout(ncols)
      case Fail(e) => Fail(e)
      case Ok(l) => ParseRows(lines, d, ncols, l, 6)
  }

  /** Read_Mat3x3: rows of 9 values. */
  function ParseMat3x3(lines: seq<string>): (res: Result<seq<seq<Cell>>>) {
    var d := FirstData(lines, 0);
    var ncols := FirstCount(lines, d);
    if ncols < 1 then Fail(NoTokens)
    else match Mat3x3Layout(ncols)
      case Fail(e) => Fail(e)
      case Ok(l) => ParseRows(lines, d, ncols, l, 9)
  }

  // ---------------------------------------------------------------------------
  // Writing headers

  /** A column label with its spaces made underscores. */
  function Underscored(s: string): (u: string)
    ensures |u| == |s|
    ensures forall i :: 0 <= i < |s| ==> u[i] == if s[i] == ' ' then '_' else s[i]
  {
    if |s| == 0 then [] else Underscored(s[..|s| - 1]) + [if s[|s| - 1] == ' ' then '_' else s[|s| - 1]]
  }

  /** The label before its spaces are replaced: left-aligned labels that do
      not start with '#' get one, and are then cut to `width`. (Of an empty
      label, temp_name[0] is the terminating NUL, not '#'.) */
  function Marked(name: string, width: nat, leftAlign: bool): (m: string) {
    if leftAlign && (|name| == 0 || name[0] != '#') then
      var t := "#" + name;
      if |t| > width then t[..width] else t
    else name
  }

  /** The name WriteNameToBuffer writes (before padding to the width). */
  function HeaderName(name: string, width: nat, leftAlign: bool): (h: string) {
    Underscored(Marked(name, width, leftAlign))
  }

  /** The label WriteSet2D gives the top-left cell of a square grid. */
  function GridLabel(xLabel: string, yLabel: string): (g: string) {
    if |xLabel| == 0 && |yLabel| == 0 then "#Frame" else "#" + xLabel + "-" + yLabel
  }

  /** The x column width WriteSet2D passes. */
  const XCOL_WIDTH: nat := 8

  /** What WriteSet2D writes before the data of a set with `ndim`
      dimensions, with status: an error for a set that is not 2D; nothing
      without a header; for a square grid the named top-left cell (the x
      coordinates that follow it are not modelled); else the comment line
      of the x and y labels and the legend. */
  function Set2DHeader(s: Settings, ndim: int, xLabel: string, yLabel: string, legend: string): (res: (int, string)) {
    if ndim != 2 then (1, "")
    else if !s.writeHeader then (0, "")
    else if s.square2d then (0, HeaderName(GridLabel(xLabel, yLabel), XCOL_WIDTH, true))
    else (0, "#" + xLabel + " " + yLabel + " " + legend + "\n")
  }
}
