/** What the GROMACS TRR/TRJ reader of src/Traj_GmxTrX.cpp does, as functions
    over the reader's whole state. The class in TrxReader.dfy performs the
    same steps in place and is proved to end in the state these give. */
module TrxSpec {
  import opened ByteOrder

  /** The magic number every TRR/TRJ frame starts with. */
  const MAGIC: int := 1993
  /** Length of the reader's staging buffer linebuffer_ (Traj_GmxTrX.h). */
  const BUF_SIZE: nat := 128
  /** read_string's chunk size, BUF_SIZE - 1. */
  const CHUNK: nat := BUF_SIZE - 1
  /** frameSize_ is a size_t: sums wrap modulo 2^64. */
  const SIZE_T_LIMIT: int := 0x1_0000_0000_0000_0000

  datatype Option<T> = None | Some(value: T)

  datatype Format = TRR | TRJ

  /** A real as read_real leaves it in a float: the float whose host-order
      bytes are `bits`, or the double whose bytes are `bits` narrowed to float. */
  datatype Real = Single(bits: seq<byte>) | Narrowed(bits: seq<byte>)

  /** One value ReadAtomVector stores in X or V: FromFloat(b) is the float with
      host-order bytes b times ANGS_PER_NM (10), widened to double;
      FromDouble(b) is the double with host-order bytes b, not scaled. */
  datatype Coordinate = FromFloat(bits: seq<byte>) | FromDouble(bits: seq<byte>)

  /** The box SetBox receives: all zero when the file has no box block, else
      derived from the 9 basis components read at `precision` bytes each,
      `raw` being the bytes exactly as read (ReadBox applies no byte swap). */
  datatype Box = ZeroBox | FromBasis(raw: seq<byte>, precision: int)

  /** The thirteen integers ReadTrxHeader reads in order: the ir, e, box,
      vir, pres, top, sym, x, v and f block sizes, natoms, step and nre. */
  type Counts = s: seq<int> | |s| == 13 witness [0, 0, 0, 0, 0, 0, 0, 0, 0, 0, 0, 0, 0]

  /** The fields ReadTrxHeader assigns. */
  datatype Header = Header(title: seq<byte>, counts: Counts, natom3: int, precision: int, dt: Real, lambda: Real)
  {
    function irSize(): int { counts[0] }
    function eSize(): int { counts[1] }
    function boxSize(): int { counts[2] }
    function virSize(): int { counts[3] }
    function presSize(): int { counts[4] }
    function topSize(): int { counts[5] }
    function symSize(): int { counts[6] }
    function xSize(): int { counts[7] }
    function vSize(): int { counts[8] }
    function fSize(): int { counts[9] }
    function natoms(): int { counts[10] }
    function step(): int { counts[11] }
    function nre(): int { counts[12] }
  }

  /** The field values the constructor gives. */
  const InitialHeader: Header :=
    Header([], [0, 0, 0, 0, 0, 0, 0, 0, 0, 0, 0, 0, 0], 0, 0, Single([0, 0, 0, 0]), Single([0, 0, 0, 0]))

  /** The reader's state besides the file contents, which never change and
      are passed alongside as `data`: the cursor of file_ (pos), the staging
      buffer linebuffer_ (buf), the float buffer farray_ (stage), and the
      reader's own fields. */
  datatype Reader = Reader(
    pos: nat, buf: seq<byte>, stage: seq<byte>,
    bigEndian: bool, format: Format, hdr: Header,
    frameSize: nat, seekable: bool, hasVelocity: bool, box: Box)

  /** Only the cursor, the buffers and the header fields change while reading. */
  predicate SameSetup(r: Reader, s: Reader) {
    s.bigEndian == r.bigEndian && s.format == r.format
    && s.frameSize == r.frameSize && s.seekable == r.seekable
    && s.hasVelocity == r.hasVelocity && s.box == r.box
  }

  // ---------------------------------------------------------------------------
  // The file: CpptrajFile::Read delivers what is left, up to the request.

  /** How many bytes a Read of `n` bytes at `pos` delivers. */
  function Avail(data: seq<byte>, pos: nat, n: nat): (k: nat)
    ensures k <= n
    ensures k > 0 ==> pos + k <= |data|
    ensures k == n <==> n == 0 || pos + n <= |data|
  {
    if pos >= |data| then 0 else Min(n, |data| - pos)
  }

  /** The bytes a Read of `n` bytes delivers. */
  function Got(data: seq<byte>, r: Reader, n: nat): (g: seq<byte>)
    ensures |g| == Avail(data, r.pos, n)
  {
    var k := Avail(data, r.pos, n);
    if k == 0 then [] else data[r.pos..r.pos + k]
  }

  /** A Read of `n` bytes whose bytes are not kept. */
  function Skip(data: seq<byte>, r: Reader, n: nat): (s: Reader)
    ensures s.(pos := r.pos) == r
    ensures r.pos <= s.pos <= r.pos + n
    ensures s.pos == r.pos + n <==> n == 0 || r.pos + n <= |data|
    ensures s.pos > r.pos ==> s.pos <= |data|
  {
    r.(pos := r.pos + Avail(data, r.pos, n))
  }

  /** A Read of `n` bytes into the front of linebuffer_. */
  function Fill(data: seq<byte>, r: Reader, n: nat): (s: Reader)
    requires n <= |r.buf|
    ensures s.(pos := r.pos, buf := r.buf) == r
    ensures |s.buf| == |r.buf| && s.pos == r.pos + Avail(data, r.pos, n)
  {
    var g := Got(data, r, n);
    r.(pos := r.pos + |g|, buf := g + r.buf[|g|..])
  }

  /** CpptrajFile::Seek: a negative offset fails and leaves the cursor alone. */
  function SeekTo(r: Reader, off: int): (s: Reader) {
    if off >= 0 then r.(pos := off) else r
  }

  // ---------------------------------------------------------------------------
  // read_int, read_real, read_string

  /** The integer read_int gives for the 4 bytes at the cursor. */
  function IntAt(data: seq<byte>, r: Reader): (v: int)
    requires r.pos + 4 <= |data|
    ensures IsInt32(v)
  {
    Int32(InHostOrder(data[r.pos..r.pos + 4], r.bigEndian))
  }

  /** The thirteen integer fields hold 32-bit values. */
  predicate Int32Fields(h: Header) {
    forall k :: 0 <= k < 13 ==> IsInt32(h.counts[k])
  }

  /** read_int into fields k, k+1, ..., n-1 in turn, stopping at the first
      short read; in the model a field whose read fails keeps its value,
      where the source has already copied the bytes it got into it. */
  function ReadFields(data: seq<byte>, r: Reader, k: nat, n: nat): (res: (bool, Reader))
    requires k <= n <= 13
    ensures SameSetup(r, res.1) && res.1.buf == r.buf && res.1.stage == r.stage
    ensures res.1.hdr == r.hdr.(counts := res.1.hdr.counts)
    ensures res.1.hdr.counts[..k] == r.hdr.counts[..k] && res.1.hdr.counts[n..] == r.hdr.counts[n..]
    ensures Int32Fields(r.hdr) ==> Int32Fields(res.1.hdr)
    decreases |r.hdr.counts| - k
  {
    if k == n then (true, r)
    else if r.pos + 4 > |data| then (false, Skip(data, r, 4))
    else ReadFields(data, r.(pos := r.pos + 4, hdr := r.hdr.(counts := r.hdr.counts[k := IntAt(data, r)])), k + 1, n)
  }

  datatype RealRead = RealRead(ok: bool, value: Real, next: Reader)

  /** read_real: `precision` bytes, byte-swapped when big-endian; any other
      precision than 4 or 8 fails without reading. On failure the target
      keeps `prior`. */
  function ReadReal(data: seq<byte>, r: Reader, prior: Real): (res: RealRead)
    ensures SameSetup(r, res.next) && res.next.buf == r.buf && res.next.stage == r.stage
    ensures res.next.hdr == r.hdr
  {
    var p := r.hdr.precision;
    if p != 4 && p != 8 then RealRead(false, prior, r)
    else if r.pos + p > |data| then RealRead(false, prior, Skip(data, r, p))
    else
      var bytes := InHostOrder(data[r.pos..r.pos + p], r.bigEndian);
      RealRead(true, if p == 4 then Single(bytes) else Narrowed(bytes), r.(pos := r.pos + p))
  }

  /** Where the first zero byte of `s` is, or |s| when it has none. */
  function ZeroAt(s: seq<byte>): (k: nat)
    ensures k <= |s|
    ensures k < |s| ==> s[k] == 0
  {
    if s == [] || s[0] == 0 then 0 else 1 + ZeroAt(s[1..])
  }

  /** The C string held by a buffer: its bytes up to the first zero. */
  function CStr(s: seq<byte>): (c: seq<byte>)
    ensures |c| <= |s| && c == s[..|c|]
  {
    s[..ZeroAt(s)]
  }

  /** The text the first `n` passes of read_string's chunk loop collect:
      each reads CHUNK bytes into linebuffer_ and appends the buffer's C
      string. */
  function ChunksText(data: seq<byte>, r: Reader, n: nat): (text: seq<byte>)
    requires |r.buf| == BUF_SIZE
    decreases n
  {
    if n == 0 then []
    else
      var r1 := Fill(data, r, CHUNK);
      CStr(r1.buf) + ChunksText(data, r1, n - 1)
  }

  /** The cursor and linebuffer_ after the first `n` passes of the chunk loop
      (CHUNK written out as 127 in the arithmetic, as in ReadChunked). */
  function ChunksEnd(data: seq<byte>, r: Reader, n: nat): (e: Reader)
    requires |r.buf| == BUF_SIZE
    ensures |e.buf| == BUF_SIZE && SameSetup(r, e)
    ensures e.hdr == r.hdr && e.stage == r.stage && e.buf[CHUNK] == r.buf[CHUNK]
    ensures e.pos >= r.pos
    ensures r.pos + 127 * n <= |data| ==> e.pos == r.pos + 127 * n
    decreases n
  {
    if n == 0 then r else ChunksEnd(data, Fill(data, r, CHUNK), n - 1)
  }

  /** read_string: a length from read_int, then that many bytes through
      linebuffer_, whole when shorter than BUF_SIZE, else in CHUNK-byte pieces
      and a leftover. A failed length read gives the empty string. So does a
      negative length in the model, with the cursor after the length; the
      source writes linebuffer_[size] there, outside the buffer. */
  function ReadString(data: seq<byte>, r: Reader): (res: (seq<byte>, Reader))
    requires |r.buf| == BUF_SIZE
    ensures |res.1.buf| == BUF_SIZE && SameSetup(r, res.1)
    ensures res.1.hdr == r.hdr && res.1.stage == r.stage
    ensures res.1.pos >= r.pos + 4 || res.1.pos >= |data|
  {
    if r.pos + 4 > |data| then ([], Skip(data, r, 4))
    else
      var size := IntAt(data, r);
      var r1 := r.(pos := r.pos + 4);
      if size < 0 then ([], r1)
      else if size < BUF_SIZE then ReadWhole(data, r1, size)
      else ReadChunked(data, r1, size)
  }

  /** read_string's read of a string shorter than BUF_SIZE, or of the
      leftover of a longer one: the bytes, a terminator after them, and the
      buffer's C string. */
  function ReadWhole(data: seq<byte>, r: Reader, size: nat): (res: (seq<byte>, Reader))
    requires |r.buf| == BUF_SIZE && size < BUF_SIZE
    ensures |res.1.buf| == BUF_SIZE && SameSetup(r, res.1)
    ensures res.1.hdr == r.hdr && res.1.stage == r.stage
    ensures res.1.pos >= r.pos
  {
    var r1 := Fill(data, r, size);
    var b := r1.buf[size := 0];
    (CStr(b), r1.(buf := b))
  }

  /** read_string's read of a string of BUF_SIZE bytes or more: size / CHUNK
      whole chunks with the terminator at linebuffer_[CHUNK], then the
      leftover if there is one (CHUNK written out as 127 to keep the
      arithmetic linear). */
  function ReadChunked(data: seq<byte>, r: Reader, size: nat): (res: (seq<byte>, Reader))
    requires |r.buf| == BUF_SIZE
    ensures |res.1.buf| == BUF_SIZE && SameSetup(r, res.1)
    ensures res.1.hdr == r.hdr && res.1.stage == r.stage
    ensures res.1.pos >= r.pos
  {
    Chunks(data, r, size / 127, size % 127)
  }

  /** `n` whole chunks, then a leftover of `leftover` bytes when it is not zero. */
  function Chunks(data: seq<byte>, r: Reader, n: nat, leftover: nat): (res: (seq<byte>, Reader))
    requires |r.buf| == BUF_SIZE && leftover < 127
    ensures |res.1.buf| == BUF_SIZE && SameSetup(r, res.1)
    ensures res.1.hdr == r.hdr && res.1.stage == r.stage
    ensures res.1.pos >= r.pos
  {
    var r0 := r.(buf := r.buf[CHUNK := 0]);
    var whole := ChunksText(data, r0, n);
    var r1 := ChunksEnd(data, r0, n);
    if leftover > 0 then
      var tail := ReadWhole(data, r1, leftover);
      (whole + tail.0, tail.1)
    else (whole, r1)
  }

  // ---------------------------------------------------------------------------
  // IsTRX

  /** The format a file name extension selects: TRJ only for ".trj". */
  function FormatOf(ext: string): (f: Format)
    ensures f == TRJ <==> ext == ".trj"
  {
    if ext == ".trr" then TRR else if ext == ".trj" then TRJ else TRR
  }

  datatype Detection = Detection(isTrx: bool, bigEndian: bool, format: Format)

  /** IsTRX on a file whose contents are `file`, for a reader whose byte order
      and format are `big` and `fmt` beforehand. */
  function IsTrx(file: seq<byte>, ext: string, big: bool, fmt: Format): (d: Detection) {
    if |file| < 4 then Detection(true, big, fmt)
    else if Int32(file[..4]) == MAGIC then Detection(true, false, FormatOf(ext))
    else if Int32(Reverse(file[..4])) == MAGIC then Detection(true, true, FormatOf(ext))
    else Detection(false, big, fmt)
  }

  /** IsTRX with the short read of the magic refused, as its documentation
      ("true if TRR/TRJ file") intends; IsTrx above returns 1, i.e. true,
      there. */
  function IsTrxChecked(file: seq<byte>, ext: string, big: bool, fmt: Format): (d: Detection) {
    if |file| < 4 then Detection(false, big, fmt) else IsTrx(file, ext, big, fmt)
  }

  // ---------------------------------------------------------------------------
  // ReadTrxHeader

  /** The atom count times three, as a 32-bit int. */
  function Natom3(natoms: int): (n: int)
    ensures IsInt32(n)
    ensures 1 <= natoms < INT32_LIMIT ==> n != 0
  {
    Wrap32(natoms * 3)
  }

  lemma Natom3NonZero(natoms: int)
    requires 1 <= natoms < INT32_LIMIT
    ensures Natom3(natoms) != 0
    ensures natoms * 3 < INT32_LIMIT ==> Natom3(natoms) == natoms * 3
  {
  }

  /** Precision from the first positive block size among x, v and f, divided
      by natom3; None when all three are zero or less. */
  function InferPrecision(h: Header): (p: Option<int>)
    requires h.natom3 != 0
    ensures p.None? <==> h.xSize() <= 0 && h.vSize() <= 0 && h.fSize() <= 0
  {
    if h.xSize() > 0 then Some(TruncDiv(h.xSize(), h.natom3))
    else if h.vSize() > 0 then Some(TruncDiv(h.vSize(), h.natom3))
    else if h.fSize() > 0 then Some(TruncDiv(h.fSize(), h.natom3))
    else None
  }

  /** ReadTrxHeader: a 4-byte magic (only its length is checked), a version
      unless TRJ, the title, ten block sizes, natoms (at least 1), step, nre,
      the inferred precision (4 or 8), then dt and lambda. Each field is
      assigned as it is read, so a failure leaves the earlier ones set. */
  function ReadHeader(data: seq<byte>, r: Reader): (res: (bool, Reader))
    requires |r.buf| == BUF_SIZE && Int32Fields(r.hdr)
    ensures |res.1.buf| == BUF_SIZE && SameSetup(r, res.1) && res.1.stage == r.stage
    ensures Int32Fields(res.1.hdr)
    ensures r.pos + 4 <= |data| ==> res == HeaderCounts(data, ReadTitle(data, r.(pos := r.pos + 4)))
  {
    if r.pos + 4 > |data| then (false, Skip(data, r, 4))
    else HeaderCounts(data, ReadTitle(data, r.(pos := r.pos + 4)))
  }

  /** ReadTrxHeader after the magic: the version unless TRJ, whose read is
      not checked, then the title through read_string. */
  function ReadTitle(data: seq<byte>, r: Reader): (s: Reader)
    requires |r.buf| == BUF_SIZE
    ensures |s.buf| == BUF_SIZE && SameSetup(r, s) && s.stage == r.stage
    ensures s.hdr == r.hdr.(title := s.hdr.title)
    ensures s.pos >= r.pos + 4 || s.pos >= |data|
  {
    var title := ReadString(data, SkipVersion(data, r));
    title.1.(hdr := title.1.hdr.(title := title.0))
  }

  /** The version field, present unless TRJ; its value is not kept. */
  function SkipVersion(data: seq<byte>, r: Reader): (s: Reader)
    ensures s == r.(pos := s.pos) && r.pos <= s.pos
  {
    if r.format != TRJ then Skip(data, r, 4) else r
  }

  /** ReadTrxHeader after the title: the ten block sizes, natoms (at least
      1) and natom3, step and nre, then the precision and the two reals. */
  function HeaderCounts(data: seq<byte>, r: Reader): (res: (bool, Reader))
    requires Int32Fields(r.hdr)
    ensures SameSetup(r, res.1) && res.1.buf == r.buf && res.1.stage == r.stage
    ensures Int32Fields(res.1.hdr) && res.1.hdr.title == r.hdr.title
  {
    var sizes := ReadFields(data, r, 0, 11);
    var r1 := sizes.1;
    if !sizes.0 then (false, r1)
    else if r1.hdr.natoms() < 1 then (false, r1)
    else
      Natom3NonZero(r1.hdr.natoms());
      var r2 := r1.(hdr := r1.hdr.(natom3 := Natom3(r1.hdr.natoms())));
      var counts := ReadFields(data, r2, 11, 13);
      if !counts.0 then counts
      else HeaderReals(data, counts.1)
  }

  /** ReadTrxHeader's last steps: the precision, which must be 4 or 8, then
      dt and lambda through read_real. */
  function HeaderReals(data: seq<byte>, r: Reader): (res: (bool, Reader))
    requires r.hdr.natom3 != 0
    ensures SameSetup(r, res.1) && res.1.buf == r.buf && res.1.stage == r.stage
    ensures res.1.hdr == r.hdr.(precision := res.1.hdr.precision, dt := res.1.hdr.dt, lambda := res.1.hdr.lambda)
  {
    match InferPrecision(r.hdr)
    case None => (false, r)
    case Some(p) =>
      var r1 := r.(hdr := r.hdr.(precision := p));
      if p != 4 && p != 8 then (false, r1)
      else
        var d := ReadReal(data, r1, r1.hdr.dt);
        var r2 := d.next.(hdr := d.next.hdr.(dt := d.value));
        if !d.ok then (false, r2)
        else
          var l := ReadReal(data, r2, r2.hdr.lambda);
          (l.ok, l.next.(hdr := l.next.hdr.(lambda := l.value)))
  }


  // ---------------------------------------------------------------------------
  // ReadBox, ReadAtomVector

  datatype BoxRead = BoxRead(ok: bool, box: Box, next: Reader)

  /** ReadBox: box_size bytes at the precision's width, no byte swap. A
      box_size other than 9 values is refused, where the source reads
      box_size bytes into a 9-value buffer. */
  function ReadBox(data: seq<byte>, r: Reader, prior: Box): (res: BoxRead)
    ensures SameSetup(r, res.next) && res.next.buf == r.buf && res.next.stage == r.stage
    ensures res.next.hdr == r.hdr
  {
    var p := r.hdr.precision;
    if p != 4 && p != 8 then BoxRead(false, prior, r)
    else if r.hdr.boxSize() != (if p == 4 then 36 else 72) then BoxRead(false, prior, r)
    else
      var g := Got(data, r, r.hdr.boxSize());
      var r1 := r.(pos := r.pos + |g|);
      if |g| != r.hdr.boxSize() then BoxRead(false, prior, r1)
      else BoxRead(true, FromBasis(g, p), r1)
  }

  /** Bytes one atom vector occupies at precision `p`. */
  function BlockBytes(p: int, natom3: nat): (n: nat) {
    if p == 4 then 4 * natom3 else 8 * natom3
  }

  /** The first n floats of a buffer, converted to Angstrom. */
  function Floats(s: seq<byte>, n: nat): (c: seq<Coordinate>)
    requires 4 * n <= |s|
  {
    seq(n, i requires 0 <= i < n => FromFloat(s[4 * i..4 * i + 4]))
  }

  /** The first n doubles of `s`, each in host order. */
  function Doubles(s: seq<byte>, n: nat, bigEndian: bool): (c: seq<Coordinate>)
    requires 8 * n <= |s|
  {
    seq(n, i requires 0 <= i < n => FromDouble(InHostOrder(s[8 * i..8 * i + 8], bigEndian)))
  }

  datatype VectorRead = VectorRead(ok: bool, next: Reader, out: seq<Coordinate>)

  /** ReadAtomVector into `dout` (X or V) of a block of `size` bytes.
      4-byte path: read into farray_, swap natom3 floats when big-endian,
      store each times 10. 8-byte path: read natom3 doubles, swap when
      big-endian, no scaling. A block that does not hold exactly natom3
      values, or would overrun farray_ or dout, is refused, where the source
      reads `size` bytes and converts natom3 values regardless. */
  function ReadAtomVector(data: seq<byte>, r: Reader, dout: seq<Coordinate>, size: int): (res: VectorRead)
    ensures SameSetup(r, res.next) && res.next.buf == r.buf && res.next.hdr == r.hdr
    ensures |res.next.stage| == |r.stage| && |res.out| == |dout|
  {
    var n := r.hdr.natom3;
    var p := r.hdr.precision;
    if p != 4 && p != 8 then VectorRead(false, r, dout)
    else if n < 0 || size != BlockBytes(p, n) || n > |dout| || (p == 4 && size > |r.stage|) then
      VectorRead(false, r, dout)
    else
      var g := Got(data, r, size);
      if p == 4 then
        var staged := g + r.stage[|g|..];
        var r1 := r.(pos := r.pos + |g|, stage := staged);
        if |g| != size then VectorRead(false, r1, dout)
        else
          MultipleOfTimes(n, 4);
          var swapped := SwapIf(staged[..size], 4, r.bigEndian) + staged[size..];
          VectorRead(true, r1.(stage := swapped), Floats(swapped, n) + dout[n..])
      else
        var r1 := r.(pos := r.pos + |g|);
        if |g| != size then VectorRead(false, r1, dout)
        else VectorRead(true, r1, Doubles(g, n, r.bigEndian) + dout[n..])
  }

  // ---------------------------------------------------------------------------
  // openTrajin, setupTrajin, readFrame

  /** openTrajin: open the file at offset 0 and read past the header; the
      header's success is not looked at. */
  function OpenTrajin(data: seq<byte>, r: Reader): (s: Reader)
    requires |r.buf| == BUF_SIZE && Int32Fields(r.hdr)
    ensures |s.buf| == BUF_SIZE && Int32Fields(s.hdr) && SameSetup(r, s)
  {
    ReadHeader(data, r.(pos := 0)).1
  }

  /** openTrajin as readFrame needs it: after the header has been read for
      its fields, the cursor goes back to the start of frame 0, so that a
      stream that cannot seek reads frame 0 first. */
  function OpenTrajinRewound(data: seq<byte>, r: Reader): (s: Reader)
    requires |r.buf| == BUF_SIZE && Int32Fields(r.hdr)
    ensures |s.buf| == BUF_SIZE && Int32Fields(s.hdr) && SameSetup(r, s) && s.pos == 0
  {
    OpenTrajin(data, r).(pos := 0)
  }

  /** frameSize_: header bytes plus the box, virial, pressure, x, v and f
      blocks (ir, e, top and sym excluded), summed as size_t. */
  function FrameSizeOf(headerBytes: nat, h: Header): (f: nat)
    ensures f < SIZE_T_LIMIT
  {
    (headerBytes + h.boxSize() + h.virSize() + h.presSize() + h.xSize() + h.vSize() + h.fSize()) % SIZE_T_LIMIT
  }

  /** What setupTrajin returns: a frame count, TRAJIN_UNK, TRAJIN_ERR, or
      nothing at all because file_size / frameSize_ divides by zero. */
  datatype FrameCount = Frames(n: int) | Unknown | SetupError | DivideByZero

  /** setupTrajin against a topology of `topNatom` atoms, for a file whose
      UncompressedSize() is `fileSize` (0: cannot be told). */
  function SetupTrajin(data: seq<byte>, r: Reader, topNatom: int, fileSize: nat): (res: (FrameCount, Reader))
    requires |r.buf| == BUF_SIZE && Int32Fields(r.hdr)
    ensures |res.1.buf| == BUF_SIZE && Int32Fields(res.1.hdr)
    ensures res.1.bigEndian == r.bigEndian && res.1.format == r.format
  {
    var r1 := OpenTrajin(data, r);
    if r1.hdr.natoms() != topNatom then (SetupError, r1)
    else SetupFrames(data, r1, fileSize)
  }

  /** setupTrajin once the atom count matched: farray_ for float files, the
      velocity flag, frameSize_, the frame count and seekability, then the box. */
  function SetupFrames(data: seq<byte>, r: Reader, fileSize: nat): (res: (FrameCount, Reader))
    ensures res.1.buf == r.buf && res.1.hdr == r.hdr
    ensures res.1.bigEndian == r.bigEndian && res.1.format == r.format
  {
    var counted := CountFrames(StageFor(r), fileSize);
    if counted.0 == DivideByZero then counted
    else LoadBox(data, counted.0, counted.1)
  }

  /** farray_ = new float[natom3_] for a float file, as zero bytes (C++
      leaves them undefined); a double file keeps the buffer it has. */
  function StageFor(r: Reader): (s: Reader)
    ensures s == r.(stage := s.stage)
  {
    if r.hdr.precision == 4 then r.(stage := seq(if r.hdr.natom3 > 0 then 4 * r.hdr.natom3 else 0, _ => 0)) else r
  }

  /** The velocity flag, frameSize_ from the cursor (the header's length)
      and the block sizes, the frame count file_size / frameSize_ and
      seekability when the size divides evenly. */
  function CountFrames(r: Reader, fileSize: nat): (res: (FrameCount, Reader))
    ensures res.1 == r.(hasVelocity := res.1.hasVelocity, seekable := res.1.seekable, frameSize := res.1.frameSize)
  {
    var fs := FrameSizeOf(r.pos, r.hdr);
    var r3 := r.(hasVelocity := r.hdr.vSize() > 0, seekable := false, frameSize := fs);
    if fileSize > 0 && fs == 0 then (DivideByZero, r3)
    else
      var count := if fileSize > 0 then Frames(Wrap32(fileSize / fs)) else Unknown;
      (count, r3.(seekable := fileSize > 0 && fileSize % fs == 0))
  }

  /** setupTrajin's last step: the box when box_size is positive (its
      failure makes the result TRAJIN_ERR), else the zero box. */
  function LoadBox(data: seq<byte>, count: FrameCount, r: Reader): (res: (FrameCount, Reader))
    ensures res.1 == r.(pos := res.1.pos, box := res.1.box)
  {
    if r.hdr.boxSize() > 0 then
      var b := ReadBox(data, r, ZeroBox);
      if !b.ok then (SetupError, b.next) else (count, b.next.(box := b.box))
    else (count, r.(box := ZeroBox))
  }

  datatype FrameRead = FrameRead(ok: bool, next: Reader, x: seq<Coordinate>, v: seq<Coordinate>, box: Box)

  /** readFrame(set): seek to frameSize_ * frame when seekable, read the
      header, then the frame's blocks. `x`, `v` and `box` are the caller's
      buffers before the call. */
  function ReadFrame(data: seq<byte>, r: Reader, frame: nat, x: seq<Coordinate>, v: seq<Coordinate>, box: Box): (res: FrameRead)
    requires |r.buf| == BUF_SIZE && Int32Fields(r.hdr)
    ensures |res.next.buf| == BUF_SIZE && Int32Fields(res.next.hdr) && SameSetup(r, res.next)
    ensures |res.x| == |x| && |res.v| == |v|
  {
    var r1 := if r.seekable then r.(pos := r.frameSize * frame) else r;
    var header := ReadHeader(data, r1);
    if !header.0 then FrameRead(false, header.1, x, v, box)
    else FrameBody(data, header.1, x, v, box)
  }

  /** The part of readFrame after the header: the box if there is one,
      virial and pressure skipped, then the atom vectors. */
  function FrameBody(data: seq<byte>, r: Reader, x: seq<Coordinate>, v: seq<Coordinate>, box: Box): (res: FrameRead)
    ensures SameSetup(r, res.next) && res.next.buf == r.buf && res.next.hdr == r.hdr
    ensures |res.x| == |x| && |res.v| == |v|
  {
    var b := if r.hdr.boxSize() > 0 then ReadBox(data, r, box) else BoxRead(true, box, r);
    if !b.ok then FrameRead(false, b.next, x, v, box)
    else FrameVectors(data, SkipTensors(b.next), x, v, b.box)
  }

  /** The blank reads past the virial and pressure tensors. */
  function SkipTensors(r: Reader): (s: Reader)
    ensures s == r.(pos := s.pos)
    ensures s.pos == r.pos + (if r.hdr.virSize() > 0 then r.hdr.virSize() else 0)
                          + (if r.hdr.presSize() > 0 then r.hdr.presSize() else 0)
  {
    var r1 := if r.hdr.virSize() > 0 then r.(pos := r.pos + r.hdr.virSize()) else r;
    if r1.hdr.presSize() > 0 then r1.(pos := r1.pos + r1.hdr.presSize()) else r1
  }

  /** x and v when present, then the blank read past the forces when the
      file is not seekable. */
  function FrameVectors(data: seq<byte>, r: Reader, x: seq<Coordinate>, v: seq<Coordinate>, box: Box): (res: FrameRead)
    ensures SameSetup(r, res.next) && res.next.buf == r.buf && res.next.hdr == r.hdr
    ensures |res.x| == |x| && |res.v| == |v| && res.box == box
  {
    var xr := if r.hdr.xSize() > 0 then ReadAtomVector(data, r, x, r.hdr.xSize()) else VectorRead(true, r, x);
    if !xr.ok then FrameRead(false, xr.next, xr.out, v, box)
    else
      var vr := if xr.next.hdr.vSize() > 0 then ReadAtomVector(data, xr.next, v, xr.next.hdr.vSize())
                else VectorRead(true, xr.next, v);
      if !vr.ok then FrameRead(false, vr.next, xr.out, vr.out, box)
      else
        var s := vr.next;
        FrameRead(true, if !s.seekable then SeekTo(s, s.pos + s.hdr.fSize()) else s, xr.out, vr.out, box)
  }

  // ---------------------------------------------------------------------------
  // ReadBox's arithmetic, over real numbers

  /** The nine values of a box block, vector X, then Y, then Z, each decoded
      from its `w` bytes by `value` (the float or double the host reads). */
  function Basis(raw: seq<byte>, w: nat, value: seq<byte> -> real): (xyz: seq<real>)
    requires |raw| == 9 * w
  {
    seq(9, i requires 0 <= i < 9 => value(raw[w * i..w * i + w]))
  }

  /** Box vector k has three zero components. */
  predicate ZeroVector(xyz: seq<real>, k: nat)
    requires |xyz| == 9 && k < 3
  {
    xyz[3 * k] == 0.0 && xyz[3 * k + 1] == 0.0 && xyz[3 * k + 2] == 0.0
  }

  /** ReadBox's length k is the square root of the squared components of
      vector k, times ANGS_PER_NM; what boxOut needs of it is that it is never
      negative and is zero exactly when the vector is. */
  predicate LengthsOf(xyz: seq<real>, len: seq<real>) {
    |xyz| == 9 && |len| == 3
    && forall k :: 0 <= k < 3 ==> len[k] >= 0.0 && (len[k] == 0.0 <==> ZeroVector(xyz, k))
  }

  /** The box of zero lengths and 90-degree angles. */
  const DEGENERATE_BOX: seq<real> := [0.0, 0.0, 0.0, 90.0, 90.0, 90.0]

  /** boxOut from the three lengths and the angles acos gives (alpha between
      Y and Z, beta between X and Z, gamma between X and Y): any length of
      zero or less gives the degenerate box. */
  function BoxOut(len: seq<real>, alpha: real, beta: real, gamma: real): (out: seq<real>)
    requires |len| == 3
    ensures |out| == 6
  {
    if len[0] <= 0.0 || len[1] <= 0.0 || len[2] <= 0.0 then DEGENERATE_BOX
    else [len[0], len[1], len[2], alpha, beta, gamma]
  }

  /** The box SetBox receives for a box read as `b`: all zeros without a box
      block, else boxOut of the block's values decoded by `value`. */
  function SetBoxOf(b: Box, value: seq<byte> -> real, len: seq<real>, alpha: real, beta: real, gamma: real): (out: seq<real>)
    requires |len| == 3
    requires b.FromBasis? ==> (b.precision == 4 || b.precision == 8) && |b.raw| == 9 * b.precision
    ensures |out| == 6
  {
    match b
    case ZeroBox => [0.0, 0.0, 0.0, 0.0, 0.0, 0.0]
    case FromBasis(raw, p) => BoxOut(len, alpha, beta, gamma)
  }
}
