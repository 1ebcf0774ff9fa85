/** Properties of the TRR/TRJ reader specification beyond the round trips:
    what an accepted header guarantees, what setupTrajin computes, how far
    readFrame moves the cursor, and how ReadAtomVector decodes a block. */
module TrxProps {
  import opened ByteOrder
  import opened TrxSpec
  import opened TrxLemmas

  // ---------------------------------------------------------------------------
  // read_real

  /** read_real succeeds exactly for precision 4 or 8 with that many bytes
      left, then moves past them; a failed read keeps the prior value in
      the model (the source has already copied the bytes it got). */
  lemma ReadRealResult(data: seq<byte>, r: Reader, prior: Real)
    ensures var p := r.hdr.precision;
            ReadReal(data, r, prior).ok <==> (p == 4 || p == 8) && r.pos + p <= |data|
    ensures ReadReal(data, r, prior).ok ==> ReadReal(data, r, prior).next.pos == r.pos + r.hdr.precision
    ensures !ReadReal(data, r, prior).ok ==> ReadReal(data, r, prior).value == prior
    ensures r.hdr.precision != 4 && r.hdr.precision != 8 ==> ReadReal(data, r, prior).next == r
  {
  }

  // ---------------------------------------------------------------------------
  // ReadTrxHeader

  /** The precision and the reals succeed exactly when some block size gives
      a precision of 4 or 8 and both reals are there. */
  lemma HeaderRealsAccepted(data: seq<byte>, r: Reader)
    requires r.hdr.natom3 != 0
    ensures var p := InferPrecision(r.hdr);
            HeaderReals(data, r).0 <==> p.Some? && (p.value == 4 || p.value == 8) && r.pos + 2 * p.value <= |data|
    ensures HeaderReals(data, r).0 ==>
              var h := HeaderReals(data, r).1.hdr;
              InferPrecision(r.hdr) == Some(h.precision) && HeaderReals(data, r).1.pos == r.pos + 2 * h.precision
  {
    match InferPrecision(r.hdr)
    case None =>
    case Some(p) =>
      if p == 4 || p == 8 {
        var r1 := r.(hdr := r.hdr.(precision := p));
        ReadRealResult(data, r1, r1.hdr.dt);
        var d := ReadReal(data, r1, r1.hdr.dt);
        var r2 := d.next.(hdr := d.next.hdr.(dt := d.value));
        ReadRealResult(data, r2, r2.hdr.lambda);
      }
  }

  /** What an accepted header holds: at least one atom, natom3 from it, a
      precision of 4 or 8 that the block sizes give, and the cursor past
      52 bytes of integers and the two reals. */
  lemma HeaderCountsAccepted(data: seq<byte>, r: Reader)
    requires Int32Fields(r.hdr)
    ensures HeaderCounts(data, r).0 ==>
              var h := HeaderCounts(data, r).1.hdr;
              h.natoms() >= 1 && h.natom3 == Natom3(h.natoms()) && h.natom3 != 0
              && (h.precision == 4 || h.precision == 8) && InferPrecision(h) == Some(h.precision)
              && HeaderCounts(data, r).1.pos == r.pos + 52 + 2 * h.precision
  {
    var sizes := ReadFields(data, r, 0, 11);
    var r1 := sizes.1;
    if sizes.0 && r1.hdr.natoms() >= 1 {
      Natom3NonZero(r1.hdr.natoms());
      var r2 := r1.(hdr := r1.hdr.(natom3 := Natom3(r1.hdr.natoms())));
      var counts := ReadFields(data, r2, 11, 13);
      HeaderCountsIs(data, r);
      if counts.0 {
        ReadFieldsLength(data, r, 0, 11);
        ReadFieldsLength(data, r2, 11, 13);
        var c := counts.1;
        assert c.pos == r.pos + 52;
        assert c.hdr.natoms() == r2.hdr.counts[..11][10];
        assert c.hdr.natom3 == Natom3(c.hdr.natoms());
        HeaderRealsAccepted(data, c);
        var h := HeaderReals(data, c).1.hdr;
        assert h.counts == c.hdr.counts && h.natom3 == c.hdr.natom3;
        SamePrecision(c.hdr, h);
        assert HeaderCounts(data, r) == HeaderReals(data, c);
      } else {
        assert !HeaderCounts(data, r).0;
      }
    } else {
      assert !HeaderCounts(data, r).0;
    }
  }

  /** HeaderCounts once the eleven counts are in and natoms is at least 1. */
  lemma HeaderCountsIs(data: seq<byte>, r: Reader)
    requires Int32Fields(r.hdr)
    requires ReadFields(data, r, 0, 11).0 && ReadFields(data, r, 0, 11).1.hdr.natoms() >= 1
    ensures var r1 := ReadFields(data, r, 0, 11).1;
            var r2 := r1.(hdr := r1.hdr.(natom3 := Natom3(r1.hdr.natoms())));
            var counts := ReadFields(data, r2, 11, 13);
            r2.hdr.natom3 != 0
            && HeaderCounts(data, r) == if counts.0 then HeaderReals(data, counts.1) else counts
  {
    Natom3NonZero(ReadFields(data, r, 0, 11).1.hdr.natoms());
  }

  /** InferPrecision looks only at the block sizes and natom3. */
  lemma SamePrecision(h: Header, g: Header)
    requires h.natom3 != 0 && g.counts == h.counts && g.natom3 == h.natom3
    ensures InferPrecision(g) == InferPrecision(h)
  {
  }

  /** ReadTrxHeader's success guarantees what HeaderCountsAccepted states. */
  lemma ReadHeaderAccepted(data: seq<byte>, r: Reader)
    requires |r.buf| == BUF_SIZE && Int32Fields(r.hdr)
    ensures ReadHeader(data, r).0 ==>
              var h := ReadHeader(data, r).1.hdr;
              h.natoms() >= 1 && h.natom3 == Natom3(h.natoms()) && h.natom3 != 0
              && (h.precision == 4 || h.precision == 8) && InferPrecision(h) == Some(h.precision)
              && r.pos + 68 <= ReadHeader(data, r).1.pos <= |data|
  {
    if r.pos + 4 <= |data| {
      AfterMagicAccepted(data, r.(pos := r.pos + 4));
      AcceptedFrom(data, r);
    } else {
      assert !ReadHeader(data, r).0;
    }
  }

  /** What the reads after the magic guarantee, ReadTrxHeader guarantees. */
  lemma AcceptedFrom(data: seq<byte>, r: Reader)
    requires |r.buf| == BUF_SIZE && Int32Fields(r.hdr) && r.pos + 4 <= |data|
    requires var res := HeaderCounts(data, ReadTitle(data, r.(pos := r.pos + 4)));
             res.0 ==>
               var h := res.1.hdr;
               h.natoms() >= 1 && h.natom3 == Natom3(h.natoms()) && h.natom3 != 0
               && (h.precision == 4 || h.precision == 8) && InferPrecision(h) == Some(h.precision)
               && r.pos + 68 <= res.1.pos <= |data|
    ensures ReadHeader(data, r).0 ==>
              var h := ReadHeader(data, r).1.hdr;
              h.natoms() >= 1 && h.natom3 == Natom3(h.natoms()) && h.natom3 != 0
              && (h.precision == 4 || h.precision == 8) && InferPrecision(h) == Some(h.precision)
              && r.pos + 68 <= ReadHeader(data, r).1.pos <= |data|
  {
  }

  /** ReadHeaderAccepted past the magic. */
  lemma AfterMagicAccepted(data: seq<byte>, r: Reader)
    requires |r.buf| == BUF_SIZE && Int32Fields(r.hdr)
    ensures var res := HeaderCounts(data, ReadTitle(data, r));
            res.0 ==>
              var h := res.1.hdr;
              h.natoms() >= 1 && h.natom3 == Natom3(h.natoms()) && h.natom3 != 0
              && (h.precision == 4 || h.precision == 8) && InferPrecision(h) == Some(h.precision)
              && r.pos + 64 <= res.1.pos <= |data|
  {
    var t := ReadTitle(data, r);
    HeaderCountsAccepted(data, t);
    HeaderPastEnd(data, t);
    if t.pos + 44 > |data| {
      ReadFieldsLength(data, t, 0, 11);
      assert !HeaderCounts(data, t).0;
    }
  }

  /** A header whose reads all succeed ends inside the file. */
  lemma HeaderPastEnd(data: seq<byte>, r: Reader)
    requires Int32Fields(r.hdr)
    ensures HeaderCounts(data, r).0 ==> HeaderCounts(data, r).1.pos <= |data|
  {
    var sizes := ReadFields(data, r, 0, 11);
    if sizes.0 && sizes.1.hdr.natoms() >= 1 {
      HeaderCountsAccepted(data, r);
      var r1 := sizes.1;
      Natom3NonZero(r1.hdr.natoms());
      var r2 := r1.(hdr := r1.hdr.(natom3 := Natom3(r1.hdr.natoms())));
      var counts := ReadFields(data, r2, 11, 13);
      if counts.0 {
        HeaderRealsAccepted(data, counts.1);
      }
    }
  }

  /** An atom count below 1 is refused once the eleven counts are read. */
  lemma NoAtomsRejected(data: seq<byte>, r: Reader, counts: seq<int32>)
    requires Int32Fields(r.hdr) && |counts| == 11 && counts[10] < 1
    requires At(data, r.pos, IntsBytes(counts, r.bigEndian))
    ensures !HeaderCounts(data, r).0
  {
    ReadFieldsEncoded(data, r, 0, 11, counts);
    var r1 := ReadFields(data, r, 0, 11).1;
    assert r1.hdr.natoms() == r1.hdr.counts[0..11][10];
  }

  // ---------------------------------------------------------------------------
  // IsTRX

  /** As written, IsTRX reports a file too short to hold the magic as a
      TRR/TRJ file and leaves the byte order and format alone. */
  lemma IsTrxShortRead(file: seq<byte>, ext: string, big: bool, fmt: Format)
    requires |file| < 4
    ensures IsTrx(file, ext, big, fmt) == Detection(true, big, fmt)
  {
  }

  /** With the short read refused, a file is recognised exactly when it
      starts with the magic number in one of the two byte orders. */
  lemma IsTrxCheckedExact(file: seq<byte>, ext: string, big: bool, fmt: Format)
    ensures IsTrxChecked(file, ext, big, fmt).isTrx <==>
              |file| >= 4 && (file[..4] == LittleMagic || file[..4] == BigMagic)
    ensures IsTrxChecked(file, ext, big, fmt).isTrx ==>
              IsTrxChecked(file, ext, big, fmt).bigEndian == (file[..4] == BigMagic)
              && IsTrxChecked(file, ext, big, fmt).format == FormatOf(ext)
  {
    if |file| >= 4 {
      IsTrxMagic(file, ext, big, fmt);
    }
  }

  // ---------------------------------------------------------------------------
  // setupTrajin

  /** setupTrajin: an atom count other than the topology's is an error;
      otherwise frameSize_ is the header bytes plus the block sizes, the
      velocity flag follows v_size, a known file size gives size /
      frameSize_ frames and seekability exactly when frameSize_ divides it,
      and an unknown size gives TRAJIN_UNK and no seeking. The only error
      left is a failed box read. */
  lemma SetupTrajinResult(data: seq<byte>, r: Reader, topNatom: int, fileSize: nat)
    requires |r.buf| == BUF_SIZE && Int32Fields(r.hdr)
    ensures var o := OpenTrajin(data, r);
            var res := SetupTrajin(data, r, topNatom, fileSize);
            o.hdr.natoms() != topNatom ==> res.0 == SetupError
    ensures var o := OpenTrajin(data, r);
            var res := SetupTrajin(data, r, topNatom, fileSize);
            var fs := FrameSizeOf(o.pos, o.hdr);
            o.hdr.natoms() == topNatom ==>
              res.1.hdr == o.hdr && res.1.frameSize == fs && res.1.hasVelocity == (o.hdr.vSize() > 0)
              && (fileSize == 0 ==> !res.1.seekable && (res.0 == Unknown || res.0 == SetupError))
              && (fileSize > 0 && fs == 0 ==> res.0 == DivideByZero)
              && (fileSize > 0 && fs > 0 ==> (res.1.seekable <==> fileSize % fs == 0)
                                             && (res.0 == Frames(Wrap32(fileSize / fs)) || res.0 == SetupError))
              && (res.0 == SetupError ==> o.hdr.boxSize() > 0)
  {
    var o := OpenTrajin(data, r);
    if o.hdr.natoms() == topNatom {
      SetupFramesResult(data, o, fileSize);
    }
  }

  lemma SetupFramesResult(data: seq<byte>, r: Reader, fileSize: nat)
    ensures var res := SetupFrames(data, r, fileSize);
            var fs := FrameSizeOf(r.pos, r.hdr);
            res.1.hdr == r.hdr && res.1.frameSize == fs && res.1.hasVelocity == (r.hdr.vSize() > 0)
            && (fileSize == 0 ==> !res.1.seekable && (res.0 == Unknown || res.0 == SetupError))
            && (fileSize > 0 && fs == 0 ==> res.0 == DivideByZero)
            && (fileSize > 0 && fs > 0 ==> (res.1.seekable <==> fileSize % fs == 0)
                                           && (res.0 == Frames(Wrap32(fileSize / fs)) || res.0 == SetupError))
            && (res.0 == SetupError ==> r.hdr.boxSize() > 0)
  {
  }

  // ---------------------------------------------------------------------------
  // ReadBox, ReadAtomVector

  /** ReadBox succeeds exactly for nine values at precision 4 or 8 that are
      all in the file, and then keeps their bytes as read. */
  lemma ReadBoxResult(data: seq<byte>, r: Reader, prior: Box)
    ensures var p := r.hdr.precision;
            ReadBox(data, r, prior).ok <==>
              (p == 4 || p == 8) && r.hdr.boxSize() == 9 * p && r.pos + 9 * p <= |data|
    ensures ReadBox(data, r, prior).ok ==>
              ReadBox(data, r, prior).next.pos == r.pos + r.hdr.boxSize()
              && ReadBox(data, r, prior).box == FromBasis(data[r.pos..r.pos + r.hdr.boxSize()], r.hdr.precision)
    ensures !ReadBox(data, r, prior).ok ==> ReadBox(data, r, prior).box == prior
  {
  }

  /** Byte group `i` of a buffer after endian_swap is that group reversed. */
  lemma SwapGroup(s: seq<byte>, i: nat)
    requires MultipleOf(|s|, 4) && 4 * i + 4 <= |s|
    ensures SwapEach(s, 4)[4 * i..4 * i + 4] == Reverse(s[4 * i..4 * i + 4])
  {
    MultipleOfTimes(i, 4);
    SwapEachSlice(s, 4, 4 * i);
  }

  /** A slice of a slice is a slice of the whole. */
  lemma SliceOfSlice(s: seq<byte>, a: nat, b: nat, c: nat, d: nat)
    requires a <= b <= |s| && c <= d <= b - a
    ensures s[a..b][c..d] == s[a + c..a + d]
  {
    assert forall j :: 0 <= j < d - c ==> s[a..b][c..d][j] == s[a + c..a + d][j];
  }

  /** The value ReadAtomVector stores for entry `i` of a block read at `pos`. */
  function DecodedAt(data: seq<byte>, pos: nat, p: int, i: nat, bigEndian: bool): (c: Coordinate)
    requires p == 4 || p == 8
    requires pos + BlockBytes(p, i + 1) <= |data|
  {
    if p == 4 then FromFloat(InHostOrder(data[pos + 4 * i..pos + 4 * i + 4], bigEndian))
    else FromDouble(InHostOrder(data[pos + 8 * i..pos + 8 * i + 8], bigEndian))
  }

  /** ReadAtomVector succeeds exactly when the block holds natom3 values
      of the precision, fits farray_ and the output, and is all in the
      file; it then stores value i of the block, in host order, in entry i
      and leaves the entries from natom3 on alone. In the model a failure
      changes no entry; the source's 8-byte path has already overwritten the
      bytes a short read got. */
  lemma AtomVectorDecodes(data: seq<byte>, r: Reader, dout: seq<Coordinate>, size: int)
    ensures var p := r.hdr.precision;
            var n := r.hdr.natom3;
            ReadAtomVector(data, r, dout, size).ok <==>
              (p == 4 || p == 8) && 0 <= n <= |dout| && size == BlockBytes(p, n)
              && (p == 4 ==> size <= |r.stage|) && (size == 0 || r.pos + size <= |data|)
    ensures var res := ReadAtomVector(data, r, dout, size);
            res.ok ==>
              res.next.pos == r.pos + size
              && res.out[r.hdr.natom3..] == dout[r.hdr.natom3..]
              && forall i :: 0 <= i < r.hdr.natom3 ==>
                   res.out[i] == DecodedAt(data, r.pos, r.hdr.precision, i, r.bigEndian)
    ensures !ReadAtomVector(data, r, dout, size).ok ==> ReadAtomVector(data, r, dout, size).out == dout
  {
    var res := ReadAtomVector(data, r, dout, size);
    var n := r.hdr.natom3;
    var p := r.hdr.precision;
    if res.ok && n > 0 {
      var g := data[r.pos..r.pos + size];
      assert Got(data, r, size) == g;
      if p == 4 {
        var staged := g + r.stage[size..];
        assert staged[..size] == g && staged[size..] == r.stage[size..];
        FloatBlockDecodes(data, r.pos, n, r.bigEndian, r.stage[size..]);
        assert res.out == Floats(SwapIf(g, 4, r.bigEndian) + r.stage[size..], n) + dout[n..];
      } else {
        DoubleBlockDecodes(data, r.pos, n, r.bigEndian);
        assert res.out == Doubles(g, n, r.bigEndian) + dout[n..];
      }
    }
  }

  /** The floats of a 4-byte block, swapped as the file's byte order asks,
      are the block's values in host order. */
  lemma FloatBlockDecodes(data: seq<byte>, pos: nat, n: nat, bigEndian: bool, rest: seq<byte>)
    requires pos + 4 * n <= |data|
    ensures MultipleOf(4 * n, 4)
    ensures forall i :: 0 <= i < n ==>
              Floats(SwapIf(data[pos..pos + 4 * n], 4, bigEndian) + rest, n)[i] == DecodedAt(data, pos, 4, i, bigEndian)
  {
    MultipleOfTimes(n, 4);
    var g := data[pos..pos + 4 * n];
    var swapped := SwapIf(g, 4, bigEndian) + rest;
    forall i | 0 <= i < n ensures Floats(swapped, n)[i] == DecodedAt(data, pos, 4, i, bigEndian) {
      assert swapped[4 * i..4 * i + 4] == SwapIf(g, 4, bigEndian)[4 * i..4 * i + 4];
      if bigEndian {
        SwapGroup(g, i);
      }
      SliceOfSlice(data, pos, pos + 4 * n, 4 * i, 4 * i + 4);
    }
  }

  /** The doubles of an 8-byte block are the block's values in host order. */
  lemma DoubleBlockDecodes(data: seq<byte>, pos: nat, n: nat, bigEndian: bool)
    requires pos + 8 * n <= |data|
    ensures forall i :: 0 <= i < n ==>
              Doubles(data[pos..pos + 8 * n], n, bigEndian)[i] == DecodedAt(data, pos, 8, i, bigEndian)
  {
    forall i | 0 <= i < n ensures Doubles(data[pos..pos + 8 * n], n, bigEndian)[i] == DecodedAt(data, pos, 8, i, bigEndian) {
      SliceOfSlice(data, pos, pos + 8 * n, 8 * i, 8 * i + 8);
    }
  }

  // ---------------------------------------------------------------------------
  // ReadBox's lengths and angles

  /** boxOut gives the degenerate box exactly when one of the box vectors is
      zero; otherwise it keeps the lengths and the angles. */
  lemma BoxOutDegenerate(xyz: seq<real>, len: seq<real>, alpha: real, beta: real, gamma: real)
    requires LengthsOf(xyz, len)
    ensures BoxOut(len, alpha, beta, gamma) == DEGENERATE_BOX <==>
              ZeroVector(xyz, 0) || ZeroVector(xyz, 1) || ZeroVector(xyz, 2)
    ensures !(ZeroVector(xyz, 0) || ZeroVector(xyz, 1) || ZeroVector(xyz, 2)) ==>
              BoxOut(len, alpha, beta, gamma) == len + [alpha, beta, gamma]
  {
    assert len[0] == 0.0 <==> ZeroVector(xyz, 0);
    assert len[1] == 0.0 <==> ZeroVector(xyz, 1);
    assert len[2] == 0.0 <==> ZeroVector(xyz, 2);
  }

  /** The box a successful ReadBox hands to SetBox is the degenerate one
      exactly when one of the nine values it read, decoded as the host does
      without a byte swap, leaves a box vector zero. */
  lemma ReadBoxDegenerate(data: seq<byte>, r: Reader, prior: Box, value: seq<byte> -> real,
                          len: seq<real>, alpha: real, beta: real, gamma: real)
    requires ReadBox(data, r, prior).ok
    requires var b := ReadBox(data, r, prior).box;
             b.FromBasis? && |b.raw| == 9 * b.precision && LengthsOf(Basis(b.raw, b.precision, value), len)
    ensures var b := ReadBox(data, r, prior).box;
            var xyz := Basis(b.raw, b.precision, value);
            (SetBoxOf(b, value, len, alpha, beta, gamma) == DEGENERATE_BOX <==>
               ZeroVector(xyz, 0) || ZeroVector(xyz, 1) || ZeroVector(xyz, 2))
  {
    var b := ReadBox(data, r, prior).box;
    BoxOutDegenerate(Basis(b.raw, b.precision, value), len, alpha, beta, gamma);
  }

  /** A successful ReadBox yields nine values of the file's precision. */
  lemma ReadBoxBasis(data: seq<byte>, r: Reader, prior: Box)
    requires ReadBox(data, r, prior).ok
    ensures var b := ReadBox(data, r, prior).box;
            b.FromBasis? && b.precision == r.hdr.precision && (b.precision == 4 || b.precision == 8)
            && |b.raw| == 9 * b.precision
  {
  }

  // ---------------------------------------------------------------------------
  // readFrame

  /** A block size as readFrame uses it: blocks of size zero or less are not read. */
  function Positive(n: int): (k: nat) {
    if n > 0 then n else 0
  }

  /** The cursor after the box, virial, pressure, x and v blocks that follow
      a header ending at `pos`. */
  function BlocksEnd(pos: nat, h: Header): (e: nat) {
    pos + Positive(h.boxSize()) + Positive(h.virSize()) + Positive(h.presSize())
        + Positive(h.xSize()) + Positive(h.vSize())
  }

  /** Where readFrame reads the header of frame `frame`. */
  function FrameStart(r: Reader, frame: nat): (s: Reader) {
    if r.seekable then r.(pos := r.frameSize * frame) else r
  }

  /** The x and v blocks advance the cursor by their sizes; a buffer whose
      block is absent is left alone. */
  lemma FrameVectorsAdvance(data: seq<byte>, r: Reader, x: seq<Coordinate>, v: seq<Coordinate>, box: Box)
    ensures var res := FrameVectors(data, r, x, v, box);
            var end := r.pos + Positive(r.hdr.xSize()) + Positive(r.hdr.vSize());
            res.ok ==> res.next.pos == (if !r.seekable && end + r.hdr.fSize() >= 0 then end + r.hdr.fSize() else end)
    ensures r.hdr.xSize() <= 0 ==> FrameVectors(data, r, x, v, box).x == x
    ensures r.hdr.vSize() <= 0 ==> FrameVectors(data, r, x, v, box).v == v
  {
    var xr := if r.hdr.xSize() > 0 then ReadAtomVector(data, r, x, r.hdr.xSize()) else VectorRead(true, r, x);
    if r.hdr.xSize() > 0 {
      AtomVectorDecodes(data, r, x, r.hdr.xSize());
    }
    if xr.ok && xr.next.hdr.vSize() > 0 {
      AtomVectorDecodes(data, xr.next, v, xr.next.hdr.vSize());
    }
  }

  /** A frame read in full leaves the cursor past the box, virial, pressure,
      x and v blocks its header announces, and past the forces too when the
      file is not seekable; x and v are only written when their blocks are
      present. */
  lemma FrameAdvance(data: seq<byte>, r: Reader, frame: nat, x: seq<Coordinate>, v: seq<Coordinate>, box: Box)
    requires |r.buf| == BUF_SIZE && Int32Fields(r.hdr)
    ensures var res := ReadFrame(data, r, frame, x, v, box);
            var hr := ReadHeader(data, FrameStart(r, frame));
            var h := hr.1.hdr;
            var end := BlocksEnd(hr.1.pos, h);
            res.ok ==> hr.0 && res.next.hdr == h
                       && res.next.pos == (if !r.seekable && end + h.fSize() >= 0 then end + h.fSize() else end)
    ensures var h := ReadHeader(data, FrameStart(r, frame)).1.hdr;
            h.xSize() <= 0 ==> ReadFrame(data, r, frame, x, v, box).x == x
    ensures var h := ReadHeader(data, FrameStart(r, frame)).1.hdr;
            h.vSize() <= 0 ==> ReadFrame(data, r, frame, x, v, box).v == v
  {
    var hr := ReadHeader(data, FrameStart(r, frame));
    ReadFrameIs(data, r, frame, x, v, box);
    if hr.0 {
      FrameBodyAdvance(data, hr.1, x, v, box);
    }
  }

  /** readFrame is the header read at the frame's start, then the body. */
  lemma ReadFrameIs(data: seq<byte>, r: Reader, frame: nat, x: seq<Coordinate>, v: seq<Coordinate>, box: Box)
    requires |r.buf| == BUF_SIZE && Int32Fields(r.hdr)
    ensures var hr := ReadHeader(data, FrameStart(r, frame));
            ReadFrame(data, r, frame, x, v, box)
              == if !hr.0 then FrameRead(false, hr.1, x, v, box) else FrameBody(data, hr.1, x, v, box)
  {
  }

  /** FrameVectorsAdvance for the whole body after the header. */
  lemma FrameBodyAdvance(data: seq<byte>, t: Reader, x: seq<Coordinate>, v: seq<Coordinate>, box: Box)
    ensures var res := FrameBody(data, t, x, v, box);
            var end := BlocksEnd(t.pos, t.hdr);
            res.ok ==> res.next.hdr == t.hdr
                       && res.next.pos == (if !t.seekable && end + t.hdr.fSize() >= 0 then end + t.hdr.fSize() else end)
    ensures t.hdr.xSize() <= 0 ==> FrameBody(data, t, x, v, box).x == x
    ensures t.hdr.vSize() <= 0 ==> FrameBody(data, t, x, v, box).v == v
  {
    var b := if t.hdr.boxSize() > 0 then ReadBox(data, t, box) else BoxRead(true, box, t);
    if t.hdr.boxSize() > 0 {
      ReadBoxResult(data, t, box);
    }
    if b.ok {
      assert b.next == t.(pos := t.pos + Positive(t.hdr.boxSize()));
      var s := SkipTensors(b.next);
      assert s.pos + Positive(t.hdr.xSize()) + Positive(t.hdr.vSize()) == BlocksEnd(t.pos, t.hdr);
      FrameVectorsAdvance(data, s, x, v, b.box);
      assert FrameBody(data, t, x, v, box) == FrameVectors(data, s, x, v, b.box);
    } else {
      assert FrameBody(data, t, x, v, box) == FrameRead(false, b.next, x, v, box);
    }
  }

  /** On a file that cannot seek, a frame whose blocks all have sizes of
      zero or more ends exactly frameSize_ bytes after it starts, when its
      header is as long as the one setupTrajin measured: reading frames in
      turn finds them where seeking to frameSize_ * set would. */
  lemma SequentialMatchesSeek(data: seq<byte>, r: Reader, x: seq<Coordinate>, v: seq<Coordinate>, box: Box, headerBytes: nat)
    requires |r.buf| == BUF_SIZE && Int32Fields(r.hdr) && !r.seekable
    requires ReadFrame(data, r, 0, x, v, box).ok
    requires ReadHeader(data, r).1.pos == r.pos + headerBytes
    requires var h := ReadHeader(data, r).1.hdr;
             h.boxSize() >= 0 && h.virSize() >= 0 && h.presSize() >= 0
             && h.xSize() >= 0 && h.vSize() >= 0 && h.fSize() >= 0
             && headerBytes + h.boxSize() + h.virSize() + h.presSize() + h.xSize() + h.vSize() + h.fSize() < SIZE_T_LIMIT
    ensures ReadFrame(data, r, 0, x, v, box).next.pos == r.pos + FrameSizeOf(headerBytes, ReadHeader(data, r).1.hdr)
  {
    var h := ReadHeader(data, r).1.hdr;
    SequentialAdvance(data, r, x, v, box, r.pos + headerBytes, h);
    SequentialEnd(r.pos, headerBytes, h, ReadFrame(data, r, 0, x, v, box).next.pos);
  }

  /** FrameAdvance for frame 0 of a file that cannot seek, whose header ends
      at `hp` and reads as `h`. */
  lemma SequentialAdvance(data: seq<byte>, r: Reader, x: seq<Coordinate>, v: seq<Coordinate>, box: Box, hp: nat, h: Header)
    requires |r.buf| == BUF_SIZE && Int32Fields(r.hdr) && !r.seekable
    requires ReadHeader(data, r).1.pos == hp && ReadHeader(data, r).1.hdr == h
    requires ReadFrame(data, r, 0, x, v, box).ok
    ensures var end := BlocksEnd(hp, h);
            ReadFrame(data, r, 0, x, v, box).next.pos == if end + h.fSize() >= 0 then end + h.fSize() else end
  {
    FrameAdvance(data, r, 0, x, v, box);
    assert FrameStart(r, 0) == r;
  }

  /** The cursor after a sequential read of a frame whose parts are all
      present is the frame's start plus frameSize_. */
  lemma SequentialEnd(p: nat, headerBytes: nat, h: Header, e: int)
    requires h.boxSize() >= 0 && h.virSize() >= 0 && h.presSize() >= 0
             && h.xSize() >= 0 && h.vSize() >= 0 && h.fSize() >= 0
             && headerBytes + h.boxSize() + h.virSize() + h.presSize() + h.xSize() + h.vSize() + h.fSize() < SIZE_T_LIMIT
    requires var end := BlocksEnd(p + headerBytes, h);
             e == if end + h.fSize() >= 0 then end + h.fSize() else end
    ensures e == p + FrameSizeOf(headerBytes, h)
  {
    FrameSizeExact(headerBytes, h);
  }

  /** frameSize_ is the plain sum of its parts when that sum fits a size_t. */
  lemma FrameSizeExact(headerBytes: nat, h: Header)
    requires var sum := headerBytes + h.boxSize() + h.virSize() + h.presSize() + h.xSize() + h.vSize() + h.fSize();
             0 <= sum < SIZE_T_LIMIT
    ensures FrameSizeOf(headerBytes, h)
              == headerBytes + h.boxSize() + h.virSize() + h.presSize() + h.xSize() + h.vSize() + h.fSize()
  {
  }

  // ---------------------------------------------------------------------------
  // openTrajin followed by readFrame(0)

  /** As written, openTrajin leaves the cursor after frame 0's header, and a
      file that cannot seek (its size unknown, or not a whole number of
      frames) then reads frame 0's header from the bytes that follow it: a
      one-frame file whose blocks take fewer than 68 bytes cannot be read. */
  lemma OpenTrajinSkipsFrameZero(w: WireHeader, r: Reader, payload: seq<byte>, x: seq<Coordinate>, v: seq<Coordinate>, box: Box)
    requires |r.buf| == BUF_SIZE && Int32Fields(r.hdr) && ValidWire(w) && !r.seekable
    requires |payload| < 68
    ensures var data := EncodeHeader(w, r.format, r.bigEndian) + payload;
            !ReadFrame(data, OpenTrajin(data, r), 0, x, v, box).ok
  {
    var enc := EncodeHeader(w, r.format, r.bigEndian);
    var data := enc + payload;
    assert data[0..|enc|] == enc;
    AtSlice(data, 0, enc);
    ReadHeaderEncoded(data, r.(pos := 0), w);
    var o := OpenTrajin(data, r);
    assert o.pos == |enc|;
    ReadFrameIs(data, o, 0, x, v, box);
    assert FrameStart(o, 0) == o;
    ReadHeaderAccepted(data, o);
  }

  /** With the cursor put back to the start of the file, readFrame(0) reads
      frame 0's header whether or not the file can seek. */
  lemma OpenTrajinRewoundReadsFrameZero(w: WireHeader, r: Reader, payload: seq<byte>, x: seq<Coordinate>, v: seq<Coordinate>, box: Box)
    requires |r.buf| == BUF_SIZE && Int32Fields(r.hdr) && ValidWire(w)
    ensures var data := EncodeHeader(w, r.format, r.bigEndian) + payload;
            var o := OpenTrajinRewound(data, r);
            var hr := ReadHeader(data, FrameStart(o, 0));
            hr.0 && hr.1.pos == |EncodeHeader(w, r.format, r.bigEndian)| && hr.1.hdr == DecodedHeader(w)
            && ReadFrame(data, o, 0, x, v, box).next.hdr == DecodedHeader(w)
  {
    var enc := EncodeHeader(w, r.format, r.bigEndian);
    var data := enc + payload;
    assert data[0..|enc|] == enc;
    AtSlice(data, 0, enc);
    var o := OpenTrajinRewound(data, r);
    assert FrameStart(o, 0) == o.(pos := 0);
    ReadHeaderEncoded(data, o.(pos := 0), w);
    ReadFrameIs(data, o, 0, x, v, box);
  }

  // ---------------------------------------------------------------------------
  // A frame laid down in full is read back

  /** A block of `size` bytes ReadAtomVector accepts: absent, or natom3
      values of the precision that fit the output buffer and farray_. */
  predicate VectorFits(h: Header, size: int, room: nat, stage: nat) {
    size <= 0
    || (0 <= h.natom3 <= room && size == BlockBytes(h.precision, h.natom3)
        && (h.precision == 4 ==> size <= stage))
  }

  /** x and v blocks that fit are read, each value decoded from its place. */
  lemma FrameVectorsRead(data: seq<byte>, t: Reader, x: seq<Coordinate>, v: seq<Coordinate>, box: Box, vp: nat)
    requires t.hdr.precision == 4 || t.hdr.precision == 8
    requires vp == t.pos + Positive(t.hdr.xSize())
    requires VectorFits(t.hdr, t.hdr.xSize(), |x|, |t.stage|) && VectorFits(t.hdr, t.hdr.vSize(), |v|, |t.stage|)
    requires t.pos + Positive(t.hdr.xSize()) + Positive(t.hdr.vSize()) <= |data|
    ensures var res := FrameVectors(data, t, x, v, box);
            res.ok
            && (t.hdr.xSize() > 0 ==>
                  forall i :: 0 <= i < t.hdr.natom3 ==>
                    res.x[i] == DecodedAt(data, t.pos, t.hdr.precision, i, t.bigEndian))
            && (t.hdr.vSize() > 0 ==>
                  forall i :: 0 <= i < t.hdr.natom3 ==>
                    res.v[i] == DecodedAt(data, vp, t.hdr.precision, i, t.bigEndian))
  {
    BlockRead(data, t, x, t.hdr.xSize(), t.pos, t.hdr, t.bigEndian);
    var xr := if t.hdr.xSize() > 0 then ReadAtomVector(data, t, x, t.hdr.xSize()) else VectorRead(true, t, x);
    BlockRead(data, xr.next, v, t.hdr.vSize(), vp, t.hdr, t.bigEndian);
    var vr := if xr.next.hdr.vSize() > 0 then ReadAtomVector(data, xr.next, v, xr.next.hdr.vSize())
              else VectorRead(true, xr.next, v);
    VectorsOf(data, t, x, v, box, xr, vr);
  }

  /** One block of FrameVectors that fits, `size` bytes at `at` for a header
      `h`: read in full, each value decoded from its place; an absent block
      reads nothing. */
  lemma BlockRead(data: seq<byte>, r: Reader, dout: seq<Coordinate>, size: int, at: nat, h: Header, big: bool)
    requires r.pos == at && r.hdr == h && r.bigEndian == big
    requires h.precision == 4 || h.precision == 8
    requires VectorFits(h, size, |dout|, |r.stage|) && at + Positive(size) <= |data|
    ensures var res := if size > 0 then ReadAtomVector(data, r, dout, size) else VectorRead(true, r, dout);
            res.ok && res.next.pos == at + Positive(size) && res.next.hdr == h
            && |res.next.stage| == |r.stage| && res.next.bigEndian == big
            && (size > 0 ==>
                  forall i :: 0 <= i < h.natom3 ==> res.out[i] == DecodedAt(data, at, h.precision, i, big))
  {
    if size > 0 {
      AtomVectorDecodes(data, r, dout, size);
    }
  }

  /** FrameVectors gives the two blocks as read once both reads succeed. */
  lemma VectorsOf(data: seq<byte>, t: Reader, x: seq<Coordinate>, v: seq<Coordinate>, box: Box, xr: VectorRead, vr: VectorRead)
    requires xr == if t.hdr.xSize() > 0 then ReadAtomVector(data, t, x, t.hdr.xSize()) else VectorRead(true, t, x)
    requires vr == if xr.next.hdr.vSize() > 0 then ReadAtomVector(data, xr.next, v, xr.next.hdr.vSize())
                   else VectorRead(true, xr.next, v)
    requires xr.ok && vr.ok
    ensures FrameVectors(data, t, x, v, box).ok
    ensures FrameVectors(data, t, x, v, box).x == xr.out && FrameVectors(data, t, x, v, box).v == vr.out
  {
  }

  /** What a frame body needs to be read in full: a precision of 4 or 8,
      no box or one of nine values, x and v blocks that fit, and all of it
      in the file. `xp` is where the x block starts. */
  predicate BodyFits(data: seq<byte>, t: Reader, x: seq<Coordinate>, v: seq<Coordinate>, xp: nat) {
    (t.hdr.precision == 4 || t.hdr.precision == 8)
    && xp == t.pos + Positive(t.hdr.boxSize()) + Positive(t.hdr.virSize()) + Positive(t.hdr.presSize())
    && (t.hdr.boxSize() <= 0 || t.hdr.boxSize() == 9 * t.hdr.precision)
    && VectorFits(t.hdr, t.hdr.xSize(), |x|, |t.stage|) && VectorFits(t.hdr, t.hdr.vSize(), |v|, |t.stage|)
    && BlocksEnd(t.pos, t.hdr) <= |data|
  }

  /** The box of a body that fits is read and the cursor reaches `xp` with
      nothing else changed. */
  lemma FrameBodyBox(data: seq<byte>, t: Reader, x: seq<Coordinate>, v: seq<Coordinate>, box: Box, xp: nat)
    requires BodyFits(data, t, x, v, xp)
    ensures var b := if t.hdr.boxSize() > 0 then ReadBox(data, t, box) else BoxRead(true, box, t);
            b.ok && SkipTensors(b.next) == t.(pos := xp)
            && FrameBody(data, t, x, v, box) == FrameVectors(data, t.(pos := xp), x, v, b.box)
  {
    if t.hdr.boxSize() > 0 {
      ReadBoxResult(data, t, box);
    }
  }

  /** A frame body that fits is read in full. */
  lemma FrameBodyOk(data: seq<byte>, t: Reader, x: seq<Coordinate>, v: seq<Coordinate>, box: Box, xp: nat)
    requires BodyFits(data, t, x, v, xp)
    ensures FrameBody(data, t, x, v, box).ok
  {
    FrameBodyBox(data, t, x, v, box, xp);
    var b := if t.hdr.boxSize() > 0 then ReadBox(data, t, box) else BoxRead(true, box, t);
    FrameVectorsRead(data, t.(pos := xp), x, v, b.box, xp + Positive(t.hdr.xSize()));
  }

  /** The x block of a frame body that fits is decoded into x. */
  lemma FrameBodyX(data: seq<byte>, t: Reader, x: seq<Coordinate>, v: seq<Coordinate>, box: Box, xp: nat)
    requires BodyFits(data, t, x, v, xp)
    ensures t.hdr.xSize() > 0 ==>
              forall i :: 0 <= i < t.hdr.natom3 ==>
                FrameBody(data, t, x, v, box).x[i] == DecodedAt(data, xp, t.hdr.precision, i, t.bigEndian)
  {
    FrameBodyBox(data, t, x, v, box, xp);
    var b := if t.hdr.boxSize() > 0 then ReadBox(data, t, box) else BoxRead(true, box, t);
    FrameVectorsRead(data, t.(pos := xp), x, v, b.box, xp + Positive(t.hdr.xSize()));
  }

  /** The v block of a frame body that fits is decoded into v. */
  lemma FrameBodyV(data: seq<byte>, t: Reader, x: seq<Coordinate>, v: seq<Coordinate>, box: Box, xp: nat, vp: nat)
    requires BodyFits(data, t, x, v, xp) && vp == xp + Positive(t.hdr.xSize())
    ensures t.hdr.vSize() > 0 ==>
              forall i :: 0 <= i < t.hdr.natom3 ==>
                FrameBody(data, t, x, v, box).v[i] == DecodedAt(data, vp, t.hdr.precision, i, t.bigEndian)
  {
    FrameBodyBox(data, t, x, v, box, xp);
    var b := if t.hdr.boxSize() > 0 then ReadBox(data, t, box) else BoxRead(true, box, t);
    FrameVectorsRead(data, t.(pos := xp), x, v, b.box, vp);
  }

  /** Where the x block of a frame lies when the header `w` was written at
      the place readFrame reads frame `frame` from. */
  function XStart(r: Reader, frame: nat, w: WireHeader): (p: nat)
    requires |w.title| < INT32_LIMIT
  {
    var h := DecodedHeader(w);
    FrameStart(r, frame).pos + |EncodeHeader(w, r.format, r.bigEndian)|
      + Positive(h.boxSize()) + Positive(h.virSize()) + Positive(h.presSize())
  }

  /** Where the v block of that frame lies. */
  function VStart(r: Reader, frame: nat, w: WireHeader): (p: nat)
    requires |w.title| < INT32_LIMIT
  {
    XStart(r, frame, w) + Positive(DecodedHeader(w).xSize())
  }

  /** readFrame(set) on a file holding a written header at the place it
      reads from (frameSize_ * set when seekable, the cursor otherwise),
      followed by box, x and v blocks that fit, succeeds with that header
      and with every coordinate decoded from its place in the frame. */
  lemma FrameReadsBack(data: seq<byte>, r: Reader, frame: nat, w: WireHeader, x: seq<Coordinate>, v: seq<Coordinate>, box: Box)
    requires |r.buf| == BUF_SIZE && Int32Fields(r.hdr) && ValidWire(w)
    requires At(data, FrameStart(r, frame).pos, EncodeHeader(w, r.format, r.bigEndian))
    requires var h := DecodedHeader(w);
             (h.boxSize() <= 0 || h.boxSize() == 9 * h.precision)
             && VectorFits(h, h.xSize(), |x|, |r.stage|) && VectorFits(h, h.vSize(), |v|, |r.stage|)
             && BlocksEnd(FrameStart(r, frame).pos + |EncodeHeader(w, r.format, r.bigEndian)|, h) <= |data|
    ensures ReadFrame(data, r, frame, x, v, box).ok
    ensures ReadFrame(data, r, frame, x, v, box).next.hdr == DecodedHeader(w)
    ensures DecodedHeader(w).xSize() > 0 ==>
              forall i :: 0 <= i < DecodedHeader(w).natom3 ==>
                ReadFrame(data, r, frame, x, v, box).x[i]
                  == DecodedAt(data, XStart(r, frame, w), DecodedHeader(w).precision, i, r.bigEndian)
    ensures DecodedHeader(w).vSize() > 0 ==>
              forall i :: 0 <= i < DecodedHeader(w).natom3 ==>
                ReadFrame(data, r, frame, x, v, box).v[i]
                  == DecodedAt(data, VStart(r, frame, w), DecodedHeader(w).precision, i, r.bigEndian)
  {
    var s := FrameStart(r, frame);
    ReadHeaderEncoded(data, s, w);
    ReadHeaderAccepted(data, s);
    ReadFrameIs(data, r, frame, x, v, box);
    var t := ReadHeader(data, s).1;
    var xp := XStart(r, frame, w);
    assert BodyFits(data, t, x, v, xp);
    FrameBodyOk(data, t, x, v, box, xp);
    FrameBodyX(data, t, x, v, box, xp);
    FrameBodyV(data, t, x, v, box, xp, VStart(r, frame, w));
  }
}
