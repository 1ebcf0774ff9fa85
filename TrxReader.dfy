/** The TRR/TRJ reader as the object it is: the cursor of the file, the
    staging buffers and the header fields are fields that its methods update
    in place. Each method is proved to leave the reader in the state the
    specification functions of TrxSpec compute from the state before. */
module TrxReader {
  import opened ByteOrder
  import opened TrxSpec
  import opened TrxLemmas

  class GmxTrx {
    /** The contents of file_, which reading never changes. */
    const data: seq<byte>
    /** The cursor of file_. */
    var pos: nat
    /** linebuffer_, the staging buffer of read_string. */
    const lineBuffer: array<byte>
    /** farray_, the float buffer of ReadAtomVector, as bytes. */
    var farray: array<byte>
    var bigEndian: bool
    var format: Format
    /** The title and the fields ReadTrxHeader assigns. */
    var hdr: Header
    var frameSize: nat
    var seekable: bool
    var hasVelocity: bool
    var box: Box

    /** The reader's state as TrxSpec describes it. */
    ghost function State(): Reader
      reads this, lineBuffer, farray
    {
      Reader(pos, lineBuffer[..], farray[..], bigEndian, format, hdr, frameSize, seekable, hasVelocity, box)
    }

    ghost predicate Valid()
      reads this
    {
      lineBuffer.Length == BUF_SIZE && lineBuffer != farray && Int32Fields(hdr)
    }

    /** The constructor's field values, for a file holding `contents`. */
    constructor(contents: seq<byte>)
      ensures Valid() && data == contents && fresh(lineBuffer) && fresh(farray)
      ensures State() == Reader(0, lineBuffer[..], [], false, TRR, InitialHeader, 0, false, false, ZeroBox)
    {
      data := contents;
      pos := 0;
      lineBuffer := new byte[BUF_SIZE](_ => 0);
      farray := new byte[0];
      bigEndian := false;
      format := TRR;
      hdr := InitialHeader;
      frameSize := 0;
      seekable := false;
      hasVelocity := false;
      box := ZeroBox;
    }

    /** CpptrajFile::Read of `n` bytes into the front of `a`: what is left
        of the file, up to `n` bytes, is copied and the cursor moves past it. */
    method FileRead(a: array<byte>, n: nat) returns (k: nat)
      requires n <= a.Length
      modifies this`pos, a
      ensures k == Avail(data, old(pos), n) && pos == old(pos) + k
      ensures a[..] == Got(data, old(State()), n) + old(a[k..])
    {
      k := Avail(data, pos, n);
      ghost var g := Got(data, State(), n);
      ghost var rest := a[k..];
      forall i | 0 <= i < k {
        a[i] := data[pos + i];
      }
      pos := pos + k;
      assert a[..] == g + rest;
    }

    /** IsTRX on the file `file` whose extension is `ext`: the magic read
        as stored, then byte-swapped, decides the byte order; the extension
        decides the format. This is the corrected IsTrxChecked, which refuses
        a file too short to hold the magic; as written (IsTrx) the source
        returns 1, that is true, for such a file. */
    method IsTRX(file: seq<byte>, ext: string) returns (isTrx: bool)
      modifies this`bigEndian, this`format
      ensures Detection(isTrx, bigEndian, format) == IsTrxChecked(file, ext, old(bigEndian), old(format))
    {
      if |file| < 4 {
        return false;
      }
      var magic := new byte[4](i requires 0 <= i < 4 => file[i]);
      assert magic[..] == file[..4];
      if Int32(magic[..]) != MAGIC {
        ghost var g := magic[..];
        SwapEachOne(g, 4);
        assert magic[..4] == g && magic[4..] == [];
        EndianSwap(magic, 4, 4);
        assert magic[..] == SwapEach(g, 4) + [];
        if Int32(magic[..]) != MAGIC {
          return false;
        }
        bigEndian := true;
      } else {
        bigEndian := false;
      }
      if ext == ".trr" {
        format := TRR;
      } else if ext == ".trj" {
        format := TRJ;
      } else {
        format := TRR;
      }
      return true;
    }

    /** read_int: four bytes, swapped when the file is big-endian. A short
        read fails; the value is then not meaningful. */
    method ReadInt() returns (ok: bool, v: int)
      modifies this`pos
      ensures ok <==> old(pos) + 4 <= |data|
      ensures ok ==> v == IntAt(data, old(State())) && pos == old(pos) + 4
      ensures !ok ==> State() == Skip(data, old(State()), 4)
    {
      var buf := new byte[4];
      var k := FileRead(buf, 4);
      if k != 4 {
        return false, 0;
      }
      ghost var g := buf[..];
      assert g == Got(data, old(State()), 4) == data[old(pos)..old(pos) + 4];
      if bigEndian {
        SwapEachOne(g, 4);
        assert buf[..4] == g && buf[4..] == [];
        EndianSwap(buf, 4, 4);
        assert buf[..] == SwapEach(g, 4) + [];
      }
      assert buf[..] == InHostOrder(g, bigEndian);
      return true, Int32(buf[..]);
    }
  
    /** read_real into a variable holding `prior`: precision_ bytes, swapped
        when big-endian, a double narrowed to float; any precision other
        than 4 or 8 fails without reading. */
    method ReadReal(prior: Real) returns (ok: bool, value: Real)
      modifies this`pos
      ensures RealRead(ok, value, State()) == TrxSpec.ReadReal(data, old(State()), prior)
    {
      var p := hdr.precision;
      if p != 4 && p != 8 {
        return false, prior;
      }
      var buf := new byte[p];
      var k := FileRead(buf, p);
      if k != p {
        return false, prior;
      }
      ghost var g := buf[..];
      assert g == data[old(pos)..old(pos) + p];
      if bigEndian {
        SwapEachOne(g, p);
        assert buf[..p] == g && buf[p..] == [];
        EndianSwap(buf, p, p);
        assert buf[..] == SwapEach(g, p) + [];
      }
      assert buf[..] == InHostOrder(g, bigEndian);
      if p == 4 {
        value := Single(buf[..]);
      } else {
        value := Narrowed(buf[..]);
      }
      return true, value;
    }

    /** Read `size` bytes into linebuffer_, terminate them there and take the
        buffer's C string: read_string's path for a short string, and for
        the leftover of a long one. */
    method ReadIntoLine(size: nat) returns (s: seq<byte>)
      requires Valid() && size < BUF_SIZE
      modifies this`pos, lineBuffer
      ensures (s, State()) == ReadWhole(data, old(State()), size)
    {
      ghost var r := State();
      var k := FileRead(lineBuffer, size);
      assert State() == Fill(data, r, size);
      lineBuffer[size] := 0;
      s := CStr(lineBuffer[..]);
    }

    /** read_string: the length through read_int, then the string, whole
        when shorter than BUF_SIZE, else CHUNK bytes at a time with the
        terminator kept at linebuffer_[CHUNK], then the leftover. */
    method ReadString() returns (s: seq<byte>)
      requires Valid()
      modifies this`pos, lineBuffer
      ensures (s, State()) == TrxSpec.ReadString(data, old(State()))
    {
      var ok, size := ReadInt();
      if !ok {
        return [];
      }
      if size < 0 {
        return [];
      }
      if size < BUF_SIZE {
        s := ReadIntoLine(size);
      } else {
        s := ReadChunks(size);
      }
    }

    /** read_string's path for a string of BUF_SIZE bytes or more: the
        terminator goes to linebuffer_[CHUNK] once, then size / CHUNK whole
        chunks, then the leftover. */
    method ReadChunks(size: nat) returns (s: seq<byte>)
      requires Valid()
      modifies this`pos, lineBuffer
      ensures (s, State()) == ReadChunked(data, old(State()), size)
    {
      var chunk := BUF_SIZE - 1;
      lineBuffer[chunk] := 0;
      var ntimes := size / chunk;
      var output := ChunkLoop(ntimes);
      var leftover := size % chunk;
      if leftover > 0 {
        var tail := ReadIntoLine(leftover);
        output := output + tail;
      }
      s := output;
    }

    /** read_string's chunk loop: `ntimes` reads of CHUNK bytes, each
        followed by appending linebuffer_'s C string to the output. */
    method ChunkLoop(ntimes: nat) returns (output: seq<byte>)
      requires Valid()
      modifies this`pos, lineBuffer
      ensures output == ChunksText(data, old(State()), ntimes)
      ensures State() == ChunksEnd(data, old(State()), ntimes)
    {
      ghost var r0 := State();
      output := [];
      var i := 0;
      while i < ntimes
        invariant i <= ntimes && Valid()
        invariant output == ChunksText(data, r0, i)
        invariant State() == ChunksEnd(data, r0, i)
        decreases ntimes - i
      {
        ChunksTextSnoc(data, r0, i);
        ChunksEndSnoc(data, r0, i);
        var piece := ReadChunk();
        output := output + piece;
        i := i + 1;
      }
    }

    /** One pass of the chunk loop: CHUNK bytes into linebuffer_, whose C
        string is the piece appended to the output. */
    method ReadChunk() returns (piece: seq<byte>)
      requires Valid()
      modifies this`pos, lineBuffer
      ensures State() == Fill(data, old(State()), CHUNK)
      ensures piece == CStr(State().buf)
    {
      var k := FileRead(lineBuffer, BUF_SIZE - 1);
      piece := CStr(lineBuffer[..]);
    }

    /** ReadTrxHeader after the magic: the version unless TRJ, then the
        title through read_string. */
    method ReadTitle()
      requires Valid()
      modifies this`pos, this`hdr, lineBuffer
      ensures Valid() && State() == TrxSpec.ReadTitle(data, old(State()))
    {
      if format != TRJ {
        var _, _ := ReadInt();
      }
      assert State() == SkipVersion(data, old(State()));
      var title := ReadString();
      hdr := hdr.(title := title);
    }

    /** ReadTrxHeader's consecutive read_int calls into integer fields k
        through n-1 of the header (the source writes one statement per
        field), stopping at the first short read; the field whose read
        fails keeps its value in the model (in the source it holds the
        bytes the short read got). */
    method ReadFieldRange(k: nat, n: nat) returns (ok: bool)
      requires k <= n <= 13
      modifies this`pos, this`hdr
      ensures (ok, State()) == ReadFields(data, old(State()), k, n)
    {
      var i := k;
      while i < n
        invariant k <= i <= n
        invariant ReadFields(data, State(), i, n) == ReadFields(data, old(State()), k, n)
        decreases n - i
      {
        ghost var r := State();
        var v;
        ok, v := ReadInt();
        if !ok {
          return;
        }
        ReadFieldsStep(data, r, i, n);
        hdr := hdr.(counts := hdr.counts[i := v]);
        i := i + 1;
      }
      return true;
    }

    /** ReadTrxHeader after the title: the ten block sizes and natoms, which
        must be at least 1, natom3, step and nre, then the precision and the
        two reals. */
    method ReadCounts() returns (ok: bool)
      requires Int32Fields(hdr)
      modifies this`pos, this`hdr
      ensures (ok, State()) == HeaderCounts(data, old(State()))
    {
      ok := ReadFieldRange(0, 11);
      if !ok {
        return;
      }
      if hdr.natoms() < 1 {
        return false;
      }
      Natom3NonZero(hdr.natoms());
      hdr := hdr.(natom3 := Natom3(hdr.natoms()));
      ok := ReadFieldRange(11, 13);
      if !ok {
        return;
      }
      ok := ReadReals();
    }

    /** ReadTrxHeader's last steps: the precision from the first positive
        block size among x, v and f, which must be 4 or 8, then dt and lambda
        through read_real. */
    method ReadReals() returns (ok: bool)
      requires hdr.natom3 != 0
      modifies this`pos, this`hdr
      ensures (ok, State()) == HeaderReals(data, old(State()))
    {
      var p;
      if hdr.xSize() > 0 {
        p := TruncDiv(hdr.xSize(), hdr.natom3);
      } else if hdr.vSize() > 0 {
        p := TruncDiv(hdr.vSize(), hdr.natom3);
      } else if hdr.fSize() > 0 {
        p := TruncDiv(hdr.fSize(), hdr.natom3);
      } else {
        return false;
      }
      hdr := hdr.(precision := p);
      if p != 4 && p != 8 {
        return false;
      }
      var dt;
      ok, dt := ReadReal(hdr.dt);
      hdr := hdr.(dt := dt);
      if !ok {
        return;
      }
      var lambda;
      ok, lambda := ReadReal(hdr.lambda);
      hdr := hdr.(lambda := lambda);
    }

    /** ReadTrxHeader: past the 4-byte magic, whose value is not looked at,
        then the version, title and fields; false (the source's 1) on the
        first failure, with the fields read so far kept. */
    method ReadTrxHeader() returns (ok: bool)
      requires Valid()
      modifies this`pos, this`hdr, lineBuffer
      ensures Valid()
      ensures (ok, State()) == ReadHeader(data, old(State()))
    {
      var magic := new byte[4];
      var k := FileRead(magic, 4);
      if k != 4 {
        return false;
      }
      ReadTitle();
      ok := ReadCounts();
    }

    /** ReadBox into a box holding `prior`: box_size bytes at the
        precision's width, as stored (no byte swap). A precision other than
        4 or 8, or a box_size other than nine values, is refused without
        reading; a short read fails. */
    method ReadBox(prior: Box) returns (ok: bool, b: Box)
      modifies this`pos
      ensures BoxRead(ok, b, State()) == TrxSpec.ReadBox(data, old(State()), prior)
    {
      var p := hdr.precision;
      if p != 4 && p != 8 {
        return false, prior;
      }
      var size := hdr.boxSize();
      if size != (if p == 4 then 36 else 72) {
        return false, prior;
      }
      var raw := new byte[size];
      ghost var r := State();
      assert r == old(State());
      var k := FileRead(raw, size);
      if k != size {
        return false, prior;
      }
      assert raw[..] == Got(data, r, size) + [];
      assert raw[..] == Got(data, r, size);
      return true, FromBasis(raw[..], p);
    }

    /** ReadAtomVector into `dout` (X or V) of a block of `size` bytes: for
        floats through farray_, swapped there in place when big-endian, each
        stored times 10; for doubles each stored in host order. A block that
        does not hold exactly natom3 values, or would overrun farray_ or
        `dout`, is refused without reading. */
    method ReadAtomVector(dout: array<Coordinate>, size: int) returns (ok: bool)
      requires Valid()
      modifies this`pos, farray, dout
      ensures VectorRead(ok, State(), dout[..]) == TrxSpec.ReadAtomVector(data, old(State()), old(dout[..]), size)
    {
      var n := hdr.natom3;
      var p := hdr.precision;
      if p != 4 && p != 8 {
        return false;
      }
      if n < 0 || size != BlockBytes(p, n) || n > dout.Length || (p == 4 && size > farray.Length) {
        return false;
      }
      if p == 4 {
        ok := ReadFloats(dout, n);
      } else {
        ok := ReadDoubles(dout, n);
      }
    }

    /** ReadAtomVector's float path for natom3 = n. */
    method ReadFloats(dout: array<Coordinate>, n: nat) returns (ok: bool)
      requires Valid() && hdr.precision == 4 && hdr.natom3 == n
      requires n <= dout.Length && 4 * n <= farray.Length
      modifies this`pos, farray, dout
      ensures VectorRead(ok, State(), dout[..]) == TrxSpec.ReadAtomVector(data, old(State()), old(dout[..]), 4 * n)
    {
      var size := 4 * n;
      var k := FileRead(farray, size);
      if k != size {
        return false;
      }
      ghost var staged := farray[..];
      MultipleOfTimes(n, 4);
      assert staged[..size] == farray[..size];
      if bigEndian {
        EndianSwap(farray, 4, size);
      }
      assert farray[..] == SwapIf(staged[..size], 4, bigEndian) + staged[size..];
      StoreFloats(dout, n);
      return true;
    }

    /** The conversion loop of the float path: each of the first n floats
        of farray_ is stored into `dout`, the rest of `dout` is untouched. */
    method StoreFloats(dout: array<Coordinate>, n: nat)
      requires n <= dout.Length && 4 * n <= farray.Length
      modifies dout
      ensures dout[..] == Floats(farray[..], n) + old(dout[..])[n..]
    {
      var i := 0;
      while i < n
        invariant i <= n
        invariant forall j :: 0 <= j < i ==> dout[j] == FromFloat(farray[..][4 * j..4 * j + 4])
        invariant forall j :: i <= j < dout.Length ==> dout[j] == old(dout[j])
        decreases n - i
      {
        dout[i] := FromFloat(farray[4 * i..4 * i + 4]);
        i := i + 1;
      }
    }

    /** The 8-byte conversion loop: the first n places of dout become the
        doubles of raw, in host order; the rest keep their values. */
    method StoreDoubles(dout: array<Coordinate>, raw: array<byte>, n: nat)
      requires n <= dout.Length && 8 * n <= raw.Length
      modifies dout
      ensures dout[..] == Doubles(raw[..], n, bigEndian) + old(dout[..])[n..]
    {
      var i := 0;
      while i < n
        invariant i <= n
        invariant forall j :: 0 <= j < i ==> dout[j] == FromDouble(InHostOrder(raw[..][8 * j..8 * j + 8], bigEndian))
        invariant forall j :: i <= j < dout.Length ==> dout[j] == old(dout[j])
        decreases n - i
      {
        dout[i] := FromDouble(InHostOrder(raw[8 * i..8 * i + 8], bigEndian));
        i := i + 1;
      }
    }

    /** ReadAtomVector's double path for natom3 = n: the block is read as
        it is stored and each double is put in host order as it is stored
        into `dout` (the source swaps them in place afterwards). */
    method ReadDoubles(dout: array<Coordinate>, n: nat) returns (ok: bool)
      requires Valid() && hdr.precision == 8 && hdr.natom3 == n && n <= dout.Length
      modifies this`pos, dout
      ensures VectorRead(ok, State(), dout[..]) == TrxSpec.ReadAtomVector(data, old(State()), old(dout[..]), 8 * n)
    {
      var size := 8 * n;
      var raw := new byte[size];
      var k := FileRead(raw, size);
      if k != size {
        return false;
      }
      ghost var g := raw[..];
      assert g == Got(data, old(State()), size) + [];
      assert g == Got(data, old(State()), size);
      StoreDoubles(dout, raw, n);
      return true;
    }

    /** openTrajin as the source writes it: from the start of the file, read
        past the header, whose success is not looked at. setupTrajin relies
        on the cursor being left after the header. */
    method OpenPastHeader()
      requires Valid()
      modifies this`pos, this`hdr, lineBuffer
      ensures Valid() && State() == TrxSpec.OpenTrajin(data, old(State()))
    {
      pos := 0;
      var _ := ReadTrxHeader();
    }

    /** openTrajin before frames are read, corrected: the header's fields
        are read as above, then the cursor goes back to the start of frame 0,
        so that a file that cannot seek reads frame 0 first. As written
        (OpenPastHeader) the cursor stays after the header. */
    method OpenTrajin()
      requires Valid()
      modifies this`pos, this`hdr, lineBuffer
      ensures Valid() && State() == OpenTrajinRewound(data, old(State()))
    {
      OpenPastHeader();
      pos := 0;
    }

    /** setupTrajin against a topology of `topNatom` atoms, for a file whose
        UncompressedSize() is `fileSize` (0 when it cannot be told). */
    method SetupTrajin(topNatom: int, fileSize: nat) returns (count: FrameCount)
      requires Valid()
      modifies this`pos, this`hdr, lineBuffer, this`farray, this`hasVelocity, this`seekable, this`frameSize, this`box
      ensures Valid()
      ensures (count, State()) == TrxSpec.SetupTrajin(data, old(State()), topNatom, fileSize)
    {
      OpenPastHeader();
      if hdr.natoms() != topNatom {
        return SetupError;
      }
      count := SetupFrames(fileSize);
    }

    /** setupTrajin once the atom count matched: farray_ for a float file,
        then the frame count, then the box. */
    method SetupFrames(fileSize: nat) returns (count: FrameCount)
      requires Valid()
      modifies this`pos, this`farray, this`hasVelocity, this`seekable, this`frameSize, this`box
      ensures Valid()
      ensures (count, State()) == TrxSpec.SetupFrames(data, old(State()), fileSize)
    {
      if hdr.precision == 4 {
        AllocateStage();
      }
      count := CountFrames(fileSize);
      if count == DivideByZero {
        return;
      }
      count := LoadBox(count);
    }

    /** farray_ = new float[natom3_] for a float file, as bytes; the model
        gives the new buffer zero bytes where C++ leaves them undefined. */
    method AllocateStage()
      requires Valid() && hdr.precision == 4
      modifies this`farray
      ensures Valid()
      ensures State() == StageFor(old(State()))
    {
      var len := if hdr.natom3 > 0 then 4 * hdr.natom3 else 0;
      farray := new byte[len](_ => 0);
      assert farray[..] == seq(len, _ => 0);
    }

    /** The velocity flag, frameSize_ from the header's length (the cursor)
        and the block sizes, the frame count and whether frames can be
        sought; the division by a zero frameSize_ is reported as such. */
    method CountFrames(fileSize: nat) returns (count: FrameCount)
      modifies this`hasVelocity, this`seekable, this`frameSize
      ensures (count, State()) == TrxSpec.CountFrames(old(State()), fileSize)
    {
      hasVelocity := hdr.vSize() > 0;
      seekable := false;
      frameSize := FrameSizeOf(pos, hdr);
      if fileSize > 0 && frameSize == 0 {
        return DivideByZero;
      }
      if fileSize > 0 {
        count := Frames(Wrap32(fileSize / frameSize));
        if fileSize % frameSize == 0 {
          seekable := true;
        }
      } else {
        count := Unknown;
      }
    }

    /** The box when box_size is positive, else the zero box; a failed box
        read makes the result TRAJIN_ERR. */
    method LoadBox(count0: FrameCount) returns (count: FrameCount)
      modifies this`pos, this`box
      ensures (count, State()) == TrxSpec.LoadBox(data, count0, old(State()))
    {
      count := count0;
      if hdr.boxSize() > 0 {
        var ok, b := ReadBox(ZeroBox);
        if !ok {
          return SetupError;
        }
        box := b;
      } else {
        box := ZeroBox;
      }
    }

    /** readFrame(frame) into the caller's coordinate and velocity arrays
        and a box holding `boxIn`: seek to frameSize_ * frame when the file
        can seek, read the frame's header, then its blocks. */
    method ReadFrame(frame: nat, x: array<Coordinate>, v: array<Coordinate>, boxIn: Box) returns (ok: bool, boxOut: Box)
      requires Valid() && x != v
      modifies this`pos, this`hdr, lineBuffer, farray, x, v
      ensures Valid()
      ensures FrameRead(ok, State(), x[..], v[..], boxOut) == TrxSpec.ReadFrame(data, old(State()), frame, old(x[..]), old(v[..]), boxIn)
    {
      if seekable {
        pos := frameSize * frame;
      }
      ok := ReadTrxHeader();
      if !ok {
        return false, boxIn;
      }
      ok, boxOut := ReadFrameBody(x, v, boxIn);
    }

    /** readFrame after the header: the box if there is one, the virial and
        pressure tensors skipped, then the atom vectors. */
    method ReadFrameBody(x: array<Coordinate>, v: array<Coordinate>, boxIn: Box) returns (ok: bool, boxOut: Box)
      requires Valid() && x != v
      modifies this`pos, farray, x, v
      ensures FrameRead(ok, State(), x[..], v[..], boxOut) == FrameBody(data, old(State()), old(x[..]), old(v[..]), boxIn)
    {
      boxOut := boxIn;
      if hdr.boxSize() > 0 {
        ok, boxOut := ReadBox(boxIn);
        if !ok {
          return false, boxIn;
        }
      }
      SkipTensors();
      ok := ReadVectors(x, v, boxOut);
    }

    /** The blank reads past the virial and pressure tensors. */
    method SkipTensors()
      modifies this`pos
      ensures State() == TrxSpec.SkipTensors(old(State()))
    {
      if hdr.virSize() > 0 {
        pos := pos + hdr.virSize();
      }
      if hdr.presSize() > 0 {
        pos := pos + hdr.presSize();
      }
    }

    /** The coordinates and velocities when present, then the blank read
        past the forces when the file cannot seek. */
    method ReadVectors(x: array<Coordinate>, v: array<Coordinate>, ghost box: Box) returns (ok: bool)
      requires Valid() && x != v
      modifies this`pos, farray, x, v
      ensures FrameRead(ok, State(), x[..], v[..], box) == FrameVectors(data, old(State()), old(x[..]), old(v[..]), box)
    {
      if hdr.xSize() > 0 {
        ok := ReadAtomVector(x, hdr.xSize());
        if !ok {
          return;
        }
      }
      if hdr.vSize() > 0 {
        ok := ReadAtomVector(v, hdr.vSize());
        if !ok {
          return;
        }
      }
      if !seekable {
        var off := pos + hdr.fSize();
        if off >= 0 {
          pos := off;
        }
      }
      return true;
    }
  }
}
