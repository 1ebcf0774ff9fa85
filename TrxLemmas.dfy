/** Properties of the TRR/TRJ reader specification: the magic number picks
    the byte order, read_int and read_string undo the writer's encoding,
    a header written in either byte order reads back to the same fields,
    atom vectors decode value by value, and frames advance by their size. */
module TrxLemmas {
  import opened ByteOrder
  import opened TrxSpec

  /** `bytes` sit in `data` at offset `pos`, stated byte by byte so that a
      proof looks inside only where it asks to (AtSlice). */
  predicate At(data: seq<byte>, pos: nat, bytes: seq<byte>)
    decreases |bytes|
  {
    if bytes == [] then pos <= |data|
    else pos < |data| && data[pos] == bytes[0] && At(data, pos + 1, bytes[1..])
  }

  lemma {:induction false} AtSlice(data: seq<byte>, pos: nat, bytes: seq<byte>)
    ensures At(data, pos, bytes) <==> pos + |bytes| <= |data| && data[pos..pos + |bytes|] == bytes
    decreases |bytes|
  {
    if bytes != [] {
      AtSlice(data, pos + 1, bytes[1..]);
      if pos + |bytes| <= |data| {
        assert data[pos..pos + |bytes|] == [data[pos]] + data[pos + 1..pos + |bytes|];
      }
    }
  }

  lemma AtBound(data: seq<byte>, pos: nat, bytes: seq<byte>)
    requires At(data, pos, bytes)
    ensures pos + |bytes| <= |data|
  {
    AtSlice(data, pos, bytes);
  }

  lemma {:induction false} AtSplit(data: seq<byte>, pos: nat, a: seq<byte>, b: seq<byte>)
    requires At(data, pos, a + b)
    ensures At(data, pos, a) && At(data, pos + |a|, b)
    decreases |a|
  {
    if a == [] {
      assert a + b == b;
      AtSlice(data, pos, b);
    } else {
      assert (a + b)[0] == a[0] && (a + b)[1..] == a[1..] + b;
      AtSplit(data, pos + 1, a[1..], b);
    }
  }

  /** The bytes a writer in the given byte order puts down for the int `v`. */
  function IntBytes(v: int, bigEndian: bool): (s: seq<byte>)
    requires IsInt32(v)
    ensures |s| == 4
  {
    InHostOrder(EncodeInt32(v), bigEndian)
  }

  /** read_int gives back the integer a writer of the file's byte order wrote. */
  lemma IntAtEncoded(data: seq<byte>, r: Reader, v: int)
    requires IsInt32(v) && At(data, r.pos, IntBytes(v, r.bigEndian))
    ensures r.pos + 4 <= |data| && IntAt(data, r) == v
  {
    AtSlice(data, r.pos, IntBytes(v, r.bigEndian));
    InHostOrderTwice(EncodeInt32(v), r.bigEndian);
    Int32OfEncode(v);
  }

  // ---------------------------------------------------------------------------
  // IsTRX

  /** The magic number as a little-endian and as a big-endian writer store it. */
  const LittleMagic: seq<byte> := [201, 7, 0, 0]
  const BigMagic: seq<byte> := [0, 0, 7, 201]

  lemma MagicValues()
    ensures Int32(LittleMagic) == MAGIC && Reverse(BigMagic) == LittleMagic
    ensures Int32(BigMagic) != MAGIC
  {
    assert LittleEndian([0]) == 0;
    assert LittleEndian([0, 0]) == 0 by { assert [0, 0][1..] == [0]; }
    assert LittleEndian([7, 0, 0]) == 7 by { assert [7, 0, 0][1..] == [0, 0]; }
    assert LittleEndian(LittleMagic) == 1993 by { assert LittleMagic[1..] == [7, 0, 0]; }
    assert LittleEndian([201]) == 201 by { assert [201][1..] == []; }
    assert LittleEndian([7, 201]) == 7 + 256 * 201 by { assert [7, 201][1..] == [201]; }
    assert LittleEndian([0, 7, 201]) == 256 * (7 + 256 * 201) by { assert [0, 7, 201][1..] == [7, 201]; }
    assert LittleEndian(BigMagic) == 256 * 256 * (7 + 256 * 201) by { assert BigMagic[1..] == [0, 7, 201]; }
  }

  /** IsTRX accepts a file of four bytes or more exactly when it starts with
      the magic number in either byte order, sets big-endian exactly for the
      big-endian form, and takes the format from the extension. */
  lemma {:induction false} IsTrxMagic(file: seq<byte>, ext: string, big: bool, fmt: Format)
    requires |file| >= 4
    ensures IsTrx(file, ext, big, fmt).isTrx <==> file[..4] == LittleMagic || file[..4] == BigMagic
    ensures IsTrx(file, ext, big, fmt).isTrx ==>
              IsTrx(file, ext, big, fmt).bigEndian == (file[..4] == BigMagic)
              && IsTrx(file, ext, big, fmt).format == FormatOf(ext)
  {
    MagicValues();
    var m := file[..4];
    if Int32(m) == MAGIC {
      Int32Injective(m, LittleMagic);
    } else if Int32(Reverse(m)) == MAGIC {
      Int32Injective(Reverse(m), LittleMagic);
      ReverseReverse(m);
    } else {
      ReverseReverse(BigMagic);
    }
  }

  /** The header a writer in either byte order produces is recognised. */
  lemma IsTrxOfWrittenMagic(big: bool, rest: seq<byte>, ext: string, big0: bool, fmt: Format)
    ensures IsTrx(IntBytes(MAGIC, big) + rest, ext, big0, fmt) == Detection(true, big, FormatOf(ext))
  {
    MagicValues();
    EncodeOfInt32(LittleMagic);
    var file := IntBytes(MAGIC, big) + rest;
    assert file[..4] == IntBytes(MAGIC, big);
    IsTrxMagic(file, ext, big0, fmt);
  }

  // ---------------------------------------------------------------------------
  // read_int over several fields

  /** The bytes a writer puts down for a run of ints. */
  function IntsBytes(vs: seq<int32>, bigEndian: bool): (s: seq<byte>)
    ensures |s| == 4 * |vs|
  {
    if vs == [] then [] else IntBytes(vs[0], bigEndian) + IntsBytes(vs[1..], bigEndian)
  }

  lemma {:induction false} IntsBytesSplit(vs: seq<int32>, k: nat, bigEndian: bool)
    requires k <= |vs|
    ensures IntsBytes(vs, bigEndian) == IntsBytes(vs[..k], bigEndian) + IntsBytes(vs[k..], bigEndian)
  {
    if k > 0 {
      IntsBytesSplit(vs[1..], k - 1, bigEndian);
      assert vs[1..][..k - 1] == vs[..k][1..];
      assert vs[1..][k - 1..] == vs[k..];
    }
  }

  /** Reading fields k..n-1 succeeds exactly when their bytes are all there,
      and then moves the cursor past 4 bytes per field. */
  lemma {:induction false} ReadFieldsLength(data: seq<byte>, r: Reader, k: nat, n: nat)
    requires k <= n <= 13
    ensures ReadFields(data, r, k, n).0 <==> k == n || r.pos + 4 * (n - k) <= |data|
    ensures ReadFields(data, r, k, n).0 ==> ReadFields(data, r, k, n).1.pos == r.pos + 4 * (n - k)
    decreases n - k
  {
    if k < n && r.pos + 4 <= |data| {
      ReadFieldsLength(data, r.(pos := r.pos + 4, hdr := r.hdr.(counts := r.hdr.counts[k := IntAt(data, r)])), k + 1, n);
    }
  }

  /** Fields k..n-1 read back the ints a writer put down for them. */
  lemma ReadFieldsEncoded(data: seq<byte>, r: Reader, k: nat, n: nat, vs: seq<int32>)
    requires k <= n <= 13 && |vs| == n - k
    requires At(data, r.pos, IntsBytes(vs, r.bigEndian))
    ensures ReadFields(data, r, k, n).0
    ensures ReadFields(data, r, k, n).1.pos == r.pos + 4 * (n - k)
    ensures ReadFields(data, r, k, n).1.hdr.counts[k..n] == vs
  {
    AtBound(data, r.pos, IntsBytes(vs, r.bigEndian));
    ReadFieldsLength(data, r, k, n);
    forall j | k <= j < n ensures ReadFields(data, r, k, n).1.hdr.counts[j] == vs[j - k] {
      ReadFieldValue(data, r, k, n, vs, j);
    }
  }

  lemma {:induction false} ReadFieldValue(data: seq<byte>, r: Reader, k: nat, n: nat, vs: seq<int32>, j: nat)
    requires k <= j < n <= 13 && |vs| == n - k
    requires At(data, r.pos, IntsBytes(vs, r.bigEndian))
    ensures ReadFields(data, r, k, n).1.hdr.counts[j] == vs[j - k]
    decreases n - k
  {
    AtSplit(data, r.pos, IntBytes(vs[0], r.bigEndian), IntsBytes(vs[1..], r.bigEndian));
    IntAtEncoded(data, r, vs[0]);
    ReadFieldsStep(data, r, k, n);
    var r1 := r.(pos := r.pos + 4, hdr := r.hdr.(counts := r.hdr.counts[k := IntAt(data, r)]));
    if j > k {
      ReadFieldValue(data, r1, k + 1, n, vs[1..], j);
    } else {
      ReadFieldsKeeps(data, r1, k + 1, n, k);
    }
  }

  /** Reading fields k..n-1 leaves the earlier ones as they were. */
  lemma ReadFieldsKeeps(data: seq<byte>, r: Reader, k: nat, n: nat, i: nat)
    requires i < k <= n <= 13
    ensures ReadFields(data, r, k, n).1.hdr.counts[i] == r.hdr.counts[i]
  {
    assert ReadFields(data, r, k, n).1.hdr.counts[..k][i] == r.hdr.counts[..k][i];
  }

  /** A field read is the first field followed by the others. */
  lemma ReadFieldsStep(data: seq<byte>, r: Reader, k: nat, n: nat)
    requires k < n <= 13 && r.pos + 4 <= |data|
    ensures ReadFields(data, r, k, n) == ReadFields(data, r.(pos := r.pos + 4, hdr := r.hdr.(counts := r.hdr.counts[k := IntAt(data, r)])), k + 1, n)
  {
  }

  // ---------------------------------------------------------------------------
  // read_string

  predicate ZeroFree(s: seq<byte>) {
    forall i :: 0 <= i < |s| ==> s[i] != 0
  }

  /** The first zero of a buffer holding `c` and then a zero is at |c|. */
  lemma {:induction false} ZeroAtOf(c: seq<byte>, b: seq<byte>)
    requires ZeroFree(c) && |c| < |b| && b[..|c|] == c && b[|c|] == 0
    ensures ZeroAt(b) == |c|
  {
    if c != [] {
      assert b[1..][..|c| - 1] == c[1..];
      ZeroAtOf(c[1..], b[1..]);
    }
  }

  /** The C string of a buffer holding `c` and then a zero is `c`. */
  lemma CStrOf(c: seq<byte>, b: seq<byte>)
    requires ZeroFree(c) && |c| < |b| && b[..|c|] == c && b[|c|] == 0
    ensures CStr(b) == c
  {
    ZeroAtOf(c, b);
  }

  lemma ZeroFreeSlice(s: seq<byte>, k: nat)
    requires ZeroFree(s) && k <= |s|
    ensures ZeroFree(s[..k]) && ZeroFree(s[k..])
  {
    forall i | 0 <= i < |s| - k
      ensures s[k..][i] != 0
    {
      assert s[k..][i] == s[k + i];
    }
    forall i | 0 <= i < k
      ensures s[..k][i] != 0
    {
      assert s[..k][i] == s[i];
    }
  }

  /** A read into linebuffer_ puts the bytes it got at the front and keeps
      the rest of the buffer. */
  lemma FillPlaces(data: seq<byte>, r: Reader, n: nat)
    requires n <= |r.buf|
    ensures Fill(data, r, n).buf[..Avail(data, r.pos, n)] == Got(data, r, n)
    ensures Fill(data, r, n).buf[Avail(data, r.pos, n)..] == r.buf[Avail(data, r.pos, n)..]
  {
  }

  /** A Read into linebuffer_ over bytes a writer laid down copies them to
      the front of the buffer. */
  lemma FillAt(data: seq<byte>, r: Reader, bytes: seq<byte>)
    requires |bytes| <= |r.buf| && At(data, r.pos, bytes)
    ensures Fill(data, r, |bytes|) == r.(pos := r.pos + |bytes|, buf := bytes + r.buf[|bytes|..])
  {
    AtSlice(data, r.pos, bytes);
    assert Got(data, r, |bytes|) == bytes;
  }

  /** One pass of the chunk loop over CHUNK zero-free bytes collects them. */
  lemma ChunkRead(data: seq<byte>, r: Reader, piece: seq<byte>, q: nat)
    requires |r.buf| == BUF_SIZE && r.buf[CHUNK] == 0
    requires |piece| == CHUNK && ZeroFree(piece) && At(data, q, piece) && r.pos == q
    ensures CStr(Fill(data, r, CHUNK).buf) == piece
    ensures Fill(data, r, CHUNK).pos == r.pos + CHUNK && Fill(data, r, CHUNK).buf[CHUNK] == 0
  {
    FillAt(data, r, piece);
    CStrOf(piece, piece + r.buf[CHUNK..]);
  }

  /** Regrouping a concatenation of three pieces. */
  lemma AppendStep(output: seq<byte>, piece: seq<byte>, rest: seq<byte>, whole: seq<byte>)
    requires output + (piece + rest) == whole
    ensures (output + piece) + rest == whole
  {
  }

  /** The chunk loop run once more ends where one more CHUNK read from
      the end of the first `n` passes ends. */
  lemma {:induction false} ChunksEndSnoc(data: seq<byte>, r: Reader, n: nat)
    requires |r.buf| == BUF_SIZE
    ensures ChunksEnd(data, r, n + 1) == Fill(data, ChunksEnd(data, r, n), CHUNK)
    decreases n
  {
    if n > 0 {
      ChunksEndSnoc(data, Fill(data, r, CHUNK), n - 1);
    }
  }

  /** The chunk loop run once more collects one more piece at the end of
      the text, read from where the first `n` passes left the cursor. */
  lemma {:induction false} ChunksTextSnoc(data: seq<byte>, r: Reader, n: nat)
    requires |r.buf| == BUF_SIZE
    ensures ChunksText(data, r, n + 1) == ChunksText(data, r, n) + CStr(Fill(data, ChunksEnd(data, r, n), CHUNK).buf)
    decreases n
  {
    var r1 := Fill(data, r, CHUNK);
    var head := CStr(r1.buf);
    if n == 0 {
      assert ChunksText(data, r, 1) == head + ChunksText(data, r1, 0);
    } else {
      ChunksTextSnoc(data, r1, n - 1);
      SnocAfterFirst(data, r, r1, n);
    }
  }

  /** The step of ChunksTextSnoc: what holds from the second chunk on holds
      from the first, with the first piece in front. */
  lemma SnocAfterFirst(data: seq<byte>, r: Reader, r1: Reader, n: nat)
    requires |r.buf| == BUF_SIZE && n > 0 && r1 == Fill(data, r, CHUNK)
    requires ChunksText(data, r1, n) == ChunksText(data, r1, n - 1) + CStr(Fill(data, ChunksEnd(data, r1, n - 1), CHUNK).buf)
    ensures ChunksText(data, r, n + 1) == ChunksText(data, r, n) + CStr(Fill(data, ChunksEnd(data, r, n), CHUNK).buf)
  {
    var head := CStr(r1.buf);
    var last := CStr(Fill(data, ChunksEnd(data, r1, n - 1), CHUNK).buf);
    assert ChunksText(data, r, n + 1) == head + ChunksText(data, r1, n);
    assert ChunksText(data, r, n) == head + ChunksText(data, r1, n - 1);
    assert ChunksEnd(data, r, n) == ChunksEnd(data, r1, n - 1);
    AppendStep(head, ChunksText(data, r1, n - 1), last, ChunksText(data, r, n + 1));
  }

  lemma ChunksStep(data: seq<byte>, r: Reader, n: nat)
    requires |r.buf| == BUF_SIZE && n > 0
    ensures ChunksText(data, r, n) == CStr(Fill(data, r, CHUNK).buf) + ChunksText(data, Fill(data, r, CHUNK), n - 1)
    ensures ChunksEnd(data, r, n) == ChunksEnd(data, Fill(data, r, CHUNK), n - 1)
  {
  }

  /** n passes of the chunk loop over zero-free bytes collect exactly those
      bytes. */
  lemma {:induction false} ChunksRead(data: seq<byte>, r: Reader, n: nat, s: seq<byte>, q: nat)
    requires |r.buf| == BUF_SIZE && r.buf[CHUNK] == 0
    requires |s| == CHUNK * n && ZeroFree(s) && At(data, q, s) && r.pos == q
    ensures ChunksText(data, r, n) == s
    decreases n
  {
    if n > 0 {
      FirstChunkRead(data, r, n, s, q);
      var r1 := Fill(data, r, CHUNK);
      ChunksRead(data, r1, n - 1, s[CHUNK..], q + CHUNK);
      ChunksStep(data, r, n);
      assert s == s[..CHUNK] + s[CHUNK..];
    } else {
      assert |s| == 0;
    }
  }

  /** The first pass over n >= 1 chunks of zero-free bytes collects the
      first chunk and leaves the rest ready for the remaining passes. */
  lemma FirstChunkRead(data: seq<byte>, r: Reader, n: nat, s: seq<byte>, q: nat)
    requires |r.buf| == BUF_SIZE && r.buf[CHUNK] == 0 && n > 0
    requires |s| == CHUNK * n && ZeroFree(s) && At(data, q, s) && r.pos == q
    ensures CStr(Fill(data, r, CHUNK).buf) == s[..CHUNK]
    ensures |Fill(data, r, CHUNK).buf| == BUF_SIZE && Fill(data, r, CHUNK).buf[CHUNK] == 0
    ensures Fill(data, r, CHUNK).pos == q + CHUNK
    ensures |s[CHUNK..]| == CHUNK * (n - 1) && ZeroFree(s[CHUNK..]) && At(data, q + CHUNK, s[CHUNK..])
  {
    var piece := s[..CHUNK];
    var rest := s[CHUNK..];
    assert s == piece + rest;
    assert |rest| == CHUNK * (n - 1) by { assert CHUNK == 127; }
    AtSplit(data, q, piece, rest);
    ZeroFreeSlice(s, CHUNK);
    ChunkRead(data, r, piece, q);
  }

  /** read_string gives back a zero-free string that a writer put down as
      its length and its bytes, and moves the cursor past both. */
  lemma ReadStringEncoded(data: seq<byte>, r: Reader, s: seq<byte>)
    requires |r.buf| == BUF_SIZE && |s| < INT32_LIMIT && ZeroFree(s)
    requires At(data, r.pos, IntBytes(|s|, r.bigEndian) + s)
    ensures ReadString(data, r).0 == s && ReadString(data, r).1.pos == r.pos + 4 + |s|
  {
    AtSplit(data, r.pos, IntBytes(|s|, r.bigEndian), s);
    IntAtEncoded(data, r, |s|);
    if |s| < BUF_SIZE {
      ShortStringRead(data, r.(pos := r.pos + 4), s, r.pos + 4);
    } else {
      LongStringRead(data, r.(pos := r.pos + 4), s, r.pos + 4);
    }
  }

  /** A string shorter than BUF_SIZE goes through linebuffer_ in one read. */
  lemma ShortStringRead(data: seq<byte>, r: Reader, s: seq<byte>, q: nat)
    requires |r.buf| == BUF_SIZE && |s| < BUF_SIZE && ZeroFree(s) && At(data, q, s) && r.pos == q
    ensures ReadWhole(data, r, |s|).0 == s && ReadWhole(data, r, |s|).1.pos == r.pos + |s|
  {
    AtSlice(data, q, s);
    assert Got(data, r, |s|) == s;
    var r1 := Fill(data, r, |s|);
    CStrOf(s, r1.buf[|s| := 0]);
  }

  /** A longer string goes through linebuffer_ in CHUNK-byte pieces and a leftover. */
  lemma LongStringRead(data: seq<byte>, r: Reader, s: seq<byte>, q: nat)
    requires |r.buf| == BUF_SIZE && ZeroFree(s) && At(data, q, s) && r.pos == q
    ensures ReadChunked(data, r, |s|).0 == s && ReadChunked(data, r, |s|).1.pos == r.pos + |s|
  {
    assert CHUNK == 127;
    var n := |s| / CHUNK;
    var whole := s[..CHUNK * n];
    var rest := s[CHUNK * n..];
    assert s == whole + rest;
    assert |rest| == |s| % CHUNK;
    ZeroFreeSlice(s, CHUNK * n);
    ChunksOf(data, r, n, whole, rest, q);
  }

  /** `n` chunks over zero-free bytes and then a zero-free leftover give
      back exactly those bytes. */
  lemma ChunksOf(data: seq<byte>, r: Reader, n: nat, whole: seq<byte>, rest: seq<byte>, q: nat)
    requires |r.buf| == BUF_SIZE && |whole| == CHUNK * n && |rest| < CHUNK
    requires ZeroFree(whole + rest) && ZeroFree(rest) && At(data, q, whole + rest) && r.pos == q
    ensures Chunks(data, r, n, |rest|).0 == whole + rest
    ensures Chunks(data, r, n, |rest|).1.pos == q + |whole| + |rest|
  {
    var r0 := r.(buf := r.buf[CHUNK := 0]);
    WholeChunksRead(data, r0, n, whole, rest, q);
    var r1 := ChunksEnd(data, r0, n);
    if |rest| > 0 {
      ShortStringRead(data, r1, rest, q + |whole|);
    } else {
      assert whole + rest == whole;
    }
  }

  /** The chunk loop over the whole chunks of `whole + rest` collects
      `whole` and stops where `rest` begins. */
  lemma WholeChunksRead(data: seq<byte>, r0: Reader, n: nat, whole: seq<byte>, rest: seq<byte>, q: nat)
    requires |r0.buf| == BUF_SIZE && r0.buf[CHUNK] == 0 && |whole| == CHUNK * n
    requires ZeroFree(whole + rest) && At(data, q, whole + rest) && r0.pos == q
    ensures ChunksText(data, r0, n) == whole
    ensures ChunksEnd(data, r0, n).pos == q + |whole| && At(data, q + |whole|, rest)
  {
    AtSplit(data, q, whole, rest);
    AtBound(data, q, whole);
    assert ZeroFree(whole) by {
      forall i | 0 <= i < |whole| ensures whole[i] != 0 {
        assert whole[i] == (whole + rest)[i];
      }
    }
    ChunksRead(data, r0, n, whole, q);
    assert |whole| == 127 * n by { assert CHUNK == 127; }
  }


  // ---------------------------------------------------------------------------
  // ReadTrxHeader

  /** The thirteen integers as a writer lays them down. */
  type WireCounts = s: seq<int32> | |s| == 13 witness [0, 0, 0, 0, 0, 0, 0, 0, 0, 0, 0, 0, 0]

  /** A frame header as a writer lays it down: the TRR version, the title,
      the thirteen integers, and the host-order bytes of dt and lambda at
      the header's precision. */
  datatype WireHeader = WireHeader(version: int32, title: seq<byte>, counts: WireCounts, dt: seq<byte>, lambda: seq<byte>)

  function RealOf(bits: seq<byte>): (v: Real) {
    if |bits| == 4 then Single(bits) else Narrowed(bits)
  }

  /** The header fields the reader should end up with. */
  function DecodedHeader(w: WireHeader): (h: Header) {
    Header(w.title, w.counts, Natom3(w.counts[10]), |w.dt|, RealOf(w.dt), RealOf(w.lambda))
  }

  /** A header a writer can produce: 32-bit integers, a zero-free title, at
      least one atom, and dt and lambda as wide as the precision the block
      sizes give. */
  predicate ValidWire(w: WireHeader) {
    |w.title| < INT32_LIMIT && ZeroFree(w.title)
    && w.counts[10] >= 1
    && (|w.dt| == 4 || |w.dt| == 8) && |w.lambda| == |w.dt|
    && (Natom3NonZero(w.counts[10]); InferPrecision(DecodedHeader(w)) == Some(|w.dt|))
  }

  /** The bytes after the title. */
  function HeaderBody(w: WireHeader, bigEndian: bool): (body: seq<byte>)
  {
    IntsBytes(w.counts, bigEndian) + (InHostOrder(w.dt, bigEndian) + InHostOrder(w.lambda, bigEndian))
  }

  /** The version (TRR only) and the title, length first. */
  function TitleBytes(w: WireHeader, format: Format, bigEndian: bool): (bytes: seq<byte>)
    requires |w.title| < INT32_LIMIT
  {
    (if format == TRR then IntBytes(w.version, bigEndian) else []) + (IntBytes(|w.title|, bigEndian) + w.title)
  }

  /** The whole header in the given format and byte order. */
  function EncodeHeader(w: WireHeader, format: Format, bigEndian: bool): (bytes: seq<byte>)
    requires |w.title| < INT32_LIMIT
  {
    IntBytes(MAGIC, bigEndian) + (TitleBytes(w, format, bigEndian) + HeaderBody(w, bigEndian))
  }

  /** ReadTrxHeader reads back every field of a header a writer laid down,
      in either byte order, and stops right after it. */
  lemma ReadHeaderEncoded(data: seq<byte>, r: Reader, w: WireHeader)
    requires |r.buf| == BUF_SIZE && Int32Fields(r.hdr) && ValidWire(w)
    requires At(data, r.pos, EncodeHeader(w, r.format, r.bigEndian))
    ensures ReadHeader(data, r).0
    ensures ReadHeader(data, r).1.pos == r.pos + |EncodeHeader(w, r.format, r.bigEndian)|
    ensures ReadHeader(data, r).1.hdr == DecodedHeader(w)
  {
    var big := r.bigEndian;
    AtSplit(data, r.pos, IntBytes(MAGIC, big), TitleBytes(w, r.format, big) + HeaderBody(w, big));
    ReadHeaderAfterMagic(data, r, w);
  }

  /** ReadHeaderEncoded with the magic passed over. */
  lemma ReadHeaderAfterMagic(data: seq<byte>, r: Reader, w: WireHeader)
    requires |r.buf| == BUF_SIZE && Int32Fields(r.hdr) && ValidWire(w)
    requires At(data, r.pos + 4, TitleBytes(w, r.format, r.bigEndian) + HeaderBody(w, r.bigEndian))
    ensures ReadHeader(data, r).0
    ensures ReadHeader(data, r).1.pos == r.pos + 4 + |TitleBytes(w, r.format, r.bigEndian) + HeaderBody(w, r.bigEndian)|
    ensures ReadHeader(data, r).1.hdr == DecodedHeader(w)
  {
    var title := TitleBytes(w, r.format, r.bigEndian);
    var body := HeaderBody(w, r.bigEndian);
    AtSplit(data, r.pos + 4, title, body);
    AtBound(data, r.pos + 4, title + body);
    AfterMagicEncoded(data, r.(pos := r.pos + 4), w);
    ReadHeaderFrom(data, r, w, r.pos + 4 + |title| + |body|);
  }

  /** What the reads after the magic give is what ReadTrxHeader gives. */
  lemma ReadHeaderFrom(data: seq<byte>, r: Reader, w: WireHeader, n: int)
    requires |r.buf| == BUF_SIZE && Int32Fields(r.hdr) && r.pos + 4 <= |data|
    requires var res := HeaderCounts(data, ReadTitle(data, r.(pos := r.pos + 4)));
             res.0 && res.1.hdr == DecodedHeader(w) && res.1.pos == n
    ensures ReadHeader(data, r).0 && ReadHeader(data, r).1.hdr == DecodedHeader(w) && ReadHeader(data, r).1.pos == n
  {
  }

  /** ReadHeaderEncoded past the magic: the title, then the rest. */
  lemma AfterMagicEncoded(data: seq<byte>, r: Reader, w: WireHeader)
    requires |r.buf| == BUF_SIZE && Int32Fields(r.hdr) && ValidWire(w)
    requires At(data, r.pos, TitleBytes(w, r.format, r.bigEndian))
    requires At(data, r.pos + |TitleBytes(w, r.format, r.bigEndian)|, HeaderBody(w, r.bigEndian))
    ensures var res := HeaderCounts(data, ReadTitle(data, r));
            res.0 && res.1.hdr == DecodedHeader(w)
            && res.1.pos == r.pos + |TitleBytes(w, r.format, r.bigEndian)| + |HeaderBody(w, r.bigEndian)|
  {
    TitleReady(data, r, w);
    var r1 := ReadTitle(data, r);
    BodyAt(data, r, r1, w);
    HeaderCountsEncoded(data, r1, w, r1.pos, r1.bigEndian);
  }

  /** The header body laid down after the title is found at the cursor of
      any reader standing after the title in the same byte order. */
  lemma BodyAt(data: seq<byte>, r: Reader, r1: Reader, w: WireHeader)
    requires |w.title| < INT32_LIMIT
    requires r1.pos == r.pos + |TitleBytes(w, r.format, r.bigEndian)| && r1.bigEndian == r.bigEndian
    requires At(data, r.pos + |TitleBytes(w, r.format, r.bigEndian)|, HeaderBody(w, r.bigEndian))
    ensures At(data, r1.pos, HeaderBody(w, r1.bigEndian))
  {
  }

  /** After the title of a written header is read, the reader stands where
      the counts begin, in the same byte order, with the title set and the
      32-bit header fields kept. */
  lemma TitleReady(data: seq<byte>, r: Reader, w: WireHeader)
    requires |r.buf| == BUF_SIZE && Int32Fields(r.hdr) && ValidWire(w)
    requires At(data, r.pos, TitleBytes(w, r.format, r.bigEndian))
    ensures var r1 := ReadTitle(data, r);
            Int32Fields(r1.hdr) && r1.hdr.title == w.title && r1.bigEndian == r.bigEndian
            && r1.pos == r.pos + |TitleBytes(w, r.format, r.bigEndian)|
  {
    ReadTitleEncoded(data, r, w);
    var r1 := ReadTitle(data, r);
    assert r1.hdr == r.hdr.(title := w.title);
  }

  /** The version and the title of a header a writer laid down read back
      as written, and the cursor moves past them. */
  lemma ReadTitleEncoded(data: seq<byte>, r: Reader, w: WireHeader)
    requires |r.buf| == BUF_SIZE && |w.title| < INT32_LIMIT && ZeroFree(w.title)
    requires At(data, r.pos, TitleBytes(w, r.format, r.bigEndian))
    ensures ReadTitle(data, r).hdr.title == w.title
    ensures ReadTitle(data, r).pos == r.pos + |TitleBytes(w, r.format, r.bigEndian)|
  {
    var big := r.bigEndian;
    var version := if r.format == TRR then IntBytes(w.version, big) else [];
    var str := IntBytes(|w.title|, big) + w.title;
    assert TitleBytes(w, r.format, big) == version + str;
    AtSplit(data, r.pos, version, str);
    SkipVersionAt(data, r, version);
    var r1 := SkipVersion(data, r);
    ReadStringEncoded(data, r1, w.title);
    ReadTitleIs(data, r);
  }

  /** Skipping the version moves past the bytes a writer put down for it. */
  lemma SkipVersionAt(data: seq<byte>, r: Reader, version: seq<byte>)
    requires |version| == (if r.format == TRR then 4 else 0) && At(data, r.pos, version)
    ensures SkipVersion(data, r).pos == r.pos + |version|
    ensures SkipVersion(data, r).buf == r.buf && SkipVersion(data, r).bigEndian == r.bigEndian
  {
    AtBound(data, r.pos, version);
  }

  /** ReadTitle is read_string after the version. */
  lemma ReadTitleIs(data: seq<byte>, r: Reader)
    requires |r.buf| == BUF_SIZE
    ensures ReadTitle(data, r).hdr.title == ReadString(data, SkipVersion(data, r)).0
    ensures ReadTitle(data, r).pos == ReadString(data, SkipVersion(data, r)).1.pos
  {
  }

  /** The integers, natom3, the precision and the two reals of a header a
      writer laid down read back as written. */
  lemma HeaderCountsEncoded(data: seq<byte>, r: Reader, w: WireHeader, p: nat, big: bool)
    requires Int32Fields(r.hdr) && ValidWire(w) && r.hdr.title == w.title
    requires At(data, p, HeaderBody(w, big)) && r.pos == p && r.bigEndian == big
    ensures HeaderCounts(data, r).0
    ensures HeaderCounts(data, r).1.pos == r.pos + |HeaderBody(w, r.bigEndian)|
    ensures HeaderCounts(data, r).1.hdr == DecodedHeader(w)
  {
    var reals := InHostOrder(w.dt, big) + InHostOrder(w.lambda, big);
    AtSplit(data, p, IntsBytes(w.counts, big), reals);
    CountsEncoded(data, r, w.counts);
    var r1 := ReadFields(data, r, 0, 11).1;
    var r2 := r1.(hdr := r1.hdr.(natom3 := Natom3(r1.hdr.natoms())));
    HeaderRealsEncoded(data, ReadFields(data, r2, 11, 13).1, w);
  }

  /** The thirteen integers, with natom3 set between natoms and step. */
  lemma CountsEncoded(data: seq<byte>, r: Reader, counts: WireCounts)
    requires counts[10] >= 1
    requires At(data, r.pos, IntsBytes(counts, r.bigEndian))
    ensures ReadFields(data, r, 0, 11).0 && ReadFields(data, r, 0, 11).1.hdr.natoms() == counts[10]
    ensures var r1 := ReadFields(data, r, 0, 11).1;
            var r2 := r1.(hdr := r1.hdr.(natom3 := Natom3(counts[10])));
            ReadFields(data, r2, 11, 13).0
            && ReadFields(data, r2, 11, 13).1.pos == r.pos + 52
            && ReadFields(data, r2, 11, 13).1.hdr == r.hdr.(counts := counts, natom3 := Natom3(counts[10]))
  {
    var big := r.bigEndian;
    IntsBytesSplit(counts, 11, big);
    AtSplit(data, r.pos, IntsBytes(counts[..11], big), IntsBytes(counts[11..], big));
    ReadFieldsEncoded(data, r, 0, 11, counts[..11]);
    var r1 := ReadFields(data, r, 0, 11).1;
    assert r1.hdr.counts[10] == counts[..11][10];
    var r2 := r1.(hdr := r1.hdr.(natom3 := Natom3(counts[10])));
    assert r1.pos == r.pos + 44 && r1.bigEndian == big;
    ReadFieldsEncoded(data, r2, 11, 13, counts[11..]);
    var r3 := ReadFields(data, r2, 11, 13).1;
    Reassembled(r3.hdr.counts, r2.hdr.counts, counts);
    HeaderUpdates(r.hdr, r1.hdr, r2.hdr, r3.hdr, Natom3(counts[10]));
  }

  /** Three header updates in a row: counts, natom3, counts again. */
  lemma HeaderUpdates(h: Header, h1: Header, h2: Header, h3: Header, natom3: int)
    requires h1 == h.(counts := h1.counts) && h2 == h1.(natom3 := natom3)
    requires h3 == h2.(counts := h3.counts)
    ensures h3 == h.(counts := h3.counts, natom3 := natom3)
  {
  }

  lemma Reassembled(whole: seq<int>, front: seq<int>, counts: seq<int>)
    requires |whole| == |front| == |counts| == 13
    requires whole[..11] == front[..11] && front[0..11] == counts[..11] && whole[11..13] == counts[11..]
    ensures whole == counts
  {
    assert whole == whole[..11] + whole[11..13];
    assert counts == counts[..11] + counts[11..];
  }

  /** The precision and the two reals. */
  lemma HeaderRealsEncoded(data: seq<byte>, r: Reader, w: WireHeader)
    requires ValidWire(w) && r.hdr.title == w.title && r.hdr.counts == w.counts
    requires r.hdr.natom3 == Natom3(w.counts[10])
    requires At(data, r.pos, InHostOrder(w.dt, r.bigEndian) + InHostOrder(w.lambda, r.bigEndian))
    ensures r.hdr.natom3 != 0
    ensures HeaderReals(data, r).0
    ensures HeaderReals(data, r).1.pos == r.pos + |w.dt| + |w.lambda|
    ensures HeaderReals(data, r).1.hdr == DecodedHeader(w)
  {
    Natom3NonZero(w.counts[10]);
    var big := r.bigEndian;
    var p := |w.dt|;
    AtSplit(data, r.pos, InHostOrder(w.dt, big), InHostOrder(w.lambda, big));
    assert InferPrecision(r.hdr) == Some(p) by {
      assert r.hdr.xSize() == DecodedHeader(w).xSize() && r.hdr.vSize() == DecodedHeader(w).vSize()
          && r.hdr.fSize() == DecodedHeader(w).fSize() && r.hdr.natom3 == DecodedHeader(w).natom3;
    }
    var r1 := r.(hdr := r.hdr.(precision := p));
    ReadRealEncoded(data, r1, w.dt, r1.hdr.dt, r.pos);
    var r2 := r1.(pos := r.pos + p, hdr := r1.hdr.(dt := RealOf(w.dt)));
    ReadRealEncoded(data, r2, w.lambda, r2.hdr.lambda, r.pos + |InHostOrder(w.dt, big)|);
    HeaderRealsStep(data, r, p);
  }

  /** HeaderReals once the precision is known to be 4 or 8. */
  lemma HeaderRealsStep(data: seq<byte>, r: Reader, p: int)
    requires r.hdr.natom3 != 0 && InferPrecision(r.hdr) == Some(p) && (p == 4 || p == 8)
    ensures var r1 := r.(hdr := r.hdr.(precision := p));
            var d := ReadReal(data, r1, r1.hdr.dt);
            var r2 := d.next.(hdr := d.next.hdr.(dt := d.value));
            var l := ReadReal(data, r2, r2.hdr.lambda);
            HeaderReals(data, r) == (if !d.ok then (false, r2) else (l.ok, l.next.(hdr := l.next.hdr.(lambda := l.value))))
  {
  }

  /** read_real gives back the host-order bytes a writer put down at the
      header's precision, and moves past them. */
  lemma ReadRealEncoded(data: seq<byte>, r: Reader, bits: seq<byte>, prior: Real, q: nat)
    requires |bits| == r.hdr.precision && (|bits| == 4 || |bits| == 8)
    requires At(data, q, InHostOrder(bits, r.bigEndian)) && r.pos == q
    ensures ReadReal(data, r, prior) == RealRead(true, RealOf(bits), r.(pos := r.pos + |bits|))
  {
    AtSlice(data, r.pos, InHostOrder(bits, r.bigEndian));
    InHostOrderTwice(bits, r.bigEndian);
  }

  /** A header decodes to the same fields whichever byte order it was
      written in, once IsTRX has recognised that order. */
  lemma HeaderByteOrderIndependent(data: seq<byte>, r: Reader, data': seq<byte>, s: Reader, w: WireHeader)
    requires |r.buf| == BUF_SIZE && Int32Fields(r.hdr) && ValidWire(w)
    requires |s.buf| == BUF_SIZE && Int32Fields(s.hdr) && s.format == r.format
    requires !r.bigEndian && s.bigEndian
    requires At(data, r.pos, EncodeHeader(w, r.format, false))
    requires At(data', s.pos, EncodeHeader(w, s.format, true))
    ensures ReadHeader(data, r).0 && ReadHeader(data', s).0
    ensures ReadHeader(data, r).1.hdr == ReadHeader(data', s).1.hdr
    ensures ReadHeader(data, r).1.pos - r.pos == ReadHeader(data', s).1.pos - s.pos
  {
    ReadHeaderEncoded(data, r, w);
    ReadHeaderEncoded(data', s, w);
  }
}
