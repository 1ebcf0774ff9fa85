/** Byte-level helpers for the GROMACS TRR/TRJ reader: bytes, byte reversal
    (endian_swap), the little-endian value of a byte group as the host reads
    it, and 32-bit two's complement. The host is taken to be little-endian. */
module ByteOrder {

  /** One byte of the file. */
  type byte = x: int | 0 <= x < 256

  const INT32_MIN: int := -0x8000_0000
  const INT32_LIMIT: int := 0x8000_0000
  const UINT32_LIMIT: int := 0x1_0000_0000

  predicate IsInt32(v: int) {
    INT32_MIN <= v < INT32_LIMIT
  }

  /** A value of a 32-bit signed int. */
  type int32 = v: int | INT32_MIN <= v < INT32_LIMIT

  function Min(a: int, b: int): (m: int) {
    if a <= b then a else b
  }

  /** The bytes of `s` in the opposite order: what endian_swap does to one value. */
  function Reverse(s: seq<byte>): (r: seq<byte>)
    ensures |r| == |s|
  {
    if s == [] then [] else Reverse(s[1..]) + [s[0]]
  }

  /** Byte `i` of the reversal is byte `|s| - 1 - i` of the original. */
  lemma {:induction false} ReverseAt(s: seq<byte>, i: nat)
    requires i < |s|
    ensures Reverse(s)[i] == s[|s| - 1 - i]
  {
    if i < |s| - 1 {
      ReverseAt(s[1..], i);
    }
  }

  lemma ReverseReverse(s: seq<byte>)
    ensures Reverse(Reverse(s)) == s
  {
    var r := Reverse(Reverse(s));
    forall i | 0 <= i < |s| ensures r[i] == s[i] {
      ReverseAt(Reverse(s), i);
      ReverseAt(s, |s| - 1 - i);
    }
  }

  /** `s` as the host sees it when the file's byte order is big-endian or not. */
  function InHostOrder(s: seq<byte>, bigEndian: bool): (r: seq<byte>)
    ensures |r| == |s|
  {
    if bigEndian then Reverse(s) else s
  }

  lemma InHostOrderTwice(s: seq<byte>, bigEndian: bool)
    ensures InHostOrder(InHostOrder(s, bigEndian), bigEndian) == s
  {
    if bigEndian { ReverseReverse(s); }
  }

  /** `len` is a whole number of `w`-byte values. */
  predicate MultipleOf(len: nat, w: nat)
    decreases len
  {
    len == 0 || (0 < w <= len && MultipleOf(len - w, w))
  }

  lemma {:induction false} MultipleOfTimes(n: nat, w: nat)
    requires w > 0
    ensures MultipleOf(w * n, w)
  {
    if n > 0 {
      MultipleOfTimes(n - 1, w);
      assert w * n - w == w * (n - 1);
    }
  }

  /** endian_swap over a buffer of `w`-byte values: every group of `w` bytes
      reversed, the groups themselves kept in order. */
  function SwapEach(s: seq<byte>, w: nat): (r: seq<byte>)
    requires MultipleOf(|s|, w)
    ensures |r| == |s|
    decreases |s|
  {
    if |s| == 0 then [] else Reverse(s[..w]) + SwapEach(s[w..], w)
  }

  /** Byte `j` of the value at the aligned offset `off` of SwapEach(s, w) is
      byte `w - 1 - j` of the same value of `s`. */
  lemma {:induction false} SwapEachIndex(s: seq<byte>, w: nat, off: nat, j: nat)
    requires MultipleOf(|s|, w) && MultipleOf(off, w) && off < |s| && j < w
    ensures off + w <= |s|
    ensures SwapEach(s, w)[off + j] == s[off + w - 1 - j]
    decreases off
  {
    var t := SwapEach(s, w);
    var head := s[..w];
    assert t == Reverse(head) + SwapEach(s[w..], w);
    if off == 0 {
      ReverseAt(head, j);
    } else {
      assert MultipleOf(|s| - w, w);
      AlignedGap(off, |s|, w);
      SwapEachIndex(s[w..], w, off - w, j);
      assert s[w..][off - w + w - 1 - j] == s[off + w - 1 - j];
    }
  }

  /** SwapEachIndex for every byte of the value at `off`. */
  lemma SwapEachGroup(s: seq<byte>, w: nat, off: nat)
    requires MultipleOf(|s|, w) && MultipleOf(off, w) && off < |s|
    ensures off + w <= |s|
    ensures forall k :: off <= k < off + w ==> SwapEach(s, w)[k] == s[2 * off + w - 1 - k]
  {
    AlignedGap(off, |s|, w);
    forall k | off <= k < off + w ensures SwapEach(s, w)[k] == s[2 * off + w - 1 - k] {
      SwapEachIndex(s, w, off, k - off);
    }
  }

  /** A buffer holding a single value: endian_swap reverses it. */
  lemma SwapEachOne(s: seq<byte>, w: nat)
    requires |s| == w > 0
    ensures MultipleOf(|s|, w) && SwapEach(s, w) == Reverse(s)
  {
    assert MultipleOf(0, w);
    assert s[..w] == s && s[w..] == [];
  }

  /** The value at the aligned offset `off` of SwapEach(s, w) is the same
      value of `s` reversed. */
  lemma {:induction false} SwapEachSlice(s: seq<byte>, w: nat, off: nat)
    requires MultipleOf(|s|, w) && MultipleOf(off, w) && off < |s|
    ensures off + w <= |s|
    ensures SwapEach(s, w)[off..off + w] == Reverse(s[off..off + w])
    decreases off
  {
    var head := Reverse(s[..w]);
    var tail := SwapEach(s[w..], w);
    assert SwapEach(s, w) == head + tail;
    if off == 0 {
      assert (head + tail)[..w] == head;
    } else {
      assert MultipleOf(|s| - w, w);
      AlignedGap(off, |s|, w);
      SwapEachSlice(s[w..], w, off - w);
      assert (head + tail)[off..off + w] == tail[off - w..off];
      assert s[w..][off - w..off] == s[off..off + w];
    }
  }

  lemma {:induction false} AlignedGap(a: nat, b: nat, w: nat)
    requires MultipleOf(a, w) && MultipleOf(b, w) && a < b
    ensures a + w <= b
    decreases a
  {
    if a > 0 {
      AlignedGap(a - w, b - w, w);
    }
  }

  /** Swapping twice gives the buffer back. */
  lemma {:induction false} SwapEachTwice(s: seq<byte>, w: nat)
    requires MultipleOf(|s|, w)
    ensures SwapEach(SwapEach(s, w), w) == s
    decreases |s|
  {
    if |s| > 0 {
      var t := SwapEach(s, w);
      var head := Reverse(s[..w]);
      var tail := SwapEach(s[w..], w);
      assert t == head + tail;
      assert t[..w] == head && t[w..] == tail;
      SwapEachTwice(s[w..], w);
      ReverseReverse(s[..w]);
      assert s == s[..w] + s[w..];
    }
  }

  /** The buffer after endian_swap when the file is big-endian, unchanged otherwise. */
  function SwapIf(s: seq<byte>, w: nat, bigEndian: bool): (r: seq<byte>)
    requires MultipleOf(|s|, w)
    ensures |r| == |s|
  {
    if bigEndian then SwapEach(s, w) else s
  }

  /** Reverses the `w` bytes of `a` starting at `off`, leaving the rest alone. */
  method ReverseGroup(a: array<byte>, off: nat, w: nat)
    requires off + w <= a.Length
    modifies a
    ensures forall k :: 0 <= k < off ==> a[k] == old(a[k])
    ensures forall k :: off + w <= k < a.Length ==> a[k] == old(a[k])
    ensures forall k :: off <= k < off + w ==> a[k] == old(a[2 * off + w - 1 - k])
  {
    var g := a[off..off + w];
    forall j | 0 <= j < w {
      a[off + j] := g[w - 1 - j];
    }
  }

  /** Reverses the value at `off` in place: that value of the buffer becomes
      the same value of `swapped`, every other byte stays. */
  method SwapNextGroup(a: array<byte>, w: nat, off: nat, ghost pre: seq<byte>, ghost swapped: seq<byte>)
    requires off + w <= |pre| == |swapped| <= a.Length
    requires forall k :: off <= k < off + w ==> swapped[k] == pre[2 * off + w - 1 - k]
    requires forall k :: off <= k < off + w ==> a[k] == pre[k]
    modifies a
    ensures forall k :: 0 <= k < off ==> a[k] == old(a[k])
    ensures forall k :: off + w <= k < a.Length ==> a[k] == old(a[k])
    ensures forall k :: off <= k < off + w ==> a[k] == swapped[k]
  {
    ReverseGroup(a, off, w);
    forall k | off <= k < off + w ensures a[k] == swapped[k] {
      assert a[k] == old(a[2 * off + w - 1 - k]);
    }
  }

  /** endian_swap / endian_swap8 on the first `len` bytes of `a`: each `w`-byte
      value reversed in place, the rest of the buffer untouched. */
  method EndianSwap(a: array<byte>, w: nat, len: nat)
    requires MultipleOf(len, w) && len <= a.Length
    modifies a
    ensures a[..] == SwapEach(old(a[..len]), w) + old(a[len..])
  {
    ghost var pre := a[..len];
    ghost var post := a[len..];
    ghost var swapped := SwapEach(pre, w);
    var off := 0;
    while off < len
      invariant off <= len && MultipleOf(off, w)
      invariant forall k :: 0 <= k < off ==> a[k] == swapped[k]
      invariant forall k :: off <= k < len ==> a[k] == pre[k]
      invariant forall k :: len <= k < a.Length ==> a[k] == post[k - len]
      decreases len - off
    {
      SwapEachGroup(pre, w, off);
      SwapNextGroup(a, w, off, pre, swapped);
      off := off + w;
    }
    var result := swapped + post;
    forall k | 0 <= k < a.Length ensures a[k] == result[k] {
    }
    assert a[..] == result;
  }

  /** 256 to the power n. */
  function Pow256(n: nat): (p: nat)
    ensures p >= 1
  {
    if n == 0 then 1 else 256 * Pow256(n - 1)
  }

  /** The unsigned value of `s` read with the least significant byte first. */
  function LittleEndian(s: seq<byte>): (v: nat)
    ensures v < Pow256(|s|)
  {
    if s == [] then 0 else s[0] + 256 * LittleEndian(s[1..])
  }

  /** The `n` bytes of `v` with the least significant byte first. */
  function EncodeLittleEndian(v: nat, n: nat): (s: seq<byte>)
    ensures |s| == n
  {
    if n == 0 then [] else [v % 256] + EncodeLittleEndian(v / 256, n - 1)
  }

  lemma {:induction false} LittleEndianOfEncode(v: nat, n: nat)
    requires v < Pow256(n)
    ensures LittleEndian(EncodeLittleEndian(v, n)) == v
  {
    if n > 0 {
      LittleEndianOfEncode(v / 256, n - 1);
      assert EncodeLittleEndian(v, n)[1..] == EncodeLittleEndian(v / 256, n - 1);
    }
  }

  lemma {:induction false} EncodeOfLittleEndian(s: seq<byte>)
    ensures EncodeLittleEndian(LittleEndian(s), |s|) == s
  {
    if s != [] {
      EncodeOfLittleEndian(s[1..]);
      assert LittleEndian(s) % 256 == s[0];
      assert LittleEndian(s) / 256 == LittleEndian(s[1..]);
    }
  }

  /** The 4-byte signed integer the host sees in `s` (two's complement). */
  function Int32(s: seq<byte>): (v: int)
    requires |s| == 4
    ensures IsInt32(v)
  {
    var u := LittleEndian(s);
    assert Pow256(4) == UINT32_LIMIT;
    if u < INT32_LIMIT then u else u - UINT32_LIMIT
  }

  /** The 4 host-order bytes of the signed 32-bit value `v`. */
  function EncodeInt32(v: int): (s: seq<byte>)
    requires IsInt32(v)
    ensures |s| == 4
  {
    EncodeLittleEndian(if v < 0 then v + UINT32_LIMIT else v, 4)
  }

  lemma Int32OfEncode(v: int)
    requires IsInt32(v)
    ensures Int32(EncodeInt32(v)) == v
  {
    assert Pow256(4) == UINT32_LIMIT;
    LittleEndianOfEncode(if v < 0 then v + UINT32_LIMIT else v, 4);
  }

  lemma EncodeOfInt32(s: seq<byte>)
    requires |s| == 4
    ensures EncodeInt32(Int32(s)) == s
  {
    assert Pow256(4) == UINT32_LIMIT;
    EncodeOfLittleEndian(s);
  }

  /** Two 4-byte groups the host reads as the same integer are the same bytes. */
  lemma Int32Injective(s: seq<byte>, t: seq<byte>)
    requires |s| == 4 && |t| == 4 && Int32(s) == Int32(t)
    ensures s == t
  {
    EncodeOfInt32(s);
    EncodeOfInt32(t);
  }

  /** A 32-bit signed int holding the mathematical value `x` after wrap-around. */
  function Wrap32(x: int): (v: int)
    ensures IsInt32(v)
    ensures (v - x) % UINT32_LIMIT == 0
  {
    (x + INT32_LIMIT) % UINT32_LIMIT - INT32_LIMIT
  }

  /** C++ integer division, which truncates toward zero. */
  function TruncDiv(a: int, b: int): (q: int)
    requires b != 0
  {
    var q := (if a < 0 then -a else a) / (if b < 0 then -b else b);
    if (a < 0) == (b < 0) then q else -q
  }
}
