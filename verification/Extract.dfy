/** Bit-exact extraction and deparsing of fields: generic_extract and
    generic_deparse of extract.h. A field of `w` bits is kept right-aligned in
    (w + 7) / 8 bytes; the bits before it are its padding. */
module Extract {
  import opened Bits

  // ----- bytes --------------------------------------------------------------

  function Shl(b: Byte, n: nat): (r: Byte)
    requires n <= 8
    ensures forall j :: 0 <= j < 8 ==> r[j] == (j + n < 8 && b[j + n])
  {
    b[n..] + Zeros(n)
  }

  function Shr(b: Byte, n: nat): (r: Byte)
    requires n <= 8
    ensures forall j :: 0 <= j < 8 ==> r[j] == (j >= n && b[j - n])
  {
    Zeros(n) + b[..8 - n]
  }

  function Not(a: Byte): (r: Byte)
    ensures forall j :: 0 <= j < 8 ==> r[j] == !a[j]
  {
    seq(8, j requires 0 <= j < 8 => !a[j])
  }

  // ----- extraction ---------------------------------------------------------

  /** Bit `k` of an extracted field. The bits of a field narrower than a byte that
      straddles two bytes are preceded by the bits that precede it in the packet;
      all other fields are padded with zeros. */
  function ExtractedBit(src: seq<bool>, offset: nat, w: nat, k: nat): bool
    requires offset < 8 && offset + w <= |src| && k < 8 * NBytes(w)
  {
    if k >= Pad(w) then src[offset + k - Pad(w)]
    else KeepsNeighbours(offset, w) && src[offset + k - Pad(w)]
  }

  // A field of a single byte at most that straddles two bytes (8 bits have no padding).
  predicate KeepsNeighbours(offset: nat, w: nat) {
    0 < w <= 8 && offset + w > 8
  }

  function Extracted(src: seq<bool>, offset: nat, w: nat): (r: seq<bool>)
    requires offset < 8 && offset + w <= |src|
    ensures |r| == 8 * NBytes(w)
    ensures forall k :: 0 <= k < |r| ==> r[k] == ExtractedBit(src, offset, w, k)
  {
    seq(8 * NBytes(w), k requires 0 <= k < 8 * NBytes(w) => ExtractedBit(src, offset, w, k))
  }

  /** The value bits of an extracted field are exactly the requested bits. Its
      padding is zero unless the field is narrower than a byte, straddles two
      bytes, and is preceded there by a one. */
  lemma {:induction false} ExtractionIsExact(src: seq<bool>, offset: nat, w: nat)
    requires offset < 8 && offset + w <= |src|
    ensures Extracted(src, offset, w)[Pad(w)..] == src[offset..offset + w]
    ensures Extracted(src, offset, w)[..Pad(w)] == Zeros(Pad(w)) <==>
            (0 < w < 8 && offset + w > 8 ==> src[offset - Pad(w)..offset] == Zeros(Pad(w)))
  {
    var r := Extracted(src, offset, w);
    if KeepsNeighbours(offset, w) {
      assert r[..Pad(w)] == src[offset - Pad(w)..offset];
    } else {
      assert r[..Pad(w)] == Zeros(Pad(w));
    }
  }

  // Byte `i` of `data` shifted by `shift` bits to the left, or by `-shift` to the right.
  ghost predicate ShiftedByte(data: seq<Byte>, shift: int, b: Byte, i: nat) {
    forall j :: 0 <= j < 8 ==> b[j] == ShiftedBit(data, 8 * i + j + shift)
  }

  function ShiftedBit(data: seq<Byte>, k: int): bool {
    0 <= k < 8 * |data| && data[k / 8][k % 8]
  }

  lemma {:induction false} ShiftLeftPair(data: seq<Byte>, n: int, i: nat)
    requires 0 < n < 8 && i + 1 < |data|
    ensures ShiftedByte(data, n, Or(Shl(data[i], n), Shr(data[i + 1], 8 - n)), i)
  {}

  lemma {:induction false} ShiftRightPair(data: seq<Byte>, n: int, i: nat)
    requires 0 < n < 8 && 0 < i < |data|
    ensures ShiftedByte(data, -n, Or(Shl(data[i - 1], 8 - n), Shr(data[i], n)), i)
  {}

  lemma {:induction false} ShiftRightFirst(data: seq<Byte>, n: int)
    requires 0 <= n < 8 && |data| > 0
    ensures ShiftedByte(data, -n, Shr(data[0], n), 0)
  {}

  // The first byte with its padding masked out.
  ghost predicate MaskedByte(data: seq<Byte>, shift: int, pad: nat, b: Byte) {
    forall j :: 0 <= j < 8 ==> b[j] == (j >= pad && ShiftedBit(data, j + shift))
  }

  lemma {:induction false} MaskFirst(data: seq<Byte>, shift: int, pad: nat, b: Byte)
    requires pad <= 8 && ShiftedByte(data, shift, b, 0)
    ensures MaskedByte(data, shift, pad, And(b, Shr(ONES, pad)))
  {}

  /** All shift cases produce the requested bits. */
  lemma {:induction false} ExtractDone(data: seq<Byte>, offset: nat, w: nat, out: seq<Byte>)
    requires offset < 8 && w > 0 && offset + w <= 8 * |data| && |out| == NBytes(w)
    requires forall i :: 1 <= i < |out| ==> ShiftedByte(data, offset - Pad(w), out[i], i)
    requires if KeepsNeighbours(offset, w) then ShiftedByte(data, offset - Pad(w), out[0], 0)
             else MaskedByte(data, offset - Pad(w), Pad(w), out[0])
    ensures BitsOf(out) == Extracted(BitsOf(data), offset, w)
  {
    hide ShiftedByte, MaskedByte, ExtractedBit, BitsOf;
    forall k | 0 <= k < 8 * |out| ensures BitsOf(out)[k] == ExtractedBit(BitsOf(data), offset, w, k) {
      if k < 8 {
        ExtractDoneFirst(data, offset, w, out[0], k);
      } else {
        ExtractDoneRest(data, offset, w, out[k / 8], k);
      }
    }
  }

  lemma {:induction false} ExtractDoneFirst(data: seq<Byte>, offset: nat, w: nat, b: Byte, k: nat)
    requires offset < 8 && w > 0 && offset + w <= 8 * |data| && k < 8
    requires if KeepsNeighbours(offset, w) then ShiftedByte(data, offset - Pad(w), b, 0)
             else MaskedByte(data, offset - Pad(w), Pad(w), b)
    ensures b[k] == ExtractedBit(BitsOf(data), offset, w, k)
  {}

  lemma {:induction false} ExtractDoneRest(data: seq<Byte>, offset: nat, w: nat, b: Byte, k: nat)
    requires offset < 8 && w > 0 && offset + w <= 8 * |data| && 8 <= k < 8 * NBytes(w)
    requires ShiftedByte(data, offset - Pad(w), b, k / 8)
    ensures b[k % 8] == ExtractedBit(BitsOf(data), offset, w, k)
  {
    assert b[k % 8] == ShiftedBit(data, 8 * (k / 8) + k % 8 + (offset - Pad(w)));
  }

  /** generic_extract. */
  method GenericExtract(data: seq<Byte>, bitOffset: nat, bitwidth: nat, dst: array<Byte>)
    requires bitOffset < 8 && bitOffset + bitwidth <= 8 * |data|
    requires bitwidth > 0 || bitOffset == 0
    requires dst.Length == NBytes(bitwidth)
    modifies dst
    ensures BitsOf(dst[..]) == Extracted(BitsOf(data), bitOffset, bitwidth)
  {
    hide ShiftedByte, MaskedByte, ExtractedBit;
    var nbytes := (bitwidth + 7) / 8;
    if bitOffset == 0 && bitwidth % 8 == 0 {
      Copy(data, 0, nbytes, dst);
      AlignedExtract(data, bitwidth, dst[..]);
      return;
    }
    var dstOffset := 8 * nbytes - bitwidth;
    var offset := bitOffset - dstOffset;
    if offset == 0 {
      Copy(data, 0, nbytes, dst);
      forall i | 0 <= i < nbytes ensures ShiftedByte(data, 0, dst[i], i) { Unshifted(data, i); }
      MaskFirst(data, 0, dstOffset, dst[0]);
      dst[0] := And(dst[0], Shr(ONES, dstOffset));
    } else if offset > 0 {
      ExtractShiftLeft(data, bitOffset, bitwidth, nbytes, offset, dstOffset, dst);
    } else {
      ExtractShiftRight(data, nbytes, -offset, dstOffset, dst);
    }
    ExtractDone(data, bitOffset, bitwidth, dst[..]);
  }

  /** memcpy of the bytes `from` up to `to`. */
  method Copy(data: seq<Byte>, from: nat, to: nat, dst: array<Byte>)
    requires from <= to <= |data| && to <= dst.Length
    modifies dst
    ensures forall k :: from <= k < to ==> dst[k] == data[k]
    ensures forall k :: 0 <= k < dst.Length && !(from <= k < to) ==> dst[k] == old(dst[k])
  {
    for i := from to to
      invariant forall k :: from <= k < i ==> dst[k] == data[k]
      invariant forall k :: 0 <= k < dst.Length && !(from <= k < i) ==> dst[k] == old(dst[k])
    {
      dst[i] := data[i];
    }
  }

  lemma {:induction false} AlignedExtract(data: seq<Byte>, w: nat, out: seq<Byte>)
    requires w % 8 == 0 && w <= 8 * |data| && |out| == w / 8
    requires forall k :: 0 <= k < |out| ==> out[k] == data[k]
    ensures BitsOf(out) == Extracted(BitsOf(data), 0, w)
  {}

  lemma {:induction false} Unshifted(data: seq<Byte>, i: nat)
    requires i < |data|
    ensures ShiftedByte(data, 0, data[i], i)
  {}

  method ExtractShiftLeft(data: seq<Byte>, bitOffset: nat, bitwidth: nat,
                          nbytes: nat, offset: int, dstOffset: nat, dst: array<Byte>)
    requires dstOffset == 8 * nbytes - bitwidth < 8 && offset == bitOffset - dstOffset
    requires 0 < offset < 8 && 0 < nbytes == dst.Length && bitOffset + bitwidth <= 8 * |data|
    modifies dst
    ensures forall i :: 1 <= i < nbytes ==> ShiftedByte(data, offset, dst[i], i)
    ensures if nbytes == 1 then ShiftedByte(data, offset, dst[0], 0)
            else MaskedByte(data, offset, dstOffset, dst[0])
  {
    hide ShiftedByte, MaskedByte;
    var i := 0;
    while i < nbytes - 1
      invariant 0 <= i <= nbytes - 1
      invariant forall k :: 0 <= k < i ==> ShiftedByte(data, offset, dst[k], k)
    {
      ShiftLeftPair(data, offset, i);
      dst[i] := Or(Shl(data[i], offset), Shr(data[i + 1], 8 - offset));
      i := i + 1;
    }
    if nbytes > 1 { MaskFirst(data, offset, dstOffset, dst[0]); }
    dst[0] := And(dst[0], Shr(ONES, dstOffset));
    ShiftLeftPair(data, offset, i);
    dst[i] := Shl(data[i], offset);
    if bitOffset + bitwidth > 8 * nbytes {
      dst[i] := Or(dst[i], Shr(data[i + 1], 8 - offset));
    }
  }

  method ExtractShiftRight(data: seq<Byte>, nbytes: nat, offset: int, dstOffset: nat, dst: array<Byte>)
    requires 0 < offset < 8 && dstOffset < 8 && 0 < nbytes == dst.Length && nbytes <= |data|
    modifies dst
    ensures forall i :: 1 <= i < nbytes ==> ShiftedByte(data, -offset, dst[i], i)
    ensures MaskedByte(data, -offset, dstOffset, dst[0])
  {
    hide ShiftedByte, MaskedByte;
    dst[0] := Shr(data[0], offset);
    ShiftRightFirst(data, offset);
    MaskFirst(data, -offset, dstOffset, dst[0]);
    dst[0] := And(dst[0], Shr(ONES, dstOffset));
    for i := 1 to nbytes
      invariant MaskedByte(data, -offset, dstOffset, dst[0])
      invariant forall k :: 1 <= k < i ==> ShiftedByte(data, -offset, dst[k], k)
    {
      ShiftRightPair(data, offset, i);
      dst[i] := Or(Shl(data[i - 1], 8 - offset), Shr(data[i], offset));
    }
  }

  // ----- deparsing ----------------------------------------------------------

  function FieldBit(field: seq<bool>, k: int): bool {
    0 <= k < |field| && field[k]
  }

  /** Bit `j` of the bytes a field of `w` bits is written to, `offset` bits into
      the first of them: bits before the field keep their value, together with
      the padding that falls on them; bits after it are cleared, unless a field of
      several bytes is shifted right. */
  function DeparsedBit(old_: seq<bool>, field: seq<bool>, w: nat, offset: nat, j: nat): bool
    requires j < |old_|
  {
    || FieldBit(field, j + Pad(w) - offset)
    || (old_[j] && (j < offset || (j >= offset + w && offset > Pad(w) && NBytes(w) > 1)))
  }

  function Deparsed(old_: seq<bool>, field: seq<bool>, w: nat, offset: nat): (r: seq<bool>)
    ensures |r| == |old_|
    ensures forall j :: 0 <= j < |r| ==> r[j] == DeparsedBit(old_, field, w, offset, j)
  {
    seq(|old_|, j requires 0 <= j < |old_| => DeparsedBit(old_, field, w, offset, j))
  }

  /** A zero-padded field is written exactly and leaves all earlier bits alone. */
  lemma {:induction false} DeparsingIsExact(old_: seq<bool>, field: seq<bool>, w: nat, offset: nat)
    requires |field| == 8 * NBytes(w) && offset < 8 && offset + w <= |old_|
    requires field[..Pad(w)] == Zeros(Pad(w))
    ensures Deparsed(old_, field, w, offset)[..offset + w] == old_[..offset] + field[Pad(w)..]
  {
    forall k | 0 <= k < Pad(w) ensures !field[k] { assert field[k] == field[..Pad(w)][k]; }
  }

  // What the bytes from `at` on must hold after the write.
  ghost predicate WrittenByte(old_: Byte, data: seq<Byte>, w: nat, offset: nat, b: Byte, i: nat) {
    forall j :: 0 <= j < 8 ==>
      b[j] == (ShiftedBit(data, 8 * i + j + Pad(w) - offset)
               || (old_[j] && (8 * i + j < offset || (8 * i + j >= offset + w && offset > Pad(w) && NBytes(w) > 1))))
  }

  lemma {:induction false} DeparseDone(before: seq<Byte>, data: seq<Byte>, w: nat, offset: nat, after: seq<Byte>)
    requires |after| == |before| && |data| == NBytes(w)
    requires forall i :: 0 <= i < |after| ==> WrittenByte(before[i], data, w, offset, after[i], i)
    ensures BitsOf(after) == Deparsed(BitsOf(before), BitsOf(data), w, offset)
  {
    hide WrittenByte;
    forall k | 0 <= k < 8 * |after|
      ensures BitsOf(after)[k] == DeparsedBit(BitsOf(before), BitsOf(data), w, offset, k)
    {
      DeparseDoneBit(before, data, w, offset, after[k / 8], k);
    }
  }

  lemma {:induction false} DeparseDoneBit(before: seq<Byte>, data: seq<Byte>, w: nat, offset: nat, b: Byte, k: nat)
    requires k < 8 * |before| && |data| == NBytes(w) && WrittenByte(before[k / 8], data, w, offset, b, k / 8)
    ensures b[k % 8] == DeparsedBit(BitsOf(before), BitsOf(data), w, offset, k)
  {
    assert 8 * (k / 8) + k % 8 == k;
  }

  // One byte in each of the cases.

  lemma {:induction false} WrittenFirst(old_: Byte, data: seq<Byte>, w: nat, offset: nat, shifted: Byte)
    requires w > 0 && offset < 8 && |data| == NBytes(w) && ShiftedByte(data, Pad(w) - offset, shifted, 0)
    requires offset > Pad(w) && NBytes(w) > 1 ==> offset + w >= 8
    ensures WrittenByte(old_, data, w, offset, Or(And(old_, Not(Shr(ONES, offset))), shifted), 0)
  {}

  lemma {:induction false} WrittenNext(old_: Byte, data: seq<Byte>, w: nat, offset: nat, shifted: Byte, i: nat)
    requires w > 0 && offset < 8 && i > 0 && ShiftedByte(data, Pad(w) - offset, shifted, i)
    requires offset > Pad(w) && NBytes(w) > 1 ==> 8 * i + 8 <= offset + w
    ensures WrittenByte(old_, data, w, offset, shifted, i)
  {}

  lemma {:induction false} WrittenTail(old_: Byte, data: seq<Byte>, w: nat, offset: nat, i: nat, tail: nat)
    requires offset < 8 && |data| == NBytes(w) > 1 && offset > Pad(w) && i == NBytes(w)
    requires tail == 8 * (i + 1) - (offset + w)
    ensures WrittenByte(old_, data, w, offset,
              Or(And(old_, Shr(ONES, 8 - tail)), Shl(data[i - 1], 8 - (offset - Pad(w)))), i)
  {}

  lemma {:induction false} ShiftLeftLast(data: seq<Byte>, n: int)
    requires 0 < n < 8 && |data| > 0
    ensures ShiftedByte(data, n, Shl(data[|data| - 1], n), |data| - 1)
  {}

  lemma {:induction false} ShiftRightLast(data: seq<Byte>, n: int)
    requires 0 < n < 8 && |data| > 0
    ensures ShiftedByte(data, -n, Shl(data[|data| - 1], 8 - n), |data|)
  {}

  /** The bytes `at` up to `at + n` have been written as specified, no others. */
  twostate predicate Written(dst: array<Byte>, at: nat, n: nat, data: seq<Byte>, w: nat, offset: nat)
    reads dst
  {
    && at + n <= dst.Length
    && (forall m :: at <= m < at + n ==> WrittenByte(old(dst[m]), data, w, offset, dst[m], m - at))
    && (forall k :: 0 <= k < dst.Length && !(at <= k < at + n) ==> dst[k] == old(dst[k]))
  }

  // The same of the contents before and after.
  ghost predicate WrittenOnto(was: seq<Byte>, now: seq<Byte>, at: nat, n: nat, data: seq<Byte>, w: nat, offset: nat) {
    && at + n <= |was| == |now|
    && (forall m :: at <= m < at + n ==> WrittenByte(was[m], data, w, offset, now[m], m - at))
    && (forall k :: 0 <= k < |was| && !(at <= k < at + n) ==> now[k] == was[k])
  }

  lemma {:induction false} WrittenBits(was: seq<Byte>, now: seq<Byte>, at: nat, n: nat, data: seq<Byte>, w: nat,
                                       offset: nat)
    requires WrittenOnto(was, now, at, n, data, w, offset) && |data| == NBytes(w)
    ensures now[..at] == was[..at] && now[at + n..] == was[at + n..]
    ensures BitsOf(now[at..at + n]) == Deparsed(BitsOf(was[at..at + n]), BitsOf(data), w, offset)
  {
    hide WrittenByte, BitsOf, Deparsed;
    var (x, y) := (was[at..at + n], now[at..at + n]);
    forall i | 0 <= i < n ensures WrittenByte(x[i], data, w, offset, y[i], i) {
      var m := at + i;
      assert x[i] == was[m] && y[i] == now[m] && m - at == i;
    }
    DeparseDone(x, data, w, offset, y);
  }

  /** generic_deparse. */
  method GenericDeparse(data: seq<Byte>, bitwidth: nat, dst: array<Byte>, at: nat, hdrOffset: nat)
    requires hdrOffset < 8 && (bitwidth > 0 || hdrOffset == 0) && |data| == NBytes(bitwidth)
    requires at + NBytes(hdrOffset + bitwidth) <= dst.Length
    modifies dst
    ensures
      var (before, after, end) := (old(dst[..]), dst[..], at + NBytes(hdrOffset + bitwidth));
      && after[..at] == before[..at] && after[end..] == before[end..]
      && BitsOf(after[at..end]) == Deparsed(BitsOf(before[at..end]), BitsOf(data), bitwidth, hdrOffset)
  {
    hide WrittenByte, BitsOf, Deparsed, NBytes;
    ghost var (was, n) := (dst[..], NBytes(hdrOffset + bitwidth));
    WriteField(data, bitwidth, dst, at, hdrOffset);
    assert WrittenOnto(was, dst[..], at, n, data, bitwidth, hdrOffset);
    WrittenBits(was, dst[..], at, n, data, bitwidth, hdrOffset);
  }

  // The cases of generic_deparse.
  method WriteField(data: seq<Byte>, bitwidth: nat, dst: array<Byte>, at: nat, hdrOffset: nat)
    requires hdrOffset < 8 && (bitwidth > 0 || hdrOffset == 0) && |data| == NBytes(bitwidth)
    requires at + NBytes(hdrOffset + bitwidth) <= dst.Length
    modifies dst
    ensures Written(dst, at, NBytes(hdrOffset + bitwidth), data, bitwidth, hdrOffset)
  {
    hide WrittenByte;
    var nbytes := (bitwidth + 7) / 8;
    if hdrOffset == 0 && bitwidth % 8 == 0 {
      WriteAligned(data, bitwidth, dst, at);
    } else {
      var fieldOffset := 8 * nbytes - bitwidth;
      var hdrBytes := (hdrOffset + bitwidth + 7) / 8;
      var offset := fieldOffset - hdrOffset;
      if offset == 0 {
        DeparseUnshifted(data, bitwidth, dst, at, hdrOffset);
      } else if offset > 0 {
        DeparseShiftLeft(data, bitwidth, dst, at, hdrOffset, offset);
      } else {
        DeparseShiftRight(data, bitwidth, dst, at, hdrOffset, hdrBytes, -offset);
      }
    }
  }

  // The memcpy of a field of whole bytes at a byte boundary.
  method WriteAligned(data: seq<Byte>, w: nat, dst: array<Byte>, at: nat)
    requires w % 8 == 0 && |data| == w / 8 && at + |data| <= dst.Length
    modifies dst
    ensures Written(dst, at, |data|, data, w, 0)
  {
    hide WrittenByte;
    for i := 0 to |data|
      invariant forall m :: at <= m < at + i ==> dst[m] == data[m - at]
      invariant forall k :: 0 <= k < dst.Length && !(at <= k < at + i) ==> dst[k] == old(dst[k])
    {
      dst[at + i] := data[i];
    }
    forall m | at <= m < at + |data| ensures WrittenByte(old(dst[m]), data, w, 0, dst[m], m - at) {
      WrittenAligned(old(dst[m]), data, w, m - at);
    }
  }

  lemma {:induction false} WrittenAligned(old_: Byte, data: seq<Byte>, w: nat, i: nat)
    requires w % 8 == 0 && |data| == w / 8 && i < |data|
    ensures WrittenByte(old_, data, w, 0, data[i], i)
  {}

  method DeparseUnshifted(data: seq<Byte>, w: nat, dst: array<Byte>, at: nat, hdrOffset: nat)
    requires w > 0 && hdrOffset < 8 && hdrOffset == Pad(w) && |data| == NBytes(w) && at + |data| <= dst.Length
    modifies dst
    ensures Written(dst, at, |data|, data, w, hdrOffset)
  {
    hide WrittenByte, ShiftedByte;
    dst[at] := And(dst[at], Not(Shr(ONES, hdrOffset)));
    for i := 1 to |data|
      invariant dst[at] == And(old(dst[at]), Not(Shr(ONES, hdrOffset)))
      invariant forall m :: at + 1 <= m < at + i ==> WrittenByte(old(dst[m]), data, w, hdrOffset, dst[m], m - at)
      invariant forall k :: 0 <= k < dst.Length && !(at <= k < at + i) ==> dst[k] == old(dst[k])
    {
      Unshifted(data, i);
      WrittenNext(dst[at + i], data, w, hdrOffset, data[i], i);
      dst[at + i] := data[i];
    }
    Unshifted(data, 0);
    WrittenFirst(old(dst[at]), data, w, hdrOffset, data[0]);
    dst[at] := Or(dst[at], data[0]);
  }

  method DeparseShiftLeft(data: seq<Byte>, w: nat, dst: array<Byte>, at: nat, hdrOffset: nat, offset: int)
    requires w > 0 && hdrOffset < 8 && 0 < offset == Pad(w) - hdrOffset && |data| == NBytes(w)
    requires at + |data| <= dst.Length
    modifies dst
    ensures Written(dst, at, |data|, data, w, hdrOffset)
  {
    hide WrittenByte, ShiftedByte;
    var n := |data|;
    dst[at] := And(dst[at], Not(Shr(ONES, hdrOffset)));
    for i := 1 to n
      invariant dst[at] == And(old(dst[at]), Not(Shr(ONES, hdrOffset)))
      invariant forall m :: at + 1 <= m < at + i ==> dst[m] == Zeros(8)
      invariant forall k :: 0 <= k < dst.Length && !(at <= k < at + i) ==> dst[k] == old(dst[k])
    {
      dst[at + i] := Zeros(8);
    }
    for i := 0 to n - 1
      invariant i == 0 ==> dst[at] == And(old(dst[at]), Not(Shr(ONES, hdrOffset)))
      invariant forall m :: at <= m < at + i ==> WrittenByte(old(dst[m]), data, w, hdrOffset, dst[m], m - at)
      invariant forall m :: at + i <= m < at + n && at + 1 <= m ==> dst[m] == Zeros(8)
      invariant forall k :: 0 <= k < dst.Length && !(at <= k < at + n) ==> dst[k] == old(dst[k])
    {
      var pair := Or(Shl(data[i], offset), Shr(data[i + 1], 8 - offset));
      ShiftLeftPair(data, offset, i);
      WriteShifted(old(dst[at + i]), data, w, hdrOffset, pair, i, dst[at + i]);
      dst[at + i] := Or(dst[at + i], pair);
    }
    var last := Shl(data[n - 1], offset);
    ShiftLeftLast(data, offset);
    WriteShifted(old(dst[at + n - 1]), data, w, hdrOffset, last, n - 1, dst[at + n - 1]);
    dst[at + n - 1] := Or(dst[at + n - 1], last);
  }

  // Or-ing a shifted byte onto what is left of the first byte, or onto a cleared one.
  lemma {:induction false} WriteShifted(old_: Byte, data: seq<Byte>, w: nat, offset: nat, shifted: Byte, i: nat,
                                        now: Byte)
    requires w > 0 && offset < Pad(w) && |data| == NBytes(w) && ShiftedByte(data, Pad(w) - offset, shifted, i)
    requires now == if i == 0 then And(old_, Not(Shr(ONES, offset))) else Zeros(8)
    ensures WrittenByte(old_, data, w, offset, Or(now, shifted), i)
  {
    hide WrittenByte, ShiftedByte;
    if i == 0 {
      WrittenFirst(old_, data, w, offset, shifted);
    } else {
      assert Or(Zeros(8), shifted) == shifted;
      WrittenNext(old_, data, w, offset, shifted, i);
    }
  }

  method DeparseShiftRight(data: seq<Byte>, w: nat, dst: array<Byte>, at: nat, hdrOffset: nat, hdrBytes: nat,
                           offset: int)
    requires w > 0 && hdrOffset < 8 && 0 < offset == hdrOffset - Pad(w) && |data| == NBytes(w)
    requires hdrBytes == NBytes(hdrOffset + w) && at + hdrBytes <= dst.Length
    modifies dst
    ensures Written(dst, at, hdrBytes, data, w, hdrOffset)
  {
    hide WrittenByte, ShiftedByte;
    var nbytes := |data|;
    dst[at] := And(dst[at], Not(Shr(ONES, hdrOffset)));
    ShiftRightFirst(data, offset);
    WrittenFirst(old(dst[at]), data, w, hdrOffset, Shr(data[0], offset));
    dst[at] := Or(dst[at], Shr(data[0], offset));
    if nbytes == 1 {
      ShiftRightLast(data, offset);
      WrittenNext(dst[at + 1], data, w, hdrOffset, Shl(data[0], 8 - offset), 1);
      dst[at + 1] := Shl(data[0], 8 - offset);
      return;
    }
    for i := 1 to hdrBytes - 1
      invariant forall m :: at <= m < at + i ==> WrittenByte(old(dst[m]), data, w, hdrOffset, dst[m], m - at)
      invariant forall k :: 0 <= k < dst.Length && !(at <= k < at + i) ==> dst[k] == old(dst[k])
    {
      var pair := Or(Shl(data[i - 1], 8 - offset), Shr(data[i], offset));
      ShiftRightPair(data, offset, i);
      WrittenNext(dst[at + i], data, w, hdrOffset, pair, i);
      dst[at + i] := pair;
    }
    var i := hdrBytes - 1;
    var tailOffset := 8 * hdrBytes - (hdrOffset + w);
    WrittenTail(dst[at + i], data, w, hdrOffset, i, tailOffset);
    dst[at + i] := And(dst[at + i], Shr(ONES, 8 - tailOffset));
    dst[at + i] := Or(dst[at + i], Shl(data[i - 1], 8 - offset));
  }
}
