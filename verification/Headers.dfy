/** Headers as lists of fields: Header::extract, Header::deparse (headers.cpp),
    Field::extract and Field::deparse (fields.cpp), and the buffers assembled by
    BufBuilder (calculations.cpp). */
module Headers {
  import opened Bits
  import opened Extract

  /** A field: its width in bits and its right-aligned bytes. */
  datatype Field = Field(nbits: nat, bytes: seq<Byte>)

  predicate Sized(f: Field) {
    |f.bytes| == NBytes(f.nbits)
  }

  // The bits of a field without its padding.
  function ValueBits(f: Field): (r: seq<bool>)
    requires Sized(f)
    ensures |r| == f.nbits
  {
    BitsOf(f.bytes)[Pad(f.nbits)..]
  }

  predicate ZeroPadded(f: Field)
    requires Sized(f)
  {
    BitsOf(f.bytes)[..Pad(f.nbits)] == Zeros(Pad(f.nbits))
  }

  /** The number of bits in the first `k` fields. */
  function Offset(fields: seq<Field>, k: nat): nat
    requires k <= |fields|
  {
    if k == 0 then 0 else Offset(fields, k - 1) + fields[k - 1].nbits
  }

  lemma {:induction false} OffsetMonotone(fields: seq<Field>, i: nat, k: nat)
    requires i <= k <= |fields|
    ensures Offset(fields, i) <= Offset(fields, k)
    decreases k
  {
    if i < k { OffsetMonotone(fields, i, k - 1); }
  }

  lemma {:induction false} SameOffsets(f: seq<Field>, g: seq<Field>, k: nat)
    requires k <= |f| && k <= |g| && forall i :: 0 <= i < k ==> f[i].nbits == g[i].nbits
    ensures Offset(f, k) == Offset(g, k)
  {
    if k > 0 { SameOffsets(f, g, k - 1); }
  }

  // ----- one field in a buffer of bits --------------------------------------

  /** The bits from the byte that holds bit `p` on. */
  function FromByte(bits: seq<bool>, p: nat): seq<bool>
    requires p <= |bits|
  {
    bits[8 * (p / 8)..]
  }

  /** Extraction of the field of `w` bits at bit `p`. */
  function FieldAt(src: seq<bool>, p: nat, w: nat): seq<bool>
    requires p + w <= |src|
  {
    Extracted(FromByte(src, p), p % 8, w)
  }

  /** A buffer after a field was deparsed at bit `p`. */
  function PutField(buf: seq<bool>, p: nat, f: Field): (r: seq<bool>)
    requires Sized(f) && |buf| % 8 == 0 && p + f.nbits <= |buf|
    ensures |r| == |buf|
  {
    var start := 8 * (p / 8);
    var end := start + 8 * NBytes(p % 8 + f.nbits);
    EndInside(|buf|, p, f.nbits);
    buf[..start] + Deparsed(buf[start..end], BitsOf(f.bytes), f.nbits, p % 8) + buf[end..]
  }

  // A field ends inside the byte that a buffer of whole bytes has for it.
  lemma {:induction false} EndInside(n: nat, p: nat, w: nat)
    requires n % 8 == 0 && p + w <= n
    ensures 8 * (p / 8) <= 8 * (p / 8) + 8 * NBytes(p % 8 + w) <= n
  {}

  /** The padding of the field only falls on bits that are set anyway. */
  ghost predicate PaddingAgrees(buf: seq<bool>, p: nat, f: Field)
    requires Sized(f) && p <= |buf|
  {
    forall k :: 0 <= k < Pad(f.nbits) && BitsOf(f.bytes)[k] && k + p % 8 >= Pad(f.nbits)
      ==> buf[8 * (p / 8) + k + p % 8 - Pad(f.nbits)]
  }

  /** A set bit of the padding falls on bit `j` of the buffer, before the field. */
  predicate Stray(f: Field, p: nat, j: nat)
    requires Sized(f) && j < p
  {
    var k := j - 8 * (p / 8) + Pad(f.nbits) - p % 8;
    8 * (p / 8) <= j && 0 <= k && BitsOf(f.bytes)[k]
  }

  /** Deparsing a field writes its value; of the bits before it, those that a set bit
      of the padding falls on are set and the others stay. */
  lemma {:induction false} PutFieldAt(buf: seq<bool>, p: nat, f: Field, j: nat)
    requires Sized(f) && |buf| % 8 == 0 && p + f.nbits <= |buf| && j < p + f.nbits
    ensures PutField(buf, p, f)[j] == if j < p then buf[j] || Stray(f, p, j) else ValueBits(f)[j - p]
  {
    hide BitsOf, ValueBits, DeparsedBit;
    var start := 8 * (p / 8);
    if j >= start { PutFieldBit(buf, p, f, j - start); }
  }

  lemma {:induction false} PutFieldBit(buf: seq<bool>, p: nat, f: Field, j: nat)
    requires Sized(f) && |buf| % 8 == 0 && p + f.nbits <= |buf|
    requires j < p % 8 + f.nbits
    ensures
      var start := 8 * (p / 8);
      var old_ := buf[start..start + 8 * NBytes(p % 8 + f.nbits)];
      DeparsedBit(old_, BitsOf(f.bytes), f.nbits, p % 8, j) ==
        if j < p % 8 then buf[start + j] || Stray(f, p, start + j) else ValueBits(f)[j - p % 8]
  {
    hide BitsOf;
  }

  /** A field is written exactly, and everything before it kept, if and only if its
      padding agrees with the buffer. */
  lemma {:induction false} PutFieldExact(buf: seq<bool>, p: nat, f: Field)
    requires Sized(f) && |buf| % 8 == 0 && p + f.nbits <= |buf|
    ensures PutField(buf, p, f)[..p + f.nbits] == buf[..p] + ValueBits(f) <==> PaddingAgrees(buf, p, f)
  {
    hide BitsOf, PaddingAgrees, ValueBits, PutField, Stray;
    forall j: nat | j < p + f.nbits
      ensures PutField(buf, p, f)[j] == if j < p then buf[j] || Stray(f, p, j) else ValueBits(f)[j - p]
    {
      PutFieldAt(buf, p, f, j);
    }
    StrayIffAgrees(buf, p, f);
    var (l, r) := (PutField(buf, p, f)[..p + f.nbits], buf[..p] + ValueBits(f));
    if PaddingAgrees(buf, p, f) {
      assert forall j :: 0 <= j < p + f.nbits ==> l[j] == r[j];
    } else {
      var j: nat :| j < p && Stray(f, p, j) && !buf[j];
      assert l[j] != r[j];
    }
  }

  lemma {:induction false} StrayIffAgrees(buf: seq<bool>, p: nat, f: Field)
    requires Sized(f) && p <= |buf|
    ensures PaddingAgrees(buf, p, f) <==> forall j: nat :: j < p && Stray(f, p, j) ==> buf[j]
  {
    hide BitsOf;
    var (start, shift) := (8 * (p / 8), Pad(f.nbits) - p % 8);
    if PaddingAgrees(buf, p, f) {
      forall j: nat | j < p && Stray(f, p, j) ensures buf[j] {
        var k := j - start + shift;
        assert BitsOf(f.bytes)[k] && 8 * (p / 8) + k + p % 8 - Pad(f.nbits) == j;
      }
    }
    if forall j: nat :: j < p && Stray(f, p, j) ==> buf[j] {
      forall k | 0 <= k < Pad(f.nbits) && BitsOf(f.bytes)[k] && k + p % 8 >= Pad(f.nbits)
        ensures buf[8 * (p / 8) + k + p % 8 - Pad(f.nbits)]
      {
        assert Stray(f, p, start + k - shift);
      }
    }
  }

  lemma {:induction false} ZeroPaddingAgrees(buf: seq<bool>, p: nat, f: Field)
    requires Sized(f) && p <= |buf| && ZeroPadded(f)
    ensures PaddingAgrees(buf, p, f)
  {
    hide BitsOf;
    forall k | 0 <= k < Pad(f.nbits) ensures !BitsOf(f.bytes)[k] {
      assert BitsOf(f.bytes)[k] == BitsOf(f.bytes)[..Pad(f.nbits)][k];
    }
  }

  /** The padding of an extracted field, where it is not zero, repeats the packet. */
  lemma {:induction false} ExtractedPaddingAgrees(src: seq<bool>, buf: seq<bool>, p: nat, f: Field)
    requires Sized(f) && p + f.nbits <= |src| && p <= |buf| && buf[..p] == src[..p]
    requires BitsOf(f.bytes) == FieldAt(src, p, f.nbits)
    ensures PaddingAgrees(buf, p, f) && ValueBits(f) == src[p..p + f.nbits]
  {
    hide BitsOf, Extracted;
    ExtractionIsExact(FromByte(src, p), p % 8, f.nbits);
    assert FromByte(src, p)[p % 8..p % 8 + f.nbits] == src[p..p + f.nbits];
    hide FromByte;
    StrayRepeats(src, buf, p, f);
  }

  lemma {:induction false} StrayRepeats(src: seq<bool>, buf: seq<bool>, p: nat, f: Field)
    requires Sized(f) && p + f.nbits <= |src| && p <= |buf| && buf[..p] == src[..p]
    requires BitsOf(f.bytes) == FieldAt(src, p, f.nbits)
    ensures PaddingAgrees(buf, p, f)
  {
    hide BitsOf;
    var w := f.nbits;
    forall k | 0 <= k < Pad(w) && BitsOf(f.bytes)[k] && k + p % 8 >= Pad(w)
      ensures buf[8 * (p / 8) + k + p % 8 - Pad(w)]
    {
      var j := 8 * (p / 8) + k + p % 8 - Pad(w);
      assert FieldAt(src, p, w)[k] == ExtractedBit(FromByte(src, p), p % 8, w, k);
      assert src[j] == src[..p][j] && buf[j] == buf[..p][j];
    }
  }

  // ----- all fields of a header ---------------------------------------------

  ghost predicate AllSized(fields: seq<Field>) {
    forall k :: 0 <= k < |fields| ==> Sized(fields[k])
  }

  /** The buffer after the first `k` fields were deparsed onto it. */
  function PutFields(buf: seq<bool>, fields: seq<Field>, k: nat): (r: seq<bool>)
    requires k <= |fields| && AllSized(fields) && |buf| % 8 == 0 && Offset(fields, k) <= |buf|
    ensures |r| == |buf|
  {
    if k == 0 then buf else PutField(PutFields(buf, fields, k - 1), Offset(fields, k - 1), fields[k - 1])
  }

  /** The fields hold what extraction takes from `src`. */
  ghost predicate ExtractedFrom(src: seq<bool>, fields: seq<Field>, k: nat)
    requires k <= |fields| && Offset(fields, k) <= |src|
  {
    forall i :: 0 <= i < k ==>
      Offset(fields, i) + fields[i].nbits <= |src| &&
        BitsOf(fields[i].bytes) == FieldAt(src, Offset(fields, i), fields[i].nbits)
  }

  /** Header round trip: deparsing extracted fields onto any buffer reproduces the
      packet bits, whatever the buffer held. */
  lemma {:induction false} RoundTrip(src: seq<bool>, buf: seq<bool>, fields: seq<Field>, k: nat)
    requires k <= |fields| && AllSized(fields) && |buf| % 8 == 0
    requires Offset(fields, k) <= |buf| && Offset(fields, k) <= |src|
    requires ExtractedFrom(src, fields, k)
    ensures PutFields(buf, fields, k)[..Offset(fields, k)] == src[..Offset(fields, k)]
  {
    hide PutField, FieldAt, BitsOf, ExtractedFrom;
    if k > 0 {
      ExtractedLast(src, fields, k);
      RoundTrip(src, buf, fields, k - 1);
      RoundTripStep(src, PutFields(buf, fields, k - 1), Offset(fields, k - 1), fields[k - 1]);
    }
  }

  lemma {:induction false} ExtractedLast(src: seq<bool>, fields: seq<Field>, k: nat)
    requires 0 < k <= |fields| && Offset(fields, k) <= |src| && ExtractedFrom(src, fields, k)
    ensures ExtractedFrom(src, fields, k - 1)
    ensures BitsOf(fields[k - 1].bytes) == FieldAt(src, Offset(fields, k - 1), fields[k - 1].nbits)
  {
    hide FieldAt, BitsOf;
  }

  lemma {:induction false} RoundTripStep(src: seq<bool>, buf: seq<bool>, p: nat, f: Field)
    requires Sized(f) && |buf| % 8 == 0 && p + f.nbits <= |src| && p + f.nbits <= |buf| && buf[..p] == src[..p]
    requires BitsOf(f.bytes) == FieldAt(src, p, f.nbits)
    ensures PutField(buf, p, f)[..p + f.nbits] == src[..p + f.nbits]
  {
    hide *;
    ExtractedPaddingAgrees(src, buf, p, f);
    PutFieldExact(buf, p, f);
    assert src[..p + f.nbits] == src[..p] + src[p..p + f.nbits];
  }

  function Concat(fields: seq<Field>, k: nat): (r: seq<bool>)
    requires k <= |fields| && AllSized(fields)
    ensures |r| == Offset(fields, k)
  {
    if k == 0 then [] else Concat(fields, k - 1) + ValueBits(fields[k - 1])
  }

  /** Deparsing zero-padded fields gives the concatenation of their values. */
  lemma {:induction false} DeparseConcat(buf: seq<bool>, fields: seq<Field>, k: nat)
    requires k <= |fields| && AllSized(fields) && |buf| % 8 == 0 && Offset(fields, k) <= |buf|
    requires forall i :: 0 <= i < k ==> ZeroPadded(fields[i])
    ensures PutFields(buf, fields, k)[..Offset(fields, k)] == Concat(fields, k)
  {
    hide PutField, BitsOf, ValueBits;
    if k > 0 {
      DeparseConcat(buf, fields, k - 1);
      var mid := PutFields(buf, fields, k - 1);
      ZeroPaddingAgrees(mid, Offset(fields, k - 1), fields[k - 1]);
      PutFieldExact(mid, Offset(fields, k - 1), fields[k - 1]);
    }
  }

  lemma {:induction false} BitsInjective(x: seq<Byte>, y: seq<Byte>)
    requires BitsOf(x) == BitsOf(y)
    ensures x == y
  {
    assert |x| == |y|;
    forall i | 0 <= i < |x| ensures x[i] == y[i] {
      BitsOfByte(x, i);
      BitsOfByte(y, i);
    }
  }

  /** `after` is `before` with all fields deparsed onto it. */
  ghost predicate DeparsedOnto(before: seq<Byte>, fields: seq<Field>, after: seq<Byte>) {
    && AllSized(fields) && Offset(fields, |fields|) == 8 * |before|
    && PutOnto(before, fields, |fields|) == BitsOf(after)
  }

  function PutOnto(before: seq<Byte>, fields: seq<Field>, k: nat): (r: seq<bool>)
    requires k <= |fields| && AllSized(fields) && Offset(fields, k) <= 8 * |before|
    ensures |r| == 8 * |before| && |r| % 8 == 0
  {
    PutFields(BitsOf(before), fields, k)
  }

  /** The same in bytes: what is deparsed is the start of the packet. */
  lemma {:induction false} HeaderRoundTrip(data: seq<Byte>, before: seq<Byte>, after: seq<Byte>, fields: seq<Field>)
    requires DeparsedOnto(before, fields, after) && |before| <= |data|
    requires ExtractedFrom(BitsOf(data), fields, |fields|)
    ensures after == data[..|before|]
  {
    hide ExtractedFrom, PutFields, BitsOf, Offset;
    RoundTrip(BitsOf(data), BitsOf(before), fields, |fields|);
    assert BitsOf(after)[..8 * |before|] == BitsOf(after);
    PrefixBits(data, |before|);
    BitsInjective(after, data[..|before|]);
  }

  lemma {:induction false} PrefixBits(data: seq<Byte>, n: nat)
    requires n <= |data|
    ensures BitsOf(data)[..8 * n] == BitsOf(data[..n])
  {}

  // ----- the header object --------------------------------------------------

  /** Fields can be read and written at these widths: an empty field, which a
      variable-length field can be, only at a byte boundary. */
  ghost predicate Readable(fields: seq<Field>) {
    && AllSized(fields)
    && forall k :: 0 <= k < |fields| ==> fields[k].nbits > 0 || Offset(fields, k) % 8 == 0
  }

  ghost predicate SameWidths(fields: seq<Field>, widths: seq<nat>) {
    |fields| == |widths| && forall k :: 0 <= k < |fields| ==> fields[k].nbits == widths[k]
  }

  ghost predicate Fits(fields: seq<Field>, nbytes: nat) {
    Readable(fields) && Offset(fields, |fields|) % 8 == 0 && Offset(fields, |fields|) <= 8 * nbytes
  }

  class Header {
    var fields: seq<Field>
    var valid: bool
    var nbytesPacket: nat

    ghost predicate Valid()
      reads this
    {
      Readable(fields) && Offset(fields, |fields|) == 8 * nbytesPacket
    }

    constructor (widths: seq<nat>)
      requires ReadableWidths(widths)
      ensures SameWidths(fields, widths) && Valid() && !valid
    {
      fields := Blank(widths);
      valid := false;
      BlankReadable(widths);
      nbytesPacket := Offset(Blank(widths), |widths|) / 8;
    }

    /** Header::extract for a header of fixed widths. */
    method Extract(data: seq<Byte>)
      requires Valid() && nbytesPacket <= |data|
      modifies this
      ensures Valid() && valid && nbytesPacket == old(nbytesPacket)
      ensures SameShape(old(fields), fields) && ExtractedFrom(BitsOf(data), fields, |fields|)
    {
      fields := ExtractAll(data, fields);
      SameOffsets(old(fields), fields, |fields|);
      valid := true;
    }

    /** Header::extract_VL: field `vl` takes the width that its expression computed,
        and the size of the header follows. */
    method ExtractVL(data: seq<Byte>, vl: nat, computedNbits: nat)
      requires vl < |fields| && Fits(fields[vl := BlankField(computedNbits)], |data|)
      modifies this
      ensures Valid() && valid && nbytesPacket <= |data|
      ensures SameShape(old(fields)[vl := BlankField(computedNbits)], fields)
      ensures ExtractedFrom(BitsOf(data), fields, |fields|)
    {
      hide Offset, BitsOf, ExtractedFrom, Readable;
      fields := fields[vl := BlankField(computedNbits)];
      ghost var start := fields;
      fields := ExtractAll(data, fields);
      SameOffsets(start, fields, |fields|);
      nbytesPacket := Offset(fields, |fields|) / 8;
      valid := true;
    }

    /** Header::deparse onto the bytes of `dst` from `at` on. */
    method Deparse(dst: array<Byte>, at: nat)
      requires Valid() && at + nbytesPacket <= dst.Length
      modifies dst
      ensures
        var (before, after, end) := (old(dst[..]), dst[..], at + nbytesPacket);
        && after[..at] == before[..at] && after[end..] == before[end..]
        && DeparsedOnto(before[at..end], fields, after[at..end])
    {
      DeparseAll(fields, nbytesPacket, dst, at);
    }
  }

  method DeparseAll(fields: seq<Field>, nbytes: nat, dst: array<Byte>, at: nat)
    requires Readable(fields) && Offset(fields, |fields|) == 8 * nbytes && at + nbytes <= dst.Length
    modifies dst
    ensures
      var (before, after, end) := (old(dst[..]), dst[..], at + nbytes);
      && after[..at] == before[..at] && after[end..] == before[end..]
      && DeparsedOnto(before[at..end], fields, after[at..end])
  {
    hide BitsOf, PutField, Offset, PutFields, PutOnto, Deparsed;
    var hdrOffset: nat, pos := 0, at;
    ghost var end := at + nbytes;
    ghost var whole := dst[..];
    ghost var before := whole[at..end];
    PutNone(before, fields);
    for i := 0 to |fields|
      invariant at <= pos <= end && hdrOffset < 8 && 8 * (pos - at) + hdrOffset == Offset(fields, i)
      invariant dst[..][..at] == whole[..at] && dst[..][end..] == whole[end..]
      invariant Offset(fields, i) <= 8 * |before|
      invariant BitsOf(dst[..][at..end]) == PutOnto(before, fields, i)
    {
      var f := fields[i];
      PutNext(before, fields, i, Offset(fields, i), f);
      DeparseField(f, dst, pos, hdrOffset, at, end);
      hdrOffset := hdrOffset + f.nbits;
      pos, hdrOffset := pos + hdrOffset / 8, hdrOffset % 8;
    }
  }

  /** Field::deparse at bit `hdrOffset` of byte `pos`, inside the header that takes
      the bytes `at` up to `end`. */
  method DeparseField(f: Field, dst: array<Byte>, pos: nat, hdrOffset: nat, ghost at: nat, ghost end: nat)
    requires at <= pos && end <= dst.Length && hdrOffset < 8 && Sized(f) && (f.nbits > 0 || hdrOffset == 0)
    requires 8 * (pos - at) + hdrOffset + f.nbits <= 8 * (end - at)
    modifies dst
    ensures
      var (before, after) := (old(dst[..]), dst[..]);
      && after[..at] == before[..at] && after[end..] == before[end..]
      && BitsOf(after[at..end]) == PutField(BitsOf(before[at..end]), 8 * (pos - at) + hdrOffset, f)
  {
    hide BitsOf, PutField, Deparsed, NBytes, Sized;
    ghost var before := dst[..];
    SizedBytes(f);
    StopInside(at, end, pos, hdrOffset, f.nbits);
    GenericDeparse(f.bytes, f.nbits, dst, pos, hdrOffset);
    DeparsedPiece(before, dst[..], at, end, pos, hdrOffset, f);
  }

  ghost predicate SameShape(f: seq<Field>, g: seq<Field>) {
    |f| == |g| && forall k :: 0 <= k < |f| ==> f[k].nbits == g[k].nbits
  }

  function BlankField(w: nat): (f: Field)
    ensures Sized(f)
  {
    Field(w, seq(NBytes(w), _ => Zeros(8)))
  }

  function Blank(widths: seq<nat>): (r: seq<Field>)
    ensures SameWidths(r, widths) && AllSized(r)
  {
    seq(|widths|, i requires 0 <= i < |widths| => BlankField(widths[i]))
  }

  ghost predicate ReadableWidths(widths: seq<nat>) {
    Readable(Blank(widths)) && Offset(Blank(widths), |widths|) % 8 == 0
  }

  lemma {:induction false} BlankReadable(widths: seq<nat>)
    requires ReadableWidths(widths)
    ensures Readable(Blank(widths)) && Offset(Blank(widths), |widths|) % 8 == 0
  {}

  /** The loop of Header::extract. */
  method ExtractAll(data: seq<Byte>, start: seq<Field>) returns (fields: seq<Field>)
    requires Readable(start) && Offset(start, |start|) <= 8 * |data|
    ensures SameShape(start, fields) && Readable(fields) && Offset(fields, |fields|) == Offset(start, |start|)
    ensures ExtractedFrom(BitsOf(data), fields, |fields|)
  {
    hide Offset, BitsOf, FieldAt, ExtractedFrom;
    fields := start;
    var hdrOffset: nat, from: nat := 0, 0;
    ExtractedNone(data, start);
    for i := 0 to |start|
      invariant SameShape(start, fields) && AllSized(fields)
      invariant hdrOffset < 8 && 8 * from + hdrOffset == Offset(start, i) == Offset(fields, i) <= 8 * |data|
      invariant ExtractedFrom(BitsOf(data), fields, i)
    {
      NextOffset(start, i);
      var f := ExtractField(data[from..], hdrOffset, fields[i].nbits);
      ExtractedStep(data, start, fields, i, f, from, hdrOffset);
      fields := fields[i := f];
      hdrOffset := hdrOffset + f.nbits;
      from, hdrOffset := from + hdrOffset / 8, hdrOffset % 8;
    }
    SameReadable(start, fields);
  }

  lemma {:induction false} SameReadable(f: seq<Field>, g: seq<Field>)
    requires Readable(f) && SameShape(f, g) && AllSized(g)
    ensures Readable(g) && Offset(g, |g|) == Offset(f, |f|)
  {
    hide Offset;
    forall k | 0 <= k <= |f| ensures Offset(f, k) == Offset(g, k) { SameOffsets(f, g, k); }
  }

  lemma {:induction false} ExtractedNone(data: seq<Byte>, fields: seq<Field>)
    ensures Offset(fields, 0) == 0 && ExtractedFrom(BitsOf(data), fields, 0)
  {}

  lemma {:induction false} NextOffset(fields: seq<Field>, i: nat)
    requires i < |fields|
    ensures Offset(fields, i + 1) == Offset(fields, i) + fields[i].nbits <= Offset(fields, |fields|)
  {
    OffsetMonotone(fields, i + 1, |fields|);
  }

  lemma {:induction false} ExtractedStep(data: seq<Byte>, start: seq<Field>, fields: seq<Field>, i: nat, f: Field,
                                         from: nat, hdrOffset: nat)
    requires SameShape(start, fields) && i < |fields| && f.nbits == fields[i].nbits && Sized(f) && AllSized(fields)
    requires hdrOffset < 8 && 8 * from + hdrOffset == Offset(start, i)
    requires Offset(fields, i) <= 8 * |data| && Offset(start, i + 1) <= 8 * |data|
    requires ExtractedFrom(BitsOf(data), fields, i)
    requires BitsOf(f.bytes) == Extracted(BitsOf(data[from..]), hdrOffset, f.nbits)
    requires Offset(start, i + 1) == Offset(start, i) + f.nbits
    ensures SameShape(start, fields[i := f]) && AllSized(fields[i := f])
    ensures Offset(fields[i := f], i + 1) == Offset(start, i + 1)
    ensures ExtractedFrom(BitsOf(data), fields[i := f], i + 1)
  {
    hide Offset, Extracted, BitsOf;
    var new_ := fields[i := f];
    forall k | 0 <= k <= i + 1
      ensures Offset(new_, k) == Offset(start, k) && (k <= i ==> Offset(fields, k) == Offset(start, k))
    {
      SameOffsets(new_, start, k);
      SameOffsets(fields, start, k);
    }
    FromThere(data, from, hdrOffset, Offset(start, i));
    hide FromByte;
    assert BitsOf(f.bytes) == FieldAt(BitsOf(data), Offset(start, i), f.nbits);
  }

  lemma {:induction false} FromThere(data: seq<Byte>, from: nat, hdrOffset: nat, p: nat)
    requires hdrOffset < 8 && 8 * from + hdrOffset == p <= 8 * |data| && from <= |data|
    ensures p % 8 == hdrOffset && BitsOf(data[from..]) == FromByte(BitsOf(data), p)
  {}

  lemma {:induction false} PutNone(before: seq<Byte>, fields: seq<Field>)
    requires AllSized(fields)
    ensures Offset(fields, 0) == 0 && PutOnto(before, fields, 0) == BitsOf(before)
  {}

  lemma {:induction false} PutNext(before: seq<Byte>, fields: seq<Field>, i: nat, p: nat, f: Field)
    requires AllSized(fields) && i < |fields| && f == fields[i] && p == Offset(fields, i)
    requires Offset(fields, |fields|) <= 8 * |before|
    ensures Offset(fields, i + 1) == p + f.nbits <= 8 * |before|
    ensures PutOnto(before, fields, i + 1) == PutField(PutOnto(before, fields, i), p, f)
  {
    hide PutField;
    NextOffset(fields, i);
  }

  // The bytes of a field at bit `r` of byte `pos` were written, no others.
  ghost predicate PieceWritten(whole: seq<Byte>, after: seq<Byte>, pos: nat, r: nat, f: Field) {
    var stop := pos + NBytes(r + f.nbits);
    && stop <= |whole| == |after| && after[..pos] == whole[..pos] && after[stop..] == whole[stop..]
    && BitsOf(after[pos..stop]) == Deparsed(BitsOf(whole[pos..stop]), BitsOf(f.bytes), f.nbits, r)
  }

  // A write to the bytes of one field is a write to the bits of the header.
  lemma {:induction false} DeparsedPiece(
    whole: seq<Byte>, after: seq<Byte>, at: nat, end: nat, pos: nat, r: nat, f: Field)
    requires at <= pos && end <= |whole| == |after| && Sized(f) && r < 8
    requires 8 * (pos - at) + r + f.nbits <= 8 * (end - at) && PieceWritten(whole, after, pos, r, f)
    ensures BitsOf(after[at..end]) == PutField(BitsOf(whole[at..end]), 8 * (pos - at) + r, f)
    ensures after[..at] == whole[..at] && after[end..] == whole[end..]
  {
    hide Deparsed, BitsOf, NBytes, PutField;
    var stop := pos + NBytes(r + f.nbits);
    StopInside(at, end, pos, r, f.nbits);
    PutFieldPieces(BitsOf(whole[at..end]), pos - at, r, f, 8 * (stop - at));
    PieceKept(whole, after, at, end, pos, stop);
    PieceBits(whole, at, end, pos, stop);
    SplitBits(after, at, pos, stop, end);
  }

  lemma {:induction false} PutFieldPieces(buf: seq<bool>, q: nat, r: nat, f: Field, y: nat)
    requires Sized(f) && |buf| % 8 == 0 && r < 8 && 8 * q + r + f.nbits <= |buf|
    requires y == 8 * q + 8 * NBytes(r + f.nbits) <= |buf|
    ensures PutField(buf, 8 * q + r, f) ==
            buf[..8 * q] + Deparsed(buf[8 * q..y], BitsOf(f.bytes), f.nbits, r) + buf[y..]
  {
    hide Deparsed, BitsOf, NBytes;
    InByte(q, r);
  }

  lemma {:induction false} InByte(q: nat, r: nat)
    requires r < 8
    ensures (8 * q + r) / 8 == q && (8 * q + r) % 8 == r
  {}

  lemma {:induction false} SizedBytes(f: Field)
    requires Sized(f)
    ensures |f.bytes| == NBytes(f.nbits)
  {}

  lemma {:induction false} StopInside(at: nat, end: nat, pos: nat, r: nat, w: nat)
    requires at <= pos && r < 8 && 8 * (pos - at) + r + w <= 8 * (end - at)
    ensures pos <= pos + NBytes(r + w) <= end
  {}

  lemma {:induction false} PieceKept(whole: seq<Byte>, after: seq<Byte>, at: nat, end: nat, pos: nat, stop: nat)
    requires at <= pos <= stop <= end <= |whole| == |after|
    requires after[..pos] == whole[..pos] && after[stop..] == whole[stop..]
    ensures after[at..pos] == whole[at..pos] && after[stop..end] == whole[stop..end]
    ensures after[..at] == whole[..at] && after[end..] == whole[end..]
  {
    Agree(after, whole, pos, at);
    assert after[stop..end] == after[stop..][..end - stop] && whole[stop..end] == whole[stop..][..end - stop];
    assert after[..at] == after[..pos][..at] && whole[..at] == whole[..pos][..at];
    assert after[end..] == after[stop..][end - stop..] && whole[end..] == whole[stop..][end - stop..];
  }

  lemma {:induction false} PieceBits(whole: seq<Byte>, at: nat, end: nat, pos: nat, stop: nat)
    requires at <= pos <= stop <= end <= |whole|
    ensures
      var (bits, x, y) := (BitsOf(whole[at..end]), 8 * (pos - at), 8 * (stop - at));
      bits[..x] == BitsOf(whole[at..pos]) && bits[x..y] == BitsOf(whole[pos..stop]) &&
        bits[y..] == BitsOf(whole[stop..end])
  {
    hide BitsOf;
    SplitBits(whole, at, pos, stop, end);
  }

  lemma {:induction false} Agree(x: seq<Byte>, y: seq<Byte>, n: nat, a: nat)
    requires a <= n <= |x| && n <= |y| && x[..n] == y[..n]
    ensures x[a..n] == y[a..n]
  {
    assert x[a..n] == x[..n][a..] && y[a..n] == y[..n][a..];
  }

  lemma {:induction false} SplitBits(s: seq<Byte>, a: nat, b: nat, c: nat, d: nat)
    requires a <= b <= c <= d <= |s|
    ensures BitsOf(s[a..d]) == BitsOf(s[a..b]) + BitsOf(s[b..c]) + BitsOf(s[c..d])
  {
    assert s[a..d] == s[a..b] + s[b..c] + s[c..d];
  }

  /** Field::extract. */
  method ExtractField(data: seq<Byte>, hdrOffset: nat, nbits: nat) returns (f: Field)
    requires hdrOffset < 8 && hdrOffset + nbits <= 8 * |data| && (nbits > 0 || hdrOffset == 0)
    ensures f.nbits == nbits && Sized(f) && BitsOf(f.bytes) == Extracted(BitsOf(data), hdrOffset, nbits)
  {
    var dst := new Byte[NBytes(nbits)](_ => Zeros(8));
    GenericExtract(data, hdrOffset, nbits, dst);
    f := Field(nbits, dst[..]);
  }

  /** Extracting a header and deparsing it onto any buffer gives the packet back. */
  method ExtractThenDeparse(h: Header, data: seq<Byte>, dst: array<Byte>)
    requires h.Valid() && h.nbytesPacket <= |data| && h.nbytesPacket <= dst.Length
    modifies h, dst
    ensures h.nbytesPacket == old(h.nbytesPacket) <= dst.Length
    ensures dst[..h.nbytesPacket] == data[..h.nbytesPacket]
    ensures dst[h.nbytesPacket..] == old(dst[h.nbytesPacket..])
  {
    hide BitsOf, ExtractedFrom, DeparsedOnto, Readable, Offset;
    h.Extract(data);
    ghost var (before, n) := (dst[..], h.nbytesPacket);
    h.Deparse(dst, 0);
    HeaderRoundTrip(data, before[0..n], dst[..][0..n], h.fields);
    assert dst[..n] == dst[..][0..n];
    assert dst[n..] == dst[..][n..] && before[n..] == old(dst[n..]);
  }

  // ----- BufBuilder ---------------------------------------------------------

  datatype Entry = FieldEntry(valid: bool, field: Field) | ConstantEntry(field: Field)
                 | HeaderEntry(valid: bool, fields: seq<Field>)

  ghost predicate GoodField(f: Field) {
    f.nbits > 0 && Sized(f)
  }

  ghost predicate GoodEntry(e: Entry) {
    match e
    case HeaderEntry(_, fields) => Readable(fields) && Offset(fields, |fields|) % 8 == 0
    case _ => GoodField(e.field)
  }

  /** `bits` and room for w more, in whole bytes. */
  function Room(bits: seq<bool>, w: nat): (r: seq<bool>)
    ensures |bits| + w <= |r| == 8 * NBytes(|bits| + w)
  {
    bits + Zeros(8 * NBytes(|bits| + w) - |bits|)
  }

  /** What a field makes of the bits so far: its value follows them, and stray bits of
      its padding are or-ed onto them. */
  function WithField(bits: seq<bool>, f: Field): (r: seq<bool>)
    requires Sized(f)
    ensures |r| == |bits| + f.nbits
  {
    PutField(Room(bits, f.nbits), |bits|, f)[..|bits| + f.nbits]
  }

  function HeaderBits(fields: seq<Field>): (r: seq<bool>)
    requires AllSized(fields) && Offset(fields, |fields|) % 8 == 0
    ensures |r| == Offset(fields, |fields|)
  {
    PutFields(Zeros(Offset(fields, |fields|)), fields, |fields|)
  }

  /** What an entry makes of the bits so far: nothing if its header is not valid. */
  function WithEntry(bits: seq<bool>, e: Entry): seq<bool>
    requires GoodEntry(e)
  {
    match e
    case FieldEntry(valid, f) => if valid then WithField(bits, f) else bits
    case ConstantEntry(f) => WithField(bits, f)
    case HeaderEntry(valid, fields) => if valid then bits + HeaderBits(fields) else bits
  }

  function AllBits(entries: seq<Entry>, k: nat): seq<bool>
    requires k <= |entries| && forall i :: 0 <= i < |entries| ==> GoodEntry(entries[i])
  {
    if k == 0 then [] else WithEntry(AllBits(entries, k - 1), entries[k - 1])
  }

  /** The value of a field follows the bits so far, and they stay, if and only if its
      padding agrees with them. */
  lemma {:induction false} WithFieldExact(bits: seq<bool>, f: Field)
    requires Sized(f)
    ensures WithField(bits, f) == bits + ValueBits(f) <==> PaddingAgrees(Room(bits, f.nbits), |bits|, f)
    ensures forall j :: 0 <= j < |bits| ==> WithField(bits, f)[j] == (bits[j] || Stray(f, |bits|, j))
    ensures WithField(bits, f)[|bits|..] == ValueBits(f)
  {
    hide BitsOf, PutField, ValueBits, PaddingAgrees, Stray, NBytes, WithField;
    WithFieldIff(bits, f);
    forall j: nat | j < |bits| + f.nbits
      ensures WithField(bits, f)[j] == if j < |bits| then bits[j] || Stray(f, |bits|, j) else ValueBits(f)[j - |bits|]
    {
      WithFieldAt(bits, f, j);
    }
  }

  lemma {:induction false} WithFieldIff(bits: seq<bool>, f: Field)
    requires Sized(f)
    ensures WithField(bits, f) == bits + ValueBits(f) <==> PaddingAgrees(Room(bits, f.nbits), |bits|, f)
  {
    hide BitsOf, PutField, ValueBits, PaddingAgrees, NBytes;
    var room := Room(bits, f.nbits);
    PutFieldExact(room, |bits|, f);
    assert room[..|bits|] == bits;
  }

  lemma {:induction false} WithFieldAt(bits: seq<bool>, f: Field, j: nat)
    requires Sized(f) && j < |bits| + f.nbits
    ensures WithField(bits, f)[j] == if j < |bits| then bits[j] || Stray(f, |bits|, j) else ValueBits(f)[j - |bits|]
  {
    hide BitsOf, PutField, ValueBits, Stray, NBytes;
    PutFieldAt(Room(bits, f.nbits), |bits|, f, j);
  }

  // Zero-padded entries, as constants and computed fields are.
  ghost predicate Clean(e: Entry)
    requires GoodEntry(e)
  {
    match e
    case HeaderEntry(_, fields) => forall i :: 0 <= i < |fields| ==> ZeroPadded(fields[i])
    case _ => ZeroPadded(e.field)
  }

  function EntryBits(e: Entry): seq<bool>
    requires GoodEntry(e)
  {
    match e
    case FieldEntry(valid, f) => if valid then ValueBits(f) else []
    case ConstantEntry(f) => ValueBits(f)
    case HeaderEntry(valid, fields) => if valid then Concat(fields, |fields|) else []
  }

  /** Zero-padded entries are concatenated. */
  lemma {:induction false} CleanEntry(bits: seq<bool>, e: Entry)
    requires GoodEntry(e) && Clean(e)
    ensures WithEntry(bits, e) == bits + EntryBits(e)
  {
    hide BitsOf, PutField, ValueBits, PaddingAgrees, ZeroPadded, WithField, Concat, PutFields;
    match e
    case HeaderEntry(_, fields) =>
      DeparseConcat(Zeros(Offset(fields, |fields|)), fields, |fields|);
      assert HeaderBits(fields)[..Offset(fields, |fields|)] == HeaderBits(fields);
      assert bits + [] == bits;
    case _ =>
      ZeroPaddingAgrees(Room(bits, e.field.nbits), |bits|, e.field);
      WithFieldExact(bits, e.field);
      assert bits + [] == bits;
  }

  function Appended(entries: seq<Entry>, k: nat): seq<bool>
    requires k <= |entries| && forall i :: 0 <= i < |entries| ==> GoodEntry(entries[i])
  {
    if k == 0 then [] else Appended(entries, k - 1) + EntryBits(entries[k - 1])
  }

  /** So a list of zero-padded entries gives the concatenation of their values. */
  lemma {:induction false} CleanEntries(entries: seq<Entry>, k: nat)
    requires k <= |entries| && forall i :: 0 <= i < |entries| ==> GoodEntry(entries[i]) && Clean(entries[i])
    ensures AllBits(entries, k) == Appended(entries, k)
  {
    hide WithEntry, EntryBits, GoodEntry, Clean;
    if k > 0 {
      CleanEntries(entries, k - 1);
      CleanEntry(AllBits(entries, k - 1), entries[k - 1]);
    }
  }

  /** An extracted header gives the packet's bits, stray padding or not. */
  lemma {:induction false} ExtractedHeaderBits(src: seq<bool>, fields: seq<Field>)
    requires AllSized(fields) && Offset(fields, |fields|) % 8 == 0 && Offset(fields, |fields|) <= |src|
    requires ExtractedFrom(src, fields, |fields|)
    ensures HeaderBits(fields) == src[..Offset(fields, |fields|)]
  {
    hide ExtractedFrom, PutFields, Offset;
    RoundTrip(src, Zeros(Offset(fields, |fields|)), fields, |fields|);
    assert HeaderBits(fields)[..Offset(fields, |fields|)] == HeaderBits(fields);
  }

  /** The buffer holds `bits`, completed with zeros to a whole byte. */
  ghost predicate HoldsBits(buf: seq<Byte>, bits: seq<bool>) {
    |buf| == NBytes(|bits|) && BitsOf(buf) == bits + Zeros(Pad(|bits|))
  }

  class BufBuilder {
    var buf: seq<Byte>
    var nbits: nat

    constructor ()
      ensures buf == [] && nbits == 0
    {
      buf, nbits := [], 0;
    }

    /** extend, and the deparsing of one field into the new space. */
    method PushField(f: Field, ghost bits: seq<bool>)
      requires GoodField(f) && nbits == |bits| && HoldsBits(buf, bits)
      modifies this
      ensures nbits == |WithField(bits, f)| && HoldsBits(buf, WithField(bits, f))
    {
      hide BitsOf, PutField, HoldsBits;
      var (offset, pos) := (nbits % 8, nbits / 8);
      ExtendBits(buf, bits, f.nbits);
      var dst := Extended(buf, NBytes(nbits + f.nbits));
      ghost var before := dst[..];
      nbits := nbits + f.nbits;
      DeparseField(f, dst, pos, offset, 0, dst.Length);
      FieldPushed(before, dst[..], bits, f);
      buf := dst[..];
    }

    method PushHeader(fields: seq<Field>, ghost bits: seq<bool>)
      requires GoodEntry(HeaderEntry(true, fields)) && nbits == |bits| && nbits % 8 == 0 && HoldsBits(buf, bits)
      modifies this
      ensures nbits == |bits + HeaderBits(fields)| && HoldsBits(buf, bits + HeaderBits(fields))
    {
      hide BitsOf, PutFields, HoldsBits, Readable, Offset, AllSized, GoodEntry, DeparsedOnto, HeaderBits;
      HeaderGood(fields);
      var size := Offset(fields, |fields|);
      ExtendBits(buf, bits, size);
      var dst := Extended(buf, NBytes(nbits + size));
      ghost var before := dst[..];
      var pos := nbits / 8;
      nbits := nbits + size;
      DeparseAll(fields, size / 8, dst, pos);
      HeaderPushed(before, dst[..], bits, fields);
      buf := dst[..];
    }

    method PushEntry(e: Entry, ghost bits: seq<bool>)
      requires GoodEntry(e) && nbits == |bits| && HoldsBits(buf, bits)
      requires e.HeaderEntry? ==> nbits % 8 == 0
      modifies this
      ensures nbits == |WithEntry(bits, e)| && HoldsBits(buf, WithEntry(bits, e))
    {
      hide HoldsBits, WithField, HeaderBits, GoodField;
      GoodCases(e);
      match e {
        case FieldEntry(valid, f) => if valid { PushField(f, bits); }
        case ConstantEntry(f) => PushField(f, bits);
        case HeaderEntry(valid, fields) => if valid { PushHeader(fields, bits); }
      }
    }

    /** BufBuilder::operator(): the bits of all entries, zeros up to a byte boundary,
        and the payload if there is one. CleanEntry says when entries are simply
        concatenated, WithFieldExact what becomes of stray padding. */
    method Build(entries: seq<Entry>, payload: seq<Byte>)
      requires forall i :: 0 <= i < |entries| ==> GoodEntry(entries[i])
      requires forall i :: 0 <= i < |entries| && entries[i].HeaderEntry? ==> |AllBits(entries, i)| % 8 == 0
      modifies this
      ensures
        var bits := AllBits(entries, |entries|);
        BitsOf(buf) == bits + Zeros(Pad(|bits|)) + BitsOf(payload)
    {
      hide GoodEntry, BitsOf, AllBits, HoldsBits, WithEntry;
      buf, nbits := [], 0;
      NoBits();
      AllBitsStep(entries, 0);
      for i := 0 to |entries|
        invariant nbits == |AllBits(entries, i)| && HoldsBits(buf, AllBits(entries, i))
      {
        AllBitsStep(entries, i + 1);
        PushEntry(entries[i], AllBits(entries, i));
      }
      HeldBits(buf, AllBits(entries, |entries|));
      AppendBits(buf, payload);
      buf := buf + payload;
    }
  }

  /** resize with zero bytes. */
  method Extended(buf: seq<Byte>, n: nat) returns (dst: array<Byte>)
    requires |buf| <= n
    ensures fresh(dst) && dst[..] == buf + seq(n - |buf|, _ => Zeros(8))
  {
    var zero: Byte := Zeros(8);
    dst := new Byte[n](i requires 0 <= i < n => if i < |buf| then buf[i] else zero);
  }

  lemma {:induction false} GoodCases(e: Entry)
    requires GoodEntry(e)
    ensures e.FieldEntry? || e.ConstantEntry? ==> GoodField(e.field)
    ensures e.HeaderEntry? ==> GoodEntry(HeaderEntry(true, e.fields))
  {}

  lemma {:induction false} AllBitsStep(entries: seq<Entry>, k: nat)
    requires k <= |entries| && forall i :: 0 <= i < |entries| ==> GoodEntry(entries[i])
    ensures AllBits(entries, k) == if k == 0 then [] else WithEntry(AllBits(entries, k - 1), entries[k - 1])
  {
    hide GoodEntry, WithEntry;
  }

  lemma {:induction false} HeldBits(buf: seq<Byte>, bits: seq<bool>)
    requires HoldsBits(buf, bits)
    ensures BitsOf(buf) == bits + Zeros(Pad(|bits|))
  {}

  lemma {:induction false} NoBits()
    ensures HoldsBits([], [])
  {
    assert BitsOf([]) == [];
  }

  lemma {:induction false} AppendBits(x: seq<Byte>, y: seq<Byte>)
    ensures BitsOf(x + y) == BitsOf(x) + BitsOf(y)
  {}

  lemma {:induction false} ExtendBits(buf: seq<Byte>, bits: seq<bool>, w: nat)
    requires HoldsBits(buf, bits)
    ensures |buf| <= NBytes(|bits| + w)
    ensures
      var n := NBytes(|bits| + w);
      BitsOf(buf + seq(n - |buf|, _ => Zeros(8))) == bits + Zeros(8 * n - |bits|)
  {}

  /** Bits after a field that were clear stay clear. */
  lemma {:induction false} PutFieldTail(buf: seq<bool>, p: nat, f: Field)
    requires Sized(f) && |buf| % 8 == 0 && p + f.nbits <= |buf|
    requires forall j :: p <= j < |buf| ==> !buf[j]
    ensures forall j :: p + f.nbits <= j < |buf| ==> !PutField(buf, p, f)[j]
  {
    hide BitsOf, PutField;
    forall j | p + f.nbits <= j < |buf| ensures !PutField(buf, p, f)[j] {
      PutFieldAfter(buf, p, f, j);
    }
  }

  lemma {:induction false} PutFieldAfter(buf: seq<bool>, p: nat, f: Field, j: nat)
    requires Sized(f) && |buf| % 8 == 0 && p + f.nbits <= j < |buf| && !buf[j]
    ensures !PutField(buf, p, f)[j]
  {
    hide BitsOf, DeparsedBit, NBytes, PutField;
    SizedBytes(f);
    EndInside(|buf|, p, f.nbits);
    var (q, r) := (p / 8, p % 8);
    var end := 8 * q + 8 * NBytes(r + f.nbits);
    PutFieldPieces(buf, q, r, f, end);
    if j < end { AfterField(buf[8 * q..end], BitsOf(f.bytes), f.nbits, r, j - 8 * q); }
  }

  lemma {:induction false} AfterField(old_: seq<bool>, field: seq<bool>, w: nat, offset: nat, j: nat)
    requires |field| == 8 * NBytes(w) && offset + w <= j < |old_| && !old_[j]
    ensures !DeparsedBit(old_, field, w, offset, j)
  {}

  lemma {:induction false} FieldPushed(before: seq<Byte>, after: seq<Byte>, bits: seq<bool>, f: Field)
    requires GoodField(f) && |before| == NBytes(|bits| + f.nbits)
    requires BitsOf(before) == bits + Zeros(8 * |before| - |bits|)
    requires BitsOf(after[0..|after|]) == PutField(BitsOf(before[0..|before|]), |bits|, f)
    ensures HoldsBits(after, WithField(bits, f))
  {
    hide BitsOf, PutField;
    assert before[0..|before|] == before && after[0..|after|] == after;
    var (b, p) := (BitsOf(before), |bits|);
    assert b == Room(bits, f.nbits);
    PutFieldTail(b, p, f);
    var r := PutField(b, p, f);
    assert r == r[..p + f.nbits] + r[p + f.nbits..];
    assert r[p + f.nbits..] == Zeros(Pad(p + f.nbits));
  }

  lemma {:induction false} HeaderGood(fields: seq<Field>)
    requires GoodEntry(HeaderEntry(true, fields))
    ensures Readable(fields) && AllSized(fields) && Offset(fields, |fields|) % 8 == 0
  {
    hide Offset;
  }

  lemma {:induction false} HeaderPushed(before: seq<Byte>, after: seq<Byte>, bits: seq<bool>, fields: seq<Field>)
    requires |bits| % 8 == 0 && GoodEntry(HeaderEntry(true, fields)) && |before| == |after|
    requires 8 * |before| == |bits| + Offset(fields, |fields|)
    requires BitsOf(before) == bits + Zeros(8 * |before| - |bits|)
    requires after[..|bits| / 8] == before[..|bits| / 8]
    requires DeparsedOnto(before[|bits| / 8..|before|], fields, after[|bits| / 8..|before|])
    ensures HoldsBits(after, bits + HeaderBits(fields))
  {
    hide BitsOf, Offset, GoodEntry, PutFields;
    var at := |bits| / 8;
    TwoPieces(after, at);
    TwoPieces(before, at);
    assert BitsOf(before[..at]) == bits by { assert BitsOf(before)[..|bits|] == bits; }
    assert after[at..|before|] == after[at..] && before[at..|before|] == before[at..];
    assert BitsOf(before[at..]) == Zeros(Offset(fields, |fields|)) by {
      assert BitsOf(before)[|bits|..] == Zeros(8 * |before| - |bits|);
    }
    assert bits + HeaderBits(fields) + Zeros(0) == bits + HeaderBits(fields);
  }

  lemma {:induction false} TwoPieces(s: seq<Byte>, at: nat)
    requires at <= |s|
    ensures BitsOf(s) == BitsOf(s[..at]) + BitsOf(s[at..])
  {
    AppendBits(s[..at], s[at..]);
    assert s == s[..at] + s[at..];
  }
}
