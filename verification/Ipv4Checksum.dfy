/** The IPv4 header checksum: IPv4Checksum::update_ and verify_ of checksums.cpp,
    on the header and deparsing model of `Headers` and the wide sum of `Checksum`. */
module Ipv4Checksum {
  import opened Bits
  import opened Extract
  import opened Headers
  import Checksum

  // ----- the bytes of a header ----------------------------------------------

  function BytesOf(bits: seq<bool>): (r: seq<Byte>)
    requires |bits| % 8 == 0
    ensures |r| == |bits| / 8 && BitsOf(r) == bits
  {
    var r: seq<Byte> := seq(|bits| / 8, i requires 0 <= i < |bits| / 8 => bits[8 * i..8 * i + 8]);
    assert forall k :: 0 <= k < |bits| ==> r[k / 8][k % 8] == bits[k];
    r
  }

  ghost predicate Packed(fields: seq<Field>) {
    Readable(fields) && Offset(fields, |fields|) % 8 == 0
  }

  function ZeroBits(fields: seq<Field>): seq<bool> {
    Zeros(Offset(fields, |fields|))
  }

  /** What a header deparses to. */
  function HeaderBytes(fields: seq<Field>): (r: seq<Byte>)
    requires Packed(fields)
    ensures 8 * |r| == Offset(fields, |fields|)
  {
    BytesOf(PutFields(ZeroBits(fields), fields, |fields|))
  }

  /** All bits of a deparsed header come from its fields. */
  lemma {:induction false} BufferIrrelevant(x: seq<bool>, y: seq<bool>, fields: seq<Field>, k: nat)
    requires k <= |fields| && AllSized(fields) && |x| == |y| && |x| % 8 == 0 && Offset(fields, k) <= |x|
    ensures PutFields(x, fields, k)[..Offset(fields, k)] == PutFields(y, fields, k)[..Offset(fields, k)]
  {
    hide PutField;
    if k > 0 {
      var (p, f) := (Offset(fields, k - 1), fields[k - 1]);
      BufferIrrelevant(x, y, fields, k - 1);
      PutFieldDepends(PutFields(x, fields, k - 1), PutFields(y, fields, k - 1), p, f);
    }
  }

  lemma {:induction false} PutFieldDepends(x: seq<bool>, y: seq<bool>, p: nat, f: Field)
    requires Sized(f) && |x| == |y| && |x| % 8 == 0 && p + f.nbits <= |x| && x[..p] == y[..p]
    ensures PutField(x, p, f)[..p + f.nbits] == PutField(y, p, f)[..p + f.nbits]
  {
    hide BitsOf, PutField, Stray, ValueBits;
    forall j: nat | j < p + f.nbits ensures PutField(x, p, f)[j] == PutField(y, p, f)[j] {
      PutFieldAt(x, p, f, j);
      PutFieldAt(y, p, f, j);
      assert j < p ==> x[j] == x[..p][j] && y[j] == y[..p][j];
    }
  }

  /** Deparsing onto any buffer gives the header's bytes. */
  lemma {:induction false} DeparsesToHeaderBytes(before: seq<Byte>, fields: seq<Field>, after: seq<Byte>)
    requires Packed(fields) && DeparsedOnto(before, fields, after)
    ensures after == HeaderBytes(fields)
  {
    hide BitsOf, Offset, PutFields, BytesOf;
    BufferIrrelevant(BitsOf(before), ZeroBits(fields), fields, |fields|);
    var n := Offset(fields, |fields|);
    assert BitsOf(after)[..n] == BitsOf(after);
    assert PutFields(ZeroBits(fields), fields, |fields|)[..n] == PutFields(ZeroBits(fields), fields, |fields|);
    BitsInjective(after, HeaderBytes(fields));
  }

  // ----- replacing the checksum field ---------------------------------------

  /** Field `k` takes bytes 10 and 11 of the header. */
  ghost predicate AtChecksum(fields: seq<Field>, k: nat) {
    Packed(fields) && k < |fields| && Offset(fields, k) == 80 && fields[k].nbits == 16
  }

  lemma {:induction false} PutAligned(buf: seq<bool>, f: Field)
    requires Sized(f) && f.nbits == 16 && |buf| % 8 == 0 && 96 <= |buf|
    ensures PutField(buf, 80, f) == buf[..80] + BitsOf(f.bytes) + buf[96..]
  {
    hide BitsOf;
    assert Deparsed(buf[80..96], BitsOf(f.bytes), 16, 0) == BitsOf(f.bytes);
  }

  /** A field at bit 96 or later leaves the first 96 bits alone and does not read them. */
  lemma {:induction false} PutAfter(x: seq<bool>, y: seq<bool>, p: nat, f: Field)
    requires Sized(f) && |x| == |y| && |x| % 8 == 0 && p >= 96 && p + f.nbits <= |x| && x[96..] == y[96..]
    ensures PutField(x, p, f)[..96] == x[..96]
    ensures PutField(x, p, f)[96..] == PutField(y, p, f)[96..]
  {
    hide BitsOf, Deparsed, PutField, NBytes;
    var (start, end) := (8 * (p / 8), 8 * (p / 8) + 8 * NBytes(p % 8 + f.nbits));
    EndInside(|x|, p, f.nbits);
    PutFieldPieces(x, p / 8, p % 8, f, end);
    PutFieldPieces(y, p / 8, p % 8, f, end);
    Drop(x, y, start, end);
    SpliceAfter(x, y, Deparsed(x[start..end], BitsOf(f.bytes), f.nbits, p % 8), start, end);
  }

  lemma {:induction false} Drop(x: seq<bool>, y: seq<bool>, start: nat, end: nat)
    requires 96 <= start <= end <= |x| == |y| && x[96..] == y[96..]
    ensures x[start..end] == y[start..end]
  {
    forall i | start <= i < end ensures x[i] == y[i] {
      assert x[i] == x[96..][i - 96] && y[i] == y[96..][i - 96];
    }
  }

  lemma {:induction false} SpliceAfter(x: seq<bool>, y: seq<bool>, d: seq<bool>, start: nat, end: nat)
    requires 96 <= start <= end <= |x| == |y| && x[96..] == y[96..] && |d| == end - start
    ensures (x[..start] + d + x[end..])[..96] == x[..96]
    ensures (x[..start] + d + x[end..])[96..] == (y[..start] + d + y[end..])[96..]
  {
    Drop(x, y, 96, start);
    Drop(x, y, end, |x|);
    assert (x[..start] + d + x[end..])[96..] == x[96..start] + d + x[end..|x|];
    assert (y[..start] + d + y[end..])[96..] == y[96..start] + d + y[end..|y|];
  }

  /** The two headers differ in bytes 10 and 11 only. */
  lemma {:induction false} ReplacedBits(buf: seq<bool>, fields: seq<Field>, k: nat, g: Field, i: nat)
    requires AtChecksum(fields, k) && Sized(g) && g.nbits == 16 && k < i <= |fields|
    requires |buf| == Offset(fields, |fields|) && AllSized(fields[k := g])
    requires Offset(fields[k := g], i) == Offset(fields, i) <= |buf|
    ensures 96 <= |buf|
    ensures
      var (x, y) := (PutFields(buf, fields, i), PutFields(buf, fields[k := g], i));
      y == x[..80] + BitsOf(g.bytes) + x[96..]
  {
    hide PutField, BitsOf, PutFields, Offset, Packed;
    var gs := fields[k := g];
    PackedSized(fields);
    NextOffset(fields, k);
    OffsetMonotone(fields, k + 1, |fields|);
    SameOffsets(fields, gs, i - 1);
    OffsetMonotone(fields, i - 1, |fields|);
    PutFieldsStep(buf, fields, i);
    PutFieldsStep(buf, gs, i);
    var (x, y) := (PutFields(buf, fields, i - 1), PutFields(buf, gs, i - 1));
    if i == k + 1 {
      SamePrefixes(buf, fields, gs, k);
      PutAligned(x, fields[k]);
      PutAligned(y, g);
    } else {
      OffsetMonotone(fields, k + 1, i - 1);
      ReplacedBits(buf, fields, k, g, i - 1);
      ReplacedStep(x, y, Offset(fields, i - 1), fields[i - 1], BitsOf(g.bytes));
    }
  }

  lemma {:induction false} PackedSized(fields: seq<Field>)
    requires Packed(fields)
    ensures AllSized(fields) && Offset(fields, |fields|) % 8 == 0
  {
    hide Offset;
  }

  lemma {:induction false} PutFieldsStep(buf: seq<bool>, fields: seq<Field>, i: nat)
    requires 0 < i <= |fields| && AllSized(fields) && |buf| % 8 == 0 && Offset(fields, i) <= |buf|
    ensures Offset(fields, i - 1) + fields[i - 1].nbits == Offset(fields, i)
    ensures PutFields(buf, fields, i) == PutField(PutFields(buf, fields, i - 1), Offset(fields, i - 1), fields[i - 1])
  {
    hide PutField;
  }

  lemma {:induction false} ReplacedStep(x: seq<bool>, y: seq<bool>, p: nat, f: Field, mid: seq<bool>)
    requires Sized(f) && |x| == |y| && |x| % 8 == 0 && p >= 96 && p + f.nbits <= |x| && |mid| == 16
    requires y == x[..80] + mid + x[96..]
    ensures PutField(y, p, f) == PutField(x, p, f)[..80] + mid + PutField(x, p, f)[96..]
  {
    hide PutField;
    PutAfter(x, y, p, f);
    PutAfter(y, x, p, f);
    var (x', y') := (PutField(x, p, f), PutField(y, p, f));
    assert y' == y'[..96] + y'[96..];
    assert y'[..96] == x[..80] + mid && x'[..80] == x'[..96][..80] && x[..96][..80] == x[..80];
  }

  lemma {:induction false} SamePrefixes(buf: seq<bool>, f: seq<Field>, g: seq<Field>, k: nat)
    requires k <= |f| && k <= |g| && AllSized(f) && AllSized(g) && f[..k] == g[..k] && |buf| % 8 == 0
    requires Offset(f, k) <= |buf| && Offset(g, k) <= |buf|
    ensures PutFields(buf, f, k) == PutFields(buf, g, k) && Offset(f, k) == Offset(g, k)
  {
    hide PutField;
    if k > 0 {
      assert f[k - 1] == f[..k][k - 1] && g[k - 1] == g[..k][k - 1];
      assert f[..k - 1] == f[..k][..k - 1] && g[..k - 1] == g[..k][..k - 1];
      SamePrefixes(buf, f, g, k - 1);
    }
  }

  lemma {:induction false} ReplacedPacked(fields: seq<Field>, k: nat, g: Field)
    requires AtChecksum(fields, k) && Sized(g) && g.nbits == 16
    ensures AtChecksum(fields[k := g], k) && Offset(fields[k := g], |fields|) == Offset(fields, |fields|) >= 96
  {
    hide Offset;
    var gs := fields[k := g];
    forall i | 0 <= i <= |fields| ensures Offset(fields, i) == Offset(gs, i) { SameOffsets(fields, gs, i); }
    NextOffset(fields, k);
  }

  lemma {:induction false} ReplacedBytes(fields: seq<Field>, k: nat, g: Field)
    requires AtChecksum(fields, k) && Sized(g) && g.nbits == 16
    ensures AtChecksum(fields[k := g], k) && |HeaderBytes(fields)| >= 12
    ensures HeaderBytes(fields[k := g]) == HeaderBytes(fields)[10 := g.bytes[0]][11 := g.bytes[1]]
  {
    hide Offset, PutFields, BytesOf;
    var gs := fields[k := g];
    ReplacedPacked(fields, k, g);
    var zeros := ZeroBits(fields);
    ReplacedBits(zeros, fields, k, g, |fields|);
    var h := HeaderBytes(fields);
    SpliceBytes(h, g.bytes);
    BitsInjective(HeaderBytes(gs), h[10 := g.bytes[0]][11 := g.bytes[1]]);
  }

  lemma {:induction false} SpliceBytes(h: seq<Byte>, two: seq<Byte>)
    requires |h| >= 12 && |two| == 2
    ensures BitsOf(h[10 := two[0]][11 := two[1]]) == BitsOf(h)[..80] + BitsOf(two) + BitsOf(h)[96..]
  {}

  // ----- update and verify --------------------------------------------------

  function Nats(bytes: seq<Byte>): (r: seq<Checksum.U8>)
    ensures |r| == |bytes|
    ensures forall i :: 0 <= i < |r| ==> r[i] == Nat(bytes[i])
  {
    seq(|bytes|, i requires 0 <= i < |bytes| => ByteValue(bytes[i]))
  }

  function ByteValue(b: Byte): Checksum.U8 {
    ByteRange(b);
    Nat(b)
  }

  /** Bytes 10 and 11 are cleared, as far as the header goes. */
  function Blanked(bytes: seq<Byte>): (r: seq<Byte>)
    ensures |r| == |bytes|
    ensures forall i :: 0 <= i < |r| ==> r[i] == if i == 10 || i == 11 then Zeros(8) else bytes[i]
  {
    var zero: Byte := Zeros(8);
    seq(|bytes|, i requires 0 <= i < |bytes| => if i == 10 || i == 11 then zero else bytes[i])
  }

  /** The checksum field of a header, in network order, by RFC 1071. */
  function ChecksumField(bytes: seq<Byte>): (f: Field)
    ensures Sized(f) && f.nbits == 16
  {
    var c := Checksum.RfcChecksum(Nats(Blanked(bytes)));
    Field(16, [ByteOf(c / 256), ByteOf(c % 256)])
  }

  /** The two bytes are the checksum of the header with these fields. */
  ghost predicate HasChecksum(fields: seq<Field>, bytes: seq<Byte>) {
    Packed(fields) && bytes == ChecksumField(HeaderBytes(fields)).bytes
  }

  lemma {:induction false} PackedHeader(fields: seq<Field>, n: nat)
    requires Readable(fields) && Offset(fields, |fields|) == 8 * n
    ensures Packed(fields)
  {
    hide Offset, Readable;
  }

  method ComputeChecksum(h: Header) returns (bytes: seq<Byte>)
    requires h.Valid() && h.nbytesPacket <= 60
    ensures HasChecksum(h.fields, bytes)
  {
    hide BitsOf, Offset, HeaderBytes;
    PackedHeader(h.fields, h.nbytesPacket);
    var buffer := new Byte[60];
    ghost var before := buffer[..];
    h.Deparse(buffer, 0);
    var n := h.nbytesPacket;
    DeparsesToHeaderBytes(before[0..n], h.fields, buffer[..][0..n]);
    assert buffer[..][0..n] == buffer[..n];
    ghost var bytes0 := HeaderBytes(h.fields);
    buffer[10] := Zeros(8);
    buffer[11] := Zeros(8);
    assert buffer[..n] == Blanked(bytes0);
    var cksum := Checksum.Cksum16(Nats(buffer[..n]));
    // the number as it lies in memory
    bytes := [ByteOf(cksum % 256), ByteOf(cksum / 256)];
    SwapBytes(cksum, Checksum.RfcChecksum(Nats(buffer[..n])));
  }

  lemma {:induction false} SwapBytes(x: int, y: int)
    requires 0 <= x <= 0xffff && Checksum.Swap(x) == y
    ensures y / 256 == x % 256 && y % 256 == x / 256
  {}

  /** IPv4Checksum::update_, for any field of two bytes. */
  method Update(h: Header, k: nat)
    requires h.Valid() && h.nbytesPacket <= 60 && k < |h.fields| && |h.fields[k].bytes| == 2
    modifies h`fields
    ensures h.Valid()
    ensures !h.valid ==> h.fields == old(h.fields)
    ensures h.valid ==>
              && |h.fields| == |old(h.fields)| && HasChecksum(old(h.fields), h.fields[k].bytes)
              && h.fields == old(h.fields)[k := old(h.fields)[k].(bytes := h.fields[k].bytes)]
  {
    hide Offset, Readable, HasChecksum;
    if !h.valid { return; }
    var bytes := ComputeChecksum(h);
    TwoBytes(h.fields, bytes);
    SameWidthsKeep(h.fields, k, bytes);
    h.fields := h.fields[k := h.fields[k].(bytes := bytes)];
  }

  lemma {:induction false} TwoBytes(fields: seq<Field>, bytes: seq<Byte>)
    requires HasChecksum(fields, bytes)
    ensures |bytes| == 2
  {
    hide HeaderBytes, Packed;
  }

  lemma {:induction false} SameWidthsKeep(fields: seq<Field>, k: nat, bytes: seq<Byte>)
    requires Readable(fields) && k < |fields| && |bytes| == |fields[k].bytes|
    ensures var gs := fields[k := fields[k].(bytes := bytes)];
            Readable(gs) && Offset(gs, |gs|) == Offset(fields, |fields|)
  {
    hide Offset;
    var gs := fields[k := fields[k].(bytes := bytes)];
    forall i | 0 <= i <= |fields| ensures Offset(fields, i) == Offset(gs, i) { SameOffsets(fields, gs, i); }
  }

  /** IPv4Checksum::verify_, which compares the first two bytes of the field. */
  method Verify(h: Header, k: nat) returns (ok: bool)
    requires h.Valid() && h.nbytesPacket <= 60 && k < |h.fields| && |h.fields[k].bytes| >= 2
    ensures ok <==> (h.valid ==> HasChecksum(h.fields, h.fields[k].bytes[..2]))
  {
    if !h.valid { return true; }
    hide HeaderBytes, Packed, Offset, Readable, ChecksumField;
    var bytes := ComputeChecksum(h);
    ok := bytes == h.fields[k].bytes[..2];
  }

  /** Verification succeeds after an update. */
  lemma {:induction false} UpdateVerifies(fields: seq<Field>, k: nat, bytes: seq<Byte>)
    requires AtChecksum(fields, k) && HasChecksum(fields, bytes)
    ensures HasChecksum(fields[k := fields[k].(bytes := bytes)], bytes)
  {
    hide BitsOf, Offset, HeaderBytes;
    ReplacedBytes(fields, k, fields[k]);
    var f := ChecksumField(HeaderBytes(fields));
    ReplacedBytes(fields, k, f);
    assert fields[k].(bytes := bytes) == f;
    assert Blanked(HeaderBytes(fields)[10 := f.bytes[0]][11 := f.bytes[1]]) == Blanked(HeaderBytes(fields));
  }

  // ----- the receiver's view ------------------------------------------------

  lemma {:induction false} WordSumSplit(a: seq<Checksum.U8>, b: seq<Checksum.U8>)
    requires |a| % 2 == 0
    ensures Checksum.WordSum(a + b) == Checksum.WordSum(a) + Checksum.WordSum(b)
    decreases |a|
  {
    if a == [] {
      assert a + b == b;
    } else {
      assert (a + b)[2..] == a[2..] + b && (a + b)[0] == a[0] && (a + b)[1] == a[1];
      WordSumSplit(a[2..], b);
    }
  }

  /** The one's-complement sum over a whole updated header is 0xffff, which is what
      a receiver checks by RFC 1071. */
  lemma {:induction false} ReceiverAccepts(bytes: seq<Byte>)
    requires |bytes| >= 12
    ensures
      var f := ChecksumField(bytes);
      Checksum.RfcSum(Nats(bytes[10 := f.bytes[0]][11 := f.bytes[1]])) == 0xffff
  {
    hide Checksum.WordSum, Checksum.RfcSum, Nats, ChecksumField, Checksum.StandsFor, Blanked;
    var (f, x) := (ChecksumField(bytes), Nats(Blanked(bytes)));
    var (c, y) := (Checksum.RfcChecksum(x), Nats(bytes[10 := f.bytes[0]][11 := f.bytes[1]]));
    ReceivedBytes(bytes);
    SumWith(x[..10], c / 256, c % 256, x[12..]);
    SumWith(x[..10], 0, 0, x[12..]);
    Checksum.RfcStandsFor(x);
    Checksum.RfcStandsFor(y);
    Complement(Checksum.RfcSum(x), Checksum.RfcSum(y), Checksum.WordSum(x), c);
  }

  // The received header differs from the blanked one in the checksum bytes only.
  lemma {:induction false} ReceivedBytes(bytes: seq<Byte>)
    requires |bytes| >= 12
    ensures
      var (f, x) := (ChecksumField(bytes), Nats(Blanked(bytes)));
      var (c, y) := (Checksum.RfcChecksum(x), Nats(bytes[10 := f.bytes[0]][11 := f.bytes[1]]));
      && |x| == |y| == |bytes| && x == x[..10] + [0, 0] + x[12..]
      && 0 <= c <= 0xffff && y == x[..10] + [c / 256, c % 256] + x[12..]
  {
    hide Checksum.WordSum, Checksum.RfcSum, Nat, ByteOf;
    Zero8();
    var (f, x) := (ChecksumField(bytes), Nats(Blanked(bytes)));
    var c := Checksum.RfcChecksum(x);
    assert Nat(f.bytes[0]) == c / 256 && Nat(f.bytes[1]) == c % 256;
    BlankedNats(bytes, f.bytes[0], f.bytes[1]);
  }

  lemma {:induction false} BlankedNats(bytes: seq<Byte>, h: Byte, l: Byte)
    requires |bytes| >= 12 && Nat(Zeros(8)) == 0
    ensures
      var (x, y) := (Nats(Blanked(bytes)), Nats(bytes[10 := h][11 := l]));
      && |x| == |y| == |bytes| && x == x[..10] + [0, 0] + x[12..]
      && y == x[..10] + [ByteValue(h), ByteValue(l)] + x[12..]
  {
    hide Nat;
    var (x, y) := (Nats(Blanked(bytes)), Nats(bytes[10 := h][11 := l]));
    assert forall i :: 0 <= i < |x| && i != 10 && i != 11 ==> x[i] == y[i];
    assert x[10] == 0 && x[11] == 0;
  }

  lemma {:induction false} Zero8()
    ensures Nat(Zeros(8)) == 0
  {
    NatZeros(8);
  }

  lemma {:induction false} SumWith(a: seq<Checksum.U8>, h: Checksum.U8, l: Checksum.U8, b: seq<Checksum.U8>)
    requires |a| % 2 == 0
    ensures Checksum.WordSum(a + [h, l] + b)
         == Checksum.WordSum(a) + Checksum.Le16(h, l) + Checksum.WordSum(b)
  {
    WordSumSplit(a + [h, l], b);
    WordSumSplit(a, [h, l]);
    assert [h, l][2..] == [];
  }

  lemma {:induction false} Complement(r: int, s: int, sum: int, c: int)
    requires 0 <= r <= 0xffff && 0 <= s <= 0xffff && c == 0xffff - r && sum >= 0
    requires Checksum.StandsFor(r, 256 * sum)
    requires Checksum.StandsFor(s, 256 * (sum + Checksum.Le16(c / 256, c % 256)))
    ensures s == 0xffff
  {
    var (h, l) := (c / 256, c % 256);
    assert 256 * Checksum.Le16(h, l) == c + 0xffff * l;
    var k := (256 * sum - r) / 0xffff;
    assert 256 * (sum + Checksum.Le16(h, l)) == 0xffff * (k + 1 + l);
    var m := (256 * (sum + Checksum.Le16(h, l)) - s) / 0xffff;
    assert s == 0xffff * (k + 1 + l - m);
  }
}
