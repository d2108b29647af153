/** What parameters say about the values of fields, and when a stored key means that.

    A field of n bits is kept right-aligned in whole bytes, the bits before it being
    its padding. Entries and packets are compared byte for byte, and the prefix length
    of an LPM parameter is counted from the first bit of the padding. */
module ValueMeaning {
  import opened Bits
  import opened MatchKeys
  import opened EntryLists
  import opened MatchParams
  import opened MatchConversion
  import opened MatchMeaning
  import Extract

  // ----- values and their padding -------------------------------------------

  /** Clearing the padding changes nothing. */
  predicate ZeroPadded(f: KeyF, y: seq<Byte>) {
    MaskFirst(y, f.nbits) == y
  }

  lemma {:induction false} MaskFirstBits(y: seq<Byte>, nbits: nat, k: nat)
    requires |y| == NBytes(nbits) && k < 8 * |y|
    ensures BitsOf(MaskFirst(y, nbits))[k] == (BitsOf(y)[k] && k >= Pad(nbits))
  {
    if k < 8 && nbits % 8 == 0 { OnesChangeNothing(y[0]); }
  }

  lemma {:induction false} PaddingCleared(f: KeyF, y: seq<Byte>)
    requires |y| == NBytes(f.nbits)
    ensures ZeroPadded(f, MaskFirst(y, f.nbits))
  {
    if y != [] { AndIdempotent(y[0], Byte0Mask(f.nbits), ONES); }
  }

  /** y agrees with d in the first p bits of the value. */
  ghost predicate ValueAgrees(f: KeyF, y: seq<Byte>, d: seq<Byte>, p: int)
    requires |y| == |d|
  {
    forall k :: Pad(f.nbits) <= k < Pad(f.nbits) + p && k < 8 * |y| ==> BitsOf(y)[k] == BitsOf(d)[k]
  }

  /** What a parameter says about the value in y, whatever its padding. */
  ghost predicate Satisfies(f: KeyF, p: Param, y: seq<Byte>)
    requires |y| == |p.key|
  {
    var (v, d) := (MaskFirst(y, f.nbits), MaskFirst(p.key, f.nbits));
    match p.mtype
    case VALID => v == d
    case EXACT => v == d
    case LPM => ValueAgrees(f, v, d, p.prefixLength)
    case TERNARY => |p.mask| == |y| && AgreesUnder(v, d, p.mask)
    case RANGE => |p.mask| == |y| && BigEndian(d) <= BigEndian(v) <= BigEndian(p.mask)
  }

  // ----- one field ----------------------------------------------------------

  /** The prefix does not fall into padding: the field has none, or the prefix is
      empty. */
  predicate WholePrefix(f: KeyF, p: Param) {
    p.mtype.LPM? ==> f.nbits % 8 == 0 || p.prefixLength == 0
  }

  ghost predicate MeansValue(f: KeyF, p: Param, y: seq<Byte>) {
    |y| == |p.key| && ZeroPadded(f, y) ==> (FieldMatches(f, p, y) <==> Satisfies(f, p, y))
  }

  lemma {:induction false} WholeMeans(f: KeyF, p: Param, y: seq<Byte>)
    requires SaneField(f, p) && WholePrefix(f, p)
    ensures MeansValue(f, p, y)
  {
    hide BitsOf, MaskFirst, BigEndian, AgreesUnder, ValueAgrees, PrefixAgrees, NBytes, Pad;
    if p.mtype.LPM? && |y| == |p.key| {
      WholeAgrees(f, MaskFirst(y, f.nbits), MaskFirst(p.key, f.nbits), p.prefixLength);
    }
  }

  lemma {:induction false} WholeAgrees(f: KeyF, y: seq<Byte>, d: seq<Byte>, p: nat)
    requires |y| == |d| && (f.nbits % 8 == 0 || p == 0)
    ensures ValueAgrees(f, y, d, p) <==> PrefixAgrees(y, d, p)
  {
    hide BitsOf;
    assert f.nbits % 8 == 0 ==> Pad(f.nbits) == 0;
  }

  /** Changing one bit. */
  function Flip(y: seq<Byte>, k: nat): (r: seq<Byte>)
    requires k < 8 * |y|
    ensures |r| == |y|
  {
    y[k / 8 := y[k / 8][k % 8 := !y[k / 8][k % 8]]]
  }

  lemma {:induction false} FlipBits(y: seq<Byte>, k: nat, j: nat)
    requires k < 8 * |y| && j < 8 * |y|
    ensures BitsOf(Flip(y, k))[j] == if j == k then !BitsOf(y)[j] else BitsOf(y)[j]
  {}

  lemma {:induction false} SameBits(x: seq<Byte>, y: seq<Byte>)
    requires |x| == |y| && forall k :: 0 <= k < 8 * |x| ==> BitsOf(x)[k] == BitsOf(y)[k]
    ensures x == y
  {
    hide BitsOf;
    forall i | 0 <= i < |x| ensures x[i] == y[i] {
      BitsOfByte(x, i);
      BitsOfByte(y, i);
      assert BitsOf(x)[8 * i..8 * i + 8] == BitsOf(y)[8 * i..8 * i + 8];
    }
  }

  lemma {:induction false} FlippedPadded(f: KeyF, y: seq<Byte>, k: nat)
    requires |y| == NBytes(f.nbits) && ZeroPadded(f, y) && Pad(f.nbits) <= k < 8 * |y|
    ensures ZeroPadded(f, Flip(y, k))
  {
    hide BitsOf, MaskFirst, Flip;
    var z := Flip(y, k);
    forall j | 0 <= j < 8 * |y| ensures BitsOf(MaskFirst(z, f.nbits))[j] == BitsOf(z)[j] {
      MaskFirstBits(z, f.nbits, j);
      MaskFirstBits(y, f.nbits, j);
      FlipBits(y, k, j);
    }
    SameBits(MaskFirst(z, f.nbits), z);
  }

  /** The last bit of a prefix that falls into padding is not compared: the stored key
      matches a value that differs from the parameter's just there. */
  lemma {:induction false} PaddedPrefixFails(kind: Kind, f: KeyF, p: Param)
    requires FieldFits(kind, f) && SaneField(f, p) && !WholePrefix(f, p)
    ensures 0 <= Pad(f.nbits) + p.prefixLength - 1 < 8 * |p.key|
    ensures var y := Flip(MaskFirst(p.key, f.nbits), Pad(f.nbits) + p.prefixLength - 1);
            ZeroPadded(f, y) && FieldMatches(f, p, y) && !Satisfies(f, p, y)
  {
    hide BigEndian;
    var (d, k) := (MaskFirst(p.key, f.nbits), Pad(f.nbits) + p.prefixLength - 1);
    hide BitsOf, MaskFirst, Flip;
    PaddingCleared(f, p.key);
    FlippedPadded(f, d, k);
    var y := Flip(d, k);
    forall j | 0 <= j < 8 * |y|
      ensures BitsOf(y)[j] == if j == k then !BitsOf(d)[j] else BitsOf(d)[j]
    {
      FlipBits(d, k, j);
    }
    assert BitsOf(y)[k] != BitsOf(d)[k];
  }

  /** A stored field means what its parameter says, for every zero-padded value, if and
      only if its prefix does not fall into padding. */
  lemma {:induction false} FieldValueIff(kind: Kind, f: KeyF, p: Param)
    requires FieldFits(kind, f) && SaneField(f, p)
    ensures (forall y :: MeansValue(f, p, y)) <==> WholePrefix(f, p)
  {
    hide FieldFits, SaneField, FieldMatches, Satisfies, Flip;
    if WholePrefix(f, p) {
      forall y ensures MeansValue(f, p, y) { WholeMeans(f, p, y); }
    } else {
      PaddedPrefixFails(kind, f, p);
      var y := Flip(MaskFirst(p.key, f.nbits), Pad(f.nbits) + p.prefixLength - 1);
      assert !MeansValue(f, p, y);
    }
  }

  /** A field of 14 bits and a parameter of all its 14 bits: a value that differs in the
      lowest two matches. */
  lemma {:induction false} FourteenBits()
    ensures var (f, p) := (KeyF(LPM, 14), Param(LPM, [Zeros(8), Zeros(8)], [], 14));
            var y: seq<Byte> := [Zeros(8), [false, false, false, false, false, false, true, true]];
            && SaneField(f, p) && ZeroPadded(f, y) && FieldMatches(f, p, y) && !Satisfies(f, p, y)
  {
    var f := KeyF(LPM, 14);
    var p := Param(LPM, [Zeros(8), Zeros(8)], [], 14);
    var y: seq<Byte> := [Zeros(8), [false, false, false, false, false, false, true, true]];
    var zero := Zeros(8);
    assert And(zero, Byte0Mask(14)) == zero;
    assert MaskFirst(y, 14) == y && MaskFirst(p.key, 14) == p.key;
    assert BitsOf(y)[15] && !BitsOf(p.key)[15] && Pad(14) == 2;
  }

  /** An exact parameter, on any bytes: they match if and only if the value is the
      parameter's and the padding is zero. */
  lemma {:induction false} ExactByValue(f: KeyF, p: Param, y: seq<Byte>)
    requires SaneField(f, p) && (p.mtype.EXACT? || p.mtype.VALID?) && |y| == |p.key|
    ensures FieldMatches(f, p, y) <==> Satisfies(f, p, y) && ZeroPadded(f, y)
  {
    hide BitsOf, MaskFirst, BigEndian;
    PaddingCleared(f, p.key);
  }

  /** A ternary parameter, on any bytes: they match if and only if the value does and
      the mask hides what the padding holds. */
  lemma {:induction false} TernaryByValue(f: KeyF, p: Param, y: seq<Byte>)
    requires SaneField(f, p) && p.mtype.TERNARY? && |y| == |p.key|
    ensures FieldMatches(f, p, y) <==> Satisfies(f, p, y) && AgreesUnder(y, MaskFirst(y, f.nbits), p.mask)
  {
    hide BitsOf, BigEndian;
    var (v, d, m) := (MaskFirst(y, f.nbits), MaskFirst(p.key, f.nbits), p.mask);
    if AgreesUnder(y, d, m) && y != [] {
      assert AndAll(y, m)[0] == AndAll(d, m)[0];
      PadUnderMask(y[0], p.key[0], Byte0Mask(f.nbits), m[0]);
      assert AndAll(v, m) == AndAll(y, m);
    }
  }

  lemma {:induction false} PadUnderMask(y: Byte, d: Byte, k: Byte, m: Byte)
    requires And(y, m) == And(And(d, k), m)
    ensures And(And(y, k), m) == And(y, m)
  {
    var (l, r) := (And(And(y, k), m), And(y, m));
    assert forall i :: 0 <= i < 8 ==> r[i] == And(And(d, k), m)[i];
    assert l == r;
  }

  // ----- the whole key ------------------------------------------------------

  ghost predicate AllSatisfied(b: Layout, params: seq<Param>, x: seq<Byte>)
    requires WellBuilt(b) && Sane(b, params) && |x| == Off(b.fields, |b.fields|)
  {
    forall u :: 0 <= u < |params| ==> Satisfies(b.fields[u], params[u], FieldOf(b, x, u))
  }

  ghost predicate WholePrefixes(b: Layout, params: seq<Param>) {
    |params| == |b.fields| && forall u :: 0 <= u < |params| ==> WholePrefix(b.fields[u], params[u])
  }

  /** Every field of the packet's key is zero-padded. */
  ghost predicate CleanKey(b: Layout, x: seq<Byte>)
    requires WellBuilt(b)
  {
    && |x| == Off(b.fields, |b.fields|)
    && forall u :: 0 <= u < |b.fields| ==> ZeroPadded(b.fields[u], FieldOf(b, x, u))
  }

  lemma {:induction false} WholeAllMeans(b: Layout, params: seq<Param>, x: seq<Byte>)
    requires WellBuilt(b) && Sane(b, params) && CleanKey(b, x) && WholePrefixes(b, params)
    ensures AllMatch(b, params, x) <==> AllSatisfied(b, params, x)
  {
    hide WellBuilt, Off, FieldOf, FieldMatches, Satisfies, ZeroPadded, WholePrefix, BigEndian;
    forall u: nat | u < |params|
      ensures FieldMatches(b.fields[u], params[u], FieldOf(b, x, u)) <==>
              Satisfies(b.fields[u], params[u], FieldOf(b, x, u))
    {
      WholeMeans(b.fields[u], params[u], FieldOf(b, x, u));
    }
  }

  // The key made of the parameters' own values, and field u replaced in it.
  lemma {:induction false} OwnKey(kind: Kind, b: Layout, params: seq<Param>) returns (x: seq<Byte>)
    requires Fits(kind, b) && Sane(b, params)
    ensures |x| == Off(b.fields, |b.fields|)
    ensures forall u :: 0 <= u < |b.fields| ==> FieldOf(b, x, u) == MaskFirst(params[u].key, b.fields[u].nbits)
  {
    hide WellBuilt, Off, FieldOf, Joined, SaneField, FieldFits, MaskFirst, FieldMask, Ordered;
    RawSized(kind, b, params);
    var parts := DataParts(ExactKind, b, params);
    JoinedSized(b, parts);
    x := Joined(parts);
    forall u: nat | u < |b.fields| ensures FieldOf(b, x, u) == MaskFirst(params[u].key, b.fields[u].nbits) {
      PartOfKey(b, parts, u);
      MappedField(b, u);
    }
  }

  lemma {:induction false} RawSized(kind: Kind, b: Layout, params: seq<Param>)
    requires Fits(kind, b) && Sane(b, params)
    ensures Ordered(b, params) && InputSized(b.input, DataParts(ExactKind, b, params))
  {
    SaneOrdered(kind, b, params);
    hide WellBuilt, SaneField, FieldFits, FieldData;
    forall i: nat | i < |b.input| ensures |DataParts(ExactKind, b, params)[i]| == NBytes(b.input[i].nbits) {
      Unmasked(kind, b, params, i);
      FieldKind(kind, b.input[i], params[b.inv[i]]);
    }
  }

  lemma {:induction false} OwnMatches(kind: Kind, f: KeyF, p: Param)
    requires FieldFits(kind, f) && SaneField(f, p)
    ensures FieldMatches(f, p, MaskFirst(p.key, f.nbits)) && ZeroPadded(f, MaskFirst(p.key, f.nbits))
  {
    hide BitsOf, MaskFirst, BigEndian;
    PaddingCleared(f, p.key);
    MaskFirstSmaller(p.key, f.nbits);
  }

  // With a prefix that falls into padding some clean key matches without satisfying.
  lemma {:induction false} PaddedKeyFails(kind: Kind, b: Layout, params: seq<Param>, u: nat) returns (x: seq<Byte>)
    requires Fits(kind, b) && Sane(b, params) && u < |params| && !WholePrefix(b.fields[u], params[u])
    ensures CleanKey(b, x) && AllMatch(b, params, x) && !AllSatisfied(b, params, x)
  {
    hide Off, FieldOf, FieldMatches, Satisfies, ZeroPadded, MaskFirst, Flip, BigEndian, Permutation, Before;
    var own := OwnKey(kind, b, params);
    PaddedPrefixFails(kind, b.fields[u], params[u]);
    var y := Flip(MaskFirst(params[u].key, b.fields[u].nbits), Pad(b.fields[u].nbits) + params[u].prefixLength - 1);
    InsideKey(b, u);
    x := Overwrite(own, b.offsets[u], y);
    forall v: nat | v < |params|
      ensures FieldOf(b, x, v) == if v == u then y else MaskFirst(params[v].key, b.fields[v].nbits)
      ensures ZeroPadded(b.fields[v], FieldOf(b, x, v)) && FieldMatches(b.fields[v], params[v], FieldOf(b, x, v))
    {
      OverwriteField(b, own, u, y, v);
      OwnMatches(kind, b.fields[v], params[v]);
    }
    assert !Satisfies(b.fields[u], params[u], FieldOf(b, x, u));
  }

  ghost predicate MeansValues(b: Layout, params: seq<Param>, x: seq<Byte>)
    requires WellBuilt(b) && Sane(b, params)
  {
    CleanKey(b, x) ==> (AllMatch(b, params, x) <==> AllSatisfied(b, params, x))
  }

  /** For every kind of key: comparing bytes means comparing values as the parameters
      say, for every packet whose fields are zero-padded, if and only if no prefix
      falls into padding. */
  lemma {:induction false} ValueMeaningIff(kind: Kind, b: Layout, params: seq<Param>)
    requires Fits(kind, b) && Sane(b, params)
    ensures (forall x :: MeansValues(b, params, x)) <==> WholePrefixes(b, params)
  {
    hide WellBuilt, FieldFits, Sane, CleanKey, AllMatch, AllSatisfied, WholePrefix, Off;
    if WholePrefixes(b, params) {
      forall x ensures MeansValues(b, params, x) {
        if CleanKey(b, x) { CleanSized(b, x); WholeAllMeans(b, params, x); }
      }
    } else {
      SameCount(b, params);
      var u: nat :| u < |params| && !WholePrefix(b.fields[u], params[u]);
      var x := PaddedKeyFails(kind, b, params, u);
      assert !MeansValues(b, params, x);
    }
  }

  lemma {:induction false} SameCount(b: Layout, params: seq<Param>)
    requires Sane(b, params)
    ensures |params| == |b.fields|
  {}

  lemma {:induction false} CleanSized(b: Layout, x: seq<Byte>)
    requires WellBuilt(b) && CleanKey(b, x)
    ensures |x| == Off(b.fields, |b.fields|)
  {
    hide WellBuilt, Off;
  }

  // ----- the key of a packet ------------------------------------------------

  lemma {:induction false} ZeroPaddedIff(f: KeyF, y: seq<Byte>)
    requires |y| == NBytes(f.nbits)
    ensures ZeroPadded(f, y) <==> BitsOf(y)[..Pad(f.nbits)] == Zeros(Pad(f.nbits))
  {
    hide BitsOf, MaskFirst;
    BitsLength(y);
    var (z, n) := (MaskFirst(y, f.nbits), Pad(f.nbits));
    forall k: nat | k < 8 * |y| ensures BitsOf(z)[k] == (BitsOf(y)[k] && k >= n) { MaskFirstBits(y, f.nbits, k); }
    if ZeroPadded(f, y) {
      assert forall k :: 0 <= k < n ==> !BitsOf(y)[k];
      assert BitsOf(y)[..n] == Zeros(n);
    }
    if BitsOf(y)[..n] == Zeros(n) {
      assert forall k :: 0 <= k < n ==> BitsOf(y)[k] == BitsOf(y)[..n][k];
      SameBits(z, y);
    }
  }

  lemma {:induction false} BitsLength(y: seq<Byte>)
    ensures |BitsOf(y)| == 8 * |y|
  {}

  /** An extracted field is zero-padded unless it is narrower than a byte, straddles two
      bytes and is preceded there by a one. */
  lemma {:induction false} ExtractedPadding(f: KeyF, y: seq<Byte>, src: seq<bool>, offset: nat)
    requires |y| == NBytes(f.nbits) && offset < 8 && offset + f.nbits <= |src|
    requires BitsOf(y) == Extract.Extracted(src, offset, f.nbits)
    ensures ZeroPadded(f, y) <==>
              (0 < f.nbits < 8 && offset + f.nbits > 8 ==> src[offset - Pad(f.nbits)..offset] == Zeros(Pad(f.nbits)))
  {
    hide BitsOf, MaskFirst, ZeroPadded, Extract.Extracted;
    ZeroPaddedIff(f, y);
    Extract.ExtractionIsExact(src, offset, f.nbits);
  }

  /** So an exact parameter matches an extracted field if and only if the value is the
      parameter's and no such one precedes it. */
  lemma {:induction false} ExactOfPacket(f: KeyF, p: Param, y: seq<Byte>, src: seq<bool>, offset: nat)
    requires SaneField(f, p) && p.mtype.EXACT? && offset < 8 && offset + f.nbits <= |src| && |y| == |p.key|
    requires BitsOf(y) == Extract.Extracted(src, offset, f.nbits)
    ensures FieldMatches(f, p, y) <==>
              && Satisfies(f, p, y)
              && (0 < f.nbits < 8 && offset + f.nbits > 8 ==>
                src[offset - Pad(f.nbits)..offset] == Zeros(Pad(f.nbits)))
  {
    hide BitsOf, MaskFirst, ZeroPadded, Extract.Extracted, FieldMatches, Satisfies, BigEndian;
    ExtractedPadding(f, y, src, offset);
    ExactByValue(f, p, y);
  }

  /** What the key takes for one field: the validity of a header, or the bytes of a
      field, which count as zeros when neither the header is valid nor the field
      hidden. */
  datatype Source = Validity(valid: bool) | FieldBytes(valid: bool, hidden: bool, bytes: seq<Byte>)

  function SourceBytes(s: Source): seq<Byte> {
    match s
    case Validity(valid) => [ByteOf(if valid then 1 else 0)]
    case FieldBytes(valid, hidden, bytes) => if valid || hidden then bytes else ZeroBytes(|bytes|)
  }

  function ZeroBytes(n: nat): (r: seq<Byte>)
    ensures |r| == n
  {
    seq(n, _ => Zeros(8))
  }

  ghost predicate Sourced(b: Layout, sources: seq<Source>) {
    && WellBuilt(b) && |sources| == |b.fields|
    && forall u :: 0 <= u < |sources| ==> |SourceBytes(sources[u])| == NBytes(b.fields[u].nbits)
  }

  function SourceParts(b: Layout, sources: seq<Source>): (r: seq<seq<Byte>>)
    requires |b.inv| == |sources| && forall i :: 0 <= i < |b.inv| ==> b.inv[i] < |sources|
    ensures |r| == |b.inv| && forall i :: 0 <= i < |r| ==> r[i] == SourceBytes(sources[b.inv[i]])
  {
    seq(|b.inv|, i requires 0 <= i < |b.inv| => SourceBytes(sources[b.inv[i]]))
  }

  lemma {:induction false} SourcesSized(b: Layout, sources: seq<Source>)
    requires Sourced(b, sources)
    ensures |b.inv| == |b.input| == |sources| && forall i :: 0 <= i < |b.inv| ==> b.inv[i] < |sources|
    ensures InputSized(b.input, SourceParts(b, sources))
  {
    hide Off, Before, SourceBytes;
  }

  /** The bytes of every field, at that field's place: a validity field is the byte 1 if
      the header is valid and 0 if not; a field that is not hidden is all zeros if its
      header is not valid; any other field has its own bytes. */
  ghost predicate KeyOfPacket(b: Layout, sources: seq<Source>, raw: seq<Byte>)
    requires WellBuilt(b) && |sources| == |b.fields|
  {
    && |raw| == Off(b.fields, |b.fields|)
    && (forall u: nat :: u < |sources| && sources[u].Validity? ==>
          FieldOf(b, raw, u) == [[false, false, false, false, false, false, false, sources[u].valid]])
    && (forall u: nat :: u < |sources| && sources[u].FieldBytes? && !sources[u].valid && !sources[u].hidden ==>
          AllZero(FieldOf(b, raw, u)))
    && (forall u: nat :: u < |sources| && sources[u].FieldBytes? && (sources[u].valid || sources[u].hidden) ==>
          FieldOf(b, raw, u) == sources[u].bytes)
  }

  ghost predicate AllZero(y: seq<Byte>) {
    forall k :: 0 <= k < |y| ==> Nat(y[k]) == 0
  }

  /** MatchKeyBuilder::operator(): the key of a packet is that, under the mask of the whole
      key if there is one. */
  method PacketKey(b: Layout, sources: seq<Source>, big: seq<Byte>) returns (key: seq<Byte>, ghost raw: seq<Byte>)
    requires Sourced(b, sources) && (big == [] || |big| == Off(b.fields, |b.fields|))
    ensures KeyOfPacket(b, sources, raw) && |key| == |raw|
    ensures forall k :: 0 <= k < |key| ==> key[k] == if big == [] then raw[k] else And(raw[k], big[k])
  {
    hide WellBuilt, Off, FieldOf, Joined, SourceBytes, KeyOfPacket;
    SourcesSized(b, sources);
    ghost var parts := SourceParts(b, sources);
    key := [];
    NoneJoined(parts);
    for i := 0 to |b.inv|
      invariant key == Joined(parts[..i])
    {
      var bytes := OneSource(sources[b.inv[i]]);
      key := key + bytes;
      JoinedNext(parts, i);
    }
    raw := key;
    assert parts[..|parts|] == parts;
    JoinedSized(b, parts);
    forall u: nat | u < |sources| ensures FieldOf(b, raw, u) == SourceBytes(sources[u]) {
      PartOfKey(b, parts, u);
      MappedField(b, u);
    }
    RawKey(b, sources, raw);
    if big != [] { key := AndAll(key, big); }
  }

  // The body of the loop.
  method OneSource(s: Source) returns (bytes: seq<Byte>)
    ensures bytes == SourceBytes(s)
  {
    match s {
      case Validity(valid) => bytes := [ByteOf(if valid then 1 else 0)];
      case FieldBytes(valid, hidden, own) =>
        if valid || hidden { bytes := own; } else { bytes := ZeroBytes(|own|); }
    }
  }

  lemma {:induction false} RawKey(b: Layout, sources: seq<Source>, raw: seq<Byte>)
    requires Sourced(b, sources) && |raw| == Off(b.fields, |b.fields|)
    requires forall u: nat :: u < |sources| ==> FieldOf(b, raw, u) == SourceBytes(sources[u])
    ensures KeyOfPacket(b, sources, raw)
  {
    hide WellBuilt, Off, FieldOf, SourceBytes;
    forall u: nat | u < |sources|
      ensures sources[u].Validity? ==>
                SourceBytes(sources[u]) == [[false, false, false, false, false, false, false, sources[u].valid]]
      ensures sources[u].FieldBytes? ==>
                if sources[u].valid || sources[u].hidden then SourceBytes(sources[u]) == sources[u].bytes
                else AllZero(SourceBytes(sources[u]))
    {
      OneSourceIs(sources[u]);
    }
  }

  lemma {:induction false} OneSourceIs(s: Source)
    ensures s.Validity? ==> SourceBytes(s) == [[false, false, false, false, false, false, false, s.valid]]
    ensures s.FieldBytes? ==>
              if s.valid || s.hidden then SourceBytes(s) == s.bytes else AllZero(SourceBytes(s))
  {
    LowBit(false);
    LowBit(true);
    assert Nat(Zeros(8)) == 0 by { NatZeros(8); }
  }

  lemma {:induction false} LowBit(b: bool)
    ensures ByteOf(if b then 1 else 0) == [false, false, false, false, false, false, false, b]
  {
    var w: Byte := [false, false, false, false, false, false, false, b];
    assert Nat(w) == if b then 1 else 0 by {
      assert w[..7] == Zeros(7);
      NatZeros(7);
    }
    NatInjective(w, ByteOf(if b then 1 else 0));
  }

  /** A VALID parameter of value 1 matches the key of a packet if and only if the header is
      valid, and one of value 0 if and only if it is not. */
  lemma {:induction false} ValidParameter(b: Layout, sources: seq<Source>, raw: seq<Byte>, p: Param, u: nat)
    requires Sourced(b, sources) && KeyOfPacket(b, sources, raw) && u < |sources| && sources[u].Validity?
    requires b.fields[u] == KeyF(VALID, 8) && SaneField(b.fields[u], p) && Nat(p.key[0]) <= 1
    ensures FieldMatches(b.fields[u], p, FieldOf(b, raw, u)) <==> (Nat(p.key[0]) == 1 <==> sources[u].valid)
  {
    hide WellBuilt, Off, FieldOf, SourceBytes;
    OnesChangeNothing(p.key[0]);
    LowBit(false);
    LowBit(true);
    NatInjective(p.key[0], ByteOf(if Nat(p.key[0]) == 1 then 1 else 0));
    var (y, v) := (FieldOf(b, raw, u), sources[u].valid);
    assert y == [[false, false, false, false, false, false, false, v]];
    assert MaskFirst(p.key, 8) == p.key;
    assert p.key == [[false, false, false, false, false, false, false, Nat(p.key[0]) == 1]];
    assert y[0][7] == v && p.key[0][7] == (Nat(p.key[0]) == 1);
  }

  /** An exact parameter on a field of an invalid header, not hidden, matches if and only if
      the value it asks for is zero. */
  lemma {:induction false} InvalidHeader(b: Layout, sources: seq<Source>, raw: seq<Byte>, p: Param, u: nat)
    requires Sourced(b, sources) && KeyOfPacket(b, sources, raw) && u < |sources|
    requires sources[u].FieldBytes? && !sources[u].valid && !sources[u].hidden
    requires SaneField(b.fields[u], p) && p.mtype.EXACT?
    ensures FieldMatches(b.fields[u], p, FieldOf(b, raw, u)) <==> AllZero(MaskFirst(p.key, b.fields[u].nbits))
  {
    hide WellBuilt, Off, FieldOf, SourceBytes, MaskFirst, BigEndian;
    var (y, d) := (FieldOf(b, raw, u), MaskFirst(p.key, b.fields[u].nbits));
    if AllZero(d) {
      forall k | 0 <= k < |y| ensures y[k] == d[k] { NatInjective(y[k], d[k]); }
      assert y == d;
    }
  }
}
