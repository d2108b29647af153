/** Conversion of match parameters to table entries and back, after
    MatchKeyBuilderHelper in match_units.cpp. */
module MatchParams {
  import opened Bits
  import opened Sequences
  import opened MatchKeys
  import opened EntryLists

  /** A parameter as the control plane gives it; for a range, key and mask are the
      two ends. */
  datatype Param = Param(mtype: Type, key: seq<Byte>, mask: seq<Byte>, prefixLength: int)

  /** The four key types of the lookup structures. */
  datatype Kind = ExactKind | LpmKind | TernaryKind | RangeKind

  /** A key as stored; each kind uses its own part. */
  datatype EntryKey = EntryKey(data: seq<Byte>, mask: seq<Byte>, prefixLength: int, widths: seq<nat>)

  // ----- bytes and masks ----------------------------------------------------

  /** The byte whose first n bits are set. */
  function Leading(n: int): (r: Byte)
    ensures forall k :: 0 <= k < 8 ==> r[k] == (k < n)
  {
    seq(8, k => k < n)
  }

  /** get_byte0_mask: the low bits of the first byte that belong to the field. */
  function Byte0Mask(nbits: nat): (r: Byte)
    ensures nbits % 8 != 0 ==> forall k :: 0 <= k < 8 ==> r[k] == (k >= 8 - nbits % 8)
  {
    if nbits % 8 == 0 then ONES else seq(8, k => k >= 8 - nbits % 8)
  }

  function MaskFirst(key: seq<Byte>, nbits: nat): (r: seq<Byte>)
    ensures |r| == |key|
  {
    if key == [] then [] else key[0 := And(key[0], Byte0Mask(nbits))]
  }

  function AndAll(x: seq<Byte>, y: seq<Byte>): (r: seq<Byte>)
    requires |x| == |y|
    ensures |r| == |x| && forall i :: 0 <= i < |x| ==> r[i] == And(x[i], y[i])
  {
    seq(|x|, i requires 0 <= i < |x| => And(x[i], y[i]))
  }

  function AllOnes(n: nat): (r: seq<Byte>)
    ensures |r| == n && forall i :: 0 <= i < n ==> r[i] == ONES
  {
    seq(n, _ => ONES)
  }

  /** The mask whose first p bits are set. */
  function PrefixMask(p: int, size: nat): (r: seq<Byte>)
    ensures |r| == size && forall i :: 0 <= i < size ==> r[i] == Leading(p - 8 * i)
  {
    seq(size, i => Leading(p - 8 * i))
  }

  /** create_mask_from_pref_len. */
  method CreateMask(p: nat, size: nat) returns (mask: seq<Byte>)
    requires p <= 8 * size
    ensures mask == PrefixMask(p, size)
    ensures forall k :: 0 <= k < 8 * size ==> (BitsOf(mask)[k] <==> k < p)
  {
    mask := seq(size, _ => Zeros(8));
    for i := 0 to p / 8
      invariant |mask| == size && forall j :: 0 <= j < size ==> mask[j] == if j < i then ONES else Zeros(8)
    {
      mask := mask[i := ONES];
    }
    if p % 8 != 0 {
      mask := mask[p / 8 := ONES[8 - p % 8..] + Zeros(8 - p % 8)];
    }
    forall j | 0 <= j < size ensures mask[j] == Leading(p - 8 * j) {
      assert forall k :: 0 <= k < 8 ==> mask[j][k] == (k < p - 8 * j);
    }
  }

  /** The number of bits set in a byte, and in a string of bytes. */
  function Ones(b: Byte): nat {
    (if b[0] then 1 else 0) + (if b[1] then 1 else 0) + (if b[2] then 1 else 0) + (if b[3] then 1 else 0)
    + (if b[4] then 1 else 0) + (if b[5] then 1 else 0) + (if b[6] then 1 else 0) + (if b[7] then 1 else 0)
  }

  function OneCount(mask: seq<Byte>): nat {
    if mask == [] then 0 else OneCount(mask[..|mask| - 1]) + Ones(mask[|mask| - 1])
  }

  /** The bits of a char, and the way pref_len_from_mask counts them. */
  function Char(b: Byte): bv8 {
    (if b[0] then 0x80 else 0) | (if b[1] then 0x40 else 0) | (if b[2] then 0x20 else 0) | (if b[3] then 0x10 else 0)
    | (if b[4] then 8 else 0) | (if b[5] then 4 else 0) | (if b[6] then 2 else 0) | (if b[7] then 1 else 0)
  }

  function CountTrick(c: bv8): bv8 {
    var c1 := c - ((c >> 1) & 0x55);
    var c2 := (c1 & 0x33) + ((c1 >> 2) & 0x33);
    (c2 + (c2 >> 4)) & 0x0f
  }

  function Bit(x: bool): bv8 {
    if x then 1 else 0
  }

  lemma {:induction false} CountTrickCounts(b: Byte)
    ensures CountTrick(Char(b)) ==
            Bit(b[0]) + Bit(b[1]) + Bit(b[2]) + Bit(b[3]) + Bit(b[4]) + Bit(b[5]) + Bit(b[6]) + Bit(b[7])
  {}

  lemma {:induction false} AddBit(x: bv8, y: bool)
    requires x as nat < 100
    ensures (x + Bit(y)) as nat == x as nat + if y then 1 else 0
  {}

  lemma {:induction false} TrickIsOnes(b: Byte)
    ensures CountTrick(Char(b)) as nat == Ones(b)
  {
    hide CountTrick, Char, Bit;
    CountTrickCounts(b);
    AddBit(0, b[0]);
    var c1 := 0 + Bit(b[0]);
    AddBit(c1, b[1]);
    var c2 := c1 + Bit(b[1]);
    AddBit(c2, b[2]);
    var c3 := c2 + Bit(b[2]);
    AddBit(c3, b[3]);
    var c4 := c3 + Bit(b[3]);
    AddBit(c4, b[4]);
    var c5 := c4 + Bit(b[4]);
    AddBit(c5, b[5]);
    var c6 := c5 + Bit(b[5]);
    AddBit(c6, b[6]);
    var c7 := c6 + Bit(b[6]);
    AddBit(c7, b[7]);
  }

  /** pref_len_from_mask. */
  method PrefLenFromMask(mask: seq<Byte>) returns (pref: nat)
    ensures pref == OneCount(mask)
  {
    hide Ones, CountTrick, Char;
    pref := 0;
    for i := 0 to |mask|
      invariant pref == OneCount(mask[..i])
    {
      assert mask[..i + 1][..i] == mask[..i];
      if mask[i] == ONES {
        OnesOfLeading(8);
        assert Leading(8) == ONES;
        pref := pref + 8;
      } else {
        TrickIsOnes(mask[i]);
        pref := pref + CountTrick(Char(mask[i])) as nat;
      }
    }
    assert mask[..|mask|] == mask;
  }

  lemma {:induction false} OnesOfLeading(n: int)
    ensures Ones(Leading(n)) == if n < 0 then 0 else if n > 8 then 8 else n
  {}

  /** The prefix length is recovered from the mask that was made from it. */
  lemma {:induction false} MaskGivesPrefix(p: nat, size: nat)
    ensures OneCount(PrefixMask(p, size)) == if p <= 8 * size then p else 8 * size
  {
    hide Ones;
    if size > 0 {
      MaskGivesPrefix(p, size - 1);
      OnesOfLeading(p - 8 * (size - 1));
      assert PrefixMask(p, size)[..size - 1] == PrefixMask(p, size - 1);
    }
  }

  // ----- one field ----------------------------------------------------------

  ghost predicate FieldFits(kind: Kind, f: KeyF) {
    && f.nbits > 0 && (f.mtype.VALID? ==> f.nbits == 8)
    && (kind.ExactKind? ==> f.mtype.VALID? || f.mtype.EXACT?)
    && (kind.LpmKind? ==> !f.mtype.TERNARY? && !f.mtype.RANGE?)
    && (kind.TernaryKind? ==> !f.mtype.RANGE?)
  }

  /** What the sanity check asks of one parameter. */
  ghost predicate SaneField(f: KeyF, p: Param) {
    && p.mtype == f.mtype && |p.key| == NBytes(f.nbits)
    && (p.mtype.LPM? ==> 0 <= p.prefixLength <= f.nbits)
    && (p.mtype.TERNARY? || p.mtype.RANGE? ==> |p.mask| == NBytes(f.nbits))
    && (p.mtype.RANGE? ==> BigEndian(p.key) <= BigEndian(p.mask))
  }

  function FieldMask(p: Param): seq<Byte> {
    match p.mtype
    case VALID => [ONES]
    case EXACT => AllOnes(|p.key|)
    case LPM => PrefixMask(p.prefixLength, |p.key|)
    case _ => p.mask
  }

  predicate Masking(kind: Kind) {
    kind.TernaryKind? || kind.RangeKind?
  }

  /** The bytes that one field contributes to the stored key. */
  function FieldData(kind: Kind, f: KeyF, p: Param): (r: seq<Byte>)
    ensures |r| == |p.key|
  {
    var first := MaskFirst(p.key, f.nbits);
    if Masking(kind) && !p.mtype.RANGE? && |FieldMask(p)| == |first| then AndAll(first, FieldMask(p)) else first
  }

  function PrefixTerm(p: Param): int {
    match p.mtype
    case VALID => 8
    case EXACT => 8 * |p.key|
    case LPM => p.prefixLength
    case _ => 0
  }

  lemma {:induction false} MaskSized(kind: Kind, f: KeyF, p: Param)
    requires FieldFits(kind, f) && SaneField(f, p)
    ensures |FieldMask(p)| == |p.key| == NBytes(f.nbits) > 0
  {}

  /** The parameter that an entry's field turns back into. */
  function BackField(kind: Kind, f: KeyF, data: seq<Byte>, mask: seq<Byte>, prefix: int): Param {
    if !Masking(kind) then Param(f.mtype, data, [], prefix)
    else match f.mtype
      case VALID => Param(VALID, data, [], 0)
      case EXACT => Param(EXACT, data, [], 0)
      case LPM => Param(LPM, data, [], OneCount(mask))
      case _ => Param(f.mtype, data, mask, 0)
  }

  lemma {:induction false} AndIdempotent(x: Byte, m: Byte, k: Byte)
    ensures And(And(x, m), m) == And(x, m)
    ensures And(And(And(And(x, m), k), m), k) == And(And(x, m), k)
  {
    assert And(And(x, m), m) == And(x, m);
    assert And(And(And(And(x, m), k), m), k) == And(And(x, m), k);
  }

  /** Converting a field back and forth again changes neither its bytes nor its
      mask. */
  lemma {:induction false} FieldFixpoint(kind: Kind, f: KeyF, p: Param, prefix: int)
    requires FieldFits(kind, f) && SaneField(f, p)
    ensures var q := BackField(kind, f, FieldData(kind, f, p), FieldMask(p), prefix);
            && FieldData(kind, f, q) == FieldData(kind, f, p)
            && (Masking(kind) ==> FieldMask(q) == FieldMask(p))
            && (Masking(kind) && p.mtype.LPM? ==> q.prefixLength == p.prefixLength)
  {
    MaskSized(kind, f, p);
    var (d, m) := (FieldData(kind, f, p), FieldMask(p));
    var q := BackField(kind, f, d, m, prefix);
    if p.mtype.LPM? { MaskGivesPrefix(p.prefixLength, |p.key|); }
    assert Masking(kind) ==> FieldMask(q) == m;
    DataFixpoint(f, p, q, Masking(kind) && !p.mtype.RANGE?);
  }

  lemma {:induction false} DataFixpoint(f: KeyF, p: Param, q: Param, masked: bool)
    requires p.key != [] && |FieldMask(p)| == |p.key|
    requires q.key == if masked then AndAll(MaskFirst(p.key, f.nbits), FieldMask(p)) else MaskFirst(p.key, f.nbits)
    ensures masked ==> AndAll(MaskFirst(q.key, f.nbits), FieldMask(p)) == q.key
    ensures !masked ==> MaskFirst(q.key, f.nbits) == q.key
  {
    var (m0, m) := (Byte0Mask(f.nbits), FieldMask(p));
    hide FieldMask, Byte0Mask;
    forall i | 0 <= i < |p.key| ensures And(And(p.key[i], m[i]), m[i]) == And(p.key[i], m[i]) {
      AndIdempotent(p.key[i], m[i], m[i]);
    }
    AndIdempotent(p.key[0], m0, m[0]);
  }

  // ----- the whole key ------------------------------------------------------

  function Joined(parts: seq<seq<Byte>>): seq<Byte> {
    if parts == [] then [] else Joined(parts[..|parts| - 1]) + parts[|parts| - 1]
  }

  ghost predicate InputSized(input: seq<KeyF>, parts: seq<seq<Byte>>) {
    |parts| == |input| && forall i :: 0 <= i < |input| ==> |parts[i]| == NBytes(input[i].nbits)
  }

  lemma {:induction false} JoinedNext(parts: seq<seq<Byte>>, i: nat)
    requires i < |parts|
    ensures Joined(parts[..i + 1]) == Joined(parts[..i]) + parts[i]
  {
    assert parts[..i + 1][..i] == parts[..i];
  }

  lemma {:induction false} JoinedLength(input: seq<KeyF>, parts: seq<seq<Byte>>, i: nat)
    requires InputSized(input, parts) && i <= |input|
    ensures |Joined(parts[..i])| == Off(input, i)
  {
    if i == 0 {
      OffNone(input);
    } else {
      hide Off;
      JoinedLength(input, parts, i - 1);
      JoinedNext(parts, i - 1);
      OffNext(input, i - 1);
    }
  }

  // Part i of a concatenation stays where it was put.
  lemma {:induction false} JoinedSlice(input: seq<KeyF>, parts: seq<seq<Byte>>, i: nat, n: nat)
    requires InputSized(input, parts) && i < n <= |input|
    ensures Off(input, i) + |parts[i]| <= |Joined(parts[..n])|
    ensures Joined(parts[..n])[Off(input, i)..Off(input, i) + |parts[i]|] == parts[i]
  {
    hide Off, Joined;
    JoinedNext(parts, n - 1);
    if i < n - 1 {
      JoinedSlice(input, parts, i, n - 1);
    } else {
      JoinedLength(input, parts, i);
    }
  }

  ghost predicate Sane(b: Layout, params: seq<Param>) {
    |params| == |b.fields| && forall u :: 0 <= u < |params| ==> SaneField(b.fields[u], params[u])
  }

  ghost predicate Fits(kind: Kind, b: Layout) {
    && WellBuilt(b) && (forall u :: 0 <= u < |b.fields| ==> FieldFits(kind, b.fields[u]))
    && (kind.LpmKind? ==> |b.fields| > 0)
  }

  ghost predicate Ordered(b: Layout, params: seq<Param>) {
    |b.input| == |b.inv| == |params| && forall i :: 0 <= i < |b.inv| ==> b.inv[i] < |params|
  }

  function DataParts(kind: Kind, b: Layout, params: seq<Param>): (r: seq<seq<Byte>>)
    requires Ordered(b, params)
    ensures |r| == |b.input| && forall i :: 0 <= i < |r| ==> r[i] == FieldData(kind, b.input[i], params[b.inv[i]])
  {
    seq(|b.input|, i requires 0 <= i < |b.input| => FieldData(kind, b.input[i], params[b.inv[i]]))
  }

  function MaskParts(b: Layout, params: seq<Param>): (r: seq<seq<Byte>>)
    requires Ordered(b, params)
    ensures |r| == |b.input| && forall i :: 0 <= i < |r| ==> r[i] == FieldMask(params[b.inv[i]])
  {
    seq(|b.input|, i requires 0 <= i < |b.input| => FieldMask(params[b.inv[i]]))
  }

  function PrefixTerms(b: Layout, params: seq<Param>): (r: seq<int>)
    requires Ordered(b, params)
    ensures |r| == |b.input| && forall i :: 0 <= i < |r| ==> r[i] == PrefixTerm(params[b.inv[i]])
  {
    seq(|b.input|, i requires 0 <= i < |b.input| => PrefixTerm(params[b.inv[i]]))
  }

  /** The widths of the range fields among the first n, in the stored order. */
  function RangeWidths(b: Layout, params: seq<Param>, n: nat): seq<nat>
    requires Ordered(b, params) && n <= |b.inv|
  {
    if n == 0 then []
    else
      var p := params[b.inv[n - 1]];
      RangeWidths(b, params, n - 1) + if p.mtype.RANGE? then [|p.key|] else []
  }

  /** The stored key of a list of parameters. */
  function ToEntry(kind: Kind, b: Layout, params: seq<Param>): EntryKey
    requires Ordered(b, params)
  {
    EntryKey(Joined(DataParts(kind, b, params)),
             if Masking(kind) then Joined(MaskParts(b, params)) else [],
             if kind.LpmKind? then Sum(PrefixTerms(b, params)) else 0,
             if kind.RangeKind? then RangeWidths(b, params, |b.inv|) else [])
  }

  /** The last LPM field among the first n, 0 if there is none. */
  function LpmIndex(fields: seq<KeyF>, n: nat): (r: nat)
    requires n <= |fields|
    ensures r == 0 || (r < n && fields[r].mtype.LPM?)
    ensures forall u :: r < u < n ==> !fields[u].mtype.LPM?
    ensures (exists u :: 0 <= u < n && fields[u].mtype.LPM?) ==> r < n && fields[r].mtype.LPM?
  {
    if n == 0 then 0 else if fields[n - 1].mtype.LPM? then n - 1 else LpmIndex(fields, n - 1)
  }

  /** The bits that are not part of the LPM field. */
  function OtherBits(fields: seq<KeyF>): (r: seq<int>)
    ensures |r| == |fields|
    ensures forall u :: 0 <= u < |r| ==> r[u] == if fields[u].mtype.LPM? then 0 else 8 * NBytes(fields[u].nbits)
  {
    seq(|fields|, u requires 0 <= u < |fields| => if fields[u].mtype.LPM? then 0 else 8 * NBytes(fields[u].nbits))
  }

  function BackPrefix(kind: Kind, b: Layout, e: EntryKey, u: nat): int {
    if kind.LpmKind? && u == LpmIndex(b.fields, |b.fields|) then e.prefixLength - Sum(OtherBits(b.fields)) else 0
  }

  ghost predicate EntrySized(kind: Kind, b: Layout, e: EntryKey) {
    |e.data| == Off(b.fields, |b.fields|) && (Masking(kind) ==> |e.mask| == |e.data|)
  }

  /** The parameters of a stored key, in the order of the P4 program. */
  function BackParam(kind: Kind, b: Layout, e: EntryKey, u: nat): Param
    requires WellBuilt(b) && EntrySized(kind, b, e) && u < |b.fields|
  {
    BackField(kind, b.fields[u], FieldOf(b, e.data, u), if Masking(kind) then FieldOf(b, e.mask, u) else [],
              BackPrefix(kind, b, e, u))
  }

  function FromEntry(kind: Kind, b: Layout, e: EntryKey): (r: seq<Param>)
    requires WellBuilt(b) && EntrySized(kind, b, e)
    ensures |r| == |b.fields| && forall u :: 0 <= u < |r| ==> r[u] == BackParam(kind, b, e, u)
  {
    seq(|b.fields|, u requires 0 <= u < |b.fields| => BackParam(kind, b, e, u))
  }

  lemma {:induction false} SaneOrdered(kind: Kind, b: Layout, params: seq<Param>)
    requires Fits(kind, b) && |params| == |b.fields|
    ensures Ordered(b, params)
    ensures forall u :: 0 <= u < |b.fields| ==>
            b.mapping[u] < |b.inv| && b.inv[b.mapping[u]] == u && b.input[b.mapping[u]] == b.fields[u]
    ensures forall i :: 0 <= i < |b.inv| ==> b.input[i] == b.fields[b.inv[i]]
  {}

  lemma {:induction false} PartsSized(kind: Kind, b: Layout, params: seq<Param>)
    requires Fits(kind, b) && Sane(b, params)
    ensures Ordered(b, params) && InputSized(b.input, DataParts(kind, b, params))
    ensures InputSized(b.input, MaskParts(b, params))
  {
    SaneOrdered(kind, b, params);
    hide FieldData, FieldMask, FieldFits, SaneField, WellBuilt;
    forall i: nat | i < |b.input|
      ensures |DataParts(kind, b, params)[i]| == |MaskParts(b, params)[i]| == NBytes(b.input[i].nbits)
    {
      MaskSized(kind, b.input[i], params[b.inv[i]]);
    }
  }

  // Parts in the stored order make up a key, and field u is the part mapped to it.
  lemma {:induction false} JoinedSized(b: Layout, parts: seq<seq<Byte>>)
    requires WellBuilt(b) && InputSized(b.input, parts)
    ensures |Joined(parts)| == Off(b.fields, |b.fields|)
  {
    hide Off, Joined, InverseOf;
    SameLength(b);
    JoinedLength(b.input, parts, |b.input|);
    assert parts[..|parts|] == parts;
  }

  lemma {:induction false} PartOfKey(b: Layout, parts: seq<seq<Byte>>, u: nat)
    requires WellBuilt(b) && InputSized(b.input, parts) && u < |b.fields|
    ensures |Joined(parts)| == Off(b.fields, |b.fields|)
    ensures b.mapping[u] < |parts| && FieldOf(b, Joined(parts), u) == parts[b.mapping[u]]
  {
    hide Off, Joined, WellBuilt;
    JoinedSized(b, parts);
    MappedField(b, u);
    JoinedSlice(b.input, parts, b.mapping[u], |b.input|);
    assert parts[..|parts|] == parts;
  }

  lemma {:induction false} MappedField(b: Layout, u: nat)
    requires WellBuilt(b) && u < |b.fields|
    ensures |b.mapping| == |b.inv| == |b.input| == |b.fields| && b.mapping[u] < |b.inv|
    ensures b.inv[b.mapping[u]] == u && b.input[b.mapping[u]] == b.fields[u]
    ensures |b.offsets| == |b.fields| && b.offsets[u] == Off(b.input, b.mapping[u])
  {
    hide Off;
  }

  /** Each field of a stored key is that of its own parameter. */
  lemma {:induction false} FieldOfEntry(kind: Kind, b: Layout, params: seq<Param>, u: nat)
    requires Fits(kind, b) && Sane(b, params) && u < |b.fields|
    ensures Ordered(b, params) && EntrySized(kind, b, ToEntry(kind, b, params))
    ensures FieldOf(b, ToEntry(kind, b, params).data, u) == FieldData(kind, b.fields[u], params[u])
    ensures Masking(kind) ==> FieldOf(b, ToEntry(kind, b, params).mask, u) == FieldMask(params[u])
  {
    hide FieldData, FieldMask, Sane, Off, WellBuilt, FieldOf, InputSized, Joined, PrefixTerms, Sum, RangeWidths,
         FieldFits;
    PartsSized(kind, b, params);
    PartOfKey(b, DataParts(kind, b, params), u);
    PartOfKey(b, MaskParts(b, params), u);
    MappedField(b, u);
  }

  lemma {:induction false} ToEntrySized(kind: Kind, b: Layout, params: seq<Param>)
    requires Fits(kind, b) && Sane(b, params)
    ensures Ordered(b, params) && EntrySized(kind, b, ToEntry(kind, b, params))
  {
    hide FieldData, FieldMask, Sane, Off, WellBuilt, FieldOf, InputSized, Joined, PrefixTerms, Sum, RangeWidths,
         FieldFits;
    PartsSized(kind, b, params);
    JoinedSized(b, DataParts(kind, b, params));
    JoinedSized(b, MaskParts(b, params));
  }

  // ----- prefix lengths -----------------------------------------------------

  function LpmPrefixes(params: seq<Param>): (r: seq<int>)
    ensures |r| == |params| && forall u :: 0 <= u < |r| ==>
            r[u] == if params[u].mtype.LPM? then params[u].prefixLength else 0
  {
    seq(|params|, u requires 0 <= u < |params| => if params[u].mtype.LPM? then params[u].prefixLength else 0)
  }

  lemma {:induction false} SumAdds(xs: seq<int>, ys: seq<int>, zs: seq<int>)
    requires |xs| == |ys| == |zs| && forall i :: 0 <= i < |xs| ==> zs[i] == xs[i] + ys[i]
    ensures Sum(zs) == Sum(xs) + Sum(ys)
  {
    if xs != [] { SumAdds(xs[..|xs| - 1], ys[..|ys| - 1], zs[..|zs| - 1]); }
  }

  lemma {:induction false} SumZero(xs: seq<int>)
    requires forall i :: 0 <= i < |xs| ==> xs[i] == 0
    ensures Sum(xs) == 0
  {
    if xs != [] { SumZero(xs[..|xs| - 1]); }
  }

  lemma {:induction false} SumSingle(xs: seq<int>, k: nat)
    requires k < |xs| && forall i :: 0 <= i < |xs| && i != k ==> xs[i] == 0
    ensures Sum(xs) == xs[k]
  {
    SumWithout(xs, k);
    SumZero(xs[..k] + xs[k + 1..]);
  }

  ghost predicate LpmTyped(b: Layout, params: seq<Param>) {
    && |params| == |b.fields|
    && forall u :: 0 <= u < |params| ==>
         var (f, p) := (b.fields[u], params[u]);
         p.mtype == f.mtype && |p.key| == NBytes(f.nbits) && FieldFits(LpmKind, f)
  }

  /** The stored prefix length is that of the LPM parameters plus all other bits. */
  lemma {:induction false} StoredPrefix(b: Layout, params: seq<Param>)
    requires WellBuilt(b) && LpmTyped(b, params)
    ensures Ordered(b, params)
    ensures Sum(PrefixTerms(b, params)) == Sum(OtherBits(b.fields)) + Sum(LpmPrefixes(params))
  {
    SaneOrderedInv(b, params);
    var terms := UserTerms(params);
    hide WellBuilt, Sum, PrefixTerm, Permutation;
    TermsSplit(b, params);
    assert Permuted(terms, b.inv) == PrefixTerms(b, params);
    SumPermuted(terms, b.inv);
    SumAdds(OtherBits(b.fields), LpmPrefixes(params), terms);
  }

  function UserTerms(params: seq<Param>): (r: seq<int>)
    ensures |r| == |params| && forall u :: 0 <= u < |r| ==> r[u] == PrefixTerm(params[u])
  {
    seq(|params|, u requires 0 <= u < |params| => PrefixTerm(params[u]))
  }

  lemma {:induction false} TermsSplit(b: Layout, params: seq<Param>)
    requires LpmTyped(b, params)
    ensures forall u :: 0 <= u < |params| ==> UserTerms(params)[u] == OtherBits(b.fields)[u] + LpmPrefixes(params)[u]
  {}

  lemma {:induction false} SaneOrderedInv(b: Layout, params: seq<Param>)
    requires WellBuilt(b) && |params| == |b.fields|
    ensures Ordered(b, params) && Permutation(b.inv)
  {}

  lemma {:induction false} BackPrefixIsTotal(b: Layout, params: seq<Param>, u: nat)
    requires Fits(LpmKind, b) && Sane(b, params) && u < |b.fields|
    ensures Ordered(b, params)
    ensures BackPrefix(LpmKind, b, ToEntry(LpmKind, b, params), u)
         == if u == LpmIndex(b.fields, |b.fields|) then Sum(LpmPrefixes(params)) else 0
  {
    hide WellBuilt, Sum, Joined;
    StoredPrefix(b, params);
  }

  ghost predicate PrefixesKept(fields: seq<KeyF>, params: seq<Param>, qs: seq<Param>) {
    |params| == |qs| == |fields|
    && forall u :: 0 <= u < |fields| && fields[u].mtype.LPM? ==> qs[u].prefixLength == params[u].prefixLength
  }

  ghost predicate OthersZero(fields: seq<KeyF>, params: seq<Param>) {
    |params| == |fields|
    && forall u :: 0 <= u < |fields| && fields[u].mtype.LPM? && u != LpmIndex(fields, |fields|) ==>
      params[u].prefixLength == 0
  }

  lemma {:induction false} KeptIffZero(fields: seq<KeyF>, params: seq<Param>, qs: seq<Param>)
    requires |params| == |qs| == |fields|
    requires forall u :: 0 <= u < |fields| ==> params[u].mtype == fields[u].mtype
    requires forall u :: 0 <= u < |fields| ==>
      qs[u].prefixLength == if u == LpmIndex(fields, |fields|) then Sum(LpmPrefixes(params)) else 0
    ensures PrefixesKept(fields, params, qs) <==> OthersZero(fields, params)
  {
    hide Sum;
    var last := LpmIndex(fields, |fields|);
    if OthersZero(fields, params) && last < |fields| { SumSingle(LpmPrefixes(params), last); }
  }

  /** The prefix lengths come back exactly if and only if every LPM parameter but the
      last is 0; with the one LPM field of an LPM table they always do. */
  lemma {:induction false} PrefixesRecovered(b: Layout, params: seq<Param>)
    requires Fits(LpmKind, b) && Sane(b, params)
    ensures PrefixesKept(b.fields, params, Again(LpmKind, b, params)) <==> OthersZero(b.fields, params)
  {
    hide WellBuilt, Sum, Joined, ToEntry, FieldOf, SaneField, Off, PrefixesKept, OthersZero;
    ToEntrySized(LpmKind, b, params);
    var qs := Again(LpmKind, b, params);
    forall u: nat | u < |params|
      ensures qs[u].prefixLength == if u == LpmIndex(b.fields, |b.fields|) then Sum(LpmPrefixes(params)) else 0
    {
      BackPrefixIsTotal(b, params, u);
    }
    SaneTypes(b, params);
    KeptIffZero(b.fields, params, qs);
  }

  lemma {:induction false} SaneTypes(b: Layout, params: seq<Param>)
    requires Sane(b, params)
    ensures forall u :: 0 <= u < |params| ==> params[u].mtype == b.fields[u].mtype
  {}

  // ----- there and back again -----------------------------------------------

  function Again(kind: Kind, b: Layout, params: seq<Param>): (r: seq<Param>)
    requires Fits(kind, b) && Sane(b, params)
    ensures |r| == |params|
  {
    ToEntrySized(kind, b, params);
    FromEntry(kind, b, ToEntry(kind, b, params))
  }

  /** What one parameter looks like after the trip through an entry. */
  lemma {:induction false} AgainField(kind: Kind, b: Layout, params: seq<Param>, u: nat)
    requires Fits(kind, b) && Sane(b, params) && u < |params|
    ensures var (p, q, f) := (params[u], Again(kind, b, params)[u], b.fields[u]);
            && q.mtype == p.mtype && q.key == FieldData(kind, f, p) && FieldData(kind, f, q) == FieldData(kind, f, p)
            && (Masking(kind) ==> FieldMask(q) == FieldMask(p) && (p.mtype.LPM? ==> q.prefixLength == p.prefixLength))
            && (p.mtype.RANGE? ==> q.mask == p.mask) && (p.mtype.TERNARY? ==> q.mask == p.mask)
  {
    hide FieldData, FieldMask, Off, WellBuilt, FieldOf, ToEntry, FieldFits, SaneField;
    FieldOfEntry(kind, b, params, u);
    AgainShape(kind, b, params[u], b.fields[u], BackPrefix(kind, b, ToEntry(kind, b, params), u));
  }

  lemma {:induction false} AgainShape(kind: Kind, b: Layout, p: Param, f: KeyF, prefix: int)
    requires FieldFits(kind, f) && SaneField(f, p)
    ensures var q := BackField(kind, f, FieldData(kind, f, p), if Masking(kind) then FieldMask(p) else [], prefix);
            && q.mtype == p.mtype && q.key == FieldData(kind, f, p) && FieldData(kind, f, q) == FieldData(kind, f, p)
            && (Masking(kind) ==> FieldMask(q) == FieldMask(p) && (p.mtype.LPM? ==> q.prefixLength == p.prefixLength))
            && (p.mtype.RANGE? ==> q.mask == p.mask) && (p.mtype.TERNARY? ==> q.mask == p.mask)
  {
    hide FieldData;
    FieldFixpoint(kind, f, p, prefix);
  }

  lemma {:induction false} WidthsAgain(kind: Kind, b: Layout, params: seq<Param>, qs: seq<Param>, n: nat)
    requires Ordered(b, params) && Ordered(b, qs) && n <= |b.inv|
    requires forall u :: 0 <= u < |params| ==> qs[u].mtype == params[u].mtype && |qs[u].key| == |params[u].key|
    ensures RangeWidths(b, qs, n) == RangeWidths(b, params, n)
  {
    if n > 0 { WidthsAgain(kind, b, params, qs, n - 1); }
  }

  lemma {:induction false} PrefixAgain(b: Layout, params: seq<Param>)
    requires Fits(LpmKind, b) && Sane(b, params)
    requires forall u :: 0 <= u < |params| ==> Again(LpmKind, b, params)[u].mtype == params[u].mtype
    ensures Sum(LpmPrefixes(Again(LpmKind, b, params))) == Sum(LpmPrefixes(params))
  {
    hide WellBuilt, Sum, ToEntry, FieldOf, SaneField, Off;
    var (qs, last) := (Again(LpmKind, b, params), LpmIndex(b.fields, |b.fields|));
    ToEntrySized(LpmKind, b, params);
    forall u: nat | u < |params| ensures qs[u].prefixLength == if u == last then Sum(LpmPrefixes(params)) else 0 {
      BackPrefixIsTotal(b, params, u);
    }
    SaneTypes(b, params);
    if last < |params| && b.fields[last].mtype.LPM? {
      SumSingle(LpmPrefixes(qs), last);
    } else {
      SumZero(LpmPrefixes(params));
      SumZero(LpmPrefixes(qs));
    }
  }

  /** Parameters to an entry, back to parameters and to an entry again: the second
      entry is the first, for every kind of key. */
  lemma {:induction false} ConversionFixpoint(kind: Kind, b: Layout, params: seq<Param>)
    requires Fits(kind, b) && Sane(b, params)
    ensures Ordered(b, params) && Ordered(b, Again(kind, b, params))
    ensures ToEntry(kind, b, Again(kind, b, params)) == ToEntry(kind, b, params)
  {
    hide FieldData, FieldMask, Again, WellBuilt, Joined, RangeWidths, Sum, SaneField, FieldFits;
    var qs := Again(kind, b, params);
    SaneOrderedInv(b, params);
    SaneOrderedInv(b, qs);
    SaneOrdered(kind, b, params);
    forall u: nat | u < |params|
      ensures qs[u].mtype == params[u].mtype && qs[u].key == FieldData(kind, b.fields[u], params[u])
      ensures FieldData(kind, b.fields[u], qs[u]) == FieldData(kind, b.fields[u], params[u])
      ensures Masking(kind) ==> FieldMask(qs[u]) == FieldMask(params[u])
    {
      AgainField(kind, b, params, u);
    }
    assert DataParts(kind, b, qs) == DataParts(kind, b, params);
    assert Masking(kind) ==> MaskParts(b, qs) == MaskParts(b, params);
    WidthsAgain(kind, b, params, qs, |b.inv|);
    if kind.LpmKind? {
      PrefixAgain(b, params);
      LpmTypes(b, params, params);
      LpmTypes(b, params, qs);
      StoredPrefix(b, params);
      StoredPrefix(b, qs);
    }
  }

  lemma {:induction false} LpmTypes(b: Layout, params: seq<Param>, qs: seq<Param>)
    requires Fits(LpmKind, b) && Sane(b, params) && |qs| == |params|
    requires forall u :: 0 <= u < |params| ==> qs[u].mtype == params[u].mtype && |qs[u].key| == |params[u].key|
    ensures LpmTyped(b, qs)
  {}

  // ----- the sanity check ---------------------------------------------------

  /** match_params_sanity_check of one parameter. */
  method CheckField(f: KeyF, p: Param) returns (ok: bool)
    ensures ok <==> SaneField(f, p)
  {
    if p.mtype != f.mtype { return false; }
    var nbytes := NBytes(f.nbits);
    if |p.key| != nbytes { return false; }
    match p.mtype
    case LPM =>
      // compared as an unsigned number: a negative length is too large
      return 0 <= p.prefixLength <= f.nbits;
    case TERNARY => return |p.mask| == nbytes;
    case RANGE =>
      if |p.mask| != nbytes { return false; }
      MemCmpIsNumeric(p.key, p.mask);
      return MemCmp(p.key, p.mask) <= 0;
    case _ => return true;
  }

  /** The check goes through the stored order and accepts exactly the parameters
      that are sane in program order. */
  method SanityCheck(b: Layout, params: seq<Param>) returns (ok: bool)
    requires WellBuilt(b)
    ensures ok <==> Sane(b, params)
  {
    hide SaneField, Off;
    if |params| != |b.input| { return false; }
    for i := 0 to |b.inv|
      invariant forall j :: 0 <= j < i ==> SaneField(b.fields[b.inv[j]], params[b.inv[j]])
    {
      var sane := CheckField(b.input[i], params[b.inv[i]]);
      if !sane { return false; }
    }
    forall u: nat | u < |params| ensures SaneField(b.fields[u], params[u]) {
      MappedField(b, u);
    }
    return true;
  }

  lemma {:induction false} AndSmaller(x: Byte, m: Byte)
    ensures Nat(And(x, m)) <= Nat(x)
  {
    MaskedNat(x, m, 8);
    assert x[..8] == x && And(x, m)[..8] == And(x, m);
  }

  lemma {:induction false} MaskedNat(x: Byte, m: Byte, n: nat)
    requires n <= 8
    ensures Nat(And(x, m)[..n]) <= Nat(x[..n])
  {
    if n > 0 {
      MaskedNat(x, m, n - 1);
      assert And(x, m)[..n][..n - 1] == And(x, m)[..n - 1] && x[..n][..n - 1] == x[..n - 1];
    }
  }

  lemma {:induction false} MaskFirstSmaller(key: seq<Byte>, nbits: nat)
    ensures BigEndian(MaskFirst(key, nbits)) <= BigEndian(key)
  {
    hide Nat;
    if |key| == 1 {
      AndSmaller(key[0], Byte0Mask(nbits));
      assert key[..0] == MaskFirst(key, nbits)[..0];
    } else if key != [] {
      var n := |key| - 1;
      MaskFirstSmaller(key[..n], nbits);
      assert MaskFirst(key, nbits)[..n] == MaskFirst(key[..n], nbits);
    }
  }

  /** The recovered prefix length fits its field. */
  ghost predicate PrefixFits(kind: Kind, b: Layout, params: seq<Param>) {
    var last := LpmIndex(b.fields, |b.fields|);
    kind.LpmKind? && last < |b.fields| && b.fields[last].mtype.LPM? ==> Sum(LpmPrefixes(params)) <= b.fields[last].nbits
  }

  /** Parameters read back from an entry pass the sanity check again, but for an LPM
      table with several LPM fields whose prefix lengths together exceed the last: it
      then fails. */
  lemma {:induction false} AgainSane(kind: Kind, b: Layout, params: seq<Param>)
    requires Fits(kind, b) && Sane(b, params)
    ensures Sane(b, Again(kind, b, params)) <==> PrefixFits(kind, b, params)
  {
    hide Again, WellBuilt, FieldFits, SaneField, Sum;
    var (qs, last) := (Again(kind, b, params), LpmIndex(b.fields, |b.fields|));
    forall u: nat | u < |params|
      ensures SaneField(b.fields[u], qs[u]) <==>
                (kind.LpmKind? && b.fields[u].mtype.LPM? && u == last ==> Sum(LpmPrefixes(params)) <= b.fields[u].nbits)
    {
      SaneAgainField(kind, b, params, u);
    }
    if !PrefixFits(kind, b, params) { assert !SaneField(b.fields[last], qs[last]); }
  }

  lemma {:induction false} SaneAgainField(kind: Kind, b: Layout, params: seq<Param>, u: nat)
    requires Fits(kind, b) && Sane(b, params) && u < |params|
    ensures var last := LpmIndex(b.fields, |b.fields|);
            SaneField(b.fields[u], Again(kind, b, params)[u]) <==>
              (kind.LpmKind? && b.fields[u].mtype.LPM? && u == last ==> Sum(LpmPrefixes(params)) <= b.fields[u].nbits)
  {
    hide Again, WellBuilt, FieldMask, MaskFirst, BigEndian, Sum, FieldFits;
    AgainField(kind, b, params, u);
    MaskFirstSmaller(params[u].key, b.fields[u].nbits);
    MaskingNeverLpm(kind);
    if kind.LpmKind? {
      AgainPrefix(b, params, u);
      PrefixesPositive(b, params);
    }
    FieldFitsLpm(kind, b, u);
  }

  lemma {:induction false} MaskingNeverLpm(kind: Kind)
    ensures kind.LpmKind? ==> !Masking(kind)
  {}

  lemma {:induction false} FieldFitsLpm(kind: Kind, b: Layout, u: nat)
    requires Fits(kind, b) && u < |b.fields|
    ensures b.fields[u].mtype.LPM? ==> kind.LpmKind? || Masking(kind)
  {
    hide WellBuilt;
  }

  lemma {:induction false} AgainPrefix(b: Layout, params: seq<Param>, u: nat)
    requires Fits(LpmKind, b) && Sane(b, params) && u < |params|
    ensures Again(LpmKind, b, params)[u].prefixLength ==
            if u == LpmIndex(b.fields, |b.fields|) then Sum(LpmPrefixes(params)) else 0
  {
    hide WellBuilt, Sum, Joined, ToEntry, FieldOf, SaneField, Off;
    ToEntrySized(LpmKind, b, params);
    BackPrefixIsTotal(b, params, u);
  }

  lemma {:induction false} PrefixesPositive(b: Layout, params: seq<Param>)
    requires Sane(b, params)
    ensures Sum(LpmPrefixes(params)) >= 0
  {
    hide BigEndian;
    var xs := LpmPrefixes(params);
    assert forall u :: 0 <= u < |xs| ==> xs[u] >= 0;
    SumGrows(xs, 0, |xs|);
    assert xs[..|xs|] == xs && Sum(xs[..0]) == 0;
  }
}
