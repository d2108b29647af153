/** What a stored key matches: exactly the packets whose fields match the parameters
    one by one, byte for byte, whatever the order in which the fields are stored.
    What that means for the values of the fields is the subject of ValueMeaning. */
module MatchMeaning {
  import opened Bits
  import opened Sequences
  import opened MatchKeys
  import opened EntryLists
  import opened MatchParams
  import opened MatchConversion

  // ----- field by field -----------------------------------------------------

  /** y agrees with d in the first p bits. */
  ghost predicate PrefixAgrees(y: seq<Byte>, d: seq<Byte>, p: nat)
    requires |y| == |d|
  {
    forall k :: 0 <= k < p && k < 8 * |y| ==> BitsOf(y)[k] == BitsOf(d)[k]
  }

  ghost predicate AgreesUnder(y: seq<Byte>, d: seq<Byte>, mask: seq<Byte>)
    requires |y| == |d| == |mask|
  {
    AndAll(y, mask) == AndAll(d, mask)
  }

  /** What a parameter asks of the bytes y of its field, padding included. */
  ghost predicate FieldMatches(f: KeyF, p: Param, y: seq<Byte>)
    requires |y| == |p.key|
  {
    var d := MaskFirst(p.key, f.nbits);
    match p.mtype
    case VALID => y == d
    case EXACT => y == d
    case LPM => p.prefixLength >= 0 && PrefixAgrees(y, d, p.prefixLength)
    case TERNARY => |p.mask| == |y| && AgreesUnder(y, d, p.mask)
    case RANGE => |p.mask| == |y| && BigEndian(d) <= BigEndian(y) <= BigEndian(p.mask)
  }

  ghost predicate AllMatch(b: Layout, params: seq<Param>, x: seq<Byte>)
    requires WellBuilt(b) && Sane(b, params) && |x| == Off(b.fields, |b.fields|)
  {
    forall u :: 0 <= u < |params| ==> FieldMatches(b.fields[u], params[u], FieldOf(b, x, u))
  }

  lemma {:induction false} OnesChangeNothing(y: Byte)
    ensures And(y, ONES) == y
  {}

  lemma {:induction false} LeadingAgrees(y: Byte, d: Byte, n: int)
    ensures And(y, Leading(n)) == And(d, Leading(n)) <==> forall k :: 0 <= k < 8 && k < n ==> y[k] == d[k]
  {
    assert forall k :: 0 <= k < 8 ==>
           And(y, Leading(n))[k] == (y[k] && k < n) && And(d, Leading(n))[k] == (d[k] && k < n);
    if And(y, Leading(n)) == And(d, Leading(n)) {
      forall k | 0 <= k < 8 && k < n ensures y[k] == d[k] {
        assert And(y, Leading(n))[k] == And(d, Leading(n))[k];
      }
    } else {
      assert And(y, Leading(n)) != And(d, Leading(n));
    }
  }

  /** Under a prefix mask, agreeing is agreeing in the prefix. */
  lemma {:induction false} PrefixMaskAgrees(y: seq<Byte>, d: seq<Byte>, p: nat)
    requires |y| == |d|
    ensures AgreesUnder(y, d, PrefixMask(p, |y|)) <==> PrefixAgrees(y, d, p)
  {
    var m := PrefixMask(p, |y|);
    forall i: nat | i < |y|
      ensures AndAll(y, m)[i] == AndAll(d, m)[i] <==> forall k :: 0 <= k < 8 && k < p - 8 * i ==> y[i][k] == d[i][k]
    {
      LeadingAgrees(y[i], d[i], p - 8 * i);
    }
    if AgreesUnder(y, d, m) {
      forall k | 0 <= k < p && k < 8 * |y| ensures BitsOf(y)[k] == BitsOf(d)[k] {
        assert AndAll(y, m)[k / 8] == AndAll(d, m)[k / 8];
      }
    }
    if PrefixAgrees(y, d, p) {
      forall i: nat | i < |y| ensures AndAll(y, m)[i] == AndAll(d, m)[i] {
        forall k | 0 <= k < 8 && k < p - 8 * i ensures y[i][k] == d[i][k] {
          assert BitsOf(y)[8 * i + k] == BitsOf(d)[8 * i + k];
        }
      }
    }
  }

  lemma {:induction false} OnesAgree(y: seq<Byte>, d: seq<Byte>)
    requires |y| == |d|
    ensures AgreesUnder(y, d, AllOnes(|y|)) <==> y == d
  {
    var m := AllOnes(|y|);
    forall i | 0 <= i < |y| ensures AndAll(y, m)[i] == y[i] && AndAll(d, m)[i] == d[i] {
      OnesChangeNothing(y[i]);
      OnesChangeNothing(d[i]);
    }
    assert AndAll(y, m) == y && AndAll(d, m) == d;
  }

  /** For every type but a range, a parameter asks for agreement under its mask. */
  lemma {:induction false} FieldMatchIsMasked(kind: Kind, f: KeyF, p: Param, y: seq<Byte>)
    requires FieldFits(kind, f) && SaneField(f, p) && |y| == |p.key| && !p.mtype.RANGE?
    ensures |FieldMask(p)| == |y|
    ensures FieldMatches(f, p, y) <==> AgreesUnder(y, MaskFirst(p.key, f.nbits), FieldMask(p))
  {
    MaskSized(kind, f, p);
    hide MaskFirst, AgreesUnder, PrefixAgrees, BigEndian;
    var d := MaskFirst(p.key, f.nbits);
    OnesAgree(y, d);
    assert p.mtype.VALID? ==> FieldMask(p) == AllOnes(|y|);
    if p.mtype.LPM? { PrefixMaskAgrees(y, d, p.prefixLength); }
  }

  // ----- the whole key ------------------------------------------------------

  ghost predicate MaskedField(b: Layout, x: seq<Byte>, data: seq<Byte>, mask: seq<Byte>, u: nat)
    requires WellBuilt(b) && u < |b.fields| && |x| == |data| == |mask| == Off(b.fields, |b.fields|)
  {
    FieldOf(b, data, u) == AndAll(FieldOf(b, x, u), FieldOf(b, mask, u))
  }

  // Field u holds the bytes of the key from its offset on.
  lemma {:induction false} ByteOfField(b: Layout, key: seq<Byte>, u: nat, k: nat)
    requires WellBuilt(b) && u < |b.fields| && |key| == Off(b.fields, |b.fields|) && Covers(b, u, k)
    ensures k < |key| && 0 <= k - b.offsets[u] < NBytes(b.fields[u].nbits)
    ensures FieldOf(b, key, u)[k - b.offsets[u]] == key[k]
  {
    InsideKey(b, u);
  }

  lemma {:induction false} FieldStart(b: Layout, u: nat, r: nat, k: nat)
    requires WellBuilt(b) && u < |b.fields| && r <= |b.input| && Covers(b, u, k)
    ensures |b.mapping| == |b.fields| && (b.mapping[u] >= r <==> k >= Off(b.input, r))
  {
    hide Off, Reordered, WellBuilt;
    MappedField(b, u);
    OffNext(b.input, b.mapping[u]);
    if b.mapping[u] >= r { OffGrows(b.input, r, b.mapping[u]); } else { OffGrows(b.input, b.mapping[u] + 1, r); }
  }

  ghost predicate MaskedFields(b: Layout, x: seq<Byte>, data: seq<Byte>, mask: seq<Byte>, r: nat)
    requires WellBuilt(b) && |x| == |data| == |mask| == Off(b.fields, |b.fields|)
  {
    forall u :: 0 <= u < |b.fields| && b.mapping[u] >= r ==> MaskedField(b, x, data, mask, u)
  }

  ghost predicate MaskedBytes(x: seq<Byte>, data: seq<Byte>, mask: seq<Byte>, w: nat)
    requires |x| == |data| == |mask|
  {
    forall k :: w <= k < |x| ==> data[k] == And(x[k], mask[k])
  }

  lemma {:induction false} BytesGiveField(b: Layout, x: seq<Byte>, data: seq<Byte>, mask: seq<Byte>, r: nat, u: nat)
    requires WellBuilt(b) && |x| == |data| == |mask| == Off(b.fields, |b.fields|) && r <= |b.input|
    requires MaskedBytes(x, data, mask, Off(b.input, r)) && u < |b.fields| && b.mapping[u] >= r
    ensures MaskedField(b, x, data, mask, u)
  {
    hide Off, FieldOf, WellBuilt;
    MappedField(b, u);
    var (d, y, m) := (FieldOf(b, data, u), FieldOf(b, x, u), FieldOf(b, mask, u));
    forall j: nat | j < |d| ensures d[j] == And(y[j], m[j]) {
      var k := b.offsets[u] + j;
      ByteOfField(b, data, u, k);
      ByteOfField(b, x, u, k);
      ByteOfField(b, mask, u, k);
      FieldStart(b, u, r, k);
    }
  }

  lemma {:induction false} FieldsGiveByte(b: Layout, x: seq<Byte>, data: seq<Byte>, mask: seq<Byte>, r: nat, k: nat)
    requires WellBuilt(b) && |x| == |data| == |mask| == Off(b.fields, |b.fields|) && r <= |b.input|
    requires MaskedFields(b, x, data, mask, r) && Off(b.input, r) <= k < |x|
    ensures data[k] == And(x[k], mask[k])
  {
    hide Off, FieldOf, WellBuilt;
    var u := Tiling(b, k);
    FieldStart(b, u, r, k);
    assert MaskedField(b, x, data, mask, u);
    ByteOfField(b, data, u, k);
    ByteOfField(b, x, u, k);
    ByteOfField(b, mask, u, k);
  }

  /** Bytes agree under the mask from the start of stored field r on exactly when
      all fields stored there do. */
  lemma {:induction false} MaskedByField(b: Layout, x: seq<Byte>, data: seq<Byte>, mask: seq<Byte>, r: nat)
    requires WellBuilt(b) && |x| == |data| == |mask| == Off(b.fields, |b.fields|) && r <= |b.input|
    ensures MaskedBytes(x, data, mask, Off(b.input, r)) <==> MaskedFields(b, x, data, mask, r)
  {
    hide Off, MaskedField, Permutation, Before;
    if MaskedBytes(x, data, mask, Off(b.input, r)) {
      forall u: nat | u < |b.fields| && b.mapping[u] >= r ensures MaskedField(b, x, data, mask, u) {
        BytesGiveField(b, x, data, mask, r, u);
      }
    }
    if MaskedFields(b, x, data, mask, r) {
      forall k: nat | Off(b.input, r) <= k < |x| ensures data[k] == And(x[k], mask[k]) {
        FieldsGiveByte(b, x, data, mask, r, k);
      }
    }
  }

  /** The key that TernaryMap or RangeMap stores for an entry. */
  function StoredKey(kind: Kind, e: EntryKey, priority: int): Key {
    if kind.RangeKind? then Range(e.data, e.mask, priority, e.widths) else Ternary(e.data, e.mask, priority)
  }

  ghost function StartIndex(kind: Kind, b: Layout): nat {
    if kind.RangeKind? then Leads(b.input, 0) else 0
  }

  lemma {:induction false} StoredWidths(kind: Kind, b: Layout, params: seq<Param>, priority: int)
    requires Fits(kind, b) && Sane(b, params) && Masking(kind)
    ensures Ordered(b, params)
    ensures var ws := Widths(StoredKey(kind, ToEntry(kind, b, params), priority));
            |ws| == StartIndex(kind, b) <= |b.input| && Sum(ws) == Off(b.input, StartIndex(kind, b))
            && forall j :: 0 <= j < |ws| ==> ws[j] == NBytes(b.input[j].nbits)
  {
    hide WellBuilt, Off, Leads, FieldFits, RangeWidths, Joined, Sum;
    SaneOrderedInv(b, params);
    if kind.RangeKind? {
      RangeBytes(b, params);
      WidthsShape(b, params, |b.inv|);
    } else {
      OffNone(b.input);
      SumNone([]);
    }
  }

  lemma {:induction false} StoredWellFormed(kind: Kind, b: Layout, params: seq<Param>, priority: int)
    requires Fits(kind, b) && Sane(b, params) && Masking(kind)
    ensures Ordered(b, params)
    ensures WellFormed(StoredKey(kind, ToEntry(kind, b, params), priority), Off(b.fields, |b.fields|))
  {
    hide WellBuilt, Off, Leads, FieldFits, RangeWidths, Joined, Sum, SaneField, DataParts, MaskParts;
    ToEntrySized(kind, b, params);
    StoredWidths(kind, b, params, priority);
    StartInside(b, StartIndex(kind, b));
  }

  lemma {:induction false} MaskedIffMatches(kind: Kind, b: Layout, params: seq<Param>, x: seq<Byte>, u: nat)
    requires Fits(kind, b) && Sane(b, params) && Masking(kind) && |x| == Off(b.fields, |b.fields|)
    requires u < |b.fields| && !b.fields[u].mtype.RANGE?
    ensures Ordered(b, params) && EntrySized(kind, b, ToEntry(kind, b, params))
    ensures MaskedField(b, x, ToEntry(kind, b, params).data, ToEntry(kind, b, params).mask, u)
       <==> FieldMatches(b.fields[u], params[u], FieldOf(b, x, u))
  {
    hide WellBuilt, Off, FieldOf, ToEntry, FieldFits, SaneField, MaskFirst, FieldMask, FieldMatches, AndAll;
    FieldOfEntry(kind, b, params, u);
    FieldKind(kind, b.fields[u], params[u]);
    FieldMatchIsMasked(kind, b.fields[u], params[u], FieldOf(b, x, u));
  }

  // A range field is stored where the widths before it say.
  lemma {:induction false} RangeIffMatches(b: Layout, params: seq<Param>, x: seq<Byte>, priority: int, j: nat)
    requires Fits(RangeKind, b) && Sane(b, params) && |x| == Off(b.fields, |b.fields|)
    requires Ordered(b, params) && WellFormed(StoredKey(RangeKind, ToEntry(RangeKind, b, params), priority), |x|)
    requires j < Leads(b.input, 0) && j < |Widths(StoredKey(RangeKind, ToEntry(RangeKind, b, params), priority))|
    ensures b.inv[j] < |b.fields|
    ensures RangeHolds(x, StoredKey(RangeKind, ToEntry(RangeKind, b, params), priority), j)
       <==> FieldMatches(b.fields[b.inv[j]], params[b.inv[j]], FieldOf(b, x, b.inv[j]))
  {
    hide WellBuilt, Off, FieldFits, BigEndian, MaskFirst, ToEntry, Sum, Leads, WellFormed;
    var u := b.inv[j];
    StoredField(b, j);
    var e := ToEntry(RangeKind, b, params);
    var ws := Widths(StoredKey(RangeKind, e, priority));
    StoredWidths(RangeKind, b, params, priority);
    WidthsSum(b.input, ws, j);
    FieldOfEntry(RangeKind, b, params, u);
    RangesLead(b, j);
  }

  lemma {:induction false} StoredField(b: Layout, i: nat)
    requires WellBuilt(b) && i < |b.inv|
    ensures |b.inv| == |b.input| && b.inv[i] < |b.fields| && |b.mapping| == |b.fields| && b.mapping[b.inv[i]] == i
    ensures b.input[i] == b.fields[b.inv[i]] && |b.offsets| == |b.fields| && b.offsets[b.inv[i]] == Off(b.input, i)
  {
    hide Off;
  }

  ghost predicate PartMatches(b: Layout, params: seq<Param>, x: seq<Byte>, r: nat, low: bool)
    requires WellBuilt(b) && Sane(b, params) && |x| == Off(b.fields, |b.fields|)
  {
    forall u :: 0 <= u < |params| && (b.mapping[u] < r) == low ==>
      FieldMatches(b.fields[u], params[u], FieldOf(b, x, u))
  }

  lemma {:induction false} TailMeaning(kind: Kind, b: Layout, params: seq<Param>, x: seq<Byte>)
    requires Fits(kind, b) && Sane(b, params) && Masking(kind) && |x| == Off(b.fields, |b.fields|)
    ensures Ordered(b, params) && EntrySized(kind, b, ToEntry(kind, b, params)) && StartIndex(kind, b) <= |b.input|
    ensures MaskedBytes(x, ToEntry(kind, b, params).data, ToEntry(kind, b, params).mask,
            Off(b.input, StartIndex(kind, b)))
       <==> PartMatches(b, params, x, StartIndex(kind, b), false)
  {
    hide Off, FieldOf, ToEntry, FieldFits, BigEndian, FieldMatches, Leads, MaskedField, Permutation, Before,
         MaskedBytes;
    ToEntrySized(kind, b, params);
    var (e, r) := (ToEntry(kind, b, params), StartIndex(kind, b));
    MaskedByField(b, x, e.data, e.mask, r);
    forall u: nat | u < |b.fields| && b.mapping[u] >= r
      ensures MaskedField(b, x, e.data, e.mask, u) <==> FieldMatches(b.fields[u], params[u], FieldOf(b, x, u))
    {
      NotRange(kind, b, u);
      MaskedIffMatches(kind, b, params, x, u);
    }
  }

  lemma {:induction false} NotRange(kind: Kind, b: Layout, u: nat)
    requires Fits(kind, b) && Masking(kind) && u < |b.fields| && b.mapping[u] >= StartIndex(kind, b)
    ensures !b.fields[u].mtype.RANGE?
  {
    hide Off, WellBuilt, Leads;
    MappedField(b, u);
    RangesLead(b, b.mapping[u]);
    assert FieldFits(kind, b.fields[u]);
  }

  lemma {:induction false} HeadMeaning(kind: Kind, b: Layout, params: seq<Param>, x: seq<Byte>, priority: int)
    requires Fits(kind, b) && Sane(b, params) && Masking(kind) && |x| == Off(b.fields, |b.fields|)
    requires Ordered(b, params) && WellFormed(StoredKey(kind, ToEntry(kind, b, params), priority), |x|)
    ensures RangesHold(x, StoredKey(kind, ToEntry(kind, b, params), priority),
            |Widths(StoredKey(kind, ToEntry(kind, b, params), priority))|)
       <==> PartMatches(b, params, x, StartIndex(kind, b), true)
  {
    hide Off, FieldOf, ToEntry, FieldFits, BigEndian, FieldMatches, Leads, Permutation, Before, RangeHolds, WellFormed;
    var (k, r) := (StoredKey(kind, ToEntry(kind, b, params), priority), StartIndex(kind, b));
    StoredWidths(kind, b, params, priority);
    forall j: nat | j < r
      ensures RangeHolds(x, k, j) <==> FieldMatches(b.fields[b.inv[j]], params[b.inv[j]], FieldOf(b, x, b.inv[j]))
    {
      RangeIffMatches(b, params, x, priority, j);
    }
    if RangesHold(x, k, r) {
      forall u: nat | u < |params| && b.mapping[u] < r ensures FieldMatches(b.fields[u], params[u], FieldOf(b, x, u)) {
        assert RangeHolds(x, k, b.mapping[u]);
      }
    }
    if PartMatches(b, params, x, r, true) {
      forall j: nat | j < r ensures RangeHolds(x, k, j) { StoredField(b, j); }
    }
  }

  /** A ternary or range entry matches exactly the keys whose fields match all
      parameters. */
  lemma {:induction false} TernaryMeaning(kind: Kind, b: Layout, params: seq<Param>, x: seq<Byte>, priority: int)
    requires Fits(kind, b) && Sane(b, params) && Masking(kind) && |x| == Off(b.fields, |b.fields|)
    ensures Ordered(b, params) && WellFormed(StoredKey(kind, ToEntry(kind, b, params), priority), |x|)
    ensures Matches(x, StoredKey(kind, ToEntry(kind, b, params), priority)) <==> AllMatch(b, params, x)
  {
    hide WellBuilt, Off, FieldOf, ToEntry, SaneField, FieldMatches, Leads, RangesHold, FieldFits;
    StoredWellFormed(kind, b, params, priority);
    TailMeaning(kind, b, params, x);
    HeadMeaning(kind, b, params, x, priority);
    StoredWidths(kind, b, params, priority);
    SplitMatches(b, params, x, StartIndex(kind, b));
  }

  lemma {:induction false} SplitMatches(b: Layout, params: seq<Param>, x: seq<Byte>, r: nat)
    requires WellBuilt(b) && Sane(b, params) && |x| == Off(b.fields, |b.fields|)
    ensures AllMatch(b, params, x) <==> PartMatches(b, params, x, r, true) && PartMatches(b, params, x, r, false)
  {
    hide Off, FieldOf, FieldMatches, SaneField;
  }

  // ----- LPM and exact keys -------------------------------------------------

  /** At most one field is LPM, as the tables of a P4 program have it. */
  ghost predicate SingleLpm(fields: seq<KeyF>) {
    forall u, v :: 0 <= u < v < |fields| ==> !(fields[u].mtype.LPM? && fields[v].mtype.LPM?)
  }

  /** The LPM field is stored last. */
  lemma {:induction false} LpmLast(b: Layout, i: nat)
    requires Fits(LpmKind, b) && SingleLpm(b.fields) && i < |b.input| - 1
    ensures !b.input[i].mtype.LPM?
  {
    hide Off, InverseOf;
    var n := |b.input| - 1;
    assert Before(b.fields, b.inv[i], b.inv[n]) && b.inv[i] != b.inv[n];
    assert FieldFits(LpmKind, b.fields[b.inv[n]]);
  }

  lemma {:induction false} PrefixConcat(a: nat, p: nat, n: nat)
    ensures PrefixMask(8 * a, a) + PrefixMask(p, n) == PrefixMask(8 * a + p, a + n)
  {
    var (l, r) := (PrefixMask(8 * a, a) + PrefixMask(p, n), PrefixMask(8 * a + p, a + n));
    forall i | 0 <= i < a + n ensures l[i] == r[i] {
      if i < a { LeadingFull(8 * a - 8 * i, 8 * a + p - 8 * i); }
    }
  }

  lemma {:induction false} LeadingFull(m: int, n: int)
    requires m >= 8 && n >= 8
    ensures Leading(m) == Leading(n) == ONES
  {}

  // Every mask of an LPM key is a prefix mask.
  lemma {:induction false} LpmFieldMask(f: KeyF, p: Param)
    requires FieldFits(LpmKind, f) && SaneField(f, p)
    ensures PrefixTerm(p) >= 0 && FieldMask(p) == PrefixMask(PrefixTerm(p), NBytes(f.nbits))
    ensures !f.mtype.LPM? ==> PrefixTerm(p) == 8 * NBytes(f.nbits)
  {
    hide BigEndian;
    MaskSized(LpmKind, f, p);
    if !p.mtype.LPM? {
      forall i | 0 <= i < NBytes(f.nbits) ensures Leading(8 * NBytes(f.nbits) - 8 * i) == ONES {
        LeadingFull(8 * NBytes(f.nbits) - 8 * i, 8);
      }
    }
  }

  lemma {:induction false} LpmMaskJoined(b: Layout, params: seq<Param>, n: nat)
    requires Fits(LpmKind, b) && Sane(b, params) && SingleLpm(b.fields) && n <= |b.input| && Ordered(b, params)
    ensures Joined(MaskParts(b, params)[..n]) == PrefixMask(Sum(PrefixTerms(b, params)[..n]), Off(b.input, n))
    ensures n < |b.input| ==> Sum(PrefixTerms(b, params)[..n]) == 8 * Off(b.input, n)
    ensures Sum(PrefixTerms(b, params)[..n]) >= 0
  {
    hide WellBuilt, Off, Joined, Sum, FieldFits, SaneField, FieldMask, PrefixTerm, SingleLpm;
    var (masks, terms) := (MaskParts(b, params), PrefixTerms(b, params));
    if n == 0 {
      OffNone(b.input);
      NoneJoined(masks);
      SumNone(terms);
    } else {
      LpmMaskJoined(b, params, n - 1);
      JoinedNext(masks, n - 1);
      SumNext(terms, n - 1);
      OffNext(b.input, n - 1);
      Unmasked(LpmKind, b, params, n - 1);
      LpmFieldMask(b.input[n - 1], params[b.inv[n - 1]]);
      PrefixConcat(Off(b.input, n - 1), terms[n - 1], NBytes(b.input[n - 1].nbits));
      if n < |b.input| { LpmLast(b, n - 1); }
    }
  }

  lemma {:induction false} LpmMaskIsPrefix(b: Layout, params: seq<Param>)
    requires Fits(LpmKind, b) && Sane(b, params) && SingleLpm(b.fields)
    ensures Ordered(b, params) && ToEntry(LpmKind, b, params).prefixLength >= 0
    ensures Joined(MaskParts(b, params)) ==
            PrefixMask(ToEntry(LpmKind, b, params).prefixLength, Off(b.fields, |b.fields|))
  {
    hide Off, Joined, Sum, FieldFits, SaneField, FieldMask, PrefixTerm, SingleLpm, InverseOf;
    SaneOrderedInv(b, params);
    SameLength(b);
    LpmMaskJoined(b, params, |b.input|);
    var (masks, terms) := (MaskParts(b, params), PrefixTerms(b, params));
    assert masks[..|masks|] == masks && terms[..|terms|] == terms;
  }

  lemma {:induction false} TermBounded(f: KeyF, p: Param)
    requires FieldFits(LpmKind, f) && SaneField(f, p)
    ensures PrefixTerm(p) <= 8 * NBytes(f.nbits)
  {
    hide BigEndian;
  }

  lemma {:induction false} PrefixBounded(b: Layout, params: seq<Param>, n: nat)
    requires Fits(LpmKind, b) && Sane(b, params) && n <= |b.input| && Ordered(b, params)
    ensures Sum(PrefixTerms(b, params)[..n]) <= 8 * Off(b.input, n)
  {
    hide WellBuilt, Off, Sum, FieldFits, SaneField, PrefixTerm;
    var terms := PrefixTerms(b, params);
    if n == 0 {
      OffNone(b.input);
      SumNone(terms);
    } else {
      PrefixBounded(b, params, n - 1);
      SumNext(terms, n - 1);
      OffNext(b.input, n - 1);
      Unmasked(LpmKind, b, params, n - 1);
      TermBounded(b.input[n - 1], params[b.inv[n - 1]]);
    }
  }

  /** The stored prefix is no longer than the key. */
  lemma {:induction false} LpmPrefixFits(b: Layout, params: seq<Param>)
    requires Fits(LpmKind, b) && Sane(b, params)
    ensures Ordered(b, params) && ToEntry(LpmKind, b, params).prefixLength <= 8 * Off(b.fields, |b.fields|)
  {
    hide Off, Joined, Sum, FieldFits, SaneField, InverseOf;
    SaneOrderedInv(b, params);
    SameLength(b);
    PrefixBounded(b, params, |b.input|);
    assert PrefixTerms(b, params)[..|b.input|] == PrefixTerms(b, params);
  }

  lemma {:induction false} AsTernary(kind: Kind, b: Layout)
    requires Fits(kind, b) && !kind.RangeKind?
    ensures Fits(TernaryKind, b)
  {
    hide WellBuilt;
  }

  // The data of an LPM entry under its mask is that of the ternary entry.
  lemma {:induction false} LpmUnderMask(b: Layout, params: seq<Param>)
    requires Fits(LpmKind, b) && Sane(b, params)
    ensures Ordered(b, params) && Fits(TernaryKind, b)
    ensures var (l, t) := (ToEntry(LpmKind, b, params), ToEntry(TernaryKind, b, params));
            |l.data| == |t.mask| && AndAll(l.data, t.mask) == t.data
  {
    hide WellBuilt, Off, Joined, Sum, FieldFits, SaneField, FieldMask, MaskFirst;
    AsTernary(LpmKind, b);
    MaskWhole(TernaryKind, b, params);
    assert DataParts(LpmKind, b, params) == DataParts(ExactKind, b, params);
    assert AndFrom(Joined(DataParts(ExactKind, b, params)), Joined(MaskParts(b, params)), 0)
        == AndAll(Joined(DataParts(ExactKind, b, params)), Joined(MaskParts(b, params)));
  }

  lemma {:induction false} MatchesUnder(x: seq<Byte>, data: seq<Byte>, mask: seq<Byte>, priority: int)
    requires |x| == |data| == |mask|
    ensures WellFormed(Ternary(data, mask, priority), |x|)
    ensures Matches(x, Ternary(data, mask, priority)) <==> AndAll(x, mask) == data
  {
    var k := Ternary(data, mask, priority);
    assert Widths(k) == [] && Sum(Widths(k)) == 0;
    assert Matches(x, k) <==> forall i :: 0 <= i < |x| ==> data[i] == And(x[i], mask[i]);
  }

  /** The masks of the fields, in the stored order, make up the mask of the stored
      prefix. With one LPM field, which is stored last, they do. */
  ghost predicate PrefixMasked(b: Layout, params: seq<Param>)
    requires Ordered(b, params)
  {
    Joined(MaskParts(b, params)) == PrefixMask(ToEntry(LpmKind, b, params).prefixLength, Off(b.fields, |b.fields|))
  }

  // Both sides of the meaning are agreement with the stored data, under two masks.
  lemma {:induction false} LpmSides(b: Layout, params: seq<Param>, x: seq<Byte>)
    requires Fits(LpmKind, b) && Sane(b, params) && |x| == Off(b.fields, |b.fields|)
    ensures Ordered(b, params) && |ToEntry(LpmKind, b, params).data| == |x| == |Joined(MaskParts(b, params))|
    ensures ToEntry(LpmKind, b, params).prefixLength >= 0
    ensures var l := ToEntry(LpmKind, b, params);
            && (PrefixAgrees(x, l.data, l.prefixLength) <==> AgreesUnder(x, l.data, PrefixMask(l.prefixLength, |x|)))
            && (AllMatch(b, params, x) <==> AgreesUnder(x, l.data, Joined(MaskParts(b, params))))
  {
    ToEntrySized(LpmKind, b, params);
    PrefixPositive(b, params);
    LpmUnderMask(b, params);
    ToEntrySized(TernaryKind, b, params);
    var (l, t) := (ToEntry(LpmKind, b, params), ToEntry(TernaryKind, b, params));
    TernaryMeaning(TernaryKind, b, params, x, 0);
    MatchesUnder(x, t.data, t.mask, 0);
    PrefixMaskAgrees(x, l.data, l.prefixLength);
    assert t.mask == Joined(MaskParts(b, params));
    hide *;
  }

  lemma {:induction false} PrefixPositive(b: Layout, params: seq<Param>)
    requires Fits(LpmKind, b) && Sane(b, params)
    ensures Ordered(b, params) && ToEntry(LpmKind, b, params).prefixLength >= 0
  {
    hide Joined, Sum, FieldFits, SaneField, WellBuilt, PrefixTerm;
    SaneOrderedInv(b, params);
    var terms := PrefixTerms(b, params);
    forall i: nat | i < |terms| ensures terms[i] >= 0 {
      Unmasked(LpmKind, b, params, i);
      LpmFieldMask(b.input[i], params[b.inv[i]]);
    }
    SumGrows(terms, 0, |terms|);
    SumNone(terms);
    assert terms[..|terms|] == terms;
  }

  /** A prefix of the stored LPM key matches exactly when all fields match their
      parameters: this is what storing the LPM field last is for. */
  lemma {:induction false} LpmMeaning(b: Layout, params: seq<Param>, x: seq<Byte>)
    requires Fits(LpmKind, b) && Sane(b, params) && SingleLpm(b.fields) && |x| == Off(b.fields, |b.fields|)
    ensures Ordered(b, params) && |ToEntry(LpmKind, b, params).data| == |x|
    ensures ToEntry(LpmKind, b, params).prefixLength >= 0
    ensures PrefixAgrees(x, ToEntry(LpmKind, b, params).data, ToEntry(LpmKind, b, params).prefixLength)
       <==> AllMatch(b, params, x)
  {
    LpmMaskIsPrefix(b, params);
    LpmSides(b, params, x);
    hide *;
  }

  ghost predicate MeansParams(b: Layout, params: seq<Param>, x: seq<Byte>)
    requires WellBuilt(b) && Sane(b, params) && Ordered(b, params)
  {
    var l := ToEntry(LpmKind, b, params);
    |x| == Off(b.fields, |b.fields|) ==>
      |l.data| == |x| && l.prefixLength >= 0 && (PrefixAgrees(x, l.data, l.prefixLength) <==> AllMatch(b, params, x))
  }

  lemma {:induction false} MeansIs(b: Layout, params: seq<Param>, x: seq<Byte>)
    requires Fits(LpmKind, b) && Sane(b, params) && |x| == Off(b.fields, |b.fields|)
    ensures Ordered(b, params) && |ToEntry(LpmKind, b, params).data| == |x| == |Joined(MaskParts(b, params))|
    ensures var (l, n) := (ToEntry(LpmKind, b, params), |x|);
            MeansParams(b, params, x) <==>
              (AgreesUnder(x, l.data, PrefixMask(l.prefixLength, n)) <==>
                AgreesUnder(x, l.data, Joined(MaskParts(b, params))))
  {
    LpmSides(b, params, x);
    hide ToEntry, Joined, MaskParts, Off, WellBuilt, Sane, AgreesUnder, FieldFits, PrefixAgrees, AllMatch;
  }

  /** With any number of LPM fields: the stored prefix means what the parameters say, for
      every packet, if and only if the masks of the fields make up a prefix mask. */
  lemma {:induction false} LpmMeaningIff(b: Layout, params: seq<Param>)
    requires Fits(LpmKind, b) && Sane(b, params)
    ensures Ordered(b, params) && ((forall x :: MeansParams(b, params, x)) <==> PrefixMasked(b, params))
  {
    SaneOrderedInv(b, params);
    hide ToEntry, Joined, MaskParts, Off, WellBuilt, Sane, AgreesUnder, FieldFits, MeansParams, PrefixMasked, Ordered;
    if PrefixMasked(b, params) {
      forall x: seq<Byte> ensures MeansParams(b, params, x) { MaskedMeans(b, params, x); }
    } else {
      var x := UnmaskedFails(b, params);
    }
  }

  lemma {:induction false} MaskedMeans(b: Layout, params: seq<Param>, x: seq<Byte>)
    requires Fits(LpmKind, b) && Sane(b, params) && Ordered(b, params) && PrefixMasked(b, params)
    ensures MeansParams(b, params, x)
  {
    hide ToEntry, Joined, MaskParts, Off, WellBuilt, Sane, AgreesUnder, FieldFits, MeansParams, Ordered;
    if |x| == Off(b.fields, |b.fields|) { MeansIs(b, params, x); } else { OtherLength(b, params, x); }
  }

  lemma {:induction false} UnmaskedFails(b: Layout, params: seq<Param>) returns (x: seq<Byte>)
    requires Fits(LpmKind, b) && Sane(b, params) && Ordered(b, params) && !PrefixMasked(b, params)
    ensures !MeansParams(b, params, x)
  {
    ToEntrySized(LpmKind, b, params);
    var (l, n) := (ToEntry(LpmKind, b, params), Off(b.fields, |b.fields|));
    assert |l.data| == n;
    hide ToEntry, Joined, MaskParts, Off, WellBuilt, Sane, AgreesUnder, FieldFits, MeansParams, Ordered;
    MeansIs(b, params, l.data);
    x := TellsApart(l.data, PrefixMask(l.prefixLength, n), Joined(MaskParts(b, params)));
    MeansIs(b, params, x);
  }

  lemma {:induction false} OtherLength(b: Layout, params: seq<Param>, x: seq<Byte>)
    requires WellBuilt(b) && Sane(b, params) && Ordered(b, params) && |x| != Off(b.fields, |b.fields|)
    ensures MeansParams(b, params, x)
  {
    hide WellBuilt, Off, Sane, ToEntry;
  }

  // Two different masks are told apart by data with one bit changed.
  lemma {:induction false} TellsApart(data: seq<Byte>, m: seq<Byte>, n: seq<Byte>) returns (x: seq<Byte>)
    requires |data| == |m| == |n| && m != n
    ensures |x| == |data| && AgreesUnder(x, data, m) != AgreesUnder(x, data, n)
  {
    var i :| 0 <= i < |m| && m[i] != n[i];
    var k :| 0 <= k < 8 && m[i][k] != n[i][k];
    x := data[i := data[i][k := !data[i][k]]];
    OneBit(data, m, i, k);
    OneBit(data, n, i, k);
  }

  lemma {:induction false} OneBit(data: seq<Byte>, m: seq<Byte>, i: nat, k: nat)
    requires |data| == |m| && i < |m| && k < 8
    ensures var x := data[i := data[i][k := !data[i][k]]]; AgreesUnder(x, data, m) <==> !m[i][k]
  {
    var x := data[i := data[i][k := !data[i][k]]];
    var (l, r) := (And(x[i], m[i]), And(data[i], m[i]));
    assert l[k] == (!data[i][k] && m[i][k]) && r[k] == (data[i][k] && m[i][k]);
    assert forall j :: 0 <= j < 8 && j != k ==> l[j] == r[j];
    assert l == r <==> !m[i][k];
    assert forall j :: 0 <= j < |data| && j != i ==> AndAll(x, m)[j] == AndAll(data, m)[j];
    assert AndAll(x, m)[i] == l && AndAll(data, m)[i] == r;
  }

  /** An exact key equals the stored one exactly when all fields match their
      parameters. */
  lemma {:induction false} ExactMeaning(b: Layout, params: seq<Param>, x: seq<Byte>)
    requires Fits(ExactKind, b) && Sane(b, params) && |x| == Off(b.fields, |b.fields|)
    ensures Ordered(b, params)
    ensures x == ToEntry(ExactKind, b, params).data <==> AllMatch(b, params, x)
  {
    hide Off, FieldOf, FieldFits, ToEntry, MaskFirst, Permutation, Before;
    ToEntrySized(ExactKind, b, params);
    var data := ToEntry(ExactKind, b, params).data;
    forall u: nat | u < |b.fields|
      ensures FieldOf(b, x, u) == FieldOf(b, data, u) <==> FieldMatches(b.fields[u], params[u], FieldOf(b, x, u))
    {
      FieldOfEntry(ExactKind, b, params, u);
      ExactField(b.fields[u], params[u]);
    }
    SameFields(b, x, data);
  }

  lemma {:induction false} ExactField(f: KeyF, p: Param)
    requires FieldFits(ExactKind, f) && SaneField(f, p)
    ensures p.mtype.VALID? || p.mtype.EXACT?
  {}

  lemma {:induction false} SameFields(b: Layout, x: seq<Byte>, y: seq<Byte>)
    requires WellBuilt(b) && |x| == |y| == Off(b.fields, |b.fields|)
    ensures x == y <==> forall u :: 0 <= u < |b.fields| ==> FieldOf(b, x, u) == FieldOf(b, y, u)
  {
    hide WellBuilt, FieldOf, Off;
    if forall u :: 0 <= u < |b.fields| ==> FieldOf(b, x, u) == FieldOf(b, y, u) {
      forall k: nat | k < |x| ensures x[k] == y[k] {
        var u := Tiling(b, k);
        ByteOfField(b, x, u, k);
        ByteOfField(b, y, u, k);
      }
    }
  }

  // ----- the mask of the whole key ------------------------------------------

  /** A parameter whose key is put under the mask of its field. */
  function UnderMask(f: KeyF, p: Param, m: seq<Byte>): Param
    requires |m| == |p.key|
  {
    p.(key := AndAll(MaskFirst(p.key, f.nbits), m))
  }

  function UnderMasks(b: Layout, params: seq<Param>, masks: seq<seq<Byte>>): (r: seq<Param>)
    requires |params| == |masks| == |b.fields| && forall u :: 0 <= u < |params| ==> |masks[u]| == |params[u].key|
    ensures |r| == |params| && forall u :: 0 <= u < |r| ==> r[u] == UnderMask(b.fields[u], params[u], masks[u])
  {
    seq(|params|, u requires 0 <= u < |params| => UnderMask(b.fields[u], params[u], masks[u]))
  }

  lemma {:induction false} AndAllSmaller(x: seq<Byte>, m: seq<Byte>)
    requires |x| == |m|
    ensures BigEndian(AndAll(x, m)) <= BigEndian(x)
  {
    hide Nat;
    if x != [] {
      var n := |x| - 1;
      AndAllSmaller(x[..n], m[..n]);
      AndSmaller(x[n], m[n]);
      assert AndAll(x, m)[..n] == AndAll(x[..n], m[..n]);
    }
  }

  lemma {:induction false} UnderMaskSane(kind: Kind, f: KeyF, p: Param, m: seq<Byte>)
    requires FieldFits(kind, f) && SaneField(f, p) && |m| == |p.key|
    ensures SaneField(f, UnderMask(f, p, m))
  {
    hide BigEndian, MaskFirst;
    MaskFirstSmaller(p.key, f.nbits);
    AndAllSmaller(MaskFirst(p.key, f.nbits), m);
  }

  lemma {:induction false} AndOrder(x: Byte, k: Byte, m: Byte)
    ensures And(And(And(x, k), m), k) == And(And(x, k), m) && And(And(x, m), k) == And(And(x, k), m)
  {
    assert And(And(And(x, k), m), k) == And(And(x, k), m);
    assert And(And(x, m), k) == And(And(x, k), m);
  }

  /** The bytes of a masked parameter are the masked bytes of the parameter, and it has
      the same mask. */
  lemma {:induction false} UnderMaskData(kind: Kind, f: KeyF, p: Param, m: seq<Byte>)
    requires FieldFits(kind, f) && SaneField(f, p) && |m| == |p.key|
    ensures FieldData(kind, f, UnderMask(f, p, m)) == AndAll(FieldData(kind, f, p), m)
    ensures FieldMask(UnderMask(f, p, m)) == FieldMask(p) && PrefixTerm(UnderMask(f, p, m)) == PrefixTerm(p)
  {
    MaskSized(kind, f, p);
    var (d, fm) := (MaskFirst(p.key, f.nbits), FieldMask(p));
    MaskFirstTwice(p.key, f.nbits, m);
    hide MaskFirst, FieldMask;
    SameMask(f, p, m);
    forall i | 0 <= i < |p.key|
      ensures And(And(d[i], m[i]), fm[i]) == And(And(d[i], fm[i]), m[i])
    {
      AndOrder(d[i], fm[i], m[i]);
    }
    assert AndAll(AndAll(d, m), fm) == AndAll(AndAll(d, fm), m);
  }

  lemma {:induction false} SameMask(f: KeyF, p: Param, m: seq<Byte>)
    requires |m| == |p.key|
    ensures FieldMask(UnderMask(f, p, m)) == FieldMask(p)
  {}

  lemma {:induction false} MaskFirstTwice(key: seq<Byte>, nbits: nat, m: seq<Byte>)
    requires |m| == |key|
    ensures MaskFirst(AndAll(MaskFirst(key, nbits), m), nbits) == AndAll(MaskFirst(key, nbits), m)
  {
    if key != [] { AndOrder(key[0], Byte0Mask(nbits), m[0]); }
  }

  lemma {:induction false} FieldOfAnd(b: Layout, x: seq<Byte>, y: seq<Byte>, u: nat)
    requires WellBuilt(b) && u < |b.fields| && |x| == |y| == Off(b.fields, |b.fields|)
    ensures FieldOf(b, AndAll(x, y), u) == AndAll(FieldOf(b, x, u), FieldOf(b, y, u))
  {
    InsideKey(b, u);
    hide Off, WellBuilt;
    OffsetsSized(b);
  }

  /** A table with a mask for the whole key stores what it would store without one for
      parameters under the masks of their fields. So everything said about entries
      and parameters holds of it with those. */
  lemma {:induction false} BigMaskMeaning(kind: Kind, b: Layout, params: seq<Param>, masks: seq<seq<Byte>>,
                                          big: seq<Byte>)
    requires Fits(kind, b) && Sane(b, params) && FieldSized(b, masks) && MasksPlaced(b, masks, big)
    ensures Ordered(b, params) && |params| == |masks| && forall u :: 0 <= u < |params| ==> |masks[u]| == |params[u].key|
    ensures var qs := UnderMasks(b, params, masks);
            && Sane(b, qs) && Ordered(b, qs) && |ToEntry(kind, b, params).data| == |big|
            && ToEntry(kind, b, qs) == ToEntry(kind, b, params).(data := AndAll(ToEntry(kind, b, params).data, big))
  {
    SaneSized(kind, b, params, masks);
    var qs := UnderMasks(b, params, masks);
    UnderMasksSane(kind, b, params, masks);
    ToEntrySized(kind, b, params);
    ToEntrySized(kind, b, qs);
    UnderMasksData(kind, b, params, masks, big);
    UnderMasksRest(kind, b, params, masks);
  }

  lemma {:induction false} SaneSized(kind: Kind, b: Layout, params: seq<Param>, masks: seq<seq<Byte>>)
    requires Fits(kind, b) && Sane(b, params) && FieldSized(b, masks)
    ensures |params| == |masks| == |b.fields| && forall u :: 0 <= u < |params| ==> |masks[u]| == |params[u].key|
    ensures forall u :: 0 <= u < |params| ==> FieldFits(kind, b.fields[u]) && SaneField(b.fields[u], params[u])
  {
    hide WellBuilt, FieldFits, BigEndian;
  }

  lemma {:induction false} UnderMasksSane(kind: Kind, b: Layout, params: seq<Param>, masks: seq<seq<Byte>>)
    requires Fits(kind, b) && Sane(b, params) && FieldSized(b, masks)
    requires |params| == |masks| == |b.fields| && forall u :: 0 <= u < |params| ==> |masks[u]| == |params[u].key|
    ensures Sane(b, UnderMasks(b, params, masks))
  {
    hide SaneField, FieldFits, UnderMask, WellBuilt;
    forall u: nat | u < |params| ensures SaneField(b.fields[u], UnderMasks(b, params, masks)[u]) {
      UnderMaskSane(kind, b.fields[u], params[u], masks[u]);
    }
  }

  lemma {:induction false} UnderMasksData(kind: Kind, b: Layout, params: seq<Param>, masks: seq<seq<Byte>>,
                                          big: seq<Byte>)
    requires Fits(kind, b) && Sane(b, params) && FieldSized(b, masks) && MasksPlaced(b, masks, big)
    requires |params| == |masks| == |b.fields| && forall u :: 0 <= u < |params| ==> |masks[u]| == |params[u].key|
    requires Sane(b, UnderMasks(b, params, masks)) && Ordered(b, params) && Ordered(b, UnderMasks(b, params, masks))
    requires |ToEntry(kind, b, params).data| == |ToEntry(kind, b, UnderMasks(b, params, masks)).data| == |big|
    ensures ToEntry(kind, b, UnderMasks(b, params, masks)).data == AndAll(ToEntry(kind, b, params).data, big)
  {
    hide WellBuilt, Off, FieldOf, FieldData, SaneField, FieldFits, ToEntry, UnderMask, Ordered;
    var qs := UnderMasks(b, params, masks);
    var (data, data') := (ToEntry(kind, b, params).data, ToEntry(kind, b, qs).data);
    forall u: nat | u < |b.fields| ensures FieldOf(b, data', u) == FieldOf(b, AndAll(data, big), u) {
      FieldOfEntry(kind, b, params, u);
      FieldOfEntry(kind, b, qs, u);
      UnderMaskData(kind, b.fields[u], params[u], masks[u]);
      FieldOfAnd(b, data, big, u);
    }
    SameFields(b, data', AndAll(data, big));
  }

  lemma {:induction false} UnderMasksRest(kind: Kind, b: Layout, params: seq<Param>, masks: seq<seq<Byte>>)
    requires Fits(kind, b) && Sane(b, params) && FieldSized(b, masks)
    requires |params| == |masks| == |b.fields| && forall u :: 0 <= u < |params| ==> |masks[u]| == |params[u].key|
    requires Ordered(b, params) && Ordered(b, UnderMasks(b, params, masks))
    ensures var (e, e') := (ToEntry(kind, b, params), ToEntry(kind, b, UnderMasks(b, params, masks)));
            e'.mask == e.mask && e'.prefixLength == e.prefixLength && e'.widths == e.widths
  {
    hide WellBuilt, FieldData, SaneField, FieldFits, FieldMask, PrefixTerm, Joined, Sum, RangeWidths, AndAll, MaskFirst;
    var qs := UnderMasks(b, params, masks);
    forall u: nat | u < |params|
      ensures FieldMask(qs[u]) == FieldMask(params[u]) && PrefixTerm(qs[u]) == PrefixTerm(params[u])
      ensures qs[u].mtype == params[u].mtype && |qs[u].key| == |params[u].key|
    {
      UnderMaskData(kind, b.fields[u], params[u], masks[u]);
    }
    assert MaskParts(b, qs) == MaskParts(b, params) && PrefixTerms(b, qs) == PrefixTerms(b, params);
    WidthsAgain(kind, b, params, qs, |b.inv|);
  }
}
