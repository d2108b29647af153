/** The loops of MatchKeyBuilderHelper in match_units.cpp, proved against the
    conversions of MatchParams. */
module MatchConversion {
  import opened Bits
  import opened Sequences
  import opened MatchKeys
  import opened EntryLists
  import opened MatchParams

  // Append a parameter's key and mask the first byte of what was appended.
  method AppendKey(data: seq<Byte>, p: Param, nbits: nat) returns (r: seq<Byte>)
    requires p.key != []
    ensures r == data + MaskFirst(p.key, nbits)
  {
    r := data + p.key;
    r := r[|data| := And(r[|data|], Byte0Mask(nbits))];
    assert r == data + MaskFirst(p.key, nbits);
  }

  lemma {:induction false} Unmasked(kind: Kind, b: Layout, params: seq<Param>, i: nat)
    requires Fits(kind, b) && Sane(b, params) && i < |b.inv|
    ensures Ordered(b, params) && params[b.inv[i]].key != [] && SaneField(b.input[i], params[b.inv[i]])
    ensures FieldFits(kind, b.input[i])
  {
    SaneOrdered(kind, b, params);
    MaskSized(kind, b.input[i], params[b.inv[i]]);
  }

  /** match_params_to_entry for exact keys. */
  method ExactEntry(b: Layout, params: seq<Param>) returns (e: EntryKey)
    requires Fits(ExactKind, b) && Sane(b, params)
    ensures Ordered(b, params) && e == ToEntry(ExactKind, b, params)
  {
    hide WellBuilt, Joined, MaskFirst, FieldMask, SaneField, FieldFits;
    PartsSized(ExactKind, b, params);
    var data: seq<Byte> := [];
    ghost var parts := DataParts(ExactKind, b, params);
    NoneJoined(parts);
    for i := 0 to |b.inv|
      invariant data == Joined(parts[..i])
    {
      Unmasked(ExactKind, b, params, i);
      data := AppendKey(data, params[b.inv[i]], b.input[i].nbits);
      JoinedNext(parts, i);
    }
    assert parts[..|parts|] == parts;
    e := EntryKey(data, [], 0, []);
  }

  lemma {:induction false} NoneJoined(parts: seq<seq<Byte>>)
    ensures Joined(parts[..0]) == []
  {}

  /** match_params_to_entry for LPM keys. */
  method LpmEntry(b: Layout, params: seq<Param>) returns (e: EntryKey)
    requires Fits(LpmKind, b) && Sane(b, params)
    ensures Ordered(b, params) && e == ToEntry(LpmKind, b, params)
  {
    hide WellBuilt, Joined, MaskFirst, FieldMask, SaneField, FieldFits, Sum;
    PartsSized(LpmKind, b, params);
    var data: seq<Byte> := [];
    var prefixLength := 0;
    ghost var (parts, terms) := (DataParts(LpmKind, b, params), PrefixTerms(b, params));
    NoneJoined(parts);
    SumNone(terms);
    for i := 0 to |b.inv|
      invariant data == Joined(parts[..i]) && prefixLength == Sum(terms[..i])
    {
      Unmasked(LpmKind, b, params, i);
      LpmType(b.input[i], params[b.inv[i]]);
      var p := params[b.inv[i]];
      data := AppendKey(data, p, b.input[i].nbits);
      JoinedNext(parts, i);
      SumNext(terms, i);
      match p.mtype {
        case VALID => prefixLength := prefixLength + 8;
        case EXACT => prefixLength := prefixLength + 8 * |p.key|;
        case LPM => prefixLength := prefixLength + p.prefixLength;
        case RANGE => assert false;
        case TERNARY => assert false;
      }
    }
    assert parts[..|parts|] == parts && terms[..|terms|] == terms;
    e := EntryKey(data, [], prefixLength, []);
  }

  lemma {:induction false} LpmType(f: KeyF, p: Param)
    requires FieldFits(LpmKind, f) && SaneField(f, p)
    ensures !p.mtype.TERNARY? && !p.mtype.RANGE?
  {}

  /** match_params_to_entry_ternary_and_range: key bytes not yet under their mask. */
  method RawTernary(kind: Kind, b: Layout, params: seq<Param>) returns (data: seq<Byte>, mask: seq<Byte>)
    requires Fits(kind, b) && Sane(b, params)
    ensures Ordered(b, params)
    ensures data == Joined(DataParts(ExactKind, b, params)) && mask == Joined(MaskParts(b, params))
  {
    hide WellBuilt, Joined, MaskFirst, SaneField, FieldFits;
    PartsSized(kind, b, params);
    data, mask := [], [];
    ghost var (raw, masks) := (DataParts(ExactKind, b, params), MaskParts(b, params));
    NoneJoined(raw);
    NoneJoined(masks);
    for i := 0 to |b.inv|
      invariant data == Joined(raw[..i]) && mask == Joined(masks[..i])
    {
      Unmasked(kind, b, params, i);
      var p := params[b.inv[i]];
      data := AppendKey(data, p, b.input[i].nbits);
      var m := MaskOf(kind, b.input[i], p);
      mask := mask + m;
      JoinedNext(raw, i);
      JoinedNext(masks, i);
    }
    assert raw[..|raw|] == raw && masks[..|masks|] == masks;
  }

  // The mask that one parameter appends.
  method MaskOf(kind: Kind, f: KeyF, p: Param) returns (m: seq<Byte>)
    requires FieldFits(kind, f) && SaneField(f, p)
    ensures m == FieldMask(p)
  {
    match p.mtype {
      case VALID => m := [ONES];
      case EXACT => m := AllOnes(|p.key|);
      case LPM => m := CreateMask(p.prefixLength, |p.key|);
      case RANGE => m := p.mask;
      case TERNARY => m := p.mask;
    }
  }

  function AndFrom(data: seq<Byte>, mask: seq<Byte>, w: nat): (r: seq<Byte>)
    requires |data| == |mask|
    ensures |r| == |data| && forall i :: 0 <= i < |r| ==> r[i] == if i < w then data[i] else And(data[i], mask[i])
  {
    seq(|data|, i requires 0 <= i < |data| => if i < w then data[i] else And(data[i], mask[i]))
  }

  /** format_ternary_key from position w on. */
  method FormatTernary(data: seq<Byte>, mask: seq<Byte>, w: nat) returns (r: seq<Byte>)
    requires |data| == |mask| && w <= |data|
    ensures r == AndFrom(data, mask, w)
  {
    r := data;
    for i := w to |data|
      invariant |r| == |data| && forall j :: 0 <= j < |data| ==>
                r[j] == if w <= j < i then And(data[j], mask[j]) else data[j]
    {
      r := r[i := And(r[i], mask[i])];
    }
  }

  // Masking a concatenation is masking its parts, when w falls between parts.
  ghost predicate MaskedParts(input: seq<KeyF>, raw: seq<seq<Byte>>, masks: seq<seq<Byte>>, parts: seq<seq<Byte>>,
                              w: nat) {
    && InputSized(input, raw) && InputSized(input, masks) && InputSized(input, parts)
    && forall i :: 0 <= i < |input| ==> MaskedPart(input, raw[i], masks[i], parts[i], w, i)
  }

  ghost predicate MaskedPart(input: seq<KeyF>, raw: seq<Byte>, mask: seq<Byte>, part: seq<Byte>, w: nat, i: nat)
    requires i < |input| && |raw| == |mask|
  {
    || (Off(input, i + 1) <= w && part == raw)
    || (w <= Off(input, i) && part == AndAll(raw, mask))
  }

  lemma {:induction false} MaskJoined(input: seq<KeyF>, raw: seq<seq<Byte>>, masks: seq<seq<Byte>>,
                                      parts: seq<seq<Byte>>, w: nat, n: nat)
    requires MaskedParts(input, raw, masks, parts, w) && n <= |input|
    ensures |Joined(raw[..n])| == |Joined(masks[..n])|
    ensures AndFrom(Joined(raw[..n]), Joined(masks[..n]), w) == Joined(parts[..n])
  {
    hide Joined, Off;
    if n == 0 {
      NoneJoined(raw);
      NoneJoined(masks);
      NoneJoined(parts);
    } else {
      MaskJoined(input, raw, masks, parts, w, n - 1);
      JoinedNext(raw, n - 1);
      JoinedNext(masks, n - 1);
      JoinedNext(parts, n - 1);
      JoinedLength(input, raw, n - 1);
      JoinedLength(input, raw, n);
      assert MaskedPart(input, raw[n - 1], masks[n - 1], parts[n - 1], w, n - 1);
    }
  }

  // ----- range fields come first --------------------------------------------

  /** How many fields a key starts with that are ranges. */
  function Leads(input: seq<KeyF>, i: nat): (r: nat)
    requires i <= |input|
    ensures i <= r <= |input| && (forall j :: i <= j < r ==> input[j].mtype.RANGE?)
    ensures r < |input| ==> !input[r].mtype.RANGE?
    decreases |input| - i
  {
    if i == |input| || !input[i].mtype.RANGE? then i else Leads(input, i + 1)
  }

  lemma {:induction false} RangesLead(b: Layout, i: nat)
    requires WellBuilt(b) && i < |b.input|
    ensures b.input[i].mtype.RANGE? <==> i < Leads(b.input, 0)
  {
    hide Off, InverseOf, Leads;
    var r := Leads(b.input, 0);
    if r < i { assert Before(b.fields, b.inv[r], b.inv[i]); }
  }

  lemma {:induction false} WidthsShape(b: Layout, params: seq<Param>, n: nat)
    requires WellBuilt(b) && Sane(b, params) && Ordered(b, params) && n <= |b.inv|
    ensures var (r, ws) := (Leads(b.input, 0), RangeWidths(b, params, n));
            && |ws| == (if n < r then n else r)
            && forall j :: 0 <= j < |ws| ==> ws[j] == NBytes(b.input[j].nbits)
  {
    hide Off, InverseOf, Permutation, Leads;
    if n > 0 {
      WidthsShape(b, params, n - 1);
      RangesLead(b, n - 1);
      assert SaneField(b.fields[b.inv[n - 1]], params[b.inv[n - 1]]);
    }
  }

  lemma {:induction false} WidthsSum(input: seq<KeyF>, ws: seq<nat>, j: nat)
    requires j <= |ws| <= |input| && forall k :: 0 <= k < |ws| ==> ws[k] == NBytes(input[k].nbits)
    ensures Sum(ws[..j]) == Off(input, j)
  {
    hide Off;
    if j == 0 {
      OffNone(input);
    } else {
      WidthsSum(input, ws, j - 1);
      OffNext(input, j - 1);
      assert ws[..j][..j - 1] == ws[..j - 1];
    }
  }

  /** The range widths add up to the place where the other fields begin. */
  lemma {:induction false} RangeBytes(b: Layout, params: seq<Param>)
    requires WellBuilt(b) && Sane(b, params) && Ordered(b, params)
    ensures var ws := RangeWidths(b, params, |b.inv|);
            Leads(b.input, 0) <= |b.input| && |ws| == Leads(b.input, 0) && Sum(ws) == Off(b.input, Leads(b.input, 0))
  {
    hide Off, WellBuilt, Sum;
    var ws := RangeWidths(b, params, |b.inv|);
    WidthsShape(b, params, |b.inv|);
    WidthsSum(b.input, ws, |ws|);
    assert ws[..|ws|] == ws;
  }

  // Where masking starts in the stored key.
  ghost function MaskStart(kind: Kind, b: Layout): nat {
    if kind.RangeKind? then Off(b.input, Leads(b.input, 0)) else 0
  }

  lemma {:induction false} EntryMasked(kind: Kind, b: Layout, params: seq<Param>)
    requires Fits(kind, b) && Sane(b, params) && Masking(kind)
    ensures Ordered(b, params)
    ensures MaskedParts(b.input, DataParts(ExactKind, b, params), MaskParts(b, params), DataParts(kind, b, params),
            MaskStart(kind, b))
  {
    hide WellBuilt, Off, Leads, SaneField, FieldFits, FieldMask, Sane, MaskFirst;
    PartsSized(kind, b, params);
    var (raw, masks, parts) := (DataParts(ExactKind, b, params), MaskParts(b, params), DataParts(kind, b, params));
    forall i: nat | i < |b.input|
      ensures |raw[i]| == |masks[i]| && MaskedPart(b.input, raw[i], masks[i], parts[i], MaskStart(kind, b), i)
    {
      Unmasked(kind, b, params, i);
      MaskSized(kind, b.input[i], params[b.inv[i]]);
      FieldKind(kind, b.input[i], params[b.inv[i]]);
      RangesLead(b, i);
      if i < Leads(b.input, 0) {
        OffGrows(b.input, i + 1, Leads(b.input, 0));
      } else {
        OffGrows(b.input, Leads(b.input, 0), i);
      }
    }
  }

  lemma {:induction false} FieldKind(kind: Kind, f: KeyF, p: Param)
    requires FieldFits(kind, f) && SaneField(f, p)
    ensures p.mtype == f.mtype && |p.key| == NBytes(f.nbits) && (kind.TernaryKind? ==> !f.mtype.RANGE?)
  {}

  lemma {:induction false} MaskWhole(kind: Kind, b: Layout, params: seq<Param>)
    requires Fits(kind, b) && Sane(b, params) && Masking(kind)
    ensures Ordered(b, params)
    ensures |Joined(DataParts(ExactKind, b, params))| == |Joined(MaskParts(b, params))| == Off(b.fields, |b.fields|)
    ensures AndFrom(Joined(DataParts(ExactKind, b, params)), Joined(MaskParts(b, params)), MaskStart(kind, b))
         == Joined(DataParts(kind, b, params))
  {
    hide WellBuilt, Off, Joined, MaskStart, Sane, FieldData, FieldMask, AndFrom;
    EntryMasked(kind, b, params);
    var (raw, masks, parts) := (DataParts(ExactKind, b, params), MaskParts(b, params), DataParts(kind, b, params));
    MaskJoined(b.input, raw, masks, parts, MaskStart(kind, b), |b.input|);
    JoinedSized(b, masks);
    assert raw[..|raw|] == raw && masks[..|masks|] == masks && parts[..|parts|] == parts;
  }

  /** match_params_to_entry for ternary keys. */
  method TernaryEntry(b: Layout, params: seq<Param>) returns (e: EntryKey)
    requires Fits(TernaryKind, b) && Sane(b, params)
    ensures Ordered(b, params) && e == ToEntry(TernaryKind, b, params)
  {
    hide WellBuilt, Joined, SaneField, FieldFits, AndFrom;
    var data, mask := RawTernary(TernaryKind, b, params);
    MaskWhole(TernaryKind, b, params);
    data := FormatTernary(data, mask, 0);
    e := EntryKey(data, mask, 0, []);
  }

  /** match_params_to_entry for range keys: the ends of the ranges stay unmasked. */
  method RangeEntry(b: Layout, params: seq<Param>) returns (e: EntryKey)
    requires Fits(RangeKind, b) && Sane(b, params)
    ensures Ordered(b, params) && e == ToEntry(RangeKind, b, params)
  {
    hide WellBuilt, Joined, SaneField, FieldFits, Sum, Leads, Off, AndFrom;
    var data, mask := RawTernary(RangeKind, b, params);
    var widths, w := WidthsLoop(b, params);
    RangeBytes(b, params);
    MaskWhole(RangeKind, b, params);
    StartInside(b, Leads(b.input, 0));
    if |data| > w { data := FormatTernary(data, mask, w); } else { AndNothing(data, mask, w); }
    e := EntryKey(data, mask, 0, widths);
  }

  method WidthsLoop(b: Layout, params: seq<Param>) returns (widths: seq<nat>, w: nat)
    requires Ordered(b, params)
    ensures widths == RangeWidths(b, params, |b.inv|) && w == Sum(widths)
  {
    widths, w := [], 0;
    for i := 0 to |b.inv|
      invariant widths == RangeWidths(b, params, i) && w == Sum(widths)
    {
      var p := params[b.inv[i]];
      if p.mtype.RANGE? {
        assert (widths + [|p.key|])[..|widths|] == widths;
        widths := widths + [|p.key|];
        w := w + |p.key|;
      }
    }
  }

  lemma {:induction false} StartInside(b: Layout, r: nat)
    requires WellBuilt(b) && r <= |b.input|
    ensures Off(b.input, r) <= Off(b.fields, |b.fields|)
  {
    hide Off, InverseOf;
    SameLength(b);
    OffGrows(b.input, r, |b.input|);
  }

  lemma {:induction false} AndNothing(data: seq<Byte>, mask: seq<Byte>, w: nat)
    requires |data| == |mask| <= w
    ensures AndFrom(data, mask, w) == data
  {}

  // ----- back to parameters -------------------------------------------------

  /** entry_to_match_params for exact keys. */
  method ExactParams(b: Layout, e: EntryKey) returns (params: seq<Param>)
    requires WellBuilt(b) && EntrySized(ExactKind, b, e)
    ensures params == FromEntry(ExactKind, b, e)
  {
    hide Off, WellBuilt;
    Sized(b);
    params := [];
    for i := 0 to |b.mapping|
      invariant |params| == i && forall u :: 0 <= u < i ==> params[u] == BackParam(ExactKind, b, e, u)
    {
      MappedField(b, i);
      InsideKey(b, i);
      var (f, start) := (b.input[b.mapping[i]], b.offsets[i]);
      params := params + [Param(f.mtype, e.data[start..start + NBytes(f.nbits)], [], 0)];
    }
  }

  lemma {:induction false} Sized(b: Layout)
    requires WellBuilt(b)
    ensures |b.mapping| == |b.fields|
  {}

  /** entry_to_match_params for LPM keys. */
  method LpmParams(b: Layout, e: EntryKey) returns (params: seq<Param>)
    requires WellBuilt(b) && EntrySized(LpmKind, b, e) && |b.fields| > 0
    ensures params == FromEntry(LpmKind, b, e)
  {
    hide Off, WellBuilt, Sum, FieldOf, LpmIndex, OtherBits;
    var ps, lpm, pref := LpmLoop(b, e);
    params := ps[lpm := ps[lpm].(prefixLength := pref)];
    assert forall u :: 0 <= u < |params| ==> params[u] == BackParam(LpmKind, b, e, u);
  }

  lemma {:induction false} IndexNext(fields: seq<KeyF>, i: nat)
    requires i < |fields|
    ensures LpmIndex(fields, 0) == 0
    ensures LpmIndex(fields, i + 1) == if fields[i].mtype.LPM? then i else LpmIndex(fields, i)
  {}

  method LpmLoop(b: Layout, e: EntryKey) returns (params: seq<Param>, lpm: nat, pref: int)
    requires WellBuilt(b) && EntrySized(LpmKind, b, e) && |b.fields| > 0
    ensures |params| == |b.fields| > lpm == LpmIndex(b.fields, |b.fields|)
    ensures pref == e.prefixLength - Sum(OtherBits(b.fields))
    ensures forall u :: 0 <= u < |params| ==> params[u] == Param(b.fields[u].mtype, FieldOf(b, e.data, u), [], 0)
  {
    hide Off, WellBuilt, Sum, FieldOf, LpmIndex, OtherBits;
    Sized(b);
    params, lpm, pref := [], 0, e.prefixLength;
    ghost var other := OtherBits(b.fields);
    SumNone(other);
    IndexNext(b.fields, 0);
    for i := 0 to |b.mapping|
      invariant |params| == i && lpm == LpmIndex(b.fields, i) && pref == e.prefixLength - Sum(other[..i])
      invariant forall u :: 0 <= u < i ==> params[u] == Param(b.fields[u].mtype, FieldOf(b, e.data, u), [], 0)
    {
      IndexNext(b.fields, i);
      MappedField(b, i);
      FieldPiece(b, e.data, i);
      SumNext(other, i);
      var (f, start) := (b.input[b.mapping[i]], b.offsets[i]);
      params := params + [Param(f.mtype, e.data[start..start + NBytes(f.nbits)], [], 0)];
      if f.mtype.LPM? { lpm := i; } else { pref := pref - 8 * NBytes(f.nbits); }
    }
    assert other[..|other|] == other;
  }

  /** entry_to_match_params for ternary keys, and for range keys. */
  method TernaryParams(kind: Kind, b: Layout, e: EntryKey) returns (params: seq<Param>)
    requires WellBuilt(b) && EntrySized(kind, b, e) && Masking(kind)
    ensures params == FromEntry(kind, b, e)
  {
    hide Off, WellBuilt, OneCount;
    Sized(b);
    params := [];
    for i := 0 to |b.mapping|
      invariant |params| == i && forall u :: 0 <= u < i ==> params[u] == BackParam(kind, b, e, u)
    {
      MappedField(b, i);
      InsideKey(b, i);
      var (f, start) := (b.input[b.mapping[i]], b.offsets[i]);
      var p := OneParam(f, e.data[start..start + NBytes(f.nbits)], e.mask[start..start + NBytes(f.nbits)]);
      params := params + [p];
    }
  }

  method OneParam(f: KeyF, data: seq<Byte>, mask: seq<Byte>) returns (p: Param)
    ensures forall kind, prefix :: Masking(kind) ==> p == BackField(kind, f, data, mask, prefix)
  {
    match f.mtype {
      case VALID => p := Param(VALID, data, [], 0);
      case EXACT => p := Param(EXACT, data, [], 0);
      case RANGE => p := Param(RANGE, data, mask, 0);
      case TERNARY => p := Param(TERNARY, data, mask, 0);
      case LPM =>
        var pref := PrefLenFromMask(mask);
        p := Param(LPM, data, [], pref);
    }
  }
}
