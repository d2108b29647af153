/** Match keys, after MatchKeyBuilder in match_units.cpp: the fields of a key are
    reordered by match type, parameters given in the order of the P4 program become
    the bytes of a table entry, and entries become parameters again. */
module MatchKeys {
  import opened Bits
  import opened Sets
  import opened Sequences

  // Declared in the order that the implementation sorts by.
  datatype Type = RANGE | VALID | EXACT | LPM | TERNARY

  function Rank(t: Type): nat {
    match t case RANGE => 0 case VALID => 1 case EXACT => 2 case LPM => 3 case TERNARY => 4
  }

  datatype KeyF = KeyF(mtype: Type, nbits: nat)

  // ----- permutations ----------------------------------------------

  ghost predicate Permutation(p: seq<nat>) {
    && (forall i :: 0 <= i < |p| ==> p[i] < |p|)
    && forall i, j :: 0 <= i < j < |p| ==> p[i] != p[j]
  }

  function Below(n: nat): (r: set<nat>)
    ensures |r| == n && forall k :: k in r <==> 0 <= k < n
  {
    if n == 0 then {} else Below(n - 1) + {n - 1}
  }

  function Values(p: seq<nat>): (r: set<nat>)
    ensures forall x :: x in r <==> x in p
  {
    if p == [] then {} else Values(p[..|p| - 1]) + {p[|p| - 1]}
  }

  lemma {:induction false} DistinctSize(p: seq<nat>)
    requires forall i, j :: 0 <= i < j < |p| ==> p[i] != p[j]
    ensures |Values(p)| == |p|
  {
    if p != [] { DistinctSize(p[..|p| - 1]); }
  }

  lemma {:induction false} PermutationOnto(p: seq<nat>, u: nat) returns (i: nat)
    requires Permutation(p) && u < |p|
    ensures i < |p| && p[i] == u
  {
    DistinctSize(p);
    assert Values(p) <= Below(|p|);
    if u !in Values(p) { SubsetSize(Values(p), Below(|p|) - {u}); }
    i :| 0 <= i < |p| && p[i] == u;
  }

  function Permuted(xs: seq<int>, p: seq<nat>): (r: seq<int>)
    requires forall i :: 0 <= i < |p| ==> p[i] < |xs|
    ensures |r| == |p| && forall i :: 0 <= i < |p| ==> r[i] == xs[p[i]]
  {
    seq(|p|, i requires 0 <= i < |p| => xs[p[i]])
  }

  /** A permutation does not change a total. */
  lemma {:induction false} SumPermuted(xs: seq<int>, p: seq<nat>)
    requires Permutation(p) && |p| == |xs|
    ensures Sum(Permuted(xs, p)) == Sum(xs)
    decreases |xs|
  {
    hide Sum, Permuted;
    if xs == [] {
      NoneTotalled(Permuted(xs, p), xs);
    } else {
      var last := |xs| - 1;
      var k := PermutationOnto(p, last);
      WithoutLast(p, k);
      SumPermuted(xs[..last], Without(p, k));
      PermutedWithout(xs, p, k);
      SumWithout(Permuted(xs, p), k);
      SumWithout(xs, last);
      assert xs[..last] + xs[last + 1..] == xs[..last];
    }
  }

  lemma {:induction false} NoneTotalled(xs: seq<int>, ys: seq<int>)
    requires xs == ys == []
    ensures Sum(xs) == Sum(ys)
  {}

  lemma {:induction false} PermutedWithout(xs: seq<int>, p: seq<nat>, k: nat)
    requires xs != [] && k < |p| == |xs| && Permutation(p) && p[k] == |xs| - 1 && Permutation(Without(p, k))
    ensures Permuted(xs, p)[..k] + Permuted(xs, p)[k + 1..] == Permuted(xs[..|xs| - 1], Without(p, k))
  {
    hide Permuted;
  }

  function Without(p: seq<nat>, k: nat): seq<nat>
    requires k < |p|
  {
    p[..k] + p[k + 1..]
  }

  lemma {:induction false} WithoutLast(p: seq<nat>, k: nat)
    requires Permutation(p) && k < |p| && p[k] == |p| - 1
    ensures Permutation(Without(p, k))
  {
    var q := Without(p, k);
    assert forall i :: 0 <= i < |q| ==> q[i] == p[if i < k then i else i + 1];
  }

  // ----- the layout of a key ------------------------------------------------

  function Sizes(fields: seq<KeyF>): (r: seq<int>)
    ensures |r| == |fields| && forall i :: 0 <= i < |fields| ==> r[i] == NBytes(fields[i].nbits)
  {
    seq(|fields|, i requires 0 <= i < |fields| => NBytes(fields[i].nbits))
  }

  /** Where field i starts when the fields are laid out one after the other. */
  function Off(fields: seq<KeyF>, i: nat): (r: nat)
    requires i <= |fields|
  {
    SumGrows(Sizes(fields), 0, i);
    Sum(Sizes(fields)[..i])
  }

  /** The order of sort_fn: by type, then by position in the P4 program. */
  predicate Before(fields: seq<KeyF>, i: nat, j: nat)
    requires i < |fields| && j < |fields|
  {
    var (s, t) := (Rank(fields[i].mtype), Rank(fields[j].mtype));
    if s == t then i < j else s < t
  }

  datatype Layout = Layout(fields: seq<KeyF>, input: seq<KeyF>, inv: seq<nat>, mapping: seq<nat>, offsets: seq<nat>)

  ghost predicate Reordered(b: Layout) {
    && |b.fields| == |b.input| == |b.inv| && Permutation(b.inv)
    && (forall i :: 0 <= i < |b.inv| ==> b.input[i] == b.fields[b.inv[i]])
    && forall i, j :: 0 <= i < j < |b.inv| ==> Before(b.fields, b.inv[i], b.inv[j])
  }

  /** What comes before what in the stored key: ranges, then validities, exact fields, LPM
      fields and ternary fields, each in the order of the program. */
  ghost predicate StoredBefore(b: Layout, i: nat, j: nat)
    requires i < |b.fields| && j < |b.fields|
  {
    match b.fields[i].mtype
    case RANGE => b.fields[j].mtype.RANGE? ==> i < j
    case VALID => !b.fields[j].mtype.RANGE? && (b.fields[j].mtype.VALID? ==> i < j)
    case EXACT => b.fields[j].mtype.LPM? || b.fields[j].mtype.TERNARY? || (b.fields[j].mtype.EXACT? && i < j)
    case LPM => b.fields[j].mtype.TERNARY? || (b.fields[j].mtype.LPM? && i < j)
    case TERNARY => b.fields[j].mtype.TERNARY? && i < j
  }

  lemma {:induction false} StoredOrder(b: Layout, u: nat, v: nat)
    requires WellBuilt(b) && u < |b.fields| && v < |b.fields| && u != v
    ensures b.mapping[u] < b.mapping[v] <==> StoredBefore(b, u, v)
  {
    hide Off, StoredBefore;
    BeforeIff(b, u, v);
    BeforeIff(b, v, u);
    hide Before;
    assert b.inv[b.mapping[u]] == u && b.inv[b.mapping[v]] == v;
    assert if b.mapping[u] < b.mapping[v] then Before(b.fields, u, v) else Before(b.fields, v, u);
  }

  lemma {:induction false} BeforeIff(b: Layout, i: nat, j: nat)
    requires i < |b.fields| && j < |b.fields| && i != j
    ensures Before(b.fields, i, j) <==> StoredBefore(b, i, j)
    ensures Before(b.fields, i, j) <==> !Before(b.fields, j, i)
  {}

  ghost predicate InverseOf(p: seq<nat>, q: seq<nat>) {
    |p| == |q| && forall i :: 0 <= i < |p| ==> p[i] < |q| && q[p[i]] == i
  }

  /** What build establishes. */
  ghost predicate WellBuilt(b: Layout) {
    && Reordered(b)
    && InverseOf(b.inv, b.mapping) && InverseOf(b.mapping, b.inv)
    && |b.offsets| == |b.fields|
    && forall u :: 0 <= u < |b.fields| ==> b.offsets[u] == Off(b.input, b.mapping[u])
  }

  lemma {:induction false} OffNext(fields: seq<KeyF>, i: nat)
    requires i < |fields|
    ensures Off(fields, i + 1) == Off(fields, i) + NBytes(fields[i].nbits)
  {
    SumNext(Sizes(fields), i);
  }

  lemma {:induction false} OffGrows(fields: seq<KeyF>, i: nat, j: nat)
    requires i <= j <= |fields|
    ensures Off(fields, i) <= Off(fields, j)
  {
    SumGrows(Sizes(fields), i, j);
  }

  /** The reordered key is as long as the key in program order. */
  lemma {:induction false} SameLength(b: Layout)
    requires Reordered(b)
    ensures Off(b.input, |b.input|) == Off(b.fields, |b.fields|)
  {
    SumPermuted(Sizes(b.fields), b.inv);
    assert Permuted(Sizes(b.fields), b.inv) == Sizes(b.input);
    assert Sizes(b.input)[..|b.input|] == Sizes(b.input) && Sizes(b.fields)[..|b.fields|] == Sizes(b.fields);
  }

  ghost predicate Covers(b: Layout, u: nat, k: nat)
    requires WellBuilt(b) && u < |b.fields|
  {
    b.offsets[u] <= k < b.offsets[u] + NBytes(b.fields[u].nbits)
  }

  lemma {:induction false} FindField(fields: seq<KeyF>, n: nat, k: nat) returns (i: nat)
    requires n <= |fields| && k < Off(fields, n)
    ensures i < n && Off(fields, i) <= k < Off(fields, i + 1)
  {
    i := n - 1;
    OffNext(fields, n - 1);
    if k < Off(fields, n - 1) { i := FindField(fields, n - 1, k); }
  }

  /** The byte ranges of the fields tile the key: every byte belongs to exactly one
      field of the program. */
  lemma {:induction false} Tiling(b: Layout, k: nat) returns (u: nat)
    requires WellBuilt(b) && k < Off(b.fields, |b.fields|)
    ensures u < |b.fields| && Covers(b, u, k)
    ensures forall v: nat :: v < |b.fields| && Covers(b, v, k) ==> v == u
  {
    SameLength(b);
    var i := FindField(b.input, |b.input|, k);
    u := b.inv[i];
    OffNext(b.input, i);
    forall v: nat | v < |b.fields| && Covers(b, v, k) ensures v == u {
      Disjoint(b, u, v, k);
    }
  }

  lemma {:induction false} Disjoint(b: Layout, u: nat, v: nat, k: nat)
    requires WellBuilt(b) && u < |b.fields| && v < |b.fields| && Covers(b, u, k) && Covers(b, v, k)
    ensures u == v
  {
    var (i, j) := (b.mapping[u], b.mapping[v]);
    OffNext(b.input, i);
    OffNext(b.input, j);
    assert b.fields[u] == b.input[i] && b.fields[v] == b.input[j];
    if i < j { OffGrows(b.input, i + 1, j); }
    if j < i { OffGrows(b.input, j + 1, i); }
  }

  /** A field stays inside the key. */
  lemma {:induction false} InsideKey(b: Layout, u: nat)
    requires WellBuilt(b) && u < |b.fields|
    ensures b.offsets[u] + NBytes(b.fields[u].nbits) <= Off(b.fields, |b.fields|)
  {
    var i := b.mapping[u];
    SameLength(b);
    OffNext(b.input, i);
    OffGrows(b.input, i + 1, |b.input|);
    assert b.fields[u] == b.input[i];
  }

  // ----- build --------------------------------------------------------------

  ghost predicate SortedBy(fields: seq<KeyF>, inv: seq<nat>) {
    && (forall i :: 0 <= i < |inv| ==> inv[i] < |fields|)
    && forall i, j :: 0 <= i < j < |inv| ==> Before(fields, inv[i], inv[j])
  }

  /** The sorted positions of the fields; the order is total, so any sort gives
      these. */
  method SortFields(fields: seq<KeyF>) returns (inv: seq<nat>)
    ensures |inv| == |fields| && Permutation(inv) && SortedBy(fields, inv)
  {
    inv := [];
    for k := 0 to |fields|
      invariant |inv| == k && Permutation(inv) && SortedBy(fields, inv)
    {
      var j := k;
      while j > 0 && !Before(fields, inv[j - 1], k)
        invariant j <= k && forall i :: j <= i < k ==> Before(fields, k, inv[i])
      {
        j := j - 1;
      }
      InsertSorted(fields, inv, j);
      inv := Spliced(inv, j);
    }
  }

  lemma {:induction false} InsertSorted(fields: seq<KeyF>, inv: seq<nat>, j: nat)
    requires |inv| < |fields| && Permutation(inv) && SortedBy(fields, inv) && j <= |inv|
    requires forall i :: j <= i < |inv| ==> Before(fields, |inv|, inv[i])
    requires j > 0 ==> Before(fields, inv[j - 1], |inv|)
    ensures Permutation(Spliced(inv, j)) && SortedBy(fields, Spliced(inv, j))
  {
    SplicedPermutation(inv, j);
    forall i: nat | i < j ensures Before(fields, inv[i], |inv|) {
      if i < j - 1 { BeforeTransitive(fields, inv[i], inv[j - 1], |inv|); }
    }
    SplicedSorted(fields, inv, j);
  }

  function Spliced(inv: seq<nat>, j: nat): (r: seq<nat>)
    requires j <= |inv|
    ensures |r| == |inv| + 1
    ensures forall i :: 0 <= i < |r| ==> r[i] == if i < j then inv[i] else if i == j then |inv| else inv[i - 1]
  {
    inv[..j] + [|inv|] + inv[j..]
  }

  lemma {:induction false} SplicedPermutation(inv: seq<nat>, j: nat)
    requires Permutation(inv) && j <= |inv|
    ensures Permutation(Spliced(inv, j))
  {}

  lemma {:induction false} BeforeTransitive(fields: seq<KeyF>, i: nat, j: nat, k: nat)
    requires i < |fields| && j < |fields| && k < |fields| && Before(fields, i, j) && Before(fields, j, k)
    ensures Before(fields, i, k)
  {}

  lemma {:induction false} SplicedSorted(fields: seq<KeyF>, inv: seq<nat>, j: nat)
    requires |inv| < |fields| && SortedBy(fields, inv) && j <= |inv|
    requires forall i :: j <= i < |inv| ==> Before(fields, |inv|, inv[i])
    requires forall i :: 0 <= i < j ==> Before(fields, inv[i], |inv|)
    ensures SortedBy(fields, Spliced(inv, j))
  {
    hide Before;
  }

  /** The loop that reorders the fields and inverts the mapping. */
  method Reorder(fields: seq<KeyF>, inv: seq<nat>) returns (input: seq<KeyF>, mapping: seq<nat>)
    requires |inv| == |fields| && Permutation(inv)
    ensures |input| == |fields| && forall i :: 0 <= i < |inv| ==> input[i] == fields[inv[i]]
    ensures InverseOf(inv, mapping) && InverseOf(mapping, inv)
  {
    input, mapping := [], seq(|fields|, _ => 0);
    for k := 0 to |inv|
      invariant |input| == k && |mapping| == |fields|
      invariant forall i :: 0 <= i < k ==> input[i] == fields[inv[i]]
      invariant forall i :: 0 <= i < k ==> mapping[inv[inv[i]]] == inv[i]
    {
      var idx := inv[k];
      input := input + [fields[idx]];
      mapping := mapping[inv[idx] := idx];
    }
    forall i: nat | i < |inv| ensures inv[i] < |mapping| && mapping[inv[i]] == i {
      var t := PermutationOnto(inv, i);
    }
    forall u: nat | u < |inv| ensures mapping[u] < |inv| && inv[mapping[u]] == u {
      var t := PermutationOnto(inv, u);
    }
  }

  method FieldOffsets(input: seq<KeyF>, mapping: seq<nat>) returns (offsets: seq<nat>)
    requires |mapping| == |input| && forall u :: 0 <= u < |mapping| ==> mapping[u] < |input|
    ensures |offsets| == |input| && forall u :: 0 <= u < |mapping| ==> offsets[u] == Off(input, mapping[u])
  {
    hide Off;
    var byPosition: seq<nat> := [];
    var current := 0;
    OffNone(input);
    for i := 0 to |input|
      invariant |byPosition| == i && current == Off(input, i)
      invariant forall j :: 0 <= j < i ==> byPosition[j] == Off(input, j)
    {
      byPosition := byPosition + [current];
      current := current + NBytes(input[i].nbits);
      OffNext(input, i);
    }
    offsets := [];
    for u := 0 to |mapping|
      invariant |offsets| == u && forall v :: 0 <= v < u ==> offsets[v] == Off(input, mapping[v])
    {
      offsets := offsets + [byPosition[mapping[u]]];
    }
  }

  lemma {:induction false} OffNone(fields: seq<KeyF>)
    ensures Off(fields, 0) == 0
  {}

  function Overwrite(dst: seq<Byte>, at: nat, src: seq<Byte>): (r: seq<Byte>)
    requires at + |src| <= |dst|
    ensures |r| == |dst|
  {
    dst[..at] + src + dst[at + |src|..]
  }

  /** The bytes of field u in a key. */
  function FieldOf(b: Layout, key: seq<Byte>, u: nat): (r: seq<Byte>)
    requires WellBuilt(b) && u < |b.fields| && |key| == Off(b.fields, |b.fields|)
    ensures |r| == NBytes(b.fields[u].nbits)
  {
    InsideKey(b, u);
    key[b.offsets[u]..b.offsets[u] + NBytes(b.fields[u].nbits)]
  }

  lemma {:induction false} FieldPiece(b: Layout, key: seq<Byte>, u: nat)
    requires WellBuilt(b) && u < |b.fields| && |key| == Off(b.fields, |b.fields|)
    ensures u < |b.offsets| && b.offsets[u] + NBytes(b.fields[u].nbits) <= |key|
    ensures key[b.offsets[u]..b.offsets[u] + NBytes(b.fields[u].nbits)] == FieldOf(b, key, u)
  {
    hide Off;
    InsideKey(b, u);
  }

  ghost predicate FieldSized(b: Layout, parts: seq<seq<Byte>>) {
    |parts| == |b.fields| && forall u :: 0 <= u < |parts| ==> |parts[u]| == NBytes(b.fields[u].nbits)
  }

  lemma {:induction false} OverwriteField(b: Layout, key: seq<Byte>, u: nat, src: seq<Byte>, v: nat)
    requires WellBuilt(b) && u < |b.fields| && v < |b.fields| && |key| == Off(b.fields, |b.fields|)
    requires |src| == NBytes(b.fields[u].nbits) && b.offsets[u] + |src| <= |key|
    ensures FieldOf(b, Overwrite(key, b.offsets[u], src), v) == if u == v then src else FieldOf(b, key, v)
  {
    InsideKey(b, v);
    hide Off, Reordered;
    var key' := Overwrite(key, b.offsets[u], src);
    if u != v {
      forall k | b.offsets[v] <= k < b.offsets[v] + NBytes(b.fields[v].nbits) ensures key'[k] == key[k] {
        if Covers(b, u, k) { Disjoint(b, u, v, k); }
      }
      assert FieldOf(b, key', v) == FieldOf(b, key, v);
    }
  }

  /** The mask of the whole key holds the mask of every field at that field's place. */
  method PlaceMasks(ghost b: Layout, offsets: seq<nat>, nbytes: nat, masks: seq<seq<Byte>>) returns (big: seq<Byte>)
    requires WellBuilt(b) && FieldSized(b, masks) && offsets == b.offsets && nbytes == Off(b.fields, |b.fields|)
    ensures |big| == nbytes
    ensures forall u :: 0 <= u < |masks| ==> FieldOf(b, big, u) == masks[u]
  {
    hide WellBuilt, Off, FieldOf;
    big := seq(nbytes, _ => Zeros(8));
    for u := 0 to |masks|
      invariant |big| == nbytes
      invariant forall v :: 0 <= v < u ==> FieldOf(b, big, v) == masks[v]
    {
      OffsetsSized(b);
      InsideKey(b, u);
      forall v: nat | v < |b.fields|
        ensures FieldOf(b, Overwrite(big, b.offsets[u], masks[u]), v) == if u == v then masks[u] else FieldOf(b, big, v)
      {
        OverwriteField(b, big, u, masks[u], v);
      }
      big := Overwrite(big, offsets[u], masks[u]);
    }
  }

  lemma {:induction false} OffsetsSized(b: Layout)
    requires WellBuilt(b)
    ensures |b.offsets| == |b.fields|
  {}

  ghost predicate MasksPlaced(b: Layout, masks: seq<seq<Byte>>, big: seq<Byte>)
    requires WellBuilt(b) && FieldSized(b, masks)
  {
    |big| == Off(b.fields, |b.fields|) && forall u :: 0 <= u < |masks| ==> FieldOf(b, big, u) == masks[u]
  }

  lemma {:induction false} FieldSizedFrame(b: Layout, c: Layout, masks: seq<seq<Byte>>)
    requires FieldSized(b, masks) && b.fields == c.fields
    ensures FieldSized(c, masks)
  {}

  // The steps of build, in order.
  method BuildLayout(fields: seq<KeyF>, nbytes: nat, masks: seq<seq<Byte>>) returns (b: Layout, big: seq<Byte>)
    requires FieldSized(Layout(fields, [], [], [], []), masks) && nbytes == Off(fields, |fields|)
    ensures b.fields == fields && WellBuilt(b) && MasksPlaced(b, masks, big)
  {
    hide Off, FieldOf, Permutation, SortedBy, InverseOf, WellBuilt, Before;
    var inv := SortFields(fields);
    var input, mapping := Reorder(fields, inv);
    MappingBounded(inv, mapping);
    var offsets := FieldOffsets(input, mapping);
    b := Layout(fields, input, inv, mapping, offsets);
    Assemble(b);
    big := PlaceMasks(b, offsets, nbytes, masks);
  }

  class MatchKeyBuilder {
    var keyInput: seq<KeyF>
    var nbytesKey: nat
    var hasBigMask: bool
    var bigMask: seq<Byte>
    var keyMapping: seq<nat>
    var invMapping: seq<nat>
    var keyOffsets: seq<nat>
    var built: bool
    var masks: seq<seq<Byte>>
    ghost var fields: seq<KeyF>    // in the order of the P4 program

    ghost function View(): Layout
      reads this
    {
      Layout(fields, keyInput, invMapping, keyMapping, keyOffsets)
    }

    ghost predicate Valid()
      reads this
    {
      && nbytesKey == Off(fields, |fields|) && FieldSized(View(), masks)
      && (!built ==> keyInput == fields && keyOffsets == [])
      && (built ==> WellBuilt(View()))
      && (built ==> MasksPlaced(View(), masks, bigMask))
    }

    constructor ()
      ensures Valid() && !built && fields == []
    {
      keyInput, nbytesKey, hasBigMask, bigMask := [], 0, false, [];
      keyMapping, invMapping, keyOffsets, built, masks := [], [], [], false, [];
      fields := [];
    }

    /** push_back: a field may follow as long as the key is not built. After that it has
        no place in the layout, and build will not give it one. */
    method PushBack(f: KeyF, mask: seq<Byte>)
      requires Valid() && |mask| == NBytes(f.nbits)
      modifies this`keyInput, this`nbytesKey, this`masks, this`fields
      ensures keyInput == old(keyInput) + [f] && nbytesKey == old(nbytesKey) + NBytes(f.nbits)
      ensures fields == old(fields) + [f] && masks == old(masks) + [mask]
      ensures Valid() <==> !old(built)
    {
      OffAppend(fields, f);
      keyInput := keyInput + [f];
      nbytesKey := nbytesKey + NBytes(f.nbits);
      masks := masks + [mask];
      fields := fields + [f];
      if built { Unplaced(View()); }
    }

    /** build: does nothing the second time. */
    method Build()
      requires Valid()
      modifies this
      ensures Valid() && built && fields == old(fields) && masks == old(masks) && nbytesKey == old(nbytesKey)
      ensures old(built) ==> View() == old(View()) && bigMask == old(bigMask)
    {
      hide Off, WellBuilt, MasksPlaced, FieldSized;
      if built { return; }
      FieldSizedFrame(View(), Layout(fields, [], [], [], []), masks);
      var b, big := BuildLayout(keyInput, nbytesKey, masks);
      FieldSizedFrame(View(), b, masks);
      invMapping, keyInput, keyMapping, keyOffsets, bigMask := b.inv, b.input, b.mapping, b.offsets, big;
      assert View() == b;
      built := true;
    }
  }

  lemma {:induction false} MappingBounded(inv: seq<nat>, mapping: seq<nat>)
    requires InverseOf(inv, mapping) && InverseOf(mapping, inv)
    ensures |inv| == |mapping| && forall u :: 0 <= u < |mapping| ==> mapping[u] < |inv|
  {}

  lemma {:induction false} Assemble(b: Layout)
    requires |b.fields| == |b.input| == |b.inv| == |b.offsets| && Permutation(b.inv) && SortedBy(b.fields, b.inv)
    requires forall i :: 0 <= i < |b.inv| ==> b.input[i] == b.fields[b.inv[i]]
    requires InverseOf(b.inv, b.mapping) && InverseOf(b.mapping, b.inv)
    requires forall u :: 0 <= u < |b.fields| ==> b.offsets[u] == Off(b.input, b.mapping[u])
    ensures WellBuilt(b)
  {
    hide Off, Before;
  }

  lemma {:induction false} Unplaced(b: Layout)
    requires |b.offsets| != |b.fields|
    ensures !WellBuilt(b)
  {}

  lemma {:induction false} OffAppend(fields: seq<KeyF>, f: KeyF)
    ensures Off(fields + [f], |fields| + 1) == Off(fields, |fields|) + NBytes(f.nbits)
  {
    OffNext(fields + [f], |fields|);
    assert Sizes(fields + [f])[..|fields|] == Sizes(fields)[..|fields|];
  }
}
