/** EntryList of lookup_structures.cpp, the store behind the ternary and range
    tables: a doubly linked list threaded through an array that is indexed by
    handle, and the two comparisons its lookups use. */
module EntryLists {
  import opened Bits
  import opened Sequences

  const INT_MAX: int := 0x7fff_ffff

  datatype Key =
    | Ternary(data: seq<Byte>, mask: seq<Byte>, priority: int)
    | Range(data: seq<Byte>, mask: seq<Byte>, priority: int, widths: seq<nat>)

  function Widths(k: Key): seq<nat> {
    if k.Range? then k.widths else []
  }

  // ----- comparison of bytes ------------------------------------------------

  /** The number that a big-endian byte string denotes. */
  function BigEndian(b: seq<Byte>): nat {
    if b == [] then 0 else 256 * BigEndian(b[..|b| - 1]) + Nat(b[|b| - 1])
  }

  /** It is the number that its bits denote. */
  lemma {:induction false} BigEndianIsNat(b: seq<Byte>)
    ensures BigEndian(b) == Nat(BitsOf(b))
  {
    if b != [] {
      var (init, last) := (b[..|b| - 1], b[|b| - 1]);
      BigEndianIsNat(init);
      NatShifted(BitsOf(init), last);
      assert b == init + [last];
      assert BitsOf(b) == BitsOf(init) + last;
    }
  }

  lemma {:induction false} NatShifted(x: seq<bool>, y: seq<bool>)
    ensures Nat(x + y) == Pow2(|y|) * Nat(x) + Nat(y)
  {
    if y == [] {
      assert x + y == x;
    } else {
      var (init, last) := (y[..|y| - 1], y[|y| - 1]);
      NatShifted(x, init);
      assert (x + y)[..|x + y| - 1] == x + init;
      Doubled(Pow2(|init|), Nat(x), Nat(init));
    }
  }

  lemma {:induction false} Doubled(p: nat, n: nat, m: nat)
    ensures 2 * (p * n + m) == 2 * p * n + 2 * m
  {}

  /** The C library's memcmp on strings of one length. */
  function MemCmp(a: seq<Byte>, b: seq<Byte>): int
    requires |a| == |b|
  {
    if a == [] then 0
    else if a[0] != b[0] then Nat(a[0]) - Nat(b[0])
    else MemCmp(a[1..], b[1..])
  }

  // The last byte decides when all others agree.
  lemma {:induction false} MemCmpLast(a: seq<Byte>, b: seq<Byte>)
    requires |a| == |b| > 0
    ensures var (n, c) := (|a| - 1, MemCmp(a[..|a| - 1], b[..|a| - 1]));
            MemCmp(a, b) == if c != 0 then c else Nat(a[n]) - Nat(b[n])
  {
    hide Nat;
    if |a| > 1 {
      var n := |a| - 1;
      MemCmpLast(a[1..], b[1..]);
      assert a[1..][..n - 1] == a[..n][1..] && b[1..][..n - 1] == b[..n][1..];
      BytesDiffer(a[0], b[0]);
    }
  }

  lemma {:induction false} BytesDiffer(x: Byte, y: Byte)
    ensures x != y ==> Nat(x) != Nat(y)
  {
    hide Nat;
    if Nat(x) == Nat(y) { NatInjective(x, y); }
  }

  /** Byte order comparison is comparison of the denoted numbers. */
  lemma {:induction false} MemCmpIsNumeric(a: seq<Byte>, b: seq<Byte>)
    requires |a| == |b|
    ensures MemCmp(a, b) < 0 <==> BigEndian(a) < BigEndian(b)
    ensures MemCmp(a, b) > 0 <==> BigEndian(a) > BigEndian(b)
  {
    hide Nat, MemCmp;
    if a == [] {
      MemCmpEmpty(a, b);
    } else {
      MemCmpIsNumeric(a[..|a| - 1], b[..|b| - 1]);
      MemCmpLast(a, b);
      ByteRange(a[|a| - 1]);
      ByteRange(b[|b| - 1]);
    }
  }

  lemma {:induction false} MemCmpEmpty(a: seq<Byte>, b: seq<Byte>)
    requires a == b == []
    ensures MemCmp(a, b) == 0
  {}

  // ----- matching -----------------------------------------------------------

  ghost predicate WellFormed(k: Key, n: nat) {
    |k.data| == n && |k.mask| == n && Sum(Widths(k)) <= n
  }

  ghost predicate InRange(x: seq<Byte>, k: Key, from: nat, to: nat)
    requires from <= to <= |x| && |k.data| == |k.mask| == |x|
  {
    BigEndian(k.data[from..to]) <= BigEndian(x[from..to]) <= BigEndian(k.mask[from..to])
  }

  ghost predicate Masked(x: seq<Byte>, k: Key, from: nat, to: nat)
    requires to <= |x| && |k.data| == |k.mask| == |x|
  {
    forall i :: from <= i < to ==> k.data[i] == And(x[i], k.mask[i])
  }

  lemma {:induction false} SumPrefix(ws: seq<nat>, j: nat)
    requires j <= |ws|
    ensures Sum(ws[..j]) <= Sum(ws)
    ensures j < |ws| ==> Sum(ws[..j + 1]) == Sum(ws[..j]) + ws[j]
  {
    SumGrows(ws, j, |ws|);
    assert ws[..|ws|] == ws;
    if j < |ws| { SumNext(ws, j); }
  }

  ghost predicate RangesHold(x: seq<Byte>, k: Key, count: nat)
    requires WellFormed(k, |x|) && count <= |Widths(k)|
  {
    forall j :: 0 <= j < count ==> RangeHolds(x, k, j)
  }

  ghost predicate RangeHolds(x: seq<Byte>, k: Key, j: nat)
    requires WellFormed(k, |x|) && j < |Widths(k)|
  {
    var from := Sum(Widths(k)[..j]);
    SumPrefix(Widths(k), j);
    SumPrefix(Widths(k), j + 1);
    InRange(x, k, from, from + Widths(k)[j])
  }

  /** What it means for key bytes to match: every range field lies, as a number,
      between the bounds, and the rest agrees under the mask. */
  ghost predicate Matches(x: seq<Byte>, k: Key)
    requires WellFormed(k, |x|)
  {
    RangesHold(x, k, |Widths(k)|) && Masked(x, k, Sum(Widths(k)), |x|)
  }

  /** The comparison of TernaryMap. */
  method TernaryCompare(x: seq<Byte>, k: Key) returns (b: bool)
    requires WellFormed(k, |x|) && k.Ternary?
    ensures b <==> Matches(x, k)
  {
    for i := 0 to |x|
      invariant Masked(x, k, 0, i)
    {
      if k.data[i] != And(x[i], k.mask[i]) { return false; }
    }
    return true;
  }

  /** The comparison of RangeMap. */
  method RangeCompare(x: seq<Byte>, k: Key) returns (b: bool)
    requires WellFormed(k, |x|) && k.Range?
    ensures b <==> Matches(x, k)
  {
    hide BigEndian, MemCmp, Sum;
    var offset := 0;
    SumNone(k.widths);
    for j := 0 to |k.widths|
      invariant offset == Sum(k.widths[..j]) && offset <= |x| && RangesHold(x, k, j)
    {
      var w := k.widths[j];
      SumPrefix(k.widths, j);
      SumPrefix(k.widths, j + 1);
      MemCmpIsNumeric(x[offset..offset + w], k.data[offset..offset + w]);
      MemCmpIsNumeric(x[offset..offset + w], k.mask[offset..offset + w]);
      if MemCmp(x[offset..offset + w], k.data[offset..offset + w]) < 0 {
        assert !RangeHolds(x, k, j);
        return false;
      }
      if MemCmp(x[offset..offset + w], k.mask[offset..offset + w]) > 0 {
        assert !RangeHolds(x, k, j);
        return false;
      }
      offset := offset + w;
    }
    assert k.widths[..|k.widths|] == k.widths;
    for i := offset to |x|
      invariant Masked(x, k, offset, i)
    {
      if k.data[i] != And(x[i], k.mask[i]) { return false; }
    }
    return true;
  }

  // ----- the list -----------------------------------------------------------

  /** prev and next are indices into the entries, -1 for a null pointer. */
  datatype Entry = Entry(priority: int, key: Key, prev: int, next: int)

  function At(order: seq<nat>, i: int): int {
    if 0 <= i < |order| then order[i] else -1
  }

  ghost predicate Increasing(order: seq<nat>) {
    forall i, j :: 0 <= i < j < |order| ==> order[i] < order[j]
  }

  ghost predicate Linked(es: seq<Entry>, order: seq<nat>, i: nat)
    requires i < |order|
  {
    && order[i] < |es|
    && es[order[i]].next == At(order, i + 1) && es[order[i]].prev == At(order, i - 1)
    && es[order[i]].priority == es[order[i]].key.priority
  }

  /** From head, next visits exactly the handles of `order`, which increase, and
      prev is the inverse of next. */
  ghost predicate Chained(es: seq<Entry>, head: int, order: seq<nat>) {
    && Increasing(order) && head == At(order, 0)
    && forall i :: 0 <= i < |order| ==> Linked(es, order, i)
  }

  /** The live handles and their keys. */
  ghost function TableOf(es: seq<Entry>, order: seq<nat>): map<nat, Key> {
    map h | h in order && h < |es| :: es[h].key
  }

  function Inserted(order: seq<nat>, h: nat): seq<nat>
    requires h <= |order|
  {
    order[..h] + [h] + order[h..]
  }

  function Removed(order: seq<nat>, i: nat): seq<nat>
    requires i < |order|
  {
    order[..i] + order[i + 1..]
  }

  /** When every lower handle is live, the list starts with them. */
  lemma {:induction false} LowHandlesFirst(order: seq<nat>, h: nat, i: nat)
    requires Increasing(order) && (forall g: nat :: g < h ==> g in order) && i < h
    ensures i < |order| && order[i] == i
    decreases i
  {
    if i > 0 { LowHandlesFirst(order, h, i - 1); }
    assert i in order;
    var k :| 0 <= k < |order| && order[k] == i;
    if k > i { RanksGrow(order, k); }
    if k < i { LowHandlesFirst(order, h, k); }
  }

  lemma {:induction false} RanksGrow(order: seq<nat>, k: nat)
    requires Increasing(order) && k < |order|
    ensures order[k] >= k
  {
    if k > 0 { RanksGrow(order, k - 1); }
  }

  // The writes of an insertion at h, with all lower handles live.
  ghost predicate InsertWrites(es: seq<Entry>, es': seq<Entry>, order: seq<nat>, h: nat, key: Key) {
    && h < |es| == |es'| && es'[h] == Entry(key.priority, key, h - 1, At(order, h))
    && (forall g :: 0 <= g < |es| && g != h ==>
          es'[g] == es[g].(next := if g == h - 1 then h else es[g].next,
                           prev := if g == At(order, h) then h else es[g].prev))
  }

  ghost predicate RemoveWrites(es: seq<Entry>, es': seq<Entry>, order: seq<nat>, i: nat) {
    var (p, n) := (At(order, i - 1), At(order, i + 1));
    |es| == |es'| && forall g :: 0 <= g < |es| ==>
      es'[g] == es[g].(next := if g == p then n else es[g].next, prev := if g == n then p else es[g].prev)
  }

  ghost predicate LowestFree(order: seq<nat>, h: nat) {
    h !in order && forall g: nat :: g < h ==> g in order
  }

  lemma {:induction false} LowestFreeSplits(order: seq<nat>, h: nat)
    requires Increasing(order) && LowestFree(order, h)
    ensures h <= |order|
    ensures forall i :: 0 <= i < h ==> order[i] == i
    ensures forall i :: h <= i < |order| ==> order[i] > h
  {
    forall i: nat | i < h ensures i < |order| && order[i] == i { LowHandlesFirst(order, h, i); }
    if h > 0 { LowHandlesFirst(order, h, h - 1); }
    forall i: nat | h <= i < |order| ensures order[i] > h {
      RanksGrow(order, i);
      assert order[i] in order;
    }
  }

  /** A free lowest handle goes between its neighbours in increasing order. */
  lemma {:induction false} InsertedIncreasing(order: seq<nat>, h: nat)
    requires Increasing(order) && LowestFree(order, h)
    ensures h <= |order| && Increasing(Inserted(order, h))
    ensures forall i :: 0 <= i < h ==> order[i] == i
    ensures forall i :: h <= i < |order| ==> order[i] > h
  {
    LowestFreeSplits(order, h);
    hide LowestFree;
    var order' := Inserted(order, h);
    forall i, j | 0 <= i < j < |order'| ensures order'[i] < order'[j] {
      assert order'[i] == if i < h then i else if i == h then h else order[i - 1];
      assert order'[j] == if j < h then j else if j == h then h else order[j - 1];
    }
  }

  lemma {:induction false} InsertedMembers(order: seq<nat>, h: nat)
    requires h <= |order|
    ensures forall g :: g in Inserted(order, h) <==> g == h || g in order
  {
    assert order == order[..h] + order[h..];
  }

  lemma {:induction false} RemovedMembers(order: seq<nat>, i: nat)
    requires i < |order| && Increasing(order)
    ensures Increasing(Removed(order, i))
    ensures forall g :: g in Removed(order, i) <==> g in order && g != order[i]
  {
    var order' := Removed(order, i);
    assert forall j :: 0 <= j < |order'| ==> order'[j] == order[if j < i then j else j + 1];
    forall g | g in order && g != order[i] ensures g in order' {
      var j :| 0 <= j < |order| && order[j] == g;
      assert order'[if j < i then j else j - 1] == g;
    }
  }

  lemma {:induction false} InsertLinked(es: seq<Entry>, es': seq<Entry>, order: seq<nat>, h: nat, key: Key, i: nat)
    requires Increasing(order) && LowestFree(order, h) && InsertWrites(es, es', order, h, key)
    requires forall j :: 0 <= j < |order| ==> Linked(es, order, j)
    requires h <= |order| && i <= |order|
    ensures Linked(es', Inserted(order, h), i)
  {
    InsertedIncreasing(order, h);
    var order' := Inserted(order, h);
    if i < h {
      assert order'[i] == i == order[i] && Linked(es, order, i);
      assert At(order', i + 1) == if i + 1 == h then h else At(order, i + 1);
    } else if i == h {
      assert order'[h] == h && At(order', h + 1) == At(order, h);
    } else {
      assert order'[i] == order[i - 1] && Linked(es, order, i - 1);
      assert At(order', i - 1) == if i - 1 == h then h else At(order, i - 2);
      assert At(order', i + 1) == At(order, i);
    }
  }

  /** Insertion keeps the list: the new handle joins the table and nothing else
      changes. */
  lemma {:induction false} InsertChained(es: seq<Entry>, es': seq<Entry>, head: int, order: seq<nat>, h: nat, key: Key)
    requires Chained(es, head, order) && LowestFree(order, h) && InsertWrites(es, es', order, h, key)
    ensures h <= |order| && Chained(es', if h == 0 then 0 else head, Inserted(order, h))
    ensures TableOf(es', Inserted(order, h)) == TableOf(es, order)[h := key]
  {
    hide LowestFree;
    InsertedIncreasing(order, h);
    InsertedMembers(order, h);
    var order' := Inserted(order, h);
    forall i: nat | i < |order'| ensures Linked(es', order', i) { InsertLinked(es, es', order, h, key, i); }
    assert At(order', 0) == if h == 0 then 0 else At(order, 0);
  }

  lemma {:induction false} RemoveLinked(es: seq<Entry>, es': seq<Entry>, order: seq<nat>, i: nat, j: nat)
    requires Increasing(order) && i < |order| && RemoveWrites(es, es', order, i)
    requires forall k :: 0 <= k < |order| ==> Linked(es, order, k)
    requires j < |order| - 1
    ensures Linked(es', Removed(order, i), j)
  {
    var order' := Removed(order, i);
    var k := if j < i then j else j + 1;
    assert order'[j] == order[k] && Linked(es, order, k);
    assert At(order', j + 1) == if j + 1 < i then At(order, j + 1) else At(order, j + 2);
    assert At(order', j - 1) == if j - 1 < i then At(order, j - 1) else At(order, j);
  }

  /** Unlinking keeps the list without the removed handle. */
  lemma {:induction false} RemoveChained(es: seq<Entry>, es': seq<Entry>, head: int, order: seq<nat>, i: nat)
    requires Chained(es, head, order) && i < |order| && RemoveWrites(es, es', order, i)
    ensures Chained(es', if i == 0 then At(order, 1) else head, Removed(order, i))
    ensures TableOf(es', Removed(order, i)) == TableOf(es, order) - {order[i]}
  {
    hide TableOf;
    var order' := Removed(order, i);
    RemovedMembers(order, i);
    forall j: nat | j < |order'| ensures Linked(es', order', j) { RemoveLinked(es, es', order, i, j); }
    RemoveTable(es, es', order, i);
  }

  lemma {:induction false} RemoveTable(es: seq<Entry>, es': seq<Entry>, order: seq<nat>, i: nat)
    requires Increasing(order) && i < |order| && RemoveWrites(es, es', order, i)
    ensures TableOf(es', Removed(order, i)) == TableOf(es, order) - {order[i]}
  {
    RemovedMembers(order, i);
    SameKeys(es, es', order, i);
    hide Removed, Increasing, At, RemoveWrites, TableOf;
    var (l, r) := (TableOf(es', Removed(order, i)), TableOf(es, order) - {order[i]});
    forall h: nat ensures (h in l <==> h in r) && (h in l ==> l[h] == r[h]) {
      TableAt(es', Removed(order, i), h);
      TableAt(es, order, h);
    }
    assert l == r;
  }

  lemma {:induction false} TableAt(es: seq<Entry>, order: seq<nat>, h: nat)
    ensures h in TableOf(es, order) <==> h in order && h < |es|
    ensures h in TableOf(es, order) ==> TableOf(es, order)[h] == es[h].key
  {}

  lemma {:induction false} SameKeys(es: seq<Entry>, es': seq<Entry>, order: seq<nat>, i: nat)
    requires RemoveWrites(es, es', order, i)
    ensures |es| == |es'| && forall g :: 0 <= g < |es| ==> es'[g].key == es[g].key
  {
    hide At;
  }

  /** handle_from_entry measures the distance from head, so it gives back a live
      handle exactly when handle 0 is live. */
  lemma {:induction false} DistanceIsHandle(es: seq<Entry>, head: int, order: seq<nat>, h: nat)
    requires Chained(es, head, order) && h in order
    ensures h - head == h <==> 0 in TableOf(es, order)
    ensures 0 <= h - head
  {
    assert Linked(es, order, 0);
    assert order[0] in order;
  }

  // ----- what lookups promise -----------------------------------------------

  ghost predicate TableFits(t: map<nat, Key>, n: nat) {
    forall h :: h in t ==> WellFormed(t[h], n)
  }

  ghost predicate Eligible(t: map<nat, Key>, x: seq<Byte>, h: nat)
    requires TableFits(t, |x|)
  {
    h in t && t[h].priority < INT_MAX && Matches(x, t[h])
  }

  /** The entry a lookup must select: least priority, ties to the lowest handle. */
  ghost predicate Selected(t: map<nat, Key>, x: seq<Byte>, h: nat)
    requires TableFits(t, |x|)
  {
    && Eligible(t, x, h)
    && forall g :: Eligible(t, x, g) ==>
         t[h].priority < t[g].priority || (t[h].priority == t[g].priority && h <= g)
  }

  lemma {:induction false} SelectedUnique(t: map<nat, Key>, x: seq<Byte>, h: nat, g: nat)
    requires TableFits(t, |x|) && Selected(t, x, h) && Selected(t, x, g)
    ensures h == g
  {
    assert Eligible(t, x, h) && Eligible(t, x, g);
  }

  /** The first handle, in increasing order, that holds a key. */
  ghost predicate FirstWith(t: map<nat, Key>, key: Key, h: nat) {
    h in t && t[h] == key && forall g :: g in t && t[g] == key ==> h <= g
  }

  // Of the first i entries, h is the one to select; `found` says whether there is one.
  ghost predicate BestOf(t: map<nat, Key>, x: seq<Byte>, order: seq<nat>, i: nat, found: bool, h: nat)
    requires TableFits(t, |x|) && i <= |order|
  {
    && (found ==> Eligible(t, x, h) && h in order[..i])
    && forall j :: 0 <= j < i && Eligible(t, x, order[j]) ==>
         found && (t[h].priority < t[order[j]].priority || (t[h].priority == t[order[j]].priority && h <= order[j]))
  }

  ghost function Least(t: map<nat, Key>, found: bool, h: nat): int {
    if found && h in t then t[h].priority else INT_MAX
  }

  lemma {:induction false} NoneBest(t: map<nat, Key>, x: seq<Byte>, order: seq<nat>, h: nat)
    requires TableFits(t, |x|)
    ensures BestOf(t, x, order, 0, false, h)
  {}

  // What one turn of the loop of lookup does.
  lemma {:induction false} BestNext(t: map<nat, Key>, x: seq<Byte>, order: seq<nat>, i: nat, found: bool, h: nat)
    requires TableFits(t, |x|) && Increasing(order) && i < |order| && order[i] in t && BestOf(t, x, order, i, found, h)
    ensures t[order[i]].priority < Least(t, found, h) && Matches(x, t[order[i]]) ==>
              BestOf(t, x, order, i + 1, true, order[i])
    ensures !(t[order[i]].priority < Least(t, found, h) && Matches(x, t[order[i]])) ==>
              BestOf(t, x, order, i + 1, found, h)
  {
    hide Matches, WellFormed;
    assert order[..i + 1] == order[..i] + [order[i]];
  }

  lemma {:induction false} ListedKey(es: seq<Entry>, head: int, order: seq<nat>, i: nat, n: nat)
    requires Chained(es, head, order) && i < |order| && TableFits(TableOf(es, order), n)
    ensures order[i] < |es| && order[i] in TableOf(es, order)
    ensures var entry := es[order[i]];
            && TableOf(es, order)[order[i]] == entry.key && WellFormed(entry.key, n)
            && entry.priority == entry.key.priority && entry.next == At(order, i + 1)
  {
    hide WellFormed;
    assert Linked(es, order, i) && order[i] in order;
  }

  lemma {:induction false} AllBest(es: seq<Entry>, order: seq<nat>, x: seq<Byte>, found: bool, h: nat)
    requires TableFits(TableOf(es, order), |x|) && BestOf(TableOf(es, order), x, order, |order|, found, h)
    ensures found <==> exists g :: Eligible(TableOf(es, order), x, g)
    ensures found ==> Selected(TableOf(es, order), x, h) && h in order
  {
    hide Matches, WellFormed;
    var t := TableOf(es, order);
    forall g | Eligible(t, x, g)
      ensures found && (t[h].priority < t[g].priority || (t[h].priority == t[g].priority && h <= g))
    {
      var j :| 0 <= j < |order| && order[j] == g;
      assert Eligible(t, x, order[j]);
    }
  }

  class EntryList {
    var entries: array<Entry>
    var head: int
    const nbytes: nat
    ghost var order: seq<nat>

    ghost predicate Valid()
      reads this, entries
    {
      Chained(entries[..], head, order) && TableFits(Table(), nbytes)
    }

    ghost function Table(): map<nat, Key>
      reads this, entries
    {
      TableOf(entries[..], order)
    }

    constructor (size: nat, nbytes: nat)
      ensures Valid() && fresh(entries) && entries.Length == size && this.nbytes == nbytes && Table() == map[]
    {
      entries := new Entry[size](_ => Entry(0, Ternary([], [], 0), -1, -1));
      head, this.nbytes, order := -1, nbytes, [];
    }

    /** add, called with the lowest free handle. */
    method Add(key: Key, handle: nat)
      requires Valid() && WellFormed(key, nbytes) && handle < entries.Length && LowestFree(order, handle)
      modifies this, entries
      ensures Valid() && entries == old(entries)
      ensures Table() == old(Table())[handle := key]
    {
      ghost var es := entries[..];
      ghost var was := order;
      InsertedIncreasing(order, handle);
      Splice(key, handle);
      order := Inserted(order, handle);
      InsertChained(es, entries[..], old(head), was, handle, key);
    }

    // The pointer writes of add.
    method Splice(key: Key, handle: nat)
      requires Chained(entries[..], head, order) && handle < entries.Length && LowestFree(order, handle)
      modifies this`head, entries
      ensures InsertWrites(old(entries[..]), entries[..], order, handle, key)
      ensures head == if handle == 0 then 0 else old(head)
    {
      InsertedIncreasing(order, handle);
      if handle == 0 {
        var next := head;
        entries[handle] := Entry(key.priority, key, -1, next);
        head := handle;
        if next >= 0 {
          assert Linked(old(entries[..]), order, 0);
          entries[next] := entries[next].(prev := handle);
        }
      } else {
        assert Linked(entries[..], order, handle - 1);
        var next := entries[handle - 1].next;
        entries[handle] := Entry(key.priority, key, handle - 1, next);
        entries[handle - 1] := entries[handle - 1].(next := handle);
        if next >= 0 {
          assert Linked(old(entries[..]), order, handle);
          entries[next] := entries[next].(prev := handle);
        }
      }
    }

    /** find_entry: the index of the first entry with this key, or -1. */
    method FindEntry(key: Key) returns (e: int, ghost i: nat)
      requires Valid()
      ensures e == -1 ==> forall h :: h in Table() ==> Table()[h] != key
      ensures e != -1 ==> i < |order| && e == order[i] && e in Table() && FirstWith(Table(), key, e)
    {
      e, i := head, 0;
      while e >= 0
        invariant i <= |order| && e == At(order, i)
        invariant forall j :: 0 <= j < i ==> order[j] < entries.Length && entries[order[j]].key != key
        decreases |order| - i
      {
        assert Linked(entries[..], order, i);
        if entries[e].priority == key.priority && entries[e].key == key { return; }
        e := entries[e].next;
        i := i + 1;
      }
    }

    method Exists(key: Key) returns (b: bool)
      requires Valid()
      ensures b <==> exists h :: h in Table() && Table()[h] == key
    {
      var e, _ := FindEntry(key);
      return e != -1;
    }

    /** retrieve_handle: the distance of the first entry with this key from head. */
    method RetrieveHandle(key: Key) returns (found: bool, handle: int, ghost h: nat)
      requires Valid()
      ensures found <==> exists g :: g in Table() && Table()[g] == key
      ensures found ==> FirstWith(Table(), key, h) && handle == h - head
      ensures found ==> (handle == h <==> 0 in Table())
    {
      var e, i := FindEntry(key);
      found, handle, h := e != -1, 0, 0;
      if found {
        handle, h := e - head, e;
        DistanceIsHandle(entries[..], head, order, h);
      }
    }

    /** delete_entry of a key that is present. */
    method DeleteEntry(key: Key) returns (ghost h: nat)
      requires Valid() && exists g :: g in Table() && Table()[g] == key
      modifies this, entries
      ensures Valid() && entries == old(entries)
      ensures FirstWith(old(Table()), key, h) && Table() == old(Table()) - {h}
    {
      var e, i := FindEntry(key);
      ghost var g :| g in Table() && Table()[g] == key;
      assert e != -1;
      h := e;
      ghost var (es, was) := (entries[..], order);
      Unlink(e, i);
      order := Removed(order, i);
      RemoveChained(es, entries[..], old(head), was, i);
    }

    // The pointer writes of delete_entry.
    method Unlink(e: nat, ghost i: nat)
      requires Chained(entries[..], head, order) && i < |order| && e == order[i]
      modifies this`head, entries
      ensures RemoveWrites(old(entries[..]), entries[..], order, i)
      ensures head == if i == 0 then At(order, 1) else old(head)
    {
      assert Linked(entries[..], order, i);
      assert i > 0 ==> Linked(entries[..], order, i - 1);
      assert i + 1 < |order| ==> Linked(entries[..], order, i + 1);
      var (p, n) := (entries[e].prev, entries[e].next);
      if p >= 0 {
        entries[p] := entries[p].(next := n);
      } else {
        head := n;
      }
      if n >= 0 {
        entries[n] := entries[n].(prev := p);
      }
    }

    /** The comparison that TernaryMap or RangeMap passes to lookup. */
    method Compare(x: seq<Byte>, k: Key) returns (b: bool)
      requires WellFormed(k, |x|)
      ensures b <==> Matches(x, k)
    {
      if k.Ternary? { b := TernaryCompare(x, k); } else { b := RangeCompare(x, k); }
    }

    /** lookup selects the matching entry of least priority, ties to the lowest
        handle, and reports its distance from head: its handle if and only if
        handle 0 is live. */
    method Lookup(x: seq<Byte>) returns (found: bool, handle: int, ghost h: nat)
      requires Valid() && |x| == nbytes
      ensures found <==> exists g :: Eligible(Table(), x, g)
      ensures found ==> Selected(Table(), x, h) && handle == h - head
      ensures found ==> (handle == h <==> 0 in Table())
    {
      hide Matches, Selected, Eligible, BestOf, TableFits, WellFormed, TableOf;
      found, handle, h := false, 0, 0;
      var minPriority := INT_MAX;
      var e := head;
      ghost var i: nat := 0;
      NoneBest(Table(), x, order, h);
      while e >= 0
        invariant i <= |order| && e == At(order, i)
        invariant BestOf(Table(), x, order, i, found, h) && minPriority == Least(Table(), found, h)
        invariant found ==> handle == h - head
        decreases |order| - i
      {
        ListedKey(entries[..], head, order, i, |x|);
        var entry := entries[e];
        BestNext(Table(), x, order, i, found, h);
        if entry.priority < minPriority {
          var b := Compare(x, entry.key);
          if b {
            found, handle, h := true, e - head, e;
            minPriority := entry.priority;
          }
        }
        e := entry.next;
        i := i + 1;
      }
      AllBest(entries[..], order, x, found, h);
      if found { DistanceIsHandle(entries[..], head, order, h); }
    }
  }

  // ----- runs ---------------------------------------------------------------

  /** What the tables ask of the list: a key is added under the lowest free handle
      if there is one, a present key is deleted. */
  datatype Op = AddOp(key: Key) | DeleteOp(key: Key)

  function FreeFrom(t: map<nat, Key>, h: nat, size: nat): (r: nat)
    requires h <= size
    ensures h <= r <= size && (r < size ==> r !in t)
    ensures forall g :: h <= g < r ==> g in t
    decreases size - h
  {
    if h == size || h !in t then h else FreeFrom(t, h + 1, size)
  }

  function WithKey(t: map<nat, Key>, key: Key, h: nat, size: nat): (r: nat)
    requires h <= size
    ensures h <= r <= size && (r < size ==> r in t && t[r] == key)
    ensures forall g :: h <= g < r && g in t ==> t[g] != key
    decreases size - h
  {
    if h == size || (h in t && t[h] == key) then h else WithKey(t, key, h + 1, size)
  }

  function Apply(t: map<nat, Key>, op: Op, size: nat): map<nat, Key> {
    match op
    case AddOp(key) => var h := FreeFrom(t, 0, size); if h < size then t[h := key] else t
    case DeleteOp(key) => var h := WithKey(t, key, 0, size); if h < size then t - {h} else t
  }

  function RunTable(ops: seq<Op>, size: nat): map<nat, Key> {
    if ops == [] then map[] else Apply(RunTable(ops[..|ops| - 1], size), ops[|ops| - 1], size)
  }

  // The table t is the match unit's own record of what it stored.
  method Perform(l: EntryList, t: map<nat, Key>, op: Op)
    requires l.Valid() && WellFormed(op.key, l.nbytes) && l.Table() == t
    modifies l, l.entries
    ensures l.Valid() && l.entries == old(l.entries)
    ensures l.Table() == Apply(t, op, l.entries.Length)
  {
    hide WellFormed, FreeFrom, WithKey;
    match op
    case AddOp(key) =>
      var h := FreeFrom(t, 0, l.entries.Length);
      if h < l.entries.Length {
        TableKeys(l.entries[..], l.head, l.order);
        l.Add(key, h);
      }
    case DeleteOp(key) =>
      TableKeys(l.entries[..], l.head, l.order);
      ghost var w := WithKey(t, key, 0, l.entries.Length);
      var b := l.Exists(key);
      if b {
        ghost var h := l.DeleteEntry(key);
        assert h == w;
      }
  }

  lemma {:induction false} TableKeys(es: seq<Entry>, head: int, order: seq<nat>)
    requires Chained(es, head, order)
    ensures forall h: nat :: h in TableOf(es, order) <==> h in order
    ensures forall h: nat :: h in order ==> h < |es|
  {
    forall h: nat | h in order ensures h < |es| {
      var i :| 0 <= i < |order| && order[i] == h;
      assert Linked(es, order, i);
    }
  }

  /** Over every run of additions and deletions the linked list holds exactly the
      table of that run; Valid says that it is chained in both directions. */
  method RunAll(size: nat, nbytes: nat, ops: seq<Op>) returns (l: EntryList)
    requires forall i :: 0 <= i < |ops| ==> WellFormed(ops[i].key, nbytes)
    ensures fresh(l) && l.Valid() && l.nbytes == nbytes && l.entries.Length == size
    ensures l.Table() == RunTable(ops, size)
  {
    hide Apply, WellFormed;
    l := new EntryList(size, nbytes);
    for i := 0 to |ops|
      invariant fresh(l) && fresh(l.entries) && l.Valid() && l.nbytes == nbytes && l.entries.Length == size
      invariant l.Table() == RunTable(ops[..i], size)
    {
      assert ops[..i + 1][..i] == ops[..i];
      Perform(l, RunTable(ops[..i], size), ops[i]);
    }
    assert ops[..|ops|] == ops;
  }

  /** Deleting the key of handle 0 while another entry lives makes every report
      wrong: here only handle 1 is live, and a lookup of it reports 0. */
  lemma {:induction false} HandleZeroMatters(a: Key, b: Key, size: nat, es: seq<Entry>, head: int, order: seq<nat>)
    requires a != b && size >= 2 && Chained(es, head, order)
    requires TableOf(es, order) == RunTable([AddOp(a), AddOp(b), DeleteOp(a)], size)
    ensures TableOf(es, order) == map[1 := b] && 1 in order && 1 - head == 0
  {
    ThreeOps(a, b, size);
    TableKeys(es, head, order);
    assert 1 in order;
    assert order[0] in order && order[0] in TableOf(es, order);
  }

  lemma {:induction false} ThreeOps(a: Key, b: Key, size: nat)
    requires a != b && size >= 2
    ensures RunTable([AddOp(a), AddOp(b), DeleteOp(a)], size) == map[1 := b]
  {
    var ops := [AddOp(a), AddOp(b), DeleteOp(a)];
    assert ops[..2] == [AddOp(a), AddOp(b)] && ops[..2][..1] == [AddOp(a)] && [AddOp(a)][..0] == [];
    assert RunTable([AddOp(a)], size) == map[0 := a];
    assert FreeFrom(map[0 := a], 0, size) == 1;
    assert RunTable([AddOp(a), AddOp(b)], size) == map[0 := a][1 := b] == map[0 := a, 1 := b];
    assert WithKey(map[0 := a, 1 := b], a, 0, size) == 0;
  }
}
