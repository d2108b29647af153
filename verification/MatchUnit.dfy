/** MatchUnitGeneric of match_units.cpp: a table of entries indexed by handle, with
    versioned handles given to the control plane and an index from keys to handles
    (the lookup structure, through its map contract). */
module MatchUnit {
  import opened Options
  import opened Bits
  import opened Sets
  import opened MatchKeys
  import opened MatchParams
  import opened MatchConversion
  import opened Sequences
  import MatchMeaning

  datatype Code = Success | TableFull | InvalidHandle | ExpiredHandle | DuplicateEntry | BadMatchKey

  /** How many slots a handle can name. */
  const SLOTS: nat := 0x100_0000

  /** entry_handle_t. */
  type Handle = h: nat | h < 0x1_0000_0000

  // HANDLE_SET, HANDLE_INTERNAL and HANDLE_VERSION: the low byte of the version is
  // or-ed onto what the slot has above its low 24 bits, in 32 bits.
  function HandleSet(version: nat, slot: nat): Handle {
    HandleByte(version, slot) * SLOTS + slot % SLOTS
  }

  function HandleByte(version: nat, slot: nat): (r: nat)
    ensures r < 256
  {
    var r := Or(ByteOf(version % 256), ByteOf(slot / SLOTS % 256));
    ByteRange(r);
    Nat(r)
  }

  function HandleInternal(h: nat): nat {
    h % SLOTS
  }

  function HandleVersion(h: nat): nat {
    h / SLOTS
  }

  /** A stored key; the priority is 0 unless the table is ternary or range. */
  datatype Key = Key(kind: Kind, entry: EntryKey, priority: int)

  /** What the lookup structures tell keys apart by: the hash map by the data, the
      trie by the prefix, the entry list by all it is given. */
  datatype IndexKey = ByData(data: seq<Byte>) | ByPrefix(prefix: seq<bool>) | ByMask(entry: EntryKey, priority: int)

  function PrefixBits(e: EntryKey): seq<bool> {
    var bits := BitsOf(e.data);
    if 0 <= e.prefixLength <= |bits| then bits[..e.prefixLength] else bits
  }

  function IndexOf(k: Key): IndexKey {
    match k.kind
    case ExactKind => ByData(k.entry.data)
    case LpmKind => ByPrefix(PrefixBits(k.entry))
    case _ => ByMask(k.entry, k.priority)
  }

  /** One element of entries; a slot keeps its last content after a deletion. */
  datatype Slot<V> = Slot(version: nat, content: Option<(Key, V)>)

  datatype Table<V> = Table(entries: seq<Slot<V>>, metas: seq<nat>, handles: set<nat>, numEntries: nat,
                            index: map<IndexKey, nat>)

  function Empty<V>(size: nat): Table<V> {
    Table(seq(size, _ => Slot(0, None)), seq(size, _ => 0), {}, 0, map[])
  }

  // ----- the operations -----------------------------------------------------
  // They are defined on every table; the tests on lengths and on empty slots only
  // guard accesses, and Inv below rules the guarded cases out.

  /** The lowest handle from n on that is not in use. */
  function FirstEmpty(handles: set<nat>, n: nat): (r: nat)
    ensures r >= n && r !in handles && forall k :: n <= k < r ==> k in handles
    decreases handles - Below(n)
  {
    if n !in handles then n
    else
      assert n in handles - Below(n) && n !in handles - Below(n + 1);
      FirstEmpty(handles, n + 1)
  }

  /** What a call returns: a code, and on success a handle or a value. */
  datatype Reply<V> = Reply(code: Code, handle: Handle, value: Option<V>)

  function Fail<V>(code: Code): Reply<V> {
    Reply(code, 0, None)
  }

  /** add_entry, for the key built from the parameters (None: they are not sane). */
  function AddEntry<V>(t: Table<V>, key: Option<Key>, value: V): (Table<V>, Reply<V>) {
    if key.None? then (t, Fail(BadMatchKey))
    else if IndexOf(key.value) in t.index then (t, Fail(DuplicateEntry))
    else if t.numEntries >= |t.entries| then (t, Fail(TableFull))
    else
      var slot := FirstEmpty(t.handles, 0);
      if slot >= |t.entries| || slot >= |t.metas| then (t, Fail(TableFull))
      else
        (Placed(t, key.value, value, slot), Reply(Success, HandleSet(t.entries[slot].version, slot), None))
  }

  /** The new entry in its slot, which keeps its version. */
  function Placed<V>(t: Table<V>, key: Key, value: V, slot: nat): Table<V>
    requires slot < |t.entries| && slot < |t.metas|
  {
    var version := t.entries[slot].version;
    Table(t.entries[slot := Slot(version, Some((key, value)))], NewMetas(t.metas, HandleSet(version, slot)),
          t.handles + {slot}, t.numEntries + 1, t.index[IndexOf(key) := slot])
  }

  /** entry_meta is written at the slot that the handle names. */
  function NewMetas(metas: seq<nat>, handle: nat): seq<nat> {
    if HandleInternal(handle) < |metas| then metas[HandleInternal(handle) := HandleVersion(handle)] else metas
  }

  /** The check that delete, modify and get share. */
  function CheckHandle<V>(t: Table<V>, handle: Handle): Code {
    var slot := HandleInternal(handle);
    if slot !in t.handles || slot >= |t.entries| then InvalidHandle
    else if HandleVersion(handle) != t.entries[slot].version then ExpiredHandle
    else Success
  }

  function DeleteEntry<V>(t: Table<V>, handle: Handle): (Table<V>, Reply<V>) {
    var code := CheckHandle(t, handle);
    if code != Success then (t, Fail(code))
    else (Removed(t, HandleInternal(handle)), Reply(Success, 0, None))
  }

  /** The slot is free again, one version (a uint32_t) later. */
  function Removed<V>(t: Table<V>, slot: nat): Table<V>
    requires slot < |t.entries|
  {
    var entry := t.entries[slot];
    Table(t.entries[slot := entry.(version := (entry.version + 1) % 0x1_0000_0000)], t.metas, t.handles - {slot},
          if t.numEntries > 0 then t.numEntries - 1 else 0,
          if entry.content.Some? then t.index - {IndexOf(entry.content.value.0)} else t.index)
  }

  function ModifyEntry<V>(t: Table<V>, handle: Handle, value: V): (Table<V>, Reply<V>) {
    var code := CheckHandle(t, handle);
    if code != Success then (t, Fail(code))
    else
      var slot := HandleInternal(handle);
      var entry := t.entries[slot];
      if entry.content.None? then (t, Fail(InvalidHandle))
      else (t.(entries := t.entries[slot := entry.(content := Some((entry.content.value.0, value)))]),
            Reply(Success, 0, None))
  }

  datatype Action<V> = DoAdd(key: Option<Key>, value: V) | DoDelete(handle: Handle) | DoModify(handle: Handle, value: V)

  function Apply<V>(t: Table<V>, a: Action<V>): (Table<V>, Reply<V>) {
    match a
    case DoAdd(key, value) => AddEntry(t, key, value)
    case DoDelete(handle) => DeleteEntry(t, handle)
    case DoModify(handle, value) => ModifyEntry(t, handle, value)
  }

  function Run<V>(t: Table<V>, actions: seq<Action<V>>): Table<V> {
    if actions == [] then t else Apply(Run(t, actions[..|actions| - 1]), actions[|actions| - 1]).0
  }

  // ----- the invariant ------------------------------------------------------

  ghost predicate Live<V>(t: Table<V>, slot: nat) {
    slot in t.handles && slot < |t.entries| && t.entries[slot].content.Some?
  }

  function IndexAt<V>(t: Table<V>, slot: nat): IndexKey
    requires slot < |t.entries| && t.entries[slot].content.Some?
  {
    IndexOf(t.entries[slot].content.value.0)
  }

  ghost predicate Sized<V>(t: Table<V>) {
    && |t.metas| == |t.entries|
    && t.handles <= Below(|t.entries|) && t.numEntries == |t.handles|
    && forall i :: 0 <= i < |t.entries| ==> t.entries[i].version <= 256
  }

  /** The index holds exactly the live keys, each with its own slot. */
  ghost predicate Indexed<V>(t: Table<V>) {
    && (forall i :: i in t.handles ==>
          Live(t, i) && IndexAt(t, i) in t.index && t.index[IndexAt(t, i)] == i)
    && (forall k :: k in t.index ==>
          t.index[k] in t.handles && Live(t, t.index[k]) && IndexAt(t, t.index[k]) == k)
  }

  /** The version kept beside the entry is that of the handle. */
  ghost predicate MetasMatch<V>(t: Table<V>) {
    |t.metas| == |t.entries| && forall i :: i in t.handles && i < |t.entries| ==>
      t.metas[i] == t.entries[i].version % 256
  }

  ghost predicate Inv<V>(t: Table<V>) {
    Sized(t) && Indexed(t) && (|t.entries| <= SLOTS ==> MetasMatch(t))
  }

  lemma {:induction false} FreeSlot(handles: set<nat>, size: nat)
    requires handles <= Below(size) && |handles| < size
    ensures FirstEmpty(handles, 0) < size
  {
    if FirstEmpty(handles, 0) >= size {
      assert Below(size) <= handles;
      SubsetSize(Below(size), handles);
    }
  }

  /** What is read back from a handle. */
  lemma {:induction false} HandleParts(version: nat, slot: nat)
    ensures HandleInternal(HandleSet(version, slot)) == slot % SLOTS
    ensures HandleVersion(HandleSet(version, slot)) == HandleByte(version, slot)
  {
    hide HandleByte;
  }

  lemma {:induction false} LowHandleParts(version: nat, slot: nat)
    requires slot < SLOTS
    ensures HandleInternal(HandleSet(version, slot)) == slot && HandleVersion(HandleSet(version, slot)) == version % 256
    ensures HandleSet(version, slot) == version % 256 * 0x100_0000 + slot
  {
    hide HandleByte, HandleInternal, HandleVersion;
    HandleParts(version, slot);
    LowHandleByte(version, slot);
  }

  lemma {:induction false} LowHandleByte(version: nat, slot: nat)
    requires slot < SLOTS
    ensures HandleByte(version, slot) == version % 256
  {
    OrZero(version % 256);
    assert slot / SLOTS % 256 == 0;
    hide Nat, Or, ByteOf;
  }

  lemma {:induction false} OrZero(n: nat)
    requires n < 256
    ensures Or(ByteOf(n), ByteOf(0)) == ByteOf(n) && Or(ByteOf(0), ByteOf(n)) == ByteOf(n)
  {
    NatZeros(8);
    NatInjective(ByteOf(0), Zeros(8));
  }

  /** A handle names its slot if and only if the slot fits in 24 bits. */
  lemma {:induction false} HandleNamesSlot(version: nat, slot: nat)
    ensures HandleInternal(HandleSet(version, slot)) == slot <==> slot < 0x100_0000
  {
    HandleParts(version, slot);
    hide HandleSet, HandleInternal, HandleByte;
  }

  lemma {:induction false} StartInv<V>(size: nat)
    ensures Inv(Empty<V>(size))
  {}

  /** When each error is returned; a table that is not full has a free slot. */
  lemma {:induction false} AddByIndex<V>(t: Table<V>, key: Option<Key>, value: V)
    requires Inv(t)
    ensures AddEntry(t, key, value).1.code ==
              if key.None? then BadMatchKey
              else if IndexOf(key.value) in t.index then DuplicateEntry
              else if |t.handles| == |t.entries| then TableFull
              else Success
    ensures var (t', reply) := AddEntry(t, key, value);
            if reply.code != Success then t' == t
            else var slot := FirstEmpty(t.handles, 0);
                 && slot < |t.entries| == |t.metas| && slot !in t.handles && key.Some? && IndexOf(key.value) !in t.index
                 && t' == Placed(t, key.value, value, slot) && reply.handle == HandleSet(t.entries[slot].version, slot)
  {
    hide Placed, HandleSet, Indexed, IndexOf;
    SubsetSize(t.handles, Below(|t.entries|));
    if t.numEntries < |t.entries| { FreeSlot(t.handles, |t.entries|); }
  }

  lemma {:induction false} AddKeeps<V>(t: Table<V>, key: Option<Key>, value: V)
    requires Inv(t)
    ensures Inv(AddEntry(t, key, value).0)
  {
    hide Placed, AddEntry, HandleSet, Indexed, Sized, MetasMatch, FirstEmpty, IndexOf;
    AddByIndex(t, key, value);
    if AddEntry(t, key, value).1.code == Success {
      var slot := FirstEmpty(t.handles, 0);
      PlacedSized(t, key.value, value, slot);
      PlacedIndexed(t, key.value, value, slot);
    }
  }

  lemma {:induction false} PlacedSized<V>(t: Table<V>, key: Key, value: V, slot: nat)
    requires Sized(t) && slot < |t.entries| && slot !in t.handles
    ensures Sized(Placed(t, key, value, slot)) && |Placed(t, key, value, slot).entries| == |t.entries|
    ensures |t.entries| <= SLOTS && MetasMatch(t) ==> MetasMatch(Placed(t, key, value, slot))
  {
    hide HandleSet, HandleVersion, HandleInternal, IndexOf;
    if slot < SLOTS { LowHandleParts(t.entries[slot].version, slot); }
  }

  lemma {:induction false} PlacedIndexed<V>(t: Table<V>, key: Key, value: V, slot: nat)
    requires Indexed(t) && IndexOf(key) !in t.index && slot < |t.entries| && slot < |t.metas| && slot !in t.handles
    ensures Indexed(Placed(t, key, value, slot))
  {
    hide HandleSet, NewMetas, IndexOf, Indexed;
    AddIndexed(t, key, value, slot, Placed(t, key, value, slot));
  }

  lemma {:induction false} AddIndexed<V>(t: Table<V>, key: Key, value: V, slot: nat, t': Table<V>)
    requires Indexed(t) && IndexOf(key) !in t.index && slot < |t.entries| && slot !in t.handles
    requires t'.entries == t.entries[slot := Slot(t.entries[slot].version, Some((key, value)))]
    requires t'.handles == t.handles + {slot} && t'.index == t.index[IndexOf(key) := slot]
    ensures Indexed(t')
  {
    hide IndexOf;
  }

  lemma {:induction false} DeleteKeeps<V>(t: Table<V>, handle: Handle)
    requires Inv(t)
    ensures Inv(DeleteEntry(t, handle).0)
  {
    hide HandleInternal, HandleVersion, Removed, Indexed, Sized, MetasMatch;
    if CheckHandle(t, handle) == Success {
      VersionByte(t, handle);
      RemovedSized(t, HandleInternal(handle));
      RemovedIndexed(t, HandleInternal(handle));
    }
  }

  lemma {:induction false} RemovedSized<V>(t: Table<V>, slot: nat)
    requires Sized(t) && slot in t.handles && slot < |t.entries| && t.entries[slot].version < 256
    ensures Sized(Removed(t, slot)) && |Removed(t, slot).entries| == |t.entries|
    ensures MetasMatch(t) ==> MetasMatch(Removed(t, slot))
  {
    hide IndexOf;
  }

  lemma {:induction false} RemovedIndexed<V>(t: Table<V>, slot: nat)
    requires Indexed(t) && slot in t.handles && slot < |t.entries|
    ensures Indexed(Removed(t, slot))
  {
    hide IndexOf;
    assert Live(t, slot);
    DeleteIndexed(t, slot, Removed(t, slot));
  }

  // An accepted handle has a version that fits in eight bits.
  lemma {:induction false} VersionByte<V>(t: Table<V>, handle: Handle)
    requires CheckHandle(t, handle) == Success
    ensures t.entries[HandleInternal(handle)].version < 256
  {}

  lemma {:induction false} DeleteIndexed<V>(t: Table<V>, slot: nat, t': Table<V>)
    requires Indexed(t) && slot in t.handles && slot < |t.entries| && t.entries[slot].content.Some?
    requires |t'.entries| == |t.entries| && t'.handles == t.handles - {slot}
    requires forall i :: 0 <= i < |t.entries| ==> t'.entries[i].content == t.entries[i].content
    requires t'.index == t.index - {IndexAt(t, slot)}
    ensures Indexed(t')
  {
    hide IndexOf;
  }

  lemma {:induction false} ModifyKeeps<V>(t: Table<V>, handle: Handle, value: V)
    requires Inv(t)
    ensures Inv(ModifyEntry(t, handle, value).0)
  {
    hide HandleInternal, HandleVersion, IndexOf;
  }

  /** Every operation keeps the invariant. */
  lemma {:induction false} StepKeeps<V>(t: Table<V>, a: Action<V>)
    requires Inv(t)
    ensures Inv(Apply(t, a).0)
  {
    hide Inv, AddEntry, DeleteEntry, ModifyEntry;
    match a
    case DoAdd(key, value) => AddKeeps(t, key, value);
    case DoDelete(handle) => DeleteKeeps(t, handle);
    case DoModify(handle, value) => ModifyKeeps(t, handle, value);
  }

  /** Over every run the number of entries is the number of live handles and the
      index holds exactly the live keys. */
  lemma {:induction false} RunKeeps<V>(size: nat, actions: seq<Action<V>>)
    ensures Inv(Run(Empty(size), actions))
  {
    hide Inv, Apply;
    if actions == [] {
      StartInv<V>(size);
    } else {
      var before := actions[..|actions| - 1];
      RunKeeps(size, before);
      StepKeeps(Run(Empty(size), before), actions[|actions| - 1]);
    }
  }

  // ----- as a plain map -----------------------------------------------------

  /** The table as a plain map from live slots to keys and values. */
  function Contents<V>(t: Table<V>): map<nat, (Key, V)> {
    map i | i in t.handles && i < |t.entries| && t.entries[i].content.Some? :: t.entries[i].content.value
  }

  /** The operations on the plain map: an entry goes to the lowest free slot. */
  function MapStep<V>(m: map<nat, (Key, V)>, a: Action<V>, code: Code): map<nat, (Key, V)> {
    if code != Success then m
    else match a
      case DoAdd(key, value) => if key.Some? then m[FirstEmpty(m.Keys, 0) := (key.value, value)] else m
      case DoDelete(handle) => m - {HandleInternal(handle)}
      case DoModify(handle, value) =>
        if HandleInternal(handle) in m then m[HandleInternal(handle) := (m[HandleInternal(handle)].0, value)] else m
  }

  lemma {:induction false} ContentKeys<V>(t: Table<V>)
    requires Indexed(t)
    ensures Contents(t).Keys == t.handles
  {
    assert forall i :: i in t.handles ==> Live(t, i);
  }

  lemma {:induction false} PlacedContents<V>(t: Table<V>, key: Key, value: V, slot: nat)
    requires slot < |t.entries| == |t.metas|
    ensures Contents(Placed(t, key, value, slot)) == Contents(t)[slot := (key, value)]
  {
    hide HandleSet, HandleVersion;
  }

  lemma {:induction false} RemovedContents<V>(t: Table<V>, slot: nat)
    requires slot < |t.entries|
    ensures Contents(Removed(t, slot)) == Contents(t) - {slot}
  {}

  lemma {:induction false} ModifiedContents<V>(t: Table<V>, handle: Handle, value: V)
    requires Indexed(t)
    ensures Contents(ModifyEntry(t, handle, value).0) ==
            MapStep(Contents(t), DoModify(handle, value), ModifyEntry(t, handle, value).1.code)
  {
    hide HandleInternal, HandleVersion, FirstEmpty;
    if CheckHandle(t, handle) == Success { assert Live(t, HandleInternal(handle)); }
  }

  lemma {:induction false} AddRefines<V>(t: Table<V>, key: Option<Key>, value: V)
    requires Inv(t)
    ensures Contents(AddEntry(t, key, value).0) ==
            MapStep(Contents(t), DoAdd(key, value), AddEntry(t, key, value).1.code)
  {
    hide AddEntry, FirstEmpty, HandleSet, Indexed, Contents, Placed;
    AddByIndex(t, key, value);
    ContentKeys(t);
    if AddEntry(t, key, value).1.code == Success { PlacedContents(t, key.value, value, FirstEmpty(t.handles, 0)); }
  }

  /** Every operation changes the plain map at one slot, or nowhere when it fails. */
  lemma {:induction false} StepRefines<V>(t: Table<V>, a: Action<V>)
    requires Inv(t)
    ensures Contents(Apply(t, a).0) == MapStep(Contents(t), a, Apply(t, a).1.code)
  {
    hide HandleInternal, HandleVersion, Contents, Removed, Indexed, Sized, MetasMatch, AddEntry, ModifyEntry,
         FirstEmpty;
    match a
    case DoAdd(key, value) => AddRefines(t, key, value);
    case DoDelete(handle) => if CheckHandle(t, handle) == Success { RemovedContents(t, HandleInternal(handle)); }
    case DoModify(handle, value) => ModifiedContents(t, handle, value);
  }

  /** No key is in the table twice, as the lookup structure tells keys apart. */
  lemma {:induction false} KeysDiffer<V>(t: Table<V>, i: nat, j: nat)
    requires Indexed(t) && i in Contents(t) && j in Contents(t) && i != j
    ensures IndexOf(Contents(t)[i].0) != IndexOf(Contents(t)[j].0)
  {
    hide IndexOf;
    assert i in t.handles && j in t.handles;
  }

  // ----- which keys are the same --------------------------------------------

  /** A key as tables of this kind store them. */
  ghost predicate Proper(kind: Kind, k: Key) {
    && k.kind == kind
    && (kind.LpmKind? ==> 0 <= k.entry.prefixLength <= 8 * |k.entry.data|)
    && (Masking(kind) ==> k.entry.prefixLength == 0)
  }

  /** Two keys name one entry of their table: the same data in an exact table, the same
      prefix in an LPM table, the same data, mask, range widths and priority in a
      ternary or range table. */
  ghost predicate SameEntry(k: Key, l: Key) {
    match k.kind
    case ExactKind => k.entry.data == l.entry.data
    case LpmKind =>
      && k.entry.prefixLength == l.entry.prefixLength
      && SamePrefix(k.entry.data, l.entry.data, k.entry.prefixLength)
    case _ =>
      && k.entry.data == l.entry.data && k.entry.mask == l.entry.mask
      && k.entry.widths == l.entry.widths && k.priority == l.priority
  }

  ghost predicate SamePrefix(x: seq<Byte>, y: seq<Byte>, p: int) {
    forall i :: 0 <= i < p && i < 8 * |x| && i < 8 * |y| ==> x[i / 8][i % 8] == y[i / 8][i % 8]
  }

  lemma {:induction false} SamePrefixIff(x: seq<Byte>, y: seq<Byte>, p: nat)
    requires p <= 8 * |x| && p <= 8 * |y|
    ensures BitsOf(x)[..p] == BitsOf(y)[..p] <==> SamePrefix(x, y, p)
  {
    forall i | 0 <= i < p ensures BitsOf(x)[..p][i] == x[i / 8][i % 8] && BitsOf(y)[..p][i] == y[i / 8][i % 8] {}
    assert |BitsOf(x)[..p]| == p == |BitsOf(y)[..p]|;
    if BitsOf(x)[..p] == BitsOf(y)[..p] {
      forall i | 0 <= i < p ensures x[i / 8][i % 8] == y[i / 8][i % 8] {
        assert BitsOf(x)[..p][i] == BitsOf(y)[..p][i];
      }
    }
  }

  /** The lookup structures tell keys apart exactly so. */
  lemma {:induction false} SameEntryIff(kind: Kind, k: Key, l: Key)
    requires Proper(kind, k) && Proper(kind, l)
    ensures IndexOf(k) == IndexOf(l) <==> SameEntry(k, l)
  {
    hide SamePrefix, BitsOf;
    if kind.LpmKind? {
      BitsLength(k.entry.data);
      BitsLength(l.entry.data);
      var (p, q) := (k.entry.prefixLength, l.entry.prefixLength);
      assert |PrefixBits(k.entry)| == p && |PrefixBits(l.entry)| == q;
      if p == q { SamePrefixIff(k.entry.data, l.entry.data, p); }
    }
  }

  lemma {:induction false} BitsLength(y: seq<Byte>)
    ensures |BitsOf(y)| == 8 * |y|
  {}

  ghost predicate AllProper<V>(kind: Kind, t: Table<V>) {
    forall i :: i in Contents(t) ==> Proper(kind, Contents(t)[i].0)
  }

  /** Some live entry has this key. */
  ghost predicate Present<V>(t: Table<V>, key: Key) {
    exists i :: i in Contents(t) && SameEntry(Contents(t)[i].0, key)
  }

  lemma {:induction false} PresentIff<V>(kind: Kind, t: Table<V>, key: Key)
    requires Indexed(t) && AllProper(kind, t) && Proper(kind, key)
    ensures Present(t, key) <==> IndexOf(key) in t.index
    ensures IndexOf(key) in t.index ==>
              t.index[IndexOf(key)] in Contents(t) && SameEntry(Contents(t)[t.index[IndexOf(key)]].0, key)
    ensures forall i :: i in Contents(t) && SameEntry(Contents(t)[i].0, key) ==>
              IndexOf(key) in t.index && t.index[IndexOf(key)] == i
  {
    hide IndexOf, Proper, SameEntry;
    if IndexOf(key) in t.index {
      var i := t.index[IndexOf(key)];
      assert Live(t, i) && i in Contents(t);
      SameEntryIff(kind, Contents(t)[i].0, key);
    }
    forall i | i in Contents(t) && SameEntry(Contents(t)[i].0, key)
      ensures IndexOf(key) in t.index && t.index[IndexOf(key)] == i
    {
      assert i in t.handles;
      SameEntryIff(kind, Contents(t)[i].0, key);
    }
  }

  /** DUPLICATE_ENTRY is returned if and only if a live entry has the same data, the same
      prefix, or the same data, mask, widths and priority, as the kind of table has it. */
  lemma {:induction false} DuplicateIff<V>(kind: Kind, t: Table<V>, key: Key, value: V)
    requires Inv(t) && AllProper(kind, t) && Proper(kind, key)
    ensures AddEntry(t, Some(key), value).1.code == DuplicateEntry <==> Present(t, key)
  {
    hide IndexOf, AddEntry, Proper, Present;
    AddByIndex(t, Some(key), value);
    PresentIff(kind, t, key);
  }

  /** When each error is returned, in the order of the tests; a table that is not full has
      a free slot, and the lowest one is taken. */
  lemma {:induction false} AddCases<V>(kind: Kind, t: Table<V>, key: Option<Key>, value: V)
    requires Inv(t) && AllProper(kind, t) && (key.Some? ==> Proper(kind, key.value))
    ensures var (t', reply) := AddEntry(t, key, value);
            && reply.code == (if key.None? then BadMatchKey
                              else if Present(t, key.value) then DuplicateEntry
                              else if |t.handles| == |t.entries| then TableFull
                              else Success)
            && (reply.code != Success ==> t' == t)
            && (reply.code == Success ==>
                  exists slot: nat ::
                    && slot < |t.entries| && slot !in t.handles && (forall i: nat :: i < slot ==> i in t.handles)
                    && Contents(t') == Contents(t)[slot := (key.value, value)]
                    && reply.handle == HandleSet(t.entries[slot].version, slot))
  {
    hide IndexOf, AddEntry, Proper, Present, HandleSet, Contents, Placed;
    AddByIndex(t, key, value);
    if key.Some? { PresentIff(kind, t, key.value); }
    if AddEntry(t, key, value).1.code == Success {
      var slot := FirstEmpty(t.handles, 0);
      PlacedContents(t, key.value, value, slot);
      assert forall i: nat :: i < slot ==> i in t.handles;
    }
  }

  lemma {:induction false} StepProper<V>(kind: Kind, t: Table<V>, a: Action<V>)
    requires Inv(t) && AllProper(kind, t) && (a.DoAdd? && a.key.Some? ==> Proper(kind, a.key.value))
    ensures AllProper(kind, Apply(t, a).0)
  {
    hide Inv, Contents, Apply, Proper, FirstEmpty, HandleInternal;
    StepRefines(t, a);
  }

  // ----- handles over a whole run -------------------------------------------

  /** A handle given out, for the slot and the life (version) of that slot. */
  datatype Issue = Issue(handle: Handle, slot: nat, life: nat)

  function Issued<V>(t: Table<V>, a: Action<V>, issues: seq<Issue>): seq<Issue> {
    var reply := Apply(t, a).1;
    if a.DoAdd? && reply.code == Success then
      var slot := FirstEmpty(t.handles, 0);
      issues + [Issue(reply.handle, slot, if slot < |t.entries| then t.entries[slot].version else 0)]
    else issues
  }

  function RunIssued<V>(t: Table<V>, actions: seq<Action<V>>): seq<Issue> {
    if actions == [] then []
    else
      var before := actions[..|actions| - 1];
      Issued(Run(t, before), actions[|actions| - 1], RunIssued(t, before))
  }

  ghost predicate IssueOk<V>(t: Table<V>, x: Issue) {
    && x.slot < |t.entries| && x.handle == HandleSet(x.life, x.slot)
    && x.life <= t.entries[x.slot].version && (x.slot !in t.handles ==> x.life < t.entries[x.slot].version)
  }

  /** Lives of a slot are given out in increasing order, none twice. */
  ghost predicate IssuesOk<V>(t: Table<V>, issues: seq<Issue>) {
    && (forall i :: 0 <= i < |issues| ==> IssueOk(t, issues[i]))
    && forall i, j :: 0 <= i < j < |issues| && issues[i].slot == issues[j].slot ==> issues[i].life < issues[j].life
  }

  lemma {:induction false} AddIssues<V>(t: Table<V>, key: Option<Key>, value: V, issues: seq<Issue>)
    requires Inv(t) && IssuesOk(t, issues)
    ensures IssuesOk(AddEntry(t, key, value).0, Issued(t, DoAdd(key, value), issues))
  {
    hide FirstEmpty, Indexed, HandleSet, HandleVersion, AddEntry;
    AddByIndex(t, key, value);
    var t' := AddEntry(t, key, value).0;
    forall i | 0 <= i < |issues| ensures IssueOk(t', issues[i]) {
      assert IssueOk(t, issues[i]);
    }
  }

  lemma {:induction false} DeleteIssues<V>(t: Table<V>, handle: Handle, issues: seq<Issue>)
    requires Inv(t) && IssuesOk(t, issues)
    ensures IssuesOk(DeleteEntry(t, handle).0, issues)
  {
    hide Inv, HandleSet, HandleInternal, HandleVersion, IndexOf;
    if CheckHandle(t, handle) == Success { VersionByte(t, handle); }
    var t' := DeleteEntry(t, handle).0;
    forall i | 0 <= i < |issues| ensures IssueOk(t', issues[i]) {
      assert IssueOk(t, issues[i]);
    }
  }

  lemma {:induction false} ModifyIssues<V>(t: Table<V>, handle: Handle, value: V, issues: seq<Issue>)
    requires IssuesOk(t, issues)
    ensures IssuesOk(ModifyEntry(t, handle, value).0, issues)
  {
    hide HandleSet, HandleInternal, HandleVersion;
    var t' := ModifyEntry(t, handle, value).0;
    forall i | 0 <= i < |issues| ensures IssueOk(t', issues[i]) {
      assert IssueOk(t, issues[i]);
    }
  }

  lemma {:induction false} RunIssues<V>(size: nat, actions: seq<Action<V>>)
    ensures IssuesOk(Run(Empty(size), actions), RunIssued(Empty(size), actions))
  {
    hide Inv, IssuesOk, AddEntry, DeleteEntry, ModifyEntry;
    if actions == [] {
      NoIssues(Empty<V>(size));
    } else {
      var before := actions[..|actions| - 1];
      var (t, issues) := (Run(Empty(size), before), RunIssued(Empty(size), before));
      RunIssues(size, before);
      RunKeeps(size, before);
      match actions[|actions| - 1]
      case DoAdd(key, value) => AddIssues(t, key, value, issues);
      case DoDelete(handle) => DeleteIssues(t, handle, issues);
      case DoModify(handle, value) => ModifyIssues(t, handle, value, issues);
    }
  }

  lemma {:induction false} NoIssues<V>(t: Table<V>)
    ensures IssuesOk(t, [])
  {}

  /** A handle is accepted if and only if its slot is live, still in the life the
      handle was given out for, and that life is one of the first 256. This is so for
      every slot that a handle can name. */
  lemma {:induction false} Acceptance<V>(t: Table<V>, x: Issue)
    requires Inv(t) && IssueOk(t, x) && x.slot < SLOTS
    ensures CheckHandle(t, x.handle) == Success <==>
              x.slot in t.handles && t.entries[x.slot].version == x.life && x.life < 256
    ensures x.slot in t.handles && t.entries[x.slot].version != x.life ==> CheckHandle(t, x.handle) == ExpiredHandle
    ensures x.slot !in t.handles ==> CheckHandle(t, x.handle) == InvalidHandle
  {
    hide HandleSet, HandleInternal, HandleVersion;
    LowHandleParts(x.life, x.slot);
  }

  /** Over every run: a handle stops being accepted as soon as a newer one is given out
      for its slot, and the newest is accepted while it lives in its first 256
      lives. Beyond 24 bits a handle never names its own slot. */
  lemma {:induction false} HandlesOfRun<V>(size: nat, actions: seq<Action<V>>, i: nat, j: nat)
    requires i <= j < |RunIssued(Empty(size), actions)|
    requires var xs := RunIssued(Empty(size), actions); xs[i].slot == xs[j].slot
    ensures var (t, xs) := (Run(Empty(size), actions), RunIssued(Empty(size), actions));
            var x := xs[i];
            && (HandleInternal(x.handle) == x.slot <==> x.slot < SLOTS)
            && (x.slot < SLOTS && i < j ==> CheckHandle(t, x.handle) != Success)
            && (x.slot < SLOTS ==>
                  (CheckHandle(t, x.handle) == Success <==>
                     x.slot in t.handles && x.slot < |t.entries| && t.entries[x.slot].version == x.life &&
                       x.life < 256))
  {
    var (t, xs) := (Run(Empty(size), actions), RunIssued(Empty(size), actions));
    RunKeeps(size, actions);
    RunIssues(size, actions);
    hide Run, RunIssued, Inv, CheckHandle, HandleSet, HandleInternal;
    assert IssueOk(t, xs[i]) && IssueOk(t, xs[j]);
    HandleNamesSlot(xs[i].life, xs[i].slot);
    if xs[i].slot < SLOTS { Acceptance(t, xs[i]); }
  }

  /** An entry added to a slot in its 257th life can never be removed or changed
      again: its handle carries version 0. */
  lemma {:induction false} StuckForever<V>(t: Table<V>, slot: nat, actions: seq<Action<V>>)
    requires Inv(t) && slot in t.handles && slot < |t.entries| && t.entries[slot].version == 256
    ensures var t' := Run(t, actions);
            Inv(t') && slot in t'.handles && slot < |t'.entries| && t'.entries[slot] == t.entries[slot]
  {
    hide Inv, Apply;
    if actions != [] {
      var before := actions[..|actions| - 1];
      StuckForever(t, slot, before);
      StepKeeps(Run(t, before), actions[|actions| - 1]);
      StuckStep(Run(t, before), slot, actions[|actions| - 1]);
    }
  }

  lemma {:induction false} StuckStep<V>(t: Table<V>, slot: nat, a: Action<V>)
    requires slot in t.handles && slot < |t.entries| && t.entries[slot].version == 256
    ensures var t' := Apply(t, a).0;
            slot in t'.handles && slot < |t'.entries| && t'.entries[slot] == t.entries[slot]
  {
    hide FirstEmpty, HandleInternal;
    if a.DoDelete? && CheckHandle(t, a.handle) == Success { VersionByte(t, a.handle); }
    if a.DoModify? && CheckHandle(t, a.handle) == Success { VersionByte(t, a.handle); }
  }

  // How a slot gets there: 256 times an entry is added to it and deleted.
  function Cycles<V>(key: Key, value: V, n: nat): seq<Action<V>>
    requires n <= 256
  {
    if n == 0 then []
    else Cycles(key, value, n - 1) + [DoAdd(Some(key), value), DoDelete(HandleSet(n - 1, 0))]
  }

  lemma {:induction false} RunTwo<V>(t: Table<V>, actions: seq<Action<V>>, a: Action<V>, b: Action<V>)
    ensures Run(t, actions + [a, b]) == Apply(Apply(Run(t, actions), a).0, b).0
  {
    hide Apply;
    assert (actions + [a, b])[..|actions| + 1] == actions + [a];
    assert (actions + [a])[..|actions|] == actions;
  }

  ghost predicate Emptied<V>(t: Table<V>, version: nat) {
    |t.entries| == |t.metas| == 1 && t.entries[0].version == version && t.handles == {} && t.numEntries == 0 &&
      t.index == map[]
  }

  lemma {:induction false} Cycled<V>(key: Key, value: V, n: nat)
    requires n <= 256
    ensures Emptied(Run(Empty(1), Cycles(key, value, n)), n)
  {
    hide Apply, Run, Emptied, HandleSet;
    if n == 0 {
      EmptiedAtFirst(key, value);
    } else {
      Cycled(key, value, n - 1);
      RunTwo(Empty(1), Cycles(key, value, n - 1), DoAdd(Some(key), value), DoDelete(HandleSet(n - 1, 0)));
      OneCycle(Run(Empty(1), Cycles(key, value, n - 1)), key, value, n - 1);
    }
  }

  lemma {:induction false} EmptiedAtFirst<V>(key: Key, value: V)
    ensures Emptied(Run(Empty(1), Cycles(key, value, 0)), 0)
  {}

  lemma {:induction false} OneCycle<V>(t: Table<V>, key: Key, value: V, n: nat)
    requires Emptied(t, n) && n < 256
    ensures Emptied(Apply(Apply(t, DoAdd(Some(key), value)).0, DoDelete(HandleSet(n, 0))).0, n + 1)
  {
    hide HandleInternal, HandleVersion, HandleSet, IndexOf;
    LowHandleParts(n, 0);
    assert FirstEmpty(t.handles, 0) == 0;
    var t' := AddEntry(t, Some(key), value).0;
    assert t' == Placed(t, key, value, 0) && t'.index == map[IndexOf(key) := 0];
    assert CheckHandle(t', HandleSet(n, 0)) == Success;
  }

  lemma {:induction false} FirstLifeHandle()
    ensures HandleSet(256, 0) == 0 && HandleInternal(0) == 0 && HandleVersion(0) == 0
  {
    LowHandleByte(256, 0);
    hide HandleByte;
  }

  /** After 256 lives of a slot, the handle of its next entry is refused for good. */
  lemma {:induction false} LaterLivesAreStuck<V>(key: Key, value: V, more: seq<Action<V>>)
    ensures var t := Apply(Run(Empty(1), Cycles(key, value, 256)), DoAdd(Some(key), value)).0;
            var handle := Apply(Run(Empty(1), Cycles(key, value, 256)), DoAdd(Some(key), value)).1.handle;
            && handle == 0 && 0 in Run(t, more).handles && CheckHandle(Run(t, more), handle) == ExpiredHandle
  {
    hide Run, Inv, Cycles, Apply, CheckHandle, Emptied;
    Cycled(key, value, 256);
    RunKeeps(1, Cycles(key, value, 256));
    var s := Run(Empty(1), Cycles(key, value, 256));
    StepKeeps(s, DoAdd(Some(key), value));
    NextLife(s, key, value);
    var t := Apply(s, DoAdd(Some(key), value)).0;
    StuckForever(t, 0, more);
    StuckRefuses(Run(t, more));
  }

  lemma {:induction false} NextLife<V>(s: Table<V>, key: Key, value: V)
    requires Emptied(s, 256)
    ensures var (t, reply) := Apply(s, DoAdd(Some(key), value));
            reply.handle == 0 && 0 in t.handles && 0 < |t.entries| && t.entries[0].version == 256
  {
    FirstLifeHandle();
    hide HandleSet, IndexOf, NewMetas;
    assert FirstEmpty(s.handles, 0) == 0;
  }

  lemma {:induction false} StuckRefuses<V>(t: Table<V>)
    requires 0 in t.handles && 0 < |t.entries| && t.entries[0].version == 256
    ensures CheckHandle(t, 0) == ExpiredHandle
  {}

  // ----- what lookup structures report ---------------------------------------

  /** The lowest live slot from n on. */
  function Least(handles: set<nat>, n: nat): (r: nat)
    requires exists h :: h in handles && n <= h
    ensures n <= r && r in handles && forall h :: h in handles && n <= h ==> r <= h
    decreases Highest(handles) - n
  {
    HighestAbove(handles, n);
    if n in handles then n else Least(handles, n + 1)
  }

  ghost function Highest(handles: set<nat>): (r: nat)
    ensures forall h :: h in handles ==> h <= r
  {
    if handles == {} then 0
    else
      var h :| h in handles;
      var r := Highest(handles - {h});
      assert forall k :: k in handles ==> k == h || k in handles - {h};
      if r < h then h else r
  }

  lemma {:induction false} HighestAbove(handles: set<nat>, n: nat)
    requires exists h :: h in handles && n <= h
    ensures n <= Highest(handles)
  {}

  /** The slot that the lookup structure reports for an entry: the entry lists behind
      ternary and range tables report the distance from the first live one. */
  function Reported(kind: Kind, handles: set<nat>, slot: nat): (r: nat)
    requires slot in handles
    ensures r <= slot
  {
    if Masking(kind) then slot - Least(handles, 0) else slot
  }

  /** The entry's own slot is reported if and only if slot 0 is live, or the table is
      neither ternary nor range. */
  lemma {:induction false} ReportedIff(kind: Kind, handles: set<nat>, slot: nat)
    requires slot in handles
    ensures Reported(kind, handles, slot) == slot <==> !Masking(kind) || 0 in handles
  {
    hide Least;
  }

  function LastValue<V>(t: Table<V>, slot: nat): Option<V>
    requires slot < |t.entries|
  {
    if t.entries[slot].content.Some? then Some(t.entries[slot].content.value.1) else None
  }

  /** Slots are used from the first on. */
  ghost predicate UsedInOrder<V>(t: Table<V>) {
    forall i, j :: 0 <= i < j < |t.entries| && t.entries[j].content.Some? ==> t.entries[i].content.Some?
  }

  lemma {:induction false} StepUsed<V>(t: Table<V>, a: Action<V>)
    requires Inv(t) && UsedInOrder(t)
    ensures UsedInOrder(Apply(t, a).0)
  {
    hide UsedInOrder, Inv, HandleInternal, HandleVersion, Removed, AddEntry, Placed, FirstEmpty, HandleSet;
    match a
    case DoAdd(key, value) =>
      AddByIndex(t, key, value);
      if AddEntry(t, key, value).1.code == Success { PlacedUsed(t, key.value, value); }
    case DoDelete(handle) => if CheckHandle(t, handle) == Success { RemovedUsed(t, HandleInternal(handle)); }
    case DoModify(handle, value) => ModifiedUsed(t, handle, value);
  }

  lemma {:induction false} PlacedUsed<V>(t: Table<V>, key: Key, value: V)
    requires Inv(t) && UsedInOrder(t) && FirstEmpty(t.handles, 0) < |t.entries| == |t.metas|
    ensures UsedInOrder(Placed(t, key, value, FirstEmpty(t.handles, 0)))
  {
    hide FirstEmpty, Sized, MetasMatch, HandleSet, NewMetas, IndexOf;
    var slot := FirstEmpty(t.handles, 0);
    forall i | 0 <= i < slot ensures t.entries[i].content.Some? { assert i in t.handles && Live(t, i); }
  }

  lemma {:induction false} RemovedUsed<V>(t: Table<V>, slot: nat)
    requires UsedInOrder(t) && slot < |t.entries|
    ensures UsedInOrder(Removed(t, slot))
  {
    hide IndexOf;
  }

  lemma {:induction false} ModifiedUsed<V>(t: Table<V>, handle: Handle, value: V)
    requires UsedInOrder(t)
    ensures UsedInOrder(ModifyEntry(t, handle, value).0)
  {
    hide HandleInternal, HandleVersion;
  }

  /** Over every run, a slot that is reported for a live entry has been used. */
  lemma {:induction false} RunUsed<V>(size: nat, actions: seq<Action<V>>)
    ensures UsedInOrder(Run(Empty(size), actions))
  {
    hide Apply, UsedInOrder;
    if actions == [] {
      NothingUsed<V>(size);
    } else {
      var before := actions[..|actions| - 1];
      RunUsed(size, before);
      RunKeeps(size, before);
      StepUsed(Run(Empty(size), before), actions[|actions| - 1]);
    }
  }

  lemma {:induction false} NothingUsed<V>(size: nat)
    ensures UsedInOrder(Empty<V>(size))
  {}

  /** What a packet gets once the structure has selected a live entry: the value of that
      entry if its own slot is reported, and otherwise the value that the reported slot
      last held, a deleted or another entry's. */
  function Gets<V>(t: Table<V>, kind: Kind, slot: nat): Option<V>
    requires slot in t.handles && slot < |t.entries|
  {
    LastValue(t, Reported(kind, t.handles, slot))
  }

  lemma {:induction false} GetsSomething<V>(t: Table<V>, kind: Kind, slot: nat)
    requires Inv(t) && UsedInOrder(t) && slot in t.handles && slot < |t.entries|
    ensures Gets(t, kind, slot).Some?
  {
    hide Least, Sized, MetasMatch, IndexOf;
    assert Live(t, slot);
  }

  // ----- tables larger than handles can name --------------------------------

  /** n entries with different keys. */
  function Adds<V>(keyAt: nat -> Key, value: V, n: nat): seq<Action<V>> {
    if n == 0 then [] else Adds(keyAt, value, n - 1) + [DoAdd(Some(keyAt(n - 1)), value)]
  }

  // One more key than a table of SLOTS + 1 entries holds.
  ghost predicate Different(keyAt: nat -> Key) {
    forall i: nat, j: nat :: i < j <= SLOTS + 1 ==> IndexOf(keyAt(i)) != IndexOf(keyAt(j))
  }

  ghost predicate FilledUp<V>(t: Table<V>, keyAt: nat -> Key, n: nat) {
    && t.handles == Below(n) && t.numEntries == n <= |t.entries| == |t.metas|
    && (forall i :: 0 <= i < |t.entries| ==> t.entries[i].version == 0)
    && (forall i :: 0 <= i < n ==> t.entries[i].content.Some? && IndexAt(t, i) == IndexOf(keyAt(i)))
    && forall k :: k in t.index ==> exists i: nat :: i < n && k == IndexOf(keyAt(i))
  }

  lemma {:induction false} FirstAbove(n: nat)
    ensures FirstEmpty(Below(n), 0) == n
  {
    hide FirstEmpty, Below;
    assert n !in Below(n) && FirstEmpty(Below(n), 0) !in Below(n);
  }

  lemma {:induction false} FillStep<V>(t: Table<V>, keyAt: nat -> Key, value: V, n: nat)
    requires Different(keyAt) && FilledUp(t, keyAt, n) && n < |t.entries| && n <= SLOTS + 1
    ensures var (t', reply) := Apply(t, DoAdd(Some(keyAt(n)), value));
            && FilledUp(t', keyAt, n + 1) && |t'.entries| == |t.entries|
            && reply.code == Success && reply.handle == HandleSet(0, n)
  {
    FirstAbove(n);
    hide IndexOf, HandleSet, NewMetas, FirstEmpty, Below;
    SizedMetas(t.metas, HandleSet(0, n));
    NextBelow(n);
    assert IndexOf(keyAt(n)) !in t.index;
    var t' := Placed(t, keyAt(n), value, n);
    assert Apply(t, DoAdd(Some(keyAt(n)), value)).0 == t';
  }

  lemma {:induction false} SizedMetas(metas: seq<nat>, handle: nat)
    ensures |NewMetas(metas, handle)| == |metas|
  {}

  lemma {:induction false} NextBelow(n: nat)
    ensures Below(n + 1) == Below(n) + {n}
  {}

  lemma {:induction false} FilledBy<V>(keyAt: nat -> Key, value: V, size: nat, n: nat)
    requires Different(keyAt) && n <= size && n <= SLOTS + 1
    ensures var t := Run(Empty(size), Adds(keyAt, value, n)); FilledUp(t, keyAt, n) && |t.entries| == size
  {
    hide Apply, Different, FilledUp, Run, Empty, Adds;
    if n == 0 {
      EmptyFilled(keyAt, value, size);
    } else {
      FilledBy(keyAt, value, size, n - 1);
      AddsOne(keyAt, value, size, n - 1);
      FillsNext(Run(Empty(size), Adds(keyAt, value, n - 1)), keyAt, value, n - 1);
    }
  }

  lemma {:induction false} AddsOne<V>(keyAt: nat -> Key, value: V, size: nat, n: nat)
    ensures Run(Empty(size), Adds(keyAt, value, n + 1)) ==
            Apply(Run(Empty(size), Adds(keyAt, value, n)), DoAdd(Some(keyAt(n)), value)).0
  {
    hide Apply;
    var before := Adds(keyAt, value, n);
    assert Adds(keyAt, value, n + 1)[..|before|] == before;
  }

  lemma {:induction false} FillsNext<V>(t: Table<V>, keyAt: nat -> Key, value: V, n: nat)
    requires Different(keyAt) && FilledUp(t, keyAt, n) && n < |t.entries| && n <= SLOTS + 1
    ensures var t' := Apply(t, DoAdd(Some(keyAt(n)), value)).0;
            FilledUp(t', keyAt, n + 1) && |t'.entries| == |t.entries|
  {
    FillStep(t, keyAt, value, n);
  }

  lemma {:induction false} EmptyFilled<V>(keyAt: nat -> Key, value: V, size: nat)
    ensures var t := Run(Empty(size), Adds(keyAt, value, 0)); FilledUp(t, keyAt, 0) && |t.entries| == size
  {}

  /** In a table with more than 2^24 slots two live entries can have one handle: that of
      slot 2^24 reads as slot 0 in its second life. Deleting the one deletes the
      other. */
  lemma {:induction false} OversizedTable<V>(keyAt: nat -> Key, value: V, size: nat)
    requires Different(keyAt) && size > SLOTS
    ensures var (t1, r1) := Apply(Run(Empty(size), Adds(keyAt, value, SLOTS)), DoAdd(Some(keyAt(SLOTS)), value));
            var t2 := Apply(t1, DoDelete(0)).0;
            var (t3, r3) := Apply(t2, DoAdd(Some(keyAt(SLOTS + 1)), value));
            && r1.code == r3.code == Success && r1.handle == r3.handle == SLOTS
            && 0 in t3.handles && SLOTS in t3.handles && CheckHandle(t3, SLOTS) == Success
            && var t4 := Apply(t3, DoDelete(SLOTS)).0; 0 !in t4.handles && SLOTS in t4.handles
  {
    var t := Run(Empty(size), Adds(keyAt, value, SLOTS));
    FilledBy(keyAt, value, size, SLOTS);
    hide Run, Adds;
    FillStep(t, keyAt, value, SLOTS);
    SharedHandle();
    Oversized(Apply(t, DoAdd(Some(keyAt(SLOTS)), value)).0, keyAt, value);
  }

  lemma {:induction false} SharedHandle()
    ensures HandleSet(0, SLOTS) == HandleSet(1, 0) == SLOTS && HandleSet(0, 0) == 0
    ensures HandleInternal(SLOTS) == 0 && HandleVersion(SLOTS) == 1 && HandleInternal(0) == 0 && HandleVersion(0) == 0
  {
    hide HandleByte;
    LowHandleByte(1, 0);
    LowHandleByte(0, 0);
    HighHandleByte(0, SLOTS);
  }

  lemma {:induction false} HighHandleByte(version: nat, slot: nat)
    requires version % 256 == 0
    ensures HandleByte(version, slot) == slot / SLOTS % 256
  {
    OrZero(slot / SLOTS % 256);
    hide Nat, Or, ByteOf;
  }

  lemma {:induction false} Oversized<V>(t1: Table<V>, keyAt: nat -> Key, value: V)
    requires Different(keyAt) && FilledUp(t1, keyAt, SLOTS + 1)
    ensures var t2 := Apply(t1, DoDelete(0)).0;
            var (t3, r3) := Apply(t2, DoAdd(Some(keyAt(SLOTS + 1)), value));
            && r3.code == Success && r3.handle == SLOTS
            && 0 in t3.handles && SLOTS in t3.handles && CheckHandle(t3, SLOTS) == Success
            && var t4 := Apply(t3, DoDelete(SLOTS)).0; 0 !in t4.handles && SLOTS in t4.handles
  {
    SharedHandle();
    hide IndexOf, HandleSet, HandleInternal, HandleVersion, NewMetas, FirstEmpty;
    var t2 := Apply(t1, DoDelete(0)).0;
    assert CheckHandle(t1, 0) == Success && t2 == Removed(t1, 0);
    assert 0 !in t2.handles;
    FirstIsZero(t2.handles);
    assert IndexOf(keyAt(SLOTS + 1)) !in t2.index;
  }

  lemma {:induction false} FirstIsZero(handles: set<nat>)
    requires 0 !in handles
    ensures FirstEmpty(handles, 0) == 0
  {}

  // ----- the object ---------------------------------------------------------

  lemma {:induction false} AddProper<V>(kind: Kind, t: Table<V>, key: Option<Key>, value: V)
    requires Inv(t) && AllProper(kind, t) && (key.Some? ==> Proper(kind, key.value))
    ensures AllProper(kind, AddEntry(t, key, value).0)
  {
    hide Inv, AllProper, Proper, AddEntry;
    StepProper(kind, t, DoAdd(key, value));
  }

  lemma {:induction false} AddOutcome<V>(t: Table<V>, key: Option<Key>, value: V)
    requires Inv(t)
    ensures var slot := FirstEmpty(t.handles, 0);
            AddEntry(t, key, value) ==
              if key.None? then (t, Fail(BadMatchKey))
              else if IndexOf(key.value) in t.index then (t, Fail(DuplicateEntry))
              else if t.numEntries >= |t.entries| then (t, Fail(TableFull))
              else if slot >= |t.entries| || slot >= |t.metas| then (t, Fail(TableFull))
              else (Placed(t, key.value, value, slot), Reply(Success, HandleSet(t.entries[slot].version, slot), None))
    ensures t.numEntries < |t.entries| ==> FirstEmpty(t.handles, 0) < |t.entries| == |t.metas|
  {
    hide Placed, HandleSet, IndexOf;
    SubsetSize(t.handles, Below(|t.entries|));
    if t.numEntries < |t.entries| { FreeSlot(t.handles, |t.entries|); }
  }

  lemma {:induction false} PlacedIs<V>(t: Table<V>, key: Key, value: V, slot: nat)
    requires slot < |t.entries| && slot < |t.metas|
    ensures var version := t.entries[slot].version;
            Placed(t, key, value, slot) ==
              Table(t.entries[slot := Slot(version, Some((key, value)))], NewMetas(t.metas, HandleSet(version, slot)),
                    t.handles + {slot}, t.numEntries + 1, t.index[IndexOf(key) := slot])
  {
    hide NewMetas, HandleSet, IndexOf;
  }

  /** The handle is that of the slot reported for `slot`. It is one of `slot`, and accepted
      in its first 256 lives, if and only if that is `slot` itself. */
  ghost predicate Retrieved<V>(t: Table<V>, kind: Kind, slot: nat, handle: Handle) {
    && slot in t.handles && slot < |t.entries|
    && var reported := Reported(kind, t.handles, slot);
       && handle == HandleSet(t.entries[reported].version, reported)
       && (slot < 0x100_0000 ==>
             (CheckHandle(t, handle) == Success && HandleInternal(handle) == slot <==>
                reported == slot && t.entries[slot].version < 256))
  }

  lemma {:induction false} Retrieves<V>(t: Table<V>, kind: Kind, key: Key)
    requires Inv(t) && AllProper(kind, t) && Proper(kind, key)
    ensures Present(t, key) <==> IndexOf(key) in t.index
    ensures IndexOf(key) in t.index ==>
              var slot := t.index[IndexOf(key)];
              && slot in t.handles && slot < |t.entries|
              && var reported := Reported(kind, t.handles, slot);
                 Retrieved(t, kind, slot, HandleSet(t.entries[reported].version, reported))
    ensures forall i :: i in Contents(t) && SameEntry(Contents(t)[i].0, key) ==>
              IndexOf(key) in t.index && t.index[IndexOf(key)] == i
  {
    hide HandleInternal, HandleVersion, HandleSet, IndexOf, Least, Present, AllProper, Proper, Contents, SameEntry;
    PresentIff(kind, t, key);
    if IndexOf(key) in t.index {
      var slot := t.index[IndexOf(key)];
      assert slot in t.handles;
      var reported := Reported(kind, t.handles, slot);
      if slot < SLOTS { LowHandleParts(t.entries[reported].version, reported); }
    }
  }

  /** What the conversion gives for sane parameters is proper. */
  lemma {:induction false} StoredProper(kind: Kind, b: Layout, params: seq<Param>)
    requires Fits(kind, b) && Sane(b, params)
    ensures Ordered(b, params)
    ensures forall data, priority ::
              |data| == |ToEntry(kind, b, params).data| ==>
                Proper(kind, Key(kind, ToEntry(kind, b, params).(data := data), priority))
  {
    hide Sane, Off, WellBuilt, FieldFits, Joined, Sum, DataParts, MaskParts, PrefixTerms;
    ToEntrySized(kind, b, params);
    if kind.LpmKind? {
      MatchMeaning.LpmPrefixFits(b, params);
      PrefixPositive(b, params);
    }
  }

  lemma {:induction false} PrefixPositive(b: Layout, params: seq<Param>)
    requires Fits(LpmKind, b) && Sane(b, params)
    ensures Ordered(b, params) && ToEntry(LpmKind, b, params).prefixLength >= 0
  {
    hide Off, WellBuilt, FieldFits, Joined, Sum, DataParts, MaskParts, PrefixTerms;
    StoredPrefix(b, params);
    PrefixesPositive(b, params);
    var xs := OtherBits(b.fields);
    SumGrows(xs, 0, |xs|);
    SumNone(xs);
    assert xs[..|xs|] == xs;
  }

  class MatchUnitGeneric<V> {
    var entries: seq<Slot<V>>
    var metas: seq<nat>
    var handles: set<nat>
    var numEntries: nat
    var index: map<IndexKey, nat>   // the lookup structure
    const kind: Kind
    const layout: Layout          // of the key builder, after build
    const bigMask: Option<seq<Byte>>

    ghost function View(): Table<V>
      reads this
    {
      Table(entries, metas, handles, numEntries, index)
    }

    ghost predicate Built() {
      && Fits(kind, layout)
      && (bigMask.Some? ==> |bigMask.value| == Off(layout.fields, |layout.fields|))
    }

    ghost predicate Valid()
      reads this
    {
      Built() && Inv(View()) && AllProper(kind, View())
    }

    constructor (size: nat, kind: Kind, layout: Layout, bigMask: Option<seq<Byte>>)
      requires Fits(kind, layout)
      requires bigMask.Some? ==> |bigMask.value| == Off(layout.fields, |layout.fields|)
      ensures Valid() && View() == Empty(size)
    {
      entries, metas, handles, numEntries, index := seq(size, _ => Slot(0, None)), seq(size, _ => 0), {}, 0, map[];
      this.kind, this.layout, this.bigMask := kind, layout, bigMask;
      new;
      assert View() == Empty(size);
      hide Fits, Inv;
      StartInv<V>(size);
    }

    /** The key of sane parameters: their entry, under the mask of the whole key. */
    ghost function KeyOf(params: seq<Param>, priority: int): Key
      requires Built() && Sane(layout, params)
    {
      ToEntrySized(kind, layout, params);
      var e := ToEntry(kind, layout, params);
      Key(kind, if bigMask.Some? then e.(data := AndAll(e.data, bigMask.value)) else e,
          if Masking(kind) then priority else 0)
    }

    /** The key stores the entry made from the parameters, its data under the mask of the
        whole key, and the priority if the table is ternary or range. */
    ghost predicate KeyStores(k: Key, e: EntryKey, priority: int) {
      && k.kind == kind && k.entry == e.(data := k.entry.data) && |k.entry.data| == |e.data|
      && (forall i :: 0 <= i < |e.data| ==>
            k.entry.data[i] == if bigMask.None? || i >= |bigMask.value| then e.data[i]
                               else And(e.data[i], bigMask.value[i]))
      && k.priority == if kind.TernaryKind? || kind.RangeKind? then priority else 0
    }

    ghost function ParamKey(params: seq<Param>, priority: int): Option<Key>
      requires Built()
    {
      if Sane(layout, params) then Some(KeyOf(params, priority)) else None
    }

    method EntryOf(params: seq<Param>) returns (e: EntryKey)
      requires Built() && Sane(layout, params)
      ensures Ordered(layout, params) && e == ToEntry(kind, layout, params)
    {
      match kind {
        case ExactKind => e := ExactEntry(layout, params);
        case LpmKind => e := LpmEntry(layout, params);
        case TernaryKind => e := TernaryEntry(layout, params);
        case RangeKind => e := RangeEntry(layout, params);
      }
    }

    /** build_entry_from_match_key. */
    method BuildKey(params: seq<Param>, priority: int) returns (key: Option<Key>)
      requires Built()
      ensures key == ParamKey(params, priority) && (key.Some? ==> Proper(kind, key.value))
      ensures key.Some? <==> Sane(layout, params)
      ensures key.Some? ==> Ordered(layout, params) && KeyStores(key.value, ToEntry(kind, layout, params), priority)
    {
      hide Sane, ToEntry, WellBuilt, Off, FieldFits;
      if Sane(layout, params) { StoredProper(kind, layout, params); }
      var sane := SanityCheck(layout, params);
      if !sane { return None; }
      var e := EntryOf(params);
      ToEntrySized(kind, layout, params);
      if bigMask.Some? { e := e.(data := AndAll(e.data, bigMask.value)); }
      return Some(Key(kind, e, if Masking(kind) then priority else 0));
    }

    /** add_entry. */
    method Add(params: seq<Param>, priority: int, value: V) returns (code: Code, handle: Handle)
      requires Valid()
      modifies this
      ensures Valid()
      ensures View() == AddEntry(old(View()), ParamKey(params, priority), value).0
      ensures code == AddEntry(old(View()), ParamKey(params, priority), value).1.code
      ensures handle == AddEntry(old(View()), ParamKey(params, priority), value).1.handle
      ensures var key := ParamKey(params, priority);
              code == if key.None? then BadMatchKey
                      else if Present(old(View()), key.value) then DuplicateEntry
                      else if |old(handles)| == |old(entries)| then TableFull
                      else Success
    {
      hide Built, Inv, ParamKey, AllProper, Proper, AddEntry, Present, Contents;
      var key := BuildKey(params, priority);
      ghost var t := View();
      AddKeeps(t, key, value);
      AddCases(kind, t, key, value);
      AddProper(kind, t, key, value);
      code, handle := Insert(key, value);
    }

    method Insert(key: Option<Key>, value: V) returns (code: Code, handle: Handle)
      requires Inv(View())
      modifies this
      ensures View() == AddEntry(old(View()), key, value).0
      ensures code == AddEntry(old(View()), key, value).1.code && handle == AddEntry(old(View()), key, value).1.handle
    {
      hide Inv, FirstEmpty, HandleSet, NewMetas, IndexOf, AddEntry, Placed;
      ghost var t := View();
      AddOutcome(t, key, value);
      if key.None? { return BadMatchKey, 0; }
      if IndexOf(key.value) in index { return DuplicateEntry, 0; }
      if numEntries >= |entries| { return TableFull, 0; }
      var slot := FirstEmpty(handles, 0);
      handles, numEntries := handles + {slot}, numEntries + 1;
      var version := entries[slot].version;
      handle := HandleSet(version, slot);
      entries := entries[slot := Slot(version, Some((key.value, value)))];
      index := index[IndexOf(key.value) := slot];
      metas := NewMetas(metas, handle);
      code := Success;
      PlacedIs(t, key.value, value, slot);
    }

    /** The test that starts delete, modify and get. */
    method Check(handle: Handle) returns (code: Code)
      requires Valid()
      ensures code == CheckHandle(View(), handle)
    {
      var slot := HandleInternal(handle);
      if slot !in handles { return InvalidHandle; }
      if HandleVersion(handle) != entries[slot].version { return ExpiredHandle; }
      return Success;
    }

    method Delete(handle: Handle) returns (code: Code)
      requires Valid()
      modifies this
      ensures Valid() && View() == DeleteEntry(old(View()), handle).0 && code == DeleteEntry(old(View()), handle).1.code
    {
      hide Built, HandleInternal, HandleVersion, Removed, Inv, AllProper;
      DeleteKeeps(View(), handle);
      StepProper(kind, View(), DoDelete(handle));
      code := Check(handle);
      if code != Success { return; }
      Remove(HandleInternal(handle));
    }

    method Remove(slot: nat)
      requires Inv(View()) && slot in handles && slot < |entries|
      modifies this
      ensures View() == Removed(old(View()), slot)
    {
      var entry := entries[slot];
      entries := entries[slot := entry.(version := (entry.version + 1) % 0x1_0000_0000)];
      index := index - {IndexOf(entry.content.value.0)};
      handles, numEntries := handles - {slot}, numEntries - 1;
    }

    method Modify(handle: Handle, value: V) returns (code: Code)
      requires Valid()
      modifies this`entries
      ensures Valid() && View() == ModifyEntry(old(View()), handle, value).0
      ensures code == ModifyEntry(old(View()), handle, value).1.code
    {
      hide AllProper;
      ModifyKeeps(View(), handle, value);
      StepProper(kind, View(), DoModify(handle, value));
      code := Check(handle);
      hide Built, HandleInternal, HandleVersion;
      if code != Success { return; }
      var slot := HandleInternal(handle);
      assert slot in handles;
      var entry := entries[slot];
      entries := entries[slot := entry.(content := Some((entry.content.value.0, value)))];
    }

    /** get_value: the value last stored under an accepted handle. */
    method GetValue(handle: Handle) returns (code: Code, value: Option<V>)
      requires Valid()
      ensures code == CheckHandle(View(), handle)
      ensures if code == Success
              then
                var slot := HandleInternal(handle);
                Live(View(), slot) && value == Some(entries[slot].content.value.1)
              else value == None
    {
      code := Check(handle);
      value := None;
      hide HandleInternal, HandleVersion, Built;
      if code == Success {
        assert HandleInternal(handle) in handles;
        value := Some(entries[HandleInternal(handle)].content.value.1);
      }
    }

    /** retrieve_handle: the handle of the slot that the lookup structure reports for the
        key. It is that of the entry, and accepted in the first 256 lives of the slot, if
        and only if the structure reports the entry's own slot. */
    method RetrieveHandle(params: seq<Param>, priority: int) returns (code: Code, handle: Handle)
      requires Valid()
      ensures var key := ParamKey(params, priority);
              code == if key.Some? && Present(View(), key.value) then Success else BadMatchKey
      ensures var key := ParamKey(params, priority);
              forall slot :: key.Some? && slot in Contents(View()) && SameEntry(Contents(View())[slot].0, key.value) ==>
                Retrieved(View(), kind, slot, handle)
    {
      hide Built, ParamKey, HandleSet, IndexOf, Least, Present, AllProper, Proper, Inv, Retrieved, SameEntry, Contents;
      hide KeyStores, Reported;
      var key := BuildKey(params, priority);
      if key.Some? { Retrieves(View(), kind, key.value); }
      if key.None? || IndexOf(key.value) !in index { return BadMatchKey, 0; }
      var slot := index[IndexOf(key.value)];
      var reported := Reported(kind, handles, slot);
      return Success, HandleSet(entries[reported].version, reported);
    }

    /** lookup_key: handle and value of the slot that the lookup structure reports for the
        packet's key, whether or not it is live. */
    method LookupKey(reported: Option<nat>) returns (handle: Option<Handle>, value: Option<V>)
      requires reported.Some? ==> reported.value < |entries|
      ensures reported.None? ==> handle == None && value == None
      ensures reported.Some? ==>
                && handle == Some(HandleSet(entries[reported.value].version, reported.value))
                && value == LastValue(View(), reported.value)
    {
      hide HandleSet;
      if reported.None? { return None, None; }
      var entry := entries[reported.value];
      value := if entry.content.Some? then Some(entry.content.value.1) else None;
      return Some(HandleSet(entry.version, reported.value)), value;
    }
  }
}
