/** Tables as packets see them: what the match unit stores, what its lookup structure
    holds after the same run, and which entry a packet's key finds. */
module Tables {
  import opened Bits
  import opened Options
  import opened Sequences
  import opened MatchKeys
  import opened MatchParams
  import opened MatchMeaning
  import opened ValueMeaning
  import LpmTrie
  import EntryLists
  import M = MatchUnit

  // ----- keys in a table ----------------------------------------------------

  ghost predicate AddsOnly<V>(actions: seq<M.Action<V>>, p: M.Key -> bool) {
    forall i :: 0 <= i < |actions| && actions[i].DoAdd? && actions[i].key.Some? ==> p(actions[i].key.value)
  }

  ghost predicate HoldsOnly<V>(t: M.Table<V>, p: M.Key -> bool) {
    forall i :: i in M.Contents(t) ==> p(M.Contents(t)[i].0)
  }

  lemma {:induction false} StepHolds<V>(t: M.Table<V>, a: M.Action<V>, p: M.Key -> bool)
    requires M.Inv(t) && HoldsOnly(t, p) && (a.DoAdd? && a.key.Some? ==> p(a.key.value))
    ensures HoldsOnly(M.Apply(t, a).0, p)
  {
    hide M.Inv, M.Contents, M.Apply, M.FirstEmpty, M.HandleInternal;
    M.StepRefines(t, a);
  }

  /** Every key in a table was added by an action of the run. */
  lemma {:induction false} RunHolds<V>(size: nat, actions: seq<M.Action<V>>, p: M.Key -> bool)
    requires AddsOnly(actions, p)
    ensures HoldsOnly(M.Run(M.Empty(size), actions), p) && M.Inv(M.Run(M.Empty(size), actions))
  {
    hide M.Inv, M.Contents, M.Apply, HoldsOnly;
    M.RunKeeps(size, actions);
    if actions == [] {
      NothingHeld<V>(size, p);
    } else {
      var before := actions[..|actions| - 1];
      RunHolds(size, before, p);
      StepHolds(M.Run(M.Empty(size), before), actions[|actions| - 1], p);
    }
  }

  lemma {:induction false} NothingHeld<V>(size: nat, p: M.Key -> bool)
    ensures HoldsOnly(M.Empty<V>(size), p)
  {}

  // ----- LPM tables ---------------------------------------------------------

  predicate IsLpm(k: M.Key) {
    k.kind.LpmKind? && 0 <= k.entry.prefixLength <= 8 * |k.entry.data|
  }

  /** What an operation of the table asks of the trie. */
  function TrieCommands<V>(t: M.Table<V>, a: M.Action<V>): seq<LpmTrie.Command> {
    if M.Apply(t, a).1.code != M.Success then []
    else match a
      case DoAdd(key, _) =>
        if key.Some? then [LpmTrie.InsertCmd(M.PrefixBits(key.value.entry), M.FirstEmpty(t.handles, 0))] else []
      case DoDelete(handle) =>
        var slot := M.HandleInternal(handle);
        if slot < |t.entries| && t.entries[slot].content.Some?
        then [LpmTrie.DeleteCmd(M.PrefixBits(t.entries[slot].content.value.0.entry))] else []
      case DoModify(_, _) => []
  }

  function RunCommands<V>(size: nat, actions: seq<M.Action<V>>): seq<LpmTrie.Command> {
    if actions == [] then []
    else
      var before := actions[..|actions| - 1];
      RunCommands(size, before) + TrieCommands(M.Run(M.Empty(size), before), actions[|actions| - 1])
  }

  /** The index of the table as a map from prefixes to slots. */
  ghost function PrefixMap<V>(t: M.Table<V>): imap<seq<bool>, nat> {
    imap s | M.ByPrefix(s) in t.index :: t.index[M.ByPrefix(s)]
  }

  ghost predicate NoOverflow(cmds: seq<LpmTrie.Command>) {
    forall i :: 0 <= i < |cmds| && cmds[i].DeleteCmd? ==>
      !LpmTrie.Overflows(LpmTrie.RunShape(true, cmds[..i]), cmds[i].prefix)
  }

  lemma {:induction false} CarefulMore(cmds: seq<LpmTrie.Command>, c: LpmTrie.Command)
    requires LpmTrie.Careful(cmds) && LpmTrie.CarefulStep(LpmTrie.RunShape(true, cmds), c)
    ensures LpmTrie.Careful(cmds + [c])
  {
    hide LpmTrie.CarefulStep, LpmTrie.RunShape;
    var more := cmds + [c];
    forall i | 0 <= i < |more| ensures LpmTrie.CarefulStep(LpmTrie.RunShape(true, more[..i]), more[i]) {
      if i < |cmds| { assert more[..i] == cmds[..i]; } else { assert more[..i] == cmds; }
    }
  }

  lemma {:induction false} NoOverflowBefore(cmds: seq<LpmTrie.Command>, more: seq<LpmTrie.Command>)
    requires NoOverflow(cmds + more)
    ensures NoOverflow(cmds)
    ensures |more| == 1 && more[0].DeleteCmd? ==> !LpmTrie.Overflows(LpmTrie.RunShape(true, cmds), more[0].prefix)
  {
    hide LpmTrie.Overflows, LpmTrie.RunShape;
    var all := cmds + more;
    assert forall i :: 0 <= i <= |cmds| ==> all[..i] == cmds[..i];
    assert cmds[..|cmds|] == cmds;
    forall i | 0 <= i < |cmds| && cmds[i].DeleteCmd?
      ensures !LpmTrie.Overflows(LpmTrie.RunShape(true, cmds[..i]), cmds[i].prefix)
    {
      assert all[i] == cmds[i];
    }
    assert |more| == 1 ==> all[|cmds|] == more[0];
  }

  ghost predicate Follows<V>(t: M.Table<V>, a: M.Action<V>) {
    var (cmds, t') := (TrieCommands(t, a), M.Apply(t, a).0);
    && |cmds| <= 1
    && PrefixMap(t') == (if cmds == [] then PrefixMap(t) else LpmTrie.MapStep(PrefixMap(t), cmds[0]))
    && (cmds != [] && cmds[0].InsertCmd? ==> cmds[0].prefix !in PrefixMap(t))
  }

  /** One operation: the table's index changes as the plain map of the trie does, and
      an insertion never meets its prefix. */
  lemma {:induction false} LpmStep<V>(t: M.Table<V>, a: M.Action<V>)
    requires M.Inv(t) && HoldsOnly(t, IsLpm) && (a.DoAdd? && a.key.Some? ==> IsLpm(a.key.value))
    ensures Follows(t, a)
  {
    hide Follows, M.Inv;
    match a
    case DoAdd(key, value) => LpmAdd(t, key, value);
    case DoDelete(handle) => LpmDelete(t, handle);
    case DoModify(handle, value) => LpmModify(t, handle, value);
  }

  lemma {:induction false} LpmAdd<V>(t: M.Table<V>, key: Option<M.Key>, value: V)
    requires M.Inv(t) && (key.Some? ==> IsLpm(key.value))
    ensures Follows(t, M.DoAdd(key, value))
  {
    hide M.FirstEmpty, M.HandleSet, M.NewMetas, M.PrefixBits, M.AddEntry, M.Inv;
    M.AddByIndex(t, key, value);
  }

  lemma {:induction false} LpmAt<V>(t: M.Table<V>, slot: nat)
    requires M.Inv(t) && HoldsOnly(t, IsLpm) && slot in t.handles
    ensures M.Live(t, slot) && M.IndexAt(t, slot) == M.ByPrefix(M.PrefixBits(t.entries[slot].content.value.0.entry))
  {
    hide M.PrefixBits, M.Sized, M.MetasMatch;
    assert M.Live(t, slot) && slot in M.Contents(t);
  }

  lemma {:induction false} LpmDelete<V>(t: M.Table<V>, handle: M.Handle)
    requires M.Inv(t) && HoldsOnly(t, IsLpm)
    ensures Follows(t, M.DoDelete(handle))
  {
    hide M.HandleInternal, M.HandleVersion, M.PrefixBits, M.Inv, HoldsOnly, M.IndexOf;
    if M.CheckHandle(t, handle) == M.Success { LpmAt(t, M.HandleInternal(handle)); }
  }

  lemma {:induction false} LpmModify<V>(t: M.Table<V>, handle: M.Handle, value: V)
    ensures Follows(t, M.DoModify(handle, value))
  {
    hide M.HandleInternal, M.HandleVersion;
  }

  /** The trie meets its contract in every run of an LPM table: no insertion meets a
      present prefix, and as long as no deletion overflows the trie holds exactly the
      prefixes of the live entries, each with its slot. */
  lemma {:induction false} TrieFollows<V>(size: nat, actions: seq<M.Action<V>>)
    requires AddsOnly(actions, IsLpm) && NoOverflow(RunCommands(size, actions))
    ensures var cmds := RunCommands(size, actions);
            && LpmTrie.Careful(cmds)
            && LpmTrie.Stored(LpmTrie.RunShape(true, cmds)) == LpmTrie.RunMap(cmds) ==
              PrefixMap(M.Run(M.Empty(size), actions))
  {
    hide M.Inv, M.Apply, HoldsOnly, LpmTrie.Careful, LpmTrie.RunShape, LpmTrie.RunMap, LpmTrie.Stored, TrieCommands,
         NoOverflow, PrefixMap, LpmTrie.MapStep;
    if actions == [] {
      NothingStored<V>(size);
    } else {
      var (before, a) := (actions[..|actions| - 1], actions[|actions| - 1]);
      var (t, cmds) := (M.Run(M.Empty(size), before), RunCommands(size, before));
      var more := TrieCommands(t, a);
      NoOverflowBefore(cmds, more);
      TrieFollows(size, before);
      RunHolds(size, before, IsLpm);
      LpmStep(t, a);
      if more == [] {
        assert cmds + more == cmds;
      } else {
        assert more == [more[0]];
        FreshInsert(cmds, more[0]);
        CarefulMore(cmds, more[0]);
        LpmTrie.RunRefines(cmds + [more[0]]);
        LpmTrie.RunOne(true, cmds, more[0]);
      }
    }
  }

  lemma {:induction false} FreshInsert(cmds: seq<LpmTrie.Command>, c: LpmTrie.Command)
    requires c.InsertCmd? ==> c.prefix !in LpmTrie.Stored(LpmTrie.RunShape(true, cmds))
    requires c.DeleteCmd? ==> !LpmTrie.Overflows(LpmTrie.RunShape(true, cmds), c.prefix)
    ensures LpmTrie.CarefulStep(LpmTrie.RunShape(true, cmds), c)
  {
    hide LpmTrie.Find, LpmTrie.RunShape, LpmTrie.Overflows;
  }

  lemma {:induction false} NothingStored<V>(size: nat)
    ensures LpmTrie.Careful([])
    ensures LpmTrie.Stored(LpmTrie.RunShape(true, [])) == LpmTrie.RunMap([]) == PrefixMap(M.Empty<V>(size))
  {
    LpmTrie.EmptyShape();
  }

  /** The stored prefix is a prefix of the packet's key. */
  predicate Agrees(k: M.Key, x: seq<Byte>) {
    M.PrefixBits(k.entry) <= BitsOf(x)
  }

  /** The entry that an LPM table must find: the longest that agrees, none only if none
      agrees. */
  ghost predicate FindsLongest<V>(t: M.Table<V>, x: seq<Byte>, r: Option<nat>) {
    && (r.None? ==> forall i :: i in M.Contents(t) ==> !Agrees(M.Contents(t)[i].0, x))
    && (r.Some? ==>
          && r.value in M.Contents(t) && Agrees(M.Contents(t)[r.value].0, x)
          && forall i :: i in M.Contents(t) && Agrees(M.Contents(t)[i].0, x) ==>
               M.Contents(t)[i].0.entry.prefixLength <= M.Contents(t)[r.value].0.entry.prefixLength)
  }

  lemma {:induction false} EntryInMap<V>(t: M.Table<V>, i: nat, x: seq<Byte>)
    requires M.Inv(t) && HoldsOnly(t, IsLpm) && i in M.Contents(t) && Agrees(M.Contents(t)[i].0, x)
    ensures var n := M.Contents(t)[i].0.entry.prefixLength;
            0 <= n <= |BitsOf(x)| && BitsOf(x)[..n] in PrefixMap(t) && PrefixMap(t)[BitsOf(x)[..n]] == i
  {
    hide BitsOf, M.Sized, M.MetasMatch;
    assert i in t.handles;
    var e := M.Contents(t)[i].0.entry;
    assert M.IndexAt(t, i) == M.ByPrefix(M.PrefixBits(e));
    BitsLength(e.data);
    assert BitsOf(x)[..e.prefixLength] == M.PrefixBits(e);
  }

  lemma {:induction false} BitsLength(data: seq<Byte>)
    ensures |BitsOf(data)| == 8 * |data|
  {}

  lemma {:induction false} MapHasEntry<V>(t: M.Table<V>, n: nat, x: seq<Byte>)
    requires M.Inv(t) && HoldsOnly(t, IsLpm) && n <= |BitsOf(x)| && BitsOf(x)[..n] in PrefixMap(t)
    ensures var i := PrefixMap(t)[BitsOf(x)[..n]];
            i in M.Contents(t) && Agrees(M.Contents(t)[i].0, x) && M.Contents(t)[i].0.entry.prefixLength == n
  {
    hide BitsOf, M.Sized, M.MetasMatch;
    var i := PrefixMap(t)[BitsOf(x)[..n]];
    assert M.Live(t, i) && i in M.Contents(t);
    var e := M.Contents(t)[i].0.entry;
    assert M.IndexAt(t, i) == M.ByPrefix(M.PrefixBits(e));
    BitsLength(e.data);
  }

  lemma {:induction false} LongestEntry<V>(t: M.Table<V>, x: seq<Byte>, r: Option<nat>)
    requires M.Inv(t) && HoldsOnly(t, IsLpm) && LpmTrie.LongestIn(PrefixMap(t), BitsOf(x), r)
    ensures FindsLongest(t, x, r)
  {
    hide BitsOf, M.Inv, HoldsOnly, Agrees, PrefixMap, M.Contents;
    forall i | i in M.Contents(t) && Agrees(M.Contents(t)[i].0, x)
      ensures r.Some? && M.Contents(t)[i].0.entry.prefixLength <= |BitsOf(x)|
      ensures BitsOf(x)[..Length(t, i, x)] in PrefixMap(t)
    {
      EntryInMap(t, i, x);
    }
    if r.Some? {
      var n :| 0 <= n <= |BitsOf(x)| && BitsOf(x)[..n] in PrefixMap(t) && r == Some(PrefixMap(t)[BitsOf(x)[..n]])
            && forall l :: n < l <= |BitsOf(x)| ==> BitsOf(x)[..l] !in PrefixMap(t);
      MapHasEntry(t, n, x);
    }
  }

  ghost function Length<V>(t: M.Table<V>, i: nat, x: seq<Byte>): (n: nat)
    requires M.Inv(t) && HoldsOnly(t, IsLpm) && i in M.Contents(t) && Agrees(M.Contents(t)[i].0, x)
    ensures n == M.Contents(t)[i].0.entry.prefixLength <= |BitsOf(x)|
  {
    EntryInMap(t, i, x);
    M.Contents(t)[i].0.entry.prefixLength
  }

  /** Over every run of an LPM table, short of an overflow: the trie's lookup finds the
      slot of the live entry with the longest prefix that agrees with the packet. */
  lemma {:induction false} LpmTableFinds<V>(size: nat, actions: seq<M.Action<V>>, x: seq<Byte>)
    requires AddsOnly(actions, IsLpm) && NoOverflow(RunCommands(size, actions))
    ensures FindsLongest(M.Run(M.Empty(size), actions), x,
                         LpmTrie.Longest(LpmTrie.RunShape(true, RunCommands(size, actions)), BitsOf(x), |BitsOf(x)|))
  {
    hide *;
    TrieFollows(size, actions);
    RunHolds(size, actions, IsLpm);
    LpmTrie.LookupAfterRun(RunCommands(size, actions), BitsOf(x));
    LongestEntry(M.Run(M.Empty(size), actions), x,
                 LpmTrie.Longest(LpmTrie.RunShape(true, RunCommands(size, actions)), BitsOf(x), |BitsOf(x)|));
  }

  /** In terms of the parameters: an entry made from them agrees with exactly the
      packets whose fields match them. */
  lemma {:induction false} LpmAgrees(b: Layout, params: seq<Param>, x: seq<Byte>)
    requires Fits(LpmKind, b) && Sane(b, params) && SingleLpm(b.fields) && |x| == Off(b.fields, |b.fields|)
    ensures Ordered(b, params) && IsLpm(M.Key(LpmKind, ToEntry(LpmKind, b, params), 0))
    ensures Agrees(M.Key(LpmKind, ToEntry(LpmKind, b, params), 0), x) <==> AllMatch(b, params, x)
  {
    hide Fits, Sane, SingleLpm, Off, AllMatch, ToEntry;
    LpmMeaning(b, params, x);
    LpmPrefixFits(b, params);
    var e := ToEntry(LpmKind, b, params);
    PrefixIsAgreement(e, x);
  }

  lemma {:induction false} PrefixIsAgreement(e: EntryKey, x: seq<Byte>)
    requires |e.data| == |x| && 0 <= e.prefixLength <= 8 * |x|
    ensures M.PrefixBits(e) <= BitsOf(x) <==> PrefixAgrees(x, e.data, e.prefixLength)
  {
    var p := M.PrefixBits(e);
    assert |p| == e.prefixLength && forall k :: 0 <= k < |p| ==> p[k] == BitsOf(e.data)[k];
    if PrefixAgrees(x, e.data, e.prefixLength) {
      assert p == BitsOf(x)[..|p|];
    }
    if p <= BitsOf(x) {
      forall k | 0 <= k < e.prefixLength ensures BitsOf(x)[k] == BitsOf(e.data)[k] { assert p[k] == BitsOf(x)[k]; }
    }
  }

  // ----- entries and the parameters they were made from ---------------------

  /** The key was made from the parameters that `source` gives for it. */
  ghost predicate Made(kind: Kind, b: Layout, source: M.Key -> seq<Param>, k: M.Key) {
    && Sane(b, source(k)) && Ordered(b, source(k)) && (kind.LpmKind? || kind.ExactKind? ==> k.priority == 0)
    && k.kind == kind && k.entry == ToEntry(kind, b, source(k))
  }

  ghost predicate MatchedAt<V>(b: Layout, source: M.Key -> seq<Param>, t: M.Table<V>, i: nat, x: seq<Byte>)
    requires WellBuilt(b) && |x| == Off(b.fields, |b.fields|)
  {
    i in M.Contents(t) && Sane(b, source(M.Contents(t)[i].0)) && AllMatch(b, source(M.Contents(t)[i].0), x)
  }

  lemma {:induction false} MadeIsLpm(b: Layout, source: M.Key -> seq<Param>, k: M.Key, x: seq<Byte>)
    requires Fits(LpmKind, b) && SingleLpm(b.fields) && Made(LpmKind, b, source, k) && |x| == Off(b.fields, |b.fields|)
    ensures IsLpm(k) && (Agrees(k, x) <==> AllMatch(b, source(k), x))
  {
    hide Fits, SingleLpm, Off, AllMatch, ToEntry, Agrees, Sane;
    LpmAgrees(b, source(k), x);
    assert k == M.Key(LpmKind, ToEntry(LpmKind, b, source(k)), 0);
  }

  /** An LPM table from end to end: whatever was added and deleted before, short of an
      overflow, a packet finds an entry if and only if it matches the parameters of
      one, and then one of the longest prefix. */
  lemma {:induction false} LpmTableMatches<V>(size: nat, actions: seq<M.Action<V>>, b: Layout,
                                              source: M.Key -> seq<Param>, x: seq<Byte>)
    requires Fits(LpmKind, b) && SingleLpm(b.fields) && |x| == Off(b.fields, |b.fields|)
    requires AddsOnly(actions, k => Made(LpmKind, b, source, k)) && NoOverflow(RunCommands(size, actions))
    ensures var (t, cmds) := (M.Run(M.Empty(size), actions), RunCommands(size, actions));
            var r := LpmTrie.Longest(LpmTrie.RunShape(true, cmds), BitsOf(x), |BitsOf(x)|);
            && (r.None? <==> forall i :: !MatchedAt(b, source, t, i, x))
            && (r.Some? ==>
                  && MatchedAt(b, source, t, r.value, x)
                  && forall i :: MatchedAt(b, source, t, i, x) ==>
                       M.Contents(t)[i].0.entry.prefixLength <= M.Contents(t)[r.value].0.entry.prefixLength)
  {
    hide FieldFits, WellBuilt, SingleLpm, Off, AllMatch, Made, IsLpm, NoOverflow, LpmTrie.Longest, LpmTrie.RunShape,
         M.Contents, Agrees, BitsOf, M.Inv, M.Run, M.Empty, Sane;
    var t := M.Run(M.Empty(size), actions);
    forall k | Made(LpmKind, b, source, k)
      ensures IsLpm(k) && Sane(b, source(k)) && (Agrees(k, x) <==> AllMatch(b, source(k), x))
    {
      MadeSane(LpmKind, b, source, k);
      MadeIsLpm(b, source, k, x);
    }
    RunHolds(size, actions, k => Made(LpmKind, b, source, k));
    assert AddsOnly(actions, IsLpm);
    LpmTableFinds(size, actions, x);
    assert forall i :: i in M.Contents(t) ==> (MatchedAt(b, source, t, i, x) <==> Agrees(M.Contents(t)[i].0, x));
  }

  lemma {:induction false} MadeSane(kind: Kind, b: Layout, source: M.Key -> seq<Param>, k: M.Key)
    requires Made(kind, b, source, k)
    ensures Sane(b, source(k))
  {
    hide Sane;
  }

  // ----- ternary and range tables -------------------------------------------

  function ListKey(k: M.Key): EntryLists.Key {
    StoredKey(k.kind, k.entry, k.priority)
  }

  /** Keys of one kind that leave the parts of others empty. */
  predicate IsMasked(kind: Kind, k: M.Key) {
    Masking(kind) && k.kind == kind && k.entry.prefixLength == 0 && (kind.TernaryKind? ==> k.entry.widths == [])
  }

  /** What the entry list holds: the keys of the live entries by slot. */
  function KeyTable<V>(t: M.Table<V>): (r: map<nat, EntryLists.Key>)
    ensures r.Keys == M.Contents(t).Keys
  {
    map i | i in M.Contents(t) :: ListKey(M.Contents(t)[i].0)
  }

  function ListOps<V>(t: M.Table<V>, a: M.Action<V>): seq<EntryLists.Op> {
    if M.Apply(t, a).1.code != M.Success then []
    else match a
      case DoAdd(key, _) => if key.Some? then [EntryLists.AddOp(ListKey(key.value))] else []
      case DoDelete(handle) =>
        var slot := M.HandleInternal(handle);
        if slot in M.Contents(t) then [EntryLists.DeleteOp(ListKey(M.Contents(t)[slot].0))] else []
      case DoModify(_, _) => []
  }

  function RunOps<V>(size: nat, actions: seq<M.Action<V>>): seq<EntryLists.Op> {
    if actions == [] then []
    else
      var before := actions[..|actions| - 1];
      RunOps(size, before) + ListOps(M.Run(M.Empty(size), before), actions[|actions| - 1])
  }

  /** The list tells keys apart by data, mask, range widths and priority, and the match
      unit takes them for one entry exactly then. */
  lemma {:induction false} ListKeyIff(kind: Kind, k: M.Key, l: M.Key)
    requires IsMasked(kind, k) && IsMasked(kind, l)
    ensures M.SameEntry(k, l) <==> ListKey(k) == ListKey(l)
    ensures M.IndexOf(k) == M.IndexOf(l) <==> ListKey(k) == ListKey(l)
  {
    M.SameEntryIff(kind, k, l);
  }

  ghost predicate Listed(m: map<nat, EntryLists.Key>, key: EntryLists.Key) {
    exists h :: h in m && m[h] == key
  }

  lemma {:induction false} ListedIff<V>(t: M.Table<V>, kind: Kind, key: M.Key)
    requires HoldsOnly(t, k => IsMasked(kind, k)) && IsMasked(kind, key)
    ensures M.AllProper(kind, t) && M.Proper(kind, key)
    ensures Listed(KeyTable(t), ListKey(key)) <==> M.Present(t, key)
  {
    hide M.Contents, IsMasked, ListKey, M.IndexOf, M.Proper, M.SameEntry;
    forall i | i in M.Contents(t)
      ensures M.Proper(kind, M.Contents(t)[i].0)
      ensures M.SameEntry(M.Contents(t)[i].0, key) <==> KeyTable(t)[i] == ListKey(key)
    {
      MaskedProper(kind, M.Contents(t)[i].0);
      ListKeyIff(kind, M.Contents(t)[i].0, key);
    }
    MaskedProper(kind, key);
    if h :| h in KeyTable(t) && KeyTable(t)[h] == ListKey(key) { assert h in M.Contents(t); }
    if i :| i in M.Contents(t) && M.SameEntry(M.Contents(t)[i].0, key) { assert i in KeyTable(t); }
  }

  lemma {:induction false} MaskedProper(kind: Kind, k: M.Key)
    requires IsMasked(kind, k)
    ensures M.Proper(kind, k)
  {}

  /** Over every run of a ternary or range table: DUPLICATE_ENTRY is returned if and only
      if the list has the very key, which is what its exists answers; and a retrieve
      finds an entry if and only if the list does, that entry. */
  lemma {:induction false} ListTellsDuplicates<V>(size: nat, actions: seq<M.Action<V>>, kind: Kind, key: M.Key,
                                                  value: V)
    requires AddsOnly(actions, k => IsMasked(kind, k)) && IsMasked(kind, key)
    ensures var (t, m) := (M.Run(M.Empty(size), actions), EntryLists.RunTable(RunOps(size, actions), size));
            && (M.AddEntry(t, Some(key), value).1.code == M.DuplicateEntry <==> Listed(m, ListKey(key)))
            && (M.IndexOf(key) in t.index <==> Listed(m, ListKey(key)))
            && forall h :: h in m && m[h] == ListKey(key) ==>
                 M.IndexOf(key) in t.index && t.index[M.IndexOf(key)] == h
  {
    hide M.Inv, M.Contents, M.Run, M.Empty, M.AddEntry, M.IndexOf, M.SameEntry, M.Present, M.Proper, M.AllProper;
    hide Listed, IsMasked, ListKey, RunOps, EntryLists.RunTable;
    var t := M.Run(M.Empty(size), actions);
    ListFollows(size, actions, kind);
    RunHolds(size, actions, k => IsMasked(kind, k));
    ListedIff(t, kind, key);
    M.DuplicateIff(kind, t, key, value);
    IndexedInv(t);
    M.PresentIff(kind, t, key);
    forall h | h in KeyTable(t) && KeyTable(t)[h] == ListKey(key)
      ensures M.IndexOf(key) in t.index && t.index[M.IndexOf(key)] == h
    {
      assert h in M.Contents(t);
      ListKeyIff(kind, M.Contents(t)[h].0, key);
    }
  }

  lemma {:induction false} IndexedInv<V>(t: M.Table<V>)
    requires M.Inv(t)
    ensures M.Indexed(t)
  {}

  ghost predicate ListFollowsStep<V>(t: M.Table<V>, a: M.Action<V>, size: nat) {
    var (ops, t') := (ListOps(t, a), M.Apply(t, a).0);
    |ops| <= 1 && KeyTable(t') == if ops == [] then KeyTable(t) else EntryLists.Apply(KeyTable(t), ops[0], size)
  }

  lemma {:induction false} ListAdd<V>(t: M.Table<V>, key: Option<M.Key>, value: V)
    requires M.Inv(t)
    ensures ListFollowsStep(t, M.DoAdd(key, value), |t.entries|)
  {
    hide M.FirstEmpty, M.HandleSet, M.AddEntry, M.Inv, M.Contents, ListKey, M.Placed, EntryLists.FreeFrom;
    M.AddRefines(t, key, value);
    M.AddByIndex(t, key, value);
    InvKeys(t);
    if M.AddEntry(t, key, value).1.code == M.Success {
      SameFree(M.Contents(t).Keys, KeyTable(t), |t.entries|);
    }
  }

  lemma {:induction false} InvKeys<V>(t: M.Table<V>)
    requires M.Inv(t)
    ensures M.Contents(t).Keys == t.handles && |t.metas| == |t.entries|
  {
    hide M.Contents;
    M.ContentKeys(t);
  }

  lemma {:induction false} SameFree(handles: set<nat>, m: map<nat, EntryLists.Key>, size: nat)
    requires m.Keys == handles && M.FirstEmpty(handles, 0) < size
    ensures EntryLists.FreeFrom(m, 0, size) == M.FirstEmpty(handles, 0)
  {
    hide M.FirstEmpty, EntryLists.FreeFrom;
  }

  lemma {:induction false} ListDelete<V>(t: M.Table<V>, handle: M.Handle, kind: Kind)
    requires M.Inv(t) && HoldsOnly(t, k => IsMasked(kind, k))
    ensures ListFollowsStep(t, M.DoDelete(handle), |t.entries|)
  {
    hide M.HandleInternal, M.HandleVersion, M.Contents, M.Removed, ListKey, M.Inv, EntryLists.WithKey, HoldsOnly;
    if M.CheckHandle(t, handle) == M.Success {
      var slot := M.HandleInternal(handle);
      InvKeys(t);
      M.RemovedContents(t, slot);
      OnlyThere(t, slot, kind);
    }
  }

  // The list finds the entry to delete at its own slot, its key being nowhere else.
  lemma {:induction false} OnlyThere<V>(t: M.Table<V>, slot: nat, kind: Kind)
    requires M.Inv(t) && HoldsOnly(t, k => IsMasked(kind, k)) && slot in M.Contents(t) && slot < |t.entries|
    ensures EntryLists.WithKey(KeyTable(t), ListKey(M.Contents(t)[slot].0), 0, |t.entries|) == slot
  {
    hide M.Contents, ListKey, M.Sized, M.MetasMatch, M.Indexed, M.IndexOf, EntryLists.WithKey, IsMasked;
    forall i | i in M.Contents(t) && i != slot ensures ListKey(M.Contents(t)[i].0) != ListKey(M.Contents(t)[slot].0) {
      M.KeysDiffer(t, i, slot);
      if ListKey(M.Contents(t)[i].0) == ListKey(M.Contents(t)[slot].0) {
        ListKeyIff(kind, M.Contents(t)[i].0, M.Contents(t)[slot].0);
      }
    }
  }

  lemma {:induction false} ListModify<V>(t: M.Table<V>, handle: M.Handle, value: V)
    requires M.Inv(t)
    ensures ListFollowsStep(t, M.DoModify(handle, value), |t.entries|)
  {
    hide M.HandleInternal, M.HandleVersion, M.Contents, ListKey, M.ModifyEntry, M.FirstEmpty, M.Sized, M.MetasMatch,
         M.Indexed;
    M.ModifiedContents(t, handle, value);
  }

  lemma {:induction false} SizeKept<V>(size: nat, actions: seq<M.Action<V>>)
    ensures |M.Run(M.Empty(size), actions).entries| == size
  {
    if actions != [] { SizeKept(size, actions[..|actions| - 1]); }
  }

  /** The entry list meets its contract in every run of a ternary or range table: it
      holds exactly the keys of the live entries, each at its slot. */
  lemma {:induction false} ListFollows<V>(size: nat, actions: seq<M.Action<V>>, kind: Kind)
    requires AddsOnly(actions, k => IsMasked(kind, k))
    ensures EntryLists.RunTable(RunOps(size, actions), size) == KeyTable(M.Run(M.Empty(size), actions))
  {
    hide M.Apply, HoldsOnly, ListOps, EntryLists.Apply, M.Inv, KeyTable, IsMasked;
    if actions == [] {
      NothingListed<V>(size);
    } else {
      var (before, a) := (actions[..|actions| - 1], actions[|actions| - 1]);
      var (t, ops) := (M.Run(M.Empty(size), before), RunOps(size, before));
      ListFollows(size, before, kind);
      RunHolds(size, before, k => IsMasked(kind, k));
      SizeKept(size, before);
      ListStep(t, a, kind);
      var more := ListOps(t, a);
      if more == [] {
        assert ops + more == ops;
      } else {
        assert (ops + more)[..|ops|] == ops;
      }
    }
  }

  lemma {:induction false} ListStep<V>(t: M.Table<V>, a: M.Action<V>, kind: Kind)
    requires M.Inv(t) && HoldsOnly(t, k => IsMasked(kind, k))
    ensures ListFollowsStep(t, a, |t.entries|)
  {
    hide ListFollowsStep, M.Inv, HoldsOnly;
    match a
    case DoAdd(key, value) => ListAdd(t, key, value);
    case DoDelete(handle) => ListDelete(t, handle, kind);
    case DoModify(handle, value) => ListModify(t, handle, value);
  }

  lemma {:induction false} NothingListed<V>(size: nat)
    ensures EntryLists.RunTable([], size) == KeyTable(M.Empty<V>(size))
  {
    assert M.Contents(M.Empty<V>(size)) == map[];
  }

  lemma {:induction false} MadeIsMasked(kind: Kind, b: Layout, source: M.Key -> seq<Param>, k: M.Key, x: seq<Byte>)
    requires Masking(kind) && Fits(kind, b) && Made(kind, b, source, k) && |x| == Off(b.fields, |b.fields|)
    ensures IsMasked(kind, k) && EntryLists.WellFormed(ListKey(k), |x|)
    ensures EntryLists.Matches(x, ListKey(k)) <==> AllMatch(b, source(k), x)
  {
    hide Fits, Off, AllMatch, Sane, EntryLists.Matches, EntryLists.WellFormed, DataParts, MaskParts, Joined,
         PrefixTerms, Sum;
    TernaryMeaning(kind, b, source(k), x, k.priority);
  }

  /** What the list of a ternary or range table selects: one of least priority among the
      live entries whose parameters the packet matches. What the packet then gets is
      the subject of PacketGets below. */
  lemma {:induction false} TernaryTableMatches<V>(size: nat, actions: seq<M.Action<V>>, kind: Kind, b: Layout,
                                                  source: M.Key -> seq<Param>, x: seq<Byte>)
    requires Masking(kind) && Fits(kind, b) && |x| == Off(b.fields, |b.fields|)
    requires AddsOnly(actions, k => Made(kind, b, source, k))
    ensures var (t, m) := (M.Run(M.Empty(size), actions), EntryLists.RunTable(RunOps(size, actions), size));
            && m == KeyTable(t) && EntryLists.TableFits(m, |x|)
            && (forall h :: EntryLists.Eligible(m, x, h) <==>
                  MatchedAt(b, source, t, h, x) && M.Contents(t)[h].0.priority < 0x7fff_ffff)
            && (forall h :: EntryLists.Selected(m, x, h) ==>
                  && MatchedAt(b, source, t, h, x)
                  && forall i :: MatchedAt(b, source, t, i, x) ==>
                    M.Contents(t)[h].0.priority <= M.Contents(t)[i].0.priority)
  {
    hide FieldFits, WellBuilt, Off, AllMatch, Made, IsMasked, EntryLists.Matches, EntryLists.WellFormed, M.Contents,
         M.Inv, M.Run, M.Empty, Sane, RunOps, EntryLists.RunTable;
    var t := M.Run(M.Empty(size), actions);
    forall k | Made(kind, b, source, k)
      ensures IsMasked(kind, k) && Sane(b, source(k)) && EntryLists.WellFormed(ListKey(k), |x|)
      ensures EntryLists.Matches(x, ListKey(k)) <==> AllMatch(b, source(k), x)
    {
      MadeSane(kind, b, source, k);
      MadeIsMasked(kind, b, source, k, x);
    }
    RunHolds(size, actions, k => Made(kind, b, source, k));
    assert AddsOnly(actions, k => IsMasked(kind, k));
    ListFollows(size, actions, kind);
    KeysEligible(t, x, b, source, kind);
  }

  lemma {:induction false} KeysEligible<V>(t: M.Table<V>, x: seq<Byte>, b: Layout, source: M.Key -> seq<Param>,
                                           kind: Kind)
    requires WellBuilt(b) && |x| == Off(b.fields, |b.fields|) && HoldsOnly(t, k => Made(kind, b, source, k))
    requires forall k :: Made(kind, b, source, k) ==> Sane(b, source(k)) && EntryLists.WellFormed(ListKey(k), |x|)
    requires forall k :: Made(kind, b, source, k) ==> (EntryLists.Matches(x, ListKey(k)) <==> AllMatch(b, source(k), x))
    ensures EntryLists.TableFits(KeyTable(t), |x|)
    ensures forall h :: EntryLists.Eligible(KeyTable(t), x, h) <==>
              MatchedAt(b, source, t, h, x) && M.Contents(t)[h].0.priority < 0x7fff_ffff
    ensures forall h :: EntryLists.Selected(KeyTable(t), x, h) ==>
              && MatchedAt(b, source, t, h, x)
              && forall i :: MatchedAt(b, source, t, i, x) ==>
                M.Contents(t)[h].0.priority <= M.Contents(t)[i].0.priority
  {
    hide WellBuilt, Off, AllMatch, Made, EntryLists.Matches, EntryLists.WellFormed, M.Contents, Sane;
    assert forall h :: h in M.Contents(t) ==> KeyTable(t)[h].priority == M.Contents(t)[h].0.priority;
    forall h | EntryLists.Selected(KeyTable(t), x, h)
      ensures forall i :: MatchedAt(b, source, t, i, x) ==> M.Contents(t)[h].0.priority <= M.Contents(t)[i].0.priority
    {
      assert EntryLists.Eligible(KeyTable(t), x, h);
      forall i | MatchedAt(b, source, t, i, x) ensures M.Contents(t)[h].0.priority <= M.Contents(t)[i].0.priority {
        if M.Contents(t)[i].0.priority < 0x7fff_ffff { assert EntryLists.Eligible(KeyTable(t), x, i); }
      }
    }
  }

  // ----- exact tables -------------------------------------------------------

  lemma {:induction false} MadeIsExact(b: Layout, source: M.Key -> seq<Param>, k: M.Key, x: seq<Byte>)
    requires Fits(ExactKind, b) && Made(ExactKind, b, source, k) && |x| == Off(b.fields, |b.fields|)
    ensures M.IndexOf(k) == M.ByData(x) <==> AllMatch(b, source(k), x)
  {
    hide Fits, Off, AllMatch, Sane, ToEntry;
    ExactMeaning(b, source(k), x);
  }

  /** An exact table from end to end: the hash map has the packet's key if and only if
      the packet matches the parameters of a live entry, and then leads to it. */
  lemma {:induction false} ExactTableMatches<V>(size: nat, actions: seq<M.Action<V>>, b: Layout,
                                                source: M.Key -> seq<Param>, x: seq<Byte>)
    requires Fits(ExactKind, b) && |x| == Off(b.fields, |b.fields|)
    requires AddsOnly(actions, k => Made(ExactKind, b, source, k))
    ensures var t := M.Run(M.Empty(size), actions);
            && (M.ByData(x) in t.index <==> exists i :: MatchedAt(b, source, t, i, x))
            && forall i :: MatchedAt(b, source, t, i, x) ==> M.ByData(x) in t.index && t.index[M.ByData(x)] == i
  {
    hide FieldFits, WellBuilt, Off, AllMatch, Made, M.Run, M.Empty, Sane, M.IndexOf, M.Sized, M.MetasMatch;
    var t := M.Run(M.Empty(size), actions);
    forall k | Made(ExactKind, b, source, k)
      ensures Sane(b, source(k)) && (M.IndexOf(k) == M.ByData(x) <==> AllMatch(b, source(k), x))
    {
      MadeSane(ExactKind, b, source, k);
      MadeIsExact(b, source, k, x);
    }
    RunHolds(size, actions, k => Made(ExactKind, b, source, k));
    IndexedAt(t, b, source, x);
  }

  lemma {:induction false} IndexedAt<V>(t: M.Table<V>, b: Layout, source: M.Key -> seq<Param>, x: seq<Byte>)
    requires WellBuilt(b) && |x| == Off(b.fields, |b.fields|) && M.Indexed(t)
    requires HoldsOnly(t, k => Made(ExactKind, b, source, k))
    requires forall k :: Made(ExactKind, b, source, k) ==>
             Sane(b, source(k)) && (M.IndexOf(k) == M.ByData(x) <==> AllMatch(b, source(k), x))
    ensures M.ByData(x) in t.index <==> exists i :: MatchedAt(b, source, t, i, x)
    ensures forall i :: MatchedAt(b, source, t, i, x) ==> M.ByData(x) in t.index && t.index[M.ByData(x)] == i
  {
    hide WellBuilt, Off, AllMatch, Made, Sane, M.IndexOf;
    if M.ByData(x) in t.index {
      var i := t.index[M.ByData(x)];
      assert M.Live(t, i) && i in M.Contents(t) && MatchedAt(b, source, t, i, x);
    }
  }

  // ----- what packets get from ternary and range tables ---------------------

  /** The list reports the slot that M.Reported says: the distance from its first. */
  lemma {:induction false} ListReports<V>(t: M.Table<V>, kind: Kind, es: seq<EntryLists.Entry>, head: int,
                                          order: seq<nat>, h: nat)
    requires M.Inv(t) && Masking(kind) && EntryLists.Chained(es, head, order)
    requires EntryLists.TableOf(es, order) == KeyTable(t)
    requires h in t.handles
    ensures h - head == M.Reported(kind, t.handles, h)
    ensures h - head == h <==> 0 in t.handles
  {
    hide M.Inv, M.Contents, M.Least, EntryLists.TableOf, KeyTable;
    InvKeys(t);
    EntryLists.TableKeys(es, head, order);
    M.ReportedIff(kind, t.handles, h);
    assert forall g: nat :: g in order <==> g in t.handles;
    FirstIsLeast(order, t.handles);
  }

  lemma {:induction false} FirstIsLeast(order: seq<nat>, handles: set<nat>)
    requires EntryLists.Increasing(order) && order != [] && forall g: nat :: g in order <==> g in handles
    ensures order[0] in handles && M.Least(handles, 0) == order[0]
  {
    hide M.Least;
    assert order[0] in order;
    assert M.Least(handles, 0) in order;
  }

  /** A ternary or range table from end to end, over every run: the list selects a live
      entry h of least priority among those the packet matches, and the packet gets
      the content of slot h if and only if slot 0 is live. Otherwise it gets what slot
      h - head last held. */
  lemma {:induction false} PacketGets<V>(size: nat, actions: seq<M.Action<V>>, kind: Kind, b: Layout,
                                         source: M.Key -> seq<Param>, x: seq<Byte>, es: seq<EntryLists.Entry>,
                                         head: int, order: seq<nat>, h: nat)
    requires Masking(kind) && Fits(kind, b) && |x| == Off(b.fields, |b.fields|)
    requires AddsOnly(actions, k => Made(kind, b, source, k))
    requires EntryLists.Chained(es, head, order)
    requires EntryLists.TableOf(es, order) == EntryLists.RunTable(RunOps(size, actions), size)
    requires EntryLists.TableFits(EntryLists.TableOf(es, order), |x|)
    requires EntryLists.Selected(EntryLists.TableOf(es, order), x, h)
    ensures var t := M.Run(M.Empty(size), actions);
            && MatchedAt(b, source, t, h, x) && h in t.handles && h < |t.entries|
            && (forall i :: MatchedAt(b, source, t, i, x) ==>
              M.Contents(t)[h].0.priority <= M.Contents(t)[i].0.priority)
            && h - head == M.Reported(kind, t.handles, h)
            && (h - head == h <==> 0 in t.handles) && M.Gets(t, kind, h).Some?
  {
    hide FieldFits, WellBuilt, Off, AllMatch, Made, EntryLists.Matches, M.Contents, M.Inv, M.Run, M.Empty, Sane, RunOps;
    hide EntryLists.RunTable, EntryLists.TableOf, EntryLists.Chained, EntryLists.Selected, M.Gets, KeyTable,
         M.UsedInOrder;
    var t := M.Run(M.Empty(size), actions);
    TernaryTableMatches(size, actions, kind, b, source, x);
    RunHolds(size, actions, k => Made(kind, b, source, k));
    M.RunUsed(size, actions);
    LiveSlot(t, h);
    ListReports(t, kind, es, head, order, h);
    M.GetsSomething(t, kind, h);
  }

  lemma {:induction false} LiveSlot<V>(t: M.Table<V>, h: nat)
    requires M.Inv(t) && h in M.Contents(t)
    ensures h in t.handles && h < |t.entries|
  {}

  /** A run after which a packet gets a deleted entry's value: a is added to slot 0 and b
      to slot 1, and a is deleted. What is reported for b is slot 0, which still holds
      a, and a retrieved handle is refused. */
  lemma {:induction false} DeletedValueReturned<V>(kind: Kind, a: M.Key, v: V, b: M.Key, w: V, size: nat)
    requires Masking(kind) && M.IndexOf(a) != M.IndexOf(b) && size >= 2
    ensures var added := M.Apply(M.Apply(M.Empty(size), M.DoAdd(Some(a), v)).0, M.DoAdd(Some(b), w)).0;
            var t := M.Apply(added, M.DoDelete(0)).0;
            && t.handles == {1} && 1 < |t.entries| && t.entries[1].content == Some((b, w))
            && M.Reported(kind, t.handles, 1) == 0 && M.Gets(t, kind, 1) == Some(v)
            && M.CheckHandle(t, M.HandleSet(t.entries[0].version, 0)) == M.InvalidHandle
  {
    hide M.IndexOf, M.NewMetas;
    var t1 := M.Apply(M.Empty(size), M.DoAdd(Some(a), v)).0;
    OneAdded(a, v, size);
    var t2 := M.Apply(t1, M.DoAdd(Some(b), w)).0;
    TwoAdded(t1, a, v, b, w, size);
    FirstDeleted(t2, kind, a, v, b, w);
  }

  lemma {:induction false} OneAdded<V>(a: M.Key, v: V, size: nat)
    requires size >= 2
    ensures var t := M.Apply(M.Empty(size), M.DoAdd(Some(a), v)).0;
            && |t.entries| == |t.metas| == size && t.handles == {0} && t.numEntries == 1
            && t.index == map[M.IndexOf(a) := 0]
            && t.entries[0] == M.Slot(0, Some((a, v))) && t.entries[1].version == 0
  {
    hide M.IndexOf, M.NewMetas, M.HandleSet, M.FirstEmpty;
    M.FirstIsZero({});
    M.SizedMetas(M.Empty<V>(size).metas, M.HandleSet(0, 0));
  }

  lemma {:induction false} TwoAdded<V>(t: M.Table<V>, a: M.Key, v: V, b: M.Key, w: V, size: nat)
    requires size >= 2 && M.IndexOf(a) != M.IndexOf(b)
    requires |t.entries| == |t.metas| == size && t.handles == {0} && t.numEntries == 1
    requires t.index == map[M.IndexOf(a) := 0]
    requires t.entries[0] == M.Slot(0, Some((a, v))) && t.entries[1].version == 0
    ensures var u := M.Apply(t, M.DoAdd(Some(b), w)).0;
            && |u.entries| == size && u.handles == {0, 1}
            && u.entries[0] == M.Slot(0, Some((a, v))) && u.entries[1] == M.Slot(0, Some((b, w)))
  {
    hide M.IndexOf, M.NewMetas, M.HandleSet, M.FirstEmpty;
    assert M.FirstEmpty({0}, 0) == 1 by {
      M.FirstAbove(1);
      assert Below(1) == {0};
    }
  }

  lemma {:induction false} FirstDeleted<V>(t: M.Table<V>, kind: Kind, a: M.Key, v: V, b: M.Key, w: V)
    requires Masking(kind) && |t.entries| >= 2 && t.handles == {0, 1}
    requires t.entries[0] == M.Slot(0, Some((a, v))) && t.entries[1] == M.Slot(0, Some((b, w)))
    ensures var u := M.Apply(t, M.DoDelete(0)).0;
            && u.handles == {1} && 1 < |u.entries| && u.entries[1].content == Some((b, w))
            && M.Reported(kind, u.handles, 1) == 0 && M.Gets(u, kind, 1) == Some(v)
            && M.CheckHandle(u, M.HandleSet(u.entries[0].version, 0)) == M.InvalidHandle
  {
    hide M.IndexOf, M.HandleSet, M.HandleInternal, M.HandleVersion, M.Least;
    M.SharedHandle();
    M.LowHandleParts(1, 0);
    assert M.CheckHandle(t, 0) == M.Success;
    var u := M.Removed(t, 0);
    assert M.Apply(t, M.DoDelete(0)).0 == u;
    assert u.handles == {1} && u.entries[0].version == 1;
    OnlyOne(kind);
  }

  lemma {:induction false} OnlyOne(kind: Kind)
    requires Masking(kind)
    ensures M.Reported(kind, {1}, 1) == 0
  {
    hide M.Least;
    var handles: set<nat> := {1};
    assert M.Least(handles, 0) in handles;
  }

  /** A packet's lookup in a ternary or range table: the list, then the match unit. */
  method PacketLookup<V>(l: EntryLists.EntryList, u: M.MatchUnitGeneric<V>, x: seq<Byte>)
    returns (handle: Option<M.Handle>, value: Option<V>, ghost h: nat)
    requires l.Valid() && u.Valid() && Masking(u.kind) && |x| == l.nbytes && l.Table() == KeyTable(u.View())
    ensures handle.Some? <==> exists g :: EntryLists.Eligible(l.Table(), x, g)
    ensures handle.Some? ==>
              && EntryLists.Selected(l.Table(), x, h) && h in u.handles && h < |u.entries|
              && value == M.Gets(u.View(), u.kind, h)
              && (M.Reported(u.kind, u.handles, h) == h <==> 0 in u.handles)
  {
    hide M.Inv, M.Contents, KeyTable, EntryLists.Chained, EntryLists.TableOf, EntryLists.Matches, M.HandleSet, M.Least;
    var found, distance, g := l.Lookup(x);
    h := g;
    if !found { return None, None, h; }
    assert EntryLists.Eligible(l.Table(), x, h);
    SelectedLive(u.View(), x, h);
    ListReports(u.View(), u.kind, l.entries[..], l.head, l.order, h);
    handle, value := u.LookupKey(Some(distance));
    assert handle.Some?;
    assert EntryLists.Eligible(l.Table(), x, h);
  }

  lemma {:induction false} SelectedLive<V>(t: M.Table<V>, x: seq<Byte>, h: nat)
    requires M.Inv(t) && EntryLists.TableFits(KeyTable(t), |x|) && EntryLists.Selected(KeyTable(t), x, h)
    ensures h in t.handles && h < |t.entries|
  {
    hide M.Inv, M.Contents;
    LiveSlot(t, h);
  }

  // ----- by value -----------------------------------------------------------

  /** Made from parameters whose prefixes do not fall into padding. */
  ghost predicate MadeWhole(kind: Kind, b: Layout, source: M.Key -> seq<Param>, k: M.Key) {
    Made(kind, b, source, k) && WholePrefixes(b, source(k))
  }

  /** The packet's values satisfy the parameters of the entry in slot i. */
  ghost predicate SatisfiedAt<V>(b: Layout, source: M.Key -> seq<Param>, t: M.Table<V>, i: nat, x: seq<Byte>)
    requires WellBuilt(b) && |x| == Off(b.fields, |b.fields|)
  {
    i in M.Contents(t) && Sane(b, source(M.Contents(t)[i].0)) && AllSatisfied(b, source(M.Contents(t)[i].0), x)
  }

  /** For a clean packet and such entries, matching is satisfying. By ValueMeaningIff
      this is so for no other entries. */
  lemma {:induction false} MatchedIsSatisfied<V>(size: nat, actions: seq<M.Action<V>>, kind: Kind, b: Layout,
                                                 source: M.Key -> seq<Param>, x: seq<Byte>, i: nat)
    requires Fits(kind, b) && CleanKey(b, x) && |x| == Off(b.fields, |b.fields|)
    requires AddsOnly(actions, k => MadeWhole(kind, b, source, k))
    ensures AddsOnly(actions, k => Made(kind, b, source, k))
    ensures var t := M.Run(M.Empty(size), actions); MatchedAt(b, source, t, i, x) <==> SatisfiedAt(b, source, t, i, x)
  {
    hide FieldFits, WellBuilt, Off, AllMatch, AllSatisfied, Made, CleanKey, WholePrefixes, M.Contents, M.Run, M.Empty,
         Sane, M.Inv;
    RunHolds(size, actions, k => MadeWhole(kind, b, source, k));
    var t := M.Run(M.Empty(size), actions);
    if i in M.Contents(t) {
      MadeSane(kind, b, source, M.Contents(t)[i].0);
      WholeAllMeans(b, source(M.Contents(t)[i].0), x);
    }
  }

  /** An LPM table by value: a clean packet finds an entry if and only if its values
      satisfy the parameters of a live one, and then one of the longest prefix. */
  lemma {:induction false} LpmTableSelects<V>(size: nat, actions: seq<M.Action<V>>, b: Layout,
                                              source: M.Key -> seq<Param>, x: seq<Byte>)
    requires Fits(LpmKind, b) && SingleLpm(b.fields) && CleanKey(b, x) && |x| == Off(b.fields, |b.fields|)
    requires AddsOnly(actions, k => MadeWhole(LpmKind, b, source, k)) && NoOverflow(RunCommands(size, actions))
    ensures var (t, cmds) := (M.Run(M.Empty(size), actions), RunCommands(size, actions));
            var r := LpmTrie.Longest(LpmTrie.RunShape(true, cmds), BitsOf(x), |BitsOf(x)|);
            && (r.None? <==> forall i :: !SatisfiedAt(b, source, t, i, x))
            && (r.Some? ==>
                  && SatisfiedAt(b, source, t, r.value, x)
                  && forall i :: SatisfiedAt(b, source, t, i, x) ==>
                       M.Contents(t)[i].0.entry.prefixLength <= M.Contents(t)[r.value].0.entry.prefixLength)
  {
    hide FieldFits, WellBuilt, Off, SingleLpm, CleanKey, AddsOnly, NoOverflow, MatchedAt, SatisfiedAt, M.Contents,
         M.Run, M.Empty, BitsOf;
    hide LpmTrie.Longest, LpmTrie.RunShape, RunCommands;
    var t := M.Run(M.Empty(size), actions);
    forall i: nat
      ensures AddsOnly(actions, k => Made(LpmKind, b, source, k))
      ensures MatchedAt(b, source, t, i, x) <==> SatisfiedAt(b, source, t, i, x)
    {
      MatchedIsSatisfied(size, actions, LpmKind, b, source, x, i);
    }
    MatchedIsSatisfied(size, actions, LpmKind, b, source, x, 0);
    InContents(t, b, source, x);
    LpmTableMatches(size, actions, b, source, x);
  }

  lemma {:induction false} InContents<V>(t: M.Table<V>, b: Layout, source: M.Key -> seq<Param>, x: seq<Byte>)
    requires WellBuilt(b) && |x| == Off(b.fields, |b.fields|)
    ensures forall i :: MatchedAt(b, source, t, i, x) || SatisfiedAt(b, source, t, i, x) ==> i in M.Contents(t)
  {
    hide WellBuilt, Off, AllMatch, AllSatisfied, M.Contents, Sane;
  }

  /** A ternary or range table by value: the list selects for a clean packet a live entry
      of least priority among those its values satisfy, and the packet gets the content
      of that slot if and only if slot 0 is live. */
  lemma {:induction false} TernaryTableSelects<V>(size: nat, actions: seq<M.Action<V>>, kind: Kind, b: Layout,
                                                  source: M.Key -> seq<Param>, x: seq<Byte>, es: seq<EntryLists.Entry>,
                                                  head: int, order: seq<nat>, h: nat)
    requires Masking(kind) && Fits(kind, b) && CleanKey(b, x) && |x| == Off(b.fields, |b.fields|)
    requires AddsOnly(actions, k => MadeWhole(kind, b, source, k))
    requires EntryLists.Chained(es, head, order)
    requires EntryLists.TableOf(es, order) == EntryLists.RunTable(RunOps(size, actions), size)
    requires EntryLists.TableFits(EntryLists.TableOf(es, order), |x|)
    requires EntryLists.Selected(EntryLists.TableOf(es, order), x, h)
    ensures var t := M.Run(M.Empty(size), actions);
            && SatisfiedAt(b, source, t, h, x) && h in t.handles && h < |t.entries| && h in M.Contents(t)
            && (forall i :: SatisfiedAt(b, source, t, i, x) ==>
                  i in M.Contents(t) && M.Contents(t)[h].0.priority <= M.Contents(t)[i].0.priority)
            && h - head == M.Reported(kind, t.handles, h)
            && (h - head == h <==> 0 in t.handles) && M.Gets(t, kind, h).Some?
  {
    hide FieldFits, WellBuilt, Off, CleanKey, AddsOnly, MatchedAt, SatisfiedAt, M.Contents, M.Run, M.Empty, M.Gets;
    hide EntryLists.RunTable, EntryLists.TableOf, EntryLists.Chained, EntryLists.Selected, RunOps;
    var t := M.Run(M.Empty(size), actions);
    forall i: nat ensures MatchedAt(b, source, t, i, x) <==> SatisfiedAt(b, source, t, i, x) {
      MatchedIsSatisfied(size, actions, kind, b, source, x, i);
    }
    MatchedIsSatisfied(size, actions, kind, b, source, x, 0);
    InContents(t, b, source, x);
    PacketGets(size, actions, kind, b, source, x, es, head, order, h);
  }

  /** An exact table by value: the hash map has the key of a clean packet if and only if
      its values satisfy the parameters of a live entry, and then leads to it. */
  lemma {:induction false} ExactTableSelects<V>(size: nat, actions: seq<M.Action<V>>, b: Layout,
                                                source: M.Key -> seq<Param>, x: seq<Byte>)
    requires Fits(ExactKind, b) && CleanKey(b, x) && |x| == Off(b.fields, |b.fields|)
    requires AddsOnly(actions, k => MadeWhole(ExactKind, b, source, k))
    ensures var t := M.Run(M.Empty(size), actions);
            && (M.ByData(x) in t.index <==> exists i :: SatisfiedAt(b, source, t, i, x))
            && forall i :: SatisfiedAt(b, source, t, i, x) ==> M.ByData(x) in t.index && t.index[M.ByData(x)] == i
  {
    hide FieldFits, WellBuilt, Off, CleanKey, AddsOnly, MatchedAt, SatisfiedAt, M.Run, M.Empty;
    var t := M.Run(M.Empty(size), actions);
    forall i: nat ensures MatchedAt(b, source, t, i, x) <==> SatisfiedAt(b, source, t, i, x) {
      MatchedIsSatisfied(size, actions, ExactKind, b, source, x, i);
    }
    MatchedIsSatisfied(size, actions, ExactKind, b, source, x, 0);
    ExactTableMatches(size, actions, b, source, x);
  }
}
