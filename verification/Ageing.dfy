/** AgeingMonitor of ageing.cpp: periodic sweeps that notify the control plane of
    entries that have aged. */
module Ageing {
  import opened Sequences

  type Handle = nat

  datatype Message = Message(bufferId: nat, tableId: nat, entries: seq<Handle>)

  /** prev holds, for each table, prev_sweep_entries. */
  datatype State = State(prev: map<nat, set<Handle>>, bufferId: nat, sent: seq<Message>)

  /** What one sweep finds in each table, in the order of sweep_entries. */
  type Sweep = map<nat, seq<Handle>>

  function Aged(sweep: Sweep, table: nat): seq<Handle> {
    if table in sweep then sweep[table] else []
  }

  function Elements(s: seq<Handle>): (r: set<Handle>)
    ensures forall h :: h in r <==> h in s
  {
    set h | h in s
  }

  /** The aged handles that the previous sweep did not notify. */
  function Fresh(aged: seq<Handle>, prev: set<Handle>): (r: seq<Handle>)
    ensures forall h :: h in r <==> h in aged && h !in prev
  {
    if aged == [] then []
    else
      var (init, last) := (aged[..|aged| - 1], aged[|aged| - 1]);
      assert aged == init + [last];
      Fresh(init, prev) + if last in prev then [] else [last]
  }

  function Prev(s: State, table: nat): set<Handle> {
    if table in s.prev then s.prev[table] else {}
  }

  function SweepTable(s: State, table: nat, aged: seq<Handle>): State {
    var f := Fresh(aged, Prev(s, table));
    State(s.prev[table := Elements(f)], if f == [] then s.bufferId else s.bufferId + 1,
          if f == [] then s.sent else s.sent + [Message(s.bufferId, table, f)])
  }

  /** One sweep over the first n tables. */
  function SweepTables(s: State, tables: seq<nat>, sweep: Sweep, n: nat): State
    requires n <= |tables|
  {
    if n == 0 then s
    else SweepTable(SweepTables(s, tables, sweep, n - 1), tables[n - 1], Aged(sweep, tables[n - 1]))
  }

  function Start(tables: seq<nat>): State {
    State(map t | t in tables :: {}, 0, [])
  }

  function Run(tables: seq<nat>, sweeps: seq<Sweep>): State {
    if sweeps == [] then Start(tables)
    else SweepTables(Run(tables, sweeps[..|sweeps| - 1]), tables, sweeps[|sweeps| - 1], |tables|)
  }

  // ----- messages -----------------------------------------------------------

  /** Everything that the messages from index `from` on say about a table. */
  function Told(sent: seq<Message>, from: nat, table: nat): (r: set<Handle>)
    ensures forall h :: h in r <==> exists i :: from <= i < |sent| && sent[i].tableId == table && h in sent[i].entries
  {
    set i, h | from <= i < |sent| && sent[i].tableId == table && h in sent[i].entries :: h
  }

  lemma {:induction false} ToldMore(sent: seq<Message>, m: Message, from: nat, table: nat)
    requires from <= |sent|
    ensures Told(sent + [m], from, table) ==
            Told(sent, from, table) + if m.tableId == table then Elements(m.entries) else {}
  {
    var more := sent + [m];
    assert more[|sent|] == m && forall i :: 0 <= i < |sent| ==> more[i] == sent[i];
    forall h | h in Told(more, from, table)
      ensures h in Told(sent, from, table) || (m.tableId == table && h in m.entries)
    {
      var i :| from <= i < |more| && more[i].tableId == table && h in more[i].entries;
    }
    forall h | h in Told(sent, from, table) ensures h in Told(more, from, table) {
      var i :| from <= i < |sent| && sent[i].tableId == table && h in sent[i].entries;
      assert more[i] == sent[i];
    }
  }

  /** From s to t a table was swept, if `done`, and told exactly what is recorded as
      notified: the aged handles that the sweep before did not notify. */
  ghost predicate Tells(s: State, t: State, sweep: Sweep, table: nat, done: bool) {
    && |s.sent| <= |t.sent| && t.sent[..|s.sent|] == s.sent
    && (done ==> Prev(t, table) == Told(t.sent, |s.sent|, table) == Elements(Aged(sweep, table)) - Prev(s, table))
    && (!done ==> Prev(t, table) == Prev(s, table) && Told(t.sent, |s.sent|, table) == {})
  }

  lemma {:induction false} TellsStep(s: State, t: State, sweep: Sweep, id: nat, table: nat, done: bool)
    requires Tells(s, t, sweep, table, done) && (id == table ==> !done)
    ensures Tells(s, SweepTable(t, id, Aged(sweep, id)), sweep, table, done || id == table)
  {
    hide Told, Elements, Fresh, Aged;
    var f := Fresh(Aged(sweep, id), Prev(t, id));
    FreshElements(Aged(sweep, id), Prev(t, id));
    ToldMore(t.sent, Message(t.bufferId, id, f), |s.sent|, table);
  }

  /** A sweep sends about each table exactly what it records as notified: the aged
      handles that the sweep before did not notify. */
  lemma {:induction false} SweepTells(s: State, tables: seq<nat>, sweep: Sweep, n: nat, table: nat)
    requires n <= |tables| && Distinct(tables)
    ensures Tells(s, SweepTables(s, tables, sweep, n), sweep, table, table in tables[..n])
  {
    hide Tells, SweepTable, Aged, Distinct;
    if n == 0 {
      TellsNothing(s, sweep, table);
    } else {
      SweepTells(s, tables, sweep, n - 1, table);
      assert tables[..n] == tables[..n - 1] + [tables[n - 1]];
      OnlyOnce(tables, n - 1);
      TellsStep(s, SweepTables(s, tables, sweep, n - 1), sweep, tables[n - 1], table, table in tables[..n - 1]);
    }
  }

  lemma {:induction false} TellsNothing(s: State, sweep: Sweep, table: nat)
    ensures Tells(s, s, sweep, table, false)
  {
    ToldNothing(s.sent, table);
  }

  lemma {:induction false} ToldNothing(sent: seq<Message>, table: nat)
    ensures Told(sent, |sent|, table) == {}
  {}

  lemma {:induction false} FreshElements(aged: seq<Handle>, prev: set<Handle>)
    ensures Elements(Fresh(aged, prev)) == Elements(aged) - prev
    ensures Fresh(aged, prev) == [] <==> Elements(Fresh(aged, prev)) == {}
  {
    hide Fresh;
    if Fresh(aged, prev) != [] { assert Fresh(aged, prev)[0] in Elements(Fresh(aged, prev)); }
  }

  ghost predicate Ascending(at: seq<nat>) {
    forall i, j :: 0 <= i < j < |at| ==> at[i] < at[j]
  }

  /** `entries` are the aged handles at the positions `at`: those that were not notified
      before, each where the sweep found it. */
  ghost predicate ListedAt(at: seq<nat>, entries: seq<Handle>, aged: seq<Handle>, prev: set<Handle>) {
    && Ascending(at) && |entries| == |at|
    && (forall j :: 0 <= j < |at| ==> at[j] < |aged| && entries[j] == aged[at[j]])
    && (forall i :: 0 <= i < |aged| ==> (i in at <==> aged[i] !in prev))
  }

  ghost predicate Lists(entries: seq<Handle>, aged: seq<Handle>, prev: set<Handle>) {
    exists at: seq<nat> :: ListedAt(at, entries, aged, prev)
  }

  lemma {:induction false} FreshLists(aged: seq<Handle>, prev: set<Handle>)
    ensures Lists(Fresh(aged, prev), aged, prev)
  {
    hide ListedAt;
    if aged == [] {
      NothingListed(prev);
    } else {
      var (init, last) := (aged[..|aged| - 1], aged[|aged| - 1]);
      FreshLists(init, prev);
      var before: seq<nat> :| ListedAt(before, Fresh(init, prev), init, prev);
      assert aged == init + [last];
      OneMoreListed(before, Fresh(init, prev), init, last, prev);
      assert Fresh(init, prev) + [] == Fresh(init, prev);
      assert ListedAt(if last in prev then before else before + [|init|], Fresh(aged, prev), aged, prev);
    }
  }

  lemma {:induction false} NothingListed(prev: set<Handle>)
    ensures ListedAt([], [], [], prev)
  {}

  lemma {:induction false} OneMoreListed(
    at: seq<nat>, entries: seq<Handle>, aged: seq<Handle>, last: Handle, prev: set<Handle>)
    requires ListedAt(at, entries, aged, prev)
    ensures if last in prev then ListedAt(at, entries, aged + [last], prev)
            else ListedAt(at + [|aged|], entries + [last], aged + [last], prev)
  {
    var (more, all) := (if last in prev then at else at + [|aged|], aged + [last]);
    assert |aged| !in at;
    forall i | 0 <= i < |all| ensures i in more <==> all[i] !in prev {
      if i < |aged| { assert i in more <==> i in at; }
    }
  }

  /** What a table lists without repetition is notified without repetition. */
  lemma {:induction false} ListsDistinct(entries: seq<Handle>, aged: seq<Handle>, prev: set<Handle>)
    requires Lists(entries, aged, prev) && Distinct(aged)
    ensures Distinct(entries)
  {}

  ghost predicate HasFresh(sweep: Sweep, table: nat, prev: set<Handle>) {
    table in sweep && exists h :: h in sweep[table] && h !in prev
  }

  /** The messages of a sweep: one for each table that has a handle to notify, in the order
      of the tables; each lists these handles in the order of the sweep. */
  ghost predicate MessagesAt(at: seq<nat>, s: State, t: State, tables: seq<nat>, sweep: Sweep, n: nat)
    requires n <= |tables|
  {
    && |s.sent| <= |t.sent| && t.sent[..|s.sent|] == s.sent
    && MessagesFor(at, s, t.sent[|s.sent|..], tables, sweep, n)
  }

  ghost predicate MessagesFor(at: seq<nat>, s: State, sent: seq<Message>, tables: seq<nat>, sweep: Sweep, n: nat)
    requires n <= |tables|
  {
    && Ascending(at) && |sent| == |at|
    && (forall j :: 0 <= j < |at| ==> at[j] < n && IsMessage(sent[j], tables[at[j]], s, sweep))
    && (forall i :: 0 <= i < n ==> (i in at <==> HasFresh(sweep, tables[i], Prev(s, tables[i]))))
  }

  ghost predicate IsMessage(m: Message, table: nat, s: State, sweep: Sweep) {
    m.tableId == table && table in sweep && Lists(m.entries, sweep[table], Prev(s, table))
  }

  lemma {:induction false} SweepMessages(s: State, tables: seq<nat>, sweep: Sweep, n: nat) returns (at: seq<nat>)
    requires n <= |tables| && Distinct(tables)
    ensures MessagesAt(at, s, SweepTables(s, tables, sweep, n), tables, sweep, n)
  {
    hide MessagesFor, SweepTable, Aged, Distinct, Fresh, HasFresh, Lists, Told, Elements;
    if n == 0 {
      NoMessages(s, tables, sweep);
      return [];
    }
    var (id, aged) := (tables[n - 1], Aged(sweep, tables[n - 1]));
    var u := SweepTables(s, tables, sweep, n - 1);
    var before := SweepMessages(s, tables, sweep, n - 1);
    SweepTells(s, tables, sweep, n - 1, id);
    OnlyOnce(tables, n - 1);
    FreshLists(aged, Prev(u, id));
    HasFreshIff(sweep, id, Prev(u, id));
    at := before + if Fresh(aged, Prev(u, id)) == [] then [] else [n - 1];
    OneMoreMessage(before, s, u, tables, sweep, n);
  }

  lemma {:induction false} NoMessages(s: State, tables: seq<nat>, sweep: Sweep)
    ensures MessagesFor([], s, s.sent[|s.sent|..], tables, sweep, 0)
  {}

  lemma {:induction false} OneMoreMessage(
    before: seq<nat>, s: State, u: State, tables: seq<nat>, sweep: Sweep, n: nat)
    requires 0 < n <= |tables| && MessagesAt(before, s, u, tables, sweep, n - 1)
    requires
      var (id, aged) := (tables[n - 1], Aged(sweep, tables[n - 1]));
      && Prev(u, id) == Prev(s, id) && Lists(Fresh(aged, Prev(u, id)), aged, Prev(u, id))
      && (Fresh(aged, Prev(u, id)) != [] <==> HasFresh(sweep, id, Prev(u, id)))
      && (HasFresh(sweep, id, Prev(u, id)) ==> id in sweep && sweep[id] == aged)
    ensures
      var (id, aged) := (tables[n - 1], Aged(sweep, tables[n - 1]));
      var at := before + if Fresh(aged, Prev(u, id)) == [] then [] else [n - 1];
      MessagesAt(at, s, SweepTable(u, id, aged), tables, sweep, n)
  {
    hide Fresh, Aged, Lists, HasFresh, Elements, Prev;
    var (id, aged) := (tables[n - 1], Aged(sweep, tables[n - 1]));
    var (sent, f) := (u.sent[|s.sent|..], Fresh(aged, Prev(u, id)));
    var m := Message(u.bufferId, id, f);
    assert (u.sent + [m])[|s.sent|..] == sent + [m];
    var at := before + if f == [] then [] else [n - 1];
    assert n - 1 !in before;
    forall i | 0 <= i < n ensures i in at <==> HasFresh(sweep, tables[i], Prev(s, tables[i])) {
      if i < n - 1 { assert i in at <==> i in before; }
    }
  }

  lemma {:induction false} HasFreshIff(sweep: Sweep, table: nat, prev: set<Handle>)
    ensures Fresh(Aged(sweep, table), prev) != [] <==> HasFresh(sweep, table, prev)
    ensures HasFresh(sweep, table, prev) ==> table in sweep && sweep[table] == Aged(sweep, table)
  {
    var f := Fresh(Aged(sweep, table), prev);
    if f != [] { assert f[0] in f; }
  }

  lemma {:induction false} OnlyOnce(tables: seq<nat>, i: nat)
    requires Distinct(tables) && i < |tables|
    ensures tables[i] !in tables[..i]
  {}

  // ----- runs ---------------------------------------------------------------

  /** The set notified for a table by the messages of sweep k. */
  function NotifiedAt(tables: seq<nat>, sweeps: seq<Sweep>, k: nat, table: nat): set<Handle>
    requires k < |sweeps|
  {
    Told(Run(tables, sweeps[..k + 1]).sent, |Run(tables, sweeps[..k]).sent|, table)
  }

  lemma {:induction false} RunNext(tables: seq<nat>, sweeps: seq<Sweep>, k: nat)
    requires k < |sweeps|
    ensures Run(tables, sweeps[..k + 1]) == SweepTables(Run(tables, sweeps[..k]), tables, sweeps[k], |tables|)
  {
    hide SweepTables;
    assert sweeps[..k + 1][..k] == sweeps[..k];
  }

  lemma {:induction false} PrevIsNotified(tables: seq<nat>, sweeps: seq<Sweep>, k: nat, table: nat)
    requires k <= |sweeps| && Distinct(tables) && table in tables
    ensures Prev(Run(tables, sweeps[..k]), table) == if k == 0 then {} else NotifiedAt(tables, sweeps, k - 1, table)
  {
    hide SweepTables, Told, Distinct;
    if k == 0 {
      assert sweeps[..0] == [];
    } else {
      RunNext(tables, sweeps, k - 1);
      SweepTells(Run(tables, sweeps[..k - 1]), tables, sweeps[k - 1], |tables|, table);
      assert tables[..|tables|] == tables;
    }
  }

  /** The set notified at sweep k is the set aged at k without the set notified at
      k - 1. */
  lemma {:induction false} NotifiedIsDifference(tables: seq<nat>, sweeps: seq<Sweep>, k: nat, table: nat)
    requires k < |sweeps| && Distinct(tables) && table in tables
    ensures NotifiedAt(tables, sweeps, k, table)
         == Elements(Aged(sweeps[k], table)) - if k == 0 then {} else NotifiedAt(tables, sweeps, k - 1, table)
  {
    hide SweepTables, Told, Distinct, Run;
    PrevIsNotified(tables, sweeps, k, table);
    RunNext(tables, sweeps, k);
    SweepTells(Run(tables, sweeps[..k]), tables, sweeps[k], |tables|, table);
    assert tables[..|tables|] == tables;
  }

  /** So for every sweep of a run: its messages, one for each table with a handle aged now
      and not notified by the sweep before, in the order of the tables. */
  lemma {:induction false} RunMessages(tables: seq<nat>, sweeps: seq<Sweep>, k: nat) returns (at: seq<nat>)
    requires k < |sweeps| && Distinct(tables)
    ensures MessagesAt(at, Run(tables, sweeps[..k]), Run(tables, sweeps[..k + 1]), tables, sweeps[k], |tables|)
  {
    hide MessagesAt, Run, SweepTables, Distinct;
    RunNext(tables, sweeps, k);
    at := SweepMessages(Run(tables, sweeps[..k]), tables, sweeps[k], |tables|);
  }

  /** For how many sweeps in a row, up to sweep k, a handle has been aged. */
  function Streak(sweeps: seq<Sweep>, k: nat, table: nat, h: Handle): nat
    requires k < |sweeps|
  {
    if table !in sweeps[k] || h !in sweeps[k][table] then 0
    else 1 + if k == 0 then 0 else Streak(sweeps, k - 1, table, h)
  }

  /** A handle is notified at the first, third, fifth ... sweep of each stretch of
      sweeps that find it aged, and at no other. */
  lemma {:induction false} NotifiedEveryOther(tables: seq<nat>, sweeps: seq<Sweep>, k: nat, table: nat, h: Handle)
    requires k < |sweeps| && Distinct(tables) && table in tables
    ensures h in NotifiedAt(tables, sweeps, k, table) <==> Streak(sweeps, k, table, h) % 2 == 1
  {
    hide NotifiedAt;
    NotifiedIsDifference(tables, sweeps, k, table);
    if k > 0 { NotifiedEveryOther(tables, sweeps, k - 1, table, h); }
  }

  lemma {:induction false} NeverTwiceInARow(tables: seq<nat>, sweeps: seq<Sweep>, k: nat, table: nat)
    requires k + 1 < |sweeps| && Distinct(tables) && table in tables
    ensures NotifiedAt(tables, sweeps, k, table) !! NotifiedAt(tables, sweeps, k + 1, table)
  {
    hide NotifiedAt;
    NotifiedIsDifference(tables, sweeps, k + 1, table);
  }

  ghost predicate Numbered(s: State) {
    |s.sent| == s.bufferId && forall i :: 0 <= i < |s.sent| ==> s.sent[i].bufferId == i && s.sent[i].entries != []
  }

  lemma {:induction false} SweepNumbered(s: State, tables: seq<nat>, sweep: Sweep, n: nat)
    requires Numbered(s) && n <= |tables|
    ensures Numbered(SweepTables(s, tables, sweep, n))
  {
    hide Fresh;
    if n > 0 { SweepNumbered(s, tables, sweep, n - 1); }
  }

  /** Over every run, message i carries buffer id i and is not empty. */
  lemma {:induction false} MessagesNumbered(tables: seq<nat>, sweeps: seq<Sweep>)
    ensures Numbered(Run(tables, sweeps))
  {
    if sweeps != [] {
      MessagesNumbered(tables, sweeps[..|sweeps| - 1]);
      SweepNumbered(Run(tables, sweeps[..|sweeps| - 1]), tables, sweeps[|sweeps| - 1], |tables|);
    }
  }

  // ----- the object ---------------------------------------------------------

  class AgeingMonitor {
    const tables: seq<nat>              // ids, in the order of the map
    var prevSweep: map<nat, set<Handle>>
    var entries: seq<Handle>
    var entriesTmp: seq<Handle>
    var bufferId: nat
    ghost var sent: seq<Message>

    ghost predicate Valid()
      reads this
    {
      entries == [] && entriesTmp == [] && forall t :: t in tables ==> t in prevSweep
    }

    ghost function View(): State
      reads this
    {
      State(prevSweep, bufferId, sent)
    }

    constructor (tables: seq<nat>)
      ensures Valid() && this.tables == tables && View() == Start(tables)
    {
      this.tables := tables;
      prevSweep := map t | t in tables :: {};
      entries, entriesTmp, bufferId, sent := [], [], 0, [];
    }

    /** do_sweep; found is what each table's sweep_entries reports. */
    method DoSweep(found: Sweep)
      requires Valid()
      modifies this
      ensures Valid() && View() == SweepTables(old(View()), tables, found, |tables|)
    {
      for i := 0 to |tables|
        invariant Valid() && View() == SweepTables(old(View()), tables, found, i)
      {
        hide SweepTable;
        SweepOne(tables[i], Aged(found, tables[i]));
      }
    }

    method SweepOne(table: nat, aged: seq<Handle>)
      requires Valid() && table in prevSweep
      modifies this
      ensures Valid() && View() == SweepTable(old(View()), table, aged)
    {
      entriesTmp := aged;
      if entriesTmp == [] {
        prevSweep := prevSweep[table := {}];
        assert Elements(Fresh(aged, {})) == {};
        return;
      }
      Collect(prevSweep[table]);
      entriesTmp := [];
      if entries == [] {
        prevSweep := prevSweep[table := {}];
        assert Elements(entries) == {};
        return;
      }
      prevSweep := prevSweep[table := Elements(entries)];
      var msg := Message(bufferId, table, entries);
      bufferId := bufferId + 1;
      sent := sent + [msg];
      entries := [];
    }

    // The loop over entries_tmp.
    method Collect(prev: set<Handle>)
      requires entries == []
      modifies this`entries
      ensures entries == Fresh(entriesTmp, prev)
    {
      for i := 0 to |entriesTmp|
        invariant entries == Fresh(entriesTmp[..i], prev)
      {
        assert entriesTmp[..i + 1][..i] == entriesTmp[..i];
        if entriesTmp[i] !in prev { entries := entries + [entriesTmp[i]]; }
      }
      assert entriesTmp[..|entriesTmp|] == entriesTmp;
    }
  }
}
