/** What a client of the debugger sees over a whole run: which requests are in force,
    which events of the data plane are reported because of them, and what a backtrace
    is. */
module DebuggerRuns {
  import opened Options
  import opened Debugger

  // ----- what is in force ---------------------------------------------------

  /** What a client can turn on and off. */
  datatype Setting = Running | Attached | Breaking | Holding | Stepping | Watching(id: nat)

  /** The request that a step dispatches. */
  function Dispatched(s: State, a: Action): Option<Request> {
    if a.DoDispatch? && s.phase.Numbered? then Some(s.phase.req) else None
  }

  /** Attaching and detaching count only if they change something. */
  predicate Clears(s: State, req: Request) {
    match req
    case Reset => true
    case Attach => !s.flags.attached
    case Detach => s.flags.attached
    case _ => false
  }

  /** The data plane or the keep-alive wrote a reply: the data plane stops. */
  predicate Interrupted(s: State, a: Action)
    requires Disciplined(s, a)
  {
    !a.DoDispatch? && Apply(s, a).written > s.written
  }

  /** What one step says about a setting: that it is on or off from now on, or nothing. */
  function Turn(s: State, a: Action, x: Setting): Option<bool>
    requires Disciplined(s, a)
  {
    match Dispatched(s, a)
    case None => if Interrupted(s, a) && (x.Running? || x.Stepping?) then Some(false) else None
    case Some(req) =>
      match x
      case Running =>
        if req.Continue? || req.Next? || (req.Detach? && Clears(s, req)) then Some(true)
        else if req.Attach? && Clears(s, req) then Some(false) else None
      case Attached => if req.Attach? then Some(true) else if req.Detach? then Some(false) else None
      case Breaking =>
        if req.BreakPacketIn? then Some(true) else if req.RemovePacketIn? || Clears(s, req) then Some(false) else None
      case Holding =>
        if req.StopPacketIn? then Some(true) else if req.ResumePacketIn? || Clears(s, req) then Some(false) else None
      case Stepping => if req.Next? then Some(true) else None
      case Watching(id) =>
        if req == SetWatchpoint(id) then Some(true)
        else if req == UnsetWatchpoint(id) || Clears(s, req) then Some(false) else None
  }

  /** A setting is what the last step said that says anything about it; at the start the
      data plane runs and nothing else is on. */
  ghost predicate On(states: seq<State>, actions: seq<Action>, k: nat, x: Setting)
    requires k <= |actions| < |states| && forall i :: 0 <= i < k ==> Disciplined(states[i], actions[i])
  {
    if k == 0 then x.Running?
    else
      var turn := Turn(states[k - 1], actions[k - 1], x);
      if turn.Some? then turn.value else On(states, actions, k - 1, x)
  }

  /** The copies that the last request for filters listed; none after a reset. */
  ghost function Listed(states: seq<State>, actions: seq<Action>, k: nat): seq<PacketId>
    requires k <= |actions| < |states|
  {
    if k == 0 then []
    else
      match Dispatched(states[k - 1], actions[k - 1])
      case None => Listed(states, actions, k - 1)
      case Some(req) =>
        if req.FilterNotifications? then req.ids
        else if Clears(states[k - 1], req) then [] else Listed(states, actions, k - 1)
  }

  /** A copy is reported if nothing is listed, or it, or all copies of its packet. */
  ghost predicate Selected(ids: seq<PacketId>, pid: PacketId) {
    ids == [] || exists i :: 0 <= i < |ids| && ids[i].packet == pid.packet
                             && (ids[i].copy == pid.copy || ids[i].copy == 0xffff_ffff_ffff_ffff)
  }

  ghost predicate IsOn(s: State, x: Setting) {
    match x
    case Running => s.flags.canContinue
    case Attached => s.flags.attached
    case Breaking => s.flags.breakPacketIn
    case Holding => s.flags.stopPacketIn
    case Stepping => s.flags.breakNext
    case Watching(id) => id in s.filters.watchpoints
  }

  lemma {:induction false} StepTurns(s: State, a: Action, x: Setting)
    requires Disciplined(s, a)
    ensures IsOn(Apply(s, a), x) <==> (if Turn(s, a, x).Some? then Turn(s, a, x).value else IsOn(s, x))
  {
    hide InFilters, Leaves, CtrBytes, ReplyTo, Chosen, ChosenAll, Enter, Leave, Held, Put;
    if Dispatched(s, a).Some? { DispatchTurns(s, x); }
    hide Dispatch;
  }

  lemma {:induction false} DispatchTurns(s: State, x: Setting)
    requires s.phase.Numbered?
    ensures var turn := Turn(s, DoDispatch, x);
            IsOn(Apply(s, DoDispatch), x) <==> (if turn.Some? then turn.value else IsOn(s, x))
  {
    hide ReplyTo, Chosen, ChosenAll;
  }

  /** The flags and watchpoints are those in force. */
  lemma {:induction false} SettingsOfRun(states: seq<State>, actions: seq<Action>, k: nat, x: Setting)
    requires Trace(states, actions) && k < |states|
    ensures forall i :: 0 <= i < k ==> Disciplined(states[i], actions[i])
    ensures IsOn(states[k], x) <==> On(states, actions, k, x)
  {
    hide Apply, Disciplined, Turn, IsOn;
    TraceSteps(states, actions);
    if k == 0 {
      StartSettings(x);
    } else {
      SettingsOfRun(states, actions, k - 1, x);
      StepTurns(states[k - 1], actions[k - 1], x);
    }
  }

  lemma {:induction false} TraceSteps(states: seq<State>, actions: seq<Action>)
    requires Trace(states, actions)
    ensures forall i :: 0 <= i < |actions| ==>
              Disciplined(states[i], actions[i]) && states[i + 1] == Apply(states[i], actions[i])
  {
    hide Apply, Disciplined;
    forall i | 0 <= i < |actions|
      ensures Disciplined(states[i], actions[i]) && states[i + 1] == Apply(states[i], actions[i])
    {
      assert Step(states[i], actions[i], states[i + 1]);
    }
  }

  lemma {:induction false} StartSettings(x: Setting)
    ensures IsOn(INIT, x) <==> x.Running?
  {}

  ghost predicate FiltersAre(f: Filters, ids: seq<PacketId>) {
    f.filter == Chosen(ids) && f.filterAll == ChosenAll(ids)
  }

  lemma {:induction false} StepFilters(s: State, a: Action, ids: seq<PacketId>)
    requires Disciplined(s, a) && FiltersAre(s.filters, ids)
    ensures FiltersAre(Apply(s, a).filters,
                       match Dispatched(s, a)
                       case None => ids
                       case Some(req) =>
                         if req.FilterNotifications? then req.ids else if Clears(s, req) then [] else ids)
  {
    hide InFilters, Leaves, CtrBytes, ReplyTo, Enter, Leave, Held, Put;
  }

  lemma {:induction false} FiltersOfRun(states: seq<State>, actions: seq<Action>, k: nat)
    requires Trace(states, actions) && k < |states|
    ensures FiltersAre(states[k].filters, Listed(states, actions, k))
  {
    hide Apply, Disciplined, FiltersAre;
    TraceSteps(states, actions);
    if k == 0 {
      NothingListed();
    } else {
      FiltersOfRun(states, actions, k - 1);
      StepFilters(states[k - 1], actions[k - 1], Listed(states, actions, k - 1));
    }
  }

  lemma {:induction false} NothingListed()
    ensures FiltersAre(INIT.filters, [])
  {}

  lemma {:induction false} SelectedIff(f: Filters, ids: seq<PacketId>, pid: PacketId)
    requires FiltersAre(f, ids)
    ensures InFilters(f, pid) <==> Selected(ids, pid)
  {
    if ids != [] {
      assert ids[0] in ids;
      assert if ids[0].copy == ALL_COPIES then ids[0].packet in f.filterAll else ids[0] in f.filter;
    }
    if Selected(ids, pid) && ids != [] {
      var i :| 0 <= i < |ids| && ids[i].packet == pid.packet && (ids[i].copy == pid.copy || ids[i].copy == ALL_COPIES);
      assert ids[i] in ids;
      if ids[i].copy == pid.copy { assert ids[i] == pid; }
    }
    if pid.packet in f.filterAll {
      var p :| p in ids && p.copy == ALL_COPIES && p.packet == pid.packet;
    }
  }

  // ----- what is reported ---------------------------------------------------

  /** The step wrote `r` as a reply and stopped the data plane. */
  ghost predicate Reports(s: State, t: State, r: Reply) {
    && t.mail.ready && t.mail.slot == Slot(r, s.mail.reqId) && t.written == s.written + 1
    && !t.flags.canContinue && t.fault == (s.fault || s.mail.ready)
  }

  /** The step told the client nothing and left the data plane as it was. */
  ghost predicate Silent(s: State, t: State) {
    t.mail == s.mail && t.written == s.written && t.flags == s.flags && t.fault == s.fault
  }

  /** In every run, an update of a running data plane is reported, and stops it, if and
      only if its copy is selected and a next is in force or a watchpoint on its id is.
      While the data plane is stopped nothing happens. */
  lemma {:induction false} UpdatesReported(
    states: seq<State>, actions: seq<Action>, k: nat, pid: PacketId, id: nat, bytes: Bytes)
    requires Trace(states, actions) && k < |actions| && actions[k] == DoUpdate(pid, id, bytes)
    ensures forall i :: 0 <= i < k ==> Disciplined(states[i], actions[i])
    ensures
      var (s, t) := (states[k], states[k + 1]);
      var heard := Selected(Listed(states, actions, k), pid)
                   && (On(states, actions, k, Stepping) || On(states, actions, k, Watching(id)));
      if !On(states, actions, k, Running) then t == s
      else if heard then Reports(s, t, FieldValue(pid, id, bytes)) else Silent(s, t)
  {
    hide On, Listed, Selected, InFilters, FiltersAre;
    TraceSteps(states, actions);
    SettingsOfRun(states, actions, k, Running);
    SettingsOfRun(states, actions, k, Stepping);
    SettingsOfRun(states, actions, k, Watching(id));
    FiltersOfRun(states, actions, k);
    SelectedIff(states[k].filters, Listed(states, actions, k), pid);
  }

  /** The same for a parser state or action that is entered or left: it is reported as a
      register of its own. */
  lemma {:induction false} CountersReported(states: seq<State>, actions: seq<Action>, k: nat, pid: PacketId, ctr: nat)
    requires Trace(states, actions) && k < |actions| && actions[k] == DoCtr(pid, ctr)
    ensures forall i :: 0 <= i < k ==> Disciplined(states[i], actions[i])
    ensures
      var (s, t) := (states[k], states[k + 1]);
      var heard := Selected(Listed(states, actions, k), pid)
                   && (On(states, actions, k, Stepping) || On(states, actions, k, Watching(0xffff_ffff_ffff_ffff)));
      if !On(states, actions, k, Running) then t == s
      else if heard then Reports(s, t, FieldValue(pid, 0xffff_ffff_ffff_ffff, CtrBytes(ctr))) else Silent(s, t)
  {
    hide On, Listed, Selected, InFilters, FiltersAre, CtrBytes, Leaves;
    TraceSteps(states, actions);
    SettingsOfRun(states, actions, k, Running);
    SettingsOfRun(states, actions, k, Stepping);
    SettingsOfRun(states, actions, k, Watching(0xffff_ffff_ffff_ffff));
    FiltersOfRun(states, actions, k);
    SelectedIff(states[k].filters, Listed(states, actions, k), pid);
  }

  /** The step wrote `r` as its reply. */
  ghost predicate Replies(s: State, t: State, r: Reply) {
    t.mail.ready && t.written == s.written + 1 && t.mail.slot.reply == r
  }

  ghost predicate Tracked(s: State, packet: nat) {
    exists p :: p in s.packets.registers && p.packet == packet
  }

  /** In every run, a copy that comes in is held while the data plane is stopped or, if no
      copy of its packet is in the switch, packets are. Otherwise it enters, and that is
      reported if and only if it is selected and a next or a break on packets is in
      force. */
  lemma {:induction false} PacketsReported(states: seq<State>, actions: seq<Action>, k: nat, pid: PacketId, port: int)
    requires Trace(states, actions) && k < |actions| && actions[k] == DoEnter(pid, port)
    ensures forall i :: 0 <= i < k ==> Disciplined(states[i], actions[i])
    ensures
      var (s, t) := (states[k], states[k + 1]);
      var held := !On(states, actions, k, Running)
                  || (On(states, actions, k, Holding) && !Tracked(s, pid.packet));
      var heard := Selected(Listed(states, actions, k), pid)
                   && (On(states, actions, k, Stepping) || On(states, actions, k, Breaking));
      if held then t == s
      else pid in t.packets.registers && if heard then Reports(s, t, PacketIn(pid, port)) else Silent(s, t)
  {
    hide On, Listed, Selected, InFilters, FiltersAre, Count, Tracked;
    TraceSteps(states, actions);
    SettingsOfRun(states, actions, k, Running);
    SettingsOfRun(states, actions, k, Stepping);
    SettingsOfRun(states, actions, k, Breaking);
    SettingsOfRun(states, actions, k, Holding);
    FiltersOfRun(states, actions, k);
    SelectedIff(states[k].filters, Listed(states, actions, k), pid);
    RunsCount(states, actions, k);
    TrackedIff(states[k], pid.packet);
  }

  lemma {:induction false} TrackedIff(s: State, packet: nat)
    requires CountsMatch(s.packets)
    ensures Tracked(s, packet) <==> Count(s.packets, packet) > 0
  {
    var copies := CopiesOf(s.packets.registers.Keys, packet);
    assert Count(s.packets, packet) == |copies|;
    if Tracked(s, packet) {
      var p :| p in s.packets.registers && p.packet == packet;
      assert p in copies;
    } else {
      assert copies == {};
    }
  }

  /** In every run, a copy leaves a running switch and nothing else changes; a stopped one
      keeps it. */
  lemma {:induction false} PacketsLeave(states: seq<State>, actions: seq<Action>, k: nat, pid: PacketId)
    requires Trace(states, actions) && k < |actions| && actions[k] == DoLeave(pid)
    ensures forall i :: 0 <= i < k ==> Disciplined(states[i], actions[i])
    ensures
      var (s, t) := (states[k], states[k + 1]);
      if !On(states, actions, k, Running) then t == s
      else t == s.(packets := t.packets) && t.packets.registers == s.packets.registers - {pid}
  {
    hide On;
    TraceSteps(states, actions);
    SettingsOfRun(states, actions, k, Running);
  }

  /** Continue and next are left to the data plane. Every other request is answered at
      once: a request that undoes something with status 1 if there is nothing to undo, an
      attach with status 1 if attached, and all that do not ask for a value or backtrace
      with status 0 otherwise. */
  lemma {:induction false} RequestsAnswered(states: seq<State>, actions: seq<Action>, k: nat, req: Request)
    requires Trace(states, actions) && k < |actions| && Dispatched(states[k], actions[k]) == Some(req)
    ensures forall i :: 0 <= i < k ==> Disciplined(states[i], actions[i])
    ensures
      var (s, t) := (states[k], states[k + 1]);
      match req
      case Continue => t.mail == s.mail && t.written == s.written
      case Next => t.mail == s.mail && t.written == s.written
      case GetValue(_, _) => Replies(s, t, ReplyTo(s, req))
      case GetBacktrace(_) => Replies(s, t, ReplyTo(s, req))
      case RemovePacketIn => Replies(s, t, Status(if On(states, actions, k, Breaking) then 0 else 1))
      case ResumePacketIn => Replies(s, t, Status(if On(states, actions, k, Holding) then 0 else 1))
      case UnsetWatchpoint(id) => Replies(s, t, Status(if On(states, actions, k, Watching(id)) then 0 else 1))
      case Attach => Replies(s, t, Status(if On(states, actions, k, Attached) then 1 else 0))
      case Detach => Replies(s, t, Status(if On(states, actions, k, Attached) then 0 else 1))
      case _ => Replies(s, t, Status(0))
  {
    hide On, Disciplined;
    TraceSteps(states, actions);
    SettingsOfRun(states, actions, k, Breaking);
    SettingsOfRun(states, actions, k, Holding);
    SettingsOfRun(states, actions, k, Attached);
    if req.UnsetWatchpoint? { SettingsOfRun(states, actions, k, Watching(req.id)); }
  }

  // ----- backtraces ---------------------------------------------------------

  /** What the data plane entered and left for a copy since the copy came in. */
  ghost function Trail(states: seq<State>, actions: seq<Action>, k: nat, pid: PacketId): seq<nat>
    requires k <= |actions| < |states|
  {
    if k == 0 then []
    else
      var (s, a, before) := (states[k - 1], actions[k - 1], Trail(states, actions, k - 1, pid));
      match a
      case DoEnter(p, _) => if p == pid && pid !in s.packets.registers && !Held(s, p.packet) then [] else before
      case DoCtr(p, ctr) => if p == pid && s.flags.canContinue then before + [ctr] else before
      case _ => before
  }

  /** Bit 31 of a counter says that the state or action is left. */
  predicate IsLeft(ctr: nat) {
    ctr % 0x1_0000_0000 >= 0x8000_0000
  }

  /** What was entered and not left, `left` more leaves coming after the trail: each one
      leaves what was entered last and is not left yet. */
  function Open(trail: seq<nat>, left: nat): seq<nat> {
    if trail == [] then []
    else
      var (before, last) := (trail[..|trail| - 1], trail[|trail| - 1]);
      if IsLeft(last) then Open(before, left + 1)
      else if left > 0 then Open(before, left - 1)
      else Open(before, 0) + [last]
  }

  lemma {:induction false} Quotient(n: nat, q: nat, r: nat, unit: nat)
    requires n == q * unit + r && r < unit
    ensures n / unit == q && n % unit == r
  {
    if n / unit < q { Multiples(n / unit + 1, q, unit); }
    if n / unit > q { Multiples(q + 1, n / unit, unit); }
  }

  lemma {:induction false} Multiples(a: nat, b: nat, unit: nat)
    requires a <= b
    ensures a * unit <= b * unit
  {}

  /** The four bytes of a counter are its low 32 bits, the highest first. */
  lemma {:induction false} CtrBytesAre(ctr: nat)
    ensures var b := CtrBytes(ctr);
            && |b| == 4 && (forall i :: 0 <= i < 4 ==> 0 <= b[i] < 256)
            && 256 * (256 * (256 * b[0] + b[1]) + b[2]) + b[3] == ctr % 0x1_0000_0000
  {
    var q1 := ctr / 256;
    var q2 := q1 / 256;
    var q3 := q2 / 256;
    var (b3, b2, b1, b0) := (ctr % 256, q1 % 256, q2 % 256, q3 % 256);
    Quotient(ctr, q2, 256 * b2 + b3, 0x1_0000);
    Quotient(ctr, q3, 256 * (256 * b1 + b2) + b3, 0x100_0000);
    Quotient(ctr, q3 / 256, 256 * (256 * (256 * b0 + b1) + b2) + b3, 0x1_0000_0000);
    assert CtrBytes(ctr) == [b0, b1, b2, b3];
  }

  lemma {:induction false} LeavesIff(ctr: nat)
    ensures Leaves(ctr) <==> IsLeft(ctr)
  {
    var (q, r) := (ctr / 0x1_0000_0000, ctr % 0x1_0000_0000);
    var (u, v) := (r / 0x8000_0000, r % 0x8000_0000);
    Quotient(ctr, 2 * q + u, v, 0x8000_0000);
    Quotient(2 * q + u, q, u, 2);
  }

  ghost predicate StackIs(s: State, pid: PacketId, trail: seq<nat>) {
    pid in s.packets.stacks ==>
      forall n: nat :: n <= |s.packets.stacks[pid]| ==>
        Open(trail, n) == s.packets.stacks[pid][..|s.packets.stacks[pid]| - n]
  }

  lemma {:induction false} PushedOpen(stack: seq<nat>, trail: seq<nat>, ctr: nat)
    requires forall n: nat :: n <= |stack| ==> Open(trail, n) == stack[..|stack| - n]
    requires Leaves(ctr) ==> stack != []
    ensures var stack' := if Leaves(ctr) then stack[..|stack| - 1] else stack + [ctr];
            forall n: nat :: n <= |stack'| ==> Open(trail + [ctr], n) == stack'[..|stack'| - n]
  {
    LeavesIff(ctr);
    hide Leaves, IsLeft;
    var stack' := if Leaves(ctr) then stack[..|stack| - 1] else stack + [ctr];
    var more := trail + [ctr];
    assert more[..|more| - 1] == trail;
    forall n: nat | n <= |stack'| ensures Open(more, n) == stack'[..|stack'| - n] {
      if Leaves(ctr) {
        assert Open(trail, n + 1) == stack[..|stack| - (n + 1)];
      } else if n > 0 {
        assert Open(trail, n - 1) == stack[..|stack| - (n - 1)];
      } else {
        assert Open(trail, 0) == stack;
      }
    }
  }

  lemma {:induction false} StepStack(s: State, a: Action, pid: PacketId, trail: seq<nat>)
    requires Disciplined(s, a) && StackIs(s, pid, trail) && CountsMatch(s.packets)
    ensures StackIs(Apply(s, a), pid,
                    match a
                    case DoEnter(p, _) =>
                      if p == pid && pid !in s.packets.registers && !Held(s, p.packet) then [] else trail
                    case DoCtr(p, ctr) => if p == pid && s.flags.canContinue then trail + [ctr] else trail
                    case _ => trail)
  {
    hide Leaves, CtrBytes, InFilters, Held, Count, CountsMatch, Open, ReplyTo, NewFlags, NewFilters, Put;
    if a.DoCtr? && a.pid == pid && s.flags.canContinue { PushedOpen(s.packets.stacks[pid], trail, a.ctr); }
    if a.DoEnter? { NothingOpen(); }
  }

  lemma {:induction false} NothingOpen()
    ensures Open([], 0) == []
  {}

  /** In every run a backtrace lists the states and actions of the copy that were entered
      and not yet left, in order; for an unknown copy the status is 1. */
  lemma {:induction false} BacktracesAreOpen(states: seq<State>, actions: seq<Action>, k: nat, pid: PacketId)
    requires Trace(states, actions) && k < |states|
    ensures ReplyTo(states[k], GetBacktrace(pid)) ==
            if pid !in states[k].packets.registers then Status(1)
            else Backtrace(pid, Open(Trail(states, actions, k, pid), 0))
  {
    hide Open, Trail;
    RunsCount(states, actions, k);
    StacksOfRun(states, actions, k, pid);
    if pid in states[k].packets.stacks {
      var stack := states[k].packets.stacks[pid];
      assert stack[..|stack| - 0] == stack;
    }
  }

  lemma {:induction false} StacksOfRun(states: seq<State>, actions: seq<Action>, k: nat, pid: PacketId)
    requires Trace(states, actions) && k < |states|
    ensures StackIs(states[k], pid, Trail(states, actions, k, pid))
  {
    hide Apply, Disciplined, StackIs, Held, CountsMatch;
    TraceSteps(states, actions);
    if k == 0 {
      NoStack(pid);
    } else {
      StacksOfRun(states, actions, k - 1, pid);
      RunsCount(states, actions, k - 1);
      StepStack(states[k - 1], actions[k - 1], pid, Trail(states, actions, k - 1, pid));
    }
  }

  lemma {:induction false} NoStack(pid: PacketId)
    ensures StackIs(INIT, pid, [])
  {}
}
