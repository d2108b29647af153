/** DebuggerNN of debugger.cpp: data-plane threads and the request thread share one
    reply slot. Every critical section is one step; a thread that has to wait is a
    step that changes nothing. Timeouts are a choice of the environment. */
module Debugger {
  import opened Options

  type Bytes = seq<int>

  datatype PacketId = PacketId(packet: nat, copy: nat)

  const ALL_COPIES: nat := 0xffff_ffff_ffff_ffff
  const FIELD_CTR: nat := 0xffff_ffff_ffff_ffff

  datatype Request =
    | Continue | Next | GetValue(pid: PacketId, id: nat) | GetBacktrace(pid: PacketId)
    | BreakPacketIn | RemovePacketIn | StopPacketIn | ResumePacketIn
    | FilterNotifications(ids: seq<PacketId>) | SetWatchpoint(id: nat) | UnsetWatchpoint(id: nat)
    | Reset | Attach | Detach

  datatype Reply =
    | Status(code: int) | FieldValue(pid: PacketId, id: nat, bytes: Bytes) | Backtrace(pid: PacketId, stack: seq<nat>)
    | PacketIn(pid: PacketId, port: int) | KeepAlive

  /** A reply with the request id written into it. */
  datatype Slot = Slot(reply: Reply, reqId: nat)

  /** Where the request thread is in request_in. */
  datatype Phase =
    | Idle                                  // in recv
    | Received(req: Request, id: nat)       // reply_ready cleared
    | Numbered(req: Request, id: nat)       // req_id written
    | Waiting(req: Request, id: nat)        // dispatched, waiting for the reply

  datatype Flags = Flags(canContinue: bool, attached: bool, breakPacketIn: bool, breakNext: bool, stopPacketIn: bool)

  datatype Filters = Filters(watchpoints: set<nat>, filter: set<PacketId>, filterAll: set<nat>)

  datatype Packets = Packets(registers: map<PacketId, map<nat, Bytes>>, stacks: map<PacketId, seq<nat>>,
                             counts: map<nat, nat>)

  datatype Mailbox = Mailbox(ready: bool, slot: Slot, reqId: nat)

  /** `fault` records that a reply was about to be overwritten, `written` counts the
      writes to the slot; requests and delivered are all the client sent and got. */
  datatype State = State(flags: Flags, filters: Filters, packets: Packets, mail: Mailbox, phase: Phase,
                         fault: bool, written: nat, requests: seq<(Request, nat)>, delivered: seq<Slot>)

  const INIT: State := State(
    Flags(true, false, false, false, false), Filters({}, {}, {}), Packets(map[], map[], map[]),
    Mailbox(false, Slot(KeepAlive, 0), 0), Idle, false, 0, [], [])

  // ----- the steps ----------------------------------------------------------

  /** The send_ functions: fill the slot and mark it. */
  function Write(s: State, r: Reply): State {
    s.(mail := s.mail.(ready := true, slot := Slot(r, s.mail.reqId)),
       fault := s.fault || s.mail.ready, written := s.written + 1)
  }

  predicate InFilters(f: Filters, pid: PacketId) {
    (f.filter == {} && f.filterAll == {}) || pid.packet in f.filterAll || pid in f.filter
  }

  function Stop(s: State): State {
    s.(flags := s.flags.(canContinue := false, breakNext := false))
  }

  function Count(p: Packets, packet: nat): nat {
    if packet in p.counts then p.counts[packet] else 0
  }

  function Put(registers: map<nat, Bytes>, id: nat, bytes: Bytes): map<nat, Bytes> {
    registers[id := bytes]
  }

  /** notify_update_generic. */
  function Update(s: State, pid: PacketId, id: nat, bytes: Bytes): State
    requires pid in s.packets.registers
  {
    var registers := s.packets.registers[pid := Put(s.packets.registers[pid], id, bytes)];
    var t := s.(packets := s.packets.(registers := registers));
    if InFilters(s.filters, pid) && (s.flags.breakNext || id in s.filters.watchpoints)
    then Write(Stop(t), FieldValue(pid, id, bytes)) else t
  }

  function NotifyUpdate(s: State, pid: PacketId, id: nat, bytes: Bytes): State
    requires pid in s.packets.registers
  {
    if !s.flags.canContinue then s else Update(s, pid, id, bytes)
  }

  /** uint32_to_bytes. */
  function CtrBytes(ctr: nat): Bytes {
    [ctr / 0x100_0000 % 256, ctr / 0x1_0000 % 256, ctr / 256 % 256, ctr % 256]
  }

  predicate Leaves(ctr: nat) {
    ctr / 0x8000_0000 % 2 == 1
  }

  function NotifyCtr(s: State, pid: PacketId, ctr: nat): State
    requires pid in s.packets.registers && pid in s.packets.stacks && (Leaves(ctr) ==> s.packets.stacks[pid] != [])
  {
    if !s.flags.canContinue then s
    else
      var stack := s.packets.stacks[pid];
      var stack' := if Leaves(ctr) then stack[..|stack| - 1] else stack + [ctr];
      Update(s.(packets := s.packets.(stacks := s.packets.stacks[pid := stack'])), pid, FIELD_CTR, CtrBytes(ctr))
  }

  predicate Held(s: State, packet: nat) {
    !s.flags.canContinue || (s.flags.stopPacketIn && Count(s.packets, packet) == 0)
  }

  function Enter(p: Packets, pid: PacketId): Packets {
    Packets(p.registers[pid := map[]], p.stacks[pid := []], p.counts[pid.packet := Count(p, pid.packet) + 1])
  }

  function Leave(p: Packets, pid: PacketId): Packets {
    Packets(p.registers - {pid}, p.stacks - {pid},
            if Count(p, pid.packet) <= 1 then p.counts - {pid.packet}
            else p.counts[pid.packet := Count(p, pid.packet) - 1])
  }

  function EnterPacket(s: State, pid: PacketId, port: int): State {
    if Held(s, pid.packet) then s
    else
      var t := s.(packets := Enter(s.packets, pid));
      if InFilters(s.filters, pid) && (s.flags.breakNext || s.flags.breakPacketIn)
      then Write(Stop(t), PacketIn(pid, port)) else t
  }

  function LeavePacket(s: State, pid: PacketId): State {
    if !s.flags.canContinue then s else s.(packets := Leave(s.packets, pid))
  }

  function Chosen(ids: seq<PacketId>): set<PacketId> {
    set p | p in ids && p.copy != ALL_COPIES
  }

  function ChosenAll(ids: seq<PacketId>): set<nat> {
    set p | p in ids && p.copy == ALL_COPIES :: p.packet
  }

  /** An attach or detach that changes something, or a reset. */
  predicate Resets(f: Flags, req: Request) {
    req.Reset? || (req.Attach? && !f.attached) || (req.Detach? && f.attached)
  }

  // What the req_ functions do to the flags, the filters and req_id ...
  function NewFlags(f: Flags, req: Request): Flags {
    if Resets(f, req) then
      f.(breakPacketIn := false, stopPacketIn := false, attached := if req.Reset? then f.attached else req.Attach?,
         canContinue := if req.Reset? then f.canContinue else req.Detach?)
    else match req
      case Continue => f.(canContinue := true)
      case Next => f.(canContinue := true, breakNext := true)
      case BreakPacketIn => f.(breakPacketIn := true)
      case RemovePacketIn => f.(breakPacketIn := false)
      case StopPacketIn => f.(stopPacketIn := true)
      case ResumePacketIn => f.(stopPacketIn := false)
      case _ => f
  }

  function NewFilters(f: Flags, g: Filters, req: Request): Filters {
    if Resets(f, req) then Filters({}, {}, {})
    else match req
      case FilterNotifications(ids) => g.(filter := Chosen(ids), filterAll := ChosenAll(ids))
      case SetWatchpoint(id) => g.(watchpoints := g.watchpoints + {id})
      case UnsetWatchpoint(id) => g.(watchpoints := g.watchpoints - {id})
      case _ => g
  }

  function NewReqId(f: Flags, reqId: nat, req: Request): nat {
    if Resets(f, req) then 0 else reqId
  }

  /** ... and what they answer, unless they leave that to the data plane. */
  function ReplyTo(s: State, req: Request): Reply {
    match req
    case GetValue(pid, id) =>
      if pid !in s.packets.registers then Status(1)
      else if id !in s.packets.registers[pid] then Status(2)
      else FieldValue(pid, id, s.packets.registers[pid][id])
    case GetBacktrace(pid) => if pid !in s.packets.stacks then Status(1) else Backtrace(pid, s.packets.stacks[pid])
    case RemovePacketIn => Status(if s.flags.breakPacketIn then 0 else 1)
    case ResumePacketIn => Status(if s.flags.stopPacketIn then 0 else 1)
    case UnsetWatchpoint(id) => Status(if id in s.filters.watchpoints then 0 else 1)
    case Attach => Status(if s.flags.attached then 1 else 0)
    case Detach => Status(if s.flags.attached then 0 else 1)
    case _ => Status(0)
  }

  /** A request that resumes the data plane and is answered by it. */
  predicate Resumes(req: Request) {
    req.Continue? || req.Next?
  }

  // A request that is answered at once, having changed flags, filters or req_id.
  function Answered(s: State, flags: Flags, filters: Filters, reqId: nat, r: Reply): State {
    Write(s.(flags := flags, filters := filters, mail := s.mail.(reqId := reqId)), r)
  }

  function Dispatch(s: State, req: Request): State {
    if Resumes(req) then s.(flags := NewFlags(s.flags, req))
    else Answered(s, NewFlags(s.flags, req), NewFilters(s.flags, s.filters, req),
                  NewReqId(s.flags, s.mail.reqId, req), ReplyTo(s, req))
  }

  datatype Action =
    | DoReceive(req: Request, id: nat) | DoNumber | DoDispatch | DoTimeout | DoDeliver
    | DoUpdate(pid: PacketId, id: nat, bytes: Bytes) | DoCtr(pid: PacketId, ctr: nat)
    | DoEnter(pid: PacketId, port: int) | DoLeave(pid: PacketId)

  function Apply(s: State, a: Action): State
    requires Disciplined(s, a)
  {
    match a
    case DoReceive(req, id) =>
      if s.phase.Idle?
      then s.(mail := s.mail.(ready := false), phase := Received(req, id), requests := s.requests + [(req, id)])
      else s
    case DoNumber =>
      if s.phase.Received? then s.(mail := s.mail.(reqId := s.phase.id), phase := Numbered(s.phase.req, s.phase.id))
      else s
    case DoDispatch =>
      if s.phase.Numbered? then Dispatch(s, s.phase.req).(phase := Waiting(s.phase.req, s.phase.id)) else s
    case DoTimeout =>
      if s.phase.Waiting? && !s.mail.ready then Write(Stop(s), KeepAlive) else s
    case DoDeliver =>
      if s.phase.Waiting? && s.mail.ready then s.(delivered := s.delivered + [s.mail.slot], phase := Idle) else s
    case DoUpdate(pid, id, bytes) => NotifyUpdate(s, pid, id, bytes)
    case DoCtr(pid, ctr) => NotifyCtr(s, pid, ctr)
    case DoEnter(pid, port) => EnterPacket(s, pid, port)
    case DoLeave(pid) => LeavePacket(s, pid)
  }

  /** What the data plane keeps to: a copy enters before it is updated and leaves
      once, and parser states or actions are left only when entered. */
  predicate Disciplined(s: State, a: Action) {
    match a
    case DoUpdate(pid, _, _) => pid in s.packets.registers
    case DoCtr(pid, ctr) =>
      pid in s.packets.registers && pid in s.packets.stacks && (Leaves(ctr) ==> s.packets.stacks[pid] != [])
    case DoEnter(pid, _) => pid !in s.packets.registers
    case DoLeave(pid) => pid in s.packets.registers
    case _ => true
  }

  // ----- the single reply ---------------------------------------------------

  /** A data-plane step may write a reply. */
  ghost predicate Armed(s: State) {
    s.flags.breakNext || s.flags.breakPacketIn || s.filters.watchpoints != {}
  }

  /** Data-plane steps write only into an empty slot that a request waits for. */
  ghost predicate SlotSafe(s: State) {
    && !s.fault
    && (s.phase.Received? || s.phase.Numbered? ==> !s.mail.ready)
    && (s.flags.canContinue && Armed(s) ==> s.phase.Waiting? && !s.mail.ready)
    && (s.flags.breakNext ==> s.flags.canContinue)
    && (s.phase.Waiting? && !s.mail.ready ==> Resumes(s.phase.req))
  }

  /** While attached the data plane runs only between a continue or next and its
      reply. */
  ghost predicate Stopped(s: State) {
    s.flags.attached && s.flags.canContinue ==> s.phase.Waiting? && Resumes(s.phase.req) && !s.mail.ready
  }

  /** The request ids: only attach, detach and reset are answered with 0. */
  ghost predicate Answers(slot: Slot, req: Request, id: nat) {
    slot.reqId == id || (slot.reqId == 0 && (req.Attach? || req.Detach? || req.Reset?))
  }

  /** Every request gets exactly one reply, its own: the slot is written once for
      each. */
  ghost predicate Counted(s: State) {
    && |s.requests| == |s.delivered| + (if s.phase.Idle? then 0 else 1)
    && (!s.phase.Idle? ==> s.requests[|s.delivered|] == (s.phase.req, s.phase.id))
    && (forall i :: 0 <= i < |s.delivered| ==> Answers(s.delivered[i], s.requests[i].0, s.requests[i].1))
    && s.written == |s.delivered| + (if s.phase.Waiting? && s.mail.ready then 1 else 0)
    && (s.phase.Numbered? ==> s.mail.reqId == s.phase.id)
    && (s.phase.Waiting? && s.mail.ready ==> Answers(s.mail.slot, s.phase.req, s.phase.id))
    && (s.phase.Waiting? && !s.mail.ready ==> s.mail.reqId == s.phase.id)
  }

  ghost predicate Inv(s: State) {
    SlotSafe(s) && Stopped(s) && Counted(s)
  }

  /** The condition on clients: a breakpoint is set only while the data plane is
      stopped, which it is for every attached client. */
  predicate Allowed(s: State, a: Action) {
    a.DoDispatch? && s.phase.Numbered? && (s.phase.req.SetWatchpoint? || s.phase.req.BreakPacketIn?) ==>
      !s.flags.canContinue
  }

  lemma {:induction false} StartInv()
    ensures Inv(INIT)
  {}

  lemma {:induction false} DataStepKeeps(s: State, t: State, r: Reply, wrote: bool)
    requires Inv(s) && s.flags.canContinue && (wrote ==> Armed(s))
    requires t == if wrote then Write(Stop(s), r).(packets := t.packets) else s.(packets := t.packets)
    ensures Inv(t)
  {}

  lemma {:induction false} AnswerKeeps(s: State, flags: Flags, filters: Filters, reqId: nat, r: Reply)
    requires Inv(s) && s.phase.Numbered? && !flags.breakNext && (flags.attached ==> !flags.canContinue)
    requires flags.canContinue ==> !flags.breakPacketIn && filters.watchpoints == {}
    requires Answers(Slot(r, reqId), s.phase.req, s.phase.id)
    ensures Inv(Answered(s, flags, filters, reqId, r).(phase := Waiting(s.phase.req, s.phase.id)))
  {}

  lemma {:induction false} DispatchKeeps(s: State)
    requires Inv(s) && s.phase.Numbered? && Allowed(s, DoDispatch)
    ensures Inv(Dispatch(s, s.phase.req).(phase := Waiting(s.phase.req, s.phase.id)))
  {
    var req := s.phase.req;
    if !Resumes(req) {
      NewFlagsSafe(s.flags, s.filters, req);
      hide Answered, NewFlags, NewFilters, ReplyTo;
      AnswerKeeps(s, NewFlags(s.flags, req), NewFilters(s.flags, s.filters, req),
                  NewReqId(s.flags, s.mail.reqId, req), ReplyTo(s, req));
    }
  }

  lemma {:induction false} NewFlagsSafe(f: Flags, g: Filters, req: Request)
    requires !Resumes(req) && !f.breakNext && (f.attached ==> !f.canContinue)
    requires f.canContinue ==> !f.breakPacketIn && g.watchpoints == {}
    requires req.SetWatchpoint? || req.BreakPacketIn? ==> !f.canContinue
    ensures var (f', g') := (NewFlags(f, req), NewFilters(f, g, req));
            && !f'.breakNext && (f'.attached ==> !f'.canContinue)
            && (f'.canContinue ==> !f'.breakPacketIn && g'.watchpoints == {})
  {}

  /** Every step of every thread keeps the invariant. */
  lemma {:induction false} StepKeeps(s: State, a: Action)
    requires Inv(s) && Disciplined(s, a) && Allowed(s, a)
    ensures Inv(Apply(s, a))
  {
    hide Dispatch, Update, Leaves, CtrBytes;
    match a
    case DoDispatch => if s.phase.Numbered? { DispatchKeeps(s); }
    case DoUpdate(pid, id, bytes) => if s.flags.canContinue { UpdateKeeps(s, pid, id, bytes); }
    case DoCtr(pid, ctr) =>
      if s.flags.canContinue {
        var stack := s.packets.stacks[pid];
        var stack' := if Leaves(ctr) then stack[..|stack| - 1] else stack + [ctr];
        UpdateKeeps(s.(packets := s.packets.(stacks := s.packets.stacks[pid := stack'])), pid, FIELD_CTR,
          CtrBytes(ctr));
      }
    case DoEnter(pid, port) =>
      if !Held(s, pid.packet) {
        var wrote := InFilters(s.filters, pid) && (s.flags.breakNext || s.flags.breakPacketIn);
        DataStepKeeps(s, EnterPacket(s, pid, port), PacketIn(pid, port), wrote);
      }
    case _ =>
  }

  lemma {:induction false} UpdateKeeps(s: State, pid: PacketId, id: nat, bytes: Bytes)
    requires Inv(s) && s.flags.canContinue && pid in s.packets.registers
    ensures Inv(Update(s, pid, id, bytes))
  {
    var wrote := InFilters(s.filters, pid) && (s.flags.breakNext || id in s.filters.watchpoints);
    DataStepKeeps(s, Update(s, pid, id, bytes), FieldValue(pid, id, bytes), wrote);
  }

  // ----- runs ---------------------------------------------------------------

  ghost predicate Step(s: State, a: Action, t: State) {
    Disciplined(s, a) && t == Apply(s, a)
  }

  /** Any interleaving of the threads, from the initial state. */
  ghost predicate Trace(states: seq<State>, actions: seq<Action>) {
    && |states| == |actions| + 1 && states[0] == INIT
    && forall k :: 0 <= k < |actions| ==> Step(states[k], actions[k], states[k + 1])
  }

  /** In every run in which breakpoints are set only while the data plane is stopped,
      no reply is ever overwritten, and the other claims of Inv hold throughout. */
  lemma {:induction false} RunsAreSafe(states: seq<State>, actions: seq<Action>, k: nat)
    requires Trace(states, actions) && k < |states|
    requires forall i :: 0 <= i < |actions| ==> Allowed(states[i], actions[i])
    ensures Inv(states[k])
  {
    hide Inv, Apply, Allowed, Disciplined;
    if k == 0 {
      StartInv();
    } else {
      RunsAreSafe(states, actions, k - 1);
      assert Step(states[k - 1], actions[k - 1], states[k]) && Allowed(states[k - 1], actions[k - 1]);
      StepKeeps(states[k - 1], actions[k - 1]);
    }
  }

  /** A client that attaches before it sends anything else, and again after every
      detach. */
  ghost predicate AttachesFirst(s: State, a: Action) {
    a.DoReceive? && s.phase.Idle? && !s.flags.attached ==> a.req.Attach?
  }

  /** Such a client sets breakpoints only while the data plane is stopped. */
  lemma {:induction false} AttachingIsAllowed(states: seq<State>, actions: seq<Action>, k: nat)
    requires Trace(states, actions) && k < |actions|
    requires forall i :: 0 <= i < |actions| ==> AttachesFirst(states[i], actions[i])
    ensures Inv(states[k]) && AttachedOrIdle(states[k]) && Allowed(states[k], actions[k])
  {
    hide Inv, Apply, Disciplined, Allowed;
    if k == 0 {
      StartInv();
      AttachedAllows(states[0], actions[0]);
    } else {
      AttachingIsAllowed(states, actions, k - 1);
      assert Step(states[k - 1], actions[k - 1], states[k]) && AttachesFirst(states[k - 1], actions[k - 1]);
      StepKeeps(states[k - 1], actions[k - 1]);
      AttachedStays(states[k - 1], actions[k - 1]);
      AttachedAllows(states[k], actions[k]);
    }
  }

  /** No reply is ever overwritten in a run with such a client. */
  lemma {:induction false} AttachingRunsAreSafe(states: seq<State>, actions: seq<Action>, k: nat)
    requires Trace(states, actions) && k < |states|
    requires forall i :: 0 <= i < |actions| ==> AttachesFirst(states[i], actions[i])
    ensures Inv(states[k])
  {
    hide Inv, Step, Allowed, AttachesFirst;
    forall i: nat | i < |actions| ensures Allowed(states[i], actions[i]) { AttachingIsAllowed(states, actions, i); }
    RunsAreSafe(states, actions, k);
  }

  ghost predicate AttachedOrIdle(s: State) {
    s.phase.Received? || s.phase.Numbered? ==> s.flags.attached || s.phase.req.Attach?
  }

  lemma {:induction false} AttachedStays(s: State, a: Action)
    requires AttachedOrIdle(s) && Disciplined(s, a) && AttachesFirst(s, a)
    ensures AttachedOrIdle(Apply(s, a))
  {}

  lemma {:induction false} AttachedAllows(s: State, a: Action)
    requires AttachedOrIdle(s) && Inv(s)
    ensures Allowed(s, a)
  {}

  /** The other half: a watchpoint set while the data plane runs makes the next hit of
      it overwrite the reply, whenever it comes before another request. */
  lemma {:induction false} RunningBreakpointFaults(s: State, pid: PacketId, bytes: Bytes)
    requires Inv(s) && s.phase.Numbered? && s.phase.req.SetWatchpoint? && !Allowed(s, DoDispatch)
    requires pid in s.packets.registers && InFilters(s.filters, pid)
    ensures var t := Apply(Apply(s, DoDispatch), DoDeliver);
            && !t.fault && Disciplined(t, DoUpdate(pid, s.phase.req.id, bytes))
            && Apply(t, DoUpdate(pid, s.phase.req.id, bytes)).fault
  {}

  /** The same for a break on packets coming in. */
  lemma {:induction false} RunningBreakFaults(s: State, pid: PacketId, port: int)
    requires Inv(s) && s.phase.Numbered? && s.phase.req.BreakPacketIn? && !Allowed(s, DoDispatch)
    requires pid !in s.packets.registers && InFilters(s.filters, pid) && !s.flags.stopPacketIn
    ensures var t := Apply(Apply(s, DoDispatch), DoDeliver);
            && !t.fault && Disciplined(t, DoEnter(pid, port)) && Apply(t, DoEnter(pid, port)).fault
  {}

  /** So it goes for a client that never attaches. */
  lemma {:induction false} FaultWithoutAttaching(pid: PacketId, port: int, id: nat, bytes: Bytes)
    ensures var s := Apply(Apply(Apply(INIT, DoEnter(pid, port)), DoReceive(SetWatchpoint(id), 1)), DoNumber);
            var t := Apply(Apply(s, DoDispatch), DoDeliver);
            Disciplined(t, DoUpdate(pid, id, bytes)) && Apply(t, DoUpdate(pid, id, bytes)).fault
  {
    var s := Apply(Apply(Apply(INIT, DoEnter(pid, port)), DoReceive(SetWatchpoint(id), 1)), DoNumber);
    assert s.flags == INIT.flags && s.filters == INIT.filters && s.phase == Numbered(SetWatchpoint(id), 1);
    assert s.mail == INIT.mail.(reqId := 1) && pid in s.packets.registers;
  }

  // ----- counts of copies ---------------------------------------------------

  function CopiesOf(tracked: set<PacketId>, packet: nat): set<PacketId> {
    set p | p in tracked && p.packet == packet
  }

  /** The count of every packet id is the number of its tracked copies. */
  ghost predicate CountsMatch(p: Packets) {
    && p.stacks.Keys == p.registers.Keys
    && (forall packet :: Count(p, packet) == |CopiesOf(p.registers.Keys, packet)|)
    && forall packet :: packet in p.counts ==> p.counts[packet] > 0
  }

  lemma {:induction false} CopiesEnter(tracked: set<PacketId>, pid: PacketId, packet: nat)
    requires pid !in tracked
    ensures |CopiesOf(tracked + {pid}, packet)| == |CopiesOf(tracked, packet)| + if packet == pid.packet then 1 else 0
  {
    assert CopiesOf(tracked + {pid}, packet) == CopiesOf(tracked, packet) + if packet == pid.packet then {pid} else {};
  }

  lemma {:induction false} EnterCounts(p: Packets, pid: PacketId)
    requires CountsMatch(p) && pid !in p.registers
    ensures CountsMatch(Enter(p, pid))
  {
    hide CopiesOf;
    var q := Enter(p, pid);
    assert q.registers.Keys == p.registers.Keys + {pid};
    forall packet: nat ensures Count(q, packet) == |CopiesOf(q.registers.Keys, packet)| {
      CopiesEnter(p.registers.Keys, pid, packet);
    }
  }

  lemma {:induction false} LeaveCounts(p: Packets, pid: PacketId)
    requires CountsMatch(p) && pid in p.registers
    ensures CountsMatch(Leave(p, pid))
  {
    hide CopiesOf;
    var q := Leave(p, pid);
    assert q.registers.Keys == p.registers.Keys - {pid} && p.registers.Keys == q.registers.Keys + {pid};
    forall packet: nat ensures Count(q, packet) == |CopiesOf(q.registers.Keys, packet)| {
      CopiesEnter(q.registers.Keys, pid, packet);
    }
  }

  lemma {:induction false} SameKeys(p: Packets, q: Packets)
    requires CountsMatch(p) && q.registers.Keys == p.registers.Keys && q.stacks.Keys == p.stacks.Keys
    requires q.counts == p.counts
    ensures CountsMatch(q)
  {
    hide CopiesOf;
  }

  lemma {:induction false} StepCounts(s: State, a: Action)
    requires CountsMatch(s.packets) && Disciplined(s, a)
    ensures CountsMatch(Apply(s, a).packets)
  {
    hide CountsMatch, Dispatch, Leaves, CtrBytes, Enter, Leave;
    var (p, q) := (s.packets, Apply(s, a).packets);
    match a
    case DoDispatch => hide *; DispatchPackets(s);
    case DoUpdate(pid, id, bytes) => assert q.registers.Keys == p.registers.Keys; SameKeys(p, q);
    case DoCtr(pid, ctr) =>
      assert q.registers.Keys == p.registers.Keys && q.stacks.Keys == p.stacks.Keys;
      SameKeys(p, q);
    case DoEnter(pid, port) => EnterCounts(p, pid);
    case DoLeave(pid) => LeaveCounts(p, pid);
    case _ =>
  }

  lemma {:induction false} DispatchPackets(s: State)
    ensures Apply(s, DoDispatch).packets == s.packets
  {}

  /** In every run, whatever the client does. */
  lemma {:induction false} RunsCount(states: seq<State>, actions: seq<Action>, k: nat)
    requires Trace(states, actions) && k < |states|
    ensures CountsMatch(states[k].packets)
  {
    hide Apply, Disciplined, CountsMatch;
    if k == 0 {
      StartCounts();
    } else {
      RunsCount(states, actions, k - 1);
      assert Step(states[k - 1], actions[k - 1], states[k]);
      StepCounts(states[k - 1], actions[k - 1]);
    }
  }

  lemma {:induction false} StartCounts()
    ensures CountsMatch(INIT.packets)
  {
    assert forall packet :: CopiesOf({}, packet) == {};
  }

  // ----- values -------------------------------------------------------------

  /** What one step tells about register id of a copy: nothing new, that the copy has
      just entered without values, or a value. */
  function News(s: State, a: Action, pid: PacketId, id: nat): Option<Option<Bytes>> {
    match a
    case DoEnter(p, _) => if p == pid && !Held(s, p.packet) then Some(None) else None
    case DoUpdate(p, i, bytes) => if p == pid && i == id && s.flags.canContinue then Some(Some(bytes)) else None
    case DoCtr(p, ctr) => if p == pid && id == FIELD_CTR && s.flags.canContinue then Some(Some(CtrBytes(ctr))) else None
    case _ => None
  }

  /** The last value that the data plane gave to a register of a copy since the copy
      entered. */
  ghost function Latest(states: seq<State>, actions: seq<Action>, k: nat, pid: PacketId, id: nat): Option<Bytes>
    requires k <= |actions| < |states|
  {
    if k == 0 then None
    else
      var news := News(states[k - 1], actions[k - 1], pid, id);
      if news.Some? then news.value else Latest(states, actions, k - 1, pid, id)
  }

  function Known(p: Packets, pid: PacketId, id: nat): Option<Bytes>
    requires pid in p.registers
  {
    if id in p.registers[pid] then Some(p.registers[pid][id]) else None
  }

  lemma {:induction false} StepKnows(s: State, a: Action, pid: PacketId, id: nat)
    requires Disciplined(s, a) && pid in Apply(s, a).packets.registers
    ensures News(s, a, pid, id).None? ==> pid in s.packets.registers
    ensures var news := News(s, a, pid, id);
            Known(Apply(s, a).packets, pid, id) == if news.Some? then news.value else Known(s.packets, pid, id)
  {
    hide Dispatch, Leaves, CtrBytes, InFilters, Count, Update, Enter;
    match a
    case DoDispatch => hide *; DispatchPackets(s); NoNews(s, pid, id);
    case DoUpdate(p, i, bytes) => if s.flags.canContinue { UpdateKnows(s, p, i, bytes, pid, id); }
    case DoCtr(p, ctr) =>
      if s.flags.canContinue {
        var stack := s.packets.stacks[p];
        var stack' := if Leaves(ctr) then stack[..|stack| - 1] else stack + [ctr];
        UpdateKnows(s.(packets := s.packets.(stacks := s.packets.stacks[p := stack'])), p, FIELD_CTR, CtrBytes(ctr),
          pid, id);
      }
    case DoEnter(p, port) => if !Held(s, p.packet) { EnterKnows(s.packets, p, pid, id); }
    case _ =>
  }

  lemma {:induction false} UpdateKnows(s: State, p: PacketId, i: nat, bytes: Bytes, pid: PacketId, id: nat)
    requires p in s.packets.registers && pid in Update(s, p, i, bytes).packets.registers
    ensures pid in s.packets.registers
    ensures Known(Update(s, p, i, bytes).packets, pid, id) ==
            if p == pid && i == id then Some(bytes) else Known(s.packets, pid, id)
  {
    hide InFilters;
  }

  lemma {:induction false} EnterKnows(p: Packets, new_: PacketId, pid: PacketId, id: nat)
    requires pid in Enter(p, new_).registers
    ensures pid != new_ ==> pid in p.registers
    ensures Known(Enter(p, new_), pid, id) == if pid == new_ then None else Known(p, pid, id)
  {}

  lemma {:induction false} NoNews(s: State, pid: PacketId, id: nat)
    ensures News(s, DoDispatch, pid, id).None?
  {}

  /** In every run get_value answers with the latest value of the register, with
      status 2 if it has none and with status 1 if the copy is not in the switch. */
  lemma {:induction false} ValuesAreLatest(states: seq<State>, actions: seq<Action>, k: nat, pid: PacketId, id: nat)
    requires Trace(states, actions) && k < |states|
    ensures var last := Latest(states, actions, k, pid, id);
            ReplyTo(states[k], GetValue(pid, id)) ==
              if pid !in states[k].packets.registers then Status(1)
              else if last.None? then Status(2) else FieldValue(pid, id, last.value)
  {
    if pid in states[k].packets.registers { KnownIsLatest(states, actions, k, pid, id); }
  }

  lemma {:induction false} KnownIsLatest(states: seq<State>, actions: seq<Action>, k: nat, pid: PacketId, id: nat)
    requires Trace(states, actions) && k < |states| && pid in states[k].packets.registers
    ensures Known(states[k].packets, pid, id) == Latest(states, actions, k, pid, id)
  {
    if k > 0 {
      hide Apply, Disciplined, News, Known;
      assert Step(states[k - 1], actions[k - 1], states[k]);
      StepKnows(states[k - 1], actions[k - 1], pid, id);
      if News(states[k - 1], actions[k - 1], pid, id).None? { KnownIsLatest(states, actions, k - 1, pid, id); }
    }
  }

  // ----- the object ---------------------------------------------------------

  /** The fields of the class are kept in the four records. */
  class DebuggerNN {
    var flags: Flags
    var filters: Filters
    var packets: Packets
    var mail: Mailbox
    ghost var phase: Phase
    ghost var fault: bool
    ghost var written: nat
    ghost var requests: seq<(Request, nat)>
    ghost var delivered: seq<Slot>

    ghost function View(): State
      reads this
    {
      State(flags, filters, packets, mail, phase, fault, written, requests, delivered)
    }

    constructor ()
      ensures View() == INIT
    {
      flags := Flags(true, false, false, false, false);
      filters := Filters({}, {}, {});
      packets := Packets(map[], map[], map[]);
      mail := Mailbox(false, Slot(KeepAlive, 0), 0);
      phase, fault, written, requests, delivered := Idle, false, 0, [], [];
    }

    /** The send_ functions; they assert that no reply is pending. */
    method Send(r: Reply)
      modifies this`mail, this`fault, this`written
      ensures View() == Write(old(View()), r)
    {
      fault, written := fault || mail.ready, written + 1;
      mail := mail.(slot := Slot(r, mail.reqId));
      mail := mail.(ready := true);
    }

    method NotifyUpdateGeneric(pid: PacketId, id: nat, bytes: Bytes)
      requires pid in packets.registers
      modifies this
      ensures View() == Update(old(View()), pid, id, bytes)
    {
      packets := packets.(registers := packets.registers[pid := Put(packets.registers[pid], id, bytes)]);
      if InFilters(filters, pid) && (flags.breakNext || id in filters.watchpoints) {
        flags := flags.(canContinue := false);
        flags := flags.(breakNext := false);
        Send(FieldValue(pid, id, bytes));
      }
    }

    // The data-plane calls, for a thread that finds can_continue set.
    method NotifyUpdateNow(pid: PacketId, id: nat, bytes: Bytes)
      requires pid in packets.registers && flags.canContinue
      modifies this
      ensures View() == Apply(old(View()), DoUpdate(pid, id, bytes))
    {
      NotifyUpdateGeneric(pid, id, bytes);
    }

    method NotifyCtrNow(pid: PacketId, ctr: nat)
      requires Disciplined(View(), DoCtr(pid, ctr)) && flags.canContinue
      modifies this
      ensures View() == Apply(old(View()), DoCtr(pid, ctr))
    {
      var stack := packets.stacks[pid];
      if Leaves(ctr) { stack := stack[..|stack| - 1]; } else { stack := stack + [ctr]; }
      packets := packets.(stacks := packets.stacks[pid := stack]);
      NotifyUpdateGeneric(pid, FIELD_CTR, CtrBytes(ctr));
    }

    method CountIn(packet: nat)
      modifies this`packets
      ensures packets == old(packets).(counts := packets.counts)
      ensures packets.counts == old(packets).counts[packet := Count(old(packets), packet) + 1]
    {
      if packet !in packets.counts {
        packets := packets.(counts := packets.counts[packet := 1]);
      } else {
        packets := packets.(counts := packets.counts[packet := packets.counts[packet] + 1]);
      }
    }

    method CountOut(packet: nat)
      requires packet in packets.counts && packets.counts[packet] > 0
      modifies this`packets
      ensures packets == old(packets).(counts := packets.counts)
      ensures packets.counts == if Count(old(packets), packet) <= 1 then old(packets).counts - {packet}
                                else old(packets).counts[packet := Count(old(packets), packet) - 1]
    {
      var n := packets.counts[packet] - 1;
      packets := packets.(counts := packets.counts[packet := n]);
      if n == 0 {
        packets := packets.(counts := packets.counts - {packet});
        assert packets.counts == old(packets).counts - {packet};
      }
    }

    method Track(pid: PacketId)
      modifies this`packets
      ensures View() == old(View()).(packets := Enter(old(View()).packets, pid))
    {
      packets := packets.(registers := packets.registers[pid := map[]]);
      packets := packets.(stacks := packets.stacks[pid := []]);
      CountIn(pid.packet);
    }

    method PacketInNow(pid: PacketId, port: int)
      requires pid !in packets.registers && !Held(View(), pid.packet)
      modifies this
      ensures View() == Apply(old(View()), DoEnter(pid, port))
    {
      Track(pid);
      hide Enter;
      if InFilters(filters, pid) && (flags.breakNext || flags.breakPacketIn) {
        flags := flags.(canContinue := false);
        flags := flags.(breakNext := false);
        Send(PacketIn(pid, port));
      }
    }

    method PacketOutNow(pid: PacketId)
      requires pid in packets.registers && flags.canContinue && CountsMatch(packets)
      modifies this`packets
      ensures View() == Apply(old(View()), DoLeave(pid))
    {
      TrackedIsCounted(packets, pid);
      hide CountsMatch;
      packets := packets.(registers := packets.registers - {pid});
      packets := packets.(stacks := packets.stacks - {pid});
      CountOut(pid.packet);
    }

    method ResetState()
      modifies this`filters, this`flags, this`mail
      ensures filters == Filters({}, {}, {}) && mail == old(mail).(reqId := 0)
      ensures flags == old(flags).(breakPacketIn := false, stopPacketIn := false)
    {
      filters := Filters({}, {}, {});
      flags := flags.(breakPacketIn := false);
      mail := mail.(reqId := 0);
      flags := flags.(stopPacketIn := false);
    }

    method ReqFilterNotifications(ids: seq<PacketId>)
      modifies this`filters
      ensures filters == old(filters).(filter := Chosen(ids), filterAll := ChosenAll(ids))
    {
      filters := filters.(filter := {}, filterAll := {});
      for i := 0 to |ids|
        invariant filters == old(filters).(filter := Chosen(ids[..i]), filterAll := ChosenAll(ids[..i]))
      {
        assert ids[..i + 1] == ids[..i] + [ids[i]];
        if ids[i].copy == ALL_COPIES {
          filters := filters.(filterAll := filters.filterAll + {ids[i].packet});
        } else {
          filters := filters.(filter := filters.filter + {ids[i]});
        }
        assert filters.filter == Chosen(ids[..i + 1]) && filters.filterAll == ChosenAll(ids[..i + 1]);
      }
      assert ids[..|ids|] == ids;
    }

    method ReqAttach()
      modifies this
      ensures View() == Dispatch(old(View()), Attach)
    {
      if flags.attached {
        Send(Status(1));
        return;
      }
      flags := flags.(attached := true);
      flags := flags.(canContinue := false);
      ResetState();
      Send(Status(0));
    }

    method ReqDetach()
      modifies this
      ensures View() == Dispatch(old(View()), Detach)
    {
      if !flags.attached {
        Send(Status(1));
        return;
      }
      flags := flags.(attached := false);
      ResetState();
      flags := flags.(canContinue := true);
      Send(Status(0));
    }

    // The requests about values and backtraces, which only read.
    method ReqRead(req: Request)
      requires req.GetValue? || req.GetBacktrace?
      modifies this
      ensures View() == Dispatch(old(View()), req)
    {
      if req.GetBacktrace? {
        if req.pid !in packets.stacks { Send(Status(1)); } else { Send(Backtrace(req.pid, packets.stacks[req.pid])); }
      } else if req.pid !in packets.registers {
        Send(Status(1));
      } else if req.id !in packets.registers[req.pid] {
        Send(Status(2));
      } else {
        Send(FieldValue(req.pid, req.id, packets.registers[req.pid][req.id]));
      }
    }

    method ReqResume(req: Request)
      requires Resumes(req)
      modifies this`flags
      ensures View() == Dispatch(old(View()), req)
    {
      flags := flags.(canContinue := true);
      if req.Next? { flags := flags.(breakNext := true); }
    }

    // Breaks on packets and the flow of packets.
    method ReqPackets(req: Request)
      requires req.BreakPacketIn? || req.RemovePacketIn? || req.StopPacketIn? || req.ResumePacketIn?
      modifies this
      ensures View() == Dispatch(old(View()), req)
    {
      var status := 0;
      match req {
        case BreakPacketIn => flags := flags.(breakPacketIn := true);
        case RemovePacketIn => if flags.breakPacketIn { flags := flags.(breakPacketIn := false); } else { status := 1; }
        case StopPacketIn => flags := flags.(stopPacketIn := true);
        case ResumePacketIn => if flags.stopPacketIn { flags := flags.(stopPacketIn := false); } else { status := 1; }
      }
      Send(Status(status));
    }

    // Watchpoints, filters, and their reset.
    method ReqFilters(req: Request)
      requires req.FilterNotifications? || req.SetWatchpoint? || req.UnsetWatchpoint? || req.Reset?
      modifies this
      ensures View() == Dispatch(old(View()), req)
    {
      hide Chosen, ChosenAll;
      var status := 0;
      match req {
        case FilterNotifications(ids) => ReqFilterNotifications(ids);
        case SetWatchpoint(id) => filters := filters.(watchpoints := filters.watchpoints + {id});
        case UnsetWatchpoint(id) =>
          if id !in filters.watchpoints { status := 1; }
          filters := filters.(watchpoints := filters.watchpoints - {id});
        case Reset => ResetState();
      }
      Send(Status(status));
    }

    /** request_dispatch. */
    method RequestDispatch(req: Request)
      modifies this
      ensures View() == Dispatch(old(View()), req)
    {
      match req {
        case Attach => ReqAttach();
        case Detach => ReqDetach();
        case GetValue(_, _) => ReqRead(req);
        case GetBacktrace(_) => ReqRead(req);
        case Continue => ReqResume(req);
        case Next => ReqResume(req);
        case FilterNotifications(_) => ReqFilters(req);
        case SetWatchpoint(_) => ReqFilters(req);
        case UnsetWatchpoint(_) => ReqFilters(req);
        case Reset => ReqFilters(req);
        case _ => ReqPackets(req);
      }
    }

    // The steps of one iteration of request_in.
    method Receive(req: Request, id: nat)
      requires phase.Idle?
      modifies this
      ensures View() == Apply(old(View()), DoReceive(req, id))
    {
      mail := mail.(ready := false);
      phase, requests := Received(req, id), requests + [(req, id)];
    }

    method NumberAndDispatch(req: Request, id: nat)
      requires phase == Received(req, id)
      modifies this
      ensures View() == Apply(Apply(old(View()), DoNumber), DoDispatch)
    {
      mail := mail.(reqId := id);
      phase := Numbered(req, id);
      RequestDispatch(req);
      phase := Waiting(req, id);
    }

    method KeepAliveTimeout()
      requires phase.Waiting? && !mail.ready
      modifies this
      ensures View() == Apply(old(View()), DoTimeout)
    {
      flags := flags.(canContinue := false);
      flags := flags.(breakNext := false);
      Send(KeepAlive);
    }

    method Deliver() returns (msg: Slot)
      requires phase.Waiting? && mail.ready
      modifies this
      ensures View() == Apply(old(View()), DoDeliver) && delivered == old(delivered) + [msg]
    {
      msg := mail.slot;
      delivered, phase := delivered + [msg], Idle;
    }
  }

  lemma {:induction false} TrackedIsCounted(p: Packets, pid: PacketId)
    requires CountsMatch(p) && pid in p.registers
    ensures pid.packet in p.counts && p.counts[pid.packet] > 0
  {
    assert pid in CopiesOf(p.registers.Keys, pid.packet);
  }
}
