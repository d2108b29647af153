/** The learning engine of learning.cpp: LearnList with its double buffer, its
    transmit thread, its de-duplication filter and the acks of its clients.

    Every critical section is one step; a condition wait is the boundary between
    two steps, so a run is any interleaving of the steps of adders, of the
    transmit thread and of clients. Timeouts are a choice of the environment. */
module Learning {
  import opened Sets
  import opened Sequences

  type Sample = seq<int>

  /** One entry of old_buffers; its iterators into the filter are the samples. */
  datatype FilterPtrs = FilterPtrs(unacked: int, buffer: seq<Sample>)

  datatype Message = Message(bufferId: int, numSamples: nat, payload: seq<int>)

  /** Where the transmit thread is in buffer_transmit. */
  datatype Phase =
    | Waiting
    | Taken(num: nat)              // lock released, message not yet headed
    | Headed(num: nat, id: int)    // buffer_id - 1 has been read
    | Done                         // message sent, lock not yet taken again

  datatype State = State(
    buffer: seq<int>, numSamples: nat, bufferId: nat, maxSamples: nat,
    bufferTmp: seq<int>, numSamplesTmp: nat,
    filter: set<Sample>, oldBuffers: map<int, FilterPtrs>,
    blocked: nat,                  // threads waiting in process_full_buffer
    phase: Phase, sent: seq<Message>)

  function Init(maxSamples: nat): State {
    State([], 0, 0, maxSamples, [], 0, {}, map[], 0, Waiting, [])
  }

  // ----- the critical sections ----------------------------------------------

  function SwapBuffers(s: State): State {
    s.(bufferTmp := s.buffer, buffer := s.bufferTmp, numSamplesTmp := s.numSamples, numSamples := 0,
       bufferId := s.bufferId + 1)
  }

  /** process_full_buffer up to its first wait. */
  function ProcessFull(s: State): State {
    if s.bufferTmp == [] then SwapBuffers(s) else s.(blocked := s.blocked + 1)
  }

  /** ... and from a wake-up on. */
  function Resume(s: State): State {
    if s.blocked > 0 && s.bufferTmp == [] then SwapBuffers(s.(blocked := s.blocked - 1)) else s
  }

  /** The accepting part of add_sample. */
  function Accept(s: State, x: Sample): State {
    var ptrs := if s.bufferId in s.oldBuffers then s.oldBuffers[s.bufferId] else FilterPtrs(0, []);
    s.(buffer := s.buffer + x, numSamples := s.numSamples + 1, filter := s.filter + {x},
       oldBuffers := s.oldBuffers[s.bufferId := FilterPtrs(ptrs.unacked + 1, ptrs.buffer + [x])])
  }

  function AddSample(s: State, x: Sample): State {
    if x in s.filter then s
    else
      var t := Accept(s, x);
      if t.numSamples == 1 && t.maxSamples > 1 then t
      else if t.numSamples >= t.maxSamples then ProcessFull(t)
      else t
  }

  function SetMaxSamples(s: State, n: nat): State {
    var t := s.(maxSamples := n);
    if t.numSamples > 0 && t.numSamples >= n then ProcessFull(t) else t
  }

  predicate CanTake(s: State, timeout: bool) {
    s.phase.Waiting? && (s.bufferTmp != [] || (timeout && s.numSamples != 0))
  }

  /** buffer_transmit from the end of its wait to the release of the lock. */
  function Take(s: State, timeout: bool): State {
    if !CanTake(s, timeout) then s
    else if s.bufferTmp == [] then SwapBuffers(s).(phase := Taken(s.numSamples))
    else s.(phase := Taken(s.numSamplesTmp))
  }

  // The part without the lock: reading buffer_id, sending the message.
  function ReadId(s: State): State {
    if s.phase.Taken? then s.(phase := Headed(s.phase.num, s.bufferId - 1)) else s
  }

  function Send(s: State): State {
    if s.phase.Headed?
    then s.(sent := s.sent + [Message(s.phase.id, s.phase.num, s.bufferTmp)], phase := Done)
    else s
  }

  function Finish(s: State): State {
    if s.phase.Done? then s.(bufferTmp := [], phase := Waiting) else s
  }

  /** One iteration of the loop in ack. */
  function AckOne(s: State, id: int, i: nat): State
    requires id in s.oldBuffers && i < |s.oldBuffers[id].buffer|
  {
    var p := s.oldBuffers[id];
    s.(filter := s.filter - {p.buffer[i]},
       oldBuffers := if p.unacked - 1 == 0 then s.oldBuffers - {id}
                     else s.oldBuffers[id := p.(unacked := p.unacked - 1)])
  }

  function AckAll(s: State, id: int, ids: seq<nat>): State
    decreases |ids|
  {
    if ids == [] || id !in s.oldBuffers || ids[0] >= |s.oldBuffers[id].buffer| then s
    else AckAll(AckOne(s, id, ids[0]), id, ids[1..])
  }

  function Samples(p: FilterPtrs): set<Sample> {
    set x | x in p.buffer
  }

  function AckBuffer(s: State, id: int): State {
    if id !in s.oldBuffers then s
    else
      var p := s.oldBuffers[id];
      s.(filter := if p.unacked == |s.filter| then {} else s.filter - Samples(p), oldBuffers := s.oldBuffers - {id})
  }

  datatype Action =
    | DoAdd(x: Sample) | DoResume | DoSetMax(n: nat)
    | DoTake(timeout: bool) | DoReadId | DoSend | DoFinish
    | DoAck(id: int, ids: seq<nat>) | DoAckBuffer(id: int)

  function Apply(s: State, a: Action): State {
    match a
    case DoAdd(x) => AddSample(s, x)
    case DoResume => Resume(s)
    case DoSetMax(n) => SetMaxSamples(s, n)
    case DoTake(t) => Take(s, t)
    case DoReadId => ReadId(s)
    case DoSend => Send(s)
    case DoFinish => Finish(s)
    case DoAck(id, ids) => AckAll(s, id, ids)
    case DoAckBuffer(id) => AckBuffer(s, id)
  }

  function Run(s: State, actions: seq<Action>): State {
    if actions == [] then s else Apply(Run(s, actions[..|actions| - 1]), actions[|actions| - 1])
  }

  // ----- exactly once -------------------------------------------------------

  function Flatten(xs: seq<Sample>): seq<int> {
    if xs == [] then [] else Flatten(xs[..|xs| - 1]) + xs[|xs| - 1]
  }

  /** What happened so far: every accepted sample in order of acceptance, the
      samples of each sent message, those swapped out but not yet sent, those of
      the filling buffer, and what was recorded under each buffer id. */
  datatype History = History(accepted: seq<Sample>, sent: seq<seq<Sample>>, pending: seq<Sample>, filling: seq<Sample>,
                             recorded: map<int, seq<Sample>>)

  const START: History := History([], [], [], [], map[])

  function Recorded(h: History, id: int): seq<Sample> {
    if id in h.recorded then h.recorded[id] else []
  }

  function Swapped(h: History): History {
    h.(pending := h.filling, filling := h.pending)
  }

  function Accepted(s: State, h: History, x: Sample): History {
    h.(accepted := h.accepted + [x], filling := h.filling + [x],
       recorded := h.recorded[s.bufferId := Recorded(h, s.bufferId) + [x]])
  }

  function FullSwap(s: State, h: History): History {
    if s.bufferTmp == [] then Swapped(h) else h
  }

  /** How one action extends the history; only acceptance, a swap and a send do. */
  function Record(s: State, h: History, a: Action): History {
    match a
    case DoAdd(x) =>
      if x in s.filter then h
      else
        var (t, g) := (Accept(s, x), Accepted(s, h, x));
        if t.numSamples >= t.maxSamples && !(t.numSamples == 1 && t.maxSamples > 1) then FullSwap(t, g) else g
    case DoResume => if s.blocked > 0 then FullSwap(s, h) else h
    case DoSetMax(n) => if s.numSamples > 0 && s.numSamples >= n then FullSwap(s, h) else h
    case DoTake(t) => if CanTake(s, t) then FullSwap(s, h) else h
    case DoSend => if s.phase.Headed? then h.(sent := h.sent + [h.pending], pending := []) else h
    case _ => h
  }

  function RunHistory(s: State, actions: seq<Action>): History {
    if actions == [] then START
    else
      var before := actions[..|actions| - 1];
      Record(Run(s, before), RunHistory(s, before), actions[|actions| - 1])
  }

  ghost predicate NonEmpty(xs: seq<Sample>) {
    forall x :: x in xs ==> x != []
  }

  function Concat(xss: seq<seq<Sample>>): seq<Sample> {
    if xss == [] then [] else Concat(xss[..|xss| - 1]) + xss[|xss| - 1]
  }

  /** The double buffer agrees with the history. */
  ghost predicate Consistent(s: State, h: History) {
    && h.accepted == Concat(h.sent) + h.pending + h.filling
    && NonEmpty(h.pending) && NonEmpty(h.filling)
    && s.buffer == Flatten(h.filling) && s.numSamples == |h.filling|
    && (s.phase.Done? ==> s.bufferTmp != [] && h.pending == [])
    && (!s.phase.Done? ==> s.bufferTmp == Flatten(h.pending) && (h.pending != [] ==> s.numSamplesTmp == |h.pending|))
    && (s.phase.Taken? || s.phase.Headed? ==> h.pending != [] && s.phase.num == |h.pending|)
  }

  /** Every message carries the samples of its part of the history, in order. */
  ghost predicate MessagesMatch(s: State, h: History) {
    && |s.sent| == |h.sent|
    && forall i :: 0 <= i < |s.sent| ==>
         s.sent[i].numSamples == |h.sent[i]| && s.sent[i].payload == Flatten(h.sent[i])
  }

  lemma {:induction false} FlattenNonEmpty(xs: seq<Sample>)
    requires NonEmpty(xs)
    ensures Flatten(xs) == [] <==> xs == []
  {
    if xs != [] { assert xs[|xs| - 1] in xs; }
  }

  lemma {:induction false} FlattenAppend(xs: seq<Sample>, x: Sample)
    ensures Flatten(xs + [x]) == Flatten(xs) + x
  {
    assert (xs + [x])[..|xs|] == xs;
  }

  lemma {:induction false} ConcatAppend(xss: seq<seq<Sample>>, xs: seq<Sample>)
    ensures Concat(xss + [xs]) == Concat(xss) + xs
  {
    assert (xss + [xs])[..|xss|] == xss;
  }

  /** Buffer ids: each message is headed with the id its samples were recorded
      under, and ids increase. */
  ghost predicate IdsMatch(s: State, h: History) {
    && Recorded(h, s.bufferId) == h.filling
    && (h.pending != [] ==> s.bufferId > 0 && Recorded(h, s.bufferId - 1) == h.pending)
    && (s.phase.Headed? ==> s.phase.id == s.bufferId - 1)
    && (forall id :: id in h.recorded ==> 0 <= id <= s.bufferId)
    && |s.sent| == |h.sent|
    && (forall i :: 0 <= i < |s.sent| ==> Recorded(h, s.sent[i].bufferId) == h.sent[i])
    && (forall i :: 0 <= i < |s.sent| ==> s.sent[i].bufferId < s.bufferId - if h.pending != [] then 1 else 0)
    && (forall i, j :: 0 <= i < j < |s.sent| ==> s.sent[i].bufferId < s.sent[j].bufferId)
  }

  ghost predicate ExactlyOnce(s: State, h: History) {
    Consistent(s, h) && MessagesMatch(s, h) && IdsMatch(s, h)
  }

  lemma {:induction false} SwapKeeps(s: State, h: History)
    requires ExactlyOnce(s, h) && s.bufferTmp == []
    ensures ExactlyOnce(SwapBuffers(s), Swapped(h)) && h.pending == []
  {
    FlattenNonEmpty(h.pending);
    assert Concat(h.sent) + [] + h.filling == Concat(h.sent) + h.filling + [];
  }

  lemma {:induction false} BlockedIrrelevant(s: State, h: History, n: nat, m: nat)
    requires ExactlyOnce(s, h)
    ensures ExactlyOnce(s.(blocked := n, maxSamples := m), h)
  {}

  lemma {:induction false} FullKeeps(s: State, h: History)
    requires ExactlyOnce(s, h)
    ensures ExactlyOnce(ProcessFull(s), FullSwap(s, h))
  {
    hide ExactlyOnce;
    if s.bufferTmp == [] { SwapKeeps(s, h); } else { BlockedIrrelevant(s, h, s.blocked + 1, s.maxSamples); }
  }

  lemma {:induction false} AcceptKeeps(s: State, h: History, x: Sample)
    requires ExactlyOnce(s, h) && x != []
    ensures ExactlyOnce(Accept(s, x), Accepted(s, h, x))
  {
    hide IdsMatch, Consistent, MessagesMatch, Accept, Accepted;
    AcceptConsistent(s, h, x);
    AcceptMessages(s, h, x);
    AcceptIds(s, h, x);
  }

  lemma {:induction false} AcceptConsistent(s: State, h: History, x: Sample)
    requires Consistent(s, h) && x != []
    ensures Consistent(Accept(s, x), Accepted(s, h, x))
  {
    hide Flatten, Concat, Recorded;
    FlattenAppend(h.filling, x);
    assert Concat(h.sent) + h.pending + h.filling + [x] == Concat(h.sent) + h.pending + (h.filling + [x]);
  }

  lemma {:induction false} AcceptMessages(s: State, h: History, x: Sample)
    requires MessagesMatch(s, h)
    ensures MessagesMatch(Accept(s, x), Accepted(s, h, x))
  {
    hide Flatten;
  }

  lemma {:induction false} AcceptIds(s: State, h: History, x: Sample)
    requires IdsMatch(s, h)
    ensures IdsMatch(Accept(s, x), Accepted(s, h, x))
  {}

  lemma {:induction false} TakeKeeps(s: State, h: History, timeout: bool)
    requires ExactlyOnce(s, h) && CanTake(s, timeout)
    ensures ExactlyOnce(Take(s, timeout), FullSwap(s, h))
  {
    FlattenNonEmpty(h.pending);
    if s.bufferTmp == [] { SwapKeeps(s, h); }
  }

  lemma {:induction false} SendKeeps(s: State, h: History)
    requires ExactlyOnce(s, h) && s.phase.Headed?
    ensures ExactlyOnce(Send(s), h.(sent := h.sent + [h.pending], pending := []))
  {
    FlattenNonEmpty(h.pending);
    ConcatAppend(h.sent, h.pending);
    assert Concat(h.sent) + h.pending + [] + h.filling == Concat(h.sent) + h.pending + h.filling;
    SendIds(s, h);
  }

  lemma {:induction false} SendIds(s: State, h: History)
    requires IdsMatch(s, h) && s.phase.Headed? && h.pending != []
    ensures IdsMatch(Send(s), h.(sent := h.sent + [h.pending], pending := []))
  {}

  lemma {:induction false} AckIrrelevant(s: State, h: History, filter: set<Sample>, old_: map<int, FilterPtrs>)
    requires ExactlyOnce(s, h)
    ensures ExactlyOnce(s.(filter := filter, oldBuffers := old_), h)
  {}

  lemma {:induction false} AckAllFrame(s: State, id: int, ids: seq<nat>)
    ensures AckAll(s, id, ids) == s.(filter := AckAll(s, id, ids).filter, oldBuffers := AckAll(s, id, ids).oldBuffers)
    decreases |ids|
  {
    if !(ids == [] || id !in s.oldBuffers || ids[0] >= |s.oldBuffers[id].buffer|) {
      AckAllFrame(AckOne(s, id, ids[0]), id, ids[1..]);
    }
  }

  /** Every step of every thread keeps the accounting of samples. */
  lemma {:induction false} StepKeepsExactlyOnce(s: State, h: History, a: Action)
    requires ExactlyOnce(s, h) && (a.DoAdd? ==> a.x != [])
    ensures ExactlyOnce(Apply(s, a), Record(s, h, a))
  {
    hide ExactlyOnce, SwapBuffers, Swapped, Accept, Accepted;
    match a
    case DoAdd(x) =>
      if x !in s.filter {
        AcceptKeeps(s, h, x);
        FullKeeps(Accept(s, x), Accepted(s, h, x));
      }
    case DoResume =>
      if s.blocked > 0 && s.bufferTmp == [] {
        BlockedIrrelevant(s, h, s.blocked - 1, s.maxSamples);
        SwapKeeps(s.(blocked := s.blocked - 1), h);
      }
    case DoSetMax(n) =>
      BlockedIrrelevant(s, h, s.blocked, n);
      FullKeeps(s.(maxSamples := n), h);
    case DoTake(t) => if CanTake(s, t) { TakeKeeps(s, h, t); }
    case DoReadId => ReadIdKeeps(s, h);
    case DoSend => if s.phase.Headed? { SendKeeps(s, h); }
    case DoFinish => FinishKeeps(s, h);
    case DoAck(id, ids) =>
      AckAllFrame(s, id, ids);
      AckIrrelevant(s, h, AckAll(s, id, ids).filter, AckAll(s, id, ids).oldBuffers);
    case DoAckBuffer(id) => AckIrrelevant(s, h, AckBuffer(s, id).filter, AckBuffer(s, id).oldBuffers);
  }

  lemma {:induction false} ReadIdKeeps(s: State, h: History)
    requires ExactlyOnce(s, h)
    ensures ExactlyOnce(ReadId(s), h)
  {}

  lemma {:induction false} FinishKeeps(s: State, h: History)
    requires ExactlyOnce(s, h)
    ensures ExactlyOnce(Finish(s), h)
  {}

  /** Learning is exactly-once: in every interleaving the accepted samples are those
      sent, pending and filling, in order, and each message has the id and the
      count its samples were recorded with. */
  lemma {:induction false} LearningIsExactlyOnce(maxSamples: nat, actions: seq<Action>)
    requires forall i :: 0 <= i < |actions| && actions[i].DoAdd? ==> actions[i].x != []
    ensures ExactlyOnce(Run(Init(maxSamples), actions), RunHistory(Init(maxSamples), actions))
  {
    hide ExactlyOnce, Apply, Record;
    if actions == [] {
      StartExactlyOnce(maxSamples);
    } else {
      var before := actions[..|actions| - 1];
      LearningIsExactlyOnce(maxSamples, before);
      StepKeepsExactlyOnce(Run(Init(maxSamples), before), RunHistory(Init(maxSamples), before), actions[|actions| - 1]);
    }
  }

  lemma {:induction false} StartExactlyOnce(maxSamples: nat)
    ensures ExactlyOnce(Init(maxSamples), START)
  {}

  // ----- when samples move on -----------------------------------------------

  /** The samples that the next message carries: those swapped out, or else the filling
      ones. */
  function Next(h: History): seq<Sample> {
    if h.pending != [] then h.pending else h.filling
  }

  /** One round of the transmit thread from its wait on. Exactly one message is sent if and
      only if samples wait to be sent, or some have been learnt and the deadline has
      passed; it carries them all, in order. Otherwise nothing happens. */
  ghost predicate RoundSends(s: State, h: History, timeout: bool, t: State, g: History) {
    var id := if h.pending != [] then s.bufferId - 1 else s.bufferId;
    if h.pending != [] || (timeout && h.filling != []) then
      && t.sent == s.sent + [Message(id, |Next(h)|, Flatten(Next(h)))]
      && g == h.(sent := h.sent + [Next(h)], pending := [], filling := if h.pending != [] then h.filling else [])
      && t.phase == Waiting && t.bufferTmp == []
    else t == s && g == h
  }

  function Round(s: State, timeout: bool): State {
    Apply(Apply(Apply(Apply(s, DoTake(timeout)), DoReadId), DoSend), DoFinish)
  }

  function RoundHistory(s: State, h: History, timeout: bool): History {
    var (s1, h1) := (Apply(s, DoTake(timeout)), Record(s, h, DoTake(timeout)));
    var (s2, h2) := (Apply(s1, DoReadId), Record(s1, h1, DoReadId));
    Record(Apply(s2, DoSend), Record(s2, h2, DoSend), DoFinish)
  }

  lemma {:induction false} RoundIs(s: State, h: History, timeout: bool)
    requires ExactlyOnce(s, h) && s.phase.Waiting?
    ensures RoundSends(s, h, timeout, Round(s, timeout), RoundHistory(s, h, timeout))
  {
    hide Recorded, Concat, IdsMatch, MessagesMatch, Flatten;
    FlattenNonEmpty(h.pending);
    FlattenNonEmpty(h.filling);
  }

  /** So in every run, whenever the thread waits. */
  lemma {:induction false} TransmitSends(maxSamples: nat, actions: seq<Action>, timeout: bool)
    requires forall i :: 0 <= i < |actions| && actions[i].DoAdd? ==> actions[i].x != []
    requires Run(Init(maxSamples), actions).phase.Waiting?
    ensures var more := actions + [DoTake(timeout), DoReadId, DoSend, DoFinish];
            RoundSends(Run(Init(maxSamples), actions), RunHistory(Init(maxSamples), actions), timeout,
                       Run(Init(maxSamples), more), RunHistory(Init(maxSamples), more))
  {
    hide RoundSends, Apply, Record, Run, RunHistory, ExactlyOnce;
    LearningIsExactlyOnce(maxSamples, actions);
    RoundIs(Run(Init(maxSamples), actions), RunHistory(Init(maxSamples), actions), timeout);
    var (a1, a2) := (actions + [DoTake(timeout)], actions + [DoTake(timeout), DoReadId]);
    var (a3, a4) := (a2 + [DoSend], actions + [DoTake(timeout), DoReadId, DoSend, DoFinish]);
    RunMore(maxSamples, actions, DoTake(timeout));
    RunMore(maxSamples, a1, DoReadId);
    assert a1 + [DoReadId] == a2;
    RunMore(maxSamples, a2, DoSend);
    RunMore(maxSamples, a3, DoFinish);
    assert a3 + [DoFinish] == a4;
  }

  lemma {:induction false} RunMore(maxSamples: nat, actions: seq<Action>, a: Action)
    ensures Run(Init(maxSamples), actions + [a]) == Apply(Run(Init(maxSamples), actions), a)
    ensures RunHistory(Init(maxSamples), actions + [a]) ==
            Record(Run(Init(maxSamples), actions), RunHistory(Init(maxSamples), actions), a)
  {
    hide Apply, Record;
    assert (actions + [a])[..|actions|] == actions;
  }

  /** What an add does: a sample in the filter is ignored. Any other is learnt, and if it
      fills the buffer, the buffer is swapped at once when the other one is free;
      otherwise the thread waits for that. */
  lemma {:induction false} AddFills(s: State, h: History, x: Sample)
    requires ExactlyOnce(s, h) && x != []
    ensures
      var (t, g, free) := (Apply(s, DoAdd(x)), Record(s, h, DoAdd(x)), h.pending == [] && !s.phase.Done?);
      if x in s.filter then t == s && g == h
      else
        && g.accepted == h.accepted + [x] && t.filter == s.filter + {x}
        && if |h.filling| + 1 < s.maxSamples then
             g.pending == h.pending && g.filling == h.filling + [x] && t.blocked == s.blocked
           else if free then
             g.pending == h.filling + [x] && g.filling == [] && t.blocked == s.blocked
           else
             g.pending == h.pending && g.filling == h.filling + [x] && t.blocked == s.blocked + 1
  {
    hide Recorded, Concat, IdsMatch, MessagesMatch, Flatten;
    FlattenNonEmpty(h.pending);
  }

  /** A waiting thread swaps once the transmit thread has finished and it is woken up; until
      both has happened nothing is swapped for it. */
  lemma {:induction false} WaiterSwaps(s: State, h: History)
    requires ExactlyOnce(s, h) && s.blocked > 0
    ensures s.phase.Done? ==>
              var (t, g) := (Apply(s, DoFinish), Record(s, h, DoFinish));
              var (u, k) := (Apply(t, DoResume), Record(t, g, DoResume));
              k == h.(pending := h.filling, filling := []) && u.blocked == s.blocked - 1 && u.bufferId == s.bufferId + 1
    ensures s.phase.Done? || h.pending != [] ==> Apply(s, DoResume) == s && Record(s, h, DoResume) == h
  {
    hide Recorded, Concat, IdsMatch, MessagesMatch, Flatten;
    FlattenNonEmpty(h.pending);
  }

  /** A new maximum takes effect at once if the buffer is full by it. */
  lemma {:induction false} NewMaximum(s: State, h: History, n: nat)
    requires ExactlyOnce(s, h)
    ensures
      var (t, g, free) := (Apply(s, DoSetMax(n)), Record(s, h, DoSetMax(n)), h.pending == [] && !s.phase.Done?);
      && t.maxSamples == n
      && if h.filling == [] || |h.filling| < n then t == s.(maxSamples := n) && g == h
         else if free then g == h.(pending := h.filling, filling := []) && t.blocked == s.blocked
         else g == h && t.blocked == s.blocked + 1
  {
    hide Recorded, Concat, IdsMatch, MessagesMatch, Flatten;
    FlattenNonEmpty(h.pending);
  }

  /** ... and it holds for every later add, until the next one is set. */
  lemma {:induction false} MaximumKept(s: State, actions: seq<Action>, k: nat)
    requires k < |actions| && actions[k].DoSetMax?
    requires forall i :: k < i < |actions| ==> !actions[i].DoSetMax?
    ensures Run(s, actions).maxSamples == actions[k].n
  {
    hide Apply;
    var (before, a) := (actions[..|actions| - 1], actions[|actions| - 1]);
    MaximumStep(Run(s, before), a);
    if k < |actions| - 1 { MaximumKept(s, before, k); }
  }

  lemma {:induction false} MaximumStep(s: State, a: Action)
    ensures Apply(s, a).maxSamples == if a.DoSetMax? then a.n else s.maxSamples
  {
    if a.DoAck? { AckAllFrame(s, a.id, a.ids); }
  }

  // ----- the filter ---------------------------------------------------------

  /** Which samples of each buffer have been acknowledged one by one. */
  datatype Client = Client(acked: map<int, set<nat>>)

  const SILENT: Client := Client(map[])

  function Acked(c: Client, id: int): set<nat> {
    if id in c.acked then c.acked[id] else {}
  }

  // Acks of a buffer that old_buffers does not know have no effect.
  function Note(s: State, c: Client, a: Action): Client {
    if a.DoAck? && a.id in s.oldBuffers then NoteAll(c, a.id, a.ids) else c
  }

  function NoteAll(c: Client, id: int, ids: seq<nat>): Client {
    c.(acked := c.acked[id := Acked(c, id) + set i | i in ids])
  }

  ghost predicate Received(s: State, id: int) {
    exists i :: 0 <= i < |s.sent| && s.sent[i].bufferId == id
  }

  /** What clients keep to: they acknowledge samples of messages they received, each
      at most once, and a whole buffer only if no sample of it that was acknowledged
      before is live in another buffer. Acks of unknown buffers are free. */
  ghost predicate Polite(s: State, c: Client, a: Action) {
    match a
    case DoAck(id, ids) =>
      id in s.oldBuffers ==>
        && Received(s, id) && Distinct(ids)
        && forall i :: i in ids ==> i < |s.oldBuffers[id].buffer| && i !in Acked(c, id)
    case DoAckBuffer(id) => id in s.oldBuffers ==> Received(s, id) && !AckedElsewhere(s.oldBuffers, c, id)
    case _ => true
  }

  /** A sample of the buffer that was acknowledged before is live in another one. */
  ghost predicate AckedElsewhere(old_: map<int, FilterPtrs>, c: Client, id: int)
    requires id in old_
  {
    exists i, jd, j :: i in Acked(c, id) && i < |old_[id].buffer| && jd != id && Live(old_, c, jd, j)
                    && SampleAt(old_, jd, j) == SampleAt(old_, id, i)
  }

  // Sample `i` of buffer `id` has not been acknowledged.
  ghost predicate Live(old_: map<int, FilterPtrs>, c: Client, id: int, i: nat) {
    id in old_ && i < |old_[id].buffer| && i !in Acked(c, id)
  }

  function SampleAt(old_: map<int, FilterPtrs>, id: int, i: nat): Sample
    requires id in old_ && i < |old_[id].buffer|
  {
    old_[id].buffer[i]
  }

  ghost predicate Counts(p: FilterPtrs, acked: set<nat>) {
    p.unacked == |p.buffer| - |acked| && p.unacked > 0 && forall i :: i in acked ==> i < |p.buffer|
  }

  /** The filter is the disjoint union of the unacknowledged samples. */
  ghost predicate FilterIsLive(filter: set<Sample>, old_: map<int, FilterPtrs>, c: Client) {
    && (forall id, i :: Live(old_, c, id, i) ==> SampleAt(old_, id, i) in filter)
    && (forall x :: x in filter ==> exists id, i :: Live(old_, c, id, i) && SampleAt(old_, id, i) == x)
    && (forall id, i, jd, j ::
          Live(old_, c, id, i) && Live(old_, c, jd, j) && SampleAt(old_, id, i) == SampleAt(old_, jd, j)
          ==> id == jd && i == j)
  }

  /** What old_buffers records, and for which ids. */
  ghost predicate BuffersMatch(s: State, h: History, c: Client) {
    && (forall id :: id in s.oldBuffers ==>
          && id <= s.bufferId && s.oldBuffers[id].buffer == Recorded(h, id) && Distinct(s.oldBuffers[id].buffer)
          && Counts(s.oldBuffers[id], Acked(c, id)))
    && (h.filling != [] ==> s.bufferId in s.oldBuffers)
    && (forall id :: Acked(c, id) != {} ==> Received(s, id))
  }

  ghost predicate FilterInv(s: State, h: History, c: Client) {
    FilterIsLive(s.filter, s.oldBuffers, c) && BuffersMatch(s, h, c)
  }

  lemma {:induction false} AcceptLive(s: State, h: History, c: Client, x: Sample)
    requires ExactlyOnce(s, h) && FilterInv(s, h, c) && x !in s.filter
    ensures FilterInv(Accept(s, x), Accepted(s, h, x), c)
  {
    NotReceived(s, h);
    AcceptFilter(s, h, c, x);
    AcceptBuffers(s, h, c, x);
  }

  // The filling buffer has not been announced to clients.
  lemma {:induction false} NotReceived(s: State, h: History)
    requires ExactlyOnce(s, h)
    ensures !Received(s, s.bufferId)
  {}

  lemma {:induction false} AcceptFilter(s: State, h: History, c: Client, x: Sample)
    requires FilterInv(s, h, c) && x !in s.filter && !Received(s, s.bufferId)
    ensures FilterIsLive(Accept(s, x).filter, Accept(s, x).oldBuffers, c)
  {
    hide Received;
    var (t, n) := (Accept(s, x), |Accept(s, x).oldBuffers[s.bufferId].buffer| - 1);
    assert Live(t.oldBuffers, c, s.bufferId, n) && SampleAt(t.oldBuffers, s.bufferId, n) == x;
    forall id, i | Live(t.oldBuffers, c, id, i) && !(id == s.bufferId && i == n)
      ensures Live(s.oldBuffers, c, id, i) && SampleAt(t.oldBuffers, id, i) == SampleAt(s.oldBuffers, id, i) != x {}
    forall y | y in t.filter && y != x
      ensures exists id, i :: Live(t.oldBuffers, c, id, i) && SampleAt(t.oldBuffers, id, i) == y
    {
      var id, i :| Live(s.oldBuffers, c, id, i) && SampleAt(s.oldBuffers, id, i) == y;
      assert Live(t.oldBuffers, c, id, i) && SampleAt(t.oldBuffers, id, i) == y;
    }
  }

  lemma {:induction false} AcceptBuffers(s: State, h: History, c: Client, x: Sample)
    requires Recorded(h, s.bufferId) == h.filling && FilterInv(s, h, c) && x !in s.filter && !Received(s, s.bufferId)
    ensures BuffersMatch(Accept(s, x), Accepted(s, h, x), c)
  {
    NewInBuffer(s, h, c, x);
    hide FilterIsLive;
    forall id | Received(s, id) ensures Received(Accept(s, x), id) {}
  }

  // All samples of the filling buffer are live, so a new one is not among them.
  lemma {:induction false} NewInBuffer(s: State, h: History, c: Client, x: Sample)
    requires FilterInv(s, h, c) && x !in s.filter && !Received(s, s.bufferId)
    ensures s.bufferId in s.oldBuffers ==> x !in s.oldBuffers[s.bufferId].buffer
    ensures Distinct(Accept(s, x).oldBuffers[s.bufferId].buffer)
  {
    hide Received;
    if s.bufferId in s.oldBuffers {
      var buffer := s.oldBuffers[s.bufferId].buffer;
      forall i: nat | i < |buffer| ensures buffer[i] != x {
        assert Live(s.oldBuffers, c, s.bufferId, i) && SampleAt(s.oldBuffers, s.bufferId, i) == buffer[i];
      }
    }
  }

  lemma {:induction false} SwapFilter(s: State, h: History, c: Client)
    requires ExactlyOnce(s, h) && FilterInv(s, h, c) && s.bufferTmp == []
    ensures FilterInv(SwapBuffers(s), Swapped(h), c)
  {
    SwapKeeps(s, h);
    assert forall id :: Received(s, id) ==> Received(SwapBuffers(s), id);
  }

  // Only these parts of the state matter to the filter invariant.
  lemma {:induction false} FilterFrame(s: State, t: State, h: History, g: History, c: Client)
    requires FilterInv(s, h, c)
    requires t.filter == s.filter && t.oldBuffers == s.oldBuffers && t.bufferId == s.bufferId && s.sent <= t.sent
    requires g.recorded == h.recorded && g.filling == h.filling
    ensures FilterInv(t, g, c)
  {
    forall id | Received(s, id) ensures Received(t, id) {
      var i :| 0 <= i < |s.sent| && s.sent[i].bufferId == id;
      assert t.sent[i].bufferId == id;
    }
  }

  function AckNoted(c: Client, id: int, i: nat): Client {
    c.(acked := c.acked[id := Acked(c, id) + {i}])
  }

  lemma {:induction false} FullRange(acked: set<nat>, n: nat)
    requires (forall i :: i in acked ==> i < n) && |acked| == n
    ensures forall i :: 0 <= i < n ==> i in acked
    decreases n
  {
    if n > 0 {
      if n - 1 in acked {
        FullRange(acked - {n - 1}, n - 1);
        forall i | 0 <= i < n - 1 ensures i in acked { assert i in acked - {n - 1}; }
      } else {
        SmallRange(acked, n - 1);
      }
    }
  }

  lemma {:induction false} SmallRange(acked: set<nat>, n: nat)
    requires forall i :: i in acked ==> i < n
    ensures |acked| <= n
  {
    if n > 0 { SmallRange(acked - {n - 1}, n - 1); } else { assert acked == {}; }
  }

  lemma {:induction false} AckOneLive(s: State, h: History, c: Client, id: int, i: nat)
    requires FilterInv(s, h, c) && id in s.oldBuffers && i < |s.oldBuffers[id].buffer| && i !in Acked(c, id)
    ensures FilterIsLive(AckOne(s, id, i).filter, AckOne(s, id, i).oldBuffers, AckNoted(c, id, i))
  {
    hide Received, BuffersMatch, FilterIsLive;
    BufferRecorded(s, h, c, id);
    var (t, d) := (AckOne(s, id, i), AckNoted(c, id, i));
    forall jd, j ensures Live(t.oldBuffers, d, jd, j) <==> Live(s.oldBuffers, c, jd, j) && !(jd == id && j == i) {
      StillLive(s, c, id, i, jd, j);
    }
    forall jd, j | Live(t.oldBuffers, d, jd, j)
      ensures SampleAt(t.oldBuffers, jd, j) == SampleAt(s.oldBuffers, jd, j)
    {}
    LoseOne(s.filter, s.oldBuffers, c, t.oldBuffers, d, id, i);
  }

  lemma {:induction false} StillLive(s: State, c: Client, id: int, i: nat, jd: int, j: nat)
    requires id in s.oldBuffers && i < |s.oldBuffers[id].buffer| && i !in Acked(c, id)
    requires Counts(s.oldBuffers[id], Acked(c, id))
    ensures Live(AckOne(s, id, i).oldBuffers, AckNoted(c, id, i), jd, j)
            <==> Live(s.oldBuffers, c, jd, j) && !(jd == id && j == i)
  {
    var p := s.oldBuffers[id];
    if p.unacked == 1 { FullRange(Acked(c, id) + {i}, |p.buffer|); }
  }

  // Taking one live sample away from both sides.
  lemma {:induction false} LoseOne(filter: set<Sample>, old_: map<int, FilterPtrs>, c: Client,
                                   old': map<int, FilterPtrs>, d: Client, id: int, i: nat)
    requires FilterIsLive(filter, old_, c) && Live(old_, c, id, i)
    requires forall jd, j :: Live(old', d, jd, j) <==> Live(old_, c, jd, j) && !(jd == id && j == i)
    requires forall jd, j :: Live(old', d, jd, j) ==> SampleAt(old', jd, j) == SampleAt(old_, jd, j)
    ensures FilterIsLive(filter - {SampleAt(old_, id, i)}, old', d)
  {
    forall y | y in filter - {SampleAt(old_, id, i)}
      ensures exists jd, j :: Live(old', d, jd, j) && SampleAt(old', jd, j) == y
    {
      var jd, j :| Live(old_, c, jd, j) && SampleAt(old_, jd, j) == y;
      assert Live(old', d, jd, j) && SampleAt(old', jd, j) == y;
    }
  }

  lemma {:induction false} AckOneBuffers(s: State, h: History, c: Client, id: int, i: nat)
    requires BuffersMatch(s, h, c) && id in s.oldBuffers && i < |s.oldBuffers[id].buffer| && i !in Acked(c, id)
    requires Received(s, id) && id != s.bufferId
    ensures BuffersMatch(AckOne(s, id, i), h, AckNoted(c, id, i))
  {
    var (t, d) := (AckOne(s, id, i), AckNoted(c, id, i));
    assert forall jd :: Received(s, jd) ==> Received(t, jd);
  }

  /** Per-sample acks keep the filter exact. */
  lemma {:induction false} AckAllKeeps(s: State, h: History, c: Client, id: int, ids: seq<nat>)
    requires FilterInv(s, h, c) && Received(s, id) && id != s.bufferId && Distinct(ids)
    requires forall i :: i in ids ==> i < |Recorded(h, id)| && i !in Acked(c, id)
    ensures FilterInv(AckAll(s, id, ids), h, NoteAll(c, id, ids))
    decreases |ids|
  {
    hide Received, FilterInv, AckOne, AckNoted, NoteAll, Recorded;
    NoteAcks(c, id, ids);
    if ids == [] {
      SameAcks(s, h, c, NoteAll(c, id, ids));
    } else if id !in s.oldBuffers {
      GoneBuffer(s, h, c, NoteAll(c, id, ids), id);
    } else {
      assert ids[0] in ids && forall i :: i in ids[1..] ==> i in ids && i != ids[0];
      AckOneKeeps(s, h, c, id, ids[0]);
      AckAllKeeps(AckOne(s, id, ids[0]), h, AckNoted(c, id, ids[0]), id, ids[1..]);
    }
  }

  lemma {:induction false} AckOneKeeps(s: State, h: History, c: Client, id: int, i: nat)
    requires FilterInv(s, h, c) && id in s.oldBuffers && i < |Recorded(h, id)| && i !in Acked(c, id)
    requires Received(s, id) && id != s.bufferId
    ensures i < |s.oldBuffers[id].buffer|
    ensures FilterInv(AckOne(s, id, i), h, AckNoted(c, id, i))
    ensures AckOne(s, id, i).bufferId == s.bufferId && Received(AckOne(s, id, i), id)
    ensures Acked(AckNoted(c, id, i), id) == Acked(c, id) + {i}
  {
    hide Received, FilterIsLive, BuffersMatch;
    BufferRecorded(s, h, c, id);
    AckOneLive(s, h, c, id, i);
    AckOneBuffers(s, h, c, id, i);
    SameSent(s, AckOne(s, id, i), id);
  }

  lemma {:induction false} NoteAcks(c: Client, id: int, ids: seq<nat>)
    ensures
      var d := NoteAll(c, id, ids);
      && Acked(d, id) == Acked(c, id) + (set i | i in ids)
      && (forall jd :: jd != id ==> Acked(d, jd) == Acked(c, jd))
      && (ids == [] ==> Acked(d, id) == Acked(c, id))
      && (ids != [] ==> d == NoteAll(AckNoted(c, id, ids[0]), id, ids[1..]))
  {
    if ids != [] {
      assert Acked(c, id) + {ids[0]} + (set i | i in ids[1..]) == Acked(c, id) + (set i | i in ids);
    }
  }

  /** A per-sample ack keeps the invariant if and only if the sample was not
      acknowledged before: otherwise the count is one too low. */
  lemma {:induction false} AckOneIff(s: State, h: History, c: Client, id: int, i: nat)
    requires FilterInv(s, h, c) && Received(s, id) && id != s.bufferId && id in s.oldBuffers
    requires i < |s.oldBuffers[id].buffer|
    ensures FilterInv(AckOne(s, id, i), h, AckNoted(c, id, i)) <==> i !in Acked(c, id)
  {
    hide Received, FilterIsLive, BuffersMatch;
    BufferRecorded(s, h, c, id);
    if i !in Acked(c, id) {
      AckOneKeeps(s, h, c, id, i);
    } else {
      var (t, d) := (AckOne(s, id, i), AckNoted(c, id, i));
      RepeatedAckIff(s, h, c, id, i);
      if id in t.oldBuffers && BuffersMatch(t, h, d) { BufferRecorded(t, h, d, id); }
    }
  }

  /** After a second ack of one sample the filter is still that of the live samples
      if and only if the buffer stays and the sample was not learnt again since. */
  lemma {:induction false} RepeatedAckIff(s: State, h: History, c: Client, id: int, i: nat)
    requires FilterInv(s, h, c) && id in s.oldBuffers && i < |s.oldBuffers[id].buffer| && i in Acked(c, id)
    ensures FilterIsLive(AckOne(s, id, i).filter, AckOne(s, id, i).oldBuffers, AckNoted(c, id, i))
       <==> s.oldBuffers[id].unacked > 1 && !IsLive(s.oldBuffers, c, SampleAt(s.oldBuffers, id, i))
    ensures Acked(AckNoted(c, id, i), id) == Acked(c, id)
  {
    hide Received, FilterIsLive, BuffersMatch;
    BufferRecorded(s, h, c, id);
    var (t, d, x) := (AckOne(s, id, i), AckNoted(c, id, i), SampleAt(s.oldBuffers, id, i));
    assert Acked(d, id) == Acked(c, id);
    if s.oldBuffers[id].unacked > 1 {
      assert forall jd, j :: Live(t.oldBuffers, d, jd, j) <==> Live(s.oldBuffers, c, jd, j);
      assert forall jd, j :: Live(t.oldBuffers, d, jd, j) ==>
             SampleAt(t.oldBuffers, jd, j) == SampleAt(s.oldBuffers, jd, j);
      EraseValue(s.filter, s.oldBuffers, c, t.oldBuffers, d, x);
    } else {
      LeftBehind(s, c, id, i);
    }
  }

  ghost predicate IsLive(old_: map<int, FilterPtrs>, c: Client, x: Sample) {
    exists id, i :: Live(old_, c, id, i) && SampleAt(old_, id, i) == x
  }

  // Erasing a value keeps the filter exact unless it is live.
  lemma {:induction false} EraseValue(filter: set<Sample>, old_: map<int, FilterPtrs>, c: Client,
                                      old': map<int, FilterPtrs>, d: Client, x: Sample)
    requires FilterIsLive(filter, old_, c)
    requires forall jd, j :: Live(old', d, jd, j) <==> Live(old_, c, jd, j)
    requires forall jd, j :: Live(old', d, jd, j) ==> SampleAt(old', jd, j) == SampleAt(old_, jd, j)
    ensures FilterIsLive(filter - {x}, old', d) <==> !IsLive(old_, c, x)
  {
    if IsLive(old_, c, x) {
      var jd, j :| Live(old_, c, jd, j) && SampleAt(old_, jd, j) == x;
      assert Live(old', d, jd, j) && SampleAt(old', jd, j) == x;
    } else {
      forall y | y in filter - {x} ensures exists jd, j :: Live(old', d, jd, j) && SampleAt(old', jd, j) == y {
        var jd, j :| Live(old_, c, jd, j) && SampleAt(old_, jd, j) == y;
        assert Live(old', d, jd, j) && SampleAt(old', jd, j) == y;
      }
      assert forall jd, j :: Live(old', d, jd, j) ==> Live(old_, c, jd, j) && SampleAt(old_, jd, j) != x;
    }
  }

  // The last count went to a sample acknowledged before: one is left in the filter.
  lemma {:induction false} LeftBehind(s: State, c: Client, id: int, i: nat)
    requires FilterIsLive(s.filter, s.oldBuffers, c) && id in s.oldBuffers && Counts(s.oldBuffers[id], Acked(c, id))
    requires i < |s.oldBuffers[id].buffer| && i in Acked(c, id) && s.oldBuffers[id].unacked == 1
    requires Distinct(s.oldBuffers[id].buffer)
    ensures !FilterIsLive(AckOne(s, id, i).filter, AckOne(s, id, i).oldBuffers, AckNoted(c, id, i))
  {
    var (t, d, p) := (AckOne(s, id, i), AckNoted(c, id, i), s.oldBuffers[id]);
    var j := OneUnacked(Acked(c, id), |p.buffer|);
    assert Live(s.oldBuffers, c, id, j);
    var y := SampleAt(s.oldBuffers, id, j);
    assert y in t.filter;
    assert forall jd, k :: Live(t.oldBuffers, d, jd, k) ==> Live(s.oldBuffers, c, jd, k) && jd != id;
    assert forall jd, k :: Live(t.oldBuffers, d, jd, k) ==>
           SampleAt(t.oldBuffers, jd, k) == SampleAt(s.oldBuffers, jd, k) != y;
  }

  lemma {:induction false} OneUnacked(acked: set<nat>, n: nat) returns (j: nat)
    requires |acked| < n
    ensures j < n && j !in acked
  {
    if forall j: nat :: j < n ==> j in acked { ManyAcked(acked, n); }
    j :| j < n && j !in acked;
  }

  lemma {:induction false} ManyAcked(acked: set<nat>, n: nat)
    requires forall j: nat :: j < n ==> j in acked
    ensures |acked| >= n
  {
    if n > 0 { ManyAcked(acked - {n - 1}, n - 1); }
  }

  lemma {:induction false} SameSent(s: State, t: State, id: int)
    requires s.sent == t.sent
    ensures Received(s, id) <==> Received(t, id)
  {}

  lemma {:induction false} BufferRecorded(s: State, h: History, c: Client, id: int)
    requires BuffersMatch(s, h, c) && id in s.oldBuffers
    ensures s.oldBuffers[id].buffer == Recorded(h, id) && Counts(s.oldBuffers[id], Acked(c, id))
    ensures Distinct(s.oldBuffers[id].buffer)
  {
    hide Received;
  }

  lemma {:induction false} SameAcks(s: State, h: History, c: Client, d: Client)
    requires FilterInv(s, h, c) && forall id :: Acked(d, id) == Acked(c, id)
    ensures FilterInv(s, h, d)
  {
    hide Received;
    assert forall id, i :: Live(s.oldBuffers, c, id, i) <==> Live(s.oldBuffers, d, id, i);
    FilterTransfer(s, c, d);
  }

  lemma {:induction false} FilterTransfer(s: State, c: Client, d: Client)
    requires FilterIsLive(s.filter, s.oldBuffers, c)
    requires forall id, i :: Live(s.oldBuffers, c, id, i) <==> Live(s.oldBuffers, d, id, i)
    ensures FilterIsLive(s.filter, s.oldBuffers, d)
  {
    hide Live;
  }

  // Acks for a buffer that is gone change nothing.
  lemma {:induction false} GoneBuffer(s: State, h: History, c: Client, d: Client, id: int)
    requires FilterInv(s, h, c) && id !in s.oldBuffers && Received(s, id)
    requires forall jd :: jd != id ==> Acked(d, jd) == Acked(c, jd)
    ensures FilterInv(s, h, d)
  {
    hide Received;
    assert forall jd, i :: Live(s.oldBuffers, c, jd, i) <==> Live(s.oldBuffers, d, jd, i);
    FilterTransfer(s, c, d);
  }

  function LiveSamples(buffer: seq<Sample>, acked: set<nat>, n: nat): set<Sample>
    requires n <= |buffer|
  {
    if n == 0 then {} else LiveSamples(buffer, acked, n - 1) + if n - 1 in acked then {} else {buffer[n - 1]}
  }

  lemma {:induction false} LiveMembers(buffer: seq<Sample>, acked: set<nat>, n: nat)
    requires n <= |buffer|
    ensures forall x :: x in LiveSamples(buffer, acked, n) <==> exists i :: 0 <= i < n && i !in acked && buffer[i] == x
  {
    if n > 0 { LiveMembers(buffer, acked, n - 1); }
  }

  lemma {:induction false} LiveSize(buffer: seq<Sample>, acked: set<nat>, n: nat)
    requires n <= |buffer| && Distinct(buffer) && forall i :: i in acked ==> i < n
    ensures |LiveSamples(buffer, acked, n)| == n - |acked|
  {
    if n == 0 {
      assert acked == {};
    } else {
      LiveSize(buffer, acked - {n - 1}, n - 1);
      LiveSame(buffer, acked, n - 1);
      LiveMembers(buffer, acked, n - 1);
      assert buffer[n - 1] !in LiveSamples(buffer, acked, n - 1);
    }
  }

  lemma {:induction false} LiveSame(buffer: seq<Sample>, acked: set<nat>, n: nat)
    requires n < |buffer|
    ensures LiveSamples(buffer, acked - {n}, n) == LiveSamples(buffer, acked, n)
  {
    LiveFrame(buffer, acked - {n}, acked, n);
  }

  lemma {:induction false} LiveFrame(buffer: seq<Sample>, a: set<nat>, b: set<nat>, n: nat)
    requires n <= |buffer| && forall i :: 0 <= i < n ==> (i in a <==> i in b)
    ensures LiveSamples(buffer, a, n) == LiveSamples(buffer, b, n)
  {
    if n > 0 { LiveFrame(buffer, a, b, n - 1); }
  }

  lemma {:induction false} SubsetEqual(a: set<Sample>, b: set<Sample>)
    requires a <= b && |a| == |b|
    ensures a == b
  {
    if a != b {
      var x :| x in b && x !in a;
      assert a <= b - {x};
      SubsetSize(a, b - {x});
    }
  }

  /** The fast path of ack_buffer: when a buffer has as many unacknowledged samples as
      the filter has elements, the filter holds nothing else, so clearing it is what
      the slow path does, and nothing is live in another buffer. */
  lemma {:induction false} FastPathIsSlowPath(s: State, h: History, c: Client, id: int)
    requires FilterInv(s, h, c) && id in s.oldBuffers && s.oldBuffers[id].unacked == |s.filter|
    ensures s.filter - Samples(s.oldBuffers[id]) == {}
    ensures forall jd, j :: Live(s.oldBuffers, c, jd, j) ==> jd == id
  {
    hide Received, BuffersMatch;
    BufferRecorded(s, h, c, id);
    var (p, acked) := (s.oldBuffers[id], Acked(c, id));
    var live := LiveSamples(p.buffer, acked, |p.buffer|);
    LiveSize(p.buffer, acked, |p.buffer|);
    LiveMembers(p.buffer, acked, |p.buffer|);
    forall x | x in live ensures x in s.filter {
      var i :| 0 <= i < |p.buffer| && i !in acked && p.buffer[i] == x;
      assert Live(s.oldBuffers, c, id, i) && SampleAt(s.oldBuffers, id, i) == x;
    }
    SubsetEqual(live, s.filter);
    forall jd, j | Live(s.oldBuffers, c, jd, j) ensures jd == id {
      var x := SampleAt(s.oldBuffers, jd, j);
      assert x in live;
      var i :| 0 <= i < |p.buffer| && i !in acked && p.buffer[i] == x;
      assert Live(s.oldBuffers, c, id, i) && SampleAt(s.oldBuffers, id, i) == x;
    }
  }

  /** A whole-buffer ack, by either path, leaves the filter of the live samples if and
      only if no sample of the buffer that was acknowledged before is live in another
      buffer. */
  lemma {:induction false} AckBufferIff(s: State, h: History, c: Client, id: int)
    requires FilterInv(s, h, c) && id in s.oldBuffers
    ensures FilterIsLive(AckBuffer(s, id).filter, AckBuffer(s, id).oldBuffers, c) <==>
            !AckedElsewhere(s.oldBuffers, c, id)
  {
    hide Received, BuffersMatch, FilterIsLive, Counts, AckedElsewhere;
    var p := s.oldBuffers[id];
    if p.unacked == |s.filter| { FastPathIsSlowPath(s, h, c, id); }
    EraseBuffer(s.filter, s.oldBuffers, c, id);
  }

  lemma {:induction false} EraseBuffer(filter: set<Sample>, old_: map<int, FilterPtrs>, c: Client, id: int)
    requires FilterIsLive(filter, old_, c) && id in old_
    ensures FilterIsLive(filter - Samples(old_[id]), old_ - {id}, c) <==> !AckedElsewhere(old_, c, id)
  {
    var (p, rest, kept) := (old_[id], filter - Samples(old_[id]), old_ - {id});
    assert forall jd, j :: Live(kept, c, jd, j) <==> Live(old_, c, jd, j) && jd != id;
    assert forall jd, j :: Live(kept, c, jd, j) ==> SampleAt(kept, jd, j) == SampleAt(old_, jd, j);
    if AckedElsewhere(old_, c, id) {
      var i, jd, j :| i in Acked(c, id) && i < |p.buffer| && jd != id && Live(old_, c, jd, j)
                   && SampleAt(old_, jd, j) == SampleAt(old_, id, i);
      assert Live(kept, c, jd, j) && SampleAt(kept, jd, j) in Samples(p);
    } else {
      forall jd, j | Live(kept, c, jd, j) ensures SampleAt(kept, jd, j) in rest {
        Untouched(filter, old_, c, id, jd, j);
      }
      forall y | y in rest ensures exists jd, j :: Live(kept, c, jd, j) && SampleAt(kept, jd, j) == y {
        var jd, j :| Live(old_, c, jd, j) && SampleAt(old_, jd, j) == y;
        assert Live(kept, c, jd, j) && SampleAt(kept, jd, j) == y;
      }
    }
  }

  lemma {:induction false} Untouched(filter: set<Sample>, old_: map<int, FilterPtrs>, c: Client, id: int, jd: int,
                                     j: nat)
    requires FilterIsLive(filter, old_, c) && id in old_ && jd != id && Live(old_, c, jd, j)
    requires !AckedElsewhere(old_, c, id)
    ensures SampleAt(old_, jd, j) in filter && SampleAt(old_, jd, j) !in Samples(old_[id])
  {
    var (x, p) := (SampleAt(old_, jd, j), old_[id]);
    forall i: nat | i < |p.buffer| ensures p.buffer[i] != x {
      assert SampleAt(old_, id, i) == p.buffer[i];
      assert i !in Acked(c, id) ==> Live(old_, c, id, i);
    }
  }

  lemma {:induction false} AckBufferKeeps(s: State, h: History, c: Client, id: int)
    requires FilterInv(s, h, c) && id in s.oldBuffers && id != s.bufferId && !AckedElsewhere(s.oldBuffers, c, id)
    ensures FilterInv(AckBuffer(s, id), h, c)
  {
    hide FilterIsLive, BuffersMatch, Received, AckedElsewhere;
    AckBufferIff(s, h, c, id);
    AckBufferMatch(s, h, c, id);
  }

  lemma {:induction false} AckBufferMatch(s: State, h: History, c: Client, id: int)
    requires BuffersMatch(s, h, c) && id != s.bufferId && id in s.oldBuffers
    ensures BuffersMatch(AckBuffer(s, id), h, c)
  {
    assert forall jd :: Received(s, jd) ==> Received(AckBuffer(s, id), jd);
  }

  /** The code holds iterators into the filter where the model holds samples, so it must
      not use one again after the sample is gone. This says that an ack does. */
  ghost predicate UsesErased(s: State, c: Client, a: Action) {
    match a
    case DoAck(id, ids) =>
      id in s.oldBuffers &&
        !(Distinct(ids) && forall i :: i in ids ==> i < |s.oldBuffers[id].buffer| && i !in Acked(c, id))
    case DoAckBuffer(id) => id in s.oldBuffers && s.oldBuffers[id].unacked != |s.filter| && Acked(c, id) != {}
    case _ => false
  }

  /** Acks of received messages that use no erased iterator are polite. */
  lemma {:induction false} DefinedIsPolite(s: State, h: History, c: Client, a: Action)
    requires FilterInv(s, h, c) && !UsesErased(s, c, a)
    requires (a.DoAck? || a.DoAckBuffer?) && a.id in s.oldBuffers ==> Received(s, a.id)
    ensures Polite(s, c, a)
  {
    hide Received, FilterInv;
    if a.DoAckBuffer? && a.id in s.oldBuffers && s.oldBuffers[a.id].unacked == |s.filter| {
      FastPathIsSlowPath(s, h, c, a.id);
    }
  }

  // ----- runs with polite clients -------------------------------------------

  function RunClient(maxSamples: nat, actions: seq<Action>): Client {
    if actions == [] then SILENT
    else
      var before := actions[..|actions| - 1];
      Note(Run(Init(maxSamples), before), RunClient(maxSamples, before), actions[|actions| - 1])
  }

  ghost predicate PoliteRun(maxSamples: nat, actions: seq<Action>) {
    forall k :: 0 <= k < |actions| ==>
      var (s, c) := (Run(Init(maxSamples), actions[..k]), RunClient(maxSamples, actions[..k]));
      (actions[k].DoAdd? ==> actions[k].x != []) && Polite(s, c, actions[k])
  }

  lemma {:induction false} StepKeepsFilter(s: State, h: History, c: Client, a: Action)
    requires ExactlyOnce(s, h) && FilterInv(s, h, c) && Polite(s, c, a) && (a.DoAdd? ==> a.x != [])
    ensures FilterInv(Apply(s, a), Record(s, h, a), Note(s, c, a))
  {
    hide ExactlyOnce, FilterInv, Accept, Accepted, SwapBuffers, Swapped, Recorded;
    match a
    case DoAdd(x) => if x !in s.filter { AddFilter(s, h, c, x); }
    case DoResume =>
      if s.blocked > 0 && s.bufferTmp == [] {
        var t := s.(blocked := s.blocked - 1);
        FilterFrame(s, t, h, h, c);
        BlockedIrrelevant(s, h, s.blocked - 1, s.maxSamples);
        SwapFilter(t, h, c);
      }
    case DoSetMax(n) =>
      var t := s.(maxSamples := n);
      FilterFrame(s, t, h, h, c);
      BlockedIrrelevant(s, h, s.blocked, n);
      FullFilter(t, h, c);
    case DoTake(t) => if CanTake(s, t) { TakeFilter(s, h, c, t); }
    case DoReadId => FilterFrame(s, ReadId(s), h, h, c);
    case DoSend => FilterFrame(s, Send(s), h, Record(s, h, a), c);
    case DoFinish => FilterFrame(s, Finish(s), h, h, c);
    case DoAck(id, ids) =>
      NotReceived(s, h);
      if id in s.oldBuffers {
        InvRecorded(s, h, c, id);
        AckAllKeeps(s, h, c, id, ids);
      }
    case DoAckBuffer(id) => NotReceived(s, h); if id in s.oldBuffers { AckBufferKeeps(s, h, c, id); }
  }

  lemma {:induction false} InvRecorded(s: State, h: History, c: Client, id: int)
    requires FilterInv(s, h, c) && id in s.oldBuffers
    ensures s.oldBuffers[id].buffer == Recorded(h, id)
  {
    hide FilterIsLive, Recorded;
  }

  lemma {:induction false} FullFilter(s: State, h: History, c: Client)
    requires ExactlyOnce(s, h) && FilterInv(s, h, c)
    ensures FilterInv(ProcessFull(s), FullSwap(s, h), c)
  {
    hide ExactlyOnce, FilterInv;
    if s.bufferTmp == [] { SwapFilter(s, h, c); } else { FilterFrame(s, ProcessFull(s), h, h, c); }
  }

  lemma {:induction false} AddFilter(s: State, h: History, c: Client, x: Sample)
    requires ExactlyOnce(s, h) && FilterInv(s, h, c) && x != [] && x !in s.filter
    ensures FilterInv(AddSample(s, x), Record(s, h, DoAdd(x)), c)
  {
    hide ExactlyOnce, FilterInv, Accept, Accepted, SwapBuffers, Swapped;
    AcceptLive(s, h, c, x);
    AcceptKeeps(s, h, x);
    FullFilter(Accept(s, x), Accepted(s, h, x), c);
  }

  lemma {:induction false} TakeFilter(s: State, h: History, c: Client, timeout: bool)
    requires ExactlyOnce(s, h) && FilterInv(s, h, c) && CanTake(s, timeout)
    ensures FilterInv(Take(s, timeout), FullSwap(s, h), c)
  {
    hide ExactlyOnce, FilterInv;
    if s.bufferTmp == [] {
      SwapFilter(s, h, c);
      FilterFrame(SwapBuffers(s), Take(s, timeout), Swapped(h), Swapped(h), c);
    } else {
      FilterFrame(s, Take(s, timeout), h, h, c);
    }
  }

  /** In every run with polite clients the filter is the disjoint union of all
      unacknowledged samples. */
  lemma {:induction false} FilterOfRun(maxSamples: nat, actions: seq<Action>)
    requires PoliteRun(maxSamples, actions)
    ensures ExactlyOnce(Run(Init(maxSamples), actions), RunHistory(Init(maxSamples), actions))
    ensures FilterInv(Run(Init(maxSamples), actions), RunHistory(Init(maxSamples), actions),
            RunClient(maxSamples, actions))
  {
    hide ExactlyOnce, FilterInv, Apply, Record, Polite, Note;
    if actions == [] {
      StartExactlyOnce(maxSamples);
      StartFilter(maxSamples);
    } else {
      var (before, n) := (actions[..|actions| - 1], |actions| - 1);
      assert forall k :: 0 <= k < n ==> before[..k] == actions[..k];
      FilterOfRun(maxSamples, before);
      assert actions[..n] == before;
      var (s, h) := (Run(Init(maxSamples), before), RunHistory(Init(maxSamples), before));
      StepKeepsExactlyOnce(s, h, actions[n]);
      StepKeepsFilter(s, h, RunClient(maxSamples, before), actions[n]);
    }
  }

  lemma {:induction false} StartFilter(maxSamples: nat)
    ensures FilterInv(Init(maxSamples), START, SILENT)
  {}

  // A run of two samples, their message, and a per-sample ack of the first.
  const BOTH := FilterPtrs(2, [[1], [2]])
  const SENT := State([], 0, 1, 2, [], 2, {[1], [2]}, map[0 := BOTH], 0, Waiting, [Message(0, 2, [1, 2])])
  const RELEARNT := State([1], 1, 1, 2, [], 2, {[1], [2]}, map[0 := BOTH.(unacked := 1), 1 := FilterPtrs(1, [[1]])],
                          0, Waiting, SENT.sent)

  lemma {:induction false} LearnTwo()
    ensures Apply(Apply(Init(2), DoAdd([1])), DoAdd([2])) == SENT.(bufferTmp := [1, 2], sent := [])
  {
    var s := Accept(Init(2), [1]);
    assert s.buffer == [1] && s.filter == {[1]} && s.oldBuffers[0].buffer == [[1]];
    assert s.oldBuffers == map[0 := FilterPtrs(1, [[1]])];
    var t := Accept(s, [2]);
    assert t.buffer == [1, 2] && t.filter == {[1], [2]} && t.oldBuffers[0].buffer == [[1], [2]];
    assert t.oldBuffers == map[0 := BOTH];
  }

  lemma {:induction false} AckFirst()
    ensures Apply(SENT, DoAck(0, [0])).(filter := {}) ==
            SENT.(oldBuffers := map[0 := BOTH.(unacked := 1)], filter := {})
    ensures Apply(SENT, DoAck(0, [0])).filter == {[2]}
  {
    var s := AckOne(SENT, 0, 0);
    assert s.filter == {[2]} && s.oldBuffers == map[0 := BOTH.(unacked := 1)];
    assert AckAll(SENT, 0, [0]) == AckAll(s, 0, []);
  }

  lemma {:induction false} Relearn(s: State)
    requires s.(filter := {}) == SENT.(oldBuffers := map[0 := BOTH.(unacked := 1)], filter := {}) && s.filter == {[2]}
    ensures Apply(s, DoAdd([1])) == RELEARNT
  {
    assert [1] !in {[2]} by { assert [1][0] != [2][0]; }
    var t := Accept(s, [1]);
    assert t.buffer == [1] && t.filter == {[1], [2]} && t.oldBuffers[1].buffer == [[1]];
    assert t.oldBuffers == RELEARNT.oldBuffers;
  }

  lemma {:induction false} SendBoth()
    ensures Apply(Apply(Apply(Apply(SENT.(bufferTmp := [1, 2], sent := []), DoTake(false)), DoReadId), DoSend),
            DoFinish) == SENT
  {
    assert [] + [Message(0, 2, [1, 2])] == SENT.sent;
  }

  lemma {:induction false} AckRelearnt()
    ensures var s := Apply(RELEARNT, DoAckBuffer(0));
            s.oldBuffers == map[1 := FilterPtrs(1, [[1]])] && [1] !in s.filter
  {
    assert [1] in Samples(RELEARNT.oldBuffers[0]) by { assert BOTH.buffer[0] == [1]; }
    assert RELEARNT.oldBuffers - {0} == map[1 := FilterPtrs(1, [[1]])];
  }

  lemma {:induction false} RunNone(s: State)
    ensures Run(s, []) == s
  {}

  lemma {:induction false} RunTwo(s: State, acts: seq<Action>, k: nat)
    requires k + 2 <= |acts|
    ensures Run(s, acts[..k + 2]) == Apply(Apply(Run(s, acts[..k]), acts[k]), acts[k + 1])
  {
    hide Apply;
    assert acts[..k + 2][..k + 1] == acts[..k + 1];
    assert acts[..k + 1][..k] == acts[..k];
  }

  /** Why clients must not mix acks: after a per-sample ack the sample can be learnt
      again in a later buffer, and a whole-buffer ack of the first buffer then takes
      it out of the filter although the later buffer is not acknowledged. */
  lemma {:induction false} MixedAcksLoseSample()
    ensures Run(Init(2),
            [DoAdd([1]), DoAdd([2]), DoTake(false), DoReadId, DoSend, DoFinish, DoAck(0, [0]), DoAdd([1])]) == RELEARNT
    ensures var s := Apply(RELEARNT, DoAckBuffer(0));
            s.oldBuffers == map[1 := FilterPtrs(1, [[1]])] && [1] !in s.filter
  {
    hide Apply, Run;
    RunNone(Init(2));
    LearnTwo();
    AckFirst();
    Relearn(Apply(SENT, DoAck(0, [0])));
    SendBoth();
    var acts := [DoAdd([1]), DoAdd([2]), DoTake(false), DoReadId, DoSend, DoFinish, DoAck(0, [0]), DoAdd([1])];
    RunTwo(Init(2), acts, 0);
    RunTwo(Init(2), acts, 2);
    RunTwo(Init(2), acts, 4);
    RunTwo(Init(2), acts, 6);
    assert acts[..8] == acts;
    AckRelearnt();
  }

  // ----- the object ---------------------------------------------------------

  class LearnList {
    var buffer: seq<int>
    var numSamples: nat
    var bufferId: nat
    var maxSamples: nat
    var bufferTmp: seq<int>
    var numSamplesTmp: nat
    var filter: set<Sample>
    var oldBuffers: map<int, FilterPtrs>
    ghost var blocked: nat
    ghost var phase: Phase
    ghost var sent: seq<Message>

    ghost function View(): State
      reads this
    {
      State(buffer, numSamples, bufferId, maxSamples, bufferTmp, numSamplesTmp,
            filter, oldBuffers, blocked, phase, sent)
    }

    constructor (maxSamples: nat)
      ensures View() == Init(maxSamples)
    {
      buffer, numSamples, bufferId, this.maxSamples := [], 0, 0, maxSamples;
      bufferTmp, numSamplesTmp, filter, oldBuffers := [], 0, {}, map[];
      blocked, phase, sent := 0, Waiting, [];
    }

    method Swap()
      modifies this
      ensures View() == SwapBuffers(old(View()))
    {
      bufferTmp, buffer := buffer, bufferTmp;
      numSamplesTmp := numSamples;
      numSamples := 0;
      bufferId := bufferId + 1;
    }

    /** process_full_buffer; a thread that has to wait is counted in `blocked`. */
    method FullBuffer()
      modifies this
      ensures View() == ProcessFull(old(View()))
    {
      if bufferTmp != [] {
        blocked := blocked + 1;
        return;
      }
      Swap();
    }

    /** A thread blocked in process_full_buffer is woken up. */
    method WakeUp()
      requires blocked > 0
      modifies this
      ensures View() == Resume(old(View()))
    {
      if bufferTmp != [] { return; }
      blocked := blocked - 1;
      Swap();
    }

    /** add_sample, for a sample that was built from the packet. */
    method Add(x: Sample)
      modifies this
      ensures View() == AddSample(old(View()), x)
    {
      if x in filter { return; }
      buffer := buffer + x;
      numSamples := numSamples + 1;
      filter := filter + {x};
      var ptrs := if bufferId in oldBuffers then oldBuffers[bufferId] else FilterPtrs(0, []);
      ptrs := ptrs.(unacked := ptrs.unacked + 1);
      ptrs := ptrs.(buffer := ptrs.buffer + [x]);
      oldBuffers := oldBuffers[bufferId := ptrs];
      if numSamples == 1 && maxSamples > 1 {
        // buffer_started is set and the transmit thread is woken up
      } else if numSamples >= maxSamples {
        FullBuffer();
      }
    }

    method SetMax(n: nat)
      modifies this
      ensures View() == SetMaxSamples(old(View()), n)
    {
      maxSamples := n;
      if numSamples > 0 && numSamples >= maxSamples { FullBuffer(); }
    }

    /** buffer_transmit from a test of its wait on; `timeout` says that the deadline of the
        filling buffer has passed. If not ready, the thread goes on waiting. */
    method TransmitBegin(timeout: bool) returns (ready: bool, toSend: nat)
      requires phase.Waiting?
      modifies this
      ensures View() == Take(old(View()), timeout)
      ensures ready <==> old(bufferTmp) != [] || (timeout && old(numSamples) > 0)
      ensures if ready then phase == Taken(toSend) else View() == old(View())
    {
      if bufferTmp == [] && (!timeout || numSamples == 0) { return false, 0; }
      ready := true;
      if bufferTmp == [] {
        toSend := numSamples;
        Swap();
      } else {
        toSend := numSamplesTmp;
      }
      phase := Taken(toSend);
    }

    // The next two run without the lock, so other steps may come between them.
    method TransmitHead(toSend: nat) returns (id: int)
      requires phase == Taken(toSend)
      modifies this
      ensures View() == ReadId(old(View())) && phase == Headed(toSend, id)
    {
      id := bufferId - 1;
      phase := Headed(toSend, id);
    }

    method TransmitSend(toSend: nat, id: int) returns (msg: Message)
      requires phase == Headed(toSend, id)
      modifies this
      ensures View() == Send(old(View())) && sent == old(sent) + [msg]
    {
      msg := Message(id, toSend, bufferTmp);
      sent, phase := sent + [msg], Done;
    }

    method TransmitEnd()
      requires phase.Done?
      modifies this
      ensures View() == Finish(old(View()))
    {
      bufferTmp := [];
      phase := Waiting;
    }

    /** ack of single samples. */
    method AckSamples(id: int, ids: seq<nat>)
      modifies this
      ensures View() == AckAll(old(View()), id, ids)
    {
      var k := 0;
      while k < |ids| && id in oldBuffers && ids[k] < |oldBuffers[id].buffer|
        invariant k <= |ids| && AckAll(View(), id, ids[k..]) == AckAll(old(View()), id, ids)
      {
        var ptrs := oldBuffers[id];
        filter := filter - {ptrs.buffer[ids[k]]};
        ptrs := ptrs.(unacked := ptrs.unacked - 1);
        if ptrs.unacked == 0 {
          oldBuffers := oldBuffers - {id};
        } else {
          oldBuffers := oldBuffers[id := ptrs];
        }
        assert ids[k..][1..] == ids[k + 1..];
        k := k + 1;
      }
    }

    /** ack_buffer, with its fast and its slow path. */
    method AckWhole(id: int)
      modifies this
      ensures View() == AckBuffer(old(View()), id)
    {
      if id !in oldBuffers { return; }
      var ptrs := oldBuffers[id];
      if ptrs.unacked == |filter| {
        filter := {};
      } else {
        EraseAll(ptrs.buffer);
      }
      oldBuffers := oldBuffers - {id};
    }

    method EraseAll(xs: seq<Sample>)
      modifies this`filter
      ensures filter == old(filter) - set x | x in xs
    {
      for k := 0 to |xs|
        invariant filter == old(filter) - set x | x in xs[..k]
      {
        filter := filter - {xs[k]};
        assert xs[..k + 1] == xs[..k] + [xs[k]];
      }
      assert xs[..|xs|] == xs;
    }
  }
}
