/**
 Any number of threads using one endpoint while producers push and close.

 A receive takes the lock, waits for its first message with the lock held, drains with the lock
 held, and releases. A stream's publish and getters go through the same lock. Every interleaving of
 these small steps is a run; `Run` gives the state a list of steps leads to.
 */
module Interleaving {
  import opened Base
  import opened Endpoints

  datatype Call =
    | ReceiveOne(nullOut: bool)
    | ReceiveMany(maxCount: i32, nullOut: bool)
    | Publish(data: seq<byte>)
    | Query

  datatype Reply =
    | Messages(ms: seq<Message>)
    | Ended
    | Accepted
    | Refused
    | NotConnected
    | Number(value: u64)

  /** Where a thread is. `start` is the endpoint at lock acquisition, `base` the source after the
      call's last use of it, `events` what the producers did since, and `groups` what they did before
      each earlier use. */
  datatype Phase =
    | Idle
    | Waiting(call: Call)
    | Holding(call: Call, start: EndpointState, events: seq<Event>)
    | Draining(call: Call, start: EndpointState, groups: seq<seq<Event>>,
               base: SourceState, events: seq<Event>, got: seq<Message>, left: nat)
    | Leaving(entry: Entry)

  /** A finished call. For a receive, `start`, `groups` and `end` say what it saw. */
  datatype Entry = Entry(thread: nat, call: Call, reply: Reply,
                         start: EndpointState, groups: seq<seq<Event>>, end: EndpointState)

  datatype State = State(threads: seq<Phase>, lock: Option<nat>, latched: bool, source: SourceState,
                         pushed: seq<Message>, sent: seq<seq<byte>>,
                         acquired: seq<nat>, log: seq<Entry>)

  datatype Step =
    | Enter(thread: nat, call: Call)
    | Acquire(thread: nat)
    | First(thread: nat)
    | Look(thread: nat)
    | Act(thread: nat, ok: bool, value: u64)
    | Release(thread: nat)
    | Produce(event: Event)

  // ---------------------------------------------------------------- the steps

  function Start(threads: nat): State {
    State(seq(threads, _ => Idle), None, false, SourceState([], false, []), [], [], [], [])
  }

  predicate Receives(call: Call) {
    call.ReceiveOne? || call.ReceiveMany?
  }

  function Limit(call: Call): nat {
    match call
    case ReceiveMany(n, _) => BatchLimit(n)
    case _ => 1
  }

  function EndpointOf(s: State): EndpointState {
    if s.latched then Latched else Open(s.source)
  }

  predicate Enabled(s: State, step: Step) {
    match step
    case Produce(_) => true
    case _ =>
      && step.thread < |s.threads|
      && var phase := s.threads[step.thread];
      match step
      case Enter(_, _) => phase.Idle?
      case Acquire(_) => phase.Waiting? && s.lock.None?
      case First(_) => phase.Holding? && Receives(phase.call) && (s.latched || Ready(s.source))
      case Look(_) => phase.Draining?
      case Act(_, _, _) => phase.Holding? && !Receives(phase.call)
      case _ => phase.Leaving?
  }

  function Observe(phase: Phase, event: Event): Phase {
    match phase
    case Holding(call, start, events) => Holding(call, start, events + [event])
    case Draining(call, start, groups, base, events, got, left) =>
      Draining(call, start, groups, base, events + [event], got, left)
    case _ => phase
  }

  /** A closed source accepts nothing, and a dropped one is closed. */
  function AfterProduce(s: State, event: Event): State {
    s.(source := Happen(s.source, event),
       pushed := if event.Push? && !s.source.closed then s.pushed + [event.message] else s.pushed,
       threads := if s.lock.Some? && s.lock.value < |s.threads|
                  then s.threads[s.lock.value := Observe(s.threads[s.lock.value], event)]
                  else s.threads)
  }

  function AfterFirst(s: State, t: nat): State
    requires Enabled(s, First(t))
  {
    var Holding(call, start, events) := s.threads[t];
    if s.latched then
      s.(threads := s.threads[t := Leaving(Entry(t, call, Ended, start, [events], Latched))])
    else if s.source.queue == [] then
      s.(latched := true,
         threads := s.threads[t := Leaving(Entry(t, call, Ended, start, [events], Latched))])
    else
      var m, rest := s.source.queue[0], s.source.(queue := s.source.queue[1..]);
      s.(source := rest,
         threads := s.threads[t :=
           if call.ReceiveOne?
           then Leaving(Entry(t, call, Messages([m]), start, [events], Open(rest)))
           else Draining(call, start, [events], rest, [], [m], Limit(call) - 1)])
  }

  function AfterLook(s: State, t: nat): State
    requires Enabled(s, Look(t))
  {
    var Draining(call, start, groups, base, events, got, left) := s.threads[t];
    if left == 0 then
      s.(threads := s.threads[t := Leaving(Entry(t, call, Messages(got), start, groups, Open(base)))])
    else if s.source.queue == [] then
      s.(threads := s.threads[t :=
           Leaving(Entry(t, call, Messages(got), start, groups + [events], Open(s.source)))])
    else
      var m, rest := s.source.queue[0], s.source.(queue := s.source.queue[1..]);
      s.(source := rest,
         threads := s.threads[t :=
           Draining(call, start, groups + [events], rest, [], got + [m], left - 1)])
  }

  /** A stream's publish, `ok` being the SDK's answer, and its getters, `value` being the SDK's. */
  function PublishReply(e: EndpointState, ok: bool): Reply {
    if e.Latched? then NotConnected else if ok then Accepted else Refused
  }

  function NumberReply(e: EndpointState, value: u64): (r: Reply)
    ensures r.Number?
  {
    if e.Latched? then Number(0) else Number(value)
  }

  function AfterAct(s: State, t: nat, ok: bool, value: u64): State
    requires Enabled(s, Act(t, ok, value))
  {
    var Holding(call, start, _) := s.threads[t];
    var reply := if call.Publish? then PublishReply(EndpointOf(s), ok) else NumberReply(EndpointOf(s), value);
    s.(sent := if reply.Accepted? then s.sent + [call.data] else s.sent,
       threads := s.threads[t := Leaving(Entry(t, call, reply, start, [], EndpointOf(s)))])
  }

  function After(s: State, step: Step): State
    requires Enabled(s, step)
  {
    match step
    case Produce(event) => AfterProduce(s, event)
    case Enter(t, call) => s.(threads := s.threads[t := Waiting(call)])
    case Acquire(t) =>
      s.(lock := Some(t), acquired := s.acquired + [t],
         threads := s.threads[t := Holding(s.threads[t].call, EndpointOf(s), [])])
    case First(t) => AfterFirst(s, t)
    case Look(t) => AfterLook(s, t)
    case Act(t, ok, value) => AfterAct(s, t, ok, value)
    case Release(t) =>
      s.(lock := None, log := s.log + [s.threads[t].entry], threads := s.threads[t := Idle])
  }

  /** The state after the steps, or None when one of them could not be taken. */
  function Run(s: State, steps: seq<Step>): Option<State>
    decreases steps
  {
    if steps == [] then Some(s)
    else if !Enabled(s, steps[0]) then None
    else Run(After(s, steps[0]), steps[1..])
  }

  // ---------------------------------------------------------------- what a state promises

  predicate Critical(phase: Phase) {
    phase.Holding? || phase.Draining? || phase.Leaving?
  }

  function ReplyMessages(reply: Reply): seq<Message> {
    if reply.Messages? then reply.ms else []
  }

  /** All messages taken by the finished calls, in the order of the log. */
  function Consumed(log: seq<Entry>): seq<Message> {
    if log == [] then []
    else Consumed(log[..|log| - 1]) + ReplyMessages(log[|log| - 1].reply)
  }

  function InHand(phase: Phase): seq<Message> {
    match phase
    case Draining(_, _, _, _, _, got, _) => got
    case Leaving(entry) => ReplyMessages(entry.reply)
    case _ => []
  }

  function HolderHand(s: State): seq<Message> {
    if s.lock.Some? && s.lock.value < |s.threads| then InHand(s.threads[s.lock.value]) else []
  }

  function Threads(log: seq<Entry>): seq<nat> {
    if log == [] then [] else Threads(log[..|log| - 1]) + [log[|log| - 1].thread]
  }

  function WithScript(e: EndpointState, script: seq<seq<Event>>): EndpointState {
    match e
    case Latched => Latched
    case Open(s) => Open(s.(script := script))
  }

  function BatchReply(ms: seq<Message>): Reply {
    if ms == [] then Ended else Messages(ms)
  }

  /** The entry is what the call would have returned, and left behind, running alone against a
      source with the recorded producer activity. */
  predicate Serial(entry: Entry) {
    match entry.call
    case ReceiveOne(_) =>
      var (m, e) := Recv(WithScript(entry.start, entry.groups));
      && entry.reply == (if m.Some? then Messages([m.value]) else Ended)
      && entry.end == e
    case ReceiveMany(n, _) =>
      var (ms, e) := RecvBatch(WithScript(entry.start, entry.groups), n);
      entry.reply == BatchReply(ms) && entry.end == e
    case Publish(_) =>
      if entry.start.Latched? then entry.reply == NotConnected
      else entry.reply == Accepted || entry.reply == Refused
    case Query => entry.reply.Number? && (entry.start.Latched? ==> entry.reply.value == 0)
  }

  /** The reply of a call that finds the endpoint latched. */
  function ClosedReply(call: Call): Reply {
    if Receives(call) then Ended else if call.Publish? then NotConnected else Number(0)
  }

  /** The messages taken, and the source left, by one successful use of the source per group. */
  function Taken(start: SourceState, groups: seq<seq<Event>>): (seq<Message>, SourceState)
    decreases groups
  {
    if groups == [] then ([], start)
    else
      var last := |groups| - 1;
      var (ms, s) := Taken(start, groups[..last]);
      var (m, t) := TakeHead(HappenAll(s, groups[last]));
      (if m.Some? then ms + [m.value] else ms, t)
  }

  ghost predicate PhaseOk(s: State, phase: Phase) {
    match phase
    case Holding(call, start, events) =>
      if s.latched then start == Latched
      else start.Open? && start.source.script == [] && HappenAll(start.source, events) == s.source
    case Draining(call, start, groups, base, events, got, left) =>
      && !s.latched && call.ReceiveMany? && start.Open? && start.source.script == []
      && |got| == |groups| >= 1 && |got| + left == Limit(call)
      && Taken(start.source, groups) == (got, base)
      && base.script == [] && HappenAll(base, events) == s.source
    case Leaving(entry) =>
      && Serial(entry)
      && (s.latched ==> entry.reply == ClosedReply(entry.call))
      && (entry.reply.Ended? ==> s.latched)
    case _ => true
  }

  /** Each finished call is serial, and after one that found the end only closed replies follow. */
  ghost predicate LogOk(s: State, log: seq<Entry>) {
    && (forall i | 0 <= i < |log| :: Serial(log[i]))
    && (forall i | 0 <= i < |log| && log[i].reply.Ended? :: s.latched)
    && (forall i, j | 0 <= i < j < |log| && log[i].reply.Ended? ::
          log[j].reply == ClosedReply(log[j].call))
  }

  ghost predicate Inv(s: State) {
    && (forall t | 0 <= t < |s.threads| :: Critical(s.threads[t]) <==> s.lock == Some(t))
    && (s.lock.Some? ==> s.lock.value < |s.threads|)
    && (forall t | 0 <= t < |s.threads| :: PhaseOk(s, s.threads[t]))
    && (forall t | 0 <= t < |s.threads| && s.threads[t].Leaving? :: s.threads[t].entry.thread == t)
    && s.source.script == []
    && (s.latched ==> s.source.closed && s.source.queue == [])
    && Consumed(s.log) + HolderHand(s) + s.source.queue == s.pushed
    && s.acquired == Threads(s.log) + (if s.lock.Some? then [s.lock.value] else [])
    && LogOk(s, s.log)
  }

  // ---------------------------------------------------------------- every step keeps it

  lemma {:induction false} HappenAllAppend(s: SourceState, events: seq<Event>, event: Event)
    ensures HappenAll(s, events + [event]) == Happen(HappenAll(s, events), event)
    decreases events
  {
    if events == [] {
      assert events + [event] == [event];
    } else {
      assert (events + [event])[1..] == events[1..] + [event];
      HappenAllAppend(Happen(s, events[0]), events[1..], event);
    }
  }

  lemma {:induction false} HappenAllIgnoresScript(s: SourceState, script: seq<seq<Event>>, events: seq<Event>)
    ensures HappenAll(s.(script := script), events) == HappenAll(s, events).(script := script)
    decreases events
  {
    if events != [] {
      HappenAllIgnoresScript(Happen(s, events[0]), script, events[1..]);
    }
  }

  /** A group at the front of the script is what happens before the next use of the source. */
  lemma TickTakesGroup(s: SourceState, events: seq<Event>, rest: seq<seq<Event>>)
    ensures Tick(s.(script := [events] + rest)) == HappenAll(s, events).(script := rest)
  {
    var script := [events] + rest;
    assert script[0] == events && script[1..] == rest;
    HappenAllIgnoresScript(s, rest, events);
  }

  lemma AppendToLog(log: seq<Entry>, entry: Entry)
    ensures Consumed(log + [entry]) == Consumed(log) + ReplyMessages(entry.reply)
    ensures Threads(log + [entry]) == Threads(log) + [entry.thread]
  {
    assert (log + [entry])[..|log|] == log;
  }

  lemma ProduceKeepsInv(s: State, event: Event)
    requires Inv(s)
    ensures Inv(AfterProduce(s, event))
  {
    var r := AfterProduce(s, event);
    if s.lock.Some? {
      var t := s.lock.value;
      match s.threads[t] {
        case Holding(_, start, events) =>
          if start.Open? {
            HappenAllAppend(start.source, events, event);
          }
        case Draining(_, _, _, base, events, _, _) =>
          HappenAllAppend(base, events, event);
        case _ =>
      }
    }
    forall t | 0 <= t < |r.threads| ensures PhaseOk(r, r.threads[t]) {
      assert PhaseOk(s, s.threads[t]);
    }
  }

  lemma EnterKeepsInv(s: State, t: nat, call: Call)
    requires Inv(s) && Enabled(s, Enter(t, call))
    ensures Inv(After(s, Enter(t, call)))
  {
  }

  lemma AcquireKeepsInv(s: State, t: nat)
    requires Inv(s) && Enabled(s, Acquire(t))
    ensures Inv(After(s, Acquire(t)))
  {
    assert Threads(s.log) + [] == Threads(s.log);
  }

  lemma LogGrows(s: State, entry: Entry)
    requires LogOk(s, s.log) && PhaseOk(s, Leaving(entry))
    ensures LogOk(s, s.log + [entry])
  {
  }

  lemma ReleaseKeepsInv(s: State, t: nat)
    requires Inv(s) && Enabled(s, Release(t))
    ensures Inv(After(s, Release(t)))
  {
    var r := After(s, Release(t));
    var entry := s.threads[t].entry;
    assert PhaseOk(s, s.threads[t]);
    LogGrows(s, entry);
    AppendToLog(s.log, entry);
    assert HolderHand(s) == ReplyMessages(entry.reply);
    assert Consumed(r.log) + [] == Consumed(r.log) && Threads(r.log) + [] == Threads(r.log);
    forall u | 0 <= u < |r.threads| ensures PhaseOk(r, r.threads[u]) {
      assert u != t ==> !Critical(s.threads[u]);
    }
  }

  lemma ActKeepsInv(s: State, t: nat, ok: bool, value: u64)
    requires Inv(s) && Enabled(s, Act(t, ok, value))
    ensures Inv(After(s, Act(t, ok, value)))
  {
    assert PhaseOk(s, s.threads[t]);
  }

  /** What the first use of the source does to the call running alone on the recorded activity. */
  lemma FirstIsSerial(start: SourceState, events: seq<Event>, rest: seq<seq<Event>>)
    requires start.script == [] && Ready(HappenAll(start, events))
    ensures SourceRecv(start.(script := [events] + rest))
         == TakeHead(HappenAll(start, events).(script := rest))
  {
    TickTakesGroup(start, events, rest);
  }

  lemma TakenFirst(start: SourceState, events: seq<Event>)
    ensures var (m, t) := TakeHead(HappenAll(start, events));
      Taken(start, [events]) == (if m.Some? then [m.value] else [], t)
  {
    var groups := [events];
    assert groups[..0] == [] && groups[0] == events;
    assert Taken(start, groups[..0]) == ([], start);
    var (m, t) := TakeHead(HappenAll(start, events));
    if m.Some? {
      assert [] + [m.value] == [m.value];
    }
  }

  lemma FirstPhaseOk(s: State, t: nat)
    requires Inv(s) && Enabled(s, First(t))
    ensures PhaseOk(AfterFirst(s, t), AfterFirst(s, t).threads[t])
  {
    assert PhaseOk(s, s.threads[t]);
    if !s.latched {
      var Holding(call, start, events) := s.threads[t];
      FirstIsSerial(start.source, events, []);
      assert [events] + [] == [events];
      TakenFirst(start.source, events);
    }
  }

  /** A thread outside the critical section does not care what the holder `t` does. */
  lemma OthersStayOk(s: State, r: State, t: nat)
    requires Inv(s) && s.lock == Some(t)
    requires |r.threads| == |s.threads| && r.threads == s.threads[t := r.threads[t]]
    ensures forall u | 0 <= u < |r.threads| && u != t :: PhaseOk(r, r.threads[u]) && !Critical(r.threads[u])
  {
    forall u | 0 <= u < |r.threads| && u != t ensures PhaseOk(r, r.threads[u]) && !Critical(r.threads[u]) {
      assert !Critical(s.threads[u]);
    }
  }

  /** One round of the draining loop, with a message waiting, seen through the recursion. */
  lemma DrainRound(base: SourceState, events: seq<Event>, rest: seq<seq<Event>>, left: nat)
    requires base.script == [] && left > 0 && HappenAll(base, events).queue != []
    ensures var now := HappenAll(base, events);
      var (ms, u) := Drain(now.(queue := now.queue[1..], script := rest), left - 1);
      Drain(base.(script := [events] + rest), left) == ([now.queue[0]] + ms, u)
  {
    TickTakesGroup(base, events, rest);
  }

  /** The whole batch, run alone, is what is already taken followed by a drain of the source that
      is left. */
  lemma {:induction false} BatchContinues(start: SourceState, groups: seq<seq<Event>>, n: i32,
                                          got: seq<Message>, base: SourceState, rest: seq<seq<Event>>)
    requires start.script == [] && Taken(start, groups) == (got, base)
    requires 1 <= |got| == |groups| <= BatchLimit(n)
    ensures base.script == []
    ensures var (ms, u) := Drain(base.(script := rest), BatchLimit(n) - |got|);
      RecvBatch(Open(start.(script := groups + rest)), n) == (got + ms, Open(u))
    decreases groups
  {
    var last := |groups| - 1;
    var init, events := groups[..last], groups[last];
    var (ms, s) := Taken(start, init);
    TakenAtMost(start, init);
    assert groups == init + [events];
    ConcatAssociative(init, [events], rest);
    if last == 0 {
      assert groups == [events];
      TakenFirst(start, events);
      FirstIsSerial(start, events, rest);
    } else {
      BatchContinues(start, init, n, ms, s, [events] + rest);
      DrainRound(s, events, rest, BatchLimit(n) - |ms|);
      ConcatAssociative(ms, [got[last]], Drain(base.(script := rest), BatchLimit(n) - |got|).0);
    }
  }

  lemma {:induction false} TakenAtMost(start: SourceState, groups: seq<seq<Event>>)
    ensures |Taken(start, groups).0| <= |groups|
    decreases groups
  {
    if groups != [] {
      TakenAtMost(start, groups[..|groups| - 1]);
    }
  }

  /** Leaving the loop, the batch being full or the queue found empty. */
  lemma LookFinishes(start: SourceState, groups: seq<seq<Event>>, n: i32,
                     base: SourceState, events: seq<Event>, got: seq<Message>)
    requires start.script == [] && Taken(start, groups) == (got, base)
    requires 1 <= |got| == |groups| <= BatchLimit(n)
    ensures |got| == BatchLimit(n) ==>
      RecvBatch(Open(start.(script := groups)), n) == (got, Open(base))
    ensures |got| < BatchLimit(n) && HappenAll(base, events).queue == [] ==>
      RecvBatch(Open(start.(script := groups + [events])), n) == (got, Open(HappenAll(base, events)))
  {
    assert got + [] == got;
    if |got| == BatchLimit(n) {
      BatchContinues(start, groups, n, got, base, []);
      assert groups + [] == groups;
    } else if HappenAll(base, events).queue == [] {
      BatchContinues(start, groups, n, got, base, [events]);
      TickTakesGroup(base, events, []);
      assert [events] + [] == [events];
    }
  }

  lemma LookPhaseOk(s: State, t: nat)
    requires Inv(s) && Enabled(s, Look(t))
    ensures PhaseOk(AfterLook(s, t), AfterLook(s, t).threads[t])
  {
    var Draining(call, start, groups, base, events, got, left) := s.threads[t];
    assert PhaseOk(s, s.threads[t]);
    var r := AfterLook(s, t);
    if left == 0 || s.source.queue == [] {
      LookFinishes(start.source, groups, call.maxCount, base, events, got);
      BatchEntryOk(r, r.threads[t].entry, got);
    } else {
      assert (groups + [events])[..|groups|] == groups;
    }
  }

  lemma BatchEntryOk(s: State, entry: Entry, got: seq<Message>)
    requires !s.latched && entry.call.ReceiveMany? && got != [] && entry.reply == Messages(got)
    requires RecvBatch(WithScript(entry.start, entry.groups), entry.call.maxCount) == (got, entry.end)
    ensures PhaseOk(s, Leaving(entry))
  {
  }

  /** The invariant after a step by the lock holder, from what the step does to the holder's own
      phase, the source and the latch. */
  lemma HolderStepKeepsInv(s: State, r: State, t: nat)
    requires Inv(s) && s.lock == Some(t)
    requires |r.threads| == |s.threads| && r.threads == s.threads[t := r.threads[t]]
    requires r == s.(threads := r.threads, latched := r.latched, source := r.source, sent := r.sent)
    requires Critical(r.threads[t]) && PhaseOk(r, r.threads[t])
    requires r.threads[t].Leaving? ==> r.threads[t].entry.thread == t
    requires InHand(s.threads[t]) + s.source.queue == InHand(r.threads[t]) + r.source.queue
    requires r.source.script == [] && (s.latched ==> r.latched)
    requires r.latched ==> r.source.closed && r.source.queue == []
    ensures Inv(r)
  {
    OthersStayOk(s, r, t);
    var before, hand, hand' := Consumed(s.log), InHand(s.threads[t]), InHand(r.threads[t]);
    ConcatAssociative(before, hand, s.source.queue);
    ConcatAssociative(before, hand', r.source.queue);
  }

  lemma FirstKeepsInv(s: State, t: nat)
    requires Inv(s) && Enabled(s, First(t))
    ensures Inv(After(s, First(t)))
  {
    FirstPhaseOk(s, t);
    HolderStepKeepsInv(s, AfterFirst(s, t), t);
  }

  lemma LookKeepsInv(s: State, t: nat)
    requires Inv(s) && Enabled(s, Look(t))
    ensures Inv(After(s, Look(t)))
  {
    assert PhaseOk(s, s.threads[t]);
    LookPhaseOk(s, t);
    HolderStepKeepsInv(s, AfterLook(s, t), t);
  }

  lemma StepKeepsInv(s: State, step: Step)
    requires Inv(s) && Enabled(s, step)
    ensures Inv(After(s, step))
  {
    match step
    case Produce(event) => ProduceKeepsInv(s, event);
    case Enter(t, call) => EnterKeepsInv(s, t, call);
    case Acquire(t) => AcquireKeepsInv(s, t);
    case First(t) => FirstKeepsInv(s, t);
    case Look(t) => LookKeepsInv(s, t);
    case Act(t, ok, value) => ActKeepsInv(s, t, ok, value);
    case Release(t) => ReleaseKeepsInv(s, t);
  }

  lemma {:induction false} RunKeepsInv(s: State, steps: seq<Step>)
    requires Inv(s) && Run(s, steps).Some?
    ensures Inv(Run(s, steps).value)
    decreases steps
  {
    if steps != [] {
      StepKeepsInv(s, steps[0]);
      RunKeepsInv(After(s, steps[0]), steps[1..]);
    }
  }
}
