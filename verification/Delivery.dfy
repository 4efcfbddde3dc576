/** What holds in every interleaving of the endpoint's users and its producers. */
module Delivery {
  import opened Base
  import opened Endpoints
  import opened Interleaving

  // ---------------------------------------------------------------- order and completeness

  /** The messages pushed before the source is closed. */
  function AcceptedPushes(steps: seq<Step>): seq<Message> {
    if steps == [] || steps[0] == Produce(Close) then []
    else (if steps[0].Produce? then [steps[0].event.message] else []) + AcceptedPushes(steps[1..])
  }

  lemma StepPushes(s: State, step: Step)
    requires Enabled(s, step)
    ensures After(s, step).source.closed == (s.source.closed || step == Produce(Close))
    ensures After(s, step).pushed == s.pushed +
      (if step.Produce? && step.event.Push? && !s.source.closed then [step.event.message] else [])
  {
  }

  lemma {:induction false} PushedIsAccepted(s: State, steps: seq<Step>)
    requires Run(s, steps).Some?
    ensures Run(s, steps).value.pushed
         == s.pushed + (if s.source.closed then [] else AcceptedPushes(steps))
    decreases steps
  {
    if steps != [] {
      var next := After(s, steps[0]);
      StepPushes(s, steps[0]);
      PushedIsAccepted(next, steps[1..]);
      if !s.source.closed && steps[0] != Produce(Close) {
        var pushed := if steps[0].Produce? then [steps[0].event.message] else [];
        assert next.pushed == s.pushed + pushed;
        ConcatAssociative(s.pushed, pushed, AcceptedPushes(steps[1..]));
      }
    }
  }

  lemma StartIsOk(threads: nat)
    ensures Inv(Start(threads))
  {
  }

  /** The messages of entry `i` are the piece of `all` right after those of the entries before it. */
  predicate InPlace(log: seq<Entry>, i: nat, all: seq<Message>)
    requires i < |log|
  {
    var from, ms := |Consumed(log[..i])|, ReplyMessages(log[i].reply);
    from + |ms| <= |all| && all[from..from + |ms|] == ms
  }

  lemma {:induction false} ConsumedSegments(log: seq<Entry>, i: nat)
    requires i < |log|
    ensures InPlace(log, i, Consumed(log))
    decreases log
  {
    var last := |log| - 1;
    var init := log[..last];
    if i == last {
    } else {
      ConsumedSegments(init, i);
      assert init[..i] == log[..i];
      assert Consumed(init) <= Consumed(log);
    }
  }

  lemma ReachableIsOk(threads: nat, steps: seq<Step>, s: State)
    requires Run(Start(threads), steps) == Some(s)
    ensures Inv(s)
  {
    StartIsOk(threads);
    RunKeepsInv(Start(threads), steps);
  }

  lemma Ledger(threads: nat, steps: seq<Step>, s: State)
    requires Run(Start(threads), steps) == Some(s)
    ensures Consumed(s.log) + HolderHand(s) + s.source.queue == AcceptedPushes(steps)
    ensures s.acquired == Threads(s.log) + (if s.lock.Some? then [s.lock.value] else [])
  {
    ReachableIsOk(threads, steps, s);
    PushedIsAccepted(Start(threads), steps);
    assert [] + AcceptedPushes(steps) == AcceptedPushes(steps);
  }

  /** Whatever the interleaving: the results in the order in which the lock was taken, then what the
      present holder has in hand, then the queue, are exactly what was pushed before the close, in
      order. So each batch is a contiguous piece of it and none overlaps another. */
  lemma InOrderWithoutLossOrDuplication(threads: nat, steps: seq<Step>, s: State)
    requires Run(Start(threads), steps) == Some(s)
    ensures Consumed(s.log) + HolderHand(s) + s.source.queue == AcceptedPushes(steps)
    ensures s.acquired == Threads(s.log) + (if s.lock.Some? then [s.lock.value] else [])
    ensures forall i | 0 <= i < |s.log| :: InPlace(s.log, i, AcceptedPushes(steps))
  {
    Ledger(threads, steps, s);
    ConcatAssociative(Consumed(s.log), HolderHand(s), s.source.queue);
    SegmentsOf(s.log, HolderHand(s) + s.source.queue, AcceptedPushes(steps));
  }

  lemma SegmentsOf(log: seq<Entry>, rest: seq<Message>, all: seq<Message>)
    requires Consumed(log) + rest == all
    ensures forall i | 0 <= i < |log| :: InPlace(log, i, all)
  {
    forall i | 0 <= i < |log| ensures InPlace(log, i, all) {
      ConsumedSegments(log, i);
      InPlaceExtends(log, i, Consumed(log), rest);
    }
  }

  lemma InPlaceExtends(log: seq<Entry>, i: nat, all: seq<Message>, rest: seq<Message>)
    requires i < |log| && InPlace(log, i, all)
    ensures InPlace(log, i, all + rest)
  {
    var from, ms := |Consumed(log[..i])|, ReplyMessages(log[i].reply);
    assert (all + rest)[from..from + |ms|] == all[from..from + |ms|];
  }

  /** What the caller of an entry gets to see: a null out pointer drops the messages, although the
      call took them and reports success. */
  function Seen(entry: Entry): seq<Message> {
    if Receives(entry.call) && !entry.call.nullOut then ReplyMessages(entry.reply) else []
  }

  function AllSeen(log: seq<Entry>): seq<Message> {
    if log == [] then [] else AllSeen(log[..|log| - 1]) + Seen(log[|log| - 1])
  }

  predicate Drops(entry: Entry) {
    entry.reply.Messages? && Receives(entry.call) && entry.call.nullOut
  }

  /** The callers together see everything that was taken exactly when no call that took messages had
      a null out pointer. */
  lemma SeenIffNoNullOut(threads: nat, steps: seq<Step>, s: State)
    requires Run(Start(threads), steps) == Some(s)
    ensures AllSeen(s.log) == Consumed(s.log) <==> forall i | 0 <= i < |s.log| :: !Drops(s.log[i])
  {
    ReachableIsOk(threads, steps, s);
    forall i | 0 <= i < |s.log| && s.log[i].reply.Messages? ensures ReplyWithinLimit(s.log[i]) {
      SerialBounds(s.log[i]);
    }
    SeenCount(s.log);
  }

  predicate ReplyWithinLimit(entry: Entry) {
    Receives(entry.call) && 1 <= |ReplyMessages(entry.reply)| <= Limit(entry.call)
  }

  lemma SerialBounds(entry: Entry)
    requires Serial(entry) && entry.reply.Messages?
    ensures ReplyWithinLimit(entry)
  {
    if entry.call.ReceiveMany? {
      BatchIsIteratedRecv(WithScript(entry.start, entry.groups), entry.call.maxCount);
    }
  }

  lemma {:induction false} SeenCount(log: seq<Entry>)
    requires forall i | 0 <= i < |log| && log[i].reply.Messages? :: ReplyWithinLimit(log[i])
    ensures |AllSeen(log)| <= |Consumed(log)|
    ensures if forall i | 0 <= i < |log| :: !Drops(log[i]) then AllSeen(log) == Consumed(log)
            else |AllSeen(log)| < |Consumed(log)|
    decreases log
  {
    if log != [] {
      var last := |log| - 1;
      var init := log[..last];
      SeenCount(init);
      assert forall i | 0 <= i < last :: init[i] == log[i];
      assert Drops(log[last]) || Seen(log[last]) == ReplyMessages(log[last].reply);
    }
  }

  // ---------------------------------------------------------------- each call, taken alone

  /** Every finished batch of every interleaving is a run of single receives on the source it found,
      with the producers' activity it witnessed: as many as it has messages, one if it has none. The
      source left behind is theirs too, after one more look if the batch ended on an empty queue. */
  lemma EveryBatchIsIteratedRecv(threads: nat, steps: seq<Step>, s: State, i: nat)
    requires Run(Start(threads), steps) == Some(s)
    requires i < |s.log| && s.log[i].call.ReceiveMany?
    ensures var e := WithScript(s.log[i].start, s.log[i].groups);
      var ms := ReplyMessages(s.log[i].reply);
      && (s.log[i].reply == Ended <==> s.log[i].end == Latched)
      && (s.log[i].reply == Ended ==> Recv(e) == (None, Latched))
      && (s.log[i].reply != Ended ==>
            1 <= |ms| <= BatchLimit(s.log[i].call.maxCount) && Iterate(e, |ms|).0 == ms)
      && (|ms| == BatchLimit(s.log[i].call.maxCount) ==> Iterate(e, |ms|).1 == s.log[i].end)
      && (0 < |ms| < BatchLimit(s.log[i].call.maxCount) ==>
            && Iterate(e, |ms|).1.Open?
            && s.log[i].end == Open(Tick(Iterate(e, |ms|).1.source))
            && s.log[i].end.source.queue == [])
  {
    ReachableIsOk(threads, steps, s);
    BatchIsIteratedRecv(WithScript(s.log[i].start, s.log[i].groups), s.log[i].call.maxCount);
  }

  // ---------------------------------------------------------------- publishing and the getters

  /** A publish or a getter as it was answered. */
  datatype Answered = Answered(thread: nat, call: Call, reply: Reply)

  /** The answer that a step by the lock holder gives: none on the latched endpoint, else the SDK's. */
  function StepAnswer(s: State, step: Step): seq<Answered>
    requires Enabled(s, step)
  {
    match step
    case Act(t, ok, value) =>
      var call := s.threads[t].call;
      [Answered(t, call, if call.Publish? then (if s.latched then NotConnected else if ok then Accepted else Refused)
                         else Number(if s.latched then 0 else value))]
    case _ => []
  }

  function StepAnswers(s: State, steps: seq<Step>): seq<Answered>
    requires Run(s, steps).Some?
    decreases steps
  {
    if steps == [] then []
    else StepAnswer(s, steps[0]) + StepAnswers(After(s, steps[0]), steps[1..])
  }

  function EntryAnswer(entry: Entry): seq<Answered> {
    if Receives(entry.call) then [] else [Answered(entry.thread, entry.call, entry.reply)]
  }

  function LogAnswers(log: seq<Entry>): seq<Answered> {
    if log == [] then [] else LogAnswers(log[..|log| - 1]) + EntryAnswer(log[|log| - 1])
  }

  /** The answer that the lock holder is about to leave with. */
  function HolderAnswer(s: State): seq<Answered> {
    if s.lock.Some? && s.lock.value < |s.threads| && s.threads[s.lock.value].Leaving?
    then EntryAnswer(s.threads[s.lock.value].entry) else []
  }

  /** The data of the accepted publishes. */
  function AcceptedData(answers: seq<Answered>): seq<seq<byte>> {
    if answers == [] then []
    else
      var last := answers[|answers| - 1];
      AcceptedData(answers[..|answers| - 1])
        + (if last.call.Publish? && last.reply == Accepted then [last.call.data] else [])
  }

  ghost predicate AnswersOk(s: State, past: seq<Answered>) {
    LogAnswers(s.log) + HolderAnswer(s) == past && s.sent == AcceptedData(past)
  }

  /** Who holds the lock, the part of the invariant that the answers depend on. */
  ghost predicate Owned(s: State) {
    && (forall t | 0 <= t < |s.threads| :: Critical(s.threads[t]) <==> s.lock == Some(t))
    && (forall t | 0 <= t < |s.threads| && s.threads[t].Leaving? :: s.threads[t].entry.thread == t)
    && (forall t | 0 <= t < |s.threads| && s.threads[t].Draining? :: Receives(s.threads[t].call))
  }

  lemma AnswerAppended(log: seq<Entry>, entry: Entry)
    ensures LogAnswers(log + [entry]) == LogAnswers(log) + EntryAnswer(entry)
  {
    assert (log + [entry])[..|log|] == log;
  }

  lemma DataAppended(answers: seq<Answered>, last: Answered)
    ensures AcceptedData(answers + [last])
         == AcceptedData(answers) + (if last.call.Publish? && last.reply == Accepted then [last.call.data] else [])
  {
    assert (answers + [last])[..|answers|] == answers;
  }

  lemma ActKeepsAnswers(s: State, t: nat, ok: bool, value: u64, past: seq<Answered>)
    requires Owned(s) && Enabled(s, Act(t, ok, value)) && AnswersOk(s, past)
    ensures AnswersOk(After(s, Act(t, ok, value)), past + StepAnswer(s, Act(t, ok, value)))
  {
    assert Critical(s.threads[t]) && s.lock == Some(t);
    var answer := StepAnswer(s, Act(t, ok, value))[0];
    DataAppended(past, answer);
    assert LogAnswers(s.log) + [] == LogAnswers(s.log);
  }

  lemma ReleaseKeepsAnswers(s: State, t: nat, past: seq<Answered>)
    requires Owned(s) && Enabled(s, Release(t)) && AnswersOk(s, past)
    ensures AnswersOk(After(s, Release(t)), past)
  {
    assert Critical(s.threads[t]) && s.lock == Some(t);
    AnswerAppended(s.log, s.threads[t].entry);
    assert past + [] == past;
  }

  lemma OtherStepsKeepAnswers(s: State, step: Step, past: seq<Answered>)
    requires Owned(s) && Enabled(s, step) && AnswersOk(s, past) && !step.Act? && !step.Release?
    ensures AnswersOk(After(s, step), past)
  {
    if !step.Produce? {
      assert Critical(s.threads[step.thread]) <==> s.lock == Some(step.thread);
    }
    var r := After(s, step);
    assert r.log == s.log && r.sent == s.sent;
    assert HolderAnswer(r) == HolderAnswer(s);
  }

  lemma StepKeepsAnswers(s: State, step: Step, past: seq<Answered>)
    requires Owned(s) && Enabled(s, step) && AnswersOk(s, past)
    ensures AnswersOk(After(s, step), past + StepAnswer(s, step))
  {
    if step.Act? {
      ActKeepsAnswers(s, step.thread, step.ok, step.value, past);
    } else {
      assert past + [] == past;
      if step.Release? {
        ReleaseKeepsAnswers(s, step.thread, past);
      } else {
        OtherStepsKeepAnswers(s, step, past);
      }
    }
  }

  lemma InvMeansOwned(s: State)
    requires Inv(s)
    ensures Owned(s)
  {
    assert forall t | 0 <= t < |s.threads| :: PhaseOk(s, s.threads[t]);
  }

  lemma {:induction false} RunKeepsAnswers(s: State, steps: seq<Step>, past: seq<Answered>)
    requires Inv(s) && Run(s, steps).Some? && AnswersOk(s, past)
    ensures AnswersOk(Run(s, steps).value, past + StepAnswers(s, steps))
    decreases steps
  {
    if steps == [] {
      assert past + [] == past;
    } else {
      InvMeansOwned(s);
      StepKeepsInv(s, steps[0]);
      StepKeepsAnswers(s, steps[0], past);
      var next := After(s, steps[0]);
      RunKeepsAnswers(next, steps[1..], past + StepAnswer(s, steps[0]));
      ConcatAssociative(past, StepAnswer(s, steps[0]), StepAnswers(next, steps[1..]));
    }
  }

  /** Whatever the interleaving: the publishes and getters in the log, then the present holder's, are
      answered as their turn at the SDK was, in that order, and what was sent is exactly the data of the
      accepted publishes, in the order in which the lock was taken. */
  lemma SentIsWhatWasAccepted(threads: nat, steps: seq<Step>, s: State)
    requires Run(Start(threads), steps) == Some(s)
    ensures LogAnswers(s.log) + HolderAnswer(s) == StepAnswers(Start(threads), steps)
    ensures s.sent == AcceptedData(LogAnswers(s.log) + HolderAnswer(s))
  {
    StartIsOk(threads);
    RunKeepsAnswers(Start(threads), steps, []);
    assert [] + StepAnswers(Start(threads), steps) == StepAnswers(Start(threads), steps);
  }

  // ---------------------------------------------------------------- program order

  function PendingCall(phase: Phase): seq<Call> {
    match phase
    case Idle => []
    case Leaving(entry) => [entry.call]
    case _ => [phase.call]
  }

  /** The calls of thread `t` in the log. */
  function CallsOf(log: seq<Entry>, t: nat): seq<Call> {
    if log == [] then []
    else
      var last := log[|log| - 1];
      CallsOf(log[..|log| - 1], t) + (if last.thread == t then [last.call] else [])
  }

  /** The calls that thread `t` makes. */
  function Entered(steps: seq<Step>, t: nat): seq<Call> {
    if steps == [] then []
    else (if steps[0].Enter? && steps[0].thread == t then [steps[0].call] else []) + Entered(steps[1..], t)
  }

  /** What thread `t` has done and is doing. */
  function Program(s: State, t: nat): seq<Call>
    requires t < |s.threads|
  {
    CallsOf(s.log, t) + PendingCall(s.threads[t])
  }

  lemma CallAppended(log: seq<Entry>, entry: Entry, t: nat)
    ensures CallsOf(log + [entry], t) == CallsOf(log, t) + (if entry.thread == t then [entry.call] else [])
  {
    assert (log + [entry])[..|log|] == log;
  }

  lemma ReleaseKeepsProgram(s: State, u: nat, t: nat)
    requires Owned(s) && Enabled(s, Release(u)) && t < |s.threads|
    ensures |After(s, Release(u)).threads| == |s.threads|
    ensures Program(After(s, Release(u)), t) == Program(s, t)
  {
    CallAppended(s.log, s.threads[u].entry, t);
  }

  lemma OtherStepsKeepPending(s: State, step: Step, t: nat)
    requires Enabled(s, step) && t < |s.threads| && !step.Release?
    ensures After(s, step).log == s.log && |After(s, step).threads| == |s.threads|
    ensures PendingCall(After(s, step).threads[t])
         == if step.Enter? && step.thread == t then [step.call] else PendingCall(s.threads[t])
    ensures step.Enter? && step.thread == t ==> s.threads[t].Idle?
  {
  }

  lemma StepKeepsProgram(s: State, step: Step, t: nat)
    requires Owned(s) && Enabled(s, step) && t < |s.threads|
    ensures |After(s, step).threads| == |s.threads|
    ensures Program(After(s, step), t)
         == Program(s, t) + (if step.Enter? && step.thread == t then [step.call] else [])
  {
    if step.Release? {
      ReleaseKeepsProgram(s, step.thread, t);
    } else {
      OtherStepsKeepPending(s, step, t);
    }
  }

  lemma {:induction false} RunKeepsProgram(s: State, steps: seq<Step>, t: nat)
    requires Inv(s) && Run(s, steps).Some? && t < |s.threads|
    ensures |Run(s, steps).value.threads| == |s.threads|
    ensures Program(Run(s, steps).value, t) == Program(s, t) + Entered(steps, t)
    decreases steps
  {
    if steps == [] {
      assert Program(s, t) + [] == Program(s, t);
    } else {
      InvMeansOwned(s);
      StepKeepsInv(s, steps[0]);
      StepKeepsProgram(s, steps[0], t);
      RunKeepsProgram(After(s, steps[0]), steps[1..], t);
      var entered := if steps[0].Enter? && steps[0].thread == t then [steps[0].call] else [];
      ConcatAssociative(Program(s, t), entered, Entered(steps[1..], t));
    }
  }

  /** Every call of every thread is answered once, in the order in which the thread makes its calls: the
      thread's entries in the log, and the call it is in, are exactly the calls it has made. */
  lemma EveryCallIsAnsweredOnce(threads: nat, steps: seq<Step>, s: State, t: nat)
    requires Run(Start(threads), steps) == Some(s) && t < threads
    ensures |s.threads| == threads
    ensures CallsOf(s.log, t) + PendingCall(s.threads[t]) == Entered(steps, t)
  {
    StartIsOk(threads);
    RunKeepsProgram(Start(threads), steps, t);
    assert [] + Entered(steps, t) == Entered(steps, t);
  }

  // ---------------------------------------------------------------- the latch

  /** The step asks the source for a message. */
  predicate CallsSource(s: State, step: Step)
    requires Enabled(s, step)
  {
    (step.First? && !s.latched) || (step.Look? && s.threads[step.thread].left > 0)
  }

  /** How often the steps ask the source. */
  function CountSourceCalls(s: State, steps: seq<Step>): nat
    requires Run(s, steps).Some?
    decreases steps
  {
    if steps == [] then 0
    else (if CallsSource(s, steps[0]) then 1 else 0) + CountSourceCalls(After(s, steps[0]), steps[1..])
  }

  lemma StepKeepsLatch(s: State, step: Step)
    requires Inv(s) && Enabled(s, step) && s.latched
    ensures var r := After(s, step);
      && r.latched && r.source == s.source && r.sent == s.sent && r.pushed == s.pushed
      && s.log <= r.log
      && forall i | |s.log| <= i < |r.log| :: r.log[i].reply == ClosedReply(r.log[i].call)
    ensures !CallsSource(s, step)
  {
    if step.Release? || step.Look? {
      assert PhaseOk(s, s.threads[step.thread]);
    }
  }

  lemma {:induction false} RunKeepsLatch(s: State, steps: seq<Step>)
    requires Inv(s) && s.latched && Run(s, steps).Some?
    ensures var r := Run(s, steps).value;
      && r.latched && r.source == s.source && r.sent == s.sent && r.pushed == s.pushed
      && s.log <= r.log
      && forall i | |s.log| <= i < |r.log| :: r.log[i].reply == ClosedReply(r.log[i].call)
    ensures CountSourceCalls(s, steps) == 0
    decreases steps
  {
    if steps != [] {
      StepKeepsInv(s, steps[0]);
      StepKeepsLatch(s, steps[0]);
      RunKeepsLatch(After(s, steps[0]), steps[1..]);
    }
  }

  /** Once one receive has reported the end, everything pushed has been handed out, and whatever
      happens next: the source is not asked again, nothing is sent, receives report the end, publishes
      fail with NotConnected and the getters give 0. */
  lemma EndIsForever(threads: nat, steps: seq<Step>, s: State, more: seq<Step>, r: State)
    requires Run(Start(threads), steps) == Some(s) && Run(s, more) == Some(r)
    requires exists i :: 0 <= i < |s.log| && s.log[i].reply.Ended?
    ensures Consumed(s.log) == AcceptedPushes(steps)
    ensures CountSourceCalls(s, more) == 0
    ensures r.latched && r.source == s.source && r.sent == s.sent
    ensures s.log <= r.log
    ensures Consumed(r.log) == Consumed(s.log)
    ensures forall i | |s.log| <= i < |r.log| :: r.log[i].reply == ClosedReply(r.log[i].call)
  {
    ReachableIsOk(threads, steps, s);
    RunKeepsInv(s, more);
    RunKeepsLatch(s, more);
    HandIsEmptyOnceLatched(s);
    HandIsEmptyOnceLatched(r);
    InOrderWithoutLossOrDuplication(threads, steps, s);
    assert Consumed(s.log) + [] + [] == Consumed(s.log);
    assert Consumed(r.log) + [] + [] == Consumed(r.log);
  }

  lemma HandIsEmptyOnceLatched(s: State)
    requires Inv(s) && s.latched
    ensures HolderHand(s) == [] && s.source.queue == []
  {
    if s.lock.Some? {
      assert PhaseOk(s, s.threads[s.lock.value]);
    }
  }

  // ---------------------------------------------------------------- the lock

  predicate UsesLock(step: Step) {
    step.First? || step.Look? || step.Act? || step.Release?
  }

  /** In every reachable state only the lock holder can act on the endpoint; all other steps leave
      the latch, the outgoing messages and the results alone and change the source only by a push or a
      close, and nobody else can take the lock. */
  lemma OnlyTheHolderActs(threads: nat, steps: seq<Step>, s: State, step: Step)
    requires Run(Start(threads), steps) == Some(s) && Enabled(s, step)
    ensures UsesLock(step) ==> s.lock == Some(step.thread)
    ensures step.Acquire? ==> s.lock.None?
    ensures var r := After(s, step);
      !UsesLock(step) ==>
        && r.latched == s.latched && r.sent == s.sent && r.log == s.log
        && HolderHand(r) == HolderHand(s)
        && r.source == (if step.Produce? then Happen(s.source, step.event) else s.source)
  {
    ReachableIsOk(threads, steps, s);
    if !step.Produce? {
      assert Critical(s.threads[step.thread]) <==> s.lock == Some(step.thread);
    }
  }

  /** An upper bound on the steps the holder still takes. */
  function Budget(s: State): nat {
    if s.lock.None? || s.lock.value >= |s.threads| then 0
    else match s.threads[s.lock.value]
      case Holding(call, _, _) => Limit(call) + 2
      case Draining(_, _, _, _, _, _, left) => left + 2
      case Leaving(_) => 1
      case _ => 0
  }

  /** An upper bound on the holder's remaining uses of the source. */
  function SourceCalls(s: State): nat {
    if s.lock.None? || s.lock.value >= |s.threads| then 0
    else match s.threads[s.lock.value]
      case Holding(call, _, _) => Limit(call)
      case Draining(_, _, _, _, _, _, left) => left
      case _ => 0
  }

  function CountHolderSteps(steps: seq<Step>): nat {
    if steps == [] then 0 else (if UsesLock(steps[0]) then 1 else 0) + CountHolderSteps(steps[1..])
  }

  lemma StepSpendsBudget(s: State, step: Step)
    requires Inv(s) && Enabled(s, step) && !step.Acquire?
    ensures Budget(After(s, step)) + (if UsesLock(step) then 1 else 0) <= Budget(s)
    ensures SourceCalls(After(s, step)) + (if CallsSource(s, step) then 1 else 0) <= SourceCalls(s)
  {
    if UsesLock(step) {
      assert Critical(s.threads[step.thread]) <==> s.lock == Some(step.thread);
      assert PhaseOk(s, s.threads[step.thread]);
    } else if step.Enter? {
      assert Critical(s.threads[step.thread]) <==> s.lock == Some(step.thread);
    }
  }

  /** A bounded hold: until the next acquisition the holder takes at most `Budget` steps, among them at
      most `SourceCalls` uses of the source, whatever the other threads and the producers do. For a
      batch that has just taken the lock these are its limit plus two, and its limit. */
  lemma {:induction false} HoldIsBounded(s: State, steps: seq<Step>)
    requires Inv(s) && Run(s, steps).Some?
    requires forall i | 0 <= i < |steps| :: !steps[i].Acquire?
    ensures Budget(Run(s, steps).value) + CountHolderSteps(steps) <= Budget(s)
    ensures SourceCalls(Run(s, steps).value) + CountSourceCalls(s, steps) <= SourceCalls(s)
    decreases steps
  {
    if steps != [] {
      StepKeepsInv(s, steps[0]);
      StepSpendsBudget(s, steps[0]);
      HoldIsBounded(After(s, steps[0]), steps[1..]);
    }
  }

  /** From the moment a thread takes the lock: a batch uses the source at most as often as its clamped
      count allows and takes two steps more, any other call uses it once at most and takes three. */
  lemma HoldFromAcquisition(threads: nat, steps: seq<Step>, s: State, t: nat, more: seq<Step>)
    requires Run(Start(threads), steps) == Some(s) && Enabled(s, Acquire(t))
    requires Run(After(s, Acquire(t)), more).Some?
    requires forall i | 0 <= i < |more| :: !more[i].Acquire?
    ensures var held := After(s, Acquire(t));
      var call := s.threads[t].call;
      var uses := if !call.ReceiveMany? || call.maxCount == 0 then 1
                  else if call.maxCount < 0 || call.maxCount > 256 then 256
                  else call.maxCount;
      held.lock == Some(t) && CountSourceCalls(held, more) <= uses && CountHolderSteps(more) <= uses + 2
  {
    ReachableIsOk(threads, steps, s);
    StepKeepsInv(s, Acquire(t));
    HoldIsBounded(After(s, Acquire(t)), more);
    if s.threads[t].call.ReceiveMany? {
      BatchLimitIs(s.threads[t].call.maxCount);
    }
  }

  /** The holder can always go on, except while its receive waits for a first message that is not
      there; then only new calls and the producers can move. (How long the SDK keeps a publish waiting is
      not modelled.) */
  function HoldersNextStep(s: State): Option<Step> {
    if s.lock.None? || s.lock.value >= |s.threads| then None
    else var t := s.lock.value;
      match s.threads[t]
      case Holding(call, _, _) =>
        if !Receives(call) then Some(Act(t, true, 0))
        else if s.latched || Ready(s.source) then Some(First(t)) else None
      case Draining(_, _, _, _, _, _, _) => Some(Look(t))
      case Leaving(_) => Some(Release(t))
      case _ => None
  }

  lemma HolderIsNeverStuck(threads: nat, steps: seq<Step>, s: State)
    requires Run(Start(threads), steps) == Some(s) && s.lock.Some?
    ensures s.lock.value < |s.threads|
    ensures match HoldersNextStep(s)
      case Some(step) => Enabled(s, step) && UsesLock(step)
      case None => !s.latched && !Ready(s.source) && s.threads[s.lock.value].Holding?
                   && forall step :: Enabled(s, step) ==> step.Enter? || step.Produce?
  {
    ReachableIsOk(threads, steps, s);
    assert Critical(s.threads[s.lock.value]);
    if HoldersNextStep(s).None? {
      forall step | Enabled(s, step) ensures step.Enter? || step.Produce? {
        OnlyTheHolderActs(threads, steps, s, step);
      }
    }
  }

  // ---------------------------------------------------------------- every call comes to an end

  /** An upper bound on the steps that a call still takes. */
  function Weight(phase: Phase): nat {
    match phase
    case Idle => 0
    case Waiting(call) => Limit(call) + 3
    case Holding(call, _, _) => Limit(call) + 2
    case Draining(_, _, _, _, _, _, left) => left + 2
    case Leaving(_) => 1
  }

  function Work(threads: seq<Phase>): nat {
    if threads == [] then 0 else Work(threads[..|threads| - 1]) + Weight(threads[|threads| - 1])
  }

  lemma {:induction false} WorkUpdate(threads: seq<Phase>, t: nat, phase: Phase)
    requires t < |threads|
    ensures Work(threads[t := phase]) + Weight(threads[t]) == Work(threads) + Weight(phase)
    decreases threads
  {
    var last := |threads| - 1;
    if t < last {
      WorkUpdate(threads[..last], t, phase);
      assert threads[t := phase][..last] == threads[..last][t := phase];
    } else {
      assert threads[t := phase][..last] == threads[..last];
    }
  }

  /** A step of a call that has been made. */
  predicate Internal(step: Step) {
    !step.Enter? && !step.Produce?
  }

  function CountInternal(steps: seq<Step>): nat {
    if steps == [] then 0 else (if Internal(steps[0]) then 1 else 0) + CountInternal(steps[1..])
  }

  /** At most the clamped count, and three steps more, for each call made. */
  function Duty(steps: seq<Step>): nat {
    if steps == [] then 0
    else
      (match steps[0]
       case Enter(_, ReceiveMany(n, _)) => (if n < 0 || n > 256 then 256 else if n == 0 then 1 else n) + 3
       case Enter(_, _) => 4
       case _ => 0)
      + Duty(steps[1..])
  }

  lemma StepSpendsWork(s: State, step: Step)
    requires Enabled(s, step)
    ensures Work(After(s, step).threads) + (if Internal(step) then 1 else 0) <= Work(s.threads) + Duty([step])
  {
    var r := After(s, step);
    if step.Produce? {
      if s.lock.Some? && s.lock.value < |s.threads| {
        WorkUpdate(s.threads, s.lock.value, r.threads[s.lock.value]);
      }
    } else {
      WorkUpdate(s.threads, step.thread, r.threads[step.thread]);
      if step.Enter? && step.call.ReceiveMany? {
        BatchLimitIs(step.call.maxCount);
      }
    }
  }

  lemma {:induction false} RunSpendsWork(s: State, steps: seq<Step>)
    requires Run(s, steps).Some?
    ensures Work(Run(s, steps).value.threads) + CountInternal(steps) <= Work(s.threads) + Duty(steps)
    decreases steps
  {
    if steps != [] {
      StepSpendsWork(s, steps[0]);
      RunSpendsWork(After(s, steps[0]), steps[1..]);
    }
  }

  lemma {:induction false} NoWorkAtFirst(threads: nat)
    ensures Work(Start(threads).threads) == 0
  {
    if threads > 0 {
      NoWorkAtFirst(threads - 1);
      assert Start(threads).threads[..threads - 1] == Start(threads - 1).threads;
    }
  }

  /** The thread that has the lock waits for a first message on an open, empty source. */
  predicate HolderWaits(s: State) {
    && s.lock.Some? && s.lock.value < |s.threads|
    && var phase := s.threads[s.lock.value];
    && phase.Holding? && (phase.call.ReceiveOne? || phase.call.ReceiveMany?)
    && !s.latched && !s.source.closed && s.source.queue == []
  }

  /** No schedule goes on for ever: the calls made bound the steps taken for them. And the calls get stuck
      only when all are answered or the lock holder waits for a message: after a push or a close they go
      on, and after a close every schedule that takes the steps there are answers every call. */
  lemma EveryCallEnds(threads: nat, steps: seq<Step>, s: State)
    requires Run(Start(threads), steps) == Some(s)
    ensures CountInternal(steps) <= Duty(steps)
    ensures (forall step | Enabled(s, step) :: !Internal(step))
       <==> (forall t | 0 <= t < |s.threads| :: s.threads[t] == Idle) || HolderWaits(s)
    ensures forall t: nat, call | t < |s.threads| && s.threads[t] == Idle :: Enabled(s, Enter(t, call))
  {
    NoWorkAtFirst(threads);
    RunSpendsWork(Start(threads), steps);
    ReachableIsOk(threads, steps, s);
    if s.lock.Some? {
      HolderStuckIff(threads, steps, s);
    } else if t :| 0 <= t < |s.threads| && s.threads[t] != Idle {
      assert !Critical(s.threads[t]);
      assert Enabled(s, Acquire(t)) && Internal(Acquire(t));
    }
  }

  lemma HolderStuckIff(threads: nat, steps: seq<Step>, s: State)
    requires Run(Start(threads), steps) == Some(s) && s.lock.Some?
    ensures s.lock.value < |s.threads| && s.threads[s.lock.value] != Idle
    ensures (forall step | Enabled(s, step) :: !Internal(step)) <==> HolderWaits(s)
  {
    ReachableIsOk(threads, steps, s);
    HolderIsNeverStuck(threads, steps, s);
    assert Critical(s.threads[s.lock.value]);
    if HoldersNextStep(s).Some? {
      assert Enabled(s, HoldersNextStep(s).value) && Internal(HoldersNextStep(s).value);
    }
  }
}
