/**
 A receiving endpoint, `Mutex<Option<Subscription>>`, seen by the thread that holds its lock.

 The SDK's subscription is an abstract FIFO queue with a closed flag. While a call is running,
 producers push and close; `script` lists their events, one group for each call made on the
 source. A waiting `recv` sees as many groups as it needs. A script is finite, so a `recv` that
 no remaining group can wake is read as ending with the stream: every call that returns, with
 every activity of the producers, is covered by some script.
 */
module Endpoints {
  import opened Base

  const BATCH_CAP: nat := 256

  datatype Event = Push(message: Message) | Close

  datatype SourceState = SourceState(queue: seq<Message>, closed: bool, script: seq<seq<Event>>)

  datatype EndpointState = Open(source: SourceState) | Latched

  // ---------------------------------------------------------------- the SDK source

  /** A closed source accepts nothing more. */
  function Happen(s: SourceState, event: Event): SourceState {
    match event
    case Push(m) => if s.closed then s else s.(queue := s.queue + [m])
    case Close => s.(closed := true)
  }

  function HappenAll(s: SourceState, events: seq<Event>): (r: SourceState)
    ensures r.script == s.script
    decreases events
  {
    if events == [] then s else HappenAll(Happen(s, events[0]), events[1..])
  }

  /** The events of the next group take place. */
  function Tick(s: SourceState): SourceState {
    if s.script == [] then s else HappenAll(s.(script := s.script[1..]), s.script[0])
  }

  predicate Ready(s: SourceState) {
    s.queue != [] || s.closed
  }

  function Await(s: SourceState): (r: SourceState)
    ensures Ready(r)
    decreases |s.script|
  {
    var now := Tick(s);
    if Ready(now) then now
    else if now.script == [] then now.(closed := true)
    else Await(now)
  }

  function TakeHead(s: SourceState): (Option<Message>, SourceState) {
    if s.queue == [] then (None, s) else (Some(s.queue[0]), s.(queue := s.queue[1..]))
  }

  /** `recv`: waits for a message, and gives None only when closed and drained. */
  function SourceRecv(s: SourceState): (Option<Message>, SourceState) {
    TakeHead(Await(s))
  }

  /** `try_recv`: never waits. */
  function SourceTryRecv(s: SourceState): (Option<Message>, SourceState) {
    TakeHead(Tick(s))
  }

  // ---------------------------------------------------------------- the endpoint

  /** `(max_count as usize).min(256).max(1)` */
  function BatchLimit(n: i32): (limit: nat) {
    var wide := AsUsize(n);
    var capped := if wide < BATCH_CAP then wide else BATCH_CAP;
    if capped < 1 then 1 else capped
  }

  /** One receive: end-of-stream latches the endpoint. */
  function Recv(e: EndpointState): (Option<Message>, EndpointState) {
    match e
    case Latched => (None, Latched)
    case Open(s) =>
      var (m, t) := SourceRecv(s);
      (m, if m.None? then Latched else Open(t))
  }

  /** The draining loop with `left` rounds to go; an empty queue stops it. */
  function Drain(s: SourceState, left: nat): (seq<Message>, SourceState)
    decreases left
  {
    if left == 0 then ([], s)
    else
      var (m, t) := SourceTryRecv(s);
      if m.None? then ([], t)
      else var (ms, u) := Drain(t, left - 1); ([m.value] + ms, u)
  }

  /** One batch receive: waits for the first message, drains the others. */
  function RecvBatch(e: EndpointState, n: i32): (seq<Message>, EndpointState) {
    match e
    case Latched => ([], Latched)
    case Open(s) =>
      var (m, t) := SourceRecv(s);
      if m.None? then ([], Latched)
      else var (ms, u) := Drain(t, BatchLimit(n) - 1); ([m.value] + ms, Open(u))
  }

  /** `k` successive single receives, up to the first that finds the end. */
  function Iterate(e: EndpointState, k: nat): (seq<Message>, EndpointState)
    decreases k
  {
    if k == 0 then ([], e)
    else
      var (m, e') := Recv(e);
      if m.None? then ([], e')
      else var (ms, e'') := Iterate(e', k - 1); ([m.value] + ms, e'')
  }

  // ---------------------------------------------------------------- limits

  /** Negative counts mean 256, 0 means 1. */
  lemma BatchLimitIs(n: i32)
    ensures BatchLimit(n) == if n < 0 || n > 256 then 256 else if n == 0 then 1 else n
  {
  }

  /** A PHP caller gets no more messages than asked for exactly when asking for at least one,
      although only the low 32 bits of the count reach the C function. */
  lemma PhpCountRespected(n: PhpInt)
    ensures BatchLimit(ToI32(n)) <= n <==> n >= 1
  {
  }

  // ---------------------------------------------------------------- batch = iterated receive

  lemma {:induction false} DrainIsIteratedRecv(s: SourceState, left: nat)
    ensures var (ms, t) := Drain(s, left);
      var (ms', e) := Iterate(Open(s), |ms|);
      && |ms| <= left && ms' == ms && e.Open?
      && (|ms| == left ==> t == e.source)
      && (|ms| < left ==> t == Tick(e.source) && t.queue == [])
    decreases left
  {
    if left == 0 {
    } else {
      var (m, t) := SourceTryRecv(s);
      if m.Some? {
        DrainIsIteratedRecv(t, left - 1);
        var (ms, u) := Drain(t, left - 1);
        assert Drain(s, left) == ([m.value] + ms, u);
        assert Recv(Open(s)) == (m, Open(t));
        var (ms', e) := Iterate(Open(t), |ms|);
        assert Iterate(Open(s), |ms| + 1) == ([m.value] + ms', e);
      }
    }
  }

  /** A batch of `k` messages is `k` single receives: same messages, same latch, and the same
      source except that a batch stopped by an empty queue has also seen the producers' events up
      to the look that found it empty. An empty batch is one single receive that finds the end. */
  lemma BatchIsIteratedRecv(e: EndpointState, n: i32)
    ensures var (ms, e1) := RecvBatch(e, n);
      var (ms', e2) := Iterate(e, |ms|);
      && |ms| <= BatchLimit(n)
      && (ms == [] <==> e1 == Latched)
      && (ms == [] ==> Recv(e) == (None, e1))
      && (ms != [] ==> ms' == ms && e1.Open? && e2.Open?)
      && (|ms| == BatchLimit(n) ==> e1 == e2)
      && (0 < |ms| < BatchLimit(n) ==> e1.source == Tick(e2.source) && e1.source.queue == [])
  {
    BatchLimitIs(n);
    if e.Open? {
      var (m, t) := SourceRecv(e.source);
      if m.Some? {
        DrainIsIteratedRecv(t, BatchLimit(n) - 1);
        var (ms, u) := Drain(t, BatchLimit(n) - 1);
        assert RecvBatch(e, n) == ([m.value] + ms, Open(u));
        assert Recv(e) == (m, Open(t));
        var (ms', e2) := Iterate(Open(t), |ms|);
        assert Iterate(e, |ms| + 1) == ([m.value] + ms', e2);
      }
    }
  }

  lemma {:induction false} DrainIdle(s: SourceState, left: nat)
    requires s.script == []
    ensures var k := if |s.queue| < left then |s.queue| else left;
      Drain(s, left) == (s.queue[..k], s.(queue := s.queue[k..]))
    decreases left
  {
    if left > 0 && s.queue != [] {
      var t := s.(queue := s.queue[1..]);
      DrainIdle(t, left - 1);
      var k := if |s.queue| < left then |s.queue| else left;
      assert s.queue[..k] == [s.queue[0]] + t.queue[..k - 1];
      assert s.queue[k..] == t.queue[k - 1..];
    }
  }

  /** How many come: with `q > 0` messages queued and no producer active, a batch is exactly the first
      `q` messages, or as many as the count allows if these are fewer. */
  lemma BatchFromIdleSource(s: SourceState, n: i32)
    requires s.script == [] && s.queue != []
    ensures var limit := if n < 0 || n > 256 then 256 else if n == 0 then 1 else n;
      var k := if |s.queue| < limit then |s.queue| else limit;
      RecvBatch(Open(s), n) == (s.queue[..k], Open(s.(queue := s.queue[k..])))
  {
    BatchLimitIs(n);
    var t := s.(queue := s.queue[1..]);
    DrainIdle(t, BatchLimit(n) - 1);
    var k := if |s.queue| < BatchLimit(n) then |s.queue| else BatchLimit(n);
    assert s.queue[..k] == [s.queue[0]] + t.queue[..k - 1];
    assert s.queue[k..] == t.queue[k - 1..];
  }

  lemma {:induction false} IterateAdds(e: EndpointState, j: nat, k: nat)
    requires |Iterate(e, j).0| == j
    ensures Iterate(e, j + k) == (Iterate(e, j).0 + Iterate(Iterate(e, j).1, k).0,
                                  Iterate(Iterate(e, j).1, k).1)
    decreases j
  {
    if j == 0 {
      assert [] + Iterate(e, k).0 == Iterate(e, k).0;
    } else {
      var (m, e') := Recv(e);
      assert m.Some?;
      IterateAdds(e', j - 1, k);
      var (ms, e'') := Iterate(e', j - 1);
      var (ns, _) := Iterate(e'', k);
      assert ([m.value] + ms) + ns == [m.value] + (ms + ns);
    }
  }

  // ---------------------------------------------------------------- FIFO

  /** Everything the source will ever deliver: what is queued, then what it will still accept. */
  function Content(s: SourceState): seq<Message>
    decreases |s.script|
  {
    if s.script == [] then s.queue else Content(Tick(s))
  }

  function EndpointContent(e: EndpointState): seq<Message> {
    match e
    case Latched => []
    case Open(s) => Content(s)
  }

  lemma {:induction false} HappenAllBehindHead(s: SourceState, head: Message, events: seq<Event>)
    ensures HappenAll(s.(queue := [head] + s.queue), events)
         == var r := HappenAll(s, events); r.(queue := [head] + r.queue)
    decreases events
  {
    if events != [] {
      var next := Happen(s, events[0]);
      HappenAllBehindHead(next, head, events[1..]);
      if events[0].Push? && !s.closed {
        assert [head] + s.queue + [events[0].message] == [head] + (s.queue + [events[0].message]);
      }
    }
  }

  lemma {:induction false} ContentBehindHead(s: SourceState, head: Message)
    ensures Content(s.(queue := [head] + s.queue)) == [head] + Content(s)
    decreases |s.script|
  {
    if s.script != [] {
      HappenAllBehindHead(s.(script := s.script[1..]), head, s.script[0]);
      ContentBehindHead(Tick(s), head);
    }
  }

  lemma {:induction false} HappenAllClosed(s: SourceState, events: seq<Event>)
    requires s.closed
    ensures HappenAll(s, events) == s
  {
    if events != [] {
      HappenAllClosed(Happen(s, events[0]), events[1..]);
    }
  }

  lemma {:induction false} ContentClosed(s: SourceState)
    requires s.closed
    ensures Content(s) == s.queue
    decreases |s.script|
  {
    if s.script != [] {
      HappenAllClosed(s.(script := s.script[1..]), s.script[0]);
      ContentClosed(Tick(s));
    }
  }

  lemma {:induction false} AwaitKeepsContent(s: SourceState)
    ensures Content(Await(s)) == Content(s)
    decreases |s.script|
  {
    var now := Tick(s);
    if !Ready(now) && now.script != [] {
      AwaitKeepsContent(now);
    }
  }

  /** A receive takes the front of the content; when it finds the end there is nothing left. */
  lemma RecvTakesFront(e: EndpointState)
    ensures var (m, e') := Recv(e);
      EndpointContent(e) == (if m.Some? then [m.value] else []) + EndpointContent(e')
  {
    if e.Open? {
      var ready := Await(e.source);
      AwaitKeepsContent(e.source);
      if ready.queue != [] {
        var rest := ready.(queue := ready.queue[1..]);
        assert ready == rest.(queue := [ready.queue[0]] + rest.queue);
        ContentBehindHead(rest, ready.queue[0]);
      } else {
        ContentClosed(ready);
      }
    }
  }

  lemma ConcatAssociative<T>(a: seq<T>, b: seq<T>, c: seq<T>)
    ensures (a + b) + c == a + (b + c)
  {
  }

  /** Any number of receives delivers a prefix of the content, in order, and leaves the rest; fewer
      messages than calls means that everything was delivered. */
  lemma {:induction false} IterateDeliversPrefix(e: EndpointState, k: nat)
    ensures var (ms, e') := Iterate(e, k);
      && |ms| <= k
      && ms + EndpointContent(e') == EndpointContent(e)
      && (|ms| < k ==> ms == EndpointContent(e) && e' == Latched)
    decreases k
  {
    if k == 0 {
      assert [] + EndpointContent(e) == EndpointContent(e);
    } else {
      RecvTakesFront(e);
      var (m, e') := Recv(e);
      if m.Some? {
        IterateDeliversPrefix(e', k - 1);
        var (ms, e'') := Iterate(e', k - 1);
        ConcatAssociative([m.value], ms, EndpointContent(e''));
        assert Iterate(e, k) == ([m.value] + ms, e'');
      } else {
        assert Iterate(e, k) == ([], Latched);
      }
    }
  }

  // ---------------------------------------------------------------- the code

  class Source {
    var queue: seq<Message>
    var closed: bool
    var script: seq<seq<Event>>

    constructor (script: seq<seq<Event>>)
      ensures State() == SourceState([], false, script)
    {
      this.queue := [];
      this.closed := false;
      this.script := script;
    }

    function State(): SourceState
      reads this
    {
      SourceState(queue, closed, script)
    }

    /** The producers run until the next call on the source takes effect. */
    method Advance()
      modifies this
      ensures State() == Tick(old(State()))
    {
      if script != [] {
        var events := script[0];
        script := script[1..];
        ghost var start := State();
        for i := 0 to |events|
          invariant HappenAll(State(), events[i..]) == HappenAll(start, events)
        {
          match events[i] {
            case Push(m) => if !closed { queue := queue + [m]; }
            case Close => closed := true;
          }
          assert events[i..][1..] == events[i + 1..];
        }
      }
    }

    method Recv() returns (m: Option<Message>)
      modifies this
      ensures (m, State()) == SourceRecv(old(State()))
    {
      Advance();
      while queue == [] && !closed
        invariant Await(old(State())) == if Ready(State()) then State()
                                         else if script == [] then State().(closed := true)
                                         else Await(State())
        decreases |script|, !closed
      {
        if script == [] {
          closed := true;
        } else {
          Advance();
        }
      }
      m := Pop();
    }

    method TryRecv() returns (m: Option<Message>)
      modifies this
      ensures (m, State()) == SourceTryRecv(old(State()))
    {
      Advance();
      m := Pop();
    }

    method Pop() returns (m: Option<Message>)
      modifies this
      ensures (m, State()) == TakeHead(old(State()))
    {
      if queue == [] {
        m := None;
      } else {
        m := Some(queue[0]);
        queue := queue[1..];
      }
    }
  }

  /** The option inside the mutex; `null` is None. */
  class Endpoint {
    var inner: Source?

    constructor (source: Source)
      ensures inner == source
    {
      inner := source;
    }

    function State(): EndpointState
      reads this, inner
    {
      if inner == null then Latched else Open(inner.State())
    }

    /** The locked part of `vireon_sub_recv`. */
    method ReceiveOne() returns (m: Option<Message>)
      modifies this, inner
      ensures (m, State()) == Recv(old(State()))
      ensures inner == old(inner) || inner == null
    {
      if inner != null {
        m := inner.Recv();
        if m.None? {
          inner := null;
        }
      } else {
        m := None;
      }
    }

    /** The locked part of `vireon_sub_recv_batch`. */
    method ReceiveMany(maxCount: i32) returns (batch: seq<Message>)
      modifies this, inner
      ensures (batch, State()) == RecvBatch(old(State()), maxCount)
      ensures inner == old(inner) || inner == null
    {
      var max := BatchLimit(maxCount);
      if inner == null {
        return [];
      }
      var first := inner.Recv();
      if first.None? {
        inner := null;
        return [];
      }
      ghost var taken := inner.State();
      batch := [first.value];
      for i := 1 to max
        invariant 1 <= |batch| && inner == old(inner)
        invariant var (ms, t) := Drain(taken, max - 1);
          var (rest, u) := Drain(inner.State(), max - i);
          batch + rest == [first.value] + ms && t == u
      {
        ghost var before := inner.State();
        var m := inner.TryRecv();
        match m {
          case Some(message) =>
            ghost var rest := Drain(inner.State(), max - i - 1).0;
            assert Drain(before, max - i).0 == [message] + rest;
            assert batch + ([message] + rest) == (batch + [message]) + rest;
            batch := batch + [message];
          case None =>
            break;
        }
      }
      ghost var (ms, t) := Drain(taken, max - 1);
      assert batch == [first.value] + ms && inner.State() == t;
    }
  }
}
