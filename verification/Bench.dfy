/** examples/bench.php: the batch drain loop on top of the PHP receive call. */
module Bench {
  import opened Base
  import opened Endpoints
  import opened CHeap
  import opened Marshal
  import opened Receivers

  const BATCH_SIZE: i32 := 256

  /** The loop: batches until at least `count` messages have been taken or a batch is empty. */
  function Drained(e: EndpointState, count: int, received: nat): (nat, EndpointState)
    decreases count - received
  {
    if received >= count then (received, e)
    else
      var (ms, e') := RecvBatch(e, BATCH_SIZE);
      if ms == [] then (received, e') else Drained(e', count, received + |ms|)
  }

  lemma DrainedNext(e: EndpointState, count: int, received: nat)
    requires received < count
    ensures var (batch, e') := PhpRecvBatch(e, BATCH_SIZE);
      Drained(e, count, received)
        == if batch == [] then (received, e') else Drained(e', count, received + |batch|)
  {
    assert ToI32(BATCH_SIZE) == BATCH_SIZE;
  }

  method DrainLoop(subscription: Subscription, count: PhpInt) returns (received: nat)
    modifies subscription.endpoint, subscription.endpoint.inner, subscription.memory
    ensures (received, subscription.endpoint.State()) == Drained(old(subscription.endpoint.State()), count, 0)
    ensures subscription.memory.cells == old(subscription.memory.cells)
  {
    received := 0;
    ghost var e0 := subscription.endpoint.State();
    while received < count
      invariant subscription.memory.cells == old(subscription.memory.cells)
      invariant subscription.endpoint.inner == old(subscription.endpoint.inner) || subscription.endpoint.inner == null
      invariant Drained(subscription.endpoint.State(), count, received) == Drained(e0, count, 0)
      decreases count - received
    {
      DrainedNext(subscription.endpoint.State(), count, received);
      var batch := subscription.RecvMessages(BATCH_SIZE);
      if batch == [] {
        break;
      }
      received := received + |batch|;
    }
  }

  /** Looking again after an empty look changes nothing for the receives that follow. */
  lemma RecvAfterEmptyLook(s: SourceState)
    requires Tick(s).queue == []
    ensures Recv(Open(Tick(s))) == Recv(Open(s))
  {
    var now := Tick(s);
    if now.closed {
      if now.script != [] {
        HappenAllClosed(now.(script := now.script[1..]), now.script[0]);
      }
    }
  }

  lemma IterateAfterBatch(e: EndpointState, k: nat)
    requires k > 0
    ensures var (ms, e1) := RecvBatch(e, BATCH_SIZE);
      ms != [] ==> Iterate(e, |ms| + k).0 == ms + Iterate(e1, k).0
  {
    BatchIsIteratedRecv(e, BATCH_SIZE);
    var (ms, e1) := RecvBatch(e, BATCH_SIZE);
    if ms != [] {
      var e2 := Iterate(e, |ms|).1;
      IterateAdds(e, |ms|, k);
      if e1 != e2 {
        RecvAfterEmptyLook(e2.source);
      }
      assert Iterate(e1, k).0 == Iterate(e2, k).0;
    }
  }

  /** The loop overshoots the count by less than a batch, and it stops short of the count exactly when
      the endpoint has ended. */
  lemma {:induction false} DrainedBounds(e: EndpointState, count: int, received: nat)
    requires received < count
    ensures var (total, e') := Drained(e, count, received);
      && received <= total <= count + 255
      && (total < count <==> e' == Latched)
    decreases count - received
  {
    var (ms, e1) := RecvBatch(e, BATCH_SIZE);
    BatchIsIteratedRecv(e, BATCH_SIZE);
    BatchLimitIs(BATCH_SIZE);
    if ms != [] && received + |ms| < count {
      DrainedBounds(e1, count, received + |ms|);
    }
  }

  /** `k` receives give `k` messages. */
  predicate Gives(e: EndpointState, k: nat) {
    |Iterate(e, k).0| == k
  }

  lemma BatchGives(e: EndpointState)
    ensures var (ms, e1) := RecvBatch(e, BATCH_SIZE);
      Gives(e, |ms|) && (ms == [] ==> !Gives(e, 1))
  {
    BatchIsIteratedRecv(e, BATCH_SIZE);
  }

  /** Receives after a batch are receives before it, the batch's messages further on. */
  lemma BatchThenGives(e: EndpointState, k: nat, total: nat)
    requires total == |RecvBatch(e, BATCH_SIZE).0| + k
    ensures var (ms, e1) := RecvBatch(e, BATCH_SIZE);
      ms != [] ==> (Gives(e, total) <==> Gives(e1, k))
  {
    if k > 0 {
      IterateAfterBatch(e, k);
    } else {
      BatchGives(e);
    }
  }

  /** The messages that the loop takes from `e` on, and whether it stopped for want of more. */
  predicate Explains(e: EndpointState, taken: nat, short: bool) {
    Gives(e, taken) && (short ==> !Gives(e, taken + 1))
  }

  lemma ExplainsMore(e: EndpointState, k: nat, short: bool, total: nat)
    requires total == |RecvBatch(e, BATCH_SIZE).0| + k && RecvBatch(e, BATCH_SIZE).0 != []
    requires Explains(RecvBatch(e, BATCH_SIZE).1, k, short)
    ensures Explains(e, total, short)
  {
    BatchThenGives(e, k, total);
    BatchThenGives(e, k + 1, total + 1);
  }

  lemma {:induction false} DrainedIterates(e: EndpointState, count: int, received: nat)
    requires received < count
    ensures var total := Drained(e, count, received).0;
      total >= received && Explains(e, total - received, total < count)
    decreases count - received
  {
    var (ms, e1) := RecvBatch(e, BATCH_SIZE);
    var total := Drained(e, count, received).0;
    if ms == [] || received + |ms| >= count {
      BatchGives(e);
      assert total == received + |ms|;
    } else {
      DrainedIterates(e1, count, received + |ms|);
      assert total == Drained(e1, count, received + |ms|).0;
      ExplainsMore(e, total - received - |ms|, total < count, total - received);
    }
  }

  /** What the loop takes is what as many single receives would take: the front of everything the
      source will ever deliver, and all of it when the loop stops short. */
  lemma DrainedTakesContent(e: EndpointState, count: int)
    requires count > 0
    ensures var total := Drained(e, count, 0).0;
      && Gives(e, total) && Iterate(e, total).0 <= EndpointContent(e)
      && (total < count ==> Iterate(e, total).0 == EndpointContent(e))
  {
    DrainedIterates(e, count, 0);
    var total := Drained(e, count, 0).0;
    IterateDeliversPrefix(e, total);
    IterateDeliversPrefix(e, total + 1);
  }

  /** What the loop takes from a source on which nobody is active: everything in full batches of 256,
      until the count is reached or the queue is empty. */
  lemma {:induction false} DrainedFromIdleSource(s: SourceState, count: int, received: nat)
    requires s.script == [] && received < count
    ensures var batches := (count - received + 255) / 256;
      Drained(Open(s), count, received).0
        == received + (if |s.queue| < 256 * batches then |s.queue| else 256 * batches)
    decreases count - received
  {
    var batches := (count - received + 255) / 256;
    if s.queue != [] {
      BatchFromIdleSource(s, BATCH_SIZE);
      var k := if |s.queue| < 256 then |s.queue| else 256;
      var rest := s.(queue := s.queue[k..]);
      assert RecvBatch(Open(s), BATCH_SIZE) == (s.queue[..k], Open(rest));
      assert |s.queue[..k]| == k;
      if received + k < count {
        DrainedFromIdleSource(rest, count, received + k);
      }
    }
  }
}
