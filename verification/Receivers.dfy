/**
 The receive calls from PHP down to the SDK source: the exported functions of src/subscription.rs
 (src/stream.rs repeats them word for word) and the methods of the PHP classes that call them.
 */
module Receivers {
  import opened Base
  import opened CStrings
  import opened Endpoints
  import opened CHeap
  import opened Marshal

  // ---------------------------------------------------------------- exported functions

  /** `vireon_sub_recv`: 0 with a message, 1 at the end. With a null out pointer the message is taken
      all the same. */
  method VireonRecv(endpoint: Endpoint, memory: Memory, out: MessageSlot?) returns (rc: int)
    modifies endpoint, endpoint.inner, memory, out
    ensures var (m, e) := Recv(old(endpoint.State()));
      && endpoint.State() == e
      && rc == (if m.Some? then 0 else 1)
      && (if m.Some? && out != null
          then Exported(old(memory.State()), memory.State(), [out.value], [m.value])
          else memory.State() == old(memory.State()) && (out != null ==> out.value == old(out.value)))
    ensures endpoint.inner == old(endpoint.inner) || endpoint.inner == null
  {
    var m := endpoint.ReceiveOne();
    match m {
      case Some(message) =>
        if out != null {
          var c := memory.SdkMsgToC(message);
          out.value := c;
        }
        rc := 0;
      case None =>
        rc := 1;
    }
  }

  /** `vireon_sub_recv_batch`: 0 with a batch, 1 at the end. */
  method VireonRecvBatch(endpoint: Endpoint, memory: Memory, maxCount: i32, out: BatchSlot?)
    returns (rc: int, ghost structs: seq<CMessage>, ghost before: Heap)
    modifies endpoint, endpoint.inner, memory, out
    ensures var (ms, e) := RecvBatch(old(endpoint.State()), maxCount);
      && endpoint.State() == e
      && rc == (if ms == [] then 1 else 0)
      && (if ms != [] && out != null then
            && Exported(old(memory.State()), before, structs, ms)
            && out.value.msgs != NULL && out.value.msgs !in before.cells && out.value.count == |ms|
            && memory.State() == Allocate(before, out.value.msgs, Records(structs))
          else memory.State() == old(memory.State()) && (out != null ==> out.value == old(out.value)))
    ensures endpoint.inner == old(endpoint.inner) || endpoint.inner == null
  {
    structs, before := [], memory.State();
    var msgs := endpoint.ReceiveMany(maxCount);
    if msgs == [] {
      return 1, structs, before;
    }
    if out != null {
      structs, before := memory.ExportBatch(msgs, out);
    }
    rc := 0;
  }

  // ---------------------------------------------------------------- PHP

  /** The reading half of `msgFromNative` and of `recvBatch`'s loop body. */
  method CopyMessage(memory: Memory, m: CMessage) returns (msg: PhpMessage)
    requires Decode(memory.State(), m).Some?
    ensures Some(msg) == Decode(memory.State(), m)
  {
    var topic, payload := [], [];
    if m.topic != NULL {
      topic := memory.ReadString(m.topic);
    }
    if m.payload != NULL && m.payloadLen > 0 {
      payload := memory.ReadSized(m.payload, m.payloadLen);
    }
    msg := PhpMessage(topic, payload, ToPhpInt(m.seqNo), ToPhpInt(m.streamId));
  }

  /** The loop of `recvBatch` over the array. */
  method CopyBatch(memory: Memory, b: CBatch, ghost ms: seq<Message>) returns (result: seq<PhpMessage>)
    requires b.msgs in memory.cells && memory.cells[b.msgs].Records? && |memory.cells[b.msgs].msgs| == b.count == |ms|
    requires forall i | 0 <= i < b.count ::
      Decode(memory.State(), memory.cells[b.msgs].msgs[i]) == Some(Received(ms[i]))
    ensures result == ReceivedAll(ms)
  {
    result := [];
    for i := 0 to b.count
      invariant |result| == i && forall j | 0 <= j < i :: result[j] == Received(ms[j])
    {
      var m := memory.Load(Element(b.msgs, i));
      var msg := CopyMessage(memory, m);
      result := result + [msg];
    }
  }

  /** `msgFromNative`: copies the struct into a PHP object and frees the original. */
  method MsgFromNative(memory: Memory, m: MessageSlot) returns (msg: PhpMessage)
    requires Decode(memory.State(), m.value).Some?
    requires FreeMessage(memory.State(), m.value).Some?
    modifies memory, m
    ensures Some(msg) == old(Decode(memory.State(), m.value))
    ensures (memory.State(), m.value) == old(FreeMessage(memory.State(), m.value)).value
  {
    msg := CopyMessage(memory, m.value);
    memory.MsgFree(Slot(m));
  }

  /** The result of PHP's `recvBatch` for any PHP int. */
  function PhpRecvBatch(e: EndpointState, n: PhpInt): (seq<PhpMessage>, EndpointState) {
    var (ms, e') := RecvBatch(e, ToI32(n));
    (ReceivedAll(ms), e')
  }

  /** A PHP batch is empty exactly when the endpoint has ended, never because nothing is queued at the
      moment; otherwise it has at least one message and at most the limit of the truncated count, and
      is what that many `recv` calls would have returned. */
  lemma PhpBatchEmptyIffEnded(e: EndpointState, n: PhpInt)
    ensures var (batch, e') := PhpRecvBatch(e, n);
      && (batch == [] <==> e' == Latched)
      && (batch == [] ==> Recv(e) == (None, Latched))
      && |batch| <= BatchLimit(ToI32(n))
      && (n >= 1 ==> |batch| <= n)
      && |Iterate(e, |batch|).0| == |batch|
      && forall i | 0 <= i < |batch| :: var m := Iterate(e, |batch|).0[i];
           batch[i] == PhpMessage(ReceivedTopic(m.topic), m.payload, ToPhpInt(m.seqNo), ToPhpInt(m.streamId))
  {
    BatchIsIteratedRecv(e, ToI32(n));
    PhpCountRespected(n);
  }

  /** `VireonSubscription`; the group and stream classes have the same receiving methods. */
  class Subscription {
    const endpoint: Endpoint
    const memory: Memory

    constructor (endpoint: Endpoint, memory: Memory)
      ensures this.endpoint == endpoint && this.memory == memory
    {
      this.endpoint := endpoint;
      this.memory := memory;
    }

    /** One message, or None at the end; the C heap is left as it was. */
    method RecvMessage() returns (result: Option<PhpMessage>)
      modifies endpoint, endpoint.inner, memory
      ensures var (m, e) := Recv(old(endpoint.State()));
        && endpoint.State() == e
        && result == (if m.Some? then Some(Received(m.value)) else None)
      ensures memory.cells == old(memory.cells)
      ensures Balanced(old(memory.State())) ==> Settled(old(memory.State()), memory.State())
      ensures endpoint.inner == old(endpoint.inner) || endpoint.inner == null
    {
      var out := new MessageSlot();
      ghost var h0 := memory.State();
      var rc := VireonRecv(endpoint, memory, out);
      if rc == 0 {
        ghost var m := Recv(old(endpoint.State())).0.value;
        ReleasedAfterDecoding(h0, memory.State(), out.value, m);
        var msg := MsgFromNative(memory, out);
        return Some(msg);
      }
      return None;
    }

    /** A batch, empty at the end; the C heap is left as it was. */
    method RecvMessages(maxCount: PhpInt) returns (result: seq<PhpMessage>)
      modifies endpoint, endpoint.inner, memory
      ensures (result, endpoint.State()) == PhpRecvBatch(old(endpoint.State()), maxCount)
      ensures memory.cells == old(memory.cells)
      ensures Balanced(old(memory.State())) ==> Settled(old(memory.State()), memory.State())
      ensures endpoint.inner == old(endpoint.inner) || endpoint.inner == null
    {
      var batch := new BatchSlot();
      ghost var h0 := memory.State();
      var rc, structs, before := VireonRecvBatch(endpoint, memory, ToI32(maxCount), batch);
      ghost var ms := RecvBatch(old(endpoint.State()), ToI32(maxCount)).0;
      if rc == 0 {
        BatchRoundTrip(h0, before, memory.State(), batch.value, structs, ms);
      }
      result := [];
      assert ReceivedAll([]) == [];
      if batch.value.count > 0 && batch.value.msgs != NULL {
        result := CopyBatch(memory, batch.value, ms);
      }
      memory.BatchFree(batch);
    }
  }

  /** One exported message, decoded and freed: the heap is back where it was. */
  lemma ReleasedAfterDecoding(h0: Heap, h1: Heap, c: CMessage, m: Message)
    requires Exported(h0, h1, [c], [m])
    ensures Decode(h1, c) == Some(Received(m))
    ensures FreeMessage(h1, c).Some?
    ensures FreeMessage(h1, c).value.0.cells == h0.cells
    ensures Balanced(h0) ==> Settled(h0, FreeMessage(h1, c).value.0)
  {
    assert Represents(h1, [c][0], [m][0]);
    DecodeInvertsExport(h1, c, m);
    FreeMessageReleasesOwned(h1, c);
    SingleOwned(c);
    var h2 := FreeMessage(h1, c).value.0;
    assert h2.cells == h0.cells;
    if Balanced(h0) {
      FreeMessageBalanced(h1, c);
      FreeMessageReleasedGrows(h1, c);
      EqualCellsMeanAllReleased(h0, h2);
    }
  }
}
