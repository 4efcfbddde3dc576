/** The functions of src/message.rs over mutable memory, and the exporting ends of the receives. */
module Marshal {
  import opened Base
  import opened CStrings
  import opened CHeap

  /** A message struct owned by PHP, as `$ffi->new("VireonMessage")` makes it. */
  class MessageSlot {
    var value: CMessage

    constructor ()
      ensures value == ZERO_MESSAGE
    {
      value := ZERO_MESSAGE;
    }
  }

  class BatchSlot {
    var value: CBatch

    constructor ()
      ensures value == ZERO_BATCH
    {
      value := ZERO_BATCH;
    }
  }

  /** `*mut VireonMessage`: null, a struct of PHP's, or an element of a live array. */
  datatype MessagePtr = NullPtr | Slot(slot: MessageSlot) | Element(block: Addr, index: nat)

  function Objects(p: MessagePtr): set<object> {
    if p.Slot? then {p.slot} else {}
  }

  class Memory {
    var cells: map<Addr, Block>
    ghost var allocs: multiset<(Addr, Layout)>
    ghost var frees: multiset<(Addr, Layout)>

    constructor ()
      ensures cells == map[] && Balanced(State())
    {
      cells, allocs, frees := map[], multiset{}, multiset{};
    }

    ghost function State(): Heap
      reads this
    {
      Heap(cells, allocs, frees)
    }

    /** The allocator may return any address that is not in use, one released earlier included. */
    method Claim(block: Block) returns (a: Addr)
      modifies this
      ensures a != NULL && a !in old(cells)
      ensures State() == Allocate(old(State()), a, block)
    {
      Unused(cells.Keys);
      a :| a != NULL && a !in cells;
      cells := cells[a := block];
      allocs := allocs + multiset{(a, LayoutOf(block))};
    }

    method Drop(a: Addr, layout: Layout)
      requires Release(State(), a, layout).Some?
      modifies this
      ensures State() == Release(old(State()), a, layout).value
    {
      cells := cells - {a};
      frees := frees + multiset{(a, layout)};
    }

    /** PHP's `FFI::string` on a `char*`. */
    method ReadString(a: Addr) returns (s: seq<byte>)
      requires ReadCString(State(), a).Some?
      ensures Some(s) == ReadCString(State(), a)
    {
      s := UpToNul(cells[a].buffer);
    }

    /** PHP's `FFI::string` with a length. */
    method ReadSized(a: Addr, len: nat) returns (s: seq<byte>)
      requires ReadBytes(State(), a, len).Some?
      ensures Some(s) == ReadBytes(State(), a, len)
    {
      s := cells[a].bytes[..len];
    }

    /** `sdk_msg_to_c` */
    method SdkMsgToC(m: Message) returns (c: CMessage)
      modifies this
      ensures Exported(old(State()), State(), [c], [m])
    {
      ghost var h0 := State();
      var topic := Claim(CString(ExportTopic(m.topic) + [0]));
      ghost var h1 := State();
      var payload := NULL;
      if |m.payload| > 0 {
        payload := Claim(Bytes(m.payload));
      }
      c := CMessage(topic, payload, |m.payload|, m.seqNo, m.streamId);
      ExportedSingle(h0, h1, State(), c, m);
    }

    /** The struct behind a pointer. */
    method Load(p: MessagePtr) returns (c: CMessage)
      requires p.Slot? || (p.Element? && p.block in cells && cells[p.block].Records? && p.index < |cells[p.block].msgs|)
      ensures c == if p.Slot? then p.slot.value else cells[p.block].msgs[p.index]
    {
      c := if p.Slot? then p.slot.value else cells[p.block].msgs[p.index];
    }

    /** The two releases of `vireon_msg_free`, each nulling its field. */
    method FreeFields(c: CMessage) returns (m: CMessage)
      requires FreeMessage(State(), c).Some?
      modifies this
      ensures (State(), m) == FreeMessage(old(State()), c).value
    {
      m := c;
      if m.topic != NULL {
        Drop(m.topic, Layout(CStringKind, |UpToNul(cells[m.topic].buffer)| + 1));
        m := m.(topic := NULL);
      }
      if m.payload != NULL && m.payloadLen > 0 {
        Drop(m.payload, Layout(BytesKind, m.payloadLen));
        m := m.(payload := NULL, payloadLen := 0);
      }
    }

    /** `vireon_msg_free`. The caller's duty is what the free needs: a null pointer, or a struct whose
        non-null pointers are live with the right layout. */
    method MsgFree(p: MessagePtr)
      requires p.Slot? ==> FreeMessage(State(), p.slot.value).Some?
      requires p.Element? ==> FreeElement(State(), p.block, p.index).Some?
      modifies this, Objects(p)
      ensures p.NullPtr? ==> State() == old(State())
      ensures p.Slot? ==> (State(), p.slot.value) == FreeMessage(old(State()), old(p.slot.value)).value
      ensures p.Element? ==> State() == FreeElement(old(State()), p.block, p.index).value
    {
      if p.NullPtr? {
        return;
      }
      var m := Load(p);
      m := FreeFields(m);
      if p.Slot? {
        p.slot.value := m;
      } else {
        cells := cells[p.block := Records(cells[p.block].msgs[p.index := m])];
      }
    }

    /** `vireon_batch_free` */
    method BatchFree(batch: BatchSlot?)
      requires batch != null ==> FreeBatch(State(), batch.value).Some?
      modifies this, batch
      ensures batch == null ==> State() == old(State())
      ensures batch != null ==> (State(), batch.value) == FreeBatch(old(State()), old(batch.value)).value
    {
      if batch == null {
        return;
      }
      var b := batch.value;
      for i := 0 to b.count
        invariant batch.value == b
        invariant FreeElements(State(), b.msgs, i, b.count) == FreeElements(old(State()), b.msgs, 0, b.count)
      {
        MsgFree(Element(b.msgs, i));
      }
      if b.msgs != NULL && b.count > 0 {
        Drop(b.msgs, Layout(RecordsKind, b.count));
      }
      batch.value := ZERO_BATCH;
    }

    /** The end of a batch receive: every message is exported, and their structs become an array. */
    method ExportBatch(msgs: seq<Message>, out: BatchSlot) returns (ghost structs: seq<CMessage>,
                                                                    ghost before: Heap)
      requires msgs != []
      modifies this, out
      ensures Exported(old(State()), before, structs, msgs)
      ensures out.value.msgs != NULL && out.value.msgs !in before.cells && out.value.count == |msgs|
      ensures State() == Allocate(before, out.value.msgs, Records(structs))
    {
      var cs: seq<CMessage> := [];
      ghost var h0 := State();
      for i := 0 to |msgs|
        invariant Exported(h0, State(), cs, msgs[..i])
      {
        ghost var h1 := State();
        var c := SdkMsgToC(msgs[i]);
        ExportedAppend(h0, h1, State(), cs, msgs[..i], c, msgs[i]);
        cs := cs + [c];
        assert msgs[..i] + [msgs[i]] == msgs[..i + 1];
      }
      assert msgs[..|msgs|] == msgs;
      structs, before := cs, State();
      var a := Claim(Records(cs));
      out.value := CBatch(a, |cs|);
    }
  }

  lemma Unused(used: set<Addr>)
    ensures exists a: Addr :: a != NULL && a !in used
  {
    var bound := Bound(used);
    assert bound != NULL && bound !in used;
  }

  ghost function Bound(used: set<Addr>): (b: Addr)
    ensures b > 0 && forall a | a in used :: a < b
  {
    if used == {} then 1
    else
      var a :| a in used;
      var b := Bound(used - {a});
      assert forall x | x in used :: x == a || x in used - {a};
      if a < b then b else a + 1
  }

  lemma ExportedSingle(h0: Heap, h1: Heap, h2: Heap, c: CMessage, m: Message)
    requires c.topic != NULL && c.topic !in h0.cells
    requires h1 == Allocate(h0, c.topic, CString(ExportTopic(m.topic) + [0]))
    requires if m.payload == [] then c.payload == NULL && h2 == h1
             else c.payload != NULL && c.payload !in h1.cells && h2 == Allocate(h1, c.payload, Bytes(m.payload))
    requires c.payloadLen == |m.payload| && c.seqNo == m.seqNo && c.streamId == m.streamId
    ensures Exported(h0, h2, [c], [m])
  {
    if Balanced(h0) {
      AllocateBalanced(h0, c.topic, CString(ExportTopic(m.topic) + [0]));
      if m.payload != [] {
        AllocateBalanced(h1, c.payload, Bytes(m.payload));
      }
    }
    SingleOwned(c);
  }

  lemma {:induction false} OwnedAllAppend(cs: seq<CMessage>, c: CMessage)
    ensures OwnedAll(cs + [c]) == OwnedAll(cs) + Owned(c)
    decreases cs
  {
    if cs == [] {
      assert cs + [c] == [c] && [c][1..] == [];
    } else {
      assert (cs + [c])[1..] == cs[1..] + [c];
      OwnedAllAppend(cs[1..], c);
    }
  }

  lemma RepresentsStays(h1: Heap, h2: Heap, c: CMessage, m: Message)
    requires Represents(h1, c, m)
    requires forall a | a in h1.cells :: a in h2.cells && h2.cells[a] == h1.cells[a]
    ensures Represents(h2, c, m)
  {
  }

  lemma SeparateAppend(cs: seq<CMessage>, c: CMessage)
    requires Separate(cs) && OwnedAll(cs) !! Owned(c)
    ensures Separate(cs + [c])
  {
    OwnedAllContains(cs);
    var all := cs + [c];
    forall i, j | 0 <= i < j < |all| ensures Owned(all[i]) !! Owned(all[j]) {
      if j == |cs| {
        assert Owned(all[i]) <= OwnedAll(cs);
      }
    }
  }

  lemma ExportedAppend(h0: Heap, h1: Heap, h2: Heap, cs: seq<CMessage>, ms: seq<Message>, c: CMessage, m: Message)
    requires Exported(h0, h1, cs, ms) && Exported(h1, h2, [c], [m])
    ensures Exported(h0, h2, cs + [c], ms + [m])
  {
    OwnedAllAppend(cs, c);
    SingleOwned(c);
    SeparateAppend(cs, c);
    var all, msgs := cs + [c], ms + [m];
    forall i | 0 <= i < |all| ensures Represents(h2, all[i], msgs[i]) {
      if i < |cs| {
        RepresentsStays(h1, h2, cs[i], ms[i]);
      } else {
        assert Represents(h2, [c][0], [m][0]);
      }
    }
  }
}
