/**
 The C heap between Rust and PHP: allocation records, the message structs that point into them, and
 the free functions. Releasing memory that is not live, or not with the layout it was allocated with,
 has no result (None). Vectors are exported with capacity equal to length.
 */
module CHeap {
  import opened Base
  import opened CStrings
  import opened Utf8

  type Addr = nat

  const NULL: Addr := 0

  /** `VireonMessage` of src/message.rs. */
  datatype CMessage = CMessage(topic: Addr, payload: Addr, payloadLen: nat, seqNo: u64, streamId: u64)

  /** `VireonMsgBatch`. */
  datatype CBatch = CBatch(msgs: Addr, count: nat)

  const ZERO_MESSAGE := CMessage(NULL, NULL, 0, 0, 0)
  const ZERO_BATCH := CBatch(NULL, 0)

  datatype Block =
    | CString(buffer: seq<byte>)
    | Bytes(bytes: seq<byte>)
    | Records(msgs: seq<CMessage>)

  datatype Kind = CStringKind | BytesKind | RecordsKind

  datatype Layout = Layout(kind: Kind, size: nat)

  function LayoutOf(block: Block): Layout {
    match block
    case CString(buffer) => Layout(CStringKind, |buffer|)
    case Bytes(bytes) => Layout(BytesKind, |bytes|)
    case Records(msgs) => Layout(RecordsKind, |msgs|)
  }

  /** The live blocks, and every allocation and release there has been. */
  datatype Heap = Heap(cells: map<Addr, Block>,
                       allocs: multiset<(Addr, Layout)>, frees: multiset<(Addr, Layout)>)

  /** Each allocation is live or has been released once, under the layout it was made with. */
  ghost predicate Balanced(h: Heap) {
    && NULL !in h.cells
    && forall a: Addr, l: Layout ::
         h.allocs[(a, l)] == h.frees[(a, l)] + (if a in h.cells && LayoutOf(h.cells[a]) == l then 1 else 0)
  }

  function Allocate(h: Heap, a: Addr, block: Block): Heap {
    h.(cells := h.cells[a := block], allocs := h.allocs + multiset{(a, LayoutOf(block))})
  }

  function Release(h: Heap, a: Addr, layout: Layout): Option<Heap> {
    if a in h.cells && LayoutOf(h.cells[a]) == layout
    then Some(h.(cells := h.cells - {a}, frees := h.frees + multiset{(a, layout)}))
    else None
  }

  /** `CString::from_raw` finds the length by scanning for the terminator. */
  function ReleaseCString(h: Heap, a: Addr): Option<Heap> {
    if a in h.cells && h.cells[a].CString?
    then Release(h, a, Layout(CStringKind, |UpToNul(h.cells[a].buffer)| + 1))
    else None
  }

  // ---------------------------------------------------------------- vireon_msg_free, vireon_batch_free

  /** What freeing leaves of a struct: the sequence number and stream id. */
  function Nulled(c: CMessage): CMessage {
    var topicFreed := c.(topic := NULL);
    if c.payload != NULL && c.payloadLen > 0 then topicFreed.(payload := NULL, payloadLen := 0) else topicFreed
  }

  function FreeMessage(h: Heap, c: CMessage): Option<(Heap, CMessage)> {
    var h1 := if c.topic != NULL then ReleaseCString(h, c.topic) else Some(h);
    if h1.None? then None
    else
      var h2 := if c.payload != NULL && c.payloadLen > 0
                then Release(h1.value, c.payload, Layout(BytesKind, c.payloadLen)) else h1;
      if h2.None? then None else Some((h2.value, Nulled(c)))
  }

  /** `vireon_msg_free` on element `i` of the array at `a`. */
  function FreeElement(h: Heap, a: Addr, i: nat): Option<Heap> {
    if a in h.cells && h.cells[a].Records? && i < |h.cells[a].msgs| then
      match FreeMessage(h, h.cells[a].msgs[i])
      case None => None
      case Some((h1, c)) => Some(h1.(cells := h1.cells[a := Records(h.cells[a].msgs[i := c])]))
    else None
  }

  function FreeElements(h: Heap, a: Addr, i: nat, count: nat): Option<Heap>
    decreases count - i
  {
    if i >= count then Some(h)
    else
      match FreeElement(h, a, i)
      case None => None
      case Some(h1) => FreeElements(h1, a, i + 1, count)
  }

  function FreeBatch(h: Heap, b: CBatch): Option<(Heap, CBatch)> {
    match FreeElements(h, b.msgs, 0, b.count)
    case None => None
    case Some(h1) =>
      var h2 := if b.msgs != NULL && b.count > 0
                then Release(h1, b.msgs, Layout(RecordsKind, b.count)) else Some(h1);
      if h2.None? then None else Some((h2.value, ZERO_BATCH))
  }

  // ---------------------------------------------------------------- ownership

  /** The blocks a struct's free would release. */
  function Owned(c: CMessage): set<Addr> {
    (if c.topic != NULL then {c.topic} else {})
    + (if c.payload != NULL && c.payloadLen > 0 then {c.payload} else {})
  }

  predicate Terminated(buffer: seq<byte>) {
    |buffer| == |UpToNul(buffer)| + 1
  }

  /** The struct's non-null pointers lead to live blocks of the right kind and length. */
  predicate Sound(h: Heap, c: CMessage) {
    && (c.topic != NULL ==>
          c.topic in h.cells && h.cells[c.topic].CString? && Terminated(h.cells[c.topic].buffer))
    && (c.payload != NULL && c.payloadLen > 0 ==>
          c.payload in h.cells && h.cells[c.payload].Bytes? && |h.cells[c.payload].bytes| == c.payloadLen)
  }

  function OwnedAll(cs: seq<CMessage>): set<Addr> {
    if cs == [] then {} else Owned(cs[0]) + OwnedAll(cs[1..])
  }

  lemma SingleOwned(c: CMessage)
    ensures OwnedAll([c]) == Owned(c)
  {
    assert [c][1..] == [];
    assert OwnedAll([c][1..]) == {};
  }

  predicate Separate(cs: seq<CMessage>) {
    forall i, j | 0 <= i < j < |cs| :: Owned(cs[i]) !! Owned(cs[j])
  }

  function NulledAll(cs: seq<CMessage>): seq<CMessage> {
    seq(|cs|, i requires 0 <= i < |cs| => Nulled(cs[i]))
  }

  lemma {:induction false} OwnedAllContains(cs: seq<CMessage>)
    ensures forall i | 0 <= i < |cs| :: Owned(cs[i]) <= OwnedAll(cs)
    ensures forall a | a in OwnedAll(cs) :: exists i :: 0 <= i < |cs| && a in Owned(cs[i])
    decreases cs
  {
    if cs != [] {
      OwnedAllContains(cs[1..]);
      forall i | 0 <= i < |cs| ensures Owned(cs[i]) <= OwnedAll(cs) {
        if i > 0 { assert cs[i] == cs[1..][i - 1]; }
      }
      forall a | a in OwnedAll(cs) ensures exists i :: 0 <= i < |cs| && a in Owned(cs[i]) {
        if a in Owned(cs[0]) {
        } else {
          var k :| 0 <= k < |cs[1..]| && a in Owned(cs[1..][k]);
          assert a in Owned(cs[k + 1]);
        }
      }
    }
  }

  // ---------------------------------------------------------------- the ledger

  lemma AllocateBalanced(h: Heap, a: Addr, block: Block)
    requires Balanced(h) && a != NULL && a !in h.cells
    ensures Balanced(Allocate(h, a, block))
  {
  }

  lemma ReleaseBalanced(h: Heap, a: Addr, layout: Layout)
    requires Balanced(h) && Release(h, a, layout).Some?
    ensures Balanced(Release(h, a, layout).value)
    ensures Release(h, a, layout).value.allocs == h.allocs
  {
  }

  lemma FreeMessageBalanced(h: Heap, c: CMessage)
    requires Balanced(h) && FreeMessage(h, c).Some?
    ensures Balanced(FreeMessage(h, c).value.0)
    ensures FreeMessage(h, c).value.0.allocs == h.allocs
  {
    if c.topic != NULL {
      ReleaseBalanced(h, c.topic, Layout(CStringKind, |UpToNul(h.cells[c.topic].buffer)| + 1));
    }
    var h1 := if c.topic != NULL then ReleaseCString(h, c.topic).value else h;
    if c.payload != NULL && c.payloadLen > 0 {
      ReleaseBalanced(h1, c.payload, Layout(BytesKind, c.payloadLen));
    }
  }

  /** Writing into a live array keeps its layout. */
  lemma RewriteBalanced(h: Heap, a: Addr, cs: seq<CMessage>)
    requires Balanced(h) && a in h.cells && LayoutOf(h.cells[a]) == Layout(RecordsKind, |cs|)
    ensures Balanced(h.(cells := h.cells[a := Records(cs)]))
  {
  }

  /** From `h0` to `h1` nothing stays behind: the same blocks are live, and what was allocated in
      between is what was released, the same addresses with the same kinds and lengths, equally often. */
  ghost predicate Settled(h0: Heap, h1: Heap) {
    && h1.cells == h0.cells && Balanced(h1)
    && h0.allocs <= h1.allocs && h0.frees <= h1.frees
    && h1.allocs - h0.allocs == h1.frees - h0.frees
  }

  lemma EqualCellsMeanAllReleased(h0: Heap, h1: Heap)
    requires Balanced(h0) && Balanced(h1) && h0.cells == h1.cells
    requires h0.allocs <= h1.allocs && h0.frees <= h1.frees
    ensures Settled(h0, h1)
  {
    forall p: (Addr, Layout)
      ensures (h1.allocs - h0.allocs)[p] == (h1.frees - h0.frees)[p]
    {
      var (a, l) := p;
      assert h1.allocs[(a, l)] - h0.allocs[(a, l)] == h1.frees[(a, l)] - h0.frees[(a, l)];
    }
  }

  // ---------------------------------------------------------------- freeing releases what is owned

  /** Freeing a sound struct never goes wrong, releases what it owns and nothing else, and leaves a
      struct that owns nothing and still has its two numbers: freeing it again changes nothing. */
  lemma FreeMessageReleasesOwned(h: Heap, c: CMessage)
    requires Sound(h, c)
    ensures FreeMessage(h, c).Some?
    ensures var (h', c') := FreeMessage(h, c).value;
      && h'.cells == h.cells - Owned(c)
      && c' == Nulled(c) && Owned(c') == {} && FreeMessage(h', c') == Some((h', c'))
      && c'.topic == 0 && c'.seqNo == c.seqNo && c'.streamId == c.streamId
      && (if c.payload != 0 && c.payloadLen > 0 then c'.payload == 0 && c'.payloadLen == 0
          else c'.payload == c.payload && c'.payloadLen == c.payloadLen)
  {
    var (h', c') := FreeMessage(h, c).value;
    assert h'.cells == h.cells - Owned(c);
  }

  lemma FreeElementReleasesOwned(h: Heap, a: Addr, i: nat)
    requires a in h.cells && h.cells[a].Records? && i < |h.cells[a].msgs|
    requires Sound(h, h.cells[a].msgs[i])
    ensures var cs := h.cells[a].msgs;
      && FreeElement(h, a, i).Some?
      && FreeElement(h, a, i).value.cells == (h.cells - Owned(cs[i]))[a := Records(cs[i := Nulled(cs[i])])]
  {
    FreeMessageReleasesOwned(h, h.cells[a].msgs[i]);
  }

  lemma FreeElementBalanced(h: Heap, a: Addr, i: nat)
    requires Balanced(h) && FreeElement(h, a, i).Some?
    ensures Balanced(FreeElement(h, a, i).value)
    ensures FreeElement(h, a, i).value.allocs == h.allocs
  {
    var cs := h.cells[a].msgs;
    FreeMessageBalanced(h, cs[i]);
    var (h1, c) := FreeMessage(h, cs[i]).value;
    assert a in h1.cells && h1.cells[a] == h.cells[a];
    RewriteBalanced(h1, a, cs[i := c]);
  }

  /** The loop of `vireon_batch_free` from index `i` on. */
  lemma {:induction false} FreeElementsReleasesOwned(h: Heap, a: Addr, i: nat, cs: seq<CMessage>)
    requires a in h.cells && h.cells[a] == Records(cs) && i <= |cs|
    requires forall j | i <= j < |cs| :: Sound(h, cs[j])
    requires Separate(cs)
    ensures FreeElements(h, a, i, |cs|).Some?
    ensures FreeElements(h, a, i, |cs|).value.cells
         == (h.cells - OwnedAll(cs[i..]))[a := Records(cs[..i] + NulledAll(cs[i..]))]
    decreases |cs| - i
  {
    if i == |cs| {
      assert cs[i..] == [] && cs[..i] + NulledAll([]) == cs;
    } else {
      FreeElementReleasesOwned(h, a, i);
      var h1 := FreeElement(h, a, i).value;
      var cs1 := cs[i := Nulled(cs[i])];
      OthersStaySound(h, h1, a, i, cs);
      FreeElementsReleasesOwned(h1, a, i + 1, cs1);
      assert cs1[i + 1..] == cs[i + 1..] == cs[i..][1..];
      assert OwnedAll(cs[i..]) == Owned(cs[i]) + OwnedAll(cs[i + 1..]);
      assert cs1[..i + 1] + NulledAll(cs1[i + 1..]) == cs[..i] + NulledAll(cs[i..]);
      RemoveTwice(h.cells, Owned(cs[i]), OwnedAll(cs[i + 1..]), a,
                  Records(cs1), Records(cs[..i] + NulledAll(cs[i..])));
    }
  }

  lemma RemoveTwice(cells: map<Addr, Block>, first: set<Addr>, second: set<Addr>, a: Addr,
                    block: Block, final: Block)
    ensures ((cells - first)[a := block] - second)[a := final] == (cells - (first + second))[a := final]
  {
  }

  lemma OthersStaySound(h: Heap, h1: Heap, a: Addr, i: nat, cs: seq<CMessage>)
    requires a in h.cells && h.cells[a] == Records(cs) && i < |cs|
    requires forall j | i <= j < |cs| :: Sound(h, cs[j])
    requires Separate(cs)
    requires h1.cells == (h.cells - Owned(cs[i]))[a := Records(cs[i := Nulled(cs[i])])]
    ensures var cs1 := cs[i := Nulled(cs[i])];
      Separate(cs1) && forall j | i + 1 <= j < |cs1| :: Sound(h1, cs1[j])
  {
    var cs1 := cs[i := Nulled(cs[i])];
    forall j | i + 1 <= j < |cs1| ensures Sound(h1, cs1[j]) {
      assert cs1[j] == cs[j] && Sound(h, cs[j]) && Owned(cs[i]) !! Owned(cs[j]);
    }
    forall j, k | 0 <= j < k < |cs1| ensures Owned(cs1[j]) !! Owned(cs1[k]) {
      assert Owned(cs1[j]) <= Owned(cs[j]) && Owned(cs1[k]) <= Owned(cs[k]);
    }
  }

  /** `vireon_batch_free` releases what the elements still own and the array, and nothing else. */
  lemma FreeBatchReleasesOwned(h: Heap, b: CBatch, cs: seq<CMessage>)
    requires b.msgs in h.cells && b.msgs != NULL && h.cells[b.msgs] == Records(cs) && |cs| == b.count > 0
    requires forall j | 0 <= j < |cs| :: Sound(h, cs[j])
    requires Separate(cs)
    ensures FreeBatch(h, b).Some? && FreeBatch(h, b).value.1 == ZERO_BATCH
    ensures FreeBatch(h, b).value.0.cells == h.cells - OwnedAll(cs) - {b.msgs}
  {
    FreeElementsReleasesOwned(h, b.msgs, 0, cs);
    assert cs[0..] == cs;
  }

  lemma {:induction false} FreeElementsBalanced(h: Heap, a: Addr, i: nat, count: nat)
    requires Balanced(h) && FreeElements(h, a, i, count).Some?
    ensures Balanced(FreeElements(h, a, i, count).value)
    ensures FreeElements(h, a, i, count).value.allocs == h.allocs
    decreases count - i
  {
    if i < count {
      FreeElementBalanced(h, a, i);
      FreeElementsBalanced(FreeElement(h, a, i).value, a, i + 1, count);
    }
  }

  lemma FreeBatchBalanced(h: Heap, b: CBatch)
    requires Balanced(h) && FreeBatch(h, b).Some?
    ensures Balanced(FreeBatch(h, b).value.0)
    ensures FreeBatch(h, b).value.0.allocs == h.allocs
  {
    FreeElementsBalanced(h, b.msgs, 0, b.count);
    var h1 := FreeElements(h, b.msgs, 0, b.count).value;
    if b.msgs != NULL && b.count > 0 {
      ReleaseBalanced(h1, b.msgs, Layout(RecordsKind, b.count));
    }
  }

  // ---------------------------------------------------------------- export and decoding

  /** `c` is the exported form of `m`. */
  predicate Represents(h: Heap, c: CMessage, m: Message) {
    && c.topic != NULL && c.topic in h.cells && h.cells[c.topic] == CString(ExportTopic(m.topic) + [0])
    && c.payloadLen == |m.payload|
    && (if m.payload == [] then c.payload == NULL
        else c.payload != NULL && c.payload in h.cells && h.cells[c.payload] == Bytes(m.payload))
    && c.seqNo == m.seqNo && c.streamId == m.streamId
  }

  /** From `h0` to `h1`, exactly the messages `ms` were exported, as the structs `cs`. */
  ghost predicate Exported(h0: Heap, h1: Heap, cs: seq<CMessage>, ms: seq<Message>) {
    && |cs| == |ms|
    && (forall i | 0 <= i < |cs| :: Represents(h1, cs[i], ms[i]))
    && Separate(cs)
    && OwnedAll(cs) !! h0.cells.Keys
    && h1.cells.Keys == h0.cells.Keys + OwnedAll(cs)
    && (forall a | a in h0.cells :: h1.cells[a] == h0.cells[a])
    && h1.frees == h0.frees && h0.allocs <= h1.allocs
    && (Balanced(h0) ==> Balanced(h1))
  }

  /** PHP's `FFI::string` on a `char*`. */
  function ReadCString(h: Heap, a: Addr): Option<seq<byte>> {
    if a in h.cells && h.cells[a].CString? then Some(UpToNul(h.cells[a].buffer)) else None
  }

  /** PHP's `FFI::string` with a length. */
  function ReadBytes(h: Heap, a: Addr, len: nat): Option<seq<byte>> {
    if a in h.cells && h.cells[a].Bytes? && len <= |h.cells[a].bytes| then Some(h.cells[a].bytes[..len]) else None
  }

  /** The reading part of `msgFromNative`, and the loop body of `recvBatch`. */
  function Decode(h: Heap, c: CMessage): Option<PhpMessage> {
    var topic := if c.topic != NULL then ReadCString(h, c.topic) else Some([]);
    var payload := if c.payload != NULL && c.payloadLen > 0 then ReadBytes(h, c.payload, c.payloadLen) else Some([]);
    if topic.None? || payload.None? then None
    else Some(PhpMessage(topic.value, payload.value, ToPhpInt(c.seqNo), ToPhpInt(c.streamId)))
  }

  /** What PHP should see of a message. */
  function Received(m: Message): PhpMessage {
    PhpMessage(ReceivedTopic(m.topic), m.payload, ToPhpInt(m.seqNo), ToPhpInt(m.streamId))
  }

  function ReceivedAll(ms: seq<Message>): seq<PhpMessage> {
    seq(|ms|, i requires 0 <= i < |ms| => Received(ms[i]))
  }

  /** Export followed by PHP's reading gives back the payload byte for byte, NULs and emptiness
      included, and the two numbers; and the exported struct can be freed. */
  lemma DecodeInvertsExport(h: Heap, c: CMessage, m: Message)
    requires Represents(h, c, m)
    ensures Decode(h, c) == Some(Received(m))
    ensures Sound(h, c)
    ensures Owned(c) == {c.topic} + (if m.payload == [] then {} else {c.payload})
  {
    ReceivedTopicIs(m.topic);
    assert m.payload[..|m.payload|] == m.payload;
  }

  /** From PHP to PHP: what a publisher hands over, carried unchanged, exported and read by a receiver,
      is the publisher's topic up to its first NUL, repaired, and the very same payload. */
  lemma PublishedMessageArrives(h: Heap, c: CMessage, topic: seq<byte>, payload: seq<byte>, seqNo: u64, id: u64)
    requires Represents(h, c, Message(PublishedTopic(topic), payload, seqNo, id))
    ensures Decode(h, c).Some?
    ensures var p := Decode(h, c).value;
      && p.topic == Lossy(UpToNul(topic)) && p.payload == payload
      && (p.topic == topic <==> Valid(topic) && 0 !in topic)
      && (p.seqNo == seqNo <==> seqNo < TWO_63) && (p.streamId == id <==> id < TWO_63)
  {
    DecodeInvertsExport(h, c, Message(PublishedTopic(topic), payload, seqNo, id));
    TopicRoundTrip(topic);
    TopicRoundTripIdentity(topic);
    PhpIntFaithful(seqNo, id);
    PhpIntFaithful(id, seqNo);
  }

  /** Exporting a batch into an array, decoding every element and freeing the batch: PHP gets the
      messages in order, and the heap is back where it was with every allocation released once. */
  lemma BatchRoundTrip(h0: Heap, h1: Heap, h2: Heap, b: CBatch, cs: seq<CMessage>, ms: seq<Message>)
    requires Exported(h0, h1, cs, ms) && ms != []
    requires b.msgs != NULL && b.msgs !in h1.cells && b.count == |ms|
    requires h2 == Allocate(h1, b.msgs, Records(cs))
    ensures forall i | 0 <= i < |cs| :: Decode(h2, cs[i]) == Some(Received(ms[i]))
    ensures FreeBatch(h2, b).Some? && FreeBatch(h2, b).value.0.cells == h0.cells
    ensures Balanced(h0) ==> Settled(h0, FreeBatch(h2, b).value.0)
  {
    forall i | 0 <= i < |cs| ensures Decode(h2, cs[i]) == Some(Received(ms[i])) && Sound(h2, cs[i]) {
      assert Represents(h1, cs[i], ms[i]);
      DecodeInvertsExport(h2, cs[i], ms[i]);
    }
    FreeBatchReleasesOwned(h2, b, cs);
    RestoresCells(h0, h1, b.msgs, cs, ms);
    if Balanced(h0) {
      AllocateBalanced(h1, b.msgs, Records(cs));
      FreeBatchBalanced(h2, b);
      FreeBatchReleasedGrows(h2, b);
      EqualCellsMeanAllReleased(h0, FreeBatch(h2, b).value.0);
    }
  }

  lemma RestoresCells(h0: Heap, h1: Heap, a: Addr, cs: seq<CMessage>, ms: seq<Message>)
    requires Exported(h0, h1, cs, ms) && a !in h1.cells
    ensures h1.cells[a := Records(cs)] - OwnedAll(cs) - {a} == h0.cells
  {
  }

  lemma FreeMessageReleasedGrows(h: Heap, c: CMessage)
    requires FreeMessage(h, c).Some?
    ensures h.frees <= FreeMessage(h, c).value.0.frees
  {
  }

  lemma {:induction false} FreeElementsReleasedGrows(h: Heap, a: Addr, i: nat, count: nat)
    requires FreeElements(h, a, i, count).Some?
    ensures h.frees <= FreeElements(h, a, i, count).value.frees
    decreases count - i
  {
    if i < count {
      FreeMessageReleasedGrows(h, h.cells[a].msgs[i]);
      FreeElementsReleasedGrows(FreeElement(h, a, i).value, a, i + 1, count);
    }
  }

  lemma FreeBatchReleasedGrows(h: Heap, b: CBatch)
    requires FreeBatch(h, b).Some?
    ensures h.frees <= FreeBatch(h, b).value.0.frees
  {
    FreeElementsReleasedGrows(h, b.msgs, 0, b.count);
  }
}
