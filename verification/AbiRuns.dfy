/**
 Runs of a C caller: it receives messages and batches into structs of its own and calls the free
 functions on them, and on single elements of batches, in any order and as often as it likes.
 The one rule is the documented one, that a struct is freed before it is used for another receive.
 */
module AbiRuns {
  import opened Base
  import opened CHeap

  /** A struct in the caller's memory. */
  datatype Held = One(message: CMessage) | Many(batch: CBatch)

  datatype World = World(heap: Heap, held: map<nat, Held>)

  /** A receiving step names what the callee returned and the heap it left. */
  datatype Step =
    | Receive(slot: nat, m: Message, c: CMessage, after: Heap)
    | ReceiveBatch(slot: nat, ms: seq<Message>, cs: seq<CMessage>, before: Heap, a: Addr)
    | FreeOne(slot: nat)
    | FreeElementOf(slot: nat, index: nat)
    | FreeMany(slot: nat)

  /** The structs a held value leads to. */
  function Structs(h: Heap, v: Held): seq<CMessage> {
    match v
    case One(c) => [c]
    case Many(b) => if b.msgs in h.cells && h.cells[b.msgs].Records? then h.cells[b.msgs].msgs else []
  }

  /** Every block that can be released through a held value. */
  function Reach(h: Heap, v: Held): set<Addr> {
    OwnedAll(Structs(h, v)) + (if v.Many? && v.batch.count > 0 then {v.batch.msgs} else {})
  }

  /** What the caller may do: it does not overwrite a struct that still owns something, and takes
      elements only from within the batch. */
  ghost predicate Offered(w: World, step: Step) {
    match step
    case Receive(slot, m, c, after) =>
      && (slot in w.held ==> Reach(w.heap, w.held[slot]) == {})
      && Exported(w.heap, after, [c], [m])
    case ReceiveBatch(slot, ms, cs, before, a) =>
      && (slot in w.held ==> Reach(w.heap, w.held[slot]) == {})
      && ms != [] && Exported(w.heap, before, cs, ms) && a != NULL && a !in before.cells
    case FreeOne(slot) => slot in w.held && w.held[slot].One?
    case FreeElementOf(slot, i) => slot in w.held && w.held[slot].Many? && i < w.held[slot].batch.count
    case FreeMany(slot) => slot in w.held && w.held[slot].Many?
  }

  /** None when a free goes wrong. */
  ghost function After(w: World, step: Step): Option<World>
    requires Offered(w, step)
  {
    match step
    case Receive(slot, _, c, after) => Some(World(after, w.held[slot := One(c)]))
    case ReceiveBatch(slot, _, cs, before, a) =>
      Some(World(Allocate(before, a, Records(cs)), w.held[slot := Many(CBatch(a, |cs|))]))
    case FreeOne(slot) =>
      (match FreeMessage(w.heap, w.held[slot].message)
       case None => None
       case Some((h, c)) => Some(World(h, w.held[slot := One(c)])))
    case FreeElementOf(slot, i) =>
      (match FreeElement(w.heap, w.held[slot].batch.msgs, i)
       case None => None
       case Some(h) => Some(World(h, w.held)))
    case FreeMany(slot) =>
      (match FreeBatch(w.heap, w.held[slot].batch)
       case None => None
       case Some((h, b)) => Some(World(h, w.held[slot := Many(b)])))
  }

  /** Every step is one the caller may take, given that the earlier ones succeeded. */
  ghost predicate Permitted(w: World, steps: seq<Step>)
    decreases steps
  {
    steps == [] ||
    (Offered(w, steps[0]) && (After(w, steps[0]).Some? ==> Permitted(After(w, steps[0]).value, steps[1..])))
  }

  ghost function Run(w: World, steps: seq<Step>): Option<World>
    requires Permitted(w, steps)
    decreases steps
  {
    if steps == [] then Some(w)
    else if After(w, steps[0]).None? then None
    else Run(After(w, steps[0]).value, steps[1..])
  }

  const EMPTY := World(Heap(map[], multiset{}, multiset{}), map[])

  // ---------------------------------------------------------------- the invariant

  ghost predicate HeldOk(h: Heap, v: Held) {
    && (v.Many? && v.batch != ZERO_BATCH ==>
          && v.batch.msgs in h.cells && h.cells[v.batch.msgs].Records?
          && |h.cells[v.batch.msgs].msgs| == v.batch.count > 0)
    && Separate(Structs(h, v))
    && forall i | 0 <= i < |Structs(h, v)| :: Sound(h, Structs(h, v)[i])
  }

  ghost predicate Disjoint(w: World) {
    forall s, t | s in w.held && t in w.held && s != t :: Reach(w.heap, w.held[s]) !! Reach(w.heap, w.held[t])
  }

  ghost predicate Reachable(w: World, a: Addr) {
    exists s :: s in w.held && a in Reach(w.heap, w.held[s])
  }

  ghost predicate AllOk(w: World) {
    forall s | s in w.held :: HeldOk(w.heap, w.held[s])
  }

  ghost predicate AllReachable(w: World) {
    forall a | a in w.heap.cells :: Reachable(w, a)
  }

  /** Each live block is reached from exactly one held struct, in exactly one place, and with the kind
      and length it was allocated with; and every allocation is live or was released once. */
  ghost predicate Inv(w: World) {
    Balanced(w.heap) && AllOk(w) && Disjoint(w) && AllReachable(w)
  }

  lemma ReachIsLive(h: Heap, v: Held)
    requires HeldOk(h, v) && NULL !in h.cells
    ensures Reach(h, v) <= h.cells.Keys
    ensures v.Many? && v.batch.count > 0 ==> v.batch.msgs !in OwnedAll(Structs(h, v))
  {
    OwnedAllContains(Structs(h, v));
  }

  predicate Same(h: Heap, h': Heap, addrs: set<Addr>) {
    forall a | a in addrs :: a in h.cells && a in h'.cells && h.cells[a] == h'.cells[a]
  }

  /** A held value only depends on the blocks it reaches. */
  lemma HeldOkFrame(h: Heap, h': Heap, v: Held)
    requires HeldOk(h, v) && NULL !in h.cells && NULL !in h'.cells
    requires Same(h, h', Reach(h, v))
    ensures HeldOk(h', v) && Reach(h', v) == Reach(h, v)
  {
    OwnedAllContains(Structs(h, v));
    assert Structs(h', v) == Structs(h, v);
  }

  /** Slot `slot` is about to hold `v` in the heap `h`, and only that slot's blocks change hands. */
  ghost predicate Replaces(w: World, slot: nat, v: Held, h: Heap, before: set<Addr>) {
    && Inv(w) && Balanced(h) && HeldOk(h, v)
    && before == (if slot in w.held then Reach(w.heap, w.held[slot]) else {})
    && Same(w.heap, h, w.heap.cells.Keys - before)
    && h.cells.Keys == (w.heap.cells.Keys - before) + Reach(h, v)
    && Reach(h, v) !! (w.heap.cells.Keys - before)
  }

  lemma OtherSlotUntouched(w: World, s: nat, slot: nat, v: Held, h: Heap, before: set<Addr>)
    requires Replaces(w, slot, v, h, before) && s in w.held && s != slot
    ensures HeldOk(h, w.held[s]) && Reach(h, w.held[s]) == Reach(w.heap, w.held[s])
    ensures Reach(h, w.held[s]) <= w.heap.cells.Keys - before && Reach(h, w.held[s]) !! Reach(h, v)
  {
    ReachIsLive(w.heap, w.held[s]);
    HeldOkFrame(w.heap, h, w.held[s]);
  }

  lemma ReplaceKeepsOk(w: World, slot: nat, v: Held, h: Heap, before: set<Addr>)
    requires Replaces(w, slot, v, h, before)
    ensures AllOk(World(h, w.held[slot := v]))
  {
    var held := w.held[slot := v];
    forall s | s in held ensures HeldOk(h, held[s]) {
      if s != slot { OtherSlotUntouched(w, s, slot, v, h, before); }
    }
  }

  lemma ReplaceKeepsDisjoint(w: World, slot: nat, v: Held, h: Heap, before: set<Addr>)
    requires Replaces(w, slot, v, h, before)
    ensures Disjoint(World(h, w.held[slot := v]))
  {
    var held := w.held[slot := v];
    forall s, t | s in held && t in held && s != t ensures Reach(h, held[s]) !! Reach(h, held[t]) {
      if s != slot { OtherSlotUntouched(w, s, slot, v, h, before); }
      if t != slot { OtherSlotUntouched(w, t, slot, v, h, before); }
    }
  }

  lemma ReplaceKeepsReachable(w: World, slot: nat, v: Held, h: Heap, before: set<Addr>)
    requires Replaces(w, slot, v, h, before)
    ensures AllReachable(World(h, w.held[slot := v]))
  {
    var r := World(h, w.held[slot := v]);
    forall a | a in h.cells ensures Reachable(r, a) {
      if a in Reach(h, v) {
        assert r.held[slot] == v;
      } else {
        assert Reachable(w, a);
        var s :| s in w.held && a in Reach(w.heap, w.held[s]);
        OtherSlotUntouched(w, s, slot, v, h, before);
        assert r.held[s] == w.held[s];
      }
    }
  }

  lemma ReplaceKeepsInv(w: World, slot: nat, v: Held, h: Heap, before: set<Addr>)
    requires Replaces(w, slot, v, h, before)
    ensures Inv(World(h, w.held[slot := v]))
  {
    ReplaceKeepsOk(w, slot, v, h, before);
    ReplaceKeepsDisjoint(w, slot, v, h, before);
    ReplaceKeepsReachable(w, slot, v, h, before);
  }

  // ---------------------------------------------------------------- steps

  lemma ReceiveKeepsInv(w: World, slot: nat, m: Message, c: CMessage, after: Heap)
    requires Inv(w) && Offered(w, Receive(slot, m, c, after))
    ensures Inv(World(after, w.held[slot := One(c)]))
  {
    assert Represents(after, [c][0], [m][0]);
    DecodeInvertsExport(after, c, m);
    ReplaceKeepsInv(w, slot, One(c), after, {});
  }

  lemma ReceivedBatchOk(h0: Heap, before: Heap, a: Addr, cs: seq<CMessage>, ms: seq<Message>)
    requires Balanced(h0) && Exported(h0, before, cs, ms) && ms != [] && a != NULL && a !in before.cells
    ensures var h, v := Allocate(before, a, Records(cs)), Many(CBatch(a, |cs|));
      && Balanced(h) && HeldOk(h, v)
      && h.cells.Keys == h0.cells.Keys + Reach(h, v) && Reach(h, v) !! h0.cells.Keys
      && Same(h0, h, h0.cells.Keys)
  {
    var h, v := Allocate(before, a, Records(cs)), Many(CBatch(a, |cs|));
    AllocateBalanced(before, a, Records(cs));
    assert Structs(h, v) == cs;
    forall i | 0 <= i < |cs| ensures Sound(h, cs[i]) {
      assert Represents(before, cs[i], ms[i]);
      DecodeInvertsExport(h, cs[i], ms[i]);
    }
  }

  lemma ReceiveBatchKeepsInv(w: World, slot: nat, ms: seq<Message>, cs: seq<CMessage>, before: Heap, a: Addr)
    requires Inv(w) && Offered(w, ReceiveBatch(slot, ms, cs, before, a))
    ensures Inv(World(Allocate(before, a, Records(cs)), w.held[slot := Many(CBatch(a, |cs|))]))
  {
    ReceivedBatchOk(w.heap, before, a, cs, ms);
    ReplaceKeepsInv(w, slot, Many(CBatch(a, |cs|)), Allocate(before, a, Records(cs)), {});
  }

  lemma FreeOneHeap(h: Heap, c: CMessage)
    requires Balanced(h) && HeldOk(h, One(c))
    ensures FreeMessage(h, c).Some?
    ensures var (h', c') := FreeMessage(h, c).value;
      && Balanced(h') && HeldOk(h', One(c')) && Reach(h', One(c')) == {}
      && h'.cells == h.cells - Reach(h, One(c))
  {
    assert Sound(h, Structs(h, One(c))[0]);
    FreeMessageReleasesOwned(h, c);
    FreeMessageBalanced(h, c);
    SingleOwned(c);
    SingleOwned(Nulled(c));
  }

  lemma FreeOneWorks(w: World, slot: nat)
    requires Inv(w) && Offered(w, FreeOne(slot))
    ensures After(w, FreeOne(slot)).Some?
    ensures var r := After(w, FreeOne(slot)).value;
      && Inv(r) && r.heap.cells == w.heap.cells - Reach(w.heap, w.held[slot])
      && Reach(r.heap, r.held[slot]) == {}
  {
    var c := w.held[slot].message;
    FreeOneHeap(w.heap, c);
    ReachIsLive(w.heap, w.held[slot]);
    var (h, c') := FreeMessage(w.heap, c).value;
    ReplaceKeepsInv(w, slot, One(c'), h, Reach(w.heap, w.held[slot]));
  }

  lemma {:induction false} OwnedAllUpdate(cs: seq<CMessage>, i: nat)
    requires i < |cs| && Separate(cs)
    ensures OwnedAll(cs[i := Nulled(cs[i])]) == OwnedAll(cs) - Owned(cs[i])
    ensures Separate(cs[i := Nulled(cs[i])])
  {
    var cs' := cs[i := Nulled(cs[i])];
    OwnedAllContains(cs);
    OwnedAllContains(cs');
    forall j | 0 <= j < |cs| ensures Owned(cs'[j]) == if j == i then {} else Owned(cs[j]) {
    }
    forall a ensures a in OwnedAll(cs') <==> a in OwnedAll(cs) - Owned(cs[i]) {
      if a in OwnedAll(cs') {
        var j :| 0 <= j < |cs'| && a in Owned(cs'[j]);
        assert j != i && a in Owned(cs[j]);
        assert Owned(cs[j]) <= OwnedAll(cs);
      }
      if a in OwnedAll(cs) - Owned(cs[i]) {
        var j :| 0 <= j < |cs| && a in Owned(cs[j]);
        assert j != i && a in Owned(cs'[j]);
        assert Owned(cs'[j]) <= OwnedAll(cs');
      }
    }
  }

  /** The heap after freeing element `i` of the batch in `slot`. */
  lemma FreeElementHeap(h: Heap, v: Held, i: nat)
    requires Balanced(h) && HeldOk(h, v) && v.Many? && i < v.batch.count
    ensures FreeElement(h, v.batch.msgs, i).Some?
    ensures var h' := FreeElement(h, v.batch.msgs, i).value;
      && Balanced(h') && HeldOk(h', v) && h'.allocs == h.allocs
      && h'.cells.Keys == (h.cells.Keys - Reach(h, v)) + Reach(h', v) && Reach(h', v) <= Reach(h, v)
      && Same(h, h', h.cells.Keys - Reach(h, v))
  {
    var a, cs := v.batch.msgs, Structs(h, v);
    assert Sound(h, cs[i]);
    FreeElementReleasesOwned(h, a, i);
    FreeElementBalanced(h, a, i);
    ReachIsLive(h, v);
    ElementFreed(h, FreeElement(h, a, i).value, v, i);
  }

  lemma ElementFreed(h: Heap, h': Heap, v: Held, i: nat)
    requires NULL !in h.cells && HeldOk(h, v) && v.Many? && i < v.batch.count
    requires var cs := Structs(h, v);
      h'.cells == (h.cells - Owned(cs[i]))[v.batch.msgs := Records(cs[i := Nulled(cs[i])])]
    ensures HeldOk(h', v)
    ensures h'.cells.Keys == (h.cells.Keys - Reach(h, v)) + Reach(h', v) && Reach(h', v) <= Reach(h, v)
    ensures Same(h, h', h.cells.Keys - Reach(h, v))
  {
    var cs := Structs(h, v);
    var cs' := cs[i := Nulled(cs[i])];
    assert Structs(h', v) == cs';
    OwnedAllUpdate(cs, i);
    forall j | 0 <= j < |cs'| ensures Sound(h', cs'[j]) {
      SoundAfterElement(h, h', v.batch.msgs, cs, i, j);
    }
    ReachIsLive(h, v);
    assert Owned(cs[i]) <= OwnedAll(cs) by { OwnedAllContains(cs); }
    assert Reach(h', v) == Reach(h, v) - Owned(cs[i]);
  }

  lemma SoundAfterElement(h: Heap, h': Heap, a: Addr, cs: seq<CMessage>, i: nat, j: nat)
    requires i < |cs| && j < |cs| && Separate(cs) && Sound(h, cs[j])
    requires a in h.cells && h.cells[a].Records?
    requires h'.cells == (h.cells - Owned(cs[i]))[a := Records(cs[i := Nulled(cs[i])])]
    ensures Sound(h', cs[i := Nulled(cs[i])][j])
  {
    if j != i {
      assert Owned(cs[i]) !! Owned(cs[j]);
    }
  }

  lemma ReplaceSameValue(w: World, slot: nat, h: Heap)
    requires Inv(w) && slot in w.held && Balanced(h) && HeldOk(h, w.held[slot])
    requires Same(w.heap, h, w.heap.cells.Keys - Reach(w.heap, w.held[slot]))
    requires h.cells.Keys == (w.heap.cells.Keys - Reach(w.heap, w.held[slot])) + Reach(h, w.held[slot])
    requires Reach(h, w.held[slot]) <= Reach(w.heap, w.held[slot])
    ensures Inv(World(h, w.held))
  {
    ReplaceKeepsInv(w, slot, w.held[slot], h, Reach(w.heap, w.held[slot]));
    assert w.held[slot := w.held[slot]] == w.held;
  }

  lemma RestIsEqual(h: Heap, h': Heap, addrs: set<Addr>, addrs': set<Addr>)
    requires Same(h, h', h.cells.Keys - addrs) && addrs' <= addrs
    requires h'.cells.Keys == (h.cells.Keys - addrs) + addrs'
    ensures h'.cells - addrs' == h.cells - addrs
  {
  }

  lemma FreeElementOfWorks(w: World, slot: nat, i: nat)
    requires Inv(w) && Offered(w, FreeElementOf(slot, i))
    ensures After(w, FreeElementOf(slot, i)).Some?
    ensures var r := After(w, FreeElementOf(slot, i)).value;
      && Inv(r) && r.held == w.held && r.heap.allocs == w.heap.allocs
      && Same(w.heap, r.heap, w.heap.cells.Keys - Reach(w.heap, w.held[slot]))
      && r.heap.cells - Reach(r.heap, r.held[slot]) == w.heap.cells - Reach(w.heap, w.held[slot])
  {
    var v := w.held[slot];
    FreeElementHeap(w.heap, v, i);
    var h := FreeElement(w.heap, v.batch.msgs, i).value;
    ReplaceSameValue(w, slot, h);
    RestIsEqual(w.heap, h, Reach(w.heap, v), Reach(h, v));
  }

  lemma FreeManyHeap(h: Heap, v: Held)
    requires Balanced(h) && HeldOk(h, v) && v.Many?
    ensures FreeBatch(h, v.batch).Some?
    ensures var (h', b) := FreeBatch(h, v.batch).value;
      && Balanced(h') && h'.allocs == h.allocs
      && b == ZERO_BATCH && h'.cells == h.cells - Reach(h, v)
  {
    FreeBatchNeverFails(h, v);
    FreeBatchBalanced(h, v.batch);
  }

  lemma FreeBatchNeverFails(h: Heap, v: Held)
    requires NULL !in h.cells && HeldOk(h, v) && v.Many?
    ensures FreeBatch(h, v.batch).Some?
    ensures FreeBatch(h, v.batch).value.1 == ZERO_BATCH
    ensures FreeBatch(h, v.batch).value.0.cells == h.cells - Reach(h, v)
  {
    if v.batch == ZERO_BATCH {
      assert Structs(h, v) == [];
      assert h.cells - {} == h.cells;
    } else {
      FreeBatchReleasesOwned(h, v.batch, Structs(h, v));
    }
  }

  /** From `w` to `done`, exactly what the batch in `slot` reached was released: the ledger balances, with
      no allocation in between. */
  ghost predicate BatchFreed(w: World, slot: nat, done: World)
    requires slot in w.held
  {
    && Inv(done) && done.heap.allocs == w.heap.allocs
    && done.heap.cells == w.heap.cells - Reach(w.heap, w.held[slot])
    && done.held == w.held[slot := Many(ZERO_BATCH)]
  }

  lemma FreeManyWorks(w: World, slot: nat)
    requires Inv(w) && Offered(w, FreeMany(slot))
    ensures After(w, FreeMany(slot)).Some?
    ensures BatchFreed(w, slot, After(w, FreeMany(slot)).value)
  {
    var v := w.held[slot];
    FreeManyHeap(w.heap, v);
    ReachIsLive(w.heap, v);
    var h := FreeBatch(w.heap, v.batch).value.0;
    NothingHeld(h);
    ReplaceKeepsInv(w, slot, Many(ZERO_BATCH), h, Reach(w.heap, v));
  }

  lemma NothingHeld(h: Heap)
    requires NULL !in h.cells
    ensures HeldOk(h, Many(ZERO_BATCH)) && Reach(h, Many(ZERO_BATCH)) == {}
    ensures FreeBatch(h, ZERO_BATCH) == Some((h, ZERO_BATCH))
  {
    assert Structs(h, Many(ZERO_BATCH)) == [];
  }

  // ---------------------------------------------------------------- all runs

  lemma {:induction false} RunNeverFails(w: World, steps: seq<Step>)
    requires Inv(w) && Permitted(w, steps)
    ensures Run(w, steps).Some? && Inv(Run(w, steps).value)
    decreases steps
  {
    if steps != [] {
      match steps[0] {
        case Receive(slot, m, c, after) => ReceiveKeepsInv(w, slot, m, c, after);
        case ReceiveBatch(slot, ms, cs, before, a) => ReceiveBatchKeepsInv(w, slot, ms, cs, before, a);
        case FreeOne(slot) => FreeOneWorks(w, slot);
        case FreeElementOf(slot, i) => FreeElementOfWorks(w, slot, i);
        case FreeMany(slot) => FreeManyWorks(w, slot);
      }
      RunNeverFails(After(w, steps[0]).value, steps[1..]);
    }
  }

  /** Over every run: no free ever goes wrong, the live blocks are exactly those the caller's structs
      still reach, each from one struct only, and each allocation not live has been released exactly
      once under its own layout. When no struct owns anything any more, nothing is live. */
  lemma EveryRunConserves(steps: seq<Step>)
    requires Permitted(EMPTY, steps)
    ensures Run(EMPTY, steps).Some?
    ensures var w := Run(EMPTY, steps).value;
      && Inv(w)
      && (forall a :: a in w.heap.cells <==> exists s :: s in w.held && a in Reach(w.heap, w.held[s]))
      && ((forall s | s in w.held :: Reach(w.heap, w.held[s]) == {}) ==>
            w.heap.cells == map[] && w.heap.allocs == w.heap.frees)
  {
    assert Inv(EMPTY);
    RunNeverFails(EMPTY, steps);
    var w := Run(EMPTY, steps).value;
    forall s | s in w.held ensures Reach(w.heap, w.held[s]) <= w.heap.cells.Keys {
      ReachIsLive(w.heap, w.held[s]);
    }
    if forall s | s in w.held :: Reach(w.heap, w.held[s]) == {} {
      assert w.heap.cells == map[];
      forall p: (Addr, Layout) ensures w.heap.allocs[p] == w.heap.frees[p] {
        var (a, l) := p;
        assert w.heap.allocs[(a, l)] == w.heap.frees[(a, l)];
      }
    }
  }

  lemma ElementStillOffered(w: World, slot: nat, i: nat, step: Step)
    requires Inv(w) && Offered(w, FreeElementOf(slot, i)) && Offered(w, step) && step.FreeElementOf?
    ensures After(w, FreeElementOf(slot, i)).Some?
    ensures Offered(After(w, FreeElementOf(slot, i)).value, step)
  {
    FreeElementOfWorks(w, slot, i);
  }

  lemma RunFirst(w: World, steps: seq<Step>)
    requires steps != [] && Offered(w, steps[0]) && After(w, steps[0]).Some?
    requires Permitted(After(w, steps[0]).value, steps[1..])
    ensures Permitted(w, steps) && Run(w, steps) == Run(After(w, steps[0]).value, steps[1..])
  {
  }

  /** Freeing elements of a batch beforehand, any of them, in any order, repeatedly, makes no
      difference: once the batch is freed, exactly what it reached at first is gone, each allocation
      being released once under its own layout; and freeing it again does nothing. */
  lemma {:induction false} ElementsFirstMakesNoDifference(w: World, slot: nat, steps: seq<Step>)
    requires Inv(w) && Offered(w, FreeMany(slot))
    requires forall i | 0 <= i < |steps| :: steps[i].FreeElementOf? && Offered(w, steps[i]) && steps[i].slot == slot
    ensures Permitted(w, steps) && Run(w, steps).Some?
    ensures var r := Run(w, steps).value;
      && r.held == w.held && After(r, FreeMany(slot)).Some?
      && var done := After(r, FreeMany(slot)).value;
      && BatchFreed(w, slot, done) && After(done, FreeMany(slot)) == Some(done)
    decreases steps
  {
    if steps == [] {
      FreeManyWorks(w, slot);
      FreedTwice(w, slot);
    } else {
      var i := steps[0].index;
      FreeElementOfWorks(w, slot, i);
      var next := After(w, steps[0]).value;
      forall j | 0 <= j < |steps[1..]| ensures Offered(next, steps[1..][j]) {
        ElementStillOffered(w, slot, i, steps[j + 1]);
      }
      ElementsFirstMakesNoDifference(next, slot, steps[1..]);
      RunFirst(w, steps);
    }
  }

  lemma FreedTwice(w: World, slot: nat)
    requires Inv(w) && Offered(w, FreeMany(slot))
    ensures After(w, FreeMany(slot)).Some?
    ensures var done := After(w, FreeMany(slot)).value; After(done, FreeMany(slot)) == Some(done)
  {
    FreeManyWorks(w, slot);
    var done := After(w, FreeMany(slot)).value;
    NothingHeld(done.heap);
    assert done.held[slot := Many(ZERO_BATCH)] == done.held;
  }
}
