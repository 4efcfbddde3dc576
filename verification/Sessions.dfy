/**
 PHP objects, the handles behind them and the last-error slot: src/handle.rs, src/error.rs, the
 creating and closing functions, and the classes of php/VireonSdk.php that own a handle.

 A handle is the address of a shared allocation with a type. Reclaiming frees the address, and a
 later allocation may get the same one. Using a handle at address 0, at a dead address or at another
 type has no result: it is a `Crashed` outcome.
 */
module Sessions {
  import opened Base

  datatype Kind = ClientKind | SubscriptionKind | GroupKind | StreamKind | PoolKind

  /** What the SDK answered. */
  datatype Answer = Fine | Failed(text: string)

  datatype Verb = Publish | TryPublish | Unsubscribe | LeaveGroup | Rpc | Migrate

  datatype Object = Object(kind: Kind, handle: int)

  datatype State = State(table: map<int, Kind>, objects: map<nat, Object>, lastError: Option<string>,
                         created: multiset<(int, Kind)>, reclaimed: multiset<(int, Kind)>)

  /** A PHP action. Creating ones name the new object and the address the allocator gives. */
  datatype Action =
    | Connect(kind: Kind, id: nat, handle: int, answer: Answer)
    | Derive(parent: nat, kind: Kind, id: nat, handle: int, answer: Answer)
    | Invoke(id: nat, verb: Verb, answer: Answer)
    | Inspect(id: nat)
    | Destruct(id: nat, answer: Answer)

  datatype Fault = NullHandle | Dangling | Mistyped

  datatype Outcome = Returned | Thrown(text: string) | Crashed(fault: Fault)

  const START := State(map[], map[], None, multiset{}, multiset{})

  // ---------------------------------------------------------------- src/error.rs

  const NUL_IN_MESSAGE := "error message contained null byte"

  /** `set_last_error` stores a C string. */
  function StoredError(text: string): string {
    if '\0' in text then NUL_IN_MESSAGE else text
  }

  /** What `checkError` and `checkHandle` put into the exception. */
  function ExceptionText(lastError: Option<string>): string {
    if lastError.Some? && lastError.value != "" then lastError.value else "unknown error"
  }

  function CreationPrefix(kind: Kind): string {
    match kind
    case SubscriptionKind => "SubscribeError: "
    case GroupKind => "GroupError: "
    case StreamKind => "StreamError: "
    case _ => "ConnectError: "
  }

  function VerbPrefix(verb: Verb): string {
    match verb
    case Publish => "PublishError: "
    case TryPublish => "PublishError: "
    case Unsubscribe => "SubscribeError: "
    case LeaveGroup => "GroupError: "
    case Rpc => "RpcError: "
    case Migrate => "ConnectError: "
  }

  // ---------------------------------------------------------------- steps

  /** `handle_to_ref` */
  function Dereference(s: State, handle: int, kind: Kind): Option<Fault> {
    if handle == 0 then Some(NullHandle)
    else if handle !in s.table then Some(Dangling)
    else if s.table[handle] != kind then Some(Mistyped)
    else None
  }

  /** The methods each PHP class has. */
  predicate Has(kind: Kind, verb: Verb) {
    match verb
    case Publish => kind.ClientKind? || kind.StreamKind? || kind.PoolKind?
    case TryPublish => kind.ClientKind? || kind.StreamKind? || kind.PoolKind?
    case _ => kind.ClientKind?
  }

  /** `arc_to_handle` and the new wrapper object. */
  function Created(s: State, kind: Kind, id: nat, handle: int): State {
    s.(table := s.table[handle := kind], objects := s.objects[id := Object(kind, handle)],
       created := s.created + multiset{(handle, kind)})
  }

  function Fails(s: State, text: string): (State, Outcome) {
    var t := s.(lastError := Some(StoredError(text)));
    (t, Thrown(ExceptionText(t.lastError)))
  }

  /** `reclaim_handle`, the close's error if any, and the cleared field. */
  function Closed(s: State, id: nat, answer: Answer): State
    requires id in s.objects && s.objects[id].handle in s.table
  {
    var Object(kind, handle) := s.objects[id];
    s.(table := s.table - {handle}, objects := s.objects[id := Object(kind, 0)],
       lastError := if (kind.ClientKind? || kind.PoolKind?) && answer.Failed?
                    then Some(StoredError("ConnectError: " + answer.text)) else s.lastError,
       reclaimed := s.reclaimed + multiset{(handle, s.table[handle])})
  }

  /** What the caller and the allocator may do: objects exist before they are used, have the method,
      and new handles are non-null addresses that are not in use. */
  predicate Offered(s: State, a: Action) {
    match a
    case Connect(kind, id, handle, _) =>
      (kind.ClientKind? || kind.PoolKind?) && id !in s.objects && handle != 0 && handle !in s.table
    case Derive(parent, kind, id, handle, _) =>
      && parent in s.objects && s.objects[parent].kind.ClientKind?
      && (kind.SubscriptionKind? || kind.GroupKind? || kind.StreamKind?)
      && id !in s.objects && handle != 0 && handle !in s.table
    case Invoke(id, verb, _) => id in s.objects && Has(s.objects[id].kind, verb)
    case Inspect(id) => id in s.objects
    case Destruct(id, _) => id in s.objects
  }

  function Step(s: State, a: Action): (State, Outcome)
    requires Offered(s, a)
  {
    match a
    case Connect(kind, id, handle, answer) =>
      if answer.Failed? then Fails(s, CreationPrefix(kind) + answer.text)
      else (Created(s, kind, id, handle), Returned)
    case Derive(parent, kind, id, handle, answer) =>
      var fault := Dereference(s, s.objects[parent].handle, ClientKind);
      if fault.Some? then (s, Crashed(fault.value))
      else if answer.Failed? then Fails(s, CreationPrefix(kind) + answer.text)
      else (Created(s, kind, id, handle), Returned)
    case Invoke(id, verb, answer) =>
      var fault := Dereference(s, s.objects[id].handle, s.objects[id].kind);
      if fault.Some? then (s, Crashed(fault.value))
      else if answer.Failed? then Fails(s, VerbPrefix(verb) + answer.text)
      else (s, Returned)
    case Inspect(id) =>
      var fault := Dereference(s, s.objects[id].handle, s.objects[id].kind);
      (s, if fault.Some? then Crashed(fault.value) else Returned)
    case Destruct(id, answer) =>
      if s.objects[id].handle == 0 then (s, Returned)
      else
        var fault := Dereference(s, s.objects[id].handle, s.objects[id].kind);
        if fault.Some? then (s, Crashed(fault.value)) else (Closed(s, id, answer), Returned)
  }

  predicate Permitted(s: State, actions: seq<Action>)
    decreases actions
  {
    actions == [] || (Offered(s, actions[0]) && Permitted(Step(s, actions[0]).0, actions[1..]))
  }

  function Run(s: State, actions: seq<Action>): State
    requires Permitted(s, actions)
    decreases actions
  {
    if actions == [] then s else Run(Step(s, actions[0]).0, actions[1..])
  }

  // ---------------------------------------------------------------- the invariant

  /** Every live handle is owned by exactly one object, and has that object's type. */
  ghost predicate Inv(s: State) {
    && 0 !in s.table
    && (forall i | i in s.objects && s.objects[i].handle != 0 ::
          s.objects[i].handle in s.table && s.table[s.objects[i].handle] == s.objects[i].kind)
    && (forall i, j | i in s.objects && j in s.objects && i != j && s.objects[i].handle != 0 ::
          s.objects[i].handle != s.objects[j].handle)
    && (forall h | h in s.table :: Owner(s, h))
    && (forall h: int, k: Kind :: s.created[(h, k)] ==
          s.reclaimed[(h, k)] + (if h in s.table && s.table[h] == k then 1 else 0))
  }

  ghost predicate Owner(s: State, h: int) {
    exists i :: i in s.objects && s.objects[i].handle == h
  }

  lemma CreatedKeepsInv(s: State, kind: Kind, id: nat, handle: int)
    requires Inv(s) && id !in s.objects && handle != 0 && handle !in s.table
    ensures Inv(Created(s, kind, id, handle))
  {
    var r := Created(s, kind, id, handle);
    forall h | h in r.table ensures Owner(r, h) {
      if h == handle {
        assert r.objects[id].handle == h;
      } else {
        assert Owner(s, h);
        var i :| i in s.objects && s.objects[i].handle == h;
        assert r.objects[i].handle == h;
      }
    }
  }

  lemma ClosedKeepsInv(s: State, id: nat, answer: Answer)
    requires Inv(s) && id in s.objects && s.objects[id].handle != 0
    ensures Inv(Closed(s, id, answer))
  {
    var r := Closed(s, id, answer);
    forall h | h in r.table ensures Owner(r, h) {
      assert Owner(s, h);
      var i :| i in s.objects && s.objects[i].handle == h;
      assert i != id && r.objects[i].handle == h;
    }
  }

  lemma StepKeepsInv(s: State, a: Action)
    requires Inv(s) && Offered(s, a)
    ensures Inv(Step(s, a).0)
  {
    match a
    case Connect(kind, id, handle, answer) =>
      if answer.Fine? { CreatedKeepsInv(s, kind, id, handle); }
      else { ErrorKeepsInv(s, CreationPrefix(kind) + answer.text); }
    case Derive(parent, kind, id, handle, answer) =>
      if answer.Fine? { CreatedKeepsInv(s, kind, id, handle); }
      else { ErrorKeepsInv(s, CreationPrefix(kind) + answer.text); }
    case Invoke(id, verb, answer) =>
      if answer.Failed? { ErrorKeepsInv(s, VerbPrefix(verb) + answer.text); }
    case Inspect(id) =>
    case Destruct(id, answer) =>
      if s.objects[id].handle != 0 { ClosedKeepsInv(s, id, answer); }
  }

  lemma ErrorKeepsInv(s: State, text: string)
    requires Inv(s)
    ensures Inv(Fails(s, text).0)
  {
    var r := Fails(s, text).0;
    forall h | h in r.table ensures Owner(r, h) {
      assert Owner(s, h);
    }
  }

  lemma {:induction false} RunKeepsInv(s: State, actions: seq<Action>)
    requires Inv(s) && Permitted(s, actions)
    ensures Inv(Run(s, actions))
    decreases actions
  {
    if actions != [] {
      StepKeepsInv(s, actions[0]);
      RunKeepsInv(Step(s, actions[0]).0, actions[1..]);
    }
  }

  // ---------------------------------------------------------------- handles, over every run

  /** The object an action needs alive. */
  function Uses(a: Action): Option<nat> {
    match a
    case Connect(_, _, _, _) => None
    case Derive(parent, _, _, _, _) => Some(parent)
    case Invoke(id, _, _) => Some(id)
    case Inspect(id) => Some(id)
    case Destruct(_, _) => None
  }

  predicate Destructed(actions: seq<Action>, id: nat) {
    exists i :: 0 <= i < |actions| && actions[i].Destruct? && actions[i].id == id
  }

  lemma StepClears(s: State, a: Action, id: nat)
    requires Inv(s) && Offered(s, a)
    ensures var next := Step(s, a).0;
      && (id in s.objects ==> id in next.objects)
      && (id in next.objects ==>
           (next.objects[id].handle == 0 <==>
              (id in s.objects && s.objects[id].handle == 0) || (a.Destruct? && a.id == id)))
      && (a.Destruct? && a.id == id ==> id in s.objects)
  {
  }

  lemma {:induction false} DestructedIffCleared(s: State, actions: seq<Action>, id: nat)
    requires Inv(s) && Permitted(s, actions) && id in Run(s, actions).objects
    ensures Run(s, actions).objects[id].handle == 0 <==>
      (id in s.objects && s.objects[id].handle == 0) || Destructed(actions, id)
    decreases actions
  {
    if actions != [] {
      var a, next := actions[0], Step(s, actions[0]).0;
      StepKeepsInv(s, a);
      StepClears(s, a, id);
      DestructedIffCleared(next, actions[1..], id);
      DestructedFirst(actions, id);
    }
  }

  lemma DestructedFirst(actions: seq<Action>, id: nat)
    requires actions != []
    ensures Destructed(actions, id)
       <==> (actions[0].Destruct? && actions[0].id == id) || Destructed(actions[1..], id)
  {
    var rest := actions[1..];
    if Destructed(rest, id) {
      var i :| 0 <= i < |rest| && rest[i].Destruct? && rest[i].id == id;
      assert actions[i + 1].Destruct? && actions[i + 1].id == id;
    }
    if Destructed(actions, id) {
      var i :| 0 <= i < |actions| && actions[i].Destruct? && actions[i].id == id;
      if i > 0 {
        assert rest[i - 1].Destruct? && rest[i - 1].id == id;
      }
    }
  }

  /** Over every run: no handle is used or reclaimed when it is dead or at another type, whatever the
      order of destruction and the reuse of addresses. The only way to go wrong is to call a method of
      an object whose destructor has already been called by hand: exactly then the null handle is
      used. */
  lemma HandlesAreSafe(actions: seq<Action>, a: Action)
    requires Permitted(START, actions) && Offered(Run(START, actions), a)
    ensures var o := Step(Run(START, actions), a).1;
      && (o.Crashed? ==> o.fault == NullHandle)
      && (o.Crashed? <==> Uses(a).Some? && Destructed(actions, Uses(a).value))
  {
    RunKeepsInv(START, actions);
    if Uses(a).Some? {
      DestructedIffCleared(START, actions, Uses(a).value);
    }
  }

  /** Each live handle belongs to exactly one object, at its type; each handle made is live or was
      reclaimed once; and when every object has been destructed, none is left. */
  lemma HandlesAreConserved(actions: seq<Action>)
    requires Permitted(START, actions)
    ensures var s := Run(START, actions);
      && Inv(s)
      && ((forall i | i in s.objects :: Destructed(actions, i)) ==>
            s.table == map[] && s.created == s.reclaimed)
  {
    RunKeepsInv(START, actions);
    var s := Run(START, actions);
    if forall i | i in s.objects :: Destructed(actions, i) {
      forall i | i in s.objects ensures s.objects[i].handle == 0 {
        DestructedIffCleared(START, actions, i);
      }
      var live := s.table.Keys;
      assert forall h | h in live :: Owner(s, h) && h != 0;
      assert forall h | h != 0 :: !Owner(s, h);
      assert forall h :: h !in live;
      assert s.table == map[];
      forall p: (int, Kind) ensures s.created[p] == s.reclaimed[p] {
        var (h, k) := p;
        assert s.created[(h, k)] == s.reclaimed[(h, k)];
      }
    }
  }

  // ---------------------------------------------------------------- what the steps make of a state

  /** A creating action returns exactly when the SDK agreed and the parent is alive; then there is one
      more handle, of that kind at that address, one more object that owns it, and no other change. */
  lemma CreationMakes(s: State, a: Action)
    requires Inv(s) && Offered(s, a) && (a.Connect? || a.Derive?)
    ensures var (r, o) := Step(s, a);
      && (o == Returned <==> a.answer.Fine? && (a.Derive? ==> s.objects[a.parent].handle != 0))
      && r.reclaimed == s.reclaimed
      && if o == Returned then
           && r.objects == s.objects[a.id := Object(a.kind, a.handle)]
           && r.table == s.table[a.handle := a.kind]
           && r.created == s.created + multiset{(a.handle, a.kind)}
           && r.lastError == s.lastError
         else
           r.objects == s.objects && r.table == s.table && r.created == s.created
  {
  }

  /** A destructor returns; on an object that is alive it takes the handle away, once, and stores the
      error of closing a client or a pool. */
  lemma DestructionUnmakes(s: State, id: nat, answer: Answer)
    requires Inv(s) && id in s.objects
    ensures var (r, o) := Step(s, Destruct(id, answer));
      var Object(kind, handle) := s.objects[id];
      && o == Returned && r.created == s.created
      && if handle == 0 then r == s else
           && r.objects == s.objects[id := Object(kind, 0)]
           && r.table == s.table - {handle}
           && r.reclaimed == s.reclaimed + multiset{(handle, kind)}
           && if (kind == ClientKind || kind == PoolKind) && answer.Failed? then
                var own := "ConnectError: " + answer.text;
                r.lastError == Some(if '\0' in own then "error message contained null byte" else own)
              else r.lastError == s.lastError
  {
  }

  /** The other calls make and reclaim nothing, and what they throw is what they store. */
  lemma CallsMakeNothing(s: State, a: Action)
    requires Inv(s) && Offered(s, a) && (a.Invoke? || a.Inspect?)
    ensures var (r, o) := Step(s, a);
      && r == s.(lastError := r.lastError)
      && if o.Thrown? then r.lastError == Some(o.text) else r.lastError == s.lastError
  {
  }

  /** Action `i` makes object `id`: it names it, the SDK agrees, and its parent, if it has one, has not
      been destructed. */
  predicate Makes(actions: seq<Action>, i: nat, id: nat)
    requires i < |actions|
  {
    var a := actions[i];
    && (a.Connect? || a.Derive?) && a.id == id && a.answer.Fine?
    && (a.Derive? ==> !Destructed(actions[..i], a.parent))
  }

  lemma {:induction false} RunLast(s: State, actions: seq<Action>)
    requires actions != [] && Permitted(s, actions)
    ensures var last := |actions| - 1;
      && Permitted(s, actions[..last]) && Offered(Run(s, actions[..last]), actions[last])
      && Run(s, actions) == Step(Run(s, actions[..last]), actions[last]).0
    decreases actions
  {
    var last := |actions| - 1;
    if last > 0 {
      RunLast(Step(s, actions[0]).0, actions[1..]);
      assert actions[1..][..last - 1] == actions[..last][1..];
    }
  }

  ghost predicate Made(actions: seq<Action>, id: nat) {
    exists i :: 0 <= i < |actions| && Makes(actions, i, id)
  }

  lemma MadeLast(actions: seq<Action>, id: nat)
    requires actions != []
    ensures var last := |actions| - 1;
      Made(actions, id) <==> Made(actions[..last], id) || Makes(actions, last, id)
  {
    var last := |actions| - 1;
    forall i | 0 <= i < last ensures Makes(actions, i, id) <==> Makes(actions[..last], i, id) {
      assert actions[..last][..i] == actions[..i];
    }
    if Made(actions[..last], id) {
      var i :| 0 <= i < last && Makes(actions[..last], i, id);
      assert Makes(actions, i, id);
    }
  }

  lemma DestructedLast(actions: seq<Action>, id: nat)
    requires actions != []
    ensures var last := |actions| - 1;
      Destructed(actions, id) <==>
        Destructed(actions[..last], id) || (actions[last].Destruct? && actions[last].id == id)
  {
  }

  lemma StepOnObject(s: State, a: Action, id: nat)
    requires Inv(s) && Offered(s, a)
    ensures var r := Step(s, a).0;
      if (a.Connect? || a.Derive?) && a.id == id then
        id !in s.objects
        && (id in r.objects <==> a.answer.Fine? && (a.Derive? ==> s.objects[a.parent].handle != 0))
        && (id in r.objects ==> r.objects[id] == Object(a.kind, a.handle))
      else if a.Destruct? && a.id == id then
        id in s.objects && id in r.objects && r.objects[id] == Object(s.objects[id].kind, 0)
      else
        (id in r.objects <==> id in s.objects) && (id in s.objects ==> r.objects[id] == s.objects[id])
  {
  }

  lemma {:induction false} ObjectsAreMade(actions: seq<Action>, id: nat)
    requires Permitted(START, actions)
    ensures id in Run(START, actions).objects <==> Made(actions, id)
    ensures Destructed(actions, id) ==> id in Run(START, actions).objects
    decreases actions
  {
    if actions != [] {
      var last := |actions| - 1;
      var init, a := actions[..last], actions[last];
      RunLast(START, actions);
      RunKeepsInv(START, init);
      ObjectsAreMade(init, id);
      DestructedLast(actions, id);
      MadeLast(actions, id);
      StepOnObject(Run(START, init), a, id);
      if a.Derive? {
        DestructedIffCleared(START, init, a.parent);
      }
    }
  }

  /** The object that the last action makes is new. */
  lemma LastMakes(actions: seq<Action>, id: nat)
    requires actions != [] && Permitted(START, actions) && Makes(actions, |actions| - 1, id)
    ensures var a := actions[|actions| - 1];
      id in Run(START, actions).objects && Run(START, actions).objects[id] == Object(a.kind, a.handle)
    ensures !Destructed(actions, id)
  {
    var last := |actions| - 1;
    var init, a := actions[..last], actions[last];
    RunLast(START, actions);
    RunKeepsInv(START, init);
    ObjectsAreMade(init, id);
    DestructedLast(actions, id);
    StepOnObject(Run(START, init), a, id);
    if a.Derive? {
      DestructedIffCleared(START, init, a.parent);
    }
  }

  /** Any other action keeps an object, or clears its handle. */
  lemma LastKeeps(actions: seq<Action>, id: nat)
    requires actions != [] && Permitted(START, actions)
    ensures var init, a := actions[..|actions| - 1], actions[|actions| - 1];
      Permitted(START, init)
      && (id in Run(START, init).objects ==>
            && id in Run(START, actions).objects
            && Run(START, actions).objects[id]
                 == if a.Destruct? && a.id == id then Object(Run(START, init).objects[id].kind, 0)
                    else Run(START, init).objects[id])
  {
    RunLast(START, actions);
    RunKeepsInv(START, actions[..|actions| - 1]);
    StepOnObject(Run(START, actions[..|actions| - 1]), actions[|actions| - 1], id);
  }

  lemma {:induction false} MadeObjectIs(actions: seq<Action>, i: nat, id: nat)
    requires Permitted(START, actions) && i < |actions| && Makes(actions, i, id)
    ensures id in Run(START, actions).objects
    ensures Run(START, actions).objects[id]
         == Object(actions[i].kind, if Destructed(actions, id) then 0 else actions[i].handle)
    decreases actions
  {
    var last := |actions| - 1;
    var init := actions[..last];
    if i < last {
      assert init[..i] == actions[..i];
      LastKeeps(actions, id);
      MadeObjectIs(init, i, id);
      DestructedLast(actions, id);
    } else {
      LastMakes(actions, id);
    }
  }

  /** Over every run, the objects are exactly those that an action has made, each of that action's kind,
      and owning the handle it was made with until it is destructed. */
  lemma ObjectsAreThoseMade(actions: seq<Action>, id: nat)
    requires Permitted(START, actions)
    ensures id in Run(START, actions).objects <==> exists i :: 0 <= i < |actions| && Makes(actions, i, id)
    ensures forall i | 0 <= i < |actions| && Makes(actions, i, id) ::
      Run(START, actions).objects[id]
        == Object(actions[i].kind, if Destructed(actions, id) then 0 else actions[i].handle)
  {
    ObjectsAreMade(actions, id);
    forall i | 0 <= i < |actions| && Makes(actions, i, id)
      ensures Run(START, actions).objects[id]
           == Object(actions[i].kind, if Destructed(actions, id) then 0 else actions[i].handle)
    {
      MadeObjectIs(actions, i, id);
    }
  }

  // ---------------------------------------------------------------- exceptions, over every run

  predicate Fallible(a: Action) {
    !a.Inspect? && !a.Destruct?
  }

  /** Over every run: an action throws exactly when the SDK refused it and its object is alive, and the
      exception carries that call's own text, whatever failed before, an ignored destructor result
      included. Only a NUL in the SDK's text is replaced by the fixed message. */
  lemma ExceptionsAreNeverStale(actions: seq<Action>, a: Action)
    requires Permitted(START, actions) && Offered(Run(START, actions), a)
    ensures var o := Step(Run(START, actions), a).1;
      && (o.Thrown? <==> Fallible(a) && a.answer.Failed?
                         && (Uses(a).Some? ==> !Destructed(actions, Uses(a).value)))
      && (o.Thrown? ==>
            var prefix := match a
              case Connect(_, _, _, _) => "ConnectError: "
              case Derive(_, kind, _, _, _) =>
                if kind.SubscriptionKind? then "SubscribeError: "
                else if kind.GroupKind? then "GroupError: "
                else "StreamError: "
              case Invoke(_, verb, _) =>
                if verb.Publish? || verb.TryPublish? then "PublishError: "
                else if verb.Unsubscribe? then "SubscribeError: "
                else if verb.LeaveGroup? then "GroupError: "
                else if verb.Rpc? then "RpcError: "
                else "ConnectError: "
              case _ => "";
            var own := prefix + a.answer.text;
            && o.text == (if '\0' in own then "error message contained null byte" else own)
            && o.text != "unknown error")
  {
    HandlesAreSafe(actions, a);
    assert "unknown error"[0] == 'u' && "error message contained null byte"[0] == 'e';
  }

  // ---------------------------------------------------------------- the code

  /** The process: the PHP objects' `$handle` fields, the allocations behind them and the slot. The
      methods are the PHP methods together with the functions they call. */
  class Session {
    var table: map<int, Kind>
    var objects: map<nat, Object>
    var lastError: Option<string>
    ghost var created: multiset<(int, Kind)>
    ghost var reclaimed: multiset<(int, Kind)>

    constructor ()
      ensures Now() == START
    {
      table, objects, lastError := map[], map[], None;
      created, reclaimed := multiset{}, multiset{};
    }

    ghost function Now(): State
      reads this
    {
      State(table, objects, lastError, created, reclaimed)
    }

    method SetLastError(text: string)
      modifies this`lastError
      ensures lastError == Some(StoredError(text))
    {
      lastError := Some(if '\0' in text then NUL_IN_MESSAGE else text);
    }

    method ArcToHandle(kind: Kind, handle: int)
      modifies this`table, this`created
      ensures table == old(table)[handle := kind]
      ensures created == old(created) + multiset{(handle, kind)}
    {
      table := table[handle := kind];
      created := created + multiset{(handle, kind)};
    }

    method ReclaimHandle(handle: int)
      requires handle != 0 ==> handle in table
      modifies this`table, this`reclaimed
      ensures table == if handle != 0 then old(table) - {handle} else old(table)
      ensures reclaimed == if handle != 0 then old(reclaimed) + multiset{(handle, old(table)[handle])}
                           else old(reclaimed)
    {
      if handle != 0 {
        reclaimed := reclaimed + multiset{(handle, table[handle])};
        table := table - {handle};
      }
    }

    method HandleToRef(handle: int, kind: Kind) returns (fault: Option<Fault>)
      ensures fault == Dereference(Now(), handle, kind)
    {
      if handle == 0 {
        fault := Some(NullHandle);
      } else if handle !in table {
        fault := Some(Dangling);
      } else {
        fault := if table[handle] == kind then None else Some(Mistyped);
      }
    }

    /** `checkError` */
    method CheckError(rc: int) returns (o: Outcome)
      ensures o == if rc < 0 then Thrown(ExceptionText(lastError)) else Returned
    {
      o := Returned;
      if rc < 0 {
        var text := if lastError.Some? then lastError.value else "";
        o := Thrown(if text != "" then text else "unknown error");
      }
    }

    /** `connect` and `connectPool` */
    method ConnectTo(kind: Kind, id: nat, handle: int, answer: Answer) returns (o: Outcome)
      requires Offered(Now(), Connect(kind, id, handle, answer))
      modifies this
      ensures (Now(), o) == Step(old(Now()), Connect(kind, id, handle, answer))
    {
      o := Make(kind, id, handle, answer);
    }

    /** `subscribe`, `subscribeGroup` and `openStream` */
    method DeriveFrom(parent: nat, kind: Kind, id: nat, handle: int, answer: Answer) returns (o: Outcome)
      requires Offered(Now(), Derive(parent, kind, id, handle, answer))
      modifies this
      ensures (Now(), o) == Step(old(Now()), Derive(parent, kind, id, handle, answer))
    {
      var fault := HandleToRef(objects[parent].handle, ClientKind);
      if fault.Some? {
        return Crashed(fault.value);
      }
      o := Make(kind, id, handle, answer);
    }

    /** A creating function with its `checkHandle`; its return value is 0 on failure. */
    method Make(kind: Kind, id: nat, handle: int, answer: Answer) returns (o: Outcome)
      requires handle != 0
      modifies this
      ensures (Now(), o) == if answer.Failed? then Fails(old(Now()), CreationPrefix(kind) + answer.text)
                            else (Created(old(Now()), kind, id, handle), Returned)
    {
      var h := handle;
      match answer {
        case Fine =>
          ArcToHandle(kind, handle);
        case Failed(e) =>
          SetLastError(CreationPrefix(kind) + e);
          h := 0;
      }
      o := CheckError(if h == 0 then -1 else 0);
      if o.Returned? {
        objects := objects[id := Object(kind, h)];
      }
    }

    /** `publish`, `tryPublish`, `unsubscribe`, `leaveGroup`, `rpc` and `migrate` */
    method Call(id: nat, verb: Verb, answer: Answer) returns (o: Outcome)
      requires Offered(Now(), Invoke(id, verb, answer))
      modifies this`lastError
      ensures (Now(), o) == Step(old(Now()), Invoke(id, verb, answer))
    {
      var fault := HandleToRef(objects[id].handle, objects[id].kind);
      if fault.Some? {
        return Crashed(fault.value);
      }
      var rc := 0;
      match answer {
        case Fine =>
        case Failed(e) =>
          SetLastError(VerbPrefix(verb) + e);
          rc := -1;
      }
      o := CheckError(rc);
    }

    /** `__destruct`: client and pool are closed first, and the close's result is ignored. Reclaiming,
        like any use, is only defined on a live handle of the type. */
    method Destroy(id: nat, answer: Answer) returns (o: Outcome)
      requires Offered(Now(), Destruct(id, answer))
      modifies this
      ensures (Now(), o) == Step(old(Now()), Destruct(id, answer))
    {
      o := Returned;
      var Object(kind, handle) := objects[id];
      if handle != 0 {
        var fault := HandleToRef(handle, kind);
        if fault.Some? {
          return Crashed(fault.value);
        }
        ReclaimHandle(handle);
        if (kind.ClientKind? || kind.PoolKind?) && answer.Failed? {
          SetLastError("ConnectError: " + answer.text);
        }
        objects := objects[id := Object(kind, 0)];
      }
    }
  }
}
