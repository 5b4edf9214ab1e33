/**
 The life of completion callbacks (include/async_io/service/async_result.hpp) in an allocator with one inline slot
 and the heap behind it (performance/pingpong/pingpong/handler_allocator.hpp).

 A callback is constructed in allocated storage when an operation is issued, and the completion port is given the
 address. A completion brings back that address and nothing else: `call` invokes whatever callback lives there, and
 when the invocation returns destroys whatever lives there and frees the storage. Handlers may issue operations, and
 complete others, while they run, so invocations nest.
*/
module CallbackStorage {
  import opened Octets

  const INLINE_SIZE: nat := 1024

  /** Where a callback lives: the allocator's own storage, or a heap block. */
  datatype Block = Inline | Heap(address: nat)

  /** A callback object, made for operation `id`. */
  datatype Callback = Callback(id: nat, size: nat)

  datatype Found = Nobody | Somebody(id: nat)

  /**
   The allocator's flag and live heap blocks; the callback objects that stand in memory; the address each operation
   was issued with; the operations the port has not completed and those whose handlers run, innermost last; and logs
   of the operations completed, the callbacks invoked and the callbacks destroyed.
  */
  datatype Storage = Storage(
    inUse: bool,
    heap: set<nat>,
    memory: map<Block, Callback>,
    blocks: seq<Block>,
    port: set<nat>,
    running: seq<nat>,
    completed: seq<nat>,
    invoked: seq<Found>,
    freed: seq<Found>
  )

  /** `address` is what `operator new` returns if it is asked: any address that is not live. */
  datatype Event =
    | Issue(size: nat, address: nat)
    | Complete(op: nat)
    | Return

  function Allocate(s: Storage, size: nat, address: nat): (Storage, Block) {
    if !s.inUse && size < INLINE_SIZE then
      (s.(inUse := true), Inline)
    else
      (s.(heap := s.heap + {address}), Heap(address))
  }

  function Deallocate(s: Storage, b: Block): Storage {
    if b == Inline then s.(inUse := false) else s.(heap := s.heap - {b.address})
  }

  /** Whose callback lives at an address. */
  function Resident(s: Storage, b: Block): Found {
    if b in s.memory then Somebody(s.memory[b].id) else Nobody
  }

  predicate CanStep(s: Storage, e: Event) {
    match e
    case Issue(_, address) => address !in s.heap
    case Complete(op) => op in s.port && op < |s.blocks|
    case Return => s.running != [] && s.running[|s.running| - 1] < |s.blocks|
  }

  function Step(s: Storage, e: Event): Storage
    requires CanStep(s, e)
  {
    match e
    case Issue(size, address) =>
      var (s1, b) := Allocate(s, size, address);
      var op := |s.blocks|;
      s1.(memory := s.memory[b := Callback(op, size)], blocks := s.blocks + [b], port := s.port + {op})
    case Complete(op) =>
      s.(port := s.port - {op}, running := s.running + [op],
         completed := s.completed + [op], invoked := s.invoked + [Resident(s, s.blocks[op])])
    case Return =>
      var b := s.blocks[s.running[|s.running| - 1]];
      Deallocate(s, b).(memory := s.memory - {b}, running := s.running[..|s.running| - 1],
                        freed := s.freed + [Resident(s, b)])
  }

  predicate Live(s: Storage, op: nat) {
    op in s.port || op in s.running
  }

  predicate Distinct<T(==)>(s: seq<T>) {
    forall i, j :: 0 <= i < j < |s| ==> s[i] != s[j]
  }

  /** Every operation was issued, and is with the port or running, not both. */
  predicate Placed(s: Storage) {
    && (forall op <- s.port :: op < |s.blocks| && op !in s.running)
    && (forall op <- s.running :: op < |s.blocks|)
    && Distinct(s.running)
  }

  /** At the address of every live operation stands its own callback, and nothing else stands anywhere. */
  ghost predicate Housed(s: Storage) {
    && (forall op: nat :: Live(s, op) ==>
          op < |s.blocks| && s.blocks[op] in s.memory && s.memory[s.blocks[op]].id == op)
    && (forall b <- s.memory ::
          var op := s.memory[b].id; Live(s, op) && op < |s.blocks| && s.blocks[op] == b)
  }

  /** What the allocator holds to be in use is what callbacks occupy. */
  ghost predicate Exact(s: Storage) {
    && (s.inUse <==> Inline in s.memory)
    && (forall a: nat :: a in s.heap <==> Heap(a) in s.memory)
    && (Inline in s.memory ==> s.memory[Inline].size < INLINE_SIZE)
  }

  /** Each completion invoked its own callback, and what no longer runs has been destroyed, each once. */
  ghost predicate Logged(s: Storage) {
    && |s.invoked| == |s.completed|
    && (forall k :: 0 <= k < |s.completed| ==> s.invoked[k] == Somebody(s.completed[k]))
    && Distinct(s.completed) && Distinct(s.freed)
    && (forall op: nat :: op in s.completed <==> op < |s.blocks| && op !in s.port)
    && (forall op: nat :: Somebody(op) in s.freed <==> op in s.completed && op !in s.running)
    && Nobody !in s.freed
  }

  ghost predicate Inv(s: Storage) {
    Placed(s) && Housed(s) && Exact(s) && Logged(s)
  }

  lemma IssueKeeps(s: Storage, size: nat, address: nat)
    requires Inv(s) && CanStep(s, Issue(size, address))
    ensures Inv(Step(s, Issue(size, address)))
  {
    var r, b := Step(s, Issue(size, address)), Allocate(s, size, address).1;
    var n := |s.blocks|;
    assert b !in s.memory;
    assert !Live(s, n);
    assert forall op: nat :: Live(r, op) <==> Live(s, op) || op == n;
    assert forall op: nat :: op < n ==> r.blocks[op] == s.blocks[op];
  }

  lemma CompleteKeeps(s: Storage, op: nat)
    requires Inv(s) && CanStep(s, Complete(op))
    ensures Inv(Step(s, Complete(op)))
  {
    hide Exact;
    var r := Step(s, Complete(op));
    assert Live(s, op);
    assert forall o: nat :: Live(r, o) <==> Live(s, o);
    assert Exact(r) by { ExactSame(s, r); }
  }

  lemma ExactSame(s: Storage, r: Storage)
    requires Exact(s) && r.inUse == s.inUse && r.heap == s.heap && r.memory == s.memory
    ensures Exact(r)
  {}

  lemma LastLeaves(ops: seq<nat>)
    requires ops != [] && Distinct(ops)
    ensures var last := ops[|ops| - 1];
            forall o: nat :: o in ops[..|ops| - 1] <==> o in ops && o != last
  {
    assert ops == ops[..|ops| - 1] + [ops[|ops| - 1]];
  }

  /** After a handler has returned, the others are where they were. */
  lemma ReturnLeaves(s: Storage)
    requires Inv(s) && CanStep(s, Return)
    ensures Placed(Step(s, Return))
    ensures forall o: nat :: Live(Step(s, Return), o) <==> Live(s, o) && o != s.running[|s.running| - 1]
  {
    hide Logged, Housed, Exact;
    LastLeaves(s.running);
    var r := Step(s, Return);
    assert r.port == s.port && r.blocks == s.blocks && r.running == s.running[..|s.running| - 1];
    forall op | op in r.running
      ensures op < |r.blocks|
    {
      assert op in s.running;
    }
    assert forall i, j :: 0 <= i < j < |r.running| ==> r.running[i] == s.running[i] && r.running[j] == s.running[j];
    assert Distinct(r.running);
  }

  lemma ReturnVacates(s: Storage)
    requires Inv(s) && CanStep(s, Return)
    ensures Housed(Step(s, Return))
  {
    hide Logged, Exact;
    ReturnLeaves(s);
    hide Placed;
    assert Live(s, s.running[|s.running| - 1]);
  }

  lemma ReturnFrees(s: Storage)
    requires Inv(s) && CanStep(s, Return)
    ensures Exact(Step(s, Return))
  {
    hide Logged, Placed;
    assert Live(s, s.running[|s.running| - 1]);
  }

  lemma ReturnLogs(s: Storage)
    requires Inv(s) && CanStep(s, Return)
    ensures Logged(Step(s, Return))
  {
    hide Exact;
    var op := s.running[|s.running| - 1];
    LastLeaves(s.running);
    assert Live(s, op);
    assert Somebody(op) !in s.freed;
  }

  lemma ReturnKeeps(s: Storage)
    requires Inv(s) && CanStep(s, Return)
    ensures Inv(Step(s, Return))
  {
    hide Placed, Housed, Exact, Logged, Step;
    ReturnLeaves(s);
    ReturnVacates(s);
    ReturnFrees(s);
    ReturnLogs(s);
  }

  lemma StepKeeps(s: Storage, e: Event)
    requires Inv(s) && CanStep(s, e)
    ensures Inv(Step(s, e))
  {
    hide Inv, CanStep, Step;
    match e
    case Issue(size, address) => IssueKeeps(s, size, address);
    case Complete(op) => CompleteKeeps(s, op);
    case Return => ReturnKeeps(s);
  }

  predicate IsRun(states: seq<Storage>, events: seq<Event>) {
    && |states| == |events| + 1
    && states[0] == Storage(false, {}, map[], [], {}, [], [], [], [])
    && forall i :: 0 <= i < |events| ==> CanStep(states[i], events[i]) && states[i + 1] == Step(states[i], events[i])
  }

  lemma {:induction false} RunKeeps(states: seq<Storage>, events: seq<Event>, i: nat)
    requires IsRun(states, events) && i < |states|
    ensures Inv(states[i])
  {
    if i != 0 {
      hide Inv, CanStep, Step;
      RunKeeps(states, events, i - 1);
      StepKeeps(states[i - 1], events[i - 1]);
    }
  }

  /**
   In every state of every run, however handlers nest and storage is reused: the k-th invocation ran the callback
   issued with the k-th completed operation, no callback was invoked or destroyed twice, every operation is either
   with the port or completed, and the callbacks destroyed are those of the completed operations that have returned.
  */
  lemma CallbacksRunOnce(states: seq<Storage>, events: seq<Event>, i: nat)
    requires IsRun(states, events) && i < |states|
    ensures var s := states[i];
            && |s.invoked| == |s.completed|
            && (forall k :: 0 <= k < |s.completed| ==> s.invoked[k] == Somebody(s.completed[k]))
            && Distinct(s.invoked) && Distinct(s.freed)
            && (forall op: nat :: op < |s.blocks| ==> (op in s.port <==> Somebody(op) !in s.invoked))
            && (forall op: nat :: Somebody(op) in s.freed <==> Somebody(op) in s.invoked && op !in s.running)
            && Nobody !in s.freed
  {
    hide IsRun, Exact, Housed;
    RunKeeps(states, events, i);
    var s := states[i];
    forall op: nat
      ensures Somebody(op) in s.invoked <==> op in s.completed
    {
      if op in s.completed {
        var k :| 0 <= k < |s.completed| && s.completed[k] == op;
        assert s.invoked[k] == Somebody(op);
      }
    }
  }

  /** Live operations never share storage, and where one was issued its own callback stands. */
  lemma LiveCallbacksKeepTheirStorage(states: seq<Storage>, events: seq<Event>, i: nat, op: nat, other: nat)
    requires IsRun(states, events) && i < |states| && Live(states[i], op) && Live(states[i], other)
    ensures op < |states[i].blocks| && Resident(states[i], states[i].blocks[op]) == Somebody(op)
    ensures other < |states[i].blocks|
    ensures states[i].blocks[op] == states[i].blocks[other] ==> op == other
  {
    hide IsRun, Exact, Logged;
    RunKeeps(states, events, i);
  }

  /** The inline slot is flagged as used exactly when one live callback, and only one, occupies it; and it fits. */
  lemma InlineSlotIsExact(states: seq<Storage>, events: seq<Event>, i: nat)
    requires IsRun(states, events) && i < |states|
    ensures var s := states[i];
            && (s.inUse <==> exists op: nat :: Live(s, op) && op < |s.blocks| && s.blocks[op] == Inline)
            && (forall op: nat, other: nat ::
                  (Live(s, op) && Live(s, other) && op < |s.blocks| && other < |s.blocks|
                   && s.blocks[op] == Inline == s.blocks[other]) ==> op == other)
            && (s.inUse ==> Inline in s.memory && s.memory[Inline].size < INLINE_SIZE)
  {
    hide IsRun, Logged;
    RunKeeps(states, events, i);
  }

  /** When the port is empty and no handler runs, every callback was invoked and destroyed and nothing is in use. */
  lemma NothingLeaks(states: seq<Storage>, events: seq<Event>, i: nat)
    requires IsRun(states, events) && i < |states| && states[i].port == {} && states[i].running == []
    ensures var s := states[i];
            && !s.inUse && s.heap == {} && s.memory == map[]
            && forall op: nat :: op < |s.blocks| ==> Somebody(op) in s.invoked && Somebody(op) in s.freed
  {
    CallbacksRunOnce(states, events, i);
    hide IsRun, Logged, Placed;
    RunKeeps(states, events, i);
    assert forall op: nat :: !Live(states[i], op);
  }

  // ---------------------------------------------------------------------------------------------------------
  // What the events of a run amount to

  function Issues(events: seq<Event>): nat {
    if events == [] then 0 else
      Issues(events[..|events| - 1]) + (if events[|events| - 1].Issue? then 1 else 0)
  }

  function Completions(events: seq<Event>): seq<nat> {
    if events == [] then [] else
      var e := events[|events| - 1];
      Completions(events[..|events| - 1]) + (if e.Complete? then [e.op] else [])
  }

  /** The operations whose handlers are running: a completion begins one, a return ends the one begun last. */
  function Nesting(events: seq<Event>): seq<nat> {
    if events == [] then [] else
      var before := Nesting(events[..|events| - 1]);
      match events[|events| - 1]
      case Issue(_, _) => before
      case Complete(op) => before + [op]
      case Return => if before == [] then [] else before[..|before| - 1]
  }

  /** The operations whose handlers have returned, in that order. */
  function Returns(events: seq<Event>): seq<Found> {
    if events == [] then [] else
      var rest := events[..|events| - 1];
      var before := Nesting(rest);
      Returns(rest) + (if events[|events| - 1].Return? && before != [] then [Somebody(before[|before| - 1])] else [])
  }

  lemma StepExplained(s: Storage, e: Event, es: seq<Event>)
    requires Inv(s) && CanStep(s, e)
    requires |s.blocks| == Issues(es) && s.completed == Completions(es)
    requires s.running == Nesting(es) && s.freed == Returns(es)
    ensures var r := Step(s, e);
            && |r.blocks| == Issues(es + [e]) && r.completed == Completions(es + [e])
            && r.running == Nesting(es + [e]) && r.freed == Returns(es + [e])
  {
    hide Exact, Logged;
    assert (es + [e])[..|es|] == es;
    if e.Return? {
      assert Live(s, s.running[|s.running| - 1]);
    }
  }

  /**
   Nothing happens but what the events say: so many operations are issued, those completed are invoked in that order,
   and at each return the callback destroyed is that of the innermost handler.
  */
  lemma {:induction false} EventsExplain(states: seq<Storage>, events: seq<Event>, i: nat)
    requires IsRun(states, events) && i < |states|
    ensures |states[i].blocks| == Issues(events[..i])
    ensures states[i].completed == Completions(events[..i])
    ensures states[i].running == Nesting(events[..i])
    ensures states[i].freed == Returns(events[..i])
  {
    if i != 0 {
      hide Inv, Step, CanStep;
      EventsExplain(states, events, i - 1);
      RunKeeps(states, events, i - 1);
      StepExplained(states[i - 1], events[i - 1], events[..i - 1]);
      assert events[..i] == events[..i - 1] + [events[i - 1]];
    }
  }

  /**
   An issued operation is with the port, with its callback constructed at its address; and that is the inline slot if
   and only if the callback is smaller than 1024 bytes and no live callback has the slot.
  */
  lemma IssuedWhere(states: seq<Storage>, events: seq<Event>, i: nat)
    requires IsRun(states, events) && i < |events| && events[i].Issue?
    ensures var s, r, size := states[i], states[i + 1], events[i].size;
            var op := |s.blocks|;
            && op < |r.blocks| && op in r.port && r.blocks[op] in r.memory
            && r.memory[r.blocks[op]] == Callback(op, size)
            && (r.blocks[op] == Inline <==>
                  size < 1024 && !exists o: nat :: Live(s, o) && o < |s.blocks| && s.blocks[o] == Inline)
  {
    InlineSlotIsExact(states, events, i);
  }

  // ---------------------------------------------------------------------------------------------------------

  /** The allocator object: its storage is a buffer of its own, and heap blocks are what `new` returns. */
  class HandlerAllocator {
    const storage: array<Octet>
    var inUse: bool
    ghost var heap: set<array<Octet>>

    ghost predicate Valid()
      reads this
    {
      storage.Length == INLINE_SIZE && storage !in heap
    }

    constructor ()
      ensures Valid() && !inUse && heap == {} && fresh(storage) && storage.Length == 1024
    {
      storage := new Octet[INLINE_SIZE];
      inUse, heap := false, {};
    }

    /** What is returned is long enough and not in use: the storage if it is free, otherwise a new block. */
    method AllocateBlock(size: nat) returns (p: array<Octet>)
      requires Valid()
      modifies this
      ensures Valid() && size <= p.Length
      ensures if !old(inUse) && size < 1024 then
                p == storage && inUse && heap == old(heap)
              else
                fresh(p) && inUse == old(inUse) && heap == old(heap) + {p}
    {
      if !inUse && size < INLINE_SIZE {
        inUse := true;
        p := storage;
      } else {
        p := new Octet[size];
        heap := heap + {p};
      }
    }

    /** Afterwards the block is not in use, and nothing else has changed. */
    method DeallocateBlock(p: array<Octet>)
      requires Valid() && (p == storage || p in heap)
      modifies this
      ensures Valid() && p !in heap
      ensures heap == old(heap) - {p} && inUse == (old(inUse) && p != storage)
    {
      if p == storage {
        inUse := false;
      } else {
        heap := heap - {p};
      }
    }
  }
}
