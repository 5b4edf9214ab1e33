/**
 The object pool (include/utility/object_pool.hpp): objects come from a creator when the queue is empty and go back
 to the queue when released, either by hand or when the last copy of a shared handle is dropped.
*/
module ObjectPool {
  /** What the pool lends; the creator is `new`. */
  class Obj {
    constructor () {}
  }

  /** An object that is handed out: raw, or behind a shared handle with so many copies. */
  datatype Loan = Raw(obj: Obj) | Shared(obj: Obj, copies: nat)

  /** The queue, what is handed out, and everything the creator ever made. */
  datatype Pool = Pool(queue: seq<Obj>, loans: seq<Loan>, made: seq<Obj>)

  /** `newborn` is what the creator returns if it is asked. */
  datatype Event =
    | Get(newborn: Obj)
    | RawAcquire(newborn: Obj)
    | RawRelease(k: nat)
    | CopyHandle(k: nat)
    | DropHandle(k: nat)

  /** The queue after `pop`, and the object: the front of the queue, or the creator's. */
  function Taken(p: Pool, newborn: Obj): (Pool, Obj) {
    if p.queue == [] then
      (p.(made := p.made + [newborn]), newborn)
    else
      (p.(queue := p.queue[1..]), p.queue[0])
  }

  function Without<T>(s: seq<T>, k: nat): seq<T>
    requires k < |s|
  {
    s[..k] + s[k + 1..]
  }

  /** Loan `k` ends and its object is pushed to the back of the queue. */
  function Returned(p: Pool, k: nat): Pool
    requires k < |p.loans|
  {
    p.(queue := p.queue + [p.loans[k].obj], loans := Without(p.loans, k))
  }

  predicate CanStep(p: Pool, e: Event) {
    match e
    case Get(newborn) => p.queue == [] ==> newborn !in p.made
    case RawAcquire(newborn) => p.queue == [] ==> newborn !in p.made
    case RawRelease(k) => k < |p.loans| && p.loans[k].Raw?
    case CopyHandle(k) => k < |p.loans| && p.loans[k].Shared?
    case DropHandle(k) => k < |p.loans| && p.loans[k].Shared?
  }

  function Step(p: Pool, e: Event): Pool
    requires CanStep(p, e)
  {
    match e
    case Get(newborn) =>
      var (q, obj) := Taken(p, newborn);
      q.(loans := q.loans + [Shared(obj, 1)])
    case RawAcquire(newborn) =>
      var (q, obj) := Taken(p, newborn);
      q.(loans := q.loans + [Raw(obj)])
    case RawRelease(k) => Returned(p, k)
    case CopyHandle(k) =>
      var h := p.loans[k];
      p.(loans := p.loans[k := h.(copies := h.copies + 1)])
    case DropHandle(k) =>
      var h := p.loans[k];
      if h.copies <= 1 then Returned(p, k) else p.(loans := p.loans[k := h.(copies := h.copies - 1)])
  }

  predicate IsRun(states: seq<Pool>, events: seq<Event>) {
    && |states| == |events| + 1
    && states[0] == Pool([], [], [])
    && forall i :: 0 <= i < |events| ==> CanStep(states[i], events[i]) && states[i + 1] == Step(states[i], events[i])
  }

  /** The largest number of objects handed out at once in a run. */
  function Peak(states: seq<Pool>): nat {
    if states == [] then 0 else
      var before, now := Peak(states[..|states| - 1]), |states[|states| - 1].loans|;
      if before < now then now else before
  }

  function Objects(loans: seq<Loan>): seq<Obj> {
    seq(|loans|, i requires 0 <= i < |loans| => loans[i].obj)
  }

  predicate Distinct(s: seq<Obj>) {
    forall i, j :: 0 <= i < j < |s| ==> s[i] != s[j]
  }

  /** Every object made is in the queue or handed out, and in no more than one place. */
  predicate Inv(p: Pool) {
    && multiset(p.queue) + multiset(Objects(p.loans)) == multiset(p.made)
    && Distinct(p.made)
  }

  lemma ObjectsWithout(loans: seq<Loan>, k: nat)
    requires k < |loans|
    ensures multiset(Objects(loans)) == multiset(Objects(Without(loans, k))) + multiset{loans[k].obj}
  {
    var o := Objects(loans);
    assert o == o[..k] + [o[k]] + o[k + 1..];
    assert Objects(Without(loans, k)) == o[..k] + o[k + 1..];
  }

  lemma ObjectsAppend(loans: seq<Loan>, l: Loan)
    ensures multiset(Objects(loans + [l])) == multiset(Objects(loans)) + multiset{l.obj}
  {
    assert Objects(loans + [l]) == Objects(loans) + [l.obj];
  }

  lemma LendKeeps(p: Pool, newborn: Obj, l: Loan)
    requires Inv(p) && (p.queue == [] ==> newborn !in p.made) && l.obj == Taken(p, newborn).1
    ensures Inv(Taken(p, newborn).0.(loans := p.loans + [l]))
  {
    TakenKeeps(p, newborn);
    ObjectsAppend(p.loans, l);
  }

  lemma ReturnedKeeps(p: Pool, k: nat)
    requires Inv(p) && k < |p.loans|
    ensures Inv(Returned(p, k))
  {
    hide Objects, Without;
    ObjectsWithout(p.loans, k);
    assert multiset(p.queue + [p.loans[k].obj]) == multiset(p.queue) + multiset{p.loans[k].obj};
  }

  lemma RecountKeeps(p: Pool, k: nat, l: Loan)
    requires Inv(p) && k < |p.loans| && l.obj == p.loans[k].obj
    ensures Inv(p.(loans := p.loans[k := l]))
  {
    assert Objects(p.loans[k := l]) == Objects(p.loans);
  }

  lemma StepKeepsInv(p: Pool, e: Event)
    requires Inv(p) && CanStep(p, e)
    ensures Inv(Step(p, e))
  {
    hide Inv, Returned;
    match e
    case Get(newborn) => LendKeeps(p, newborn, Shared(Taken(p, newborn).1, 1));
    case RawAcquire(newborn) => LendKeeps(p, newborn, Raw(Taken(p, newborn).1));
    case RawRelease(k) => ReturnedKeeps(p, k);
    case CopyHandle(k) => RecountKeeps(p, k, p.loans[k].(copies := p.loans[k].copies + 1));
    case DropHandle(k) =>
      if p.loans[k].copies <= 1 {
        ReturnedKeeps(p, k);
      } else {
        RecountKeeps(p, k, p.loans[k].(copies := p.loans[k].copies - 1));
      }
  }

  lemma TakenKeeps(p: Pool, newborn: Obj)
    requires Inv(p) && (p.queue == [] ==> newborn !in p.made)
    ensures var (q, obj) := Taken(p, newborn);
            && multiset(q.queue) + multiset(Objects(p.loans)) + multiset{obj} == multiset(q.made)
            && Distinct(q.made)
  {
    if p.queue != [] {
      assert p.queue == [p.queue[0]] + p.queue[1..];
    }
  }

  lemma {:induction false} RunKeepsInv(states: seq<Pool>, events: seq<Event>, i: nat)
    requires IsRun(states, events) && i < |states|
    ensures Inv(states[i])
  {
    if i != 0 {
      hide Inv, CanStep, Step;
      RunKeepsInv(states, events, i - 1);
      StepKeepsInv(states[i - 1], events[i - 1]);
    }
  }

  lemma CountOnce(s: seq<Obj>, x: Obj)
    requires Distinct(s) && x in s
    ensures multiset(s)[x] == 1
  {
    var i :| 0 <= i < |s| && s[i] == x;
    assert s == s[..i] + [s[i]] + s[i + 1..];
  }

  /** At every point of every run an object that was made is in exactly one place: once queued or once lent. */
  lemma EachObjectInOnePlace(states: seq<Pool>, events: seq<Event>, i: nat, x: Obj)
    requires IsRun(states, events) && i < |states| && x in states[i].made
    ensures multiset(states[i].queue)[x] + multiset(Objects(states[i].loans))[x] == 1
  {
    hide IsRun;
    RunKeepsInv(states, events, i);
    var p := states[i];
    CountOnce(p.made, x);
    assert (multiset(p.queue) + multiset(Objects(p.loans)))[x] == 1;
  }

  /** A step makes a new object only when everything made so far is handed out. */
  lemma MadeGrows(p: Pool, e: Event)
    requires Inv(p) && CanStep(p, e)
    ensures |p.made| == |p.queue| + |p.loans|
    ensures |Step(p, e).made| == if p.queue == [] && (e.Get? || e.RawAcquire?) then |p.made| + 1 else |p.made|
    ensures |Step(p, e).loans| <= |Step(p, e).made|
    ensures |Step(p, e).made| != |p.made| ==> |Step(p, e).loans| == |Step(p, e).made|
  {
    assert |multiset(p.queue) + multiset(Objects(p.loans))| == |multiset(p.made)|;
  }

  /** The creator was called exactly as often as the largest number of objects ever handed out at once. */
  lemma {:induction false} MadeIsPeak(states: seq<Pool>, events: seq<Event>, i: nat)
    requires IsRun(states, events) && i < |states|
    ensures |states[i].made| == Peak(states[..i + 1])
  {
    assert states[..i + 1][..i] == states[..i];
    if i == 0 {
      assert Peak(states[..0]) == 0;
    } else {
      hide Inv, CanStep, Step;
      MadeIsPeak(states, events, i - 1);
      RunKeepsInv(states, events, i - 1);
      MadeGrows(states[i - 1], events[i - 1]);
    }
  }

  // ---------------------------------------------------------------------------------------------------------
  // How long a loan lasts, and in which order objects come back

  /** How many copies of its handle, or of the raw pointer, the callers of the pool have of an object. */
  function Users(loans: seq<Loan>, x: Obj): nat {
    if loans == [] then 0 else
      var l := loans[|loans| - 1];
      Users(loans[..|loans| - 1], x) + (if l.obj != x then 0 else if l.Raw? then 1 else l.copies)
  }

  /** The object an event is about: the one lent, or the one of the loan it names. */
  function Subject(p: Pool, e: Event): Obj
    requires CanStep(p, e)
  {
    match e
    case Get(newborn) => if p.queue == [] then newborn else p.queue[0]
    case RawAcquire(newborn) => if p.queue == [] then newborn else p.queue[0]
    case RawRelease(k) => p.loans[k].obj
    case CopyHandle(k) => p.loans[k].obj
    case DropHandle(k) => p.loans[k].obj
  }

  /** What an event should do to the number of users of its object. */
  function Change(e: Event): int {
    if e.RawRelease? || e.DropHandle? then -1 else 1
  }

  /** Handles and pointers to `x` handed out and copied in a run, less those given back and dropped. */
  function Balance(states: seq<Pool>, events: seq<Event>, i: nat, x: Obj): int
    requires IsRun(states, events) && i < |states|
  {
    if i == 0 then 0 else
      Balance(states, events, i - 1, x)
        + (if Subject(states[i - 1], events[i - 1]) == x then Change(events[i - 1]) else 0)
  }

  predicate CopiesPositive(p: Pool) {
    forall l <- p.loans :: l.Shared? ==> 1 <= l.copies
  }

  lemma {:induction false} UsersWithout(loans: seq<Loan>, k: nat, x: Obj)
    requires k < |loans|
    ensures Users(loans, x) == Users(Without(loans, k), x) + Users([loans[k]], x)
    decreases |loans|
  {
    var n := |loans| - 1;
    assert [loans[k]][..0] == [];
    if k == n {
      assert Without(loans, k) == loans[..n];
    } else {
      UsersWithout(loans[..n], k, x);
      assert Without(loans, k)[..n - 1] == Without(loans[..n], k);
    }
  }

  lemma {:induction false} UsersRecount(loans: seq<Loan>, k: nat, l: Loan, x: Obj)
    requires k < |loans|
    ensures Users(loans[k := l], x) + Users([loans[k]], x) == Users(loans, x) + Users([l], x)
  {
    UsersWithout(loans, k, x);
    UsersWithout(loans[k := l], k, x);
    assert Without(loans[k := l], k) == Without(loans, k);
  }

  lemma OneUser(l: Loan, x: Obj)
    ensures Users([l], x) == if l.obj != x then 0 else if l.Raw? then 1 else l.copies
  {
    assert [l][..0] == [];
  }

  lemma UsersAppend(loans: seq<Loan>, l: Loan, x: Obj)
    ensures Users(loans + [l], x) == Users(loans, x) + Users([l], x)
  {
    OneUser(l, x);
    assert (loans + [l])[..|loans|] == loans;
  }

  lemma StepCounts(p: Pool, e: Event, x: Obj)
    requires CanStep(p, e) && CopiesPositive(p)
    ensures CopiesPositive(Step(p, e))
    ensures Users(Step(p, e).loans, x) == Users(p.loans, x) + (if Subject(p, e) == x then Change(e) else 0)
  {
    hide Users;
    match e {
      case Get(_) =>
        UsersAppend(p.loans, Shared(Subject(p, e), 1), x);
        OneUser(Shared(Subject(p, e), 1), x);
      case RawAcquire(_) =>
        UsersAppend(p.loans, Raw(Subject(p, e)), x);
        OneUser(Raw(Subject(p, e)), x);
      case RawRelease(k) =>
        UsersWithout(p.loans, k, x);
        OneUser(p.loans[k], x);
      case CopyHandle(k) => RecountStep(p, k, p.loans[k].(copies := p.loans[k].copies + 1), x);
      case DropHandle(k) =>
        if p.loans[k].copies <= 1 {
          assert p.loans[k] in p.loans;
          UsersWithout(p.loans, k, x);
          OneUser(p.loans[k], x);
        } else {
          RecountStep(p, k, p.loans[k].(copies := p.loans[k].copies - 1), x);
        }
    }
  }

  lemma RecountStep(p: Pool, k: nat, l: Loan, x: Obj)
    requires k < |p.loans| && p.loans[k].Shared? && l.Shared? && l.obj == p.loans[k].obj
    ensures Users(p.loans[k := l], x) == Users(p.loans, x) + (if l.obj == x then l.copies - p.loans[k].copies else 0)
  {
    UsersRecount(p.loans, k, l, x);
    OneUser(l, x);
    OneUser(p.loans[k], x);
  }

  lemma {:induction false} UsersAreBalance(states: seq<Pool>, events: seq<Event>, i: nat, x: Obj)
    requires IsRun(states, events) && i < |states|
    ensures CopiesPositive(states[i]) && Users(states[i].loans, x) == Balance(states, events, i, x)
  {
    if i != 0 {
      hide CanStep, Step, Subject, Change;
      UsersAreBalance(states, events, i - 1, x);
      StepCounts(states[i - 1], events[i - 1], x);
    }
  }

  lemma {:induction false} UsedIffLent(p: Pool, x: Obj)
    requires CopiesPositive(p)
    ensures 0 < Users(p.loans, x) <==> x in Objects(p.loans)
    decreases |p.loans|
  {
    if p.loans != [] {
      var n := |p.loans| - 1;
      var q := p.(loans := p.loans[..n]);
      assert p.loans[n] in p.loans && forall l <- q.loans :: l in p.loans;
      UsedIffLent(q, x);
      assert Objects(p.loans) == Objects(q.loans) + [p.loans[n].obj];
    }
  }

  /**
   A loan lasts exactly as long as someone has a copy: at every point of every run the copies of an object's handle,
   or of the raw pointer, are those handed out and made less those dropped, and an object is in the queue if and only
   if there is none left.
  */
  lemma LentWhileUsed(states: seq<Pool>, events: seq<Event>, i: nat, x: Obj)
    requires IsRun(states, events) && i < |states| && x in states[i].made
    ensures Users(states[i].loans, x) == Balance(states, events, i, x)
    ensures x in states[i].queue <==> Balance(states, events, i, x) == 0
    ensures x in Objects(states[i].loans) <==> 0 < Balance(states, events, i, x)
  {
    hide IsRun, Users, CopiesPositive;
    UsersAreBalance(states, events, i, x);
    EachObjectInOnePlace(states, events, i, x);
    UsedIffLent(states[i], x);
  }

  /** What an event gives back for good: its object, if no other user of it is left. */
  function Back(p: Pool, e: Event): seq<Obj>
    requires CanStep(p, e)
  {
    if Change(e) < 0 && Users(p.loans, Subject(p, e)) == 1 then [Subject(p, e)] else []
  }

  /** What an event lends that was there before. */
  function Out(p: Pool, r: Pool): seq<Obj> {
    if |r.loans| > |p.loans| && r.made == p.made then [r.loans[|r.loans| - 1].obj] else []
  }

  /** The objects whose last user gave them back, in that order. */
  function Retired(states: seq<Pool>, events: seq<Event>, i: nat): seq<Obj>
    requires IsRun(states, events) && i < |states|
  {
    if i == 0 then [] else
      Retired(states, events, i - 1) + Back(states[i - 1], events[i - 1])
  }

  /** The objects that were lent without being made for it, in that order. */
  function Reused(states: seq<Pool>, events: seq<Event>, i: nat): seq<Obj>
    requires IsRun(states, events) && i < |states|
  {
    if i == 0 then [] else
      Reused(states, events, i - 1) + Out(states[i - 1], states[i])
  }

  lemma {:induction false} OneLoanEach(loans: seq<Loan>, k: nat)
    requires Distinct(Objects(loans)) && k < |loans|
    ensures Users(loans, loans[k].obj) == if loans[k].Raw? then 1 else loans[k].copies
  {
    var x, rest := loans[k].obj, Without(loans, k);
    UsersWithout(loans, k, x);
    OneUser(loans[k], x);
    forall l | l in rest
      ensures l.obj != x
    {
      var j :| 0 <= j < |rest| && rest[j] == l;
      var at := if j < k then j else j + 1;
      assert loans[at] == l && Objects(loans)[at] == l.obj && Objects(loans)[k] == x;
    }
    NobodyUses(rest, x);
  }

  lemma {:induction false} NobodyUses(loans: seq<Loan>, x: Obj)
    requires forall l <- loans :: l.obj != x
    ensures Users(loans, x) == 0
    decreases |loans|
  {
    if loans != [] {
      assert loans[|loans| - 1] in loans;
      NobodyUses(loans[..|loans| - 1], x);
    }
  }

  lemma LoansDistinct(p: Pool)
    requires Inv(p)
    ensures Distinct(Objects(p.loans))
  {
    var o := Objects(p.loans);
    forall i, j | 0 <= i < j < |o|
      ensures o[i] != o[j]
    {
      assert o == o[..i] + [o[i]] + o[i + 1..];
      assert o[j] in o[i + 1..];
      assert o[i] in multiset(p.queue) + multiset(o);
      CountOnce(p.made, o[i]);
    }
  }

  /** First in, first out: the objects that were given back are those lent again followed by the queue, in order. */
  lemma {:induction false} QueueIsFifo(states: seq<Pool>, events: seq<Event>, i: nat)
    requires IsRun(states, events) && i < |states|
    ensures Retired(states, events, i) == Reused(states, events, i) + states[i].queue
  {
    if i != 0 {
      hide Inv, CopiesPositive;
      var p, e := states[i - 1], events[i - 1];
      QueueIsFifo(states, events, i - 1);
      RunKeepsInv(states, events, i - 1);
      UsersAreBalance(states, events, i - 1, Subject(p, e));
      QueueStep(p, e);
      hide Step, CanStep;
      assert Reused(states, events, i - 1) + p.queue + Back(p, e)
          == Reused(states, events, i - 1) + (p.queue + Back(p, e));
      assert Reused(states, events, i - 1) + (Out(p, Step(p, e)) + Step(p, e).queue)
          == Reused(states, events, i - 1) + Out(p, Step(p, e)) + Step(p, e).queue;
    }
  }

  lemma QueueStep(p: Pool, e: Event)
    requires Inv(p) && CopiesPositive(p) && CanStep(p, e)
    ensures p.queue + Back(p, e) == Out(p, Step(p, e)) + Step(p, e).queue
  {
    hide Users;
    LoansDistinct(p);
    if Change(e) < 0 {
      OneLoanEach(p.loans, e.k);
      assert p.loans[e.k] in p.loans;
    }
  }

  // ---------------------------------------------------------------------------------------------------------

  /** The pool object. A loan's position in `loans` stands for the pointer the caller holds. */
  class PoolObject {
    var queue: seq<Obj>
    var loans: seq<Loan>
    ghost var made: seq<Obj>

    ghost function Current(): Pool
      reads this
    {
      Pool(queue, loans, made)
    }

    constructor ()
      ensures Current() == Pool([], [], [])
    {
      queue, loans, made := [], [], [];
    }

    /** The front of the queue, or an object that did not exist before. */
    method Take() returns (obj: Obj)
      modifies this`queue, this`made
      ensures (Current(), obj) == Taken(old(Current()), obj)
      ensures old(queue) == [] ==> fresh(obj) && obj !in old(made)
    {
      if queue == [] {
        obj := new Obj();
        made := made + [obj];
      } else {
        obj := queue[0];
        queue := queue[1..];
      }
    }

    method GetHandle() returns (obj: Obj)
      modifies this
      ensures CanStep(old(Current()), Get(obj)) && Current() == Step(old(Current()), Get(obj))
      ensures loans == old(loans) + [Shared(obj, 1)]
    {
      obj := Take();
      loans := loans + [Shared(obj, 1)];
    }

    method AcquireRaw() returns (obj: Obj)
      modifies this
      ensures CanStep(old(Current()), RawAcquire(obj)) && Current() == Step(old(Current()), RawAcquire(obj))
      ensures loans == old(loans) + [Raw(obj)]
    {
      obj := Take();
      loans := loans + [Raw(obj)];
    }

    method ReleaseRaw(k: nat)
      requires CanStep(Current(), RawRelease(k))
      modifies this
      ensures Current() == Step(old(Current()), RawRelease(k))
    {
      queue := queue + [loans[k].obj];
      loans := Without(loans, k);
    }

    /** One copy of a handle goes away; the deleter of the last one pushes the object back. */
    method Drop(k: nat)
      requires CanStep(Current(), DropHandle(k))
      modifies this
      ensures Current() == Step(old(Current()), DropHandle(k))
    {
      var h := loans[k];
      if h.copies <= 1 {
        queue := queue + [h.obj];
        loans := Without(loans, k);
      } else {
        loans := loans[k := h.(copies := h.copies - 1)];
      }
    }
  }
}
