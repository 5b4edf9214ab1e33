/**
 The echo server's session (performance/pingpong/asio_pingpong/server.hpp): echoing, plus the count of
 outstanding operations that decides when the session is handed over for deletion.
*/
module EchoServer {
  import opened Octets
  import opened EchoCore
  import opened EchoInvariant

  /** A session as a value; `posts` counts the `destroy` calls posted to the io_service. */
  datatype Server = Server(core: Core, opCount: int, posts: nat)

  function Started(s: Server, optionFailed: bool): Server {
    if !optionFailed then
      s.(opCount := s.opCount + 1, core := StartRead(s.core))
    else
      s.(posts := s.posts + 1, core := s.core.(failed := true))
  }

  /** What both handlers do after their own branch: post the destruction once nothing is outstanding. */
  function PostIfDone(s: Server): Server {
    if s.opCount == 0 then s.(posts := s.posts + 1) else s
  }

  function AfterRead(s: Server, err: bool, length: nat): Server
    requires s.core.Sized() && (!err ==> length <= s.core.block)
  {
    var s1 := s.(opCount := s.opCount - 1);
    var s2 := if err then s1 else
                s1.(core := OnRead(s1.core, length),
                    opCount := s1.opCount + (if s1.core.unsent + 1 == 1 then 2 else 0));
    PostIfDone(s2)
  }

  function AfterWrite(s: Server, err: bool): Server
    requires s.core.Sized()
  {
    var s1 := s.(opCount := s.opCount - 1);
    var s2 := if err then s1 else
                s1.(core := OnWrite(s1.core),
                    opCount := s1.opCount + (if s1.core.unsent - 1 == 1 then 2 else 0));
    PostIfDone(s2)
  }

  /** One step: the socket acts and, on a completion, the handler runs. */
  function ServerNext(s: Server, io: Io): (r: Server)
    requires s.core.Sized() && Enabled(s.core, io)
    ensures r.core == Next(s.core, io)
  {
    match io
    case Read(i, data) => AfterRead(s.(core := FinishRead(s.core, i, data)), false, |data|)
    case ReadFail(i) => AfterRead(s.(core := DropRead(s.core, i)), true, 0)
    case Move(i, n) => s.(core := MoveBytes(s.core, i, n))
    case Wrote(i) => AfterWrite(s.(core := FinishWrite(s.core, i)), false)
    case WriteFail(i) => AfterWrite(s.(core := DropWrite(s.core, i)), true)
  }

  predicate Legal(s: Server, ios: seq<Io>)
    requires s.core.Sized()
    decreases |ios|
  {
    ios == [] || (Enabled(s.core, ios[0]) && Legal(ServerNext(s, ios[0]), ios[1..]))
  }

  function Run(s: Server, ios: seq<Io>): (r: Server)
    requires s.core.Sized() && Legal(s, ios)
    ensures r.core.Sized()
    decreases |ios|
  {
    if ios == [] then s else Run(ServerNext(s, ios[0]), ios[1..])
  }

  function Completions(ios: seq<Io>): nat {
    if ios == [] then 0 else (if ios[0].Completion() then 1 else 0) + Completions(ios[1..])
  }

  predicate NewSession(s: Server) {
    Fresh(s.core) && s.opCount == 0 && s.posts == 0
  }

  /** The counter is the number of operations in flight, and destruction is posted exactly when it is over. */
  predicate ServerInv(s: Server) {
    && Inv(s.core)
    && s.core.seed == []
    && s.opCount == s.core.InFlight()
    && s.posts == (if s.core.failed && s.core.InFlight() == 0 then 1 else 0)
  }

  lemma StartEstablishes(s: Server, optionFailed: bool)
    requires NewSession(s)
    ensures ServerInv(s) && ServerInv(Started(s, optionFailed))
    ensures s.core.InFlight() == 0
    ensures Started(s, optionFailed).core.InFlight() == 0 ==> Started(s, optionFailed).posts == 1
    ensures optionFailed ==> Started(s, optionFailed).posts == 1
    ensures !optionFailed ==> Started(s, optionFailed).opCount == 1
    ensures !optionFailed ==> Started(s, optionFailed).core.pendingReads == [s.core.readSlot]
  {}

  lemma ServerStepKeepsInv(s: Server, io: Io)
    requires ServerInv(s) && Enabled(s.core, io)
    ensures ServerInv(ServerNext(s, io))
    ensures ServerNext(s, io).core.InFlight() == 0 ==> ServerNext(s, io).posts == 1
  {
    hide Shape, Streams, Next, OnRead, OnWrite;
    StepKeepsInv(s.core, io);
    StepFrame(s.core, io);
    OperationsCount(s.core, io);
    assert s.core.InFlight() > 0;
  }

  lemma {:induction false} RunKeepsInv(s: Server, ios: seq<Io>)
    requires ServerInv(s) && Legal(s, ios)
    ensures ServerInv(Run(s, ios))
    decreases |ios|
  {
    if ios != [] {
      ServerStepKeepsInv(s, ios[0]);
      RunKeepsInv(ServerNext(s, ios[0]), ios[1..]);
    }
  }

  /**
   The session refines a FIFO echo in every run, failures included: what is handed to `async_write` is a prefix
   of what was read, what reached the wire is a prefix of that, and at most one block has been read without
   having been submitted.
  */
  lemma ServerEchoes(s: Server, optionFailed: bool, ios: seq<Io>)
    requires NewSession(s) && Legal(Started(s, optionFailed), ios)
    ensures var c := Run(Started(s, optionFailed), ios).core;
            && IsPrefix(c.sent, c.submitted)
            && IsPrefix(c.submitted, c.got)
            && c.got == c.submitted + Held(c)
            && |Held(c)| <= c.block
  {
    StartEstablishes(s, optionFailed);
    RunKeepsInv(Started(s, optionFailed), ios);
    var c := Run(Started(s, optionFailed), ios).core;
    EchoesInOrder(c);
    assert c.seed + c.got == c.got;
  }

  /** In every run at most one read and one write are in flight, on different buffers. */
  lemma ServerBuffersAreExclusive(s: Server, optionFailed: bool, ios: seq<Io>)
    requires NewSession(s) && Legal(Started(s, optionFailed), ios)
    ensures var c := Run(Started(s, optionFailed), ios).core;
            && |c.pendingReads| <= 1 && |c.pendingWrites| <= 1 && 0 <= c.unsent <= 2
            && forall r, w :: r in c.pendingReads && w in c.pendingWrites ==> r != w.slot
  {
    StartEstablishes(s, optionFailed);
    RunKeepsInv(Started(s, optionFailed), ios);
    BuffersAreExclusive(Run(Started(s, optionFailed), ios).core);
  }

  /**
   Teardown: the counter is exact, destruction is posted at most once, precisely when an operation has failed
   and nothing is outstanding, and from then on no completion can reach the session.
  */
  lemma TeardownExactlyOnce(s: Server, optionFailed: bool, ios: seq<Io>)
    requires NewSession(s) && Legal(Started(s, optionFailed), ios)
    ensures var r := Run(Started(s, optionFailed), ios);
            && r.opCount == r.core.InFlight()
            && r.posts <= 1
            && (r.posts == 1 <==> r.opCount == 0)
            && (r.posts == 1 ==> r.core.failed && forall io :: !Enabled(r.core, io))
  {
    hide Legal, Run, Shape, Streams;
    StartEstablishes(s, optionFailed);
    RunKeepsInv(Started(s, optionFailed), ios);
    StaysBusy(Started(s, optionFailed), ios);
  }

  /** A started session always has something in flight or its destruction posted. */
  lemma {:induction false} StaysBusy(s: Server, ios: seq<Io>)
    requires ServerInv(s) && Legal(s, ios)
    requires s.opCount != 0 || s.posts == 1
    ensures Run(s, ios).opCount != 0 || Run(s, ios).posts == 1
    decreases |ios|
  {
    if ios != [] {
      ServerStepKeepsInv(s, ios[0]);
      StaysBusy(ServerNext(s, ios[0]), ios[1..]);
    }
  }

  /**
   Once a completion has failed, at most one more completion arrives, nothing more is submitted, and the session
   is posted for destruction exactly when that last completion has come in.
  */
  lemma {:induction false} WindsDownAfterFailure(s: Server, ios: seq<Io>)
    requires ServerInv(s) && s.core.failed && Legal(s, ios)
    ensures Completions(ios) <= s.core.InFlight() <= 1
    ensures Run(s, ios).core.InFlight() == s.core.InFlight() - Completions(ios)
    ensures Run(s, ios).core.submitted == s.core.submitted
    ensures Run(s, ios).posts == 1 <==> Completions(ios) == s.core.InFlight()
    decreases |ios|
  {
    if ios != [] {
      ServerStepKeepsInv(s, ios[0]);
      NothingStartsAfterFailure(s.core, ios[0]);
      WindsDownAfterFailure(ServerNext(s, ios[0]), ios[1..]);
    }
  }

  lemma {:induction false} RunSplits(s: Server, a: seq<Io>, b: seq<Io>)
    requires s.core.Sized() && Legal(s, a + b)
    ensures Legal(s, a) && Legal(Run(s, a), b) && Run(s, a + b) == Run(Run(s, a), b)
    decreases |a|
  {
    hide ServerNext, Enabled;
    if a == [] {
      assert a + b == b;
    } else {
      assert (a + b)[0] == a[0] && (a + b)[1..] == a[1..] + b;
      RunSplits(ServerNext(s, a[0]), a[1..], b);
    }
  }

  /**
   Over whole runs: after the first failed completion, wherever it comes, at most one more completion follows,
   nothing more is submitted, and `destroy` is posted by the end exactly when nothing is left in flight.
  */
  lemma FailureEndsTheSession(s: Server, before: seq<Io>, failure: Io, after: seq<Io>)
    requires NewSession(s) && failure.Failure()
    requires Legal(Started(s, false), before + ([failure] + after))
    ensures Completions(after) <= 1
    ensures Legal(Started(s, false), before)
    ensures var m, r := Run(Started(s, false), before), Run(Started(s, false), before + ([failure] + after));
            && r.core.submitted == m.core.submitted
            && r.core.InFlight() == m.core.InFlight() - 1 - Completions(after)
            && (r.posts == 1 <==> r.core.InFlight() == 0)
  {
    hide Shape, Streams, Next, ServerNext;
    var s0 := Started(s, false);
    StartEstablishes(s, false);
    RunSplits(s0, before, [failure] + after);
    RunKeepsInv(s0, before);
    var m := Run(s0, before);
    assert ([failure] + after)[1..] == after;
    ServerStepKeepsInv(m, failure);
    NothingStartsAfterFailure(m.core, failure);
    WindsDownAfterFailure(ServerNext(m, failure), after);
  }

  /** The bytes that the reads of a run bring. */
  function Input(ios: seq<Io>): seq<Octet> {
    if ios == [] then [] else (if ios[0].Read? then ios[0].data else []) + Input(ios[1..])
  }

  /** A session gets the bytes its reads bring, all of them and nothing else. */
  lemma {:induction false} RunReads(s: Server, ios: seq<Io>)
    requires s.core.Sized() && Legal(s, ios)
    ensures Run(s, ios).core.got == s.core.got + Input(ios)
    decreases |ios|
  {
    if ios != [] {
      hide ServerNext, Enabled;
      StepReads(s, ios[0]);
      RunReads(ServerNext(s, ios[0]), ios[1..]);
      Associates(s.core.got, if ios[0].Read? then ios[0].data else [], Input(ios[1..]));
    }
  }

  lemma StepReads(s: Server, io: Io)
    requires s.core.Sized() && Enabled(s.core, io)
    ensures ServerNext(s, io).core.got == s.core.got + (if io.Read? then io.data else [])
  {
    hide Next, ServerNext;
    LogsGrow(s.core, io);
  }

  lemma Associates(a: seq<Octet>, b: seq<Octet>, c: seq<Octet>)
    ensures a + b + c == a + (b + c)
  {}

  /** One more step at the end of a run. */
  lemma {:induction false} RunSnoc(s: Server, ios: seq<Io>, io: Io)
    requires s.core.Sized() && Legal(s, ios) && Enabled(Run(s, ios).core, io)
    ensures Legal(s, ios + [io]) && Run(s, ios + [io]) == ServerNext(Run(s, ios), io)
    decreases |ios|
  {
    hide ServerNext, Enabled;
    if ios == [] {
      assert [] + [io] == [io] && [io][1..] == [];
    } else {
      assert (ios + [io])[0] == ios[0] && (ios + [io])[1..] == ios[1..] + [io];
      RunSnoc(ServerNext(s, ios[0]), ios[1..], io);
    }
  }

  // ---------------------------------------------------------------------------------------------------------

  /** The session object: two heap buffers whose pointers the handlers swap, and counters updated in place. */
  class Session {
    const blockSize: nat
    const bufferA: array<Octet>
    const bufferB: array<Octet>
    var readData: array<Octet>
    var readDataLength: nat
    var writeData: array<Octet>
    var unsentCount: int
    var opCount: int
    // What the socket and the io_service have been asked to do, and have not finished.
    var socketReads: seq<Slot>
    var socketWrites: seq<WriteOp>
    var destroyPosts: nat
    ghost var failed: bool
    ghost var got: seq<Octet>
    ghost var submitted: seq<Octet>
    ghost var sent: seq<Octet>

    ghost predicate Valid()
      reads this
    {
      && bufferA != bufferB
      && bufferA.Length == bufferB.Length == blockSize
      && ((readData == bufferA && writeData == bufferB) || (readData == bufferB && writeData == bufferA))
      && readDataLength <= blockSize
      && forall w <- socketWrites :: w.moved <= w.len <= blockSize
    }

    function SlotOf(buffer: array<Octet>): Slot {
      if buffer == bufferA then First else Second
    }

    ghost function Value(): (s: Server)
      requires Valid()
      reads this, bufferA, bufferB
      ensures s.core.Sized()
    {
      Server(
        Core(blockSize, Memory(bufferA[..], bufferB[..]), SlotOf(readData), SlotOf(writeData), readDataLength,
             unsentCount, socketReads, socketWrites, failed, [], got, submitted, sent),
        opCount, destroyPosts)
    }

    constructor (blockSize: nat)
      ensures Valid() && NewSession(Value())
      ensures this.blockSize == blockSize
      ensures fresh(bufferA) && fresh(bufferB)
    {
      this.blockSize := blockSize;
      var a := new Octet[blockSize];
      var b := new Octet[blockSize];
      bufferA, bufferB := a, b;
      readData, readDataLength, writeData := a, 0, b;
      unsentCount, opCount := 0, 0;
      socketReads, socketWrites, destroyPosts := [], [], 0;
      failed, got, submitted, sent := false, [], [], [];
    }

    method AsyncReadSome()
      requires Valid()
      modifies this`socketReads
      ensures Valid()
      ensures Value() == old(Value()).(core := StartRead(old(Value().core)))
    {
      socketReads := socketReads + [SlotOf(readData)];
    }

    method AsyncWrite(len: nat)
      requires Valid() && len <= blockSize
      modifies this`socketWrites, this`submitted
      ensures Valid()
      ensures Value() == old(Value()).(core := StartWrite(old(Value().core), len))
    {
      socketWrites := socketWrites + [WriteOp(SlotOf(writeData), len, 0)];
      submitted := submitted + (if writeData == bufferA then bufferA[..] else bufferB[..])[..len];
    }

    /** The swap, write and read that both handlers start with. */
    method SwapAndIssue()
      requires Valid()
      modifies this`readData, this`writeData, this`socketReads, this`socketWrites, this`submitted
      ensures Valid()
      ensures Value() == old(Value()).(core := Rotate(old(Value().core)))
    {
      readData, writeData := writeData, readData;
      AsyncWrite(readDataLength);
      AsyncReadSome();
    }

    method Start(optionFailed: bool)
      requires Valid()
      modifies this
      ensures Valid()
      ensures Value() == Started(old(Value()), optionFailed)
    {
      if !optionFailed {
        opCount := opCount + 1;
        AsyncReadSome();
      } else {
        failed := true;
        destroyPosts := destroyPosts + 1;
      }
    }

    method HandleRead(err: bool, length: nat)
      requires Valid() && (!err ==> length <= blockSize)
      modifies this
      ensures Valid()
      ensures Value() == AfterRead(old(Value()), err, length)
    {
      hide Rotate;
      opCount := opCount - 1;
      if !err {
        readDataLength := length;
        unsentCount := unsentCount + 1;
        if unsentCount == 1 {
          opCount := opCount + 2;
          SwapAndIssue();
        }
      }
      if opCount == 0 {
        destroyPosts := destroyPosts + 1;
      }
    }

    method HandleWrite(err: bool)
      requires Valid()
      modifies this
      ensures Valid()
      ensures Value() == AfterWrite(old(Value()), err)
    {
      hide Rotate;
      opCount := opCount - 1;
      if !err {
        unsentCount := unsentCount - 1;
        if unsentCount == 1 {
          opCount := opCount + 2;
          SwapAndIssue();
        }
      }
      if opCount == 0 {
        destroyPosts := destroyPosts + 1;
      }
    }

    // The socket's half: what happens to buffers and pending operations between two handlers.

    method SocketFills(i: nat, data: seq<Octet>)
      requires Valid() && i < |socketReads| && |data| <= blockSize
      modifies this`socketReads, this`got, bufferA, bufferB
      ensures Valid()
      ensures Value() == old(Value()).(core := FinishRead(old(Value().core), i, data))
    {
      var buffer := if socketReads[i].First? then bufferA else bufferB;
      forall j | 0 <= j < |data| {
        buffer[j] := data[j];
      }
      assert buffer[..] == data + old(buffer[..])[|data|..];
      socketReads, got := Remove(socketReads, i), got + data;
    }

    method SocketDrains(i: nat, n: nat)
      requires Valid() && i < |socketWrites| && socketWrites[i].moved + n <= socketWrites[i].len
      modifies this`socketWrites, this`sent
      ensures Valid()
      ensures Value() == old(Value()).(core := MoveBytes(old(Value().core), i, n))
    {
      var w := socketWrites[i];
      sent := sent + (if w.slot.First? then bufferA[..] else bufferB[..])[w.moved..w.moved + n];
      socketWrites := socketWrites[i := w.(moved := w.moved + n)];
    }

    method SocketEndsRead(i: nat)
      requires Valid() && i < |socketReads|
      modifies this`socketReads, this`failed
      ensures Valid()
      ensures Value() == old(Value()).(core := DropRead(old(Value().core), i))
    {
      socketReads, failed := Remove(socketReads, i), true;
    }

    method SocketEndsWrite(i: nat, err: bool)
      requires Valid() && i < |socketWrites|
      modifies this`socketWrites, this`failed
      ensures Valid()
      ensures Value() == old(Value()).(core := if err then DropWrite(old(Value().core), i)
                                               else FinishWrite(old(Value().core), i))
    {
      socketWrites, failed := Remove(socketWrites, i), failed || err;
    }

    /** One step of the session: the socket acts and, on a completion, the handler runs. */
    method Perform(io: Io)
      requires Valid() && Enabled(Value().core, io)
      modifies this, bufferA, bufferB
      ensures Valid()
      ensures Value() == ServerNext(old(Value()), io)
    {
      hide AfterRead, AfterWrite, FinishRead, MoveBytes, FinishWrite, DropRead, DropWrite;
      match io
      case Read(i, data) =>
        SocketFills(i, data);
        HandleRead(false, |data|);
      case ReadFail(i) =>
        SocketEndsRead(i);
        HandleRead(true, 0);
      case Move(i, n) =>
        SocketDrains(i, n);
      case Wrote(i) =>
        SocketEndsWrite(i, false);
        HandleWrite(false);
      case WriteFail(i) =>
        SocketEndsWrite(i, true);
        HandleWrite(true);
    }

    /** A whole run of the object, from its start on: it follows the machine, so it echoes and tears down as proved. */
    method Serve(optionFailed: bool, ios: seq<Io>)
      requires Valid() && NewSession(Value()) && Legal(Started(Value(), optionFailed), ios)
      modifies this, bufferA, bufferB
      ensures Valid()
      ensures Value() == Run(Started(old(Value()), optionFailed), ios)
      ensures IsPrefix(sent, submitted) && IsPrefix(submitted, got)
      ensures destroyPosts <= 1 && (destroyPosts == 1 <==> opCount == 0)
      ensures opCount == |socketReads| + |socketWrites|
    {
      ghost var s := Started(Value(), optionFailed);
      ServerEchoes(Value(), optionFailed, ios);
      TeardownExactlyOnce(Value(), optionFailed, ios);
      Start(optionFailed);
      var k := 0;
      assert ios[0..] == ios;
      while k < |ios|
        invariant 0 <= k <= |ios|
        invariant Valid() && Legal(Value(), ios[k..])
        invariant Run(Value(), ios[k..]) == Run(s, ios)
      {
        hide ServerNext;
        assert ios[k..][1..] == ios[k + 1..];
        Perform(ios[k]);
        k := k + 1;
      }
      assert Run(Value(), ios[k..]) == Value();
    }
  }
}
