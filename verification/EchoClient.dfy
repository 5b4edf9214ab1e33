/**
 The client's session (performance/pingpong/asio_pingpong/client.hpp): it sends one block of its own on connect
 and from then on sends back whatever it reads, counting bytes and messages.
*/
module EchoClient {
  import opened Octets
  import opened EchoCore
  import opened EchoInvariant

  datatype Client = Client(core: Core, bytesWritten: nat, bytesRead: nat, readMsgs: nat)

  /** The block the constructor writes into the send buffer. */
  function Pattern(n: nat): seq<Octet> {
    seq(n, i requires 0 <= i => i % 128)
  }

  /** The success branch of `handle_connect`. */
  function Connected(c: Client, optionFailed: bool): Client
    requires c.core.Sized()
  {
    if optionFailed then
      c.(core := c.core.(failed := true))
    else
      var k := c.core.(unsent := c.core.unsent + 1, seed := c.core.mem.At(c.core.writeSlot));
      c.(core := StartRead(StartWrite(k, k.block)))
  }

  function AfterRead(c: Client, err: bool, length: nat): Client
    requires c.core.Sized() && (!err ==> length <= c.core.block)
  {
    if err then c else
      c.(core := OnRead(c.core, length), bytesRead := c.bytesRead + length, readMsgs := c.readMsgs + 1)
  }

  function AfterWrite(c: Client, err: bool, length: nat): Client
    requires c.core.Sized()
  {
    if !err && length > 0 then
      c.(core := OnWrite(c.core), bytesWritten := c.bytesWritten + length)
    else
      c
  }

  function ClientNext(c: Client, io: Io): (r: Client)
    requires c.core.Sized() && Enabled(c.core, io)
    ensures r.core.Sized()
  {
    match io
    case Read(i, data) => AfterRead(c.(core := FinishRead(c.core, i, data)), false, |data|)
    case ReadFail(i) => AfterRead(c.(core := DropRead(c.core, i)), true, 0)
    case Move(i, n) => c.(core := MoveBytes(c.core, i, n))
    case Wrote(i) => AfterWrite(c.(core := FinishWrite(c.core, i)), false, c.core.pendingWrites[i].len)
    case WriteFail(i) => AfterWrite(c.(core := DropWrite(c.core, i)), true, c.core.pendingWrites[i].moved)
  }

  predicate Legal(c: Client, ios: seq<Io>)
    requires c.core.Sized()
    decreases |ios|
  {
    ios == [] || (Enabled(c.core, ios[0]) && Legal(ClientNext(c, ios[0]), ios[1..]))
  }

  function Run(c: Client, ios: seq<Io>): (r: Client)
    requires c.core.Sized() && Legal(c, ios)
    ensures r.core.Sized()
    decreases |ios|
  {
    if ios == [] then c else Run(ClientNext(c, ios[0]), ios[1..])
  }

  /** How many reads succeeded in a run. */
  function ReadCount(ios: seq<Io>): nat {
    if ios == [] then 0 else (if ios[0].Read? then 1 else 0) + ReadCount(ios[1..])
  }

  predicate NewClient(c: Client) {
    && Fresh(c.core)
    && c.core.mem.At(c.core.writeSlot) == Pattern(c.core.block)
    && c.bytesWritten == c.bytesRead == c.readMsgs == 0
  }

  /** The total length of the writes in flight. */
  function PendingLength(c: Core): nat {
    if |c.pendingWrites| == 1 then c.pendingWrites[0].len else 0
  }

  predicate ClientInv(c: Client) {
    && Inv(c.core)
    && (c.core.seed == Pattern(c.core.block) || c.core.seed == [])
    && (c.core.InFlight() != 0 || c.core.got != [] ==> c.core.seed == Pattern(c.core.block))
    && c.bytesRead == |c.core.got|
    && (!c.core.failed ==> c.bytesWritten + PendingLength(c.core) == |c.core.submitted|)
  }

  lemma ConnectEstablishes(c: Client, optionFailed: bool)
    requires NewClient(c) && 1 <= c.core.block
    ensures ClientInv(c) && ClientInv(Connected(c, optionFailed))
    ensures !optionFailed ==>
              var k := Connected(c, optionFailed).core;
              && k.seed == Pattern(k.block)
              && k.pendingReads == [c.core.readSlot]
              && k.pendingWrites == [WriteOp(c.core.writeSlot, k.block, 0)]
              && k.unsent == 1 && !k.failed
  {}

  /** A client whose socket option could not be set starts nothing, so nothing ever happens to it again. */
  lemma FailedOptionEndsIt(c: Client, ios: seq<Io>)
    requires NewClient(c) && Legal(Connected(c, true), ios)
    ensures ios == []
    ensures var r := Run(Connected(c, true), ios);
            && r.core.failed && r.core.InFlight() == 0
            && r.core.submitted == [] == r.core.sent && r.bytesWritten == 0 == r.bytesRead
  {
    assert forall io :: !Enabled(Connected(c, true).core, io);
  }

  /** A write's length leaves the pending total when it completes, and the next block's length enters both totals. */
  lemma SubmittedGrows(c: Core, io: Io)
    requires Inv(c) && !c.failed && Enabled(c, io) && !io.Failure()
    ensures |Next(c, io).submitted| - PendingLength(Next(c, io))
         == |c.submitted| - PendingLength(c) + (if io.Wrote? then c.pendingWrites[io.i].len else 0)
  {
    hide Streams;
    StepKeepsInv(c, io);
  }

  /** The client's step is the shared core's step, and its counters count it. */
  lemma ClientStepCounts(c: Client, io: Io)
    requires Inv(c.core) && Enabled(c.core, io)
    ensures var r := ClientNext(c, io);
            && r.core == Next(c.core, io)
            && r.bytesRead == c.bytesRead + (if io.Read? then |io.data| else 0)
            && r.readMsgs == c.readMsgs + (if io.Read? then 1 else 0)
            && r.bytesWritten == c.bytesWritten + (if io.Wrote? then c.core.pendingWrites[io.i].len else 0)
  {
    hide Streams;
    if io.Wrote? {
      assert c.core.pendingWrites[io.i] in c.core.pendingWrites;
    }
  }

  lemma ClientStepKeepsInv(c: Client, io: Io)
    requires ClientInv(c) && Enabled(c.core, io)
    ensures ClientNext(c, io).core == Next(c.core, io)
    ensures ClientInv(ClientNext(c, io))
    ensures ClientNext(c, io).core.seed == c.core.seed
    ensures ClientNext(c, io).readMsgs == c.readMsgs + (if io.Read? then 1 else 0)
  {
    hide Shape, Streams, Next, ClientNext, PendingLength;
    StepKeepsInv(c.core, io);
    StepFrame(c.core, io);
    LogsGrow(c.core, io);
    ClientStepCounts(c, io);
    if !c.core.failed && !io.Failure() {
      SubmittedGrows(c.core, io);
    }
  }

  lemma {:induction false} RunKeepsInv(c: Client, ios: seq<Io>)
    requires ClientInv(c) && Legal(c, ios)
    ensures ClientInv(Run(c, ios))
    ensures Run(c, ios).core.seed == c.core.seed && Run(c, ios).core.block == c.core.block
    ensures Run(c, ios).readMsgs == c.readMsgs + ReadCount(ios)
    decreases |ios|
  {
    if ios != [] {
      ClientStepKeepsInv(c, ios[0]);
      RunKeepsInv(ClientNext(c, ios[0]), ios[1..]);
    }
  }

  /** A client with a block of no bytes never sends or reads one; its empty write completes without effect. */
  predicate Idle(c: Client) {
    && c.core.Sized() && c.core.block == 0 && c.core.unsent == 1
    && c.core.got == c.core.submitted == c.core.sent == []
    && c.bytesWritten == c.bytesRead == c.readMsgs == 0
  }

  lemma {:induction false} EmptyBlockIdles(c: Client, ios: seq<Io>)
    requires Idle(c) && Legal(c, ios)
    ensures Idle(Run(c, ios)) && ReadCount(ios) == 0
    decreases |ios|
  {
    if ios != [] {
      IdleStep(c, ios[0]);
      EmptyBlockIdles(ClientNext(c, ios[0]), ios[1..]);
    }
  }

  lemma IdleStep(c: Client, io: Io)
    requires Idle(c) && Enabled(c.core, io)
    ensures Idle(ClientNext(c, io)) && !io.Read?
  {
    if io.Wrote? {
      assert c.core.pendingWrites[io.i] in c.core.pendingWrites;
    }
  }

  /**
   Byte accounting, for every order of completions until one fails: bytes written, plus the write in flight, plus
   the block held back, is the initial block plus the bytes read. Messages are counted one per successful read.
  */
  lemma ClientAccounts(c: Client, ios: seq<Io>)
    requires NewClient(c) && Legal(Connected(c, false), ios)
    ensures var r := Run(Connected(c, false), ios);
            && r.bytesRead == |r.core.got| && r.readMsgs == ReadCount(ios)
            && (!r.core.failed ==>
                  r.bytesWritten + PendingLength(r.core) + |Held(r.core)| == r.core.block + r.bytesRead)
  {
    if c.core.block == 0 {
      EmptyBlockIdles(Connected(c, false), ios);
    } else {
      ConnectEstablishes(c, false);
      RunKeepsInv(Connected(c, false), ios);
      var r := Run(Connected(c, false), ios);
      assert |r.core.submitted + Held(r.core)| == |r.core.seed + r.core.got|;
    }
  }

  /** What the client puts on the wire is always a prefix of its own block followed by what it has read. */
  lemma ClientSendsSeedThenEcho(c: Client, ios: seq<Io>)
    requires NewClient(c) && Legal(Connected(c, false), ios)
    ensures var r := Run(Connected(c, false), ios).core;
            IsPrefix(r.sent, Pattern(r.block) + r.got)
  {
    if c.core.block == 0 {
      EmptyBlockIdles(Connected(c, false), ios);
    } else {
      ConnectEstablishes(c, false);
      RunKeepsInv(Connected(c, false), ios);
      var r := Run(Connected(c, false), ios).core;
      EchoesInOrder(r);
      PrefixTransitive(r.sent, r.submitted, r.seed + r.got);
    }
  }

  // ---------------------------------------------------------------------------------------------------------

  /** The client's session object. */
  class Session {
    const blockSize: nat
    const bufferA: array<Octet>
    const bufferB: array<Octet>
    var readData: array<Octet>
    var readDataLength: nat
    var writeData: array<Octet>
    var unwrittenCount: int
    var bytesWritten: nat
    var bytesRead: nat
    var readMsgsCnt: nat
    // What the socket has been asked to do, and has not finished.
    var socketReads: seq<Slot>
    var socketWrites: seq<WriteOp>
    ghost var failed: bool
    ghost var seed: seq<Octet>
    ghost var got: seq<Octet>
    ghost var submitted: seq<Octet>
    ghost var sent: seq<Octet>

    ghost predicate Valid()
      reads this
    {
      && bufferA != bufferB
      && bufferA.Length == bufferB.Length == blockSize
      && ((readData == bufferA && writeData == bufferB) || (readData == bufferB && writeData == bufferA))
      && readDataLength <= blockSize
      && forall w <- socketWrites :: w.moved <= w.len <= blockSize
    }

    function SlotOf(buffer: array<Octet>): Slot {
      if buffer == bufferA then First else Second
    }

    ghost function Value(): (c: Client)
      requires Valid()
      reads this, bufferA, bufferB
      ensures c.core.Sized()
    {
      Client(
        Core(blockSize, Memory(bufferA[..], bufferB[..]), SlotOf(readData), SlotOf(writeData), readDataLength,
             unwrittenCount, socketReads, socketWrites, failed, seed, got, submitted, sent),
        bytesWritten, bytesRead, readMsgsCnt)
    }

    constructor (blockSize: nat)
      ensures Valid() && NewClient(Value())
      ensures this.blockSize == blockSize
      ensures fresh(bufferA) && fresh(bufferB)
    {
      this.blockSize := blockSize;
      var a := new Octet[blockSize];
      var b := new Octet[blockSize];
      for i := 0 to blockSize
        invariant forall j :: 0 <= j < i ==> b[j] == j % 128
      {
        b[i] := i % 128;
      }
      bufferA, bufferB := a, b;
      readData, readDataLength, writeData := a, 0, b;
      unwrittenCount, bytesWritten, bytesRead, readMsgsCnt := 0, 0, 0, 0;
      socketReads, socketWrites := [], [];
      failed, seed, got, submitted, sent := false, [], [], [], [];
      new;
      assert bufferB[..] == Pattern(blockSize);
    }

    method AsyncReadSome()
      requires Valid()
      modifies this`socketReads
      ensures Valid()
      ensures Value() == old(Value()).(core := StartRead(old(Value().core)))
    {
      socketReads := socketReads + [SlotOf(readData)];
    }

    method AsyncWrite(len: nat)
      requires Valid() && len <= blockSize
      modifies this`socketWrites, this`submitted
      ensures Valid()
      ensures Value() == old(Value()).(core := StartWrite(old(Value().core), len))
    {
      socketWrites := socketWrites + [WriteOp(SlotOf(writeData), len, 0)];
      submitted := submitted + (if writeData == bufferA then bufferA[..] else bufferB[..])[..len];
    }

    /** The swap, write and read that both handlers start with. */
    method SwapAndIssue()
      requires Valid()
      modifies this`readData, this`writeData, this`socketReads, this`socketWrites, this`submitted
      ensures Valid()
      ensures Value() == old(Value()).(core := Rotate(old(Value().core)))
    {
      readData, writeData := writeData, readData;
      AsyncWrite(readDataLength);
      AsyncReadSome();
    }

    method HandleConnect(optionFailed: bool)
      requires Valid()
      modifies this
      ensures Valid()
      ensures Value() == Connected(old(Value()), optionFailed)
    {
      if !optionFailed {
        unwrittenCount := unwrittenCount + 1;
        seed := if writeData == bufferA then bufferA[..] else bufferB[..];
        AsyncWrite(blockSize);
        AsyncReadSome();
      } else {
        failed := true;
      }
    }

    method HandleRead(err: bool, length: nat)
      requires Valid() && (!err ==> length <= blockSize)
      modifies this
      ensures Valid()
      ensures Value() == AfterRead(old(Value()), err, length)
    {
      hide Rotate;
      if !err {
        readMsgsCnt := readMsgsCnt + 1;
        bytesRead := bytesRead + length;
        readDataLength := length;
        unwrittenCount := unwrittenCount + 1;
        if unwrittenCount == 1 {
          SwapAndIssue();
        }
      }
    }

    method HandleWrite(err: bool, length: nat)
      requires Valid()
      modifies this
      ensures Valid()
      ensures Value() == AfterWrite(old(Value()), err, length)
    {
      hide Rotate;
      if !err && length > 0 {
        bytesWritten := bytesWritten + length;
        unwrittenCount := unwrittenCount - 1;
        if unwrittenCount == 1 {
          SwapAndIssue();
        }
      }
    }

    // The socket's half: what happens to buffers and pending operations between two handlers.

    method SocketFills(i: nat, data: seq<Octet>)
      requires Valid() && i < |socketReads| && |data| <= blockSize
      modifies this`socketReads, this`got, bufferA, bufferB
      ensures Valid()
      ensures Value() == old(Value()).(core := FinishRead(old(Value().core), i, data))
    {
      var buffer := if socketReads[i].First? then bufferA else bufferB;
      forall j | 0 <= j < |data| {
        buffer[j] := data[j];
      }
      assert buffer[..] == data + old(buffer[..])[|data|..];
      socketReads, got := Remove(socketReads, i), got + data;
    }

    method SocketDrains(i: nat, n: nat)
      requires Valid() && i < |socketWrites| && socketWrites[i].moved + n <= socketWrites[i].len
      modifies this`socketWrites, this`sent
      ensures Valid()
      ensures Value() == old(Value()).(core := MoveBytes(old(Value().core), i, n))
    {
      var w := socketWrites[i];
      sent := sent + (if w.slot.First? then bufferA[..] else bufferB[..])[w.moved..w.moved + n];
      socketWrites := socketWrites[i := w.(moved := w.moved + n)];
    }

    method SocketEndsRead(i: nat)
      requires Valid() && i < |socketReads|
      modifies this`socketReads, this`failed
      ensures Valid()
      ensures Value() == old(Value()).(core := DropRead(old(Value().core), i))
    {
      socketReads, failed := Remove(socketReads, i), true;
    }

    method SocketEndsWrite(i: nat, err: bool)
      requires Valid() && i < |socketWrites|
      modifies this`socketWrites, this`failed
      ensures Valid()
      ensures Value() == old(Value()).(core := if err then DropWrite(old(Value().core), i)
                                               else FinishWrite(old(Value().core), i))
    {
      socketWrites, failed := Remove(socketWrites, i), failed || err;
    }

    /** One step of the session: the socket acts and, on a completion, the handler runs. */
    method Perform(io: Io)
      requires Valid() && Enabled(Value().core, io)
      modifies this, bufferA, bufferB
      ensures Valid()
      ensures Value() == ClientNext(old(Value()), io)
    {
      hide AfterRead, AfterWrite, FinishRead, MoveBytes, FinishWrite, DropRead, DropWrite;
      match io
      case Read(i, data) =>
        SocketFills(i, data);
        HandleRead(false, |data|);
      case ReadFail(i) =>
        SocketEndsRead(i);
        HandleRead(true, 0);
      case Move(i, n) =>
        SocketDrains(i, n);
      case Wrote(i) =>
        var len := socketWrites[i].len;
        SocketEndsWrite(i, false);
        HandleWrite(false, len);
      case WriteFail(i) =>
        var moved := socketWrites[i].moved;
        SocketEndsWrite(i, true);
        HandleWrite(true, moved);
    }

    /** A whole run of the object, from its connection on. */
    method Play(ios: seq<Io>)
      requires Valid() && NewClient(Value()) && Legal(Connected(Value(), false), ios)
      modifies this, bufferA, bufferB
      ensures Valid()
      ensures Value() == Run(Connected(old(Value()), false), ios)
      ensures bytesRead == |got| && readMsgsCnt == ReadCount(ios)
      ensures IsPrefix(sent, Pattern(blockSize) + got)
    {
      ghost var c := Connected(Value(), false);
      ClientAccounts(Value(), ios);
      ClientSendsSeedThenEcho(Value(), ios);
      HandleConnect(false);
      var k := 0;
      assert ios[0..] == ios;
      while k < |ios|
        invariant 0 <= k <= |ios|
        invariant Valid() && Legal(Value(), ios[k..])
        invariant Run(Value(), ios[k..]) == Run(c, ios)
      {
        hide ClientNext;
        assert ios[k..][1..] == ios[k + 1..];
        Perform(ios[k]);
        k := k + 1;
      }
      assert Run(Value(), ios[k..]) == Value();
    }
  }
}
