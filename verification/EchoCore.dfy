/**
 The double-buffer discipline that the echo server's session and the client's session share
 (performance/pingpong/asio_pingpong/server.hpp and client.hpp).

 A session owns two buffers. A pending write is a range of one buffer that the socket drains a few bytes at a
 time, straight from memory; a completed read overwrites the front of a buffer. So the bytes that reach the
 wire are the bytes that were submitted only if no completed read ever lands in a buffer that is still being
 drained. Operations in flight are kept as sequences: that there is at most one of each kind is proved.
*/
module EchoCore {
  import opened Octets

  /** The two buffers a session allocates. */
  datatype Slot = First | Second

  datatype Memory = Memory(first: seq<Octet>, second: seq<Octet>) {
    function At(s: Slot): seq<Octet> {
      if s.First? then first else second
    }

    /** The memory after `data` was copied to the front of buffer `s`. */
    function Fill(s: Slot, data: seq<Octet>): Memory
      requires |data| <= |At(s)|
    {
      var filled := data + At(s)[|data|..];
      if s.First? then this.(first := filled) else this.(second := filled)
    }
  }

  /** `async_write` of the first `len` bytes of a buffer, of which `moved` are already on the wire. */
  datatype WriteOp = WriteOp(slot: Slot, len: nat, moved: nat)

  /**
   The fields of a session that take part in echoing, the operations its socket has in flight, and four logs:
   `seed` (bytes the session produced itself), `got` (bytes read), `submitted` (bytes handed to `async_write`,
   as they stood in memory at that moment) and `sent` (bytes that left memory for the wire).
  */
  datatype Core = Core(
    block: nat,
    mem: Memory,
    readSlot: Slot,
    writeSlot: Slot,
    readLen: nat,
    unsent: int,
    pendingReads: seq<Slot>,
    pendingWrites: seq<WriteOp>,
    failed: bool,
    seed: seq<Octet>,
    got: seq<Octet>,
    submitted: seq<Octet>,
    sent: seq<Octet>
  ) {
    /** Buffers have the block's size and every length recorded stays inside it. */
    predicate Sized() {
      && |mem.first| == |mem.second| == block
      && readLen <= block
      && forall w <- pendingWrites :: w.moved <= w.len <= block
    }

    function InFlight(): nat {
      |pendingReads| + |pendingWrites|
    }
  }

  // ---------------------------------------------------------------------------------------------------------
  // What the handlers do

  function StartRead(c: Core): Core {
    c.(pendingReads := c.pendingReads + [c.readSlot])
  }

  function StartWrite(c: Core, len: nat): (r: Core)
    requires c.Sized() && len <= c.block
    ensures r.Sized()
  {
    c.(pendingWrites := c.pendingWrites + [WriteOp(c.writeSlot, len, 0)],
       submitted := c.submitted + c.mem.At(c.writeSlot)[..len])
  }

  function Swap(c: Core): Core {
    c.(readSlot := c.writeSlot, writeSlot := c.readSlot)
  }

  /** Swap the buffers, write the block that was read, read the next one. */
  function Rotate(c: Core): (r: Core)
    requires c.Sized()
    ensures r.Sized()
  {
    StartRead(StartWrite(Swap(c), c.readLen))
  }

  /** The success branch of `handle_read`. */
  function OnRead(c: Core, length: nat): (r: Core)
    requires c.Sized() && length <= c.block
    ensures r.Sized()
  {
    var c1 := c.(readLen := length, unsent := c.unsent + 1);
    if c1.unsent == 1 then Rotate(c1) else c1
  }

  /** The success branch of `handle_write`. */
  function OnWrite(c: Core): (r: Core)
    requires c.Sized()
    ensures r.Sized()
  {
    var c1 := c.(unsent := c.unsent - 1);
    if c1.unsent == 1 then Rotate(c1) else c1
  }

  // ---------------------------------------------------------------------------------------------------------
  // What the socket does

  function Remove<T>(s: seq<T>, i: nat): (r: seq<T>)
    requires i < |s|
    ensures |r| == |s| - 1
    ensures forall x <- r :: x in s
  {
    s[..i] + s[i + 1..]
  }

  /** Read `i` completes with `data`. */
  function FinishRead(c: Core, i: nat, data: seq<Octet>): (r: Core)
    requires c.Sized() && i < |c.pendingReads| && |data| <= c.block
    ensures r.Sized()
  {
    c.(mem := c.mem.Fill(c.pendingReads[i], data), pendingReads := Remove(c.pendingReads, i), got := c.got + data)
  }

  function DropRead(c: Core, i: nat): Core
    requires i < |c.pendingReads|
  {
    c.(pendingReads := Remove(c.pendingReads, i), failed := true)
  }

  /** Write `i` moves its next `n` bytes from memory to the wire. */
  function MoveBytes(c: Core, i: nat, n: nat): (r: Core)
    requires c.Sized() && i < |c.pendingWrites| && n <= c.pendingWrites[i].len - c.pendingWrites[i].moved
    ensures r.Sized()
  {
    var w := c.pendingWrites[i];
    c.(pendingWrites := c.pendingWrites[i := w.(moved := w.moved + n)],
       sent := c.sent + c.mem.At(w.slot)[w.moved..w.moved + n])
  }

  function FinishWrite(c: Core, i: nat): (r: Core)
    requires i < |c.pendingWrites|
    ensures c.Sized() ==> r.Sized()
  {
    c.(pendingWrites := Remove(c.pendingWrites, i))
  }

  function DropWrite(c: Core, i: nat): (r: Core)
    requires i < |c.pendingWrites|
    ensures c.Sized() ==> r.Sized()
  {
    c.(pendingWrites := Remove(c.pendingWrites, i), failed := true)
  }

  // ---------------------------------------------------------------------------------------------------------
  // One step of a session: the socket acts and, on a completion, the strand runs the handler

  datatype Io =
    | Read(i: nat, data: seq<Octet>)
    | ReadFail(i: nat)
    | Move(i: nat, n: nat)
    | Wrote(i: nat)
    | WriteFail(i: nat)
  {
    predicate Completion() {
      !Move?
    }

    predicate Failure() {
      ReadFail? || WriteFail?
    }
  }

  predicate Enabled(c: Core, io: Io) {
    match io
    case Read(i, data) => i < |c.pendingReads| && 1 <= |data| <= c.block
    case ReadFail(i) => i < |c.pendingReads|
    case Move(i, n) => i < |c.pendingWrites| && 1 <= n && c.pendingWrites[i].moved + n <= c.pendingWrites[i].len
    case Wrote(i) => i < |c.pendingWrites| && c.pendingWrites[i].moved == c.pendingWrites[i].len
    case WriteFail(i) => i < |c.pendingWrites|
  }

  function Next(c: Core, io: Io): (r: Core)
    requires c.Sized() && Enabled(c, io)
    ensures r.Sized()
  {
    match io
    case Read(i, data) => OnRead(FinishRead(c, i, data), |data|)
    case ReadFail(i) => DropRead(c, i)
    case Move(i, n) => MoveBytes(c, i, n)
    case Wrote(i) => OnWrite(FinishWrite(c, i))
    case WriteFail(i) => DropWrite(c, i)
  }

  /** The bytes a step puts on the wire. */
  function Given(c: Core, io: Io): (r: seq<Octet>)
    requires c.Sized() && Enabled(c, io)
    ensures |r| == if io.Move? then io.n else 0
  {
    if io.Move? then
      var w := c.pendingWrites[io.i];
      c.mem.At(w.slot)[w.moved..w.moved + io.n]
    else []
  }

  /** A session as its constructor leaves it, with arbitrary buffer contents. */
  predicate Fresh(c: Core) {
    && c.Sized()
    && c.readSlot != c.writeSlot
    && c.unsent == 0 && c.readLen == 0
    && c.pendingReads == [] && c.pendingWrites == []
    && !c.failed
    && c.seed == [] && c.got == [] && c.submitted == [] && c.sent == []
  }

  // ---------------------------------------------------------------------------------------------------------
  // The invariant of every run

  /** The block that was read while a write was still in flight. */
  function Held(c: Core): seq<Octet>
    requires c.Sized()
  {
    if c.unsent == 2 then c.mem.At(c.readSlot)[..c.readLen] else []
  }

  /** The part of a write that has not left memory. */
  function Rest(c: Core, w: WriteOp): seq<Octet>
    requires c.Sized() && w in c.pendingWrites
  {
    c.mem.At(w.slot)[w.moved..w.len]
  }

  /** Bytes submitted and not yet on the wire, over all writes in flight. */
  function Unmoved(c: Core): seq<Octet>
    requires c.Sized()
  {
    if |c.pendingWrites| == 1 then Rest(c, c.pendingWrites[0]) else []
  }

  /** Which operations are in flight, and on which buffer, for each value of the counter. */
  predicate Shape(c: Core) {
    && c.readSlot != c.writeSlot
    && 0 <= c.unsent <= 2
    && |c.pendingReads| <= 1 && |c.pendingWrites| <= 1
    && (forall r <- c.pendingReads :: r == c.readSlot)
    && (forall w <- c.pendingWrites :: w.slot == c.writeSlot && 1 <= w.len)
    && (c.unsent == 2 ==> c.pendingReads == [] && 1 <= c.readLen)
    && (c.failed ==> c.InFlight() <= 1 && (c.InFlight() == 1 ==> c.unsent == 1))
    && (!c.failed && c.InFlight() != 0 ==>
          |c.pendingReads| == (if c.unsent == 2 then 0 else 1) && |c.pendingWrites| == (if c.unsent == 0 then 0 else 1))
    && (!c.failed && c.InFlight() == 0 ==> c.unsent == 0)
  }

  /** How the logs relate: what was submitted, then what is held, is what the session produced and read. */
  predicate Streams(c: Core)
    requires c.Sized()
  {
    && c.submitted + Held(c) == c.seed + c.got
    && IsPrefix(c.sent + Unmoved(c), c.submitted)
    && (|c.pendingWrites| == 1 || !c.failed ==> c.sent + Unmoved(c) == c.submitted)
  }

  predicate Inv(c: Core) {
    c.Sized() && Shape(c) && Streams(c)
  }

}
