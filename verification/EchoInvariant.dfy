/** What every step of an echo session keeps, and what follows from it in every reachable state. */
module EchoInvariant {
  import opened Octets
  import opened EchoCore

  /** Starting the block's write restores the stream equation that `Swap` and the counter disturbed. */
  lemma RotateKeeps(c: Core, block: seq<Octet>)
    requires c.Sized() && !c.failed && c.readSlot != c.writeSlot
    requires c.unsent == 1 && 1 <= c.readLen
    requires c.InFlight() == 0
    requires block == c.mem.At(c.readSlot)[..c.readLen]
    requires c.submitted + block == c.seed + c.got && c.sent == c.submitted
    ensures Inv(Rotate(c))
    ensures Rotate(c).submitted == c.submitted + block
    ensures Rotate(c).pendingWrites == [WriteOp(c.readSlot, c.readLen, 0)]
    ensures Rotate(c).pendingReads == [c.writeSlot]
  {
    var r := Rotate(c);
    assert Rest(r, r.pendingWrites[0]) == block;
  }

  lemma ReadKeepsInv(c: Core, i: nat, data: seq<Octet>)
    requires Inv(c) && Enabled(c, Read(i, data))
    ensures Inv(Next(c, Read(i, data)))
  {
    var f := FinishRead(c, i, data);
    assert c.pendingReads[i] in c.pendingReads;
    assert f.mem.At(c.readSlot)[..|data|] == data;
    assert f.mem.At(c.writeSlot) == c.mem.At(c.writeSlot);
    assert c.submitted + data == c.seed + (c.got + data) by {
      assert c.submitted + [] == c.submitted;
      assert c.seed + c.got + data == c.seed + (c.got + data);
    }
    var c1 := f.(readLen := |data|, unsent := f.unsent + 1);
    if c1.unsent == 1 {
      RotateKeeps(c1, data);
    } else {
      assert Held(c1) == data;
      assert Unmoved(c1) == Unmoved(c);
    }
  }

  lemma WroteKeepsInv(c: Core, i: nat)
    requires Inv(c) && Enabled(c, Wrote(i))
    ensures Inv(Next(c, Wrote(i)))
  {
    var f := FinishWrite(c, i);
    assert Unmoved(c) == [];
    assert c.sent == c.submitted;
    var c1 := f.(unsent := f.unsent - 1);
    if c1.unsent == 1 {
      RotateKeeps(c1, Held(c));
    }
  }

  lemma MoveKeepsInv(c: Core, i: nat, n: nat)
    requires Inv(c) && Enabled(c, Move(i, n))
    ensures Inv(Next(c, Move(i, n)))
  {
    var r := Next(c, Move(i, n));
    assert Unmoved(c) == Unmoved(c)[..n] + Unmoved(r);
    assert r.sent + Unmoved(r) == c.sent + Unmoved(c);
  }

  lemma FailureKeepsInv(c: Core, io: Io)
    requires Inv(c) && Enabled(c, io) && io.Failure()
    ensures Inv(Next(c, io))
  {
    if io.WriteFail? {
      PrefixOfConcat(c.sent, Unmoved(c));
      assert Next(c, io).sent + [] == c.sent;
    }
  }

  /** Every step of a session, in whatever order completions and failures arrive, keeps the invariant. */
  lemma StepKeepsInv(c: Core, io: Io)
    requires Inv(c) && Enabled(c, io)
    ensures Inv(Next(c, io))
  {
    match io
    case Read(i, data) => ReadKeepsInv(c, i, data);
    case Wrote(i) => WroteKeepsInv(c, i);
    case Move(i, n) => MoveKeepsInv(c, i, n);
    case ReadFail(_) => FailureKeepsInv(c, io);
    case WriteFail(_) => FailureKeepsInv(c, io);
  }

  /** The logs grow by exactly what the step took from the peer and put on the wire. */
  lemma LogsGrow(c: Core, io: Io)
    requires c.Sized() && Enabled(c, io)
    ensures Next(c, io).sent == c.sent + Given(c, io)
    ensures Next(c, io).got == c.got + (if io.Read? then io.data else [])
  {}

  /** A completion takes one operation away, and starts two exactly when the counter comes to one. */
  lemma OperationsCount(c: Core, io: Io)
    requires c.Sized() && Enabled(c, io)
    ensures Next(c, io).InFlight() == c.InFlight() - (if io.Completion() then 1 else 0)
                                      + (if (io.Read? && c.unsent == 0) || (io.Wrote? && c.unsent == 2) then 2 else 0)
  {}

  /** What a step leaves alone, and that a session without a failure never falls idle. */
  lemma StepFrame(c: Core, io: Io)
    requires Inv(c) && Enabled(c, io)
    ensures Next(c, io).block == c.block && Next(c, io).seed == c.seed
    ensures Next(c, io).failed == (c.failed || io.Failure())
    ensures !Next(c, io).failed ==> Next(c, io).InFlight() != 0
  {
    hide Streams;
    StepKeepsInv(c, io);
  }

  /** After the first failed completion nothing new is started: each completion takes one operation away. */
  lemma NothingStartsAfterFailure(c: Core, io: Io)
    requires Inv(c) && Enabled(c, io) && (c.failed || io.Failure())
    ensures Next(c, io).failed
    ensures Next(c, io).InFlight() == (if io.Completion() then c.InFlight() - 1 else c.InFlight())
    ensures Next(c, io).InFlight() <= 1
    ensures Next(c, io).submitted == c.submitted
  {
    hide Streams;
    StepKeepsInv(c, io);
  }

  /** The buffers trade places only when the completing operation was the only one in flight. */
  lemma SwapsOnlyWhenQuiet(c: Core, io: Io)
    requires Inv(c) && Enabled(c, io)
    ensures Next(c, io).readSlot != c.readSlot ==> c.InFlight() == 1 && io.Completion() && !c.failed
    ensures Next(c, io).readSlot != c.readSlot ==> Next(c, io).pendingReads == [c.writeSlot]
    ensures Next(c, io).readSlot != c.readSlot ==>
              |Next(c, io).pendingWrites| == 1 && Next(c, io).pendingWrites[0].slot == c.readSlot
  {
    hide Streams;
    StepKeepsInv(c, io);
  }

  /** A read and a write in flight together never touch the same buffer. */
  lemma BuffersAreExclusive(c: Core)
    requires Inv(c)
    ensures |c.pendingReads| <= 1 && |c.pendingWrites| <= 1 && 0 <= c.unsent <= 2
    ensures forall r, w :: r in c.pendingReads && w in c.pendingWrites ==> r != w.slot
  {}

  /** The echo property: wire, submission and input are prefixes of one another, one block apart at most. */
  lemma EchoesInOrder(c: Core)
    requires Inv(c)
    ensures IsPrefix(c.sent, c.submitted)
    ensures IsPrefix(c.submitted, c.seed + c.got)
    ensures |c.seed + c.got| - |c.submitted| <= c.block
  {
    PrefixOfConcat(c.sent, Unmoved(c));
    PrefixTransitive(c.sent, c.sent + Unmoved(c), c.submitted);
    PrefixOfConcat(c.submitted, Held(c));
  }
}
