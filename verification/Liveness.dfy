/**
 The closed loop does not only avoid jams: whatever the scheduler does, the client reads again after a bounded
 number of steps. Every step that is neither a failure nor a read by the client brings some byte closer to the
 client, and how far the bytes have to go is bounded by the conservation law.
*/
module Liveness {
  import opened EchoCore
  import opened EchoInvariant
  import EchoClient
  import EchoServer
  import opened ClosedLoop

  /** How much a session's step changes what it holds back, has not moved, and has in flight. */
  lemma StepLoad(c: Core, io: Io)
    requires Inv(c) && !c.failed && Enabled(c, io) && !io.Failure()
    ensures var r := Next(c, io);
            match io
            case Move(_, n) =>
              && |Unmoved(r)| == |Unmoved(c)| - n && Held(r) == Held(c) && |r.pendingWrites| == |c.pendingWrites|
            case Wrote(_) =>
              && Unmoved(c) == [] && Held(r) == [] && |Unmoved(r)| == |Held(c)|
              && (if c.unsent == 2 then Held(c) != [] && |r.pendingWrites| == |c.pendingWrites|
                  else |r.pendingWrites| < |c.pendingWrites|)
            case Read(_, data) =>
              Held(c) == [] && if c.unsent == 0 then
                Held(r) == [] && Unmoved(c) == [] && |Unmoved(r)| == |data| && |r.pendingWrites| == |c.pendingWrites| + 1
              else
                |Held(r)| == |data| && |Unmoved(r)| == |Unmoved(c)| && |r.pendingWrites| == |c.pendingWrites|
            case _ => false
  {
    StepKeepsInv(c, io);
    if io.Read? {
      assert c.pendingReads[io.i] in c.pendingReads;
    }
  }

  /** How far the bytes of the loop still have to go, counting in stages, and which writes have to complete. */
  function Distance(l: Loop): nat
    requires l.Sized()
  {
    6 * |Held(l.cli.core)| + 5 * |Unmoved(l.cli.core)| + 4 * |l.up|
      + 3 * |Held(l.srv.core)| + 2 * |Unmoved(l.srv.core)|
      + |l.cli.core.pendingWrites| + |l.srv.core.pendingWrites|
      + (if l.connected then 0 else 5 * l.cli.core.block + 2) + (if l.accepted then 0 else 1)
  }

  lemma CliStepIsCloser(l: Loop, io: Io)
    requires LoopInv(l) && l.Healthy() && CanStep(l, Cli(io)) && !io.Failure() && !io.Read?
    ensures Distance(Step(l, Cli(io))) < Distance(l)
  {
    hide Shape, Streams, Next, Held, Unmoved, EchoClient.ClientNext;
    StepLoad(l.cli.core, io);
    EchoClient.ClientStepKeepsInv(l.cli, io);
    StepFrame(l.cli.core, io);
  }

  lemma SrvStepIsCloser(l: Loop, io: Io)
    requires LoopInv(l) && l.Healthy() && CanStep(l, Srv(io)) && !io.Failure()
    ensures Distance(Step(l, Srv(io))) < Distance(l)
  {
    hide Shape, Streams, Next, Held, Unmoved, EchoServer.ServerNext;
    StepLoad(l.srv.core, io);
  }

  lemma ConnectIsCloser(l: Loop)
    requires LoopInv(l) && !l.connected
    ensures Distance(Step(l, Connect(false))) < Distance(l)
  {
    EchoClient.ConnectEstablishes(l.cli, false);
    assert |Unmoved(Step(l, Connect(false)).cli.core)| == l.cli.core.block;
  }

  /** Every step that is not a failure and not a read by the client shortens the distance. */
  lemma StepIsCloser(l: Loop, e: Event)
    requires LoopInv(l) && l.Healthy() && CanStep(l, e) && !e.Failure() && !(e.Cli? && e.io.Read?)
    ensures Distance(Step(l, e)) < Distance(l)
  {
    match e
    case Connect(_) => ConnectIsCloser(l);
    case Accept(_) =>
    case Cli(io) => CliStepIsCloser(l, io);
    case Srv(io) => SrvStepIsCloser(l, io);
  }

  /** The distance is bounded by six stages per byte of the client's block. */
  lemma DistanceBound(l: Loop)
    requires LoopInv(l) && l.Healthy()
    ensures Distance(l) <= 6 * l.cli.core.block + 3
  {
    if l.connected {
      hide Streams;
      Conservation(l);
    } else {
      NothingBeforeConnect(l);
    }
  }

  lemma NothingBeforeConnect(l: Loop)
    requires LoopInv(l) && l.Healthy() && !l.connected
    ensures l.up == [] && Held(l.srv.core) == [] && Unmoved(l.srv.core) == []
    ensures Held(l.cli.core) == [] && Unmoved(l.cli.core) == [] && l.cli.core.pendingWrites == []
  {
    var s := l.srv.core;
    assert |l.cli.core.sent| == |s.got| + |l.up|;
    assert |s.submitted + Held(s)| == |s.seed + s.got|;
    assert |s.sent + Unmoved(s)| == |s.submitted|;
  }

  predicate NoFailure(es: seq<Event>) {
    forall e <- es :: !e.Failure()
  }

  /** How often the client reads in a run. */
  function ClientReads(es: seq<Event>): nat {
    if es == [] then 0 else (if es[0].Cli? && es[0].io.Read? then 1 else 0) + ClientReads(es[1..])
  }

  /** The most steps the loop takes between two reads by the client. */
  function Lap(l: Loop): nat {
    6 * l.cli.core.block + 4
  }

  /** A healthy loop stays healthy exactly as long as nothing fails. */
  lemma StaysHealthy(l: Loop, e: Event)
    requires LoopInv(l) && l.Healthy() && CanStep(l, e)
    ensures Step(l, e).Healthy() <==> !e.Failure()
  {
    hide Shape, Streams, Next;
    if e.Cli? {
      EchoClient.ClientStepKeepsInv(l.cli, e.io);
      StepFrame(l.cli.core, e.io);
    } else if e.Srv? {
      StepFrame(l.srv.core, e.io);
    }
  }

  lemma {:induction false} RunIsShort(l: Loop, es: seq<Event>)
    requires l.Sized() && LoopInv(l) && l.Healthy() && Legal(l, es) && NoFailure(es)
    ensures |es| <= Distance(l) + ClientReads(es) * Lap(l)
    decreases |es|
  {
    hide LoopInv, Step, CanStep, Distance;
    if es != [] {
      var e := es[0];
      assert e in es;
      var r := Step(l, e);
      StepKeepsLoopInv(l, e);
      StaysHealthy(l, e);
      RunIsShort(r, es[1..]);
      var k, c := ClientReads(es[1..]), Lap(l);
      assert Lap(r) == c;
      assert (k + 1) * c == k * c + c;
      if e.Cli? && e.io.Read? {
        DistanceBound(r);
      } else {
        StepIsCloser(l, e);
      }
    }
  }

  lemma AtStart(l: Loop)
    requires Init(l)
    ensures l.Sized() && LoopInv(l) && l.Healthy() && Distance(l) <= Lap(l)
  {
    assert LoopInv(l) by { ReachableInv(l, []); }
    DistanceBound(l);
  }

  /**
   Bounded waiting: however the steps are scheduled and fragmented, a failure-free run has at most 6 * B + 4 steps
   for each read by the client, plus as many to begin with. So a run that goes on keeps delivering.
  */
  lemma ClientKeepsReading(l: Loop, es: seq<Event>)
    requires Init(l) && Legal(l, es) && NoFailure(es)
    ensures |es| <= (ClientReads(es) + 1) * Lap(l)
  {
    hide LoopInv, Init, Legal, Distance, Lap;
    AtStart(l);
    RunIsShort(l, es);
    var k, c := ClientReads(es), Lap(l);
    assert (k + 1) * c == k * c + c;
  }
}
