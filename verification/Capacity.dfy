/**
 How much the two channels must hold for the closed loop never to jam.

 With channels of capacity `capUp` and `capDown`, both at least one, a healthy loop of block size B can always make
 progress exactly when B < capUp + capDown + 4: a jam needs both channels full and at least one byte in each of the
 two unfinished writes and the two held blocks. A channel that can hold nothing jams whatever the block size.
*/
module Capacity {
  import opened Octets
  import opened EchoCore
  import EchoClient
  import EchoServer
  import opened ClosedLoop
  import Liveness

  /** Nothing but a failure can happen. */
  ghost predicate Jammed(l: Loop) {
    forall e :: CanStep(l, e) ==> e.Failure()
  }

  /** A write that is not finished can move a byte as long as its channel has room; a finished one completes. */
  lemma WriterActs(c: Core, incoming: seq<Octet>, outgoing: seq<Octet>, cap: nat) returns (io: Io)
    requires Inv(c) && |c.pendingWrites| == 1
    requires Unmoved(c) == [] || |outgoing| < cap
    ensures Allowed(c, io, incoming, outgoing, cap) && !io.Failure()
  {
    var w := c.pendingWrites[0];
    io := if w.moved == w.len then Wrote(0) else Move(0, 1);
  }

  lemma ReaderActs(c: Core, incoming: seq<Octet>, outgoing: seq<Octet>, cap: nat) returns (io: Io)
    requires Inv(c) && 1 <= c.block && |c.pendingReads| == 1 && incoming != []
    ensures Allowed(c, io, incoming, outgoing, cap) && !io.Failure()
  {
    io := Read(0, incoming[..1]);
  }

  /** A session without a failure writes unless it is waiting for bytes, and reads unless it holds a block. */
  lemma BusyHow(c: Core)
    requires Inv(c) && !c.failed && c.InFlight() != 0
    ensures |c.pendingWrites| == 0 ==> |c.pendingReads| == 1 && Held(c) == [] && Unmoved(c) == []
    ensures |c.pendingReads| == 0 ==> |c.pendingWrites| == 1 && Held(c) != []
    ensures |c.pendingReads| <= 1 && |c.pendingWrites| <= 1
  {}

  /** A jam pins down the whole loop: both channels full, both writes unfinished, both sessions holding a block. */
  lemma SomeoneActs(l: Loop) returns (e: Event)
    requires LoopInv(l) && l.Healthy()
    requires 1 <= l.capUp && 1 <= l.capDown
    requires l.cli.core.block < l.capUp + l.capDown + 4
    ensures CanStep(l, e) && !e.Failure()
  {
    hide Shape, Streams;
    if !l.connected {
      e := Connect(false);
    } else if !l.accepted {
      e := Accept(false);
    } else {
      var c, s := l.cli.core, l.srv.core;
      BusyHow(c);
      BusyHow(s);
      Conservation(l);
      if |c.pendingWrites| == 1 && (Unmoved(c) == [] || |l.up| < l.capUp) {
        var io := WriterActs(c, l.down, l.up, l.capUp);
        e := Cli(io);
      } else if |s.pendingWrites| == 1 && (Unmoved(s) == [] || |l.down| < l.capDown) {
        var io := WriterActs(s, l.up, l.down, l.capDown);
        e := Srv(io);
      } else if |c.pendingReads| == 1 && l.down != [] {
        var io := ReaderActs(c, l.down, l.up, l.capUp);
        e := Cli(io);
      } else {
        var io := ReaderActs(s, l.up, l.down, l.capDown);
        e := Srv(io);
      }
    }
  }

  /** Progress: with enough room, no run without a failure ever jams. */
  lemma NeverJams(l: Loop, es: seq<Event>)
    requires Init(l) && Legal(l, es) && Run(l, es).Healthy()
    requires 1 <= l.capUp && 1 <= l.capDown
    requires l.cli.core.block < l.capUp + l.capDown + 4
    ensures !Jammed(Run(l, es))
  {
    hide Shape, Streams, Legal, Run, CanStep;
    ReachableInv(l, es);
    var e := SomeoneActs(Run(l, es));
  }

  // ---------------------------------------------------------------------------------------------------------
  // The bound is sharp: with one byte more, a run that jams

  lemma {:induction false} RunConcat(l: Loop, a: seq<Event>, b: seq<Event>)
    requires l.Sized() && Legal(l, a) && Legal(Run(l, a), b)
    ensures Legal(l, a + b) && Run(l, a + b) == Run(Run(l, a), b)
    decreases |a|
  {
    hide Step, CanStep;
    if a == [] {
      assert a + b == b;
    } else {
      assert (a + b)[0] == a[0] && (a + b)[1..] == a[1..] + b;
      RunConcat(Step(l, a[0]), a[1..], b);
    }
  }

  /** The parts of a loop that decide who can move: counters, the progress of each write, channel lengths. */
  datatype Gauge = Gauge(cliUnsent: int, cliLeft: nat, srvUnsent: int, srvLeft: nat, up: nat, down: nat)

  function Measure(l: Loop): Gauge
    requires l.Sized()
  {
    Gauge(l.cli.core.unsent, |Unmoved(l.cli.core)|, l.srv.core.unsent, |Unmoved(l.srv.core)|, |l.up|, |l.down|)
  }

  predicate Going(l: Loop) {
    LoopInv(l) && l.Healthy() && l.connected && l.accepted
  }

  predicate SameRoom(l: Loop, r: Loop) {
    r.capUp == l.capUp && r.capDown == l.capDown && r.cli.core.block == l.cli.core.block
  }

  /** One step from `l` to `r`. */
  predicate Steps(l: Loop, e: Event, r: Loop)
    requires l.Sized()
  {
    CanStep(l, e) && r == Step(l, e) && SameRoom(l, r)
  }

  /** How a session's counter and unsent bytes change when a write moves `n` bytes. */
  lemma MoveGauge(c: Core, n: nat)
    requires Inv(c) && 1 <= n <= |Unmoved(c)|
    ensures Enabled(c, Move(0, n))
    ensures Next(c, Move(0, n)).unsent == c.unsent
    ensures |Unmoved(Next(c, Move(0, n)))| == |Unmoved(c)| - n
    ensures !c.failed ==> !Next(c, Move(0, n)).failed
  {}

  lemma ReadGauge(c: Core, b: Octet)
    requires Inv(c) && !c.failed && c.InFlight() != 0 && c.unsent <= 1 && 1 <= c.block
    ensures Enabled(c, Read(0, [b]))
    ensures Next(c, Read(0, [b])).unsent == c.unsent + 1 && !Next(c, Read(0, [b])).failed
    ensures |Unmoved(Next(c, Read(0, [b])))| == if c.unsent == 0 then 1 else |Unmoved(c)|
  {}

  lemma WroteGauge(c: Core)
    requires Inv(c) && !c.failed && c.unsent == 1 && c.InFlight() != 0 && Unmoved(c) == []
    ensures Enabled(c, Wrote(0))
    ensures Next(c, Wrote(0)).unsent == 0 && !Next(c, Wrote(0)).failed && Unmoved(Next(c, Wrote(0))) == []
  {}

  lemma CliMoves(l: Loop, n: nat) returns (r: Loop)
    requires Going(l) && 1 <= n <= |Unmoved(l.cli.core)| && |l.up| + n <= l.capUp
    ensures Steps(l, Cli(Move(0, n)), r) && Going(r)
    ensures Measure(r) == Measure(l).(cliLeft := Measure(l).cliLeft - n, up := Measure(l).up + n)
  {
    hide Shape, Streams, Next, Unmoved, Given, EchoClient.ClientNext;
    MoveGauge(l.cli.core, n);
    EchoClient.ClientStepKeepsInv(l.cli, Move(0, n));
    r := Step(l, Cli(Move(0, n)));
    StepKeepsLoopInv(l, Cli(Move(0, n)));
  }

  lemma CliReads(l: Loop) returns (e: Event, r: Loop)
    requires Going(l) && l.cli.core.unsent == 1 && l.down != []
    ensures Steps(l, e, r) && Going(r)
    ensures Measure(r) == Measure(l).(cliUnsent := 2, down := Measure(l).down - 1)
  {
    hide Shape, Streams, Next, Unmoved, Given, EchoClient.ClientNext;
    e := Cli(Read(0, [l.down[0]]));
    ReadGauge(l.cli.core, l.down[0]);
    EchoClient.ClientStepKeepsInv(l.cli, e.io);
    r := Step(l, e);
    StepKeepsLoopInv(l, e);
  }

  lemma SrvMoves(l: Loop) returns (r: Loop)
    requires Going(l) && 1 <= |Unmoved(l.srv.core)| && |l.down| < l.capDown
    ensures Steps(l, Srv(Move(0, 1)), r) && Going(r)
    ensures Measure(r) == Measure(l).(srvLeft := Measure(l).srvLeft - 1, down := Measure(l).down + 1)
  {
    hide Shape, Streams, Next, Unmoved, Given, EchoServer.ServerNext;
    MoveGauge(l.srv.core, 1);
    r := Step(l, Srv(Move(0, 1)));
    StepKeepsLoopInv(l, Srv(Move(0, 1)));
  }

  lemma SrvReads(l: Loop) returns (e: Event, r: Loop)
    requires Going(l) && l.srv.core.unsent <= 1 && l.up != []
    ensures Steps(l, e, r) && Going(r)
    ensures Measure(r) == Measure(l).(srvUnsent := Measure(l).srvUnsent + 1, up := Measure(l).up - 1,
                                      srvLeft := if l.srv.core.unsent == 0 then 1 else Measure(l).srvLeft)
  {
    hide Shape, Streams, Next, Unmoved, Given, EchoServer.ServerNext;
    e := Srv(Read(0, [l.up[0]]));
    ReadGauge(l.srv.core, l.up[0]);
    r := Step(l, e);
    StepKeepsLoopInv(l, e);
  }

  lemma SrvWrote(l: Loop) returns (r: Loop)
    requires Going(l) && l.srv.core.unsent == 1 && Unmoved(l.srv.core) == []
    ensures Steps(l, Srv(Wrote(0)), r) && Going(r)
    ensures Measure(r) == Measure(l).(srvUnsent := 0)
  {
    hide Shape, Streams, Next, Unmoved, Given, EchoServer.ServerNext;
    WroteGauge(l.srv.core);
    r := Step(l, Srv(Wrote(0)));
    StepKeepsLoopInv(l, Srv(Wrote(0)));
  }

  /** The run `es` leads from `l` to `r`. */
  predicate Reaches(l: Loop, es: seq<Event>, r: Loop) {
    l.Sized() && Legal(l, es) && Run(l, es) == r && SameRoom(l, r)
  }

  lemma Then(l: Loop, es: seq<Event>, m: Loop, e: Event, r: Loop)
    requires Reaches(l, es, m) && Steps(m, e, r)
    ensures Reaches(l, es + [e], r)
  {
    hide Step, CanStep, Going;
    assert [e][1..] == [];
    assert Run(m, [e]) == r;
    RunConcat(l, es, [e]);
  }

  lemma ThenRun(l: Loop, a: seq<Event>, m: Loop, b: seq<Event>, r: Loop)
    requires Reaches(l, a, m) && Reaches(m, b, r)
    ensures Reaches(l, a + b, r)
  {
    hide Step, CanStep, Going, Legal, Run;
    RunConcat(l, a, b);
  }

  lemma Begin(l: Loop) returns (es: seq<Event>, r: Loop)
    requires Init(l)
    ensures Reaches(l, es, r) && Going(r) && Measure(r) == Gauge(1, l.cli.core.block, 0, 0, 0, 0)
  {
    var m := Step(l, Connect(false));
    ReachableInv(l, []);
    StepKeepsLoopInv(l, Connect(false));
    EchoClient.ConnectEstablishes(l.cli, false);
    assert |Unmoved(m.cli.core)| == l.cli.core.block;
    r := Step(m, Accept(false));
    StepKeepsLoopInv(m, Accept(false));
    EchoServer.StartEstablishes(l.srv, false);
    es := [Connect(false), Accept(false)];
    assert es[1..] == [Accept(false)] && es[1..][1..] == [];
  }

  /** The client's first byte comes home while its initial write is still going on. */
  lemma FirstByteHome(l: Loop) returns (es: seq<Event>, r: Loop)
    requires Going(l) && Measure(l).cliUnsent == 1 && 1 <= Measure(l).cliLeft
    requires Measure(l) == Gauge(1, Measure(l).cliLeft, 0, 0, 0, 0)
    requires 1 <= l.capUp && 1 <= l.capDown
    ensures Reaches(l, es, r) && Going(r) && Measure(r) == Gauge(2, Measure(l).cliLeft - 1, 0, 0, 0, 0)
  {
    hide LoopInv, Step, CanStep, Unmoved, Run, Legal;
    assert Reaches(l, [], l) by { EmptyRun(l); }
    var a := CliMoves(l, 1);
    Then(l, [], l, Cli(Move(0, 1)), a);
    var e1, b := SrvReads(a);
    Then(l, [] + [Cli(Move(0, 1))], a, e1, b);
    var c := SrvMoves(b);
    Then(l, [] + [Cli(Move(0, 1))] + [e1], b, Srv(Move(0, 1)), c);
    var e2, d := CliReads(c);
    Then(l, [] + [Cli(Move(0, 1))] + [e1] + [Srv(Move(0, 1))], c, e2, d);
    r := SrvWrote(d);
    Then(l, [] + [Cli(Move(0, 1))] + [e1] + [Srv(Move(0, 1))] + [e2], d, Srv(Wrote(0)), r);
    es := [] + [Cli(Move(0, 1))] + [e1] + [Srv(Move(0, 1))] + [e2] + [Srv(Wrote(0))];
  }

  lemma EmptyRun(l: Loop)
    requires Going(l)
    ensures Reaches(l, [], l)
  {}

  /** One byte travels from the client's write into the downward channel, where nobody picks it up. */
  lemma ParkOneByte(l: Loop) returns (es: seq<Event>, r: Loop)
    requires Going(l) && 1 <= Measure(l).cliLeft && Measure(l).down < l.capDown && 1 <= l.capUp
    requires Measure(l) == Gauge(2, Measure(l).cliLeft, 0, 0, 0, Measure(l).down)
    ensures Reaches(l, es, r) && Going(r)
    ensures Measure(r) == Gauge(2, Measure(l).cliLeft - 1, 0, 0, 0, Measure(l).down + 1)
  {
    hide LoopInv, Step, CanStep, Unmoved, Run, Legal;
    assert Reaches(l, [], l) by { EmptyRun(l); }
    var a := CliMoves(l, 1);
    Then(l, [], l, Cli(Move(0, 1)), a);
    var e1, b := SrvReads(a);
    Then(l, [] + [Cli(Move(0, 1))], a, e1, b);
    var c := SrvMoves(b);
    Then(l, [] + [Cli(Move(0, 1))] + [e1], b, Srv(Move(0, 1)), c);
    r := SrvWrote(c);
    Then(l, [] + [Cli(Move(0, 1))] + [e1] + [Srv(Move(0, 1))], c, Srv(Wrote(0)), r);
    es := [] + [Cli(Move(0, 1))] + [e1] + [Srv(Move(0, 1))] + [Srv(Wrote(0))];
  }

  lemma {:induction false} FillDown(l: Loop) returns (es: seq<Event>, r: Loop)
    requires l.Sized() && Going(l) && 1 <= l.capUp
    requires Measure(l) == Gauge(2, Measure(l).cliLeft, 0, 0, 0, Measure(l).down)
    requires Measure(l).down <= l.capDown && l.capDown - Measure(l).down <= Measure(l).cliLeft
    ensures Reaches(l, es, r) && Going(r)
    ensures Measure(r) == Gauge(2, Measure(l).cliLeft - (l.capDown - Measure(l).down), 0, 0, 0, l.capDown)
    decreases l.capDown - Measure(l).down
  {
    hide LoopInv, Step, CanStep, Unmoved, Run, Legal;
    if Measure(l).down == l.capDown {
      EmptyRun(l);
      es, r := [], l;
    } else {
      var a, m := ParkOneByte(l);
      var b, r' := FillDown(m);
      ThenRun(l, a, m, b, r');
      es, r := a + b, r';
    }
  }

  /** The server takes one byte it cannot send and one it cannot submit; then the client fills the upward channel. */
  lemma CloseTheTrap(l: Loop) returns (es: seq<Event>, r: Loop)
    requires Going(l) && 1 <= l.capUp && l.capUp + 2 < Measure(l).cliLeft
    requires Measure(l) == Gauge(2, Measure(l).cliLeft, 0, 0, 0, l.capDown)
    ensures Reaches(l, es, r) && Going(r)
    ensures Measure(r) == Gauge(2, Measure(l).cliLeft - l.capUp - 2, 2, 1, l.capUp, l.capDown)
  {
    hide LoopInv, Step, CanStep, Unmoved, Run, Legal;
    assert Reaches(l, [], l) by { EmptyRun(l); }
    var a := CliMoves(l, 1);
    Then(l, [], l, Cli(Move(0, 1)), a);
    var e1, b := SrvReads(a);
    Then(l, [] + [Cli(Move(0, 1))], a, e1, b);
    var c := CliMoves(b, 1);
    Then(l, [] + [Cli(Move(0, 1))] + [e1], b, Cli(Move(0, 1)), c);
    var e2, d := SrvReads(c);
    Then(l, [] + [Cli(Move(0, 1))] + [e1] + [Cli(Move(0, 1))], c, e2, d);
    r := CliMoves(d, l.capUp);
    Then(l, [] + [Cli(Move(0, 1))] + [e1] + [Cli(Move(0, 1))] + [e2], d, Cli(Move(0, l.capUp)), r);
    es := [] + [Cli(Move(0, 1))] + [e1] + [Cli(Move(0, 1))] + [e2] + [Cli(Move(0, l.capUp))];
  }

  lemma SessionIsStuck(c: Core, incoming: seq<Octet>, outgoing: seq<Octet>, cap: nat)
    requires Inv(c) && !c.failed && c.unsent == 2 && Unmoved(c) != [] && |outgoing| == cap
    ensures forall io :: Allowed(c, io, incoming, outgoing, cap) ==> io.Failure()
  {}

  lemma TrapIsJammed(l: Loop)
    requires Going(l)
    requires Measure(l).cliUnsent == 2 == Measure(l).srvUnsent
    requires 1 <= Measure(l).cliLeft && 1 <= Measure(l).srvLeft
    requires Measure(l).up == l.capUp && Measure(l).down == l.capDown
    ensures Jammed(l)
  {
    hide Inv;
    SessionIsStuck(l.cli.core, l.down, l.up, l.capUp);
    SessionIsStuck(l.srv.core, l.up, l.down, l.capDown);
  }

  /** Sharpness: for every larger block there is a run without a failure that jams. */
  lemma CanJam(l: Loop) returns (es: seq<Event>)
    requires Init(l) && 1 <= l.capUp && 1 <= l.capDown
    requires l.capUp + l.capDown + 4 <= l.cli.core.block
    ensures Legal(l, es) && Run(l, es).Healthy() && Jammed(Run(l, es))
  {
    hide LoopInv, Step, CanStep, Unmoved, Run, Legal;
    var e1, a := Begin(l);
    var e2, b := FirstByteHome(a);
    ThenRun(l, e1, a, e2, b);
    var e3, c := FillDown(b);
    ThenRun(l, e1 + e2, b, e3, c);
    var e4, d := CloseTheTrap(c);
    ThenRun(l, e1 + e2 + e3, c, e4, d);
    TrapIsJammed(d);
    es := e1 + e2 + e3 + e4;
  }

  /** With no room downwards the client never reads, so every step brings the end of the run closer. */
  lemma {:induction false} RunsDry(l: Loop) returns (es: seq<Event>)
    requires l.Sized() && LoopInv(l) && l.Healthy() && l.capDown == 0
    ensures Legal(l, es) && Run(l, es).Healthy() && Jammed(Run(l, es))
    decreases Liveness.Distance(l)
  {
    if Jammed(l) {
      es := [];
    } else {
      var e :| CanStep(l, e) && !e.Failure();
      assert l.down == [];
      hide LoopInv, Step, Jammed, Liveness.Distance;
      Liveness.StepIsCloser(l, e);
      Liveness.StaysHealthy(l, e);
      StepKeepsLoopInv(l, e);
      var rest := RunsDry(Step(l, e));
      es := [e] + rest;
      assert es[1..] == rest;
    }
  }

  /** With no room upwards the loop jams once both ends have started. */
  lemma StuckAtStart(l: Loop)
    requires Going(l) && l.capUp == 0
    requires Measure(l) == Gauge(1, Measure(l).cliLeft, 0, 0, 0, 0) && 1 <= Measure(l).cliLeft
    ensures Jammed(l)
  {
    hide Streams;
  }

  /** The exact capacity condition for progress, for all capacities. */
  lemma ProgressIffRoom(l: Loop)
    requires Init(l)
    ensures (forall es :: Legal(l, es) && Run(l, es).Healthy() ==> !Jammed(Run(l, es)))
            <==> 1 <= l.capUp && 1 <= l.capDown && l.cli.core.block < l.capUp + l.capDown + 4
  {
    hide LoopInv, Step, CanStep, Run, Legal, Jammed, Unmoved;
    if l.capUp == 0 {
      var es, r := Begin(l);
      StuckAtStart(r);
      assert Legal(l, es) && Run(l, es).Healthy() && Jammed(Run(l, es));
    } else if l.capDown == 0 {
      Liveness.AtStart(l);
      var es := RunsDry(l);
    } else if l.cli.core.block < l.capUp + l.capDown + 4 {
      forall es | Legal(l, es) && Run(l, es).Healthy()
        ensures !Jammed(Run(l, es))
      {
        NeverJams(l, es);
      }
    } else {
      var es := CanJam(l);
    }
  }
}
