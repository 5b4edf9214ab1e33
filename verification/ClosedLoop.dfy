/**
 One client and one server joined by two reliable FIFO byte channels of bounded capacity. Every interleaving of
 the two strands, every fragmentation of reads and writes, and every failure is a run of this machine.
*/
module ClosedLoop {
  import opened Octets
  import opened EchoCore
  import opened EchoInvariant
  import opened EchoClient
  import opened EchoServer

  datatype Loop = Loop(
    cli: Client,
    srv: Server,
    up: seq<Octet>,
    down: seq<Octet>,
    capUp: nat,
    capDown: nat,
    connected: bool,
    accepted: bool
  ) {
    predicate Sized() {
      cli.core.Sized() && srv.core.Sized()
    }

    predicate Healthy() {
      !cli.core.failed && !srv.core.failed
    }
  }

  /** `Connect` and `Accept` run `handle_connect` and `session::start`; their flag says `set_option` failed. */
  datatype Event =
    | Connect(optionFailed: bool)
    | Accept(optionFailed: bool)
    | Cli(io: Io)
    | Srv(io: Io)
  {
    predicate Failure() {
      match this
      case Connect(f) => f
      case Accept(f) => f
      case Cli(io) => io.Failure()
      case Srv(io) => io.Failure()
    }
  }

  /** A socket may act if the session has the operation in flight and the channels allow it. */
  predicate Allowed(c: Core, io: Io, incoming: seq<Octet>, outgoing: seq<Octet>, cap: nat) {
    && Enabled(c, io)
    && (io.Read? ==> IsPrefix(io.data, incoming))
    && (io.Move? ==> |outgoing| + io.n <= cap)
  }

  predicate CanStep(l: Loop, e: Event) {
    match e
    case Connect(_) => !l.connected
    case Accept(_) => !l.accepted
    case Cli(io) => Allowed(l.cli.core, io, l.down, l.up, l.capUp)
    case Srv(io) => Allowed(l.srv.core, io, l.up, l.down, l.capDown)
  }

  /** What a step of a session leaves in its incoming channel. */
  function Taken(io: Io, incoming: seq<Octet>): seq<Octet>
    requires io.Read? ==> IsPrefix(io.data, incoming)
  {
    if io.Read? then incoming[|io.data|..] else incoming
  }

  function Step(l: Loop, e: Event): (r: Loop)
    requires l.Sized() && CanStep(l, e)
    ensures r.Sized()
  {
    match e
    case Connect(f) => l.(cli := Connected(l.cli, f), connected := true)
    case Accept(f) => l.(srv := Started(l.srv, f), accepted := true)
    case Cli(io) =>
      l.(cli := ClientNext(l.cli, io), down := Taken(io, l.down), up := l.up + Given(l.cli.core, io))
    case Srv(io) =>
      l.(srv := ServerNext(l.srv, io), up := Taken(io, l.up), down := l.down + Given(l.srv.core, io))
  }

  predicate Legal(l: Loop, es: seq<Event>)
    requires l.Sized()
    decreases |es|
  {
    es == [] || (CanStep(l, es[0]) && Legal(Step(l, es[0]), es[1..]))
  }

  function Run(l: Loop, es: seq<Event>): (r: Loop)
    requires l.Sized() && Legal(l, es)
    ensures r.Sized()
    decreases |es|
  {
    if es == [] then l else Run(Step(l, es[0]), es[1..])
  }

  /** Both sessions just constructed, nothing on the wire. */
  predicate Init(l: Loop) {
    && NewClient(l.cli) && 1 <= l.cli.core.block
    && NewSession(l.srv) && 1 <= l.srv.core.block
    && l.up == [] && l.down == []
    && !l.connected && !l.accepted
  }

  predicate LoopInv(l: Loop) {
    && ClientInv(l.cli) && ServerInv(l.srv)
    && 1 <= l.cli.core.block && 1 <= l.srv.core.block
    && l.cli.core.sent == l.srv.core.got + l.up
    && l.srv.core.sent == l.cli.core.got + l.down
    && |l.up| <= l.capUp && |l.down| <= l.capDown
    && (if l.connected then !l.cli.core.failed ==> l.cli.core.InFlight() != 0 else NewClient(l.cli))
    && (if l.accepted then !l.srv.core.failed ==> l.srv.core.InFlight() != 0 else NewSession(l.srv))
  }

  /** A step of one session keeps both channels in line with the logs at their ends. */
  lemma ChannelsKept(c: Core, io: Io, incoming: seq<Octet>, outgoing: seq<Octet>, cap: nat,
                     peerSent: seq<Octet>, peerGot: seq<Octet>)
    requires c.Sized() && Allowed(c, io, incoming, outgoing, cap)
    requires c.sent == peerGot + outgoing && peerSent == c.got + incoming
    ensures Next(c, io).sent == peerGot + (outgoing + Given(c, io))
    ensures peerSent == Next(c, io).got + Taken(io, incoming)
    ensures |outgoing| <= cap ==> |outgoing + Given(c, io)| <= cap
  {
    hide Next, Given, Enabled;
    LogsGrow(c, io);
    assert peerGot + outgoing + Given(c, io) == peerGot + (outgoing + Given(c, io));
    if io.Read? {
      assert incoming == io.data + incoming[|io.data|..];
      assert c.got + incoming == (c.got + io.data) + incoming[|io.data|..];
    }
  }

  lemma CliStepKeepsLoopInv(l: Loop, io: Io)
    requires LoopInv(l) && CanStep(l, Cli(io))
    ensures LoopInv(Step(l, Cli(io)))
    ensures Step(l, Cli(io)).cli.core.block == l.cli.core.block
  {
    hide Shape, Streams, Next, ServerInv, ClientNext;
    ClientStepKeepsInv(l.cli, io);
    StepFrame(l.cli.core, io);
    ChannelsKept(l.cli.core, io, l.down, l.up, l.capUp, l.srv.core.sent, l.srv.core.got);
  }

  lemma SrvStepKeepsLoopInv(l: Loop, io: Io)
    requires LoopInv(l) && CanStep(l, Srv(io))
    ensures LoopInv(Step(l, Srv(io)))
  {
    hide Shape, Streams, Next, ClientInv, ServerNext;
    ServerStepKeepsInv(l.srv, io);
    StepFrame(l.srv.core, io);
    ChannelsKept(l.srv.core, io, l.up, l.down, l.capDown, l.cli.core.sent, l.cli.core.got);
  }

  lemma StepKeepsLoopInv(l: Loop, e: Event)
    requires LoopInv(l) && CanStep(l, e)
    ensures LoopInv(Step(l, e))
    ensures Step(l, e).cli.core.block == l.cli.core.block
    ensures Step(l, e).capUp == l.capUp && Step(l, e).capDown == l.capDown
  {
    hide Shape, Streams, Next, ServerNext, ClientNext;
    match e
    case Connect(f) => ConnectEstablishes(l.cli, f);
    case Accept(f) => StartEstablishes(l.srv, f);
    case Cli(io) => CliStepKeepsLoopInv(l, io);
    case Srv(io) => SrvStepKeepsLoopInv(l, io);
  }

  lemma {:induction false} RunKeepsLoopInv(l: Loop, es: seq<Event>)
    requires l.Sized() && LoopInv(l) && Legal(l, es)
    ensures LoopInv(Run(l, es))
    ensures Run(l, es).cli.core.block == l.cli.core.block
    ensures Run(l, es).capUp == l.capUp && Run(l, es).capDown == l.capDown
    decreases |es|
  {
    hide LoopInv, Step, CanStep;
    if es != [] {
      StepKeepsLoopInv(l, es[0]);
      RunKeepsLoopInv(Step(l, es[0]), es[1..]);
    }
  }

  /** Every state of every run from the initial state satisfies the invariant. */
  lemma ReachableInv(l: Loop, es: seq<Event>)
    requires Init(l) && Legal(l, es)
    ensures LoopInv(Run(l, es))
    ensures Run(l, es).cli.core.block == l.cli.core.block
    ensures Run(l, es).capUp == l.capUp && Run(l, es).capDown == l.capDown
  {
    hide Legal, Run;
    RunKeepsLoopInv(l, es);
  }

  /** The chain of prefixes round the loop: what the client reads is a prefix of its seed and what it reads. */
  lemma ClientReadsItsOwnStream(l: Loop)
    requires LoopInv(l)
    ensures IsPrefix(l.cli.core.got, l.cli.core.seed + l.cli.core.got)
  {
    var c, s := l.cli.core, l.srv.core;
    EchoesInOrder(c);
    EchoesInOrder(s);
    assert s.seed + s.got == s.got;
    PrefixOfConcat(c.got, l.down);
    PrefixOfConcat(s.got, l.up);
    PrefixTransitive(c.got, s.sent, s.submitted);
    PrefixTransitive(c.got, s.submitted, s.got);
    PrefixTransitive(c.got, s.got, c.sent);
    PrefixTransitive(c.got, c.sent, c.submitted);
    PrefixTransitive(c.got, c.submitted, c.seed + c.got);
  }

  /**
   Content: whatever the block sizes, interleaving, fragmentation and failures, the k-th byte the client ever
   reads is the byte at position k mod B of its initial block.
  */
  lemma ClosedLoopContent(l: Loop, es: seq<Event>)
    requires Init(l) && Legal(l, es)
    ensures var got := Run(l, es).cli.core.got;
            forall k :: 0 <= k < |got| ==> got[k] == (k % l.cli.core.block) % 128
  {
    hide Shape, Streams, Legal, Run;
    ReachableInv(l, es);
    var r := Run(l, es);
    ClientReadsItsOwnStream(r);
    var c := r.cli.core;
    if c.seed == [] {
      NoSeedNoBytes(r);
    } else {
      forall k | 0 <= k < |c.got|
        ensures c.got[k] == (k % l.cli.core.block) % 128
      {
        SelfPrefixIsPeriodic(c.seed, c.got, k);
      }
    }
  }

  /** Without a seed nothing has ever been sent round the loop. */
  lemma NoSeedNoBytes(l: Loop)
    requires LoopInv(l) && l.cli.core.seed == []
    ensures l.cli.core.got == []
  {}

  /**
   Conservation: until an operation fails, the client's initial block is spread, byte for byte, over the unsent
   parts of the two writes, the two held blocks and the two channels.
  */
  lemma ClosedLoopConservation(l: Loop, es: seq<Event>)
    requires Init(l) && Legal(l, es)
    requires Run(l, es).connected && Run(l, es).Healthy()
    ensures var r := Run(l, es);
            |Unmoved(r.cli.core)| + |Held(r.cli.core)| + |r.up| + |Unmoved(r.srv.core)| + |Held(r.srv.core)| + |r.down|
            == l.cli.core.block
  {
    hide Shape, Streams, Legal, Run;
    ReachableInv(l, es);
    Conservation(Run(l, es));
  }

  lemma Conservation(l: Loop)
    requires LoopInv(l) && l.connected && l.Healthy()
    ensures |Unmoved(l.cli.core)| + |Held(l.cli.core)| + |l.up| + |Unmoved(l.srv.core)| + |Held(l.srv.core)| + |l.down|
            == l.cli.core.block
  {}

  // ---------------------------------------------------------------------------------------------------------
  // Each end on its own

  /** The part of a run that one end takes part in. */
  function CliIos(es: seq<Event>): seq<Io> {
    if es == [] then [] else (if es[0].Cli? then [es[0].io] else []) + CliIos(es[1..])
  }

  function SrvIos(es: seq<Event>): seq<Io> {
    if es == [] then [] else (if es[0].Srv? then [es[0].io] else []) + SrvIos(es[1..])
  }

  lemma ClientFirst(c: Client, io: Io, ios: seq<Io>)
    requires c.core.Sized() && Enabled(c.core, io) && EchoClient.Legal(EchoClient.ClientNext(c, io), ios)
    ensures EchoClient.Legal(c, [io] + ios)
    ensures EchoClient.Run(c, [io] + ios) == EchoClient.Run(EchoClient.ClientNext(c, io), ios)
  {
    hide ClientNext, Enabled;
    assert ([io] + ios)[1..] == ios;
  }

  lemma ClientIsASessionStep(l: Loop, e: Event)
    requires l.Sized() && CanStep(l, e) && l.connected
    ensures Step(l, e).connected
    ensures if e.Cli? then Enabled(l.cli.core, e.io) && Step(l, e).cli == ClientNext(l.cli, e.io)
            else Step(l, e).cli == l.cli
  {
    hide Given, Taken, Enabled, ServerNext, ClientNext;
  }

  /** Once connected, the client makes exactly the steps addressed to it, as it would on its own. */
  lemma {:induction false} ClientIsASession(l: Loop, es: seq<Event>)
    requires l.Sized() && Legal(l, es) && l.connected
    ensures EchoClient.Legal(l.cli, CliIos(es))
    ensures Run(l, es).cli == EchoClient.Run(l.cli, CliIos(es)) && Run(l, es).connected
    decreases |es|
  {
    hide Step, CanStep, Enabled, ServerNext, ClientNext;
    if es != [] {
      ClientIsASessionStep(l, es[0]);
      ClientIsASession(Step(l, es[0]), es[1..]);
      if es[0].Cli? {
        ClientFirst(l.cli, es[0].io, CliIos(es[1..]));
      } else {
        assert [] + CliIos(es[1..]) == CliIos(es[1..]);
      }
    }
  }

  lemma ServerFirst(c: Server, io: Io, ios: seq<Io>)
    requires c.core.Sized() && Enabled(c.core, io) && EchoServer.Legal(EchoServer.ServerNext(c, io), ios)
    ensures EchoServer.Legal(c, [io] + ios)
    ensures EchoServer.Run(c, [io] + ios) == EchoServer.Run(EchoServer.ServerNext(c, io), ios)
  {
    hide ServerNext, Enabled;
    assert ([io] + ios)[1..] == ios;
  }

  lemma ServerIsASessionStep(l: Loop, e: Event)
    requires l.Sized() && CanStep(l, e) && l.accepted
    ensures Step(l, e).accepted
    ensures if e.Srv? then Enabled(l.srv.core, e.io) && Step(l, e).srv == ServerNext(l.srv, e.io)
            else Step(l, e).srv == l.srv
  {
    hide Given, Taken, Enabled, ServerNext, ClientNext;
  }

  /** And so does the server, once it has accepted. */
  lemma {:induction false} ServerIsASession(l: Loop, es: seq<Event>)
    requires l.Sized() && Legal(l, es) && l.accepted
    ensures EchoServer.Legal(l.srv, SrvIos(es))
    ensures Run(l, es).srv == EchoServer.Run(l.srv, SrvIos(es)) && Run(l, es).accepted
    decreases |es|
  {
    hide Step, CanStep, Enabled, ServerNext, ClientNext;
    if es != [] {
      ServerIsASessionStep(l, es[0]);
      ServerIsASession(Step(l, es[0]), es[1..]);
      if es[0].Srv? {
        ServerFirst(l.srv, es[0].io, SrvIos(es[1..]));
      } else {
        assert [] + SrvIos(es[1..]) == SrvIos(es[1..]);
      }
    }
  }

  /** What starting an end does: with the option set its operations are in flight, otherwise none is. */
  lemma EndsStart(l: Loop, f: bool)
    requires Init(l)
    ensures var c := Step(l, Connect(f)).cli.core;
            if f then c.failed && c.InFlight() == 0 && c.submitted == []
            else |c.pendingReads| == 1 == |c.pendingWrites| && c.submitted == EchoClient.Pattern(c.block) && !c.failed
    ensures var s := Step(l, Accept(f)).srv;
            if f then s.core.failed && s.core.InFlight() == 0 && s.posts == 1
            else |s.core.pendingReads| == 1 && s.core.pendingWrites == [] && s.opCount == 1 && s.posts == 0
    ensures Step(l, Connect(f)).srv == l.srv && Step(l, Accept(f)).cli == l.cli
  {
    hide Shape, Streams;
    ConnectEstablishes(l.cli, f);
    StartEstablishes(l.srv, f);
  }
}
