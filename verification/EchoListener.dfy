/**
 The accept loop and the ownership of sessions (performance/pingpong/asio_pingpong/server.hpp): sessions are
 allocated by the server, handed to the acceptor, run on their own, and delete themselves through a call posted
 to the io_service.
*/
module EchoListener {
  import opened Octets
  import opened EchoCore
  import opened EchoServer

  /**
   Every session ever allocated, by address, and the lists of addresses that the acceptor waits with, that are
   posted for destruction, and that have been deleted. Deleted sessions stay in `sessions`, so a completion that
   reached one would be a step of this machine.
  */
  datatype Listener = Listener(sessions: seq<Server>, accepting: seq<nat>, posted: seq<nat>, deleted: seq<nat>)

  datatype Event =
    | Accepted(k: nat, err: bool, optionFailed: bool, next: Server)
    | Completed(id: nat, io: Io)
    | Destroy(k: nat)

  predicate Sized(l: Listener) {
    && (forall s <- l.sessions :: s.core.Sized())
    && (forall id <- l.accepting + l.posted + l.deleted :: id < |l.sessions|)
  }

  predicate CanStep(l: Listener, e: Event) {
    match e
    case Accepted(k, err, _, next) => k < |l.accepting| && (!err ==> NewSession(next))
    case Completed(id, io) => id < |l.sessions| && Enabled(l.sessions[id].core, io)
    case Destroy(k) => k < |l.posted|
  }

  /** Replace session `id` by `s`, and queue it for destruction if the change posted that. */
  function Update(l: Listener, id: nat, s: Server): Listener
    requires id < |l.sessions|
  {
    l.(sessions := l.sessions[id := s],
       posted := if s.posts > l.sessions[id].posts then l.posted + [id] else l.posted)
  }

  function Step(l: Listener, e: Event): (r: Listener)
    requires Sized(l) && CanStep(l, e)
    ensures |r.sessions| == |l.sessions| + (if e.Accepted? && !e.err then 1 else 0)
  {
    match e
    case Accepted(k, err, optionFailed, next) =>
      var id := l.accepting[k];
      assert id in l.accepting + l.posted + l.deleted;
      var l1 := l.(accepting := Remove(l.accepting, k));
      if err then
        l1.(deleted := l1.deleted + [id])
      else
        var l2 := Update(l1, id, Started(l1.sessions[id], optionFailed));
        l2.(sessions := l2.sessions + [next], accepting := l2.accepting + [|l2.sessions|])
    case Completed(id, io) =>
      assert l.sessions[id] in l.sessions;
      Update(l, id, ServerNext(l.sessions[id], io))
    case Destroy(k) =>
      l.(posted := Remove(l.posted, k), deleted := l.deleted + [l.posted[k]])
  }

  function Count(s: seq<nat>, id: nat): nat {
    multiset(s)[id]
  }

  /** How many owners a session has: the acceptor, its own operations, the destruction queue, the graveyard. */
  function Owners(l: Listener, id: nat): nat
    requires id < |l.sessions|
  {
    Count(l.accepting, id) + (if l.sessions[id].core.InFlight() > 0 then 1 else 0)
      + Count(l.posted, id) + Count(l.deleted, id)
  }

  predicate SessionInv(l: Listener, id: nat)
    requires id < |l.sessions|
  {
    && ServerInv(l.sessions[id])
    && Owners(l, id) == 1
    && (id in l.accepting ==> NewSession(l.sessions[id]))
  }

  predicate ListenerInv(l: Listener) {
    && (forall id <- l.accepting :: id < |l.sessions|)
    && (forall id <- l.posted :: id < |l.sessions|)
    && (forall id <- l.deleted :: id < |l.sessions|)
    && (forall id: nat :: id < |l.sessions| ==> SessionInv(l, id))
  }

  lemma InvSized(l: Listener)
    requires ListenerInv(l)
    ensures Sized(l)
  {
    hide ServerInv;
    forall s | s in l.sessions
      ensures s.core.Sized()
    {
      var id: nat :| id < |l.sessions| && l.sessions[id] == s;
      assert SessionInv(l, id);
      InvIsSized(s);
    }
  }

  lemma SizedAt(l: Listener, id: nat)
    requires Sized(l) && id < |l.sessions|
    ensures l.sessions[id].core.Sized()
  {
    assert l.sessions[id] in l.sessions;
  }

  lemma InvIsSized(s: Server)
    requires ServerInv(s)
    ensures s.core.Sized()
  {}

  lemma CountRemove(s: seq<nat>, i: nat, id: nat)
    requires i < |s|
    ensures Count(s, id) == Count(Remove(s, i), id) + (if s[i] == id then 1 else 0)
    ensures multiset(s)[s[i]] > 0
  {
    assert s == s[..i] + [s[i]] + s[i + 1..];
  }

  lemma CountAppend(s: seq<nat>, x: nat, id: nat)
    ensures Count(s + [x], id) == Count(s, id) + (if x == id then 1 else 0)
  {}

  lemma CountOutside(s: seq<nat>, n: nat)
    requires forall x <- s :: x < n
    ensures Count(s, n) == 0
  {
    assert n !in s;
  }

  /** What starting or completing does to one session, seen from the listener. */
  lemma UpdateSession(s: Server, r: Server)
    requires ServerInv(s) && ServerInv(r)
    requires s.core.InFlight() > 0 || NewSession(s)
    requires r.core.InFlight() == 0 ==> r.posts == 1
    ensures (if r.core.InFlight() > 0 then 1 else 0) + (if r.posts > s.posts then 1 else 0) == 1
  {}

  lemma CompletedKeeps(l: Listener, id: nat, io: Io)
    requires ListenerInv(l) && Sized(l) && CanStep(l, Completed(id, io))
    ensures ListenerInv(Step(l, Completed(id, io)))
  {
    hide ServerInv, ServerNext, NewSession;
    var r := Step(l, Completed(id, io));
    assert SessionInv(l, id);
    assert l.sessions[id].core.InFlight() > 0;
    ServerStepKeepsInv(l.sessions[id], io);
    UpdateSession(l.sessions[id], ServerNext(l.sessions[id], io));
    forall j: nat | j < |r.sessions|
      ensures SessionInv(r, j)
    {
      assert SessionInv(l, j);
      CountAppend(l.posted, id, j);
    }
  }

  lemma DestroyKeeps(l: Listener, k: nat)
    requires ListenerInv(l) && Sized(l) && CanStep(l, Destroy(k))
    ensures ListenerInv(Step(l, Destroy(k)))
  {
    hide ServerInv, NewSession;
    var r := Step(l, Destroy(k));
    assert l.posted[k] in l.posted;
    forall j: nat | j < |r.sessions|
      ensures SessionInv(r, j)
    {
      assert SessionInv(l, j);
      CountRemove(l.posted, k, j);
      CountAppend(l.deleted, l.posted[k], j);
    }
  }

  lemma RejectedKeeps(l: Listener, k: nat, optionFailed: bool, next: Server)
    requires ListenerInv(l) && Sized(l) && CanStep(l, Accepted(k, true, optionFailed, next))
    ensures ListenerInv(Step(l, Accepted(k, true, optionFailed, next)))
  {
    hide ServerInv, NewSession;
    var r := Step(l, Accepted(k, true, optionFailed, next));
    assert l.accepting[k] in l.accepting;
    forall j: nat | j < |r.sessions|
      ensures SessionInv(r, j)
    {
      assert SessionInv(l, j);
      CountRemove(l.accepting, k, j);
      CountAppend(l.deleted, l.accepting[k], j);
    }
  }

  lemma StartedKeepsOld(l: Listener, k: nat, optionFailed: bool, next: Server, j: nat)
    requires ListenerInv(l) && Sized(l) && CanStep(l, Accepted(k, false, optionFailed, next)) && j < |l.sessions|
    ensures SessionInv(Step(l, Accepted(k, false, optionFailed, next)), j)
  {
    hide ServerInv, Started, NewSession;
    var id := l.accepting[k];
    assert SessionInv(l, j);
    CountRemove(l.accepting, k, j);
    CountAppend(Remove(l.accepting, k), |l.sessions|, j);
    CountAppend(l.posted, id, j);
    if j == id {
      assert id in l.accepting;
      StartEstablishes(l.sessions[id], optionFailed);
      UpdateSession(l.sessions[id], Started(l.sessions[id], optionFailed));
    }
  }

  lemma StartedKeepsNew(l: Listener, k: nat, optionFailed: bool, next: Server)
    requires ListenerInv(l) && Sized(l) && CanStep(l, Accepted(k, false, optionFailed, next))
    ensures SessionInv(Step(l, Accepted(k, false, optionFailed, next)), |l.sessions|)
  {
    hide ServerInv, Started, NewSession;
    var id, n := l.accepting[k], |l.sessions|;
    assert id in l.accepting;
    StartEstablishes(next, optionFailed);
    CountRemove(l.accepting, k, n);
    CountAppend(Remove(l.accepting, k), n, n);
    CountAppend(l.posted, id, n);
    CountOutside(l.accepting, n);
    CountOutside(l.posted, n);
    CountOutside(l.deleted, n);
  }

  lemma StartedKeeps(l: Listener, k: nat, optionFailed: bool, next: Server)
    requires ListenerInv(l) && Sized(l) && CanStep(l, Accepted(k, false, optionFailed, next))
    ensures ListenerInv(Step(l, Accepted(k, false, optionFailed, next)))
  {
    hide SessionInv, Started, NewSession;
    var r := Step(l, Accepted(k, false, optionFailed, next));
    assert l.accepting[k] in l.accepting;
    forall j: nat | j < |r.sessions|
      ensures SessionInv(r, j)
    {
      if j < |l.sessions| {
        StartedKeepsOld(l, k, optionFailed, next, j);
      } else {
        StartedKeepsNew(l, k, optionFailed, next);
      }
    }
  }

  lemma StepKeeps(l: Listener, e: Event)
    requires ListenerInv(l) && Sized(l) && CanStep(l, e)
    ensures ListenerInv(Step(l, e)) && Sized(Step(l, e))
  {
    hide ListenerInv, Sized, CanStep, Step;
    match e {
      case Accepted(k, err, optionFailed, next) =>
        if err {
          RejectedKeeps(l, k, optionFailed, next);
        } else {
          StartedKeeps(l, k, optionFailed, next);
        }
      case Completed(id, io) => CompletedKeeps(l, id, io);
      case Destroy(k) => DestroyKeeps(l, k);
    }
    InvSized(Step(l, e));
  }

  /** `states` is a run: it starts as the constructor leaves the server and follows the events. */
  predicate IsRun(states: seq<Listener>, events: seq<Event>) {
    && |states| == |events| + 1
    && Initial(states[0])
    && (forall i :: 0 <= i < |states| ==> Sized(states[i]))
    && (forall i :: 0 <= i < |events| ==> CanStep(states[i], events[i]) && states[i + 1] == Step(states[i], events[i]))
  }

  predicate Initial(l: Listener) {
    && |l.sessions| == 1 && NewSession(l.sessions[0])
    && l.accepting == [0] && l.posted == [] && l.deleted == []
  }

  lemma InitialInv(l: Listener)
    requires Initial(l)
    ensures ListenerInv(l)
  {}

  lemma {:induction false} RunKeeps(states: seq<Listener>, events: seq<Event>, i: nat)
    requires IsRun(states, events) && i < |states|
    ensures ListenerInv(states[i])
  {
    hide ListenerInv, Sized, CanStep, Step, Initial;
    if i == 0 {
      InitialInv(states[0]);
    } else {
      RunKeeps(states, events, i - 1);
      StepKeeps(states[i - 1], events[i - 1]);
    }
  }

  /**
   Ownership: at every point of every run each allocated session has exactly one owner, so it is never deleted
   twice, never queued and running, and no completion can reach it once it is queued or deleted.
  */
  lemma OwnedExactlyOnce(states: seq<Listener>, events: seq<Event>, i: nat, id: nat)
    requires IsRun(states, events) && i < |states| && id < |states[i].sessions|
    ensures Owners(states[i], id) == 1
    ensures Count(states[i].deleted, id) <= 1
    ensures id in states[i].posted || id in states[i].deleted || id in states[i].accepting ==>
              forall io :: !Enabled(states[i].sessions[id].core, io)
    ensures id in states[i].deleted ==> id !in states[i].posted && id !in states[i].accepting
  {
    hide IsRun, NewSession, ServerInv;
    RunKeeps(states, events, i);
    assert SessionInv(states[i], id);
  }

  /** Whether some accept among the events failed. */
  predicate AcceptFailed(events: seq<Event>) {
    exists e <- events :: e.Accepted? && e.err
  }

  /** The accept loop: exactly one session waits for a connection until an accept fails, and none does after that. */
  lemma {:induction false} OneSessionWaits(states: seq<Listener>, events: seq<Event>, i: nat)
    requires IsRun(states, events) && i < |states|
    ensures |states[i].accepting| == if AcceptFailed(events[..i]) then 0 else 1
  {
    if i != 0 {
      OneSessionWaits(states, events, i - 1);
      assert events[..i] == events[..i - 1] + [events[i - 1]];
    }
  }

  // ---------------------------------------------------------------------------------------------------------
  // Where sessions go, and what each of them does

  datatype Place = Waiting | Running | Queued | Deleted

  /** The one owner of a session. */
  function PlaceOf(l: Listener, id: nat): Place {
    if id in l.deleted then Deleted
    else if id in l.posted then Queued
    else if id in l.accepting then Waiting
    else Running
  }

  /** The session an event is about. */
  function Subject(l: Listener, e: Event): (id: nat)
    requires Sized(l) && CanStep(l, e)
    ensures id < |l.sessions|
  {
    match e
    case Accepted(k, _, _, _) => assert l.accepting[k] in l.accepting + l.posted + l.deleted; l.accepting[k]
    case Completed(id, _) => id
    case Destroy(k) => assert l.posted[k] in l.accepting + l.posted + l.deleted; l.posted[k]
  }

  lemma PlaceIs(l: Listener, id: nat)
    requires ListenerInv(l) && id < |l.sessions|
    ensures Count(l.accepting, id) == (if PlaceOf(l, id).Waiting? then 1 else 0)
    ensures Count(l.posted, id) == (if PlaceOf(l, id).Queued? then 1 else 0)
    ensures Count(l.deleted, id) == (if PlaceOf(l, id).Deleted? then 1 else 0)
    ensures l.sessions[id].core.InFlight() > 0 <==> PlaceOf(l, id).Running?
  {
    hide ServerInv, NewSession;
    assert SessionInv(l, id);
  }

  /** Where an event puts the session it is about. */
  function Destination(l: Listener, e: Event): Place
    requires Sized(l) && CanStep(l, e)
  {
    match e
    case Accepted(_, err, optionFailed, _) => if err then Deleted else if optionFailed then Queued else Running
    case Completed(id, _) => if Step(l, e).sessions[id].core.InFlight() == 0 then Queued else Running
    case Destroy(_) => Deleted
  }

  lemma AcceptedStarts(l: Listener, e: Event)
    requires ListenerInv(l) && Sized(l) && CanStep(l, e) && e.Accepted? && !e.err
    ensures var id := Subject(l, e);
            && Step(l, e).sessions[id] == Started(l.sessions[id], e.optionFailed)
            && NewSession(l.sessions[id])
            && (if e.optionFailed then Step(l, e).posted == l.posted + [id]
                else Step(l, e).posted == l.posted && Started(l.sessions[id], false).core.InFlight() == 1)
  {
    assert l.accepting[e.k] in l.accepting;
    assert SessionInv(l, Subject(l, e));
    StartEstablishes(l.sessions[Subject(l, e)], e.optionFailed);
  }

  lemma SubjectPlace(l: Listener, e: Event)
    requires ListenerInv(l) && Sized(l) && CanStep(l, e)
    ensures PlaceOf(l, Subject(l, e)) == (match e
              case Accepted(_, _, _, _) => Waiting
              case Completed(_, _) => Running
              case Destroy(_) => Queued)
  {
    hide ServerInv, NewSession;
    assert SessionInv(l, Subject(l, e));
  }

  lemma NewcomerWaits(l: Listener, e: Event)
    requires ListenerInv(l) && Sized(l) && CanStep(l, e) && e.Accepted? && !e.err
    ensures PlaceOf(Step(l, e), |l.sessions|) == Waiting && Step(l, e).sessions[|l.sessions|] == e.next
  {
    hide ListenerInv, Started, NewSession;
    StepKeeps(l, e);
    PlaceIs(Step(l, e), |l.sessions|);
  }

  /** How an event changes the three lists, as far as one session can tell. */
  lemma ListsAfter(l: Listener, e: Event, id: nat)
    requires ListenerInv(l) && Sized(l) && CanStep(l, e) && id < |l.sessions|
    ensures var r, here := Step(l, e), if id == Subject(l, e) then 1 else 0;
            && Count(r.accepting, id) == Count(l.accepting, id) - (if e.Accepted? then here else 0)
            && Count(r.deleted, id) == Count(l.deleted, id) + (if e.Destroy? || (e.Accepted? && e.err) then here else 0)
            && (e.Accepted? && !e.err ==>
                  Count(r.posted, id) == Count(l.posted, id) + if e.optionFailed then here else 0)
            && (e.Accepted? && e.err ==> r.posted == l.posted)
            && (e.Destroy? ==> Count(r.posted, id) == Count(l.posted, id) - here)
  {
    hide ListenerInv, ServerNext, Started, NewSession, Sized;
    match e {
      case Accepted(k, err, f, next) =>
        CountRemove(l.accepting, k, id);
        CountAppend(Remove(l.accepting, k), |l.sessions|, id);
        CountAppend(l.deleted, l.accepting[k], id);
        CountAppend(l.posted, l.accepting[k], id);
        if !err {
          AcceptedStarts(l, e);
        }
      case Completed(_, _) =>
      case Destroy(k) =>
        CountRemove(l.posted, k, id);
        CountAppend(l.deleted, l.posted[k], id);
    }
  }

  lemma PlaceAfter(l: Listener, e: Event, id: nat)
    requires ListenerInv(l) && Sized(l) && CanStep(l, e) && id < |l.sessions|
    ensures PlaceOf(Step(l, e), id) == if id == Subject(l, e) then Destination(l, e) else PlaceOf(l, id)
    ensures id != Subject(l, e) ==> Step(l, e).sessions[id] == l.sessions[id]
  {
    hide ListenerInv, ServerNext, Started, NewSession, PlaceOf, Sized, Count;
    StepKeeps(l, e);
    PlaceIs(l, id);
    PlaceIs(Step(l, e), id);
    ListsAfter(l, e, id);
    if e.Accepted? && !e.err {
      AcceptedStarts(l, e);
    }
  }

  /**
   Every event moves the session it is about from the owner it had to the owner it should have, and no other; an
   accepted connection adds a session that waits.
  */
  lemma StepMoves(l: Listener, e: Event, id: nat)
    requires ListenerInv(l) && Sized(l) && CanStep(l, e) && id < |l.sessions|
    ensures PlaceOf(l, Subject(l, e)) == (match e
              case Accepted(_, _, _, _) => Waiting
              case Completed(_, _) => Running
              case Destroy(_) => Queued)
    ensures PlaceOf(Step(l, e), id) == if id == Subject(l, e) then Destination(l, e) else PlaceOf(l, id)
    ensures id != Subject(l, e) ==> Step(l, e).sessions[id] == l.sessions[id]
    ensures e.Accepted? && !e.err ==>
              && PlaceOf(Step(l, e), |l.sessions|) == Waiting && Step(l, e).sessions[|l.sessions|] == e.next
              && Step(l, e).sessions[Subject(l, e)] == Started(l.sessions[Subject(l, e)], e.optionFailed)
    ensures e.Completed? ==> Step(l, e).sessions[e.id] == ServerNext(l.sessions[e.id], e.io)
  {
    hide ListenerInv, ServerNext, Started, NewSession, PlaceOf;
    SubjectPlace(l, e);
    PlaceAfter(l, e, id);
    if e.Accepted? && !e.err {
      AcceptedStarts(l, e);
      NewcomerWaits(l, e);
    }
  }


  /** What the events of a run make session `id` do. */
  function IosOf(events: seq<Event>, id: nat): seq<Io> {
    if events == [] then [] else
      var e := events[|events| - 1];
      IosOf(events[..|events| - 1], id) + (if e.Completed? && e.id == id then [e.io] else [])
  }

  /** The `m`-th event is a connection that session `id` accepts. */
  predicate AcceptedAt(states: seq<Listener>, events: seq<Event>, m: nat, id: nat) {
    && m < |events| < |states| && events[m].Accepted? && !events[m].err
    && events[m].k < |states[m].accepting| && states[m].accepting[events[m].k] == id
  }

  lemma StartedIsNotNew(s: Server, optionFailed: bool, ios: seq<Io>)
    requires NewSession(s) && Legal(Started(s, optionFailed), ios)
    ensures !NewSession(Run(Started(s, optionFailed), ios))
  {
    hide Run, Legal;
    StartEstablishes(s, optionFailed);
    StaysBusy(Started(s, optionFailed), ios);
  }

  /**
   At every point of every run of the server, a session that was accepted is where a run of that session alone would
   be: started as `set_option` went, and then exactly the steps addressed to it, whatever the others do.
  */
  lemma {:induction false} SessionHistory(states: seq<Listener>, events: seq<Event>, m: nat, i: nat, id: nat)
    requires IsRun(states, events) && m < i < |states| && AcceptedAt(states, events, m, id)
    ensures id < |states[m].sessions| <= |states[i].sessions| && NewSession(states[m].sessions[id])
    ensures var s, ios := Started(states[m].sessions[id], events[m].optionFailed), IosOf(events[m + 1..i], id);
            s.core.Sized() && Legal(s, ios) && states[i].sessions[id] == Run(s, ios)
  {
    hide ListenerInv, Initial, NewSession, Sized, CanStep, Step, Run, Legal, Started;
    AcceptBegins(states, events, m, id);
    var s := Started(states[m].sessions[id], events[m].optionFailed);
    if i == m + 1 {
      assert events[m + 1..i] == [];
      NothingRun(s);
    } else {
      SessionHistory(states, events, m, i - 1, id);
      IosSnoc(events, m + 1, i, id);
      RunKeeps(states, events, i - 1);
      HistoryStep(states[m].sessions[id], events[m].optionFailed, IosOf(events[m + 1..i - 1], id),
                  states[i - 1], events[i - 1], id);
    }
  }

  lemma NothingRun(s: Server)
    requires s.core.Sized()
    ensures Legal(s, []) && Run(s, []) == s
  {}

  lemma IosSnoc(events: seq<Event>, from: nat, to: nat, id: nat)
    requires from < to <= |events|
    ensures IosOf(events[from..to], id) == IosOf(events[from..to - 1], id) + IosOf([events[to - 1]], id)
  {
    var now, e := events[from..to], events[to - 1];
    assert now[..|now| - 1] == events[from..to - 1] && now[|now| - 1] == e;
    assert [e][..0] == [] && IosOf([], id) == [];
  }

  lemma AcceptBegins(states: seq<Listener>, events: seq<Event>, m: nat, id: nat)
    requires IsRun(states, events) && AcceptedAt(states, events, m, id)
    ensures id < |states[m].sessions| < |states[m + 1].sessions| && NewSession(states[m].sessions[id])
    ensures var s := Started(states[m].sessions[id], events[m].optionFailed);
            s.core.Sized() && states[m + 1].sessions[id] == s
  {
    hide ListenerInv, Initial, NewSession, Started;
    RunKeeps(states, events, m);
    assert Subject(states[m], events[m]) == id;
    AcceptedStarts(states[m], events[m]);
    StartedSized(states[m].sessions[id], events[m].optionFailed);
  }

  lemma StartedSized(s: Server, optionFailed: bool)
    requires NewSession(s)
    ensures Started(s, optionFailed).core.Sized()
  {}

  lemma IosOfOne(e: Event, id: nat)
    ensures IosOf([e], id) == if e.Completed? && e.id == id then [e.io] else []
  {
    assert [e][..0] == [] && IosOf([], id) == [];
  }

  /** One event later, the session has made the step the event addresses to it, if it does. */
  lemma HistoryStep(s0: Server, optionFailed: bool, ios: seq<Io>, l: Listener, e: Event, id: nat)
    requires NewSession(s0) && Started(s0, optionFailed).core.Sized() && Legal(Started(s0, optionFailed), ios)
    requires ListenerInv(l) && Sized(l) && CanStep(l, e)
    requires id < |l.sessions| && l.sessions[id] == Run(Started(s0, optionFailed), ios)
    ensures |l.sessions| <= |Step(l, e).sessions|
    ensures var s, now := Started(s0, optionFailed), ios + IosOf([e], id);
            Legal(s, now) && Step(l, e).sessions[id] == Run(s, now)
  {
    hide ListenerInv, NewSession, Sized, Run, Legal, ServerNext, Started, PlaceOf;
    var s := Started(s0, optionFailed);
    IosOfOne(e, id);
    assert ios + [] == ios;
    StepMoves(l, e, id);
    if Subject(l, e) == id {
      if e.Accepted? {
        StartedIsNotNew(s0, optionFailed, ios);
        WaitingIsNew(l, id);
      } else if e.Completed? {
        RunSnoc(s, ios, e.io);
      }
    }
  }

  lemma WaitingIsNew(l: Listener, id: nat)
    requires ListenerInv(l) && id < |l.sessions| && PlaceOf(l, id) == Waiting
    ensures NewSession(l.sessions[id])
  {
    assert SessionInv(l, id);
  }

  /**
   So every session of the server echoes its own connection: what it got is what its own reads brought, what it handed
   to `async_write` is a prefix of that, at most one block behind, and what it sent a prefix of what it handed over. It
   belongs to its operations as long as some are in flight, and is queued or deleted from then on.
  */
  lemma EverySessionEchoes(states: seq<Listener>, events: seq<Event>, m: nat, i: nat, id: nat)
    requires IsRun(states, events) && m < i < |states| && AcceptedAt(states, events, m, id)
    ensures id < |states[i].sessions| && states[i].sessions[id].core.Sized()
    ensures var c := states[i].sessions[id].core;
            && IsPrefix(c.sent, c.submitted) && IsPrefix(c.submitted, c.got)
            && c.got == c.submitted + Held(c) && |Held(c)| <= c.block
            && c.got == Input(IosOf(events[m + 1..i], id))
            && (PlaceOf(states[i], id) == Running <==> c.InFlight() > 0)
            && (PlaceOf(states[i], id) in {Queued, Deleted} <==> states[i].sessions[id].posts == 1)
  {
    assert |states| == |events| + 1;
    hide ListenerInv, Initial, Run, Legal, IsRun;
    SessionHistory(states, events, m, i, id);
    var s0, f, ios := states[m].sessions[id], events[m].optionFailed, IosOf(events[m + 1..i], id);
    ServerEchoes(s0, f, ios);
    TeardownExactlyOnce(s0, f, ios);
    RunReads(Started(s0, f), ios);
    assert [] + Input(ios) == Input(ios);
    RunKeeps(states, events, i);
    PlaceIs(states[i], id);
    if PlaceOf(states[i], id) == Waiting {
      WaitingIsNew(states[i], id);
      StartedIsNotNew(s0, f, ios);
    }
  }

  // ---------------------------------------------------------------------------------------------------------

  /**
   The server object, with the session objects on its heap and the io_service's queue beside it. A session's position
   in `sessions` stands for its address.
  */
  class EchoServerObject {
    const blockSize: nat
    var sessions: seq<Session>
    var accepting: seq<nat>
    var posted: seq<nat>
    var deleted: seq<nat>

    ghost var value: Listener

    ghost function Buffers(): set<array<Octet>>
      reads this`sessions
    {
      (set s <- sessions :: s.bufferA) + (set s <- sessions :: s.bufferB)
    }

    /** No two sessions share an object or a buffer. */
    ghost predicate Apart()
      reads this`sessions
    {
      forall i, j :: 0 <= i < j < |sessions| ==>
        && sessions[i] != sessions[j]
        && {sessions[i].bufferA, sessions[i].bufferB} !! {sessions[j].bufferA, sessions[j].bufferB}
    }

    /** `value` is what the fields and the session objects amount to. */
    ghost predicate Valid()
      reads this, sessions, Buffers()
    {
      && Apart()
      && |value.sessions| == |sessions|
      && (forall i :: 0 <= i < |sessions| ==> sessions[i].Valid() && sessions[i].Value() == value.sessions[i])
      && value.accepting == accepting && value.posted == posted && value.deleted == deleted
    }

    constructor (blockSize: nat)
      ensures Valid() && Initial(value) && this.blockSize == blockSize
    {
      this.blockSize := blockSize;
      var first := new Session(blockSize);
      sessions, accepting, posted, deleted := [first], [0], [], [];
      value := Listener([first.Value()], [0], [], []);
    }

    /** `session::start`, with the post it may lead to. */
    method StartSession(id: nat, optionFailed: bool)
      requires Valid() && id < |sessions|
      modifies this`posted, this`value, sessions
      ensures Valid() && value == Update(old(value), id, Started(old(value).sessions[id], optionFailed))
    {
      var s := sessions[id];
      var before := s.destroyPosts;
      s.Start(optionFailed);
      if s.destroyPosts > before {
        posted := posted + [id];
      }
      value := Update(value, id, Started(value.sessions[id], optionFailed));
    }

    /** Allocates a session and starts an accept with it. */
    method AwaitNext() returns (ghost next: Server)
      requires Valid()
      modifies this`sessions, this`accepting, this`value
      ensures Valid() && NewSession(next)
      ensures value == old(value).(sessions := old(value).sessions + [next],
                                   accepting := old(value).accepting + [|old(value).sessions|])
    {
      hide Session.Valid;
      var s := new Session(blockSize);
      next := s.Value();
      sessions, accepting := sessions + [s], accepting + [|sessions|];
      value := value.(sessions := value.sessions + [next], accepting := accepting);
    }

    /** `handle_accept` for the `k`-th pending accept; `next` is the session it allocates on success. */
    method HandleAccept(k: nat, err: bool, optionFailed: bool) returns (ghost next: Server)
      requires Valid() && Sized(value) && k < |accepting|
      modifies this, sessions
      ensures Valid() && (!err ==> NewSession(next))
      ensures value == Step(old(value), Accepted(k, err, optionFailed, next))
    {
      var id := accepting[k];
      assert id in accepting + posted + deleted;
      next := value.sessions[id];
      accepting := Remove(accepting, k);
      value := value.(accepting := accepting);
      if !err {
        StartSession(id, optionFailed);
        next := AwaitNext();
      } else {
        deleted := deleted + [id];
        value := value.(deleted := deleted);
      }
    }

    /** A completion, or a move of bytes, on session `id`, with the post it may lead to. */
    method HandleIo(id: nat, io: Io)
      requires Valid() && Sized(value) && CanStep(value, Completed(id, io))
      modifies this`posted, this`value, sessions[id], sessions[id].bufferA, sessions[id].bufferB
      ensures Valid() && value == Step(old(value), Completed(id, io))
    {
      hide Session.Valid, Session.Value, ServerNext, Sized, Enabled, Apart;
      assert value.sessions[id].core.Sized() by { SizedAt(value, id); }
      ghost var after := Update(value, id, ServerNext(value.sessions[id], io));
      var post := PerformOn(id, io);
      if post {
        posted := posted + [id];
      }
      value := after;
    }

    /** Only the one session changes; `post` says whether it posted its destruction. */
    method PerformOn(id: nat, io: Io) returns (post: bool)
      requires Apart() && id < |sessions| && (forall s <- sessions :: s.Valid())
      requires Enabled(sessions[id].Value().core, io)
      modifies sessions[id], sessions[id].bufferA, sessions[id].bufferB
      ensures forall i :: 0 <= i < |sessions| ==> sessions[i].Valid()
      ensures forall i :: 0 <= i < |sessions| && i != id ==> sessions[i].Value() == old(sessions[i].Value())
      ensures sessions[id].Value() == ServerNext(old(sessions[id].Value()), io)
      ensures post <==> sessions[id].Value().posts > old(sessions[id].Value().posts)
    {
      hide Session.Valid, ServerNext;
      var before := sessions[id].destroyPosts;
      sessions[id].Perform(io);
      post := sessions[id].destroyPosts > before;
    }

    /** The io_service runs the `k`-th posted `destroy`. */
    method RunDestroy(k: nat)
      requires Valid() && Sized(value) && k < |posted|
      modifies this
      ensures Valid() && value == Step(old(value), Destroy(k))
    {
      var id := posted[k];
      posted, deleted := Remove(posted, k), deleted + [id];
      value := Step(value, Destroy(k));
    }
  }
}
