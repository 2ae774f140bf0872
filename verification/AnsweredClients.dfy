/** Runs of the worker in which a connection is accepted and answered, and what epoll reports in them. */
module AnsweredClients {
  import opened Text
  import opened Tables
  import opened Protocol
  import opened Coroutines
  import opened CoroutineRuns
  import opened Connections
  import opened Requests
  import opened RequestReader
  import opened ResponseSender
  import opened EpollWorkers
  import opened WorkerRuns
  import opened ServedRequests
  import opened ClientRoutines
  import opened WatchedClients

  // --------------------------------------------------- such runs of the worker exist

  /** A batch for each of these turns, in which epoll reports this client and no other. */
  function RunOf(fd: nat, turns: seq<Turn>): seq<Wait<Turn>> {
    if turns == [] then [] else [Batch([ClientReady(fd, false, turns[0])])] + RunOf(fd, turns[1..])
  }

  function Plainly(turns: seq<Turn>): (inputs: seq<TurnInput>)
    ensures |inputs| == |turns| && forall i :: 0 <= i < |turns| ==> inputs[i] == Input(turns[i], None)
  {
    seq(|turns|, i requires 0 <= i < |turns| => Input(turns[i], None))
  }

  /** A turn that does not end the routine of a client is an event that the worker goes on after. */
  lemma TurnIsAnEvent(w: EpollWorkers.World<Turn>, h: Settings<Turn>, serve: Server, fd: nat, turn: Turn)
    requires Coherent(w, h) && h.handler == ClientBody(serve) && fd in w.clients && fd in w.runtime.routines
    requires !AfterTurns(serve, w.runtime.routines[fd].history + [Input(turn, None)]).stage.Over?
    ensures
      var o := DoEvent(w, h, ClientReady(fd, false, turn));
      && o.Continues? && Coherent(o.world, h) && fd in o.world.clients && fd in o.world.runtime.routines
      && o.world.runtime.routines[fd].history == w.runtime.routines[fd].history + [Input(turn, None)]
  {
    hide Mirrored, Staffed, DoResume, ApplyMods, AfterTurns;
    var e := ClientReady(fd, false, turn);
    ResumeRunsLastSegment(w.runtime, w.clients.Keys, h, serve, fd, turn) by { assert fd in w.clients.Keys; }
    ClientEventKeepsCoherence(w, h, fd, false, turn);
    ClientEventGrowsHistory(w, h, e, fd);
    assert [e][1..] == [] && Inputs([e], fd) == [Input(turn, None)];
  }

  lemma BatchOfOne(w: EpollWorkers.World<Turn>, h: Settings<Turn>, fd: nat, turn: Turn)
    requires fd in w.clients
    ensures
      var events := [ClientReady(fd, false, turn)];
      && ReportedBy(w, events) && PossibleAccepts(w, h, events)
      && DoWait(w, h, Batch(events)) == DoEvent(w, h, events[0])
      && Inputs(events, fd) == [Input(turn, None)] && NotAccepted(events, fd)
  {
    var events: seq<EpollWorkers.Event<Turn>> := [ClientReady(fd, false, turn)];
    assert events[1..] == [];
    var o := DoEvent(w, h, events[0]);
    if o.Continues? {
      assert DoBatch(o.world, h, events[1..]) == o;
    }
  }

  lemma PrependBatch(
    w: EpollWorkers.World<Turn>, h: Settings<Turn>, events: seq<EpollWorkers.Event<Turn>>, waits: seq<Wait<Turn>>)
    requires ReportedBy(w, events) && PossibleAccepts(w, h, events) && DoWait(w, h, Batch(events)).Continues?
    requires PossibleRun(DoWait(w, h, Batch(events)).world, h, waits)
    ensures PossibleRun(w, h, [Batch(events)] + waits)
    ensures DoLoop(w, h, [Batch(events)] + waits) == DoLoop(DoWait(w, h, Batch(events)).world, h, waits)
    ensures WorkedEvents([Batch(events)] + waits) == events + WorkedEvents(waits)
  {
    hide DoWait, ReportedBy, PossibleAccepts;
    assert ([Batch(events)] + waits)[1..] == waits;
  }

  /** Turns that do not end a client's routine are a possible run of the worker, with the client still there. */
  lemma {:induction false} TurnsAreARun(
    w: EpollWorkers.World<Turn>, h: Settings<Turn>, serve: Server, fd: nat, turns: seq<Turn>)
    requires Coherent(w, h) && h.handler == ClientBody(serve) && fd in w.clients && fd in w.runtime.routines
    requires !AfterTurns(serve, w.runtime.routines[fd].history + Plainly(turns)).stage.Over?
    ensures
      var waits := RunOf(fd, turns);
      && PossibleRun(w, h, waits) && NotAccepted(WorkedEvents(waits), fd)
      && DoLoop(w, h, waits).Continues? && fd in DoLoop(w, h, waits).world.clients
      && Inputs(WorkedEvents(waits), fd) == Plainly(turns)
    decreases |turns|
  {
    hide Coherent, DoEvent, DoBatch, DoWait, DoLoop, PossibleRun, WorkedEvents, ReportedBy, PossibleAccepts;
    hide AfterTurns, Inputs, NotAccepted, Plainly;
    if turns == [] {
      NoTurnsAreARun(w, h, fd);
    } else {
      var turn, rest, past := turns[0], turns[1..], w.runtime.routines[fd].history;
      var events := [ClientReady(fd, false, turn)];
      FirstTurn(past, turns);
      if AfterTurns(serve, past + [Input(turn, None)]).stage.Over? {
        OverStays(serve, past + [Input(turn, None)], Plainly(rest));
      }
      TurnIsAnEvent(w, h, serve, fd, turn);
      BatchOfOne(w, h, fd, turn);
      TurnsAreARun(DoEvent(w, h, events[0]).world, h, serve, fd, rest);
      PrependBatch(w, h, events, RunOf(fd, rest));
      InputsConcat(events, WorkedEvents(RunOf(fd, rest)), fd);
      NotAcceptedWhole(events, WorkedEvents(RunOf(fd, rest)), fd);
    }
  }

  lemma FirstTurn(past: seq<TurnInput>, turns: seq<Turn>)
    requires turns != []
    ensures Plainly(turns) == [Input(turns[0], None)] + Plainly(turns[1..])
    ensures past + Plainly(turns) == past + [Input(turns[0], None)] + Plainly(turns[1..])
  {}

  lemma NoTurnsAreARun(w: EpollWorkers.World<Turn>, h: Settings<Turn>, fd: nat)
    ensures PossibleRun(w, h, RunOf(fd, [])) && DoLoop(w, h, RunOf(fd, [])) == Continues(w)
    ensures NotAccepted(WorkedEvents(RunOf(fd, [])), fd) && Inputs(WorkedEvents(RunOf(fd, [])), fd) == Plainly([])
  {}

  /** A turn in which the socket has room for one offer. */
  const ROOMY := Turn([], [Takes(MAX_WRITE_BYTES_PER_CALL)], true)

  lemma {:induction false} RoomyIsNotIdle(count: nat)
    ensures Idle(Brought(Plainly(seq(count, _ => ROOMY)))) == 0
  {
    if count > 0 {
      var fewer := Plainly(seq(count - 1, _ => ROOMY));
      assert Plainly(seq(count, _ => ROOMY)) == fewer + [Input(ROOMY, None)];
      RoomyIsNotIdle(count - 1);
      OneMoreBrought(fewer, Input(ROOMY, None));
      IdleConcat(Brought(fewer), ROOMY.sends);
    }
  }

  /** Enough can always be brought: turns in which the socket takes one whole offer each. */
  lemma EnoughCanBeBrought(serve: Server, before: seq<Turn>, count: nat)
    requires WholeTurns(Plainly(before)) && Answerable(serve, Got(Plainly(before)))
    requires
      var got := Got(Plainly(before));
      count >= Calls(got) + Idle(Brought(Plainly(before))) + Offers(|AnswerTo(serve, got)|)
    ensures BringsEnough(serve, Plainly(before + seq(count, _ => ROOMY)), |before|)
  {
    hide Expected, Calls, Offers, Got, Pending, EndOf, Brought, Idle, AnswerTo;
    var later := Plainly(seq(count, _ => ROOMY));
    var inputs := Plainly(before + seq(count, _ => ROOMY));
    assert inputs == Plainly(before) + later && inputs[..|before|] == Plainly(before);
    assert WholeSends(ROOMY.sends);
    BroughtConcat(Plainly(before), later);
    IdleConcat(Brought(Plainly(before)), Brought(later));
    RoomyIsNotIdle(count);
  }

  /** The turn that ends a routine. */
  lemma EndingTurn(serve: Server, turns: seq<Turn>) returns (k: nat)
    requires AfterTurns(serve, Plainly(turns)).stage.Over?
    ensures k < |turns|
    ensures !AfterTurns(serve, Plainly(turns[..k])).stage.Over?
    ensures AfterTurns(serve, Plainly(turns[..k]) + [Input(turns[k], None)]) == AfterTurns(serve, Plainly(turns))
  {
    hide AfterTurns;
    StartReads(serve, []);
    assert Plainly(turns[..0]) == [];
    k := |turns|;
    assert turns[..k] == turns;
    while AfterTurns(serve, Plainly(turns[..k])).stage.Over?
      invariant k <= |turns|
      invariant k < |turns| ==> AfterTurns(serve, Plainly(turns[..k + 1])).stage.Over?
      decreases k
    {
      k := k - 1;
    }
    assert Plainly(turns[..k + 1]) == Plainly(turns[..k]) + [Input(turns[k], None)];
    assert Plainly(turns) == Plainly(turns[..k + 1]) + Plainly(turns[k + 1..]);
    OverStays(serve, Plainly(turns[..k + 1]), Plainly(turns[k + 1..]));
  }

  /** From a client whose routine was not entered yet: turns that it is answered by. */
  lemma ClientCanBeAnswered(w: EpollWorkers.World<Turn>, h: Settings<Turn>, serve: Server, fd: nat, before: seq<Turn>)
    returns (turns: seq<Turn>, last: Turn, count: nat)
    requires Coherent(w, h) && h.handler == ClientBody(serve)
    requires fd in w.clients && fd in w.runtime.routines && w.runtime.routines[fd].history == []
    requires WholeTurns(Plainly(before)) && Answerable(serve, Got(Plainly(before)))
    ensures turns + [last] <= before + seq(count, _ => ROOMY) && !AfterTurns(serve, Plainly(turns)).stage.Over?
    ensures
      var waits := RunOf(fd, turns);
      && PossibleRun(w, h, waits) && NotAccepted(WorkedEvents(waits), fd)
      && DoLoop(w, h, waits).Continues? && fd in DoLoop(w, h, waits).world.clients
      && Inputs(WorkedEvents(waits), fd) == Plainly(turns)
      && var response := DoResume(DoLoop(w, h, waits).world.runtime, fd, last).1;
         response.Returned? && response.status == FINISHED
    ensures
      var inputs := Plainly(turns) + [Input(last, None)];
      && WholeTurns(inputs) && Answerable(serve, Got(inputs))
      && AfterTurns(serve, inputs).taken == AnswerTo(serve, Got(inputs)) == AnswerTo(serve, Got(Plainly(before)))
  {
    hide Expected, AfterTurns, PossibleRun, DoLoop, DoResume, Got, Calls, Idle, Brought, Offers, WholeTurns, Inputs;
    hide BringsEnough, NotAccepted, Answerable;
    var got := Got(Plainly(before));
    count := Calls(got) + Idle(Brought(Plainly(before))) + Offers(|AnswerTo(serve, got)|);
    var all := before + seq(count, _ => ROOMY);
    EnoughCanBeBrought(serve, before, count);
    assert Plainly(all)[..|before|] == Plainly(before);
    RoutineAnswers(serve, Plainly(all), |before|);
    var k := EndingTurn(serve, all);
    turns, last := all[..k], all[k];
    assert turns + [last] == all[..k + 1];
    assert [] + Plainly(turns) == Plainly(turns);
    TurnsAreARun(w, h, serve, fd, turns);
    RunGrowsHistory(w, h, RunOf(fd, turns), fd);
    CoherentAfter(w, h, RunOf(fd, turns));
    var now := DoLoop(w, h, RunOf(fd, turns)).world;
    assert fd in now.clients.Keys;
    ResumeRunsLastSegment(now.runtime, now.clients.Keys, h, serve, fd, last);
    WholePrefix(serve, all, |before|, k + 1);
    ReturnedMeansAnswered(serve, Plainly(turns) + [Input(last, None)]);
    assert Plainly(all[..k + 1]) == Plainly(turns) + [Input(last, None)];
  }

  lemma WholePrefix(serve: Server, turns: seq<Turn>, n: nat, k: nat)
    requires BringsEnough(serve, Plainly(turns), n) && k <= |turns|
    ensures WholeTurns(Plainly(turns[..k]))
  {
    hide WholeSends;
    forall i | 0 <= i < k ensures Plainly(turns[..k])[i] == Plainly(turns)[i] {}
  }

  lemma ReturnedMeansAnswered(serve: Server, inputs: seq<TurnInput>)
    requires Undisturbed(inputs) && AfterTurns(serve, inputs).stage == Over(Returns)
    ensures Answerable(serve, Got(inputs)) && AfterTurns(serve, inputs).taken == AnswerTo(serve, Got(inputs))
  {
    hide Expected, AfterTurns, Got;
    RoutineIsInStep(serve, inputs);
  }

  // ------------------------------------------------------------- what epoll reports

  /** There is something to receive, or the stream is at its end. */
  ghost predicate Readable(queue: seq<Recv>) {
    Pending(queue) != "" || EndOf(queue) != Open
  }

  /** Some send is going to move something. */
  ghost predicate Writable(sends: seq<Send>) {
    exists send :: send in sends && !IsIdle(send)
  }

  /** What a level-triggered epoll reports of a client that is watched for these events. */
  ghost predicate Reports(s: Serving, events: int, turn: Turn) {
    || (events == EPOLLIN && s.stage.Reads? && Readable(s.stage.queue + turn.arrived))
    || (events == EPOLLOUT && s.stage.Writes? && Writable(s.outgoing + turn.sends))
  }

  /** The events of a client whose `epoll_ctl` calls worked. */
  function EventsOf(s: Serving): int {
    if s.stage.Writes? then EPOLLOUT else EPOLLIN
  }

  /** The whole body is in the buffer, but the routine yielded after the last `recv`; nothing is there to wake it. */
  ghost predicate Stalled(s: Serving) {
    && s.stage.Reads? && s.stage.reading.InBody?
    && |s.stage.reading.buffer| >= s.stage.reading.start + s.stage.reading.head.length
    && !Readable(s.stage.queue)
  }

  /** Once the request has arrived, a turn that brings only room is reported exactly if the routine is not stalled. */
  lemma RoomIsReported(serve: Server, history: seq<TurnInput>)
    requires Undisturbed(history) && Expected(Pending(Got(history)), EndOf(Got(history))) != Asleep
    requires !AfterTurns(serve, history).stage.Over?
    ensures
      var s := AfterTurns(serve, history);
      Reports(s, EventsOf(s), ROOMY) <==> !Stalled(s)
  {
    hide AfterTurns, Got, ParseHead;
    var s := AfterTurns(serve, history);
    RoutineIsInStep(serve, history);
    if s.stage.Reads? {
      assert s.stage.queue + ROOMY.arrived == s.stage.queue;
      if !Readable(s.stage.queue) {
        assert s.stage.reading.buffer + "" == s.stage.reading.buffer;
      }
    } else {
      assert ROOMY.sends[0] in s.outgoing + ROOMY.sends;
    }
  }

  /** While its turns find `epoll_ctl` willing, a client is watched for what its routine waits for. */
  lemma WatchedAlong(w: EpollWorkers.World<Turn>, h: Settings<Turn>, serve: Server, fd: nat, turns: seq<Turn>)
    requires Coherent(w, h) && h.handler == ClientBody(serve) && fd in w.clients && fd in w.runtime.routines
    requires w.runtime.routines[fd].history == [] && w.clients[fd].events == EPOLLIN
    requires !AfterTurns(serve, Plainly(turns)).stage.Over?
    requires forall turn :: turn in turns ==> turn.willing
    ensures DoLoop(w, h, RunOf(fd, turns)).Continues?
    ensures
      var world := DoLoop(w, h, RunOf(fd, turns)).world;
      fd in world.interest && world.interest[fd] == EventsOf(AfterTurns(serve, Plainly(turns)))
  {
    hide Coherent, PossibleRun, DoLoop, Inputs, NotAccepted, AfterTurns;
    var waits, none: seq<TurnInput> := RunOf(fd, turns), [];
    assert none + Plainly(turns) == Plainly(turns);
    StartReads(serve, none);
    TurnsAreARun(w, h, serve, fd, turns);
    RunGrowsHistory(w, h, waits, fd);
    assert waits[..|waits|] == waits;
    ClientsAreWatched(w, h, serve, waits, |waits|, fd);
    WillingTurns(serve, turns, DoLoop(w, h, waits).world.interest[fd]);
  }

  lemma WillingTurns(serve: Server, turns: seq<Turn>, events: int)
    requires WatchedFor(serve, Plainly(turns), events) && forall turn :: turn in turns ==> turn.willing
    requires !AfterTurns(serve, Plainly(turns)).stage.Over?
    ensures events == EventsOf(AfterTurns(serve, Plainly(turns)))
  {
    hide AfterTurns;
  }

  /** The wait in which a new connection is accepted. */
  function Welcome(fd: nat): seq<Wait<Turn>> {
    [Batch([Acceptor(Accepted(fd, true, true, true))])]
  }

  lemma AcceptanceIsARun(w: EpollWorkers.World<Turn>, h: Settings<Turn>, fd: nat)
    requires Coherent(w, h) && fd > 0 && fd !in w.open
    ensures
      var o := DoAccept(w, h, Accepted(fd, true, true, true));
      && o.Continues? && Coherent(o.world, h) && fd in o.world.clients && o.world.clients[fd].events == EPOLLIN
      && fd in o.world.runtime.routines && o.world.runtime.routines[fd].history == []
  {
    hide Coherent, DoAccept;
    AcceptKeepsCoherence(w, h, Accepted(fd, true, true, true));
  }

  lemma RunAfterAcceptance(w: EpollWorkers.World<Turn>, h: Settings<Turn>, fd: nat, waits: seq<Wait<Turn>>)
    requires Coherent(w, h) && fd > 0 && fd !in w.open
    requires DoAccept(w, h, Accepted(fd, true, true, true)).Continues?
    requires PossibleRun(DoAccept(w, h, Accepted(fd, true, true, true)).world, h, waits)
    ensures PossibleRun(w, h, Welcome(fd) + waits)
    ensures DoLoop(w, h, Welcome(fd) + waits) == DoLoop(DoAccept(w, h, Accepted(fd, true, true, true)).world, h, waits)
    ensures Inputs(WorkedEvents(Welcome(fd) + waits), fd) == Inputs(WorkedEvents(waits), fd)
  {
    hide DoAccept, Coherent;
    var a := Accepted(fd, true, true, true);
    var events: seq<EpollWorkers.Event<Turn>> := [Acceptor(a)];
    assert events[1..] == [];
    var o := DoEvent(w, h, events[0]);
    assert DoBatch(o.world, h, events[1..]) == o;
    PrependBatch(w, h, events, waits);
    InputsConcat(events, WorkedEvents(waits), fd);
  }

  /** An earlier turn of a run that has not ended the routine. */
  lemma TurnOfTheRun(
    w: EpollWorkers.World<Turn>, h: Settings<Turn>, serve: Server, fd: nat, turns: seq<Turn>, i: nat)
    requires Coherent(w, h) && h.handler == ClientBody(serve) && fd > 0 && fd !in w.open
    requires !AfterTurns(serve, Plainly(turns)).stage.Over? && i <= |turns|
    requires forall turn :: turn in turns ==> turn.willing
    ensures !AfterTurns(serve, Plainly(turns[..i])).stage.Over?
    ensures
      var o := DoLoop(w, h, Welcome(fd) + RunOf(fd, turns[..i]));
      && o.Continues? && fd in o.world.interest
      && o.world.interest[fd] == EventsOf(AfterTurns(serve, Plainly(turns[..i])))
  {
    hide Coherent, PossibleRun, DoLoop, DoAccept, AfterTurns, Inputs, WorkedEvents, NotAccepted, RunOf;
    var sofar := turns[..i];
    assert Plainly(sofar) + Plainly(turns[i..]) == Plainly(turns);
    if AfterTurns(serve, Plainly(sofar)).stage.Over? {
      OverStays(serve, Plainly(sofar), Plainly(turns[i..]));
    }
    AcceptanceIsARun(w, h, fd);
    var now := DoAccept(w, h, Accepted(fd, true, true, true)).world;
    var none: seq<TurnInput> := [];
    assert none + Plainly(sofar) == Plainly(sofar);
    TurnsAreARun(now, h, serve, fd, sofar);
    RunAfterAcceptance(w, h, fd, RunOf(fd, sofar));
    WatchedAlong(now, h, serve, fd, sofar);
  }

  lemma AnswerableIsDecided(serve: Server, got: seq<Recv>)
    requires Answerable(serve, got)
    ensures Expected(Pending(got), EndOf(got)) != Asleep
  {}

  /** Turns that only bring room do not change what the request is. */
  lemma RoomKeepsRequest(serve: Server, before: seq<Turn>, count: nat, sofar: seq<Turn>)
    requires before <= sofar <= before + seq(count, _ => ROOMY) && Answerable(serve, Got(Plainly(before)))
    ensures Answerable(serve, Got(Plainly(sofar)))
  {
    hide Expected, Got;
    var later := sofar[|before|..];
    assert Plainly(before) + Plainly(later) == Plainly(sofar);
    ArrivalsConcat(Plainly(before), Plainly(later));
    ExpectedIsStable(Got(Plainly(before)), Got(Plainly(later)));
  }

  /**
    Every answer is reached: whatever a connection first brings, once it has been
    accepted, an answerable request with sends that are never taken in part, some run of
    the worker brings no more than this and turns with room, and a last turn finishes its
    routine with exactly the answer. If `epoll_ctl` is willing, then before each turn of
    that run the client is watched for input while its routine reads and for output once
    it writes; and a turn with room is one that epoll reports, exactly if the routine is
    not stalled.
  */
  lemma EveryAnswerIsReached(w: EpollWorkers.World<Turn>, h: Settings<Turn>, serve: Server, fd: nat, before: seq<Turn>)
    returns (turns: seq<Turn>, last: Turn, count: nat)
    requires Coherent(w, h) && h.handler == ClientBody(serve) && fd > 0 && fd !in w.open
    requires WholeTurns(Plainly(before)) && Answerable(serve, Got(Plainly(before)))
    ensures turns + [last] <= before + seq(count, _ => ROOMY)
    ensures
      var waits := Welcome(fd) + RunOf(fd, turns);
      && PossibleRun(w, h, waits) && DoLoop(w, h, waits).Continues? && fd in DoLoop(w, h, waits).world.clients
      && Inputs(WorkedEvents(waits), fd) == Plainly(turns)
      && var response := DoResume(DoLoop(w, h, waits).world.runtime, fd, last).1;
         response.Returned? && response.status == FINISHED
    ensures
      var inputs := Plainly(turns) + [Input(last, None)];
      && WholeTurns(inputs) && Answerable(serve, Got(inputs))
      && AfterTurns(serve, inputs).taken == AnswerTo(serve, Got(inputs)) == AnswerTo(serve, Got(Plainly(before)))
    ensures (forall turn :: turn in before ==> turn.willing) ==>
      forall i :: 0 <= i <= |turns| ==>
        var s := AfterTurns(serve, Plainly(turns[..i]));
        var o := DoLoop(w, h, Welcome(fd) + RunOf(fd, turns[..i]));
        && o.Continues? && fd in o.world.interest && o.world.interest[fd] == EventsOf(s)
        && (i >= |before| ==>
            (turns + [last])[i] == ROOMY && (Reports(s, o.world.interest[fd], ROOMY) <==> !Stalled(s)))
  {
    hide Coherent, PossibleRun, DoLoop, DoResume, DoAccept, AfterTurns, WholeTurns, Answerable, Inputs, WorkedEvents;
    hide NotAccepted, Reports, Stalled, Got, RunOf, Expected;
    AcceptanceIsARun(w, h, fd);
    var now := DoAccept(w, h, Accepted(fd, true, true, true)).world;
    turns, last, count := ClientCanBeAnswered(now, h, serve, fd, before);
    RunAfterAcceptance(w, h, fd, RunOf(fd, turns));
    if forall turn :: turn in before ==> turn.willing {
      var all := before + seq(count, _ => ROOMY);
      assert forall j :: 0 <= j < |turns| ==> turns[j] == (turns + [last])[j] == all[j];
      forall i | 0 <= i <= |turns|
        ensures
          var s := AfterTurns(serve, Plainly(turns[..i]));
          var o := DoLoop(w, h, Welcome(fd) + RunOf(fd, turns[..i]));
          && o.Continues? && fd in o.world.interest && o.world.interest[fd] == EventsOf(s)
          && (i >= |before| ==>
              (turns + [last])[i] == ROOMY && (Reports(s, o.world.interest[fd], ROOMY) <==> !Stalled(s)))
      {
        TurnOfTheRun(w, h, serve, fd, turns, i);
        if i >= |before| {
          assert before <= turns[..i] <= all;
          RoomKeepsRequest(serve, before, count, turns[..i]);
          AnswerableIsDecided(serve, Got(Plainly(turns[..i])));
          RoomIsReported(serve, Plainly(turns[..i]));
        }
      }
    }
  }

  // --------------------------------------- a request that arrives in pieces, and then nothing

  /** What one `recv` takes in one call. */
  type Piece = s: string | 0 < |s| <= MAX_READ_BYTES_PER_CALL witness "-"

  function Joined(pieces: seq<Piece>): string {
    if pieces == [] then "" else Joined(pieces[..|pieces| - 1]) + pieces[|pieces| - 1]
  }

  /** A turn for each piece, in which nothing else has arrived. */
  function InPieces(pieces: seq<Piece>): (turns: seq<Turn>)
    ensures |turns| == |pieces| && forall i :: 0 <= i < |pieces| ==> turns[i] == Turn([Data(pieces[i])], [], true)
  {
    seq(|pieces|, i requires 0 <= i < |pieces| => Turn([Data(pieces[i])], [], true))
  }

  /** Every turn is one that epoll reports, and `epoll_ctl` is willing in all of them. */
  ghost predicate AllReported(serve: Server, turns: seq<Turn>) {
    forall i :: 0 <= i < |turns| ==>
      var s := AfterTurns(serve, Plainly(turns[..i]));
      turns[i].willing && Reports(s, EventsOf(s), turns[i])
  }

  /** The peer sends nothing more and leaves the connection open. */
  ghost predicate IsQuiet(turns: seq<Turn>) {
    forall turn :: turn in turns ==> turn.arrived == []
  }

  lemma OneMorePiece(pieces: seq<Piece>, last: Piece)
    ensures Joined(pieces + [last]) == Joined(pieces) + last
    ensures InPieces(pieces + [last]) == InPieces(pieces) + [Turn([Data(last)], [], true)]
    ensures Plainly(InPieces(pieces + [last]))
         == Plainly(InPieces(pieces)) + [Input(Turn([Data(last)], [], true), None)]
  {
    assert (pieces + [last])[..|pieces|] == pieces;
  }

  lemma {:induction false} PiecesArrive(pieces: seq<Piece>)
    ensures Pending(Got(Plainly(InPieces(pieces)))) == Joined(pieces) && EndOf(Got(Plainly(InPieces(pieces)))) == Open
    decreases |pieces|
  {
    if pieces == [] {
      assert Plainly(InPieces([])) == [];
    } else {
      hide Pending, EndOf, Got;
      var n := |pieces| - 1;
      assert pieces == pieces[..n] + [pieces[n]];
      OneMorePiece(pieces[..n], pieces[n]);
      PiecesArrive(pieces[..n]);
      OneMoreArrival(Plainly(InPieces(pieces[..n])), Input(Turn([Data(pieces[n])], [], true), None));
      LaterArrivals(Got(Plainly(InPieces(pieces[..n]))), [Data(pieces[n])]);
      OnePiece(pieces[n]);
    }
  }

  lemma OnePiece(piece: Piece)
    ensures Pending([Data(piece)]) == piece && EndOf([Data(piece)]) == Open
  {
    var events: seq<Recv> := [Data(piece)];
    assert events[1..] == [];
    assert piece + "" == piece;
  }

  /** A segment that pauses has taken the piece off the socket. */
  lemma PauseTakesPiece(reading: Reading, piece: Piece)
    requires OnTrack(reading)
    ensures
      var (p, rest) := ReadSegment(reading, [Data(piece)]);
      p.Pauses? ==> rest == []
  {
    hide ParseHead;
    var events: seq<Recv> := [Data(piece)];
    assert events[1..] == [];
  }

  lemma PieceIsBuffered(serve: Server, s: Serving, piece: Piece)
    requires s.stage.Reads? && OnTrack(s.stage.reading) && s.stage.queue == []
    requires ReadOnce(s.stage.reading.buffer + piece) == Incomplete
    ensures
      var next := TakeTurn(serve, s, Input(Turn([Data(piece)], [], true), None)).stage;
      && next.Reads? && OnTrack(next.reading)
      && next.reading.buffer == s.stage.reading.buffer + piece && next.queue == []
  {
    hide ReadOnce, ReadSegment, TakeTurn, OnTrack, Pending, EndOf;
    var events: seq<Recv> := [Data(piece)];
    assert s.stage.queue + events == events;
    OnePiece(piece);
    SegmentIsOnTrack(s.stage.reading, events);
    PauseTakesPiece(s.stage.reading, piece);
    NothingComes(MAX_READ_BYTES_PER_CALL);
    ReadTurn(serve, s, Input(Turn(events, [], true), None));
    var p := ReadSegment(s.stage.reading, events).0;
    if p.Pauses? {
      assert p.reading.buffer + "" == p.reading.buffer;
    }
  }

  /** Until the request is whole, its pieces are all in the buffer and nothing is left at the socket. */
  lemma {:induction false} PiecesAreBuffered(serve: Server, pieces: seq<Piece>)
    requires ReadOnce(Joined(pieces)) == Incomplete
    ensures
      var s := AfterTurns(serve, Plainly(InPieces(pieces)));
      s.stage.Reads? && OnTrack(s.stage.reading) && s.stage.reading.buffer == Joined(pieces) && s.stage.queue == []
    decreases |pieces|
  {
    hide ReadOnce, TakeTurn;
    if pieces == [] {
      assert Plainly(InPieces([])) == [];
      NothingInBuffer();
    } else {
      var n := |pieces| - 1;
      var sofar, last := pieces[..n], pieces[n];
      assert pieces == sofar + [last];
      OneMorePiece(sofar, last);
      if ReadOnce(Joined(sofar)) != Incomplete {
        VerdictIsStable(Joined(sofar), last);
      }
      PiecesAreBuffered(serve, sofar);
      OneMoreTurn(serve, Plainly(InPieces(sofar)), Input(Turn([Data(last)], [], true), None));
      PieceIsBuffered(serve, AfterTurns(serve, Plainly(InPieces(sofar))), last);
    }
  }

  lemma NothingInBuffer()
    ensures OnTrack(InHead(""))
  {}

  /** The piece that completes the request ends the reading exactly if it holds the end of the head. */
  lemma LastPiece(reading: Reading, piece: Piece)
    requires OnTrack(reading) && ReadOnce(reading.buffer) == Incomplete
    requires ReadOnce(reading.buffer + piece) != Incomplete
    ensures ReadSegment(reading, [Data(piece)]).0.Pauses? <==> FindHeadersEnd(reading.buffer) >= 0
  {
    hide ParseHead;
    var events: seq<Recv> := [Data(piece)];
    assert events[1..] == [];
    FirstCrlfIsInHead(reading.buffer + piece) by { assert FindHeadersEnd(reading.buffer + piece) >= 0; }
  }

  /**
    A request comes in pieces that one `recv` each takes, the last of which completes it;
    then the peer is quiet and waits. Events that epoll reports bring the routine to its
    end if and only if the head was not yet complete before the last piece. If it was, the
    routine yields with the whole request in its buffer, nothing is ever reported of it
    again, and the request is not answered.
  */
  lemma AnsweredIffHeadCameLast(serve: Server, pieces: seq<Piece>)
    requires pieces != [] && ReadOnce(Joined(pieces[..|pieces| - 1])) == Incomplete
    requires Answerable(serve, Got(Plainly(InPieces(pieces))))
    ensures
      FindHeadersEnd(Joined(pieces[..|pieces| - 1])) < 0 <==>
      exists later ::
        && IsQuiet(later) && AllReported(serve, InPieces(pieces) + later)
        && AfterTurns(serve, Plainly(InPieces(pieces) + later)).stage == Over(Returns)
    ensures
      FindHeadersEnd(Joined(pieces[..|pieces| - 1])) >= 0 ==>
      forall later :: IsQuiet(later) && AllReported(serve, InPieces(pieces) + later) ==> later == []
  {
    hide AfterTurns, ReadOnce, Got, IsQuiet, AllReported, Answerable;
    var turns := InPieces(pieces);
    ReadingAfterPieces(serve, pieces);
    if FindHeadersEnd(Joined(pieces[..|pieces| - 1])) < 0 {
      var later := QuietTurnsAnswer(serve, pieces);
    } else {
      forall later | IsQuiet(later) && later != [] ensures !AllReported(serve, turns + later) {
        StalledForever(serve, turns, later);
      }
      assert turns + [] == turns;
    }
  }

  lemma ReadingAfterPieces(serve: Server, pieces: seq<Piece>)
    requires pieces != [] && ReadOnce(Joined(pieces[..|pieces| - 1])) == Incomplete
    requires Answerable(serve, Got(Plainly(InPieces(pieces))))
    ensures
      var s := AfterTurns(serve, Plainly(InPieces(pieces)));
      if FindHeadersEnd(Joined(pieces[..|pieces| - 1])) >= 0 then s.stage.Reads? && s.stage.queue == []
      else !s.stage.Reads?
  {
    hide Pending, EndOf, Got, ReadOnce, ReadSegment, AfterTurns;
    var n := |pieces| - 1;
    var sofar, last := pieces[..n], pieces[n];
    assert pieces == sofar + [last];
    OneMorePiece(sofar, last);
    PiecesAreBuffered(serve, sofar);
    PiecesArrive(pieces);
    var history, input: TurnInput := Plainly(InPieces(sofar)), Input(Turn([Data(last)], [], true), None);
    OneMoreTurn(serve, history, input);
    var s := AfterTurns(serve, history);
    assert s.stage.queue + [Data(last)] == [Data(last)];
    LastPiece(s.stage.reading, last);
    PauseTakesPiece(s.stage.reading, last);
    ReadTurn(serve, s, input);
  }

  lemma StalledForever(serve: Server, turns: seq<Turn>, later: seq<Turn>)
    requires
      var s := AfterTurns(serve, Plainly(turns));
      s.stage.Reads? && s.stage.queue == []
    requires IsQuiet(later) && later != []
    ensures !AllReported(serve, turns + later)
  {
    hide AfterTurns;
    assert (turns + later)[..|turns|] == turns;
    assert (turns + later)[|turns|] == later[0] && later[0].arrived == [];
  }

  lemma WholeWhilePieces(pieces: seq<Piece>)
    ensures WholeTurns(Plainly(InPieces(pieces)))
  {}

  /** Before the request is whole, each piece is reported. */
  lemma PieceIsReported(serve: Server, pieces: seq<Piece>, i: nat)
    requires i < |pieces| && ReadOnce(Joined(pieces[..|pieces| - 1])) == Incomplete
    ensures
      var turns := InPieces(pieces);
      var s := AfterTurns(serve, Plainly(turns[..i]));
      s.stage.Reads? && turns[i].willing && Reports(s, EventsOf(s), turns[i])
  {
    hide AfterTurns, ReadOnce;
    var sofar := pieces[..i];
    EarlierPiecesAreIncomplete(pieces[..|pieces| - 1], i);
    assert pieces[..|pieces| - 1][..i] == sofar;
    PiecesAreBuffered(serve, sofar);
    assert InPieces(pieces)[..i] == InPieces(sofar);
    OnePiece(pieces[i]);
    var none: seq<Recv> := [];
    assert none + [Data(pieces[i])] == [Data(pieces[i])];
  }

  lemma {:induction false} EarlierPiecesAreIncomplete(pieces: seq<Piece>, i: nat)
    requires i <= |pieces| && ReadOnce(Joined(pieces)) == Incomplete
    ensures ReadOnce(Joined(pieces[..i])) == Incomplete
    decreases |pieces|
  {
    hide ReadOnce;
    if i < |pieces| {
      var fewer := pieces[..|pieces| - 1];
      if ReadOnce(Joined(fewer)) != Incomplete {
        VerdictIsStable(Joined(fewer), pieces[|pieces| - 1]);
      }
      EarlierPiecesAreIncomplete(fewer, i);
      assert fewer[..i] == pieces[..i];
    } else {
      assert pieces[..i] == pieces;
    }
  }

  /** A routine that has read does not read again. */
  lemma {:induction false} ReadingStaysOver(serve: Server, before: seq<TurnInput>, later: seq<TurnInput>)
    requires Undisturbed(later) && !AfterTurns(serve, before).stage.Reads?
    ensures !AfterTurns(serve, before + later).stage.Reads?
    decreases |later|
  {
    hide AfterTurns, TakeTurn;
    if later == [] {
      assert before + later == before;
    } else {
      var n := |later| - 1;
      assert before + later == before + later[..n] + [later[n]];
      ReadingStaysOver(serve, before, later[..n]);
      OneMoreTurn(serve, before + later[..n], later[n]);
      TurnCalls(serve, AfterTurns(serve, before + later[..n]), later[n]);
    }
  }

  /** Room is reported to a routine that writes. */
  lemma RoomIsReportedToWriters(serve: Server, before: seq<Turn>, later: seq<Turn>)
    requires forall i :: 0 <= i < |later| ==> later[i] == ROOMY
    requires !AfterTurns(serve, Plainly(before)).stage.Reads?
    requires !AfterTurns(serve, Plainly(before + later)).stage.Over?
    ensures
      var s := AfterTurns(serve, Plainly(before + later));
      Reports(s, EventsOf(s), ROOMY)
  {
    hide AfterTurns;
    assert Plainly(before + later) == Plainly(before) + Plainly(later);
    ReadingStaysOver(serve, Plainly(before), Plainly(later));
    var s := AfterTurns(serve, Plainly(before + later));
    assert ROOMY.sends[0] in s.outgoing + ROOMY.sends;
  }

  /** Room is reported to a routine that has read all it needs, until it has sent the answer. */
  lemma QuietTurnsAnswer(serve: Server, pieces: seq<Piece>) returns (later: seq<Turn>)
    requires pieces != [] && ReadOnce(Joined(pieces[..|pieces| - 1])) == Incomplete
    requires Answerable(serve, Got(Plainly(InPieces(pieces))))
    requires FindHeadersEnd(Joined(pieces[..|pieces| - 1])) < 0
    ensures IsQuiet(later) && AllReported(serve, InPieces(pieces) + later)
    ensures AfterTurns(serve, Plainly(InPieces(pieces) + later)).stage == Over(Returns)
  {
    hide Got, Expected, ReadOnce, AfterTurns, Calls, Idle, Offers, Brought, WholeTurns, Answerable, Reports;
    var turns := InPieces(pieces);
    var got := Got(Plainly(turns));
    WholeWhilePieces(pieces);
    var count := Calls(got) + Idle(Brought(Plainly(turns))) + Offers(|AnswerTo(serve, got)|);
    var all := turns + seq(count, _ => ROOMY);
    EnoughCanBeBrought(serve, turns, count);
    assert Plainly(all)[..|turns|] == Plainly(turns);
    RoutineAnswers(serve, Plainly(all), |turns|);
    ReadingAfterPieces(serve, pieces);
    var k := EndingTurn(serve, all);
    assert Plainly(all[..k]) + [Input(all[k], None)] == Plainly(all[..k + 1]);
    if k + 1 < |turns| {
      assert all[..k + 1] == turns[..k + 1];
      PieceIsReported(serve, pieces, k + 1);
    }
    later := all[|turns|..k + 1];
    assert turns + later == all[..k + 1] && (turns + later)[..k] == all[..k];
    ReportedToTheEnd(serve, pieces, later);
  }

  lemma ReportedToTheEnd(serve: Server, pieces: seq<Piece>, later: seq<Turn>)
    requires pieces != [] && ReadOnce(Joined(pieces[..|pieces| - 1])) == Incomplete
    requires forall i :: 0 <= i < |later| ==> later[i] == ROOMY
    requires !AfterTurns(serve, Plainly(InPieces(pieces))).stage.Reads?
    requires !AfterTurns(serve, Plainly((InPieces(pieces) + later)[..|pieces| + |later| - 1])).stage.Over?
    ensures AllReported(serve, InPieces(pieces) + later)
  {
    hide ReadOnce, AfterTurns, Reports, Joined;
    var turns := InPieces(pieces);
    var all, k := turns + later, |turns + later| - 1;
    forall i | 0 <= i <= k
      ensures
        var s := AfterTurns(serve, Plainly(all[..i]));
        all[i].willing && Reports(s, EventsOf(s), all[i])
    {
      if i < |turns| {
        assert all[..i] == turns[..i];
        PieceIsReported(serve, pieces, i);
      } else {
        var room := later[..i - |turns|];
        assert all[..i] == turns + room;
        assert Plainly(all[..i]) + Plainly(all[i..k]) == Plainly(all[..k]);
        if AfterTurns(serve, Plainly(all[..i])).stage.Over? {
          OverStays(serve, Plainly(all[..i]), Plainly(all[i..k]));
        }
        RoomIsReportedToWriters(serve, turns, room);
      }
    }
  }

  /**
    So a printed request with a body, whose head and body come apart, is never answered
    while its peer waits, whatever the server would say to it.
  */
  lemma BodySentApartIsNotAnswered(serve: Server, r: Request, head: Piece, body: Piece, later: seq<Turn>)
    requires IsSentApart(r, head, body) && serve(r).Answer?
    requires IsQuiet(later) && AllReported(serve, InPieces([head, body]) + later)
    ensures
      var inputs := Plainly(InPieces([head, body]));
      && Pending(Got(inputs)) == head + body && Expected(Pending(Got(inputs)), Open) == Ready(r)
      && later == [] && AfterTurns(serve, inputs).stage.Reads?
  {
    hide AfterTurns, ReadOnce, Got, IsQuiet, AllReported, IsSentApart, Expected, Pending, FindHeadersEnd, InPieces;
    SentApartIsRead(r, head, body);
    TwoPieces(serve, head, body, r, later);
  }

  lemma TwoPieces(serve: Server, head: Piece, body: Piece, r: Request, later: seq<Turn>)
    requires ReadOnce(head) == Incomplete && FindHeadersEnd(head) >= 0
    requires ReadOnce(head + body) == Done(r) && serve(r).Answer?
    requires IsQuiet(later) && AllReported(serve, InPieces([head, body]) + later)
    ensures
      var inputs := Plainly(InPieces([head, body]));
      && Pending(Got(inputs)) == head + body && Expected(Pending(Got(inputs)), Open) == Ready(r)
      && later == [] && AfterTurns(serve, inputs).stage.Reads?
  {
    hide AfterTurns, ReadOnce, Got, IsQuiet, AllReported, FindHeadersEnd, Joined;
    var pieces: seq<Piece> := [head, body];
    JoinTwo(head, body);
    PiecesArrive(pieces);
    ReadingAfterPieces(serve, pieces);
    AnsweredIffHeadCameLast(serve, pieces);
  }

  lemma JoinTwo(head: Piece, body: Piece)
    ensures [head, body][..1] == [head] && Joined([head]) == head && Joined([head, body]) == head + body
  {
    assert [head][..0] == [] && [head, body][..1] == [head];
    assert "" + head == head;
  }
}
