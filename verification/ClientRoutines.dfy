/**
  The routine of one client, `client_routine`: read a request, watch for writability, let
  the server answer, send the answer. First as the worker runs it, one segment at a time
  among the other clients; then as the method it is.
*/
module ClientRoutines {
  import opened Tables
  import opened Coroutines
  import opened CoroutineRuns
  import opened Connections
  import opened Requests
  import opened RequestReader
  import opened ResponseSender
  import opened EpollWorkers
  import opened WorkerRuns
  import opened ServedRequests

  /** What the routine finds when it is resumed: new arrivals, room for sends, and whether `epoll_ctl` will work. */
  datatype Turn = Turn(arrived: seq<Recv>, sends: seq<Send>, willing: bool)

  type TurnInput = Input<Turn, Fault>

  /** What `on_request` makes of a request: a printed response, or an exception. */
  datatype Served = Answer(response: string) | Refused(fault: Fault)

  type Server = Request -> Served

  datatype Stage =
    | Reads(reading: Reading, queue: seq<Recv>)
    | Writes(request: Request, buffer: string, missing: int)
    | Over(end: End<Fault>)

  /**
    The routine after a segment: its stage, the sends to come, the bytes its socket took, the
    segment's `change_event` calls.
  */
  datatype Serving = Serving(stage: Stage, outgoing: seq<Send>, taken: string, mods: seq<Mod>)

  // ------------------------------------------------------------------ its segments

  /** One turn of the sending loop. */
  function WriteSegment(s: Serving, request: Request, buffer: string, missing: int): Serving {
    if missing <= 0 then s.(stage := Over(Returns))
    else
      var r := SendResult(s.outgoing, Offer(buffer));
      var after := s.(outgoing := AfterSend(s.outgoing), taken := s.taken + TakenBy(r, buffer));
      if r.IoRaised? then after.(stage := Over(Throws(r.fault)))
      else after.(stage := Writes(request, LeftBy(r, buffer), missing - if r.Bytes? then r.count else 0))
  }

  /**
    One segment of the reader; when it completes, the answer and the first turn of the sending
    loop follow without a yield.
  */
  function ReadThenServe(serve: Server, s: Serving, reading: Reading, queue: seq<Recv>, willing: bool): Serving {
    var (p, rest) := ReadSegment(reading, queue);
    match p
    case Pauses(next) => s.(stage := Reads(next, rest))
    case Fails(fault) => s.(stage := Over(Throws(fault)))
    case Completes(request) =>
      var watching := s.(mods := [Mod(EPOLLOUT, willing)]);
      match serve(request)
      case Refused(fault) => watching.(stage := Over(Throws(fault)))
      case Answer(response) => WriteSegment(watching, request, response, |response|)
  }

  function TakeTurn(serve: Server, s: Serving, input: TurnInput): Serving {
    if s.stage.Over? then s
    else if input.injected.Some? then s.(stage := Over(Throws(input.injected.value)), mods := [])
    else
      var now := s.(outgoing := s.outgoing + input.given.sends, mods := []);
      match s.stage
      case Reads(reading, queue) => ReadThenServe(serve, now, reading, queue + input.given.arrived, input.given.willing)
      case Writes(request, buffer, missing) => WriteSegment(now, request, buffer, missing)
  }

  function AfterTurns(serve: Server, history: seq<TurnInput>): Serving {
    if history == [] then Serving(Reads(InHead(""), []), [], "", [])
    else TakeTurn(serve, AfterTurns(serve, history[..|history| - 1]), history[|history| - 1])
  }

  function LastSegment(serve: Server, history: seq<TurnInput>): Segment<seq<Mod>, Fault> {
    var s := AfterTurns(serve, history);
    Segment(s.mods, if s.stage.Over? then s.stage.end else Yields)
  }

  function ClientBody(serve: Server): Handler<Turn> {
    history => LastSegment(serve, history)
  }

  // ------------------------------------------------------ what it reads and what it sends

  /** Everything that had arrived by the last of these segments. */
  function Got(history: seq<TurnInput>): seq<Recv> {
    if history == [] then [] else Got(history[..|history| - 1]) + history[|history| - 1].given.arrived
  }

  /**
    How a routine may end on these arrivals. When it returns, they hold a request and the
    socket has taken exactly the server's answer to it. When it throws, they call for
    that exception, or the server threw it, or the socket failed while sending.
  */
  ghost predicate Settled(serve: Server, end: End<Fault>, taken: string, got: seq<Recv>) {
    var expected := Expected(Pending(got), EndOf(got));
    match end
    case Yields => false
    case Returns => expected.Ready? && serve(expected.value) == Answer(taken)
    case Throws(f) =>
      || expected == Raised(f)
      || (expected.Ready?
          && (serve(expected.value) == Refused(f) || (serve(expected.value).Answer? && f == WriteError)))
  }

  /** Reading, nothing that arrived is lost; writing, the request is the expected one and its answer is on its way. */
  ghost predicate InStep(serve: Server, s: Serving, got: seq<Recv>) {
    match s.stage
    case Reads(reading, queue) =>
      && OnTrack(reading) && s.taken == ""
      && reading.buffer + Pending(queue) == Pending(got) && EndOf(queue) == EndOf(got)
    case Writes(request, buffer, missing) =>
      && Expected(Pending(got), EndOf(got)) == Ready(request) && serve(request).Answer?
      && |buffer| <= missing
      && (|buffer| == missing ==> s.taken + buffer == serve(request).response)
    case Over(end) => Settled(serve, end, s.taken, got)
  }

  /** What the arrivals call for is not changed by later ones. */
  lemma ExpectedIsStable(a: seq<Recv>, b: seq<Recv>)
    ensures Expected(Pending(a), EndOf(a)) != Asleep ==>
      Expected(Pending(a + b), EndOf(a + b)) == Expected(Pending(a), EndOf(a))
  {
    hide ReadOnce;
    LaterArrivals(a, b);
    if ReadOnce(Pending(a)) != Incomplete {
      VerdictIsStable(Pending(a), if EndOf(a) == Open then Pending(b) else "");
    } else {
      assert Pending(a) + "" == Pending(a);
    }
  }

  lemma WriteKeepsStep(serve: Server, s: Serving, request: Request, buffer: string, missing: int, got: seq<Recv>)
    requires InStep(serve, s.(stage := Writes(request, buffer, missing)), got)
    ensures InStep(serve, WriteSegment(s, request, buffer, missing), got)
  {
    hide Expected, Pending, EndOf;
    if missing <= 0 {
      assert s.taken + "" == s.taken;
    } else {
      var r := SendResult(s.outgoing, Offer(buffer));
      var now := TakenBy(r, buffer);
      assert s.taken + "" == s.taken;
      if |buffer| == missing && now + LeftBy(r, buffer) == buffer {
        assert s.taken + now + LeftBy(r, buffer) == s.taken + buffer;
      }
    }
  }

  lemma TurnKeepsStep(serve: Server, s: Serving, input: TurnInput, got: seq<Recv>)
    requires InStep(serve, s, got) && input.injected == None
    ensures InStep(serve, TakeTurn(serve, s, input), got + input.given.arrived)
  {
    hide Expected, ReadSegment, WriteSegment, Pending, EndOf;
    var all := got + input.given.arrived;
    ExpectedIsStable(got, input.given.arrived);
    var now := s.(outgoing := s.outgoing + input.given.sends, mods := []);
    match s.stage
    case Over(_) =>
    case Writes(request, buffer, missing) => WriteKeepsStep(serve, now, request, buffer, missing, all);
    case Reads(reading, queue) =>
      SegmentKeepsStream(reading, queue, got, input.given.arrived);
      var p := ReadSegment(reading, queue + input.given.arrived).0;
      if p.Completes? && serve(p.request).Answer? {
        var response := serve(p.request).response;
        assert "" + response == response;
        WriteKeepsStep(serve, now.(mods := [Mod(EPOLLOUT, input.given.willing)]), p.request, response, |response|, all);
      }
  }

  /** At every yield, and at its end, a routine without an injected exception is in step with what arrived. */
  lemma {:induction false} RoutineIsInStep(serve: Server, history: seq<TurnInput>)
    requires Undisturbed(history)
    ensures InStep(serve, AfterTurns(serve, history), Got(history))
    decreases |history|
  {
    if history != [] {
      hide InStep, TakeTurn;
      var before, input := history[..|history| - 1], history[|history| - 1];
      RoutineIsInStep(serve, before);
      TurnKeepsStep(serve, AfterTurns(serve, before), input, Got(before));
    }
  }

  lemma NotOverAndWaiting(serve: Server, s: Serving, got: seq<Recv>)
    requires InStep(serve, s, got)
    ensures s.stage != Over(Yields)
  {}

  lemma {:induction false} InputsAreUndisturbed<I>(events: seq<EpollWorkers.Event<I>>, fd: int)
    ensures Undisturbed(Inputs(events, fd))
    decreases |events|
  {
    if events != [] {
      InputsAreUndisturbed(events[1..], fd);
    }
  }

  /** What a resume of a client's routine runs and answers. */
  lemma ResumeRunsLastSegment(
    runtime: Runtime<Turn, seq<Mod>, Fault>, clients: set<int>, h: Settings<Turn>, serve: Server, fd: nat, turn: Turn)
    requires Staffed(runtime, clients, h) && h.handler == ClientBody(serve)
    requires fd in clients && fd in runtime.routines
    ensures
      var last := LastSegment(serve, runtime.routines[fd].history + [Input(turn, None)]);
      DoResume(runtime, fd, turn).1 ==
      match last.end
      case Yields => Returned(AGAIN, Some(last.output))
      case Returns => Returned(FINISHED, Some(last.output))
      case Throws(f) => Threw(f, Some(last.output))
  {
    hide LastSegment, DoResume, Valid;
    var inputs := runtime.routines[fd].history + [Input(turn, None)];
    var op: Op<Turn, seq<Mod>, Fault> := Resume(fd, turn);
    StepIsLocal(runtime, op);
    assert ViewAt(runtime, fd) == Some(View(Some(h.handler), runtime.routines[fd].history, None));
    assert Step(runtime, op) == DoResume(runtime, fd, turn);
    assert h.handler(inputs) == LastSegment(serve, inputs);
  }

  /**
    Every connection gets its own answer and no other. At any point of any run of the worker, take a client that
    has kept its descriptor since its routine was created, and resume it. If it waits
    again, it is in step with what has arrived for it. If it finishes, its bytes hold a
    request and its socket has taken exactly the server's answer to that request. If it
    throws, its bytes, the server or its socket are the reason.
  */
  lemma EachConnectionIsServed(
    w: EpollWorkers.World<Turn>, h: Settings<Turn>, serve: Server, waits: seq<Wait<Turn>>, fd: nat, turn: Turn)
    requires Coherent(w, h) && PossibleRun(w, h, waits) && h.handler == ClientBody(serve)
    requires fd in w.clients && fd in w.runtime.routines && w.runtime.routines[fd].history == []
    requires NotAccepted(WorkedEvents(waits), fd)
    requires DoLoop(w, h, waits).Continues? && fd in DoLoop(w, h, waits).world.clients
    ensures
      var inputs := Inputs(WorkedEvents(waits), fd) + [Input(turn, None)];
      var s, got := AfterTurns(serve, inputs), Got(inputs);
      match DoResume(DoLoop(w, h, waits).world.runtime, fd, turn).1
      case Returned(status, output) =>
        && output == Some(s.mods)
        && if status == AGAIN then !s.stage.Over? && InStep(serve, s, got)
           else status == FINISHED && Settled(serve, Returns, s.taken, got)
      case Threw(f, output) => output == Some(s.mods) && Settled(serve, Throws(f), s.taken, got)
      case _ => false
  {
    hide DoLoop, PossibleRun, Expected, AfterTurns, Settled, Mirrored, Staffed, NotAccepted, DoResume, Inputs, Got;
    var now := DoLoop(w, h, waits).world;
    var sofar := Inputs(WorkedEvents(waits), fd);
    RunGrowsHistory(w, h, waits, fd);
    LoopStaysCoherent(w, h, waits, |waits|);
    assert waits[..|waits|] == waits;
    assert w.runtime.routines[fd].history + sofar == sofar;
    var inputs := sofar + [Input(turn, None)];
    InputsAreUndisturbed(WorkedEvents(waits), fd);
    RoutineIsInStep(serve, inputs);
    NotOverAndWaiting(serve, AfterTurns(serve, inputs), Got(inputs));
    assert fd in now.clients.Keys;
    ResumeRunsLastSegment(now.runtime, now.clients.Keys, h, serve, fd, turn);
  }

  // ----------------------------------------------------------- what can end the worker

  /** The server throws it at some request. */
  ghost predicate RefusesWith(serve: Server, fault: Fault) {
    exists request :: serve(request) == Refused(fault)
  }

  lemma ClientLetsKillsThrough(serve: Server)
    ensures LetsKillsThrough(ClientBody(serve))
  {
    forall history, given, fault | history != [] && Waiting(ClientBody(serve), history)
      ensures ClientBody(serve)(history + [Input(given, Some(fault))]).end == Throws(fault)
    {
      hide TakeTurn, InStep, AfterTurns, Got;
      OneMoreTurn(serve, history, Input(given, Some(fault)));
      assert ClientBody(serve)(history) == LastSegment(serve, history);
      StartReads(serve, history);
      RoutineIsInStep(serve, history);
      NotOverAndWaiting(serve, AfterTurns(serve, history), Got(history));
      InjectionEnds(serve, AfterTurns(serve, history), given, fault);
    }
  }

  lemma InjectionEnds(serve: Server, s: Serving, given: Turn, fault: Fault)
    requires !s.stage.Over?
    ensures TakeTurn(serve, s, Input(given, Some(fault))).stage == Over(Throws(fault))
  {}

  /** What this routine throws of its own accord. */
  lemma ClientFaults(serve: Server, fault: Fault)
    ensures MayThrow(ClientBody(serve), fault) ==> IsIoFault(fault) || fault.HttpFault? || RefusesWith(serve, fault)
  {
    if MayThrow(ClientBody(serve), fault) {
      hide TakeTurn, InStep;
      var history, given :|
        Waiting(ClientBody(serve), history) && ClientBody(serve)(history + [Input(given, None)]).end == Throws(fault);
      var more := history + [Input(given, None)];
      RoutineIsInStep(serve, more);
      SettledFaults(serve, AfterTurns(serve, more), Got(more), fault);
    }
  }

  lemma SettledFaults(serve: Server, s: Serving, got: seq<Recv>, fault: Fault)
    requires InStep(serve, s, got) && s.stage == Over(Throws(fault))
    ensures IsIoFault(fault) || fault.HttpFault? || RefusesWith(serve, fault)
  {
    hide ReadOnce;
  }

  /**
    Over every run with this routine as handler: what ends the loop is a failing wait or a
    bad acceptance that was met, a request that is not HTTP, or an exception of the server.
    A hang-up never does.
  */
  lemma WhatEndsTheWorker(
    w: EpollWorkers.World<Turn>, h: Settings<Turn>, serve: Server, waits: seq<Wait<Turn>>, n: nat)
    requires Coherent(w, h) && PossibleRun(w, h, waits) && h.handler == ClientBody(serve) && n <= |waits|
    ensures
      var o := DoLoop(w, h, waits[..n]);
      o.Escaped? ==>
        || Blamed(waits[..n], o.why)
        || (o.why.HandlerFault? && (o.why.fault.HttpFault? || RefusesWith(serve, o.why.fault)))
  {
    hide DoLoop, Coherent, PossibleRun, MayThrow, LetsKillsThrough, RefusesWith, ClientBody, Blamed;
    LoopStaysCoherent(w, h, waits, n);
    PossiblePrefix(w, h, waits, n);
    LoopIsToBlame(w, h, waits[..n]);
    ClientLetsKillsThrough(serve);
    var o := DoLoop(w, h, waits[..n]);
    if o.Escaped? && o.why.HandlerFault? {
      ClientFaults(serve, o.why.fault);
    }
  }

  /**
    What one turn of a client comes to. A routine that has returned, or that failed at the
    end of file, in `recv`, in `send` or at a closed endpoint, costs its own connection and
    no more; any other exception ends the worker, so one request that is not HTTP does.
  */
  lemma HowATurnEnds(w: EpollWorkers.World<Turn>, h: Settings<Turn>, serve: Server, fd: nat, turn: Turn)
    requires Coherent(w, h) && h.handler == ClientBody(serve) && fd in w.clients && fd in w.runtime.routines
    ensures
      var inputs := w.runtime.routines[fd].history + [Input(turn, None)];
      var stage, o := AfterTurns(serve, inputs).stage, DoEvent(w, h, ClientReady(fd, false, turn));
      && (!stage.Over? ==> o.Continues? && o.world.clients.Keys == w.clients.Keys)
      && (stage.Over? ==>
          if stage.end.Throws? && stage.end.fault !in {EofError, ReadError, WriteError, ClosedEndpointError} then
            o.Escaped? && o.why == HandlerFault(stage.end.fault)
          else
            && o.Continues? && o.world.clients.Keys == w.clients.Keys - {fd} && fd !in o.world.open
            && fd !in o.world.interest)
      && (forall e :: Expected(Pending(Got(inputs)), EndOf(Got(inputs))) == Raised(HttpFault(e)) && !stage.Reads? ==>
          o.Escaped? && o.why == HandlerFault(HttpFault(e)))
  {
    hide DoResume, ApplyMods, Mirrored, Staffed, AfterTurns, Expected, Got, Pending, EndOf;
    var inputs := w.runtime.routines[fd].history + [Input(turn, None)];
    var (runtime, response) := DoResume(w.runtime, fd, turn);
    var next := w.(runtime := runtime);
    MirrorIgnoresRuntime(w, h, runtime);
    assert fd in w.clients.Keys;
    ResumeRunsLastSegment(w.runtime, w.clients.Keys, h, serve, fd, turn);
    var mods := AfterTurns(serve, inputs).mods;
    ModsKeepShape(next, h, fd, mods);
    CloseKeepsMirror(ApplyMods(next, fd, mods), h, fd);
    HistoryOfClient(w, h, fd);
    RoutineIsInStep(serve, inputs);
    NotOverAndWaiting(serve, AfterTurns(serve, inputs), Got(inputs));
    ClosedIsGone(ApplyMods(next, fd, mods), h, fd);
  }

  lemma HistoryOfClient(w: EpollWorkers.World<Turn>, h: Settings<Turn>, fd: nat)
    requires Coherent(w, h) && fd in w.clients && fd in w.runtime.routines
    ensures Undisturbed(w.runtime.routines[fd].history)
  {
    hide Mirrored, Valid;
  }

  lemma ClosedIsGone<I>(w: EpollWorkers.World<I>, h: Settings<I>, fd: nat)
    requires Mirrored(w, h) && fd in w.clients
    ensures
      var next := DoClose(w, fd).world;
      next.clients.Keys == w.clients.Keys - {fd} && fd !in next.open && fd !in next.interest
  {}

  // ------------------------------------------------------------ it does answer

  /** The turns as the reader alone would get them. */
  function Arrivals(history: seq<TurnInput>): seq<ReaderInput> {
    if history == [] then []
    else
      var input := history[|history| - 1];
      Arrivals(history[..|history| - 1]) + [Input(input.given.arrived, input.injected)]
  }

  lemma {:induction false} ArrivalsConcat(a: seq<TurnInput>, b: seq<TurnInput>)
    ensures Arrivals(a + b) == Arrivals(a) + Arrivals(b)
    ensures Got(a + b) == Got(a) + Got(b)
    decreases |b|
  {
    if b == [] {
      assert a + b == a;
    } else {
      hide Arrivals, Got;
      var n := |b| - 1;
      ArrivalsConcat(a, b[..n]);
      assert b == b[..n] + [b[n]] && a + b == a + b[..n] + [b[n]];
      OneMoreArrival(a + b[..n], b[n]);
      OneMoreArrival(b[..n], b[n]);
    }
  }

  lemma OneMoreArrival(before: seq<TurnInput>, input: TurnInput)
    ensures Arrivals(before + [input]) == Arrivals(before) + [Input(input.given.arrived, input.injected)]
    ensures Got(before + [input]) == Got(before) + input.given.arrived
  {
    assert (before + [input])[..|before|] == before;
  }

  lemma {:induction false} ArrivalsUndisturbed(history: seq<TurnInput>)
    ensures |Arrivals(history)| == |history|
    ensures Undisturbed(history) ==> Undisturbed(Arrivals(history))
    decreases |history|
  {
    if history != [] {
      ArrivalsUndisturbed(history[..|history| - 1]);
    }
  }

  /** As long as it reads, the routine is the reader. */
  lemma {:induction false} ReadsAsReader(serve: Server, history: seq<TurnInput>)
    requires Undisturbed(history)
    ensures Arrived(Arrivals(history)) == Got(history)
    ensures
      match After(Arrivals(history))
      case Running(reading, queue) => AfterTurns(serve, history).stage == Reads(reading, queue)
      case Ended(_) => !AfterTurns(serve, history).stage.Reads?
    decreases |history|
  {
    if history != [] {
      hide After, AfterTurns, TakeTurn, Arrivals, Got;
      var before, input := history[..|history| - 1], history[|history| - 1];
      ReadsAsReader(serve, before);
      assert history == before + [input];
      OneMoreArrival(before, input);
      OneMoreTurn(serve, before, input);
      var arrival: ReaderInput := Input(input.given.arrived, None);
      assert (Arrivals(before) + [arrival])[..|Arrivals(before)|] == Arrivals(before);
      if After(Arrivals(before)).Running? {
        OneMoreSegment(Arrivals(before), arrival);
        ReadTurn(serve, AfterTurns(serve, before), input);
      } else {
        EndedStays(Arrivals(before), [arrival]);
        ReadTurn(serve, AfterTurns(serve, before), input);
      }
    }
  }

  lemma OneMoreTurn(serve: Server, before: seq<TurnInput>, input: TurnInput)
    ensures AfterTurns(serve, before + [input]) == TakeTurn(serve, AfterTurns(serve, before), input)
  {
    assert (before + [input])[..|before|] == before;
  }

  /** A turn leaves the routine reading exactly when it was and its reader pauses. */
  lemma ReadTurn(serve: Server, s: Serving, input: TurnInput)
    requires input.injected == None
    ensures
      var next := TakeTurn(serve, s, input).stage;
      match s.stage
      case Reads(reading, queue) =>
        (match ReadSegment(reading, queue + input.given.arrived)
         case (Pauses(r), rest) => next == Reads(r, rest)
         case _ => !next.Reads?)
      case _ => !next.Reads?
  {
    hide ReadSegment;
  }

  /** Once enough has arrived, as many turns as the reader can take `recv` calls end the reading. */
  lemma {:induction false} ReadingEnds(serve: Server, before: seq<TurnInput>, later: seq<TurnInput>)
    requires Undisturbed(before + later)
    requires Expected(Pending(Got(before)), EndOf(Got(before))) != Asleep
    requires |later| >= Calls(Got(before))
    ensures !AfterTurns(serve, before + later).stage.Reads?
  {
    hide Expected, After, AfterTurns, Arrivals, Got;
    PrefixUndisturbed(before, later);
    ArrivalsConcat(before, later);
    ArrivalsUndisturbed(before + later);
    ArrivalsUndisturbed(later);
    ReadsAsReader(serve, before + later);
    ReadsAsReader(serve, before);
    DecidedReaderEnds(Arrivals(before), Arrivals(later));
  }

  lemma PrefixUndisturbed(before: seq<TurnInput>, later: seq<TurnInput>)
    requires Undisturbed(before + later)
    ensures Undisturbed(before) && Undisturbed(later)
  {
    forall i | 0 <= i < |before| ensures before[i] == (before + later)[i] {}
    forall i | 0 <= i < |later| ensures later[i] == (before + later)[|before| + i] {}
  }

  /** The socket has no room: a turn of the sending loop that moves nothing. */
  predicate IsIdle(send: Send) {
    send == SendBlocked || send == Takes(0)
  }

  /** Every offer that is taken at all is taken whole. */
  ghost predicate WholeSends(sends: seq<Send>) {
    forall send :: send in sends ==> IsIdle(send) || (send.Takes? && send.count >= MAX_WRITE_BYTES_PER_CALL)
  }

  function Idle(sends: seq<Send>): nat {
    if sends == [] then 0 else (if IsIdle(sends[0]) then 1 else 0) + Idle(sends[1..])
  }

  lemma {:induction false} IdleConcat(a: seq<Send>, b: seq<Send>)
    ensures Idle(a + b) == Idle(a) + Idle(b)
    decreases |a|
  {
    if a == [] {
      assert a + b == b;
    } else {
      IdleConcat(a[1..], b);
      assert (a + b)[1..] == a[1..] + b && (a + b)[0] == a[0];
    }
  }

  /** How many offers it takes to send so many bytes. */
  function Offers(bytes: nat): nat {
    (bytes + MAX_WRITE_BYTES_PER_CALL - 1) / MAX_WRITE_BYTES_PER_CALL
  }

  /** Everything that `send` was going to answer by the last of these segments. */
  function Brought(history: seq<TurnInput>): seq<Send> {
    if history == [] then [] else Brought(history[..|history| - 1]) + history[|history| - 1].given.sends
  }

  lemma {:induction false} BroughtConcat(a: seq<TurnInput>, b: seq<TurnInput>)
    ensures Brought(a + b) == Brought(a) + Brought(b)
    decreases |b|
  {
    if b == [] {
      assert a + b == a;
    } else {
      hide Brought;
      var n := |b| - 1;
      BroughtConcat(a, b[..n]);
      assert b == b[..n] + [b[n]] && a + b == a + b[..n] + [b[n]];
      OneMoreBrought(a + b[..n], b[n]);
      OneMoreBrought(b[..n], b[n]);
    }
  }

  lemma OneMoreBrought(before: seq<TurnInput>, input: TurnInput)
    ensures Brought(before + [input]) == Brought(before) + input.given.sends
  {
    assert (before + [input])[..|before|] == before;
  }

  ghost predicate WholeTurns(history: seq<TurnInput>) {
    forall i :: 0 <= i < |history| ==> WholeSends(history[i].given.sends)
  }

  /** The arrivals hold a request that the server answers. */
  ghost predicate Answerable(serve: Server, got: seq<Recv>) {
    var expected := Expected(Pending(got), EndOf(got));
    expected.Ready? && serve(expected.value).Answer?
  }

  /** No byte of the answer was dropped, and nothing but the arrivals or the server made the routine throw. */
  ghost predicate Gapless(serve: Server, s: Serving, got: seq<Recv>) {
    && WholeSends(s.outgoing)
    && match s.stage
       case Reads(_, _) => true
       case Writes(request, buffer, missing) =>
         serve(request).Answer? && |buffer| == missing <= |serve(request).response|
       case Over(end) => Answerable(serve, got) ==> end == Returns
  }

  /** One turn of the sending loop over a socket that takes offers whole. */
  lemma WholeWrite(s: Serving, request: Request, buffer: string)
    requires WholeSends(s.outgoing)
    ensures
      var next := WriteSegment(s, request, buffer, |buffer|);
      && WholeSends(next.outgoing) && Idle(next.outgoing) <= Idle(s.outgoing)
      && if buffer == "" then next.stage == Over(Returns)
         else
           && next.stage.Writes? && next.stage.request == request
           && |next.stage.buffer| == next.stage.missing <= |buffer|
           && (s.outgoing != [] ==>
               Idle(next.outgoing) + Offers(next.stage.missing) < Idle(s.outgoing) + Offers(|buffer|))
  {
    if buffer != "" && s.outgoing != [] {
      assert s.outgoing[0] in s.outgoing;
      assert forall send :: send in s.outgoing[1..] ==> send in s.outgoing;
    }
  }

  lemma FewerOffers(fewer: nat, bytes: nat)
    requires fewer <= bytes
    ensures Offers(fewer) <= Offers(bytes)
  {}

  lemma TurnLeavesNoGap(serve: Server, s: Serving, input: TurnInput, got: seq<Recv>)
    requires InStep(serve, s, got) && Gapless(serve, s, got)
    requires input.injected == None && WholeSends(input.given.sends)
    ensures
      var next := TakeTurn(serve, s, input);
      && Gapless(serve, next, got + input.given.arrived)
      && Idle(next.outgoing) <= Idle(s.outgoing) + Idle(input.given.sends)
      && (next.stage.Writes? && input.given.sends != [] ==>
          Idle(next.outgoing) + Offers(next.stage.missing)
          < Idle(s.outgoing) + Idle(input.given.sends) + Offers(|serve(next.stage.request).response|))
  {
    hide Expected, ReadSegment, WriteSegment, Pending, EndOf, Idle, Offers;
    var all := got + input.given.arrived;
    var now := s.(outgoing := s.outgoing + input.given.sends, mods := []);
    ExpectedIsStable(got, input.given.arrived);
    IdleConcat(s.outgoing, input.given.sends);
    match s.stage
    case Over(_) =>
    case Writes(request, buffer, missing) =>
      WholeWrite(now, request, buffer);
      FewerOffers(missing, |serve(request).response|);
    case Reads(reading, queue) =>
      SegmentKeepsStream(reading, queue, got, input.given.arrived);
      var p := ReadSegment(reading, queue + input.given.arrived).0;
      if p.Completes? && serve(p.request).Answer? {
        WholeWrite(now.(mods := [Mod(EPOLLOUT, input.given.willing)]), p.request, serve(p.request).response);
      }
  }

  lemma {:induction false} RoutineLeavesNoGap(serve: Server, history: seq<TurnInput>)
    requires Undisturbed(history) && WholeTurns(history)
    ensures Gapless(serve, AfterTurns(serve, history), Got(history))
    ensures Idle(AfterTurns(serve, history).outgoing) <= Idle(Brought(history))
    decreases |history|
  {
    if history != [] {
      hide InStep, Gapless, TakeTurn, Idle;
      var before, input := history[..|history| - 1], history[|history| - 1];
      RoutineIsInStep(serve, before);
      RoutineLeavesNoGap(serve, before);
      TurnLeavesNoGap(serve, AfterTurns(serve, before), input, Got(before));
      IdleConcat(Brought(before), input.given.sends);
    }
  }

  /** One turn that brings a send: an idle one is used up, or an offer is made. */
  lemma WritingGoesOn(serve: Server, s: Serving, input: TurnInput)
    requires s.stage.Writes? && |s.stage.buffer| == s.stage.missing && WholeSends(s.outgoing)
    requires input.injected == None && WholeSends(input.given.sends) && input.given.sends != []
    ensures
      var next := TakeTurn(serve, s, input);
      && WholeSends(next.outgoing)
      && (next.stage == Over(Returns) ||
          (next.stage.Writes? && |next.stage.buffer| == next.stage.missing
           && Idle(next.outgoing) + Offers(next.stage.missing)
              < Idle(s.outgoing) + Idle(input.given.sends) + Offers(s.stage.missing)))
  {
    hide WriteSegment, Idle, Offers;
    IdleConcat(s.outgoing, input.given.sends);
    WholeWrite(s.(outgoing := s.outgoing + input.given.sends, mods := []), s.stage.request, s.stage.buffer);
  }

  /** The turns that a routine which writes can still take, when no byte is dropped. */
  ghost predicate WritesAtMost(s: Serving, later: seq<TurnInput>, turns: nat) {
    && WholeSends(s.outgoing)
    && (s.stage == Over(Returns) ||
        (s.stage.Writes? && |s.stage.buffer| == s.stage.missing
         && turns >= Idle(s.outgoing) + Idle(Brought(later)) + Offers(s.stage.missing)))
  }

  /**
    A routine that writes without a gap returns, given turns that bring a send each: one for
    each idle answer, one an offer, and one.
  */
  lemma {:induction false} WritingEnds(serve: Server, before: seq<TurnInput>, later: seq<TurnInput>, turns: nat)
    requires Undisturbed(later) && WholeTurns(later) && |later| > turns
    requires forall i :: 0 <= i < |later| ==> later[i].given.sends != []
    requires WritesAtMost(AfterTurns(serve, before), later, turns)
    ensures AfterTurns(serve, before + later).stage == Over(Returns)
    decreases |later|
  {
    hide TakeTurn, WholeSends, Idle, Offers, Brought;
    var s, input, rest := AfterTurns(serve, before), later[0], later[1..];
    var next := TakeTurn(serve, s, input);
    assert (before + [input])[..|before|] == before;
    assert before + [input] + rest == before + later;
    if s.stage == Over(Returns) {
      OverStays(serve, before, later);
    } else {
      WritingGoesOn(serve, s, input);
      BroughtConcat([input], rest);
      BroughtByOne(input);
      assert [input] + rest == later;
      IdleConcat(input.given.sends, Brought(rest));
      if next.stage == Over(Returns) {
        OverStays(serve, before + [input], rest);
      } else {
        assert forall i :: 0 <= i < |rest| ==> rest[i] == later[i + 1];
        WritingEnds(serve, before + [input], rest, turns - 1);
      }
    }
  }

  lemma {:induction false} OverStays(serve: Server, before: seq<TurnInput>, later: seq<TurnInput>)
    requires AfterTurns(serve, before).stage.Over?
    ensures AfterTurns(serve, before + later) == AfterTurns(serve, before)
    decreases |later|
  {
    if later == [] {
      assert before + later == before;
    } else {
      OverStays(serve, before, later[..|later| - 1]);
      assert (before + later)[..|before + later| - 1] == before + later[..|later| - 1];
    }
  }

  lemma BroughtByOne(input: TurnInput)
    ensures Brought([input]) == input.given.sends
  {
    assert [input][..0] == [] && [] + input.given.sends == input.given.sends;
  }

  /** The answer to the request that the arrivals hold. */
  function AnswerTo(serve: Server, got: seq<Recv>): string
    requires Answerable(serve, got)
  {
    serve(Expected(Pending(got), EndOf(got)).value).response
  }

  /**
    What a connection has to bring to be answered: by the first n turns a request that the
    server answers; sends that are never taken in part, and one at least in every later
    turn; and as many of these as it can take `recv` calls, idle sends and offers.
  */
  ghost predicate BringsEnough(serve: Server, inputs: seq<TurnInput>, n: nat) {
    && n <= |inputs| && WholeTurns(inputs)
    && (forall i :: n <= i < |inputs| ==> inputs[i].given.sends != [])
    && var got := Got(inputs[..n]);
       Answerable(serve, got)
       && |inputs| - n >= Calls(got) + Idle(Brought(inputs)) + Offers(|AnswerTo(serve, got)|)
  }

  /** The routine has then returned, and its socket has taken exactly the answer. */
  lemma RoutineAnswers(serve: Server, inputs: seq<TurnInput>, n: nat)
    requires Undisturbed(inputs) && BringsEnough(serve, inputs, n)
    ensures AfterTurns(serve, inputs).stage == Over(Returns)
    ensures Answerable(serve, Got(inputs)) && AnswerTo(serve, Got(inputs)) == AnswerTo(serve, Got(inputs[..n]))
    ensures AfterTurns(serve, inputs).taken == AnswerTo(serve, Got(inputs))
  {
    hide AfterTurns, Brought, Got, Expected, Idle, Offers, WholeTurns, Pending, EndOf, Calls;
    var got := Got(inputs[..n]);
    var m := n + Calls(got);
    ReadyToWrite(serve, inputs, n, m);
    var writing := inputs[m..];
    assert inputs[..m] + writing == inputs;
    PrefixUndisturbed(inputs[..m], writing);
    LaterTurnsBring(serve, inputs, n, m);
    if AfterTurns(serve, inputs[..m]).stage == Over(Returns) {
      OverStays(serve, inputs[..m], writing);
    } else {
      WritingEnds(serve, inputs[..m], writing, |writing| - 1);
    }
    ArrivalsConcat(inputs[..n], inputs[n..]);
    assert inputs[..n] + inputs[n..] == inputs;
    ExpectedIsStable(got, Got(inputs[n..]));
    RoutineIsInStep(serve, inputs);
  }

  lemma LaterTurnsBring(serve: Server, inputs: seq<TurnInput>, n: nat, m: nat)
    requires BringsEnough(serve, inputs, n) && n <= m <= |inputs|
    ensures WholeTurns(inputs[m..]) && forall i :: 0 <= i < |inputs[m..]| ==> inputs[m..][i].given.sends != []
  {
    forall i | 0 <= i < |inputs[m..]| ensures inputs[m..][i] == inputs[m + i] {}
  }

  /** A request takes at least one `recv` call. */
  lemma {:induction false} SomethingIsPending(events: seq<Recv>)
    ensures Calls(events) == 0 ==> Pending(events) == ""
    ensures Expected(Pending(events), EndOf(events)).Ready? ==> Calls(events) > 0
  {
    if events != [] {
      SomethingIsPending(events[1..]);
    }
    NothingIsDecided();
  }

  /** When the turns that the reading can take are over, what is left is enough for the writing. */
  lemma ReadyToWrite(serve: Server, inputs: seq<TurnInput>, n: nat, m: nat)
    requires Undisturbed(inputs) && BringsEnough(serve, inputs, n)
    requires m == n + Calls(Got(inputs[..n]))
    ensures n < m <= |inputs|
    ensures
      var s := AfterTurns(serve, inputs[..m]);
      s.stage == Over(Returns) || (m < |inputs| && WritesAtMost(s, inputs[m..], |inputs| - m - 1))
  {
    hide Expected, AfterTurns, Idle, Offers, Brought, Got, Pending, EndOf, Calls, TakeTurn;
    var before, reading, sofar := inputs[..n], inputs[n..m], inputs[..m];
    SomethingIsPending(Got(before));
    assert before + reading == sofar && sofar + inputs[m..] == inputs;
    PrefixUndisturbed(sofar, inputs[m..]);
    forall i | 0 <= i < m ensures sofar[i] == inputs[i] {}
    ReadingEnds(serve, before, reading);
    ArrivalsConcat(before, reading);
    ExpectedIsStable(Got(before), Got(reading));
    RoutineIsInStep(serve, sofar);
    RoutineLeavesNoGap(serve, sofar);
    LastTurnWrites(serve, sofar);
    BroughtConcat(sofar, inputs[m..]);
    IdleConcat(Brought(sofar), Brought(inputs[m..]));
  }

  /** A turn that brings a send and leaves the routine writing has used up an idle one or made an offer. */
  lemma LastTurnWrites(serve: Server, history: seq<TurnInput>)
    requires Undisturbed(history) && WholeTurns(history)
    requires history != [] && history[|history| - 1].given.sends != []
    ensures
      var s := AfterTurns(serve, history);
      s.stage.Writes? ==>
        && serve(s.stage.request).Answer? && s.stage.missing >= 0
        && Idle(s.outgoing) + Offers(s.stage.missing)
           < Idle(Brought(history)) + Offers(|serve(s.stage.request).response|)
  {
    hide InStep, TakeTurn, Idle, Offers;
    var before, input := history[..|history| - 1], history[|history| - 1];
    RoutineIsInStep(serve, before);
    RoutineLeavesNoGap(serve, before);
    TurnLeavesNoGap(serve, AfterTurns(serve, before), input, Got(before));
    IdleConcat(Brought(before), input.given.sends);
  }

  /** By the first n turns the arrivals call for an exception, or the server throws; then the reader's turns suffice. */
  ghost predicate BringsRefusal(serve: Server, inputs: seq<TurnInput>, n: nat) {
    && n <= |inputs|
    && var got := Got(inputs[..n]);
       Expected(Pending(got), EndOf(got)) != Asleep && !Answerable(serve, got) && |inputs| - n >= Calls(got)
  }

  lemma RoutineRefuses(serve: Server, inputs: seq<TurnInput>, n: nat)
    requires Undisturbed(inputs) && BringsRefusal(serve, inputs, n)
    ensures AfterTurns(serve, inputs).stage.Over?
  {
    hide Expected, AfterTurns, Got, Pending, EndOf, Calls;
    var before, later := inputs[..n], inputs[n..];
    assert before + later == inputs;
    ReadingEnds(serve, before, later);
    ArrivalsConcat(before, later);
    ExpectedIsStable(Got(before), Got(later));
    RoutineIsInStep(serve, inputs);
  }

  /**
    Every connection is answered. At any point of any run of the worker, resume a client
    whose bytes hold an answerable request and whose sends were never taken in part: its
    routine finishes, and its socket has taken exactly the answer; or it waits on, and
    then what it has brought is not yet enough.
  */
  lemma EachConnectionIsAnswered(
    w: EpollWorkers.World<Turn>, h: Settings<Turn>, serve: Server, waits: seq<Wait<Turn>>, fd: nat, turn: Turn)
    requires Coherent(w, h) && PossibleRun(w, h, waits) && h.handler == ClientBody(serve)
    requires fd in w.clients && fd in w.runtime.routines && w.runtime.routines[fd].history == []
    requires NotAccepted(WorkedEvents(waits), fd)
    requires DoLoop(w, h, waits).Continues? && fd in DoLoop(w, h, waits).world.clients
    requires
      var inputs := Inputs(WorkedEvents(waits), fd) + [Input(turn, None)];
      WholeTurns(inputs) && Answerable(serve, Got(inputs))
    ensures
      var inputs := Inputs(WorkedEvents(waits), fd) + [Input(turn, None)];
      var s := AfterTurns(serve, inputs);
      match DoResume(DoLoop(w, h, waits).world.runtime, fd, turn).1
      case Returned(status, _) =>
        if status == FINISHED then s.taken == AnswerTo(serve, Got(inputs))
        else status == AGAIN && forall n: nat :: !BringsEnough(serve, inputs, n)
      case _ => false
  {
    hide DoLoop, PossibleRun, Expected, AfterTurns, Mirrored, Staffed, NotAccepted, DoResume, Inputs, BringsEnough, Got;
    var now := DoLoop(w, h, waits).world;
    var sofar := Inputs(WorkedEvents(waits), fd);
    var inputs := sofar + [Input(turn, None)];
    RunGrowsHistory(w, h, waits, fd);
    LoopStaysCoherent(w, h, waits, |waits|);
    assert waits[..|waits|] == waits;
    assert w.runtime.routines[fd].history + sofar == sofar;
    InputsAreUndisturbed(WorkedEvents(waits), fd);
    assert fd in now.clients.Keys;
    ResumeRunsLastSegment(now.runtime, now.clients.Keys, h, serve, fd, turn);
    RoutineIsInStep(serve, inputs);
    RoutineLeavesNoGap(serve, inputs);
    forall n: nat | BringsEnough(serve, inputs, n) ensures AfterTurns(serve, inputs).stage == Over(Returns) {
      RoutineAnswers(serve, inputs, n);
    }
  }

  /** And none is kept waiting: a connection that the worker still has brought too little to be answered or refused. */
  lemma NoConnectionIsKeptWaiting(
    w: EpollWorkers.World<Turn>, h: Settings<Turn>, serve: Server, waits: seq<Wait<Turn>>, fd: nat, n: nat)
    requires Coherent(w, h) && PossibleRun(w, h, waits) && h.handler == ClientBody(serve)
    requires fd in w.clients && fd in w.runtime.routines && w.runtime.routines[fd].history == []
    requires NotAccepted(WorkedEvents(waits), fd)
    requires DoLoop(w, h, waits).Continues? && fd in DoLoop(w, h, waits).world.clients
    ensures
      var inputs := Inputs(WorkedEvents(waits), fd);
      !BringsEnough(serve, inputs, n) && !BringsRefusal(serve, inputs, n)
  {
    hide DoLoop, Coherent, PossibleRun, AfterTurns, NotAccepted, Inputs, BringsEnough, BringsRefusal;
    var inputs := Inputs(WorkedEvents(waits), fd);
    InputsAreUndisturbed(WorkedEvents(waits), fd);
    ClientIsServing(w, h, serve, waits, fd);
    if BringsEnough(serve, inputs, n) {
      RoutineAnswers(serve, inputs, n);
    } else if BringsRefusal(serve, inputs, n) {
      RoutineRefuses(serve, inputs, n);
    }
  }

  /** The routine of a client that the worker has is not over. */
  lemma WaitingRoutineServes(w: EpollWorkers.World<Turn>, h: Settings<Turn>, serve: Server, fd: nat)
    requires Coherent(w, h) && h.handler == ClientBody(serve) && fd in w.clients
    ensures fd in w.runtime.routines && !AfterTurns(serve, w.runtime.routines[fd].history).stage.Over?
  {
    hide Mirrored, Valid, AfterTurns, InStep, Got;
    assert fd in w.clients.Keys;
    var history := w.runtime.routines[fd].history;
    StartReads(serve, history);
    RoutineIsInStep(serve, history);
    NotOverAndWaiting(serve, AfterTurns(serve, history), Got(history));
  }

  lemma ClientIsServing(w: EpollWorkers.World<Turn>, h: Settings<Turn>, serve: Server, waits: seq<Wait<Turn>>, fd: nat)
    requires Coherent(w, h) && PossibleRun(w, h, waits) && h.handler == ClientBody(serve)
    requires fd in w.clients && fd in w.runtime.routines && w.runtime.routines[fd].history == []
    requires NotAccepted(WorkedEvents(waits), fd) && DoLoop(w, h, waits).Continues?
    requires fd in DoLoop(w, h, waits).world.clients
    ensures !AfterTurns(serve, Inputs(WorkedEvents(waits), fd)).stage.Over?
  {
    hide DoLoop, Coherent, PossibleRun, AfterTurns, NotAccepted, Inputs;
    RunGrowsHistory(w, h, waits, fd);
    CoherentAfter(w, h, waits);
    WaitingRoutineServes(DoLoop(w, h, waits).world, h, serve, fd);
    assert [] + Inputs(WorkedEvents(waits), fd) == Inputs(WorkedEvents(waits), fd);
  }

  lemma CoherentAfter(w: EpollWorkers.World<Turn>, h: Settings<Turn>, waits: seq<Wait<Turn>>)
    requires Coherent(w, h) && PossibleRun(w, h, waits) && DoLoop(w, h, waits).Continues?
    ensures Coherent(DoLoop(w, h, waits).world, h)
  {
    LoopStaysCoherent(w, h, waits, |waits|);
    assert waits[..|waits|] == waits;
  }

  lemma StartReads(serve: Server, history: seq<TurnInput>)
    ensures history == [] ==> AfterTurns(serve, history).stage.Reads?
  {}

  // ------------------------------------------------------------------- the method

  /**
    The routine under a scheduler when everything that its socket will do is there from
    the start: turns that bring nothing, until it is over, is killed, or is left waiting.
  */
  function DriveServing(serve: Server, s: Serving, willing: bool, resumes: seq<Resume>): Transfer
    decreases |resumes|
  {
    match s.stage
    case Over(Returns) => Transfer(Ready(()), s.taken)
    case Over(Throws(fault)) => Transfer(Raised(fault), s.taken)
    case _ =>
      if resumes == [] then Transfer(Asleep, s.taken)
      else
        match resumes[0]
        case Inject(fault) => Transfer(Killed(fault), s.taken)
        case Plain => DriveServing(serve, TakeTurn(serve, s, Input(Turn([], [], willing), None)), willing, resumes[1..])
  }

  /** Its writing is the sending loop. */
  lemma {:induction false} WritingIsTransmit(
    serve: Server, s: Serving, request: Request, buffer: string, missing: int, willing: bool, resumes: seq<Resume>)
    ensures
      var t := Transmit(buffer, missing, s.outgoing, resumes);
      DriveServing(serve, WriteSegment(s, request, buffer, missing), willing, resumes)
      == Transfer(t.outcome, s.taken + t.taken)
    decreases |resumes|
  {
    hide Transmit;
    TransmitStep(buffer, missing, s.outgoing, resumes);
    assert s.taken + "" == s.taken;
    if missing > 0 {
      var r, t := SendResult(s.outgoing, Offer(buffer)), Transmit(buffer, missing, s.outgoing, resumes);
      var now := TakenBy(r, buffer);
      TakeMore(s.taken, now, t.taken[|now|..], "");
      if !r.IoRaised? && resumes != [] && resumes[0].Plain? {
        var after := WriteSegment(s, request, buffer, missing).(mods := []);
        assert after.outgoing + [] == after.outgoing;
        WritingIsTransmit(
          serve, after, request, after.stage.buffer, after.stage.missing, willing, resumes[1..]);
      }
    }
  }

  /** What comes of a request that has been read, under the resumes that are left. */
  function Conclude(serve: Server, read: (Progress<Request>, seq<Resume>), outgoing: seq<Send>): Transfer {
    match read.0
    case Ready(request) =>
      (match serve(request)
       case Refused(fault) => Transfer(Raised(fault), "")
       case Answer(response) => Transmit(response, |response|, outgoing, read.1))
    case Raised(fault) => Transfer(Raised(fault), "")
    case Killed(fault) => Transfer(Killed(fault), "")
    case Asleep => Transfer(Asleep, "")
  }

  /** Its reading is the reader, and what follows is decided by the request. */
  lemma {:induction false} ReadingIsDrive(
    serve: Server, s: Serving, reading: Reading, queue: seq<Recv>, willing: bool, resumes: seq<Resume>)
    ensures
      var t := Conclude(serve, Drive(reading, queue, resumes), s.outgoing);
      DriveServing(serve, ReadThenServe(serve, s, reading, queue, willing), willing, resumes)
      == Transfer(t.outcome, s.taken + t.taken)
    decreases |resumes|
  {
    hide ReadSegment, WriteSegment, Transmit;
    var (p, rest) := ReadSegment(reading, queue);
    assert s.taken + "" == s.taken;
    match p
    case Fails(_) =>
    case Completes(request) =>
      if serve(request).Answer? {
        var response := serve(request).response;
        WritingIsTransmit(
          serve, s.(mods := [Mod(EPOLLOUT, willing)]), request, response, |response|, willing, resumes);
      }
    case Pauses(next) =>
      if resumes != [] && resumes[0].Plain? {
        assert rest + [] == rest && s.outgoing + [] == s.outgoing;
        ReadingIsDrive(serve, s.(stage := Reads(next, rest), mods := []), next, rest, willing, resumes[1..]);
      }
  }

  /** The `change_event` calls of the routine under such a scheduler. */
  function EventChanges(serve: Server, s: Serving, willing: bool, resumes: seq<Resume>): seq<Mod>
    decreases |resumes|
  {
    if s.stage.Over? || resumes == [] || !resumes[0].Plain? then s.mods
    else s.mods + EventChanges(serve, TakeTurn(serve, s, Input(Turn([], [], willing), None)), willing, resumes[1..])
  }

  lemma {:induction false} WritingChangesNothing(serve: Server, s: Serving, willing: bool, resumes: seq<Resume>)
    requires !s.stage.Reads?
    ensures EventChanges(serve, s, willing, resumes) == s.mods
    decreases |resumes|
  {
    if s.stage.Writes? && resumes != [] && resumes[0].Plain? {
      WritingChangesNothing(serve, TakeTurn(serve, s, Input(Turn([], [], willing), None)), willing, resumes[1..]);
    }
  }

  /** It asks for output once, in the segment that completes its request, and otherwise for nothing. */
  lemma {:induction false} ReadingChangesOnce(
    serve: Server, s: Serving, reading: Reading, queue: seq<Recv>, willing: bool, resumes: seq<Resume>)
    requires s.mods == []
    ensures
      EventChanges(serve, ReadThenServe(serve, s, reading, queue, willing), willing, resumes)
      == if Drive(reading, queue, resumes).0.Ready? then [Mod(EPOLLOUT, willing)] else []
    decreases |resumes|
  {
    hide ReadSegment;
    var (p, rest) := ReadSegment(reading, queue);
    match p
    case Fails(_) =>
    case Completes(_) =>
      WritingChangesNothing(serve, ReadThenServe(serve, s, reading, queue, willing), willing, resumes);
    case Pauses(next) =>
      if resumes != [] && resumes[0].Plain? {
        assert rest + [] == rest && s.outgoing + [] == s.outgoing;
        ReadingChangesOnce(serve, s.(stage := Reads(next, rest), mods := []), next, rest, willing, resumes[1..]);
      }
  }

  /**
    `client_routine`: the loop that the code leaves after its first turn. The lookup of the
    client succeeds in every run of the worker. Its outcome and the bytes its socket takes
    are those of the segments that the worker runs, and so is its one change of events.
  */
  method ClientRoutine(
    worker: EpollWorker<Turn>, fd: int, c: Connection, sched: Scheduler, serve: Server, willing: bool)
    returns (r: Progress<()>)
    requires fd in worker.clients
    modifies worker`clients, worker.kernel`interest, c, sched
    ensures !c.IsOpened() ==> r == Raised(ClosedEndpointError) && c.accepted == old(c.accepted)
    ensures c.IsOpened() ==>
      var first := Input(Turn(old(c.incoming), old(c.outgoing), willing), None);
      var t := DriveServing(serve, AfterTurns(serve, [first]), willing, old(sched.resumes));
      r == t.outcome && c.accepted == old(c.accepted) + t.taken
    ensures c.IsOpened() ==>
      var expected := Expected(Pending(old(c.incoming)), EndOf(old(c.incoming)));
      && (r.Ready? ==>
          expected.Ready? && serve(expected.value).Answer?
          && c.accepted == old(c.accepted) + serve(expected.value).response)
      && (r.Raised? ==>
          || expected == Raised(r.fault)
          || (expected.Ready?
              && (serve(expected.value) == Refused(r.fault)
                  || (serve(expected.value).Answer? && r.fault == WriteError))))
    ensures fd in worker.clients
    ensures !c.IsOpened() ==> worker.State() == old(worker.State())
    ensures c.IsOpened() ==>
      var first := Input(Turn(old(c.incoming), old(c.outgoing), willing), None);
      var changes := EventChanges(serve, AfterTurns(serve, [first]), willing, old(sched.resumes));
      && worker.State() == ApplyMods(old(worker.State()), fd, changes)
      && (r.Ready? ==> changes == [Mod(EPOLLOUT, willing)])
  {
    hide Drive, Transmit, Expected, DriveServing, AfterTurns, EventChanges;
    ghost var incoming, outgoing, resumes := c.incoming, c.outgoing, sched.resumes;
    DeliveryDoesNotMatter(InHead(""), incoming, resumes);
    assert "" + Pending(incoming) == Pending(incoming);
    FirstTurnIsDrive(serve, incoming, outgoing, willing, resumes);
    assert c.accepted + "" == c.accepted;
    var read := ReadHttpRequest(c, sched);
    if !read.Ready? {
      return read.PropagateFailure();
    }
    var changed := worker.ChangeEvent(fd, Mod(EPOLLOUT, willing));
    match serve(read.value)
    case Refused(fault) => return Raised(fault);
    case Answer(response) =>
      RaisesOnlyWriteErrors(response, |response|, c.outgoing, sched.resumes);
      ReturnsOnlyWhenAllTaken(response, c.outgoing, sched.resumes);
      r := SendHttpResponse(c, sched, response);
  }

  lemma FirstTurnIsDrive(
    serve: Server, incoming: seq<Recv>, outgoing: seq<Send>, willing: bool, resumes: seq<Resume>)
    ensures
      var first := Input(Turn(incoming, outgoing, willing), None);
      && DriveServing(serve, AfterTurns(serve, [first]), willing, resumes)
         == Conclude(serve, Drive(InHead(""), incoming, resumes), outgoing)
      && EventChanges(serve, AfterTurns(serve, [first]), willing, resumes)
         == if Drive(InHead(""), incoming, resumes).0.Ready? then [Mod(EPOLLOUT, willing)] else []
  {
    hide Drive, Conclude, DriveServing, ReadThenServe, EventChanges;
    var first: TurnInput := Input(Turn(incoming, outgoing, willing), None);
    assert [first][..0] == [] && [] + incoming == incoming && [] + outgoing == outgoing;
    var start := Serving(Reads(InHead(""), []), outgoing, "", []);
    ReadingIsDrive(serve, start, InHead(""), incoming, willing, resumes);
    ReadingChangesOnce(serve, start, InHead(""), incoming, willing, resumes);
    var t := Conclude(serve, Drive(InHead(""), incoming, resumes), outgoing);
    assert "" + t.taken == t.taken;
  }
}
