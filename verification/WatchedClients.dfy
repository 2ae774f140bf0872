/** What a client is watched for: input while its routine reads, output once it writes. */
module WatchedClients {
  import opened Tables
  import opened Coroutines
  import opened CoroutineRuns
  import opened Connections
  import opened EpollWorkers
  import opened WorkerRuns
  import opened ClientRoutines

  /** The turn in which the routine stops reading. */
  ghost predicate StopsReadingAt(serve: Server, history: seq<TurnInput>, k: int) {
    && 0 <= k < |history|
    && AfterTurns(serve, history[..k]).stage.Reads? && !AfterTurns(serve, history[..k + 1]).stage.Reads?
  }

  /**
    A routine that reads waits for input. One that writes waits for output if `epoll_ctl`
    worked in the turn that completed its request, and for input if it did not.
  */
  ghost predicate WatchedFor(serve: Server, history: seq<TurnInput>, events: int) {
    match AfterTurns(serve, history).stage
    case Reads(_, _) => events == EPOLLIN
    case Writes(_, _, _) =>
      exists k :: StopsReadingAt(serve, history, k) && events == if history[k].given.willing then EPOLLOUT else EPOLLIN
    case Over(_) => true
  }

  ghost predicate IsWatched(w: EpollWorkers.World<Turn>, serve: Server, fd: nat) {
    fd in w.clients ==>
      fd in w.runtime.routines && WatchedFor(serve, w.runtime.routines[fd].history, w.clients[fd].events)
  }

  /** What a descriptor is watched for after these calls. */
  function Rewatched(mods: seq<Mod>, events: int): int
    decreases |mods|
  {
    if mods == [] then events else Rewatched(mods[1..], if mods[0].willing then mods[0].events else events)
  }

  lemma {:induction false} ModsRewatch<I>(w: EpollWorkers.World<I>, h: Settings<I>, fd: int, mods: seq<Mod>)
    requires fd in w.clients && Mirrored(w, h)
    ensures ApplyMods(w, fd, mods).clients[fd].events == Rewatched(mods, w.clients[fd].events)
    decreases |mods|
  {
    if mods != [] {
      var first := ApplyMods(w, fd, [mods[0]]);
      ApplyMore(w, fd, mods);
      ModsKeepShape(w, h, fd, [mods[0]]);
      ModsRewatch(first, h, fd, mods[1..]);
      assert [mods[0]][1..] == [];
    }
  }

  /** One turn: the segment's own calls take the client to what it has to be watched for next. */
  lemma TurnWatches(serve: Server, history: seq<TurnInput>, input: TurnInput, events: int)
    requires WatchedFor(serve, history, events) && input.injected == None
    ensures
      var more := history + [input];
      WatchedFor(serve, more, Rewatched(AfterTurns(serve, more).mods, events))
  {
    hide AfterTurns;
    var s, more := AfterTurns(serve, history), history + [input];
    OneMoreTurn(serve, history, input);
    assert more[..|history|] == history && more[..|more|] == more;
    var next := AfterTurns(serve, more);
    TurnCalls(serve, s, input);
    if s.stage.Reads? && next.stage.Writes? {
      assert StopsReadingAt(serve, more, |history|);
      assert next.mods[1..] == [];
    } else if s.stage.Writes? && next.stage.Writes? {
      var k :| StopsReadingAt(serve, history, k)
        && events == if history[k].given.willing then EPOLLOUT else EPOLLIN;
      assert more[..k] == history[..k] && more[..k + 1] == history[..k + 1] && more[k] == history[k];
      assert StopsReadingAt(serve, more, k);
    }
  }

  lemma TurnCalls(serve: Server, s: Serving, input: TurnInput)
    requires input.injected == None
    ensures
      var next := TakeTurn(serve, s, input);
      && (s.stage.Reads? && next.stage.Writes? ==> next.mods == [Mod(EPOLLOUT, input.given.willing)])
      && (s.stage.Reads? && next.stage.Reads? ==> next.mods == [])
      && (s.stage.Writes? ==> next.mods == [] && !next.stage.Reads?)
      && (s.stage.Over? ==> next.stage.Over?)
  {
    hide RequestReader.ReadSegment;
  }

  // ------------------------------------------------------------- over whole runs

  /** What one event leaves in a client's record: its own segment's calls, and nothing else. */
  lemma ClientAfterEvent(
    w: EpollWorkers.World<Turn>, h: Settings<Turn>, serve: Server, fd: nat, hangup: bool, given: Turn, other: nat)
    requires Coherent(w, h) && h.handler == ClientBody(serve) && fd in w.clients && fd in w.runtime.routines
    requires DoEvent(w, h, ClientReady(fd, hangup, given)).Continues?
    requires other in DoEvent(w, h, ClientReady(fd, hangup, given)).world.clients
    ensures other in w.clients
    ensures
      var next := DoEvent(w, h, ClientReady(fd, hangup, given)).world;
      if other != fd then next.clients[other] == w.clients[other]
      else
        var mods := AfterTurns(serve, w.runtime.routines[fd].history + [Input(given, None)]).mods;
        !hangup && next.clients[fd].events == Rewatched(mods, w.clients[fd].events)
  {
    hide DoKill, DoResume, ApplyMods, Mirrored, Staffed, AfterTurns, Rewatched;
    var (runtime, response) :=
      if hangup then DoKill(w.runtime, fd, Some(EpollFault), given) else DoResume(w.runtime, fd, given);
    var output := OutputOf(response);
    var next := w.(runtime := runtime);
    MirrorIgnoresRuntime(w, h, runtime);
    assert fd in w.clients.Keys;
    ResumeRunsLastSegment(w.runtime, w.clients.Keys, h, serve, fd, given);
    if output.Some? {
      ModsKeepShape(next, h, fd, output.value);
      ModsRewatch(next, h, fd, output.value);
    }
    assert other in DoEvent(w, h, ClientReady(fd, hangup, given)).world.clients.Keys;
  }

  lemma EventKeepsWatch(
    w: EpollWorkers.World<Turn>, h: Settings<Turn>, serve: Server, events: seq<EpollWorkers.Event<Turn>>, fd: nat)
    requires Coherent(w, h) && h.handler == ClientBody(serve) && IsWatched(w, serve, fd)
    requires events != [] && ReportedBy(w, events) && PossibleAccepts(w, h, events)
    ensures DoEvent(w, h, events[0]).Continues? ==> IsWatched(DoEvent(w, h, events[0]).world, serve, fd)
  {
    hide Coherent, DoEvent, AfterTurns, WatchedFor, Rewatched, ClientBody;
    var e, o := events[0], DoEvent(w, h, events[0]);
    if o.Continues? && fd in o.world.clients {
      match e
      case Acceptor(a) => AcceptKeepsWatch(w, h, serve, a, fd);
      case ClientReady(named, hangup, given) =>
        assert Names(events, 0, named);
        ClientHasRoutine(w, h, named);
        ClientAfterEvent(w, h, serve, named, hangup, given, fd);
        ClientEventGrowsHistory(w, h, e, fd);
        var past, input: TurnInput := w.runtime.routines[fd].history, Input(given, None);
        assert [e][1..] == [] && past + [] == past && [input] + [] == [input];
        if fd == named {
          TurnWatches(serve, past, input, w.clients[fd].events);
        }
    }
  }

  lemma AcceptKeepsWatch(
    w: EpollWorkers.World<Turn>, h: Settings<Turn>, serve: Server, a: Accepting, fd: nat)
    requires Coherent(w, h) && PossibleAccept(w, a) && IsWatched(w, serve, fd)
    ensures
      var o := DoEvent(w, h, Acceptor(a));
      o.Continues? ==> IsWatched(o.world, serve, fd)
  {
    hide Coherent, DoAccept, HonestEscape;
    AcceptKeepsCoherence(w, h, a);
    var o := DoAccept(w, h, a);
    if o.Continues? && fd in o.world.clients && !(a.Accepted? && a.fd == fd) {
      AcceptKeepsHistories(w, h, a, fd);
    }
  }

  lemma {:induction false} BatchKeepsWatch(
    w: EpollWorkers.World<Turn>, h: Settings<Turn>, serve: Server, events: seq<EpollWorkers.Event<Turn>>, fd: nat)
    requires Coherent(w, h) && h.handler == ClientBody(serve) && IsWatched(w, serve, fd)
    requires ReportedBy(w, events) && PossibleAccepts(w, h, events)
    ensures DoBatch(w, h, events).Continues? ==> IsWatched(DoBatch(w, h, events).world, serve, fd)
    decreases |events|
  {
    hide Coherent, DoEvent, IsWatched, HonestEscape, ReportedBy;
    if events != [] {
      EventKeepsCoherence(w, h, events);
      EventKeepsWatch(w, h, serve, events, fd);
      if DoEvent(w, h, events[0]).Continues? {
        BatchKeepsWatch(DoEvent(w, h, events[0]).world, h, serve, events[1..], fd);
      }
    }
  }

  lemma {:induction false} LoopKeepsWatch(
    w: EpollWorkers.World<Turn>, h: Settings<Turn>, serve: Server, waits: seq<Wait<Turn>>, n: nat, fd: nat)
    requires Coherent(w, h) && h.handler == ClientBody(serve) && IsWatched(w, serve, fd)
    requires PossibleRun(w, h, waits) && n <= |waits|
    ensures DoLoop(w, h, waits[..n]).Continues? ==> IsWatched(DoLoop(w, h, waits[..n]).world, serve, fd)
    decreases |waits|
  {
    hide Coherent, DoBatch, IsWatched, HonestEscape, ReportedBy, PossibleAccepts;
    if n > 0 {
      var o, events := DoWait(w, h, waits[0]), WorkedOff(waits[0]);
      WaitIsItsBatch(w, h, waits[0]);
      BatchKeepsCoherence(w, h, events, |events|);
      assert events[..|events|] == events;
      BatchKeepsWatch(w, h, serve, events, fd);
      assert waits[..n][1..] == waits[1..][..n - 1];
      if o.Continues? && !waits[0].LastBatch? {
        LoopKeepsWatch(o.world, h, serve, waits[1..], n - 1, fd);
      }
    }
  }

  /**
    At every loop head of every run, epoll watches each client for what its routine waits
    for: input while it reads, output when it writes and `epoll_ctl` worked in the turn
    that completed the request. From a worker that has no client yet this holds of all of them.
  */
  lemma ClientsAreWatched(
    w: EpollWorkers.World<Turn>, h: Settings<Turn>, serve: Server, waits: seq<Wait<Turn>>, n: nat, fd: nat)
    requires Coherent(w, h) && PossibleRun(w, h, waits) && h.handler == ClientBody(serve) && n <= |waits|
    requires IsWatched(w, serve, fd)
    ensures
      var o := DoLoop(w, h, waits[..n]);
      o.Continues? && fd in o.world.clients ==>
        && fd in o.world.runtime.routines && fd in o.world.interest
        && !AfterTurns(serve, o.world.runtime.routines[fd].history).stage.Over?
        && WatchedFor(serve, o.world.runtime.routines[fd].history, o.world.interest[fd])
  {
    hide DoLoop, PossibleRun, HonestEscape, WatchedFor, Staffed, AfterTurns;
    LoopStaysCoherent(w, h, waits, n);
    LoopKeepsWatch(w, h, serve, waits, n, fd);
    var o := DoLoop(w, h, waits[..n]);
    if o.Continues? && fd in o.world.clients {
      WaitingRoutineServes(o.world, h, serve, fd);
    }
  }
}
