/** What holds at every head of the event loop, over every run of the worker. */
module WorkerRuns {
  import opened Tables
  import opened Coroutines
  import opened CoroutineRuns
  import opened Connections
  import opened EpollWorkers

  /** A routine without a client was never entered and carries nothing from an earlier use. */
  ghost predicate Untouched<I>(r: Routine<I, seq<Mod>, Fault>) {
    r.history == [] && r.exception == None
  }

  /**
    The kernel watches the acceptor and, for its current events, each client; each key owns its
    descriptor; no other file is open.
  */
  ghost predicate Mirrored<I>(w: World<I>, h: Settings<I>) {
    && h.acceptor != h.epoll
    && (forall fd :: fd in w.clients ==> fd > 0 && fd != h.acceptor && fd != h.epoll && w.clients[fd].fd == fd)
    && (forall fd :: fd in w.open <==> fd == h.acceptor || fd == h.epoll || fd in w.clients)
    && (forall fd :: fd in w.interest <==> fd == h.acceptor || fd in w.clients)
    && h.acceptor in w.interest && w.interest[h.acceptor] == ACCEPTOR_EVENTS
    && (forall fd :: fd in w.clients ==> w.interest[fd] == w.clients[fd].events)
  }

  /** A routine between two segments: nothing was injected into it, and it yielded if it was entered at all. */
  ghost predicate Waiting<I>(handler: Handler<I>, history: seq<Input<I, Fault>>) {
    Undisturbed(history) && (history == [] || handler(history).end.Yields?)
  }

  /**
    Each client has an active routine running the handler, which waits; a routine that was
    entered has its client; the others are unentered leftovers.
  */
  ghost predicate Staffed<I>(runtime: Runtime<I, seq<Mod>, Fault>, clients: set<int>, h: Settings<I>) {
    && Valid(runtime)
    && (forall fd :: fd in clients ==> fd in runtime.routines)
    && (forall id :: id in runtime.routines ==>
      && id > 0 && runtime.routines[id].func == Some(h.handler)
      && runtime.routines[id].exception == None && Waiting(h.handler, runtime.routines[id].history)
      && (id !in clients ==> Untouched(runtime.routines[id])))
  }

  /** The client map in step with the coroutine map, the interest set and the open files. */
  ghost predicate Coherent<I>(w: World<I>, h: Settings<I>) {
    Mirrored(w, h) && Staffed(w.runtime, w.clients.Keys, h)
  }

  /** An exception injected into a waiting routine that was entered comes out of it. */
  ghost predicate LetsKillsThrough<I(!new)>(handler: Handler<I>) {
    forall history, given, fault | history != [] && Waiting(handler, history) ::
      handler(history + [Input(given, Some(fault))]).end == Throws(fault)
  }

  /** A waiting routine that is resumed plainly may end with this exception. */
  ghost predicate MayThrow<I(!new)>(handler: Handler<I>, fault: Fault) {
    exists history, given :: Waiting(handler, history) && handler(history + [Input(given, None)]).end == Throws(fault)
  }

  /**
    Why the loop may end: a failing wait or acceptor; an exception that the handler may
    throw when it is resumed and that is not of the I/O kinds; on a hang-up, an exception
    of another kind than the injected one or a routine that survives it, both only if the
    handler does not let kills through; never a failed lookup.
  */
  ghost predicate HonestEscape<I(!new)>(h: Settings<I>, why: Escape) {
    && why != MissingRoutine && why != MissingClient
    && (why.HandlerFault? ==> !IsIoFault(why.fault) && MayThrow(h.handler, why.fault))
    && (why.HangupFault? ==> why.fault != EpollFault)
    && (LetsKillsThrough(h.handler) ==> !why.HangupFault? && !why.SurvivedKill?)
  }

  /** The kernel hands out a descriptor that is not open. */
  ghost predicate PossibleAccept<I>(w: World<I>, a: Accepting) {
    a.Accepted? ==> a.fd > 0 && a.fd !in w.open
  }

  /** What goes wrong with an acceptance, if anything: `accept` or `fcntl` fails, or `getsockname` on what it gave. */
  function Trouble(a: Accepting): Option<Escape> {
    match a
    case AcceptFailed => Some(AcceptError)
    case Accepted(_, nonblocking, named, _) =>
      if nonblocking then (if named then None else Some(IoServiceError)) else Some(AcceptError)
    case _ => None
  }

  /** An acceptance that goes well leaves a client that is watched for input or, where that failed, no client. */
  ghost predicate Welcomed<I>(w: World<I>, h: Settings<I>, a: Accepting, next: World<I>) {
    match a
    case Accepted(fd, _, _, watchable) =>
      && fd in next.runtime.routines && ViewOf(next.runtime.routines[fd]) == View(Some(h.handler), [], None)
      && if watchable then
           && next.clients == w.clients[fd := Client(fd, EPOLLIN)]
           && next.interest == w.interest[fd := EPOLLIN] && next.open == w.open + {fd}
         else next.clients == w.clients && next.interest == w.interest && next.open == w.open
    case _ => next == w
  }

  // ------------------------------------------------------------------ single events

  lemma {:induction false} ModsKeepShape<I>(w: World<I>, h: Settings<I>, fd: int, mods: seq<Mod>)
    requires fd in w.clients && Mirrored(w, h)
    ensures
      var next := ApplyMods(w, fd, mods);
      && Mirrored(next, h) && next.clients.Keys == w.clients.Keys
      && next.runtime == w.runtime && next.open == w.open
      && (forall other :: other in w.clients && other != fd ==> next.clients[other] == w.clients[other])
    decreases |mods|
  {
    if mods != [] {
      var c := w.clients[fd];
      if mods[0].willing && c.fd in w.interest {
        var next := Rewatch(w, fd, mods[0].events);
        assert Mirrored(next, h);
        assert next.clients.Keys == w.clients.Keys;
        ModsKeepShape(next, h, fd, mods[1..]);
      } else {
        ModsKeepShape(w, h, fd, mods[1..]);
      }
    }
  }

  lemma MirrorIgnoresRuntime<I>(w: World<I>, h: Settings<I>, runtime: Runtime<I, seq<Mod>, Fault>)
    ensures Mirrored(w, h) <==> Mirrored(w.(runtime := runtime), h)
  {}

  lemma CloseKeepsMirror<I>(w: World<I>, h: Settings<I>, fd: int)
    requires Mirrored(w, h) && fd in w.clients
    ensures DoClose(w, fd).Continues?
    ensures
      var next := DoClose(w, fd).world;
      Mirrored(next, h) && next.clients == w.clients - {fd} && next.runtime == w.runtime
  {}

  /** What a waiting routine answers to a plain resume, and to a hang-up that it lets through. */
  lemma WaitingRoutineAnswers<I(!new)>(
    handler: Handler<I>, v: View<I, seq<Mod>, Fault>, fd: nat, hangup: bool, given: I)
    requires v.func == Some(handler) && v.exception == None && Waiting(handler, v.history) && fd != 0
    ensures
      var op: Op<I, seq<Mod>, Fault> := if hangup then Kill(fd, Some(EpollFault), given) else Resume(fd, given);
      var (after, response) := LocalStep(Some(v), op);
      && (hangup && LetsKillsThrough(handler) ==> response.Threw? && response.fault == EpollFault)
      && (!hangup && response.Threw? ==> MayThrow(handler, response.fault))
      && (!hangup && after.Some? ==> Waiting(handler, after.value.history))
  {
    var history := v.history + [Input(given, if hangup then Some(EpollFault) else None)];
    var s := handler(history);
    assert hangup || Undisturbed(history);
  }

  /** Resuming or killing one client's routine leaves the staff complete, or leaves it without just that routine. */
  lemma SegmentKeepsStaff<I(!new)>(
    runtime: Runtime<I, seq<Mod>, Fault>, clients: set<int>, h: Settings<I>, fd: nat, hangup: bool, given: I)
    requires Staffed(runtime, clients, h) && fd in clients
    ensures
      var (next, response) :=
        if hangup then DoKill(runtime, fd, Some(EpollFault), given) else DoResume(runtime, fd, given);
      && response != OutOfRange && response != InvalidArgument
      && (response.Returned? && response.status == AGAIN ==> !hangup && Staffed(next, clients, h))
      && (response.Threw? || (response.Returned? && response.status != AGAIN) ==>
          (hangup ==> response.Threw?) && Staffed(next, clients - {fd}, h))
      && (hangup ==> response.Threw? || response.LogicError?)
      && (!hangup ==> response.Threw? || response.Returned?)
      && (hangup && LetsKillsThrough(h.handler) ==> response.Threw? && response.fault == EpollFault)
      && (!hangup && response.Threw? ==> MayThrow(h.handler, response.fault))
  {
    hide DoKill, DoResume, Valid, LetsKillsThrough, MayThrow, Waiting;
    WaitingRoutineAnswers(h.handler, ViewOf(runtime.routines[fd]), fd, hangup, given);
    var op: Op<I, seq<Mod>, Fault> := if hangup then Kill(fd, Some(EpollFault), given) else Resume(fd, given);
    StepKeepsValid(runtime, op);
    StepIsLocal(runtime, op);
    var next := Step(runtime, op).0;
    forall id: Id | id in next.routines && id != fd
      ensures id in runtime.routines && ViewOf(next.routines[id]) == ViewOf(runtime.routines[id])
    {
      assert ViewAt(next, id) == ViewAt(runtime, id);
    }
    forall id: Id | id in runtime.routines && id != fd ensures id in next.routines {
      assert ViewAt(next, id) == ViewAt(runtime, id);
    }
    assert LocalStep(ViewAt(runtime, fd), op) == (ViewAt(next, fd), Step(runtime, op).1);
  }

  /**
    One reported client: the loop goes on coherently, without losing any other client, or ends
    for an honest reason.
  */
  lemma ClientEventKeepsCoherence<I(!new)>(w: World<I>, h: Settings<I>, fd: nat, hangup: bool, given: I)
    requires Coherent(w, h) && fd in w.clients
    ensures
      var o := DoEvent(w, h, ClientReady(fd, hangup, given));
      if o.Escaped? then HonestEscape(h, o.why)
      else
        && Coherent(o.world, h)
        && (o.world.clients.Keys == w.clients.Keys || o.world.clients.Keys == w.clients.Keys - {fd})
  {
    hide DoKill, DoResume, ApplyMods, DoClose, Mirrored, Staffed, LetsKillsThrough, MayThrow;
    assert w.clients.Keys - {fd} <= w.clients.Keys;
    SegmentKeepsStaff(w.runtime, w.clients.Keys, h, fd, hangup, given);
    var (runtime, response) :=
      if hangup then DoKill(w.runtime, fd, Some(EpollFault), given) else DoResume(w.runtime, fd, given);
    var output := OutputOf(response);
    var next := w.(runtime := runtime);
    MirrorIgnoresRuntime(w, h, runtime);
    var after := if output.Some? then ApplyMods(next, fd, output.value) else next;
    if output.Some? {
      ModsKeepShape(next, h, fd, output.value);
    }
    assert AfterSegment(w, runtime, fd, output) == Continues(after);
    CloseKeepsMirror(after, h, fd);
    assert (after.clients - {fd}).Keys == w.clients.Keys - {fd};
  }

  /**
    One acceptance. A failed registration leaves no client and no open file, only an
    unentered routine; a later acceptance that gets the same descriptor takes that
    routine over as it would a new one.
  */
  lemma AcceptKeepsCoherence<I(!new)>(w: World<I>, h: Settings<I>, a: Accepting)
    requires Coherent(w, h) && PossibleAccept(w, a)
    ensures
      var o := DoAccept(w, h, a);
      match Trouble(a)
      case Some(why) => o.Escaped? && o.why == why && HonestEscape(h, why) && o.world.open == w.open
      case None => o.Continues? && Coherent(o.world, h) && Welcomed(w, h, a, o.world)
    ensures
      var o := DoAccept(w, h, a);
      o.Continues? ==>
        && w.clients.Keys <= o.world.clients.Keys
        && (a.Accepted? ==> (a.fd in o.world.clients <==> a.watchable))
  {
    if a.Accepted? && a.nonblocking && a.named {
      CreateKeepsStaff(w.runtime, w.clients.Keys, h, a.fd);
      var next := DoAccept(w, h, a).world;
      assert next.clients.Keys == if a.watchable then w.clients.Keys + {a.fd} else w.clients.Keys;
      assert Mirrored(next, h);
    }
  }

  /** A new routine, or the unentered one that already waits under this id, can serve a new client or stay unused. */
  lemma CreateKeepsStaff<I>(
    runtime: Runtime<I, seq<Mod>, Fault>, clients: set<int>, h: Settings<I>, id: Id)
    requires Staffed(runtime, clients, h) && id > 0 && id !in clients
    ensures
      var next := DoCreate(runtime, id, Some(h.handler));
      && Staffed(next, clients, h) && Staffed(next, clients + {id}, h)
      && id in next.routines && ViewOf(next.routines[id]) == View(Some(h.handler), [], None)
  {
    var op: Op<I, seq<Mod>, Fault> := Create(id, Some(h.handler));
    StepKeepsValid(runtime, op);
    StepIsLocal(runtime, op);
    var next := DoCreate(runtime, id, Some(h.handler));
    forall other: Id | other in next.routines && other != id
      ensures other in runtime.routines && ViewOf(next.routines[other]) == ViewOf(runtime.routines[other])
    {
      assert ViewAt(next, other) == ViewAt(runtime, other);
    }
    forall other: Id | other in runtime.routines ensures other in next.routines {
      assert other == id || ViewAt(next, other) == ViewAt(runtime, other);
    }
    assert LocalStep(ViewAt(runtime, id), op) == (ViewAt(next, id), Created);
  }

  // -------------------------------------------------------------------- batches

  /** The client descriptors a batch names. */
  ghost predicate Names<I>(events: seq<Event<I>>, i: int, fd: int) {
    0 <= i < |events| && events[i].ClientReady? && events[i].fd == fd
  }

  /** One wait reports each watched descriptor at most once, and only watched ones. */
  ghost predicate ReportedBy<I>(w: World<I>, events: seq<Event<I>>) {
    && (forall i, fd :: Names(events, i, fd) ==> fd in w.clients)
    && (forall i, j, fd :: Names(events, i, fd) && Names(events, j, fd) ==> i == j)
  }

  /** Whatever is accepted while the batch is worked on is a descriptor that is free at that moment. */
  ghost predicate PossibleAccepts<I>(w: World<I>, h: Settings<I>, events: seq<Event<I>>)
    decreases |events|
  {
    events == [] ||
    (&& (events[0].Acceptor? ==> PossibleAccept(w, events[0].accepting))
     && (DoEvent(w, h, events[0]).Continues? ==> PossibleAccepts(DoEvent(w, h, events[0]).world, h, events[1..])))
  }

  lemma EventKeepsCoherence<I(!new)>(w: World<I>, h: Settings<I>, events: seq<Event<I>>)
    requires Coherent(w, h) && events != [] && ReportedBy(w, events) && PossibleAccepts(w, h, events)
    ensures
      var o := DoEvent(w, h, events[0]);
      if o.Escaped? then HonestEscape(h, o.why) else Coherent(o.world, h) && ReportedBy(o.world, events[1..])
  {
    var e := events[0];
    if e.ClientReady? {
      assert Names(events, 0, e.fd);
      ClientEventKeepsCoherence(w, h, e.fd, e.hangup, e.given);
    } else {
      AcceptKeepsCoherence(w, h, e.accepting);
    }
    var o := DoEvent(w, h, e);
    if o.Continues? {
      var rest := events[1..];
      forall i, fd | Names(rest, i, fd) ensures fd in o.world.clients {
        assert Names(events, i + 1, fd);
        assert fd in w.clients.Keys;
        if e.ClientReady? && fd == e.fd {
          assert Names(events, 0, fd);
        }
        assert fd in o.world.clients.Keys;
      }
      forall i, j, fd | Names(rest, i, fd) && Names(rest, j, fd) ensures i == j {
        assert Names(events, i + 1, fd) && Names(events, j + 1, fd);
      }
    }
  }

  lemma ClientHasRoutine<I>(w: World<I>, h: Settings<I>, fd: int)
    requires Coherent(w, h) && fd in w.clients
    ensures fd in w.runtime.routines
  {
    assert fd in w.clients.Keys;
  }

  /**
    Batch safety: at every point of a batch, each client still to be handled is in both
    maps, whatever was accepted and closed before it, and a batch that ends leaves the
    worker coherent. No lookup ever fails.
  */
  lemma {:induction false} BatchKeepsCoherence<I(!new)>(w: World<I>, h: Settings<I>, events: seq<Event<I>>, n: nat)
    requires Coherent(w, h) && ReportedBy(w, events) && PossibleAccepts(w, h, events) && n <= |events|
    ensures
      var o := DoBatch(w, h, events[..n]);
      if o.Escaped? then HonestEscape(h, o.why)
      else
        && Coherent(o.world, h)
        && forall i, fd :: n <= i && Names(events, i, fd) ==> fd in o.world.clients && fd in o.world.runtime.routines
    decreases |events|
  {
    hide DoEvent, Mirrored, Waiting, Untouched, Valid, HonestEscape;
    if n == 0 {
      assert events[..0] == [];
      forall i, fd | Names(events, i, fd) ensures fd in w.runtime.routines {
        ClientHasRoutine(w, h, fd);
      }
    } else {
      EventKeepsCoherence(w, h, events);
      var o := DoEvent(w, h, events[0]);
      assert events[..n][1..] == events[1..][..n - 1];
      if o.Continues? {
        BatchKeepsCoherence(o.world, h, events[1..], n - 1);
        forall i, fd | n <= i && Names(events, i, fd) ensures Names(events[1..], i - 1, fd) {}
      }
    }
  }

  // ------------------------------------------------------------------- whole runs

  ghost predicate PossibleRun<I>(w: World<I>, h: Settings<I>, waits: seq<Wait<I>>)
    decreases |waits|
  {
    waits == [] ||
    (&& ReportedBy(w, WorkedOff(waits[0])) && PossibleAccepts(w, h, WorkedOff(waits[0]))
     && (DoWait(w, h, waits[0]).Continues? && !waits[0].LastBatch? ==>
         PossibleRun(DoWait(w, h, waits[0]).world, h, waits[1..])))
  }

  lemma WaitIsItsBatch<I>(w: World<I>, h: Settings<I>, wait: Wait<I>)
    ensures if wait == WaitFailed then DoWait(w, h, wait) == Escaped(w, WaitError)
            else DoWait(w, h, wait) == DoBatch(w, h, WorkedOff(wait))
  {}

  lemma WaitErrorIsHonest<I(!new)>(h: Settings<I>)
    ensures HonestEscape(h, WaitError)
  {}

  /**
    Over every run: at every loop head, and where the stop flag ends it, the worker is
    coherent; and when an exception ends it, that was a failing wait or acceptor or an
    exception of the handler that is not caught there.
  */
  lemma {:induction false} LoopStaysCoherent<I(!new)>(w: World<I>, h: Settings<I>, waits: seq<Wait<I>>, n: nat)
    requires Coherent(w, h) && PossibleRun(w, h, waits) && n <= |waits|
    ensures
      var o := DoLoop(w, h, waits[..n]);
      if o.Escaped? then HonestEscape(h, o.why) else Coherent(o.world, h)
    decreases |waits|
  {
    hide Coherent, HonestEscape, DoBatch, ReportedBy, PossibleAccepts;
    if n > 0 {
      var o := DoWait(w, h, waits[0]);
      WaitIsItsBatch(w, h, waits[0]);
      WaitErrorIsHonest(h);
      var events := WorkedOff(waits[0]);
      BatchKeepsCoherence(w, h, events, |events|);
      assert events[..|events|] == events;
      assert waits[..n][1..] == waits[1..][..n - 1];
      if o.Continues? && !waits[0].LastBatch? {
        LoopStaysCoherent(o.world, h, waits[1..], n - 1);
      }
    }
  }

  // ------------------------------------------------------- what ended the loop, if it ended

  /** Some wait that was reached failed, or some acceptance that was worked off went wrong in this way. */
  ghost predicate Blamed<I>(waits: seq<Wait<I>>, why: Escape) {
    || (why == WaitError && WaitFailed in waits)
    || exists a :: Acceptor(a) in WorkedEvents(waits) && Trouble(a) == Some(why)
  }

  lemma {:induction false} BatchBlames<I(!new)>(w: World<I>, h: Settings<I>, events: seq<Event<I>>)
    requires Coherent(w, h) && ReportedBy(w, events) && PossibleAccepts(w, h, events)
    ensures
      var o := DoBatch(w, h, events);
      if o.Continues? then forall a :: Acceptor(a) in events ==> Trouble(a) == None
      else
        && o.why != WaitError
        && (o.why == AcceptError || o.why == IoServiceError ==>
            exists a :: Acceptor(a) in events && Trouble(a) == Some(o.why))
    decreases |events|
  {
    hide DoEvent, Coherent, HonestEscape, Trouble;
    if events != [] {
      EventBlames(w, h, events);
      EventKeepsCoherence(w, h, events);
      var o := DoEvent(w, h, events[0]);
      assert events == [events[0]] + events[1..];
      if o.Continues? {
        BatchBlames(o.world, h, events[1..]);
      }
    }
  }

  lemma EventBlames<I(!new)>(w: World<I>, h: Settings<I>, events: seq<Event<I>>)
    requires Coherent(w, h) && events != [] && ReportedBy(w, events) && PossibleAccepts(w, h, events)
    ensures
      var o := DoEvent(w, h, events[0]);
      match events[0]
      case Acceptor(a) => if o.Continues? then Trouble(a) == None else Trouble(a) == Some(o.why) && o.why != WaitError
      case ClientReady(_, _, _) =>
        o.Escaped? ==> o.why != WaitError && o.why != AcceptError && o.why != IoServiceError
  {
    hide Coherent, HonestEscape, DoKill, DoResume, ApplyMods;
    match events[0]
    case Acceptor(a) => AcceptKeepsCoherence(w, h, a);
    case ClientReady(fd, hangup, given) =>
      assert Names(events, 0, fd);
      ClientEventKeepsCoherence(w, h, fd, hangup, given);
  }

  /**
    Over every run: a loop that goes on met no failing wait and no bad acceptance; one
    that ended for one of these did meet it.
  */
  lemma {:induction false} LoopIsToBlame<I(!new)>(w: World<I>, h: Settings<I>, waits: seq<Wait<I>>)
    requires Coherent(w, h) && PossibleRun(w, h, waits)
    ensures
      var o := DoLoop(w, h, waits);
      if o.Continues? then
        && (forall a :: Acceptor(a) in WorkedEvents(waits) ==> Trouble(a) == None)
        && ((forall i :: 0 <= i < |waits| ==> !waits[i].LastBatch?) ==> WaitFailed !in waits)
      else o.why == WaitError || o.why == AcceptError || o.why == IoServiceError ==> Blamed(waits, o.why)
    decreases |waits|
  {
    hide Coherent, DoBatch, DoWait, Trouble, ReportedBy, PossibleAccepts, WorkedOff;
    if waits != [] {
      WaitIsItsBatch(w, h, waits[0]);
      WaitBlames(w, h, waits[0]);
      assert waits == [waits[0]] + waits[1..];
      if waits[0] != WaitFailed && DoWait(w, h, waits[0]).Continues? && !waits[0].LastBatch? {
        LoopIsToBlame(DoWait(w, h, waits[0]).world, h, waits[1..]);
      }
    }
  }

  lemma WaitBlames<I(!new)>(w: World<I>, h: Settings<I>, wait: Wait<I>)
    requires Coherent(w, h) && ReportedBy(w, WorkedOff(wait)) && PossibleAccepts(w, h, WorkedOff(wait))
    ensures
      var o := DoWait(w, h, wait);
      if o.Continues? then
        wait != WaitFailed && Coherent(o.world, h) && forall a :: Acceptor(a) in WorkedOff(wait) ==> Trouble(a) == None
      else
        && (o.why == WaitError ==> wait == WaitFailed)
        && (o.why == AcceptError || o.why == IoServiceError ==>
            exists a :: Acceptor(a) in WorkedOff(wait) && Trouble(a) == Some(o.why))
  {
    hide Coherent, DoBatch, DoWait, Trouble, ReportedBy, PossibleAccepts;
    var events := WorkedOff(wait);
    WaitIsItsBatch(w, h, wait);
    BatchBlames(w, h, events);
    BatchKeepsCoherence(w, h, events, |events|);
    assert events[..|events|] == events;
  }

  lemma {:induction false} PossiblePrefix<I>(w: World<I>, h: Settings<I>, waits: seq<Wait<I>>, n: nat)
    requires PossibleRun(w, h, waits) && n <= |waits|
    ensures PossibleRun(w, h, waits[..n])
    decreases |waits|
  {
    hide DoWait, ReportedBy, PossibleAccepts;
    if n > 0 {
      assert waits[..n][1..] == waits[1..][..n - 1];
      if DoWait(w, h, waits[0]).Continues? && !waits[0].LastBatch? {
        PossiblePrefix(DoWait(w, h, waits[0]).world, h, waits[1..], n - 1);
      }
    }
  }

  /**
    Over every run with a handler that throws I/O exceptions only: nothing but a failing
    wait or a bad acceptance that was met ends the loop.
  */
  lemma IoFaultsNeverEndTheLoop<I(!new)>(w: World<I>, h: Settings<I>, waits: seq<Wait<I>>, n: nat)
    requires Coherent(w, h) && PossibleRun(w, h, waits) && n <= |waits|
    requires LetsKillsThrough(h.handler) && forall fault :: MayThrow(h.handler, fault) ==> IsIoFault(fault)
    ensures
      var o := DoLoop(w, h, waits[..n]);
      o.Escaped? ==> Blamed(waits[..n], o.why)
  {
    hide Coherent, PossibleRun, DoLoop, LetsKillsThrough, MayThrow, Blamed;
    LoopStaysCoherent(w, h, waits, n);
    PossiblePrefix(w, h, waits, n);
    LoopIsToBlame(w, h, waits[..n]);
  }

  // ------------------------------------------------- what one connection's routine got

  /** The events that a run works off. */
  ghost function WorkedEvents<I>(waits: seq<Wait<I>>): seq<Event<I>> {
    if waits == [] then []
    else if waits[0].LastBatch? then WorkedOff(waits[0])
    else WorkedOff(waits[0]) + WorkedEvents(waits[1..])
  }

  ghost function InputOf<I>(e: Event<I>, fd: int): seq<Input<I, Fault>> {
    if e.ClientReady? && e.fd == fd && !e.hangup then [Input(e.given, None)] else []
  }

  /** What the routine of a descriptor is resumed with in these events. */
  ghost function Inputs<I>(events: seq<Event<I>>, fd: int): seq<Input<I, Fault>> {
    if events == [] then [] else InputOf(events[0], fd) + Inputs(events[1..], fd)
  }

  lemma {:induction false} InputsConcat<I>(a: seq<Event<I>>, b: seq<Event<I>>, fd: int)
    ensures Inputs(a + b, fd) == Inputs(a, fd) + Inputs(b, fd)
    decreases |a|
  {
    if a == [] {
      assert a + b == b;
    } else {
      hide InputOf;
      InputsConcat(a[1..], b, fd);
      assert (a + b)[1..] == a[1..] + b && (a + b)[0] == a[0];
    }
  }

  /** The descriptor is not handed out again in these events. */
  ghost predicate NotAccepted<I>(events: seq<Event<I>>, fd: int) {
    forall i :: 0 <= i < |events| && events[i].Acceptor? && events[i].accepting.Accepted? ==>
      events[i].accepting.fd != fd
  }

  lemma {:induction false} ModsKeepRuntime<I>(w: World<I>, fd: int, mods: seq<Mod>)
    requires fd in w.clients
    ensures ApplyMods(w, fd, mods).runtime == w.runtime
    decreases |mods|
  {
    if mods != [] {
      if mods[0].willing && w.clients[fd].fd in w.interest {
        ModsKeepRuntime(Rewatch(w, fd, mods[0].events), fd, mods[1..]);
      } else {
        ModsKeepRuntime(w, fd, mods[1..]);
      }
    }
  }

  /** The runtime that a client event leaves, and when the client leaves. */
  lemma RuntimeAfterClientEvent<I>(w: World<I>, h: Settings<I>, fd: nat, hangup: bool, given: I)
    requires fd in w.clients && DoEvent(w, h, ClientReady(fd, hangup, given)).Continues?
    ensures
      var next := DoEvent(w, h, ClientReady(fd, hangup, given)).world;
      && next.runtime
         == (if hangup then DoKill(w.runtime, fd, Some(EpollFault), given) else DoResume(w.runtime, fd, given)).0
      && (hangup ==> fd !in next.clients)
  {
    hide DoKill, DoResume, ApplyMods;
    var (runtime, response) :=
      if hangup then DoKill(w.runtime, fd, Some(EpollFault), given) else DoResume(w.runtime, fd, given);
    var output := OutputOf(response);
    if output.Some? {
      ModsKeepRuntime(w.(runtime := runtime), fd, output.value);
    }
  }

  lemma ResumedHistory<I, O, E>(v: View<I, O, E>, id: Id, given: I)
    requires id != 0 && v.exception == None
    ensures
      var after := LocalStep(Some(v), Resume(id, given)).0;
      after.Some? ==> after.value.history == v.history + [Input(given, None)]
  {}

  /** A client event gives a routine that stays exactly the input that names it. */
  lemma ClientEventGrowsHistory<I(!new)>(w: World<I>, h: Settings<I>, e: Event<I>, fd: nat)
    requires Coherent(w, h) && e.ClientReady? && e.fd in w.clients
    requires DoEvent(w, h, e).Continues? && fd in DoEvent(w, h, e).world.clients
    ensures fd in w.clients && fd in w.runtime.routines && fd in DoEvent(w, h, e).world.runtime.routines
    ensures DoEvent(w, h, e).world.runtime.routines[fd].history == w.runtime.routines[fd].history + Inputs([e], fd)
  {
    hide Mirrored, DoEvent, DoKill, DoResume, Valid, LocalStep, Untouched, Undisturbed;
    var o := DoEvent(w, h, e).world;
    ClientEventKeepsCoherence(w, h, e.fd, e.hangup, e.given);
    RuntimeAfterClientEvent(w, h, e.fd, e.hangup, e.given);
    assert fd in o.clients.Keys && fd in w.clients.Keys;
    var op: Op<I, seq<Mod>, Fault> := if e.hangup then Kill(e.fd, Some(EpollFault), e.given) else Resume(e.fd, e.given);
    StepIsLocal(w.runtime, op);
    assert Step(w.runtime, op).0 == o.runtime;
    ResumedHistory(ViewOf(w.runtime.routines[e.fd]), e.fd, e.given);
    assert ViewAt(o.runtime, fd) == Some(ViewOf(o.runtime.routines[fd]));
    assert [e][1..] == [] && w.runtime.routines[fd].history + [] == w.runtime.routines[fd].history;
  }

  lemma AcceptKeepsHistories<I(!new)>(w: World<I>, h: Settings<I>, a: Accepting, fd: nat)
    requires Coherent(w, h) && PossibleAccept(w, a)
    requires a.Accepted? ==> a.fd != fd
    requires DoAccept(w, h, a).Continues? && fd in DoAccept(w, h, a).world.clients
    ensures fd in w.clients && fd in w.runtime.routines && fd in DoAccept(w, h, a).world.runtime.routines
    ensures DoAccept(w, h, a).world.runtime.routines[fd].history == w.runtime.routines[fd].history
  {
    hide Mirrored, DoCreate, Valid;
    AcceptKeepsCoherence(w, h, a);
    if a.Accepted? {
      StepIsLocal(w.runtime, Create(a.fd, Some(h.handler)));
      var next := DoAccept(w, h, a).world;
      assert next.runtime == DoCreate(w.runtime, a.fd, Some(h.handler));
      assert ViewAt(next.runtime, fd) == ViewAt(w.runtime, fd);
    }
  }

  /**
    Every event gives a routine that stays exactly the input that names it, and only an
    acceptance brings a client in.
  */
  lemma EventGrowsHistory<I(!new)>(w: World<I>, h: Settings<I>, e: Event<I>, fd: nat)
    requires Coherent(w, h)
    requires if e.Acceptor? then PossibleAccept(w, e.accepting) else e.fd in w.clients
    requires NotAccepted([e], fd)
    requires DoEvent(w, h, e).Continues? && fd in DoEvent(w, h, e).world.clients
    ensures fd in w.clients && fd in w.runtime.routines && fd in DoEvent(w, h, e).world.runtime.routines
    ensures DoEvent(w, h, e).world.runtime.routines[fd].history == w.runtime.routines[fd].history + Inputs([e], fd)
  {
    hide Coherent, DoAccept, DoHangup, DoResumeClient;
    if e.Acceptor? {
      assert [e][0] == e;
      AcceptKeepsHistories(w, h, e.accepting, fd);
      assert [e][1..] == [] && w.runtime.routines[fd].history + [] == w.runtime.routines[fd].history;
    } else {
      ClientEventGrowsHistory(w, h, e, fd);
    }
  }

  lemma {:induction false} BatchGrowsHistory<I(!new)>(w: World<I>, h: Settings<I>, events: seq<Event<I>>, fd: nat)
    requires Coherent(w, h) && ReportedBy(w, events) && PossibleAccepts(w, h, events) && NotAccepted(events, fd)
    requires DoBatch(w, h, events).Continues? && fd in DoBatch(w, h, events).world.clients
    ensures fd in w.clients && fd in w.runtime.routines && fd in DoBatch(w, h, events).world.runtime.routines
    ensures DoBatch(w, h, events).world.runtime.routines[fd].history
         == w.runtime.routines[fd].history + Inputs(events, fd)
    decreases |events|
  {
    hide DoEvent, Mirrored, Valid, Waiting, Untouched, InputOf, HonestEscape;
    if events == [] {
      ClientHasRoutine(w, h, fd);
      assert w.runtime.routines[fd].history + [] == w.runtime.routines[fd].history;
    } else {
      var e := events[0];
      if e.ClientReady? {
        assert Names(events, 0, e.fd);
      }
      EventKeepsCoherence(w, h, events);
      BatchGrowsHistory(DoEvent(w, h, e).world, h, events[1..], fd);
      EventGrowsHistory(w, h, e, fd);
      InputsConcat([e], events[1..], fd);
      assert [e] + events[1..] == events;
    }
  }

  lemma NoInputs<I>(fd: int)
    ensures Inputs<I>([], fd) == []
  {}

  lemma WaitGrowsHistory<I(!new)>(w: World<I>, h: Settings<I>, wait: Wait<I>, fd: nat)
    requires Coherent(w, h) && ReportedBy(w, WorkedOff(wait)) && PossibleAccepts(w, h, WorkedOff(wait))
    requires DoWait(w, h, wait).Continues?
    ensures Coherent(DoWait(w, h, wait).world, h)
    ensures NotAccepted(WorkedOff(wait), fd) && fd in DoWait(w, h, wait).world.clients ==>
      && fd in w.clients && fd in w.runtime.routines && fd in DoWait(w, h, wait).world.runtime.routines
      && DoWait(w, h, wait).world.runtime.routines[fd].history
         == w.runtime.routines[fd].history + Inputs(WorkedOff(wait), fd)
  {
    hide Coherent, DoWait, DoBatch, ReportedBy, PossibleAccepts, NotAccepted, Inputs;
    var events := WorkedOff(wait);
    WaitIsItsBatch(w, h, wait);
    BatchKeepsCoherence(w, h, events, |events|);
    assert events[..|events|] == events;
    if NotAccepted(events, fd) && fd in DoWait(w, h, wait).world.clients {
      BatchGrowsHistory(w, h, events, fd);
    }
  }

  /**
    Over every run: the routine of a client that stays has been resumed with exactly
    what the events that name it brought, in their order.
  */
  lemma {:induction false} RunGrowsHistory<I(!new)>(w: World<I>, h: Settings<I>, waits: seq<Wait<I>>, fd: nat)
    requires Coherent(w, h) && PossibleRun(w, h, waits) && NotAccepted(WorkedEvents(waits), fd)
    requires DoLoop(w, h, waits).Continues? && fd in DoLoop(w, h, waits).world.clients
    ensures fd in w.clients && fd in w.runtime.routines && fd in DoLoop(w, h, waits).world.runtime.routines
    ensures DoLoop(w, h, waits).world.runtime.routines[fd].history
         == w.runtime.routines[fd].history + Inputs(WorkedEvents(waits), fd)
    decreases |waits|
  {
    hide Coherent, DoWait, WorkedOff, ReportedBy, PossibleAccepts, NotAccepted, Inputs;
    if waits == [] {
      ClientHasRoutine(w, h, fd);
      NoInputs<I>(fd);
      assert w.runtime.routines[fd].history + [] == w.runtime.routines[fd].history;
    } else {
      WaitGrowsHistory(w, h, waits[0], fd);
      if !waits[0].LastBatch? {
        NotAcceptedParts(WorkedOff(waits[0]), WorkedEvents(waits[1..]), fd);
        RunGrowsHistory(DoWait(w, h, waits[0]).world, h, waits[1..], fd);
        InputsConcat(WorkedOff(waits[0]), WorkedEvents(waits[1..]), fd);
      }
    }
  }

  lemma NotAcceptedWhole<I>(a: seq<Event<I>>, b: seq<Event<I>>, fd: int)
    requires NotAccepted(a, fd) && NotAccepted(b, fd)
    ensures NotAccepted(a + b, fd)
  {}

  lemma NotAcceptedParts<I>(a: seq<Event<I>>, b: seq<Event<I>>, fd: int)
    requires NotAccepted(a + b, fd)
    ensures NotAccepted(a, fd) && NotAccepted(b, fd)
  {
    forall i | 0 <= i < |a| ensures a[i] == (a + b)[i] {}
    forall i | 0 <= i < |b| ensures b[i] == (a + b)[|a| + i] {}
  }

  /** The state in which the loop is entered. */
  lemma StartIsCoherent<I>(h: Settings<I>)
    requires h.acceptor != h.epoll
    ensures
      var runtime: Runtime<I, seq<Mod>, Fault> := Runtime(map[], [], 0, -1, 0);
      Coherent(World(map[], runtime, {h.acceptor, h.epoll}, map[h.acceptor := ACCEPTOR_EVENTS]), h)
  {}
}
