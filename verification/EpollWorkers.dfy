/**
  The epoll worker: a second map, of clients, kept in step with the coroutine map, the
  kernel's interest set and the open descriptors. The environment decides what epoll
  reports, what accept and epoll_ctl answer, and what a routine's segment sees.
*/
module EpollWorkers {
  import opened Tables
  import opened Coroutines
  import opened CoroutineRuns
  import opened Connections
  import opened Descriptors

  const EPOLLIN: int := 0x001
  const EPOLLOUT: int := 0x004
  const EPOLLEXCLUSIVE: int := 0x1000_0000
  const ACCEPTOR_EVENTS: int := EPOLLEXCLUSIVE + EPOLLIN

  /** A call of `change_event` made by a segment, and whether the kernel was willing. */
  datatype Mod = Mod(events: int, willing: bool)

  type Handler<!I> = Body<I, seq<Mod>, Fault>

  /** The connection's descriptor and the events it is watched for. */
  datatype Client = Client(fd: nat, events: int)

  /**
    The stop flag, seen before the call, or what `accept` answers, and whether `fcntl`,
    `getsockname` and `epoll_ctl` then work on the new descriptor.
  */
  datatype Accepting =
    | StoppedBefore | AcceptWouldBlock | AcceptInterrupted | AcceptFailed
    | Accepted(fd: nat, nonblocking: bool, named: bool, watchable: bool)

  datatype Event<+I> = Acceptor(accepting: Accepting) | ClientReady(fd: nat, hangup: bool, given: I)

  /** What one wait brings; in the last batch the stop flag is seen after `worked` of its events. */
  datatype Wait<+I> =
    | WaitInterrupted | WaitFailed
    | Batch(events: seq<Event<I>>) | LastBatch(events: seq<Event<I>>, worked: nat)

  datatype World<!I> = World(
    clients: map<int, Client>, runtime: Runtime<I, seq<Mod>, Fault>, open: set<int>, interest: map<int, int>)

  /** Why an exception leaves the event loop and ends the worker. */
  datatype Escape =
    | WaitError | AcceptError | IoServiceError
    | HandlerFault(fault: Fault) | HangupFault(fault: Fault) | SurvivedKill
    | MissingRoutine | MissingClient

  datatype Outcome<!I> = Continues(world: World<I>) | Escaped(world: World<I>, why: Escape)

  datatype Settings<!I> = Settings(acceptor: int, epoll: int, handler: Handler<I>)

  predicate IsIoFault(f: Fault) {
    f == EofError || f == ReadError || f == WriteError || f == ClosedEndpointError
  }

  // ------------------------------------------------------------- what one event does

  /** One `change_event`: the kernel's record and the client's change together. */
  function Rewatch<I>(w: World<I>, fd: int, events: int): World<I>
    requires fd in w.clients
    ensures fd in Rewatch(w, fd, events).clients
  {
    var c := w.clients[fd];
    w.(clients := w.clients[fd := c.(events := events)], interest := w.interest[c.fd := events])
  }

  /** The `change_event` calls of one segment, through the reference the routine holds to its client. */
  function ApplyMods<I>(w: World<I>, fd: int, mods: seq<Mod>): World<I>
    requires fd in w.clients
    ensures fd in ApplyMods(w, fd, mods).clients
    decreases |mods|
  {
    if mods == [] then w
    else if mods[0].willing && w.clients[fd].fd in w.interest then
      ApplyMods(Rewatch(w, fd, mods[0].events), fd, mods[1..])
    else ApplyMods(w, fd, mods[1..])
  }

  function DoClose<I>(w: World<I>, fd: int): Outcome<I> {
    if fd !in w.clients then Escaped(w, MissingClient)
    else
      var c := w.clients[fd];
      Continues(w.(clients := w.clients - {fd}, open := w.open - {c.fd}, interest := w.interest - {c.fd}))
  }

  /** The segment a resume or kill ran reads its client first; without one it throws or follows a dangling reference. */
  function AfterSegment<I>(
    w: World<I>, runtime: Runtime<I, seq<Mod>, Fault>, fd: int, output: Option<seq<Mod>>): Outcome<I>
  {
    var next := w.(runtime := runtime);
    if output.None? then Continues(next)
    else if fd !in w.clients then Escaped(next, MissingClient)
    else Continues(ApplyMods(next, fd, output.value))
  }

  function OutputOf<O, E>(r: Response<O, E>): Option<O> {
    if r.Returned? || r.Threw? || r.LogicError? then r.output else None
  }

  function DoHangup<I>(w: World<I>, fd: nat, given: I): Outcome<I>
  {
    var (runtime, response) := DoKill(w.runtime, fd, Some(EpollFault), given);
    var after := AfterSegment(w, runtime, fd, OutputOf(response));
    if after.Escaped? then after
    else
      match response
      case Threw(f, _) => if f == EpollFault then DoClose(after.world, fd) else Escaped(after.world, HangupFault(f))
      case OutOfRange => Escaped(after.world, MissingRoutine)
      case _ => Escaped(after.world, SurvivedKill)
  }

  function DoResumeClient<I>(w: World<I>, fd: nat, given: I): Outcome<I>
  {
    var (runtime, response) := DoResume(w.runtime, fd, given);
    var after := AfterSegment(w, runtime, fd, OutputOf(response));
    if after.Escaped? then after
    else
      match response
      case Returned(status, _) => if status == AGAIN then after else DoClose(after.world, fd)
      case Threw(f, _) => if IsIoFault(f) then DoClose(after.world, fd) else Escaped(after.world, HandlerFault(f))
      case _ => Escaped(after.world, MissingRoutine)
  }

  function DoAccept<I>(w: World<I>, h: Settings<I>, a: Accepting): Outcome<I>
  {
    match a
    case StoppedBefore => Continues(w)
    case AcceptWouldBlock => Continues(w)
    case AcceptInterrupted => Continues(w)
    case AcceptFailed => Escaped(w, AcceptError)
    case Accepted(fd, nonblocking, named, watchable) =>
      if !nonblocking || !named then
        Escaped(w.(open := w.open - {fd}, interest := w.interest - {fd}),
                if nonblocking then IoServiceError else AcceptError)
      else
        var runtime := DoCreate(w.runtime, fd, Some(h.handler));
        if fd in w.clients then
          var lost := {fd, w.clients[fd].fd};
          Continues(w.(clients := w.clients - {fd}, runtime := runtime,
                       open := w.open - lost, interest := w.interest - lost))
        else if watchable && fd !in w.interest then
          Continues(w.(clients := w.clients[fd := Client(fd, EPOLLIN)], runtime := runtime,
                       open := w.open + {fd}, interest := w.interest[fd := EPOLLIN]))
        else
          Continues(w.(clients := w.clients - {fd}, runtime := runtime,
                       open := w.open - {fd}, interest := w.interest - {fd}))
  }

  function DoEvent<I>(w: World<I>, h: Settings<I>, e: Event<I>): Outcome<I>
  {
    match e
    case Acceptor(a) => DoAccept(w, h, a)
    case ClientReady(fd, hangup, given) => if hangup then DoHangup(w, fd, given) else DoResumeClient(w, fd, given)
  }

  function DoBatch<I>(w: World<I>, h: Settings<I>, events: seq<Event<I>>): Outcome<I>
    decreases |events|
  {
    if events == [] then Continues(w)
    else
      var first := DoEvent(w, h, events[0]);
      if first.Escaped? then first else DoBatch(first.world, h, events[1..])
  }

  function DoWait<I>(w: World<I>, h: Settings<I>, wait: Wait<I>): Outcome<I>
  {
    match wait
    case WaitInterrupted => Continues(w)
    case WaitFailed => Escaped(w, WaitError)
    case _ => DoBatch(w, h, WorkedOff(wait))
  }

  /** The events of a wait that are worked off. */
  function WorkedOff<I>(wait: Wait<I>): seq<Event<I>> {
    match wait
    case Batch(events) => events
    case LastBatch(events, worked) => if worked < |events| then events[..worked] else events
    case _ => []
  }

  function DoLoop<I>(w: World<I>, h: Settings<I>, waits: seq<Wait<I>>): Outcome<I>
    decreases |waits|
  {
    if waits == [] then Continues(w)
    else
      var first := DoWait(w, h, waits[0]);
      if first.Escaped? || waits[0].LastBatch? then first else DoLoop(first.world, h, waits[1..])
  }

  // ---------------------------------------------------------------- the class

  class EpollWorker<!I> {
    const settings: Settings<I>
    const ordinator: Ordinator<I, seq<Mod>, Fault>
    const kernel: Kernel
    var clients: map<int, Client>

    function State(): World<I>
      reads this, ordinator, kernel
    {
      World(clients, ordinator.State(), kernel.open, kernel.interest)
    }

    constructor (settings: Settings<I>, ordinator: Ordinator<I, seq<Mod>, Fault>, kernel: Kernel)
      ensures this.settings == settings && this.ordinator == ordinator && this.kernel == kernel
      ensures State() == World(map[], ordinator.State(), kernel.open, kernel.interest)
    {
      this.settings, this.ordinator, this.kernel := settings, ordinator, kernel;
      clients := map[];
    }

    /**
      `add_to_event_loop`: on failure the caller has its connection back. Under a key
      that is taken `emplace` keeps the old client and drops the new connection; the
      registration of its closed descriptor then fails.
    */
    method AddToEventLoop(connection: Descriptor, events: int, willing: bool) returns (added: bool)
      requires connection.fd >= 0 && connection.fd in kernel.open
      modifies `clients, connection, kernel
      ensures added == (willing && old(connection.fd) !in old(kernel.interest) && old(connection.fd) !in old(clients))
      ensures
        var fd := old(connection.fd);
        if added then
          && connection.fd == -1
          && clients == old(clients)[fd := Client(fd, events)]
          && kernel.open == old(kernel.open) && kernel.interest == old(kernel.interest)[fd := events]
        else
          && connection.fd == (if fd in old(clients) then old(clients)[fd].fd else fd)
          && clients == old(clients) - {fd}
          && kernel.open == (if fd in old(clients) then old(kernel.open) - {fd} else old(kernel.open))
          && kernel.interest == (if fd in old(clients) then old(kernel.interest) - {fd} else old(kernel.interest))
    {
      var fd := connection.fd;
      var moved := connection.Extract();
      if fd in clients {
        var dropped := new Descriptor(moved);
        dropped.Close(kernel);
      } else {
        clients := clients[fd := Client(moved, events)];
      }
      added := kernel.EpollAdd(fd, events, willing);
      if !added {
        connection.fd := clients[fd].fd;
        clients := clients - {fd};
      }
    }

    /** `change_event`, called by a segment on the client it holds. */
    method ChangeEvent(fd: int, m: Mod) returns (changed: bool)
      requires fd in clients
      modifies `clients, kernel`interest
      ensures changed == (m.willing && old(clients)[fd].fd in old(kernel.interest))
      ensures fd in clients && State() == ApplyMods(old(State()), fd, [m])
    {
      var c := clients[fd];
      changed := kernel.EpollMod(c.fd, m.events, m.willing);
      if changed {
        clients := clients[fd := c.(events := m.events)];
      }
      assert [m][1..] == [];
    }

    method RunMods(fd: int, mods: seq<Mod>)
      requires fd in clients
      modifies `clients, kernel`interest
      ensures State() == ApplyMods(old(State()), fd, mods)
    {
      for i := 0 to |mods|
        invariant fd in clients
        invariant ApplyMods(State(), fd, mods[i..]) == ApplyMods(old(State()), fd, mods)
        invariant ordinator.State() == old(ordinator.State()) && kernel.open == old(kernel.open)
      {
        ghost var before := State();
        var changed := ChangeEvent(fd, mods[i]);
        ApplyMore(before, fd, mods[i..]);
        assert mods[i..][1..] == mods[i + 1..];
      }
    }

    /** `close_connection`: the erased client's destructor closes its descriptor. */
    method CloseConnection(fd: int) returns (escape: Option<Escape>)
      modifies `clients, kernel
      ensures DoClose(old(State()), fd) == Finish(State(), escape)
    {
      if fd !in clients {
        return Some(MissingClient);
      }
      var erased := new Descriptor(clients[fd].fd);
      clients := clients - {fd};
      erased.Close(kernel);
      return None;
    }

    /** What the routine did to its client during the segment that the runtime has just run. */
    method SegmentEffects(fd: int, output: Option<seq<Mod>>, ghost was: World<I>) returns (escape: Option<Escape>)
      requires State() == was.(runtime := ordinator.State())
      modifies `clients, kernel`interest
      ensures AfterSegment(was, ordinator.State(), fd, output) == Finish(State(), escape)
    {
      if output.None? {
        return None;
      }
      if fd !in clients {
        return Some(MissingClient);
      }
      RunMods(fd, output.value);
      return None;
    }

    /** `handle_client`. */
    method HandleClient(fd: nat, hangup: bool, given: I) returns (escape: Option<Escape>)
      modifies this, ordinator, kernel
      ensures Finish(State(), escape) ==
        if hangup then DoHangup(old(State()), fd, given) else DoResumeClient(old(State()), fd, given)
    {
      ghost var was := State();
      if hangup {
        var response := ordinator.KillRoutine(fd, Some(EpollFault), given);
        escape := SegmentEffects(fd, OutputOf(response), was);
        if escape.Some? {
          return;
        }
        match response
        case Threw(f, _) =>
          if f != EpollFault {
            return Some(HangupFault(f));
          }
          escape := CloseConnection(fd);
          return;
        case OutOfRange => return Some(MissingRoutine);
        case _ => return Some(SurvivedKill);
      }
      var response := ordinator.ResumeRoutine(fd, given);
      escape := SegmentEffects(fd, OutputOf(response), was);
      if escape.Some? {
        return;
      }
      match response
      case Returned(status, _) =>
        if status != AGAIN {
          escape := CloseConnection(fd);
        }
      case Threw(f, _) =>
        if !IsIoFault(f) {
          return Some(HandlerFault(f));
        }
        escape := CloseConnection(fd);
      case _ => return Some(MissingRoutine);
    }

    /** One turn of `accept_connections`; the worker asks for one acceptance at a time. */
    method AcceptConnection(a: Accepting) returns (escape: Option<Escape>)
      modifies this, ordinator, kernel
      ensures Finish(State(), escape) == DoAccept(old(State()), settings, a)
    {
      match a
      case StoppedBefore => return None;
      case AcceptWouldBlock => return None;
      case AcceptInterrupted => return None;
      case AcceptFailed => return Some(AcceptError);
      case Accepted(fd, nonblocking, named, watchable) =>
        kernel.open := kernel.open + {fd};
        var clientFd := new Descriptor(fd);
        if !nonblocking || !named {
          clientFd.Close(kernel);
          return Some(if nonblocking then IoServiceError else AcceptError);
        }
        var added := AddToEventLoop(clientFd, EPOLLIN, watchable);
        var id := ordinator.CreateRoutine(fd, Some(settings.handler));
        clientFd.Close(kernel);
        return None;
    }

    /** `event_loop`, over what each wait brings. */
    method EventLoop(waits: seq<Wait<I>>) returns (escape: Option<Escape>)
      modifies this, ordinator, kernel
      ensures Finish(State(), escape) == DoLoop(old(State()), settings, waits)
    {
      escape := None;
      for i := 0 to |waits|
        invariant DoLoop(State(), settings, waits[i..]) == DoLoop(old(State()), settings, waits)
        invariant escape == None
      {
        assert waits[i..][0] == waits[i] && waits[i..][1..] == waits[i + 1..];
        match waits[i] {
          case WaitInterrupted =>
          case WaitFailed => return Some(WaitError);
          case _ => escape := WorkOff(WorkedOff(waits[i]));
        }
        if escape.Some? || waits[i].LastBatch? {
          return;
        }
      }
      assert waits[|waits|..] == [];
      return None;
    }

    /** The inner loop of `event_loop`. */
    method WorkOff(events: seq<Event<I>>) returns (escape: Option<Escape>)
      modifies this, ordinator, kernel
      ensures Finish(State(), escape) == DoBatch(old(State()), settings, events)
    {
      escape := None;
      for j := 0 to |events|
        invariant DoBatch(State(), settings, events[j..]) == DoBatch(old(State()), settings, events)
        invariant escape == None
      {
        assert events[j..][0] == events[j] && events[j..][1..] == events[j + 1..];
        match events[j] {
          case Acceptor(a) => escape := AcceptConnection(a);
          case ClientReady(fd, hangup, given) => escape := HandleClient(fd, hangup, given);
        }
        if escape.Some? {
          return;
        }
      }
      assert events[|events|..] == [];
    }
  }

  function Finish<I>(w: World<I>, escape: Option<Escape>): Outcome<I> {
    match escape case None => Continues(w) case Some(e) => Escaped(w, e)
  }

  lemma ApplyMore<I>(w: World<I>, fd: int, mods: seq<Mod>)
    requires fd in w.clients && mods != []
    ensures ApplyMods(ApplyMods(w, fd, [mods[0]]), fd, mods[1..]) == ApplyMods(w, fd, mods)
  {
    assert [mods[0]][1..] == [];
  }
}
