/**
  The coroutine runtime: a map of active routines, a list of finished nodes that
  are used again, and one current routine. A routine body is known by what each of
  its segments does: a function from the inputs of all its segments so far, injected
  exceptions included, to the output and the end of the last one.
*/
module Coroutines {
  import opened Tables

  type Id = nat

  datatype Input<+I, +E> = Input(given: I, injected: Option<E>)

  datatype End<+E> = Yields | Returns | Throws(fault: E)

  datatype Segment<+O, +E> = Segment(output: O, end: End<E>)

  type Body<!I, !O, !E> = seq<Input<I, E>> -> Segment<O, E>

  /**
    A node of the map. `history` is the suspended context: the inputs of the segments
    run on it since `makecontext`; empty while the routine has not been entered.
  */
  datatype Routine<!I, !O, !E> = Routine(
    func: Option<Body<I, O, E>>, stack: nat, finished: bool, history: seq<Input<I, E>>, exception: Option<E>)

  function FreshRoutine<I, O, E>(f: Option<Body<I, O, E>>, stack: nat): Routine<I, O, E> {
    Routine(f, stack, false, [], None)
  }

  /** `Routine::reset`: the node keeps its stack and nothing else of its last use. */
  function Reset<I, O, E>(r: Routine<I, O, E>, f: Option<Body<I, O, E>>): Routine<I, O, E> {
    r.(func := f, finished := false, exception := None, history := [])
  }

  datatype Status = NONE | AGAIN | FINISHED

  datatype Response<+O, +E> =
    | Created
    | Returned(status: Status, output: Option<O>)
    | Threw(fault: E, output: Option<O>)
    | OutOfRange
    | InvalidArgument
    | LogicError(output: Option<O>)
    | Resized

  datatype Op<!I, !O, !E> =
    | Create(id: Id, func: Option<Body<I, O, E>>)
    | Resume(id: Id, given: I)
    | Kill(id: Id, fault: Option<E>, given: I)
    | SetFreelistMax(size: int)

  /** The thread's ordinator; `stacks` counts the stacks allocated so far and so names the next one. */
  datatype Runtime<!I, !O, !E> = Runtime(
    routines: map<Id, Routine<I, O, E>>, finished: seq<Routine<I, O, E>>, current: Id, freelistMax: int, stacks: nat)

  // ------------------------------------------------------------- one segment

  /** From a switch into the routine to the switch back: the entry function, or the return from `yield`. */
  function RunSegment<I, O, E>(r: Routine<I, O, E>, given: I): (Routine<I, O, E>, Option<O>) {
    if r.func.None? || (r.history == [] && r.exception.Some?) then
      (r.(finished := true), None)
    else
      var history := r.history + [Input(given, r.exception)];
      var s := r.func.value(history);
      var next := r.(history := history);
      (match s.end
       case Yields => next
       case Returns => next.(finished := true)
       case Throws(e) => next.(finished := true, exception := Some(e)),
       Some(s.output))
  }

  function KeepNode<I, O, E>(s: Runtime<I, O, E>, r: Routine<I, O, E>): seq<Routine<I, O, E>> {
    if s.freelistMax < 0 || |s.finished| < s.freelistMax then s.finished + [r] else s.finished
  }

  function DoCreate<I, O, E>(s: Runtime<I, O, E>, id: Id, f: Option<Body<I, O, E>>): Runtime<I, O, E> {
    if s.finished == [] then
      var made := s.(stacks := s.stacks + 1);
      if id in s.routines then made else made.(routines := s.routines[id := FreshRoutine(f, s.stacks)])
    else
      var node := s.finished[|s.finished| - 1];
      var taken := s.(finished := s.finished[..|s.finished| - 1]);
      if id in s.routines then taken else taken.(routines := s.routines[id := Reset(node, f)])
  }

  function DoResume<I, O, E>(s: Runtime<I, O, E>, id: Id, given: I): (Runtime<I, O, E>, Response<O, E>) {
    if id == 0 then (s, Returned(NONE, None))
    else if id !in s.routines then (s, OutOfRange)
    else if s.routines[id].finished then (s, Returned(NONE, None))
    else
      var (r, output) := RunSegment(s.routines[id], given);
      if r.finished then
        var left := s.(routines := s.routines - {id}, finished := KeepNode(s, r), current := 0);
        (left, if r.exception.Some? then Threw(r.exception.value, output) else Returned(FINISHED, output))
      else (s.(routines := s.routines[id := r], current := 0), Returned(AGAIN, output))
  }

  function DoKill<I, O, E>(s: Runtime<I, O, E>, id: Id, fault: Option<E>, given: I)
    : (Runtime<I, O, E>, Response<O, E>)
  {
    if id == 0 || fault.None? then (s, InvalidArgument)
    else if id !in s.routines then (s, OutOfRange)
    else if s.routines[id].finished then (s, LogicError(None))
    else
      var marked := s.(routines := s.routines[id := s.routines[id].(exception := fault)]);
      var (after, response) := DoResume(marked, id, given);
      (after, if response.Returned? then LogicError(response.output) else response)
  }

  function DoResize<I, O, E>(s: Runtime<I, O, E>, size: int): Runtime<I, O, E>
    requires size <= |s.finished|
  {
    if size < 0 then s.(freelistMax := size) else s.(freelistMax := size, finished := s.finished[..size])
  }

  predicate Allowed<I, O, E>(s: Runtime<I, O, E>, op: Op<I, O, E>) {
    op.SetFreelistMax? ==> op.size <= |s.finished|
  }

  function Step<I, O, E>(s: Runtime<I, O, E>, op: Op<I, O, E>): (Runtime<I, O, E>, Response<O, E>)
    requires Allowed(s, op)
  {
    match op
    case Create(id, f) => (DoCreate(s, id, f), Created)
    case Resume(id, given) => DoResume(s, id, given)
    case Kill(id, fault, given) => DoKill(s, id, fault, given)
    case SetFreelistMax(size) => (DoResize(s, size), Resized)
  }

  // ---------------------------------------------------------------- the class

  class Ordinator<!I, !O, !E> {
    var routines: map<Id, Routine<I, O, E>>
    var finished: seq<Routine<I, O, E>>
    var current: Id
    var freelistMax: int
    var stacks: nat

    function State(): Runtime<I, O, E>
      reads this
    {
      Runtime(routines, finished, current, freelistMax, stacks)
    }

    constructor ()
      ensures State() == Runtime(map[], [], 0, -1, 0)
    {
      routines, finished, current, freelistMax, stacks := map[], [], 0, -1, 0;
    }

    method CreateRoutine(id: Id, f: Option<Body<I, O, E>>) returns (r: Id)
      modifies this
      ensures r == id && State() == DoCreate(old(State()), id, f)
    {
      if finished == [] {
        var made := FreshRoutine(f, stacks);
        stacks := stacks + 1;
        if id !in routines {
          routines := routines[id := made];
        }
      } else {
        var node := finished[|finished| - 1];
        finished := finished[..|finished| - 1];
        node := Reset(node, f);
        if id !in routines {
          routines := routines[id := node];
        }
      }
      return id;
    }

    /** `swapcontext` into the routine, its segment, and the switch back to main. */
    method SwapInto(id: Id, given: I) returns (output: Option<O>)
      requires id in routines
      modifies this
      ensures var (r, o) := RunSegment(old(routines)[id], given);
        output == o && State() == old(State()).(routines := old(routines)[id := r], current := 0)
    {
      current := id;
      var r := routines[current];
      output := None;
      if r.func.Some? && (r.history != [] || r.exception.None?) {
        var history := r.history + [Input(given, r.exception)];
        var s := r.func.value(history);
        r := r.(history := history);
        output := Some(s.output);
        match s.end {
          case Yields =>
            routines := routines[id := r];
            current := 0;
            return;
          case Returns =>
          case Throws(e) => r := r.(exception := Some(e));
        }
      }
      routines := routines[id := r.(finished := true)];
      current := 0;
    }

    method ResumeRoutine(id: Id, given: I) returns (response: Response<O, E>)
      modifies this
      ensures (State(), response) == DoResume(old(State()), id, given)
    {
      if id == 0 {
        return Returned(NONE, None);
      }
      if id !in routines {
        return OutOfRange;
      }
      if routines[id].finished {
        return Returned(NONE, None);
      }
      ghost var was := routines;
      var output := SwapInto(id, given);
      if routines[id].finished {
        var node := routines[id];
        routines := routines - {id};
        assert routines == was - {id};
        if freelistMax < 0 || |finished| < freelistMax {
          finished := finished + [node];
        }
        return if node.exception.Some? then Threw(node.exception.value, output) else Returned(FINISHED, output);
      }
      return Returned(AGAIN, output);
    }

    method KillRoutine(id: Id, fault: Option<E>, given: I) returns (response: Response<O, E>)
      modifies this
      ensures (State(), response) == DoKill(old(State()), id, fault, given)
    {
      if id == 0 || fault.None? {
        return InvalidArgument;
      }
      if id !in routines {
        return OutOfRange;
      }
      if routines[id].finished {
        return LogicError(None);
      }
      routines := routines[id := routines[id].(exception := fault)];
      response := ResumeRoutine(id, given);
      if response.Returned? {
        response := LogicError(response.output);
      }
    }

    method SetFreelistMaxSize(size: int)
      requires size <= |finished|
      modifies this
      ensures State() == DoResize(old(State()), size)
    {
      freelistMax := size;
      if size >= 0 {
        finished := finished[..size];
      }
    }
  }
}
