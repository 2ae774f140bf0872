/** What holds over whole runs of the coroutine runtime. */
module CoroutineRuns {
  import opened Tables
  import opened Coroutines

  // ------------------------------------------- one routine, without a runtime around it

  /** An active routine as its user can tell it: no node, no stack, no list. */
  datatype View<!I, !O, !E> = View(func: Option<Body<I, O, E>>, history: seq<Input<I, E>>, exception: Option<E>)

  function ViewOf<I, O, E>(r: Routine<I, O, E>): View<I, O, E> {
    View(r.func, r.history, r.exception)
  }

  function ViewAt<I, O, E>(s: Runtime<I, O, E>, id: Id): Option<View<I, O, E>> {
    if id in s.routines then Some(ViewOf(s.routines[id])) else None
  }

  function Target<I, O, E>(op: Op<I, O, E>): Option<Id> {
    match op
    case Create(id, _) => Some(id)
    case Resume(id, _) => Some(id)
    case Kill(id, _, _) => Some(id)
    case SetFreelistMax(_) => None
  }

  function LocalResume<I, O, E>(id: Id, v: View<I, O, E>, given: I): (Option<View<I, O, E>>, Response<O, E>) {
    if v.func.None? || (v.history == [] && v.exception.Some?) then
      (None, if v.exception.Some? then Threw(v.exception.value, None) else Returned(FINISHED, None))
    else
      var history := v.history + [Input(given, v.exception)];
      var s := v.func.value(history);
      match s.end
      case Yields => (Some(v.(history := history)), Returned(AGAIN, Some(s.output)))
      case Returns =>
        (None,
         if v.exception.Some? then Threw(v.exception.value, Some(s.output)) else Returned(FINISHED, Some(s.output)))
      case Throws(e) => (None, Threw(e, Some(s.output)))
  }

  /**
    The reference: one id by itself. Every creation of an inactive id makes a new
    routine; a creation of an active one changes nothing.
  */
  function LocalStep<I, O, E>(v: Option<View<I, O, E>>, op: Op<I, O, E>): (Option<View<I, O, E>>, Response<O, E>) {
    match op
    case Create(_, f) => (if v.Some? then v else Some(View(f, [], None)), Created)
    case Resume(id, given) =>
      if id == 0 then (v, Returned(NONE, None))
      else if v.None? then (v, OutOfRange)
      else LocalResume(id, v.value, given)
    case Kill(id, fault, given) =>
      if id == 0 || fault.None? then (v, InvalidArgument)
      else if v.None? then (v, OutOfRange)
      else
        var (after, response) := LocalResume(id, v.value.(exception := fault), given);
        (after, if response.Returned? then LogicError(response.output) else response)
    case SetFreelistMax(_) => (v, Resized)
  }

  // ------------------------------------------------------------------ invariant

  ghost predicate DistinctStacks<I, O, E>(s: Runtime<I, O, E>) {
    && (forall i, j :: i in s.routines && j in s.routines && i != j ==> s.routines[i].stack != s.routines[j].stack)
    && (forall n, m :: 0 <= n < m < |s.finished| ==> s.finished[n].stack != s.finished[m].stack)
    && (forall i, n :: i in s.routines && 0 <= n < |s.finished| ==> s.routines[i].stack != s.finished[n].stack)
    && (forall i :: i in s.routines ==> s.routines[i].stack < s.stacks)
    && (forall n :: 0 <= n < |s.finished| ==> s.finished[n].stack < s.stacks)
  }

  /**
    Between calls main is running, no active routine is finished, no two nodes share a stack,
    and the list keeps its bound.
  */
  ghost predicate Valid<I, O, E>(s: Runtime<I, O, E>) {
    && s.current == 0
    && (forall id :: id in s.routines ==> !s.routines[id].finished)
    && DistinctStacks(s)
    && (s.freelistMax >= 0 ==> |s.finished| <= s.freelistMax)
  }

  lemma StepKeepsValid<I, O, E>(s: Runtime<I, O, E>, op: Op<I, O, E>)
    requires Valid(s) && Allowed(s, op)
    ensures Valid(Step(s, op).0)
  {
    match op
    case Create(id, f) => CreateKeepsStacks(s, id, f);
    case Resume(id, given) => ResumeKeepsStacks(s, id, given);
    case Kill(id, fault, given) =>
      if id != 0 && fault.Some? && id in s.routines {
        var marked := s.(routines := s.routines[id := s.routines[id].(exception := fault)]);
        assert Valid(marked);
        ResumeKeepsStacks(marked, id, given);
      }
    case SetFreelistMax(_) =>
  }

  lemma CreateKeepsStacks<I, O, E>(s: Runtime<I, O, E>, id: Id, f: Option<Body<I, O, E>>)
    requires Valid(s)
    ensures Valid(DoCreate(s, id, f))
  {}

  lemma ResumeKeepsStacks<I, O, E>(s: Runtime<I, O, E>, id: Id, given: I)
    requires Valid(s)
    ensures Valid(DoResume(s, id, given).0)
  {
    if id != 0 && id in s.routines {
      var r := RunSegment(s.routines[id], given).0;
      assert r.stack == s.routines[id].stack;
    }
  }

  // --------------------------------------- a step against the reference, and the other ids

  /** A step treats its own routine as the reference does, recycled node or not, and touches no other. */
  lemma StepIsLocal<I, O, E>(s: Runtime<I, O, E>, op: Op<I, O, E>)
    requires Valid(s) && Allowed(s, op)
    ensures forall id: Id :: Target(op) == Some(id) ==>
      LocalStep(ViewAt(s, id), op) == (ViewAt(Step(s, op).0, id), Step(s, op).1)
    ensures forall id: Id :: Target(op) != Some(id) ==> ViewAt(Step(s, op).0, id) == ViewAt(s, id)
  {
    if op.Kill? && op.id != 0 && op.fault.Some? && op.id in s.routines {
      var marked := s.(routines := s.routines[op.id := s.routines[op.id].(exception := op.fault)]);
      ResumeIsLocal(marked, op.id, op.given);
    } else if op.Resume? && op.id != 0 && op.id in s.routines {
      ResumeIsLocal(s, op.id, op.given);
    }
  }

  lemma ResumeIsLocal<I, O, E>(s: Runtime<I, O, E>, id: Id, given: I)
    requires id in s.routines && !s.routines[id].finished && id != 0
    ensures
      var (next, response) := DoResume(s, id, given);
      LocalResume(id, ViewOf(s.routines[id]), given) == (ViewAt(next, id), response)
    ensures forall other: Id :: other != id ==> ViewAt(DoResume(s, id, given).0, other) == ViewAt(s, other)
  {}

  // ------------------------------------------------------------------ whole runs

  /** Every operation of the run is allowed where it stands. */
  ghost predicate RunAllowed<I, O, E>(s: Runtime<I, O, E>, ops: seq<Op<I, O, E>>)
    decreases |ops|
  {
    ops == [] || (Allowed(s, ops[0]) && RunAllowed(Step(s, ops[0]).0, ops[1..]))
  }

  ghost function Run<I, O, E>(s: Runtime<I, O, E>, ops: seq<Op<I, O, E>>): (Runtime<I, O, E>, seq<Response<O, E>>)
    requires RunAllowed(s, ops)
    decreases |ops|
  {
    if ops == [] then (s, [])
    else
      var (next, response) := Step(s, ops[0]);
      var (last, responses) := Run(next, ops[1..]);
      (last, [response] + responses)
  }

  ghost function LocalRun<I, O, E>(v: Option<View<I, O, E>>, ops: seq<Op<I, O, E>>)
    : (Option<View<I, O, E>>, seq<Response<O, E>>)
    decreases |ops|
  {
    if ops == [] then (v, [])
    else
      var (next, response) := LocalStep(v, ops[0]);
      var (last, responses) := LocalRun(next, ops[1..]);
      (last, [response] + responses)
  }

  /** The operations of a run that name one id. */
  ghost function OpsOn<I, O, E>(ops: seq<Op<I, O, E>>, id: Id): seq<Op<I, O, E>> {
    if ops == [] then []
    else if Target(ops[0]) == Some(id) then [ops[0]] + OpsOn(ops[1..], id)
    else OpsOn(ops[1..], id)
  }

  /** What a run answered to them. */
  ghost function AnswersOn<I, O, E>(ops: seq<Op<I, O, E>>, responses: seq<Response<O, E>>, id: Id): seq<Response<O, E>>
    requires |ops| == |responses|
  {
    if ops == [] then []
    else if Target(ops[0]) == Some(id) then [responses[0]] + AnswersOn(ops[1..], responses[1..], id)
    else AnswersOn(ops[1..], responses[1..], id)
  }

  lemma {:induction false} RunKeepsValid<I, O, E>(s: Runtime<I, O, E>, ops: seq<Op<I, O, E>>)
    requires Valid(s) && RunAllowed(s, ops)
    ensures Valid(Run(s, ops).0)
    ensures |Run(s, ops).1| == |ops|
    decreases |ops|
  {
    if ops != [] {
      StepKeepsValid(s, ops[0]);
      RunKeepsValid(Step(s, ops[0]).0, ops[1..]);
    }
  }

  /**
    Non-interference. In every run, over any number of ids, the answers to the
    operations on one id, and the routine they leave, are those of that id run alone,
    in a world where every creation builds a new routine.
  */
  lemma {:induction false} RoutinesDoNotInterfere<I, O, E>(s: Runtime<I, O, E>, ops: seq<Op<I, O, E>>, id: Id)
    requires Valid(s) && RunAllowed(s, ops)
    ensures |Run(s, ops).1| == |ops|
    ensures LocalRun(ViewAt(s, id), OpsOn(ops, id)) == (ViewAt(Run(s, ops).0, id), AnswersOn(ops, Run(s, ops).1, id))
    decreases |ops|
  {
    if ops != [] {
      var next := Step(s, ops[0]).0;
      StepKeepsValid(s, ops[0]);
      StepIsLocal(s, ops[0]);
      RoutinesDoNotInterfere(next, ops[1..], id);
      assert Run(s, ops).1[1..] == Run(next, ops[1..]).1;
      if Target(ops[0]) == Some(id) {
        assert OpsOn(ops, id)[1..] == OpsOn(ops[1..], id);
      }
    }
  }

  // ------------------------------------------------------------ recycled against fresh

  /** The runtime that never keeps a node: every effective creation builds a routine. */
  ghost function FreshStep<I, O, E>(m: map<Id, View<I, O, E>>, op: Op<I, O, E>)
    : (map<Id, View<I, O, E>>, Response<O, E>)
  {
    match Target(op)
    case None => (m, Resized)
    case Some(id) =>
      var (after, response) := LocalStep(if id in m then Some(m[id]) else None, op);
      (match after case Some(v) => m[id := v] case None => m - {id}, response)
  }

  ghost function FreshRun<I, O, E>(m: map<Id, View<I, O, E>>, ops: seq<Op<I, O, E>>)
    : (map<Id, View<I, O, E>>, seq<Response<O, E>>)
    decreases |ops|
  {
    if ops == [] then (m, [])
    else
      var (next, response) := FreshStep(m, ops[0]);
      var (last, responses) := FreshRun(next, ops[1..]);
      (last, [response] + responses)
  }

  ghost function Views<I, O, E>(s: Runtime<I, O, E>): map<Id, View<I, O, E>> {
    map id | id in s.routines :: ViewOf(s.routines[id])
  }

  lemma StepRefinesFresh<I, O, E>(s: Runtime<I, O, E>, op: Op<I, O, E>)
    requires Valid(s) && Allowed(s, op)
    ensures FreshStep(Views(s), op) == (Views(Step(s, op).0), Step(s, op).1)
  {
    StepIsLocal(s, op);
    var next := Step(s, op).0;
    var rebuilt := FreshStep(Views(s), op).0;
    forall id ensures id in rebuilt <==> id in Views(next) {
      assert ViewAt(next, id).Some? <==> id in next.routines;
      assert ViewAt(s, id).Some? <==> id in s.routines;
    }
    forall id | id in rebuilt ensures rebuilt[id] == Views(next)[id] {
      assert ViewAt(next, id) == Some(Views(next)[id]);
    }
    assert rebuilt == Views(next);
  }

  /**
    Using finished nodes again cannot be observed: over every run, creations of active
    ids and changes of the list's bound included, the answers and the active routines
    are those of the runtime that builds a fresh routine each time.
  */
  lemma {:induction false} RecyclingIsInvisible<I, O, E>(s: Runtime<I, O, E>, ops: seq<Op<I, O, E>>)
    requires Valid(s) && RunAllowed(s, ops)
    ensures FreshRun(Views(s), ops) == (Views(Run(s, ops).0), Run(s, ops).1)
    decreases |ops|
  {
    if ops != [] {
      StepKeepsValid(s, ops[0]);
      StepRefinesFresh(s, ops[0]);
      RecyclingIsInvisible(Step(s, ops[0]).0, ops[1..]);
    }
  }

  // ------------------------------------------------------------- what becomes of the nodes

  /**
    A routine that ends leaves its node at the end of the list if there is room there, and
    no other operation but a creation or a new bound touches the list. A creation of an
    inactive id takes the last node of the list, and allocates a stack only if there is none.
  */
  lemma NodesAreReused<I, O, E>(s: Runtime<I, O, E>, op: Op<I, O, E>)
    requires Valid(s) && Allowed(s, op)
    ensures
      var next := Step(s, op).0;
      match op
      case Create(id, _) =>
        if s.finished == [] then
          next.finished == [] && next.stacks == s.stacks + 1
          && (id !in s.routines ==> id in next.routines && next.routines[id].stack == s.stacks)
        else
          var n := |s.finished| - 1;
          next.finished == s.finished[..n] && next.stacks == s.stacks
          && (id !in s.routines ==> id in next.routines && next.routines[id].stack == s.finished[n].stack)
      case SetFreelistMax(size) =>
        && next.freelistMax == size && next.routines == s.routines && next.stacks == s.stacks
        && next.finished <= s.finished && |next.finished| == if size < 0 then |s.finished| else size
      case _ =>
        var id := op.id;
        && next.stacks == s.stacks
        && if id in s.routines && id !in next.routines && (s.freelistMax < 0 || |s.finished| < s.freelistMax) then
             && |next.finished| == |s.finished| + 1 && s.finished <= next.finished
             && next.finished[|s.finished|].stack == s.routines[id].stack
           else next.finished == s.finished
  {
    if op.Kill? && op.id != 0 && op.fault.Some? && op.id in s.routines {
      var marked := s.(routines := s.routines[op.id := s.routines[op.id].(exception := op.fault)]);
      EndedNodeIsKept(marked, op.id, op.given);
    } else if op.Resume? && op.id != 0 && op.id in s.routines {
      EndedNodeIsKept(s, op.id, op.given);
    }
  }

  lemma EndedNodeIsKept<I, O, E>(s: Runtime<I, O, E>, id: Id, given: I)
    requires id in s.routines && !s.routines[id].finished && id != 0
    ensures
      var next := DoResume(s, id, given).0;
      && next.stacks == s.stacks && next.freelistMax == s.freelistMax
      && (next.routines.Keys == s.routines.Keys || next.routines.Keys == s.routines.Keys - {id})
      && if id !in next.routines && (s.freelistMax < 0 || |s.finished| < s.freelistMax) then
           && |next.finished| == |s.finished| + 1 && s.finished <= next.finished
           && next.finished[|s.finished|].stack == s.routines[id].stack
         else next.finished == s.finished
  {}

  /** The list has no bound, and every stack that was allocated belongs to an active routine or a kept node. */
  ghost predicate KeepsAll<I, O, E>(s: Runtime<I, O, E>) {
    s.freelistMax < 0 && |s.routines| + |s.finished| == s.stacks
  }

  /** No bound is set in these operations, and no active id is created again. */
  ghost predicate CreatesAnew<I, O, E>(s: Runtime<I, O, E>, ops: seq<Op<I, O, E>>)
    requires RunAllowed(s, ops)
    decreases |ops|
  {
    ops == [] ||
    (&& !ops[0].SetFreelistMax? && (ops[0].Create? ==> ops[0].id !in s.routines)
     && CreatesAnew(Step(s, ops[0]).0, ops[1..]))
  }

  /** The most routines that are active at once. */
  ghost function MostActive<I, O, E>(s: Runtime<I, O, E>, ops: seq<Op<I, O, E>>): nat
    requires RunAllowed(s, ops)
    decreases |ops|
  {
    if ops == [] then |s.routines|
    else
      var later := MostActive(Step(s, ops[0]).0, ops[1..]);
      if |s.routines| > later then |s.routines| else later
  }

  lemma StepKeepsNodes<I, O, E>(s: Runtime<I, O, E>, op: Op<I, O, E>)
    requires Valid(s) && KeepsAll(s) && Allowed(s, op)
    requires !op.SetFreelistMax? && (op.Create? ==> op.id !in s.routines)
    ensures
      var next := Step(s, op).0;
      KeepsAll(next) && next.stacks == if |next.routines| > s.stacks then |next.routines| else s.stacks
  {
    var next := Step(s, op).0;
    NodesAreReused(s, op);
    match op
    case Create(id, _) =>
      assert next.routines.Keys == s.routines.Keys + {id};
      assert |next.routines.Keys| == |s.routines.Keys| + 1;
    case Resume(id, given) => EndingShrinks(s, next, id, op);
    case Kill(id, _, given) => EndingShrinks(s, next, id, op);
  }

  lemma EndingShrinks<I, O, E>(s: Runtime<I, O, E>, next: Runtime<I, O, E>, id: Id, op: Op<I, O, E>)
    requires Valid(s) && (op.Resume? || op.Kill?) && op.id == id && next == Step(s, op).0
    ensures next.freelistMax == s.freelistMax
    ensures |next.routines| == if id in s.routines && id !in next.routines then |s.routines| - 1 else |s.routines|
  {
    hide DoResume, DistinctStacks;
    OnlyTheTargetLeaves(s, op);
    assert |next.routines| == |next.routines.Keys| && |s.routines| == |s.routines.Keys|;
  }

  lemma OnlyTheTargetLeaves<I, O, E>(s: Runtime<I, O, E>, op: Op<I, O, E>)
    requires Valid(s) && (op.Resume? || op.Kill?)
    ensures
      var next := Step(s, op).0;
      && next.freelistMax == s.freelistMax
      && (next.routines.Keys == s.routines.Keys || next.routines.Keys == s.routines.Keys - {op.id})
  {
    if op.Kill? && op.id != 0 && op.fault.Some? && op.id in s.routines {
      hide DoResume;
      var marked := s.(routines := s.routines[op.id := s.routines[op.id].(exception := op.fault)]);
      EndedNodeIsKept(marked, op.id, op.given);
      assert marked.routines.Keys == s.routines.Keys;
    } else if op.Resume? && op.id != 0 && op.id in s.routines {
      hide DoResume;
      EndedNodeIsKept(s, op.id, op.given);
    }
  }

  /**
    Without a bound no stack is wasted: over every run that creates no active id, the
    stacks allocated are as many as the most routines that were ever active at once.
  */
  lemma {:induction false} StacksMatchTheMostActive<I, O, E>(s: Runtime<I, O, E>, ops: seq<Op<I, O, E>>)
    requires Valid(s) && KeepsAll(s) && RunAllowed(s, ops) && CreatesAnew(s, ops)
    ensures KeepsAll(Run(s, ops).0)
    ensures Run(s, ops).0.stacks == if MostActive(s, ops) > s.stacks then MostActive(s, ops) else s.stacks
    decreases |ops|
  {
    hide Step, Valid;
    if ops != [] {
      StepKeepsValid(s, ops[0]);
      StepKeepsNodes(s, ops[0]);
      StacksMatchTheMostActive(Step(s, ops[0]).0, ops[1..]);
    }
  }

  /** No segment had an exception injected. */
  ghost predicate Undisturbed<I, E>(history: seq<Input<I, E>>) {
    forall i :: 0 <= i < |history| ==> history[i].injected == None
  }

  // ------------------------------------------------------ segments of one incarnation

  ghost predicate AllPlainResumes<I, O, E>(ops: seq<Op<I, O, E>>) {
    forall i :: 0 <= i < |ops| ==> ops[i].Resume? && ops[i].id != 0
  }

  ghost function Givens<I, O, E>(ops: seq<Op<I, O, E>>): seq<Input<I, E>>
    requires AllPlainResumes(ops)
  {
    seq(|ops|, i requires 0 <= i < |ops| => Input(ops[i].given, None))
  }

  /** Segment n of the body, run on the inputs of the first n + 1 operations. */
  ghost function SegmentAt<I, O, E>(
    f: Body<I, O, E>, before: seq<Input<I, E>>, ops: seq<Op<I, O, E>>, n: nat): Segment<O, E>
    requires AllPlainResumes(ops) && n < |ops|
  {
    f(before + Givens(ops)[..n + 1])
  }

  /**
    While the earlier segments yielded, the k-th resume runs the k-th segment of the body, on
    the inputs given so far.
  */
  lemma {:induction false} ResumesRunSegmentsInOrder<I, O, E>(
    f: Body<I, O, E>, before: seq<Input<I, E>>, ops: seq<Op<I, O, E>>, k: nat)
    requires AllPlainResumes(ops) && k < |ops|
    requires forall j :: 0 <= j < k ==> SegmentAt(f, before, ops, j).end.Yields?
    ensures
      var responses := LocalRun(Some(View(Some(f), before, None)), ops).1;
      var s := SegmentAt(f, before, ops, k);
      && |responses| == |ops|
      && responses[k] == match s.end
           case Yields => Returned(AGAIN, Some(s.output))
           case Returns => Returned(FINISHED, Some(s.output))
           case Throws(e) => Threw(e, Some(s.output))
    decreases |ops|
  {
    LocalRunLength(Some(View(Some(f), before, None)), ops);
    var input := Input(ops[0].given, None);
    assert Givens(ops)[..1] == [input];
    if k > 0 {
      assert SegmentAt(f, before, ops, 0).end.Yields?;
      var more := before + [input];
      forall j | 0 <= j < |ops| - 1
        ensures SegmentAt(f, more, ops[1..], j) == SegmentAt(f, before, ops, j + 1)
      {
        assert Givens(ops)[..j + 2] == [input] + Givens(ops[1..])[..j + 1];
        assert more + Givens(ops[1..])[..j + 1] == before + Givens(ops)[..j + 2];
      }
      ResumesRunSegmentsInOrder(f, more, ops[1..], k - 1);
    }
  }

  lemma {:induction false} LocalRunLength<I, O, E>(v: Option<View<I, O, E>>, ops: seq<Op<I, O, E>>)
    ensures |LocalRun(v, ops).1| == |ops|
    decreases |ops|
  {
    if ops != [] {
      LocalRunLength(LocalStep(v, ops[0]).0, ops[1..]);
    }
  }

  // ------------------------------------------------------------------ killing

  /** Gone, or carrying an exception that the next segment gets. */
  ghost predicate Doomed<I, O, E>(v: Option<View<I, O, E>>) {
    v.Some? ==> v.value.exception.Some?
  }

  /** In the run no creation finds the id inactive. */
  ghost predicate NotRevived<I, O, E>(v: Option<View<I, O, E>>, ops: seq<Op<I, O, E>>)
    decreases |ops|
  {
    ops == [] || (!(ops[0].Create? && v.None?) && NotRevived(LocalStep(v, ops[0]).0, ops[1..]))
  }

  /**
    Nothing is left to run after a kill: no body, one never entered, or one that does not yield
    on the injected exception.
  */
  predicate DiesOf<I, O, E>(v: View<I, O, E>, fault: E, given: I) {
    v.func.None? || v.history == [] || !v.func.value(v.history + [Input(given, Some(fault))]).end.Yields?
  }

  /** Kill on an active routine never succeeds quietly: it throws, or reports that the body survived the exception. */
  lemma KillThrowsOrDooms<I, O, E>(v: View<I, O, E>, id: Id, fault: E, given: I)
    requires id != 0
    ensures
      var (after, response) := LocalStep(Some(v), Kill(id, Some(fault), given));
      && Doomed(after)
      && (after.None? <==> DiesOf(v, fault, given))
      && (after.None? ==> response.Threw?)
      && (after.Some? ==> response.LogicError? && after.value.exception == Some(fault)
                          && after.value.history == v.history + [Input(given, Some(fault))])
      && (v.history == [] ==> after.None? && response == Threw(fault, None))
  {}

  /**
    In the runtime: exactly when the body dies of it, a kill removes its target and throws; else
    the target stays and the kill fails.
  */
  lemma KillEndsItsTarget<I, O, E>(s: Runtime<I, O, E>, id: Id, fault: E, given: I)
    requires Valid(s) && id != 0 && id in s.routines
    ensures
      var (next, response) := Step(s, Kill(id, Some(fault), given));
      && (id !in next.routines <==> DiesOf(ViewOf(s.routines[id]), fault, given))
      && (response.Threw? <==> DiesOf(ViewOf(s.routines[id]), fault, given))
      && (response.LogicError? <==> !DiesOf(ViewOf(s.routines[id]), fault, given))
  {
    hide DiesOf;
    StepIsLocal(s, Kill(id, Some(fault), given));
    KillThrowsOrDooms(ViewOf(s.routines[id]), id, fault, given);
  }

  /** A body that catches every exception and waits on. */
  function Stubborn(history: seq<Input<int, int>>): Segment<int, int> {
    Segment(|history|, Yields)
  }

  /** A kill that its target survives: created, entered, killed, and still there to be resumed. */
  lemma SurvivedKill(s: Runtime<int, int, int>)
    requires Valid(s) && 1 !in s.routines
    ensures
      var entered := Step(Step(s, Create(1, Some(Stubborn))).0, Resume(1, 0)).0;
      var (killed, response) := Step(entered, Kill(1, Some(7), 0));
      && response == LogicError(Some(2)) && 1 in killed.routines
      && Step(killed, Resume(1, 0)).1 == Returned(AGAIN, Some(3))
  {
    var created := Step(s, Create(1, Some(Stubborn))).0;
    var entered := Step(created, Resume(1, 0)).0;
    var killed := Step(entered, Kill(1, Some(7), 0)).0;
    assert created.routines[1].func == Some(Stubborn) && created.routines[1].history == [];
    assert |entered.routines[1].history| == 1 && entered.routines[1].func == Some(Stubborn);
    assert |killed.routines[1].history| == 2;
  }

  /**
    Kill is sticky. From the kill on, until the id is created anew, no resume of it
    reports FINISHED: each one finds it gone, throws, or runs a segment into which the
    exception was injected again.
  */
  lemma {:induction false} KilledNeverFinishes<I, O, E>(v: Option<View<I, O, E>>, ops: seq<Op<I, O, E>>, k: nat)
    requires Doomed(v) && NotRevived(v, ops) && k < |ops|
    ensures
      var responses := LocalRun(v, ops).1;
      |responses| == |ops| && !(responses[k].Returned? && responses[k].status == FINISHED)
    ensures Doomed(LocalRun(v, ops[..k]).0)
    decreases |ops|
  {
    LocalRunLength(v, ops);
    if k > 0 {
      KilledNeverFinishes(LocalStep(v, ops[0]).0, ops[1..], k - 1);
      assert ops[..k][1..] == ops[1..][..k - 1];
    }
  }

  /** The segment a doomed routine runs when it is resumed has the pending exception injected. */
  lemma DoomedSegmentIsInjected<I, O, E>(v: View<I, O, E>, id: Id, given: I)
    requires Doomed(Some(v)) && id != 0
    ensures
      var (after, response) := LocalStep(Some(v), Resume(id, given));
      match after
      case None => response.Threw?
      case Some(next) =>
        && response.Returned? && response.status == AGAIN
        && next == v.(history := v.history + [Input(given, v.exception)])
  {}

  /** The same over whole runs of the runtime: after a kill that found its target, no answer to that id is FINISHED. */
  lemma KillIsSticky<I, O, E>(
    s: Runtime<I, O, E>, id: Id, fault: E, given: I, ops: seq<Op<I, O, E>>, k: nat)
    requires Valid(s) && id != 0 && id in s.routines
    requires var killed := Step(s, Kill(id, Some(fault), given)).0;
      RunAllowed(killed, ops) && NotRevived(ViewAt(killed, id), OpsOn(ops, id))
    requires k < |OpsOn(ops, id)|
    ensures
      var killed := Step(s, Kill(id, Some(fault), given)).0;
      |Run(killed, ops).1| == |ops|
    ensures
      var killed := Step(s, Kill(id, Some(fault), given)).0;
      var answers := AnswersOn(ops, Run(killed, ops).1, id);
      k < |answers| && !(answers[k].Returned? && answers[k].status == FINISHED)
  {
    var op: Op<I, O, E> := Kill(id, Some(fault), given);
    var killed := Step(s, op).0;
    StepKeepsValid(s, op);
    StepIsLocal(s, op);
    KillThrowsOrDooms(ViewOf(s.routines[id]), id, fault, given);
    RoutinesDoNotInterfere(killed, ops, id);
    KilledNeverFinishes(ViewAt(killed, id), OpsOn(ops, id), k);
  }
}
