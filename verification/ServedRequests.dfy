/**
  The reader as a coroutine body, among any number of others: what each connection's
  routine reads is settled by the bytes of that connection alone.
*/
module ServedRequests {
  import opened Tables
  import opened Coroutines
  import opened CoroutineRuns
  import opened Connections
  import opened Requests
  import opened RequestReader

  /** What has arrived at the socket since the previous segment. */
  type Arrival = seq<Recv>

  type ReaderInput = Input<Arrival, Fault>

  datatype Reader = Running(reading: Reading, queue: seq<Recv>) | Ended(last: Segment<Option<Request>, Fault>)

  /** The reader after the segments with these inputs; an exception injected at a yield passes through it. */
  function After(history: seq<ReaderInput>): Reader {
    if history == [] then Running(InHead(""), [])
    else
      var input := history[|history| - 1];
      match After(history[..|history| - 1])
      case Ended(last) => Ended(last)
      case Running(reading, queue) =>
        if input.injected.Some? then Ended(Segment(None, Throws(input.injected.value)))
        else
          var (p, rest) := ReadSegment(reading, queue + input.given);
          match p
          case Pauses(next) => Running(next, rest)
          case Completes(request) => Ended(Segment(Some(request), Returns))
          case Fails(fault) => Ended(Segment(None, Throws(fault)))
  }

  function ReaderBody(history: seq<ReaderInput>): Segment<Option<Request>, Fault> {
    match After(history)
    case Running(_, _) => Segment(None, Yields)
    case Ended(last) => last
  }

  /** Everything that had arrived by the last of these segments. */
  function Arrived(history: seq<ReaderInput>): seq<Recv> {
    if history == [] then [] else Arrived(history[..|history| - 1]) + history[|history| - 1].given
  }

  lemma {:induction false} LaterArrivals(a: seq<Recv>, b: seq<Recv>)
    ensures Pending(a + b) == Pending(a) + if EndOf(a) == Open then Pending(b) else ""
    ensures EndOf(a + b) == if EndOf(a) == Open then EndOf(b) else EndOf(a)
    decreases |a|
  {
    if a == [] {
      assert a + b == b;
      assert "" + Pending(b) == Pending(b);
    } else {
      LaterArrivals(a[1..], b);
      assert (a + b)[1..] == a[1..] + b;
      var later := if EndOf(a) == Open then Pending(b) else "";
      if a[0].Data? {
        assert a[0].bytes + (Pending(a[1..]) + later) == a[0].bytes + Pending(a[1..]) + later;
      }
    }
  }

  lemma {:induction false} LaterCalls(a: seq<Recv>, b: seq<Recv>)
    ensures Calls(a + b) == Calls(a) + if EndOf(a) == Open then Calls(b) else 0
    decreases |a|
  {
    if a == [] {
      assert a + b == b;
    } else {
      LaterCalls(a[1..], b);
      assert (a + b)[1..] == a[1..] + b;
    }
  }

  /** New arrivals go behind what is queued. */
  lemma StreamGrows(buffer: string, queue: seq<Recv>, arrived: seq<Recv>, given: seq<Recv>)
    requires buffer + Pending(queue) == Pending(arrived) && EndOf(queue) == EndOf(arrived)
    ensures buffer + Pending(queue + given) == Pending(arrived + given)
    ensures EndOf(queue + given) == EndOf(arrived + given)
    ensures Calls(queue) <= Calls(arrived) ==> Calls(queue + given) <= Calls(arrived + given)
  {
    hide Pending, EndOf, Calls;
    LaterArrivals(queue, given);
    LaterArrivals(arrived, given);
    LaterCalls(queue, given);
    LaterCalls(arrived, given);
    var later := if EndOf(queue) == Open then Pending(given) else "";
    assert buffer + (Pending(queue) + later) == buffer + Pending(queue) + later;
  }

  /** One segment: what arrived stays in the buffer and the queue, or the reader ends as all of it calls for. */
  lemma SegmentKeepsStream(reading: Reading, queue: seq<Recv>, arrived: seq<Recv>, given: seq<Recv>)
    requires OnTrack(reading)
    requires reading.buffer + Pending(queue) == Pending(arrived) && EndOf(queue) == EndOf(arrived)
    ensures
      var (p, rest) := ReadSegment(reading, queue + given);
      var all := arrived + given;
      match p
      case Pauses(next) =>
        && OnTrack(next)
        && next.buffer + Pending(rest) == Pending(all) && EndOf(rest) == EndOf(all)
        && (Calls(queue) <= Calls(arrived) ==>
            Calls(rest) <= Calls(all) && (Expected(Pending(all), EndOf(all)) != Asleep ==> Calls(rest) < Calls(all)))
      case Completes(request) => Expected(Pending(all), EndOf(all)) == Ready(request)
      case Fails(fault) => Expected(Pending(all), EndOf(all)) == Raised(fault)
  {
    hide Expected, ReadSegment, Pending, EndOf, Calls, OnTrack;
    StreamGrows(reading.buffer, queue, arrived, given);
    SegmentIsOnTrack(reading, queue + given);
    NothingComes(MAX_READ_BYTES_PER_CALL);
  }

  /** Without any arrival nothing is decided. */
  lemma NothingIsDecided()
    ensures Expected(Pending([]), EndOf([])) == Asleep
  {}

  /** While it runs, the reader's buffer and the socket's queue together hold what arrived. */
  lemma {:induction false} ReaderKeepsStream(history: seq<ReaderInput>)
    requires Undisturbed(history)
    ensures
      match After(history)
      case Running(reading, queue) =>
        && OnTrack(reading)
        && reading.buffer + Pending(queue) == Pending(Arrived(history)) && EndOf(queue) == EndOf(Arrived(history))
        && Calls(queue) <= Calls(Arrived(history))
        && (Expected(Pending(Arrived(history)), EndOf(Arrived(history))) != Asleep ==>
            Calls(queue) < Calls(Arrived(history)))
      case Ended(_) => true
    ensures history != [] && After(history[..|history| - 1]).Running? && After(history).Ended? ==>
      var arrived := Arrived(history);
      match After(history).last.end
      case Yields => false
      case Returns =>
        After(history).last.output.Some?
        && Expected(Pending(arrived), EndOf(arrived)) == Ready(After(history).last.output.value)
      case Throws(f) => Expected(Pending(arrived), EndOf(arrived)) == Raised(f)
    decreases |history|
  {
    if history == [] {
      NothingIsDecided();
    } else {
      hide Expected, ReadSegment, Pending, EndOf, Calls;
      var before, input := history[..|history| - 1], history[|history| - 1];
      ReaderKeepsStream(before);
      if After(before).Running? {
        var Running(reading, queue) := After(before);
        SegmentKeepsStream(reading, queue, Arrived(before), input.given);
      }
    }
  }

  /** The arrivals of the first n operations. */
  ghost function ArrivedBy(ops: seq<Op<Arrival, Option<Request>, Fault>>, n: nat): seq<Recv>
    requires AllPlainResumes(ops) && n <= |ops|
  {
    Arrived(Givens(ops)[..n])
  }

  predicate IsAgain<O, E>(r: Response<O, E>) {
    r.Returned? && r.status == AGAIN
  }

  /** Earlier answers of AGAIN mean that the earlier segments yielded. */
  lemma {:induction false} EarlierSegmentsYield(ops: seq<Op<Arrival, Option<Request>, Fault>>, k: nat)
    requires AllPlainResumes(ops) && k <= |ops|
    requires
      var answers := LocalRun(Some(View(Some(ReaderBody), [], None)), ops).1;
      |answers| == |ops| && forall j :: 0 <= j < k ==> IsAgain(answers[j])
    ensures forall j :: 0 <= j < k ==> SegmentAt(ReaderBody, [], ops, j).end.Yields?
  {
    hide LocalRun, ReaderBody, SegmentAt;
    if k > 0 {
      EarlierSegmentsYield(ops, k - 1);
      ResumesRunSegmentsInOrder(ReaderBody, [], ops, k - 1);
      var answers := LocalRun(Some(View(Some(ReaderBody), [], None)), ops).1;
      assert IsAgain(answers[k - 1]);
    }
  }

  lemma ReaderAnswer(ops: seq<Op<Arrival, Option<Request>, Fault>>, k: nat)
    requires AllPlainResumes(ops) && k < |ops|
    requires forall j :: 0 <= j < k ==> SegmentAt(ReaderBody, [], ops, j).end.Yields?
    ensures
      var arrived := ArrivedBy(ops, k + 1);
      var s := SegmentAt(ReaderBody, [], ops, k);
      match s.end
      case Yields => s.output == None
      case Returns => s.output.Some? && Expected(Pending(arrived), EndOf(arrived)) == Ready(s.output.value)
      case Throws(f) => Expected(Pending(arrived), EndOf(arrived)) == Raised(f)
  {
    hide Expected, ReadSegment;
    var history := Givens(ops)[..k + 1];
    assert [] + history == history;
    assert history[..k] == Givens(ops)[..k];
    assert After(history[..k]).Running? by {
      if k > 0 {
        assert SegmentAt(ReaderBody, [], ops, k - 1).end.Yields?;
        assert [] + Givens(ops)[..k] == Givens(ops)[..k];
        EndedNeverYields(Givens(ops)[..k]);
      }
    }
    ReaderKeepsStream(history);
  }

  lemma {:induction false} EndedNeverYields(history: seq<ReaderInput>)
    ensures After(history).Ended? ==> !After(history).last.end.Yields?
    decreases |history|
  {
    if history != [] {
      hide ReadSegment;
      EndedNeverYields(history[..|history| - 1]);
    }
  }

  /**
    In every run of the runtime, with any other routines created, resumed and killed in
    between: the first answer to a reader's routine other than AGAIN is the request, or
    the exception, that the bytes delivered to this routine call for when they are
    parsed in one piece.
  */
  lemma EachReaderReadsItsOwnStream(
    s: Runtime<Arrival, Option<Request>, Fault>, ops: seq<Op<Arrival, Option<Request>, Fault>>, id: Id, k: nat)
    requires Valid(s) && RunAllowed(s, ops)
    requires ViewAt(s, id) == Some(View(Some(ReaderBody), [], None))
    requires AllPlainResumes(OpsOn(ops, id)) && k < |OpsOn(ops, id)|
    ensures |Run(s, ops).1| == |ops|
    ensures
      var answers := AnswersOn(ops, Run(s, ops).1, id);
      var arrived := ArrivedBy(OpsOn(ops, id), k + 1);
      |answers| == |OpsOn(ops, id)| &&
      ((forall j :: 0 <= j < k ==> IsAgain(answers[j])) ==>
       match answers[k]
       case Returned(status, output) =>
         if status == AGAIN then output == Some(None)
         else
           && status == FINISHED && output.Some? && output.value.Some?
           && Expected(Pending(arrived), EndOf(arrived)) == Ready(output.value.value)
       case Threw(f, _) => Expected(Pending(arrived), EndOf(arrived)) == Raised(f)
       case _ => false)
  {
    hide Expected, ReaderBody, LocalRun, Run;
    var mine := OpsOn(ops, id);
    RoutinesDoNotInterfere(s, ops, id);
    LocalRunLength(ViewAt(s, id), mine);
    var answers := AnswersOn(ops, Run(s, ops).1, id);
    if forall j :: 0 <= j < k ==> IsAgain(answers[j]) {
      EarlierSegmentsYield(mine, k);
      ResumesRunSegmentsInOrder(ReaderBody, [], mine, k);
      ReaderAnswer(mine, k);
    }
  }

  // ------------------------------------------------------- it does not wait for more

  /** What one more input does to the reader. */
  lemma OneMoreSegment(before: seq<ReaderInput>, input: ReaderInput)
    requires input.injected == None && After(before).Running?
    ensures
      var Running(reading, queue) := After(before);
      var (p, rest) := ReadSegment(reading, queue + input.given);
      match p
      case Pauses(next) => After(before + [input]) == Running(next, rest)
      case _ => After(before + [input]).Ended?
  {
    hide ReadSegment;
    assert (before + [input])[..|before|] == before;
  }

  /** One segment of a reader that has enough: it uses up some of what decides, if it pauses at all. */
  lemma DecidedSegment(reading: Reading, queue: seq<Recv>, more: seq<Recv>) returns (rest: seq<Recv>)
    requires OnTrack(reading) && Expected(reading.buffer + Pending(queue), EndOf(queue)) != Asleep
    ensures
      var (p, left) := ReadSegment(reading, queue + more);
      p.Pauses? ==>
        && left == rest + more && OnTrack(p.reading)
        && p.reading.buffer + Pending(rest) == reading.buffer + Pending(queue) && EndOf(rest) == EndOf(queue)
        && Calls(rest) < Calls(queue)
  {
    hide Expected, ReadSegment, Pending, EndOf, Calls;
    SegmentIgnoresLater(reading, queue, more);
    SegmentIsOnTrack(reading, queue);
    NothingComes(MAX_READ_BYTES_PER_CALL);
    rest := ReadSegment(reading, queue).1;
  }

  /**
    After k more segments of a reader whose queue decides: it has ended, or what is left
    of that queue decides still, and the calls it can take have gone down by k.
  */
  lemma {:induction false} DecidedReaderGoesOn(before: seq<ReaderInput>, later: seq<ReaderInput>)
    returns (rest: seq<Recv>)
    requires Undisturbed(before + later) && After(before).Running?
    requires
      var Running(reading, queue) := After(before);
      Expected(reading.buffer + Pending(queue), EndOf(queue)) != Asleep
    ensures After(before + later).Running? ==>
      var Running(was, queue) := After(before);
      var Running(reading, left) := After(before + later);
      && left == rest + Arrived(later) && OnTrack(reading)
      && reading.buffer + Pending(rest) == was.buffer + Pending(queue) && EndOf(rest) == EndOf(queue)
      && Calls(rest) + |later| <= Calls(queue)
    decreases |later|
  {
    hide Expected, ReadSegment, Pending, EndOf, Calls, After;
    if later == [] {
      assert before + later == before;
      ReaderKeepsStream(before);
      rest := After(before).queue;
      assert rest + [] == rest;
    } else {
      var n := |later| - 1;
      var sofar := before + later[..n];
      assert before + later == sofar + [later[n]];
      forall i | 0 <= i < |sofar| ensures sofar[i] == (before + later)[i] {}
      assert (before + later)[|sofar|] == later[n];
      rest := DecidedReaderGoesOn(before, later[..n]);
      if After(sofar).Running? {
        var Running(reading, left) := After(sofar);
        assert left + later[n].given == rest + Arrived(later);
        OneMoreSegment(sofar, later[n]);
        rest := DecidedSegment(reading, rest, Arrived(later));
      } else {
        EndedStays(sofar, [later[n]]);
      }
    }
  }

  lemma {:induction false} EndedStays(before: seq<ReaderInput>, later: seq<ReaderInput>)
    requires After(before).Ended?
    ensures After(before + later) == After(before)
    decreases |later|
  {
    if later == [] {
      assert before + later == before;
    } else {
      EndedStays(before, later[..|later| - 1]);
      assert (before + later)[..|before + later| - 1] == before + later[..|later| - 1];
    }
  }

  /** Once enough has arrived, as many segments as it can take `recv` calls end the reader. */
  lemma DecidedReaderEnds(before: seq<ReaderInput>, later: seq<ReaderInput>)
    requires Undisturbed(before + later)
    requires Expected(Pending(Arrived(before)), EndOf(Arrived(before))) != Asleep
    requires |later| >= Calls(Arrived(before))
    ensures After(before + later).Ended?
  {
    hide Expected, After;
    if After(before).Ended? {
      EndedStays(before, later);
    } else {
      assert Undisturbed(before) by {
        forall i | 0 <= i < |before| ensures before[i].injected == None { assert before[i] == (before + later)[i]; }
      }
      ReaderKeepsStream(before);
      var rest := DecidedReaderGoesOn(before, later);
    }
  }

  /**
    And it does not wait for more than it needs: in every run of the runtime, once the
    bytes delivered to a reader's routine decide, that many plain resumes bring an
    answer other than AGAIN, whether the connection stays open or not.
  */
  lemma EachReaderReturns(
    s: Runtime<Arrival, Option<Request>, Fault>, ops: seq<Op<Arrival, Option<Request>, Fault>>, id: Id, n: nat)
    requires Valid(s) && RunAllowed(s, ops)
    requires ViewAt(s, id) == Some(View(Some(ReaderBody), [], None))
    requires AllPlainResumes(OpsOn(ops, id)) && n <= |OpsOn(ops, id)|
    requires
      var arrived := ArrivedBy(OpsOn(ops, id), n);
      Expected(Pending(arrived), EndOf(arrived)) != Asleep && |OpsOn(ops, id)| - n >= Calls(arrived)
    ensures |Run(s, ops).1| == |ops|
    ensures
      var answers := AnswersOn(ops, Run(s, ops).1, id);
      exists k :: 0 <= k < |answers| && !IsAgain(answers[k])
  {
    hide Expected, ReaderBody, LocalRun, Run;
    var mine := OpsOn(ops, id);
    RoutinesDoNotInterfere(s, ops, id);
    LocalRunLength(ViewAt(s, id), mine);
    var answers := AnswersOn(ops, Run(s, ops).1, id);
    if forall k :: 0 <= k < |answers| ==> IsAgain(answers[k]) {
      EarlierSegmentsYield(mine, |mine|);
      LastSegmentReturns(mine, n);
    }
  }

  lemma LastSegmentReturns(ops: seq<Op<Arrival, Option<Request>, Fault>>, n: nat)
    requires AllPlainResumes(ops) && n <= |ops|
    requires
      var arrived := ArrivedBy(ops, n);
      Expected(Pending(arrived), EndOf(arrived)) != Asleep && |ops| - n >= Calls(arrived)
    ensures |ops| > 0 && !SegmentAt(ReaderBody, [], ops, |ops| - 1).end.Yields?
  {
    hide Expected, After;
    NothingIsDecided();
    var history := Givens(ops);
    assert [] + history[..|ops|] == history == history[..n] + history[n..];
    DecidedReaderEnds(history[..n], history[n..]);
    EndedNeverYields(history);
  }
}
