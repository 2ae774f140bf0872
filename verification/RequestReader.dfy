/** Reading a request from a growing buffer, with a yield after every `recv`. */
module RequestReader {
  import opened Text
  import Tables
  import opened Protocol
  import opened HeaderFields
  import opened RequestLines
  import opened Requests
  import opened Connections

  const MAX_READ_BYTES_PER_CALL: nat := 2048

  // ------------------------------------------------------- the reader, yield by yield

  /** Where a reader waits at a yield. */
  datatype Reading = InHead(buffer: string) | InBody(buffer: string, head: Head, start: nat)

  datatype Pause = Pauses(reading: Reading) | Completes(request: Request) | Fails(fault: Fault)

  /** The segment goes on in the body: enough is there, or one `recv` and a yield. */
  function BodySegment(buffer: string, head: Head, start: nat, events: seq<Recv>): (Pause, seq<Recv>)
    requires start <= |buffer|
  {
    var r := RecvResult(events, MAX_READ_BYTES_PER_CALL);
    if head.length <= 0 then (Completes(Request(head.line, head.headers, "")), events)
    else if |buffer| - start >= head.length then
      (Completes(Request(head.line, head.headers, buffer[start..start + head.length])), events)
    else if r.IoRaised? then (Fails(r.fault), events)
    else if r == Bytes(0) then (Fails(EofError), events)
    else
      (Pauses(InBody(buffer + Received(events, MAX_READ_BYTES_PER_CALL), head, start)),
       AfterRecv(events, MAX_READ_BYTES_PER_CALL))
  }

  /** The end of the head has just been found: parse it and go on in the body without a yield. */
  function AfterHead(buffer: string, events: seq<Recv>): (Pause, seq<Recv>)
    requires FindHeadersEnd(buffer) >= 0
  {
    FirstCrlfIsInHead(buffer);
    match ParseHead(buffer)
    case Err(e) => (Fails(HttpFault(e)), events)
    case Ok(head) => BodySegment(buffer, head, FindHeadersEnd(buffer) + 4, events)
  }

  function HeadSegment(buffer: string, events: seq<Recv>): (Pause, seq<Recv>) {
    var r := RecvResult(events, MAX_READ_BYTES_PER_CALL);
    var rest := AfterRecv(events, MAX_READ_BYTES_PER_CALL);
    var grown := buffer + Received(events, MAX_READ_BYTES_PER_CALL);
    if r.IoRaised? then (Fails(r.fault), rest)
    else if r == Bytes(0) then (Fails(EofError), rest)
    else if r.Bytes? && FindHeadersEnd(grown) >= 0 then AfterHead(grown, rest)
    else (Pauses(InHead(grown)), rest)
  }

  ghost predicate OnTrack(r: Reading) {
    match r
    case InHead(buffer) => FindHeadersEnd(buffer) < 0
    case InBody(buffer, head, start) =>
      FindHeadersEnd(buffer) >= 0 && start == FindHeadersEnd(buffer) + 4 <= |buffer| && ParseHead(buffer) == Ok(head)
  }

  function ReadSegment(r: Reading, events: seq<Recv>): (Pause, seq<Recv>) {
    match r
    case InHead(buffer) => HeadSegment(buffer, events)
    case InBody(buffer, head, start) =>
      if start <= |buffer| then BodySegment(buffer, head, start, events) else (Fails(ReadError), events)
  }

  /**
    The reader under a scheduler, segment after segment until it ends, is killed, or is left
    waiting; and the resumes it leaves.
  */
  function Drive(r: Reading, events: seq<Recv>, resumes: seq<Resume>): (Progress<Request>, seq<Resume>)
    decreases |resumes|, 1
  {
    DriveOn(ReadSegment(r, events), resumes)
  }

  function DriveOn(p: (Pause, seq<Recv>), resumes: seq<Resume>): (Progress<Request>, seq<Resume>)
    decreases |resumes|, 0
  {
    match p.0
    case Completes(request) => (Ready(request), resumes)
    case Fails(fault) => (Raised(fault), resumes)
    case Pauses(next) =>
      if resumes == [] then (Asleep, [])
      else
        match resumes[0]
        case Plain => Drive(next, p.1, resumes[1..])
        case Inject(f) => (Killed(f), resumes[1..])
  }

  // ------------------------------------------------------------------- the methods

  /** `read_until_headers_end`, ended by the first terminator or as the reader ends. */
  method ReadUntilHeadersEnd(c: Connection, sched: Scheduler) returns (r: Progress<nat>)
    requires c.ioBuffer == ""
    modifies c, sched
    ensures c.sockFd == old(c.sockFd) && c.outgoing == old(c.outgoing) && c.accepted == old(c.accepted)
    ensures !c.IsOpened() ==> r == Raised(ClosedEndpointError)
    ensures c.IsOpened() ==>
      var whole := Drive(InHead(""), old(c.incoming), old(sched.resumes));
      if r.Ready? then
        r.value == FindHeadersEnd(c.ioBuffer) && whole == DriveOn(AfterHead(c.ioBuffer, c.incoming), sched.resumes)
      else !whole.0.Ready? && whole == (r.PropagateFailure(), sched.resumes)
  {
    hide AfterHead;
    while true
      invariant c.sockFd == old(c.sockFd) && c.outgoing == old(c.outgoing) && c.accepted == old(c.accepted)
      invariant FindHeadersEnd(c.ioBuffer) < 0
      invariant c.IsOpened() ==>
        Drive(InHead(c.ioBuffer), c.incoming, sched.resumes)
        == Drive(InHead(""), old(c.incoming), old(sched.resumes))
      decreases |sched.resumes|
    {
      var pos := 0;
      if |c.ioBuffer| > 4 {
        pos := |c.ioBuffer| - 4;
      }
      ghost var before := c.ioBuffer;
      ResumedSearchIsComplete(c.ioBuffer, Received(c.incoming, MAX_READ_BYTES_PER_CALL));
      RecvFollowsStream(c.incoming, MAX_READ_BYTES_PER_CALL);
      var bytes := c.ReadInIoBuff(MAX_READ_BYTES_PER_CALL);
      if bytes.IoRaised? {
        return Raised(bytes.fault);
      }
      if bytes == Bytes(0) {
        return Raised(EofError);
      }
      if bytes.Bytes? {
        var found := FindHeadersEnd(c.ioBuffer, pos);
        if found >= 0 {
          return Ready(found);
        }
      } else {
        assert c.ioBuffer == before + "" == before;
      }
      var y := sched.Yield();
      match y
      case Killed(f) => return Killed(f);
      case Asleep => return Asleep;
      case Raised(_) => assert false;
      case Ready(_) =>
    }
  }

  /** `read_body`; the head is what the caller has parsed. */
  method ReadBody(c: Connection, sched: Scheduler, start: nat, length: int, ghost head: Head)
    returns (r: Progress<string>)
    requires start <= |c.ioBuffer| && length == head.length
    modifies c, sched
    ensures c.sockFd == old(c.sockFd) && c.outgoing == old(c.outgoing) && c.accepted == old(c.accepted)
    ensures !c.IsOpened() ==>
      r == if length <= 0 then Ready("")
           else if |old(c.ioBuffer)| - start >= length then Ready(old(c.ioBuffer)[start..start + length])
           else Raised(ClosedEndpointError)
    ensures c.IsOpened() ==>
      var whole := DriveOn(BodySegment(old(c.ioBuffer), head, start, old(c.incoming)), old(sched.resumes));
      if r.Ready? then whole == (Ready(Request(head.line, head.headers, r.value)), sched.resumes)
      else !whole.0.Ready? && whole == (r.PropagateFailure(), sched.resumes)
  {
    if length <= 0 {
      return Ready("");
    }
    var wasRead := |c.ioBuffer| - start;
    while wasRead < length
      invariant wasRead == |c.ioBuffer| - start >= 0
      invariant c.sockFd == old(c.sockFd) && c.outgoing == old(c.outgoing) && c.accepted == old(c.accepted)
      invariant !c.IsOpened() ==> c.ioBuffer == old(c.ioBuffer)
      invariant c.IsOpened() ==>
        DriveOn(BodySegment(c.ioBuffer, head, start, c.incoming), sched.resumes)
        == DriveOn(BodySegment(old(c.ioBuffer), head, start, old(c.incoming)), old(sched.resumes))
      decreases |sched.resumes|, length - wasRead
    {
      RecvFollowsStream(c.incoming, MAX_READ_BYTES_PER_CALL);
      var bytes := c.ReadInIoBuff(MAX_READ_BYTES_PER_CALL);
      if bytes.IoRaised? {
        return Raised(bytes.fault);
      }
      if bytes == Bytes(0) {
        return Raised(EofError);
      }
      if bytes.Bytes? {
        wasRead := wasRead + bytes.count;
      }
      var y := sched.Yield();
      match y
      case Killed(f) => return Killed(f);
      case Asleep => return Asleep;
      case Raised(_) => assert false;
      case Ready(_) =>
    }
    return Ready(c.ioBuffer[start..start + length]);
  }

  /** `read_http_request`. */
  method ReadHttpRequest(c: Connection, sched: Scheduler) returns (r: Progress<Request>)
    modifies c, sched
    ensures c.sockFd == old(c.sockFd) && c.outgoing == old(c.outgoing) && c.accepted == old(c.accepted)
    ensures !c.IsOpened() ==> r == Raised(ClosedEndpointError)
    ensures c.IsOpened() ==> (r, sched.resumes) == Drive(InHead(""), old(c.incoming), old(sched.resumes))
    ensures r.Ready? ==> c.ioBuffer == ""
  {
    hide Drive, BodySegment, ParseHead;
    c.ioBuffer := "";
    var found := ReadUntilHeadersEnd(c, sched);
    if !found.Ready? {
      return found.PropagateFailure();
    }
    var headersEnd := found.value;
    FirstCrlfIsInHead(c.ioBuffer);
    var parsed := ReadHead(c.ioBuffer, headersEnd);
    if parsed.Err? {
      return Raised(HttpFault(parsed.error));
    }
    var head := parsed.value;
    var body := ReadBody(c, sched, headersEnd + 4, head.length, head);
    if !body.Ready? {
      return body.PropagateFailure();
    }
    r := Ready(Request(head.line, head.headers, body.value));
    c.ioBuffer := "";
  }

  /** The part of `read_http_request` between the two waits: cut the head, parse it, read the announced length. */
  method ReadHead(buffer: string, headersEnd: nat) returns (r: Result<Head>)
    requires headersEnd == FindHeadersEnd(buffer)
    ensures r == ParseHead(buffer)
  {
    hide ParseLine, ParseHeaders, Stoll;
    FirstCrlfIsInHead(buffer);
    var newline := FindCrlf(buffer);
    var line := ParseRequestLine(buffer[..newline]);
    if line.Err? {
      return Err(line.error);
    }
    var headers := ParseHeaderBlock(buffer[newline + 2..headersEnd + 2]);
    if headers.Err? {
      return Err(headers.error);
    }
    var length := 0;
    if CONTENT_LENGTH in headers.value {
      var number := Stoll(headers.value[CONTENT_LENGTH]);
      if number.NoDigits? {
        return Err(LengthNotANumber);
      }
      if number.TooLarge? {
        return Err(LengthOutOfRange);
      }
      length := number.value;
    }
    return Ok(Head(line.value, headers.value, length));
  }

  // ------------------------------------------------- the bytes decide, not their delivery

  /** The outcome that the bytes and the end of a stream determine, however they are delivered. */
  function Expected(stream: string, ending: Ending): Progress<Request> {
    match ReadOnce(stream)
    case Done(r) => Ready(r)
    case Failed(e) => Raised(HttpFault(e))
    case Incomplete =>
      match ending
      case AtEof => Raised(EofError)
      case AtFailure => Raised(ReadError)
      case Open => Asleep
  }

  /** What a segment may do at most: keep the stream together while it waits, and otherwise end as expected. */
  ghost predicate SegmentFits(r: Reading, events: seq<Recv>, p: (Pause, seq<Recv>)) {
    var stream := r.buffer + Pending(events);
    match p.0
    case Pauses(next) =>
      && OnTrack(next)
      && next.buffer + Pending(p.1) == stream && EndOf(p.1) == EndOf(events)
      && if events == [] then p == (Pauses(r), []) && Expected(stream, Open) == Asleep else Calls(p.1) < Calls(events)
    case Completes(request) => Expected(stream, EndOf(events)) == Ready(request)
    case Fails(fault) => Expected(stream, EndOf(events)) == Raised(fault)
  }

  lemma {:induction false} BodySegmentFits(buffer: string, head: Head, events: seq<Recv>)
    requires FindHeadersEnd(buffer) >= 0 && FindHeadersEnd(buffer) + 4 <= |buffer| && ParseHead(buffer) == Ok(head)
    ensures
      var start := FindHeadersEnd(buffer) + 4;
      SegmentFits(InBody(buffer, head, start), events, BodySegment(buffer, head, start, events))
  {
    hide ParseHead, ReadOnce, FindHeadersEnd, Pending, EndOf, Calls, RecvResult, Received, AfterRecv;
    var start := FindHeadersEnd(buffer) + 4;
    var chunk := Received(events, MAX_READ_BYTES_PER_CALL);
    RecvFollowsStream(events, MAX_READ_BYTES_PER_CALL);
    NothingComes(MAX_READ_BYTES_PER_CALL);
    BodyVerdict(buffer, buffer, Pending(events), buffer + Pending(events), head);
    HeadIsStable(buffer, chunk);
    Regroup(buffer, chunk, Pending(AfterRecv(events, MAX_READ_BYTES_PER_CALL)));
    assert buffer + "" == buffer;
  }

  lemma NothingComes(len: nat)
    requires len > 0
    ensures RecvResult([], len) == WouldBlock && Received([], len) == "" && AfterRecv([], len) == []
    ensures Pending([]) == "" && EndOf([]) == Open && Calls([]) == 0
  {}

  lemma Regroup(a: string, b: string, c: string)
    ensures a + b + c == a + (b + c)
  {}

  lemma HeadSegmentFits(buffer: string, events: seq<Recv>)
    requires FindHeadersEnd(buffer) < 0
    ensures SegmentFits(InHead(buffer), events, HeadSegment(buffer, events))
  {
    hide ParseHead, BodySegment, Expected, Pending, EndOf, Calls, RecvResult, Received, AfterRecv, FindHeadersEnd;
    NothingComes(MAX_READ_BYTES_PER_CALL);
    HeadVerdict(buffer, Pending(events), EndOf(events));
    var rest := AfterRecv(events, MAX_READ_BYTES_PER_CALL);
    var grown := buffer + Received(events, MAX_READ_BYTES_PER_CALL);
    RecvFollowsStream(events, MAX_READ_BYTES_PER_CALL);
    Regroup(buffer, Received(events, MAX_READ_BYTES_PER_CALL), Pending(rest));
    assert buffer + "" == buffer;
    if FindHeadersEnd(grown) >= 0 {
      FirstCrlfIsInHead(grown);
      ErrorIsExpected(grown, Pending(rest), EndOf(rest));
      if ParseHead(grown).Ok? {
        BodySegmentFits(grown, ParseHead(grown).value, rest);
      }
    }
  }

  /** A stream that stops before the head does: what is expected is decided by how it stops. */
  lemma HeadVerdict(buffer: string, pending: string, ending: Ending)
    requires FindHeadersEnd(buffer) < 0
    ensures pending == "" ==>
      Expected(buffer + pending, ending)
      == match ending case AtEof => Raised(EofError) case AtFailure => Raised(ReadError) case Open => Asleep
  {
    assert buffer + "" == buffer;
  }

  lemma ErrorIsExpected(buffer: string, pending: string, ending: Ending)
    requires FindHeadersEnd(buffer) >= 0
    ensures ParseHead(buffer).Err? ==> Expected(buffer + pending, ending) == Raised(HttpFault(ParseHead(buffer).error))
  {
    hide ParseHead;
    VerdictOfPrefix(buffer, pending, buffer + pending);
  }

  lemma SegmentIsOnTrack(r: Reading, events: seq<Recv>)
    requires OnTrack(r)
    ensures SegmentFits(r, events, ReadSegment(r, events))
  {
    hide HeadSegment, BodySegment, ParseHead, SegmentFits;
    match r
    case InHead(buffer) => HeadSegmentFits(buffer, events);
    case InBody(buffer, head, _) => BodySegmentFits(buffer, head, events);
  }

  lemma BodyIgnoresLater(buffer: string, head: Head, queue: seq<Recv>, more: seq<Recv>)
    requires FindHeadersEnd(buffer) >= 0 && FindHeadersEnd(buffer) + 4 <= |buffer| && ParseHead(buffer) == Ok(head)
    requires Expected(buffer + Pending(queue), EndOf(queue)) != Asleep
    ensures
      var start := FindHeadersEnd(buffer) + 4;
      var (p, left) := BodySegment(buffer, head, start, queue);
      BodySegment(buffer, head, start, queue + more) == (p, left + more)
  {
    hide Expected, ParseHead, FindHeadersEnd, RecvResult, Received, AfterRecv, Pending;
    BodySegmentFits(buffer, head, queue);
    if queue == [] {
      NothingComes(MAX_READ_BYTES_PER_CALL);
      assert [] + more == more;
    } else {
      RecvTakesTheFirst(queue, more, MAX_READ_BYTES_PER_CALL);
    }
  }

  lemma HeadIgnoresLater(buffer: string, queue: seq<Recv>, more: seq<Recv>)
    requires FindHeadersEnd(buffer) < 0
    requires Expected(buffer + Pending(queue), EndOf(queue)) != Asleep
    ensures
      var (p, left) := HeadSegment(buffer, queue);
      HeadSegment(buffer, queue + more) == (p, left + more)
  {
    hide Expected, ParseHead, BodySegment, RecvResult, Received, AfterRecv, Pending, Calls;
    NothingComes(MAX_READ_BYTES_PER_CALL);
    HeadSegmentFits(buffer, queue);
    if queue != [] {
      RecvTakesTheFirst(queue, more, MAX_READ_BYTES_PER_CALL);
      RecvFollowsStream(queue, MAX_READ_BYTES_PER_CALL);
      var rest := AfterRecv(queue, MAX_READ_BYTES_PER_CALL);
      var grown := buffer + Received(queue, MAX_READ_BYTES_PER_CALL);
      Regroup(buffer, Received(queue, MAX_READ_BYTES_PER_CALL), Pending(rest));
      if FindHeadersEnd(grown) >= 0 {
        FirstCrlfIsInHead(grown);
        if ParseHead(grown).Ok? {
          BodyIgnoresLater(grown, ParseHead(grown).value, rest, more);
        }
      }
    }
  }

  /** A segment of a reader that has enough does the same whatever arrived behind what decides. */
  lemma SegmentIgnoresLater(reading: Reading, queue: seq<Recv>, more: seq<Recv>)
    requires OnTrack(reading)
    requires Expected(reading.buffer + Pending(queue), EndOf(queue)) != Asleep
    ensures
      var (p, left) := ReadSegment(reading, queue);
      ReadSegment(reading, queue + more) == (p, left + more)
  {
    hide Expected, ParseHead, BodySegment, HeadSegment;
    match reading
    case InHead(buffer) => HeadIgnoresLater(buffer, queue, more);
    case InBody(buffer, head, _) => BodyIgnoresLater(buffer, head, queue, more);
  }

  /** The scheduler resumes the routine plainly, and at least as often as the delivery can make it wait. */
  ghost predicate Attentive(events: seq<Recv>, resumes: seq<Resume>) {
    && (forall i :: 0 <= i < |resumes| ==> resumes[i] == Plain)
    && |resumes| >= Calls(events)
  }

  /**
    Chunking independence. Whatever the chunks, the blocked calls and the yields were: a
    request, or an exception of the reader's own, is the one that the bytes of the whole
    stream and its end call for, and only an injected exception or a scheduler that stops
    resuming gives anything else. Under an attentive scheduler the outcome is settled: the
    reader returns as soon as the bytes decide, on a stream that stays open too, and is
    left waiting exactly when they never do.
  */
  lemma {:induction false} DeliveryDoesNotMatter(r: Reading, events: seq<Recv>, resumes: seq<Resume>)
    requires OnTrack(r)
    ensures
      var outcome := Drive(r, events, resumes).0;
      var expected := Expected(r.buffer + Pending(events), EndOf(events));
      && (outcome.Ready? || outcome.Raised? ==> outcome == expected)
      && (outcome.Killed? ==> Inject(outcome.fault) in resumes)
      && (Attentive(events, resumes) ==> outcome == expected)
    decreases |resumes|
  {
    hide ReadSegment, Expected, ParseHead;
    SegmentIsOnTrack(r, events);
    var p := ReadSegment(r, events);
    if p.0.Pauses? {
      if resumes != [] && resumes[0].Plain? {
        DeliveryDoesNotMatter(p.0.reading, p.1, resumes[1..]);
      }
      if events == [] && Attentive(events, resumes) {
        WaitsForever(r, resumes);
      }
    }
  }

  /** A reader whose bytes decide nothing, and to which no more come, is still waiting at the last resume. */
  lemma {:induction false} WaitsForever(r: Reading, resumes: seq<Resume>)
    requires ReadSegment(r, []) == (Pauses(r), [])
    requires forall i :: 0 <= i < |resumes| ==> resumes[i] == Plain
    ensures Drive(r, [], resumes).0 == Asleep
    decreases |resumes|
  {
    hide ReadSegment;
    if resumes != [] {
      WaitsForever(r, resumes[1..]);
    }
  }

  /** Two deliveries of the same bytes with the same end, both attended to, give the same outcome. */
  lemma DeliveriesAgree(a: seq<Recv>, b: seq<Recv>, resumesA: seq<Resume>, resumesB: seq<Resume>)
    requires Pending(a) == Pending(b) && EndOf(a) == EndOf(b)
    requires Attentive(a, resumesA) && Attentive(b, resumesB)
    ensures Drive(InHead(""), a, resumesA).0 == Drive(InHead(""), b, resumesB).0
  {
    hide Drive, Expected;
    DeliveryDoesNotMatter(InHead(""), a, resumesA);
    DeliveryDoesNotMatter(InHead(""), b, resumesB);
  }

  /**
    A printed request, sent in any chunks, followed by anything, on a connection that is
    then closed, broken or left open, is read as itself exactly when it is transmissible.
  */
  lemma RequestArrives(
    r: Request, queryOrder: seq<string>, headerOrder: seq<string>, more: string,
    events: seq<Recv>, resumes: seq<Resume>)
    requires r.line.verb != UnsupportedMethod
    requires Tables.IsOrder(queryOrder, r.line.query.Keys) && Tables.IsOrder(headerOrder, r.headers.Keys)
    requires (forall k :: k in queryOrder ==> k in r.line.query) && forall k :: k in headerOrder ==> k in r.headers
    requires Pending(events) == PrintRequest(r, queryOrder, headerOrder) + more && Attentive(events, resumes)
    ensures Drive(InHead(""), events, resumes).0 == Ready(r) <==> Transmissible(r, queryOrder)
  {
    hide Drive, ReadOnce, PrintRequest, Transmissible, Attentive;
    DeliveryDoesNotMatter(InHead(""), events, resumes);
    RequestRoundTrip(r, queryOrder, headerOrder, more);
    assert "" + Pending(events) == Pending(events);
  }

  /** A verdict on the buffer is the verdict on the stream it is a prefix of. */
  lemma VerdictOfPrefix(buffer: string, pending: string, stream: string)
    requires stream == buffer + pending && FindHeadersEnd(buffer) >= 0
    ensures ReadOnce(buffer) != Incomplete ==> ReadOnce(stream) == ReadOnce(buffer)
    ensures ParseHead(buffer).Err? ==> ReadOnce(stream) == Failed(ParseHead(buffer).error)
  {
    hide ParseHead;
    if ReadOnce(buffer) != Incomplete {
      VerdictIsStable(buffer, pending);
    }
  }

  /** The buffer as it stands after the body loop, and the stream, finish the head found before that loop. */
  lemma BodyVerdict(before: string, buffer: string, pending: string, stream: string, head: Head)
    requires FindHeadersEnd(before) >= 0 && ParseHead(before) == Ok(head)
    requires before <= buffer && stream == buffer + pending
    ensures FindHeadersEnd(before) + 4 <= |buffer|
    ensures
      var start := FindHeadersEnd(before) + 4;
      ReadOnce(buffer) ==
      if head.length <= 0 then Done(Request(head.line, head.headers, ""))
      else if |buffer| < start + head.length then Incomplete
      else Done(Request(head.line, head.headers, buffer[start..start + head.length]))
    ensures ReadOnce(buffer) != Incomplete ==> ReadOnce(stream) == ReadOnce(buffer)
  {
    hide ParseHead;
    FirstCrlfIsInHead(before);
    HeadIsStable(before, buffer[|before|..]);
    assert buffer == before + buffer[|before|..];
    var start := FindHeadersEnd(before) + 4;
    if 0 < head.length <= |buffer| - start {
      assert buffer[start..][..head.length] == buffer[start..start + head.length];
    }
    if ReadOnce(buffer) != Incomplete {
      VerdictIsStable(buffer, pending);
    }
  }
}
