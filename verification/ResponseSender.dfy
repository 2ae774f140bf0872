/**
  Sending a response from the buffer. `write_from_io_buff` erases the bytes it
  offered even when the socket takes fewer; what the loop counts is the bytes taken.
*/
module ResponseSender {
  import opened Connections

  const MAX_WRITE_BYTES_PER_CALL: nat := 2048

  datatype Transfer = Transfer(outcome: Progress<()>, taken: string)

  function Offer(buffer: string): nat {
    if |buffer| < MAX_WRITE_BYTES_PER_CALL then |buffer| else MAX_WRITE_BYTES_PER_CALL
  }

  /** The bytes one call moves to the socket, and the buffer it leaves. */
  function TakenBy(r: IoResult, buffer: string): string
    requires r.Bytes? ==> r.count <= |buffer|
  {
    if r.Bytes? then buffer[..r.count] else ""
  }

  function LeftBy(r: IoResult, buffer: string): string {
    if r.Bytes? && r.count > 0 then buffer[Offer(buffer)..] else buffer
  }

  /** The loop from a state in which `missing` bytes are not yet counted as written. */
  function Transmit(buffer: string, missing: int, sends: seq<Send>, resumes: seq<Resume>): Transfer
    decreases |resumes|
  {
    if missing <= 0 then Transfer(Ready(()), "")
    else
      var r := SendResult(sends, Offer(buffer));
      if r.IoRaised? then Transfer(Raised(r.fault), "")
      else if resumes == [] then Transfer(Asleep, TakenBy(r, buffer))
      else
        match resumes[0]
        case Inject(f) => Transfer(Killed(f), TakenBy(r, buffer))
        case Plain =>
          var counted := if r.Bytes? then r.count else 0;
          var rest := Transmit(LeftBy(r, buffer), missing - counted, AfterSend(sends), resumes[1..]);
          Transfer(rest.outcome, TakenBy(r, buffer) + rest.taken)
  }

  /** `send_http_response`, for an already printed response. */
  method SendHttpResponse(c: Connection, sched: Scheduler, response: string) returns (r: Progress<()>)
    modifies c, sched
    ensures !c.IsOpened() ==>
      r == (if response == "" then Ready(()) else Raised(ClosedEndpointError)) && c.accepted == old(c.accepted)
    ensures c.IsOpened() ==>
      var t := Transmit(response, |response|, old(c.outgoing), old(sched.resumes));
      r == t.outcome && c.accepted == old(c.accepted) + t.taken
    ensures c.sockFd == old(c.sockFd) && c.incoming == old(c.incoming)
    ensures r.Ready? ==> c.ioBuffer == ""
  {
    hide Transmit;
    c.ioBuffer := "";
    c.ioBuffer := c.ioBuffer + response;
    assert c.ioBuffer == response;
    var writeSize := |c.ioBuffer|;
    var written := 0;
    ghost var whole := Transmit(response, |response|, c.outgoing, sched.resumes);
    ghost var done, rest := "", whole;
    assert done + rest.taken == rest.taken;
    assert c.accepted + "" == c.accepted;
    while written < writeSize
      invariant c.sockFd == old(c.sockFd) && c.incoming == old(c.incoming)
      invariant c.accepted == old(c.accepted) + done
      invariant !c.IsOpened() ==> written == 0 && done == ""
      invariant rest == Transmit(c.ioBuffer, writeSize - written, c.outgoing, sched.resumes)
      invariant whole == Transfer(rest.outcome, done + rest.taken)
      decreases |sched.resumes|
    {
      TransmitStep(c.ioBuffer, writeSize - written, c.outgoing, sched.resumes);
      ghost var left := c.ioBuffer;
      var bytes := c.WriteFromIoBuff(MAX_WRITE_BYTES_PER_CALL);
      ghost var now := TakenBy(bytes, left);
      TakeMore(old(c.accepted), done, now, rest.taken[|now|..]);
      done := done + now;
      if bytes.IoRaised? {
        return Raised(bytes.fault);
      }
      if bytes.Bytes? {
        written := written + bytes.count;
      }
      var y := sched.Yield();
      match y
      case Killed(f) => return Killed(f);
      case Asleep => return Asleep;
      case Raised(_) => assert false;
      case Ready(_) =>
        rest := Transmit(c.ioBuffer, writeSize - written, c.outgoing, sched.resumes);
    }
    TransmitStep(c.ioBuffer, writeSize - written, c.outgoing, sched.resumes);
    assert done + "" == done;
    c.ioBuffer := "";
    return Ready(());
  }

  lemma TakeMore(was: string, done: string, now: string, later: string)
    ensures was + done + now == was + (done + now)
    ensures done + (now + later) == (done + now) + later
    ensures (done + now) + "" == done + now
  {}

  /** One turn of the loop, and what is left for the turns after it. */
  lemma TransmitStep(buffer: string, missing: int, sends: seq<Send>, resumes: seq<Resume>)
    ensures
      var t := Transmit(buffer, missing, sends, resumes);
      if missing <= 0 then t == Transfer(Ready(()), "")
      else
        var r := SendResult(sends, Offer(buffer));
        var taken := TakenBy(r, buffer);
        && taken <= t.taken
        && t.taken == taken + t.taken[|taken|..]
        && if r.IoRaised? then t == Transfer(Raised(r.fault), "")
           else if resumes == [] then t == Transfer(Asleep, taken)
           else if resumes[0].Inject? then t == Transfer(Killed(resumes[0].fault), taken)
           else
             var counted := if r.Bytes? then r.count else 0;
             var rest := Transmit(LeftBy(r, buffer), missing - counted, AfterSend(sends), resumes[1..]);
             t.outcome == rest.outcome && t.taken[|taken|..] == rest.taken
  {}

  /**
    The gap: bytes erased from the buffer but never taken. It never shrinks, and a
    transfer with a gap never returns, whatever the socket and the scheduler do later.
  */
  lemma {:induction false} GapNeverReturns(buffer: string, missing: int, sends: seq<Send>, resumes: seq<Resume>)
    requires |buffer| < missing
    ensures !Transmit(buffer, missing, sends, resumes).outcome.Ready?
    decreases |resumes|
  {
    var r := SendResult(sends, Offer(buffer));
    if !r.IoRaised? && resumes != [] && resumes[0].Plain? {
      var counted := if r.Bytes? then r.count else 0;
      GapNeverReturns(LeftBy(r, buffer), missing - counted, AfterSend(sends), resumes[1..]);
    }
  }

  /** Whenever the sending loop returns, the socket has taken exactly the response, in order. */
  lemma {:induction false} ReturnsOnlyWhenAllTaken(buffer: string, sends: seq<Send>, resumes: seq<Resume>)
    ensures
      var t := Transmit(buffer, |buffer|, sends, resumes);
      t.outcome.Ready? ==> t.taken == buffer
    decreases |resumes|
  {
    var r := SendResult(sends, Offer(buffer));
    if buffer != "" && !r.IoRaised? && resumes != [] && resumes[0].Plain? {
      var counted := if r.Bytes? then r.count else 0;
      var left := LeftBy(r, buffer);
      if |left| < |buffer| - counted {
        GapNeverReturns(left, |buffer| - counted, AfterSend(sends), resumes[1..]);
      } else {
        ReturnsOnlyWhenAllTaken(left, AfterSend(sends), resumes[1..]);
        assert buffer == TakenBy(r, buffer) + left;
      }
    }
  }

  /** The loop's own exception is the socket's. */
  lemma {:induction false} RaisesOnlyWriteErrors(buffer: string, missing: int, sends: seq<Send>, resumes: seq<Resume>)
    ensures
      var outcome := Transmit(buffer, missing, sends, resumes).outcome;
      outcome.Raised? ==> outcome.fault == WriteError
    decreases |resumes|
  {
    var r := SendResult(sends, Offer(buffer));
    if missing > 0 && !r.IoRaised? && resumes != [] && resumes[0].Plain? {
      var counted := if r.Bytes? then r.count else 0;
      RaisesOnlyWriteErrors(LeftBy(r, buffer), missing - counted, AfterSend(sends), resumes[1..]);
    }
  }

  /** Every offer the socket takes at all it takes whole, until nothing remains to be offered. */
  ghost predicate WholeTakes(remaining: nat, sends: seq<Send>)
    decreases |sends|
  {
    remaining == 0 ||
    (sends != [] &&
     match sends[0]
     case SendFailed => false
     case SendBlocked => WholeTakes(remaining, sends[1..])
     case Takes(n) =>
       var offered := if remaining < MAX_WRITE_BYTES_PER_CALL then remaining else MAX_WRITE_BYTES_PER_CALL;
       if n == 0 then WholeTakes(remaining, sends[1..])
       else n >= offered && WholeTakes(remaining - offered, sends[1..]))
  }

  /**
    Exactly when the loop returns, given a scheduler that keeps resuming it: every
    offer that the socket takes at all, until all is offered, it takes whole.
  */
  lemma {:induction false} ReturnsExactlyOnWholeTakes(buffer: string, sends: seq<Send>, resumes: seq<Resume>)
    requires forall i :: 0 <= i < |resumes| ==> resumes[i] == Plain
    requires |resumes| >= |sends|
    ensures Transmit(buffer, |buffer|, sends, resumes).outcome.Ready? <==> WholeTakes(|buffer|, sends)
    decreases |resumes|
  {
    var r := SendResult(sends, Offer(buffer));
    if buffer != "" && sends == [] {
      BlockedForever(buffer, resumes);
    } else if buffer != "" && !r.IoRaised? {
      var counted := if r.Bytes? then r.count else 0;
      var left := LeftBy(r, buffer);
      if |left| < |buffer| - counted {
        GapNeverReturns(left, |buffer| - counted, sends[1..], resumes[1..]);
      } else {
        ReturnsExactlyOnWholeTakes(left, sends[1..], resumes[1..]);
      }
    }
  }

  lemma {:induction false} BlockedForever(buffer: string, resumes: seq<Resume>)
    requires buffer != ""
    ensures !Transmit(buffer, |buffer|, [], resumes).outcome.Ready?
    decreases |resumes|
  {
    if resumes != [] && resumes[0].Plain? {
      BlockedForever(buffer, resumes[1..]);
    }
  }

  /** A socket that takes one byte of two and is ready ever after never gets the second: the loop does not return. */
  lemma ShortTakeExample(resumes: seq<Resume>)
    ensures !Transmit("ab", 2, [Takes(1), Takes(1), Takes(1)], resumes).outcome.Ready?
  {
    var buffer, sends := "ab", [Takes(1), Takes(1), Takes(1)];
    assert SendResult(sends, Offer(buffer)) == Bytes(1);
    if resumes != [] && resumes[0].Plain? {
      GapNeverReturns(LeftBy(Bytes(1), buffer), 1, AfterSend(sends), resumes[1..]);
    }
  }
}
