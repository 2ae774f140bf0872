/**
  A connection and the two environments it runs in. What the socket will do is a
  script (`incoming`, `outgoing`), cut into chunks in any way; what the scheduler
  will do at each yield is another (`resumes`). A script that has run out leaves the
  socket blocking and the routine suspended.
*/
module Connections {
  import opened Protocol

  datatype Fault =
    | EofError | ReadError | WriteError | ClosedEndpointError
    | HttpFault(error: HttpError)
    | EpollFault
    | OtherFault(code: int)

  type Chunk = s: string | s != "" witness "-"

  datatype Recv = Data(bytes: Chunk) | RecvBlocked | RecvEof | RecvFailed

  datatype Send = Takes(count: nat) | SendBlocked | SendFailed

  datatype Resume = Plain | Inject(fault: Fault)

  /** How a call that may yield ends: with a value, its own exception, one injected at a yield, or not yet. */
  datatype Progress<+T> = Ready(value: T) | Raised(fault: Fault) | Killed(fault: Fault) | Asleep {
    function PropagateFailure<U>(): Progress<U>
      requires !Ready?
    {
      match this case Raised(f) => Raised(f) case Killed(f) => Killed(f) case Asleep => Asleep
    }
  }

  datatype IoResult = Bytes(count: nat) | WouldBlock | IoRaised(fault: Fault)

  // ------------------------------------------------------ the receiving script

  /** What one `recv` of at most len bytes answers; an answer of zero bytes is the end of file. */
  function RecvResult(events: seq<Recv>, len: nat): IoResult {
    if events == [] then WouldBlock
    else
      match events[0]
      case Data(c) => Bytes(if |c| <= len then |c| else len)
      case RecvBlocked => WouldBlock
      case RecvEof => Bytes(0)
      case RecvFailed => IoRaised(ReadError)
  }

  /** The bytes it delivers. */
  function Received(events: seq<Recv>, len: nat): string {
    if events == [] || !events[0].Data? then ""
    else if |events[0].bytes| <= len then events[0].bytes
    else events[0].bytes[..len]
  }

  /** What stays of the script after it; end of file and failure persist. */
  function AfterRecv(events: seq<Recv>, len: nat): seq<Recv>
    requires len > 0
  {
    if events == [] then []
    else
      match events[0]
      case Data(c) => if |c| <= len then events[1..] else [Data(c[len..])] + events[1..]
      case RecvBlocked => events[1..]
      case _ => events
  }

  /** Everything the peer sends before the stream ends or breaks. */
  function Pending(events: seq<Recv>): string {
    if events == [] then ""
    else
      match events[0]
      case Data(c) => c + Pending(events[1..])
      case RecvBlocked => Pending(events[1..])
      case _ => ""
  }

  datatype Ending = Open | AtEof | AtFailure

  function EndOf(events: seq<Recv>): Ending {
    if events == [] then Open
    else if events[0].RecvEof? then AtEof
    else if events[0].RecvFailed? then AtFailure
    else EndOf(events[1..])
  }

  /** An upper bound on the `recv` calls it takes to get to the end of the stream. */
  function Calls(events: seq<Recv>): nat {
    if events == [] then 0
    else
      match events[0]
      case Data(c) => |c| + Calls(events[1..])
      case RecvBlocked => 1 + Calls(events[1..])
      case _ => 0
  }

  /** A `recv` takes the next bytes off the stream and changes neither what follows them nor the end. */
  lemma {:induction false} RecvFollowsStream(events: seq<Recv>, len: nat)
    requires len > 0
    ensures
      var r, rest := RecvResult(events, len), AfterRecv(events, len);
      && (r.Bytes? ==> r.count == |Received(events, len)|) && (!r.Bytes? ==> Received(events, len) == "")
      && Pending(events) == Received(events, len) + Pending(rest)
      && EndOf(rest) == EndOf(events)
      && (r == Bytes(0) <==> events != [] && events[0].RecvEof?)
      && (r == Bytes(0) ==> EndOf(events) == AtEof && Pending(events) == "")
      && (r.IoRaised? ==> r.fault == ReadError && EndOf(events) == AtFailure && Pending(events) == "")
      && (r != Bytes(0) && !r.IoRaised? ==> events == [] || Calls(rest) < Calls(events))
  {
    if events != [] && events[0].Data? && |events[0].bytes| > len {
      var c: string := events[0].bytes;
      var rest := AfterRecv(events, len);
      assert rest[1..] == events[1..];
      assert c == c[..len] + c[len..];
      assert c[..len] + (c[len..] + Pending(events[1..])) == c + Pending(events[1..]);
    }
  }

  /** With something queued, a `recv` does not look at what arrives behind it. */
  lemma RecvTakesTheFirst(queue: seq<Recv>, more: seq<Recv>, len: nat)
    requires len > 0 && queue != []
    ensures RecvResult(queue + more, len) == RecvResult(queue, len)
    ensures Received(queue + more, len) == Received(queue, len)
    ensures AfterRecv(queue + more, len) == AfterRecv(queue, len) + more
  {
    assert (queue + more)[1..] == queue[1..] + more;
  }

  class Connection {
    var sockFd: int
    var isReadable: bool
    var ioBuffer: string
    var tmpReadBuffer: string

    var incoming: seq<Recv>
    var outgoing: seq<Send>
    ghost var accepted: string

    predicate IsOpened()
      reads this
    {
      sockFd > -1
    }

    constructor (fd: int, incoming: seq<Recv>, outgoing: seq<Send>)
      ensures sockFd == fd && isReadable && ioBuffer == "" && accepted == ""
      ensures this.incoming == incoming && this.outgoing == outgoing
    {
      sockFd, isReadable, ioBuffer, tmpReadBuffer := fd, true, "", "";
      this.incoming, this.outgoing, accepted := incoming, outgoing, "";
    }

    /** `Connection::read`: one `recv` into the temporary buffer; none at all for a length of zero. */
    method Read(len: nat) returns (r: IoResult)
      modifies `isReadable, `incoming, `tmpReadBuffer
      ensures !IsOpened() ==> r == IoRaised(ClosedEndpointError)
      ensures IsOpened() && len == 0 ==> r == Bytes(0)
      ensures IsOpened() && len > 0 ==> r == RecvResult(old(incoming), len) && incoming == AfterRecv(old(incoming), len)
      ensures IsOpened() && len > 0 && r.Bytes? ==>
        tmpReadBuffer == Received(old(incoming), len) && |tmpReadBuffer| == r.count
      ensures !IsOpened() || len == 0 ==>
        incoming == old(incoming) && tmpReadBuffer == old(tmpReadBuffer) && isReadable == old(isReadable)
      ensures len > 0 ==> isReadable == (old(isReadable) && r != Bytes(0))
    {
      if !IsOpened() {
        return IoRaised(ClosedEndpointError);
      }
      r := Bytes(0);
      if len != 0 {
        r := RecvResult(incoming, len);
        if r == Bytes(0) {
          isReadable := false;
        }
        if r.Bytes? {
          tmpReadBuffer := Received(incoming, len);
        }
        incoming := AfterRecv(incoming, len);
      }
    }

    /** `Connection::read_in_io_buff`: whatever one `recv` delivers is appended to the buffer. */
    method ReadInIoBuff(len: nat) returns (r: IoResult)
      modifies `isReadable, `incoming, `tmpReadBuffer, `ioBuffer
      ensures !IsOpened() ==> r == IoRaised(ClosedEndpointError)
      ensures IsOpened() && len == 0 ==> r == Bytes(0)
      ensures IsOpened() && len > 0 ==>
        && r == RecvResult(old(incoming), len) && incoming == AfterRecv(old(incoming), len)
        && ioBuffer == old(ioBuffer) + Received(old(incoming), len)
      ensures !IsOpened() || len == 0 ==>
        incoming == old(incoming) && ioBuffer == old(ioBuffer) && isReadable == old(isReadable)
      ensures len > 0 ==> isReadable == (old(isReadable) && r != Bytes(0))
    {
      if len > 0 {
        RecvFollowsStream(incoming, len);
      }
      tmpReadBuffer := "";
      r := Read(len);
      if r.Bytes? && r.count > 0 {
        ioBuffer := ioBuffer + tmpReadBuffer;
      } else {
        assert ioBuffer + "" == ioBuffer;
      }
    }

    /** `Connection::write`: one `send`, which may take fewer bytes than it is offered. */
    method Write(data: string) returns (r: IoResult)
      modifies `outgoing, `accepted
      ensures !IsOpened() ==> r == IoRaised(ClosedEndpointError) && outgoing == old(outgoing)
      ensures IsOpened() ==> r == SendResult(old(outgoing), |data|) && outgoing == AfterSend(old(outgoing))
      ensures r.Bytes? ==> r.count <= |data|
      ensures accepted == old(accepted) + if r.Bytes? then data[..r.count] else ""
    {
      if !IsOpened() {
        r := IoRaised(ClosedEndpointError);
      } else {
        r := SendResult(outgoing, |data|);
        outgoing := AfterSend(outgoing);
        if r.Bytes? {
          accepted := accepted + data[..r.count];
        }
      }
    }

    /** `Connection::write_from_io_buff`: erases what was offered, not what was taken. */
    method WriteFromIoBuff(len: nat) returns (r: IoResult)
      modifies `outgoing, `accepted, `ioBuffer
      ensures
        var offered := if |old(ioBuffer)| < len then |old(ioBuffer)| else len;
        && (!IsOpened() ==> r == IoRaised(ClosedEndpointError) && outgoing == old(outgoing))
        && (IsOpened() ==> r == SendResult(old(outgoing), offered) && outgoing == AfterSend(old(outgoing)))
        && (r.Bytes? ==> r.count <= offered)
        && accepted == old(accepted) + (if r.Bytes? then old(ioBuffer)[..r.count] else "")
        && ioBuffer == old(ioBuffer)[if r.Bytes? && r.count > 0 then offered else 0..]
    {
      var offered := if |ioBuffer| < len then |ioBuffer| else len;
      r := Write(ioBuffer[..offered]);
      if r.Bytes? && r.count > 0 {
        ioBuffer := ioBuffer[offered..];
      }
    }
  }

  // -------------------------------------------------------- the sending script

  function AfterSend(events: seq<Send>): seq<Send> {
    if events == [] || events[0].SendFailed? then events else events[1..]
  }

  function SendResult(events: seq<Send>, offered: nat): IoResult {
    if events == [] then WouldBlock
    else
      match events[0]
      case Takes(n) => Bytes(if n < offered then n else offered)
      case SendBlocked => WouldBlock
      case SendFailed => IoRaised(WriteError)
  }

  // ------------------------------------------------------------- the scheduler

  class Scheduler {
    var resumes: seq<Resume>

    constructor (resumes: seq<Resume>)
      ensures this.resumes == resumes
    {
      this.resumes := resumes;
    }

    /** `coroutine::yield` as the routine sees it: it comes back, it throws, or it has not come back. */
    method Yield() returns (r: Progress<()>)
      modifies this
      ensures old(resumes) == [] ==> r == Asleep && resumes == []
      ensures old(resumes) != [] ==> resumes == old(resumes)[1..]
      ensures old(resumes) != [] ==>
        r == match old(resumes)[0] case Plain => Ready(()) case Inject(f) => Killed(f)
    {
      if resumes == [] {
        return Asleep;
      }
      var next := resumes[0];
      resumes := resumes[1..];
      match next
      case Plain => return Ready(());
      case Inject(f) => return Killed(f);
    }
  }
}
