/** Whole requests: what a byte stream says when it is parsed in one piece, and the printer that the parse undoes. */
module Requests {
  import opened Text
  import opened Tables
  import opened Protocol
  import opened HeaderFields
  import opened RequestLines

  datatype Request = Request(line: RequestLine, headers: Table, body: string)

  /** What the stream so far amounts to. */
  datatype Verdict = Incomplete | Done(request: Request) | Failed(error: HttpError)

  datatype Head = Head(line: RequestLine, headers: Table, length: int)

  /** The key under which the announced length is stored and looked up. */
  const CONTENT_LENGTH := Lower("Content-Length")

  /** The announced body length; zero when no field announces one. */
  function BodyLength(headers: Table): Result<int> {
    if CONTENT_LENGTH !in headers then Ok(0)
    else
      match Stoll(headers[CONTENT_LENGTH])
      case Number(n) => Ok(n)
      case NoDigits => Err(LengthNotANumber)
      case TooLarge => Err(LengthOutOfRange)
  }

  function MakeHead(line: Result<RequestLine>, headers: Result<Table>): Result<Head> {
    if line.Err? then Err(line.error)
    else if headers.Err? then Err(headers.error)
    else
      match BodyLength(headers.value)
      case Err(e) => Err(e)
      case Ok(n) => Ok(Head(line.value, headers.value, n))
  }

  lemma FirstCrlfIsInHead(s: string)
    requires FindHeadersEnd(s) >= 0
    ensures 0 <= FindCrlf(s) <= FindHeadersEnd(s) <= |s| - 4
  {
    assert CrlfAt(s, FindHeadersEnd(s));
  }

  function LineText(s: string): string
    requires FindHeadersEnd(s) >= 0
  {
    FirstCrlfIsInHead(s);
    s[..FindCrlf(s)]
  }

  /** The slice the header parser gets: past the first CRLF, up to and with the CRLF of the last field. */
  function BlockText(s: string): string
    requires FindHeadersEnd(s) >= 0
  {
    FirstCrlfIsInHead(s);
    s[FindCrlf(s) + 2..FindHeadersEnd(s) + 2]
  }

  function ParseHead(s: string): Result<Head>
    requires FindHeadersEnd(s) >= 0
  {
    MakeHead(ParseLine(LineText(s)), ParseHeaders(BlockText(s)))
  }

  function Finish(head: Head, rest: string): Verdict {
    if head.length <= 0 then Done(Request(head.line, head.headers, ""))
    else if |rest| < head.length then Incomplete
    else Done(Request(head.line, head.headers, rest[..head.length]))
  }

  /** One parse of everything received. */
  function ReadOnce(s: string): Verdict {
    var e := FindHeadersEnd(s);
    if e < 0 then Incomplete
    else
      match ParseHead(s)
      case Err(error) => Failed(error)
      case Ok(head) => Finish(head, s[e + 4..])
  }

  /** What the first Content-Length field announces, in whatever case it is spelled; zero without one. */
  ghost predicate Announces(lines: seq<string>, announced: ParsedNumber) {
    || (exists i, value :: FirstField(lines, "Content-Length", i, value) && announced == Stoll(value))
    || ((forall line, v :: line in lines ==> !IsField(line, "Content-Length", v)) && announced == Number(0))
  }

  /**
    What a stream says once its head is there: the request line is looked at first, then
    the fields, then the length; and the body is as many of the following bytes as the
    first Content-Length field announces.
  */
  lemma StreamIsReadAs(s: string, announced: ParsedNumber)
    requires FindHeadersEnd(s) >= 0 && FindHeadersEnd(s) + 4 <= |s|
    requires Announces(Lines(BlockText(s)), announced)
    ensures
      var line, rest := ParseLine(LineText(s)), s[FindHeadersEnd(s) + 4..];
      if line.Err? then ReadOnce(s) == Failed(line.error)
      else if exists l :: l in Lines(BlockText(s)) && Lacks(l, ':') then ReadOnce(s) == Failed(InvalidHeaders)
      else
        match announced
        case NoDigits => ReadOnce(s) == Failed(LengthNotANumber)
        case TooLarge => ReadOnce(s) == Failed(LengthOutOfRange)
        case Number(n) =>
          var length := if n > 0 then n else 0;
          if |rest| < length then ReadOnce(s) == Incomplete
          else
            && ReadOnce(s).Done? && ReadOnce(s).request.line == line.value
            && ParseHeaders(BlockText(s)) == Ok(ReadOnce(s).request.headers)
            && ReadOnce(s).request.body == rest[..length]
  {
    hide ParseLine, ParseHeaders, LineText, BlockText, Stoll, Lower, IsField;
    var block := BlockText(s);
    HeadersKeepFirstLine(block);
    if ParseHeaders(block).Ok? {
      if i, value :| FirstField(Lines(block), "Content-Length", i, value) && announced == Stoll(value) {
        NameIsLookedUp(block, "Content-Length", i, value);
      } else {
        NameIsLookedUp(block, "Content-Length", 0, "");
      }
    } else {
      BadHeaderError(block);
    }
  }

  lemma BadHeaderError(block: string)
    ensures ParseHeaders(block).Err? ==> ParseHeaders(block).error == InvalidHeaders
  {}

  // ------------------------------------------------ searching and parsing as the stream grows

  /** A search resumed four bytes before the appended chunk finds the first terminator of the whole buffer. */
  lemma ResumedSearchIsComplete(buffer: string, chunk: string)
    requires FindHeadersEnd(buffer) < 0
    ensures
      var from := if |buffer| > 4 then |buffer| - 4 else 0;
      FindHeadersEnd(buffer + chunk, from) == FindHeadersEnd(buffer + chunk)
  {
    var from := if |buffer| > 4 then |buffer| - 4 else 0;
    forall i | 0 <= i < from ensures !HeadersEndAt(buffer + chunk, i) {
      assert !HeadersEndAt(buffer, i);
    }
  }

  /**
    The cut-out header block is empty or ends with a CRLF, and its line loop uses it up without
    meeting an empty line.
  */
  lemma CutBlockIsWhole(s: string)
    requires FindHeadersEnd(s) >= 0
    ensures IsHeaderBlock(BlockText(s))
    ensures Terminate(Lines(BlockText(s))) == BlockText(s)
  {
    var n, e := FindCrlf(s), FindHeadersEnd(s);
    FirstCrlfIsInHead(s);
    var b := BlockText(s);
    assert |b| == e - n && forall i :: 0 <= i < |b| ==> b[i] == s[n + 2 + i];
    assert HeadersEndAt(s, e) && CrlfAt(s, e) && CrlfAt(s, n);
    assert n == e || n + 2 <= e;
    assert b == "" || CrlfAt(b, |b| - 2);
    assert n == e || !HeadersEndAt(s, n);
    assert !CrlfAt(b, 0);
    forall i ensures !HeadersEndAt(b, i) {
      assert !(0 <= i < |b| - 3) || !HeadersEndAt(s, n + 2 + i);
    }
    HeaderBlockIsItsLines(b);
  }

  lemma HeadIsStable(s: string, t: string)
    requires FindHeadersEnd(s) >= 0
    ensures FindHeadersEnd(s + t) == FindHeadersEnd(s) && FindCrlf(s + t) == FindCrlf(s)
    ensures LineText(s + t) == LineText(s) && BlockText(s + t) == BlockText(s)
    ensures ParseHead(s + t) == ParseHead(s)
  {
    var n, e := FindCrlf(s), FindHeadersEnd(s);
    FirstCrlfIsInHead(s);
    assert HeadersEndAt(s + t, e) && CrlfAt(s + t, n);
    forall i | 0 <= i < e ensures !HeadersEndAt(s + t, i) { assert !HeadersEndAt(s, i); }
    forall i | 0 <= i < n ensures !CrlfAt(s + t, i) { assert !CrlfAt(s, i); }
    assert FindHeadersEnd(s + t) == e && FindCrlf(s + t) == n;
    assert (s + t)[..n] == s[..n] && (s + t)[n + 2..e + 2] == s[n + 2..e + 2];
  }

  /** Once the stream has a verdict, no later byte changes it. */
  lemma VerdictIsStable(s: string, t: string)
    requires ReadOnce(s) != Incomplete
    ensures ReadOnce(s + t) == ReadOnce(s)
  {
    hide ParseHead, LineText, BlockText;
    HeadIsStable(s, t);
    var e := FindHeadersEnd(s);
    FirstCrlfIsInHead(s);
    assert (s + t)[e + 4..] == s[e + 4..] + t;
    if ParseHead(s).Ok? {
      FinishIsStable(ParseHead(s).value, s[e + 4..], t);
    }
  }

  lemma FinishIsStable(head: Head, rest: string, t: string)
    requires Finish(head, rest) != Incomplete
    ensures Finish(head, rest + t) == Finish(head, rest)
  {
    if head.length > 0 {
      assert (rest + t)[..head.length] == rest[..head.length];
    }
  }

  lemma DoneHasParts(s: string, r: Request)
    requires ReadOnce(s) == Done(r)
    ensures FindHeadersEnd(s) >= 0
    ensures ParseLine(LineText(s)) == Ok(r.line) && ParseHeaders(BlockText(s)) == Ok(r.headers)
  {
    hide ParseLine, ParseHeaders, LineText, BlockText;
  }

  // ---------------------------------------------------------------- printing

  function PrintRequest(r: Request, queryOrder: seq<string>, headerOrder: seq<string>): string
    requires r.line.verb != UnsupportedMethod
    requires (forall k :: k in queryOrder ==> k in r.line.query) && forall k :: k in headerOrder ==> k in r.headers
  {
    PrintLine(r.line, queryOrder) + PrintAfterLine(r.headers, headerOrder, r.body)
  }

  function PrintAfterLine(headers: Table, order: seq<string>, body: string): string
    requires forall k :: k in order ==> k in headers
  {
    CRLF + (PrintHeaders(headers, order) + ("\r\n\r\n" + body))
  }

  /** buf is the request printed with both tables walked in some order. */
  ghost predicate IsPrinted(r: Request, buf: string)
    requires r.line.verb != UnsupportedMethod
  {
    exists queryOrder, headerOrder ::
      && IsOrder(queryOrder, r.line.query.Keys) && IsOrder(headerOrder, r.headers.Keys)
      && buf == PrintRequest(r, queryOrder, headerOrder)
  }

  /** `HttpRequest::to_string`; None where printing the line throws. */
  method RequestToString(r: Request) returns (text: Option<string>)
    ensures text.None? <==> r.line.verb == UnsupportedMethod
    ensures text.Some? ==> IsPrinted(r, text.value)
  {
    hide PrintLine, PrintHeaders;
    var line := LineToString(r.line);
    if line.None? {
      return None;
    }
    var buf := line.value;
    ghost var queryOrder :| IsOrder(queryOrder, r.line.query.Keys) && buf == PrintLine(r.line, queryOrder);
    buf := buf + CRLF;
    var fields := HeadersToString(r.headers);
    ghost var headerOrder :| IsOrder(headerOrder, r.headers.Keys) && fields == PrintHeaders(r.headers, headerOrder);
    buf := buf + fields;
    buf := buf + "\r\n\r\n";
    buf := buf + r.body;
    OrderOfEmpty(queryOrder, r.line.query);
    OrderOfEmpty(headerOrder, r.headers);
    assert buf == PrintRequest(r, queryOrder, headerOrder);
    return Some(buf);
  }

  // -------------------------------------------------------------- round trip

  /** The body is as long as the fields announce it. */
  ghost predicate BodyFits(r: Request) {
    match BodyLength(r.headers)
    case Err(_) => false
    case Ok(n) => |r.body| == if n > 0 then n else 0
  }

  ghost predicate Transmissible(r: Request, queryOrder: seq<string>)
    requires forall k :: k in queryOrder ==> k in r.line.query
  {
    WellShaped(r.line) && Plain(Target(r.line, queryOrder)) && CleanHeaders(r.headers) && BodyFits(r)
  }

  /**
    Printing a request, with both tables walked in any order, and reading the bytes back
    in one piece, whatever follows them, returns the request exactly when its line has the
    shape of a parsed one and prints a plain target, its header entries are clean and its
    body has the announced length.
  */
  lemma RequestRoundTrip(r: Request, queryOrder: seq<string>, headerOrder: seq<string>, more: string)
    requires r.line.verb != UnsupportedMethod
    requires IsOrder(queryOrder, r.line.query.Keys) && IsOrder(headerOrder, r.headers.Keys)
    ensures (forall k :: k in queryOrder ==> k in r.line.query) && forall k :: k in headerOrder ==> k in r.headers
    ensures ReadOnce(PrintRequest(r, queryOrder, headerOrder) + more) == Done(r) <==> Transmissible(r, queryOrder)
  {
    hide ReadOnce, PrintLine, PrintHeaders, Target, CleanHeaders, BodyLength, WellShaped;
    OrderOfEmpty(queryOrder, r.line.query);
    OrderOfEmpty(headerOrder, r.headers);
    var p, tail := PrintLine(r.line, queryOrder), PrintAfterLine(r.headers, headerOrder, r.body);
    var printed := PrintRequest(r, queryOrder, headerOrder);
    if ReadOnce(printed + more) == Done(r) {
      assert printed + more == p + (tail + more);
      ReadBackIsClean(printed + more, r, queryOrder, tail + more);
      DoneBodyFits(printed + more, r);
    }
    if Transmissible(r, queryOrder) {
      CleanRequestReadsBack(r, queryOrder, headerOrder);
      VerdictIsStable(printed, more);
    }
  }

  /** A request that was read has the body its fields announce. */
  lemma DoneBodyFits(s: string, r: Request)
    requires ReadOnce(s) == Done(r)
    ensures BodyFits(r)
  {
    hide ParseLine, ParseHeaders, LineText, BlockText, Stoll;
  }

  lemma ReadBackIsClean(s: string, r: Request, queryOrder: seq<string>, tail: string)
    requires r.line.verb != UnsupportedMethod && IsOrder(queryOrder, r.line.query.Keys)
    requires forall k :: k in queryOrder ==> k in r.line.query
    requires s == PrintLine(r.line, queryOrder) + tail && CrlfAt(tail, 0)
    requires ReadOnce(s) == Done(r)
    ensures WellShaped(r.line) && Plain(Target(r.line, queryOrder)) && CleanHeaders(r.headers)
  {
    hide ReadOnce, ParseLine, ParseHeaders, LineText, BlockText, WellShaped;
    DoneHasParts(s, r);
    ParsedLineIsShaped(LineText(s));
    ParsedHeadersAreClean(BlockText(s));
    PrintedLineEnd(r.line, queryOrder);
    CutsAgree(s, PrintLine(r.line, queryOrder), tail);
    LineRoundTrip(r.line, queryOrder);
  }

  /** The reader cuts the stream where the line parser would have cut the printed line itself. */
  lemma CutsAgree(s: string, p: string, tail: string)
    requires s == p + tail && CrlfAt(tail, 0) && !CharAt(p, '\r', |p| - 1)
    requires FindHeadersEnd(s) >= 0
    ensures ParseLine(LineText(s)) == ParseLine(p)
  {
    FirstCrlfIsInHead(s);
    CutAtFirstCrlf(p, tail);
    CutIsStable(p);
  }

  lemma PrintedLineEnd(r: RequestLine, order: seq<string>)
    requires WellShaped(r) && forall k :: k in order ==> k in r.query
    ensures !CharAt(PrintLine(r, order), '\r', |PrintLine(r, order)| - 1)
  {
    var p := PrintLine(r, order);
    var v := VersionText(r.version);
    assert |v| == 3 && v[2] != '\r';
    assert p[|p| - 1] == v[2];
  }

  lemma CutAtFirstCrlf(p: string, tail: string)
    requires CrlfAt(tail, 0) && !CharAt(p, '\r', |p| - 1)
    ensures FindCrlf(p + tail) >= 0 && (p + tail)[..FindCrlf(p + tail)] == Cut(p)
  {
    var s := p + tail;
    assert CrlfAt(s, |p|);
    forall i | 0 <= i < |p| ensures CrlfAt(s, i) <==> CrlfAt(p, i) {}
  }

  lemma CutIsStable(s: string)
    ensures Cut(Cut(s)) == Cut(s)
  {
    var c := Cut(s);
    forall i ensures !CrlfAt(c, i) { assert !(0 <= i < |c| - 1) || !CrlfAt(s, i); }
  }

  lemma CleanRequestReadsBack(r: Request, queryOrder: seq<string>, headerOrder: seq<string>)
    requires WellShaped(r.line)
    requires IsOrder(queryOrder, r.line.query.Keys) && IsOrder(headerOrder, r.headers.Keys)
    requires (forall k :: k in queryOrder ==> k in r.line.query) && forall k :: k in headerOrder ==> k in r.headers
    requires Plain(Target(r.line, queryOrder)) && CleanHeaders(r.headers)
    ensures ReadOnce(PrintRequest(r, queryOrder, headerOrder)) == Done(r) <==> BodyFits(r)
  {
    hide ParseLine, ParseHeaders, PrintHeaders, CleanHeaders, Plain, Target, BodyFits;
    var s := PrintRequest(r, queryOrder, headerOrder);
    PlainLineReadsBack(r.line, queryOrder);
    PrintedFrame(PrintLine(r.line, queryOrder), r.headers, headerOrder, r.body);
    ReadsBackIfFits(s, r, if r.headers == map[] then CRLF + r.body else r.body);
  }

  lemma {:induction false} ReadsBackIfFits(s: string, r: Request, tail: string)
    requires FindHeadersEnd(s) >= 0 && FindHeadersEnd(s) + 4 <= |s| && s[FindHeadersEnd(s) + 4..] == tail
    requires ParseLine(LineText(s)) == Ok(r.line) && ParseHeaders(BlockText(s)) == Ok(r.headers)
    requires r.headers != map[] ==> tail == r.body
    ensures ReadOnce(s) == Done(r) <==> BodyFits(r)
  {
    hide ParseLine, ParseHeaders, LineText, BlockText, Stoll;
    assert r.body[..|r.body|] == r.body;
  }

  /** A first line and clean fields are cut apart again; an empty table leaves one CRLF in front of the body. */
  lemma PrintedFrame(p: string, m: Table, order: seq<string>, body: string)
    requires IsLine(p) && CleanHeaders(m) && IsOrder(order, m.Keys)
    ensures forall k :: k in order ==> k in m
    ensures
      var s := p + PrintAfterLine(m, order, body);
      && FindHeadersEnd(s) >= 0 && FindHeadersEnd(s) + 4 <= |s|
      && LineText(s) == p && ParseHeaders(BlockText(s)) == Ok(m)
      && s[FindHeadersEnd(s) + 4..] == if m == map[] then CRLF + body else body
  {
    hide ParseHeaders;
    OrderOfEmpty(order, m);
    var items := Items(HeaderItem, m, order);
    CleanItems(m, order);
    PrintHeadersTerminated(m, order);
    RegroupFields(p, PrintHeaders(m, order), Terminate(items), body);
    FrameOfLines(p, items, if m == map[] then CRLF + body else body);
    FirstCrlfIsInHead(p + PrintAfterLine(m, order, body));
  }

  lemma RegroupFields(p: string, fields: string, block: string, body: string)
    ensures block == fields + CRLF ==>
      p + (CRLF + (fields + ("\r\n\r\n" + body))) == p + CRLF + block + CRLF + body
    ensures fields == "" ==>
      p + (CRLF + (fields + ("\r\n\r\n" + body))) == p + CRLF + "" + CRLF + (CRLF + body)
  {}

  /** The part of a printed request in front of its body. */
  function PrintedHead(r: Request, queryOrder: seq<string>, headerOrder: seq<string>): string
    requires r.line.verb != UnsupportedMethod
    requires (forall k :: k in queryOrder ==> k in r.line.query) && forall k :: k in headerOrder ==> k in r.headers
  {
    PrintRequest(r.(body := ""), queryOrder, headerOrder)
  }

  /** A transmissible request printed in two parts. */
  ghost predicate IsSentApart(r: Request, head: string, body: string) {
    && r.line.verb != UnsupportedMethod && body == r.body != ""
    && exists queryOrder, headerOrder ::
      && IsOrder(queryOrder, r.line.query.Keys) && IsOrder(headerOrder, r.headers.Keys)
      && Transmissible(r, queryOrder) && head == PrintedHead(r, queryOrder, headerOrder)
  }

  lemma PrintedHeadLacksBody(r: Request, queryOrder: seq<string>, headerOrder: seq<string>)
    requires r.line.verb != UnsupportedMethod && r.body != ""
    requires IsOrder(queryOrder, r.line.query.Keys) && IsOrder(headerOrder, r.headers.Keys)
    requires (forall k :: k in queryOrder ==> k in r.line.query) && forall k :: k in headerOrder ==> k in r.headers
    requires Transmissible(r, queryOrder)
    ensures
      var head := PrintedHead(r, queryOrder, headerOrder);
      && head + r.body == PrintRequest(r, queryOrder, headerOrder)
      && ReadOnce(head) == Incomplete && FindHeadersEnd(head) >= 0
  {
    hide PrintHeaders, PrintLine, CleanHeaders, Plain, Target, ParseHeaders, ParseLine, BodyLength, LineText, BlockText;
    hide WellShaped, ReadOnce;
    var p := PrintLine(r.line, queryOrder);
    PlainLineReadsBack(r.line, queryOrder);
    PrintedLineIsLine(r.line, queryOrder);
    PrintedFrame(p, r.headers, headerOrder, "");
    AppendBody(p, PrintHeaders(r.headers, headerOrder), r.body);
    FieldlessLength(r.headers);
    BodyIsMissing(PrintedHead(r, queryOrder, headerOrder), r);
  }

  lemma SentApartIsRead(r: Request, head: string, body: string)
    requires IsSentApart(r, head, body)
    ensures ReadOnce(head) == Incomplete && FindHeadersEnd(head) >= 0 && ReadOnce(head + body) == Done(r)
  {
    hide ReadOnce, PrintRequest, PrintedHead, Transmissible, FindHeadersEnd;
    var queryOrder, headerOrder :|
      IsOrder(queryOrder, r.line.query.Keys) && IsOrder(headerOrder, r.headers.Keys)
      && Transmissible(r, queryOrder) && head == PrintedHead(r, queryOrder, headerOrder);
    PrintedHeadLacksBody(r, queryOrder, headerOrder);
    RequestRoundTrip(r, queryOrder, headerOrder, "");
    var text := PrintRequest(r, queryOrder, headerOrder);
    assert text + "" == text;
  }

  lemma PrintedLineIsLine(line: RequestLine, order: seq<string>)
    requires line.verb != UnsupportedMethod
    requires forall k :: k in order ==> k in line.query
    ensures PrintLine(line, order) != ""
  {}

  lemma FieldlessLength(headers: Table)
    ensures headers == map[] ==> BodyLength(headers) == Ok(0)
  {}

  lemma AppendBody(p: string, fields: string, body: string)
    ensures p + (CRLF + (fields + ("\r\n\r\n" + ""))) + body == p + (CRLF + (fields + ("\r\n\r\n" + body)))
  {}

  lemma BodyIsMissing(s: string, r: Request)
    requires FindHeadersEnd(s) >= 0 && FindHeadersEnd(s) + 4 <= |s| && s[FindHeadersEnd(s) + 4..] == ""
    requires ParseLine(LineText(s)) == Ok(r.line) && ParseHeaders(BlockText(s)) == Ok(r.headers)
    requires BodyFits(r) && r.body != ""
    ensures ReadOnce(s) == Incomplete
  {
    hide ParseLine, ParseHeaders, LineText, BlockText, BodyLength;
  }

  /** Where the reader cuts a line, its fields and what follows them. */
  lemma {:induction false} FrameOfLines(p: string, items: seq<string>, tail: string)
    requires IsLine(p) && AreLines(items)
    ensures
      var s := p + CRLF + Terminate(items) + CRLF + tail;
      && FindHeadersEnd(s) >= 0
      && LineText(s) == p && BlockText(s) == Terminate(items) && s[FindHeadersEnd(s) + 4..] == tail
  {
    var s := p + CRLF + Terminate(items) + CRLF + tail;
    var ls := [p] + items;
    assert ls[1..] == items;
    assert Terminate(ls) == p + CRLF + Terminate(items);
    FirstHeadersEnd(ls, tail);
    FindCrlfAfter(p, Terminate(items) + CRLF + tail);
    assert s == p + CRLF + (Terminate(items) + CRLF + tail);
    assert FindHeadersEnd(s) == |p| + |Terminate(items)|;
    assert s[..|p|] == p;
    assert s[|p| + 2..|p| + 2 + |Terminate(items)|] == Terminate(items);
  }
}
