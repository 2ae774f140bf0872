/**
  Responses: the body operations that keep the announced length right, and the frame a client
  finds in the printed text.
*/
module Responses {
  import opened Text
  import opened Tables
  import opened Protocol
  import opened HeaderFields
  import Requests

  const SERVER_NAME := "tinyhttp V0.0.1"

  /** A status is a 16-bit number. */
  type StatusCode = n: nat | n < 0x1_0000

  /** The table of status texts. */
  type StatusTexts = map<StatusCode, string>

  /**
    `HttpResponseLine::to_string`; None for a version without a text, where
    `HttpVersionInvalid` is thrown, and for a status without one, where the lookup throws.
  */
  function PrintResponseLine(version: Version, status: StatusCode, texts: StatusTexts): Option<string> {
    if VersionText(version) == "" || status !in texts then None
    else Some("HTTP" + "/" + VersionText(version) + (" " + Decimal(status) + (" " + texts[status])))
  }

  function PrintResponse(line: string, headers: Table, order: seq<string>, body: string): string
    requires forall k :: k in order ==> k in headers
  {
    line + Requests.PrintAfterLine(headers, order, body)
  }

  function BasicHeaders(m: Table, version: Version, date: string): Table {
    var withDate := Emplace(Emplace(m, Lower("Server"), SERVER_NAME), Lower("Date"), date);
    if VersionNumber(version) > VersionNumber(V0_9) then Emplace(withDate, Lower("Connection"), "closed") else withDate
  }

  class HttpResponse {
    var version: Version
    var status: StatusCode
    const texts: StatusTexts
    var body: string
    const headers: HttpHeaders

    ghost predicate Valid()
      reads this, headers
    {
      headers.Valid()
    }

    /** The announced length is the decimal size of the body. */
    ghost predicate Framed()
      reads this, headers
    {
      Valid() && Requests.CONTENT_LENGTH in headers.fields
      && headers.fields[Requests.CONTENT_LENGTH] == Decimal(|body|)
    }

    /** Framed, with fields that a client reads back as they are. */
    ghost predicate Sendable()
      reads this, headers
    {
      Framed() && CleanHeaders(headers.fields)
    }

    constructor (version: Version, status: StatusCode, texts: StatusTexts, date: string)
      ensures Valid() && fresh(headers)
      ensures this.version == version && this.status == status && this.texts == texts && body == ""
      ensures headers.fields == BasicHeaders(map[], version, date)
      ensures CleanDate(date) ==> CleanHeaders(headers.fields)
    {
      hide Lower;
      this.version, this.status, this.texts, body := version, status, texts, "";
      headers := new HttpHeaders();
      new;
      SetBasicHeaders(date);
    }

    method SetBasicHeaders(date: string)
      requires Valid()
      modifies headers
      ensures Valid() && headers.fields == BasicHeaders(old(headers.fields), version, date)
      ensures CleanDate(date) && CleanHeaders(old(headers.fields)) ==> CleanHeaders(headers.fields)
    {
      hide Lower, CleanHeaders;
      if CleanDate(date) && CleanHeaders(headers.fields) {
        BasicHeadersAreClean(headers.fields, version, date);
      }
      headers.EmplaceField("Server", SERVER_NAME);
      headers.EmplaceField("Date", date);
      if VersionNumber(version) > VersionNumber(V0_9) {
        headers.EmplaceField("Connection", "closed");
      }
    }

    method ResetHeaders(date: string)
      requires Valid()
      modifies headers
      ensures Valid() && headers.fields == BasicHeaders(map[], version, date)
    {
      headers.Clear();
      SetBasicHeaders(date);
    }

    method SetBody(text: string)
      requires Valid()
      modifies `body, headers
      ensures Framed() && body == text
      ensures CleanHeaders(old(headers.fields)) ==> Sendable()
      ensures headers.fields == old(headers.fields)[Requests.CONTENT_LENGTH := Decimal(|text|)]
    {
      body := "";
      AppendToBody(text);
    }

    method AppendToBody(part: string)
      requires Valid()
      modifies `body, headers
      ensures Framed() && body == old(body) + part
      ensures headers.fields == old(headers.fields)[Requests.CONTENT_LENGTH := Decimal(|body|)]
      ensures CleanHeaders(old(headers.fields)) ==> Sendable()
    {
      hide Lower, CleanHeaders;
      if CleanHeaders(headers.fields) {
        AnnouncedStaysClean(headers.fields, |body + part|);
      }
      body := body + part;
      headers.InsertOrAssign("Content-Length", Decimal(|body|));
    }

    /**
      `HttpResponse::to_string`; None where the response line throws. A client reads a
      sendable response back: its version, status and status text, its fields and its body.
    */
    method ToString() returns (text: Option<string>)
      ensures text.None? <==> version == UnsupportedVersion || status !in texts
      ensures text.Some? ==> PrintResponseLine(version, status, texts).Some?
      ensures text.Some? ==>
        IsResponseText(PrintResponseLine(version, status, texts).value, headers.fields, body, text.value)
      ensures text.Some? && Sendable() && CrlfFree(texts[status]) ==>
        && IsStatusLine(PrintResponseLine(version, status, texts).value, version, status, texts[status])
        && ReadsAs(text.value, PrintResponseLine(version, status, texts).value, headers.fields, body)
    {
      hide PrintResponseLine, PrintHeaders, CleanHeaders, ReadsAs, Lower, Decimal, IsStatusLine;
      LineNeedsText(version, status, texts);
      var line := PrintResponseLine(version, status, texts);
      if line.None? {
        return None;
      }
      var buf := line.value;
      buf := buf + CRLF;
      var fields := headers.ToString();
      buf := buf + fields;
      buf := buf + "\r\n\r\n";
      buf := buf + body;
      ghost var order :| IsOrder(order, headers.fields.Keys) && fields == PrintHeaders(headers.fields, order);
      OrderOfEmpty(order, headers.fields);
      assert buf == PrintResponse(line.value, headers.fields, order, body);
      if Sendable() && CrlfFree(texts[status]) {
        ResponseLineIsLine(version, status, texts);
        ResponseIsFramed(line.value, headers.fields, order, body);
        StatusLineIsRead(version, status, texts);
      }
      return Some(buf);
    }
  }

  ghost predicate IsResponseText(line: string, m: Table, body: string, text: string) {
    exists order :: IsOrder(order, m.Keys) && text == PrintResponse(line, m, order, body)
  }

  /** What a client finds that cuts at the first CRLFCRLF and parses what stands before it. */
  ghost predicate ReadsAs(s: string, line: string, m: Table, body: string) {
    && FindHeadersEnd(s) >= 0 && FindHeadersEnd(s) + 4 <= |s|
    && Requests.LineText(s) == line
    && ParseHeaders(Requests.BlockText(s)) == Ok(m)
    && s[FindHeadersEnd(s) + 4..] == body
  }

  /**
    A client that cuts a framed response at its first CRLFCRLF gets the line, a block
    that parses to the same fields, and the body, exactly when the fields are clean; and
    the block announces exactly that body.
  */
  lemma ResponseIsFramed(line: string, m: Table, order: seq<string>, body: string)
    requires IsLine(line) && IsOrder(order, m.Keys)
    requires Requests.CONTENT_LENGTH in m && m[Requests.CONTENT_LENGTH] == Decimal(|body|)
    ensures forall k :: k in order ==> k in m
    ensures ReadsAs(PrintResponse(line, m, order, body), line, m, body) <==> CleanHeaders(m)
    ensures |body| <= MAX_LONG_LONG ==> Requests.BodyLength(m) == Ok(|body|)
  {
    hide ParseHeaders, PrintHeaders, Decimal, Lower, CleanHeaders, Requests.LineText, Requests.BlockText;
    OrderOfEmpty(order, m);
    AnnouncedLength(m, |body|);
    var s := PrintResponse(line, m, order, body);
    if CleanHeaders(m) {
      Requests.PrintedFrame(line, m, order, body);
    } else if FindHeadersEnd(s) >= 0 {
      ParsedHeadersAreClean(Requests.BlockText(s));
    }
  }

  /**
    How a client reads a status line, section 3.1.2 of RFC 7230: the protocol and its
    version in front of the first blank, the code without a leading zero in front of the
    second, and the rest.
  */
  ghost predicate IsStatusLine(line: string, version: Version, status: StatusCode, text: string) {
    var a := FindChar(line, ' ');
    && a >= 5 && line[..5] == "HTTP/" && SpellsVersion(line[5..a], version)
    && var b := FindChar(line, ' ', a + 1);
       && b > a
       && var code := line[a + 1..b];
          && code != "" && (forall c :: c in code ==> IsDigit(c)) && (code[0] == '0' ==> code == "0")
          && Stoll(code) == Number(status)
          && line[b + 1..] == text
  }

  /** What is printed is read so, and there is something to print exactly for a version and a status with texts. */
  lemma StatusLineIsRead(version: Version, status: StatusCode, texts: StatusTexts)
    requires PrintResponseLine(version, status, texts).Some? && status in texts
    ensures IsStatusLine(PrintResponseLine(version, status, texts).value, version, status, texts[status])
  {
    hide Decimal, Stoll, FindChar, VersionText;
    var line, v, code := PrintResponseLine(version, status, texts).value, VersionText(version), Decimal(status);
    LineNeedsText(version, status, texts);
    VersionTexts(version, "");
    StollInvertsDecimal(status);
    ProtocolLacksBlank(v, version);
    DigitsLackBlank(code);
    assert "HTTP" + "/" + v == "HTTP/" + v;
    TwoBlanks("HTTP/" + v, code, texts[status]);
    assert line[5..|v| + 5] == v && line[..5] == "HTTP/";
  }

  lemma ProtocolLacksBlank(v: string, version: Version)
    requires SpellsVersion(v, version)
    ensures Lacks("HTTP/" + v, ' ')
  {}

  lemma DigitsLackBlank(s: string)
    requires forall c :: c in s ==> IsDigit(c)
    ensures Lacks(s, ' ')
  {
    forall i ensures !CharAt(s, ' ', i) { assert !(0 <= i < |s|) || s[i] in s; }
  }

  /** Where the first two blanks stand, and what is around them. */
  lemma {:induction false} TwoBlanks(a: string, b: string, c: string)
    requires Lacks(a, ' ') && Lacks(b, ' ')
    ensures
      var s := a + (" " + b + (" " + c));
      && FindChar(s, ' ') == |a| && s[..|a|] == a
      && FindChar(s, ' ', |a| + 1) == |a| + 1 + |b|
      && s[|a| + 1..|a| + 1 + |b|] == b && s[|a| + |b| + 2..] == c
  {
    hide FindChar, Lacks;
    var s, tail := a + (" " + b + (" " + c)), b + [' '] + c;
    SlicesOfThree(a, b, c);
    assert s == a + [' '] + tail by { ThreeRegrouped(a, b, c); }
    FindCharAfter(a, ' ', tail);
    FindCharAfter(b, ' ', c);
    FindFurther(a + [' '], tail, ' ');
  }

  lemma ThreeRegrouped(a: string, b: string, c: string)
    ensures a + (" " + b + (" " + c)) == a + [' '] + (b + [' '] + c)
  {}

  /** Searching behind a prefix is searching what follows it. */
  lemma FindFurther(prefix: string, rest: string, c: char)
    requires FindChar(rest, c) >= 0
    ensures FindChar(prefix + rest, c, |prefix|) == |prefix| + FindChar(rest, c)
  {
    var k := FindChar(rest, c);
    assert CharAt(prefix + rest, c, |prefix| + k);
    forall i | |prefix| <= i < |prefix| + k ensures !CharAt(prefix + rest, c, i) {
      assert !CharAt(rest, c, i - |prefix|);
    }
  }

  lemma SlicesOfThree(a: string, b: string, c: string)
    ensures
      var s := a + (" " + b + (" " + c));
      s[..|a|] == a && s[|a| + 1..|a| + 1 + |b|] == b && s[|a| + |b| + 2..] == c
  {}

  lemma LineNeedsText(version: Version, status: StatusCode, texts: StatusTexts)
    ensures PrintResponseLine(version, status, texts).Some? <==> version != UnsupportedVersion && status in texts
  {
    VersionTexts(version, "");
  }

  lemma ResponseLineIsLine(version: Version, status: StatusCode, texts: StatusTexts)
    requires PrintResponseLine(version, status, texts).Some?
    requires status in texts && CrlfFree(texts[status])
    ensures IsLine(PrintResponseLine(version, status, texts).value)
  {
    hide Decimal;
    var head, code, text := "HTTP" + "/" + VersionText(version), " " + Decimal(status), " " + texts[status];
    DigitsCrlfFree(Decimal(status));
    ConcatCrlfFree(" ", Decimal(status));
    ConcatCrlfFree(" ", texts[status]);
    ConcatCrlfFree(code, text);
    ConcatCrlfFree(head, code + text);
  }

  lemma DigitsCrlfFree(s: string)
    requires forall c :: c in s ==> IsDigit(c)
    ensures CrlfFree(s) && !CharAt(s, ' ', 0)
  {
    forall i ensures !CrlfAt(s, i) { assert !(0 <= i < |s|) || s[i] in s; }
    assert s == "" || s[0] in s;
  }

  // ------------------------------------------------------------- the basic fields

  ghost predicate CleanDate(date: string) {
    CrlfFree(date) && !CharAt(date, ' ', 0)
  }

  /** Which fields a response starts with, named as they are looked up; what was set before stays. */
  lemma BasicFields(m: Table, version: Version, date: string, key: string)
    requires forall k :: k in m ==> Lower(k) == k
    ensures
      var fields := BasicHeaders(m, version, date);
      if Lower(key) in m then Lower(key) in fields && fields[Lower(key)] == m[Lower(key)]
      else if SameName(key, "server") then Lower(key) in fields && fields[Lower(key)] == SERVER_NAME
      else if SameName(key, "date") then Lower(key) in fields && fields[Lower(key)] == date
      else if SameName(key, "connection") && version in {V1_0, V1_1} then
        Lower(key) in fields && fields[Lower(key)] == "closed"
      else Lower(key) !in fields
  {
    hide Lower, SameName;
    FoldingIgnoresCase(key, "server");
    FoldingIgnoresCase(key, "date");
    FoldingIgnoresCase(key, "connection");
    FieldNames();
  }

  lemma FieldNames()
    ensures Lower("Server") == Lower("server") != Lower("date") == Lower("Date")
    ensures Lower("Connection") == Lower("connection")
    ensures Lower("connection") != Lower("server") && Lower("connection") != Lower("date")
  {}

  lemma BasicHeadersAreClean(m: Table, version: Version, date: string)
    requires CleanHeaders(m) && CleanDate(date)
    ensures CleanHeaders(BasicHeaders(m, version, date))
  {
    hide Lower;
    NameIsClean("Server", SERVER_NAME);
    NameIsClean("Date", date);
    NameIsClean("Connection", "closed");
  }

  lemma AnnouncedStaysClean(m: Table, n: nat)
    requires CleanHeaders(m)
    ensures CleanHeaders(m[Requests.CONTENT_LENGTH := Decimal(n)])
  {
    hide Lower, Decimal;
    DigitsCrlfFree(Decimal(n));
    NameIsClean("Content-Length", Decimal(n));
  }

  lemma NameIsClean(name: string, value: string)
    requires Lacks(name, ':') && CrlfFree(name) && CrlfFree(value) && !CharAt(value, ' ', 0)
    ensures CleanHeader(Lower(name), value)
  {
    hide Lower;
    LowerIsIdempotent(name);
    LowerKeepsPunctuation(name);
  }

  lemma AnnouncedLength(m: Table, n: nat)
    requires Requests.CONTENT_LENGTH in m && m[Requests.CONTENT_LENGTH] == Decimal(n)
    ensures n <= MAX_LONG_LONG ==> Requests.BodyLength(m) == Ok(n)
  {
    hide Lower, Stoll;
    StollInvertsDecimal(n);
  }
}
