/**
  The request line: the parser with its cursor, the grammar it accepts, the printer, and when
  printing can be undone.
*/
module RequestLines {
  import opened Text
  import opened Tables
  import opened Protocol
  import UrlCodec
  import Query = QueryParameters

  datatype RequestLine = RequestLine(verb: Method, url: string, query: Table, version: Version)

  /** The text in front of the first CRLF. */
  function Cut(s: string): string {
    var n := FindCrlf(s);
    if n < 0 then s else s[..n]
  }

  /** The path and the query of a decoded target; a '?' at the very end stays in the path. */
  function SplitTarget(decoded: string): Result<(string, Table)> {
    var q := FindChar(decoded, '?');
    if q >= 0 && q + 1 < |decoded| then
      match Query.ParseQuery(decoded[q + 1..])
      case Err(e) => Err(e)
      case Ok(m) => Ok((decoded[..q], m))
    else Ok((decoded, map[]))
  }

  /** Whatever stands before the first '/' is skipped; the rest must name a version. */
  function ParseVersion(tail: string): Result<Version> {
    var slash := FindChar(tail, '/');
    if slash < 0 || slash + 1 == |tail| then Err(InvalidRequestLine)
    else
      var v := VersionCode(tail[slash + 1..]);
      if v == UnsupportedVersion then Err(VersionInvalid) else Ok(v)
  }

  function Assemble(verb: Method, target: Result<(string, Table)>, version: Result<Version>): Result<RequestLine> {
    if target.Err? then Err(target.error)
    else if version.Err? then Err(version.error)
    else Ok(RequestLine(verb, target.value.0, target.value.1, version.value))
  }

  function ParseRest(verb: Method, rest: string): Result<RequestLine> {
    var b := FindChar(rest, ' ');
    if b < 0 || b + 1 == |rest| then Err(InvalidRequestLine)
    else Assemble(verb, SplitTarget(UrlCodec.Decode(rest[..b])), ParseVersion(rest[b + 1..]))
  }

  function ParseCut(line: string): Result<RequestLine> {
    var a := FindChar(line, ' ');
    if a < 0 || a + 1 == |line| then Err(InvalidRequestLine)
    else
      var verb := MethodCode(line[..a]);
      if verb == UnsupportedMethod then Err(MethodInvalid) else ParseRest(verb, line[a + 1..])
  }

  function ParseLine(s: string): Result<RequestLine> {
    ParseCut(Cut(s))
  }

  /** The constructor of `HttpRequestLine`: one view whose front is removed piece by piece. */
  method ParseRequestLine(text: string) returns (r: Result<RequestLine>)
    ensures r == ParseLine(text)
  {
    var view := text;
    var newline := FindCrlf(view);
    if newline >= 0 {
      view := view[..newline];
    }
    assert view == Cut(text);
    var space := FindChar(view, ' ');
    if space < 0 || space + 1 == |view| {
      return Err(InvalidRequestLine);
    }
    var verb := MethodCode(view[..space]);
    if verb == UnsupportedMethod {
      return Err(MethodInvalid);
    }
    r := ParseAfterMethod(verb, view[space + 1..]);
  }

  method ParseAfterMethod(verb: Method, rest: string) returns (r: Result<RequestLine>)
    ensures r == ParseRest(verb, rest)
  {
    var view := rest;
    var space := FindChar(view, ' ');
    if space < 0 || space + 1 == |view| {
      return Err(InvalidRequestLine);
    }
    var url := UrlCodec.DecodeUrl(view[..space]);
    view := view[space + 1..];
    var target := ReadTarget(url);
    if target.Err? {
      return Err(target.error);
    }
    var version := ReadVersion(view);
    if version.Err? {
      return Err(version.error);
    }
    return Ok(RequestLine(verb, target.value.0, target.value.1, version.value));
  }

  method ReadTarget(decoded: string) returns (r: Result<(string, Table)>)
    ensures r == SplitTarget(decoded)
  {
    var question := FindChar(decoded, '?');
    if question >= 0 && question + 1 < |decoded| {
      var query := Query.ParseParameters(decoded[question + 1..]);
      return if query.Err? then Err(query.error) else Ok((decoded[..question], query.value));
    }
    return Ok((decoded, map[]));
  }

  method ReadVersion(view: string) returns (r: Result<Version>)
    ensures r == ParseVersion(view)
  {
    var slash := FindChar(view, '/');
    if slash < 0 || slash + 1 == |view| {
      return Err(InvalidRequestLine);
    }
    var version := VersionCode(view[slash + 1..]);
    return if version == UnsupportedVersion then Err(VersionInvalid) else Ok(version);
  }

  // ------------------------------------------------------------- the grammar

  datatype Pieces = Pieces(verb: string, target: string, protocol: string, version: string)

  /** METHOD SP target SP protocol "/" version. */
  function Write(p: Pieces): string {
    p.verb + [' '] + (p.target + [' '] + (p.protocol + ['/'] + p.version))
  }

  /** The text in front of the first CRLF consists of these pieces, and they mean r. */
  ghost predicate Spells(s: string, p: Pieces, r: RequestLine) {
    && Cut(s) == Write(p)
    && Lacks(p.verb, ' ') && Lacks(p.target, ' ') && Lacks(p.protocol, '/')
    && MethodCode(p.verb) == r.verb != UnsupportedMethod
    && VersionCode(p.version) == r.version != UnsupportedVersion
    && SplitTarget(UrlCodec.Decode(p.target)) == Ok((r.url, r.query))
  }

  /** The parser accepts exactly the lines of the grammar, with exactly their meaning. */
  lemma LineGrammar(s: string, r: RequestLine)
    ensures ParseLine(s) == Ok(r) <==> exists p :: Spells(s, p, r)
  {
    if ParseLine(s) == Ok(r) {
      var p := AcceptedIsSpelled(s, r);
    }
    if p :| Spells(s, p, r) {
      SpelledIsAccepted(s, p, r);
    }
  }

  lemma AcceptedIsSpelled(s: string, r: RequestLine) returns (p: Pieces)
    requires ParseLine(s) == Ok(r)
    ensures Spells(s, p, r)
  {
    hide ParseRest, SplitTarget, UrlCodec.Decode, FindMethod, VersionCode;
    var line := Cut(s);
    var a := FindChar(line, ' ');
    DividedAt(line, ' ');
    RestKeepsVerb(MethodCode(line[..a]), line[a + 1..]);
    var q := RestIsSpelled(r, line[a + 1..]);
    p := q.(verb := line[..a]);
  }

  lemma RestKeepsVerb(verb: Method, rest: string)
    ensures ParseRest(verb, rest).Ok? ==> ParseRest(verb, rest).value.verb == verb
  {
    hide SplitTarget, UrlCodec.Decode, ParseVersion;
  }

  function WriteRest(p: Pieces): string {
    p.target + [' '] + (p.protocol + ['/'] + p.version)
  }

  lemma RestIsSpelled(r: RequestLine, rest: string) returns (p: Pieces)
    requires ParseRest(r.verb, rest) == Ok(r)
    ensures rest == WriteRest(p)
    ensures Lacks(p.target, ' ') && Lacks(p.protocol, '/')
    ensures VersionCode(p.version) == r.version != UnsupportedVersion
    ensures SplitTarget(UrlCodec.Decode(p.target)) == Ok((r.url, r.query))
  {
    hide SplitTarget, UrlCodec.Decode, VersionCode;
    var b := FindChar(rest, ' ');
    var tail := rest[b + 1..];
    var slash := FindChar(tail, '/');
    DividedAt(rest, ' ');
    DividedAt(tail, '/');
    p := Pieces("", rest[..b], tail[..slash], tail[slash + 1..]);
  }

  lemma SpelledIsAccepted(s: string, p: Pieces, r: RequestLine)
    requires Spells(s, p, r)
    ensures ParseLine(s) == Ok(r)
  {
    hide ParseRest, SplitTarget, UrlCodec.Decode, FindMethod, VersionCode;
    var rest := WriteRest(p);
    var line := Write(p);
    FindCharAfter(p.verb, ' ', rest);
    assert line[..|p.verb|] == p.verb && line[|p.verb| + 1..] == rest;
    SpelledRestIsAccepted(p, r);
  }

  lemma SpelledRestIsAccepted(p: Pieces, r: RequestLine)
    requires Lacks(p.target, ' ') && Lacks(p.protocol, '/')
    requires VersionCode(p.version) == r.version != UnsupportedVersion
    requires SplitTarget(UrlCodec.Decode(p.target)) == Ok((r.url, r.query))
    ensures ParseRest(r.verb, WriteRest(p)) == Ok(r)
  {
    hide SplitTarget, UrlCodec.Decode;
    var tail := p.protocol + ['/'] + p.version;
    var rest := WriteRest(p);
    FindCharAfter(p.target, ' ', tail);
    FindCharAfter(p.protocol, '/', p.version);
    assert rest[..|p.target|] == p.target && rest[|p.target| + 1..] == tail;
    assert tail[|p.protocol| + 1..] == p.version;
    assert p.version != "";
  }

  // ---------------------------------------------------------------- printing

  function Target(r: RequestLine, order: seq<string>): string
    requires forall k :: k in order ==> k in r.query
  {
    if order == [] then r.url else r.url + ['?'] + Query.PrintQuery(r.query, order)
  }

  function PrintLine(r: RequestLine, order: seq<string>): string
    requires r.verb != UnsupportedMethod
    requires forall k :: k in order ==> k in r.query
  {
    Write(Printed(r, order))
  }

  function Printed(r: RequestLine, order: seq<string>): Pieces
    requires r.verb != UnsupportedMethod
    requires forall k :: k in order ==> k in r.query
  {
    Pieces(MethodText(r.verb), Target(r, order), "HTTP", VersionText(r.version))
  }

  /** buf is the line printed with its query in one of the orders the container may be walked in. */
  ghost predicate IsPrinted(r: RequestLine, buf: string)
    requires r.verb != UnsupportedMethod
  {
    exists order :: IsOrder(order, r.query.Keys) && buf == PrintLine(r, order)
  }

  /** `HttpRequestLine::to_string`; None for the unsupported method, whose lookup throws `std::out_of_range`. */
  method LineToString(r: RequestLine) returns (text: Option<string>)
    ensures text.None? <==> r.verb == UnsupportedMethod
    ensures text.Some? ==> IsPrinted(r, text.value)
  {
    hide MethodText, Query.PrintQuery;
    if r.verb == UnsupportedMethod {
      return None;
    }
    var buf := MethodText(r.verb);
    buf := buf + [' '];
    buf := buf + r.url;
    ghost var order: seq<string> := [];
    if r.query != map[] {
      buf := buf + ['?'];
      var query := Query.QueryToString(r.query);
      order :| IsOrder(order, r.query.Keys) && query == Query.PrintQuery(r.query, order);
      buf := buf + query;
    }
    OrderOfEmpty(order, r.query);
    assert buf == MethodText(r.verb) + [' '] + Target(r, order);
    buf := buf + [' '];
    buf := buf + "HTTP";
    buf := buf + ['/'];
    buf := buf + VersionText(r.version);
    assert buf == PrintLine(r, order);
    return Some(buf);
  }

  // -------------------------------------------------------------- round trip

  /** What every parsed line has: known method and version, and a query split off at the first '?'. */
  ghost predicate WellShaped(r: RequestLine) {
    && r.verb != UnsupportedMethod && r.version != UnsupportedVersion
    && Query.CleanQuery(r.query)
    && (r.query != map[] ==> Lacks(r.url, '?'))
    && (forall i :: CharAt(r.url, '?', i) ==> i == |r.url| - 1)
  }

  /** Text that the parser takes as it stands: no blank to end it, no escape to decode, no CRLF to cut it. */
  ghost predicate Plain(t: string) {
    Lacks(t, ' ') && Lacks(t, '%') && Lacks(t, '+') && CrlfFree(t)
  }

  lemma ParsedLineIsShaped(s: string)
    ensures ParseLine(s).Ok? ==> WellShaped(ParseLine(s).value)
  {
    if ParseLine(s).Ok? {
      var r := ParseLine(s).value;
      var p := AcceptedIsSpelled(s, r);
      SplitTargetIsShaped(UrlCodec.Decode(p.target));
    }
  }

  lemma SplitTargetIsShaped(d: string)
    ensures SplitTarget(d).Ok? ==>
      var (url, m) := SplitTarget(d).value;
      && Query.CleanQuery(m)
      && (m != map[] ==> Lacks(url, '?'))
      && (forall i :: CharAt(url, '?', i) ==> i == |url| - 1)
  {
    var q := FindChar(d, '?');
    if q >= 0 && q + 1 < |d| {
      Query.ParsedQueryIsClean(d[q + 1..]);
      DividedAt(d, '?');
    }
  }

  lemma ShapedTargetSplits(r: RequestLine, order: seq<string>)
    requires WellShaped(r) && IsOrder(order, r.query.Keys)
    ensures forall k :: k in order ==> k in r.query
    ensures SplitTarget(Target(r, order)) == Ok((r.url, r.query))
  {
    Query.QueryRoundTrip(r.query, order);
    OrderOfEmpty(order, r.query);
    if order != [] {
      var text := Query.PrintQuery(r.query, order);
      assert order[0] in r.query.Keys;
      assert text != "";
      FindCharAfter(r.url, '?', text);
      assert Target(r, order)[|r.url| + 1..] == text;
      assert Target(r, order)[..|r.url|] == r.url;
    }
  }

  /**
    A line that has a printed form reads back from it exactly when it has the shape of a
    parsed one and its printed target is plain, whatever order the query table is walked in.
  */
  lemma LineRoundTrip(r: RequestLine, order: seq<string>)
    requires r.verb != UnsupportedMethod && IsOrder(order, r.query.Keys)
    ensures forall k :: k in order ==> k in r.query
    ensures ParseLine(PrintLine(r, order)) == Ok(r) <==> WellShaped(r) && Plain(Target(r, order))
  {
    hide ParseLine, PrintLine, WellShaped, Plain, Target;
    OrderOfEmpty(order, r.query);
    if WellShaped(r) && Plain(Target(r, order)) {
      PlainLineReadsBack(r, order);
    }
    if ParseLine(PrintLine(r, order)) == Ok(r) {
      ParsedLineIsShaped(PrintLine(r, order));
      ReadBackIsPlain(r, order);
    }
  }

  /** A line that does not print back to itself: an escaped blank is printed bare and ends the target. */
  lemma EscapedBlankIsLost()
    ensures
      var r := RequestLine(GET, "/a b", map[], V1_1);
      && ParseLine("GET /a%20b HTTP/1.1") == Ok(r)
      && PrintLine(r, []) == "GET /a b HTTP/1.1"
      && ParseLine(PrintLine(r, [])) != Ok(r)
  {
    hide ParseLine, Plain, UrlCodec.Scan, SplitTarget;
    var r := RequestLine(GET, "/a b", map[], V1_1);
    EscapedBlankIsRead();
    ParsedLineIsShaped("GET /a%20b HTTP/1.1");
    LineRoundTrip(r, []);
    BlankIsNotPlain(Target(r, []), 2);
  }

  lemma BlankIsNotPlain(t: string, i: int)
    requires CharAt(t, ' ', i)
    ensures !Plain(t)
  {}

  lemma EscapedBlankIsRead()
    ensures ParseLine("GET /a%20b HTTP/1.1") == Ok(RequestLine(GET, "/a b", map[], V1_1))
  {
    hide ParseLine, UrlCodec.Decode, MethodCode, Cut, Write;
    EscapedBlankIsSpelled();
    EscapedBlankDecodes();
    assert FindChar("/a b", '?') == -1;
    MethodTablesInverse(GET, "GET");
    SpelledIsAccepted(
      "GET /a%20b HTTP/1.1", Pieces("GET", "/a%20b", "HTTP", "1.1"), RequestLine(GET, "/a b", map[], V1_1));
  }

  lemma EscapedBlankIsSpelled()
    ensures Cut("GET /a%20b HTTP/1.1") == Write(Pieces("GET", "/a%20b", "HTTP", "1.1"))
  {
    var s := "GET /a%20b HTTP/1.1";
    assert s == Write(Pieces("GET", "/a%20b", "HTTP", "1.1"));
    forall i ensures !CrlfAt(s, i) {}
  }

  lemma EscapedBlankDecodes()
    ensures UrlCodec.Decode("/a%20b") == "/a b"
  {
    UrlCodec.DecodePlain("/a");
    UrlCodec.DecodePlain("b");
    assert "%20b"[3..] == "b" && UrlCodec.StrtoulPair('2', '0') == 32;
    assert UrlCodec.First("%20b") == ' ' && UrlCodec.Width("%20b") == 3;
    assert [' '] + "b" == " b";
    UrlCodec.DecodeDistributes("/a", "%20b");
    assert "/a" + "%20b" == "/a%20b";
  }

  lemma PlainLineReadsBack(r: RequestLine, order: seq<string>)
    requires WellShaped(r) && IsOrder(order, r.query.Keys)
    requires forall k :: k in order ==> k in r.query
    requires Plain(Target(r, order))
    ensures ParseLine(PrintLine(r, order)) == Ok(r)
    ensures CrlfFree(PrintLine(r, order))
  {
    hide ParseLine, SplitTarget, UrlCodec.Scan, MethodText, MethodCode;
    var p := PrintLine(r, order);
    var t := Target(r, order);
    PlainLineIsCrlfFree(r, order);
    assert Cut(p) == p;
    UrlCodec.DecodePlain(t);
    ShapedTargetSplits(r, order);
    MethodTablesInverse(r.verb, "");
    VersionTablesInverse(r.version, "");
    VerbTextIsPlain(r.verb);
    SpelledIsAccepted(p, Printed(r, order), r);
  }

  lemma PlainLineIsCrlfFree(r: RequestLine, order: seq<string>)
    requires r.verb != UnsupportedMethod
    requires forall k :: k in order ==> k in r.query
    requires CrlfFree(Target(r, order))
    ensures CrlfFree(PrintLine(r, order))
  {
    var p := Printed(r, order);
    VerbTextIsPlain(r.verb);
    assert CrlfFree(p.protocol + ['/'] + p.version);
    ConcatCrlfFree(p.target, [' ']);
    ConcatCrlfFree(p.target + [' '], p.protocol + ['/'] + p.version);
    ConcatCrlfFree(p.verb, [' ']);
    ConcatCrlfFree(p.verb + [' '], p.target + [' '] + (p.protocol + ['/'] + p.version));
  }

  lemma VerbTextIsPlain(m: Method)
    requires m != UnsupportedMethod
    ensures Lacks(MethodText(m), ' ') && CrlfFree(MethodText(m))
  {}

  lemma ReadBackIsPlain(r: RequestLine, order: seq<string>)
    requires WellShaped(r) && IsOrder(order, r.query.Keys)
    requires forall k :: k in order ==> k in r.query
    requires ParseLine(PrintLine(r, order)) == Ok(r)
    ensures Plain(Target(r, order))
  {
    var p := PrintLine(r, order);
    var t := Target(r, order);
    var pieces := AcceptedIsSpelled(p, r);
    var d := UrlCodec.Decode(pieces.target);
    ReadTargetIsPrefix(p, pieces, r, Printed(r, order));
    PrintedTargetIsShortest(r, order, d);
    MultisetSize(t, d);
    UrlCodec.DecodeNeverLengthens(pieces.target);
    assert pieces.target == t;
    UrlCodec.DecodeUnescaped(t);
    LacksSubbag(d, t, ' ');
    forall i ensures !CharAt(t, '+', i) { assert !CharAt(d, ' ', i); }
    SpelledTargetCrlfFree(p, pieces, r);
  }

  /** What the parser takes for the target of a printed line never reaches beyond the printed target. */
  lemma ReadTargetIsPrefix(s: string, read: Pieces, r: RequestLine, printed: Pieces)
    requires Spells(s, read, r)
    requires s == Write(printed) && printed.verb == MethodText(r.verb)
    ensures read.target <= printed.target
  {
    var line := Cut(s);
    var n := |printed.verb| + 1;
    MethodTablesInverse(r.verb, read.verb);
    assert line <= s;
    forall i | 0 <= i < |read.target| ensures s[n + i] == read.target[i] {
      assert line[n + i] == read.target[i];
    }
    assert s[n + |printed.target|] == ' ';
    assert !CharAt(read.target, ' ', |printed.target|);
  }

  lemma SpelledTargetCrlfFree(s: string, p: Pieces, r: RequestLine)
    requires Spells(s, p, r)
    ensures CrlfFree(p.target)
  {
    var n := |p.verb| + 1;
    var line := Cut(s);
    forall i ensures !CrlfAt(line, i) { assert !(0 <= i < |line| - 1) || !CrlfAt(s, i); }
    SliceCrlfFree(line, n, n + |p.target|);
    assert line[n..n + |p.target|] == p.target;
  }

  lemma MultisetSize(a: string, b: string)
    requires multiset(a) <= multiset(b)
    ensures |a| <= |b| && (|a| == |b| ==> multiset(a) == multiset(b))
  {
    assert |multiset(a)| == |a| && |multiset(b)| == |b|;
    var rest := multiset(b) - multiset(a);
    assert multiset(b) == multiset(a) + rest;
    assert |multiset(b)| == |multiset(a)| + |rest|;
    if |rest| == 0 {
      assert rest == multiset{};
    }
  }

  lemma LacksSubbag(a: string, b: string, c: char)
    requires multiset(a) <= multiset(b) && Lacks(b, c)
    ensures Lacks(a, c)
  {
    assert c !in b by {
      forall j | 0 <= j < |b| ensures b[j] != c { assert !CharAt(b, c, j); }
    }
    assert multiset(b)[c] == 0 && multiset(a)[c] == 0;
    assert c !in a;
  }

  // ---------------------------- the printed target needs no byte it could do without

  ghost function Bag(ps: seq<string>): multiset<char> {
    if ps == [] then multiset{} else multiset(ps[0]) + multiset{'&'} + Bag(ps[1..])
  }

  lemma {:induction false} BagOfJoin(ps: seq<string>)
    requires ps != []
    ensures Bag(ps) == multiset(Join(ps, '&')) + multiset{'&'}
  {
    if |ps| == 1 {
      assert Bag(ps[1..]) == multiset{};
    } else {
      BagOfJoin(ps[1..]);
    }
  }

  lemma {:induction false} BagWithout(ps: seq<string>, i: nat)
    requires i < |ps|
    ensures Bag(ps) == multiset(ps[i]) + multiset{'&'} + Bag(ps[..i] + ps[i + 1..])
  {
    hide Bag;
    BagStep(ps);
    if i == 0 {
      assert ps[..0] + ps[1..] == ps[1..];
    } else {
      var fewer := ps[1..][..i - 1] + ps[1..][i..];
      var rest := ps[..i] + ps[i + 1..];
      BagWithout(ps[1..], i - 1);
      BagStep(rest);
      assert rest[1..] == fewer && rest[0] == ps[0] && ps[1..][i - 1] == ps[i];
      BagsRegroup(multiset(ps[0]) + multiset{'&'}, multiset(ps[i]) + multiset{'&'}, Bag(fewer));
    }
  }

  lemma BagStep(ps: seq<string>)
    requires ps != []
    ensures Bag(ps) == multiset(ps[0]) + multiset{'&'} + Bag(ps[1..])
  {}

  lemma BagsRegroup(a: multiset<char>, b: multiset<char>, c: multiset<char>)
    ensures a + (b + c) == b + (a + c)
  {}

  lemma {:induction false} BagCovers(items: seq<string>, ps: seq<string>)
    requires Distinct(items)
    requires forall x :: x in items ==> x in ps
    ensures Bag(items) <= Bag(ps)
  {
    if items != [] {
      assert items[0] in ps;
      var i :| 0 <= i < |ps| && ps[i] == items[0];
      var fewer := ps[..i] + ps[i + 1..];
      forall x | x in items[1..] ensures x in fewer {
        var n :| 0 <= n < |items[1..]| && items[1..][n] == x;
        assert items[n + 1] == x && x != items[0];
        assert x in ps;
        var j :| 0 <= j < |ps| && ps[j] == x;
        if j < i { assert fewer[j] == x; } else { assert fewer[j - 1] == x; }
      }
      BagCovers(items[1..], fewer);
      BagWithout(ps, i);
    }
  }

  /** Any query that parses to the table has at least the bytes of its printed form. */
  lemma PrintedQueryIsShortest(m: Table, order: seq<string>, q: string)
    requires Query.ParseQuery(q) == Ok(m) && IsOrder(order, m.Keys)
    ensures forall k :: k in order ==> k in m
    ensures multiset(Query.PrintQuery(m, order)) <= multiset(q)
  {
    Query.PrintedItemsWereRead(m, order, q);
    Query.ParsedQueryIsClean(q);
    if order != [] {
      var items := Items(Query.QueryItem, m, order);
      var ps := Split(q, '&');
      ItemsDiffer(m, order);
      BagCovers(items, ps);
      SmallerJoin(items, ps);
      SplitPieces(q, '&');
    }
  }

  lemma SmallerJoin(items: seq<string>, ps: seq<string>)
    requires items != [] && ps != [] && Bag(items) <= Bag(ps)
    ensures multiset(Join(items, '&')) <= multiset(Join(ps, '&'))
  {
    BagOfJoin(items);
    BagOfJoin(ps);
    forall c: char ensures multiset(Join(items, '&'))[c] <= multiset(Join(ps, '&'))[c] {
      assert Bag(items)[c] <= Bag(ps)[c];
    }
  }

  lemma ItemsDiffer(m: Table, order: seq<string>)
    requires Query.CleanQuery(m) && IsOrder(order, m.Keys)
    requires forall k :: k in order ==> k in m
    ensures Distinct(Items(Query.QueryItem, m, order))
  {
    var items := Items(Query.QueryItem, m, order);
    forall i | 0 <= i < |items| ensures Query.QueryEntry(items[i]) == Some((order[i], m[order[i]])) {
      Query.CleanItem(order[i], m[order[i]]);
    }
  }

  lemma PrintedTargetIsShortest(r: RequestLine, order: seq<string>, d: string)
    requires IsOrder(order, r.query.Keys)
    requires SplitTarget(d) == Ok((r.url, r.query))
    ensures forall k :: k in order ==> k in r.query
    ensures multiset(Target(r, order)) <= multiset(d)
  {
    OrderOfEmpty(order, r.query);
    if r.query == map[] {
      BareTarget(d, r.url);
    } else {
      var text := QueriedTarget(d, r.url, r.query);
      PrintedQueryIsShortest(r.query, order, text);
      LargerTail(r.url + ['?'], Query.PrintQuery(r.query, order), text);
    }
  }

  lemma BareTarget(d: string, url: string)
    requires SplitTarget(d) == Ok((url, map[]))
    ensures multiset(url) <= multiset(d)
  {
    LargerTail(url, "", d[|url|..]);
    assert url + "" == url && d == url + d[|url|..];
  }

  lemma QueriedTarget(d: string, url: string, m: Table) returns (text: string)
    requires SplitTarget(d) == Ok((url, m)) && m != map[]
    ensures d == url + ['?'] + text && Query.ParseQuery(text) == Ok(m)
  {
    text := d[FindChar(d, '?') + 1..];
    DividedAt(d, '?');
  }

  lemma LargerTail(a: string, b: string, c: string)
    requires multiset(b) <= multiset(c)
    ensures multiset(a + b) <= multiset(a + c)
  {
    assert multiset(a + b) == multiset(a) + multiset(b);
    assert multiset(a + c) == multiset(a) + multiset(c);
  }

  /**
    For every accepted line whose target holds neither '%' nor '+', printing what was
    parsed and parsing it again changes nothing, in whatever order the query is walked.
  */
  lemma NormalForm(s: string, p: Pieces, r: RequestLine, order: seq<string>)
    requires Spells(s, p, r)
    requires Lacks(p.target, '%') && Lacks(p.target, '+')
    requires IsOrder(order, r.query.Keys)
    ensures forall k :: k in order ==> k in r.query
    ensures ParseLine(PrintLine(r, order)) == ParseLine(s)
  {
    SpelledIsAccepted(s, p, r);
    ParsedLineIsShaped(s);
    OrderOfEmpty(order, r.query);
    UrlCodec.DecodePlain(p.target);
    var t := Target(r, order);
    PrintedTargetIsShortest(r, order, p.target);
    LacksSubbag(t, p.target, ' ');
    LacksSubbag(t, p.target, '%');
    LacksSubbag(t, p.target, '+');
    SpelledTargetCrlfFree(s, p, r);
    TargetCrlfFree(r, order, p.target);
    LineRoundTrip(r, order);
  }

  lemma TargetCrlfFree(r: RequestLine, order: seq<string>, d: string)
    requires SplitTarget(d) == Ok((r.url, r.query)) && CrlfFree(d)
    requires IsOrder(order, r.query.Keys)
    ensures forall k :: k in order ==> k in r.query
    ensures CrlfFree(Target(r, order))
  {
    hide SplitTarget, CrlfFree;
    OrderOfEmpty(order, r.query);
    UrlCrlfFree(d, r.url, r.query);
    if r.query != map[] {
      var text := QueriedTarget(d, r.url, r.query);
      TailCrlfFree(d, r.url, text);
      Query.PrintedQueryCrlfFree(r.query, order, text);
      QueryCrlfFree(r.url, Query.PrintQuery(r.query, order));
    }
  }

  lemma UrlCrlfFree(d: string, url: string, m: Table)
    requires SplitTarget(d) == Ok((url, m)) && CrlfFree(d)
    ensures CrlfFree(url)
  {
    hide CrlfFree;
    SliceCrlfFree(d, 0, |url|);
    assert d[0..|url|] == url;
  }

  lemma TailCrlfFree(d: string, url: string, text: string)
    requires d == url + ['?'] + text && CrlfFree(d)
    ensures CrlfFree(text)
  {
    hide CrlfFree;
    SliceCrlfFree(d, |url| + 1, |d|);
    assert d[|url| + 1..|d|] == text;
  }

  lemma QueryCrlfFree(url: string, query: string)
    requires CrlfFree(url) && CrlfFree(query)
    ensures CrlfFree(url + ['?'] + query)
  {
    ConcatCrlfFree(url, ['?']);
    ConcatCrlfFree(url + ['?'], query);
  }
}
