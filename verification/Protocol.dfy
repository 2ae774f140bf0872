/** The HTTP vocabulary: failures, methods, versions and their texts. */
module Protocol {
  datatype HttpError =
    | InvalidRequestLine | MethodInvalid | VersionInvalid | InvalidQueryString | InvalidHeaders
    | LengthNotANumber | LengthOutOfRange

  datatype Result<+T> = Ok(value: T) | Err(error: HttpError)

  datatype Method = UnsupportedMethod | GET | HEAD | POST | PUT | DELETE | CONNECT | OPTIONS | TRACE

  datatype Version = UnsupportedVersion | V0_9 | V1_0 | V1_1

  /** `get_http_method_text`; the table has no text for the unsupported method. */
  function MethodText(m: Method): string
    requires m != UnsupportedMethod
  {
    match m
    case GET => "GET"
    case HEAD => "HEAD"
    case POST => "POST"
    case PUT => "PUT"
    case DELETE => "DELETE"
    case CONNECT => "CONNECT"
    case OPTIONS => "OPTIONS"
    case TRACE => "TRACE"
  }

  const METHODS: seq<Method> := [GET, HEAD, POST, PUT, DELETE, CONNECT, OPTIONS, TRACE]

  /** `get_http_method_code`: the key of the table whose text this is. */
  function MethodCode(s: string): Method {
    FindMethod(METHODS, s)
  }

  function FindMethod(methods: seq<Method>, s: string): Method {
    if methods == [] then UnsupportedMethod
    else if methods[0] != UnsupportedMethod && MethodText(methods[0]) == s then methods[0]
    else FindMethod(methods[1..], s)
  }

  lemma {:induction false} FoundMethod(methods: seq<Method>, s: string)
    ensures var m := FindMethod(methods, s); m != UnsupportedMethod ==> MethodText(m) == s
    ensures forall m :: m in methods && m != UnsupportedMethod && MethodText(m) == s ==>
      FindMethod(methods, s) != UnsupportedMethod
  {
    if methods != [] {
      FoundMethod(methods[1..], s);
    }
  }

  function VersionText(v: Version): string {
    match v
    case V1_1 => "1.1"
    case V1_0 => "1.0"
    case V0_9 => "0.9"
    case UnsupportedVersion => ""
  }

  function VersionCode(s: string): Version {
    if s == "1.1" then V1_1
    else if s == "1.0" then V1_0
    else if s == "0.9" then V0_9
    else UnsupportedVersion
  }

  /** The two tables are each other's inverse: a code has one text and a known text one code. */
  lemma MethodTablesInverse(m: Method, s: string)
    ensures m != UnsupportedMethod ==> MethodCode(MethodText(m)) == m
    ensures MethodCode(s) != UnsupportedMethod ==> MethodText(MethodCode(s)) == s
  {
    FoundMethod(METHODS, s);
    if m != UnsupportedMethod {
      FoundMethod(METHODS, MethodText(m));
      assert m in METHODS;
      TextsDiffer(m, MethodCode(MethodText(m)));
    }
  }

  lemma TextsDiffer(m: Method, n: Method)
    requires m != UnsupportedMethod && n != UnsupportedMethod && MethodText(m) == MethodText(n)
    ensures m == n
  {
    var s, t := MethodText(m), MethodText(n);
    assert |s| == |t| && s[0] == t[0] && s[1] == t[1];
  }

  lemma VersionTablesInverse(v: Version, s: string)
    ensures v != UnsupportedVersion ==> VersionCode(VersionText(v)) == v
    ensures VersionCode(s) != UnsupportedVersion ==> VersionText(VersionCode(s)) == s
  {}

  /** The texts, one by one. */
  lemma MethodTexts()
    ensures MethodText(GET) == "GET" && MethodText(HEAD) == "HEAD" && MethodText(POST) == "POST"
    ensures MethodText(PUT) == "PUT" && MethodText(DELETE) == "DELETE" && MethodText(CONNECT) == "CONNECT"
    ensures MethodText(OPTIONS) == "OPTIONS" && MethodText(TRACE) == "TRACE"
  {}

  /** The number behind a version, by which versions are compared: ten times the major one plus the minor one. */
  function VersionNumber(v: Version): nat {
    match v
    case UnsupportedVersion => 0
    case V0_9 => 9
    case V1_0 => 10
    case V1_1 => 11
  }

  /** Two digits and a dot for the number of the version. */
  ghost predicate SpellsVersion(text: string, v: Version) {
    && |text| == 3 && '0' <= text[0] <= '9' && text[1] == '.' && '0' <= text[2] <= '9'
    && 10 * (text[0] as int - '0' as int) + (text[2] as int - '0' as int) == VersionNumber(v)
  }

  lemma VersionTexts(v: Version, s: string)
    ensures VersionText(v) == "" <==> v == UnsupportedVersion
    ensures v != UnsupportedVersion ==> SpellsVersion(VersionText(v), v)
    ensures VersionCode(s) == v != UnsupportedVersion <==> v != UnsupportedVersion && SpellsVersion(s, v)
  {
    if v != UnsupportedVersion && SpellsVersion(s, v) {
      assert s == [s[0], s[1], s[2]] == VersionText(v);
    }
  }
}
