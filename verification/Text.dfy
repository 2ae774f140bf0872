/**
  Byte strings and the searches the HTTP code performs on them.
  A byte is a `char`; lemmas that depend on the 8-bit range say so.
*/
module Text {
  const CRLF: string := "\r\n"

  // ---------------------------------------------------------------- searching

  predicate CharAt(s: string, c: char, i: int) {
    0 <= i < |s| && s[i] == c
  }

  predicate CrlfAt(s: string, i: int) {
    0 <= i && i + 1 < |s| && s[i] == '\r' && s[i + 1] == '\n'
  }

  predicate HeadersEndAt(s: string, i: int) {
    CrlfAt(s, i) && CrlfAt(s, i + 2)
  }

  ghost predicate Lacks(s: string, c: char) {
    forall i :: !CharAt(s, c, i)
  }

  ghost predicate CrlfFree(s: string) {
    forall i :: !CrlfAt(s, i)
  }

  /** `find` for a one-character pattern; -1 plays the part of `npos`. */
  function FindChar(s: string, c: char, from: nat := 0): (r: int)
    ensures r == -1 || from <= r
    ensures r == -1 ==> forall i :: from <= i ==> !CharAt(s, c, i)
    ensures r >= 0 ==> CharAt(s, c, r) && forall i :: from <= i < r ==> !CharAt(s, c, i)
    decreases |s| - from
  {
    if from >= |s| then -1 else if s[from] == c then from else FindChar(s, c, from + 1)
  }

  /** `find("\r\n")`. */
  function FindCrlf(s: string, from: nat := 0): (r: int)
    ensures r == -1 || from <= r
    ensures r == -1 ==> forall i :: from <= i ==> !CrlfAt(s, i)
    ensures r >= 0 ==> CrlfAt(s, r) && forall i :: from <= i < r ==> !CrlfAt(s, i)
    decreases |s| - from
  {
    if from >= |s| then -1 else if CrlfAt(s, from) then from else FindCrlf(s, from + 1)
  }

  /** `find("\r\n\r\n", from)`. */
  function FindHeadersEnd(s: string, from: nat := 0): (r: int)
    ensures r == -1 || from <= r
    ensures r == -1 ==> forall i :: from <= i ==> !HeadersEndAt(s, i)
    ensures r >= 0 ==> HeadersEndAt(s, r) && forall i :: from <= i < r ==> !HeadersEndAt(s, i)
    decreases |s| - from
  {
    if from >= |s| then -1 else if HeadersEndAt(s, from) then from else FindHeadersEnd(s, from + 1)
  }

  /** A found character divides the text; the part in front of it lacks the character. */
  lemma DividedAt(s: string, c: char)
    requires FindChar(s, c) >= 0
    ensures var i := FindChar(s, c); s == s[..i] + [c] + s[i + 1..] && Lacks(s[..i], c)
  {
    var i := FindChar(s, c);
    forall j ensures !CharAt(s[..i], c, j) { assert !(0 <= j < i) || !CharAt(s, c, j); }
  }

  lemma SliceCrlfFree(s: string, i: nat, j: nat)
    requires i <= j <= |s| && CrlfFree(s)
    ensures CrlfFree(s[i..j])
  {
    forall k ensures !CrlfAt(s[i..j], k) { assert !CrlfAt(s, i + k); }
  }

  lemma ConcatCrlfFree(a: string, b: string)
    requires CrlfFree(a) && CrlfFree(b) && !(CharAt(a, '\r', |a| - 1) && CharAt(b, '\n', 0))
    ensures CrlfFree(a + b)
  {
    forall k ensures !CrlfAt(a + b, k) { assert !CrlfAt(a, k) && !CrlfAt(b, k - |a|); }
  }

  lemma FindCharAfter(a: string, c: char, b: string)
    requires Lacks(a, c)
    ensures FindChar(a + [c] + b, c) == |a|
  {
    var s := a + [c] + b;
    assert CharAt(s, c, |a|);
    forall i | 0 <= i < |a| ensures !CharAt(s, c, i) { assert !CharAt(a, c, i); }
  }

  lemma FindCrlfAfter(a: string, b: string)
    requires CrlfFree(a)
    ensures FindCrlf(a + CRLF + b) == |a|
  {
    var s := a + CRLF + b;
    assert CrlfAt(s, |a|);
    forall i | 0 <= i < |a| ensures !CrlfAt(s, i) { assert !CrlfAt(a, i); }
  }

  // -------------------------------------------------- separated and terminated lists

  /** The pieces of `s` between occurrences of `c`; never empty. */
  function Split(s: string, c: char): (ps: seq<string>)
    ensures |ps| > 0
    decreases |s|
  {
    var i := FindChar(s, c);
    if i < 0 then [s] else [s[..i]] + Split(s[i + 1..], c)
  }

  function Join(ps: seq<string>, c: char): string {
    if |ps| == 0 then "" else if |ps| == 1 then ps[0] else ps[0] + [c] + Join(ps[1..], c)
  }

  lemma {:induction false} SplitInvertsJoin(ps: seq<string>, c: char)
    requires |ps| > 0 && forall p :: p in ps ==> Lacks(p, c)
    ensures Split(Join(ps, c), c) == ps
  {
    var s := Join(ps, c);
    if |ps| == 1 {
      assert Lacks(ps[0], c);
      assert Split(s, c) == [s];
    } else {
      FindCharAfter(ps[0], c, Join(ps[1..], c));
      assert s[..|ps[0]|] == ps[0];
      assert s[|ps[0]| + 1..] == Join(ps[1..], c);
      SplitInvertsJoin(ps[1..], c);
    }
  }

  lemma {:induction false} SplitPieces(s: string, c: char)
    ensures Join(Split(s, c), c) == s
    ensures forall p :: p in Split(s, c) ==> Lacks(p, c)
    decreases |s|
  {
    var i := FindChar(s, c);
    if i < 0 {
      assert Lacks(s, c);
    } else {
      SplitPieces(s[i + 1..], c);
      DividedAt(s, c);
      var rest := Split(s[i + 1..], c);
      assert Split(s, c)[1..] == rest;
    }
  }

  /** The CRLF-terminated lines of `s` in front of its first empty line. */
  function Lines(s: string): seq<string>
    decreases |s|
  {
    var i := FindCrlf(s);
    if i <= 0 then [] else [s[..i]] + Lines(s[i + 2..])
  }

  function Terminate(ls: seq<string>): string {
    if ls == [] then "" else ls[0] + CRLF + Terminate(ls[1..])
  }

  ghost predicate IsLine(l: string) {
    l != "" && CrlfFree(l)
  }

  ghost predicate AreLines(ls: seq<string>) {
    forall l :: l in ls ==> IsLine(l)
  }

  lemma {:induction false} LinesInvertTerminate(ls: seq<string>)
    requires AreLines(ls)
    ensures Lines(Terminate(ls)) == ls
  {
    if ls != [] {
      var s := Terminate(ls);
      assert IsLine(ls[0]);
      FindCrlfAfter(ls[0], Terminate(ls[1..]));
      assert s[..|ls[0]|] == ls[0];
      assert s[|ls[0]| + 2..] == Terminate(ls[1..]);
      LinesInvertTerminate(ls[1..]);
    }
  }

  lemma {:induction false} LinesAreLines(s: string)
    ensures AreLines(Lines(s))
    decreases |s|
  {
    var i := FindCrlf(s);
    if i > 0 {
      LinesAreLines(s[i + 2..]);
      forall j ensures !CrlfAt(s[..i], j) { assert !(0 <= j < i) || !CrlfAt(s, j); }
      assert IsLine(s[..i]);
    }
  }

  /** A header block as the reader cuts it: empty, or closed by a CRLF, with no empty line in it. */
  ghost predicate IsHeaderBlock(s: string) {
    && (s == "" || CrlfAt(s, |s| - 2))
    && !CrlfAt(s, 0)
    && forall i :: !HeadersEndAt(s, i)
  }

  lemma RestIsHeaderBlock(s: string, i: nat)
    requires IsHeaderBlock(s) && CrlfAt(s, i)
    ensures IsHeaderBlock(s[i + 2..])
  {
    var rest := s[i + 2..];
    forall j ensures 0 <= j && CrlfAt(s, i + 2 + j) <==> CrlfAt(rest, j) {}
    forall j ensures !HeadersEndAt(rest, j) { assert !HeadersEndAt(s, i + 2 + j); }
    assert !HeadersEndAt(s, i);
    assert rest == "" || CrlfAt(rest, |rest| - 2);
  }

  /** A line loop over such a block never meets an empty line and uses the block up. */
  lemma {:induction false} HeaderBlockIsItsLines(s: string)
    requires IsHeaderBlock(s)
    ensures Terminate(Lines(s)) == s
    decreases |s|
  {
    if s != "" {
      var i := FindCrlf(s);
      assert CrlfAt(s, |s| - 2);
      assert 0 < i <= |s| - 2;
      hide IsHeaderBlock, HeadersEndAt;
      var rest := s[i + 2..];
      RestIsHeaderBlock(s, i);
      HeaderBlockIsItsLines(rest);
      assert s == s[..i] + CRLF + rest;
      assert Lines(s)[1..] == Lines(rest);
    }
  }

  /** Lines, an empty line and anything at all: the first CRLFCRLF closes the last line. */
  lemma {:induction false} FirstHeadersEnd(ls: seq<string>, tail: string)
    requires ls != [] && AreLines(ls)
    ensures |Terminate(ls)| >= 2
    ensures FindHeadersEnd(Terminate(ls) + CRLF + tail) == |Terminate(ls)| - 2
  {
    var s := Terminate(ls) + CRLF + tail;
    assert IsLine(ls[0]);
    if |ls| == 1 {
      assert Terminate(ls[1..]) == "";
      assert s == ls[0] + CRLF + (CRLF + tail);
      HeadersEndHere(ls[0], tail);
    } else {
      var rest := Terminate(ls[1..]) + CRLF + tail;
      FirstHeadersEnd(ls[1..], tail);
      assert s == ls[0] + CRLF + rest;
      assert IsLine(ls[1]) && ls[1..][0] == ls[1];
      assert rest == ls[1] + CRLF + (Terminate(ls[1..][1..]) + CRLF + tail);
      LineStartsText(ls[1], Terminate(ls[1..][1..]) + CRLF + tail);
      HeadersEndMoves(ls[0], rest);
    }
  }

  lemma HeadersEndHere(line: string, tail: string)
    requires IsLine(line)
    ensures FindHeadersEnd(line + CRLF + (CRLF + tail)) == |line|
  {
    FindCrlfAfter(line, CRLF + tail);
    assert HeadersEndAt(line + CRLF + (CRLF + tail), |line|);
  }

  lemma LineStartsText(line: string, more: string)
    requires IsLine(line)
    ensures !CrlfAt(line + CRLF + more, 0)
  {
    FindCrlfAfter(line, more);
  }

  /** A line in front of a text that does not start with a CRLF only moves the end of the head. */
  lemma {:induction false} HeadersEndMoves(line: string, rest: string)
    requires IsLine(line) && FindHeadersEnd(rest) >= 0 && !CrlfAt(rest, 0)
    ensures FindHeadersEnd(line + CRLF + rest) == |line| + 2 + FindHeadersEnd(rest)
  {
    var s, n := line + CRLF + rest, |line|;
    var e := n + 2 + FindHeadersEnd(rest);
    forall j ensures CrlfAt(s, n + 2 + j) && 0 <= j <==> CrlfAt(rest, j) {}
    FindCrlfAfter(line, rest);
    assert HeadersEndAt(s, e);
    forall i | 0 <= i < e ensures !HeadersEndAt(s, i) {
      if i >= n + 2 {
        assert !HeadersEndAt(rest, i - n - 2);
      } else if i == n {
        assert !CrlfAt(s, n + 2 + 0);
      }
    }
  }

  // ---------------------------------------------------------------- case folding

  function LowerChar(c: char): char {
    if 'A' <= c <= 'Z' then (c as int + 32) as char else c
  }

  function Lower(s: string): (r: string)
    ensures |r| == |s| && forall i :: 0 <= i < |s| ==> r[i] == LowerChar(s[i])
  {
    if s == "" then "" else [LowerChar(s[0])] + Lower(s[1..])
  }

  lemma LowerIsIdempotent(s: string)
    ensures Lower(Lower(s)) == Lower(s)
  {
    var t := Lower(s);
    forall i | 0 <= i < |s| ensures Lower(t)[i] == t[i] {
      assert t[i] == LowerChar(s[i]);
    }
  }

  function Capitals(): (s: string)
    ensures |s| == 26
  {
    "ABCDEFGHIJKLMNOPQRSTUVWXYZ"
  }

  function Smalls(): (s: string)
    ensures |s| == 26
  {
    "abcdefghijklmnopqrstuvwxyz"
  }

  /** The same byte, or the same ASCII letter in the two cases. */
  ghost predicate SameLetter(a: char, b: char) {
    a == b
    || exists k :: 0 <= k < 26 && ((a, b) == (Capitals()[k], Smalls()[k]) || (a, b) == (Smalls()[k], Capitals()[k]))
  }

  /** Equal up to the case of ASCII letters. */
  ghost predicate SameName(a: string, b: string) {
    |a| == |b| && forall i :: 0 <= i < |a| ==> SameLetter(a[i], b[i])
  }

  lemma Alphabet(k: nat)
    requires k < 26
    ensures Capitals()[k] as int == 'A' as int + k && Smalls()[k] as int == 'a' as int + k
  {}

  lemma LettersFold(a: char, b: char)
    ensures LowerChar(a) !in Capitals()
    ensures LowerChar(a) == LowerChar(b) <==> SameLetter(a, b)
  {
    hide Capitals, Smalls;
    forall k: nat | k < 26
      ensures Capitals()[k] as int == 'A' as int + k && Smalls()[k] as int == 'a' as int + k
    {
      Alphabet(k);
    }
    if 'A' <= a <= 'Z' && b == LowerChar(a) {
      assert Capitals()[a as int - 'A' as int] == a;
    }
    if 'A' <= b <= 'Z' && a == LowerChar(b) {
      assert Capitals()[b as int - 'A' as int] == b;
    }
  }

  /** Folding leaves no capital, and equates exactly the names that differ in case only. */
  lemma FoldingIgnoresCase(a: string, b: string)
    ensures forall c :: c in Lower(a) ==> c !in Capitals()
    ensures Lower(a) == Lower(b) <==> SameName(a, b)
  {
    hide Lower, SameLetter, Capitals;
    forall i | 0 <= i < |a| ensures Lower(a)[i] !in Capitals() { LettersFold(a[i], a[i]); }
    forall i | 0 <= i < |a| && i < |b| ensures Lower(a)[i] == Lower(b)[i] <==> SameLetter(a[i], b[i]) {
      LettersFold(a[i], b[i]);
    }
  }

  lemma LowerKeepsPunctuation(s: string)
    ensures Lacks(s, ':') ==> Lacks(Lower(s), ':')
    ensures CrlfFree(s) ==> CrlfFree(Lower(s))
  {
    var t := Lower(s);
    forall i | 0 <= i < |s| ensures t[i] in ":\r\n" ==> t[i] == s[i] { assert t[i] == LowerChar(s[i]); }
    if Lacks(s, ':') {
      forall i ensures !CharAt(t, ':', i) { assert !CharAt(s, ':', i); }
    }
    if CrlfFree(s) {
      forall i ensures !CrlfAt(t, i) { assert !CrlfAt(s, i); }
    }
  }

  /** `utils::to_lower`. */
  method ToLower(view: string) returns (lowered: string)
    ensures lowered == Lower(view)
  {
    lowered := "";
    for i := 0 to |view|
      invariant lowered == Lower(view)[..i]
    {
      lowered := lowered + [LowerChar(view[i])];
    }
  }

  // ---------------------------------------------------------------- numbers

  const MAX_LONG_LONG: int := 0x7FFF_FFFF_FFFF_FFFF

  datatype ParsedNumber = Number(value: int) | NoDigits | TooLarge

  predicate IsSpace(c: char) {
    c == ' ' || '\t' <= c <= '\r'
  }

  predicate IsDigit(c: char) {
    '0' <= c <= '9'
  }

  function SkipSpaces(s: string): string {
    if s != "" && IsSpace(s[0]) then SkipSpaces(s[1..]) else s
  }

  function LeadingDigits(s: string): string {
    if s != "" && IsDigit(s[0]) then [s[0]] + LeadingDigits(s[1..]) else ""
  }

  function DecimalValue(s: string): nat
    requires forall c :: c in s ==> IsDigit(c)
  {
    if s == "" then 0
    else
      assert s[|s| - 1] in s && IsDigit(s[|s| - 1]);
      10 * DecimalValue(s[..|s| - 1]) + (s[|s| - 1] as int - '0' as int)
  }

  lemma {:induction false} LeadingDigitsAreDigits(s: string)
    ensures forall c :: c in LeadingDigits(s) ==> IsDigit(c)
  {
    if s != "" {
      LeadingDigitsAreDigits(s[1..]);
    }
  }

  /** `std::stoll` in base ten: spaces, one sign, then the longest run of digits. */
  function Stoll(s: string): ParsedNumber {
    var t := SkipSpaces(s);
    var negative := t != "" && t[0] == '-';
    var u := if t != "" && (t[0] == '-' || t[0] == '+') then t[1..] else t;
    var digits := LeadingDigits(u);
    LeadingDigitsAreDigits(u);
    if digits == "" then NoDigits
    else
      var n: int := if negative then -(DecimalValue(digits) as int) else DecimalValue(digits);
      if -MAX_LONG_LONG - 1 <= n <= MAX_LONG_LONG then Number(n) else TooLarge
  }

  /** `std::to_string` of a size. */
  function Decimal(n: nat): (s: string)
    ensures s != "" && forall c :: c in s ==> IsDigit(c)
    ensures DecimalValue(s) == n
    ensures s[0] == '0' ==> s == "0"
  {
    var d := ['0' + (n % 10) as char];
    if n < 10 then d else Decimal(n / 10) + d
  }

  function Power10(n: nat): nat {
    if n == 0 then 1 else 10 * Power10(n - 1)
  }

  const DIGITS := "0123456789"

  /** Numbers are read in base ten: one digit is its place, and digits behind shift those before. */
  lemma {:induction false} DecimalIsPositional(a: string, b: string)
    requires forall c :: c in a + b ==> IsDigit(c)
    ensures forall c :: c in a ==> IsDigit(c)
    ensures forall c :: c in b ==> IsDigit(c)
    ensures DecimalValue(a + b) == DecimalValue(a) * Power10(|b|) + DecimalValue(b)
    ensures |b| == 1 ==> DecimalValue(b) < 10 && b == [DIGITS[DecimalValue(b)]]
    decreases |b|
  {
    forall c | c in a ensures IsDigit(c) { assert c in a + b; }
    forall c | c in b ensures IsDigit(c) { assert c in a + b; }
    if b == [] {
      assert a + b == a;
    } else {
      var n := |b| - 1;
      assert (a + b)[..|a + b| - 1] == a + b[..n] && (a + b)[|a + b| - 1] == b[n];
      forall c | c in a + b[..n] ensures IsDigit(c) { assert c in a || c in b; }
      DecimalIsPositional(a, b[..n]);
      ShiftByTen(DecimalValue(a), Power10(n), DecimalValue(b[..n]));
      assert b[n] in b;
    }
  }

  lemma ShiftByTen(a: nat, power: nat, b: nat)
    ensures 10 * (a * power + b) == a * (10 * power) + 10 * b
  {}

  /** What `isspace` accepts. */
  lemma SpacesAre(c: char)
    ensures IsSpace(c) <==> c in [' ', '\t', '\n', 11 as char, 12 as char, '\r']
  {}

  lemma {:induction false} AllDigitsLead(s: string)
    requires forall c :: c in s ==> IsDigit(c)
    ensures LeadingDigits(s) == s
  {
    if s != "" {
      assert s[0] in s;
      AllDigitsLead(s[1..]);
    }
  }

  lemma StollInvertsDecimal(n: nat)
    ensures Stoll(Decimal(n)) == if n <= MAX_LONG_LONG then Number(n) else TooLarge
  {
    var s := Decimal(n);
    assert s[0] in s;
    AllDigitsLead(s);
  }

  lemma {:induction false} SkipsTo(spaces: string, rest: string)
    requires (forall c :: c in spaces ==> IsSpace(c)) && (rest == "" || !IsSpace(rest[0]))
    ensures SkipSpaces(spaces + rest) == rest
  {
    if spaces == "" {
      assert spaces + rest == rest;
    } else {
      assert spaces[0] in spaces;
      SkipsTo(spaces[1..], rest);
      assert (spaces + rest)[1..] == spaces[1..] + rest;
    }
  }

  lemma {:induction false} LeadsUpTo(digits: string, junk: string)
    requires (forall c :: c in digits ==> IsDigit(c)) && (junk == "" || !IsDigit(junk[0]))
    ensures LeadingDigits(digits + junk) == digits
  {
    if digits == "" {
      assert digits + junk == junk;
    } else {
      assert digits[0] in digits;
      LeadsUpTo(digits[1..], junk);
      assert (digits + junk)[1..] == digits[1..] + junk;
    }
  }

  /** Leading blanks and one sign are accepted and what follows the digits is ignored. */
  lemma StollReadsPrefix(spaces: string, sign: string, digits: string, junk: string)
    requires forall c :: c in spaces ==> IsSpace(c)
    requires sign == "" || sign == "+" || sign == "-"
    requires digits != "" && forall c :: c in digits ==> IsDigit(c)
    requires junk == "" || !IsDigit(junk[0])
    ensures
      var n: int := if sign == "-" then -(DecimalValue(digits) as int) else DecimalValue(digits);
      Stoll(spaces + (sign + (digits + junk)))
      == if -MAX_LONG_LONG - 1 <= n <= MAX_LONG_LONG then Number(n) else TooLarge
  {
    var u := digits + junk;
    assert digits[0] in digits;
    SkipsTo(spaces, sign + u);
    LeadsUpTo(digits, junk);
    if sign != "" {
      assert (sign + u)[1..] == u;
    } else {
      assert sign + u == u;
    }
  }
}
