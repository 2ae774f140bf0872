/** Percent-decoding as `utils::decode_url` does it, against every encoder that could have produced its input. */
module UrlCodec {
  import opened Text
  import opened Tables

  /** The value of a hexadecimal digit, either case; -1 for any other byte. */
  function HexValue(c: char): (v: int)
    ensures -1 <= v < 16
  {
    if '0' <= c <= '9' then c as int - '0' as int
    else if 'a' <= c <= 'f' then c as int - 'a' as int + 10
    else if 'A' <= c <= 'F' then c as int - 'A' as int + 10
    else -1
  }

  /** A digit is worth its place in the row of digits. */
  lemma HexDigitsAreInOrder(c: char, v: nat)
    requires v < 16
    ensures HexValue(c) == v <==> c == "0123456789abcdef"[v] || c == "0123456789ABCDEF"[v]
  {}

  /**
    `strtoul(two bytes, nullptr, 16)` narrowed to a byte: leading space, a sign and a
    valid prefix are accepted, anything else counts as zero.
   */
  function StrtoulPair(a: char, b: char): (v: int)
    ensures 0 <= v < 256
    ensures HexValue(a) >= 0 && HexValue(b) >= 0 ==> v == 16 * HexValue(a) + HexValue(b)
  {
    if HexValue(a) >= 0 then
      if HexValue(b) >= 0 then 16 * HexValue(a) + HexValue(b) else HexValue(a)
    else if HexValue(b) >= 0 && (IsSpace(a) || a == '+') then HexValue(b)
    else if HexValue(b) >= 0 && a == '-' then (256 - HexValue(b)) % 256
    else 0
  }

  /** The digits in front, in base sixteen, read on from what is read already. */
  function HexNumber(s: string, read: nat): nat {
    if s == "" || HexValue(s[0]) < 0 then read else HexNumber(s[1..], 16 * read + HexValue(s[0]))
  }

  /** What `strtoul` reads in base sixteen from any text: blanks, a sign, digits up to the first other byte. */
  function Strtoul(s: string): int {
    if s == "" then 0
    else if IsSpace(s[0]) then Strtoul(s[1..])
    else if s[0] == '-' then 0 - HexNumber(s[1..], 0)
    else if s[0] == '+' then HexNumber(s[1..], 0)
    else HexNumber(s, 0)
  }

  /** The two bytes of an escape become what `strtoul` reads in them, narrowed to a byte. */
  lemma EscapeIsStrtoul(a: char, b: char)
    ensures StrtoulPair(a, b) == Strtoul([a, b]) % 256
  {
    assert [a, b][1..] == [b] && [b][1..] == [];
    forall read: nat ensures HexNumber([b], read) == if HexValue(b) < 0 then read else 16 * read + HexValue(b) {}
    assert HexNumber([a, b], 0) == if HexValue(a) < 0 then 0 else HexNumber([b], HexValue(a));
    assert Strtoul([b]) == if HexValue(b) < 0 then 0 else HexValue(b);
  }

  /** How many bytes the next decoded byte is written with. */
  function Width(s: string): nat
    requires s != ""
  {
    if s[0] == '%' then 3 else 1
  }

  function First(s: string): char
    requires s != "" && Width(s) <= |s|
  {
    if s[0] == '%' then StrtoulPair(s[1], s[2]) as char else if s[0] == '+' then ' ' else s[0]
  }

  /** The decoded bytes, or None when an escape is cut off by the end of the input. */
  function Scan(s: string): Option<string> {
    if s == "" then Some("")
    else if |s| < Width(s) then None
    else Prepend(First(s), Scan(s[Width(s)..]))
  }

  function Prepend(c: char, rest: Option<string>): Option<string> {
    match rest case None => None case Some(r) => Some([c] + r)
  }

  function Append(a: string, rest: Option<string>): Option<string> {
    match rest case None => None case Some(r) => Some(a + r)
  }

  /** A cut-off escape anywhere empties the whole result. */
  function Decode(s: string): string {
    match Scan(s) case None => "" case Some(d) => d
  }

  method DecodeUrl(url: string) returns (decoded: string)
    ensures decoded == Decode(url)
  {
    var view := url;
    decoded := "";
    AppendNothing(Scan(url));
    while view != ""
      invariant Scan(url) == Append(decoded, Scan(view))
      decreases |view|
    {
      if view[0] == '%' {
        if |view| < 3 {
          return "";
        }
        var c := StrtoulPair(view[1], view[2]) as char;
        AppendStep(decoded, c, Scan(view[3..]));
        decoded := decoded + [c];
        view := view[3..];
      } else if view[0] == '+' {
        AppendStep(decoded, ' ', Scan(view[1..]));
        decoded := decoded + [' '];
        view := view[1..];
      } else {
        AppendStep(decoded, view[0], Scan(view[1..]));
        decoded := decoded + [view[0]];
        view := view[1..];
      }
    }
    assert decoded + "" == decoded;
  }

  lemma AppendNothing(rest: Option<string>)
    ensures Append("", rest) == rest
  {
    if rest.Some? { assert "" + rest.value == rest.value; }
  }

  lemma AppendStep(a: string, c: char, rest: Option<string>)
    ensures Append(a, Prepend(c, rest)) == Append(a + [c], rest)
  {
    if rest.Some? { assert a + ([c] + rest.value) == a + [c] + rest.value; }
  }

  // ------------------------------------------------------------ encoders undone

  /** `enc` is one of the texts a percent-encoder may write for `plain`: any byte may be escaped, in either case. */
  ghost predicate Encodes(plain: string, enc: string)
    decreases |enc|
  {
    if plain == "" || enc == "" then plain == "" && enc == ""
    else if enc[0] == '%' then
      && |enc| >= 3
      && HexValue(enc[1]) >= 0 && HexValue(enc[2]) >= 0
      && plain[0] as int == 16 * HexValue(enc[1]) + HexValue(enc[2])
      && Encodes(plain[1..], enc[3..])
    else (if enc[0] == '+' then plain[0] == ' ' else plain[0] == enc[0]) && Encodes(plain[1..], enc[1..])
  }

  /** Every escape that the scan meets is complete and made of hexadecimal digits. */
  ghost predicate WellEscaped(s: string)
    decreases |s|
  {
    s == "" ||
    if s[0] == '%' then |s| >= 3 && HexValue(s[1]) >= 0 && HexValue(s[2]) >= 0 && WellEscaped(s[3..])
    else WellEscaped(s[1..])
  }

  /** Decoding inverts every encoder, and on well-escaped text nothing else does. */
  lemma {:induction false} DecodeInvertsEncoders(plain: string, enc: string)
    ensures Encodes(plain, enc) <==> WellEscaped(enc) && Scan(enc) == Some(plain)
    ensures Encodes(plain, enc) ==> Decode(enc) == plain
    decreases |enc|
  {
    if enc != "" {
      var k := if Width(enc) <= |enc| then Width(enc) else 1;
      if plain != "" {
        DecodeInvertsEncoders(plain[1..], enc[k..]);
        assert plain == [plain[0]] + plain[1..];
        if Scan(enc).Some? {
          assert Scan(enc).value[1..] == Scan(enc[k..]).value;
        }
      }
    }
  }

  lemma {:induction false} ScanLength(s: string)
    ensures Scan(s).Some? ==>
      |Scan(s).value| <= |s| && (|Scan(s).value| == |s| <==> Lacks(s, '%'))
    decreases |s|
  {
    if s != "" {
      var k := if Width(s) <= |s| then Width(s) else 1;
      ScanLength(s[k..]);
      if s[0] == '%' {
        assert CharAt(s, '%', 0);
      } else if Lacks(s, '%') {
        forall i ensures !CharAt(s[1..], '%', i) { assert !CharAt(s, '%', i + 1); }
      } else if Lacks(s[1..], '%') {
        forall i ensures !CharAt(s, '%', i) { assert !CharAt(s[1..], '%', i - 1); }
      }
    }
  }

  /** The result is never longer than the input, and as long as it only when nothing was escaped. */
  lemma DecodeNeverLengthens(s: string)
    ensures |Decode(s)| <= |s|
    ensures |Decode(s)| == |s| <==> Lacks(s, '%')
  {
    ScanLength(s);
    if Scan(s).None? {
      CutEscape(s);
      var i :| IsCutEscape(s, i);
      assert CharAt(s, '%', i);
    }
  }

  /** Decoding runs through concatenation when the first part ends between escapes. */
  lemma {:induction false} DecodeDistributes(a: string, b: string)
    requires Scan(a).Some?
    ensures Scan(a + b) == Append(Scan(a).value, Scan(b))
    ensures Decode(a + b) == if Scan(b).Some? then Decode(a) + Decode(b) else ""
    decreases |a|
  {
    if a == "" {
      assert a + b == b;
      AppendNothing(Scan(b));
    } else {
      var k := Width(a);
      DecodeDistributes(a[k..], b);
      assert (a + b)[k..] == a[k..] + b;
      PrependAppend(First(a), Scan(a[k..]).value, Scan(b));
    }
  }

  lemma PrependAppend(c: char, x: string, rest: Option<string>)
    ensures Prepend(c, Append(x, rest)) == Append([c] + x, rest)
  {
    if rest.Some? { assert [c] + (x + rest.value) == [c] + x + rest.value; }
  }

  /** At i, after complete text, an escape starts and fewer than two bytes follow it. */
  ghost predicate IsCutEscape(s: string, i: int) {
    CharAt(s, '%', i) && |s| - i < 3 && Scan(s[..i]).Some?
  }

  /** The scan fails exactly on a cut-off escape. */
  lemma {:induction false} CutEscape(s: string)
    ensures Scan(s).None? <==> exists i :: IsCutEscape(s, i)
    decreases |s|
  {
    if i :| IsCutEscape(s, i) {
      DecodeDistributes(s[..i], s[i..]);
      assert s == s[..i] + s[i..];
    }
    if Scan(s).None? {
      if |s| < Width(s) {
        assert s[..0] == "";
        assert IsCutEscape(s, 0);
      } else {
        var k := Width(s);
        CutEscape(s[k..]);
        var i :| IsCutEscape(s[k..], i);
        CutEscapeBehind(s, i);
      }
    }
  }

  lemma CutEscapeBehind(s: string, i: nat)
    requires s != "" && Width(s) <= |s| && IsCutEscape(s[Width(s)..], i)
    ensures IsCutEscape(s, Width(s) + i)
  {
    var k := Width(s);
    var head, middle := s[..k], s[k..][..i];
    assert Width(head) == k && head[k..] == "";
    assert Scan(head[k..]) == Some("");
    DecodeDistributes(head, middle);
    assert s[..k + i] == head + middle;
  }

  /** A truncated escape makes the whole result empty, and only that or an empty input does. */
  lemma TruncatedEscapeEmptiesResult(s: string)
    ensures Decode(s) == "" <==> s == "" || exists i :: IsCutEscape(s, i)
  {
    CutEscape(s);
  }

  /** Text without '%' and '+' is its own decoding. */
  lemma {:induction false} DecodePlain(s: string)
    requires Lacks(s, '%') && Lacks(s, '+')
    ensures Scan(s) == Some(s)
  {
    if s != "" {
      assert !CharAt(s, '%', 0) && !CharAt(s, '+', 0);
      forall c, i | c == '%' || c == '+' ensures !CharAt(s[1..], c, i) { assert !CharAt(s, c, i + 1); }
      DecodePlain(s[1..]);
      assert s == [s[0]] + s[1..];
    }
  }

  /** Without escapes decoding only turns each '+' into a space. */
  lemma {:induction false} DecodeUnescaped(s: string)
    requires Lacks(s, '%')
    ensures Scan(s).Some? && |Scan(s).value| == |s|
    ensures forall i :: 0 <= i < |s| ==> Scan(s).value[i] == if s[i] == '+' then ' ' else s[i]
  {
    if s != "" {
      assert !CharAt(s, '%', 0);
      forall i ensures !CharAt(s[1..], '%', i) { assert !CharAt(s, '%', i + 1); }
      DecodeUnescaped(s[1..]);
    }
  }
}
