/** Header fields: the block of CRLF-terminated lines, its table with folded names, and the printer. */
module HeaderFields {
  import opened Text
  import opened Tables
  import opened Protocol

  function StripSpaces(s: string): string {
    if s != "" && s[0] == ' ' then StripSpaces(s[1..]) else s
  }

  function HeaderEntry(line: string): Option<(string, string)> {
    var colon := FindChar(line, ':');
    if colon < 0 then None else Some((Lower(line[..colon]), StripSpaces(line[colon + 1..])))
  }

  function HeaderItem(name: string, value: string): string {
    name + ": " + value
  }

  function ParseHeaders(block: string): Result<Table> {
    match Collect(HeaderEntry, Lines(block), map[])
    case None => Err(InvalidHeaders)
    case Some(m) => Ok(m)
  }

  /** The constructor of `HttpHeaders`: a view that shrinks line by line. */
  method ParseHeaderBlock(block: string) returns (r: Result<Table>)
    ensures r == ParseHeaders(block)
  {
    var view := block;
    var headers: Table := map[];
    var next := FindCrlf(view);
    while next >= 0
      invariant next == FindCrlf(view)
      invariant Collect(HeaderEntry, Lines(block), map[]) == Collect(HeaderEntry, Lines(view), headers)
      decreases |view|
    {
      var line := view[..next];
      if line == "" {
        break;
      }
      ghost var lines := Lines(view);
      assert lines[0] == line && lines[1..] == Lines(view[next + 2..]);
      var colon := FindChar(line, ':');
      if colon < 0 {
        return Err(InvalidHeaders);
      }
      var name := line[..colon];
      var value := "";
      if colon + 1 < |line| {
        value := line[colon + 1..];
        var notSpace := 0;
        while notSpace < |value| && value[notSpace] == ' '
          invariant notSpace <= |value|
          invariant StripSpaces(value) == StripSpaces(value[notSpace..])
        {
          assert value[notSpace..][1..] == value[notSpace + 1..];
          notSpace := notSpace + 1;
        }
        value := value[notSpace..];
      }
      var folded := ToLower(name);
      assert HeaderEntry(line) == Some((folded, value));
      headers := Emplace(headers, folded, value);
      view := view[next + 2..];
      next := FindCrlf(view);
    }
    assert Lines(view) == [];
    return Ok(headers);
  }

  /**
    The loop keeps, for each folded name, the first line that carries it, and fails exactly on a
    line without colon.
  */
  lemma HeadersKeepFirstLine(block: string)
    ensures ParseHeaders(block).Ok? <==> forall l :: l in Lines(block) ==> !Lacks(l, ':')
    ensures ParseHeaders(block).Ok? ==> HoldsFirsts(HeaderEntry, Lines(block), ParseHeaders(block).value)
  {
    var ls := Lines(block);
    CollectKeepsFirsts(HeaderEntry, ls);
    assert AllParse(HeaderEntry, ls) <==> forall l :: l in ls ==> HeaderEntry(l).Some? by {
      if AllParse(HeaderEntry, ls) {
        forall l | l in ls ensures HeaderEntry(l).Some? {
          var n :| 0 <= n < |ls| && ls[n] == l;
        }
      }
    }
    forall l ensures HeaderEntry(l).Some? <==> !Lacks(l, ':') {}
  }

  // ------------------------------------------------------------- what a line says

  /** The line is a name in any spelling of its letters, a colon, blanks and the value. */
  ghost predicate SpellsField(line: string, name: string, value: string, spelled: string, blanks: string) {
    && line == spelled + (":" + (blanks + value))
    && SameName(spelled, name) && Lacks(spelled, ':')
    && (forall c :: c in blanks ==> c == ' ') && !CharAt(value, ' ', 0)
  }

  ghost predicate IsField(line: string, name: string, value: string) {
    exists spelled, blanks :: SpellsField(line, name, value, spelled, blanks)
  }

  lemma {:induction false} StrippedAre(blanks: string, value: string)
    requires (forall c :: c in blanks ==> c == ' ') && !CharAt(value, ' ', 0)
    ensures StripSpaces(blanks + value) == value
  {
    if blanks == "" {
      assert blanks + value == value;
    } else {
      assert blanks[0] in blanks && forall c :: c in blanks[1..] ==> c in blanks;
      assert (blanks + value)[1..] == blanks[1..] + value;
      StrippedAre(blanks[1..], value);
    }
  }

  lemma {:induction false} StrippedBlanks(s: string) returns (blanks: string)
    ensures s == blanks + StripSpaces(s)
    ensures (forall c :: c in blanks ==> c == ' ') && !CharAt(StripSpaces(s), ' ', 0)
  {
    blanks := "";
    if s != "" && s[0] == ' ' {
      blanks := StrippedBlanks(s[1..]);
      assert s == [s[0]] + s[1..];
      blanks := [' '] + blanks;
    }
  }

  /** A line is read as an entry for a name exactly when it is a field of that name, in whatever case. */
  lemma EntryIsField(line: string, name: string, value: string)
    ensures HeaderEntry(line) == Some((Lower(name), value)) <==> IsField(line, name, value)
  {
    hide Lower, SameName;
    if HeaderEntry(line) == Some((Lower(name), value)) {
      var colon := FindChar(line, ':');
      DividedAt(line, ':');
      FoldingIgnoresCase(line[..colon], name);
      var blanks := StrippedBlanks(line[colon + 1..]);
      assert line == line[..colon] + (":" + (blanks + value));
      assert SpellsField(line, name, value, line[..colon], blanks);
    }
    if IsField(line, name, value) {
      var spelled, blanks :| SpellsField(line, name, value, spelled, blanks);
      assert line == spelled + [':'] + (blanks + value);
      FindCharAfter(spelled, ':', blanks + value);
      assert line[..|spelled|] == spelled && line[|spelled| + 1..] == blanks + value;
      FoldingIgnoresCase(spelled, name);
      StrippedAre(blanks, value);
    }
  }

  /** Line i is the first field of this name. */
  ghost predicate FirstField(lines: seq<string>, name: string, i: int, value: string) {
    && 0 <= i < |lines| && IsField(lines[i], name, value)
    && forall j, v :: 0 <= j < i ==> !IsField(lines[j], name, v)
  }

  /** A parsed block has a name, in any spelling, exactly if some line is a field of it; then the first one's value. */
  lemma NameIsLookedUp(block: string, name: string, i: int, value: string)
    requires ParseHeaders(block).Ok?
    ensures FirstField(Lines(block), name, i, value) ==>
      var m := ParseHeaders(block).value;
      Lower(name) in m && m[Lower(name)] == value
    ensures (forall line, v :: line in Lines(block) ==> !IsField(line, name, v)) ==>
      Lower(name) !in ParseHeaders(block).value
  {
    hide Lower, IsField, HeaderEntry;
    var ls, m := Lines(block), ParseHeaders(block).value;
    HeadersKeepFirstLine(block);
    forall j | KeyedAt(HeaderEntry, ls, Lower(name), j)
      ensures IsField(ls[j], name, HeaderEntry(ls[j]).value.1)
    {
      var e := HeaderEntry(ls[j]).value;
      EntryIsField(ls[j], name, e.1);
    }
    if FirstField(ls, name, i, value) {
      EntryIsField(ls[i], name, value);
      assert KeyedAt(HeaderEntry, ls, Lower(name), i);
      assert FirstWith(HeaderEntry, ls, Lower(name), i);
    }
    if Lower(name) in m {
      var j :| FirstWith(HeaderEntry, ls, Lower(name), j);
      assert KeyedAt(HeaderEntry, ls, Lower(name), j);
      assert ls[j] in ls;
    }
  }

  // ---------------------------------------------------------------- printing

  function PrintHeaders(m: Table, order: seq<string>): string
    requires forall k :: k in order ==> k in m
  {
    var t := Terminate(Items(HeaderItem, m, order));
    if |t| < 2 then "" else t[..|t| - 2]
  }

  lemma {:induction false} TerminateAppend(ls: seq<string>, l: string)
    ensures Terminate(ls + [l]) == Terminate(ls) + l + CRLF
  {
    if ls == [] {
      assert ls + [l] == [l] && [l][1..] == [];
    } else {
      TerminateAppend(ls[1..], l);
      assert (ls + [l])[1..] == ls[1..] + [l];
    }
  }

  /** The text of a non-empty block is its terminated lines without the last CRLF. */
  lemma {:induction false} PrintHeadersTerminated(m: Table, order: seq<string>)
    requires forall k :: k in order ==> k in m
    ensures PrintHeaders(m, order) + CRLF == if order == [] then CRLF else Terminate(Items(HeaderItem, m, order))
  {
    var ls := Items(HeaderItem, m, order);
    if order != [] {
      assert ls == ls[..|ls| - 1] + [ls[|ls| - 1]];
      TerminateAppend(ls[..|ls| - 1], ls[|ls| - 1]);
    }
  }

  ghost function Block(m: Table, order: seq<string>): string
    requires forall k :: k in order ==> k in m
  {
    Terminate(Items(HeaderItem, m, order))
  }

  lemma BlockStep(m: Table, order: seq<string>, k: string)
    requires (forall o :: o in order ==> o in m) && k in m
    ensures Block(m, order + [k]) == Block(m, order) + k + [':'] + [' '] + m[k] + CRLF
  {
    ItemsAppend(HeaderItem, m, order, k);
    TerminateAppend(Items(HeaderItem, m, order), HeaderItem(k, m[k]));
  }

  // -------------------------------------------------------------- round trip

  ghost predicate CleanHeader(name: string, value: string) {
    && Lower(name) == name && Lacks(name, ':') && CrlfFree(name)
    && CrlfFree(value) && !CharAt(value, ' ', 0)
  }

  ghost predicate CleanHeaders(m: Table) {
    forall k :: k in m ==> CleanHeader(k, m[k])
  }

  lemma {:induction false} StripSpacesIsSuffix(s: string) returns (n: nat)
    ensures n <= |s| && StripSpaces(s) == s[n..]
    ensures !CharAt(StripSpaces(s), ' ', 0)
  {
    n := 0;
    if s != "" && s[0] == ' ' {
      n := StripSpacesIsSuffix(s[1..]);
      assert s[1..][n..] == s[n + 1..];
      n := n + 1;
    }
  }

  lemma ParsedHeadersAreClean(block: string)
    ensures ParseHeaders(block).Ok? ==> CleanHeaders(ParseHeaders(block).value)
  {
    if ParseHeaders(block).Ok? {
      var m := ParseHeaders(block).value;
      var ls := Lines(block);
      CollectKeepsFirsts(HeaderEntry, ls);
      LinesAreLines(block);
      forall k | k in m ensures CleanHeader(k, m[k]) {
        var i :| FirstWith(HeaderEntry, ls, k, i);
        assert IsLine(ls[i]);
        ParsedEntryIsClean(ls[i]);
      }
    }
  }

  lemma ParsedEntryIsClean(line: string)
    requires CrlfFree(line) && HeaderEntry(line).Some?
    ensures var e := HeaderEntry(line).value; CleanHeader(e.0, e.1)
  {
    var e := HeaderEntry(line).value;
    var colon := FindChar(line, ':');
    var rest := line[colon + 1..];
    DividedAt(line, ':');
    SliceCrlfFree(line, 0, colon);
    assert line[0..colon] == line[..colon];
    LowerKeepsPunctuation(line[..colon]);
    LowerIsIdempotent(line[..colon]);
    SliceCrlfFree(line, colon + 1, |line|);
    assert line[colon + 1..|line|] == rest;
    var n := StripSpacesIsSuffix(rest);
    SliceCrlfFree(rest, n, |rest|);
    assert rest[n..|rest|] == rest[n..];
  }

  lemma CleanItem(name: string, value: string)
    requires CleanHeader(name, value)
    ensures HeaderEntry(HeaderItem(name, value)) == Some((name, value))
    ensures IsLine(HeaderItem(name, value))
  {
    var l := HeaderItem(name, value);
    assert l == name + [':'] + ([' '] + value);
    FindCharAfter(name, ':', [' '] + value);
    assert l[..|name|] == name;
    assert l[|name| + 1..] == [' '] + value;
    assert ([' '] + value)[1..] == value;
    assert StripSpaces(value) == value;
    forall j ensures !CrlfAt(l, j) {
      assert !CrlfAt(name, j) && !CrlfAt(value, j - |name| - 2);
    }
  }

  lemma CleanItems(m: Table, order: seq<string>)
    requires IsOrder(order, m.Keys) && CleanHeaders(m)
    ensures forall k :: k in order ==> k in m
    ensures AreLines(Items(HeaderItem, m, order))
    ensures Lines(Terminate(Items(HeaderItem, m, order))) == Items(HeaderItem, m, order)
    ensures ParseHeaders(Terminate(Items(HeaderItem, m, order))) == Ok(m)
  {
    forall k | k in order ensures k in m { assert k in m.Keys; }
    var ls := Items(HeaderItem, m, order);
    forall k | k in m ensures HeaderEntry(HeaderItem(k, m[k])) == Some((k, m[k])) { CleanItem(k, m[k]); }
    forall i | 0 <= i < |ls| ensures IsLine(ls[i]) { CleanItem(order[i], m[order[i]]); }
    LinesInvertTerminate(ls);
    CollectInvertsItems(HeaderEntry, HeaderItem, m, order);
  }

  /** A printed block holds one line a field: the name, a colon, one blank, the value. */
  lemma PrintedFieldsAreSpelled(m: Table, order: seq<string>)
    requires IsOrder(order, m.Keys) && CleanHeaders(m)
    ensures
      var lines := Lines(PrintHeaders(m, order) + "\r\n");
      |lines| == |order| && forall i :: 0 <= i < |order| ==> lines[i] == order[i] + ": " + m[order[i]]
  {
    CleanItems(m, order);
    PrintHeadersTerminated(m, order);
    if order == [] {
      assert Lines(CRLF) == [];
    }
  }

  /**
    Printing a table, in any order, closing the block and parsing it gives the table back
    exactly when its entries are clean.
  */
  lemma HeadersRoundTrip(m: Table, order: seq<string>)
    requires IsOrder(order, m.Keys)
    ensures forall k :: k in order ==> k in m
    ensures ParseHeaders(PrintHeaders(m, order) + CRLF) == Ok(m) <==> CleanHeaders(m)
  {
    forall k | k in order ensures k in m { assert k in m.Keys; }
    PrintHeadersTerminated(m, order);
    ParsedHeadersAreClean(PrintHeaders(m, order) + CRLF);
    if CleanHeaders(m) {
      CleanItems(m, order);
      if order == [] {
        assert m == map[] by { assert forall k :: k in m ==> k in m.Keys; }
        assert Lines(CRLF) == [];
      }
    }
  }

  // ---------------------------------------------------------------- the class

  class HttpHeaders {
    var fields: Table

    /** Names are stored folded, whatever case they were given in. */
    ghost predicate Valid()
      reads this
    {
      forall k :: k in fields ==> Lower(k) == k
    }

    constructor ()
      ensures Valid() && fields == map[]
    {
      fields := map[];
    }

    method At(header: string) returns (value: Option<string>)
      ensures value == if Lower(header) in fields then Some(fields[Lower(header)]) else None
      ensures Valid() ==> forall k :: k in fields && SameName(k, header) ==> value == Some(fields[k])
      ensures Valid() && value.Some? ==> exists k :: k in fields && SameName(k, header)
    {
      forall k | k in fields ensures Lower(k) == Lower(header) <==> SameName(k, header) {
        FoldingIgnoresCase(k, header);
      }
      LowerIsIdempotent(header);
      FoldingIgnoresCase(Lower(header), header);
      var key := ToLower(header);
      value := if key in fields then Some(fields[key]) else None;
    }

    method InsertOrAssign(header: string, value: string)
      requires Valid()
      modifies this
      ensures Valid() && fields == old(fields)[Lower(header) := value]
    {
      var key := ToLower(header);
      LowerIsIdempotent(header);
      fields := fields[key := value];
    }

    method EmplaceField(header: string, value: string)
      requires Valid()
      modifies this
      ensures Valid() && fields == Emplace(old(fields), Lower(header), value)
    {
      var key := ToLower(header);
      LowerIsIdempotent(header);
      fields := Emplace(fields, key, value);
    }

    method Erase(header: string) returns (count: nat)
      requires Valid()
      modifies this
      ensures Valid() && fields == old(fields) - {Lower(header)}
      ensures count == if Lower(header) in old(fields) then 1 else 0
    {
      var key := ToLower(header);
      count := if key in fields then 1 else 0;
      fields := fields - {key};
    }

    method Contains(header: string) returns (found: bool)
      ensures found <==> Lower(header) in fields
    {
      var key := ToLower(header);
      found := key in fields;
    }

    method Clear()
      modifies this
      ensures Valid() && fields == map[]
    {
      fields := map[];
    }

    method ToString() returns (buf: string)
      ensures IsPrinted(fields, buf)
    {
      buf := HeadersToString(fields);
    }
  }

  /** buf is the table printed in one of the orders the container may be walked in. */
  ghost predicate IsPrinted(m: Table, buf: string) {
    exists order :: IsOrder(order, m.Keys) && buf == PrintHeaders(m, order)
  }

  /** `HttpHeaders::to_string`, walking the table in an order of the container's choosing. */
  method HeadersToString(m: Table) returns (buf: string)
    ensures IsPrinted(m, buf)
  {
    buf := "";
    ghost var order: seq<string> := [];
    if m != map[] {
      var remaining := m.Keys;
      while remaining != {}
        invariant remaining <= m.Keys
        invariant IsOrder(order, m.Keys - remaining)
        invariant forall k :: k in order ==> k in m
        invariant buf == Block(m, order)
        decreases |remaining|
      {
        var name :| name in remaining;
        BlockStep(m, order, name);
        buf := buf + name + [':'] + [' '] + m[name] + CRLF;
        OrderExtended(order, m.Keys - remaining, name);
        assert m.Keys - (remaining - {name}) == m.Keys - remaining + {name};
        order := order + [name];
        remaining := remaining - {name};
      }
      assert m.Keys - remaining == m.Keys;
      OrderOfEmpty(order, m);
      PrintHeadersTerminated(m, order);
      buf := buf[..|buf| - 2];
    }
    assert IsOrder(order, m.Keys) && buf == PrintHeaders(m, order);
  }
}
