/** The query string: `k=v&k=v...` read into a table and printed back. */
module QueryParameters {
  import opened Text
  import opened Tables
  import opened Protocol

  function QueryEntry(param: string): Option<(string, string)> {
    var sep := FindChar(param, '=');
    if sep < 0 then None else Some((param[..sep], param[sep + 1..]))
  }

  function QueryItem(key: string, value: string): string {
    key + ['='] + value
  }

  function Collected(collected: Option<Table>): Result<Table> {
    match collected case None => Err(InvalidQueryString) case Some(m) => Ok(m)
  }

  function ParseQuery(q: string): Result<Table> {
    if q == "" then Ok(map[]) else Collected(Collect(QueryEntry, Split(q, '&'), map[]))
  }

  /** One parameter at a time off the front of the view, as the loop takes them. */
  function ParseFrom(view: string, parameters: Table): Option<Table>
    decreases |view|
  {
    var next := FindChar(view, '&');
    var param := if next >= 0 then view[..next] else view;
    match QueryEntry(param)
    case None => None
    case Some(e) =>
      var more := Emplace(parameters, e.0, e.1);
      if next >= 0 then ParseFrom(view[next + 1..], more) else Some(more)
  }

  lemma {:induction false} ParseFromCollects(view: string, parameters: Table)
    ensures ParseFrom(view, parameters) == Collect(QueryEntry, Split(view, '&'), parameters)
    decreases |view|
  {
    var next := FindChar(view, '&');
    var param := if next >= 0 then view[..next] else view;
    if QueryEntry(param).Some? {
      var e := QueryEntry(param).value;
      var more := Emplace(parameters, e.0, e.1);
      var rest := Split(view, '&')[1..];
      if next >= 0 {
        ParseFromCollects(view[next + 1..], more);
        assert rest == Split(view[next + 1..], '&');
      } else {
        assert rest == [];
        assert Collect(QueryEntry, rest, more) == Some(more);
      }
    }
  }

  lemma SplitParameter(view: string, next: int, param: string, sep: int, value: string)
    requires next == FindChar(view, '&') && param == if next >= 0 then view[..next] else view
    requires sep == FindChar(param, '=') && sep >= 0
    requires value == if sep + 1 < |param| then param[sep + 1..] else ""
    ensures QueryEntry(param) == Some((view[..sep], value))
  {
    assert view[..sep] == param[..sep];
    assert value == param[sep + 1..];
  }

  /** The constructor of `HttpQueryParameters`: a view that shrinks parameter by parameter. */
  method ParseParameters(query: string) returns (r: Result<Table>)
    ensures r == ParseQuery(query)
  {
    if query == "" {
      return Ok(map[]);
    }
    ParseFromCollects(query, map[]);
    var view := query;
    var parameters: Table := map[];
    var next := 0;
    while next >= 0
      invariant ParseFrom(query, map[]) == if next >= 0 then ParseFrom(view, parameters) else Some(parameters)
      decreases next >= 0, |view|
    {
      next := FindChar(view, '&');
      var param := if next >= 0 then view[..next] else view;
      var sep := FindChar(param, '=');
      if sep < 0 {
        return Err(InvalidQueryString);
      }
      var key := view[..sep];
      var value := if sep + 1 < |param| then param[sep + 1..] else "";
      SplitParameter(view, next, param, sep, value);
      parameters := Emplace(parameters, key, value);
      if next >= 0 {
        view := view[next + 1..];
      }
    }
    return Ok(parameters);
  }

  // ---------------------------------------------------------------- printing

  function PrintQuery(m: Table, order: seq<string>): string
    requires forall k :: k in order ==> k in m
  {
    Join(Items(QueryItem, m, order), '&')
  }

  /** The pieces as the printing loop leaves them, each followed by its separator. */
  function Trailed(ps: seq<string>, c: char): string {
    if ps == [] then "" else ps[0] + [c] + Trailed(ps[1..], c)
  }

  lemma {:induction false} TrailedAppend(ps: seq<string>, p: string, c: char)
    ensures Trailed(ps + [p], c) == Trailed(ps, c) + p + [c]
  {
    if ps == [] {
      assert [p][1..] == [];
      assert ps + [p] == [p];
    } else {
      TrailedAppend(ps[1..], p, c);
      assert (ps + [p])[1..] == ps[1..] + [p];
    }
  }

  lemma {:induction false} TrimmedTrailIsJoin(ps: seq<string>, c: char)
    requires ps != []
    ensures |Trailed(ps, c)| > 0 && Trailed(ps, c)[..|Trailed(ps, c)| - 1] == Join(ps, c)
  {
    if |ps| == 1 {
      assert Trailed(ps[1..], c) == "";
    } else {
      TrimmedTrailIsJoin(ps[1..], c);
    }
  }

  ghost function Untrimmed(m: Table, order: seq<string>): string
    requires forall k :: k in order ==> k in m
  {
    Trailed(Items(QueryItem, m, order), '&')
  }

  lemma UntrimmedStep(m: Table, order: seq<string>, k: string)
    requires (forall o :: o in order ==> o in m) && k in m
    ensures Untrimmed(m, order + [k]) == Untrimmed(m, order) + k + ['='] + m[k] + ['&']
  {
    ItemsAppend(QueryItem, m, order, k);
    TrailedAppend(Items(QueryItem, m, order), QueryItem(k, m[k]), '&');
  }

  lemma UntrimmedEnd(m: Table, order: seq<string>)
    requires forall k :: k in order ==> k in m
    ensures Untrimmed(m, order) == "" <==> order == []
    ensures order == [] ==> PrintQuery(m, order) == ""
    ensures order != [] ==> Untrimmed(m, order)[..|Untrimmed(m, order)| - 1] == PrintQuery(m, order)
  {
    if order != [] {
      TrimmedTrailIsJoin(Items(QueryItem, m, order), '&');
    }
  }

  /** buf is the table printed in one of the orders the container may be walked in. */
  ghost predicate IsPrinted(m: Table, buf: string) {
    exists order :: IsOrder(order, m.Keys) && buf == PrintQuery(m, order)
  }

  /** `HttpQueryParameters::to_string`, walking the table in an order of the container's choosing. */
  method QueryToString(m: Table) returns (buf: string)
    ensures IsPrinted(m, buf)
  {
    buf := "";
    ghost var order: seq<string> := [];
    var remaining := m.Keys;
    while remaining != {}
      invariant remaining <= m.Keys
      invariant IsOrder(order, m.Keys - remaining)
      invariant forall k :: k in order ==> k in m
      invariant buf == Untrimmed(m, order)
      decreases |remaining|
    {
      var key :| key in remaining;
      UntrimmedStep(m, order, key);
      buf := buf + key + ['='] + m[key] + ['&'];
      OrderExtended(order, m.Keys - remaining, key);
      assert m.Keys - (remaining - {key}) == m.Keys - remaining + {key};
      order := order + [key];
      remaining := remaining - {key};
    }
    assert m.Keys - remaining == m.Keys;
    UntrimmedEnd(m, order);
    if buf != "" {
      buf := buf[..|buf| - 1];
    }
  }

  // -------------------------------------------------------------- round trip

  ghost predicate CleanQuery(m: Table) {
    forall k :: k in m ==> Lacks(k, '=') && Lacks(k, '&') && Lacks(m[k], '&')
  }

  lemma ParsedQueryIsClean(q: string)
    ensures ParseQuery(q).Ok? ==> CleanQuery(ParseQuery(q).value)
  {
    if q != "" && ParseQuery(q).Ok? {
      var m := ParseQuery(q).value;
      var ps := Split(q, '&');
      CollectKeepsFirsts(QueryEntry, ps);
      SplitPieces(q, '&');
      forall k | k in m ensures Lacks(k, '=') && Lacks(k, '&') && Lacks(m[k], '&') {
        var i :| FirstWith(QueryEntry, ps, k, i);
        assert Lacks(ps[i], '&');
        var sep := FindChar(ps[i], '=');
        forall j ensures !CharAt(k, '=', j) && !CharAt(k, '&', j) {
          assert !CharAt(ps[i], '&', j);
          assert !(0 <= j < sep) || !CharAt(ps[i], '=', j);
        }
        forall j ensures !CharAt(m[k], '&', j) { assert !CharAt(ps[i], '&', sep + 1 + j); }
      }
    }
  }

  lemma CleanItem(key: string, value: string)
    requires Lacks(key, '=') && Lacks(key, '&') && Lacks(value, '&')
    ensures QueryEntry(QueryItem(key, value)) == Some((key, value))
    ensures Lacks(QueryItem(key, value), '&')
  {
    FindCharAfter(key, '=', value);
    var p := QueryItem(key, value);
    assert p[..|key|] == key && p[|key| + 1..] == value;
    ItemLacksSeparator(key, value);
  }

  /** A printed query holds one piece a parameter: the key, an equals sign, the value. */
  lemma PrintedParametersAreSpelled(m: Table, order: seq<string>)
    requires IsOrder(order, m.Keys) && order != []
    requires forall k :: k in m ==> Lacks(k, '&') && Lacks(m[k], '&')
    ensures forall k :: k in order ==> k in m
    ensures
      var pieces := Split(PrintQuery(m, order), '&');
      |pieces| == |order| && forall i :: 0 <= i < |order| ==> pieces[i] == order[i] + "=" + m[order[i]]
  {
    forall k | k in order ensures k in m { assert k in m.Keys; }
    var items := Items(QueryItem, m, order);
    forall i | 0 <= i < |items| ensures Lacks(items[i], '&') {
      assert order[i] in m;
      ItemLacksSeparator(order[i], m[order[i]]);
    }
    SplitInvertsJoin(items, '&');
  }

  lemma ItemLacksSeparator(key: string, value: string)
    requires Lacks(key, '&') && Lacks(value, '&')
    ensures Lacks(QueryItem(key, value), '&')
  {
    forall j ensures !CharAt(QueryItem(key, value), '&', j) {
      assert !CharAt(key, '&', j) && !CharAt(value, '&', j - |key| - 1);
    }
  }

  /**
    Printing a table, in any order, and parsing it gives the table back exactly when keys and
    values fit the syntax.
  */
  lemma QueryRoundTrip(m: Table, order: seq<string>)
    requires IsOrder(order, m.Keys)
    ensures (forall k :: k in order ==> k in m)
    ensures ParseQuery(PrintQuery(m, order)) == Ok(m) <==> CleanQuery(m)
  {
    forall k | k in order ensures k in m { assert k in m.Keys; }
    ParsedQueryIsClean(PrintQuery(m, order));
    if CleanQuery(m) {
      var ps := Items(QueryItem, m, order);
      if order == [] {
        assert m == map[] by { assert forall k :: k in m ==> k in m.Keys; }
      } else {
        forall k | k in m ensures QueryEntry(QueryItem(k, m[k])) == Some((k, m[k])) { CleanItem(k, m[k]); }
        forall i | 0 <= i < |ps| ensures Lacks(ps[i], '&') {
          assert order[i] in m.Keys;
          CleanItem(order[i], m[order[i]]);
        }
        SplitInvertsJoin(ps, '&');
        CollectInvertsItems(QueryEntry, QueryItem, m, order);
        assert ps[0] == QueryItem(order[0], m[order[0]]);
        assert PrintQuery(m, order) != "";
      }
    }
  }

  /** Printing brings no CRLF into a query that was read from text without one. */
  lemma PrintedQueryCrlfFree(m: Table, order: seq<string>, q: string)
    requires ParseQuery(q) == Ok(m) && CrlfFree(q) && IsOrder(order, m.Keys)
    ensures forall k :: k in order ==> k in m
    ensures CrlfFree(PrintQuery(m, order))
  {
    PrintedItemsWereRead(m, order, q);
    if order != [] {
      PiecesCrlfFree(q, '&');
      JoinedCrlfFree(Items(QueryItem, m, order));
    }
  }

  /** Every printed parameter stands, byte for byte, in any text the table was read from. */
  lemma PrintedItemsWereRead(m: Table, order: seq<string>, q: string)
    requires ParseQuery(q) == Ok(m) && IsOrder(order, m.Keys)
    ensures forall k :: k in order ==> k in m
    ensures forall item :: item in Items(QueryItem, m, order) ==> item in Split(q, '&')
  {
    forall k | k in order ensures k in m { assert k in m.Keys; }
    if order != [] {
      assert order[0] in m.Keys;
      assert q != "";
      CollectKeepsFirsts(QueryEntry, Split(q, '&'));
      var items := Items(QueryItem, m, order);
      forall i | 0 <= i < |items| ensures items[i] in Split(q, '&') {
        KeyWasRead(m, order[i], q);
      }
    }
  }

  lemma KeyWasRead(m: Table, key: string, q: string)
    requires q != "" && key in m && HoldsFirsts(QueryEntry, Split(q, '&'), m)
    ensures QueryItem(key, m[key]) in Split(q, '&')
  {
    var ps := Split(q, '&');
    var n :| FirstWith(QueryEntry, ps, key, n);
    DividedAt(ps[n], '=');
    assert ps[n] == QueryItem(key, m[key]);
  }

  lemma {:induction false} PiecesCrlfFree(s: string, c: char)
    requires CrlfFree(s)
    ensures forall p :: p in Split(s, c) ==> CrlfFree(p)
    decreases |s|
  {
    var i := FindChar(s, c);
    if i >= 0 {
      SliceCrlfFree(s, 0, i);
      SliceCrlfFree(s, i + 1, |s|);
      assert s[i + 1..|s|] == s[i + 1..];
      PiecesCrlfFree(s[i + 1..], c);
    }
  }

  lemma {:induction false} JoinedCrlfFree(ps: seq<string>)
    requires forall p :: p in ps ==> CrlfFree(p)
    ensures CrlfFree(Join(ps, '&'))
  {
    if |ps| > 1 {
      var rest := Join(ps[1..], '&');
      JoinedCrlfFree(ps[1..]);
      assert CrlfFree(ps[0]);
      forall j ensures !CrlfAt(Join(ps, '&'), j) {
        assert !CrlfAt(ps[0], j) && !CrlfAt(rest, j - |ps[0]| - 1);
      }
    } else if |ps| == 1 {
      assert CrlfFree(ps[0]);
    }
  }
}
