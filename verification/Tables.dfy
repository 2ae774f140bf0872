/**
  The string tables behind headers and query parameters: how a list of textual
  entries fills one (`emplace`: the first entry for a key stays) and how one is
  printed in whatever order the hash table is walked.
*/
module Tables {
  type Table = map<string, string>

  datatype Option<+T> = None | Some(value: T)

  type EntryParser = string -> Option<(string, string)>

  function Emplace(m: Table, key: string, value: string): Table {
    if key in m then m else m[key := value]
  }

  /** Reads the entries one after the other; None when one of them is malformed. */
  function Collect(entry: EntryParser, items: seq<string>, acc: Table): Option<Table> {
    if items == [] then Some(acc)
    else
      match entry(items[0])
      case None => None
      case Some(e) => Collect(entry, items[1..], Emplace(acc, e.0, e.1))
  }

  ghost predicate KeyedAt(entry: EntryParser, items: seq<string>, key: string, i: int) {
    0 <= i < |items| && entry(items[i]).Some? && entry(items[i]).value.0 == key
  }

  /** Item i is the first of the list that carries this key. */
  ghost predicate FirstWith(entry: EntryParser, items: seq<string>, key: string, i: int) {
    KeyedAt(entry, items, key, i) && forall j :: 0 <= j < i ==> !KeyedAt(entry, items, key, j)
  }

  ghost predicate AllParse(entry: EntryParser, items: seq<string>) {
    forall i :: 0 <= i < |items| ==> entry(items[i]).Some?
  }

  /** The table the list stands for, said without an order of evaluation. */
  ghost predicate HoldsFirsts(entry: EntryParser, items: seq<string>, m: Table) {
    && (forall k, i :: FirstWith(entry, items, k, i) ==> k in m && m[k] == entry(items[i]).value.1)
    && (forall k :: k in m ==> exists i :: FirstWith(entry, items, k, i))
  }

  /** Collecting fails exactly on a malformed item; otherwise the first entry for each key wins. */
  lemma CollectKeepsFirsts(entry: EntryParser, items: seq<string>)
    ensures Collect(entry, items, map[]).Some? <==> AllParse(entry, items)
    ensures Collect(entry, items, map[]).Some? ==>
      HoldsFirsts(entry, items, Collect(entry, items, map[]).value)
  {
    CollectOnto(entry, items, map[]);
  }

  lemma {:induction false} CollectOnto(entry: EntryParser, items: seq<string>, acc: Table)
    ensures Collect(entry, items, acc).Some? <==> AllParse(entry, items)
    ensures Collect(entry, items, acc).Some? ==>
      var m := Collect(entry, items, acc).value;
      && (forall k :: k in acc ==> k in m && m[k] == acc[k])
      && (forall k, i :: k !in acc && FirstWith(entry, items, k, i) ==> k in m && m[k] == entry(items[i]).value.1)
      && (forall k :: k in m && k !in acc ==> exists i :: FirstWith(entry, items, k, i))
  {
    if items != [] && entry(items[0]).Some? {
      var e := entry(items[0]).value;
      var rest := items[1..];
      var next := Emplace(acc, e.0, e.1);
      CollectOnto(entry, rest, next);
      if AllParse(entry, items) {
        forall i | 0 <= i < |rest| ensures entry(rest[i]).Some? { assert rest[i] == items[i + 1]; }
      }
      if AllParse(entry, rest) {
        forall i | 0 <= i < |items| ensures entry(items[i]).Some? { assert i == 0 || items[i] == rest[i - 1]; }
      }
      if Collect(entry, items, acc).Some? {
        var m := Collect(entry, items, acc).value;
        forall k, i | k !in acc && FirstWith(entry, items, k, i)
          ensures k in m && m[k] == entry(items[i]).value.1
        {
          if i == 0 {
            assert k == e.0 && k in next;
          } else {
            ShiftFirst(entry, items, k, i);
            assert k !in next by { assert !KeyedAt(entry, items, k, 0); }
          }
        }
        forall k | k in m && k !in acc ensures exists i :: FirstWith(entry, items, k, i) {
          if k == e.0 {
            assert FirstWith(entry, items, k, 0);
          } else {
            var i :| FirstWith(entry, rest, k, i);
            ShiftFirst(entry, items, k, i + 1);
          }
        }
      }
    }
  }

  lemma ShiftFirst(entry: EntryParser, items: seq<string>, key: string, i: int)
    requires items != [] && entry(items[0]).Some? && i > 0
    ensures FirstWith(entry, items, key, i) <==>
      !KeyedAt(entry, items, key, 0) && FirstWith(entry, items[1..], key, i - 1)
  {
    var rest := items[1..];
    forall j ensures KeyedAt(entry, rest, key, j) <==> j >= 0 && KeyedAt(entry, items, key, j + 1) {}
    if !KeyedAt(entry, items, key, 0) && FirstWith(entry, rest, key, i - 1) {
      forall j | 0 <= j < i ensures !KeyedAt(entry, items, key, j) {
        assert j == 0 || !KeyedAt(entry, rest, key, j - 1);
      }
    }
    if FirstWith(entry, items, key, i) {
      forall j | 0 <= j < i - 1 ensures !KeyedAt(entry, rest, key, j) {
        assert !KeyedAt(entry, items, key, j + 1);
      }
    }
  }

  // ---------------------------------------------------------------- printing

  ghost predicate Distinct<T>(xs: seq<T>) {
    forall i, j :: 0 <= i < j < |xs| ==> xs[i] != xs[j]
  }

  /** One of the orders in which an unordered container may be walked. */
  ghost predicate IsOrder(order: seq<string>, keys: set<string>) {
    && Distinct(order)
    && (forall k :: k in keys <==> k in order)
  }

  lemma OrderOfEmpty(order: seq<string>, m: Table)
    requires IsOrder(order, m.Keys)
    ensures order == [] <==> m == map[]
    ensures forall k :: k in order ==> k in m
  {
    forall k | k in order ensures k in m { assert k in m.Keys; }
    forall k | k in m ensures k in order { assert k in m.Keys; }
    if order != [] {
      assert order[0] in order;
    }
  }

  lemma OrderExtended(order: seq<string>, keys: set<string>, k: string)
    requires IsOrder(order, keys) && k !in keys
    ensures IsOrder(order + [k], keys + {k})
  {}

  type Renderer = (string, string) -> string

  function Items(render: Renderer, m: Table, order: seq<string>): (items: seq<string>)
    requires forall k :: k in order ==> k in m
    ensures |items| == |order| && forall i :: 0 <= i < |order| ==> items[i] == render(order[i], m[order[i]])
  {
    if order == [] then [] else [render(order[0], m[order[0]])] + Items(render, m, order[1..])
  }

  lemma ItemsAppend(render: Renderer, m: Table, order: seq<string>, k: string)
    requires (forall o :: o in order ==> o in m) && k in m
    ensures Items(render, m, order + [k]) == Items(render, m, order) + [render(k, m[k])]
  {}

  /** Printing in any order and collecting again gives the table back. */
  lemma {:induction false} CollectInvertsItems(entry: EntryParser, render: Renderer, m: Table, order: seq<string>)
    requires IsOrder(order, m.Keys)
    requires forall k :: k in m ==> entry(render(k, m[k])) == Some((k, m[k]))
    ensures Collect(entry, Items(render, m, order), map[]) == Some(m)
  {
    var items := Items(render, m, order);
    forall i, k | 0 <= i < |items| ensures KeyedAt(entry, items, k, i) <==> k == order[i] {
      assert order[i] in m.Keys;
    }
    forall i | 0 <= i < |items| ensures entry(items[i]) == Some((order[i], m[order[i]])) {
      assert order[i] in m.Keys;
    }
    CollectKeepsFirsts(entry, items);
    var r := Collect(entry, items, map[]).value;
    forall k | k in m ensures k in r && r[k] == m[k] {
      assert k in m.Keys;
      var i :| 0 <= i < |order| && order[i] == k;
      assert FirstWith(entry, items, k, i);
    }
    forall k | k in r ensures k in m {
      var i :| FirstWith(entry, items, k, i);
      assert order[i] in m.Keys;
    }
    assert r == m;
  }
}
