/** `files.sort()`: the WAL file names in ascending order. */
module FileOrder {
  import opened Uuid

  /** Lexicographic comparison, as it is computed. */
  predicate Before(a: string, b: string) {
    if b == "" then false
    else if a == "" then true
    else a[0] < b[0] || (a[0] == b[0] && Before(a[1..], b[1..]))
  }

  lemma {:induction false} BeforeIsNameLess(a: string, b: string)
    ensures Before(a, b) <==> NameLess(a, b)
  {
    if a == "" || b == "" || a[0] != b[0] {
      if Before(a, b) {
        assert LexAt(Codes(a), Codes(b), 0);
      }
    } else {
      BeforeIsNameLess(a[1..], b[1..]);
      if NameLess(a[1..], b[1..]) {
        var k: nat :| LexAt(Codes(a[1..]), Codes(b[1..]), k);
        assert LexAt(Codes(a), Codes(b), k + 1);
      }
      if NameLess(a, b) {
        var k: nat :| LexAt(Codes(a), Codes(b), k);
        assert LexAt(Codes(a[1..]), Codes(b[1..]), k - 1);
      }
    }
  }

  ghost predicate Ascending(names: seq<string>) {
    forall i, j :: 0 <= i < j < |names| ==> NameLess(names[i], names[j])
  }

  function Insert(name: string, names: seq<string>): (r: seq<string>)
    ensures |r| == |names| + 1
  {
    if names == [] then [name]
    else if Before(name, names[0]) then [name] + names
    else [names[0]] + Insert(name, names[1..])
  }

  function Sorted(names: seq<string>): (r: seq<string>)
    ensures |r| == |names|
  {
    if names == [] then [] else Insert(names[0], Sorted(names[1..]))
  }

  ghost function Elements(names: seq<string>): (all: set<string>) {
    set n | n in names
  }

  lemma {:induction false} InsertElements(name: string, names: seq<string>)
    ensures Elements(Insert(name, names)) == Elements(names) + {name}
  {
    if names != [] && !Before(name, names[0]) {
      InsertElements(name, names[1..]);
      assert names == [names[0]] + names[1..];
      assert Elements(names) == Elements(names[1..]) + {names[0]};
      var r := Insert(name, names[1..]);
      assert Elements([names[0]] + r) == Elements(r) + {names[0]};
    }
  }

  lemma {:induction false} InsertAscending(name: string, names: seq<string>)
    requires Ascending(names) && name !in names
    ensures Ascending(Insert(name, names))
  {
    if names != [] {
      BeforeIsNameLess(name, names[0]);
      if Before(name, names[0]) {
        forall j | 0 <= j < |names|
          ensures NameLess(name, names[j])
        {
          if j > 0 {
            NameLessTransitive(name, names[0], names[j]);
          }
        }
      } else {
        NameLessTotal(name, names[0]);
        assert Ascending(names[1..]);
        InsertAscending(name, names[1..]);
        InsertElements(name, names[1..]);
        var r := Insert(name, names[1..]);
        forall j | 0 <= j < |r|
          ensures NameLess(names[0], r[j])
        {
          assert r[j] in Elements(r);
          if r[j] != name {
            var k :| 0 <= k < |names[1..]| && names[1..][k] == r[j];
            assert names[k + 1] == r[j];
          }
        }
      }
    }
  }

  /** Sorting a listing without repeats keeps its names and puts them in
      strictly ascending order. */
  lemma {:induction false} SortedIsAscending(names: seq<string>)
    requires forall i, j :: 0 <= i < j < |names| ==> names[i] != names[j]
    ensures Ascending(Sorted(names)) && Elements(Sorted(names)) == Elements(names)
  {
    if names != [] {
      var rest := names[1..];
      SortedIsAscending(rest);
      assert names == [names[0]] + rest;
      assert Elements(names) == Elements(rest) + {names[0]};
      assert names[0] !in rest;
      assert names[0] !in Elements(Sorted(rest));
      InsertElements(names[0], Sorted(rest));
      InsertAscending(names[0], Sorted(rest));
    }
  }
}
