/** Sorting by name: the canonical order that makes content addressing
    independent of the order in which a directory is listed. */
module Names {

  /** Lexicographic order by code point, which is the byte order of UTF-8. */
  predicate Less(a: string, b: string) {
    if b == "" then false
    else if a == "" then true
    else if a[0] == b[0] then Less(a[1..], b[1..])
    else a[0] < b[0]
  }

  lemma {:induction false} LessIsTotal(a: string, b: string)
    ensures a == b || Less(a, b) || Less(b, a)
    ensures !(Less(a, b) && Less(b, a)) && !Less(a, a)
    decreases |a|
  {
    if a != "" && b != "" {
      LessIsTotal(a[1..], b[1..]);
      if a[0] == b[0] {
        assert a == [a[0]] + a[1..] && b == [b[0]] + b[1..];
      }
      LessIsTotal(a[1..], a[1..]);
    } else if a != "" {
      LessIsTotal(a[1..], a[1..]);
    }
  }

  lemma {:induction false} LessIsTransitive(a: string, b: string, c: string)
    requires Less(a, b) && Less(b, c)
    ensures Less(a, c)
    decreases |a|
  {
    if a != "" && a[0] == b[0] && b[0] == c[0] {
      LessIsTransitive(a[1..], b[1..], c[1..]);
    }
  }

  predicate Ascending(names: seq<string>) {
    forall i, j :: 0 <= i < j < |names| ==> Less(names[i], names[j])
  }

  /** Stable insertion: before the first item that is not below the new one. */
  function InsertBy<T>(item: T, sorted: seq<T>, below: (T, T) -> bool): seq<T> {
    if sorted == [] || !below(sorted[0], item) then [item] + sorted
    else [sorted[0]] + InsertBy(item, sorted[1..], below)
  }

  function SortBy<T>(items: seq<T>, below: (T, T) -> bool): seq<T> {
    if items == [] then [] else InsertBy(items[0], SortBy(items[1..], below), below)
  }

  function Insert(name: string, sorted: seq<string>): seq<string> {
    InsertBy(name, sorted, Less)
  }

  function Sort(names: seq<string>): seq<string> {
    SortBy(names, Less)
  }

  lemma {:induction false} InsertElements(name: string, sorted: seq<string>, x: string)
    ensures x in Insert(name, sorted) <==> x == name || x in sorted
  {
    if sorted != [] {
      assert sorted == [sorted[0]] + sorted[1..];
      InsertElements(name, sorted[1..], x);
    }
  }

  lemma AscendingCons(first: string, rest: seq<string>)
    requires Ascending(rest) && forall x <- rest :: Less(first, x)
    ensures Ascending([first] + rest)
  {
  }

  lemma {:induction false} InsertAscends(name: string, sorted: seq<string>)
    requires Ascending(sorted) && name !in sorted
    ensures Ascending(Insert(name, sorted))
  {
    if sorted != [] {
      LessIsTotal(name, sorted[0]);
      assert forall i :: 0 < i < |sorted| ==> Less(sorted[0], sorted[i]);
      if !Less(sorted[0], name) {
        forall x | x in sorted ensures Less(name, x) {
          if x != sorted[0] {
            LessIsTransitive(name, sorted[0], x);
          }
        }
        AscendingCons(name, sorted);
      } else {
        InsertAscends(name, sorted[1..]);
        forall x | x in Insert(name, sorted[1..]) ensures Less(sorted[0], x) {
          InsertElements(name, sorted[1..], x);
        }
        AscendingCons(sorted[0], Insert(name, sorted[1..]));
      }
    }
  }

  predicate Distinct(names: seq<string>) {
    forall i, j :: 0 <= i < j < |names| ==> names[i] != names[j]
  }

  /** Sorting distinct names gives them in ascending order. */
  lemma {:induction false} SortSorts(names: seq<string>)
    requires Distinct(names)
    ensures Ascending(Sort(names))
    ensures forall x :: x in Sort(names) <==> x in names
  {
    if names != [] {
      SortSorts(names[1..]);
      assert names == [names[0]] + names[1..];
      assert names[0] !in names[1..];
      InsertAscends(names[0], Sort(names[1..]));
      forall x ensures x in Sort(names) <==> x in names {
        InsertElements(names[0], Sort(names[1..]), x);
      }
    }
  }

  /** An ascending list is determined by its elements. */
  lemma {:induction false} AscendingIsUnique(a: seq<string>, b: seq<string>)
    requires Ascending(a) && Ascending(b)
    requires forall x :: x in a <==> x in b
    ensures a == b
  {
    var pick := if a != [] then a[0] else if b != [] then b[0] else "";
    assert pick in a <==> pick in b;
    if a != [] && b != [] {
      FirstsAgree(a, b);
      forall x ensures x in a[1..] <==> x in b[1..] {
        TailElements(a, x);
        TailElements(b, x);
      }
      AscendingIsUnique(a[1..], b[1..]);
      assert a == [a[0]] + a[1..] && b == [b[0]] + b[1..];
    }
  }

  lemma {:induction false} FirstIsLeast(a: seq<string>, x: string)
    requires Ascending(a) && x in a
    ensures x == a[0] || Less(a[0], x)
  {
  }

  lemma {:induction false} FirstsAgree(a: seq<string>, b: seq<string>)
    requires Ascending(a) && Ascending(b) && a != [] && b != []
    requires forall x :: x in a <==> x in b
    ensures a[0] == b[0]
  {
    assert a[0] in b && b[0] in a;
    FirstIsLeast(a, b[0]);
    FirstIsLeast(b, a[0]);
    LessIsTotal(a[0], b[0]);
  }

  lemma {:induction false} TailElements(a: seq<string>, x: string)
    requires Ascending(a) && a != []
    ensures x in a[1..] <==> x in a && x != a[0]
  {
    LessIsTotal(a[0], a[0]);
    assert a == [a[0]] + a[1..];
    assert forall i :: 0 < i < |a| ==> Less(a[0], a[i]);
  }

  /** Some list of the elements of a set. */
  ghost function Listing(s: set<string>): (names: seq<string>)
    ensures Distinct(names)
    ensures forall x :: x in names <==> x in s
  {
    if s == {} then [] else
      var x :| x in s;
      [x] + Listing(s - {x})
  }

  /** The elements of a set in ascending order. */
  ghost function Sorted(s: set<string>): (names: seq<string>)
    ensures Ascending(names)
    ensures forall x :: x in names <==> x in s
  {
    SortSorts(Listing(s));
    Sort(Listing(s))
  }

  /** Whatever order the names of a set come in, sorting them gives one result. */
  lemma {:induction false} SortIgnoresTheOrder(names: seq<string>, s: set<string>)
    requires Distinct(names) && forall x :: x in names <==> x in s
    ensures Sort(names) == Sorted(s)
  {
    SortSorts(names);
    AscendingIsUnique(Sort(names), Sorted(s));
  }

  // --- sorting records by name ---

  function MapNames<T>(f: string -> T, names: seq<string>): (r: seq<T>)
    ensures |r| == |names|
    ensures forall i :: 0 <= i < |names| ==> r[i] == f(names[i])
  {
    seq(|names|, i requires 0 <= i < |names| => f(names[i]))
  }

  lemma {:induction false} InsertByIsMap<T>(name: string, names: seq<string>, below: (T, T) -> bool, f: string -> T)
    requires forall m, n :: below(f(m), f(n)) <==> Less(m, n)
    ensures InsertBy(f(name), MapNames(f, names), below) == MapNames(f, Insert(name, names))
  {
    if names != [] {
      assert MapNames(f, names)[1..] == MapNames(f, names[1..]);
      InsertByIsMap(name, names[1..], below, f);
    }
  }

  /** Records that their names determine, sorted by name. */
  lemma {:induction false} SortByIsMap<T>(names: seq<string>, below: (T, T) -> bool, f: string -> T)
    requires forall m, n :: below(f(m), f(n)) <==> Less(m, n)
    ensures SortBy(MapNames(f, names), below) == MapNames(f, Sort(names))
  {
    if names != [] {
      assert MapNames(f, names)[1..] == MapNames(f, names[1..]);
      SortByIsMap(names[1..], below, f);
      InsertByIsMap(names[0], Sort(names[1..]), below, f);
    }
  }

  /** The texts agree up to position `i`, where `a` has the smaller character. */
  predicate SmallerAt(a: string, b: string, i: nat) {
    i < |a| && i < |b| && a[..i] == b[..i] && a[i] < b[i]
  }

  lemma SmallerBehind(c: char, a: string, b: string, i: nat)
    ensures SmallerAt([c] + a, [c] + b, i + 1) <==> SmallerAt(a, b, i)
  {
    if i < |a| && i < |b| {
      assert ([c] + a)[..i + 1] == [c] + a[..i] && ([c] + b)[..i + 1] == [c] + b[..i];
      assert ([c] + a[..i])[1..] == a[..i] && ([c] + b[..i])[1..] == b[..i];
    }
  }

  /** The order of two texts is decided where they first differ, or by the end of
      the shorter one. */
  lemma {:induction false} LessIsLexicographic(a: string, b: string)
    ensures Less(a, b) <==> a < b || exists i :: SmallerAt(a, b, i)
    decreases |a|
  {
    if a != "" && b != "" && a[0] == b[0] {
      var c, x, y := a[0], a[1..], b[1..];
      assert a == [c] + x && b == [c] + y;
      LessIsLexicographic(x, y);
      if i: nat :| SmallerAt(x, y, i) {
        SmallerBehind(c, x, y, i);
      }
      if i: nat :| SmallerAt(a, b, i) {
        SmallerBehind(c, x, y, i - 1);
      }
      assert a < b <==> x < y;
    } else if a != "" && b != "" && a[0] < b[0] {
      assert SmallerAt(a, b, 0);
    }
  }

  // --- sorting any records ---

  ghost predicate IsOrder<T(!new)>(below: (T, T) -> bool) {
    && (forall a, b :: below(a, b) ==> !below(b, a))
    && (forall a, b, c :: below(a, c) ==> below(a, b) || below(b, c))
  }

  /** No two different items of the list are tied. */
  ghost predicate Untied<T(!new)>(items: seq<T>, below: (T, T) -> bool) {
    forall a, b :: a in items && b in items ==> a == b || below(a, b) || below(b, a)
  }

  lemma {:induction false} InsertsCommute<T(!new)>(a: T, b: T, sorted: seq<T>, below: (T, T) -> bool)
    requires IsOrder(below) && (a == b || below(a, b) || below(b, a))
    ensures InsertBy(a, InsertBy(b, sorted, below), below) == InsertBy(b, InsertBy(a, sorted, below), below)
  {
    if a != b && sorted != [] && below(sorted[0], a) && below(sorted[0], b) {
      InsertsCommute(a, b, sorted[1..], below);
    }
  }

  /** Sorting pulls any one item out to the front of the work. */
  lemma {:induction false} SortWithout<T(!new)>(items: seq<T>, i: nat, below: (T, T) -> bool)
    requires i < |items| && IsOrder(below) && Untied(items, below)
    ensures SortBy(items, below) == InsertBy(items[i], SortBy(items[..i] + items[i + 1..], below), below)
  {
    if i == 0 {
      assert items[..0] + items[1..] == items[1..];
    } else {
      var rest := items[1..];
      SortWithout(rest, i - 1, below);
      assert (items[..i] + items[i + 1..])[1..] == rest[..i - 1] + rest[i..];
      InsertsCommute(items[0], items[i], SortBy(rest[..i - 1] + rest[i..], below), below);
    }
  }

  lemma WithoutOne<T(!new)>(items: seq<T>, i: nat)
    requires i < |items|
    ensures multiset(items[..i] + items[i + 1..]) == multiset(items) - multiset{items[i]}
  {
    assert items == items[..i] + [items[i]] + items[i + 1..];
  }

  lemma WithoutFirst<T(!new)>(items: seq<T>)
    requires items != []
    ensures multiset(items[1..]) == multiset(items) - multiset{items[0]}
  {
    assert items == [items[0]] + items[1..];
  }

  lemma SameItems<T(!new)>(a: seq<T>, b: seq<T>, below: (T, T) -> bool)
    requires multiset(a) == multiset(b) && Untied(a, below)
    ensures |a| == |b| && (forall x <- a :: x in b) && Untied(b, below)
  {
    assert |a| == |multiset(a)| == |multiset(b)| == |b|;
    forall x ensures x in a <==> x in b {
      assert x in a <==> x in multiset(a);
      assert x in b <==> x in multiset(b);
    }
  }

  lemma FirstOccurs<T(!new)>(a: seq<T>, b: seq<T>) returns (i: nat)
    requires multiset(a) == multiset(b) && a != []
    ensures i < |b| && b[i] == a[0]
  {
    assert a[0] in multiset(a);
    assert a[0] in multiset(b);
    i :| 0 <= i < |b| && b[i] == a[0];
  }

  lemma TakeOut<T(!new)>(a: seq<T>, b: seq<T>) returns (i: nat, rest: seq<T>)
    requires multiset(a) == multiset(b) && a != []
    ensures i < |b| && b[i] == a[0] && rest == b[..i] + b[i + 1..] && multiset(a[1..]) == multiset(rest)
  {
    i := FirstOccurs(a, b);
    rest := b[..i] + b[i + 1..];
    WithoutOne(b, i);
    WithoutFirst(a);
  }

  /** Lists with the same items, in whatever order, sort to one list when no two
      different items tie. */
  lemma {:induction false} SortIgnoresPermutation<T(!new)>(a: seq<T>, b: seq<T>, below: (T, T) -> bool)
    requires multiset(a) == multiset(b) && IsOrder(below) && Untied(a, below)
    ensures SortBy(a, below) == SortBy(b, below)
  {
    SameItems(a, b, below);
    if a != [] {
      var i, rest := TakeOut(a, b);
      SortWithout(b, i, below);
      assert forall x :: x in a[1..] ==> x in a;
      SortIgnoresPermutation(a[1..], rest, below);
    }
  }

  /** No item is below one before it. */
  ghost predicate InOrderBy<T(!new)>(items: seq<T>, below: (T, T) -> bool) {
    forall i, j :: 0 <= i < j < |items| ==> !below(items[j], items[i])
  }

  lemma {:induction false} InsertByKeepsOrder<T(!new)>(item: T, sorted: seq<T>, below: (T, T) -> bool)
    requires IsOrder(below) && InOrderBy(sorted, below)
    ensures InOrderBy(InsertBy(item, sorted, below), below)
    ensures multiset(InsertBy(item, sorted, below)) == multiset(sorted) + multiset{item}
  {
    if sorted != [] {
      assert sorted == [sorted[0]] + sorted[1..];
      if below(sorted[0], item) {
        var more := InsertBy(item, sorted[1..], below);
        InsertByKeepsOrder(item, sorted[1..], below);
        forall x | x in more ensures !below(x, sorted[0]) {
          assert x in multiset(more);
        }
      }
    }
  }

  /** Sorting orders a list and keeps its items. */
  lemma {:induction false} SortByOrders<T(!new)>(items: seq<T>, below: (T, T) -> bool)
    requires IsOrder(below)
    ensures InOrderBy(SortBy(items, below), below)
    ensures multiset(SortBy(items, below)) == multiset(items)
  {
    if items != [] {
      SortByOrders(items[1..], below);
      InsertByKeepsOrder(items[0], SortBy(items[1..], below), below);
      assert items == [items[0]] + items[1..];
    }
  }

  lemma {:induction false} LessIsAnOrder()
    ensures IsOrder(Less)
  {
    forall a, b | Less(a, b) ensures !Less(b, a) {
      LessIsTotal(a, b);
    }
    forall a, b, c | Less(a, c) ensures Less(a, b) || Less(b, c) {
      LessIsTotal(a, b);
      LessIsTotal(b, c);
      if Less(b, a) {
        LessIsTransitive(b, a, c);
      }
    }
  }
}
