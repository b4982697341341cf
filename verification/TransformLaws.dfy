/** What the structural transforms keep: a move carries files and loses none, a
    replace rewrites contents and nothing else. */
module TransformLaws {
  import opened Wrappers
  import opened Trees
  import opened Paths
  import opened Worlds
  import opened Transforms

  // --- files ---

  /** The file (or submodule) at a path. */
  function FileAt(t: Tree, path: seq<string>): Option<Entry> {
    var entry := EntryAt(t, path);
    if entry.Some? && !entry.value.Dir? then entry else None
  }

  /** What lies at `below` inside an entry. */
  function Inside(entry: Entry, below: seq<string>): Option<Entry> {
    match entry
    case Dir(tree) => EntryAt(tree, below)
    case _ => if below == [] then Some(entry) else None
  }

  lemma {:induction false} EntryInside(t: Tree, path: seq<string>, below: seq<string>)
    ensures EntryAt(t, path + below) == if EntryAt(t, path).Some? then Inside(EntryAt(t, path).value, below) else None
    decreases |path|
  {
    if path == [] {
      assert path + below == below;
    } else {
      assert (path + below)[1..] == path[1..] + below;
      assert |path| == 1 ==> path[1..] + below == below;
      if path[0] in t.entries && t.entries[path[0]].Dir? {
        EntryInside(t.entries[path[0]].tree, path[1..], below);
      }
    }
  }

  // --- setting an entry ---

  lemma {:induction false} SetThenRead(t: Tree, path: seq<string>, entry: Entry)
    requires path != []
    ensures EntryAt(SetPath(t, path, Some(entry)), path) == Some(entry)
    decreases |path|
  {
    if |path| > 1 {
      SetThenRead(Child(t, path[0]), path[1..], entry);
    } else {
      assert path[1..] == [];
    }
  }

  lemma {:induction false} SetAbove(t: Tree, path: seq<string>, entry: Entry, above: seq<string>)
    requires above < path
    ensures EntryAt(SetPath(t, path, Some(entry)), above).Some? && EntryAt(SetPath(t, path, Some(entry)), above).value.Dir?
    decreases |path|
  {
    if above != [] {
      assert above[1..] < path[1..];
      SetAbove(Child(t, path[0]), path[1..], entry, above[1..]);
    }
  }

  lemma {:induction false} ReadChild(t: Tree, path: seq<string>)
    requires |path| > 1
    ensures EntryAt(t, path) == EntryAt(Child(t, path[0]), path[1..])
  {
  }

  /** Setting or removing an entry changes nothing off its path. */
  lemma {:induction false} SetFrame(t: Tree, path: seq<string>, entry: Option<Entry>, elsewhere: seq<string>)
    requires path != [] && Incomparable(path, elsewhere)
    ensures EntryAt(SetPath(t, path, entry), elsewhere) == EntryAt(t, elsewhere)
    decreases |path|
  {
    if elsewhere[0] == path[0] {
      IncomparableTails(path, elsewhere);
      var child := SetPath(Child(t, path[0]), path[1..], entry);
      SetFrame(Child(t, path[0]), path[1..], entry, elsewhere[1..]);
      ReadChild(t, elsewhere);
      NothingBelowEmpty(elsewhere[1..]);
      assert child.entries == map[] ==> child == EMPTY_TREE;
    }
  }

  lemma {:induction false} RemoveThenRead(t: Tree, path: seq<string>, below: seq<string>)
    requires path != []
    ensures EntryAt(SetPath(t, path, None), path + below) == None
    decreases |path|
  {
    if |path| > 1 {
      RemoveThenRead(Child(t, path[0]), path[1..], below);
      assert (path + below)[1..] == path[1..] + below;
    }
  }

  /** Above the removed entry there is no file. */
  lemma {:induction false} RemoveAbove(t: Tree, path: seq<string>, above: seq<string>)
    requires above < path
    ensures FileAt(SetPath(t, path, None), above) == None
    decreases |path|
  {
    if above != [] {
      assert above[1..] < path[1..];
      RemoveAbove(Child(t, path[0]), path[1..], above[1..]);
    }
  }

  // --- move and copy ---

  /** The file a copy leaves at `path`: what came along from the source, nothing
      on the way to the destination, everything else as it was. */
  function FileAfterCopy(t: Tree, from: seq<string>, into: seq<string>, path: seq<string>): Option<Entry> {
    if into <= path then FileAt(t, from + path[|into|..])
    else if path < into then None
    else FileAt(t, path)
  }

  /** The file a move leaves at `path`: as after the copy, but nothing at, under
      or on the way to the source. */
  function FileAfterMove(t: Tree, from: seq<string>, into: seq<string>, path: seq<string>): Option<Entry> {
    if from <= path || path < from then None else FileAfterCopy(t, from, into, path)
  }

  lemma {:induction false} PlacedFiles(t: Tree, from: seq<string>, into: seq<string>, path: seq<string>)
    requires into != [] && EntryAt(t, from).Some?
    ensures FileAt(SetPath(t, into, EntryAt(t, from)), path) == FileAfterCopy(t, from, into, path)
  {
    var placed := SetPath(t, into, EntryAt(t, from));
    if into <= path {
      SetThenRead(t, into, EntryAt(t, from).value);
      assert path == into + path[|into|..];
      EntryInside(placed, into, path[|into|..]);
      EntryInside(t, from, path[|into|..]);
    } else if path < into {
      SetAbove(t, into, EntryAt(t, from).value, path);
    } else {
      SetFrame(t, into, EntryAt(t, from), path);
    }
  }

  /** A copy, file by file, for any two paths. */
  lemma {:induction false} CopyCarriesFiles(t: Tree, src: string, dst: string, path: seq<string>)
    requires Segments(src) != [] && Segments(dst) != [] && EntryAt(t, Segments(src)).Some?
    ensures MoveOrCopy(t, src, dst, false).Ok?
    ensures FileAt(MoveOrCopy(t, src, dst, false).value, path) == FileAfterCopy(t, Segments(src), Segments(dst), path)
  {
    PlacedFiles(t, Segments(src), Segments(dst), path);
  }

  lemma {:induction false} AboveSourceIsNoFile(t: Tree, from: seq<string>, above: seq<string>)
    requires EntryAt(t, from).Some? && above < from
    ensures FileAt(t, above) == None
  {
    assert from == above + from[|above|..];
    EntryInside(t, above, from[|above|..]);
  }

  /** A move, file by file, for any two different paths, nested ones included. */
  lemma {:induction false} MoveCarriesFiles(t: Tree, src: string, dst: string, path: seq<string>)
    requires Segments(src) != [] && Segments(dst) != [] && src != dst && EntryAt(t, Segments(src)).Some?
    ensures MoveOrCopy(t, src, dst, true).Ok?
    ensures FileAt(MoveOrCopy(t, src, dst, true).value, path) == FileAfterMove(t, Segments(src), Segments(dst), path)
  {
    var from, into := Segments(src), Segments(dst);
    var placed := SetPath(t, into, EntryAt(t, from));
    PlacedFiles(t, from, into, path);
    if from <= path {
      assert path == from + path[|from|..];
      RemoveThenRead(placed, from, path[|from|..]);
    } else if path < from {
      RemoveAbove(placed, from, path);
    } else {
      SetFrame(placed, from, None, path);
    }
  }

  /** Every file of the source is at its place under the destination. */
  ghost predicate Arrives(t: Tree, moved: Tree, from: seq<string>, into: seq<string>) {
    forall below :: FileAt(moved, into + below) == FileAt(t, from + below)
  }

  /** Removing the source takes nothing of what was placed. */
  ghost predicate Untouched(t: Tree, from: seq<string>, into: seq<string>) {
    forall below :: from <= into + below || into + below < from ==> FileAt(t, from + below).None?
  }

  /** Everything arrives exactly when no file of the source is placed at, under
      or on the way to the old path. */
  lemma {:induction false} MoveArrivesExactlyWhen(t: Tree, src: string, dst: string)
    requires Segments(src) != [] && Segments(dst) != [] && src != dst && EntryAt(t, Segments(src)).Some?
    ensures MoveOrCopy(t, src, dst, true).Ok?
    ensures Arrives(t, MoveOrCopy(t, src, dst, true).value, Segments(src), Segments(dst))
       <==> Untouched(t, Segments(src), Segments(dst))
  {
    var from, into := Segments(src), Segments(dst);
    forall below
      ensures FileAt(MoveOrCopy(t, src, dst, true).value, into + below)
           == if from <= into + below || into + below < from then None else FileAt(t, from + below)
    {
      MoveCarriesFiles(t, src, dst, into + below);
      assert (into + below)[|into|..] == below;
    }
  }

  /** Between unrelated paths everything arrives. */
  lemma {:induction false} UnrelatedPathsAreUntouched(t: Tree, from: seq<string>, into: seq<string>)
    requires Incomparable(from, into)
    ensures Untouched(t, from, into)
  {
    forall below ensures !(from <= into + below) && !(into + below < from) {
      assert into <= into + below;
      assert from <= into + below ==> into <= from || from <= into;
    }
  }

  /** So a move between unrelated paths carries all of the source. */
  lemma {:induction false} MoveBetweenUnrelatedPathsArrives(t: Tree, src: string, dst: string)
    requires Incomparable(Segments(src), Segments(dst)) && EntryAt(t, Segments(src)).Some?
    ensures MoveOrCopy(t, src, dst, true).Ok?
    ensures Arrives(t, MoveOrCopy(t, src, dst, true).value, Segments(src), Segments(dst))
  {
    MoveArrivesExactlyWhen(t, src, dst);
    UnrelatedPathsAreUntouched(t, Segments(src), Segments(dst));
  }

  /** Onto an ancestor everything arrives exactly when the moved directory has no
      file at, under or on the way to its own old path: moving `a/b` onto `a`
      keeps all of it unless it holds a `b` itself. */
  lemma {:induction false} MoveOntoAncestorArrivesExactlyWhen(t: Tree, src: string, dst: string, d: Tree)
    requires Segments(dst) < Segments(src) && Segments(dst) != [] && SubtreeAt(t, Segments(src)) == Some(d)
    ensures MoveOrCopy(t, src, dst, true).Ok?
    ensures
      var rest := Segments(src)[|Segments(dst)|..];
      Arrives(t, MoveOrCopy(t, src, dst, true).value, Segments(src), Segments(dst))
      <==> forall below :: rest <= below || below < rest ==> FileAt(d, below).None?
  {
    var from, into := Segments(src), Segments(dst);
    var rest := from[|into|..];
    MoveArrivesExactlyWhen(t, src, dst);
    forall below ensures FileAt(t, from + below) == FileAt(d, below) {
      EntryInside(t, from, below);
    }
    forall below ensures (from <= into + below <==> rest <= below) && (into + below < from <==> below < rest) {
      SharedHead(into, rest, below);
    }
  }

  lemma SharedHead(head: seq<string>, a: seq<string>, b: seq<string>)
    ensures head + a <= head + b <==> a <= b
    ensures head + b < head + a <==> b < a
  {
    assert (head + a)[|head|..] == a && (head + b)[|head|..] == b;
    if head + a <= head + b {
      assert b[..|a|] == (head + b)[|head|..|head| + |a|] == (head + a)[|head|..] == a;
    }
    if head + b <= head + a {
      assert a[..|b|] == (head + a)[|head|..|head| + |b|] == (head + b)[|head|..] == b;
    }
    if a <= b {
      assert b == a + b[|a|..];
      assert head + b == head + a + b[|a|..];
    }
    if b <= a {
      assert a == b + a[|b|..];
      assert head + a == head + b + a[|b|..];
    }
  }

  /** A file moved onto a directory it lies in is lost. */
  lemma {:induction false} MoveOntoAncestorLosesTheFile(t: Tree, src: string, dst: string)
    requires Segments(dst) < Segments(src) && Segments(dst) != [] && FileAt(t, Segments(src)).Some?
    ensures MoveOrCopy(t, src, dst, true).Ok?
    ensures !Arrives(t, MoveOrCopy(t, src, dst, true).value, Segments(src), Segments(dst))
  {
    var from, into := Segments(src), Segments(dst);
    MoveArrivesExactlyWhen(t, src, dst);
    assert into + [] == into && from + [] == from;
  }

  /** Moving a directory below itself loses it altogether. */
  lemma {:induction false} MoveBelowItselfLosesAll(t: Tree, src: string, dst: string, below: seq<string>)
    requires Segments(src) < Segments(dst) && Segments(src) != [] && EntryAt(t, Segments(src)).Some?
    ensures MoveOrCopy(t, src, dst, true).Ok?
    ensures EntryAt(MoveOrCopy(t, src, dst, true).value, Segments(src) + below) == None
  {
    RemoveThenRead(SetPath(t, Segments(dst), EntryAt(t, Segments(src))), Segments(src), below);
  }

  // --- moving back ---

  /** No directory below the root is empty, as in every tree a commit records. */
  ghost predicate NoEmptyDirs(t: Tree)
    decreases t
  {
    forall n :: n in t.entries && t.entries[n].Dir? ==> t.entries[n].tree.entries != map[] && NoEmptyDirs(t.entries[n].tree)
  }

  ghost predicate Full(entry: Entry) {
    entry.Dir? ==> entry.tree.entries != map[] && NoEmptyDirs(entry.tree)
  }

  lemma {:induction false} FullBelow(t: Tree, path: seq<string>)
    requires NoEmptyDirs(t) && path != [] && EntryAt(t, path).Some?
    ensures Full(EntryAt(t, path).value)
    decreases |path|
  {
    if |path| > 1 {
      FullBelow(t.entries[path[0]].tree, path[1..]);
    }
  }

  lemma {:induction false} SetKeepsFull(t: Tree, path: seq<string>, entry: Option<Entry>)
    requires NoEmptyDirs(t) && path != [] && (entry.Some? ==> Full(entry.value))
    ensures NoEmptyDirs(SetPath(t, path, entry))
    decreases |path|
  {
    if |path| > 1 {
      SetKeepsFull(Child(t, path[0]), path[1..], entry);
      if entry.Some? {
        assert path[1] in SetPath(Child(t, path[0]), path[1..], entry).entries;
      }
    }
  }

  /** Below every name there is a file. */
  lemma {:induction false} SomeFileBelow(t: Tree, name: string) returns (path: seq<string>)
    requires NoEmptyDirs(t) && name in t.entries
    ensures path != [] && path[0] == name && FileAt(t, path).Some?
    decreases t
  {
    match t.entries[name] {
      case Dir(sub) =>
        var n :| n in sub.entries;
        var rest := SomeFileBelow(sub, n);
        path := [name] + rest;
        assert path[1..] == rest;
      case _ =>
        path := [name];
    }
  }

  /** Without empty directories the files make up the tree. */
  lemma {:induction false} FilesMakeTheTree(a: Tree, b: Tree)
    requires NoEmptyDirs(a) && NoEmptyDirs(b)
    requires forall path :: FileAt(a, path) == FileAt(b, path)
    ensures a == b
    decreases a
  {
    forall n | n in a.entries || n in b.entries ensures n in a.entries && n in b.entries && a.entries[n] == b.entries[n] {
      SameName(a, b, n);
      if a.entries[n].Dir? {
        forall path ensures FileAt(a.entries[n].tree, path) == FileAt(b.entries[n].tree, path) {
          assert ([n] + path)[1..] == path;
          assert FileAt(a, [n] + path) == FileAt(b, [n] + path);
        }
        FilesMakeTheTree(a.entries[n].tree, b.entries[n].tree);
      }
    }
    assert a.entries == b.entries;
  }

  lemma {:induction false} SameName(a: Tree, b: Tree, n: string)
    requires NoEmptyDirs(a) && NoEmptyDirs(b) && (n in a.entries || n in b.entries)
    requires forall path :: FileAt(a, path) == FileAt(b, path)
    ensures n in a.entries && n in b.entries && (a.entries[n].Dir? <==> b.entries[n].Dir?)
    ensures !a.entries[n].Dir? ==> a.entries[n] == b.entries[n]
  {
    var path := SomeFileBelow(if n in a.entries then a else b, n);
    assert FileAt(a, path) == FileAt(b, path);
    assert FileAt(a, [n]) == FileAt(b, [n]);
  }

  /** Where a file goes. */
  function Relocated(path: seq<string>, from: seq<string>, into: seq<string>): seq<string> {
    if from <= path then into + path[|from|..] else path
  }

  /** No file at, under or on the way to the path. */
  ghost predicate NoFileInTheWay(t: Tree, into: seq<string>) {
    forall path :: into <= path || path < into ==> FileAt(t, path).None?
  }

  /** Nothing lies at the path, and no file on the way to it. */
  ghost predicate Free(t: Tree, path: seq<string>) {
    EntryAt(t, path).None? && forall above :: above < path ==> FileAt(t, above).None?
  }

  lemma {:induction false} FileAfterBoth(t: Tree, moved: Tree, from: seq<string>, into: seq<string>, path: seq<string>)
    requires Incomparable(from, into) && EntryAt(t, from).Some?
    requires forall p :: FileAt(moved, p) == FileAfterMove(t, from, into, p)
    ensures FileAfterMove(moved, into, from, path) == if into <= path || path < into then None else FileAt(t, path)
  {
    if from <= path {
      var p := Relocated(path, from, into);
      assert p[|into|..] == path[|from|..];
      assert from + path[|from|..] == path;
      assert !(into <= path) && !(path < into) by {
        assert into <= path ==> into <= from || from <= into;
        assert path < into ==> from <= into;
      }
      assert !(from <= p) && !(p < from) by {
        assert into <= p;
        assert from <= p ==> into <= from || from <= into;
      }
    } else if path < from {
      AboveSourceIsNoFile(t, from, path);
      assert into <= path ==> into <= from;
    }
  }

  /** Where the destination is free exactly those files are that the trip
      there and back would lose. */
  lemma {:induction false} FreeMeansNothingLost(t: Tree, into: seq<string>)
    requires NoEmptyDirs(t) && into != []
    ensures Free(t, into) <==> NoFileInTheWay(t, into)
  {
    if Free(t, into) {
      forall path | into <= path ensures FileAt(t, path).None? {
        assert path == into + path[|into|..];
        EntryInside(t, into, path[|into|..]);
      }
    } else if EntryAt(t, into).Some? {
      FullBelow(t, into);
      var entry := EntryAt(t, into).value;
      if entry.Dir? {
        var n :| n in entry.tree.entries;
        var below := SomeFileBelow(entry.tree, n);
        EntryInside(t, into, below);
        assert into <= into + below && FileAt(t, into + below).Some?;
      } else {
        assert FileAt(t, into).Some?;
      }
    }
  }

  /** Moving there and back restores the tree exactly when the destination was
      free. */
  lemma {:induction false} MovingBackRestores(t: Tree, src: string, dst: string)
    requires NoEmptyDirs(t) && Incomparable(Segments(src), Segments(dst)) && EntryAt(t, Segments(src)).Some?
    ensures MoveOrCopy(t, src, dst, true).Ok?
    ensures MoveOrCopy(MoveOrCopy(t, src, dst, true).value, dst, src, true).Ok?
    ensures MoveOrCopy(MoveOrCopy(t, src, dst, true).value, dst, src, true).value == t <==> Free(t, Segments(dst))
  {
    var from, into := Segments(src), Segments(dst);
    var moved := MoveOrCopy(t, src, dst, true).value;
    MovedEntry(t, from, into);
    var back := MoveOrCopy(moved, dst, src, true).value;
    forall p ensures FileAt(moved, p) == FileAfterMove(t, from, into, p) {
      MoveCarriesFiles(t, src, dst, p);
    }
    forall path ensures FileAt(back, path) == if into <= path || path < into then None else FileAt(t, path) {
      MoveCarriesFiles(moved, dst, src, path);
      FileAfterBoth(t, moved, from, into, path);
    }
    FreeMeansNothingLost(t, into);
    if Free(t, into) {
      MoveKeepsFull(t, from, into);
      MoveKeepsFull(moved, into, from);
      FilesMakeTheTree(back, t);
    }
  }

  // --- conservation ---

  /** The files of `moved` are the files of `t`, each once, with its content and
      mode, at its new place. */
  ghost predicate Conserves(t: Tree, moved: Tree, from: seq<string>, into: seq<string>) {
    && (forall p :: FileAt(t, p).Some? ==> FileAt(moved, Relocated(p, from, into)) == FileAt(t, p))
    && (forall p, q :: FileAt(t, p).Some? && FileAt(t, q).Some? && p != q ==> Relocated(p, from, into) != Relocated(q, from, into))
    && (forall q :: FileAt(moved, q).Some? ==> exists p :: FileAt(t, p).Some? && Relocated(p, from, into) == q)
  }

  lemma {:induction false} RelocatedKeeps(t: Tree, moved: Tree, from: seq<string>, into: seq<string>, p: seq<string>)
    requires Incomparable(from, into) && EntryAt(t, from).Some? && NoFileInTheWay(t, into) && FileAt(t, p).Some?
    requires forall path :: FileAt(moved, path) == FileAfterMove(t, from, into, path)
    ensures FileAt(moved, Relocated(p, from, into)) == FileAt(t, p)
  {
    var q := Relocated(p, from, into);
    if from <= p {
      assert q[|into|..] == p[|from|..] && from + p[|from|..] == p;
      assert into <= q;
      assert from <= q ==> into <= from || from <= into;
    } else if p < from {
      AboveSourceIsNoFile(t, from, p);
    }
  }

  lemma {:induction false} RelocatedApart(t: Tree, from: seq<string>, into: seq<string>, p: seq<string>, q: seq<string>)
    requires NoFileInTheWay(t, into) && FileAt(t, p).Some? && FileAt(t, q).Some? && p != q
    ensures Relocated(p, from, into) != Relocated(q, from, into)
  {
    if from <= p && from <= q {
      assert p == from + p[|from|..] && q == from + q[|from|..];
      assert (into + p[|from|..])[|into|..] == p[|from|..];
      assert (into + q[|from|..])[|into|..] == q[|from|..];
    }
  }

  lemma {:induction false} MovedFileHasASource(t: Tree, moved: Tree, from: seq<string>, into: seq<string>, q: seq<string>) returns (p: seq<string>)
    requires forall path :: FileAt(moved, path) == FileAfterMove(t, from, into, path)
    requires FileAt(moved, q).Some?
    ensures FileAt(t, p).Some? && Relocated(p, from, into) == q
  {
    if into <= q {
      p := from + q[|into|..];
      assert p[|from|..] == q[|into|..];
      assert into + q[|into|..] == q;
    } else {
      p := q;
    }
  }

  /** A move between unrelated paths conserves the files exactly when none lies
      at, under or on the way to the destination. */
  lemma {:induction false} MoveConservesFiles(t: Tree, src: string, dst: string)
    requires Incomparable(Segments(src), Segments(dst)) && EntryAt(t, Segments(src)).Some?
    ensures MoveOrCopy(t, src, dst, true).Ok?
    ensures Conserves(t, MoveOrCopy(t, src, dst, true).value, Segments(src), Segments(dst)) <==> NoFileInTheWay(t, Segments(dst))
  {
    var from, into := Segments(src), Segments(dst);
    var moved := MoveOrCopy(t, src, dst, true).value;
    forall p ensures FileAt(moved, p) == FileAfterMove(t, from, into, p) {
      MoveCarriesFiles(t, src, dst, p);
    }
    if NoFileInTheWay(t, into) {
      forall p | FileAt(t, p).Some? ensures FileAt(moved, Relocated(p, from, into)) == FileAt(t, p) {
        RelocatedKeeps(t, moved, from, into, p);
      }
      forall p, q | FileAt(t, p).Some? && FileAt(t, q).Some? && p != q ensures Relocated(p, from, into) != Relocated(q, from, into) {
        RelocatedApart(t, from, into, p, q);
      }
      forall q | FileAt(moved, q).Some? ensures exists p :: FileAt(t, p).Some? && Relocated(p, from, into) == q {
        var p := MovedFileHasASource(t, moved, from, into, q);
      }
    } else {
      var path :| (into <= path || path < into) && FileAt(t, path).Some?;
      FileInTheWayIsLost(t, moved, from, into, path);
    }
  }

  lemma {:induction false} FileInTheWayIsLost(t: Tree, moved: Tree, from: seq<string>, into: seq<string>, path: seq<string>)
    requires Incomparable(from, into) && (into <= path || path < into) && FileAt(t, path).Some?
    requires forall p :: FileAt(moved, p) == FileAfterMove(t, from, into, p)
    ensures !Conserves(t, moved, from, into)
  {
    assert !(from <= path) by {
      assert from <= path && into <= path ==> into <= from || from <= into;
      assert from <= path && path < into ==> from <= into;
    }
    assert Relocated(path, from, into) == path;
    if into <= path {
      var other := from + path[|into|..];
      assert other[|from|..] == path[|into|..];
      assert Relocated(other, from, into) == into + path[|into|..] == path;
      assert other != path;
      if FileAt(t, other).None? {
        assert FileAt(moved, path).None?;
      }
    }
  }

  lemma {:induction false} MovedEntry(t: Tree, from: seq<string>, into: seq<string>)
    requires Incomparable(from, into) && EntryAt(t, from).Some?
    ensures EntryAt(SetPath(SetPath(t, into, EntryAt(t, from)), from, None), into) == EntryAt(t, from)
  {
    SetThenRead(t, into, EntryAt(t, from).value);
    SetFrame(SetPath(t, into, EntryAt(t, from)), from, None, into);
  }

  lemma {:induction false} MoveKeepsFull(t: Tree, from: seq<string>, into: seq<string>)
    requires NoEmptyDirs(t) && from != [] && into != [] && EntryAt(t, from).Some?
    ensures NoEmptyDirs(SetPath(SetPath(t, into, EntryAt(t, from)), from, None))
  {
    FullBelow(t, from);
    SetKeepsFull(t, into, EntryAt(t, from));
    SetKeepsFull(SetPath(t, into, EntryAt(t, from)), from, None);
  }

  // --- replace ---

  function FullPath(prefix: string, path: seq<string>): string
    decreases |path|
  {
    if path == [] then prefix else FullPath(PathBelow(prefix, path[0]), path[1..])
  }

  /** A replace as a map over the files. */
  function Rewritten(w: World, path: string, entry: Entry, paths: seq<string>, before: string, after: string, regex: bool): Entry {
    match entry
    case Blob(content, mode) => if Selected(paths, path) then Blob(RewriteBlob(w, content, before, after, regex), mode) else entry
    case _ => entry
  }

  /** A replace keeps every path, mode, directory and submodule, and rewrites
      each file by itself. */
  lemma {:induction false} ReplaceIsPointwise(w: World, t: Tree, prefix: string, paths: seq<string>, before: string,
                                              after: string, regex: bool, path: seq<string>)
    ensures
      var was, now := EntryAt(t, path), EntryAt(ReplaceWalk(w, t, prefix, paths, before, after, regex), path);
      && (was.None? <==> now.None?)
      && (was.Some? && !was.value.Dir? ==> now == Some(Rewritten(w, FullPath(prefix, path), was.value, paths, before, after, regex)))
      && (was.Some? && was.value.Dir? ==> now.value.Dir? && now.value.tree.entries.Keys == was.value.tree.entries.Keys)
    decreases |path|
  {
    if path != [] && path[0] in t.entries {
      if t.entries[path[0]].Dir? {
        ReplaceIsPointwise(w, t.entries[path[0]].tree, PathBelow(prefix, path[0]), paths, before, after, regex, path[1..]);
      }
      if |path| == 1 {
        assert path[1..] == [];
      }
    }
  }

  /** Two replaces that select no common file of the tree commute. */
  lemma {:induction false} DisjointReplacesCommute(
      w: World, t: Tree, prefix: string,
      paths: seq<string>, before: string, after: string, regex: bool,
      paths': seq<string>, before': string, after': string, regex': bool)
    requires forall path :: FileAt(t, path).Some? ==> !(Selected(paths, FullPath(prefix, path)) && Selected(paths', FullPath(prefix, path)))
    ensures ReplaceWalk(w, ReplaceWalk(w, t, prefix, paths, before, after, regex), prefix, paths', before', after', regex')
         == ReplaceWalk(w, ReplaceWalk(w, t, prefix, paths', before', after', regex'), prefix, paths, before, after, regex)
    decreases t
  {
    var a := ReplaceWalk(w, ReplaceWalk(w, t, prefix, paths, before, after, regex), prefix, paths', before', after', regex');
    var b := ReplaceWalk(w, ReplaceWalk(w, t, prefix, paths', before', after', regex'), prefix, paths, before, after, regex);
    forall n | n in t.entries ensures a.entries[n] == b.entries[n] {
      if t.entries[n].Dir? {
        var sub, below := t.entries[n].tree, PathBelow(prefix, n);
        forall path | FileAt(sub, path).Some?
          ensures !(Selected(paths, FullPath(below, path)) && Selected(paths', FullPath(below, path)))
        {
          assert ([n] + path)[1..] == path;
          assert FileAt(t, [n] + path).Some?;
        }
        DisjointReplacesCommute(w, sub, below, paths, before, after, regex, paths', before', after', regex');
      } else {
        assert FileAt(t, [n]).Some?;
        assert [n][1..] == [];
        assert FullPath(prefix, [n]) == PathBelow(prefix, n);
      }
    }
    assert a.entries == b.entries;
  }
}
