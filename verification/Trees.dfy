/** Git trees as nested finite maps, and the prefix splice every rewrite is
    built from.  Equal trees stand for equal object ids. */
module Trees {
  import opened Wrappers

  type Byte = b: int | 0 <= b < 256
  type Bytes = seq<Byte>

  /** A tree entry: a file blob with its mode, a directory, or anything else
      (a submodule). */
  datatype Entry =
    | Blob(content: Bytes, mode: int)
    | Dir(tree: Tree)
    | Other(link: string)

  datatype Tree = Tree(entries: map<string, Entry>)

  const EMPTY_TREE := Tree(map[])

  /** The directory called `name`, or the empty tree when there is none: a tree
      builder started from nothing is empty. */
  function Child(t: Tree, name: string): (child: Tree)
    ensures name in t.entries && t.entries[name].Dir? ==> child < t
  {
    if name in t.entries && t.entries[name].Dir? then t.entries[name].tree else EMPTY_TREE
  }

  function WithEntry(t: Tree, name: string, entry: Entry): Tree {
    Tree(t.entries[name := entry])
  }

  /** Places `sub` in `base` as the directory at the path `path`, rebuilding
      the spine of directories above it. */
  function Splice(base: Tree, path: seq<string>, sub: Tree): Tree
    requires path != []
    decreases |path|
  {
    var child := if |path| == 1 then sub else Splice(Child(base, path[0]), path[1..], sub);
    WithEntry(base, path[0], Dir(child))
  }

  /** The entry at a path. */
  function EntryAt(t: Tree, path: seq<string>): Option<Entry>
  {
    if path == [] then Some(Dir(t))
    else if path[0] !in t.entries then None
    else if |path| == 1 then Some(t.entries[path[0]])
    else if t.entries[path[0]].Dir? then EntryAt(t.entries[path[0]].tree, path[1..])
    else None
  }

  function SubtreeAt(t: Tree, path: seq<string>): Option<Tree> {
    match EntryAt(t, path)
    case Some(Dir(sub)) => Some(sub)
    case _ => None
  }

  /** Neither path leads to or through the other. */
  predicate Incomparable(p: seq<string>, q: seq<string>) {
    !(p <= q) && !(q <= p)
  }

  lemma {:induction false} SpliceThenRead(base: Tree, path: seq<string>, sub: Tree, below: seq<string>)
    requires path != []
    ensures EntryAt(Splice(base, path, sub), path + below) == EntryAt(sub, below)
    ensures SubtreeAt(Splice(base, path, sub), path) == Some(sub)
    decreases |path|
  {
    assert path + [] == path;
    assert (path + below)[1..] == path[1..] + below;
    if |path| == 1 {
      assert path[1..] + below == below;
    } else {
      SpliceThenRead(Child(base, path[0]), path[1..], sub, below);
    }
  }

  /** A splice changes nothing that is not on, above or below its path. */
  lemma {:induction false} SpliceFrame(base: Tree, path: seq<string>, sub: Tree, elsewhere: seq<string>)
    requires path != [] && Incomparable(path, elsewhere)
    ensures EntryAt(Splice(base, path, sub), elsewhere) == EntryAt(base, elsewhere)
    decreases |path|
  {
    if elsewhere[0] == path[0] {
      assert |path| > 1 && |elsewhere| > 1;
      IncomparableTails(path, elsewhere);
      SpliceFrame(Child(base, path[0]), path[1..], sub, elsewhere[1..]);
      NothingBelowEmpty(elsewhere[1..]);
    }
  }

  lemma {:induction false} NothingBelowEmpty(path: seq<string>)
    ensures path != [] ==> EntryAt(EMPTY_TREE, path) == None
  {
  }

  lemma IncomparableTails(p: seq<string>, q: seq<string>)
    requires Incomparable(p, q) && p[0] == q[0]
    ensures |p| > 1 && |q| > 1 && Incomparable(p[1..], q[1..])
  {
    assert p == [p[0]] + p[1..];
    assert q == [q[0]] + q[1..];
  }

  /** A later splice at the same path replaces an earlier one. */
  lemma {:induction false} SpliceOverwrites(base: Tree, path: seq<string>, first: Tree, second: Tree)
    requires path != []
    ensures Splice(Splice(base, path, first), path, second) == Splice(base, path, second)
    decreases |path|
  {
    var once := Splice(base, path, first);
    if |path| == 1 {
      assert once.entries[path[0] := Dir(second)] == base.entries[path[0] := Dir(second)];
    } else {
      SpliceOverwrites(Child(base, path[0]), path[1..], first, second);
      var child := Splice(Child(base, path[0]), path[1..], second);
      assert Child(once, path[0]) == Splice(Child(base, path[0]), path[1..], first);
      assert once.entries[path[0] := Dir(child)] == base.entries[path[0] := Dir(child)];
    }
  }

  lemma EntriesApartCommute(t: Tree, x: string, a: Entry, y: string, b: Entry)
    requires x != y
    ensures WithEntry(WithEntry(t, x, a), y, b) == WithEntry(WithEntry(t, y, b), x, a)
  {
    assert t.entries[x := a][y := b] == t.entries[y := b][x := a];
  }

  /** A splice writes one entry, which depends on the old entry of that name only. */
  lemma {:induction false} SpliceWritesOneEntry(base: Tree, path: seq<string>, sub: Tree, name: string, other: Entry)
      returns (entry: Entry)
    requires path != [] && name != path[0]
    ensures Splice(base, path, sub) == WithEntry(base, path[0], entry)
    ensures Splice(WithEntry(base, name, other), path, sub) == WithEntry(WithEntry(base, name, other), path[0], entry)
  {
    entry := Splice(base, path, sub).entries[path[0]];
    assert Child(WithEntry(base, name, other), path[0]) == Child(base, path[0]);
  }

  /** Splices under different names commute. */
  lemma {:induction false} SplicesApartCommute(base: Tree, p: seq<string>, a: Tree, q: seq<string>, b: Tree)
    requires p != [] && q != [] && p[0] != q[0]
    ensures Splice(Splice(base, p, a), q, b) == Splice(Splice(base, q, b), p, a)
  {
    var x := Splice(base, p, a).entries[p[0]];
    var y := SpliceWritesOneEntry(base, q, b, p[0], x);
    var x' := SpliceWritesOneEntry(base, p, a, q[0], y);
    EntriesApartCommute(base, p[0], x, q[0], y);
  }

  /** Two splices under one name happen inside the directory of that name. */
  lemma {:induction false} SplicesBelowOneName(base: Tree, p: seq<string>, a: Tree, q: seq<string>, b: Tree)
    requires |p| > 1 && |q| > 1 && p[0] == q[0]
    ensures Splice(Splice(base, p, a), q, b)
         == WithEntry(base, p[0], Dir(Splice(Splice(Child(base, p[0]), p[1..], a), q[1..], b)))
  {
    var once := Splice(base, p, a);
    assert Child(once, q[0]) == Splice(Child(base, p[0]), p[1..], a);
    assert Splice(once, q, b).entries
        == base.entries[p[0] := Dir(Splice(Splice(Child(base, p[0]), p[1..], a), q[1..], b))];
  }

  /** Splices at incomparable paths commute, whatever the base holds there. */
  lemma {:induction false} SplicesCommute(base: Tree, p: seq<string>, a: Tree, q: seq<string>, b: Tree)
    requires p != [] && q != [] && Incomparable(p, q)
    ensures Splice(Splice(base, p, a), q, b) == Splice(Splice(base, q, b), p, a)
    decreases |p|
  {
    if p[0] == q[0] {
      IncomparableTails(p, q);
      SplicesBelowOneName(base, p, a, q, b);
      SplicesBelowOneName(base, q, b, p, a);
      SplicesCommute(Child(base, p[0]), p[1..], a, q[1..], b);
    } else {
      SplicesApartCommute(base, p, a, q, b);
    }
  }

  /** Putting back what is there changes nothing. */
  lemma {:induction false} SpliceSame(base: Tree, path: seq<string>)
    requires path != [] && SubtreeAt(base, path).Some?
    ensures Splice(base, path, SubtreeAt(base, path).value) == base
    decreases |path|
  {
    var sub := SubtreeAt(base, path).value;
    if |path| > 1 {
      SpliceSame(Child(base, path[0]), path[1..]);
    }
    assert Splice(base, path, sub).entries == base.entries;
  }
}
