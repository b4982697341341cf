/** Packaging a stored directory as one Tree message, and writing such a message
    back to disk: together with building, a round trip. */
module MerkleTrees {
  import opened Wrappers
  import opened Names
  import opened Merkle

  // --- what a message lists ---

  predicate AscendingNames<T>(nodes: seq<T>, name: T -> string) {
    forall i, j :: 0 <= i < j < |nodes| ==> Less(name(nodes[i]), name(nodes[j]))
  }

  /** The message of a directory lists its files with hash, length and executable
      bit, its directories with hash and length of their messages, and its links
      with their targets, all of them, nothing else, in ascending order of names. */
  lemma {:induction false} MessagesList(c: Codec, d: Folder)
    ensures AscendingNames(Message(c, d).files, (f: FileNode) => f.name)
    ensures AscendingNames(Message(c, d).directories, (s: DirectoryNode) => s.name)
    ensures AscendingNames(Message(c, d).symlinks, (l: SymlinkNode) => l.name)
    ensures forall f :: f in Message(c, d).files <==> IsListedFile(c, d, f)
    ensures forall s :: s in Message(c, d).directories <==> IsListedSub(c, d, s)
    ensures forall l :: l in Message(c, d).symlinks <==> l.name in d.nodes && d.nodes[l.name] == Link(l.target)
  {
    FilesListed(c, d);
    SubsListed(c, d);
    LinksListed(c, d);
  }

  predicate IsListedFile(c: Codec, d: Folder, f: FileNode) {
    f.name in d.nodes && d.nodes[f.name].File?
    && var data := d.nodes[f.name].data; f.digest == Digest(c.hash(data), |data|) && f.isExecutable == d.nodes[f.name].executable
  }

  ghost predicate IsListedSub(c: Codec, d: Folder, s: DirectoryNode) {
    s.name in d.nodes && d.nodes[s.name].Sub?
    && var data := c.encode(Message(c, d.nodes[s.name].dir)); s.digest == Digest(c.hash(data), |data|)
  }

  lemma {:induction false} FilesListed(c: Codec, d: Folder)
    ensures AscendingNames(Message(c, d).files, (f: FileNode) => f.name)
    ensures forall f :: f in Message(c, d).files <==> IsListedFile(c, d, f)
  {
    var files, names := Message(c, d).files, Sorted(FileNames(d));
    assert forall i :: 0 <= i < |files| ==> files[i] == FileNodeAt(c, d, names[i]) && names[i] in FileNames(d);
    forall f | IsListedFile(c, d, f) ensures f in files {
      assert f.name in names;
      var i :| 0 <= i < |names| && names[i] == f.name;
      assert files[i] == f;
    }
  }

  lemma {:induction false} AllSubsListed(c: Codec, d: Folder)
    ensures |Message(c, d).directories| == |Sorted(SubNames(d))|
  {
  }

  lemma {:induction false} SubNodeIsListed(c: Codec, d: Folder, s: DirectoryNode)
    requires IsSub(d, s.name)
    ensures IsListedSub(c, d, s) <==> s == SubNodeAt(c, d, s.name)
  {
  }

  lemma {:induction false} SubsListed(c: Codec, d: Folder)
    ensures AscendingNames(Message(c, d).directories, (s: DirectoryNode) => s.name)
    ensures forall s :: s in Message(c, d).directories <==> IsListedSub(c, d, s)
  {
    var subs, names := Message(c, d).directories, Sorted(SubNames(d));
    forall i | 0 <= i < |subs| ensures subs[i].name == names[i] && IsSub(d, names[i]) && subs[i] == SubNodeAt(c, d, names[i]) {
      SubListed(c, d, i);
      assert subs[i] == SubNodeAt(c, d, names[i]);
    }
    forall s | s in subs ensures IsListedSub(c, d, s) {
      var i :| 0 <= i < |subs| && subs[i] == s;
      SubNodeIsListed(c, d, s);
    }
    AllSubsListed(c, d);
    forall s | IsListedSub(c, d, s) ensures s in subs {
      assert s.name in SubNames(d) && s.name in names;
      var i :| 0 <= i < |names| && names[i] == s.name;
      SubNodeIsListed(c, d, s);
      assert subs[i] == s;
    }
  }

  lemma {:induction false} LinksListed(c: Codec, d: Folder)
    ensures AscendingNames(Message(c, d).symlinks, (l: SymlinkNode) => l.name)
    ensures forall l :: l in Message(c, d).symlinks <==> l.name in d.nodes && d.nodes[l.name] == Link(l.target)
  {
    var links, names := Message(c, d).symlinks, Sorted(LinkNames(d));
    forall i | 0 <= i < |links| ensures IsLink(d, names[i]) && links[i] == SymlinkNode(names[i], d.nodes[names[i]].target) {
      assert names[i] in LinkNames(d);
      assert links[i] == LinkNodeAt(d, names[i]);
    }
    forall l: SymlinkNode | l.name in d.nodes && d.nodes[l.name] == Link(l.target) ensures l in links {
      assert l.name in names;
      var i :| 0 <= i < |names| && names[i] == l.name;
      assert links[i] == l;
    }
  }

  // --- a digest names one directory ---

  lemma {:induction false} FilesAgree(c: Codec, a: Folder, b: Folder, n: string)
    requires ValidCodec(c) && Message(c, a).files == Message(c, b).files && IsFile(a, n)
    ensures IsFile(b, n) && a.nodes[n] == b.nodes[n]
  {
    var names := Sorted(FileNames(a));
    assert n in names;
    var i :| 0 <= i < |names| && names[i] == n;
    assert Message(c, a).files[i] == FileNodeAt(c, a, n);
    assert Message(c, b).files[i] == FileNodeAt(c, b, Sorted(FileNames(b))[i]);
    assert Sorted(FileNames(b))[i] in FileNames(b);
  }

  lemma {:induction false} LinksAgree(c: Codec, a: Folder, b: Folder, n: string)
    requires Message(c, a).symlinks == Message(c, b).symlinks && IsLink(a, n)
    ensures IsLink(b, n) && a.nodes[n] == b.nodes[n]
  {
    var names := Sorted(LinkNames(a));
    assert n in names;
    var i :| 0 <= i < |names| && names[i] == n;
    assert Message(c, a).symlinks[i] == LinkNodeAt(a, n);
    assert Message(c, b).symlinks[i] == LinkNodeAt(b, Sorted(LinkNames(b))[i]);
    assert Sorted(LinkNames(b))[i] in LinkNames(b);
  }

  lemma {:induction false} SubsAgree(c: Codec, a: Folder, b: Folder, n: string)
    requires ValidCodec(c) && Message(c, a).directories == Message(c, b).directories && IsSub(a, n)
    ensures IsSub(b, n) && HashOf(c, a.nodes[n].dir) == HashOf(c, b.nodes[n].dir)
  {
    var names := Sorted(SubNames(a));
    assert n in names;
    var i :| 0 <= i < |names| && names[i] == n;
    assert Message(c, a).directories[i] == SubNodeAt(c, a, n);
    assert Message(c, b).directories[i] == SubNodeAt(c, b, Sorted(SubNames(b))[i]);
    assert Sorted(SubNames(b))[i] in SubNames(b);
  }

  lemma {:induction false} SameHashSameMessage(c: Codec, a: Folder, b: Folder)
    requires ValidCodec(c) && HashOf(c, a) == HashOf(c, b)
    ensures Message(c, a) == Message(c, b)
  {
    assert Encoded(c, a) == Encoded(c, b);
    assert c.decode(Encoded(c, a)) == Some(Message(c, a));
    assert c.decode(Encoded(c, b)) == Some(Message(c, b));
  }

  lemma {:induction false} SameEntry(c: Codec, a: Folder, b: Folder, n: string)
    requires ValidCodec(c) && Message(c, a) == Message(c, b) && n in a.nodes
    ensures n in b.nodes
    ensures !a.nodes[n].Sub? ==> a.nodes[n] == b.nodes[n]
    ensures a.nodes[n].Sub? ==> b.nodes[n].Sub? && HashOf(c, a.nodes[n].dir) == HashOf(c, b.nodes[n].dir)
  {
    match a.nodes[n] {
      case File(_, _) => FilesAgree(c, a, b, n);
      case Link(_) => LinksAgree(c, a, b, n);
      case Sub(_) => SubsAgree(c, a, b, n);
    }
  }

  /** Equal root digests mean equal directories: names, contents, executable
      bits, link targets, at every depth. */
  lemma {:induction false} DigestNamesTheDirectory(c: Codec, a: Folder, b: Folder)
    requires ValidCodec(c)
    ensures HashOf(c, a) == HashOf(c, b) <==> a == b
    decreases a
  {
    if HashOf(c, a) == HashOf(c, b) {
      SameHashSameMessage(c, a, b);
      forall n | n in a.nodes ensures n in b.nodes && a.nodes[n] == b.nodes[n] {
        SameEntry(c, a, b, n);
        if a.nodes[n].Sub? {
          DigestNamesTheDirectory(c, a.nodes[n].dir, b.nodes[n].dir);
        }
      }
      forall n | n in b.nodes ensures n in a.nodes {
        SameEntry(c, b, a, n);
      }
      assert a.nodes == b.nodes;
    }
  }

  // --- descendants ---

  lemma {:induction false} BelowIsSmaller(x: Folder, d: Folder)
    requires IsBelow(x, d)
    ensures x < d
    decreases d
  {
    var n :| n in d.nodes && d.nodes[n].Sub? && (x == d.nodes[n].dir || IsBelow(x, d.nodes[n].dir));
    if x != d.nodes[n].dir {
      BelowIsSmaller(x, d.nodes[n].dir);
    }
  }

  lemma {:induction false} BelowIsTransitive(x: Folder, y: Folder, d: Folder)
    requires IsBelow(x, y) && IsBelow(y, d)
    ensures IsBelow(x, d)
    decreases d
  {
    var n :| n in d.nodes && d.nodes[n].Sub? && (y == d.nodes[n].dir || IsBelow(y, d.nodes[n].dir));
    if y != d.nodes[n].dir {
      BelowIsTransitive(x, y, d.nodes[n].dir);
    }
    assert IsBelow(x, d.nodes[n].dir);
  }

  ghost predicate AllBelowSeen(c: Codec, seen: set<string>, d: Folder) {
    forall x :: IsBelow(x, d) ==> HashOf(c, x) in seen
  }

  /** Whatever of `d` is seen is seen with everything below it. */
  ghost predicate SeenClosed(c: Codec, seen: set<string>, d: Folder) {
    forall x :: IsBelow(x, d) && HashOf(c, x) in seen ==> AllBelowSeen(c, seen, x)
  }

  /** `seen` grew by hashes of directories below `d` only. */
  ghost predicate GrewBelow(c: Codec, before: set<string>, after: set<string>, d: Folder) {
    && before <= after
    && forall h <- after :: h in before || exists x :: IsBelow(x, d) && HashOf(c, x) == h
  }

  /** `found` are the messages of the directories with the given hashes, once
      each. */
  ghost predicate Lists(c: Codec, found: seq<Directory>, hashes: set<string>) {
    && (forall i, j :: 0 <= i < j < |found| ==> found[i] != found[j])
    && (forall m <- found :: c.hash(c.encode(m)) in hashes)
    && forall h <- hashes :: exists m :: m in found && c.hash(c.encode(m)) == h
  }

  lemma {:induction false} EnterChild(c: Codec, seen: set<string>, d: Folder, n: string)
    requires ValidCodec(c) && SeenClosed(c, seen, d) && IsSub(d, n)
    ensures IsBelow(d.nodes[n].dir, d)
    ensures SeenClosed(c, seen + {HashOf(c, d.nodes[n].dir)}, d.nodes[n].dir)
  {
    var child := d.nodes[n].dir;
    var more := seen + {HashOf(c, child)};
    forall x | IsBelow(x, child) && HashOf(c, x) in more ensures AllBelowSeen(c, more, x) {
      BelowIsSmaller(x, child);
      DigestNamesTheDirectory(c, x, child);
      BelowIsTransitive(x, child, d);
      assert AllBelowSeen(c, seen, x);
    }
  }

  lemma {:induction false} LeaveChild(c: Codec, seen: set<string>, after: set<string>, d: Folder, n: string)
    requires ValidCodec(c) && SeenClosed(c, seen, d) && IsSub(d, n) && IsBelow(d.nodes[n].dir, d)
    requires GrewBelow(c, seen + {HashOf(c, d.nodes[n].dir)}, after, d.nodes[n].dir) && AllBelowSeen(c, after, d.nodes[n].dir)
    ensures SeenClosed(c, after, d) && GrewBelow(c, seen, after, d)
  {
    var child := d.nodes[n].dir;
    forall x | IsBelow(x, d) && HashOf(c, x) in after ensures AllBelowSeen(c, after, x) {
      if HashOf(c, x) in seen {
        assert AllBelowSeen(c, seen, x);
      } else if HashOf(c, x) == HashOf(c, child) {
        DigestNamesTheDirectory(c, x, child);
      } else {
        var y :| IsBelow(y, child) && HashOf(c, y) == HashOf(c, x);
        DigestNamesTheDirectory(c, x, y);
        forall z | IsBelow(z, x) ensures HashOf(c, z) in after {
          BelowIsTransitive(z, x, child);
        }
      }
    }
    forall h | h in after && h !in seen ensures exists x :: IsBelow(x, d) && HashOf(c, x) == h {
      if h == HashOf(c, child) {
        assert IsBelow(child, d);
      } else {
        var y :| IsBelow(y, child) && HashOf(c, y) == h;
        BelowIsTransitive(y, child, d);
      }
    }
  }

  lemma {:induction false} ListsChild(c: Codec, found: seq<Directory>, hashes: set<string>, deeper: seq<Directory>, more: set<string>, m: Directory)
    requires Lists(c, found, hashes) && Lists(c, deeper, more)
    requires hashes !! more && c.hash(c.encode(m)) !in hashes && c.hash(c.encode(m)) !in more
    ensures Lists(c, found + deeper + [m], hashes + more + {c.hash(c.encode(m))})
  {
    var all := found + deeper + [m];
    forall i, j | 0 <= i < j < |all| ensures all[i] != all[j] {
      assert i < |found| ==> found[i] in found;
      assert |found| <= i < |found| + |deeper| ==> deeper[i - |found|] in deeper;
      assert |found| <= j < |found| + |deeper| ==> deeper[j - |found|] in deeper;
    }
    forall h | h in hashes + more + {c.hash(c.encode(m))} ensures exists x :: x in all && c.hash(c.encode(x)) == h {
      if h in hashes {
        var x :| x in found && c.hash(c.encode(x)) == h;
        assert x in all;
      } else if h in more {
        var x :| x in deeper && c.hash(c.encode(x)) == h;
        assert x in all;
      } else {
        assert m in all;
      }
    }
  }

  // --- collecting descendants ---

  function DecodeDirectory(c: Codec, hash: string, blobs: Blobs): Result<Directory> {
    if hash !in blobs then Err(MissingBlob)
    else
      match c.decode(blobs[hash])
      case Some(dir) => Ok(dir)
      case None => Err(MalformedBlob)
  }

  ghost predicate Present(c: Codec, blobs: Blobs, d: Folder) {
    forall x :: IsBelow(x, d) ==> HashOf(c, x) in blobs
  }

  /** What a walk over the directories below `d` has done so far. */
  ghost predicate Walked(c: Codec, blobs: Blobs, d: Folder, start: set<string>, seen: set<string>, found: seq<Directory>) {
    && SeenClosed(c, seen, d) && GrewBelow(c, start, seen, d)
    && Lists(c, found, seen - start) && seen - start <= blobs.Keys
  }

  lemma {:induction false} DecodedChild(c: Codec, blobs: Blobs, x: Folder)
    requires ValidCodec(c) && WellKeyed(c, blobs)
    ensures HashOf(c, x) in blobs ==> DecodeDirectory(c, HashOf(c, x), blobs) == Ok(Message(c, x))
  {
    if HashOf(c, x) in blobs {
      assert blobs[HashOf(c, x)] == Encoded(c, x);
    }
  }

  lemma NewlySeen(start: set<string>, seen: set<string>, after: set<string>, h: string)
    requires start <= seen && seen + {h} <= after && h !in seen
    ensures (seen - start) + (after - (seen + {h})) + {h} == after - start
  {
  }

  lemma {:induction false} WalkedListing(c: Codec, start: set<string>, seen: set<string>, after: set<string>,
                                         found: seq<Directory>, deeper: seq<Directory>, child: Folder)
    requires start <= seen && seen + {HashOf(c, child)} <= after && HashOf(c, child) !in seen
    requires Lists(c, found, seen - start) && Lists(c, deeper, after - (seen + {HashOf(c, child)}))
    ensures Lists(c, found + deeper + [Message(c, child)], after - start)
  {
    var h := HashOf(c, child);
    NewlySeen(start, seen, after, h);
    ListsChild(c, found, seen - start, deeper, after - (seen + {h}), Message(c, child));
  }

  lemma {:induction false} WalkedChild(c: Codec, blobs: Blobs, d: Folder, n: string, start: set<string>, seen: set<string>,
                                       after: set<string>, found: seq<Directory>, deeper: seq<Directory>)
    requires ValidCodec(c) && IsSub(d, n)
    requires Walked(c, blobs, d, start, seen, found) && HashOf(c, d.nodes[n].dir) in blobs.Keys - seen
    requires Walked(c, blobs, d.nodes[n].dir, seen + {HashOf(c, d.nodes[n].dir)}, after, deeper)
    requires AllBelowSeen(c, after, d.nodes[n].dir)
    ensures Walked(c, blobs, d, start, after, found + deeper + [Message(c, d.nodes[n].dir)])
  {
    var child := d.nodes[n].dir;
    var h := HashOf(c, child);
    EnterChild(c, seen, d, n);
    LeaveChild(c, seen, after, d, n);
    WalkedListing(c, start, seen, after, found, deeper, child);
  }

  ghost predicate ChildrenSeen(c: Codec, seen: set<string>, dir: Directory, upTo: nat) {
    upTo <= |dir.directories| && forall j :: 0 <= j < upTo ==> dir.directories[j].digest.hash in seen
  }

  lemma {:induction false} WalkDone(c: Codec, d: Folder, seen: set<string>)
    requires SeenClosed(c, seen, d) && ChildrenSeen(c, seen, Message(c, d), |Message(c, d).directories|)
    ensures AllBelowSeen(c, seen, d)
  {
    forall x | IsBelow(x, d) ensures HashOf(c, x) in seen {
      var n :| n in d.nodes && d.nodes[n].Sub? && (x == d.nodes[n].dir || IsBelow(x, d.nodes[n].dir));
      var names := Sorted(SubNames(d));
      assert n in names;
      var i :| 0 <= i < |names| && names[i] == n;
      assert Message(c, d).directories[i] == SubNodeAt(c, d, n);
      assert HashOf(c, d.nodes[n].dir) in seen;
      assert IsBelow(d.nodes[n].dir, d);
    }
  }

  lemma {:induction false} SubListed(c: Codec, d: Folder, i: nat)
    requires i < |Message(c, d).directories|
    ensures |Message(c, d).directories| == |Sorted(SubNames(d))|
    ensures IsSub(d, Sorted(SubNames(d))[i]) && IsBelow(d.nodes[Sorted(SubNames(d))[i]].dir, d)
    ensures Message(c, d).directories[i].name == Sorted(SubNames(d))[i]
    ensures Message(c, d).directories[i].digest.hash == HashOf(c, d.nodes[Sorted(SubNames(d))[i]].dir)
  {
    var n := Sorted(SubNames(d))[i];
    assert n in SubNames(d);
    assert Message(c, d).directories[i] == SubNodeAt(c, d, n);
    assert IsBelow(d.nodes[n].dir, d);
  }

  ghost predicate Walking(c: Codec, blobs: Blobs, d: Folder, start: set<string>, seen: set<string>,
                          found: seq<Directory>, upTo: nat) {
    Walked(c, blobs, d, start, seen, found) && ChildrenSeen(c, seen, Message(c, d), upTo)
  }

  lemma {:induction false} WalkSkip(c: Codec, blobs: Blobs, d: Folder, start: set<string>, seen: set<string>,
                                    found: seq<Directory>, i: nat)
    requires Walking(c, blobs, d, start, seen, found, i) && i < |Message(c, d).directories|
    requires Message(c, d).directories[i].digest.hash in seen
    ensures Walking(c, blobs, d, start, seen, found, i + 1)
  {
  }

  lemma {:induction false} WalkOne(c: Codec, blobs: Blobs, d: Folder, start: set<string>, seen: set<string>, after: set<string>,
                                   found: seq<Directory>, deeper: seq<Directory>, i: nat, x: Folder)
    requires ValidCodec(c) && Walking(c, blobs, d, start, seen, found, i)
    requires i < |Message(c, d).directories| && i < |Sorted(SubNames(d))|
    requires IsSub(d, Sorted(SubNames(d))[i]) && x == d.nodes[Sorted(SubNames(d))[i]].dir
    requires HashOf(c, x) in blobs.Keys - seen
    requires Walked(c, blobs, x, seen + {HashOf(c, x)}, after, deeper) && AllBelowSeen(c, after, x)
    ensures Walking(c, blobs, d, start, after, found + deeper + [Message(c, x)], i + 1)
  {
    SubListed(c, d, i);
    WalkedChild(c, blobs, d, Sorted(SubNames(d))[i], start, seen, after, found, deeper);
  }

  lemma {:induction false} WalkInto(c: Codec, blobs: Blobs, d: Folder, start: set<string>, seen: set<string>,
                                    found: seq<Directory>, i: nat) returns (x: Folder)
    requires ValidCodec(c) && WellKeyed(c, blobs) && Walking(c, blobs, d, start, seen, found, i)
    requires i < |Message(c, d).directories|
    ensures i < |Sorted(SubNames(d))|
    ensures IsSub(d, Sorted(SubNames(d))[i]) && x == d.nodes[Sorted(SubNames(d))[i]].dir && IsBelow(x, d) && x < d
    ensures Message(c, d).directories[i].digest.hash == HashOf(c, x)
    ensures SeenClosed(c, seen + {HashOf(c, x)}, x)
    ensures HashOf(c, x) in blobs ==> DecodeDirectory(c, HashOf(c, x), blobs) == Ok(Message(c, x))
  {
    SubListed(c, d, i);
    x := d.nodes[Sorted(SubNames(d))[i]].dir;
    EnterChild(c, seen, d, Sorted(SubNames(d))[i]);
    BelowIsSmaller(x, d);
    DecodedChild(c, blobs, x);
  }

  /** Every directory below `d` that is not seen yet, once, children before
      parents; it fails exactly by meeting a directory that is not stored. */
  method CollectDescendants(c: Codec, ghost d: Folder, dir: Directory, blobs: Blobs, start: set<string>)
      returns (found: Result<seq<Directory>>, seen: set<string>)
    requires ValidCodec(c) && WellKeyed(c, blobs) && dir == Message(c, d) && SeenClosed(c, start, d)
    ensures found.Ok? ==> Walked(c, blobs, d, start, seen, found.value) && AllBelowSeen(c, seen, d)
    ensures found.Err? ==> !Present(c, blobs, d)
    decreases d
  {
    seen := start;
    var children: seq<Directory> := [];
    for i := 0 to |dir.directories|
      invariant Walking(c, blobs, d, start, seen, children, i)
    {
      var h := dir.directories[i].digest.hash;
      if h in seen {
        WalkSkip(c, blobs, d, start, seen, children, i);
      } else {
        ghost var x := WalkInto(c, blobs, d, start, seen, children, i);
        var child := DecodeDirectory(c, h, blobs);
        if child.Err? {
          return Err(child.error), seen;
        }
        var deeper, after := CollectDescendants(c, x, child.value, blobs, seen + {h});
        if deeper.Err? {
          MissingBelow(c, blobs, x, d);
          return deeper, after;
        }
        WalkOne(c, blobs, d, start, seen, after, children, deeper.value, i, x);
        seen, children := after, children + deeper.value + [child.value];
      }
    }
    WalkDone(c, d, seen);
    found := Ok(children);
  }

  lemma {:induction false} MissingBelow(c: Codec, blobs: Blobs, x: Folder, d: Folder)
    requires IsBelow(x, d) && !Present(c, blobs, x)
    ensures !Present(c, blobs, d)
  {
    var y :| IsBelow(y, x) && HashOf(c, y) !in blobs;
    BelowIsTransitive(y, x, d);
  }

  /** `tree` packages `d`: its root, and every directory below, once each. */
  ghost predicate Represents(c: Codec, tree: TreeMessage, d: Folder) {
    && tree.root == Message(c, d)
    && (forall i, j :: 0 <= i < j < |tree.children| ==> tree.children[i] != tree.children[j])
    && (forall x :: IsBelow(x, d) ==> Message(c, x) in tree.children)
    && forall m <- tree.children :: exists x :: IsBelow(x, d) && m == Message(c, x)
  }

  /** Packaging succeeds exactly when the root and everything below is stored. */
  method TreeFromBlobs(c: Codec, ghost d: Folder, root: Digest, blobs: Blobs) returns (tree: Result<TreeMessage>)
    requires ValidCodec(c) && WellKeyed(c, blobs) && root.hash == HashOf(c, d)
    ensures tree.Ok? <==> HashOf(c, d) in blobs && Present(c, blobs, d)
    ensures tree.Ok? ==> Represents(c, tree.value, d)
  {
    DecodedChild(c, blobs, d);
    var dir := DecodeDirectory(c, root.hash, blobs);
    if dir.Err? {
      return Err(dir.error);
    }
    var found, seen := CollectDescendants(c, d, dir.value, blobs, {});
    if found.Err? {
      return Err(found.error);
    }
    WholeWalk(c, blobs, d, seen, found.value);
    tree := Ok(TreeMessage(dir.value, found.value));
  }

  lemma {:induction false} WholeWalk(c: Codec, blobs: Blobs, d: Folder, seen: set<string>, found: seq<Directory>)
    requires ValidCodec(c) && Walked(c, blobs, d, {}, seen, found) && AllBelowSeen(c, seen, d)
    ensures Present(c, blobs, d) && Represents(c, TreeMessage(Message(c, d), found), d)
  {
    assert seen - {} == seen;
    forall x | IsBelow(x, d) ensures Message(c, x) in found && HashOf(c, x) in blobs {
      var m :| m in found && c.hash(c.encode(m)) == HashOf(c, x);
      SameEncoding(c, m, Message(c, x));
    }
    forall m | m in found ensures exists x :: IsBelow(x, d) && m == Message(c, x) {
      var x :| IsBelow(x, d) && HashOf(c, x) == c.hash(c.encode(m));
      SameEncoding(c, m, Message(c, x));
    }
  }

  lemma {:induction false} SameEncoding(c: Codec, a: Directory, b: Directory)
    requires ValidCodec(c) && c.hash(c.encode(a)) == c.hash(c.encode(b))
    ensures a == b
  {
    assert c.decode(c.encode(a)) == Some(a);
    assert c.decode(c.encode(b)) == Some(b);
  }
}
