/** Content-addressed directory trees, as the Remote Execution API v2 lays them
    out in the messages Directory and Tree. */
module Merkle {
  import opened Wrappers
  import opened Trees
  import opened Names

  // --- directories on disk ---

  /** What a directory lists: files with their owner-execute bit, symlinks with
      their target, directories. */
  datatype Node =
    | File(data: Bytes, executable: bool)
    | Link(target: string)
    | Sub(dir: Folder)

  datatype Folder = Folder(nodes: map<string, Node>)

  // --- messages ---

  datatype Digest = Digest(hash: string, size: nat)
  datatype FileNode = FileNode(name: string, digest: Digest, isExecutable: bool)
  datatype DirectoryNode = DirectoryNode(name: string, digest: Digest)
  datatype SymlinkNode = SymlinkNode(name: string, target: string)
  datatype Directory = Directory(files: seq<FileNode>, directories: seq<DirectoryNode>, symlinks: seq<SymlinkNode>)
  datatype TreeMessage = TreeMessage(root: Directory, children: seq<Directory>)

  /** Hashing and message encoding, taken to be injective. */
  datatype Codec = Codec(hash: Bytes -> string, encode: Directory -> Bytes, decode: Bytes -> Option<Directory>)

  ghost predicate ValidCodec(c: Codec) {
    && (forall a, b :: c.hash(a) == c.hash(b) ==> a == b)
    && (forall m :: c.decode(c.encode(m)) == Some(m))
  }

  function DigestOf(c: Codec, data: Bytes): Digest {
    Digest(c.hash(data), |data|)
  }

  // --- the message of a directory ---

  predicate IsFile(d: Folder, name: string) { name in d.nodes && d.nodes[name].File? }
  predicate IsLink(d: Folder, name: string) { name in d.nodes && d.nodes[name].Link? }
  predicate IsSub(d: Folder, name: string) { name in d.nodes && d.nodes[name].Sub? }

  function FileNames(d: Folder): set<string> { set n | n in d.nodes && d.nodes[n].File? }
  function LinkNames(d: Folder): set<string> { set n | n in d.nodes && d.nodes[n].Link? }
  function SubNames(d: Folder): set<string> { set n | n in d.nodes && d.nodes[n].Sub? }

  function FileNodeAt(c: Codec, d: Folder, name: string): FileNode {
    if IsFile(d, name) then FileNode(name, DigestOf(c, d.nodes[name].data), d.nodes[name].executable)
    else FileNode(name, Digest("", 0), false)
  }

  function LinkNodeAt(d: Folder, name: string): SymlinkNode {
    if IsLink(d, name) then SymlinkNode(name, d.nodes[name].target) else SymlinkNode(name, "")
  }

  ghost function SubNodeAt(c: Codec, d: Folder, name: string): DirectoryNode
    decreases d, 0
  {
    if IsSub(d, name) then DirectoryNode(name, DigestOf(c, Encoded(c, d.nodes[name].dir)))
    else DirectoryNode(name, Digest("", 0))
  }

  /** The canonical message: every kind of entry in ascending order of name. */
  ghost function Message(c: Codec, d: Folder): Directory
    decreases d, 1
  {
    var files, subs, links := Sorted(FileNames(d)), Sorted(SubNames(d)), Sorted(LinkNames(d));
    Directory(seq(|files|, i requires 0 <= i < |files| => FileNodeAt(c, d, files[i])),
              seq(|subs|, i requires 0 <= i < |subs| => SubNodeAt(c, d, subs[i])),
              seq(|links|, i requires 0 <= i < |links| => LinkNodeAt(d, links[i])))
  }

  ghost function Encoded(c: Codec, d: Folder): Bytes
    decreases d, 2
  {
    c.encode(Message(c, d))
  }

  ghost function HashOf(c: Codec, d: Folder): string {
    c.hash(Encoded(c, d))
  }

  /** `x` is a directory somewhere below `d`. */
  ghost predicate IsBelow(x: Folder, d: Folder)
    decreases d
  {
    exists n :: n in d.nodes && d.nodes[n].Sub? && (x == d.nodes[n].dir || IsBelow(x, d.nodes[n].dir))
  }

  /** `data` is content the directory stands on: its own message, a file, or
      content of a directory in it. */
  ghost predicate Reaches(c: Codec, d: Folder, data: Bytes)
    decreases d
  {
    || data == Encoded(c, d)
    || exists n :: n in d.nodes &&
         match d.nodes[n]
         case File(bytes, _) => data == bytes
         case Sub(sub) => Reaches(c, sub, data)
         case Link(_) => false
  }

  type Blobs = map<string, Bytes>

  /** A store files every blob under its hash. */
  ghost predicate WellKeyed(c: Codec, blobs: Blobs) {
    forall h <- blobs :: c.hash(blobs[h]) == h
  }

  ghost predicate Covers(c: Codec, blobs: Blobs, d: Folder) {
    forall data :: Reaches(c, d, data) ==> c.hash(data) in blobs
  }

  /** `after` adds to `before` nothing but content of `d`. */
  ghost predicate AddsOnly(c: Codec, d: Folder, before: Blobs, after: Blobs) {
    && (forall h <- before :: h in after && after[h] == before[h])
    && (forall h <- after :: h in before || Reaches(c, d, after[h]))
  }

  function InsertBlob(blobs: Blobs, digest: Digest, data: Bytes): Blobs {
    if digest.hash in blobs then blobs else blobs[digest.hash := data]
  }

  /** `nodes` are the records of the names of `all` that are done, once each. */
  ghost predicate Collected<T(!new)>(nodes: seq<T>, names: seq<string>, f: string -> T, all: set<string>, todo: set<string>) {
    && nodes == MapNames(f, names)
    && Distinct(names)
    && forall x :: x in names <==> x in all && x !in todo
  }

  lemma {:induction false} CollectOne<T(!new)>(nodes: seq<T>, names: seq<string>, f: string -> T, all: set<string>, todo: set<string>, name: string)
    requires Collected(nodes, names, f, all, todo) && name in all && name in todo
    ensures Collected(nodes + [f(name)], names + [name], f, all, todo - {name})
  {
  }

  lemma {:induction false} CollectNone<T(!new)>(nodes: seq<T>, names: seq<string>, f: string -> T, all: set<string>, todo: set<string>, name: string)
    requires Collected(nodes, names, f, all, todo) && name !in all
    ensures Collected(nodes, names, f, all, todo - {name})
  {
  }

  /** What the loop over a directory has stored so far. */
  ghost predicate Stored(c: Codec, d: Folder, start: Blobs, out: Blobs, todo: set<string>) {
    && WellKeyed(c, out) && AddsOnly(c, d, start, out)
    && forall n <- d.nodes.Keys - todo :: NodeCovered(c, out, d.nodes[n])
  }

  ghost function FileAt(c: Codec, d: Folder): string -> FileNode { n => FileNodeAt(c, d, n) }
  ghost function SubAt(c: Codec, d: Folder): string -> DirectoryNode { n => SubNodeAt(c, d, n) }
  ghost function LinkAt(d: Folder): string -> SymlinkNode { n => LinkNodeAt(d, n) }

  /** The loop over the entries of a directory, in whatever order they are
      listed; it returns the digest of the canonical message. */
  method BuildDir(c: Codec, d: Folder, blobs: Blobs) returns (digest: Digest, out: Blobs)
    requires ValidCodec(c) && WellKeyed(c, blobs)
    ensures digest == Digest(c.hash(Encoded(c, d)), |Encoded(c, d)|)
    ensures WellKeyed(c, out) && Covers(c, out, d) && AddsOnly(c, d, blobs, out)
    decreases d
  {
    out := blobs;
    var files: seq<FileNode>, subs: seq<DirectoryNode>, links: seq<SymlinkNode> := [], [], [];
    ghost var fileNames: seq<string>, subNames: seq<string>, linkNames: seq<string> := [], [], [];
    var todo := d.nodes.Keys;
    while todo != {}
      invariant todo <= d.nodes.Keys
      invariant Stored(c, d, blobs, out, todo)
      invariant Collected(files, fileNames, FileAt(c, d), FileNames(d), todo)
      invariant Collected(subs, subNames, SubAt(c, d), SubNames(d), todo)
      invariant Collected(links, linkNames, LinkAt(d), LinkNames(d), todo)
    {
      var name :| name in todo;
      ghost var before := out;
      match d.nodes[name] {
        case Link(target) =>
          CollectOne(links, linkNames, LinkAt(d), LinkNames(d), todo, name);
          links, linkNames := links + [SymlinkNode(name, target)], linkNames + [name];
          CollectNone(subs, subNames, SubAt(c, d), SubNames(d), todo, name);
          CollectNone(files, fileNames, FileAt(c, d), FileNames(d), todo, name);
        case Sub(sub) =>
          var subDigest;
          subDigest, out := BuildDir(c, sub, out);
          StoredBelow(c, d, name, blobs, before, out, todo);
          CollectOne(subs, subNames, SubAt(c, d), SubNames(d), todo, name);
          subs, subNames := subs + [DirectoryNode(name, subDigest)], subNames + [name];
          CollectNone(links, linkNames, LinkAt(d), LinkNames(d), todo, name);
          CollectNone(files, fileNames, FileAt(c, d), FileNames(d), todo, name);
        case File(data, executable) =>
          var fileDigest := DigestOf(c, data);
          out := InsertBlob(out, fileDigest, data);
          StoredFile(c, d, name, blobs, before, todo);
          CollectOne(files, fileNames, FileAt(c, d), FileNames(d), todo, name);
          files, fileNames := files + [FileNode(name, fileDigest, executable)], fileNames + [name];
          CollectNone(links, linkNames, LinkAt(d), LinkNames(d), todo, name);
          CollectNone(subs, subNames, SubAt(c, d), SubNames(d), todo, name);
      }
      todo := todo - {name};
    }
    var message := SortedDirectory(files, subs, links);
    FilesSorted(c, d, files, fileNames);
    SubsSorted(c, d, subs, subNames);
    LinksSorted(c, d, links, linkNames);
    var data := c.encode(message);
    digest := DigestOf(c, data);
    AllCovered(c, d, blobs, out);
    out := InsertBlob(out, digest, data);
  }

  predicate FileBelow(a: FileNode, b: FileNode) { Less(a.name, b.name) }
  predicate SubBelow(a: DirectoryNode, b: DirectoryNode) { Less(a.name, b.name) }
  predicate LinkBelow(a: SymlinkNode, b: SymlinkNode) { Less(a.name, b.name) }

  function SortedDirectory(files: seq<FileNode>, subs: seq<DirectoryNode>, links: seq<SymlinkNode>): Directory {
    Directory(SortBy(files, FileBelow), SortBy(subs, SubBelow), SortBy(links, LinkBelow))
  }

  ghost predicate NodeCovered(c: Codec, blobs: Blobs, node: Node) {
    match node
    case File(data, _) => c.hash(data) in blobs
    case Sub(sub) => Covers(c, blobs, sub)
    case Link(_) => true
  }

  lemma {:induction false} SortedIsCanonical<T(!new)>(nodes: seq<T>, names: seq<string>, f: string -> T, below: (T, T) -> bool, all: set<string>)
    requires Collected(nodes, names, f, all, {}) && forall m, n :: below(f(m), f(n)) <==> Less(m, n)
    ensures SortBy(nodes, below) == MapNames(f, Sorted(all))
  {
    SortByIsMap(names, below, f);
    SortIgnoresTheOrder(names, all);
  }

  lemma {:induction false} FilesSorted(c: Codec, d: Folder, files: seq<FileNode>, names: seq<string>)
    requires Collected(files, names, FileAt(c, d), FileNames(d), {})
    ensures SortBy(files, FileBelow) == Message(c, d).files
  {
    SortedIsCanonical(files, names, FileAt(c, d), FileBelow, FileNames(d));
  }

  lemma {:induction false} SubsSorted(c: Codec, d: Folder, subs: seq<DirectoryNode>, names: seq<string>)
    requires Collected(subs, names, SubAt(c, d), SubNames(d), {})
    ensures SortBy(subs, SubBelow) == Message(c, d).directories
  {
    SortedIsCanonical(subs, names, SubAt(c, d), SubBelow, SubNames(d));
  }

  lemma {:induction false} LinksSorted(c: Codec, d: Folder, links: seq<SymlinkNode>, names: seq<string>)
    requires Collected(links, names, LinkAt(d), LinkNames(d), {})
    ensures SortBy(links, LinkBelow) == Message(c, d).symlinks
  {
    SortedIsCanonical(links, names, LinkAt(d), LinkBelow, LinkNames(d));
  }

  lemma {:induction false} StoredBelow(c: Codec, d: Folder, name: string, start: Blobs, before: Blobs, after: Blobs, todo: set<string>)
    requires IsSub(d, name) && Stored(c, d, start, before, todo)
    requires WellKeyed(c, after) && Covers(c, after, d.nodes[name].dir) && AddsOnly(c, d.nodes[name].dir, before, after)
    ensures Stored(c, d, start, after, todo - {name})
  {
    assert NodeCovered(c, after, d.nodes[name]);
    forall n | n in d.nodes.Keys - (todo - {name}) ensures NodeCovered(c, after, d.nodes[n]) {
      if n != name {
        assert NodeCovered(c, before, d.nodes[n]);
      }
    }
  }

  lemma {:induction false} StoredFile(c: Codec, d: Folder, name: string, start: Blobs, before: Blobs, todo: set<string>)
    requires IsFile(d, name) && Stored(c, d, start, before, todo)
    ensures Stored(c, d, start, InsertBlob(before, DigestOf(c, d.nodes[name].data), d.nodes[name].data), todo - {name})
  {
    var after := InsertBlob(before, DigestOf(c, d.nodes[name].data), d.nodes[name].data);
    assert NodeCovered(c, after, d.nodes[name]);
    assert Reaches(c, d, d.nodes[name].data);
    forall n | n in d.nodes.Keys - (todo - {name}) ensures NodeCovered(c, after, d.nodes[n]) {
      if n != name {
        assert NodeCovered(c, before, d.nodes[n]);
      }
    }
  }

  lemma {:induction false} AllCovered(c: Codec, d: Folder, start: Blobs, before: Blobs)
    requires Stored(c, d, start, before, {})
    ensures
      var after := InsertBlob(before, DigestOf(c, Encoded(c, d)), Encoded(c, d));
      WellKeyed(c, after) && Covers(c, after, d) && AddsOnly(c, d, start, after)
  {
    var after := InsertBlob(before, DigestOf(c, Encoded(c, d)), Encoded(c, d));
    forall data | Reaches(c, d, data) ensures c.hash(data) in after {
      if data != Encoded(c, d) {
        var n :| n in d.nodes &&
          match d.nodes[n]
          case File(bytes, _) => data == bytes
          case Sub(sub) => Reaches(c, sub, data)
          case Link(_) => false;
        assert NodeCovered(c, before, d.nodes[n]);
      }
    }
  }
}
