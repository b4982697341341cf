/** Writing a Tree message to disk, and the round trip from a directory through
    its stored messages back to a directory. */
module MerkleDisk {
  import opened Wrappers
  import opened Names
  import opened Merkle
  import opened MerkleTrees

  // --- paths in a directory ---

  function NodeAt(d: Folder, path: seq<string>): Option<Node> {
    if path == [] then Some(Sub(d))
    else if path[0] !in d.nodes then None
    else if |path| == 1 then Some(d.nodes[path[0]])
    else if d.nodes[path[0]].Sub? then NodeAt(d.nodes[path[0]].dir, path[1..])
    else None
  }

  predicate IsFileAt(d: Folder, path: seq<string>) {
    NodeAt(d, path).Some? && NodeAt(d, path).value.File?
  }

  lemma {:induction false} NodeBelow(top: Folder, at: seq<string>, d: Folder, rel: seq<string>)
    requires NodeAt(top, at) == Some(Sub(d))
    ensures NodeAt(top, at + rel) == NodeAt(d, rel)
    decreases |at|
  {
    if at == [] {
      assert at + rel == rel;
    } else if |at| == 1 {
      assert (at + rel)[1..] == rel;
      assert rel == [] ==> at + rel == at;
    } else {
      assert (at + rel)[1..] == at[1..] + rel;
      NodeBelow(top.nodes[at[0]].dir, at[1..], d, rel);
    }
  }

  predicate Writable(d: Folder, path: seq<string>) {
    path != [] && (|path| == 1 || (IsSub(d, path[0]) && Writable(d.nodes[path[0]].dir, path[1..])))
  }

  /** A file written to a path whose directory exists. */
  function PutNode(d: Folder, path: seq<string>, node: Node): Folder
    requires Writable(d, path)
    decreases |path|
  {
    if |path| == 1 then Folder(d.nodes[path[0] := node])
    else Folder(d.nodes[path[0] := Sub(PutNode(d.nodes[path[0]].dir, path[1..], node))])
  }

  /** `d`, which lies at `at`, with only those of its files written that `done`
      names. */
  ghost function Filled(d: Folder, at: seq<string>, done: set<seq<string>>): Folder
    decreases d
  {
    Folder(map n | n in d.nodes && (d.nodes[n].File? ==> at + [n] in done) ::
      match d.nodes[n]
      case Sub(sub) => Sub(Filled(sub, at + [n], done))
      case _ => d.nodes[n])
  }

  /** Only names below the directory matter. */
  lemma {:induction false} FilledAgrees(d: Folder, at: seq<string>, a: set<seq<string>>, b: set<seq<string>>)
    requires forall p :: at < p ==> (p in a <==> p in b)
    ensures Filled(d, at, a) == Filled(d, at, b)
    decreases d
  {
    forall n | n in d.nodes && d.nodes[n].Sub? ensures Filled(d.nodes[n].dir, at + [n], a) == Filled(d.nodes[n].dir, at + [n], b) {
      forall p | at + [n] < p ensures p in a <==> p in b {
        assert at < p;
      }
      FilledAgrees(d.nodes[n].dir, at + [n], a, b);
    }
    assert forall n :: at < at + [n];
    assert Filled(d, at, a).nodes == Filled(d, at, b).nodes;
  }

  lemma {:induction false} OtherEntriesStay(d: Folder, at: seq<string>, rel: seq<string>, done: set<seq<string>>, n: string)
    requires n in d.nodes && rel != [] && n != rel[0]
    ensures d.nodes[n].Sub? ==> Filled(d.nodes[n].dir, at + [n], done + {at + rel}) == Filled(d.nodes[n].dir, at + [n], done)
    ensures at + [n] in done + {at + rel} <==> at + [n] in done
  {
    assert (at + [n])[|at|] == n && (at + rel)[|at|] == rel[0];
    if d.nodes[n].Sub? {
      forall p | at + [n] < p ensures p in done + {at + rel} <==> p in done {
        assert p[|at|] == n;
      }
      FilledAgrees(d.nodes[n].dir, at + [n], done + {at + rel}, done);
    }
  }

  /** Writing one of the directory's files. */
  lemma {:induction false} PutFills(d: Folder, at: seq<string>, rel: seq<string>, done: set<seq<string>>)
    requires IsFileAt(d, rel)
    ensures Writable(Filled(d, at, done), rel)
    ensures PutNode(Filled(d, at, done), rel, NodeAt(d, rel).value) == Filled(d, at, done + {at + rel})
    decreases |rel|
  {
    var before, after := Filled(d, at, done), Filled(d, at, done + {at + rel});
    var n := rel[0];
    assert at + rel == at + [n] + rel[1..];
    forall m | m in d.nodes && m != n
      ensures m in after.nodes <==> m in before.nodes
      ensures m in after.nodes ==> after.nodes[m] == before.nodes[m]
    {
      OtherEntriesStay(d, at, rel, done, m);
    }
    if |rel| == 1 {
      assert rel == [n];
      assert before.nodes[n := d.nodes[n]] == after.nodes;
    } else {
      PutFills(d.nodes[n].dir, at + [n], rel[1..], done);
      assert before.nodes[n := Sub(Filled(d.nodes[n].dir, at + [n], done + {at + rel}))] == after.nodes;
    }
  }

  /** With every file written the directory is complete. */
  lemma {:induction false} AllFilled(d: Folder, at: seq<string>, done: set<seq<string>>)
    requires forall rel :: IsFileAt(d, rel) ==> at + rel in done
    ensures Filled(d, at, done) == d
    decreases d
  {
    forall n | n in d.nodes ensures n in Filled(d, at, done).nodes && Filled(d, at, done).nodes[n] == d.nodes[n] {
      if d.nodes[n].File? {
        assert IsFileAt(d, [n]);
      } else if d.nodes[n].Sub? {
        forall rel | IsFileAt(d.nodes[n].dir, rel) ensures at + [n] + rel in done {
          assert ([n] + rel)[1..] == rel;
          assert IsFileAt(d, [n] + rel);
          assert at + ([n] + rel) == at + [n] + rel;
        }
        AllFilled(d.nodes[n].dir, at + [n], done);
      }
    }
    assert Filled(d, at, done).nodes == d.nodes;
  }

  // --- writing the structure ---

  datatype FileRecord = FileRecord(path: seq<string>, node: FileNode)

  /** Each record is of a file of `top`. */
  ghost predicate RecordsOf(c: Codec, top: Folder, files: seq<FileRecord>) {
    forall f <- files :: IsFileAt(top, f.path) && f.node.digest == DigestOf(c, NodeAt(top, f.path).value.data)
      && f.node.isExecutable == NodeAt(top, f.path).value.executable
  }

  ghost predicate HasRecord(files: seq<FileRecord>, path: seq<string>) {
    exists f :: f in files && f.path == path
  }

  /** Every file of `top` at or below `at` is recorded. */
  ghost predicate AllRecorded(top: Folder, at: seq<string>, files: seq<FileRecord>) {
    forall p :: at <= p && IsFileAt(top, p) ==> HasRecord(files, p)
  }

  /** Directories indexed by the hash of their serialization. */
  ghost predicate Indexed(c: Codec, dirs: map<string, Directory>) {
    forall h <- dirs :: c.hash(c.encode(dirs[h])) == h
  }

  ghost predicate AllIndexed(c: Codec, dirs: map<string, Directory>, d: Folder) {
    forall x :: IsBelow(x, d) ==> HashOf(c, x) in dirs
  }

  lemma {:induction false} FileListed(c: Codec, top: Folder, d: Folder, at: seq<string>, i: nat)
    requires NodeAt(top, at) == Some(Sub(d)) && i < |Message(c, d).files|
    ensures |Message(c, d).files| == |Sorted(FileNames(d))|
    ensures Message(c, d).files[i].name == Sorted(FileNames(d))[i]
    ensures RecordsOf(c, top, [FileRecord(at + [Sorted(FileNames(d))[i]], Message(c, d).files[i])])
  {
    var n := Sorted(FileNames(d))[i];
    assert n in FileNames(d);
    assert Message(c, d).files[i] == FileNodeAt(c, d, n);
    NodeBelow(top, at, d, [n]);
  }

  lemma {:induction false} RecordOne(c: Codec, top: Folder, files: seq<FileRecord>, f: FileRecord)
    requires RecordsOf(c, top, files) && RecordsOf(c, top, [f])
    ensures RecordsOf(c, top, files + [f]) && HasRecord(files + [f], f.path)
  {
    assert f in [f] && f in files + [f];
  }

  ghost predicate NamesRecorded(files: seq<FileRecord>, at: seq<string>, names: seq<string>) {
    forall j :: 0 <= j < |names| ==> HasRecord(files, at + [names[j]])
  }

  ghost predicate Pushed(c: Codec, top: Folder, before: seq<FileRecord>, files: seq<FileRecord>, at: seq<string>, names: seq<string>) {
    before <= files && RecordsOf(c, top, files) && NamesRecorded(files, at, names)
  }

  lemma {:induction false} PushOne(c: Codec, top: Folder, before: seq<FileRecord>, files: seq<FileRecord>, at: seq<string>, names: seq<string>, i: nat, f: FileNode)
    requires i < |names| && f.name == names[i]
    requires Pushed(c, top, before, files, at, names[..i]) && RecordsOf(c, top, [FileRecord(at + [f.name], f)])
    ensures Pushed(c, top, before, files + [FileRecord(at + [f.name], f)], at, names[..i + 1])
  {
    var record := FileRecord(at + [f.name], f);
    RecordOne(c, top, files, record);
    RecordsStay(files, files + [record], at, names[..i]);
    assert names[..i + 1] == names[..i] + [names[i]];
  }

  lemma {:induction false} AllPushed(files: seq<FileRecord>, at: seq<string>, names: seq<string>, all: set<string>)
    requires NamesRecorded(files, at, names) && forall n <- all :: n in names
    ensures forall n <- all :: HasRecord(files, at + [n])
  {
    forall n | n in all ensures HasRecord(files, at + [n]) {
      assert n in names;
    }
  }

  /** The files of one directory, appended to the records. */
  method PushFiles(c: Codec, ghost top: Folder, ghost d: Folder, at: seq<string>, dir: Directory, before: seq<FileRecord>)
      returns (files: seq<FileRecord>)
    requires NodeAt(top, at) == Some(Sub(d)) && dir == Message(c, d) && RecordsOf(c, top, before)
    ensures before <= files && RecordsOf(c, top, files)
    ensures forall n <- FileNames(d) :: HasRecord(files, at + [n])
  {
    files := before;
    ghost var names := Sorted(FileNames(d));
    for i := 0 to |dir.files|
      invariant i <= |names| && Pushed(c, top, before, files, at, names[..i])
    {
      FileListed(c, top, d, at, i);
      PushOne(c, top, before, files, at, names, i, dir.files[i]);
      files := files + [FileRecord(at + [dir.files[i].name], dir.files[i])];
    }
    assert names[..|names|] == names;
    AllPushed(files, at, names, FileNames(d));
  }

  lemma {:induction false} RecordsStay(less: seq<FileRecord>, files: seq<FileRecord>, at: seq<string>, names: seq<string>)
    requires less <= files && NamesRecorded(less, at, names)
    ensures NamesRecorded(files, at, names)
  {
    forall j | 0 <= j < |names| ensures HasRecord(files, at + [names[j]]) {
      var f :| f in less && f.path == at + [names[j]];
      assert f in files;
    }
  }

  lemma {:induction false} LinkListed(c: Codec, d: Folder, i: nat)
    requires i < |Message(c, d).symlinks|
    ensures |Message(c, d).symlinks| == |Sorted(LinkNames(d))|
    ensures IsLink(d, Sorted(LinkNames(d))[i])
    ensures Message(c, d).symlinks[i] == SymlinkNode(Sorted(LinkNames(d))[i], d.nodes[Sorted(LinkNames(d))[i]].target)
  {
    assert Sorted(LinkNames(d))[i] in LinkNames(d);
  }

  /** The links named so far. */
  ghost predicate Linked(d: Folder, nodes: map<string, Node>, names: seq<string>) {
    && (forall n :: n in nodes <==> n in names)
    && forall n <- nodes :: IsLink(d, n) && nodes[n] == d.nodes[n]
  }

  lemma {:induction false} LinkOne(d: Folder, nodes: map<string, Node>, names: seq<string>, i: nat)
    requires i < |names| && Linked(d, nodes, names[..i]) && IsLink(d, names[i])
    ensures Linked(d, nodes[names[i] := d.nodes[names[i]]], names[..i + 1])
  {
    assert names[..i + 1] == names[..i] + [names[i]];
  }

  /** The symlinks of one directory. */
  method WriteLinks(c: Codec, ghost d: Folder, dir: Directory) returns (nodes: map<string, Node>)
    requires dir == Message(c, d)
    ensures Linked(d, nodes, Sorted(LinkNames(d)))
  {
    nodes := map[];
    ghost var names := Sorted(LinkNames(d));
    for i := 0 to |dir.symlinks|
      invariant i <= |names| && Linked(d, nodes, names[..i])
    {
      var s := dir.symlinks[i];
      LinkListed(c, d, i);
      LinkOne(d, nodes, names, i);
      nodes := nodes[s.name := Link(s.target)];
    }
    assert names[..|names|] == names;
  }

  /** The directories written so far, each with its links and directories but
      no files yet. */
  ghost predicate Structured(d: Folder, at: seq<string>, nodes: map<string, Node>, names: seq<string>) {
    && nodes.Keys == LinkNames(d) + (set n | n in names)
    && forall n <- nodes :: n in d.nodes && !d.nodes[n].File? && nodes[n] ==
         match d.nodes[n]
         case Sub(sub) => Sub(Filled(sub, at + [n], {}))
         case _ => d.nodes[n]
  }

  lemma {:induction false} NothingWrittenYet(d: Folder, at: seq<string>, nodes: map<string, Node>)
    requires Linked(d, nodes, Sorted(LinkNames(d)))
    ensures Structured(d, at, nodes, [])
  {
  }

  lemma {:induction false} StructureDone(d: Folder, at: seq<string>, nodes: map<string, Node>, names: seq<string>)
    requires Structured(d, at, nodes, names) && forall n :: n in names <==> n in SubNames(d)
    ensures Folder(nodes) == Filled(d, at, {})
  {
    assert nodes == Filled(d, at, {}).nodes;
  }

  lemma {:induction false} RecordingDone(top: Folder, at: seq<string>, d: Folder, files: seq<FileRecord>)
    requires NodeAt(top, at) == Some(Sub(d))
    requires forall n <- FileNames(d) :: HasRecord(files, at + [n])
    requires forall n <- SubNames(d) :: AllRecorded(top, at + [n], files)
    ensures AllRecorded(top, at, files)
  {
    forall p | at <= p && IsFileAt(top, p) ensures HasRecord(files, p) {
      var rel := p[|at|..];
      assert p == at + rel;
      NodeBelow(top, at, d, rel);
      var n := rel[0];
      if |rel| == 1 {
        assert rel == [n];
      } else {
        assert at + [n] <= p;
      }
    }
  }

  lemma {:induction false} MoreRecorded(top: Folder, at: seq<string>, less: seq<FileRecord>, files: seq<FileRecord>)
    requires AllRecorded(top, at, less) && less <= files
    ensures AllRecorded(top, at, files)
  {
    forall p | at <= p && IsFileAt(top, p) ensures HasRecord(files, p) {
      assert HasRecord(less, p);
      var f :| f in less && f.path == p;
      assert f in files;
    }
  }

  lemma {:induction false} FilesStay(d: Folder, at: seq<string>, less: seq<FileRecord>, files: seq<FileRecord>)
    requires less <= files && forall n <- FileNames(d) :: HasRecord(less, at + [n])
    ensures forall n <- FileNames(d) :: HasRecord(files, at + [n])
  {
    forall n | n in FileNames(d) ensures HasRecord(files, at + [n]) {
      var f :| f in less && f.path == at + [n];
      assert f in files;
    }
  }

  ghost predicate SubsDone(c: Codec, top: Folder, d: Folder, at: seq<string>, dirs: map<string, Directory>,
                           files: seq<FileRecord>, names: seq<string>) {
    forall n <- names :: IsSub(d, n) && AllRecorded(top, at + [n], files)
      && HashOf(c, d.nodes[n].dir) in dirs && AllIndexed(c, dirs, d.nodes[n].dir)
  }

  lemma {:induction false} MoreSubsDone(c: Codec, top: Folder, d: Folder, at: seq<string>, dirs: map<string, Directory>,
                                        less: seq<FileRecord>, files: seq<FileRecord>, names: seq<string>, n: string)
    requires SubsDone(c, top, d, at, dirs, less, names) && less <= files
    requires IsSub(d, n) && AllRecorded(top, at + [n], files)
    requires HashOf(c, d.nodes[n].dir) in dirs && AllIndexed(c, dirs, d.nodes[n].dir)
    ensures SubsDone(c, top, d, at, dirs, files, names + [n])
  {
    forall m | m in names ensures AllRecorded(top, at + [m], files) {
      MoreRecorded(top, at + [m], less, files);
    }
  }

  lemma {:induction false} SubsDoneAll(c: Codec, top: Folder, d: Folder, at: seq<string>, dirs: map<string, Directory>,
                                       files: seq<FileRecord>, names: seq<string>)
    requires SubsDone(c, top, d, at, dirs, files, names) && forall n <- SubNames(d) :: n in names
    ensures AllIndexed(c, dirs, d)
  {
    forall x | IsBelow(x, d) ensures HashOf(c, x) in dirs {
      var n :| n in d.nodes && d.nodes[n].Sub? && (x == d.nodes[n].dir || IsBelow(x, d.nodes[n].dir));
      assert n in names;
    }
  }

  lemma {:induction false} UnindexedBelow(c: Codec, dirs: map<string, Directory>, x: Folder, d: Folder)
    requires IsBelow(x, d) && !AllIndexed(c, dirs, x)
    ensures !AllIndexed(c, dirs, d)
  {
    var y :| IsBelow(y, x) && HashOf(c, y) !in dirs;
    BelowIsTransitive(y, x, d);
  }

  lemma {:induction false} IndexedChild(c: Codec, dirs: map<string, Directory>, x: Folder)
    requires ValidCodec(c) && Indexed(c, dirs)
    ensures HashOf(c, x) in dirs ==> dirs[HashOf(c, x)] == Message(c, x)
  {
    if HashOf(c, x) in dirs {
      SameEncoding(c, dirs[HashOf(c, x)], Message(c, x));
    }
  }

  /** How far the walk over the directories in `d` has come. */
  ghost predicate Writing(c: Codec, top: Folder, d: Folder, at: seq<string>, dirs: map<string, Directory>,
                          before: seq<FileRecord>, files: seq<FileRecord>, nodes: map<string, Node>, names: seq<string>) {
    && before <= files && RecordsOf(c, top, files)
    && (forall n <- FileNames(d) :: HasRecord(files, at + [n]))
    && Structured(d, at, nodes, names)
    && SubsDone(c, top, d, at, dirs, files, names)
  }

  lemma {:induction false} WroteChild(c: Codec, top: Folder, d: Folder, at: seq<string>, dirs: map<string, Directory>, before: seq<FileRecord>,
                                      less: seq<FileRecord>, files: seq<FileRecord>, nodes: map<string, Node>, names: seq<string>, i: nat)
    requires i < |names| && Writing(c, top, d, at, dirs, before, less, nodes, names[..i])
    requires less <= files && RecordsOf(c, top, files) && IsSub(d, names[i]) && AllRecorded(top, at + [names[i]], files)
    requires HashOf(c, d.nodes[names[i]].dir) in dirs && AllIndexed(c, dirs, d.nodes[names[i]].dir)
    ensures Writing(c, top, d, at, dirs, before, files, nodes[names[i] := Sub(Filled(d.nodes[names[i]].dir, at + [names[i]], {}))], names[..i + 1])
  {
    FilesStay(d, at, less, files);
    MoreSubsDone(c, top, d, at, dirs, less, files, names[..i], names[i]);
    assert names[..i + 1] == names[..i] + [names[i]];
  }

  lemma {:induction false} WroteAll(c: Codec, top: Folder, d: Folder, at: seq<string>, dirs: map<string, Directory>,
                                    before: seq<FileRecord>, files: seq<FileRecord>, nodes: map<string, Node>)
    requires NodeAt(top, at) == Some(Sub(d))
    requires Writing(c, top, d, at, dirs, before, files, nodes, Sorted(SubNames(d)))
    ensures Folder(nodes) == Filled(d, at, {}) && AllRecorded(top, at, files) && AllIndexed(c, dirs, d)
  {
    StructureDone(d, at, nodes, Sorted(SubNames(d)));
    RecordingDone(top, at, d, files);
    SubsDoneAll(c, top, d, at, dirs, files, Sorted(SubNames(d)));
  }

  lemma {:induction false} ChildToWrite(c: Codec, top: Folder, d: Folder, at: seq<string>, dirs: map<string, Directory>, i: nat) returns (x: Folder)
    requires ValidCodec(c) && Indexed(c, dirs) && NodeAt(top, at) == Some(Sub(d)) && i < |Message(c, d).directories|
    ensures |Message(c, d).directories| == |Sorted(SubNames(d))| && Message(c, d).directories[i].name == Sorted(SubNames(d))[i]
    ensures IsSub(d, Sorted(SubNames(d))[i]) && x == d.nodes[Sorted(SubNames(d))[i]].dir && IsBelow(x, d) && x < d
    ensures Message(c, d).directories[i].digest.hash == HashOf(c, x)
    ensures HashOf(c, x) in dirs ==> dirs[HashOf(c, x)] == Message(c, x)
    ensures NodeAt(top, at + [Sorted(SubNames(d))[i]]) == Some(Sub(x))
  {
    SubListed(c, d, i);
    x := d.nodes[Sorted(SubNames(d))[i]].dir;
    BelowIsSmaller(x, d);
    IndexedChild(c, dirs, x);
    NodeBelow(top, at, d, [Sorted(SubNames(d))[i]]);
  }

  /** The directories in `d`, each written with all below it. */
  method WriteDirectories(c: Codec, ghost top: Folder, ghost d: Folder, at: seq<string>, dir: Directory,
                          dirs: map<string, Directory>, links: map<string, Node>, ghost before: seq<FileRecord>, start: seq<FileRecord>)
      returns (ok: bool, nodes: map<string, Node>, files: seq<FileRecord>)
    requires ValidCodec(c) && Indexed(c, dirs)
    requires NodeAt(top, at) == Some(Sub(d)) && dir == Message(c, d)
    requires Writing(c, top, d, at, dirs, before, start, links, [])
    ensures before <= files && RecordsOf(c, top, files)
    ensures ok ==> Writing(c, top, d, at, dirs, before, files, nodes, Sorted(SubNames(d)))
    ensures !ok ==> !AllIndexed(c, dirs, d)
    decreases d, 0
  {
    nodes, files := links, start;
    ghost var names := Sorted(SubNames(d));
    AllSubsListed(c, d);
    for i := 0 to |dir.directories|
      invariant Writing(c, top, d, at, dirs, before, files, nodes, names[..i])
    {
      var node := dir.directories[i];
      ghost var x := ChildToWrite(c, top, d, at, dirs, i);
      if node.digest.hash !in dirs {
        return false, nodes, files;
      }
      var below, more := WriteStructure(c, top, x, at + [node.name], dirs[node.digest.hash], dirs, files);
      if below.Err? {
        UnindexedBelow(c, dirs, x, d);
        return false, nodes, more;
      }
      WroteChild(c, top, d, at, dirs, before, files, more, nodes, names, i);
      nodes, files := nodes[node.name := Sub(below.value)], more;
    }
    assert names[..|dir.directories|] == names;
    ok := true;
  }

  /** Directories and links of `d`, written below `at`, with a record of every
      file to come; it fails exactly when the Tree lacks a directory. */
  method WriteStructure(c: Codec, ghost top: Folder, ghost d: Folder, at: seq<string>, dir: Directory,
                        dirs: map<string, Directory>, before: seq<FileRecord>)
      returns (written: Result<Folder>, files: seq<FileRecord>)
    requires ValidCodec(c) && Indexed(c, dirs) && RecordsOf(c, top, before)
    requires NodeAt(top, at) == Some(Sub(d)) && dir == Message(c, d)
    ensures before <= files && RecordsOf(c, top, files)
    ensures written.Ok? <==> AllIndexed(c, dirs, d)
    ensures written.Ok? ==> written.value == Filled(d, at, {}) && AllRecorded(top, at, files)
    decreases d, 1
  {
    files := PushFiles(c, top, d, at, dir, before);
    var links := WriteLinks(c, d, dir);
    NothingWrittenYet(d, at, links);
    var ok, nodes;
    ok, nodes, files := WriteDirectories(c, top, d, at, dir, dirs, links, before, files);
    if !ok {
      return Err(MissingDirectory), files;
    }
    WroteAll(c, top, d, at, dirs, before, files, nodes);
    written := Ok(Folder(nodes));
  }

  // --- fetching and writing the files ---

  /** The digests to fetch, each once, in the order first met. */
  method Wanted(files: seq<FileRecord>) returns (wanted: seq<Digest>)
    ensures forall f <- files :: exists w :: w in wanted && w.hash == f.node.digest.hash
    ensures forall w <- wanted :: exists f :: f in files && f.node.digest == w
    ensures forall i, j :: 0 <= i < j < |wanted| ==> wanted[i].hash != wanted[j].hash
  {
    wanted := [];
    var seen: set<string> := {};
    for i := 0 to |files|
      invariant seen == set w | w in wanted :: w.hash
      invariant forall j :: 0 <= j < i ==> files[j].node.digest.hash in seen
      invariant forall w <- wanted :: exists f :: f in files && f.node.digest == w
      invariant forall a, b :: 0 <= a < b < |wanted| ==> wanted[a].hash != wanted[b].hash
    {
      var digest := files[i].node.digest;
      if digest.hash !in seen {
        assert files[i] in files;
        seen, wanted := seen + {digest.hash}, wanted + [digest];
      }
    }
  }

  /** A batched read: what the store has of the digests asked for. */
  function BatchRead(cas: Blobs, digests: seq<Digest>): Blobs {
    map h | h in (set g | g in digests :: g.hash) && h in cas :: cas[h]
  }

  ghost predicate FilesIn(c: Codec, cas: Blobs, d: Folder) {
    forall p :: IsFileAt(d, p) ==> c.hash(NodeAt(d, p).value.data) in cas
  }

  function PathsOf(files: seq<FileRecord>): set<seq<string>> {
    set f | f in files :: f.path
  }

  /** The files written after `i` records. */
  ghost predicate Filling(d: Folder, files: seq<FileRecord>, i: nat, cas: Blobs, current: Folder) {
    && i <= |files| && current == Filled(d, [], PathsOf(files[..i]))
    && forall j :: 0 <= j < i ==> files[j].node.digest.hash in cas
  }

  lemma {:induction false} FillOne(c: Codec, d: Folder, files: seq<FileRecord>, i: nat, cas: Blobs, current: Folder)
    requires ValidCodec(c) && WellKeyed(c, cas) && RecordsOf(c, d, files)
    requires i < |files| && Filling(d, files, i, cas, current) && files[i].node.digest.hash in cas
    ensures Writable(current, files[i].path)
    ensures Filling(d, files, i + 1, cas, PutNode(current, files[i].path, File(cas[files[i].node.digest.hash], files[i].node.isExecutable)))
  {
    var f := files[i];
    assert f in files;
    PutFills(d, [], f.path, PathsOf(files[..i]));
    assert files[..i + 1] == files[..i] + [f];
    assert [] + f.path == f.path;
    assert PathsOf(files[..i + 1]) == PathsOf(files[..i]) + {f.path};
    assert cas[f.node.digest.hash] == NodeAt(d, f.path).value.data;
  }

  lemma {:induction false} FilledUp(c: Codec, d: Folder, files: seq<FileRecord>, cas: Blobs, current: Folder)
    requires RecordsOf(c, d, files) && AllRecorded(d, [], files) && Filling(d, files, |files|, cas, current)
    ensures current == d && FilesIn(c, cas, d)
  {
    assert files[..|files|] == files;
    forall rel | IsFileAt(d, rel) ensures [] + rel in PathsOf(files) && c.hash(NodeAt(d, rel).value.data) in cas {
      assert [] <= rel && HasRecord(files, rel);
      assert [] + rel == rel;
    }
    AllFilled(d, [], PathsOf(files));
  }

  /** The content of every recorded file; it fails exactly when the store lacks
      the content of one. */
  method WriteFiles(c: Codec, ghost d: Folder, structure: Folder, files: seq<FileRecord>, cas: Blobs) returns (disk: Result<Folder>)
    requires ValidCodec(c) && WellKeyed(c, cas)
    requires structure == Filled(d, [], {}) && RecordsOf(c, d, files) && AllRecorded(d, [], files)
    ensures disk.Ok? <==> FilesIn(c, cas, d)
    ensures disk.Ok? ==> disk.value == d
  {
    var wanted := Wanted(files);
    var byHash := BatchRead(cas, wanted);
    var current := structure;
    assert PathsOf(files[..0]) == {};
    for i := 0 to |files|
      invariant Filling(d, files, i, cas, current)
    {
      var f := files[i];
      assert f in files;
      if f.node.digest.hash !in byHash {
        assert IsFileAt(d, f.path);
        return Err(MissingBlob);
      }
      FillOne(c, d, files, i, cas, current);
      current := PutNode(current, f.path, File(byHash[f.node.digest.hash], f.node.isExecutable));
    }
    FilledUp(c, d, files, cas, current);
    disk := Ok(current);
  }

  /** Child directories by the hash of their serialization. */
  method IndexChildren(c: Codec, children: seq<Directory>) returns (dirs: map<string, Directory>)
    ensures Indexed(c, dirs)
    ensures forall h :: h in dirs <==> exists m :: m in children && c.hash(c.encode(m)) == h
  {
    dirs := map[];
    for i := 0 to |children|
      invariant Indexed(c, dirs)
      invariant forall h :: h in dirs <==> exists j :: 0 <= j < i && c.hash(c.encode(children[j])) == h
    {
      dirs := dirs[c.hash(c.encode(children[i])) := children[i]];
    }
  }

  /** What a Tree message is written out as: the directory it packages, or an
      error exactly when a directory or the content of a file is missing. */
  method MaterializeTree(c: Codec, ghost d: Folder, tree: TreeMessage, cas: Blobs) returns (disk: Result<Folder>)
    requires ValidCodec(c) && WellKeyed(c, cas) && tree.root == Message(c, d)
    ensures disk.Ok? ==> disk.value == d
    ensures disk.Ok? <==> FilesIn(c, cas, d) && AllAmong(c, tree.children, d)
  {
    var dirs := IndexChildren(c, tree.children);
    IndexedExactly(c, dirs, tree.children, d);
    var structure, files := WriteStructure(c, d, d, [], tree.root, dirs, []);
    if structure.Err? {
      return structure;
    }
    disk := WriteFiles(c, d, structure.value, files, cas);
  }

  lemma {:induction false} IndexedOne(c: Codec, dirs: map<string, Directory>, children: seq<Directory>, x: Folder)
    requires ValidCodec(c)
    requires forall h :: h in dirs <==> exists m :: m in children && c.hash(c.encode(m)) == h
    ensures HashOf(c, x) in dirs <==> Message(c, x) in children
  {
    assert c.hash(c.encode(Message(c, x))) == HashOf(c, x);
    if HashOf(c, x) in dirs {
      var m :| m in children && c.hash(c.encode(m)) == HashOf(c, x);
      SameEncoding(c, m, Message(c, x));
    }
  }

  ghost predicate AllAmong(c: Codec, children: seq<Directory>, d: Folder) {
    forall x :: IsBelow(x, d) ==> Message(c, x) in children
  }

  lemma {:induction false} IndexedExactly(c: Codec, dirs: map<string, Directory>, children: seq<Directory>, d: Folder)
    requires ValidCodec(c)
    requires forall h :: h in dirs <==> exists m :: m in children && c.hash(c.encode(m)) == h
    ensures AllIndexed(c, dirs, d) <==> AllAmong(c, children, d)
  {
    if AllIndexed(c, dirs, d) {
      forall x | IsBelow(x, d) ensures Message(c, x) in children {
        IndexedOne(c, dirs, children, x);
      }
    } else {
      var x :| IsBelow(x, d) && HashOf(c, x) !in dirs;
      IndexedOne(c, dirs, children, x);
    }
  }

  // --- the round trip ---

  lemma {:induction false} BelowIsReached(c: Codec, x: Folder, d: Folder)
    requires IsBelow(x, d)
    ensures Reaches(c, d, Encoded(c, x))
    decreases d
  {
    var n :| n in d.nodes && d.nodes[n].Sub? && (x == d.nodes[n].dir || IsBelow(x, d.nodes[n].dir));
    if x != d.nodes[n].dir {
      BelowIsReached(c, x, d.nodes[n].dir);
    }
    assert Reaches(c, d.nodes[n].dir, Encoded(c, x));
  }

  lemma {:induction false} FileIsReached(c: Codec, d: Folder, path: seq<string>)
    requires IsFileAt(d, path)
    ensures Reaches(c, d, NodeAt(d, path).value.data)
    decreases d
  {
    var node := d.nodes[path[0]];
    if node.Sub? {
      FileIsReached(c, node.dir, path[1..]);
      assert Reaches(c, node.dir, NodeAt(d, path).value.data);
    }
  }

  lemma {:induction false} CoveredIsComplete(c: Codec, blobs: Blobs, d: Folder)
    requires Covers(c, blobs, d)
    ensures HashOf(c, d) in blobs && Present(c, blobs, d) && FilesIn(c, blobs, d)
  {
    assert Reaches(c, d, Encoded(c, d));
    forall x | IsBelow(x, d) ensures HashOf(c, x) in blobs {
      BelowIsReached(c, x, d);
    }
    forall p | IsFileAt(d, p) ensures c.hash(NodeAt(d, p).value.data) in blobs {
      FileIsReached(c, d, p);
    }
  }

  /** Building, packaging and writing out gives the directory back, with every
      file's content, every executable bit, every link and every empty
      directory. */
  method RoundTrip(c: Codec, d: Folder) returns (back: Result<Folder>)
    requires ValidCodec(c)
    ensures back == Ok(d)
  {
    var root, blobs := BuildDir(c, d, map[]);
    CoveredIsComplete(c, blobs, d);
    var tree := TreeFromBlobs(c, d, root, blobs);
    back := MaterializeTree(c, d, tree.value, blobs);
  }
}
