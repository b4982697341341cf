/** What the marker renaming, the metadata overlay and the export strip do, file
    by file. */
module MarkerLaws {
  import opened Wrappers
  import opened Trees
  import opened Markers
  import opened TransformLaws

  /** The names on the way to the last one. */
  function Above(path: seq<string>): seq<string>
    requires path != []
  {
    path[..|path| - 1]
  }

  function LastName(path: seq<string>): string
    requires path != []
  {
    path[|path| - 1]
  }

  lemma {:induction false} FileBelow(t: Tree, path: seq<string>)
    requires |path| > 1
    ensures FileAt(t, path) == if path[0] in t.entries && t.entries[path[0]].Dir? then FileAt(t.entries[path[0]].tree, path[1..]) else None
  {
  }

  lemma AboveBelow(path: seq<string>, name: string)
    requires |path| > 1
    ensures (Above(path) + [name])[0] == path[0] && (Above(path) + [name])[1..] == Above(path[1..]) + [name]
    ensures LastName(path[1..]) == LastName(path)
  {
  }

  lemma {:induction false} SiblingBelow(t: Tree, path: seq<string>, name: string)
    requires |path| > 1
    ensures FileAt(t, Above(path) + [name]) ==
            if path[0] in t.entries && t.entries[path[0]].Dir? then FileAt(t.entries[path[0]].tree, Above(path[1..]) + [name]) else None
  {
    AboveBelow(path, name);
    FileBelow(t, Above(path) + [name]);
  }

  // --- renaming ---

  /** The path leads through a directory `ORIG_SRC` that stands beside a file
      `SRC`. */
  predicate Displaced(t: Tree, path: seq<string>) {
    exists k :: 0 <= k < |path| - 1 && path[k] == "ORIG_SRC" && FileAt(t, path[..k] + ["SRC"]).Some?
  }

  /** The file at a path of the renamed tree: none called `SRC`; under
      `ORIG_SRC` the file that was called `SRC`, if there was one, in place of
      whatever had that name; every other file as it was. */
  function RenamedFile(t: Tree, path: seq<string>): Option<Entry> {
    if path == [] || Displaced(t, path) || LastName(path) == "SRC" then None
    else if LastName(path) == "ORIG_SRC" && FileAt(t, Above(path) + ["SRC"]).Some? then FileAt(t, Above(path) + ["SRC"])
    else FileAt(t, path)
  }

  lemma {:induction false} FirstIsNotDisplaced(t: Tree, path: seq<string>, k: nat)
    requires k < |path| && path[k] == "ORIG_SRC" && FileAt(t, path[..k] + ["SRC"]).Some?
    ensures k == 0 ==> path[0] == "ORIG_SRC" && FileAt(t, ["SRC"]).Some?
  {
    if k == 0 {
      assert path[..k] + ["SRC"] == ["SRC"];
    }
  }

  lemma {:induction false} DisplacedBelow(t: Tree, path: seq<string>)
    requires |path| > 1 && path[0] in t.entries && t.entries[path[0]].Dir?
    requires !(path[0] == "ORIG_SRC" && FileAt(t, ["SRC"]).Some?)
    ensures Displaced(t, path) <==> Displaced(t.entries[path[0]].tree, path[1..])
  {
    var sub, rest := t.entries[path[0]].tree, path[1..];
    if Displaced(t, path) {
      var k :| 0 <= k < |path| - 1 && path[k] == "ORIG_SRC" && FileAt(t, path[..k] + ["SRC"]).Some?;
      FirstIsNotDisplaced(t, path, k);
      assert rest[k - 1] == "ORIG_SRC";
      SiblingAt(t, path, k);
    }
    if Displaced(sub, rest) {
      var k :| 0 <= k < |rest| - 1 && rest[k] == "ORIG_SRC" && FileAt(sub, rest[..k] + ["SRC"]).Some?;
      assert path[k + 1] == "ORIG_SRC";
      SiblingAt(t, path, k + 1);
    }
  }

  lemma {:induction false} SiblingAt(t: Tree, path: seq<string>, k: nat)
    requires 0 < k < |path| && path[0] in t.entries && t.entries[path[0]].Dir?
    ensures FileAt(t, path[..k] + ["SRC"]) == FileAt(t.entries[path[0]].tree, path[1..][..k - 1] + ["SRC"])
  {
    var p := path[..k] + ["SRC"];
    assert p[1..] == path[1..][..k - 1] + ["SRC"];
    FileBelow(t, p);
  }

  /** The renaming, file by file, at every depth. */
  lemma {:induction false} RenamedFiles(t: Tree, path: seq<string>)
    ensures FileAt(Rename(t), path) == RenamedFile(t, path)
    decreases |path|
  {
    if |path| == 1 {
      assert Above(path) + ["SRC"] == ["SRC"] && path == [path[0]];
      assert path[1..] == [];
    } else if |path| > 1 {
      FileBelow(Rename(t), path);
      FileBelow(t, path);
      SiblingBelow(t, path, "SRC");
      assert LastName(path[1..]) == LastName(path);
      assert path[..0] + ["SRC"] == ["SRC"];
      if path[0] == "ORIG_SRC" && FileAt(t, ["SRC"]).Some? {
        assert Displaced(t, path);
      } else if path[0] in t.entries && t.entries[path[0]].Dir? {
        DisplacedBelow(t, path);
        RenamedFiles(t.entries[path[0]].tree, path[1..]);
      }
    }
  }

  // --- the way back ---

  /** The file at a path of the restored tree: none called `ORIG_SRC`; under
      `SRC` what had that name, or else the file that was called `ORIG_SRC`;
      every other file as it was. */
  function RestoredFile(t: Tree, path: seq<string>): Option<Entry> {
    if path == [] || LastName(path) == "ORIG_SRC" then None
    else if LastName(path) == "SRC" && EntryAt(t, path).None? then FileAt(t, Above(path) + ["ORIG_SRC"])
    else FileAt(t, path)
  }

  lemma {:induction false} RestoredFiles(t: Tree, path: seq<string>)
    ensures FileAt(Restore(t), path) == RestoredFile(t, path)
    decreases |path|
  {
    if |path| == 1 {
      assert Above(path) + ["ORIG_SRC"] == ["ORIG_SRC"] && path == [path[0]];
      assert path[1..] == [];
    } else if |path| > 1 {
      FileBelow(Restore(t), path);
      FileBelow(t, path);
      SiblingBelow(t, path, "ORIG_SRC");
      assert LastName(path[1..]) == LastName(path);
      if path[0] in t.entries && t.entries[path[0]].Dir? {
        RestoredFiles(t.entries[path[0]].tree, path[1..]);
      }
    }
  }

  /** The file an export ships at a path: nothing of the root entries `SRC` and
      `patches`, and the way back for the rest. */
  function ShippedFile(t: Tree, path: seq<string>): Option<Entry> {
    if path != [] && (path[0] == "patches" || (path[0] == "SRC" && |path| > 1)) then None
    else if path == ["SRC"] then FileAt(t, ["ORIG_SRC"])
    else RestoredFile(t, path)
  }

  lemma {:induction false} BareEntry(t: Tree, path: seq<string>)
    requires path != []
    ensures EntryAt(Tree(t.entries - {"SRC", "patches"}), path) == if path[0] == "SRC" || path[0] == "patches" then None else EntryAt(t, path)
  {
  }

  /** The export strip, file by file. */
  lemma {:induction false} ShippedFiles(t: Tree, path: seq<string>)
    ensures FileAt(StripForExport(t), path) == ShippedFile(t, path)
  {
    var bare := Tree(t.entries - {"SRC", "patches"});
    RestoredFiles(bare, path);
    if path != [] {
      BareEntry(t, path);
      BareEntry(t, Above(path) + ["ORIG_SRC"]);
      assert |path| == 1 ==> Above(path) + ["ORIG_SRC"] == ["ORIG_SRC"] && path == [path[0]];
    }
  }

  // --- directories ---

  /** No directory becomes empty on either way, so the files tell everything. */
  lemma {:induction false} RenamedStaysFull(t: Tree)
    requires NoEmptyDirs(t)
    ensures NoEmptyDirs(Rename(t))
    ensures t.entries != map[] ==> Rename(t).entries != map[]
    decreases t
  {
    forall n | n in Rename(t).entries && Rename(t).entries[n].Dir? ensures Full(Rename(t).entries[n]) {
      RenamedStaysFull(t.entries[n].tree);
    }
    if t.entries != map[] {
      var n :| n in t.entries;
      assert (if n == SRC_FILE && IsFile(t, n) then RENAMED_SRC_FILE else n) in Rename(t).entries;
    }
  }

  lemma {:induction false} RestoredStaysFull(t: Tree)
    requires NoEmptyDirs(t)
    ensures NoEmptyDirs(Restore(t))
    ensures t.entries != map[] ==> Restore(t).entries != map[]
    decreases t
  {
    forall n | n in Restore(t).entries && Restore(t).entries[n].Dir? ensures Full(Restore(t).entries[n]) {
      RestoredStaysFull(t.entries[n].tree);
    }
    if t.entries != map[] {
      var n :| n in t.entries;
      assert (if n == RENAMED_SRC_FILE && IsFile(t, n) then SRC_FILE else n) in Restore(t).entries;
    }
  }

  lemma {:induction false} ShippedStaysFull(t: Tree)
    requires NoEmptyDirs(t)
    ensures NoEmptyDirs(StripForExport(t))
  {
    RestoredStaysFull(Tree(t.entries - {SRC_FILE, PATCHES_DIR}));
  }
}
