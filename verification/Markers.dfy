/** CapyFun's own files inside a mirrored tree: the `SRC` package marker, which
    an imported tree may not carry under that name, and the metadata a
    destination keeps across imports and sheds on export. */
module Markers {
  import opened Trees

  const SRC_FILE := "SRC"
  const RENAMED_SRC_FILE := "ORIG_SRC"
  const PATCHES_DIR := "patches"
  const RESERVED_DEST_ENTRIES := [SRC_FILE, PATCHES_DIR]

  /** An entry that is not a directory. */
  predicate IsFile(t: Tree, name: string) {
    name in t.entries && !t.entries[name].Dir?
  }

  /** Every file called `from` becomes a file called `into`, at any depth.  Of
      two entries that meet under one name, the one called `SRC` wins: a tree
      lists `ORIG_SRC` before `SRC`, and the later insertion stays. */
  function RenamedNames(t: Tree, from: string, into: string): set<string> {
    if IsFile(t, from) then t.entries.Keys - {from} + {into} else t.entries.Keys
  }

  /** The imported form of an upstream tree. */
  function Rename(t: Tree): Tree {
    Tree(map name | name in RenamedNames(t, SRC_FILE, RENAMED_SRC_FILE) ::
      if name == RENAMED_SRC_FILE && IsFile(t, SRC_FILE) then t.entries[SRC_FILE]
      else if t.entries[name].Dir? then Dir(Rename(t.entries[name].tree))
      else t.entries[name])
  }

  /** The way back, used on export. */
  function Restore(t: Tree): Tree {
    Tree(map name | name in RenamedNames(t, RENAMED_SRC_FILE, SRC_FILE) ::
      if name == SRC_FILE && SRC_FILE !in t.entries then t.entries[RENAMED_SRC_FILE]
      else if t.entries[name].Dir? then Dir(Restore(t.entries[name].tree))
      else t.entries[name])
  }

  /** The rebuilding loop over the entries of a tree, in any order that meets
      `ORIG_SRC` before `SRC`. */
  method RenameSrcMarkers(t: Tree) returns (r: Tree)
    ensures r == Rename(t)
    decreases t
  {
    var builder: map<string, Entry> := map[];
    var todo := t.entries.Keys;
    while todo != {}
      invariant todo <= t.entries.Keys
      invariant RENAMED_SRC_FILE in todo && RENAMED_SRC_FILE in t.entries && SRC_FILE in t.entries ==> SRC_FILE in todo
      invariant forall n :: n in builder <==>
                  || (n in t.entries && n !in todo && !(n == SRC_FILE && IsFile(t, SRC_FILE)))
                  || (n == RENAMED_SRC_FILE && IsFile(t, SRC_FILE) && SRC_FILE !in todo)
      invariant forall n <- builder :: n in Rename(t).entries
      invariant forall n <- builder :: n != RENAMED_SRC_FILE || !IsFile(t, SRC_FILE) || SRC_FILE !in todo ==>
                  builder[n] == Rename(t).entries[n]
    {
      var name :| name in todo && (name == SRC_FILE ==> RENAMED_SRC_FILE !in todo);
      todo := todo - {name};
      if t.entries[name].Dir? {
        var rewritten := RenameSrcMarkers(t.entries[name].tree);
        builder := builder[name := Dir(rewritten)];
      } else if name == SRC_FILE {
        builder := builder[RENAMED_SRC_FILE := t.entries[name]];
      } else {
        builder := builder[name := t.entries[name]];
      }
    }
    assert builder == Rename(t).entries;
    r := Tree(builder);
  }

  /** The rebuilding loop of the way back. */
  method RestoreSrcMarkers(t: Tree) returns (r: Tree)
    ensures r == Restore(t)
    decreases t
  {
    var builder: map<string, Entry> := map[];
    var todo := t.entries.Keys;
    while todo != {}
      invariant todo <= t.entries.Keys
      invariant RENAMED_SRC_FILE in todo && SRC_FILE in t.entries ==> SRC_FILE in todo
      invariant forall n :: n in builder <==>
                  || (n in t.entries && n !in todo && !(n == RENAMED_SRC_FILE && IsFile(t, RENAMED_SRC_FILE)))
                  || (n == SRC_FILE && IsFile(t, RENAMED_SRC_FILE) && RENAMED_SRC_FILE !in todo)
      invariant forall n <- builder :: n in Restore(t).entries
      invariant forall n <- builder :: n != SRC_FILE || SRC_FILE !in todo ==> builder[n] == Restore(t).entries[n]
    {
      var name :| name in todo && (name == SRC_FILE ==> RENAMED_SRC_FILE !in todo);
      todo := todo - {name};
      if t.entries[name].Dir? {
        var rewritten := RestoreSrcMarkers(t.entries[name].tree);
        builder := builder[name := Dir(rewritten)];
      } else if name == RENAMED_SRC_FILE {
        builder := builder[SRC_FILE := t.entries[name]];
      } else {
        builder := builder[name := t.entries[name]];
      }
    }
    assert builder == Restore(t).entries;
    r := Tree(builder);
  }

  /** No entry clashes with a renamed marker, at any depth. */
  predicate NoClash(t: Tree) {
    && !IsFile(t, RENAMED_SRC_FILE)
    && !(IsFile(t, SRC_FILE) && RENAMED_SRC_FILE in t.entries)
    && forall name <- t.entries :: t.entries[name].Dir? ==> NoClash(t.entries[name].tree)
  }

  /** Restoring undoes renaming exactly on the trees without a clash. */
  lemma {:induction false} RestoreUndoesRename(t: Tree)
    ensures Restore(Rename(t)) == t <==> NoClash(t)
    decreases t
  {
    var renamed := Rename(t);
    var back := Restore(renamed);
    forall name | name in t.entries && t.entries[name].Dir?
      ensures Restore(Rename(t.entries[name].tree)) == t.entries[name].tree <==> NoClash(t.entries[name].tree)
    {
      RestoreUndoesRename(t.entries[name].tree);
    }
    if NoClash(t) {
      assert back.entries == t.entries;
    } else if IsFile(t, RENAMED_SRC_FILE) {
      assert !IsFile(back, RENAMED_SRC_FILE);
    } else if IsFile(t, SRC_FILE) && RENAMED_SRC_FILE in t.entries {
      assert RENAMED_SRC_FILE !in back.entries;
    } else {
      var name :| name in t.entries && t.entries[name].Dir? && !NoClash(t.entries[name].tree);
      assert name in renamed.entries && renamed.entries[name] == Dir(Rename(t.entries[name].tree));
      assert name in back.entries ==> back.entries[name] == Dir(Restore(Rename(t.entries[name].tree)));
    }
  }

  // --- destination metadata ---

  /** `origin` with the reserved entries of `existing` laid over it. */
  function Overlay(origin: Tree, existing: Tree): Tree {
    var first := CarryOver(origin, existing, SRC_FILE);
    CarryOver(first, existing, PATCHES_DIR)
  }

  function CarryOver(origin: Tree, existing: Tree, name: string): Tree {
    if name in existing.entries then WithEntry(origin, name, existing.entries[name]) else origin
  }

  /** What an import places at `path`: the origin tree, with the metadata that
      a directory already there carries. */
  function KeepMetadata(base: Tree, path: seq<string>, origin: Tree): Tree {
    match SubtreeAt(base, path)
    case None => origin
    case Some(existing) => Overlay(origin, existing)
  }

  /** The loop over the reserved names. */
  method DestSubtreePreservingMetadata(base: Tree, path: seq<string>, origin: Tree) returns (r: Tree)
    ensures r == KeepMetadata(base, path, origin)
  {
    var at := SubtreeAt(base, path);
    if at.None? {
      return origin;
    }
    r := origin;
    for i := 0 to |RESERVED_DEST_ENTRIES|
      invariant i == 0 ==> r == origin
      invariant i == 1 ==> r == CarryOver(origin, at.value, SRC_FILE)
      invariant i == 2 ==> r == Overlay(origin, at.value)
    {
      var name := RESERVED_DEST_ENTRIES[i];
      if name in at.value.entries {
        r := WithEntry(r, name, at.value.entries[name]);
      }
    }
  }

  predicate IsReserved(name: string) {
    name in RESERVED_DEST_ENTRIES
  }

  /** An exported subtree as the destination sees it. */
  function StripForExport(t: Tree): Tree {
    Restore(Tree(t.entries - {SRC_FILE, PATCHES_DIR}))
  }

  /** Removal of the reserved names in a loop, then the way back. */
  method StripCapyfunMetadata(t: Tree) returns (r: Tree)
    ensures r == StripForExport(t)
  {
    var builder := t.entries;
    for i := 0 to |RESERVED_DEST_ENTRIES|
      invariant i == 0 ==> builder == t.entries
      invariant i == 1 ==> builder == t.entries - {SRC_FILE}
      invariant i == 2 ==> builder == t.entries - {SRC_FILE, PATCHES_DIR}
    {
      var name := RESERVED_DEST_ENTRIES[i];
      if name in builder {
        builder := builder - {name};
      }
    }
    r := RestoreSrcMarkers(Tree(builder));
  }

  /** Upstream trees that survive the trip through a destination. */
  predicate Exportable(t: Tree) {
    && NoClash(t)
    && PATCHES_DIR !in t.entries
    && !(SRC_FILE in t.entries && t.entries[SRC_FILE].Dir?)
  }

  /** An upstream tree after the trip through a destination. */
  function Returned(t: Tree): Tree {
    StripForExport(Rename(t))
  }

  /** Metadata laid over an import is shed on export without a trace. */
  lemma {:induction false} StripIgnoresOverlay(t: Tree, existing: Tree)
    ensures StripForExport(Overlay(t, existing)) == StripForExport(t)
  {
    assert Overlay(t, existing).entries - {SRC_FILE, PATCHES_DIR} == t.entries - {SRC_FILE, PATCHES_DIR};
  }

  /** Export strips exactly what import added: the upstream tree comes back,
      whatever metadata was laid over it, if and only if it is `Exportable`. */
  lemma {:induction false} StripUndoesImport(t: Tree, existing: Tree)
    ensures StripForExport(Overlay(Rename(t), existing)) == Returned(t)
    ensures Returned(t) == t <==> Exportable(t)
  {
    StripIgnoresOverlay(Rename(t), existing);
    var bare := Tree(Rename(t).entries - {SRC_FILE, PATCHES_DIR});
    RestoreUndoesRename(t);
    if PATCHES_DIR !in t.entries && !(SRC_FILE in t.entries && t.entries[SRC_FILE].Dir?) {
      assert bare.entries == Rename(t).entries;
    } else if PATCHES_DIR in t.entries {
      assert PATCHES_DIR !in Restore(bare).entries;
    } else {
      assert SRC_FILE in Restore(bare).entries ==> !Restore(bare).entries[SRC_FILE].Dir?;
    }
  }

  /** Whatever was imported, the way back leaves no clash. */
  lemma {:induction false} RestoredHasNoClash(t: Tree)
    ensures NoClash(Restore(Rename(t)))
    decreases t
  {
    var back := Restore(Rename(t));
    forall name | name in back.entries && back.entries[name].Dir?
      ensures NoClash(back.entries[name].tree)
    {
      assert name in t.entries && t.entries[name].Dir?;
      RestoredHasNoClash(t.entries[name].tree);
    }
  }

  /** So what comes back can make the trip again. */
  lemma {:induction false} ReturnedIsExportable(t: Tree)
    ensures Exportable(Returned(t))
  {
    var back := Returned(t);
    forall name | name in back.entries && back.entries[name].Dir?
      ensures NoClash(back.entries[name].tree)
    {
      assert name in t.entries && t.entries[name].Dir?;
      RestoredHasNoClash(t.entries[name].tree);
    }
  }

  /** The overlay decides reserved names only. */
  lemma {:induction false} OverlayEntries(origin: Tree, existing: Tree, name: string)
    ensures IsReserved(name) && name in existing.entries ==>
              && name in Overlay(origin, existing).entries
              && Overlay(origin, existing).entries[name] == existing.entries[name]
    ensures !(IsReserved(name) && name in existing.entries) ==>
              && (name in Overlay(origin, existing).entries <==> name in origin.entries)
              && (name in origin.entries ==> Overlay(origin, existing).entries[name] == origin.entries[name])
  {
  }
}
