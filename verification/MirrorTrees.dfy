/** The tree a mirror run leaves behind, in closed form. */
module MirrorTrees {
  import opened Wrappers
  import opened Trees
  import opened Paths
  import opened Markers
  import opened Worlds
  import opened Transforms
  import opened Mirror

  /** What `name` is in the first of the trees that has it. */
  function FirstWith(trees: seq<Tree>, name: string): Option<Entry> {
    if trees == [] then None
    else if name in trees[0].entries then Some(trees[0].entries[name])
    else FirstWith(trees[1..], name)
  }

  lemma {:induction false} FirstWithAppend(trees: seq<Tree>, last: Tree, name: string)
    ensures FirstWith(trees + [last], name) ==
            if FirstWith(trees, name).Some? then FirstWith(trees, name)
            else if name in last.entries then Some(last.entries[name]) else None
  {
    if trees == [] {
      assert trees + [last] == [last];
    } else {
      assert (trees + [last])[1..] == trees[1..] + [last];
      FirstWithAppend(trees[1..], last, name);
    }
  }

  /** The reshaped trees of a run of origins. */
  function ReshapedTrees(w: World, origins: seq<Commit>, transforms: seq<Transform>): (trees: seq<Tree>)
    requires forall c <- origins :: Reshaped(w, c.tree, transforms).Ok?
    ensures |trees| == |origins|
    ensures forall i :: 0 <= i < |origins| ==> Ok(trees[i]) == Reshaped(w, origins[i].tree, transforms)
  {
    if origins == [] then []
    else ReshapedTrees(w, origins[..|origins| - 1], transforms) + [Reshaped(w, origins[|origins| - 1].tree, transforms).value]
  }

  function Existing(base: Tree, dest: string): Tree {
    var sub := SubtreeAt(base, Segments(dest));
    if sub.Some? then sub.value else EMPTY_TREE
  }

  /** The destination after a run: the last tree, except that each reserved name
      stays what it was where it first appeared, starting from the base. */
  function Settled(existing: Tree, trees: seq<Tree>): Tree
    requires trees != []
  {
    var last := trees[|trees| - 1];
    var src, patches := FirstWith([existing] + trees, SRC_FILE), FirstWith([existing] + trees, PATCHES_DIR);
    Pinned(Pinned(last, SRC_FILE, src), PATCHES_DIR, patches)
  }

  function Pinned(t: Tree, name: string, entry: Option<Entry>): Tree {
    if entry.Some? then WithEntry(t, name, entry.value) else t
  }

  lemma {:induction false} OverlayOnNothing(t: Tree)
    ensures Overlay(t, EMPTY_TREE) == t
  {
  }

  lemma {:induction false} PlacedIsOverlay(base: Tree, dest: string, subtree: Tree)
    requires IsRelPath(dest)
    ensures Placed(base, dest, subtree) == Splice(base, Segments(dest), Overlay(subtree, Existing(base, dest)))
  {
    OverlayOnNothing(subtree);
  }

  /** Overlaying the settled destination gives the next settled destination. */
  lemma {:induction false} SettledGrows(existing: Tree, trees: seq<Tree>, last: Tree)
    ensures Overlay(last, if trees == [] then existing else Settled(existing, trees)) == Settled(existing, trees + [last])
  {
    var all := [existing] + trees;
    assert [existing] + (trees + [last]) == all + [last];
    FirstWithAppend(all, last, SRC_FILE);
    FirstWithAppend(all, last, PATCHES_DIR);
    if trees == [] {
      SettledOfNone(existing, last);
    } else {
      SettledReserved(existing, trees, SRC_FILE);
      SettledReserved(existing, trees, PATCHES_DIR);
      SettledByFirsts(existing, trees, last);
    }
  }

  lemma {:induction false} SettledOfNone(existing: Tree, last: Tree)
    ensures Overlay(last, existing) == Settled(existing, [] + [last])
  {
    assert [] + [last] == [last];
    assert [existing] + [last] == [existing, last];
    assert [existing, last][1..] == [last] && [last][1..] == [];
    assert FirstWith([last], SRC_FILE) == if SRC_FILE in last.entries then Some(last.entries[SRC_FILE]) else None;
    assert FirstWith([last], PATCHES_DIR) == if PATCHES_DIR in last.entries then Some(last.entries[PATCHES_DIR]) else None;
    assert Overlay(last, existing).entries == Settled(existing, [last]).entries;
  }

  /** A reserved name of the settled destination is where it first appeared. */
  lemma {:induction false} SettledReserved(existing: Tree, trees: seq<Tree>, name: string)
    requires trees != [] && IsReserved(name)
    ensures FirstWith([existing] + trees, name).Some? ==>
              && name in Settled(existing, trees).entries
              && FirstWith([existing] + trees, name) == Some(Settled(existing, trees).entries[name])
    ensures FirstWith([existing] + trees, name).None? ==> name !in Settled(existing, trees).entries
  {
    var init := trees[..|trees| - 1];
    assert [existing] + trees == ([existing] + init) + [trees[|trees| - 1]];
    FirstWithAppend([existing] + init, trees[|trees| - 1], name);
  }

  lemma {:induction false} SettledByFirsts(existing: Tree, trees: seq<Tree>, last: Tree)
    requires trees != []
    requires forall name :: IsReserved(name) ==>
      FirstWith([existing] + (trees + [last]), name) ==
        if FirstWith([existing] + trees, name).Some? then FirstWith([existing] + trees, name)
        else if name in last.entries then Some(last.entries[name]) else None
    requires forall name :: IsReserved(name) ==>
      FirstWith([existing] + trees, name) ==
        if name in Settled(existing, trees).entries then Some(Settled(existing, trees).entries[name]) else None
    ensures Overlay(last, Settled(existing, trees)) == Settled(existing, trees + [last])
  {
    assert (trees + [last])[|trees|] == last;
    assert IsReserved(SRC_FILE) && IsReserved(PATCHES_DIR);
    assert Overlay(last, Settled(existing, trees)).entries == Settled(existing, trees + [last]).entries;
  }

  lemma {:induction false} LastReshapes(w: World, dest: string, origins: seq<Commit>, base: Option<Commit>, transforms: seq<Transform>)
    requires IsRelPath(dest) && origins != [] && ReplayAll(w, dest, origins, base, transforms).Ok?
    ensures ReplayAll(w, dest, origins[..|origins| - 1], base, transforms).Ok?
    ensures Reshaped(w, origins[|origins| - 1].tree, transforms).Ok?
  {
  }

  lemma {:induction false} AllReshape(w: World, init: seq<Commit>, last: Commit, transforms: seq<Transform>)
    requires (forall c <- init :: Reshaped(w, c.tree, transforms).Ok?) && Reshaped(w, last.tree, transforms).Ok?
    ensures forall c <- init + [last] :: Reshaped(w, c.tree, transforms).Ok?
  {
  }

  lemma {:induction false} RunReshapes(w: World, dest: string, origins: seq<Commit>, base: Option<Commit>, transforms: seq<Transform>)
    requires IsRelPath(dest) && ReplayAll(w, dest, origins, base, transforms).Ok?
    ensures forall c <- origins :: Reshaped(w, c.tree, transforms).Ok?
    decreases |origins|
  {
    if origins != [] {
      var init := origins[..|origins| - 1];
      RunReshapes(w, dest, init, base, transforms);
      LastReshapes(w, dest, origins, base, transforms);
      AllReshape(w, init, origins[|origins| - 1], transforms);
      assert origins == init + [origins[|origins| - 1]];
    }
  }

  /** The tree after a run is one splice into the base: nothing else changes,
      and only the last origin and the first sightings of reserved names count. */
  lemma {:induction false} ClosedForm(w: World, dest: string, origins: seq<Commit>, base: Option<Commit>, transforms: seq<Transform>)
    requires IsRelPath(dest) && origins != []
    requires ReplayAll(w, dest, origins, base, transforms).Ok?
    ensures forall c <- origins :: Reshaped(w, c.tree, transforms).Ok?
    ensures
      var head := ReplayAll(w, dest, origins, base, transforms).value;
      var settled := Settled(Existing(TreeOf(base), dest), ReshapedTrees(w, origins, transforms));
      && TreeOf(head) == Splice(TreeOf(base), Segments(dest), settled)
      && Existing(TreeOf(head), dest) == settled
    decreases |origins|
  {
    RunReshapes(w, dest, origins, base, transforms);
    var n := |origins| - 1;
    var init := origins[..n];
    var existing := Existing(TreeOf(base), dest);
    var trees := ReshapedTrees(w, init, transforms);
    var last := Reshaped(w, origins[n].tree, transforms).value;
    var below := ReplayAll(w, dest, init, base, transforms).value;
    if n > 0 {
      ClosedForm(w, dest, init, base, transforms);
    }
    PlacedIsOverlay(TreeOf(below), dest, last);
    SettledGrows(existing, trees, last);
    var settled := Settled(existing, trees + [last]);
    ResplicedTree(TreeOf(base), TreeOf(below), dest, settled, Existing(TreeOf(below), dest), n);
  }

  lemma {:induction false} ResplicedTree(base: Tree, below: Tree, dest: string, settled: Tree, before: Tree, n: nat)
    requires IsRelPath(dest)
    requires if n == 0 then below == base else below == Splice(base, Segments(dest), before)
    ensures Splice(below, Segments(dest), settled) == Splice(base, Segments(dest), settled)
    ensures Existing(Splice(below, Segments(dest), settled), dest) == settled
  {
    SpliceOverwrites(base, Segments(dest), before, settled);
    SpliceThenRead(base, Segments(dest), settled, []);
  }

  /** Every path apart from the destination reads as before the run. */
  lemma {:induction false} RunLeavesTheRestAlone(w: World, dest: string, origins: seq<Commit>, base: Option<Commit>, transforms: seq<Transform>, elsewhere: seq<string>)
    requires IsRelPath(dest) && Incomparable(Segments(dest), elsewhere)
    requires ReplayAll(w, dest, origins, base, transforms).Ok?
    ensures EntryAt(TreeOf(ReplayAll(w, dest, origins, base, transforms).value), elsewhere) == EntryAt(TreeOf(base), elsewhere)
  {
    if origins != [] {
      ClosedForm(w, dest, origins, base, transforms);
      SpliceFrame(TreeOf(base), Segments(dest), Settled(Existing(TreeOf(base), dest), ReshapedTrees(w, origins, transforms)), elsewhere);
    }
  }

  /** When placing the last tree directly gives the tree of the whole run: for
      each reserved name, the first sighting must be what the base holds or, if
      the base has none, what the last tree holds. */
  predicate SightingsAgree(existing: Tree, trees: seq<Tree>, name: string)
    requires trees != []
  {
    var last := trees[|trees| - 1];
    || name in existing.entries
    || FirstWith(trees, name) == if name in last.entries then Some(last.entries[name]) else None
  }

  /** A run equals its last step alone exactly under that condition. */
  lemma {:induction false} RunEqualsLastStep(w: World, dest: string, origins: seq<Commit>, base: Option<Commit>, transforms: seq<Transform>)
    requires IsRelPath(dest) && origins != []
    requires ReplayAll(w, dest, origins, base, transforms).Ok?
    ensures forall c <- origins :: Reshaped(w, c.tree, transforms).Ok?
    ensures
      var trees := ReshapedTrees(w, origins, transforms);
      var existing := Existing(TreeOf(base), dest);
      TreeOf(ReplayAll(w, dest, origins, base, transforms).value) == Placed(TreeOf(base), dest, trees[|trees| - 1])
      <==> SightingsAgree(existing, trees, SRC_FILE) && SightingsAgree(existing, trees, PATCHES_DIR)
  {
    ClosedForm(w, dest, origins, base, transforms);
    var trees := ReshapedTrees(w, origins, transforms);
    var existing := Existing(TreeOf(base), dest);
    var last := trees[|trees| - 1];
    PlacedIsOverlay(TreeOf(base), dest, last);
    SettledIsOverlay(existing, trees);
    SpliceIsInjective(TreeOf(base), Segments(dest), Settled(existing, trees), Overlay(last, existing));
  }

  lemma {:induction false} SpliceIsInjective(base: Tree, path: seq<string>, a: Tree, b: Tree)
    requires path != []
    ensures Splice(base, path, a) == Splice(base, path, b) <==> a == b
  {
    SpliceThenRead(base, path, a, []);
    SpliceThenRead(base, path, b, []);
  }

  lemma {:induction false} SettledIsOverlay(existing: Tree, trees: seq<Tree>)
    requires trees != []
    ensures Settled(existing, trees) == Overlay(trees[|trees| - 1], existing)
      <==> SightingsAgree(existing, trees, SRC_FILE) && SightingsAgree(existing, trees, PATCHES_DIR)
  {
    var last := trees[|trees| - 1];
    assert ([existing] + trees)[1..] == trees;
    SettledReserved(existing, trees, SRC_FILE);
    SettledReserved(existing, trees, PATCHES_DIR);
    OverlayEntries(last, existing, SRC_FILE);
    OverlayEntries(last, existing, PATCHES_DIR);
    if SightingsAgree(existing, trees, SRC_FILE) && SightingsAgree(existing, trees, PATCHES_DIR) {
      assert Settled(existing, trees).entries == Overlay(last, existing).entries;
    }
  }
}
