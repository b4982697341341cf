/** What a mirror commit and a vendored commit hold: their trees, their messages
    and their place on the branch, said of the upstream commit itself. */
module MirrorLaws {
  import opened Wrappers
  import opened Trailers
  import opened Trees
  import opened Paths
  import opened Markers
  import opened Worlds
  import opened Transforms
  import opened TransformLaws
  import opened Histories
  import opened Mirror
  import opened MirrorTrees
  import opened Vendoring
  import opened Messages
  import opened Pipelines

  // --- one commit ---

  /** The entry at a name of the destination: the metadata that is there already,
      and the placed tree for all other names. */
  function PlacedEntry(base: Tree, dest: string, shaped: Tree, name: string): Option<Entry> {
    var existing := EntryAt(base, Segments(dest) + [name]);
    if (name == "SRC" || name == "patches") && existing.Some? then existing else EntryAt(shaped, [name])
  }

  /** `tree` is `base` with `shaped` at the destination. */
  ghost predicate PlacedAt(base: Tree, dest: string, shaped: Tree, tree: Tree) {
    && SubtreeAt(tree, Segments(dest)).Some?
    && (forall name :: EntryAt(tree, Segments(dest) + [name]) == PlacedEntry(base, dest, shaped, name))
    && (forall elsewhere :: Incomparable(Segments(dest), elsewhere) ==> EntryAt(tree, elsewhere) == EntryAt(base, elsewhere))
  }

  lemma {:induction false} EntryBelow(t: Tree, path: seq<string>, name: string)
    ensures EntryAt(t, path + [name]) == if SubtreeAt(t, path).Some? then EntryAt(SubtreeAt(t, path).value, [name]) else None
  {
    EntryInside(t, path, [name]);
  }

  lemma {:induction false} OverlaidEntry(origin: Tree, existing: Tree, name: string)
    ensures EntryAt(Overlay(origin, existing), [name]) ==
            if (name == "SRC" || name == "patches") && name in existing.entries then EntryAt(existing, [name]) else EntryAt(origin, [name])
  {
    OverlayEntries(origin, existing, name);
  }

  lemma {:induction false} PlacedIsPlaced(base: Tree, dest: string, shaped: Tree)
    requires IsRelPath(dest)
    ensures PlacedAt(base, dest, shaped, Placed(base, dest, shaped))
  {
    var path := Segments(dest);
    var sub := KeepMetadata(base, path, shaped);
    SpliceThenRead(base, path, sub, []);
    forall name ensures EntryAt(Placed(base, dest, shaped), path + [name]) == PlacedEntry(base, dest, shaped, name) {
      SpliceThenRead(base, path, sub, [name]);
      EntryBelow(base, path, name);
      if SubtreeAt(base, path).Some? {
        OverlaidEntry(shaped, SubtreeAt(base, path).value, name);
      }
    }
    forall elsewhere | Incomparable(path, elsewhere) ensures EntryAt(Placed(base, dest, shaped), elsewhere) == EntryAt(base, elsewhere) {
      SpliceFrame(base, path, sub, elsewhere);
    }
  }

  /** The tree: the upstream tree, renamed, led through the transforms, placed. */
  ghost predicate MirrorsTree(w: World, dest: string, transforms: seq<Transform>, upstream: Tree, base: Tree, tree: Tree) {
    exists shaped :: LeadsTo(w, Rename(upstream), transforms, shaped) && PlacedAt(base, dest, shaped, tree)
  }

  /** The message: what the transforms make of the upstream text, and behind it
      the origin and the destination. */
  ghost predicate MirrorsMessage(w: World, dest: string, transforms: seq<Transform>, origin: Commit, message: string) {
    exists text ::
      && Becomes(w, origin.message, transforms, text)
      && Carries(message, text, "CapyFun-Origin: " + w.id(origin) + "\nCapyFun-Import: " + dest + "\n")
  }

  ghost predicate MirrorsCommit(w: World, dest: string, transforms: seq<Transform>, origin: Commit, parent: Option<Commit>, c: Commit) {
    && c.parents == (if parent.Some? then [parent.value] else [])
    && c.author == origin.author && c.committer == origin.committer
    && MirrorsTree(w, dest, transforms, origin.tree, if parent.Some? then parent.value.tree else Tree(map[]), c.tree)
    && MirrorsMessage(w, dest, transforms, origin, c.message)
  }

  lemma {:induction false} MessageMirrors(w: World, dest: string, transforms: seq<Transform>, origin: Commit, text: string)
    requires ApplyMessageTransforms(w, origin.message, transforms) == Ok(text)
    ensures MirrorsMessage(w, dest, transforms, origin, WithMirrorTrailers(text, w.id(origin), dest))
  {
    var block := TrailerLine(ORIGIN_TRAILER, w.id(origin)) + "\n" + (TrailerLine(IMPORT_TRAILER, dest) + "\n");
    MessagesBecome(w, origin.message, transforms);
    WithTrailersCarries(text, block);
    MirrorBlock(w.id(origin), dest);
  }

  lemma {:induction false} MirrorBlock(id: Oid, dest: string)
    ensures TrailerLine(ORIGIN_TRAILER, id) + "\n" + (TrailerLine(IMPORT_TRAILER, dest) + "\n")
         == "CapyFun-Origin: " + id + "\nCapyFun-Import: " + dest + "\n"
  {
    assert ORIGIN_TRAILER + ": " == "CapyFun-Origin: ";
    assert "\n" + (IMPORT_TRAILER + ": ") == "\nCapyFun-Import: ";
    Rebracket(ORIGIN_TRAILER + ": " + id, "\n", IMPORT_TRAILER + ": ", dest, "\n");
  }

  lemma Rebracket<T>(a: seq<T>, b: seq<T>, c: seq<T>, d: seq<T>, e: seq<T>)
    ensures a + b + (c + d + e) == a + (b + c) + d + e
  {
  }

  /** An upstream commit is mirrored with its authors, its tree and its text; it
      is refused for the reason a transform refuses its tree, or for an invalid
      expression of a rewrite. */
  lemma {:induction false} ReplayMirrors(w: World, dest: string, origin: Commit, parent: Option<Commit>, transforms: seq<Transform>)
    requires IsRelPath(dest)
    ensures
      match ReplayCommit(w, dest, origin, parent, transforms)
      case Ok(c) => MirrorsCommit(w, dest, transforms, origin, parent, c)
      case Err(e) => BreaksOff(w, Rename(origin.tree), transforms, e) || (e == InvalidRegex && exists t <- transforms :: HasBadRegex(w, t))
  {
    PipelinesLead(w, Rename(origin.tree), transforms);
    MessagesBecome(w, origin.message, transforms);
    var shaped := ApplyTreeTransforms(w, Rename(origin.tree), transforms);
    var text := ApplyMessageTransforms(w, origin.message, transforms);
    if shaped.Ok? && text.Ok? {
      PlacedIsPlaced(TreeOf(parent), dest, shaped.value);
      MessageMirrors(w, dest, transforms, origin, text.value);
    }
  }

  /** Without rewrites the mirror message is the upstream message without the
      white space at its end, a blank line and the trailers, and nothing else. */
  lemma {:induction false} PlainMessageMirrors(w: World, dest: string, transforms: seq<Transform>, origin: Commit, message: string)
    requires MirrorsMessage(w, dest, transforms, origin, message) && forall t <- transforms :: !t.RewriteMessage?
    ensures Carries(message, origin.message, "CapyFun-Origin: " + w.id(origin) + "\nCapyFun-Import: " + dest + "\n")
  {
    var block := "CapyFun-Origin: " + w.id(origin) + "\nCapyFun-Import: " + dest + "\n";
    var text :| Becomes(w, origin.message, transforms, text) && Carries(message, text, block);
    NoRewriteNoChange(w, origin.message, transforms, text);
  }

  // --- a run ---

  /** The commits of a run, one for each origin, each on the one before. */
  ghost predicate MirrorsRun(w: World, dest: string, transforms: seq<Transform>, origins: seq<Commit>, base: Option<Commit>, commits: seq<Commit>) {
    |commits| == |origins| && forall k :: 0 <= k < |commits| ==> MirrorsAt(w, dest, transforms, origins, base, commits, k)
  }

  ghost predicate MirrorsAt(w: World, dest: string, transforms: seq<Transform>, origins: seq<Commit>, base: Option<Commit>, commits: seq<Commit>, k: nat)
    requires k < |commits| == |origins|
  {
    MirrorsCommit(w, dest, transforms, origins[k], Newest(base, commits[..k]), commits[k])
  }

  function Newest(base: Option<Commit>, commits: seq<Commit>): Option<Commit> {
    if commits == [] then base else Some(commits[|commits| - 1])
  }

  /** How a run ends: all origins mirrored on the base, or the error of the first
      one that is refused. */
  ghost predicate RunEnds(w: World, dest: string, transforms: seq<Transform>, origins: seq<Commit>, base: Option<Commit>,
                          commits: seq<Commit>, r: Result<Option<Commit>>)
    requires IsRelPath(dest)
  {
    match r
    case Ok(head) =>
      MirrorsRun(w, dest, transforms, origins, base, commits) && History(head) == History(base) + commits && head == Newest(base, commits)
    case Err(e) =>
      && |commits| < |origins| && MirrorsRun(w, dest, transforms, origins[..|commits|], base, commits)
      && ReplayCommit(w, dest, origins[|commits|], Newest(base, commits), transforms) == Err(e)
  }

  /** A mirror run puts exactly one commit per origin on the branch, in order,
      each the mirror of its origin; a run that fails does so on the first origin
      that is refused. */
  lemma {:induction false} RunsMirror(w: World, dest: string, origins: seq<Commit>, base: Option<Commit>, transforms: seq<Transform>)
      returns (commits: seq<Commit>)
    requires IsRelPath(dest)
    ensures RunEnds(w, dest, transforms, origins, base, commits, ReplayAll(w, dest, origins, base, transforms))
    decreases |origins|
  {
    if origins == [] {
      commits := [];
      assert History(base) + commits == History(base);
    } else {
      var n := |origins| - 1;
      commits := RunsMirror(w, dest, origins[..n], base, transforms);
      match ReplayAll(w, dest, origins[..n], base, transforms) {
        case Err(_) =>
          assert origins[..n][..|commits|] == origins[..|commits|];
        case Ok(below) =>
          commits := LastOrigin(w, dest, transforms, origins, base, commits, below);
      }
    }
  }

  lemma {:induction false} LastOrigin(w: World, dest: string, transforms: seq<Transform>, origins: seq<Commit>, base: Option<Commit>,
                                      older: seq<Commit>, below: Option<Commit>) returns (commits: seq<Commit>)
    requires IsRelPath(dest) && origins != []
    requires RunEnds(w, dest, transforms, origins[..|origins| - 1], base, older, Ok(below))
    ensures
      match ReplayCommit(w, dest, origins[|origins| - 1], below, transforms)
      case Ok(c) => RunEnds(w, dest, transforms, origins, base, commits, Ok(Some(c)))
      case Err(e) => RunEnds(w, dest, transforms, origins, base, commits, Err(e))
  {
    commits := older;
    ReplayMirrors(w, dest, origins[|origins| - 1], below, transforms);
    match ReplayCommit(w, dest, origins[|origins| - 1], below, transforms) {
      case Err(_) =>
      case Ok(c) =>
        OneMirrorMore(w, dest, transforms, origins, base, older, below, c);
        OneCommitMore(base, older, below, c);
        commits := older + [c];
    }
  }

  lemma {:induction false} OneMirrorMore(w: World, dest: string, transforms: seq<Transform>, origins: seq<Commit>, base: Option<Commit>,
                                         older: seq<Commit>, below: Option<Commit>, c: Commit)
    requires origins != [] && MirrorsRun(w, dest, transforms, origins[..|origins| - 1], base, older)
    requires below == Newest(base, older) && MirrorsCommit(w, dest, transforms, origins[|origins| - 1], below, c)
    ensures MirrorsRun(w, dest, transforms, origins, base, older + [c])
  {
    var n, commits := |older|, older + [c];
    forall k | 0 <= k < |commits| ensures MirrorsAt(w, dest, transforms, origins, base, commits, k) {
      if k < n {
        assert MirrorsAt(w, dest, transforms, origins[..n], base, older, k);
        assert commits[..k] == older[..k];
      } else {
        assert commits[..k] == older;
      }
    }
  }

  lemma {:induction false} OneCommitMore(base: Option<Commit>, older: seq<Commit>, below: Option<Commit>, c: Commit)
    requires History(below) == History(base) + older && c.parents == if below.Some? then [below.value] else []
    ensures History(Some(c)) == History(base) + (older + [c])
  {
    assert Parent(c) == below;
    assert History(base) + older + [c] == History(base) + (older + [c]);
  }

  /** A successful mirror puts one commit on the base for every upstream commit
      past the last one on record, and counts them. */
  lemma {:induction false} MirrorsTheDelta(w: World, dest: string, originTip: Commit, base: Option<Commit>, transforms: seq<Transform>)
      returns (delta: seq<Commit>, commits: seq<Commit>)
    requires IsRelPath(dest) && Mirrored(w, dest, originTip, base, transforms).Ok?
    ensures
      var o := Mirrored(w, dest, originTip, base, transforms).value;
      && LastImported(base, dest).Ok? && Delta(w, Some(originTip), LastImported(base, dest).value) == Ok(delta)
      && MirrorsRun(w, dest, transforms, delta, base, commits)
      && History(o.head) == History(base) + commits && o.imported == |delta|
  {
    delta := Delta(w, Some(originTip), LastImported(base, dest).value).value;
    commits := RunsMirror(w, dest, delta, base, transforms);
  }

  // --- a move ---

  /** A mirror with one move: refused exactly when the upstream tree, renamed,
      has nothing at the source; otherwise the files at the destination are the
      files of that tree, moved. */
  lemma {:induction false} MirroredMove(w: World, dest: string, origin: Commit, parent: Option<Commit>, src: string, dst: string)
    requires IsRelPath(dest) && IsRelPath(src) && IsRelPath(dst) && src != dst
    ensures
      var upstream := Rename(origin.tree);
      match ReplayCommit(w, dest, origin, parent, [Move(src, dst)])
      case Ok(c) =>
        && EntryAt(upstream, Segments(src)).Some?
        && forall path: seq<string> :: path != [] && path[0] != "SRC" && path[0] != "patches" ==>
             FileAt(c.tree, Segments(dest) + path) == FileAfterMove(upstream, Segments(src), Segments(dst), path)
      case Err(e) => e == MissingSource && EntryAt(upstream, Segments(src)).None?
  {
    var upstream := Rename(origin.tree);
    OneMove(w, upstream, origin.message, src, dst);
    if EntryAt(upstream, Segments(src)).Some? {
      var shaped := MoveOrCopy(upstream, src, dst, true).value;
      var c := ReplayCommit(w, dest, origin, parent, [Move(src, dst)]).value;
      PlacedIsPlaced(TreeOf(parent), dest, shaped);
      forall path: seq<string> | path != [] && path[0] != "SRC" && path[0] != "patches"
        ensures FileAt(c.tree, Segments(dest) + path) == FileAfterMove(upstream, Segments(src), Segments(dst), path)
      {
        PlacedFileIs(TreeOf(parent), dest, shaped, c.tree, path);
        MoveCarriesFiles(upstream, src, dst, path);
      }
    }
  }

  lemma {:induction false} OneMove(w: World, t: Tree, message: string, src: string, dst: string)
    ensures ApplyTreeTransforms(w, t, [Move(src, dst)]) == MoveOrCopy(t, src, dst, true)
    ensures ApplyMessageTransforms(w, message, [Move(src, dst)]) == Ok(message)
  {
    var transforms := [Move(src, dst)];
    assert transforms[1..] == [];
    assert ApplyMessageTransforms(w, message, transforms[1..]) == Ok(message);
    var next := MoveOrCopy(t, src, dst, true);
    assert next.Ok? ==> ApplyTreeTransforms(w, next.value, transforms[1..]) == next;
  }

  lemma {:induction false} PlacedFileIs(base: Tree, dest: string, shaped: Tree, tree: Tree, path: seq<string>)
    requires PlacedAt(base, dest, shaped, tree) && path != [] && path[0] != "SRC" && path[0] != "patches"
    ensures FileAt(tree, Segments(dest) + path) == FileAt(shaped, path)
  {
    var name, rest := path[0], path[1..];
    assert EntryAt(tree, Segments(dest) + [name]) == EntryAt(shaped, [name]);
    assert Segments(dest) + path == Segments(dest) + [name] + rest && path == [name] + rest;
    EntryInside(tree, Segments(dest) + [name], rest);
    EntryInside(shaped, [name], rest);
  }

  // --- a vendored commit ---

  /** A vendored commit is the pinned tree, renamed and placed, under the
      engine's name, and says what it vendors. */
  lemma {:induction false} VendorCommitHolds(w: World, dest: string, slug: string, pinned: Commit, branch: Option<Commit>)
    requires IsRelPath(dest)
    ensures
      var c := VendorCommit(w, dest, slug, pinned, branch);
      && PlacedAt(if branch.Some? then branch.value.tree else Tree(map[]), dest, Rename(pinned.tree), c.tree)
      && c.parents == (if branch.Some? then [branch.value] else [])
      && c.author == Signature("CapyFun", "capyfun@tinytree.dev", 0) && c.committer == c.author
      && (var pin := slug + "@" + w.id(pinned);
          c.message == "Vendor " + pin + ("\n\nCapyFun-Vendor: " + pin) + ("\nCapyFun-Import: " + dest + "\n"))
  {
    PlacedIsPlaced(TreeOf(branch), dest, Rename(pinned.tree));
    VendorMessageIs(slug, w.id(pinned), dest);
  }

  lemma {:induction false} VendorMessageIs(slug: string, id: Oid, dest: string)
    ensures
      var pin := slug + "@" + id;
      VendorMessage(slug, id, dest) == "Vendor " + pin + ("\n\nCapyFun-Vendor: " + pin) + ("\nCapyFun-Import: " + dest + "\n")
  {
    OwnMessageIs("Vendor ", VENDOR_TRAILER, slug + "@" + id, dest);
    assert "\n\n" + VENDOR_TRAILER + ": " == "\n\nCapyFun-Vendor: ";
  }

  /** The engine's own messages, spelled out. */
  lemma {:induction false} OwnMessageIs(lead: string, key: string, value: string, dest: string)
    ensures OwnMessage(lead, key, value, dest) ==
            lead + value + ("\n\n" + key + ": " + value) + ("\nCapyFun-Import: " + dest + "\n")
  {
    assert "\n" + (IMPORT_TRAILER + ": ") == "\nCapyFun-Import: ";
    var line := key + ": " + value;
    Rebracket(line, "\n", IMPORT_TRAILER + ": ", dest, "\n");
    assert "\n\n" + line == "\n\n" + key + ": " + value;
  }
}
