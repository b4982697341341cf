/** What a shipped commit holds: its tree, its message and its place on the
    destination, said of the monorepo commit itself. */
module ExportLaws {
  import opened Wrappers
  import opened Text
  import opened Trailers
  import opened Trees
  import opened Paths
  import opened Markers
  import opened Worlds
  import opened Transforms
  import opened Histories
  import opened Mirror
  import opened Messages
  import opened Pipelines
  import opened Exporting

  // --- one commit ---

  /** The tree: the exported directory, led through the transforms and stripped
      of the engine's metadata. */
  ghost predicate ShipsTree(w: World, from: string, transforms: seq<Transform>, mono: Tree, tree: Tree) {
    SubtreeAt(mono, Segments(from)).Some?
    && exists shaped :: LeadsTo(w, SubtreeAt(mono, Segments(from)).value, transforms, shaped) && tree == StripForExport(shaped)
  }

  /** The message: what the transforms make of the monorepo text, and behind it
      the monorepo commit. */
  ghost predicate ShipsMessage(w: World, transforms: seq<Transform>, mono: Commit, message: string) {
    exists text :: Becomes(w, mono.message, transforms, text) && Carries(message, text, "CapyFun-Export: " + w.id(mono) + "\n")
  }

  ghost predicate ShipsCommit(w: World, from: string, transforms: seq<Transform>, mono: Commit, parent: Option<Commit>, c: Commit) {
    && c.parents == (if parent.Some? then [parent.value] else [])
    && c.author == mono.author && c.committer == mono.committer
    && ShipsTree(w, from, transforms, mono.tree, c.tree)
    && ShipsMessage(w, transforms, mono, c.message)
  }

  /** Nothing to ship: no such directory, or the tree shipped last. */
  ghost predicate ShipsNothing(w: World, from: string, transforms: seq<Transform>, mono: Tree, last: Option<Tree>) {
    SubtreeAt(mono, Segments(from)).None? || (last.Some? && ShipsTree(w, from, transforms, mono, last.value))
  }

  lemma {:induction false} MessageShips(w: World, transforms: seq<Transform>, mono: Commit, text: string)
    requires ApplyMessageTransforms(w, mono.message, transforms) == Ok(text)
    ensures ShipsMessage(w, transforms, mono, WithExportTrailer(text, w.id(mono)))
  {
    MessagesBecome(w, mono.message, transforms);
    var block := TrailerLine(EXPORT_TRAILER, w.id(mono)) + "\n";
    WithTrailersCarries(text, block);
    assert EXPORT_TRAILER + ": " == "CapyFun-Export: ";
  }

  lemma {:induction false} TreeShips(w: World, from: string, transforms: seq<Transform>, mono: Commit)
    ensures
      match ExportedTree(w, from, mono, transforms)
      case Ok(None) => SubtreeAt(mono.tree, Segments(from)).None?
      case Ok(Some(t)) => ShipsTree(w, from, transforms, mono.tree, t)
      case Err(e) => SubtreeAt(mono.tree, Segments(from)).Some? && BreaksOff(w, SubtreeAt(mono.tree, Segments(from)).value, transforms, e)
  {
    var sub := SubtreeAt(mono.tree, Segments(from));
    if sub.Some? {
      PipelinesLead(w, sub.value, transforms);
    }
  }

  /** One step of an export makes no commit when there is nothing to ship, and
      else one that ships the monorepo commit; it fails as a transform refuses
      the tree, or on an invalid expression of a rewrite. */
  lemma {:induction false} StepShips(w: World, from: string, transforms: seq<Transform>, mono: Commit, p: Progress)
    ensures
      match ExportStep(w, from, transforms, mono, p)
      case Ok(q) =>
        if q == p then ShipsNothing(w, from, transforms, mono.tree, p.prevTree)
        else
          && q.head.Some? && ShipsCommit(w, from, transforms, mono, p.head, q.head.value)
          && q.prevTree == Some(q.head.value.tree) && q.prevTree != p.prevTree && q.exported == p.exported + 1
      case Err(e) =>
        SubtreeAt(mono.tree, Segments(from)).Some?
        && (BreaksOff(w, SubtreeAt(mono.tree, Segments(from)).value, transforms, e)
            || (e == InvalidRegex && exists t <- transforms :: HasBadRegex(w, t)))
  {
    TreeShips(w, from, transforms, mono);
    MessagesBecome(w, mono.message, transforms);
    var text := ApplyMessageTransforms(w, mono.message, transforms);
    if text.Ok? {
      MessageShips(w, transforms, mono, text.value);
    }
  }

  // --- a run ---

  /** A run from `head`, where `last` was shipped last: the commits it makes, each
      on the one before, and nothing for the monorepo commits between. */
  ghost predicate ShipsRun(w: World, from: string, transforms: seq<Transform>, monos: seq<Commit>, head: Option<Commit>, last: Option<Tree>,
                           commits: seq<Commit>)
    decreases |monos|
  {
    if monos == [] then commits == []
    else
      || (ShipsNothing(w, from, transforms, monos[0].tree, last) && ShipsRun(w, from, transforms, monos[1..], head, last, commits))
      || (commits != [] && Some(commits[0].tree) != last && ShipsCommit(w, from, transforms, monos[0], head, commits[0])
          && ShipsRun(w, from, transforms, monos[1..], Some(commits[0]), Some(commits[0].tree), commits[1..]))
  }

  /** A run that succeeds ships its monorepo commits so, on top of what was
      there, and counts the commits it makes. */
  lemma {:induction false} RunsShip(w: World, from: string, transforms: seq<Transform>, monos: seq<Commit>, p: Progress) returns (commits: seq<Commit>)
    requires ExportAll(w, from, transforms, monos, p).Ok?
    ensures ShipsRun(w, from, transforms, monos, p.head, p.prevTree, commits)
    ensures
      var q := ExportAll(w, from, transforms, monos, p).value;
      History(q.head) == History(p.head) + commits && q.exported == p.exported + |commits|
    decreases |monos|
  {
    if monos == [] {
      commits := [];
      assert History(p.head) + commits == History(p.head);
    } else {
      ExportAllFront(w, from, transforms, monos, p);
      StepShips(w, from, transforms, monos[0], p);
      var q := ExportStep(w, from, transforms, monos[0], p).value;
      commits := RunsShip(w, from, transforms, monos[1..], q);
      if q != p {
        FirstInFront(p.head, q.head.value, commits);
        commits := [q.head.value] + commits;
      }
    }
  }

  lemma {:induction false} FirstInFront(parent: Option<Commit>, c: Commit, rest: seq<Commit>)
    requires c.parents == if parent.Some? then [parent.value] else []
    ensures History(Some(c)) + rest == History(parent) + ([c] + rest)
  {
    assert Parent(c) == parent;
    assert History(parent) + [c] + rest == History(parent) + ([c] + rest);
  }

  /** An export ships what is new of the monorepo in that way. */
  lemma {:induction false} ExportShips(w: World, from: string, monoTip: Commit, destTip: Option<Commit>, transforms: seq<Transform>)
      returns (delta: seq<Commit>, commits: seq<Commit>)
    requires Exported(w, from, monoTip, destTip, transforms).Ok?
    ensures LastExported(destTip).Ok? && Delta(w, Some(monoTip), LastExported(destTip).value) == Ok(delta)
    ensures ShipsRun(w, from, transforms, delta, destTip, if destTip.Some? then Some(destTip.value.tree) else None, commits)
    ensures
      var o := Exported(w, from, monoTip, destTip, transforms).value;
      History(o.head) == History(destTip) + commits && o.exported == |commits|
  {
    delta := Delta(w, Some(monoTip), LastExported(destTip).value).value;
    commits := RunsShip(w, from, transforms, delta, StartAt(destTip));
  }

  /** Without rewrites the shipped message is the monorepo message without the
      white space at its end, a blank line and the trailer, and nothing else. */
  lemma {:induction false} PlainMessageShips(w: World, from: string, transforms: seq<Transform>, mono: Commit, parent: Option<Commit>, c: Commit)
    requires ShipsCommit(w, from, transforms, mono, parent, c) && forall t <- transforms :: !t.RewriteMessage?
    ensures Carries(c.message, mono.message, "CapyFun-Export: " + w.id(mono) + "\n")
  {
    var text :| Becomes(w, mono.message, transforms, text) && Carries(c.message, text, "CapyFun-Export: " + w.id(mono) + "\n");
    NoRewriteNoChange(w, mono.message, transforms, text);
  }
}
