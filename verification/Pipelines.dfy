/** What a pipeline of transforms makes of a tree: one step after the other,
    each described file by file. */
module Pipelines {
  import opened Wrappers
  import opened Text
  import opened Trees
  import opened Paths
  import opened Globs
  import opened Worlds
  import opened Transforms
  import opened TransformLaws
  import opened Messages

  // --- one replace ---

  ghost predicate TextReplaced(w: World, text: string, before: string, after: string, regex: bool, r: string) {
    if regex then r == w.regexReplace(before, text, after) else Replaced(text, before, after, r)
  }

  /** What a replace makes of the content of a selected file: bytes that are no
      text, and text without an occurrence, stay as they are. */
  ghost predicate ContentReplaced(w: World, content: Bytes, before: string, after: string, regex: bool, now: Bytes) {
    match w.decode(content)
    case None => now == content
    case Some(text) =>
      exists r :: TextReplaced(w, text, before, after, regex, r) && now == if r == text then content else w.encode(r)
  }

  /** What it makes of a file: only the content of blobs that a glob selects by
      their path. */
  ghost predicate FileReplaced(w: World, path: seq<string>, was: Entry, paths: seq<string>, before: string, after: string, regex: bool, now: Entry) {
    if was.Blob? && exists glob <- paths :: GlobMatch(glob, Join(path, "/"))
    then now.Blob? && now.mode == was.mode && ContentReplaced(w, was.content, before, after, regex, now.content)
    else now == was
  }

  lemma {:induction false} RewriteBlobReplaces(w: World, content: Bytes, before: string, after: string, regex: bool)
    ensures ContentReplaced(w, content, before, after, regex, RewriteBlob(w, content, before, after, regex))
  {
    var decoded := w.decode(content);
    if decoded.Some? {
      var text := decoded.value;
      var replaced := RewriteText(w, text, before, after, regex);
      if !regex {
        ReplaceTextReplaces(text, before, after);
      }
      assert TextReplaced(w, text, before, after, regex, replaced);
    }
  }

  lemma {:induction false} FullPathIsJoin(prefix: string, path: seq<string>)
    requires path != [] && (prefix == "" ==> path[0] != "")
    ensures FullPath(prefix, path) == PathBelow(prefix, Join(path, "/"))
    decreases |path|
  {
    if |path| > 1 {
      FullPathIsJoin(PathBelow(prefix, path[0]), path[1..]);
      JoinMore(path[0], path[1..], "/");
      assert path == [path[0]] + path[1..];
    }
  }

  lemma {:induction false} SelectedExactly(paths: seq<string>, path: string)
    ensures Selected(paths, path) <==> exists glob <- paths :: GlobMatch(glob, path)
  {
    if Selected(paths, path) {
      var k :| 0 <= k < |paths| && GlobMatch(paths[k], path);
      assert paths[k] in paths;
    }
    if exists glob <- paths :: GlobMatch(glob, path) {
      var glob :| glob in paths && GlobMatch(glob, path);
      var k :| 0 <= k < |paths| && paths[k] == glob;
      assert GlobMatch(paths[k], path);
    }
  }

  lemma {:induction false} RewrittenIsReplaced(w: World, path: seq<string>, was: Entry, paths: seq<string>, before: string, after: string, regex: bool)
    requires path != [] && path[0] != ""
    ensures FileReplaced(w, path, was, paths, before, after, regex, Rewritten(w, FullPath("", path), was, paths, before, after, regex))
  {
    FullPathIsJoin("", path);
    SelectedExactly(paths, Join(path, "/"));
    if was.Blob? {
      RewriteBlobReplaces(w, was.content, before, after, regex);
    }
  }

  // --- one step ---

  /** No file appears or goes, and each is replaced by itself. */
  ghost predicate FilesReplaced(w: World, t: Tree, paths: seq<string>, before: string, after: string, regex: bool, r: Tree) {
    forall path: seq<string> :: path != [] && path[0] != "" ==>
      && (FileAt(t, path).None? <==> FileAt(r, path).None?)
      && (FileAt(t, path).Some? ==> FileReplaced(w, path, FileAt(t, path).value, paths, before, after, regex, FileAt(r, path).value))
  }

  /** What one transform makes of a tree.  Without empty directories the files
      make up the tree. */
  ghost predicate StepOf(w: World, t: Tree, transform: Transform, r: Tree) {
    && (NoEmptyDirs(t) ==> NoEmptyDirs(r))
    && match transform
       case Move(src, dst) =>
         && Segments(src) != [] && Segments(dst) != [] && EntryAt(t, Segments(src)).Some?
         && if src == dst then r == t else forall path :: FileAt(r, path) == FileAfterMove(t, Segments(src), Segments(dst), path)
       case Copy(src, dst) =>
         && Segments(src) != [] && Segments(dst) != [] && EntryAt(t, Segments(src)).Some?
         && forall path :: FileAt(r, path) == FileAfterCopy(t, Segments(src), Segments(dst), path)
       case Replace(before, after, paths, regex) =>
         (regex ==> w.regexValid(before)) && FilesReplaced(w, t, paths, before, after, regex, r)
       case _ => r == t
  }

  /** Why a transform refuses a tree: an absent source, an empty destination, an
      invalid expression. */
  predicate Refuses(w: World, t: Tree, transform: Transform, e: Failure) {
    match transform
    case Move(src, dst) => RefusesMove(t, src, dst, e)
    case Copy(src, dst) => RefusesMove(t, src, dst, e)
    case Replace(before, _, _, regex) => regex && !w.regexValid(before) && e == InvalidRegex
    case _ => false
  }

  predicate RefusesMove(t: Tree, src: string, dst: string, e: Failure) {
    if Segments(src) == [] || EntryAt(t, Segments(src)).None? then e == MissingSource
    else Segments(dst) == [] && e == EmptyPath
  }

  lemma {:induction false} SetSame(t: Tree, path: seq<string>)
    requires path != [] && EntryAt(t, path).Some?
    ensures SetPath(t, path, EntryAt(t, path)) == t
    decreases |path|
  {
    if |path| > 1 {
      SetSame(Child(t, path[0]), path[1..]);
    }
    assert SetPath(t, path, EntryAt(t, path)).entries == t.entries;
  }

  lemma {:induction false} MovesStep(w: World, t: Tree, src: string, dst: string)
    ensures
      match ApplyTreeTransform(w, t, Move(src, dst))
      case Ok(r) => StepOf(w, t, Move(src, dst), r)
      case Err(e) => Refuses(w, t, Move(src, dst), e)
  {
    var from, into := Segments(src), Segments(dst);
    if from != [] && into != [] && EntryAt(t, from).Some? {
      var r := MoveOrCopy(t, src, dst, true).value;
      if src == dst {
        SetSame(t, from);
      } else {
        forall path ensures FileAt(r, path) == FileAfterMove(t, from, into, path) {
          MoveCarriesFiles(t, src, dst, path);
        }
        if NoEmptyDirs(t) {
          MoveKeepsFull(t, from, into);
        }
      }
    }
  }

  lemma {:induction false} CopiesStep(w: World, t: Tree, src: string, dst: string)
    ensures
      match ApplyTreeTransform(w, t, Copy(src, dst))
      case Ok(r) => StepOf(w, t, Copy(src, dst), r)
      case Err(e) => Refuses(w, t, Copy(src, dst), e)
  {
    var from, into := Segments(src), Segments(dst);
    if from != [] && into != [] && EntryAt(t, from).Some? {
      var r := MoveOrCopy(t, src, dst, false).value;
      forall path ensures FileAt(r, path) == FileAfterCopy(t, from, into, path) {
        CopyCarriesFiles(t, src, dst, path);
      }
      if NoEmptyDirs(t) {
        FullBelow(t, from);
        SetKeepsFull(t, into, EntryAt(t, from));
      }
    }
  }

  lemma {:induction false} ReplaceKeepsFull(w: World, t: Tree, prefix: string, paths: seq<string>, before: string, after: string, regex: bool)
    requires NoEmptyDirs(t)
    ensures NoEmptyDirs(ReplaceWalk(w, t, prefix, paths, before, after, regex))
    decreases t
  {
    forall n | n in t.entries && t.entries[n].Dir?
      ensures NoEmptyDirs(ReplaceWalk(w, t.entries[n].tree, PathBelow(prefix, n), paths, before, after, regex))
      ensures ReplaceWalk(w, t.entries[n].tree, PathBelow(prefix, n), paths, before, after, regex).entries != map[]
    {
      ReplaceKeepsFull(w, t.entries[n].tree, PathBelow(prefix, n), paths, before, after, regex);
      var m :| m in t.entries[n].tree.entries;
      assert m in ReplaceWalk(w, t.entries[n].tree, PathBelow(prefix, n), paths, before, after, regex).entries;
    }
  }

  lemma {:induction false} ReplacesStep(w: World, t: Tree, before: string, after: string, paths: seq<string>, regex: bool)
    requires regex ==> w.regexValid(before)
    ensures StepOf(w, t, Replace(before, after, paths, regex), ReplaceWalk(w, t, "", paths, before, after, regex))
  {
    var r := ReplaceWalk(w, t, "", paths, before, after, regex);
    forall path: seq<string> | path != [] && path[0] != ""
      ensures FileAt(t, path).None? <==> FileAt(r, path).None?
      ensures FileAt(t, path).Some? ==> FileReplaced(w, path, FileAt(t, path).value, paths, before, after, regex, FileAt(r, path).value)
    {
      ReplaceIsPointwise(w, t, "", paths, before, after, regex, path);
      if FileAt(t, path).Some? {
        RewrittenIsReplaced(w, path, FileAt(t, path).value, paths, before, after, regex);
      }
    }
    if NoEmptyDirs(t) {
      ReplaceKeepsFull(w, t, "", paths, before, after, regex);
    }
  }

  /** Every transform does its step or refuses for a reason. */
  lemma {:induction false} EveryTransformSteps(w: World, t: Tree, transform: Transform)
    ensures
      match ApplyTreeTransform(w, t, transform)
      case Ok(r) => StepOf(w, t, transform, r)
      case Err(e) => Refuses(w, t, transform, e)
  {
    match transform {
      case Move(src, dst) => MovesStep(w, t, src, dst);
      case Copy(src, dst) => CopiesStep(w, t, src, dst);
      case Replace(before, after, paths, regex) =>
        if regex ==> w.regexValid(before) {
          ReplacesStep(w, t, before, after, paths, regex);
        }
      case _ =>
    }
  }

  // --- the pipeline ---

  ghost predicate TreeChain(w: World, t: Tree, transforms: seq<Transform>, ts: seq<Tree>) {
    && |ts| == |transforms| + 1 && ts[0] == t
    && forall k :: 0 <= k < |transforms| ==> StepOf(w, ts[k], transforms[k], ts[k + 1])
  }

  /** The transforms, one after the other, lead from `t` to `r`. */
  ghost predicate LeadsTo(w: World, t: Tree, transforms: seq<Transform>, r: Tree) {
    exists ts :: TreeChain(w, t, transforms, ts) && r == ts[|transforms|]
  }

  /** The transforms lead to a tree that the next one refuses. */
  ghost predicate BreaksOff(w: World, t: Tree, transforms: seq<Transform>, e: Failure) {
    exists k, r :: 0 <= k < |transforms| && LeadsTo(w, t, transforms[..k], r) && Refuses(w, r, transforms[k], e)
  }

  lemma {:induction false} LeadsInFront(w: World, t: Tree, next: Tree, transforms: seq<Transform>, r: Tree)
    requires transforms != [] && StepOf(w, t, transforms[0], next) && LeadsTo(w, next, transforms[1..], r)
    ensures LeadsTo(w, t, transforms, r)
  {
    var ts :| TreeChain(w, next, transforms[1..], ts) && r == ts[|transforms| - 1];
    assert TreeChain(w, t, transforms, [t] + ts);
    assert ([t] + ts)[|transforms|] == r;
  }

  lemma {:induction false} BreaksInFront(w: World, t: Tree, next: Tree, transforms: seq<Transform>, e: Failure)
    requires transforms != [] && StepOf(w, t, transforms[0], next) && BreaksOff(w, next, transforms[1..], e)
    ensures BreaksOff(w, t, transforms, e)
  {
    var k, r :| 0 <= k < |transforms| - 1 && LeadsTo(w, next, transforms[1..][..k], r) && Refuses(w, r, transforms[1..][k], e);
    assert transforms[..k + 1][1..] == transforms[1..][..k];
    LeadsInFront(w, t, next, transforms[..k + 1], r);
    assert transforms[1..][k] == transforms[k + 1];
  }

  /** A pipeline takes its steps in order, or ends with the error of the first
      step that refuses. */
  lemma {:induction false} PipelinesLead(w: World, t: Tree, transforms: seq<Transform>)
    ensures
      match ApplyTreeTransforms(w, t, transforms)
      case Ok(r) => LeadsTo(w, t, transforms, r)
      case Err(e) => BreaksOff(w, t, transforms, e)
    decreases |transforms|
  {
    if transforms == [] {
      assert TreeChain(w, t, transforms, [t]);
    } else {
      EveryTransformSteps(w, t, transforms[0]);
      match ApplyTreeTransform(w, t, transforms[0]) {
        case Ok(next) =>
          PipelinesLead(w, next, transforms[1..]);
          match ApplyTreeTransforms(w, next, transforms[1..]) {
            case Ok(r) => LeadsInFront(w, t, next, transforms, r);
            case Err(e) => BreaksInFront(w, t, next, transforms, e);
          }
        case Err(e) =>
          assert TreeChain(w, t, transforms[..0], [t]);
          assert LeadsTo(w, t, transforms[..0], t);
      }
    }
  }
}
