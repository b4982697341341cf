/** Structural transforms: rewrites of the imported subtree and of commit
    messages, applied to every replayed commit. */
module Transforms {
  import opened Wrappers
  import opened Text
  import opened Trees
  import opened Paths
  import opened Globs
  import opened Worlds

  datatype Transform =
    | Replace(before: string, after: string, paths: seq<string>, regex: bool)
    | Move(src: string, dst: string)
    | Copy(src: string, dst: string)
    | RewriteMessage(find: Option<string>, put: Option<string>, useRegex: bool,
                     stripTrailers: seq<string>, addTrailers: seq<string>)
    | ApplyPatch(file: string)
    | AgentTransform(agent: string, promptTemplate: string)

  // --- text ---

  predicate StartsWith(s: string, prefix: string) {
    |prefix| <= |s| && s[..|prefix|] == prefix
  }

  /** Literal replacement of every non-overlapping occurrence, from the left;
      an empty search text occurs between all characters. */
  function ReplaceText(s: string, before: string, after: string): string
    decreases |s|
  {
    if before == "" then
      if s == "" then after else after + [s[0]] + ReplaceText(s[1..], before, after)
    else if StartsWith(s, before) then after + ReplaceText(s[|before|..], before, after)
    else if s == "" then ""
    else [s[0]] + ReplaceText(s[1..], before, after)
  }

  // --- move and copy ---

  /** `base` with the entry at `path` set, or removed when `entry` is absent.
      Directories on the way are created; removing prunes a directory that is
      left empty. */
  function SetPath(base: Tree, path: seq<string>, entry: Option<Entry>): Tree
    requires path != []
    decreases |path|
  {
    if |path| == 1 then
      if entry.Some? then WithEntry(base, path[0], entry.value)
      else Tree(base.entries - {path[0]})
    else
      var child := SetPath(Child(base, path[0]), path[1..], entry);
      if entry.None? && child.entries == map[] then Tree(base.entries - {path[0]})
      else WithEntry(base, path[0], Dir(child))
  }

  function MoveOrCopy(t: Tree, src: string, dst: string, removeSrc: bool): Result<Tree>
  {
    var from, into := Segments(src), Segments(dst);
    var entry := EntryAt(t, from);
    if from == [] || entry.None? then Err(MissingSource)
    else if into == [] then Err(EmptyPath)
    else
      var placed := SetPath(t, into, entry);
      Ok(if removeSrc && src != dst then SetPath(placed, from, None) else placed)
  }

  // --- replace ---

  function RewriteText(w: World, text: string, before: string, after: string, regex: bool): string {
    if regex then w.regexReplace(before, text, after) else ReplaceText(text, before, after)
  }

  /** Binary content and text the replacement leaves alone keep their bytes. */
  function RewriteBlob(w: World, content: Bytes, before: string, after: string, regex: bool): Bytes {
    match w.decode(content)
    case None => content
    case Some(text) =>
      var replaced := RewriteText(w, text, before, after, regex);
      if replaced == text then content else w.encode(replaced)
  }

  function PathBelow(prefix: string, name: string): string {
    if prefix == "" then name else prefix + "/" + name
  }

  predicate Selected(paths: seq<string>, path: string) {
    exists k :: 0 <= k < |paths| && GlobMatch(paths[k], path)
  }

  function ReplaceWalk(w: World, t: Tree, prefix: string, paths: seq<string>,
                       before: string, after: string, regex: bool): Tree
    decreases t
  {
    Tree(map name | name in t.entries ::
      match t.entries[name]
      case Dir(sub) => Dir(ReplaceWalk(w, sub, PathBelow(prefix, name), paths, before, after, regex))
      case Blob(content, mode) =>
        if Selected(paths, PathBelow(prefix, name))
        then Blob(RewriteBlob(w, content, before, after, regex), mode)
        else t.entries[name]
      case Other(_) => t.entries[name])
  }

  /** The rebuilding loop of a replace, over the entries in any order. */
  method ReplaceInTree(w: World, t: Tree, prefix: string, paths: seq<string>, before: string, after: string, regex: bool) returns (r: Tree)
    ensures r == ReplaceWalk(w, t, prefix, paths, before, after, regex)
    decreases t
  {
    var builder: map<string, Entry> := map[];
    var todo := t.entries.Keys;
    while todo != {}
      invariant todo <= t.entries.Keys && builder.Keys == t.entries.Keys - todo
      invariant forall n <- builder :: builder[n] == ReplaceWalk(w, t, prefix, paths, before, after, regex).entries[n]
    {
      var name :| name in todo;
      todo := todo - {name};
      var path := PathBelow(prefix, name);
      match t.entries[name] {
        case Dir(sub) =>
          var rewritten := ReplaceInTree(w, sub, path, paths, before, after, regex);
          builder := builder[name := Dir(rewritten)];
        case Blob(content, mode) =>
          builder := builder[name := if Selected(paths, path) then Blob(RewriteBlob(w, content, before, after, regex), mode) else t.entries[name]];
        case Other(_) =>
          builder := builder[name := t.entries[name]];
      }
    }
    assert builder == ReplaceWalk(w, t, prefix, paths, before, after, regex).entries;
    r := Tree(builder);
  }

  // --- pipelines ---

  function ApplyTreeTransform(w: World, t: Tree, transform: Transform): Result<Tree> {
    match transform
    case Move(src, dst) => MoveOrCopy(t, src, dst, true)
    case Copy(src, dst) => MoveOrCopy(t, src, dst, false)
    case Replace(before, after, paths, regex) =>
      if regex && !w.regexValid(before) then Err(InvalidRegex)
      else Ok(ReplaceWalk(w, t, "", paths, before, after, regex))
    case _ => Ok(t)
  }

  function ApplyTreeTransforms(w: World, t: Tree, transforms: seq<Transform>): Result<Tree>
    decreases |transforms|
  {
    if transforms == [] then Ok(t) else
      var next :- ApplyTreeTransform(w, t, transforms[0]);
      ApplyTreeTransforms(w, next, transforms[1..])
  }

  /** The tree transforms of a pipeline as a loop. */
  method TransformTree(w: World, t: Tree, transforms: seq<Transform>) returns (r: Result<Tree>)
    ensures r == ApplyTreeTransforms(w, t, transforms)
  {
    var tree := t;
    for i := 0 to |transforms|
      invariant ApplyTreeTransforms(w, t, transforms) == ApplyTreeTransforms(w, tree, transforms[i..])
    {
      assert transforms[i..][1..] == transforms[i + 1..];
      var next := ApplyTreeTransform(w, tree, transforms[i]);
      if next.Err? {
        return next;
      }
      tree := next.value;
    }
    return Ok(tree);
  }

  predicate IsStripped(line: string, keys: seq<string>) {
    exists k :: 0 <= k < |keys| && StartsWith(Trim(line), keys[k] + ":")
  }

  function KeptLines(lines: seq<string>, keys: seq<string>): seq<string> {
    if lines == [] then []
    else (if IsStripped(lines[0], keys) then [] else [lines[0]]) + KeptLines(lines[1..], keys)
  }

  function RewriteOne(w: World, message: string, t: Transform): Result<string>
    requires t.RewriteMessage?
  {
    if t.find.Some? && t.put.Some? && t.useRegex && !w.regexValid(t.find.value) then Err(InvalidRegex) else
      var body := if t.find.Some? && t.put.Some?
                  then RewriteText(w, message, t.find.value, t.put.value, t.useRegex) else message;
      var stripped := if t.stripTrailers == [] then body
                      else Join(KeptLines(Lines(body), t.stripTrailers), "\n");
      var added := Join(t.addTrailers, "\n");
      Ok(if t.addTrailers == [] then stripped
         else if TrimEnd(stripped) == "" then added
         else TrimEnd(stripped) + "\n" + added)
  }

  function ApplyMessageTransforms(w: World, message: string, transforms: seq<Transform>): Result<string>
    decreases |transforms|
  {
    if transforms == [] then Ok(message)
    else if transforms[0].RewriteMessage? then
      var next :- RewriteOne(w, message, transforms[0]);
      ApplyMessageTransforms(w, next, transforms[1..])
    else ApplyMessageTransforms(w, message, transforms[1..])
  }

  /** The message transforms of a pipeline as a loop. */
  method TransformMessage(w: World, message: string, transforms: seq<Transform>) returns (r: Result<string>)
    ensures r == ApplyMessageTransforms(w, message, transforms)
  {
    var text := message;
    for i := 0 to |transforms|
      invariant ApplyMessageTransforms(w, message, transforms) == ApplyMessageTransforms(w, text, transforms[i..])
    {
      assert transforms[i..][1..] == transforms[i + 1..];
      if transforms[i].RewriteMessage? {
        var next := RewriteOne(w, text, transforms[i]);
        if next.Err? {
          return next;
        }
        text := next.value;
      }
    }
    return Ok(text);
  }
}
