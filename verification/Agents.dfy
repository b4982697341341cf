/** Agent runs: invocation, prompt, checkout, and the content-addressed cache of
    what a run produced. */
module Agents {
  import opened Wrappers
  import opened Trees
  import opened Worlds
  import opened Transforms

  datatype HarnessKind = ClaudeCode | Codex | Antigravity | Pi

  function HarnessName(h: HarnessKind): string {
    match h
    case ClaudeCode => "claude_code"
    case Codex => "codex"
    case Antigravity => "antigravity"
    case Pi => "pi"
  }

  datatype AgentInvocation = AgentInvocation(
    harness: HarnessKind, provider: string, modelId: string, credential: Option<string>,
    baseUrl: Option<string>, prompt: string, agentId: string, paths: seq<string>)

  const NUL: char := '\0'

  /** The part of an invocation that decides its cache entry; the credential is
      no part of it. */
  function Identity(inv: AgentInvocation): string {
    HarnessName(inv.harness) + [NUL] + (inv.provider + [NUL] + inv.modelId)
  }

  function RenderPrompt(prompt: string, ctx: PromptContext): string {
    var p0 := ReplaceText(prompt, "{{origin_commit}}", ctx.originCommit);
    var p1 := ReplaceText(p0, "{{origin_message}}", ctx.originMessage);
    var p2 := ReplaceText(p1, "{{changed_files}}", ctx.changedFiles);
    var p3 := ReplaceText(p2, "{{incoming_diff}}", ctx.incomingDiff);
    ReplaceText(p3, "{{repo_context}}", ctx.repoContext)
  }

  // --- the cache key ---

  /** What the key hashes: the subtree id, which has a fixed length, and this
      text.  Hashing is taken to be injective. */
  function Preimage(prompt: string, inv: AgentInvocation): string {
    [NUL] + (prompt + [NUL] + Identity(inv))
  }

  datatype CacheKey = CacheKey(subtree: Tree, preimage: string)

  function KeyOf(subtree: Tree, prompt: string, inv: AgentInvocation): CacheKey {
    CacheKey(subtree, Preimage(prompt, inv))
  }

  /** The hashed text, spelled out: prompt, harness, provider and model, each
      behind a NUL. */
  lemma {:induction false} KeysAreSpelledOut(subtree: Tree, prompt: string, inv: AgentInvocation)
    ensures
      var name := match inv.harness case ClaudeCode => "claude_code" case Codex => "codex" case Antigravity => "antigravity" case Pi => "pi";
      KeyOf(subtree, prompt, inv) ==
      CacheKey(subtree, ("\0" + prompt) + ("\0" + name) + ("\0" + inv.provider) + ("\0" + inv.modelId))
  {
    var name := HarnessName(inv.harness);
    assert [NUL] == "\0";
    assert Preimage(prompt, inv) == ("\0" + prompt) + ("\0" + name) + ("\0" + inv.provider) + ("\0" + inv.modelId);
  }

  predicate NulFree(inv: AgentInvocation) {
    NUL !in inv.provider && NUL !in inv.modelId
  }

  predicate SameAgent(a: AgentInvocation, b: AgentInvocation) {
    a.harness == b.harness && a.provider == b.provider && a.modelId == b.modelId
  }

  /** Cutting off a NUL-free last field is unambiguous. */
  lemma LastFieldIsUnique(a: string, x: string, b: string, y: string)
    requires NUL !in x && NUL !in y
    requires a + [NUL] + x == b + [NUL] + y
    ensures a == b && x == y
  {
    var s := a + [NUL] + x;
    assert s[|a|] == NUL && s[|b|] == NUL;
    assert forall k :: |a| < k < |s| ==> s[k] == x[k - |a| - 1];
    assert forall k :: |b| < k < |s| ==> s[k] == y[k - |b| - 1];
    assert |a| == |b|;
    assert a == s[..|a|] && b == s[..|b|];
    assert x == s[|a| + 1..] && y == s[|b| + 1..];
  }

  lemma {:induction false} HarnessNamesDiffer(a: HarnessKind, b: HarnessKind)
    ensures NUL !in HarnessName(a)
    ensures HarnessName(a) == HarnessName(b) ==> a == b
  {
    assert HarnessName(ClaudeCode)[1] == 'l' && HarnessName(Codex)[1] == 'o';
    assert HarnessName(Antigravity)[1] == 'n' && HarnessName(Pi)[1] == 'i';
  }

  /** The key names the run: with NUL-free provider and model, equal keys have
      equal subtree, prompt, harness, provider and model.  The prompt may hold
      anything. */
  lemma {:induction false} KeysNameTheRun(s: Tree, prompt: string, inv: AgentInvocation, s': Tree, prompt': string, inv': AgentInvocation)
    requires NulFree(inv) && NulFree(inv')
    ensures KeyOf(s, prompt, inv) == KeyOf(s', prompt', inv') <==> s == s' && prompt == prompt' && SameAgent(inv, inv')
  {
    if KeyOf(s, prompt, inv) == KeyOf(s', prompt', inv') {
      var x, y := prompt + [NUL] + HarnessName(inv.harness), prompt' + [NUL] + HarnessName(inv'.harness);
      var xp, yp := x + [NUL] + inv.provider, y + [NUL] + inv'.provider;
      assert Preimage(prompt, inv) == [NUL] + (xp + [NUL] + inv.modelId);
      assert Preimage(prompt', inv') == [NUL] + (yp + [NUL] + inv'.modelId);
      assert Preimage(prompt, inv)[1..] == Preimage(prompt', inv')[1..];
      LastFieldIsUnique(xp, inv.modelId, yp, inv'.modelId);
      LastFieldIsUnique(x, inv.provider, y, inv'.provider);
      HarnessNamesDiffer(inv.harness, inv'.harness);
      HarnessNamesDiffer(inv'.harness, inv.harness);
      LastFieldIsUnique(prompt, HarnessName(inv.harness), prompt', HarnessName(inv'.harness));
    }
  }

  /** Cutting off a NUL-free first field is unambiguous. */
  lemma FirstFieldIsUnique(a: string, x: string, b: string, y: string)
    requires NUL !in a && NUL !in b
    requires a + [NUL] + x == b + [NUL] + y
    ensures a == b && x == y
  {
    var s := a + [NUL] + x;
    assert s[|a|] == NUL && s[|b|] == NUL;
    assert forall k :: 0 <= k < |a| ==> s[k] == a[k];
    assert forall k :: 0 <= k < |b| ==> s[k] == b[k];
    assert |a| == |b|;
    assert a == s[..|a|] && b == s[..|b|];
    assert x == s[|a| + 1..] && y == s[|b| + 1..];
  }

  /** Two NUL-free fields are read off unambiguously, whatever the other text
      was put together from. */
  lemma TwoFieldsAreUnique(a: string, x: string, b: string, y: string)
    requires NUL !in a && NUL !in x
    requires a + [NUL] + x == b + [NUL] + y
    ensures a == b && x == y
  {
    var s := a + [NUL] + x;
    assert s[|b|] == NUL;
    assert forall k :: 0 <= k < |a| ==> s[k] == a[k];
    assert forall k :: |a| < k < |s| ==> s[k] == x[k - |a| - 1];
    assert |a| == |b|;
    assert a == s[..|a|] && b == s[..|b|];
    assert x == s[|a| + 1..] && y == s[|b| + 1..];
  }

  lemma {:induction false} NulFreeKeysAreUnique(s: Tree, prompt: string, a: AgentInvocation, b: AgentInvocation)
    requires NulFree(a) && KeyOf(s, prompt, a) == KeyOf(s, prompt, b)
    ensures SameAgent(a, b)
  {
    var front := [NUL] + (prompt + [NUL]);
    assert Preimage(prompt, a) == front + Identity(a) && Preimage(prompt, b) == front + Identity(b);
    assert Identity(a) == Preimage(prompt, a)[|front|..] == Preimage(prompt, b)[|front|..] == Identity(b);
    HarnessNamesDiffer(a.harness, b.harness);
    HarnessNamesDiffer(b.harness, a.harness);
    var x, y := a.provider + [NUL] + a.modelId, b.provider + [NUL] + b.modelId;
    assert Identity(a) == HarnessName(a.harness) + [NUL] + x && Identity(b) == HarnessName(b.harness) + [NUL] + y;
    FirstFieldIsUnique(HarnessName(a.harness), x, HarnessName(b.harness), y);
    TwoFieldsAreUnique(a.provider, a.modelId, b.provider, b.modelId);
  }

  /** Another agent with the same identity text: the fields are cut elsewhere. */
  lemma {:induction false} NulGivesATwin(a: AgentInvocation) returns (b: AgentInvocation)
    requires !NulFree(a)
    ensures Identity(a) == Identity(b) && !SameAgent(a, b)
  {
    var text := a.provider + [NUL] + a.modelId;
    if NUL in a.provider {
      var i :| 0 <= i < |a.provider| && a.provider[i] == NUL;
      var p, q := a.provider[..i], a.provider[i + 1..];
      b := a.(provider := p, modelId := q + [NUL] + a.modelId);
      assert a.provider == p + [NUL] + q;
      assert text == b.provider + [NUL] + b.modelId;
      assert |b.provider| < |a.provider|;
    } else {
      var i :| 0 <= i < |a.modelId| && a.modelId[i] == NUL;
      var p, q := a.modelId[..i], a.modelId[i + 1..];
      b := a.(provider := a.provider + [NUL] + p, modelId := q);
      assert a.modelId == p + [NUL] + q;
      assert text == b.provider + [NUL] + b.modelId;
      assert |b.provider| > |a.provider|;
    }
  }

  /** For one subtree and prompt, an agent has a key of its own exactly when its
      provider and model hold no NUL. */
  lemma {:induction false} KeysAreOwnExactlyWhenNulFree(s: Tree, prompt: string, a: AgentInvocation)
    ensures NulFree(a) <==> forall b :: KeyOf(s, prompt, a) == KeyOf(s, prompt, b) ==> SameAgent(a, b)
  {
    if NulFree(a) {
      forall b | KeyOf(s, prompt, a) == KeyOf(s, prompt, b) ensures SameAgent(a, b) {
        NulFreeKeysAreUnique(s, prompt, a, b);
      }
    } else {
      var b := NulGivesATwin(a);
      assert KeyOf(s, prompt, a) == KeyOf(s, prompt, b);
    }
  }

  // --- checkout and read-back ---

  const FILEMODE_BLOB := 0x81A4             // octal 100644
  const FILEMODE_BLOB_EXECUTABLE := 0x81ED  // octal 100755

  /** The working directory an agent edits: blobs become regular files that are
      executable or not, directories are created, everything else is skipped. */
  function Checkout(t: Tree): Tree {
    Tree(map name | name in t.entries && !t.entries[name].Other? ::
      match t.entries[name]
      case Dir(sub) => Dir(Checkout(sub))
      case Blob(content, mode) =>
        Blob(content, if mode == FILEMODE_BLOB_EXECUTABLE then FILEMODE_BLOB_EXECUTABLE else FILEMODE_BLOB)
      case Other(_) => t.entries[name])
  }

  /** Reading a working directory back into a tree drops empty directories. */
  function ReadBack(dir: Tree): Tree {
    Tree(map name | name in dir.entries
        && (dir.entries[name].Blob? || (dir.entries[name].Dir? && ReadBack(dir.entries[name].tree).entries != map[])) ::
      match dir.entries[name]
      case Dir(sub) => Dir(ReadBack(sub))
      case _ => dir.entries[name])
  }

  /** The loop that writes a tree out. */
  method CheckoutTree(t: Tree) returns (dir: Tree)
    ensures dir == Checkout(t)
    decreases t
  {
    var written: map<string, Entry> := map[];
    var todo := t.entries.Keys;
    while todo != {}
      invariant todo <= t.entries.Keys
      invariant forall n :: n in written <==> n in t.entries && n !in todo && !t.entries[n].Other?
      invariant forall n <- written :: written[n] == Checkout(t).entries[n]
    {
      var name :| name in todo;
      todo := todo - {name};
      match t.entries[name] {
        case Dir(sub) =>
          var below := CheckoutTree(sub);
          written := written[name := Dir(below)];
        case Blob(content, mode) =>
          written := written[name := Blob(content, if mode == FILEMODE_BLOB_EXECUTABLE then FILEMODE_BLOB_EXECUTABLE else FILEMODE_BLOB)];
        case Other(_) =>
      }
    }
    assert written == Checkout(t).entries;
    dir := Tree(written);
  }

  /** The loop that reads a directory back. */
  method ReadTree(dir: Tree) returns (t: Tree)
    ensures t == ReadBack(dir)
    decreases dir
  {
    var builder: map<string, Entry> := map[];
    var todo := dir.entries.Keys;
    while todo != {}
      invariant todo <= dir.entries.Keys
      invariant forall n :: n in builder <==> n !in todo && n in ReadBack(dir).entries
      invariant forall n <- builder :: builder[n] == ReadBack(dir).entries[n]
    {
      var name :| name in todo;
      todo := todo - {name};
      match dir.entries[name] {
        case Dir(sub) =>
          var child := ReadTree(sub);
          if child.entries != map[] {
            builder := builder[name := Dir(child)];
          }
        case Blob(_, _) =>
          builder := builder[name := dir.entries[name]];
        case Other(_) =>
      }
    }
    assert builder == ReadBack(dir).entries;
    t := Tree(builder);
  }

  /** Trees a working directory can hold: regular and executable files, and
      directories that are not empty. */
  predicate Editable(t: Tree) {
    forall name <- t.entries ::
      match t.entries[name]
      case Blob(_, mode) => mode == FILEMODE_BLOB || mode == FILEMODE_BLOB_EXECUTABLE
      case Dir(sub) => sub.entries != map[] && Editable(sub)
      case Other(_) => false
  }

  /** Checkout followed by read-back is the identity exactly on editable trees,
      so an agent that changes nothing makes no commit exactly there. */
  lemma {:induction false} CheckoutRoundTrip(t: Tree)
    ensures ReadBack(Checkout(t)) == t <==> Editable(t)
    decreases t
  {
    forall name | name in t.entries && t.entries[name].Dir?
      ensures ReadBack(Checkout(t.entries[name].tree)) == t.entries[name].tree <==> Editable(t.entries[name].tree)
    {
      CheckoutRoundTrip(t.entries[name].tree);
    }
    RoundTripByEntry(t);
  }

  lemma {:induction false} RoundTripByEntry(t: Tree)
    requires forall name :: name in t.entries && t.entries[name].Dir? ==>
      (ReadBack(Checkout(t.entries[name].tree)) == t.entries[name].tree <==> Editable(t.entries[name].tree))
    ensures ReadBack(Checkout(t)) == t <==> Editable(t)
  {
    forall name | name in t.entries ensures KeepsEntry(t, name) <==> EditableEntry(t.entries[name]) {
      EntryRoundTrip(t, name);
    }
    if Editable(t) {
      assert ReadBack(Checkout(t)).entries == t.entries;
    } else {
      var name :| name in t.entries && !EditableEntry(t.entries[name]);
      assert !KeepsEntry(t, name);
    }
  }

  predicate EditableEntry(entry: Entry) {
    match entry
    case Blob(_, mode) => mode == FILEMODE_BLOB || mode == FILEMODE_BLOB_EXECUTABLE
    case Dir(sub) => sub.entries != map[] && Editable(sub)
    case Other(_) => false
  }

  predicate KeepsEntry(t: Tree, name: string)
    requires name in t.entries
  {
    var back := ReadBack(Checkout(t));
    name in back.entries && back.entries[name] == t.entries[name]
  }

  lemma {:induction false} EntryRoundTrip(t: Tree, name: string)
    requires name in t.entries
    requires t.entries[name].Dir? ==>
      (ReadBack(Checkout(t.entries[name].tree)) == t.entries[name].tree <==> Editable(t.entries[name].tree))
    ensures KeepsEntry(t, name) <==> EditableEntry(t.entries[name])
  {
  }

  // --- materializing a run ---

  /** A runner edits a working directory.  It may answer differently on every
      call, so it is given the number of calls made before; `None` is an error. */
  type Runner = (nat, AgentInvocation, string, Tree) -> Option<Tree>

  datatype AgentState = AgentState(cache: map<CacheKey, Bytes>, calls: nat)

  datatype Materialized = Materialized(patch: Bytes, hit: bool)

  function DiffTrees(w: World, before: Tree, after: Tree): Bytes {
    if before == after then [] else w.diff(before, after)
  }

  /** The patch of an agent run on `before`: from the cache, or by running the
      agent and recording the outcome. */
  function Materialize(w: World, before: Tree, prompt: string, inv: AgentInvocation, runner: Runner,
                       refresh: bool, st: AgentState): (Result<Materialized>, AgentState)
  {
    var key := KeyOf(before, prompt, inv);
    if !refresh && key in st.cache then (Ok(Materialized(st.cache[key], true)), st)
    else
      match runner(st.calls, inv, prompt, Checkout(before))
      case None => (Err(AgentFailed), st.(calls := st.calls + 1))
      case Some(edited) =>
        var patch := DiffTrees(w, before, ReadBack(edited));
        (Ok(Materialized(patch, false)), AgentState(st.cache[key := patch], st.calls + 1))
  }

  /** The runner's answer depends on the agent, the prompt and the directory
      only. */
  ghost predicate Deterministic(runner: Runner) {
    forall m, n, a, b, prompt, dir ::
      SameAgent(a, b) ==> runner(m, a, prompt, dir) == runner(n, b, prompt, dir)
  }

  /** Every entry holds what the runner would produce. */
  ghost predicate Consistent(w: World, runner: Runner, cache: map<CacheKey, Bytes>) {
    forall before, prompt, inv {:trigger KeyOf(before, prompt, inv)} ::
      NulFree(inv) && KeyOf(before, prompt, inv) in cache ==>
        var edited := runner(0, inv, prompt, Checkout(before));
        edited.Some? && cache[KeyOf(before, prompt, inv)] == DiffTrees(w, before, ReadBack(edited.value))
  }

  /** The outcome of a run, whether or not the cache is asked. */
  function FreshRun(w: World, before: Tree, prompt: string, inv: AgentInvocation, runner: Runner): Result<Bytes> {
    match runner(0, inv, prompt, Checkout(before))
    case None => Err(AgentFailed)
    case Some(edited) => Ok(DiffTrees(w, before, ReadBack(edited)))
  }

  /** With a deterministic runner and a consistent cache, the cache cannot be
      seen in the outcome, and stays consistent. */
  lemma {:induction false} CacheIsTransparent(w: World, before: Tree, prompt: string, inv: AgentInvocation, runner: Runner, refresh: bool, st: AgentState)
    requires NulFree(inv) && Deterministic(runner) && Consistent(w, runner, st.cache)
    ensures
      var (r, st') := Materialize(w, before, prompt, inv, runner, refresh, st);
      && (match r case Ok(m) => FreshRun(w, before, prompt, inv, runner) == Ok(m.patch)
                  case Err(e) => FreshRun(w, before, prompt, inv, runner) == Err(e))
      && Consistent(w, runner, st'.cache)
  {
    var (r, st') := Materialize(w, before, prompt, inv, runner, refresh, st);
    var key := KeyOf(before, prompt, inv);
    assert runner(st.calls, inv, prompt, Checkout(before)) == runner(0, inv, prompt, Checkout(before)) by {
      assert SameAgent(inv, inv);
    }
    if st'.cache != st.cache {
      forall before', prompt', inv' | NulFree(inv') && KeyOf(before', prompt', inv') in st'.cache
        ensures var edited := runner(0, inv', prompt', Checkout(before'));
          edited.Some? && st'.cache[KeyOf(before', prompt', inv')] == DiffTrees(w, before', ReadBack(edited.value))
      {
        if KeyOf(before', prompt', inv') == key {
          KeysNameTheRun(before, prompt, inv, before', prompt', inv');
          assert runner(0, inv', prompt', Checkout(before')) == runner(0, inv, prompt, Checkout(before));
        }
      }
    }
  }

  /** Without `refresh`, entries are written once and never change. */
  lemma {:induction false} EntriesAreWriteOnce(w: World, before: Tree, prompt: string, inv: AgentInvocation, runner: Runner, st: AgentState)
    ensures
      var (r, st') := Materialize(w, before, prompt, inv, runner, false, st);
      && st.cache.Keys <= st'.cache.Keys
      && (forall key <- st.cache :: st'.cache[key] == st.cache[key])
      && (r.Ok? ==> KeyOf(before, prompt, inv) in st'.cache && st'.cache[KeyOf(before, prompt, inv)] == r.value.patch)
  {
  }
}
