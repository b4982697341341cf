/** What a tip layer does: the chain of trees its patches and agent edits lead
    through, the commits it makes of them, and what it asks of the agents. */
module LayerLaws {
  import opened Wrappers
  import opened Trailers
  import opened Trees
  import opened Paths
  import opened Worlds
  import opened Transforms
  import opened TransformLaws
  import opened Histories
  import opened Mirror
  import opened Agents
  import opened TipLayers
  import opened Imports
  import opened Messages
  import MirrorLaws

  // --- prompts ---

  /** The prompt with the five context variables replaced, one after the other;
      everything else stays. */
  ghost predicate Rendered(prompt: string, ctx: PromptContext, r: string) {
    exists a, b, c, d ::
      && Replaced(prompt, "{{origin_commit}}", ctx.originCommit, a)
      && Replaced(a, "{{origin_message}}", ctx.originMessage, b)
      && Replaced(b, "{{changed_files}}", ctx.changedFiles, c)
      && Replaced(c, "{{incoming_diff}}", ctx.incomingDiff, d)
      && Replaced(d, "{{repo_context}}", ctx.repoContext, r)
  }

  lemma {:induction false} PromptsAreRendered(prompt: string, ctx: PromptContext)
    ensures Rendered(prompt, ctx, RenderPrompt(prompt, ctx))
  {
    ReplaceTextReplaces(prompt, "{{origin_commit}}", ctx.originCommit);
    var a := ReplaceText(prompt, "{{origin_commit}}", ctx.originCommit);
    ReplaceTextReplaces(a, "{{origin_message}}", ctx.originMessage);
    var b := ReplaceText(a, "{{origin_message}}", ctx.originMessage);
    ReplaceTextReplaces(b, "{{changed_files}}", ctx.changedFiles);
    var c := ReplaceText(b, "{{changed_files}}", ctx.changedFiles);
    ReplaceTextReplaces(c, "{{incoming_diff}}", ctx.incomingDiff);
    var d := ReplaceText(c, "{{incoming_diff}}", ctx.incomingDiff);
    ReplaceTextReplaces(d, "{{repo_context}}", ctx.repoContext);
  }

  // --- working directories ---

  /** The file an agent finds at a path: a regular file, executable or not. */
  function CheckedOutFile(t: Tree, path: seq<string>): Option<Entry> {
    match FileAt(t, path)
    case Some(Blob(content, mode)) => Some(Blob(content, if mode == 0x81ED then 0x81ED else 0x81A4))
    case _ => None
  }

  /** Checking out writes every blob and makes every directory, and skips what is
      neither. */
  lemma {:induction false} CheckoutWrites(t: Tree, path: seq<string>)
    ensures FileAt(Checkout(t), path) == CheckedOutFile(t, path)
    ensures SubtreeAt(Checkout(t), path).Some? <==> SubtreeAt(t, path).Some?
    decreases |path|
  {
    if path != [] && path[0] in t.entries && t.entries[path[0]].Dir? {
      CheckoutWrites(t.entries[path[0]].tree, path[1..]);
      if |path| == 1 {
        assert path[1..] == [];
      }
    }
  }

  /** Reading back takes every file with its content and mode, and no directory
      that holds none. */
  lemma {:induction false} ReadBackReads(dir: Tree, path: seq<string>)
    ensures FileAt(ReadBack(dir), path) == if FileAt(dir, path).Some? && FileAt(dir, path).value.Blob? then FileAt(dir, path) else None
    ensures NoEmptyDirs(ReadBack(dir))
    decreases dir, |path|
  {
    forall n | n in ReadBack(dir).entries && ReadBack(dir).entries[n].Dir? ensures Full(ReadBack(dir).entries[n]) {
      ReadBackReads(dir.entries[n].tree, []);
    }
    if path != [] && path[0] in dir.entries && dir.entries[path[0]].Dir? {
      ReadBackReads(dir.entries[path[0]].tree, path[1..]);
      NothingBelowEmpty(path[1..]);
      if |path| == 1 {
        assert path[1..] == [];
      }
    }
  }

  // --- one edit ---

  /** One edit of the tree at the destination: its patch, whether the cache gave
      it, the tree it leaves and the agents after it. */
  datatype Edit = Edit(patch: Bytes, hit: bool, after: Tree, agents: AgentState)

  /** An agent edit of `before` takes its patch from the cache, if that has one for
      this tree, prompt and agent and is not to be refreshed; otherwise it is the
      diff to what the agent leaves, which is recorded. */
  ghost predicate AgentEdits(env: LayerEnv, inv: AgentInvocation, prompt: string, before: Tree, st: AgentState, e: Edit) {
    var key := KeyOf(before, prompt, inv);
    if !env.refresh && key in st.cache then e.hit && e.patch == st.cache[key] && e.agents == st
    else
      var edited := env.runner(st.calls, inv, prompt, Checkout(before));
      && !e.hit && edited.Some?
      && e.patch == (if ReadBack(edited.value) == before then [] else env.w.diff(before, ReadBack(edited.value)))
      && e.agents == AgentState(st.cache[key := e.patch], st.calls + 1)
  }

  /** A patch applies as it is; an agent edit without a patch changes nothing. */
  ghost predicate Edits(env: LayerEnv, tip: TipTransform, before: Tree, st: AgentState, e: Edit) {
    match tip
    case PatchTip(file) => e.patch == file.bytes && env.w.applyPatch(before, e.patch) == Some(e.after) && e.agents == st
    case AgentTip(inv) =>
      && (exists prompt :: Rendered(inv.prompt, env.ctx, prompt) && AgentEdits(env, inv, prompt, before, st, e))
      && if e.patch == [] then e.after == before else env.w.applyPatch(before, e.patch) == Some(e.after)
  }

  /** Why an edit fails: the patch is rejected, or the agent. */
  ghost predicate FailsToEdit(env: LayerEnv, tip: TipTransform, before: Tree, st: AgentState, error: Failure, st': AgentState) {
    match tip
    case PatchTip(file) => env.w.applyPatch(before, file.bytes).None? && error == PatchRejected && st' == st
    case AgentTip(inv) =>
      exists prompt :: Rendered(inv.prompt, env.ctx, prompt) && AgentFails(env, inv, prompt, before, st, error, st')
  }

  /** A failed agent records nothing; a patch that is rejected stays recorded. */
  ghost predicate AgentFails(env: LayerEnv, inv: AgentInvocation, prompt: string, before: Tree, st: AgentState, error: Failure, st': AgentState) {
    || ((env.refresh || KeyOf(before, prompt, inv) !in st.cache)
        && env.runner(st.calls, inv, prompt, Checkout(before)).None? && error == AgentFailed && st' == AgentState(st.cache, st.calls + 1))
    || exists e :: AgentEdits(env, inv, prompt, before, st, e) && e.patch != [] && env.w.applyPatch(before, e.patch).None?
         && error == PatchRejected && st' == e.agents
  }

  predicate MakesNoCommit(tip: TipTransform, e: Edit) {
    tip.AgentTip? && e.patch == []
  }

  /** The commit an edit makes on `head`, if it makes one. */
  ghost predicate CommitOf(env: LayerEnv, tip: TipTransform, head: Commit, after: Tree, c: Commit) {
    && c.parents == [head]
    && c.author == Signature("CapyFun", "capyfun@tinytree.dev", 0) && c.committer == c.author
    && c.message == (match tip
                     case PatchTip(patch) => "Apply patch " + patch.path + ("\n\nCapyFun-Patch: " + patch.path)
                     case AgentTip(inv) => "Apply agent_transform " + inv.agentId + ("\n\nCapyFun-Agent: " + inv.agentId))
                    + ("\nCapyFun-Import: " + env.dest + "\n")
    && SubtreeAt(c.tree, Segments(env.dest)) == Some(after)
    && forall elsewhere :: Incomparable(Segments(env.dest), elsewhere) ==> EntryAt(c.tree, elsewhere) == EntryAt(head.tree, elsewhere)
  }

  /** The outcome after an edit: its commit on the head, and the tallies of the
      commits made of patches and of agent edits, of cached edits and of runs. */
  ghost predicate Outcomes(env: LayerEnv, tip: TipTransform, o: TipOutcome, e: Edit, o': TipOutcome) {
    && (if MakesNoCommit(tip, e) then o'.head == o.head else CommitOf(env, tip, o.head, e.after, o'.head))
    && o'.patchCommits == o.patchCommits + (if tip.PatchTip? then 1 else 0)
    && o'.agentCommits == o.agentCommits + (if tip.AgentTip? && e.patch != [] then 1 else 0)
    && o'.cacheHits == o.cacheHits + (if tip.AgentTip? && e.hit then 1 else 0)
    && o'.cacheMisses == o.cacheMisses + (if tip.AgentTip? && !e.hit then 1 else 0)
  }

  lemma {:induction false} PatchCommitIs(env: LayerEnv, head: Commit, before: Tree, bytes: Bytes, message: string)
    requires IsRelPath(env.dest) && SubtreeAt(head.tree, Segments(env.dest)) == Some(before)
    ensures
      match PatchCommit(env, head, bytes, message)
      case Ok(c) =>
        && env.w.applyPatch(before, bytes).Some?
        && c.parents == [head] && c.author == c.committer == Signature("CapyFun", "capyfun@tinytree.dev", 0) && c.message == message
        && SubtreeAt(c.tree, Segments(env.dest)) == env.w.applyPatch(before, bytes)
        && forall elsewhere :: Incomparable(Segments(env.dest), elsewhere) ==> EntryAt(c.tree, elsewhere) == EntryAt(head.tree, elsewhere)
      case Err(e) => e == PatchRejected && env.w.applyPatch(before, bytes).None?
  {
    var path := Segments(env.dest);
    var patched := env.w.applyPatch(before, bytes);
    if patched.Some? {
      SpliceThenRead(head.tree, path, patched.value, []);
      forall elsewhere | Incomparable(path, elsewhere)
        ensures EntryAt(Splice(head.tree, path, patched.value), elsewhere) == EntryAt(head.tree, elsewhere)
      {
        SpliceFrame(head.tree, path, patched.value, elsewhere);
      }
    }
  }

  lemma {:induction false} TipMessageIs(tip: TipTransform, dest: string)
    ensures TipMessage(tip, dest) ==
            (match tip
             case PatchTip(patch) => "Apply patch " + patch.path + ("\n\nCapyFun-Patch: " + patch.path)
             case AgentTip(inv) => "Apply agent_transform " + inv.agentId + ("\n\nCapyFun-Agent: " + inv.agentId))
            + ("\nCapyFun-Import: " + dest + "\n")
  {
    match tip {
      case PatchTip(patch) =>
        MirrorLaws.OwnMessageIs("Apply patch ", PATCH_TRAILER, patch.path, dest);
        assert "\n\n" + PATCH_TRAILER + ": " == "\n\nCapyFun-Patch: ";
      case AgentTip(inv) =>
        MirrorLaws.OwnMessageIs("Apply agent_transform ", AGENT_TRAILER, inv.agentId, dest);
        assert "\n\n" + AGENT_TRAILER + ": " == "\n\nCapyFun-Agent: ";
    }
  }

  /** One step of the layer is an edit and its outcome, or fails as one. */
  lemma {:induction false} StepEdits(env: LayerEnv, tip: TipTransform, o: TipOutcome, st: AgentState, before: Tree) returns (e: Edit)
    requires IsRelPath(env.dest) && SubtreeAt(o.head.tree, Segments(env.dest)) == Some(before)
    ensures
      var run := TipStep(env, tip, TipRun(Ok(o), st));
      match run.outcome
      case Ok(o') => Edits(env, tip, before, st, e) && Outcomes(env, tip, o, e, o') && run.agents == e.agents
                     && SubtreeAt(o'.head.tree, Segments(env.dest)) == Some(e.after)
      case Err(error) => FailsToEdit(env, tip, before, st, error, run.agents)
  {
    match tip {
      case PatchTip(patch) =>
        PatchCommitIs(env, o.head, before, patch.bytes, PatchMessage(patch.path, env.dest));
        TipMessageIs(tip, env.dest);
        var patched := env.w.applyPatch(before, patch.bytes);
        e := Edit(patch.bytes, false, if patched.Some? then patched.value else before, st);
      case AgentTip(inv) =>
        e := AgentStepEdits(env, inv, o, st, before);
    }
  }

  /** Materializing is an agent edit, or the failure of the agent. */
  lemma {:induction false} MaterializeEdits(env: LayerEnv, inv: AgentInvocation, prompt: string, before: Tree, st: AgentState, after: Tree)
    ensures
      var (m, st') := Materialize(env.w, before, prompt, inv, env.runner, env.refresh, st);
      match m
      case Ok(m) => AgentEdits(env, inv, prompt, before, st, Edit(m.patch, m.hit, after, st'))
      case Err(error) => AgentFails(env, inv, prompt, before, st, error, st')
  {
  }

  lemma {:induction false} AgentPatchCommits(env: LayerEnv, inv: AgentInvocation, o: TipOutcome, before: Tree, hit: bool, patch: Bytes) returns (after: Tree)
    requires IsRelPath(env.dest) && SubtreeAt(o.head.tree, Segments(env.dest)) == Some(before)
    ensures
      match CommitAgentPatch(env, inv, Tally(o, hit), patch)
      case Ok(o') =>
        && (if patch == [] then after == before else env.w.applyPatch(before, patch) == Some(after))
        && SubtreeAt(o'.head.tree, Segments(env.dest)) == Some(after)
        && forall agents :: Outcomes(env, AgentTip(inv), o, Edit(patch, hit, after, agents), o')
      case Err(error) => error == PatchRejected && patch != [] && env.w.applyPatch(before, patch).None?
  {
    after := before;
    if patch != [] {
      PatchCommitIs(env, o.head, before, patch, AgentMessage(inv.agentId, env.dest));
      TipMessageIs(AgentTip(inv), env.dest);
      var patched := env.w.applyPatch(before, patch);
      after := if patched.Some? then patched.value else before;
    }
  }

  lemma {:induction false} AgentStepEdits(env: LayerEnv, inv: AgentInvocation, o: TipOutcome, st: AgentState, before: Tree) returns (e: Edit)
    requires IsRelPath(env.dest) && SubtreeAt(o.head.tree, Segments(env.dest)) == Some(before)
    ensures
      var run, tip := AgentStep(env, inv, o, st), AgentTip(inv);
      match run.outcome
      case Ok(o') => Edits(env, tip, before, st, e) && Outcomes(env, tip, o, e, o') && run.agents == e.agents
                     && SubtreeAt(o'.head.tree, Segments(env.dest)) == Some(e.after)
      case Err(error) => FailsToEdit(env, tip, before, st, error, run.agents)
  {
    var prompt := RenderPrompt(inv.prompt, env.ctx);
    PromptsAreRendered(inv.prompt, env.ctx);
    var (m, st') := Materialize(env.w, before, prompt, inv, env.runner, env.refresh, st);
    MaterializeEdits(env, inv, prompt, before, st, before);
    e := Edit([], false, before, st');
    if m.Ok? {
      var after := AgentPatchCommits(env, inv, o, before, m.value.hit, m.value.patch);
      MaterializeEdits(env, inv, prompt, before, st, after);
      e := Edit(m.value.patch, m.value.hit, after, st');
    }
  }

  // --- the layer ---

  /** The edits of a layer, one after the other, from the tree and the agents it
      starts with, and the outcomes between them. */
  ghost predicate LayerGoes(env: LayerEnv, tips: seq<TipTransform>, mirrorTip: Commit, before: Tree, st: AgentState,
                            edits: seq<Edit>, os: seq<TipOutcome>) {
    && |edits| == |tips| && |os| == |tips| + 1 && os[0] == TipOutcome(mirrorTip, 0, 0, 0, 0)
    && forall k :: 0 <= k < |tips| ==> EditAt(env, tips, before, st, edits, os, k)
  }

  function TreeAfter(before: Tree, edits: seq<Edit>): Tree {
    if edits == [] then before else edits[|edits| - 1].after
  }

  function AgentsAfter(st: AgentState, edits: seq<Edit>): AgentState {
    if edits == [] then st else edits[|edits| - 1].agents
  }

  ghost predicate EditAt(env: LayerEnv, tips: seq<TipTransform>, before: Tree, st: AgentState, edits: seq<Edit>, os: seq<TipOutcome>, k: nat)
    requires k < |tips| == |edits| && |os| == |tips| + 1
  {
    && Edits(env, tips[k], TreeAfter(before, edits[..k]), AgentsAfter(st, edits[..k]), edits[k])
    && Outcomes(env, tips[k], os[k], edits[k], os[k + 1])
  }

  lemma {:induction false} EditStays(env: LayerEnv, tips: seq<TipTransform>, before: Tree, st: AgentState,
                                     edits: seq<Edit>, os: seq<TipOutcome>, e: Edit, o: TipOutcome, k: nat)
    requires tips != [] && |edits| == |tips| - 1 && |os| == |tips| && k < |edits|
    requires EditAt(env, tips[..|tips| - 1], before, st, edits, os, k)
    ensures EditAt(env, tips, before, st, edits + [e], os + [o], k)
  {
    assert (edits + [e])[..k] == edits[..k];
  }

  lemma {:induction false} EditLast(env: LayerEnv, tips: seq<TipTransform>, before: Tree, st: AgentState,
                                    edits: seq<Edit>, os: seq<TipOutcome>, e: Edit, o: TipOutcome)
    requires tips != [] && |edits| == |tips| - 1 && |os| == |tips|
    requires Edits(env, tips[|tips| - 1], TreeAfter(before, edits), AgentsAfter(st, edits), e)
    requires Outcomes(env, tips[|tips| - 1], os[|tips| - 1], e, o)
    ensures EditAt(env, tips, before, st, edits + [e], os + [o], |edits|)
  {
    assert (edits + [e])[..|edits|] == edits;
  }

  lemma {:induction false} LayerGoesOn(env: LayerEnv, tips: seq<TipTransform>, mirrorTip: Commit, before: Tree, st: AgentState,
                                       edits: seq<Edit>, os: seq<TipOutcome>, e: Edit, o: TipOutcome)
    requires tips != [] && LayerGoes(env, tips[..|tips| - 1], mirrorTip, before, st, edits, os)
    requires Edits(env, tips[|tips| - 1], TreeAfter(before, edits), AgentsAfter(st, edits), e)
    requires Outcomes(env, tips[|tips| - 1], os[|tips| - 1], e, o)
    ensures LayerGoes(env, tips, mirrorTip, before, st, edits + [e], os + [o])
  {
    EditLast(env, tips, before, st, edits, os, e, o);
    forall k | 0 <= k < |edits| ensures EditAt(env, tips, before, st, edits + [e], os + [o], k) {
      EditStays(env, tips, before, st, edits, os, e, o, k);
    }
  }

  /** How a layer ends: all its edits done, or the error of the first one that
      fails. */
  ghost predicate LayerEnds(env: LayerEnv, tips: seq<TipTransform>, mirrorTip: Commit, before: Tree, st: AgentState,
                            edits: seq<Edit>, os: seq<TipOutcome>, run: TipRun) {
    match run.outcome
    case Ok(o) =>
      && LayerGoes(env, tips, mirrorTip, before, st, edits, os)
      && o == os[|tips|] && run.agents == AgentsAfter(st, edits)
      && SubtreeAt(o.head.tree, Segments(env.dest)) == Some(TreeAfter(before, edits))
    case Err(error) =>
      && |edits| < |tips| && LayerGoes(env, tips[..|edits|], mirrorTip, before, st, edits, os)
      && FailsToEdit(env, tips[|edits|], TreeAfter(before, edits), AgentsAfter(st, edits), error, run.agents)
  }

  /** A layer on a tree at the destination does its edits in order, each on the
      tree the one before left, with a commit for each that changes something; it
      ends with the error of the first edit that fails. */
  lemma {:induction false} LayersEdit(env: LayerEnv, tips: seq<TipTransform>, mirrorTip: Commit, before: Tree, st: AgentState)
      returns (edits: seq<Edit>, os: seq<TipOutcome>)
    requires IsRelPath(env.dest) && SubtreeAt(mirrorTip.tree, Segments(env.dest)) == Some(before)
    ensures LayerEnds(env, tips, mirrorTip, before, st, edits, os, LayerOn(env, tips, mirrorTip, st))
    decreases |tips|
  {
    if tips == [] {
      edits, os := [], [TipOutcome(mirrorTip, 0, 0, 0, 0)];
    } else {
      var n := |tips| - 1;
      edits, os := LayersEdit(env, tips[..n], mirrorTip, before, st);
      var run := LayerOn(env, tips[..n], mirrorTip, st);
      assert LayerOn(env, tips, mirrorTip, st) == TipStep(env, tips[n], run);
      if run.outcome.Err? {
        EndedEarlier(env, tips, mirrorTip, before, st, edits, os, run);
      } else {
        EndedWell(env, tips[..n], mirrorTip, before, st, edits, os, run);
        edits, os := LastEdit(env, tips, mirrorTip, before, st, edits, os);
      }
    }
  }

  lemma {:induction false} EndedEarlier(env: LayerEnv, tips: seq<TipTransform>, mirrorTip: Commit, before: Tree, st: AgentState,
                                        edits: seq<Edit>, os: seq<TipOutcome>, run: TipRun)
    requires tips != [] && LayerEnds(env, tips[..|tips| - 1], mirrorTip, before, st, edits, os, run) && run.outcome.Err?
    ensures LayerEnds(env, tips, mirrorTip, before, st, edits, os, run)
  {
    var n := |tips| - 1;
    assert tips[..n][..|edits|] == tips[..|edits|] && tips[..n][|edits|] == tips[|edits|];
  }

  lemma {:induction false} EndedWell(env: LayerEnv, tips: seq<TipTransform>, mirrorTip: Commit, before: Tree, st: AgentState,
                                     edits: seq<Edit>, os: seq<TipOutcome>, run: TipRun)
    requires LayerEnds(env, tips, mirrorTip, before, st, edits, os, run) && run.outcome.Ok?
    ensures LayerGoes(env, tips, mirrorTip, before, st, edits, os) && run == TipRun(Ok(os[|tips|]), AgentsAfter(st, edits))
    ensures SubtreeAt(os[|tips|].head.tree, Segments(env.dest)) == Some(TreeAfter(before, edits))
  {
  }

  lemma {:induction false} LastEdit(env: LayerEnv, tips: seq<TipTransform>, mirrorTip: Commit, before: Tree, st: AgentState,
                                    older: seq<Edit>, os: seq<TipOutcome>) returns (edits: seq<Edit>, os': seq<TipOutcome>)
    requires IsRelPath(env.dest) && tips != [] && LayerGoes(env, tips[..|tips| - 1], mirrorTip, before, st, older, os)
    requires SubtreeAt(os[|tips| - 1].head.tree, Segments(env.dest)) == Some(TreeAfter(before, older))
    ensures LayerEnds(env, tips, mirrorTip, before, st, edits, os',
                      TipStep(env, tips[|tips| - 1], TipRun(Ok(os[|tips| - 1]), AgentsAfter(st, older))))
  {
    var n := |tips| - 1;
    var next := TipStep(env, tips[n], TipRun(Ok(os[n]), AgentsAfter(st, older)));
    var e := StepEdits(env, tips[n], os[n], AgentsAfter(st, older), TreeAfter(before, older));
    match next.outcome {
      case Ok(o) =>
        LayerGoesOn(env, tips, mirrorTip, before, st, older, os, e, o);
        edits, os' := older + [e], os + [o];
        EndsWell(env, tips, mirrorTip, before, st, edits, os', o);
        assert next == TipRun(Ok(o), AgentsAfter(st, edits));
      case Err(error) =>
        edits, os' := older, os;
        EndsBadly(env, tips, mirrorTip, before, st, older, os, error, next.agents);
        assert next == TipRun(Err(error), next.agents);
    }
  }

  lemma {:induction false} EndsWell(env: LayerEnv, tips: seq<TipTransform>, mirrorTip: Commit, before: Tree, st: AgentState,
                                    edits: seq<Edit>, os: seq<TipOutcome>, o: TipOutcome)
    requires LayerGoes(env, tips, mirrorTip, before, st, edits, os) && o == os[|tips|]
    requires SubtreeAt(o.head.tree, Segments(env.dest)) == Some(TreeAfter(before, edits))
    ensures LayerEnds(env, tips, mirrorTip, before, st, edits, os, TipRun(Ok(o), AgentsAfter(st, edits)))
  {
  }

  lemma {:induction false} EndsBadly(env: LayerEnv, tips: seq<TipTransform>, mirrorTip: Commit, before: Tree, st: AgentState,
                                     edits: seq<Edit>, os: seq<TipOutcome>, error: Failure, agents: AgentState)
    requires |edits| < |tips| && LayerGoes(env, tips[..|edits|], mirrorTip, before, st, edits, os)
    requires FailsToEdit(env, tips[|edits|], TreeAfter(before, edits), AgentsAfter(st, edits), error, agents)
    ensures LayerEnds(env, tips, mirrorTip, before, st, edits, os, TipRun(Err(error), agents))
  {
  }

  /** Without a directory at the destination no edit is made. */
  lemma {:induction false} LayersNeedTheDestination(env: LayerEnv, tips: seq<TipTransform>, mirrorTip: Commit, st: AgentState)
    requires IsRelPath(env.dest) && SubtreeAt(mirrorTip.tree, Segments(env.dest)) == None && tips != []
    ensures LayerOn(env, tips, mirrorTip, st) == TipRun(Err(MissingDestination), st)
    decreases |tips|
  {
    if |tips| > 1 {
      LayersNeedTheDestination(env, tips[..|tips| - 1], mirrorTip, st);
    } else {
      assert tips[..0] == [];
    }
  }

  // --- a layer of patches ---

  /** The patches, one after the other, lead from `ts[0]` through `ts`. */
  ghost predicate PatchesLead(w: World, patches: seq<PatchFile>, ts: seq<Tree>) {
    |ts| == |patches| + 1 && forall k :: 0 <= k < |patches| ==> w.applyPatch(ts[k], patches[k].bytes) == Some(ts[k + 1])
  }

  /** One commit per patch, in order, under its label and with the tree it leads to. */
  ghost predicate PatchCommits(dest: string, patches: seq<PatchFile>, ts: seq<Tree>, base: Commit, commits: seq<Commit>) {
    && |commits| == |patches| == |ts| - 1
    && forall k :: 0 <= k < |patches| ==> PatchCommitAt(dest, patches[k], ts[k + 1], base, commits[k])
  }

  ghost predicate PatchCommitAt(dest: string, patch: PatchFile, after: Tree, base: Commit, c: Commit) {
    && c.author == Signature("CapyFun", "capyfun@tinytree.dev", 0) && c.committer == c.author
    && c.message == "Apply patch " + patch.path + ("\n\nCapyFun-Patch: " + patch.path) + ("\nCapyFun-Import: " + dest + "\n")
    && SubtreeAt(c.tree, Segments(dest)) == Some(after)
    && forall elsewhere :: Incomparable(Segments(dest), elsewhere) ==> EntryAt(c.tree, elsewhere) == EntryAt(base.tree, elsewhere)
  }

  lemma {:induction false} PatchesLeadOneWay(w: World, patches: seq<PatchFile>, ts: seq<Tree>, us: seq<Tree>, k: nat)
    requires PatchesLead(w, patches, ts) && PatchesLead(w, patches, us) && ts[0] == us[0] && k <= |patches|
    ensures ts[k] == us[k]
  {
    if k > 0 {
      PatchesLeadOneWay(w, patches, ts, us, k - 1);
      assert w.applyPatch(ts[k - 1], patches[k - 1].bytes) == Some(ts[(k - 1) + 1]);
      assert w.applyPatch(us[k - 1], patches[k - 1].bytes) == Some(us[(k - 1) + 1]);
    }
  }

  /** One patch more, whose outcome depends on the tree the others lead to. */
  lemma {:induction false} OnePatchMore(w: World, patches: seq<PatchFile>, ts: seq<Tree>)
    requires patches != [] && PatchesLead(w, patches[..|patches| - 1], ts)
    ensures
      match w.applyPatch(ts[|ts| - 1], patches[|patches| - 1].bytes)
      case Some(t) => PatchesLead(w, patches, ts + [t])
      case None => forall us :: PatchesLead(w, patches, us) ==> us[0] != ts[0]
  {
    var n := |patches| - 1;
    forall us | PatchesLead(w, patches, us) && us[0] == ts[0] ensures w.applyPatch(ts[n], patches[n].bytes).Some? {
      PatchesLeadPrefix(w, patches, us);
      PatchesLeadOneWay(w, patches[..n], ts, us[..n + 1], n);
      assert w.applyPatch(us[n], patches[n].bytes) == Some(us[n + 1]);
    }
  }

  lemma {:induction false} PatchesLeadPrefix(w: World, patches: seq<PatchFile>, us: seq<Tree>)
    requires patches != [] && PatchesLead(w, patches, us)
    ensures PatchesLead(w, patches[..|patches| - 1], us[..|us| - 1])
  {
    var n := |patches| - 1;
    forall k | 0 <= k < n ensures w.applyPatch(us[..n + 1][k], patches[..n][k].bytes) == Some(us[..n + 1][k + 1]) {
      assert w.applyPatch(us[k], patches[k].bytes) == Some(us[k + 1]);
    }
  }

  /** How a layer of patches ends: applied in order with a commit each, or refused
      because no trees lead through them. */
  ghost predicate PatchLayerEnds(w: World, dest: string, patches: seq<PatchFile>, base: Commit, before: Tree, ts: seq<Tree>, commits: seq<Commit>,
                                 r: Result<TipOutcome>) {
    match r
    case Ok(o) =>
      && PatchesLead(w, patches, ts) && ts[0] == before && PatchCommits(dest, patches, ts, base, commits)
      && History(Some(o.head)) == History(Some(base)) + commits
      && SubtreeAt(o.head.tree, Segments(dest)) == Some(ts[|patches|])
      && (forall elsewhere :: Incomparable(Segments(dest), elsewhere) ==> EntryAt(o.head.tree, elsewhere) == EntryAt(base.tree, elsewhere))
      && o.patchCommits == |patches| && o.agentCommits == 0
    case Err(error) => error == PatchRejected && forall us :: PatchesLead(w, patches, us) ==> us[0] != before
  }

  /** A layer of patches succeeds exactly when its patches apply one after the
      other to the tree at the destination; it then leaves the last tree there,
      under one commit per patch, in order and under their labels. */
  lemma {:induction false} PatchLayersApplyInOrder(env: LayerEnv, patches: seq<PatchFile>, mirrorTip: Commit, before: Tree, st: AgentState)
      returns (ts: seq<Tree>, commits: seq<Commit>)
    requires IsRelPath(env.dest) && SubtreeAt(mirrorTip.tree, Segments(env.dest)) == Some(before)
    ensures PatchLayerEnds(env.w, env.dest, patches, mirrorTip, before, ts, commits, LayerOn(env, PatchTips(patches), mirrorTip, st).outcome)
    ensures LayerOn(env, PatchTips(patches), mirrorTip, st).agents == st
    decreases |patches|
  {
    if patches == [] {
      ts, commits := [before], [];
      assert History(Some(mirrorTip)) + commits == History(Some(mirrorTip));
    } else {
      var n := |patches| - 1;
      ts, commits := PatchLayersApplyInOrder(env, patches[..n], mirrorTip, before, st);
      var run := LayerOfPatches(env, patches, mirrorTip, st);
      if run.outcome.Err? {
        RefusedEarlier(env.w, patches, before);
      } else {
        ts, commits := LastPatch(env, patches, mirrorTip, before, run.outcome.value, ts, commits);
      }
    }
  }

  lemma {:induction false} LayerOfPatches(env: LayerEnv, patches: seq<PatchFile>, mirrorTip: Commit, st: AgentState) returns (run: TipRun)
    requires IsRelPath(env.dest) && patches != []
    ensures run == LayerOn(env, PatchTips(patches[..|patches| - 1]), mirrorTip, st)
    ensures LayerOn(env, PatchTips(patches), mirrorTip, st) ==
            if run.outcome.Err? then run else TipRun(PatchStep(env, patches[|patches| - 1], run.outcome.value), run.agents)
  {
    var n, tips := |patches| - 1, PatchTips(patches);
    assert tips[..n] == PatchTips(patches[..n]) && tips[n] == PatchTip(patches[n]);
    run := LayerOn(env, tips[..n], mirrorTip, st);
  }

  lemma {:induction false} RefusedEarlier(w: World, patches: seq<PatchFile>, before: Tree)
    requires patches != [] && forall us :: PatchesLead(w, patches[..|patches| - 1], us) ==> us[0] != before
    ensures forall us :: PatchesLead(w, patches, us) ==> us[0] != before
  {
    forall us | PatchesLead(w, patches, us) ensures us[0] != before {
      PatchesLeadPrefix(w, patches, us);
    }
  }

  lemma {:induction false} LastPatch(env: LayerEnv, patches: seq<PatchFile>, base: Commit, before: Tree, o: TipOutcome, older: seq<Tree>, above: seq<Commit>)
      returns (ts: seq<Tree>, commits: seq<Commit>)
    requires IsRelPath(env.dest) && patches != []
    requires PatchLayerEnds(env.w, env.dest, patches[..|patches| - 1], base, before, older, above, Ok(o))
    ensures PatchLayerEnds(env.w, env.dest, patches, base, before, ts, commits, PatchStep(env, patches[|patches| - 1], o))
  {
    var patch := patches[|patches| - 1];
    var tree := older[|older| - 1];
    ts, commits := older, above;
    OnePatchMore(env.w, patches, older);
    PatchCommitIs(env, o.head, tree, patch.bytes, PatchMessage(patch.path, env.dest));
    TipMessageIs(PatchTip(patch), env.dest);
    var next := PatchStep(env, patch, o);
    if next.Ok? {
      var c, t := next.value.head, env.w.applyPatch(tree, patch.bytes).value;
      ts, commits := older + [t], above + [c];
      CommitOnTop(History(Some(base)), o.head, above, c);
      PatchCommitOnTop(env.dest, patches, older, base, above, t, c);
    }
  }

  lemma {:induction false} CommitOnTop(base: seq<Commit>, head: Commit, above: seq<Commit>, c: Commit)
    requires c.parents == [head] && History(Some(head)) == base + above
    ensures History(Some(c)) == base + (above + [c])
  {
    assert Parent(c) == Some(head);
    assert base + above + [c] == base + (above + [c]);
  }

  lemma {:induction false} PatchCommitOnTop(dest: string, patches: seq<PatchFile>, ts: seq<Tree>, base: Commit, above: seq<Commit>, t: Tree, c: Commit)
    requires patches != [] && PatchCommits(dest, patches[..|patches| - 1], ts, base, above)
    requires PatchCommitAt(dest, patches[|patches| - 1], t, base, c)
    ensures PatchCommits(dest, patches, ts + [t], base, above + [c])
  {
    var n := |patches| - 1;
    forall k | 0 <= k <= n ensures PatchCommitAt(dest, patches[k], (ts + [t])[k + 1], base, (above + [c])[k]) {
      if k < n {
        assert PatchCommitAt(dest, patches[..n][k], ts[k + 1], base, above[k]);
      }
    }
  }

  // --- the import ---

  /** The edits of an import: its patches first, and then its tip transforms. */
  ghost predicate InOrder(layer: TipLayer, tips: seq<TipTransform>) {
    && |tips| == |layer.patches| + |layer.tips|
    && (forall k :: 0 <= k < |layer.patches| ==> tips[k] == PatchTip(layer.patches[k]))
    && (forall k :: 0 <= k < |layer.tips| ==> tips[|layer.patches| + k] == layer.tips[k])
  }

  lemma {:induction false} CombinedIsInOrder(layer: TipLayer, tips: seq<TipTransform>)
    ensures InOrder(layer, tips) <==> tips == Combined(layer)
  {
    var all := Combined(layer);
    assert all[..|layer.patches|] == PatchTips(layer.patches) && all[|layer.patches|..] == layer.tips;
    if InOrder(layer, tips) {
      forall k | 0 <= k < |tips| ensures tips[k] == all[k] {
        if k >= |layer.patches| {
          assert tips[|layer.patches| + (k - |layer.patches|)] == layer.tips[k - |layer.patches|];
        }
      }
    }
  }

  /** The layer of an import is applied to the mirror of what is left of the branch
      without the old layer, with the prompt context of the mirror tip: it does
      the edits of the import in order. */
  lemma {:induction false} ImportsEdit(w: World, dest: string, originTip: Commit, branch: Option<Commit>, transforms: seq<Transform>, layer: TipLayer,
                                       st: AgentState, tips: seq<TipTransform>, mirror: MirrorOutcome, before: Tree)
      returns (edits: seq<Edit>, os: seq<TipOutcome>)
    requires IsRelPath(dest) && InOrder(layer, tips) && tips != []
    requires Mirrored(w, dest, originTip, StripTip(branch, dest), transforms) == Ok(mirror) && mirror.head.Some?
    requires SubtreeAt(mirror.head.value.tree, Segments(dest)) == Some(before)
    ensures
      var env := LayerEnv(w, dest, layer.runner, w.context(dest, mirror.head.value), layer.refresh);
      var run := Imported(w, dest, originTip, branch, transforms, layer, st);
      match run.outcome
      case Ok(o) =>
        && o.imported == mirror.imported && o.layer.Some? && o.head == Some(o.layer.value.head)
        && LayerEnds(env, tips, mirror.head.value, before, st, edits, os, TipRun(Ok(o.layer.value), run.agents))
      case Err(error) => LayerEnds(env, tips, mirror.head.value, before, st, edits, os, TipRun(Err(error), run.agents))
  {
    var run := ImportIsLayered(w, dest, originTip, branch, transforms, layer, st, tips, mirror);
    edits, os := LayersEdit(LayerEnv(w, dest, layer.runner, w.context(dest, mirror.head.value), layer.refresh), tips, mirror.head.value, before, st);
  }

  lemma {:induction false} ImportIsLayered(w: World, dest: string, originTip: Commit, branch: Option<Commit>, transforms: seq<Transform>, layer: TipLayer,
                                           st: AgentState, tips: seq<TipTransform>, mirror: MirrorOutcome) returns (run: TipRun)
    requires IsRelPath(dest) && InOrder(layer, tips)
    requires Mirrored(w, dest, originTip, StripTip(branch, dest), transforms) == Ok(mirror) && mirror.head.Some?
    ensures run == LayerOn(LayerEnv(w, dest, layer.runner, w.context(dest, mirror.head.value), layer.refresh), tips, mirror.head.value, st)
    ensures
      var whole := Imported(w, dest, originTip, branch, transforms, layer, st);
      && whole.agents == run.agents
      && (run.outcome.Err? ==> whole.outcome == Err(run.outcome.error))
      && (run.outcome.Ok? ==> whole.outcome.Ok? && whole.outcome.value.imported == mirror.imported
                              && whole.outcome.value.head == Some(run.outcome.value.head)
                              && whole.outcome.value.layer == if tips == [] then None else Some(run.outcome.value))
  {
    CombinedIsInOrder(layer, tips);
    run := LayerOn(EnvOf(w, dest, layer, mirror.head), tips, mirror.head.value, st);
  }

  /** An import of patches only, from its `patches` and from its tip transforms:
      it succeeds exactly when all of them, in that order, apply one after the
      other to what the mirror left at the destination. */
  lemma {:induction false} ImportsPatchInOrder(w: World, dest: string, originTip: Commit, branch: Option<Commit>, transforms: seq<Transform>, layer: TipLayer,
                                               st: AgentState, files: seq<PatchFile>, mirror: MirrorOutcome, before: Tree)
      returns (ts: seq<Tree>, commits: seq<Commit>)
    requires IsRelPath(dest) && |files| == |layer.patches| + |layer.tips|
    requires forall k :: 0 <= k < |layer.patches| ==> files[k] == layer.patches[k]
    requires forall k :: 0 <= k < |layer.tips| ==> layer.tips[k] == PatchTip(files[|layer.patches| + k])
    requires Mirrored(w, dest, originTip, StripTip(branch, dest), transforms) == Ok(mirror) && mirror.head.Some?
    requires SubtreeAt(mirror.head.value.tree, Segments(dest)) == Some(before)
    ensures
      var run := Imported(w, dest, originTip, branch, transforms, layer, st);
      && run.agents == st
      && match run.outcome
         case Ok(o) =>
           && PatchesLead(w, files, ts) && ts[0] == before && PatchCommits(dest, files, ts, mirror.head.value, commits)
           && o.imported == mirror.imported && o.head.Some? && History(o.head) == History(mirror.head) + commits
           && SubtreeAt(o.head.value.tree, Segments(dest)) == Some(ts[|files|])
         case Err(error) => error == PatchRejected && forall us :: PatchesLead(w, files, us) ==> us[0] != before
  {
    var run := ImportIsLayered(w, dest, originTip, branch, transforms, layer, st, PatchTips(files), mirror);
    ts, commits := PatchLayersApplyInOrder(LayerEnv(w, dest, layer.runner, w.context(dest, mirror.head.value), layer.refresh),
                                           files, mirror.head.value, before, st);
  }
}
