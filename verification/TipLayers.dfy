/** The tip layer: patches and agent edits stacked on the mirror tip as commits
    of their own, dropped and rebuilt on every import. */
module TipLayers {
  import opened Wrappers
  import opened Trailers
  import opened Trees
  import opened Paths
  import opened Worlds
  import opened Transforms
  import opened Histories
  import opened Mirror
  import opened Agents

  datatype PatchFile = PatchFile(path: string, bytes: Bytes)

  datatype TipTransform =
    | PatchTip(patch: PatchFile)
    | AgentTip(inv: AgentInvocation)

  const CAPYFUN := Signature("CapyFun", "capyfun@tinytree.dev", 0)

  /** A commit of this import's tip layer. */
  predicate IsTip(message: string, dest: string) {
    && ScopedTo(message, dest)
    && (HasTrailer(message, PATCH_TRAILER) || HasTrailer(message, AGENT_TRAILER))
  }

  /** `tip` without the tip-layer commits on top. */
  function StripTip(tip: Option<Commit>, dest: string): Option<Commit>
    decreases Depth(tip)
  {
    if tip.Some? && IsTip(tip.value.message, dest) then StripTip(Parent(tip.value), dest) else tip
  }

  /** Stripping takes the newest commits off as long as they are scoped to the
      destination and carry a patch or an agent trailer, and no further. */
  lemma {:induction false} StripTakesTheTips(tip: Option<Commit>, dest: string) returns (taken: seq<Commit>)
    ensures History(tip) == History(StripTip(tip, dest)) + taken
    ensures AllCarryTips(taken, dest)
    ensures StripTip(tip, dest).Some? ==> !CarriesTip(StripTip(tip, dest).value.message, dest)
    decreases Depth(tip)
  {
    taken := [];
    if tip.Some? && IsTip(tip.value.message, dest) {
      var below := StripTakesTheTips(Parent(tip.value), dest);
      taken := below + [tip.value];
      StripTakesOne(tip.value, dest, below);
    } else {
      assert History(tip) + taken == History(tip);
    }
  }

  lemma {:induction false} StripTakesOne(c: Commit, dest: string, below: seq<Commit>)
    requires IsTip(c.message, dest) && AllCarryTips(below, dest)
    requires History(Parent(c)) == History(StripTip(Parent(c), dest)) + below
    ensures AllCarryTips(below + [c], dest)
    ensures History(Some(c)) == History(StripTip(Some(c), dest)) + (below + [c])
  {
    TipIsCarried(c.message, dest);
    OneCarriedMore(below, c, dest);
    var kept := StripTip(Parent(c), dest);
    assert StripTip(Some(c), dest) == kept;
    HistoryGrows(c, History(kept), below);
  }

  lemma {:induction false} HistoryGrows(c: Commit, kept: seq<Commit>, below: seq<Commit>)
    requires History(Parent(c)) == kept + below
    ensures History(Some(c)) == kept + (below + [c])
  {
    assert kept + below + [c] == kept + (below + [c]);
  }

  lemma {:induction false} TipIsCarried(message: string, dest: string)
    ensures IsTip(message, dest) <==> CarriesTip(message, dest)
  {
  }

  lemma {:induction false} OneCarriedMore(commits: seq<Commit>, c: Commit, dest: string)
    requires AllCarryTips(commits, dest) && CarriesTip(c.message, dest)
    ensures AllCarryTips(commits + [c], dest)
  {
  }

  predicate AllCarryTips(commits: seq<Commit>, dest: string) {
    forall k :: 0 <= k < |commits| ==> CarriesTip(commits[k].message, dest)
  }

  predicate CarriesTip(message: string, dest: string) {
    && TrailerValue(message, "CapyFun-Import") == Some(dest)
    && (HasTrailer(message, "CapyFun-Patch") || HasTrailer(message, "CapyFun-Agent"))
  }

  /** The stripping loop. */
  method StripTipLayer(tip: Option<Commit>, dest: string) returns (cur: Option<Commit>)
    ensures cur == StripTip(tip, dest)
  {
    cur := tip;
    while cur.Some?
      invariant StripTip(tip, dest) == StripTip(cur, dest)
      decreases Depth(cur)
    {
      if IsTip(cur.value.message, dest) {
        cur := Parent(cur.value);
      } else {
        break;
      }
    }
  }

  /** What applies to a whole layer. */
  datatype LayerEnv = LayerEnv(w: World, dest: string, runner: Runner, ctx: PromptContext, refresh: bool)

  datatype TipOutcome = TipOutcome(head: Commit, patchCommits: nat, agentCommits: nat, cacheHits: nat, cacheMisses: nat)

  /** An outcome and the agent state after it; the state also moves on when the
      layer fails. */
  datatype TipRun = TipRun(outcome: Result<TipOutcome>, agents: AgentState)

  /** A commit on `parent` that patches the subtree at the destination. */
  function PatchCommit(env: LayerEnv, parent: Commit, bytes: Bytes, message: string): Result<Commit>
    requires IsRelPath(env.dest)
  {
    var path := Segments(env.dest);
    var sub := SubtreeAt(parent.tree, path);
    if sub.None? then Err(MissingDestination) else
      var patched := env.w.applyPatch(sub.value, bytes);
      if patched.None? then Err(PatchRejected)
      else Ok(Commit(Splice(parent.tree, path, patched.value), [parent], CAPYFUN, CAPYFUN, message))
  }

  function PatchStep(env: LayerEnv, patch: PatchFile, o: TipOutcome): Result<TipOutcome>
    requires IsRelPath(env.dest)
  {
    var c :- PatchCommit(env, o.head, patch.bytes, PatchMessage(patch.path, env.dest));
    Ok(o.(head := c, patchCommits := o.patchCommits + 1))
  }

  /** An empty patch makes no commit. */
  function CommitAgentPatch(env: LayerEnv, inv: AgentInvocation, o: TipOutcome, patch: Bytes): Result<TipOutcome>
    requires IsRelPath(env.dest)
  {
    if patch == [] then Ok(o) else
      var c :- PatchCommit(env, o.head, patch, AgentMessage(inv.agentId, env.dest));
      Ok(o.(head := c, agentCommits := o.agentCommits + 1))
  }

  function Tally(o: TipOutcome, hit: bool): TipOutcome {
    if hit then o.(cacheHits := o.cacheHits + 1) else o.(cacheMisses := o.cacheMisses + 1)
  }

  function AgentStep(env: LayerEnv, inv: AgentInvocation, o: TipOutcome, st: AgentState): TipRun
    requires IsRelPath(env.dest)
  {
    var before := SubtreeAt(o.head.tree, Segments(env.dest));
    if before.None? then TipRun(Err(MissingDestination), st) else
      var (run, st') := Materialize(env.w, before.value, RenderPrompt(inv.prompt, env.ctx), inv, env.runner, env.refresh, st);
      match run
      case Err(e) => TipRun(Err(e), st')
      case Ok(m) => TipRun(CommitAgentPatch(env, inv, Tally(o, m.hit), m.patch), st')
  }

  function TipStep(env: LayerEnv, tip: TipTransform, run: TipRun): TipRun
    requires IsRelPath(env.dest)
  {
    if run.outcome.Err? then run else
      match tip
      case PatchTip(patch) => TipRun(PatchStep(env, patch, run.outcome.value), run.agents)
      case AgentTip(inv) => AgentStep(env, inv, run.outcome.value, run.agents)
  }

  /** The layer on top of `mirrorTip`, in order. */
  function LayerOn(env: LayerEnv, tips: seq<TipTransform>, mirrorTip: Commit, st: AgentState): TipRun
    requires IsRelPath(env.dest)
    decreases |tips|
  {
    if tips == [] then TipRun(Ok(TipOutcome(mirrorTip, 0, 0, 0, 0)), st)
    else TipStep(env, tips[|tips| - 1], LayerOn(env, tips[..|tips| - 1], mirrorTip, st))
  }

  lemma {:induction false} LayerStops(env: LayerEnv, tips: seq<TipTransform>, k: nat, mirrorTip: Commit, st: AgentState)
    requires IsRelPath(env.dest) && k <= |tips|
    requires LayerOn(env, tips[..k], mirrorTip, st).outcome.Err?
    ensures LayerOn(env, tips, mirrorTip, st) == LayerOn(env, tips[..k], mirrorTip, st)
    decreases |tips|
  {
    if k == |tips| {
      assert tips[..k] == tips;
    } else {
      assert tips[..|tips| - 1][..k] == tips[..k];
      LayerStops(env, tips[..|tips| - 1], k, mirrorTip, st);
    }
  }

  /** The layer as a loop over its transforms. */
  method ApplyTipLayer(env: LayerEnv, tips: seq<TipTransform>, mirrorTip: Commit, st: AgentState) returns (r: TipRun)
    requires IsRelPath(env.dest)
    ensures r == LayerOn(env, tips, mirrorTip, st)
  {
    r := TipRun(Ok(TipOutcome(mirrorTip, 0, 0, 0, 0)), st);
    assert tips[..0] == [];
    for i := 0 to |tips|
      invariant r == LayerOn(env, tips[..i], mirrorTip, st) && r.outcome.Ok?
    {
      assert tips[..i + 1][..i] == tips[..i];
      var o := r.outcome.value;
      match tips[i] {
        case PatchTip(patch) =>
          r := TipRun(PatchStep(env, patch, o), r.agents);
        case AgentTip(inv) =>
          r := AgentStep(env, inv, o, r.agents);
      }
      if r.outcome.Err? {
        LayerStops(env, tips, i + 1, mirrorTip, st);
        return;
      }
    }
    assert tips[..|tips|] == tips;
  }

  // --- the layer comes off again ---

  /** Labels that leave a recognisable trailer. */
  predicate Recognisable(tip: TipTransform) {
    LeavesATipTrailer(if tip.PatchTip? then tip.patch.path else tip.inv.agentId)
  }

  function TipMessage(tip: TipTransform, dest: string): string {
    match tip
    case PatchTip(patch) => PatchMessage(patch.path, dest)
    case AgentTip(inv) => AgentMessage(inv.agentId, dest)
  }

  predicate AllRecognisable(tips: seq<TipTransform>) {
    forall tip <- tips :: Recognisable(tip)
  }

  /** Scans pass a tip-layer commit and go on at its parent. */
  lemma {:induction false} TipCommitIsPassed(c: Commit, parent: Commit, dest: string)
    requires c.parents == [parent] && IsTip(c.message, dest) && OriginTrailer(c.message) == None
    ensures StripTip(Some(c), dest) == StripTip(Some(parent), dest)
    ensures LastImported(Some(c), dest) == LastImported(Some(parent), dest)
  {
    assert Parent(c) == Some(parent);
  }

  lemma {:induction false} TipMessageIsTip(tip: TipTransform, dest: string)
    requires Recordable(dest)
    ensures IsTip(TipMessage(tip, dest), dest) && OriginTrailer(TipMessage(tip, dest)) == None <==> Recognisable(tip)
  {
    TipMessages(if tip.PatchTip? then tip.patch.path else tip.inv.agentId, dest);
  }

  /** A step of the layer leaves the head alone or puts one commit on it. */
  lemma {:induction false} TipStepShape(env: LayerEnv, tip: TipTransform, run: TipRun)
    requires IsRelPath(env.dest)
    requires run.outcome.Ok? && TipStep(env, tip, run).outcome.Ok?
    ensures
      var c, head := TipStep(env, tip, run).outcome.value.head, run.outcome.value.head;
      || (tip.AgentTip? && c == head)
      || (c.parents == [head]
          && c.message == TipMessage(tip, env.dest))
  {
  }

  /** That commit changes the destination only. */
  lemma {:induction false} TipStepTree(env: LayerEnv, tip: TipTransform, run: TipRun)
    requires IsRelPath(env.dest)
    requires run.outcome.Ok? && TipStep(env, tip, run).outcome.Ok?
    ensures
      var c, head, path := TipStep(env, tip, run).outcome.value.head, run.outcome.value.head, Segments(env.dest);
      c != head ==> SubtreeAt(c.tree, path).Some? && c.tree == Splice(head.tree, path, SubtreeAt(c.tree, path).value)
  {
    var c, head, path := TipStep(env, tip, run).outcome.value.head, run.outcome.value.head, Segments(env.dest);
    if c != head {
      var sub := TipStepSplices(env, tip, run);
      SpliceThenRead(head.tree, path, sub, []);
    }
  }

  lemma {:induction false} TipStepSplices(env: LayerEnv, tip: TipTransform, run: TipRun) returns (sub: Tree)
    requires IsRelPath(env.dest)
    requires run.outcome.Ok? && TipStep(env, tip, run).outcome.Ok?
    requires TipStep(env, tip, run).outcome.value.head != run.outcome.value.head
    ensures TipStep(env, tip, run).outcome.value.head.tree == Splice(run.outcome.value.head.tree, Segments(env.dest), sub)
  {
    var o := run.outcome.value;
    var before := SubtreeAt(o.head.tree, Segments(env.dest)).value;
    match tip {
      case PatchTip(patch) =>
        sub := env.w.applyPatch(before, patch.bytes).value;
      case AgentTip(inv) =>
        var m := Materialize(env.w, before, RenderPrompt(inv.prompt, env.ctx), inv, env.runner, env.refresh, run.agents).0.value;
        sub := env.w.applyPatch(before, m.patch).value;
    }
  }

  /** Stripping a tip-layer commit continues at its parent. */
  lemma {:induction false} TipStepStrips(env: LayerEnv, tip: TipTransform, run: TipRun)
    requires Recordable(env.dest) && Recognisable(tip)
    requires run.outcome.Ok? && TipStep(env, tip, run).outcome.Ok?
    ensures StripTip(Some(TipStep(env, tip, run).outcome.value.head), env.dest) == StripTip(Some(run.outcome.value.head), env.dest)
    ensures LastImported(Some(TipStep(env, tip, run).outcome.value.head), env.dest) == LastImported(Some(run.outcome.value.head), env.dest)
  {
    TipStepShape(env, tip, run);
    TipMessageIsTip(tip, env.dest);
    var c, head := TipStep(env, tip, run).outcome.value.head, run.outcome.value.head;
    if c.parents == [head] && (tip.PatchTip? || c != head) {
      TipCommitIsPassed(c, head, env.dest);
    }
  }

  lemma {:induction false} LayerStrips(env: LayerEnv, tips: seq<TipTransform>, mirrorTip: Commit, st: AgentState)
    requires Recordable(env.dest) && AllRecognisable(tips)
    requires LayerOn(env, tips, mirrorTip, st).outcome.Ok?
    ensures StripTip(Some(LayerOn(env, tips, mirrorTip, st).outcome.value.head), env.dest) == StripTip(Some(mirrorTip), env.dest)
    ensures LastImported(Some(LayerOn(env, tips, mirrorTip, st).outcome.value.head), env.dest) == LastImported(Some(mirrorTip), env.dest)
    decreases |tips|
  {
    if tips != [] {
      var init := tips[..|tips| - 1];
      LayerStrips(env, init, mirrorTip, st);
      TipStepStrips(env, tips[|tips| - 1], LayerOn(env, init, mirrorTip, st));
    }
  }

  /** What stripping leaves is stripped. */
  lemma {:induction false} StripIsIdempotent(tip: Option<Commit>, dest: string)
    ensures StripTip(StripTip(tip, dest), dest) == StripTip(tip, dest)
    decreases Depth(tip)
  {
    if tip.Some? && IsTip(tip.value.message, dest) {
      StripIsIdempotent(Parent(tip.value), dest);
    }
  }

  /** Stripping a mirror run stops inside the run or at its base, even when an
      upstream message forges tip-layer trailers. */
  lemma {:induction false} StripStopsInTheRun(w: World, dest: string, origins: seq<Commit>, base: Option<Commit>, transforms: seq<Transform>)
      returns (j: nat)
    requires IsRelPath(dest) && StripTip(base, dest) == base
    requires ReplayAll(w, dest, origins, base, transforms).Ok?
    ensures j <= |origins| && ReplayAll(w, dest, origins[..j], base, transforms).Ok?
    ensures StripTip(ReplayAll(w, dest, origins, base, transforms).value, dest)
         == ReplayAll(w, dest, origins[..j], base, transforms).value
    decreases |origins|
  {
    var head := ReplayAll(w, dest, origins, base, transforms).value;
    if origins == [] || StripTip(head, dest) == head {
      j := |origins|;
      assert origins[..j] == origins;
    } else {
      var init := origins[..|origins| - 1];
      var below := RunParent(w, dest, origins, base, transforms);
      StripOnce(head, dest);
      j := StripStopsInTheRun(w, dest, init, base, transforms);
      assert init[..j] == origins[..j];
    }
  }

  lemma {:induction false} StripOnce(tip: Option<Commit>, dest: string)
    requires StripTip(tip, dest) != tip
    ensures tip.Some? && StripTip(tip, dest) == StripTip(Parent(tip.value), dest)
  {
  }

  // --- what stripping hides ---

  /** Stripping the tip layer leaves the scan where it was.  The report scans the
      branch as it is, the import scans it stripped. */
  predicate StrippingHidesNoOrigin(branch: Option<Commit>, dest: string) {
    LastImported(StripTip(branch, dest), dest) == LastImported(branch, dest)
  }

  /** No commit that stripping takes off carries an origin: true of every tip
      layer, and of mirror commits unless an upstream message forges a
      tip-layer trailer. */
  predicate PeeledCarryNoOrigin(branch: Option<Commit>, dest: string)
    decreases Depth(branch)
  {
    branch.Some? && IsTip(branch.value.message, dest) ==>
      OriginTrailer(branch.value.message) == None && PeeledCarryNoOrigin(Parent(branch.value), dest)
  }

  /** Where no peeled commit carries an origin, stripping hides none. */
  lemma {:induction false} StrippingKeepsTheOrigin(branch: Option<Commit>, dest: string)
    requires PeeledCarryNoOrigin(branch, dest)
    ensures StrippingHidesNoOrigin(branch, dest)
    decreases Depth(branch)
  {
    if branch.Some? && IsTip(branch.value.message, dest) {
      StrippingKeepsTheOrigin(Parent(branch.value), dest);
    }
  }

  /** The head of a run sits on the run without its last commit. */
  lemma {:induction false} RunParent(w: World, dest: string, origins: seq<Commit>, base: Option<Commit>, transforms: seq<Transform>)
      returns (below: Option<Commit>)
    requires IsRelPath(dest) && origins != []
    requires ReplayAll(w, dest, origins, base, transforms).Ok?
    ensures ReplayAll(w, dest, origins[..|origins| - 1], base, transforms) == Ok(below)
    ensures ReplayAll(w, dest, origins, base, transforms).value.Some?
    ensures Parent(ReplayAll(w, dest, origins, base, transforms).value.value) == below
  {
    below := ReplayAll(w, dest, origins[..|origins| - 1], base, transforms).value;
  }
}
