/** The full import: mirror, then tip layer.  Its laws: rebasing onto newer
    upstream history equals rebuilding from the original base, repeating costs
    no agent run, and the agent cache cannot be seen in the result. */
module Imports {
  import opened Wrappers
  import opened Trees
  import opened Paths
  import opened Worlds
  import opened Transforms
  import opened Histories
  import opened Mirror
  import opened Agents
  import opened TipLayers

  /** The tip-layer inputs of an import. */
  datatype TipLayer = TipLayer(patches: seq<PatchFile>, tips: seq<TipTransform>, runner: Runner, refresh: bool)

  function PatchTips(patches: seq<PatchFile>): (tips: seq<TipTransform>)
    ensures |tips| == |patches|
    ensures forall i :: 0 <= i < |tips| ==> tips[i] == PatchTip(patches[i])
  {
    if patches == [] then [] else [PatchTip(patches[0])] + PatchTips(patches[1..])
  }

  /** The `patches` series first, then the declared tip transforms. */
  function Combined(layer: TipLayer): seq<TipTransform> {
    PatchTips(layer.patches) + layer.tips
  }

  datatype FullOutcome = FullOutcome(imported: nat, head: Option<Commit>, layer: Option<TipOutcome>)

  datatype ImportRun = ImportRun(outcome: Result<FullOutcome>, agents: AgentState)

  function EnvOf(w: World, dest: string, layer: TipLayer, head: Option<Commit>): LayerEnv {
    LayerEnv(w, dest, layer.runner,
             if head.Some? then w.context(dest, head.value) else PromptContext("", "", "", "", ""), layer.refresh)
  }

  /** The tip layer on a mirror outcome. */
  function Layered(w: World, dest: string, layer: TipLayer, mirror: MirrorOutcome, st: AgentState): ImportRun
    requires IsRelPath(dest)
  {
    var tips := Combined(layer);
    if tips == [] then ImportRun(Ok(FullOutcome(mirror.imported, mirror.head, None)), st)
    else if mirror.head.None? then ImportRun(Err(NothingToLayerOn), st)
    else
      var run := LayerOn(EnvOf(w, dest, layer, mirror.head), tips, mirror.head.value, st);
      match run.outcome
      case Err(e) => ImportRun(Err(e), run.agents)
      case Ok(o) => ImportRun(Ok(FullOutcome(mirror.imported, Some(o.head), Some(o))), run.agents)
  }

  function Imported(w: World, dest: string, originTip: Commit, branchTip: Option<Commit>,
                    transforms: seq<Transform>, layer: TipLayer, st: AgentState): ImportRun
    requires IsRelPath(dest)
  {
    match Mirrored(w, dest, originTip, StripTip(branchTip, dest), transforms)
    case Err(e) => ImportRun(Err(e), st)
    case Ok(mirror) => Layered(w, dest, layer, mirror, st)
  }

  /** The import as the program runs it. */
  method Import(w: World, dest: string, originTip: Commit, branchTip: Option<Commit>,
                transforms: seq<Transform>, layer: TipLayer, st: AgentState) returns (r: ImportRun)
    requires IsRelPath(dest)
    ensures r == Imported(w, dest, originTip, branchTip, transforms, layer, st)
  {
    var base := StripTipLayer(branchTip, dest);
    var mirror := ImportMirror(w, dest, originTip, base, transforms);
    if mirror.Err? {
      return ImportRun(Err(mirror.error), st);
    }
    var tips := Combined(layer);
    var head := mirror.value.head;
    if tips == [] {
      return ImportRun(Ok(FullOutcome(mirror.value.imported, head, None)), st);
    }
    if head.None? {
      return ImportRun(Err(NothingToLayerOn), st);
    }
    var run := ApplyTipLayer(EnvOf(w, dest, layer, head), tips, head.value, st);
    if run.outcome.Err? {
      return ImportRun(Err(run.outcome.error), run.agents);
    }
    return ImportRun(Ok(FullOutcome(mirror.value.imported, Some(run.outcome.value.head), Some(run.outcome.value))), run.agents);
  }

  // --- rebasing equals rebuilding ---

  /** The head and the error of a mirror run, without the count. */
  function HeadOf(r: Result<MirrorOutcome>): Result<Option<Commit>> {
    match r
    case Ok(o) => Ok(o.head)
    case Err(e) => Err(e)
  }

  /** Mirroring `late` on what stripping leaves of a mirror of `early` ends where
      mirroring it on the base ends. */
  lemma {:induction false} MirrorOntoStripped(w: World, dest: string, early: Commit, late: Commit, base: Option<Commit>, transforms: seq<Transform>)
    requires Recordable(dest) && StripTip(base, dest) == base
    requires DistinctIds(w, History(Some(late))) && Precedes(Some(early), Some(late))
    requires Mirrored(w, dest, early, base, transforms).Ok?
    ensures
      var head := Mirrored(w, dest, early, base, transforms).value.head;
      HeadOf(Mirrored(w, dest, late, StripTip(head, dest), transforms)) == HeadOf(Mirrored(w, dest, late, base, transforms))
  {
    var stop := LastImported(base, dest).value;
    var delta := Delta(w, Some(early), stop).value;
    var j := StripStopsInTheRun(w, dest, delta, base, transforms);
    DeltaExtends(w, early, late, stop);
    var longer := Delta(w, Some(late), stop).value;
    assert longer[..j] == delta[..j];
    MirrorFromPrefix(w, dest, late, base, transforms, longer, j);
  }

  /** After importing `early`, mirroring `late` starts from what is stripped of
      the branch and ends where mirroring `late` on the original base ends. */
  lemma {:induction false} MirrorAfterImport(w: World, dest: string, early: Commit, late: Commit, branch: Option<Commit>,
                          transforms: seq<Transform>, layer: TipLayer, st: AgentState)
    requires Recordable(dest) && AllRecognisable(Combined(layer))
    requires DistinctIds(w, History(Some(late))) && Precedes(Some(early), Some(late))
    requires Imported(w, dest, early, branch, transforms, layer, st).outcome.Ok?
    ensures
      var head := Imported(w, dest, early, branch, transforms, layer, st).outcome.value.head;
      HeadOf(Mirrored(w, dest, late, StripTip(head, dest), transforms))
      == HeadOf(Mirrored(w, dest, late, StripTip(branch, dest), transforms))
  {
    var base := StripTip(branch, dest);
    StripIsIdempotent(branch, dest);
    LayeredStrips(w, dest, layer, Mirrored(w, dest, early, base, transforms).value, st);
    MirrorOntoStripped(w, dest, early, late, base, transforms);
  }

  /** Stripping a layered head is stripping the mirror head. */
  lemma {:induction false} LayeredStrips(w: World, dest: string, layer: TipLayer, mirror: MirrorOutcome, st: AgentState)
    requires Recordable(dest) && AllRecognisable(Combined(layer))
    requires Layered(w, dest, layer, mirror, st).outcome.Ok?
    ensures StripTip(Layered(w, dest, layer, mirror, st).outcome.value.head, dest) == StripTip(mirror.head, dest)
  {
    var tips := Combined(layer);
    if tips != [] {
      LayerStrips(EnvOf(w, dest, layer, mirror.head), tips, mirror.head.value, st);
    }
  }

  /** What a caller sees of an import: its head, or its error. */
  function OutcomeHead(run: ImportRun): Result<Option<Commit>> {
    match run.outcome
    case Ok(o) => Ok(o.head)
    case Err(e) => Err(e)
  }

  predicate PatchOnly(tips: seq<TipTransform>) {
    forall tip <- tips :: tip.PatchTip?
  }

  /** The runner is deterministic and the cache holds nothing else than the
      runner's work. */
  ghost predicate SoundAgents(w: World, tips: seq<TipTransform>, runner: Runner, cache: map<CacheKey, Bytes>) {
    && Deterministic(runner)
    && Consistent(w, runner, cache)
    && forall tip <- tips :: tip.AgentTip? ==> NulFree(tip.inv)
  }

  /** The layer is a function of its inputs. */
  ghost predicate Reproducible(w: World, tips: seq<TipTransform>, runner: Runner, cache: map<CacheKey, Bytes>) {
    PatchOnly(tips) || SoundAgents(w, tips, runner, cache)
  }

  predicate SameCommits(a: Result<TipOutcome>, b: Result<TipOutcome>) {
    match (a, b)
    case (Ok(x), Ok(y)) => x.head == y.head && x.patchCommits == y.patchCommits && x.agentCommits == y.agentCommits
    case (Err(x), Err(y)) => x == y
    case _ => false
  }

  /** Committing the same patch ends alike on alike outcomes. */
  lemma {:induction false} SamePatchSameCommit(env: LayerEnv, refresh: bool, inv: AgentInvocation, x: TipOutcome, y: TipOutcome, hitX: bool, hitY: bool, patch: Bytes)
    requires IsRelPath(env.dest) && SameCommits(Ok(x), Ok(y))
    ensures SameCommits(CommitAgentPatch(env, inv, Tally(x, hitX), patch),
                        CommitAgentPatch(env.(refresh := refresh), inv, Tally(y, hitY), patch))
  {
  }

  /** An agent step does not show which cache it ran with. */
  lemma {:induction false} AgentStepIsTransparent(env: LayerEnv, inv: AgentInvocation, x: TipOutcome, y: TipOutcome, a: AgentState, b: AgentState, refresh: bool)
    requires IsRelPath(env.dest) && SameCommits(Ok(x), Ok(y))
    requires NulFree(inv) && Deterministic(env.runner)
    requires Consistent(env.w, env.runner, a.cache) && Consistent(env.w, env.runner, b.cache)
    ensures
      var r, s := AgentStep(env, inv, x, a), AgentStep(env.(refresh := refresh), inv, y, b);
      && SameCommits(r.outcome, s.outcome)
      && Consistent(env.w, env.runner, r.agents.cache) && Consistent(env.w, env.runner, s.agents.cache)
  {
    var before := SubtreeAt(x.head.tree, Segments(env.dest));
    if before.Some? {
      var prompt := RenderPrompt(inv.prompt, env.ctx);
      CacheIsTransparent(env.w, before.value, prompt, inv, env.runner, env.refresh, a);
      CacheIsTransparent(env.w, before.value, prompt, inv, env.runner, refresh, b);
      var (r, _) := Materialize(env.w, before.value, prompt, inv, env.runner, env.refresh, a);
      var (s, _) := Materialize(env.w, before.value, prompt, inv, env.runner, refresh, b);
      if r.Ok? {
        SamePatchSameCommit(env, refresh, inv, x, y, r.value.hit, s.value.hit, r.value.patch);
      }
    }
  }

  lemma {:induction false} LayerIsTransparent(env: LayerEnv, tips: seq<TipTransform>, mirrorTip: Commit, a: AgentState, b: AgentState, refresh: bool)
    requires IsRelPath(env.dest)
    requires SoundAgents(env.w, tips, env.runner, a.cache) && SoundAgents(env.w, tips, env.runner, b.cache)
    ensures
      var x, y := LayerOn(env, tips, mirrorTip, a), LayerOn(env.(refresh := refresh), tips, mirrorTip, b);
      && SameCommits(x.outcome, y.outcome)
      && Consistent(env.w, env.runner, x.agents.cache) && Consistent(env.w, env.runner, y.agents.cache)
    decreases |tips|
  {
    if tips != [] {
      var init, last := tips[..|tips| - 1], tips[|tips| - 1];
      LayerIsTransparent(env, init, mirrorTip, a, b, refresh);
      var x, y := LayerOn(env, init, mirrorTip, a), LayerOn(env.(refresh := refresh), init, mirrorTip, b);
      if last.AgentTip? && x.outcome.Ok? {
        AgentStepIsTransparent(env, last.inv, x.outcome.value, y.outcome.value, x.agents, y.agents, refresh);
      }
    }
  }

  /** A layer of patches never asks the agents. */
  lemma {:induction false} PatchLayerNeedsNoAgents(env: LayerEnv, tips: seq<TipTransform>, mirrorTip: Commit, a: AgentState, b: AgentState, refresh: bool)
    requires IsRelPath(env.dest) && PatchOnly(tips)
    ensures LayerOn(env, tips, mirrorTip, a).outcome == LayerOn(env.(refresh := refresh), tips, mirrorTip, b).outcome
    ensures LayerOn(env, tips, mirrorTip, a).agents == a
    decreases |tips|
  {
    if tips != [] {
      PatchLayerNeedsNoAgents(env, tips[..|tips| - 1], mirrorTip, a, b, refresh);
      PatchLayerNeedsNoAgents(env.(refresh := refresh), tips[..|tips| - 1], mirrorTip, b, a, refresh);
    }
  }

  lemma {:induction false} LayeredIsReproducible(w: World, dest: string, layer: TipLayer, x: MirrorOutcome, y: MirrorOutcome, a: AgentState, b: AgentState, refresh: bool)
    requires IsRelPath(dest) && x.head == y.head
    requires Reproducible(w, Combined(layer), layer.runner, a.cache) && Reproducible(w, Combined(layer), layer.runner, b.cache)
    ensures OutcomeHead(Layered(w, dest, layer, x, a)) == OutcomeHead(Layered(w, dest, layer.(refresh := refresh), y, b))
    ensures Reproducible(w, Combined(layer), layer.runner, Layered(w, dest, layer, x, a).agents.cache)
  {
    var tips := Combined(layer);
    assert Combined(layer.(refresh := refresh)) == tips;
    if tips != [] && x.head.Some? {
      var env := EnvOf(w, dest, layer, x.head);
      assert EnvOf(w, dest, layer.(refresh := refresh), y.head) == env.(refresh := refresh);
      if PatchOnly(tips) {
        PatchLayerNeedsNoAgents(env, tips, x.head.value, a, b, refresh);
      } else {
        LayerIsTransparent(env, tips, x.head.value, a, b, refresh);
      }
    }
  }

  /** The agent cache cannot be seen: with a deterministic runner, an import with
      any cache of its work ends exactly as one with an empty cache, refreshed
      or not, and leaves such a cache behind. */
  lemma {:induction false} CacheCannotBeSeen(w: World, dest: string, originTip: Commit, branch: Option<Commit>, transforms: seq<Transform>,
                          layer: TipLayer, st: AgentState, calls: nat, refresh: bool)
    requires IsRelPath(dest)
    requires SoundAgents(w, Combined(layer), layer.runner, st.cache)
    ensures OutcomeHead(Imported(w, dest, originTip, branch, transforms, layer, st))
         == OutcomeHead(Imported(w, dest, originTip, branch, transforms, layer.(refresh := refresh), AgentState(map[], calls)))
    ensures Reproducible(w, Combined(layer), layer.runner, Imported(w, dest, originTip, branch, transforms, layer, st).agents.cache)
  {
    var mirror := Mirrored(w, dest, originTip, StripTip(branch, dest), transforms);
    if mirror.Ok? {
      LayeredIsReproducible(w, dest, layer, mirror.value, mirror.value, st, AgentState(map[], calls), refresh);
    }
  }

  /** Rebasing equals rebuilding: importing `late` on top of an import of
      `early` gives the very commit that importing `late` on the original branch
      gives, and fails exactly when that fails; for arbitrary upstream messages. */
  lemma {:induction false} RebasingEqualsRebuilding(w: World, dest: string, early: Commit, late: Commit, branch: Option<Commit>,
                                 transforms: seq<Transform>, layer: TipLayer, st: AgentState, other: AgentState)
    requires Recordable(dest) && AllRecognisable(Combined(layer))
    requires DistinctIds(w, History(Some(late))) && Precedes(Some(early), Some(late))
    requires Reproducible(w, Combined(layer), layer.runner, st.cache)
    requires Reproducible(w, Combined(layer), layer.runner, other.cache)
    requires Imported(w, dest, early, branch, transforms, layer, st).outcome.Ok?
    ensures
      var first := Imported(w, dest, early, branch, transforms, layer, st);
      OutcomeHead(Imported(w, dest, late, first.outcome.value.head, transforms, layer, first.agents))
      == OutcomeHead(Imported(w, dest, late, branch, transforms, layer, other))
  {
    var first := Imported(w, dest, early, branch, transforms, layer, st);
    MirrorAfterImport(w, dest, early, late, branch, transforms, layer, st);
    var mirror := Mirrored(w, dest, early, StripTip(branch, dest), transforms).value;
    LayeredIsReproducible(w, dest, layer, mirror, mirror, st, other, layer.refresh);
    var a := Mirrored(w, dest, late, StripTip(first.outcome.value.head, dest), transforms);
    var b := Mirrored(w, dest, late, StripTip(branch, dest), transforms);
    if a.Ok? {
      LayeredIsReproducible(w, dest, layer, a.value, b.value, first.agents, other, layer.refresh);
    }
  }

  // --- repeating an import costs nothing ---

  function AgentCount(tips: seq<TipTransform>): nat {
    if tips == [] then 0 else AgentCount(tips[..|tips| - 1]) + if tips[|tips| - 1].AgentTip? then 1 else 0
  }

  predicate Extends(big: map<CacheKey, Bytes>, small: map<CacheKey, Bytes>) {
    forall key <- small :: key in big && big[key] == small[key]
  }

  /** Without refresh, a step only adds cache entries. */
  lemma {:induction false} StepExtends(env: LayerEnv, tip: TipTransform, run: TipRun)
    requires IsRelPath(env.dest) && !env.refresh
    ensures Extends(TipStep(env, tip, run).agents.cache, run.agents.cache)
  {
  }

  lemma {:induction false} LayerExtends(env: LayerEnv, tips: seq<TipTransform>, mirrorTip: Commit, st: AgentState)
    requires IsRelPath(env.dest) && !env.refresh
    ensures Extends(LayerOn(env, tips, mirrorTip, st).agents.cache, st.cache)
    decreases |tips|
  {
    if tips != [] {
      var init := tips[..|tips| - 1];
      LayerExtends(env, init, mirrorTip, st);
      StepExtends(env, tips[|tips| - 1], LayerOn(env, init, mirrorTip, st));
    }
  }

  /** Entries are write-once: an import without refresh, whether it succeeds or
      fails, changes and removes no entry of the cache it found. */
  lemma {:induction false} ImportsWriteEntriesOnce(w: World, dest: string, originTip: Commit, branch: Option<Commit>,
                                                  transforms: seq<Transform>, layer: TipLayer, st: AgentState)
    requires IsRelPath(dest) && !layer.refresh
    ensures Extends(Imported(w, dest, originTip, branch, transforms, layer, st).agents.cache, st.cache)
  {
    var mirror := Mirrored(w, dest, originTip, StripTip(branch, dest), transforms);
    if mirror.Ok? && mirror.value.head.Some? {
      LayerExtends(EnvOf(w, dest, layer, mirror.value.head), Combined(layer), mirror.value.head.value, st);
    }
  }

  /** An agent step whose run is recorded is replayed without a call. */
  lemma {:induction false} AgentStepReplays(env: LayerEnv, inv: AgentInvocation, x: TipOutcome, y: TipOutcome, a: AgentState, b: AgentState, runner: Runner)
    requires IsRelPath(env.dest) && !env.refresh && SameCommits(Ok(x), Ok(y))
    requires AgentStep(env, inv, x, a).outcome.Ok?
    requires Extends(b.cache, AgentStep(env, inv, x, a).agents.cache)
    ensures
      var s := AgentStep(env.(runner := runner), inv, y, b);
      && s.agents == b && s.outcome.Ok?
      && SameCommits(AgentStep(env, inv, x, a).outcome, s.outcome)
      && s.outcome.value.cacheHits == y.cacheHits + 1 && s.outcome.value.cacheMisses == y.cacheMisses
  {
    var before := SubtreeAt(x.head.tree, Segments(env.dest)).value;
    var prompt := RenderPrompt(inv.prompt, env.ctx);
    EntriesAreWriteOnce(env.w, before, prompt, inv, env.runner, a);
    var key := KeyOf(before, prompt, inv);
    assert key in AgentStep(env, inv, x, a).agents.cache;
  }

  lemma {:induction false} LayerReplays(env: LayerEnv, tips: seq<TipTransform>, mirrorTip: Commit, a: AgentState, b: AgentState, runner: Runner)
    requires IsRelPath(env.dest) && !env.refresh
    requires LayerOn(env, tips, mirrorTip, a).outcome.Ok?
    requires Extends(b.cache, LayerOn(env, tips, mirrorTip, a).agents.cache)
    ensures
      var s := LayerOn(env.(runner := runner), tips, mirrorTip, b);
      && s.agents == b && s.outcome.Ok?
      && SameCommits(LayerOn(env, tips, mirrorTip, a).outcome, s.outcome)
      && s.outcome.value.cacheHits == AgentCount(tips) && s.outcome.value.cacheMisses == 0
    decreases |tips|
  {
    if tips != [] {
      var init, last := tips[..|tips| - 1], tips[|tips| - 1];
      var x := LayerOn(env, init, mirrorTip, a);
      StepExtends(env, last, x);
      LayerReplays(env, init, mirrorTip, a, b, runner);
      if last.AgentTip? {
        AgentStepReplays(env, last.inv, x.outcome.value, LayerOn(env.(runner := runner), init, mirrorTip, b).outcome.value,
                         x.agents, b, runner);
      }
    }
  }

  /** Repeating a non-refresh import gives the same head, makes no runner call
      and writes no cache entry, whatever the runner: it may be another one, and
      it need not be deterministic. */
  lemma {:induction false} RepeatingIsFree(w: World, dest: string, originTip: Commit, branch: Option<Commit>, transforms: seq<Transform>,
                        layer: TipLayer, st: AgentState, runner: Runner)
    requires Recordable(dest) && AllRecognisable(Combined(layer)) && !layer.refresh
    requires DistinctIds(w, History(Some(originTip)))
    requires Imported(w, dest, originTip, branch, transforms, layer, st).outcome.Ok?
    ensures
      var first := Imported(w, dest, originTip, branch, transforms, layer, st);
      var again := Imported(w, dest, originTip, first.outcome.value.head, transforms, layer.(runner := runner), first.agents);
      && OutcomeHead(again) == OutcomeHead(first)
      && again.agents == first.agents
      && (again.outcome.value.layer.Some? ==>
            again.outcome.value.layer.value.cacheMisses == 0
            && again.outcome.value.layer.value.cacheHits == AgentCount(Combined(layer)))
  {
    var first := Imported(w, dest, originTip, branch, transforms, layer, st);
    MirrorAfterImport(w, dest, originTip, originTip, branch, transforms, layer, st);
    var mirror := Mirrored(w, dest, originTip, StripTip(branch, dest), transforms).value;
    var again := Mirrored(w, dest, originTip, StripTip(first.outcome.value.head, dest), transforms).value;
    assert again.head == mirror.head;
    var tips := Combined(layer);
    assert Combined(layer.(runner := runner)) == tips;
    if tips != [] {
      var env := EnvOf(w, dest, layer, mirror.head);
      assert EnvOf(w, dest, layer.(runner := runner), again.head) == env.(runner := runner);
      LayerReplays(env, tips, mirror.head.value, st, first.agents, runner);
    }
  }
}
