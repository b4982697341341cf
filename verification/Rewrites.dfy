/** Rewritten upstreams: what is refused, and what forged trailers let through. */
module Rewrites {
  import opened Wrappers
  import opened Text
  import opened Trailers
  import opened Trees
  import opened Paths
  import opened Markers
  import opened Worlds
  import opened Transforms
  import opened Histories
  import opened Mirror
  import opened Agents
  import opened TipLayers
  import opened Imports
  import opened Reconciling
  import opened Runs
  import opened Convergence

  lemma {:induction false} TransformsNeverBlameHistory(w: World, t: Tree, message: string, transforms: seq<Transform>)
    ensures ApplyTreeTransforms(w, t, transforms) != Err(HistoryRewritten)
    ensures ApplyMessageTransforms(w, message, transforms) != Err(HistoryRewritten)
    decreases |transforms|
  {
    if transforms != [] {
      var tree := ApplyTreeTransform(w, t, transforms[0]);
      TransformsNeverBlameHistory(w, if tree.Ok? then tree.value else t, message, transforms[1..]);
      if transforms[0].RewriteMessage? {
        var text := RewriteOne(w, message, transforms[0]);
        TransformsNeverBlameHistory(w, t, if text.Ok? then text.value else message, transforms[1..]);
      }
    }
  }

  lemma {:induction false} ReplayNeverBlamesHistory(w: World, dest: string, origins: seq<Commit>, base: Option<Commit>, transforms: seq<Transform>)
    requires IsRelPath(dest)
    ensures ReplayAll(w, dest, origins, base, transforms) != Err(HistoryRewritten)
    decreases |origins|
  {
    if origins != [] {
      var n := |origins| - 1;
      ReplayNeverBlamesHistory(w, dest, origins[..n], base, transforms);
      TransformsNeverBlameHistory(w, Rename(origins[n].tree), origins[n].message, transforms);
    }
  }

  lemma {:induction false} ScansNeverBlameHistory(base: Option<Commit>, dest: string)
    ensures LastImported(base, dest) != Err(HistoryRewritten)
    decreases Depth(base)
  {
    if base.Some? {
      ScansNeverBlameHistory(Parent(base.value), dest);
    }
  }

  lemma {:induction false} StepsNeverBlameHistory(env: LayerEnv, tip: TipTransform, run: TipRun)
    requires IsRelPath(env.dest) && run.outcome != Err(HistoryRewritten)
    ensures TipStep(env, tip, run).outcome != Err(HistoryRewritten)
  {
  }

  lemma {:induction false} LayersNeverBlameHistory(env: LayerEnv, tips: seq<TipTransform>, mirrorTip: Commit, st: AgentState)
    requires IsRelPath(env.dest)
    ensures LayerOn(env, tips, mirrorTip, st).outcome != Err(HistoryRewritten)
    decreases |tips|
  {
    if tips != [] {
      var init := tips[..|tips| - 1];
      LayersNeverBlameHistory(env, init, mirrorTip, st);
      StepsNeverBlameHistory(env, tips[|tips| - 1], LayerOn(env, init, mirrorTip, st));
    }
  }

  lemma {:induction false} MirrorBlamesExactlyWhenOffTheChain(w: World, dest: string, tip: Commit, base: Option<Commit>, transforms: seq<Transform>)
    requires IsRelPath(dest)
    ensures
      var last := LastImported(base, dest);
      Mirrored(w, dest, tip, base, transforms) == Err(HistoryRewritten)
      <==> last.Ok? && last.value.Some? && !OnChain(w, Some(tip), last.value.value)
  {
    var last := LastImported(base, dest);
    ScansNeverBlameHistory(base, dest);
    if last.Ok? {
      if last.value.Some? {
        DeltaFails(w, Some(tip), last.value.value);
      } else {
        DeltaOfEverything(w, Some(tip));
      }
      if Delta(w, Some(tip), last.value).Ok? {
        ReplayNeverBlamesHistory(w, dest, Delta(w, Some(tip), last.value).value, base, transforms);
      }
    }
  }

  lemma {:induction false} OnlyTheMirrorBlames(w: World, t: Target, tip: Commit, branch: Option<Commit>, agents: AgentState)
    requires t.ImportTarget? && IsRelPath(t.dest)
    ensures
      var blamed := Reconciled(w, t, tip, branch, agents).outcome == Err(HistoryRewritten);
      && (blamed <==> Mirrored(w, t.dest, tip, StripTip(branch, t.dest), t.transforms) == Err(HistoryRewritten))
      && (blamed ==> Reconciled(w, t, tip, branch, agents).agents == agents)
  {
    var mirror := Mirrored(w, t.dest, tip, StripTip(branch, t.dest), t.transforms);
    if mirror.Ok? && mirror.value.head.Some? {
      LayersNeverBlameHistory(EnvOf(w, t.dest, t.layer, mirror.value.head), Combined(t.layer), mirror.value.head.value, agents);
    }
  }

  /** A reconcile refuses an upstream as rewritten exactly when stripping leaves
      an origin on the branch and that origin is off the new first-parent chain. */
  lemma {:induction false} RefusedExactlyWhenOffTheChain(w: World, t: Target, tip: Commit, branch: Option<Commit>, agents: AgentState)
    requires t.ImportTarget? && IsRelPath(t.dest)
    ensures
      var last := LastImported(StripTip(branch, t.dest), t.dest);
      Reconciled(w, t, tip, branch, agents).outcome == Err(HistoryRewritten)
      <==> last.Ok? && last.value.Some? && !OnChain(w, Some(tip), last.value.value)
  {
    OnlyTheMirrorBlames(w, t, tip, branch, agents);
    MirrorBlamesExactlyWhenOffTheChain(w, t.dest, tip, StripTip(branch, t.dest), t.transforms);
  }

  /** The upstream commits a target has on record. */
  function OnRecord(s: State, i: nat): seq<Commit> {
    if i in s.synced then History(Some(s.synced[i])) else []
  }

  /** After any run stripping leaves some of the record, from its start; all of
      it unless mirror commits with forged tip-layer trailers are stripped too.
      An upstream is refused exactly when the last commit left is not on its
      chain, and then the state stays as it is. */
  lemma {:induction false} RewritesAreRefused(sys: System, root: Option<Commit>, agents: AgentState, known: set<Commit>, events: seq<Event>, i: nat)
      returns (left: seq<Commit>)
    requires ValidSystem(sys) && Fresh(sys, root) && InjectiveOn(sys.w, known) && KnownEvents(known, events)
    requires i < |sys.targets| && sys.targets[i].ImportTarget? && IsRelPath(sys.targets[i].dest)
    requires i in Run(sys, Start(root, agents), events).upstream
    ensures
      var s := Run(sys, Start(root, agents), events);
      var base := StripTip(s.repo.branch, sys.targets[i].dest);
      var refused := Reconciled(sys.w, sys.targets[i], s.upstream[i], s.repo.branch, s.repo.agents).outcome == Err(HistoryRewritten);
      && left <= OnRecord(s, i)
      && RecordedOrigins(base, sys.targets[i].dest) == Ids(sys.w, left)
      && (PeeledCarryNoOrigin(s.repo.branch, sys.targets[i].dest) ==> left == OnRecord(s, i))
      && (refused <==> left != [] && left[|left| - 1] !in History(Some(s.upstream[i])))
      && (refused ==> Step(sys, s, Trigger(i)) == s)
  {
    var log := RunStaysExplained(sys, root, agents, known, events);
    left := LeftOnRecord(sys, root, known, Run(sys, Start(root, agents), events), log, i);
    var s := Run(sys, Start(root, agents), events);
    if Reconciled(sys.w, sys.targets[i], s.upstream[i], s.repo.branch, s.repo.agents).outcome == Err(HistoryRewritten) {
      RefusalMovesNothing(sys, s, i);
    }
  }

  lemma {:induction false} RefusalMovesNothing(sys: System, s: State, i: nat)
    requires ValidSystem(sys) && i < |sys.targets| && sys.targets[i].ImportTarget? && i in s.upstream && IsRelPath(sys.targets[i].dest)
    requires Reconciled(sys.w, sys.targets[i], s.upstream[i], s.repo.branch, s.repo.agents).outcome == Err(HistoryRewritten)
    ensures Step(sys, s, Trigger(i)) == s
  {
    OnlyTheMirrorBlames(sys.w, sys.targets[i], s.upstream[i], s.repo.branch, s.repo.agents);
    FailureMovesNothing(sys, s, i);
  }

  lemma {:induction false} LeftOnRecord(sys: System, root: Option<Commit>, known: set<Commit>, s: State, log: seq<LogEntry>, i: nat) returns (left: seq<Commit>)
    requires ValidSystem(sys) && Fresh(sys, root) && InjectiveOn(sys.w, known) && Explained(sys, root, known, s, log)
    requires i < |sys.targets| && sys.targets[i].ImportTarget? && IsRelPath(sys.targets[i].dest) && i in s.upstream
    ensures
      var base := StripTip(s.repo.branch, sys.targets[i].dest);
      && left <= OnRecord(s, i)
      && RecordedOrigins(base, sys.targets[i].dest) == Ids(sys.w, left)
      && (PeeledCarryNoOrigin(s.repo.branch, sys.targets[i].dest) ==> left == OnRecord(s, i))
      && (Reconciled(sys.w, sys.targets[i], s.upstream[i], s.repo.branch, s.repo.agents).outcome == Err(HistoryRewritten)
          <==> left != [] && left[|left| - 1] !in History(Some(s.upstream[i])))
  {
    var t := sys.targets[i];
    var base := StripTip(s.repo.branch, t.dest);
    var kept := KeptLog(sys, root, log, s.repo.branch, i);
    left := Origins(kept, i);
    assert Accounted(sys, s, log, i);
    RecordedIsLogged(sys, root, kept, base, i);
    if PeeledCarryNoOrigin(s.repo.branch, t.dest) {
      PeelingKeepsTheRecord(s.repo.branch, t.dest);
      RecordedIsLogged(sys, root, log, s.repo.branch, i);
      assert |left| == |Ids(sys.w, left)| == |Ids(sys.w, Origins(log, i))| == |Origins(log, i)|;
    }
    LastImportedIsLogged(sys, root, kept, base, i);
    RefusedExactlyWhenOffTheChain(sys.w, t, s.upstream[i], s.repo.branch, s.repo.agents);
    if left != [] {
      PrefixOfRecord(known, s.synced[i], left);
      KnownOnChain(sys.w, known, left[|left| - 1], s.upstream[i]);
    }
  }

  lemma {:induction false} PeelingKeepsTheRecord(branch: Option<Commit>, dest: string)
    requires PeeledCarryNoOrigin(branch, dest)
    ensures RecordedOrigins(StripTip(branch, dest), dest) == RecordedOrigins(branch, dest)
    decreases Depth(branch)
  {
    if branch.Some? && IsTip(branch.value.message, dest) {
      PeelingKeepsTheRecord(Parent(branch.value), dest);
    }
  }

  /** The other case is real: a mirror commit whose upstream message forges a
      tip-layer trailer is peeled off again, so a rewritten sibling of its origin
      is accepted and takes its place. */
  lemma {:induction false} ForgedCommitCanBeReplaced(w: World, dest: string, base: Option<Commit>, before: Commit, after: Commit, transforms: seq<Transform>)
    requires Recordable(dest) && StripTip(base, dest) == base
    requires Parent(before) == Parent(after) && LastImported(base, dest) == Ok(LastIdOf(w, Parent(after)))
    requires DistinctIds(w, History(Some(after)))
    requires ReplayCommit(w, dest, before, base, transforms).Ok? && ReplayCommit(w, dest, after, base, transforms).Ok?
    requires IsTip(ReplayCommit(w, dest, before, base, transforms).value.message, dest)
    ensures
      var branch := Some(ReplayCommit(w, dest, before, base, transforms).value);
      Mirrored(w, dest, after, StripTip(branch, dest), transforms)
      == Ok(MirrorOutcome(1, Some(ReplayCommit(w, dest, after, base, transforms).value)))
  {
    MirrorCommitRecords(w, dest, before, base, transforms);
    DeltaOfNewest(w, after);
    ReplayOfOne(w, dest, after, base, transforms);
  }

  lemma {:induction false} ForgedBody()
    ensures HasTrailer(BodyBreak("fix\n\nCapyFun-Patch: x"), PATCH_TRAILER)
  {
    var line := TrailerLine(PATCH_TRAILER, "x");
    var forged := "fix\n\nCapyFun-Patch: x";
    var head := "fix\n\n" + (line + "\n");
    assert line == "CapyFun-Patch: x";
    assert forged == "fix\n\n" + line;
    assert TrimEnd(forged) == forged;
    assert BodyBreak(forged) == head + ("" + "\n");
    KeysAreDistinct();
    ScanSafeTrims("x");
    TrailerThenBlank("fix\n\n", PATCH_TRAILER, "x");
    HasTrailerExactlyWhenValue(BodyBreak(forged), PATCH_TRAILER);
  }

  /** A trailer line and a blank line after it. */
  lemma {:induction false} TrailerThenBlank(head: string, key: string, value: string)
    requires EndsLine(head) && IsKey(key) && IsScanSafe(value)
    ensures TrailerValue(head + (TrailerLine(key, value) + "\n") + ("" + "\n"), key) == Some(value)
  {
    var line := TrailerLine(key, value);
    ScanSafeTrims(value);
    ScanHits(head, key, value);
    var more := head + (line + "\n");
    assert more[|more| - 1] == '\n';
    ScanPassesLine(more, "", key);
  }

  /** Such messages exist. */
  lemma {:induction false} ForgedMessageIsTip(oid: Oid, dest: string)
    requires IsScanSafe(dest)
    ensures IsTip(WithMirrorTrailers("fix\n\nCapyFun-Patch: x", oid, dest), dest)
  {
    var forged := "fix\n\nCapyFun-Patch: x";
    DestinationSurvives(forged, oid, dest);
    KeysAreDistinct();
    ForgedBody();
    ForgedTrailersShow(forged, oid, dest, PATCH_TRAILER);
  }
}
