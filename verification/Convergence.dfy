/** What the reconcile loop converges to: repeated, late and reordered triggers,
    sweeps, failures, and what the dry run says along the way. */
module Convergence {
  import opened Wrappers
  import opened Trailers
  import opened Paths
  import opened Worlds
  import opened Transforms
  import opened Histories
  import opened Mirror
  import opened Agents
  import opened TipLayers
  import opened Imports
  import opened Vendoring
  import opened Reconciling
  import opened Runs
  import Status

  // --- repeated triggers ---

  lemma {:induction false} HistoryDepths(cur: Option<Commit>, k: nat)
    requires k < |History(cur)|
    ensures Depth(Some(History(cur)[k])) == k + 1
  {
    HistoryPrefix(cur, k);
  }

  /** Commits of one history have different ids when ids are injective. */
  lemma {:induction false} KnownIdsAreDistinct(w: World, known: set<Commit>, tip: Commit)
    requires InjectiveOn(w, known) && Knows(known, tip)
    ensures DistinctIds(w, History(Some(tip)))
  {
    var h := History(Some(tip));
    forall i, j | 0 <= i < j < |h| ensures w.id(h[i]) != w.id(h[j]) {
      HistoryDepths(Some(tip), i);
      HistoryDepths(Some(tip), j);
      assert h[i] in h && h[j] in h;
    }
  }

  /** A successful import ends in a commit. */
  lemma {:induction false} HeadOfImport(w: World, t: Target, tip: Commit, branch: Option<Commit>, agents: AgentState)
    requires t.ImportTarget? && IsRelPath(t.dest) && Reconciled(w, t, tip, branch, agents).outcome.Ok?
    ensures Reconciled(w, t, tip, branch, agents).outcome.value.Some?
  {
    ImportParts(w, t, tip, branch, agents);
    var base := StripTip(branch, t.dest);
    var delta := Delta(w, Some(tip), LastImported(base, t.dest).value).value;
    if base.None? {
      DeltaOfEverything(w, Some(tip));
    }
    if delta != [] {
      var below := RunParent(w, t.dest, delta, base, t.transforms);
    }
  }

  /** Reconciling again at the same tip gives the same head and leaves the agents
      alone. */
  lemma {:induction false} ReconciledAgain(w: World, t: Target, tip: Commit, branch: Option<Commit>, agents: AgentState)
    requires IsRelPath(t.dest) && ValidTarget(t) && DistinctIds(w, History(Some(tip)))
    requires Reconciled(w, t, tip, branch, agents).outcome.Ok?
    ensures
      var first := Reconciled(w, t, tip, branch, agents);
      Reconciled(w, t, tip, Advanced(first.outcome, branch), first.agents) == first
  {
    match t {
      case VendorTarget(dest, slug) => VendoringIsIdempotent(w, dest, slug, tip, branch);
      case ImportTarget(dest, transforms, layer) =>
        RepeatingIsFree(w, dest, tip, branch, transforms, layer, agents, layer.runner);
        assert layer.(runner := layer.runner) == layer;
        HeadOfImport(w, t, tip, branch, agents);
    }
  }

  lemma {:induction false} TriggerThatSucceeds(sys: System, known: set<Commit>, s: State, i: nat)
    requires ValidSystem(sys) && InjectiveOn(sys.w, known)
    requires i < |sys.targets| && i in s.upstream && Knows(known, s.upstream[i])
    requires Succeeds(sys, i, s.upstream[i], s.repo)
    ensures ReconcileAt(sys, i, s.upstream, ReconcileAt(sys, i, s.upstream, s.repo)) == ReconcileAt(sys, i, s.upstream, s.repo)
    ensures Succeeds(sys, i, s.upstream[i], ReconcileAt(sys, i, s.upstream, s.repo))
  {
    TargetsAreApart(sys, i, i);
    KnownIdsAreDistinct(sys.w, known, s.upstream[i]);
    ReconciledAgain(sys.w, sys.targets[i], s.upstream[i], s.repo.branch, s.repo.agents);
  }

  /** A trigger repeated after a reconcile that succeeded changes nothing more, no
      commit, no agent run, no cache entry, as long as branch, cache and upstream
      tip are as that reconcile left them, whatever else happened. */
  lemma {:induction false} DuplicateTriggersAreHarmless(sys: System, known: set<Commit>, s: State, later: State, i: nat)
    requires ValidSystem(sys) && InjectiveOn(sys.w, known)
    requires i < |sys.targets| && i in s.upstream && Knows(known, s.upstream[i])
    requires Succeeds(sys, i, s.upstream[i], s.repo)
    requires later.repo == Step(sys, s, Trigger(i)).repo
    requires i in later.upstream && later.upstream[i] == s.upstream[i] && i in later.synced && later.synced[i] == s.upstream[i]
    ensures Step(sys, later, Trigger(i)) == later
  {
    TriggerThatSucceeds(sys, known, s, i);
    assert later.repo == ReconcileAt(sys, i, s.upstream, s.repo);
    assert ReconcileAt(sys, i, later.upstream, later.repo) == later.repo;
    assert later.synced[i := later.upstream[i]] == later.synced;
  }

  // --- sweeps ---

  lemma {:induction false} ReplayAppend(w: World, dest: string, origins: seq<Commit>, last: Commit, base: Option<Commit>, parent: Option<Commit>,
                                        c: Commit, transforms: seq<Transform>)
    requires IsRelPath(dest) && ReplayAll(w, dest, origins, base, transforms) == Ok(parent)
    requires ReplayCommit(w, dest, last, parent, transforms) == Ok(c)
    ensures ReplayAll(w, dest, origins + [last], base, transforms) == Ok(Some(c))
  {
    var all := origins + [last];
    assert all[..|all| - 1] == origins && all[|all| - 1] == last;
  }

  /** Without a tip layer, what stripping peels off is the replay of the peeled
      origins on what is left. */
  lemma {:induction false} PeeledIsReplayed(sys: System, root: Option<Commit>, log: seq<LogEntry>, branch: Option<Commit>, i: nat) returns (k: nat)
    requires ValidSystem(sys) && Fresh(sys, root) && Assembles(sys, root, log, branch)
    requires i < |sys.targets| && sys.targets[i].ImportTarget? && HasNoLayer(sys.targets[i]) && IsRelPath(sys.targets[i].dest)
    ensures k <= |log| && Assembles(sys, root, log[..k], StripTip(branch, sys.targets[i].dest))
    ensures ReplayAll(sys.w, sys.targets[i].dest, Origins(log[k..], i), StripTip(branch, sys.targets[i].dest), sys.targets[i].transforms) == Ok(branch)
    decreases |log|
  {
    var t := sys.targets[i];
    k := |log|;
    assert log[..k] == log && log[k..] == [];
    if log == [] {
      FreshReads(sys, root, i);
    } else if StripTip(branch, t.dest) != branch {
      var n := |log| - 1;
      var parent := Parent(branch.value);
      PeeledEntry(sys, log[n], parent, branch.value, i);
      StripOnce(branch, t.dest);
      k := PeeledIsReplayed(sys, root, log[..n], parent, i);
      CutShorter(log, n, k);
      OriginsAfterOne(log[..n][k..], log[n]);
      ReplayAppend(sys.w, t.dest, Origins(log[..n][k..], i), log[n].origin, StripTip(parent, t.dest), parent, branch.value, t.transforms);
    }
  }

  lemma {:induction false} PeeledEntry(sys: System, e: LogEntry, parent: Option<Commit>, c: Commit, i: nat)
    requires ValidSystem(sys) && i < |sys.targets| && Made(sys, e, parent, c)
    requires sys.targets[i].ImportTarget? && HasNoLayer(sys.targets[i]) && IsRelPath(sys.targets[i].dest)
    requires StripTip(Some(c), sys.targets[i].dest) != Some(c)
    ensures e.Synced? && e.target == i && Parent(c) == parent
    ensures ReplayCommit(sys.w, sys.targets[i].dest, e.origin, parent, sys.targets[i].transforms) == Ok(c)
  {
    MadeReads(sys, e, parent, c, i);
  }

  lemma {:induction false} DeltaOfSuffix(w: World, tip: Commit, recorded: seq<Commit>, rest: seq<Commit>)
    requires DistinctIds(w, History(Some(tip))) && recorded + rest == History(Some(tip))
    ensures Delta(w, Some(tip), LastId(w, recorded)) == Ok(rest)
  {
    var h := History(Some(tip));
    if recorded == [] {
      DeltaOfEverything(w, Some(tip));
      assert rest == h;
    } else {
      var k := |recorded| - 1;
      assert h[k] == recorded[k];
      DeltaAfter(w, Some(tip), k);
      assert h[k + 1..] == rest;
    }
  }

  /** Nothing to do for target `i`: it is at its upstream tip or pin already. */
  predicate UpToDate(sys: System, s: State, i: nat) {
    i < |sys.targets| && i in s.upstream ==>
      HasNoLayer(sys.targets[i]) && i in s.synced && s.synced[i] == s.upstream[i]
  }

  lemma {:induction false} UpToDateImport(sys: System, root: Option<Commit>, known: set<Commit>, s: State, log: seq<LogEntry>, i: nat)
    requires ValidSystem(sys) && Fresh(sys, root) && InjectiveOn(sys.w, known) && Explained(sys, root, known, s, log)
    requires i < |sys.targets| && i in s.upstream && UpToDate(sys, s, i)
    requires sys.targets[i].ImportTarget? && IsRelPath(sys.targets[i].dest)
    ensures MirrorOf(sys, s, i).Ok? && MirrorOf(sys, s, i).value.head == s.repo.branch
  {
    var k := PeeledIsReplayed(sys, root, log, s.repo.branch, i);
    var kept, rest := Origins(log[..k], i), Origins(log[k..], i);
    CutRecord(sys, known, s, log, i, k);
    LastImportedIsLogged(sys, root, log[..k], StripTip(s.repo.branch, sys.targets[i].dest), i);
    MirrorOfDelta(sys, s, i, LastId(sys.w, kept), rest);
  }

  /** The record of a target that is up to date, cut where stripping cuts. */
  lemma {:induction false} CutRecord(sys: System, known: set<Commit>, s: State, log: seq<LogEntry>, i: nat, k: nat)
    requires InjectiveOn(sys.w, known) && k <= |log| && i < |sys.targets| && i in s.upstream && Knows(known, s.upstream[i])
    requires sys.targets[i].ImportTarget? && UpToDate(sys, s, i) && Accounted(sys, s, log, i)
    ensures Delta(sys.w, Some(s.upstream[i]), LastId(sys.w, Origins(log[..k], i))) == Ok(Origins(log[k..], i))
  {
    assert log == log[..k] + log[k..];
    OriginsConcat(log[..k], log[k..], i);
    KnownIdsAreDistinct(sys.w, known, s.upstream[i]);
    DeltaOfSuffix(sys.w, s.upstream[i], Origins(log[..k], i), Origins(log[k..], i));
  }

  lemma {:induction false} MirrorOfDelta(sys: System, s: State, i: nat, last: Option<Oid>, delta: seq<Commit>)
    requires i < |sys.targets| && sys.targets[i].ImportTarget? && i in s.upstream && IsRelPath(sys.targets[i].dest)
    requires LastImported(StripTip(s.repo.branch, sys.targets[i].dest), sys.targets[i].dest) == Ok(last)
    requires Delta(sys.w, Some(s.upstream[i]), last) == Ok(delta)
    requires ReplayAll(sys.w, sys.targets[i].dest, delta, StripTip(s.repo.branch, sys.targets[i].dest), sys.targets[i].transforms) == Ok(s.repo.branch)
    ensures MirrorOf(sys, s, i) == Ok(MirrorOutcome(|delta|, s.repo.branch))
  {
  }

  lemma {:induction false} UpToDateVendor(sys: System, root: Option<Commit>, known: set<Commit>, s: State, log: seq<LogEntry>, i: nat)
    requires ValidSystem(sys) && Fresh(sys, root) && Explained(sys, root, known, s, log)
    requires i < |sys.targets| && i in s.upstream && UpToDate(sys, s, i)
    requires sys.targets[i].VendorTarget? && IsRelPath(sys.targets[i].dest)
    ensures VendorSnapshot(sys.w, sys.targets[i].dest, sys.targets[i].slug, s.upstream[i], s.repo.branch) == Ok(MirrorOutcome(0, s.repo.branch))
  {
    assert Accounted(sys, s, log, i);
    LastVendoredIsLogged(sys, root, log, s.repo.branch, i);
  }

  lemma {:induction false} ReconciledUpToDate(sys: System, root: Option<Commit>, known: set<Commit>, s: State, log: seq<LogEntry>, i: nat)
    requires ValidSystem(sys) && Fresh(sys, root) && InjectiveOn(sys.w, known) && Explained(sys, root, known, s, log)
    requires i < |sys.targets| && i in s.upstream && UpToDate(sys, s, i) && IsRelPath(sys.targets[i].dest)
    ensures Reconciled(sys.w, sys.targets[i], s.upstream[i], s.repo.branch, s.repo.agents) == ReconcileRun(Ok(s.repo.branch), s.repo.agents)
  {
    if sys.targets[i].ImportTarget? {
      UpToDateImport(sys, root, known, s, log, i);
      LayerlessRun(sys, s, i);
    } else {
      UpToDateVendor(sys, root, known, s, log, i);
    }
  }

  lemma {:induction false} LayerlessRun(sys: System, s: State, i: nat)
    requires i < |sys.targets| && sys.targets[i].ImportTarget? && HasNoLayer(sys.targets[i]) && i in s.upstream && IsRelPath(sys.targets[i].dest)
    requires MirrorOf(sys, s, i).Ok?
    ensures Reconciled(sys.w, sys.targets[i], s.upstream[i], s.repo.branch, s.repo.agents)
         == ReconcileRun(Ok(MirrorOf(sys, s, i).value.head), s.repo.agents)
  {
  }

  lemma {:induction false} UpToDateIsLeftAlone(sys: System, root: Option<Commit>, known: set<Commit>, s: State, log: seq<LogEntry>, i: nat)
    requires ValidSystem(sys) && Fresh(sys, root) && InjectiveOn(sys.w, known) && Explained(sys, root, known, s, log)
    requires UpToDate(sys, s, i)
    ensures ReconcileAt(sys, i, s.upstream, s.repo) == s.repo
    ensures Step(sys, s, Trigger(i)) == s
  {
    if i < |sys.targets| && i in s.upstream {
      TargetsAreApart(sys, i, i);
      ReconciledUpToDate(sys, root, known, s, log, i);
      NothingMoves(sys, s, i);
    }
  }

  lemma {:induction false} NothingMoves(sys: System, s: State, i: nat)
    requires ValidSystem(sys) && i < |sys.targets| && i in s.upstream && IsRelPath(sys.targets[i].dest)
    requires i in s.synced && s.synced[i] == s.upstream[i]
    requires Reconciled(sys.w, sys.targets[i], s.upstream[i], s.repo.branch, s.repo.agents) == ReconcileRun(Ok(s.repo.branch), s.repo.agents)
    ensures ReconcileAt(sys, i, s.upstream, s.repo) == s.repo
    ensures Step(sys, s, Trigger(i)) == s
  {
    RepoStays(sys, s.upstream, s.repo, i);
    TriggerStays(sys, s, i);
  }

  lemma {:induction false} RepoStays(sys: System, upstream: map<nat, Commit>, repo: Repo, i: nat)
    requires ValidSystem(sys) && i < |sys.targets| && i in upstream && IsRelPath(sys.targets[i].dest)
    requires Reconciled(sys.w, sys.targets[i], upstream[i], repo.branch, repo.agents) == ReconcileRun(Ok(repo.branch), repo.agents)
    ensures ReconcileAt(sys, i, upstream, repo) == repo
  {
    var run := Reconciled(sys.w, sys.targets[i], upstream[i], repo.branch, repo.agents);
    assert Advanced(run.outcome, repo.branch) == repo.branch;
  }

  lemma {:induction false} TriggerStays(sys: System, s: State, i: nat)
    requires ValidSystem(sys) && i in s.upstream && i in s.synced && s.synced[i] == s.upstream[i]
    requires ReconcileAt(sys, i, s.upstream, s.repo) == s.repo
    ensures Step(sys, s, Trigger(i)) == s
  {
    assert s.synced[i := s.upstream[i]] == s.synced;
    assert s.(repo := s.repo) == s;
  }

  /** Late, reordered and repeated hints: after any run, foreign commits, other
      targets and forged trailers included, a trigger of a target without a tip
      layer that is at its upstream tip or pin changes nothing. */
  lemma {:induction false} UpToDateTriggersChangeNothing(sys: System, root: Option<Commit>, agents: AgentState, known: set<Commit>, events: seq<Event>, i: nat)
    requires ValidSystem(sys) && Fresh(sys, root) && InjectiveOn(sys.w, known) && KnownEvents(known, events)
    requires UpToDate(sys, Run(sys, Start(root, agents), events), i)
    ensures var s := Run(sys, Start(root, agents), events); Step(sys, s, Trigger(i)) == s
  {
    var log := RunStaysExplained(sys, root, agents, known, events);
    UpToDateIsLeftAlone(sys, root, known, Run(sys, Start(root, agents), events), log, i);
  }

  lemma {:induction false} BatchLeavesAlone(sys: System, root: Option<Commit>, known: set<Commit>, s: State, log: seq<LogEntry>, labels: seq<nat>)
    requires ValidSystem(sys) && Fresh(sys, root) && InjectiveOn(sys.w, known) && Explained(sys, root, known, s, log)
    requires forall k :: 0 <= k < |labels| ==> UpToDate(sys, s, labels[k])
    ensures ActedOn(sys, labels, s.upstream, s.repo) == s.repo
    decreases |labels|
  {
    if labels != [] {
      BatchLeavesAlone(sys, root, known, s, log, labels[..|labels| - 1]);
      UpToDateIsLeftAlone(sys, root, known, s, log, labels[|labels| - 1]);
    }
  }

  /** A sweep: a whole batch of triggers of targets that are up to date leaves
      branch and cache alone. */
  lemma {:induction false} SweepsChangeNothing(sys: System, root: Option<Commit>, agents: AgentState, known: set<Commit>, events: seq<Event>, triggers: seq<nat>)
    requires ValidSystem(sys) && Fresh(sys, root) && InjectiveOn(sys.w, known) && KnownEvents(known, events)
    requires forall i <- triggers :: UpToDate(sys, Run(sys, Start(root, agents), events), i)
    ensures
      var s := Run(sys, Start(root, agents), events);
      ActedOn(sys, DistinctSorted(triggers), s.upstream, s.repo) == s.repo
  {
    var s := Run(sys, Start(root, agents), events);
    var log := RunStaysExplained(sys, root, agents, known, events);
    BatchIsTheTriggers(triggers);
    forall k | 0 <= k < |DistinctSorted(triggers)| ensures UpToDate(sys, s, DistinctSorted(triggers)[k]) {
      assert DistinctSorted(triggers)[k] in triggers;
    }
    BatchLeavesAlone(sys, root, known, s, log, DistinctSorted(triggers));
  }

  // --- repeated failures ---

  /** Layers of patches call no agent. */
  predicate AsksNoAgent(t: Target) {
    t.ImportTarget? ==> PatchOnly(Combined(t.layer))
  }

  /** A trigger that fails without asking an agent changes nothing at all, however
      often it is repeated. */
  lemma {:induction false} FailureWithoutAgentsChangesNothing(sys: System, s: State, i: nat)
    requires ValidSystem(sys)
    requires i < |sys.targets| && i in s.upstream ==> !Succeeds(sys, i, s.upstream[i], s.repo) && AsksNoAgent(sys.targets[i])
    ensures Step(sys, s, Trigger(i)) == s
  {
    FailureMovesNothing(sys, s, i);
    if i < |sys.targets| && i in s.upstream && sys.targets[i].ImportTarget? {
      TargetsAreApart(sys, i, i);
      AgentsUnasked(sys.w, sys.targets[i], s.upstream[i], s.repo.branch, s.repo.agents);
    }
  }

  lemma {:induction false} AgentsUnasked(w: World, t: Target, tip: Commit, branch: Option<Commit>, agents: AgentState)
    requires IsRelPath(t.dest) && t.ImportTarget? && PatchOnly(Combined(t.layer))
    ensures Reconciled(w, t, tip, branch, agents).agents == agents
  {
    var mirror := Mirrored(w, t.dest, tip, StripTip(branch, t.dest), t.transforms);
    if mirror.Ok? && mirror.value.head.Some? {
      PatchLayerNeedsNoAgents(EnvOf(w, t.dest, t.layer, mirror.value.head), Combined(t.layer), mirror.value.head.value, agents, agents, t.layer.refresh);
    }
  }

  // --- reports ---

  /** Over any run: what the dry run says of an import.  It is up to date exactly
      at the tip last reconciled; an upstream that has grown is behind by what it
      grew; one never reconciled is behind by its whole history; a rewritten one
      has no count. */
  lemma {:induction false} ReportsOverRuns(sys: System, root: Option<Commit>, agents: AgentState, known: set<Commit>, events: seq<Event>, i: nat)
    requires ValidSystem(sys) && Fresh(sys, root) && InjectiveOn(sys.w, known) && KnownEvents(known, events)
    requires i < |sys.targets| && sys.targets[i].ImportTarget?
    requires i in Run(sys, Start(root, agents), events).upstream
    ensures
      var s := Run(sys, Start(root, agents), events);
      Status.ImportStatus(sys.w, sys.targets[i].dest, s.repo.branch, Some(s.upstream[i])) == ExpectedReport(s, i)
  {
    var log := RunStaysExplained(sys, root, agents, known, events);
    ReportOfExplained(sys, root, known, Run(sys, Start(root, agents), events), log, i);
  }

  lemma {:induction false} ReportOfExplained(sys: System, root: Option<Commit>, known: set<Commit>, s: State, log: seq<LogEntry>, i: nat)
    requires ValidSystem(sys) && Fresh(sys, root) && InjectiveOn(sys.w, known) && Explained(sys, root, known, s, log)
    requires i < |sys.targets| && sys.targets[i].ImportTarget? && i in s.upstream
    ensures Status.ImportStatus(sys.w, sys.targets[i].dest, s.repo.branch, Some(s.upstream[i])) == ExpectedReport(s, i)
  {
    LastImportedIsLogged(sys, root, log, s.repo.branch, i);
    assert Accounted(sys, s, log, i);
    if i in s.synced {
      assert LastId(sys.w, Origins(log, i)) == Some(sys.w.id(s.synced[i]));
      ReportPastSynced(sys.w, known, sys.targets[i].dest, s.repo.branch, s.synced[i], s.upstream[i]);
    } else {
      DeltaOfEverything(sys.w, Some(s.upstream[i]));
    }
  }

  lemma {:induction false} ReportPastSynced(w: World, known: set<Commit>, dest: string, branch: Option<Commit>, synced: Commit, tip: Commit)
    requires InjectiveOn(w, known) && Knows(known, synced) && Knows(known, tip)
    requires LastImported(branch, dest) == Ok(Some(w.id(synced)))
    ensures Status.ImportStatus(w, dest, branch, Some(tip)) == ReportPast(synced, tip)
  {
    DeltaPastSynced(w, known, synced, tip);
    ReportIs(w, dest, branch, tip, w.id(synced));
  }

  lemma {:induction false} ReportIs(w: World, dest: string, branch: Option<Commit>, tip: Commit, last: Oid)
    requires LastImported(branch, dest) == Ok(Some(last))
    ensures
      var delta := Delta(w, Some(tip), Some(last));
      Status.ImportStatus(w, dest, branch, Some(tip)) ==
      if last == w.id(tip) then Status.UpToDate
      else Status.Behind(if delta.Ok? then Some(|delta.value|) else None, false)
  {
  }

  lemma {:induction false} ShorterHistory(c: Commit, tip: Commit)
    requires c in History(Some(tip))
    ensures |History(Some(c))| <= |History(Some(tip))|
  {
    var h := History(Some(tip));
    var k :| 0 <= k < |h| && h[k] == c;
    HistoryPrefix(Some(tip), k);
  }

  function ExpectedReport(s: State, i: nat): Status.State
    requires i in s.upstream
  {
    if i in s.synced then ReportPast(s.synced[i], s.upstream[i])
    else Status.Behind(Some(|History(Some(s.upstream[i]))|), true)
  }

  /** The report on a tip when the branch is at `synced`. */
  function ReportPast(synced: Commit, tip: Commit): Status.State {
    var h := History(Some(tip));
    if synced == tip then Status.UpToDate
    else if synced in h then
      ShorterHistory(synced, tip);
      Status.Behind(Some(|h| - |History(Some(synced))|), false)
    else Status.Behind(None, false)
  }

  lemma {:induction false} DeltaPastSynced(w: World, known: set<Commit>, synced: Commit, tip: Commit)
    requires InjectiveOn(w, known) && Knows(known, synced) && Knows(known, tip)
    ensures w.id(synced) == w.id(tip) <==> synced == tip
    ensures
      var h, delta := History(Some(tip)), Delta(w, Some(tip), Some(w.id(synced)));
      if synced in h then |History(Some(synced))| <= |h| && delta.Ok? && |delta.value| == |h| - |History(Some(synced))|
      else delta == Err(HistoryRewritten)
  {
    var h := History(Some(tip));
    assert synced in History(Some(synced)) && tip in h;
    DeltaFails(w, Some(tip), w.id(synced));
    KnownOnChain(w, known, synced, tip);
    if synced in h {
      var k :| 0 <= k < |h| && h[k] == synced;
      HistoryPrefix(Some(tip), k);
      KnownIdsAreDistinct(w, known, tip);
      DeltaAfter(w, Some(tip), k);
    }
  }

  lemma {:induction false} KnownOnChain(w: World, known: set<Commit>, c: Commit, tip: Commit)
    requires InjectiveOn(w, known) && Knows(known, tip) && c in known
    ensures OnChain(w, Some(tip), w.id(c)) <==> c in History(Some(tip))
  {
  }
}
