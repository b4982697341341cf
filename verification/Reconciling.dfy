/** The reconcile loop: many targets sharing one branch, woken by lossy and
    repeated triggers while their upstreams move.  Every state it can reach is
    explained by a log of what was mirrored and vendored, in which each upstream
    commit occurs exactly once. */
module Reconciling {
  import opened Wrappers
  import opened Trailers
  import opened Trees
  import opened Paths
  import opened Worlds
  import opened Transforms
  import opened Mirror
  import opened Agents
  import opened TipLayers
  import opened Imports
  import opened Vendoring

  datatype Target =
    | ImportTarget(dest: string, transforms: seq<Transform>, layer: TipLayer)
    | VendorTarget(dest: string, slug: string)

  /** Targets that only mirror or vendor. */
  predicate HasNoLayer(t: Target) {
    t.ImportTarget? ==> Combined(t.layer) == []
  }

  datatype System = System(w: World, targets: seq<Target>)

  function Dests(targets: seq<Target>): (dests: seq<string>)
    ensures |dests| == |targets|
    ensures forall i :: 0 <= i < |targets| ==> dests[i] == targets[i].dest
  {
    if targets == [] then [] else [targets[0].dest] + Dests(targets[1..])
  }

  /** Destination, slug and labels are texts a trailer can carry, and the loop
      never refreshes. */
  predicate ValidTarget(t: Target) {
    && IsScanSafe(t.dest)
    && (t.VendorTarget? ==> IsScanSafe(t.slug))
    && (t.ImportTarget? ==> AllRecognisable(Combined(t.layer)) && !t.layer.refresh)
  }

  /** What the configuration compiler guarantees, and that each target is valid. */
  predicate ValidSystem(sys: System) {
    && ValidDestinations(Dests(sys.targets))
    && forall i :: 0 <= i < |sys.targets| ==> ValidTarget(sys.targets[i])
  }

  lemma {:induction false} TargetsAreApart(sys: System, i: nat, j: nat)
    requires ValidSystem(sys) && i < |sys.targets| && j < |sys.targets|
    ensures Recordable(sys.targets[i].dest)
    ensures i != j ==> sys.targets[i].dest != sys.targets[j].dest
    ensures i != j ==> Incomparable(Segments(sys.targets[i].dest), Segments(sys.targets[j].dest))
  {
    var dests := Dests(sys.targets);
    if i < j { OverlapIsComparability(dests[i], dests[j]); }
    if j < i { OverlapIsComparability(dests[j], dests[i]); }
  }

  // --- one reconcile ---

  /** The outcome of a reconcile, and the agent state after it. */
  datatype ReconcileRun = ReconcileRun(outcome: Result<Option<Commit>>, agents: AgentState)

  /** Reconciling a target at an upstream tip or pin. */
  function Reconciled(w: World, t: Target, tip: Commit, branch: Option<Commit>, agents: AgentState): ReconcileRun
    requires IsRelPath(t.dest)
  {
    match t
    case ImportTarget(dest, transforms, layer) =>
      var run := Imported(w, dest, tip, branch, transforms, layer, agents);
      ReconcileRun(OutcomeHead(run), run.agents)
    case VendorTarget(dest, slug) =>
      ReconcileRun(HeadOf(VendorSnapshot(w, dest, slug, tip, branch)), agents)
  }

  /** The branch moves to the head when there is one; an error moves nothing. */
  function Advanced(r: Result<Option<Commit>>, branch: Option<Commit>): Option<Commit> {
    match r
    case Ok(Some(head)) => Some(head)
    case _ => branch
  }

  /** What a reconcile changes: the branch, and the agent cache beside it. */
  datatype Repo = Repo(branch: Option<Commit>, agents: AgentState)

  /** The monorepo, as the reconciler moves it. */
  class Monorepo {
    const sys: System
    var branch: Option<Commit>
    var agents: AgentState

    constructor (sys: System, branch: Option<Commit>, agents: AgentState)
      ensures this.sys == sys && this.branch == branch && this.agents == agents
    {
      this.sys := sys;
      this.branch := branch;
      this.agents := agents;
    }

    /** Reconciles one target; `ok` tells whether it succeeded. */
    method ReconcileTarget(i: nat, tip: Commit) returns (ok: bool)
      requires ValidSystem(sys) && i < |sys.targets| && IsRelPath(sys.targets[i].dest)
      modifies this
      ensures branch == Advanced(Reconciled(sys.w, sys.targets[i], tip, old(branch), old(agents)).outcome, old(branch))
      ensures agents == Reconciled(sys.w, sys.targets[i], tip, old(branch), old(agents)).agents
      ensures ok == Reconciled(sys.w, sys.targets[i], tip, old(branch), old(agents)).outcome.Ok?
    {
      var t := sys.targets[i];
      match t {
        case ImportTarget(dest, transforms, layer) =>
          var run := Import(sys.w, dest, tip, branch, transforms, layer, agents);
          agents := run.agents;
          ok := run.outcome.Ok?;
          if ok && run.outcome.value.head.Some? && run.outcome.value.head != branch {
            branch := run.outcome.value.head;
          }
        case VendorTarget(dest, slug) =>
          var last := FindLastVendored(branch, dest);
          ok := last.Ok?;
          if ok && last.value != Some(sys.w.id(tip)) {
            branch := Some(VendorCommit(sys.w, dest, slug, tip, branch));
          }
      }
    }

    /** Acts on a batch of triggers, each naming a target: every target once, in
        order, whatever happened to the ones before. */
    method Act(triggers: seq<nat>, upstream: map<nat, Commit>) returns (ok: nat)
      requires ValidSystem(sys)
      modifies this
      ensures Repo(branch, agents) == ActedOn(sys, DistinctSorted(triggers), upstream, old(Repo(branch, agents)))
      ensures ok == Successes(sys, DistinctSorted(triggers), upstream, old(Repo(branch, agents)))
    {
      var labels := DistinctSorted(triggers);
      ghost var start := Repo(branch, agents);
      ok := 0;
      for k := 0 to |labels|
        invariant ok == Successes(sys, labels[..k], upstream, start)
        invariant Repo(branch, agents) == ActedOn(sys, labels[..k], upstream, start)
      {
        var i: nat := labels[k];
        OneLabelMore(sys, labels[..k], i, upstream, start);
        assert labels[..k + 1] == labels[..k] + [i];
        if i < |sys.targets| && i in upstream {
          TargetsAreApart(sys, i, i);
          var done := ReconcileTarget(i, upstream[i]);
          ok := ok + if done then 1 else 0;
        }
      }
      assert labels[..|labels|] == labels;
    }
  }

  /** Ascending, without repeats. */
  function DistinctSorted(xs: seq<nat>): seq<nat> {
    if xs == [] then [] else Inserted(xs[0], DistinctSorted(xs[1..]))
  }

  function Inserted(x: nat, sorted: seq<nat>): seq<nat> {
    if sorted == [] || x < sorted[0] then [x] + sorted
    else if x == sorted[0] then sorted
    else [sorted[0]] + Inserted(x, sorted[1..])
  }

  predicate Ascends(xs: seq<nat>) {
    forall i, j :: 0 <= i < j < |xs| ==> xs[i] < xs[j]
  }

  lemma AscendsCons(first: nat, rest: seq<nat>)
    requires Ascends(rest) && forall y <- rest :: first < y
    ensures Ascends([first] + rest)
  {
    var all := [first] + rest;
    forall i, j | 0 <= i < j < |all| ensures all[i] < all[j] {
      assert all[j] == rest[j - 1] && rest[j - 1] in rest;
      if i > 0 {
        assert all[i] == rest[i - 1];
      }
    }
  }

  lemma {:induction false} InsertedAscends(x: nat, sorted: seq<nat>)
    requires Ascends(sorted)
    ensures Ascends(Inserted(x, sorted))
    ensures forall y :: y in Inserted(x, sorted) <==> y == x || y in sorted
  {
    if sorted == [] {
      assert Inserted(x, sorted) == [x];
    } else {
      assert sorted == [sorted[0]] + sorted[1..];
      assert forall y <- sorted[1..] :: sorted[0] < y;
      if x < sorted[0] {
        AscendsCons(x, sorted);
      } else if x > sorted[0] {
        InsertedAscends(x, sorted[1..]);
        AscendsCons(sorted[0], Inserted(x, sorted[1..]));
      }
    }
  }

  /** A batch names the targets of its triggers, each once, in order. */
  lemma {:induction false} BatchIsTheTriggers(xs: seq<nat>)
    ensures Ascends(DistinctSorted(xs))
    ensures forall y :: y in DistinctSorted(xs) <==> y in xs
  {
    if xs != [] {
      BatchIsTheTriggers(xs[1..]);
      InsertedAscends(xs[0], DistinctSorted(xs[1..]));
      assert xs == [xs[0]] + xs[1..];
    }
  }

  /** An unknown target and an unreachable upstream are errors that move nothing. */
  function ReconcileAt(sys: System, i: nat, upstream: map<nat, Commit>, repo: Repo): Repo
    requires ValidSystem(sys)
  {
    if i < |sys.targets| && i in upstream then
      TargetsAreApart(sys, i, i);
      var run := Reconciled(sys.w, sys.targets[i], upstream[i], repo.branch, repo.agents);
      Repo(Advanced(run.outcome, repo.branch), run.agents)
    else repo
  }

  /** Whether reconciling target `i` succeeds. */
  predicate Succeeds(sys: System, i: nat, tip: Commit, repo: Repo)
    requires ValidSystem(sys) && i < |sys.targets|
  {
    TargetsAreApart(sys, i, i);
    Reconciled(sys.w, sys.targets[i], tip, repo.branch, repo.agents).outcome.Ok?
  }

  /** How many of a batch succeed, each on what those before left. */
  function Successes(sys: System, labels: seq<nat>, upstream: map<nat, Commit>, repo: Repo): nat
    requires ValidSystem(sys)
    decreases |labels|
  {
    if labels == [] then 0 else
      var init := labels[..|labels| - 1];
      Successes(sys, init, upstream, repo)
      + (var i := labels[|labels| - 1];
         if i < |sys.targets| && i in upstream && Succeeds(sys, i, upstream[i], ActedOn(sys, init, upstream, repo)) then 1 else 0)
  }

  function ActedOn(sys: System, labels: seq<nat>, upstream: map<nat, Commit>, repo: Repo): Repo
    requires ValidSystem(sys)
    decreases |labels|
  {
    if labels == [] then repo
    else ReconcileAt(sys, labels[|labels| - 1], upstream, ActedOn(sys, labels[..|labels| - 1], upstream, repo))
  }

  /** Acting on one label more. */
  lemma {:induction false} OneLabelMore(sys: System, labels: seq<nat>, i: nat, upstream: map<nat, Commit>, repo: Repo)
    requires ValidSystem(sys)
    ensures ActedOn(sys, labels + [i], upstream, repo) == ReconcileAt(sys, i, upstream, ActedOn(sys, labels, upstream, repo))
    ensures Successes(sys, labels + [i], upstream, repo) ==
            Successes(sys, labels, upstream, repo)
            + if i < |sys.targets| && i in upstream && Succeeds(sys, i, upstream[i], ActedOn(sys, labels, upstream, repo)) then 1 else 0
  {
    var all := labels + [i];
    assert all[..|all| - 1] == labels && all[|all| - 1] == i;
  }
}
