/** Whole runs of the reconcile loop: any interleaving of upstream pushes
    (rewrites included), triggers (lost or repeated), and commits that other
    people land on the branch. */
module Runs {
  import opened Wrappers
  import opened Trailers
  import opened Trees
  import opened Paths
  import opened Worlds
  import opened Histories
  import opened Mirror
  import opened Agents
  import opened TipLayers
  import opened Imports
  import opened Vendoring
  import opened Reconciling

  // --- what is on the branch ---

  /** One commit of the branch: made by a target from an upstream commit, put
      on top by a target's tip layer, or landed by somebody else. */
  datatype LogEntry =
    | Synced(target: nat, origin: Commit)
    | OnTop(target: nat)
    | Landed

  /** A foreign commit: any change to any file, under a message that does not
      claim to be the engine's. */
  predicate Foreign(sys: System, parent: Option<Commit>, c: Commit) {
    && Parent(c) == parent
    && forall i :: 0 <= i < |sys.targets| ==> !ScopedTo(c.message, sys.targets[i].dest)
  }

  /** A commit of the tip layer of target `i`. */
  predicate MadeOnTop(sys: System, i: nat, parent: Option<Commit>, c: Commit) {
    && i < |sys.targets| && sys.targets[i].ImportTarget? && Combined(sys.targets[i].layer) != []
    && Parent(c) == parent
    && IsTip(c.message, sys.targets[i].dest) && OriginTrailer(c.message) == None
    && var path := Segments(sys.targets[i].dest);
       path != [] && SubtreeAt(c.tree, path).Some? && c.tree == Splice(TreeOf(parent), path, SubtreeAt(c.tree, path).value)
  }

  /** The commit a log entry stands for. */
  predicate Made(sys: System, e: LogEntry, parent: Option<Commit>, c: Commit)
    requires ValidSystem(sys)
  {
    match e
    case Landed => Foreign(sys, parent, c)
    case OnTop(i) => MadeOnTop(sys, i, parent, c)
    case Synced(i, origin) =>
      && i < |sys.targets|
      && IsRelPath(sys.targets[i].dest)
      && match sys.targets[i]
         case ImportTarget(dest, transforms, _) => ReplayCommit(sys.w, dest, origin, parent, transforms) == Ok(c)
         case VendorTarget(dest, slug) => c == VendorCommit(sys.w, dest, slug, origin, parent)
  }

  /** The branch is `root` with one commit per entry of the log on top. */
  predicate Assembles(sys: System, root: Option<Commit>, log: seq<LogEntry>, branch: Option<Commit>)
    requires ValidSystem(sys)
    decreases |log|
  {
    if log == [] then branch == root
    else
      && branch.Some?
      && Made(sys, log[|log| - 1], Parent(branch.value), branch.value)
      && Assembles(sys, root, log[..|log| - 1], Parent(branch.value))
  }

  /** The upstream commits a target put on the branch, oldest first. */
  function Origins(log: seq<LogEntry>, i: nat): seq<Commit> {
    if log == [] then [] else
      var older := Origins(log[..|log| - 1], i);
      match log[|log| - 1]
      case Synced(j, origin) => if i == j then older + [origin] else older
      case _ => older
  }

  lemma {:induction false} OriginsConcat(a: seq<LogEntry>, b: seq<LogEntry>, i: nat)
    ensures Origins(a + b, i) == Origins(a, i) + Origins(b, i)
    decreases |b|
  {
    if b == [] {
      assert a + b == a;
    } else {
      assert (a + b)[..|a + b| - 1] == a + b[..|b| - 1];
      OriginsConcat(a, b[..|b| - 1], i);
    }
  }

  /** The origin ids recorded for a destination, oldest first: what a scan of
      the whole branch reads. */
  function RecordedOrigins(cur: Option<Commit>, dest: string): seq<string>
    decreases Depth(cur)
  {
    if cur.None? then [] else
      var older := RecordedOrigins(Parent(cur.value), dest);
      if ScopedTo(cur.value.message, dest) && OriginTrailer(cur.value.message).Some?
      then older + [OriginTrailer(cur.value.message).value] else older
  }

  function Ids(w: World, commits: seq<Commit>): (ids: seq<string>)
    ensures |ids| == |commits|
    ensures forall k :: 0 <= k < |commits| ==> ids[k] == w.id(commits[k])
  {
    seq(|commits|, k requires 0 <= k < |commits| => w.id(commits[k]))
  }

  lemma {:induction false} IdsAppend(w: World, commits: seq<Commit>, last: Commit)
    ensures Ids(w, commits + [last]) == Ids(w, commits) + [w.id(last)]
  {
  }

  /** The branch before any target ran: no commit is scoped to a target. */
  predicate Fresh(sys: System, root: Option<Commit>) {
    forall c <- History(root), i :: 0 <= i < |sys.targets| ==> !ScopedTo(c.message, sys.targets[i].dest)
  }

  lemma {:induction false} FreshParent(sys: System, root: Option<Commit>)
    requires Fresh(sys, root) && root.Some?
    ensures Fresh(sys, Parent(root.value))
    ensures forall i :: 0 <= i < |sys.targets| ==> !ScopedTo(root.value.message, sys.targets[i].dest)
  {
    assert History(root) == History(Parent(root.value)) + [root.value];
    assert root.value in History(root);
  }

  lemma {:induction false} FreshReads(sys: System, root: Option<Commit>, i: nat)
    requires Fresh(sys, root) && i < |sys.targets|
    ensures RecordedOrigins(root, sys.targets[i].dest) == []
    ensures LastImported(root, sys.targets[i].dest) == Ok(None)
    ensures LastVendored(root, sys.targets[i].dest) == Ok(None)
    ensures StripTip(root, sys.targets[i].dest) == root
    decreases Depth(root)
  {
    if root.Some? {
      FreshParent(sys, root);
      FreshReads(sys, Parent(root.value), i);
    }
  }

  /** What a commit says to the scans for the destination of target `i`. */
  lemma {:induction false} MadeReads(sys: System, e: LogEntry, parent: Option<Commit>, c: Commit, i: nat)
    requires ValidSystem(sys) && i < |sys.targets| && Made(sys, e, parent, c)
    ensures Parent(c) == parent
    ensures ScopedTo(c.message, sys.targets[i].dest) <==> !e.Landed? && e.target == i
    ensures e.OnTop? && e.target == i ==> sys.targets[i].ImportTarget? && OriginTrailer(c.message) == None
    ensures e.Synced? && e.target == i && sys.targets[i].ImportTarget? ==> OriginTrailer(c.message) == Some(sys.w.id(e.origin))
    ensures e.Synced? && e.target == i && sys.targets[i].VendorTarget? ==>
              OriginTrailer(c.message) == None && VendorPin(c.message) == Some(sys.w.id(e.origin))
  {
    if e.Synced? {
      TargetsAreApart(sys, e.target, i);
      TargetsAreApart(sys, e.target, e.target);
      match sys.targets[e.target] {
        case ImportTarget(dest, transforms, _) => MirrorCommitRecords(sys.w, dest, e.origin, parent, transforms);
        case VendorTarget(dest, slug) => VendorCommitRecords(sys.w, dest, slug, e.origin, parent);
      }
    }
  }

  /** A scan of the branch reads, per import, exactly what the log says. */
  lemma {:induction false} RecordedIsLogged(sys: System, root: Option<Commit>, log: seq<LogEntry>, branch: Option<Commit>, i: nat)
    requires ValidSystem(sys) && Fresh(sys, root) && Assembles(sys, root, log, branch)
    requires i < |sys.targets| && sys.targets[i].ImportTarget?
    ensures RecordedOrigins(branch, sys.targets[i].dest) == Ids(sys.w, Origins(log, i))
    decreases |log|
  {
    if log == [] {
      FreshReads(sys, root, i);
    } else {
      var n := |log| - 1;
      RecordedIsLogged(sys, root, log[..n], Parent(branch.value), i);
      MadeReads(sys, log[n], Parent(branch.value), branch.value, i);
      if log[n].Synced? && log[n].target == i {
        IdsAppend(sys.w, Origins(log[..n], i), log[n].origin);
      }
    }
  }

  function LastId(w: World, commits: seq<Commit>): Option<Oid> {
    if commits == [] then None else Some(w.id(commits[|commits| - 1]))
  }

  lemma {:induction false} LastImportedIsLogged(sys: System, root: Option<Commit>, log: seq<LogEntry>, branch: Option<Commit>, i: nat)
    requires ValidSystem(sys) && Fresh(sys, root) && Assembles(sys, root, log, branch)
    requires i < |sys.targets| && sys.targets[i].ImportTarget?
    ensures LastImported(branch, sys.targets[i].dest) == Ok(LastId(sys.w, Origins(log, i)))
    decreases |log|
  {
    if log == [] {
      FreshReads(sys, root, i);
    } else {
      var n := |log| - 1;
      LastImportedIsLogged(sys, root, log[..n], Parent(branch.value), i);
      MadeReads(sys, log[n], Parent(branch.value), branch.value, i);
      if log[n].Synced? && log[n].target == i {
        OidRoundTrip(sys.w.id(log[n].origin));
      }
    }
  }

  lemma {:induction false} OriginsStep(log: seq<LogEntry>, i: nat)
    requires log != []
    ensures
      var e, older := log[|log| - 1], Origins(log[..|log| - 1], i);
      Origins(log, i) == if e.Synced? && e.target == i then older + [e.origin] else older
  {
  }

  lemma {:induction false} UnscopedIsPassed(c: Commit, dest: string)
    requires !ScopedTo(c.message, dest)
    ensures LastVendored(Some(c), dest) == LastVendored(Parent(c), dest)
  {
  }

  lemma {:induction false} LastVendoredIsLogged(sys: System, root: Option<Commit>, log: seq<LogEntry>, branch: Option<Commit>, i: nat)
    requires ValidSystem(sys) && Fresh(sys, root) && Assembles(sys, root, log, branch)
    requires i < |sys.targets| && sys.targets[i].VendorTarget?
    ensures LastVendored(branch, sys.targets[i].dest) == Ok(LastId(sys.w, Origins(log, i)))
    decreases |log|
  {
    if log == [] {
      FreshReads(sys, root, i);
    } else {
      var n := |log| - 1;
      LastVendoredIsLogged(sys, root, log[..n], Parent(branch.value), i);
      MadeReads(sys, log[n], Parent(branch.value), branch.value, i);
      OriginsStep(log, i);
      if log[n].Synced? && log[n].target == i {
        PinIsFound(branch.value, sys.targets[i].dest, sys.w.id(log[n].origin));
      } else {
        UnscopedIsPassed(branch.value, sys.targets[i].dest);
      }
    }
  }

  predicate OnlyFrom(log: seq<LogEntry>, i: nat) {
    forall e <- log :: !e.Landed? && e.target == i
  }

  lemma {:induction false} OnlyFromAppend(log: seq<LogEntry>, e: LogEntry, i: nat)
    requires OnlyFrom(log, i) && !e.Landed? && e.target == i
    ensures OnlyFrom(log + [e], i)
  {
  }

  /** Stripping for one target takes entries of that target off the end. */
  lemma {:induction false} StripCutsTheLog(sys: System, root: Option<Commit>, log: seq<LogEntry>, branch: Option<Commit>, i: nat) returns (k: nat)
    requires ValidSystem(sys) && Fresh(sys, root) && Assembles(sys, root, log, branch) && i < |sys.targets|
    ensures k <= |log| && Assembles(sys, root, log[..k], StripTip(branch, sys.targets[i].dest))
    ensures OnlyFrom(log[k..], i)
    decreases |log|
  {
    k := |log|;
    assert log[..k] == log;
    if log == [] {
      FreshReads(sys, root, i);
    } else if StripTip(branch, sys.targets[i].dest) != branch {
      var n := |log| - 1;
      var parent := Parent(branch.value);
      MadeReads(sys, log[n], parent, branch.value, i);
      k := StripCutsTheLog(sys, root, log[..n], parent, i);
      OnlyFromAppend(log[..n][k..], log[n], i);
      CutShorter(log, n, k);
    }
  }

  lemma CutShorter(log: seq<LogEntry>, n: nat, k: nat)
    requires k <= n == |log| - 1
    ensures log[..n][..k] == log[..k]
    ensures log[k..] == log[..n][k..] + [log[n]]
  {
  }

  lemma {:induction false} OriginsOfOnlyFrom(log: seq<LogEntry>, i: nat, j: nat)
    requires OnlyFrom(log, i) && i != j
    ensures Origins(log, j) == []
    decreases |log|
  {
    if log != [] {
      var n := |log| - 1;
      assert log[n] in log;
      assert OnlyFrom(log[..n], i);
      OriginsOfOnlyFrom(log[..n], i, j);
    }
  }

  function Entries(i: nat, origins: seq<Commit>): (log: seq<LogEntry>)
    ensures |log| == |origins|
    ensures OnlyFrom(log, i)
  {
    if origins == [] then [] else Entries(i, origins[..|origins| - 1]) + [Synced(i, origins[|origins| - 1])]
  }

  lemma {:induction false} EntriesOfMore(log: seq<LogEntry>, i: nat, origins: seq<Commit>)
    requires origins != []
    ensures
      var n := |origins| - 1;
      log + Entries(i, origins) == (log + Entries(i, origins[..n])) + [Synced(i, origins[n])]
  {
  }

  lemma {:induction false} OriginsOfEntries(i: nat, origins: seq<Commit>)
    ensures Origins(Entries(i, origins), i) == origins
    decreases |origins|
  {
    if origins != [] {
      var init, last := origins[..|origins| - 1], origins[|origins| - 1];
      OriginsOfEntries(i, init);
      OriginsAfterOne(Entries(i, init), Synced(i, last));
      assert Entries(i, origins) == Entries(i, init) + [Synced(i, last)];
      assert init + [last] == origins;
    }
  }

  lemma {:induction false} OneMore(sys: System, root: Option<Commit>, log: seq<LogEntry>, e: LogEntry, c: Commit)
    requires ValidSystem(sys) && Assembles(sys, root, log, Parent(c)) && Made(sys, e, Parent(c), c)
    ensures Assembles(sys, root, log + [e], Some(c))
  {
    assert (log + [e])[..|log|] == log;
  }

  /** The last commit of a run is its target's, from the last origin. */
  lemma {:induction false} TopIsMade(sys: System, base: Option<Commit>, i: nat, origins: seq<Commit>)
    requires ValidSystem(sys) && i < |sys.targets| && sys.targets[i].ImportTarget? && IsRelPath(sys.targets[i].dest) && origins != []
    requires ReplayAll(sys.w, sys.targets[i].dest, origins, base, sys.targets[i].transforms).Ok?
    ensures
      var t := sys.targets[i];
      && ReplayAll(sys.w, t.dest, origins, base, t.transforms).value.Some?
      && ReplayAll(sys.w, t.dest, origins[..|origins| - 1], base, t.transforms).Ok?
      && Made(sys, Synced(i, origins[|origins| - 1]),
              ReplayAll(sys.w, t.dest, origins[..|origins| - 1], base, t.transforms).value,
              ReplayAll(sys.w, t.dest, origins, base, t.transforms).value.value)
  {
  }

  /** Replaying origins extends the log by them. */
  lemma {:induction false} ReplayExtendsTheLog(sys: System, root: Option<Commit>, log: seq<LogEntry>, base: Option<Commit>, i: nat, origins: seq<Commit>)
    requires ValidSystem(sys) && Assembles(sys, root, log, base)
    requires i < |sys.targets| && sys.targets[i].ImportTarget? && IsRelPath(sys.targets[i].dest)
    requires ReplayAll(sys.w, sys.targets[i].dest, origins, base, sys.targets[i].transforms).Ok?
    ensures Assembles(sys, root, log + Entries(i, origins), ReplayAll(sys.w, sys.targets[i].dest, origins, base, sys.targets[i].transforms).value)
    decreases |origins|
  {
    if origins == [] {
      assert log + Entries(i, origins) == log;
    } else {
      var n := |origins| - 1;
      var t := sys.targets[i];
      var init, last := origins[..n], origins[n];
      ReplayExtendsTheLog(sys, root, log, base, i, init);
      var below := RunParent(sys.w, t.dest, origins, base, t.transforms);
      var top := ReplayAll(sys.w, t.dest, origins, base, t.transforms).value.value;
      TopIsMade(sys, base, i, origins);
      OneMore(sys, root, log + Entries(i, init), Synced(i, last), top);
      EntriesOfMore(log, i, origins);
    }
  }

  // --- the state machine ---

  /** Upstream tips (or pins), the branch with the agent cache beside it, and the
      tip each target was last reconciled at successfully. */
  datatype State = State(upstream: map<nat, Commit>, repo: Repo, synced: map<nat, Commit>)

  function Start(root: Option<Commit>, agents: AgentState): State {
    State(map[], Repo(root, agents), map[])
  }

  datatype Event =
    | Push(target: nat, tip: Commit)   // an upstream ref or pin moves, anywhere
    | Trigger(i: nat)                  // a hint wakes a reconcile
    | Land(c: Commit)                  // somebody else commits to the branch

  function Step(sys: System, s: State, e: Event): State
    requires ValidSystem(sys)
  {
    match e
    case Push(target, tip) => s.(upstream := s.upstream[target := tip])
    case Land(c) => if Foreign(sys, s.repo.branch, c) then s.(repo := s.repo.(branch := Some(c))) else s
    case Trigger(i) =>
      var moved := s.(repo := ReconcileAt(sys, i, s.upstream, s.repo));
      if i < |sys.targets| && i in s.upstream && Succeeds(sys, i, s.upstream[i], s.repo)
      then moved.(synced := s.synced[i := s.upstream[i]]) else moved
  }

  function Run(sys: System, s: State, events: seq<Event>): State
    requires ValidSystem(sys)
    decreases |events|
  {
    if events == [] then s else Step(sys, Run(sys, s, events[..|events| - 1]), events[|events| - 1])
  }

  /** What target `i` mirrors when it reconciles in state `s`; its tip layer is laid
      on that. */
  function MirrorOf(sys: System, s: State, i: nat): Result<MirrorOutcome>
    requires i < |sys.targets| && sys.targets[i].ImportTarget? && i in s.upstream && IsRelPath(sys.targets[i].dest)
  {
    Mirrored(sys.w, sys.targets[i].dest, s.upstream[i], StripTip(s.repo.branch, sys.targets[i].dest), sys.targets[i].transforms)
  }

  /** Ids are told apart among the commits that occur. */
  predicate InjectiveOn(w: World, known: set<Commit>) {
    forall a <- known, b <- known :: w.id(a) == w.id(b) ==> a == b
  }

  predicate Knows(known: set<Commit>, tip: Commit) {
    forall c <- History(Some(tip)) :: c in known
  }

  predicate KnownEvents(known: set<Commit>, events: seq<Event>) {
    forall e <- events :: e.Push? ==> Knows(known, e.tip)
  }

  /** What an upstream commit should have put on the branch so far. */
  predicate Accounted(sys: System, s: State, log: seq<LogEntry>, i: nat)
    requires i < |sys.targets|
  {
    if i !in s.synced then Origins(log, i) == []
    else if sys.targets[i].ImportTarget? then Origins(log, i) == History(Some(s.synced[i]))
    else PinIsLast(log, i, s.synced[i])
  }

  /** The log explains the state. */
  predicate Explained(sys: System, root: Option<Commit>, known: set<Commit>, s: State, log: seq<LogEntry>)
    requires ValidSystem(sys)
  {
    && Assembles(sys, root, log, s.repo.branch)
    && (forall i :: 0 <= i < |sys.targets| ==> Accounted(sys, s, log, i))
    && (forall i <- s.upstream :: Knows(known, s.upstream[i]))
    && (forall i <- s.synced :: Knows(known, s.synced[i]))
  }

  /** Every commit of a history has its own history as a prefix of it. */
  lemma {:induction false} HistoryPrefix(cur: Option<Commit>, k: nat)
    requires k < |History(cur)|
    ensures History(cur)[..k + 1] == History(Some(History(cur)[k]))
    decreases Depth(cur)
  {
    var older := History(Parent(cur.value));
    assert History(cur) == older + [cur.value];
    if k < |older| {
      HistoryPrefix(Parent(cur.value), k);
      assert History(cur)[..k + 1] == older[..k + 1];
    } else {
      assert History(cur)[..k + 1] == History(cur);
    }
  }

  /** The delta past a recorded commit completes the record of an upstream to
      the history of its new tip, whether it moved on or was rewritten. */
  lemma {:induction false} DeltaCompletes(w: World, known: set<Commit>, tip: Commit, recorded: seq<Commit>)
    requires InjectiveOn(w, known) && Knows(known, tip)
    requires recorded != [] ==> recorded == History(Some(recorded[|recorded| - 1])) && recorded[|recorded| - 1] in known
    requires Delta(w, Some(tip), LastId(w, recorded)).Ok?
    ensures recorded + Delta(w, Some(tip), LastId(w, recorded)).value == History(Some(tip))
  {
    var h := History(Some(tip));
    if recorded == [] {
      DeltaOfEverything(w, Some(tip));
      assert recorded + h == h;
    } else {
      var last := recorded[|recorded| - 1];
      var k := DeltaFollows(w, Some(tip), w.id(last));
      assert h[k] in h;
      assert h[k] == last;
      HistoryPrefix(Some(tip), k);
      assert h == h[..k + 1] + h[k + 1..];
    }
  }

  /** A prefix of a history is a history, or empty. */
  lemma {:induction false} PrefixOfRecord(known: set<Commit>, tip: Commit, recorded: seq<Commit>)
    requires Knows(known, tip) && recorded <= History(Some(tip))
    ensures recorded != [] ==> recorded == History(Some(recorded[|recorded| - 1])) && recorded[|recorded| - 1] in known
  {
    if recorded != [] {
      var k := |recorded| - 1;
      HistoryPrefix(Some(tip), k);
      assert History(Some(tip))[k] in History(Some(tip));
      assert recorded == History(Some(tip))[..k + 1];
    }
  }

  lemma {:induction false} OriginsOfKept(log: seq<LogEntry>, k: nat, i: nat, j: nat)
    requires k <= |log| && OnlyFrom(log[k..], i)
    ensures Origins(log[..k], j) <= Origins(log, j)
    ensures j != i ==> Origins(log[..k], j) == Origins(log, j)
  {
    assert log == log[..k] + log[k..];
    OriginsConcat(log[..k], log[k..], j);
    if j != i {
      OriginsOfOnlyFrom(log[k..], i, j);
    }
  }

  /** The log of what stripping for a target leaves. */
  lemma {:induction false} KeptLog(sys: System, root: Option<Commit>, log: seq<LogEntry>, branch: Option<Commit>, i: nat) returns (kept: seq<LogEntry>)
    requires ValidSystem(sys) && Fresh(sys, root) && Assembles(sys, root, log, branch) && i < |sys.targets|
    ensures Assembles(sys, root, kept, StripTip(branch, sys.targets[i].dest))
    ensures Origins(kept, i) <= Origins(log, i)
    ensures forall j: nat :: j != i ==> Origins(kept, j) == Origins(log, j)
  {
    var k := StripCutsTheLog(sys, root, log, branch, i);
    kept := log[..k];
    forall j: nat ensures Origins(kept, j) <= Origins(log, j) && (j != i ==> Origins(kept, j) == Origins(log, j)) {
      OriginsOfKept(log, k, i, j);
    }
  }

  lemma {:induction false} OriginsAfterEntries(kept: seq<LogEntry>, i: nat, delta: seq<Commit>)
    ensures Origins(kept + Entries(i, delta), i) == Origins(kept, i) + delta
    ensures forall j: nat :: j != i ==> Origins(kept + Entries(i, delta), j) == Origins(kept, j)
  {
    OriginsConcat(kept, Entries(i, delta), i);
    OriginsOfEntries(i, delta);
    forall j: nat | j != i ensures Origins(kept + Entries(i, delta), j) == Origins(kept, j) {
      OriginsConcat(kept, Entries(i, delta), j);
      OriginsOfOnlyFrom(Entries(i, delta), i, j);
    }
  }

  /** The record of a target completed to the history of its new tip. */
  lemma {:induction false} RecordCompletes(sys: System, root: Option<Commit>, known: set<Commit>, s: State, log: seq<LogEntry>, i: nat, kept: seq<LogEntry>)
    requires ValidSystem(sys) && InjectiveOn(sys.w, known) && Explained(sys, root, known, s, log)
    requires i < |sys.targets| && sys.targets[i].ImportTarget? && i in s.upstream
    requires Origins(kept, i) <= Origins(log, i)
    requires Delta(sys.w, Some(s.upstream[i]), LastId(sys.w, Origins(kept, i))).Ok?
    ensures Origins(kept, i) + Delta(sys.w, Some(s.upstream[i]), LastId(sys.w, Origins(kept, i))).value == History(Some(s.upstream[i]))
  {
    assert Accounted(sys, s, log, i);
    if i in s.synced {
      PrefixOfRecord(known, s.synced[i], Origins(kept, i));
    }
    DeltaCompletes(sys.w, known, s.upstream[i], Origins(kept, i));
  }

  /** One commit of the tip layer, or none. */
  lemma {:induction false} TipStepExtendsTheLog(sys: System, root: Option<Commit>, log: seq<LogEntry>, i: nat, env: LayerEnv, tip: TipTransform, run: TipRun)
      returns (e: seq<LogEntry>)
    requires ValidSystem(sys) && i < |sys.targets| && sys.targets[i].ImportTarget? && Combined(sys.targets[i].layer) != []
    requires env.dest == sys.targets[i].dest && Recordable(env.dest) && Recognisable(tip)
    requires run.outcome.Ok? && TipStep(env, tip, run).outcome.Ok?
    requires Assembles(sys, root, log, Some(run.outcome.value.head))
    ensures e == [] || e == [OnTop(i)]
    ensures Assembles(sys, root, log + e, Some(TipStep(env, tip, run).outcome.value.head))
  {
    var c, head := TipStep(env, tip, run).outcome.value.head, run.outcome.value.head;
    if c == head {
      e := [];
      assert log + e == log;
    } else {
      TipStepShape(env, tip, run);
      TipMessageIsTip(tip, env.dest);
      TipStepTree(env, tip, run);
      e := [OnTop(i)];
      OneMore(sys, root, log, OnTop(i), c);
    }
  }

  predicate AllOnTop(layer: seq<LogEntry>, i: nat) {
    forall k :: 0 <= k < |layer| ==> layer[k] == OnTop(i)
  }

  lemma {:induction false} OneMoreOnTop(log: seq<LogEntry>, below: seq<LogEntry>, e: seq<LogEntry>, i: nat)
    requires AllOnTop(below, i) && (e == [] || e == [OnTop(i)])
    ensures AllOnTop(below + e, i) && log + (below + e) == log + below + e
  {
  }

  /** A tip layer extends the log by entries of its own. */
  lemma {:induction false} LayerExtendsTheLog(sys: System, root: Option<Commit>, log: seq<LogEntry>, i: nat, env: LayerEnv, tips: seq<TipTransform>,
                                              mirrorTip: Commit, st: AgentState) returns (layer: seq<LogEntry>)
    requires ValidSystem(sys) && i < |sys.targets| && sys.targets[i].ImportTarget? && Combined(sys.targets[i].layer) != []
    requires env.dest == sys.targets[i].dest && Recordable(env.dest) && AllRecognisable(tips)
    requires LayerOn(env, tips, mirrorTip, st).outcome.Ok?
    requires Assembles(sys, root, log, Some(mirrorTip))
    ensures AllOnTop(layer, i)
    ensures Assembles(sys, root, log + layer, Some(LayerOn(env, tips, mirrorTip, st).outcome.value.head))
    decreases |tips|
  {
    if tips == [] {
      layer := [];
      assert log + layer == log;
    } else {
      var init := tips[..|tips| - 1];
      var below := LayerExtendsTheLog(sys, root, log, i, env, init, mirrorTip, st);
      var last, run := tips[|tips| - 1], LayerOn(env, init, mirrorTip, st);
      assert LayerOn(env, tips, mirrorTip, st) == TipStep(env, last, run);
      assert Recognisable(last);
      var e := TipStepExtendsTheLog(sys, root, log + below, i, env, last, run);
      layer := below + e;
      OneMoreOnTop(log, below, e, i);
    }
  }

  lemma {:induction false} OriginsOfLayer(log: seq<LogEntry>, layer: seq<LogEntry>, i: nat, j: nat)
    requires AllOnTop(layer, i)
    ensures Origins(log + layer, j) == Origins(log, j)
    decreases |layer|
  {
    if layer == [] {
      assert log + layer == log;
    } else {
      var n := |layer| - 1;
      assert (log + layer)[..|log + layer| - 1] == log + layer[..n];
      assert (log + layer)[|log + layer| - 1] == layer[n];
      OriginsOfLayer(log, layer[..n], i, j);
    }
  }

  /** What an import that succeeds is made of: a mirror, and a tip layer on it
      unless the layer is empty. */
  lemma {:induction false} ImportParts(w: World, t: Target, tip: Commit, branch: Option<Commit>, agents: AgentState)
    requires t.ImportTarget? && IsRelPath(t.dest) && Reconciled(w, t, tip, branch, agents).outcome.Ok?
    ensures
      var mirror := Mirrored(w, t.dest, tip, StripTip(branch, t.dest), t.transforms);
      var head := Reconciled(w, t, tip, branch, agents).outcome.value;
      && mirror.Ok?
      && (Combined(t.layer) == [] ==> head == mirror.value.head)
      && (Combined(t.layer) != [] ==>
            mirror.value.head.Some?
            && var layer := LayerOn(EnvOf(w, t.dest, t.layer, mirror.value.head), Combined(t.layer), mirror.value.head.value, agents);
               layer.outcome.Ok? && head == Some(layer.outcome.value.head))
  {
  }

  /** A reconcile of an import that succeeds: what is left after stripping is
      extended by exactly the missing commits, and by the tip layer. */
  lemma {:induction false} ImportExtendsTheLog(sys: System, root: Option<Commit>, known: set<Commit>, s: State, log: seq<LogEntry>, i: nat)
      returns (log': seq<LogEntry>)
    requires ValidSystem(sys) && Fresh(sys, root) && InjectiveOn(sys.w, known) && Explained(sys, root, known, s, log)
    requires i < |sys.targets| && sys.targets[i].ImportTarget? && i in s.upstream
    requires Succeeds(sys, i, s.upstream[i], s.repo)
    ensures Assembles(sys, root, log', ReconcileAt(sys, i, s.upstream, s.repo).branch)
    ensures Origins(log', i) == History(Some(s.upstream[i]))
    ensures forall j: nat :: j != i ==> Origins(log', j) == Origins(log, j)
  {
    var t := sys.targets[i];
    TargetsAreApart(sys, i, i);
    ImportParts(sys.w, t, s.upstream[i], s.repo.branch, s.repo.agents);
    log' := MirrorExtendsTheLog(sys, root, known, s, log, i);
    if Combined(t.layer) != [] {
      var mirror := Mirrored(sys.w, t.dest, s.upstream[i], StripTip(s.repo.branch, t.dest), t.transforms).value;
      var layer := LayerExtendsTheLog(sys, root, log', i, EnvOf(sys.w, t.dest, t.layer, mirror.head), Combined(t.layer),
                                      mirror.head.value, s.repo.agents);
      forall j: nat ensures Origins(log' + layer, j) == Origins(log', j) {
        OriginsOfLayer(log', layer, i, j);
      }
      log' := log' + layer;
    }
  }

  lemma {:induction false} MirrorExtendsTheLog(sys: System, root: Option<Commit>, known: set<Commit>, s: State, log: seq<LogEntry>, i: nat)
      returns (log': seq<LogEntry>)
    requires ValidSystem(sys) && Fresh(sys, root) && InjectiveOn(sys.w, known) && Explained(sys, root, known, s, log)
    requires i < |sys.targets| && sys.targets[i].ImportTarget? && i in s.upstream && IsRelPath(sys.targets[i].dest)
    requires Mirrored(sys.w, sys.targets[i].dest, s.upstream[i], StripTip(s.repo.branch, sys.targets[i].dest), sys.targets[i].transforms).Ok?
    ensures
      var head := Mirrored(sys.w, sys.targets[i].dest, s.upstream[i], StripTip(s.repo.branch, sys.targets[i].dest), sys.targets[i].transforms).value.head;
      head.Some? && Assembles(sys, root, log', head)
    ensures Origins(log', i) == History(Some(s.upstream[i]))
    ensures forall j: nat :: j != i ==> Origins(log', j) == Origins(log, j)
  {
    var t := sys.targets[i];
    var tip := s.upstream[i];
    var base := StripTip(s.repo.branch, t.dest);
    var kept := KeptLog(sys, root, log, s.repo.branch, i);
    LastImportedIsLogged(sys, root, kept, base, i);
    RecordCompletes(sys, root, known, s, log, i, kept);
    var delta := Delta(sys.w, Some(tip), LastId(sys.w, Origins(kept, i))).value;
    log' := kept + Entries(i, delta);
    ReplayExtendsTheLog(sys, root, kept, base, i, delta);
    OriginsAfterEntries(kept, i, delta);
    HeadIsThere(sys, root, known, s, log, i, kept, base, delta);
  }

  /** A successful import never ends without a commit. */
  lemma {:induction false} HeadIsThere(sys: System, root: Option<Commit>, known: set<Commit>, s: State, log: seq<LogEntry>, i: nat,
                                       kept: seq<LogEntry>, base: Option<Commit>, delta: seq<Commit>)
    requires ValidSystem(sys) && Fresh(sys, root) && Assembles(sys, root, kept, base)
    requires i < |sys.targets| && sys.targets[i].ImportTarget? && i in s.upstream
    requires IsRelPath(sys.targets[i].dest)
    requires Origins(kept, i) + delta == History(Some(s.upstream[i]))
    requires ReplayAll(sys.w, sys.targets[i].dest, delta, base, sys.targets[i].transforms).Ok?
    ensures ReplayAll(sys.w, sys.targets[i].dest, delta, base, sys.targets[i].transforms).value.Some?
  {
    if delta == [] {
      LastImportedIsLogged(sys, root, kept, base, i);
      assert Origins(kept, i) != [];
    }
  }

  lemma {:induction false} OriginsAfterOne(log: seq<LogEntry>, e: LogEntry)
    ensures forall j: nat :: Origins(log + [e], j) ==
              if e.Synced? && e.target == j then Origins(log, j) + [e.origin] else Origins(log, j)
  {
    assert (log + [e])[..|log|] == log;
  }

  predicate PinIsLast(log: seq<LogEntry>, i: nat, pin: Commit) {
    Origins(log, i) != [] && Origins(log, i)[|Origins(log, i)| - 1] == pin
  }

  /** A pin that is already recorded is the pin last vendored. */
  lemma {:induction false} RecordedPin(sys: System, root: Option<Commit>, known: set<Commit>, s: State, log: seq<LogEntry>, i: nat)
    requires ValidSystem(sys) && Fresh(sys, root) && InjectiveOn(sys.w, known) && Explained(sys, root, known, s, log)
    requires i < |sys.targets| && sys.targets[i].VendorTarget? && i in s.upstream
    requires LastVendored(s.repo.branch, sys.targets[i].dest) == Ok(Some(sys.w.id(s.upstream[i])))
    ensures PinIsLast(log, i, s.upstream[i])
  {
    LastVendoredIsLogged(sys, root, log, s.repo.branch, i);
    assert Accounted(sys, s, log, i);
    var last := Origins(log, i)[|Origins(log, i)| - 1];
    assert last in History(Some(last)) && s.upstream[i] in History(Some(s.upstream[i]));
  }

  /** A vendoring that succeeds adds a commit unless the pin is in place. */
  lemma {:induction false} VendorParts(sys: System, s: State, i: nat)
    requires ValidSystem(sys) && i < |sys.targets| && sys.targets[i].VendorTarget? && i in s.upstream
    requires Succeeds(sys, i, s.upstream[i], s.repo)
    ensures
      var pin, branch := s.upstream[i], ReconcileAt(sys, i, s.upstream, s.repo).branch;
      if LastVendored(s.repo.branch, sys.targets[i].dest) == Ok(Some(sys.w.id(pin))) then branch == s.repo.branch
      else branch.Some? && Parent(branch.value) == s.repo.branch && Made(sys, Synced(i, pin), s.repo.branch, branch.value)
  {
    TargetsAreApart(sys, i, i);
  }

  /** A reconcile of a vendor target that succeeds leaves its pin last. */
  lemma {:induction false} VendorExtendsTheLog(sys: System, root: Option<Commit>, known: set<Commit>, s: State, log: seq<LogEntry>, i: nat)
      returns (log': seq<LogEntry>)
    requires ValidSystem(sys) && Fresh(sys, root) && InjectiveOn(sys.w, known) && Explained(sys, root, known, s, log)
    requires i < |sys.targets| && sys.targets[i].VendorTarget? && i in s.upstream
    requires Succeeds(sys, i, s.upstream[i], s.repo)
    ensures Assembles(sys, root, log', ReconcileAt(sys, i, s.upstream, s.repo).branch)
    ensures PinIsLast(log', i, s.upstream[i])
    ensures forall j: nat :: j != i ==> Origins(log', j) == Origins(log, j)
  {
    var pin := s.upstream[i];
    VendorParts(sys, s, i);
    if LastVendored(s.repo.branch, sys.targets[i].dest) == Ok(Some(sys.w.id(pin))) {
      log' := log;
      RecordedPin(sys, root, known, s, log, i);
    } else {
      log' := log + [Synced(i, pin)];
      OneMore(sys, root, log, Synced(i, pin), ReconcileAt(sys, i, s.upstream, s.repo).branch.value);
      OriginsAfterOne(log, Synced(i, pin));
    }
  }

  lemma {:induction false} TriggerStaysExplained(sys: System, root: Option<Commit>, known: set<Commit>, s: State, log: seq<LogEntry>, i: nat)
      returns (log': seq<LogEntry>)
    requires ValidSystem(sys) && Fresh(sys, root) && InjectiveOn(sys.w, known) && Explained(sys, root, known, s, log)
    ensures Explained(sys, root, known, Step(sys, s, Trigger(i)), log')
  {
    if i < |sys.targets| && i in s.upstream && Succeeds(sys, i, s.upstream[i], s.repo) {
      if sys.targets[i].ImportTarget? {
        log' := ImportExtendsTheLog(sys, root, known, s, log, i);
      } else {
        log' := VendorExtendsTheLog(sys, root, known, s, log, i);
      }
      TriggerExplains(sys, root, known, s, log, log', i);
    } else {
      log' := log;
      FailureExplains(sys, root, known, s, log, i);
    }
  }

  lemma {:induction false} TriggerExplains(sys: System, root: Option<Commit>, known: set<Commit>, s: State, log: seq<LogEntry>, log': seq<LogEntry>, i: nat)
    requires ValidSystem(sys) && Explained(sys, root, known, s, log)
    requires i < |sys.targets| && i in s.upstream && Succeeds(sys, i, s.upstream[i], s.repo)
    requires Assembles(sys, root, log', ReconcileAt(sys, i, s.upstream, s.repo).branch)
    requires forall j: nat :: j != i ==> Origins(log', j) == Origins(log, j)
    requires if sys.targets[i].ImportTarget? then Origins(log', i) == History(Some(s.upstream[i]))
             else PinIsLast(log', i, s.upstream[i])
    ensures Explained(sys, root, known, Step(sys, s, Trigger(i)), log')
  {
    var s' := Step(sys, s, Trigger(i));
    assert s'.repo == ReconcileAt(sys, i, s.upstream, s.repo);
    assert s'.upstream == s.upstream && s'.synced == s.synced[i := s.upstream[i]];
    TriggerAccounts(sys, s, s', log, log', i);
  }

  lemma {:induction false} TriggerAccounts(sys: System, s: State, s': State, log: seq<LogEntry>, log': seq<LogEntry>, i: nat)
    requires i < |sys.targets| && i in s.upstream && s'.synced == s.synced[i := s.upstream[i]]
    requires forall j :: 0 <= j < |sys.targets| ==> Accounted(sys, s, log, j)
    requires forall j: nat :: j != i ==> Origins(log', j) == Origins(log, j)
    requires if sys.targets[i].ImportTarget? then Origins(log', i) == History(Some(s.upstream[i]))
             else PinIsLast(log', i, s.upstream[i])
    ensures forall j :: 0 <= j < |sys.targets| ==> Accounted(sys, s', log', j)
  {
    forall j | 0 <= j < |sys.targets| ensures Accounted(sys, s', log', j) {
      assert Accounted(sys, s, log, j);
    }
  }

  lemma {:induction false} FailureExplains(sys: System, root: Option<Commit>, known: set<Commit>, s: State, log: seq<LogEntry>, i: nat)
    requires ValidSystem(sys) && Explained(sys, root, known, s, log)
    requires !(i < |sys.targets| && i in s.upstream && Succeeds(sys, i, s.upstream[i], s.repo))
    ensures Explained(sys, root, known, Step(sys, s, Trigger(i)), log)
  {
    FailureMovesNothing(sys, s, i);
    var s' := Step(sys, s, Trigger(i));
    assert s'.repo.branch == s.repo.branch && s'.upstream == s.upstream && s'.synced == s.synced;
    forall j | 0 <= j < |sys.targets| ensures Accounted(sys, s', log, j) {
      assert Accounted(sys, s, log, j);
    }
  }

  /** A reconcile that fails moves neither the branch nor the record; agent runs
      it made before failing stay in the cache. */
  lemma {:induction false} FailureMovesNothing(sys: System, s: State, i: nat)
    requires ValidSystem(sys)
    ensures !(i < |sys.targets| && i in s.upstream && Succeeds(sys, i, s.upstream[i], s.repo)) ==>
              Step(sys, s, Trigger(i)) == s.(repo := Repo(s.repo.branch, Step(sys, s, Trigger(i)).repo.agents))
  {
    if i < |sys.targets| && i in s.upstream {
      TargetsAreApart(sys, i, i);
    }
  }

  lemma {:induction false} LandStaysExplained(sys: System, root: Option<Commit>, known: set<Commit>, s: State, log: seq<LogEntry>, c: Commit)
      returns (log': seq<LogEntry>)
    requires ValidSystem(sys) && Explained(sys, root, known, s, log)
    ensures Explained(sys, root, known, Step(sys, s, Land(c)), log')
  {
    log' := log;
    if Foreign(sys, s.repo.branch, c) {
      log' := log + [Landed];
      OneMore(sys, root, log, Landed, c);
      OriginsAfterOne(log, Landed);
      forall i | 0 <= i < |sys.targets| ensures Accounted(sys, Step(sys, s, Land(c)), log', i) {
        assert Accounted(sys, s, log, i);
      }
    }
  }

  lemma {:induction false} PushStaysExplained(sys: System, root: Option<Commit>, known: set<Commit>, s: State, log: seq<LogEntry>, i: nat, tip: Commit)
    requires ValidSystem(sys) && Explained(sys, root, known, s, log) && Knows(known, tip)
    ensures Explained(sys, root, known, Step(sys, s, Push(i, tip)), log)
  {
    forall j | 0 <= j < |sys.targets| ensures Accounted(sys, Step(sys, s, Push(i, tip)), log, j) {
      assert Accounted(sys, s, log, j);
    }
  }

  /** Every event keeps the state explained. */
  lemma {:induction false} StepStaysExplained(sys: System, root: Option<Commit>, known: set<Commit>, s: State, log: seq<LogEntry>, e: Event)
      returns (log': seq<LogEntry>)
    requires ValidSystem(sys) && Fresh(sys, root) && InjectiveOn(sys.w, known) && Explained(sys, root, known, s, log)
    requires e.Push? ==> Knows(known, e.tip)
    ensures Explained(sys, root, known, Step(sys, s, e), log')
  {
    match e {
      case Push(i, tip) =>
        log' := log;
        PushStaysExplained(sys, root, known, s, log, i, tip);
      case Land(c) =>
        log' := LandStaysExplained(sys, root, known, s, log, c);
      case Trigger(i) =>
        log' := TriggerStaysExplained(sys, root, known, s, log, i);
    }
  }

  lemma {:induction false} RunStaysExplained(sys: System, root: Option<Commit>, agents: AgentState, known: set<Commit>, events: seq<Event>) returns (log: seq<LogEntry>)
    requires ValidSystem(sys) && Fresh(sys, root) && InjectiveOn(sys.w, known) && KnownEvents(known, events)
    ensures Explained(sys, root, known, Run(sys, Start(root, agents), events), log)
    decreases |events|
  {
    if events == [] {
      log := [];
    } else {
      var n := |events| - 1;
      assert KnownEvents(known, events[..n]);
      var older := RunStaysExplained(sys, root, agents, known, events[..n]);
      assert events[n] in events;
      log := StepStaysExplained(sys, root, known, Run(sys, Start(root, agents), events[..n]), older, events[n]);
    }
  }

  /** Exactly once: after any run, a scan of the branch for an import reads the
      first-parent chain of the tip it was last reconciled at: in order, without
      a gap, without a repeat, and nothing when it never succeeded. */
  lemma {:induction false} MirroredExactlyOnce(sys: System, root: Option<Commit>, agents: AgentState, known: set<Commit>, events: seq<Event>, i: nat)
    requires ValidSystem(sys) && Fresh(sys, root) && InjectiveOn(sys.w, known) && KnownEvents(known, events)
    requires i < |sys.targets| && sys.targets[i].ImportTarget?
    ensures
      var s := Run(sys, Start(root, agents), events);
      RecordedOrigins(s.repo.branch, sys.targets[i].dest) ==
        if i in s.synced then Ids(sys.w, History(Some(s.synced[i]))) else []
  {
    var s := Run(sys, Start(root, agents), events);
    var log := RunStaysExplained(sys, root, agents, known, events);
    RecordedIsLogged(sys, root, log, s.repo.branch, i);
    assert Accounted(sys, s, log, i);
  }
}
