/** What the destinations hold after any run. */
module Contents {
  import opened Wrappers
  import opened Trees
  import opened Paths
  import opened Markers
  import opened Worlds
  import opened Histories
  import opened Mirror
  import opened MirrorTrees
  import opened Agents
  import opened TipLayers
  import opened Imports
  import opened Vendoring
  import opened Reconciling
  import opened Runs

  /** The tree a target makes of an upstream commit. */
  function ShapedFor(sys: System, i: nat, origin: Commit): Result<Tree>
    requires i < |sys.targets|
  {
    match sys.targets[i]
    case ImportTarget(_, transforms, _) => Reshaped(sys.w, origin.tree, transforms)
    case VendorTarget(_, _) => Ok(Rename(origin.tree))
  }

  /** A destination holds a tree, reserved names apart. */
  ghost predicate Holds(existing: Tree, t: Tree) {
    forall name :: !IsReserved(name) ==>
      && (name in existing.entries <==> name in t.entries)
      && (name in t.entries ==> existing.entries[name] == t.entries[name])
  }

  lemma {:induction false} PlacedHolds(base: Tree, dest: string, t: Tree)
    requires IsRelPath(dest)
    ensures Holds(Existing(Placed(base, dest, t), dest), t)
  {
    PlacedIsOverlay(base, dest, t);
    SpliceThenRead(base, Segments(dest), Overlay(t, Existing(base, dest)), []);
    forall name | !IsReserved(name)
      ensures name in Overlay(t, Existing(base, dest)).entries <==> name in t.entries
      ensures name in t.entries ==> Overlay(t, Existing(base, dest)).entries[name] == t.entries[name]
    {
      OverlayEntries(t, Existing(base, dest), name);
    }
  }

  lemma {:induction false} PlacedElsewhere(base: Tree, dest: string, t: Tree, other: string)
    requires IsRelPath(dest) && Incomparable(Segments(dest), Segments(other))
    ensures Existing(Placed(base, dest, t), other) == Existing(base, other)
  {
    SpliceFrame(base, Segments(dest), KeepMetadata(base, Segments(dest), t), Segments(other));
  }

  /** The tree of a made commit. */
  lemma {:induction false} MadeTree(sys: System, e: LogEntry, parent: Option<Commit>, c: Commit)
    requires ValidSystem(sys) && Made(sys, e, parent, c) && e.Synced?
    ensures ShapedFor(sys, e.target, e.origin).Ok?
    ensures c.tree == Placed(TreeOf(parent), sys.targets[e.target].dest, ShapedFor(sys, e.target, e.origin).value)
  {
  }

  /** A commit of another target leaves the destination of target `i` alone. */
  lemma {:induction false} MadeElsewhere(sys: System, e: LogEntry, parent: Option<Commit>, c: Commit, i: nat)
    requires ValidSystem(sys) && Made(sys, e, parent, c) && i < |sys.targets|
    requires !e.Landed? && e.target != i
    ensures Existing(c.tree, sys.targets[i].dest) == Existing(TreeOf(parent), sys.targets[i].dest)
  {
    match e {
      case OnTop(j) =>
        TargetsAreApart(sys, j, i);
        var path := Segments(sys.targets[j].dest);
        SpliceFrame(TreeOf(parent), path, SubtreeAt(c.tree, path).value, Segments(sys.targets[i].dest));
      case Synced(j, origin) =>
        MadeTree(sys, e, parent, c);
        TargetsAreApart(sys, j, i);
        PlacedElsewhere(TreeOf(parent), sys.targets[j].dest, ShapedFor(sys, j, origin).value, sys.targets[i].dest);
    }
  }

  lemma {:induction false} MadeHolds(sys: System, e: LogEntry, parent: Option<Commit>, c: Commit)
    requires ValidSystem(sys) && Made(sys, e, parent, c) && e.Synced?
    ensures ShapedFor(sys, e.target, e.origin).Ok?
    ensures Holds(Existing(c.tree, sys.targets[e.target].dest), ShapedFor(sys, e.target, e.origin).value)
  {
    MadeTree(sys, e, parent, c);
    PlacedHolds(TreeOf(parent), sys.targets[e.target].dest, ShapedFor(sys, e.target, e.origin).value);
  }

  /** A commit that mirrors or vendors for target `i`. */
  predicate Syncs(t: Target, message: string) {
    ScopedTo(message, t.dest) && if t.ImportTarget? then OriginTrailer(message).Some? else VendorPin(message).Some?
  }

  ghost predicate OfAnother(sys: System, i: nat, message: string) {
    exists j :: 0 <= j < |sys.targets| && j != i && ScopedTo(message, sys.targets[j].dest)
  }

  /** Since target `i` was last synced, neither foreign commits nor its own tip
      layer changed its destination, reserved names apart.  Nothing is asked of
      the commits of other targets. */
  ghost predicate LeftAlone(sys: System, i: nat, cur: Option<Commit>)
    requires i < |sys.targets|
    decreases Depth(cur)
  {
    var dest := sys.targets[i].dest;
    cur.Some? && !Syncs(sys.targets[i], cur.value.message) ==>
      && LeftAlone(sys, i, Parent(cur.value))
      && (OfAnother(sys, i, cur.value.message)
          || Holds(Existing(cur.value.tree, dest), Existing(TreeOf(Parent(cur.value)), dest)))
  }

  /** What an entry of the log says of its commit. */
  lemma {:induction false} EntryKinds(sys: System, e: LogEntry, parent: Option<Commit>, c: Commit, i: nat)
    requires ValidSystem(sys) && i < |sys.targets| && Made(sys, e, parent, c)
    ensures Parent(c) == parent
    ensures Syncs(sys.targets[i], c.message) <==> e.Synced? && e.target == i
    ensures OfAnother(sys, i, c.message) ==> !e.Landed? && e.target != i
  {
    MadeReads(sys, e, parent, c, i);
    if OfAnother(sys, i, c.message) {
      var j :| 0 <= j < |sys.targets| && j != i && ScopedTo(c.message, sys.targets[j].dest);
      MadeReads(sys, e, parent, c, j);
    }
  }

  lemma {:induction false} HoldsThrough(a: Tree, b: Tree, c: Tree)
    requires Holds(a, b) && Holds(b, c)
    ensures Holds(a, c)
  {
  }

  /** A destination that was left alone holds what its target last put there. */
  lemma {:induction false} ContentIsLogged(sys: System, root: Option<Commit>, log: seq<LogEntry>, branch: Option<Commit>, i: nat, last: Commit)
    requires ValidSystem(sys) && Assembles(sys, root, log, branch)
    requires i < |sys.targets| && PinIsLast(log, i, last) && LeftAlone(sys, i, branch)
    ensures ShapedFor(sys, i, last).Ok?
    ensures Holds(Existing(TreeOf(branch), sys.targets[i].dest), ShapedFor(sys, i, last).value)
    decreases |log|
  {
    var e, c := log[|log| - 1], branch.value;
    PinStep(log, i, last);
    if e.Synced? && e.target == i {
      MadeHolds(sys, e, Parent(c), c);
    } else {
      LeftAloneBelow(sys, e, c, i);
      ContentIsLogged(sys, root, log[..|log| - 1], Parent(c), i, last);
      ContentStays(sys, e, c, i, ShapedFor(sys, i, last).value);
    }
  }

  lemma {:induction false} PinStep(log: seq<LogEntry>, i: nat, last: Commit)
    requires PinIsLast(log, i, last)
    ensures log != []
    ensures
      var e := log[|log| - 1];
      if e.Synced? && e.target == i then e.origin == last else PinIsLast(log[..|log| - 1], i, last)
  {
    OriginsStep(log, i);
  }

  lemma {:induction false} LeftAloneBelow(sys: System, e: LogEntry, c: Commit, i: nat)
    requires ValidSystem(sys) && i < |sys.targets| && Made(sys, e, Parent(c), c)
    requires LeftAlone(sys, i, Some(c)) && !(e.Synced? && e.target == i)
    ensures LeftAlone(sys, i, Parent(c))
  {
    EntryKinds(sys, e, Parent(c), c, i);
  }

  lemma {:induction false} ContentStays(sys: System, e: LogEntry, c: Commit, i: nat, shaped: Tree)
    requires ValidSystem(sys) && i < |sys.targets| && Made(sys, e, Parent(c), c) && LeftAlone(sys, i, Some(c))
    requires !(e.Synced? && e.target == i) && Holds(Existing(TreeOf(Parent(c)), sys.targets[i].dest), shaped)
    ensures Holds(Existing(c.tree, sys.targets[i].dest), shaped)
  {
    EntryKinds(sys, e, Parent(c), c, i);
    var dest := sys.targets[i].dest;
    if OfAnother(sys, i, c.message) {
      MadeElsewhere(sys, e, Parent(c), c, i);
    } else {
      HoldsThrough(Existing(c.tree, dest), Existing(TreeOf(Parent(c)), dest), shaped);
    }
  }

  lemma {:induction false} LastOriginIsSynced(sys: System, s: State, log: seq<LogEntry>, i: nat)
    requires i < |sys.targets| && i in s.synced && Accounted(sys, s, log, i)
    ensures PinIsLast(log, i, s.synced[i])
  {
  }

  lemma {:induction false} ExplainedHolds(sys: System, root: Option<Commit>, known: set<Commit>, s: State, log: seq<LogEntry>, i: nat)
    requires ValidSystem(sys) && Explained(sys, root, known, s, log)
    requires i < |sys.targets| && i in s.synced && LeftAlone(sys, i, s.repo.branch)
    ensures
      var shaped := ShapedFor(sys, i, s.synced[i]);
      shaped.Ok? && Holds(Existing(TreeOf(s.repo.branch), sys.targets[i].dest), shaped.value)
  {
    LastOriginIsSynced(sys, s, log, i);
    ContentIsLogged(sys, root, log, s.repo.branch, i, s.synced[i]);
  }

  /** After any run, every destination that foreign commits and its own tip layer
      have left alone since holds the tree its target makes of the tip or pin it
      was last reconciled at: no other target and no failed reconcile touches it. */
  lemma {:induction false} DestinationsHoldTheirUpstream(sys: System, root: Option<Commit>, agents: AgentState, known: set<Commit>, events: seq<Event>, i: nat)
    requires ValidSystem(sys) && Fresh(sys, root) && InjectiveOn(sys.w, known) && KnownEvents(known, events)
    requires i < |sys.targets| && i in Run(sys, Start(root, agents), events).synced
    requires LeftAlone(sys, i, Run(sys, Start(root, agents), events).repo.branch)
    ensures
      var s := Run(sys, Start(root, agents), events);
      var shaped := ShapedFor(sys, i, s.synced[i]);
      shaped.Ok? && Holds(Existing(TreeOf(s.repo.branch), sys.targets[i].dest), shaped.value)
  {
    var log := RunStaysExplained(sys, root, agents, known, events);
    ExplainedHolds(sys, root, known, Run(sys, Start(root, agents), events), log, i);
  }

  /** With a tip layer: a reconcile that succeeds after any run leaves the layer,
      applied to a mirror tip, and the mirror tip holds the tree made of the
      upstream tip if it was left alone, as it is whenever something was mirrored. */
  lemma {:induction false} LayersLieOnTheirUpstream(sys: System, root: Option<Commit>, agents: AgentState, known: set<Commit>, events: seq<Event>, i: nat)
    requires ValidSystem(sys) && Fresh(sys, root) && InjectiveOn(sys.w, known) && KnownEvents(known, events)
    requires i < |sys.targets| && sys.targets[i].ImportTarget? && IsRelPath(sys.targets[i].dest) && Combined(sys.targets[i].layer) != []
    requires var s := Run(sys, Start(root, agents), events); i in s.upstream && Succeeds(sys, i, s.upstream[i], s.repo)
    ensures
      var s, t := Run(sys, Start(root, agents), events), sys.targets[i];
      var mirror := MirrorOf(sys, s, i);
      && mirror.Ok? && mirror.value.head.Some?
      && (var layer := LayerOn(EnvOf(sys.w, t.dest, t.layer, mirror.value.head), Combined(t.layer), mirror.value.head.value, s.repo.agents).outcome;
          layer.Ok? && Step(sys, s, Trigger(i)).repo.branch == Some(layer.value.head))
      && (mirror.value.imported > 0 ==> LeftAlone(sys, i, mirror.value.head))
      && (LeftAlone(sys, i, mirror.value.head) ==>
            var shaped := ShapedFor(sys, i, s.upstream[i]);
            shaped.Ok? && Holds(Existing(TreeOf(mirror.value.head), t.dest), shaped.value))
  {
    var log := RunStaysExplained(sys, root, agents, known, events);
    LayerOfTrigger(sys, Run(sys, Start(root, agents), events), i);
    MirrorTipHolds(sys, root, known, Run(sys, Start(root, agents), events), log, i);
  }

  lemma {:induction false} LayerOfTrigger(sys: System, s: State, i: nat)
    requires ValidSystem(sys) && i < |sys.targets| && sys.targets[i].ImportTarget? && IsRelPath(sys.targets[i].dest)
    requires Combined(sys.targets[i].layer) != [] && i in s.upstream && Succeeds(sys, i, s.upstream[i], s.repo)
    ensures
      var t, mirror := sys.targets[i], MirrorOf(sys, s, i);
      && mirror.Ok? && mirror.value.head.Some?
      && var layer := LayerOn(EnvOf(sys.w, t.dest, t.layer, mirror.value.head), Combined(t.layer), mirror.value.head.value, s.repo.agents).outcome;
         layer.Ok? && Step(sys, s, Trigger(i)).repo.branch == Some(layer.value.head)
  {
    TargetsAreApart(sys, i, i);
    ImportParts(sys.w, sys.targets[i], s.upstream[i], s.repo.branch, s.repo.agents);
  }

  lemma {:induction false} MirrorTipHolds(sys: System, root: Option<Commit>, known: set<Commit>, s: State, log: seq<LogEntry>, i: nat)
    requires ValidSystem(sys) && Fresh(sys, root) && InjectiveOn(sys.w, known) && Explained(sys, root, known, s, log)
    requires i < |sys.targets| && sys.targets[i].ImportTarget? && i in s.upstream && IsRelPath(sys.targets[i].dest)
    requires MirrorOf(sys, s, i).Ok?
    ensures
      var head := MirrorOf(sys, s, i).value.head;
      && (MirrorOf(sys, s, i).value.imported > 0 ==> LeftAlone(sys, i, head))
      && (LeftAlone(sys, i, head) ==>
            var shaped := ShapedFor(sys, i, s.upstream[i]);
            shaped.Ok? && Holds(Existing(TreeOf(head), sys.targets[i].dest), shaped.value))
  {
    var head := MirrorOf(sys, s, i).value.head;
    var log' := MirrorExtendsTheLog(sys, root, known, s, log, i);
    if MirrorOf(sys, s, i).value.imported > 0 {
      MirroredTipSyncs(sys, s, i);
    }
    if LeftAlone(sys, i, head) {
      ContentIsLogged(sys, root, log', head, i, s.upstream[i]);
    }
  }

  lemma {:induction false} MirroredTipSyncs(sys: System, s: State, i: nat)
    requires ValidSystem(sys) && i < |sys.targets| && sys.targets[i].ImportTarget? && i in s.upstream && IsRelPath(sys.targets[i].dest)
    requires MirrorOf(sys, s, i).Ok? && MirrorOf(sys, s, i).value.imported > 0 && MirrorOf(sys, s, i).value.head.Some?
    ensures Syncs(sys.targets[i], MirrorOf(sys, s, i).value.head.value.message)
  {
    var t := sys.targets[i];
    TargetsAreApart(sys, i, i);
    var base := StripTip(s.repo.branch, t.dest);
    var delta := Delta(sys.w, Some(s.upstream[i]), LastImported(base, t.dest).value).value;
    var below := RunParent(sys.w, t.dest, delta, base, t.transforms);
    MirrorCommitRecords(sys.w, t.dest, delta[|delta| - 1], below, t.transforms);
  }
}
