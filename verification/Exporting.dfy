/** Export: a monorepo path projected out, one commit per change of its
    shippable content. */
module Exporting {
  import opened Wrappers
  import opened Text
  import opened Trailers
  import opened Trees
  import opened Paths
  import opened Markers
  import opened Worlds
  import opened Transforms
  import opened Histories
  import opened Mirror

  /** The monorepo commit the destination reflects, from the newest export
      trailer on its first-parent chain. */
  function LastExported(destTip: Option<Commit>): Result<Option<Oid>>
    decreases Depth(destTip)
  {
    if destTip.None? then Ok(None)
    else if TrailerValue(destTip.value.message, EXPORT_TRAILER).Some? then
      var oid :- ParseOid(TrailerValue(destTip.value.message, EXPORT_TRAILER).value);
      Ok(Some(oid))
    else LastExported(Parent(destTip.value))
  }

  /** The scan as a loop down the first parents. */
  method FindLastExported(destTip: Option<Commit>) returns (r: Result<Option<Oid>>)
    ensures r == LastExported(destTip)
  {
    var cur := destTip;
    while cur.Some?
      invariant LastExported(destTip) == LastExported(cur)
      decreases Depth(cur)
    {
      var sha := TrailerValue(cur.value.message, EXPORT_TRAILER);
      if sha.Some? {
        var oid := OidFromText(sha.value);
        return if oid.Some? then Ok(oid) else Err(MalformedTrailer);
      }
      cur := Parent(cur.value);
    }
    return Ok(None);
  }

  /** What a monorepo commit ships, if the path exists in it. */
  function ExportedTree(w: World, from: string, mono: Commit, transforms: seq<Transform>): Result<Option<Tree>> {
    var sub := SubtreeAt(mono.tree, Segments(from));
    if sub.None? then Ok(None) else
      var transformed :- ApplyTreeTransforms(w, sub.value, transforms);
      Ok(Some(StripForExport(transformed)))
  }

  /** The moving part of an export run: the destination head, the tree shipped
      last, and the number of commits made. */
  datatype Progress = Progress(head: Option<Commit>, prevTree: Option<Tree>, exported: nat)

  function ExportStep(w: World, from: string, transforms: seq<Transform>, mono: Commit, p: Progress): Result<Progress> {
    var shipped :- ExportedTree(w, from, mono, transforms);
    if shipped.None? || shipped == p.prevTree then Ok(p) else
      var message :- ApplyMessageTransforms(w, mono.message, transforms);
      var c := Commit(shipped.value, ParentList(p.head), mono.author, mono.committer, WithExportTrailer(message, w.id(mono)));
      Ok(Progress(Some(c), shipped, p.exported + 1))
  }

  function ExportAll(w: World, from: string, transforms: seq<Transform>, monos: seq<Commit>, p: Progress): Result<Progress>
    decreases |monos|
  {
    if monos == [] then Ok(p) else
      var older :- ExportAll(w, from, transforms, monos[..|monos| - 1], p);
      ExportStep(w, from, transforms, monos[|monos| - 1], older)
  }

  function StartAt(destTip: Option<Commit>): Progress {
    Progress(destTip, if destTip.Some? then Some(destTip.value.tree) else None, 0)
  }

  datatype ExportOutcome = ExportOutcome(exported: nat, head: Option<Commit>)

  function Exported(w: World, from: string, monoTip: Commit, destTip: Option<Commit>, transforms: seq<Transform>): Result<ExportOutcome> {
    var last :- LastExported(destTip);
    var delta :- Delta(w, Some(monoTip), last);
    var p :- ExportAll(w, from, transforms, delta, StartAt(destTip));
    Ok(ExportOutcome(p.exported, p.head))
  }

  /** The export as the program runs it, one monorepo commit after another. */
  method Export(w: World, from: string, monoTip: Commit, destTip: Option<Commit>, transforms: seq<Transform>) returns (r: Result<ExportOutcome>)
    ensures r == Exported(w, from, monoTip, destTip, transforms)
  {
    var last := FindLastExported(destTip);
    if last.Err? {
      return Err(last.error);
    }
    if Some(w.id(monoTip)) == last.value {
      return Ok(ExportOutcome(0, destTip));
    }
    var delta := FirstParentDelta(w, monoTip, last.value);
    if delta.Err? {
      return Err(delta.error);
    }
    var monos := delta.value;
    var head := destTip;
    var prevTree := if destTip.Some? then Some(destTip.value.tree) else None;
    var exported := 0;
    for i := 0 to |monos|
      invariant ExportAll(w, from, transforms, monos[..i], StartAt(destTip)) == Ok(Progress(head, prevTree, exported))
    {
      ExportOneMore(w, from, transforms, monos, i, StartAt(destTip));
      var next := ExportStep(w, from, transforms, monos[i], Progress(head, prevTree, exported));
      if next.Err? {
        ExportStops(w, from, transforms, monos, i + 1, StartAt(destTip));
        return Err(next.error);
      }
      head, prevTree, exported := next.value.head, next.value.prevTree, next.value.exported;
    }
    assert monos[..|monos|] == monos;
    return Ok(ExportOutcome(exported, head));
  }

  lemma {:induction false} ExportOneMore(w: World, from: string, transforms: seq<Transform>, monos: seq<Commit>, i: nat, p: Progress)
    requires i < |monos| && ExportAll(w, from, transforms, monos[..i], p).Ok?
    ensures ExportAll(w, from, transforms, monos[..i + 1], p)
         == ExportStep(w, from, transforms, monos[i], ExportAll(w, from, transforms, monos[..i], p).value)
  {
    assert monos[..i + 1][..i] == monos[..i];
  }

  lemma {:induction false} ExportStops(w: World, from: string, transforms: seq<Transform>, monos: seq<Commit>, k: nat, p: Progress)
    requires k <= |monos| && ExportAll(w, from, transforms, monos[..k], p).Err?
    ensures ExportAll(w, from, transforms, monos, p) == ExportAll(w, from, transforms, monos[..k], p)
    decreases |monos|
  {
    if k == |monos| {
      assert monos[..k] == monos;
    } else {
      var init := monos[..|monos| - 1];
      assert init[..k] == monos[..k];
      ExportStops(w, from, transforms, init, k, p);
    }
  }

  lemma {:induction false} ExportConcat(w: World, from: string, transforms: seq<Transform>, a: seq<Commit>, b: seq<Commit>, p: Progress)
    requires ExportAll(w, from, transforms, a, p).Ok?
    ensures ExportAll(w, from, transforms, a + b, p)
         == ExportAll(w, from, transforms, b, ExportAll(w, from, transforms, a, p).value)
    decreases |b|
  {
    if b == [] {
      assert a + b == a;
    } else {
      var init := b[..|b| - 1];
      assert (a + b)[..|a + b| - 1] == a + init;
      assert (a + b)[|a + b| - 1] == b[|b| - 1];
      ExportConcat(w, from, transforms, a, init, p);
    }
  }

  // --- resuming ---

  function Counted(p: Progress, n: nat): Progress {
    p.(exported := p.exported + n)
  }

  function CountedRun(r: Result<Progress>, n: nat): Result<Progress> {
    match r
    case Ok(q) => Ok(Counted(q, n))
    case Err(e) => Err(e)
  }

  lemma {:induction false} StepShifts(w: World, from: string, transforms: seq<Transform>, mono: Commit, p: Progress, n: nat)
    ensures ExportStep(w, from, transforms, mono, Counted(p, n)) == CountedRun(ExportStep(w, from, transforms, mono, p), n)
  {
  }

  /** The count does not steer the run. */
  lemma {:induction false} CountShifts(w: World, from: string, transforms: seq<Transform>, monos: seq<Commit>, p: Progress, n: nat)
    ensures ExportAll(w, from, transforms, monos, Counted(p, n)) == CountedRun(ExportAll(w, from, transforms, monos, p), n)
    decreases |monos|
  {
    if monos != [] {
      var init := monos[..|monos| - 1];
      CountShifts(w, from, transforms, init, p, n);
      if ExportAll(w, from, transforms, init, p).Ok? {
        StepShifts(w, from, transforms, monos[|monos| - 1], ExportAll(w, from, transforms, init, p).value, n);
      }
    }
  }

  /** The tree compared against is the tree of the destination head. */
  predicate Tracks(p: Progress) {
    p.prevTree == if p.head.Some? then Some(p.head.value.tree) else None
  }

  lemma {:induction false} RunTracks(w: World, from: string, transforms: seq<Transform>, monos: seq<Commit>, p: Progress)
    requires Tracks(p) && ExportAll(w, from, transforms, monos, p).Ok?
    ensures Tracks(ExportAll(w, from, transforms, monos, p).value)
    ensures ExportAll(w, from, transforms, monos, p).value.exported >= p.exported
    decreases |monos|
  {
    if monos != [] {
      RunTracks(w, from, transforms, monos[..|monos| - 1], p);
    }
  }

  /** A shipped commit names the monorepo commit it came from. */
  lemma {:induction false} ShippedCommitRecords(w: World, from: string, transforms: seq<Transform>, mono: Commit, p: Progress)
    requires ExportStep(w, from, transforms, mono, p).Ok? && ExportStep(w, from, transforms, mono, p).value != p
    ensures
      var q := ExportStep(w, from, transforms, mono, p).value;
      && q.exported == p.exported + 1
      && q.head.Some?
      && LastExported(q.head) == Ok(Some(w.id(mono)))
      && q.head.value.author == mono.author && q.head.value.committer == mono.committer
  {
    ExportTrailerSurvives(ApplyMessageTransforms(w, mono.message, transforms).value, w.id(mono));
    OidRoundTrip(w.id(mono));
  }

  lemma {:induction false} ShippedLast(w: World, from: string, transforms: seq<Transform>, monos: seq<Commit>, p: Progress)
    requires monos != [] && ExportAll(w, from, transforms, monos, p).Ok?
    requires ExportAll(w, from, transforms, monos, p) != ExportAll(w, from, transforms, monos[..|monos| - 1], p)
    ensures LastExported(ExportAll(w, from, transforms, monos, p).value.head) == Ok(Some(w.id(monos[|monos| - 1])))
  {
    var older := ExportAll(w, from, transforms, monos[..|monos| - 1], p).value;
    ShippedCommitRecords(w, from, transforms, monos[|monos| - 1], older);
  }

  lemma PrefixOfPrefix<T>(s: seq<T>, n: nat, k: nat)
    requires k < n <= |s|
    ensures s[..n][..k + 1] == s[..k + 1] && s[..n][k] == s[k]
  {
  }

  /** The last commit of a run was shipped from `monos[s]`: the rest was skipped. */
  predicate ShippedAt(w: World, from: string, transforms: seq<Transform>, monos: seq<Commit>, p: Progress, s: nat) {
    && s < |monos|
    && ExportAll(w, from, transforms, monos[..s + 1], p) == ExportAll(w, from, transforms, monos, p)
    && ExportAll(w, from, transforms, monos, p).Ok?
    && LastExported(ExportAll(w, from, transforms, monos, p).value.head) == Ok(Some(w.id(monos[s])))
  }

  lemma {:induction false} ShippedEarlier(w: World, from: string, transforms: seq<Transform>, monos: seq<Commit>, p: Progress, n: nat, s: nat)
    requires n <= |monos| && ShippedAt(w, from, transforms, monos[..n], p, s)
    requires ExportAll(w, from, transforms, monos, p) == ExportAll(w, from, transforms, monos[..n], p)
    ensures ShippedAt(w, from, transforms, monos, p, s)
  {
    PrefixOfPrefix(monos, n, s);
  }

  lemma {:induction false} LastShipped(w: World, from: string, transforms: seq<Transform>, monos: seq<Commit>, p: Progress) returns (s: nat)
    requires ExportAll(w, from, transforms, monos, p).Ok? && ExportAll(w, from, transforms, monos, p).value != p
    ensures ShippedAt(w, from, transforms, monos, p, s)
    decreases |monos|
  {
    var n := |monos| - 1;
    var init := monos[..n];
    if ExportAll(w, from, transforms, monos, p) == ExportAll(w, from, transforms, init, p) {
      s := LastShipped(w, from, transforms, init, p);
      ShippedEarlier(w, from, transforms, monos, p, n, s);
    } else {
      assert monos[..n + 1] == monos;
      s := n;
      ShippedLast(w, from, transforms, monos, p);
    }
  }

  /** Two outcomes that differ by commits made earlier. */
  predicate Adds(earlier: nat, whole: Result<ExportOutcome>, rest: Result<ExportOutcome>) {
    match (whole, rest)
    case (Ok(x), Ok(y)) => x.head == y.head && x.exported == earlier + y.exported
    case (Err(x), Err(y)) => x == y
    case _ => false
  }

  /** Walking on from the last shipped commit skips what was skipped before. */
  lemma {:induction false} SkippedAgain(w: World, from: string, transforms: seq<Transform>, monos: seq<Commit>, more: seq<Commit>, p: Progress, s: nat)
    requires Tracks(p) && p.exported == 0
    requires s < |monos| && ExportAll(w, from, transforms, monos, p).Ok?
    requires ExportAll(w, from, transforms, monos[..s + 1], p) == ExportAll(w, from, transforms, monos, p)
    ensures
      var q := ExportAll(w, from, transforms, monos, p).value;
      var rest := ExportAll(w, from, transforms, (monos + more)[s + 1..], StartAt(q.head));
      ExportAll(w, from, transforms, monos + more, p) ==
        match rest case Ok(r) => Ok(Counted(r, q.exported)) case Err(e) => Err(e)
  {
    var q := ExportAll(w, from, transforms, monos, p).value;
    RunTracks(w, from, transforms, monos, p);
    assert q == Counted(StartAt(q.head), q.exported);
    var tail := (monos + more)[s + 1..];
    assert monos + more == monos[..s + 1] + tail;
    ExportConcat(w, from, transforms, monos[..s + 1], tail, p);
    CountShifts(w, from, transforms, tail, StartAt(q.head), q.exported);
  }

  /** The destination head of a run that shipped something restarts it. */
  lemma {:induction false} ResumesAfterShipping(w: World, from: string, late: Commit, destTip: Option<Commit>, transforms: seq<Transform>,
                                                last: Option<Oid>, monos: seq<Commit>, more: seq<Commit>)
    requires DistinctIds(w, History(Some(late))) && Delta(w, Some(late), last) == Ok(monos + more)
    requires ExportAll(w, from, transforms, monos, StartAt(destTip)).Ok?
    requires ExportAll(w, from, transforms, monos, StartAt(destTip)).value != StartAt(destTip)
    ensures
      var q := ExportAll(w, from, transforms, monos, StartAt(destTip)).value;
      && LastExported(q.head).Ok? && Delta(w, Some(late), LastExported(q.head).value).Ok?
      && var rest := ExportAll(w, from, transforms, Delta(w, Some(late), LastExported(q.head).value).value, StartAt(q.head));
         ExportAll(w, from, transforms, monos + more, StartAt(destTip))
         == if rest.Ok? then Ok(Counted(rest.value, q.exported)) else Err(rest.error)
  {
    var s := LastShipped(w, from, transforms, monos, StartAt(destTip));
    SkippedAgain(w, from, transforms, monos, more, StartAt(destTip), s);
    DeltaOfRest(w, late, last, s + 1);
    assert (monos + more)[s] == monos[s];
  }

  /** Export resumes: exporting `late` onto an export of `early` gives the head
      that exporting `late` at once gives, and the counts add up, although
      skipped commits leave no trailer. */
  lemma {:induction false} ExportResumes(w: World, from: string, early: Commit, late: Commit, destTip: Option<Commit>, transforms: seq<Transform>)
    requires DistinctIds(w, History(Some(late))) && Precedes(Some(early), Some(late))
    requires Exported(w, from, early, destTip, transforms).Ok?
    ensures
      var first := Exported(w, from, early, destTip, transforms).value;
      Adds(first.exported, Exported(w, from, late, destTip, transforms), Exported(w, from, late, first.head, transforms))
  {
    var last := LastExported(destTip).value;
    var monos := Delta(w, Some(early), last).value;
    DeltaExtends(w, early, late, last);
    var more := History(Some(late))[|History(Some(early))|..];
    if ExportAll(w, from, transforms, monos, StartAt(destTip)).value != StartAt(destTip) {
      ResumesAfterShipping(w, from, late, destTip, transforms, last, monos, more);
    }
  }

  /** Exporting the same tip again ships nothing. */
  lemma {:induction false} ExportConverges(w: World, from: string, tip: Commit, destTip: Option<Commit>, transforms: seq<Transform>)
    requires DistinctIds(w, History(Some(tip)))
    requires Exported(w, from, tip, destTip, transforms).Ok?
    ensures
      var first := Exported(w, from, tip, destTip, transforms).value;
      Exported(w, from, tip, first.head, transforms) == Ok(ExportOutcome(0, first.head))
  {
    ExportResumes(w, from, tip, tip, destTip, transforms);
  }

  // --- what is shipped ---

  /** The commits of a run, oldest first, with the tree each ships. */
  function Shipped(w: World, from: string, transforms: seq<Transform>, monos: seq<Commit>, prev: Option<Tree>): seq<(Commit, Tree)>
    decreases |monos|
  {
    if monos == [] then [] else
      var rest := monos[1..];
      match ExportedTree(w, from, monos[0], transforms)
      case Ok(Some(t)) =>
        if Some(t) == prev then Shipped(w, from, transforms, rest, prev)
        else [(monos[0], t)] + Shipped(w, from, transforms, rest, Some(t))
      case _ => Shipped(w, from, transforms, rest, prev)
  }

  /** The new part of a destination history mirrors a list of sources. */
  predicate Reflects(commits: seq<Commit>, sources: seq<(Commit, Tree)>) {
    && |commits| == |sources|
    && forall k :: 0 <= k < |commits| ==>
         && commits[k].tree == sources[k].1
         && commits[k].author == sources[k].0.author
         && commits[k].committer == sources[k].0.committer
  }

  lemma {:induction false} ExportAllFront(w: World, from: string, transforms: seq<Transform>, monos: seq<Commit>, p: Progress)
    requires monos != []
    ensures ExportAll(w, from, transforms, monos, p) ==
            match ExportStep(w, from, transforms, monos[0], p)
            case Ok(q) => ExportAll(w, from, transforms, monos[1..], q)
            case Err(e) => Err(e)
  {
    assert monos == monos[..1] + monos[1..];
    assert monos[..1][..0] == [];
    assert ExportAll(w, from, transforms, monos[..1], p) == ExportStep(w, from, transforms, monos[0], p);
    if ExportStep(w, from, transforms, monos[0], p).Ok? {
      ExportConcat(w, from, transforms, monos[..1], monos[1..], p);
    } else {
      ExportStops(w, from, transforms, monos, 1, p);
    }
  }

  /** `appended` is what leads from one destination head to another, and it
      reflects `sources`. */
  predicate Leads(p: Progress, q: Progress, appended: seq<Commit>, sources: seq<(Commit, Tree)>) {
    && History(q.head) == History(p.head) + appended
    && q.exported == p.exported + |appended|
    && Reflects(appended, sources)
  }

  lemma {:induction false} LeadsOn(p: Progress, q: Progress, r: Progress, rest: seq<Commit>, source: (Commit, Tree), sources: seq<(Commit, Tree)>)
    requires q.head.Some? && Parent(q.head.value) == p.head && q.exported == p.exported + 1
    requires q.head.value.tree == source.1 && q.head.value.author == source.0.author && q.head.value.committer == source.0.committer
    requires Leads(q, r, rest, sources)
    ensures Leads(p, r, [q.head.value] + rest, [source] + sources)
  {
    PrependReflects(q.head.value, rest, source, sources);
    assert History(q.head) == History(p.head) + [q.head.value];
    assert History(p.head) + [q.head.value] + rest == History(p.head) + ([q.head.value] + rest);
  }

  /** A run appends exactly the changes, one commit each, with authors kept. */
  lemma {:induction false} RunAppendsTheChanges(w: World, from: string, transforms: seq<Transform>, monos: seq<Commit>, p: Progress)
      returns (appended: seq<Commit>)
    requires ExportAll(w, from, transforms, monos, p).Ok?
    ensures Leads(p, ExportAll(w, from, transforms, monos, p).value, appended, Shipped(w, from, transforms, monos, p.prevTree))
    decreases |monos|
  {
    if monos == [] {
      appended := [];
      assert History(p.head) + appended == History(p.head);
    } else {
      ExportAllFront(w, from, transforms, monos, p);
      var q := ExportStep(w, from, transforms, monos[0], p).value;
      appended := RunAppendsTheChanges(w, from, transforms, monos[1..], q);
      if q == p {
        ShippedSkips(w, from, transforms, monos, p);
      } else {
        ShippedTakes(w, from, transforms, monos, p);
        var r := ExportAll(w, from, transforms, monos, p).value;
        LeadsOn(p, q, r, appended, (monos[0], q.head.value.tree), Shipped(w, from, transforms, monos[1..], q.prevTree));
        appended := [q.head.value] + appended;
      }
    }
  }

  lemma {:induction false} PrependReflects(c: Commit, commits: seq<Commit>, source: (Commit, Tree), sources: seq<(Commit, Tree)>)
    requires Reflects(commits, sources)
    requires c.tree == source.1 && c.author == source.0.author && c.committer == source.0.committer
    ensures Reflects([c] + commits, [source] + sources)
  {
  }

  lemma {:induction false} ShippedSkips(w: World, from: string, transforms: seq<Transform>, monos: seq<Commit>, p: Progress)
    requires monos != [] && ExportStep(w, from, transforms, monos[0], p) == Ok(p)
    ensures Shipped(w, from, transforms, monos, p.prevTree) == Shipped(w, from, transforms, monos[1..], p.prevTree)
  {
  }

  lemma {:induction false} ShippedTakes(w: World, from: string, transforms: seq<Transform>, monos: seq<Commit>, p: Progress)
    requires monos != [] && ExportStep(w, from, transforms, monos[0], p).Ok? && ExportStep(w, from, transforms, monos[0], p).value != p
    ensures
      var q := ExportStep(w, from, transforms, monos[0], p).value;
      && q.head.Some? && q.prevTree == Some(q.head.value.tree) && q.exported == p.exported + 1
      && Parent(q.head.value) == p.head
      && q.head.value.author == monos[0].author && q.head.value.committer == monos[0].committer
      && Shipped(w, from, transforms, monos, p.prevTree)
         == [(monos[0], q.head.value.tree)] + Shipped(w, from, transforms, monos[1..], q.prevTree)
  {
  }

  /** Neighbouring shipped trees differ, and the first differs from what is there. */
  lemma {:induction false} NeighboursDiffer(w: World, from: string, transforms: seq<Transform>, monos: seq<Commit>, prev: Option<Tree>, k: nat)
    requires k < |Shipped(w, from, transforms, monos, prev)|
    ensures
      var s := Shipped(w, from, transforms, monos, prev);
      if k == 0 then Some(s[0].1) != prev else s[k].1 != s[k - 1].1
    decreases |monos|
  {
    match ExportedTree(w, from, monos[0], transforms) {
      case Ok(Some(t)) =>
        if Some(t) == prev {
          NeighboursDiffer(w, from, transforms, monos[1..], prev, k);
        } else if k > 0 {
          NeighboursDiffer(w, from, transforms, monos[1..], Some(t), k - 1);
        }
      case _ => NeighboursDiffer(w, from, transforms, monos[1..], prev, k);
    }
  }

  // --- import, then export ---

  /** A list of commits with trees, equal neighbours collapsed. */
  function Collapsed(sources: seq<(Commit, Tree)>, prev: Option<Tree>): seq<(Commit, Tree)>
    decreases |sources|
  {
    if sources == [] then []
    else if Some(sources[0].1) == prev then Collapsed(sources[1..], prev)
    else [sources[0]] + Collapsed(sources[1..], Some(sources[0].1))
  }

  /** Upstream commits with the trees they have. */
  function WithTrees(origins: seq<Commit>): (sources: seq<(Commit, Tree)>)
    ensures |sources| == |origins|
    ensures forall k :: 0 <= k < |origins| ==> sources[k] == (origins[k], origins[k].tree)
  {
    seq(|origins|, k requires 0 <= k < |origins| => (origins[k], origins[k].tree))
  }

  /** Upstream commits with the trees that come back. */
  function WithReturned(origins: seq<Commit>): (sources: seq<(Commit, Tree)>)
    ensures |sources| == |origins|
    ensures forall k :: 0 <= k < |origins| ==> sources[k] == (origins[k], Returned(origins[k].tree))
  {
    seq(|origins|, k requires 0 <= k < |origins| => (origins[k], Returned(origins[k].tree)))
  }

  /** Exporting a mirror commit without transforms ships the returned tree. */
  lemma {:induction false} MirrorCommitShips(w: World, dest: string, origin: Commit, parent: Option<Commit>)
    requires IsRelPath(dest) && ReplayCommit(w, dest, origin, parent, []).Ok?
    ensures ExportedTree(w, dest, ReplayCommit(w, dest, origin, parent, []).value, []) == Ok(Some(Returned(origin.tree)))
  {
    assert Reshaped(w, origin.tree, []) == Ok(Rename(origin.tree));
    var existing := SubtreeAt(TreeOf(parent), Segments(dest));
    var placed := KeepMetadata(TreeOf(parent), Segments(dest), Rename(origin.tree));
    SpliceThenRead(TreeOf(parent), Segments(dest), placed, []);
    if existing.Some? {
      StripIgnoresOverlay(Rename(origin.tree), existing.value);
    }
  }

  /** Each mirror commit of a run reflects its source. */
  predicate Mirrors(w: World, dest: string, sources: seq<(Commit, Tree)>, commits: seq<Commit>) {
    && |commits| == |sources|
    && forall k :: 0 <= k < |commits| ==>
         && ExportedTree(w, dest, commits[k], []) == Ok(Some(sources[k].1))
         && commits[k].author == sources[k].0.author
         && commits[k].committer == sources[k].0.committer
  }

  lemma {:induction false} MirrorsAppend(w: World, dest: string, sources: seq<(Commit, Tree)>, commits: seq<Commit>, c: Commit)
    requires sources != [] && Mirrors(w, dest, sources[..|sources| - 1], commits)
    requires ExportedTree(w, dest, c, []) == Ok(Some(sources[|sources| - 1].1))
    requires c.author == sources[|sources| - 1].0.author && c.committer == sources[|sources| - 1].0.committer
    ensures Mirrors(w, dest, sources, commits + [c])
  {
  }

  /** The top commit of a run and what is below it. */
  lemma {:induction false} TopOfRun(w: World, dest: string, origins: seq<Commit>, base: Option<Commit>) returns (below: Option<Commit>, top: Commit)
    requires IsRelPath(dest) && origins != [] && ReplayAll(w, dest, origins, base, []).Ok?
    ensures ReplayAll(w, dest, origins[..|origins| - 1], base, []) == Ok(below)
    ensures ReplayAll(w, dest, origins, base, []) == Ok(Some(top))
    ensures ExportedTree(w, dest, top, []) == Ok(Some(Returned(origins[|origins| - 1].tree)))
    ensures top.author == origins[|origins| - 1].author && top.committer == origins[|origins| - 1].committer
    ensures History(Some(top)) == History(below) + [top]
  {
    var n := |origins| - 1;
    below := ReplayAll(w, dest, origins[..n], base, []).value;
    top := ReplayCommit(w, dest, origins[n], below, []).value;
    MirrorCommitShips(w, dest, origins[n], below);
    assert Parent(top) == below;
  }

  lemma {:induction false} RunMirrors(w: World, dest: string, origins: seq<Commit>, base: Option<Commit>) returns (commits: seq<Commit>)
    requires IsRelPath(dest) && ReplayAll(w, dest, origins, base, []).Ok?
    ensures History(ReplayAll(w, dest, origins, base, []).value) == History(base) + commits
    ensures Mirrors(w, dest, WithReturned(origins), commits)
    decreases |origins|
  {
    if origins == [] {
      commits := [];
      assert History(base) + commits == History(base);
    } else {
      var n := |origins| - 1;
      var below, top := TopOfRun(w, dest, origins, base);
      var older := RunMirrors(w, dest, origins[..n], base);
      assert WithReturned(origins)[..n] == WithReturned(origins[..n]);
      MirrorsAppend(w, dest, WithReturned(origins), older, top);
      commits := older + [top];
      AppendAssociates(History(base), older, [top]);
    }
  }

  /** What an export of mirror commits ships. */
  lemma {:induction false} ShippedOfMirrors(w: World, dest: string, sources: seq<(Commit, Tree)>, commits: seq<Commit>, prev: Option<Tree>)
    requires Mirrors(w, dest, sources, commits)
    ensures SameSources(Shipped(w, dest, [], commits, prev), Collapsed(sources, prev))
    decreases |sources|
  {
    if sources != [] {
      var t := sources[0].1;
      assert ExportedTree(w, dest, commits[0], []) == Ok(Some(t));
      MirrorsTail(w, dest, sources, commits);
      ShippedOfMirrors(w, dest, sources[1..], commits[1..], if Some(t) == prev then prev else Some(t));
    }
  }

  predicate SameSources(a: seq<(Commit, Tree)>, b: seq<(Commit, Tree)>) {
    && |a| == |b|
    && forall k :: 0 <= k < |a| ==>
         a[k].1 == b[k].1 && a[k].0.author == b[k].0.author && a[k].0.committer == b[k].0.committer
  }

  lemma {:induction false} MirrorsTail(w: World, dest: string, sources: seq<(Commit, Tree)>, commits: seq<Commit>)
    requires Mirrors(w, dest, sources, commits) && sources != []
    ensures Mirrors(w, dest, sources[1..], commits[1..])
  {
  }

  lemma {:induction false} ExportNeverFailsOnMirrors(w: World, dest: string, sources: seq<(Commit, Tree)>, commits: seq<Commit>, p: Progress)
    requires Mirrors(w, dest, sources, commits)
    ensures ExportAll(w, dest, [], commits, p).Ok?
    decreases |commits|
  {
    if commits != [] {
      var n := |commits| - 1;
      assert Mirrors(w, dest, sources[..n], commits[..n]);
      ExportNeverFailsOnMirrors(w, dest, sources[..n], commits[..n], p);
      assert ExportedTree(w, dest, commits[n], []) == Ok(Some(sources[n].1));
    }
  }

  /** Mirroring from nothing and exporting from nothing ships, in order, every
      change of the returned trees. */
  lemma {:induction false} ExportOfMirror(w: World, dest: string, originTip: Commit) returns (shipped: seq<Commit>)
    requires IsRelPath(dest)
    ensures Mirrored(w, dest, originTip, None, []).Ok? && Mirrored(w, dest, originTip, None, []).value.head.Some?
    ensures
      var mono := Mirrored(w, dest, originTip, None, []).value.head.value;
      Exported(w, dest, mono, None, []).Ok?
      && History(Exported(w, dest, mono, None, []).value.head) == shipped
      && Exported(w, dest, mono, None, []).value.exported == |shipped|
    ensures Reflects(shipped, Collapsed(WithReturned(History(Some(originTip))), None))
  {
    var origins := History(Some(originTip));
    DeltaOfEverything(w, Some(originTip));
    ReplaySucceeds(w, dest, origins, None);
    var head := ReplayAll(w, dest, origins, None, []).value;
    var commits := RunMirrors(w, dest, origins, None);
    assert History(None) + commits == commits;
    assert History(head) == commits && head.Some?;
    DeltaOfEverything(w, head);
    ExportNeverFailsOnMirrors(w, dest, WithReturned(origins), commits, StartAt(None));
    shipped := RunAppendsTheChanges(w, dest, [], commits, StartAt(None));
    assert History(None) + shipped == shipped;
    ShippedOfMirrors(w, dest, WithReturned(origins), commits, None);
  }

  /** Without transforms nothing can fail. */
  lemma {:induction false} ReplaySucceeds(w: World, dest: string, origins: seq<Commit>, base: Option<Commit>)
    requires IsRelPath(dest)
    ensures ReplayAll(w, dest, origins, base, []).Ok?
    decreases |origins|
  {
    if origins != [] {
      ReplaySucceeds(w, dest, origins[..|origins| - 1], base);
    }
  }

  /** Collapsing keeps every tree somewhere. */
  lemma {:induction false} CollapsedKeeps(sources: seq<(Commit, Tree)>, prev: Option<Tree>, k: nat) returns (m: nat)
    requires k < |sources| && Some(sources[k].1) != prev
    ensures m < |Collapsed(sources, prev)| && Collapsed(sources, prev)[m].1 == sources[k].1
    decreases |sources|
  {
    if Some(sources[0].1) == prev {
      m := CollapsedKeeps(sources[1..], prev, k - 1);
    } else if sources[0].1 == sources[k].1 {
      m := 0;
    } else {
      m := CollapsedKeeps(sources[1..], Some(sources[0].1), k - 1);
      m := m + 1;
    }
  }

  /** Collapsing makes no tree up. */
  lemma {:induction false} CollapsedComesFrom(sources: seq<(Commit, Tree)>, prev: Option<Tree>, m: nat) returns (k: nat)
    requires m < |Collapsed(sources, prev)|
    ensures k < |sources| && Collapsed(sources, prev)[m] == sources[k]
    decreases |sources|
  {
    if Some(sources[0].1) == prev {
      k := CollapsedComesFrom(sources[1..], prev, m);
      k := k + 1;
    } else if m == 0 {
      k := 0;
    } else {
      k := CollapsedComesFrom(sources[1..], Some(sources[0].1), m - 1);
      k := k + 1;
    }
  }

  predicate AllExportable(origins: seq<Commit>) {
    forall k :: 0 <= k < |origins| ==> Exportable(origins[k].tree)
  }

  /** Only exportable histories come back as they were. */
  lemma {:induction false} ComesBackExactlyWhenExportable(origins: seq<Commit>, shipped: seq<Commit>)
    requires Reflects(shipped, Collapsed(WithReturned(origins), None))
    ensures Reflects(shipped, Collapsed(WithTrees(origins), None)) <==> AllExportable(origins)
  {
    if AllExportable(origins) {
      forall k | 0 <= k < |origins| ensures WithTrees(origins)[k] == WithReturned(origins)[k] {
        StripUndoesImport(origins[k].tree, EMPTY_TREE);
      }
      assert WithTrees(origins) == WithReturned(origins);
    } else if Reflects(shipped, Collapsed(WithTrees(origins), None)) {
      var k :| 0 <= k < |origins| && !Exportable(origins[k].tree);
      var m := CollapsedKeeps(WithTrees(origins), None, k);
      var k' := CollapsedComesFrom(WithReturned(origins), None, m);
      ReturnedIsExportable(origins[k'].tree);
      assert false;
    }
  }

  /** History round trip: mirroring an upstream from nothing and exporting the
      destination from nothing gives the upstream history back, equal neighbours
      collapsed, with trees and authors kept, if and only if every tree of it is
      exportable. */
  lemma {:induction false} HistoryRoundTrip(w: World, dest: string, originTip: Commit) returns (shipped: seq<Commit>)
    requires IsRelPath(dest)
    ensures Mirrored(w, dest, originTip, None, []).Ok? && Mirrored(w, dest, originTip, None, []).value.head.Some?
    ensures
      var mono := Mirrored(w, dest, originTip, None, []).value.head.value;
      Exported(w, dest, mono, None, []).Ok?
      && History(Exported(w, dest, mono, None, []).value.head) == shipped
    ensures Reflects(shipped, Collapsed(WithTrees(History(Some(originTip))), None)) <==> AllExportable(History(Some(originTip)))
  {
    shipped := ExportOfMirror(w, dest, originTip);
    ComesBackExactlyWhenExportable(History(Some(originTip)), shipped);
  }
}
