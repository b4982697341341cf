/** The mirror: an upstream first-parent history replayed as a linear run of
    commits under a monorepo prefix. */
module Mirror {
  import opened Wrappers
  import opened Trailers
  import opened Trees
  import opened Paths
  import opened Markers
  import opened Worlds
  import opened Transforms
  import opened Histories

  function TreeOf(c: Option<Commit>): Tree {
    if c.Some? then c.value.tree else EMPTY_TREE
  }

  function ParentList(c: Option<Commit>): seq<Commit> {
    if c.Some? then [c.value] else []
  }

  /** The subtree an upstream tree becomes before it is placed. */
  function Reshaped(w: World, upstream: Tree, transforms: seq<Transform>): Result<Tree> {
    ApplyTreeTransforms(w, Rename(upstream), transforms)
  }

  /** The tree of a commit that places `subtree` at `dest` on top of `base`. */
  function Placed(base: Tree, dest: string, subtree: Tree): Tree
    requires IsRelPath(dest)
  {
    Splice(base, Segments(dest), KeepMetadata(base, Segments(dest), subtree))
  }

  /** One upstream commit as a mirror commit on `parent`. */
  function ReplayCommit(w: World, dest: string, origin: Commit, parent: Option<Commit>, transforms: seq<Transform>): Result<Commit>
    requires IsRelPath(dest)
  {
    var subtree :- Reshaped(w, origin.tree, transforms);
    var message :- ApplyMessageTransforms(w, origin.message, transforms);
    Ok(Commit(Placed(TreeOf(parent), dest, subtree), ParentList(parent), origin.author, origin.committer,
              WithMirrorTrailers(message, w.id(origin), dest)))
  }

  /** A run of upstream commits, oldest first, on top of `head`. */
  function ReplayAll(w: World, dest: string, origins: seq<Commit>, head: Option<Commit>, transforms: seq<Transform>): Result<Option<Commit>>
    requires IsRelPath(dest)
    decreases |origins|
  {
    if origins == [] then Ok(head) else
      var below :- ReplayAll(w, dest, origins[..|origins| - 1], head, transforms);
      var top :- ReplayCommit(w, dest, origins[|origins| - 1], below, transforms);
      Ok(Some(top))
  }

  datatype MirrorOutcome = MirrorOutcome(imported: nat, head: Option<Commit>)

  /** The incremental mirror of `originTip` on `base`. */
  function Mirrored(w: World, dest: string, originTip: Commit, base: Option<Commit>, transforms: seq<Transform>): Result<MirrorOutcome>
    requires IsRelPath(dest)
  {
    var last :- LastImported(base, dest);
    var delta :- Delta(w, Some(originTip), last);
    var head :- ReplayAll(w, dest, delta, base, transforms);
    Ok(MirrorOutcome(|delta|, head))
  }

  /** The mirror as the program runs it, one upstream commit after another. */
  method ImportMirror(w: World, dest: string, originTip: Commit, base: Option<Commit>, transforms: seq<Transform>)
      returns (r: Result<MirrorOutcome>)
    requires IsRelPath(dest)
    ensures r == Mirrored(w, dest, originTip, base, transforms)
  {
    var found := LastImportedOrigin(base, dest);
    if found.Err? {
      return Err(found.error);
    }
    if Some(w.id(originTip)) == found.value {
      return Ok(MirrorOutcome(0, base));
    }
    var delta := FirstParentDelta(w, originTip, found.value);
    if delta.Err? {
      return Err(delta.error);
    }
    var origins := delta.value;
    var head := base;
    for i := 0 to |origins|
      invariant ReplayAll(w, dest, origins[..i], base, transforms) == Ok(head)
    {
      var c := ReplayCommit(w, dest, origins[i], head, transforms);
      ReplayOneMore(w, dest, origins, i, base, transforms);
      if c.Err? {
        ReplayStops(w, dest, origins, i + 1, base, transforms);
        return Err(c.error);
      }
      head := Some(c.value);
    }
    assert origins[..|origins|] == origins;
    return Ok(MirrorOutcome(|origins|, head));
  }

  lemma {:induction false} ReplayOneMore(w: World, dest: string, origins: seq<Commit>, i: nat, base: Option<Commit>, transforms: seq<Transform>)
    requires IsRelPath(dest) && i < |origins| && ReplayAll(w, dest, origins[..i], base, transforms).Ok?
    ensures
      var c := ReplayCommit(w, dest, origins[i], ReplayAll(w, dest, origins[..i], base, transforms).value, transforms);
      ReplayAll(w, dest, origins[..i + 1], base, transforms) == if c.Ok? then Ok(Some(c.value)) else Err(c.error)
  {
    assert origins[..i + 1][..i] == origins[..i];
  }

  /** A failure part of the way is the failure of the whole run. */
  lemma {:induction false} ReplayStops(w: World, dest: string, origins: seq<Commit>, k: nat, head: Option<Commit>, transforms: seq<Transform>)
    requires IsRelPath(dest) && k <= |origins|
    requires ReplayAll(w, dest, origins[..k], head, transforms).Err?
    ensures ReplayAll(w, dest, origins, head, transforms) == ReplayAll(w, dest, origins[..k], head, transforms)
    decreases |origins|
  {
    if k == |origins| {
      assert origins[..k] == origins;
    } else {
      var init := origins[..|origins| - 1];
      assert init[..k] == origins[..k];
      ReplayStops(w, dest, init, k, head, transforms);
    }
  }

  /** A run can be cut anywhere and resumed. */
  lemma {:induction false} ReplayConcat(w: World, dest: string, a: seq<Commit>, b: seq<Commit>, head: Option<Commit>, transforms: seq<Transform>)
    requires IsRelPath(dest) && ReplayAll(w, dest, a, head, transforms).Ok?
    ensures ReplayAll(w, dest, a + b, head, transforms)
         == ReplayAll(w, dest, b, ReplayAll(w, dest, a, head, transforms).value, transforms)
    decreases |b|
  {
    if b == [] {
      assert a + b == a;
    } else {
      var init := b[..|b| - 1];
      assert (a + b)[..|a + b| - 1] == a + init;
      assert (a + b)[|a + b| - 1] == b[|b| - 1];
      ReplayConcat(w, dest, a, init, head, transforms);
    }
  }

  lemma {:induction false} ReplayOfOne(w: World, dest: string, origin: Commit, base: Option<Commit>, transforms: seq<Transform>)
    requires IsRelPath(dest) && ReplayCommit(w, dest, origin, base, transforms).Ok?
    ensures ReplayAll(w, dest, [origin], base, transforms) == Ok(Some(ReplayCommit(w, dest, origin, base, transforms).value))
  {
    assert [origin][..0] == [];
    assert ReplayAll(w, dest, [], base, transforms) == Ok(base);
  }

  // --- what a mirror commit says about itself ---

  predicate Recordable(dest: string) {
    IsRelPath(dest) && IsScanSafe(dest)
  }

  /** A mirror commit is scoped to its destination and names its origin. */
  lemma {:induction false} MirrorCommitRecords(w: World, dest: string, origin: Commit, parent: Option<Commit>, transforms: seq<Transform>)
    requires Recordable(dest)
    requires ReplayCommit(w, dest, origin, parent, transforms).Ok?
    ensures
      var c := ReplayCommit(w, dest, origin, parent, transforms).value;
      && ScopedTo(c.message, dest)
      && OriginTrailer(c.message) == Some(w.id(origin))
      && Parent(c) == parent
      && LastImported(Some(c), dest) == Ok(Some(w.id(origin)))
      && c.author == origin.author && c.committer == origin.committer
  {
    var message := ApplyMessageTransforms(w, origin.message, transforms).value;
    DestinationSurvives(message, w.id(origin), dest);
    OriginSurvives(message, w.id(origin), dest);
    OidRoundTrip(w.id(origin));
  }

  /** After a run, the last origin recorded is the last one replayed. */
  lemma {:induction false} LastOfRun(w: World, dest: string, origins: seq<Commit>, head: Option<Commit>, transforms: seq<Transform>)
    requires Recordable(dest) && origins != []
    requires ReplayAll(w, dest, origins, head, transforms).Ok?
    ensures LastImported(ReplayAll(w, dest, origins, head, transforms).value, dest) == Ok(Some(w.id(origins[|origins| - 1])))
  {
    var below := ReplayAll(w, dest, origins[..|origins| - 1], head, transforms).value;
    MirrorCommitRecords(w, dest, origins[|origins| - 1], below, transforms);
  }

  lemma {:induction false} LastOfPrefix(w: World, dest: string, origins: seq<Commit>, j: nat, head: Option<Commit>, transforms: seq<Transform>)
    requires Recordable(dest) && 1 <= j <= |origins|
    requires ReplayAll(w, dest, origins[..j], head, transforms).Ok?
    ensures LastImported(ReplayAll(w, dest, origins[..j], head, transforms).value, dest) == Ok(Some(w.id(origins[j - 1])))
  {
    LastOfRun(w, dest, origins[..j], head, transforms);
  }

  // --- resuming equals starting over ---

  /** Stopping at the origin of a prefix of the run leaves the rest of the run. */
  lemma {:induction false} DeltaOfRest(w: World, tip: Commit, stop: Option<Oid>, j: nat)
    requires DistinctIds(w, History(Some(tip)))
    requires Delta(w, Some(tip), stop).Ok? && 1 <= j <= |Delta(w, Some(tip), stop).value|
    ensures Delta(w, Some(tip), Some(w.id(Delta(w, Some(tip), stop).value[j - 1]))) == Ok(Delta(w, Some(tip), stop).value[j..])
  {
    var h := History(Some(tip));
    var d := Delta(w, Some(tip), stop).value;
    if stop.None? {
      DeltaOfEverything(w, Some(tip));
      DeltaAfter(w, Some(tip), j - 1);
    } else {
      var k := DeltaFollows(w, Some(tip), stop.value);
      assert d[j - 1] == h[k + j];
      DeltaAfter(w, Some(tip), k + j);
      assert d[j..] == h[k + j + 1..];
    }
  }

  /** The delta of a later tip extends the delta of an earlier one. */
  lemma {:induction false} DeltaExtends(w: World, early: Commit, late: Commit, stop: Option<Oid>)
    requires DistinctIds(w, History(Some(late))) && Precedes(Some(early), Some(late))
    requires Delta(w, Some(early), stop).Ok?
    ensures Delta(w, Some(late), stop)
         == Ok(Delta(w, Some(early), stop).value + History(Some(late))[|History(Some(early))|..])
  {
    var short, long := History(Some(early)), History(Some(late));
    if stop.None? {
      DeltaOfEverything(w, Some(early));
      DeltaOfEverything(w, Some(late));
      PrefixThenRest(short, long, 0);
    } else {
      var k := DeltaFollows(w, Some(early), stop.value);
      PrefixThenRest(short, long, k + 1);
      DeltaAfter(w, Some(late), k);
    }
  }

  lemma PrefixThenRest<T>(short: seq<T>, long: seq<T>, k: nat)
    requires short <= long && k <= |short|
    ensures long[k..] == short[k..] + long[|short|..]
    ensures long[0..] == long && short[0..] == short
    ensures forall i :: 0 <= i < |short| ==> long[i] == short[i]
  {
  }

  lemma {:induction false} CutReplay(w: World, dest: string, origins: seq<Commit>, j: nat, head: Option<Commit>, transforms: seq<Transform>)
    requires IsRelPath(dest) && j <= |origins| && ReplayAll(w, dest, origins[..j], head, transforms).Ok?
    ensures ReplayAll(w, dest, origins[j..], ReplayAll(w, dest, origins[..j], head, transforms).value, transforms)
         == ReplayAll(w, dest, origins, head, transforms)
  {
    assert origins == origins[..j] + origins[j..];
    ReplayConcat(w, dest, origins[..j], origins[j..], head, transforms);
  }

  /** Mirroring a tip on top of any prefix of its own run gives the commit that
      mirroring it on the original base gives, failures included. */
  lemma {:induction false} MirrorFromPrefix(w: World, dest: string, tip: Commit, base: Option<Commit>, transforms: seq<Transform>, delta: seq<Commit>, j: nat)
    requires Recordable(dest) && DistinctIds(w, History(Some(tip)))
    requires LastImported(base, dest).Ok? && Delta(w, Some(tip), LastImported(base, dest).value) == Ok(delta)
    requires j <= |delta| && ReplayAll(w, dest, delta[..j], base, transforms).Ok?
    ensures
      var partial := ReplayAll(w, dest, delta[..j], base, transforms).value;
      && LastImported(partial, dest).Ok?
      && Delta(w, Some(tip), LastImported(partial, dest).value) == Ok(delta[j..])
      && ReplayAll(w, dest, delta[j..], partial, transforms) == ReplayAll(w, dest, delta, base, transforms)
  {
    CutReplay(w, dest, delta, j, base, transforms);
    if j == 0 {
      assert delta[0..] == delta && delta[..0] == [];
    } else {
      LastOfPrefix(w, dest, delta, j, base, transforms);
      DeltaOfRest(w, tip, LastImported(base, dest).value, j);
    }
  }
}
