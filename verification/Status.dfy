/** The dry run: what a status report says, and what the reconcile that follows
    it then does. */
module Status {
  import opened Wrappers
  import opened Trailers
  import opened Trees
  import opened Paths
  import opened Worlds
  import opened Transforms
  import opened Histories
  import opened Mirror
  import opened TipLayers
  import opened Vendoring
  import opened Exporting

  datatype State =
    | UpToDate
    | Behind(count: Option<nat>, isNew: bool)
    | PinChanged(isNew: bool)
    | Unresolved

  predicate IsActionable(s: State) {
    s.Behind? || s.PinChanged?
  }

  /** An import against the tip its tracked ref is at; no tip means the ref was
      not found. */
  function ImportStatus(w: World, dest: string, branch: Option<Commit>, tip: Option<Commit>): State {
    var actual := LastImported(branch, dest);
    if actual.Err? || tip.None? then Unresolved
    else if actual.value == Some(w.id(tip.value)) then UpToDate
    else
      var delta := Delta(w, tip, actual.value);
      Behind(if delta.Ok? then Some(|delta.value|) else None, actual.value.None?)
  }

  /** A vendor target against its declared pin, compared as text. */
  function VendorStatus(dest: string, branch: Option<Commit>, pin: string): State {
    var actual := LastVendored(branch, dest);
    if actual.Err? then Unresolved
    else if actual.value.Some? && actual.value.value == pin then UpToDate
    else PinChanged(actual.value.None?)
  }

  function ExportStatus(w: World, from: string, monoTip: Option<Commit>, destTip: Option<Commit>, transforms: seq<Transform>): State {
    var last := LastExported(destTip);
    if monoTip.None? || last.Err? then Unresolved
    else if last.value == Some(w.id(monoTip.value)) then UpToDate
    else
      var outcome := Exported(w, from, monoTip.value, destTip, transforms);
      Behind(if outcome.Ok? then Some(outcome.value.exported) else None, last.value.None?)
  }

  // --- imports ---

  /** What a status report promises about the mirror run that follows. */
  predicate Predicts(s: State, run: Result<MirrorOutcome>) {
    match s
    case UpToDate => run.Ok? ==> run.value.imported == 0
    case Behind(Some(n), _) => n > 0 && (run.Ok? ==> run.value.imported == n)
    case Behind(None, _) => run == Err(HistoryRewritten)
    case _ => run.Err?
  }

  /** The length of a delta tells the origin it starts after. */
  lemma {:induction false} CountTellsTheOrigin(w: World, tip: Commit, stop: Option<Oid>)
    requires Delta(w, Some(tip), stop).Ok?
    ensures
      var n, h := |Delta(w, Some(tip), stop).value|, History(Some(tip));
      n <= |h| && stop == if n == |h| then None else Some(w.id(h[|h| - 1 - n]))
  {
    DeltaOfEverything(w, Some(tip));
    if stop.Some? {
      var k := DeltaFollows(w, Some(tip), stop.value);
    }
  }

  lemma {:induction false} EqualCountsEqualOrigins(w: World, tip: Commit, a: Option<Oid>, b: Option<Oid>)
    requires Delta(w, Some(tip), a).Ok? && Delta(w, Some(tip), b).Ok?
    requires |Delta(w, Some(tip), a).value| == |Delta(w, Some(tip), b).value|
    ensures a == b
  {
    CountTellsTheOrigin(w, tip, a);
    CountTellsTheOrigin(w, tip, b);
  }

  /** The state by the origin the report has read. */
  lemma {:induction false} ReportCounts(w: World, dest: string, branch: Option<Commit>, tip: Commit)
    ensures
      var last := LastImported(branch, dest);
      match ImportStatus(w, dest, branch, Some(tip))
      case UpToDate => last.Ok? && Delta(w, Some(tip), last.value) == Ok([])
      case Behind(Some(n), _) => last.Ok? && Delta(w, Some(tip), last.value).Ok? && |Delta(w, Some(tip), last.value).value| == n > 0
      case Behind(None, _) => last.Ok? && Delta(w, Some(tip), last.value) == Err(HistoryRewritten)
      case _ => last.Err?
  {
    var last := LastImported(branch, dest);
    if last.Ok? {
      if last.value.Some? {
        DeltaFails(w, Some(tip), last.value.value);
      } else {
        DeltaOfEverything(w, Some(tip));
      }
    }
  }

  lemma {:induction false} MirrorCounts(w: World, dest: string, base: Option<Commit>, tip: Commit, transforms: seq<Transform>)
    requires IsRelPath(dest)
    ensures
      var last, run := LastImported(base, dest), Mirrored(w, dest, tip, base, transforms);
      && (last.Err? ==> run.Err?)
      && (last.Ok? && Delta(w, Some(tip), last.value).Err? ==> run == Err(Delta(w, Some(tip), last.value).error))
      && (run.Ok? ==> last.Ok? && Delta(w, Some(tip), last.value).Ok? && run.value.imported == |Delta(w, Some(tip), last.value).value|)
  {
  }

  /** What the report says of a branch, against the import of the branch. */
  predicate ImportPredicted(w: World, dest: string, branch: Option<Commit>, tip: Commit, transforms: seq<Transform>)
    requires IsRelPath(dest)
  {
    Predicts(ImportStatus(w, dest, branch, Some(tip)), Mirrored(w, dest, tip, StripTip(branch, dest), transforms))
  }

  lemma {:induction false} PredictedWhenNothingIsHidden(w: World, dest: string, branch: Option<Commit>, tip: Commit, transforms: seq<Transform>)
    requires IsRelPath(dest)
    ensures StrippingHidesNoOrigin(branch, dest) ==> ImportPredicted(w, dest, branch, tip, transforms)
  {
    ReportCounts(w, dest, branch, tip);
    MirrorCounts(w, dest, StripTip(branch, dest), tip, transforms);
  }

  lemma {:induction false} PredictedCounts(w: World, dest: string, branch: Option<Commit>, tip: Commit, run: Result<MirrorOutcome>)
    requires run.Ok? && Predicts(ImportStatus(w, dest, branch, Some(tip)), run)
    ensures
      var last := LastImported(branch, dest);
      last.Ok? && Delta(w, Some(tip), last.value).Ok? && |Delta(w, Some(tip), last.value).value| == run.value.imported
  {
    ReportCounts(w, dest, branch, tip);
  }

  lemma {:induction false} NothingIsHiddenWhenPredicted(w: World, dest: string, branch: Option<Commit>, tip: Commit, transforms: seq<Transform>)
    requires IsRelPath(dest) && Mirrored(w, dest, tip, StripTip(branch, dest), transforms).Ok?
    ensures ImportPredicted(w, dest, branch, tip, transforms) ==> StrippingHidesNoOrigin(branch, dest)
  {
    var run := Mirrored(w, dest, tip, StripTip(branch, dest), transforms);
    if Predicts(ImportStatus(w, dest, branch, Some(tip)), run) {
      PredictedCounts(w, dest, branch, tip, run);
      MirrorCounts(w, dest, StripTip(branch, dest), tip, transforms);
      EqualCountsEqualOrigins(w, tip, LastImported(branch, dest).value, LastImported(StripTip(branch, dest), dest).value);
    }
  }

  /** For one fixed tip the report predicts the import: up to date means nothing
      is mirrored, a count is the number of commits mirrored, and a missing
      count means the import refuses the rewritten history.  It does so when,
      and of imports that succeed only when, stripping hides no origin. */
  lemma {:induction false} ImportStatusPredicts(w: World, dest: string, branch: Option<Commit>, tip: Commit, transforms: seq<Transform>)
    requires IsRelPath(dest)
    ensures StrippingHidesNoOrigin(branch, dest) ==> ImportPredicted(w, dest, branch, tip, transforms)
    ensures Mirrored(w, dest, tip, StripTip(branch, dest), transforms).Ok? ==>
              (ImportPredicted(w, dest, branch, tip, transforms) <==> StrippingHidesNoOrigin(branch, dest))
  {
    PredictedWhenNothingIsHidden(w, dest, branch, tip, transforms);
    if Mirrored(w, dest, tip, StripTip(branch, dest), transforms).Ok? {
      NothingIsHiddenWhenPredicted(w, dest, branch, tip, transforms);
    }
  }

  /** Where that condition fails, so does the prediction: a mirror commit with a
      forged tip-layer trailer is reported up to date, yet the import peels it
      and mirrors it once more. */
  lemma {:induction false} ForgedCommitIsMirroredAgain(w: World, dest: string, base: Option<Commit>, origin: Commit, transforms: seq<Transform>)
    requires Recordable(dest) && ReplayCommit(w, dest, origin, base, transforms).Ok?
    requires StripTip(base, dest) == base && LastImported(base, dest) == Ok(LastIdOf(w, Parent(origin)))
    requires DistinctIds(w, History(Some(origin)))
    ensures
      var branch := Some(ReplayCommit(w, dest, origin, base, transforms).value);
      && ImportStatus(w, dest, branch, Some(origin)) == UpToDate
      && (HasForgedTip(branch, dest) ==>
            Mirrored(w, dest, origin, StripTip(branch, dest), transforms) == Ok(MirrorOutcome(1, branch)))
  {
    var c := ReplayCommit(w, dest, origin, base, transforms).value;
    MirrorCommitRecords(w, dest, origin, base, transforms);
    DeltaOfNewest(w, origin);
    ReplayOfOne(w, dest, origin, base, transforms);
  }

  predicate HasForgedTip(branch: Option<Commit>, dest: string) {
    branch.Some? && IsTip(branch.value.message, dest)
  }

  // --- vendors ---

  /** A vendor report is right about a pin exactly when it is not the case that
      the pinned commit is in place under another spelling of its id (upper-case
      digits): the report compares texts, the vendoring compares ids. */
  lemma {:induction false} VendorStatusPredicts(w: World, dest: string, slug: string, branch: Option<Commit>, pinned: Commit, pin: string)
    requires IsRelPath(dest) && |pin| == 40 && OidFromText(pin) == Some(w.id(pinned))
    requires LastVendored(branch, dest).Ok?
    ensures
      (VendorStatus(dest, branch, pin).PinChanged? <==> VendorSnapshot(w, dest, slug, pinned, branch).value.imported == 1)
      <==> !(LastVendored(branch, dest).value == Some(w.id(pinned)) && pin != w.id(pinned))
    ensures (forall k :: 0 <= k < |pin| ==> IsLowerHex(pin[k])) ==> pin == w.id(pinned)
  {
    if forall k :: 0 <= k < |pin| ==> IsLowerHex(pin[k]) {
      var oid: Oid := pin;
      OidRoundTrip(oid);
    }
  }

  /** A vendor target is reported as new exactly when no commit of the branch
      carries a pin for it. */
  lemma {:induction false} NewExactlyWhenNothingVendored(dest: string, branch: Option<Commit>, pin: string)
    ensures
      var s := VendorStatus(dest, branch, pin);
      s.PinChanged? ==> (s.isNew <==> forall c <- History(branch) :: !(ScopedTo(c.message, dest) && VendorPin(c.message).Some?))
  {
    NoPinNothingVendored(dest, branch);
  }

  lemma {:induction false} NoPinNothingVendored(dest: string, branch: Option<Commit>)
    ensures LastVendored(branch, dest) == Ok(None) <==> forall c <- History(branch) :: !(ScopedTo(c.message, dest) && VendorPin(c.message).Some?)
    decreases Depth(branch)
  {
    if branch.Some? {
      NoPinNothingVendored(dest, Parent(branch.value));
      assert History(branch) == History(Parent(branch.value)) + [branch.value];
    }
  }

  // --- exports ---

  /** An export report counts exactly what the export ships; a count of zero is
      reported as behind although nothing is shipped. */
  lemma {:induction false} ExportStatusPredicts(w: World, from: string, monoTip: Commit, destTip: Option<Commit>, transforms: seq<Transform>)
    requires LastExported(destTip).Ok?
    ensures
      var run := Exported(w, from, monoTip, destTip, transforms);
      match ExportStatus(w, from, Some(monoTip), destTip, transforms)
      case UpToDate => run == Ok(ExportOutcome(0, destTip))
      case Behind(Some(n), _) => run.Ok? && run.value.exported == n && (n == 0 <==> run.value.head == destTip)
      case Behind(None, _) => run.Err?
      case _ => false
  {
    var last := LastExported(destTip).value;
    var delta := Delta(w, Some(monoTip), last);
    if last == Some(w.id(monoTip)) {
      assert delta == Ok([]);
    } else if delta.Ok? && ExportAll(w, from, transforms, delta.value, StartAt(destTip)).Ok? {
      var appended := RunAppendsTheChanges(w, from, transforms, delta.value, StartAt(destTip));
      assert |appended| == 0 ==> History(destTip) + appended == History(destTip);
      SameHistorySameTip(Exported(w, from, monoTip, destTip, transforms).value.head, destTip);
    }
  }

  /** An actionable export changes the destination exactly when its count is
      not zero. */
  lemma {:induction false} ActionableExportChangesWhenItShips(w: World, from: string, monoTip: Commit, destTip: Option<Commit>, transforms: seq<Transform>)
    requires LastExported(destTip).Ok? && Exported(w, from, monoTip, destTip, transforms).Ok?
    ensures
      var s := ExportStatus(w, from, Some(monoTip), destTip, transforms);
      Exported(w, from, monoTip, destTip, transforms).value.head != destTip <==> IsActionable(s) && s.count != Some(0)
  {
    ExportStatusPredicts(w, from, monoTip, destTip, transforms);
  }

  /** An export is reported as new exactly when no commit of the destination
      carries an export trailer. */
  lemma {:induction false} NewExactlyWhenNothingShipped(w: World, from: string, monoTip: Commit, destTip: Option<Commit>, transforms: seq<Transform>)
    ensures
      var s := ExportStatus(w, from, Some(monoTip), destTip, transforms);
      s.Behind? ==> (s.isNew <==> forall c <- History(destTip) :: TrailerValue(c.message, "CapyFun-Export").None?)
  {
    NoTrailerNothingExported(destTip);
  }

  lemma {:induction false} NoTrailerNothingExported(destTip: Option<Commit>)
    ensures LastExported(destTip) == Ok(None) <==> forall c <- History(destTip) :: TrailerValue(c.message, "CapyFun-Export").None?
    decreases Depth(destTip)
  {
    if destTip.Some? {
      NoTrailerNothingExported(Parent(destTip.value));
      assert History(destTip) == History(Parent(destTip.value)) + [destTip.value];
    }
  }

  lemma {:induction false} NothingShips(w: World, from: string, transforms: seq<Transform>, monos: seq<Commit>, p: Progress)
    requires forall k :: 0 <= k < |monos| ==> SubtreeAt(monos[k].tree, Segments(from)).None?
    ensures ExportAll(w, from, transforms, monos, p) == Ok(p)
    decreases |monos|
  {
    if monos != [] {
      NothingShips(w, from, transforms, monos[..|monos| - 1], p);
    }
  }

  /** Commits without the exported path ship nothing, whatever the destination and
      the transforms; yet the target is reported as actionable. */
  lemma {:induction false} NothingToShipIsStillActionable(w: World, from: string, monoTip: Commit, destTip: Option<Commit>, transforms: seq<Transform>, delta: seq<Commit>)
    requires LastExported(destTip).Ok? && LastExported(destTip).value != Some(w.id(monoTip))
    requires Delta(w, Some(monoTip), LastExported(destTip).value) == Ok(delta)
    requires forall k :: 0 <= k < |delta| ==> SubtreeAt(delta[k].tree, Segments(from)).None?
    ensures IsActionable(ExportStatus(w, from, Some(monoTip), destTip, transforms))
    ensures Exported(w, from, monoTip, destTip, transforms) == Ok(ExportOutcome(0, destTip))
  {
    NothingShips(w, from, transforms, delta, StartAt(destTip));
  }

  lemma {:induction false} SameHistorySameTip(a: Option<Commit>, b: Option<Commit>)
    ensures History(a) == History(b) <==> a == b
  {
  }
}
