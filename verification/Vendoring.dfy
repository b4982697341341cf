/** Vendoring: one pinned upstream tree placed as a single commit. */
module Vendoring {
  import opened Wrappers
  import opened Text
  import opened Trailers
  import opened Paths
  import opened Markers
  import opened Worlds
  import opened Histories
  import opened Mirror
  import opened MirrorTrees
  import opened TipLayers

  /** The part after the last `@`. */
  function AfterLastAt(s: string): Option<string>
    decreases |s|
  {
    if '@' !in s then None
    else if '@' in s[IndexOf(s, '@') + 1..] then AfterLastAt(s[IndexOf(s, '@') + 1..])
    else Some(s[IndexOf(s, '@') + 1..])
  }

  lemma {:induction false} AfterLastAtStep(first: string, rest: string)
    requires '@' !in first
    ensures AfterLastAt(first + "@" + rest) == if '@' in rest then AfterLastAt(rest) else Some(rest)
  {
    var s := first + "@" + rest;
    assert s == first + ("@" + rest);
    assert s[|first|] == '@';
    IndexOfConcat(first, "@" + rest, '@');
    assert s[|first| + 1..] == rest;
  }

  lemma {:induction false} AfterLastAtOfPin(slug: string, sha: string)
    requires '@' !in sha
    ensures AfterLastAt(slug + "@" + sha) == Some(sha)
    decreases |slug|
  {
    if '@' in slug {
      var first, rest := FirstPiece(slug, '@');
      AfterLastAtOfPin(rest, sha);
      assert (rest + "@" + sha)[|rest|] == '@';
      Regroup(first, "@", rest, sha);
      AfterLastAtStep(first, rest + "@" + sha);
    } else {
      AfterLastAtStep(slug, sha);
    }
  }

  function VendorPin(message: string): Option<string> {
    var pin := TrailerValue(message, VENDOR_TRAILER);
    if pin.Some? then AfterLastAt(pin.value) else None
  }

  /** The commit `dest` is vendored at, from the newest scoped vendor trailer. */
  function LastVendored(base: Option<Commit>, dest: string): Result<Option<Oid>>
    decreases Depth(base)
  {
    if base.None? then Ok(None)
    else if ScopedTo(base.value.message, dest) && VendorPin(base.value.message).Some? then
      var oid :- ParseOid(VendorPin(base.value.message).value);
      Ok(Some(oid))
    else LastVendored(Parent(base.value), dest)
  }

  /** The scan as a loop down the first parents. */
  method FindLastVendored(base: Option<Commit>, dest: string) returns (r: Result<Option<Oid>>)
    ensures r == LastVendored(base, dest)
  {
    var cur := base;
    while cur.Some?
      invariant LastVendored(base, dest) == LastVendored(cur, dest)
      decreases Depth(cur)
    {
      var message := cur.value.message;
      if TrailerValue(message, IMPORT_TRAILER) == Some(dest) {
        var v := TrailerValue(message, VENDOR_TRAILER);
        if v.Some? {
          var sha := AfterLastAt(v.value);
          if sha.Some? {
            var oid := OidFromText(sha.value);
            return if oid.Some? then Ok(oid) else Err(MalformedTrailer);
          }
        }
      }
      cur := Parent(cur.value);
    }
    return Ok(None);
  }

  function VendorCommit(w: World, dest: string, slug: string, pinned: Commit, branch: Option<Commit>): Commit
    requires IsRelPath(dest)
  {
    Commit(Placed(TreeOf(branch), dest, Rename(pinned.tree)), ParentList(branch), CAPYFUN, CAPYFUN,
           VendorMessage(slug, w.id(pinned), dest))
  }

  function VendorSnapshot(w: World, dest: string, slug: string, pinned: Commit, branch: Option<Commit>): Result<MirrorOutcome>
    requires IsRelPath(dest)
  {
    var last :- LastVendored(branch, dest);
    if last == Some(w.id(pinned)) then Ok(MirrorOutcome(0, branch))
    else Ok(MirrorOutcome(1, Some(VendorCommit(w, dest, slug, pinned, branch))))
  }

  lemma {:induction false} PinIsFound(c: Commit, dest: string, oid: Oid)
    requires ScopedTo(c.message, dest) && VendorPin(c.message) == Some(oid)
    ensures LastVendored(Some(c), dest) == Ok(Some(oid))
  {
    OidRoundTrip(oid);
  }

  lemma {:induction false} VendorMessageRecords(slug: string, oid: Oid, dest: string)
    requires Recordable(dest) && IsScanSafe(slug)
    ensures ScopedTo(VendorMessage(slug, oid, dest), dest)
    ensures OriginTrailer(VendorMessage(slug, oid, dest)) == None
    ensures VendorPin(VendorMessage(slug, oid, dest)) == Some(oid)
  {
    VendorTrailersSurvive(slug, oid, dest);
    assert forall k :: 0 <= k < |oid| ==> IsLowerHex(oid[k]);
    AfterLastAtOfPin(slug, oid);
    OidRoundTrip(oid);
  }

  lemma {:induction false} VendorCommitRecords(w: World, dest: string, slug: string, pinned: Commit, branch: Option<Commit>)
    requires Recordable(dest) && IsScanSafe(slug)
    ensures
      var c := VendorCommit(w, dest, slug, pinned, branch);
      && ScopedTo(c.message, dest)
      && OriginTrailer(c.message) == None
      && VendorPin(c.message) == Some(w.id(pinned))
      && Parent(c) == branch
      && LastVendored(Some(c), dest) == Ok(Some(w.id(pinned)))
  {
    VendorMessageRecords(slug, w.id(pinned), dest);
    PinIsFound(VendorCommit(w, dest, slug, pinned, branch), dest, w.id(pinned));
  }

  /** Vendoring the same pin again changes nothing. */
  lemma {:induction false} VendoringIsIdempotent(w: World, dest: string, slug: string, pinned: Commit, branch: Option<Commit>)
    requires Recordable(dest) && IsScanSafe(slug)
    requires VendorSnapshot(w, dest, slug, pinned, branch).Ok?
    ensures
      var head := VendorSnapshot(w, dest, slug, pinned, branch).value.head;
      VendorSnapshot(w, dest, slug, pinned, head) == Ok(MirrorOutcome(0, head))
  {
    VendorCommitRecords(w, dest, slug, pinned, branch);
  }

  /** Without transforms, mirroring a history gives the tree that vendoring its
      tip gives, exactly when the reserved names of the upstream trees agree with
      what is already there. */
  lemma {:induction false} MirroringEqualsVendoring(w: World, dest: string, slug: string, origins: seq<Commit>, base: Option<Commit>)
    requires IsRelPath(dest) && origins != []
    requires ReplayAll(w, dest, origins, base, []).Ok?
    ensures forall c <- origins :: Reshaped(w, c.tree, []).Ok?
    ensures
      var trees := ReshapedTrees(w, origins, []);
      var existing := Existing(TreeOf(base), dest);
      TreeOf(ReplayAll(w, dest, origins, base, []).value) == VendorCommit(w, dest, slug, origins[|origins| - 1], base).tree
      <==> SightingsAgree(existing, trees, SRC_FILE) && SightingsAgree(existing, trees, PATCHES_DIR)
  {
    RunEqualsLastStep(w, dest, origins, base, []);
    assert Reshaped(w, origins[|origins| - 1].tree, []) == Ok(Rename(origins[|origins| - 1].tree));
  }
}
