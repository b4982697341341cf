/** First-parent histories and the scans over them that recover the engine's
    state from commit messages. */
module Histories {
  import opened Wrappers
  import opened Trailers
  import opened Worlds

  function Parent(c: Commit): (p: Option<Commit>)
    ensures Depth(p) < Depth(Some(c))
  {
    if c.parents == [] then None else Some(c.parents[0])
  }

  function CommitDepth(c: Commit): nat {
    if c.parents == [] then 1 else 1 + CommitDepth(c.parents[0])
  }

  /** The length of the first-parent chain. */
  function Depth(cur: Option<Commit>): nat {
    if cur.None? then 0 else CommitDepth(cur.value)
  }

  /** The first-parent chain, oldest commit first. */
  function History(cur: Option<Commit>): (h: seq<Commit>)
    ensures |h| == Depth(cur)
    ensures cur.Some? ==> h[|h| - 1] == cur.value
    decreases Depth(cur)
  {
    if cur.None? then [] else History(Parent(cur.value)) + [cur.value]
  }

  /** A history follows first parents, from a root to the commit itself. */
  lemma {:induction false} HistoriesFollowFirstParents(tip: Commit)
    ensures
      var h := History(Some(tip));
      && h != [] && h[0].parents == [] && h[|h| - 1] == tip
      && forall k :: 0 < k < |h| ==> h[k].parents != [] && h[k].parents[0] == h[k - 1]
    decreases Depth(Some(tip))
  {
    var older := Parent(tip);
    if older.Some? {
      HistoriesFollowFirstParents(older.value);
      assert History(Some(tip)) == History(older) + [tip];
    }
  }

  function Reverse<T>(s: seq<T>): (r: seq<T>)
    ensures |r| == |s|
  {
    if s == [] then [] else Reverse(s[1..]) + [s[0]]
  }

  lemma {:induction false} ReverseAppend<T>(s: seq<T>, x: T)
    ensures Reverse(s + [x]) == [x] + Reverse(s)
  {
    if s == [] {
      assert s + [x] == [x];
    } else {
      assert (s + [x])[1..] == s[1..] + [x];
      ReverseAppend(s[1..], x);
    }
  }

  // --- the last imported origin ---

  predicate ScopedTo(message: string, dest: string) {
    TrailerValue(message, IMPORT_TRAILER) == Some(dest)
  }

  function OriginTrailer(message: string): Option<string> {
    TrailerValue(message, ORIGIN_TRAILER)
  }

  function ParseOid(text: string): Result<Oid> {
    match OidFromText(text)
    case Some(oid) => Ok(oid)
    case None => Err(MalformedTrailer)
  }

  /** The origin of the newest commit that is scoped to `dest` and carries one. */
  function LastImported(base: Option<Commit>, dest: string): Result<Option<Oid>>
    decreases Depth(base)
  {
    if base.None? then Ok(None)
    else if ScopedTo(base.value.message, dest) && OriginTrailer(base.value.message).Some? then
      var oid :- ParseOid(OriginTrailer(base.value.message).value);
      Ok(Some(oid))
    else LastImported(Parent(base.value), dest)
  }

  /** The scan as a loop down the first parents. */
  method LastImportedOrigin(base: Option<Commit>, dest: string) returns (r: Result<Option<Oid>>)
    ensures r == LastImported(base, dest)
  {
    var cur := base;
    while cur.Some?
      invariant LastImported(base, dest) == LastImported(cur, dest)
      decreases Depth(cur)
    {
      var message := cur.value.message;
      if TrailerValue(message, IMPORT_TRAILER) == Some(dest) {
        var sha := OriginTrailer(message);
        if sha.Some? {
          var oid := OidFromText(sha.value);
          return if oid.Some? then Ok(oid) else Err(MalformedTrailer);
        }
      }
      cur := Parent(cur.value);
    }
    return Ok(None);
  }

  // --- the delta past a known commit ---

  /** The commits newer than `stop` on the first-parent chain, oldest first; the
      whole chain when there is no `stop`.  A `stop` off the chain is an error. */
  function Delta(w: World, cur: Option<Commit>, stop: Option<Oid>): Result<seq<Commit>>
    decreases Depth(cur)
  {
    if cur.None? then (if stop.Some? then Err(HistoryRewritten) else Ok([]))
    else if stop == Some(w.id(cur.value)) then Ok([])
    else
      var older :- Delta(w, Parent(cur.value), stop);
      Ok(older + [cur.value])
  }

  function AppendTo(r: Result<seq<Commit>>, newer: seq<Commit>): Result<seq<Commit>> {
    match r
    case Ok(older) => Ok(older + newer)
    case Err(e) => Err(e)
  }

  lemma {:induction false} AppendNothing(r: Result<seq<Commit>>)
    ensures AppendTo(r, []) == r
  {
    if r.Ok? {
      assert r.value + [] == r.value;
    }
  }

  /** The walk as a loop that collects newest first and then reverses. */
  method FirstParentDelta(w: World, tip: Commit, stop: Option<Oid>) returns (r: Result<seq<Commit>>)
    ensures r == Delta(w, Some(tip), stop)
  {
    var chain: seq<Commit> := [];
    var cur := Some(tip);
    assert Reverse(chain) == [];
    AppendNothing(Delta(w, cur, stop));
    while cur.Some?
      invariant Delta(w, Some(tip), stop) == AppendTo(Delta(w, cur, stop), Reverse(chain))
      decreases Depth(cur)
    {
      if Some(w.id(cur.value)) == stop {
        assert [] + Reverse(chain) == Reverse(chain);
        return Ok(Reverse(chain));
      }
      ReverseAppend(chain, cur.value);
      ghost var older := Delta(w, Parent(cur.value), stop);
      assert older.Ok? ==> older.value + [cur.value] + Reverse(chain) == older.value + ([cur.value] + Reverse(chain));
      chain := chain + [cur.value];
      cur := Parent(cur.value);
    }
    assert [] + Reverse(chain) == Reverse(chain);
    if stop.Some? {
      return Err(HistoryRewritten);
    }
    return Ok(Reverse(chain));
  }

  predicate DistinctIds(w: World, commits: seq<Commit>) {
    forall i, j :: 0 <= i < j < |commits| ==> w.id(commits[i]) != w.id(commits[j])
  }

  /** Without a stop, the delta is the whole history. */
  lemma {:induction false} DeltaOfEverything(w: World, cur: Option<Commit>)
    ensures Delta(w, cur, None) == Ok(History(cur))
    decreases Depth(cur)
  {
    if cur.Some? {
      DeltaOfEverything(w, Parent(cur.value));
    }
  }

  /** Stopping at a commit of the history leaves what is newer. */
  lemma {:induction false} DeltaAfter(w: World, cur: Option<Commit>, k: nat)
    requires DistinctIds(w, History(cur)) && k < |History(cur)|
    ensures Delta(w, cur, Some(w.id(History(cur)[k]))) == Ok(History(cur)[k + 1..])
    decreases Depth(cur)
  {
    var h := History(cur);
    var older := History(Parent(cur.value));
    assert h == older + [cur.value];
    if k < |older| {
      assert h[k] == older[k];
      assert w.id(h[k]) != w.id(h[|h| - 1]);
      assert forall i :: 0 <= i < |older| ==> older[i] == h[i];
      DeltaAfter(w, Parent(cur.value), k);
      assert older[k + 1..] + [cur.value] == h[k + 1..];
    } else {
      assert h[k] == cur.value && h[k + 1..] == [];
    }
  }

  ghost predicate OnChain(w: World, cur: Option<Commit>, oid: Oid) {
    exists c :: c in History(cur) && w.id(c) == oid
  }

  /** The delta fails exactly when no commit of the history has the wanted id. */
  lemma {:induction false} DeltaFails(w: World, cur: Option<Commit>, stop: Oid)
    ensures Delta(w, cur, Some(stop)).Ok? <==> OnChain(w, cur, stop)
    ensures Delta(w, cur, Some(stop)).Err? ==> Delta(w, cur, Some(stop)) == Err(HistoryRewritten)
    decreases Depth(cur)
  {
    if cur.Some? {
      var older := Parent(cur.value);
      DeltaFails(w, older, stop);
      assert History(cur) == History(older) + [cur.value];
      assert forall c :: c in History(cur) <==> c in History(older) || c == cur.value;
    }
  }

  /** Otherwise it is what follows such a commit. */
  lemma {:induction false} DeltaFollows(w: World, cur: Option<Commit>, stop: Oid) returns (k: nat)
    requires Delta(w, cur, Some(stop)).Ok?
    ensures k < |History(cur)| && w.id(History(cur)[k]) == stop
    ensures Delta(w, cur, Some(stop)).value == History(cur)[k + 1..]
    decreases Depth(cur)
  {
    var h := History(cur);
    if stop == w.id(cur.value) {
      k := |h| - 1;
    } else {
      var older := History(Parent(cur.value));
      k := DeltaFollows(w, Parent(cur.value), stop);
      assert older[k + 1..] + [cur.value] == h[k + 1..];
    }
  }

  function LastIdOf(w: World, c: Option<Commit>): Option<Oid> {
    if c.Some? then Some(w.id(c.value)) else None
  }

  /** Past its parent there is just the commit. */
  lemma {:induction false} DeltaOfNewest(w: World, origin: Commit)
    requires DistinctIds(w, History(Some(origin)))
    ensures Delta(w, Some(origin), LastIdOf(w, Parent(origin))) == Ok([origin])
  {
    var h, older := History(Some(origin)), History(Parent(origin));
    assert h == older + [origin];
    if Parent(origin).Some? {
      var k := |older| - 1;
      assert h[k] == Parent(origin).value;
      DeltaAfter(w, Some(origin), k);
      assert h[k + 1..] == [origin];
    } else {
      DeltaOfEverything(w, Some(origin));
      assert h == [origin];
    }
  }

  /** Whether `early` lies on the first-parent chain of `late`. */
  ghost predicate Precedes(early: Option<Commit>, late: Option<Commit>) {
    History(early) <= History(late)
  }
}
