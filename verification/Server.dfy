/** The event side of the automation server: which targets an event wakes, and
    which webhook deliveries count as new. */
module Server {
  import opened Wrappers

  // --- the reverse index ---

  datatype Event = Event(kind: string, repo: string, gitRef: Option<string>, sha: Option<string>)

  datatype SubKind = ImportSub | VendorSub

  datatype Subscription = Subscription(name: string, kind: SubKind, gitRef: Option<string>)

  datatype IrImport = IrImport(name: string, repo: string, gitRef: string)
  datatype IrVendor = IrVendor(name: string, repo: string)
  datatype Ir = Ir(imports: seq<IrImport>, vendors: seq<IrVendor>)

  datatype Trigger = Trigger(name: string, repo: string, event: string, gitRef: Option<string>, sha: Option<string>)

  type Index = map<string, seq<Subscription>>

  function Subscribed(index: Index, repo: string): seq<Subscription> {
    if repo in index then index[repo] else []
  }

  function ImportSubs(imports: seq<IrImport>, repo: string): seq<Subscription> {
    if imports == [] then [] else
      var last := imports[|imports| - 1];
      ImportSubs(imports[..|imports| - 1], repo)
      + if last.repo == repo then [Subscription(last.name, ImportSub, Some(last.gitRef))] else []
  }

  function VendorSubs(vendors: seq<IrVendor>, repo: string): seq<Subscription> {
    if vendors == [] then [] else
      var last := vendors[|vendors| - 1];
      VendorSubs(vendors[..|vendors| - 1], repo)
      + if last.repo == repo then [Subscription(last.name, VendorSub, None)] else []
  }

  function WithSub(index: Index, repo: string, s: Subscription): Index {
    index[repo := Subscribed(index, repo) + [s]]
  }

  /** `index` lists, per repository, the subscriptions of `subs`. */
  ghost predicate Lists(index: Index, subs: string -> seq<Subscription>) {
    && (forall repo :: Subscribed(index, repo) == subs(repo))
    && (forall repo <- index :: index[repo] != [])
  }

  lemma {:induction false} ListsOneMore(index: Index, repo: string, s: Subscription, before: string -> seq<Subscription>, after: string -> seq<Subscription>)
    requires Lists(index, before)
    requires forall r :: after(r) == before(r) + if r == repo then [s] else []
    ensures Lists(WithSub(index, repo, s), after)
  {
    forall r ensures Subscribed(WithSub(index, repo, s), r) == after(r) {
      assert Subscribed(index, r) == before(r);
    }
  }

  function SubsUpTo(ir: Ir, i: nat, j: nat): string -> seq<Subscription>
    requires i <= |ir.imports| && j <= |ir.vendors|
  {
    repo => ImportSubs(ir.imports[..i], repo) + VendorSubs(ir.vendors[..j], repo)
  }

  /** The index built by two loops: per repository, its imports in order and
      then its vendors in order; repositories without either are absent. */
  method IndexFromIr(ir: Ir) returns (index: Index)
    ensures Lists(index, SubsUpTo(ir, |ir.imports|, |ir.vendors|))
  {
    index := map[];
    for i := 0 to |ir.imports|
      invariant Lists(index, SubsUpTo(ir, i, 0))
    {
      var it := ir.imports[i];
      assert ir.imports[..i + 1][..i] == ir.imports[..i];
      ListsOneMore(index, it.repo, Subscription(it.name, ImportSub, Some(it.gitRef)), SubsUpTo(ir, i, 0), SubsUpTo(ir, i + 1, 0));
      index := WithSub(index, it.repo, Subscription(it.name, ImportSub, Some(it.gitRef)));
    }
    for j := 0 to |ir.vendors|
      invariant Lists(index, SubsUpTo(ir, |ir.imports|, j))
    {
      var it := ir.vendors[j];
      VendorSubsGrow(ir, j);
      ListsOneMore(index, it.repo, Subscription(it.name, VendorSub, None), SubsUpTo(ir, |ir.imports|, j), SubsUpTo(ir, |ir.imports|, j + 1));
      index := WithSub(index, it.repo, Subscription(it.name, VendorSub, None));
    }
  }

  lemma {:induction false} VendorSubsGrow(ir: Ir, j: nat)
    requires j < |ir.vendors|
    ensures forall repo ::
      SubsUpTo(ir, |ir.imports|, j + 1)(repo)
      == SubsUpTo(ir, |ir.imports|, j)(repo) + if repo == ir.vendors[j].repo then [Subscription(ir.vendors[j].name, VendorSub, None)] else []
  {
    assert ir.vendors[..j + 1][..j] == ir.vendors[..j];
  }

  predicate Wakes(s: Subscription, ev: Event) {
    match s.kind
    case ImportSub => ev.kind == "PushEvent" && ev.gitRef == s.gitRef
    case VendorSub => ev.kind == "CreateEvent" || ev.kind == "ReleaseEvent"
  }

  function TriggersOf(subs: seq<Subscription>, ev: Event): seq<Trigger> {
    if subs == [] then [] else
      (if Wakes(subs[0], ev) then [Trigger(subs[0].name, ev.repo, ev.kind, ev.gitRef, ev.sha)] else [])
      + TriggersOf(subs[1..], ev)
  }

  function MatchEvent(index: Index, ev: Event): seq<Trigger> {
    TriggersOf(Subscribed(index, ev.repo), ev)
  }

  predicate WokenBy(ir: Ir, name: string, ev: Event) {
    || (ev.kind == "PushEvent" && exists i <- ir.imports :: i.name == name && i.repo == ev.repo && ev.gitRef == Some(i.gitRef))
    || ((ev.kind == "CreateEvent" || ev.kind == "ReleaseEvent") && exists v <- ir.vendors :: v.name == name && v.repo == ev.repo)
  }

  lemma {:induction false} TriggeredExactly(subs: seq<Subscription>, ev: Event, name: string)
    ensures (exists t <- TriggersOf(subs, ev) :: t.name == name) <==> (exists s <- subs :: s.name == name && Wakes(s, ev))
  {
    if subs != [] {
      TriggeredExactly(subs[1..], ev, name);
      assert subs == [subs[0]] + subs[1..];
    }
  }

  lemma {:induction false} TriggersCarryTheEvent(subs: seq<Subscription>, ev: Event)
    ensures forall t <- TriggersOf(subs, ev) :: t.repo == ev.repo && t.event == ev.kind && t.gitRef == ev.gitRef && t.sha == ev.sha
  {
    if subs != [] {
      TriggersCarryTheEvent(subs[1..], ev);
    }
  }

  lemma {:induction false} ImportSubsAre(imports: seq<IrImport>, repo: string, s: Subscription)
    ensures s in ImportSubs(imports, repo) <==>
            exists i <- imports :: i.repo == repo && s == Subscription(i.name, ImportSub, Some(i.gitRef))
  {
    if imports != [] {
      var n := |imports| - 1;
      ImportSubsAre(imports[..n], repo, s);
      assert imports == imports[..n] + [imports[n]];
    }
  }

  lemma {:induction false} VendorSubsAre(vendors: seq<IrVendor>, repo: string, s: Subscription)
    ensures s in VendorSubs(vendors, repo) <==>
            exists v <- vendors :: v.repo == repo && s == Subscription(v.name, VendorSub, None)
  {
    if vendors != [] {
      var n := |vendors| - 1;
      VendorSubsAre(vendors[..n], repo, s);
      assert vendors == vendors[..n] + [vendors[n]];
    }
  }

  /** An event triggers exactly the targets it concerns: imports on a push of
      their ref, vendors on a new tag or release of their repository. */
  lemma {:induction false} EventsReachTheirTargets(ir: Ir, index: Index, ev: Event, name: string)
    requires Lists(index, SubsUpTo(ir, |ir.imports|, |ir.vendors|))
    ensures (exists t <- MatchEvent(index, ev) :: t.name == name) <==> WokenBy(ir, name, ev)
    ensures forall t <- MatchEvent(index, ev) :: t.repo == ev.repo && t.event == ev.kind && t.gitRef == ev.gitRef && t.sha == ev.sha
  {
    var subs := Subscribed(index, ev.repo);
    assert ir.imports[..|ir.imports|] == ir.imports && ir.vendors[..|ir.vendors|] == ir.vendors;
    assert subs == SubsUpTo(ir, |ir.imports|, |ir.vendors|)(ev.repo);
    TriggeredExactly(subs, ev, name);
    TriggersCarryTheEvent(subs, ev);
    forall s: Subscription ensures s in ImportSubs(ir.imports, ev.repo) <==>
      exists i <- ir.imports :: i.repo == ev.repo && s == Subscription(i.name, ImportSub, Some(i.gitRef)) {
      ImportSubsAre(ir.imports, ev.repo, s);
    }
    forall s: Subscription ensures s in VendorSubs(ir.vendors, ev.repo) <==>
      exists v <- ir.vendors :: v.repo == ev.repo && s == Subscription(v.name, VendorSub, None) {
      VendorSubsAre(ir.vendors, ev.repo, s);
    }
    if WokenBy(ir, name, ev) {
      if ev.kind == "PushEvent" && exists i <- ir.imports :: i.name == name && i.repo == ev.repo && ev.gitRef == Some(i.gitRef) {
        var i :| i in ir.imports && i.name == name && i.repo == ev.repo && ev.gitRef == Some(i.gitRef);
        assert Subscription(i.name, ImportSub, Some(i.gitRef)) in subs;
      } else {
        var v :| v in ir.vendors && v.name == name && v.repo == ev.repo;
        assert Subscription(v.name, VendorSub, None) in subs;
      }
    }
  }

  /** The targets an event concerns, each as often and in the order it is declared. */
  function WokenTargets(ir: Ir, ev: Event): seq<string> {
    if ev.kind == "PushEvent" then WokenImports(ir.imports, ev)
    else if ev.kind == "CreateEvent" || ev.kind == "ReleaseEvent" then WokenVendors(ir.vendors, ev)
    else []
  }

  function WokenImports(imports: seq<IrImport>, ev: Event): seq<string> {
    if imports == [] then [] else
      var last := imports[|imports| - 1];
      WokenImports(imports[..|imports| - 1], ev) + if last.repo == ev.repo && ev.gitRef == Some(last.gitRef) then [last.name] else []
  }

  function WokenVendors(vendors: seq<IrVendor>, ev: Event): seq<string> {
    if vendors == [] then [] else
      var last := vendors[|vendors| - 1];
      WokenVendors(vendors[..|vendors| - 1], ev) + if last.repo == ev.repo then [last.name] else []
  }

  function TargetNames(triggers: seq<Trigger>): seq<string> {
    if triggers == [] then [] else [triggers[0].name] + TargetNames(triggers[1..])
  }

  lemma {:induction false} TriggersConcat(a: seq<Subscription>, b: seq<Subscription>, ev: Event)
    ensures TargetNames(TriggersOf(a + b, ev)) == TargetNames(TriggersOf(a, ev)) + TargetNames(TriggersOf(b, ev))
  {
    if a == [] {
      assert a + b == b;
    } else {
      assert (a + b)[1..] == a[1..] + b && (a + b)[0] == a[0];
      TriggersConcat(a[1..], b, ev);
      if Wakes(a[0], ev) {
        NamesInFront(a, ev);
        NamesInFront(a + b, ev);
      } else {
        assert TriggersOf(a, ev) == TriggersOf(a[1..], ev);
        assert TriggersOf(a + b, ev) == TriggersOf(a[1..] + b, ev);
      }
    }
  }

  lemma {:induction false} NamesInFront(subs: seq<Subscription>, ev: Event)
    requires subs != [] && Wakes(subs[0], ev)
    ensures TargetNames(TriggersOf(subs, ev)) == [subs[0].name] + TargetNames(TriggersOf(subs[1..], ev))
  {
    assert TriggersOf(subs, ev)[1..] == TriggersOf(subs[1..], ev);
  }

  lemma {:induction false} OneSubscription(s: Subscription, ev: Event)
    ensures TargetNames(TriggersOf([s], ev)) == if Wakes(s, ev) then [s.name] else []
  {
    assert [s][1..] == [] && TriggersOf([s][1..], ev) == [];
    if Wakes(s, ev) {
      NamesInFront([s], ev);
      assert TargetNames([]) == [];
    }
  }

  lemma {:induction false} ImportTriggers(imports: seq<IrImport>, ev: Event)
    ensures TargetNames(TriggersOf(ImportSubs(imports, ev.repo), ev)) == if ev.kind == "PushEvent" then WokenImports(imports, ev) else []
  {
    if imports != [] {
      var n := |imports| - 1;
      var s := Subscription(imports[n].name, ImportSub, Some(imports[n].gitRef));
      ImportTriggers(imports[..n], ev);
      OneSubscription(s, ev);
      var older := ImportSubs(imports[..n], ev.repo);
      if imports[n].repo == ev.repo {
        TriggersConcat(older, [s], ev);
        assert ImportSubs(imports, ev.repo) == older + [s];
      } else {
        assert ImportSubs(imports, ev.repo) == older;
      }
    }
  }

  lemma {:induction false} VendorTriggers(vendors: seq<IrVendor>, ev: Event)
    ensures TargetNames(TriggersOf(VendorSubs(vendors, ev.repo), ev)) ==
            if ev.kind == "CreateEvent" || ev.kind == "ReleaseEvent" then WokenVendors(vendors, ev) else []
  {
    if vendors != [] {
      var n := |vendors| - 1;
      var s := Subscription(vendors[n].name, VendorSub, None);
      VendorTriggers(vendors[..n], ev);
      OneSubscription(s, ev);
      var older := VendorSubs(vendors[..n], ev.repo);
      TriggersConcat(older, [s], ev);
      assert older + [] == older;
    }
  }

  /** Each target is triggered as often as it is declared, in that order. */
  lemma {:induction false} EventsTriggerInOrder(ir: Ir, index: Index, ev: Event)
    requires Lists(index, SubsUpTo(ir, |ir.imports|, |ir.vendors|))
    ensures TargetNames(MatchEvent(index, ev)) == WokenTargets(ir, ev)
  {
    assert ir.imports[..|ir.imports|] == ir.imports && ir.vendors[..|ir.vendors|] == ir.vendors;
    assert Subscribed(index, ev.repo) == SubsUpTo(ir, |ir.imports|, |ir.vendors|)(ev.repo);
    TriggersConcat(ImportSubs(ir.imports, ev.repo), VendorSubs(ir.vendors, ev.repo), ev);
    ImportTriggers(ir.imports, ev);
    VendorTriggers(ir.vendors, ev);
    assert WokenImports(ir.imports, ev) + [] == WokenImports(ir.imports, ev) && [] + WokenVendors(ir.vendors, ev) == WokenVendors(ir.vendors, ev);
  }

  // --- the delivery window ---

  function Width(cap: nat): nat {
    if cap == 0 then 1 else cap
  }

  /** The last `n` elements, or all of them. */
  function LastN<T>(s: seq<T>, n: nat): (r: seq<T>)
    ensures |r| <= n && |r| <= |s|
    ensures r == s[|s| - |r|..]
  {
    if |s| <= n then s else s[|s| - n..]
  }

  predicate NoRepeats<T(==)>(s: seq<T>) {
    forall i, j :: 0 <= i < j < |s| ==> s[i] != s[j]
  }

  lemma {:induction false} LastNGrows<T>(s: seq<T>, x: T, n: nat)
    requires n > 0
    ensures LastN(s + [x], n) == (if |LastN(s, n)| == n then LastN(s, n)[1..] else LastN(s, n)) + [x]
  {
    if |s| < n {
      assert LastN(s, n) == s;
    } else {
      assert (s + [x])[|s| + 1 - n..] == s[|s| + 1 - n..] + [x];
      assert s[|s| - n..][1..] == s[|s| + 1 - n..];
    }
  }

  lemma NoRepeatsAfter(kept: seq<string>, key: string)
    requires NoRepeats(kept) && key !in kept
    ensures NoRepeats(kept + [key])
  {
  }

  lemma NoRepeatsTail(order: seq<string>)
    requires NoRepeats(order) && order != []
    ensures NoRepeats(order[1..]) && order[0] !in order[1..]
    ensures forall key :: key in order[1..] ==> key in order
  {
  }

  lemma FirstThenRest(order: seq<string>)
    requires NoRepeats(order) && order != []
    ensures forall key :: key in order[1..] <==> key in order && key != order[0]
  {
    assert order == [order[0]] + order[1..];
    NoRepeatsTail(order);
  }

  /** The window after one more accepted key. */
  lemma {:induction false} WindowSlides(accepted: seq<string>, key: string, cap: nat) returns (kept: seq<string>)
    requires NoRepeats(LastN(accepted, Width(cap))) && key !in LastN(accepted, Width(cap))
    ensures var order := LastN(accepted, Width(cap)); kept == if |order| >= cap && order != [] then order[1..] else order
    ensures LastN(accepted + [key], Width(cap)) == kept + [key]
    ensures NoRepeats(kept + [key])
    ensures kept != LastN(accepted, Width(cap)) ==> LastN(accepted, Width(cap))[0] !in kept
  {
    var order := LastN(accepted, Width(cap));
    LastNGrows(accepted, key, Width(cap));
    kept := order;
    if |order| >= cap && order != [] {
      NoRepeatsTail(order);
      kept := order[1..];
    }
    NoRepeatsAfter(kept, key);
  }

  /** A bounded set of recently seen delivery keys, oldest key evicted first. */
  class Dedup {
    var seen: set<string>
    var order: seq<string>
    const cap: nat
    ghost var accepted: seq<string>  // every key ever accepted

    ghost predicate Valid()
      reads this
    {
      && (forall key :: key in seen <==> key in order)
      && NoRepeats(order)
      && order == LastN(accepted, Width(cap))
    }

    constructor (cap: nat)
      ensures Valid() && this.cap == cap && accepted == []
    {
      seen, order, accepted := {}, [], [];
      this.cap := cap;
    }

    /** Records `key`; the answer is whether it was new: not among the last
        `Width(cap)` accepted keys.  A duplicate does not refresh its age. */
    method InsertNew(key: string) returns (isNew: bool)
      requires Valid()
      modifies this
      ensures Valid()
      ensures isNew <==> key !in LastN(old(accepted), Width(cap))
      ensures accepted == if isNew then old(accepted) + [key] else old(accepted)
      ensures |seen| <= Width(cap)
    {
      SizeOfSet(seen, order);
      if key in seen {
        return false;
      }
      ghost var kept := WindowSlides(accepted, key, cap);
      if |order| >= cap {
        if order != [] {
          FirstThenRest(order);
          var first := order[0];
          order := order[1..];
          seen := seen - {first};
        }
      }
      assert order == kept && forall k :: k in seen <==> k in order;
      order := order + [key];
      seen := seen + {key};
      accepted := accepted + [key];
      isNew := true;
      SizeOfSet(seen, order);
    }
  }

  lemma {:induction false} SizeOfSet(s: set<string>, order: seq<string>)
    requires forall key :: key in s <==> key in order
    ensures |s| <= |order|
    decreases |order|
  {
    if order != [] {
      var rest := order[1..];
      assert order == [order[0]] + rest;
      var t := set key | key in rest;
      SizeOfSet(t, rest);
      assert s == t + {order[0]};
    }
  }

  /** The keys accepted out of a whole sequence of deliveries. */
  function AcceptedOf(cap: nat, keys: seq<string>): seq<string> {
    if keys == [] then [] else
      var older := AcceptedOf(cap, keys[..|keys| - 1]);
      var key := keys[|keys| - 1];
      if key in LastN(older, Width(cap)) then older else older + [key]
  }

  /** Within a window no key is processed twice. */
  lemma {:induction false} NoRepeatWithinTheWindow(cap: nat, keys: seq<string>, i: nat, j: nat)
    requires i < j < |AcceptedOf(cap, keys)| && j - i <= Width(cap)
    ensures AcceptedOf(cap, keys)[i] != AcceptedOf(cap, keys)[j]
    decreases |keys|
  {
    var older := AcceptedOf(cap, keys[..|keys| - 1]);
    if j < |older| {
      NoRepeatWithinTheWindow(cap, keys[..|keys| - 1], i, j);
    } else {
      var window := LastN(older, Width(cap));
      assert window[i - (|older| - |window|)] == older[i];
    }
  }

  /** Every delivered key is processed at least once. */
  lemma {:induction false} EveryKeyIsAccepted(cap: nat, keys: seq<string>, key: string)
    requires key in keys
    ensures key in AcceptedOf(cap, keys)
    decreases |keys|
  {
    var n := |keys| - 1;
    assert keys == keys[..n] + [keys[n]];
    if key in keys[..n] {
      EveryKeyIsAccepted(cap, keys[..n], key);
    }
  }
}
