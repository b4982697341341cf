/** Lowering of declared rules: destinations are anchored at their package and
    checked against each other; transforms are put in phase order, mirror-phase
    ones first, each phase in the order declared. */
module Lowering {
  import opened Wrappers
  import opened Text
  import opened Trees
  import opened Paths
  import opened Worlds
  import opened Transforms
  import Names

  // --- destinations ---

  /** A rule that writes a directory: the package that declares it, and an
      optional path within. */
  datatype Rule = Rule(package: string, into: Option<string>)

  datatype ConfigError =
    | BadPath(rule: nat, error: PathError)
    | TargetsTheRoot(rule: nat)
    | Overlap(rule: nat, other: nat)

  function PackageDir(package: string): string {
    if StartsWith(package, "//") then package[2..] else package
  }

  function JoinDir(dir: string, sub: Option<string>): string {
    match sub
    case Some(path) => if dir == "" then path else dir + "/" + path
    case None => dir
  }

  function DestinationOf(rule: Rule): string {
    JoinDir(PackageDir(rule.package), rule.into)
  }

  predicate Accepted(rule: Rule) {
    (rule.into.Some? ==> CheckRelPath(rule.into.value).None?) && DestinationOf(rule) != ""
  }

  /** The label of a package directory, which the loader derives from a path. */
  predicate IsPackageLabel(package: string) {
    StartsWith(package, "//") && (package == "//" || IsRelPath(package[2..]))
  }

  predicate AllAccepted(rules: seq<Rule>) {
    forall i :: 0 <= i < |rules| ==> Accepted(rules[i])
  }

  predicate AllApart(dests: seq<string>) {
    forall i, j :: 0 <= i < j < |dests| ==> !PathsOverlap(dests[i], dests[j])
  }

  predicate AreDestinations(dests: seq<string>, rules: seq<Rule>) {
    |dests| == |rules| && forall i :: 0 <= i < |rules| ==> dests[i] == DestinationOf(rules[i])
  }

  /** What is wrong with one rule. */
  function RuleErrors(rule: Rule, k: nat): (errors: seq<ConfigError>)
    ensures errors == [] <==> Accepted(rule)
    ensures forall e :: e in errors <==> IsErrorOf(rule, k, e)
  {
    (if rule.into.Some? && CheckRelPath(rule.into.value).Some? then [BadPath(k, CheckRelPath(rule.into.value).value)] else [])
    + (if DestinationOf(rule) == "" then [TargetsTheRoot(k)] else [])
  }

  predicate IsErrorOf(rule: Rule, k: nat, e: ConfigError) {
    match e
    case BadPath(i, error) => i == k && rule.into.Some? && CheckRelPath(rule.into.value) == Some(error)
    case TargetsTheRoot(i) => i == k && DestinationOf(rule) == ""
    case Overlap(_, _) => false
  }

  /** What is wrong with a configuration: the paths that are refused, the rules
      that write the root, the pairs that overlap. */
  predicate IsError(rules: seq<Rule>, dests: seq<string>, e: ConfigError) {
    match e
    case Overlap(i, j) => i < j < |dests| && PathsOverlap(dests[i], dests[j])
    case BadPath(k, _) => k < |rules| && IsErrorOf(rules[k], k, e)
    case TargetsTheRoot(k) => k < |rules| && IsErrorOf(rules[k], k, e)
  }

  lemma {:induction false} OneRuleMore(rules: seq<Rule>, k: nat, dests: seq<string>)
    requires k < |rules| && AreDestinations(dests, rules[..k])
    ensures AreDestinations(dests + [DestinationOf(rules[k])], rules[..k + 1])
    ensures AllAccepted(rules[..k + 1]) <==> AllAccepted(rules[..k]) && Accepted(rules[k])
    ensures forall e :: IsError(rules[..k + 1], [], e) <==> IsError(rules[..k], [], e) || IsErrorOf(rules[k], k, e)
  {
    assert rules[..k + 1] == rules[..k] + [rules[k]];
  }

  /** Every rule is lowered; there is no error exactly when all are acceptable. */
  method LowerRules(rules: seq<Rule>) returns (dests: seq<string>, errors: seq<ConfigError>)
    ensures AreDestinations(dests, rules)
    ensures errors == [] <==> AllAccepted(rules)
    ensures forall e :: e in errors <==> IsError(rules, [], e)
  {
    dests, errors := [], [];
    for k := 0 to |rules|
      invariant AreDestinations(dests, rules[..k])
      invariant errors == [] <==> AllAccepted(rules[..k])
      invariant forall e :: e in errors <==> IsError(rules[..k], [], e)
    {
      OneRuleMore(rules, k, dests);
      dests := dests + [DestinationOf(rules[k])];
      errors := errors + RuleErrors(rules[k], k);
    }
    assert rules[..|rules|] == rules;
  }

  /** Exactly what is wrong is reported; a configuration has no error exactly when
      every rule is acceptable and no two destinations overlap. */
  method CompileDestinations(rules: seq<Rule>) returns (dests: seq<string>, errors: seq<ConfigError>)
    ensures AreDestinations(dests, rules)
    ensures errors == [] <==> AllAccepted(rules) && AllApart(dests)
    ensures forall e :: e in errors <==> IsError(rules, dests, e)
  {
    dests, errors := LowerRules(rules);
    var pairs := CheckDestinationOverlap(dests);
    NoPairsExactlyWhenApart(dests, pairs);
    OverlapErrorsAre(rules, dests, pairs);
    errors := WithOverlaps(errors, pairs);
  }

  /** The overlapping pairs, reported behind the errors of the rules. */
  method WithOverlaps(found: seq<ConfigError>, pairs: seq<(nat, nat)>) returns (errors: seq<ConfigError>)
    ensures errors == found + OverlapErrors(pairs)
  {
    errors := found;
    for p := 0 to |pairs|
      invariant errors == found + OverlapErrors(pairs)[..p]
    {
      errors := errors + [Overlap(pairs[p].0, pairs[p].1)];
    }
    assert OverlapErrors(pairs)[..|pairs|] == OverlapErrors(pairs);
  }

  function OverlapErrors(pairs: seq<(nat, nat)>): (errors: seq<ConfigError>)
    ensures |errors| == |pairs| && forall p :: 0 <= p < |pairs| ==> errors[p] == Overlap(pairs[p].0, pairs[p].1)
  {
    seq(|pairs|, p requires 0 <= p < |pairs| => Overlap(pairs[p].0, pairs[p].1))
  }

  lemma {:induction false} OverlapErrorsAre(rules: seq<Rule>, dests: seq<string>, pairs: seq<(nat, nat)>)
    requires forall i, j :: 0 <= i < j < |dests| ==> (PathsOverlap(dests[i], dests[j]) <==> (i, j) in pairs)
    requires forall e <- pairs :: e.0 < e.1 < |dests|
    ensures forall e :: e in OverlapErrors(pairs) || IsError(rules, [], e) <==> IsError(rules, dests, e)
  {
    forall e: ConfigError | e.Overlap? ensures e in OverlapErrors(pairs) <==> IsError(rules, dests, e) {
      if e in OverlapErrors(pairs) {
        var p :| 0 <= p < |pairs| && OverlapErrors(pairs)[p] == e;
        assert pairs[p] in pairs;
      }
      if IsError(rules, dests, e) {
        assert (e.rule, e.other) in pairs;
        var p :| 0 <= p < |pairs| && pairs[p] == (e.rule, e.other);
        assert OverlapErrors(pairs)[p] == e;
      }
    }
  }

  /** For package labels a destination is the path of the package, and then the
      path within. */
  lemma {:induction false} DestinationsAreAnchored(rule: Rule)
    requires IsPackageLabel(rule.package) && Accepted(rule)
    ensures rule.package[..2] == "//"
    ensures Segments(DestinationOf(rule)) ==
            Segments(rule.package[2..]) + if rule.into.Some? then Segments(rule.into.value) else []
  {
    var dir := rule.package[2..];
    if rule.into.Some? {
      CheckRelPathAccepts(rule.into.value);
      if dir == "" {
        SplitWhole("", '/');
        assert Segments("") == [];
      } else {
        SegmentsConcat(dir, rule.into.value);
      }
    }
  }

  lemma {:induction false} NoPairsExactlyWhenApart(dests: seq<string>, pairs: seq<(nat, nat)>)
    requires forall i, j :: 0 <= i < j < |dests| ==> (PathsOverlap(dests[i], dests[j]) <==> (i, j) in pairs)
    requires forall e <- pairs :: e.0 < e.1 < |dests|
    ensures pairs == [] <==> AllApart(dests)
  {
    if pairs != [] {
      assert pairs[0] in pairs;
      assert PathsOverlap(dests[pairs[0].0], dests[pairs[0].1]);
    }
  }

  /** Below a relative directory a path is relative exactly when it is so itself. */
  lemma {:induction false} RelativeBelow(dir: string, path: string)
    requires IsRelPath(dir)
    ensures IsRelPath(dir + "/" + path) <==> IsRelPath(path)
  {
    SplitConcat(dir, path, '/');
    var p, q := Split(dir, '/'), Split(path, '/');
    SegmentsOfBoth(p, q);
    if path == "" {
      SplitWhole("", '/');
      assert !IsSegment(q[0]);
    }
  }

  lemma {:induction false} SegmentsOfBoth(p: seq<string>, q: seq<string>)
    requires forall k :: 0 <= k < |p| ==> IsSegment(p[k])
    ensures (forall k :: 0 <= k < |p + q| ==> IsSegment((p + q)[k])) <==> forall k :: 0 <= k < |q| ==> IsSegment(q[k])
  {
    forall k | 0 <= k < |q| ensures (p + q)[|p| + k] == q[k] {
    }
  }

  lemma {:induction false} AcceptedExactlyWhenRelative(rule: Rule)
    requires IsPackageLabel(rule.package)
    ensures Accepted(rule) <==> IsRelPath(DestinationOf(rule))
  {
    var dir := PackageDir(rule.package);
    if rule.into.Some? {
      CheckRelPathAccepts(rule.into.value);
      if dir != "" {
        RelativeBelow(dir, rule.into.value);
      }
    }
  }

  /** For package labels the compiler accepts exactly the configurations whose
      destinations are normalized paths none of which contains another. */
  lemma {:induction false} AcceptedExactlyWhenApart(rules: seq<Rule>, dests: seq<string>)
    requires AreDestinations(dests, rules) && forall i :: 0 <= i < |rules| ==> IsPackageLabel(rules[i].package)
    ensures AllAccepted(rules) && AllApart(dests) <==> ValidDestinations(dests)
    ensures ValidDestinations(dests) ==>
      forall i, j :: 0 <= i < j < |dests| ==> Incomparable(Segments(dests[i]), Segments(dests[j]))
  {
    forall i | 0 <= i < |rules| ensures Accepted(rules[i]) <==> IsRelPath(dests[i]) {
      AcceptedExactlyWhenRelative(rules[i]);
    }
    if ValidDestinations(dests) {
      forall i, j | 0 <= i < j < |dests| ensures Incomparable(Segments(dests[i]), Segments(dests[j])) {
        OverlapIsComparability(dests[i], dests[j]);
      }
    }
  }

  // --- transforms ---

  predicate IsTipPhase(t: Transform) {
    t.ApplyPatch? || t.AgentTransform?
  }

  predicate PhaseBelow(a: Transform, b: Transform) {
    !IsTipPhase(a) && IsTipPhase(b)
  }

  /** A stable sort by phase. */
  function Lowered(declared: seq<Transform>): seq<Transform> {
    Names.SortBy(declared, PhaseBelow)
  }

  function OfPhase(transforms: seq<Transform>, tip: bool): seq<Transform> {
    if transforms == [] then []
    else (if IsTipPhase(transforms[0]) == tip then [transforms[0]] else []) + OfPhase(transforms[1..], tip)
  }

  lemma {:induction false} InsertMirrorPhase(t: Transform, sorted: seq<Transform>)
    requires !IsTipPhase(t)
    ensures Names.InsertBy(t, sorted, PhaseBelow) == [t] + sorted
  {
  }

  lemma {:induction false} InsertTipPhase(t: Transform, mirror: seq<Transform>, tips: seq<Transform>)
    requires IsTipPhase(t) && (forall m <- mirror :: !IsTipPhase(m)) && forall m <- tips :: IsTipPhase(m)
    ensures Names.InsertBy(t, mirror + tips, PhaseBelow) == mirror + ([t] + tips)
  {
    if mirror == [] {
      assert mirror + tips == tips && mirror + ([t] + tips) == [t] + tips;
      assert tips != [] ==> IsTipPhase(tips[0]);
    } else {
      var all := mirror + tips;
      assert all[0] == mirror[0] && all[1..] == mirror[1..] + tips;
      assert !IsTipPhase(mirror[0]);
      InsertTipPhase(t, mirror[1..], tips);
      assert [mirror[0]] + (mirror[1..] + ([t] + tips)) == mirror + ([t] + tips);
    }
  }

  /** Lowering is the stable partition by phase. */
  lemma {:induction false} LoweredIsThePartition(declared: seq<Transform>)
    ensures Lowered(declared) == OfPhase(declared, false) + OfPhase(declared, true)
    ensures forall t <- OfPhase(declared, false) :: t.Move? || t.Copy? || t.Replace? || t.RewriteMessage?
    ensures forall t <- OfPhase(declared, true) :: t.ApplyPatch? || t.AgentTransform?
  {
    if declared != [] {
      var mirror, tips := OfPhase(declared[1..], false), OfPhase(declared[1..], true);
      LoweredIsThePartition(declared[1..]);
      if IsTipPhase(declared[0]) {
        InsertTipPhase(declared[0], mirror, tips);
        assert [] + mirror == mirror;
      } else {
        InsertMirrorPhase(declared[0], mirror + tips);
        assert [declared[0]] + (mirror + tips) == [declared[0]] + mirror + tips;
      }
    }
  }

  lemma {:induction false} TreePipelineConcat(w: World, t: Tree, a: seq<Transform>, b: seq<Transform>)
    ensures ApplyTreeTransforms(w, t, a + b)
         == match ApplyTreeTransforms(w, t, a)
            case Ok(next) => ApplyTreeTransforms(w, next, b)
            case Err(e) => Err(e)
    decreases |a|
  {
    if a == [] {
      assert a + b == b;
    } else {
      assert (a + b)[1..] == a[1..] + b;
      match ApplyTreeTransform(w, t, a[0]) {
        case Ok(next) => TreePipelineConcat(w, next, a[1..], b);
        case Err(_) =>
      }
    }
  }

  lemma {:induction false} TipPhaseIsNoTreeTransform(w: World, t: Tree, tips: seq<Transform>)
    requires forall x <- tips :: IsTipPhase(x)
    ensures ApplyTreeTransforms(w, t, tips) == Ok(t)
  {
    if tips != [] {
      assert IsTipPhase(tips[0]);
      TipPhaseIsNoTreeTransform(w, t, tips[1..]);
    }
  }

  lemma {:induction false} MirrorPhaseDecides(w: World, t: Tree, message: string, declared: seq<Transform>)
    ensures ApplyTreeTransforms(w, t, OfPhase(declared, false)) == ApplyTreeTransforms(w, t, declared)
    ensures ApplyMessageTransforms(w, message, OfPhase(declared, false)) == ApplyMessageTransforms(w, message, declared)
    decreases |declared|
  {
    if declared != [] {
      var rest := OfPhase(declared[1..], false);
      if IsTipPhase(declared[0]) {
        assert OfPhase(declared, false) == rest;
        MirrorPhaseDecides(w, t, message, declared[1..]);
      } else {
        assert OfPhase(declared, false)[1..] == rest;
        var tree := ApplyTreeTransform(w, t, declared[0]);
        var text := if declared[0].RewriteMessage? then RewriteOne(w, message, declared[0]) else Ok(message);
        MirrorPhaseDecides(w, if tree.Ok? then tree.value else t, if text.Ok? then text.value else message, declared[1..]);
      }
    }
  }

  lemma {:induction false} MessagePipelineConcat(w: World, message: string, a: seq<Transform>, tips: seq<Transform>)
    requires forall x <- tips :: IsTipPhase(x)
    ensures ApplyMessageTransforms(w, message, a + tips) == ApplyMessageTransforms(w, message, a)
    decreases |a| + |tips|
  {
    if a == [] {
      assert a + tips == tips;
      if tips != [] {
        assert IsTipPhase(tips[0]);
        assert [] + tips[1..] == tips[1..];
        MessagePipelineConcat(w, message, [], tips[1..]);
      }
    } else {
      assert (a + tips)[1..] == a[1..] + tips;
      var text := if a[0].RewriteMessage? then RewriteOne(w, message, a[0]) else Ok(message);
      MessagePipelineConcat(w, if text.Ok? then text.value else message, a[1..], tips);
    }
  }

  /** Reordering changes nothing a replayed commit shows: the lowered list
      rewrites every tree and every message as the declared one would, errors
      included. */
  lemma {:induction false} LoweringKeepsTheMeaning(w: World, t: Tree, message: string, declared: seq<Transform>)
    ensures ApplyTreeTransforms(w, t, Lowered(declared)) == ApplyTreeTransforms(w, t, declared)
    ensures ApplyMessageTransforms(w, message, Lowered(declared)) == ApplyMessageTransforms(w, message, declared)
  {
    var mirror, tips := OfPhase(declared, false), OfPhase(declared, true);
    LoweredIsThePartition(declared);
    MirrorPhaseDecides(w, t, message, declared);
    TreePipelineConcat(w, t, mirror, tips);
    match ApplyTreeTransforms(w, t, mirror) {
      case Ok(next) => TipPhaseIsNoTreeTransform(w, next, tips);
      case Err(_) =>
    }
    MessagePipelineConcat(w, message, mirror, tips);
  }
}
