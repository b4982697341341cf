/** Running an agent as an action of the Remote Execution API v2: what is
    uploaded before Execute, when the action cache answers instead, and what is
    written back to the working directory. */
module Remote {
  import opened Wrappers
  import opened Names
  import opened Merkle
  import opened MerkleTrees
  import opened MerkleDisk

  type Data = Trees.Bytes
  type Property = (string, string)

  datatype Command = Command(arguments: seq<string>, environment: seq<Property>, outputPaths: seq<string>, workingDirectory: string)
  datatype Action = Action(command: Digest, inputRoot: Digest, timeout: Option<int>, doNotCache: bool, platform: seq<Property>)
  datatype OutputDirectory = OutputDirectory(path: string, tree: Option<Digest>)
  datatype ActionResult = ActionResult(exitCode: int, outputs: seq<OutputDirectory>)
  datatype ExecuteResponse = ExecuteResponse(statusCode: Option<int>, result: Option<ActionResult>, cached: bool)

  /** An answer to Execute and the content the server stored with it. */
  datatype Reply = Reply(response: ExecuteResponse, outputs: Blobs)

  /** The encodings on the wire, and what the server answers to the n-th
      Execute. */
  datatype Protocol = Protocol(
    dirs: Codec,
    encodeCommand: Command -> Data,
    encodeAction: Action -> Data,
    decodeTree: Data -> Option<TreeMessage>,
    reply: (string, nat) -> Reply)

  /** Encodings are injective; the Tree messages of results package
      directories, and the server keys what it stores by hash. */
  ghost predicate ValidProtocol(p: Protocol) {
    && ValidCodec(p.dirs)
    && (forall a, b :: p.encodeCommand(a) == p.encodeCommand(b) ==> a == b)
    && (forall a, b :: p.encodeAction(a) == p.encodeAction(b) ==> a == b)
    && forall h, n :: WellKeyed(p.dirs, p.reply(h, n).outputs) &&
         (p.reply(h, n).response.result.Some? ==> HonestResult(p, p.reply(h, n).response.result.value))
  }

  ghost predicate HonestResult(p: Protocol, result: ActionResult) {
    forall o, data :: o in result.outputs && o.tree.Some? && p.dirs.hash(data) == o.tree.value.hash ==>
      p.decodeTree(data).Some? ==> exists d :: p.decodeTree(data).value.root == Message(p.dirs, d)
  }

  // --- the action of a run ---

  const WORK := "w"

  datatype Spec = Spec(arguments: seq<string>, outputPaths: seq<string>, workingDirectory: string, env: seq<Property>,
                       platform: seq<Property>, inputRoot: Digest, timeout: Option<int>, doNotCache: bool)

  predicate PropertyBelow(a: Property, b: Property) {
    Less(a.0, b.0) || (a.0 == b.0 && Less(a.1, b.1))
  }

  predicate VariableBelow(a: Property, b: Property) {
    Less(a.0, b.0)
  }

  function CommandOf(spec: Spec): Command {
    Command(spec.arguments, SortBy(spec.env, VariableBelow), Sort(spec.outputPaths), spec.workingDirectory)
  }

  function ActionOf(p: Protocol, spec: Spec): Action {
    Action(DigestOf(p.dirs, p.encodeCommand(CommandOf(spec))), spec.inputRoot, spec.timeout, spec.doNotCache,
           SortBy(spec.platform, PropertyBelow))
  }

  function CdAndExec(dir: string, args: seq<string>): seq<string> {
    ["sh", "-c", "cd " + dir + " && exec \"$@\"", "sh"] + args
  }

  function SpecOf(root: Digest, args: seq<string>, env: seq<Property>, platform: seq<Property>,
                  timeout: Option<int>, noCache: bool): Spec {
    Spec(CdAndExec(WORK, args), [WORK], "", env, platform, root, timeout, noCache)
  }

  function WrapperMessage(inner: Digest, name: string): Directory {
    Directory([], [DirectoryNode(name, inner)], [])
  }

  /** The working directory as the action sees it. */
  function Wrapped(d: Folder): Folder {
    Folder(map[WORK := Sub(d)])
  }

  lemma {:induction false} SortedOfOne(name: string)
    ensures Sorted({name}) == [name]
  {
    SortIgnoresTheOrder([name], {name});
    assert [name][1..] == [];
    assert SortBy([name][1..], Less) == [];
  }

  lemma {:induction false} SortedOfNone()
    ensures Sorted({}) == []
  {
    SortIgnoresTheOrder([], {});
  }

  /** The hand-built wrapper is the canonical message of the wrapped directory. */
  lemma {:induction false} WrapperIsMessage(c: Codec, d: Folder)
    ensures WrapperMessage(DigestOf(c, Encoded(c, d)), WORK) == Message(c, Wrapped(d))
  {
    var w := Wrapped(d);
    SortedOfOne(WORK);
    SortedOfNone();
    assert SubNames(w) == {WORK} && FileNames(w) == {} && LinkNames(w) == {};
    assert SubNodeAt(c, w, WORK) == DirectoryNode(WORK, DigestOf(c, Encoded(c, d)));
  }

  /** The digest under which a run over `d` is cached. */
  ghost function RunHash(p: Protocol, d: Folder, args: seq<string>, env: seq<Property>, platform: seq<Property>,
                         timeout: Option<int>, noCache: bool): string {
    var root := DigestOf(p.dirs, Encoded(p.dirs, Wrapped(d)));
    p.dirs.hash(p.encodeAction(ActionOf(p, SpecOf(root, args, env, platform, timeout, noCache))))
  }

  /** The environment in ascending order of names, each variable with its settings
      in the order given. */
  ghost predicate IsSortedEnvironment(sorted: seq<Property>, env: seq<Property>) {
    && multiset(sorted) == multiset(env)
    && (forall i, j :: 0 <= i < j < |sorted| ==> !Less(sorted[j].0, sorted[i].0))
    && (forall name :: SettingsOf(sorted, name) == SettingsOf(env, name))
  }

  /** The properties in ascending order of names, and then of values. */
  ghost predicate IsSortedPlatform(sorted: seq<Property>, platform: seq<Property>) {
    && multiset(sorted) == multiset(platform)
    && forall i, j :: 0 <= i < j < |sorted| ==>
         Less(sorted[i].0, sorted[j].0) || (sorted[i].0 == sorted[j].0 && !Less(sorted[j].1, sorted[i].1))
  }

  /** The command and the action of a run over `d`: a shell that enters `w` and
      becomes the harness with its arguments as they are, `w` as the one output
      path, and the directory as `w` of the input root. */
  ghost predicate Runs(p: Protocol, command: Command, action: Action, d: Folder, args: seq<string>, env: seq<Property>,
                       platform: seq<Property>, timeout: Option<int>, noCache: bool) {
    && command.arguments == ["sh", "-c", "cd w && exec \"$@\"", "sh"] + args
    && command.outputPaths == ["w"] && command.workingDirectory == ""
    && IsSortedEnvironment(command.environment, env)
    && action.command == Digest(p.dirs.hash(p.encodeCommand(command)), |p.encodeCommand(command)|)
    && (var root := Encoded(p.dirs, Folder(map["w" := Sub(d)])); action.inputRoot == Digest(p.dirs.hash(root), |root|))
    && action.timeout == timeout && action.doNotCache == noCache
    && IsSortedPlatform(action.platform, platform)
  }

  lemma {:induction false} SpecRuns(p: Protocol, d: Folder, args: seq<string>, env: seq<Property>, platform: seq<Property>,
                                    timeout: Option<int>, noCache: bool)
    ensures
      var spec := SpecOf(DigestOf(p.dirs, Encoded(p.dirs, Wrapped(d))), args, env, platform, timeout, noCache);
      Runs(p, CommandOf(spec), ActionOf(p, spec), d, args, env, platform, timeout, noCache)
  {
    EnvironmentIsSorted(env);
    PlatformIsSorted(platform);
    assert [WORK][1..] == [] && SortBy([WORK][1..], Less) == [];
    assert Sort([WORK]) == ["w"];
    assert "cd " + WORK + " && exec \"$@\"" == "cd w && exec \"$@\"";
  }

  lemma {:induction false} EnvironmentIsSorted(env: seq<Property>)
    ensures IsSortedEnvironment(SortBy(env, VariableBelow), env)
  {
    VariableOrder();
    SortByOrders(env, VariableBelow);
    var sorted := SortBy(env, VariableBelow);
    forall i, j | 0 <= i < j < |sorted| ensures !Less(sorted[j].0, sorted[i].0) {
      assert !VariableBelow(sorted[j], sorted[i]);
    }
    forall name ensures SettingsOf(sorted, name) == SettingsOf(env, name) {
      SortKeepsSettings(env, name);
    }
  }

  lemma {:induction false} PlatformIsSorted(platform: seq<Property>)
    ensures IsSortedPlatform(SortBy(platform, PropertyBelow), platform)
  {
    PropertyOrder();
    SortByOrders(platform, PropertyBelow);
    var sorted := SortBy(platform, PropertyBelow);
    forall i, j | 0 <= i < j < |sorted|
      ensures Less(sorted[i].0, sorted[j].0) || (sorted[i].0 == sorted[j].0 && !Less(sorted[j].1, sorted[i].1))
    {
      assert !PropertyBelow(sorted[j], sorted[i]);
      LessIsTotal(sorted[i].0, sorted[j].0);
    }
  }

  /** The hash a run is executed and cached under is that of such an action. */
  lemma {:induction false} RunHashNamesTheAction(p: Protocol, d: Folder, args: seq<string>, env: seq<Property>, platform: seq<Property>,
                                                 timeout: Option<int>, noCache: bool) returns (command: Command, action: Action)
    ensures RunHash(p, d, args, env, platform, timeout, noCache) == p.dirs.hash(p.encodeAction(action))
    ensures Runs(p, command, action, d, args, env, platform, timeout, noCache)
  {
    var spec := SpecOf(DigestOf(p.dirs, Encoded(p.dirs, Wrapped(d))), args, env, platform, timeout, noCache);
    SpecRuns(p, d, args, env, platform, timeout, noCache);
    command, action := CommandOf(spec), ActionOf(p, spec);
  }

  /** The store holds the action of that hash and its command. */
  ghost predicate IsDeclared(p: Protocol, cas: Blobs, h: string, d: Folder, args: seq<string>, env: seq<Property>,
                             platform: seq<Property>, timeout: Option<int>, noCache: bool) {
    exists command, action ::
      && h == p.dirs.hash(p.encodeAction(action)) && Runs(p, command, action, d, args, env, platform, timeout, noCache)
      && h in cas && p.dirs.hash(p.encodeCommand(command)) in cas
  }

  /** The action digest identifies the run: the whole directory, the argument
      list, and environment and platform up to the order they are given in. */
  lemma {:induction false} ActionNamesTheRun(
      p: Protocol,
      d: Folder, args: seq<string>, env: seq<Property>, platform: seq<Property>, timeout: Option<int>, noCache: bool,
      d': Folder, args': seq<string>, env': seq<Property>, platform': seq<Property>, timeout': Option<int>, noCache': bool)
    requires ValidProtocol(p)
    ensures RunHash(p, d, args, env, platform, timeout, noCache) == RunHash(p, d', args', env', platform', timeout', noCache')
       <==> d == d' && args == args' && timeout == timeout' && noCache == noCache'
            && SortBy(env, VariableBelow) == SortBy(env', VariableBelow)
            && SortBy(platform, PropertyBelow) == SortBy(platform', PropertyBelow)
  {
    var root, root' := DigestOf(p.dirs, Encoded(p.dirs, Wrapped(d))), DigestOf(p.dirs, Encoded(p.dirs, Wrapped(d')));
    var spec, spec' := SpecOf(root, args, env, platform, timeout, noCache), SpecOf(root', args', env', platform', timeout', noCache');
    if RunHash(p, d, args, env, platform, timeout, noCache) == RunHash(p, d', args', env', platform', timeout', noCache') {
      SameActionSameSpec(p, spec, spec');
      assert CdAndExec(WORK, args)[4..] == args && CdAndExec(WORK, args')[4..] == args';
      DigestNamesTheDirectory(p.dirs, Wrapped(d), Wrapped(d'));
      assert Wrapped(d).nodes[WORK] == Wrapped(d').nodes[WORK];
    }
  }

  lemma {:induction false} SameActionSameSpec(p: Protocol, a: Spec, b: Spec)
    requires ValidProtocol(p) && p.encodeAction(ActionOf(p, a)) == p.encodeAction(ActionOf(p, b))
    ensures ActionOf(p, a) == ActionOf(p, b) && CommandOf(a) == CommandOf(b)
  {
    assert ActionOf(p, a) == ActionOf(p, b);
    assert p.encodeCommand(CommandOf(a)) == p.encodeCommand(CommandOf(b));
  }

  ghost predicate NamesOnce(env: seq<Property>) {
    forall a, b :: a in env && b in env && a.0 == b.0 ==> a == b
  }

  /** Listing the platform, or an environment that sets no variable twice to
      different values, in another order gives the same action. */
  lemma {:induction false} ListingOrderIsIrrelevant(
      p: Protocol, d: Folder, args: seq<string>, env: seq<Property>, env': seq<Property>,
      platform: seq<Property>, platform': seq<Property>, timeout: Option<int>, noCache: bool)
    requires multiset(env) == multiset(env') && multiset(platform) == multiset(platform') && NamesOnce(env)
    ensures RunHash(p, d, args, env, platform, timeout, noCache) == RunHash(p, d, args, env', platform', timeout, noCache)
  {
    VariableOrder();
    PropertyOrder();
    assert Untied(env, VariableBelow) by {
      forall a, b | a in env && b in env ensures a == b || VariableBelow(a, b) || VariableBelow(b, a) {
        LessIsTotal(a.0, b.0);
      }
    }
    assert Untied(platform, PropertyBelow) by {
      forall a, b | a in platform && b in platform ensures a == b || PropertyBelow(a, b) || PropertyBelow(b, a) {
        LessIsTotal(a.0, b.0);
        LessIsTotal(a.1, b.1);
      }
    }
    SortIgnoresPermutation(env, env', VariableBelow);
    SortIgnoresPermutation(platform, platform', PropertyBelow);
  }

  // --- where the order counts ---

  /** The settings of one variable, in order. */
  function SettingsOf(env: seq<Property>, name: string): seq<Property> {
    if env == [] then [] else (if env[0].0 == name then [env[0]] else []) + SettingsOf(env[1..], name)
  }

  lemma {:induction false} SettingsOfMore(v: Property, rest: seq<Property>, name: string)
    ensures SettingsOf([v] + rest, name) == (if v.0 == name then [v] else []) + SettingsOf(rest, name)
  {
    assert ([v] + rest)[1..] == rest;
  }

  /** Two settings of different variables may be swapped. */
  lemma {:induction false} OtherSettingFirst(v: Property, first: Property, rest: seq<Property>, name: string)
    requires v.0 != first.0
    ensures SettingsOf([first] + ([v] + rest), name) == SettingsOf([v] + ([first] + rest), name)
  {
    SettingsOfMore(first, [v] + rest, name);
    SettingsOfMore(v, rest, name);
    SettingsOfMore(v, [first] + rest, name);
    SettingsOfMore(first, rest, name);
  }

  lemma {:induction false} InsertionKeepsSettings(v: Property, sorted: seq<Property>, name: string)
    ensures SettingsOf(InsertBy(v, sorted, VariableBelow), name) == SettingsOf([v] + sorted, name)
  {
    if sorted != [] && VariableBelow(sorted[0], v) {
      var first, rest := sorted[0], sorted[1..];
      LessIsTotal(v.0, v.0);
      InsertionKeepsSettings(v, rest, name);
      var inserted := InsertBy(v, rest, VariableBelow);
      SettingsOfMore(first, inserted, name);
      SettingsOfMore(first, [v] + rest, name);
      OtherSettingFirst(v, first, rest, name);
      assert [first] + rest == sorted;
    }
  }

  /** The sort is stable: each variable keeps its settings in the order given. */
  lemma {:induction false} SortKeepsSettings(env: seq<Property>, name: string)
    ensures SettingsOf(SortBy(env, VariableBelow), name) == SettingsOf(env, name)
  {
    if env != [] {
      SortKeepsSettings(env[1..], name);
      InsertionKeepsSettings(env[0], SortBy(env[1..], VariableBelow), name);
      SettingsOfMore(env[0], SortBy(env[1..], VariableBelow), name);
    }
  }

  lemma PullOut(env: seq<Property>, a: Property) returns (rest: seq<Property>)
    requires a in env
    ensures multiset(rest) == multiset(env) - multiset{a}
  {
    var i :| 0 <= i < |env| && env[i] == a;
    rest := env[..i] + env[i + 1..];
    WithoutOne(env, i);
  }

  lemma BringForward(env: seq<Property>, a: Property, b: Property) returns (rest: seq<Property>)
    requires a in env && b in env && a != b
    ensures multiset([a, b] + rest) == multiset(env) && multiset([b, a] + rest) == multiset(env)
  {
    var others := PullOut(env, a);
    assert a in multiset(env) && b in multiset(env);
    assert b in multiset(others);
    rest := PullOut(others, b);
    assert multiset([a, b]) == multiset{a, b} == multiset([b, a]);
  }

  /** Two settings of one variable, swapped, sort differently. */
  lemma {:induction false} SwappedSettingsDiffer(a: Property, b: Property, rest: seq<Property>)
    requires a.0 == b.0 && a != b
    ensures SortBy([a, b] + rest, VariableBelow) != SortBy([b, a] + rest, VariableBelow)
  {
    SortKeepsSettings([a, b] + rest, a.0);
    SortKeepsSettings([b, a] + rest, a.0);
    assert ([a, b] + rest)[1..] == [b] + rest && ([b] + rest)[1..] == rest;
    assert ([b, a] + rest)[1..] == [a] + rest && ([a] + rest)[1..] == rest;
    assert SettingsOf([a, b] + rest, a.0)[0] == a && SettingsOf([b, a] + rest, a.0)[0] == b;
  }

  /** Every order of an environment gives the same action exactly when no
      variable is set to two values. */
  lemma {:induction false} OrderIsIrrelevantExactlyWhenNamesAreOnce(
      p: Protocol, d: Folder, args: seq<string>, env: seq<Property>, platform: seq<Property>, timeout: Option<int>, noCache: bool)
    requires ValidProtocol(p)
    ensures NamesOnce(env) <==> forall env' :: multiset(env') == multiset(env) ==>
              RunHash(p, d, args, env', platform, timeout, noCache) == RunHash(p, d, args, env, platform, timeout, noCache)
  {
    if NamesOnce(env) {
      forall env' | multiset(env') == multiset(env)
        ensures RunHash(p, d, args, env', platform, timeout, noCache) == RunHash(p, d, args, env, platform, timeout, noCache)
      {
        ListingOrderIsIrrelevant(p, d, args, env, env', platform, platform, timeout, noCache);
      }
    } else {
      var a, b :| a in env && b in env && a.0 == b.0 && a != b;
      var rest := BringForward(env, a, b);
      SwappedSettingsDiffer(a, b, rest);
      ActionNamesTheRun(p, d, args, [a, b] + rest, platform, timeout, noCache, d, args, [b, a] + rest, platform, timeout, noCache);
    }
  }

  lemma {:induction false} VariableOrder()
    ensures IsOrder(VariableBelow)
  {
    LessIsAnOrder();
    assert forall a: Property, b: Property :: VariableBelow(a, b) == Less(a.0, b.0);
    forall a: Property, b: Property, c: Property | VariableBelow(a, c) ensures VariableBelow(a, b) || VariableBelow(b, c) {
      assert Less(a.0, c.0);
    }
  }

  lemma {:induction false} PropertyOrder()
    ensures IsOrder(PropertyBelow)
  {
    LessIsAnOrder();
    forall a: Property, b: Property | PropertyBelow(a, b) ensures !PropertyBelow(b, a) {
      assert Less(a.0, b.0) ==> !Less(b.0, a.0);
      LessIsTotal(a.0, b.0);
      LessIsTotal(a.1, b.1);
    }
    forall a: Property, b: Property, c: Property | PropertyBelow(a, c) ensures PropertyBelow(a, b) || PropertyBelow(b, c) {
      LessIsTotal(a.0, b.0);
      LessIsTotal(b.0, c.0);
      LessIsTotal(a.1, b.1);
      LessIsTotal(b.1, c.1);
      assert Less(a.0, c.0) ==> Less(a.0, b.0) || Less(b.0, c.0);
      assert Less(a.1, c.1) ==> Less(a.1, b.1) || Less(b.1, c.1);
    }
  }

  // --- the server, as far as the client sees it ---

  datatype StoredBlob = StoredBlob(digest: Digest, data: Data)

  ghost predicate Addressed(p: Protocol, blobs: seq<StoredBlob>) {
    forall b <- blobs :: b.digest == DigestOf(p.dirs, b.data)
  }

  ghost predicate Holds(p: Protocol, cas: Blobs, data: Data) {
    p.dirs.hash(data) in cas
  }

  /** Everything the server follows from an action is stored: the action, its
      command, and every message and file of the input root. */
  ghost predicate Closed(p: Protocol, cas: Blobs, actionHash: string) {
    exists command, action, root :: actionHash == p.dirs.hash(p.encodeAction(action)) && ClosedFor(p, cas, command, action, root)
  }

  ghost predicate ClosedFor(p: Protocol, cas: Blobs, command: Command, action: Action, root: Folder) {
    && Holds(p, cas, p.encodeAction(action))
    && Holds(p, cas, p.encodeCommand(command)) && action.command == DigestOf(p.dirs, p.encodeCommand(command))
    && Covers(p.dirs, cas, root) && action.inputRoot == DigestOf(p.dirs, Encoded(p.dirs, root))
  }

  function Hashes(blobs: seq<StoredBlob>): set<string> {
    set b | b in blobs :: b.digest.hash
  }

  /** `after` is `before` with the blobs added. */
  ghost predicate Grown(before: Blobs, after: Blobs, blobs: seq<StoredBlob>) {
    after.Keys == before.Keys + Hashes(blobs) && forall h <- before :: after[h] == before[h]
  }

  lemma {:induction false} StoreOne(p: Protocol, before: Blobs, now: Blobs, blobs: seq<StoredBlob>, i: nat)
    requires ValidProtocol(p) && WellKeyed(p.dirs, now) && Addressed(p, blobs) && i < |blobs| && Grown(before, now, blobs[..i])
    ensures
      var next := now[blobs[i].digest.hash := blobs[i].data];
      WellKeyed(p.dirs, next) && Grown(before, next, blobs[..i + 1])
  {
    var b := blobs[i];
    assert b in blobs && b.digest.hash == p.dirs.hash(b.data);
    assert b.digest.hash in now ==> now[b.digest.hash] == b.data;
    assert WellKeyed(p.dirs, now[b.digest.hash := b.data]);
    assert blobs[..i + 1] == blobs[..i] + [b];
    HashesOfMore(blobs[..i], b);
  }

  class Reapi {
    const p: Protocol
    var cas: Blobs
    var results: map<string, ActionResult>
    var executed: seq<string>

    ghost predicate Valid()
      reads this
    {
      && ValidProtocol(p) && WellKeyed(p.dirs, cas)
      && forall h <- results :: HonestResult(p, results[h])
    }

    constructor (protocol: Protocol)
      requires ValidProtocol(protocol)
      ensures Valid() && p == protocol && cas == map[] && results == map[] && executed == []
    {
      p, cas, results, executed := protocol, map[], map[], [];
    }

    method FindMissing(digests: seq<Digest>) returns (missing: seq<Digest>)
      ensures forall x :: x in missing <==> x in digests && x.hash !in cas
    {
      missing := [];
      for i := 0 to |digests|
        invariant forall x :: x in missing <==> x in digests[..i] && x.hash !in cas
      {
        if digests[i].hash !in cas {
          missing := missing + [digests[i]];
        }
        assert digests[..i + 1] == digests[..i] + [digests[i]];
      }
      assert digests[..|digests|] == digests;
    }

    method BatchUpdate(blobs: seq<StoredBlob>)
      requires Valid() && Addressed(p, blobs)
      modifies `cas
      ensures Valid()
      ensures cas.Keys == old(cas).Keys + Hashes(blobs)
      ensures forall h <- old(cas) :: cas[h] == old(cas)[h]
    {
      for i := 0 to |blobs|
        invariant Valid()
        invariant Grown(old(cas), cas, blobs[..i])
      {
        StoreOne(p, old(cas), cas, blobs, i);
        cas := cas[blobs[i].digest.hash := blobs[i].data];
      }
      assert blobs[..|blobs|] == blobs;
    }

    /** Uploads exactly the blobs the store lacks; afterwards it lacks none. */
    method UploadMissing(blobs: seq<StoredBlob>) returns (uploaded: nat)
      requires Valid() && Addressed(p, blobs)
      modifies `cas
      ensures Valid()
      ensures cas.Keys == old(cas).Keys + Hashes(blobs)
      ensures forall h <- old(cas) :: cas[h] == old(cas)[h]
      ensures uploaded == |Wanting(blobs, Hashes(blobs) - old(cas).Keys)|
      ensures uploaded == 0 <==> Hashes(blobs) <= old(cas).Keys
    {
      var missing := FindMissing(DigestsOf(blobs));
      var want := HashesIn(missing);
      MissingHashes(blobs, missing, cas);
      WantingHashes(blobs, want);
      assert want == Hashes(blobs) - old(cas).Keys;
      if missing == [] {
        return 0;
      }
      var lacking := Wanting(blobs, want);
      uploaded := |lacking|;
      BatchUpdate(lacking);
    }

    /** Legal only when everything the action refers to is stored. */
    method Execute(actionHash: string, skipLookup: bool) returns (response: ExecuteResponse)
      requires Valid() && Closed(p, cas, actionHash)
      modifies this
      ensures Valid()
      ensures response == p.reply(actionHash, |old(executed)|).response
      ensures executed == old(executed) + [actionHash]
      ensures cas == old(cas) + p.reply(actionHash, |old(executed)|).outputs
      ensures results == Recorded(old(results), actionHash, skipLookup, response)
    {
      var reply := p.reply(actionHash, |executed|);
      response := reply.response;
      executed := executed + [actionHash];
      cas := cas + reply.outputs;
      results := Recorded(results, actionHash, skipLookup, response);
    }
  }

  function DigestsOf(blobs: seq<StoredBlob>): (digests: seq<Digest>)
    ensures |digests| == |blobs| && forall i :: 0 <= i < |blobs| ==> digests[i] == blobs[i].digest
  {
    seq(|blobs|, i requires 0 <= i < |blobs| => blobs[i].digest)
  }

  function HashesIn(digests: seq<Digest>): (hashes: set<string>)
    ensures digests == [] <==> hashes == {}
  {
    var hashes := set d | d in digests :: d.hash;
    assert digests != [] ==> digests[0] in digests && digests[0].hash in hashes;
    hashes
  }

  lemma {:induction false} MissingHashes(blobs: seq<StoredBlob>, missing: seq<Digest>, cas: Blobs)
    requires forall x :: x in missing <==> x in DigestsOf(blobs) && x.hash !in cas
    ensures HashesIn(missing) == Hashes(blobs) - cas.Keys
  {
    var digests := DigestsOf(blobs);
    forall b | b in blobs ensures b.digest in digests {
      var i :| 0 <= i < |blobs| && blobs[i] == b;
      assert digests[i] == b.digest;
    }
    forall x | x in digests ensures exists b :: b in blobs && b.digest == x {
      var i :| 0 <= i < |digests| && digests[i] == x;
      assert blobs[i] in blobs;
    }
  }

  lemma {:induction false} WantingHashes(blobs: seq<StoredBlob>, want: set<string>)
    requires want <= Hashes(blobs)
    ensures Hashes(Wanting(blobs, want)) == want
    ensures Wanting(blobs, want) == [] <==> want == {}
  {
    forall h | h in want ensures h in Hashes(Wanting(blobs, want)) {
      var b :| b in blobs && b.digest.hash == h;
      assert b in Wanting(blobs, want);
    }
    if Wanting(blobs, want) != [] {
      assert Wanting(blobs, want)[0] in Wanting(blobs, want);
    }
  }

  function Wanting(blobs: seq<StoredBlob>, want: set<string>): (kept: seq<StoredBlob>)
    ensures forall b :: b in kept <==> b in blobs && b.digest.hash in want
  {
    if blobs == [] then [] else
      (if blobs[0].digest.hash in want then [blobs[0]] else []) + Wanting(blobs[1..], want)
  }

  /** The server caches results of successful actions it may cache. */
  function Recorded(results: map<string, ActionResult>, actionHash: string, doNotCache: bool, response: ExecuteResponse): map<string, ActionResult> {
    if !doNotCache && response.result.Some? && response.result.value.exitCode == 0
    then results[actionHash := response.result.value] else results
  }

  // --- a run ---

  class Workdir {
    var dir: Folder

    constructor (d: Folder)
      ensures dir == d
    {
      dir := d;
    }
  }

  datatype RemoteOutcome = RemoteOutcome(exitCode: int, cached: bool)

  function AnswerOf(response: ExecuteResponse): Result<ActionResult> {
    if response.statusCode.Some? && response.statusCode.value != 0 then Err(ExecutionFailed)
    else if response.result.None? then Err(NoOutput)
    else Ok(response.result.value)
  }

  function FirstAt(outputs: seq<OutputDirectory>, path: string): (found: Option<OutputDirectory>)
    ensures found.Some? ==> found.value in outputs
  {
    if outputs == [] then None
    else if outputs[0].path == path then Some(outputs[0])
    else FirstAt(outputs[1..], path)
  }

  /** The Tree message a result records for the working directory. */
  function OutputTree(p: Protocol, cas: Blobs, result: ActionResult): Result<TreeMessage> {
    var output := FirstAt(result.outputs, WORK);
    if output.None? || output.value.tree.None? then Err(NoOutput)
    else if output.value.tree.value.hash !in cas then Err(MissingBlob)
    else
      match p.decodeTree(cas[output.value.tree.value.hash])
      case Some(tree) => Ok(tree)
      case None => Err(MalformedBlob)
  }

  lemma {:induction false} RecordedRoot(p: Protocol, cas: Blobs, result: ActionResult) returns (d: Folder)
    requires ValidProtocol(p) && WellKeyed(p.dirs, cas) && HonestResult(p, result) && OutputTree(p, cas, result).Ok?
    ensures OutputTree(p, cas, result).value.root == Message(p.dirs, d)
  {
    var o := FirstAt(result.outputs, WORK).value;
    var data := cas[o.tree.value.hash];
    assert p.dirs.hash(data) == o.tree.value.hash;
    assert p.decodeTree(data).Some?;
    d :| p.decodeTree(data).value.root == Message(p.dirs, d);
  }

  method ToList(p: Protocol, blobs: Blobs) returns (listed: seq<StoredBlob>)
    requires WellKeyed(p.dirs, blobs)
    ensures Addressed(p, listed) && Hashes(listed) == blobs.Keys
  {
    listed := [];
    var todo := blobs.Keys;
    while todo != {}
      invariant todo <= blobs.Keys && Addressed(p, listed)
      invariant Hashes(listed) == blobs.Keys - todo
    {
      var h :| h in todo;
      var b := StoredBlob(DigestOf(p.dirs, blobs[h]), blobs[h]);
      HashesOfMore(listed, b);
      listed, todo := listed + [b], todo - {h};
    }
  }

  lemma HashesOfMore(blobs: seq<StoredBlob>, b: StoredBlob)
    ensures Hashes(blobs + [b]) == Hashes(blobs) + {b.digest.hash}
  {
    assert b in blobs + [b];
    assert forall x :: x in blobs ==> x in blobs + [b];
  }

  /** The three messages on top of a built directory close the action. */
  lemma {:induction false} UploadCloses(p: Protocol, cas: Blobs, built: Blobs, d: Folder, command: Command, action: Action)
    requires ValidProtocol(p) && Covers(p.dirs, built, d) && built.Keys <= cas.Keys
    requires Holds(p, cas, Encoded(p.dirs, Wrapped(d))) && Holds(p, cas, p.encodeCommand(command)) && Holds(p, cas, p.encodeAction(action))
    requires action.command == DigestOf(p.dirs, p.encodeCommand(command))
    requires action.inputRoot == DigestOf(p.dirs, Encoded(p.dirs, Wrapped(d)))
    ensures Closed(p, cas, p.dirs.hash(p.encodeAction(action)))
  {
    forall data | Reaches(p.dirs, Wrapped(d), data) ensures p.dirs.hash(data) in cas {
      if data != Encoded(p.dirs, Wrapped(d)) {
        assert Reaches(p.dirs, d, data);
      }
    }
    assert ClosedFor(p, cas, command, action, Wrapped(d));
  }

  class RemoteExecutor {
    const client: Reapi
    const platform: seq<Property>
    const timeout: Option<int>

    constructor (client: Reapi, platform: seq<Property>, timeout: Option<int>)
      ensures this.client == client && this.platform == platform && this.timeout == timeout
    {
      this.client, this.platform, this.timeout := client, platform, timeout;
    }

    ghost function HashFor(d: Folder, args: seq<string>, env: seq<Property>, noCache: bool): string {
      RunHash(client.p, d, args, env, platform, timeout, noCache)
    }

    /** Content-addresses the directory, nests it, and builds the action. */
    method BuildInputs(d: Folder, args: seq<string>, env: seq<Property>, noCache: bool)
        returns (built: Blobs, wrapper: Data, command: Command, action: Action)
      requires ValidProtocol(client.p)
      ensures WellKeyed(client.p.dirs, built) && Covers(client.p.dirs, built, d)
      ensures wrapper == Encoded(client.p.dirs, Wrapped(d)) && action.inputRoot == DigestOf(client.p.dirs, wrapper)
      ensures action.command == DigestOf(client.p.dirs, client.p.encodeCommand(command))
      ensures client.p.dirs.hash(client.p.encodeAction(action)) == HashFor(d, args, env, noCache)
      ensures Runs(client.p, command, action, d, args, env, platform, timeout, noCache)
    {
      var inner;
      inner, built := BuildDir(client.p.dirs, d, map[]);
      WrapperIsMessage(client.p.dirs, d);
      wrapper := client.p.dirs.encode(WrapperMessage(inner, WORK));
      var spec := SpecOf(DigestOf(client.p.dirs, wrapper), args, env, platform, timeout, noCache);
      command, action := CommandOf(spec), ActionOf(client.p, spec);
      SpecRuns(client.p, d, args, env, platform, timeout, noCache);
    }

    /** Uploads what the store lacks of the directory, its wrapper, the command
        and the action. */
    method UploadInputs(ghost d: Folder, built: Blobs, wrapper: Data, command: Command, action: Action)
      requires client.Valid() && WellKeyed(client.p.dirs, built) && Covers(client.p.dirs, built, d)
      requires wrapper == Encoded(client.p.dirs, Wrapped(d))
      requires action.inputRoot == DigestOf(client.p.dirs, wrapper)
      requires action.command == DigestOf(client.p.dirs, client.p.encodeCommand(command))
      modifies client`cas
      ensures client.Valid()
      ensures Closed(client.p, client.cas, client.p.dirs.hash(client.p.encodeAction(action)))
      ensures Holds(client.p, client.cas, client.p.encodeAction(action)) && Holds(client.p, client.cas, client.p.encodeCommand(command))
      ensures forall h <- old(client.cas) :: h in client.cas && client.cas[h] == old(client.cas)[h]
    {
      var p := client.p;
      var listed := ToList(p, built);
      var extra := [StoredBlob(DigestOf(p.dirs, wrapper), wrapper),
                    StoredBlob(DigestOf(p.dirs, p.encodeCommand(command)), p.encodeCommand(command)),
                    StoredBlob(DigestOf(p.dirs, p.encodeAction(action)), p.encodeAction(action))];
      HashesOfParts(listed, extra);
      var _ := client.UploadMissing(listed + extra);
      assert extra[0] in extra && extra[1] in extra && extra[2] in extra;
      UploadCloses(p, client.cas, built, d, command, action);
    }

    /** Executes the action after everything it refers to is uploaded. */
    method ExecuteInputs(ghost d: Folder, built: Blobs, wrapper: Data, command: Command, action: Action, noCache: bool) returns (response: ExecuteResponse)
      requires client.Valid() && WellKeyed(client.p.dirs, built) && Covers(client.p.dirs, built, d)
      requires wrapper == Encoded(client.p.dirs, Wrapped(d))
      requires action.inputRoot == DigestOf(client.p.dirs, wrapper)
      requires action.command == DigestOf(client.p.dirs, client.p.encodeCommand(command))
      modifies client
      ensures client.Valid()
      ensures Holds(client.p, client.cas, client.p.encodeAction(action)) && Holds(client.p, client.cas, client.p.encodeCommand(command))
      ensures
        var h := client.p.dirs.hash(client.p.encodeAction(action));
        && response == client.p.reply(h, |old(client.executed)|).response
        && client.executed == old(client.executed) + [h]
        && client.results == Recorded(old(client.results), h, noCache, response)
    {
      UploadInputs(d, built, wrapper, command, action);
      response := client.Execute(client.p.dirs.hash(client.p.encodeAction(action)), noCache);
    }

    /** The result of the action: from the action cache when it may and can be,
        otherwise from one execution, after everything it needs is uploaded. */
    method Obtain(d: Folder, args: seq<string>, env: seq<Property>, noCache: bool) returns (result: Result<ActionResult>, cached: bool)
      requires client.Valid()
      modifies client
      ensures client.Valid()
      ensures result == Answer(client.p, old(client.results), |old(client.executed)|, HashFor(d, args, env, noCache), noCache)
      ensures Hit(old(client.results), HashFor(d, args, env, noCache), noCache) ==> cached && unchanged(client)
      ensures !Hit(old(client.results), HashFor(d, args, env, noCache), noCache) ==>
                && cached == client.p.reply(HashFor(d, args, env, noCache), |old(client.executed)|).response.cached
                && IsDeclared(client.p, client.cas, HashFor(d, args, env, noCache), d, args, env, platform, timeout, noCache)
      ensures client.executed == Executions(old(client.results), old(client.executed), HashFor(d, args, env, noCache), noCache)
      ensures result.Ok? && result.value.exitCode == 0 && !noCache ==> HashFor(d, args, env, noCache) in client.results
      ensures result.Ok? && result.value.exitCode == 0 && !noCache ==> client.results[HashFor(d, args, env, noCache)] == result.value
      ensures result.Ok? ==> HonestResult(client.p, result.value)
    {
      var p := client.p;
      var built, wrapper, command, action := BuildInputs(d, args, env, noCache);
      var actionHash := p.dirs.hash(p.encodeAction(action));
      if !noCache && actionHash in client.results {
        return Ok(client.results[actionHash]), true;
      }
      var response := ExecuteInputs(d, built, wrapper, command, action, noCache);
      result, cached := AnswerOf(response), response.cached;
    }

    /** Replaces the working directory by the recorded output; what goes wrong
        before that leaves it alone. */
    method MaterializeOutput(result: ActionResult, workdir: Workdir) returns (outcome: Result<()>)
      requires client.Valid() && HonestResult(client.p, result)
      modifies workdir
      ensures OutputTree(client.p, client.cas, result).Err? ==> outcome.Err? && workdir.dir == old(workdir.dir)
      ensures outcome.Ok? ==> Restored(client.p, client.cas, result, workdir.dir)
      ensures outcome.Err? ==> forall d :: !Restored(client.p, client.cas, result, d)
    {
      var tree := OutputTree(client.p, client.cas, result);
      if tree.Err? {
        return Err(tree.error);
      }
      ghost var recorded := RecordedRoot(client.p, client.cas, result);
      OnlyOneRoot(client.p.dirs, recorded, tree.value.root);
      workdir.dir := Folder(map[]);
      var disk := MaterializeTree(client.p.dirs, recorded, tree.value, client.cas);
      if disk.Err? {
        return Err(disk.error);
      }
      workdir.dir := disk.value;
      outcome := Ok(());
    }

    /** Runs the harness over the working directory.  A cached result means no
        execution; success means the directory is the recorded output. */
    method RunInPlace(workdir: Workdir, args: seq<string>, env: seq<Property>, noCache: bool) returns (outcome: Result<RemoteOutcome>)
      requires client.Valid()
      modifies client, workdir
      ensures client.Valid()
      ensures client.executed
           == Executions(old(client.results), old(client.executed), HashFor(old(workdir.dir), args, env, noCache), noCache)
      ensures Hit(old(client.results), HashFor(old(workdir.dir), args, env, noCache), noCache) ==> unchanged(client)
      ensures !Hit(old(client.results), HashFor(old(workdir.dir), args, env, noCache), noCache) ==>
                IsDeclared(client.p, client.cas, HashFor(old(workdir.dir), args, env, noCache), old(workdir.dir), args, env, platform, timeout, noCache)
      ensures outcome.Ok? ==>
                && outcome.value.exitCode == 0
                && (outcome.value.cached <==>
                      || Hit(old(client.results), HashFor(old(workdir.dir), args, env, noCache), noCache)
                      || client.p.reply(HashFor(old(workdir.dir), args, env, noCache), |old(client.executed)|).response.cached)
      ensures RunEnded(client.p, client.cas, old(workdir.dir), workdir.dir, outcome,
                       Answer(client.p, old(client.results), |old(client.executed)|, HashFor(old(workdir.dir), args, env, noCache), noCache))
      ensures outcome.Ok? && !noCache ==> HashFor(old(workdir.dir), args, env, noCache) in client.results
    {
      var result, cached := Obtain(workdir.dir, args, env, noCache);
      if result.Err? {
        return Err(result.error);
      }
      if result.value.exitCode != 0 {
        return Err(ExecutionFailed);
      }
      var written := MaterializeOutput(result.value, workdir);
      if written.Err? {
        return Err(written.error);
      }
      outcome := Ok(RemoteOutcome(result.value.exitCode, cached));
    }
  }

  predicate Hit(results: map<string, ActionResult>, h: string, noCache: bool) {
    !noCache && h in results
  }

  function Executions(results: map<string, ActionResult>, executed: seq<string>, h: string, noCache: bool): seq<string> {
    if Hit(results, h, noCache) then executed else executed + [h]
  }

  function Answer(p: Protocol, results: map<string, ActionResult>, attempt: nat, h: string, noCache: bool): Result<ActionResult> {
    if Hit(results, h, noCache) then Ok(results[h]) else AnswerOf(p.reply(h, attempt).response)
  }

  /** What answers a run: the cached result, or the result of an execution that
      reports no error. */
  lemma {:induction false} AnswersAre(p: Protocol, results: map<string, ActionResult>, attempt: nat, h: string, noCache: bool)
    ensures
      var r, response := Answer(p, results, attempt, h, noCache), p.reply(h, attempt).response;
      if !noCache && h in results then r == Ok(results[h])
      else if response.statusCode.None? || response.statusCode == Some(0) then
        (match response.result
         case Some(result) => r == Ok(result)
         case None => r == Err(NoOutput))
      else r == Err(ExecutionFailed)
  {
  }

  /** The output of a result is the Tree of its first output directory `w`. */
  lemma {:induction false} OutputTreeIs(p: Protocol, cas: Blobs, result: ActionResult, tree: TreeMessage)
    ensures OutputTree(p, cas, result) == Ok(tree) <==>
            exists i :: 0 <= i < |result.outputs| && IsFirstAt(result.outputs, "w", i)
              && result.outputs[i].tree.Some? && result.outputs[i].tree.value.hash in cas
              && p.decodeTree(cas[result.outputs[i].tree.value.hash]) == Some(tree)
  {
    FirstAtIs(result.outputs, WORK);
  }

  predicate IsFirstAt(outputs: seq<OutputDirectory>, path: string, i: nat)
    requires i < |outputs|
  {
    outputs[i].path == path && forall j :: 0 <= j < i ==> outputs[j].path != path
  }

  lemma {:induction false} FirstAtIs(outputs: seq<OutputDirectory>, path: string)
    ensures FirstAt(outputs, path).None? <==> forall j :: 0 <= j < |outputs| ==> outputs[j].path != path
    ensures forall i :: 0 <= i < |outputs| && IsFirstAt(outputs, path, i) ==> FirstAt(outputs, path) == Some(outputs[i])
    ensures FirstAt(outputs, path).Some? ==> exists i :: 0 <= i < |outputs| && IsFirstAt(outputs, path, i)
  {
    if outputs != [] && outputs[0].path != path {
      FirstAtIs(outputs[1..], path);
      assert forall j :: 0 < j < |outputs| ==> outputs[j] == outputs[1..][j - 1];
      forall i | 0 <= i < |outputs| && IsFirstAt(outputs, path, i) ensures FirstAt(outputs, path) == Some(outputs[i]) {
        assert IsFirstAt(outputs[1..], path, i - 1);
      }
      if FirstAt(outputs, path).Some? {
        var i :| 0 <= i < |outputs[1..]| && IsFirstAt(outputs[1..], path, i);
        assert IsFirstAt(outputs, path, i + 1);
      }
    } else if outputs != [] {
      assert IsFirstAt(outputs, path, 0);
    }
  }

  /** `d` is the directory the result recorded, and the store has all of it. */
  ghost predicate Restored(p: Protocol, cas: Blobs, result: ActionResult, d: Folder) {
    var tree := OutputTree(p, cas, result);
    tree.Ok? && tree.value.root == Message(p.dirs, d) && AllAmong(p.dirs, tree.value.children, d) && FilesIn(p.dirs, cas, d)
  }

  /** How a run that was answered so leaves the working directory: the recorded
      output on success, and untouched if there is no successful answer with a
      readable output. */
  ghost predicate RunEnded(p: Protocol, cas: Blobs, before: Folder, after: Folder, outcome: Result<RemoteOutcome>,
                           answer: Result<ActionResult>) {
    if answer.Err? || answer.value.exitCode != 0 || OutputTree(p, cas, answer.value).Err? then outcome.Err? && after == before
    else if outcome.Ok? then Restored(p, cas, answer.value, after)
    else forall d :: !Restored(p, cas, answer.value, d)
  }

  lemma HashesOfParts(a: seq<StoredBlob>, b: seq<StoredBlob>)
    ensures Hashes(a + b) == Hashes(a) + Hashes(b)
  {
    assert forall x :: x in a + b <==> x in a || x in b;
  }

  lemma {:induction false} OnlyOneRoot(c: Codec, d: Folder, root: Directory)
    requires ValidCodec(c) && root == Message(c, d)
    ensures forall x :: root == Message(c, x) ==> x == d
  {
    forall x | root == Message(c, x) ensures x == d {
      DigestNamesTheDirectory(c, x, d);
    }
  }
}
