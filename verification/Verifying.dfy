/** The verify and retry loop around an agent, and what it keeps out of the
    agent cache. */
module Verifying {
  import opened Wrappers
  import opened Trees
  import opened Paths
  import opened Worlds
  import opened Agents
  import opened TipLayers

  /** The agent inside the loop; its answer may depend on the run and on the
      attempt. */
  type InnerAgent = (nat, nat, AgentInvocation, string, Tree) -> Option<Tree>

  /** A verifier judges a working directory, leaves it alone, and reports. */
  datatype Verdict = Verdict(ok: bool, output: string)
  type Verifier = Tree -> Verdict

  datatype VerifyingRunner = VerifyingRunner(inner: InnerAgent, verifier: Verifier, command: string, maxRetries: nat)

  function Decimal(n: nat): string {
    if n < 10 then [n as char + '0'] else Decimal(n / 10) + [(n % 10) as char + '0']
  }

  /** The prompt of a retry: the original one and the latest failure. */
  function RetryPrompt(prompt: string, command: string, attempts: nat, output: string): string {
    prompt + "\n\n--- VERIFIER FAILED (attempt " + Decimal(attempts) + ") ---\n" + output
    + "\nFix the code so the verifier (`" + command + "`) passes."
  }

  /** One attempt that reached the verifier. */
  datatype Try = Try(prompt: string, before: Tree, after: Tree, verdict: Verdict)

  /** The attempts from number `k` on. */
  function TriesFrom(v: VerifyingRunner, run: nat, inv: AgentInvocation, prompt: string, k: nat, current: string, dir: Tree): seq<Try>
    requires k <= v.maxRetries
    decreases v.maxRetries - k
  {
    match v.inner(run, k, inv, current, dir)
    case None => []
    case Some(after) =>
      var verdict := v.verifier(after);
      [Try(current, dir, after, verdict)]
      + if verdict.ok || k == v.maxRetries then []
        else TriesFrom(v, run, inv, prompt, k + 1, RetryPrompt(prompt, v.command, k + 1, verdict.output), after)
  }

  function Tries(v: VerifyingRunner, run: nat, inv: AgentInvocation, prompt: string, dir: Tree): seq<Try> {
    TriesFrom(v, run, inv, prompt, 0, prompt, dir)
  }

  /** A run succeeds with the state its last attempt left, if that was accepted. */
  function Outcome(tries: seq<Try>): Option<Tree> {
    if tries != [] && tries[|tries| - 1].verdict.ok then Some(tries[|tries| - 1].after) else None
  }

  /** One attempt of the loop, seen from the attempts that remain. */
  lemma {:induction false} OneAttempt(v: VerifyingRunner, run: nat, inv: AgentInvocation, prompt: string, k: nat, current: string, dir: Tree)
    requires k <= v.maxRetries
    ensures
      var tries := TriesFrom(v, run, inv, prompt, k, current, dir);
      match v.inner(run, k, inv, current, dir)
      case None => Outcome(tries) == None
      case Some(after) =>
        var verdict := v.verifier(after);
        if verdict.ok then Outcome(tries) == Some(after)
        else if k == v.maxRetries then Outcome(tries) == None
        else Outcome(tries) == Outcome(TriesFrom(v, run, inv, prompt, k + 1, RetryPrompt(prompt, v.command, k + 1, verdict.output), after))
  {
  }

  /** The loop: run the agent, verify, and on failure try again with the latest
      output, up to `maxRetries` times more. */
  method Run(v: VerifyingRunner, run: nat, inv: AgentInvocation, prompt: string, dir: Tree) returns (r: Option<Tree>)
    ensures r == Outcome(Tries(v, run, inv, prompt, dir))
  {
    var current := prompt;
    var workdir := dir;
    var attempt := 0;
    while true
      invariant attempt <= v.maxRetries
      invariant Outcome(Tries(v, run, inv, prompt, dir)) == Outcome(TriesFrom(v, run, inv, prompt, attempt, current, workdir))
      decreases v.maxRetries - attempt
    {
      OneAttempt(v, run, inv, prompt, attempt, current, workdir);
      var edited := v.inner(run, attempt, inv, current, workdir);
      if edited.None? {
        return None;
      }
      workdir := edited.value;
      var verdict := v.verifier(workdir);
      if verdict.ok {
        return Some(workdir);
      }
      if attempt == v.maxRetries {
        return None;
      }
      current := RetryPrompt(prompt, v.command, attempt + 1, verdict.output);
      attempt := attempt + 1;
    }
  }

  /** The attempts, one by one: at most `maxRetries + 1` of them; each starts
      where the one before stopped, and each retry prompt is the original prompt
      with the latest failure and no other; all but the last were rejected. */
  lemma {:induction false} TriesAreLinked(v: VerifyingRunner, run: nat, inv: AgentInvocation, prompt: string, k: nat, current: string, dir: Tree, i: nat)
    requires k <= v.maxRetries && i < |TriesFrom(v, run, inv, prompt, k, current, dir)|
    ensures
      var tries := TriesFrom(v, run, inv, prompt, k, current, dir);
      && |tries| <= v.maxRetries + 1 - k
      && tries[i].verdict == v.verifier(tries[i].after)
      && v.inner(run, k + i, inv, tries[i].prompt, tries[i].before) == Some(tries[i].after)
      && (i == 0 ==> tries[i].prompt == current && tries[i].before == dir)
      && (i > 0 ==>
            && !tries[i - 1].verdict.ok
            && tries[i].before == tries[i - 1].after
            && tries[i].prompt == RetryPrompt(prompt, v.command, k + i, tries[i - 1].verdict.output))
    decreases v.maxRetries - k
  {
    var after := v.inner(run, k, inv, current, dir).value;
    var verdict := v.verifier(after);
    if !verdict.ok && k < v.maxRetries {
      var next := RetryPrompt(prompt, v.command, k + 1, verdict.output);
      var rest := TriesFrom(v, run, inv, prompt, k + 1, next, after);
      var tries := TriesFrom(v, run, inv, prompt, k, current, dir);
      assert tries == [Try(current, dir, after, verdict)] + rest;
      if rest != [] {
        var j := if i == 0 then 0 else i - 1;
        TriesAreLinked(v, run, inv, prompt, k + 1, next, after, j);
        assert i > 0 ==> tries[i] == rest[j];
        assert i > 1 ==> tries[i - 1] == rest[j - 1];
      }
    }
  }

  // --- what a retry is told ---

  /** The number that decimal digits denote. */
  function DecimalValue(digits: string): int {
    if digits == "" then 0 else 10 * DecimalValue(digits[..|digits| - 1]) + digits[|digits| - 1] as int - '0' as int
  }

  /** Numbers are written in decimal digits. */
  lemma {:induction false} DecimalReads(n: nat)
    ensures Decimal(n) != "" && (forall c <- Decimal(n) :: '0' <= c <= '9') && DecimalValue(Decimal(n)) == n
    ensures n > 0 ==> Decimal(n)[0] != '0'
  {
    if n >= 10 {
      DecimalReads(n / 10);
      var last := (n % 10) as char + '0';
      assert Decimal(n) == Decimal(n / 10) + [last];
      assert Decimal(n)[..|Decimal(n)| - 1] == Decimal(n / 10);
    } else {
      var d := Decimal(n);
      assert d[..|d| - 1] == "" && DecimalValue("") == 0;
    }
  }

  /** The prompt of every retry is the original prompt, then the number of the
      attempt that failed, the whole output of its verifier, and the command. */
  lemma {:induction false} RetriesAreToldTheFailure(v: VerifyingRunner, run: nat, inv: AgentInvocation, prompt: string, dir: Tree, i: nat)
    requires 0 < i < |Tries(v, run, inv, prompt, dir)|
    ensures
      var tries := Tries(v, run, inv, prompt, dir);
      tries[i].prompt == prompt + ("\n\n--- VERIFIER FAILED (attempt " + Decimal(i) + ") ---\n") + tries[i - 1].verdict.output
                         + ("\nFix the code so the verifier (`" + v.command + "`) passes.")
  {
    TriesAreLinked(v, run, inv, prompt, 0, prompt, dir, i);
    var output := Tries(v, run, inv, prompt, dir)[i - 1].verdict.output;
    Regrouped(prompt, "\n\n--- VERIFIER FAILED (attempt ", Decimal(i), ") ---\n", output, "\nFix the code so the verifier (`", v.command, "`) passes.");
  }

  lemma Regrouped<T>(a: seq<T>, b: seq<T>, c: seq<T>, d: seq<T>, e: seq<T>, f: seq<T>, g: seq<T>, h: seq<T>)
    ensures a + b + c + d + e + f + g + h == a + (b + c + d) + e + (f + g + h)
  {
  }

  /** Two retries of one number, prompt and command, whatever their agents did
      before, have the same prompt exactly when the latest outputs are the same. */
  lemma {:induction false} RetryPromptsTellTheFailure(v: VerifyingRunner, run: nat, inv: AgentInvocation, dir: Tree,
                                                      v': VerifyingRunner, run': nat, inv': AgentInvocation, dir': Tree, prompt: string, i: nat)
    requires v.command == v'.command
    requires 0 < i < |Tries(v, run, inv, prompt, dir)| && i < |Tries(v', run', inv', prompt, dir')|
    ensures
      var tries, tries' := Tries(v, run, inv, prompt, dir), Tries(v', run', inv', prompt, dir');
      tries[i].prompt == tries'[i].prompt <==> tries[i - 1].verdict.output == tries'[i - 1].verdict.output
  {
    RetriesAreToldTheFailure(v, run, inv, prompt, dir, i);
    RetriesAreToldTheFailure(v', run', inv', prompt, dir', i);
    SameEnds(prompt + ("\n\n--- VERIFIER FAILED (attempt " + Decimal(i) + ") ---\n"),
             Tries(v, run, inv, prompt, dir)[i - 1].verdict.output, Tries(v', run', inv', prompt, dir')[i - 1].verdict.output,
             "\nFix the code so the verifier (`" + v.command + "`) passes.");
  }

  lemma SameEnds<T>(a: seq<T>, x: seq<T>, y: seq<T>, b: seq<T>)
    ensures a + x + b == a + y + b <==> x == y
  {
    if a + x + b == a + y + b {
      assert |x| == |y|;
      assert x == (a + x + b)[|a|..|a| + |x|];
      assert y == (a + y + b)[|a|..|a| + |y|];
    }
  }

  /** A run that fails has used all its attempts, or its agent failed on the next. */
  lemma {:induction false} FailuresAreComplete(v: VerifyingRunner, run: nat, inv: AgentInvocation, prompt: string, k: nat, current: string, dir: Tree)
    requires k <= v.maxRetries && Outcome(TriesFrom(v, run, inv, prompt, k, current, dir)) == None
    ensures
      var tries := TriesFrom(v, run, inv, prompt, k, current, dir);
      var n := |tries|;
      || n == v.maxRetries + 1 - k
      || (n == 0 && v.inner(run, k, inv, current, dir) == None)
      || (0 < n <= v.maxRetries - k
          && v.inner(run, k + n, inv, RetryPrompt(prompt, v.command, k + n, tries[n - 1].verdict.output), tries[n - 1].after) == None)
    decreases v.maxRetries - k
  {
    if v.inner(run, k, inv, current, dir).Some? {
      var after := v.inner(run, k, inv, current, dir).value;
      var verdict := v.verifier(after);
      if !verdict.ok && k < v.maxRetries {
        var next := RetryPrompt(prompt, v.command, k + 1, verdict.output);
        var rest := TriesFrom(v, run, inv, prompt, k + 1, next, after);
        assert TriesFrom(v, run, inv, prompt, k, current, dir) == [Try(current, dir, after, verdict)] + rest;
        OneAttempt(v, run, inv, prompt, k, current, dir);
        FailuresAreComplete(v, run, inv, prompt, k + 1, next, after);
      }
    }
  }

  /** A run ends in a state the verifier accepts, after at most `maxRetries + 1`
      attempts of the agent. */
  lemma {:induction false} RunsEndVerified(v: VerifyingRunner, run: nat, inv: AgentInvocation, prompt: string, dir: Tree)
    requires Outcome(Tries(v, run, inv, prompt, dir)).Some?
    ensures v.verifier(Outcome(Tries(v, run, inv, prompt, dir)).value).ok
    ensures |Tries(v, run, inv, prompt, dir)| <= v.maxRetries + 1
  {
    TriesAreLinked(v, run, inv, prompt, 0, prompt, dir, |Tries(v, run, inv, prompt, dir)| - 1);
  }

  // --- what reaches the cache ---

  /** The loop as a runner of the tip layer. */
  function AsRunner(v: VerifyingRunner): Runner {
    (run: nat, inv: AgentInvocation, prompt: string, dir: Tree) => Outcome(Tries(v, run, inv, prompt, dir))
  }

  /** The patch of a run of this agent on the subtree of the key, which ended
      within the bound in a state the verifier accepted. */
  ghost predicate ComesFrom(w: World, v: VerifyingRunner, key: CacheKey, patch: Bytes, run: nat, prompt: string, inv: AgentInvocation) {
    var tries := Tries(v, run, inv, prompt, Checkout(key.subtree));
    && key == KeyOf(key.subtree, prompt, inv)
    && |tries| <= v.maxRetries + 1
    && Outcome(tries).Some? && v.verifier(Outcome(tries).value).ok
    && patch == DiffTrees(w, key.subtree, ReadBack(Outcome(tries).value))
  }

  ghost predicate LeadsToAccepted(w: World, v: VerifyingRunner, key: CacheKey, patch: Bytes) {
    exists run, prompt, inv :: ComesFrom(w, v, key, patch, run, prompt, inv)
  }

  ghost predicate OnlyAcceptedSince(w: World, v: VerifyingRunner, start: map<CacheKey, Bytes>, cache: map<CacheKey, Bytes>) {
    forall key <- cache :: (key in start && start[key] == cache[key]) || LeadsToAccepted(w, v, key, cache[key])
  }

  lemma {:induction false} MaterializeCachesAccepted(w: World, v: VerifyingRunner, start: map<CacheKey, Bytes>, before: Tree, prompt: string,
                                                     inv: AgentInvocation, refresh: bool, st: AgentState)
    requires OnlyAcceptedSince(w, v, start, st.cache)
    ensures OnlyAcceptedSince(w, v, start, Materialize(w, before, prompt, inv, AsRunner(v), refresh, st).1.cache)
    ensures Materialize(w, before, prompt, inv, AsRunner(v), refresh, st).0.Err? ==>
              Materialize(w, before, prompt, inv, AsRunner(v), refresh, st).1.cache == st.cache
  {
    var edited := AsRunner(v)(st.calls, inv, prompt, Checkout(before));
    if edited.Some? {
      RunsEndVerified(v, st.calls, inv, prompt, Checkout(before));
      assert ComesFrom(w, v, KeyOf(before, prompt, inv), DiffTrees(w, before, ReadBack(edited.value)), st.calls, prompt, inv);
    }
  }

  /** Only verified states are cached: every entry a tip layer adds, finished or
      not, refreshed or not, is the diff of a bounded run on the subtree and with
      the prompt and agent of its key, to the state that run's verifier accepted. */
  lemma {:induction false} LayerCachesAccepted(env: LayerEnv, v: VerifyingRunner, tips: seq<TipTransform>, mirrorTip: Commit, st: AgentState)
    requires IsRelPath(env.dest) && env.runner == AsRunner(v)
    ensures OnlyAcceptedSince(env.w, v, st.cache, LayerOn(env, tips, mirrorTip, st).agents.cache)
    decreases |tips|
  {
    if tips != [] {
      LayerCachesAccepted(env, v, tips[..|tips| - 1], mirrorTip, st);
      StepCachesAccepted(env, v, st.cache, tips[|tips| - 1], LayerOn(env, tips[..|tips| - 1], mirrorTip, st));
    }
  }

  lemma {:induction false} StepCachesAccepted(env: LayerEnv, v: VerifyingRunner, start: map<CacheKey, Bytes>, tip: TipTransform, run: TipRun)
    requires IsRelPath(env.dest) && env.runner == AsRunner(v)
    requires OnlyAcceptedSince(env.w, v, start, run.agents.cache)
    ensures OnlyAcceptedSince(env.w, v, start, TipStep(env, tip, run).agents.cache)
  {
    if run.outcome.Ok? && tip.AgentTip? {
      var before := SubtreeAt(run.outcome.value.head.tree, Segments(env.dest));
      if before.Some? {
        MaterializeCachesAccepted(env.w, v, start, before.value, RenderPrompt(tip.inv.prompt, env.ctx), tip.inv, env.refresh, run.agents);
      }
    }
  }

  /** Patches do what diffs say, and only equal trees have none. */
  ghost predicate FaithfulDiffs(w: World) {
    forall a, b :: w.applyPatch(a, w.diff(a, b)) == Some(b) && (a != b ==> w.diff(a, b) != [])
  }

  /** Committing the diff to `accepted` leaves `accepted` at the destination. */
  lemma {:induction false} DiffIsCommitted(env: LayerEnv, inv: AgentInvocation, o: TipOutcome, accepted: Tree)
    requires IsRelPath(env.dest) && FaithfulDiffs(env.w) && SubtreeAt(o.head.tree, Segments(env.dest)).Some?
    ensures
      var r := CommitAgentPatch(env, inv, o, DiffTrees(env.w, SubtreeAt(o.head.tree, Segments(env.dest)).value, accepted));
      r.Ok? && SubtreeAt(r.value.head.tree, Segments(env.dest)) == Some(accepted)
  {
    var before := SubtreeAt(o.head.tree, Segments(env.dest)).value;
    if before != accepted {
      assert env.w.applyPatch(before, env.w.diff(before, accepted)) == Some(accepted);
      SpliceThenRead(o.head.tree, Segments(env.dest), accepted, []);
    }
  }

  /** With a cache of accepted states, an agent step leaves at the destination the
      state a bounded run under the same key was accepted with, read back. */
  lemma {:induction false} StepHoldsTheAccepted(env: LayerEnv, v: VerifyingRunner, inv: AgentInvocation, o: TipOutcome, st: AgentState)
      returns (run: nat, prompt: string, agent: AgentInvocation)
    requires IsRelPath(env.dest) && env.runner == AsRunner(v) && FaithfulDiffs(env.w)
    requires OnlyAcceptedSince(env.w, v, map[], st.cache)
    requires AgentStep(env, inv, o, st).outcome.Ok?
    ensures
      var before := SubtreeAt(o.head.tree, Segments(env.dest)).value;
      var tries := Tries(v, run, agent, prompt, Checkout(before));
      && KeyOf(before, prompt, agent) == KeyOf(before, RenderPrompt(inv.prompt, env.ctx), inv)
      && |tries| <= v.maxRetries + 1
      && Outcome(tries).Some? && v.verifier(Outcome(tries).value).ok
      && SubtreeAt(AgentStep(env, inv, o, st).outcome.value.head.tree, Segments(env.dest)) == Some(ReadBack(Outcome(tries).value))
  {
    var before := SubtreeAt(o.head.tree, Segments(env.dest)).value;
    var rendered := RenderPrompt(inv.prompt, env.ctx);
    var key := KeyOf(before, rendered, inv);
    MaterializeCachesAccepted(env.w, v, map[], before, rendered, inv, env.refresh, st);
    var (m, after) := Materialize(env.w, before, rendered, inv, env.runner, env.refresh, st);
    assert key in after.cache && after.cache[key] == m.value.patch;
    assert LeadsToAccepted(env.w, v, key, m.value.patch);
    run, prompt, agent :| ComesFrom(env.w, v, key, m.value.patch, run, prompt, agent);
    DiffIsCommitted(env, inv, Tally(o, m.value.hit), ReadBack(Outcome(Tries(v, run, agent, prompt, Checkout(before))).value));
  }

  // --- agents that change nothing ---

  /** An agent that runs and leaves the directory alone makes no commit exactly
      on editable trees, when unequal trees have a diff. */
  lemma {:induction false} IdleAgentMakesNoCommit(env: LayerEnv, inv: AgentInvocation, o: TipOutcome, st: AgentState)
    requires IsRelPath(env.dest) && SubtreeAt(o.head.tree, Segments(env.dest)).Some?
    requires env.refresh
      || KeyOf(SubtreeAt(o.head.tree, Segments(env.dest)).value, RenderPrompt(inv.prompt, env.ctx), inv) !in st.cache
    requires forall run, i, prompt, dir :: env.runner(run, i, prompt, dir) == Some(dir)
    requires forall a, b :: a != b ==> env.w.diff(a, b) != []
    ensures
      var run := AgentStep(env, inv, o, st);
      (run.outcome.Ok? && run.outcome.value.head == o.head) <==> Editable(SubtreeAt(o.head.tree, Segments(env.dest)).value)
  {
    var before := SubtreeAt(o.head.tree, Segments(env.dest)).value;
    CheckoutRoundTrip(before);
    var prompt := RenderPrompt(inv.prompt, env.ctx);
    assert env.runner(st.calls, inv, prompt, Checkout(before)) == Some(Checkout(before));
    var run := AgentStep(env, inv, o, st);
    if !Editable(before) && run.outcome.Ok? {
      NotItsOwnParent(run.outcome.value.head, o.head);
    }
  }

  lemma NotItsOwnParent(c: Commit, parent: Commit)
    requires c.parents == [parent]
    ensures c != parent
  {
    assert c.parents[0] == parent;
  }
}
