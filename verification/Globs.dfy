/** The glob matcher of `replace`, and what it means. */
module Globs {

  /** The recursive matcher.  `**` takes any run of characters, and swallows a
      slash that follows it; `*` takes a run without slashes, found by a loop;
      `?` takes one character other than a slash. */
  predicate GlobRec(p: string, t: string)
    decreases |p|, |t| + 1
  {
    if p == "" then t == ""
    else if p[0] == '*' && |p| > 1 && p[1] == '*' then
      exists i :: 0 <= i <= |t| && GlobRec(AfterDoubleStar(p), t[i..])
    else if p[0] == '*' then StarLoop(p[1..], t)
    else if p[0] == '?' then t != "" && t[0] != '/' && GlobRec(p[1..], t[1..])
    else t != "" && t[0] == p[0] && GlobRec(p[1..], t[1..])
  }

  function AfterDoubleStar(p: string): (rest: string)
    requires |p| > 1
    ensures |rest| < |p|
  {
    if |p| > 2 && p[2] == '/' then p[3..] else p[2..]
  }

  /** The loop of a single `*`, from the text that is left. */
  predicate StarLoop(rest: string, t: string)
    decreases |rest| + 1, |t|
  {
    || GlobRec(rest, t)
    || (t != "" && t[0] != '/' && StarLoop(rest, t[1..]))
  }

  /** The entry point: a leading `**` and slash is also tried dropped. */
  predicate GlobMatch(pattern: string, path: string)
    decreases |pattern|
  {
    || (LeadsWithDirs(pattern) && GlobMatch(pattern[3..], path))
    || GlobRec(pattern, path)
  }

  predicate LeadsWithDirs(p: string) {
    |p| >= 3 && p[0] == '*' && p[1] == '*' && p[2] == '/'
  }

  /** The extra try changes nothing. */
  lemma {:induction false} RetryIsRedundant(pattern: string, path: string)
    ensures GlobMatch(pattern, path) <==> GlobRec(pattern, path)
    decreases |pattern|
  {
    if LeadsWithDirs(pattern) {
      RetryIsRedundant(pattern[3..], path);
      assert path[0..] == path;
      assert AfterDoubleStar(pattern) == pattern[3..];
      assert GlobRec(pattern, path) <==> exists i :: 0 <= i <= |path| && GlobRec(AfterDoubleStar(pattern), path[i..]);
    }
  }

  /** The loop of `*`, with its index, as the program runs it. */
  method StarSearch(rest: string, t: string) returns (r: bool)
    ensures r == StarLoop(rest, t)
  {
    var i := 0;
    assert t[0..] == t;
    while true
      invariant 0 <= i <= |t|
      invariant StarLoop(rest, t) == StarLoop(rest, t[i..])
      decreases |t| - i
    {
      if GlobRec(rest, t[i..]) {
        return true;
      }
      if i >= |t| || t[i] == '/' {
        return false;
      }
      assert t[i..][1..] == t[i + 1..];
      i := i + 1;
    }
  }

  // --- a declarative reading ---

  /** What one piece of a pattern stands for. */
  datatype Token =
    | AnyRun            // `**` or `**/`
    | PlainRun          // `*`
    | OnePlain          // `?`
    | Exactly(c: char)

  function Tokens(p: string): seq<Token>
    decreases |p|
  {
    if p == "" then []
    else if p[0] == '*' && |p| > 1 && p[1] == '*' then [AnyRun] + Tokens(AfterDoubleStar(p))
    else if p[0] == '*' then [PlainRun] + Tokens(p[1..])
    else if p[0] == '?' then [OnePlain] + Tokens(p[1..])
    else [Exactly(p[0])] + Tokens(p[1..])
  }

  predicate Takes(token: Token, run: string) {
    match token
    case AnyRun => true
    case PlainRun => '/' !in run
    case OnePlain => |run| == 1 && run[0] != '/'
    case Exactly(c) => run == [c]
  }

  function Flatten(runs: seq<string>): string {
    if runs == [] then "" else runs[0] + Flatten(runs[1..])
  }

  /** A text cut into one run per token. */
  ghost predicate Explains(tokens: seq<Token>, runs: seq<string>, t: string) {
    && |runs| == |tokens|
    && Flatten(runs) == t
    && forall k :: 0 <= k < |tokens| ==> Takes(tokens[k], runs[k])
  }

  ghost predicate HasCut(tokens: seq<Token>, t: string) {
    exists runs :: Explains(tokens, runs, t)
  }

  /** The matcher accepts exactly the texts that can be cut so. */
  lemma {:induction false} MatchesExactlyTheCuts(pattern: string, path: string)
    ensures GlobMatch(pattern, path) <==> HasCut(Tokens(pattern), path)
  {
    RetryIsRedundant(pattern, path);
    var tokens := Tokens(pattern);
    if GlobRec(pattern, path) {
      var runs := CutOf(pattern, path);
      assert Explains(tokens, runs, path);
    }
    if HasCut(tokens, path) {
      var runs :| Explains(tokens, runs, path);
      CutIsAccepted(pattern, runs, path);
    }
  }

  lemma {:induction false} PrependRun(token: Token, tokens: seq<Token>, run: string, runs: seq<string>, t: string)
    requires Takes(token, run) && Explains(tokens, runs, t)
    ensures Explains([token] + tokens, [run] + runs, run + t)
  {
    assert ([run] + runs)[1..] == runs;
  }

  lemma {:induction false} FirstRun(token: Token, tokens: seq<Token>, runs: seq<string>, t: string)
    requires Explains([token] + tokens, runs, t)
    ensures |runs| > 0 && |runs[0]| <= |t|
    ensures t[..|runs[0]|] == runs[0] && Takes(token, runs[0])
    ensures Explains(tokens, runs[1..], t[|runs[0]|..])
  {
    var all := [token] + tokens;
    assert runs == [runs[0]] + runs[1..];
    assert Takes(all[0], runs[0]);
    assert t == runs[0] + Flatten(runs[1..]);
    forall k | 0 <= k < |tokens| ensures Takes(tokens[k], runs[1..][k]) {
      assert Takes(all[k + 1], runs[k + 1]);
    }
  }

  lemma {:induction false} CutOf(p: string, t: string) returns (runs: seq<string>)
    requires GlobRec(p, t)
    ensures Explains(Tokens(p), runs, t)
    decreases |p|, |t|
  {
    if p == "" {
      runs := [];
    } else if p[0] == '*' && |p| > 1 && p[1] == '*' {
      var i :| 0 <= i <= |t| && GlobRec(AfterDoubleStar(p), t[i..]);
      var rest := CutOf(AfterDoubleStar(p), t[i..]);
      PrependRun(AnyRun, Tokens(AfterDoubleStar(p)), t[..i], rest, t[i..]);
      assert t == t[..i] + t[i..];
      runs := [t[..i]] + rest;
    } else if p[0] == '*' {
      var i := StarStop(p[1..], t);
      var rest := CutOf(p[1..], t[i..]);
      PrependRun(PlainRun, Tokens(p[1..]), t[..i], rest, t[i..]);
      assert t == t[..i] + t[i..];
      runs := [t[..i]] + rest;
    } else {
      var rest := CutOf(p[1..], t[1..]);
      var token := if p[0] == '?' then OnePlain else Exactly(p[0]);
      PrependRun(token, Tokens(p[1..]), [t[0]], rest, t[1..]);
      assert t == [t[0]] + t[1..];
      runs := [[t[0]]] + rest;
    }
  }

  /** Where the loop of `*` stops on success. */
  lemma {:induction false} StarStop(rest: string, t: string) returns (i: nat)
    requires StarLoop(rest, t)
    ensures i <= |t| && '/' !in t[..i] && GlobRec(rest, t[i..])
    decreases |t|
  {
    if GlobRec(rest, t) {
      i := 0;
      assert t[0..] == t;
    } else {
      var j := StarStop(rest, t[1..]);
      i := j + 1;
      assert t[..i] == [t[0]] + t[1..][..j];
      assert t[i..] == t[1..][j..];
    }
  }

  lemma {:induction false} StarReaches(rest: string, t: string, i: nat)
    requires i <= |t| && '/' !in t[..i] && GlobRec(rest, t[i..])
    ensures StarLoop(rest, t)
    decreases i
  {
    if i == 0 {
      assert t[0..] == t;
    } else {
      assert t[..i] == [t[0]] + t[1..][..i - 1];
      assert t[i..] == t[1..][i - 1..];
      StarReaches(rest, t[1..], i - 1);
    }
  }

  lemma {:induction false} CutIsAccepted(p: string, runs: seq<string>, t: string)
    requires Explains(Tokens(p), runs, t)
    ensures GlobRec(p, t)
    decreases |p|
  {
    if p != "" {
      if p[0] == '*' && |p| > 1 && p[1] == '*' {
        FirstRun(AnyRun, Tokens(AfterDoubleStar(p)), runs, t);
        CutIsAccepted(AfterDoubleStar(p), runs[1..], t[|runs[0]|..]);
      } else if p[0] == '*' {
        FirstRun(PlainRun, Tokens(p[1..]), runs, t);
        CutIsAccepted(p[1..], runs[1..], t[|runs[0]|..]);
        StarReaches(p[1..], t, |runs[0]|);
      } else {
        var token := if p[0] == '?' then OnePlain else Exactly(p[0]);
        FirstRun(token, Tokens(p[1..]), runs, t);
        assert t[..1] == runs[0] && t[0] == runs[0][0];
        CutIsAccepted(p[1..], runs[1..], t[1..]);
      }
    }
  }

  // --- slashes ---

  function Slashes(s: string): nat {
    if s == "" then 0 else (if s[0] == '/' then 1 else 0) + Slashes(s[1..])
  }

  predicate NoAdjacentStars(p: string) {
    forall k :: 0 <= k < |p| - 1 ==> !(p[k] == '*' && p[k + 1] == '*')
  }

  /** A pattern without adjacent stars matches only paths at its own depth. */
  lemma {:induction false} MatchesAtTheSameDepth(pattern: string, path: string)
    requires NoAdjacentStars(pattern) && GlobMatch(pattern, path)
    ensures Slashes(path) == Slashes(pattern)
  {
    RetryIsRedundant(pattern, path);
    DepthOfMatch(pattern, path);
  }

  lemma {:induction false} DepthOfMatch(p: string, t: string)
    requires NoAdjacentStars(p) && GlobRec(p, t)
    ensures Slashes(t) == Slashes(p)
    decreases |p|
  {
    if p != "" {
      assert NoAdjacentStars(p[1..]) by {
        forall k | 0 <= k < |p[1..]| - 1 ensures !(p[1..][k] == '*' && p[1..][k + 1] == '*') {
          assert p[1..][k] == p[k + 1] && p[1..][k + 1] == p[k + 2];
        }
      }
      if p[0] == '*' {
        assert |p| > 1 ==> p[1] != '*';
        var i := StarStop(p[1..], t);
        DepthOfMatch(p[1..], t[i..]);
        SlashesConcat(t[..i], t[i..]);
        NoSlashes(t[..i]);
        assert t == t[..i] + t[i..];
      } else {
        DepthOfMatch(p[1..], t[1..]);
      }
    }
  }

  lemma {:induction false} SlashesConcat(a: string, b: string)
    ensures Slashes(a + b) == Slashes(a) + Slashes(b)
  {
    if a == "" {
      assert a + b == b;
    } else {
      assert (a + b)[1..] == a[1..] + b;
      SlashesConcat(a[1..], b);
    }
  }

  lemma {:induction false} NoSlashes(s: string)
    requires '/' !in s
    ensures Slashes(s) == 0
  {
    if s != "" {
      NoSlashes(s[1..]);
    }
  }
}
