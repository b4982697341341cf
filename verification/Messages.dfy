/** What a message becomes on its way through the engine, said of the texts
    themselves: where a literal is replaced, which lines are stripped, what is
    added, and what stands before the trailers. */
module Messages {
  import opened Wrappers
  import opened Text
  import opened Trailers
  import opened Worlds
  import opened Transforms

  // --- literal replacement ---

  /** In the piece followed by `before`, the first `before` is the final one. */
  predicate EndsAtTheFirst(piece: string, before: string) {
    forall i :: 0 <= i < |piece| ==> !(before <= (piece + before)[i..])
  }

  predicate Lacks(piece: string, before: string) {
    forall i :: 0 <= i <= |piece| ==> !(before <= piece[i..])
  }

  /** `s` cut at every occurrence of `before`, from the left without overlap; an
      empty text occurs around every character. */
  predicate IsCut(pieces: seq<string>, s: string, before: string) {
    && pieces != [] && Join(pieces, before) == s
    && if before == "" then
         && |pieces| == |s| + 2 && pieces[0] == "" && pieces[|s| + 1] == ""
         && forall k :: 0 <= k < |s| ==> pieces[k + 1] == [s[k]]
       else
         && (forall k :: 0 <= k < |pieces| - 1 ==> EndsAtTheFirst(pieces[k], before))
         && Lacks(pieces[|pieces| - 1], before)
  }

  /** `r` is `s` with `after` at every such cut. */
  ghost predicate Replaced(s: string, before: string, after: string, r: string) {
    exists pieces :: IsCut(pieces, s, before) && r == Join(pieces, after)
  }

  /** A literal replacement puts `after` at every cut and leaves the pieces. */
  lemma {:induction false} ReplaceTextReplaces(s: string, before: string, after: string)
    ensures Replaced(s, before, after, ReplaceText(s, before, after))
  {
    if before == "" {
      var pieces := ReplaceNothing(s, after);
    } else {
      var pieces := ReplaceCuts(s, before, after);
    }
  }

  lemma {:induction false} ReplaceNothing(s: string, after: string) returns (pieces: seq<string>)
    ensures IsCut(pieces, s, "") && ReplaceText(s, "", after) == Join(pieces, after)
    decreases |s|
  {
    if s == "" {
      pieces := ["", ""];
      assert pieces[1..] == [""];
    } else {
      var rest := ReplaceNothing(s[1..], after);
      pieces := [""] + ([[s[0]]] + rest[1..]);
      JoinTwoInFront([s[0]], rest, after);
      JoinTwoInFront([s[0]], rest, "");
      assert s == [s[0]] + s[1..];
    }
  }

  lemma {:induction false} JoinTwoInFront(c: string, rest: seq<string>, separator: string)
    requires |rest| > 1 && rest[0] == ""
    ensures Join([""] + ([c] + rest[1..]), separator) == separator + c + Join(rest, separator)
  {
    JoinMore("", [c] + rest[1..], separator);
    JoinMore(c, rest[1..], separator);
    assert Join(rest, separator) == "" + separator + Join(rest[1..], separator);
  }

  lemma {:induction false} ReplaceCuts(s: string, before: string, after: string) returns (pieces: seq<string>)
    requires before != ""
    ensures IsCut(pieces, s, before) && ReplaceText(s, before, after) == Join(pieces, after)
    decreases |s|
  {
    if StartsWith(s, before) {
      var rest := ReplaceCuts(s[|before|..], before, after);
      pieces := [""] + rest;
      OccurrenceInFront(s, before, rest);
      JoinMore("", rest, after);
    } else if s == "" {
      pieces := [""];
    } else {
      var rest := ReplaceCuts(s[1..], before, after);
      pieces := [[s[0]] + rest[0]] + rest[1..];
      JoinLongerFirst(s[0], rest, before);
      JoinLongerFirst(s[0], rest, after);
      assert s == [s[0]] + s[1..];
      FirstPieceGrows(s, before, rest);
    }
  }

  lemma {:induction false} OccurrenceInFront(s: string, before: string, rest: seq<string>)
    requires before != "" && StartsWith(s, before) && IsCut(rest, s[|before|..], before)
    ensures IsCut([""] + rest, s, before)
  {
    JoinMore("", rest, before);
    assert s == before + s[|before|..];
    var pieces := [""] + rest;
    forall k | 0 <= k < |pieces| - 1 ensures EndsAtTheFirst(pieces[k], before) {
      assert k > 0 ==> pieces[k] == rest[k - 1];
    }
  }

  lemma {:induction false} JoinLongerFirst(c: char, parts: seq<string>, separator: string)
    requires parts != []
    ensures Join([[c] + parts[0]] + parts[1..], separator) == [c] + Join(parts, separator)
  {
    if |parts| > 1 {
      JoinMore([c] + parts[0], parts[1..], separator);
    }
  }

  /** One character that starts no occurrence goes to the first piece. */
  lemma {:induction false} FirstPieceGrows(s: string, before: string, rest: seq<string>)
    requires before != "" && s != "" && !StartsWith(s, before) && IsCut(rest, s[1..], before)
    ensures
      var pieces := [[s[0]] + rest[0]] + rest[1..];
      && (forall k :: 0 <= k < |pieces| - 1 ==> EndsAtTheFirst(pieces[k], before))
      && Lacks(pieces[|pieces| - 1], before)
  {
    var first := [s[0]] + rest[0];
    if |rest| == 1 {
      assert first == s;
      forall i | 0 <= i <= |first| ensures !(before <= first[i..]) {
        if i > 0 {
          assert first[i..] == rest[0][i - 1..];
        } else {
          assert first[0..] == s;
        }
      }
    } else {
      assert rest == [rest[0]] + rest[1..];
      JoinMore(rest[0], rest[1..], before);
      assert s == (first + before) + Join(rest[1..], before);
      forall i | 0 <= i < |first| ensures !(before <= (first + before)[i..]) {
        if i > 0 {
          assert (first + before)[i..] == (rest[0] + before)[i - 1..];
        } else {
          assert (first + before)[0..] <= s;
        }
      }
    }
  }

  // --- lines ---

  /** The lines of a text, one after the other. */
  lemma {:induction false} LinesByLine(line: string, rest: string)
    requires '\n' !in line
    ensures Lines(line + "\n" + rest) == [if line != "" && line[|line| - 1] == '\r' then line[..|line| - 1] else line] + Lines(rest)
    ensures Lines(line) == if line == "" then [] else [line]
  {
    LinesConcat(line + "\n", rest);
    LinesOfOne(line);
    IndexOfConcat(line, "", '\n');
    assert line + "" == line;
  }

  /** `kept` is what is left of the lines, in order: those at the positions
      `at`, which are all but the ones that start with a key and a colon. */
  predicate Goes(line: string, keys: seq<string>) {
    exists key <- keys :: key + ":" <= Trim(line)
  }

  ghost predicate Keeps(kept: seq<string>, lines: seq<string>, keys: seq<string>, at: seq<nat>) {
    && |at| == |kept|
    && (forall a, b :: 0 <= a < b < |at| ==> at[a] < at[b])
    && (forall a :: 0 <= a < |at| ==> at[a] < |lines| && kept[a] == lines[at[a]])
    && KeepsAllBut(lines, keys, at)
  }

  predicate KeepsAllBut(lines: seq<string>, keys: seq<string>, at: seq<nat>) {
    forall j: nat :: j < |lines| ==> (j in at <==> !Goes(lines[j], keys))
  }

  lemma {:induction false} KeptLinesAre(lines: seq<string>, keys: seq<string>) returns (at: seq<nat>)
    ensures Keeps(KeptLines(lines, keys), lines, keys, at)
    decreases |lines|
  {
    if lines == [] {
      at := [];
    } else {
      var n := |lines| - 1;
      var kept := KeptLines(lines[..n], keys);
      at := KeptLinesAre(lines[..n], keys);
      assert lines == lines[..n] + [lines[n]];
      OneLineMore(lines[..n], lines[n], keys);
      StrippedExactly(lines[n], keys);
      if IsStripped(lines[n], keys) {
        assert kept + [] == kept;
        KeepsNoMore(kept, lines, keys, at);
      } else {
        KeepsOneMore(kept, lines, keys, at);
        at := at + [n];
      }
    }
  }

  lemma {:induction false} OneLineMore(lines: seq<string>, last: string, keys: seq<string>)
    ensures KeptLines(lines + [last], keys) == KeptLines(lines, keys) + if IsStripped(last, keys) then [] else [last]
  {
    var end := if IsStripped(last, keys) then [] else [last];
    if lines == [] {
      assert [last][1..] == [] && [] + [last] == [last];
      assert KeptLines([], keys) == [] && end + [] == end;
    } else {
      var all := lines + [last];
      assert all[1..] == lines[1..] + [last] && all[0] == lines[0];
      OneLineMore(lines[1..], last, keys);
      AppendAssociates(if IsStripped(lines[0], keys) then [] else [lines[0]], KeptLines(lines[1..], keys), end);
    }
  }

  lemma {:induction false} KeepsNoMore(kept: seq<string>, lines: seq<string>, keys: seq<string>, at: seq<nat>)
    requires lines != [] && Keeps(kept, lines[..|lines| - 1], keys, at) && Goes(lines[|lines| - 1], keys)
    ensures Keeps(kept, lines, keys, at)
  {
    var n := |lines| - 1;
    assert forall a :: 0 <= a < |at| ==> at[a] < n && lines[..n][at[a]] == lines[at[a]];
    assert forall x <- at :: x < n;
    NoneBehind(lines, keys, at);
  }

  lemma {:induction false} NoneBehind(lines: seq<string>, keys: seq<string>, at: seq<nat>)
    requires lines != [] && KeepsAllBut(lines[..|lines| - 1], keys, at) && Goes(lines[|lines| - 1], keys)
    requires forall x <- at :: x < |lines| - 1
    ensures KeepsAllBut(lines, keys, at)
  {
    var n := |lines| - 1;
    forall j: nat | j < |lines| ensures j in at <==> !Goes(lines[j], keys) {
      if j == n {
        assert j !in at;
      } else {
        var earlier := lines[..n];
        assert earlier[j] == lines[j];
        assert j in at <==> !Goes(earlier[j], keys);
      }
    }
  }

  lemma {:induction false} KeepsOneMore(kept: seq<string>, lines: seq<string>, keys: seq<string>, at: seq<nat>)
    requires lines != [] && Keeps(kept, lines[..|lines| - 1], keys, at) && !Goes(lines[|lines| - 1], keys)
    ensures Keeps(kept + [lines[|lines| - 1]], lines, keys, at + [|lines| - 1])
  {
    var n := |lines| - 1;
    assert forall a :: 0 <= a < |at| ==> at[a] < n && lines[..n][at[a]] == lines[at[a]];
    assert forall x <- at :: x < n;
    OneBehind(lines, keys, at);
  }

  lemma {:induction false} OneBehind(lines: seq<string>, keys: seq<string>, at: seq<nat>)
    requires lines != [] && KeepsAllBut(lines[..|lines| - 1], keys, at) && !Goes(lines[|lines| - 1], keys)
    requires forall x <- at :: x < |lines| - 1
    ensures KeepsAllBut(lines, keys, at + [|lines| - 1])
  {
    var n := |lines| - 1;
    var all := at + [n];
    forall j: nat | j < |lines| ensures j in all <==> !Goes(lines[j], keys) {
      if j == n {
        assert all[|at|] == j;
      } else {
        var earlier := lines[..n];
        assert earlier[j] == lines[j];
        assert j in at <==> !Goes(earlier[j], keys);
        assert j in all <==> j in at;
      }
    }
  }

  lemma {:induction false} StrippedExactly(line: string, keys: seq<string>)
    ensures IsStripped(line, keys) <==> Goes(line, keys)
  {
    if IsStripped(line, keys) {
      var k :| 0 <= k < |keys| && StartsWith(Trim(line), keys[k] + ":");
      assert keys[k] in keys && keys[k] + ":" <= Trim(line);
    }
    if Goes(line, keys) {
      var key :| key in keys && key + ":" <= Trim(line);
      var k :| 0 <= k < |keys| && keys[k] == key;
      assert StartsWith(Trim(line), keys[k] + ":");
    }
  }

  // --- the body of a message ---

  /** `body` is the text without the white space at its end. */
  predicate IsBody(body: string, text: string) {
    && body <= text
    && (forall k :: |body| <= k < |text| ==> IsWhitespace(text[k]))
    && (body != "" ==> !IsWhitespace(body[|body| - 1]))
  }

  lemma {:induction false} TrimEndIsBody(text: string)
    ensures IsBody(TrimEnd(text), text)
    decreases |text|
  {
    if text != "" && IsWhitespace(text[|text| - 1]) {
      TrimEndIsBody(text[..|text| - 1]);
    }
  }

  /** A message that carries a text: its body, a blank line and the block, or
      the block alone when the text is blank. */
  ghost predicate Carries(message: string, text: string, block: string) {
    exists body :: IsBody(body, text) && message == (if body == "" then "" else body + "\n\n") + block
  }

  lemma {:induction false} WithTrailersCarries(text: string, block: string)
    ensures Carries(WithTrailers(text, block), text, block)
  {
    TrimEndIsBody(text);
    var body := TrimEnd(text);
    assert "" + block == block;
    assert WithTrailers(text, block) == (if body == "" then "" else body + "\n\n") + block;
  }

  // --- one rewrite ---

  /** The substitution, if there is one. */
  ghost predicate Substituted(w: World, message: string, t: Transform, body: string)
    requires t.RewriteMessage?
  {
    if t.find.None? || t.put.None? then body == message
    else if t.useRegex then body == w.regexReplace(t.find.value, message, t.put.value)
    else Replaced(message, t.find.value, t.put.value, body)
  }

  /** Then the lines with stripped keys go; without any, the text is not even
      split into lines. */
  ghost predicate Stripped(body: string, keys: seq<string>, stripped: string) {
    if keys == [] then stripped == body
    else exists kept, at :: Keeps(kept, Lines(body), keys, at) && stripped == Join(kept, "\n")
  }

  /** Then the added lines follow on what is not blank. */
  ghost predicate Added(stripped: string, lines: seq<string>, r: string) {
    if lines == [] then r == stripped
    else exists body :: IsBody(body, stripped) && r == (if body == "" then "" else body + "\n") + Join(lines, "\n")
  }

  ghost predicate Rewrites(w: World, message: string, t: Transform, r: string)
    requires t.RewriteMessage?
  {
    exists body, stripped :: Substituted(w, message, t, body) && Stripped(body, t.stripTrailers, stripped) && Added(stripped, t.addTrailers, r)
  }

  predicate HasBadRegex(w: World, t: Transform) {
    t.RewriteMessage? && t.find.Some? && t.put.Some? && t.useRegex && !w.regexValid(t.find.value)
  }

  /** A rewrite substitutes, strips and adds, in that order; it fails exactly on
      an invalid expression that it would have to apply. */
  lemma {:induction false} RewriteOneRewrites(w: World, message: string, t: Transform)
    requires t.RewriteMessage?
    ensures RewriteOne(w, message, t) == Err(InvalidRegex) <==> HasBadRegex(w, t)
    ensures !HasBadRegex(w, t) ==> RewriteOne(w, message, t).Ok? && Rewrites(w, message, t, RewriteOne(w, message, t).value)
  {
    if !HasBadRegex(w, t) {
      var body := if t.find.Some? && t.put.Some?
                  then RewriteText(w, message, t.find.value, t.put.value, t.useRegex) else message;
      var stripped := if t.stripTrailers == [] then body else Join(KeptLines(Lines(body), t.stripTrailers), "\n");
      if t.find.Some? && t.put.Some? && !t.useRegex {
        ReplaceTextReplaces(message, t.find.value, t.put.value);
      }
      assert Substituted(w, message, t, body);
      StripsLines(body, t.stripTrailers, stripped);
      AddsLines(stripped, t.addTrailers, RewriteOne(w, message, t).value);
    }
  }

  lemma {:induction false} StripsLines(body: string, keys: seq<string>, stripped: string)
    requires stripped == if keys == [] then body else Join(KeptLines(Lines(body), keys), "\n")
    ensures Stripped(body, keys, stripped)
  {
    if keys != [] {
      var at := KeptLinesAre(Lines(body), keys);
    }
  }

  lemma {:induction false} AddsLines(stripped: string, lines: seq<string>, r: string)
    requires r == if lines == [] then stripped
                  else if TrimEnd(stripped) == "" then Join(lines, "\n")
                  else TrimEnd(stripped) + "\n" + Join(lines, "\n")
    ensures Added(stripped, lines, r)
  {
    TrimEndIsBody(stripped);
    assert "" + Join(lines, "\n") == Join(lines, "\n");
  }

  // --- the pipeline ---

  /** One rewrite after the other; other transforms leave the text alone. */
  ghost predicate MessageChain(w: World, message: string, transforms: seq<Transform>, ms: seq<string>) {
    && |ms| == |transforms| + 1 && ms[0] == message
    && forall k :: 0 <= k < |transforms| ==>
         if transforms[k].RewriteMessage? then Rewrites(w, ms[k], transforms[k], ms[k + 1]) else ms[k + 1] == ms[k]
  }

  ghost predicate Becomes(w: World, message: string, transforms: seq<Transform>, r: string) {
    exists ms :: MessageChain(w, message, transforms, ms) && r == ms[|transforms|]
  }

  /** The pipeline is the chain of its rewrites, and fails exactly on an invalid
      expression, whatever the message. */
  lemma {:induction false} MessagesBecome(w: World, message: string, transforms: seq<Transform>)
    ensures ApplyMessageTransforms(w, message, transforms).Ok? <==> forall t <- transforms :: !HasBadRegex(w, t)
    ensures ApplyMessageTransforms(w, message, transforms).Err? ==> ApplyMessageTransforms(w, message, transforms) == Err(InvalidRegex)
    ensures ApplyMessageTransforms(w, message, transforms).Ok? ==>
              Becomes(w, message, transforms, ApplyMessageTransforms(w, message, transforms).value)
    decreases |transforms|
  {
    if transforms == [] {
      assert MessageChain(w, message, transforms, [message]);
    } else {
      var t := transforms[0];
      assert transforms == [t] + transforms[1..];
      if t.RewriteMessage? {
        RewriteOneRewrites(w, message, t);
      }
      if !HasBadRegex(w, t) {
        var next := if t.RewriteMessage? then RewriteOne(w, message, t).value else message;
        MessagesBecome(w, next, transforms[1..]);
        if ApplyMessageTransforms(w, next, transforms[1..]).Ok? {
          ChainInFront(w, message, next, transforms, ApplyMessageTransforms(w, next, transforms[1..]).value);
        }
      }
    }
  }

  lemma {:induction false} ChainInFront(w: World, message: string, next: string, transforms: seq<Transform>, r: string)
    requires transforms != [] && Becomes(w, next, transforms[1..], r)
    requires if transforms[0].RewriteMessage? then Rewrites(w, message, transforms[0], next) else next == message
    ensures Becomes(w, message, transforms, r)
  {
    var ms :| MessageChain(w, next, transforms[1..], ms) && r == ms[|transforms| - 1];
    assert MessageChain(w, message, transforms, [message] + ms);
    assert ([message] + ms)[|transforms|] == r;
  }

  /** Without rewrites a message becomes itself. */
  lemma {:induction false} NoRewriteNoChange(w: World, message: string, transforms: seq<Transform>, r: string)
    requires Becomes(w, message, transforms, r) && forall t <- transforms :: !t.RewriteMessage?
    ensures r == message
  {
    var ms :| MessageChain(w, message, transforms, ms) && r == ms[|transforms|];
    var k := 0;
    while k < |transforms|
      invariant 0 <= k <= |transforms| && ms[k] == message
    {
      assert transforms[k] in transforms;
      k := k + 1;
    }
  }
}
