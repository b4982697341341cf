/** The text operations the trailer layer rests on: white space, trimming,
    splitting into lines, splitting at and joining with a separator. */
module Text {

  /** The characters with the Unicode property White_Space. */
  predicate IsWhitespace(c: char) {
    || '\t' <= c <= '\r'
    || c == ' '
    || c == '\U{0085}'
    || c == '\U{00A0}'
    || c == '\U{1680}'
    || '\U{2000}' <= c <= '\U{200A}'
    || c == '\U{2028}'
    || c == '\U{2029}'
    || c == '\U{202F}'
    || c == '\U{205F}'
    || c == '\U{3000}'
  }

  function TrimStart(s: string): (r: string)
    ensures r != "" ==> !IsWhitespace(r[0])
    ensures |r| <= |s| && r == s[|s| - |r|..]
  {
    if s != "" && IsWhitespace(s[0]) then TrimStart(s[1..]) else s
  }

  function TrimEnd(s: string): (r: string)
    ensures r != "" ==> !IsWhitespace(r[|r| - 1])
    ensures |r| <= |s| && r == s[..|r|]
  {
    if s != "" && IsWhitespace(s[|s| - 1]) then TrimEnd(s[..|s| - 1]) else s
  }

  function Trim(s: string): (r: string)
    ensures r != "" ==> !IsWhitespace(r[0]) && !IsWhitespace(r[|r| - 1])
  {
    TrimStart(TrimEnd(s))
  }

  /** Nothing to trim at either end. */
  predicate IsTrimmed(s: string) {
    s != "" ==> !IsWhitespace(s[0]) && !IsWhitespace(s[|s| - 1])
  }

  /** Trimming does not introduce characters. */
  lemma {:induction false} TrimKeepsCharacters(s: string, c: char)
    ensures c in Trim(s) ==> c in s
  {
  }

  /** The position of the first `c`, or the length when there is none. */
  function IndexOf(s: string, c: char): (i: nat)
    ensures i <= |s|
    ensures c !in s[..i]
    ensures i < |s| ==> s[i] == c
  {
    if s == "" || s[0] == c then 0 else
      var i := 1 + IndexOf(s[1..], c);
      assert s[..i] == [s[0]] + s[1..][..i - 1];
      i
  }

  lemma {:induction false} IndexOfIsFirst(s: string, c: char, k: nat)
    requires k <= |s| && c !in s[..k]
    requires k < |s| ==> s[k] == c
    ensures IndexOf(s, c) == k
  {
    assert k > 0 ==> s[..k][0] == s[0];
    if k > 0 {
      assert s[1..][..k - 1] == s[..k][1..];
      IndexOfIsFirst(s[1..], c, k - 1);
    }
  }

  lemma {:induction false} IndexOfConcat(a: string, b: string, c: char)
    ensures IndexOf(a + b, c) == if c in a then IndexOf(a, c) else |a| + IndexOf(b, c)
    ensures c in a <==> IndexOf(a, c) < |a|
  {
    var k := IndexOf(a, c);
    assert a[..|a|] == a;
    if c in a {
      assert (a + b)[..k] == a[..k];
      IndexOfIsFirst(a + b, c, k);
    } else {
      assert (a + b)[..|a| + IndexOf(b, c)] == a + b[..IndexOf(b, c)];
      IndexOfIsFirst(a + b, c, |a| + IndexOf(b, c));
    }
  }

  /** The text without one trailing carriage return. */
  function StripCarriageReturn(line: string): string {
    if line != "" && line[|line| - 1] == '\r' then line[..|line| - 1] else line
  }

  /** The lines of a text: `\n` or `\r\n` ends a line, a final line needs no
      terminator, and the end of the text does not start another line. */
  function Lines(s: string): (lines: seq<string>)
    ensures forall k :: 0 <= k < |lines| ==> '\n' !in lines[k]
  {
    if s == "" then [] else
      var i := IndexOf(s, '\n');
      if i == |s| then [s] else [StripCarriageReturn(s[..i])] + Lines(s[i + 1..])
  }

  predicate EndsLine(s: string) {
    s == "" || s[|s| - 1] == '\n'
  }

  /** A text that holds a line break, cut after the first one. */
  lemma {:induction false} LinesUnfold(a: string, b: string) returns (first: string, rest: string)
    requires '\n' in a
    ensures |rest| < |a| && rest == a[|a| - |rest|..]
    ensures Lines(a) == [first] + Lines(rest)
    ensures Lines(a + b) == [first] + Lines(rest + b)
  {
    var i := IndexOf(a, '\n');
    IndexOfConcat(a, b, '\n');
    first, rest := StripCarriageReturn(a[..i]), a[i + 1..];
    assert (a + b)[..i] == a[..i];
    assert (a + b)[i + 1..] == rest + b;
  }

  /** Appending to a text whose last line is terminated appends lines. */
  lemma {:induction false} LinesConcat(a: string, b: string)
    requires EndsLine(a)
    ensures Lines(a + b) == Lines(a) + Lines(b)
    decreases |a|
  {
    if a == "" {
      assert a + b == b;
      assert Lines(a) == [];
    } else {
      assert a[|a| - 1] in a;
      var first, rest := LinesUnfold(a, b);
      LinesConcat(rest, b);
      AppendAssociates([first], Lines(rest), Lines(b));
    }
  }

  lemma AppendAssociates<T>(a: seq<T>, b: seq<T>, c: seq<T>)
    ensures a + (b + c) == (a + b) + c
  {
  }

  /** One terminated line. */
  lemma {:induction false} LinesOfOne(l: string)
    requires '\n' !in l
    ensures Lines(l + "\n") == [StripCarriageReturn(l)]
  {
    IndexOfConcat(l, "\n", '\n');
    assert (l + "\n")[..|l|] == l;
    assert (l + "\n")[|l| + 1..] == "";
    assert Lines("") == [];
  }

  /** The pieces of `s` between occurrences of `c`; never empty. */
  function Split(s: string, c: char): (r: seq<string>)
    ensures r != []
    ensures forall k :: 0 <= k < |r| ==> c !in r[k]
    decreases |s|
  {
    var i := IndexOf(s, c);
    if i == |s| then
      assert s[..i] == s;
      [s]
    else
      [s[..i]] + Split(s[i + 1..], c)
  }

  function Join(parts: seq<string>, separator: string): string {
    if parts == [] then ""
    else if |parts| == 1 then parts[0]
    else parts[0] + separator + Join(parts[1..], separator)
  }

  lemma {:induction false} JoinMore(first: string, rest: seq<string>, separator: string)
    requires rest != []
    ensures Join([first] + rest, separator) == first + separator + Join(rest, separator)
  {
    assert ([first] + rest)[1..] == rest;
  }

  lemma {:induction false} JoinSplit(s: string, c: char)
    ensures Join(Split(s, c), [c]) == s
    decreases |s|
  {
    if c in s {
      var first, rest := FirstPiece(s, c);
      SplitFirst(s, c, first, rest);
      JoinMore(first, Split(rest, c), [c]);
      JoinSplit(rest, c);
    } else {
      SplitWhole(s, c);
    }
  }

  lemma {:induction false} SplitFirst(s: string, c: char, first: string, rest: string)
    requires s == first + [c] + rest && c !in first
    ensures Split(s, c) == [first] + Split(rest, c)
  {
    assert s == first + ([c] + rest);
    IndexOfConcat(first, [c] + rest, c);
    assert s[..|first|] == first && s[|first| + 1..] == rest;
  }

  lemma Regroup<T>(first: seq<T>, c: seq<T>, rest: seq<T>, b: seq<T>)
    ensures first + c + rest + c + b == first + c + (rest + c + b)
  {
  }

  /** One more piece in front. */
  lemma {:induction false} SplitConcatStep(first: string, rest: string, b: string, c: char)
    requires c !in first && Split(rest + [c] + b, c) == Split(rest, c) + Split(b, c)
    ensures Split(first + [c] + rest + [c] + b, c) == Split(first + [c] + rest, c) + Split(b, c)
  {
    Regroup(first, [c], rest, b);
    SplitFirst(first + [c] + rest, c, first, rest);
    SplitFirst(first + [c] + rest + [c] + b, c, first, rest + [c] + b);
    AppendAssociates([first], Split(rest, c), Split(b, c));
  }

  lemma {:induction false} FirstPiece(a: string, c: char) returns (first: string, rest: string)
    requires c in a
    ensures c !in first && a == first + [c] + rest
  {
    IndexOfConcat(a, "", c);
    first, rest := a[..IndexOf(a, c)], a[IndexOf(a, c) + 1..];
  }

  lemma {:induction false} SplitWhole(a: string, c: char)
    requires c !in a
    ensures Split(a, c) == [a]
  {
    IndexOfConcat(a, "", c);
  }

  lemma {:induction false} SplitConcat(a: string, b: string, c: char)
    ensures Split(a + [c] + b, c) == Split(a, c) + Split(b, c)
    decreases |a|
  {
    if c in a {
      var first, rest := FirstPiece(a, c);
      SplitConcat(rest, b, c);
      SplitConcatStep(first, rest, b, c);
    } else {
      SplitWhole(a, c);
      SplitFirst(a + [c] + b, c, a, b);
    }
  }

  lemma {:induction false} JoinConcat(a: seq<string>, b: seq<string>, separator: string)
    requires a != [] && b != []
    ensures Join(a + b, separator) == Join(a, separator) + separator + Join(b, separator)
  {
    assert (a + b)[0] == a[0];
    if |a| == 1 {
      assert (a + b)[1..] == b;
    } else {
      assert (a + b)[1..] == a[1..] + b;
      JoinConcat(a[1..], b, separator);
    }
  }
}
