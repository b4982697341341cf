/** Slash-separated paths and the static checks made on them before any Git
    operation runs. */
module Paths {
  import opened Wrappers
  import opened Text
  import opened Trees

  predicate IsSegment(s: string) {
    s != "" && s != "." && s != ".."
  }

  /** A normalized relative path: what the path check accepts. */
  predicate IsRelPath(path: string) {
    path != "" && forall k :: 0 <= k < |Split(path, '/')| ==> IsSegment(Split(path, '/')[k])
  }

  datatype PathError = PathEmpty | PathAbsolute | PathSegments

  /** The path check, branch by branch. */
  function CheckRelPath(path: string): (r: Option<PathError>)
  {
    if path == "" then Some(PathEmpty)
    else if path[0] == '/' then Some(PathAbsolute)
    else if exists k :: 0 <= k < |Split(path, '/')| && !IsSegment(Split(path, '/')[k]) then Some(PathSegments)
    else None
  }

  predicate GoodParts(parts: seq<string>) {
    forall part <- parts :: part != "" && part != "." && part != ".."
  }

  lemma {:induction false} RelPathParts(path: string)
    ensures IsRelPath(path) <==> GoodParts(Split(path, '/'))
  {
    var parts := Split(path, '/');
    if path == "" {
      SplitWhole(path, '/');
      assert parts[0] in parts;
    } else if IsRelPath(path) {
      forall part | part in parts ensures part != "" && part != "." && part != ".." {
        var k :| 0 <= k < |parts| && parts[k] == part;
        assert IsSegment(parts[k]);
      }
    } else {
      var k :| 0 <= k < |parts| && !IsSegment(parts[k]);
      assert parts[k] in parts;
    }
  }

  lemma {:induction false} CheckRelPathAccepts(path: string)
    ensures CheckRelPath(path).None? <==> IsRelPath(path)
    ensures IsRelPath(path) <==> forall part <- Split(path, '/') :: part != "" && part != "." && part != ".."
    ensures CheckRelPath(path) == Some(PathEmpty) <==> path == ""
    ensures CheckRelPath(path) == Some(PathAbsolute) <==> "/" <= path
  {
    RelPathParts(path);
    assert "/" <= path <==> path != "" && path[0] == '/';
    if path != "" && path[0] == '/' {
      assert Split(path, '/')[0] == "" by { assert path[..0] == ""; }
    }
  }

  /** The non-empty components, in order. */
  function Segments(path: string): (r: seq<string>)
    ensures forall k :: 0 <= k < |r| ==> r[k] != ""
    ensures IsRelPath(path) ==> r == Split(path, '/') && r != []
  {
    NonEmpty(Split(path, '/'))
  }

  function NonEmpty(parts: seq<string>): (r: seq<string>)
    ensures forall k :: 0 <= k < |r| ==> r[k] != ""
    ensures (forall k :: 0 <= k < |parts| ==> parts[k] != "") ==> r == parts
  {
    if parts == [] then []
    else if parts[0] == "" then NonEmpty(parts[1..])
    else [parts[0]] + NonEmpty(parts[1..])
  }

  lemma {:induction false} NonEmptyConcat(a: seq<string>, b: seq<string>)
    ensures NonEmpty(a + b) == NonEmpty(a) + NonEmpty(b)
  {
    if a == [] {
      assert a + b == b;
    } else {
      assert (a + b)[1..] == a[1..] + b;
      NonEmptyConcat(a[1..], b);
    }
  }

  /** The components of a joined path are those of its parts. */
  lemma {:induction false} SegmentsConcat(a: string, b: string)
    ensures Segments(a + "/" + b) == Segments(a) + Segments(b)
    ensures '/' !in a ==> Segments(a) == if a == "" then [] else [a]
  {
    SplitConcat(a, b, '/');
    NonEmptyConcat(Split(a, '/'), Split(b, '/'));
    if '/' !in a {
      SplitWhole(a, '/');
      assert [a][1..] == [] && NonEmpty([]) == [];
    }
  }

  /** Length in bytes of the UTF-8 encoding. */
  function Utf8Length(s: string): nat {
    if s == "" then 0 else
      (if s[0] < '\U{0080}' then 1 else if s[0] < '\U{0800}' then 2 else if s[0] < '\U{10000}' then 3 else 4)
      + Utf8Length(s[1..])
  }

  lemma {:induction false} Utf8LengthConcat(a: string, b: string)
    ensures Utf8Length(a + b) == Utf8Length(a) + Utf8Length(b)
  {
    if a == "" {
      assert a + b == b;
    } else {
      assert (a + b)[1..] == a[1..] + b;
      Utf8LengthConcat(a[1..], b);
    }
  }

  /** The overlap test on the path texts: the shorter text (in bytes), followed
      by a slash, starts the longer one. */
  predicate PathsOverlap(a: string, b: string) {
    || a == b
    || (if Utf8Length(a) < Utf8Length(b) then a + "/" <= b else b + "/" <= a)
  }

  lemma {:induction false} TextStarts(a: string, b: string)
    requires a + "/" <= b
    ensures Split(a, '/') < Split(b, '/')
  {
    var rest := b[|a| + 1..];
    assert b == a + ['/'] + rest;
    SplitConcat(a, rest, '/');
  }

  lemma {:induction false} SegmentsStart(a: string, b: string)
    requires Split(a, '/') < Split(b, '/')
    ensures a + "/" <= b
  {
    var p, q := Split(a, '/'), Split(b, '/');
    var tail := q[|p|..];
    assert q == p + tail;
    JoinConcat(p, tail, "/");
    JoinSplit(a, '/');
    JoinSplit(b, '/');
    assert b == a + "/" + Join(tail, "/");
  }

  /** `a/` starts `b` exactly when the components of `a` properly start those
      of `b`. */
  lemma {:induction false} StartsExactlyWhenSegmentsStart(a: string, b: string)
    requires IsRelPath(a) && IsRelPath(b)
    ensures a + "/" <= b <==> Segments(a) < Segments(b)
    ensures a == b <==> Segments(a) == Segments(b)
  {
    JoinSplit(a, '/');
    JoinSplit(b, '/');
    if a + "/" <= b { TextStarts(a, b); }
    if Segments(a) < Segments(b) { SegmentsStart(a, b); }
  }

  /** The text test decides comparability of the component lists. */
  lemma {:induction false} OverlapIsComparability(a: string, b: string)
    requires IsRelPath(a) && IsRelPath(b)
    ensures PathsOverlap(a, b) <==> !Incomparable(Segments(a), Segments(b))
  {
    StartsExactlyWhenSegmentsStart(a, b);
    StartsExactlyWhenSegmentsStart(b, a);
    if a + "/" <= b { LongerText(a, b); }
    if b + "/" <= a { LongerText(b, a); }
    assert Segments(a) <= Segments(b) <==> Segments(a) < Segments(b) || Segments(a) == Segments(b);
    assert Segments(b) <= Segments(a) <==> Segments(b) < Segments(a) || Segments(a) == Segments(b);
  }

  lemma {:induction false} LongerText(a: string, b: string)
    requires a + "/" <= b
    ensures Utf8Length(a) < Utf8Length(b)
  {
    assert b == a + "/" + b[|a| + 1..];
    Utf8LengthConcat(a, "/");
    Utf8LengthConcat(a + "/", b[|a| + 1..]);
  }

  /** The double loop over all destinations: it reports exactly the overlapping
      pairs. */
  method CheckDestinationOverlap(dests: seq<string>) returns (errors: seq<(nat, nat)>)
    ensures forall i, j :: 0 <= i < j < |dests| ==> (PathsOverlap(dests[i], dests[j]) <==> (i, j) in errors)
    ensures forall e <- errors :: e.0 < e.1 < |dests|
  {
    errors := [];
    for i := 0 to |dests|
      invariant forall e <- errors :: e.0 < e.1 < |dests| && e.0 < i
      invariant forall a, b :: 0 <= a < i && a < b < |dests| ==> (PathsOverlap(dests[a], dests[b]) <==> (a, b) in errors)
    {
      for j := i + 1 to |dests|
        invariant forall e <- errors :: e.0 < e.1 < |dests| && (e.0 < i || (e.0 == i && e.1 < j))
        invariant forall a, b :: 0 <= a < i && a < b < |dests| ==> (PathsOverlap(dests[a], dests[b]) <==> (a, b) in errors)
        invariant forall b :: i < b < j ==> (PathsOverlap(dests[i], dests[b]) <==> (i, b) in errors)
      {
        if PathsOverlap(dests[i], dests[j]) {
          errors := errors + [(i, j)];
        }
      }
    }
  }

  /** Destinations as the configuration compiler leaves them. */
  predicate ValidDestinations(dests: seq<string>) {
    && (forall i :: 0 <= i < |dests| ==> IsRelPath(dests[i]))
    && (forall i, j :: 0 <= i < j < |dests| ==> !PathsOverlap(dests[i], dests[j]))
  }

  /** Accepted destinations are pairwise incomparable, so writes at two of them
      commute and neither disturbs the other. */
  lemma {:induction false} ValidDestinationsCommute(dests: seq<string>, i: nat, j: nat, base: Tree, a: Tree, b: Tree)
    requires ValidDestinations(dests) && i < j < |dests|
    ensures
      var p, q := Segments(dests[i]), Segments(dests[j]);
      && Incomparable(p, q)
      && Splice(Splice(base, p, a), q, b) == Splice(Splice(base, q, b), p, a)
      && SubtreeAt(Splice(Splice(base, p, a), q, b), p) == Some(a)
  {
    var p, q := Segments(dests[i]), Segments(dests[j]);
    OverlapIsComparability(dests[i], dests[j]);
    SplicesCommute(base, p, a, q, b);
    SpliceThenRead(Splice(base, q, b), p, a, []);
  }
}
