/** The commit map: trailers written into commit messages and read back by
    scanning them.  The only durable state of the engine is in these lines. */
module Trailers {
  import opened Wrappers
  import opened Text

  const ORIGIN_TRAILER := "CapyFun-Origin"
  const IMPORT_TRAILER := "CapyFun-Import"
  const PATCH_TRAILER := "CapyFun-Patch"
  const AGENT_TRAILER := "CapyFun-Agent"
  const VENDOR_TRAILER := "CapyFun-Vendor"
  const EXPORT_TRAILER := "CapyFun-Export"

  // --- object ids as text ---

  predicate IsLowerHex(c: char) {
    '0' <= c <= '9' || 'a' <= c <= 'f'
  }

  predicate IsHex(c: char) {
    IsLowerHex(c) || 'A' <= c <= 'F'
  }

  predicate IsOid(s: string) {
    |s| == 40 && forall k :: 0 <= k < |s| ==> IsLowerHex(s[k])
  }

  /** An object id, in the form it is printed: 40 lower-case hex digits. */
  type Oid = s: string | IsOid(s) witness seq(40, _ => '0')

  function LowerHex(c: char): (r: char)
    requires IsHex(c)
    ensures IsLowerHex(r)
  {
    if 'A' <= c <= 'F' then c - 'A' + 'a' else c
  }

  /** Parsing an object id: up to 40 hex digits in either case, padded with
      zeros on the right. */
  function OidFromText(s: string): (r: Option<Oid>) {
    if 1 <= |s| <= 40 && forall k :: 0 <= k < |s| ==> IsHex(s[k]) then
      var oid := seq(40, k requires 0 <= k < 40 => if k < |s| then LowerHex(s[k]) else '0');
      Some(oid)
    else
      None
  }

  lemma {:induction false} OidRoundTrip(oid: Oid)
    ensures OidFromText(oid) == Some(oid)
  {
    assert seq(40, k requires 0 <= k < 40 => if k < |oid| then LowerHex(oid[k]) else '0') == oid;
  }

  predicate IsIdText(s: string) {
    1 <= |s| <= 40 && forall k :: 0 <= k < |s| ==> '0' <= s[k] <= '9' || 'a' <= s[k] <= 'f' || 'A' <= s[k] <= 'F'
  }

  /** The texts that name an id: up to 40 digits, in either case, with zeros
      understood on the right. */
  lemma {:induction false} OidSpellings(s: string)
    ensures OidFromText(s).Some? <==> IsIdText(s)
    ensures IsIdText(s) && |s| < 40 ==> OidFromText(s + "0") == OidFromText(s)
    ensures forall k :: 0 <= k < |s| && 'A' <= s[k] <= 'F' ==> OidFromText(s[k := s[k] - 'A' + 'a']) == OidFromText(s)
  {
    if IsIdText(s) {
      if |s| < 40 {
        assert OidFromText(s + "0").value == OidFromText(s).value;
      }
      forall k | 0 <= k < |s| && 'A' <= s[k] <= 'F' ensures OidFromText(s[k := s[k] - 'A' + 'a']) == OidFromText(s) {
        OneDigitLowered(s, k);
      }
    } else {
      forall k | 0 <= k < |s| && 'A' <= s[k] <= 'F' ensures !IsIdText(s[k := s[k] - 'A' + 'a']) {
        StillNoId(s, k);
      }
    }
  }

  lemma {:induction false} OneDigitLowered(s: string, k: nat)
    requires IsIdText(s) && k < |s| && 'A' <= s[k] <= 'F'
    ensures OidFromText(s[k := s[k] - 'A' + 'a']) == OidFromText(s)
  {
    var t := s[k := s[k] - 'A' + 'a'];
    assert forall j :: 0 <= j < |s| ==> LowerHex(t[j]) == LowerHex(s[j]);
    assert OidFromText(t).value == OidFromText(s).value;
  }

  lemma {:induction false} StillNoId(s: string, k: nat)
    requires !IsIdText(s) && k < |s| && 'A' <= s[k] <= 'F'
    ensures !IsIdText(s[k := s[k] - 'A' + 'a'])
  {
    var t := s[k := s[k] - 'A' + 'a'];
    if 1 <= |s| <= 40 {
      var j :| 0 <= j < |s| && !('0' <= s[j] <= '9' || 'a' <= s[j] <= 'f' || 'A' <= s[j] <= 'F');
      assert t[j] == s[j];
    }
  }

  /** Printed ids are trimmed text on one line. */
  lemma {:induction false} OidIsPlain(oid: Oid)
    ensures IsScanSafe(oid)
  {
    forall k | 0 <= k < |oid| ensures !IsWhitespace(oid[k]) && oid[k] != '\n' {
      assert IsLowerHex(oid[k]);
    }
  }

  // --- reading ---

  predicate StartsLine(prefix: string, line: string) {
    prefix <= Trim(line)
  }

  /** The value of the last line that starts with `prefix`. */
  function LastWithPrefix(lines: seq<string>, prefix: string): Option<string> {
    if lines == [] then None else
      var line := lines[|lines| - 1];
      if StartsLine(prefix, line) then Some(Trim(Trim(line)[|prefix|..]))
      else LastWithPrefix(lines[..|lines| - 1], prefix)
  }

  function TrailerValue(message: string, key: string): Option<string> {
    LastWithPrefix(Lines(message), key + ": ")
  }

  predicate HasTrailer(message: string, key: string) {
    exists k :: 0 <= k < |Lines(message)| && StartsLine(key + ": ", Lines(message)[k])
  }

  /** The two scans agree on whether a trailer is there. */
  lemma {:induction false} HasTrailerExactlyWhenValue(message: string, key: string)
    ensures HasTrailer(message, key) <==> TrailerValue(message, key).Some?
  {
    var lines := Lines(message);
    if HasTrailer(message, key) {
      var k :| 0 <= k < |lines| && StartsLine(key + ": ", lines[k]);
      LastWithPrefixFinds(lines, key + ": ", k);
    } else {
      NoLineNoValue(lines, key + ": ");
    }
  }

  lemma {:induction false} LastWithPrefixFinds(lines: seq<string>, prefix: string, k: nat)
    requires k < |lines| && StartsLine(prefix, lines[k])
    ensures LastWithPrefix(lines, prefix).Some?
    decreases |lines|
  {
    if k < |lines| - 1 {
      LastWithPrefixFinds(lines[..|lines| - 1], prefix, k);
    }
  }

  lemma {:induction false} NoLineNoValue(lines: seq<string>, prefix: string)
    requires forall k :: 0 <= k < |lines| ==> !StartsLine(prefix, lines[k])
    ensures LastWithPrefix(lines, prefix).None?
    decreases |lines|
  {
    if lines != [] {
      NoLineNoValue(lines[..|lines| - 1], prefix);
    }
  }

  /** A scanned value is never blank, is trimmed and holds no line break. */
  lemma {:induction false} ScannedValuesAreScanSafe(lines: seq<string>, key: string)
    requires forall k :: 0 <= k < |lines| ==> '\n' !in lines[k]
    ensures LastWithPrefix(lines, key + ": ").Some? ==> IsScanSafe(LastWithPrefix(lines, key + ": ").value)
  {
    var prefix := key + ": ";
    if lines != [] {
      var last := lines[|lines| - 1];
      if StartsLine(prefix, last) {
        FoundValueIsScanSafe(last, prefix);
      } else {
        ScannedValuesAreScanSafe(lines[..|lines| - 1], key);
      }
    }
  }

  lemma {:induction false} FoundValueIsScanSafe(last: string, prefix: string)
    requires '\n' !in last && StartsLine(prefix, last) && prefix != "" && prefix[|prefix| - 1] == ' '
    ensures IsScanSafe(Trim(Trim(last)[|prefix|..]))
  {
    var line := Trim(last);
    assert line[|prefix| - 1] == prefix[|prefix| - 1];
    TrimKeepsCharacters(last, '\n');
    TailIsScanSafe(line, |prefix|);
  }

  lemma {:induction false} TailIsScanSafe(line: string, n: nat)
    requires 0 < n <= |line| && IsTrimmed(line) && line[n - 1] == ' ' && '\n' !in line
    ensures IsScanSafe(Trim(line[n..]))
  {
    var rest := line[n..];
    assert IsWhitespace(' ');
    assert n < |line|;
    assert rest[|rest| - 1] == line[|line| - 1];
    NonBlankTrim(rest);
    TrimKeepsCharacters(rest, '\n');
  }

  lemma {:induction false} NonBlankTrim(s: string)
    requires s != "" && !IsWhitespace(s[|s| - 1])
    ensures Trim(s) != "" && IsTrimmed(Trim(s))
  {
    assert TrimEnd(s) == s;
    TrimStartStops(s);
  }

  lemma {:induction false} TrimStartStops(s: string)
    requires s != "" && !IsWhitespace(s[|s| - 1])
    ensures TrimStart(s) != "" && TrimStart(s)[|TrimStart(s)| - 1] == s[|s| - 1]
  {
    if IsWhitespace(s[0]) {
      TrimStartStops(s[1..]);
    }
  }

  // --- writing ---

  /** The texts a trailer carries through a scan unchanged. */
  predicate IsScanSafe(value: string) {
    value != "" && IsTrimmed(value) && '\n' !in value
  }

  function TrailerLine(key: string, value: string): string {
    key + ": " + value
  }

  /** A message body followed by a block of trailer lines; a blank body leaves
      the block alone. */
  function WithTrailers(message: string, block: string): string {
    var body := TrimEnd(message);
    if body == "" then block else body + "\n\n" + block
  }

  function WithMirrorTrailers(message: string, origin: Oid, dest: string): string {
    WithTrailers(message, TrailerLine(ORIGIN_TRAILER, origin) + "\n" + (TrailerLine(IMPORT_TRAILER, dest) + "\n"))
  }

  function WithExportTrailer(message: string, mono: Oid): string {
    WithTrailers(message, TrailerLine(EXPORT_TRAILER, mono) + "\n")
  }

  /** A message of the engine's own: a subject that ends in a value, a trailer
      with the same value, and the destination. */
  function OwnMessage(lead: string, key: string, value: string, dest: string): string {
    lead + value + "\n\n" + (TrailerLine(key, value) + "\n" + (TrailerLine(IMPORT_TRAILER, dest) + "\n"))
  }

  function PatchMessage(patchLabel: string, dest: string): string {
    OwnMessage("Apply patch ", PATCH_TRAILER, patchLabel, dest)
  }

  function AgentMessage(agentId: string, dest: string): string {
    OwnMessage("Apply agent_transform ", AGENT_TRAILER, agentId, dest)
  }

  function VendorMessage(slug: string, commit: Oid, dest: string): string {
    OwnMessage("Vendor ", VENDOR_TRAILER, slug + "@" + commit, dest)
  }

  // --- a scan meets the last line first ---

  /** Keys the engine writes: they differ from each other at position 8. */
  predicate IsKey(key: string) {
    |key| > 8 && '\n' !in key && !IsWhitespace(key[0]) && !IsWhitespace(key[|key| - 1])
  }

  lemma {:induction false} TrimEndOfConcat(a: string, b: string)
    ensures TrimEnd(a + b) == if TrimEnd(b) == "" then TrimEnd(a) else a + TrimEnd(b)
  {
    if b == "" {
      assert a + b == a;
    } else {
      var last := b[|b| - 1];
      assert (a + b)[|a + b| - 1] == last;
      if IsWhitespace(last) {
        assert (a + b)[..|a + b| - 1] == a + b[..|b| - 1];
        TrimEndOfConcat(a, b[..|b| - 1]);
      }
    }
  }

  lemma {:induction false} TrimIgnoresCarriageReturn(line: string)
    ensures Trim(StripCarriageReturn(line)) == Trim(line)
  {
    if StripCarriageReturn(line) != line {
      assert IsWhitespace(line[|line| - 1]);
      assert TrimEnd(line) == TrimEnd(line[..|line| - 1]);
    }
  }

  lemma {:induction false} TrimKeyed(key: string, value: string)
    requires IsKey(key)
    ensures TrimEnd(key + ": ") == key + ":"
    ensures TrimStart(key + ":") == key + ":"
    ensures TrimStart(key + ": " + value) == key + ": " + value
  {
    TrimEndOfConcat(key + ":", " ");
    assert TrimEnd(" ") == "" by { assert " "[..0] == ""; }
    assert key + ": " == key + ":" + " ";
    assert (key + ": " + value)[0] == key[0];
  }

  /** What a scan sees of a trailer line. */
  lemma {:induction false} TrimTrailerLine(key: string, value: string)
    requires IsKey(key)
    ensures Trim(StripCarriageReturn(TrailerLine(key, value))) ==
            if TrimEnd(value) == "" then key + ":" else key + ": " + TrimEnd(value)
  {
    TrimIgnoresCarriageReturn(TrailerLine(key, value));
    TrimEndOfConcat(key + ": ", value);
    TrimKeyed(key, TrimEnd(value));
  }

  lemma {:induction false} LastWithPrefixAppend(lines: seq<string>, line: string, prefix: string)
    ensures LastWithPrefix(lines + [line], prefix) ==
            if StartsLine(prefix, line) then Some(Trim(Trim(line)[|prefix|..])) else LastWithPrefix(lines, prefix)
  {
    var all := lines + [line];
    assert all[|all| - 1] == line;
    assert all[..|all| - 1] == lines;
  }

  lemma {:induction false} TrailerLineIsOneLine(head: string, key: string, value: string)
    requires EndsLine(head) && IsKey(key) && '\n' !in value
    ensures Lines(head + (TrailerLine(key, value) + "\n")) ==
            Lines(head) + [StripCarriageReturn(TrailerLine(key, value))]
  {
    LinesConcat(head, TrailerLine(key, value) + "\n");
    LinesOfOne(TrailerLine(key, value));
  }

  lemma {:induction false} BlankTrims(value: string)
    ensures TrimEnd(value) == "" <==> Trim(value) == ""
    ensures TrimEnd(value) != "" ==> Trim(TrimEnd(value)) == Trim(value)
  {
    if TrimEnd(value) != "" {
      NonBlankTrim(TrimEnd(value));
      assert TrimEnd(TrimEnd(value)) == TrimEnd(value);
    }
  }

  /** A final `key: value` line answers a scan for `key`, unless it is blank. */
  lemma {:induction false} ScanHits(head: string, key: string, value: string)
    requires EndsLine(head) && IsKey(key) && '\n' !in value
    ensures TrailerValue(head + (TrailerLine(key, value) + "\n"), key) ==
            if Trim(value) == "" then TrailerValue(head, key) else Some(Trim(value))
  {
    TrailerLineIsOneLine(head, key, value);
    TrimTrailerLine(key, value);
    BlankTrims(value);
    LastWithPrefixAppend(Lines(head), StripCarriageReturn(TrailerLine(key, value)), key + ": ");
  }

  /** A final line under another key is passed over. */
  lemma {:induction false} ScanPasses(head: string, key: string, value: string, wanted: string)
    requires EndsLine(head) && IsKey(key) && IsKey(wanted) && '\n' !in value
    requires key[8] != wanted[8]
    ensures TrailerValue(head + (TrailerLine(key, value) + "\n"), wanted) == TrailerValue(head, wanted)
  {
    TrailerLineIsOneLine(head, key, value);
    TrimTrailerLine(key, value);
    var line := Trim(StripCarriageReturn(TrailerLine(key, value)));
    assert line[8] == key[8];
    assert (wanted + ": ")[8] == wanted[8];
    LastWithPrefixAppend(Lines(head), StripCarriageReturn(TrailerLine(key, value)), wanted + ": ");
  }

  lemma {:induction false} ScanSafeTrims(value: string)
    ensures IsScanSafe(value) ==> Trim(value) == value
    ensures Trim(value) == value && value != "" && '\n' !in value ==> IsScanSafe(value)
  {
  }

  // --- values with line breaks ---

  function FirstLine(value: string): (first: string)
    ensures '\n' !in first
  {
    value[..IndexOf(value, '\n')]
  }

  /** What follows the first line break of a value that a trailer line ends in. */
  function LaterLines(value: string): (rest: string)
    ensures EndsLine(rest)
    ensures '\n' !in value ==> rest == ""
  {
    if '\n' in value then value[IndexOf(value, '\n') + 1..] + "\n" else ""
  }

  lemma {:induction false} OneLineValue(value: string)
    requires '\n' !in value
    ensures FirstLine(value) == value && LaterLines(value) == ""
  {
    IndexOfConcat(value, "", '\n');
    assert value[..|value|] == value;
  }

  lemma {:induction false} ManyLineValue(value: string)
    requires '\n' in value
    ensures value + "\n" == FirstLine(value) + "\n" + LaterLines(value)
  {
    IndexOfConcat(value, "", '\n');
    var i := IndexOf(value, '\n');
    assert value == value[..i] + "\n" + value[i + 1..];
    AppendAssociates(value[..i] + "\n", value[i + 1..], "\n");
  }

  lemma {:induction false} ValueSplits(value: string)
    ensures value + "\n" == FirstLine(value) + "\n" + LaterLines(value)
    ensures '\n' !in value ==> FirstLine(value) == value
  {
    if '\n' in value {
      ManyLineValue(value);
    } else {
      OneLineValue(value);
    }
  }

  lemma SplitBehind<T>(lead: seq<T>, value: seq<T>, end: seq<T>, first: seq<T>, later: seq<T>)
    requires value + end == first + end + later
    ensures lead + value + end == lead + first + end + later
  {
    AppendAssociates(lead, value, end);
    AppendAssociates(lead, first + end, later);
    AppendAssociates(lead, first, end);
  }

  lemma {:induction false} TrailerLineSplits(key: string, value: string)
    ensures TrailerLine(key, value) + "\n" == TrailerLine(key, FirstLine(value)) + "\n" + LaterLines(value)
  {
    ValueSplits(value);
    SplitBehind(key + ": ", value, "\n", FirstLine(value), LaterLines(value));
  }

  lemma {:induction false} LastWithPrefixConcat(xs: seq<string>, ys: seq<string>, prefix: string)
    ensures LastWithPrefix(xs + ys, prefix)
         == if LastWithPrefix(ys, prefix).Some? then LastWithPrefix(ys, prefix) else LastWithPrefix(xs, prefix)
    decreases |ys|
  {
    if ys == [] {
      assert xs + ys == xs;
    } else {
      var n := |ys| - 1;
      assert xs + ys == (xs + ys[..n]) + [ys[n]];
      assert ys == ys[..n] + [ys[n]];
      LastWithPrefixAppend(xs + ys[..n], ys[n], prefix);
      LastWithPrefixAppend(ys[..n], ys[n], prefix);
      LastWithPrefixConcat(xs, ys[..n], prefix);
    }
  }

  /** Later text is scanned first. */
  lemma {:induction false} ScanConcat(head: string, rest: string, key: string)
    requires EndsLine(head)
    ensures TrailerValue(head + rest, key) == if TrailerValue(rest, key).Some? then TrailerValue(rest, key) else TrailerValue(head, key)
  {
    LinesConcat(head, rest);
    LastWithPrefixConcat(Lines(head), Lines(rest), key + ": ");
  }

  // --- the trailers survive ---

  function BodyBreak(message: string): (head: string)
    ensures EndsLine(head)
  {
    if TrimEnd(message) == "" then "" else TrimEnd(message) + "\n\n"
  }

  lemma {:induction false} ScannedIsScanSafe(message: string, key: string)
    ensures TrailerValue(message, key).Some? ==> IsScanSafe(TrailerValue(message, key).value)
  {
    ScannedValuesAreScanSafe(Lines(message), key);
  }

  /** The engine's own keys are told apart at position 8. */
  lemma {:induction false} KeysAreDistinct()
    ensures IsKey(ORIGIN_TRAILER) && ORIGIN_TRAILER[8] == 'O'
    ensures IsKey(IMPORT_TRAILER) && IMPORT_TRAILER[8] == 'I'
    ensures IsKey(PATCH_TRAILER) && PATCH_TRAILER[8] == 'P'
    ensures IsKey(AGENT_TRAILER) && AGENT_TRAILER[8] == 'A'
    ensures IsKey(VENDOR_TRAILER) && VENDOR_TRAILER[8] == 'V'
    ensures IsKey(EXPORT_TRAILER) && EXPORT_TRAILER[8] == 'E'
  {
  }

  /** Where the trailer block of a mirror message is cut. */
  lemma {:induction false} MirrorMessageSplits(message: string, origin: Oid, dest: string) returns (above: string)
    ensures EndsLine(above)
    ensures above == BodyBreak(message) + (TrailerLine(ORIGIN_TRAILER, origin) + "\n")
    ensures WithMirrorTrailers(message, origin, dest) == above + (TrailerLine(IMPORT_TRAILER, dest) + "\n")
  {
    above := BodyBreak(message) + (TrailerLine(ORIGIN_TRAILER, origin) + "\n");
    assert above[|above| - 1] == '\n';
  }

  /** The destination of a mirror message is read back exactly when it is a
      trimmed non-blank text on one line, whatever the upstream message holds. */
  lemma {:induction false} DestinationSurvives(message: string, origin: Oid, dest: string)
    ensures TrailerValue(WithMirrorTrailers(message, origin, dest), IMPORT_TRAILER) == Some(dest) <==> IsScanSafe(dest)
  {
    ScannedIsScanSafe(WithMirrorTrailers(message, origin, dest), IMPORT_TRAILER);
    if IsScanSafe(dest) {
      KeysAreDistinct();
      var above := MirrorMessageSplits(message, origin, dest);
      ScanSafeTrims(dest);
      ScanHits(above, IMPORT_TRAILER, dest);
    }
  }

  /** The origin of a mirror message is read back for every upstream message,
      forged trailers included, exactly when no later line of the destination
      forges another one; a destination on one line has no later line. */
  lemma {:induction false} OriginSurvives(message: string, origin: Oid, dest: string)
    ensures TrailerValue(WithMirrorTrailers(message, origin, dest), ORIGIN_TRAILER) == Some(origin)
       <==> TrailerValue(LaterLines(dest), ORIGIN_TRAILER) in {None, Some(origin)}
    ensures '\n' !in dest ==> TrailerValue(LaterLines(dest), ORIGIN_TRAILER) == None
  {
    KeysAreDistinct();
    var above := MirrorMessageSplits(message, origin, dest);
    ScanOfMirror(above, dest, ORIGIN_TRAILER);
    OidIsPlain(origin);
    ScanSafeTrims(origin);
    ScanHits(BodyBreak(message), ORIGIN_TRAILER, origin);
  }

  lemma {:induction false} ScanOfMirror(above: string, dest: string, key: string)
    requires EndsLine(above) && IsKey(key) && key[8] != 'I'
    ensures TrailerValue(above + (TrailerLine(IMPORT_TRAILER, dest) + "\n"), key)
         == if TrailerValue(LaterLines(dest), key).Some? then TrailerValue(LaterLines(dest), key) else TrailerValue(above, key)
  {
    KeysAreDistinct();
    var line := TrailerLine(IMPORT_TRAILER, FirstLine(dest)) + "\n";
    TrailerLineSplits(IMPORT_TRAILER, dest);
    AppendAssociates(above, line, LaterLines(dest));
    ScanPasses(above, IMPORT_TRAILER, FirstLine(dest), key);
    assert (above + line)[|above + line| - 1] == '\n';
    ScanConcat(above + line, LaterLines(dest), key);
  }

  /** A scan for any other key sees the upstream message, and later lines of the
      destination, as they stand. */
  lemma {:induction false} ForgedTrailersShow(message: string, origin: Oid, dest: string, key: string)
    requires IsKey(key) && key[8] != 'O' && key[8] != 'I'
    ensures HasTrailer(WithMirrorTrailers(message, origin, dest), key)
       <==> HasTrailer(BodyBreak(message), key) || HasTrailer(LaterLines(dest), key)
  {
    KeysAreDistinct();
    var above := MirrorMessageSplits(message, origin, dest);
    OidIsPlain(origin);
    ScanOfMirror(above, dest, key);
    ScanPasses(BodyBreak(message), ORIGIN_TRAILER, origin, key);
    HasTrailerExactlyWhenValue(WithMirrorTrailers(message, origin, dest), key);
    HasTrailerExactlyWhenValue(BodyBreak(message), key);
    HasTrailerExactlyWhenValue(LaterLines(dest), key);
  }

  lemma {:induction false} ExportTrailerSurvives(message: string, mono: Oid)
    ensures TrailerValue(WithExportTrailer(message, mono), EXPORT_TRAILER) == Some(mono)
  {
    KeysAreDistinct();
    OidIsPlain(mono);
    ScanSafeTrims(mono);
    var head := BodyBreak(message);
    assert WithExportTrailer(message, mono) == head + (TrailerLine(EXPORT_TRAILER, mono) + "\n");
    ScanHits(head, EXPORT_TRAILER, mono);
  }

  lemma {:induction false} OtherFirstLetter(line: string, key: string)
    requires IsKey(key) && (line == "" || (!IsWhitespace(line[0]) && line[0] != key[0]))
    ensures !StartsLine(key + ": ", line)
  {
    TrimKeepsFirst(line);
    assert (key + ": ")[0] == key[0];
  }

  /** A line that starts otherwise is passed over. */
  lemma {:induction false} ScanPassesLine(head: string, line: string, key: string)
    requires EndsLine(head) && '\n' !in line && IsKey(key)
    requires line == "" || (!IsWhitespace(line[0]) && line[0] != key[0])
    ensures TrailerValue(head + (line + "\n"), key) == TrailerValue(head, key)
  {
    LinesConcat(head, line + "\n");
    LinesOfOne(line);
    var stripped := StripCarriageReturn(line);
    OtherFirstLetter(stripped, key);
    LastWithPrefixAppend(Lines(head), stripped, key + ": ");
  }

  lemma {:induction false} TrimKeepsFirst(line: string)
    ensures line != "" && !IsWhitespace(line[0]) ==> Trim(line) != "" && Trim(line)[0] == line[0]
    ensures line == "" ==> Trim(line) == ""
  {
    if line != "" && !IsWhitespace(line[0]) {
      TrimEndOfConcat(line[..1], line[1..]);
      assert line == line[..1] + line[1..];
      assert TrimEnd(line[..1]) == line[..1];
    }
  }

  lemma FourParts<T>(a: seq<T>, b: seq<T>, later: seq<T>, d: seq<T>)
    ensures a + (b + later + d) == a + b + later + d
  {
    AppendAssociates(a, b + later, d);
    AppendAssociates(a, b, later);
  }

  lemma {:induction false} OwnMessageSplits(lead: string, key: string, value: string, dest: string)
    ensures OwnMessage(lead, key, value, dest)
         == (lead + FirstLine(value) + "\n" + LaterLines(value) + "\n")
            + (TrailerLine(key, FirstLine(value)) + "\n") + LaterLines(value) + (TrailerLine(IMPORT_TRAILER, dest) + "\n")
  {
    ValueSplits(value);
    SplitBehind(lead, value, "\n", FirstLine(value), LaterLines(value));
    AppendAssociates(lead + value, "\n", "\n");
    assert "\n" + "\n" == "\n\n";
    TrailerLineSplits(key, value);
    FourParts(lead + value + "\n\n", TrailerLine(key, FirstLine(value)) + "\n", LaterLines(value), TrailerLine(IMPORT_TRAILER, dest) + "\n");
  }

  /** The subject is no trailer; what follows the first line of the value may be. */
  lemma {:induction false} ScanOfSubject(lead: string, value: string, wanted: string)
    requires lead != "" && '\n' !in lead && !IsWhitespace(lead[0]) && IsKey(wanted) && wanted[0] != lead[0]
    ensures EndsLine(lead + FirstLine(value) + "\n" + LaterLines(value) + "\n")
    ensures TrailerValue(lead + FirstLine(value) + "\n" + LaterLines(value) + "\n", wanted) == TrailerValue(LaterLines(value), wanted)
  {
    var subject := lead + FirstLine(value);
    assert "" + (subject + "\n") == subject + "\n";
    ScanPassesLine("", subject, wanted);
    assert Lines("") == [] && TrailerValue("", wanted) == None;
    ScanConcat(subject + "\n", LaterLines(value), wanted);
    var more := subject + "\n" + LaterLines(value);
    assert EndsLine(more) by {
      assert LaterLines(value) == "" ==> more == subject + "\n";
    }
    assert more + ("" + "\n") == more + "\n";
    ScanPassesLine(more, "", wanted);
  }

  /** A scan of such a message: the destination; for the key of the value its
      first line, unless later lines answer; for other keys only later lines. */
  lemma {:induction false} ScanOfOwnMessage(lead: string, key: string, value: string, dest: string, wanted: string)
    requires IsScanSafe(dest) && lead != "" && '\n' !in lead && !IsWhitespace(lead[0]) && lead[0] != 'C'
    requires IsKey(key) && key[8] != 'I' && IsKey(wanted) && wanted[0] == 'C'
    ensures
      var found, later := TrailerValue(OwnMessage(lead, key, value, dest), wanted), TrailerValue(LaterLines(value), wanted);
      && (wanted == IMPORT_TRAILER ==> found == Some(dest))
      && (wanted[8] != 'I' && wanted[8] != key[8] ==> found == later)
      && (wanted == key ==> found == if later.Some? || Trim(FirstLine(value)) == "" then later else Some(Trim(FirstLine(value))))
  {
    KeysAreDistinct();
    OwnMessageSplits(lead, key, value, dest);
    ScanOfSubject(lead, value, wanted);
    var top := lead + FirstLine(value) + "\n" + LaterLines(value) + "\n";
    var middle := top + (TrailerLine(key, FirstLine(value)) + "\n");
    assert middle[|middle| - 1] == '\n';
    var above := middle + LaterLines(value);
    assert EndsLine(above) by {
      assert LaterLines(value) == "" ==> above == middle;
    }
    ScanConcat(middle, LaterLines(value), wanted);
    if wanted == IMPORT_TRAILER {
      ScanSafeTrims(dest);
      ScanHits(above, IMPORT_TRAILER, dest);
    } else if wanted[8] != 'I' {
      ScanPasses(above, IMPORT_TRAILER, dest, wanted);
      if wanted[8] != key[8] {
        ScanPasses(top, key, FirstLine(value), wanted);
      } else if wanted == key {
        ScanHits(top, key, FirstLine(value));
      }
    }
  }

  /** A label whose first line leaves a trailer, or whose later lines hold one,
      and whose later lines forge no origin. */
  predicate LeavesATipTrailer(name: string) {
    && (Trim(FirstLine(name)) != "" || HasTrailer(LaterLines(name), PATCH_TRAILER) || HasTrailer(LaterLines(name), AGENT_TRAILER))
    && TrailerValue(LaterLines(name), ORIGIN_TRAILER) == None
  }

  predicate LooksLikeTip(message: string) {
    && (HasTrailer(message, PATCH_TRAILER) || HasTrailer(message, AGENT_TRAILER))
    && TrailerValue(message, ORIGIN_TRAILER) == None
  }

  /** Tip-layer messages: scoped to the destination for every label, and
      recognised as tip layer without an origin exactly when the label leaves
      such trailers; a label on one line does so exactly when it is not blank. */
  lemma {:induction false} TipMessages(name: string, dest: string)
    requires IsScanSafe(dest)
    ensures TrailerValue(PatchMessage(name, dest), IMPORT_TRAILER) == Some(dest)
    ensures LooksLikeTip(PatchMessage(name, dest)) <==> LeavesATipTrailer(name)
    ensures TrailerValue(AgentMessage(name, dest), IMPORT_TRAILER) == Some(dest)
    ensures LooksLikeTip(AgentMessage(name, dest)) <==> LeavesATipTrailer(name)
    ensures '\n' !in name ==> (LeavesATipTrailer(name) <==> Trim(name) != "")
  {
    PatchTipMessage(name, dest);
    AgentTipMessage(name, dest);
    if '\n' !in name {
      OneLineLabel(name);
    }
  }

  lemma {:induction false} PatchTipMessage(name: string, dest: string)
    requires IsScanSafe(dest)
    ensures TrailerValue(PatchMessage(name, dest), IMPORT_TRAILER) == Some(dest)
    ensures LooksLikeTip(PatchMessage(name, dest)) <==> LeavesATipTrailer(name)
  {
    var lead := "Apply patch ";
    assert lead[0] == 'A' && '\n' !in lead;
    OneTipMessage(lead, PATCH_TRAILER, AGENT_TRAILER, name, dest);
  }

  lemma {:induction false} AgentTipMessage(name: string, dest: string)
    requires IsScanSafe(dest)
    ensures TrailerValue(AgentMessage(name, dest), IMPORT_TRAILER) == Some(dest)
    ensures LooksLikeTip(AgentMessage(name, dest)) <==> LeavesATipTrailer(name)
  {
    var lead := "Apply agent_transform ";
    assert lead[0] == 'A' && '\n' !in lead;
    OneTipMessage(lead, AGENT_TRAILER, PATCH_TRAILER, name, dest);
  }

  lemma {:induction false} OneLineLabel(name: string)
    requires '\n' !in name
    ensures LeavesATipTrailer(name) <==> Trim(name) != ""
  {
    OneLineValue(name);
    assert Lines("") == [];
  }

  lemma {:induction false} OneTipMessage(lead: string, key: string, other: string, name: string, dest: string)
    requires IsScanSafe(dest) && lead != "" && '\n' !in lead && !IsWhitespace(lead[0]) && lead[0] != 'C'
    requires {key, other} == {PATCH_TRAILER, AGENT_TRAILER}
    ensures TrailerValue(OwnMessage(lead, key, name, dest), IMPORT_TRAILER) == Some(dest)
    ensures LooksLikeTip(OwnMessage(lead, key, name, dest)) <==> LeavesATipTrailer(name)
  {
    KeysAreDistinct();
    var m := OwnMessage(lead, key, name, dest);
    ScanOfOwnMessage(lead, key, name, dest, IMPORT_TRAILER);
    ScanOfOwnMessage(lead, key, name, dest, ORIGIN_TRAILER);
    ScanOfOwnMessage(lead, key, name, dest, key);
    ScanOfOwnMessage(lead, key, name, dest, other);
    HasTrailerExactlyWhenValue(m, key);
    HasTrailerExactlyWhenValue(m, other);
    HasTrailerExactlyWhenValue(LaterLines(name), key);
    HasTrailerExactlyWhenValue(LaterLines(name), other);
  }

  /** Vendor messages: scoped, without an origin, and the pin is read back. */
  lemma {:induction false} VendorTrailersSurvive(slug: string, commit: Oid, dest: string)
    requires IsScanSafe(dest) && IsScanSafe(slug)
    ensures TrailerValue(VendorMessage(slug, commit, dest), IMPORT_TRAILER) == Some(dest)
    ensures TrailerValue(VendorMessage(slug, commit, dest), ORIGIN_TRAILER) == None
    ensures TrailerValue(VendorMessage(slug, commit, dest), VENDOR_TRAILER) == Some(slug + "@" + commit)
  {
    KeysAreDistinct();
    OidIsPlain(commit);
    var pin := slug + "@" + commit;
    assert IsScanSafe(pin);
    ScanSafeTrims(pin);
    ValueSplits(pin);
    ScanOfOwnMessage("Vendor ", VENDOR_TRAILER, pin, dest, IMPORT_TRAILER);
    ScanOfOwnMessage("Vendor ", VENDOR_TRAILER, pin, dest, ORIGIN_TRAILER);
    ScanOfOwnMessage("Vendor ", VENDOR_TRAILER, pin, dest, VENDOR_TRAILER);
  }
}
