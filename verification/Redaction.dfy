/**
 * The private-key scanner of src/redact.js: every block from a PEM BEGIN marker with a
 * PRIVATE KEY name to the matching END marker is replaced by a fixed word.
 *
 * A marker is specified as text (`IsMarker`), independently of the index arithmetic the scanner
 * uses to find it; the scanner jumps over a whole prefix after each failed match, the
 * specification looks at every position.
 */
module Redaction {
  import opened Common

  const BEGIN_PREFIX := "-----BEGIN "
  const END_PREFIX := "-----END "
  const MARKER_SUFFIX := "-----"
  const LABEL_SUFFIX := "PRIVATE KEY"
  const REPLACEMENT := "[REDACTED]"

  // ---------- markers as text ----------

  predicate LabelChar(c: char) { c == ' ' || 'A' <= c <= 'Z' }

  predicate ValidLabel(name: string) {
    && |name| >= |LABEL_SUFFIX|
    && name[|name| - |LABEL_SUFFIX|..] == LABEL_SUFFIX
    && forall k :: 0 <= k < |name| - |LABEL_SUFFIX| ==> LabelChar(name[k])
  }

  predicate IsMarker(m: string, prefix: string) {
    && |m| >= |prefix| + |MARKER_SUFFIX|
    && m[..|prefix|] == prefix
    && m[|m| - |MARKER_SUFFIX|..] == MARKER_SUFFIX
    && ValidLabel(m[|prefix|..|m| - |MARKER_SUFFIX|])
  }

  predicate MarkerSpan(v: string, i: nat, e: nat, prefix: string) {
    i <= e <= |v| && IsMarker(v[i..e], prefix)
  }

  /** What a marker is: dashes, the word, a name of capitals and spaces that ends in the private-key words, dashes. */
  lemma MarkerMeans(m: string, word: string)
    ensures IsMarker(m, "-----" + word + " ") <==>
              exists name: string :: (forall c :: c in name ==> c == ' ' || 'A' <= c <= 'Z')
                                     && m == "-----" + word + " " + name + "PRIVATE KEY" + "-----"
  {
    var prefix := "-----" + word + " ";
    if IsMarker(m, prefix) {
      var words := m[|prefix|..|m| - 5];
      var name := words[..|words| - 11];
      assert words == name + words[|words| - 11..];
      assert m == m[..|prefix|] + words + m[|m| - 5..];
      forall c | c in name ensures c == ' ' || 'A' <= c <= 'Z' {
        var k :| 0 <= k < |name| && name[k] == c;
        assert LabelChar(words[k]);
      }
      assert m == prefix + name + "PRIVATE KEY" + "-----";
    }
    if name: string :| (forall c :: c in name ==> c == ' ' || 'A' <= c <= 'Z') && m == prefix + name + "PRIVATE KEY" + "-----" {
      var words := m[|prefix|..|m| - 5];
      assert words == name + "PRIVATE KEY";
      forall k | 0 <= k < |words| - 11 ensures LabelChar(words[k]) {
        assert words[k] == name[k] && name[k] in name;
      }
      assert m[..|prefix|] == prefix;
      assert m[|m| - 5..] == "-----";
    }
  }

  ghost predicate HasMarker(v: string, prefix: string) {
    exists i: nat, e: nat :: MarkerSpan(v, i, e, prefix)
  }

  // ---------- the library searches ----------

  predicate StartsWith(v: string, pattern: string, i: nat) {
    i + |pattern| <= |v| && v[i..i + |pattern|] == pattern
  }

  /** First position at or after `from` where `pattern` occurs, or -1. */
  function IndexOf(v: string, pattern: string, from: nat): (r: int)
    ensures r == -1 || (from <= r && StartsWith(v, pattern, r))
    ensures forall i: nat :: from <= i && (r == -1 || i < r) ==> !StartsWith(v, pattern, i)
    decreases |v| - from
  {
    if from + |pattern| > |v| then -1
    else if StartsWith(v, pattern, from) then from
    else IndexOf(v, pattern, from + 1)
  }

  // ---------- the scanner's marker test ----------

  method PrivateKeyLabel(value: string, start: nat, end: nat) returns (ok: bool)
    requires start <= end <= |value|
    ensures ok == ValidLabel(value[start..end])
  {
    if end - start < |LABEL_SUFFIX| {
      return false;
    }
    var suffixStart := end - |LABEL_SUFFIX|;
    assert value[start..end][suffixStart - start..] == value[suffixStart..end];
    if !StartsWith(value, LABEL_SUFFIX, suffixStart) {
      return false;
    }
    var index := start;
    while index < suffixStart
      invariant start <= index <= suffixStart
      invariant forall k :: 0 <= k < index - start ==> LabelChar(value[start..end][k])
    {
      if value[index] != ' ' && (value[index] < 'A' || value[index] > 'Z') {
        assert !LabelChar(value[start..end][index - start]);
        return false;
      }
      index := index + 1;
    }
    return true;
  }

  /** End of the marker that starts at `start`, or -1. */
  function MarkerEnd(v: string, start: nat, prefix: string): int {
    if !StartsWith(v, prefix, start) then -1
    else
      var suffixStart := IndexOf(v, MARKER_SUFFIX, start + |prefix|);
      if suffixStart == -1 || !ValidLabel(v[start + |prefix|..suffixStart]) then -1
      else suffixStart + |MARKER_SUFFIX|
  }

  method PrivateKeyMarkerEnd(value: string, start: nat, prefix: string) returns (end: int)
    ensures end == MarkerEnd(value, start, prefix)
  {
    if !StartsWith(value, prefix, start) {
      return -1;
    }
    var labelStart := start + |prefix|;
    var suffixStart := IndexOf(value, MARKER_SUFFIX, labelStart);
    if suffixStart == -1 {
      return -1;
    }
    var ok := PrivateKeyLabel(value, labelStart, suffixStart);
    if !ok {
      return -1;
    }
    return suffixStart + |MARKER_SUFFIX|;
  }

  lemma ValidLabelHasNoDash(name: string)
    requires ValidLabel(name)
    ensures forall k :: 0 <= k < |name| ==> LabelChar(name[k])
  {
    var n := |name| - |LABEL_SUFFIX|;
    forall k | 0 <= k < |name| ensures LabelChar(name[k]) {
      if k >= n {
        assert name[k] == name[n..][k - n];
      }
    }
  }

  lemma SuffixNeedsDash(v: string, k: nat)
    requires StartsWith(v, MARKER_SUFFIX, k)
    ensures v[k] == '-'
  {
    assert v[k] == v[k..k + |MARKER_SUFFIX|][0];
  }

  /** After a valid name the first dashes are the marker's own. */
  lemma SuffixRightAfterName(v: string, start: nat, end: nat)
    requires start <= end && StartsWith(v, MARKER_SUFFIX, end) && ValidLabel(v[start..end])
    ensures IndexOf(v, MARKER_SUFFIX, start) == end
  {
    var name := v[start..end];
    ValidLabelHasNoDash(name);
    var found := IndexOf(v, MARKER_SUFFIX, start);
    SuffixNeedsDash(v, found);
    assert forall k :: start <= k < end ==> v[k] == name[k - start];
  }

  lemma MarkerIsFound(v: string, i: nat, e: nat, prefix: string)
    requires MarkerSpan(v, i, e, prefix)
    ensures MarkerEnd(v, i, prefix) == e
  {
    var m := v[i..e];
    var labelStart := i + |prefix|;
    var suffixStart := e - |MARKER_SUFFIX|;
    SliceOfSlice(v, i, e, 0, |prefix|);
    SliceOfSlice(v, i, e, |m| - |MARKER_SUFFIX|, |m|);
    SliceOfSlice(v, i, e, |prefix|, |m| - |MARKER_SUFFIX|);
    SuffixRightAfterName(v, labelStart, suffixStart);
  }

  lemma FoundIsMarker(v: string, i: nat, e: nat, prefix: string)
    requires MarkerEnd(v, i, prefix) == e
    ensures MarkerSpan(v, i, e, prefix)
  {
    var suffixStart := IndexOf(v, MARKER_SUFFIX, i + |prefix|);
    var m := v[i..e];
    SliceOfSlice(v, i, e, 0, |prefix|);
    SliceOfSlice(v, i, e, |m| - |MARKER_SUFFIX|, |m|);
    SliceOfSlice(v, i, e, |prefix|, |m| - |MARKER_SUFFIX|);
  }

  /** The index arithmetic of the scanner finds exactly the marker text, whose end is unique. */
  lemma MarkerEndIsMarker(v: string, i: nat, e: nat, prefix: string)
    ensures MarkerSpan(v, i, e, prefix) <==> MarkerEnd(v, i, prefix) == e
  {
    if MarkerSpan(v, i, e, prefix) { MarkerIsFound(v, i, e, prefix); }
    if MarkerEnd(v, i, prefix) == e { FoundIsMarker(v, i, e, prefix); }
  }

  // ---------- leftmost markers ----------

  datatype Span = Span(start: nat, end: nat)

  /** The leftmost marker that starts at or after `from`, found by looking at every position. */
  function Leftmost(v: string, from: nat, prefix: string): (r: Option<Span>)
    requires prefix != ""
    ensures r.Some? ==> from <= r.value.start < r.value.end <= |v| && MarkerEnd(v, r.value.start, prefix) == r.value.end
    ensures forall i: nat :: from <= i && (r.None? || i < r.value.start) ==> MarkerEnd(v, i, prefix) == -1
    decreases |v| - from
  {
    if from >= |v| then None
    else if MarkerEnd(v, from, prefix) != -1 then Some(Span(from, MarkerEnd(v, from, prefix)))
    else Leftmost(v, from + 1, prefix)
  }

  lemma LeftmostAt(v: string, from: nat, prefix: string, start: nat)
    requires prefix != "" && from <= start
    requires MarkerEnd(v, start, prefix) != -1
    requires forall i: nat :: from <= i < start ==> MarkerEnd(v, i, prefix) == -1
    ensures Leftmost(v, from, prefix) == Some(Span(start, MarkerEnd(v, start, prefix)))
  {
  }

  /** A prefix of the given markers never overlaps itself, so a failed match can be skipped whole. */
  lemma NoOverlap(v: string, prefix: string, i: nat, j: nat)
    requires prefix == BEGIN_PREFIX || prefix == END_PREFIX
    requires StartsWith(v, prefix, i) && StartsWith(v, prefix, j) && i < j
    ensures i + |prefix| <= j
  {
    var last := i + |prefix| - 1;
    assert v[last] == v[i..i + |prefix|][|prefix| - 1] == ' ';
    assert forall k :: j <= k < j + |prefix| ==> v[k] == v[j..j + |prefix|][k - j];
  }

  lemma SkipFailedMatch(v: string, prefix: string, from: nat, at: nat)
    requires prefix == BEGIN_PREFIX || prefix == END_PREFIX
    requires IndexOf(v, prefix, from) == at && MarkerEnd(v, at, prefix) == -1
    ensures forall i: nat :: from <= i < at + |prefix| ==> MarkerEnd(v, i, prefix) == -1
  {
    forall i: nat | from <= i < at + |prefix| ensures MarkerEnd(v, i, prefix) == -1 {
      if i > at && StartsWith(v, prefix, i) {
        NoOverlap(v, prefix, at, i);
      }
    }
  }

  // ---------- what is kept ----------

  /**
   * The text from `from` on with every block replaced: a block runs from the leftmost remaining
   * BEGIN marker to the end of the leftmost END marker after it, or to the end of the text.
   */
  function RedactedFrom(v: string, from: nat): string
    requires from <= |v|
    decreases |v| - from
  {
    match Leftmost(v, from, BEGIN_PREFIX)
    case None => v[from..]
    case Some(begin) => v[from..begin.start] + REPLACEMENT + AfterBegin(v, begin.end)
  }

  function AfterBegin(v: string, beginEnd: nat): string
    requires beginEnd <= |v|
    decreases |v| - beginEnd
  {
    match Leftmost(v, beginEnd, END_PREFIX)
    case None => ""
    case Some(end) => RedactedFrom(v, end.end)
  }

  predicate BlockEndIs(v: string, from: nat, endEnd: int)
    requires from <= |v|
  {
    match Leftmost(v, from, END_PREFIX)
    case None => endEnd == -1
    case Some(end) => endEnd == end.end
  }

  /** The inner loop of the scanner: the end of the first END marker from `from` on, or -1. */
  method FindBlockEnd(value: string, from: nat) returns (endEnd: int)
    requires from <= |value|
    ensures BlockEndIs(value, from, endEnd)
  {
    endEnd := -1;
    var endSearchFrom: nat := from;
    while endSearchFrom < |value|
      invariant from <= endSearchFrom
      invariant forall i: nat :: from <= i < endSearchFrom ==> MarkerEnd(value, i, END_PREFIX) == -1
      decreases |value| + |END_PREFIX| - endSearchFrom
    {
      var endStart := IndexOf(value, END_PREFIX, endSearchFrom);
      if endStart == -1 {
        return -1;
      }
      endEnd := PrivateKeyMarkerEnd(value, endStart, END_PREFIX);
      if endEnd != -1 {
        LeftmostAt(value, from, END_PREFIX, endStart);
        return;
      }
      SkipFailedMatch(value, END_PREFIX, endSearchFrom, endStart);
      endSearchFrom := endStart + |END_PREFIX|;
    }
  }

  lemma PiecesGrow(pieces: seq<string>, kept: string, rest: string)
    ensures Flatten(pieces) + (kept + REPLACEMENT + rest) == Flatten(pieces + [kept, REPLACEMENT]) + rest
  {
    FlattenSnoc(pieces, kept);
    FlattenSnoc(pieces + [kept], REPLACEMENT);
    assert pieces + [kept, REPLACEMENT] == pieces + [kept] + [REPLACEMENT];
  }

  /** One turn of the scanner's loop on the text that is still to come. */
  lemma BlockStep(v: string, copied: nat, beginStart: nat, beginEnd: nat, endEnd: int)
    requires copied <= beginStart < beginEnd <= |v| && MarkerEnd(v, beginStart, BEGIN_PREFIX) == beginEnd
    requires forall i: nat :: copied <= i < beginStart ==> MarkerEnd(v, i, BEGIN_PREFIX) == -1
    requires BlockEndIs(v, beginEnd, endEnd)
    ensures endEnd == -1 || beginEnd <= endEnd <= |v|
    ensures AfterBegin(v, beginEnd) == RedactedFrom(v, if endEnd == -1 then |v| else endEnd)
    ensures RedactedFrom(v, copied) == v[copied..beginStart] + REPLACEMENT + AfterBegin(v, beginEnd)
  {
    LeftmostAt(v, copied, BEGIN_PREFIX, beginStart);
  }

  lemma LeftmostNone(v: string, copied: nat)
    requires copied <= |v|
    requires forall i: nat :: copied <= i ==> MarkerEnd(v, i, BEGIN_PREFIX) == -1
    ensures RedactedFrom(v, copied) == v[copied..]
  {
  }

  /** The scanner of src/redact.js. */
  method RedactPrivateKeyBlocks(value: string) returns (output: string)
    ensures output == RedactedFrom(value, 0)
  {
    var pieces: seq<string> := [];
    var found := false;
    var copiedThrough: nat := 0;
    var searchFrom: nat := 0;
    while searchFrom < |value|
      invariant copiedThrough <= |value| && copiedThrough <= searchFrom
      invariant forall i: nat :: copiedThrough <= i < searchFrom ==> MarkerEnd(value, i, BEGIN_PREFIX) == -1
      invariant !found ==> pieces == [] && copiedThrough == 0
      invariant Flatten(pieces) + RedactedFrom(value, copiedThrough) == RedactedFrom(value, 0)
      decreases |value| + |BEGIN_PREFIX| - searchFrom
    {
      var beginStart := IndexOf(value, BEGIN_PREFIX, searchFrom);
      if beginStart == -1 {
        break;
      }
      var beginEnd := PrivateKeyMarkerEnd(value, beginStart, BEGIN_PREFIX);
      if beginEnd == -1 {
        SkipFailedMatch(value, BEGIN_PREFIX, searchFrom, beginStart);
        searchFrom := beginStart + |BEGIN_PREFIX|;
        continue;
      }
      var endEnd := FindBlockEnd(value, beginEnd);
      BlockStep(value, copiedThrough, beginStart, beginEnd, endEnd);
      PiecesGrow(pieces, value[copiedThrough..beginStart], AfterBegin(value, beginEnd));
      pieces := pieces + [value[copiedThrough..beginStart], REPLACEMENT];
      found := true;
      copiedThrough := if endEnd == -1 then |value| else endEnd;
      searchFrom := copiedThrough;
    }
    LeftmostNone(value, copiedThrough);
    if !found {
      return value;
    }
    FlattenSnoc(pieces, value[copiedThrough..]);
    output := Flatten(pieces + [value[copiedThrough..]]);
  }

  // ---------- what the output is ----------

  ghost predicate NoMarkerStarts(v: string, lo: nat, hi: nat, prefix: string) {
    forall i: nat, e: nat :: lo <= i < hi ==> !MarkerSpan(v, i, e, prefix)
  }

  /** A block as text: it opens with a BEGIN marker and ends with the first END marker after it. */
  ghost predicate IsBlock(v: string, block: Span, beginEnd: nat) {
    && MarkerSpan(v, block.start, beginEnd, BEGIN_PREFIX)
    && block.end <= |v|
    && (|| (block.end == |v| && NoMarkerStarts(v, beginEnd, |v|, END_PREFIX))
        || exists endStart: nat ::
             && beginEnd <= endStart
             && MarkerSpan(v, endStart, block.end, END_PREFIX)
             && NoMarkerStarts(v, beginEnd, endStart, END_PREFIX))
  }

  /** The blocks of `v` from `from` on, leftmost first, each taken after the one before it ends. */
  ghost predicate IsBlockList(v: string, from: nat, blocks: seq<Span>)
    decreases |blocks|
  {
    if blocks == [] then from <= |v| && NoMarkerStarts(v, from, |v|, BEGIN_PREFIX)
    else
      && from <= blocks[0].start < blocks[0].end
      && NoMarkerStarts(v, from, blocks[0].start, BEGIN_PREFIX)
      && (exists beginEnd: nat :: IsBlock(v, blocks[0], beginEnd))
      && IsBlockList(v, blocks[0].end, blocks[1..])
  }

  /** The text outside the given blocks, in order, with the fixed word in place of each block. */
  function Splice(v: string, from: nat, blocks: seq<Span>): string
    decreases |blocks|
  {
    if blocks == [] then (if from <= |v| then v[from..] else "")
    else (if from <= blocks[0].start <= |v| then v[from..blocks[0].start] else "")
         + REPLACEMENT + Splice(v, blocks[0].end, blocks[1..])
  }

  lemma NoMarkerMeansNone(v: string, lo: nat, hi: nat, prefix: string)
    requires NoMarkerStarts(v, lo, hi, prefix)
    ensures forall i: nat :: lo <= i < hi ==> MarkerEnd(v, i, prefix) == -1
  {
    forall i: nat | lo <= i < hi ensures MarkerEnd(v, i, prefix) == -1 {
      if MarkerEnd(v, i, prefix) != -1 {
        FoundIsMarker(v, i, MarkerEnd(v, i, prefix), prefix);
      }
    }
  }

  lemma NoneMeansNoMarker(v: string, lo: nat, hi: nat, prefix: string)
    requires forall i: nat :: lo <= i < hi ==> MarkerEnd(v, i, prefix) == -1
    ensures NoMarkerStarts(v, lo, hi, prefix)
  {
    forall i: nat, e: nat | lo <= i < hi ensures !MarkerSpan(v, i, e, prefix) {
      if MarkerSpan(v, i, e, prefix) {
        MarkerIsFound(v, i, e, prefix);
      }
    }
  }

  lemma BlockEnd(v: string, block: Span, beginEnd: nat)
    requires IsBlock(v, block, beginEnd) && block.start < block.end
    ensures beginEnd <= |v| && beginEnd <= block.end && MarkerEnd(v, block.start, BEGIN_PREFIX) == beginEnd
    ensures AfterBegin(v, beginEnd) == if Leftmost(v, beginEnd, END_PREFIX).None? then "" else RedactedFrom(v, block.end)
    ensures Leftmost(v, beginEnd, END_PREFIX).None? ==> block.end == |v|
  {
    MarkerIsFound(v, block.start, beginEnd, BEGIN_PREFIX);
    if endStart: nat :|
      && beginEnd <= endStart
      && MarkerSpan(v, endStart, block.end, END_PREFIX)
      && NoMarkerStarts(v, beginEnd, endStart, END_PREFIX)
    {
      MarkerIsFound(v, endStart, block.end, END_PREFIX);
      NoMarkerMeansNone(v, beginEnd, endStart, END_PREFIX);
      LeftmostAt(v, beginEnd, END_PREFIX, endStart);
    } else {
      NoMarkerMeansNone(v, beginEnd, |v|, END_PREFIX);
    }
  }

  /** Main result: the output is exactly the text outside the leftmost begin-to-end blocks. */
  lemma {:induction false} RedactedKeepsOutside(v: string, from: nat, blocks: seq<Span>)
    requires IsBlockList(v, from, blocks)
    ensures from <= |v| && RedactedFrom(v, from) == Splice(v, from, blocks)
    decreases |blocks|
  {
    if blocks == [] {
      NoMarkerMeansNone(v, from, |v|, BEGIN_PREFIX);
    } else {
      var b := blocks[0];
      var beginEnd: nat :| IsBlock(v, b, beginEnd);
      NoMarkerMeansNone(v, from, b.start, BEGIN_PREFIX);
      BlockEnd(v, b, beginEnd);
      LeftmostAt(v, from, BEGIN_PREFIX, b.start);
      RedactedKeepsOutside(v, b.end, blocks[1..]);
      RedactedAtEnd(v);
    }
  }

  lemma RedactedAtEnd(v: string)
    ensures RedactedFrom(v, |v|) == ""
  {
  }

  /** Such a list of blocks always exists. */
  lemma {:induction false} BlocksExist(v: string, from: nat) returns (blocks: seq<Span>)
    requires from <= |v|
    ensures IsBlockList(v, from, blocks)
    decreases |v| - from
  {
    var begin := Leftmost(v, from, BEGIN_PREFIX);
    if begin.None? {
      NoneMeansNoMarker(v, from, |v|, BEGIN_PREFIX);
      return [];
    }
    var beginEnd := begin.value.end;
    FoundIsMarker(v, begin.value.start, beginEnd, BEGIN_PREFIX);
    NoneMeansNoMarker(v, from, begin.value.start, BEGIN_PREFIX);
    var end := Leftmost(v, beginEnd, END_PREFIX);
    if end.None? {
      NoneMeansNoMarker(v, beginEnd, |v|, END_PREFIX);
      NoneFromEnd(v);
      blocks := [Span(begin.value.start, |v|)];
      assert IsBlock(v, blocks[0], beginEnd);
      assert blocks[1..] == [];
    } else {
      FoundIsMarker(v, end.value.start, end.value.end, END_PREFIX);
      NoneMeansNoMarker(v, beginEnd, end.value.start, END_PREFIX);
      var rest := BlocksExist(v, end.value.end);
      blocks := [Span(begin.value.start, end.value.end)] + rest;
      assert IsBlock(v, blocks[0], beginEnd);
      assert blocks[1..] == rest;
    }
  }

  lemma NoneFromEnd(v: string)
    ensures NoMarkerStarts(v, |v|, |v|, BEGIN_PREFIX)
  {
  }

  // ---------- nothing is left, and nothing changes twice ----------

  lemma MarkerChars(m: string)
    requires IsMarker(m, BEGIN_PREFIX)
    ensures m[0] == '-' && '[' !in m
  {
    var name := m[|BEGIN_PREFIX|..|m| - |MARKER_SUFFIX|];
    ValidLabelHasNoDash(name);
    forall k | 0 <= k < |m| ensures m[k] != '[' {
      if k < |BEGIN_PREFIX| {
        assert m[k] == BEGIN_PREFIX[k];
      } else if k < |m| - |MARKER_SUFFIX| {
        assert m[k] == name[k - |BEGIN_PREFIX|];
      } else {
        assert m[k] == MARKER_SUFFIX[k - (|m| - |MARKER_SUFFIX|)];
      }
    }
    assert m[0] == BEGIN_PREFIX[0];
  }

  /** A marker of the joined text lies wholly on one side of the inserted word. */
  lemma MarkerOnOneSide(left: string, right: string, i: nat, e: nat)
    requires MarkerSpan(left + REPLACEMENT + right, i, e, BEGIN_PREFIX)
    ensures MarkerSpan(left, i, e, BEGIN_PREFIX)
         || (|left| + |REPLACEMENT| <= i && MarkerSpan(right, i - |left| - |REPLACEMENT|, e - |left| - |REPLACEMENT|, BEGIN_PREFIX))
  {
    var whole := left + REPLACEMENT + right;
    var m := whole[i..e];
    MarkerChars(m);
    assert m[0] == whole[i];
    assert whole[|left|] == '[';
    assert forall k :: i <= k < e ==> m[k - i] == whole[k];
    assert forall k :: |left| < k < |left| + |REPLACEMENT| ==> whole[k] == REPLACEMENT[k - |left|];
    if e <= |left| {
      assert left[i..e] == m;
    } else {
      var shift := |left| + |REPLACEMENT|;
      assert right[i - shift..e - shift] == m;
    }
  }

  lemma KeptPieceHasNoMarker(v: string, from: nat, to: nat)
    requires from <= to <= |v|
    requires forall i: nat :: from <= i < to ==> MarkerEnd(v, i, BEGIN_PREFIX) == -1
    ensures !HasMarker(v[from..to], BEGIN_PREFIX)
  {
    forall i: nat, e: nat ensures !MarkerSpan(v[from..to], i, e, BEGIN_PREFIX) {
      if MarkerSpan(v[from..to], i, e, BEGIN_PREFIX) {
        SliceOfSlice(v, from, to, i, e);
        MarkerIsFound(v, from + i, from + e, BEGIN_PREFIX);
      }
    }
  }

  lemma {:induction false} NoMarkerFrom(v: string, from: nat)
    requires from <= |v|
    ensures !HasMarker(RedactedFrom(v, from), BEGIN_PREFIX)
    decreases |v| - from
  {
    match Leftmost(v, from, BEGIN_PREFIX)
    case None =>
      KeptPieceHasNoMarker(v, from, |v|);
      assert v[from..|v|] == v[from..];
    case Some(begin) =>
      var left := v[from..begin.start];
      var right := AfterBegin(v, begin.end);
      KeptPieceHasNoMarker(v, from, begin.start);
      var end := Leftmost(v, begin.end, END_PREFIX);
      if end.Some? {
        NoMarkerFrom(v, end.value.end);
      }
      forall i: nat, e: nat ensures !MarkerSpan(left + REPLACEMENT + right, i, e, BEGIN_PREFIX) {
        if MarkerSpan(left + REPLACEMENT + right, i, e, BEGIN_PREFIX) {
          MarkerOnOneSide(left, right, i, e);
        }
      }
  }

  /** No BEGIN marker with a PRIVATE KEY label is left, and text without one is not changed. */
  lemma NoMarkerLeft(v: string)
    ensures !HasMarker(RedactedFrom(v, 0), BEGIN_PREFIX)
    ensures RedactedFrom(v, 0) == v <==> !HasMarker(v, BEGIN_PREFIX)
  {
    NoMarkerFrom(v, 0);
    if !HasMarker(v, BEGIN_PREFIX) {
      NoMarkerMeansNone(v, 0, |v|, BEGIN_PREFIX);
      assert v[0..] == v;
    }
  }

  /** Scanning the output again changes nothing. */
  lemma RedactionIdempotent(v: string)
    ensures RedactedFrom(RedactedFrom(v, 0), 0) == RedactedFrom(v, 0)
  {
    NoMarkerLeft(v);
    NoMarkerLeft(RedactedFrom(v, 0));
  }
}
