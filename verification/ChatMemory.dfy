/** Retained chat chunks and extractive summaries of src/chat-memory.js. */
module ChatMemory {
  import opened Common
  import opened JsonText

  // ---------- chunks ----------

  const CHUNK_UNITS := 24_000

  /** Cutting before this position would separate the halves of one character. */
  predicate SplitsPair(text: Text, at: nat) {
    0 < at < |text| && HighSurrogate(text[at - 1]) && LowSurrogate(text[at])
  }

  function ChunkEnd(text: Text, offset: nat): (end: nat)
    requires offset < |text|
    ensures offset < end <= |text| && end - offset <= CHUNK_UNITS
    ensures end < |text| ==> end - offset >= CHUNK_UNITS - 1
    ensures !SplitsPair(text, end)
  {
    var end := Min(|text|, offset + CHUNK_UNITS);
    if end < |text| && HighSurrogate(text[end - 1]) then end - 1 else end
  }

  /** Where the chunk before `i` ends. */
  function Boundary(chunks: seq<Text>, i: nat): nat
    requires i <= |chunks|
  {
    |Flatten(chunks[..i])|
  }

  ghost predicate SizesOk(chunks: seq<Text>) {
    forall i :: 0 <= i < |chunks| ==> 0 < |chunks[i]| <= CHUNK_UNITS
  }

  ghost predicate AllButLastAreFull(chunks: seq<Text>) {
    forall i :: 0 <= i < |chunks| - 1 ==> |chunks[i]| >= CHUNK_UNITS - 1
  }

  ghost predicate KeepsPairs(chunks: seq<Text>, text: Text) {
    forall i :: 0 <= i <= |chunks| ==> !SplitsPair(text, Boundary(chunks, i))
  }

  ghost predicate Chunked(chunks: seq<Text>, text: Text, offset: nat) {
    && offset <= |text| && Flatten(chunks) == text[..offset]
    && SizesOk(chunks) && KeepsPairs(chunks, text)
    && (forall i :: 0 <= i < |chunks| && (i < |chunks| - 1 || offset < |text|) ==> |chunks[i]| >= CHUNK_UNITS - 1)
  }

  lemma OneMoreChunk(chunks: seq<Text>, text: Text, offset: nat)
    requires Chunked(chunks, text, offset) && offset < |text|
    ensures Chunked(chunks + [text[offset..ChunkEnd(text, offset)]], text, ChunkEnd(text, offset))
  {
    var end := ChunkEnd(text, offset);
    var chunk := text[offset..end];
    var after := chunks + [chunk];
    FlattenSnoc(chunks, chunk);
    assert text[..end] == text[..offset] + chunk;
    forall i | 0 <= i <= |after| ensures !SplitsPair(text, Boundary(after, i)) {
      if i <= |chunks| {
        assert after[..i] == chunks[..i];
        assert !SplitsPair(text, Boundary(chunks, i));
      } else {
        assert after[..i] == after;
      }
    }
  }

  /** Main result: non-empty bounded chunks that concatenate to the text and split no surrogate pair. */
  method ChunkText(text: Text) returns (chunks: seq<Text>)
    ensures Flatten(chunks) == text && SizesOk(chunks) && KeepsPairs(chunks, text) && AllButLastAreFull(chunks)
  {
    chunks := [];
    var offset := 0;
    assert Boundary(chunks, 0) == 0;
    while offset < |text|
      invariant Chunked(chunks, text, offset)
      decreases |text| - offset
    {
      OneMoreChunk(chunks, text, offset);
      var end := ChunkEnd(text, offset);
      chunks := chunks + [text[offset..end]];
      offset := end;
    }
    assert text[..|text|] == text;
  }

  // ---------- sentences ----------

  const SPACE: Unit := 32

  predicate EndsSentence(u: Unit) { u == 46 || u == 33 || u == 63 }

  function SkipWhile(value: Text, i: nat, ends: bool): (r: nat)
    requires i <= |value|
    ensures i <= r <= |value|
    decreases |value| - i
  {
    if i < |value| && EndsSentence(value[i]) == ends then SkipWhile(value, i + 1, ends) else i
  }

  /** Runs without a sentence end, each with the one that follows it; a text without any is one sentence. */
  function Matches(value: Text, i: nat): seq<Text>
    requires i <= |value|
    decreases |value| - i
  {
    var from := SkipWhile(value, i, true);
    if from == |value| then []
    else
      var run := SkipWhile(value, from, false);
      var end := if run < |value| then run + 1 else run;
      if end <= from then [] else [value[from..end]] + Matches(value, end)
  }

  function TrimLeft(s: Text): Text { if s != [] && s[0] == SPACE then TrimLeft(s[1..]) else s }

  function TrimRight(s: Text): Text { if s != [] && s[|s| - 1] == SPACE then TrimRight(s[..|s| - 1]) else s }

  function TrimAll(sentences: seq<Text>): (r: seq<Text>)
    ensures |r| == |sentences|
  {
    seq(|sentences|, i requires 0 <= i < |sentences| => TrimRight(TrimLeft(sentences[i])))
  }

  function Sentences(value: Text): seq<Text> {
    var found := Matches(value, 0);
    TrimAll(if found == [] then [value] else found)
  }

  // ---------- ranking ----------

  predicate RanksBefore(scores: seq<nat>, a: nat, b: nat)
    requires a < |scores| && b < |scores|
  {
    scores[a] > scores[b] || (scores[a] == scores[b] && a < b)
  }

  predicate Within(indices: seq<nat>, n: nat) { forall k :: 0 <= k < |indices| ==> indices[k] < n }

  function InsertRanked(scores: seq<nat>, ranked: seq<nat>, i: nat): (r: seq<nat>)
    requires i < |scores| && Within(ranked, |scores|)
    ensures Within(r, |scores|) && |r| == |ranked| + 1
    ensures multiset(r) == multiset(ranked) + multiset{i}
  {
    if ranked == [] then [i]
    else
      var front, last := ranked[..|ranked| - 1], ranked[|ranked| - 1];
      assert ranked == front + [last];
      if RanksBefore(scores, i, last) then InsertRanked(scores, front, i) + [last] else ranked + [i]
  }

  /** The indices below `n`, best score first, ties in text order. */
  function Ranking(scores: seq<nat>, n: nat): (r: seq<nat>)
    requires n <= |scores|
    ensures Within(r, |scores|) && |r| == n
  {
    if n == 0 then [] else InsertRanked(scores, Ranking(scores, n - 1), n - 1)
  }

  ghost predicate IsRanked(scores: seq<nat>, r: seq<nat>) {
    && Within(r, |scores|)
    && forall i, j :: 0 <= i < j < |r| ==> RanksBefore(scores, r[i], r[j])
  }

  lemma {:induction false} InsertKeepsRanking(scores: seq<nat>, ranked: seq<nat>, i: nat)
    requires i < |scores| && IsRanked(scores, ranked) && forall k :: 0 <= k < |ranked| ==> ranked[k] != i
    ensures IsRanked(scores, InsertRanked(scores, ranked, i))
  {
    if ranked != [] {
      var front, last := ranked[..|ranked| - 1], ranked[|ranked| - 1];
      assert ranked == front + [last];
      if RanksBefore(scores, i, last) {
        InsertKeepsRanking(scores, front, i);
        var inserted := InsertRanked(scores, front, i);
        forall k | 0 <= k < |inserted| ensures RanksBefore(scores, inserted[k], last) {
          assert inserted[k] in multiset(inserted);
          if inserted[k] != i {
            assert inserted[k] in front;
          }
        }
      }
    }
  }

  lemma InsertedMembers(scores: seq<nat>, ranked: seq<nat>, i: nat)
    requires i < |scores| && Within(ranked, |scores|)
    ensures forall k: nat :: k in InsertRanked(scores, ranked, i) <==> k in ranked || k == i
  {
    var r := InsertRanked(scores, ranked, i);
    forall k: nat ensures k in r <==> k in ranked || k == i {
      assert k in r <==> k in multiset(r);
      assert k in ranked <==> k in multiset(ranked);
    }
  }

  lemma MembersBelow(scores: seq<nat>, ranked: seq<nat>, n: nat)
    requires n < |scores| && Within(ranked, |scores|) && forall i: nat :: i in ranked <==> i < n
    ensures forall i: nat :: i in InsertRanked(scores, ranked, n) <==> i < n + 1
  {
    InsertedMembers(scores, ranked, n);
  }

  lemma {:induction false} RankingMembers(scores: seq<nat>, n: nat)
    requires n <= |scores|
    ensures forall i: nat :: i in Ranking(scores, n) <==> i < n
  {
    if n > 0 {
      RankingMembers(scores, n - 1);
      MembersBelow(scores, Ranking(scores, n - 1), n - 1);
    }
  }

  lemma {:induction false} RankingIsRanked(scores: seq<nat>, n: nat)
    requires n <= |scores|
    ensures IsRanked(scores, Ranking(scores, n))
  {
    if n > 0 {
      RankingIsRanked(scores, n - 1);
      RankingMembers(scores, n - 1);
      var before := Ranking(scores, n - 1);
      forall k | 0 <= k < |before| ensures before[k] != n - 1 { assert before[k] in before; }
      InsertKeepsRanking(scores, before, n - 1);
    }
  }
}
