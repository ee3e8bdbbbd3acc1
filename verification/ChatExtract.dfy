/** The extractive summary of src/chat-memory.js:35-58: at most six sentences, in text order, within a maximum. */
module ChatExtract {
  import opened Common
  import opened ChatMemory
  import opened JsonText

  const MAX_SENTENCES := 6

  /** The note that closes every shortened text: a line break and "[EXTRACTIVE; SEE SOURCE]". */
  const NOTE: Text := [10, 91, 69, 88, 84, 82, 65, 67, 84, 73, 86, 69, 59, 32, 83, 69, 69, 32, 83, 79, 85, 82, 67, 69, 93]

  const NOTE_UNITS := 25

  // ---------- lengths ----------

  /** Units that sentences take, each counted with a separator. */
  function Weight(sentences: seq<Text>, chosen: seq<nat>): nat
    requires ChatMemory.Within(chosen, |sentences|)
  {
    if chosen == [] then 0 else Weight(sentences, chosen[..|chosen| - 1]) + |sentences[chosen[|chosen| - 1]]| + 1
  }

  function Join(sentences: seq<Text>, chosen: seq<nat>): Text
    requires ChatMemory.Within(chosen, |sentences|)
  {
    if chosen == [] then []
    else if |chosen| == 1 then sentences[chosen[0]]
    else Join(sentences, chosen[..|chosen| - 1]) + [SPACE] + sentences[chosen[|chosen| - 1]]
  }

  lemma {:induction false} JoinLength(sentences: seq<Text>, chosen: seq<nat>)
    requires ChatMemory.Within(chosen, |sentences|) && chosen != []
    ensures |Join(sentences, chosen)| + 1 == Weight(sentences, chosen)
  {
    if |chosen| > 1 {
      JoinLength(sentences, chosen[..|chosen| - 1]);
    } else {
      assert chosen[..0] == [];
    }
  }

  // ---------- back to text order ----------

  /** The chosen indices below `n`, ascending. */
  function InOrder(chosen: seq<nat>, n: nat): (r: seq<nat>)
    ensures ChatMemory.Within(r, n)
  {
    if n == 0 then [] else if n - 1 in chosen then InOrder(chosen, n - 1) + [n - 1] else InOrder(chosen, n - 1)
  }

  ghost predicate Ascending(s: seq<nat>) { forall i, j :: 0 <= i < j < |s| ==> s[i] < s[j] }

  lemma {:induction false} InOrderFacts(chosen: seq<nat>, n: nat)
    ensures Ascending(InOrder(chosen, n)) && forall i: nat :: i in InOrder(chosen, n) <==> i < n && i in chosen
  {
    if n > 0 { InOrderFacts(chosen, n - 1); }
  }

  lemma {:induction false} InOrderAdds(sentences: seq<Text>, chosen: seq<nat>, x: nat, n: nat)
    requires n <= |sentences| && x !in chosen
    ensures Weight(sentences, InOrder(chosen + [x], n)) == Weight(sentences, InOrder(chosen, n)) + if x < n then |sentences[x]| + 1 else 0
    ensures |InOrder(chosen + [x], n)| == |InOrder(chosen, n)| + if x < n then 1 else 0
  {
    if n > 0 {
      InOrderAdds(sentences, chosen, x, n - 1);
      assert n - 1 in chosen + [x] <==> n - 1 in chosen || n - 1 == x;
    }
  }

  lemma {:induction false} InOrderOfNothing(chosen: seq<nat>, n: nat)
    requires chosen == []
    ensures InOrder(chosen, n) == []
  {
    if n > 0 { InOrderOfNothing(chosen, n - 1); }
  }

  /** Sorting the chosen sentences changes neither their number nor their total length. */
  lemma {:induction false} InOrderWeighs(sentences: seq<Text>, chosen: seq<nat>)
    requires ChatMemory.Within(chosen, |sentences|) && Distinct(chosen)
    ensures Weight(sentences, InOrder(chosen, |sentences|)) == Weight(sentences, chosen)
    ensures |InOrder(chosen, |sentences|)| == |chosen|
  {
    if chosen == [] {
      InOrderOfNothing(chosen, |sentences|);
    } else {
      var front, last := chosen[..|chosen| - 1], chosen[|chosen| - 1];
      InOrderWeighs(sentences, front);
      assert chosen == front + [last];
      InOrderAdds(sentences, front, last, |sentences|);
    }
  }

  // ---------- selection ----------

  /** Sentences picked among the first `k` ranked ones: whatever still fits, until there are six. */
  function Picked(sentences: seq<Text>, ranked: seq<nat>, k: nat, room: int): (r: seq<nat>)
    requires ChatMemory.Within(ranked, |sentences|) && k <= |ranked|
    ensures ChatMemory.Within(r, |sentences|) && |r| <= MAX_SENTENCES
    ensures forall x :: x in r ==> x in ranked[..k]
  {
    if k == 0 then []
    else
      var before, x := Picked(sentences, ranked, k - 1, room), ranked[k - 1];
      assert ranked[..k] == ranked[..k - 1] + [x];
      if |before| < MAX_SENTENCES && Weight(sentences, before) + |sentences[x]| + 1 <= room then before + [x] else before
  }

  lemma NotBefore(s: seq<nat>, k: nat)
    requires Distinct(s) && k < |s|
    ensures s[k] !in s[..k]
  {
  }

  lemma OneMorePicked(sentences: seq<Text>, before: seq<nat>, x: nat)
    requires ChatMemory.Within(before, |sentences|) && x < |sentences|
    ensures Weight(sentences, before + [x]) == Weight(sentences, before) + |sentences[x]| + 1
    ensures Distinct(before) && x !in before ==> Distinct(before + [x])
  {
    assert (before + [x])[..|before|] == before;
  }

  lemma {:induction false} PickedFacts(sentences: seq<Text>, ranked: seq<nat>, k: nat, room: int)
    requires ChatMemory.Within(ranked, |sentences|) && Distinct(ranked) && k <= |ranked|
    ensures Distinct(Picked(sentences, ranked, k, room))
    ensures Picked(sentences, ranked, k, room) != [] ==> Weight(sentences, Picked(sentences, ranked, k, room)) <= room
  {
    if k > 0 {
      PickedFacts(sentences, ranked, k - 1, room);
      var before, x := Picked(sentences, ranked, k - 1, room), ranked[k - 1];
      NotBefore(ranked, k - 1);
      OneMorePicked(sentences, before, x);
    }
  }

  /** Six are never added to. */
  lemma {:induction false} PickedStays(sentences: seq<Text>, ranked: seq<nat>, k: nat, n: nat, room: int)
    requires ChatMemory.Within(ranked, |sentences|) && k <= n <= |ranked| && |Picked(sentences, ranked, k, room)| == MAX_SENTENCES
    ensures Picked(sentences, ranked, n, room) == Picked(sentences, ranked, k, room)
  {
    if k < n { PickedStays(sentences, ranked, k, n - 1, room); }
  }

  method Select(sentences: seq<Text>, ranked: seq<nat>, room: int) returns (chosen: seq<nat>)
    requires ChatMemory.Within(ranked, |sentences|)
    ensures chosen == Picked(sentences, ranked, |ranked|, room)
  {
    chosen := [];
    var length := 0;
    for k := 0 to |ranked|
      invariant chosen == Picked(sentences, ranked, k, room) && length == Weight(sentences, chosen) && |chosen| < MAX_SENTENCES
    {
      var x := ranked[k];
      if length + |sentences[x]| + 1 <= room {
        assert (chosen + [x])[..|chosen|] == chosen;
        chosen, length := chosen + [x], length + |sentences[x]| + 1;
        if |chosen| >= MAX_SENTENCES {
          PickedStays(sentences, ranked, k + 1, |ranked|, room);
          return;
        }
      }
    }
  }

  // ---------- the summary ----------

  /** The end of a slice may be negative: it then counts from the end of the text. */
  function SliceTo(value: Text, end: int): Text {
    if end >= 0 then value[..Min(end, |value|)] else value[..Max(0, |value| + end)]
  }

  function Scores(sentences: seq<Text>, score: Text -> nat): (r: seq<nat>)
    ensures |r| == |sentences|
  {
    seq(|sentences|, i requires 0 <= i < |sentences| => score(sentences[i]))
  }

  /** A shortened text: some sentences in text order, or the beginning of the text when none fits. */
  ghost predicate IsExtract(r: Text, value: Text, maximum: int, chosen: seq<nat>) {
    var sentences := Sentences(value);
    && ChatMemory.Within(chosen, |sentences|) && Ascending(chosen) && |chosen| <= MAX_SENTENCES
    && (chosen != [] ==> Weight(sentences, chosen) <= maximum - NOTE_UNITS)
    && r == (if chosen != [] then Join(sentences, chosen) else SliceTo(value, maximum - NOTE_UNITS)) + NOTE
  }

  function Chosen(value: Text, maximum: int, score: Text -> nat): (r: seq<nat>)
    ensures ChatMemory.Within(r, |Sentences(value)|)
  {
    var sentences := Sentences(value);
    InOrder(Picked(sentences, Ranking(Scores(sentences, score), |sentences|), |sentences|, maximum - NOTE_UNITS), |sentences|)
  }

  function Summary(value: Text, maximum: int, score: Text -> nat): Text {
    if |value| <= maximum then value
    else
      var chosen := Chosen(value, maximum, score);
      (if chosen != [] then Join(Sentences(value), chosen) else SliceTo(value, maximum - NOTE_UNITS)) + NOTE
  }

  lemma RankedIsDistinct(scores: seq<nat>, r: seq<nat>)
    requires IsRanked(scores, r)
    ensures Distinct(r)
  {
  }

  lemma SummaryIsExtract(value: Text, maximum: int, score: Text -> nat)
    requires |value| > maximum
    ensures IsExtract(Summary(value, maximum, score), value, maximum, Chosen(value, maximum, score))
  {
    var sentences := Sentences(value);
    var scores := Scores(sentences, score);
    var ranked := Ranking(scores, |sentences|);
    RankingIsRanked(scores, |sentences|);
    RankedIsDistinct(scores, ranked);
    var picked := Picked(sentences, ranked, |sentences|, maximum - NOTE_UNITS);
    PickedFacts(sentences, ranked, |sentences|, maximum - NOTE_UNITS);
    InOrderFacts(picked, |sentences|);
    InOrderWeighs(sentences, picked);
  }

  lemma ExtractLength(r: Text, value: Text, maximum: int, chosen: seq<nat>)
    requires |value| > maximum && IsExtract(r, value, maximum, chosen)
    ensures |r| <= maximum <==> maximum >= NOTE_UNITS
  {
    var sentences := Sentences(value);
    if chosen != [] {
      JoinLength(sentences, chosen);
    }
  }

  /** Main result: a summary stays within its maximum exactly when the text does, or the maximum leaves room for the note. */
  lemma SummaryFits(value: Text, maximum: int, score: Text -> nat)
    ensures |Summary(value, maximum, score)| <= maximum <==> |value| <= maximum || maximum >= NOTE_UNITS
  {
    if |value| > maximum {
      SummaryIsExtract(value, maximum, score);
      ExtractLength(Summary(value, maximum, score), value, maximum, Chosen(value, maximum, score));
    }
  }

  /** So it fits for every caller: each passes a maximum of 128 or more. */
  lemma CallersSummariesFit(value: Text, maximum: int, score: Text -> nat)
    requires maximum >= 128
    ensures |Summary(value, maximum, score)| <= maximum
  {
    SummaryFits(value, maximum, score);
  }

  method ExtractiveText(value: Text, maximum: int, score: Text -> nat) returns (r: Text)
    ensures r == Summary(value, maximum, score)
  {
    if |value| <= maximum {
      return value;
    }
    var sentences := Sentences(value);
    var ranked := Ranking(Scores(sentences, score), |sentences|);
    var selected := Select(sentences, ranked, maximum - NOTE_UNITS);
    var chosen := InOrder(selected, |sentences|);
    var excerpt := if |chosen| > 0 then Join(sentences, chosen) else SliceTo(value, maximum - NOTE_UNITS);
    return excerpt + NOTE;
  }
}
