/** What the sentences, the choice and the text of an extract are (src/chat-memory.js:39-57). */
module ChatSentences {
  import opened Common
  import opened JsonText
  import opened ChatMemory
  import opened ChatExtract

  // ---------- sentences ----------

  datatype Span = Span(start: nat, stop: nat)

  /** A full stop, an exclamation mark or a question mark. */
  ghost predicate IsMark(u: Unit) { u in {46, 33, 63} }

  /** No mark but the last unit, and one there unless the text ends. */
  ghost predicate IsSentence(value: Text, s: Span) {
    && s.start < s.stop <= |value| && !IsMark(value[s.start])
    && (forall i :: s.start <= i < s.stop - 1 ==> !IsMark(value[i]))
    && (s.stop == |value| || IsMark(value[s.stop - 1]))
  }

  ghost predicate Covered(spans: seq<Span>, i: nat) {
    exists k :: 0 <= k < |spans| && spans[k].start <= i < spans[k].stop
  }

  ghost predicate EachIsSentence(value: Text, spans: seq<Span>, from: nat) {
    forall s :: s in spans ==> IsSentence(value, s) && from <= s.start
  }

  ghost predicate InTextOrder(spans: seq<Span>) {
    forall j, k :: 0 <= j < k < |spans| ==> spans[j].stop <= spans[k].start
  }

  ghost predicate CoverAllElse(value: Text, spans: seq<Span>, from: nat) {
    forall i: nat :: from <= i < |value| && !IsMark(value[i]) ==> Covered(spans, i)
  }

  /** The sentences from a position on: in order, apart, with nothing but marks outside. */
  ghost predicate AreSentences(value: Text, spans: seq<Span>, from: nat) {
    EachIsSentence(value, spans, from) && InTextOrder(spans) && CoverAllElse(value, spans, from)
  }

  ghost function SpanText(value: Text, s: Span): Text {
    if s.start <= s.stop <= |value| then value[s.start..s.stop] else []
  }

  lemma {:induction false} SkipWhileStops(value: Text, i: nat, ends: bool)
    requires i <= |value|
    ensures var r := SkipWhile(value, i, ends);
            && (forall k :: i <= k < r ==> IsMark(value[k]) == ends)
            && (r < |value| ==> IsMark(value[r]) != ends)
    decreases |value| - i
  {
    if i < |value| && EndsSentence(value[i]) == ends {
      SkipWhileStops(value, i + 1, ends);
    }
  }

  lemma FirstInOrder(value: Text, spans: seq<Span>, first: Span)
    requires InTextOrder(spans) && EachIsSentence(value, spans, first.stop)
    ensures InTextOrder([first] + spans)
  {
    var all := [first] + spans;
    forall j, k | 0 <= j < k < |all| ensures all[j].stop <= all[k].start {
      assert all[k] == spans[k - 1] && spans[k - 1] in spans;
      if j > 0 {
        assert all[j] == spans[j - 1];
      }
    }
  }

  lemma FirstCovers(value: Text, spans: seq<Span>, first: Span, from: nat)
    requires CoverAllElse(value, spans, first.stop) && forall i :: from <= i < first.start && i < |value| ==> IsMark(value[i])
    ensures CoverAllElse(value, [first] + spans, from)
  {
    var all := [first] + spans;
    forall i: nat | from <= i < |value| && !IsMark(value[i]) ensures Covered(all, i) {
      if i < first.stop {
        assert all[0] == first;
      } else {
        assert Covered(spans, i);
        var k :| 0 <= k < |spans| && spans[k].start <= i < spans[k].stop;
        assert all[k + 1] == spans[k];
      }
    }
  }

  lemma FirstSentence(value: Text, spans: seq<Span>, first: Span, from: nat)
    requires from <= first.start && IsSentence(value, first) && forall i :: from <= i < first.start ==> IsMark(value[i])
    requires AreSentences(value, spans, first.stop)
    ensures AreSentences(value, [first] + spans, from)
  {
    FirstInOrder(value, spans, first);
    FirstCovers(value, spans, first, from);
  }

  /** The first match is a sentence, and the others are those behind it. */
  lemma FirstMatch(value: Text, from: nat) returns (first: Span)
    requires from <= |value| && SkipWhile(value, from, true) < |value|
    ensures from <= first.start && IsSentence(value, first) && (forall i :: from <= i < first.start ==> IsMark(value[i]))
    ensures Matches(value, from) == [SpanText(value, first)] + Matches(value, first.stop)
  {
    var start := SkipWhile(value, from, true);
    SkipWhileStops(value, from, true);
    SkipWhileStops(value, start, false);
    var run := SkipWhile(value, start, false);
    first := Span(start, if run < |value| then run + 1 else run);
  }

  lemma NoMatch(value: Text, from: nat)
    requires from <= |value| && SkipWhile(value, from, true) == |value|
    ensures AreSentences(value, [], from) && Matches(value, from) == []
  {
    SkipWhileStops(value, from, true);
  }

  ghost function Texts(value: Text, spans: seq<Span>): (r: seq<Text>)
    ensures |r| == |spans| && forall k :: 0 <= k < |spans| ==> r[k] == SpanText(value, spans[k])
  {
    seq(|spans|, k requires 0 <= k < |spans| => SpanText(value, spans[k]))
  }

  lemma {:induction false} MatchesMean(value: Text, from: nat) returns (spans: seq<Span>)
    requires from <= |value|
    ensures AreSentences(value, spans, from) && Matches(value, from) == Texts(value, spans)
    decreases |value| - from
  {
    if SkipWhile(value, from, true) == |value| {
      NoMatch(value, from);
      spans := [];
    } else {
      var first := FirstMatch(value, from);
      var rest := MatchesMean(value, first.stop);
      FirstSentence(value, rest, first, from);
      spans := [first] + rest;
      assert Texts(value, spans) == [SpanText(value, first)] + Texts(value, rest);
    }
  }

  /** `r` is `s` without the spaces at both ends. */
  ghost predicate IsTrimmed(r: Text, s: Text) {
    && (r != [] ==> r[0] != SPACE && r[|r| - 1] != SPACE)
    && exists a: nat, b: nat :: s == Repeat(SPACE, a) + r + Repeat(SPACE, b)
  }

  lemma {:induction false} TrimLeftMeans(s: Text) returns (a: nat)
    ensures s == Repeat(SPACE, a) + TrimLeft(s) && (TrimLeft(s) != [] ==> TrimLeft(s)[0] != SPACE)
    ensures |TrimLeft(s)| <= |s|
  {
    a := 0;
    if s != [] && s[0] == SPACE {
      var k := TrimLeftMeans(s[1..]);
      a := k + 1;
      assert Repeat(SPACE, a) == [SPACE] + Repeat(SPACE, k);
      assert s == [s[0]] + s[1..];
    }
  }

  lemma {:induction false} TrimRightMeans(s: Text) returns (b: nat)
    ensures s == TrimRight(s) + Repeat(SPACE, b)
    ensures TrimRight(s) != [] ==> TrimRight(s)[|TrimRight(s)| - 1] != SPACE && TrimRight(s)[0] == s[0]
  {
    b := 0;
    if s != [] && s[|s| - 1] == SPACE {
      var k := TrimRightMeans(s[..|s| - 1]);
      b := k + 1;
      assert Repeat(SPACE, b) == Repeat(SPACE, k) + [SPACE];
      assert s == s[..|s| - 1] + [s[|s| - 1]];
    }
  }

  lemma TrimMeans(s: Text)
    ensures IsTrimmed(TrimRight(TrimLeft(s)), s)
  {
    var a := TrimLeftMeans(s);
    var b := TrimRightMeans(TrimLeft(s));
    assert s == Repeat(SPACE, a) + TrimRight(TrimLeft(s)) + Repeat(SPACE, b);
  }

  /** Main result: what is ranked is every sentence of the text, trimmed; a text of nothing but marks is one sentence. */
  lemma SentencesMean(value: Text) returns (spans: seq<Span>)
    ensures AreSentences(value, spans, 0)
    ensures if spans == [] then |Sentences(value)| == 1 && IsTrimmed(Sentences(value)[0], value)
            else |Sentences(value)| == |spans|
                 && forall k :: 0 <= k < |spans| ==> IsTrimmed(Sentences(value)[k], SpanText(value, spans[k]))
  {
    spans := MatchesMean(value, 0);
    var found := Matches(value, 0);
    if spans == [] {
      TrimMeans(value);
    } else {
      forall k | 0 <= k < |spans| ensures IsTrimmed(Sentences(value)[k], SpanText(value, spans[k])) {
        TrimMeans(found[k]);
      }
    }
  }

  // ---------- which sentences ----------

  /** The chosen ones among the first `k` ranked. */
  ghost function Kept(chosen: seq<nat>, ranked: seq<nat>, k: nat): (r: seq<nat>)
    requires k <= |ranked|
    ensures forall x :: x in r ==> x in ranked
  {
    if k == 0 then [] else Kept(chosen, ranked, k - 1) + if ranked[k - 1] in chosen then [ranked[k - 1]] else []
  }

  ghost function Units(sentences: seq<Text>, chosen: seq<nat>): nat {
    if chosen == [] then 0
    else
      var last := chosen[|chosen| - 1];
      Units(sentences, chosen[..|chosen| - 1]) + 1 + if last < |sentences| then |sentences[last]| else 0
  }

  /** A sentence is chosen exactly when fewer than six better ones are, and it fits with them. */
  ghost predicate TakesWhatFits(sentences: seq<Text>, ranked: seq<nat>, chosen: seq<nat>, room: int) {
    forall k :: 0 <= k < |ranked| && ranked[k] < |sentences| ==>
      (ranked[k] in chosen <==>
       && |Kept(chosen, ranked, k)| < 6
       && Units(sentences, Kept(chosen, ranked, k)) + |sentences[ranked[k]]| + 1 <= room)
  }

  lemma {:induction false} UnitsAreWeight(sentences: seq<Text>, chosen: seq<nat>)
    requires ChatMemory.Within(chosen, |sentences|)
    ensures Units(sentences, chosen) == Weight(sentences, chosen)
  {
    if chosen != [] { UnitsAreWeight(sentences, chosen[..|chosen| - 1]); }
  }

  lemma {:induction false} PickedLater(sentences: seq<Text>, ranked: seq<nat>, k: nat, n: nat, room: int)
    requires ChatMemory.Within(ranked, |sentences|) && Distinct(ranked) && 0 < k <= n <= |ranked|
    ensures ranked[k - 1] in Picked(sentences, ranked, n, room) <==> ranked[k - 1] in Picked(sentences, ranked, k, room)
    decreases n
  {
    if k < n { PickedLater(sentences, ranked, k, n - 1, room); }
  }

  lemma PickedStep(sentences: seq<Text>, ranked: seq<nat>, k: nat, room: int)
    requires ChatMemory.Within(ranked, |sentences|) && Distinct(ranked) && 0 < k <= |ranked|
    ensures var before, after, x := Picked(sentences, ranked, k - 1, room), Picked(sentences, ranked, k, room), ranked[k - 1];
            after == before + if x in after then [x] else []
  {
    NotBefore(ranked, k - 1);
  }

  lemma KeptStep(chosen: seq<nat>, ranked: seq<nat>, k: nat)
    requires 0 < k <= |ranked|
    ensures Kept(chosen, ranked, k) == Kept(chosen, ranked, k - 1) + if ranked[k - 1] in chosen then [ranked[k - 1]] else []
  {
  }

  lemma {:induction false} KeptIsPicked(sentences: seq<Text>, ranked: seq<nat>, k: nat, n: nat, room: int)
    requires ChatMemory.Within(ranked, |sentences|) && Distinct(ranked) && k <= n <= |ranked|
    ensures Kept(Picked(sentences, ranked, n, room), ranked, k) == Picked(sentences, ranked, k, room)
    decreases k
  {
    if k > 0 {
      KeptIsPicked(sentences, ranked, k - 1, n, room);
      PickedLater(sentences, ranked, k, n, room);
      PickedStep(sentences, ranked, k, room);
      KeptStep(Picked(sentences, ranked, n, room), ranked, k);
    }
  }

  lemma PickedTakesWhatFits(sentences: seq<Text>, ranked: seq<nat>, room: int)
    requires ChatMemory.Within(ranked, |sentences|) && Distinct(ranked)
    ensures TakesWhatFits(sentences, ranked, Picked(sentences, ranked, |ranked|, room), room)
  {
    var picked := Picked(sentences, ranked, |ranked|, room);
    forall k | 0 <= k < |ranked|
      ensures ranked[k] in picked <==>
              && |Kept(picked, ranked, k)| < 6
              && Units(sentences, Kept(picked, ranked, k)) + |sentences[ranked[k]]| + 1 <= room
    {
      KeptIsPicked(sentences, ranked, k, |ranked|, room);
      PickedLater(sentences, ranked, k + 1, |ranked|, room);
      NotBefore(ranked, k);
      UnitsAreWeight(sentences, Picked(sentences, ranked, k, room));
    }
  }

  lemma {:induction false} KeptOfSameMembers(a: seq<nat>, b: seq<nat>, ranked: seq<nat>, k: nat)
    requires k <= |ranked| && forall x :: x in ranked ==> (x in a <==> x in b)
    ensures Kept(a, ranked, k) == Kept(b, ranked, k)
  {
    if k > 0 { KeptOfSameMembers(a, b, ranked, k - 1); }
  }

  lemma SameMembersFit(sentences: seq<Text>, ranked: seq<nat>, a: seq<nat>, b: seq<nat>, room: int)
    requires TakesWhatFits(sentences, ranked, a, room) && forall x :: x in ranked ==> (x in a <==> x in b)
    ensures TakesWhatFits(sentences, ranked, b, room)
  {
    forall k | 0 <= k < |ranked| ensures Kept(a, ranked, k) == Kept(b, ranked, k) {
      KeptOfSameMembers(a, b, ranked, k);
    }
  }

  // ---------- the text ----------

  /** The sentence stands at this place, behind a space unless it is the first. */
  ghost predicate StandsAt(text: Text, at: nat, sentence: Text, first: bool) {
    && at + |sentence| <= |text| && text[at..at + |sentence|] == sentence
    && (!first ==> 0 < at && text[at - 1] == SPACE)
  }

  /** The chosen sentences one after the other, one space between them. */
  ghost predicate Joins(text: Text, sentences: seq<Text>, chosen: seq<nat>) {
    && |text| + 1 == Units(sentences, chosen)
    && forall i :: 0 <= i < |chosen| && chosen[i] < |sentences| ==>
         StandsAt(text, Units(sentences, chosen[..i]), sentences[chosen[i]], i == 0)
  }

  lemma StillStands(text: Text, more: Text, at: nat, sentence: Text, first: bool)
    requires StandsAt(text, at, sentence, first)
    ensures StandsAt(text + more, at, sentence, first)
  {
    assert (text + more)[at..at + |sentence|] == text[at..at + |sentence|];
  }

  lemma LastStands(text: Text, sentence: Text)
    ensures StandsAt(text + [SPACE] + sentence, |text| + 1, sentence, false)
  {
    var joined := text + [SPACE] + sentence;
    assert joined[|text| + 1..|text| + 1 + |sentence|] == sentence;
  }

  lemma UnitsSnoc(sentences: seq<Text>, front: seq<nat>, x: nat)
    requires x < |sentences|
    ensures Units(sentences, front + [x]) == Units(sentences, front) + 1 + |sentences[x]|
  {
    assert (front + [x])[..|front|] == front;
  }

  lemma OneMoreJoined(text: Text, sentences: seq<Text>, front: seq<nat>, x: nat)
    requires Joins(text, sentences, front) && front != [] && x < |sentences|
    ensures Joins(text + [SPACE] + sentences[x], sentences, front + [x])
  {
    var all, joined := front + [x], text + [SPACE] + sentences[x];
    UnitsSnoc(sentences, front, x);
    forall i | 0 <= i < |all| && all[i] < |sentences|
      ensures StandsAt(joined, Units(sentences, all[..i]), sentences[all[i]], i == 0)
    {
      if i < |front| {
        assert all[..i] == front[..i] && all[i] == front[i];
        StillStands(text, [SPACE] + sentences[x], Units(sentences, front[..i]), sentences[front[i]], i == 0);
        assert text + ([SPACE] + sentences[x]) == joined;
      } else {
        assert all[..i] == front && all[i] == x;
        LastStands(text, sentences[x]);
      }
    }
  }

  lemma {:induction false} JoinJoins(sentences: seq<Text>, chosen: seq<nat>)
    requires ChatMemory.Within(chosen, |sentences|) && chosen != []
    ensures Joins(Join(sentences, chosen), sentences, chosen)
  {
    var front, last := chosen[..|chosen| - 1], chosen[|chosen| - 1];
    assert chosen == front + [last];
    if |chosen| == 1 {
      assert front == [];
      assert Units(sentences, front) == 0;
      assert sentences[last][0..|sentences[last]|] == sentences[last];
    } else {
      JoinJoins(sentences, front);
      OneMoreJoined(Join(sentences, front), sentences, front, last);
    }
  }

  /** `chosen`, ascending, are what fits when the sentences are taken best first, the earlier one on a tie. */
  ghost predicate IsBestChoice(value: Text, maximum: int, score: Text -> nat, chosen: seq<nat>, ranked: seq<nat>) {
    var sentences := Sentences(value);
    && Ascending(chosen) && (forall x :: x in chosen ==> x < |sentences|)
    && (forall i: nat :: i in ranked <==> i < |sentences|)
    && (forall i, j :: 0 <= i < j < |ranked| && ranked[i] < |sentences| && ranked[j] < |sentences| ==>
          var a, b := score(sentences[ranked[i]]), score(sentences[ranked[j]]);
          a > b || (a == b && ranked[i] < ranked[j]))
    && TakesWhatFits(sentences, ranked, chosen, maximum - 25)
  }

  /**
   * Main result: a shortened text is its best fitting sentences in text order, joined by spaces, or, when none
   * fits, the text cut after that many units; a negative number counts from the end.
   */
  lemma SummaryMeans(value: Text, maximum: int, score: Text -> nat)
    returns (chosen: seq<nat>, ranked: seq<nat>, excerpt: Text)
    requires |value| > maximum
    ensures Summary(value, maximum, score) == excerpt + NOTE && IsBestChoice(value, maximum, score, chosen, ranked)
    ensures chosen != [] ==> Joins(excerpt, Sentences(value), chosen)
    ensures chosen == [] ==> excerpt <= value && |excerpt| == if maximum >= 25 then maximum - 25 else Max(0, |value| + maximum - 25)
  {
    var sentences := Sentences(value);
    var scores := Scores(sentences, score);
    ranked := Ranking(scores, |sentences|);
    RankingIsRanked(scores, |sentences|);
    RankingMembers(scores, |sentences|);
    RankedIsDistinct(scores, ranked);
    var picked := Picked(sentences, ranked, |sentences|, maximum - NOTE_UNITS);
    PickedTakesWhatFits(sentences, ranked, maximum - NOTE_UNITS);
    chosen := Chosen(value, maximum, score);
    InOrderFacts(picked, |sentences|);
    SameMembersFit(sentences, ranked, picked, chosen, maximum - NOTE_UNITS);
    if chosen == [] {
      excerpt := SliceTo(value, maximum - NOTE_UNITS);
    } else {
      excerpt := Join(sentences, chosen);
      JoinJoins(sentences, chosen);
    }
  }
}
