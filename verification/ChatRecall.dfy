/**
 * Recall of chat memory (src/chat-memory.js:234-277): fitting excerpts into a packet, and paging through a text.
 *
 * The printed size of a packet is a parameter: it depends on the items and on whether the packet is marked
 * truncated, and is measured while its coverage still reads "none".
 */
module ChatRecall {
  import opened Common
  import opened ChatMemory
  import opened Decimal
  import opened JsonText

  const STEP := 128
  const RESERVE := 100
  const SUMMARY_UNITS := 1_200

  /** The source event by position, where the excerpt starts, and where the next one would. */
  datatype Item = Item(event: nat, excerpt: Text, offset: nat, nextOffset: Option<nat>)

  function NextOffset(full: bool, text: Text, offset: nat, excerpt: Text): Option<nat> {
    if full && offset + |excerpt| < |text| then Some(offset + |excerpt|) else None
  }

  function ItemWith(event: nat, full: bool, text: Text, offset: nat, excerpt: Text): Item {
    Item(event, excerpt, offset, NextOffset(full, text, offset, excerpt))
  }

  // ---------- one item ----------

  /** The excerpt shortened step by step until the item fits or only one step is left. */
  function Shrink(event: nat, full: bool, text: Text, offset: nat, excerpt: Text, measure: Item -> nat, maxChars: nat)
    : (r: Text)
    ensures r <= excerpt && |r| >= Min(|excerpt|, STEP)
    ensures |r| <= STEP || measure(ItemWith(event, full, text, offset, r)) <= maxChars
    decreases |excerpt|
  {
    if |excerpt| > STEP && measure(ItemWith(event, full, text, offset, excerpt)) > maxChars
    then Shrink(event, full, text, offset, excerpt[..Max(STEP, |excerpt| - STEP)], measure, maxChars)
    else excerpt
  }

  function Budget(event: nat, offset: nat, measure: Item -> nat, maxChars: nat): nat {
    Max(0, maxChars - measure(Item(event, [], offset, None)) - RESERVE)
  }

  function FirstExcerpt(full: bool, text: Text, offset: nat, budget: nat, summary: (Text, nat) -> Text): Text
    requires offset <= |text|
  {
    if full then text[offset..Min(offset + budget, |text|)] else summary(text, Min(SUMMARY_UNITS, budget))
  }

  /** The item for a source text, or none when no excerpt fits. */
  function Fitted(event: nat, full: bool, text: Text, offset: nat, summary: (Text, nat) -> Text, measure: Item -> nat,
                  maxChars: nat): Option<Item>
    requires offset <= |text|
  {
    var budget := Budget(event, offset, measure, maxChars);
    if budget < STEP then None
    else
      var item := ItemWith(event, full, text, offset,
        Shrink(event, full, text, offset, FirstExcerpt(full, text, offset, budget, summary), measure, maxChars));
      if measure(item) > maxChars then None else Some(item)
  }

  method FitItem(event: nat, full: bool, text: Text, offset: nat, summary: (Text, nat) -> Text, measure: Item -> nat,
                 maxChars: nat)
    returns (r: Option<Item>)
    requires offset <= |text|
    ensures r == Fitted(event, full, text, offset, summary, measure, maxChars)
  {
    var budget := Max(0, maxChars - measure(Item(event, [], offset, None)) - RESERVE);
    if budget < STEP {
      return None;
    }
    var excerpt := FirstExcerpt(full, text, offset, budget, summary);
    ghost var goal := Shrink(event, full, text, offset, excerpt, measure, maxChars);
    var item := ItemWith(event, full, text, offset, excerpt);
    while |excerpt| > STEP && measure(item) > maxChars
      invariant item == ItemWith(event, full, text, offset, excerpt)
      invariant goal == Shrink(event, full, text, offset, excerpt, measure, maxChars)
      decreases |excerpt|
    {
      excerpt := excerpt[..Max(STEP, |excerpt| - STEP)];
      item := ItemWith(event, full, text, offset, excerpt);
    }
    return if measure(item) > maxChars then None else Some(item);
  }

  /** A page is the text from its offset on, at least one step of it, and says where to go on. */
  ghost predicate IsPage(item: Item, text: Text) {
    && item.offset + |item.excerpt| <= |text|
    && item.excerpt == text[item.offset..item.offset + |item.excerpt|]
    && |item.excerpt| >= Min(STEP, |text| - item.offset)
    && item.nextOffset == NextOffset(true, text, item.offset, item.excerpt)
  }

  lemma FullItemIsPage(event: nat, text: Text, offset: nat, summary: (Text, nat) -> Text, measure: Item -> nat,
                       maxChars: nat)
    requires offset <= |text| && Fitted(event, true, text, offset, summary, measure, maxChars).Some?
    ensures var item := Fitted(event, true, text, offset, summary, measure, maxChars).value;
            IsPage(item, text) && item.offset == offset && measure(item) <= maxChars
  {
    var budget := Budget(event, offset, measure, maxChars);
    var first := text[offset..Min(offset + budget, |text|)];
    var last := Shrink(event, true, text, offset, first, measure, maxChars);
    assert last == first[..|last|];
    assert first[..|last|] == text[offset..offset + |last|];
  }

  // ---------- paging through a text ----------

  /** Pages returned by successive calls, each started where the one before said. */
  ghost predicate IsChain(pages: seq<Item>, text: Text, start: nat) {
    && (forall i :: 0 <= i < |pages| ==> IsPage(pages[i], text))
    && (pages != [] ==> pages[0].offset == start)
    && (forall i :: 0 <= i < |pages| - 1 ==> pages[i].nextOffset == Some(pages[i + 1].offset))
  }

  function Excerpts(pages: seq<Item>): seq<Text> {
    if pages == [] then [] else [pages[0].excerpt] + Excerpts(pages[1..])
  }

  function EndOf(item: Item): nat { item.offset + |item.excerpt| }

  lemma ChainTail(pages: seq<Item>, text: Text, start: nat)
    requires IsChain(pages, text, start) && |pages| > 1
    ensures pages[0].offset == start && EndOf(pages[0]) <= |text| && |pages[0].excerpt| >= STEP
    ensures IsChain(pages[1..], text, EndOf(pages[0])) && pages[1..][|pages| - 2] == pages[|pages| - 1]
  {
    var rest := pages[1..];
    assert forall i :: 0 <= i < |rest| ==> rest[i] == pages[i + 1];
    assert pages[0].nextOffset == Some(pages[0 + 1].offset);
  }

  lemma FirstExcerptFirst(pages: seq<Item>)
    requires pages != []
    ensures Flatten(Excerpts(pages)) == pages[0].excerpt + Flatten(Excerpts(pages[1..]))
  {
    assert Excerpts(pages)[1..] == Excerpts(pages[1..]);
  }

  /** Every call but the last moves on by at least one step. */
  lemma {:induction false} PagesAdvance(pages: seq<Item>, text: Text, start: nat)
    requires IsChain(pages, text, start) && start <= |text| && pages != []
    ensures start + STEP * (|pages| - 1) <= pages[|pages| - 1].offset <= EndOf(pages[|pages| - 1]) <= |text|
    decreases |pages|
  {
    if |pages| > 1 {
      ChainTail(pages, text, start);
      PagesAdvance(pages[1..], text, EndOf(pages[0]));
    }
  }

  lemma SlicesMeet(text: Text, a: nat, b: nat, c: nat)
    requires a <= b <= c <= |text|
    ensures text[a..b] + text[b..c] == text[a..c]
  {
  }

  /** Main result: following the next offsets gives the text back, in finitely many calls. */
  lemma {:induction false} PagesConcatenate(pages: seq<Item>, text: Text, start: nat)
    requires IsChain(pages, text, start) && start <= |text| && pages != []
    ensures start <= EndOf(pages[|pages| - 1]) <= |text|
    ensures Flatten(Excerpts(pages)) == text[start..EndOf(pages[|pages| - 1])]
    ensures pages[|pages| - 1].nextOffset.None? ==> Flatten(Excerpts(pages)) == text[start..]
    decreases |pages|
  {
    PagesAdvance(pages, text, start);
    FirstExcerptFirst(pages);
    if |pages| == 1 {
      assert pages[1..] == [];
      assert Flatten(Excerpts(pages[1..])) == [];
    } else {
      ChainTail(pages, text, start);
      PagesConcatenate(pages[1..], text, EndOf(pages[0]));
      SlicesMeet(text, start, EndOf(pages[0]), EndOf(pages[|pages| - 1]));
    }
  }

  // ---------- the whole packet ----------

  datatype Candidate = Candidate(text: Text, admissible: bool)

  datatype Pack = Pack(items: seq<Item>, truncated: bool)

  datatype Recalled = Packed(pack: Pack) | OffsetOutside

  /** How a call is made: the order of the candidates is given. */
  datatype Call = Call(full: bool, offset: nat, limit: nat, maxChars: nat, summary: (Text, nat) -> Text, size: Pack -> nat)

  function MeasureIn(size: Pack -> nat, pack: Pack): Item -> nat {
    (item: Item) => size(pack.(items := pack.items + [item]))
  }

  function RecallFrom(candidates: seq<Candidate>, k: nat, call: Call, pack: Pack): Recalled
    requires k <= |candidates|
    decreases |candidates| - k
  {
    if k == |candidates| || |pack.items| >= call.limit then Packed(pack)
    else if !candidates[k].admissible then RecallFrom(candidates, k + 1, call, pack)
    else if call.offset > |candidates[k].text| then OffsetOutside
    else
      var item := Fitted(k, call.full, candidates[k].text, call.offset, call.summary, MeasureIn(call.size, pack), call.maxChars);
      if item.None? then Packed(pack.(truncated := true))
      else RecallFrom(candidates, k + 1, call, Pack(pack.items + [item.value], pack.truncated || item.value.nextOffset.Some?))
  }

  method Recall(candidates: seq<Candidate>, call: Call) returns (r: Recalled)
    ensures r == RecallFrom(candidates, 0, call, Pack([], false))
  {
    var pack := Pack([], false);
    for k := 0 to |candidates|
      invariant RecallFrom(candidates, 0, call, Pack([], false)) == RecallFrom(candidates, k, call, pack)
    {
      if |pack.items| >= call.limit {
        break;
      }
      if candidates[k].admissible {
        if call.offset > |candidates[k].text| {
          return OffsetOutside;
        }
        var item := FitItem(k, call.full, candidates[k].text, call.offset, call.summary, MeasureIn(call.size, pack), call.maxChars);
        if item.None? {
          return Packed(pack.(truncated := true));
        }
        pack := Pack(pack.items + [item.value], pack.truncated || item.value.nextOffset.Some?);
      }
    }
    return Packed(pack);
  }

  /** Marking a packet truncated shortens it: "true" takes one character less than "false". */
  ghost predicate MarkShortens(size: Pack -> nat) {
    forall items :: size(Pack(items, true)) <= size(Pack(items, false))
  }

  ghost predicate PackOk(pack: Pack, candidates: seq<Candidate>, k: nat, call: Call) {
    && |pack.items| <= call.limit
    && (pack.items != [] ==> call.size(pack) <= call.maxChars)
    && (forall i :: 0 <= i < |pack.items| ==>
          && pack.items[i].event < k <= |candidates| && candidates[pack.items[i].event].admissible
          && pack.items[i].offset == call.offset
          && (call.full ==> IsPage(pack.items[i], candidates[pack.items[i].event].text)))
    && (forall i, j :: 0 <= i < j < |pack.items| ==> pack.items[i].event < pack.items[j].event)
    && ((exists i :: 0 <= i < |pack.items| && pack.items[i].nextOffset.Some?) ==> pack.truncated)
  }

  lemma OneMoreItem(candidates: seq<Candidate>, k: nat, call: Call, pack: Pack, item: Item)
    requires k < |candidates| && candidates[k].admissible && |pack.items| < call.limit && call.offset <= |candidates[k].text|
    requires MarkShortens(call.size) && PackOk(pack, candidates, k, call)
    requires Fitted(k, call.full, candidates[k].text, call.offset, call.summary, MeasureIn(call.size, pack), call.maxChars) == Some(item)
    ensures PackOk(Pack(pack.items + [item], pack.truncated || item.nextOffset.Some?), candidates, k + 1, call)
  {
    var measure := MeasureIn(call.size, pack);
    assert measure(item) == call.size(Pack(pack.items + [item], pack.truncated));
    if call.full {
      FullItemIsPage(k, candidates[k].text, call.offset, call.summary, measure, call.maxChars);
    }
  }

  /** Main result: a packet with items fits as measured, its items are pages of distinct candidates, in order. */
  lemma {:induction false} RecallIsSound(candidates: seq<Candidate>, k: nat, call: Call, pack: Pack)
    requires k <= |candidates| && MarkShortens(call.size) && PackOk(pack, candidates, k, call)
    ensures var r := RecallFrom(candidates, k, call, pack); r.Packed? ==> PackOk(r.pack, candidates, |candidates|, call)
    decreases |candidates| - k
  {
    if k < |candidates| && |pack.items| < call.limit {
      if !candidates[k].admissible {
        RecallIsSound(candidates, k + 1, call, pack);
      } else if call.offset <= |candidates[k].text| {
        var item := Fitted(k, call.full, candidates[k].text, call.offset, call.summary, MeasureIn(call.size, pack), call.maxChars);
        if item.Some? {
          OneMoreItem(candidates, k, call, pack, item.value);
          RecallIsSound(candidates, k + 1, call, Pack(pack.items + [item.value], pack.truncated || item.value.nextOffset.Some?));
        }
      }
    }
  }

  // ---------- the coverage word is written last ----------

  datatype Coverage = NoQuery | Nothing | Direct | Partial

  /** Characters of the word; the packet was measured with "none". */
  function WordLength(c: Coverage): nat {
    match c
    case NoQuery => 8
    case Nothing => 4
    case Direct => 6
    case Partial => 7
  }

  function CoverageOf(queryTerms: nat, bestMatch: nat): Coverage {
    if queryTerms == 0 then NoQuery
    else if bestMatch == 0 then Nothing
    else if bestMatch == queryTerms then Direct
    else Partial
  }

  function FinalSize(size: Pack -> nat, pack: Pack, c: Coverage): nat
  {
    size(pack) + WordLength(c) - WordLength(Nothing)
  }

  /** The packet a call returns, when it delivers anything, is within the limit once its coverage is written. */
  ghost predicate StaysWithin(candidates: seq<Candidate>, call: Call, c: Coverage) {
    var r := RecallFrom(candidates, 0, call, Pack([], false));
    r.Packed? && r.pack.items != [] ==> FinalSize(call.size, r.pack, c) <= call.maxChars
  }

  /** A packet that delivers anything exceeds its limit by at most four characters, three with a query. */
  lemma FinalSizeBound(candidates: seq<Candidate>, call: Call, queryTerms: nat, bestMatch: nat)
    requires MarkShortens(call.size)
    ensures var r := RecallFrom(candidates, 0, call, Pack([], false));
            var c := CoverageOf(queryTerms, bestMatch);
            && (r.Packed? && r.pack.items != [] ==>
                  && call.size(r.pack) <= call.maxChars
                  && FinalSize(call.size, r.pack, c) == call.size(r.pack)
                       + (if queryTerms == 0 then 4 else if bestMatch == 0 then 0 else if bestMatch == queryTerms then 2 else 3))
            && (c == Nothing ==> StaysWithin(candidates, call, c))
  {
    RecallIsSound(candidates, 0, call, Pack([], false));
  }

  // ---------- a packet that is full to the last character ----------

  /** An item in JSON: a frame of ids, title and source, the excerpt, and the two offsets. */
  function ItemLength(frame: nat, item: Item): nat {
    frame + PrintedLength(item.excerpt) + Digits(item.offset)
    + if item.nextOffset.Some? then Digits(item.nextOffset.value) else |"null"|
  }

  function ItemsLength(frame: nat, items: seq<Item>): nat {
    if items == [] then 0
    else ItemsLength(frame, items[..|items| - 1]) + ItemLength(frame, items[|items| - 1]) + if |items| > 1 then 1 else 0
  }

  /** A packet in JSON; query, workspace and the fixed fields make up the overhead. */
  function PacketLength(overhead: nat, frame: nat, pack: Pack): nat {
    overhead + ItemsLength(frame, pack.items) + if pack.truncated then |"true"| else |"false"|
  }

  function SizeOf(overhead: nat, frame: nat): Pack -> nat { (pack: Pack) => PacketLength(overhead, frame, pack) }

  /** A hundred quotation marks and some letters; printed, each mark takes two characters. */
  function QuotedText(letters: nat): (text: Text)
    ensures |text| == RESERVE + letters
  {
    Repeat(0x22, RESERVE) + Repeat(0x78, letters)
  }

  lemma QuotedLength(letters: nat)
    ensures PrintedLength(QuotedText(letters)) == 2 * RESERVE + letters
  {
    PrintedRun(0x22, RESERVE, Repeat(0x78, letters));
    PrintedRun(0x78, letters, []);
    assert Repeat(0x78, letters) + [] == Repeat(0x78, letters);
  }

  /** Room for the quoted text: the packet with an empty excerpt, the reserve, and the text. */
  function FullLimit(overhead: nat, frame: nat, letters: nat): nat {
    overhead + frame + |"false"| + |"null"| + 1 + 2 * RESERVE + letters
  }

  function FullCall(overhead: nat, frame: nat, letters: nat): Call {
    Call(true, 0, 5, FullLimit(overhead, frame, letters), (t: Text, n: nat) => t, SizeOf(overhead, frame))
  }

  lemma MeasureOne(overhead: nat, frame: nat, item: Item)
    ensures MeasureIn(SizeOf(overhead, frame), Pack([], false))(item) == overhead + ItemLength(frame, item) + |"false"|
  {
    assert [] + [item] == [item];
    OneItemLength(frame, item);
    assert MeasureIn(SizeOf(overhead, frame), Pack([], false))(item) == SizeOf(overhead, frame)(Pack([item], false));
  }

  lemma OneItemLength(frame: nat, item: Item)
    ensures ItemsLength(frame, [item]) == ItemLength(frame, item)
  {
    var items := [item];
    assert items[..|items| - 1] == [];
    assert ItemsLength(frame, items[..|items| - 1]) == 0;
  }

  lemma ZeroIsOneDigit()
    ensures Digits(0) == 1
  {
  }

  /** A text that fits whole is delivered whole. */
  lemma FitsWhole(event: nat, text: Text, summary: (Text, nat) -> Text, measure: Item -> nat, maxChars: nat)
    requires measure(Item(event, [], 0, None)) + RESERVE + |text| <= maxChars && |text| >= STEP
    requires measure(Item(event, text, 0, None)) <= maxChars
    ensures Fitted(event, true, text, 0, summary, measure, maxChars) == Some(Item(event, text, 0, None))
  {
    var budget := Budget(event, 0, measure, maxChars);
    assert budget >= |text|;
    assert text[0..|text|] == text;
    assert FirstExcerpt(true, text, 0, budget, summary) == text;
    assert ItemWith(event, true, text, 0, text) == Item(event, text, 0, None);
  }

  function FullItem(letters: nat): Item { Item(0, QuotedText(letters), 0, None) }

  lemma FullItemFits(overhead: nat, frame: nat, letters: nat)
    requires RESERVE + letters >= STEP
    ensures var call := FullCall(overhead, frame, letters);
            Fitted(0, true, QuotedText(letters), 0, call.summary, MeasureIn(call.size, Pack([], false)), call.maxChars) == Some(FullItem(letters))
    ensures MeasureIn(SizeOf(overhead, frame), Pack([], false))(FullItem(letters)) == FullLimit(overhead, frame, letters)
  {
    var text := QuotedText(letters);
    MeasureOne(overhead, frame, Item(0, [], 0, None));
    MeasureOne(overhead, frame, FullItem(letters));
    QuotedLength(letters);
    ZeroIsOneDigit();
    var call := FullCall(overhead, frame, letters);
    FitsWhole(0, text, call.summary, MeasureIn(SizeOf(overhead, frame), Pack([], false)), call.maxChars);
  }

  /** Whatever the query, ids and title, some text fills its packet to the last character. */
  lemma FullPacket(overhead: nat, frame: nat, letters: nat)
    requires RESERVE + letters >= STEP
    ensures var call := FullCall(overhead, frame, letters);
            var r := RecallFrom([Candidate(QuotedText(letters), true)], 0, call, Pack([], false));
            && MarkShortens(call.size)
            && r == Packed(Pack([FullItem(letters)], false)) && call.size(r.pack) == call.maxChars
  {
    var call := FullCall(overhead, frame, letters);
    var candidates := [Candidate(QuotedText(letters), true)];
    FullItemFits(overhead, frame, letters);
    assert [] + [FullItem(letters)] == [FullItem(letters)];
    assert RecallFrom(candidates, 0, call, Pack([], false)) == RecallFrom(candidates, 1, call, Pack([FullItem(letters)], false));
  }

  /** What the options allow, for a size that is a printed packet's. */
  ghost predicate RealCall(call: Call) {
    && 512 <= call.maxChars <= 1_000_000 && 1 <= call.limit <= 20
    && exists overhead: nat, frame: nat :: call.size == SizeOf(overhead, frame)
  }

  lemma ExceedsByWord(overhead: nat, frame: nat, letters: nat, c: Coverage)
    requires RESERVE + letters >= STEP && 512 <= FullLimit(overhead, frame, letters) <= 1_000_000 && c != Nothing
    ensures var call := FullCall(overhead, frame, letters);
            RealCall(call) && !StaysWithin([Candidate(QuotedText(letters), true)], call, c)
  {
    FullPacket(overhead, frame, letters);
  }

  /** Main result: packets with items stay within the limit in all calls exactly for the coverage "none". */
  lemma StaysExactlyWhen(c: Coverage)
    ensures (forall candidates: seq<Candidate>, call: Call :: RealCall(call) ==> StaysWithin(candidates, call, c)) <==> c == Nothing
  {
    if c == Nothing {
      forall candidates: seq<Candidate>, call: Call | RealCall(call) ensures StaysWithin(candidates, call, c) {
        RecallIsSound(candidates, 0, call, Pack([], false));
      }
    } else {
      ExceedsByWord(400, 300, 28, c);
    }
  }

  /** Without a candidate to deliver, the packet is returned whatever its size. */
  lemma EmptyPacketIsUnmeasured(overhead: nat, frame: nat, call: Call, c: Coverage)
    requires call.size == SizeOf(overhead, frame)
    ensures var r := RecallFrom([], 0, call, Pack([], false));
            r == Packed(Pack([], false)) && (FinalSize(call.size, r.pack, c) <= call.maxChars <==> overhead + 1 + WordLength(c) <= call.maxChars)
  {
  }
}
