/** Which candidates a recalled packet holds, and how much of each (src/chat-memory.js:234-277). */
module RecallMeaning {
  import opened Common
  import opened JsonText
  import opened ChatRecall
  import opened Decimal

  // ---------- one item ----------

  /** The lengths tried: a step shorter each time, never below one step. */
  ghost function Tried(length: nat, j: nat): nat {
    if length <= 128 then length else Max(128, length - 128 * j)
  }

  /** The first `n` units of an excerpt as an item; a full one says where the text goes on. */
  ghost function Cut(event: nat, full: bool, text: Text, offset: nat, excerpt: Text, n: nat): Item
    requires n <= |excerpt|
  {
    Item(event, excerpt[..n], offset, if full && offset + n < |text| then Some(offset + n) else None)
  }

  ghost predicate TooLong(event: nat, full: bool, text: Text, offset: nat, excerpt: Text, n: nat, measure: Item -> nat,
                          maxChars: nat)
    requires n <= |excerpt|
  {
    measure(Cut(event, full, text, offset, excerpt, n)) > maxChars
  }

  /** Every length tried before the `j`-th is above one step and does not fit. */
  ghost predicate NoneLonger(event: nat, full: bool, text: Text, offset: nat, excerpt: Text, j: nat,
                             measure: Item -> nat, maxChars: nat)
  {
    forall i: nat :: i < j ==>
      Tried(|excerpt|, i) > 128 && TooLong(event, full, text, offset, excerpt, Tried(|excerpt|, i), measure, maxChars)
  }

  lemma TriedNext(length: nat, j: nat)
    requires Tried(length, j) > 128
    ensures Tried(length, j + 1) == Max(128, Tried(length, j) - 128) <= length
  {
  }

  lemma {:induction false} ShrinkMeans(event: nat, full: bool, text: Text, offset: nat, excerpt: Text, i: nat,
                                       measure: Item -> nat, maxChars: nat)
    returns (j: nat)
    requires NoneLonger(event, full, text, offset, excerpt, i, measure, maxChars)
    ensures NoneLonger(event, full, text, offset, excerpt, j, measure, maxChars)
    ensures Shrink(event, full, text, offset, excerpt[..Tried(|excerpt|, i)], measure, maxChars) == excerpt[..Tried(|excerpt|, j)]
    ensures TooLong(event, full, text, offset, excerpt, Tried(|excerpt|, j), measure, maxChars) ==> Tried(|excerpt|, j) <= 128
    decreases Tried(|excerpt|, i)
  {
    var n := Tried(|excerpt|, i);
    j := i;
    assert ItemWith(event, full, text, offset, excerpt[..n]) == Cut(event, full, text, offset, excerpt, n);
    if n > 128 && TooLong(event, full, text, offset, excerpt, n, measure, maxChars) {
      TriedNext(|excerpt|, i);
      assert excerpt[..n][..Tried(|excerpt|, i + 1)] == excerpt[..Tried(|excerpt|, i + 1)];
      j := ShrinkMeans(event, full, text, offset, excerpt, i + 1, measure, maxChars);
    }
  }

  /**
   * Main result: an item holds the longest of the lengths tried that fits, of the text from its offset or of the
   * summary; without room for one step, or when the shortest length is too long, there is none.
   */
  lemma FittedMeans(event: nat, full: bool, text: Text, offset: nat, summary: (Text, nat) -> Text, measure: Item -> nat,
                    maxChars: nat)
    returns (first: Text, j: nat)
    requires offset <= |text|
    ensures var room := maxChars - measure(Item(event, [], offset, None)) - 100;
            var r := Fitted(event, full, text, offset, summary, measure, maxChars);
            && (room < 128 ==> r.None?)
            && (room >= 128 ==>
                  && (full ==> first <= text[offset..] && |first| == Min(room, |text| - offset))
                  && (!full ==> first == summary(text, Min(1_200, room)))
                  && NoneLonger(event, full, text, offset, first, j, measure, maxChars)
                  && (r.Some? <==> !TooLong(event, full, text, offset, first, Tried(|first|, j), measure, maxChars))
                  && (r.Some? ==> r.value == Cut(event, full, text, offset, first, Tried(|first|, j)))
                  && (r.None? ==> Tried(|first|, j) <= 128))
  {
    var budget := Budget(event, offset, measure, maxChars);
    first := FirstExcerpt(full, text, offset, budget, summary);
    j := ShrinkMeans(event, full, text, offset, first, 0, measure, maxChars);
    assert first[..Tried(|first|, 0)] == first;
    var n := Tried(|first|, j);
    assert ItemWith(event, full, text, offset, first[..n]) == Cut(event, full, text, offset, first, n);
  }

  // ---------- the packet ----------

  ghost function Events(items: seq<Item>): (r: seq<nat>)
    ensures |r| == |items|
  {
    seq(|items|, i requires 0 <= i < |items| => items[i].event)
  }

  ghost predicate GoesOn(items: seq<Item>) { exists i :: 0 <= i < |items| && items[i].nextOffset.Some? }

  /** The `i`-th item is what fits of its candidate beside the items before it. */
  ghost predicate FitsBeside(items: seq<Item>, i: nat, candidates: seq<Candidate>, call: Call) {
    && i < |items| && items[i].event < |candidates| && call.offset <= |candidates[items[i].event].text|
    && Fitted(items[i].event, call.full, candidates[items[i].event].text, call.offset, call.summary,
              MeasureIn(call.size, Pack(items[..i], GoesOn(items[..i]))), call.maxChars) == Some(items[i])
  }

  /** The items of all admissible ones among the first `k` candidates, in order. */
  ghost predicate TakesAll(items: seq<Item>, candidates: seq<Candidate>, k: nat, call: Call)
    requires k <= |candidates|
  {
    && |items| <= call.limit
    && (forall i: nat :: i in Events(items) <==> i < k && candidates[i].admissible)
    && (forall i, j :: 0 <= i < j < |items| ==> items[i].event < items[j].event)
    && (forall i: nat :: i < |items| ==> FitsBeside(items, i, candidates, call))
  }

  lemma GoesOnSnoc(items: seq<Item>, item: Item)
    ensures GoesOn(items + [item]) == (GoesOn(items) || item.nextOffset.Some?)
  {
    var all := items + [item];
    if GoesOn(items) {
      var i :| 0 <= i < |items| && items[i].nextOffset.Some?;
      assert all[i].nextOffset.Some?;
    }
    assert all[|items|] == item;
  }

  lemma EventsSnoc(items: seq<Item>, item: Item)
    ensures Events(items + [item]) == Events(items) + [item.event]
  {
  }

  lemma TakesOneMore(items: seq<Item>, item: Item, candidates: seq<Candidate>, k: nat, call: Call)
    requires k < |candidates| && TakesAll(items, candidates, k, call) && |items| < call.limit && item.event == k
    requires candidates[k].admissible && FitsBeside(items + [item], |items|, candidates, call)
    ensures TakesAll(items + [item], candidates, k + 1, call)
  {
    var all := items + [item];
    EventsSnoc(items, item);
    forall i: nat | i < |all| ensures FitsBeside(all, i, candidates, call) {
      if i < |items| {
        assert FitsBeside(items, i, candidates, call);
        assert all[..i] == items[..i] && all[i] == items[i];
      }
    }
    forall i, j | 0 <= i < j < |all| ensures all[i].event < all[j].event {
      assert Events(items)[i] in Events(items);
    }
  }

  lemma SkipsOne(items: seq<Item>, candidates: seq<Candidate>, k: nat, call: Call)
    requires k < |candidates| && TakesAll(items, candidates, k, call) && !candidates[k].admissible
    ensures TakesAll(items, candidates, k + 1, call)
  {
  }

  /** Why the loop ends before candidate `k`. */
  ghost predicate StopsAt(items: seq<Item>, candidates: seq<Candidate>, k: nat, call: Call) {
    && k < |candidates| && candidates[k].admissible && call.offset <= |candidates[k].text|
    && Fitted(k, call.full, candidates[k].text, call.offset, call.summary,
              MeasureIn(call.size, Pack(items, GoesOn(items))), call.maxChars).None?
  }

  lemma {:induction false} RecallFromMeans(candidates: seq<Candidate>, i: nat, call: Call, pack: Pack)
    returns (k: nat)
    requires i <= |candidates| && TakesAll(pack.items, candidates, i, call) && pack.truncated == GoesOn(pack.items)
    ensures k <= |candidates|
    ensures match RecallFrom(candidates, i, call, pack)
            case OffsetOutside => k < |candidates| && candidates[k].admissible && call.offset > |candidates[k].text|
            case Packed(p) =>
              && TakesAll(p.items, candidates, k, call)
              && (k == |candidates| || |p.items| == call.limit || StopsAt(p.items, candidates, k, call))
              && (p.truncated <==> GoesOn(p.items) || (k < |candidates| && |p.items| < call.limit))
    decreases |candidates| - i
  {
    k := i;
    if i < |candidates| && |pack.items| < call.limit {
      if !candidates[i].admissible {
        SkipsOne(pack.items, candidates, i, call);
        k := RecallFromMeans(candidates, i + 1, call, pack);
      } else if call.offset <= |candidates[i].text| {
        var measure := MeasureIn(call.size, pack);
        var item := Fitted(i, call.full, candidates[i].text, call.offset, call.summary, measure, call.maxChars);
        if item.Some? {
          var items := pack.items + [item.value];
          assert items[..|pack.items|] == pack.items;
          assert pack == Pack(pack.items, GoesOn(pack.items));
          TakesOneMore(pack.items, item.value, candidates, i, call);
          GoesOnSnoc(pack.items, item.value);
          k := RecallFromMeans(candidates, i + 1, call, Pack(items, pack.truncated || item.value.nextOffset.Some?));
        }
      }
    }
  }

  /**
   * Main result: a packet holds all admissible candidates up to the limit or to the first of which nothing fits;
   * it is marked truncated exactly when that one exists or a text goes on.
   */
  lemma RecallMeans(candidates: seq<Candidate>, call: Call) returns (k: nat)
    ensures k <= |candidates|
    ensures match RecallFrom(candidates, 0, call, Pack([], false))
            case OffsetOutside => k < |candidates| && candidates[k].admissible && call.offset > |candidates[k].text|
            case Packed(p) =>
              && TakesAll(p.items, candidates, k, call)
              && (k == |candidates| || |p.items| == call.limit || StopsAt(p.items, candidates, k, call))
              && (p.truncated <==> GoesOn(p.items) || (k < |candidates| && |p.items| < call.limit))
  {
    k := RecallFromMeans(candidates, 0, call, Pack([], false));
  }

  // ---------- what a packet costs ----------

  /** One more item costs its frame, its excerpt, both offsets and a comma; the mark costs its word. */
  lemma ItemCosts(overhead: nat, frame: nat, items: seq<Item>, item: Item, truncated: bool)
    ensures PacketLength(overhead, frame, Pack([], truncated)) == overhead + if truncated then 4 else 5
    ensures PacketLength(overhead, frame, Pack(items + [item], truncated))
         == PacketLength(overhead, frame, Pack(items, truncated)) + frame + PrintedLength(item.excerpt) + |Print(item.offset)|
            + (if item.nextOffset.None? then 4 else |Print(item.nextOffset.value)|) + (if items == [] then 0 else 1)
  {
    assert (items + [item])[..|items|] == items;
  }
}
