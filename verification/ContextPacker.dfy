/**
 * The packing loop of src/compiler.js: ranked entries are added whole while they fit, the first one
 * that does not fit is shortened by a binary search over its excerpt length, and the context pack records
 * whether anything was dropped or shortened.
 */
module ContextPacker {
  import opened Common
  import opened Decimal
  import opened SizeAccounting

  /** A ranked entry is named by its position; only its excerpt is ever changed. */
  datatype Item = Item(entry: nat, excerpt: string)

  /**
   * The renderings of a pack with given items, as lengths without the printed counters and without
   * the `truncated` word; and the two token counts that have their own reservations.
   */
  datatype Renderer = Renderer(
    json: seq<Item> -> nat,
    markdown: seq<Item> -> nat,
    citationTokens: seq<Item> -> nat,
    contentTokens: seq<Item> -> nat)

  datatype Plan =
    | Disabled
    | Enabled(availableTokens: nat, citations: nat, content: nat, citationsOverflowIsError: bool)

  datatype Limits = Limits(maxChars: nat, plan: Plan)

  datatype Pack = Pack(items: seq<Item>, truncated: bool, budget: Budget)

  datatype PackError = BudgetTooSmall | ReservationExceeded | BudgetExceeded

  /** JSON prints `truncated` as true or false, Markdown as yes or no. */
  function FramingOf(r: Renderer, items: seq<Item>, truncated: bool): Framing {
    Framing(r.json(items) + (if truncated then |"true"| else |"false"|),
            r.markdown(items) + (if truncated then |"yes"| else |"no"|))
  }

  function BudgetFor(r: Renderer, limits: Limits, items: seq<Item>, truncated: bool): Budget {
    Settled(FramingOf(r, items, truncated), limits.plan.Enabled?)
  }

  predicate WithinBudget(limits: Limits, b: Budget) {
    && b.usedChars <= limits.maxChars
    && (limits.plan.Enabled? ==> b.usedTokens <= limits.plan.availableTokens)
  }

  predicate WithinReservations(r: Renderer, limits: Limits, items: seq<Item>) {
    limits.plan.Enabled? ==>
      && r.citationTokens(items) <= limits.plan.citations
      && r.contentTokens(items) <= limits.plan.content
  }

  /** `candidateFits`: the reservations first, then the settled size of the context pack, not truncated. */
  predicate Fits(r: Renderer, limits: Limits, items: seq<Item>) {
    WithinReservations(r, limits, items) && WithinBudget(limits, BudgetFor(r, limits, items, false))
  }

  /** A reservation or the budget itself is exceeded by a pack of these items that is not marked truncated. */
  ghost predicate Overflows(r: Renderer, limits: Limits, items: seq<Item>) {
    var b := BudgetFor(r, limits, items, false);
    || b.usedChars > limits.maxChars
    || (limits.plan.Enabled? &&
        (|| r.citationTokens(items) > limits.plan.citations || r.contentTokens(items) > limits.plan.content
         || b.usedTokens > limits.plan.availableTokens))
  }

  lemma FitsMeans(r: Renderer, limits: Limits, items: seq<Item>)
    ensures Fits(r, limits, items) <==> !Overflows(r, limits, items)
  {
  }

  /** The first `m` units of an excerpt, the last three replaced by dots. */
  function Shorten(full: string, m: nat): (s: string)
    requires m <= |full|
    ensures |s| == m
  {
    if m == |full| then full
    else if m <= 3 then seq(m, _ => '.')
    else full[..m - 3] + "..."
  }

  function FullItem(ranked: seq<string>, i: nat): Item
    requires i < |ranked|
  {
    Item(i, ranked[i])
  }

  function FullItems(ranked: seq<string>, n: nat): (items: seq<Item>)
    requires n <= |ranked|
    ensures |items| == n
    ensures forall i :: 0 <= i < n ==> items[i] == FullItem(ranked, i)
  {
    seq(n, i requires 0 <= i < n => FullItem(ranked, i))
  }

  // ---------- binary search ----------

  predicate FitsAt(r: Renderer, limits: Limits, items: seq<Item>, entry: nat, full: string, m: nat)
    requires m <= |full|
  {
    Fits(r, limits, items + [Item(entry, Shorten(full, m))])
  }

  /**
   * What the binary search accepts: a length that fits although one more unit would not, or
   * nothing when not even the empty excerpt fits.
   */
  ghost predicate Accepted(r: Renderer, limits: Limits, items: seq<Item>, entry: nat, full: string,
                           accepted: Option<nat>)
  {
    match accepted
    case None => !FitsAt(r, limits, items, entry, full, 0)
    case Some(m) => m < |full| && FitsAt(r, limits, items, entry, full, m) && !FitsAt(r, limits, items, entry, full, m + 1)
  }

  /** Whether a length fits. */
  type LengthTest = nat -> bool

  function FitsFn(r: Renderer, limits: Limits, items: seq<Item>, entry: nat, full: string): LengthTest {
    (m: nat) => m <= |full| && FitsAt(r, limits, items, entry, full, m)
  }

  /** The length just below `low` fits, and the one just above `high` does not. */
  ghost predicate Bracket(fits: LengthTest, whole: nat, low: int, high: int) {
    && 0 <= low <= high + 1 <= whole + 1
    && (low > 0 ==> fits(low - 1))
    && (high < whole ==> !fits(high + 1))
  }

  /** The binary search, for any test that the whole length fails. */
  method LongestLength(fits: LengthTest, whole: nat) returns (accepted: Option<nat>)
    requires !fits(whole)
    ensures accepted.None? ==> !fits(0)
    ensures accepted.Some? ==> accepted.value < whole && fits(accepted.value) && !fits(accepted.value + 1)
  {
    var low: int := 0;
    var high: int := whole;
    accepted := None;
    while low <= high
      invariant Bracket(fits, whole, low, high)
      invariant accepted == if low == 0 then None else Some(low - 1)
    {
      var midpoint := (low + high) / 2;
      if fits(midpoint) {
        accepted := Some(midpoint);
        low := midpoint + 1;
      } else {
        high := midpoint - 1;
      }
    }
  }

  method LongestExcerpt(r: Renderer, limits: Limits, items: seq<Item>, entry: nat, full: string)
    returns (accepted: Option<nat>)
    requires !FitsAt(r, limits, items, entry, full, |full|)
    ensures Accepted(r, limits, items, entry, full, accepted)
  {
    accepted := LongestLength(FitsFn(r, limits, items, entry, full), |full|);
  }

  // ---------- the loop ----------

  /** The first `n` entries were taken whole, each while it fitted; the next one does not fit whole. */
  ghost predicate StopsAt(r: Renderer, limits: Limits, ranked: seq<string>, limit: nat, n: nat) {
    && n <= |ranked| && n <= limit
    && (forall i :: 1 <= i <= n ==> Fits(r, limits, FullItems(ranked, i)))
    && (n < |ranked| && n < limit ==> !Fits(r, limits, FullItems(ranked, n + 1)))
  }

  /** The citations of the next entry alone overflow their reservation. */
  predicate CitationsOverflow(r: Renderer, limits: Limits, ranked: seq<string>, n: nat) {
    && n < |ranked|
    && limits.plan.Enabled?
    && r.citationTokens(FullItems(ranked, n + 1)) > limits.plan.citations
  }

  predicate OverflowIsError(limits: Limits) {
    limits.plan.Enabled? && limits.plan.citationsOverflowIsError
  }

  function WithShortened(ranked: seq<string>, n: nat, accepted: Option<nat>): seq<Item>
    requires n < |ranked| && (accepted.Some? ==> accepted.value < |ranked[n]|)
  {
    FullItems(ranked, n) + if accepted.None? then [] else [Item(n, Shorten(ranked[n], accepted.value))]
  }

  /** The entry after the whole ones is either left out or shortened as far as `Accepted` says. */
  ghost predicate ShortenedAt(r: Renderer, limits: Limits, ranked: seq<string>, n: nat, accepted: Option<nat>,
                              items: seq<Item>)
  {
    && n < |ranked| && ranked[n] != ""
    && Accepted(r, limits, FullItems(ranked, n), n, ranked[n], accepted)
    && items == WithShortened(ranked, n, accepted)
  }

  /** The next entry's citations overflow and the policy for that is an error. */
  ghost predicate ReservationFails(r: Renderer, limits: Limits, ranked: seq<string>, limit: nat, n: nat) {
    && StopsAt(r, limits, ranked, limit, n) && n < limit
    && CitationsOverflow(r, limits, ranked, n) && OverflowIsError(limits)
  }

  ghost predicate ChosenAt(r: Renderer, limits: Limits, ranked: seq<string>, limit: nat, items: seq<Item>, n: nat) {
    && StopsAt(r, limits, ranked, limit, n)
    && !ReservationFails(r, limits, ranked, limit, n)
    && if n == |ranked| || n == limit || CitationsOverflow(r, limits, ranked, n) || ranked[n] == ""
       then items == FullItems(ranked, n)
       else exists accepted :: ShortenedAt(r, limits, ranked, n, accepted, items)
  }

  /** The items the packing loop ends with. */
  ghost predicate Chosen(r: Renderer, limits: Limits, ranked: seq<string>, limit: nat, items: seq<Item>) {
    exists n: nat :: ChosenAt(r, limits, ranked, limit, items, n)
  }

  /** Something was dropped or shortened. */
  predicate Truncated(ranked: seq<string>, items: seq<Item>) {
    items != FullItems(ranked, |ranked|)
  }

  lemma FullItemsSnoc(ranked: seq<string>, n: nat)
    requires n < |ranked|
    ensures FullItems(ranked, n + 1) == FullItems(ranked, n) + [FullItem(ranked, n)]
    ensures ranked[n] == Shorten(ranked[n], |ranked[n]|)
  {
  }

  lemma ShortenedIsTruncated(ranked: seq<string>, n: nat, accepted: Option<nat>)
    requires n < |ranked| && (accepted.Some? ==> accepted.value < |ranked[n]|)
    ensures Truncated(ranked, WithShortened(ranked, n, accepted))
  {
    var items := WithShortened(ranked, n, accepted);
    if |items| == |ranked| {
      assert items[n].excerpt != FullItems(ranked, |ranked|)[n].excerpt;
    }
  }

  /** The entry that does not fit whole: `shortened` is what the loop then records. */
  method PackLast(r: Renderer, limits: Limits, ranked: seq<string>, limit: nat, n: nat)
    returns (result: Result<(seq<Item>, bool), PackError>)
    requires StopsAt(r, limits, ranked, limit, n) && n < |ranked| && n < limit
    ensures result.Err? ==> result.error == ReservationExceeded && ReservationFails(r, limits, ranked, limit, n)
    ensures result.Ok? ==> ChosenAt(r, limits, ranked, limit, result.value.0, n)
    ensures result.Ok? ==> (result.value.1 || |result.value.0| < |ranked|) && Truncated(ranked, result.value.0)
  {
    var items := FullItems(ranked, n);
    FullItemsSnoc(ranked, n);
    ShortenedIsTruncated(ranked, n, None);
    assert WithShortened(ranked, n, None) == items;
    var whole := FullItems(ranked, n + 1);
    if limits.plan.Enabled? && r.citationTokens(whole) > limits.plan.citations {
      if limits.plan.citationsOverflowIsError {
        return Err(ReservationExceeded);
      }
      return Ok((items, true));
    }
    if ranked[n] == "" {
      return Ok((items, false));
    }
    var accepted := LongestExcerpt(r, limits, items, n, ranked[n]);
    ShortenedIsTruncated(ranked, n, accepted);
    items := WithShortened(ranked, n, accepted);
    assert ShortenedAt(r, limits, ranked, n, accepted, items);
    return Ok((items, true));
  }

  method PackEntries(r: Renderer, limits: Limits, ranked: seq<string>, limit: nat)
    returns (result: Result<(seq<Item>, bool), PackError>)
    ensures result.Err? ==> result.error == ReservationExceeded
    ensures result.Err? <==> exists n: nat :: ReservationFails(r, limits, ranked, limit, n)
    ensures result.Ok? ==> Chosen(r, limits, ranked, limit, result.value.0)
    ensures result.Ok? ==> (result.value.1 || |result.value.0| < |ranked|) == Truncated(ranked, result.value.0)
  {
    var items: seq<Item> := [];
    for i := 0 to |ranked|
      invariant i <= limit && items == FullItems(ranked, i)
      invariant forall j :: 1 <= j <= i ==> Fits(r, limits, FullItems(ranked, j))
    {
      if |items| >= limit {
        assert ChosenAt(r, limits, ranked, limit, items, i);
        return Ok((items, false));
      }
      FullItemsSnoc(ranked, i);
      if Fits(r, limits, items + [FullItem(ranked, i)]) {
        items := items + [FullItem(ranked, i)];
      } else {
        result := PackLast(r, limits, ranked, limit, i);
        return;
      }
    }
    assert ChosenAt(r, limits, ranked, limit, items, |ranked|);
    return Ok((items, false));
  }

  // ---------- what a chosen pack looks like ----------

  /** The first units of an excerpt with three dots in place of the last of them; up to three units are dots alone. */
  predicate IsShortened(excerpt: string, full: string) {
    var m := |excerpt|;
    && m < |full|
    && if m <= 3 then forall i :: 0 <= i < m ==> excerpt[i] == '.'
       else excerpt[..m - 3] == full[..m - 3] && excerpt[m - 3..] == "..."
  }

  lemma ShortenedMeans(full: string, m: nat)
    requires m < |full|
    ensures IsShortened(Shorten(full, m), full)
    ensures forall s: string :: |s| == m && IsShortened(s, full) ==> s == Shorten(full, m)
  {
    forall s: string | |s| == m && IsShortened(s, full) ensures s == Shorten(full, m) {
      if m > 3 {
        assert s == s[..m - 3] + s[m - 3..];
      }
    }
  }

  /** A prefix of the ranking: item i is entry i, whole, except that the last one may be a shorter excerpt. */
  lemma ChosenIsPrefix(r: Renderer, limits: Limits, ranked: seq<string>, limit: nat, items: seq<Item>)
    requires Chosen(r, limits, ranked, limit, items)
    ensures |items| <= |ranked| && |items| <= limit
    ensures forall i :: 0 <= i < |items| ==> items[i].entry == i
    ensures forall i :: 0 <= i < |items| ==>
              || items[i] == FullItem(ranked, i)
              || (i == |items| - 1 && IsShortened(items[i].excerpt, ranked[i]))
    ensures items != [] ==> !Overflows(r, limits, items)
  {
    var n: nat :| ChosenAt(r, limits, ranked, limit, items, n);
    FitsMeans(r, limits, items);
    if items == FullItems(ranked, n) {
    } else {
      var accepted :| ShortenedAt(r, limits, ranked, n, accepted, items);
      if accepted.Some? {
        ShortenedMeans(ranked[n], accepted.value);
      }
    }
  }

  /** Nothing of the entry fits, or its citations alone are too many. */
  ghost predicate NothingFits(r: Renderer, limits: Limits, whole: seq<Item>, entry: nat, full: string) {
    || Overflows(r, limits, whole + [Item(entry, "")])
    || (limits.plan.Enabled? && r.citationTokens(whole + [Item(entry, full)]) > limits.plan.citations)
  }

  /** One more unit of the entry would be too much. */
  ghost predicate OneMoreOverflows(r: Renderer, limits: Limits, whole: seq<Item>, entry: nat, full: string, m: nat) {
    exists longer: string ::
      |longer| == m + 1 && (longer == full || IsShortened(longer, full)) && Overflows(r, limits, whole + [Item(entry, longer)])
  }

  /** The loop stops early only at an entry that does not fit whole, and then takes of it what still fits. */
  ghost predicate TakesMost(r: Renderer, limits: Limits, ranked: seq<string>, limit: nat, items: seq<Item>, n: nat) {
    && n <= |ranked| && n <= limit && |items| >= n && items[..n] == FullItems(ranked, n)
    && (n == |ranked| || n == limit ==> |items| == n)
    && (n < |ranked| && n < limit ==>
          && Overflows(r, limits, FullItems(ranked, n + 1))
          && (|items| == n ==> ranked[n] == "" || NothingFits(r, limits, items, n, ranked[n]))
          && (|items| > n ==>
                && |items| == n + 1 && |items[n].excerpt| < |ranked[n]|
                && OneMoreOverflows(r, limits, items[..n], n, ranked[n], |items[n].excerpt|)))
  }

  lemma ShortenedTakesMost(r: Renderer, limits: Limits, ranked: seq<string>, limit: nat, n: nat, accepted: Option<nat>,
                           items: seq<Item>)
    requires StopsAt(r, limits, ranked, limit, n) && n < limit && ShortenedAt(r, limits, ranked, n, accepted, items)
    ensures TakesMost(r, limits, ranked, limit, items, n)
  {
    var whole := FullItems(ranked, n);
    FitsMeans(r, limits, FullItems(ranked, n + 1));
    if accepted.None? {
      assert items == whole;
      assert Shorten(ranked[n], 0) == "";
      FitsMeans(r, limits, whole + [Item(n, "")]);
    } else {
      var longer := Shorten(ranked[n], accepted.value + 1);
      FitsMeans(r, limits, whole + [Item(n, longer)]);
      assert items[..n] == whole;
      if accepted.value + 1 < |ranked[n]| {
        ShortenedMeans(ranked[n], accepted.value + 1);
      }
    }
  }

  /** Main result: the loop packs as much as fits. */
  lemma ChosenIsMaximal(r: Renderer, limits: Limits, ranked: seq<string>, limit: nat, items: seq<Item>)
    requires Chosen(r, limits, ranked, limit, items)
    ensures exists n: nat :: TakesMost(r, limits, ranked, limit, items, n)
  {
    var n: nat :| ChosenAt(r, limits, ranked, limit, items, n);
    if n < |ranked| && n < limit {
      FitsMeans(r, limits, FullItems(ranked, n + 1));
      if CitationsOverflow(r, limits, ranked, n) || ranked[n] == "" {
        assert items[..n] == FullItems(ranked, n);
        FullItemsSnoc(ranked, n);
        assert TakesMost(r, limits, ranked, limit, items, n);
      } else {
        var accepted :| ShortenedAt(r, limits, ranked, n, accepted, items);
        ShortenedTakesMost(r, limits, ranked, limit, n, accepted, items);
      }
    } else {
      assert items[..n] == FullItems(ranked, n);
      assert TakesMost(r, limits, ranked, limit, items, n);
    }
  }

  /** Whole entries up to one whose citations exceed their reservation, while that is an error. */
  ghost predicate RefusedAt(r: Renderer, limits: Limits, ranked: seq<string>, limit: nat, n: nat) {
    && n < |ranked| && n < limit
    && (forall i :: 1 <= i <= n ==> !Overflows(r, limits, FullItems(ranked, i)))
    && limits.plan.Enabled? && limits.plan.citationsOverflowIsError
    && r.citationTokens(FullItems(ranked, n + 1)) > limits.plan.citations
  }

  lemma RefusedMeans(r: Renderer, limits: Limits, ranked: seq<string>, limit: nat, n: nat)
    ensures ReservationFails(r, limits, ranked, limit, n) <==> RefusedAt(r, limits, ranked, limit, n)
  {
    if n < |ranked| {
      forall i | 1 <= i <= n ensures Fits(r, limits, FullItems(ranked, i)) <==> !Overflows(r, limits, FullItems(ranked, i)) {
        FitsMeans(r, limits, FullItems(ranked, i));
      }
      FitsMeans(r, limits, FullItems(ranked, n + 1));
    }
  }

  // ---------- the longest excerpt ----------

  /** Everything a pack is measured by grows with the length of the last excerpt. */
  ghost predicate CostGrows(r: Renderer, items: seq<Item>, entry: nat, full: string) {
    forall m: nat, m': nat :: m <= m' <= |full| ==>
      var a, b := items + [Item(entry, Shorten(full, m))], items + [Item(entry, Shorten(full, m'))];
      && r.json(a) <= r.json(b) && r.markdown(a) <= r.markdown(b)
      && r.citationTokens(a) <= r.citationTokens(b) && r.contentTokens(a) <= r.contentTokens(b)
  }

  lemma ShorterFits(r: Renderer, limits: Limits, items: seq<Item>, entry: nat, full: string, m: nat, m': nat)
    requires CostGrows(r, items, entry, full) && m <= m' <= |full|
    requires FitsAt(r, limits, items, entry, full, m')
    ensures FitsAt(r, limits, items, entry, full, m)
  {
    var a, b := items + [Item(entry, Shorten(full, m))], items + [Item(entry, Shorten(full, m'))];
    SettledMonotone(FramingOf(r, a, false), FramingOf(r, b, false), limits.plan.Enabled?);
  }

  /** When the cost grows with the excerpt, the binary search keeps the longest excerpt that fits. */
  lemma AcceptedIsLongest(r: Renderer, limits: Limits, items: seq<Item>, entry: nat, full: string,
                          accepted: Option<nat>)
    requires CostGrows(r, items, entry, full)
    requires Accepted(r, limits, items, entry, full, accepted)
    ensures forall m: nat :: m <= |full| && FitsAt(r, limits, items, entry, full, m) ==> accepted.Some? && m <= accepted.value
  {
    forall m: nat | m <= |full| && FitsAt(r, limits, items, entry, full, m)
      ensures accepted.Some? && m <= accepted.value
    {
      if accepted.None? {
        ShorterFits(r, limits, items, entry, full, 0, m);
      } else if accepted.value < m {
        ShorterFits(r, limits, items, entry, full, accepted.value + 1, m);
      }
    }
  }

  /** Every excerpt the loop may have to shorten, after the whole entries before it. */
  ghost predicate CostsGrow(r: Renderer, ranked: seq<string>) {
    forall n :: 0 <= n < |ranked| ==> CostGrows(r, FullItems(ranked, n), n, ranked[n])
  }

  lemma AcceptedUnique(r: Renderer, limits: Limits, items: seq<Item>, entry: nat, full: string, a: Option<nat>,
                       b: Option<nat>)
    requires CostGrows(r, items, entry, full)
    requires Accepted(r, limits, items, entry, full, a) && Accepted(r, limits, items, entry, full, b)
    ensures a == b
  {
    AcceptedIsLongest(r, limits, items, entry, full, a);
    AcceptedIsLongest(r, limits, items, entry, full, b);
    if a.Some? { assert FitsAt(r, limits, items, entry, full, a.value); }
    if b.Some? { assert FitsAt(r, limits, items, entry, full, b.value); }
  }

  lemma StopUnique(r: Renderer, limits: Limits, ranked: seq<string>, limit: nat, n: nat, m: nat)
    requires StopsAt(r, limits, ranked, limit, n) && StopsAt(r, limits, ranked, limit, m)
    ensures n == m
  {
  }

  /** When costs grow with the excerpt, the loop can end with only one list of items. */
  lemma ChosenUnique(r: Renderer, limits: Limits, ranked: seq<string>, limit: nat, a: seq<Item>, b: seq<Item>)
    requires CostsGrow(r, ranked)
    requires Chosen(r, limits, ranked, limit, a) && Chosen(r, limits, ranked, limit, b)
    ensures a == b
  {
    var n: nat :| ChosenAt(r, limits, ranked, limit, a, n);
    var m: nat :| ChosenAt(r, limits, ranked, limit, b, m);
    StopUnique(r, limits, ranked, limit, n, m);
    if n < |ranked| && n < limit && !CitationsOverflow(r, limits, ranked, n) && ranked[n] != "" {
      var x :| ShortenedAt(r, limits, ranked, n, x, a);
      var y :| ShortenedAt(r, limits, ranked, n, y, b);
      AcceptedUnique(r, limits, FullItems(ranked, n), n, ranked[n], x, y);
    }
  }

  /** The loop's items, marked as they then are, do not fit. */
  ghost predicate LastCheckFails(r: Renderer, limits: Limits, ranked: seq<string>, limit: nat) {
    exists items :: Chosen(r, limits, ranked, limit, items) && !WithinBudget(limits, BudgetFor(r, limits, items, Truncated(ranked, items)))
  }

  /** The printed size is that of the longer form, its own counters included, and the tokens a quarter of it, rounded up. */
  ghost predicate StatesItsSize(r: Renderer, limits: Limits, p: Pack) {
    var json, markdown := r.json(p.items) + (if p.truncated then 4 else 5), r.markdown(p.items) + (if p.truncated then 3 else 2);
    var b := p.budget;
    && b.usedChars == Max(json, markdown) + |Print(b.usedChars)| + |Print(b.estimatedTokens)|
                      + (if limits.plan.Enabled? then |Print(b.usedTokens)| else 0)
    && b.usedTokens == b.estimatedTokens && b.usedChars <= 4 * b.usedTokens < b.usedChars + 4
  }

  lemma SizeIsStated(r: Renderer, limits: Limits, items: seq<Item>, truncated: bool)
    ensures StatesItsSize(r, limits, Pack(items, truncated, BudgetFor(r, limits, items, truncated)))
  {
    SettledMeans(FramingOf(r, items, truncated), limits.plan.Enabled?);
  }

  /** `compileContextWithIndex` from the empty pack on. */
  method CompileContext(r: Renderer, limits: Limits, ranked: seq<string>, limit: nat)
    returns (result: Result<Pack, PackError>)
    ensures result == Err(BudgetTooSmall) <==>
              var least := BudgetFor(r, limits, [], false);
              least.usedChars > limits.maxChars || (limits.plan.Enabled? && least.usedTokens > limits.plan.availableTokens)
    ensures result == Err(ReservationExceeded) <==>
              && WithinBudget(limits, BudgetFor(r, limits, [], false))
              && exists n: nat :: RefusedAt(r, limits, ranked, limit, n)
    ensures result == Err(BudgetExceeded) ==> LastCheckFails(r, limits, ranked, limit)
    ensures CostsGrow(r, ranked) ==>
              (result == Err(BudgetExceeded) <==>
                 WithinBudget(limits, BudgetFor(r, limits, [], false)) && LastCheckFails(r, limits, ranked, limit))
    ensures result.Ok? ==>
              && Chosen(r, limits, ranked, limit, result.value.items)
              && result.value.budget.usedChars <= limits.maxChars
              && (limits.plan.Enabled? ==> result.value.budget.usedTokens <= limits.plan.availableTokens)
              && result.value.budget == BudgetFor(r, limits, result.value.items, result.value.truncated)
              && StatesItsSize(r, limits, result.value)
              && (result.value.truncated <==>
                    || |result.value.items| != |ranked|
                    || exists i :: 0 <= i < |ranked| && result.value.items[i].excerpt != ranked[i])
  {
    if !WithinBudget(limits, BudgetFor(r, limits, [], false)) {
      return Err(BudgetTooSmall);
    }
    var packed := PackEntries(r, limits, ranked, limit);
    forall n: nat ensures ReservationFails(r, limits, ranked, limit, n) <==> RefusedAt(r, limits, ranked, limit, n) {
      RefusedMeans(r, limits, ranked, limit, n);
    }
    if packed.Err? {
      ReservationLeavesNoItems(r, limits, ranked, limit);
      return Err(packed.error);
    }
    var (items, shortened) := packed.value;
    var truncated := shortened || |items| < |ranked|;
    var budget := BudgetFor(r, limits, items, truncated);
    ChosenDecides(r, limits, ranked, limit, items);
    TruncatedMeans(r, limits, ranked, limit, items);
    if !WithinBudget(limits, budget) {
      return Err(BudgetExceeded);
    }
    SizeIsStated(r, limits, items, truncated);
    return Ok(Pack(items, truncated, budget));
  }

  lemma TruncatedMeans(r: Renderer, limits: Limits, ranked: seq<string>, limit: nat, items: seq<Item>)
    requires Chosen(r, limits, ranked, limit, items)
    ensures Truncated(ranked, items) <==>
              |items| != |ranked| || exists i :: 0 <= i < |ranked| && items[i].excerpt != ranked[i]
  {
    ChosenIsPrefix(r, limits, ranked, limit, items);
    if |items| == |ranked| && forall i :: 0 <= i < |ranked| ==> items[i].excerpt == ranked[i] {
      forall i | 0 <= i < |items| ensures items[i] == FullItem(ranked, i) {
      }
    }
  }

  lemma ReservationLeavesNoItems(r: Renderer, limits: Limits, ranked: seq<string>, limit: nat)
    requires exists n: nat :: ReservationFails(r, limits, ranked, limit, n)
    ensures !LastCheckFails(r, limits, ranked, limit)
  {
    var n: nat :| ReservationFails(r, limits, ranked, limit, n);
    forall items, m: nat ensures !ChosenAt(r, limits, ranked, limit, items, m) {
      if StopsAt(r, limits, ranked, limit, m) {
        StopUnique(r, limits, ranked, limit, n, m);
      }
    }
  }

  lemma ChosenDecides(r: Renderer, limits: Limits, ranked: seq<string>, limit: nat, items: seq<Item>)
    requires Chosen(r, limits, ranked, limit, items)
    ensures !WithinBudget(limits, BudgetFor(r, limits, items, Truncated(ranked, items))) ==> LastCheckFails(r, limits, ranked, limit)
    ensures CostsGrow(r, ranked) && LastCheckFails(r, limits, ranked, limit) ==>
              !WithinBudget(limits, BudgetFor(r, limits, items, Truncated(ranked, items)))
  {
    if CostsGrow(r, ranked) && LastCheckFails(r, limits, ranked, limit) {
      var other :| Chosen(r, limits, ranked, limit, other) && !WithinBudget(limits, BudgetFor(r, limits, other, Truncated(ranked, other)));
      ChosenUnique(r, limits, ranked, limit, items, other);
    }
  }

  // ---------- the last check ----------

  lemma OneMoreCharacter(f: Framing, g: Framing, enabled: bool)
    requires f.json <= g.json && f.markdown <= g.markdown && FixedChars(f) < FixedChars(g)
    ensures Settled(f, enabled).usedChars < Settled(g, enabled).usedChars
  {
    SettledMonotone(f, g, enabled);
    SettledIsLeastExact(f, enabled);
    SettledIsLeastExact(g, enabled);
    MeasuredIsNext(f, enabled, Settled(f, enabled).usedChars);
    MeasuredIsNext(g, enabled, Settled(g, enabled).usedChars);
  }

  lemma SameFixedChars(f: Framing, g: Framing, enabled: bool)
    requires FixedChars(g) <= FixedChars(f)
    ensures Settled(g, enabled).usedChars <= Settled(f, enabled).usedChars
    ensures Settled(g, enabled).usedTokens <= Settled(f, enabled).usedTokens
  {
    var c := FixedChars(f);
    SettledMonotone(Framing(FixedChars(g), FixedChars(g)), Framing(c, c), enabled);
  }

  /**
   * Candidates are measured with the word for "not truncated", the final pack with its true one.
   * Being within the budget carries over from the one to the other for every budget exactly when
   * the Markdown form is at most two characters longer than the JSON form.
   */
  lemma TruncatedWordFits(r: Renderer, items: seq<Item>)
    ensures r.markdown(items) <= r.json(items) + 2 <==>
            forall limits: Limits :: WithinBudget(limits, BudgetFor(r, limits, items, false)) ==> WithinBudget(limits, BudgetFor(r, limits, items, true))
  {
    var f, g := FramingOf(r, items, false), FramingOf(r, items, true);
    if r.markdown(items) <= r.json(items) + 2 {
      forall limits: Limits | WithinBudget(limits, BudgetFor(r, limits, items, false))
        ensures WithinBudget(limits, BudgetFor(r, limits, items, true))
      {
        SameFixedChars(f, g, limits.plan.Enabled?);
      }
    } else {
      var tight := Limits(Settled(f, false).usedChars, Disabled);
      LongerForm(f, g);
      assert WithinBudget(tight, BudgetFor(r, tight, items, false));
      assert !WithinBudget(tight, BudgetFor(r, tight, items, true));
    }
  }

  lemma OneForm(f: Framing, enabled: bool)
    ensures Settled(f, enabled).usedChars == Settled(Framing(FixedChars(f), FixedChars(f)), enabled).usedChars
  {
    var g := Framing(FixedChars(f), FixedChars(f));
    SameFixedChars(f, g, enabled);
    SameFixedChars(g, f, enabled);
  }

  lemma LongerForm(f: Framing, g: Framing)
    requires FixedChars(f) < FixedChars(g)
    ensures Settled(f, false).usedChars < Settled(g, false).usedChars
  {
    OneForm(f, false);
    OneForm(g, false);
    OneMoreCharacter(Framing(FixedChars(f), FixedChars(f)), Framing(FixedChars(g), FixedChars(g)), false);
  }
}
