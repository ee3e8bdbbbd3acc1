/**
 * Self-referential size accounting: a context pack prints its own size, and a proof context
 * prints its own token count, so both are iterated until the printed numbers are the measured ones
 * (src/compiler.js `finalizePack`, src/proof-context.js `finalize`).
 *
 * A rendering is abstracted to the length of everything but the printed counters. The counters
 * are printed in decimal; the manifest hash has a fixed width.
 */
module SizeAccounting {
  import opened Common
  import opened Decimal

  const PACK_ATTEMPTS := 12
  const PROOF_ATTEMPTS := 8
  const MAX_ESTIMATE := 100_000_000

  /** The portable estimator: four characters a token, rounded up. */
  function Tokens(chars: nat): (t: nat)
    ensures 4 * t - 3 <= chars <= 4 * t
  {
    (chars + 3) / 4
  }

  /** Lengths of the two renderings of a pack, without the printed counters. */
  datatype Framing = Framing(json: nat, markdown: nat)

  datatype Budget = Budget(usedChars: nat, estimatedTokens: nat, usedTokens: nat)

  /** Both renderings print usedChars and estimatedTokens; usedTokens only with a token plan. */
  function CounterChars(enabled: bool, b: Budget): nat {
    Digits(b.usedChars) + Digits(b.estimatedTokens) + if enabled then Digits(b.usedTokens) else 0
  }

  function JsonLength(f: Framing, enabled: bool, b: Budget): nat { f.json + CounterChars(enabled, b) }

  function MarkdownLength(f: Framing, enabled: bool, b: Budget): nat { f.markdown + CounterChars(enabled, b) }

  /** What is measured on the renderings that print `b`. */
  function Measured(f: Framing, enabled: bool, b: Budget): Budget {
    var json := JsonLength(f, enabled, b);
    var markdown := MarkdownLength(f, enabled, b);
    var usedChars := Max(json, markdown);
    var usedTokens := if enabled then Max(Tokens(json), Tokens(markdown)) else Tokens(usedChars);
    Budget(usedChars, usedTokens, usedTokens)
  }

  // ---------- the chain of measured sizes ----------

  /** One measurement as a function of the printed size alone: `c` fixed characters, `k` token counters. */
  function Next(c: nat, k: nat, u: nat): nat { c + Digits(u) + k * Digits(Tokens(u)) }

  /** The size after `n` measurements, starting from 0. */
  function Chain(c: nat, k: nat, n: nat): nat {
    if n == 0 then 0 else Next(c, k, Chain(c, k, n - 1))
  }

  lemma NextMonotone(c: nat, k: nat, u: nat, w: nat)
    requires u <= w
    ensures Next(c, k, u) <= Next(c, k, w)
  {
    DigitsMonotone(u, w);
    DigitsMonotone(Tokens(u), Tokens(w));
    assert k * Digits(Tokens(u)) <= k * Digits(Tokens(w));
  }

  lemma {:induction false} ChainMonotone(c: nat, k: nat, n: nat)
    ensures Chain(c, k, n) <= Chain(c, k, n + 1)
  {
    if n > 0 {
      ChainMonotone(c, k, n - 1);
      NextMonotone(c, k, Chain(c, k, n - 1), Chain(c, k, n));
    }
  }

  lemma {:induction false} ChainBelow(c: nat, k: nat, n: nat, bound: nat)
    requires Next(c, k, bound) <= bound
    ensures Chain(c, k, n) <= bound
  {
    if n > 0 {
      ChainBelow(c, k, n - 1, bound);
      NextMonotone(c, k, Chain(c, k, n - 1), bound);
    }
  }

  /** The size when every digit count has grown by one after the first measurement. */
  function Ceiling(c: nat, k: nat): nat {
    var first := c + 1 + k;
    c + Digits(first) + 1 + k * (Digits(Tokens(first)) + 1)
  }

  lemma ChainOne(c: nat, k: nat)
    ensures Chain(c, k, 1) == c + 1 + k
  {
    assert Chain(c, k, 0) == 0;
    assert Digits(0) == 1 && Tokens(0) == 0;
  }

  lemma AddFewDigits(n: nat, more: nat)
    requires more <= 9 * Pow10(Digits(n))
    ensures Digits(n + more) <= Digits(n) + 1
  {
    DigitsBounds(n);
    DigitsAtMost(n + more, Digits(n) + 1);
  }

  /** After the first measurement each digit count grows at most once more. */
  lemma DigitsGrowOnce(c: nat, k: nat)
    requires k <= 2
    ensures Digits(Ceiling(c, k)) <= Digits(Chain(c, k, 1)) + 1
    ensures Digits(Tokens(Ceiling(c, k))) <= Digits(Tokens(Chain(c, k, 1))) + 1
    ensures Next(c, k, Ceiling(c, k)) <= Ceiling(c, k)
  {
    var u := Chain(c, k, 1);
    var t := Tokens(u);
    var d, e := Digits(u), Digits(t);
    ChainOne(c, k);
    DigitsMonotone(t, u);
    assert k * (e + 1) == k * e + k;
    var more := d + k * e;
    assert Ceiling(c, k) == u + more;
    assert more <= 3 * d by { if k == 2 {} else if k == 1 {} else {} }
    AddFewDigits(u, more);
    // one more token digit covers the extra characters
    DigitsBounds(t);
    assert u < Pow10(e + 1);
    DigitsAtMost(u, e + 1);
    var moreTokens := Tokens(u + more) - t;
    AddFewDigits(t, moreTokens);
    var top := Ceiling(c, k);
    assert k * Digits(Tokens(top)) <= k * (e + 1);
  }

  lemma Pairs(c: nat, k: nat, n: nat)
    requires k <= 2 && n >= 1
    ensures Digits(Chain(c, k, 1)) <= Digits(Chain(c, k, n)) <= Digits(Chain(c, k, n + 1)) <= Digits(Chain(c, k, 1)) + 1
    ensures Digits(Tokens(Chain(c, k, 1))) <= Digits(Tokens(Chain(c, k, n))) <= Digits(Tokens(Chain(c, k, n + 1))) <= Digits(Tokens(Chain(c, k, 1))) + 1
  {
    DigitsGrowOnce(c, k);
    ChainBelow(c, k, n + 1, Ceiling(c, k));
    ChainMonotone(c, k, n);
    ChainFromOne(c, k, n);
    DigitsMonotone(Chain(c, k, 1), Chain(c, k, n));
    DigitsMonotone(Chain(c, k, n), Chain(c, k, n + 1));
    DigitsMonotone(Chain(c, k, n + 1), Ceiling(c, k));
    DigitsMonotone(Tokens(Chain(c, k, 1)), Tokens(Chain(c, k, n)));
    DigitsMonotone(Tokens(Chain(c, k, n)), Tokens(Chain(c, k, n + 1)));
    DigitsMonotone(Tokens(Chain(c, k, n + 1)), Tokens(Ceiling(c, k)));
  }

  lemma {:induction false} ChainFromOne(c: nat, k: nat, n: nat)
    requires n >= 1
    ensures Chain(c, k, 1) <= Chain(c, k, n)
  {
    if n > 1 {
      ChainFromOne(c, k, n - 1);
      ChainMonotone(c, k, n - 1);
    }
  }

  /** With at most two kinds of counters the chain stands still from the fourth measurement on. */
  lemma ChainSettles(c: nat, k: nat)
    requires k <= 2
    ensures Chain(c, k, 5) == Chain(c, k, 4)
  {
    Pairs(c, k, 1);
    Pairs(c, k, 2);
    Pairs(c, k, 3);
    if Digits(Chain(c, k, 2)) == Digits(Chain(c, k, 1)) && Digits(Tokens(Chain(c, k, 2))) == Digits(Tokens(Chain(c, k, 1))) {
      assert Chain(c, k, 3) == Chain(c, k, 2);
      assert Chain(c, k, 4) == Chain(c, k, 3);
    } else if Digits(Chain(c, k, 3)) == Digits(Chain(c, k, 2)) && Digits(Tokens(Chain(c, k, 3))) == Digits(Tokens(Chain(c, k, 2))) {
      assert Chain(c, k, 4) == Chain(c, k, 3);
    } else {
      assert Digits(Chain(c, k, 4)) == Digits(Chain(c, k, 3));
      assert Digits(Tokens(Chain(c, k, 4))) == Digits(Tokens(Chain(c, k, 3)));
    }
  }

  lemma {:induction false} ChainStays(c: nat, k: nat, n: nat)
    requires k <= 2 && n >= 4
    ensures Chain(c, k, n) == Chain(c, k, 4)
  {
    ChainSettles(c, k);
    if n > 4 {
      ChainStays(c, k, n - 1);
    }
  }

  // ---------- context packs ----------

  function FixedChars(f: Framing): nat { Max(f.json, f.markdown) }

  function Counters(enabled: bool): nat { if enabled then 2 else 1 }

  function BudgetOf(u: nat): Budget { Budget(u, Tokens(u), Tokens(u)) }

  /** The budget every pack with this framing settles on. */
  function Settled(f: Framing, enabled: bool): Budget {
    BudgetOf(Chain(FixedChars(f), Counters(enabled), 4))
  }

  lemma MeasuredIsNext(f: Framing, enabled: bool, u: nat)
    ensures Measured(f, enabled, BudgetOf(u)) == BudgetOf(Next(FixedChars(f), Counters(enabled), u))
  {
  }

  /** The settled budget is what its own renderings measure, and the least such budget. */
  lemma SettledIsLeastExact(f: Framing, enabled: bool)
    ensures Measured(f, enabled, Settled(f, enabled)) == Settled(f, enabled)
    ensures forall b: Budget :: Measured(f, enabled, b) == b ==>
              Settled(f, enabled).usedChars <= b.usedChars && Settled(f, enabled).usedTokens <= b.usedTokens
  {
    var c, k := FixedChars(f), Counters(enabled);
    ChainSettles(c, k);
    MeasuredIsNext(f, enabled, Chain(c, k, 4));
    forall b: Budget | Measured(f, enabled, b) == b
      ensures Settled(f, enabled).usedChars <= b.usedChars && Settled(f, enabled).usedTokens <= b.usedTokens
    {
      assert b == BudgetOf(b.usedChars);
      MeasuredIsNext(f, enabled, b.usedChars);
      ChainBelow(c, k, 4, b.usedChars);
    }
  }

  /** The numbers it prints: the longer form with all its counters, and a quarter of that, rounded up. */
  lemma SettledMeans(f: Framing, enabled: bool)
    ensures var b := Settled(f, enabled);
            && b.usedChars == Max(f.json, f.markdown) + |Print(b.usedChars)| + |Print(b.estimatedTokens)| + (if enabled then |Print(b.usedTokens)| else 0)
            && b.usedTokens == b.estimatedTokens && b.usedChars <= 4 * b.usedTokens < b.usedChars + 4
  {
    SettledIsLeastExact(f, enabled);
  }

  /** A rendering that grows in both forms never settles on fewer characters or tokens. */
  lemma SettledMonotone(f: Framing, g: Framing, enabled: bool)
    requires f.json <= g.json && f.markdown <= g.markdown
    ensures Settled(f, enabled).usedChars <= Settled(g, enabled).usedChars
    ensures Settled(f, enabled).usedTokens <= Settled(g, enabled).usedTokens
  {
    var k := Counters(enabled);
    var top := Chain(FixedChars(g), k, 4);
    ChainSettles(FixedChars(g), k);
    assert Next(FixedChars(f), k, top) <= Next(FixedChars(g), k, top) == top;
    ChainBelow(FixedChars(f), k, 4, top);
  }

  datatype Outcome = Stable(budget: Budget) | EstimateOutOfRange | Unstable

  /**
   * The iteration of `finalizePack` with the portable estimator. The "unstable" error is never
   * reached; the only failure is an estimate above the estimator's range, exactly when the settled
   * estimate is above it.
   */
  method FinalizePack(f: Framing, enabled: bool) returns (r: Outcome)
    ensures r == if enabled && Settled(f, enabled).usedTokens > MAX_ESTIMATE then EstimateOutOfRange
                 else Stable(Settled(f, enabled))
  {
    ghost var c, k := FixedChars(f), Counters(enabled);
    var budget := Budget(0, 0, 0);
    for attempt := 0 to PACK_ATTEMPTS
      invariant attempt <= 4
      invariant budget == BudgetOf(Chain(c, k, attempt))
    {
      ChainMeets(c, k, attempt);
      MeasuredIsNext(f, enabled, budget.usedChars);
      var next := Measured(f, enabled, budget);
      if enabled && (Tokens(JsonLength(f, enabled, budget)) > MAX_ESTIMATE || Tokens(MarkdownLength(f, enabled, budget)) > MAX_ESTIMATE) {
        return EstimateOutOfRange;
      }
      if next == budget {
        return Stable(budget);
      }
      budget := next;
    }
    return Unstable;
  }

  lemma ChainMeets(c: nat, k: nat, n: nat)
    requires k <= 2 && n <= 4
    ensures Chain(c, k, n + 1) <= Chain(c, k, 4)
    ensures Chain(c, k, n + 1) == Chain(c, k, n) ==> Chain(c, k, n) == Chain(c, k, 4)
    ensures n == 4 ==> Chain(c, k, n + 1) == Chain(c, k, n)
  {
    ChainSettles(c, k);
    ChainBelow(c, k, n + 1, Chain(c, k, 4));
    ChainBelow(c, k, n, Chain(c, k, 4));
    if Chain(c, k, n + 1) == Chain(c, k, n) {
      ChainBelow(c, k, 4, Chain(c, k, n));
    }
  }

  // ---------- proof contexts ----------

  /** A proof context prints one counter, its token count, in a JSON text of `c` other characters. */
  function ProofNext(c: nat, t: nat): nat { Tokens(c + Digits(t)) }

  function ProofChain(c: nat, n: nat): nat {
    if n == 0 then 0 else ProofNext(c, ProofChain(c, n - 1))
  }

  function ProofSettled(c: nat): nat { ProofChain(c, 3) }

  lemma ProofNextMonotone(c: nat, t: nat, w: nat)
    requires t <= w
    ensures ProofNext(c, t) <= ProofNext(c, w)
  {
    DigitsMonotone(t, w);
  }

  lemma {:induction false} ProofChainMonotone(c: nat, n: nat)
    ensures ProofChain(c, n) <= ProofChain(c, n + 1)
  {
    if n > 0 {
      ProofChainMonotone(c, n - 1);
      ProofNextMonotone(c, ProofChain(c, n - 1), ProofChain(c, n));
    }
  }

  lemma {:induction false} ProofChainBelow(c: nat, n: nat, bound: nat)
    requires ProofNext(c, bound) <= bound
    ensures ProofChain(c, n) <= bound
  {
    if n > 0 {
      ProofChainBelow(c, n - 1, bound);
      ProofNextMonotone(c, ProofChain(c, n - 1), bound);
    }
  }

  lemma ProofChainSettles(c: nat)
    ensures ProofChain(c, 4) == ProofChain(c, 3)
  {
    assert ProofChain(c, 0) == 0;
    var first := ProofChain(c, 1);
    var d := Digits(first);
    assert first == Tokens(c + 1);
    var top := Tokens(c + d + 1);
    AddFewDigits(first, top - first);
    assert ProofNext(c, top) <= top;
    ProofChainBelow(c, 3, top);
    ProofChainMonotone(c, 1);
    ProofChainMonotone(c, 2);
    DigitsMonotone(first, ProofChain(c, 2));
    DigitsMonotone(ProofChain(c, 2), ProofChain(c, 3));
    DigitsMonotone(ProofChain(c, 3), top);
    if Digits(ProofChain(c, 2)) == d {
      assert ProofChain(c, 3) == ProofChain(c, 2);
    } else {
      assert Digits(ProofChain(c, 3)) == Digits(ProofChain(c, 2));
    }
  }

  /** The settled token count is the count of the text that prints it, and the least such count. */
  lemma ProofSettledIsLeastExact(c: nat)
    ensures ProofNext(c, ProofSettled(c)) == ProofSettled(c)
    ensures forall t: nat :: ProofNext(c, t) == t ==> ProofSettled(c) <= t
  {
    ProofChainSettles(c);
    forall t: nat | ProofNext(c, t) == t ensures ProofSettled(c) <= t {
      ProofChainBelow(c, 3, t);
    }
  }

  lemma ProofSettledMeans(c: nat)
    ensures var t := ProofSettled(c); c + |Print(t)| <= 4 * t < c + |Print(t)| + 4
  {
    ProofSettledIsLeastExact(c);
  }

  lemma ProofSettledMonotone(c: nat, e: nat)
    requires c <= e
    ensures ProofSettled(c) <= ProofSettled(e)
  {
    ProofSettledIsLeastExact(e);
    assert ProofNext(c, ProofSettled(e)) <= ProofNext(e, ProofSettled(e));
    ProofChainBelow(c, 3, ProofSettled(e));
  }

  datatype ProofOutcome = ProofStable(usedTokens: nat) | ProofEstimateOutOfRange | ProofUnstable

  /** The iteration of `finalize` in src/proof-context.js with the portable estimator. */
  method FinalizeProof(c: nat) returns (r: ProofOutcome)
    ensures r == if ProofSettled(c) > MAX_ESTIMATE then ProofEstimateOutOfRange else ProofStable(ProofSettled(c))
  {
    var used := 0;
    for attempt := 0 to PROOF_ATTEMPTS
      invariant attempt <= 3
      invariant used == ProofChain(c, attempt)
    {
      ProofChainMeets(c, attempt);
      var usedTokens := Tokens(c + Digits(used));
      if usedTokens > MAX_ESTIMATE {
        return ProofEstimateOutOfRange;
      }
      if usedTokens == used {
        return ProofStable(used);
      }
      used := usedTokens;
    }
    return ProofUnstable;
  }

  lemma ProofChainMeets(c: nat, n: nat)
    requires n <= 3
    ensures ProofChain(c, n + 1) <= ProofSettled(c)
    ensures ProofChain(c, n + 1) == ProofChain(c, n) ==> ProofChain(c, n) == ProofSettled(c)
    ensures n == 3 ==> ProofChain(c, n + 1) == ProofChain(c, n)
  {
    ProofChainSettles(c);
    ProofChainBelow(c, n + 1, ProofSettled(c));
    ProofChainBelow(c, n, ProofSettled(c));
    if ProofChain(c, n + 1) == ProofChain(c, n) {
      ProofChainBelow(c, 3, ProofChain(c, n));
    }
  }
}
