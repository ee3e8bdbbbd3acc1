/**
 * What the gear rule of the chunker means, apart from how it is computed: the fingerprint is a
 * weighted sum that only the last 32 bytes enter, and the mask test is divisibility.
 */
module GearMeaning {
  import opened Common
  import opened Chunker

  // ---------- the mask test ----------

  lemma {:induction false} MaskIsRemainder(f: nat, n: nat)
    requires PowerOfTwo(n)
    ensures And(f, n - 1) == f % n
    decreases n
  {
    if n > 1 {
      var m := n / 2;
      MaskIsRemainder(f / 2, m);
      assert (n - 1) / 2 == m - 1 && (n - 1) % 2 == 1;
      HalvedRemainder(f, m);
    }
  }

  lemma HalvedRemainder(f: nat, m: nat)
    requires m > 0
    ensures f % (2 * m) == 2 * (f / 2 % m) + f % 2
  {
    var h := f / 2;
    var q, r := h / m, h % m;
    assert f == 2 * h + f % 2 && h == q * m + r;
    assert f == q * (2 * m) + (2 * r + f % 2);
    RemainderIs(f, 2 * m, q, 2 * r + f % 2);
  }

  lemma RemainderIs(x: int, d: nat, q: int, r: nat)
    requires r < d && x == q * d + r
    ensures x % d == r
  {
    var k := q - x / d;
    assert x == x / d * d + x % d;
    assert k * d == x % d - r;
    SmallMultiple(k, d);
  }

  lemma SmallMultiple(k: int, d: int)
    requires d > 0 && -d < k * d < d
    ensures k == 0
  {
    MultipleAtLeast(k, d);
  }

  lemma MultipleAtLeast(k: int, d: int)
    requires d > 0
    ensures k >= 1 ==> k * d >= d
    ensures k <= -1 ==> k * d <= -d
  {
    if k >= 1 {
      assert (k - 1) * d >= 0;
    } else if k <= -1 {
      assert (-k - 1) * d >= 0;
    }
  }

  lemma {:induction false} SelfAnd(n: nat)
    ensures And(n, n) == n
  {
    if n > 0 {
      SelfAnd(n / 2);
    }
  }

  /** The source's own test for a power of two. */
  lemma {:induction false} PowerOfTwoIsBitTest(n: nat)
    requires n >= 1
    ensures PowerOfTwo(n) <==> And(n, n - 1) == 0
  {
    if n > 1 {
      if n % 2 == 0 {
        assert (n - 1) / 2 == n / 2 - 1;
        PowerOfTwoIsBitTest(n / 2);
      } else {
        assert (n - 1) / 2 == n / 2;
        SelfAnd(n / 2);
      }
    }
  }

  // ---------- the fingerprint ----------

  function Pow2(n: nat): (p: nat)
    ensures p > 0
  {
    if n == 0 then 1 else 2 * Pow2(n - 1)
  }

  /** Each byte's gear value, doubled once for every byte that follows. */
  function GearSum(chunk: Bytes): nat {
    if chunk == [] then 0 else Pow2(|chunk| - 1) * Gear(chunk[0]) + GearSum(chunk[1..])
  }

  lemma {:induction false} GearSumAppend(a: Bytes, b: Bytes)
    ensures GearSum(a + b) == Pow2(|b|) * GearSum(a) + GearSum(b)
  {
    if a == [] {
      assert a + b == b;
    } else {
      GearSumAppend(a[1..], b);
      var c := a + b;
      assert c[0] == a[0] && c[1..] == a[1..] + b && |c| - 1 == |a| - 1 + |b|;
      Pow2Adds(|a| - 1, |b|);
      FirstGear(a, a[1..], Gear(a[0]), Pow2(|a| - 1));
      FirstGear(c, a[1..] + b, Gear(a[0]), Pow2(|a| - 1) * Pow2(|b|));
      Distributes(Pow2(|b|), Pow2(|a| - 1), Gear(a[0]), GearSum(a[1..]), GearSum(b));
    }
  }

  lemma FirstGear(chunk: Bytes, rest: Bytes, g: Word, p: nat)
    requires chunk != [] && g == Gear(chunk[0]) && rest == chunk[1..] && p == Pow2(|chunk| - 1)
    ensures GearSum(chunk) == p * g + GearSum(rest)
  {
  }

  lemma Distributes(p: nat, q: nat, g: nat, s: nat, t: nat)
    ensures (q * p) * g + (p * s + t) == p * (q * g + s) + t
  {
  }

  lemma {:induction false} Pow2Adds(a: nat, b: nat)
    ensures Pow2(a + b) == Pow2(a) * Pow2(b)
  {
    if a > 0 {
      Pow2Adds(a - 1, b);
    }
  }

  lemma Pow2Of32()
    ensures Pow2(32) == WORD
  {
    Pow2Squared(1, 2);
    Pow2Squared(2, 4);
    Pow2Squared(4, 16);
    Pow2Squared(8, 256);
    Pow2Squared(16, 65_536);
  }

  lemma Pow2Squared(n: nat, p: nat)
    requires Pow2(n) == p
    ensures Pow2(2 * n) == p * p
  {
    Pow2Adds(n, n);
  }

  lemma SumModulo(x: nat, y: nat, m: nat)
    requires m > 0
    ensures (2 * (x % m) + y) % m == (2 * x + y) % m
  {
    var q := x / m;
    var r := (2 * (x % m) + y) % m;
    var k := (2 * (x % m) + y) / m;
    assert x == q * m + x % m;
    assert 2 * x + y == (2 * q + k) * m + r;
    RemainderIs(2 * x + y, m, 2 * q + k, r);
  }

  /** The rolling fingerprint is the weighted sum, modulo the word size. */
  lemma {:induction false} FingerprintIsSum(chunk: Bytes)
    ensures Fingerprint(chunk) == GearSum(chunk) % WORD
  {
    if chunk != [] {
      var front, last := chunk[..|chunk| - 1], chunk[|chunk| - 1];
      FingerprintIsSum(front);
      FingerprintStep(chunk, 0, |chunk| - 1);
      assert chunk[0..|chunk| - 1] == front && chunk[0..|chunk| - 1 + 1] == chunk;
      assert chunk == front + [last];
      GearSumSnoc(front, last);
      SumModulo(GearSum(front), Gear(last), WORD);
    }
  }

  lemma GearSumSnoc(front: Bytes, last: Byte)
    ensures GearSum(front + [last]) == 2 * GearSum(front) + Gear(last)
  {
    GearSumAppend(front, [last]);
    OneGear(last, Gear(last));
  }

  lemma OneGear(b: Byte, g: Word)
    requires g == Gear(b)
    ensures GearSum([b]) == g && Pow2(|[b]|) == 2
  {
    assert [b][1..] == [];
    assert GearSum([b]) == Pow2(0) * g + GearSum([]);
  }

  /** Only the last 32 bytes matter: a cut depends on what is right before it. */
  lemma LastBytesDecide(a: Bytes, b: Bytes, tail: Bytes)
    requires |tail| == 32
    ensures Fingerprint(a + tail) == Fingerprint(b + tail) == GearSum(tail) % WORD
  {
    OnlyTail(a, tail);
    OnlyTail(b, tail);
  }

  lemma OnlyTail(a: Bytes, tail: Bytes)
    requires |tail| == 32
    ensures Fingerprint(a + tail) == GearSum(tail) % WORD
  {
    FingerprintIsSum(a + tail);
    GearSumAppend(a, tail);
    Pow2Of32();
    WholeWords(GearSum(a + tail), GearSum(a), GearSum(tail), Pow2(|tail|));
  }

  lemma WholeWords(n: nat, x: nat, y: nat, word: nat)
    requires word == WORD && n == word * x + y
    ensures n % WORD == y % WORD
  {
  }

  // ---------- where chunks end ----------

  /** Long enough, and full or with a fingerprint divisible by the average size. */
  predicate EndsHere(l: ChunkLimits, chunk: Bytes)
    requires l.averageBytes > 0
  {
    |chunk| >= l.minBytes && (|chunk| >= l.maxBytes || GearSum(chunk) % WORD % l.averageBytes == 0)
  }

  lemma RuleMeans(l: ChunkLimits, chunk: Bytes)
    requires ValidChunkLimits(l)
    ensures GearRule(l)(chunk) <==> EndsHere(l, chunk)
  {
    FingerprintIsSum(chunk);
    MaskIsRemainder(Fingerprint(chunk), l.averageBytes);
  }

  /** Every chunk ends at the first place where one may end; only the last may end without one. */
  ghost predicate CutWhereAllowed(l: ChunkLimits, chunks: seq<Bytes>)
    requires l.averageBytes > 0
  {
    && (forall i :: 0 <= i < |chunks| ==> chunks[i] != [] && NoEarlierEnd(l, chunks[i]))
    && (forall i :: 0 <= i < |chunks| - 1 ==> EndsHere(l, chunks[i]))
  }

  ghost predicate NoEarlierEnd(l: ChunkLimits, chunk: Bytes)
    requires l.averageBytes > 0
  {
    forall k {:trigger chunk[..k]} :: 0 <= k < |chunk| ==> !EndsHere(l, chunk[..k])
  }

  lemma NoEarlierEndMeans(l: ChunkLimits, chunk: Bytes)
    requires ValidChunkLimits(l)
    ensures NotClosedBefore(GearRule(l), chunk, |chunk|) <==> NoEarlierEnd(l, chunk)
  {
    forall k | 0 <= k < |chunk| ensures GearRule(l)(chunk[..k]) <==> EndsHere(l, chunk[..k]) {
      RuleMeans(l, chunk[..k]);
    }
  }

  /** Main result: the chunker's output is exactly the list that is cut where the gear sum allows it. */
  lemma OutputMeans(l: ChunkLimits, bytes: Bytes, chunks: seq<Bytes>)
    requires ValidChunkLimits(l)
    ensures ChunkerOutput(l, bytes, chunks) <==>
              Flatten(chunks) == bytes && if bytes == [] then chunks == [[]] else CutWhereAllowed(l, chunks)
  {
    forall i | 0 <= i < |chunks|
      ensures NotClosedBefore(GearRule(l), chunks[i], |chunks[i]|) <==> NoEarlierEnd(l, chunks[i])
      ensures GearRule(l)(chunks[i]) <==> EndsHere(l, chunks[i])
    {
      NoEarlierEndMeans(l, chunks[i]);
      RuleMeans(l, chunks[i]);
    }
  }
}
