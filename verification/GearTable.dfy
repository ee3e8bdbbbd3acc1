/**
 * The generator of the gear table, computed on numbers, is the one the source writes with shifts and
 * exclusive or on unsigned 32-bit words (src/content-archive.js:47-55).
 */
module GearTable {
  import opened Chunker

  // ---------- 32-bit words as bits ----------

  const WIDTH := 32

  /** A word by its bits, the lowest first. */
  type BitWord = nat -> bool

  function ExclusiveOr(x: BitWord, y: BitWord): BitWord { (i: nat) => x(i) != y(i) }

  /** Bits shifted out at the top are lost, zeros come in below. */
  function ShiftLeft(x: BitWord, k: nat): BitWord { (i: nat) => k <= i < WIDTH && x(i - k) }

  /** Zeros come in at the top. */
  function ShiftRight(x: BitWord, k: nat): BitWord { (i: nat) => i + k < WIDTH && x(i + k) }

  /** The three lines of the source. */
  function ShiftedThrice(x: BitWord): BitWord {
    var a := ExclusiveOr(x, ShiftLeft(x, 13));
    var b := ExclusiveOr(a, ShiftRight(a, 17));
    ExclusiveOr(b, ShiftLeft(b, 5))
  }

  // ---------- the bits of a number ----------

  function Bit(n: nat, i: nat): bool {
    if i == 0 then n % 2 == 1 else Bit(n / 2, i - 1)
  }

  function BitsOf(n: nat): BitWord { (i: nat) => Bit(n, i) }

  lemma {:induction false} ZeroBits(i: nat)
    ensures !Bit(0, i)
  {
    if i > 0 {
      ZeroBits(i - 1);
    }
  }

  lemma XorHalves(a: nat, b: nat)
    requires a > 0 && b > 0
    ensures Xor(a, b) / 2 == Xor(a / 2, b / 2) && Xor(a, b) % 2 == if a % 2 == b % 2 then 0 else 1
  {
  }

  lemma {:induction false} XorBits(a: nat, b: nat, i: nat)
    ensures Bit(Xor(a, b), i) <==> Bit(a, i) != Bit(b, i)
  {
    if a == 0 || b == 0 {
      ZeroBits(i);
    } else {
      XorHalves(a, b);
      if i > 0 {
        XorBits(a / 2, b / 2, i - 1);
      }
    }
  }

  function Doubled(n: nat, k: nat): nat { if k == 0 then n else 2 * Doubled(n, k - 1) }

  function Halved(n: nat, k: nat): nat { if k == 0 then n else Halved(n / 2, k - 1) }

  lemma {:induction false} DoubledBits(n: nat, k: nat, i: nat)
    ensures Bit(Doubled(n, k), i) <==> k <= i && Bit(n, i - k)
  {
    if k > 0 && i > 0 {
      DoubledBits(n, k - 1, i - 1);
    }
  }

  lemma {:induction false} HalvedBits(n: nat, k: nat, i: nat)
    ensures Bit(Halved(n, k), i) <==> Bit(n, i + k)
  {
    if k > 0 {
      HalvedBits(n / 2, k - 1, i);
    }
  }

  /** A number below the k-th power of two has no bit from the k-th on; multiples of the power have none below. */
  lemma {:induction false} SumBits(r: nat, q: nat, k: nat, i: nat)
    requires r < Doubled(1, k)
    ensures Bit(r + Doubled(q, k), i) <==> if i < k then Bit(r, i) else Bit(q, i - k)
  {
    if k > 0 && i > 0 {
      assert (r + Doubled(q, k)) / 2 == r / 2 + Doubled(q, k - 1);
      SumBits(r / 2, q, k - 1, i - 1);
    }
  }

  lemma {:induction false} DoubledTwice(n: nat, j: nat, k: nat)
    ensures Doubled(n, j + k) == Doubled(Doubled(n, j), k)
  {
    if k > 0 {
      DoubledTwice(n, j, k - 1);
    }
  }

  lemma {:induction false} HalvedTwice(n: nat, j: nat, k: nat)
    ensures Halved(n, j + k) == Halved(Halved(n, j), k)
  {
    if j > 0 {
      HalvedTwice(n / 2, j - 1, k);
    }
  }

  lemma FourDoubled(n: nat)
    ensures Doubled(n, 4) == 16 * n && Doubled(n, 5) == 32 * n
  {
    assert Doubled(n, 1) == 2 * n && Doubled(n, 2) == 4 * n && Doubled(n, 3) == 8 * n;
  }

  lemma EightDoubled(n: nat)
    ensures Doubled(n, 8) == 0x100 * n
  {
    FourDoubled(n);
    FourDoubled(16 * n);
    DoubledTwice(n, 4, 4);
  }

  lemma ManyDoubled(n: nat)
    ensures Doubled(n, 5) == 0x20 * n && Doubled(n, 13) == 0x2000 * n && Doubled(n, 32) == WORD * n
  {
    FourDoubled(n);
    EightDoubled(n);
    FourDoubled(0x100 * n);
    DoubledTwice(n, 8, 5);
    EightDoubled(0x100 * n);
    DoubledTwice(n, 8, 8);
    EightDoubled(0x1_0000 * n);
    DoubledTwice(n, 16, 8);
    EightDoubled(0x100_0000 * n);
    DoubledTwice(n, 24, 8);
  }

  lemma FourHalved(n: nat)
    ensures Halved(n, 4) == n / 16
  {
    assert Halved(n / 8, 1) == n / 16 && Halved(n / 4, 2) == n / 16 && Halved(n / 2, 3) == n / 16;
  }

  lemma EightHalved(n: nat)
    ensures Halved(n, 8) == n / 256
  {
    FourHalved(n);
    FourHalved(n / 16);
    HalvedTwice(n, 4, 4);
  }

  lemma SeventeenHalved(n: nat)
    ensures Halved(n, 17) == n / 0x2_0000
  {
    EightHalved(n);
    EightHalved(n / 256);
    HalvedTwice(n, 8, 8);
    HalvedTwice(n, 16, 1);
    assert Halved(n / 65_536, 1) == n / 65_536 / 2;
  }

  /** Reducing to a word keeps the bits below the width and no other. */
  lemma WordBits(n: nat, i: nat)
    ensures Bit(n % WORD, i) <==> i < WIDTH && Bit(n, i)
  {
    ManyDoubled(1);
    ManyDoubled(n / WORD);
    SumBits(n % WORD, n / WORD, WIDTH, i);
    SumBits(n % WORD, 0, WIDTH, i);
    ManyDoubled(0);
    if i >= WIDTH {
      ZeroBits(i - WIDTH);
    }
  }

  // ---------- the generator ----------

  /** Two words have the same bits. */
  ghost predicate Same(x: BitWord, y: BitWord) { forall i: nat :: x(i) == y(i) }

  lemma LeftStep(w: Word, m: nat, k: nat)
    requires m == Doubled(w, k)
    ensures Same(BitsOf(Xor(w, m % WORD) % WORD), ExclusiveOr(BitsOf(w), ShiftLeft(BitsOf(w), k)))
  {
    forall i: nat ensures Bit(Xor(w, m % WORD) % WORD, i) == (Bit(w, i) != (k <= i < WIDTH && Bit(w, i - k))) {
      XorWordBits(w, m % WORD, i);
      WordBits(m, i);
      DoubledBits(w, k, i);
    }
  }

  lemma XorWordBits(w: Word, m: nat, i: nat)
    ensures Bit(Xor(w, m) % WORD, i) <==> i < WIDTH && Bit(w, i) != Bit(m, i)
    ensures i >= WIDTH ==> !Bit(w, i)
  {
    WordBits(Xor(w, m), i);
    XorBits(w, m, i);
    WordBits(w, i);
  }

  lemma RightStep(w: Word, m: nat, k: nat)
    requires m == Halved(w, k)
    ensures Same(BitsOf(Xor(w, m) % WORD), ExclusiveOr(BitsOf(w), ShiftRight(BitsOf(w), k)))
  {
    forall i: nat ensures Bit(Xor(w, m) % WORD, i) == (Bit(w, i) != (i + k < WIDTH && Bit(w, i + k))) {
      RightStepAt(w, m, k, i);
    }
  }

  lemma RightStepAt(w: Word, m: nat, k: nat, i: nat)
    requires m == Halved(w, k)
    ensures Bit(Xor(w, m) % WORD, i) <==> Bit(w, i) != (i + k < WIDTH && Bit(w, i + k))
  {
    XorWordBits(w, m, i);
    HalvedBits(w, k, i);
    NoBitAbove(w, i + k);
  }

  lemma NoBitAbove(w: Word, i: nat)
    ensures i >= WIDTH ==> !Bit(w, i)
  {
    WordBits(w, i);
  }

  lemma SameThrice(x: BitWord, a: BitWord, b: BitWord, c: BitWord)
    requires Same(a, ExclusiveOr(x, ShiftLeft(x, 13))) && Same(b, ExclusiveOr(a, ShiftRight(a, 17)))
    requires Same(c, ExclusiveOr(b, ShiftLeft(b, 5)))
    ensures Same(c, ShiftedThrice(x))
  {
  }

  /** Main result: one step of the generator, in the source's shifts on its words. */
  lemma XorShiftIsShifts(w: Word)
    ensures Same(BitsOf(XorShift(w)), ShiftedThrice(BitsOf(w)))
  {
    var a: Word := Xor(w, w * 0x2000 % WORD) % WORD;
    var b: Word := Xor(a, a / 0x2_0000) % WORD;
    ManyDoubled(w);
    LeftStep(w, w * 0x2000, 13);
    SeventeenHalved(a);
    RightStep(a, a / 0x2_0000, 17);
    ManyDoubled(b);
    LeftStep(b, b * 0x20, 5);
    SameThrice(BitsOf(w), BitsOf(a), BitsOf(b), BitsOf(XorShift(w)));
  }

  /** A number is known by its bits, so the step is determined. */
  lemma {:induction false} BitsDetermine(a: nat, b: nat)
    requires Same(BitsOf(a), BitsOf(b))
    ensures a == b
    decreases a + b
  {
    assert BitsOf(a)(0) == BitsOf(b)(0);
    if a > 0 || b > 0 {
      forall i: nat ensures Bit(a / 2, i) == Bit(b / 2, i) {
        assert BitsOf(a)(i + 1) == BitsOf(b)(i + 1);
      }
      BitsDetermine(a / 2, b / 2);
    }
  }
}
