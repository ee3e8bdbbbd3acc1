/**
 * The content-defined chunker of src/content-archive.js: a rolling gear fingerprint closes a chunk
 * once it is long enough and the fingerprint hits the mask, or once it is as long as allowed.
 */
module Chunker {
  import opened Common

  type Byte = b: int | 0 <= b < 256
  type Bytes = seq<Byte>

  datatype ChunkLimits = ChunkLimits(minBytes: nat, averageBytes: nat, maxBytes: nat)

  /** The bit test of the source (n & (n - 1) is zero) for positive numbers. */
  predicate PowerOfTwo(n: nat) {
    n == 1 || (n > 1 && n % 2 == 0 && PowerOfTwo(n / 2))
  }

  /** What `normalizeLimits` enforces on chunk sizes. */
  predicate ValidChunkLimits(l: ChunkLimits) {
    && 4_096 <= l.minBytes <= 1_048_576
    && 8_192 <= l.averageBytes <= 4_194_304
    && 16_384 <= l.maxBytes <= 16_777_216
    && l.minBytes <= l.averageBytes <= l.maxBytes
    && PowerOfTwo(l.averageBytes)
  }

  // ---------- the gear fingerprint ----------

  const WORD := 0x1_0000_0000

  /** An unsigned 32-bit value. */
  type Word = w: int | 0 <= w < WORD

  /** Bitwise exclusive or of two natural numbers. */
  function Xor(a: nat, b: nat): nat {
    if a == 0 then b
    else if b == 0 then a
    else 2 * Xor(a / 2, b / 2) + if a % 2 == b % 2 then 0 else 1
  }

  /** Bitwise and of two natural numbers. */
  function And(a: nat, b: nat): nat {
    if a == 0 || b == 0 then 0 else 2 * And(a / 2, b / 2) + if a % 2 == 1 && b % 2 == 1 then 1 else 0
  }

  const GEAR_SEED: Word := 0x9e3779b9

  /** One step of the generator: shifts by 13 to the left, 17 to the right and 5 to the left. */
  function XorShift(state: Word): Word {
    var a := Xor(state, state * 0x2000 % WORD) % WORD;
    var b := Xor(a, a / 0x2_0000) % WORD;
    Xor(b, b * 0x20 % WORD) % WORD
  }

  function GearState(n: nat): Word {
    if n == 0 then GEAR_SEED else XorShift(GearState(n - 1))
  }

  function Gear(b: Byte): Word { GearState(b + 1) }

  function Roll(fingerprint: Word, b: Byte): Word { (2 * fingerprint + Gear(b)) % WORD }

  /** The fingerprint after the first `n` bytes of a chunk. */
  function FingerprintAt(chunk: Bytes, n: nat): Word
    requires n <= |chunk|
  {
    if n == 0 then 0 else Roll(FingerprintAt(chunk, n - 1), chunk[n - 1])
  }

  function Fingerprint(chunk: Bytes): Word { FingerprintAt(chunk, |chunk|) }

  lemma {:induction false} SamePrefixSameFingerprint(a: Bytes, b: Bytes, n: nat)
    requires n <= |a| && n <= |b| && forall i :: 0 <= i < n ==> a[i] == b[i]
    ensures FingerprintAt(a, n) == FingerprintAt(b, n)
  {
    if n > 0 { SamePrefixSameFingerprint(a, b, n - 1); }
  }

  /** The test for ending a chunk of the given length. */
  predicate EndsChunk(l: ChunkLimits, fingerprint: Word, length: nat)
    requires ValidChunkLimits(l)
  {
    length >= l.minBytes && (And(fingerprint, l.averageBytes - 1) == 0 || length >= l.maxBytes)
  }

  // ---------- chunkings under any rule ----------

  /** Says of a chunk's own bytes whether the chunk ends after them. */
  type CutRule = Bytes -> bool

  /** No proper prefix of the bytes is closed. */
  ghost predicate NotClosedBefore(closed: CutRule, bytes: Bytes, n: nat)
    requires n <= |bytes|
  {
    forall k {:trigger closed(bytes[..k])} :: 0 <= k < n ==> !closed(bytes[..k])
  }

  /**
   * A list of chunks is the chunking of its concatenation when every chunk is non-empty, ends as
   * soon as it is closed, and only the last one may end without being closed.
   */
  ghost predicate IsChunking(closed: CutRule, chunks: seq<Bytes>) {
    && (forall i :: 0 <= i < |chunks| ==> chunks[i] != [] && NotClosedBefore(closed, chunks[i], |chunks[i]|))
    && (forall i :: 0 <= i < |chunks| - 1 ==> closed(chunks[i]))
  }

  /** One comparison of two chunkings of texts that agree for a while: the first chunks agree. */
  lemma FirstChunkAgrees(closed: CutRule, a: seq<Bytes>, b: seq<Bytes>, rest: Bytes)
    requires a != [] && b != []
    requires IsChunking(closed, a) && IsChunking(closed, b)
    requires Flatten(a) + rest == Flatten(b)
    requires |a| > 1 || closed(a[0])
    ensures b[0] == a[0]
  {
    var whole := Flatten(b);
    assert whole[..|b[0]|] == b[0];
    assert whole[..|a[0]|] == a[0];
    assert forall k :: 0 <= k <= |a[0]| ==> a[0][..k] == whole[..k];
    assert forall k :: 0 <= k <= |b[0]| ==> b[0][..k] == whole[..k];
    assert |b[1..]| == 0 ==> Flatten(b[1..]) == [];
    assert closed(whole[..|a[0]|]);
  }

  lemma ChunkingTail(closed: CutRule, a: seq<Bytes>)
    requires a != [] && IsChunking(closed, a)
    ensures IsChunking(closed, a[1..])
  {
    forall i | 0 <= i < |a[1..]| ensures a[1..][i] != [] && NotClosedBefore(closed, a[1..][i], |a[1..][i]|) && (i < |a[1..]| - 1 ==> closed(a[1..][i])) {
      assert a[1..][i] == a[i + 1];
    }
  }

  /** There is only one chunking of a text. */
  lemma {:induction false} ChunkingUnique(closed: CutRule, a: seq<Bytes>, b: seq<Bytes>)
    requires IsChunking(closed, a) && IsChunking(closed, b) && Flatten(a) == Flatten(b)
    ensures a == b
  {
    if a == [] || b == [] {
    } else {
      if |a| > 1 || closed(a[0]) {
        FirstChunkAgrees(closed, a, b, []);
      } else if |b| > 1 || closed(b[0]) {
        FirstChunkAgrees(closed, b, a, []);
      } else {
        assert a[1..] == [] && b[1..] == [];
      }
      FlattenHead(a);
      FlattenHead(b);
      ChunkingTail(closed, a);
      ChunkingTail(closed, b);
      ChunkingUnique(closed, a[1..], b[1..]);
      assert a == [a[0]] + a[1..] && b == [b[0]] + b[1..];
    }
  }

  lemma Joined(closed: CutRule, a: seq<Bytes>, b: seq<Bytes>)
    requires IsChunking(closed, a) && IsChunking(closed, b)
    requires a != [] ==> closed(a[|a| - 1])
    ensures IsChunking(closed, a + b) && Flatten(a + b) == Flatten(a) + Flatten(b)
  {
    FlattenAppend(a, b);
    var c := a + b;
    forall i | 0 <= i < |c| ensures c[i] != [] && NotClosedBefore(closed, c[i], |c[i]|) && (i < |c| - 1 ==> closed(c[i])) {
      if i < |a| {
        assert c[i] == a[i];
      } else {
        assert c[i] == b[i - |a|];
      }
    }
  }

  /**
   * Cutting at a chunk boundary splits the problem: the chunks of x + y are the chunks of x followed
   * by the chunks of y exactly when the last chunk of x is closed.
   */
  lemma SplitAtBoundary(closed: CutRule, a: seq<Bytes>, b: seq<Bytes>, c: seq<Bytes>)
    requires a != [] && b != []
    requires IsChunking(closed, a) && IsChunking(closed, b) && IsChunking(closed, c)
    requires Flatten(c) == Flatten(a) + Flatten(b)
    ensures c == a + b <==> closed(a[|a| - 1])
  {
    if closed(a[|a| - 1]) {
      Joined(closed, a, b);
      ChunkingUnique(closed, a + b, c);
    }
    if c == a + b {
      assert c[|a| - 1] == a[|a| - 1];
    }
  }

  /**
   * Appending to a text keeps all of its chunks but the last: whatever follows, the chunks of x
   * before the last one are the first chunks of x + y.
   */
  lemma {:induction false} AppendKeepsChunks(closed: CutRule, a: seq<Bytes>, c: seq<Bytes>, y: Bytes)
    requires a != [] && IsChunking(closed, a) && IsChunking(closed, c)
    requires Flatten(c) == Flatten(a) + y
    ensures |a| - 1 <= |c| && a[..|a| - 1] == c[..|a| - 1]
  {
    if |a| > 1 {
      FirstChunkAgrees(closed, a, c, y);
      ChunkingTail(closed, a);
      ChunkingTail(closed, c);
      DropHead(a, c, y);
      AppendKeepsChunks(closed, a[1..], c[1..], y);
      assert a[..|a| - 1] == [a[0]] + a[1..][..|a| - 2];
      assert c[..|a| - 1] == [c[0]] + c[1..][..|a| - 2];
    }
  }

  lemma DropHead(a: seq<Bytes>, c: seq<Bytes>, y: Bytes)
    requires a != [] && c != [] && a[0] == c[0] && Flatten(c) == Flatten(a) + y
    ensures Flatten(c[1..]) == Flatten(a[1..]) + y
  {
    FlattenHead(a);
    FlattenHead(c);
    assert (Flatten(a) + y)[|a[0]|..] == Flatten(a)[|a[0]|..] + y;
  }

  /**
   * After a common boundary two different texts with the same ending have the same chunks: an edit
   * changes no chunk after the first boundary both versions share.
   */
  lemma SameEndingSameChunks(closed: CutRule, a: seq<Bytes>, b: seq<Bytes>, aTail: seq<Bytes>, bTail: seq<Bytes>)
    requires IsChunking(closed, a + aTail) && IsChunking(closed, b + bTail)
    requires Flatten(aTail) == Flatten(bTail)
    ensures aTail == bTail
  {
    Suffix(closed, a, aTail);
    Suffix(closed, b, bTail);
    ChunkingUnique(closed, aTail, bTail);
  }

  lemma Suffix(closed: CutRule, a: seq<Bytes>, tail: seq<Bytes>)
    requires IsChunking(closed, a + tail)
    ensures IsChunking(closed, tail)
  {
    var c := a + tail;
    forall i | 0 <= i < |tail| ensures tail[i] != [] && NotClosedBefore(closed, tail[i], |tail[i]|) && (i < |tail| - 1 ==> closed(tail[i])) {
      assert tail[i] == c[i + |a|];
    }
  }

  /** Length of the first chunk, looking from length `k` on. */
  function CutLength(closed: CutRule, bytes: Bytes, k: nat): (n: nat)
    requires 1 <= k <= |bytes|
    ensures k <= n <= |bytes|
    ensures n < |bytes| ==> closed(bytes[..n])
    ensures forall j {:trigger closed(bytes[..j])} :: k <= j < n ==> !closed(bytes[..j])
    decreases |bytes| - k
  {
    if k == |bytes| || closed(bytes[..k]) then k else CutLength(closed, bytes, k + 1)
  }

  function Cuts(closed: CutRule, bytes: Bytes): seq<Bytes>
    decreases |bytes|
  {
    if bytes == [] then []
    else
      var n := CutLength(closed, bytes, 1);
      [bytes[..n]] + Cuts(closed, bytes[n..])
  }

  lemma {:induction false} CutsAreChunking(closed: CutRule, bytes: Bytes)
    requires !closed([])
    ensures IsChunking(closed, Cuts(closed, bytes)) && Flatten(Cuts(closed, bytes)) == bytes
    decreases |bytes|
  {
    if bytes != [] {
      var n := CutLength(closed, bytes, 1);
      var rest := Cuts(closed, bytes[n..]);
      CutsAreChunking(closed, bytes[n..]);
      var head := bytes[..n];
      forall k | 0 <= k < n ensures !closed(head[..k]) {
        assert head[..k] == bytes[..k];
        assert k == 0 ==> head[..k] == [];
      }
      assert ([head] + rest)[1..] == rest;
      assert bytes == head + bytes[n..];
      OneMoreChunk(closed, head, rest);
    }
  }

  lemma OneMoreChunk(closed: CutRule, head: Bytes, rest: seq<Bytes>)
    requires IsChunking(closed, rest)
    requires head != [] && NotClosedBefore(closed, head, |head|) && (rest != [] ==> closed(head))
    ensures IsChunking(closed, [head] + rest)
  {
    var c := [head] + rest;
    forall i | 0 <= i < |c| ensures c[i] != [] && NotClosedBefore(closed, c[i], |c[i]|) && (i < |c| - 1 ==> closed(c[i])) {
      if i > 0 {
        assert c[i] == rest[i - 1];
      }
    }
  }

  // ---------- the chunker ----------

  /** The rule of the source: long enough, and the fingerprint hits the mask or the chunk is full. */
  function GearRule(l: ChunkLimits): CutRule
    requires ValidChunkLimits(l)
  {
    (chunk: Bytes) => EndsChunk(l, Fingerprint(chunk), |chunk|)
  }

  /** What the chunker returns: a single empty chunk for an empty input. */
  ghost predicate ChunkerOutput(l: ChunkLimits, bytes: Bytes, chunks: seq<Bytes>)
    requires ValidChunkLimits(l)
  {
    Flatten(chunks) == bytes && if bytes == [] then chunks == [[]] else IsChunking(GearRule(l), chunks)
  }

  /** All chunks so far are closed and cover the bytes before `start`. */
  ghost predicate ClosedUpTo(closed: CutRule, bytes: Bytes, chunks: seq<Bytes>, start: nat)
    requires start <= |bytes|
  {
    && Flatten(chunks) == bytes[..start]
    && IsChunking(closed, chunks)
    && forall i :: 0 <= i < |chunks| ==> closed(chunks[i])
  }

  lemma AddChunk(closed: CutRule, bytes: Bytes, chunks: seq<Bytes>, start: nat, end: nat)
    requires start < end <= |bytes|
    requires ClosedUpTo(closed, bytes, chunks, start) && NotClosedBefore(closed, bytes[start..end], end - start)
    ensures closed(bytes[start..end]) ==> ClosedUpTo(closed, bytes, chunks + [bytes[start..end]], end)
    ensures IsChunking(closed, chunks + [bytes[start..end]]) && Flatten(chunks + [bytes[start..end]]) == bytes[..end]
  {
    FlattenSnoc(chunks, bytes[start..end]);
    assert bytes[..start] + bytes[start..end] == bytes[..end];
  }

  /** The open chunk: the bytes since `start`, none of whose prefixes is closed, and their fingerprint. */
  ghost predicate OpenChunk(closed: CutRule, bytes: Bytes, start: nat, index: nat, fingerprint: Word) {
    && start <= index <= |bytes|
    && fingerprint == Fingerprint(bytes[start..index])
    && NotClosedBefore(closed, bytes[start..index], index - start)
    && !closed(bytes[start..index])
  }

  lemma FingerprintStep(bytes: Bytes, start: nat, index: nat)
    requires start <= index < |bytes|
    ensures Fingerprint(bytes[start..index + 1]) == Roll(Fingerprint(bytes[start..index]), bytes[index])
  {
    SamePrefixSameFingerprint(bytes[start..index + 1], bytes[start..index], index - start);
  }

  lemma OpenChunkGrows(closed: CutRule, bytes: Bytes, start: nat, index: nat, fingerprint: Word)
    requires index < |bytes| && OpenChunk(closed, bytes, start, index, fingerprint)
    ensures NotClosedBefore(closed, bytes[start..index + 1], index + 1 - start)
    ensures Fingerprint(bytes[start..index + 1]) == Roll(fingerprint, bytes[index])
    ensures !closed(bytes[start..index + 1]) ==> OpenChunk(closed, bytes, start, index + 1, Roll(fingerprint, bytes[index]))
  {
    FingerprintStep(bytes, start, index);
    var longer, shorter := bytes[start..index + 1], bytes[start..index];
    forall k | 0 <= k < |longer| ensures !closed(longer[..k]) {
      if k < |shorter| {
        assert longer[..k] == shorter[..k];
      } else {
        assert longer[..k] == shorter;
      }
    }
  }

  /** The loop's state before the byte at `index`. */
  ghost predicate Scanning(closed: CutRule, bytes: Bytes, chunks: seq<Bytes>, start: nat, index: nat, fingerprint: Word)
  {
    && start <= index <= |bytes|
    && ClosedUpTo(closed, bytes, chunks, start)
    && OpenChunk(closed, bytes, start, index, fingerprint)
  }

  lemma OpenChunkStarts(closed: CutRule, bytes: Bytes, start: nat)
    requires !closed([]) && start <= |bytes|
    ensures OpenChunk(closed, bytes, start, start, 0)
  {
    assert bytes[start..start] == [];
  }

  lemma ScanUnder(closed: CutRule, bytes: Bytes, chunks: seq<Bytes>, start: nat, index: nat, fingerprint: Word)
    requires !closed([]) && index < |bytes| && Scanning(closed, bytes, chunks, start, index, fingerprint)
    ensures if closed(bytes[start..index + 1])
            then Scanning(closed, bytes, chunks + [bytes[start..index + 1]], index + 1, index + 1, 0)
            else Scanning(closed, bytes, chunks, start, index + 1, Roll(fingerprint, bytes[index]))
    ensures Fingerprint(bytes[start..index + 1]) == Roll(fingerprint, bytes[index])
  {
    OpenChunkGrows(closed, bytes, start, index, fingerprint);
    AddChunk(closed, bytes, chunks, start, index + 1);
    OpenChunkStarts(closed, bytes, index + 1);
  }

  lemma RuleOnFingerprint(l: ChunkLimits, chunk: Bytes, fingerprint: Word)
    requires ValidChunkLimits(l) && fingerprint == Fingerprint(chunk)
    ensures GearRule(l)(chunk) <==> EndsChunk(l, fingerprint, |chunk|)
    ensures !GearRule(l)([])
  {
  }

  lemma ScanStep(l: ChunkLimits, bytes: Bytes, chunks: seq<Bytes>, start: nat, index: nat, fingerprint: Word)
    requires ValidChunkLimits(l) && index < |bytes| && Scanning(GearRule(l), bytes, chunks, start, index, fingerprint)
    ensures var next := Roll(fingerprint, bytes[index]);
            if EndsChunk(l, next, index + 1 - start)
            then Scanning(GearRule(l), bytes, chunks + [bytes[start..index + 1]], index + 1, index + 1, 0)
            else Scanning(GearRule(l), bytes, chunks, start, index + 1, next)
  {
    RuleOnFingerprint(l, [], 0);
    ScanUnder(GearRule(l), bytes, chunks, start, index, fingerprint);
    RuleOnFingerprint(l, bytes[start..index + 1], Roll(fingerprint, bytes[index]));
  }

  lemma StartScan(l: ChunkLimits, bytes: Bytes)
    requires ValidChunkLimits(l)
    ensures Scanning(GearRule(l), bytes, [], 0, 0, 0)
  {
    RuleOnFingerprint(l, [], 0);
    OpenChunkStarts(GearRule(l), bytes, 0);
  }

  lemma FinishChunks(l: ChunkLimits, bytes: Bytes, chunks: seq<Bytes>, start: nat, fingerprint: Word)
    requires ValidChunkLimits(l) && bytes != [] && Scanning(GearRule(l), bytes, chunks, start, |bytes|, fingerprint)
    ensures ChunkerOutput(l, bytes, if start < |bytes| then chunks + [bytes[start..|bytes|]] else chunks)
  {
    assert bytes[..|bytes|] == bytes;
    if start < |bytes| {
      AddChunk(GearRule(l), bytes, chunks, start, |bytes|);
    }
  }

  method ContentDefinedChunks(bytes: Bytes, l: ChunkLimits) returns (chunks: seq<Bytes>)
    requires ValidChunkLimits(l)
    ensures ChunkerOutput(l, bytes, chunks)
  {
    if bytes == [] {
      chunks := [[]];
      FlattenOne(bytes);
      return;
    }
    chunks := [];
    var start: nat := 0;
    var fingerprint: Word := 0;
    StartScan(l, bytes);
    for index := 0 to |bytes|
      invariant Scanning(GearRule(l), bytes, chunks, start, index, fingerprint)
    {
      ScanStep(l, bytes, chunks, start, index, fingerprint);
      fingerprint := Roll(fingerprint, bytes[index]);
      if EndsChunk(l, fingerprint, index + 1 - start) {
        chunks := chunks + [bytes[start..index + 1]];
        start := index + 1;
        fingerprint := 0;
      }
    }
    FinishChunks(l, bytes, chunks, start, fingerprint);
    if start < |bytes| {
      chunks := chunks + [bytes[start..|bytes|]];
    }
  }

  lemma FullChunkEnds(l: ChunkLimits, chunk: Bytes)
    requires ValidChunkLimits(l)
    ensures |chunk| > l.maxBytes ==> GearRule(l)(chunk[..l.maxBytes])
  {
  }

  /** Every chunk is at most the maximum; every chunk but the last is at least the minimum. */
  lemma ChunkSizes(l: ChunkLimits, bytes: Bytes, chunks: seq<Bytes>)
    requires ValidChunkLimits(l) && ChunkerOutput(l, bytes, chunks)
    ensures forall i :: 0 <= i < |chunks| ==> |chunks[i]| <= l.maxBytes
    ensures forall i :: 0 <= i < |chunks| - 1 ==> |chunks[i]| >= l.minBytes
    ensures chunks != []
  {
    if bytes != [] {
      forall i | 0 <= i < |chunks| ensures |chunks[i]| <= l.maxBytes {
        FullChunkEnds(l, chunks[i]);
      }
    }
  }

  function ChunksOf(l: ChunkLimits, bytes: Bytes): seq<Bytes>
    requires ValidChunkLimits(l)
  {
    if bytes == [] then [[]] else Cuts(GearRule(l), bytes)
  }

  /** The method's output is this function of its input. */
  lemma OutputIsChunksOf(l: ChunkLimits, bytes: Bytes, chunks: seq<Bytes>)
    requires ValidChunkLimits(l)
    ensures ChunkerOutput(l, bytes, chunks) <==> chunks == ChunksOf(l, bytes)
  {
    if bytes == [] {
      FlattenOne(bytes);
    } else {
      CutsAreChunking(GearRule(l), bytes);
      if ChunkerOutput(l, bytes, chunks) {
        ChunkingUnique(GearRule(l), chunks, Cuts(GearRule(l), bytes));
      }
    }
  }
}
