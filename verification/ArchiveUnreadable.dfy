/**
 * Archives that create reports as made and no later operation can read: their names fail the
 * validator, or their manifest is larger than readers accept.
 */
module ArchiveUnreadable {
  import opened Common
  import opened Chunker
  import opened SealedObject
  import opened ContentArchive
  import opened ArchiveManifests
  import opened ArchiveManifestSize
  import opened ArchiveSafety

  // ---------- what an unreadable archive does to its vault ----------

  /** It can be neither restored nor deleted, and no garbage is collected. */
  predicate Blocks(c: Crypto, w: string, v: Vault, id: ArchiveId) {
    && Restore(c, v, w, id) == Err(ManifestInvalid)
    && Delete(v, w, id, id, true) == (v, Err(ManifestInvalid))
    && Collect(v, w, true) == (v, Err(ManifestInvalid))
  }

  predicate BlocksThroughout(c: Crypto, w: string, v: Vault, ops: seq<Op>, id: ArchiveId) {
    Blocks(c, w, Run(c, w, v, ops), id) && (ops == [] || BlocksThroughout(c, w, v, ops[..|ops| - 1], id))
  }

  ghost predicate Stuck(c: Crypto, w: string, v: Vault, id: ArchiveId) {
    Inv(c, v) && id in v.manifests && !Readable(id.core, id, w)
  }

  lemma StuckBlocks(c: Crypto, w: string, v: Vault, id: ArchiveId)
    requires Stuck(c, w, v, id)
    ensures Blocks(c, w, v, id)
  {
    assert v.manifests[id] == id.core;
  }

  lemma StuckStep(c: Crypto, w: string, v: Vault, op: Op, id: ArchiveId)
    requires Lawful(c) && Stuck(c, w, v, id)
    ensures var v' := Apply(c, w, v, op);
            if Removes(c, w, v, op, id) then !Blocks(c, w, v', id) else Stuck(c, w, v', id)
  {
    StepKeepsInv(c, w, v, op);
    LostExactlyWhen(c, w, v, op, id);
  }

  /**
   * An unreadable archive blocks its vault at every moment of a run if and only if the run holds no
   * rejected create of the very same manifest; no deletion can help.
   */
  lemma {:induction false} InvalidBlocks(c: Crypto, w: string, v: Vault, ops: seq<Op>, id: ArchiveId)
    requires Lawful(c) && Inv(c, v) && id in v.manifests && !Readable(id.core, id, w)
    ensures BlocksThroughout(c, w, v, ops, id) <==> Spares(c, w, v, ops, id)
    ensures Spares(c, w, v, ops, id) ==> Stuck(c, w, Run(c, w, v, ops), id)
  {
    if ops == [] {
      StuckBlocks(c, w, v, id);
    } else {
      var before, last := ops[..|ops| - 1], ops[|ops| - 1];
      InvalidBlocks(c, w, v, before, id);
      if Spares(c, w, v, before, id) {
        StuckStep(c, w, Run(c, w, v, before), last, id);
        assert Run(c, w, v, ops) == Apply(c, w, Run(c, w, v, before), last);
        if !Removes(c, w, Run(c, w, v, before), last, id) {
          StuckBlocks(c, w, Run(c, w, v, ops), id);
        }
      }
    }
  }

  lemma CreateOfCompleting(c: Crypto, w: string, v: Vault, r: Request, freshKey: Key)
    requires Completes(r)
    ensures Create(c, w, v, r, freshKey, true).1 == Ok(ArchiveId(CreatedCore(c, w, v.objects, KeyFor(v, freshKey), r)))
  {
    CompletesIsUnchanged(r);
  }

  /** Create reports success, yet leaves a blocked vault, exactly when names or size are bad. */
  lemma BadCreateBlocks(c: Crypto, w: string, v: Vault, r: Request, freshKey: Key)
    requires Lawful(c) && Inv(c, v) && CollectedWell(r) && Completes(r)
    ensures var (created, result) := Create(c, w, v, r, freshKey, true);
            result.Ok? && (Blocks(c, w, created, result.value) <==>
                           !(GoodNames(r) && ManifestBytes(result.value.core) <= MAX_MANIFEST_BYTES))
  {
    var (created, result) := Create(c, w, v, r, freshKey, true);
    CreateOfCompleting(c, w, v, r, freshKey);
    var id := result.value;
    CreateSucceeds(c, w, v, r, freshKey, created, id);
    if Readable(id.core, id, w) {
      RestoreIsExact(c, w, created, id);
    } else {
      StuckBlocks(c, w, created, id);
    }
  }

  // ---------- a file name with a backslash ----------

  lemma DoublePower(n: nat)
    requires n >= 1 && PowerOfTwo(n)
    ensures PowerOfTwo(2 * n)
  {
    assert 2 * n / 2 == n;
  }

  lemma Power8192()
    ensures PowerOfTwo(8_192)
  {
    DoublePower(1);
    DoublePower(2);
    DoublePower(4);
    DoublePower(8);
    DoublePower(16);
    DoublePower(32);
    DoublePower(64);
    DoublePower(128);
    DoublePower(256);
    DoublePower(512);
    DoublePower(1_024);
    DoublePower(2_048);
    DoublePower(4_096);
  }

  const GIB := 1_073_741_824

  /** The largest inputs and the smallest chunks the options allow. */
  const WIDEST := Limits(100_000, GIB, 8 * GIB, ChunkLimits(4_096, 8_192, 16_384))

  lemma WidestIsValid()
    ensures ValidLimits(WIDEST)
  {
    Power8192();
  }

  lemma OneLetterPath(letter: char)
    requires letter != '/' && letter != '.' && letter != '\0'
    ensures PortablePath([letter])
  {
    var path := [letter];
    assert path[1..] == "" && [letter] + "" == path && [""][1..] == [];
    assert Segments(path) == [path] + [];
  }

  /** Files of zero bytes with one-letter names. */
  function Zeros(letters: string, size: nat): seq<CollectedFile> {
    seq(|letters|, i requires 0 <= i < |letters| => CollectedFile([letters[i]], size, seq(size, _ => 0)))
  }

  function ZerosRequest(letters: string, size: nat): Request {
    Request("", None, "project", ".", WIDEST, Zeros(letters, size), [])
  }

  predicate PlainLetters(letters: string) {
    && 0 < |letters| <= 8
    && (forall i :: 0 <= i < |letters| ==> letters[i] != '/' && letters[i] != '.' && letters[i] != '\0')
    && (forall i, j :: 0 <= i < j < |letters| ==> letters[i] != letters[j])
  }

  lemma {:induction false} SumOfEqual(files: seq<CollectedFile>, size: nat)
    requires forall i :: 0 <= i < |files| ==> files[i].statSize == size
    ensures SumStat(files) == |files| * size
  {
    if files != [] {
      SumOfEqual(files[..|files| - 1], size);
    }
  }

  lemma ZerosComplete(letters: string, size: nat)
    requires PlainLetters(letters) && size <= GIB
    ensures Completes(ZerosRequest(letters, size)) && SumStat(Zeros(letters, size)) == |letters| * size
  {
    WidestIsValid();
    SumOfEqual(Zeros(letters, size), size);
    AtMostEight(|letters|, size);
  }

  lemma AtMostEight(n: nat, size: nat)
    requires n <= 8 && size <= GIB
    ensures n * size <= 8 * GIB
  {
  }

  lemma ZerosCollectedWell(letters: string, size: nat)
    requires PlainLetters(letters)
    ensures CollectedWell(ZerosRequest(letters, size))
  {
    var files := Zeros(letters, size);
    forall i | 0 <= i < |files| ensures PortablePath(files[i].path) {
      OneLetterPath(letters[i]);
    }
    forall i, j | 0 <= i < j < |files| ensures files[i].path != files[j].path {
      assert files[i].path[0] == letters[i] && files[j].path[0] == letters[j];
    }
  }

  lemma ZerosGoodNames(letters: string, size: nat)
    ensures GoodNames(ZerosRequest(letters, size)) <==> '\\' !in letters
  {
    var files := Zeros(letters, size);
    if '\\' in letters {
      var i :| 0 <= i < |letters| && letters[i] == '\\';
      assert '\\' in files[i].path;
    }
  }

  /** An empty file named by one backslash: create reports success and the vault is blocked. */
  lemma BackslashBlocks(c: Crypto, w: string, v: Vault, freshKey: Key)
    requires Lawful(c) && Inv(c, v)
    ensures var (created, result) := Create(c, w, v, ZerosRequest("\\", 0), freshKey, true);
            result.Ok? && Blocks(c, w, created, result.value)
  {
    ZerosComplete("\\", 0);
    ZerosCollectedWell("\\", 0);
    ZerosGoodNames("\\", 0);
    BadCreateBlocks(c, w, v, ZerosRequest("\\", 0), freshKey);
  }

  // ---------- five files of one gibibyte ----------

  /** Whatever is archived, so many bytes in so small chunks give a manifest nobody can read. */
  lemma LargeSelectionBlocks(c: Crypto, w: string, v: Vault, r: Request, freshKey: Key)
    requires Lawful(c) && Inv(c, v) && CollectedWell(r) && Completes(r)
    requires DESCRIPTOR_LEAST * SumStat(r.files) > MAX_MANIFEST_BYTES * r.limits.chunk.maxBytes
    ensures var (created, result) := Create(c, w, v, r, freshKey, true);
            result.Ok? && ManifestBytes(result.value.core) > MAX_MANIFEST_BYTES && Blocks(c, w, created, result.value)
  {
    CreateOfCompleting(c, w, v, r, freshKey);
    ManifestSizeBounds(c, w, v.objects, KeyFor(v, freshKey), r);
    TooLarge(ManifestBytes(CreatedCore(c, w, v.objects, KeyFor(v, freshKey), r)), SumStat(r.files), r.limits.chunk.maxBytes);
    BadCreateBlocks(c, w, v, r, freshKey);
  }

  lemma TooLarge(size: nat, total: nat, most: nat)
    requires MAX_MANIFEST_BYTES * most < DESCRIPTOR_LEAST * total <= size * most
    ensures size > MAX_MANIFEST_BYTES
  {
    if size <= MAX_MANIFEST_BYTES {
      Scaled(size, MAX_MANIFEST_BYTES, most);
      assert false;
    }
  }

  lemma FiveAreLarge(letters: string)
    requires |letters| >= 5
    ensures DESCRIPTOR_LEAST * (|letters| * GIB) > MAX_MANIFEST_BYTES * 16_384
  {
  }

  /**
   * Input within every limit, with good names, whose manifest is too large to be read: from five
   * files of one gibibyte on, create reports success and the vault is blocked.
   */
  lemma HugeBlocks(c: Crypto, w: string, v: Vault, letters: string, freshKey: Key)
    requires Lawful(c) && Inv(c, v)
    requires PlainLetters(letters) && '\\' !in letters && |letters| >= 5
    ensures var (created, result) := Create(c, w, v, ZerosRequest(letters, GIB), freshKey, true);
            && GoodNames(ZerosRequest(letters, GIB)) && result.Ok?
            && ManifestBytes(result.value.core) > MAX_MANIFEST_BYTES && Blocks(c, w, created, result.value)
  {
    ZerosComplete(letters, GIB);
    ZerosCollectedWell(letters, GIB);
    ZerosGoodNames(letters, GIB);
    FiveAreLarge(letters);
    LargeSelectionBlocks(c, w, v, ZerosRequest(letters, GIB), freshKey);
  }

  lemma FiveLetters()
    ensures PlainLetters("abcde") && '\\' !in "abcde"
  {
  }
}
