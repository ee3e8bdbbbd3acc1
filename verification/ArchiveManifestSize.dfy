/**
 * Which manifests written by create can be read again: readers refuse a file above 64 MiB, and
 * create writes it whatever its size. The size is computed from the canonical JSON the source prints.
 */
module ArchiveManifestSize {
  import opened Common
  import opened Chunker
  import opened Decimal
  import opened SealedObject
  import opened ContentArchive
  import opened ArchiveManifests

  /** Create writes something the readers accept exactly when names are good and the file is small enough. */
  lemma CreatedManifestReadableIff(c: Crypto, w: string, objects: map<(KeyId, ObjectId), Bytes>, key: Key, r: Request)
    requires Lawful(c) && ValidLimits(r.limits) && WithinLimits(r) && r.files != []
    requires forall i :: 0 <= i < |r.files| ==> |r.files[i].bytes| == r.files[i].statSize
    requires CollectedWell(r)
    ensures var core := CreatedCore(c, w, objects, key, r);
            Readable(core, ArchiveId(core), w) <==> GoodNames(r) && ManifestBytes(core) <= MAX_MANIFEST_BYTES
  {
    CreatedManifestValidIff(c, w, objects, key, r);
  }

  // ---------- how many chunks a file has ----------

  lemma {:induction false} FlattenAtMost(chunks: seq<Bytes>, most: nat)
    requires forall i :: 0 <= i < |chunks| ==> |chunks[i]| <= most
    ensures |Flatten(chunks)| <= |chunks| * most
  {
    if chunks != [] {
      FlattenAtMost(chunks[1..], most);
    }
  }

  lemma {:induction false} FlattenAtLeast(chunks: seq<Bytes>, least: nat)
    requires forall i :: 0 <= i < |chunks| - 1 ==> |chunks[i]| >= least
    ensures chunks != [] ==> |Flatten(chunks)| >= (|chunks| - 1) * least
  {
    if |chunks| > 1 {
      var rest := chunks[1..];
      forall i | 0 <= i < |rest| - 1 ensures |rest[i]| >= least { assert rest[i] == chunks[i + 1]; }
      FlattenAtLeast(rest, least);
      assert (|chunks| - 1) * least == (|rest| - 1) * least + least;
    }
  }

  /** Some files of so many bytes can be cut into `n` chunks: none too long, one per file too short. */
  ghost predicate Cuttable(n: int, files: nat, bytes: nat, l: ChunkLimits) {
    n >= files && (n - files) * l.minBytes <= bytes <= n * l.maxBytes
  }

  lemma ChunkCountBounds(c: Crypto, key: Key, l: ChunkLimits, path: string, bytes: Bytes)
    requires ValidChunkLimits(l)
    ensures Cuttable(|EntryOf(c, key, l, path, bytes).chunks|, 1, |bytes|, l)
  {
    var chunks := ChunksOf(l, bytes);
    OutputIsChunksOf(l, bytes, chunks);
    ChunkSizes(l, bytes, chunks);
    FlattenAtMost(chunks, l.maxBytes);
    FlattenAtLeast(chunks, l.minBytes);
  }

  lemma OneMoreCuttable(n: int, files: nat, bytes: nat, k: int, more: nat, l: ChunkLimits)
    requires Cuttable(n, files, bytes, l) && Cuttable(k, 1, more, l)
    ensures Cuttable(n + k, files + 1, bytes + more, l)
  {
    assert (n + k) * l.maxBytes == n * l.maxBytes + k * l.maxBytes;
    assert (n + k - (files + 1)) * l.minBytes == (n - files) * l.minBytes + (k - 1) * l.minBytes;
  }

  ghost predicate EachCuttable(entries: seq<FileEntry>, files: seq<CollectedFile>, l: ChunkLimits) {
    |entries| == |files| && forall i :: 0 <= i < |files| ==> Cuttable(|entries[i].chunks|, 1, |files[i].bytes|, l)
  }

  lemma {:induction false} TogetherCuttable(entries: seq<FileEntry>, files: seq<CollectedFile>, l: ChunkLimits)
    requires EachCuttable(entries, files, l)
    ensures Cuttable(CountChunks(entries), |files|, SumBytes(files), l)
  {
    if files != [] {
      var n := |files| - 1;
      TogetherCuttable(entries[..n], files[..n], l);
      OneMoreCuttable(CountChunks(entries[..n]), n, SumBytes(files[..n]), |entries[n].chunks|, |files[n].bytes|, l);
    }
  }

  lemma AllChunksBounds(c: Crypto, key: Key, l: ChunkLimits, files: seq<CollectedFile>)
    requires ValidChunkLimits(l)
    ensures Cuttable(CountChunks(EntriesOf(c, key, l, files)), |files|, SumBytes(files), l)
  {
    var entries := EntriesOf(c, key, l, files);
    forall i | 0 <= i < |files| ensures Cuttable(|entries[i].chunks|, 1, |files[i].bytes|, l) {
      EntryAt(c, key, l, files, i);
      ChunkCountBounds(c, key, l, files[i].path, files[i].bytes);
    }
    TogetherCuttable(entries, files, l);
  }

  // ---------- the size between two bounds ----------

  /** A descriptor takes at least this much. */
  const DESCRIPTOR_LEAST := 231

  /** And, with its separator and sixteen digits a number, at most this much. */
  const DESCRIPTOR_MOST := 279

  const NUMBER_MOST := 16

  lemma SafeNumber(n: int)
    requires 0 <= n <= MAX_SAFE
    ensures NumberBytes(n) <= NUMBER_MOST
  {
    assert Pow10(16) == 10_000_000_000_000_000 by {
      assert Pow10(4) == 10_000;
      assert Pow10(8) == 10_000 * Pow10(4);
      assert Pow10(12) == 10_000 * Pow10(8);
      assert Pow10(16) == 10_000 * Pow10(12);
    }
    DigitsAtMost(n, 16);
  }

  lemma {:induction false} DescriptorsAtLeast(chunks: seq<Descriptor>)
    ensures DescriptorsBytes(chunks) >= DESCRIPTOR_LEAST * |chunks|
  {
    if chunks != [] {
      DescriptorsAtLeast(chunks[..|chunks| - 1]);
    }
  }

  lemma {:induction false} FilesAtLeast(files: seq<FileEntry>)
    ensures FilesBytes(files) >= DESCRIPTOR_LEAST * CountChunks(files)
  {
    if files != [] {
      FilesAtLeast(files[..|files| - 1]);
      DescriptorsAtLeast(files[|files| - 1].chunks);
    }
  }

  ghost predicate SafeDescriptor(d: Descriptor) {
    0 <= d.offset <= MAX_SAFE && 0 <= d.length <= MAX_SAFE && 0 <= d.storedBytes <= MAX_SAFE
  }

  lemma {:induction false} DescriptorsAtMost(chunks: seq<Descriptor>)
    requires forall d :: d in chunks ==> SafeDescriptor(d)
    ensures DescriptorsBytes(chunks) + Commas(|chunks|) <= DESCRIPTOR_MOST * |chunks|
  {
    if chunks != [] {
      var last := chunks[|chunks| - 1];
      assert last in chunks;
      DescriptorsAtMost(chunks[..|chunks| - 1]);
      SafeNumber(last.offset);
      SafeNumber(last.length);
      SafeNumber(last.storedBytes);
    }
  }

  lemma ValidFileIsSafe(f: FileEntry, l: Limits)
    requires ValidFile(f, l)
    ensures forall d :: d in f.chunks ==> SafeDescriptor(d)
  {
    forall d | d in f.chunks ensures SafeDescriptor(d) {
      var i :| 0 <= i < |f.chunks| && f.chunks[i] == d;
      assert ValidDescriptor(f.chunks[i], TotalLength(f.chunks[..i]), l);
    }
  }

  /** The paths of the files, with what surrounds each of them. */
  function PathsBytes(files: seq<CollectedFile>): nat {
    if files == [] then 0
    else PathsBytes(files[..|files| - 1]) + FILE_FRAME + NUMBER_MOST + 1 + TextBytes(files[|files| - 1].path)
  }

  lemma {:induction false} FilesAtMost(c: Crypto, key: Key, l: Limits, files: seq<CollectedFile>)
    requires Lawful(c) && ValidLimits(l) && forall i :: 0 <= i < |files| ==> |files[i].bytes| <= l.maxFileBytes
    ensures var entries := EntriesOf(c, key, l.chunk, files);
            FilesBytes(entries) + Commas(|entries|) <= PathsBytes(files) + DESCRIPTOR_MOST * CountChunks(entries)
  {
    if files == [] {
      assert EntriesOf(c, key, l.chunk, files) == [];
    } else {
      var before, last := files[..|files| - 1], files[|files| - 1];
      FilesAtMost(c, key, l, before);
      EntriesSnoc(c, key, l.chunk, files);
      EntryIsValid(c, key, l, last.path, last.bytes);
      FileAtMost(EntryOf(c, key, l.chunk, last.path, last.bytes), l);
      FilesSnoc(EntriesOf(c, key, l.chunk, before), EntryOf(c, key, l.chunk, last.path, last.bytes));
    }
  }

  lemma FilesSnoc(before: seq<FileEntry>, last: FileEntry)
    ensures FilesBytes(before + [last]) == FilesBytes(before) + FileBytes(last)
    ensures CountChunks(before + [last]) == CountChunks(before) + |last.chunks|
  {
    assert (before + [last])[..|before|] == before;
  }

  lemma FileAtMost(f: FileEntry, l: Limits)
    requires ValidFile(f, l)
    ensures FileBytes(f) <= FILE_FRAME + TextBytes(f.path) + NUMBER_MOST + DESCRIPTOR_MOST * |f.chunks|
  {
    SafeNumber(f.size);
    ValidFileIsSafe(f, l);
    DescriptorsAtMost(f.chunks);
  }

  /** What a caller knows of the manifest's size before any file is read. */
  function KnownBytes(w: string, r: Request): nat {
    MANIFEST_FRAME + TextBytes(w) + TextBytes(r.createdAt) + TextBytes(TitleOf(r)) + TextBytes(r.sourcePath)
    + 15 * NUMBER_MOST + PathsBytes(r.files) + SkipsBytes(r.skipped) + Commas(|r.skipped|)
  }

  lemma SafeChunkLimits(l: ChunkLimits)
    requires ValidChunkLimits(l)
    ensures ChunkLimitsBytes(l) <= 3 * NUMBER_MOST
  {
    SafeNumber(l.minBytes);
    SafeNumber(l.averageBytes);
    SafeNumber(l.maxBytes);
  }

  lemma SafeLimits(l: Limits)
    requires ValidLimits(l)
    ensures LimitsBytes(l) <= 6 * NUMBER_MOST
  {
    SafeNumber(l.maxFiles);
    SafeNumber(l.maxFileBytes);
    SafeNumber(l.maxTotalBytes);
    SafeChunkLimits(l.chunk);
  }

  ghost predicate SafeTotals(t: Totals) {
    && 0 <= t.fileCount <= MAX_SAFE && 0 <= t.sourceBytes <= MAX_SAFE && 0 <= t.chunkCount <= MAX_SAFE
    && 0 <= t.uniqueObjectCount <= MAX_SAFE && 0 <= t.uniqueObjectBytes <= MAX_SAFE && 0 <= t.reusedObjectCount <= MAX_SAFE
  }

  lemma SafeTotalsBytes(t: Totals)
    requires SafeTotals(t)
    ensures TotalsBytes(t) <= 6 * NUMBER_MOST
  {
    SafeNumber(t.fileCount);
    SafeNumber(t.sourceBytes);
    SafeNumber(t.chunkCount);
    SafeNumber(t.uniqueObjectCount);
    SafeNumber(t.uniqueObjectBytes);
    SafeNumber(t.reusedObjectCount);
  }

  lemma CreatedTotalsAreSafe(c: Crypto, w: string, objects: map<(KeyId, ObjectId), Bytes>, key: Key, r: Request)
    requires Lawful(c) && ValidLimits(r.limits) && WithinLimits(r) && r.files != []
    requires forall i :: 0 <= i < |r.files| ==> |r.files[i].bytes| == r.files[i].statSize
    ensures SafeTotals(CreatedCore(c, w, objects, key, r).totals)
  {
    var l := r.limits.chunk;
    StoreFilesOk(c, key, l, objects, r.files);
    ReadSizes(r.files);
    EntriesHaveFewChunks(c, key, l, r.files);
    CreatedNumbersAreValid(c, w, objects, key, r);
    TallyIsSafe(key, StoreFiles(c, key, l, StartTally(objects), r.files), EntriesOf(c, key, l, r.files), SumBytes(r.files));
  }

  lemma TallyIsSafe(key: Key, t: Tally, entries: seq<FileEntry>, bytes: nat)
    requires FilesStored(key, t, entries, bytes)
    ensures t.chunkCount == CountChunks(entries) && |t.seen| == |ObjectIdsOf(entries)|
    ensures |t.seen| <= t.chunkCount && t.reusedObjectCount <= t.chunkCount
  {
  }

  /**
   * The manifest's size lies between two bounds a caller can compute from the sizes and names of the
   * files alone: the smallest and the largest number of chunks they can be cut into.
   */
  lemma ManifestSizeBounds(c: Crypto, w: string, objects: map<(KeyId, ObjectId), Bytes>, key: Key, r: Request)
    requires Lawful(c) && ValidLimits(r.limits) && WithinLimits(r) && r.files != []
    requires forall i :: 0 <= i < |r.files| ==> |r.files[i].bytes| == r.files[i].statSize
    ensures var size, l := ManifestBytes(CreatedCore(c, w, objects, key, r)), r.limits.chunk;
            && DESCRIPTOR_LEAST * SumStat(r.files) <= size * l.maxBytes
            && size <= KnownBytes(w, r) + DESCRIPTOR_MOST * (SumStat(r.files) / l.minBytes + |r.files|)
  {
    var core, l := CreatedCore(c, w, objects, key, r), r.limits.chunk;
    ReadSizes(r.files);
    AllChunksBounds(c, key, l, r.files);
    FilesAtLeast(core.files);
    SizeAroundChunks(c, w, objects, key, r);
    FromChunks(ManifestBytes(core), CountChunks(core.files), |r.files|, SumStat(r.files), KnownBytes(w, r), l);
  }

  lemma SizeAroundChunks(c: Crypto, w: string, objects: map<(KeyId, ObjectId), Bytes>, key: Key, r: Request)
    requires Lawful(c) && ValidLimits(r.limits) && WithinLimits(r) && r.files != []
    requires forall i :: 0 <= i < |r.files| ==> |r.files[i].bytes| == r.files[i].statSize
    ensures var core := CreatedCore(c, w, objects, key, r);
            FilesBytes(core.files) <= ManifestBytes(core) <= KnownBytes(w, r) + DESCRIPTOR_MOST * CountChunks(core.files)
  {
    FilesAtMost(c, key, r.limits, r.files);
    SafeLimits(r.limits);
    SafeChunkLimits(r.limits.chunk);
    CreatedTotalsAreSafe(c, w, objects, key, r);
    SafeTotalsBytes(CreatedCore(c, w, objects, key, r).totals);
  }

  lemma FromChunks(size: nat, chunks: int, files: nat, total: nat, known: nat, l: ChunkLimits)
    requires ValidChunkLimits(l) && Cuttable(chunks, files, total, l)
    requires DESCRIPTOR_LEAST * chunks <= size <= known + DESCRIPTOR_MOST * chunks
    ensures DESCRIPTOR_LEAST * total <= size * l.maxBytes
    ensures size <= known + DESCRIPTOR_MOST * (total / l.minBytes + files)
  {
    AtMostQuotient(chunks - files, l.minBytes, total);
    Scaled(DESCRIPTOR_LEAST * chunks, size, l.maxBytes);
  }

  lemma Scaled(a: nat, b: nat, k: nat)
    requires a <= b
    ensures a * k <= b * k
  {
  }

  lemma AtMostQuotient(n: nat, d: nat, total: nat)
    requires d > 0 && n * d <= total
    ensures n <= total / d
  {
    var q := total / d;
    assert total < q * d + d;
    assert (n - q - 1) * d == n * d - q * d - d < 0;
  }
}
