/** Which manifests written by create pass the validator that every later operation applies. */
module ArchiveManifests {
  import opened Common
  import opened Chunker
  import opened SealedObject
  import opened ContentArchive

  // ---------- descriptors ----------

  lemma LastOff<T>(s: seq<T>)
    requires s != []
    ensures s == s[..|s| - 1] + [s[|s| - 1]]
  {
  }

  lemma {:induction false} DescribeAt(c: Crypto, key: Key, chunks: seq<Bytes>, i: nat)
    requires i < |chunks|
    ensures DescribeAll(c, key, chunks)[i] == Describe(c, key, chunks[i], |Flatten(chunks[..i])|)
    ensures DescribeAll(c, key, chunks)[..i] == DescribeAll(c, key, chunks[..i])
  {
    var before := chunks[..|chunks| - 1];
    if i < |chunks| - 1 {
      DescribeAt(c, key, before, i);
      assert before[..i] == chunks[..i];
      assert DescribeAll(c, key, chunks)[..i] == DescribeAll(c, key, before)[..i];
    }
  }

  lemma {:induction false} DescribedLength(c: Crypto, key: Key, chunks: seq<Bytes>)
    ensures TotalLength(DescribeAll(c, key, chunks)) == |Flatten(chunks)|
  {
    if chunks != [] {
      var before := chunks[..|chunks| - 1];
      DescribedLength(c, key, before);
      LastOff(chunks);
      FlattenSnoc(before, chunks[|chunks| - 1]);
      var d := DescribeAll(c, key, chunks);
      assert d[..|d| - 1] == DescribeAll(c, key, before);
    }
  }

  lemma {:induction false} PrefixLength(chunks: seq<Bytes>, i: nat)
    requires i <= |chunks|
    ensures |Flatten(chunks[..i])| <= |Flatten(chunks)|
  {
    assert chunks == chunks[..i] + chunks[i..];
    FlattenAppend(chunks[..i], chunks[i..]);
  }

  /** The offsets, lengths and sizes that create records for a file satisfy the validator. */
  lemma EntryIsValid(c: Crypto, key: Key, l: Limits, path: string, bytes: Bytes)
    requires Lawful(c) && ValidLimits(l) && |bytes| <= l.maxFileBytes
    ensures ValidFile(EntryOf(c, key, l.chunk, path, bytes), l)
  {
    var chunks := ChunksOf(l.chunk, bytes);
    OutputIsChunksOf(l.chunk, bytes, chunks);
    ChunkSizes(l.chunk, bytes, chunks);
    var ds := DescribeAll(c, key, chunks);
    DescribedLength(c, key, chunks);
    forall i | 0 <= i < |ds| ensures ValidDescriptor(ds[i], TotalLength(ds[..i]), l) {
      DescribeAt(c, key, chunks, i);
      DescribedLength(c, key, chunks[..i]);
      PrefixLength(chunks, i);
      PayloadOpens(c, key, chunks[i]);
    }
  }

  // ---------- counters ----------

  function IdsOf(chunks: seq<Bytes>): set<ObjectId> {
    set i | 0 <= i < |chunks| :: ObjectId(Sha256(chunks[i]))
  }

  /** The counters agree with what has been seen; every first sight is either created or reused. */
  ghost predicate TallyOk(key: Key, t: Tally, bytes: nat) {
    && (forall id :: id in t.seen ==> (KeyId(key), id) in t.objects)
    && t.chunkCount - |t.seen| <= t.reusedObjectCount <= t.chunkCount && |t.seen| <= t.chunkCount
    && t.uniqueObjectBytes <= HEADER_BYTES * t.chunkCount + bytes
  }

  lemma StoreChunkOk(c: Crypto, key: Key, t: Tally, chunk: Bytes, bytes: nat)
    requires Lawful(c) && TallyOk(key, t, bytes)
    ensures TallyOk(key, StoreChunk(c, key, t, chunk), bytes + |chunk|)
  {
    PayloadOpens(c, key, chunk);
    var id := ObjectId(Sha256(chunk));
    if id in t.seen {
      assert t.seen + {id} == t.seen;
    }
  }

  lemma {:induction false} StoreAllOk(c: Crypto, key: Key, t: Tally, chunks: seq<Bytes>, bytes: nat)
    requires Lawful(c) && TallyOk(key, t, bytes)
    ensures Grown(key, t, StoreAll(c, key, t, chunks), chunks, bytes + |Flatten(chunks)|)
  {
    if chunks != [] {
      var before, last := chunks[..|chunks| - 1], chunks[|chunks| - 1];
      StoreAllOk(c, key, t, before, bytes);
      LastOff(chunks);
      FlattenSnoc(before, last);
      GrowsByOne(c, key, t, StoreAll(c, key, t, before), before, last, bytes + |Flatten(before)|);
    }
  }

  ghost predicate Grown(key: Key, t: Tally, t': Tally, chunks: seq<Bytes>, bytes: nat) {
    && TallyOk(key, t', bytes)
    && t'.seen == t.seen + IdsOf(chunks)
    && t'.chunkCount == t.chunkCount + |chunks|
  }

  lemma GrowsByOne(c: Crypto, key: Key, t: Tally, t': Tally, before: seq<Bytes>, last: Bytes, bytes: nat)
    requires Lawful(c) && Grown(key, t, t', before, bytes)
    ensures Grown(key, t, StoreChunk(c, key, t', last), before + [last], bytes + |last|)
  {
    StoreChunkOk(c, key, t', last, bytes);
    IdsSnoc(before, last);
  }

  lemma IdsSnoc(before: seq<Bytes>, last: Bytes)
    ensures IdsOf(before + [last]) == IdsOf(before) + {ObjectId(Sha256(last))}
  {
    var whole := before + [last];
    assert whole[|before|] == last;
    forall i | 0 <= i < |before| ensures whole[i] == before[i] { }
  }

  lemma EntryIds(c: Crypto, key: Key, l: ChunkLimits, path: string, bytes: Bytes)
    requires ValidChunkLimits(l)
    ensures ObjectIdsOf([EntryOf(c, key, l, path, bytes)]) == IdsOf(ChunksOf(l, bytes))
  {
    var chunks := ChunksOf(l, bytes);
    var f := EntryOf(c, key, l, path, bytes);
    forall j | 0 <= j < |chunks| ensures f.chunks[j].objectId == ObjectId(Sha256(chunks[j])) {
      DescribeAt(c, key, chunks, j);
    }
    forall id ensures id in ObjectIdsOf([f]) <==> id in IdsOf(chunks) {
      if id in IdsOf(chunks) {
        var j :| 0 <= j < |chunks| && id == ObjectId(Sha256(chunks[j]));
        assert [f][0].chunks[j].objectId == id;
      }
    }
  }

  lemma ObjectIdsSnoc(before: seq<FileEntry>, last: FileEntry)
    ensures ObjectIdsOf(before + [last]) == ObjectIdsOf(before) + ObjectIdsOf([last])
  {
    var whole := before + [last];
    forall id ensures id in ObjectIdsOf(whole) <==> id in ObjectIdsOf(before) + ObjectIdsOf([last]) {
      if id in ObjectIdsOf(whole) {
        var i, j :| 0 <= i < |whole| && 0 <= j < |whole[i].chunks| && whole[i].chunks[j].objectId == id;
        if i < |before| {
          assert before[i].chunks[j].objectId == id;
        } else {
          assert [last][0].chunks[j].objectId == id;
        }
      }
      if id in ObjectIdsOf(before) {
        var i, j :| 0 <= i < |before| && 0 <= j < |before[i].chunks| && before[i].chunks[j].objectId == id;
        assert whole[i].chunks[j].objectId == id;
      }
      if id in ObjectIdsOf([last]) {
        var j :| 0 <= j < |[last][0].chunks| && [last][0].chunks[j].objectId == id;
        assert whole[|before|].chunks[j].objectId == id;
      }
    }
  }

  function SumBytes(files: seq<CollectedFile>): nat {
    if files == [] then 0 else SumBytes(files[..|files| - 1]) + |files[|files| - 1].bytes|
  }

  lemma EntriesSnoc(c: Crypto, key: Key, l: ChunkLimits, files: seq<CollectedFile>)
    requires ValidChunkLimits(l) && files != []
    ensures var last := files[|files| - 1];
            EntriesOf(c, key, l, files) == EntriesOf(c, key, l, files[..|files| - 1]) + [EntryOf(c, key, l, last.path, last.bytes)]
  {
    var whole := EntriesOf(c, key, l, files);
    var before := EntriesOf(c, key, l, files[..|files| - 1]);
    var last := files[|files| - 1];
    forall i | 0 <= i < |before| ensures whole[i] == before[i] {
      EntryAt(c, key, l, files, i);
      EntryAt(c, key, l, files[..|files| - 1], i);
    }
    EntryAt(c, key, l, files, |files| - 1);
    SnocOf(whole, before, EntryOf(c, key, l, last.path, last.bytes));
  }

  lemma EntryAt(c: Crypto, key: Key, l: ChunkLimits, files: seq<CollectedFile>, i: nat)
    requires ValidChunkLimits(l) && i < |files|
    ensures EntriesOf(c, key, l, files)[i] == EntryOf(c, key, l, files[i].path, files[i].bytes)
  {
  }

  lemma SnocOf<T>(whole: seq<T>, before: seq<T>, last: T)
    requires |whole| == |before| + 1 && whole[|before|] == last && forall i :: 0 <= i < |before| ==> whole[i] == before[i]
    ensures whole == before + [last]
  {
  }

  lemma CountsSnoc(before: seq<FileEntry>, last: FileEntry)
    ensures SumSizes(before + [last]) == SumSizes(before) + last.size
    ensures CountChunks(before + [last]) == CountChunks(before) + |last.chunks|
  {
    assert (before + [last])[..|before|] == before;
  }

  ghost predicate FilesStored(key: Key, t: Tally, entries: seq<FileEntry>, bytes: nat) {
    && TallyOk(key, t, bytes)
    && t.seen == ObjectIdsOf(entries)
    && t.chunkCount == CountChunks(entries)
    && SumSizes(entries) == bytes
  }

  lemma OneMoreFile(c: Crypto, key: Key, l: ChunkLimits, t: Tally, entries: seq<FileEntry>, bytes: nat,
                    file: CollectedFile)
    requires Lawful(c) && ValidChunkLimits(l) && FilesStored(key, t, entries, bytes)
    ensures FilesStored(key, StoreAll(c, key, t, ChunksOf(l, file.bytes)),
                        entries + [EntryOf(c, key, l, file.path, file.bytes)], bytes + |file.bytes|)
  {
    var chunks := ChunksOf(l, file.bytes);
    var entry := EntryOf(c, key, l, file.path, file.bytes);
    OutputIsChunksOf(l, file.bytes, chunks);
    StoreAllOk(c, key, t, chunks, bytes);
    EntryIds(c, key, l, file.path, file.bytes);
    ObjectIdsSnoc(entries, entry);
    CountsSnoc(entries, entry);
  }

  lemma {:induction false} StoreFilesOk(c: Crypto, key: Key, l: ChunkLimits, objects: map<(KeyId, ObjectId), Bytes>,
                                        files: seq<CollectedFile>)
    requires Lawful(c) && ValidChunkLimits(l)
    ensures FilesStored(key, StoreFiles(c, key, l, StartTally(objects), files), EntriesOf(c, key, l, files), SumBytes(files))
  {
    if files == [] {
      assert EntriesOf(c, key, l, files) == [];
      assert ObjectIdsOf([]) == {};
    } else {
      var before, last := files[..|files| - 1], files[|files| - 1];
      StoreFilesOk(c, key, l, objects, before);
      EntriesSnoc(c, key, l, files);
      OneMoreFile(c, key, l, StoreFiles(c, key, l, StartTally(objects), before), EntriesOf(c, key, l, before), SumBytes(before), last);
    }
  }

  // ---------- the manifest ----------

  lemma {:induction false} ReadSizes(files: seq<CollectedFile>)
    requires forall i :: 0 <= i < |files| ==> |files[i].bytes| == files[i].statSize
    ensures SumBytes(files) == SumStat(files)
  {
    if files != [] {
      ReadSizes(files[..|files| - 1]);
    }
  }

  lemma {:induction false} ChunkCountBound(entries: seq<FileEntry>)
    requires forall i :: 0 <= i < |entries| ==> |entries[i].chunks| <= entries[i].size + 1
    ensures CountChunks(entries) <= SumSizes(entries) + |entries|
  {
    if entries != [] {
      ChunkCountBound(entries[..|entries| - 1]);
    }
  }

  lemma {:induction false} NonEmptyChunks(chunks: seq<Bytes>)
    requires forall i :: 0 <= i < |chunks| ==> chunks[i] != []
    ensures |chunks| <= |Flatten(chunks)|
  {
    if chunks != [] {
      NonEmptyChunks(chunks[1..]);
    }
  }

  lemma FewChunks(c: Crypto, key: Key, l: ChunkLimits, path: string, bytes: Bytes)
    requires ValidChunkLimits(l)
    ensures |EntryOf(c, key, l, path, bytes).chunks| <= |bytes| + 1
  {
    var chunks := ChunksOf(l, bytes);
    OutputIsChunksOf(l, bytes, chunks);
    if bytes != [] {
      NonEmptyChunks(chunks);
    }
  }

  lemma TotalsFromTally(core: Core, key: Key, t: Tally, bytes: nat)
    requires FilesStored(key, t, core.files, bytes) && bytes <= core.limits.maxTotalBytes <= 8_589_934_592
    requires 1 <= |core.files| <= core.limits.maxFiles <= 100_000
    requires CountChunks(core.files) <= bytes + |core.files|
    requires core.totals == Totals(|core.files|, bytes, t.chunkCount, |t.seen|, t.uniqueObjectBytes, t.reusedObjectCount)
    ensures ValidTotals(core)
  {
  }

  lemma EntriesHaveFewChunks(c: Crypto, key: Key, l: ChunkLimits, files: seq<CollectedFile>)
    requires ValidChunkLimits(l)
    ensures var entries := EntriesOf(c, key, l, files); CountChunks(entries) <= SumSizes(entries) + |entries|
  {
    var entries := EntriesOf(c, key, l, files);
    forall i | 0 <= i < |entries| ensures |entries[i].chunks| <= entries[i].size + 1 {
      FewChunks(c, key, l, files[i].path, files[i].bytes);
    }
    ChunkCountBound(entries);
  }

  /** What create writes down for the files it has read. */
  function CreatedCore(c: Crypto, w: string, objects: map<(KeyId, ObjectId), Bytes>, key: Key, r: Request): Core
    requires ValidChunkLimits(r.limits.chunk)
  {
    MakeCore(c, w, key, r, StoreFiles(c, key, r.limits.chunk, StartTally(objects), r.files))
  }

  /** The numeric part of the validator holds of every manifest create writes. */
  lemma CreatedNumbersAreValid(c: Crypto, w: string, objects: map<(KeyId, ObjectId), Bytes>, key: Key, r: Request)
    requires Lawful(c) && ValidLimits(r.limits) && WithinLimits(r) && r.files != []
    requires forall i :: 0 <= i < |r.files| ==> |r.files[i].bytes| == r.files[i].statSize
    ensures ValidNumbers(CreatedCore(c, w, objects, key, r))
  {
    var l := r.limits.chunk;
    var core := CreatedCore(c, w, objects, key, r);
    StoreFilesOk(c, key, l, objects, r.files);
    ReadSizes(r.files);
    EntriesHaveFewChunks(c, key, l, r.files);
    TotalsFromTally(core, key, StoreFiles(c, key, l, StartTally(objects), r.files), SumBytes(r.files));
    EntriesAreValid(c, key, r.limits, r.files);
  }

  lemma EntriesAreValid(c: Crypto, key: Key, l: Limits, files: seq<CollectedFile>)
    requires Lawful(c) && ValidLimits(l) && forall i :: 0 <= i < |files| ==> |files[i].bytes| <= l.maxFileBytes
    ensures var entries := EntriesOf(c, key, l.chunk, files);
            forall i :: 0 <= i < |entries| ==> ValidFile(entries[i], l)
  {
    var entries := EntriesOf(c, key, l.chunk, files);
    forall i | 0 <= i < |entries| ensures ValidFile(entries[i], l) {
      EntryIsValid(c, key, l, files[i].path, files[i].bytes);
    }
  }

  /** What a directory walk hands to create: portable paths, each file and each skip once. */
  ghost predicate CollectedWell(r: Request) {
    && (forall i :: 0 <= i < |r.files| ==> PortablePath(r.files[i].path))
    && (forall i :: 0 <= i < |r.skipped| ==> PortablePath(r.skipped[i].path))
    && (forall i, j :: 0 <= i < j < |r.files| ==> r.files[i].path != r.files[j].path)
    && (forall i, j :: 0 <= i < j < |r.skipped| ==> r.skipped[i].path != r.skipped[j].path)
  }

  /** What a caller can check before the call: the title's length, the root's path, and backslashes. */
  predicate GoodNames(r: Request) {
    && 1 <= |TitleOf(r)| <= 160
    && ValidManifestPath(r.sourcePath, true)
    && (forall i :: 0 <= i < |r.files| ==> '\\' !in r.files[i].path)
    && (forall i :: 0 <= i < |r.skipped| ==> '\\' !in r.skipped[i].path)
  }

  /**
   * Create does not validate what it writes. The manifest passes the validator that restore, delete
   * and garbage collection apply exactly when its names are good.
   */
  lemma CreatedManifestValidIff(c: Crypto, w: string, objects: map<(KeyId, ObjectId), Bytes>, key: Key, r: Request)
    requires Lawful(c) && ValidLimits(r.limits) && WithinLimits(r) && r.files != []
    requires forall i :: 0 <= i < |r.files| ==> |r.files[i].bytes| == r.files[i].statSize
    requires CollectedWell(r)
    ensures var core := CreatedCore(c, w, objects, key, r);
            ValidManifest(core, ArchiveId(core), w) <==> GoodNames(r)
  {
    CreatedNumbersAreValid(c, w, objects, key, r);
    CreatedNames(c, w, objects, key, r);
    NamesIff(CreatedCore(c, w, objects, key, r), r, w);
  }

  ghost predicate NamedAfter(core: Core, r: Request, w: string) {
    && core.workspaceId == w && core.title == TitleOf(r) && core.sourcePath == r.sourcePath && core.skipped == r.skipped
    && |core.files| == |r.files| && forall i :: 0 <= i < |r.files| ==> core.files[i].path == r.files[i].path
  }

  lemma CreatedNames(c: Crypto, w: string, objects: map<(KeyId, ObjectId), Bytes>, key: Key, r: Request)
    requires ValidChunkLimits(r.limits.chunk)
    ensures NamedAfter(CreatedCore(c, w, objects, key, r), r, w)
  {
  }

  lemma NamesIff(core: Core, r: Request, w: string)
    requires CollectedWell(r) && NamedAfter(core, r, w)
    ensures ValidNumbers(core) ==> (ValidManifest(core, ArchiveId(core), w) <==> GoodNames(r))
  {
    forall i | 0 <= i < |r.files|
      ensures ValidManifestPath(core.files[i].path, false) <==> '\\' !in r.files[i].path
    {
    }
    forall i | 0 <= i < |r.skipped|
      ensures ValidManifestPath(core.skipped[i].path, false) <==> '\\' !in r.skipped[i].path
    {
    }
  }

  /** A caller's own title is never too long: it is cut to 160 units. */
  lemma GivenTitleFits(r: Request)
    requires r.givenTitle.Some? && r.givenTitle.value != ""
    ensures 1 <= |TitleOf(r)| <= 160
  {
  }
}
