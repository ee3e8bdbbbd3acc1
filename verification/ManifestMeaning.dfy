/** What an accepted manifest says (src/content-archive.js:393-477). */
module ManifestMeaning {
  import opened Chunker
  import opened SealedObject
  import opened ContentArchive
  import opened NormalPaths

  // ---------- one file ----------

  /** The pieces lie end to end from the start of the file to its end. */
  ghost predicate Tiles(chunks: seq<Descriptor>, size: int) {
    && chunks != [] && chunks[0].offset == 0
    && (forall i :: 0 <= i < |chunks| - 1 ==> chunks[i + 1].offset == chunks[i].offset + chunks[i].length)
    && chunks[|chunks| - 1].offset + chunks[|chunks| - 1].length == size
  }

  /** A piece named after its contents, no longer than a chunk may be, and stored with a whole header. */
  ghost predicate Plausible(d: Descriptor, l: Limits) {
    && d.objectId.hash == d.plaintextHash
    && 0 <= d.length <= l.chunk.maxBytes
    && 33 <= d.storedBytes <= 9_007_199_254_740_991
  }

  lemma {:induction false} LengthsAreOffsets(chunks: seq<Descriptor>, n: nat)
    requires n <= |chunks| && chunks != [] && chunks[0].offset == 0
    requires forall i :: 0 <= i < |chunks| - 1 ==> chunks[i + 1].offset == chunks[i].offset + chunks[i].length
    ensures TotalLength(chunks[..n]) == if n < |chunks| then chunks[n].offset else chunks[n - 1].offset + chunks[n - 1].length
  {
    if n == 0 {
      assert chunks[..0] == [];
    } else {
      LengthsAreOffsets(chunks, n - 1);
      assert chunks[..n][..n - 1] == chunks[..n - 1];
      assert n < |chunks| ==> chunks[(n - 1) + 1].offset == chunks[n - 1].offset + chunks[n - 1].length;
    }
  }

  lemma OneLonger(chunks: seq<Descriptor>, i: nat)
    requires i < |chunks|
    ensures TotalLength(chunks[..i + 1]) == TotalLength(chunks[..i]) + chunks[i].length
  {
    assert chunks[..i + 1][..i] == chunks[..i];
  }

  lemma {:induction false} OffsetsGrow(chunks: seq<Descriptor>, l: Limits, n: nat)
    requires n <= |chunks| && forall d :: d in chunks ==> Plausible(d, l)
    ensures 0 <= TotalLength(chunks[..n])
    ensures TotalLength(chunks[..n]) <= TotalLength(chunks[..|chunks|])
    decreases |chunks| - n
  {
    LengthsAreNatural(chunks, l, n);
    if n < |chunks| {
      OneLonger(chunks, n);
      assert chunks[n] in chunks;
      OffsetsGrow(chunks, l, n + 1);
    }
  }

  lemma {:induction false} LengthsAreNatural(chunks: seq<Descriptor>, l: Limits, n: nat)
    requires n <= |chunks| && forall d :: d in chunks ==> Plausible(d, l)
    ensures 0 <= TotalLength(chunks[..n])
  {
    if n > 0 {
      LengthsAreNatural(chunks, l, n - 1);
      OneLonger(chunks, n - 1);
      assert chunks[n - 1] in chunks;
    }
  }

  lemma AcceptedTiles(f: FileEntry, l: Limits)
    requires ValidFile(f, l)
    ensures Tiles(f.chunks, f.size) && forall d :: d in f.chunks ==> Plausible(d, l)
  {
    var chunks := f.chunks;
    forall i | 0 <= i < |chunks| ensures chunks[i].offset == TotalLength(chunks[..i]) && Plausible(chunks[i], l) {
      assert ValidDescriptor(chunks[i], TotalLength(chunks[..i]), l);
    }
    forall i | 0 <= i < |chunks| - 1 ensures chunks[i + 1].offset == chunks[i].offset + chunks[i].length {
      OneLonger(chunks, i);
    }
    assert chunks[..0] == [];
    OneLonger(chunks, |chunks| - 1);
    assert chunks[..|chunks|] == chunks;
  }

  lemma TiledIsAccepted(f: FileEntry, l: Limits)
    requires ValidLimits(l) && 0 <= f.size <= l.maxFileBytes
    requires Tiles(f.chunks, f.size) && forall d :: d in f.chunks ==> Plausible(d, l)
    ensures ValidFile(f, l)
  {
    var chunks := f.chunks;
    LengthsAreOffsets(chunks, |chunks|);
    assert chunks[..|chunks|] == chunks;
    forall i | 0 <= i < |chunks| ensures ValidDescriptor(chunks[i], TotalLength(chunks[..i]), l) {
      LengthsAreOffsets(chunks, i);
      OffsetsGrow(chunks, l, i);
      assert chunks[i] in chunks;
    }
  }

  lemma ValidFileMeans(f: FileEntry, l: Limits)
    requires ValidLimits(l)
    ensures ValidFile(f, l) <==>
              0 <= f.size <= l.maxFileBytes && Tiles(f.chunks, f.size) && forall d :: d in f.chunks ==> Plausible(d, l)
  {
    if ValidFile(f, l) {
      AcceptedTiles(f, l);
    }
    if 0 <= f.size <= l.maxFileBytes && Tiles(f.chunks, f.size) && forall d :: d in f.chunks ==> Plausible(d, l) {
      TiledIsAccepted(f, l);
    }
  }

  // ---------- totals ----------

  /** Every piece of every file, in order. */
  ghost function AllPieces(files: seq<FileEntry>): seq<Descriptor> {
    if files == [] then [] else AllPieces(files[..|files| - 1]) + files[|files| - 1].chunks
  }

  ghost function ObjectsOf(pieces: seq<Descriptor>): set<ObjectId> { set d | d in pieces :: d.objectId }

  lemma {:induction false} LengthsAdd(a: seq<Descriptor>, b: seq<Descriptor>)
    ensures TotalLength(a + b) == TotalLength(a) + TotalLength(b)
  {
    if b == [] {
      assert a + b == a;
    } else {
      assert (a + b)[..|a + b| - 1] == a + b[..|b| - 1];
      LengthsAdd(a, b[..|b| - 1]);
    }
  }

  lemma ObjectsSnoc(files: seq<FileEntry>)
    requires files != []
    ensures ObjectIdsOf(files) == ObjectIdsOf(files[..|files| - 1]) + ObjectsOf(files[|files| - 1].chunks)
  {
    var front, last := files[..|files| - 1], files[|files| - 1];
    forall o ensures o in ObjectIdsOf(files) <==> o in ObjectIdsOf(front) || o in ObjectsOf(last.chunks) {
      if o in ObjectIdsOf(files) {
        var i, j :| 0 <= i < |files| && 0 <= j < |files[i].chunks| && files[i].chunks[j].objectId == o;
        if i < |front| {
          assert front[i].chunks[j].objectId == o;
        } else {
          assert last.chunks[j] in last.chunks;
        }
      }
      if o in ObjectIdsOf(front) {
        var i, j :| 0 <= i < |front| && 0 <= j < |front[i].chunks| && front[i].chunks[j].objectId == o;
        assert files[i].chunks[j].objectId == o;
      }
      if o in ObjectsOf(last.chunks) {
        var d :| d in last.chunks && d.objectId == o;
        var j :| 0 <= j < |last.chunks| && last.chunks[j] == d;
        assert files[|files| - 1].chunks[j].objectId == o;
      }
    }
  }

  lemma {:induction false} PiecesCount(files: seq<FileEntry>)
    ensures CountChunks(files) == |AllPieces(files)| && ObjectIdsOf(files) == ObjectsOf(AllPieces(files))
    ensures (forall f :: f in files ==> TotalLength(f.chunks) == f.size) ==> SumSizes(files) == TotalLength(AllPieces(files))
  {
    if files != [] {
      var front, last := files[..|files| - 1], files[|files| - 1];
      assert files == front + [last];
      PiecesCount(front);
      ObjectsSnoc(files);
      LengthsAdd(AllPieces(front), last.chunks);
      ObjectsAdd(AllPieces(front), last.chunks);
    }
  }

  lemma ObjectsAdd(a: seq<Descriptor>, b: seq<Descriptor>)
    ensures ObjectsOf(a + b) == ObjectsOf(a) + ObjectsOf(b)
  {
    forall o | o in ObjectsOf(a) + ObjectsOf(b) ensures o in ObjectsOf(a + b) {
      if o in ObjectsOf(a) {
        var d :| d in a && d.objectId == o;
        assert d in a + b;
      } else {
        var d :| d in b && d.objectId == o;
        assert d in a + b;
      }
    }
  }

  /** The totals count the pieces, their bytes and their distinct objects. */
  ghost predicate TotalsCount(core: Core) {
    var t, pieces := core.totals, AllPieces(core.files);
    && t.fileCount == |core.files| && t.chunkCount == |pieces| && t.uniqueObjectCount == |ObjectsOf(pieces)|
    && t.sourceBytes == TotalLength(pieces) <= core.limits.maxTotalBytes
    && 0 <= t.uniqueObjectBytes <= 9_007_199_254_740_991
    && 0 <= t.reusedObjectCount <= 9_007_199_254_740_991
    && t.reusedObjectCount <= |pieces| <= t.reusedObjectCount + |ObjectsOf(pieces)|
  }

  lemma {:induction false} FewObjects(pieces: seq<Descriptor>)
    ensures |ObjectsOf(pieces)| <= |pieces|
  {
    if pieces != [] {
      var front, last := pieces[..|pieces| - 1], pieces[|pieces| - 1];
      FewObjects(front);
      assert pieces == front + [last];
      ObjectsAdd(front, [last]);
      assert ObjectsOf([last]) == {last.objectId};
    }
  }

  // ---------- limits and names ----------

  ghost function Doubled(n: nat): (p: nat)
    ensures p > 0
  {
    if n == 0 then 1 else 2 * Doubled(n - 1)
  }

  ghost predicate IsPower(value: int) { exists n: nat :: value == Doubled(n) }

  lemma {:induction false} PowerMeans(value: nat)
    ensures PowerOfTwo(value) <==> IsPower(value)
    decreases value
  {
    if value > 1 && value % 2 == 0 {
      PowerMeans(value / 2);
      if IsPower(value / 2) {
        var n: nat :| value / 2 == Doubled(n);
        assert value == Doubled(n + 1);
      }
      if IsPower(value) {
        var n: nat :| value == Doubled(n);
        assert value / 2 == Doubled(n - 1);
      }
    } else if value == 1 {
      assert value == Doubled(0);
    }
  }

  ghost predicate InRange(l: Limits) {
    && 1 <= l.maxFiles <= 100_000 && 1_024 <= l.maxFileBytes <= 1_073_741_824 && 1_024 <= l.maxTotalBytes <= 8_589_934_592
    && 4_096 <= l.chunk.minBytes <= 1_048_576 && 8_192 <= l.chunk.averageBytes <= 4_194_304
    && 16_384 <= l.chunk.maxBytes <= 16_777_216 && l.chunk.minBytes <= l.chunk.averageBytes <= l.chunk.maxBytes
    && IsPower(l.chunk.averageBytes)
  }

  /** Relative, bounded, normalised, and without a parent part, a backslash or a null character. */
  ghost predicate Portable(path: string) {
    && 0 < |path| <= 1_024 && path[0] != '/' && '\\' !in path && '\0' !in path
    && Normalized(path) == path && ".." !in Segments(path)
  }

  lemma PathMeans(path: string)
    ensures ValidManifestPath(path, false) <==> Portable(path)
    ensures ValidManifestPath(path, true) <==> path == "." || Portable(path)
  {
    if path != "" && path[0] != '/' {
      NormalPathMeans(path);
    }
  }

  ghost predicate NamesOk(core: Core) {
    && 1 <= |core.title| <= 160
    && (core.sourcePath == "." || Portable(core.sourcePath))
    && (forall f :: f in core.files ==> Portable(f.path))
    && (forall s :: s in core.skipped ==> Portable(s.path))
    && (forall i, j :: 0 <= i < |core.files| && 0 <= j < |core.files| && core.files[i].path == core.files[j].path ==> i == j)
    && (forall i, j :: 0 <= i < |core.skipped| && 0 <= j < |core.skipped| && core.skipped[i].path == core.skipped[j].path ==> i == j)
  }

  lemma NamesMean(core: Core)
    ensures ValidNames(core) <==> NamesOk(core)
  {
    PathMeans(core.sourcePath);
    forall f | f in core.files ensures ValidManifestPath(f.path, false) <==> Portable(f.path) {
      PathMeans(f.path);
    }
    forall s | s in core.skipped ensures ValidManifestPath(s.path, false) <==> Portable(s.path) {
      PathMeans(s.path);
    }
  }

  // ---------- the manifest ----------

  ghost predicate FilesOk(core: Core) {
    && 1 <= |core.files| <= core.limits.maxFiles
    && forall f :: f in core.files ==>
         && 0 <= f.size <= core.limits.maxFileBytes && Tiles(f.chunks, f.size)
         && forall d :: d in f.chunks ==> Plausible(d, core.limits)
  }

  lemma FilesMean(core: Core)
    requires ValidLimits(core.limits)
    ensures (forall i :: 0 <= i < |core.files| ==> ValidFile(core.files[i], core.limits)) <==>
            (forall f :: f in core.files ==>
               && 0 <= f.size <= core.limits.maxFileBytes && Tiles(f.chunks, f.size)
               && forall d :: d in f.chunks ==> Plausible(d, core.limits))
  {
    forall f | f in core.files
      ensures ValidFile(f, core.limits) <==>
              && 0 <= f.size <= core.limits.maxFileBytes && Tiles(f.chunks, f.size)
              && forall d :: d in f.chunks ==> Plausible(d, core.limits)
    {
      ValidFileMeans(f, core.limits);
    }
  }

  lemma SizesAreLengths(core: Core)
    requires forall i :: 0 <= i < |core.files| ==> ValidFile(core.files[i], core.limits)
    ensures SumSizes(core.files) == TotalLength(AllPieces(core.files))
  {
    PiecesCount(core.files);
    forall f | f in core.files ensures TotalLength(f.chunks) == f.size {
      var i :| 0 <= i < |core.files| && core.files[i] == f;
      assert ValidFile(core.files[i], core.limits);
    }
  }

  lemma TotalsMean(core: Core)
    requires SumSizes(core.files) == TotalLength(AllPieces(core.files))
    ensures ValidTotals(core) <==> 1 <= |core.files| <= core.limits.maxFiles && TotalsCount(core)
  {
    PiecesCount(core.files);
    FewObjects(AllPieces(core.files));
  }

  lemma LimitsMean(l: Limits)
    ensures ValidLimits(l) <==> InRange(l)
  {
    PowerMeans(l.chunk.averageBytes);
  }

  /**
   * Main result: accepted are exactly the manifests of this workspace stored under their own hash, with limits in
   * range, portable names, each once, pieces that lie end to end in every file, and totals that count them.
   */
  lemma ValidManifestMeans(core: Core, id: ArchiveId, workspaceId: string)
    ensures ValidManifest(core, id, workspaceId) <==>
              && core.workspaceId == workspaceId && id.core == core
              && InRange(core.limits) && core.chunking == core.limits.chunk
              && NamesOk(core) && FilesOk(core) && TotalsCount(core)
  {
    LimitsMean(core.limits);
    NamesMean(core);
    if ValidLimits(core.limits) {
      FilesMean(core);
      if forall i :: 0 <= i < |core.files| ==> ValidFile(core.files[i], core.limits) {
        SizesAreLengths(core);
        TotalsMean(core);
      }
    }
  }
}
