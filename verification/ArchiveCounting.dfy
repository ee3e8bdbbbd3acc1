/** The counters create records, measured by how the store has grown (src/content-archive.js:540-549). */
module ArchiveCounting {
  import opened Common
  import opened Chunker
  import opened SealedObject
  import opened ContentArchive
  import opened ArchiveManifests

  type Objects = map<(KeyId, ObjectId), Bytes>

  /** Bytes of all stored objects. */
  ghost function StoredBytes(objects: Objects): nat {
    if objects == map[] then 0
    else
      var k :| k in objects;
      |objects[k]| + StoredBytes(objects - {k})
  }

  lemma {:induction false} StoredWithout(objects: Objects, k: (KeyId, ObjectId))
    requires k in objects
    ensures StoredBytes(objects) == |objects[k]| + StoredBytes(objects - {k})
  {
    var j :| j in objects && StoredBytes(objects) == |objects[j]| + StoredBytes(objects - {j});
    if j != k {
      StoredWithout(objects - {j}, k);
      StoredWithout(objects - {k}, j);
      assert objects - {j} - {k} == objects - {k} - {j};
    }
  }

  lemma StoredWith(objects: Objects, k: (KeyId, ObjectId), payload: Bytes)
    requires k !in objects
    ensures StoredBytes(objects[k := payload]) == StoredBytes(objects) + |payload|
    ensures |objects[k := payload]| == |objects| + 1
  {
    var more := objects[k := payload];
    assert more - {k} == objects;
    StoredWithout(more, k);
    assert more.Keys == objects.Keys + {k};
  }

  /** Counted as created: what the store has gained; counted as reused: every other chunk. */
  ghost predicate CountsGrowth(key: Key, before: Objects, t: Tally) {
    && (forall id :: id in t.seen ==> (KeyId(key), id) in t.objects)
    && StoredBytes(t.objects) == StoredBytes(before) + t.uniqueObjectBytes
    && |t.objects| + t.reusedObjectCount == |before| + t.chunkCount
  }

  lemma ChunkCountsGrowth(c: Crypto, key: Key, before: Objects, t: Tally, chunk: Bytes)
    requires CountsGrowth(key, before, t)
    ensures CountsGrowth(key, before, StoreChunk(c, key, t, chunk))
  {
    var k := (KeyId(key), ObjectId(Sha256(chunk)));
    if k !in t.objects {
      StoredWith(t.objects, k, Payload(c, key, chunk));
    }
  }

  lemma {:induction false} ChunksCountGrowth(c: Crypto, key: Key, before: Objects, t: Tally, chunks: seq<Bytes>)
    requires CountsGrowth(key, before, t)
    ensures CountsGrowth(key, before, StoreAll(c, key, t, chunks))
  {
    if chunks != [] {
      var front := chunks[..|chunks| - 1];
      ChunksCountGrowth(c, key, before, t, front);
      ChunkCountsGrowth(c, key, before, StoreAll(c, key, t, front), chunks[|chunks| - 1]);
    }
  }

  lemma {:induction false} FilesCountGrowth(c: Crypto, key: Key, l: ChunkLimits, objects: Objects,
                                            files: seq<CollectedFile>)
    requires ValidChunkLimits(l)
    ensures CountsGrowth(key, objects, StoreFiles(c, key, l, StartTally(objects), files))
  {
    if files != [] {
      var front := files[..|files| - 1];
      FilesCountGrowth(c, key, l, objects, front);
      ChunksCountGrowth(c, key, objects, StoreFiles(c, key, l, StartTally(objects), front), ChunksOf(l, files[|files| - 1].bytes));
    }
  }

  /**
   * Main result: the totals in a created manifest say by how much the store grew: the bytes of the new
   * objects, and as reused every chunk that made none.
   */
  lemma CreatedTotalsAreGrowth(c: Crypto, w: string, v: Vault, r: Request, freshKey: Key, created: Vault, id: ArchiveId)
    requires Create(c, w, v, r, freshKey, true) == (created, Ok(id))
    ensures var t := id.core.totals;
            && StoredBytes(created.objects) == StoredBytes(v.objects) + t.uniqueObjectBytes
            && |created.objects| + t.reusedObjectCount == |v.objects| + t.chunkCount
  {
    FilesCountGrowth(c, KeyFor(v, freshKey), r.limits.chunk, v.objects, Unchanged(r.files));
    assert Unchanged(r.files) == r.files;
  }
}
