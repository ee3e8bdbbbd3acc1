/**
 * The archive of src/content-archive.js as an object that is updated in place. Every method is
 * proved against the function of the same name in ContentArchive.
 */
module ArchiveStore {
  import opened Common
  import opened Chunker
  import opened SealedObject
  import Spec = ContentArchive
  import opened ArchiveManifests

  type ObjectKey = (KeyId, ObjectId)

  // ---------- validation ----------

  /** The loop over one file's chunk descriptors. */
  method ValidateFile(f: Spec.FileEntry, l: Spec.Limits) returns (ok: bool)
    ensures ok == Spec.ValidFile(f, l)
  {
    if !Spec.Safe(f.size, 0, l.maxFileBytes) || |f.chunks| < 1 {
      return false;
    }
    var expectedOffset := 0;
    for i := 0 to |f.chunks|
      invariant ChunksFollowOn(f, l, i, expectedOffset)
    {
      if !Spec.ValidDescriptor(f.chunks[i], expectedOffset, l) {
        NotValidFile(f, l, i, expectedOffset);
        return false;
      }
      OneMoreFollowsOn(f, l, i, expectedOffset);
      expectedOffset := expectedOffset + f.chunks[i].length;
    }
    assert f.chunks[..|f.chunks|] == f.chunks;
    return expectedOffset == f.size;
  }

  ghost predicate ChunksFollowOn(f: Spec.FileEntry, l: Spec.Limits, i: nat, expectedOffset: int) {
    && i <= |f.chunks|
    && expectedOffset == Spec.TotalLength(f.chunks[..i])
    && forall k {:trigger Spec.ValidDescriptor(f.chunks[k], Spec.TotalLength(f.chunks[..k]), l)} ::
         0 <= k < i ==> Spec.ValidDescriptor(f.chunks[k], Spec.TotalLength(f.chunks[..k]), l)
  }

  lemma OneMoreFollowsOn(f: Spec.FileEntry, l: Spec.Limits, i: nat, expectedOffset: int)
    requires i < |f.chunks| && ChunksFollowOn(f, l, i, expectedOffset) && Spec.ValidDescriptor(f.chunks[i], expectedOffset, l)
    ensures ChunksFollowOn(f, l, i + 1, expectedOffset + f.chunks[i].length)
  {
    assert f.chunks[..i + 1][..i] == f.chunks[..i];
  }

  lemma NotValidFile(f: Spec.FileEntry, l: Spec.Limits, i: nat, expectedOffset: int)
    requires i < |f.chunks| && ChunksFollowOn(f, l, i, expectedOffset) && !Spec.ValidDescriptor(f.chunks[i], expectedOffset, l)
    ensures !Spec.ValidFile(f, l)
  {
  }

  /** The totals the validator recomputes while it walks the files. */
  method Recount(files: seq<Spec.FileEntry>) returns (sourceBytes: int, chunkCount: int, objectIds: set<ObjectId>)
    ensures sourceBytes == Spec.SumSizes(files) && chunkCount == Spec.CountChunks(files) && objectIds == Spec.ObjectIdsOf(files)
  {
    sourceBytes, chunkCount, objectIds := 0, 0, {};
    for i := 0 to |files|
      invariant sourceBytes == Spec.SumSizes(files[..i]) && chunkCount == Spec.CountChunks(files[..i])
      invariant objectIds == Spec.ObjectIdsOf(files[..i])
    {
      assert files[..i + 1] == files[..i] + [files[i]];
      CountsSnoc(files[..i], files[i]);
      ObjectIdsSnoc(files[..i], files[i]);
      var ids := FileObjectIds(files[i]);
      sourceBytes := sourceBytes + files[i].size;
      chunkCount := chunkCount + |files[i].chunks|;
      objectIds := objectIds + ids;
    }
    assert files[..|files|] == files;
  }

  method FileObjectIds(f: Spec.FileEntry) returns (ids: set<ObjectId>)
    ensures ids == Spec.ObjectIdsOf([f])
  {
    ids := {};
    for j := 0 to |f.chunks|
      invariant ids == set k | 0 <= k < j :: f.chunks[k].objectId
    {
      ids := ids + {f.chunks[j].objectId};
    }
    assert forall o :: o in Spec.ObjectIdsOf([f]) <==> exists k :: 0 <= k < |f.chunks| && [f][0].chunks[k].objectId == o;
  }

  method ValidateManifest(core: Spec.Core, id: Spec.ArchiveId, workspaceId: string) returns (ok: bool)
    ensures ok == Spec.ValidManifest(core, id, workspaceId)
  {
    if core.workspaceId != workspaceId || !Spec.ValidNames(core) || !Spec.ValidLimits(core.limits) || core.chunking != core.limits.chunk {
      return false;
    }
    for i := 0 to |core.files|
      invariant forall k :: 0 <= k < i ==> Spec.ValidFile(core.files[k], core.limits)
    {
      var fileOk := ValidateFile(core.files[i], core.limits);
      if !fileOk {
        return false;
      }
    }
    var sourceBytes, chunkCount, objectIds := Recount(core.files);
    var t := core.totals;
    if !(1 <= |core.files| <= core.limits.maxFiles && t.fileCount == |core.files|
         && t.sourceBytes == sourceBytes && sourceBytes <= core.limits.maxTotalBytes
         && t.chunkCount == chunkCount && t.uniqueObjectCount == |objectIds|
         && Spec.Safe(t.uniqueObjectBytes, 0, Spec.MAX_SAFE)
         && Spec.Safe(t.reusedObjectCount, Max(0, chunkCount - |objectIds|), chunkCount)) {
      return false;
    }
    return id == Spec.ArchiveId(core);
  }

  // ---------- the store ----------

  class Store {
    const workspaceId: string
    const crypto: Crypto
    var objects: map<ObjectKey, Bytes>
    var manifests: map<Spec.ArchiveId, Spec.Core>
    var key: Option<Key>

    function Contents(): Spec.Vault
      reads this
    {
      Spec.Vault(objects, manifests, key)
    }

    constructor (workspaceId: string, crypto: Crypto)
      ensures Contents() == Spec.EMPTY_VAULT && this.workspaceId == workspaceId && this.crypto == crypto
    {
      this.workspaceId, this.crypto := workspaceId, crypto;
      objects, manifests, key := map[], map[], None;
    }

    /** Creates the object unless there is one already; an existing object is not touched. */
    method WriteObject(name: ObjectKey, payload: Bytes) returns (created: bool)
      modifies this`objects
      ensures created == (name !in old(objects))
      ensures objects == if created then old(objects)[name := payload] else old(objects)
    {
      if name in objects {
        return false;
      }
      objects := objects[name := payload];
      return true;
    }

    /** One turn of the inner loop of create: a chunk is sealed, stored and counted. */
    method ArchiveChunk(vaultKey: Key, part: Bytes, offset: nat, t: Spec.Tally)
      returns (descriptor: Spec.Descriptor, t': Spec.Tally)
      requires t.objects == objects
      modifies this`objects
      ensures descriptor == Spec.Describe(crypto, vaultKey, part, offset)
      ensures t' == Spec.StoreChunk(crypto, vaultKey, t, part) && t'.objects == objects
    {
      var hash := Sha256(part);
      var compressed := CompressChunk(crypto, part);
      var payload := EncryptObject(crypto, compressed, hash, vaultKey);
      descriptor := Spec.Descriptor(ObjectId(hash), hash, offset, |part|, |payload|, compressed.code == CODEC_BROTLI);
      var created := WriteObject((KeyId(vaultKey), descriptor.objectId), payload);
      var first := created && descriptor.objectId !in t.seen;
      t' := Spec.Tally(
        objects,
        t.seen + {descriptor.objectId},
        t.chunkCount + 1,
        if first then t.uniqueObjectBytes + |payload| else t.uniqueObjectBytes,
        if created then t.reusedObjectCount else t.reusedObjectCount + 1);
    }

    /** The inner loop of create: one file's chunks in order. */
    method ArchiveFile(vaultKey: Key, l: ChunkLimits, file: Spec.CollectedFile, t: Spec.Tally)
      returns (entry: Spec.FileEntry, t': Spec.Tally)
      requires ValidChunkLimits(l) && t.objects == objects
      modifies this`objects
      ensures entry == Spec.EntryOf(crypto, vaultKey, l, file.path, file.bytes)
      ensures t' == Spec.StoreAll(crypto, vaultKey, t, ChunksOf(l, file.bytes)) && t'.objects == objects
    {
      var parts := ContentDefinedChunks(file.bytes, l);
      OutputIsChunksOf(l, file.bytes, parts);
      var chunks: seq<Spec.Descriptor> := [];
      var offset: nat := 0;
      t' := t;
      for i := 0 to |parts|
        invariant ChunksArchived(crypto, vaultKey, parts, i, t, chunks, offset, t')
        invariant t'.objects == objects
      {
        NextChunk(crypto, vaultKey, parts, i, t, chunks, offset, t');
        var descriptor;
        descriptor, t' := ArchiveChunk(vaultKey, parts[i], offset, t');
        chunks := chunks + [descriptor];
        offset := offset + |parts[i]|;
      }
      assert parts[..|parts|] == parts;
      entry := Spec.FileEntry(file.path, |file.bytes|, Sha256(file.bytes), chunks);
    }

    /** The outer loop of create; stops at the first file that changed since it was collected. */
    method ArchiveFiles(vaultKey: Key, l: ChunkLimits, files: seq<Spec.CollectedFile>)
      returns (entries: seq<Spec.FileEntry>, t: Spec.Tally, done: nat)
      requires ValidChunkLimits(l)
      modifies this`objects
      ensures FilesArchived(crypto, vaultKey, l, files, done, old(objects), entries, t) && t.objects == objects
      ensures done == |Spec.Unchanged(files)|
    {
      entries, t := [], Spec.StartTally(objects);
      for i := 0 to |files|
        invariant i <= |Spec.Unchanged(files)|
        invariant FilesArchived(crypto, vaultKey, l, files, i, old(objects), entries, t)
        invariant t.objects == objects
      {
        if |files[i].bytes| != files[i].statSize {
          return entries, t, i;
        }
        entries, t := ArchiveOneMore(vaultKey, l, files, i, entries, t, old(objects));
      }
      done := |files|;
    }

    method ArchiveOneMore(vaultKey: Key, l: ChunkLimits, files: seq<Spec.CollectedFile>, i: nat,
                          before: seq<Spec.FileEntry>, t: Spec.Tally, ghost start: map<ObjectKey, Bytes>)
      returns (entries: seq<Spec.FileEntry>, t': Spec.Tally)
      requires ValidChunkLimits(l) && i < |files| && t.objects == objects
      requires FilesArchived(crypto, vaultKey, l, files, i, start, before, t)
      modifies this`objects
      ensures FilesArchived(crypto, vaultKey, l, files, i + 1, start, entries, t') && t'.objects == objects
    {
      NextFile(crypto, vaultKey, l, files, i, start, before, t);
      var entry;
      entry, t' := ArchiveFile(vaultKey, l, files[i], t);
      entries := before + [entry];
    }

    /** `createContentArchive` after the files are collected. */
    method Create(r: Spec.Request, freshKey: Key, ledgerAccepts: bool)
      returns (result: Result<Spec.ArchiveId, Spec.ArchiveError>)
      modifies this
      ensures (Contents(), result) == Spec.Create(crypto, workspaceId, old(Contents()), r, freshKey, ledgerAccepts)
    {
      if !Spec.ValidLimits(r.limits) {
        return Err(Spec.LimitsInvalid);
      }
      if !Spec.WithinLimits(r) {
        return Err(Spec.LimitExceeded);
      }
      if r.files == [] {
        return Err(Spec.EmptySelection);
      }
      result := CreateSelected(r, freshKey, ledgerAccepts);
    }

    /** The part of create that writes, once limits and selection are accepted. */
    method CreateSelected(r: Spec.Request, freshKey: Key, ledgerAccepts: bool)
      returns (result: Result<Spec.ArchiveId, Spec.ArchiveError>)
      requires Spec.ValidLimits(r.limits) && Spec.WithinLimits(r) && r.files != []
      modifies this
      ensures (Contents(), result) == Spec.Create(crypto, workspaceId, old(Contents()), r, freshKey, ledgerAccepts)
    {
      ghost var before := Contents();
      if key.None? {
        key := Some(freshKey);
      }
      var entries, t, done := ArchiveFiles(key.value, r.limits.chunk, r.files);
      CreateValue(crypto, workspaceId, before, r, freshKey, ledgerAccepts, done, entries, t);
      if done < |r.files| {
        return Err(Spec.SourceChanged);
      }
      var core := CoreFor(workspaceId, key.value, r, entries, t);
      var id := Spec.ArchiveId(core);
      if !ledgerAccepts {
        manifests := manifests - {id};
        return Err(Spec.LedgerRejected);
      }
      manifests := manifests[id := core];
      return Ok(id);
    }

    method ReadManifest(id: Spec.ArchiveId) returns (result: Result<Spec.Core, Spec.ArchiveError>)
      ensures result == Spec.ReadManifest(Contents(), workspaceId, id)
    {
      if id !in manifests {
        return Err(Spec.NotFound);
      }
      if Spec.ManifestBytes(manifests[id]) > Spec.MAX_MANIFEST_BYTES {
        return Err(Spec.ManifestInvalid);
      }
      var ok := ValidateManifest(manifests[id], id, workspaceId);
      return if ok then Ok(manifests[id]) else Err(Spec.ManifestInvalid);
    }

    method Delete(id: Spec.ArchiveId, confirm: Spec.ArchiveId, ledgerAccepts: bool)
      returns (result: Result<(), Spec.ArchiveError>)
      modifies this`manifests
      ensures (Contents(), result) == Spec.Delete(old(Contents()), workspaceId, id, confirm, ledgerAccepts)
    {
      if confirm != id {
        return Err(Spec.NotConfirmed);
      }
      var manifest := ReadManifest(id);
      if manifest.Err? {
        return Err(manifest.error);
      }
      manifests := manifests - {id};
      return if ledgerAccepts then Ok(()) else Err(Spec.LedgerRejected);
    }

    /** Lists every archive, failing on the first manifest that cannot be read. */
    method ListArchives() returns (ok: bool)
      ensures ok <==> forall id :: id in manifests ==> Spec.Readable(manifests[id], id, workspaceId)
    {
      var pending := manifests.Keys;
      while pending != {}
        invariant pending <= manifests.Keys
        invariant forall id :: id in manifests && id !in pending ==> Spec.Readable(manifests[id], id, workspaceId)
        decreases |pending|
      {
        var id :| id in pending;
        var manifest := ReadManifest(id);
        if manifest.Err? {
          return false;
        }
        pending := pending - {id};
      }
      return true;
    }

    method CollectGarbage(confirmed: bool) returns (result: Result<set<ObjectKey>, Spec.ArchiveError>)
      modifies this`objects
      ensures (Contents(), result) == Spec.Collect(old(Contents()), workspaceId, confirmed)
    {
      if !confirmed {
        return Err(Spec.NotConfirmed);
      }
      var listed := ListArchives();
      if !listed {
        return Err(Spec.ManifestInvalid);
      }
      var retained := Spec.Retained(manifests);
      var removed := RemoveAllBut(retained);
      CollectValue(old(Contents()), workspaceId, objects, removed);
      return Ok(removed);
    }

    /** The loop over the stored objects. */
    method RemoveAllBut(retained: set<ObjectKey>) returns (removed: set<ObjectKey>)
      modifies this`objects
      ensures forall k :: k in removed <==> k in old(objects) && k !in retained
      ensures forall k :: k in objects <==> k in old(objects) && k in retained
      ensures forall k :: k in objects ==> objects[k] == old(objects)[k]
    {
      removed := {};
      var pending := objects.Keys;
      while pending != {}
        invariant forall k :: k in pending ==> k in objects
        invariant forall k :: k in removed <==> k in old(objects) && k !in pending && k !in retained
        invariant forall k :: k in objects <==> k in old(objects) && k !in removed
        invariant forall k :: k in objects ==> objects[k] == old(objects)[k]
        decreases |pending|
      {
        var name :| name in pending;
        if name !in retained {
          objects := objects - {name};
          removed := removed + {name};
        }
        pending := pending - {name};
      }
    }

    method EraseKey(confirmed: bool, ledgerAccepts: bool) returns (result: Result<KeyId, Spec.ArchiveError>)
      modifies this`key
      ensures (Contents(), result) == Spec.EraseKey(old(Contents()), confirmed, ledgerAccepts)
    {
      if !confirmed {
        return Err(Spec.NotConfirmed);
      }
      if key.None? {
        return Err(Spec.KeyMissing);
      }
      result := if ledgerAccepts then Ok(KeyId(key.value)) else Err(Spec.LedgerRejected);
      key := None;
    }

    /** The inner loop of verify and restore: a file's chunks are opened, checked and joined. */
    method ReadFile(vaultKey: Key, keyId: KeyId, f: Spec.FileEntry)
      returns (result: Result<Spec.Restored, Spec.ArchiveError>)
      ensures result == Spec.RestoreFile(crypto, Contents(), vaultKey, keyId, f)
    {
      var bytes: Bytes := [];
      for i := 0 to |f.chunks|
        invariant Spec.ReadChunks(crypto, Contents(), vaultKey, keyId, f.chunks[..i]) == Ok(bytes)
      {
        assert f.chunks[..i + 1][..i] == f.chunks[..i];
        var plain := Spec.ReadObject(crypto, Contents(), vaultKey, keyId, f.chunks[i]);
        if plain.Err? {
          ReadErrorStays(crypto, Contents(), vaultKey, keyId, f.chunks, i + 1, plain.error);
          return Err(plain.error);
        }
        bytes := bytes + plain.value;
      }
      assert f.chunks[..|f.chunks|] == f.chunks;
      if |bytes| != f.size || Sha256(bytes) != f.contentHash {
        return Err(Spec.FileInvalid);
      }
      return Ok(Spec.Restored(f.path, bytes));
    }

    /** The outer loop of verify: what was read is counted while it is checked. */
    method VerifyFiles(vaultKey: Key, keyId: KeyId, files: seq<Spec.FileEntry>)
      returns (result: Result<Receipt, Spec.ArchiveError>)
      ensures result.Err? <==> Spec.RestoreFiles(crypto, Contents(), vaultKey, keyId, files).Err?
      ensures result.Err? ==> result.error == Spec.RestoreFiles(crypto, Contents(), vaultKey, keyId, files).error
      ensures result.Ok? ==> result.value == Counted(files)
    {
      var sourceBytes, chunkCount, verified: set<ObjectId> := 0, 0, {};
      for i := 0 to |files|
        invariant Spec.RestoreFiles(crypto, Contents(), vaultKey, keyId, files[..i]).Ok?
        invariant Verified(files[..i], sourceBytes, chunkCount, verified)
      {
        assert files[..i + 1][..i] == files[..i];
        var file := ReadFile(vaultKey, keyId, files[i]);
        if file.Err? {
          RestoreErrorStays(crypto, Contents(), vaultKey, keyId, files, i + 1, file.error);
          return Err(file.error);
        }
        OneMoreVerified(files, i, sourceBytes, chunkCount, verified);
        var ids := FileObjectIds(files[i]);
        sourceBytes, chunkCount, verified := sourceBytes + |file.value.bytes|, chunkCount + |files[i].chunks|, verified + ids;
      }
      assert files[..|files|] == files;
      return Ok(Receipt(|files|, sourceBytes, chunkCount, |verified|));
    }

    /** Opens and checks every chunk like a restore, writes nothing, and counts what it saw. */
    method Verify(id: Spec.ArchiveId) returns (result: Result<Receipt, Spec.ArchiveError>)
      ensures result.Err? <==> Spec.Restore(crypto, Contents(), workspaceId, id).Err?
      ensures result.Err? ==> result.error == Spec.Restore(crypto, Contents(), workspaceId, id).error
      ensures result.Ok? ==> id in manifests && result.value == Promised(manifests[id].totals)
    {
      var manifest := ReadManifest(id);
      if manifest.Err? {
        return Err(manifest.error);
      }
      var core := manifest.value;
      if key.None? {
        return Err(Spec.KeyMissing);
      }
      if KeyId(key.value) != core.keyId {
        return Err(Spec.KeyInvalid);
      }
      result := VerifyFiles(key.value, core.keyId, core.files);
    }

    /** The outer loop of restore. */
    method RestoreFiles(vaultKey: Key, keyId: KeyId, files: seq<Spec.FileEntry>)
      returns (result: Result<seq<Spec.Restored>, Spec.ArchiveError>)
      ensures result == Spec.RestoreFiles(crypto, Contents(), vaultKey, keyId, files)
    {
      var restored: seq<Spec.Restored> := [];
      for i := 0 to |files|
        invariant Spec.RestoreFiles(crypto, Contents(), vaultKey, keyId, files[..i]) == Ok(restored)
      {
        assert files[..i + 1][..i] == files[..i];
        var file := ReadFile(vaultKey, keyId, files[i]);
        if file.Err? {
          RestoreErrorStays(crypto, Contents(), vaultKey, keyId, files, i + 1, file.error);
          return Err(file.error);
        }
        restored := restored + [file.value];
      }
      assert files[..|files|] == files;
      return Ok(restored);
    }

    method Restore(id: Spec.ArchiveId) returns (result: Result<seq<Spec.Restored>, Spec.ArchiveError>)
      ensures result == Spec.Restore(crypto, Contents(), workspaceId, id)
    {
      var manifest := ReadManifest(id);
      if manifest.Err? {
        return Err(manifest.error);
      }
      var core := manifest.value;
      if key.None? {
        return Err(Spec.KeyMissing);
      }
      if KeyId(key.value) != core.keyId {
        return Err(Spec.KeyInvalid);
      }
      result := RestoreFiles(key.value, core.keyId, core.files);
    }
  }

  /** What a verification reports. */
  datatype Receipt = Receipt(fileCount: int, sourceBytes: int, chunkCount: int, verifiedObjectCount: int)

  function Promised(t: Spec.Totals): Receipt { Receipt(t.fileCount, t.sourceBytes, t.chunkCount, t.uniqueObjectCount) }

  ghost function Counted(files: seq<Spec.FileEntry>): Receipt {
    Receipt(|files|, Spec.SumSizes(files), Spec.CountChunks(files), |Spec.ObjectIdsOf(files)|)
  }

  ghost predicate Verified(files: seq<Spec.FileEntry>, sourceBytes: int, chunkCount: int, ids: set<ObjectId>) {
    sourceBytes == Spec.SumSizes(files) && chunkCount == Spec.CountChunks(files) && ids == Spec.ObjectIdsOf(files)
  }

  lemma OneMoreVerified(files: seq<Spec.FileEntry>, i: nat, sourceBytes: int, chunkCount: int, ids: set<ObjectId>)
    requires i < |files| && Verified(files[..i], sourceBytes, chunkCount, ids)
    ensures Verified(files[..i + 1], sourceBytes + files[i].size, chunkCount + |files[i].chunks|, ids + Spec.ObjectIdsOf([files[i]]))
  {
    assert files[..i + 1] == files[..i] + [files[i]];
    CountsSnoc(files[..i], files[i]);
    ObjectIdsSnoc(files[..i], files[i]);
  }

  /** State of the inner loop after `i` chunks, from the tally `t0`. */
  ghost predicate ChunksArchived(c: Crypto, key: Key, parts: seq<Bytes>, i: nat, t0: Spec.Tally,
                                 chunks: seq<Spec.Descriptor>, offset: nat, t: Spec.Tally)
  {
    && i <= |parts|
    && chunks == Spec.DescribeAll(c, key, parts[..i])
    && offset == |Flatten(parts[..i])|
    && t == Spec.StoreAll(c, key, t0, parts[..i])
  }

  lemma NextChunk(c: Crypto, key: Key, parts: seq<Bytes>, i: nat, t0: Spec.Tally, chunks: seq<Spec.Descriptor>,
                  offset: nat, t: Spec.Tally)
    requires i < |parts| && ChunksArchived(c, key, parts, i, t0, chunks, offset, t)
    ensures ChunksArchived(c, key, parts, i + 1, t0, chunks + [Spec.Describe(c, key, parts[i], offset)], offset + |parts[i]|,
                           Spec.StoreChunk(c, key, t, parts[i]))
  {
    assert parts[..i + 1] == parts[..i] + [parts[i]];
    FlattenSnoc(parts[..i], parts[i]);
    assert parts[..i + 1][..i] == parts[..i];
  }

  /** State of the outer loop after `i` files. */
  ghost predicate FilesArchived(c: Crypto, key: Key, l: ChunkLimits, files: seq<Spec.CollectedFile>, i: nat,
                                objects: map<ObjectKey, Bytes>, entries: seq<Spec.FileEntry>, t: Spec.Tally)
    requires ValidChunkLimits(l)
  {
    && i <= |files|
    && entries == Spec.EntriesOf(c, key, l, files[..i])
    && t == Spec.StoreFiles(c, key, l, Spec.StartTally(objects), files[..i])
  }

  lemma NextFile(c: Crypto, key: Key, l: ChunkLimits, files: seq<Spec.CollectedFile>, i: nat,
                 objects: map<ObjectKey, Bytes>, entries: seq<Spec.FileEntry>, t: Spec.Tally)
    requires ValidChunkLimits(l) && i < |files| && FilesArchived(c, key, l, files, i, objects, entries, t)
    ensures FilesArchived(c, key, l, files, i + 1, objects, entries + [Spec.EntryOf(c, key, l, files[i].path, files[i].bytes)],
                          Spec.StoreAll(c, key, t, ChunksOf(l, files[i].bytes)))
  {
    assert files[..i + 1][..i] == files[..i];
    EntriesSnoc(c, key, l, files[..i + 1]);
  }

  function CoreFor(w: string, key: Key, r: Spec.Request, entries: seq<Spec.FileEntry>, t: Spec.Tally): Spec.Core {
    Spec.Core(w, r.createdAt, Spec.TitleOf(r), r.sourcePath, r.limits.chunk, KeyId(key), r.limits, entries, r.skipped,
              Spec.Totals(|entries|, Spec.SumSizes(entries), t.chunkCount, |t.seen|, t.uniqueObjectBytes, t.reusedObjectCount))
  }

  /** The specification of create, in terms of what the loops have computed. */
  lemma CreateValue(c: Crypto, w: string, v: Spec.Vault, r: Spec.Request, freshKey: Key, ledgerAccepts: bool, done: nat,
                    entries: seq<Spec.FileEntry>, t: Spec.Tally)
    requires Spec.ValidLimits(r.limits) && Spec.WithinLimits(r) && r.files != []
    requires FilesArchived(c, Spec.KeyFor(v, freshKey), r.limits.chunk, r.files, done, v.objects, entries, t)
    requires done == |Spec.Unchanged(r.files)|
    ensures Spec.Create(c, w, v, r, freshKey, ledgerAccepts) ==
            var key := Spec.KeyFor(v, freshKey);
            var core := CoreFor(w, key, r, entries, t);
            var id := Spec.ArchiveId(core);
            if done < |r.files| then (Spec.Vault(t.objects, v.manifests, Some(key)), Err(Spec.SourceChanged))
            else if ledgerAccepts then (Spec.Vault(t.objects, v.manifests[id := core], Some(key)), Ok(id))
            else (Spec.Vault(t.objects, v.manifests - {id}, Some(key)), Err(Spec.LedgerRejected))
  {
    assert Spec.Unchanged(r.files) == r.files[..done];
    assert done == |r.files| ==> r.files[..done] == r.files;
  }

  lemma CollectValue(v: Spec.Vault, w: string, objects: map<ObjectKey, Bytes>, removed: set<ObjectKey>)
    requires forall id :: id in v.manifests ==> Spec.Readable(v.manifests[id], id, w)
    requires forall k :: k in removed <==> k in v.objects && k !in Spec.Retained(v.manifests)
    requires forall k :: k in objects <==> k in v.objects && k in Spec.Retained(v.manifests)
    requires forall k :: k in objects ==> objects[k] == v.objects[k]
    ensures Spec.Collect(v, w, true) == (v.(objects := objects), Ok(removed))
  {
    SplitIs(v.objects, Spec.Retained(v.manifests), objects, removed);
  }

  lemma SplitIs(all: map<ObjectKey, Bytes>, retained: set<ObjectKey>, objects: map<ObjectKey, Bytes>,
                removed: set<ObjectKey>)
    requires forall k :: k in removed <==> k in all && k !in retained
    requires forall k :: k in objects <==> k in all && k in retained
    requires forall k :: k in objects ==> objects[k] == all[k]
    ensures objects == Spec.KeptOf(all, retained) && removed == Spec.SweptOf(all, retained)
  {
  }

  lemma {:induction false} ReadErrorStays(c: Crypto, v: Spec.Vault, key: Key, keyId: KeyId,
                                          chunks: seq<Spec.Descriptor>, n: nat, e: Spec.ArchiveError)
    requires n <= |chunks| && Spec.ReadChunks(c, v, key, keyId, chunks[..n]) == Err(e)
    ensures Spec.ReadChunks(c, v, key, keyId, chunks) == Err(e)
    decreases |chunks|
  {
    if n == |chunks| {
      assert chunks[..n] == chunks;
    } else {
      assert chunks[..|chunks| - 1][..n] == chunks[..n];
      ReadErrorStays(c, v, key, keyId, chunks[..|chunks| - 1], n, e);
    }
  }

  lemma {:induction false} RestoreErrorStays(c: Crypto, v: Spec.Vault, key: Key, keyId: KeyId,
                                             files: seq<Spec.FileEntry>, n: nat, e: Spec.ArchiveError)
    requires n <= |files| && Spec.RestoreFiles(c, v, key, keyId, files[..n]) == Err(e)
    ensures Spec.RestoreFiles(c, v, key, keyId, files) == Err(e)
    decreases |files|
  {
    if n == |files| {
      assert files[..n] == files;
    } else {
      assert files[..|files| - 1][..n] == files[..n];
      RestoreErrorStays(c, v, key, keyId, files[..|files| - 1], n, e);
    }
  }
}
