/**
 * What the archive can be trusted for when its files cannot (src/content-archive.js:323-381, 489-500, 623-720):
 * an object opens only if it was sealed for its place, and a restore that succeeds returns what the manifest
 * names, in any vault whatever. How create fails, and what it leaves behind.
 */
module ArchiveIntegrity {
  import opened Common
  import opened Chunker
  import opened SealedObject
  import opened ContentArchive
  import opened ManifestMeaning

  // ---------- objects ----------

  /** AES-GCM opens nothing but what it would seal itself (NIST SP 800-38D, 7.2). */
  ghost predicate Authentic(c: Crypto) {
    && Lawful(c)
    && forall k: Key, nonce: Bytes, aad: Bytes, s: Sealed ::
         c.open(k, nonce, aad, s).Some? ==> s == c.seal(k, nonce, aad, c.open(k, nonce, aad, s).value)
  }

  function Zeros(n: nat): (r: Bytes)
    ensures |r| == n
  {
    seq(n, _ => 0)
  }

  lemma AuthenticIsConsistent()
    ensures exists c: Crypto :: Authentic(c)
  {
    var c := Crypto(
      d => [],
      (k, data) => Zeros(32),
      (k, nonce, aad, plain) => Sealed(plain, Zeros(16)),
      (k, nonce, aad, s: Sealed) => if s.tag == Zeros(16) then Some(s.ciphertext) else None,
      plain => plain,
      packed => Some(packed));
    assert Lawful(c);
    assert Authentic(c);
  }

  /**
   * The format of a stored object: "QAR1", the codec, the first twelve bytes of the keyed hash of the digest, the
   * tag, the ciphertext; format, codec and digest are authenticated with it.
   */
  ghost function Layout(c: Crypto, key: Key, hash: Digest, code: Byte, body: Bytes): Bytes
    requires Lawful(c)
  {
    var digest := c.rawDigest(hash);
    assert |c.hmac(key, digest)| == 32;
    var nonce := c.hmac(key, digest)[..12];
    var s := c.seal(key, nonce, [0x51, 0x41, 0x52, 0x31, code] + digest, body);
    [0x51, 0x41, 0x52, 0x31, code] + nonce + s.tag + s.ciphertext
  }

  /** What a body stands for: itself under codec 0, its decompression under codec 1. */
  ghost predicate Decodes(c: Crypto, code: Byte, body: Bytes, plain: Bytes) {
    (code == 0 && plain == body) || (code == 1 && c.decompress(body) == Some(plain))
  }

  lemma EncryptIsLayout(c: Crypto, key: Key, hash: Digest, compressed: Compressed)
    requires Lawful(c)
    ensures EncryptObject(c, compressed, hash, key) == Layout(c, key, hash, compressed.code, compressed.bytes)
  {
    assert |c.hmac(key, c.rawDigest(hash))| == 32;
    assert MAGIC + [compressed.code] == [0x51, 0x41, 0x52, 0x31, compressed.code];
  }

  /** A chunk is stored compressed exactly when that saves more than sixteen bytes. */
  lemma StoredAs(c: Crypto, key: Key, chunk: Bytes)
    requires Lawful(c)
    ensures var packed := c.compress(chunk);
            && (chunk != [] && |packed| + 16 < |chunk| ==>
                  Payload(c, key, chunk) == Layout(c, key, Sha256(chunk), 1, packed) && |Payload(c, key, chunk)| == 33 + |packed|)
            && (chunk == [] || |packed| + 16 >= |chunk| ==>
                  Payload(c, key, chunk) == Layout(c, key, Sha256(chunk), 0, chunk) && |Payload(c, key, chunk)| == 33 + |chunk|)
  {
    EncryptIsLayout(c, key, Sha256(chunk), CompressChunk(c, chunk));
  }

  lemma OpenedIsObject(c: Crypto, key: Key, hash: Digest, payload: Bytes)
    requires Authentic(c) && DecryptObject(c, payload, hash, key).Ok?
    ensures exists code: Byte, body: Bytes ::
              payload == Layout(c, key, hash, code, body) && Decodes(c, code, body, DecryptObject(c, payload, hash, key).value)
  {
    var nonce, code := payload[5..17], payload[4];
    var s := Sealed(payload[33..], payload[17..33]);
    assert |c.hmac(key, c.rawDigest(hash))| == 32;
    var unsealed := c.open(key, nonce, AssociatedData(c, code, hash), s);
    var body := unsealed.value;
    assert s == c.seal(key, nonce, AssociatedData(c, code, hash), body);
    assert payload == MAGIC + [code] + nonce + s.tag + s.ciphertext;
    EncryptIsLayout(c, key, hash, Compressed(code, body));
    assert Decodes(c, code, body, DecryptObject(c, payload, hash, key).value);
  }

  lemma ObjectOpens(c: Crypto, key: Key, hash: Digest, code: Byte, body: Bytes, plain: Bytes)
    requires Lawful(c) && Decodes(c, code, body, plain)
    ensures DecryptObject(c, Layout(c, key, hash, code, body), hash, key) == Ok(plain)
  {
    var nonce := Nonce(c, key, hash);
    assert |c.hmac(key, c.rawDigest(hash))| == 32;
    var s := c.seal(key, nonce, AssociatedData(c, code, hash), body);
    assert c.open(key, nonce, AssociatedData(c, code, hash), s) == Some(body);
    EncryptIsLayout(c, key, hash, Compressed(code, body));
    HeaderSlices(code, nonce, s);
  }

  /** Main result: bytes open under a key and a digest exactly when they were sealed for both. */
  lemma OpensExactlyObjects(c: Crypto, key: Key, hash: Digest, payload: Bytes, plain: Bytes)
    requires Authentic(c)
    ensures DecryptObject(c, payload, hash, key) == Ok(plain) <==>
              exists code: Byte, body: Bytes :: payload == Layout(c, key, hash, code, body) && Decodes(c, code, body, plain)
  {
    if DecryptObject(c, payload, hash, key) == Ok(plain) {
      OpenedIsObject(c, key, hash, payload);
    }
    if code: Byte, body: Bytes :| payload == Layout(c, key, hash, code, body) && Decodes(c, code, body, plain) {
      ObjectOpens(c, key, hash, code, body, plain);
    }
  }

  // ---------- restoring from any vault ----------

  ghost predicate PieceAt(bytes: Bytes, at: int, d: Descriptor) {
    0 <= at <= at + d.length <= |bytes| && Sha256(bytes[at..at + d.length]) == d.plaintextHash
  }

  /** The file has its recorded size and hash, and each piece is where and what the manifest says. */
  ghost predicate IsAsRecorded(r: Restored, f: FileEntry) {
    && r.path == f.path && |r.bytes| == f.size && Sha256(r.bytes) == f.contentHash
    && forall d :: d in f.chunks ==> PieceAt(r.bytes, d.offset, d)
  }

  lemma ReadIsNamed(c: Crypto, v: Vault, key: Key, keyId: KeyId, d: Descriptor)
    requires ReadObject(c, v, key, keyId, d).Ok?
    ensures var plain := ReadObject(c, v, key, keyId, d).value; Sha256(plain) == d.plaintextHash && |plain| == d.length
  {
  }

  lemma PieceStays(bytes: Bytes, more: Bytes, at: int, d: Descriptor)
    requires PieceAt(bytes, at, d)
    ensures PieceAt(bytes + more, at, d)
  {
    assert (bytes + more)[at..at + d.length] == bytes[at..at + d.length];
  }

  lemma PieceLast(bytes: Bytes, last: Bytes, d: Descriptor)
    requires Sha256(last) == d.plaintextHash && |last| == d.length
    ensures PieceAt(bytes + last, |bytes|, d)
  {
    assert (bytes + last)[|bytes|..|bytes| + d.length] == last;
  }

  lemma {:induction false} ReadAllIsNamed(c: Crypto, v: Vault, key: Key, keyId: KeyId, chunks: seq<Descriptor>)
    requires ReadChunks(c, v, key, keyId, chunks).Ok?
    ensures var bytes := ReadChunks(c, v, key, keyId, chunks).value;
            && |bytes| == TotalLength(chunks)
            && forall i {:trigger chunks[i]} :: 0 <= i < |chunks| ==> PieceAt(bytes, TotalLength(chunks[..i]), chunks[i])
  {
    if chunks != [] {
      var front, last := chunks[..|chunks| - 1], chunks[|chunks| - 1];
      ReadAllIsNamed(c, v, key, keyId, front);
      ReadIsNamed(c, v, key, keyId, last);
      var before, plain := ReadChunks(c, v, key, keyId, front).value, ReadObject(c, v, key, keyId, last).value;
      forall i | 0 <= i < |chunks| ensures PieceAt(before + plain, TotalLength(chunks[..i]), chunks[i]) {
        if i < |front| {
          assert front[i] == chunks[i] && front[..i] == chunks[..i];
          PieceStays(before, plain, TotalLength(chunks[..i]), chunks[i]);
        } else {
          assert chunks[..i] == front;
          PieceLast(before, plain, last);
        }
      }
    }
  }

  lemma RestoredFile(c: Crypto, v: Vault, key: Key, keyId: KeyId, f: FileEntry, l: Limits)
    requires ValidFile(f, l) && RestoreFile(c, v, key, keyId, f).Ok?
    ensures IsAsRecorded(RestoreFile(c, v, key, keyId, f).value, f)
  {
    ReadAllIsNamed(c, v, key, keyId, f.chunks);
    var bytes := ReadChunks(c, v, key, keyId, f.chunks).value;
    forall d | d in f.chunks ensures PieceAt(bytes, d.offset, d) {
      var i :| 0 <= i < |f.chunks| && f.chunks[i] == d;
      assert ValidDescriptor(f.chunks[i], TotalLength(f.chunks[..i]), l);
    }
  }

  lemma {:induction false} RestoredFiles(c: Crypto, v: Vault, key: Key, keyId: KeyId, files: seq<FileEntry>, l: Limits)
    requires RestoreFiles(c, v, key, keyId, files).Ok? && forall i :: 0 <= i < |files| ==> ValidFile(files[i], l)
    ensures var r := RestoreFiles(c, v, key, keyId, files).value;
            |r| == |files| && forall i :: 0 <= i < |files| ==> IsAsRecorded(r[i], files[i])
  {
    if files != [] {
      var front, last := files[..|files| - 1], files[|files| - 1];
      RestoredFiles(c, v, key, keyId, front, l);
      RestoredFile(c, v, key, keyId, last, l);
    }
  }

  /**
   * Main result: whatever the vault holds, a restore that succeeds returns all files of the manifest its id names,
   * each with its recorded bytes.
   */
  lemma RestoreIsAuthentic(c: Crypto, w: string, v: Vault, id: ArchiveId)
    requires Restore(c, v, w, id).Ok?
    ensures var r := Restore(c, v, w, id).value;
            |r| == |id.core.files| && forall i :: 0 <= i < |r| ==> IsAsRecorded(r[i], id.core.files[i])
    ensures v.key == Some(id.core.keyId.key)
  {
    var core := v.manifests[id];
    assert ValidManifest(core, id, w) && id == ArchiveId(core);
    RestoredFiles(c, v, v.key.value, core.keyId, core.files, core.limits);
  }

  lemma SameRecord(a: seq<Restored>, b: seq<Restored>, files: seq<FileEntry>)
    requires |a| == |b| == |files|
    requires forall i :: 0 <= i < |files| ==> IsAsRecorded(a[i], files[i])
    requires forall i :: 0 <= i < |files| ==> IsAsRecorded(b[i], files[i])
    ensures a == b
  {
    forall i | 0 <= i < |files| ensures a[i] == b[i] {
      assert a[i].bytes == files[i].contentHash.message == b[i].bytes;
    }
  }

  /** So two restores of one archive agree, wherever and whenever they succeed. */
  lemma RestoresAgree(c: Crypto, w: string, v: Vault, c': Crypto, w': string, v': Vault, id: ArchiveId)
    requires Restore(c, v, w, id).Ok? && Restore(c', v', w', id).Ok?
    ensures Restore(c, v, w, id).value == Restore(c', v', w', id).value
  {
    RestoreIsAuthentic(c, w, v, id);
    RestoreIsAuthentic(c', w', v', id);
    SameRecord(Restore(c, v, w, id).value, Restore(c', v', w', id).value, id.core.files);
  }

  // ---------- how create fails ----------

  /** Nothing about the files themselves exceeds a limit. */
  ghost predicate Bounded(r: Request) {
    && |r.files| <= r.limits.maxFiles
    && (forall f :: f in r.files ==> f.statSize <= r.limits.maxFileBytes)
    && SumStat(r.files) <= r.limits.maxTotalBytes
  }

  ghost predicate Changed(f: CollectedFile) { |f.bytes| != f.statSize }

  /** What a caller finds in the manifest of a complete create. */
  ghost predicate Records(core: Core, w: string, r: Request) {
    && core.workspaceId == w && core.createdAt == r.createdAt && core.sourcePath == r.sourcePath
    && core.limits == r.limits && core.chunking == r.limits.chunk && core.skipped == r.skipped
    && (r.givenTitle.None? ==> core.title == r.baseName)
    && (r.givenTitle.Some? ==> core.title <= r.givenTitle.value && |core.title| == Min(160, |r.givenTitle.value|))
    && |core.files| == |r.files|
    && forall i :: 0 <= i < |r.files| ==>
         core.files[i].path == r.files[i].path && core.files[i].contentHash == Sha256(r.files[i].bytes) && core.files[i].size == |r.files[i].bytes|
  }

  lemma BoundedMeans(r: Request)
    ensures WithinLimits(r) <==> Bounded(r)
  {
  }

  lemma ChangedMeans(files: seq<CollectedFile>)
    ensures |Unchanged(files)| == |files| <==> forall f :: f in files ==> !Changed(f)
    ensures |Unchanged(files)| == |files| ==> Unchanged(files) == files
  {
    var good := Unchanged(files);
    if |good| == |files| {
      assert good == files;
    } else {
      assert files[|good|] in files;
    }
  }

  lemma MadeRecords(c: Crypto, w: string, key: Key, r: Request, t: Tally)
    requires ValidChunkLimits(r.limits.chunk)
    ensures Records(MakeCore(c, w, key, r, t), w, r)
  {
  }

  /** Main result: the outcome of a create, by what its caller asked for, and what it leaves behind. */
  lemma CreateOutcome(c: Crypto, w: string, v: Vault, r: Request, freshKey: Key, ledgerAccepts: bool)
    ensures var (after, result) := Create(c, w, v, r, freshKey, ledgerAccepts);
            var started := InRange(r.limits) && Bounded(r) && r.files != [];
            var readable := forall f :: f in r.files ==> !Changed(f);
            && (result == Err(LimitsInvalid) <==> !InRange(r.limits))
            && (result == Err(LimitExceeded) <==> InRange(r.limits) && !Bounded(r))
            && (result == Err(EmptySelection) <==> InRange(r.limits) && Bounded(r) && r.files == [])
            && (result == Err(SourceChanged) <==> started && !readable)
            && (result == Err(LedgerRejected) <==> started && readable && !ledgerAccepts)
            && (result.Ok? <==> started && readable && ledgerAccepts)
            && (!started ==> after == v)
            && (started ==> after.key == Some(if v.key.Some? then v.key.value else freshKey))
            && (result == Err(SourceChanged) ==> after.manifests == v.manifests)
            && (result.Ok? ==>
                  && after.manifests == v.manifests[result.value := result.value.core]
                  && Records(result.value.core, w, r) && Some(result.value.core.keyId.key) == after.key)
  {
    LimitsMean(r.limits);
    BoundedMeans(r);
    ChangedMeans(r.files);
    if ValidLimits(r.limits) {
      var key := KeyFor(v, freshKey);
      MadeRecords(c, w, key, r, StoreFiles(c, key, r.limits.chunk, StartTally(v.objects), Unchanged(r.files)));
    }
  }

  // ---------- what confirmation guards ----------

  /** Some listed manifest is too large or not accepted. */
  ghost predicate AnyUnreadable(v: Vault, w: string) {
    exists id :: id in v.manifests && !Acceptable(v.manifests[id], id, w)
  }

  /** A file of at most 64 MiB that says what an accepted manifest says. */
  ghost predicate Acceptable(core: Core, id: ArchiveId, w: string) {
    && ManifestBytes(core) <= 67_108_864
    && core.workspaceId == w && id.core == core && InRange(core.limits) && core.chunking == core.limits.chunk
    && NamesOk(core) && FilesOk(core) && TotalsCount(core)
  }

  lemma ReadableMeans(core: Core, id: ArchiveId, w: string)
    ensures Readable(core, id, w) <==> Acceptable(core, id, w)
  {
    ValidManifestMeans(core, id, w);
  }

  /** Main result: why a deletion is refused, and that a refused one changes nothing; objects and key always stay. */
  lemma DeletionOutcome(v: Vault, w: string, id: ArchiveId, confirm: ArchiveId, ledgerAccepts: bool)
    ensures var (after, result) := Delete(v, w, id, confirm, ledgerAccepts);
            var allowed := confirm == id && id in v.manifests && Acceptable(v.manifests[id], id, w);
            && (result == Err(NotConfirmed) <==> confirm != id)
            && (result == Err(NotFound) <==> confirm == id && id !in v.manifests)
            && (result == Err(ManifestInvalid) <==> confirm == id && id in v.manifests && !allowed)
            && (result == Err(LedgerRejected) <==> allowed && !ledgerAccepts)
            && (result.Ok? <==> allowed && ledgerAccepts)
            && after == if allowed then Vault(v.objects, v.manifests - {id}, v.key) else v
  {
    if id in v.manifests {
      ReadableMeans(v.manifests[id], id, w);
    }
  }

  /** Likewise for garbage collection and for erasing the key. */
  lemma CollectionOutcome(v: Vault, w: string, confirmed: bool)
    ensures var (after, result) := Collect(v, w, confirmed);
            && (result == Err(NotConfirmed) <==> !confirmed)
            && (result == Err(ManifestInvalid) <==> confirmed && AnyUnreadable(v, w))
            && (result.Ok? <==> confirmed && !AnyUnreadable(v, w))
            && (result.Err? ==> after == v) && after.manifests == v.manifests && after.key == v.key
  {
    forall id | id in v.manifests ensures Readable(v.manifests[id], id, w) <==> Acceptable(v.manifests[id], id, w) {
      ReadableMeans(v.manifests[id], id, w);
    }
  }

  lemma ErasureOutcome(v: Vault, confirmed: bool, ledgerAccepts: bool)
    ensures var (after, result) := EraseKey(v, confirmed, ledgerAccepts);
            var erased := confirmed && v.key.Some?;
            && (result == Err(NotConfirmed) <==> !confirmed)
            && (result == Err(KeyMissing) <==> confirmed && v.key.None?)
            && (result == Err(LedgerRejected) <==> erased && !ledgerAccepts)
            && (result.Ok? <==> erased && ledgerAccepts) && (result.Ok? ==> Some(result.value.key) == v.key)
            && after == if erased then Vault(v.objects, v.manifests, None) else v
  {
  }
}
