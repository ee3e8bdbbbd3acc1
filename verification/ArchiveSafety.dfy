/**
 * What every run of the archive keeps: stored objects open to the chunk their name promises, every
 * listed manifest has its objects, and a valid archive restores byte for byte while its key lives.
 */
module ArchiveSafety {
  import opened Common
  import opened Chunker
  import opened SealedObject
  import opened ContentArchive
  import opened ArchiveManifests
  import opened ArchiveManifestSize

  // ---------- the invariant ----------

  ghost predicate ObjectsSound(c: Crypto, objects: map<(KeyId, ObjectId), Bytes>) {
    forall k :: k in objects ==> objects[k] == Payload(c, k.0.key, k.1.hash.message)
  }

  ghost predicate MadeFile(c: Crypto, core: Core, i: nat)
    requires ValidChunkLimits(core.limits.chunk) && i < |core.files|
  {
    core.files[i] == EntryOf(c, core.keyId.key, core.limits.chunk, core.files[i].path, core.files[i].contentHash.message)
  }

  ghost predicate Made(c: Crypto, core: Core) {
    && ValidChunkLimits(core.limits.chunk)
    && forall i :: 0 <= i < |core.files| ==> MadeFile(c, core, i)
  }

  ghost predicate Present(objects: map<(KeyId, ObjectId), Bytes>, core: Core) {
    forall o :: o in ObjectIdsOf(core.files) ==> (core.keyId, o) in objects
  }

  ghost predicate Inv(c: Crypto, v: Vault) {
    && ObjectsSound(c, v.objects)
    && forall id :: id in v.manifests ==> id == ArchiveId(v.manifests[id]) && Made(c, v.manifests[id]) && Present(v.objects, v.manifests[id])
  }

  // ---------- restore ----------

  lemma ReadDescribed(c: Crypto, v: Vault, key: Key, chunk: Bytes, offset: nat)
    requires Lawful(c) && ObjectsSound(c, v.objects) && (KeyId(key), ObjectId(Sha256(chunk))) in v.objects
    ensures ReadObject(c, v, key, KeyId(key), Describe(c, key, chunk, offset)) == Ok(chunk)
  {
    PayloadOpens(c, key, chunk);
    var k := (KeyId(key), ObjectId(Sha256(chunk)));
    assert v.objects[k] == Payload(c, k.0.key, k.1.hash.message);
  }

  lemma {:induction false} ReadAllDescribed(c: Crypto, v: Vault, key: Key, chunks: seq<Bytes>)
    requires Lawful(c) && ObjectsSound(c, v.objects)
    requires forall i :: 0 <= i < |chunks| ==> (KeyId(key), ObjectId(Sha256(chunks[i]))) in v.objects
    ensures ReadChunks(c, v, key, KeyId(key), DescribeAll(c, key, chunks)) == Ok(Flatten(chunks))
  {
    if chunks != [] {
      var before, last := chunks[..|chunks| - 1], chunks[|chunks| - 1];
      ReadAllDescribed(c, v, key, before);
      ReadDescribed(c, v, key, last, |Flatten(before)|);
      LastOff(chunks);
      FlattenSnoc(before, last);
      var ds := DescribeAll(c, key, chunks);
      assert ds[..|ds| - 1] == DescribeAll(c, key, before);
    }
  }

  lemma RestoreMadeFile(c: Crypto, v: Vault, key: Key, l: ChunkLimits, path: string, bytes: Bytes)
    requires Lawful(c) && ObjectsSound(c, v.objects) && ValidChunkLimits(l)
    requires forall o :: o in ObjectIdsOf([EntryOf(c, key, l, path, bytes)]) ==> (KeyId(key), o) in v.objects
    ensures RestoreFile(c, v, key, KeyId(key), EntryOf(c, key, l, path, bytes)) == Ok(Restored(path, bytes))
  {
    var chunks := ChunksOf(l, bytes);
    OutputIsChunksOf(l, bytes, chunks);
    EntryIds(c, key, l, path, bytes);
    forall i | 0 <= i < |chunks| ensures (KeyId(key), ObjectId(Sha256(chunks[i]))) in v.objects {
      assert ObjectId(Sha256(chunks[i])) in IdsOf(chunks);
    }
    ReadAllDescribed(c, v, key, chunks);
  }

  /** The files an archive was made from. */
  function Originals(files: seq<FileEntry>): seq<Restored> {
    seq(|files|, i requires 0 <= i < |files| => Restored(files[i].path, files[i].contentHash.message))
  }

  lemma {:induction false} RestoreMadeFiles(c: Crypto, v: Vault, key: Key, l: ChunkLimits, files: seq<FileEntry>)
    requires Lawful(c) && ObjectsSound(c, v.objects) && ValidChunkLimits(l)
    requires forall i :: 0 <= i < |files| ==> files[i] == EntryOf(c, key, l, files[i].path, files[i].contentHash.message)
    requires forall o :: o in ObjectIdsOf(files) ==> (KeyId(key), o) in v.objects
    ensures RestoreFiles(c, v, key, KeyId(key), files) == Ok(Originals(files))
  {
    if files == [] {
      assert Originals(files) == [];
    } else {
      var before, last := files[..|files| - 1], files[|files| - 1];
      LastOff(files);
      ObjectIdsSnoc(before, last);
      RestoreMadeFiles(c, v, key, l, before);
      RestoreMadeFile(c, v, key, l, last.path, last.contentHash.message);
      OriginalsSnoc(before, last);
    }
  }

  lemma OriginalsSnoc(before: seq<FileEntry>, last: FileEntry)
    ensures Originals(before + [last]) == Originals(before) + [Restored(last.path, last.contentHash.message)]
  {
  }

  lemma RestoreMade(c: Crypto, v: Vault, core: Core)
    requires Lawful(c) && ObjectsSound(c, v.objects) && Made(c, core) && Present(v.objects, core)
    ensures RestoreFiles(c, v, core.keyId.key, core.keyId, core.files) == Ok(Originals(core.files))
  {
    var files, key, l := core.files, core.keyId.key, core.limits.chunk;
    forall i | 0 <= i < |files| ensures files[i] == EntryOf(c, key, l, files[i].path, files[i].contentHash.message) {
      assert MadeFile(c, core, i);
    }
    RestoreMadeFiles(c, v, key, l, files);
  }

  /** A listed, valid archive restores to exactly its files exactly when the vault holds its key. */
  lemma RestoreIsExact(c: Crypto, w: string, v: Vault, id: ArchiveId)
    requires Lawful(c) && Inv(c, v) && id in v.manifests && Readable(v.manifests[id], id, w)
    ensures var core := v.manifests[id];
            if v.key == Some(core.keyId.key) then Restore(c, v, w, id) == Ok(Originals(core.files))
            else Restore(c, v, w, id) == Err(if v.key.None? then KeyMissing else KeyInvalid)
  {
    var core := v.manifests[id];
    RestoreMade(c, v, core);
  }

  // ---------- every step keeps the invariant ----------

  /** Nothing is lost or changed, only added. */
  ghost predicate Extends(a: map<(KeyId, ObjectId), Bytes>, b: map<(KeyId, ObjectId), Bytes>) {
    forall k :: k in a ==> k in b && b[k] == a[k]
  }

  lemma {:induction false} StoreAllKeeps(c: Crypto, key: Key, t: Tally, chunks: seq<Bytes>)
    requires ObjectsSound(c, t.objects)
    ensures ObjectsSound(c, StoreAll(c, key, t, chunks).objects)
    ensures Extends(t.objects, StoreAll(c, key, t, chunks).objects)
  {
    if chunks != [] {
      StoreAllKeeps(c, key, t, chunks[..|chunks| - 1]);
    }
  }

  lemma {:induction false} StoreFilesKeeps(c: Crypto, key: Key, l: ChunkLimits, t: Tally, files: seq<CollectedFile>)
    requires ValidChunkLimits(l) && ObjectsSound(c, t.objects)
    ensures ObjectsSound(c, StoreFiles(c, key, l, t, files).objects)
    ensures Extends(t.objects, StoreFiles(c, key, l, t, files).objects)
  {
    if files != [] {
      StoreFilesKeeps(c, key, l, t, files[..|files| - 1]);
      StoreAllKeeps(c, key, StoreFiles(c, key, l, t, files[..|files| - 1]), ChunksOf(l, files[|files| - 1].bytes));
    }
  }

  /** The files of a request, as a restore should give them back. */
  function Given(r: Request): seq<Restored> {
    seq(|r.files|, i requires 0 <= i < |r.files| => Restored(r.files[i].path, r.files[i].bytes))
  }

  lemma MakeCoreIsMade(c: Crypto, w: string, key: Key, r: Request, t: Tally)
    requires ValidChunkLimits(r.limits.chunk)
    ensures Made(c, MakeCore(c, w, key, r, t))
    ensures Originals(MakeCore(c, w, key, r, t).files) == Given(r)
  {
  }

  lemma CreatedIsPresent(c: Crypto, w: string, key: Key, r: Request, objects: map<(KeyId, ObjectId), Bytes>)
    requires Lawful(c) && ValidChunkLimits(r.limits.chunk)
    ensures Present(StoreFiles(c, key, r.limits.chunk, StartTally(objects), r.files).objects, CreatedCore(c, w, objects, key, r))
  {
    StoreFilesOk(c, key, r.limits.chunk, objects, r.files);
  }

  lemma InvWithMore(c: Crypto, v: Vault, v': Vault)
    requires Inv(c, v) && Extends(v.objects, v'.objects) && ObjectsSound(c, v'.objects)
    requires forall id :: id in v'.manifests ==> id in v.manifests && v'.manifests[id] == v.manifests[id]
    ensures Inv(c, v')
  {
    forall id | id in v'.manifests
      ensures id == ArchiveId(v'.manifests[id]) && Made(c, v'.manifests[id]) && Present(v'.objects, v'.manifests[id])
    {
      assert Present(v.objects, v.manifests[id]);
    }
  }

  lemma InvWithManifest(c: Crypto, v: Vault, core: Core)
    requires Inv(c, v) && Made(c, core) && Present(v.objects, core)
    ensures Inv(c, v.(manifests := v.manifests[ArchiveId(core) := core]))
  {
  }

  lemma CreateKeepsInv(c: Crypto, w: string, v: Vault, r: Request, freshKey: Key, ledgerAccepts: bool)
    requires Lawful(c) && Inv(c, v)
    ensures Inv(c, Create(c, w, v, r, freshKey, ledgerAccepts).0)
  {
    if ValidLimits(r.limits) && WithinLimits(r) && r.files != [] {
      var key := KeyFor(v, freshKey);
      var l := r.limits.chunk;
      var good := Unchanged(r.files);
      StoreFilesKeeps(c, key, l, StartTally(v.objects), good);
      var t := StoreFiles(c, key, l, StartTally(v.objects), good);
      var stored := Vault(t.objects, v.manifests, Some(key));
      InvWithMore(c, v, stored);
      if |good| == |r.files| {
        assert good == r.files;
        MakeCoreIsMade(c, w, key, r, t);
        CreatedIsPresent(c, w, key, r, v.objects);
        InvWithManifest(c, stored, MakeCore(c, w, key, r, t));
        InvWithMore(c, stored, stored.(manifests := v.manifests - {ArchiveId(MakeCore(c, w, key, r, t))}));
      }
    }
  }

  lemma CollectKeepsInv(c: Crypto, w: string, v: Vault, confirmed: bool)
    requires Inv(c, v)
    ensures Inv(c, Collect(v, w, confirmed).0)
  {
    var v' := Collect(v, w, confirmed).0;
    forall id | id in v'.manifests ensures Present(v'.objects, v'.manifests[id]) {
      var core := v.manifests[id];
      assert Present(v.objects, core);
      forall o | o in ObjectIdsOf(core.files) ensures (core.keyId, o) in v'.objects {
        assert (core.keyId, o) in Retained(v.manifests);
      }
    }
  }

  lemma DeleteKeepsInv(c: Crypto, w: string, v: Vault, id: ArchiveId, confirm: ArchiveId, ledgerAccepts: bool)
    requires Inv(c, v)
    ensures Inv(c, Delete(v, w, id, confirm, ledgerAccepts).0)
  {
    InvWithMore(c, v, Delete(v, w, id, confirm, ledgerAccepts).0);
  }

  lemma EraseKeepsInv(c: Crypto, v: Vault, confirmed: bool, ledgerAccepts: bool)
    requires Inv(c, v)
    ensures Inv(c, EraseKey(v, confirmed, ledgerAccepts).0)
  {
    InvWithMore(c, v, EraseKey(v, confirmed, ledgerAccepts).0);
  }

  lemma StepKeepsInv(c: Crypto, w: string, v: Vault, op: Op)
    requires Lawful(c) && Inv(c, v)
    ensures Inv(c, Apply(c, w, v, op))
  {
    match op
    case CreateOp(r, freshKey, ledgerAccepts) => CreateKeepsInv(c, w, v, r, freshKey, ledgerAccepts);
    case DeleteOp(id, confirm, ledgerAccepts) => DeleteKeepsInv(c, w, v, id, confirm, ledgerAccepts);
    case CollectOp(confirmed) => CollectKeepsInv(c, w, v, confirmed);
    case EraseOp(confirmed, ledgerAccepts) => EraseKeepsInv(c, v, confirmed, ledgerAccepts);
  }

  lemma EmptyVaultIsSound(c: Crypto)
    ensures Inv(c, EMPTY_VAULT)
  {
  }

  /** Every run from the empty vault, or from any vault that satisfies it, keeps the invariant. */
  lemma {:induction false} RunKeepsInv(c: Crypto, w: string, v: Vault, ops: seq<Op>)
    requires Lawful(c) && Inv(c, v)
    ensures Inv(c, Run(c, w, v, ops))
  {
    if ops != [] {
      RunKeepsInv(c, w, v, ops[..|ops| - 1]);
      StepKeepsInv(c, w, Run(c, w, v, ops[..|ops| - 1]), ops[|ops| - 1]);
    }
  }

  // ---------- how an archive is lost ----------

  /** Nothing stops this create before it writes its manifest. */
  predicate Completes(r: Request) {
    && ValidLimits(r.limits) && WithinLimits(r) && r.files != []
    && forall i :: 0 <= i < |r.files| ==> |r.files[i].bytes| == r.files[i].statSize
  }

  /**
   * An archive is lost by its own confirmed deletion, whether the ledger then accepts it or not, or by a create that wrote the very same manifest
   * again and rolled it back because the ledger rejected its event.
   */
  predicate Removes(c: Crypto, w: string, v: Vault, op: Op, id: ArchiveId) {
    match op
    case DeleteOp(other, confirm, _) => other == id && confirm == id && Readable(id.core, id, w)
    case CreateOp(r, freshKey, ledgerAccepts) =>
      !ledgerAccepts && Completes(r) && ArchiveId(CreatedCore(c, w, v.objects, KeyFor(v, freshKey), r)) == id
    case _ => false
  }

  lemma CompletesIsUnchanged(r: Request)
    requires ValidLimits(r.limits) && WithinLimits(r) && r.files != []
    ensures Completes(r) <==> Unchanged(r.files) == r.files
  {
    if |Unchanged(r.files)| == |r.files| {
      assert Unchanged(r.files) == r.files;
    }
  }

  /** Exactly these operations lose a listed archive; all others leave it as it is. */
  lemma LostExactlyWhen(c: Crypto, w: string, v: Vault, op: Op, id: ArchiveId)
    requires Inv(c, v) && id in v.manifests
    ensures id !in Apply(c, w, v, op).manifests <==> Removes(c, w, v, op, id)
    ensures id in Apply(c, w, v, op).manifests ==> Apply(c, w, v, op).manifests[id] == id.core
  {
    assert v.manifests[id] == id.core;
    if op.CreateOp? {
      var r := op.request;
      if ValidLimits(r.limits) && WithinLimits(r) && r.files != [] {
        CompletesIsUnchanged(r);
      }
    }
  }

  predicate Erases(op: Op) { op.EraseOp? && op.eraseConfirmed }

  lemma KeyLostExactlyWhen(c: Crypto, w: string, v: Vault, op: Op)
    requires v.key.Some?
    ensures Apply(c, w, v, op).key == if Erases(op) then None else v.key
  {
  }

  // ---------- runs ----------

  /** No operation of the run loses the archive in the state it meets. */
  predicate Spares(c: Crypto, w: string, v: Vault, ops: seq<Op>, id: ArchiveId) {
    ops == [] || (Spares(c, w, v, ops[..|ops| - 1], id) && !Removes(c, w, Run(c, w, v, ops[..|ops| - 1]), ops[|ops| - 1], id))
  }

  predicate KeepsKey(ops: seq<Op>) {
    ops == [] || (KeepsKey(ops[..|ops| - 1]) && !Erases(ops[|ops| - 1]))
  }

  /** At every moment of the run, the first and the last included, restore returns these files. */
  predicate RestoresThroughout(c: Crypto, w: string, v: Vault, ops: seq<Op>, id: ArchiveId, files: seq<Restored>) {
    && Restore(c, Run(c, w, v, ops), w, id) == Ok(files)
    && (ops == [] || RestoresThroughout(c, w, v, ops[..|ops| - 1], id, files))
  }

  ghost predicate Alive(c: Crypto, w: string, v: Vault, id: ArchiveId) {
    Inv(c, v) && id in v.manifests && v.key == Some(id.core.keyId.key) && Readable(id.core, id, w)
  }

  /** One operation on a vault in which the archive restores. */
  lemma AliveStep(c: Crypto, w: string, v: Vault, op: Op, id: ArchiveId)
    requires Lawful(c) && Alive(c, w, v, id)
    ensures var v' := Apply(c, w, v, op);
            if Removes(c, w, v, op, id) || Erases(op) then Restore(c, v', w, id).Err?
            else Alive(c, w, v', id) && Restore(c, v', w, id) == Ok(Originals(id.core.files))
  {
    var v' := Apply(c, w, v, op);
    StepKeepsInv(c, w, v, op);
    LostExactlyWhen(c, w, v, op, id);
    KeyLostExactlyWhen(c, w, v, op);
    if id in v'.manifests && v'.key.Some? {
      RestoreIsExact(c, w, v', id);
    }
  }

  lemma {:induction false} ThroughoutExactlyWhen(c: Crypto, w: string, v: Vault, ops: seq<Op>, id: ArchiveId)
    requires Lawful(c) && Alive(c, w, v, id)
    ensures RestoresThroughout(c, w, v, ops, id, Originals(id.core.files)) <==> Spares(c, w, v, ops, id) && KeepsKey(ops)
    ensures Spares(c, w, v, ops, id) && KeepsKey(ops) ==> Alive(c, w, Run(c, w, v, ops), id)
  {
    if ops == [] {
      assert v.manifests[id] == id.core;
      RestoreIsExact(c, w, v, id);
    } else {
      var before, last := ops[..|ops| - 1], ops[|ops| - 1];
      ThroughoutExactlyWhen(c, w, v, before, id);
      if Spares(c, w, v, before, id) && KeepsKey(before) {
        AliveStep(c, w, Run(c, w, v, before), last, id);
        assert Run(c, w, v, ops) == Apply(c, w, Run(c, w, v, before), last);
      }
    }
  }

  lemma {:induction false} ThroughoutFromStart(c: Crypto, w: string, v: Vault, ops: seq<Op>, id: ArchiveId,
                                               files: seq<Restored>)
    requires RestoresThroughout(c, w, v, ops, id, files)
    ensures Restore(c, v, w, id) == Ok(files)
  {
    if ops != [] {
      ThroughoutFromStart(c, w, v, ops[..|ops| - 1], id, files);
    }
  }

  lemma ListedSurvives(c: Crypto, w: string, v: Vault, ops: seq<Op>, id: ArchiveId)
    requires Lawful(c) && Inv(c, v) && id in v.manifests && v.key == Some(id.core.keyId.key)
    ensures RestoresThroughout(c, w, v, ops, id, Originals(id.core.files)) <==>
              Readable(id.core, id, w) && Spares(c, w, v, ops, id) && KeepsKey(ops)
  {
    if Readable(id.core, id, w) {
      ThroughoutExactlyWhen(c, w, v, ops, id);
    } else if RestoresThroughout(c, w, v, ops, id, Originals(id.core.files)) {
      ThroughoutFromStart(c, w, v, ops, id, Originals(id.core.files));
    }
  }

  /** Create lists what it made, under the vault's key; readers accept it exactly as stated. */
  lemma CreateSucceeds(c: Crypto, w: string, v: Vault, r: Request, freshKey: Key, created: Vault, id: ArchiveId)
    requires Lawful(c) && Inv(c, v) && CollectedWell(r)
    requires Create(c, w, v, r, freshKey, true) == (created, Ok(id))
    ensures Inv(c, created) && created.key == Some(id.core.keyId.key)
    ensures id in created.manifests && created.manifests[id] == id.core && Originals(id.core.files) == Given(r)
    ensures Readable(id.core, id, w) <==> GoodNames(r) && ManifestBytes(id.core) <= MAX_MANIFEST_BYTES
  {
    var key := KeyFor(v, freshKey);
    assert Unchanged(r.files) == r.files;
    var t := StoreFiles(c, key, r.limits.chunk, StartTally(v.objects), r.files);
    assert id.core == MakeCore(c, w, key, r, t) == CreatedCore(c, w, v.objects, key, r);
    CreatedManifestReadableIff(c, w, v.objects, key, r);
    MakeCoreIsMade(c, w, key, r, t);
    CreateKeepsInv(c, w, v, r, freshKey, true);
  }

  /**
   * Main result: after a successful create, restore returns exactly the archived files at every
   * moment of a run if and only if the names are good, the manifest is not too large, no operation
   * loses the archive and none erases the key.
   */
  lemma ArchiveSurvives(c: Crypto, w: string, v: Vault, r: Request, freshKey: Key, created: Vault, id: ArchiveId,
                        ops: seq<Op>)
    requires Lawful(c) && Inv(c, v) && CollectedWell(r)
    requires Create(c, w, v, r, freshKey, true) == (created, Ok(id))
    ensures RestoresThroughout(c, w, created, ops, id, Given(r)) <==>
              && GoodNames(r) && ManifestBytes(id.core) <= MAX_MANIFEST_BYTES
              && Spares(c, w, created, ops, id) && KeepsKey(ops)
  {
    CreateSucceeds(c, w, v, r, freshKey, created, id);
    ListedSurvives(c, w, created, ops, id);
  }

  // ---------- the rolled-back create ----------

  lemma {:induction false} StoreAgain(c: Crypto, key: Key, t: Tally, chunks: seq<Bytes>)
    requires forall o :: o in IdsOf(chunks) ==> (KeyId(key), o) in t.objects
    ensures StoreAll(c, key, t, chunks).objects == t.objects
  {
    if chunks != [] {
      var before, last := chunks[..|chunks| - 1], chunks[|chunks| - 1];
      LastOff(chunks);
      IdsSnoc(before, last);
      StoreAgain(c, key, t, before);
    }
  }

  /** Storing files whose objects are all there changes no object. */
  lemma {:induction false} StoreFilesAgain(c: Crypto, key: Key, l: ChunkLimits, objects: map<(KeyId, ObjectId), Bytes>,
                                           files: seq<CollectedFile>)
    requires ValidChunkLimits(l)
    requires forall o :: o in ObjectIdsOf(EntriesOf(c, key, l, files)) ==> (KeyId(key), o) in objects
    ensures StoreFiles(c, key, l, StartTally(objects), files).objects == objects
  {
    if files != [] {
      var before, last := files[..|files| - 1], files[|files| - 1];
      EntriesSnoc(c, key, l, files);
      ObjectIdsSnoc(EntriesOf(c, key, l, before), EntryOf(c, key, l, last.path, last.bytes));
      EntryIds(c, key, l, last.path, last.bytes);
      StoreFilesAgain(c, key, l, objects, before);
      StoreAgain(c, key, StoreFiles(c, key, l, StartTally(objects), before), ChunksOf(l, last.bytes));
    }
  }

  /** A create that repeats what the vault already holds changes no object. */
  lemma CreateAgain(c: Crypto, w: string, v: Vault, r: Request, freshKey: Key, created: Vault, id: ArchiveId)
    requires Lawful(c) && Create(c, w, v, r, freshKey, true) == (created, Ok(id))
    ensures StoreFiles(c, created.key.value, r.limits.chunk, StartTally(created.objects), r.files).objects == created.objects
  {
    var key := KeyFor(v, freshKey);
    assert Unchanged(r.files) == r.files;
    CreatedIsPresent(c, w, key, r, v.objects);
    StoreFilesAgain(c, key, r.limits.chunk, created.objects, r.files);
  }

  /**
   * What the rollback costs: archive the same files twice, and the second archive, though listed and
   * restorable, is removed by a third create at the same time whose event the ledger rejects.
   */
  lemma RejectedCreateLosesArchive(c: Crypto, w: string, v: Vault, r: Request, freshKey: Key, first: Vault,
                                   firstId: ArchiveId, second: Vault, id: ArchiveId)
    requires Lawful(c) && Inv(c, v)
    requires Create(c, w, v, r, freshKey, true) == (first, Ok(firstId))
    requires Create(c, w, first, r, freshKey, true) == (second, Ok(id))
    ensures id in second.manifests
    ensures Create(c, w, second, r, freshKey, false) == (second.(manifests := second.manifests - {id}), Err(LedgerRejected))
    ensures Restore(c, Create(c, w, second, r, freshKey, false).0, w, id) == Err(NotFound)
  {
    CreateAgain(c, w, v, r, freshKey, first, firstId);
    assert Unchanged(r.files) == r.files;
    assert second.objects == first.objects && second.key == first.key;
  }

  // ---------- garbage collection ----------

  ghost predicate AllListedValid(v: Vault, w: string) {
    forall id :: id in v.manifests ==> Readable(v.manifests[id], id, w)
  }

  /** Some listed manifest refers to this object. */
  ghost predicate Referenced(v: Vault, keyId: KeyId, o: ObjectId) {
    exists id :: id in v.manifests && v.manifests[id].keyId == keyId && o in ObjectIdsOf(v.manifests[id].files)
  }

  /** Garbage collection removes exactly the objects no listed manifest refers to, and nothing else. */
  lemma CollectIsExact(w: string, v: Vault, keyId: KeyId, o: ObjectId)
    requires AllListedValid(v, w)
    ensures var (v', result) := Collect(v, w, true);
            && result.Ok?
            && v'.manifests == v.manifests && v'.key == v.key && Extends(v'.objects, v.objects)
            && ((keyId, o) in v'.objects <==> (keyId, o) in v.objects && Referenced(v, keyId, o))
            && ((keyId, o) in result.value <==> (keyId, o) in v.objects && !Referenced(v, keyId, o))
  {
    assert (keyId, o) in Retained(v.manifests) <==> Referenced(v, keyId, o);
  }

  /** Collecting a second time removes nothing. */
  lemma CollectTwice(w: string, v: Vault)
    requires AllListedValid(v, w)
    ensures var v' := Collect(v, w, true).0; Collect(v', w, true) == (v', Ok({}))
  {
    KeptTwice(v.objects, Retained(v.manifests));
  }

  lemma KeptTwice(objects: map<(KeyId, ObjectId), Bytes>, retained: set<(KeyId, ObjectId)>)
    ensures var kept := KeptOf(objects, retained); KeptOf(kept, retained) == kept && SweptOf(kept, retained) == {}
  {
  }

  /** It changes no restore. */
  lemma CollectKeepsRestores(c: Crypto, w: string, v: Vault, id: ArchiveId)
    requires Lawful(c) && Inv(c, v) && id in v.manifests && Readable(v.manifests[id], id, w)
    ensures Restore(c, Collect(v, w, true).0, w, id) == Restore(c, v, w, id)
  {
    CollectKeepsInv(c, w, v, true);
    RestoreIsExact(c, w, v, id);
    RestoreIsExact(c, w, Collect(v, w, true).0, id);
  }

  // ---------- key erasure ----------

  lemma {:induction false} ErasedKeyStaysAway(c: Crypto, w: string, v: Vault, ops: seq<Op>, erased: Key)
    requires v.key != Some(erased) && forall op :: op in ops && op.CreateOp? ==> op.freshKey != erased
    ensures Run(c, w, v, ops).key != Some(erased)
  {
    if ops != [] {
      ErasedKeyStaysAway(c, w, v, ops[..|ops| - 1], erased);
    }
  }

  /**
   * After the key is erased no archive made under it is ever restored again, in any run whose new
   * keys differ from the erased one.
   */
  lemma EraseIsForever(c: Crypto, w: string, v: Vault, ops: seq<Op>, id: ArchiveId, erased: Key)
    requires v.key == Some(erased)
    requires forall op :: op in ops && op.CreateOp? ==> op.freshKey != erased
    requires id.core.keyId == KeyId(erased)
    ensures EraseKey(v, true, true).1 == Ok(KeyId(erased))
    ensures forall ledgerAccepts :: Restore(c, Run(c, w, EraseKey(v, true, ledgerAccepts).0, ops), w, id).Err?
  {
    ErasedKeyStaysAway(c, w, EraseKey(v, true, true).0, ops, erased);
    assert EraseKey(v, true, false).0 == EraseKey(v, true, true).0;
  }
}
