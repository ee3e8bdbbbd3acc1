/**
 * The content-addressed archive of src/content-archive.js as functions on a vault: create, delete,
 * garbage collection, key erasure, and restore. Each operation is one atomic step.
 */
module ContentArchive {
  import opened Common
  import opened Chunker
  import opened Decimal
  import opened SealedObject

  // ---------- manifests ----------

  const MAX_SAFE := 9_007_199_254_740_991

  datatype Limits = Limits(maxFiles: nat, maxFileBytes: nat, maxTotalBytes: nat, chunk: ChunkLimits)

  predicate ValidLimits(l: Limits) {
    && 1 <= l.maxFiles <= 100_000
    && 1_024 <= l.maxFileBytes <= 1_073_741_824
    && 1_024 <= l.maxTotalBytes <= 8_589_934_592
    && ValidChunkLimits(l.chunk)
  }

  datatype Descriptor = Descriptor(
    objectId: ObjectId, plaintextHash: Digest, offset: int, length: int, storedBytes: int, brotli: bool)

  datatype FileEntry = FileEntry(path: string, size: int, contentHash: Digest, chunks: seq<Descriptor>)

  datatype SkipReason = Ignored | SecretFilename | LinkedOrNonRegular

  datatype Skipped = Skipped(path: string, reason: SkipReason)

  datatype Totals = Totals(
    fileCount: int, sourceBytes: int, chunkCount: int, uniqueObjectCount: int, uniqueObjectBytes: int, reusedObjectCount: int)

  datatype Core = Core(
    workspaceId: string, createdAt: string, title: string, sourcePath: string, chunking: ChunkLimits,
    keyId: KeyId, limits: Limits, files: seq<FileEntry>, skipped: seq<Skipped>, totals: Totals)

  /** The archive's name is the hash of its manifest, idealised as one-to-one. */
  datatype ArchiveId = ArchiveId(core: Core)

  // ---------- names in manifests ----------

  function Segments(path: string): seq<string> {
    if path == "" then [""]
    else
      var rest := Segments(path[1..]);
      if path[0] == '/' then [""] + rest else [[path[0]] + rest[0]] + rest[1..]
  }

  /** Normalised, relative, and without parent segments; one trailing slash is tolerated. */
  predicate NormalPath(path: string) {
    || path == "." || path == "./"
    || var trimmed := if |path| > 1 && path[|path| - 1] == '/' then path[..|path| - 1] else path;
       forall s :: s in Segments(trimmed) ==> s != "" && s != "." && s != ".."
  }

  /** What `portablePath` guarantees of every collected or skipped path. */
  predicate PortablePath(path: string) {
    && 0 < |path| <= 1_024 && path[0] != '/' && '\0' !in path && NormalPath(path)
  }

  predicate ValidManifestPath(path: string, allowDot: bool) {
    (allowDot && path == ".") || (PortablePath(path) && '\\' !in path)
  }

  // ---------- validation ----------

  predicate Safe(value: int, minimum: int, maximum: int) {
    minimum <= value <= maximum && -MAX_SAFE <= value <= MAX_SAFE
  }

  predicate ValidDescriptor(d: Descriptor, expectedOffset: int, l: Limits) {
    && d.objectId == ObjectId(d.plaintextHash)
    && Safe(d.offset, 0, MAX_SAFE) && d.offset == expectedOffset
    && Safe(d.length, 0, l.chunk.maxBytes)
    && Safe(d.storedBytes, HEADER_BYTES, MAX_SAFE)
  }

  function TotalLength(chunks: seq<Descriptor>): int {
    if chunks == [] then 0 else TotalLength(chunks[..|chunks| - 1]) + chunks[|chunks| - 1].length
  }

  predicate ValidFile(f: FileEntry, l: Limits) {
    && Safe(f.size, 0, l.maxFileBytes)
    && |f.chunks| >= 1
    && (forall i {:trigger ValidDescriptor(f.chunks[i], TotalLength(f.chunks[..i]), l)} ::
          0 <= i < |f.chunks| ==> ValidDescriptor(f.chunks[i], TotalLength(f.chunks[..i]), l))
    && TotalLength(f.chunks) == f.size
  }

  function SumSizes(files: seq<FileEntry>): int {
    if files == [] then 0 else SumSizes(files[..|files| - 1]) + files[|files| - 1].size
  }

  function CountChunks(files: seq<FileEntry>): int {
    if files == [] then 0 else CountChunks(files[..|files| - 1]) + |files[|files| - 1].chunks|
  }

  function ObjectIdsOf(files: seq<FileEntry>): set<ObjectId> {
    set i, j | 0 <= i < |files| && 0 <= j < |files[i].chunks| :: files[i].chunks[j].objectId
  }

  predicate ValidTotals(core: Core) {
    var t := core.totals;
    var objects := |ObjectIdsOf(core.files)|;
    var chunks := CountChunks(core.files);
    && 1 <= |core.files| <= core.limits.maxFiles
    && t.fileCount == |core.files|
    && t.sourceBytes == SumSizes(core.files) <= core.limits.maxTotalBytes
    && t.chunkCount == chunks
    && t.uniqueObjectCount == objects
    && Safe(t.uniqueObjectBytes, 0, MAX_SAFE)
    && Safe(t.reusedObjectCount, Max(0, chunks - objects), chunks)
  }

  /** Everything the validator checks that is a name: the title and the paths. */
  predicate ValidNames(core: Core) {
    && 1 <= |core.title| <= 160
    && ValidManifestPath(core.sourcePath, true)
    && (forall i :: 0 <= i < |core.files| ==> ValidManifestPath(core.files[i].path, false))
    && (forall i :: 0 <= i < |core.skipped| ==> ValidManifestPath(core.skipped[i].path, false))
    && (forall i, j :: 0 <= i < j < |core.files| ==> core.files[i].path != core.files[j].path)
    && (forall i, j :: 0 <= i < j < |core.skipped| ==> core.skipped[i].path != core.skipped[j].path)
  }

  /** Everything else it checks about the contents. */
  predicate ValidNumbers(core: Core) {
    && ValidLimits(core.limits)
    && core.chunking == core.limits.chunk
    && (forall i :: 0 <= i < |core.files| ==> ValidFile(core.files[i], core.limits))
    && ValidTotals(core)
  }

  /** `validateManifest` for the manifest stored under `id` in the given workspace. */
  predicate ValidManifest(core: Core, id: ArchiveId, workspaceId: string) {
    core.workspaceId == workspaceId && ValidNumbers(core) && ValidNames(core) && id == ArchiveId(core)
  }

  // ---------- the manifest as a file ----------

  const MAX_MANIFEST_BYTES := 67_108_864

  /** Bytes of one character inside a JSON string, in UTF-8. */
  function CharBytes(ch: char): nat {
    if ch in ['\"', '\\', '\n', '\r', '\t', '\U{8}', '\U{c}'] then 2
    else if ch < ' ' then 6
    else if ch < '\U{80}' then 1
    else if ch < '\U{800}' then 2
    else if ch < '\U{10000}' then 3
    else 4
  }

  function TextBytes(text: string): nat {
    if text == "" then 0 else TextBytes(text[..|text| - 1]) + CharBytes(text[|text| - 1])
  }

  function NumberBytes(n: int): (d: nat)
    ensures d >= 1
  {
    if n < 0 then 1 + Digits(-n) else Digits(n)
  }

  /** The separators of a list. */
  function Commas(n: nat): nat { if n == 0 then 0 else n - 1 }

  const DESCRIPTOR_FRAME := 219   // keys, quotes, separators, the object id and the hash
  const FILE_FRAME := 119         // likewise, with the content hash
  const SKIP_FRAME := 23
  const MANIFEST_FRAME := 756     // likewise, with both hashes, all constants and the final newline

  function DescriptorBytes(d: Descriptor): nat {
    DESCRIPTOR_FRAME + (if d.brotli then |"brotli-v1"| else |"identity-v1"|)
    + NumberBytes(d.offset) + NumberBytes(d.length) + NumberBytes(d.storedBytes)
  }

  function DescriptorsBytes(chunks: seq<Descriptor>): nat {
    if chunks == [] then 0 else DescriptorsBytes(chunks[..|chunks| - 1]) + DescriptorBytes(chunks[|chunks| - 1])
  }

  function FileBytes(f: FileEntry): nat {
    FILE_FRAME + TextBytes(f.path) + NumberBytes(f.size) + DescriptorsBytes(f.chunks) + Commas(|f.chunks|)
  }

  function FilesBytes(files: seq<FileEntry>): nat {
    if files == [] then 0 else FilesBytes(files[..|files| - 1]) + FileBytes(files[|files| - 1])
  }

  function ReasonBytes(reason: SkipReason): nat {
    match reason
    case Ignored => |"ignored"|
    case SecretFilename => |"secret-filename"|
    case LinkedOrNonRegular => |"linked-or-non-regular"|
  }

  function SkipsBytes(skipped: seq<Skipped>): nat {
    if skipped == [] then 0
    else
      var last := skipped[|skipped| - 1];
      SkipsBytes(skipped[..|skipped| - 1]) + SKIP_FRAME + TextBytes(last.path) + ReasonBytes(last.reason)
  }

  function ChunkLimitsBytes(l: ChunkLimits): nat {
    NumberBytes(l.minBytes) + NumberBytes(l.averageBytes) + NumberBytes(l.maxBytes)
  }

  function LimitsBytes(l: Limits): nat {
    NumberBytes(l.maxFiles) + NumberBytes(l.maxFileBytes) + NumberBytes(l.maxTotalBytes) + ChunkLimitsBytes(l.chunk)
  }

  function TotalsBytes(t: Totals): nat {
    NumberBytes(t.fileCount) + NumberBytes(t.sourceBytes) + NumberBytes(t.chunkCount)
    + NumberBytes(t.uniqueObjectCount) + NumberBytes(t.uniqueObjectBytes) + NumberBytes(t.reusedObjectCount)
  }

  /** Size of the file the manifest is written to: canonical JSON and a newline. */
  function ManifestBytes(core: Core): nat {
    MANIFEST_FRAME + TextBytes(core.workspaceId) + TextBytes(core.createdAt) + TextBytes(core.title) + TextBytes(core.sourcePath)
    + ChunkLimitsBytes(core.chunking) + LimitsBytes(core.limits) + TotalsBytes(core.totals)
    + FilesBytes(core.files) + Commas(|core.files|) + SkipsBytes(core.skipped) + Commas(|core.skipped|)
  }

  /** What `readManifest` accepts: a bounded file whose contents are valid. */
  predicate Readable(core: Core, id: ArchiveId, workspaceId: string) {
    ManifestBytes(core) <= MAX_MANIFEST_BYTES && ValidManifest(core, id, workspaceId)
  }

  // ---------- the vault ----------

  datatype Vault = Vault(
    objects: map<(KeyId, ObjectId), Bytes>,
    manifests: map<ArchiveId, Core>,
    key: Option<Key>)

  const EMPTY_VAULT := Vault(map[], map[], None)

  datatype ArchiveError =
    | LimitsInvalid | LimitExceeded | EmptySelection | SourceChanged | LedgerRejected
    | NotFound | ManifestInvalid | KeyMissing | KeyInvalid | ObjectMissing | ObjectInvalid | FileInvalid
    | NotConfirmed

  // ---------- create ----------

  datatype CollectedFile = CollectedFile(path: string, statSize: nat, bytes: Bytes)

  datatype Request = Request(
    createdAt: string,
    givenTitle: Option<string>,   // the caller's title, already trimmed and not blank
    baseName: string, sourcePath: string,
    limits: Limits, files: seq<CollectedFile>, skipped: seq<Skipped>)

  function TitleOf(r: Request): string {
    match r.givenTitle
    case Some(t) => t[..Min(160, |t|)]
    case None => r.baseName
  }

  function SumStat(files: seq<CollectedFile>): nat {
    if files == [] then 0 else SumStat(files[..|files| - 1]) + files[|files| - 1].statSize
  }

  predicate WithinLimits(r: Request) {
    && |r.files| <= r.limits.maxFiles
    && (forall i :: 0 <= i < |r.files| ==> r.files[i].statSize <= r.limits.maxFileBytes)
    && SumStat(r.files) <= r.limits.maxTotalBytes
  }

  function Describe(c: Crypto, key: Key, chunk: Bytes, offset: nat): Descriptor {
    Descriptor(ObjectId(Sha256(chunk)), Sha256(chunk), offset, |chunk|,
               |Payload(c, key, chunk)|, CompressChunk(c, chunk).code == CODEC_BROTLI)
  }

  function DescribeAll(c: Crypto, key: Key, chunks: seq<Bytes>): (r: seq<Descriptor>)
    ensures |r| == |chunks|
  {
    if chunks == [] then []
    else
      var before := chunks[..|chunks| - 1];
      DescribeAll(c, key, before) + [Describe(c, key, chunks[|chunks| - 1], |Flatten(before)|)]
  }

  function EntryOf(c: Crypto, key: Key, l: ChunkLimits, path: string, bytes: Bytes): FileEntry
    requires ValidChunkLimits(l)
  {
    FileEntry(path, |bytes|, Sha256(bytes), DescribeAll(c, key, ChunksOf(l, bytes)))
  }

  function EntriesOf(c: Crypto, key: Key, l: ChunkLimits, files: seq<CollectedFile>): seq<FileEntry>
    requires ValidChunkLimits(l)
  {
    seq(|files|, i requires 0 <= i < |files| => EntryOf(c, key, l, files[i].path, files[i].bytes))
  }

  /** Store and counters while chunks are written. */
  datatype Tally = Tally(
    objects: map<(KeyId, ObjectId), Bytes>, seen: set<ObjectId>,
    chunkCount: nat, uniqueObjectBytes: nat, reusedObjectCount: nat)

  /** `writeObject` and the counting around it: an existing object is left as it is. */
  function StoreChunk(c: Crypto, key: Key, t: Tally, chunk: Bytes): Tally {
    var id := ObjectId(Sha256(chunk));
    var payload := Payload(c, key, chunk);
    if (KeyId(key), id) in t.objects then
      Tally(t.objects, t.seen + {id}, t.chunkCount + 1, t.uniqueObjectBytes, t.reusedObjectCount + 1)
    else
      Tally(t.objects[(KeyId(key), id) := payload], t.seen + {id}, t.chunkCount + 1,
            t.uniqueObjectBytes + (if id in t.seen then 0 else |payload|), t.reusedObjectCount)
  }

  function StoreAll(c: Crypto, key: Key, t: Tally, chunks: seq<Bytes>): Tally {
    if chunks == [] then t
    else StoreChunk(c, key, StoreAll(c, key, t, chunks[..|chunks| - 1]), chunks[|chunks| - 1])
  }

  function StoreFiles(c: Crypto, key: Key, l: ChunkLimits, t: Tally, files: seq<CollectedFile>): Tally
    requires ValidChunkLimits(l)
  {
    if files == [] then t
    else StoreAll(c, key, StoreFiles(c, key, l, t, files[..|files| - 1]), ChunksOf(l, files[|files| - 1].bytes))
  }

  function StartTally(objects: map<(KeyId, ObjectId), Bytes>): Tally { Tally(objects, {}, 0, 0, 0) }

  /** The files read before the first one whose size no longer is what was collected. */
  function Unchanged(files: seq<CollectedFile>): (good: seq<CollectedFile>)
    ensures good <= files
    ensures forall i :: 0 <= i < |good| ==> |good[i].bytes| == good[i].statSize
    ensures |good| < |files| ==> |files[|good|].bytes| != files[|good|].statSize
  {
    if files == [] || |files[0].bytes| != files[0].statSize then []
    else [files[0]] + Unchanged(files[1..])
  }

  function MakeCore(c: Crypto, w: string, key: Key, r: Request, t: Tally): Core
    requires ValidChunkLimits(r.limits.chunk)
  {
    var files := EntriesOf(c, key, r.limits.chunk, r.files);
    Core(w, r.createdAt, TitleOf(r), r.sourcePath, r.limits.chunk, KeyId(key), r.limits, files, r.skipped,
         Totals(|files|, SumSizes(files), t.chunkCount, |t.seen|, t.uniqueObjectBytes, t.reusedObjectCount))
  }

  function KeyFor(v: Vault, freshKey: Key): Key {
    if v.key.Some? then v.key.value else freshKey
  }

  /** `createContentArchive`; `ledgerAccepts` says whether the event append and rebuild succeed. */
  function Create(c: Crypto, w: string, v: Vault, r: Request, freshKey: Key, ledgerAccepts: bool)
    : (Vault, Result<ArchiveId, ArchiveError>)
  {
    if !ValidLimits(r.limits) then (v, Err(LimitsInvalid))
    else if !WithinLimits(r) then (v, Err(LimitExceeded))
    else if r.files == [] then (v, Err(EmptySelection))
    else
      var key := KeyFor(v, freshKey);
      var good := Unchanged(r.files);
      var t := StoreFiles(c, key, r.limits.chunk, StartTally(v.objects), good);
      var stored := Vault(t.objects, v.manifests, Some(key));
      if |good| < |r.files| then (stored, Err(SourceChanged))
      else
        var core := MakeCore(c, w, key, r, t);
        var id := ArchiveId(core);
        if ledgerAccepts then (stored.(manifests := v.manifests[id := core]), Ok(id))
        else (stored.(manifests := v.manifests - {id}), Err(LedgerRejected))
  }

  // ---------- delete, collect, erase ----------

  function ReadManifest(v: Vault, workspaceId: string, id: ArchiveId): Result<Core, ArchiveError> {
    if id !in v.manifests then Err(NotFound)
    else if !Readable(v.manifests[id], id, workspaceId) then Err(ManifestInvalid)
    else Ok(v.manifests[id])
  }

  /** The manifest is gone before the ledger is asked; nothing puts it back. */
  function Delete(v: Vault, workspaceId: string, id: ArchiveId, confirm: ArchiveId, ledgerAccepts: bool)
    : (Vault, Result<(), ArchiveError>)
  {
    if confirm != id then (v, Err(NotConfirmed))
    else
      match ReadManifest(v, workspaceId, id)
      case Err(e) => (v, Err(e))
      case Ok(_) => (v.(manifests := v.manifests - {id}), if ledgerAccepts then Ok(()) else Err(LedgerRejected))
  }

  /** The objects some listed manifest refers to. */
  function Retained(manifests: map<ArchiveId, Core>): set<(KeyId, ObjectId)> {
    set id, o | id in manifests && o in ObjectIdsOf(manifests[id].files) :: (manifests[id].keyId, o)
  }

  function KeptOf(objects: map<(KeyId, ObjectId), Bytes>, retained: set<(KeyId, ObjectId)>)
    : map<(KeyId, ObjectId), Bytes>
  {
    map k | k in objects && k in retained :: objects[k]
  }

  function SweptOf(objects: map<(KeyId, ObjectId), Bytes>, retained: set<(KeyId, ObjectId)>): set<(KeyId, ObjectId)> {
    set k | k in objects && k !in retained
  }

  function Collect(v: Vault, workspaceId: string, confirmed: bool)
    : (Vault, Result<set<(KeyId, ObjectId)>, ArchiveError>)
  {
    if !confirmed then (v, Err(NotConfirmed))
    else if exists id :: id in v.manifests && !Readable(v.manifests[id], id, workspaceId) then (v, Err(ManifestInvalid))
    else
      var retained := Retained(v.manifests);
      (v.(objects := KeptOf(v.objects, retained)), Ok(SweptOf(v.objects, retained)))
  }

  /** Likewise the key. */
  function EraseKey(v: Vault, confirmed: bool, ledgerAccepts: bool): (Vault, Result<KeyId, ArchiveError>) {
    if !confirmed then (v, Err(NotConfirmed))
    else if v.key.None? then (v, Err(KeyMissing))
    else (v.(key := None), if ledgerAccepts then Ok(KeyId(v.key.value)) else Err(LedgerRejected))
  }

  // ---------- restore ----------

  datatype Restored = Restored(path: string, bytes: Bytes)

  function ReadObject(c: Crypto, v: Vault, key: Key, keyId: KeyId, d: Descriptor): Result<Bytes, ArchiveError> {
    if (keyId, d.objectId) !in v.objects then Err(ObjectMissing)
    else
      var payload := v.objects[(keyId, d.objectId)];
      if |payload| != d.storedBytes then Err(ObjectInvalid)
      else
        match DecryptObject(c, payload, d.plaintextHash, key)
        case Err(_) => Err(ObjectInvalid)
        case Ok(plain) =>
          if |plain| != d.length || Sha256(plain) != d.plaintextHash || ObjectId(d.plaintextHash) != d.objectId
          then Err(ObjectInvalid)
          else Ok(plain)
  }

  function ReadChunks(c: Crypto, v: Vault, key: Key, keyId: KeyId, chunks: seq<Descriptor>)
    : Result<Bytes, ArchiveError>
  {
    if chunks == [] then Ok([])
    else
      match ReadChunks(c, v, key, keyId, chunks[..|chunks| - 1])
      case Err(e) => Err(e)
      case Ok(before) =>
        match ReadObject(c, v, key, keyId, chunks[|chunks| - 1])
        case Err(e) => Err(e)
        case Ok(plain) => Ok(before + plain)
  }

  function RestoreFile(c: Crypto, v: Vault, key: Key, keyId: KeyId, f: FileEntry): Result<Restored, ArchiveError> {
    match ReadChunks(c, v, key, keyId, f.chunks)
    case Err(e) => Err(e)
    case Ok(bytes) =>
      if |bytes| != f.size || Sha256(bytes) != f.contentHash then Err(FileInvalid) else Ok(Restored(f.path, bytes))
  }

  function RestoreFiles(c: Crypto, v: Vault, key: Key, keyId: KeyId, files: seq<FileEntry>)
    : Result<seq<Restored>, ArchiveError>
  {
    if files == [] then Ok([])
    else
      match RestoreFiles(c, v, key, keyId, files[..|files| - 1])
      case Err(e) => Err(e)
      case Ok(before) =>
        match RestoreFile(c, v, key, keyId, files[|files| - 1])
        case Err(e) => Err(e)
        case Ok(restored) => Ok(before + [restored])
  }

  function Restore(c: Crypto, v: Vault, workspaceId: string, id: ArchiveId): Result<seq<Restored>, ArchiveError> {
    match ReadManifest(v, workspaceId, id)
    case Err(e) => Err(e)
    case Ok(core) =>
      if v.key.None? then Err(KeyMissing)
      else if KeyId(v.key.value) != core.keyId then Err(KeyInvalid)
      else RestoreFiles(c, v, v.key.value, core.keyId, core.files)
  }

  // ---------- runs ----------

  datatype Op =
    | CreateOp(request: Request, freshKey: Key, ledgerAccepts: bool)
    | DeleteOp(id: ArchiveId, confirm: ArchiveId, ledgerAccepts: bool)
    | CollectOp(collectConfirmed: bool)
    | EraseOp(eraseConfirmed: bool, ledgerAccepts: bool)

  function Apply(c: Crypto, w: string, v: Vault, op: Op): Vault {
    match op
    case CreateOp(r, freshKey, ledgerAccepts) => Create(c, w, v, r, freshKey, ledgerAccepts).0
    case DeleteOp(id, confirm, ledgerAccepts) => Delete(v, w, id, confirm, ledgerAccepts).0
    case CollectOp(confirmed) => Collect(v, w, confirmed).0
    case EraseOp(confirmed, ledgerAccepts) => EraseKey(v, confirmed, ledgerAccepts).0
  }

  function Run(c: Crypto, w: string, v: Vault, ops: seq<Op>): Vault {
    if ops == [] then v else Apply(c, w, Run(c, w, v, ops[..|ops| - 1]), ops[|ops| - 1])
  }
}
