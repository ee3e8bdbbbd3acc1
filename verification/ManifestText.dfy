/**
 * The manifest file itself: canonical JSON with sorted keys, in UTF-8, and a newline (src/content-archive.js:556-590,
 * src/canonical.js:14-50). Every character of the text below is one byte of the file.
 */
module ManifestText {
  import opened Common
  import opened Chunker
  import opened Decimal
  import opened SealedObject
  import opened ContentArchive

  /** The digits of a digest, of a key's name, and of the archive's own name. */
  datatype Names = Names(digest: Digest -> string, key: KeyId -> string, archive: string)

  ghost predicate HexNames(n: Names) {
    (forall d :: |n.digest(d)| == 64) && (forall k :: |n.key(k)| == 32) && |n.archive| == 64
  }

  // ---------- numbers and strings ----------

  function NumberText(n: int): string { if n < 0 then "-" + Print(-n) else Print(n) }

  function HexDigit(n: nat): char
    requires n < 16
  {
    if n < 10 then '0' + n as char else 'a' + (n - 10) as char
  }

  function Byte(n: nat): char
    requires n < 256
  {
    n as char
  }

  /** Character code, without the range that UTF-16 keeps for surrogates. */
  function Utf8(code: nat): string
    requires code < 0x11_0000
  {
    if code < 0x80 then [Byte(code)]
    else if code < 0x800 then [Byte(0xc0 + code / 0x40), Byte(0x80 + code % 0x40)]
    else if code < 0x1_0000 then [Byte(0xe0 + code / 0x1000), Byte(0x80 + code / 0x40 % 0x40), Byte(0x80 + code % 0x40)]
    else [Byte(0xf0 + code / 0x4_0000), Byte(0x80 + code / 0x1000 % 0x40), Byte(0x80 + code / 0x40 % 0x40), Byte(0x80 + code % 0x40)]
  }

  /** One character inside quotes. */
  function Quoted(ch: char): string {
    if ch == '\"' then "\\\""
    else if ch == '\\' then "\\\\"
    else if ch == '\n' then "\\n"
    else if ch == '\r' then "\\r"
    else if ch == '\t' then "\\t"
    else if ch == '\U{8}' then "\\b"
    else if ch == '\U{c}' then "\\f"
    else if ch < ' ' then "\\u00" + [HexDigit(ch as nat / 16), HexDigit(ch as nat % 16)]
    else Utf8(ch as nat)
  }

  function Inside(text: string): string {
    if text == "" then "" else Inside(text[..|text| - 1]) + Quoted(text[|text| - 1])
  }

  lemma NumberLength(n: int)
    ensures |NumberText(n)| == NumberBytes(n)
  {
  }

  lemma QuotedLength(ch: char)
    ensures |Quoted(ch)| == CharBytes(ch)
  {
  }

  lemma {:induction false} InsideLength(text: string)
    ensures |Inside(text)| == TextBytes(text)
  {
    if text != "" {
      InsideLength(text[..|text| - 1]);
      QuotedLength(text[|text| - 1]);
    }
  }

  /** The elements of a list between brackets. */
  function Listed(items: seq<string>): string {
    if items == [] then ""
    else if |items| == 1 then items[0]
    else Listed(items[..|items| - 1]) + "," + items[|items| - 1]
  }

  function SumLengths(items: seq<string>): nat {
    if items == [] then 0 else SumLengths(items[..|items| - 1]) + |items[|items| - 1]|
  }

  lemma {:induction false} ListedLength(items: seq<string>)
    ensures |Listed(items)| == SumLengths(items) + Commas(|items|)
  {
    if |items| > 1 {
      ListedLength(items[..|items| - 1]);
    } else if |items| == 1 {
      assert items[..0] == [];
      assert SumLengths(items[..0]) == 0;
    }
  }

  // ---------- a descriptor ----------

  function DescriptorText(n: Names, d: Descriptor): string {
    "{\"codec\":\"" + (if d.brotli then "brotli-v1" else "identity-v1")
    + "\",\"length\":" + NumberText(d.length)
    + ",\"objectId\":\"obj_" + n.digest(d.objectId.hash)
    + "\",\"offset\":" + NumberText(d.offset)
    + ",\"plaintextHash\":\"sha256:" + n.digest(d.plaintextHash)
    + "\",\"storedBytes\":" + NumberText(d.storedBytes) + "}"
  }

  lemma DescriptorLength(n: Names, d: Descriptor)
    requires HexNames(n)
    ensures |DescriptorText(n, d)| == DescriptorBytes(d)
  {
    NumberLength(d.length);
    NumberLength(d.offset);
    NumberLength(d.storedBytes);
  }

  function DescriptorTexts(n: Names, chunks: seq<Descriptor>): (r: seq<string>)
    ensures |r| == |chunks|
  {
    if chunks == [] then []
    else DescriptorTexts(n, chunks[..|chunks| - 1]) + [DescriptorText(n, chunks[|chunks| - 1])]
  }

  lemma {:induction false} DescriptorsLength(n: Names, chunks: seq<Descriptor>)
    requires HexNames(n)
    ensures SumLengths(DescriptorTexts(n, chunks)) == DescriptorsBytes(chunks)
  {
    if chunks != [] {
      DescriptorsLength(n, chunks[..|chunks| - 1]);
      DescriptorLength(n, chunks[|chunks| - 1]);
      var before := DescriptorTexts(n, chunks[..|chunks| - 1]);
      assert DescriptorTexts(n, chunks)[..|chunks| - 1] == before;
    }
  }

  // ---------- a file, and a skipped one ----------

  function FileText(n: Names, f: FileEntry): string {
    "{\"chunks\":[" + Listed(DescriptorTexts(n, f.chunks))
    + "],\"contentHash\":\"sha256:" + n.digest(f.contentHash)
    + "\",\"path\":\"" + Inside(f.path)
    + "\",\"size\":" + NumberText(f.size) + "}"
  }

  lemma FileLength(n: Names, f: FileEntry)
    requires HexNames(n)
    ensures |FileText(n, f)| == FileBytes(f)
  {
    DescriptorsLength(n, f.chunks);
    ListedLength(DescriptorTexts(n, f.chunks));
    InsideLength(f.path);
    NumberLength(f.size);
  }

  function FileTexts(n: Names, files: seq<FileEntry>): (r: seq<string>)
    ensures |r| == |files|
  {
    if files == [] then [] else FileTexts(n, files[..|files| - 1]) + [FileText(n, files[|files| - 1])]
  }

  lemma {:induction false} FilesLength(n: Names, files: seq<FileEntry>)
    requires HexNames(n)
    ensures SumLengths(FileTexts(n, files)) == FilesBytes(files)
  {
    if files != [] {
      FilesLength(n, files[..|files| - 1]);
      FileLength(n, files[|files| - 1]);
      assert FileTexts(n, files)[..|files| - 1] == FileTexts(n, files[..|files| - 1]);
    }
  }

  function ReasonText(reason: SkipReason): string {
    match reason
    case Ignored => "ignored"
    case SecretFilename => "secret-filename"
    case LinkedOrNonRegular => "linked-or-non-regular"
  }

  function SkipText(s: Skipped): string {
    "{\"path\":\"" + Inside(s.path) + "\",\"reason\":\"" + ReasonText(s.reason) + "\"}"
  }

  function SkipTexts(skipped: seq<Skipped>): (r: seq<string>)
    ensures |r| == |skipped|
  {
    if skipped == [] then [] else SkipTexts(skipped[..|skipped| - 1]) + [SkipText(skipped[|skipped| - 1])]
  }

  lemma {:induction false} SkipsLength(skipped: seq<Skipped>)
    ensures SumLengths(SkipTexts(skipped)) == SkipsBytes(skipped)
  {
    if skipped != [] {
      var last := skipped[|skipped| - 1];
      SkipsLength(skipped[..|skipped| - 1]);
      InsideLength(last.path);
      assert |ReasonText(last.reason)| == ReasonBytes(last.reason);
      assert SkipTexts(skipped)[..|skipped| - 1] == SkipTexts(skipped[..|skipped| - 1]);
    }
  }

  // ---------- the fixed records ----------

  function ChunkingText(l: ChunkLimits): string {
    "{\"algorithm\":\"qarinah-gear-content-defined-v1\",\"averageBytes\":" + NumberText(l.averageBytes)
    + ",\"maxBytes\":" + NumberText(l.maxBytes) + ",\"minBytes\":" + NumberText(l.minBytes) + "}"
  }

  function EncryptionText(n: Names, k: KeyId): string {
    "{\"algorithm\":\"AES-256-GCM\",\"keyId\":\"key_" + n.key(k) + "\",\"keyStorage\":\"workspace-local\"}"
  }

  function LimitsText(l: Limits): string {
    "{\"averageChunkBytes\":" + NumberText(l.chunk.averageBytes) + ",\"maxChunkBytes\":" + NumberText(l.chunk.maxBytes)
    + ",\"maxFileBytes\":" + NumberText(l.maxFileBytes) + ",\"maxFiles\":" + NumberText(l.maxFiles)
    + ",\"maxTotalBytes\":" + NumberText(l.maxTotalBytes) + ",\"minChunkBytes\":" + NumberText(l.chunk.minBytes) + "}"
  }

  function TotalsText(t: Totals): string {
    "{\"chunkCount\":" + NumberText(t.chunkCount) + ",\"fileCount\":" + NumberText(t.fileCount)
    + ",\"reusedObjectCount\":" + NumberText(t.reusedObjectCount) + ",\"sourceBytes\":" + NumberText(t.sourceBytes)
    + ",\"uniqueObjectBytes\":" + NumberText(t.uniqueObjectBytes)
    + ",\"uniqueObjectCount\":" + NumberText(t.uniqueObjectCount) + "}"
  }

  const CHUNKING_FRAME := 87
  const ENCRYPTION_FRAME := 105
  const LIMITS_FRAME := 101
  const TOTALS_FRAME := 106

  lemma ChunkingLength(l: ChunkLimits)
    ensures |ChunkingText(l)| == CHUNKING_FRAME + ChunkLimitsBytes(l)
  {
    NumberLength(l.averageBytes);
    NumberLength(l.maxBytes);
    NumberLength(l.minBytes);
  }

  lemma EncryptionLength(n: Names, k: KeyId)
    requires HexNames(n)
    ensures |EncryptionText(n, k)| == ENCRYPTION_FRAME
  {
  }

  lemma LimitsLength(l: Limits)
    ensures |LimitsText(l)| == LIMITS_FRAME + LimitsBytes(l)
  {
    NumberLength(l.chunk.averageBytes);
    NumberLength(l.chunk.maxBytes);
    NumberLength(l.chunk.minBytes);
    NumberLength(l.maxFileBytes);
    NumberLength(l.maxFiles);
    NumberLength(l.maxTotalBytes);
  }

  lemma TotalsLength(t: Totals)
    ensures |TotalsText(t)| == TOTALS_FRAME + TotalsBytes(t)
  {
    NumberLength(t.chunkCount);
    NumberLength(t.fileCount);
    NumberLength(t.reusedObjectCount);
    NumberLength(t.sourceBytes);
    NumberLength(t.uniqueObjectBytes);
    NumberLength(t.uniqueObjectCount);
  }

  // ---------- the file ----------

  function FirstHalf(n: Names, core: Core): string {
    "{\"archiveId\":\"archive_" + n.archive + "\",\"chunking\":" + ChunkingText(core.chunking)
    + ",\"createdAt\":\"" + Inside(core.createdAt) + "\",\"encryption\":" + EncryptionText(n, core.keyId)
    + ",\"files\":[" + Listed(FileTexts(n, core.files)) + "],\"label\":\"" + Inside(core.title)
  }

  function SecondHalf(n: Names, core: Core): string {
    "\",\"limits\":" + LimitsText(core.limits) + ",\"manifestHash\":\"sha256:" + n.archive
    + "\",\"schemaVersion\":\"qarinah.content-archive.v1\",\"skipped\":[" + Listed(SkipTexts(core.skipped))
    + "],\"source\":{\"path\":\"" + Inside(core.sourcePath) + "\"},\"totals\":" + TotalsText(core.totals)
    + ",\"workspaceId\":\"" + Inside(core.workspaceId) + "\"}\n"
  }

  function ManifestFile(n: Names, core: Core): string { FirstHalf(n, core) + SecondHalf(n, core) }

  lemma FirstLength(n: Names, core: Core)
    requires HexNames(n)
    ensures |FirstHalf(n, core)| ==
              22 + 64 + 13 + CHUNKING_FRAME + ChunkLimitsBytes(core.chunking) + 14 + TextBytes(core.createdAt) + 15 + ENCRYPTION_FRAME
              + 10 + FilesBytes(core.files) + Commas(|core.files|) + 11 + TextBytes(core.title)
  {
    ChunkingLength(core.chunking);
    InsideLength(core.createdAt);
    EncryptionLength(n, core.keyId);
    FilesLength(n, core.files);
    ListedLength(FileTexts(n, core.files));
    InsideLength(core.title);
  }

  lemma SecondLength(n: Names, core: Core)
    requires HexNames(n)
    ensures |SecondHalf(n, core)| ==
              11 + LIMITS_FRAME + LimitsBytes(core.limits) + 24 + 64 + 58 + SkipsBytes(core.skipped) + Commas(|core.skipped|)
              + 20 + TextBytes(core.sourcePath) + 12 + TOTALS_FRAME + TotalsBytes(core.totals) + 16 + TextBytes(core.workspaceId) + 3
  {
    LimitsLength(core.limits);
    SkipsLength(core.skipped);
    ListedLength(SkipTexts(core.skipped));
    InsideLength(core.sourcePath);
    TotalsLength(core.totals);
    InsideLength(core.workspaceId);
  }

  /** Main result: the size of a manifest is the length of its file. */
  lemma ManifestFileLength(n: Names, core: Core)
    requires HexNames(n)
    ensures |ManifestFile(n, core)| == ManifestBytes(core)
  {
    FirstLength(n, core);
    SecondLength(n, core);
  }
}
