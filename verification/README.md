# Verified model of Qarinah's cores

Qarinah keeps a verified ledger of project events on one machine and derives everything else from it: context
packs for a model, a linked memory graph, a retrieval index, encrypted content archives, chat memory and coding
checkpoints. This project models its hardest cores in Dafny and proves what they promise. `dafny verify
dfyconfig.toml` checks all of it.

The files follow the source's components.

- **Content archive** - `Chunker` (the gear-hash chunker against a theory of cut rules), `GearMeaning` and `GearTable`
  (what its fingerprint and its table are), `SealedObject` (the object format over abstract cryptography),
  `ContentArchive` (what each operation does to a vault), `NormalPaths`, `ManifestMeaning` and `ManifestText` (which
  manifests are accepted, and their file), `ArchiveManifests`, `ArchiveManifestSize` and `ArchiveCounting` (what create
  writes against what later operations accept, and its totals), `ArchiveIntegrity` (what holds of a vault nobody can
  trust, and every outcome), `ArchiveSafety` (every run of create, delete, collect and erase), `ArchiveUnreadable`
  (archives that block their vault), `ArchiveStore` (the same operations as a class updated in place).
- **Context compiler** - `Decimal` and `SizeAccounting` (a text that prints its own size), `ContextPacker` (packing
  and binary search), `PackMarkdown` and `MarkdownInline` (the two forms of the query), `TokenBudget` (the two-pass
  allocator), `ProofContext` (the shrinking loop).
- **Linked memory** - `LinkRank`, `PosixPath` (parent directories), `LinkedGraph` (projection, nodes and edge insertions
  as lists), `ProjectionMeaning`, `LinkedGraphFacts`, `LinkedGraphMeaning`, `GraphNodesMeaning`, `LinkedGraphBounds` and
  `LinkedGraphLocalBound` (what is kept, distinctness, which edges and nodes, closure, caps), `EdgeList` (deduplication
  and degrees), `Timeline` (sorting by time), `GraphBuilder` (the assembly loops).
- **Retrieval index** - `StringOrder`, `RetrievalIndex`, `DerivedGraph` (closing and coalescing), `ProjectGraph`.
- **Consent** - `Consent` (two files, any number of concurrent operations, each a program of atomic steps),
  `ConsentMachine` and `ConsentOutcomes` (the operations one after the other, how each ends, and what interleaved
  revocations can lose).
- **Streams and text** - `LspFraming`, `LspHeader`, `LspStreams`, `LineStream`, `JsonText` (length inside a JSON
  string), `ChatMemory`, `ChatSentences`, `ChatExtract`, `ChatRecall`, `RecallMeaning`, `Redaction`.
- **Snapshots and checkpoints** - `SnapshotDiff`, `SnapshotRenames`, `SnapshotReconstruct`, `CodingHarness`.

Code that the source writes as loops over changing state is a method or a class here, tied by its `ensures` to a
function of the inputs or of the old state; the lemmas beside it say what that function means.

## What the code does not do

Proving the promised properties showed where they stop. In each case the code is modelled as it is, and a lemma gives
the exact condition or a concrete input.

- Creating an archive neither validates what it writes nor checks its size. Later operations can read the manifest
  exactly when the title has 1 to 160 characters, the root's path is accepted, no path holds a backslash, and the file
  is at most 64 MiB (`CreatedManifestReadableIff`). Otherwise create reports success, but the archive cannot be restored
  or deleted and blocks every garbage collection (`BadCreateBlocks`, `InvalidBlocks`): a file named by a backslash
  (`BackslashBlocks`), or five files of one gibibyte in the smallest chunks (`HugeBlocks`).
- A create whose event the ledger rejects removes the manifest it wrote, even when an earlier create had listed the
  very same one. This and its own deletion are the only ways to lose an archive (`LostExactlyWhen`,
  `RejectedCreateLosesArchive`).
- The last size check of a context pack can fail although every accepted candidate was within the budget: the final
  marking `true` makes the Markdown form one character longer and the JSON form one shorter. This cannot happen
  exactly when Markdown is at most two characters longer than JSON (`TruncatedWordFits`). A query of asterisks makes it
  longer, because Markdown escapes each of them (`PackMarkdown.LastCheckCanFail`).
- The edge bound declared for linked memory forgets the concepts of the worktree node. It holds for all concepts
  exactly when the distinct other edges and six for every document are within it (`EdgesWithinExactlyWhen`); it holds
  without a worktree, can be exceeded by six with one (`BoundCanBeExceeded`), and the absolute cap always holds.
- Two interleaved revocations can lose the checkpoint kept for review (`RevocationsCanLoseCheckpoint`). A revocation
  buries one exactly when the tombstone held one at its first read or the trust record at its second
  (`RevocationKeepsCheckpoint`), and none is ever lost unless a grant clears the tombstone or one revocation removes
  the trust record before another has read it (`RevocationsKeepCheckpoint`).
- A recalled chat packet is measured before its coverage word is written, and can end four characters above its limit.
  All packets with items stay within it exactly for the coverage "none" (`StaysExactlyWhen`); a packet without items is
  not measured at all (`EmptyPacketIsUnmeasured`).

An extractive summary exceeds its maximum exactly when the text does and the maximum is below 25 (`SummaryFits`); every
caller passes at least 128, so none of its uses does (`CallersSummariesFit`).

## Model

| member | source | states |
|---|---|---|
| Chunker.ContentDefinedChunks | src/content-archive.js:214-231 | The loop's chunks are non-empty, concatenate to the bytes, each ends at the first place the gear rule ends a chunk, and an empty file is one empty chunk. |
| Chunker.ChunkSizes | src/content-archive.js:214-231 | No chunk is above the maximum, and none but the last below the minimum. |
| Chunker.ChunkingUnique | src/content-archive.js:214-231 | Two chunkings of the same bytes under one cut rule are equal, so the specification of the chunker has one answer. |
| Chunker.CutsAreChunking | src/content-archive.js:214-231 | Every byte string has a chunking under every cut rule. |
| Chunker.SplitAtBoundary | src/content-archive.js:214-231 | The chunks of two strings joined are the chunks of each joined, if and only if the last chunk of the first string is closed by the rule. |
| Chunker.AppendKeepsChunks | src/content-archive.js:214-231 | Appending bytes changes at most the last chunk. |
| Chunker.SameEndingSameChunks | src/content-archive.js:214-231 | Once two inputs share a boundary and the rest of their bytes, the rest of their chunks is the same: an edit only affects chunks up to the next common boundary. |
| Chunker.OutputIsChunksOf | src/content-archive.js:214-231 | The chunker's contract holds of exactly one list, the one its specification function gives. |
| GearMeaning.OutputMeans | src/content-archive.js:214-231 | The output is exactly the list whose chunks each end at the first place, at least the minimum and at most the maximum long, where the chunk is full or its gear sum, modulo 2^32, is divisible by the average size. |
| GearMeaning.FingerprintIsSum | src/content-archive.js:221 | The rolling fingerprint is the sum of every byte's gear value, doubled once for each byte after it, modulo 2^32. |
| GearMeaning.LastBytesDecide | src/content-archive.js:221 | Whatever comes before, chunks with the same last 32 bytes have the same fingerprint. |
| GearMeaning.MaskIsRemainder | src/content-archive.js:217-224 | The mask test is divisibility by the average size. |
| GearMeaning.PowerOfTwoIsBitTest | src/content-archive.js:76-78 | The accepted average sizes are exactly those the source's bit test accepts. |
| GearTable.XorShiftIsShifts | src/content-archive.js:47-55 | One step of the table's generator is the source's three shifts and exclusive ors on 32-bit words, bit by bit. |
| GearTable.BitsDetermine | src/content-archive.js:47-55 | A number is known by its bits, so that step has one value. |
| SealedObject.HeaderSlices | src/content-archive.js:323-331 | Slicing a payload at the constant header positions gives back magic, codec, nonce, tag and ciphertext. |
| SealedObject.PayloadOpens | src/content-archive.js:323-354 | What is sealed under a key opens under it to the same bytes, and its size is the header plus at most the chunk. |
| SealedObject.LawsAreConsistent | src/content-archive.js:323-354 | The laws asked of HMAC, AES-GCM and Brotli can be met together. |
| ArchiveIntegrity.OpensExactlyObjects | src/content-archive.js:323-354 | Bytes open under a key and a digest if and only if they have the stored form, sealed for that key and digest, of something that decodes to the result. |
| ArchiveIntegrity.StoredAs | src/content-archive.js:233-244 | A chunk is stored compressed exactly when that saves more than sixteen bytes, and how long its object then is. |
| ArchiveIntegrity.AuthenticIsConsistent | src/content-archive.js:333-354 | A cipher that opens only what it sealed exists, so these results are not empty. |
| ArchiveManifests.EntryIsValid | src/content-archive.js:424-452 | The file entry made from any file within the limits passes the descriptor checks: offsets follow on, lengths sum to the size. |
| ArchiveManifests.StoreFilesOk | src/content-archive.js:519-557 | While files are stored, every counter equals what the entries made so far hold, and reuse plus creation accounts for every chunk. |
| ArchiveCounting.CreatedTotalsAreGrowth | src/content-archive.js:540-582 | The totals of a manifest say by how much create made the store grow: the bytes of the new objects, and as reused every chunk that made none. |
| ArchiveManifests.CreatedNumbersAreValid | src/content-archive.js:519-583 | The numbers and descriptors of every created manifest pass the validator. |
| ArchiveManifests.CreatedManifestValidIff | src/content-archive.js:393-477 | A created manifest passes its own validator if and only if the title has 1 to 160 characters, the root has an accepted path and no path holds a backslash. |
| ArchiveManifests.GivenTitleFits | src/content-archive.js:563 | A title given by the caller always has an accepted length, so only the default one can fail. |
| ArchiveManifestSize.CreatedManifestReadableIff | src/content-archive.js:479-487 | Later operations can read a created manifest if and only if its names are good and its file is at most 64 MiB. |
| ManifestMeaning.ValidManifestMeans | src/content-archive.js:393-477 | Accepted are exactly the manifests of the workspace stored under their own hash, with limits in range, portable names each once, pieces that lie end to end in every file, and totals that count them. |
| ManifestMeaning.ValidFileMeans | src/content-archive.js:424-446 | A file entry is accepted exactly when its pieces tile it from its first byte to its last and each is named after its contents and of plausible size. |
| NormalPaths.NormalPathMeans | src/content-archive.js:282-287 | Accepted are exactly the relative paths that normalising leaves as they are and that have no parent part. |
| ManifestText.ManifestFileLength | src/content-archive.js:559-594 | The size of a manifest is the length of its file, written out as canonical JSON in UTF-8 with every key and constant. |
| ArchiveManifestSize.ManifestSizeBounds | src/content-archive.js:519-593 | The size of the manifest file lies between two bounds computed before the call from names, sizes and chunk limits: the fewest and the most chunks the files can be cut into. |
| ArchiveManifestSize.AllChunksBounds | src/content-archive.js:519-557 | How many descriptors the files get: total size at most that many maximal chunks, and at least that many minimal ones, one per file excepted. |
| ArchiveSafety.RestoreIsExact | src/content-archive.js:679-718 | In every vault that satisfies the invariant, restoring a listed readable archive gives exactly the original files when the vault holds its key, and a key error otherwise. |
| ArchiveIntegrity.RestoreIsAuthentic | src/content-archive.js:489-500 | In any vault whatever, a restore that succeeds returns all files of the manifest its id names, each with its recorded size and hash and each piece where the manifest says. |
| ArchiveIntegrity.RestoresAgree | src/content-archive.js:679-718 | So any two restores of one archive that succeed return the same files. |
| ArchiveSafety.StepKeepsInv | src/content-archive.js:502-620 | Create, delete, collect and erase each keep the invariant: objects open to their content, and every listed manifest finds its objects. |
| ArchiveSafety.RunKeepsInv | src/content-archive.js:502-818 | The invariant holds after every sequence of operations. |
| ArchiveSafety.EmptyVaultIsSound | src/content-archive.js:300-321 | The empty vault satisfies the invariant, so every run from it does. |
| ArchiveSafety.LostExactlyWhen | src/content-archive.js:584-618 | A listed archive is lost by one operation if and only if that is its confirmed deletion while readable, or a completed create of the very same manifest whose event the ledger rejects; otherwise it stays as it was. |
| ArchiveSafety.CreateSucceeds | src/content-archive.js:502-620 | After a successful create the archive is listed under its id and describes exactly the given files; it is readable if and only if its names are good and its manifest is at most 64 MiB. |
| ArchiveIntegrity.CreateOutcome | src/content-archive.js:502-621 | Which of its outcomes a create has, by limits, sizes, selection and ledger, and what each leaves behind; a complete one records title, time, path, limits, skips and files as given. |
| ArchiveIntegrity.DeletionOutcome | src/content-archive.js:733-751 | Why a deletion is refused, that a refused one changes nothing, and that objects and key always stay. |
| ArchiveIntegrity.CollectionOutcome | src/content-archive.js:753-783 | A collection is refused exactly without confirmation or with an unreadable listed manifest, and then changes nothing. |
| ArchiveSafety.ArchiveSurvives | src/content-archive.js:502-818 | At every moment of a run after a create, restore gives the archived files byte for byte, if and only if names and manifest size are good and no operation of the run loses the archive or erases the key. |
| ArchiveSafety.RejectedCreateLosesArchive | src/content-archive.js:594-618 | Archive the same files twice, and a third create at the same time whose event is rejected removes the second archive. |
| ArchiveSafety.CollectIsExact | src/content-archive.js:753-783 | Collection removes an object if and only if no listed manifest references it under that key, and changes nothing else. |
| ArchiveSafety.CollectTwice | src/content-archive.js:753-783 | A second collection removes nothing. |
| ArchiveSafety.CollectKeepsRestores | src/content-archive.js:753-783 | Collection changes the result of no restore. |
| ArchiveSafety.EraseIsForever | src/content-archive.js:785-818 | After the key is erased no archive under it ever restores again, whatever is run afterwards, as long as that key is not generated anew. |
| ArchiveUnreadable.InvalidBlocks | src/content-archive.js:720-783 | A listed archive that cannot be read blocks restore, deletion and every collection at every moment of a run, if and only if the run has no rejected create of the very same manifest. |
| ArchiveUnreadable.BadCreateBlocks | src/content-archive.js:579-620 | A create that completes always reports success, and leaves a blocked vault if and only if names or manifest size are bad. |
| ArchiveUnreadable.BackslashBlocks | src/content-archive.js:88-98 | An empty file named by one backslash is archived with success and blocks the vault. |
| ArchiveUnreadable.LargeSelectionBlocks | src/content-archive.js:483 | Whenever 231 bytes for each maximal chunk already exceed 64 MiB, create reports success and the vault is blocked. |
| ArchiveUnreadable.HugeBlocks | src/content-archive.js:64-78 | Five files of one gibibyte with the smallest chunks are within every limit, have good names, and block the vault. |
| ArchiveStore.ValidateFile | src/content-archive.js:428-451 | The descriptor loop accepts exactly the files whose offsets follow on and whose lengths sum to the size. |
| ArchiveStore.Recount | src/content-archive.js:424-453 | The accumulated totals are the sums over all files and the set of all object ids. |
| ArchiveStore.ValidateManifest | src/content-archive.js:393-477 | The validator accepts exactly the valid manifests. |
| ArchiveStore.Store.constructor | src/content-archive.js:300-321 | A new store is the empty vault. |
| ArchiveStore.Store.WriteObject | src/content-archive.js:360-381 | An object is written only when its name is new; an existing one is never changed. |
| ArchiveStore.Store.ArchiveChunk | src/content-archive.js:530-549 | Storing one chunk updates objects, seen ids and counters as specified. |
| ArchiveStore.Store.ArchiveFile | src/content-archive.js:524-557 | The chunk loop makes the specified file entry and stores the specified objects. |
| ArchiveStore.Store.ArchiveFiles | src/content-archive.js:519-557 | The file loop stops at the first file whose size changed, having stored everything before it. |
| ArchiveStore.Store.Create | src/content-archive.js:502-620 | New state and result are those of the specification: error order, objects left behind by a failure, rollback of the manifest when the ledger rejects it. |
| ArchiveStore.Store.ReadManifest | src/content-archive.js:479-487 | A manifest is returned exactly when it is listed, at most 64 MiB and valid. |
| ArchiveStore.Store.Delete | src/content-archive.js:733-751 | Only a confirmed, listed and readable manifest is removed, even when the ledger then rejects the event; objects and key stay. |
| ArchiveStore.Store.ListArchives | src/content-archive.js:720-731 | Listing succeeds if and only if every manifest is readable. |
| ArchiveStore.Store.CollectGarbage | src/content-archive.js:753-783 | New objects and the removed list are those of the specification. |
| ArchiveStore.Store.RemoveAllBut | src/content-archive.js:763-780 | The loop removes exactly the objects outside the retained set. |
| ArchiveStore.Store.EraseKey | src/content-archive.js:785-818 | Only a confirmed call with a key present removes it, even when the ledger then rejects the event, and removes nothing else. |
| ArchiveStore.Store.ReadFile | src/content-archive.js:696-713 | A file is the concatenation of its opened chunks, checked against size and hash; the first failing chunk decides the error. |
| ArchiveStore.Store.VerifyFiles | src/content-archive.js:629-647 | The counters are the sums over all files, and the first failing file decides the error. |
| ArchiveStore.Store.Verify | src/content-archive.js:623-659 | Verification fails exactly when a restore would, with the same error, and otherwise reports the manifest's own totals. |
| ArchiveStore.Store.RestoreFiles | src/content-archive.js:690-717 | The loop restores the files in order up to the first that fails. |
| ArchiveStore.Store.Restore | src/content-archive.js:679-718 | The restored files and the error cases are those of the specification. |
| Decimal.PrintParses | src/compiler.js:224-225 | A printed number reads back as itself. |
| Decimal.DigitsMonotone | src/compiler.js:224-225 | A larger number never prints shorter. |
| SizeAccounting.DigitsGrowOnce | src/compiler.js:210-236 | After the first measurement each printed counter can grow by at most one digit. |
| SizeAccounting.ChainSettles | src/compiler.js:210-236 | The sequence of measurements stands still from the fourth on, so the twelve attempts always suffice. |
| SizeAccounting.SettledIsLeastExact | src/compiler.js:210-236 | The settled sizes are exactly what their own rendering measures, and the least sizes with that property. |
| SizeAccounting.SettledMeans | src/compiler.js:210-236 | The settled size is that of the longer form with its counters printed in decimal, and the settled token counts a quarter of it, rounded up. |
| SizeAccounting.SettledMonotone | src/compiler.js:210-236 | A rendering that grows in both forms never settles on smaller sizes. |
| SizeAccounting.FinalizePack | src/compiler.js:210-236 | The loop returns the settled sizes and never the instability error; it fails only for an estimate outside the estimator's range. |
| SizeAccounting.ProofChainSettles | src/proof-context.js:233-254 | The token count of a proof packet stands still from the third measurement on, so the eight attempts always suffice. |
| SizeAccounting.ProofSettledIsLeastExact | src/proof-context.js:233-254 | The settled count is the count of the text that prints it, and the least such count. |
| SizeAccounting.ProofSettledMeans | src/proof-context.js:233-254 | The settled count is a quarter, rounded up, of the text with that count printed in it. |
| SizeAccounting.FinalizeProof | src/proof-context.js:233-254 | The loop returns the settled count and never the instability error. |
| ContextPacker.LongestExcerpt | src/compiler.js:413-431 | The binary search ends on a length that fits although one more unit does not, or on nothing when the empty excerpt does not fit. |
| ContextPacker.AcceptedIsLongest | src/compiler.js:413-431 | When the rendered cost grows with the excerpt, the accepted length is the longest of all that fit. |
| ContextPacker.ChosenUnique | src/compiler.js:393-435 | When costs grow with the excerpt, the packing loop can end with only one list of items. |
| ContextPacker.ShorterFits | src/compiler.js:250-264 | When the rendered cost grows with the excerpt, every shorter excerpt fits where a longer one does. |
| ContextPacker.PackLast | src/compiler.js:403-435 | What happens to the first entry that does not fit whole: reservation error, stop, or a shortened excerpt. |
| ContextPacker.PackEntries | src/compiler.js:393-437 | The loop takes whole entries while they fit and at most one shortened one after them, and the truncated mark holds exactly when something was dropped or shortened. |
| ContextPacker.CompileContext | src/compiler.js:383-443 | Every outcome of packing with its exact condition, that of the last size check when costs grow with the excerpt; a returned pack is within the character and token budgets, states its own sizes, and is marked truncated exactly when an entry is missing or shortened. |
| ContextPacker.ChosenIsPrefix | src/compiler.js:393-435 | The packed items are a prefix of the ranking, whole except possibly the last, which is the beginning of its excerpt with three dots in place of its last units (dots alone up to three units); they fit the budgets and reservations. |
| ContextPacker.ChosenIsMaximal | src/compiler.js:393-435 | Packing stops early only at an entry that whole exceeds a reservation or the budget; of that entry it keeps an excerpt of which one more unit would be too much, or nothing when its citations or even an empty excerpt are too much. |
| ContextPacker.ShortenedMeans | src/compiler.js:416-422 | That form leaves one text for every length. |
| ContextPacker.LongestLength | src/compiler.js:413-431 | The binary search over any test: a length that passes although the next does not, or none when zero fails. |
| ContextPacker.TruncatedWordFits | src/compiler.js:437-441 | Fitting while marked untruncated carries over to the final marking for every budget, if and only if the Markdown form is at most two characters longer than the JSON form. |
| PackMarkdown.InlineLength | src/markdown.js:13-17 | Text without line ends and control characters grows by one backslash for every markup character. |
| MarkdownInline.InlineAppend | src/markdown.js:7-17 | Two texts can be printed apart and joined, unless a run of line ends is cut. |
| MarkdownInline.LineEndsAreOneSpace | src/markdown.js:7-16 | A run of line ends of any kind is printed as one space. |
| MarkdownInline.OtherUnits | src/markdown.js:13-17 | Every other character is printed as itself, behind a backslash if it is one of the eighteen markup characters. |
| MarkdownInline.ControlsAreShown | src/markdown.js:1-11 | A control character is shown by its code. |
| MarkdownInline.InlineIsInert | src/markdown.js:7-17 | What is printed is one line without control characters, and every markup character in it stands behind a backslash of its own. |
| PackMarkdown.LastCheckCanFail | src/compiler.js:383-441 | A query of enough asterisks makes the last check fail although the empty pack fits: no item is added, and the mark makes the Markdown form one character too long. |
| PackMarkdown.StarsNeedFourDigits | src/compiler.js:373-391 | For 4,000 asterisks that budget is between 1,000 and 9,999 characters, as the fixed text around it assumes. |
| TokenBudget.Allocate | src/token-budget.js:98-113 | An error exactly when the minimums exceed the budget; otherwise an allocation with bounds, conservation and priority as specified. |
| TokenBudget.GrantTowards | src/token-budget.js:103-111 | One pass in priority order grants each reservation as much as is asked and left. |
| TokenBudget.GrantAll | src/token-budget.js:103-111 | Both passes together give an allocation within minimum and maximum that spends all it can, leaves lower priorities at their minimum while a higher one misses its target, and exceeds no target before all are met. |
| TokenBudget.MinimumAllocations | src/token-budget.js:99 | Every reservation starts at its minimum. |
| TokenBudget.PassesGiveAllocation | src/token-budget.js:98-113 | A pass to the targets followed by one to the maximums has all properties of an allocation. |
| TokenBudget.AllocationUnique | src/token-budget.js:98-113 | The stated properties leave exactly one allocation. |
| TokenBudget.PriorityDecides | src/token-budget.js:102-111 | While a reservation misses its target, all of lower priority, or equal and later by name, stay at their minimum; while it misses its maximum, none of them exceeds its target. |
| TokenBudget.DefaultsAreValid | src/token-budget.js:56-96 | The default reservations pass validation for every budget of at least 64 tokens. |
| TokenBudget.DefaultsSpendAll | src/token-budget.js:56-65 | The defaults spend the whole budget, with framing and citations at their targets as far as it reaches. |
| TokenBudget.PlanReservations | src/token-budget.js:67-113 | Given reservations are kept as they are, and refused exactly when the three names, their bounds or priorities are not acceptable or their minimums exceed what is left. |
| TokenBudget.CreateTokenBudget | src/token-budget.js:115-138 | Which numbers a plan gets, default budget and reserve included, when each is refused, and that reserve and available tokens add up to the maximum. |
| ProofContext.Packet.constructor | src/proof-context.js:331 | All counts and tallies agree with the contents at the start. |
| ProofContext.Packet.PopFact | src/proof-context.js:337-345 | Dropping the last fact leaves every count and per-status tally equal to the remaining contents. |
| ProofContext.Packet.PopFile | src/proof-context.js:346-355 | Dropping a file leaves file count, symbol count and reasons equal to the remaining contents. |
| ProofContext.Packet.PopLastFile | src/proof-context.js:365-372 | Dropping the last file empties every file count. |
| ProofContext.Packet.Drop | src/proof-context.js:337-372 | The branches drop facts down to four, then files down to one, then the other facts, then the last file; nothing is dropped only when both lists are empty. |
| ProofContext.Judge | src/proof-context.js:335-336 | A stage is accepted exactly when its settled count is within the budget. |
| ProofContext.NextStage | src/proof-context.js:334-372 | Every stage is a prefix of facts and files, one element shorter than the stage before, until both are empty. |
| ProofContext.TryStage | src/proof-context.js:334-376 | One turn returns, fails or moves to the next stage as specified. |
| ProofContext.FitProof | src/proof-context.js:331-378 | The loop returns the largest packet of the dropping order that fits, with the token count of its own text and marked truncated when anything is missing; the budget error is that of the empty packet, and then no packet of that order fits. |
| ProofContext.StageKeepsBest | src/proof-context.js:331-372 | What is left at any stage: the first facts and files; a file is missing only if at most four facts are left, one of the last four facts only if at most one file is, the last file only after every fact; all counts and tallies are those of what is left. |
| ProofContext.OrderDetermines | src/proof-context.js:337-372 | That order and the number of drops leave one possibility. |
| ProofContext.LaterStagesAreSmaller | src/proof-context.js:331-378 | If dropping shortens the packet, later stages never need more tokens. |
| ProofContext.EmptyDecides | src/proof-context.js:331-378 | If dropping shortens the packet, some stage fits exactly when the empty one does. |
| LinkRank.BuildOutgoing | src/linked-memory.js:138-147 | Every file's list holds another file exactly as often as imports, links and references lead from the one to the other, and nothing else. |
| LinkRank.SendShares | src/linked-memory.js:161 | Each target receives one share per link to it. |
| LinkRank.SendFrom | src/linked-memory.js:153-162 | One file passes its rank on, or adds it to the dangling rank. |
| LinkRank.SendAll | src/linked-memory.js:150-162 | After the loop every file holds the base plus what it received, and the dangling rank is that of all files without links. |
| LinkRank.Iterate | src/linked-memory.js:150-166 | One iteration gives the next ranks of the specification. |
| LinkRank.NextMeans | src/linked-memory.js:150-165 | The next rank of a file is what arrives over the edges into it, each source's damped rank split over the edges out of it, plus an even part of the rest. |
| LinkRank.UnlinkedGetsEvenShare | src/linked-memory.js:150-165 | A file no counted edge leads to holds the even part alone, whatever leads from it. |
| LinkRank.RanksHaveHistory | src/linked-memory.js:148-166 | Ranks after any number of iterations end a history that starts evenly and in which every step is the one stated on the edges. |
| LinkRank.MassAfterStep | src/linked-memory.js:150-166 | The new total is the undamped part plus the damped old total, dangling files included. |
| LinkRank.RanksConserveMass | src/linked-memory.js:138-169 | After every number of iterations the ranks are positive and sum to exactly one. |
| LinkRank.NoRankAboveOne | src/linked-memory.js:167 | No rank is above one, so the final normaliser is one. |
| LinkRank.MaximumOrOne | src/linked-memory.js:167 | The computed normaliser is one. |
| LinkRank.Scale | src/linked-memory.js:168 | Dividing by it changes no rank. |
| LinkRank.RepositoryRanks | src/linked-memory.js:138-169 | The returned ranks end a history of 24 such steps from even ranks, and conserve mass. |
| PosixPath.DirnameIsParent | src/linked-memory.js:521 | A stored path has exactly one parent: what stands before its last name, or the root when the path is a name alone. |
| ProjectionMeaning.NewestAreProjected | src/linked-memory.js:335-341 | The newest 10,000 events are projected, except that an older event with the current structure takes the oldest place. |
| ProjectionMeaning.RelationsKept | src/linked-memory.js:343-357 | An event keeps its relations whose target is no source event or a projected one, in order, and loses one only when the cap is used up from it on. |
| ProjectionMeaning.ReferencesKept | src/linked-memory.js:363-373 | A file keeps its first references, up to 64, and fewer only when the files up to it have used up the cap. |
| LinkedGraph.KeptWithinCap | src/linked-memory.js:343-357 | At most 20,000 relations are kept. |
| LinkedGraph.NewestFirst | src/linked-memory.js:346-356 | An event loses an admissible relation only when the cap is used up by it and newer events. |
| LinkedGraph.ProjectedEventsFacts | src/linked-memory.js:335-341 | At most 10,000 distinct events are projected, the one with the current structure always among them. |
| LinkedGraph.KeptReferencesFacts | src/linked-memory.js:363-373 | Files keep prefixes of their references, at most 20,000 in all. |
| LinkedGraph.ProjectIsValid | src/linked-memory.js:333-373 | The projection of valid events satisfies every cap the assembly relies on. |
| LinkedGraphFacts.StructureNodesFacts | src/linked-memory.js:459-606 | The structure's nodes are distinct and cover every directory, file and reference target. |
| LinkedGraphFacts.DocumentNodesFacts | src/linked-memory.js:412-674 | All nodes before the concepts are distinct, and every relation target is a node or has a reference node. |
| LinkedGraphFacts.NodesAreDistinct | src/linked-memory.js:391-762 | All node identities are distinct, so the collision error is unreachable. |
| LinkedGraphBounds.GraphIsClosed | src/linked-memory.js:446-775 | Every edge ever inserted leads from a node to a node. |
| LinkedGraphBounds.DocumentsAreBounded | src/linked-memory.js:377-382 | How many nodes, and how many that get concept edges, the inputs allow. |
| LinkedGraphBounds.LimitIsUnreachable | src/linked-memory.js:377-390 | The declared bounds stay at or below 65,065 and 395,000, so the limit error is unreachable. |
| LinkedGraphBounds.EdgesWithinBound | src/linked-memory.js:381-382 | Insertions exceed the declared edge bound by at most the six concept edges of a worktree node. |
| LinkedGraphBounds.AbsoluteCaps | src/linked-memory.js:330-775 | For all valid events at most 65,065 nodes and 395,006 insertions. |
| LinkedGraphMeaning.InsertionsMean | src/linked-memory.js:446-775 | An edge is inserted exactly when it joins an event to the next one in time, is a structural edge, a kept relation of an event, or one of a document's at most six concept edges: each family with its own direction and kind. |
| LinkedGraphMeaning.PrecedesMean | src/linked-memory.js:446-457 | A precedence edge joins two projected events exactly when no other one lies between them in time. |
| LinkedGraphMeaning.StructureMeans | src/linked-memory.js:459-616 | Structural edges are exactly: listed parent directory contains child directory or file, file refers to a file of the snapshot or to the node of the name, worktree contains root, event produced root. |
| LinkedGraphMeaning.RelationsMean | src/linked-memory.js:675-687 | A relation leads from its event to the node named, or to that target's reference node when there is none. |
| LinkedGraphMeaning.AboutMeans | src/linked-memory.js:763-775 | Concept edges leave exactly the documents that are not directories, for the first six signature terms that are concepts. |
| GraphNodesMeaning.DocumentNodesMean | src/linked-memory.js:446-640 | Besides concepts, the nodes are the projected events, the parts of the current structure, and one reference node for every relation target that is neither. |
| LinkedGraphLocalBound.InsertionsWithinExactlyWhen | src/linked-memory.js:381-382 | The declared edge bound holds of the insertions for all concepts if and only if the fixed insertions plus six for every document are within it. |
| LinkedGraphLocalBound.EdgesWithinExactlyWhen | src/linked-memory.js:381-382 | The declared bound holds of the deduplicated edges for all concepts if and only if the distinct fixed keys plus six for every document are within it. |
| LinkedGraphLocalBound.BoundHoldsWithoutWorktree | src/linked-memory.js:381-382 | Without a worktree both conditions are met. |
| LinkedGraphLocalBound.BoundCanBeExceeded | src/linked-memory.js:381-382 | One event with a root directory and a worktree gives 14 edges where 8 are declared. |
| EdgeList.OccurrencesAreConserved | src/linked-memory.js:117-132 | The list, each key counted as often as it occurred, is exactly the multiset of non-self insertions; the counts add up to their number. |
| EdgeList.MultiplicityMeans | src/linked-memory.js:117-132 | A key counts as often as it was inserted, and never when it leads from a node to itself. |
| EdgeList.DegreesMean | src/linked-memory.js:216-221 | A node's degrees are how often it is the source and how often it is the target of a listed edge. |
| EdgeList.CountDegrees | src/linked-memory.js:216-221 | Every node gets the number of edges that end and start at it. |
| EdgeList.DegreesSumToEdges | src/linked-memory.js:216-221 | In a closed graph in-degrees and out-degrees each sum to the number of edges. |
| Timeline.InTimeOrderIsTimeline | src/linked-memory.js:446 | Sorting by time and name gives the projected events in strictly ascending order, none lost. |
| GraphBuilder.SelectRelations | src/linked-memory.js:344-357 | The backward loop keeps exactly the specified relations. |
| GraphBuilder.SelectOf | src/linked-memory.js:347-355 | Within an event, admissible relations are kept in order while there is room. |
| GraphBuilder.SelectReferences | src/linked-memory.js:363-372 | The map over files keeps exactly the specified references. |
| GraphBuilder.Builder.AddEdge | src/linked-memory.js:121-132 | After every insertion the list has distinct keys with the right multiplicities; self loops change nothing. |
| GraphBuilder.Builder.AddEvents | src/linked-memory.js:412-439 | One node per event, in order. |
| GraphBuilder.Builder.AddTimeline | src/linked-memory.js:446-457 | One insertion between each event and the next in time. |
| GraphBuilder.Builder.AddDirectories | src/linked-memory.js:493-528 | The specified directory nodes and containment insertions. |
| GraphBuilder.Builder.AddReferences | src/linked-memory.js:563-605 | One insertion per reference, a new node only for a name not seen before. |
| GraphBuilder.Builder.AddFiles | src/linked-memory.js:529-606 | The specified file nodes and insertions. |
| GraphBuilder.Builder.AddStructure | src/linked-memory.js:459-616 | The specified nodes and insertions of the whole structure. |
| GraphBuilder.Builder.AddRelationReferences | src/linked-memory.js:618-674 | One reference node per target that is no node. |
| GraphBuilder.Builder.AddRelations | src/linked-memory.js:675-687 | One insertion per relation, to the target or its reference node. |
| GraphBuilder.Builder.AddConcepts | src/linked-memory.js:700-762 | Concept nodes are appended, or the collision is reported, exactly when one exists. |
| GraphBuilder.Builder.AddAbout | src/linked-memory.js:763-775 | At most six concept insertions per node other than a directory. |
| GraphBuilder.Assemble | src/linked-memory.js:383-775 | For a valid projection assembly succeeds with the specified nodes and an edge list that represents the specified insertions, events taken in order of time. |
| GraphBuilder.GraphIsSound | src/linked-memory.js:330-778 | The assembled graph has distinct nodes and edge keys, no dangling edge, conserved counts and degrees, and is within both caps. |
| StringOrder.SortFacts | src/indexer.js:196 | Sorting distinct strings gives the same strings in strictly ascending order. |
| StringOrder.SameMembers | src/indexer.js:196 | An ascending list is determined by its members. |
| RetrievalIndex.FrequencyTable | src/indexer.js:38-42 | Every value is counted as often as it occurs, and nothing else is. |
| RetrievalIndex.TermsFacts | src/indexer.js:196 | The terms of a document are its distinct lexemes, ascending. |
| RetrievalIndex.FrequenciesSumToLength | src/indexer.js:198-199 | The frequencies of a document's terms add up to its length. |
| RetrievalIndex.EnterDocument | src/indexer.js:251-257 | Entering a document appends its id to the postings of exactly its terms and counts it once in each. |
| RetrievalIndex.SortPostings | src/indexer.js:262 | Every posting list is sorted, none is lost. |
| RetrievalIndex.BuildIndex | src/indexer.js:246-262 | Postings of a term are the ascending ids of exactly the documents that contain it, and document frequency is their number. |
| RetrievalIndex.IndexIsUnique | src/indexer.js:246-262 | That contract determines the index. |
| DerivedGraph.CloseTargets | src/indexer.js:210-222 | Exactly the missing edge targets are added, each once, remembered by its first edge. |
| DerivedGraph.ClosedGraph | src/indexer.js:210-222 | Closing keeps ids unique and leaves no target dangling. |
| DerivedGraph.GroupEdges | src/indexer.js:224-236 | One group per identity, its occurrences in input order, the first edge kept. |
| DerivedGraph.Coalesce | src/indexer.js:224-244 | Identities are unique; a single observation stays as it is, several are listed in order. |
| DerivedGraph.CoalescedMeans | src/indexer.js:283-303 | Each edge of the result stands for all records with its source, kind, target and origin, holds their observations in order, and no record is left out. |
| DerivedGraph.ObservationsAreConserved | src/indexer.js:224-244 | Coalescing preserves the multiset of observations. |
| ProjectGraph.AppendReferences | src/indexer.js:128-155 | The table of reference nodes agrees with the node list, and the specified nodes and edges are appended. |
| ProjectGraph.AppendProjectGraph | src/indexer.js:79-165 | The specified nodes and edges of the current structure are appended. |
| ProjectGraph.OnlyRelationTargetsDangle | src/indexer.js:283-289 | Before closing, nodes are distinct, every source is a node, and only a relation's target can be missing. |
| ProjectGraph.DerivedGraphIsClosed | src/indexer.js:283-290 | After closing, every edge joins two distinctly named nodes. |
| GraphNodesMeaning.GraphKeysMean | src/indexer.js:79-174 | Before closing, the edges are exactly the relations of the events with their targets as named, and those of the current structure: containment, references and the root. |
| GraphNodesMeaning.GraphNodesMean | src/indexer.js:79-165 | And the nodes are exactly the events, the worktree, directories and files, and one per kind and specifier of references that lead to no file. |
| Consent.RevocationWins | src/consent.js:357-510 | In every interleaving of any number of operations, from the moment a tombstone exists and as long as no grant clears it, it stays and no operation newly succeeds. |
| Consent.BuryingRevokes | src/consent.js:507 | The revocation step that writes the tombstone starts such a period. |
| Consent.OnlyGrantsApprove | src/consent.js:399-510 | In every run, each record read or written was approved at the start or by a grant of that run, the enabled switch aside. |
| ConsentMachine.Machine.WriteTrustRecord | src/consent.js:392-397 | Check, write, check again: state and result as specified. |
| ConsentMachine.Machine.SuccessUnlessRevoked | src/consent.js:395 | The last check passes exactly when there is no tombstone. |
| ConsentMachine.Machine.GrantConsent | src/consent.js:399-407 | State and result of an undisturbed grant, with and without keeping a revocation. |
| ConsentMachine.Machine.ReadConsent | src/consent.js:409-415 | Result of an undisturbed read; it changes nothing. |
| ConsentMachine.Machine.UpdateWorkspaceCheckpoint | src/consent.js:449-459 | State and result of an undisturbed checkpoint update. |
| ConsentMachine.Machine.UpdateEnabledConsent | src/consent.js:461-478 | State and result of an undisturbed switch. |
| ConsentMachine.Machine.RevokeConsent | src/consent.js:480-510 | State and result of an undisturbed revocation, malformed files included. |
| ConsentMachine.RevokedFiles | src/consent.js:480-510 | A revocation leaves no trust record and buries the checkpoint of a valid one, of either schema, or else that of the readable tombstone before. |
| ConsentMachine.GrantThenRead | src/consent.js:399-415 | After a grant, reading with its configuration returns its record and every other configuration is refused. |
| ConsentOutcomes.ReadOutcome | src/consent.js:409-415 | What reading consent answers for all contents of the two files, with every error; it writes nothing. |
| ConsentOutcomes.GrantOutcome | src/consent.js:399-407 | When a grant succeeds and what it leaves, with and without keeping a revocation. |
| ConsentOutcomes.OnlySoundRecords | src/consent.js:92-133 | In every interleaving, whatever is written or answered has a policy within bounds and a consistent checkpoint. |
| ConsentOutcomes.ReviewOutcome | src/consent.js:417-447 | What a review is shown for all contents of the two files, with every error. |
| ConsentOutcomes.TombstoneGoneExactlyWhen | src/consent.js:399-407 | In any interleaving a step removes a tombstone if and only if it is the clearing step of a grant. |
| ConsentOutcomes.OnlyClearingGrants | src/consent.js:399-510 | An undisturbed operation removes a tombstone if and only if it is a grant that does not keep it. |
| ConsentOutcomes.GrantResumes | src/consent.js:399-510 | Whatever ran before, a new sound grant is read back, and after a further revocation every reader is refused. |
| ConsentOutcomes.TooSoonCanLose | src/consent.js:480-510 | Removing the trust record while another revocation still needs it can lose every checkpoint, so that condition on runs cannot be dropped. |
| ConsentMachine.UpdateKeepsApproval | src/consent.js:449-459 | A checkpoint update succeeds exactly for an approved, unrevoked workspace and changes only the checkpoint. |
| ConsentMachine.EnabledKeepsTheRest | src/consent.js:461-478 | The switch changes only the enabled value and the time of the grant. |
| ConsentMachine.ReviewSurvivesRevocations | src/consent.js:417-510 | After a revocation no sequence of later operations without a new grant loses the last trusted checkpoint for review. |
| ConsentMachine.RevocationKeepsCheckpoint | src/consent.js:480-509 | Whatever runs between its two reads, a revocation buries a checkpoint if and only if the tombstone held one at the first or the trust record has one at the second. |
| ConsentMachine.RevocationsKeepCheckpoint | src/consent.js:399-510 | In every run of any operations in which no grant clears a tombstone and no revocation removes the trust record before another one that needs it has read it, a checkpoint there was at the start is never lost, and once a revocation has buried, the tombstone holds one. |
| ConsentMachine.RevocationsCanLoseCheckpoint | src/consent.js:480-509 | Two interleaved revocations that end with no checkpoint at all. |
| LspFraming.Reader.First | src/lsp-server.js:200-211 | What comes first in the buffer: an incomplete frame, an error, or a message with its end. |
| LspFraming.Reader.Consume | src/lsp-server.js:198-214 | The loop dispatches every complete message and leaves the rest, up to the first error. |
| LspFraming.Reader.OnData | src/lsp-server.js:216-220 | A piece that overflows the buffer is an error; any other is read together with what was left. |
| LspStreams.OverflowExactlyWhen | src/lsp-server.js:217-218 | A piece is refused if and only if it makes the buffer longer than 4 MiB and 64 KiB; then nothing is read from it. |
| LspStreams.HeadStays | src/lsp-server.js:198-214 | Once the first message or error is known, more bytes do not change it. |
| LspStreams.ScanAppend | src/lsp-server.js:198-214 | Reading two buffers joined is reading the first and then its rest with the second. |
| LspStreams.FeedIsScan | src/lsp-server.js:198-220 | Unless a piece overflows the buffer, pieces are read exactly like their concatenation, errors included. |
| LspStreams.PiecesDoNotMatter | src/lsp-server.js:198-220 | Two ways of cutting the same bytes give the same messages and the same error. |
| LspHeader.FirstLengthMeans | src/lsp-server.js:203-205 | The length of a header is that of its first line, wherever it stands, that is the field name in any case, white space, and digits to the end. |
| LspHeader.WithoutBlankLine | src/lsp-server.js:200-201 | Until a blank line arrives nothing is read. |
| LspHeader.WithoutLength | src/lsp-server.js:202-204 | A header without a length field is an error that leaves the buffer as it is. |
| LspHeader.WithLength | src/lsp-server.js:203-215 | With one, the payload is awaited, refused before it comes when too long, dropped when it does not parse, or dispatched. |
| LspStreams.Writer.Write | src/lsp-server.js:74-80 | A message is written as its length field, a blank line and its payload. |
| LspStreams.HeaderReads | src/lsp-server.js:203-205 | The printed length field is read back as the length. |
| LspStreams.FrameHead | src/lsp-server.js:200-211 | A printed frame with anything after it is read as its message and nothing more. |
| LspStreams.FramePrefix | src/lsp-server.js:200-208 | No proper prefix of a frame is taken for a message or an error. |
| LspStreams.RoundTrip | src/lsp-server.js:198-220 | Printed messages in any pieces within the buffer bound are dispatched exactly as far as their frames arrived, and only an incomplete frame stays buffered. |
| LineStream.LinesAreTheFile | src/archive-import.js:409-432 | No line holds a newline, and the lines with their newlines are the file, up to a missing last one. |
| LineStream.DeliversLongestRun | src/archive-import.js:409-432 | Delivered are the longest leading run of lines within the limit, numbered, each without the carriage return that may end it; the size error occurs if and only if some line exceeds the limit. |
| LineStream.Drain | src/archive-import.js:419-426 | The inner loop delivers every whole buffered line and leaves no newline behind. |
| LineStream.StreamLines | src/archive-import.js:409-436 | However the stream is cut, the outcome is that of the whole file. |
| ChatMemory.ChunkText | src/chat-memory.js:66-74 | Chunks are non-empty, at most 24,000 units, concatenate to the text, split no surrogate pair, and all but the last have at least 23,999 units. |
| ChatMemory.RankingIsRanked | src/chat-memory.js:40-45 | Sentences are ordered by score, ties by position. |
| ChatExtract.InOrderWeighs | src/chat-memory.js:54-55 | Putting the chosen sentences back in text order changes neither their number nor their length. |
| ChatSentences.SentencesMean | src/chat-memory.js:39-42 | The sentences are the longest runs without a full stop, exclamation or question mark, each with the mark that ends it, in order, covering all other text, and trimmed of spaces. |
| ChatSentences.SummaryMeans | src/chat-memory.js:40-57 | A shortened text is its best fitting sentences in text order, one space between, or the cut text: a sentence is chosen exactly when fewer than six better ones are and it fits with them. |
| ChatExtract.Select | src/chat-memory.js:46-53 | The loop picks, in ranked order, whatever still fits, until there are six. |
| ChatExtract.SummaryIsExtract | src/chat-memory.js:46-57 | A shortened text is at most six sentences in text order within the room left by the note, or the beginning of the text. |
| ChatExtract.SummaryFits | src/chat-memory.js:35-58 | A summary stays within its maximum if and only if the text does or the maximum is at least 25. |
| ChatExtract.CallersSummariesFit | src/chat-memory.js:103-260 | For every maximum the callers pass, 128 or more, the summary fits. |
| ChatExtract.ExtractiveText | src/chat-memory.js:35-58 | The method computes exactly the specified summary. |
| JsonText.PrintedLengthIsLength | src/canonical.js:16-18 | The length counted for a text inside a JSON string is that of the text as it is printed, escapes and halves of surrogate pairs included. |
| ChatRecall.FitItem | src/chat-memory.js:255-268 | The excerpt is shortened step by step until it fits, and dropped when no step does. |
| RecallMeaning.FittedMeans | src/chat-memory.js:255-268 | An item holds the longest of the lengths tried that fits, of the text from its offset or of the summary; there is none without room for one step or when the shortest length is too long. |
| ChatRecall.FullItemIsPage | src/chat-memory.js:258-268 | A full item is the text from its offset on, at least 128 units or all that is left, with the right next offset, within the limit. |
| ChatRecall.PagesAdvance | src/chat-memory.js:253-266 | Successive pages advance by at least 128 units each, so they come to an end. |
| ChatRecall.PagesConcatenate | src/chat-memory.js:253-266 | Following the next offsets gives the text back. |
| ChatRecall.Recall | src/chat-memory.js:240-271 | The loop computes the specified packet: limit, skipped candidates, stop at the first that does not fit, offset error. |
| RecallMeaning.RecallMeans | src/chat-memory.js:240-271 | A packet holds all admissible candidates up to the limit or to the first of which nothing fits, each as it fits beside those before it; it is marked truncated exactly when there is such a one or a text goes on. |
| RecallMeaning.ItemCosts | src/chat-memory.js:249-271 | One more item adds its fixed frame, its excerpt as printed in JSON, both offsets and a comma to a packet; the truncated mark costs its word. |
| ChatRecall.RecallIsSound | src/chat-memory.js:240-271 | A packet with items is within the limit as measured, and its items come from distinct admissible candidates in order. |
| ChatRecall.FinalSizeBound | src/chat-memory.js:272-275 | A packet with items is within the limit as measured; writing its coverage word adds exactly four characters without a query, three when part of its terms is covered, two when all are, none when none is. |
| ChatRecall.FullPacket | src/chat-memory.js:252-271 | Whatever the query, ids and title, some text fills its printed packet to exactly the limit. |
| ChatRecall.StaysExactlyWhen | src/chat-memory.js:234-275 | Over all candidates and accepted calls with a printed packet's size, every packet with items stays within the limit if and only if the coverage is "none". |
| ChatRecall.EmptyPacketIsUnmeasured | src/chat-memory.js:240-277 | Without a candidate the packet is returned whatever its size; it fits exactly when its own fixed text does. |
| SnapshotDiff.GroupByHash | src/project-structure.js:396-402 | Deleted files are grouped by hash, in order, files without a hash in no group. |
| SnapshotDiff.DetectRenames | src/project-structure.js:403-414 | The loop finds exactly the specified renames. |
| SnapshotDiff.RenamesAreExact | src/project-structure.js:403-414 | An added file counts as renamed if and only if a single deleted file has its hash and no earlier added file does; renames are one-to-one. |
| SnapshotDiff.StructureChanges | src/project-structure.js:385-421 | The computed changes are those of the specification. |
| SnapshotReconstruct.ChangesAreClassified | src/project-structure.js:389-420 | What each class holds, in terms of the two snapshots alone; each list ascending; renames keep their hash. |
| SnapshotRenames.RenamedExactlyWhen | src/project-structure.js:395-415 | A file counts as renamed if and only if exactly one path with its hash has gone and it is the first new file that has it, said of the two snapshots alone. |
| SnapshotReconstruct.ClassesAreDisjoint | src/project-structure.js:389-420 | No path is in two classes. |
| SnapshotReconstruct.ChangesReconstruct | src/project-structure.js:385-421 | The changes, with the hashes of added and changed files alone, turn the old path-to-hash map into the new one. |
| SnapshotReconstruct.FirstSnapshotReconstructs | src/project-structure.js:386-388 | Without an old snapshot the added files are the whole new one. |
| CodingHarness.Workspace.CompileWorktree | src/coding-harness.js:356-406 | A run appends at most its own record; new ledger and outcome are those of the specification. |
| CodingHarness.ReachableIsWellFormed | src/coding-harness.js:303-354 | In every reachable ledger each record is what the events before it make it, and keys are unique. |
| CodingHarness.SourcesAreAppended | src/coding-harness.js:303-354 | In every run of actions the source events are exactly those appended, in order. |
| CodingHarness.IncrementIsDifference | src/coding-harness.js:223-254 | A run counts exactly the source events that no earlier run for its query and worktree had seen, and when each mode is reported. |
| CodingHarness.CountsTelescope | src/coding-harness.js:223-254 | The recorded counts for a query and worktree add up to the number of source events its newest run had seen. |
| CodingHarness.RecordedRunCoversAll | src/coding-harness.js:356-406 | After a recorded or reused run they add up to all source events so far. |
| CodingHarness.RerunIsUnchanged | src/coding-harness.js:356-406 | With no new source event a rerun appends nothing, reuses the record and reports no change. |
| Redaction.PrivateKeyLabel | src/redact.js:16-25 | Accepted are exactly the labels of capitals and spaces that end in the private-key words. |
| Redaction.PrivateKeyMarkerEnd | src/redact.js:27-33 | The computed end is that of the marker's specification. |
| Redaction.MarkerEndIsMarker | src/redact.js:27-33 | The index arithmetic finds exactly the marker text, whose end is unique. |
| Redaction.MarkerMeans | src/redact.js:10-33 | A marker is five dashes, the word, a name of capitals and spaces that ends in the private-key words, and five dashes. |
| Redaction.NoOverlap | src/redact.js:40-47 | A marker prefix never overlaps itself, so a failed match can be skipped whole. |
| Redaction.FindBlockEnd | src/redact.js:49-57 | The inner loop finds the end of the first END marker, or none. |
| Redaction.RedactPrivateKeyBlocks | src/redact.js:35-75 | The scanner computes the specified text and ends. |
| Redaction.RedactedKeepsOutside | src/redact.js:35-75 | The output is exactly the text outside the leftmost begin-to-end blocks, in order, with one replacement word per block. |
| Redaction.BlocksExist | src/redact.js:35-75 | Every text has such a list of blocks. |
| Redaction.NoMarkerLeft | src/redact.js:35-75 | No BEGIN marker with a private-key label is left, and the text is unchanged if and only if it had none. |
| Redaction.RedactionIdempotent | src/redact.js:35-75 | Redacting again changes nothing. |

## Left out

Idealised, with the laws stated where they are used:

- Identities and digests made with SHA-256 (object, archive and node ids, policy digests, run keys, edge identities)
  are one-to-one; event ids and event hashes are unique.
- AES-256-GCM, HMAC and Brotli are functions with inverse laws, and GCM opens nothing but what it would seal itself
  (sections 7.1 and 7.2 of NIST SP 800-38D, RFC 7932); resistance to attack is not stated.
- JSON and Markdown printing: a rendering is its length as a function of the items plus the digits of the counters it
  prints; only archive manifests, recalled packets and the query of a context pack are measured character by character.
- Ranks are real numbers; the floating-point sum and the rounding to eight digits are not modelled.
- Text is a sequence of code units; Unicode normalisation, case folding and locale order are not modelled.

Weaker than the source, by member:

- SizeAccounting.FinalizePack: only for the portable estimator; a caller's estimator need not settle.
- SizeAccounting.FinalizeProof: only for the portable estimator, for the same reason.
- ContextPacker.CompileContext: an estimate outside the estimator's range while packing is not an outcome of its own.
- LinkRank.RepositoryRanks: the final rounding is left out.
- GraphBuilder.Assemble: nodes and edges carry identities only, not labels, times, weights or evidence; the scored terms
  are inputs; the order of the edges is not stated.
- ProjectGraph.AppendProjectGraph: nodes and edges carry identities only.
- RetrievalIndex.BuildIndex: splitting text into lexemes, the adjacency lists and the average length are left out.
- DerivedGraph.Coalesce: the order of the result is not stated; it is sorted afterwards by locale.
- SnapshotDiff.StructureChanges: the rename list stays in discovery order; the source sorts it by locale.
- ArchiveStore.Store.ValidateManifest: exact key sets, schema name, timestamp form and hash syntax are left out.
- ArchiveStore.Store.Restore: returns paths and bytes; writing them below a destination is left out.
- Consent.RevocationWins: a write of a file is one atomic step, and each process runs at its own pace; file-system
  failures inside a step are left out.
- LineStream.StreamLines: lines are bytes; decoding them, and the number in the error text, are left out.
- ChatExtract.ExtractiveText: redacting, collapsing white space and scoring a sentence happen before.
- ChatRecall.Recall: which candidates are admitted and their order are inputs.
- CodingHarness.Workspace.CompileWorktree: one ledger; the context pack, the summary text, the metrics and the
  metadata-only form of a record are left out.

Not modelled:

- Interleaved archive operations and crashes during an object write: the archive takes no lock and does not claim these.
- File system checks, directory walking, link and inode rules, abort signals, HTTP, the command line, the dashboard.
- `reservationUsage` (src/token-budget.js:153-160): its two counts are part of the renderer.
- The language server's `documents` table and its request handlers.
- The bearer and token patterns of `redactText`, and `redactValue`.
- Event envelopes, the ledger's own append, lock and chain walk, admission and ranking of events.
- `src/project-watcher.js`, host installers, task packs, activation metrics, evaluation counters.
