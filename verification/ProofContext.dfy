/**
 * Fitting a proof context into its token budget (src/proof-context.js): facts and repository files
 * are dropped from the end in a fixed order until the packet fits, and every printed count is
 * brought up to date with each drop.
 */
module ProofContext {
  import opened Common
  import opened SizeAccounting

  datatype Status = Current | Superseded | Conflicted | Expired | Mixed

  const STATUSES: set<Status> := {Current, Superseded, Conflicted, Expired, Mixed}

  datatype Fact = Fact(statement: string, status: Status)

  datatype SelectedFile = SelectedFile(path: string, score: nat, reasons: seq<string>, contentHash: string, symbols: seq<string>)

  datatype FileReason = FileReason(path: string, score: nat, reasons: seq<string>, contentHash: string)

  /** Everything in the packet that depends on the selected facts and files. */
  datatype Contents = Contents(
    facts: seq<Fact>, statusCounts: map<Status, nat>, factCount: nat,
    files: seq<SelectedFile>, fileCount: nat, symbolCount: nat, fileReasons: seq<FileReason>)

  function CountStatus(facts: seq<Fact>, status: Status): nat {
    if facts == [] then 0 else CountStatus(facts[..|facts| - 1], status) + if facts[|facts| - 1].status == status then 1 else 0
  }

  function StatusesOf(facts: seq<Fact>): seq<Status> {
    seq(|facts|, i requires 0 <= i < |facts| => facts[i].status)
  }

  /** The tally of a status is how often it occurs. */
  lemma {:induction false} CountStatusIsTally(facts: seq<Fact>, status: Status)
    ensures CountStatus(facts, status) == multiset(StatusesOf(facts))[status]
  {
    if facts != [] {
      var front, last := facts[..|facts| - 1], facts[|facts| - 1];
      CountStatusIsTally(front, status);
      assert StatusesOf(facts) == StatusesOf(front) + [last.status];
    }
  }

  function CountSymbols(files: seq<SelectedFile>): nat {
    if files == [] then 0 else CountSymbols(files[..|files| - 1]) + |files[|files| - 1].symbols|
  }

  function SymbolsOf(files: seq<SelectedFile>): seq<seq<string>> {
    seq(|files|, i requires 0 <= i < |files| => files[i].symbols)
  }

  lemma {:induction false} CountSymbolsIsLength(files: seq<SelectedFile>)
    ensures CountSymbols(files) == |Flatten(SymbolsOf(files))|
  {
    if files != [] {
      var front, last := files[..|files| - 1], files[|files| - 1];
      CountSymbolsIsLength(front);
      assert SymbolsOf(files) == SymbolsOf(front) + [last.symbols];
      FlattenSnoc(SymbolsOf(front), last.symbols);
    }
  }

  function ReasonOf(file: SelectedFile): FileReason {
    FileReason(file.path, file.score, file.reasons, file.contentHash)
  }

  function Reasons(files: seq<SelectedFile>): seq<FileReason> {
    seq(|files|, i requires 0 <= i < |files| => ReasonOf(files[i]))
  }

  /** The packet whose counts, tallies and reasons are those of its own facts and files. */
  function Consistent(facts: seq<Fact>, files: seq<SelectedFile>): Contents {
    Contents(facts, map s | s in STATUSES :: CountStatus(facts, s), |facts|,
             files, |files|, CountSymbols(files), Reasons(files))
  }

  // ---------- the order of dropping ----------

  datatype Sizes = Sizes(facts: nat, files: nat)

  /** Facts down to four, then files down to one, then the other facts, then the last file. */
  function DropOne(s: Sizes): Sizes {
    if s.facts > 4 then Sizes(s.facts - 1, s.files)
    else if s.files > 1 then Sizes(s.facts, s.files - 1)
    else if s.facts > 0 then Sizes(s.facts - 1, s.files)
    else if s.files > 0 then Sizes(s.facts, s.files - 1)
    else s
  }

  function Dropped(s: Sizes, k: nat): (r: Sizes)
    ensures r.facts <= s.facts && r.files <= s.files
    ensures r.facts + r.files == Max(0, s.facts + s.files - k)
  {
    if k == 0 then s else DropOne(Dropped(s, k - 1))
  }

  /**
   * How far dropping may have come: files go only when at most four facts are left, the last four facts
   * only when at most one file is, and the last file only after the last fact.
   */
  predicate InDroppingOrder(all: Sizes, left: Sizes) {
    && left.facts <= all.facts && left.files <= all.files
    && (left.files < all.files ==> left.facts <= 4)
    && (left.facts < Min(4, all.facts) ==> left.files <= 1)
    && (left.files == 0 < all.files ==> left.facts == 0)
  }

  lemma {:induction false} DroppedInOrder(s: Sizes, k: nat)
    ensures InDroppingOrder(s, Dropped(s, k))
  {
    if k > 0 {
      DroppedInOrder(s, k - 1);
    }
  }

  /** That order and the number of drops say what is left. */
  lemma OrderDetermines(all: Sizes, a: Sizes, b: Sizes)
    requires InDroppingOrder(all, a) && InDroppingOrder(all, b) && a.facts + a.files == b.facts + b.files
    ensures a == b
  {
  }

  /** The packet after `k` drops: prefixes of the ranked facts and files. */
  function Stage(facts: seq<Fact>, files: seq<SelectedFile>, k: nat): Contents {
    var s := Dropped(Sizes(|facts|, |files|), k);
    Consistent(facts[..s.facts], files[..s.files])
  }

  predicate Empty(c: Contents) { c.facts == [] && c.files == [] }

  function AfterDrop(c: Contents): Contents {
    var s := DropOne(Sizes(|c.facts|, |c.files|));
    Consistent(c.facts[..s.facts], c.files[..s.files])
  }

  lemma NextStage(facts: seq<Fact>, files: seq<SelectedFile>, k: nat)
    ensures Stage(facts, files, k + 1) == AfterDrop(Stage(facts, files, k))
    ensures Empty(Stage(facts, files, k)) <==> k >= |facts| + |files|
  {
    var s := Dropped(Sizes(|facts|, |files|), k);
    var t := DropOne(s);
    assert Dropped(Sizes(|facts|, |files|), k + 1) == t;
    assert facts[..s.facts][..t.facts] == facts[..t.facts];
    assert files[..s.files][..t.files] == files[..t.files];
  }

  /** Rendered length of a packet without its token count, for a given `truncated` flag. */
  type Renderer = (Contents, bool) -> nat

  function StageTokens(render: Renderer, facts: seq<Fact>, files: seq<SelectedFile>, truncated: bool, k: nat): nat {
    ProofSettled(render(Stage(facts, files, k), truncated || k > 0))
  }

  // ---------- the packet, updated in place ----------

  class Packet {
    var facts: seq<Fact>
    var statusCounts: map<Status, nat>
    var factCount: nat
    var files: seq<SelectedFile>
    var fileCount: nat
    var symbolCount: nat
    var fileReasons: seq<FileReason>

    function Read(): Contents
      reads this
    {
      Contents(facts, statusCounts, factCount, files, fileCount, symbolCount, fileReasons)
    }

    ghost predicate Valid()
      reads this
    {
      Read() == Consistent(facts, files)
    }

    constructor (facts: seq<Fact>, files: seq<SelectedFile>)
      ensures Valid() && Read() == Consistent(facts, files)
    {
      var start := Consistent(facts, files);
      this.facts := start.facts;
      statusCounts := start.statusCounts;
      factCount := start.factCount;
      this.files := start.files;
      fileCount := start.fileCount;
      symbolCount := start.symbolCount;
      fileReasons := start.fileReasons;
    }

    /** Every status is counted anew. */
    method CountStatuses()
      requires statusCounts.Keys == STATUSES
      modifies this`statusCounts
      ensures statusCounts == map s | s in STATUSES :: CountStatus(facts, s)
    {
      var pending := statusCounts.Keys;
      while pending != {}
        invariant statusCounts.Keys == STATUSES && pending <= STATUSES
        invariant forall s :: s in STATUSES - pending ==> statusCounts[s] == CountStatus(facts, s)
        decreases |pending|
      {
        var status :| status in pending;
        statusCounts := statusCounts[status := CountStatus(facts, status)];
        pending := pending - {status};
      }
    }

    method PopFact()
      requires Valid() && facts != []
      modifies this
      ensures Valid() && Read() == Consistent(old(facts)[..|old(facts)| - 1], old(files))
    {
      facts := facts[..|facts| - 1];
      factCount := |facts|;
      CountStatuses();
    }

    method PopFile()
      requires Valid() && |files| > 1
      modifies this
      ensures Valid() && Read() == Consistent(old(facts), old(files)[..|old(files)| - 1])
    {
      files := files[..|files| - 1];
      fileCount := |files|;
      symbolCount := CountSymbols(files);
      fileReasons := Reasons(files);
    }

    method PopLastFile()
      requires Valid() && |files| == 1
      modifies this
      ensures Valid() && Read() == Consistent(old(facts), [])
    {
      files := files[..|files| - 1];
      fileCount := 0;
      symbolCount := 0;
      fileReasons := [];
    }

    /** The branches of the shrinking loop; false when there is nothing left to drop. */
    method Drop() returns (dropped: bool)
      requires Valid()
      modifies this
      ensures Valid()
      ensures dropped == !Empty(old(Read()))
      ensures Read() == AfterDrop(old(Read()))
    {
      assert facts[..|facts|] == facts && files[..|files|] == files && files[..0] == [];
      if |facts| > 4 {
        PopFact();
      } else if |files| > 1 {
        PopFile();
      } else if |facts| > 0 {
        PopFact();
      } else if |files| > 0 {
        PopLastFile();
      } else {
        return false;
      }
      return true;
    }
  }

  datatype Proof = Proof(contents: Contents, truncated: bool, usedTokens: nat)

  datatype ProofError = BudgetTooSmall(usedTokens: nat) | EstimateError | AccountingUnstable

  method Judge(chars: nat, maxTokens: nat) returns (r: Result<nat, ProofError>)
    requires maxTokens <= MAX_ESTIMATE
    ensures r.Ok? <==> ProofSettled(chars) <= maxTokens
    ensures r.Ok? ==> r.value == ProofSettled(chars)
    ensures r.Err? ==> r.error == if ProofSettled(chars) > MAX_ESTIMATE then EstimateError else BudgetTooSmall(ProofSettled(chars))
  {
    var outcome := FinalizeProof(chars);
    match outcome
    case ProofEstimateOutOfRange => return Err(EstimateError);
    case ProofUnstable => return Err(AccountingUnstable);
    case ProofStable(usedTokens) =>
      return if usedTokens <= maxTokens then Ok(usedTokens) else Err(BudgetTooSmall(usedTokens));
  }

  /** What the loop concludes at one stage; `None` means that it drops one more and goes on. */
  ghost predicate Concludes(render: Renderer, facts: seq<Fact>, files: seq<SelectedFile>, alreadyTruncated: bool,
                            maxTokens: nat, k: nat, conclusion: Option<Result<Proof, ProofError>>)
  {
    var tokens := StageTokens(render, facts, files, alreadyTruncated, k);
    match conclusion
    case None => tokens > maxTokens && k < |facts| + |files|
    case Some(Ok(proof)) => tokens <= maxTokens && proof == Proof(Stage(facts, files, k), alreadyTruncated || k > 0, tokens)
    case Some(Err(BudgetTooSmall(used))) => tokens > maxTokens && used == tokens && k == |facts| + |files|
    case Some(Err(EstimateError)) => tokens > MAX_ESTIMATE
    case Some(Err(AccountingUnstable)) => false
  }

  /** One turn of the shrinking loop. */
  method TryStage(packet: Packet, render: Renderer, alreadyTruncated: bool, truncated: bool, maxTokens: nat,
                  ghost facts: seq<Fact>, ghost files: seq<SelectedFile>, ghost k: nat)
    returns (conclusion: Option<Result<Proof, ProofError>>)
    requires maxTokens <= MAX_ESTIMATE && k <= |facts| + |files|
    requires packet.Valid() && packet.Read() == Stage(facts, files, k) && truncated == (alreadyTruncated || k > 0)
    modifies packet
    ensures packet.Valid()
    ensures Concludes(render, facts, files, alreadyTruncated, maxTokens, k, conclusion)
    ensures conclusion.None? ==> packet.Read() == Stage(facts, files, k + 1)
  {
    var verdict := Judge(render(packet.Read(), truncated), maxTokens);
    if verdict.Err? && !verdict.error.BudgetTooSmall? {
      return Some(Err(verdict.error));
    }
    if verdict.Ok? {
      return Some(Ok(Proof(packet.Read(), truncated, verdict.value)));
    }
    NextStage(facts, files, k);
    var dropped := packet.Drop();
    if !dropped {
      return Some(Err(verdict.error));
    }
    return None;
  }

  /** The stage after so many drops decides the result, and none before it did. */
  ghost predicate FirstConclusion(render: Renderer, facts: seq<Fact>, files: seq<SelectedFile>, alreadyTruncated: bool,
                                  maxTokens: nat, drops: nat, r: Result<Proof, ProofError>)
  {
    && Concludes(render, facts, files, alreadyTruncated, maxTokens, drops, Some(r))
    && forall k: nat :: k < drops ==> StageTokens(render, facts, files, alreadyTruncated, k) > maxTokens
  }

  lemma FirstStage(facts: seq<Fact>, files: seq<SelectedFile>)
    ensures Stage(facts, files, 0) == Consistent(facts, files)
  {
    assert facts[..|facts|] == facts && files[..|files|] == files;
  }

  /** The shrinking loop of `buildProofContext`: it returns what the first stage says that says anything. */
  method Shrink(render: Renderer, facts: seq<Fact>, files: seq<SelectedFile>, alreadyTruncated: bool, maxTokens: nat)
    returns (r: Result<Proof, ProofError>, ghost drops: nat)
    requires 1_024 <= maxTokens <= 1_000_000
    ensures drops <= |facts| + |files| && FirstConclusion(render, facts, files, alreadyTruncated, maxTokens, drops, r)
  {
    var packet := new Packet(facts, files);
    var truncated := alreadyTruncated;
    drops := 0;
    FirstStage(facts, files);
    while true
      invariant fresh(packet) && packet.Valid()
      invariant drops <= |facts| + |files|
      invariant packet.Read() == Stage(facts, files, drops)
      invariant truncated == (alreadyTruncated || drops > 0)
      invariant forall k: nat :: k < drops ==> StageTokens(render, facts, files, alreadyTruncated, k) > maxTokens
      decreases |facts| + |files| - drops
    {
      var conclusion := TryStage(packet, render, alreadyTruncated, truncated, maxTokens, facts, files, drops);
      if conclusion.Some? {
        return conclusion.value, drops;
      }
      drops := drops + 1;
      truncated := true;
    }
  }

  /**
   * Main result: the packet returned is the first of the dropping order that fits, and the largest; the error
   * for the budget means that none fits, the empty one included.
   */
  method FitProof(render: Renderer, facts: seq<Fact>, files: seq<SelectedFile>, alreadyTruncated: bool, maxTokens: nat)
    returns (r: Result<Proof, ProofError>)
    requires 1_024 <= maxTokens <= 1_000_000
    ensures exists drops: nat :: FirstConclusion(render, facts, files, alreadyTruncated, maxTokens, drops, r)
    ensures ReturnsBest(render, facts, files, alreadyTruncated, maxTokens, r)
  {
    ghost var drops;
    r, drops := Shrink(render, facts, files, alreadyTruncated, maxTokens);
    ConclusionMeans(render, facts, files, alreadyTruncated, maxTokens, drops, r);
  }

  /** What a returned packet holds: the first facts and files, left in the dropping order, with counts of its own. */
  ghost predicate KeepsBest(facts: seq<Fact>, files: seq<SelectedFile>, c: Contents) {
    && c.facts <= facts && c.files <= files
    && InDroppingOrder(Sizes(|facts|, |files|), Sizes(|c.facts|, |c.files|))
    && c.factCount == |c.facts| && c.fileCount == |c.files|
    && c.symbolCount == |Flatten(SymbolsOf(c.files))|
    && c.statusCounts.Keys == STATUSES
    && (forall s :: s in STATUSES ==> c.statusCounts[s] == multiset(StatusesOf(c.facts))[s])
    && |c.fileReasons| == |c.files|
    && forall i :: 0 <= i < |c.files| ==>
         c.fileReasons[i] == FileReason(c.files[i].path, c.files[i].score, c.files[i].reasons, c.files[i].contentHash)
  }

  lemma StageKeepsBest(facts: seq<Fact>, files: seq<SelectedFile>, k: nat)
    ensures KeepsBest(facts, files, Stage(facts, files, k))
  {
    var c := Stage(facts, files, k);
    DroppedInOrder(Sizes(|facts|, |files|), k);
    CountSymbolsIsLength(c.files);
    forall s | s in STATUSES ensures c.statusCounts[s] == multiset(StatusesOf(c.facts))[s] {
      CountStatusIsTally(c.facts, s);
    }
  }

  /** The packet of the first facts and files that are left takes more tokens than this. */
  ghost predicate TooMany(render: Renderer, facts: seq<Fact>, files: seq<SelectedFile>, alreadyTruncated: bool,
                          maxTokens: nat, left: Sizes)
    requires left.facts <= |facts| && left.files <= |files|
  {
    var truncated := alreadyTruncated || left != Sizes(|facts|, |files|);
    ProofSettled(render(Consistent(facts[..left.facts], files[..left.files]), truncated)) > maxTokens
  }

  /** No packet left in the dropping order with more than `n` facts and files fits. */
  ghost predicate NoneLarger(render: Renderer, facts: seq<Fact>, files: seq<SelectedFile>, alreadyTruncated: bool,
                             maxTokens: nat, n: int)
  {
    forall left :: InDroppingOrder(Sizes(|facts|, |files|), left) && left.facts + left.files > n ==>
      TooMany(render, facts, files, alreadyTruncated, maxTokens, left)
  }

  lemma LeftIsDropped(all: Sizes, left: Sizes)
    requires InDroppingOrder(all, left)
    ensures left == Dropped(all, all.facts + all.files - (left.facts + left.files))
  {
    var k := all.facts + all.files - (left.facts + left.files);
    DroppedInOrder(all, k);
    OrderDetermines(all, left, Dropped(all, k));
  }

  lemma EarlierAreLarger(render: Renderer, facts: seq<Fact>, files: seq<SelectedFile>, alreadyTruncated: bool,
                         maxTokens: nat, drops: nat)
    requires drops <= |facts| + |files| + 1
    requires forall k: nat :: k < drops ==> StageTokens(render, facts, files, alreadyTruncated, k) > maxTokens
    ensures NoneLarger(render, facts, files, alreadyTruncated, maxTokens, |facts| + |files| - drops)
  {
    var all := Sizes(|facts|, |files|);
    forall left | InDroppingOrder(all, left) && left.facts + left.files > |facts| + |files| - drops
      ensures TooMany(render, facts, files, alreadyTruncated, maxTokens, left)
    {
      LeftIsDropped(all, left);
      var k := |facts| + |files| - (left.facts + left.files);
      assert StageTokens(render, facts, files, alreadyTruncated, k) > maxTokens;
    }
  }

  /**
   * A returned packet is the largest of the dropping order that fits, states its own tokens, and is marked
   * truncated when anything is missing; the budget error is that of the empty packet, and then none fits.
   */
  ghost predicate ReturnsBest(render: Renderer, facts: seq<Fact>, files: seq<SelectedFile>, alreadyTruncated: bool,
                              maxTokens: nat, r: Result<Proof, ProofError>)
  {
    && (r.Ok? ==>
          var c := r.value.contents;
          && KeepsBest(facts, files, c)
          && r.value.usedTokens == ProofSettled(render(c, r.value.truncated)) <= maxTokens
          && NoneLarger(render, facts, files, alreadyTruncated, maxTokens, |c.facts| + |c.files|)
          && (r.value.truncated <==> alreadyTruncated || c.facts != facts || c.files != files))
    && (r.Err? && r.error.BudgetTooSmall? ==>
          && r.error.usedTokens == ProofSettled(render(Consistent([], []), alreadyTruncated || facts != [] || files != []))
          && NoneLarger(render, facts, files, alreadyTruncated, maxTokens, -1))
  }

  lemma ConclusionMeans(render: Renderer, facts: seq<Fact>, files: seq<SelectedFile>, alreadyTruncated: bool,
                        maxTokens: nat, drops: nat, r: Result<Proof, ProofError>)
    requires drops <= |facts| + |files|
    requires FirstConclusion(render, facts, files, alreadyTruncated, maxTokens, drops, r)
    ensures ReturnsBest(render, facts, files, alreadyTruncated, maxTokens, r)
  {
    var s := Dropped(Sizes(|facts|, |files|), drops);
    StageKeepsBest(facts, files, drops);
    EarlierAreLarger(render, facts, files, alreadyTruncated, maxTokens, drops);
    if r.Err? && r.error.BudgetTooSmall? {
      EarlierAreLarger(render, facts, files, alreadyTruncated, maxTokens, drops + 1);
    }
    if s.facts == |facts| { assert facts[..s.facts] == facts; }
    if s.files == |files| { assert files[..s.files] == files; }
    assert facts[..0] == [] && files[..0] == [];
  }

  /** A rendering to which every dropped fact or file adds characters. */
  ghost predicate DropsShorten(render: Renderer, facts: seq<Fact>, files: seq<SelectedFile>, truncated: bool) {
    forall k: nat :: k < |facts| + |files| ==>
      render(Stage(facts, files, k + 1), true) <= render(Stage(facts, files, k), truncated || k > 0)
  }

  lemma {:induction false} LaterStagesAreSmaller(render: Renderer, facts: seq<Fact>, files: seq<SelectedFile>,
                                                 truncated: bool, k: nat, n: nat)
    requires DropsShorten(render, facts, files, truncated) && k <= n <= |facts| + |files|
    ensures StageTokens(render, facts, files, truncated, n) <= StageTokens(render, facts, files, truncated, k)
    decreases n - k
  {
    if k < n {
      LaterStagesAreSmaller(render, facts, files, truncated, k, n - 1);
      ProofSettledMonotone(render(Stage(facts, files, n), true), render(Stage(facts, files, n - 1), truncated || n - 1 > 0));
    }
  }

  /** If dropping shortens the packet, some stage fits exactly when the empty packet does. */
  lemma EmptyDecides(render: Renderer, facts: seq<Fact>, files: seq<SelectedFile>, truncated: bool, maxTokens: nat)
    requires DropsShorten(render, facts, files, truncated)
    ensures (exists k: nat :: k <= |facts| + |files| && StageTokens(render, facts, files, truncated, k) <= maxTokens)
       <==> StageTokens(render, facts, files, truncated, |facts| + |files|) <= maxTokens
  {
    if k: nat :| k <= |facts| + |files| && StageTokens(render, facts, files, truncated, k) <= maxTokens {
      LaterStagesAreSmaller(render, facts, files, truncated, k, |facts| + |files|);
    }
  }
}
