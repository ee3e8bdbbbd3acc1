/**
 * Consent and revocation (src/consent.js): two machine-local files, a trust record and a tombstone, and any
 * number of concurrent operations, each a small program of atomic file steps.
 *
 * The policy digest is idealised: a record whose digest does not match its policy reads as malformed.
 */
module Consent {
  import opened Common

  // ---------- records ----------

  datatype Retention = Session | Project | Durable

  datatype Policy = Policy(enabled: bool, content: bool, maxEventBytes: int, maxLogBytes: int, contextMaxChars: int, retention: Retention)

  datatype Config = Config(workspaceId: string, policy: Policy)

  datatype Checkpoint = Checkpoint(eventCount: int, headHash: Option<string>, logBytes: int)

  datatype Record = Record(config: Config, grantedAt: int, checkpoint: Checkpoint)

  datatype TrustFile = NoTrust | MalformedTrust | LegacyTrust(workspaceId: string, kept: Checkpoint) | Trust(record: Record)

  datatype TombstoneFile = NoTombstone | MalformedTombstone | Tombstone(workspaceId: Option<string>, checkpoint: Option<Checkpoint>)

  datatype Files = Files(trust: TrustFile, tombstone: TombstoneFile)

  datatype Error = NotTrusted | TrustInvalid | ReviewRequired | NotApproved

  predicate ValidCheckpoint(c: Checkpoint) {
    c.eventCount >= 0 && c.logBytes >= 0 && (c.eventCount == 0 <==> c.headHash.None?)
  }

  predicate ValidPolicy(p: Policy) {
    && 4_096 <= p.maxEventBytes <= 1_048_576
    && 1_048_576 <= p.maxLogBytes <= 1_073_741_824
    && 512 <= p.contextMaxChars <= 1_000_000
  }

  predicate ValidRecord(r: Record) { ValidPolicy(r.config.policy) && ValidCheckpoint(r.checkpoint) }

  /** A record is only ever made valid. */
  function CreateRecord(config: Config, checkpoint: Checkpoint, grantedAt: int): Result<Record, Error> {
    var r := Record(config, grantedAt, checkpoint);
    if ValidRecord(r) then Ok(r) else Err(TrustInvalid)
  }

  /** The record for the current schema, as far as the file alone can tell. */
  function ReadTrust(trust: TrustFile): Result<Record, Error> {
    match trust
    case NoTrust => Err(NotTrusted)
    case MalformedTrust => Err(TrustInvalid)
    case LegacyTrust(_, _) => Err(ReviewRequired)
    case Trust(r) => if ValidRecord(r) then Ok(r) else Err(TrustInvalid)
  }

  function ReadApproved(trust: TrustFile, config: Config): Result<Record, Error> {
    var read := ReadTrust(trust);
    if read.Err? then read
    else if read.value.config.workspaceId != config.workspaceId then Err(NotTrusted)
    else if read.value.config.policy != config.policy then Err(NotApproved)
    else read
  }

  /** What a tombstone says; a malformed one is an error, which also blocks. */
  function ReadTombstone(t: TombstoneFile): Result<Option<(Option<string>, Option<Checkpoint>)>, Error> {
    match t
    case NoTombstone => Ok(None)
    case MalformedTombstone => Err(TrustInvalid)
    case Tombstone(id, c) => if c.Some? && !ValidCheckpoint(c.value) then Err(TrustInvalid) else Ok(Some((id, c)))
  }

  function CheckNotRevoked(t: TombstoneFile): (e: Option<Error>)
    ensures e.None? <==> t.NoTombstone?
  {
    match t
    case NoTombstone => None
    case MalformedTombstone => Some(TrustInvalid)
    case Tombstone(_, c) => if c.Some? && !ValidCheckpoint(c.value) then Some(TrustInvalid) else Some(NotTrusted)
  }

  /** Workspace and checkpoint that a revocation can still learn from the trust file, old schema included. */
  function LastTrusted(trust: TrustFile): Option<(string, Checkpoint)> {
    match trust
    case Trust(r) => if ValidRecord(r) then Some((r.config.workspaceId, r.checkpoint)) else None
    case LegacyTrust(id, c) => if ValidCheckpoint(c) then Some((id, c)) else None
    case _ => None
  }

  // ---------- operations as programs of atomic steps ----------

  datatype Operation =
    | Grant(config: Config, checkpoint: Checkpoint, preserveRevocation: bool, now: int)
    | Read(config: Config)
    | UpdateCheckpoint(config: Config, checkpoint: Checkpoint)
    | UpdateEnabled(config: Config, enabled: bool, now: int)
    | Revoke

  datatype Process =
    | Clearing(made: Result<Record, Error>, preserve: bool)
    | BeforeRead(config: Config, update: Option<Checkpoint>)
    | Loading(config: Config, update: Option<Checkpoint>)
    | AfterRead(record: Record, update: Option<Checkpoint>)
    | LoadingEnabled(config: Config, enabled: bool, now: int)
    | BeforeWrite(record: Record)
    | Writing(record: Record)
    | AfterWrite(record: Record)
    | LookingBack
    | LookingAtTrust(workspaceId: Option<string>, found: Option<Checkpoint>)
    | Burying(workspaceId: Option<string>, found: Option<Checkpoint>)
    | Removing
    | Succeeded(record: Record)
    | Failed(error: Error)
    | Revoked

  function Start(op: Operation): Process {
    match op
    case Grant(config, c, preserve, now) => Clearing(CreateRecord(config, c, now), preserve)
    case Read(config) => BeforeRead(config, None)
    case UpdateCheckpoint(config, c) => BeforeRead(config, Some(c))
    case UpdateEnabled(config, enabled, now) => LoadingEnabled(config, enabled, now)
    case Revoke => LookingBack
  }

  predicate Done(p: Process) { p.Succeeded? || p.Failed? || p.Revoked? }

  /** The step only a new grant takes: it removes the tombstone. */
  predicate Clears(p: Process) { p.Clearing? && !p.preserve }

  function Proceed(r: Result<Record, Error>): Process { if r.Ok? then BeforeWrite(r.value) else Failed(r.error) }

  /** The check against the tombstone decides between going on and failing. */
  function Checked(f: Files, next: Process): Process {
    var e := CheckNotRevoked(f.tombstone);
    if e.Some? then Failed(e.value) else next
  }

  function EnabledRecord(f: Files, config: Config, enabled: bool, now: int): Result<Record, Error> {
    var read := ReadTrust(f.trust);
    if read.Err? then read
    else if read.value.config.workspaceId != config.workspaceId then Err(NotTrusted)
    else if read.value.config.policy.(enabled := config.policy.enabled) != config.policy then Err(NotApproved)
    else CreateRecord(config.(policy := config.policy.(enabled := enabled)), read.value.checkpoint, now)
  }

  /** One atomic step of one process. */
  function Next(f: Files, p: Process): (Files, Process)
    requires !Done(p)
  {
    match p
    case Clearing(record, preserve) =>
      if preserve then (f, Checked(f, Proceed(record))) else (f.(tombstone := NoTombstone), Proceed(record))
    case BeforeRead(config, update) => (f, Checked(f, Loading(config, update)))
    case Loading(config, update) =>
      var read := ReadApproved(f.trust, config);
      (f, if read.Ok? then AfterRead(read.value, update) else Failed(read.error))
    case AfterRead(record, update) =>
      (f, Checked(f, if update.None? then Succeeded(record) else Proceed(CreateRecord(record.config, update.value, record.grantedAt))))
    case LoadingEnabled(config, enabled, now) => (f, Proceed(EnabledRecord(f, config, enabled, now)))
    case BeforeWrite(record) => (f, Checked(f, Writing(record)))
    case Writing(record) => (f.(trust := Trust(record)), AfterWrite(record))
    case AfterWrite(record) => (f, Checked(f, Succeeded(record)))
    case LookingBack =>
      var read := ReadTombstone(f.tombstone);
      (f, if read.Ok? && read.value.Some? then LookingAtTrust(read.value.value.0, read.value.value.1) else LookingAtTrust(None, None))
    case LookingAtTrust(id, c) =>
      var last := LastTrusted(f.trust);
      (f, if last.Some? then Burying(Some(last.value.0), Some(last.value.1)) else Burying(id, c))
    case Burying(id, c) => (f.(tombstone := Tombstone(id, c)), Removing)
    case Removing => (f.(trust := NoTrust), Revoked)
    case _ => (f, p)
  }

  // ---------- any interleaving ----------

  /** The files and every process ever started. */
  datatype System = System(files: Files, processes: seq<Process>)

  datatype Action = Begin(op: Operation) | Run(pid: nat)

  /** A finished or unknown process takes no step. */
  function Act(s: System, a: Action): System {
    match a
    case Begin(op) => s.(processes := s.processes + [Start(op)])
    case Run(i) =>
      if i < |s.processes| && !Done(s.processes[i])
      then var (f, p) := Next(s.files, s.processes[i]); System(f, s.processes[i := p])
      else s
  }

  function ActAll(s: System, actions: seq<Action>): System {
    if actions == [] then s else Act(ActAll(s, actions[..|actions| - 1]), actions[|actions| - 1])
  }

  predicate ClearsAt(s: System, a: Action) { a.Run? && a.pid < |s.processes| && Clears(s.processes[a.pid]) }

  /** No grant reaches its clearing step during the run. */
  ghost predicate NeverClears(s: System, actions: seq<Action>) {
    forall k :: 0 <= k < |actions| ==> !ClearsAt(ActAll(s, actions[..k]), actions[k])
  }

  ghost predicate NoNewSuccess(before: System, after: System) {
    && |before.processes| <= |after.processes|
    && forall i :: 0 <= i < |after.processes| && after.processes[i].Succeeded? ==>
         i < |before.processes| && before.processes[i] == after.processes[i]
  }

  lemma StepWhileRevoked(s: System, a: Action)
    requires !s.files.tombstone.NoTombstone? && !ClearsAt(s, a)
    ensures !Act(s, a).files.tombstone.NoTombstone? && NoNewSuccess(s, Act(s, a))
  {
  }

  /**
   * Main result: from the moment a tombstone exists, and as long as no grant clears it, the tombstone stays
   * and no operation that had not already succeeded ever does, whatever the interleaving.
   */
  lemma {:induction false} RevocationWins(s: System, actions: seq<Action>)
    requires !s.files.tombstone.NoTombstone? && NeverClears(s, actions)
    ensures !ActAll(s, actions).files.tombstone.NoTombstone? && NoNewSuccess(s, ActAll(s, actions))
  {
    if actions != [] {
      var n := |actions| - 1;
      var front := actions[..n];
      assert NeverClears(s, front) by {
        forall k | 0 <= k < n ensures !ClearsAt(ActAll(s, front[..k]), front[k]) {
          assert front[..k] == actions[..k];
        }
      }
      RevocationWins(s, front);
      StepWhileRevoked(ActAll(s, front), actions[n]);
    }
  }

  /** The step that writes the tombstone starts such a period. */
  lemma BuryingRevokes(s: System, i: nat)
    requires i < |s.processes| && s.processes[i].Burying?
    ensures !Act(s, Run(i)).files.tombstone.NoTombstone?
  {
  }

  // ---------- only grants approve policies ----------

  /** Everything of a record that a review approved: all but the enabled switch. */
  datatype Approval = Approval(workspaceId: string, policy: Policy)

  function ApprovalOf(c: Config): Approval { Approval(c.workspaceId, c.policy.(enabled := false)) }

  function RecordIn(p: Process): Option<Record> {
    match p
    case Clearing(record, _) => if record.Ok? then Some(record.value) else None
    case AfterRead(r, _) => Some(r)
    case BeforeWrite(r) => Some(r)
    case Writing(r) => Some(r)
    case AfterWrite(r) => Some(r)
    case Succeeded(r) => Some(r)
    case _ => None
  }

  ghost predicate Approved(s: System, approvals: set<Approval>) {
    && (s.files.trust.Trust? ==> ApprovalOf(s.files.trust.record.config) in approvals)
    && (forall i :: 0 <= i < |s.processes| && RecordIn(s.processes[i]).Some? ==>
          ApprovalOf(RecordIn(s.processes[i]).value.config) in approvals)
  }

  /** What the grants started during a run approve. */
  function GrantedBy(actions: seq<Action>): set<Approval> {
    set k | 0 <= k < |actions| && actions[k].Begin? && actions[k].op.Grant? :: ApprovalOf(actions[k].op.config)
  }

  lemma StepApproves(f: Files, p: Process, approvals: set<Approval>)
    requires !Done(p)
    requires f.trust.Trust? ==> ApprovalOf(f.trust.record.config) in approvals
    requires RecordIn(p).Some? ==> ApprovalOf(RecordIn(p).value.config) in approvals
    ensures var (g, q) := Next(f, p);
            && (g.trust.Trust? ==> ApprovalOf(g.trust.record.config) in approvals)
            && (RecordIn(q).Some? ==> ApprovalOf(RecordIn(q).value.config) in approvals)
  {
  }

  lemma ActApproves(s: System, a: Action, approvals: set<Approval>)
    requires Approved(s, approvals)
    requires a.Begin? && a.op.Grant? ==> ApprovalOf(a.op.config) in approvals
    ensures Approved(Act(s, a), approvals)
  {
    if a.Run? && a.pid < |s.processes| && !Done(s.processes[a.pid]) {
      StepApproves(s.files, s.processes[a.pid], approvals);
    }
  }

  /** Main result: in every run, a record read or written was approved at the start or by a grant of the run. */
  lemma {:induction false} OnlyGrantsApprove(s: System, actions: seq<Action>, approvals: set<Approval>)
    requires Approved(s, approvals)
    ensures Approved(ActAll(s, actions), approvals + GrantedBy(actions))
  {
    if actions == [] {
      assert approvals <= approvals + GrantedBy(actions);
    } else {
      var n := |actions| - 1;
      var front, last := actions[..n], actions[n];
      var wider := approvals + GrantedBy(actions);
      OnlyGrantsApprove(s, front, approvals);
      forall x | x in GrantedBy(front) ensures x in wider {
        var k :| 0 <= k < n && front[k].Begin? && front[k].op.Grant? && ApprovalOf(front[k].op.config) == x;
        assert actions[k] == front[k];
      }
      WiderApproves(ActAll(s, front), approvals + GrantedBy(front), wider);
      ActApproves(ActAll(s, front), last, wider);
    }
  }

  lemma WiderApproves(s: System, narrow: set<Approval>, wide: set<Approval>)
    requires Approved(s, narrow) && narrow <= wide
    ensures Approved(s, wide)
  {
  }
}
