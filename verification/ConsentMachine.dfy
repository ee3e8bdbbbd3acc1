/** The consent operations of src/consent.js run one after the other, and what interleaved revocations can lose. */
module ConsentMachine {
  import opened Common
  import opened Consent

  // ---------- one operation at a time ----------

  function Remaining(p: Process): nat {
    match p
    case BeforeRead(_, _) => 7
    case Loading(_, _) => 6
    case AfterRead(_, _) => 5
    case Clearing(_, _) => 4
    case LoadingEnabled(_, _, _) => 4
    case LookingBack => 4
    case BeforeWrite(_) => 3
    case LookingAtTrust(_, _) => 3
    case Writing(_) => 2
    case Burying(_, _) => 2
    case AfterWrite(_) => 1
    case Removing => 1
    case _ => 0
  }

  /** An operation that no other disturbs. */
  function Finish(f: Files, p: Process): (r: (Files, Process))
    ensures Done(r.1)
    decreases Remaining(p)
  {
    if Done(p) then (f, p) else var (g, q) := Next(f, p); Finish(g, q)
  }

  function Complete(f: Files, op: Operation): (r: (Files, Process))
    ensures Done(r.1)
  {
    Finish(f, Start(op))
  }

  function Outcome(p: Process): Result<Option<Record>, Error>
    requires Done(p)
  {
    match p
    case Succeeded(r) => Ok(Some(r))
    case Failed(e) => Err(e)
    case Revoked => Ok(None)
  }

  // ---------- what each undisturbed operation comes to ----------

  lemma FinishStep(f: Files, p: Process)
    ensures !Done(p) ==> Finish(f, p) == Finish(Next(f, p).0, Next(f, p).1)
    ensures Done(p) ==> Finish(f, p) == (f, p)
  {
  }

  lemma ReadSteps(f: Files, config: Config, update: Option<Checkpoint>)
    ensures var e, read := CheckNotRevoked(f.tombstone), ReadApproved(f.trust, config);
            Finish(f, BeforeRead(config, update))
              == if e.Some? then (f, Failed(e.value))
                 else if read.Err? then (f, Failed(read.error))
                 else if update.None? then (f, Succeeded(read.value))
                 else Finish(f, Proceed(CreateRecord(read.value.config, update.value, read.value.grantedAt)))
  {
    var e, read := CheckNotRevoked(f.tombstone), ReadApproved(f.trust, config);
    FinishStep(f, BeforeRead(config, update));
    if e.None? {
      FinishStep(f, Loading(config, update));
      if read.Ok? {
        FinishStep(f, AfterRead(read.value, update));
      }
    }
  }

  lemma WriteSteps(f: Files, record: Record)
    ensures var e := CheckNotRevoked(f.tombstone);
            Finish(f, BeforeWrite(record)) == if e.Some? then (f, Failed(e.value)) else (Files(Trust(record), NoTombstone), Succeeded(record))
  {
    FinishStep(f, BeforeWrite(record));
    if f.tombstone.NoTombstone? {
      FinishStep(f, Writing(record));
      FinishStep(Files(Trust(record), NoTombstone), AfterWrite(record));
    }
  }

  lemma RevokeSteps(f: Files)
    ensures var previous, last := ReadTombstone(f.tombstone), LastTrusted(f.trust);
            var found := if previous.Ok? && previous.value.Some? then previous.value.value else (None, None);
            var buried := if last.Some? then Tombstone(Some(last.value.0), Some(last.value.1)) else Tombstone(found.0, found.1);
            Complete(f, Revoke) == (Files(NoTrust, buried), Revoked)
  {
    var previous, last := ReadTombstone(f.tombstone), LastTrusted(f.trust);
    var found := if previous.Ok? && previous.value.Some? then previous.value.value else (None, None);
    var buried := if last.Some? then Tombstone(Some(last.value.0), Some(last.value.1)) else Tombstone(found.0, found.1);
    FinishStep(f, LookingBack);
    FinishStep(f, LookingAtTrust(found.0, found.1));
    FinishStep(f, Burying(buried.workspaceId, buried.checkpoint));
    FinishStep(f.(tombstone := buried), Removing);
  }

  lemma EnabledSteps(f: Files, config: Config, enabled: bool, now: int)
    ensures var made, e := EnabledRecord(f, config, enabled, now), CheckNotRevoked(f.tombstone);
            Complete(f, UpdateEnabled(config, enabled, now))
              == if made.Err? then (f, Failed(made.error))
                 else if e.Some? then (f, Failed(e.value))
                 else (Files(Trust(made.value), NoTombstone), Succeeded(made.value))
  {
    var made := EnabledRecord(f, config, enabled, now);
    FinishStep(f, LoadingEnabled(config, enabled, now));
    if made.Ok? {
      WriteSteps(f, made.value);
    }
  }

  lemma GrantSteps(f: Files, config: Config, checkpoint: Checkpoint, preserve: bool, now: int)
    ensures var made := CreateRecord(config, checkpoint, now);
            var e := CheckNotRevoked(f.tombstone);
            Complete(f, Grant(config, checkpoint, preserve, now))
              == if preserve && e.Some? then (f, Failed(e.value))
                 else if made.Err? then (f.(tombstone := NoTombstone), Failed(made.error))
                 else (Files(Trust(made.value), NoTombstone), Succeeded(made.value))
  {
    var made := CreateRecord(config, checkpoint, now);
    FinishStep(f, Clearing(made, preserve));
    if made.Ok? {
      WriteSteps(f, made.value);
      WriteSteps(f.(tombstone := NoTombstone), made.value);
    }
  }

  /** The two files and the operations on them, as the source writes them. */
  class Machine {
    var trust: TrustFile
    var tombstone: TombstoneFile

    constructor (f: Files)
      ensures Contents() == f
    {
      trust, tombstone := f.trust, f.tombstone;
    }

    ghost function Contents(): Files
      reads this
    {
      Files(trust, tombstone)
    }

    /** The last check of an operation; it can only fail when another operation interferes. */
    method SuccessUnlessRevoked(record: Record) returns (r: Result<Option<Record>, Error>)
      ensures r.Ok? <==> tombstone.NoTombstone?
      ensures r.Ok? ==> r.value == Some(record)
    {
      var e := CheckNotRevoked(tombstone);
      if e.Some? {
        return Err(e.value);
      }
      return Ok(Some(record));
    }

    method WriteTrustRecord(record: Record) returns (r: Result<Option<Record>, Error>)
      modifies this
      ensures var (g, p) := Finish(old(Contents()), BeforeWrite(record)); Contents() == g && r == Outcome(p)
    {
      WriteSteps(Contents(), record);
      var before := CheckNotRevoked(tombstone);
      if before.Some? {
        return Err(before.value);
      }
      trust := Trust(record);
      r := SuccessUnlessRevoked(record);
    }

    method GrantConsent(config: Config, checkpoint: Checkpoint, preserveRevocation: bool, now: int)
      returns (r: Result<Option<Record>, Error>)
      modifies this
      ensures var (g, p) := Complete(old(Contents()), Grant(config, checkpoint, preserveRevocation, now)); Contents() == g && r == Outcome(p)
    {
      GrantSteps(Contents(), config, checkpoint, preserveRevocation, now);
      if preserveRevocation {
        var e := CheckNotRevoked(tombstone);
        if e.Some? {
          return Err(e.value);
        }
      } else {
        tombstone := NoTombstone;
      }
      var record := CreateRecord(config, checkpoint, now);
      if record.Err? {
        return Err(record.error);
      }
      WriteSteps(Contents(), record.value);
      r := WriteTrustRecord(record.value);
    }

    method ReadConsent(config: Config) returns (r: Result<Option<Record>, Error>)
      ensures var (g, p) := Complete(Contents(), Read(config)); Contents() == g && r == Outcome(p)
    {
      ReadSteps(Contents(), config, None);
      var before := CheckNotRevoked(tombstone);
      if before.Some? {
        return Err(before.value);
      }
      var consent := ReadApproved(trust, config);
      if consent.Err? {
        return Err(consent.error);
      }
      r := SuccessUnlessRevoked(consent.value);
    }

    method UpdateWorkspaceCheckpoint(config: Config, checkpoint: Checkpoint) returns (r: Result<Option<Record>, Error>)
      modifies this
      ensures var (g, p) := Complete(old(Contents()), UpdateCheckpoint(config, checkpoint)); Contents() == g && r == Outcome(p)
    {
      ReadSteps(Contents(), config, Some(checkpoint));
      ReadSteps(Contents(), config, None);
      r := ReadConsent(config);
      if r.Err? {
        return;
      }
      var consent := r.value.value;
      var next := CreateRecord(config, checkpoint, consent.grantedAt);
      if next.Err? {
        return Err(next.error);
      }
      WriteSteps(Contents(), next.value);
      r := WriteTrustRecord(next.value);
    }

    method UpdateEnabledConsent(config: Config, enabled: bool, now: int) returns (r: Result<Option<Record>, Error>)
      modifies this
      ensures var (g, p) := Complete(old(Contents()), UpdateEnabled(config, enabled, now)); Contents() == g && r == Outcome(p)
    {
      EnabledSteps(Contents(), config, enabled, now);
      var consent := ReadTrust(trust);
      if consent.Err? {
        return Err(consent.error);
      }
      if consent.value.config.workspaceId != config.workspaceId {
        return Err(NotTrusted);
      }
      if consent.value.config.policy.(enabled := config.policy.enabled) != config.policy {
        return Err(NotApproved);
      }
      var next := CreateRecord(config.(policy := config.policy.(enabled := enabled)), consent.value.checkpoint, now);
      if next.Err? {
        return Err(next.error);
      }
      WriteSteps(Contents(), next.value);
      r := WriteTrustRecord(next.value);
    }

    method RevokeConsent() returns (r: Result<Option<Record>, Error>)
      modifies this
      ensures var (g, p) := Complete(old(Contents()), Revoke); Contents() == g && r == Outcome(p)
    {
      var id: Option<string>, checkpoint: Option<Checkpoint> := None, None;
      var previous := ReadTombstone(tombstone);
      if previous.Ok? && previous.value.Some? {
        id, checkpoint := previous.value.value.0, previous.value.value.1;
      }
      var last := LastTrusted(trust);
      if last.Some? {
        id, checkpoint := Some(last.value.0), Some(last.value.1);
      }
      RevokeSteps(Contents());
      tombstone := Tombstone(id, checkpoint);
      trust := NoTrust;
      return Ok(None);
    }
  }

  // ---------- sequential guarantees ----------

  /** Main result: a grant is read back by exactly its own configuration, until the next operation. */
  lemma GrantThenRead(f: Files, config: Config, checkpoint: Checkpoint, now: int, reader: Config)
    requires CreateRecord(config, checkpoint, now).Ok?
    ensures var (g, p) := Complete(f, Grant(config, checkpoint, false, now));
            && p == Succeeded(Record(config, now, checkpoint))
            && (reader == config ==> Complete(g, Read(reader)) == (g, p))
            && (reader != config ==> Complete(g, Read(reader)).1.Failed?)
  {
    GrantSteps(f, config, checkpoint, false, now);
    ReadSteps(Complete(f, Grant(config, checkpoint, false, now)).0, reader, None);
  }

  /** A checkpoint update changes the checkpoint of the approved record and nothing else. */
  lemma UpdateKeepsApproval(f: Files, config: Config, checkpoint: Checkpoint)
    ensures var (g, p) := Complete(f, UpdateCheckpoint(config, checkpoint));
            && (p.Succeeded? <==>
                  && f.tombstone.NoTombstone? && f.trust.Trust? && f.trust.record.config == config
                  && ValidRecord(f.trust.record) && ValidCheckpoint(checkpoint))
            && (p.Succeeded? ==> g == f.(trust := Trust(f.trust.record.(checkpoint := checkpoint))))
            && (!p.Succeeded? ==> p.Failed? && g == f)
  {
    ReadSteps(f, config, Some(checkpoint));
    var read := ReadApproved(f.trust, config);
    if read.Ok? && CreateRecord(config, checkpoint, read.value.grantedAt).Ok? {
      WriteSteps(f, CreateRecord(config, checkpoint, read.value.grantedAt).value);
    }
  }

  /** Switching capture on or off changes no other approved value. */
  lemma EnabledKeepsTheRest(f: Files, config: Config, enabled: bool, now: int)
    ensures var (g, p) := Complete(f, UpdateEnabled(config, enabled, now));
            && (p.Succeeded? <==>
                  && f.tombstone.NoTombstone? && f.trust.Trust? && ValidRecord(f.trust.record)
                  && f.trust.record.config.workspaceId == config.workspaceId
                  && f.trust.record.config.policy.(enabled := config.policy.enabled) == config.policy)
            && (p.Succeeded? ==>
                  var before := f.trust.record;
                  g == f.(trust := Trust(Record(before.config.(policy := before.config.policy.(enabled := enabled)), now, before.checkpoint))))
            && (!p.Succeeded? ==> p.Failed? && g == f)
  {
    EnabledSteps(f, config, enabled, now);
  }

  /** Checkpoint shown when trust is reviewed again: of the tombstone if there is one, else of the trust record. */
  function ReviewCheckpoint(f: Files, workspaceId: string): Result<Option<Checkpoint>, Error> {
    var revocation := ReadTombstone(f.tombstone);
    if revocation.Err? then Err(revocation.error)
    else if revocation.value.Some? then
      var (id, checkpoint) := revocation.value.value;
      if id.Some? && id.value != workspaceId then Err(NotTrusted) else Ok(checkpoint)
    else
      match f.trust
      case NoTrust => Ok(None)
      case MalformedTrust => Err(TrustInvalid)
      case _ =>
        var last := LastTrusted(f.trust);
        if last.None? then Err(TrustInvalid)
        else if last.value.0 != workspaceId then Err(NotTrusted)
        else Ok(Some(last.value.1))
  }

  function CompleteAll(f: Files, ops: seq<Operation>): Files {
    if ops == [] then f else Complete(CompleteAll(f, ops[..|ops| - 1]), ops[|ops| - 1]).0
  }

  predicate ClearingGrant(op: Operation) { op.Grant? && !op.preserveRevocation }

  lemma {:induction false} BuriedStays(f: Files, ops: seq<Operation>, id: Option<string>, c: Checkpoint)
    requires f.tombstone == Tombstone(id, Some(c)) && ValidCheckpoint(c) && LastTrusted(f.trust).None?
    requires forall k :: 0 <= k < |ops| ==> !ClearingGrant(ops[k])
    ensures CompleteAll(f, ops).tombstone == Tombstone(id, Some(c)) && LastTrusted(CompleteAll(f, ops).trust).None?
  {
    if ops != [] {
      var n := |ops| - 1;
      BuriedStays(f, ops[..n], id, c);
      OneStays(CompleteAll(f, ops[..n]), ops[n], id, c);
    }
  }

  lemma OneStays(f: Files, op: Operation, id: Option<string>, c: Checkpoint)
    requires f.tombstone == Tombstone(id, Some(c)) && ValidCheckpoint(c) && LastTrusted(f.trust).None? && !ClearingGrant(op)
    ensures Complete(f, op).0.tombstone == Tombstone(id, Some(c)) && LastTrusted(Complete(f, op).0.trust).None?
  {
    match op
    case Grant(config, checkpoint, preserve, now) => GrantSteps(f, config, checkpoint, preserve, now);
    case Read(config) => ReadSteps(f, config, None);
    case UpdateCheckpoint(config, checkpoint) => ReadSteps(f, config, Some(checkpoint));
    case UpdateEnabled(config, enabled, now) => EnabledKeepsTheRest(f, config, enabled, now);
    case Revoke => RevokeSteps(f);
  }

  /**
   * What a revocation keeps, by what the files hold: the checkpoint of a valid trust record, of the current
   * schema or the old one; failing that, the one of the tombstone before, if it can be read.
   */
  lemma RevokedFiles(f: Files)
    ensures Complete(f, Revoke).1 == Revoked && Complete(f, Revoke).0.trust == NoTrust
    ensures var buried := Complete(f, Revoke).0.tombstone;
            && (f.trust.Trust? && ValidRecord(f.trust.record) ==>
                  buried == Tombstone(Some(f.trust.record.config.workspaceId), Some(f.trust.record.checkpoint)))
            && (f.trust.LegacyTrust? && ValidCheckpoint(f.trust.kept) ==>
                  buried == Tombstone(Some(f.trust.workspaceId), Some(f.trust.kept)))
            && (f.trust.NoTrust? || f.trust.MalformedTrust? ==>
                  buried == if f.tombstone.Tombstone? && (f.tombstone.checkpoint.None? || ValidCheckpoint(f.tombstone.checkpoint.value))
                            then f.tombstone else Tombstone(None, None))
  {
    RevokeSteps(f);
  }

  /** Main result: run in sequence, no number of later operations but a new grant loses the last trusted checkpoint. */
  lemma ReviewSurvivesRevocations(f: Files, ops: seq<Operation>)
    requires LastTrusted(f.trust).Some? && forall k :: 0 <= k < |ops| ==> !ClearingGrant(ops[k])
    ensures var (id, c) := LastTrusted(f.trust).value;
            ReviewCheckpoint(CompleteAll(Complete(f, Revoke).0, ops), id) == Ok(Some(c))
  {
    var (id, c) := LastTrusted(f.trust).value;
    RevokeSteps(f);
    BuriedStays(Complete(f, Revoke).0, ops, Some(id), c);
  }

  // ---------- interleaved revocations ----------

  ghost predicate Untouched(actions: seq<Action>, i: nat) {
    forall k :: 0 <= k < |actions| ==> actions[k] != Run(i)
  }

  lemma {:induction false} OthersLeaveProcess(s: System, actions: seq<Action>, i: nat)
    requires i < |s.processes| && Untouched(actions, i)
    ensures i < |ActAll(s, actions).processes| && ActAll(s, actions).processes[i] == s.processes[i]
  {
    if actions != [] {
      OthersLeaveProcess(s, actions[..|actions| - 1], i);
      assert actions[|actions| - 1] != Run(i);
    }
  }

  /** The checkpoint a readable tombstone holds. */
  function KeptBy(t: TombstoneFile): Option<Checkpoint> {
    var read := ReadTombstone(t);
    if read.Ok? && read.value.Some? then read.value.value.1 else None
  }

  /**
   * Main result: whatever other operations do between a revocation's two reads, it buries a checkpoint
   * exactly when the tombstone held one at the first read or the trust record has one at the second.
   */
  lemma RevocationKeepsCheckpoint(s: System, i: nat, between: seq<Action>)
    requires i < |s.processes| && s.processes[i].LookingBack? && Untouched(between, i)
    ensures var second := ActAll(Act(s, Run(i)), between);
            var t := Act(second, Run(i));
            && i < |t.processes| && t.processes[i].Burying?
            && (t.processes[i].found.Some? <==> KeptBy(s.files.tombstone).Some? || LastTrusted(second.files.trust).Some?)
  {
    OthersLeaveProcess(Act(s, Run(i)), between, i);
    SecondLook(ActAll(Act(s, Run(i)), between), i);
  }

  lemma SecondLook(s: System, i: nat)
    requires i < |s.processes| && s.processes[i].LookingAtTrust?
    ensures var t := Act(s, Run(i));
            && |t.processes| == |s.processes| && t.processes[i].Burying?
            && (t.processes[i].found.Some? <==> s.processes[i].found.Some? || LastTrusted(s.files.trust).Some?)
  {
  }

  // ---------- what is left at the end of a run ----------

  /** Something to keep: a readable tombstone with a checkpoint, or a readable trust record. */
  predicate HasCheckpoint(f: Files) { LastTrusted(f.trust).Some? || KeptBy(f.tombstone).Some? }

  /** A revocation that found no checkpoint in the tombstone and has yet to look at the trust record. */
  predicate LooksEmptyHanded(p: Process) { p.LookingAtTrust? && p.found.None? }

  /** A revocation removes the trust record while another one still needs it. */
  predicate RemovesTooSoon(s: System, a: Action) {
    && a.Run? && a.pid < |s.processes| && s.processes[a.pid].Removing?
    && exists j :: 0 <= j < |s.processes| && LooksEmptyHanded(s.processes[j])
  }

  ghost predicate NeverTooSoon(s: System, actions: seq<Action>) {
    forall k :: 0 <= k < |actions| ==> !RemovesTooSoon(ActAll(s, actions[..k]), actions[k])
  }

  predicate ValidFound(c: Option<Checkpoint>) { c.Some? ==> ValidCheckpoint(c.value) }

  /** What a process carries, or what it has already put into the tombstone. */
  predicate Carries(f: Files, p: Process) {
    && (RecordIn(p).Some? ==> ValidRecord(RecordIn(p).value))
    && (p.LookingAtTrust? ==> ValidFound(p.found) && (p.found.Some? || LastTrusted(f.trust).Some?))
    && (p.Burying? ==> p.found.Some? && ValidFound(p.found))
    && (p.Removing? || p.Revoked? ==> KeptBy(f.tombstone).Some?)
  }

  ghost predicate Keeping(s: System) {
    HasCheckpoint(s.files) && forall i :: 0 <= i < |s.processes| ==> Carries(s.files, s.processes[i])
  }

  /** The step of a process, for itself and for the files. */
  lemma NextCarries(f: Files, p: Process)
    requires !Done(p) && !Clears(p) && HasCheckpoint(f) && Carries(f, p)
    ensures var (g, q) := Next(f, p); HasCheckpoint(g) && Carries(g, q)
    ensures var g := Next(f, p).0;
            && (LastTrusted(f.trust).Some? && !p.Removing? ==> LastTrusted(g.trust).Some?)
            && (KeptBy(f.tombstone).Some? ==> KeptBy(g.tombstone).Some?)
  {
  }

  /** The same step, seen by another process. */
  lemma NextKeepsCarrying(f: Files, p: Process, other: Process)
    requires !Done(p) && !Clears(p) && HasCheckpoint(f) && Carries(f, p) && Carries(f, other)
    requires p.Removing? ==> !LooksEmptyHanded(other)
    ensures Carries(Next(f, p).0, other)
  {
    NextCarries(f, p);
  }

  lemma ActKeeps(s: System, a: Action)
    requires Keeping(s) && !ClearsAt(s, a) && !RemovesTooSoon(s, a)
    ensures Keeping(Act(s, a))
  {
    if a.Run? && a.pid < |s.processes| && !Done(s.processes[a.pid]) {
      var p := s.processes[a.pid];
      NextCarries(s.files, p);
      forall j | 0 <= j < |s.processes| && j != a.pid ensures Carries(Next(s.files, p).0, s.processes[j]) {
        NextKeepsCarrying(s.files, p, s.processes[j]);
      }
    }
  }

  lemma {:induction false} RunKeeps(s: System, actions: seq<Action>)
    requires Keeping(s) && NeverClears(s, actions) && NeverTooSoon(s, actions)
    ensures Keeping(ActAll(s, actions))
  {
    if actions != [] {
      var n := |actions| - 1;
      var front := actions[..n];
      forall k | 0 <= k < n
        ensures !ClearsAt(ActAll(s, front[..k]), front[k]) && !RemovesTooSoon(ActAll(s, front[..k]), front[k])
      {
        assert front[..k] == actions[..k] && front[k] == actions[k];
      }
      RunKeeps(s, front);
      ActKeeps(ActAll(s, front), actions[n]);
    }
  }

  /**
   * Main result: in any run of any operations, if no grant clears a tombstone and no revocation removes
   * the trust record before another one that needs it has looked at it, a checkpoint that was there at the
   * start is never lost, and once a revocation has buried, the tombstone holds one.
   */
  lemma RevocationsKeepCheckpoint(f: Files, actions: seq<Action>)
    requires HasCheckpoint(f) && NeverClears(System(f, []), actions) && NeverTooSoon(System(f, []), actions)
    ensures var end := ActAll(System(f, []), actions);
            && HasCheckpoint(end.files)
            && forall i :: 0 <= i < |end.processes| && (end.processes[i].Removing? || end.processes[i].Revoked?) ==>
                 KeptBy(end.files.tombstone).Some?
  {
    RunKeeps(System(f, []), actions);
  }

  // ---------- two revocations that lose it ----------

  function TwoRevocations(): seq<Action> {
    [Begin(Revoke), Begin(Revoke), Run(0), Run(1), Run(1), Run(1), Run(1), Run(0), Run(0), Run(0)]
  }

  lemma ActSnoc(s: System, actions: seq<Action>, a: Action)
    ensures ActAll(s, actions + [a]) == Act(ActAll(s, actions), a)
  {
    assert (actions + [a])[..|actions|] == actions;
  }

  lemma ActNext(s: System, actions: seq<Action>, k: nat, t: System, u: System)
    requires k < |actions| && ActAll(s, actions[..k]) == t && Act(t, actions[k]) == u
    ensures ActAll(s, actions[..k + 1]) == u
  {
    ActSnoc(s, actions[..k], actions[k]);
    assert actions[..k + 1] == actions[..k] + [actions[k]];
  }

  /** Two interleaved revocations can lose every checkpoint: the second to finish overwrites the first's tombstone. */
  lemma RevocationsCanLoseCheckpoint(r: Record)
    requires ValidRecord(r)
    ensures var s := System(Files(Trust(r), NoTombstone), []);
            && HasCheckpoint(s.files)
            && ActAll(s, TwoRevocations()).files == Files(NoTrust, Tombstone(None, None))
  {
    var actions := TwoRevocations();
    var s := System(Files(Trust(r), NoTombstone), []);
    var buried := System(Files(Trust(r), Tombstone(Some(r.config.workspaceId), Some(r.checkpoint))), [LookingAtTrust(None, None), Removing]);
    BothBegin(s, actions);
    BothLook(s, actions);
    SecondBuries(s, r, actions);
    FirstOverwrites(s, r, actions, buried);
    assert actions[..10] == actions;
  }

  lemma BothBegin(s: System, actions: seq<Action>)
    requires s.processes == [] && |actions| >= 2 && actions[0] == Begin(Revoke) && actions[1] == Begin(Revoke)
    ensures ActAll(s, actions[..2]) == System(s.files, [LookingBack, LookingBack])
  {
    assert actions[..0] == [];
    ActNext(s, actions, 0, s, System(s.files, [LookingBack]));
    ActNext(s, actions, 1, System(s.files, [LookingBack]), System(s.files, [LookingBack, LookingBack]));
  }

  lemma BothLook(s: System, actions: seq<Action>)
    requires s.files.tombstone.NoTombstone? && |actions| >= 4 && actions[2] == Run(0) && actions[3] == Run(1)
    requires ActAll(s, actions[..2]) == System(s.files, [LookingBack, LookingBack])
    ensures ActAll(s, actions[..4]) == System(s.files, [LookingAtTrust(None, None), LookingAtTrust(None, None)])
  {
    var look := LookingAtTrust(None, None);
    ActNext(s, actions, 2, System(s.files, [LookingBack, LookingBack]), System(s.files, [look, LookingBack]));
    ActNext(s, actions, 3, System(s.files, [look, LookingBack]), System(s.files, [look, look]));
  }

  lemma SecondBuries(s: System, r: Record, actions: seq<Action>)
    requires s.files.trust == Trust(r) && ValidRecord(r) && |actions| >= 6 && actions[4] == Run(1) && actions[5] == Run(1)
    requires ActAll(s, actions[..4]) == System(s.files, [LookingAtTrust(None, None), LookingAtTrust(None, None)])
    ensures ActAll(s, actions[..6])
         == System(Files(Trust(r), Tombstone(Some(r.config.workspaceId), Some(r.checkpoint))), [LookingAtTrust(None, None), Removing])
  {
    var id, c, look := Some(r.config.workspaceId), Some(r.checkpoint), LookingAtTrust(None, None);
    var four, five := System(s.files, [look, look]), System(s.files, [look, Burying(id, c)]);
    SecondLooks(s.files, look, id, c);
    ActNext(s, actions, 4, four, five);
    SecondWrites(five, look, id, c);
    ActNext(s, actions, 5, five, System(Files(Trust(r), Tombstone(id, c)), [look, Removing]));
  }

  lemma SecondLooks(f: Files, look: Process, id: Option<string>, c: Option<Checkpoint>)
    requires look == LookingAtTrust(None, None) && LastTrusted(f.trust).Some?
    requires id == Some(LastTrusted(f.trust).value.0) && c == Some(LastTrusted(f.trust).value.1)
    ensures Act(System(f, [look, look]), Run(1)) == System(f, [look, Burying(id, c)])
  {
  }

  lemma SecondWrites(s: System, look: Process, id: Option<string>, c: Option<Checkpoint>)
    requires s.processes == [look, Burying(id, c)]
    ensures Act(s, Run(1)) == System(s.files.(tombstone := Tombstone(id, c)), [look, Removing])
  {
  }

  lemma FirstOverwrites(s: System, r: Record, actions: seq<Action>, six: System)
    requires |actions| >= 10 && actions[6] == Run(1) && actions[7] == Run(0) && actions[8] == Run(0) && actions[9] == Run(0)
    requires six.files.trust == Trust(r) && six.processes == [LookingAtTrust(None, None), Removing] && ActAll(s, actions[..6]) == six
    ensures ActAll(s, actions[..10]).files == Files(NoTrust, Tombstone(None, None))
  {
    var f := Files(NoTrust, six.files.tombstone);
    var seven, eight := System(f, [LookingAtTrust(None, None), Revoked]), System(f, [Burying(None, None), Revoked]);
    var nine := System(Files(NoTrust, Tombstone(None, None)), [Removing, Revoked]);
    var ten := System(Files(NoTrust, Tombstone(None, None)), [Process.Revoked, Process.Revoked]);
    ActNext(s, actions, 6, six, seven);
    ActNext(s, actions, 7, seven, eight);
    ActNext(s, actions, 8, eight, nine);
    ActNext(s, actions, 9, nine, ten);
  }
}
