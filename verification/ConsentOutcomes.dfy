/** How undisturbed operations of src/consent.js end, and what every run writes. */
module ConsentOutcomes {
  import opened Common
  import opened Consent
  import opened ConsentMachine

  /** Bounds of a policy, and a head hash exactly when there are events. */
  ghost predicate Sound(r: Record) {
    && 4_096 <= r.config.policy.maxEventBytes <= 1_048_576
    && 1_048_576 <= r.config.policy.maxLogBytes <= 1_073_741_824
    && 512 <= r.config.policy.contextMaxChars <= 1_000_000
    && SoundCheckpoint(r.checkpoint)
  }

  ghost predicate SoundCheckpoint(c: Checkpoint) {
    0 <= c.eventCount && 0 <= c.logBytes && (c.headHash.Some? <==> c.eventCount > 0)
  }

  lemma SoundIsValid(r: Record)
    ensures ValidRecord(r) <==> Sound(r)
    ensures ValidCheckpoint(r.checkpoint) <==> SoundCheckpoint(r.checkpoint)
  {
  }

  ghost predicate Unreadable(t: TombstoneFile) {
    t.MalformedTombstone? || (t.Tombstone? && t.checkpoint.Some? && !SoundCheckpoint(t.checkpoint.value))
  }

  /** Main result: what reading consent answers, for all contents of the two files; it writes nothing. */
  lemma ReadOutcome(f: Files, config: Config)
    ensures Complete(f, Read(config)).0 == f
    ensures var answer, t := Outcome(Complete(f, Read(config)).1), f.trust;
            && (!f.tombstone.NoTombstone? ==> answer == Err(if Unreadable(f.tombstone) then TrustInvalid else NotTrusted))
            && (f.tombstone.NoTombstone? ==>
                  && (t.NoTrust? ==> answer == Err(NotTrusted))
                  && (t.LegacyTrust? ==> answer == Err(ReviewRequired))
                  && (t.MalformedTrust? || (t.Trust? && !Sound(t.record)) ==> answer == Err(TrustInvalid))
                  && (t.Trust? && Sound(t.record) ==>
                        if t.record.config.workspaceId != config.workspaceId then answer == Err(NotTrusted)
                        else if t.record.config != config then answer == Err(NotApproved)
                        else answer == Ok(Some(t.record))))
  {
    ReadSteps(f, config, None);
    if f.trust.Trust? {
      SoundIsValid(f.trust.record);
    }
  }

  /** Main result: when a grant succeeds, and what it leaves; only a grant that may not clear can be refused unseen. */
  lemma GrantOutcome(f: Files, config: Config, checkpoint: Checkpoint, preserve: bool, now: int)
    ensures var (g, p) := Complete(f, Grant(config, checkpoint, preserve, now));
            var record := Record(config, now, checkpoint);
            && (p == Succeeded(record) <==> Sound(record) && (preserve ==> f.tombstone.NoTombstone?))
            && (p == Succeeded(record) ==> g == Files(Trust(record), NoTombstone))
            && (p != Succeeded(record) ==> p.Failed? && g == if preserve then f else f.(tombstone := NoTombstone))
  {
    GrantSteps(f, config, checkpoint, preserve, now);
    SoundIsValid(Record(config, now, checkpoint));
  }

  /** What a review is shown, for all contents of the two files: the tombstone decides when there is one. */
  lemma ReviewOutcome(f: Files, workspaceId: string)
    ensures var answer, t, buried := ReviewCheckpoint(f, workspaceId), f.trust, f.tombstone;
            && (Unreadable(buried) ==> answer == Err(TrustInvalid))
            && (buried.Tombstone? && !Unreadable(buried) ==>
                  answer == if buried.workspaceId.Some? && buried.workspaceId.value != workspaceId then Err(NotTrusted) else Ok(buried.checkpoint))
            && (buried.NoTombstone? ==>
                  && (t.NoTrust? ==> answer == Ok(None))
                  && (t.MalformedTrust? || (t.Trust? && !Sound(t.record)) || (t.LegacyTrust? && !SoundCheckpoint(t.kept)) ==>
                        answer == Err(TrustInvalid))
                  && (t.Trust? && Sound(t.record) ==>
                        answer == if t.record.config.workspaceId != workspaceId then Err(NotTrusted) else Ok(Some(t.record.checkpoint)))
                  && (t.LegacyTrust? && SoundCheckpoint(t.kept) ==>
                        answer == if t.workspaceId != workspaceId then Err(NotTrusted) else Ok(Some(t.kept))))
  {
    if f.trust.Trust? {
      SoundIsValid(f.trust.record);
    }
  }

  // ---------- every run ----------

  ghost predicate CarriesSound(p: Process) { RecordIn(p).Some? ==> Sound(RecordIn(p).value) }

  lemma NextIsSound(f: Files, p: Process)
    requires !Done(p) && CarriesSound(p)
    ensures var (g, q) := Next(f, p); CarriesSound(q) && (g.trust.Trust? ==> g.trust == f.trust || Sound(g.trust.record))
  {
  }

  lemma ActIsSound(s: System, a: Action)
    requires forall p :: p in s.processes ==> CarriesSound(p)
    ensures forall p :: p in Act(s, a).processes ==> CarriesSound(p)
    ensures var t := Act(s, a).files.trust; t.Trust? ==> t == s.files.trust || Sound(t.record)
  {
    if a.Run? && a.pid < |s.processes| && !Done(s.processes[a.pid]) {
      NextIsSound(s.files, s.processes[a.pid]);
    }
  }

  /** Main result: in every interleaving, what is written or answered is within bounds; anything else was there before. */
  lemma {:induction false} OnlySoundRecords(s: System, actions: seq<Action>)
    requires forall p :: p in s.processes ==> CarriesSound(p)
    ensures forall p :: p in ActAll(s, actions).processes ==> CarriesSound(p)
    ensures var t := ActAll(s, actions).files.trust; t.Trust? ==> t == s.files.trust || Sound(t.record)
  {
    if actions != [] {
      OnlySoundRecords(s, actions[..|actions| - 1]);
      ActIsSound(ActAll(s, actions[..|actions| - 1]), actions[|actions| - 1]);
    }
  }

  // ---------- the conditions are the right ones ----------

  /** A step removes a tombstone exactly when it is the clearing step of a grant. */
  lemma TombstoneGoneExactlyWhen(s: System, a: Action)
    requires !s.files.tombstone.NoTombstone?
    ensures Act(s, a).files.tombstone.NoTombstone? <==> ClearsAt(s, a)
  {
  }

  /** An undisturbed operation removes one exactly when it is a grant that may clear. */
  lemma OnlyClearingGrants(f: Files, op: Operation)
    requires !f.tombstone.NoTombstone?
    ensures Complete(f, op).0.tombstone.NoTombstone? <==> ClearingGrant(op)
  {
    match op
    case Grant(config, checkpoint, preserve, now) => GrantSteps(f, config, checkpoint, preserve, now);
    case Read(config) => ReadSteps(f, config, None);
    case UpdateCheckpoint(config, checkpoint) => ReadSteps(f, config, Some(checkpoint));
    case UpdateEnabled(config, enabled, now) => EnabledKeepsTheRest(f, config, enabled, now);
    case Revoke => RevokeSteps(f);
  }

  /** Whatever ran before, a new sound grant is read back, and a revocation after it refuses every reader. */
  lemma GrantResumes(f: Files, ops: seq<Operation>, config: Config, checkpoint: Checkpoint, now: int)
    requires Sound(Record(config, now, checkpoint))
    ensures var granted := ops + [Grant(config, checkpoint, false, now)];
            && Complete(CompleteAll(f, granted), Read(config)).1 == Succeeded(Record(config, now, checkpoint))
            && forall reader :: Complete(CompleteAll(f, granted + [Revoke]), Read(reader)).1.Failed?
  {
    var grant := Grant(config, checkpoint, false, now);
    var granted := ops + [grant];
    assert granted[..|granted| - 1] == ops && (granted + [Revoke])[..|granted|] == granted;
    GrantOutcome(CompleteAll(f, ops), config, checkpoint, false, now);
    ReadOutcome(CompleteAll(f, granted), config);
    RevokeSteps(CompleteAll(f, granted));
    forall reader ensures Complete(CompleteAll(f, granted + [Revoke]), Read(reader)).1.Failed? {
      ReadOutcome(CompleteAll(f, granted + [Revoke]), reader);
    }
  }

  lemma ThreeSteps(s: System, a: Action, b: Action, c: Action)
    ensures ActAll(s, [a, b, c]) == Act(Act(Act(s, a), b), c)
  {
    assert [a, b, c][..2] == [a, b] && [a, b][..1] == [a] && [a][..0] == [];
    assert ActAll(s, [a]) == Act(ActAll(s, []), a);
    assert ActAll(s, [a, b]) == Act(ActAll(s, [a]), b);
  }

  lemma EmptyHandedBuriesNothing(s: System, j: nat)
    requires j < |s.processes| && LooksEmptyHanded(s.processes[j]) && LastTrusted(s.files.trust).None?
    ensures var t := Act(Act(s, Run(j)), Run(j)); !HasCheckpoint(t.files)
  {
  }

  /** A removal that comes too soon can lose every checkpoint: the revocation that needed the record then buries none. */
  lemma TooSoonCanLose(s: System, a: Action)
    requires RemovesTooSoon(s, a)
    ensures exists j: nat :: !HasCheckpoint(ActAll(s, [a, Run(j), Run(j)]).files)
  {
    var j :| 0 <= j < |s.processes| && LooksEmptyHanded(s.processes[j]);
    EmptyHandedBuriesNothing(Act(s, a), j);
    ThreeSteps(s, a, Run(j), Run(j));
  }
}
