/**
 * Incremental checkpoints of src/coding-harness.js: runs recorded in an append-only ledger, reused when nothing
 * changed, and counting the source events since the last checkpoint otherwise.
 *
 * The digest that names a run is idealised: a run key is the tuple of what goes into it.
 */
module CodingHarness {
  import opened Common

  datatype Worktree = Worktree(repositoryId: string, worktreeId: string)

  /** Limits and summarizer of a run; they separate keys but not checkpoints. */
  datatype Options = Options(query: string, maxChars: int, maxTokens: Option<int>, reserveTokens: Option<int>, limit: int,
                             maxSummaryChars: int, summarizer: string)

  datatype RunKey = RunKey(options: Options, worktree: Option<Worktree>, sourceHead: Option<string>)

  datatype Mode = Initial | Unchanged | FullRebuild | Delta

  datatype Increment = Increment(mode: Mode, changedEventCount: nat)

  datatype Event = Source(hash: string) | Recorded(key: RunKey, increment: Increment)

  type Ledger = seq<Event>

  // ---------- reading the ledger ----------

  function Sources(events: Ledger): seq<string> {
    if events == [] then []
    else
      var last := events[|events| - 1];
      Sources(events[..|events| - 1]) + if last.Source? then [last.hash] else []
  }

  function SourceHead(events: Ledger): Option<string> {
    var sources := Sources(events);
    if sources == [] then None else Some(sources[|sources| - 1])
  }

  /** The newest run with this key. */
  function ExistingRecord(events: Ledger, key: RunKey): (r: Option<Event>)
    ensures r.Some? ==> r.value in events && r.value.Recorded? && r.value.key == key
    ensures r.None? ==> forall e :: e in events ==> !(e.Recorded? && e.key == key)
  {
    if events == [] then None
    else
      var front, last := events[..|events| - 1], events[|events| - 1];
      assert events == front + [last];
      if last.Recorded? && last.key == key then Some(last) else ExistingRecord(front, key)
  }

  predicate Concerns(e: Event, query: string, worktree: Option<Worktree>) {
    e.Recorded? && e.key.options.query == query && e.key.worktree == worktree
  }

  /** The newest run for this query and worktree, whatever its limits. */
  function LatestCheckpoint(events: Ledger, query: string, worktree: Option<Worktree>): Option<Event> {
    if events == [] then None
    else if Concerns(events[|events| - 1], query, worktree) then Some(events[|events| - 1])
    else LatestCheckpoint(events[..|events| - 1], query, worktree)
  }

  /** First position of a hash. */
  function IndexOf(sources: seq<string>, hash: string): (r: Option<nat>)
    ensures r.Some? ==> r.value < |sources| && sources[r.value] == hash
    ensures r.None? ==> hash !in sources
    ensures r.Some? ==> forall i :: 0 <= i < r.value ==> sources[i] != hash
  {
    if sources == [] then None
    else if sources[0] == hash then Some(0)
    else
      var later := IndexOf(sources[1..], hash);
      if later.None? then None else Some(later.value + 1)
  }

  function IncrementalState(sources: seq<string>, head: Option<string>, previous: Option<Event>): Increment
    requires previous.Some? ==> previous.value.Recorded?
  {
    if previous.None? then Increment(Initial, |sources|)
    else
      var previousHead := previous.value.key.sourceHead;
      if previousHead == head then Increment(Unchanged, 0)
      else if previousHead.None? then Increment(FullRebuild, |sources|)
      else
        var at := IndexOf(sources, previousHead.value);
        if at.None? then Increment(FullRebuild, |sources|) else Increment(Delta, |sources| - at.value - 1)
  }

  lemma {:induction false} LatestIsRecorded(events: Ledger, query: string, worktree: Option<Worktree>)
    ensures LatestCheckpoint(events, query, worktree).Some? ==> Concerns(LatestCheckpoint(events, query, worktree).value, query, worktree)
  {
    if events != [] { LatestIsRecorded(events[..|events| - 1], query, worktree); }
  }

  function IncrementOf(events: Ledger, query: string, worktree: Option<Worktree>): Increment {
    LatestIsRecorded(events, query, worktree);
    IncrementalState(Sources(events), SourceHead(events), LatestCheckpoint(events, query, worktree))
  }

  // ---------- a run ----------

  datatype Recording = NotRequested | Created | Reused

  datatype Outcome = Outcome(increment: Increment, recording: Recording)

  function KeyFor(events: Ledger, options: Options, worktree: Option<Worktree>): RunKey {
    RunKey(options, worktree, SourceHead(events))
  }

  function Compile(events: Ledger, options: Options, worktree: Option<Worktree>, record: bool): (Ledger, Outcome) {
    var key := KeyFor(events, options, worktree);
    var increment := IncrementOf(events, options.query, worktree);
    if !record then (events, Outcome(increment, NotRequested))
    else if ExistingRecord(events, key).Some? then (events, Outcome(increment, Reused))
    else (events + [Recorded(key, increment)], Outcome(increment, Created))
  }

  /** The workspace ledger; nothing ever removes an event. */
  class Workspace {
    var events: Ledger

    constructor ()
      ensures events == []
    {
      events := [];
    }

    method AppendSource(hash: string)
      modifies this
      ensures events == old(events) + [Source(hash)]
    {
      events := events + [Source(hash)];
    }

    method CompileWorktree(options: Options, worktree: Option<Worktree>, record: bool) returns (outcome: Outcome)
      modifies this
      ensures (events, outcome) == Compile(old(events), options, worktree, record)
    {
      var sources, head := Sources(events), SourceHead(events);
      var key := RunKey(options, worktree, head);
      var previous := ExistingRecord(events, key);
      LatestIsRecorded(events, options.query, worktree);
      var increment := IncrementalState(sources, head, LatestCheckpoint(events, options.query, worktree));
      if record && previous.Some? {
        return Outcome(increment, Reused);
      }
      if record {
        events := events + [Recorded(key, increment)];
        return Outcome(increment, Created);
      }
      return Outcome(increment, NotRequested);
    }
  }

  // ---------- every reachable ledger ----------

  datatype Action = Append(hash: string) | Run(options: Options, worktree: Option<Worktree>, record: bool)

  function Act(events: Ledger, a: Action): Ledger {
    match a
    case Append(hash) => events + [Source(hash)]
    case Run(options, worktree, record) => Compile(events, options, worktree, record).0
  }

  function ActAll(actions: seq<Action>): Ledger {
    if actions == [] then [] else Act(ActAll(actions[..|actions| - 1]), actions[|actions| - 1])
  }

  /** Every appended source event has a hash of its own. */
  ghost predicate DistinctHashes(actions: seq<Action>) {
    forall i, j :: 0 <= i < j < |actions| && actions[i].Append? && actions[j].Append? ==> actions[i].hash != actions[j].hash
  }

  /** Each event is what its predecessors make it. */
  ghost predicate WellFormed(events: Ledger) {
    events == [] ||
    var front, last := events[..|events| - 1], events[|events| - 1];
    && WellFormed(front)
    && match last
       case Source(hash) => hash !in Sources(front)
       case Recorded(key, increment) =>
         && key == KeyFor(front, key.options, key.worktree)
         && ExistingRecord(front, key).None?
         && increment == IncrementOf(front, key.options.query, key.worktree)
  }

  /** The hashes appended by a run of actions, in order. */
  function Appended(actions: seq<Action>): seq<string> {
    if actions == [] then []
    else
      var last := actions[|actions| - 1];
      Appended(actions[..|actions| - 1]) + if last.Append? then [last.hash] else []
  }

  /** No run adds, hides or reorders a source event. */
  lemma {:induction false} SourcesAreAppended(actions: seq<Action>)
    ensures Sources(ActAll(actions)) == Appended(actions)
  {
    if actions != [] {
      var front := actions[..|actions| - 1];
      SourcesAreAppended(front);
      var before, after := ActAll(front), ActAll(actions);
      if |after| > |before| { assert after[..|after| - 1] == before; }
    }
  }

  lemma {:induction false} OnlyAppendedSources(actions: seq<Action>, hash: string)
    requires forall i :: 0 <= i < |actions| ==> actions[i] != Append(hash)
    ensures hash !in Sources(ActAll(actions))
  {
    if actions != [] {
      var n := |actions| - 1;
      var before, after := ActAll(actions[..n]), ActAll(actions);
      OnlyAppendedSources(actions[..n], hash);
      assert actions[n] != Append(hash);
      if |after| > |before| { assert after[..|after| - 1] == before; }
    }
  }

  lemma {:induction false} ReachableIsWellFormed(actions: seq<Action>)
    requires DistinctHashes(actions)
    ensures WellFormed(ActAll(actions))
  {
    if actions != [] {
      var front, last := actions[..|actions| - 1], actions[|actions| - 1];
      ReachableIsWellFormed(front);
      var before, after := ActAll(front), ActAll(actions);
      if |after| > |before| { assert after[..|after| - 1] == before; }
      if last.Append? {
        OnlyAppendedSources(front, last.hash);
      }
    }
  }

  lemma {:induction false} SourcesAreDistinct(events: Ledger)
    requires WellFormed(events)
    ensures Distinct(Sources(events))
  {
    if events != [] { SourcesAreDistinct(events[..|events| - 1]); }
  }

  // ---------- telescoping ----------

  /** What the recorded runs for a query and worktree say they covered, added up. */
  function SumChanged(events: Ledger, query: string, worktree: Option<Worktree>): nat {
    if events == [] then 0
    else
      var last := events[|events| - 1];
      SumChanged(events[..|events| - 1], query, worktree)
      + if last.Recorded? && last.key.options.query == query && last.key.worktree == worktree
        then last.increment.changedEventCount else 0
  }

  /** How many source events the newest such run had before it. */
  function Seen(events: Ledger, query: string, worktree: Option<Worktree>): nat {
    if events == [] then 0
    else
      var last := events[|events| - 1];
      if last.Recorded? && last.key.options.query == query && last.key.worktree == worktree
      then |Sources(events[..|events| - 1])| else Seen(events[..|events| - 1], query, worktree)
  }

  function HeadOf(sources: seq<string>, count: nat): Option<string>
    requires count <= |sources|
  {
    if count == 0 then None else Some(sources[count - 1])
  }

  lemma {:induction false} CheckpointHead(events: Ledger, query: string, worktree: Option<Worktree>)
    requires WellFormed(events)
    ensures Seen(events, query, worktree) <= |Sources(events)|
    ensures var latest := LatestCheckpoint(events, query, worktree);
            && (latest.None? ==> Seen(events, query, worktree) == 0)
            && (latest.Some? ==> latest.value.Recorded? && latest.value.key.sourceHead == HeadOf(Sources(events), Seen(events, query, worktree)))
  {
    if events != [] {
      CheckpointHead(events[..|events| - 1], query, worktree);
    }
  }

  lemma IndexOfDistinct(sources: seq<string>, i: nat)
    requires Distinct(sources) && i < |sources|
    ensures IndexOf(sources, sources[i]) == Some(i)
  {
    assert sources[i] in sources;
  }

  /** A run covers exactly the source events that no earlier run for its query and worktree had seen. */
  lemma IncrementIsDifference(events: Ledger, query: string, worktree: Option<Worktree>)
    requires WellFormed(events)
    ensures Seen(events, query, worktree) <= |Sources(events)|
    ensures var increment := IncrementOf(events, query, worktree);
            var latest := LatestCheckpoint(events, query, worktree);
            && increment.changedEventCount == |Sources(events)| - Seen(events, query, worktree)
            && (increment.mode.Initial? <==> latest.None?)
            && (increment.mode.Unchanged? <==> latest.Some? && increment.changedEventCount == 0)
            && (increment.mode.FullRebuild? <==> latest.Some? && increment.changedEventCount > 0 && Seen(events, query, worktree) == 0)
  {
    CheckpointHead(events, query, worktree);
    SourcesAreDistinct(events);
    var sources, seen := Sources(events), Seen(events, query, worktree);
    if LatestCheckpoint(events, query, worktree).Some? && seen > 0 {
      IndexOfDistinct(sources, seen - 1);
      IndexOfDistinct(sources, |sources| - 1);
    }
  }

  /** Main result: recorded counts telescope to the number of source events the newest run had seen. */
  lemma {:induction false} CountsTelescope(events: Ledger, query: string, worktree: Option<Worktree>)
    requires WellFormed(events)
    ensures SumChanged(events, query, worktree) == Seen(events, query, worktree)
  {
    if events != [] {
      var front, last := events[..|events| - 1], events[|events| - 1];
      CountsTelescope(front, query, worktree);
      if Concerns(last, query, worktree) {
        IncrementIsDifference(front, query, worktree);
      }
    }
  }

  /** A record with the current key was made after the last source event. */
  lemma {:induction false} CurrentKeyIsCurrent(events: Ledger, options: Options, worktree: Option<Worktree>, e: Event)
    requires WellFormed(events) && e in events && e.Recorded?
    requires e.key == KeyFor(events, options, worktree)
    ensures Seen(events, options.query, worktree) == |Sources(events)|
  {
    var front, last := events[..|events| - 1], events[|events| - 1];
    assert events == front + [last];
    if last.Source? {
      HeadsAreOld(front, e);
    } else if last != e {
      CurrentKeyIsCurrent(front, options, worktree, e);
    }
  }

  /** The head a run recorded was the last source event at the time. */
  lemma {:induction false} HeadsAreOld(events: Ledger, e: Event)
    requires WellFormed(events) && e in events && e.Recorded?
    ensures e.key.sourceHead.Some? ==> e.key.sourceHead.value in Sources(events)
  {
    var front, last := events[..|events| - 1], events[|events| - 1];
    assert events == front + [last];
    if e in front { HeadsAreOld(front, e); }
  }

  /** Main result: after any recorded run, everything so far is covered. */
  lemma RecordedRunCoversAll(events: Ledger, options: Options, worktree: Option<Worktree>)
    requires WellFormed(events)
    ensures var after := Compile(events, options, worktree, true).0;
            && WellFormed(after) && Sources(after) == Sources(events)
            && SumChanged(after, options.query, worktree) == Seen(after, options.query, worktree) == |Sources(events)|
            && ExistingRecord(after, KeyFor(after, options, worktree)).Some?
  {
    var key := KeyFor(events, options, worktree);
    var after := Compile(events, options, worktree, true).0;
    var existing := ExistingRecord(events, key);
    if existing.Some? {
      CurrentKeyIsCurrent(events, options, worktree, existing.value);
    } else {
      assert after[..|after| - 1] == events;
    }
    CountsTelescope(after, options.query, worktree);
  }

  /** Later events that are all recorded runs. */
  ghost predicate OnlyRuns(more: Ledger) { forall i :: 0 <= i < |more| ==> more[i].Recorded? }

  lemma {:induction false} RunsKeepCoverage(events: Ledger, more: Ledger, query: string, worktree: Option<Worktree>)
    requires OnlyRuns(more) && Seen(events, query, worktree) == |Sources(events)|
    ensures Sources(events + more) == Sources(events)
    ensures Seen(events + more, query, worktree) == |Sources(events)|
  {
    if more == [] {
      assert events + more == events;
    } else {
      var front := more[..|more| - 1];
      RunsKeepCoverage(events, front, query, worktree);
      assert (events + more)[..|events + more| - 1] == events + front;
    }
  }

  /** Main result: with no new source event, running again appends nothing and reports no change. */
  lemma RerunIsUnchanged(events: Ledger, more: Ledger, options: Options, worktree: Option<Worktree>, record: bool)
    requires WellFormed(events) && OnlyRuns(more)
    requires WellFormed(Compile(events, options, worktree, true).0 + more)
    ensures var now := Compile(events, options, worktree, true).0 + more;
            var (after, outcome) := Compile(now, options, worktree, record);
            && after == now
            && outcome == Outcome(Increment(Unchanged, 0), if record then Reused else NotRequested)
  {
    RecordedRunCoversAll(events, options, worktree);
    var first := Compile(events, options, worktree, true).0;
    RunsKeepCoverage(first, more, options.query, worktree);
    var now := first + more;
    IncrementIsDifference(now, options.query, worktree);
    var e := ExistingRecord(first, KeyFor(first, options, worktree)).value;
    assert e in now;
    StillLatest(now, e, options.query, worktree);
  }

  lemma {:induction false} StillLatest(events: Ledger, e: Event, query: string, worktree: Option<Worktree>)
    requires e in events && Concerns(e, query, worktree)
    ensures LatestCheckpoint(events, query, worktree).Some?
  {
    var front, last := events[..|events| - 1], events[|events| - 1];
    assert events == front + [last];
    if last != e { StillLatest(front, e, query, worktree); }
  }
}
