/** What the bounded projection of the source events keeps, without the functions that choose it (src/linked-memory.js:335-373). */
module ProjectionMeaning {
  import opened Common
  import opened LinkedGraph

  // ---------- events ----------

  /** The event that carries the current structure. */
  ghost predicate CarriesCurrent(source: seq<Event>, k: nat) {
    k < |source| && source[k].structure.Some? && forall j :: k < j < |source| ==> source[j].structure.None?
  }

  /**
   * All events are projected while they fit; otherwise the newest ones are, save that the event of the
   * current structure, when it is older, takes the oldest place.
   */
  lemma NewestAreProjected(source: seq<Event>)
    ensures var projected := ProjectedEvents(source);
            && (|source| <= 10_000 ==> projected == source)
            && (|source| > 10_000 ==>
                  var first := |source| - 10_000;
                  && |projected| == 10_000 && projected[1..] == source[first + 1..]
                  && (projected[0] == source[first] || exists k: nat :: CarriesCurrent(source, k) && k < first && projected[0] == source[k])
                  && (forall k: nat :: CarriesCurrent(source, k) && k < first ==> projected[0] == source[k]))
  {
    var latest := LatestStructure(source);
    if latest >= 0 {
      assert CarriesCurrent(source, latest);
    }
    forall k: nat | CarriesCurrent(source, k) ensures k == latest { }
  }

  // ---------- relations ----------

  /** The target is no source event, or one that is projected. */
  ghost predicate Reachable(source: seq<Event>, projected: seq<Event>, r: Relation) {
    (exists e :: e in source && r.target == Ledger(e.id)) ==> exists e :: e in projected && r.target == Ledger(e.id)
  }

  lemma AdmissibleMeans(source: seq<Event>, projected: seq<Event>, r: Relation)
    ensures Admissible(source, projected, r) <==> Reachable(source, projected, r)
  {
    AnyEventMeans(source, r.target);
    AnyEventMeans(projected, r.target);
  }

  lemma AnyEventMeans(events: seq<Event>, id: NodeId)
    ensures AnyEvent(events, id) <==> exists e :: e in events && id == Ledger(e.id)
  {
    if AnyEvent(events, id) {
      var i :| 0 <= i < |events| && Ledger(events[i].id) == id;
      assert events[i] in events;
    }
  }

  ghost function ReachableOf(source: seq<Event>, projected: seq<Event>, relations: seq<Relation>): seq<Relation> {
    if relations == [] then []
    else
      var last := relations[|relations| - 1];
      ReachableOf(source, projected, relations[..|relations| - 1]) + if Reachable(source, projected, last) then [last] else []
  }

  lemma {:induction false} AdmissibleAreReachable(source: seq<Event>, projected: seq<Event>, relations: seq<Relation>)
    ensures AdmissibleOf(source, projected, relations) == ReachableOf(source, projected, relations)
  {
    if relations != [] {
      AdmissibleAreReachable(source, projected, relations[..|relations| - 1]);
      AdmissibleMeans(source, projected, relations[|relations| - 1]);
    }
  }

  lemma {:induction false} KeptAt(source: seq<Event>, projected: seq<Event>, i: nat, k: nat)
    requires i <= k < |projected|
    ensures KeptFrom(source, projected, i)[k - i..] == KeptFrom(source, projected, k)
    decreases k - i
  {
    if i < k {
      KeptAt(source, projected, i + 1, k);
      assert KeptFrom(source, projected, i)[1..] == KeptFrom(source, projected, i + 1);
      assert KeptFrom(source, projected, i)[k - i..] == KeptFrom(source, projected, i)[1..][k - i - 1..];
    }
  }

  /**
   * Main result: an event keeps its reachable relations, in order, from the first on; it keeps all of them
   * unless the events from it on have used up the cap.
   */
  lemma RelationsKept(source: seq<Event>, projected: seq<Event>, k: nat)
    requires k < |projected|
    ensures var kept, all := KeptFrom(source, projected, 0)[k], ReachableOf(source, projected, projected[k].relations);
            kept <= all && (kept == all || TotalOf(KeptFrom(source, projected, 0)[k..]) == 20_000)
  {
    KeptAt(source, projected, 0, k);
    assert KeptFrom(source, projected, 0)[k] == KeptFrom(source, projected, 0)[k..][0];
    AdmissibleAreReachable(source, projected, projected[k].relations);
    if KeptFrom(source, projected, k)[0] != AdmissibleOf(source, projected, projected[k].relations) {
      NewestFirst(source, projected, k);
    }
  }

  // ---------- file references ----------

  /** Main result: a file keeps its first references, up to 64, unless the files before and it have used up the cap. */
  lemma {:induction false} ReferencesKept(files: seq<ProjectFile>, cap: nat, i: nat)
    requires i < |files|
    ensures var kept := KeptReferences(files, cap);
            && |kept| == |files| && kept[i].references <= files[i].references
            && (|kept[i].references| == Min(|files[i].references|, 64) || CountReferences(kept[..i + 1]) == cap)
  {
    var kept := KeptReferences(files, cap);
    KeptReferencesFacts(files, cap);
    var first := Trim(files[0], cap);
    var rest := KeptReferences(files[1..], cap - |first.references|);
    assert kept == [first] + rest;
    assert kept[..i + 1] == [first] + rest[..i];
    assert ([first] + rest[..i])[1..] == rest[..i];
    if i == 0 {
      assert rest[..0] == [];
    } else {
      ReferencesKept(files[1..], cap - |first.references|, i - 1);
    }
  }
}
