/** The derived graph of src/indexer.js: project nodes and edges, closing of relation targets, coalescing. */
module DerivedGraph {
  import opened Common
  import opened LinkedGraph
  import opened LinkedGraphFacts

  /** What an edge carries besides its identity is an observation, left abstract. */
  datatype RawEdge<O> = RawEdge(key: EdgeKey, sourceEvent: Option<NodeId>, observation: O)

  // ---------- closing relation targets ----------

  /** A node made for a target that was none keeps the source of the first edge that led to it. */
  datatype AddedNode = AddedNode(id: NodeId, firstSource: NodeId)

  function Ids(added: seq<AddedNode>): seq<NodeId> {
    seq(|added|, i requires 0 <= i < |added| => added[i].id)
  }

  ghost predicate LedTo<O>(edges: seq<RawEdge<O>>, i: nat, r: AddedNode)
    requires i < |edges|
  {
    && edges[i].key == EdgeKey(r.firstSource, edges[i].key.kind, r.id)
    && forall j :: 0 <= j < i ==> edges[j].key.target != r.id
  }

  /** The added nodes are the missing targets, each once, remembered by its first edge. */
  ghost predicate Closes<O>(nodes: seq<NodeId>, edges: seq<RawEdge<O>>, added: seq<AddedNode>) {
    && Distinct(Ids(added))
    && (forall i :: 0 <= i < |edges| ==> edges[i].key.target in nodes + Ids(added))
    && (forall k :: 0 <= k < |added| ==> added[k].id !in nodes && HasFirst(edges, added[k]))
  }

  ghost predicate HasFirst<O>(edges: seq<RawEdge<O>>, r: AddedNode) {
    exists i :: 0 <= i < |edges| && LedTo(edges, i, r)
  }

  lemma FirstStays<O>(edges: seq<RawEdge<O>>, i: nat, r: AddedNode)
    requires i < |edges| && HasFirst(edges[..i], r)
    ensures HasFirst(edges[..i + 1], r)
  {
    var before, after := edges[..i], edges[..i + 1];
    var m :| 0 <= m < |before| && LedTo(before, m, r);
    assert forall j :: 0 <= j < i ==> before[j] == after[j];
    assert LedTo(after, m, r);
  }

  lemma KnownTarget<O>(nodes: seq<NodeId>, edges: seq<RawEdge<O>>, i: nat, added: seq<AddedNode>)
    requires i < |edges| && Closes(nodes, edges[..i], added) && edges[i].key.target in nodes + Ids(added)
    ensures Closes(nodes, edges[..i + 1], added)
  {
    var before, after := edges[..i], edges[..i + 1];
    assert forall j :: 0 <= j < i ==> before[j] == after[j];
    forall k | 0 <= k < |added| ensures HasFirst(after, added[k]) { FirstStays(edges, i, added[k]); }
  }

  lemma MissingTarget<O>(nodes: seq<NodeId>, edges: seq<RawEdge<O>>, i: nat, added: seq<AddedNode>, r: AddedNode)
    requires i < |edges| && Closes(nodes, edges[..i], added) && edges[i].key.target !in nodes + Ids(added)
    requires r == AddedNode(edges[i].key.target, edges[i].key.source)
    ensures Closes(nodes, edges[..i + 1], added + [r])
  {
    var before, after, more := edges[..i], edges[..i + 1], added + [r];
    assert Ids(more) == Ids(added) + [r.id];
    assert forall j :: 0 <= j < i ==> before[j] == after[j];
    assert LedTo(after, i, r);
    forall k | 0 <= k < |more| ensures HasFirst(after, more[k]) {
      if k < |added| { FirstStays(edges, i, added[k]); }
    }
    DistinctSnoc(Ids(added), r.id);
  }

  method CloseTargets<O>(nodes: seq<NodeId>, edges: seq<RawEdge<O>>) returns (added: seq<AddedNode>)
    ensures Closes(nodes, edges, added)
  {
    var known := set x | x in nodes;
    added := [];
    for i := 0 to |edges|
      invariant Closes(nodes, edges[..i], added)
      invariant forall x :: x in known <==> x in nodes + Ids(added)
    {
      var target := edges[i].key.target;
      if target in known {
        KnownTarget(nodes, edges, i, added);
      } else {
        var node := AddedNode(target, edges[i].key.source);
        MissingTarget(nodes, edges, i, added, node);
        assert Ids(added + [node]) == Ids(added) + [target];
        added, known := added + [node], known + {target};
      }
    }
    assert edges[..|edges|] == edges;
  }

  /** Main result: closing keeps node ids unique, and when every source is a node no edge dangles. */
  lemma ClosedGraph<O>(nodes: seq<NodeId>, edges: seq<RawEdge<O>>, added: seq<AddedNode>)
    requires Closes(nodes, edges, added) && Distinct(nodes)
    requires forall i :: 0 <= i < |edges| ==> edges[i].key.source in nodes
    ensures Distinct(nodes + Ids(added))
    ensures forall i :: 0 <= i < |edges| ==> edges[i].key.source in nodes + Ids(added) && edges[i].key.target in nodes + Ids(added)
    ensures |added| <= |edges|
  {
    forall x | x in Ids(added) ensures x !in nodes {
      var k :| 0 <= k < |added| && Ids(added)[k] == x;
      assert added[k].id == x;
    }
    DistinctAppend(nodes, Ids(added));
    AddedAreTargets(nodes, edges, added);
  }

  function Targets<O>(edges: seq<RawEdge<O>>): set<NodeId> { set i | 0 <= i < |edges| :: edges[i].key.target }

  lemma {:induction false} TargetsSize<O>(edges: seq<RawEdge<O>>)
    ensures |Targets(edges)| <= |edges|
  {
    if edges != [] {
      var front, last := edges[..|edges| - 1], edges[|edges| - 1];
      TargetsSize(front);
      assert forall i :: 0 <= i < |front| ==> front[i] == edges[i];
      assert Targets(edges) == Targets(front) + {last.key.target};
    }
  }

  lemma {:induction false} DistinctSize(ids: seq<NodeId>)
    requires Distinct(ids)
    ensures |set x | x in ids| == |ids|
  {
    if ids != [] {
      var front, last := ids[..|ids| - 1], ids[|ids| - 1];
      DistinctSize(front);
      assert (set x | x in ids) == (set x | x in front) + {last};
    }
  }

  lemma AddedAreTargets<O>(nodes: seq<NodeId>, edges: seq<RawEdge<O>>, added: seq<AddedNode>)
    requires Closes(nodes, edges, added)
    ensures |added| <= |edges|
  {
    var ids := set x | x in Ids(added);
    forall x | x in ids ensures x in Targets(edges) {
      var k :| 0 <= k < |added| && Ids(added)[k] == x;
      var i :| 0 <= i < |edges| && LedTo(edges, i, added[k]);
      assert edges[i].key.target == x;
    }
    DistinctSize(Ids(added));
    TargetsSize(edges);
    SubsetSize(ids, Targets(edges));
  }

  // ---------- coalescing ----------

  /** The identity of an edge; without a source event its own source stands in. */
  datatype Identity = Identity(key: EdgeKey, sourceEvent: NodeId)

  function IdentityOf<O>(e: RawEdge<O>): Identity {
    Identity(e.key, if e.sourceEvent.Some? then e.sourceEvent.value else e.key.source)
  }

  /** The first edge of an identity, with every observation made of it. */
  datatype Group<O> = Group(edge: RawEdge<O>, occurrences: seq<O>)

  /** A group of one is the edge itself; only a larger one lists its occurrences. */
  datatype Coalesced<O> = Single(edge: RawEdge<O>) | Several(edge: RawEdge<O>, occurrences: seq<O>)

  function Output<O>(g: Group<O>): Coalesced<O> {
    if |g.occurrences| == 1 then Single(g.edge) else Several(g.edge, g.occurrences)
  }

  function ObservationsOf<O>(c: Coalesced<O>): seq<O> {
    if c.Single? then [c.edge.observation] else c.occurrences
  }

  /** Every observation of an identity, in input order. */
  function ObservationsWith<O>(edges: seq<RawEdge<O>>, id: Identity): seq<O> {
    if edges == [] then []
    else
      var last := edges[|edges| - 1];
      ObservationsWith(edges[..|edges| - 1], id) + if IdentityOf(last) == id then [last.observation] else []
  }

  ghost predicate Apart<O>(groups: seq<Group<O>>) {
    forall i, j :: 0 <= i < j < |groups| ==> IdentityOf(groups[i].edge) != IdentityOf(groups[j].edge)
  }

  /** A group holds all observations of its identity, that of its edge first. */
  ghost predicate HoldsAll<O>(g: Group<O>, edges: seq<RawEdge<O>>) {
    && g.occurrences == ObservationsWith(edges, IdentityOf(g.edge))
    && g.occurrences != [] && g.occurrences[0] == g.edge.observation
  }

  ghost predicate IsGrouping<O>(groups: seq<Group<O>>, edges: seq<RawEdge<O>>) {
    && Apart(groups)
    && (forall i :: 0 <= i < |groups| ==> HoldsAll(groups[i], edges))
    && (forall id :: ObservationsWith(edges, id) != [] ==> HasGroup(groups, id))
  }

  ghost predicate HasGroup<O>(groups: seq<Group<O>>, id: Identity) {
    exists i :: 0 <= i < |groups| && IdentityOf(groups[i].edge) == id
  }

  ghost predicate GroupIndex<O>(groups: seq<Group<O>>, at: map<Identity, nat>) {
    && (forall id :: id in at ==> at[id] < |groups| && IdentityOf(groups[at[id]].edge) == id)
    && (forall i :: 0 <= i < |groups| ==> IdentityOf(groups[i].edge) in at && at[IdentityOf(groups[i].edge)] == i)
  }

  lemma ObservationsSnoc<O>(edges: seq<RawEdge<O>>, e: RawEdge<O>)
    ensures forall id :: ObservationsWith(edges + [e], id) == ObservationsWith(edges, id) + if IdentityOf(e) == id then [e.observation] else []
  {
    assert (edges + [e])[..|edges|] == edges;
  }

  lemma ObservedAgain<O>(groups: seq<Group<O>>, edges: seq<RawEdge<O>>, e: RawEdge<O>, at: nat)
    requires IsGrouping(groups, edges) && at < |groups| && IdentityOf(groups[at].edge) == IdentityOf(e)
    ensures IsGrouping(groups[at := Group(groups[at].edge, groups[at].occurrences + [e.observation])], edges + [e])
  {
    ObservationsSnoc(edges, e);
    var after := groups[at := Group(groups[at].edge, groups[at].occurrences + [e.observation])];
    forall i | 0 <= i < |after| ensures HoldsAll(after[i], edges + [e]) {
      assert HoldsAll(groups[i], edges);
    }
    forall id | ObservationsWith(edges + [e], id) != [] ensures HasGroup(after, id) {
      if id == IdentityOf(e) {
        assert IdentityOf(after[at].edge) == id;
      } else {
        var i :| 0 <= i < |groups| && IdentityOf(groups[i].edge) == id;
        assert IdentityOf(after[i].edge) == id;
      }
    }
  }

  lemma StillApart<O>(groups: seq<Group<O>>, g: Group<O>)
    requires Apart(groups) && !HasGroup(groups, IdentityOf(g.edge))
    ensures Apart(groups + [g])
  {
    var after := groups + [g];
    forall i, j | 0 <= i < j < |after| ensures IdentityOf(after[i].edge) != IdentityOf(after[j].edge) {
      assert i < |groups| && after[i] == groups[i];
      assert HasGroup(groups, IdentityOf(groups[i].edge));
    }
  }

  lemma StillHolds<O>(g: Group<O>, edges: seq<RawEdge<O>>, e: RawEdge<O>)
    requires HoldsAll(g, edges) && IdentityOf(g.edge) != IdentityOf(e)
    ensures HoldsAll(g, edges + [e])
  {
    ObservationsSnoc(edges, e);
  }

  lemma HoldsFirst<O>(edges: seq<RawEdge<O>>, e: RawEdge<O>)
    requires ObservationsWith(edges, IdentityOf(e)) == []
    ensures HoldsAll(Group(e, [e.observation]), edges + [e])
  {
    ObservationsSnoc(edges, e);
    assert [] + [e.observation] == [e.observation];
  }

  lemma Covers<O>(groups: seq<Group<O>>, g: Group<O>, id: Identity)
    requires HasGroup(groups, id) || IdentityOf(g.edge) == id
    ensures HasGroup(groups + [g], id)
  {
    var after := groups + [g];
    if HasGroup(groups, id) {
      var i :| 0 <= i < |groups| && IdentityOf(groups[i].edge) == id;
      assert IdentityOf(after[i].edge) == id;
    } else {
      assert IdentityOf(after[|groups|].edge) == id;
    }
  }

  lemma FirstObserved<O>(groups: seq<Group<O>>, edges: seq<RawEdge<O>>, e: RawEdge<O>)
    requires IsGrouping(groups, edges) && !HasGroup(groups, IdentityOf(e))
    ensures IsGrouping(groups + [Group(e, [e.observation])], edges + [e])
  {
    var g := Group(e, [e.observation]);
    var after := groups + [g];
    StillApart(groups, g);
    HoldsFirst(edges, e);
    forall i | 0 <= i < |after| ensures HoldsAll(after[i], edges + [e]) {
      if i < |groups| {
        assert HasGroup(groups, IdentityOf(groups[i].edge));
        StillHolds(groups[i], edges, e);
      }
    }
    ObservationsSnoc(edges, e);
    forall id | ObservationsWith(edges + [e], id) != [] ensures HasGroup(after, id) {
      Covers(groups, g, id);
    }
  }

  lemma IndexedAgain<O>(groups: seq<Group<O>>, at: map<Identity, nat>, i: nat, occurrences: seq<O>)
    requires GroupIndex(groups, at) && i < |groups|
    ensures GroupIndex(groups[i := Group(groups[i].edge, occurrences)], at)
  {
  }

  lemma IndexedFirst<O>(groups: seq<Group<O>>, at: map<Identity, nat>, e: RawEdge<O>)
    requires GroupIndex(groups, at) && IdentityOf(e) !in at
    ensures !HasGroup(groups, IdentityOf(e))
    ensures GroupIndex(groups + [Group(e, [e.observation])], at[IdentityOf(e) := |groups|])
  {
  }

  method GroupEdges<O>(edges: seq<RawEdge<O>>) returns (groups: seq<Group<O>>)
    ensures IsGrouping(groups, edges)
  {
    groups := [];
    var grouped: map<Identity, nat> := map[];
    for i := 0 to |edges|
      invariant IsGrouping(groups, edges[..i]) && GroupIndex(groups, grouped)
    {
      var edge, identity := edges[i], IdentityOf(edges[i]);
      assert edges[..i + 1] == edges[..i] + [edge];
      if identity in grouped {
        var at := grouped[identity];
        ObservedAgain(groups, edges[..i], edge, at);
        IndexedAgain(groups, grouped, at, groups[at].occurrences + [edge.observation]);
        groups := groups[at := Group(groups[at].edge, groups[at].occurrences + [edge.observation])];
      } else {
        IndexedFirst(groups, grouped, edge);
        FirstObserved(groups, edges[..i], edge);
        grouped := grouped[identity := |groups|];
        groups := groups + [Group(edge, [edge.observation])];
      }
    }
    assert edges[..|edges|] == edges;
  }

  ghost predicate HasOutput<O>(result: seq<Coalesced<O>>, id: Identity) {
    exists i :: 0 <= i < |result| && IdentityOf(result[i].edge) == id
  }

  /** What coalescing promises: one edge per identity, carrying that identity's observations in order. */
  ghost predicate IsCoalesced<O>(result: seq<Coalesced<O>>, edges: seq<RawEdge<O>>) {
    && (forall i, j :: 0 <= i < j < |result| ==> IdentityOf(result[i].edge) != IdentityOf(result[j].edge))
    && (forall i :: 0 <= i < |result| ==> ObservationsOf(result[i]) == ObservationsWith(edges, IdentityOf(result[i].edge)) != [])
    && (forall id :: ObservationsWith(edges, id) != [] ==> HasOutput(result, id))
    && (forall i :: 0 <= i < |result| && result[i].Several? ==> |result[i].occurrences| > 1)
  }

  lemma OutputKeeps<O>(g: Group<O>)
    requires g.occurrences != [] && g.occurrences[0] == g.edge.observation
    ensures Output(g).edge == g.edge && ObservationsOf(Output(g)) == g.occurrences
    ensures Output(g).Several? ==> |Output(g).occurrences| > 1
  {
    if |g.occurrences| == 1 { assert g.occurrences == [g.edge.observation]; }
  }

  lemma OutputsAreCoalesced<O>(groups: seq<Group<O>>, edges: seq<RawEdge<O>>, result: seq<Coalesced<O>>)
    requires IsGrouping(groups, edges) && |result| == |groups| && forall i :: 0 <= i < |groups| ==> result[i] == Output(groups[i])
    ensures IsCoalesced(result, edges)
  {
    forall i | 0 <= i < |result|
      ensures result[i].edge == groups[i].edge && ObservationsOf(result[i]) == groups[i].occurrences
      ensures result[i].Several? ==> |result[i].occurrences| > 1
    {
      assert HoldsAll(groups[i], edges);
      OutputKeeps(groups[i]);
    }
    forall id | HasGroup(groups, id) ensures HasOutput(result, id) {
      var i :| 0 <= i < |groups| && IdentityOf(groups[i].edge) == id;
      assert IdentityOf(result[i].edge) == id;
    }
  }

  method Coalesce<O>(edges: seq<RawEdge<O>>) returns (result: seq<Coalesced<O>>)
    ensures IsCoalesced(result, edges)
  {
    var groups := GroupEdges(edges);
    result := seq(|groups|, i requires 0 <= i < |groups| => Output(groups[i]));
    OutputsAreCoalesced(groups, edges, result);
  }

  // ---------- what an identity is ----------

  /** Recorded from this event, or from none and then by the edge's own source. */
  predicate RecordedFrom<O>(e: RawEdge<O>, event: NodeId) {
    e.sourceEvent == Some(event) || (e.sourceEvent.None? && event == e.key.source)
  }

  /** Two records of one edge: same ends, same kind, same origin. */
  ghost predicate SameEdge<O>(a: RawEdge<O>, b: RawEdge<O>) {
    && a.key.source == b.key.source && a.key.kind == b.key.kind && a.key.target == b.key.target
    && exists event :: RecordedFrom(a, event) && RecordedFrom(b, event)
  }

  lemma IdentityMeans<O>(a: RawEdge<O>, b: RawEdge<O>)
    ensures IdentityOf(a) == IdentityOf(b) <==> SameEdge(a, b)
  {
    assert RecordedFrom(a, IdentityOf(a).sourceEvent);
    assert RecordedFrom(b, IdentityOf(b).sourceEvent);
  }

  /** The observations of every record of the same edge, in order. */
  ghost function ObservationsLike<O>(edges: seq<RawEdge<O>>, e: RawEdge<O>): seq<O> {
    if edges == [] then []
    else
      var last := edges[|edges| - 1];
      ObservationsLike(edges[..|edges| - 1], e) + if SameEdge(last, e) then [last.observation] else []
  }

  lemma {:induction false} ObservationsAreLike<O>(edges: seq<RawEdge<O>>, e: RawEdge<O>)
    ensures ObservationsWith(edges, IdentityOf(e)) == ObservationsLike(edges, e)
  {
    if edges != [] {
      ObservationsAreLike(edges[..|edges| - 1], e);
      IdentityMeans(edges[|edges| - 1], e);
    }
  }

  /** Main result: each edge of the result stands for all records of one edge, and every record is found again. */
  lemma CoalescedMeans<O>(result: seq<Coalesced<O>>, edges: seq<RawEdge<O>>)
    requires IsCoalesced(result, edges)
    ensures forall i, j :: 0 <= i < j < |result| ==> !SameEdge(result[i].edge, result[j].edge)
    ensures forall i :: 0 <= i < |result| ==> ObservationsOf(result[i]) == ObservationsLike(edges, result[i].edge) != []
    ensures forall k :: 0 <= k < |edges| ==> exists i :: 0 <= i < |result| && SameEdge(result[i].edge, edges[k])
  {
    forall i, j | 0 <= i < j < |result| ensures !SameEdge(result[i].edge, result[j].edge) {
      IdentityMeans(result[i].edge, result[j].edge);
    }
    forall i | 0 <= i < |result| ensures ObservationsOf(result[i]) == ObservationsLike(edges, result[i].edge) != [] {
      ObservationsAreLike(edges, result[i].edge);
    }
    forall k | 0 <= k < |edges| ensures exists i :: 0 <= i < |result| && SameEdge(result[i].edge, edges[k]) {
      Observed(edges, k);
      var i :| 0 <= i < |result| && IdentityOf(result[i].edge) == IdentityOf(edges[k]);
      IdentityMeans(result[i].edge, edges[k]);
    }
  }

  // ---------- conservation ----------

  function AllObservations<O>(edges: seq<RawEdge<O>>): seq<O> {
    seq(|edges|, i requires 0 <= i < |edges| => edges[i].observation)
  }

  /** The observations of a list of identities, one list after the other. */
  ghost function Gathered<O>(edges: seq<RawEdge<O>>, ids: seq<Identity>): multiset<O> {
    if ids == [] then multiset{}
    else Gathered(edges, ids[..|ids| - 1]) + multiset(ObservationsWith(edges, ids[|ids| - 1]))
  }

  lemma ObservedMultiset<O>(edges: seq<RawEdge<O>>, e: RawEdge<O>, id: Identity)
    ensures multiset(ObservationsWith(edges + [e], id))
         == multiset(ObservationsWith(edges, id)) + if IdentityOf(e) == id then multiset{e.observation} else multiset{}
  {
    ObservationsSnoc(edges, e);
  }

  lemma LastIsNew(ids: seq<Identity>)
    requires Distinct(ids) && ids != []
    ensures var front, last := ids[..|ids| - 1], ids[|ids| - 1];
            ids == front + [last] && last !in front && forall id :: id in ids <==> id in front || id == last
  {
    assert ids == ids[..|ids| - 1] + [ids[|ids| - 1]];
  }

  lemma {:induction false} GatheredGrows<O>(edges: seq<RawEdge<O>>, e: RawEdge<O>, ids: seq<Identity>)
    requires Distinct(ids)
    ensures Gathered(edges + [e], ids) == Gathered(edges, ids) + if IdentityOf(e) in ids then multiset{e.observation} else multiset{}
  {
    if ids != [] {
      var front, last := ids[..|ids| - 1], ids[|ids| - 1];
      GatheredGrows(edges, e, front);
      ObservedMultiset(edges, e, last);
      LastIsNew(ids);
    }
  }

  lemma {:induction false} GatheredNothing<O>(edges: seq<RawEdge<O>>, ids: seq<Identity>)
    requires edges == []
    ensures Gathered(edges, ids) == multiset{}
  {
    if ids != [] { GatheredNothing(edges, ids[..|ids| - 1]); }
  }

  lemma AllObservationsSnoc<O>(edges: seq<RawEdge<O>>, e: RawEdge<O>)
    ensures multiset(AllObservations(edges + [e])) == multiset(AllObservations(edges)) + multiset{e.observation}
  {
    assert AllObservations(edges + [e]) == AllObservations(edges) + [e.observation];
  }

  lemma GatheredOneMore<O>(front: seq<RawEdge<O>>, e: RawEdge<O>, ids: seq<Identity>)
    requires Distinct(ids) && IdentityOf(e) in ids && Gathered(front, ids) == multiset(AllObservations(front))
    ensures Gathered(front + [e], ids) == multiset(AllObservations(front + [e]))
  {
    GatheredGrows(front, e, ids);
    AllObservationsSnoc(front, e);
  }

  lemma {:induction false} GatheredAll<O>(edges: seq<RawEdge<O>>, ids: seq<Identity>)
    requires Distinct(ids) && forall e :: e in edges ==> IdentityOf(e) in ids
    ensures Gathered(edges, ids) == multiset(AllObservations(edges))
  {
    if edges == [] {
      GatheredNothing(edges, ids);
    } else {
      var front, last := edges[..|edges| - 1], edges[|edges| - 1];
      assert edges == front + [last] && last in edges;
      GatheredAll(front, ids);
      GatheredOneMore(front, last, ids);
    }
  }

  function OutputIds<O>(result: seq<Coalesced<O>>): seq<Identity> {
    seq(|result|, i requires 0 <= i < |result| => IdentityOf(result[i].edge))
  }

  ghost function OutputObservations<O>(result: seq<Coalesced<O>>): multiset<O> {
    if result == [] then multiset{}
    else OutputObservations(result[..|result| - 1]) + multiset(ObservationsOf(result[|result| - 1]))
  }

  lemma {:induction false} OutputsGather<O>(result: seq<Coalesced<O>>, edges: seq<RawEdge<O>>)
    requires forall i :: 0 <= i < |result| ==> ObservationsOf(result[i]) == ObservationsWith(edges, IdentityOf(result[i].edge))
    ensures OutputObservations(result) == Gathered(edges, OutputIds(result))
  {
    if result != [] {
      var front := result[..|result| - 1];
      assert forall i :: 0 <= i < |front| ==> front[i] == result[i];
      OutputsGather(front, edges);
      assert OutputIds(result)[..|result| - 1] == OutputIds(front);
    }
  }

  lemma {:induction false} Observed<O>(edges: seq<RawEdge<O>>, i: nat)
    requires i < |edges|
    ensures ObservationsWith(edges, IdentityOf(edges[i])) != []
  {
    if i < |edges| - 1 {
      Observed(edges[..|edges| - 1], i);
    }
  }

  lemma EveryIdentityIsOutput<O>(result: seq<Coalesced<O>>, edges: seq<RawEdge<O>>, i: nat)
    requires IsCoalesced(result, edges) && i < |edges|
    ensures IdentityOf(edges[i]) in OutputIds(result)
  {
    Observed(edges, i);
    assert HasOutput(result, IdentityOf(edges[i]));
    var k :| 0 <= k < |result| && IdentityOf(result[k].edge) == IdentityOf(edges[i]);
    assert OutputIds(result)[k] == IdentityOf(edges[i]);
  }

  lemma OutputIdsDistinct<O>(result: seq<Coalesced<O>>)
    requires forall i, j :: 0 <= i < j < |result| ==> IdentityOf(result[i].edge) != IdentityOf(result[j].edge)
    ensures Distinct(OutputIds(result))
  {
  }

  lemma EveryIdentityIn<O>(result: seq<Coalesced<O>>, edges: seq<RawEdge<O>>)
    requires IsCoalesced(result, edges)
    ensures forall i :: 0 <= i < |edges| ==> IdentityOf(edges[i]) in OutputIds(result)
  {
    forall i | 0 <= i < |edges| ensures IdentityOf(edges[i]) in OutputIds(result) { EveryIdentityIsOutput(result, edges, i); }
  }

  /** Main result: coalescing neither loses nor invents an observation. */
  lemma ObservationsAreConserved<O>(result: seq<Coalesced<O>>, edges: seq<RawEdge<O>>)
    requires IsCoalesced(result, edges)
    ensures OutputObservations(result) == multiset(AllObservations(edges))
  {
    EveryIdentityIn(result, edges);
    OutputIdsDistinct(result);
    OutputsGather(result, edges);
    GatheredAll(edges, OutputIds(result));
  }
}
