/** Exactly when the declared edge bound of src/linked-memory.js:381-382 holds; it forgets the worktree's own concepts. */
module LinkedGraphLocalBound {
  import opened Common
  import opened LinkedGraph
  import opened LinkedGraphBounds
  import opened LinkedGraphFacts
  import opened EdgeList
  import opened LinkedGraphMeaning

  const SIX := ["a", "b", "c", "d", "e", "f"]

  function SixTerms(): Terms { Terms(SIX, (id: NodeId) => SIX) }

  lemma {:induction false} AllConcepts(signature: seq<string>, concepts: seq<string>)
    requires forall x :: x in signature ==> x in concepts
    ensures ConceptTerms(signature, concepts) == signature
  {
    if signature != [] {
      var front, last := signature[..|signature| - 1], signature[|signature| - 1];
      assert signature == front + [last] && last in signature;
      AllConcepts(front, concepts);
    }
  }

  lemma {:induction false} AboutEdgesOfAt(id: NodeId, terms: seq<string>)
    ensures |AboutEdgesOf(id, terms)| == |terms|
    ensures forall i :: 0 <= i < |terms| ==> AboutEdgesOf(id, terms)[i] == EdgeKey(id, "about", Concept(terms[i]))
  {
    if terms != [] { AboutEdgesOfAt(id, terms[..|terms| - 1]); }
  }

  /** Every term of every signature is a concept, and no signature has more than six. */
  ghost predicate Conceptual(t: Terms) {
    forall id :: |t.signature(id)| <= MAX_ABOUT_EDGES_PER_NODE && forall x :: x in t.signature(id) ==> x in t.concepts
  }

  lemma AboutEdgesOfOne(nodes: seq<NodeId>, id: NodeId, t: Terms)
    requires Conceptual(t)
    ensures AboutEdges(nodes + [id], t) == AboutEdges(nodes, t) + if id.Directory? then [] else AboutEdgesOf(id, t.signature(id))
  {
    assert (nodes + [id])[..|nodes|] == nodes;
    var terms := t.signature(id);
    AllConcepts(terms, t.concepts);
    assert terms[..|terms|] == terms;
  }

  lemma SixDistinct()
    ensures |SIX| == 6 && Distinct(SIX)
  {
  }

  // ---------- exactly when the declared bound holds ----------

  /** Insertions that do not depend on any concept. */
  function Fixed(p: Projection, timeline: seq<Event>): seq<EdgeKey> {
    Precedes(timeline) + StructurePart(p) + RelationEdges(DocumentNodes(p), p.events)
  }

  lemma FixedSize(p: Projection, timeline: seq<Event>)
    requires ValidProjection(p) && IsTimeline(p, timeline)
    ensures |Fixed(p, timeline)| == Max(0, |p.events| - 1) + |StructurePart(p)| + CountRelations(p.events)
    ensures EndsIn(Fixed(p, timeline), DocumentNodes(p))
  {
    TimelineFacts(p, timeline);
    StructureFacts(p);
    RelationFacts(p);
    EndsInAppend(Precedes(timeline), StructurePart(p), DocumentNodes(p));
    EndsInAppend(Precedes(timeline) + StructurePart(p), RelationEdges(DocumentNodes(p), p.events), DocumentNodes(p));
  }

  lemma SixTermsAreConceptual()
    ensures ValidTerms(SixTerms()) && Conceptual(SixTerms())
  {
    SixDistinct();
  }

  /** Six concepts for every document reach the most there can be. */
  lemma {:induction false} SixEach(nodes: seq<NodeId>)
    ensures |AboutEdges(nodes, SixTerms())| == MAX_ABOUT_EDGES_PER_NODE * CountDocuments(nodes)
  {
    if nodes != [] {
      var front, last := nodes[..|nodes| - 1], nodes[|nodes| - 1];
      SixEach(front);
      SixTermsAreConceptual();
      AboutEdgesOfOne(front, last, SixTerms());
      AboutEdgesOfAt(last, SIX);
      assert nodes == front + [last];
    }
  }

  /** The most insertions any concepts can lead to. */
  function MostInsertions(p: Projection): nat {
    Max(0, |p.events| - 1) + |StructurePart(p)| + CountRelations(p.events)
    + MAX_ABOUT_EDGES_PER_NODE * CountDocuments(DocumentNodes(p))
  }

  /** Main result: the declared bound holds of the insertions, whatever the concepts, exactly when this sum is within it. */
  lemma InsertionsWithinExactlyWhen(p: Projection, timeline: seq<Event>)
    requires ValidProjection(p) && IsTimeline(p, timeline)
    ensures (forall t :: ValidTerms(t) ==> |Attempts(p, timeline, t)| <= EdgeUpperBound(p)) <==> MostInsertions(p) <= EdgeUpperBound(p)
  {
    FixedSize(p, timeline);
    forall t | ValidTerms(t) ensures |Attempts(p, timeline, t)| <= MostInsertions(p) {
      AboutFacts(p, t);
      assert Attempts(p, timeline, t) == Fixed(p, timeline) + AboutEdges(DocumentNodes(p), t);
    }
    SixTermsAreConceptual();
    SixEach(DocumentNodes(p));
    assert Attempts(p, timeline, SixTerms()) == Fixed(p, timeline) + AboutEdges(DocumentNodes(p), SixTerms());
  }

  // ---------- the same for the deduplicated list ----------

  /** The keys that end up in the edge list. */
  ghost function Keys(attempts: seq<EdgeKey>): set<EdgeKey> { set k | k in attempts && !SelfLoop(k) }

  lemma KeysAppend(a: seq<EdgeKey>, b: seq<EdgeKey>)
    ensures Keys(a + b) == Keys(a) + Keys(b)
  {
  }

  lemma {:induction false} KeysAtMost(attempts: seq<EdgeKey>)
    ensures |Keys(attempts)| <= |attempts|
  {
    if attempts != [] {
      var front, last := attempts[..|attempts| - 1], attempts[|attempts| - 1];
      KeysAtMost(front);
      assert attempts == front + [last];
      KeysAppend(front, [last]);
      assert Keys([last]) <= {last};
      SmallUnion(Keys(front), Keys([last]), last);
    }
  }

  lemma SmallUnion(a: set<EdgeKey>, b: set<EdgeKey>, k: EdgeKey)
    requires b <= {k}
    ensures |a + b| <= |a| + 1
  {
    assert a + b <= a + {k};
    SubsetSize(a + b, a + {k});
  }

  lemma {:induction false} NonSelfKeys(attempts: seq<EdgeKey>, k: EdgeKey)
    ensures k in NonSelf(attempts) <==> k in Keys(attempts)
  {
    if attempts != [] {
      var front, last := attempts[..|attempts| - 1], attempts[|attempts| - 1];
      NonSelfKeys(front, k);
      assert attempts == front + [last];
    }
  }

  lemma {:induction false} KeySetSize(edges: seq<Edge>)
    requires DistinctKeys(edges)
    ensures |set i | 0 <= i < |edges| :: edges[i].key| == |edges|
  {
    var all := set i | 0 <= i < |edges| :: edges[i].key;
    if edges == [] {
      assert all == {};
    } else {
      var front, last := edges[..|edges| - 1], edges[|edges| - 1];
      assert forall i :: 0 <= i < |front| ==> front[i] == edges[i];
      KeySetSize(front);
      var before := set i | 0 <= i < |front| :: front[i].key;
      assert last.key !in before;
      assert all == before + {last.key};
    }
  }

  /** The list has one edge for each key. */
  lemma OneEdgePerKey(edges: seq<Edge>, attempts: seq<EdgeKey>)
    requires Represents(edges, attempts)
    ensures |edges| == |Keys(attempts)|
  {
    var all := set i | 0 <= i < |edges| :: edges[i].key;
    forall k ensures k in all <==> k in Keys(attempts) {
      NonSelfKeys(attempts, k);
      assert k in Keys(attempts) <==> Multiplicity(attempts, k) > 0;
      if k in Keys(attempts) {
        var i :| 0 <= i < |edges| && edges[i].key == k;
      }
    }
    assert all == Keys(attempts);
    KeySetSize(edges);
  }

  /** Every list of insertions leaves some edge list behind. */
  lemma {:induction false} SomeEdgeList(attempts: seq<EdgeKey>) returns (edges: seq<Edge>)
    ensures Represents(edges, attempts)
  {
    if attempts == [] {
      edges := [];
    } else {
      var front, last := attempts[..|attempts| - 1], attempts[|attempts| - 1];
      var before := SomeEdgeList(front);
      assert attempts == front + [last];
      if SelfLoop(last) {
        Unchanged(before, front, last);
        edges := before;
      } else if HasKey(before, last) {
        var at :| 0 <= at < |before| && before[at].key == last;
        Counted(before, front, last, at);
        edges := before[at := Edge(last, before[at].occurrences + 1)];
      } else {
        Inserted(before, front, last);
        edges := before + [Edge(last, 1)];
      }
    }
  }

  lemma {:induction false} AboutSources(nodes: seq<NodeId>, t: Terms, k: EdgeKey)
    requires k in AboutEdges(nodes, t)
    ensures k.source in nodes && k.target.Concept?
  {
    AboutMeans(nodes, t, k);
  }

  lemma {:induction false} AboutKeys(id: NodeId, terms: seq<string>)
    requires !id.Concept? && Distinct(terms)
    ensures |Keys(AboutEdgesOf(id, terms))| == |terms|
  {
    if terms != [] {
      var front, last := terms[..|terms| - 1], terms[|terms| - 1];
      var k := EdgeKey(id, "about", Concept(last));
      AboutKeys(id, front);
      AboutOfMeans(id, front, k);
      KeysAppend(AboutEdgesOf(id, front), [k]);
      assert Keys([k]) == {k};
    }
  }

  lemma DisjointSizes(a: set<EdgeKey>, b: set<EdgeKey>)
    requires a !! b
    ensures |a + b| == |a| + |b|
  {
  }

  /** A further document's concept edges are new. */
  lemma MoreKeys(nodes: seq<NodeId>, id: NodeId, t: Terms)
    requires id !in nodes
    ensures Keys(AboutEdges(nodes, t)) !! Keys(AboutEdgesOf(id, SIX))
  {
    forall k | k in AboutEdges(nodes, t) ensures k !in AboutEdgesOf(id, SIX) {
      AboutSources(nodes, t, k);
      AboutOfMeans(id, SIX, k);
    }
  }

  lemma {:induction false} SixKeysEach(nodes: seq<NodeId>)
    requires Distinct(nodes) && forall id :: id in nodes ==> !id.Concept?
    ensures |Keys(AboutEdges(nodes, SixTerms()))| == MAX_ABOUT_EDGES_PER_NODE * CountDocuments(nodes)
  {
    if nodes != [] {
      var front, last := nodes[..|nodes| - 1], nodes[|nodes| - 1];
      var before, more := AboutEdges(front, SixTerms()), AboutEdgesOf(last, SIX);
      assert nodes == front + [last] && last in nodes && last !in front;
      SixKeysEach(front);
      SixTermsAreConceptual();
      SixDistinct();
      AboutEdgesOfOne(front, last, SixTerms());
      if last.Directory? {
        assert before + [] == before;
      } else {
        KeysAppend(before, more);
        AboutKeys(last, SIX);
        MoreKeys(front, last, SixTerms());
        DisjointSizes(Keys(before), Keys(more));
      }
    }
  }

  /** The most edges any concepts can lead to: the distinct fixed ones, and six for each document. */
  ghost function MostEdges(p: Projection, timeline: seq<Event>): nat {
    |Keys(Fixed(p, timeline))| + MAX_ABOUT_EDGES_PER_NODE * CountDocuments(DocumentNodes(p))
  }

  lemma NoConceptDocuments(p: Projection)
    requires ValidProjection(p)
    ensures Distinct(DocumentNodes(p)) && forall id :: id in DocumentNodes(p) ==> !id.Concept?
  {
    DocumentNodesFacts(p);
  }

  lemma EdgesAtMost(p: Projection, timeline: seq<Event>, t: Terms, edges: seq<Edge>)
    requires ValidProjection(p) && ValidTerms(t) && Represents(edges, Attempts(p, timeline, t))
    ensures |edges| <= MostEdges(p, timeline)
  {
    var about := AboutEdges(DocumentNodes(p), t);
    AboutFacts(p, t);
    OneEdgePerKey(edges, Attempts(p, timeline, t));
    assert Attempts(p, timeline, t) == Fixed(p, timeline) + about;
    KeysAppend(Fixed(p, timeline), about);
    KeysAtMost(about);
  }

  lemma MostEdgesReached(p: Projection, timeline: seq<Event>, edges: seq<Edge>)
    requires ValidProjection(p) && IsTimeline(p, timeline) && Represents(edges, Attempts(p, timeline, SixTerms()))
    ensures |edges| == MostEdges(p, timeline)
  {
    var fixed, about := Fixed(p, timeline), AboutEdges(DocumentNodes(p), SixTerms());
    FixedSize(p, timeline);
    NoConceptDocuments(p);
    OneEdgePerKey(edges, Attempts(p, timeline, SixTerms()));
    assert Attempts(p, timeline, SixTerms()) == fixed + about;
    KeysAppend(fixed, about);
    SixKeysEach(DocumentNodes(p));
    forall k | k in about ensures k !in fixed {
      AboutSources(DocumentNodes(p), SixTerms(), k);
    }
  }

  /** Main result: likewise for the edges left after deduplication. */
  lemma EdgesWithinExactlyWhen(p: Projection, timeline: seq<Event>)
    requires ValidProjection(p) && IsTimeline(p, timeline)
    ensures (forall t, edges :: ValidTerms(t) && Represents(edges, Attempts(p, timeline, t)) ==> |edges| <= EdgeUpperBound(p))
       <==> MostEdges(p, timeline) <= EdgeUpperBound(p)
  {
    forall t, edges | ValidTerms(t) && Represents(edges, Attempts(p, timeline, t)) ensures |edges| <= MostEdges(p, timeline) {
      EdgesAtMost(p, timeline, t, edges);
    }
    SixTermsAreConceptual();
    var edges := SomeEdgeList(Attempts(p, timeline, SixTerms()));
    MostEdgesReached(p, timeline, edges);
  }

  /** Without a worktree the condition is met. */
  lemma BoundHoldsWithoutWorktree(p: Projection, timeline: seq<Event>)
    requires ValidProjection(p) && IsTimeline(p, timeline) && Worktrees(p) == 0
    ensures MostEdges(p, timeline) <= MostInsertions(p) <= EdgeUpperBound(p)
  {
    FixedSize(p, timeline);
    KeysAtMost(Fixed(p, timeline));
    StructureFacts(p);
    DocumentsAreBounded(p);
  }

  // ---------- a project that exceeds it ----------

  function OneEvent(): Projection {
    var s := Structure(["."], [], Some("w"));
    Projection([Event("e", 0, [], Some(s))], Some(Current("e", s)))
  }

  lemma OneEventNodes()
    ensures DocumentNodes(OneEvent()) == [Ledger("e"), Worktree("w"), Directory(".")]
  {
    var events := [Event("e", 0, [], Some(Structure(["."], [], Some("w"))))];
    assert EventNodes(events) == [Ledger("e")];
    assert DirectoryNodes(["."]) == [Directory(".")];
    assert RelationTargets(events) == [] by {
      assert events[..0] == [];
      assert TargetsIn([]) == [];
    }
  }

  lemma RootOnly(c: Current)
    requires c.structure.directories == ["."] && c.structure.files == []
    ensures StructureEdges(c) == RootEdges(c)
  {
    var d := c.structure.directories;
    assert d[..|d| - 1] == [];
    assert DirectoryEdges(d, []) == [];
    assert DirectoryEdges(d, d) == [];
  }

  lemma NoRelations(nodes: seq<NodeId>, events: seq<Event>)
    requires |events| == 1 && events[0].relations == []
    ensures RelationEdges(nodes, events) == []
  {
    assert events[..0] == [];
  }

  lemma OneEventIsValid()
    ensures ValidProjection(OneEvent()) && IsTimeline(OneEvent(), OneEvent().events) && ValidTerms(SixTerms())
    ensures EdgeUpperBound(OneEvent()) == 8
  {
    var p := OneEvent();
    assert Ledger(p.events[0].id) == Ledger(p.current.value.eventId);
    assert p.events[1..] == [];
  }

  lemma TwoKeys(a: EdgeKey, b: EdgeKey)
    requires a != b && !SelfLoop(a) && !SelfLoop(b)
    ensures |Keys([a, b])| == 2
  {
    assert Keys([a, b]) == {a, b};
  }

  lemma RootKeys(c: Current)
    requires "." in c.structure.directories && c.structure.worktree.Some?
    ensures |Keys(RootEdges(c))| == 2
  {
    var contains := EdgeKey(Worktree(c.structure.worktree.value), "contains", Directory("."));
    var produced := EdgeKey(Ledger(c.eventId), "produced", Directory("."));
    assert RootEdges(c) == [contains, produced];
    TwoKeys(contains, produced);
  }

  lemma OneEventFixed(p: Projection, c: Current)
    requires |p.events| == 1 && p.events[0].relations == [] && p.current == Some(c)
    requires c.structure.directories == ["."] && c.structure.files == []
    ensures Fixed(p, p.events) == RootEdges(c)
  {
    RootOnly(c);
    NoRelations(DocumentNodes(p), p.events);
    assert Precedes(p.events) == [];
    Middle(RootEdges(c));
  }

  lemma Middle<T>(a: seq<T>)
    ensures [] + a + [] == a
  {
  }

  lemma TwoDocuments(nodes: seq<NodeId>)
    requires |nodes| == 3 && !nodes[0].Directory? && !nodes[1].Directory? && nodes[2].Directory?
    ensures CountDocuments(nodes) == 2
  {
    assert nodes[..2][..1] == nodes[..1] && nodes[..1][..0] == [];
    assert CountDocuments(nodes[..1]) == 1 && CountDocuments(nodes[..2]) == 2;
  }

  /** The declared bound is exceeded by six: a project of one event, a root directory and a worktree. */
  lemma BoundCanBeExceeded(edges: seq<Edge>)
    requires Represents(edges, Attempts(OneEvent(), OneEvent().events, SixTerms()))
    ensures ValidProjection(OneEvent()) && IsTimeline(OneEvent(), OneEvent().events) && ValidTerms(SixTerms())
    ensures EdgeUpperBound(OneEvent()) == 8 && |edges| == 14
  {
    OneEventIsValid();
    OneEventNodes();
    TwoDocuments(DocumentNodes(OneEvent()));
    OneEventFixed(OneEvent(), OneEvent().current.value);
    RootKeys(OneEvent().current.value);
    MostEdgesReached(OneEvent(), OneEvent().events, edges);
  }
}
