/** The assembled graph is closed, and the input caps bound its size. */
module LinkedGraphBounds {
  import opened Common
  import opened LinkedGraph
  import opened LinkedGraphFacts

  // ---------- closure ----------

  lemma RelationsResolve(p: Projection)
    requires ValidProjection(p)
    ensures var nodes := DocumentNodes(p);
            forall i, j :: 0 <= i < |p.events| && 0 <= j < |p.events[i].relations| ==>
              Resolve(nodes, p.events[i].relations[j].target) in nodes
  {
    DocumentNodesFacts(p);
    RelationTargetsFacts(p.events);
    var nodes, targets := DocumentNodes(p), RelationTargets(p.events);
    forall i, j | 0 <= i < |p.events| && 0 <= j < |p.events[i].relations|
      ensures Resolve(nodes, p.events[i].relations[j].target) in nodes
    {
      var target := p.events[i].relations[j].target;
      assert target in targets;
      var k :| 0 <= k < |targets| && targets[k] == target;
    }
  }

  lemma EndsInWider(edges: seq<EdgeKey>, nodes: seq<NodeId>, wider: seq<NodeId>)
    requires EndsIn(edges, nodes) && Within(nodes, wider)
    ensures EndsIn(edges, wider)
  {
  }

  lemma TimelineFacts(p: Projection, timeline: seq<Event>)
    requires ValidProjection(p) && IsTimeline(p, timeline)
    ensures EndsIn(Precedes(timeline), DocumentNodes(p)) && |Precedes(timeline)| == Max(0, |p.events| - 1)
  {
    DocumentNodesFacts(p);
    TimelineMembers(p, timeline);
    PrecedesEnds(p, timeline, DocumentNodes(p));
  }

  function StructurePart(p: Projection): seq<EdgeKey> {
    if p.current.Some? then StructureEdges(p.current.value) else []
  }

  lemma StructureFacts(p: Projection)
    requires ValidProjection(p)
    ensures EndsIn(StructurePart(p), DocumentNodes(p))
    ensures |StructurePart(p)| <= StructuralNodes(p) + StructuralReferences(p)
  {
    DocumentNodesFacts(p);
    if p.current.Some? {
      var c := p.current.value;
      var i :| 0 <= i < |p.events| && Ledger(p.events[i].id) == Ledger(c.eventId);
      EventInNodes(p, p.events[i]);
      StructureEnds(c, DocumentNodes(p));
    }
  }

  lemma RelationFacts(p: Projection)
    requires ValidProjection(p)
    ensures EndsIn(RelationEdges(DocumentNodes(p), p.events), DocumentNodes(p))
    ensures |RelationEdges(DocumentNodes(p), p.events)| == CountRelations(p.events)
  {
    DocumentNodesFacts(p);
    RelationsResolve(p);
    forall i | 0 <= i < |p.events| ensures Ledger(p.events[i].id) in DocumentNodes(p) {
      EventInNodes(p, p.events[i]);
    }
    RelationEnds(DocumentNodes(p), p.events);
  }

  lemma AboutFacts(p: Projection, t: Terms)
    requires ValidProjection(p) && ValidTerms(t)
    ensures Within(DocumentNodes(p), Nodes(p, t))
    ensures EndsIn(AboutEdges(DocumentNodes(p), t), Nodes(p, t))
    ensures |AboutEdges(DocumentNodes(p), t)| <= MAX_ABOUT_EDGES_PER_NODE * CountDocuments(DocumentNodes(p))
  {
    ConceptNodesFacts(t.concepts);
    AboutEnds(DocumentNodes(p), t, Nodes(p, t));
  }

  /** Main result: every edge ever inserted leads from a node to a node. */
  lemma GraphIsClosed(p: Projection, timeline: seq<Event>, t: Terms)
    requires ValidProjection(p) && IsTimeline(p, timeline) && ValidTerms(t)
    ensures EndsIn(Attempts(p, timeline, t), Nodes(p, t))
  {
    var documents, nodes := DocumentNodes(p), Nodes(p, t);
    TimelineFacts(p, timeline);
    StructureFacts(p);
    RelationFacts(p);
    AboutFacts(p, t);
    EndsInAppend(Precedes(timeline), StructurePart(p), documents);
    EndsInAppend(Precedes(timeline) + StructurePart(p), RelationEdges(documents, p.events), documents);
    EndsInWider(Precedes(timeline) + StructurePart(p) + RelationEdges(documents, p.events), documents, nodes);
    EndsInAppend(Precedes(timeline) + StructurePart(p) + RelationEdges(documents, p.events), AboutEdges(documents, t), nodes);
  }

  // ---------- how many nodes carry concepts ----------

  lemma {:induction false} CountOfPrefix(shorter: seq<NodeId>, longer: seq<NodeId>)
    requires shorter <= longer
    ensures CountDocuments(longer) <= CountDocuments(shorter) + |longer| - |shorter|
    decreases |longer|
  {
    if |shorter| == |longer| {
      assert shorter == longer;
    } else {
      CountOfPrefix(shorter, longer[..|longer| - 1]);
    }
  }

  lemma {:induction false} DirectoriesDoNotCount(nodes: seq<NodeId>, directories: seq<string>)
    ensures CountDocuments(nodes + DirectoryNodes(directories)) == CountDocuments(nodes)
  {
    var all := nodes + DirectoryNodes(directories);
    if directories == [] {
      assert all == nodes;
    } else {
      var shorter := directories[..|directories| - 1];
      DirectoriesDoNotCount(nodes, shorter);
      assert all[..|all| - 1] == nodes + DirectoryNodes(shorter);
    }
  }

  lemma {:induction false} ReferencesExtend(nodes: seq<NodeId>, paths: set<string>, references: seq<FileReference>)
    ensures nodes <= AddReferenceNodes(nodes, paths, references)
  {
    if references != [] { ReferencesExtend(nodes, paths, references[..|references| - 1]); }
  }

  lemma {:induction false} FilesExtend(nodes: seq<NodeId>, paths: set<string>, files: seq<ProjectFile>)
    ensures nodes <= AddFileNodes(nodes, paths, files)
  {
    if files != [] {
      var last := files[|files| - 1];
      FilesExtend(nodes, paths, files[..|files| - 1]);
      ReferencesExtend(AddFileNodes(nodes, paths, files[..|files| - 1]) + [File(last.path)], paths, last.references);
    }
  }

  lemma {:induction false} RelationsExtend(nodes: seq<NodeId>, targets: seq<NodeId>)
    ensures nodes <= AddRelationNodes(nodes, targets)
  {
    if targets != [] { RelationsExtend(nodes, targets[..|targets| - 1]); }
  }

  lemma StructuredDocuments(p: Projection)
    requires ValidProjection(p)
    ensures |StructuredNodes(p)| <= |p.events| + StructuralNodes(p) + StructuralReferences(p)
    ensures CountDocuments(StructuredNodes(p)) <= |p.events| + StructuralNodes(p) - Directories(p) + StructuralReferences(p)
  {
    var events := EventNodes(p.events);
    CountOfPrefix([], events);
    if p.current.Some? {
      var s := p.current.value.structure;
      var w := if s.worktree.Some? then [Worktree(s.worktree.value)] else [];
      var start := events + w + DirectoryNodes(s.directories);
      StructureNodesFacts(p.events, p.current.value);
      assert events <= events + w;
      CountOfPrefix(events, events + w);
      DirectoriesDoNotCount(events + w, s.directories);
      FilesExtend(start, FilePaths(s.files), s.files);
      CountOfPrefix(start, StructuredNodes(p));
    }
  }

  lemma DocumentsAreBounded(p: Projection)
    requires ValidProjection(p)
    ensures |DocumentNodes(p)| <= |p.events| + StructuralNodes(p) + StructuralReferences(p) + CountRelations(p.events)
    ensures CountDocuments(DocumentNodes(p))
         <= |p.events| + StructuralNodes(p) - Directories(p) + StructuralReferences(p) + CountRelations(p.events)
  {
    DocumentNodesFacts(p);
    StructuredDocuments(p);
    RelationTargetsFacts(p.events);
    RelationsExtend(StructuredNodes(p), RelationTargets(p.events));
    assert DocumentNodes(p) == AddRelationNodes(StructuredNodes(p), RelationTargets(p.events));
    CountOfPrefix(StructuredNodes(p), DocumentNodes(p));
  }

  // ---------- the declared budget ----------

  function Directories(p: Projection): nat { if p.current.Some? then |p.current.value.structure.directories| else 0 }

  function Files(p: Projection): nat { if p.current.Some? then |p.current.value.structure.files| else 0 }

  function Worktrees(p: Projection): nat {
    if p.current.Some? && p.current.value.structure.worktree.Some? then 1 else 0
  }

  function StructuralNodes(p: Projection): nat { Directories(p) + Files(p) + Worktrees(p) }

  function StructuralReferences(p: Projection): nat {
    if p.current.Some? then CountReferences(p.current.value.structure.files) else 0
  }

  function NodeUpperBound(p: Projection): int {
    |p.events| + CountRelations(p.events) + StructuralReferences(p) + StructuralNodes(p) + MAX_CONCEPTS
  }

  function EdgeUpperBound(p: Projection): int {
    CountRelations(p.events) + Max(0, |p.events| - 1) + StructuralNodes(p) + StructuralReferences(p)
    + MAX_ABOUT_EDGES_PER_NODE * (|p.events| + CountRelations(p.events) + StructuralReferences(p) + Files(p))
  }

  /** Main result: the error for exceeding the declared budget cannot arise. */
  lemma LimitIsUnreachable(p: Projection)
    requires ValidProjection(p)
    ensures NodeUpperBound(p) <= 65_065 <= MAX_GRAPH_NODES
    ensures EdgeUpperBound(p) <= 395_000 <= MAX_GRAPH_EDGES
  {
  }

  lemma NodesWithinBound(p: Projection, t: Terms)
    requires ValidProjection(p) && ValidTerms(t)
    ensures |Nodes(p, t)| <= NodeUpperBound(p)
  {
    DocumentsAreBounded(p);
    ConceptNodesFacts(t.concepts);
  }

  /** The declared edge bound forgets the concepts of the worktree node, and nothing else. */
  lemma EdgesWithinBound(p: Projection, timeline: seq<Event>, t: Terms)
    requires ValidProjection(p) && IsTimeline(p, timeline) && ValidTerms(t)
    ensures |Attempts(p, timeline, t)| <= EdgeUpperBound(p) + MAX_ABOUT_EDGES_PER_NODE * Worktrees(p)
  {
    TimelineFacts(p, timeline);
    StructureFacts(p);
    RelationFacts(p);
    AboutFacts(p, t);
    DocumentsAreBounded(p);
    assert Attempts(p, timeline, t)
        == Precedes(timeline) + StructurePart(p) + RelationEdges(DocumentNodes(p), p.events) + AboutEdges(DocumentNodes(p), t);
  }

  /** Main result: the absolute caps hold of every projected source. */
  lemma AbsoluteCaps(source: seq<Event>, timeline: seq<Event>, t: Terms)
    requires ValidEvents(source) && IsTimeline(Project(source), timeline) && ValidTerms(t)
    ensures |Nodes(Project(source), t)| <= 65_065 <= MAX_GRAPH_NODES
    ensures |Attempts(Project(source), timeline, t)| <= 395_006 <= MAX_GRAPH_EDGES
  {
    ProjectIsValid(source);
    var p := Project(source);
    LimitIsUnreachable(p);
    NodesWithinBound(p, t);
    EdgesWithinBound(p, timeline, t);
  }
}
