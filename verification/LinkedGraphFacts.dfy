/** Facts about every assembled graph: distinct nodes, no dangling edges, absolute size caps. */
module LinkedGraphFacts {
  import opened Common
  import opened LinkedGraph

  ghost predicate Within(a: seq<NodeId>, b: seq<NodeId>) { forall x :: x in a ==> x in b }

  lemma DistinctAppend(a: seq<NodeId>, b: seq<NodeId>)
    requires Distinct(a) && Distinct(b) && forall x :: x in a ==> x !in b
    ensures Distinct(a + b)
  {
    var c := a + b;
    forall i, j | 0 <= i < j < |c| ensures c[i] != c[j] {
      if i < |a| && j >= |a| {
        assert c[i] in a && c[j] in b;
      }
    }
  }

  lemma DistinctSnoc<T>(a: seq<T>, x: T)
    requires Distinct(a) && x !in a
    ensures Distinct(a + [x])
  {
  }

  // ---------- how each phase grows the node list ----------

  lemma {:induction false} ReferenceNodesGrow(nodes: seq<NodeId>, paths: set<string>, references: seq<FileReference>)
    ensures var after := AddReferenceNodes(nodes, paths, references);
            && Within(nodes, after) && |nodes| <= |after| <= |nodes| + |references|
            && (Distinct(nodes) ==> Distinct(after))
            && (forall x :: x in after ==> x in nodes || x.Reference?)
            && (forall i :: 0 <= i < |references| ==> TargetOf(paths, references[i]).File? || TargetOf(paths, references[i]) in after)
  {
    if references != [] {
      var shorter := references[..|references| - 1];
      ReferenceNodesGrow(nodes, paths, shorter);
      var before := AddReferenceNodes(nodes, paths, shorter);
      var id := TargetOf(paths, references[|references| - 1]);
      if !id.File? && id !in before { DistinctIf(before, id); }
      forall i | 0 <= i < |references| ensures TargetOf(paths, references[i]).File? || TargetOf(paths, references[i]) in AddReferenceNodes(nodes, paths, references) {
        if i < |shorter| { assert shorter[i] == references[i]; }
      }
    }
  }

  lemma DistinctIf<T>(a: seq<T>, x: T)
    requires x !in a
    ensures Distinct(a) ==> Distinct(a + [x])
  {
  }

  lemma PathsSnoc(files: seq<ProjectFile>)
    requires files != []
    ensures FilePaths(files) == FilePaths(files[..|files| - 1]) + {files[|files| - 1].path}
  {
    var before := files[..|files| - 1];
    forall x | x in FilePaths(before) ensures x in FilePaths(files) {
      var i :| 0 <= i < |before| && before[i].path == x;
      assert files[i].path == x;
    }
    assert files[|files| - 1].path in FilePaths(files);
    forall x | x in FilePaths(files) ensures x in FilePaths(before) + {files[|files| - 1].path} {
      var i :| 0 <= i < |files| && files[i].path == x;
      if i < |before| { assert before[i].path == x; }
    }
  }

  lemma {:induction false} CountReferencesSnoc(files: seq<ProjectFile>)
    requires files != []
    ensures CountReferences(files) == CountReferences(files[..|files| - 1]) + |files[|files| - 1].references|
  {
    if |files| > 1 {
      CountReferencesSnoc(files[1..]);
      assert files[1..][..|files| - 2] == files[..|files| - 1][1..];
    }
  }

  ghost predicate FilesAdded(nodes: seq<NodeId>, after: seq<NodeId>, paths: set<string>, files: seq<ProjectFile>) {
    && Within(nodes, after) && |after| <= |nodes| + |files| + CountReferences(files)
    && Distinct(after)
    && (forall x :: x in after ==> x in nodes || x.Reference? || (x.File? && x.path in FilePaths(files)))
    && (forall i :: 0 <= i < |files| ==> File(files[i].path) in after)
    && (forall i, j :: 0 <= i < |files| && 0 <= j < |files[i].references| ==>
          TargetOf(paths, files[i].references[j]).File? || TargetOf(paths, files[i].references[j]) in after)
  }

  lemma OneFileAdded(nodes: seq<NodeId>, before: seq<NodeId>, paths: set<string>, files: seq<ProjectFile>)
    requires files != [] && FilesAdded(nodes, before, paths, files[..|files| - 1])
    requires forall x :: x in nodes ==> !x.File?
    requires files[|files| - 1].path !in FilePaths(files[..|files| - 1])
    ensures FilesAdded(nodes, AddReferenceNodes(before + [File(files[|files| - 1].path)], paths, files[|files| - 1].references), paths, files)
  {
    var shorter, last := files[..|files| - 1], files[|files| - 1];
    DistinctSnoc(before, File(last.path));
    ReferenceNodesGrow(before + [File(last.path)], paths, last.references);
    CountReferencesSnoc(files);
    PathsSnoc(files);
    var after := AddReferenceNodes(before + [File(last.path)], paths, last.references);
    assert File(last.path) in before + [File(last.path)];
    forall i | 0 <= i < |files| ensures File(files[i].path) in after {
      if i < |shorter| { assert shorter[i] == files[i]; }
    }
    forall i, j | 0 <= i < |files| && 0 <= j < |files[i].references|
      ensures TargetOf(paths, files[i].references[j]).File? || TargetOf(paths, files[i].references[j]) in after
    {
      if i < |shorter| { assert shorter[i] == files[i]; }
    }
  }

  lemma {:induction false} FileNodesGrow(nodes: seq<NodeId>, paths: set<string>, files: seq<ProjectFile>)
    requires Distinct(nodes) && (forall x :: x in nodes ==> !x.File?)
    requires forall i, j :: 0 <= i < j < |files| ==> files[i].path != files[j].path
    ensures FilesAdded(nodes, AddFileNodes(nodes, paths, files), paths, files)
  {
    if files != [] {
      var shorter := files[..|files| - 1];
      FileNodesGrow(nodes, paths, shorter);
      assert forall i :: 0 <= i < |shorter| ==> shorter[i] == files[i];
      OneFileAdded(nodes, AddFileNodes(nodes, paths, shorter), paths, files);
    }
  }

  lemma {:induction false} RelationNodesGrow(nodes: seq<NodeId>, targets: seq<NodeId>)
    ensures var after := AddRelationNodes(nodes, targets);
            && Within(nodes, after) && |nodes| <= |after| <= |nodes| + |targets|
            && (Distinct(nodes) ==> Distinct(after))
            && (forall x :: x in after ==> x in nodes || x.RelationReference?)
            && (forall i :: 0 <= i < |targets| ==> targets[i] in after || RelationReference(targets[i]) in after)
  {
    if targets != [] {
      var shorter := targets[..|targets| - 1];
      RelationNodesGrow(nodes, shorter);
      var before := AddRelationNodes(nodes, shorter);
      var id := RelationReference(targets[|targets| - 1]);
      if id !in before { DistinctIf(before, id); }
      var after := AddRelationNodes(nodes, targets);
      forall i | 0 <= i < |targets| ensures targets[i] in after || RelationReference(targets[i]) in after {
        if i < |shorter| { assert shorter[i] == targets[i]; }
      }
    }
  }

  lemma {:induction false} CountRelationsSnoc(events: seq<Event>)
    requires events != []
    ensures CountRelations(events) == CountRelations(events[..|events| - 1]) + |events[|events| - 1].relations|
  {
    if |events| > 1 {
      CountRelationsSnoc(events[1..]);
      assert events[1..][..|events| - 2] == events[..|events| - 1][1..];
    }
  }

  lemma {:induction false} RelationTargetsFacts(events: seq<Event>)
    ensures |RelationTargets(events)| == CountRelations(events)
    ensures forall i, j :: 0 <= i < |events| && 0 <= j < |events[i].relations| ==> events[i].relations[j].target in RelationTargets(events)
  {
    if events != [] {
      var shorter, last := events[..|events| - 1], events[|events| - 1];
      RelationTargetsFacts(shorter);
      CountRelationsSnoc(events);
      forall i, j | 0 <= i < |events| && 0 <= j < |events[i].relations| ensures events[i].relations[j].target in RelationTargets(events) {
        if i < |shorter| {
          assert shorter[i] == events[i];
        } else {
          assert TargetsIn(last.relations)[j] in TargetsIn(last.relations);
        }
      }
    }
  }

  // ---------- the node list ----------

  function StructuredNodes(p: Projection): seq<NodeId> {
    if p.current.Some? then StructureNodes(EventNodes(p.events), p.current.value.structure) else EventNodes(p.events)
  }

  function Fixed(s: Structure): seq<NodeId> {
    (if s.worktree.Some? then [Worktree(s.worktree.value)] else []) + DirectoryNodes(s.directories)
  }

  lemma EventNodesDistinct(events: seq<Event>)
    requires UniqueIds(events)
    ensures Distinct(EventNodes(events)) && forall x :: x in EventNodes(events) ==> x.Ledger?
  {
  }

  lemma FixedNodes(s: Structure)
    requires Distinct(s.directories)
    ensures Distinct(Fixed(s)) && |Fixed(s)| == |s.directories| + (if s.worktree.Some? then 1 else 0)
    ensures forall x :: x in Fixed(s) ==> x.Worktree? || x.Directory?
    ensures forall d :: d in s.directories ==> Directory(d) in Fixed(s)
  {
    var dirs := DirectoryNodes(s.directories);
    var w := if s.worktree.Some? then [Worktree(s.worktree.value)] else [];
    assert forall x :: x in dirs ==> x.Directory?;
    DistinctAppend(w, dirs);
    forall d | d in s.directories ensures Directory(d) in Fixed(s) {
      var i :| 0 <= i < |s.directories| && s.directories[i] == d;
      assert dirs[i] == Directory(d);
    }
  }

  ghost predicate StructureCovered(nodes: seq<NodeId>, c: Current) {
    && (forall d :: d in c.structure.directories ==> Directory(d) in nodes)
    && (c.structure.worktree.Some? ==> Worktree(c.structure.worktree.value) in nodes)
    && (forall i :: 0 <= i < |c.structure.files| ==> File(c.structure.files[i].path) in nodes)
    && (forall i, j :: 0 <= i < |c.structure.files| && 0 <= j < |c.structure.files[i].references| ==>
          TargetOf(FilePaths(c.structure.files), c.structure.files[i].references[j]) in nodes)
  }

  lemma StructureNodesFacts(events: seq<Event>, c: Current)
    requires UniqueIds(events) && ValidStructure(c.structure)
    ensures var nodes := StructureNodes(EventNodes(events), c.structure);
            && Distinct(nodes) && Within(EventNodes(events), nodes) && StructureCovered(nodes, c)
            && (forall x :: x in nodes ==> !x.RelationReference? && !x.Concept?)
            && |nodes| <= |events| + |c.structure.directories| + (if c.structure.worktree.Some? then 1 else 0) + |c.structure.files| + CountReferences(c.structure.files)
  {
    var s := c.structure;
    EventNodesDistinct(events);
    FixedNodes(s);
    DistinctAppend(EventNodes(events), Fixed(s));
    var start := EventNodes(events) + Fixed(s);
    assert start == EventNodes(events) + (if s.worktree.Some? then [Worktree(s.worktree.value)] else []) + DirectoryNodes(s.directories);
    FileNodesGrow(start, FilePaths(s.files), s.files);
    FilesCovered(start, StructureNodes(EventNodes(events), s), s.files);
    if s.worktree.Some? { assert Fixed(s)[0] == Worktree(s.worktree.value); }
  }

  lemma FilesCovered(nodes: seq<NodeId>, after: seq<NodeId>, files: seq<ProjectFile>)
    requires FilesAdded(nodes, after, FilePaths(files), files)
    ensures forall i, j :: 0 <= i < |files| && 0 <= j < |files[i].references| ==> TargetOf(FilePaths(files), files[i].references[j]) in after
  {
    forall i, j | 0 <= i < |files| && 0 <= j < |files[i].references| ensures TargetOf(FilePaths(files), files[i].references[j]) in after {
      var r := files[i].references[j];
      if TargetOf(FilePaths(files), r).File? {
        var k :| 0 <= k < |files| && files[k].path == r.target.value;
        assert File(files[k].path) in after;
      }
    }
  }

  lemma {:induction false} ConceptNodesFacts(concepts: seq<string>)
    requires Distinct(concepts)
    ensures Distinct(ConceptNodes(concepts)) && |ConceptNodes(concepts)| == |concepts|
    ensures forall x :: x in ConceptNodes(concepts) ==> x.Concept?
    ensures forall c :: c in concepts ==> Concept(c) in ConceptNodes(concepts)
  {
    forall c | c in concepts ensures Concept(c) in ConceptNodes(concepts) {
      var i :| 0 <= i < |concepts| && concepts[i] == c;
      assert ConceptNodes(concepts)[i] == Concept(c);
    }
  }

  /** All document nodes are distinct, no concept is among them, and every relation has its target. */
  lemma DocumentNodesFacts(p: Projection)
    requires ValidProjection(p)
    ensures var nodes := DocumentNodes(p);
            && Distinct(nodes) && Within(EventNodes(p.events), nodes)
            && (p.current.Some? ==> StructureCovered(nodes, p.current.value))
            && (forall x :: x in nodes ==> !x.Concept?)
            && (forall i :: 0 <= i < |RelationTargets(p.events)| ==> Resolve(nodes, RelationTargets(p.events)[i]) in nodes)
            && |nodes| <= |StructuredNodes(p)| + CountRelations(p.events)
  {
    EventNodesDistinct(p.events);
    if p.current.Some? {
      StructureNodesFacts(p.events, p.current.value);
    }
    RelationTargetsFacts(p.events);
    RelationNodesGrow(StructuredNodes(p), RelationTargets(p.events));
    assert DocumentNodes(p) == AddRelationNodes(StructuredNodes(p), RelationTargets(p.events));
  }

  /** Main result: node identities are unique, so the collision errors are unreachable. */
  lemma NodesAreDistinct(p: Projection, t: Terms)
    requires ValidProjection(p) && ValidTerms(t)
    ensures Distinct(Nodes(p, t))
    ensures forall c :: c in t.concepts ==> Concept(c) !in DocumentNodes(p)
  {
    DocumentNodesFacts(p);
    ConceptNodesFacts(t.concepts);
    DistinctAppend(DocumentNodes(p), ConceptNodes(t.concepts));
  }

  // ---------- closure ----------

  ghost predicate EndsIn(edges: seq<EdgeKey>, nodes: seq<NodeId>) {
    forall i :: 0 <= i < |edges| ==> edges[i].source in nodes && edges[i].target in nodes
  }

  lemma EndsInAppend(a: seq<EdgeKey>, b: seq<EdgeKey>, nodes: seq<NodeId>)
    requires EndsIn(a, nodes) && EndsIn(b, nodes)
    ensures EndsIn(a + b, nodes)
  {
  }

  lemma EventInNodes(p: Projection, e: Event)
    requires e in p.events
    ensures Ledger(e.id) in EventNodes(p.events)
  {
    var i :| 0 <= i < |p.events| && p.events[i] == e;
    assert EventNodes(p.events)[i] == Ledger(e.id);
  }

  lemma {:induction false} PrecedesEnds(p: Projection, timeline: seq<Event>, nodes: seq<NodeId>)
    requires Within(EventNodes(p.events), nodes) && forall i :: 0 <= i < |timeline| ==> timeline[i] in p.events
    ensures EndsIn(Precedes(timeline), nodes) && |Precedes(timeline)| == Max(0, |timeline| - 1)
  {
    if |timeline| >= 2 {
      var n := |timeline|;
      PrecedesEnds(p, timeline[..n - 1], nodes);
      EventInNodes(p, timeline[n - 2]);
      EventInNodes(p, timeline[n - 1]);
    }
  }

  lemma {:induction false} DirectoryEnds(all: seq<string>, directories: seq<string>, nodes: seq<NodeId>)
    requires (forall d :: d in all ==> Directory(d) in nodes) && forall d :: d in directories ==> d in all
    ensures EndsIn(DirectoryEdges(all, directories), nodes)
    ensures |DirectoryEdges(all, directories)| <= |directories| - (if "." in directories then 1 else 0)
  {
    if directories != [] {
      var shorter, last := directories[..|directories| - 1], directories[|directories| - 1];
      DirectoryEnds(all, shorter, nodes);
      assert last in directories;
      assert directories == shorter + [last];
    }
  }

  lemma {:induction false} ReferenceEnds(paths: set<string>, path: string, references: seq<FileReference>,
                                         nodes: seq<NodeId>)
    requires File(path) in nodes && forall j :: 0 <= j < |references| ==> TargetOf(paths, references[j]) in nodes
    ensures EndsIn(ReferenceEdges(paths, path, references), nodes) && |ReferenceEdges(paths, path, references)| == |references|
  {
    if references != [] {
      ReferenceEnds(paths, path, references[..|references| - 1], nodes);
    }
  }

  ghost predicate FilesCover(paths: set<string>, files: seq<ProjectFile>, nodes: seq<NodeId>) {
    && (forall i :: 0 <= i < |files| ==> File(files[i].path) in nodes)
    && (forall i, j :: 0 <= i < |files| && 0 <= j < |files[i].references| ==> TargetOf(paths, files[i].references[j]) in nodes)
  }

  lemma {:induction false} FileEnds(directories: seq<string>, paths: set<string>, files: seq<ProjectFile>,
                                    nodes: seq<NodeId>)
    requires (forall d :: d in directories ==> Directory(d) in nodes) && FilesCover(paths, files, nodes)
    ensures EndsIn(FileEdges(directories, paths, files), nodes)
    ensures |FileEdges(directories, paths, files)| <= |files| + CountReferences(files)
  {
    if files != [] {
      var shorter, last := files[..|files| - 1], files[|files| - 1];
      assert FilesCover(paths, shorter, nodes) by {
        forall i | 0 <= i < |shorter| ensures shorter[i] == files[i] { }
      }
      FileEnds(directories, paths, shorter, nodes);
      ReferenceEnds(paths, last.path, last.references, nodes);
      CountReferencesSnoc(files);
      var parent := ParentEdge(directories, last.path, File(last.path));
      EndsInAppend(parent, ReferenceEdges(paths, last.path, last.references), nodes);
      EndsInAppend(FileEdges(directories, paths, shorter), EdgesOfFile(directories, paths, last), nodes);
    }
  }

  lemma StructureEnds(c: Current, nodes: seq<NodeId>)
    requires ValidStructure(c.structure) && StructureCovered(nodes, c) && Ledger(c.eventId) in nodes
    ensures EndsIn(StructureEdges(c), nodes)
    ensures |StructureEdges(c)| <= |c.structure.directories| + |c.structure.files| + CountReferences(c.structure.files) + (if c.structure.worktree.Some? then 1 else 0)
  {
    var s := c.structure;
    DirectoryEnds(s.directories, s.directories, nodes);
    FileEnds(s.directories, FilePaths(s.files), s.files, nodes);
    EndsInAppend(DirectoryEdges(s.directories, s.directories), FileEdges(s.directories, FilePaths(s.files), s.files), nodes);
    EndsInAppend(DirectoryEdges(s.directories, s.directories) + FileEdges(s.directories, FilePaths(s.files), s.files), RootEdges(c), nodes);
  }

  lemma {:induction false} RelationEndsOf(nodes: seq<NodeId>, id: string, relations: seq<Relation>)
    requires Ledger(id) in nodes && forall j :: 0 <= j < |relations| ==> Resolve(nodes, relations[j].target) in nodes
    ensures EndsIn(RelationEdgesOf(nodes, id, relations), nodes) && |RelationEdgesOf(nodes, id, relations)| == |relations|
  {
    if relations != [] {
      RelationEndsOf(nodes, id, relations[..|relations| - 1]);
    }
  }

  lemma {:induction false} RelationEnds(nodes: seq<NodeId>, events: seq<Event>)
    requires forall i :: 0 <= i < |events| ==> Ledger(events[i].id) in nodes
    requires forall i, j :: 0 <= i < |events| && 0 <= j < |events[i].relations| ==> Resolve(nodes, events[i].relations[j].target) in nodes
    ensures EndsIn(RelationEdges(nodes, events), nodes) && |RelationEdges(nodes, events)| == CountRelations(events)
  {
    if events != [] {
      var shorter, last := events[..|events| - 1], events[|events| - 1];
      RelationEnds(nodes, shorter);
      RelationEndsOf(nodes, last.id, last.relations);
      CountRelationsSnoc(events);
      EndsInAppend(RelationEdges(nodes, shorter), RelationEdgesOf(nodes, last.id, last.relations), nodes);
    }
  }

  lemma {:induction false} ConceptTermsAreConcepts(signature: seq<string>, concepts: seq<string>)
    ensures forall x :: x in ConceptTerms(signature, concepts) ==> x in concepts
  {
    if signature != [] {
      ConceptTermsAreConcepts(signature[..|signature| - 1], concepts);
    }
  }

  lemma {:induction false} AboutEndsOf(id: NodeId, terms: seq<string>, nodes: seq<NodeId>)
    requires id in nodes && forall x :: x in terms ==> Concept(x) in nodes
    ensures EndsIn(AboutEdgesOf(id, terms), nodes) && |AboutEdgesOf(id, terms)| == |terms|
  {
    if terms != [] {
      AboutEndsOf(id, terms[..|terms| - 1], nodes);
    }
  }

  function CountDocuments(nodes: seq<NodeId>): nat {
    if nodes == [] then 0 else CountDocuments(nodes[..|nodes| - 1]) + if nodes[|nodes| - 1].Directory? then 0 else 1
  }

  lemma {:induction false} AboutEnds(documents: seq<NodeId>, t: Terms, nodes: seq<NodeId>)
    requires Within(documents, nodes) && forall c :: c in t.concepts ==> Concept(c) in nodes
    ensures EndsIn(AboutEdges(documents, t), nodes)
    ensures |AboutEdges(documents, t)| <= MAX_ABOUT_EDGES_PER_NODE * CountDocuments(documents)
  {
    if documents != [] {
      var shorter, last := documents[..|documents| - 1], documents[|documents| - 1];
      AboutEnds(shorter, t, nodes);
      assert last in documents;
      if !last.Directory? {
        ConceptTermsAreConcepts(t.signature(last), t.concepts);
        AboutEndsOf(last, AboutTerms(t.signature(last), t.concepts), nodes);
        EndsInAppend(AboutEdges(shorter, t), AboutEdgesOf(last, AboutTerms(t.signature(last), t.concepts)), nodes);
      }
    }
  }
}
