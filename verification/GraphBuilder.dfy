/** Graph assembly as the loops of src/linked-memory.js, tied to the lists of nodes and insertions. */
module GraphBuilder {
  import opened Common
  import opened LinkedGraph
  import opened EdgeList
  import opened Timeline
  import opened LinkedGraphFacts
  import opened LinkedGraphBounds
  import opened PosixPath

  /** The list and its index both describe the same insertions. */
  ghost predicate Consistent(edges: seq<Edge>, seen: map<EdgeKey, nat>, attempts: seq<EdgeKey>) {
    Indexed(edges, seen) && Represents(edges, attempts)
  }

  /** The edge at a position, inserted once more. */
  function Again(edges: seq<Edge>, at: nat): seq<Edge>
    requires at < |edges|
  {
    edges[at := Edge(edges[at].key, edges[at].occurrences + 1)]
  }

  lemma AgainIsIndexed(edges: seq<Edge>, seen: map<EdgeKey, nat>, at: nat)
    requires Indexed(edges, seen) && at < |edges|
    ensures Indexed(Again(edges, at), seen)
  {
  }

  lemma RepeatedEdge(edges: seq<Edge>, seen: map<EdgeKey, nat>, attempts: seq<EdgeKey>, k: EdgeKey)
    requires Consistent(edges, seen, attempts) && !SelfLoop(k) && k in seen
    ensures seen[k] < |edges|
    ensures Consistent(Again(edges, seen[k]), seen, attempts + [k])
  {
    AgainIsIndexed(edges, seen, seen[k]);
    Counted(edges, attempts, k, seen[k]);
  }

  lemma NewIsIndexed(edges: seq<Edge>, seen: map<EdgeKey, nat>, k: EdgeKey)
    requires Indexed(edges, seen) && k !in seen
    ensures !HasKey(edges, k) && Indexed(edges + [Edge(k, 1)], seen[k := |edges|])
  {
  }

  lemma NewEdge(edges: seq<Edge>, seen: map<EdgeKey, nat>, attempts: seq<EdgeKey>, k: EdgeKey)
    requires Consistent(edges, seen, attempts) && !SelfLoop(k) && k !in seen
    ensures Consistent(edges + [Edge(k, 1)], seen[k := |edges|], attempts + [k])
  {
    NewIsIndexed(edges, seen, k);
    Inserted(edges, attempts, k);
  }

  lemma SelfEdge(edges: seq<Edge>, seen: map<EdgeKey, nat>, attempts: seq<EdgeKey>, k: EdgeKey)
    requires Consistent(edges, seen, attempts) && SelfLoop(k)
    ensures Consistent(edges, seen, attempts + [k])
  {
    Unchanged(edges, attempts, k);
  }

  lemma Regroup<T>(a: seq<T>, b: seq<T>, c: seq<T>, d: seq<T>)
    ensures a + b + c + d == a + (b + c + d)
  {
  }

  lemma FilesStep(nodes: seq<NodeId>, attempts: seq<EdgeKey>, directories: seq<string>, paths: set<string>,
                  files: seq<ProjectFile>, i: nat)
    requires i < |files|
    ensures AddFileNodes(nodes, paths, files[..i + 1]) == AddFileNode(AddFileNodes(nodes, paths, files[..i]), paths, files[i])
    ensures attempts + FileEdges(directories, paths, files[..i + 1])
         == attempts + FileEdges(directories, paths, files[..i]) + EdgesOfFile(directories, paths, files[i])
  {
    assert files[..i + 1][..i] == files[..i] && files[..i + 1][i] == files[i];
    Regroup3(attempts, FileEdges(directories, paths, files[..i]), EdgesOfFile(directories, paths, files[i]));
  }

  lemma Regroup3<T>(a: seq<T>, b: seq<T>, c: seq<T>)
    ensures a + b + c == a + (b + c)
  {
  }

  /** The lists under construction; `attempts` remembers every call to AddEdge. */
  class Builder {
    var nodes: seq<NodeId>
    var known: set<NodeId>
    var edges: seq<Edge>
    var seen: map<EdgeKey, nat>
    ghost var attempts: seq<EdgeKey>

    ghost predicate Valid()
      reads this
    {
      && (forall x :: x in known <==> x in nodes)
      && Consistent(edges, seen, attempts)
    }

    constructor ()
      ensures Valid() && nodes == [] && attempts == []
    {
      nodes, known, edges, seen, attempts := [], {}, [], map[], [];
    }

    method AddNode(id: NodeId)
      requires Valid()
      modifies this
      ensures Valid() && nodes == old(nodes) + [id] && attempts == old(attempts)
    {
      nodes, known := nodes + [id], known + {id};
    }

    method CountAgain(k: EdgeKey)
      requires Valid() && !SelfLoop(k) && k in seen
      modifies this
      ensures Valid() && nodes == old(nodes) && attempts == old(attempts) + [k]
    {
      RepeatedEdge(edges, seen, attempts, k);
      attempts := attempts + [k];
      edges := Again(edges, seen[k]);
    }

    method Append(k: EdgeKey)
      requires Valid() && !SelfLoop(k) && k !in seen
      modifies this
      ensures Valid() && nodes == old(nodes) && attempts == old(attempts) + [k]
    {
      NewEdge(edges, seen, attempts, k);
      attempts := attempts + [k];
      seen := seen[k := |edges|];
      edges := edges + [Edge(k, 1)];
    }

    method AddEdge(k: EdgeKey)
      requires Valid()
      modifies this
      ensures Valid() && nodes == old(nodes) && attempts == old(attempts) + [k]
    {
      if k.source == k.target {
        SelfEdge(edges, seen, attempts, k);
        attempts := attempts + [k];
      } else if k in seen {
        CountAgain(k);
      } else {
        Append(k);
      }
    }

    method AddEvents(events: seq<Event>)
      requires Valid()
      modifies this
      ensures Valid() && nodes == old(nodes) + EventNodes(events) && attempts == old(attempts)
    {
      for i := 0 to |events|
        invariant Valid() && nodes == old(nodes) + EventNodes(events)[..i] && attempts == old(attempts)
      {
        assert EventNodes(events)[..i + 1] == EventNodes(events)[..i] + [Ledger(events[i].id)];
        AddNode(Ledger(events[i].id));
      }
    }

    method AddTimeline(timeline: seq<Event>)
      requires Valid()
      modifies this
      ensures Valid() && nodes == old(nodes) && attempts == old(attempts) + Precedes(timeline)
    {
      var index := 1;
      while index < |timeline|
        invariant 1 <= index && (index <= |timeline| || (index == 1 && |timeline| == 0))
        invariant Valid() && nodes == old(nodes)
        invariant attempts == old(attempts) + Precedes(timeline[..Min(index, |timeline|)])
      {
        assert timeline[..index + 1][..index] == timeline[..index];
        AddEdge(EdgeKey(Ledger(timeline[index - 1].id), "precedes", Ledger(timeline[index].id)));
        index := index + 1;
      }
      assert timeline[..|timeline|] == timeline;
    }

    method AddParentEdge(directories: seq<string>, path: string, child: NodeId)
      requires Valid()
      modifies this
      ensures Valid() && nodes == old(nodes) && attempts == old(attempts) + ParentEdge(directories, path, child)
    {
      var parent := Dirname(path);
      if parent in directories {
        AddEdge(EdgeKey(Directory(parent), "contains", child));
      }
    }

    method AddDirectories(directories: seq<string>)
      requires Valid()
      modifies this
      ensures Valid() && nodes == old(nodes) + DirectoryNodes(directories)
      ensures attempts == old(attempts) + DirectoryEdges(directories, directories)
    {
      for i := 0 to |directories|
        invariant Valid() && nodes == old(nodes) + DirectoryNodes(directories)[..i]
        invariant attempts == old(attempts) + DirectoryEdges(directories, directories[..i])
      {
        var path := directories[i];
        assert directories[..i + 1][..i] == directories[..i];
        assert DirectoryNodes(directories)[..i + 1] == DirectoryNodes(directories)[..i] + [Directory(path)];
        AddNode(Directory(path));
        if path != "." {
          AddParentEdge(directories, path, Directory(path));
        }
      }
      assert directories[..|directories|] == directories;
    }

    method AddReferences(paths: set<string>, path: string, references: seq<FileReference>)
      requires Valid()
      modifies this
      ensures Valid() && nodes == AddReferenceNodes(old(nodes), paths, references)
      ensures attempts == old(attempts) + ReferenceEdges(paths, path, references)
    {
      for i := 0 to |references|
        invariant Valid() && nodes == AddReferenceNodes(old(nodes), paths, references[..i])
        invariant attempts == old(attempts) + ReferenceEdges(paths, path, references[..i])
      {
        var reference := references[i];
        assert references[..i + 1][..i] == references[..i];
        var target: NodeId;
        if reference.target.Some? && reference.target.value in paths {
          target := File(reference.target.value);
        } else {
          target := Reference(reference.target.Some?, reference.kind + ":" + reference.specifier);
          if target !in known {
            AddNode(target);
          }
        }
        AddEdge(EdgeKey(File(path), reference.kind, target));
      }
      assert references[..|references|] == references;
    }

    method AddFile(directories: seq<string>, paths: set<string>, file: ProjectFile)
      requires Valid()
      modifies this
      ensures Valid() && nodes == AddFileNode(old(nodes), paths, file)
      ensures attempts == old(attempts) + EdgesOfFile(directories, paths, file)
    {
      AddNode(File(file.path));
      AddParentEdge(directories, file.path, File(file.path));
      AddReferences(paths, file.path, file.references);
    }

    method AddFiles(directories: seq<string>, paths: set<string>, files: seq<ProjectFile>)
      requires Valid()
      modifies this
      ensures Valid() && nodes == AddFileNodes(old(nodes), paths, files)
      ensures attempts == old(attempts) + FileEdges(directories, paths, files)
    {
      for i := 0 to |files|
        invariant Valid() && nodes == AddFileNodes(old(nodes), paths, files[..i])
        invariant attempts == old(attempts) + FileEdges(directories, paths, files[..i])
      {
        FilesStep(old(nodes), old(attempts), directories, paths, files, i);
        AddFile(directories, paths, files[i]);
      }
      assert files[..|files|] == files;
    }

    method AddRootEdges(c: Current)
      requires Valid()
      modifies this
      ensures Valid() && nodes == old(nodes) && attempts == old(attempts) + RootEdges(c)
    {
      var root := "." in c.structure.directories;
      if root && c.structure.worktree.Some? {
        AddEdge(EdgeKey(Worktree(c.structure.worktree.value), "contains", Directory(".")));
      }
      if root {
        AddEdge(EdgeKey(Ledger(c.eventId), "produced", Directory(".")));
      }
    }

    method AddWorktree(worktree: Option<string>)
      requires Valid()
      modifies this
      ensures Valid() && attempts == old(attempts)
      ensures nodes == old(nodes) + if worktree.Some? then [Worktree(worktree.value)] else []
    {
      if worktree.Some? {
        AddNode(Worktree(worktree.value));
      }
    }

    method AddStructure(c: Current)
      requires Valid()
      modifies this
      ensures Valid() && nodes == StructureNodes(old(nodes), c.structure)
      ensures attempts == old(attempts) + StructureEdges(c)
    {
      var directories, files := c.structure.directories, c.structure.files;
      AddWorktree(c.structure.worktree);
      AddDirectories(directories);
      AddFiles(directories, FilePaths(files), files);
      AddRootEdges(c);
      Regroup(old(attempts), DirectoryEdges(directories, directories), FileEdges(directories, FilePaths(files), files), RootEdges(c));
    }

    /** One reference node for every relation target that is no node yet. */
    method AddRelationReferences(targets: seq<NodeId>)
      requires Valid()
      modifies this
      ensures Valid() && nodes == AddRelationNodes(old(nodes), targets) && attempts == old(attempts)
    {
      for i := 0 to |targets|
        invariant Valid() && nodes == AddRelationNodes(old(nodes), targets[..i]) && attempts == old(attempts)
      {
        assert targets[..i + 1][..i] == targets[..i];
        if targets[i] !in known && RelationReference(targets[i]) !in known {
          AddNode(RelationReference(targets[i]));
        }
      }
      assert targets[..|targets|] == targets;
    }

    method AddRelationsOf(e: Event)
      requires Valid()
      modifies this
      ensures Valid() && nodes == old(nodes)
      ensures attempts == old(attempts) + RelationEdgesOf(nodes, e.id, e.relations)
    {
      for j := 0 to |e.relations|
        invariant Valid() && nodes == old(nodes)
        invariant attempts == old(attempts) + RelationEdgesOf(nodes, e.id, e.relations[..j])
      {
        var relation := e.relations[j];
        assert e.relations[..j + 1][..j] == e.relations[..j];
        var target := if relation.target in known then relation.target else RelationReference(relation.target);
        AddEdge(EdgeKey(Ledger(e.id), relation.kind, target));
      }
      assert e.relations[..|e.relations|] == e.relations;
    }

    method AddRelations(events: seq<Event>)
      requires Valid()
      modifies this
      ensures Valid() && nodes == old(nodes) && attempts == old(attempts) + RelationEdges(nodes, events)
    {
      for i := 0 to |events|
        invariant Valid() && nodes == old(nodes) && attempts == old(attempts) + RelationEdges(nodes, events[..i])
      {
        assert events[..i + 1][..i] == events[..i];
        AddRelationsOf(events[i]);
      }
      assert events[..|events|] == events;
    }

    /** Everything before the concepts, in the order of the source. */
    method AddDocuments(p: Projection, timeline: seq<Event>)
      requires Valid() && nodes == [] && attempts == []
      modifies this
      ensures Valid() && nodes == DocumentNodes(p)
      ensures attempts == Precedes(timeline) + StructurePart(p) + RelationEdges(nodes, p.events)
    {
      AddEvents(p.events);
      assert nodes == EventNodes(p.events);
      AddTimeline(timeline);
      if p.current.Some? {
        AddStructure(p.current.value);
      }
      assert attempts == Precedes(timeline) + StructurePart(p);
      AddRelationReferences(RelationTargets(p.events));
      AddRelations(p.events);
    }

    /** False reports the identity collision error. */
    method AddConcepts(concepts: seq<string>) returns (ok: bool)
      requires Valid()
      modifies this
      ensures Valid() && attempts == old(attempts)
      ensures ok <==> Distinct(concepts) && forall c :: c in concepts ==> Concept(c) !in old(nodes)
      ensures ok ==> nodes == old(nodes) + ConceptNodes(concepts)
    {
      for i := 0 to |concepts|
        invariant Valid() && attempts == old(attempts)
        invariant nodes == old(nodes) + ConceptNodes(concepts)[..i]
        invariant Distinct(concepts[..i]) && forall c :: c in concepts[..i] ==> Concept(c) !in old(nodes)
      {
        var id := Concept(concepts[i]);
        assert ConceptNodes(concepts)[..i + 1] == ConceptNodes(concepts)[..i] + [id];
        assert concepts[..i + 1] == concepts[..i] + [concepts[i]];
        if id in known {
          CollisionFound(old(nodes), concepts, i);
          return false;
        }
        NoCollision(old(nodes), concepts, i);
        AddNode(id);
      }
      assert concepts[..|concepts|] == concepts;
      return true;
    }

    method AddAboutOf(id: NodeId, terms: seq<string>)
      requires Valid()
      modifies this
      ensures Valid() && nodes == old(nodes) && attempts == old(attempts) + AboutEdgesOf(id, terms)
    {
      for j := 0 to |terms|
        invariant Valid() && nodes == old(nodes) && attempts == old(attempts) + AboutEdgesOf(id, terms[..j])
      {
        assert terms[..j + 1][..j] == terms[..j];
        AddEdge(EdgeKey(id, "about", Concept(terms[j])));
      }
      assert terms[..|terms|] == terms;
    }

    method AddAbout(documents: seq<NodeId>, t: Terms)
      requires Valid()
      modifies this
      ensures Valid() && nodes == old(nodes) && attempts == old(attempts) + AboutEdges(documents, t)
    {
      for i := 0 to |documents|
        invariant Valid() && nodes == old(nodes) && attempts == old(attempts) + AboutEdges(documents[..i], t)
      {
        assert documents[..i + 1][..i] == documents[..i];
        if !documents[i].Directory? {
          AddAboutOf(documents[i], AboutTerms(t.signature(documents[i]), t.concepts));
        }
      }
      assert documents[..|documents|] == documents;
    }
  }

  lemma CollisionFound(before: seq<NodeId>, concepts: seq<string>, i: nat)
    requires i < |concepts| && Concept(concepts[i]) in before + ConceptNodes(concepts)[..i]
    ensures !(Distinct(concepts) && forall c :: c in concepts ==> Concept(c) !in before)
  {
    if Concept(concepts[i]) !in before {
      var j :| 0 <= j < i && ConceptNodes(concepts)[j] == Concept(concepts[i]);
      assert concepts[j] == concepts[i];
    }
  }

  lemma NoCollision(before: seq<NodeId>, concepts: seq<string>, i: nat)
    requires i < |concepts| && Concept(concepts[i]) !in before + ConceptNodes(concepts)[..i]
    ensures Concept(concepts[i]) !in before && concepts[i] !in concepts[..i]
  {
    assert forall j :: 0 <= j < i ==> ConceptNodes(concepts)[j] == Concept(concepts[j]) && ConceptNodes(concepts)[j] in ConceptNodes(concepts)[..i];
  }

  // ---------- projection ----------

  lemma InnerStep(source: seq<Event>, projected: seq<Event>, relations: seq<Relation>, j: nat, room: nat)
    requires j < |relations|
    ensures var before := AdmissibleOf(source, projected, relations[..j]);
            var after := AdmissibleOf(source, projected, relations[..j + 1]);
            after[..Min(|after|, room)] == before[..Min(|before|, room)]
              + if Admissible(source, projected, relations[j]) && |before[..Min(|before|, room)]| < room then [relations[j]] else []
  {
    assert relations[..j + 1][..j] == relations[..j];
  }

  /** Room for relations is handed out from the newest event backwards. */
  method SelectRelations(source: seq<Event>, projected: seq<Event>) returns (kept: seq<seq<Relation>>)
    ensures kept == KeptFrom(source, projected, 0)
  {
    kept := [];
    var remaining := MAX_GRAPH_RELATIONS;
    var index := |projected|;
    while index > 0
      invariant 0 <= index <= |projected|
      invariant kept == KeptFrom(source, projected, index) && remaining == MAX_GRAPH_RELATIONS - TotalOf(kept) >= 0
    {
      index := index - 1;
      var relations;
      relations, remaining := SelectOf(source, projected, projected[index].relations, remaining);
      kept := [relations] + kept;
      assert kept[1..] == KeptFrom(source, projected, index + 1);
    }
  }

  method SelectOf(source: seq<Event>, projected: seq<Event>, all: seq<Relation>, room: nat)
    returns (relations: seq<Relation>, remaining: nat)
    ensures var mine := AdmissibleOf(source, projected, all); relations == mine[..Min(|mine|, room)]
    ensures remaining == room - |relations|
  {
    relations, remaining := [], room;
    for j := 0 to |all|
      invariant var mine := AdmissibleOf(source, projected, all[..j]); relations == mine[..Min(|mine|, room)]
      invariant remaining == room - |relations|
    {
      InnerStep(source, projected, all, j, room);
      if !((AnyEvent(source, all[j].target) && !AnyEvent(projected, all[j].target)) || remaining == 0) {
        relations, remaining := relations + [all[j]], remaining - 1;
      }
    }
    assert all[..|all|] == all;
  }

  lemma KeptReferencesFrom(files: seq<ProjectFile>, i: nat, room: nat)
    requires i < |files|
    ensures var file := Trim(files[i], room);
            KeptReferences(files[i..], room) == [file] + KeptReferences(files[i + 1..], room - |file.references|)
  {
    assert files[i..][0] == files[i] && files[i..][1..] == files[i + 1..];
  }

  /** Room for file references, MAX_GRAPH_FILE_REFERENCES at first, goes to the first files, at most 64 to each. */
  method SelectReferences(files: seq<ProjectFile>, room: nat) returns (kept: seq<ProjectFile>)
    ensures kept == KeptReferences(files, room)
  {
    kept := [];
    var remaining: nat := room;
    for i := 0 to |files|
      invariant KeptReferences(files, room) == kept + KeptReferences(files[i..], remaining)
    {
      var file := Trim(files[i], remaining);
      KeptReferencesFrom(files, i, remaining);
      Shift(kept, file, KeptReferences(files[i + 1..], remaining - |file.references|));
      kept := kept + [file];
      remaining := remaining - |file.references|;
    }
    assert files[|files|..] == [];
  }

  lemma Shift<T>(a: seq<T>, x: T, b: seq<T>)
    ensures a + ([x] + b) == a + [x] + b
  {
  }

  /** What the caller receives. */
  ghost predicate IsGraphOf(nodes: seq<NodeId>, edges: seq<Edge>, p: Projection, timeline: seq<Event>, t: Terms) {
    nodes == Nodes(p, t) && Represents(edges, Attempts(p, timeline, t))
  }

  /** Main result: the graph of a valid projection is well formed and within every cap. */
  lemma GraphIsSound(nodes: seq<NodeId>, edges: seq<Edge>, p: Projection, timeline: seq<Event>, t: Terms)
    requires ValidProjection(p) && timeline == InTimeOrder(p.events) && ValidTerms(t)
    requires IsGraphOf(nodes, edges, p, timeline, t)
    ensures IsTimeline(p, timeline)
    ensures Distinct(nodes) && DistinctKeys(edges) && Closed(edges, nodes)
    ensures OccurrencesOf(edges) == |NonSelf(Attempts(p, timeline, t))|
    ensures SumOutgoing(edges, nodes) == |edges| == SumIncoming(edges, nodes)
    ensures |nodes| <= 65_065 && |edges| <= 395_006
  {
    var attempts := Attempts(p, timeline, t);
    InTimeOrderIsTimeline(p);
    NodesAreDistinct(p, t);
    GraphIsClosed(p, timeline, t);
    forall i | 0 <= i < |edges| ensures edges[i].key.source in nodes && edges[i].key.target in nodes {
      assert Multiplicity(attempts, edges[i].key) > 0;
      NonSelfMembers(attempts, edges[i].key);
    }
    OccurrencesAreConserved(edges, attempts);
    DegreesSumToEdges(edges, nodes);
    LimitIsUnreachable(p);
    NodesWithinBound(p, t);
    EdgesWithinBound(p, timeline, t);
  }

  /** The assembly; for a valid projection neither the limit nor the collision error arises. */
  method Assemble(p: Projection, t: Terms) returns (nodes: seq<NodeId>, edges: seq<Edge>, ok: bool)
    requires ValidProjection(p) && ValidTerms(t)
    ensures ok && IsGraphOf(nodes, edges, p, InTimeOrder(p.events), t)
  {
    assert NodeUpperBound(p) <= MAX_GRAPH_NODES && EdgeUpperBound(p) <= MAX_GRAPH_EDGES by {
      LimitIsUnreachable(p);
    }
    if NodeUpperBound(p) > MAX_GRAPH_NODES || EdgeUpperBound(p) > MAX_GRAPH_EDGES {
      return [], [], false;
    }
    var b := new Builder();
    b.AddDocuments(p, InTimeOrder(p.events));
    var documents := b.nodes;
    NodesAreDistinct(p, t);
    ok := b.AddConcepts(t.concepts);
    if ok {
      b.AddAbout(documents, t);
    }
    return b.nodes, b.edges, ok;
  }
}
