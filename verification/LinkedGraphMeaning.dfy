/** Which edges the linked graph has, said without the order of insertion (src/linked-memory.js:446-775). */
module LinkedGraphMeaning {
  import opened Common
  import opened LinkedGraph
  import opened LinkedGraphBounds
  import opened PosixPath
  import opened StringOrder

  // ---------- one family of edges at a time ----------

  /** Nothing happened between the two. */
  ghost predicate NextInTime(events: seq<Event>, e: Event, f: Event) {
    e in events && f in events && Earlier(e, f) && forall g :: g in events ==> !(Earlier(e, g) && Earlier(g, f))
  }

  /** Each event precedes the next one in time. */
  ghost predicate IsPrecedence(events: seq<Event>, k: EdgeKey) {
    exists e, f :: NextInTime(events, e, f) && k == EdgeKey(Ledger(e.id), "precedes", Ledger(f.id))
  }

  /** A listed directory contains what lies directly in it. */
  ghost predicate IsChild(directories: seq<string>, path: string, child: NodeId, k: EdgeKey) {
    && k.source.Directory? && k.source.path in directories && IsParent(k.source.path, path)
    && k.kind == "contains" && k.target == child
  }

  ghost predicate IsSubdirectory(all: seq<string>, directories: seq<string>, k: EdgeKey) {
    exists path :: path in directories && path != "." && IsChild(all, path, Directory(path), k)
  }

  /** What a file refers to: a file of the snapshot, or else a node for the name, resolved outside it or not. */
  predicate RefersTo(paths: set<string>, r: FileReference, id: NodeId) {
    match r.target
    case Some(path) => id == if path in paths then File(path) else Reference(true, r.kind + ":" + r.specifier)
    case None => id == Reference(false, r.kind + ":" + r.specifier)
  }

  ghost predicate IsReferenceOf(paths: set<string>, path: string, references: seq<FileReference>, k: EdgeKey) {
    exists r :: r in references && k.source == File(path) && k.kind == r.kind && RefersTo(paths, r, k.target)
  }

  ghost predicate IsOfFile(directories: seq<string>, paths: set<string>, file: ProjectFile, k: EdgeKey) {
    IsChild(directories, file.path, File(file.path), k) || IsReferenceOf(paths, file.path, file.references, k)
  }

  ghost predicate IsOfSomeFile(directories: seq<string>, paths: set<string>, files: seq<ProjectFile>, k: EdgeKey) {
    exists file :: file in files && IsOfFile(directories, paths, file, k)
  }

  /** The root hangs from the worktree, and from the event that carries the structure. */
  predicate IsRoot(c: Current, k: EdgeKey) {
    && "." in c.structure.directories
    && k.target == Directory(".")
    && ((c.structure.worktree.Some? && k.source == Worktree(c.structure.worktree.value) && k.kind == "contains")
        || (k.source == Ledger(c.eventId) && k.kind == "produced"))
  }

  ghost predicate IsStructural(c: Current, k: EdgeKey) {
    var s := c.structure;
    || IsSubdirectory(s.directories, s.directories, k)
    || IsOfSomeFile(s.directories, FilePaths(s.files), s.files, k)
    || IsRoot(c, k)
  }

  /** The node named, if there is one, and its reference node otherwise. */
  predicate NamesTarget(nodes: seq<NodeId>, target: NodeId, id: NodeId) {
    id == if target in nodes then target else RelationReference(target)
  }

  ghost predicate IsRelationOf(nodes: seq<NodeId>, id: string, relations: seq<Relation>, k: EdgeKey) {
    exists r :: r in relations && k.source == Ledger(id) && k.kind == r.kind && NamesTarget(nodes, r.target, k.target)
  }

  ghost predicate IsRelation(nodes: seq<NodeId>, events: seq<Event>, k: EdgeKey) {
    exists event :: event in events && IsRelationOf(nodes, event.id, event.relations, k)
  }

  function ConceptsAmong(signature: seq<string>, concepts: seq<string>): nat {
    if signature == [] then 0
    else ConceptsAmong(signature[..|signature| - 1], concepts) + if signature[|signature| - 1] in concepts then 1 else 0
  }

  ghost predicate ConceptAt(signature: seq<string>, concepts: seq<string>, i: nat, n: nat, term: string)
    requires i < |signature|
  {
    signature[i] == term && term in concepts && ConceptsAmong(signature[..i], concepts) < n
  }

  /** A concept of the signature with fewer than six concepts before it. */
  ghost predicate IsFirstConcept(signature: seq<string>, concepts: seq<string>, term: string) {
    exists i: nat :: i < |signature| && ConceptAt(signature, concepts, i, 6, term)
  }

  /** The concept edges of one document: at most six, to the first concepts of its signature. */
  ghost predicate IsAboutOf(id: NodeId, t: Terms, k: EdgeKey) {
    && k.source == id && !id.Directory? && k.kind == "about" && k.target.Concept?
    && IsFirstConcept(t.signature(id), t.concepts, k.target.term)
  }

  ghost predicate IsAbout(documents: seq<NodeId>, t: Terms, k: EdgeKey) {
    k.source in documents && IsAboutOf(k.source, t, k)
  }

  // ---------- the lists hold exactly these ----------

  predicate JoinsAt(timeline: seq<Event>, i: nat, k: EdgeKey)
    requires 0 < i < |timeline|
  {
    k == EdgeKey(Ledger(timeline[i - 1].id), "precedes", Ledger(timeline[i].id))
  }

  lemma {:induction false} PrecedesAt(timeline: seq<Event>, k: EdgeKey)
    ensures k in Precedes(timeline) <==> exists i :: 0 < i < |timeline| && JoinsAt(timeline, i, k)
  {
    if |timeline| >= 2 {
      var n := |timeline| - 1;
      var front := timeline[..n];
      PrecedesAt(front, k);
      assert forall i :: 0 < i < n ==> (JoinsAt(front, i, k) <==> JoinsAt(timeline, i, k));
      assert k in Precedes(timeline) <==> k in Precedes(front) || JoinsAt(timeline, n, k);
    }
  }

  lemma EarlierIsStrict(a: Event, b: Event)
    ensures !(Earlier(a, b) && Earlier(b, a))
  {
    LessIsTotal(a.id, b.id);
  }

  lemma NeighboursAreNext(p: Projection, timeline: seq<Event>, i: nat)
    requires IsTimeline(p, timeline) && 0 < i < |timeline|
    ensures NextInTime(p.events, timeline[i - 1], timeline[i])
  {
    var e, f := timeline[i - 1], timeline[i];
    TimelineMembers(p, timeline);
    assert e in timeline && f in timeline;
    forall g | g in p.events ensures !(Earlier(e, g) && Earlier(g, f)) {
      var j :| 0 <= j < |timeline| && timeline[j] == g;
      EarlierIsStrict(e, g);
      EarlierIsStrict(g, f);
      EarlierIsStrict(g, g);
    }
  }

  lemma NextAreNeighbours(p: Projection, timeline: seq<Event>, e: Event, f: Event) returns (i: nat)
    requires IsTimeline(p, timeline) && NextInTime(p.events, e, f)
    ensures 0 < i < |timeline| && timeline[i - 1] == e && timeline[i] == f
  {
    TimelineMembers(p, timeline);
    var a :| 0 <= a < |timeline| && timeline[a] == e;
    i :| 0 <= i < |timeline| && timeline[i] == f;
    EarlierIsStrict(e, f);
    EarlierIsStrict(e, e);
    assert a < i;
    assert timeline[a + 1] in timeline;
  }

  lemma PrecedesMean(p: Projection, timeline: seq<Event>, k: EdgeKey)
    requires IsTimeline(p, timeline)
    ensures k in Precedes(timeline) <==> IsPrecedence(p.events, k)
  {
    PrecedesAt(timeline, k);
    if k in Precedes(timeline) {
      var i :| 0 < i < |timeline| && JoinsAt(timeline, i, k);
      NeighboursAreNext(p, timeline, i);
    }
    if IsPrecedence(p.events, k) {
      var e, f :| NextInTime(p.events, e, f) && k == EdgeKey(Ledger(e.id), "precedes", Ledger(f.id));
      var i := NextAreNeighbours(p, timeline, e, f);
      assert JoinsAt(timeline, i, k);
    }
  }

  lemma ParentEdgeMeans(directories: seq<string>, path: string, child: NodeId, k: EdgeKey)
    requires Relative(path)
    ensures k in ParentEdge(directories, path, child) <==> IsChild(directories, path, child, k)
  {
    DirnameIsParent(path, Dirname(path));
    if k.source.Directory? {
      DirnameIsParent(path, k.source.path);
    }
  }

  lemma {:induction false} DirectoriesMean(all: seq<string>, directories: seq<string>, k: EdgeKey)
    requires forall path :: path in directories ==> Relative(path)
    ensures k in DirectoryEdges(all, directories) <==> IsSubdirectory(all, directories, k)
  {
    if directories != [] {
      var front, last := directories[..|directories| - 1], directories[|directories| - 1];
      assert directories == front + [last] && last in directories;
      DirectoriesMean(all, front, k);
      ParentEdgeMeans(all, last, Directory(last), k);
    }
  }

  lemma {:induction false} ReferencesMean(paths: set<string>, path: string, references: seq<FileReference>, k: EdgeKey)
    ensures k in ReferenceEdges(paths, path, references) <==> IsReferenceOf(paths, path, references, k)
  {
    if references != [] {
      var front, last := references[..|references| - 1], references[|references| - 1];
      ReferencesMean(paths, path, front, k);
      assert references == front + [last];
    }
  }

  lemma {:induction false} FilesMean(directories: seq<string>, paths: set<string>, files: seq<ProjectFile>, k: EdgeKey)
    requires forall file :: file in files ==> Relative(file.path)
    ensures k in FileEdges(directories, paths, files) <==> IsOfSomeFile(directories, paths, files, k)
  {
    if files != [] {
      var front, last := files[..|files| - 1], files[|files| - 1];
      assert files == front + [last] && last in files;
      FilesMean(directories, paths, front, k);
      FileMeans(directories, paths, last, k);
      OneMoreFile(directories, paths, front, last, k);
    }
  }

  lemma FileMeans(directories: seq<string>, paths: set<string>, file: ProjectFile, k: EdgeKey)
    requires Relative(file.path)
    ensures k in EdgesOfFile(directories, paths, file) <==> IsOfFile(directories, paths, file, k)
  {
    ParentEdgeMeans(directories, file.path, File(file.path), k);
    ReferencesMean(paths, file.path, file.references, k);
  }

  lemma OneMoreFile(directories: seq<string>, paths: set<string>, front: seq<ProjectFile>, last: ProjectFile,
                    k: EdgeKey)
    ensures IsOfSomeFile(directories, paths, front + [last], k)
       <==> IsOfSomeFile(directories, paths, front, k) || IsOfFile(directories, paths, last, k)
  {
  }

  lemma RootMeans(c: Current, k: EdgeKey)
    ensures k in RootEdges(c) <==> IsRoot(c, k)
  {
  }

  lemma StructureMeans(c: Current, k: EdgeKey)
    requires StoredPaths(c.structure)
    ensures k in StructureEdges(c) <==> IsStructural(c, k)
  {
    var s := c.structure;
    DirectoriesMean(s.directories, s.directories, k);
    FilesMean(s.directories, FilePaths(s.files), s.files, k);
    RootMeans(c, k);
  }

  lemma {:induction false} RelationsOfMean(nodes: seq<NodeId>, id: string, relations: seq<Relation>, k: EdgeKey)
    ensures k in RelationEdgesOf(nodes, id, relations) <==> IsRelationOf(nodes, id, relations, k)
  {
    if relations != [] {
      var front, last := relations[..|relations| - 1], relations[|relations| - 1];
      RelationsOfMean(nodes, id, front, k);
      assert relations == front + [last];
    }
  }

  lemma {:induction false} RelationsMean(nodes: seq<NodeId>, events: seq<Event>, k: EdgeKey)
    ensures k in RelationEdges(nodes, events) <==> IsRelation(nodes, events, k)
  {
    if events != [] {
      var front, last := events[..|events| - 1], events[|events| - 1];
      RelationsMean(nodes, front, k);
      RelationsOfMean(nodes, last.id, last.relations, k);
      assert events == front + [last];
    }
  }

  lemma {:induction false} AboutOfMeans(id: NodeId, terms: seq<string>, k: EdgeKey)
    ensures k in AboutEdgesOf(id, terms) <==> k.source == id && k.kind == "about" && k.target.Concept? && k.target.term in terms
  {
    if terms != [] {
      AboutOfMeans(id, terms[..|terms| - 1], k);
      assert terms == terms[..|terms| - 1] + [terms[|terms| - 1]];
    }
  }

  lemma {:induction false} ConceptTermsAt(signature: seq<string>, concepts: seq<string>, n: nat, term: string)
    ensures |ConceptTerms(signature, concepts)| == ConceptsAmong(signature, concepts)
    ensures var terms := ConceptTerms(signature, concepts);
            term in terms[..Min(|terms|, n)] <==> exists i: nat :: i < |signature| && ConceptAt(signature, concepts, i, n, term)
  {
    if signature != [] {
      var k := |signature| - 1;
      var front, last := signature[..k], signature[k];
      ConceptTermsAt(front, concepts, n, term);
      var before := ConceptTerms(front, concepts);
      TakeSnoc(before, last, n, term);
      assert before + [] == before;
      forall i: nat | i < k ensures ConceptAt(front, concepts, i, n, term) <==> ConceptAt(signature, concepts, i, n, term) {
        assert front[..i] == signature[..i];
      }
      assert ConceptAt(signature, concepts, k, n, term) <==> last == term && term in concepts && |before| < n;
    }
  }

  lemma TakeSnoc(terms: seq<string>, last: string, n: nat, term: string)
    ensures var more := terms + [last];
            term in more[..Min(|more|, n)] <==> term in terms[..Min(|terms|, n)] || (|terms| < n && term == last)
  {
    var more := terms + [last];
    if |terms| < n {
      assert more[..Min(|more|, n)] == more && terms[..Min(|terms|, n)] == terms;
    } else {
      assert more[..n] == terms[..n];
    }
  }

  lemma FirstConcepts(signature: seq<string>, concepts: seq<string>, term: string)
    ensures term in AboutTerms(signature, concepts) <==> IsFirstConcept(signature, concepts, term)
  {
    ConceptTermsAt(signature, concepts, MAX_ABOUT_EDGES_PER_NODE, term);
  }

  lemma AboutOfOne(id: NodeId, t: Terms, k: EdgeKey)
    ensures !id.Directory? ==> (k in AboutEdgesOf(id, AboutTerms(t.signature(id), t.concepts)) <==> IsAboutOf(id, t, k))
  {
    AboutOfMeans(id, AboutTerms(t.signature(id), t.concepts), k);
    if k.target.Concept? {
      FirstConcepts(t.signature(id), t.concepts, k.target.term);
    }
  }

  lemma {:induction false} AboutMeans(documents: seq<NodeId>, t: Terms, k: EdgeKey)
    ensures k in AboutEdges(documents, t) <==> IsAbout(documents, t, k)
  {
    if documents != [] {
      var front, last := documents[..|documents| - 1], documents[|documents| - 1];
      AboutMeans(front, t, k);
      AboutOfOne(last, t, k);
      assert documents == front + [last];
    }
  }

  /** Main result: exactly these edges are inserted, each family in its own direction and with its own kind. */
  lemma InsertionsMean(p: Projection, timeline: seq<Event>, t: Terms, k: EdgeKey)
    requires IsTimeline(p, timeline) && (p.current.Some? ==> StoredPaths(p.current.value.structure))
    ensures k in Attempts(p, timeline, t) <==>
              || IsPrecedence(p.events, k)
              || (p.current.Some? && IsStructural(p.current.value, k))
              || IsRelation(DocumentNodes(p), p.events, k)
              || IsAbout(DocumentNodes(p), t, k)
  {
    PrecedesMean(p, timeline, k);
    if p.current.Some? { StructureMeans(p.current.value, k); }
    RelationsMean(DocumentNodes(p), p.events, k);
    AboutMeans(DocumentNodes(p), t, k);
    FourMembers(Precedes(timeline), StructurePart(p), RelationEdges(DocumentNodes(p), p.events), AboutEdges(DocumentNodes(p), t), k);
  }

  lemma FourMembers(a: seq<EdgeKey>, b: seq<EdgeKey>, c: seq<EdgeKey>, d: seq<EdgeKey>, k: EdgeKey)
    ensures k in a + b + c + d <==> k in a || k in b || k in c || k in d
  {
  }
}
