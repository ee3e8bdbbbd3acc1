/**
 * The linked memory graph of src/linked-memory.js: which events, relations and file references are
 * projected, which nodes and edges the assembly inserts, and the caps both obey.
 *
 * Node identities derived by hashing are idealised as distinct values, one constructor per kind.
 */
module LinkedGraph {
  import opened Common
  import opened PosixPath
  import opened StringOrder

  const MAX_GRAPH_EVENTS := 10_000
  const MAX_GRAPH_RELATIONS := 20_000
  const MAX_GRAPH_FILE_REFERENCES := 20_000
  const MAX_GRAPH_REFERENCES_PER_FILE := 64
  const MAX_GRAPH_NODES := 75_000
  const MAX_GRAPH_EDGES := 450_000
  const MAX_CONCEPTS := 64
  const MAX_ABOUT_EDGES_PER_NODE := 6
  const MAX_DIRECTORIES := 10_000
  const MAX_FILES := 5_000

  // ---------- inputs ----------

  datatype NodeId =
    | Ledger(name: string)
    | Worktree(name: string)
    | Directory(path: string)
    | File(path: string)
    | Reference(unresolved: bool, key: string)
    | RelationReference(target: NodeId)
    | Concept(term: string)

  datatype Relation = Relation(kind: string, target: NodeId)

  datatype FileReference = FileReference(kind: string, specifier: string, target: Option<string>)

  datatype ProjectFile = ProjectFile(path: string, references: seq<FileReference>)

  datatype Structure = Structure(directories: seq<string>, files: seq<ProjectFile>, worktree: Option<string>)

  datatype Event = Event(id: string, timestamp: int, relations: seq<Relation>, structure: Option<Structure>)

  ghost predicate UniqueIds(events: seq<Event>) {
    forall i, j :: 0 <= i < j < |events| ==> events[i].id != events[j].id
  }

  /** What the snapshot validator guarantees of a structure. */
  ghost predicate ValidStructure(s: Structure) {
    && |s.directories| <= MAX_DIRECTORIES && |s.files| <= MAX_FILES
    && "." in s.directories
    && Distinct(s.directories)
    && forall i, j :: 0 <= i < j < |s.files| ==> s.files[i].path != s.files[j].path
  }

  /** And of its paths. */
  ghost predicate StoredPaths(s: Structure) {
    && (forall path :: path in s.directories ==> Relative(path))
    && (forall file :: file in s.files ==> Relative(file.path))
  }

  ghost predicate ValidEvents(events: seq<Event>) {
    && UniqueIds(events)
    && forall i :: 0 <= i < |events| && events[i].structure.Some? ==> ValidStructure(events[i].structure.value)
  }

  // ---------- projection ----------

  predicate AnyEvent(events: seq<Event>, id: NodeId) {
    exists i :: 0 <= i < |events| && Ledger(events[i].id) == id
  }

  /** Position of the last event that carries a project structure, or -1. */
  function LatestStructure(events: seq<Event>): (r: int)
    ensures -1 <= r < |events|
    ensures r >= 0 ==> events[r].structure.Some?
    ensures forall i :: r < i < |events| ==> events[i].structure.None?
  {
    if events == [] then -1
    else if events[|events| - 1].structure.Some? then |events| - 1
    else LatestStructure(events[..|events| - 1])
  }

  /** The newest events; the event of the current structure takes the oldest place if it is not among them. */
  function ProjectedEvents(events: seq<Event>): seq<Event> {
    var latest := LatestStructure(events);
    var first := Max(0, |events| - MAX_GRAPH_EVENTS);
    if latest >= 0 && latest < first then [events[latest]] + events[first + 1..] else events[first..]
  }

  /** A relation is dropped when its target is a source event that is not projected. */
  predicate Admissible(source: seq<Event>, projected: seq<Event>, r: Relation) {
    !AnyEvent(source, r.target) || AnyEvent(projected, r.target)
  }

  function AdmissibleOf(source: seq<Event>, projected: seq<Event>, relations: seq<Relation>): (kept: seq<Relation>)
    ensures |kept| <= |relations|
  {
    if relations == [] then []
    else
      var last := relations[|relations| - 1];
      AdmissibleOf(source, projected, relations[..|relations| - 1]) + if Admissible(source, projected, last) then [last] else []
  }

  /** Relations kept for the events from position `i` on: newest event first, in order within an event. */
  function KeptFrom(source: seq<Event>, projected: seq<Event>, i: nat): (kept: seq<seq<Relation>>)
    requires i <= |projected|
    ensures |kept| == |projected| - i
    decreases |projected| - i
  {
    if i == |projected| then []
    else
      var newer := KeptFrom(source, projected, i + 1);
      var mine := AdmissibleOf(source, projected, projected[i].relations);
      [mine[..Min(|mine|, Max(0, MAX_GRAPH_RELATIONS - TotalOf(newer)))]] + newer
  }

  function TotalOf<T>(lists: seq<seq<T>>): nat {
    if lists == [] then 0 else |lists[0]| + TotalOf(lists[1..])
  }

  lemma {:induction false} KeptWithinCap(source: seq<Event>, projected: seq<Event>, i: nat)
    requires i <= |projected|
    ensures TotalOf(KeptFrom(source, projected, i)) <= MAX_GRAPH_RELATIONS
    decreases |projected| - i
  {
    if i < |projected| {
      KeptWithinCap(source, projected, i + 1);
      assert KeptFrom(source, projected, i)[1..] == KeptFrom(source, projected, i + 1);
    }
  }

  /** An event loses an admissible relation only when the cap is used up by it and newer events. */
  lemma NewestFirst(source: seq<Event>, projected: seq<Event>, i: nat)
    requires i < |projected|
    requires KeptFrom(source, projected, i)[0] != AdmissibleOf(source, projected, projected[i].relations)
    ensures TotalOf(KeptFrom(source, projected, i)) == MAX_GRAPH_RELATIONS
  {
    KeptWithinCap(source, projected, i + 1);
    assert KeptFrom(source, projected, i)[1..] == KeptFrom(source, projected, i + 1);
    var mine := AdmissibleOf(source, projected, projected[i].relations);
    assert mine[..|mine|] == mine;
  }

  function Trim(file: ProjectFile, remaining: nat): (r: ProjectFile)
    ensures r.path == file.path && r.references <= file.references && |r.references| <= remaining
  {
    file.(references := file.references[..Min(|file.references|, Min(MAX_GRAPH_REFERENCES_PER_FILE, remaining))])
  }

  /** References kept for the files from position `i` on, given what earlier files left of the cap. */
  function KeptReferences(files: seq<ProjectFile>, remaining: nat): seq<ProjectFile> {
    if files == [] then []
    else
      var first := Trim(files[0], remaining);
      [first] + KeptReferences(files[1..], remaining - |first.references|)
  }

  lemma {:induction false} KeptReferencesFacts(files: seq<ProjectFile>, remaining: nat)
    ensures var kept := KeptReferences(files, remaining);
            && |kept| == |files| && CountReferences(kept) <= remaining
            && forall i :: 0 <= i < |files| ==> kept[i].path == files[i].path && kept[i].references <= files[i].references
  {
    if files != [] {
      var first := Trim(files[0], remaining);
      var rest := KeptReferences(files[1..], remaining - |first.references|);
      KeptReferencesFacts(files[1..], remaining - |first.references|);
      assert KeptReferences(files, remaining)[1..] == rest;
      forall i | 0 < i < |files| ensures rest[i - 1].path == files[i].path && rest[i - 1].references <= files[i].references {
        assert files[1..][i - 1] == files[i];
      }
    }
  }

  function CountReferences(files: seq<ProjectFile>): nat {
    if files == [] then 0 else |files[0].references| + CountReferences(files[1..])
  }

  function CountRelations(events: seq<Event>): nat {
    if events == [] then 0 else |events[0].relations| + CountRelations(events[1..])
  }

  function WithRelations(events: seq<Event>, kept: seq<seq<Relation>>): (r: seq<Event>)
    requires |kept| == |events|
    ensures |r| == |events|
    ensures forall i :: 0 <= i < |events| ==> r[i] == events[i].(relations := kept[i])
  {
    seq(|events|, i requires 0 <= i < |events| => events[i].(relations := kept[i]))
  }

  /** What is assembled: the projected events, and the current structure with the event that carries it. */
  datatype Projection = Projection(events: seq<Event>, current: Option<Current>)

  datatype Current = Current(eventId: string, structure: Structure)

  function Project(source: seq<Event>): Projection {
    var projected := ProjectedEvents(source);
    var events := WithRelations(projected, KeptFrom(source, projected, 0));
    var latest := LatestStructure(source);
    Projection(events,
      if latest < 0 then None
      else
        var s := source[latest].structure.value;
        Some(Current(source[latest].id, s.(files := KeptReferences(s.files, MAX_GRAPH_FILE_REFERENCES)))))
  }

  /** What assembly relies on; established by `Project` from valid events. */
  ghost predicate ValidProjection(p: Projection) {
    && UniqueIds(p.events) && |p.events| <= MAX_GRAPH_EVENTS && CountRelations(p.events) <= MAX_GRAPH_RELATIONS
    && (p.current.Some? ==>
          && ValidStructure(p.current.value.structure)
          && CountReferences(p.current.value.structure.files) <= MAX_GRAPH_FILE_REFERENCES
          && AnyEvent(p.events, Ledger(p.current.value.eventId)))
  }

  lemma {:induction false} CountIsTotal(events: seq<Event>, kept: seq<seq<Relation>>)
    requires |kept| == |events| && forall i :: 0 <= i < |events| ==> events[i].relations == kept[i]
    ensures CountRelations(events) == TotalOf(kept)
  {
    if events != [] {
      CountIsTotal(events[1..], kept[1..]);
    }
  }

  lemma ProjectedEventsFacts(source: seq<Event>)
    requires UniqueIds(source)
    ensures UniqueIds(ProjectedEvents(source)) && |ProjectedEvents(source)| <= MAX_GRAPH_EVENTS
    ensures LatestStructure(source) >= 0 ==>
              exists i :: 0 <= i < |ProjectedEvents(source)| && ProjectedEvents(source)[i] == source[LatestStructure(source)]
  {
    var latest := LatestStructure(source);
    var first := Max(0, |source| - MAX_GRAPH_EVENTS);
    var projected := ProjectedEvents(source);
    if latest >= 0 && latest < first {
      assert projected[0] == source[latest];
    } else if latest >= 0 {
      assert projected[latest - first] == source[latest];
    }
  }

  lemma ProjectIsValid(source: seq<Event>)
    requires ValidEvents(source)
    ensures ValidProjection(Project(source))
  {
    var projected := ProjectedEvents(source);
    var kept := KeptFrom(source, projected, 0);
    var p := Project(source);
    ProjectedEventsFacts(source);
    KeptWithinCap(source, projected, 0);
    CountIsTotal(p.events, kept);
    var latest := LatestStructure(source);
    if latest >= 0 {
      KeptReferencesFacts(source[latest].structure.value.files, MAX_GRAPH_FILE_REFERENCES);
      var i :| 0 <= i < |projected| && projected[i] == source[latest];
      assert Ledger(p.events[i].id) == Ledger(p.current.value.eventId);
    }
  }

  // ---------- nodes ----------

  function EventNodes(events: seq<Event>): seq<NodeId> {
    seq(|events|, i requires 0 <= i < |events| => Ledger(events[i].id))
  }

  function FilePaths(files: seq<ProjectFile>): set<string> {
    set i | 0 <= i < |files| :: files[i].path
  }

  /** A reference leads to a file of the snapshot, or to a node for the unresolved or external name. */
  function TargetOf(paths: set<string>, r: FileReference): NodeId {
    if r.target.Some? && r.target.value in paths then File(r.target.value)
    else Reference(r.target.Some?, r.kind + ":" + r.specifier)
  }

  function AddMissing(nodes: seq<NodeId>, id: NodeId): seq<NodeId> {
    if id in nodes then nodes else nodes + [id]
  }

  function AddReferenceNodes(nodes: seq<NodeId>, paths: set<string>, references: seq<FileReference>): seq<NodeId> {
    if references == [] then nodes
    else
      var before := AddReferenceNodes(nodes, paths, references[..|references| - 1]);
      var id := TargetOf(paths, references[|references| - 1]);
      if id.File? then before else AddMissing(before, id)
  }

  function AddFileNode(nodes: seq<NodeId>, paths: set<string>, file: ProjectFile): seq<NodeId> {
    AddReferenceNodes(nodes + [File(file.path)], paths, file.references)
  }

  function AddFileNodes(nodes: seq<NodeId>, paths: set<string>, files: seq<ProjectFile>): seq<NodeId> {
    if files == [] then nodes
    else
      AddFileNode(AddFileNodes(nodes, paths, files[..|files| - 1]), paths, files[|files| - 1])
  }

  function DirectoryNodes(directories: seq<string>): seq<NodeId> {
    seq(|directories|, i requires 0 <= i < |directories| => Directory(directories[i]))
  }

  function StructureNodes(nodes: seq<NodeId>, s: Structure): seq<NodeId> {
    AddFileNodes(nodes + (if s.worktree.Some? then [Worktree(s.worktree.value)] else []) + DirectoryNodes(s.directories),
                 FilePaths(s.files), s.files)
  }

  function TargetsIn(relations: seq<Relation>): seq<NodeId> {
    seq(|relations|, i requires 0 <= i < |relations| => relations[i].target)
  }

  function RelationTargets(events: seq<Event>): seq<NodeId> {
    if events == [] then []
    else
      RelationTargets(events[..|events| - 1]) + TargetsIn(events[|events| - 1].relations)
  }

  /** A relation to something that is no node gets a reference node, once per target. */
  function AddRelationNodes(nodes: seq<NodeId>, targets: seq<NodeId>): seq<NodeId> {
    if targets == [] then nodes
    else
      var before := AddRelationNodes(nodes, targets[..|targets| - 1]);
      var target := targets[|targets| - 1];
      if target in before then before else AddMissing(before, RelationReference(target))
  }

  /** All nodes but the concepts. */
  function DocumentNodes(p: Projection): seq<NodeId> {
    var events := EventNodes(p.events);
    var structured := if p.current.Some? then StructureNodes(events, p.current.value.structure) else events;
    AddRelationNodes(structured, RelationTargets(p.events))
  }

  /** The concepts are the at most 64 best terms; how terms are scored is a parameter. */
  datatype Terms = Terms(concepts: seq<string>, signature: NodeId -> seq<string>)

  ghost predicate ValidTerms(t: Terms) { |t.concepts| <= MAX_CONCEPTS && Distinct(t.concepts) }

  function ConceptNodes(concepts: seq<string>): seq<NodeId> {
    seq(|concepts|, i requires 0 <= i < |concepts| => Concept(concepts[i]))
  }

  function Nodes(p: Projection, t: Terms): seq<NodeId> { DocumentNodes(p) + ConceptNodes(t.concepts) }

  // ---------- the calls to addEdge ----------

  datatype EdgeKey = EdgeKey(source: NodeId, kind: string, target: NodeId)

  function Precedes(timeline: seq<Event>): seq<EdgeKey> {
    if |timeline| < 2 then []
    else
      var n := |timeline|;
      Precedes(timeline[..n - 1]) + [EdgeKey(Ledger(timeline[n - 2].id), "precedes", Ledger(timeline[n - 1].id))]
  }

  function ParentEdge(directories: seq<string>, path: string, child: NodeId): seq<EdgeKey> {
    if Dirname(path) in directories then [EdgeKey(Directory(Dirname(path)), "contains", child)] else []
  }

  function DirectoryEdges(all: seq<string>, directories: seq<string>): seq<EdgeKey> {
    if directories == [] then []
    else
      var last := directories[|directories| - 1];
      DirectoryEdges(all, directories[..|directories| - 1]) + if last == "." then [] else ParentEdge(all, last, Directory(last))
  }

  function ReferenceEdges(paths: set<string>, path: string, references: seq<FileReference>): seq<EdgeKey> {
    if references == [] then []
    else
      var last := references[|references| - 1];
      ReferenceEdges(paths, path, references[..|references| - 1]) + [EdgeKey(File(path), last.kind, TargetOf(paths, last))]
  }

  function EdgesOfFile(directories: seq<string>, paths: set<string>, file: ProjectFile): seq<EdgeKey> {
    ParentEdge(directories, file.path, File(file.path)) + ReferenceEdges(paths, file.path, file.references)
  }

  function FileEdges(directories: seq<string>, paths: set<string>, files: seq<ProjectFile>): seq<EdgeKey> {
    if files == [] then []
    else
      var last := files[|files| - 1];
      FileEdges(directories, paths, files[..|files| - 1]) + EdgesOfFile(directories, paths, last)
  }

  function RootEdges(c: Current): seq<EdgeKey> {
    if "." !in c.structure.directories then []
    else
      (if c.structure.worktree.Some? then [EdgeKey(Worktree(c.structure.worktree.value), "contains", Directory("."))] else [])
      + [EdgeKey(Ledger(c.eventId), "produced", Directory("."))]
  }

  function StructureEdges(c: Current): seq<EdgeKey> {
    DirectoryEdges(c.structure.directories, c.structure.directories)
    + FileEdges(c.structure.directories, FilePaths(c.structure.files), c.structure.files)
    + RootEdges(c)
  }

  function Resolve(nodes: seq<NodeId>, target: NodeId): NodeId {
    if target in nodes then target else RelationReference(target)
  }

  function RelationEdgesOf(nodes: seq<NodeId>, id: string, relations: seq<Relation>): seq<EdgeKey> {
    if relations == [] then []
    else
      var last := relations[|relations| - 1];
      RelationEdgesOf(nodes, id, relations[..|relations| - 1]) + [EdgeKey(Ledger(id), last.kind, Resolve(nodes, last.target))]
  }

  function RelationEdges(nodes: seq<NodeId>, events: seq<Event>): seq<EdgeKey> {
    if events == [] then []
    else
      var last := events[|events| - 1];
      RelationEdges(nodes, events[..|events| - 1]) + RelationEdgesOf(nodes, last.id, last.relations)
  }

  /** The terms of a signature that are concepts, in signature order. */
  function ConceptTerms(signature: seq<string>, concepts: seq<string>): seq<string> {
    if signature == [] then []
    else
      var last := signature[|signature| - 1];
      ConceptTerms(signature[..|signature| - 1], concepts) + if last in concepts then [last] else []
  }

  function AboutTerms(signature: seq<string>, concepts: seq<string>): seq<string> {
    var terms := ConceptTerms(signature, concepts);
    terms[..Min(|terms|, MAX_ABOUT_EDGES_PER_NODE)]
  }

  function AboutEdgesOf(id: NodeId, terms: seq<string>): seq<EdgeKey> {
    if terms == [] then [] else AboutEdgesOf(id, terms[..|terms| - 1]) + [EdgeKey(id, "about", Concept(terms[|terms| - 1]))]
  }

  function AboutEdges(nodes: seq<NodeId>, t: Terms): seq<EdgeKey> {
    if nodes == [] then []
    else
      var last := nodes[|nodes| - 1];
      AboutEdges(nodes[..|nodes| - 1], t)
      + if last.Directory? then [] else AboutEdgesOf(last, AboutTerms(t.signature(last), t.concepts))
  }

  /** Every call to addEdge, in order; `timeline` is the projected events sorted by time. */
  function Attempts(p: Projection, timeline: seq<Event>, t: Terms): seq<EdgeKey> {
    Precedes(timeline)
    + (if p.current.Some? then StructureEdges(p.current.value) else [])
    + RelationEdges(DocumentNodes(p), p.events)
    + AboutEdges(DocumentNodes(p), t)
  }

  /** By time, and by name at the same time. */
  predicate Earlier(a: Event, b: Event) {
    a.timestamp < b.timestamp || (a.timestamp == b.timestamp && Less(a.id, b.id))
  }

  /** The projected events in order of time. */
  ghost predicate IsTimeline(p: Projection, timeline: seq<Event>) {
    && multiset(timeline) == multiset(p.events)
    && forall i, j :: 0 <= i < j < |timeline| ==> Earlier(timeline[i], timeline[j])
  }

  lemma TimelineMembers(p: Projection, timeline: seq<Event>)
    requires IsTimeline(p, timeline)
    ensures |timeline| == |p.events| && forall e :: e in timeline <==> e in p.events
  {
    assert |multiset(timeline)| == |multiset(p.events)|;
    assert forall e :: e in timeline <==> e in multiset(timeline);
  }
}
