/** Which nodes the linked graph and the derived graph have (src/linked-memory.js:446-640, src/indexer.js:79-174). */
module GraphNodesMeaning {
  import opened Common
  import opened LinkedGraph
  import opened LinkedGraphMeaning
  import opened PosixPath
  import opened ProjectGraph

  // ---------- the structure ----------

  /** A name that a file refers to and that is no file of the snapshot. */
  ghost predicate NamedBy(paths: set<string>, file: ProjectFile, id: NodeId) {
    !id.File? && exists r :: r in file.references && RefersTo(paths, r, id)
  }

  ghost predicate OfFiles(paths: set<string>, files: seq<ProjectFile>, id: NodeId) {
    exists file :: file in files && (id == File(file.path) || NamedBy(paths, file, id))
  }

  ghost predicate IsStructureNode(s: Structure, id: NodeId) {
    || (s.worktree.Some? && id == Worktree(s.worktree.value))
    || (id.Directory? && id.path in s.directories)
    || OfFiles(FilePaths(s.files), s.files, id)
  }

  lemma {:induction false} ReferenceNodesMean(nodes: seq<NodeId>, paths: set<string>, references: seq<FileReference>,
                                              id: NodeId)
    ensures id in AddReferenceNodes(nodes, paths, references) <==>
              id in nodes || (!id.File? && exists r :: r in references && RefersTo(paths, r, id))
  {
    if references != [] {
      var front, last := references[..|references| - 1], references[|references| - 1];
      assert references == front + [last];
      ReferenceNodesMean(nodes, paths, front, id);
      assert RefersTo(paths, last, id) <==> id == TargetOf(paths, last);
    }
  }

  lemma OneMoreNode(paths: set<string>, front: seq<ProjectFile>, last: ProjectFile, id: NodeId)
    ensures OfFiles(paths, front + [last], id) <==> OfFiles(paths, front, id) || id == File(last.path) || NamedBy(paths, last, id)
  {
  }

  lemma {:induction false} FileNodesMean(nodes: seq<NodeId>, paths: set<string>, files: seq<ProjectFile>, id: NodeId)
    ensures id in AddFileNodes(nodes, paths, files) <==> id in nodes || OfFiles(paths, files, id)
  {
    if files != [] {
      var front, last := files[..|files| - 1], files[|files| - 1];
      assert files == front + [last];
      FileNodesMean(nodes, paths, front, id);
      var before := AddFileNodes(nodes, paths, front);
      ReferenceNodesMean(before + [File(last.path)], paths, last.references, id);
      OneMoreNode(paths, front, last, id);
    }
  }

  lemma DirectoryNodesMean(directories: seq<string>, id: NodeId)
    ensures id in DirectoryNodes(directories) <==> id.Directory? && id.path in directories
  {
    if id.Directory? && id.path in directories {
      var i :| 0 <= i < |directories| && directories[i] == id.path;
      assert DirectoryNodes(directories)[i] == id;
    }
  }

  lemma StructureNodesMean(nodes: seq<NodeId>, s: Structure, id: NodeId)
    ensures id in StructureNodes(nodes, s) <==> id in nodes || IsStructureNode(s, id)
  {
    DirectoryNodesMean(s.directories, id);
    FileNodesMean(nodes + (if s.worktree.Some? then [Worktree(s.worktree.value)] else []) + DirectoryNodes(s.directories),
                  FilePaths(s.files), s.files, id);
  }

  // ---------- linked memory ----------

  ghost predicate IsEventNode(events: seq<Event>, id: NodeId) { exists e :: e in events && id == Ledger(e.id) }

  /** An event, or a part of the current structure. */
  ghost predicate IsSourceNode(events: seq<Event>, current: Option<Current>, id: NodeId) {
    IsEventNode(events, id) || (current.Some? && IsStructureNode(current.value.structure, id))
  }

  lemma EventNodesMean(events: seq<Event>, id: NodeId)
    ensures id in EventNodes(events) <==> IsEventNode(events, id)
  {
    if id in EventNodes(events) {
      var i :| 0 <= i < |events| && EventNodes(events)[i] == id;
      assert events[i] in events;
    }
    if IsEventNode(events, id) {
      var e :| e in events && id == Ledger(e.id);
      var i :| 0 <= i < |events| && events[i] == e;
      assert EventNodes(events)[i] == id;
    }
  }

  lemma {:induction false} RelationNodesMean(nodes: seq<NodeId>, targets: seq<NodeId>, id: NodeId)
    ensures id in nodes ==> id in AddRelationNodes(nodes, targets)
    ensures id in AddRelationNodes(nodes, targets) ==>
              id in nodes || (id.RelationReference? && id.target in targets && id.target !in nodes)
    ensures id.RelationReference? && id.target in targets && id.target !in nodes && !id.target.RelationReference? ==>
              id in AddRelationNodes(nodes, targets)
  {
    if targets != [] {
      var front, last := targets[..|targets| - 1], targets[|targets| - 1];
      assert targets == front + [last];
      RelationNodesMean(nodes, front, id);
      RelationNodesMean(nodes, front, last);
    }
  }

  ghost predicate IsTargeted(events: seq<Event>, target: NodeId) {
    exists e, r :: e in events && r in e.relations && r.target == target
  }

  lemma {:induction false} RelationTargetsMean(events: seq<Event>, target: NodeId)
    ensures target in RelationTargets(events) <==> IsTargeted(events, target)
  {
    if events != [] {
      var front, last := events[..|events| - 1], events[|events| - 1];
      assert events == front + [last];
      RelationTargetsMean(front, target);
      TargetsInMean(last.relations, target);
    }
  }

  lemma TargetsInMean(relations: seq<Relation>, target: NodeId)
    ensures target in TargetsIn(relations) <==> exists r :: r in relations && r.target == target
  {
    if target in TargetsIn(relations) {
      var i :| 0 <= i < |relations| && TargetsIn(relations)[i] == target;
      assert relations[i] in relations;
    }
    if r :| r in relations && r.target == target {
      var i :| 0 <= i < |relations| && relations[i] == r;
      assert TargetsIn(relations)[i] == target;
    }
  }

  /**
   * Main result: besides concepts the graph has the projected events, the parts of the current structure, and
   * one reference node for every relation target that is neither.
   */
  lemma DocumentNodesMean(p: Projection, id: NodeId)
    ensures !id.RelationReference? ==> (id in DocumentNodes(p) <==> IsSourceNode(p.events, p.current, id))
    ensures id.RelationReference? && id in DocumentNodes(p) ==>
              IsTargeted(p.events, id.target) && !IsSourceNode(p.events, p.current, id.target)
    ensures id.RelationReference? && !id.target.RelationReference? ==>
              (id in DocumentNodes(p) <==> IsTargeted(p.events, id.target) && !IsSourceNode(p.events, p.current, id.target))
  {
    SourceNodesMean(p.events, p.current, id);
    RelationNodesMean(SourceNodes(p), RelationTargets(p.events), id);
    if id.RelationReference? {
      SourceNodesMean(p.events, p.current, id.target);
      RelationTargetsMean(p.events, id.target);
      NoRelationReference(p.events, p.current, id);
    }
  }

  ghost function SourceNodes(p: Projection): seq<NodeId> {
    if p.current.Some? then StructureNodes(EventNodes(p.events), p.current.value.structure) else EventNodes(p.events)
  }

  lemma SourceNodesMean(events: seq<Event>, current: Option<Current>, id: NodeId)
    ensures id in SourceNodes(Projection(events, current)) <==> IsSourceNode(events, current, id)
  {
    EventNodesMean(events, id);
    if current.Some? {
      StructureNodesMean(EventNodes(events), current.value.structure, id);
    }
  }

  lemma NoRelationReference(events: seq<Event>, current: Option<Current>, id: NodeId)
    requires id.RelationReference?
    ensures !IsSourceNode(events, current, id)
  {
  }

  // ---------- the derived graph ----------

  /** A file of the snapshot, or a node for the name, whether it was resolved or not. */
  ghost predicate RefersPlainly(paths: set<string>, r: FileReference, id: NodeId) {
    id == if r.target.Some? && r.target.value in paths then File(r.target.value) else Reference(false, r.kind + ":" + r.specifier)
  }

  lemma PlainMeans(paths: set<string>, r: FileReference, id: NodeId)
    ensures RefersTo(paths, PlainReference(paths, r), id) <==> RefersPlainly(paths, r, id)
    ensures PlainReference(paths, r).kind == r.kind
  {
  }

  ghost predicate RefersOfKind(paths: set<string>, references: seq<FileReference>, kind: string, id: NodeId) {
    exists r :: r in references && r.kind == kind && RefersPlainly(paths, r, id)
  }

  lemma PlainReferencesMean(paths: set<string>, references: seq<FileReference>, kind: string, id: NodeId)
    ensures (exists r :: r in PlainReferences(paths, references) && r.kind == kind && RefersTo(paths, r, id)) <==>
              RefersOfKind(paths, references, kind, id)
  {
    var plain := PlainReferences(paths, references);
    if r :| r in plain && r.kind == kind && RefersTo(paths, r, id) {
      var i :| 0 <= i < |plain| && plain[i] == r;
      PlainMeans(paths, references[i], id);
      assert references[i] in references;
    }
    if RefersOfKind(paths, references, kind, id) {
      var r :| r in references && r.kind == kind && RefersPlainly(paths, r, id);
      var i :| 0 <= i < |references| && references[i] == r;
      PlainMeans(paths, r, id);
      assert plain[i] in plain;
    }
  }

  /** A relation of an event, with its target as it is named. */
  ghost predicate IsEventRelation(events: seq<Event>, k: EdgeKey) {
    exists e, r :: e in events && r in e.relations && k == EdgeKey(Ledger(e.id), r.kind, r.target)
  }

  ghost predicate IsFileEdge(directories: seq<string>, paths: set<string>, file: ProjectFile, k: EdgeKey) {
    || IsChild(directories, file.path, File(file.path), k)
    || (k.source == File(file.path) && RefersOfKind(paths, file.references, k.kind, k.target))
  }

  ghost predicate IsProjectEdge(c: Current, k: EdgeKey) {
    var s := c.structure;
    || IsSubdirectory(s.directories, s.directories, k)
    || (exists file :: file in s.files && IsFileEdge(s.directories, FilePaths(s.files), file, k))
    || IsRoot(c, k)
  }

  lemma PlainFileMeans(directories: seq<string>, paths: set<string>, files: seq<ProjectFile>, k: EdgeKey)
    ensures IsOfSomeFile(directories, paths, PlainFiles(paths, files), k) <==>
              exists file :: file in files && IsFileEdge(directories, paths, file, k)
  {
    var plain := PlainFiles(paths, files);
    forall i | 0 <= i < |files| ensures IsOfFile(directories, paths, plain[i], k) <==> IsFileEdge(directories, paths, files[i], k) {
      PlainReferencesMean(paths, files[i].references, k.kind, k.target);
    }
    if IsOfSomeFile(directories, paths, plain, k) {
      var file :| file in plain && IsOfFile(directories, paths, file, k);
      var i :| 0 <= i < |plain| && plain[i] == file;
      assert files[i] in files;
    }
    if file :| file in files && IsFileEdge(directories, paths, file, k) {
      var i :| 0 <= i < |files| && files[i] == file;
      assert plain[i] in plain;
    }
  }

  lemma {:induction false} RelationKeysMean(events: seq<Event>, k: EdgeKey)
    ensures k in RelationKeys(events) <==> IsEventRelation(events, k)
  {
    if events != [] {
      RelationKeysMean(events[1..], k);
      assert events == [events[0]] + events[1..];
      RelationKeysOfMean(events[0].id, events[0].relations, k);
    }
  }

  lemma RelationKeysOfMean(id: string, relations: seq<Relation>, k: EdgeKey)
    ensures k in RelationKeysOf(id, relations) <==> exists r :: r in relations && k == EdgeKey(Ledger(id), r.kind, r.target)
  {
    var keys := RelationKeysOf(id, relations);
    if k in keys {
      var i :| 0 <= i < |keys| && keys[i] == k;
      assert relations[i] in relations;
    }
    if r :| r in relations && k == EdgeKey(Ledger(id), r.kind, r.target) {
      var i :| 0 <= i < |relations| && relations[i] == r;
      assert keys[i] == k;
    }
  }

  lemma PlainStored(c: Current)
    requires StoredPaths(c.structure)
    ensures StoredPaths(Plain(c).structure)
  {
    var files, plain := c.structure.files, Plain(c).structure.files;
    forall file | file in plain ensures Relative(file.path) {
      var i :| 0 <= i < |plain| && plain[i] == file;
      assert files[i] in files;
    }
  }

  /** Main result: before closing, the edges are the relations of the events and those of the current structure. */
  lemma GraphKeysMean(events: seq<Event>, current: Option<Current>, k: EdgeKey)
    requires current.Some? ==> StoredPaths(current.value.structure)
    ensures k in GraphKeys(events, current) <==> IsEventRelation(events, k) || (current.Some? && IsProjectEdge(current.value, k))
  {
    RelationKeysMean(events, k);
    if current.Some? {
      var c := current.value;
      PlainStored(c);
      StructureMeans(Plain(c), k);
      PlainPaths(FilePaths(c.structure.files), c.structure.files);
      PlainFileMeans(c.structure.directories, FilePaths(c.structure.files), c.structure.files, k);
    }
  }

  /** And the nodes are the events and the parts of the structure, one for every name outside the snapshot. */
  lemma GraphNodesMean(events: seq<Event>, current: Option<Current>, id: NodeId)
    ensures id in GraphNodes(events, current) <==>
              || IsEventNode(events, id)
              || (current.Some? &&
                    var s := current.value.structure;
                    || (s.worktree.Some? && id == Worktree(s.worktree.value))
                    || (id.Directory? && id.path in s.directories)
                    || (id.File? && id.path in FilePaths(s.files))
                    || (id.Reference? && exists file, r :: file in s.files && r in file.references && RefersPlainly(FilePaths(s.files), r, id)))
  {
    SourceNodesMean(events, if current.Some? then Some(Plain(current.value)) else None, id);
    if current.Some? {
      PlainNodes(current.value, id);
    }
  }

  lemma PlainNodes(c: Current, id: NodeId)
    ensures var s := c.structure;
            OfFiles(FilePaths(Plain(c).structure.files), Plain(c).structure.files, id) <==>
              || (id.File? && id.path in FilePaths(s.files))
              || (id.Reference? && exists file, r :: file in s.files && r in file.references && RefersPlainly(FilePaths(s.files), r, id))
  {
    var files, plain := c.structure.files, Plain(c).structure.files;
    var paths := FilePaths(files);
    PlainPaths(paths, files);
    if OfFiles(paths, plain, id) {
      var file :| file in plain && (id == File(file.path) || NamedBy(paths, file, id));
      var i :| 0 <= i < |plain| && plain[i] == file;
      assert files[i] in files;
      if NamedBy(paths, file, id) {
        var r :| r in file.references && RefersTo(paths, r, id);
        PlainReferencesMean(paths, files[i].references, r.kind, id);
      }
    }
    if id.File? && id.path in paths {
      var i :| 0 <= i < |files| && files[i].path == id.path;
      assert plain[i] in plain;
    }
    if id.Reference? {
      if file, r :| file in files && r in file.references && RefersPlainly(paths, r, id) {
        var i :| 0 <= i < |files| && files[i] == file;
        PlainReferencesMean(paths, file.references, r.kind, id);
        assert plain[i] in plain;
      }
    }
  }
}
