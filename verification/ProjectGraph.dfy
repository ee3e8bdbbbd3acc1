/** Project nodes and edges of the derived graph (src/indexer.js:79-174, 283-303), and its closure. */
module ProjectGraph {
  import opened Common
  import opened LinkedGraph
  import opened LinkedGraphFacts
  import opened DerivedGraph
  import opened PosixPath

  // Here a reference that leads to no file of the snapshot gets one node per kind and specifier, whether
  // it named a target or not; linked memory keeps the two apart. Forgetting such targets makes them agree.

  function PlainReference(paths: set<string>, r: FileReference): FileReference {
    if r.target.Some? && r.target.value in paths then r else r.(target := None)
  }

  function PlainReferences(paths: set<string>, references: seq<FileReference>): seq<FileReference> {
    seq(|references|, i requires 0 <= i < |references| => PlainReference(paths, references[i]))
  }

  function PlainFiles(paths: set<string>, files: seq<ProjectFile>): seq<ProjectFile> {
    seq(|files|, i requires 0 <= i < |files| => files[i].(references := PlainReferences(paths, files[i].references)))
  }

  function Plain(c: Current): Current {
    c.(structure := c.structure.(files := PlainFiles(FilePaths(c.structure.files), c.structure.files)))
  }

  lemma PlainIsValid(c: Current)
    requires ValidStructure(c.structure)
    ensures ValidStructure(Plain(c).structure) && FilePaths(Plain(c).structure.files) == FilePaths(c.structure.files)
  {
    PlainPaths(FilePaths(c.structure.files), c.structure.files);
  }

  lemma PlainPaths(paths: set<string>, files: seq<ProjectFile>)
    ensures FilePaths(PlainFiles(paths, files)) == FilePaths(files)
  {
    var plain := PlainFiles(paths, files);
    forall x | x in FilePaths(files) ensures x in FilePaths(plain) {
      var i :| 0 <= i < |files| && files[i].path == x;
      assert plain[i].path == x;
    }
    forall x | x in FilePaths(plain) ensures x in FilePaths(files) {
      var i :| 0 <= i < |plain| && plain[i].path == x;
      assert files[i].path == x;
    }
  }

  // ---------- the loops ----------

  method AppendDirectories(nodes: seq<NodeId>, edges: seq<EdgeKey>, directories: seq<string>)
    returns (moreNodes: seq<NodeId>, moreEdges: seq<EdgeKey>)
    ensures moreNodes == nodes + DirectoryNodes(directories)
    ensures moreEdges == edges + DirectoryEdges(directories, directories)
  {
    moreNodes, moreEdges := nodes, edges;
    for i := 0 to |directories|
      invariant moreNodes == nodes + DirectoryNodes(directories)[..i]
      invariant moreEdges == edges + DirectoryEdges(directories, directories[..i])
    {
      var path := directories[i];
      assert directories[..i + 1][..i] == directories[..i];
      assert DirectoryNodes(directories)[..i + 1] == DirectoryNodes(directories)[..i] + [Directory(path)];
      moreNodes := moreNodes + [Directory(path)];
      if path != "." && Dirname(path) in directories {
        moreEdges := moreEdges + [EdgeKey(Directory(Dirname(path)), "contains", Directory(path))];
      }
    }
    assert directories[..|directories|] == directories;
  }

  /** The table of reference nodes agrees with the node list. */
  ghost predicate Tabled(modules: map<string, NodeId>, nodes: seq<NodeId>) {
    && (forall k :: k in modules <==> Reference(false, k) in nodes)
    && (forall k :: k in modules ==> modules[k] == Reference(false, k))
  }

  lemma ReferenceStep(nodes: seq<NodeId>, edges: seq<EdgeKey>, paths: set<string>, path: string,
                      references: seq<FileReference>, i: nat)
    requires i < |references|
    ensures var plain := PlainReferences(paths, references);
            var before := AddReferenceNodes(nodes, paths, plain[..i]);
            && plain[i] == PlainReference(paths, references[i])
            && AddReferenceNodes(nodes, paths, plain[..i + 1])
                 == (if TargetOf(paths, plain[i]).File? then before else AddMissing(before, TargetOf(paths, plain[i])))
            && edges + ReferenceEdges(paths, path, plain[..i + 1])
                 == edges + ReferenceEdges(paths, path, plain[..i]) + [EdgeKey(File(path), plain[i].kind, TargetOf(paths, plain[i]))]
  {
    var plain := PlainReferences(paths, references);
    assert plain[..i + 1][..i] == plain[..i];
  }

  method AppendReferences(nodes: seq<NodeId>, edges: seq<EdgeKey>, modules: map<string, NodeId>, paths: set<string>,
                          path: string, references: seq<FileReference>)
    returns (moreNodes: seq<NodeId>, moreEdges: seq<EdgeKey>, moreModules: map<string, NodeId>)
    requires Tabled(modules, nodes)
    ensures Tabled(moreModules, moreNodes)
    ensures moreNodes == AddReferenceNodes(nodes, paths, PlainReferences(paths, references))
    ensures moreEdges == edges + ReferenceEdges(paths, path, PlainReferences(paths, references))
  {
    moreNodes, moreEdges, moreModules := nodes, edges, modules;
    ghost var plain := PlainReferences(paths, references);
    for i := 0 to |references|
      invariant Tabled(moreModules, moreNodes)
      invariant moreNodes == AddReferenceNodes(nodes, paths, plain[..i])
      invariant moreEdges == edges + ReferenceEdges(paths, path, plain[..i])
    {
      ReferenceStep(nodes, edges, paths, path, references, i);
      var reference := references[i];
      var target: NodeId;
      if reference.target.Some? && reference.target.value in paths {
        target := File(reference.target.value);
      } else {
        var key := reference.kind + ":" + reference.specifier;
        if key in moreModules {
          target := moreModules[key];
        } else {
          target := Reference(false, key);
          moreModules, moreNodes := moreModules[key := target], moreNodes + [target];
        }
      }
      moreEdges := moreEdges + [EdgeKey(File(path), reference.kind, target)];
    }
    assert plain[..|references|] == plain;
  }

  lemma FileStep(nodes: seq<NodeId>, edges: seq<EdgeKey>, directories: seq<string>, paths: set<string>,
                 files: seq<ProjectFile>, i: nat)
    requires i < |files|
    ensures var plain := PlainFiles(paths, files);
            && plain[i] == files[i].(references := PlainReferences(paths, files[i].references))
            && AddFileNodes(nodes, paths, plain[..i + 1]) == AddFileNode(AddFileNodes(nodes, paths, plain[..i]), paths, plain[i])
            && edges + FileEdges(directories, paths, plain[..i + 1])
                 == edges + FileEdges(directories, paths, plain[..i]) + EdgesOfFile(directories, paths, plain[i])
  {
    var plain := PlainFiles(paths, files);
    assert plain[..i + 1][..i] == plain[..i];
  }

  method AppendFile(nodes: seq<NodeId>, edges: seq<EdgeKey>, modules: map<string, NodeId>, directories: seq<string>,
                    paths: set<string>, file: ProjectFile)
    returns (moreNodes: seq<NodeId>, moreEdges: seq<EdgeKey>, moreModules: map<string, NodeId>)
    requires Tabled(modules, nodes)
    ensures var plain := file.(references := PlainReferences(paths, file.references));
            && Tabled(moreModules, moreNodes)
            && moreNodes == AddFileNode(nodes, paths, plain) && moreEdges == edges + EdgesOfFile(directories, paths, plain)
  {
    var parent := if Dirname(file.path) in directories then [EdgeKey(Directory(Dirname(file.path)), "contains", File(file.path))] else [];
    assert Tabled(modules, nodes + [File(file.path)]);
    moreNodes, moreEdges, moreModules :=
      AppendReferences(nodes + [File(file.path)], edges + parent, modules, paths, file.path, file.references);
  }

  method AppendFiles(nodes: seq<NodeId>, edges: seq<EdgeKey>, directories: seq<string>, paths: set<string>,
                     files: seq<ProjectFile>)
    returns (moreNodes: seq<NodeId>, moreEdges: seq<EdgeKey>)
    requires forall x :: x in nodes ==> !x.Reference?
    ensures moreNodes == AddFileNodes(nodes, paths, PlainFiles(paths, files))
    ensures moreEdges == edges + FileEdges(directories, paths, PlainFiles(paths, files))
  {
    moreNodes, moreEdges := nodes, edges;
    var modules: map<string, NodeId> := map[];
    ghost var plain := PlainFiles(paths, files);
    for i := 0 to |files|
      invariant Tabled(modules, moreNodes)
      invariant moreNodes == AddFileNodes(nodes, paths, plain[..i])
      invariant moreEdges == edges + FileEdges(directories, paths, plain[..i])
    {
      FileStep(nodes, edges, directories, paths, files, i);
      moreNodes, moreEdges, modules := AppendFile(moreNodes, moreEdges, modules, directories, paths, files[i]);
    }
    assert plain[..|files|] == plain;
  }

  method AppendRoot(edges: seq<EdgeKey>, c: Current) returns (moreEdges: seq<EdgeKey>)
    ensures moreEdges == edges + RootEdges(c)
  {
    moreEdges := edges;
    if "." in c.structure.directories {
      if c.structure.worktree.Some? {
        moreEdges := moreEdges + [EdgeKey(Worktree(c.structure.worktree.value), "contains", Directory("."))];
      }
      moreEdges := moreEdges + [EdgeKey(Ledger(c.eventId), "produced", Directory("."))];
    }
  }

  lemma PlainRoot(c: Current)
    ensures RootEdges(Plain(c)) == RootEdges(c)
  {
  }

  lemma FourParts<T>(a: seq<T>, b: seq<T>, c: seq<T>, d: seq<T>)
    ensures a + (b + c + d) == a + b + c + d
  {
  }

  lemma PlainParts(nodes: seq<NodeId>, edges: seq<EdgeKey>, c: Current)
    ensures var s, paths := c.structure, FilePaths(c.structure.files);
            && RootEdges(Plain(c)) == RootEdges(c)
            && StructureNodes(nodes, Plain(c).structure)
                 == AddFileNodes(nodes + (if s.worktree.Some? then [Worktree(s.worktree.value)] else []) + DirectoryNodes(s.directories),
                                 paths, PlainFiles(paths, s.files))
            && edges + StructureEdges(Plain(c))
                 == edges + DirectoryEdges(s.directories, s.directories)
                    + FileEdges(s.directories, paths, PlainFiles(paths, s.files)) + RootEdges(c)
  {
    var s, paths := c.structure, FilePaths(c.structure.files);
    PlainPaths(paths, s.files);
    PlainRoot(c);
    FourParts(edges, DirectoryEdges(s.directories, s.directories), FileEdges(s.directories, paths, PlainFiles(paths, s.files)), RootEdges(c));
  }

  /** The nodes and edges of the current structure, appended to those of the events. */
  method AppendProjectGraph(nodes: seq<NodeId>, edges: seq<EdgeKey>, c: Current)
    returns (moreNodes: seq<NodeId>, moreEdges: seq<EdgeKey>)
    requires forall x :: x in nodes ==> !x.Reference?
    ensures moreNodes == StructureNodes(nodes, Plain(c).structure)
    ensures moreEdges == edges + StructureEdges(Plain(c))
  {
    var s := c.structure;
    PlainParts(nodes, edges, c);
    moreNodes := nodes + if s.worktree.Some? then [Worktree(s.worktree.value)] else [];
    moreNodes, moreEdges := AppendDirectories(moreNodes, edges, s.directories);
    moreNodes, moreEdges := AppendFiles(moreNodes, moreEdges, s.directories, FilePaths(s.files), s.files);
    moreEdges := AppendRoot(moreEdges, c);
  }

  // ---------- the whole derived graph ----------

  function RelationKeysOf(id: string, relations: seq<Relation>): seq<EdgeKey> {
    seq(|relations|, i requires 0 <= i < |relations| => EdgeKey(Ledger(id), relations[i].kind, relations[i].target))
  }

  function RelationKeys(events: seq<Event>): seq<EdgeKey> {
    if events == [] then [] else RelationKeysOf(events[0].id, events[0].relations) + RelationKeys(events[1..])
  }

  lemma {:induction false} RelationSources(events: seq<Event>, i: nat)
    requires i < |RelationKeys(events)|
    ensures RelationKeys(events)[i].source in EventNodes(events)
  {
    var mine := RelationKeysOf(events[0].id, events[0].relations);
    assert EventNodes(events)[0] == Ledger(events[0].id);
    if i >= |mine| {
      RelationSources(events[1..], i - |mine|);
      var k :| 0 <= k < |events| - 1 && EventNodes(events[1..])[k] == RelationKeys(events)[i].source;
      assert EventNodes(events)[k + 1] == EventNodes(events[1..])[k];
    }
  }

  function GraphNodes(events: seq<Event>, current: Option<Current>): seq<NodeId> {
    if current.Some? then StructureNodes(EventNodes(events), Plain(current.value).structure) else EventNodes(events)
  }

  function GraphKeys(events: seq<Event>, current: Option<Current>): seq<EdgeKey> {
    RelationKeys(events) + if current.Some? then StructureEdges(Plain(current.value)) else []
  }

  ghost predicate ValidCurrent(events: seq<Event>, current: Option<Current>) {
    && UniqueIds(events)
    && (current.Some? ==> ValidStructure(current.value.structure) && Ledger(current.value.eventId) in EventNodes(events))
  }

  /** Before closing, nodes are distinct and only a relation's target can be missing. */
  lemma OnlyRelationTargetsDangle(events: seq<Event>, current: Option<Current>)
    requires ValidCurrent(events, current)
    ensures var nodes, keys := GraphNodes(events, current), GraphKeys(events, current);
            && Distinct(nodes)
            && (forall i :: 0 <= i < |keys| ==> keys[i].source in nodes)
            && (forall i :: |RelationKeys(events)| <= i < |keys| ==> keys[i].target in nodes)
  {
    EventNodesDistinct(events);
    StructureKeysEnd(events, current);
    var keys, own := GraphKeys(events, current), |RelationKeys(events)|;
    assert forall i :: own <= i < |keys| ==> keys[i] == keys[own..][i - own];
    forall i | 0 <= i < own ensures keys[i].source in GraphNodes(events, current) {
      RelationSources(events, i);
      assert keys[i] == RelationKeys(events)[i];
    }
  }

  lemma StructureKeysEnd(events: seq<Event>, current: Option<Current>)
    requires ValidCurrent(events, current)
    ensures Distinct(GraphNodes(events, current)) && Within(EventNodes(events), GraphNodes(events, current))
    ensures EndsIn(GraphKeys(events, current)[|RelationKeys(events)|..], GraphNodes(events, current))
  {
    EventNodesDistinct(events);
    var keys, own := GraphKeys(events, current), |RelationKeys(events)|;
    if current.Some? {
      PlainIsValid(current.value);
      StructureNodesFacts(events, Plain(current.value));
      StructureEnds(Plain(current.value), GraphNodes(events, current));
      assert keys[own..] == StructureEdges(Plain(current.value));
    } else {
      assert keys[own..] == [];
    }
  }

  /** Main result: after closing, every edge of the derived graph joins two of its distinct nodes. */
  lemma DerivedGraphIsClosed<O>(events: seq<Event>, current: Option<Current>, edges: seq<RawEdge<O>>,
                                added: seq<AddedNode>)
    requires ValidCurrent(events, current) && Closes(GraphNodes(events, current), edges, added)
    requires |edges| == |GraphKeys(events, current)| && forall i :: 0 <= i < |edges| ==> edges[i].key == GraphKeys(events, current)[i]
    ensures var nodes := GraphNodes(events, current) + Ids(added);
            Distinct(nodes) && forall i :: 0 <= i < |edges| ==> edges[i].key.source in nodes && edges[i].key.target in nodes
  {
    OnlyRelationTargetsDangle(events, current);
    ClosedGraph(GraphNodes(events, current), edges, added);
  }
}
