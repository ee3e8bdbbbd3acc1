/** The deduplicated edge list that repeated calls to addEdge leave behind (src/linked-memory.js:117-132). */
module EdgeList {
  import opened Common
  import opened LinkedGraph

  /** An edge keeps how often it was inserted. */
  datatype Edge = Edge(key: EdgeKey, occurrences: nat)

  predicate SelfLoop(k: EdgeKey) { k.source == k.target }

  function NonSelf(attempts: seq<EdgeKey>): (r: seq<EdgeKey>)
    ensures |r| <= |attempts|
  {
    if attempts == [] then []
    else
      var last := attempts[|attempts| - 1];
      NonSelf(attempts[..|attempts| - 1]) + if SelfLoop(last) then [] else [last]
  }

  lemma {:induction false} NonSelfMembers(attempts: seq<EdgeKey>, k: EdgeKey)
    requires k in NonSelf(attempts)
    ensures k in attempts && !SelfLoop(k)
  {
    var last := attempts[|attempts| - 1];
    if SelfLoop(last) || k != last { NonSelfMembers(attempts[..|attempts| - 1], k); }
  }

  function OccurrencesOf(edges: seq<Edge>): nat {
    if edges == [] then 0 else OccurrencesOf(edges[..|edges| - 1]) + edges[|edges| - 1].occurrences
  }

  /** How often a key was inserted. */
  ghost function Multiplicity(attempts: seq<EdgeKey>, k: EdgeKey): nat { multiset(NonSelf(attempts))[k] }

  ghost predicate HasKey(edges: seq<Edge>, k: EdgeKey) { exists i :: 0 <= i < |edges| && edges[i].key == k }

  ghost predicate DistinctKeys(edges: seq<Edge>) {
    forall i, j :: 0 <= i < j < |edges| ==> edges[i].key != edges[j].key
  }

  /** What the edge list means: each inserted key once, with its multiplicity, and nothing else. */
  ghost predicate Represents(edges: seq<Edge>, attempts: seq<EdgeKey>) {
    && DistinctKeys(edges)
    && (forall i :: 0 <= i < |edges| ==> edges[i].occurrences == Multiplicity(attempts, edges[i].key) > 0)
    && (forall k :: Multiplicity(attempts, k) > 0 ==> HasKey(edges, k))
  }

  ghost predicate Indexed(edges: seq<Edge>, seen: map<EdgeKey, nat>) {
    && (forall i :: 0 <= i < |edges| ==> edges[i].key in seen && seen[edges[i].key] == i)
    && (forall k :: k in seen ==> seen[k] < |edges| && edges[seen[k]].key == k)
  }

  /** A key counts as often as it was inserted, unless it leads from a node to itself: then it never does. */
  lemma {:induction false} MultiplicityMeans(attempts: seq<EdgeKey>, k: EdgeKey)
    ensures Multiplicity(attempts, k) == if k.source == k.target then 0 else multiset(attempts)[k]
  {
    if attempts != [] {
      var front, last := attempts[..|attempts| - 1], attempts[|attempts| - 1];
      assert attempts == front + [last];
      MultiplicityMeans(front, k);
      MultiplicitySnoc(front, last);
    }
  }

  lemma MultiplicitySnoc(attempts: seq<EdgeKey>, k: EdgeKey)
    ensures forall x :: Multiplicity(attempts + [k], x) == Multiplicity(attempts, x) + if x == k && !SelfLoop(k) then 1 else 0
  {
    assert (attempts + [k])[..|attempts|] == attempts;
    assert NonSelf(attempts + [k]) == NonSelf(attempts) + if SelfLoop(k) then [] else [k];
  }

  lemma Unchanged(edges: seq<Edge>, attempts: seq<EdgeKey>, k: EdgeKey)
    requires Represents(edges, attempts) && SelfLoop(k)
    ensures Represents(edges, attempts + [k])
  {
    MultiplicitySnoc(attempts, k);
  }

  lemma Counted(edges: seq<Edge>, attempts: seq<EdgeKey>, k: EdgeKey, at: nat)
    requires Represents(edges, attempts) && !SelfLoop(k) && at < |edges| && edges[at].key == k
    ensures Represents(edges[at := Edge(k, edges[at].occurrences + 1)], attempts + [k])
  {
    MultiplicitySnoc(attempts, k);
    var after := edges[at := Edge(k, edges[at].occurrences + 1)];
    forall x | Multiplicity(attempts + [k], x) > 0 ensures HasKey(after, x) {
      if x == k {
        assert after[at].key == x;
      } else {
        var i :| 0 <= i < |edges| && edges[i].key == x;
        assert after[i].key == x;
      }
    }
  }

  lemma Inserted(edges: seq<Edge>, attempts: seq<EdgeKey>, k: EdgeKey)
    requires Represents(edges, attempts) && !SelfLoop(k) && !HasKey(edges, k)
    ensures Represents(edges + [Edge(k, 1)], attempts + [k])
  {
    MultiplicitySnoc(attempts, k);
    var after := edges + [Edge(k, 1)];
    forall x | Multiplicity(attempts + [k], x) > 0 ensures HasKey(after, x) {
      if x == k {
        assert after[|edges|].key == x;
      } else {
        var i :| 0 <= i < |edges| && edges[i].key == x;
        assert after[i].key == x;
      }
    }
  }

  // ---------- conservation ----------

  /** The keys of the list, each as often as it occurred. */
  ghost function Expanded(edges: seq<Edge>): multiset<EdgeKey> {
    if edges == [] then multiset{}
    else
      var last := edges[|edges| - 1];
      var before := Expanded(edges[..|edges| - 1]);
      before[last.key := before[last.key] + last.occurrences]
  }

  lemma SetSize(m: multiset<EdgeKey>, k: EdgeKey, n: nat)
    ensures |m[k := m[k] + n]| == |m| + n
  {
  }

  lemma {:induction false} ExpandedSize(edges: seq<Edge>)
    ensures |Expanded(edges)| == OccurrencesOf(edges)
  {
    if edges != [] {
      var last, before := edges[|edges| - 1], Expanded(edges[..|edges| - 1]);
      ExpandedSize(edges[..|edges| - 1]);
      SetSize(before, last.key, last.occurrences);
    }
  }

  lemma {:induction false} ExpandedCounts(edges: seq<Edge>, k: EdgeKey)
    requires DistinctKeys(edges)
    ensures forall i :: 0 <= i < |edges| && edges[i].key == k ==> Expanded(edges)[k] == edges[i].occurrences
    ensures !HasKey(edges, k) ==> Expanded(edges)[k] == 0
  {
    if edges != [] {
      var shorter := edges[..|edges| - 1];
      ExpandedCounts(shorter, k);
      assert forall i :: 0 <= i < |shorter| ==> shorter[i] == edges[i];
    }
  }

  /** Main result: no insertion is lost; the occurrence counts add up to the non-self insertions. */
  lemma OccurrencesAreConserved(edges: seq<Edge>, attempts: seq<EdgeKey>)
    requires Represents(edges, attempts)
    ensures Expanded(edges) == multiset(NonSelf(attempts))
    ensures OccurrencesOf(edges) == |NonSelf(attempts)|
    ensures |edges| <= |attempts|
  {
    forall k ensures Expanded(edges)[k] == Multiplicity(attempts, k) {
      ExpandedCounts(edges, k);
    }
    ExpandedSize(edges);
    EdgesWithinOccurrences(edges);
  }

  lemma {:induction false} EdgesWithinOccurrences(edges: seq<Edge>)
    requires forall i :: 0 <= i < |edges| ==> edges[i].occurrences > 0
    ensures |edges| <= OccurrencesOf(edges)
  {
    if edges != [] { EdgesWithinOccurrences(edges[..|edges| - 1]); }
  }

  // ---------- degrees ----------

  function Outgoing(edges: seq<Edge>, id: NodeId): nat {
    if edges == [] then 0 else Outgoing(edges[..|edges| - 1], id) + if edges[|edges| - 1].key.source == id then 1 else 0
  }

  function Incoming(edges: seq<Edge>, id: NodeId): nat {
    if edges == [] then 0 else Incoming(edges[..|edges| - 1], id) + if edges[|edges| - 1].key.target == id then 1 else 0
  }

  function SourcesOf(edges: seq<Edge>): seq<NodeId> {
    seq(|edges|, i requires 0 <= i < |edges| => edges[i].key.source)
  }

  function TargetsOf(edges: seq<Edge>): seq<NodeId> {
    seq(|edges|, i requires 0 <= i < |edges| => edges[i].key.target)
  }

  /** The degrees of a node are how often it is the source, and how often it is the target. */
  lemma {:induction false} DegreesMean(edges: seq<Edge>, id: NodeId)
    ensures Outgoing(edges, id) == multiset(SourcesOf(edges))[id] && Incoming(edges, id) == multiset(TargetsOf(edges))[id]
  {
    if edges != [] {
      var front, last := edges[..|edges| - 1], edges[|edges| - 1];
      DegreesMean(front, id);
      assert SourcesOf(edges) == SourcesOf(front) + [last.key.source];
      assert TargetsOf(edges) == TargetsOf(front) + [last.key.target];
    }
  }

  function SumOutgoing(edges: seq<Edge>, nodes: seq<NodeId>): nat {
    if nodes == [] then 0 else SumOutgoing(edges, nodes[..|nodes| - 1]) + Outgoing(edges, nodes[|nodes| - 1])
  }

  function SumIncoming(edges: seq<Edge>, nodes: seq<NodeId>): nat {
    if nodes == [] then 0 else SumIncoming(edges, nodes[..|nodes| - 1]) + Incoming(edges, nodes[|nodes| - 1])
  }

  lemma {:induction false} SumsOfNothing(nodes: seq<NodeId>)
    ensures SumOutgoing([], nodes) == 0 && SumIncoming([], nodes) == 0
  {
    if nodes != [] { SumsOfNothing(nodes[..|nodes| - 1]); }
  }

  lemma {:induction false} SumsGrowByOne(edges: seq<Edge>, nodes: seq<NodeId>)
    requires edges != [] && Distinct(nodes)
    ensures var shorter, last := edges[..|edges| - 1], edges[|edges| - 1].key;
            && SumOutgoing(edges, nodes) == SumOutgoing(shorter, nodes) + (if last.source in nodes then 1 else 0)
            && SumIncoming(edges, nodes) == SumIncoming(shorter, nodes) + (if last.target in nodes then 1 else 0)
  {
    if nodes != [] {
      var fewer := nodes[..|nodes| - 1];
      SumsGrowByOne(edges, fewer);
      assert nodes == fewer + [nodes[|nodes| - 1]];
      assert nodes[|nodes| - 1] !in fewer;
    }
  }

  ghost predicate Closed(edges: seq<Edge>, nodes: seq<NodeId>) {
    forall i :: 0 <= i < |edges| ==> edges[i].key.source in nodes && edges[i].key.target in nodes
  }

  /** Main result: in a closed graph in-degrees and out-degrees both add up to the number of edges. */
  lemma {:induction false} DegreesSumToEdges(edges: seq<Edge>, nodes: seq<NodeId>)
    requires Distinct(nodes) && Closed(edges, nodes)
    ensures SumOutgoing(edges, nodes) == |edges| && SumIncoming(edges, nodes) == |edges|
  {
    if edges == [] {
      SumsOfNothing(nodes);
    } else {
      var shorter := edges[..|edges| - 1];
      assert Closed(shorter, nodes) by { forall i | 0 <= i < |shorter| ensures shorter[i] == edges[i] { } }
      DegreesSumToEdges(shorter, nodes);
      SumsGrowByOne(edges, nodes);
    }
  }

  datatype Degree = Degree(incoming: nat, outgoing: nat)

  ghost predicate CountsDegrees(degrees: map<NodeId, Degree>, nodes: seq<NodeId>, edges: seq<Edge>) {
    && (forall id :: id in degrees <==> id in nodes)
    && (forall id :: id in degrees ==> degrees[id] == Degree(Incoming(edges, id), Outgoing(edges, id)))
  }

  function BumpOutgoing(degrees: map<NodeId, Degree>, id: NodeId): map<NodeId, Degree> {
    if id in degrees then degrees[id := Degree(degrees[id].incoming, degrees[id].outgoing + 1)] else degrees
  }

  function BumpIncoming(degrees: map<NodeId, Degree>, id: NodeId): map<NodeId, Degree> {
    if id in degrees then degrees[id := Degree(degrees[id].incoming + 1, degrees[id].outgoing)] else degrees
  }

  lemma DegreesStep(degrees: map<NodeId, Degree>, nodes: seq<NodeId>, edges: seq<Edge>, i: nat)
    requires i < |edges| && CountsDegrees(degrees, nodes, edges[..i])
    ensures CountsDegrees(BumpIncoming(BumpOutgoing(degrees, edges[i].key.source), edges[i].key.target), nodes, edges[..i + 1])
  {
    assert edges[..i + 1][..i] == edges[..i];
  }

  /** The degrees of every node; an edge end that is no node is not counted. */
  method CountDegrees(nodes: seq<NodeId>, edges: seq<Edge>) returns (degrees: map<NodeId, Degree>)
    ensures CountsDegrees(degrees, nodes, edges)
  {
    degrees := map id | id in nodes :: Degree(0, 0);
    for i := 0 to |edges|
      invariant CountsDegrees(degrees, nodes, edges[..i])
    {
      DegreesStep(degrees, nodes, edges, i);
      degrees := BumpOutgoing(degrees, edges[i].key.source);
      degrees := BumpIncoming(degrees, edges[i].key.target);
    }
    assert edges[..|edges|] == edges;
  }
}
