/**
 * The bounded link rank of src/linked-memory.js over the reals (the final rounding is left out):
 * damped iterations over the file graph, the rank of files without links shared evenly.
 */
module LinkRank {
  import opened Common

  type Id = string

  datatype LinkKind = Imports | Links | References | Contains | Precedes | Produced | About | OtherKind

  datatype Link = Link(source: Id, kind: LinkKind, target: Id)

  const ITERATIONS := 24
  const DAMPING: real := 0.85

  predicate Counts(kind: LinkKind) { kind == Imports || kind == Links || kind == References }

  /** The targets of a file's counted links to files, in edge order. */
  function TargetsOf(edges: seq<Link>, ids: set<Id>, id: Id): seq<Id> {
    if edges == [] then []
    else
      var e := edges[|edges| - 1];
      TargetsOf(edges[..|edges| - 1], ids, id)
      + if e.source == id && e.source in ids && e.target in ids && Counts(e.kind) then [e.target] else []
  }

  lemma {:induction false} TargetsAreFiles(edges: seq<Link>, ids: set<Id>, id: Id)
    ensures forall t :: t in TargetsOf(edges, ids, id) ==> t in ids
  {
    if edges != [] {
      TargetsAreFiles(edges[..|edges| - 1], ids, id);
    }
  }

  type Outgoing = map<Id, seq<Id>>
  type Ranks = map<Id, real>

  // ---------- what the outgoing lists mean ----------

  /** How many of the edges pass a test. */
  function Tally(edges: seq<Link>, test: Link -> bool): nat {
    if edges == [] then 0 else Tally(edges[..|edges| - 1], test) + if test(edges[|edges| - 1]) then 1 else 0
  }

  /** A link from one file to another that the rank follows: an import, a link or a reference. */
  predicate Follows(ids: set<Id>, e: Link) {
    e.source in ids && e.target in ids && e.kind in {Imports, Links, References}
  }

  function Between(ids: set<Id>, u: Id, v: Id): Link -> bool {
    (e: Link) => Follows(ids, e) && e.source == u && e.target == v
  }

  function From(ids: set<Id>, u: Id): Link -> bool {
    (e: Link) => Follows(ids, e) && e.source == u
  }

  /** Each file's list holds another file as often as the edges lead from the one to the other. */
  ghost predicate ListsLinks(outgoing: Outgoing, edges: seq<Link>) {
    && (forall u, v :: u in outgoing ==> Count(outgoing[u], v) == Tally(edges, Between(outgoing.Keys, u, v)))
    && (forall u :: u in outgoing ==> |outgoing[u]| == Tally(edges, From(outgoing.Keys, u)))
  }

  lemma {:induction false} TargetsAreTallied(edges: seq<Link>, ids: set<Id>, u: Id, v: Id)
    ensures Count(TargetsOf(edges, ids, u), v) == Tally(edges, Between(ids, u, v))
    ensures |TargetsOf(edges, ids, u)| == Tally(edges, From(ids, u))
  {
    if edges != [] {
      var front, last := edges[..|edges| - 1], edges[|edges| - 1];
      TargetsAreTallied(front, ids, u, v);
      CountSnoc(TargetsOf(front, ids, u), last.target, v);
    }
  }

  lemma CountSnoc(targets: seq<Id>, t: Id, v: Id)
    ensures Count(targets + [t], v) == Count(targets, v) + if t == v then 1 else 0
    ensures targets + [] == targets
  {
    assert (targets + [t])[..|targets|] == targets;
  }

  /** A graph over distinct files: every file has a list of targets, all of them files. */
  ghost predicate IsGraph(ids: seq<Id>, outgoing: Outgoing) {
    && Distinct(ids)
    && (forall id :: id in ids <==> id in outgoing)
    && (forall id :: id in outgoing ==> forall t :: t in outgoing[id] ==> t in outgoing)
  }

  // ---------- sums ----------

  function Sum(ids: seq<Id>, f: Id -> real): real {
    if ids == [] then 0.0 else Sum(ids[..|ids| - 1], f) + f(ids[|ids| - 1])
  }

  lemma {:induction false} SumAdds(ids: seq<Id>, f: Id -> real, g: Id -> real, h: Id -> real)
    requires forall id :: id in ids ==> h(id) == f(id) + g(id)
    ensures Sum(ids, h) == Sum(ids, f) + Sum(ids, g)
  {
    if ids != [] {
      SumAdds(ids[..|ids| - 1], f, g, h);
    }
  }

  lemma {:induction false} SumDamped(ids: seq<Id>, f: Id -> real, h: Id -> real)
    requires forall id :: id in ids ==> h(id) == DAMPING * f(id)
    ensures Sum(ids, h) == DAMPING * Sum(ids, f)
  {
    if ids != [] {
      SumDamped(ids[..|ids| - 1], f, h);
    }
  }

  /** Adding the same amount `n` times. */
  function Repeat(n: nat, x: real): real {
    if n == 0 then 0.0 else Repeat(n - 1, x) + x
  }

  lemma {:induction false} RepeatIsTimes(n: nat, x: real)
    ensures Repeat(n, x) == n as real * x
  {
    if n > 0 {
      RepeatIsTimes(n - 1, x);
    }
  }

  /** Splitting an amount evenly and adding the parts up gives the amount. */
  lemma RepeatOfPart(n: nat, amount: real)
    requires n > 0
    ensures Repeat(n, amount / n as real) == amount
  {
    RepeatIsTimes(n, amount / n as real);
  }

  lemma {:induction false} SumConstant(ids: seq<Id>, f: Id -> real, value: real)
    requires forall id :: id in ids ==> f(id) == value
    ensures Sum(ids, f) == Repeat(|ids|, value)
  {
    if ids != [] {
      SumConstant(ids[..|ids| - 1], f, value);
    }
  }

  lemma {:induction false} SumBoundsOne(ids: seq<Id>, f: Id -> real, id: Id)
    requires id in ids && forall x :: x in ids ==> f(x) >= 0.0
    ensures f(id) <= Sum(ids, f)
  {
    var before, last := ids[..|ids| - 1], ids[|ids| - 1];
    SumNonNegative(before, f);
    if id != last {
      assert id in before;
      SumBoundsOne(before, f, id);
    }
  }

  lemma {:induction false} SumNonNegative(ids: seq<Id>, f: Id -> real)
    requires forall x :: x in ids ==> f(x) >= 0.0
    ensures Sum(ids, f) >= 0.0
  {
    if ids != [] {
      SumNonNegative(ids[..|ids| - 1], f);
    }
  }

  function Count(targets: seq<Id>, id: Id): nat {
    if targets == [] then 0 else Count(targets[..|targets| - 1], id) + if targets[|targets| - 1] == id then 1 else 0
  }

  /** What each file receives when every target is sent the same share. */
  function SentFn(targets: seq<Id>, share: real): Id -> real {
    id => Repeat(Count(targets, id), share)
  }

  /** One id among distinct ids receives the share once. */
  lemma {:induction false} SumAtOne(ids: seq<Id>, t: Id, share: real, f: Id -> real)
    requires Distinct(ids) && forall id :: f(id) == if id == t then share else 0.0
    ensures Sum(ids, f) == if t in ids then share else 0.0
  {
    if ids != [] {
      var before, last := ids[..|ids| - 1], ids[|ids| - 1];
      SumAtOne(before, t, share, f);
      assert last !in before;
      assert t in ids <==> t in before || t == last;
    }
  }

  /** Over the distinct files, what is sent is received exactly once per target. */
  lemma {:induction false} SumSent(ids: seq<Id>, targets: seq<Id>, share: real)
    requires Distinct(ids) && forall t :: t in targets ==> t in ids
    ensures Sum(ids, SentFn(targets, share)) == Repeat(|targets|, share)
  {
    if targets == [] {
      SumConstant(ids, SentFn(targets, share), 0.0);
      RepeatIsTimes(|ids|, 0.0);
    } else {
      var before, last := targets[..|targets| - 1], targets[|targets| - 1];
      SumSent(ids, before, share);
      var one := (id: Id) => if id == last then share else 0.0;
      SumAtOne(ids, last, share, one);
      SumAdds(ids, SentFn(before, share), one, SentFn(targets, share));
    }
  }

  // ---------- one iteration, as a formula ----------

  function RankOf(ranks: Ranks, id: Id): real { if id in ranks then ranks[id] else 0.0 }

  function TargetsIn(outgoing: Outgoing, id: Id): seq<Id> { if id in outgoing then outgoing[id] else [] }

  /** What a file passes along each of its links. */
  function Share(outgoing: Outgoing, ranks: Ranks, u: Id): real {
    var targets := TargetsIn(outgoing, u);
    if targets == [] then 0.0 else DAMPING * RankOf(ranks, u) / |targets| as real
  }

  /** What a file receives over links from the given sources. */
  function Received(sources: seq<Id>, outgoing: Outgoing, ranks: Ranks, v: Id): real {
    if sources == [] then 0.0
    else
      var u := sources[|sources| - 1];
      Received(sources[..|sources| - 1], outgoing, ranks, v) + Repeat(Count(TargetsIn(outgoing, u), v), Share(outgoing, ranks, u))
  }

  function DanglingFn(outgoing: Outgoing, ranks: Ranks): Id -> real {
    u => if TargetsIn(outgoing, u) == [] then RankOf(ranks, u) else 0.0
  }

  /** Total rank of the given files that have no links. */
  function Dangling(sources: seq<Id>, outgoing: Outgoing, ranks: Ranks): real {
    Sum(sources, DanglingFn(outgoing, ranks))
  }

  /** What every file receives in an iteration: the undamped part, and the rank of files without links. */
  function EvenShare(ids: seq<Id>, outgoing: Outgoing, ranks: Ranks): real
    requires ids != []
  {
    Part(1.0 - DAMPING + DAMPING * Dangling(ids, outgoing, ranks), |ids|)
  }

  /** One of `n` equal parts. */
  function Part(amount: real, n: nat): real
    requires n > 0
  {
    amount / n as real
  }

  function Next(ids: seq<Id>, outgoing: Outgoing, ranks: Ranks): Ranks
    requires ids != []
  {
    Shifted(ids, ReceivedFn(ids, outgoing, ranks), EvenShare(ids, outgoing, ranks))
  }

  function Shifted(ids: seq<Id>, f: Id -> real, even: real): Ranks {
    map v | v in ids :: f(v) + even
  }

  function Start(ids: seq<Id>): Ranks
    requires ids != []
  {
    map v | v in ids :: 1.0 / |ids| as real
  }

  function Iterated(step: Ranks -> Ranks, start: Ranks, n: nat): Ranks {
    if n == 0 then start else step(Iterated(step, start, n - 1))
  }

  function NextFn(ids: seq<Id>, outgoing: Outgoing): Ranks -> Ranks
    requires ids != []
  {
    ranks => Next(ids, outgoing, ranks)
  }

  function RanksAfter(ids: seq<Id>, outgoing: Outgoing, n: nat): Ranks
    requires ids != []
  {
    Iterated(NextFn(ids, outgoing), Start(ids), n)
  }

  function RankFn(ranks: Ranks): Id -> real { id => RankOf(ranks, id) }

  function Mass(ids: seq<Id>, ranks: Ranks): real { Sum(ids, RankFn(ranks)) }

  // ---------- conservation ----------

  function ReceivedFn(sources: seq<Id>, outgoing: Outgoing, ranks: Ranks): Id -> real {
    v => Received(sources, outgoing, ranks, v)
  }

  /** What a file passes on in all. */
  function PassedFn(outgoing: Outgoing, ranks: Ranks): Id -> real {
    u => if TargetsIn(outgoing, u) == [] then 0.0 else DAMPING * RankOf(ranks, u)
  }

  function DampedFn(f: Id -> real): Id -> real { id => DAMPING * f(id) }

  lemma SharesAddUp(outgoing: Outgoing, ranks: Ranks, u: Id)
    ensures Repeat(|TargetsIn(outgoing, u)|, Share(outgoing, ranks, u)) == PassedFn(outgoing, ranks)(u)
  {
    if TargetsIn(outgoing, u) != [] {
      RepeatOfPart(|TargetsIn(outgoing, u)|, DAMPING * RankOf(ranks, u));
    }
  }

  /** Adding one more source to what is received, for any share. */
  lemma SumWithOneMore(ids: seq<Id>, before: Id -> real, targets: seq<Id>, share: real, after: Id -> real)
    requires Distinct(ids) && forall t :: t in targets ==> t in ids
    requires forall v :: v in ids ==> after(v) == before(v) + Repeat(Count(targets, v), share)
    ensures Sum(ids, after) == Sum(ids, before) + Repeat(|targets|, share)
  {
    SumAdds(ids, before, SentFn(targets, share), after);
    SumSent(ids, targets, share);
  }

  lemma {:induction false} PassedOn(ids: seq<Id>, sources: seq<Id>, outgoing: Outgoing, ranks: Ranks)
    requires IsGraph(ids, outgoing) && forall u :: u in sources ==> u in ids
    ensures Sum(ids, ReceivedFn(sources, outgoing, ranks)) == Sum(sources, PassedFn(outgoing, ranks))
  {
    if sources == [] {
      SumConstant(ids, ReceivedFn(sources, outgoing, ranks), 0.0);
      RepeatIsTimes(|ids|, 0.0);
    } else {
      var before, u := sources[..|sources| - 1], sources[|sources| - 1];
      PassedOn(ids, before, outgoing, ranks);
      SumWithOneMore(ids, ReceivedFn(before, outgoing, ranks), TargetsIn(outgoing, u), Share(outgoing, ranks, u), ReceivedFn(sources, outgoing, ranks));
      SharesAddUp(outgoing, ranks, u);
    }
  }

  /** What is passed on and what is lost by files without links make up the damped total. */
  lemma PassedAndLost(ids: seq<Id>, outgoing: Outgoing, ranks: Ranks)
    ensures Sum(ids, PassedFn(outgoing, ranks)) + DAMPING * Dangling(ids, outgoing, ranks) == DAMPING * Mass(ids, ranks)
  {
    var lost := DanglingFn(outgoing, ranks);
    SumDamped(ids, lost, DampedFn(lost));
    SumDamped(ids, RankFn(ranks), DampedFn(RankFn(ranks)));
    SumAdds(ids, PassedFn(outgoing, ranks), DampedFn(lost), DampedFn(RankFn(ranks)));
  }

  lemma SumWithEven(ids: seq<Id>, received: Id -> real, even: real, after: Id -> real)
    requires forall v :: v in ids ==> after(v) == received(v) + even
    ensures Sum(ids, after) == Sum(ids, received) + Repeat(|ids|, even)
  {
    var evenly := (v: Id) => even;
    SumConstant(ids, evenly, even);
    SumAdds(ids, received, evenly, after);
  }

  /** One iteration turns a total rank m into 1 - d + d m, so a total of 1 stays 1. */
  lemma MassAfterStep(ids: seq<Id>, outgoing: Outgoing, ranks: Ranks)
    requires ids != [] && IsGraph(ids, outgoing)
    ensures Mass(ids, Next(ids, outgoing, ranks)) == 1.0 - DAMPING + DAMPING * Mass(ids, ranks)
  {
    SumWithEven(ids, ReceivedFn(ids, outgoing, ranks), EvenShare(ids, outgoing, ranks), RankFn(Next(ids, outgoing, ranks)));
    PassedOn(ids, ids, outgoing, ranks);
    RepeatOfPart(|ids|, 1.0 - DAMPING + DAMPING * Dangling(ids, outgoing, ranks));
    PassedAndLost(ids, outgoing, ranks);
  }

  /** What holds of the ranks after every iteration. */
  ghost predicate Conserved(ids: seq<Id>, ranks: Ranks)
    requires ids != []
  {
    && (forall id :: id in ids <==> id in ranks)
    && (forall id :: id in ids ==> ranks[id] >= (1.0 - DAMPING) / |ids| as real)
    && Mass(ids, ranks) == 1.0
  }

  lemma FractionsOrdered(x: real, y: real, n: real)
    requires x <= y && n > 0.0
    ensures x / n <= y / n
    ensures x > 0.0 ==> x / n > 0.0
  {
  }

  lemma ShareNonNegative(outgoing: Outgoing, ranks: Ranks, u: Id)
    requires RankOf(ranks, u) >= 0.0
    ensures Share(outgoing, ranks, u) >= 0.0
  {
    var n := |TargetsIn(outgoing, u)|;
    if n > 0 { FractionsOrdered(0.0, DAMPING * RankOf(ranks, u), n as real); }
  }

  lemma {:induction false} RepeatNonNegative(n: nat, x: real)
    requires x >= 0.0
    ensures Repeat(n, x) >= 0.0
  {
    if n > 0 { RepeatNonNegative(n - 1, x); }
  }

  lemma {:induction false} ReceivedNonNegative(sources: seq<Id>, outgoing: Outgoing, ranks: Ranks, v: Id)
    requires forall id :: RankOf(ranks, id) >= 0.0
    ensures Received(sources, outgoing, ranks, v) >= 0.0
  {
    if sources != [] {
      var u := sources[|sources| - 1];
      ReceivedNonNegative(sources[..|sources| - 1], outgoing, ranks, v);
      ShareNonNegative(outgoing, ranks, u);
      RepeatNonNegative(Count(TargetsIn(outgoing, u), v), Share(outgoing, ranks, u));
    }
  }

  lemma EvenShareAtLeast(ids: seq<Id>, outgoing: Outgoing, ranks: Ranks)
    requires ids != [] && forall id :: RankOf(ranks, id) >= 0.0
    ensures EvenShare(ids, outgoing, ranks) >= (1.0 - DAMPING) / |ids| as real
  {
    SumNonNegative(ids, DanglingFn(outgoing, ranks));
    FractionsOrdered(1.0 - DAMPING, 1.0 - DAMPING + DAMPING * Dangling(ids, outgoing, ranks), |ids| as real);
  }

  lemma StepConserves(ids: seq<Id>, outgoing: Outgoing, ranks: Ranks)
    requires ids != [] && IsGraph(ids, outgoing) && Conserved(ids, ranks)
    ensures Conserved(ids, Next(ids, outgoing, ranks))
  {
    MassAfterStep(ids, outgoing, ranks);
    FractionsOrdered(1.0 - DAMPING, 1.0 - DAMPING, |ids| as real);
    EvenShareAtLeast(ids, outgoing, ranks);
    forall v | v in ids ensures Received(ids, outgoing, ranks, v) >= 0.0 {
      ReceivedNonNegative(ids, outgoing, ranks, v);
    }
  }

  lemma StartConserves(ids: seq<Id>)
    requires ids != []
    ensures Conserved(ids, Start(ids))
  {
    SumConstant(ids, RankFn(Start(ids)), 1.0 / |ids| as real);
    RepeatOfPart(|ids|, 1.0);
    FractionsOrdered(1.0 - DAMPING, 1.0, |ids| as real);
  }

  lemma {:induction false} IterationKeeps(step: Ranks -> Ranks, start: Ranks, n: nat, kept: iset<Ranks>)
    requires start in kept && forall r :: r in kept ==> step(r) in kept
    ensures Iterated(step, start, n) in kept
  {
    if n > 0 {
      IterationKeeps(step, start, n - 1, kept);
    }
  }

  /** Main result: after every iteration all ranks are positive and they sum to exactly 1. */
  lemma RanksConserveMass(ids: seq<Id>, outgoing: Outgoing, n: nat)
    requires ids != [] && IsGraph(ids, outgoing)
    ensures Conserved(ids, RanksAfter(ids, outgoing, n))
  {
    var kept := iset r | Conserved(ids, r);
    StartConserves(ids);
    forall r | r in kept ensures NextFn(ids, outgoing)(r) in kept {
      StepConserves(ids, outgoing, r);
    }
    IterationKeeps(NextFn(ids, outgoing), Start(ids), n, kept);
  }

  /** No rank exceeds 1, so the final division by max(1, ranks) divides by exactly 1. */
  lemma NoRankAboveOne(ids: seq<Id>, ranks: Ranks, id: Id)
    requires ids != [] && Conserved(ids, ranks) && id in ids
    ensures 0.0 < ranks[id] <= 1.0
  {
    FractionsOrdered(1.0 - DAMPING, 1.0 - DAMPING, |ids| as real);
    SumBoundsOne(ids, RankFn(ranks), id);
  }

  // ---------- an iteration, on the edges ----------

  /** What a file receives over the edges that lead to it, when every source sends the same amount over each of its links. */
  function Inflow(edges: seq<Link>, ids: set<Id>, share: Id -> real, v: Id): real {
    if edges == [] then 0.0
    else
      var e := edges[|edges| - 1];
      Inflow(edges[..|edges| - 1], ids, share, v) + if Follows(ids, e) && e.target == v then share(e.source) else 0.0
  }

  /** A file's damped rank, split evenly over its links. */
  function SplitRank(edges: seq<Link>, ids: set<Id>, ranks: Ranks): Id -> real {
    (u: Id) => var n := Tally(edges, From(ids, u)); if n == 0 then 0.0 else DAMPING * RankOf(ranks, u) / n as real
  }

  /** The rank of a file without links. */
  function LostRank(edges: seq<Link>, ids: set<Id>, ranks: Ranks): Id -> real {
    (u: Id) => if Tally(edges, From(ids, u)) == 0 then RankOf(ranks, u) else 0.0
  }

  function OverLinks(edges: seq<Link>, ids: set<Id>, share: Id -> real, v: Id): Id -> real {
    (u: Id) => Repeat(Tally(edges, Between(ids, u, v)), share(u))
  }

  lemma {:induction false} InflowIsSum(edges: seq<Link>, ids: seq<Id>, idSet: set<Id>, share: Id -> real, v: Id)
    requires Distinct(ids) && idSet == set id | id in ids
    ensures Inflow(edges, idSet, share, v) == Sum(ids, OverLinks(edges, idSet, share, v))
  {
    var all := OverLinks(edges, idSet, share, v);
    if edges == [] {
      SumConstant(ids, all, 0.0);
      RepeatIsTimes(|ids|, 0.0);
    } else {
      var front, e := edges[..|edges| - 1], edges[|edges| - 1];
      InflowIsSum(front, ids, idSet, share, v);
      var amount := if Follows(idSet, e) && e.target == v then share(e.source) else 0.0;
      var one := (id: Id) => if id == e.source then amount else 0.0;
      SumAtOne(ids, e.source, amount, one);
      SumAdds(ids, OverLinks(front, idSet, share, v), one, all);
    }
  }

  lemma PieceIs(outgoing: Outgoing, edges: seq<Link>, ranks: Ranks, u: Id, v: Id)
    requires ListsLinks(outgoing, edges) && u in outgoing
    ensures Share(outgoing, ranks, u) == SplitRank(edges, outgoing.Keys, ranks)(u)
    ensures Count(TargetsIn(outgoing, u), v) == Tally(edges, Between(outgoing.Keys, u, v))
    ensures DanglingFn(outgoing, ranks)(u) == LostRank(edges, outgoing.Keys, ranks)(u)
  {
  }

  function PieceFn(outgoing: Outgoing, ranks: Ranks, v: Id): Id -> real {
    (u: Id) => Repeat(Count(TargetsIn(outgoing, u), v), Share(outgoing, ranks, u))
  }

  lemma {:induction false} ReceivedIsSum(sources: seq<Id>, outgoing: Outgoing, ranks: Ranks, v: Id)
    ensures Received(sources, outgoing, ranks, v) == Sum(sources, PieceFn(outgoing, ranks, v))
  {
    if sources != [] {
      ReceivedIsSum(sources[..|sources| - 1], outgoing, ranks, v);
    }
  }

  lemma ReceivedIsInflow(ids: seq<Id>, outgoing: Outgoing, edges: seq<Link>, ranks: Ranks, v: Id)
    requires IsGraph(ids, outgoing) && ListsLinks(outgoing, edges)
    ensures Received(ids, outgoing, ranks, v) == Inflow(edges, outgoing.Keys, SplitRank(edges, outgoing.Keys, ranks), v)
  {
    var share := SplitRank(edges, outgoing.Keys, ranks);
    ReceivedIsSum(ids, outgoing, ranks, v);
    forall u | u in ids ensures PieceFn(outgoing, ranks, v)(u) == OverLinks(edges, outgoing.Keys, share, v)(u) {
      PieceIs(outgoing, edges, ranks, u, v);
    }
    SumSame(ids, PieceFn(outgoing, ranks, v), OverLinks(edges, outgoing.Keys, share, v));
    InflowIsSum(edges, ids, outgoing.Keys, share, v);
  }

  lemma DanglingIsLost(ids: seq<Id>, outgoing: Outgoing, edges: seq<Link>, ranks: Ranks)
    requires IsGraph(ids, outgoing) && ListsLinks(outgoing, edges)
    ensures Dangling(ids, outgoing, ranks) == Sum(ids, LostRank(edges, outgoing.Keys, ranks))
  {
    forall u | u in ids ensures DanglingFn(outgoing, ranks)(u) == LostRank(edges, outgoing.Keys, ranks)(u) {
      PieceIs(outgoing, edges, ranks, u, u);
    }
    SumSame(ids, DanglingFn(outgoing, ranks), LostRank(edges, outgoing.Keys, ranks));
  }

  lemma {:induction false} SumSame(ids: seq<Id>, f: Id -> real, g: Id -> real)
    requires forall id :: id in ids ==> f(id) == g(id)
    ensures Sum(ids, f) == Sum(ids, g)
  {
    if ids != [] {
      SumSame(ids[..|ids| - 1], f, g);
    }
  }

  /**
   * Main result: the next rank of a file is what arrives over the edges into it, plus an even part of
   * the undamped rank and of the damped rank of files without links.
   */
  lemma NextMeans(ids: seq<Id>, outgoing: Outgoing, edges: seq<Link>, ranks: Ranks, v: Id)
    requires IsGraph(ids, outgoing) && ListsLinks(outgoing, edges) && v in ids
    ensures var files := outgoing.Keys;
            Next(ids, outgoing, ranks)[v]
              == Inflow(edges, files, SplitRank(edges, files, ranks), v)
               + EvenPart(Sum(ids, LostRank(edges, files, ranks)), |ids|)
  {
    ReceivedIsInflow(ids, outgoing, edges, ranks, v);
    DanglingIsLost(ids, outgoing, edges, ranks);
    NextAt(ids, outgoing, ranks, v);
    EvenShareIs(ids, outgoing, ranks, Sum(ids, LostRank(edges, outgoing.Keys, ranks)));
  }

  /** Everyone's part of the undamped rank, and of the damped rank that is lost. */
  function EvenPart(lost: real, n: nat): real
    requires n > 0
  {
    Part(1.0 - DAMPING + DAMPING * lost, n)
  }

  lemma EvenShareIs(ids: seq<Id>, outgoing: Outgoing, ranks: Ranks, lost: real)
    requires ids != [] && Dangling(ids, outgoing, ranks) == lost
    ensures EvenShare(ids, outgoing, ranks) == EvenPart(lost, |ids|)
  {
  }

  lemma NextAt(ids: seq<Id>, outgoing: Outgoing, ranks: Ranks, v: Id)
    requires v in ids
    ensures Next(ids, outgoing, ranks)[v] == Received(ids, outgoing, ranks, v) + EvenShare(ids, outgoing, ranks)
  {
  }

  lemma {:induction false} NoInflow(edges: seq<Link>, ids: set<Id>, share: Id -> real, v: Id)
    requires forall e :: e in edges && e.target == v ==> !Follows(ids, e)
    ensures Inflow(edges, ids, share, v) == 0.0
  {
    if edges != [] {
      assert edges[|edges| - 1] in edges;
      NoInflow(edges[..|edges| - 1], ids, share, v);
    }
  }

  /** A file no link leads to holds the even share alone, whatever links lead from it. */
  lemma UnlinkedGetsEvenShare(ids: seq<Id>, outgoing: Outgoing, edges: seq<Link>, ranks: Ranks, v: Id)
    requires IsGraph(ids, outgoing) && ListsLinks(outgoing, edges) && v in ids
    requires forall e :: e in edges && e.target == v ==> !Follows(outgoing.Keys, e)
    ensures Next(ids, outgoing, ranks)[v] == EvenShare(ids, outgoing, ranks)
  {
    ReceivedIsInflow(ids, outgoing, edges, ranks, v);
    NoInflow(edges, outgoing.Keys, SplitRank(edges, outgoing.Keys, ranks), v);
  }

  // ---------- all iterations ----------

  /** What an iteration gives a file, on the edges alone. */
  ghost function Expected(ids: seq<Id>, edges: seq<Link>, files: set<Id>, before: Ranks, v: Id): real
    requires ids != []
  {
    Inflow(edges, files, SplitRank(edges, files, before), v) + EvenPart(Sum(ids, LostRank(edges, files, before)), |ids|)
  }

  ghost predicate IsStep(ids: seq<Id>, edges: seq<Link>, files: set<Id>, before: Ranks, after: Ranks)
    requires ids != []
  {
    after.Keys == files && forall v :: v in after ==> after[v] == Expected(ids, edges, files, before, v)
  }

  ghost predicate IsStart(ids: seq<Id>, files: set<Id>, ranks: Ranks)
    requires ids != []
  {
    ranks.Keys == files && forall v :: v in ranks ==> ranks[v] == Part(1.0, |ids|)
  }

  /** Equal ranks to begin with, and every later ones by an iteration from the ones before. */
  ghost predicate IsHistory(ids: seq<Id>, edges: seq<Link>, files: set<Id>, history: seq<Ranks>)
    requires ids != []
  {
    && history != [] && IsStart(ids, files, history[0])
    && forall i :: 0 < i < |history| ==> IsStep(ids, edges, files, history[i - 1], history[i])
  }

  lemma HistorySnoc(ids: seq<Id>, edges: seq<Link>, files: set<Id>, history: seq<Ranks>, next: Ranks)
    requires ids != [] && IsHistory(ids, edges, files, history) && IsStep(ids, edges, files, history[|history| - 1], next)
    ensures IsHistory(ids, edges, files, history + [next])
  {
  }

  lemma NextIsStep(ids: seq<Id>, outgoing: Outgoing, edges: seq<Link>, ranks: Ranks)
    requires IsGraph(ids, outgoing) && ListsLinks(outgoing, edges) && ids != []
    ensures IsStep(ids, edges, outgoing.Keys, ranks, Next(ids, outgoing, ranks))
  {
    var next := Next(ids, outgoing, ranks);
    forall v | v in next ensures next[v] == Expected(ids, edges, outgoing.Keys, ranks, v) {
      NextMeans(ids, outgoing, edges, ranks, v);
    }
  }

  lemma StartIsStart(ids: seq<Id>, outgoing: Outgoing)
    requires ids != [] && IsGraph(ids, outgoing)
    ensures IsStart(ids, outgoing.Keys, Start(ids))
  {
  }

  lemma OneMoreIteration(ids: seq<Id>, outgoing: Outgoing, n: nat)
    requires ids != []
    ensures RanksAfter(ids, outgoing, 0) == Start(ids)
    ensures RanksAfter(ids, outgoing, n + 1) == Next(ids, outgoing, RanksAfter(ids, outgoing, n))
  {
  }

  lemma {:induction false} RanksHaveHistory(ids: seq<Id>, outgoing: Outgoing, edges: seq<Link>, n: nat)
    returns (history: seq<Ranks>)
    requires IsGraph(ids, outgoing) && ListsLinks(outgoing, edges) && ids != []
    ensures |history| == n + 1 && IsHistory(ids, edges, outgoing.Keys, history) && history[n] == RanksAfter(ids, outgoing, n)
  {
    if n == 0 {
      StartIsStart(ids, outgoing);
      OneMoreIteration(ids, outgoing, 0);
      history := [Start(ids)];
    } else {
      var before := RanksHaveHistory(ids, outgoing, edges, n - 1);
      OneMoreIteration(ids, outgoing, n - 1);
      NextIsStep(ids, outgoing, edges, before[n - 1]);
      HistorySnoc(ids, edges, outgoing.Keys, before, RanksAfter(ids, outgoing, n));
      history := before + [RanksAfter(ids, outgoing, n)];
    }
  }

  // ---------- the loops ----------

  /** The outgoing lists, filled edge by edge. */
  method BuildOutgoing(ids: seq<Id>, edges: seq<Link>) returns (outgoing: Outgoing)
    requires Distinct(ids)
    ensures outgoing.Keys == set id | id in ids
    ensures forall id :: id in outgoing ==> outgoing[id] == TargetsOf(edges, outgoing.Keys, id)
    ensures IsGraph(ids, outgoing) && ListsLinks(outgoing, edges)
  {
    var idSet := set id | id in ids;
    outgoing := map id | id in idSet :: [];
    assert edges[..0] == [];
    for i := 0 to |edges|
      invariant outgoing.Keys == idSet
      invariant forall id :: id in outgoing ==> outgoing[id] == TargetsOf(edges[..i], idSet, id)
    {
      assert edges[..i + 1][..i] == edges[..i];
      var e := edges[i];
      if e.source in idSet && e.target in idSet && Counts(e.kind) {
        outgoing := outgoing[e.source := outgoing[e.source] + [e.target]];
      }
    }
    assert edges[..|edges|] == edges;
    forall id | id in outgoing ensures forall t :: t in outgoing[id] ==> t in outgoing {
      TargetsAreFiles(edges, idSet, id);
    }
    ListedByTargets(outgoing, edges);
  }

  lemma ListedByTargets(outgoing: Outgoing, edges: seq<Link>)
    requires forall id :: id in outgoing ==> outgoing[id] == TargetsOf(edges, outgoing.Keys, id)
    ensures ListsLinks(outgoing, edges)
  {
    forall u, v | u in outgoing ensures Count(outgoing[u], v) == Tally(edges, Between(outgoing.Keys, u, v)) {
      TargetsAreTallied(edges, outgoing.Keys, u, v);
    }
    forall u | u in outgoing ensures |outgoing[u]| == Tally(edges, From(outgoing.Keys, u)) {
      TargetsAreTallied(edges, outgoing.Keys, u, u);
    }
  }

  /** Sends one file's share along its links. */
  method SendShares(ids: seq<Id>, next: Ranks, targets: seq<Id>, share: real) returns (after: Ranks)
    requires forall t :: t in targets ==> t in next
    ensures after.Keys == next.Keys
    ensures forall v :: v in next ==> after[v] == next[v] + Repeat(Count(targets, v), share)
  {
    after := next;
    for j := 0 to |targets|
      invariant after.Keys == next.Keys
      invariant forall v :: v in next ==> after[v] == next[v] + Repeat(Count(targets[..j], v), share)
    {
      assert targets[..j + 1][..j] == targets[..j];
      after := after[targets[j] := after[targets[j]] + share];
    }
    assert targets[..|targets|] == targets;
  }

  /** State of one iteration after the first `i` files have sent their shares. */
  ghost predicate Sending(ids: seq<Id>, outgoing: Outgoing, ranks: Ranks, base: real, next: Ranks, dangling: real,
                          i: nat)
  {
    && i <= |ids|
    && (forall v :: v in ids <==> v in next)
    && (forall v :: v in next ==> next[v] == base + Received(ids[..i], outgoing, ranks, v))
    && dangling == Dangling(ids[..i], outgoing, ranks)
  }

  lemma SendingStep(ids: seq<Id>, outgoing: Outgoing, ranks: Ranks, base: real, next: Ranks, dangling: real, i: nat,
                    after: Ranks)
    requires i < |ids| && Sending(ids, outgoing, ranks, base, next, dangling, i)
    requires after.Keys == next.Keys
    requires forall v :: v in next ==> after[v] == next[v] + Repeat(Count(TargetsIn(outgoing, ids[i]), v), Share(outgoing, ranks, ids[i]))
    ensures Sending(ids, outgoing, ranks, base, after, dangling + DanglingFn(outgoing, ranks)(ids[i]), i + 1)
  {
    assert ids[..i + 1][..i] == ids[..i];
  }

  /** The first half of an iteration: every file sends its shares or is counted as dangling. */
  method SendAll(ids: seq<Id>, outgoing: Outgoing, ranks: Ranks, base: real) returns (next: Ranks, dangling: real)
    requires IsGraph(ids, outgoing) && forall id :: id in ids <==> id in ranks
    ensures Sending(ids, outgoing, ranks, base, next, dangling, |ids|)
  {
    next := map id | id in ids :: base;
    dangling := 0.0;
    assert ids[..0] == [];
    for i := 0 to |ids|
      invariant Sending(ids, outgoing, ranks, base, next, dangling, i)
    {
      next, dangling := SendFrom(ids, outgoing, ranks, base, next, dangling, i);
    }
  }

  method SendFrom(ids: seq<Id>, outgoing: Outgoing, ranks: Ranks, base: real, before: Ranks, counted: real, i: nat)
    returns (next: Ranks, dangling: real)
    requires IsGraph(ids, outgoing) && (forall id :: id in ids <==> id in ranks) && i < |ids|
    requires Sending(ids, outgoing, ranks, base, before, counted, i)
    ensures Sending(ids, outgoing, ranks, base, next, dangling, i + 1)
  {
    var id := ids[i];
    assert id in ids;
    var targets := outgoing[id];
    if targets == [] {
      SendingStep(ids, outgoing, ranks, base, before, counted, i, before);
      return before, counted + ranks[id];
    }
    next := SendShares(ids, before, targets, Share(outgoing, ranks, id));
    SendingStep(ids, outgoing, ranks, base, before, counted, i, next);
    dangling := counted;
  }

  /** One iteration of `repositoryRanks` computes the formula. */
  method Iterate(ids: seq<Id>, outgoing: Outgoing, ranks: Ranks) returns (next: Ranks)
    requires ids != [] && IsGraph(ids, outgoing)
    requires forall id :: id in ids <==> id in ranks
    ensures next == Next(ids, outgoing, ranks)
  {
    var base := Part(1.0 - DAMPING, |ids|);
    var sent, dangling := SendAll(ids, outgoing, ranks, base);
    var danglingShare := Part(DAMPING * dangling, |ids|);
    next := map id | id in sent :: sent[id] + danglingShare;
    assert ids[..|ids|] == ids;
    SplitEvenShare(ids, outgoing, ranks, dangling);
    FinishIteration(ids, outgoing, ranks, base, sent, dangling, danglingShare, next);
  }

  lemma FinishIteration(ids: seq<Id>, outgoing: Outgoing, ranks: Ranks, base: real, sent: Ranks, dangling: real,
                        more: real, next: Ranks)
    requires ids != [] && Sending(ids, outgoing, ranks, base, sent, dangling, |ids|)
    requires base + more == EvenShare(ids, outgoing, ranks)
    requires next == map id | id in sent :: sent[id] + more
    ensures next == Next(ids, outgoing, ranks)
  {
    assert ids[..|ids|] == ids;
    SentIsShifted(ids, ReceivedFn(ids, outgoing, ranks), base, sent, more, next);
  }

  lemma SentIsShifted(ids: seq<Id>, received: Id -> real, base: real, sent: Ranks, more: real, next: Ranks)
    requires (forall v :: v in ids <==> v in sent) && forall v :: v in sent ==> sent[v] == base + received(v)
    requires next == map id | id in sent :: sent[id] + more
    ensures next == Shifted(ids, received, base + more)
  {
  }

  lemma SplitEvenShare(ids: seq<Id>, outgoing: Outgoing, ranks: Ranks, dangling: real)
    requires ids != [] && dangling == Dangling(ids, outgoing, ranks)
    ensures Part(1.0 - DAMPING, |ids|) + Part(DAMPING * dangling, |ids|) == EvenShare(ids, outgoing, ranks)
  {
    SplitParts(1.0 - DAMPING, DAMPING * dangling, |ids|);
  }

  lemma SplitParts(x: real, y: real, n: nat)
    requires n > 0
    ensures Part(x, n) + Part(y, n) == Part(x + y, n)
  {
    SplitFraction(x, y, n as real);
  }

  lemma SplitFraction(x: real, y: real, n: real)
    requires n > 0.0
    ensures x / n + y / n == (x + y) / n
  {
  }

  /** `repositoryRanks`: the ranks after the fixed number of iterations, divided by their maximum or 1. */
  method RepositoryRanks(ids: seq<Id>, edges: seq<Link>) returns (ranks: Ranks, ghost outgoing: Outgoing)
    requires Distinct(ids)
    ensures IsGraph(ids, outgoing) && ListsLinks(outgoing, edges)
    ensures ids == [] ==> ranks == map[]
    ensures ids != [] ==> ranks == RanksAfter(ids, outgoing, ITERATIONS) && Conserved(ids, ranks)
    ensures ids != [] ==> exists history :: |history| == 25 && IsHistory(ids, edges, (set id | id in ids), history) && ranks == history[24]
  {
    var links := BuildOutgoing(ids, edges);
    outgoing := links;
    if ids == [] {
      return map[], outgoing;
    }
    ranks := Start(ids);
    for iteration := 0 to ITERATIONS
      invariant ranks == RanksAfter(ids, links, iteration)
    {
      RanksConserveMass(ids, links, iteration);
      ranks := Iterate(ids, links, ranks);
    }
    RanksConserveMass(ids, links, ITERATIONS);
    ghost var history := RanksHaveHistory(ids, links, edges, ITERATIONS);
    assert links.Keys == set id | id in ids;
    var maximum := MaximumOrOne(ids, ranks);
    ranks := Scale(ids, ranks, maximum);
  }

  method MaximumOrOne(ids: seq<Id>, ranks: Ranks) returns (maximum: real)
    requires ids != [] && Conserved(ids, ranks)
    ensures maximum == 1.0
  {
    maximum := 1.0;
    for i := 0 to |ids|
      invariant maximum >= 1.0 && (maximum == 1.0 || exists k :: 0 <= k < i && maximum == ranks[ids[k]])
    {
      if ranks[ids[i]] > maximum {
        maximum := ranks[ids[i]];
      }
    }
    forall k | 0 <= k < |ids| ensures ranks[ids[k]] <= 1.0 {
      NoRankAboveOne(ids, ranks, ids[k]);
    }
  }

  method Scale(ids: seq<Id>, ranks: Ranks, maximum: real) returns (scaled: Ranks)
    requires maximum == 1.0 && forall id :: id in ids <==> id in ranks
    ensures scaled == ranks
  {
    scaled := map id | id in ids :: ranks[id] / maximum;
  }
}
