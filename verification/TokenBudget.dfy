/**
 * Token reservations of src/token-budget.js: minimums first, then targets, then maximums, each in
 * priority order, until the budget is spent.
 */
module TokenBudget {
  import opened Common
  import SizeAccounting

  datatype Name = Framing | Citations | Content

  datatype Reservation = Reservation(
    name: Name, minimum: nat, target: nat, maximum: nat, priority: nat, overflowIsError: bool)

  /** Alphabetical order of the three names. */
  function NameOrder(n: Name): nat {
    match n case Citations => 0 case Content => 1 case Framing => 2
  }

  /** Higher priority first, then by name. */
  predicate Before(a: Reservation, b: Reservation) {
    a.priority > b.priority || (a.priority == b.priority && NameOrder(a.name) <= NameOrder(b.name))
  }

  ghost predicate DistinctNames(rs: seq<Reservation>) {
    forall i, j :: 0 <= i < j < |rs| ==> rs[i].name != rs[j].name
  }

  function Insert(r: Reservation, s: seq<Reservation>): seq<Reservation> {
    if s == [] || Before(r, s[0]) then [r] + s else [s[0]] + Insert(r, s[1..])
  }

  function InPriorityOrder(rs: seq<Reservation>): seq<Reservation> {
    if rs == [] then [] else Insert(rs[0], InPriorityOrder(rs[1..]))
  }

  ghost predicate Sorted(s: seq<Reservation>) {
    forall i, j :: 0 <= i < j < |s| ==> Before(s[i], s[j])
  }

  lemma {:induction false} InsertSorted(r: Reservation, s: seq<Reservation>)
    requires Sorted(s) && DistinctNames(s) && forall x :: x in s ==> x.name != r.name
    ensures Sorted(Insert(r, s)) && DistinctNames(Insert(r, s))
    ensures |Insert(r, s)| == |s| + 1 && forall x :: x in Insert(r, s) <==> x == r || x in s
  {
    if s == [] || Before(r, s[0]) {
    } else {
      assert s == [s[0]] + s[1..];
      InsertSorted(r, s[1..]);
      var t := Insert(r, s[1..]);
      forall k | 0 <= k < |t| ensures Before(s[0], t[k]) && s[0].name != t[k].name {
        assert t[k] in t;
      }
    }
  }

  lemma {:induction false} OrderSorted(rs: seq<Reservation>)
    requires DistinctNames(rs)
    ensures Sorted(InPriorityOrder(rs)) && DistinctNames(InPriorityOrder(rs))
    ensures |InPriorityOrder(rs)| == |rs| && forall x :: x in InPriorityOrder(rs) <==> x in rs
  {
    if rs != [] {
      OrderSorted(rs[1..]);
      InsertSorted(rs[0], InPriorityOrder(rs[1..]));
      assert rs == [rs[0]] + rs[1..];
    }
  }

  // ---------- sums ----------

  type Allocation = map<Name, nat>

  ghost predicate Covers(a: Allocation, rs: seq<Reservation>) {
    forall i :: 0 <= i < |rs| ==> rs[i].name in a
  }

  function Sum(rs: seq<Reservation>, a: Allocation): nat
    requires Covers(a, rs)
  {
    if rs == [] then 0 else a[rs[0].name] + Sum(rs[1..], a)
  }

  function SumMinimum(rs: seq<Reservation>): nat {
    if rs == [] then 0 else rs[0].minimum + SumMinimum(rs[1..])
  }

  function SumMaximum(rs: seq<Reservation>): nat {
    if rs == [] then 0 else rs[0].maximum + SumMaximum(rs[1..])
  }

  lemma {:induction false} InsertSums(r: Reservation, s: seq<Reservation>)
    ensures SumMinimum(Insert(r, s)) == r.minimum + SumMinimum(s)
    ensures SumMaximum(Insert(r, s)) == r.maximum + SumMaximum(s)
  {
    if s == [] || Before(r, s[0]) {
      assert ([r] + s)[1..] == s;
    } else {
      InsertSums(r, s[1..]);
      assert ([s[0]] + Insert(r, s[1..]))[1..] == Insert(r, s[1..]);
    }
  }

  lemma {:induction false} OrderKeepsSums(rs: seq<Reservation>)
    ensures SumMinimum(InPriorityOrder(rs)) == SumMinimum(rs)
    ensures SumMaximum(InPriorityOrder(rs)) == SumMaximum(rs)
  {
    if rs != [] {
      OrderKeepsSums(rs[1..]);
      InsertSums(rs[0], InPriorityOrder(rs[1..]));
    }
  }

  lemma {:induction false} SumUpdate(rs: seq<Reservation>, a: Allocation, i: nat, v: nat)
    requires DistinctNames(rs) && Covers(a, rs) && i < |rs|
    ensures Covers(a[rs[i].name := v], rs)
    ensures Sum(rs, a[rs[i].name := v]) == Sum(rs, a) - a[rs[i].name] + v
  {
    if i == 0 {
      SumOther(rs[1..], a, rs[0].name, v);
    } else {
      SumUpdate(rs[1..], a, i - 1, v);
    }
  }

  lemma {:induction false} SumOther(rs: seq<Reservation>, a: Allocation, n: Name, v: nat)
    requires Covers(a, rs) && forall i :: 0 <= i < |rs| ==> rs[i].name != n
    ensures Covers(a[n := v], rs) && Sum(rs, a[n := v]) == Sum(rs, a)
  {
    if rs != [] {
      SumOther(rs[1..], a, n, v);
    }
  }

  lemma {:induction false} SumIsMinimum(rs: seq<Reservation>, a: Allocation)
    requires Covers(a, rs) && forall i :: 0 <= i < |rs| ==> a[rs[i].name] == rs[i].minimum
    ensures Sum(rs, a) == SumMinimum(rs)
  {
    if rs != [] {
      SumIsMinimum(rs[1..], a);
    }
  }

  lemma {:induction false} SumIsMaximum(rs: seq<Reservation>, a: Allocation)
    requires Covers(a, rs) && forall i :: 0 <= i < |rs| ==> a[rs[i].name] <= rs[i].maximum
    ensures Sum(rs, a) <= SumMaximum(rs)
    ensures (forall i :: 0 <= i < |rs| ==> a[rs[i].name] == rs[i].maximum) ==> Sum(rs, a) == SumMaximum(rs)
  {
    if rs != [] {
      SumIsMaximum(rs[1..], a);
    }
  }

  // ---------- what an allocation is ----------

  ghost predicate WellFormed(rs: seq<Reservation>) {
    && DistinctNames(rs)
    && forall i :: 0 <= i < |rs| ==> rs[i].minimum <= rs[i].target <= rs[i].maximum
  }

  /**
   * An allocation of `total` over reservations in priority order: bounded, spending what can be
   * spent, with no gift to a lower reservation before a higher one is satisfied, first for the
   * targets and then for the maximums.
   */
  ghost predicate IsAllocation(total: nat, ordered: seq<Reservation>, a: Allocation) {
    && Covers(a, ordered)
    && (forall i :: 0 <= i < |ordered| ==> ordered[i].minimum <= a[ordered[i].name] <= ordered[i].maximum)
    && Sum(ordered, a) == Min(total, SumMaximum(ordered))
    && (forall i, j :: 0 <= i < j < |ordered| && a[ordered[i].name] < ordered[i].target ==> a[ordered[j].name] == ordered[j].minimum)
    && (forall i, j :: 0 <= i < |ordered| && 0 <= j < |ordered| && a[ordered[i].name] > ordered[i].target ==> a[ordered[j].name] >= ordered[j].target)
    && (forall i, j :: 0 <= i < j < |ordered| && a[ordered[j].name] > ordered[j].target ==> a[ordered[i].name] == ordered[i].maximum)
  }

  lemma {:induction false} EqualSums(rs: seq<Reservation>, a: Allocation, b: Allocation, i: nat)
    requires Covers(a, rs) && Covers(b, rs) && Sum(rs, a) == Sum(rs, b)
    requires i < |rs| && a[rs[i].name] < b[rs[i].name]
    requires forall k :: 0 <= k < i ==> a[rs[k].name] == b[rs[k].name]
    ensures exists j :: i < j < |rs| && a[rs[j].name] > b[rs[j].name]
  {
    if i > 0 {
      EqualSums(rs[1..], a, b, i - 1);
      var j :| i - 1 < j < |rs[1..]| && a[rs[1..][j].name] > b[rs[1..][j].name];
      assert rs[j + 1] == rs[1..][j];
    } else if forall j :: 0 < j < |rs| ==> a[rs[j].name] <= b[rs[j].name] {
      SumsOrdered(rs[1..], a, b);
    }
  }

  lemma {:induction false} SumsOrdered(rs: seq<Reservation>, a: Allocation, b: Allocation)
    requires Covers(a, rs) && Covers(b, rs) && forall j :: 0 <= j < |rs| ==> a[rs[j].name] <= b[rs[j].name]
    ensures Sum(rs, a) <= Sum(rs, b)
  {
    if rs != [] {
      SumsOrdered(rs[1..], a, b);
    }
  }

  lemma FirstDifference(total: nat, rs: seq<Reservation>, a: Allocation, b: Allocation, i: nat)
    requires IsAllocation(total, rs, a) && IsAllocation(total, rs, b)
    requires i < |rs| && forall k :: 0 <= k < i ==> a[rs[k].name] == b[rs[k].name]
    ensures a[rs[i].name] >= b[rs[i].name]
  {
    if a[rs[i].name] < b[rs[i].name] {
      EqualSums(rs, a, b, i);
    }
  }

  /** The properties of `IsAllocation` leave exactly one allocation. */
  lemma {:induction false} AllocationUnique(total: nat, rs: seq<Reservation>, a: Allocation, b: Allocation, n: nat)
    requires IsAllocation(total, rs, a) && IsAllocation(total, rs, b) && n <= |rs|
    ensures forall i :: 0 <= i < n ==> a[rs[i].name] == b[rs[i].name]
  {
    if n > 0 {
      AllocationUnique(total, rs, a, b, n - 1);
      FirstDifference(total, rs, a, b, n - 1);
      FirstDifference(total, rs, b, a, n - 1);
    }
  }

  // ---------- the two passes ----------

  datatype Field = TargetField | MaximumField

  function Ceiling(r: Reservation, field: Field): nat {
    if field == TargetField then r.target else r.maximum
  }

  /** The share every reservation had before a pass, by position. */
  function Shares(rs: seq<Reservation>, a: Allocation): seq<nat>
    requires Covers(a, rs)
  {
    seq(|rs|, i requires 0 <= i < |rs| => a[rs[i].name])
  }

  /** State of a pass towards one field after its first `i` grants, from the shares `before`. */
  ghost predicate Pass(total: nat, rs: seq<Reservation>, field: Field, before: seq<nat>, a: Allocation, remaining: nat,
                       i: nat)
  {
    && i <= |rs| == |before| && Covers(a, rs) && Sum(rs, a) + remaining == total
    && (forall k :: 0 <= k < |rs| ==> before[k] <= a[rs[k].name] <= Ceiling(rs[k], field))
    && (forall k :: i <= k < |rs| ==> a[rs[k].name] == before[k])
    && (forall k :: 0 <= k < i && a[rs[k].name] < Ceiling(rs[k], field) ==> remaining == 0)
    && (forall k, l :: 0 <= k < l < |rs| && a[rs[l].name] > before[l] ==> a[rs[k].name] == Ceiling(rs[k], field))
  }

  lemma PassStep(total: nat, rs: seq<Reservation>, field: Field, before: seq<nat>, a: Allocation, remaining: nat,
                 i: nat, granted: nat)
    requires DistinctNames(rs) && i < |rs| && Pass(total, rs, field, before, a, remaining, i)
    requires granted == Min(Ceiling(rs[i], field) - a[rs[i].name], remaining)
    ensures Pass(total, rs, field, before, a[rs[i].name := a[rs[i].name] + granted], remaining - granted, i + 1)
  {
    SumUpdate(rs, a, i, a[rs[i].name] + granted);
    var b := a[rs[i].name := a[rs[i].name] + granted];
    assert forall k :: 0 <= k < |rs| && k != i ==> b[rs[k].name] == a[rs[k].name];
  }

  /** One turn of the outer loop of `allocate`: grants towards one field, in priority order. */
  method GrantTowards(total: nat, ordered: seq<Reservation>, field: Field, initial: Allocation, spare: nat)
    returns (allocations: Allocation, remaining: nat)
    requires DistinctNames(ordered) && Covers(initial, ordered)
    requires Pass(total, ordered, field, Shares(ordered, initial), initial, spare, 0)
    ensures Pass(total, ordered, field, Shares(ordered, initial), allocations, remaining, |ordered|)
    ensures allocations.Keys == initial.Keys
  {
    allocations, remaining := initial, spare;
    for i := 0 to |ordered|
      invariant Pass(total, ordered, field, Shares(ordered, initial), allocations, remaining, i)
      invariant allocations.Keys == initial.Keys
    {
      var requested := Ceiling(ordered[i], field) - allocations[ordered[i].name];
      PassStep(total, ordered, field, Shares(ordered, initial), allocations, remaining, i, Min(requested, remaining));
      if requested <= 0 || remaining <= 0 {
        assert allocations[ordered[i].name := allocations[ordered[i].name] + 0] == allocations;
        continue;
      }
      var granted := Min(requested, remaining);
      allocations := allocations[ordered[i].name := allocations[ordered[i].name] + granted];
      remaining := remaining - granted;
    }
  }

  lemma {:induction false} NothingLeft(rs: seq<Reservation>, a: Allocation, b: Allocation)
    requires Covers(a, rs) && Covers(b, rs) && Sum(rs, b) <= Sum(rs, a)
    requires forall k :: 0 <= k < |rs| ==> a[rs[k].name] <= b[rs[k].name]
    ensures forall k :: 0 <= k < |rs| ==> a[rs[k].name] == b[rs[k].name]
  {
    if rs != [] {
      SumsOrdered(rs[1..], a, b);
      NothingLeft(rs[1..], a, b);
      assert forall k :: 1 <= k < |rs| ==> rs[k] == rs[1..][k - 1];
    }
  }

  ghost predicate AtMinimum(rs: seq<Reservation>, a: Allocation) {
    Covers(a, rs) && forall k :: 0 <= k < |rs| ==> a[rs[k].name] == rs[k].minimum
  }

  /** The first pass leaves nothing over, or every target is met. */
  lemma FirstPass(total: nat, rs: seq<Reservation>, least: Allocation, first: Allocation, left: nat)
    requires WellFormed(rs) && AtMinimum(rs, least)
    requires Pass(total, rs, TargetField, Shares(rs, least), first, left, |rs|)
    ensures left == 0 || forall k :: 0 <= k < |rs| ==> first[rs[k].name] == rs[k].target
    ensures Pass(total, rs, MaximumField, Shares(rs, first), first, left, 0)
  {
  }

  lemma PassesGiveAllocation(total: nat, rs: seq<Reservation>, least: Allocation, first: Allocation, left: nat,
                             a: Allocation, remaining: nat)
    requires WellFormed(rs) && AtMinimum(rs, least)
    requires Pass(total, rs, TargetField, Shares(rs, least), first, left, |rs|)
    requires Pass(total, rs, MaximumField, Shares(rs, first), a, remaining, |rs|)
    ensures IsAllocation(total, rs, a)
  {
    FirstPass(total, rs, least, first, left);
    SumIsMaximum(rs, a);
    if left == 0 {
      NothingLeft(rs, first, a);
    }
  }

  /** The outer loop of `allocate`: first towards the targets, then towards the maximums. */
  method GrantAll(total: nat, ordered: seq<Reservation>, initial: Allocation, spare: nat)
    returns (allocations: Allocation)
    requires WellFormed(ordered) && AtMinimum(ordered, initial) && Sum(ordered, initial) + spare == total
    ensures IsAllocation(total, ordered, allocations)
    ensures allocations.Keys == initial.Keys
  {
    var first, left := GrantTowards(total, ordered, TargetField, initial, spare);
    FirstPass(total, ordered, initial, first, left);
    var second, unspent := GrantTowards(total, ordered, MaximumField, first, left);
    PassesGiveAllocation(total, ordered, initial, first, left, second, unspent);
    return second;
  }

  method MinimumAllocations(reservations: seq<Reservation>) returns (a: Allocation)
    requires DistinctNames(reservations)
    ensures a.Keys == set x | x in reservations :: x.name
    ensures forall k :: 0 <= k < |reservations| ==> reservations[k].name in a && a[reservations[k].name] == reservations[k].minimum
  {
    a := map[];
    for i := 0 to |reservations|
      invariant a.Keys == set x | x in reservations[..i] :: x.name
      invariant forall k :: 0 <= k < i ==> reservations[k].name in a && a[reservations[k].name] == reservations[k].minimum
    {
      assert reservations[..i + 1] == reservations[..i] + [reservations[i]];
      a := a[reservations[i].name := reservations[i].minimum];
    }
    assert reservations[..|reservations|] == reservations;
  }

  lemma OrderedStart(total: nat, rs: seq<Reservation>, a: Allocation)
    requires WellFormed(rs) && SumMinimum(rs) <= total
    requires forall k :: 0 <= k < |rs| ==> rs[k].name in a && a[rs[k].name] == rs[k].minimum
    ensures WellFormed(InPriorityOrder(rs))
    ensures AtMinimum(InPriorityOrder(rs), a) && Sum(InPriorityOrder(rs), a) == SumMinimum(rs)
  {
    OrderSorted(rs);
    OrderKeepsSums(rs);
    var ordered := InPriorityOrder(rs);
    forall k | 0 <= k < |ordered|
      ensures ordered[k].name in a && a[ordered[k].name] == ordered[k].minimum && ordered[k].minimum <= ordered[k].target <= ordered[k].maximum
    {
      assert ordered[k] in ordered;
      var j :| 0 <= j < |rs| && rs[j] == ordered[k];
    }
    SumIsMinimum(ordered, a);
  }

  /** `allocate`: an error exactly when the minimums alone exceed the budget. */
  method Allocate(total: nat, reservations: seq<Reservation>) returns (r: Result<Allocation, ()>)
    requires WellFormed(reservations)
    ensures r.Err? <==> SumMinimum(reservations) > total
    ensures r.Ok? ==> IsAllocation(total, InPriorityOrder(reservations), r.value)
    ensures r.Ok? ==> r.value.Keys == set x | x in reservations :: x.name
  {
    var allocations := MinimumAllocations(reservations);
    SumIsMinimum(reservations, allocations);
    if Sum(reservations, allocations) > total {
      return Err(());
    }
    var remaining: nat := total - Sum(reservations, allocations);
    OrderedStart(total, reservations, allocations);
    var ordered := InPriorityOrder(reservations);
    allocations := GrantAll(total, ordered, allocations, remaining);
    return Ok(allocations);
  }

  /** The one with the higher priority, or the first by name. */
  ghost predicate Outranks(a: Reservation, b: Reservation) {
    || a.priority > b.priority
    || (a.priority == b.priority && ((a.name == Citations && b.name != Citations) || (a.name == Content && b.name == Framing)))
  }

  lemma OutranksIsFirst(rs: seq<Reservation>, a: Reservation, b: Reservation) returns (i: nat, j: nat)
    requires DistinctNames(rs) && a in rs && b in rs && Outranks(a, b)
    ensures i < j < |InPriorityOrder(rs)| && InPriorityOrder(rs)[i] == a && InPriorityOrder(rs)[j] == b
  {
    OrderSorted(rs);
    var ordered := InPriorityOrder(rs);
    i :| 0 <= i < |ordered| && ordered[i] == a;
    j :| 0 <= j < |ordered| && ordered[j] == b;
  }

  /**
   * What priority means: while a reservation misses its target, all it outranks stay at their minimum; while it
   * misses its maximum, none of them gets more than its target.
   */
  lemma PriorityDecides(total: nat, rs: seq<Reservation>, granted: Allocation, a: Reservation, b: Reservation)
    requires DistinctNames(rs) && IsAllocation(total, InPriorityOrder(rs), granted)
    requires a in rs && b in rs && Outranks(a, b)
    ensures a.name in granted && b.name in granted
    ensures granted[a.name] < a.target ==> granted[b.name] == b.minimum
    ensures granted[a.name] < a.maximum ==> granted[b.name] <= b.target
  {
    var i, j := OutranksIsFirst(rs, a, b);
  }

  // ---------- defaults ----------

  function DefaultReservations(total: nat): seq<Reservation> {
    var framing := Max(64, total / 5);
    var citations := Max(64, total / 4);
    var content := Max(0, total - framing - citations);
    [Reservation(Framing, 0, framing, total, 100, true),
     Reservation(Citations, 0, citations, total, 90, false),
     Reservation(Content, 0, content, total, 50, false)]
  }

  /** What `normalizeReservations` demands of three reservations in a budget. */
  predicate ValidReservations(rs: seq<Reservation>, total: nat) {
    && |rs| == 3
    && rs[0].name != rs[1].name && rs[0].name != rs[2].name && rs[1].name != rs[2].name
    && forall i :: 0 <= i < 3 ==> rs[i].minimum <= rs[i].target <= rs[i].maximum <= total && rs[i].priority <= 1000
  }

  ghost predicate Names(rs: seq<Reservation>, n: Name) { exists x :: x in rs && x.name == n }

  /** Each of the three names once, with ascending bounds within the budget. */
  ghost predicate Acceptable(rs: seq<Reservation>, total: int) {
    && |rs| == 3 && (forall n: Name :: Names(rs, n))
    && forall x :: x in rs ==> x.minimum <= x.target <= x.maximum <= total && x.priority <= 1000
  }

  lemma ValidMeans(rs: seq<Reservation>, total: nat)
    ensures ValidReservations(rs, total) <==> Acceptable(rs, total)
  {
    if |rs| == 3 {
      assert rs[0] in rs && rs[1] in rs && rs[2] in rs;
      NamesDiffer(rs);
    }
  }

  lemma NamesDiffer(rs: seq<Reservation>)
    requires |rs| == 3
    ensures rs[0].name != rs[1].name && rs[0].name != rs[2].name && rs[1].name != rs[2].name <==> forall n: Name :: Names(rs, n)
  {
    assert rs == [rs[0], rs[1], rs[2]];
    assert rs[0] in rs && rs[1] in rs && rs[2] in rs;
    assert Names(rs, Framing) && Names(rs, Citations) && Names(rs, Content) <==> forall n: Name :: Names(rs, n);
  }

  lemma DefaultsInOrder(total: nat)
    ensures InPriorityOrder(DefaultReservations(total)) == DefaultReservations(total)
  {
    var d := DefaultReservations(total);
    assert d[1..] == [d[1], d[2]] && d[1..][1..] == [d[2]] && d[1..][1..][1..] == [];
    assert InPriorityOrder(d[1..][1..]) == [d[2]];
    assert InPriorityOrder(d[1..]) == [d[1], d[2]];
  }

  lemma ThreeSums(rs: seq<Reservation>, a: Allocation)
    requires |rs| == 3 && Covers(a, rs)
    ensures Sum(rs, a) == a[rs[0].name] + a[rs[1].name] + a[rs[2].name]
    ensures SumMinimum(rs) == rs[0].minimum + rs[1].minimum + rs[2].minimum
    ensures SumMaximum(rs) == rs[0].maximum + rs[1].maximum + rs[2].maximum
  {
    var t := rs[1..];
    var u := t[1..];
    assert u[1..] == [];
    assert Sum(u, a) == a[rs[2].name] && SumMinimum(u) == rs[2].minimum && SumMaximum(u) == rs[2].maximum;
    assert Sum(t, a) == a[rs[1].name] + Sum(u, a) && SumMinimum(t) == rs[1].minimum + SumMinimum(u) && SumMaximum(t) == rs[1].maximum + SumMaximum(u);
  }

  /** The defaults pass the validation of given reservations for every budget of at least 64 tokens. */
  lemma DefaultsAreValid(total: nat)
    requires total >= 64
    ensures ValidReservations(DefaultReservations(total), total)
    ensures SumMinimum(DefaultReservations(total)) == 0
  {
    ThreeSums(DefaultReservations(total), map[Framing := 0, Citations := 0, Content := 0]);
  }

  /** The defaults spend every budget of at least 64 tokens whole. */
  lemma DefaultsSpendAll(total: nat, a: Allocation)
    requires total >= 64 && IsAllocation(total, InPriorityOrder(DefaultReservations(total)), a)
    ensures Framing in a && Citations in a && Content in a
    ensures a[Framing] + a[Citations] + a[Content] == total
    ensures a[Framing] == Max(64, total / 5)
    ensures a[Citations] == Min(Max(64, total / 4), total - a[Framing])
  {
    DefaultsInOrder(total);
    var d := DefaultReservations(total);
    ThreeSums(d, a);
    assert d[0].name in a && d[1].name in a && d[2].name in a;
  }

  // ---------- the plan ----------

  datatype Plan = Plan(maxTokens: nat, reserveTokens: nat, availableTokens: nat, reservations: seq<Reservation>, allocations: Allocation)

  datatype PlanError = BadMaxTokens | BadReserve | BadReservations | MinimumsExceedBudget

  function MaxTokensOf(requested: Option<int>, maxChars: nat): int {
    if requested.Some? then requested.value else SizeAccounting.Tokens(maxChars)
  }

  function ReserveOf(requested: Option<int>, maxTokens: nat): int {
    if requested.Some? then requested.value else Min(2_048, Max(0, maxTokens / 10))
  }

  /** `normalizeReservations` and `allocate` for what is left after the reserve. */
  method PlanReservations(available: nat, given: Option<seq<Reservation>>)
    returns (r: Result<(seq<Reservation>, Allocation), PlanError>)
    requires available >= 64
    ensures given.None? ==> r.Ok? && r.value.0 == DefaultReservations(available)
    ensures given.Some? ==>
              && (r == Err(BadReservations) <==> !Acceptable(given.value, available))
              && (r == Err(MinimumsExceedBudget) <==> Acceptable(given.value, available) && SumMinimum(given.value) > available)
              && (r.Ok? ==> r.value.0 == given.value)
    ensures r.Err? ==> r.error == BadReservations || r.error == MinimumsExceedBudget
    ensures r.Ok? ==> IsAllocation(available, InPriorityOrder(r.value.0), r.value.1)
  {
    var entries := if given.None? then DefaultReservations(available) else given.value;
    DefaultsAreValid(available);
    ValidMeans(entries, available);
    if !ValidReservations(entries, available) {
      return Err(BadReservations);
    }
    var allocations := Allocate(available, entries);
    if allocations.Err? {
      return Err(MinimumsExceedBudget);
    }
    return Ok((entries, allocations.value));
  }

  function AvailableOf(maxTokens: Option<int>, reserve: Option<int>, maxChars: nat): int {
    var selected := Max(0, MaxTokensOf(maxTokens, maxChars));
    selected - ReserveOf(reserve, selected)
  }

  /** The budget is in range and leaves at least 64 tokens after the reserve. */
  predicate GoodNumbers(maxTokens: Option<int>, reserve: Option<int>, maxChars: nat) {
    var selected := MaxTokensOf(maxTokens, maxChars);
    128 <= selected <= 1_000_000 && 64 <= AvailableOf(maxTokens, reserve, maxChars) <= selected
  }

  /** The numeric part of `createTokenBudget` for an enabled plan. */
  method CreateTokenBudget(maxTokens: Option<int>, reserve: Option<int>, reservations: Option<seq<Reservation>>,
                           maxChars: nat)
    returns (r: Result<Plan, PlanError>)
    ensures r == Err(BadMaxTokens) <==>
              match maxTokens case Some(asked) => !(128 <= asked <= 1_000_000) case None => !(509 <= maxChars <= 4_000_000)
    ensures r.Ok? ==>
              && r.value.maxTokens == MaxTokensOf(maxTokens, maxChars)
              && r.value.reserveTokens == ReserveOf(reserve, r.value.maxTokens)
              && r.value.availableTokens >= 64
              && r.value.availableTokens + r.value.reserveTokens == r.value.maxTokens
              && IsAllocation(r.value.availableTokens, InPriorityOrder(r.value.reservations), r.value.allocations)
    ensures r.Ok? && maxTokens.None? ==> 4 * r.value.maxTokens - 3 <= maxChars <= 4 * r.value.maxTokens
    ensures r.Ok? && maxTokens.Some? ==> r.value.maxTokens == maxTokens.value
    ensures r.Ok? && reserve.None? ==>
              var kept := r.value.reserveTokens;
              kept <= 2_048 && 10 * kept <= r.value.maxTokens && (kept < 2_048 ==> r.value.maxTokens < 10 * kept + 10)
    ensures r.Ok? && reserve.Some? ==> r.value.reserveTokens == reserve.value
    ensures r == Err(BadReserve) <==>
              r != Err(BadMaxTokens) && reserve.Some? && !(0 <= reserve.value <= MaxTokensOf(maxTokens, maxChars) - 64)
    ensures reserve.None? && reservations.None? && r != Err(BadMaxTokens) ==> r.Ok?
    ensures reservations.None? && r.Ok? ==> r.value.reservations == DefaultReservations(r.value.availableTokens)
    ensures reservations.None? ==> r != Err(BadReservations) && r != Err(MinimumsExceedBudget)
    ensures reservations.Some? && r.Ok? ==> r.value.reservations == reservations.value
    ensures reservations.Some? ==>
              (r == Err(BadReservations) <==>
                 GoodNumbers(maxTokens, reserve, maxChars) && !Acceptable(reservations.value, AvailableOf(maxTokens, reserve, maxChars)))
    ensures reservations.Some? ==>
              (r == Err(MinimumsExceedBudget) <==>
                 && GoodNumbers(maxTokens, reserve, maxChars) && Acceptable(reservations.value, AvailableOf(maxTokens, reserve, maxChars))
                 && SumMinimum(reservations.value) > AvailableOf(maxTokens, reserve, maxChars))
  {
    var selected := MaxTokensOf(maxTokens, maxChars);
    if selected < 128 || selected > 1_000_000 {
      return Err(BadMaxTokens);
    }
    var kept := ReserveOf(reserve, selected);
    if kept < 0 || kept > selected - 64 {
      return Err(BadReserve);
    }
    var available := selected - kept;
    var planned := PlanReservations(available, reservations);
    if planned.Err? {
      return Err(planned.error);
    }
    return Ok(Plan(selected, kept, available, planned.value.0, planned.value.1));
  }
}
