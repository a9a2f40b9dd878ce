/** The step driver of the YY1 converter (src/yy1/converter.rs): routing
    components into steps, ordering a step's components, assigning heads and
    nozzle changes through the planner, and choosing the four header lines. */
module Converter {
  import opened Yy1
  import opened Planning

  // ---------------------------------------------------------------------
  // The component order of a step

  /** `std::cmp::Ordering` */
  datatype Ordering = Less | Equal | Greater

  /** `bool::cmp`: false before true. */
  function CmpBool(a: bool, b: bool): (r: Ordering)
    ensures r == Equal <==> a == b
    ensures r == Less <==> !a && b
  {
    if a == b then Equal else if !a then Less else Greater
  }

  /** `cmp` on integers (and `total_cmp` on the place height). */
  function CmpInt(a: int, b: int): (r: Ordering)
    ensures r == Equal <==> a == b
    ensures r == Less <==> a < b
  {
    if a < b then Less else if a == b then Equal else Greater
  }

  /** The comparator `assign_nozzles` sorts with: nozzles mounted on a head
      first (a missing nozzle counts as CN040), then place height, then
      nozzle declaration order, then feeder number. */
  function Compare(cfg: NozzleState, c1: ComponentRecord, c2: ComponentRecord): Ordering {
    var nozzle1 := c1.nozzle.UnwrapOr(CN040);
    var nozzle2 := c2.nozzle.UnwrapOr(CN040);
    match CmpBool(cfg.IsActive(nozzle2), cfg.IsActive(nozzle1))
    case Equal =>
      (match CmpInt(c1.placeHeight, c2.placeHeight)
       case Equal =>
         (match CmpInt(Ordinal(nozzle1), Ordinal(nozzle2))
          case Equal => CmpInt(c1.feeder as int, c2.feeder as int)
          case ord => ord)
       case ord => ord)
    case ord => ord
  }

  /** The sort key of a component, compared lexicographically: 0 for a
      nozzle on a head and 1 otherwise, place height, nozzle position, feeder. */
  function SortKey(cfg: NozzleState, c: ComponentRecord): seq<int> {
    var nozzle := c.nozzle.UnwrapOr(CN040);
    [if cfg.IsActive(nozzle) then 0 else 1, c.placeHeight, Ordinal(nozzle), c.feeder as int]
  }

  /** Lexicographic order on equally long keys. */
  predicate KeyLess(a: seq<int>, b: seq<int>)
    requires |a| == |b|
    decreases |a|
  {
    |a| > 0 && (a[0] < b[0] || (a[0] == b[0] && KeyLess(a[1..], b[1..])))
  }

  /** `KeyLess` on four-element keys, unrolled. */
  lemma KeyLessOfFour(a: seq<int>, b: seq<int>)
    requires |a| == |b| == 4
    ensures KeyLess(a, b) <==>
      a[0] < b[0] || (a[0] == b[0] && (a[1] < b[1] || (a[1] == b[1] &&
        (a[2] < b[2] || (a[2] == b[2] && a[3] < b[3])))))
    ensures a == b <==> a[0] == b[0] && a[1] == b[1] && a[2] == b[2] && a[3] == b[3]
  {
    var a1, b1 := a[1..], b[1..];
    var a2, b2 := a1[1..], b1[1..];
    var a3, b3 := a2[1..], b2[1..];
    assert a3[1..] == [] && b3[1..] == [];
    assert !KeyLess(a3[1..], b3[1..]);
    assert KeyLess(a3, b3) <==> a[3] < b[3];
    assert KeyLess(a2, b2) <==> a[2] < b[2] || (a[2] == b[2] && a[3] < b[3]);
    assert KeyLess(a1, b1) <==> a[1] < b[1] || (a[1] == b[1] && KeyLess(a2, b2));
    if a[0] == b[0] && a[1] == b[1] && a[2] == b[2] && a[3] == b[3] {
      assert a == [a[0], a[1], a[2], a[3]] && b == [b[0], b[1], b[2], b[3]];
    }
  }

  /** The comparator is exactly the lexicographic order of the four keys. */
  lemma CompareIsKeyOrder(cfg: NozzleState, c1: ComponentRecord, c2: ComponentRecord)
    ensures Compare(cfg, c1, c2) == Less <==> KeyLess(SortKey(cfg, c1), SortKey(cfg, c2))
    ensures Compare(cfg, c1, c2) == Equal <==> SortKey(cfg, c1) == SortKey(cfg, c2)
    ensures Compare(cfg, c1, c2) == Greater <==> KeyLess(SortKey(cfg, c2), SortKey(cfg, c1))
  {
    KeyLessOfFour(SortKey(cfg, c1), SortKey(cfg, c2));
    KeyLessOfFour(SortKey(cfg, c2), SortKey(cfg, c1));
    OrdinalInjective(c1.nozzle.UnwrapOr(CN040), c2.nozzle.UnwrapOr(CN040));
  }

  lemma {:induction false} KeyLessTransitive(a: seq<int>, b: seq<int>, c: seq<int>)
    requires |a| == |b| == |c| && KeyLess(a, b) && KeyLess(b, c)
    ensures KeyLess(a, c)
    decreases |a|
  {
    if a[0] == b[0] && b[0] == c[0] {
      KeyLessTransitive(a[1..], b[1..], c[1..]);
    }
  }

  lemma {:induction false} KeyLessIrreflexive(a: seq<int>)
    ensures !KeyLess(a, a)
    decreases |a|
  {
    if |a| > 0 {
      KeyLessIrreflexive(a[1..]);
    }
  }

  lemma {:induction false} KeyLessTotal(a: seq<int>, b: seq<int>)
    requires |a| == |b|
    ensures a == b || KeyLess(a, b) || KeyLess(b, a)
    decreases |a|
  {
    if |a| > 0 && a[0] == b[0] {
      KeyLessTotal(a[1..], b[1..]);
      if a[1..] == b[1..] {
        assert a == [a[0]] + a[1..] && b == [b[0]] + b[1..];
      }
    }
  }

  lemma KeyLessAsymmetric(a: seq<int>, b: seq<int>)
    requires |a| == |b| && KeyLess(a, b)
    ensures !KeyLess(b, a)
  {
    if KeyLess(b, a) {
      KeyLessTransitive(a, b, a);
      KeyLessIrreflexive(a);
    }
  }

  /** Swapping the arguments reverses the comparator's answer. */
  lemma CompareAntisymmetric(cfg: NozzleState, c1: ComponentRecord, c2: ComponentRecord)
    ensures Compare(cfg, c1, c2) == Less <==> Compare(cfg, c2, c1) == Greater
    ensures Compare(cfg, c1, c2) == Equal <==> Compare(cfg, c2, c1) == Equal
  {
    CompareIsKeyOrder(cfg, c1, c2);
    CompareIsKeyOrder(cfg, c2, c1);
  }

  /** The comparator is a total preorder: "not after" is transitive. */
  lemma CompareTransitive(cfg: NozzleState, a: ComponentRecord, b: ComponentRecord, c: ComponentRecord)
    requires Compare(cfg, a, b) != Greater && Compare(cfg, b, c) != Greater
    ensures Compare(cfg, a, c) != Greater
  {
    CompareIsKeyOrder(cfg, a, b);
    CompareIsKeyOrder(cfg, b, c);
    CompareIsKeyOrder(cfg, a, c);
    var ka, kb, kc := SortKey(cfg, a), SortKey(cfg, b), SortKey(cfg, c);
    KeyLessTotal(ka, kb);
    KeyLessTotal(kb, kc);
    if ka != kb && kb != kc {
      KeyLessTransitive(ka, kb, kc);
    }
    if KeyLess(ka, kc) {
      KeyLessAsymmetric(ka, kc);
    } else {
      KeyLessIrreflexive(ka);
    }
  }

  /** No component is placed before a component whose nozzle is mounted
      when its own nozzle is not. */
  lemma MountedNozzlesFirst(cfg: NozzleState, c1: ComponentRecord, c2: ComponentRecord)
    requires cfg.IsActive(c1.nozzle.UnwrapOr(CN040)) && !cfg.IsActive(c2.nozzle.UnwrapOr(CN040))
    ensures Compare(cfg, c1, c2) == Less
  {
  }

  /** Among components alike in the first key, a lower place height comes first. */
  lemma LowerPlaceHeightFirst(cfg: NozzleState, c1: ComponentRecord, c2: ComponentRecord)
    requires cfg.IsActive(c1.nozzle.UnwrapOr(CN040)) == cfg.IsActive(c2.nozzle.UnwrapOr(CN040))
    requires c1.placeHeight < c2.placeHeight
    ensures Compare(cfg, c1, c2) == Less
  {
  }

  /** Neighbouring components are in comparator order. */
  ghost predicate Sorted(cfg: NozzleState, s: seq<ComponentRecord>) {
    forall i :: 0 < i < |s| ==> Compare(cfg, s[i - 1], s[i]) != Greater
  }

  /** In a sorted sequence every component is in comparator order with every
      later one, not only with its neighbour. */
  lemma {:induction false} SortedPairwise(cfg: NozzleState, s: seq<ComponentRecord>, i: nat, j: nat)
    requires Sorted(cfg, s) && i < j < |s|
    ensures Compare(cfg, s[i], s[j]) != Greater
    decreases j - i
  {
    if i + 1 < j {
      SortedPairwise(cfg, s, i + 1, j);
      CompareTransitive(cfg, s[i], s[i + 1], s[j]);
    }
  }

  /** Inserts `x` in front of the first component that is not before it. */
  function Insert(cfg: NozzleState, x: ComponentRecord, s: seq<ComponentRecord>): (r: seq<ComponentRecord>)
    requires Sorted(cfg, s)
    ensures Sorted(cfg, r)
    ensures multiset(r) == multiset(s) + multiset{x}
    ensures |r| == |s| + 1
    ensures r[0] == x || (s != [] && r[0] == s[0])
    decreases |s|
  {
    if s == [] then [x]
    else if Compare(cfg, x, s[0]) == Greater then
      CompareAntisymmetric(cfg, x, s[0]);
      assert s == [s[0]] + s[1..];
      [s[0]] + Insert(cfg, x, s[1..])
    else
      [x] + s
  }

  /** `sort_by` with the comparator above (a stable sort). */
  function SortBy(cfg: NozzleState, s: seq<ComponentRecord>): (r: seq<ComponentRecord>)
    ensures Sorted(cfg, r)
    ensures multiset(r) == multiset(s)
    decreases |s|
  {
    if s == [] then []
    else
      assert s == [s[0]] + s[1..];
      Insert(cfg, s[0], SortBy(cfg, s[1..]))
  }

  // ---------------------------------------------------------------------
  // What the machine sees for each component

  /** The changes anchored at or before component `p`, in their order. */
  function Upto(cs: seq<NozzleChange>, p: nat): (r: seq<NozzleChange>)
    ensures forall c :: c in r <==> c in cs && c.beforeComponent <= p
    ensures |r| <= |cs|
  {
    if cs == [] then []
    else (if cs[0].beforeComponent <= p then [cs[0]] else []) + Upto(cs[1..], p)
  }

  lemma {:induction false} UptoAppend(a: seq<NozzleChange>, b: seq<NozzleChange>, p: nat)
    ensures Upto(a + b, p) == Upto(a, p) + Upto(b, p)
    decreases |a|
  {
    if a == [] {
      assert a + b == b;
    } else {
      assert (a + b)[0] == a[0] && (a + b)[1..] == a[1..] + b;
      UptoAppend(a[1..], b, p);
    }
  }

  lemma {:induction false} UptoAll(cs: seq<NozzleChange>, p: nat)
    requires forall c :: c in cs ==> c.beforeComponent <= p
    ensures Upto(cs, p) == cs
    decreases |cs|
  {
    if cs != [] {
      assert forall c :: c in cs[1..] ==> c in cs;
      UptoAll(cs[1..], p);
    }
  }

  /** The configuration the machine has when it reaches nozzle-bearing
      component `p`: the initial one after every change anchored up to `p`. */
  function ConfigBefore(cfg: NozzleState, forward: seq<NozzleChange>, p: nat): NozzleState {
    Replay(cfg, Upto(forward, p))
  }

  /** The Head column `column` names a head that holds `n` in `s`. */
  predicate Mounted(s: NozzleState, column: u8, n: Nozzle) {
    (column == 1 && s.head1 == Some(n)) || (column == 2 && s.head2 == Some(n))
  }

  /** The 1-based position of component `i` among the nozzle-bearing ones:
      the planner's `component_index` when it reaches that component. */
  function NozzlePos(order: seq<ComponentRecord>, i: nat): nat
    requires i <= |order|
  {
    |NozzleSeq(order[..i])| + 1
  }

  lemma NozzlePosStep(order: seq<ComponentRecord>, j: nat)
    requires j < |order|
    ensures NozzlePos(order, j + 1) == NozzlePos(order, j) + (if order[j].nozzle.Some? then 1 else 0)
  {
    assert order[..j + 1] == order[..j] + [order[j]];
    NozzleSeqAppend(order[..j], [order[j]]);
    assert [order[j]][1..] == [];
  }

  lemma NozzlePosIncreasing(order: seq<ComponentRecord>, i: nat, j: nat)
    requires i < j <= |order| && order[i].nozzle.Some?
    ensures NozzlePos(order, i) < NozzlePos(order, j)
  {
    assert order[..j] == order[..i] + order[i..j];
    NozzleSeqAppend(order[..i], order[i..j]);
    assert order[i..j][0] == order[i];
  }

  /** `comp` is component `i` of `order` with only its Head column changed;
      without a nozzle it is unchanged, and with one it names a head that
      holds the nozzle once the machine has performed the changes anchored
      up to it. */
  ghost predicate AssignedAt(cfg: NozzleState, order: seq<ComponentRecord>, comp: ComponentRecord,
                             forward: seq<NozzleChange>, i: nat)
    requires i < |order|
  {
    && comp == order[i].(head := comp.head)
    && (order[i].nozzle.None? ==> comp == order[i])
    && (order[i].nozzle.Some? ==>
          Mounted(ConfigBefore(cfg, forward, NozzlePos(order, i)), comp.head, order[i].nozzle.value))
  }

  /** The first `j` components of `comps` are assigned. */
  ghost predicate HeadsAssigned(cfg: NozzleState, order: seq<ComponentRecord>, comps: seq<ComponentRecord>,
                                forward: seq<NozzleChange>, j: nat)
    requires j <= |order| && j <= |comps|
  {
    forall i :: 0 <= i < j ==> AssignedAt(cfg, order, comps[i], forward, i)
  }

  /** Assigning component `j` extends the assigned prefix by one. */
  lemma HeadsAssignedExtend(cfg: NozzleState, order: seq<ComponentRecord>, comps: seq<ComponentRecord>,
                            comps': seq<ComponentRecord>, forward: seq<NozzleChange>, j: nat)
    requires j < |order| && j <= |comps| && j < |comps'|
    requires HeadsAssigned(cfg, order, comps, forward, j)
    requires forall i :: 0 <= i < j ==> comps'[i] == comps[i]
    requires AssignedAt(cfg, order, comps'[j], forward, j)
    ensures HeadsAssigned(cfg, order, comps', forward, j + 1)
  {
  }

  /** Appending rows after the assigned prefix keeps it assigned. */
  lemma HeadsAssignedAppend(cfg: NozzleState, order: seq<ComponentRecord>, comps: seq<ComponentRecord>,
                            extra: seq<ComponentRecord>, forward: seq<NozzleChange>)
    requires |order| <= |comps|
    requires HeadsAssigned(cfg, order, comps, forward, |order|)
    ensures HeadsAssigned(cfg, order, comps + extra, forward, |order|)
  {
    assert forall i :: 0 <= i < |order| ==> (comps + extra)[i] == comps[i];
  }

  lemma MountedByHead(s: NozzleState, h: Head, n: Nozzle)
    requires s.GetHeadNozzle(h) == Some(n)
    ensures Mounted(s, HeadNumber(h), n)
  {
  }

  /** A change anchored at the current component does not alter what the
      machine holds at the components already assigned. */
  lemma HeadsAssignedAfterChange(cfg: NozzleState, order: seq<ComponentRecord>, comps: seq<ComponentRecord>,
                                 forward: seq<NozzleChange>, c: NozzleChange, j: nat)
    requires j <= |order| && j <= |comps|
    requires HeadsAssigned(cfg, order, comps, forward, j)
    requires c.beforeComponent == NozzlePos(order, j)
    ensures HeadsAssigned(cfg, order, comps, forward + [c], j)
  {
    forall i | 0 <= i < j && order[i].nozzle.Some?
      ensures ConfigBefore(cfg, forward + [c], NozzlePos(order, i)) == ConfigBefore(cfg, forward, NozzlePos(order, i))
    {
      var p := NozzlePos(order, i);
      NozzlePosIncreasing(order, i, j);
      UptoAppend(forward, [c], p);
      assert Upto([c], p) == [];
      assert Upto(forward, p) + [] == Upto(forward, p);
    }
  }

  /** Several changes anchored at the current component leave the
      components already assigned as they were. */
  lemma {:induction false} HeadsAssignedAfterChanges(cfg: NozzleState, order: seq<ComponentRecord>, comps: seq<ComponentRecord>,
                                                    forward: seq<NozzleChange>, added: seq<NozzleChange>, j: nat)
    requires j <= |order| && j <= |comps|
    requires HeadsAssigned(cfg, order, comps, forward, j)
    requires forall c :: c in added ==> c.beforeComponent == NozzlePos(order, j)
    ensures HeadsAssigned(cfg, order, comps, forward + added, j)
    decreases |added|
  {
    if added == [] {
      assert forward + added == forward;
    } else {
      var init := added[..|added| - 1];
      assert added == init + [added[|added| - 1]];
      assert forall c :: c in init ==> c in added;
      HeadsAssignedAfterChanges(cfg, order, comps, forward, init, j);
      HeadsAssignedAfterChange(cfg, order, comps, forward + init, added[|added| - 1], j);
      assert forward + init + [added[|added| - 1]] == forward + added;
    }
  }

  // ---------------------------------------------------------------------
  // `assign_nozzles` on values

  /** The retry loop of `assign_nozzles` for one component needing `nozzle`:
      `plan` until it names a head. */
  function PlanComponent(p: PlannerState, nozzle: Nozzle): Result<(Head, PlannerState)>
    requires p.config.HasEmptyStation()
    requires nozzle in p.nozzleSpans && p.nozzleSpans[nozzle] >= p.componentIndex
    decreases if p.config.GetHeadNozzle(p.head) == Some(nozzle) then 0 else 1
  {
    PlanStepSpec(p, nozzle);
    var (action, q) := PlanStep(p, nozzle);
    match action
    case Panic(reason) => Panic(reason)
    case Ok(UseHead(h)) => Ok((h, q))
    case Ok(Change(_)) => PlanComponent(q, nozzle)
  }

  /** The retry loop ends with a head that holds `nozzle` and the index one
      further on. The nozzle's span reaches the current component, so at
      most one change, anchored at that component, precedes the head: a
      nozzle already on the current head is used without a change, and a
      change mounts it there for good. */
  lemma {:induction false} PlanComponentSpec(p: PlannerState, nozzle: Nozzle)
    requires p.config.HasEmptyStation()
    requires nozzle in p.nozzleSpans && p.nozzleSpans[nozzle] >= p.componentIndex
    ensures var r := PlanComponent(p, nozzle);
      r.Ok? ==>
      var q := r.value.1;
      && q.componentIndex == p.componentIndex + 1
      && q.nozzleSpans == p.nozzleSpans && q.config.HasEmptyStation()
      && q.config.GetHeadNozzle(r.value.0) == Some(nozzle)
      && |p.nozzleHistory| <= |q.nozzleHistory| <= |p.nozzleHistory| + 1
      && q.nozzleHistory[..|p.nozzleHistory|] == p.nozzleHistory
      && (forall i :: |p.nozzleHistory| <= i < |q.nozzleHistory| ==>
            q.nozzleHistory[i].enabled && q.nozzleHistory[i].beforeComponent == p.componentIndex)
      && (p.config.GetHeadNozzle(p.head) == Some(nozzle) ==> q.nozzleHistory == p.nozzleHistory)
    decreases if p.config.GetHeadNozzle(p.head) == Some(nozzle) then 0 else 1
  {
    PlanStepSpec(p, nozzle);
    var (action, q) := PlanStep(p, nozzle);
    if action.Ok? && action.value.Change? {
      PlanComponentSpec(q, nozzle);
      var c := action.value.change;
      var q' := PlanComponent(q, nozzle).value.1;
      if PlanComponent(q, nozzle).Ok? {
        assert q'.nozzleHistory == q.nozzleHistory;
        assert q'.nozzleHistory[..|p.nozzleHistory|] == p.nozzleHistory;
      }
    }
  }

  /** One round of the retry loop: a head ends it, a change leaves the rest
      of the loop to the planner with the nozzle on its current head, and a
      panic ends it with that panic. */
  lemma PlanComponentUnfold(p: PlannerState, nozzle: Nozzle)
    requires p.config.HasEmptyStation()
    requires nozzle in p.nozzleSpans && p.nozzleSpans[nozzle] >= p.componentIndex
    ensures var (action, q) := PlanStep(p, nozzle);
      && (action.Panic? ==> PlanComponent(p, nozzle).Panic? && q == p)
      && (action.Ok? && action.value.UseHead? ==> PlanComponent(p, nozzle) == Ok((action.value.head, q)))
      && (action.Ok? && action.value.Change? ==>
            && p.config.GetHeadNozzle(p.head) != Some(nozzle)
            && q.config.GetHeadNozzle(q.head) == Some(nozzle)
            && q.componentIndex == p.componentIndex && q.nozzleSpans == p.nozzleSpans
            && q.nozzleHistory == p.nozzleHistory + [action.value.change]
            && PlanComponent(p, nozzle) == PlanComponent(q, nozzle))
  {
    PlanStepSpec(p, nozzle);
  }

  /** The retry loop keeps the planner consistent with where it started. */
  lemma {:induction false} PlanComponentKeepsConsistent(initial: NozzleState, p: PlannerState, nozzle: Nozzle)
    requires Consistent(initial, p)
    requires nozzle in p.nozzleSpans && p.nozzleSpans[nozzle] >= p.componentIndex
    requires PlanComponent(p, nozzle).Ok?
    ensures Consistent(initial, PlanComponent(p, nozzle).value.1)
    decreases if p.config.GetHeadNozzle(p.head) == Some(nozzle) then 0 else 1
  {
    PlanKeepsConsistent(initial, p, nozzle);
    PlanStepSpec(p, nozzle);
    var (action, q) := PlanStep(p, nozzle);
    if action.Ok? && action.value.Change? {
      PlanComponentKeepsConsistent(initial, q, nozzle);
    }
  }

  /** The loop of `assign_nozzles` over the first `j` sorted components: the
      rows so far, each nozzle-bearing one with the head `plan` named, and
      the planner afterwards. */
  function RunPlanner(cfg: NozzleState, order: seq<ComponentRecord>, j: nat): (r: Result<(seq<ComponentRecord>, PlannerState)>)
    requires cfg.HasEmptyStation() && j <= |order|
    ensures r.Ok? ==>
      var q := r.value.1;
      && |r.value.0| == j
      && q.componentIndex == NozzlePos(order, j)
      && q.nozzleSpans == Spans(order)
      && q.config.HasEmptyStation()
      && (forall c :: c in q.nozzleHistory ==> c.enabled && 1 <= c.beforeComponent < NozzlePos(order, j))
    decreases j
  {
    if j == 0 then
      assert order[..0] == [];
      Ok(([], NewPlanner(cfg, order)))
    else
      match RunPlanner(cfg, order, j - 1)
      case Panic(reason) => Panic(reason)
      case Ok((rows, p)) =>
        var c := order[j - 1];
        NozzlePosStep(order, j - 1);
        match c.nozzle
        case None => Ok((rows + [c], p))
        case Some(n) =>
          NeededNozzleHasSpan(order, j - 1);
          PlanComponentSpec(p, n);
          match PlanComponent(p, n)
          case Panic(reason) => Panic(reason)
          case Ok((h, q)) =>
            assert q.nozzleHistory == p.nozzleHistory + q.nozzleHistory[|p.nozzleHistory|..];
            Ok((rows + [c.(head := HeadNumber(h))], q))
  }

  /** Once the loop has panicked, it stays panicked. */
  lemma {:induction false} RunPlannerPanicStays(cfg: NozzleState, order: seq<ComponentRecord>, j: nat, m: nat)
    requires cfg.HasEmptyStation() && j <= m <= |order|
    requires RunPlanner(cfg, order, j).Panic?
    ensures RunPlanner(cfg, order, m).Panic?
    decreases m
  {
    if j < m {
      RunPlannerPanicStays(cfg, order, j, m - 1);
    }
  }

  /** One pass of the loop: how the rows and the planner after `j + 1`
      components come from those after `j`. */
  lemma RunPlannerStep(cfg: NozzleState, order: seq<ComponentRecord>, j: nat)
    requires cfg.HasEmptyStation() && j < |order| && RunPlanner(cfg, order, j + 1).Ok?
    ensures RunPlanner(cfg, order, j).Ok?
    ensures var (rows, p) := RunPlanner(cfg, order, j).value;
      var (rows', q) := RunPlanner(cfg, order, j + 1).value;
      && rows' == rows + [rows'[j]]
      && (order[j].nozzle.None? ==> rows'[j] == order[j] && q == p)
      && (order[j].nozzle.Some? ==>
            var n := order[j].nozzle.value;
            && n in p.nozzleSpans && p.nozzleSpans[n] >= p.componentIndex
            && PlanComponent(p, n).Ok?
            && q == PlanComponent(p, n).value.1
            && rows'[j] == order[j].(head := HeadNumber(PlanComponent(p, n).value.0)))
  {
    var (rows, p) := RunPlanner(cfg, order, j).value;
    if order[j].nozzle.Some? {
      NeededNozzleHasSpan(order, j);
    }
  }

  /** Row `j`, given a head that holds its nozzle after the changes the
      retry loop added, extends the assigned prefix; the added changes,
      anchored at row `j`, leave the earlier rows as they were. */
  lemma AssignedOneMore(cfg: NozzleState, order: seq<ComponentRecord>, rows: seq<ComponentRecord>,
                        earlier: seq<NozzleChange>, later: seq<NozzleChange>, h: Head, j: nat)
    requires j < |order| && |rows| == j && order[j].nozzle.Some?
    requires HeadsAssigned(cfg, order, rows, earlier, j)
    requires |earlier| <= |later| && later[..|earlier|] == earlier
    requires forall i :: |earlier| <= i < |later| ==> later[i].beforeComponent == NozzlePos(order, j)
    requires forall c :: c in later ==> c.beforeComponent <= NozzlePos(order, j)
    requires Replay(cfg, later).GetHeadNozzle(h) == Some(order[j].nozzle.value)
    ensures HeadsAssigned(cfg, order, rows + [order[j].(head := HeadNumber(h))], later, j + 1)
  {
    var added := later[|earlier|..];
    assert later == earlier + added;
    assert forall c :: c in added ==> c.beforeComponent == NozzlePos(order, j);
    HeadsAssignedAfterChanges(cfg, order, rows, earlier, added, j);
    UptoAll(later, NozzlePos(order, j));
    MountedByHead(Replay(cfg, later), h, order[j].nozzle.value);
    HeadsAssignedExtend(cfg, order, rows, rows + [order[j].(head := HeadNumber(h))], later, j);
  }

  /** After the first `j` components the planner is consistent with the
      step's configuration, and every nozzle-bearing row names a head that
      holds its nozzle when the machine, performing the changes recorded so
      far, reaches it. */
  lemma {:induction false} RunPlannerAssigns(cfg: NozzleState, order: seq<ComponentRecord>, j: nat)
    requires cfg.HasEmptyStation() && j <= |order| && RunPlanner(cfg, order, j).Ok?
    ensures Consistent(cfg, RunPlanner(cfg, order, j).value.1)
    ensures HeadsAssigned(cfg, order, RunPlanner(cfg, order, j).value.0,
                          RunPlanner(cfg, order, j).value.1.nozzleHistory, j)
    decreases j
  {
    if j > 0 {
      var k := j - 1;
      RunPlannerStep(cfg, order, k);
      RunPlannerAssigns(cfg, order, k);
      var (rows, p) := RunPlanner(cfg, order, k).value;
      var (rows', q) := RunPlanner(cfg, order, j).value;
      if order[k].nozzle.Some? {
        var n := order[k].nozzle.value;
        PlanComponentKeepsConsistent(cfg, p, n);
        PlanComponentSpec(p, n);
        NozzlePosStep(order, k);
        AssignedOneMore(cfg, order, rows, p.nozzleHistory, q.nozzleHistory, PlanComponent(p, n).value.0, k);
      } else {
        HeadsAssignedExtend(cfg, order, rows, rows', q.nozzleHistory, k);
      }
    }
  }

  /** `assign_nozzles` for a step with configuration `cfg`: the rows of the
      step and the changes appended to its header, or the panic of `plan`
      or `finalize`. */
  function AssignStep(cfg: NozzleState, components: seq<ComponentRecord>): Result<(seq<ComponentRecord>, seq<NozzleChange>)>
    requires cfg.HasEmptyStation()
  {
    var order := SortBy(cfg, components);
    match RunPlanner(cfg, order, |order|)
    case Panic(reason) => Panic(reason)
    case Ok((rows, p)) => Conclude(rows, p)
  }

  /** The end of `assign_nozzles` once the loop is done: `finalize`, then the
      placeholder row and the reversals when there are any. */
  function Conclude(rows: seq<ComponentRecord>, p: PlannerState): Result<(seq<ComponentRecord>, seq<NozzleChange>)> {
    match Finalize(p)
    case Panic(reason) => Panic(reason)
    case Ok(reversals) =>
      if reversals == [] then Ok((rows, p.nozzleHistory))
      else Ok((rows + [Placeholder()], p.nozzleHistory + reversals))
  }

  lemma ConcludeValue(rows: seq<ComponentRecord>, p: PlannerState)
    requires Conclude(rows, p).Ok?
    ensures |p.nozzleHistory| <= 4
    ensures Conclude(rows, p).value ==
      (rows + (if p.nozzleHistory == [] then [] else [Placeholder()]),
       p.nozzleHistory + Reversals(p.nozzleHistory, p.componentIndex))
  {
    var fin := Finalize(p);
    assert fin.Ok?;
    assert fin.value == Reversals(p.nozzleHistory, p.componentIndex);
    if p.nozzleHistory == [] {
      assert rows + [] == rows && p.nozzleHistory + [] == p.nozzleHistory;
    }
  }

  /** `AssignStep` spelled out: the rows and history of the loop, then
      `finalize`'s reversals and, when there are any, the placeholder. */
  lemma AssignStepValue(cfg: NozzleState, components: seq<ComponentRecord>)
    requires cfg.HasEmptyStation() && AssignStep(cfg, components).Ok?
    ensures var order := SortBy(cfg, components);
      var run := RunPlanner(cfg, order, |order|);
      && run.Ok? && |run.value.1.nozzleHistory| <= 4
      && AssignStep(cfg, components).value ==
           (run.value.0 + (if run.value.1.nozzleHistory == [] then [] else [Placeholder()]),
            run.value.1.nozzleHistory + Reversals(run.value.1.nozzleHistory, |NozzleSeq(order)| + 1))
  {
    var order := SortBy(cfg, components);
    var run := RunPlanner(cfg, order, |order|);
    assert run.Ok?;
    var (rows, p) := run.value;
    assert order[..|order|] == order;
    assert p.componentIndex == |NozzleSeq(order)| + 1;
    ConcludeValue(rows, p);
  }

  /** The changes `assign_nozzles` appends: the forward changes of the loop,
      at most four, each enabled, anchored at a component of the step and
      reversible where it is made, followed by their reversals anchored
      after the last component; together they bring the machine back to the
      step's configuration. */
  lemma AssignStepChanges(cfg: NozzleState, components: seq<ComponentRecord>)
    requires cfg.HasEmptyStation() && AssignStep(cfg, components).Ok?
    ensures var order := SortBy(cfg, components);
      var run := RunPlanner(cfg, order, |order|);
      && run.Ok?
      && (var forward := run.value.1.nozzleHistory;
          var k := |NozzleSeq(order)| + 1;
          var changes := AssignStep(cfg, components).value.1;
          && |forward| <= 4
          && (forall c :: c in forward ==> c.enabled && 1 <= c.beforeComponent < k)
          && Feasible(cfg, forward)
          && changes == forward + Reversals(forward, k)
          && Replay(cfg, changes) == cfg)
  {
    AssignStepValue(cfg, components);
    var order := SortBy(cfg, components);
    var p := RunPlanner(cfg, order, |order|).value.1;
    RunPlannerAssigns(cfg, order, |order|);
    assert order[..|order|] == order;
    FinalizeRestores(cfg, p);
    ReplayAppend(cfg, p.nozzleHistory, Finalize(p).value);
  }

  /** The rows `assign_nozzles` leaves: the step's components sorted, each
      nozzle-bearing one naming a head that holds its nozzle when the
      machine reaches it, and a placeholder row after them exactly when
      there are forward changes to undo. */
  lemma AssignStepRows(cfg: NozzleState, components: seq<ComponentRecord>)
    requires cfg.HasEmptyStation() && AssignStep(cfg, components).Ok?
    ensures var order := SortBy(cfg, components);
      var run := RunPlanner(cfg, order, |order|);
      && run.Ok?
      && (var forward := run.value.1.nozzleHistory;
          var rows := AssignStep(cfg, components).value.0;
          && multiset(order) == multiset(components) && Sorted(cfg, order)
          && |rows| == |order| + (if forward == [] then 0 else 1)
          && HeadsAssigned(cfg, order, rows, forward, |order|)
          && (forward != [] ==> rows[|order|] == Placeholder()))
  {
    AssignStepValue(cfg, components);
    var order := SortBy(cfg, components);
    var (rows, p) := RunPlanner(cfg, order, |order|).value;
    RunPlannerAssigns(cfg, order, |order|);
    if p.nozzleHistory != [] {
      HeadsAssignedAppend(cfg, order, rows, [Placeholder()], p.nozzleHistory);
    } else {
      assert rows + [] == rows;
    }
  }

  // ---------------------------------------------------------------------
  // A pick-and-place step

  class PickAndPlaceStep {
    /** Set when the step is made and never reassigned. */
    const filePath: string
    var components: seq<ComponentRecord>
    var nozzleChange: seq<NozzleChange>
    /** The step's nozzle configuration as read from its file; that file has
        no Station3 column, so Station3 is always empty. */
    const nozzleConfig: Option<NozzleState>

    ghost predicate Valid() {
      nozzleConfig.Some? ==> nozzleConfig.value.station3 == None
    }

    /** A step of the converter: no components and no changes yet. */
    constructor (nozzleConfig: Option<NozzleState>, filePath: string)
      requires nozzleConfig.Some? ==> nozzleConfig.value.station3 == None
      ensures Valid()
      ensures this.nozzleConfig == nozzleConfig && this.filePath == filePath
      ensures components == [] && nozzleChange == []
    {
      this.nozzleConfig := nozzleConfig;
      this.filePath := filePath;
      components := [];
      nozzleChange := [];
    }

    /** The retry loop of `assign_nozzles` for `nozzle` still has to reach
        `outcome`: the planner can take another `plan`, and the step's
        changes are `base` followed by the planner's history. */
    ghost predicate Retrying(planner: Planner, nozzle: Nozzle, base: seq<NozzleChange>,
                             outcome: Result<(Head, PlannerState)>)
      reads this, planner, planner.config
    {
      && planner.Valid()
      && nozzle in planner.nozzleSpans && planner.nozzleSpans[nozzle] >= planner.componentIndex
      && nozzleChange == base + planner.nozzleHistory
      && PlanComponent(planner.View(), nozzle) == outcome
    }

    /** One pass of the retry loop: a single `plan`, pushing the change it
        emits, if any, onto the step's changes. A change leaves the loop still
        `Retrying`, now with the nozzle on the planner's current head. */
    method PlanOnce(planner: Planner, nozzle: Nozzle, ghost base: seq<NozzleChange>,
                    ghost outcome: Result<(Head, PlannerState)>) returns (action: Result<PlannerAction>)
      requires Retrying(planner, nozzle, base, outcome)
      modifies this, planner, planner.config
      ensures components == old(components)
      ensures action.Panic? <==> outcome.Panic?
      ensures action.Ok? && action.value.UseHead? ==>
        && outcome == Ok((action.value.head, planner.View()))
        && planner.Valid() && nozzleChange == base + planner.nozzleHistory
      ensures action.Ok? && action.value.Change? ==>
        && Retrying(planner, nozzle, base, outcome)
        && old(planner.config.Value().GetHeadNozzle(planner.head)) != Some(nozzle)
        && planner.config.Value().GetHeadNozzle(planner.head) == Some(nozzle)
    {
      ghost var p := planner.View();
      PlanComponentUnfold(p, nozzle);
      action := planner.Plan(nozzle);
      ghost var q := planner.View();
      assert (action, q) == PlanStep(p, nozzle);
      if action.Ok? && action.value.Change? {
        nozzleChange := nozzleChange + [action.value.change];
      }
    }

    /** The retry loop of `assign_nozzles`, on the planner in place: calls
        `plan` until it names a head, pushing each change it emits onto the
        step's changes. */
    method PlanUntilHead(planner: Planner, nozzle: Nozzle, ghost base: seq<NozzleChange>,
                         ghost outcome: Result<(Head, PlannerState)>) returns (head: Result<Head>)
      requires Retrying(planner, nozzle, base, outcome)
      modifies this, planner, planner.config
      ensures components == old(components)
      ensures head.Ok? <==> outcome.Ok?
      ensures head.Ok? ==> outcome.value == (head.value, planner.View())
      ensures head.Ok? ==> planner.Valid() && nozzleChange == base + planner.nozzleHistory
    {
      var done := false;
      var chosen := Head1;
      while !done
        invariant components == old(components)
        invariant !done ==> Retrying(planner, nozzle, base, outcome)
        invariant done ==> planner.Valid() && nozzleChange == base + planner.nozzleHistory
        invariant done ==> outcome == Ok((chosen, planner.View()))
        decreases if done then 0 else if planner.config.Value().GetHeadNozzle(planner.head) == Some(nozzle) then 1 else 2
      {
        var action := PlanOnce(planner, nozzle, base, outcome);
        match action {
          case Panic(reason) =>
            return Panic(reason);
          case Ok(UseHead(h)) =>
            chosen := h;
            done := true;
          case Ok(Change(_)) =>
        }
      }
      head := Ok(chosen);
    }

    /** The loop of `assign_nozzles` has handled the first `j` of the sorted
        rows `order`: those rows and the planner are what `RunPlanner`
        gives, the other rows are untouched, and the step's changes are
        `base` followed by the planner's history. */
    ghost predicate Handled(planner: Planner, cfg: NozzleState, order: seq<ComponentRecord>,
                            base: seq<NozzleChange>, j: nat)
      reads this, planner, planner.config
    {
      && cfg.HasEmptyStation() && planner.Valid()
      && j <= |components| == |order|
      && RunPlanner(cfg, order, j) == Ok((components[..j], planner.View()))
      && components[j..] == order[j..]
      && nozzleChange == base + planner.nozzleHistory
    }

    /** One pass of the loop of `assign_nozzles`, in place: row `j` gets the
        head the retry loop names when it needs a nozzle. */
    method AssignRow(planner: Planner, ghost cfg: NozzleState, ghost order: seq<ComponentRecord>,
                     ghost base: seq<NozzleChange>, j: nat) returns (outcome: Result<()>)
      requires Handled(planner, cfg, order, base, j) && j < |components|
      modifies this, planner, planner.config
      ensures outcome.Ok? <==> RunPlanner(cfg, order, j + 1).Ok?
      ensures outcome.Ok? ==> Handled(planner, cfg, order, base, j + 1)
    {
      var component := components[j];
      assert component == order[j] by {
        assert components[j..][0] == order[j..][0];
      }
      ghost var prefix := components[..j];
      if component.nozzle.Some? {
        var nozzle := component.nozzle.value;
        NeededNozzleHasSpan(order, j);
        var head := PlanUntilHead(planner, nozzle, base, PlanComponent(planner.View(), nozzle));
        match head {
          case Panic(reason) =>
            return Panic(reason);
          case Ok(h) =>
            components := components[j := component.(head := HeadNumber(h))];
        }
      }
      assert components[..j + 1] == prefix + [components[j]];
      outcome := Ok(());
    }

    /** The loop of `assign_nozzles` over the sorted components `order`, in
        place. */
    method AssignHeads(planner: Planner, ghost cfg: NozzleState, ghost order: seq<ComponentRecord>,
                       ghost base: seq<NozzleChange>) returns (outcome: Result<()>)
      requires Handled(planner, cfg, order, base, 0)
      modifies this, planner, planner.config
      ensures outcome.Ok? <==> RunPlanner(cfg, order, |order|).Ok?
      ensures outcome.Ok? ==> Handled(planner, cfg, order, base, |order|)
    {
      var j := 0;
      while j < |components|
        invariant Handled(planner, cfg, order, base, j)
      {
        var rowOutcome := AssignRow(planner, cfg, order, base, j);
        if rowOutcome.Panic? {
          RunPlannerPanicStays(cfg, order, j + 1, |order|);
          return Panic(rowOutcome.reason);
        }
        j := j + 1;
      }
      outcome := Ok(());
    }

    /** `PickAndPlaceStep::assign_nozzles`: without a configuration nothing
        changes; otherwise the rows and the changes become those of
        `AssignStep`, and `Panic` stands for a panic of `plan` or `finalize`. */
    method AssignNozzles() returns (outcome: Result<()>)
      requires Valid()
      modifies this
      ensures nozzleConfig.None? ==>
        outcome.Ok? && components == old(components) && nozzleChange == old(nozzleChange)
      ensures nozzleConfig.Some? ==>
        var r := AssignStep(nozzleConfig.value, old(components));
        && (outcome.Ok? <==> r.Ok?)
        && (outcome.Ok? ==> components == r.value.0 && nozzleChange == old(nozzleChange) + r.value.1)
    {
      if nozzleConfig.None? {
        return Ok(());
      }
      var cfg := nozzleConfig.value;
      components := SortBy(cfg, components);

      var planner := new Planner(cfg, components);
      assert components[..0] == [] && components[0..] == components;
      var headsOutcome := AssignHeads(planner, cfg, components, nozzleChange);
      if headsOutcome.Panic? {
        return Panic(headsOutcome.reason);
      }
      assert components[..|components|] == components;

      var revertNozzles := Finalize(planner.View());
      match revertNozzles {
        case Panic(reason) =>
          return Panic(reason);
        case Ok(reversals) =>
          if reversals != [] {
            nozzleChange := nozzleChange + reversals;
            components := components + [Placeholder()];
          }
      }
      outcome := Ok(());
    }
  }

  // ---------------------------------------------------------------------
  // Routing components into steps

  /** `nozzle_config.map(|cfg| cfg.contains(nozzle)).unwrap_or(false)` */
  predicate Hosts(config: Option<NozzleState>, n: Nozzle) {
    config.Some? && config.value.Contains(n)
  }

  /** The first step, from index `from` on, whose configuration hosts `n`. */
  function FirstHost(configs: seq<Option<NozzleState>>, n: Nozzle, from: nat): (r: Option<nat>)
    requires from <= |configs|
    ensures r.Some? ==> from <= r.value < |configs| && Hosts(configs[r.value], n)
    ensures r.Some? ==> forall i :: from <= i < r.value ==> !Hosts(configs[i], n)
    ensures r.None? ==> forall i :: from <= i < |configs| ==> !Hosts(configs[i], n)
    decreases |configs| - from
  {
    if from == |configs| then None
    else if Hosts(configs[from], n) then Some(from)
    else FirstHost(configs, n, from + 1)
  }

  /** The step a component goes to (converter.rs 161-173): a component with a
      nozzle goes to the first step that hosts it, or nowhere; one without a
      nozzle goes to the first step, if there is one. */
  function TargetStep(configs: seq<Option<NozzleState>>, c: ComponentRecord): (r: Option<nat>)
    ensures r.Some? ==> r.value < |configs|
    ensures c.nozzle.Some? ==> (r.Some? ==> Hosts(configs[r.value], c.nozzle.value))
    ensures c.nozzle.Some? ==> (r.Some? ==> forall i :: 0 <= i < r.value ==> !Hosts(configs[i], c.nozzle.value))
    ensures c.nozzle.Some? ==> (r.None? <==> forall i :: 0 <= i < |configs| ==> !Hosts(configs[i], c.nozzle.value))
    ensures c.nozzle.None? ==> (r.Some? <==> |configs| > 0) && (r.Some? ==> r.value == 0)
  {
    match c.nozzle
    case Some(n) => FirstHost(configs, n, 0)
    case None => if |configs| > 0 then Some(0) else None
  }

  /** The components of `comps` that reach step `i`, in their order. */
  function Routed(configs: seq<Option<NozzleState>>, comps: seq<ComponentRecord>, i: nat): seq<ComponentRecord>
    decreases |comps|
  {
    if comps == [] then []
    else
      var c := comps[|comps| - 1];
      Routed(configs, comps[..|comps| - 1], i) + (if c.skip == 0 && TargetStep(configs, c) == Some(i) then [c] else [])
  }

  /** A component reaches step `i` exactly when it is not skipped and `i` is
      its target; so it reaches at most one step. */
  lemma {:induction false} RoutedMembers(configs: seq<Option<NozzleState>>, comps: seq<ComponentRecord>, i: nat, c: ComponentRecord)
    ensures c in Routed(configs, comps, i) <==> c in comps && c.skip == 0 && TargetStep(configs, c) == Some(i)
    decreases |comps|
  {
    if comps != [] {
      var init := comps[..|comps| - 1];
      assert comps == init + [comps[|comps| - 1]];
      RoutedMembers(configs, init, i, c);
    }
  }

  /** Routing keeps the relative order: the components that reach a step
      form a subsequence of the input. */
  lemma {:induction false} RoutedIsSubsequence(configs: seq<Option<NozzleState>>, comps: seq<ComponentRecord>, i: nat)
    ensures IsSubsequence(Routed(configs, comps, i), comps)
    decreases |comps|
  {
    if comps != [] {
      var init, c := comps[..|comps| - 1], comps[|comps| - 1];
      RoutedIsSubsequence(configs, init, i);
      SubsequenceExtend(Routed(configs, init, i), init, c, c.skip == 0 && TargetStep(configs, c) == Some(i));
      assert init + [c] == comps;
    }
  }

  /** `sub` is obtained from `s` by deleting elements. */
  ghost predicate IsSubsequence(sub: seq<ComponentRecord>, s: seq<ComponentRecord>)
    decreases |s|
  {
    sub == [] ||
      (s != [] &&
        ((sub[|sub| - 1] == s[|s| - 1] && IsSubsequence(sub[..|sub| - 1], s[..|s| - 1]))
         || IsSubsequence(sub, s[..|s| - 1])))
  }

  lemma SubsequenceExtend(sub: seq<ComponentRecord>, s: seq<ComponentRecord>, c: ComponentRecord, keep: bool)
    requires IsSubsequence(sub, s)
    ensures IsSubsequence(sub + (if keep then [c] else []), s + [c])
  {
    assert (s + [c])[..|s|] == s;
    if keep {
      assert (sub + [c])[..|sub|] == sub;
    } else {
      assert sub + [] == sub;
    }
  }

  /** One more component routes to its target step and to no other. */
  lemma RoutedStep(configs: seq<Option<NozzleState>>, comps: seq<ComponentRecord>, k: nat)
    requires k < |comps|
    ensures forall i: nat :: Routed(configs, comps[..k + 1], i) == Routed(configs, comps[..k], i) + RoutedTo(configs, comps[k], i)
  {
    assert comps[..k + 1][..k] == comps[..k];
  }

  function ConfigsOf(steps: seq<PickAndPlaceStep>): (r: seq<Option<NozzleState>>)
    ensures |r| == |steps|
    ensures forall i :: 0 <= i < |steps| ==> r[i] == steps[i].nozzleConfig
  {
    seq(|steps|, i requires 0 <= i < |steps| => steps[i].nozzleConfig)
  }

  /** The rows component `comp` adds to step `i`: itself when it is not
      skipped and `i` is its target step, nothing otherwise. */
  function RoutedTo(configs: seq<Option<NozzleState>>, comp: ComponentRecord, i: nat): seq<ComponentRecord> {
    if comp.skip == 0 && TargetStep(configs, comp) == Some(i) then [comp] else []
  }

  /** One pass of the distribution loop: `comp` is appended to its target
      step, and every other step is left as it was. */
  method Route(steps: seq<PickAndPlaceStep>, configs: seq<Option<NozzleState>>, comp: ComponentRecord)
    requires |configs| == |steps|
    requires forall i, j :: 0 <= i < j < |steps| ==> steps[i] != steps[j]
    modifies set i | 0 <= i < |steps| :: steps[i]
    ensures forall i :: 0 <= i < |steps| ==>
      steps[i].components == old(steps[i].components) + RoutedTo(configs, comp, i)
    ensures forall i :: 0 <= i < |steps| ==> steps[i].nozzleChange == old(steps[i].nozzleChange)
  {
    if comp.skip == 0 {
      var target := TargetStep(configs, comp);
      if target.Some? {
        var step := steps[target.value];
        step.components := step.components + [comp];
      }
    }
  }

  /** The distribution loop of `YY1Converter::try_new`: each component, in
      order, is appended to the step `TargetStep` names. */
  method Distribute(steps: seq<PickAndPlaceStep>, components: seq<ComponentRecord>)
    requires forall i, j :: 0 <= i < j < |steps| ==> steps[i] != steps[j]
    modifies set i | 0 <= i < |steps| :: steps[i]
    ensures forall i :: 0 <= i < |steps| ==>
      steps[i].components == old(steps[i].components) + Routed(ConfigsOf(steps), components, i)
    ensures forall i :: 0 <= i < |steps| ==> steps[i].nozzleChange == old(steps[i].nozzleChange)
  {
    var configs := ConfigsOf(steps);
    var k := 0;
    while k < |components|
      invariant 0 <= k <= |components|
      invariant forall i :: 0 <= i < |steps| ==>
        steps[i].components == old(steps[i].components) + Routed(configs, components[..k], i)
      invariant forall i :: 0 <= i < |steps| ==> steps[i].nozzleChange == old(steps[i].nozzleChange)
    {
      RoutedStep(configs, components, k);
      Route(steps, configs, components[k]);
      k := k + 1;
    }
    assert components[..k] == components;
  }

  // ---------------------------------------------------------------------
  // The four nozzle-change lines of the header

  /** `nozzle_change.next().unwrap_or_default()` for the `i`-th call. */
  function NthOrDefault(changes: seq<NozzleChange>, i: nat): NozzleChange {
    if i < |changes| then changes[i] else DefaultChange()
  }

  /** The four changes `write_files` puts into the header: the first four of
      the step, padded with `NozzleChange::default()`; later ones are not
      written. */
  function HeaderChanges(changes: seq<NozzleChange>): (r: seq<NozzleChange>)
    ensures |r| == 4
    ensures forall i :: 0 <= i < 4 && i < |changes| ==> r[i] == changes[i]
    ensures forall i :: |changes| <= i < 4 ==> !r[i].enabled && r[i] == DefaultChange()
  {
    [NthOrDefault(changes, 0), NthOrDefault(changes, 1), NthOrDefault(changes, 2), NthOrDefault(changes, 3)]
  }

  /** The header's nozzle-change lines. */
  function HeaderLines(changes: seq<NozzleChange>): (r: seq<string>)
    ensures |r| == 4
  {
    var h := HeaderChanges(changes);
    [AsString(h[0]), AsString(h[1]), AsString(h[2]), AsString(h[3])]
  }

  /** For a step whose changes are all enabled (as `assign_nozzles` emits
      them), the header lines determine how many changes there are, up to
      four, and what the first four are. */
  lemma HeaderDeterminesFirstFour(a: seq<NozzleChange>, b: seq<NozzleChange>)
    requires forall c :: c in a ==> c.enabled
    requires forall c :: c in b ==> c.enabled
    requires HeaderLines(a) == HeaderLines(b)
    ensures (if |a| < 4 then |a| else 4) == (if |b| < 4 then |b| else 4)
    ensures forall i :: 0 <= i < 4 && i < |a| ==> a[i] == b[i]
  {
    var ha, hb := HeaderChanges(a), HeaderChanges(b);
    forall i | 0 <= i < 4
      ensures ha[i] == hb[i]
    {
      assert AsString(ha[i]) == HeaderLines(a)[i];
      AsStringInjective(ha[i], hb[i]);
    }
    forall i | 0 <= i < 4
      ensures ha[i].enabled <==> i < |a|
      ensures hb[i].enabled <==> i < |b|
    {
      if i < |a| {
        assert a[i] in a;
      }
      if i < |b| {
        assert b[i] in b;
      }
    }
  }
}
