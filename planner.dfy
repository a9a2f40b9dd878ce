/** The nozzle planner (src/yy1/planner.rs): which nozzle each head and each
    station holds, how far ahead each nozzle is still needed, and the state
    machine that, for one component after another, either schedules a nozzle
    change or assigns a head. */
module Planning {
  import opened Yy1

  // ---------------------------------------------------------------------
  // Nozzle configuration

  /** The value of a `NozzleConfig`: what each head and each station holds.
      The Rust struct is `Copy`; all of its lookups read such a value. */
  datatype NozzleState = NozzleState(
    head1: Option<Nozzle>,
    head2: Option<Nozzle>,
    station1: Option<Nozzle>,
    station2: Option<Nozzle>,
    station3: Option<Nozzle>)
  {
    /** `get_head_nozzle` */
    function GetHeadNozzle(h: Head): Option<Nozzle> {
      match h
      case Head1 => head1
      case Head2 => head2
    }

    /** What a station holds. */
    function InStation(s: NozzleStation): Option<Nozzle> {
      match s
      case Station1 => station1
      case Station2 => station2
      case Station3 => station3
    }

    function WithHead(h: Head, x: Option<Nozzle>): (r: NozzleState)
      ensures r.GetHeadNozzle(h) == x && r.GetHeadNozzle(Not(h)) == GetHeadNozzle(Not(h))
      ensures forall s :: r.InStation(s) == InStation(s)
    {
      match h
      case Head1 => this.(head1 := x)
      case Head2 => this.(head2 := x)
    }

    function WithStation(s: NozzleStation, x: Option<Nozzle>): (r: NozzleState)
      ensures r.InStation(s) == x
      ensures forall t :: t != s ==> r.InStation(t) == InStation(t)
      ensures forall h :: r.GetHeadNozzle(h) == GetHeadNozzle(h)
    {
      match s
      case Station1 => this.(station1 := x)
      case Station2 => this.(station2 := x)
      case Station3 => this.(station3 := x)
    }

    /** `find_nozzle_head`: the first head, in the order Head1, Head2, that
        holds `n`, or None when neither does. */
    function FindNozzleHead(n: Nozzle): (r: Option<Head>)
      ensures r.Some? ==> GetHeadNozzle(r.value) == Some(n)
      ensures r == Some(Head2) ==> head1 != Some(n)
      ensures r.None? <==> forall h :: GetHeadNozzle(h) != Some(n)
    {
      var nozzle := Some(n);
      if head1 == nozzle then Some(Head1)
      else if head2 == nozzle then Some(Head2)
      else None
    }

    /** `is_active`: `n` is mounted on one of the two heads. */
    function IsActive(n: Nozzle): (r: bool)
      ensures r <==> head1 == Some(n) || head2 == Some(n)
    {
      FindNozzleHead(n).Some?
    }

    /** `find_nozzle_station`: the lowest-numbered station that holds `n`, or
        None when no station does. */
    function FindNozzleStation(n: Nozzle): (r: Option<NozzleStation>)
      ensures r.Some? ==> InStation(r.value) == Some(n)
      ensures r.Some? ==> forall s :: StationNumber(s) < StationNumber(r.value) ==> InStation(s) != Some(n)
      ensures r.None? <==> forall s :: InStation(s) != Some(n)
    {
      var nozzle := Some(n);
      if station1 == nozzle then Some(Station1)
      else if station2 == nozzle then Some(Station2)
      else if station3 == nozzle then Some(Station3)
      else None
    }

    /** `contains`: `n` is on a head or in one of the two configured stations;
        a nozzle that sits only in Station3 is not contained. */
    function Contains(n: Nozzle): (r: bool)
      ensures r <==> IsActive(n) || (FindNozzleStation(n).Some? && FindNozzleStation(n) != Some(Station3))
    {
      var nozzle := Some(n);
      head1 == nozzle || head2 == nozzle || station1 == nozzle || station2 == nozzle
    }

    predicate HasEmptyStation() {
      station1 == None || station2 == None || station3 == None
    }

    /** The station `drop_nozzle` fills: the lowest-numbered empty one. */
    function FirstEmptyStation(): (r: NozzleStation)
      requires HasEmptyStation()
      ensures InStation(r) == None
      ensures forall s :: StationNumber(s) < StationNumber(r) ==> InStation(s) != None
    {
      if station1 == None then Station1
      else if station2 == None then Station2
      else Station3
    }
  }

  /** How many of the five locations (two heads, three stations) hold `n`. */
  function Count(s: NozzleState, n: Nozzle): nat {
    Holds(s.head1, n) + Holds(s.head2, n) + Holds(s.station1, n) + Holds(s.station2, n) + Holds(s.station3, n)
  }

  function Holds(x: Option<Nozzle>, n: Nozzle): nat {
    if x == Some(n) then 1 else 0
  }

  // ---------------------------------------------------------------------
  // What the machine does with a nozzle change, and how finalize undoes it

  /** The machine's effect of a change: the head's nozzle (possibly none) goes
      into the drop station, then the head takes what the pickup station
      holds and that station is left empty. */
  function Apply(s: NozzleState, c: NozzleChange): NozzleState {
    var dropped := s.WithStation(c.dropStation, s.GetHeadNozzle(c.head));
    dropped.WithHead(c.head, dropped.InStation(c.pickupStation)).WithStation(c.pickupStation, None)
  }

  /** A change whose drop station is empty and differs from its pickup station. */
  predicate Reversible(s: NozzleState, c: NozzleChange) {
    c.dropStation != c.pickupStation && s.InStation(c.dropStation) == None
  }

  /** A reversible change only moves nozzles around: no nozzle appears,
      vanishes or is duplicated. */
  lemma ApplyKeepsCount(s: NozzleState, c: NozzleChange, n: Nozzle)
    requires Reversible(s, c)
    ensures Count(Apply(s, c), n) == Count(s, n)
  {
    var t := Apply(s, c);
    match c.head {
      case Head1 => assert t.head2 == s.head2;
      case Head2 => assert t.head1 == s.head1;
    }
  }

  /** The reversal `finalize` emits for a change: pickup and drop swapped,
      anchored before component `beforeComponent`. */
  function Reversal(c: NozzleChange, beforeComponent: nat): NozzleChange {
    c.(beforeComponent := beforeComponent, pickupStation := c.dropStation, dropStation := c.pickupStation)
  }

  /** Performing a reversible change and then its reversal restores the state. */
  lemma ReversalUndoes(s: NozzleState, c: NozzleChange, k: nat)
    requires Reversible(s, c)
    ensures Apply(Apply(s, c), Reversal(c, k)) == s
  {
    var t := Apply(s, c);
    var u := Apply(t, Reversal(c, k));
    forall x: NozzleStation ensures u.InStation(x) == s.InStation(x) {
    }
    assert u.GetHeadNozzle(c.head) == s.GetHeadNozzle(c.head);
    assert u.GetHeadNozzle(Not(c.head)) == s.GetHeadNozzle(Not(c.head));
    assert u.station1 == s.station1 && u.station2 == s.station2 && u.station3 == s.station3;
    assert u.head1 == s.head1 && u.head2 == s.head2 by {
      assert u.head1 == u.GetHeadNozzle(Head1) && u.head2 == u.GetHeadNozzle(Head2);
    }
  }

  /** The state after the machine performs `cs` in order. */
  function Replay(s: NozzleState, cs: seq<NozzleChange>): NozzleState
    decreases |cs|
  {
    if cs == [] then s else Replay(Apply(s, cs[0]), cs[1..])
  }

  lemma {:induction false} ReplayAppend(s: NozzleState, a: seq<NozzleChange>, b: seq<NozzleChange>)
    ensures Replay(s, a + b) == Replay(Replay(s, a), b)
    decreases |a|
  {
    if a == [] {
      assert a + b == b;
    } else {
      assert (a + b)[0] == a[0] && (a + b)[1..] == a[1..] + b;
      ReplayAppend(Apply(s, a[0]), a[1..], b);
    }
  }

  /** Every change of `cs` is reversible in the state it is performed in. */
  ghost predicate Feasible(s: NozzleState, cs: seq<NozzleChange>)
    decreases |cs|
  {
    cs == [] || (Feasible(s, cs[..|cs| - 1]) && Reversible(Replay(s, cs[..|cs| - 1]), cs[|cs| - 1]))
  }

  /** A feasible history only moves nozzles around. */
  lemma {:induction false} ReplayKeepsCount(s: NozzleState, cs: seq<NozzleChange>, n: Nozzle)
    requires Feasible(s, cs)
    ensures Count(Replay(s, cs), n) == Count(s, n)
    decreases |cs|
  {
    if cs != [] {
      var init, c := cs[..|cs| - 1], cs[|cs| - 1];
      ReplayKeepsCount(s, init, n);
      assert init + [c] == cs;
      ReplayAppend(s, init, [c]);
      ApplyKeepsCount(Replay(s, init), c, n);
    }
  }

  /** The reversals of `cs` in reverse order, all anchored before component `k`. */
  function Reversals(cs: seq<NozzleChange>, k: nat): (r: seq<NozzleChange>)
    ensures |r| == |cs|
    ensures forall i :: 0 <= i < |cs| ==> r[i] == Reversal(cs[|cs| - 1 - i], k)
  {
    if cs == [] then [] else [Reversal(cs[|cs| - 1], k)] + Reversals(cs[..|cs| - 1], k)
  }

  /** Performing a feasible history of changes followed by its reversals
      leaves the machine in the state it started from. */
  lemma {:induction false} ReversalsRestore(s: NozzleState, cs: seq<NozzleChange>, k: nat)
    requires Feasible(s, cs)
    ensures Replay(s, cs + Reversals(cs, k)) == s
    decreases |cs|
  {
    if cs != [] {
      var init, c := cs[..|cs| - 1], cs[|cs| - 1];
      var t := Replay(s, init);
      var rest := Reversals(init, k);
      assert cs == init + [c];
      assert Reversals(cs, k) == [Reversal(c, k)] + rest;
      calc {
        Replay(s, cs + Reversals(cs, k));
        { ReplayAppend(s, cs, Reversals(cs, k)); }
        Replay(Replay(s, init + [c]), [Reversal(c, k)] + rest);
        { ReplayAppend(s, init, [c]); }
        Replay(Apply(t, c), [Reversal(c, k)] + rest);
        { assert ([Reversal(c, k)] + rest)[1..] == rest; }
        Replay(Apply(Apply(t, c), Reversal(c, k)), rest);
        { ReversalUndoes(t, c, k); }
        Replay(t, rest);
        { ReplayAppend(s, init, rest); ReversalsRestore(s, init, k); }
        s;
      }
    }
  }

  // ---------------------------------------------------------------------
  // Spans: how far ahead each nozzle is needed

  /** `components.iter().filter_map(|comp| comp.nozzle)` */
  function NozzleSeq(cs: seq<ComponentRecord>): (ns: seq<Nozzle>)
    ensures |ns| <= |cs|
  {
    if cs == [] then []
    else (match cs[0].nozzle case Some(n) => [n] case None => []) + NozzleSeq(cs[1..])
  }

  lemma {:induction false} NozzleSeqAppend(a: seq<ComponentRecord>, b: seq<ComponentRecord>)
    ensures NozzleSeq(a + b) == NozzleSeq(a) + NozzleSeq(b)
    decreases |a|
  {
    if a != [] {
      assert (a + b)[0] == a[0] && (a + b)[1..] == a[1..] + b;
      NozzleSeqAppend(a[1..], b);
    } else {
      assert a + b == b;
    }
  }

  /** The fold of `Planner::new`: position `idx` (0-based) of `ns` records
      `idx + 1` for its nozzle, overwriting what an earlier position recorded. */
  function SpanFold(ns: seq<Nozzle>, idx: nat, acc: map<Nozzle, nat>): map<Nozzle, nat>
    requires idx <= |ns|
    decreases |ns| - idx
  {
    if idx == |ns| then acc else SpanFold(ns, idx + 1, acc[ns[idx] := idx + 1])
  }

  /** The span map `Planner::new` builds from a step's components. */
  function Spans(cs: seq<ComponentRecord>): map<Nozzle, nat> {
    SpanFold(NozzleSeq(cs), 0, map[])
  }

  /** `m` maps exactly the nozzles of `ns[..len]`, each to the 1-based
      position of its last occurrence there. */
  ghost predicate LastPositions(ns: seq<Nozzle>, len: nat, m: map<Nozzle, nat>)
    requires len <= |ns|
  {
    && (forall n :: n in m <==> n in ns[..len])
    && (forall n :: n in m ==> 1 <= m[n] <= len && ns[m[n] - 1] == n)
    && (forall n, j :: n in m && m[n] <= j < len ==> ns[j] != n)
  }

  lemma {:induction false} SpanFoldLastPositions(ns: seq<Nozzle>, idx: nat, acc: map<Nozzle, nat>)
    requires idx <= |ns| && LastPositions(ns, idx, acc)
    ensures LastPositions(ns, |ns|, SpanFold(ns, idx, acc))
    decreases |ns| - idx
  {
    if idx < |ns| {
      var acc' := acc[ns[idx] := idx + 1];
      assert ns[..idx + 1] == ns[..idx] + [ns[idx]];
      assert LastPositions(ns, idx + 1, acc');
      SpanFoldLastPositions(ns, idx + 1, acc');
    }
  }

  /** `Planner::new`'s span map sends each nozzle of the step to the 1-based
      index of its last occurrence among the components that have a nozzle,
      and has no entry for a nozzle the step never uses. */
  lemma SpansAreLastPositions(cs: seq<ComponentRecord>)
    ensures LastPositions(NozzleSeq(cs), |NozzleSeq(cs)|, Spans(cs))
  {
    var ns := NozzleSeq(cs);
    assert ns[..0] == [];
    SpanFoldLastPositions(ns, 0, map[]);
  }

  /** The `k`-th nozzle-bearing component (`k` from 1) has a span of at least
      `k`: its own nozzle is never expired when its turn comes. */
  lemma NeededNozzleHasSpan(cs: seq<ComponentRecord>, j: nat)
    requires j < |cs| && cs[j].nozzle.Some?
    ensures cs[j].nozzle.value in Spans(cs)
    ensures Spans(cs)[cs[j].nozzle.value] >= |NozzleSeq(cs[..j])| + 1
  {
    var n := cs[j].nozzle.value;
    var ns := NozzleSeq(cs);
    var k := |NozzleSeq(cs[..j])|;
    assert cs == cs[..j] + cs[j..];
    NozzleSeqAppend(cs[..j], cs[j..]);
    assert NozzleSeq(cs[j..]) == [n] + NozzleSeq(cs[j + 1..]) by {
      assert cs[j..][0] == cs[j] && cs[j..][1..] == cs[j + 1..];
    }
    assert ns[k] == n;
    SpansAreLastPositions(cs);
    assert n in ns[..|ns|];
  }

  /** Whether the nozzle on the current head may be swapped out (planner.rs
      161-166): an empty head is expired; a mounted nozzle is expired when its
      span ends before `index`; a mounted nozzle without a span entry is NOT
      expired (`unwrap_or_default()` of `Option<bool>` is false). */
  function Expired(active: Option<Nozzle>, spans: map<Nozzle, nat>, index: nat): (r: bool)
    ensures active == None ==> r
    ensures active.Some? && active.value !in spans ==> !r
  {
    active.None? ||
      (match if active.value in spans then Some(spans[active.value]) else None
       case Some(ttl) => ttl < index
       case None => false)
  }

  /** `plan` schedules a change: the nozzle on `head` is expired at `index`
      and `nozzle` sits in a station. */
  predicate ChangeDue(s: NozzleState, head: Head, spans: map<Nozzle, nat>, index: nat, nozzle: Nozzle) {
    Expired(s.GetHeadNozzle(head), spans, index) && s.FindNozzleStation(nozzle).Some?
  }

  /** Against the step's components, a mounted nozzle is expired at `index`
      exactly when the step needs it somewhere but at no position from
      `index` on. A nozzle the step never needs is therefore never expired. */
  lemma ExpiredMeansNotNeededAgain(cs: seq<ComponentRecord>, m: Nozzle, index: nat)
    requires index >= 1
    ensures var ns := NozzleSeq(cs);
      Expired(Some(m), Spans(cs), index) <==>
        (m in ns && forall j :: index - 1 <= j < |ns| ==> ns[j] != m)
  {
    var ns := NozzleSeq(cs);
    var spans := Spans(cs);
    SpansAreLastPositions(cs);
    assert ns[..|ns|] == ns;
    if m in spans {
      var p := spans[m];
      assert ns[p - 1] == m;
    }
  }

  // ---------------------------------------------------------------------
  // The planner's own mutable copy of the configuration

  /** `NozzleConfig` as the planner owns and updates it in place. */
  class NozzleConfig {
    var head1: Option<Nozzle>
    var head2: Option<Nozzle>
    var station1: Option<Nozzle>
    var station2: Option<Nozzle>
    var station3: Option<Nozzle>

    function Value(): NozzleState
      reads this
    {
      NozzleState(head1, head2, station1, station2, station3)
    }

    /** A copy of a configuration value (the struct is `Copy`). */
    constructor (v: NozzleState)
      ensures Value() == v
    {
      head1, head2 := v.head1, v.head2;
      station1, station2, station3 := v.station1, v.station2, v.station3;
    }

    /** `drop_nozzle`: puts `nozzle` (possibly none) into the lowest-numbered
        empty station and returns that station; nothing else changes. */
    method DropNozzle(nozzle: Option<Nozzle>) returns (station: NozzleStation)
      requires Value().HasEmptyStation()
      modifies this
      ensures station == old(Value().FirstEmptyStation())
      ensures old(Value().InStation(station)) == None
      ensures Value() == old(Value()).WithStation(station, nozzle)
    {
      if station1 == None {
        station1 := nozzle;
        station := Station1;
      } else if station2 == None {
        station2 := nozzle;
        station := Station2;
      } else if station3 == None {
        station3 := nozzle;
        station := Station3;
      } else {
        assert false;
      }
    }

    /** `pickup_nozzle`: mounts `newNozzle` on `head`, parks the head's
        previous nozzle (possibly none) in the lowest-numbered empty station
        and empties the station `newNozzle` came from. */
    method PickupNozzle(head: Head, newNozzle: Nozzle, beforeComponent: nat) returns (change: NozzleChange)
      requires Value().FindNozzleStation(newNozzle).Some?
      requires Value().HasEmptyStation()
      modifies this
      ensures change == PickupChange(old(Value()), head, newNozzle, beforeComponent)
      ensures Value() == Apply(old(Value()), change)
    {
      var currentNozzle: Option<Nozzle>;
      match head {
        case Head1 =>
          currentNozzle := head1;
          head1 := Some(newNozzle);
        case Head2 =>
          currentNozzle := head2;
          head2 := Some(newNozzle);
      }
      var pickupStation := Value().FindNozzleStation(newNozzle).value;
      var dropStation := DropNozzle(currentNozzle);
      match pickupStation {
        case Station1 => station1 := None;
        case Station2 => station2 := None;
        case Station3 => station3 := None;
      }
      change := NozzleChange(true, beforeComponent, head, dropStation, pickupStation);
    }
  }

  /** The change `pickup_nozzle` records in configuration `s`: it mounts `n`
      on `head`, leaves the other head alone, parks the head's previous
      nozzle in an empty station different from the one `n` came from, and
      leaves a station free for the next drop. */
  function PickupChange(s: NozzleState, head: Head, n: Nozzle, beforeComponent: nat): (c: NozzleChange)
    requires s.FindNozzleStation(n).Some? && s.HasEmptyStation()
    ensures c.enabled && c.head == head && c.beforeComponent == beforeComponent
    ensures Reversible(s, c)
    ensures s.InStation(c.pickupStation) == Some(n)
    ensures Apply(s, c).GetHeadNozzle(head) == Some(n)
    ensures Apply(s, c).GetHeadNozzle(Not(head)) == s.GetHeadNozzle(Not(head))
    ensures Apply(s, c).InStation(c.pickupStation) == None
    ensures Apply(s, c).InStation(c.dropStation) == s.GetHeadNozzle(head)
    ensures Apply(s, c).HasEmptyStation()
  {
    NozzleChange(true, beforeComponent, head, s.FirstEmptyStation(), s.FindNozzleStation(n).value)
  }

  // ---------------------------------------------------------------------
  // The planner

  /** `PlannerAction`: use a head for the component, or change a nozzle first. */
  datatype PlannerAction = UseHead(head: Head) | Change(change: NozzleChange)

  /** The value of a `Planner`'s fields. `componentIndex` is the 1-based
      position of the current component among those with a nozzle; `head` is
      the head tried first for it (round robin). */
  datatype PlannerState = PlannerState(
    componentIndex: nat,
    head: Head,
    config: NozzleState,
    nozzleSpans: map<Nozzle, nat>,
    nozzleHistory: seq<NozzleChange>)

  /** `Planner::new`: component 1, Head1, an empty history, and the span map
      of the (already sorted) components. */
  function NewPlanner(config: NozzleState, components: seq<ComponentRecord>): (p: PlannerState)
    ensures p.componentIndex == 1 && p.head == Head1 && p.config == config && p.nozzleHistory == []
    ensures LastPositions(NozzleSeq(components), |NozzleSeq(components)|, p.nozzleSpans)
  {
    SpansAreLastPositions(components);
    PlannerState(1, Head1, config, Spans(components), [])
  }

  /** `plan` for a component that needs `nozzle`: the action and the planner
      afterwards. */
  function PlanStep(p: PlannerState, nozzle: Nozzle): (r: (Result<PlannerAction>, PlannerState))
    requires p.config.HasEmptyStation()
  {
    var active := p.config.GetHeadNozzle(p.head);
    if Expired(active, p.nozzleSpans, p.componentIndex) && p.config.FindNozzleStation(nozzle).Some? then
      var change := PickupChange(p.config, p.head, nozzle, p.componentIndex);
      (Ok(Change(change)), p.(config := Apply(p.config, change), nozzleHistory := p.nozzleHistory + [change]))
    else if active == Some(nozzle) then
      (Ok(UseHead(p.head)), p.(componentIndex := p.componentIndex + 1, head := Not(p.head)))
    else if p.config.GetHeadNozzle(Not(p.head)) == Some(nozzle) then
      (Ok(UseHead(Not(p.head))), p.(componentIndex := p.componentIndex + 1))
    else
      (Panic("internal error: entered unreachable code"), p)
  }

  /** What `plan` promises. A change is scheduled exactly when it is due; it
      mounts `nozzle` on the current head, is reversible where it is made,
      is recorded, and the index stays. Otherwise a head is named only if it
      holds `nozzle`, the current head first; the index moves on and the
      round-robin pointer flips exactly when the current head was named.
      `unreachable!()` is hit exactly when no change is due and neither head
      holds `nozzle`. Spans never change and a station stays free. */
  lemma PlanStepSpec(p: PlannerState, nozzle: Nozzle)
    requires p.config.HasEmptyStation()
    ensures var (action, q) := PlanStep(p, nozzle);
      var due := ChangeDue(p.config, p.head, p.nozzleSpans, p.componentIndex, nozzle);
      && q.nozzleSpans == p.nozzleSpans && q.config.HasEmptyStation()
      && ((action.Ok? && action.value.Change?) <==> due)
      && (action.Ok? && action.value.Change? ==>
            var c := action.value.change;
            && c.enabled && c.head == p.head && c.beforeComponent == p.componentIndex
            && Reversible(p.config, c)
            && q == p.(config := Apply(p.config, c), nozzleHistory := p.nozzleHistory + [c])
            && q.config.GetHeadNozzle(p.head) == Some(nozzle))
      && (action.Ok? && action.value.UseHead? ==>
            && p.config.GetHeadNozzle(action.value.head) == Some(nozzle)
            && q == p.(componentIndex := p.componentIndex + 1, head := q.head)
            && (q.head == Not(p.head) <==> action.value.head == p.head))
      && (!due && p.config.GetHeadNozzle(p.head) == Some(nozzle) ==> action == Ok(UseHead(p.head)))
      && (action.Panic? <==>
            !due && p.config.GetHeadNozzle(Head1) != Some(nozzle) && p.config.GetHeadNozzle(Head2) != Some(nozzle))
      && (action.Panic? ==> q == p)
  {
  }

  /** `finalize`: panics when more than four forward changes were made;
      otherwise returns the history reversed, each change with pickup and
      drop swapped and anchored before the final component index. */
  function Finalize(p: PlannerState): (r: Result<seq<NozzleChange>>)
    ensures r.Ok? <==> |p.nozzleHistory| <= 4
    ensures r.Ok? ==> |r.value| == |p.nozzleHistory|
    ensures r.Ok? ==> forall i :: 0 <= i < |r.value| ==>
      var c := p.nozzleHistory[|p.nozzleHistory| - 1 - i];
      r.value[i] == NozzleChange(c.enabled, p.componentIndex, c.head, c.pickupStation, c.dropStation)
  {
    if |p.nozzleHistory| <= 4 then Ok(Reversals(p.nozzleHistory, p.componentIndex))
    else Panic("assertion failed: self.nozzle_history.len() <= 4")
  }

  /** A planner value reached from configuration `initial`: its configuration
      is what the machine reaches by performing its history, each change of
      which was reversible where it was made, and a station is free. */
  ghost predicate Consistent(initial: NozzleState, p: PlannerState) {
    && p.config.HasEmptyStation()
    && Feasible(initial, p.nozzleHistory)
    && p.config == Replay(initial, p.nozzleHistory)
  }

  /** Extending a feasible history by a change reversible where it is made. */
  lemma HistoryStep(s: NozzleState, cs: seq<NozzleChange>, c: NozzleChange)
    requires Feasible(s, cs) && Reversible(Replay(s, cs), c)
    ensures Feasible(s, cs + [c]) && Replay(s, cs + [c]) == Apply(Replay(s, cs), c)
  {
    assert (cs + [c])[..|cs|] == cs;
    ReplayAppend(s, cs, [c]);
    assert Replay(Replay(s, cs), [c]) == Replay(Apply(Replay(s, cs), c), []);
  }

  /** `plan` keeps the planner consistent with where it started. */
  lemma PlanKeepsConsistent(initial: NozzleState, p: PlannerState, nozzle: Nozzle)
    requires Consistent(initial, p)
    ensures Consistent(initial, PlanStep(p, nozzle).1)
  {
    PlanStepSpec(p, nozzle);
    var r := PlanStep(p, nozzle);
    if r.0.Ok? && r.0.value.Change? {
      HistoryStep(initial, p.nozzleHistory, r.0.value.change);
    }
  }

  /** A consistent planner holds the nozzles it started with: none appears
      twice or vanishes. */
  lemma ConsistentKeepsCounts(initial: NozzleState, p: PlannerState)
    requires Consistent(initial, p)
    ensures forall n :: Count(p.config, n) == Count(initial, n)
  {
    forall n {
      ReplayKeepsCount(initial, p.nozzleHistory, n);
    }
  }

  /** `finalize`'s reversals, performed after the planner's history, bring
      the machine back to the configuration the planner started from. */
  lemma FinalizeRestores(initial: NozzleState, p: PlannerState)
    requires Consistent(initial, p) && Finalize(p).Ok?
    ensures Replay(p.config, Finalize(p).value) == initial
  {
    ReversalsRestore(initial, p.nozzleHistory, p.componentIndex);
    ReplayAppend(initial, p.nozzleHistory, Reversals(p.nozzleHistory, p.componentIndex));
  }

  /** `Planner`, whose `plan` updates its fields and its configuration in place. */
  class Planner {
    var componentIndex: nat
    var head: Head
    const config: NozzleConfig
    const nozzleSpans: map<Nozzle, nat>
    var nozzleHistory: seq<NozzleChange>

    function View(): PlannerState
      reads this, config
    {
      PlannerState(componentIndex, head, config.Value(), nozzleSpans, nozzleHistory)
    }

    /** A station is free for the next drop. */
    predicate Valid()
      reads this, config
    {
      config.Value().HasEmptyStation()
    }

    /** `Planner::new` */
    constructor (config: NozzleState, components: seq<ComponentRecord>)
      requires config.HasEmptyStation()
      ensures Valid() && fresh(this.config)
      ensures View() == NewPlanner(config, components)
    {
      this.config := new NozzleConfig(config);
      nozzleSpans := Spans(components);
      componentIndex := 1;
      nozzleHistory := [];
      head := Head1;
    }

    /** `plan`, performed on the planner's fields in place. */
    method Plan(nozzle: Nozzle) returns (action: Result<PlannerAction>)
      requires Valid()
      modifies this, config
      ensures Valid()
      ensures (action, View()) == PlanStep(old(View()), nozzle)
    {
      var activeNozzle := config.Value().GetHeadNozzle(head);
      var nozzleExpired := Expired(activeNozzle, nozzleSpans, componentIndex);

      if nozzleExpired && config.Value().FindNozzleStation(nozzle).Some? {
        var change := config.PickupNozzle(head, nozzle, componentIndex);
        nozzleHistory := nozzleHistory + [change];
        return Ok(Change(change));
      }

      if activeNozzle == Some(nozzle) {
        action := Ok(UseHead(head));
        componentIndex := componentIndex + 1;
        head := Not(head);
      } else if config.Value().GetHeadNozzle(Not(head)) == Some(nozzle) {
        componentIndex := componentIndex + 1;
        action := Ok(UseHead(Not(head)));
      } else {
        action := Panic("internal error: entered unreachable code");
      }
    }
  }
}
