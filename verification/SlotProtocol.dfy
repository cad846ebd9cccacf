/**
 The slot limiter as a step system: one mutex, one condition variable, an in-flight counter,
 a capacity re-read from an arbitrary probe inside every critical section, and cancellation
 delivered by a callback that broadcasts under the mutex.

 Every critical section is one event. The probe readings, the waiter `Signal` picks and the
 moment a scheduled callback runs are parameters of the events, so a theorem about every legal
 event sequence covers every probe, every scheduler and every pattern of cancellation.
 */
module SlotProtocol {

  /** One pass of a request through one semaphore. */
  datatype Visit = Visit(request: nat, attempt: nat)

  datatype Config = Config(ceiling: int, bytesPerSlot: int)

  /** `min(ceiling, free / bytesPerSlot)`, never below one; a reading of zero or less means that
      the probe is unavailable. */
  function Effective(cfg: Config, free: int): (slots: int)
    ensures cfg.ceiling <= 0 ==> slots == 0
    ensures cfg.ceiling > 0 ==> 1 <= slots <= cfg.ceiling
    ensures cfg.ceiling > 0 && (free <= 0 || cfg.bytesPerSlot <= 0) ==> slots == cfg.ceiling
  {
    if cfg.ceiling <= 0 then 0
    else if free <= 0 || cfg.bytesPerSlot <= 0 then cfg.ceiling
    else
      var slots := free / cfg.bytesPerSlot;
      if slots < 1 then 1 else if slots > cfg.ceiling then cfg.ceiling else slots
  }

  lemma {:induction false} TimesMonotone(k: nat, q: nat, b: nat)
    requires k <= q
    ensures k * b <= q * b
  {
    if k < q {
      TimesMonotone(k, q - 1, b);
      assert q * b == (q - 1) * b + b;
    }
  }

  /** A quotient counts how many shares of size `b` fit into `free`. */
  lemma QuotientCounts(free: nat, b: int, k: nat)
    requires b > 0
    ensures k <= free / b <==> k * b <= free
  {
    var q := free / b;
    assert q * b <= free < q * b + b;
    if k <= q {
      TimesMonotone(k, q, b);
    } else {
      TimesMonotone(q + 1, k, b);
      assert (q + 1) * b == q * b + b;
    }
  }

  /** With a reading and a positive ceiling, the slots are the most, up to the ceiling, whose
      reservations fit into the free memory together, but at least one. */
  lemma EffectiveIsLargestFit(cfg: Config, free: int, k: int)
    requires cfg.bytesPerSlot > 0 && free > 0 && 1 <= k <= cfg.ceiling
    ensures k <= Effective(cfg, free) <==> k == 1 || k * cfg.bytesPerSlot <= free
  {
    QuotientCounts(free, cfg.bytesPerSlot, k);
  }

  datatype Phase =
    | Arriving  // callback registered, critical section not yet entered
    | Parked    // on the condition variable's wait list
    | Woken     // off the wait list, waiting for the mutex
    | Holding   // granted, release not yet called
    | Served    // granted and released
    | Left      // returned the context's error

  datatype State = State(
    inFlight: int,
    phase: map<Visit, Phase>,  // where each visit that called Acquire is
    cancelled: set<Visit>,     // contexts that are done
    callbacks: nat)            // cancellation callbacks scheduled and not yet run

  predicate Is(s: State, v: Visit, p: Phase) { v in s.phase && s.phase[v] == p }

  predicate Waits(s: State, v: Visit) { Is(s, v, Arriving) || Is(s, v, Parked) || Is(s, v, Woken) }

  function In(s: State, p: Phase): set<Visit> { set v | v in s.phase && s.phase[v] == p }

  const INIT := State(0, map[], {}, 0)

  datatype Event =
    | Arrive(v: Visit)
    | Cancel(v: Visit, scheduled: bool)  // the context of `v` ends; `scheduled`: its callback will run
    | Callback                           // a scheduled callback takes the mutex and broadcasts
    | Pass(v: Visit, free: int)          // one iteration of Acquire's loop under the mutex
    | Release(v: Visit, before: int, after: int, pick: Visit)

  /** A context that ends while its visit waits schedules the callback in the same step; one that
      ends just after the grant may still do so, until the callback is deregistered. */
  predicate Enabled(s: State, e: Event) {
    match e
    case Arrive(v) => v !in s.phase
    case Cancel(v, scheduled) =>
      && v !in s.cancelled
      && (Waits(s, v) ==> scheduled)
      && (scheduled ==> Waits(s, v) || Is(s, v, Holding))
    case Callback => s.callbacks > 0
    case Pass(v, _) => Is(s, v, Arriving) || Is(s, v, Woken)
    case Release(v, _, _, pick) => Is(s, v, Holding) && (In(s, Parked) != {} ==> Is(s, pick, Parked))
  }

  /** The pass finds the context alive and no slot below the capacity it has just read. */
  predicate Parks(cfg: Config, s: State, e: Event) {
    e.Pass? && e.v !in s.cancelled && s.inFlight >= Effective(cfg, e.free)
  }

  function NextPass(cfg: Config, s: State, v: Visit, free: int): State {
    if v in s.cancelled then s.(phase := s.phase[v := Left])
    else if s.inFlight < Effective(cfg, free) then s.(inFlight := s.inFlight + 1, phase := s.phase[v := Holding])
    else s.(phase := s.phase[v := Parked])
  }

  function WakeAll(phase: map<Visit, Phase>): map<Visit, Phase> {
    map v | v in phase :: if phase[v] == Parked then Woken else phase[v]
  }

  /** A release wakes everyone when the capacity grew between its own two readings, and
      otherwise one waiter. */
  function NextRelease(cfg: Config, s: State, v: Visit, before: int, after: int, pick: Visit): State {
    var phase := s.phase[v := Served];
    s.(inFlight := if s.inFlight > 0 then s.inFlight - 1 else s.inFlight,
       phase := if Effective(cfg, after) > Effective(cfg, before) then WakeAll(phase)
                else if Is(s, pick, Parked) then phase[pick := Woken]
                else phase)
  }

  function Next(cfg: Config, s: State, e: Event): State
    requires Enabled(s, e)
  {
    match e
    case Arrive(v) =>
      s.(phase := s.phase[v := Arriving], callbacks := s.callbacks + if v in s.cancelled then 1 else 0)
    case Cancel(v, scheduled) =>
      s.(cancelled := s.cancelled + {v}, callbacks := s.callbacks + if scheduled then 1 else 0)
    case Callback => s.(callbacks := s.callbacks - 1, phase := WakeAll(s.phase))
    case Pass(v, free) => NextPass(cfg, s, v, free)
    case Release(v, before, after, pick) => NextRelease(cfg, s, v, before, after, pick)
  }

  /* Runs */

  ghost predicate Legal(cfg: Config, s: State, es: seq<Event>)
    decreases |es|, 0
  {
    es == [] || (Legal(cfg, s, es[..|es| - 1]) && Enabled(Run(cfg, s, es[..|es| - 1]), es[|es| - 1]))
  }

  ghost function Run(cfg: Config, s: State, es: seq<Event>): State
    requires Legal(cfg, s, es)
    decreases |es|, 1
  {
    if es == [] then s else Next(cfg, Run(cfg, s, es[..|es| - 1]), es[|es| - 1])
  }

  lemma Extend(cfg: Config, s: State, es: seq<Event>, e: Event)
    requires Legal(cfg, s, es) && Enabled(Run(cfg, s, es), e)
    ensures Legal(cfg, s, es + [e]) && Run(cfg, s, es + [e]) == Next(cfg, Run(cfg, s, es), e)
  {
    assert (es + [e])[..|es|] == es;
  }

  /* Slot safety and conservation */

  /** The counter is the number of granted and unreleased visits, within the ceiling; only
      cancelled visits gave up; a cancelled visit is parked only until a broadcast on its way. */
  ghost predicate Inv(cfg: Config, s: State) {
    && s.inFlight == |In(s, Holding)| <= cfg.ceiling
    && (forall v :: Is(s, v, Left) ==> v in s.cancelled)
    && (forall v :: Is(s, v, Parked) && v in s.cancelled ==> s.callbacks > 0)
  }

  lemma RemoveOne<T>(big: set<T>, small: set<T>, x: T)
    requires x in big && small == big - {x}
    ensures |small| == |big| - 1
  {
  }

  lemma PassKeepsInv(cfg: Config, s: State, v: Visit, free: int)
    requires Inv(cfg, s) && (Is(s, v, Arriving) || Is(s, v, Woken))
    ensures Inv(cfg, NextPass(cfg, s, v, free))
  {
    var s' := NextPass(cfg, s, v, free);
    if Is(s', v, Holding) {
      assert In(s, Holding) == In(s', Holding) - {v};
      RemoveOne(In(s', Holding), In(s, Holding), v);
    } else {
      assert In(s', Holding) == In(s, Holding);
    }
  }

  lemma ReleaseKeepsInv(cfg: Config, s: State, v: Visit, before: int, after: int, pick: Visit)
    requires Inv(cfg, s) && Is(s, v, Holding)
    ensures Inv(cfg, NextRelease(cfg, s, v, before, after, pick))
  {
    assert In(NextRelease(cfg, s, v, before, after, pick), Holding) == In(s, Holding) - {v};
    RemoveOne(In(s, Holding), In(NextRelease(cfg, s, v, before, after, pick), Holding), v);
  }

  lemma StepKeepsInv(cfg: Config, s: State, e: Event)
    requires Inv(cfg, s) && Enabled(s, e)
    ensures Inv(cfg, Next(cfg, s, e))
  {
    match e
    case Arrive(v) => assert In(Next(cfg, s, e), Holding) == In(s, Holding);
    case Cancel(v, _) => assert In(Next(cfg, s, e), Holding) == In(s, Holding);
    case Callback => assert In(Next(cfg, s, e), Holding) == In(s, Holding);
    case Pass(v, free) => PassKeepsInv(cfg, s, v, free);
    case Release(v, before, after, pick) => ReleaseKeepsInv(cfg, s, v, before, after, pick);
  }

  /** Over every run the counter equals the number of grants not yet released and never leaves
      [0, ceiling]. */
  lemma {:induction false} SlotSafety(cfg: Config, es: seq<Event>)
    requires cfg.ceiling > 0 && Legal(cfg, INIT, es)
    ensures Inv(cfg, Run(cfg, INIT, es))
    decreases |es|
  {
    if es == [] {
      assert In(INIT, Holding) == {};
    } else {
      SlotSafety(cfg, es[..|es| - 1]);
      StepKeepsInv(cfg, Run(cfg, INIT, es[..|es| - 1]), es[|es| - 1]);
    }
  }

  function Max(a: int, b: int): int { if a < b then b else a }

  /** While every reading is at most `e`, the in-flight count never rises above what it was or `e`:
      after capacity shrinks, it only drains. */
  lemma {:induction false} ShrunkCapacityOnlyDrains(cfg: Config, s: State, es: seq<Event>, e: int)
    requires Legal(cfg, s, es)
    requires forall i :: 0 <= i < |es| && es[i].Pass? ==> Effective(cfg, es[i].free) <= e
    ensures Max(Run(cfg, s, es).inFlight, e) <= Max(s.inFlight, e)
    decreases |es|
  {
    if es != [] {
      ShrunkCapacityOnlyDrains(cfg, s, es[..|es| - 1], e);
    }
  }

  /** Whatever the readings, a holder keeps its slot until its own release. */
  lemma {:induction false} HolderIsNotPreempted(cfg: Config, s: State, es: seq<Event>, v: Visit)
    requires Legal(cfg, s, es) && Is(s, v, Holding)
    requires forall i :: 0 <= i < |es| && es[i].Release? ==> es[i].v != v
    ensures Is(Run(cfg, s, es), v, Holding)
    decreases |es|
  {
    if es != [] {
      HolderIsNotPreempted(cfg, s, es[..|es| - 1], v);
    }
  }

  /* No stall, no idle slot */

  /** Woken callers that will contest a slot when they get the mutex. */
  function Live(s: State): set<Visit> { set v | v in s.phase && s.phase[v] == Woken && v !in s.cancelled }

  /** Whenever someone is parked, `floor` slots are held or about to be contested, or a broadcast
      is on its way. */
  ghost predicate Floor(s: State, floor: int) {
    In(s, Parked) != {} ==> s.callbacks > 0 || s.inFlight + |Live(s)| >= floor
  }

  lemma PassKeepsFloor(cfg: Config, s: State, v: Visit, free: int, floor: int)
    requires Inv(cfg, s) && (Is(s, v, Arriving) || Is(s, v, Woken)) && Floor(s, floor)
    requires Parks(cfg, s, Pass(v, free)) ==> Effective(cfg, free) >= floor
    ensures Floor(NextPass(cfg, s, v, free), floor)
  {
    var s' := NextPass(cfg, s, v, free);
    if !Is(s', v, Parked) {
      assert In(s', Parked) == In(s, Parked);
    }
    if v in Live(s) {
      assert Live(s') == Live(s) - {v};
      RemoveOne(Live(s), Live(s'), v);
    } else {
      assert Live(s') == Live(s);
    }
  }

  lemma ReleaseKeepsFloor(cfg: Config, s: State, v: Visit, before: int, after: int, pick: Visit, floor: int)
    requires Inv(cfg, s) && Enabled(s, Release(v, before, after, pick)) && Floor(s, floor)
    ensures Floor(NextRelease(cfg, s, v, before, after, pick), floor)
  {
    var s' := NextRelease(cfg, s, v, before, after, pick);
    if w :| w in In(s', Parked) {
      assert w in In(s, Parked);
      if pick !in s.cancelled {
        assert Live(s) == Live(s') - {pick};
        RemoveOne(Live(s'), Live(s), pick);
      }
    }
  }

  lemma StepKeepsFloor(cfg: Config, s: State, e: Event, floor: int)
    requires Inv(cfg, s) && Enabled(s, e) && Floor(s, floor)
    requires Parks(cfg, s, e) ==> Effective(cfg, e.free) >= floor
    ensures Floor(Next(cfg, s, e), floor)
  {
    match e
    case Arrive(v) =>
      assert In(Next(cfg, s, e), Parked) == In(s, Parked) && Live(Next(cfg, s, e)) == Live(s);
    case Cancel(v, scheduled) =>
      assert In(Next(cfg, s, e), Parked) == In(s, Parked);
      if !scheduled { assert Live(Next(cfg, s, e)) == Live(s); }
    case Callback =>
      assert In(Next(cfg, s, e), Parked) == {};
    case Pass(v, free) => PassKeepsFloor(cfg, s, v, free, floor);
    case Release(v, before, after, pick) => ReleaseKeepsFloor(cfg, s, v, before, after, pick, floor);
  }

  /** Every caller that parked in the run did so on a reading of at least `floor`. */
  ghost predicate ParkReadingsAtLeast(cfg: Config, s: State, es: seq<Event>, floor: int)
    requires Legal(cfg, s, es)
    decreases |es|
  {
    es == []
    || (ParkReadingsAtLeast(cfg, s, es[..|es| - 1], floor)
        && (Parks(cfg, Run(cfg, s, es[..|es| - 1]), es[|es| - 1]) ==> Effective(cfg, es[|es| - 1].free) >= floor))
  }

  /** If every caller that parked did so on a reading of at least `floor`, then, whatever the other
      readings and the cancellations were, a parked caller implies that `floor` slots are held or
      about to be contested, or that a broadcast is pending. */
  lemma {:induction false} NoIdleSlot(cfg: Config, es: seq<Event>, floor: int)
    requires cfg.ceiling > 0 && Legal(cfg, INIT, es) && ParkReadingsAtLeast(cfg, INIT, es, floor)
    ensures Floor(Run(cfg, INIT, es), floor)
    decreases |es|
  {
    if es == [] {
      assert In(INIT, Parked) == {};
    } else {
      var front := es[..|es| - 1];
      NoIdleSlot(cfg, front, floor);
      SlotSafety(cfg, front);
      StepKeepsFloor(cfg, Run(cfg, INIT, front), es[|es| - 1], floor);
    }
  }

  lemma {:induction false} ParkReadingsAtLeastOne(cfg: Config, s: State, es: seq<Event>)
    requires cfg.ceiling > 0 && Legal(cfg, s, es)
    ensures ParkReadingsAtLeast(cfg, s, es, 1)
    decreases |es|
  {
    if es != [] {
      ParkReadingsAtLeastOne(cfg, s, es[..|es| - 1]);
    }
  }

  /** No stall under any readings and cancellations: the clamp at one slot makes one the floor of
      every run. */
  lemma NoStall(cfg: Config, es: seq<Event>)
    requires cfg.ceiling > 0 && Legal(cfg, INIT, es)
    ensures Floor(Run(cfg, INIT, es), 1)
  {
    ParkReadingsAtLeastOne(cfg, INIT, es);
    NoIdleSlot(cfg, es, 1);
  }

  /** Nothing is about to happen unless a holder releases or a new caller arrives. */
  predicate AtRest(s: State) {
    In(s, Arriving) == {} && In(s, Woken) == {} && s.callbacks == 0
  }

  /** At rest nobody waits while fewer than `floor` slots are held, when parks happened on readings
      of at least `floor`; in particular with a probe that always yields `floor`. */
  lemma NobodyWaitsAtRest(cfg: Config, es: seq<Event>, floor: int)
    requires cfg.ceiling > 0 && Legal(cfg, INIT, es) && ParkReadingsAtLeast(cfg, INIT, es, floor)
    requires AtRest(Run(cfg, INIT, es)) && Run(cfg, INIT, es).inFlight < floor
    ensures In(Run(cfg, INIT, es), Parked) == {}
  {
    NoIdleSlot(cfg, es, floor);
    assert Live(Run(cfg, INIT, es)) <= In(Run(cfg, INIT, es), Woken);
  }

  /* What a release does */

  lemma ReleaseFrame(cfg: Config, s: State, v: Visit, before: int, after: int, pick: Visit, w: Visit)
    requires Enabled(s, Release(v, before, after, pick)) && w in s.phase && !Is(s, w, Parked)
    ensures NextRelease(cfg, s, v, before, after, pick).phase[w] == if w == v then Served else s.phase[w]
  {
  }

  /** When capacity grew between its two readings, a release wakes everybody. */
  lemma GrowthWakesEveryone(cfg: Config, s: State, v: Visit, before: int, after: int, pick: Visit)
    requires Enabled(s, Release(v, before, after, pick)) && Effective(cfg, after) > Effective(cfg, before)
    ensures var s' := Next(cfg, s, Release(v, before, after, pick));
            In(s', Parked) == {} && forall w :: Is(s, w, Parked) ==> Is(s', w, Woken)
  {
  }

  /** Otherwise it wakes the one waiter that Signal picks, and leaves the others parked. */
  lemma SignalWakesOne(cfg: Config, s: State, v: Visit, before: int, after: int, pick: Visit)
    requires Enabled(s, Release(v, before, after, pick)) && Effective(cfg, after) <= Effective(cfg, before)
    ensures var s' := Next(cfg, s, Release(v, before, after, pick));
            forall w :: Is(s, w, Parked) ==> Is(s', w, if w == pick then Woken else Parked)
  {
  }

  /** A cancellation callback wakes everybody. */
  lemma CallbackWakesEveryone(cfg: Config, s: State)
    requires Enabled(s, Callback)
    ensures var s' := Next(cfg, s, Callback);
            In(s', Parked) == {} && forall w :: Is(s, w, Parked) ==> Is(s', w, Woken)
  {
  }

  /** A release too many never takes the counter below zero. */
  lemma SurplusReleaseIsHarmless(cfg: Config, s: State, v: Visit, before: int, after: int, pick: Visit)
    requires s.inFlight >= 0
    ensures NextRelease(cfg, s, v, before, after, pick).inFlight == Max(s.inFlight - 1, 0)
  {
  }

  /** Every caller that parked from moment `k` on did so on a reading of at least `floor`. */
  ghost predicate ParksSince(cfg: Config, s: State, es: seq<Event>, k: nat, floor: int)
    requires Legal(cfg, s, es)
    decreases |es|
  {
    |es| <= k
    || (ParksSince(cfg, s, es[..|es| - 1], k, floor)
        && (Parks(cfg, Run(cfg, s, es[..|es| - 1]), es[|es| - 1]) ==> Effective(cfg, es[|es| - 1].free) >= floor))
  }

  /** A release that sees capacity grow makes up for all earlier parks: from then on only the readings of
      later parks count. */
  lemma {:induction false} GrowthResetsFloor(cfg: Config, es: seq<Event>, k: nat, floor: int)
    requires cfg.ceiling > 0 && Legal(cfg, INIT, es) && k < |es|
    requires es[k].Release? && Effective(cfg, es[k].after) > Effective(cfg, es[k].before)
    requires ParksSince(cfg, INIT, es, k + 1, floor)
    ensures Floor(Run(cfg, INIT, es), floor)
    decreases |es|
  {
    var front, last := es[..|es| - 1], es[|es| - 1];
    var s := Run(cfg, INIT, front);
    if k == |es| - 1 {
      GrowthWakesEveryone(cfg, s, last.v, last.before, last.after, last.pick);
    } else {
      GrowthResetsFloor(cfg, front, k, floor);
      SlotSafety(cfg, front);
      StepKeepsFloor(cfg, s, last, floor);
    }
  }

  /** Callbacks an event schedules, less those it runs. */
  function CallbackBalance(s: State, e: Event): int {
    if e.Callback? then -1
    else if e.Cancel? && e.scheduled then 1
    else if e.Arrive? && e.v in s.cancelled then 1
    else 0
  }

  ghost function TotalBalance(cfg: Config, es: seq<Event>): int
    requires Legal(cfg, INIT, es)
  {
    if es == [] then 0
    else TotalBalance(cfg, es[..|es| - 1]) + CallbackBalance(Run(cfg, INIT, es[..|es| - 1]), es[|es| - 1])
  }

  /** No callback is lost or made up: pending are those that were scheduled and have not run, for every
      context that ended while its visit waited or had ended when it arrived. */
  lemma {:induction false} CallbacksAreConserved(cfg: Config, es: seq<Event>)
    requires Legal(cfg, INIT, es)
    ensures Run(cfg, INIT, es).callbacks == TotalBalance(cfg, es)
    decreases |es|
  {
    if es != [] { CallbacksAreConserved(cfg, es[..|es| - 1]); }
  }

  /* The floor is exact: growth after a park goes unnoticed */

  function Granted(n: nat): map<Visit, Phase> {
    map i | 0 <= i < n :: Visit(i, 0) := Holding
  }

  lemma Admit(cfg: Config, front: seq<Event>, v: Visit, free: int, floor: int) returns (es: seq<Event>)
    requires Legal(cfg, INIT, front) && ParkReadingsAtLeast(cfg, INIT, front, floor)
    requires v !in Run(cfg, INIT, front).phase && v !in Run(cfg, INIT, front).cancelled
    requires Effective(cfg, free) >= floor
    ensures Legal(cfg, INIT, es) && ParkReadingsAtLeast(cfg, INIT, es, floor)
    ensures Run(cfg, INIT, es) == NextPass(cfg, Run(cfg, INIT, front), v, free)
  {
    Extend(cfg, INIT, front, Arrive(v));
    var mid := front + [Arrive(v)];
    Extend(cfg, INIT, mid, Pass(v, free));
    es := mid + [Pass(v, free)];
    assert mid[..|front|] == front && es[..|mid|] == mid;
  }

  lemma OneMoreGranted(n: nat)
    requires n > 0
    ensures Granted(n) == Granted(n - 1)[Visit(n - 1, 0) := Holding] && Visit(n - 1, 0) !in Granted(n - 1)
  {
  }

  lemma {:induction false} FillSlots(cfg: Config, n: nat, free: int, floor: int) returns (es: seq<Event>)
    requires n <= Effective(cfg, free) && floor <= Effective(cfg, free)
    ensures Legal(cfg, INIT, es) && ParkReadingsAtLeast(cfg, INIT, es, floor)
    ensures Run(cfg, INIT, es) == INIT.(inFlight := n, phase := Granted(n))
  {
    if n == 0 {
      es := [];
    } else {
      var front := FillSlots(cfg, n - 1, free, floor);
      OneMoreGranted(n);
      es := Admit(cfg, front, Visit(n - 1, 0), free, floor);
    }
  }

  /** As many callers as `low` allows hold slots and two more are parked. */
  lemma FillAndPark(cfg: Config, low: int) returns (es: seq<Event>)
    requires cfg.ceiling > 0
    ensures var n := Effective(cfg, low);
            && Legal(cfg, INIT, es) && ParkReadingsAtLeast(cfg, INIT, es, n)
            && Run(cfg, INIT, es) == State(n, Granted(n)[Visit(n, 0) := Parked][Visit(n + 1, 0) := Parked], {}, 0)
  {
    var n := Effective(cfg, low);
    var es0 := FillSlots(cfg, n, low, n);
    var es1 := Admit(cfg, es0, Visit(n, 0), low, n);
    es := Admit(cfg, es1, Visit(n + 1, 0), low, n);
  }

  /** Slots were full at `n` with two callers parked; one of `n` holders has released and one of the two
      has taken its place. */
  function Refilled(n: nat): State
    requires n > 0
  {
    State(n, Granted(n)[Visit(n, 0) := Holding][Visit(n + 1, 0) := Parked][Visit(0, 0) := Served], {}, 0)
  }

  lemma ReleaseAndRefill(cfg: Config, front: seq<Event>, n: nat, high: int) returns (es: seq<Event>)
    requires 0 < n < Effective(cfg, high)
    requires Legal(cfg, INIT, front) && ParkReadingsAtLeast(cfg, INIT, front, n)
    requires Run(cfg, INIT, front) == State(n, Granted(n)[Visit(n, 0) := Parked][Visit(n + 1, 0) := Parked], {}, 0)
    ensures Legal(cfg, INIT, es) && ParkReadingsAtLeast(cfg, INIT, es, n) && Run(cfg, INIT, es) == Refilled(n)
    ensures |es| >= 2 && es[|es| - 2].Release? && es[|es| - 2].before == es[|es| - 2].after == high
  {
    var a, b, c := Visit(0, 0), Visit(n, 0), Visit(n + 1, 0);
    var phase := Granted(n)[b := Parked][c := Parked];
    var release, pass := Release(a, high, high, b), Pass(b, high);
    assert phase[a] == Holding && phase[b] == Parked;
    Extend(cfg, INIT, front, release);
    var mid := front + [release];
    assert Run(cfg, INIT, mid) == State(n - 1, phase[a := Served][b := Woken], {}, 0);
    Extend(cfg, INIT, mid, pass);
    es := mid + [pass];
    assert phase[a := Served][b := Woken][b := Holding] == Refilled(n).phase;
    assert mid[..|front|] == front && es[..|mid|] == mid;
  }

  lemma RefilledIsAtRest(n: nat)
    requires n > 0
    ensures AtRest(Refilled(n)) && Visit(n + 1, 0) in In(Refilled(n), Parked)
  {
  }

  /** For any two readings `low` and `high` with a higher capacity at `high`: callers that parked at
      `low` are not woken by the growth, a release that reads `high` twice wakes only one of
      them, and the other one waits at rest beside a free slot. The floor of NoIdleSlot is therefore
      the best possible, and the promise that growth wakes blocked acquirers does not hold. */
  lemma GrowthLeavesSlotIdle(cfg: Config, low: int, high: int) returns (es: seq<Event>)
    requires cfg.ceiling > 0 && Effective(cfg, low) < Effective(cfg, high)
    ensures Legal(cfg, INIT, es) && ParkReadingsAtLeast(cfg, INIT, es, Effective(cfg, low))
    ensures AtRest(Run(cfg, INIT, es)) && In(Run(cfg, INIT, es), Parked) != {}
    ensures Run(cfg, INIT, es).inFlight == Effective(cfg, low) < Effective(cfg, high)
    ensures |es| >= 2 && es[|es| - 2].Release? && es[|es| - 2].before == es[|es| - 2].after == high
  {
    var front := FillAndPark(cfg, low);
    es := ReleaseAndRefill(cfg, front, Effective(cfg, low), high);
    RefilledIsAtRest(Effective(cfg, low));
  }

  /* Draining: every caller is eventually served or has left */

  /** What the limiter does by itself once nobody arrives and no further context ends. */
  predicate Internal(e: Event) { e.Callback? || e.Pass? || e.Release? }

  ghost predicate Quiescent(s: State) { forall e :: Internal(e) ==> !Enabled(s, e) }

  function InAny(s: State, ps: set<Phase>): set<Visit> { set v | v in s.phase && s.phase[v] in ps }

  function Waiting(s: State): set<Visit> { InAny(s, {Arriving, Parked, Woken}) }

  function Ready(s: State): set<Visit> { InAny(s, {Arriving, Woken}) }

  /** A visit that changes its phase changes the size of a group only by leaving or joining it. */
  lemma OneMoves(s: State, s': State, v: Visit, p: Phase, ps: set<Phase>)
    requires v in s.phase && s'.phase == s.phase[v := p]
    ensures |InAny(s', ps)| == |InAny(s, ps)| - (if s.phase[v] in ps then 1 else 0) + if p in ps then 1 else 0
  {
    var a, b := InAny(s, ps), InAny(s', ps);
    assert a - {v} == b - {v};
    if v in a { RemoveOne(a, a - {v}, v); } else { assert a - {v} == a; }
    if v in b { RemoveOne(b, b - {v}, v); } else { assert b - {v} == b; }
  }

  /** A waiting visit still owes a grant and a release, a holder a release. */
  function Work(s: State): nat { 2 * |Waiting(s)| + |In(s, Holding)| + s.callbacks }

  ghost predicate Progress(s: State, s': State) {
    && |Waiting(s')| <= |Waiting(s)|
    && (Work(s') < Work(s) || (Work(s') == Work(s) && |Ready(s')| < |Ready(s)|))
  }

  lemma PassMakesProgress(cfg: Config, s: State, v: Visit, free: int)
    requires Enabled(s, Pass(v, free))
    ensures Progress(s, NextPass(cfg, s, v, free))
  {
    var s' := NextPass(cfg, s, v, free);
    var p := s'.phase[v];
    assert s'.phase == s.phase[v := p];
    OneMoves(s, s', v, p, {Arriving, Parked, Woken});
    OneMoves(s, s', v, p, {Arriving, Woken});
    OneMoves(s, s', v, p, {Holding});
    assert In(s, Holding) == InAny(s, {Holding}) && In(s', Holding) == InAny(s', {Holding});
  }

  lemma ReleaseMakesProgress(cfg: Config, s: State, v: Visit, before: int, after: int, pick: Visit)
    requires Enabled(s, Release(v, before, after, pick))
    ensures Progress(s, NextRelease(cfg, s, v, before, after, pick))
  {
    var s' := NextRelease(cfg, s, v, before, after, pick);
    assert Waiting(s') == Waiting(s);
    assert In(s', Holding) == In(s, Holding) - {v};
    RemoveOne(In(s, Holding), In(s', Holding), v);
  }

  lemma StepMakesProgress(cfg: Config, s: State, e: Event)
    requires Internal(e) && Enabled(s, e)
    ensures Progress(s, Next(cfg, s, e))
  {
    match e
    case Callback =>
      assert Waiting(Next(cfg, s, e)) == Waiting(s) && In(Next(cfg, s, e), Holding) == In(s, Holding);
    case Pass(v, free) => PassMakesProgress(cfg, s, v, free);
    case Release(v, before, after, pick) => ReleaseMakesProgress(cfg, s, v, before, after, pick);
  }

  function Weight(s: State, n: nat): nat { Work(s) * (n + 1) + |Ready(s)| }

  /** One unit of work outweighs what can be ready. */
  lemma LessWorkWeighsLess(a: nat, b: nat, k: nat, ready: nat)
    requires a < b && ready < k
    ensures a * k + ready < b * k
  {
    TimesMonotone(a + 1, b, k);
    assert (a + 1) * k == a * k + k;
  }

  lemma ProgressLowersWeight(s: State, s': State, n: nat)
    requires Progress(s, s') && |Waiting(s)| <= n
    ensures Weight(s', n) < Weight(s, n)
  {
    ReadyAmongWaiting(s');
    if Work(s') < Work(s) { LessWorkWeighsLess(Work(s'), Work(s), n + 1, |Ready(s')|); }
  }

  lemma ReadyAmongWaiting(s: State)
    ensures |Ready(s)| <= |Waiting(s)|
  {
    var parked := In(s, Parked);
    assert Waiting(s) == Ready(s) + parked && Ready(s) !! parked;
  }

  /** Left alone, the limiter makes only so many steps, under any readings. */
  lemma {:induction false} DrainIsBounded(cfg: Config, s: State, es: seq<Event>, n: nat)
    requires Legal(cfg, s, es) && (forall i :: 0 <= i < |es| ==> Internal(es[i]))
    requires |Waiting(s)| <= n
    ensures |Waiting(Run(cfg, s, es))| <= n
    ensures Weight(Run(cfg, s, es), n) + |es| <= Weight(s, n)
    decreases |es|
  {
    if es != [] {
      var front := es[..|es| - 1];
      DrainIsBounded(cfg, s, front, n);
      StepMakesProgress(cfg, Run(cfg, s, front), es[|es| - 1]);
      ProgressLowersWeight(Run(cfg, s, front), Run(cfg, s, es), n);
    }
  }

  lemma {:induction false} RunConcat(cfg: Config, s: State, es: seq<Event>, tail: seq<Event>)
    requires Legal(cfg, s, es) && Legal(cfg, Run(cfg, s, es), tail)
    ensures Legal(cfg, s, es + tail) && Run(cfg, s, es + tail) == Run(cfg, Run(cfg, s, es), tail)
    decreases |tail|
  {
    if tail == [] {
      assert es + tail == es;
    } else {
      RunConcat(cfg, s, es, tail[..|tail| - 1]);
      assert (es + tail)[..|es + tail| - 1] == es + tail[..|tail| - 1];
    }
  }

  lemma QuiescentMeansIdle(s: State)
    requires Quiescent(s)
    ensures AtRest(s) && In(s, Holding) == {}
  {
    assert !Enabled(s, Callback);
    forall v | v in s.phase
      ensures s.phase[v] != Arriving && s.phase[v] != Woken && s.phase[v] != Holding
    {
      assert !Enabled(s, Pass(v, 0));
      var pick := if parked :| parked in In(s, Parked) then parked else v;
      assert !Enabled(s, Release(v, 0, 0, pick));
    }
  }

  /** After any run, when nobody else arrives or is cancelled and holders release, every continuation
      is of bounded length, and where it cannot continue every caller has been served or, if its
      context ended, has left: no caller waits forever, under any probe readings. */
  lemma EveryCallerIsServedOrLeaves(cfg: Config, es: seq<Event>, tail: seq<Event>)
    requires cfg.ceiling > 0 && Legal(cfg, INIT, es) && Legal(cfg, Run(cfg, INIT, es), tail)
    requires forall i :: 0 <= i < |tail| ==> Internal(tail[i])
    ensures |tail| <= Weight(Run(cfg, INIT, es), |Waiting(Run(cfg, INIT, es))|)
    ensures var end := Run(cfg, Run(cfg, INIT, es), tail);
            Quiescent(end) ==>
              forall v :: v in end.phase ==> end.phase[v] == Served || (end.phase[v] == Left && v in end.cancelled)
  {
    var s := Run(cfg, INIT, es);
    DrainIsBounded(cfg, s, tail, |Waiting(s)|);
    var end := Run(cfg, s, tail);
    if Quiescent(end) {
      QuiescentMeansIdle(end);
      RunConcat(cfg, INIT, es, tail);
      SlotSafety(cfg, es + tail);
      NoStall(cfg, es + tail);
      assert Live(end) <= In(end, Woken);
      forall v | v in end.phase
        ensures end.phase[v] == Served || (end.phase[v] == Left && v in end.cancelled)
      {
        assert v !in In(end, Parked) && v !in In(end, Arriving) && v !in In(end, Woken) && v !in In(end, Holding);
        assert Is(end, v, Left) ==> v in end.cancelled;
      }
    }
  }

  /* A done context never blocks, whatever the holders do */

  /** What waiting callers and callbacks do without any help of a holder. */
  predicate Unaided(e: Event) { e.Callback? || e.Pass? }

  lemma {:induction false} DoneContextOnlyLeaves(cfg: Config, s: State, es: seq<Event>, v: Visit)
    requires Legal(cfg, s, es) && Waits(s, v) && v in s.cancelled
    requires forall i :: 0 <= i < |es| ==> Unaided(es[i])
    ensures var end := Run(cfg, s, es); v in end.cancelled && (Waits(end, v) || Is(end, v, Left))
    decreases |es|
  {
    if es != [] {
      DoneContextOnlyLeaves(cfg, s, es[..|es| - 1], v);
    }
  }

  /** After any run, even if no holder ever releases: passes and callbacks go on only for so long, and
      where none is left to happen, every caller that waited with its context done has left. */
  lemma DoneContextNeverBlocks(cfg: Config, es: seq<Event>, tail: seq<Event>, v: Visit)
    requires cfg.ceiling > 0 && Legal(cfg, INIT, es) && Legal(cfg, Run(cfg, INIT, es), tail)
    requires forall i :: 0 <= i < |tail| ==> Unaided(tail[i])
    requires Waits(Run(cfg, INIT, es), v) && v in Run(cfg, INIT, es).cancelled
    ensures |tail| <= Weight(Run(cfg, INIT, es), |Waiting(Run(cfg, INIT, es))|)
    ensures var end := Run(cfg, Run(cfg, INIT, es), tail);
            (forall e :: Unaided(e) ==> !Enabled(end, e)) ==> Is(end, v, Left)
  {
    var s := Run(cfg, INIT, es);
    DrainIsBounded(cfg, s, tail, |Waiting(s)|);
    DoneContextOnlyLeaves(cfg, s, tail, v);
    var end := Run(cfg, s, tail);
    RunConcat(cfg, INIT, es, tail);
    SlotSafety(cfg, es + tail);
    if forall e :: Unaided(e) ==> !Enabled(end, e) {
      assert !Enabled(end, Callback) && !Enabled(end, Pass(v, 0));
    }
  }
}
