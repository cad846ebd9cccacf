/** The multi-GPU limiter keeps no slot idle and lets no request wait forever. */
module GpuLiveness {
  import opened GpuDistribution
  import opened GpuLimiter
  import opened SlotProtocol

  /* No idle slot on any GPU */

  /** Every caller that parked on GPU `g` did so on a reading of at least `floor`. */
  ghost predicate FleetParksAtLeast(cfg: FleetConfig, es: seq<FleetEvent>, g: nat, floor: int)
    requires cfg.Valid() && FleetLegal(cfg, es) && g < cfg.gpuCount
    decreases |es|
  {
    es == []
    || (&& FleetParksAtLeast(cfg, es[..|es| - 1], g, floor)
        && ParkOk(cfg, FleetRun(cfg, es[..|es| - 1]).gpus, es[|es| - 1], g, floor))
  }

  ghost predicate ParkOk(cfg: FleetConfig, gpus: seq<State>, e: FleetEvent, g: nat, floor: int)
    requires Wf(cfg, gpus) && g < cfg.gpuCount
  {
    e.At? && e.gpu == g && Parks(cfg.PerGpu(), gpus[g], e.e) ==> Effective(cfg.PerGpu(), e.e.free) >= floor
  }

  lemma EnterGpuKeepsFloor(cfg: FleetConfig, f: Fleet, r: nat, c: Call, ctxDone: bool, g: nat, floor: int)
    requires VisitsOk(cfg, f.calls, f.gpus) && GpusSafe(cfg, f.gpus)
    requires r in f.calls ==> c.attempt > f.calls[r].attempt
    requires g < cfg.gpuCount && Floor(f.gpus[g], floor)
    ensures Floor(EnterGpu(cfg, f.gpus, r, c, ctxDone)[g], floor)
  {
    assert GpuSafe(cfg, f.gpus[g]);
    if g == Where(cfg, c) {
      Fresh(cfg, f.calls, f.gpus, Visit(r, c.attempt), g);
      EnterKeepsSafety(cfg.PerGpu(), f.gpus[g], Visit(r, c.attempt), ctxDone, floor);
    }
  }

  lemma FleetStepKeepsFloor(cfg: FleetConfig, f: Fleet, e: FleetEvent, g: nat, floor: int)
    requires VisitsOk(cfg, f.calls, f.gpus) && GpusSafe(cfg, f.gpus) && FleetEnabled(cfg, f, e)
    requires g < cfg.gpuCount && Floor(f.gpus[g], floor) && ParkOk(cfg, f.gpus, e, g, floor)
    ensures Floor(FleetNext(cfg, f, e).gpus[g], floor)
  {
    assert GpuSafe(cfg, f.gpus[g]);
    match e
    case Begin(r) => EnterGpuKeepsFloor(cfg, f, r, FirstCall(cfg, f), r in f.done, g, floor);
    case Advance(r) =>
      if f.calls[r].attempt < cfg.gpuCount { EnterGpuKeepsFloor(cfg, f, r, f.calls[r].Retry(), true, g, floor); }
    case CtxDone(r, scheduled) =>
      if r in f.calls && g == Where(cfg, f.calls[r]) {
        StepKeepsFloor(cfg.PerGpu(), f.gpus[g], Cancel(Visit(r, f.calls[r].attempt), scheduled), floor);
      }
    case At(gpu, e') => if gpu == g { StepKeepsFloor(cfg.PerGpu(), f.gpus[g], e', floor); }
  }

  /** On every GPU on which callers parked only on readings of at least `floor`, a parked caller implies
      that `floor` slots are held or about to be contested, or that a broadcast is pending. */
  lemma {:induction false} NoIdleSlotOnGpu(cfg: FleetConfig, es: seq<FleetEvent>, g: nat, floor: int)
    requires cfg.Valid() && FleetLegal(cfg, es) && g < cfg.gpuCount && FleetParksAtLeast(cfg, es, g, floor)
    ensures Floor(FleetRun(cfg, es).gpus[g], floor)
    decreases |es|
  {
    if es == [] {
      assert In(INIT, Parked) == {};
    } else {
      var front := es[..|es| - 1];
      NoIdleSlotOnGpu(cfg, front, g, floor);
      VisitsStayOk(cfg, front);
      FleetSafety(cfg, front);
      FleetStepKeepsFloor(cfg, FleetRun(cfg, front), es[|es| - 1], g, floor);
    }
  }

  /* Only requests whose context ended fail */

  ghost predicate OnlyDone(s: State, done: set<nat>) { forall v :: v in s.cancelled ==> v.request in done }

  /** Cancelled visits and failed requests belong to contexts that have ended. */
  ghost predicate DoneOk(f: Fleet) {
    && (forall g {:trigger OnlyDone(f.gpus[g], f.done)} :: 0 <= g < |f.gpus| ==> OnlyDone(f.gpus[g], f.done))
    && f.failed <= f.done
  }

  lemma StepKeepsDone(cfg: FleetConfig, f: Fleet, e: FleetEvent)
    requires VisitsOk(cfg, f.calls, f.gpus) && GpusSafe(cfg, f.gpus) && FleetEnabled(cfg, f, e) && DoneOk(f)
    ensures DoneOk(FleetNext(cfg, f, e))
  {
    var f' := FleetNext(cfg, f, e);
    if e.Advance? {
      var g := Where(cfg, f.calls[e.r]);
      assert GpuSafe(cfg, f.gpus[g]) && OnlyDone(f.gpus[g], f.done);
      assert Is(f.gpus[g], Visit(e.r, f.calls[e.r].attempt), Left);
      assert e.r in f.done;
    }
    forall g | 0 <= g < |f'.gpus|
      ensures OnlyDone(f'.gpus[g], f'.done)
    {
      assert OnlyDone(f.gpus[g], f.done);
    }
  }

  lemma {:induction false} OnlyDoneRequestsFail(cfg: FleetConfig, es: seq<FleetEvent>)
    requires cfg.Valid() && FleetLegal(cfg, es)
    ensures DoneOk(FleetRun(cfg, es))
    decreases |es|
  {
    if es != [] {
      var front := es[..|es| - 1];
      OnlyDoneRequestsFail(cfg, front);
      VisitsStayOk(cfg, front);
      FleetSafety(cfg, front);
      StepKeepsDone(cfg, FleetRun(cfg, front), es[|es| - 1]);
    }
  }

  /* Where nothing can happen any more */

  /** What the limiter does by itself once nobody calls and no further context ends. */
  predicate FleetInternal(e: FleetEvent) { e.Advance? || e.At? }

  ghost predicate FleetQuiescent(cfg: FleetConfig, f: Fleet)
    requires Wf(cfg, f.gpus)
  {
    forall e :: FleetInternal(e) ==> !FleetEnabled(cfg, f, e)
  }

  ghost predicate Settled(cfg: FleetConfig, f: Fleet, r: nat)
    requires Wf(cfg, f.gpus) && r in f.calls
  {
    || Is(f.gpus[Where(cfg, f.calls[r])], Visit(r, f.calls[r].attempt), Served)
    || (r in f.failed && r in f.done)
  }

  lemma QuietGpu(cfg: FleetConfig, f: Fleet, g: nat, v: Visit)
    requires GpusSafe(cfg, f.gpus) && FleetQuiescent(cfg, f) && g < cfg.gpuCount && v in f.gpus[g].phase
    ensures Is(f.gpus[g], v, Served) || Is(f.gpus[g], v, Left)
  {
    var s := f.gpus[g];
    forall e | Internal(e)
      ensures !Enabled(s, e)
    {
      assert !FleetEnabled(cfg, f, At(g, e));
    }
    QuiescentMeansIdle(s);
    assert GpuSafe(cfg, s);
    assert Live(s) <= In(s, Woken);
    assert v !in In(s, Parked) && v !in In(s, Arriving) && v !in In(s, Woken) && v !in In(s, Holding);
  }

  lemma QuiescentMeansSettled(cfg: FleetConfig, f: Fleet, r: nat)
    requires VisitsOk(cfg, f.calls, f.gpus) && GpusSafe(cfg, f.gpus) && DoneOk(f)
    requires FleetQuiescent(cfg, f) && r in f.calls
    ensures Settled(cfg, f, r)
  {
    CallsOk(cfg, f.calls, f.gpus, r);
    QuietGpu(cfg, f, Where(cfg, f.calls[r]), Visit(r, f.calls[r].attempt));
    assert !FleetEnabled(cfg, f, Advance(r));
  }

  /* How long it takes */

  lemma {:induction false} SubsetSize<T>(a: set<T>, b: set<T>)
    requires a <= b
    ensures |a| <= |b|
  {
    if x :| x in a {
      SubsetSize(a - {x}, b - {x});
    }
  }

  function Current(calls: map<nat, Call>, rs: set<nat>): set<Visit>
    requires rs <= calls.Keys
  {
    set r | r in rs :: Visit(r, calls[r].attempt)
  }

  lemma {:induction false} CurrentSize(calls: map<nat, Call>, rs: set<nat>)
    requires rs <= calls.Keys
    ensures |Current(calls, rs)| <= |rs|
  {
    if r :| r in rs {
      CurrentSize(calls, rs - {r});
      assert Current(calls, rs) == Current(calls, rs - {r}) + {Visit(r, calls[r].attempt)};
    }
  }

  /** A request waits on one GPU at most, with its current attempt. */
  lemma WaitingAtMostCalls(cfg: FleetConfig, f: Fleet, g: nat)
    requires VisitsOk(cfg, f.calls, f.gpus) && HistoryOk(cfg, f) && g < cfg.gpuCount
    ensures |Waiting(f.gpus[g])| <= |f.calls.Keys|
  {
    forall v | v in Waiting(f.gpus[g])
      ensures v in Current(f.calls, f.calls.Keys)
    {
      assert GpuOk(cfg, f.calls, g, f.gpus[g]) && VisitOk(cfg, f.calls, g, f.gpus[g], v);
      assert PastOk(cfg, f.gpus, v.request, f.calls[v.request], f.failed);
      assert !Is(f.gpus[g], v, Left);
    }
    SubsetSize(Waiting(f.gpus[g]), Current(f.calls, f.calls.Keys));
    CurrentSize(f.calls, f.calls.Keys);
  }

  function TotalWeight(gpus: seq<State>, n: nat): nat {
    if gpus == [] then 0 else TotalWeight(gpus[..|gpus| - 1], n) + Weight(gpus[|gpus| - 1], n)
  }

  lemma {:induction false} OneWeightChanges(gpus: seq<State>, g: nat, s: State, n: nat)
    requires g < |gpus|
    ensures TotalWeight(gpus[g := s], n) == TotalWeight(gpus, n) - Weight(gpus[g], n) + Weight(s, n)
  {
    var k := |gpus| - 1;
    if g == k {
      assert gpus[g := s][..k] == gpus[..k];
    } else {
      OneWeightChanges(gpus[..k], g, s, n);
      assert gpus[g := s][..k] == gpus[..k][g := s];
    }
  }

  /** The attempts a request has left. */
  function Owed(cfg: FleetConfig, f: Fleet, r: nat): nat {
    if r in f.calls && r !in f.failed && f.calls[r].attempt <= cfg.gpuCount
    then cfg.gpuCount + 1 - f.calls[r].attempt
    else 0
  }

  function TotalOwed(cfg: FleetConfig, f: Fleet, rs: seq<nat>): nat {
    if rs == [] then 0 else TotalOwed(cfg, f, rs[..|rs| - 1]) + Owed(cfg, f, rs[|rs| - 1])
  }

  lemma {:induction false} OwedFalls(cfg: FleetConfig, f: Fleet, f': Fleet, r: nat, rs: seq<nat>)
    requires forall q {:trigger Owed(cfg, f', q)} :: Owed(cfg, f', q) <= Owed(cfg, f, q)
    requires Owed(cfg, f', r) < Owed(cfg, f, r)
    ensures TotalOwed(cfg, f', rs) <= TotalOwed(cfg, f, rs)
    ensures r in rs ==> TotalOwed(cfg, f', rs) < TotalOwed(cfg, f, rs)
  {
    if rs != [] {
      OwedFalls(cfg, f, f', r, rs[..|rs| - 1]);
      assert rs == rs[..|rs| - 1] + [rs[|rs| - 1]];
    }
  }

  /** One more than a retry adds to the weight of the GPU it enters. */
  function RetryWeight(n: nat): nat { 3 * (n + 1) + 2 }

  function FleetWeight(cfg: FleetConfig, f: Fleet, n: nat): nat {
    TotalWeight(f.gpus, n) + TotalOwed(cfg, f, f.order) * RetryWeight(n)
  }

  lemma ThreeMore(a: nat, b: nat, k: nat)
    requires b == a + 3
    ensures b * k == a * k + 3 * k
  {
  }

  lemma EnterAddsWeight(s: State, v: Visit, n: nat)
    requires v !in s.phase
    ensures Weight(Enter(s, v, true), n) < Weight(s, n) + RetryWeight(n)
  {
    var s' := Enter(s, v, true);
    assert Waiting(s') == Waiting(s) + {v} && Ready(s') == Ready(s) + {v};
    assert In(s', Holding) == In(s, Holding);
    ThreeMore(Work(s), Work(s'), n + 1);
  }

  lemma TimesFalls(a: nat, b: nat, k: nat)
    requires a < b
    ensures a * k + k <= b * k
  {
    assert b * k == (a + 1) * k + (b - a - 1) * k;
  }

  lemma AdvanceLowersOwed(cfg: FleetConfig, f: Fleet, r: nat)
    requires VisitsOk(cfg, f.calls, f.gpus) && OrderOk(cfg, f) && FleetEnabled(cfg, f, Advance(r))
    ensures var f' := FleetNext(cfg, f, Advance(r));
            && f'.order == f.order && f'.calls.Keys == f.calls.Keys
            && TotalOwed(cfg, f', f'.order) < TotalOwed(cfg, f, f.order)
  {
    var f' := FleetNext(cfg, f, Advance(r));
    CallsOk(cfg, f.calls, f.gpus, r);
    assert r in f.order;
    OwedFalls(cfg, f, f', r, f.order);
  }

  lemma AdvanceLowersWeight(cfg: FleetConfig, f: Fleet, r: nat, n: nat)
    requires VisitsOk(cfg, f.calls, f.gpus) && OrderOk(cfg, f) && FleetEnabled(cfg, f, Advance(r))
    ensures FleetWeight(cfg, FleetNext(cfg, f, Advance(r)), n) < FleetWeight(cfg, f, n)
  {
    var f' := FleetNext(cfg, f, Advance(r));
    AdvanceLowersOwed(cfg, f, r);
    TimesFalls(TotalOwed(cfg, f', f'.order), TotalOwed(cfg, f, f.order), RetryWeight(n));
    if f.calls[r].attempt < cfg.gpuCount {
      var c := f.calls[r].Retry();
      var g := Where(cfg, c);
      Fresh(cfg, f.calls, f.gpus, Visit(r, c.attempt), g);
      EnterAddsWeight(f.gpus[g], Visit(r, c.attempt), n);
      OneWeightChanges(f.gpus, g, Enter(f.gpus[g], Visit(r, c.attempt), true), n);
    }
  }

  lemma {:induction false} SameOwed(cfg: FleetConfig, f: Fleet, f': Fleet, rs: seq<nat>)
    requires f'.calls == f.calls && f'.failed == f.failed
    ensures TotalOwed(cfg, f', rs) == TotalOwed(cfg, f, rs)
  {
    if rs != [] { SameOwed(cfg, f, f', rs[..|rs| - 1]); }
  }

  lemma GpuStepLowersWeight(cfg: FleetConfig, f: Fleet, g: nat, e: Event, n: nat)
    requires Wf(cfg, f.gpus) && FleetEnabled(cfg, f, At(g, e)) && |Waiting(f.gpus[g])| <= n
    ensures FleetWeight(cfg, FleetNext(cfg, f, At(g, e)), n) < FleetWeight(cfg, f, n)
  {
    var f' := FleetNext(cfg, f, At(g, e));
    StepMakesProgress(cfg.PerGpu(), f.gpus[g], e);
    ProgressLowersWeight(f.gpus[g], f'.gpus[g], n);
    OneWeightChanges(f.gpus, g, f'.gpus[g], n);
    SameOwed(cfg, f, f', f.order);
  }

  lemma InternalStepLowersWeight(cfg: FleetConfig, f: Fleet, e: FleetEvent)
    requires VisitsOk(cfg, f.calls, f.gpus) && HistoryOk(cfg, f) && OrderOk(cfg, f)
    requires FleetEnabled(cfg, f, e) && FleetInternal(e)
    ensures FleetNext(cfg, f, e).calls.Keys == f.calls.Keys
    ensures FleetWeight(cfg, FleetNext(cfg, f, e), |f.calls.Keys|) < FleetWeight(cfg, f, |f.calls.Keys|)
  {
    if e.Advance? {
      AdvanceLowersOwed(cfg, f, e.r);
      AdvanceLowersWeight(cfg, f, e.r, |f.calls.Keys|);
    } else {
      WaitingAtMostCalls(cfg, f, e.gpu);
      GpuStepLowersWeight(cfg, f, e.gpu, e.e, |f.calls.Keys|);
    }
  }

  /** From moment `k` on nobody calls and no context ends. */
  ghost predicate InternalFrom(es: seq<FleetEvent>, k: nat) { forall i :: k <= i < |es| ==> FleetInternal(es[i]) }

  lemma {:induction false} FleetDrainIsBounded(cfg: FleetConfig, es: seq<FleetEvent>, k: nat)
    requires cfg.Valid() && FleetLegal(cfg, es) && k <= |es| && FleetLegal(cfg, es[..k]) && InternalFrom(es, k)
    ensures var f, f' := FleetRun(cfg, es[..k]), FleetRun(cfg, es);
            && f'.calls.Keys == f.calls.Keys
            && FleetWeight(cfg, f', |f.calls.Keys|) + (|es| - k) <= FleetWeight(cfg, f, |f.calls.Keys|)
    decreases |es|
  {
    if k == |es| {
      assert es[..k] == es;
    } else {
      var front := es[..|es| - 1];
      assert front[..k] == es[..k];
      FleetDrainIsBounded(cfg, front, k);
      VisitsStayOk(cfg, front);
      HistoryStaysOk(cfg, front);
      OrderStaysOk(cfg, front);
      InternalStepLowersWeight(cfg, FleetRun(cfg, front), es[|es| - 1]);
    }
  }

  /** After any run, when nobody else calls, no further context ends and holders release: the walk around
      the ring, the waiting and the releasing end after a bounded number of steps, and where they
      cannot go on every request has been served or, with its context ended, has failed. */
  lemma EveryRequestIsServedOrFails(cfg: FleetConfig, es: seq<FleetEvent>, k: nat)
    requires cfg.Valid() && FleetLegal(cfg, es) && k <= |es| && InternalFrom(es, k)
    ensures FleetLegal(cfg, es[..k])
    ensures var f := FleetRun(cfg, es[..k]); |es| - k <= FleetWeight(cfg, f, |f.calls.Keys|)
    ensures var end := FleetRun(cfg, es);
            FleetQuiescent(cfg, end) ==> forall r :: r in end.calls ==> Settled(cfg, end, r)
  {
    PrefixIsLegal(cfg, es, k);
    FleetDrainIsBounded(cfg, es, k);
    var end := FleetRun(cfg, es);
    if FleetQuiescent(cfg, end) {
      forall r | r in end.calls
        ensures Settled(cfg, end, r)
      {
        VisitsStayOk(cfg, es);
        FleetSafety(cfg, es);
        OnlyDoneRequestsFail(cfg, es);
        QuiescentMeansSettled(cfg, end, r);
      }
    }
  }

  /* A done context never blocks, whatever the holders do */

  /** A request whose context has ended is cancelled wherever it is. */
  ghost predicate DoneIsCancelled(cfg: FleetConfig, f: Fleet)
    requires Wf(cfg, f.gpus)
  {
    forall r {:trigger CancelledAt(cfg, f.gpus, r, f.calls[r])} ::
      r in f.calls && r in f.done ==> CancelledAt(cfg, f.gpus, r, f.calls[r])
  }

  ghost predicate CancelledAt(cfg: FleetConfig, gpus: seq<State>, r: nat, c: Call)
    requires Wf(cfg, gpus)
  {
    Visit(r, c.attempt) in gpus[Where(cfg, c)].cancelled
  }

  lemma StepKeepsCancelled(cfg: FleetConfig, f: Fleet, e: FleetEvent)
    requires Wf(cfg, f.gpus) && FleetEnabled(cfg, f, e) && DoneIsCancelled(cfg, f)
    ensures DoneIsCancelled(cfg, FleetNext(cfg, f, e))
  {
    var f' := FleetNext(cfg, f, e);
    forall r | r in f'.calls && r in f'.done
      ensures CancelledAt(cfg, f'.gpus, r, f'.calls[r])
    {
      if r in f.calls && r in f.done { assert CancelledAt(cfg, f.gpus, r, f.calls[r]); }
    }
  }

  lemma {:induction false} DoneStaysCancelled(cfg: FleetConfig, es: seq<FleetEvent>)
    requires cfg.Valid() && FleetLegal(cfg, es)
    ensures DoneIsCancelled(cfg, FleetRun(cfg, es))
    decreases |es|
  {
    if es != [] {
      DoneStaysCancelled(cfg, es[..|es| - 1]);
      StepKeepsCancelled(cfg, FleetRun(cfg, es[..|es| - 1]), es[|es| - 1]);
    }
  }

  /** The request waits on its current GPU with its context done, is about to move on, or has failed. */
  ghost predicate Fading(cfg: FleetConfig, f: Fleet, r: nat)
    requires Wf(cfg, f.gpus)
  {
    && r in f.calls && r in f.done
    && var s, v := f.gpus[Where(cfg, f.calls[r])], Visit(r, f.calls[r].attempt);
       r in f.failed || Waits(s, v) || Is(s, v, Left)
  }

  lemma StepKeepsFading(cfg: FleetConfig, f: Fleet, e: FleetEvent, r: nat)
    requires VisitsOk(cfg, f.calls, f.gpus) && FleetEnabled(cfg, f, e) && FleetInternal(e)
    requires DoneIsCancelled(cfg, f) && Fading(cfg, f, r)
    ensures Fading(cfg, FleetNext(cfg, f, e), r)
  {
    assert CancelledAt(cfg, f.gpus, r, f.calls[r]);
    if e.Advance? && e.r != r {
      Fresh(cfg, f.calls, f.gpus, Visit(e.r, f.calls[e.r].attempt + 1), Where(cfg, f.calls[r]));
    }
  }

  lemma {:induction false} FadingStays(cfg: FleetConfig, es: seq<FleetEvent>, k: nat, r: nat)
    requires cfg.Valid() && FleetLegal(cfg, es) && k <= |es| && FleetLegal(cfg, es[..k]) && InternalFrom(es, k)
    requires Fading(cfg, FleetRun(cfg, es[..k]), r)
    ensures Fading(cfg, FleetRun(cfg, es), r)
    decreases |es|
  {
    if k == |es| {
      assert es[..k] == es;
    } else {
      var front := es[..|es| - 1];
      assert front[..k] == es[..k];
      FadingStays(cfg, front, k, r);
      VisitsStayOk(cfg, front);
      DoneStaysCancelled(cfg, front);
      StepKeepsFading(cfg, FleetRun(cfg, front), es[|es| - 1], r);
    }
  }

  /** What goes on without any help of a holder. */
  predicate FleetUnaided(e: FleetEvent) { e.Advance? || (e.At? && Unaided(e.e)) }

  lemma FadingEndsInFailure(cfg: FleetConfig, f: Fleet, r: nat)
    requires VisitsOk(cfg, f.calls, f.gpus) && GpusSafe(cfg, f.gpus) && DoneIsCancelled(cfg, f) && Fading(cfg, f, r)
    requires forall e :: FleetUnaided(e) ==> !FleetEnabled(cfg, f, e)
    ensures r in f.failed
  {
    var g, v := Where(cfg, f.calls[r]), Visit(r, f.calls[r].attempt);
    assert GpuSafe(cfg, f.gpus[g]) && CancelledAt(cfg, f.gpus, r, f.calls[r]);
    assert !FleetEnabled(cfg, f, At(g, Callback)) && !FleetEnabled(cfg, f, At(g, Pass(v, 0)));
    assert !FleetEnabled(cfg, f, Advance(r));
  }

  /** A request that waits with its context done never blocks, even if no holder ever releases: after the
      bounded number of steps of EveryRequestIsServedOrFails, where neither a pass nor a callback nor a
      move along the ring is left to happen, it has failed. */
  lemma DoneRequestNeverBlocks(cfg: FleetConfig, es: seq<FleetEvent>, k: nat, r: nat)
    requires cfg.Valid() && FleetLegal(cfg, es) && k <= |es| && InternalFrom(es, k)
    requires FleetLegal(cfg, es[..k]) && Fading(cfg, FleetRun(cfg, es[..k]), r)
    requires forall e :: FleetUnaided(e) ==> !FleetEnabled(cfg, FleetRun(cfg, es), e)
    ensures r in FleetRun(cfg, es).failed
  {
    FadingStays(cfg, es, k, r);
    VisitsStayOk(cfg, es);
    FleetSafety(cfg, es);
    DoneStaysCancelled(cfg, es);
    FadingEndsInFailure(cfg, FleetRun(cfg, es), r);
  }

  /** A release that sees its GPU's capacity grow wakes everybody there, and nobody elsewhere. */
  lemma GrowthWakesGpu(cfg: FleetConfig, f: Fleet, g: nat, v: Visit, before: int, after: int, pick: Visit)
    requires Wf(cfg, f.gpus) && FleetEnabled(cfg, f, At(g, Release(v, before, after, pick)))
    requires Effective(cfg.PerGpu(), after) > Effective(cfg.PerGpu(), before)
    ensures var f' := FleetNext(cfg, f, At(g, Release(v, before, after, pick)));
            && In(f'.gpus[g], Parked) == {}
            && (forall w :: Is(f.gpus[g], w, Parked) ==> Is(f'.gpus[g], w, Woken))
            && (forall h :: 0 <= h < cfg.gpuCount && h != g ==> f'.gpus[h] == f.gpus[h])
  {
    GrowthWakesEveryone(cfg.PerGpu(), f.gpus[g], v, before, after, pick);
  }
}
