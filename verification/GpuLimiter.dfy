/**
 The multi-GPU limiter: one slot protocol per GPU, a round-robin counter, and requests that walk
 the ring. A request's attempt `a` runs on GPU `(start + a) % gpuCount`; attempts below gpuCount are
 the ring attempts, attempt gpuCount is the final blocking one on the first GPU again.
 */
module GpuLimiter {
  import opened SlotProtocol

  /** Walking `k` steps around a ring of `n`: the remainder of `k` by `n`, as RingIsMod proves. */
  function Ring(k: nat, n: int): (g: nat)
    requires n > 0
    ensures g < n
  {
    if k < n then k else Ring(k - n, n)
  }

  /** The least number of shares of size `n` that hold `c`. */
  function CeilDiv(c: int, n: int): (q: int)
    requires n > 0
    ensures q >= 0 && (c > 0 ==> q > 0)
    decreases c
  {
    if c <= 0 then 0 else 1 + CeilDiv(c - n, n)
  }

  datatype FleetConfig = FleetConfig(ceiling: int, bytesPerSlot: int, gpuCount: int) {
    ghost predicate Valid() { ceiling > 0 && bytesPerSlot > 0 && gpuCount > 0 }

    function PerGpu(): Config
      requires gpuCount > 0
    {
      Config(CeilDiv(ceiling, gpuCount), bytesPerSlot)
    }

    /** With a single GPU the ring attempts are skipped. */
    function First(): int { if gpuCount == 1 then 1 else 0 }
  }

  /** A request's place in the ring: attempt `a` runs `a` steps after `start`. */
  datatype Call = Call(start: nat, attempt: nat) {
    function Retry(): Call { Call(start, attempt + 1) }
  }

  datatype Fleet = Fleet(
    gpus: seq<State>,
    rr: nat,                // round-robin counter
    order: seq<nat>,        // requests in the order of their calls
    calls: map<nat, Call>,  // each request's ring start and current attempt
    failed: set<nat>,       // requests that returned the context's error
    done: set<nat>)         // requests whose context ended

  datatype FleetEvent =
    | Begin(r: nat)
    | Advance(r: nat)                    // the current attempt has left: next in the ring, or fail
    | CtxDone(r: nat, scheduled: bool)
    | At(gpu: nat, e: Event)             // a pass, a release or a callback on one GPU

  ghost predicate Wf(cfg: FleetConfig, gpus: seq<State>) { cfg.Valid() && |gpus| == cfg.gpuCount }

  /** The GPU an attempt runs on. */
  function Where(cfg: FleetConfig, c: Call): nat
    requires cfg.gpuCount > 0
  {
    Ring(c.start + c.attempt, cfg.gpuCount)
  }

  ghost predicate FleetEnabled(cfg: FleetConfig, f: Fleet, e: FleetEvent)
    requires Wf(cfg, f.gpus)
  {
    match e
    case Begin(r) => r !in f.calls
    case Advance(r) =>
      r in f.calls && r !in f.failed && Is(f.gpus[Where(cfg, f.calls[r])], Visit(r, f.calls[r].attempt), Left)
    case CtxDone(r, scheduled) =>
      && r !in f.done
      && if r in f.calls
         then Enabled(f.gpus[Where(cfg, f.calls[r])], Cancel(Visit(r, f.calls[r].attempt), scheduled))
         else !scheduled
    case At(gpu, e) => gpu < cfg.gpuCount && Internal(e) && Enabled(f.gpus[gpu], e)
  }

  /** Registering the callback and queueing for the mutex; a context that has ended already
      schedules its callback at once. */
  function Enter(s: State, v: Visit, ctxDone: bool): State {
    if ctxDone
    then s.(phase := s.phase[v := Arriving], cancelled := s.cancelled + {v}, callbacks := s.callbacks + 1)
    else s.(phase := s.phase[v := Arriving])
  }

  function EnterGpu(cfg: FleetConfig, gpus: seq<State>, r: nat, c: Call, ctxDone: bool): seq<State>
    requires Wf(cfg, gpus)
  {
    gpus[Where(cfg, c) := Enter(gpus[Where(cfg, c)], Visit(r, c.attempt), ctxDone)]
  }

  function StepGpu(cfg: FleetConfig, gpus: seq<State>, g: nat, e: Event): seq<State>
    requires Wf(cfg, gpus) && g < |gpus| && Enabled(gpus[g], e)
  {
    gpus[g := Next(cfg.PerGpu(), gpus[g], e)]
  }

  function FirstCall(cfg: FleetConfig, f: Fleet): Call {
    if cfg.gpuCount == 1 then Call(0, 1) else Call(f.rr, 0)
  }

  function FleetNext(cfg: FleetConfig, f: Fleet, e: FleetEvent): Fleet
    requires Wf(cfg, f.gpus) && FleetEnabled(cfg, f, e)
  {
    match e
    case Begin(r) =>
      f.(rr := if cfg.gpuCount == 1 then f.rr else f.rr + 1,
         order := f.order + [r],
         calls := f.calls[r := FirstCall(cfg, f)],
         gpus := EnterGpu(cfg, f.gpus, r, FirstCall(cfg, f), r in f.done))
    case Advance(r) =>
      if f.calls[r].attempt >= cfg.gpuCount then f.(failed := f.failed + {r})
      else f.(calls := f.calls[r := f.calls[r].Retry()],
              gpus := EnterGpu(cfg, f.gpus, r, f.calls[r].Retry(), true))
    case CtxDone(r, scheduled) =>
      if r in f.calls
      then f.(done := f.done + {r},
              gpus := StepGpu(cfg, f.gpus, Where(cfg, f.calls[r]), Cancel(Visit(r, f.calls[r].attempt), scheduled)))
      else f.(done := f.done + {r})
    case At(gpu, e) => f.(gpus := StepGpu(cfg, f.gpus, gpu, e))
  }

  function FleetInit(cfg: FleetConfig): Fleet
    requires cfg.gpuCount > 0
  {
    Fleet(seq(cfg.gpuCount, _ => INIT), 0, [], map[], {}, {})
  }

  ghost predicate FleetLegal(cfg: FleetConfig, es: seq<FleetEvent>)
    requires cfg.Valid()
    decreases |es|, 0
  {
    es == [] || (FleetLegal(cfg, es[..|es| - 1]) && FleetEnabled(cfg, FleetRun(cfg, es[..|es| - 1]), es[|es| - 1]))
  }

  ghost function FleetRun(cfg: FleetConfig, es: seq<FleetEvent>): (f: Fleet)
    requires cfg.Valid() && FleetLegal(cfg, es)
    ensures Wf(cfg, f.gpus)
    decreases |es|, 1
  {
    if es == [] then FleetInit(cfg) else FleetNext(cfg, FleetRun(cfg, es[..|es| - 1]), es[|es| - 1])
  }

  /* Where visits are */

  /** The visit belongs to an attempt made so far, on the GPU that attempt selects. A retry runs
      with an ended context, so it never gets a slot. */
  ghost predicate VisitOk(cfg: FleetConfig, calls: map<nat, Call>, g: nat, s: State, v: Visit)
    requires cfg.Valid() && v in s.phase
  {
    && v.request in calls
    && cfg.First() <= v.attempt <= calls[v.request].attempt
    && g == Where(cfg, Call(calls[v.request].start, v.attempt))
    && (v.attempt > cfg.First() ==> v in s.cancelled && s.phase[v] != Holding && s.phase[v] != Served)
  }

  ghost predicate GpuOk(cfg: FleetConfig, calls: map<nat, Call>, g: nat, s: State)
    requires cfg.Valid()
  {
    && (forall v {:trigger VisitOk(cfg, calls, g, s, v)} :: v in s.phase ==> VisitOk(cfg, calls, g, s, v))
    && (forall v :: v in s.cancelled ==> v in s.phase)
  }

  /** Requests keep their ring start and only move on. */
  ghost predicate CallsGrow(calls: map<nat, Call>, calls': map<nat, Call>) {
    forall r :: r in calls ==> r in calls' && calls'[r].start == calls[r].start && calls'[r].attempt >= calls[r].attempt
  }

  lemma GpuKeepsOk(cfg: FleetConfig, calls: map<nat, Call>, calls': map<nat, Call>, g: nat, s: State)
    requires cfg.Valid() && GpuOk(cfg, calls, g, s) && CallsGrow(calls, calls')
    ensures GpuOk(cfg, calls', g, s)
  {
    forall v | v in s.phase
      ensures VisitOk(cfg, calls', g, s, v)
    {
      assert VisitOk(cfg, calls, g, s, v);
    }
  }

  lemma GpuStepKeepsOk(cfg: FleetConfig, calls: map<nat, Call>, g: nat, s: State, e: Event)
    requires cfg.Valid() && GpuOk(cfg, calls, g, s) && Enabled(s, e) && (Internal(e) || (e.Cancel? && e.v in s.phase))
    ensures GpuOk(cfg, calls, g, Next(cfg.PerGpu(), s, e))
  {
    var s' := Next(cfg.PerGpu(), s, e);
    forall v | v in s'.phase
      ensures VisitOk(cfg, calls, g, s', v)
    {
      assert VisitOk(cfg, calls, g, s, v);
    }
  }

  lemma EnterKeepsOk(cfg: FleetConfig, calls: map<nat, Call>, g: nat, s: State, v: Visit, ctxDone: bool)
    requires cfg.Valid() && GpuOk(cfg, calls, g, s)
    requires v.request in calls && v.attempt == calls[v.request].attempt >= cfg.First()
    requires g == Where(cfg, Call(calls[v.request].start, v.attempt)) && (v.attempt > cfg.First() ==> ctxDone)
    ensures GpuOk(cfg, calls, g, Enter(s, v, ctxDone))
  {
    var s' := Enter(s, v, ctxDone);
    forall w | w in s'.phase
      ensures VisitOk(cfg, calls, g, s', w)
    {
      if w != v { assert VisitOk(cfg, calls, g, s, w); }
    }
  }

  ghost predicate VisitsOk(cfg: FleetConfig, calls: map<nat, Call>, gpus: seq<State>) {
    && Wf(cfg, gpus)
    && (forall g {:trigger GpuOk(cfg, calls, g, gpus[g])} :: 0 <= g < |gpus| ==> GpuOk(cfg, calls, g, gpus[g]))
    && (forall r {:trigger CallOk(cfg, gpus, r, calls[r])} :: r in calls ==> CallOk(cfg, gpus, r, calls[r]))
  }

  /** The current attempt of a request is known to its GPU. */
  ghost predicate CallOk(cfg: FleetConfig, gpus: seq<State>, r: nat, c: Call)
    requires Wf(cfg, gpus)
  {
    cfg.First() <= c.attempt <= cfg.gpuCount && Visit(r, c.attempt) in gpus[Where(cfg, c)].phase
  }

  lemma EnterKeepsVisits(cfg: FleetConfig, calls: map<nat, Call>, gpus: seq<State>, r: nat, c: Call, ctxDone: bool)
    requires VisitsOk(cfg, calls, gpus) && CallsGrow(calls, calls[r := c])
    requires cfg.First() <= c.attempt <= cfg.gpuCount && (c.attempt > cfg.First() ==> ctxDone)
    ensures VisitsOk(cfg, calls[r := c], EnterGpu(cfg, gpus, r, c, ctxDone))
  {
    var calls', gpus' := calls[r := c], EnterGpu(cfg, gpus, r, c, ctxDone);
    forall h | 0 <= h < |gpus'|
      ensures GpuOk(cfg, calls', h, gpus'[h])
    {
      GpuKeepsOk(cfg, calls, calls', h, gpus[h]);
      if h == Where(cfg, c) { EnterKeepsOk(cfg, calls', h, gpus[h], Visit(r, c.attempt), ctxDone); }
    }
    forall q | q in calls'
      ensures CallOk(cfg, gpus', q, calls'[q])
    {
      if q != r { assert CallOk(cfg, gpus, q, calls[q]); }
    }
  }

  lemma GpuStepKeepsVisits(cfg: FleetConfig, calls: map<nat, Call>, gpus: seq<State>, g: nat, e: Event)
    requires VisitsOk(cfg, calls, gpus) && g < |gpus| && Enabled(gpus[g], e)
    requires Internal(e) || (e.Cancel? && e.v in gpus[g].phase)
    ensures VisitsOk(cfg, calls, StepGpu(cfg, gpus, g, e))
  {
    var gpus' := StepGpu(cfg, gpus, g, e);
    GpuStepKeepsOk(cfg, calls, g, gpus[g], e);
    PhaseKeysKept(cfg.PerGpu(), gpus[g], e);
    forall q | q in calls
      ensures CallOk(cfg, gpus', q, calls[q])
    {
      assert CallOk(cfg, gpus, q, calls[q]);
    }
  }

  lemma PhaseKeysKept(cfg: Config, s: State, e: Event)
    requires Enabled(s, e)
    ensures forall v :: v in s.phase ==> v in Next(cfg, s, e).phase
  {
  }

  lemma BeginKeepsVisits(cfg: FleetConfig, f: Fleet, r: nat)
    requires VisitsOk(cfg, f.calls, f.gpus) && FleetEnabled(cfg, f, Begin(r))
    ensures var f' := FleetNext(cfg, f, Begin(r)); VisitsOk(cfg, f'.calls, f'.gpus)
  {
    UpdateGrows(f.calls, r, FirstCall(cfg, f));
    EnterKeepsVisits(cfg, f.calls, f.gpus, r, FirstCall(cfg, f), r in f.done);
  }

  lemma UpdateGrows(calls: map<nat, Call>, r: nat, c: Call)
    requires r in calls ==> c.start == calls[r].start && c.attempt > calls[r].attempt
    ensures CallsGrow(calls, calls[r := c])
  {
  }

  lemma CallsOk(cfg: FleetConfig, calls: map<nat, Call>, gpus: seq<State>, r: nat)
    requires VisitsOk(cfg, calls, gpus) && r in calls
    ensures CallOk(cfg, gpus, r, calls[r])
  {
  }

  lemma RetryKeepsVisits(cfg: FleetConfig, calls: map<nat, Call>, gpus: seq<State>, r: nat)
    requires VisitsOk(cfg, calls, gpus) && r in calls && cfg.First() <= calls[r].attempt < cfg.gpuCount
    ensures VisitsOk(cfg, calls[r := calls[r].Retry()], EnterGpu(cfg, gpus, r, calls[r].Retry(), true))
  {
    UpdateGrows(calls, r, calls[r].Retry());
    EnterKeepsVisits(cfg, calls, gpus, r, calls[r].Retry(), true);
  }

  lemma AdvanceKeepsVisits(cfg: FleetConfig, f: Fleet, r: nat)
    requires VisitsOk(cfg, f.calls, f.gpus) && FleetEnabled(cfg, f, Advance(r))
    ensures var f' := FleetNext(cfg, f, Advance(r)); VisitsOk(cfg, f'.calls, f'.gpus)
  {
    CallsOk(cfg, f.calls, f.gpus, r);
    if f.calls[r].attempt < cfg.gpuCount { RetryKeepsVisits(cfg, f.calls, f.gpus, r); }
  }

  lemma CtxDoneKeepsVisits(cfg: FleetConfig, f: Fleet, r: nat, scheduled: bool)
    requires VisitsOk(cfg, f.calls, f.gpus) && FleetEnabled(cfg, f, CtxDone(r, scheduled))
    ensures var f' := FleetNext(cfg, f, CtxDone(r, scheduled)); VisitsOk(cfg, f'.calls, f'.gpus)
  {
    if r in f.calls {
      assert CallOk(cfg, f.gpus, r, f.calls[r]);
      GpuStepKeepsVisits(cfg, f.calls, f.gpus, Where(cfg, f.calls[r]), Cancel(Visit(r, f.calls[r].attempt), scheduled));
    }
  }

  lemma StepKeepsVisits(cfg: FleetConfig, f: Fleet, e: FleetEvent)
    requires VisitsOk(cfg, f.calls, f.gpus) && FleetEnabled(cfg, f, e)
    ensures var f' := FleetNext(cfg, f, e); VisitsOk(cfg, f'.calls, f'.gpus)
  {
    match e
    case Begin(r) => BeginKeepsVisits(cfg, f, r);
    case Advance(r) =>
      assert CallOk(cfg, f.gpus, r, f.calls[r]);
      if f.calls[r].attempt < cfg.gpuCount { RetryKeepsVisits(cfg, f.calls, f.gpus, r); }
    case CtxDone(r, scheduled) => CtxDoneKeepsVisits(cfg, f, r, scheduled);
    case At(g, e) => GpuStepKeepsVisits(cfg, f.calls, f.gpus, g, e);
  }

  lemma {:induction false} VisitsStayOk(cfg: FleetConfig, es: seq<FleetEvent>)
    requires cfg.Valid() && FleetLegal(cfg, es)
    ensures VisitsOk(cfg, FleetRun(cfg, es).calls, FleetRun(cfg, es).gpus)
    decreases |es|
  {
    if es != [] {
      VisitsStayOk(cfg, es[..|es| - 1]);
      StepKeepsVisits(cfg, FleetRun(cfg, es[..|es| - 1]), es[|es| - 1]);
    }
  }

  /** An attempt not made before is unknown to every GPU. */
  lemma Fresh(cfg: FleetConfig, calls: map<nat, Call>, gpus: seq<State>, v: Visit, g: nat)
    requires VisitsOk(cfg, calls, gpus) && g < |gpus|
    requires v.request in calls ==> v.attempt > calls[v.request].attempt
    ensures v !in gpus[g].phase && v !in gpus[g].cancelled
  {
    assert GpuOk(cfg, calls, g, gpus[g]);
    assert v in gpus[g].phase ==> VisitOk(cfg, calls, g, gpus[g], v);
  }

  /* Every GPU follows the slot protocol */

  ghost predicate GpuSafe(cfg: FleetConfig, s: State)
    requires cfg.Valid()
  {
    Inv(cfg.PerGpu(), s) && Floor(s, 1)
  }

  ghost predicate GpusSafe(cfg: FleetConfig, gpus: seq<State>) {
    && Wf(cfg, gpus)
    && forall g {:trigger GpuSafe(cfg, gpus[g])} :: 0 <= g < |gpus| ==> GpuSafe(cfg, gpus[g])
  }

  /** Entering is Arrive, preceded by Cancel when the context ended before. */
  lemma EnterKeepsSafety(cfg: Config, s: State, v: Visit, ctxDone: bool, floor: int)
    requires Inv(cfg, s) && Floor(s, floor) && v !in s.phase && v !in s.cancelled
    ensures Inv(cfg, Enter(s, v, ctxDone)) && Floor(Enter(s, v, ctxDone), floor)
  {
    if ctxDone {
      var s1 := Next(cfg, s, Cancel(v, false));
      StepKeepsInv(cfg, s, Cancel(v, false));
      StepKeepsFloor(cfg, s, Cancel(v, false), floor);
      StepKeepsInv(cfg, s1, Arrive(v));
      StepKeepsFloor(cfg, s1, Arrive(v), floor);
      assert Next(cfg, s1, Arrive(v)) == Enter(s, v, true);
    } else {
      StepKeepsInv(cfg, s, Arrive(v));
      StepKeepsFloor(cfg, s, Arrive(v), floor);
    }
  }

  lemma EnterGpuKeepsSafety(cfg: FleetConfig, gpus: seq<State>, r: nat, c: Call, ctxDone: bool)
    requires GpusSafe(cfg, gpus)
    requires Visit(r, c.attempt) !in gpus[Where(cfg, c)].phase && Visit(r, c.attempt) !in gpus[Where(cfg, c)].cancelled
    ensures GpusSafe(cfg, EnterGpu(cfg, gpus, r, c, ctxDone))
  {
    assert GpuSafe(cfg, gpus[Where(cfg, c)]);
    EnterKeepsSafety(cfg.PerGpu(), gpus[Where(cfg, c)], Visit(r, c.attempt), ctxDone, 1);
  }

  lemma StepGpuKeepsSafety(cfg: FleetConfig, gpus: seq<State>, g: nat, e: Event)
    requires GpusSafe(cfg, gpus) && g < |gpus| && Enabled(gpus[g], e)
    ensures GpusSafe(cfg, StepGpu(cfg, gpus, g, e))
  {
    assert GpuSafe(cfg, gpus[g]);
    StepKeepsInv(cfg.PerGpu(), gpus[g], e);
    StepKeepsFloor(cfg.PerGpu(), gpus[g], e, 1);
  }

  lemma FleetStepKeepsSafety(cfg: FleetConfig, f: Fleet, e: FleetEvent)
    requires VisitsOk(cfg, f.calls, f.gpus) && FleetEnabled(cfg, f, e) && GpusSafe(cfg, f.gpus)
    ensures GpusSafe(cfg, FleetNext(cfg, f, e).gpus)
  {
    match e
    case Begin(r) =>
      var c := FirstCall(cfg, f);
      Fresh(cfg, f.calls, f.gpus, Visit(r, c.attempt), Where(cfg, c));
      EnterGpuKeepsSafety(cfg, f.gpus, r, c, r in f.done);
    case Advance(r) =>
      if f.calls[r].attempt < cfg.gpuCount {
        var c := f.calls[r].Retry();
        Fresh(cfg, f.calls, f.gpus, Visit(r, c.attempt), Where(cfg, c));
        EnterGpuKeepsSafety(cfg, f.gpus, r, c, true);
      }
    case CtxDone(r, scheduled) =>
      if r in f.calls {
        StepGpuKeepsSafety(cfg, f.gpus, Where(cfg, f.calls[r]), Cancel(Visit(r, f.calls[r].attempt), scheduled));
      }
    case At(g, e) => StepGpuKeepsSafety(cfg, f.gpus, g, e);
  }

  /** In every reachable fleet each GPU holds at most its share, counts its grants exactly, and
      stalls nobody. */
  lemma {:induction false} FleetSafety(cfg: FleetConfig, es: seq<FleetEvent>)
    requires cfg.Valid() && FleetLegal(cfg, es)
    ensures GpusSafe(cfg, FleetRun(cfg, es).gpus)
    decreases |es|
  {
    if es == [] {
      assert In(INIT, Holding) == {} && In(INIT, Parked) == {};
    } else {
      FleetSafety(cfg, es[..|es| - 1]);
      VisitsStayOk(cfg, es[..|es| - 1]);
      FleetStepKeepsSafety(cfg, FleetRun(cfg, es[..|es| - 1]), es[|es| - 1]);
    }
  }

  /* Abandoned attempts */

  /** All attempts before the current one have left, and so has the last one of a failed request. */
  ghost predicate PastOk(cfg: FleetConfig, gpus: seq<State>, r: nat, c: Call, failed: set<nat>)
    requires Wf(cfg, gpus)
  {
    && (forall a: nat :: cfg.First() <= a < c.attempt ==> Is(gpus[Where(cfg, Call(c.start, a))], Visit(r, a), Left))
    && (r in failed ==> Is(gpus[Where(cfg, c)], Visit(r, c.attempt), Left))
  }

  ghost predicate HistoryOk(cfg: FleetConfig, f: Fleet) {
    && Wf(cfg, f.gpus)
    && (forall r {:trigger PastOk(cfg, f.gpus, r, f.calls[r], f.failed)} ::
          r in f.calls ==> PastOk(cfg, f.gpus, r, f.calls[r], f.failed))
    && (forall r :: r in f.failed ==> r in f.calls)
  }

  /** Who has left stays so. */
  ghost predicate LeftKept(gpus: seq<State>, gpus': seq<State>) {
    && |gpus'| == |gpus|
    && forall g, v :: 0 <= g < |gpus| && Is(gpus[g], v, Left) ==> Is(gpus'[g], v, Left)
  }

  lemma LeftIsFinal(cfg: Config, s: State, e: Event, v: Visit)
    requires Enabled(s, e) && Is(s, v, Left)
    ensures Is(Next(cfg, s, e), v, Left)
  {
  }

  lemma StepGpuKeepsLeft(cfg: FleetConfig, gpus: seq<State>, g: nat, e: Event)
    requires Wf(cfg, gpus) && g < |gpus| && Enabled(gpus[g], e)
    ensures LeftKept(gpus, StepGpu(cfg, gpus, g, e))
  {
    forall v | Is(gpus[g], v, Left)
      ensures Is(StepGpu(cfg, gpus, g, e)[g], v, Left)
    {
      LeftIsFinal(cfg.PerGpu(), gpus[g], e, v);
    }
  }

  lemma PastKept(cfg: FleetConfig, gpus: seq<State>, gpus': seq<State>, r: nat, c: Call, failed: set<nat>)
    requires Wf(cfg, gpus) && PastOk(cfg, gpus, r, c, failed) && LeftKept(gpus, gpus')
    ensures PastOk(cfg, gpus', r, c, failed)
  {
  }

  lemma HistoryKept(cfg: FleetConfig, f: Fleet, f': Fleet)
    requires HistoryOk(cfg, f) && LeftKept(f.gpus, f'.gpus) && f'.calls == f.calls && f'.failed == f.failed
    ensures HistoryOk(cfg, f')
  {
    forall r | r in f.calls
      ensures PastOk(cfg, f'.gpus, r, f.calls[r], f.failed)
    {
      PastKept(cfg, f.gpus, f'.gpus, r, f.calls[r], f.failed);
    }
  }

  lemma EnterGpuKeepsLeft(cfg: FleetConfig, gpus: seq<State>, r: nat, c: Call, ctxDone: bool)
    requires Wf(cfg, gpus) && Visit(r, c.attempt) !in gpus[Where(cfg, c)].phase
    ensures LeftKept(gpus, EnterGpu(cfg, gpus, r, c, ctxDone))
  {
  }

  lemma EnterKeepsHistory(cfg: FleetConfig, f: Fleet, r: nat, c: Call, f': Fleet)
    requires HistoryOk(cfg, f) && LeftKept(f.gpus, f'.gpus) && r !in f.failed
    requires f'.calls == f.calls[r := c] && f'.failed == f.failed
    requires PastOk(cfg, f'.gpus, r, c, f'.failed)
    ensures HistoryOk(cfg, f')
  {
    forall q | q in f'.calls
      ensures PastOk(cfg, f'.gpus, q, f'.calls[q], f'.failed)
    {
      if q != r { PastKept(cfg, f.gpus, f'.gpus, q, f.calls[q], f.failed); }
    }
  }

  lemma BeginKeepsHistory(cfg: FleetConfig, f: Fleet, r: nat)
    requires VisitsOk(cfg, f.calls, f.gpus) && HistoryOk(cfg, f) && FleetEnabled(cfg, f, Begin(r))
    ensures HistoryOk(cfg, FleetNext(cfg, f, Begin(r)))
  {
    var c := FirstCall(cfg, f);
    Fresh(cfg, f.calls, f.gpus, Visit(r, c.attempt), Where(cfg, c));
    EnterGpuKeepsLeft(cfg, f.gpus, r, c, r in f.done);
    EnterKeepsHistory(cfg, f, r, c, FleetNext(cfg, f, Begin(r)));
  }

  lemma RetryPast(cfg: FleetConfig, gpus: seq<State>, gpus': seq<State>, r: nat, c: Call, failed: set<nat>)
    requires Wf(cfg, gpus) && LeftKept(gpus, gpus') && r !in failed
    requires PastOk(cfg, gpus, r, c, failed) && Is(gpus[Where(cfg, c)], Visit(r, c.attempt), Left)
    ensures PastOk(cfg, gpus', r, c.Retry(), failed)
  {
    forall a: nat | cfg.First() <= a < c.Retry().attempt
      ensures Is(gpus'[Where(cfg, Call(c.start, a))], Visit(r, a), Left)
    {
      assert Is(gpus[Where(cfg, Call(c.start, a))], Visit(r, a), Left);
    }
  }

  lemma RetryKeepsHistory(cfg: FleetConfig, f: Fleet, r: nat)
    requires VisitsOk(cfg, f.calls, f.gpus) && HistoryOk(cfg, f) && FleetEnabled(cfg, f, Advance(r))
    requires f.calls[r].attempt < cfg.gpuCount
    ensures HistoryOk(cfg, FleetNext(cfg, f, Advance(r)))
  {
    var c := f.calls[r].Retry();
    Fresh(cfg, f.calls, f.gpus, Visit(r, c.attempt), Where(cfg, c));
    EnterGpuKeepsLeft(cfg, f.gpus, r, c, true);
    assert PastOk(cfg, f.gpus, r, f.calls[r], f.failed);
    RetryPast(cfg, f.gpus, EnterGpu(cfg, f.gpus, r, c, true), r, f.calls[r], f.failed);
    EnterKeepsHistory(cfg, f, r, c, FleetNext(cfg, f, Advance(r)));
  }

  lemma GiveUpKeepsHistory(cfg: FleetConfig, f: Fleet, r: nat)
    requires HistoryOk(cfg, f) && FleetEnabled(cfg, f, Advance(r)) && f.calls[r].attempt >= cfg.gpuCount
    ensures HistoryOk(cfg, FleetNext(cfg, f, Advance(r)))
  {
    forall q | q in f.calls
      ensures PastOk(cfg, f.gpus, q, f.calls[q], f.failed + {r})
    {
      assert PastOk(cfg, f.gpus, q, f.calls[q], f.failed);
    }
  }

  lemma FleetStepKeepsHistory(cfg: FleetConfig, f: Fleet, e: FleetEvent)
    requires VisitsOk(cfg, f.calls, f.gpus) && HistoryOk(cfg, f) && FleetEnabled(cfg, f, e)
    ensures HistoryOk(cfg, FleetNext(cfg, f, e))
  {
    match e
    case Begin(r) => BeginKeepsHistory(cfg, f, r);
    case Advance(r) =>
      if f.calls[r].attempt < cfg.gpuCount { RetryKeepsHistory(cfg, f, r); } else { GiveUpKeepsHistory(cfg, f, r); }
    case CtxDone(r, scheduled) =>
      if r in f.calls {
        StepGpuKeepsLeft(cfg, f.gpus, Where(cfg, f.calls[r]), Cancel(Visit(r, f.calls[r].attempt), scheduled));
        HistoryKept(cfg, f, FleetNext(cfg, f, e));
      }
    case At(g, e') =>
      StepGpuKeepsLeft(cfg, f.gpus, g, e');
      HistoryKept(cfg, f, FleetNext(cfg, f, e));
  }

  lemma {:induction false} HistoryStaysOk(cfg: FleetConfig, es: seq<FleetEvent>)
    requires cfg.Valid() && FleetLegal(cfg, es)
    ensures HistoryOk(cfg, FleetRun(cfg, es))
    decreases |es|
  {
    if es != [] {
      HistoryStaysOk(cfg, es[..|es| - 1]);
      VisitsStayOk(cfg, es[..|es| - 1]);
      FleetStepKeepsHistory(cfg, FleetRun(cfg, es[..|es| - 1]), es[|es| - 1]);
    }
  }

  lemma EveryVisitHasLeft(cfg: FleetConfig, f: Fleet, g: nat, v: Visit)
    requires VisitsOk(cfg, f.calls, f.gpus) && HistoryOk(cfg, f) && g < cfg.gpuCount
    requires v in f.gpus[g].phase && v.request in f.failed
    ensures f.gpus[g].phase[v] == Left
  {
    assert GpuOk(cfg, f.calls, g, f.gpus[g]);
    assert VisitOk(cfg, f.calls, g, f.gpus[g], v);
    var c := f.calls[v.request];
    assert PastOk(cfg, f.gpus, v.request, c, f.failed);
    assert Call(c.start, c.attempt) == c;
  }

  lemma {:induction false} PrefixIsLegal(cfg: FleetConfig, es: seq<FleetEvent>, k: nat)
    requires cfg.Valid() && FleetLegal(cfg, es) && k <= |es|
    ensures FleetLegal(cfg, es[..k])
    decreases |es|
  {
    if k == |es| {
      assert es[..k] == es;
    } else {
      PrefixIsLegal(cfg, es[..|es| - 1], k);
      assert es[..|es| - 1][..k] == es[..k];
    }
  }

  predicate Held(s: State, v: Visit) { Is(s, v, Holding) || Is(s, v, Served) }

  /** Whoever got a slot holds it or has released it, and a request that failed has failed for good. */
  lemma StepKeepsHeld(cfg: FleetConfig, f: Fleet, e: FleetEvent, g: nat, v: Visit)
    requires VisitsOk(cfg, f.calls, f.gpus) && FleetEnabled(cfg, f, e) && g < cfg.gpuCount
    ensures Held(f.gpus[g], v) ==> Held(FleetNext(cfg, f, e).gpus[g], v)
    ensures f.failed <= FleetNext(cfg, f, e).failed
  {
    match e
    case Begin(r) => Fresh(cfg, f.calls, f.gpus, Visit(r, FirstCall(cfg, f).attempt), g);
    case Advance(r) => Fresh(cfg, f.calls, f.gpus, Visit(r, f.calls[r].attempt + 1), g);
    case CtxDone(_, _) =>
    case At(_, _) =>
  }

  lemma {:induction false} HeldStays(cfg: FleetConfig, es: seq<FleetEvent>, k: nat, g: nat, v: Visit)
    requires cfg.Valid() && FleetLegal(cfg, es) && k <= |es| && FleetLegal(cfg, es[..k]) && g < cfg.gpuCount
    ensures Held(FleetRun(cfg, es[..k]).gpus[g], v) ==> Held(FleetRun(cfg, es).gpus[g], v)
    ensures FleetRun(cfg, es[..k]).failed <= FleetRun(cfg, es).failed
    decreases |es|
  {
    if k == |es| {
      assert es[..k] == es;
    } else {
      var front := es[..|es| - 1];
      assert front[..k] == es[..k];
      HeldStays(cfg, front, k, g, v);
      VisitsStayOk(cfg, front);
      StepKeepsHeld(cfg, FleetRun(cfg, front), es[|es| - 1], g, v);
    }
  }

  /** A request that failed at some moment `j` of a run held a slot at no moment `k`, earlier or
      later. */
  lemma FailedRequestNeverHolds(cfg: FleetConfig, es: seq<FleetEvent>, j: nat, k: nat, g: nat, v: Visit)
    requires cfg.Valid() && FleetLegal(cfg, es) && j <= |es| && k <= |es| && g < cfg.gpuCount
    requires FleetLegal(cfg, es[..j]) && v.request in FleetRun(cfg, es[..j]).failed
    ensures FleetLegal(cfg, es[..k]) && !Is(FleetRun(cfg, es[..k]).gpus[g], v, Holding)
  {
    PrefixIsLegal(cfg, es, k);
    HeldStays(cfg, es, j, g, v);
    HeldStays(cfg, es, k, g, v);
    VisitsStayOk(cfg, es);
    HistoryStaysOk(cfg, es);
    if v in FleetRun(cfg, es).gpus[g].phase {
      EveryVisitHasLeft(cfg, FleetRun(cfg, es), g, v);
    }
  }

  /* The walk around the ring */

  lemma {:induction false} RingAgain(k: nat, n: int)
    requires n > 0
    ensures Ring(k + n, n) == Ring(k, n)
  {
  }

  /** `n` steps around a ring of `n` meet every place. */
  lemma {:induction false} RingMeetsAll(k: nat, n: int, g: nat) returns (a: nat)
    requires n > 0 && g < n
    ensures a < n && Ring(k + a, n) == g
    decreases k
  {
    if k >= n {
      a := RingMeetsAll(k - n, n, g);
      RingAgain(k - n + a, n);
    } else if k <= g {
      a := g - k;
    } else {
      a := g + n - k;
    }
  }

  /** A request fails only after its last attempt. */
  ghost predicate FailedLast(cfg: FleetConfig, f: Fleet) {
    forall r :: r in f.failed ==> r in f.calls && f.calls[r].attempt == cfg.gpuCount
  }

  lemma {:induction false} FailuresAreLast(cfg: FleetConfig, es: seq<FleetEvent>)
    requires cfg.Valid() && FleetLegal(cfg, es)
    ensures FailedLast(cfg, FleetRun(cfg, es))
    decreases |es|
  {
    if es != [] {
      var front, e := es[..|es| - 1], es[|es| - 1];
      FailuresAreLast(cfg, front);
      VisitsStayOk(cfg, front);
      if e.Advance? { CallsOk(cfg, FleetRun(cfg, front).calls, FleetRun(cfg, front).gpus, e.r); }
    }
  }

  /** A request that failed has tried every GPU once, and at last the first one of its walk again; on a
      single GPU it has tried that one. */
  lemma FailedRequestTriedEveryGpu(cfg: FleetConfig, es: seq<FleetEvent>, r: nat, g: nat) returns (a: nat)
    requires cfg.Valid() && FleetLegal(cfg, es) && r in FleetRun(cfg, es).failed && g < cfg.gpuCount
    ensures Is(FleetRun(cfg, es).gpus[g], Visit(r, a), Left)
    ensures cfg.gpuCount > 1 ==> a < cfg.gpuCount
    ensures var f := FleetRun(cfg, es);
            r in f.calls && Is(f.gpus[Ring(f.calls[r].start, cfg.gpuCount)], Visit(r, cfg.gpuCount), Left)
  {
    var f := FleetRun(cfg, es);
    HistoryStaysOk(cfg, es);
    FailuresAreLast(cfg, es);
    var c := f.calls[r];
    assert PastOk(cfg, f.gpus, r, c, f.failed);
    RingAgain(c.start, cfg.gpuCount);
    if cfg.gpuCount == 1 {
      a := 1;
    } else {
      a := RingMeetsAll(c.start, cfg.gpuCount, g);
      assert Where(cfg, Call(c.start, a)) == g;
    }
  }

  /* The capacity of a GPU, and entering it */

  /** A GPU's slots are the most, up to its share of the ceiling, whose reservations fit into its free memory,
      but at least one; without a reading they are its share. */
  lemma PerGpuIsLargestFit(cfg: FleetConfig, free: int, k: int)
    requires cfg.Valid() && 1 <= k <= CeilDiv(cfg.ceiling, cfg.gpuCount)
    ensures free > 0 ==> (k <= Effective(cfg.PerGpu(), free) <==> k == 1 || k * cfg.bytesPerSlot <= free)
    ensures free <= 0 ==> Effective(cfg.PerGpu(), free) == CeilDiv(cfg.ceiling, cfg.gpuCount)
  {
    if free > 0 { EffectiveIsLargestFit(cfg.PerGpu(), free, k); }
  }

  /** Entering a GPU is the arrival of the slot protocol, after the end of the context if it has ended. */
  lemma EnterIsArrive(cfg: Config, s: State, v: Visit, ctxDone: bool)
    requires v !in s.phase && v !in s.cancelled
    ensures Enter(s, v, ctxDone)
            == if ctxDone then Next(cfg, Next(cfg, s, Cancel(v, false)), Arrive(v)) else Next(cfg, s, Arrive(v))
  {
  }
}
