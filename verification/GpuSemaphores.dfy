/** The multi-GPU limiter object: its critical sections, each proved to be one event of GpuLimiter. */
module GpuSemaphores {
  import opened SlotProtocol
  import opened GpuLimiter
  import GpuDistribution
  import Limiter

  class GpuSemaphores {
    const ceiling: int
    const bytesPerSlot: int
    const gpuCount: int
    const ceilingPerGpu: int
    const inFlight: array<int>             // per GPU
    const waitLists: array<set<Visit>>     // per GPU, the condition variable
    var rr: nat
    ghost var fleet: Fleet

    ghost function Cfg(): FleetConfig { FleetConfig(ceiling, bytesPerSlot, gpuCount) }

    /** Disabled, or in a state that GpuLimiter allows. */
    ghost predicate Valid()
      reads this, inFlight, waitLists
    {
      ceiling <= 0 || Active()
    }

    ghost predicate Active()
      reads this, inFlight, waitLists
    {
      && VisitsOk(Cfg(), fleet.calls, fleet.gpus)
      && ceilingPerGpu == CeilDiv(ceiling, gpuCount)
      && inFlight.Length == gpuCount && waitLists.Length == gpuCount
      && rr == fleet.rr
      && (forall g :: 0 <= g < gpuCount ==> inFlight[g] == fleet.gpus[g].inFlight)
      && (forall g :: 0 <= g < gpuCount ==> waitLists[g] == In(fleet.gpus[g], Parked))
    }

    constructor (ceiling: int, bytesPerSlot: int, gpuCount: int)
      ensures Valid() && fresh(inFlight) && fresh(waitLists)
      ensures this.ceiling <= 0 <==> ceiling <= 0 || gpuCount < 1
      ensures this.ceiling > 0 ==>
                && this.ceiling == ceiling && this.gpuCount == gpuCount && fleet == FleetInit(Cfg())
                && this.bytesPerSlot == if bytesPerSlot <= 0 then 2 * 1024 * 1024 * 1024 else bytesPerSlot
    {
      var enabled := ceiling > 0 && gpuCount >= 1;
      var bytes := if bytesPerSlot <= 0 then Limiter.DEFAULT_BYTES_PER_SLOT else bytesPerSlot;
      var gpus := if enabled then gpuCount else 0;
      this.ceiling, this.bytesPerSlot, this.gpuCount := if enabled then ceiling else 0, bytes, gpus;
      this.ceilingPerGpu := if enabled then CeilDiv(ceiling, gpuCount) else 0;
      this.inFlight := new int[gpus](_ => 0);
      this.waitLists := new set<Visit>[gpus](_ => {});
      this.rr := 0;
      this.fleet := FleetInit(FleetConfig(ceiling, bytes, if enabled then gpuCount else 1));
      new;
      assert In(INIT, Parked) == {};
    }

    /** `free` is the probe reading of the GPU, zero when it has no probe. */
    method EffectivePerGpuLocked(free: int) returns (perGpu: int)
      requires ceiling > 0 ==> gpuCount > 0 && ceilingPerGpu == CeilDiv(ceiling, gpuCount)
      ensures perGpu == if ceiling > 0 then Effective(Cfg().PerGpu(), free) else 0
    {
      if ceiling <= 0 {
        return 0;
      }
      perGpu := ceilingPerGpu;
      if free > 0 && bytesPerSlot > 0 {
        var slots := free / bytesPerSlot;
        if slots < 1 {
          slots := 1;
        }
        if slots > ceilingPerGpu {
          slots := ceilingPerGpu;
        }
        perGpu := slots;
      }
    }

    /** The start of AcquireGPU: a disabled limiter is bypassed, otherwise the request draws a ticket
        that names the first GPU to try. */
    method Begin(r: nat, ctxDone: bool) returns (bypass: bool, gpu: nat)
      requires Valid() && (ceiling > 0 ==> r !in fleet.calls && ctxDone == (r in fleet.done))
      modifies this
      ensures Valid() && bypass == (ceiling <= 0)
      ensures if bypass then fleet == old(fleet) && rr == old(rr)
              else fleet == FleetNext(Cfg(), old(fleet), FleetEvent.Begin(r))
                   && gpu < gpuCount && Is(fleet.gpus[gpu], Visit(r, Cfg().First()), Arriving)
                   && gpu == (if gpuCount == 1 then 0 else old(rr) % gpuCount)
    {
      bypass, gpu := ceiling <= 0, 0;
      if bypass {
        return;
      }
      ghost var c := FirstCall(Cfg(), fleet);
      Fresh(Cfg(), fleet.calls, fleet.gpus, Visit(r, c.attempt), Where(Cfg(), c));
      BeginKeepsVisits(Cfg(), fleet, r);
      var start := rr;
      if gpuCount == 1 {
        gpu := 0;
      } else {
        rr := rr + 1;
        gpu := start % gpuCount;
        GpuDistribution.RingIsMod(start, gpuCount);
      }
      EnterKeepsParked(fleet.gpus[Where(Cfg(), c)], Visit(r, c.attempt), r in fleet.done);
      fleet := FleetNext(Cfg(), fleet, FleetEvent.Begin(r));
    }

    /** The environment's part: a request's context ends and, while it waits, the callback of the GPU it
        waits for is scheduled. The object itself is not touched. */
    ghost method ContextEnds(r: nat, scheduled: bool)
      requires Active() && FleetEnabled(Cfg(), fleet, CtxDone(r, scheduled))
      modifies `fleet
      ensures Active() && fleet == FleetNext(Cfg(), old(fleet), CtxDone(r, scheduled))
    {
      CtxDoneKeepsVisits(Cfg(), fleet, r, scheduled);
      if r in fleet.calls {
        ghost var c := fleet.calls[r];
        CancelKeepsParked(Cfg().PerGpu(), fleet.gpus[Where(Cfg(), c)], Visit(r, c.attempt), scheduled);
      }
      fleet := FleetNext(Cfg(), fleet, CtxDone(r, scheduled));
    }

    /** The ring loop after an attempt has given up: the next GPU in the ring, the blocking attempt on the
        first one again after a full round, and failure after that. */
    method Retry(r: nat, start: nat, attempt: nat) returns (failed: bool, gpu: nat)
      requires Active() && FleetEnabled(Cfg(), fleet, Advance(r)) && fleet.calls[r] == Call(start, attempt)
      modifies this
      ensures Active() && fleet == FleetNext(Cfg(), old(fleet), Advance(r))
      ensures failed <==> r in fleet.failed
      ensures !failed ==> gpu < gpuCount && Is(fleet.gpus[gpu], Visit(r, attempt + 1), Arriving)
      ensures !failed ==> gpu == (start + attempt + 1) % gpuCount
    {
      AdvanceKeepsVisits(Cfg(), fleet, r);
      ghost var c := fleet.calls[r].Retry();
      failed, gpu := attempt >= gpuCount, 0;
      if !failed {
        gpu := (start + attempt + 1) % gpuCount;
        GpuDistribution.RingIsMod(start + attempt + 1, gpuCount);
        Fresh(Cfg(), fleet.calls, fleet.gpus, Visit(r, c.attempt), Where(Cfg(), c));
        EnterKeepsParked(fleet.gpus[Where(Cfg(), c)], Visit(r, c.attempt), true);
      }
      fleet := FleetNext(Cfg(), fleet, Advance(r));
    }

    /** One iteration of the wait loop on a GPU. */
    method Pass(gpu: nat, v: Visit, ctxDone: bool, free: int) returns (outcome: Limiter.Outcome)
      requires Active() && gpu < gpuCount && Enabled(fleet.gpus[gpu], Event.Pass(v, free))
      requires ctxDone == (v in fleet.gpus[gpu].cancelled)
      modifies this, inFlight, waitLists
      ensures Active() && fleet == FleetNext(Cfg(), old(fleet), At(gpu, Event.Pass(v, free)))
      ensures outcome == Limiter.Granted <==> Is(fleet.gpus[gpu], v, Holding)
      ensures outcome == Limiter.GaveUp <==> Is(fleet.gpus[gpu], v, Left)
    {
      GpuStepKeepsVisits(Cfg(), fleet.calls, fleet.gpus, gpu, Event.Pass(v, free));
      ghost var s := fleet.gpus[gpu];
      var eff := EffectivePerGpuLocked(free);
      fleet := FleetNext(Cfg(), fleet, At(gpu, Event.Pass(v, free)));
      if ctxDone {
        outcome := Limiter.GaveUp;
      } else if inFlight[gpu] < eff {
        inFlight[gpu] := inFlight[gpu] + 1;
        outcome := Limiter.Granted;
      } else {
        waitLists[gpu] := waitLists[gpu] + {v};
        outcome := Limiter.Waits;
      }
      assert waitLists[gpu] == In(NextPass(Cfg().PerGpu(), s, v, free), Parked);
    }

    /** The critical section of a release, which a surplus release enters too. */
    method ReleaseGpuLocked(gpu: nat, before: int, after: int, pick: Visit)
      requires gpu < inFlight.Length && gpu < waitLists.Length
      requires ceiling > 0 && gpuCount > 0 && ceilingPerGpu == CeilDiv(ceiling, gpuCount)
      modifies inFlight, waitLists
      ensures inFlight[gpu] == if old(inFlight[gpu]) > 0 then old(inFlight[gpu]) - 1 else old(inFlight[gpu])
      ensures waitLists[gpu] == if Effective(Cfg().PerGpu(), after) > Effective(Cfg().PerGpu(), before) then {}
                                else old(waitLists[gpu]) - {pick}
      ensures forall g :: 0 <= g < inFlight.Length && g != gpu ==> inFlight[g] == old(inFlight[g])
      ensures forall g :: 0 <= g < waitLists.Length && g != gpu ==> waitLists[g] == old(waitLists[g])
    {
      var prevEff := EffectivePerGpuLocked(before);
      if inFlight[gpu] > 0 {
        inFlight[gpu] := inFlight[gpu] - 1;
      }
      var newEff := EffectivePerGpuLocked(after);
      if newEff > prevEff {
        waitLists[gpu] := {};
      } else {
        waitLists[gpu] := waitLists[gpu] - {pick};
      }
    }

    method ReleaseGpu(gpu: nat, v: Visit, before: int, after: int, pick: Visit)
      requires Active() && gpu < gpuCount && Enabled(fleet.gpus[gpu], Release(v, before, after, pick))
      modifies this, inFlight, waitLists
      ensures Active() && fleet == FleetNext(Cfg(), old(fleet), At(gpu, Release(v, before, after, pick)))
    {
      GpuStepKeepsVisits(Cfg(), fleet.calls, fleet.gpus, gpu, Release(v, before, after, pick));
      ghost var s := fleet.gpus[gpu];
      ReleaseGpuLocked(gpu, before, after, pick);
      fleet := FleetNext(Cfg(), fleet, At(gpu, Release(v, before, after, pick)));
      assert waitLists[gpu] == In(NextRelease(Cfg().PerGpu(), s, v, before, after, pick), Parked);
    }

    /** The body of a cancellation callback on a GPU. */
    method Broadcast(gpu: nat)
      requires Active() && gpu < gpuCount && Enabled(fleet.gpus[gpu], Callback)
      modifies this, waitLists
      ensures Active() && fleet == FleetNext(Cfg(), old(fleet), At(gpu, Callback))
    {
      GpuStepKeepsVisits(Cfg(), fleet.calls, fleet.gpus, gpu, Callback);
      fleet := FleetNext(Cfg(), fleet, At(gpu, Callback));
      waitLists[gpu] := {};
      assert waitLists[gpu] == In(fleet.gpus[gpu], Parked);
    }
  }

  lemma CancelKeepsParked(cfg: Config, s: State, v: Visit, scheduled: bool)
    requires Enabled(s, Cancel(v, scheduled))
    ensures In(Next(cfg, s, Cancel(v, scheduled)), Parked) == In(s, Parked)
    ensures Next(cfg, s, Cancel(v, scheduled)).inFlight == s.inFlight
  {
  }

  lemma EnterKeepsParked(s: State, v: Visit, ctxDone: bool)
    requires v !in s.phase
    ensures In(Enter(s, v, ctxDone), Parked) == In(s, Parked)
    ensures Enter(s, v, ctxDone).inFlight == s.inFlight
  {
  }
}
