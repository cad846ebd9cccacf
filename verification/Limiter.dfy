/** The limiter object: its critical sections, each proved to be one event of the slot protocol. */
module Limiter {
  import opened SlotProtocol

  const DEFAULT_BYTES_PER_SLOT: int := 0x8000_0000  // 2 GiB

  datatype Outcome = Granted | Waits | GaveUp

  class Limiter {
    const ceiling: int
    const bytesPerSlot: int
    var inFlight: int
    var lastEff: int
    var haveLast: bool
    var waitList: set<Visit>  // the condition variable
    ghost var protocol: State

    /** The object's counter and wait list are those of a state the protocol allows. */
    ghost predicate Valid()
      reads this
    {
      && bytesPerSlot > 0
      && protocol.inFlight == inFlight
      && In(protocol, Parked) == waitList
      && (ceiling > 0 ==> Inv(Cfg(), protocol))
    }

    ghost function Cfg(): Config { Config(ceiling, bytesPerSlot) }

    constructor (ceiling: int, bytesPerSlot: int)
      ensures Valid() && protocol == INIT && this.ceiling == ceiling
      ensures this.bytesPerSlot == if bytesPerSlot <= 0 then 2 * 1024 * 1024 * 1024 else bytesPerSlot
    {
      this.ceiling := ceiling;
      this.bytesPerSlot := if bytesPerSlot <= 0 then DEFAULT_BYTES_PER_SLOT else bytesPerSlot;
      inFlight, waitList, protocol := 0, {}, INIT;
      lastEff, haveLast := 0, false;
      new;
      assert In(INIT, Holding) == {} && In(INIT, Parked) == {};
    }

    /** `free` is the probe reading, zero when there is no probe. */
    method EffectiveLocked(free: int) returns (slots: int)
      modifies `lastEff, `haveLast
      ensures slots == Effective(Cfg(), free)
      ensures ceiling > 0 ==> haveLast && lastEff == slots
    {
      if ceiling <= 0 {
        return 0;
      }
      if free <= 0 || bytesPerSlot <= 0 {
        slots := ceiling;
      } else {
        slots := free / bytesPerSlot;
        if slots < 1 {
          slots := 1;
        }
        if slots > ceiling {
          slots := ceiling;
        }
      }
      if !haveLast || lastEff != slots {
        lastEff := slots;
        haveLast := true;
      }
    }

    /** The start of Acquire: a disabled limiter is bypassed, otherwise the cancellation callback is
        registered. */
    method Arrive(v: Visit) returns (bypass: bool)
      requires Valid() && Enabled(protocol, SlotProtocol.Arrive(v))
      modifies `protocol
      ensures Valid() && bypass == (ceiling <= 0)
      ensures protocol == if bypass then old(protocol) else Next(Cfg(), old(protocol), SlotProtocol.Arrive(v))
    {
      bypass := ceiling <= 0;
      if !bypass {
        StepKeepsInv(Cfg(), protocol, SlotProtocol.Arrive(v));
        protocol := Next(Cfg(), protocol, SlotProtocol.Arrive(v));
        assert In(protocol, Parked) == In(old(protocol), Parked);
      }
    }

    /** The environment's part: the context of a call ends and, while the call waits, its callback is
        scheduled. The object itself is not touched. */
    ghost method ContextEnds(v: Visit, scheduled: bool)
      requires Valid() && Enabled(protocol, Cancel(v, scheduled))
      modifies `protocol
      ensures Valid() && protocol == Next(Cfg(), old(protocol), Cancel(v, scheduled))
    {
      if ceiling > 0 {
        StepKeepsInv(Cfg(), protocol, Cancel(v, scheduled));
      }
      protocol := Next(Cfg(), protocol, Cancel(v, scheduled));
      assert In(protocol, Parked) == In(old(protocol), Parked);
    }

    /** One iteration of Acquire's loop: give up, take a slot, or go to the wait list. */
    method Pass(v: Visit, ctxDone: bool, free: int) returns (outcome: Outcome)
      requires Valid() && ceiling > 0 && Enabled(protocol, SlotProtocol.Pass(v, free))
      requires ctxDone == (v in protocol.cancelled)
      modifies this
      ensures Valid() && protocol == Next(Cfg(), old(protocol), SlotProtocol.Pass(v, free))
      ensures outcome == Granted <==> Is(protocol, v, Holding)
      ensures outcome == Waits <==> Is(protocol, v, Parked)
      ensures outcome == GaveUp <==> Is(protocol, v, Left)
    {
      StepKeepsInv(Cfg(), protocol, SlotProtocol.Pass(v, free));
      if ctxDone {
        outcome := GaveUp;
      } else {
        var eff := EffectiveLocked(free);
        if inFlight < eff {
          inFlight := inFlight + 1;
          outcome := Granted;
        } else {
          waitList := waitList + {v};
          outcome := Waits;
        }
      }
      protocol := Next(Cfg(), protocol, SlotProtocol.Pass(v, free));
    }

    /** The critical section of a release, which a surplus release enters too: the counter does not go below
        zero; everybody is woken when capacity grew between the two readings, else one waiter. */
    method ReleaseLocked(before: int, after: int, pick: Visit)
      modifies `inFlight, `waitList, `lastEff, `haveLast
      ensures inFlight == if old(inFlight) > 0 then old(inFlight) - 1 else old(inFlight)
      ensures waitList == if Effective(Cfg(), after) > Effective(Cfg(), before) then {} else old(waitList) - {pick}
    {
      var prevEff := EffectiveLocked(before);
      if inFlight > 0 {
        inFlight := inFlight - 1;
      }
      var newEff := EffectiveLocked(after);
      if newEff > prevEff {
        waitList := {};
      } else {
        waitList := waitList - {pick};
      }
    }

    /** The two probe readings `before` and `after` may differ; `pick` is the waiter Signal wakes. */
    method Release(v: Visit, before: int, after: int, pick: Visit)
      requires Valid() && ceiling > 0 && Enabled(protocol, SlotProtocol.Release(v, before, after, pick))
      modifies this
      ensures Valid() && protocol == Next(Cfg(), old(protocol), SlotProtocol.Release(v, before, after, pick))
    {
      StepKeepsInv(Cfg(), protocol, SlotProtocol.Release(v, before, after, pick));
      ReleaseLocked(before, after, pick);
      protocol := Next(Cfg(), protocol, SlotProtocol.Release(v, before, after, pick));
    }

    /** The body of a cancellation callback. */
    method Broadcast()
      requires Valid() && ceiling > 0 && Enabled(protocol, Callback)
      modifies `waitList, `protocol
      ensures Valid() && protocol == Next(Cfg(), old(protocol), Callback)
    {
      StepKeepsInv(Cfg(), protocol, Callback);
      waitList := {};
      protocol := Next(Cfg(), protocol, Callback);
    }
  }
}
