/** How the multi-GPU limiter spreads requests, and how many slots it grants in total. */
module GpuDistribution {
  import opened SlotProtocol
  import opened GpuLimiter

  /* Ring arithmetic */

  lemma Remainder(k: nat, n: int, q: int, m: int)
    requires n > 0 && k == q * n + m && 0 <= m < n
    ensures k % n == m
  {
    var d := k / n - q;
    assert d * n == m - k % n;
    assert d >= 1 ==> d * n >= n;
    assert d <= -1 ==> d * n <= -n;
  }

  lemma {:induction false} RingIsMod(k: nat, n: int)
    requires n > 0
    ensures Ring(k, n) == k % n
  {
    if k >= n {
      RingIsMod(k - n, n);
      var q, m := (k - n) / n, (k - n) % n;
      assert k == (q + 1) * n + m;
      Remainder(k, n, q + 1, m);
    } else {
      Remainder(k, n, 0, k);
    }
  }

  /** `CeilDiv(c, n)` shares of size `n` hold `c`, with less than one share to spare. */
  lemma {:induction false} CeilDivBounds(c: int, n: int)
    requires n > 0 && c >= 0
    ensures c <= n * CeilDiv(c, n) < c + n
    decreases c
  {
    if c > 0 {
      if c <= n {
        assert CeilDiv(c - n, n) == 0;
      } else {
        CeilDivBounds(c - n, n);
      }
      assert n * CeilDiv(c, n) == n + n * CeilDiv(c - n, n);
    }
  }

  /** Nothing is to spare exactly when `n` divides `c`. */
  lemma {:induction false} CeilDivExact(c: int, n: int)
    requires n > 0 && c >= 0
    ensures n * CeilDiv(c, n) == c <==> c % n == 0
    decreases c
  {
    RingIsMod(c, n);
    if c > n {
      CeilDivExact(c - n, n);
      RingIsMod(c - n, n);
      OneShareMore(c, n);
    } else if c > 0 {
      assert CeilDiv(c - n, n) == 0 && CeilDiv(c, n) == 1;
      assert c == n ==> Ring(c, n) == Ring(0, n) == 0;
    }
  }

  lemma OneShareMore(c: int, n: int)
    requires n > 0 && c > n
    ensures n * CeilDiv(c, n) == n + n * CeilDiv(c - n, n)
  {
  }

  /* Round robin */

  ghost predicate OrderOk(cfg: FleetConfig, f: Fleet) {
    && (cfg.gpuCount > 1 ==> f.rr == |f.order|)
    && (forall r {:trigger f.calls[r]} :: r in f.calls ==>
          if cfg.gpuCount == 1 then r in f.order else f.calls[r].start < |f.order| && f.order[f.calls[r].start] == r)
  }

  lemma {:induction false} OrderStaysOk(cfg: FleetConfig, es: seq<FleetEvent>)
    requires cfg.Valid() && FleetLegal(cfg, es)
    ensures OrderOk(cfg, FleetRun(cfg, es))
    decreases |es|
  {
    if es != [] {
      OrderStaysOk(cfg, es[..|es| - 1]);
      var f, f' := FleetRun(cfg, es[..|es| - 1]), FleetRun(cfg, es);
      assert forall k :: 0 <= k < |f.order| ==> f'.order[k] == f.order[k];
    }
  }

  /** Whoever got a slot on GPU `g` is the k-th caller for some k with `k % gpuCount == g`: the walk
      around the ring never hands out a slot on any but the first GPU tried. */
  lemma SlotsFollowRoundRobin(cfg: FleetConfig, es: seq<FleetEvent>, g: nat, v: Visit) returns (k: nat)
    requires cfg.Valid() && FleetLegal(cfg, es) && g < cfg.gpuCount
    requires Is(FleetRun(cfg, es).gpus[g], v, Holding) || Is(FleetRun(cfg, es).gpus[g], v, Served)
    ensures k < |FleetRun(cfg, es).order| && FleetRun(cfg, es).order[k] == v.request && g == k % cfg.gpuCount
  {
    OrderStaysOk(cfg, es);
    var f := FleetRun(cfg, es);
    assert VisitOk(cfg, f.calls, g, f.gpus[g], v) by {
      VisitsStayOk(cfg, es);
      assert GpuOk(cfg, f.calls, g, f.gpus[g]);
    }
    if cfg.gpuCount == 1 {
      k :| 0 <= k < |f.order| && f.order[k] == v.request;
      Remainder(k, 1, k, 0);
    } else {
      k := f.calls[v.request].start;
      assert v.attempt == 0;
      RingIsMod(k, cfg.gpuCount);
    }
  }

  /** Calls among the first `m` whose first choice is GPU `g`. */
  function FirstChoices(m: nat, n: int, g: nat): nat
    requires n > 0
  {
    if m == 0 then 0 else FirstChoices(m - 1, n, g) + if Ring(m - 1, n) == g then 1 else 0
  }

  lemma {:induction false} FirstRound(m: nat, n: int, g: nat)
    requires m <= n && 0 < n && g < n
    ensures FirstChoices(m, n, g) == if g < m then 1 else 0
  {
    if m > 0 { FirstRound(m - 1, n, g); }
  }

  lemma {:induction false} EveryRoundAddsOne(m: nat, n: int, g: nat)
    requires 0 < n <= m && g < n
    ensures FirstChoices(m, n, g) == 1 + FirstChoices(m - n, n, g)
    decreases m
  {
    if m == n {
      FirstRound(n, n, g);
    } else {
      EveryRoundAddsOne(m - 1, n, g);
    }
  }

  /** After any number of calls, two GPUs' shares of first choices differ by at most one. */
  lemma {:induction false} FirstChoicesAreBalanced(m: nat, n: int, g: nat, h: nat)
    requires 0 < n && g < n && h < n
    ensures FirstChoices(m, n, g) <= FirstChoices(m, n, h) + 1
    decreases m
  {
    if m < n {
      FirstRound(m, n, g);
      FirstRound(m, n, h);
    } else {
      EveryRoundAddsOne(m, n, g);
      EveryRoundAddsOne(m, n, h);
      FirstChoicesAreBalanced(m - n, n, g, h);
    }
  }

  /** The requests whose ticket names GPU `g`. */
  function Choosers(cfg: FleetConfig, calls: map<nat, Call>, g: nat): set<nat>
    requires cfg.gpuCount > 0
  {
    set r | r in calls && Ring(calls[r].start, cfg.gpuCount) == g
  }

  lemma OneMoreChooser(cfg: FleetConfig, calls: map<nat, Call>, r: nat, c: Call, g: nat)
    requires cfg.gpuCount > 0 && r !in calls
    ensures |Choosers(cfg, calls[r := c], g)|
            == |Choosers(cfg, calls, g)| + if Ring(c.start, cfg.gpuCount) == g then 1 else 0
  {
    var was, now := Choosers(cfg, calls, g), Choosers(cfg, calls[r := c], g);
    assert now == if Ring(c.start, cfg.gpuCount) == g then was + {r} else was;
  }

  /** Starting over on the next GPU does not change a request's ticket. */
  lemma SameChoosers(cfg: FleetConfig, f: Fleet, e: FleetEvent, g: nat)
    requires Wf(cfg, f.gpus) && FleetEnabled(cfg, f, e) && !e.Begin?
    ensures Choosers(cfg, FleetNext(cfg, f, e).calls, g) == Choosers(cfg, f.calls, g)
    ensures FleetNext(cfg, f, e).order == f.order
  {
  }

  lemma StepCountsChoosers(cfg: FleetConfig, f: Fleet, e: FleetEvent, g: nat)
    requires cfg.gpuCount > 1 && Wf(cfg, f.gpus) && FleetEnabled(cfg, f, e) && OrderOk(cfg, f)
    requires |Choosers(cfg, f.calls, g)| == FirstChoices(|f.order|, cfg.gpuCount, g)
    ensures var f' := FleetNext(cfg, f, e);
            |Choosers(cfg, f'.calls, g)| == FirstChoices(|f'.order|, cfg.gpuCount, g)
  {
    if e.Begin? {
      OneMoreChooser(cfg, f.calls, e.r, FirstCall(cfg, f), g);
    } else {
      SameChoosers(cfg, f, e, g);
    }
  }

  lemma {:induction false} ChoosersAreCounted(cfg: FleetConfig, es: seq<FleetEvent>, g: nat)
    requires cfg.Valid() && cfg.gpuCount > 1 && FleetLegal(cfg, es)
    ensures |Choosers(cfg, FleetRun(cfg, es).calls, g)| == FirstChoices(|FleetRun(cfg, es).order|, cfg.gpuCount, g)
    decreases |es|
  {
    if es == [] {
      assert Choosers(cfg, FleetInit(cfg).calls, g) == {};
    } else {
      var front := es[..|es| - 1];
      ChoosersAreCounted(cfg, front, g);
      OrderStaysOk(cfg, front);
      StepCountsChoosers(cfg, FleetRun(cfg, front), es[|es| - 1], g);
    }
  }

  /** In every reachable fleet the numbers of requests that chose two GPUs first differ by at most
      one. */
  lemma FirstCallsAreBalanced(cfg: FleetConfig, es: seq<FleetEvent>, g: nat, h: nat)
    requires cfg.Valid() && cfg.gpuCount > 1 && FleetLegal(cfg, es) && g < cfg.gpuCount && h < cfg.gpuCount
    ensures |Choosers(cfg, FleetRun(cfg, es).calls, g)| <= |Choosers(cfg, FleetRun(cfg, es).calls, h)| + 1
  {
    ChoosersAreCounted(cfg, es, g);
    ChoosersAreCounted(cfg, es, h);
    FirstChoicesAreBalanced(|FleetRun(cfg, es).order|, cfg.gpuCount, g, h);
  }

  /* The total */

  function Total(gpus: seq<State>): int {
    if gpus == [] then 0 else Total(gpus[..|gpus| - 1]) + gpus[|gpus| - 1].inFlight
  }

  lemma {:induction false} TotalAtMost(gpus: seq<State>, each: int)
    requires forall g :: 0 <= g < |gpus| ==> gpus[g].inFlight <= each
    ensures Total(gpus) <= |gpus| * each
  {
    if gpus != [] {
      TotalAtMost(gpus[..|gpus| - 1], each);
      assert |gpus| * each == (|gpus| - 1) * each + each;
    }
  }

  lemma {:induction false} TotalExactly(gpus: seq<State>, each: int)
    requires forall g :: 0 <= g < |gpus| ==> gpus[g].inFlight == each
    ensures Total(gpus) == |gpus| * each
  {
    if gpus != [] {
      TotalExactly(gpus[..|gpus| - 1], each);
      assert |gpus| * each == (|gpus| - 1) * each + each;
    }
  }

  /** Each GPU stays within its share, so the total stays below ceiling + gpuCount, and within the
      ceiling when gpuCount divides it. */
  lemma TotalIsBounded(cfg: FleetConfig, es: seq<FleetEvent>)
    requires cfg.Valid() && FleetLegal(cfg, es)
    ensures forall g :: 0 <= g < cfg.gpuCount ==>
              0 <= FleetRun(cfg, es).gpus[g].inFlight <= CeilDiv(cfg.ceiling, cfg.gpuCount)
    ensures Total(FleetRun(cfg, es).gpus) < cfg.ceiling + cfg.gpuCount
    ensures cfg.ceiling % cfg.gpuCount == 0 ==> Total(FleetRun(cfg, es).gpus) <= cfg.ceiling
  {
    var gpus := FleetRun(cfg, es).gpus;
    var each := CeilDiv(cfg.ceiling, cfg.gpuCount);
    forall g | 0 <= g < |gpus|
      ensures 0 <= gpus[g].inFlight <= each
    {
      FleetSafety(cfg, es);
      assert GpuSafe(cfg, gpus[g]);
    }
    TotalAtMost(gpus, each);
    CeilDivBounds(cfg.ceiling, cfg.gpuCount);
    CeilDivExact(cfg.ceiling, cfg.gpuCount);
  }

  /* The bound is reached */

  lemma FleetExtend(cfg: FleetConfig, es: seq<FleetEvent>, e: FleetEvent)
    requires cfg.Valid() && FleetLegal(cfg, es) && FleetEnabled(cfg, FleetRun(cfg, es), e)
    ensures FleetLegal(cfg, es + [e]) && FleetRun(cfg, es + [e]) == FleetNext(cfg, FleetRun(cfg, es), e)
  {
    assert (es + [e])[..|es|] == es;
  }

  /** The first `t` requests hold their slots and nothing else has happened. */
  ghost predicate Filled(cfg: FleetConfig, f: Fleet, t: nat) {
    && Wf(cfg, f.gpus) && f.rr == t && f.done == {}
    && (forall r :: r in f.calls ==> r < t)
    && (forall g {:trigger FilledGpu(cfg, f.gpus[g], t, g)} :: 0 <= g < |f.gpus| ==> FilledGpu(cfg, f.gpus[g], t, g))
  }

  ghost predicate FilledGpu(cfg: FleetConfig, s: State, t: nat, g: nat)
    requires cfg.Valid()
  {
    s.inFlight == FirstChoices(t, cfg.gpuCount, g) && s.cancelled == {}
  }

  lemma {:induction false} RoomForNext(t: nat, n: int, q: int)
    requires 0 < n && t < n * q
    ensures FirstChoices(t, n, Ring(t, n)) < q
    decreases t
  {
    assert q > 0;
    if t < n {
      FirstRound(t, n, t);
    } else {
      assert n * q == n * (q - 1) + n;
      RoomForNext(t - n, n, q - 1);
      EveryRoundAddsOne(t, n, Ring(t, n));
    }
  }

  /** A GPU with room grants its share to a newcomer when its probe is unavailable. */
  lemma NewcomerGetsSlot(cfg: FleetConfig, s: State, v: Visit)
    requires cfg.Valid() && s.cancelled == {} && s.inFlight < CeilDiv(cfg.ceiling, cfg.gpuCount)
    ensures var s1 := Enter(s, v, false);
            && Enabled(s1, Pass(v, 0))
            && Next(cfg.PerGpu(), s1, Pass(v, 0)).inFlight == s.inFlight + 1
            && Next(cfg.PerGpu(), s1, Pass(v, 0)).cancelled == {}
  {
  }

  /** The fleet after the next request has begun and got its slot. */
  function Filled1(cfg: FleetConfig, f: Fleet, t: nat): Fleet
    requires cfg.gpuCount > 1 && |f.gpus| == cfg.gpuCount
  {
    var g := Ring(t, cfg.gpuCount);
    Fleet(f.gpus[g := NextPass(cfg.PerGpu(), Enter(f.gpus[g], Visit(t, 0), false), Visit(t, 0), 0)],
          t + 1, f.order + [t], f.calls[t := Call(t, 0)], f.failed, f.done)
  }

  lemma FilledOneMore(cfg: FleetConfig, f: Fleet, t: nat)
    requires cfg.gpuCount > 1 && Filled(cfg, f, t) && t < cfg.gpuCount * CeilDiv(cfg.ceiling, cfg.gpuCount)
    ensures Filled(cfg, Filled1(cfg, f, t), t + 1)
  {
    var g := Ring(t, cfg.gpuCount);
    RoomForNext(t, cfg.gpuCount, CeilDiv(cfg.ceiling, cfg.gpuCount));
    var f' := Filled1(cfg, f, t);
    forall h | 0 <= h < |f'.gpus|
      ensures FilledGpu(cfg, f'.gpus[h], t + 1, h)
    {
      assert FilledGpu(cfg, f.gpus[h], t, h);
      if h == g { NewcomerGetsSlot(cfg, f.gpus[g], Visit(t, 0)); }
    }
  }

  /** Beginning, and then the pass that gets a slot. */
  lemma BeginAndPass(cfg: FleetConfig, f: Fleet, t: nat)
    requires cfg.Valid() && cfg.gpuCount > 1 && Filled(cfg, f, t)
    ensures FleetEnabled(cfg, f, Begin(t))
    ensures var f1, pass := FleetNext(cfg, f, Begin(t)), At(Ring(t, cfg.gpuCount), Pass(Visit(t, 0), 0));
            Wf(cfg, f1.gpus) && FleetEnabled(cfg, f1, pass) && FleetNext(cfg, f1, pass) == Filled1(cfg, f, t)
  {
    var g := Ring(t, cfg.gpuCount);
    assert FleetNext(cfg, f, Begin(t)).gpus == f.gpus[g := Enter(f.gpus[g], Visit(t, 0), false)];
  }

  lemma FillOne(cfg: FleetConfig, front: seq<FleetEvent>, t: nat) returns (es: seq<FleetEvent>)
    requires cfg.Valid() && cfg.gpuCount > 1 && FleetLegal(cfg, front) && Filled(cfg, FleetRun(cfg, front), t)
    ensures FleetLegal(cfg, es) && FleetRun(cfg, es) == Filled1(cfg, FleetRun(cfg, front), t)
  {
    var pass := At(Ring(t, cfg.gpuCount), Pass(Visit(t, 0), 0));
    BeginAndPass(cfg, FleetRun(cfg, front), t);
    FleetExtend(cfg, front, Begin(t));
    FleetExtend(cfg, front + [Begin(t)], pass);
    es := front + [Begin(t)] + [pass];
  }

  lemma {:induction false} FillFleet(cfg: FleetConfig, t: nat) returns (es: seq<FleetEvent>)
    requires cfg.Valid() && cfg.gpuCount > 1 && t <= cfg.gpuCount * CeilDiv(cfg.ceiling, cfg.gpuCount)
    ensures FleetLegal(cfg, es) && Filled(cfg, FleetRun(cfg, es), t)
  {
    if t == 0 {
      es := [];
    } else {
      var front := FillFleet(cfg, t - 1);
      FilledOneMore(cfg, FleetRun(cfg, front), t - 1);
      es := FillOne(cfg, front, t - 1);
    }
  }

  lemma {:induction false} FullRounds(q: nat, n: int, g: nat)
    requires 0 < n && g < n
    ensures n * q >= 0 && FirstChoices(n * q, n, g) == q
    decreases q
  {
    if q > 0 {
      assert n * q == n * (q - 1) + n;
      FullRounds(q - 1, n, g);
      EveryRoundAddsOne(n * q, n, g);
    }
  }

  /** Whenever gpuCount does not divide the ceiling there is a run in which more than `ceiling` slots
      are held at once; with TotalIsBounded, the total is capped at the ceiling if and only if
      gpuCount divides it. */
  lemma CeilingIsExceededUnlessDivisible(cfg: FleetConfig) returns (es: seq<FleetEvent>)
    requires cfg.Valid() && cfg.ceiling % cfg.gpuCount != 0
    ensures FleetLegal(cfg, es) && Total(FleetRun(cfg, es).gpus) > cfg.ceiling
  {
    var n := cfg.gpuCount;
    var q := CeilDiv(cfg.ceiling, n);
    CeilDivBounds(cfg.ceiling, n);
    CeilDivExact(cfg.ceiling, n);
    assert n > 1;
    es := FillFleet(cfg, n * q);
    var gpus := FleetRun(cfg, es).gpus;
    forall g | 0 <= g < n
      ensures gpus[g].inFlight == q
    {
      assert FilledGpu(cfg, gpus[g], n * q, g);
      FullRounds(q, n, g);
    }
    TotalExactly(gpus, q);
  }

  /** A full GPU does not pass a request on: in every reachable fleet, a caller whose first choice is
      full parks there, and no other GPU, however idle, is touched. */
  lemma FullGpuDoesNotFallThrough(cfg: FleetConfig, front: seq<FleetEvent>, r: nat, free: int)
    returns (es: seq<FleetEvent>)
    requires cfg.Valid() && cfg.gpuCount > 1 && FleetLegal(cfg, front)
    requires r !in FleetRun(cfg, front).calls && r !in FleetRun(cfg, front).done
    requires var f := FleetRun(cfg, front);
             f.gpus[Ring(f.rr, cfg.gpuCount)].inFlight >= Effective(cfg.PerGpu(), free)
    ensures FleetLegal(cfg, es) && |es| == |front| + 2 && front <= es
    ensures var f, f' := FleetRun(cfg, front), FleetRun(cfg, es);
            var g := Ring(f.rr, cfg.gpuCount);
            && Is(f'.gpus[g], Visit(r, 0), Parked)
            && forall h :: 0 <= h < cfg.gpuCount && h != g ==> f'.gpus[h] == f.gpus[h]
  {
    var f := FleetRun(cfg, front);
    var g := Ring(f.rr, cfg.gpuCount);
    assert Visit(r, 0) !in f.gpus[g].cancelled by {
      VisitsStayOk(cfg, front);
      Fresh(cfg, f.calls, f.gpus, Visit(r, 0), g);
    }
    FleetExtend(cfg, front, Begin(r));
    var mid := front + [Begin(r)];
    FleetExtend(cfg, mid, At(g, Pass(Visit(r, 0), free)));
    es := mid + [At(g, Pass(Visit(r, 0), free))];
  }
}
