/**
 The rolling 24h spend guard: a window of recorded costs that every operation evicts physically.
 Times are nanoseconds; an operation carries the clock readings it makes. Amounts are `real`.
 */
module BudgetGuard {

  const WINDOW: int := 24 * 3600 * 1_000_000_000

  datatype Entry = Entry(at: int, cost: real, source: string)

  datatype Snapshot = Snapshot(spent: real, limit: real, remaining: real, exhausted: bool, nextReset: int)

  /** The guard's fields. */
  datatype Guard = Guard(limit: real, window: seq<Entry>, approachingSent: bool)

  datatype Op =
    | Check(cost: real)
    | WouldExceed(cost: real)
    | Remaining
    | State
    | CheckApproaching
    | Record(cost: real, source: string)
    | SetLimit(limit: real)

  /** An operation with its first clock reading (eviction) and its second one, if it makes two. */
  datatype Timed = Timed(op: Op, t: int, t2: int)

  datatype Result = Verdict(b: bool) | Amount(x: real) | Snap(s: Snapshot) | Done

  function Sum(w: seq<Entry>): real {
    if w == [] then 0.0 else Sum(w[..|w| - 1]) + w[|w| - 1].cost
  }

  /** The entries recorded at or after `cutoff`, in order. */
  function Since(w: seq<Entry>, cutoff: int): seq<Entry> {
    if w == [] then []
    else if w[|w| - 1].at >= cutoff then Since(w[..|w| - 1], cutoff) + [w[|w| - 1]]
    else Since(w[..|w| - 1], cutoff)
  }

  function Evict(g: Guard, now: int): Guard { g.(window := Since(g.window, now - WINDOW)) }

  function NormalLimit(limit: real): real { if limit <= 0.0 then 0.0 else limit }

  function CopyState(g: Guard, now: int): Snapshot {
    var spent := Sum(g.window);
    Snapshot(spent, g.limit, g.limit - spent, g.limit > 0.0 && spent >= g.limit,
             if |g.window| > 0 then g.window[0].at + WINDOW else now + WINDOW)
  }

  predicate Over(g: Guard, cost: real) { g.limit > 0.0 && Sum(g.window) + cost > g.limit }

  /** Spend is at or above 80% of the limit. */
  predicate High(g: Guard) { Sum(g.window) >= g.limit * 0.8 }

  /** The guard's state after an operation, and the operation's answer. */
  function Exec(g: Guard, o: Timed): (Guard, Result) {
    var e := Evict(g, o.t);
    match o.op
    case Check(cost) => (e, Verdict(Over(e, cost)))
    case WouldExceed(cost) => (e, Verdict(Over(e, cost)))
    case Remaining => (e, Amount(if e.limit - Sum(e.window) < 0.0 then 0.0 else e.limit - Sum(e.window)))
    case State => (e, Snap(CopyState(e, o.t2)))
    case CheckApproaching =>
      if e.limit <= 0.0 then (e, Verdict(false))
      else (e.(approachingSent := High(e)), Verdict(High(e) && !e.approachingSent))
    case Record(cost, source) =>
      if cost <= 0.0 || g.limit <= 0.0 then (g, Done)
      else (e.(window := e.window + [Entry(o.t2, cost, source)]), Done)
    case SetLimit(limit) => (g.(limit := NormalLimit(limit), approachingSent := false), Done)
  }

  function Final(g: Guard, ops: seq<Timed>): Guard {
    if ops == [] then g else Exec(Final(g, ops[..|ops| - 1]), ops[|ops| - 1]).0
  }

  function Clock(start: int, ops: seq<Timed>): int { if ops == [] then start else ops[|ops| - 1].t2 }

  /** The clock never runs backwards from `start` on. */
  ghost predicate ClockOk(start: int, ops: seq<Timed>)
    decreases |ops|
  {
    ops == []
    || (ClockOk(start, ops[..|ops| - 1])
        && Clock(start, ops[..|ops| - 1]) <= ops[|ops| - 1].t <= ops[|ops| - 1].t2)
  }

  /* Eviction */

  ghost predicate Sorted(w: seq<Entry>) { forall i, j :: 0 <= i < j < |w| ==> w[i].at <= w[j].at }

  lemma {:induction false} SinceKeepsOrder(w: seq<Entry>, cutoff: int)
    ensures forall e :: e in Since(w, cutoff) <==> e in w && e.at >= cutoff
    ensures Sorted(w) ==> Sorted(Since(w, cutoff))
  {
    if w != [] {
      SinceKeepsOrder(w[..|w| - 1], cutoff);
      assert w == w[..|w| - 1] + [w[|w| - 1]];
    }
  }

  lemma {:induction false} SinceAll(w: seq<Entry>, cutoff: int)
    requires forall e :: e in w ==> e.at >= cutoff
    ensures Since(w, cutoff) == w
  {
    if w != [] {
      assert w == w[..|w| - 1] + [w[|w| - 1]];
      SinceAll(w[..|w| - 1], cutoff);
    }
  }

  lemma {:induction false} SinceNone(w: seq<Entry>, cutoff: int)
    requires forall e :: e in w ==> e.at < cutoff
    ensures Since(w, cutoff) == []
  {
    if w != [] {
      SinceNone(w[..|w| - 1], cutoff);
    }
  }

  /** In a sorted window the entries to keep are a suffix. */
  lemma SinceIsSuffix(w: seq<Entry>, cutoff: int, k: nat)
    requires k <= |w|
    requires forall i :: 0 <= i < k ==> w[i].at < cutoff
    requires forall i :: k <= i < |w| ==> w[i].at >= cutoff
    ensures Since(w, cutoff) == w[k..]
  {
    SinceNone(w[..k], cutoff);
    SinceAll(w[k..], cutoff);
    SinceConcat(w[..k], w[k..], cutoff);
    assert w == w[..k] + w[k..];
  }

  lemma {:induction false} SinceConcat(a: seq<Entry>, b: seq<Entry>, cutoff: int)
    ensures Since(a + b, cutoff) == Since(a, cutoff) + Since(b, cutoff)
  {
    if b == [] {
      assert a + b == a;
    } else {
      SinceConcat(a, b[..|b| - 1], cutoff);
      assert (a + b)[..|a + b| - 1] == a + b[..|b| - 1];
    }
  }

  /** Evicting at an earlier cutoff first makes no difference. */
  lemma {:induction false} SinceTwice(w: seq<Entry>, early: int, late: int)
    requires early <= late
    ensures Since(Since(w, early), late) == Since(w, late)
  {
    if w != [] {
      var front, last := w[..|w| - 1], w[|w| - 1];
      SinceTwice(front, early, late);
      if last.at >= early {
        SinceConcat(Since(front, early), [last], late);
        assert [last][..0] == [];
      }
    }
  }

  /* Queries are observationally pure */

  predicate Query(op: Op) { op.Check? || op.WouldExceed? || op.Remaining? || op.State? }

  /** Indistinguishable by any operation at or after `now`. */
  ghost predicate Alike(g: Guard, h: Guard, now: int) {
    && g.limit == h.limit && g.approachingSent == h.approachingSent
    && Since(g.window, now - WINDOW) == Since(h.window, now - WINDOW)
  }

  lemma AlikeLater(g: Guard, h: Guard, now: int, later: int)
    requires Alike(g, h, now) && now <= later
    ensures Alike(g, h, later) && Evict(g, later) == Evict(h, later)
  {
    SinceTwice(g.window, now - WINDOW, later - WINDOW);
    SinceTwice(h.window, now - WINDOW, later - WINDOW);
  }

  lemma AlikeAnswersAlike(g: Guard, h: Guard, now: int, o: Timed)
    requires Alike(g, h, now) && now <= o.t <= o.t2
    ensures Exec(g, o).1 == Exec(h, o).1
    ensures Alike(Exec(g, o).0, Exec(h, o).0, o.t2)
  {
    AlikeLater(g, h, now, o.t);
    AlikeLater(g, h, now, o.t2);
  }

  lemma QueryChangesNothing(g: Guard, h: Guard, now: int, o: Timed)
    requires Alike(g, h, now) && now <= o.t <= o.t2 && Query(o.op)
    ensures Alike(Exec(g, o).0, h, o.t2)
  {
    AlikeLater(g, h, now, o.t2);
    SinceTwice(g.window, o.t - WINDOW, o.t2 - WINDOW);
  }

  /** A run in which some operations are marked as inserted. */
  datatype Step = Step(o: Timed, inserted: bool)

  /** The answers of the operations that were not inserted. */
  function Answers(g: Guard, steps: seq<Step>): seq<Result>
    decreases |steps|
  {
    if steps == [] then []
    else
      var (g', r) := Exec(g, steps[0].o);
      if steps[0].inserted then Answers(g', steps[1..]) else [r] + Answers(g', steps[1..])
  }

  function Original(steps: seq<Step>): seq<Step> {
    if steps == [] then []
    else if steps[0].inserted then Original(steps[1..]) else [steps[0]] + Original(steps[1..])
  }

  ghost predicate StepsOk(now: int, steps: seq<Step>)
    decreases |steps|
  {
    steps == []
    || (now <= steps[0].o.t <= steps[0].o.t2
        && (steps[0].inserted ==> Query(steps[0].o.op))
        && StepsOk(steps[0].o.t2, steps[1..]))
  }

  lemma {:induction false} AlikeRunsAnswerAlike(g: Guard, h: Guard, now: int, steps: seq<Step>)
    requires StepsOk(now, steps) && Alike(g, h, now)
    ensures Answers(g, steps) == Answers(h, Original(steps))
    decreases |steps|
  {
    if steps != [] {
      var o := steps[0].o;
      if steps[0].inserted {
        QueryChangesNothing(g, h, now, o);
        AlikeRunsAnswerAlike(Exec(g, o).0, h, o.t2, steps[1..]);
      } else {
        AlikeAnswersAlike(g, h, now, o);
        AlikeRunsAnswerAlike(Exec(g, o).0, Exec(h, o).0, o.t2, steps[1..]);
        assert Original(steps)[1..] == Original(steps[1..]);
      }
    }
  }

  /** Inserting any number of Check, WouldExceed, State and Remaining calls anywhere in a run never
      changes the answer of any other call, although each of them evicts entries. */
  lemma QueriesAreObservationallyPure(g: Guard, now: int, steps: seq<Step>)
    requires StepsOk(now, steps)
    ensures Answers(g, steps) == Answers(g, Original(steps))
  {
    AlikeRunsAnswerAlike(g, g, now, steps);
  }

  /* Spent is the exact sum of the last 24 hours */

  /** The limit in force after `ops`. */
  function LimitAfter(limit: real, ops: seq<Timed>): real {
    if ops == [] then limit
    else if ops[|ops| - 1].op.SetLimit? then NormalLimit(ops[|ops| - 1].op.limit)
    else LimitAfter(limit, ops[..|ops| - 1])
  }

  /** What an operation adds to the record while `limit` is in force. */
  function Logged(limit: real, o: Timed): seq<Entry> {
    if o.op.Record? && o.op.cost > 0.0 && limit > 0.0 then [Entry(o.t2, o.op.cost, o.op.source)] else []
  }

  /** Everything ever recorded; nothing is evicted here. */
  function Recorded(limit: real, ops: seq<Timed>): seq<Entry> {
    if ops == [] then []
    else Recorded(limit, ops[..|ops| - 1]) + Logged(LimitAfter(limit, ops[..|ops| - 1]), ops[|ops| - 1])
  }

  function New(limit: real): Guard { Guard(NormalLimit(limit), [], false) }

  lemma {:induction false} LimitIsTracked(limit: real, ops: seq<Timed>)
    ensures Final(New(limit), ops).limit == LimitAfter(NormalLimit(limit), ops)
  {
    if ops != [] {
      LimitIsTracked(limit, ops[..|ops| - 1]);
    }
  }

  /** Sorted, and nothing recorded after `clock`. */
  ghost predicate WindowOk(w: seq<Entry>, clock: int) {
    Sorted(w) && (forall e :: e in w ==> e.at <= clock && e.cost > 0.0)
  }

  /** An operation leaves the window alone, or evicts and then appends. */
  lemma ExecWindow(g: Guard, o: Timed)
    ensures Exec(g, o).0.window == Since(g.window, o.t - WINDOW) + Logged(g.limit, o)
            || (Exec(g, o).0.window == g.window && Logged(g.limit, o) == [])
  {
    assert Since(g.window, o.t - WINDOW) + [] == Since(g.window, o.t - WINDOW);
  }

  lemma ExecKeepsWindowOk(g: Guard, o: Timed, clock: int)
    requires WindowOk(g.window, clock) && clock <= o.t <= o.t2
    ensures WindowOk(Exec(g, o).0.window, o.t2)
  {
    ExecWindow(g, o);
    SinceKeepsOrder(g.window, o.t - WINDOW);
    AppendKeepsWindowOk(Since(g.window, o.t - WINDOW), Logged(g.limit, o), clock, o.t2);
  }

  lemma AppendKeepsWindowOk(w: seq<Entry>, more: seq<Entry>, clock: int, now: int)
    requires WindowOk(w, clock) && clock <= now
    requires |more| <= 1 && (more != [] ==> more[0].at == now && more[0].cost > 0.0)
    ensures WindowOk(w + more, now)
  {
    assert forall i :: 0 <= i < |w| ==> w[i] in w;
  }

  /** The window stays sorted through every run, so that the binary search for the first entry to
      keep is meaningful. */
  lemma {:induction false} WindowStaysSorted(limit: real, start: int, ops: seq<Timed>)
    requires ClockOk(start, ops)
    ensures WindowOk(Final(New(limit), ops).window, Clock(start, ops))
    decreases |ops|
  {
    if ops != [] {
      var front := ops[..|ops| - 1];
      WindowStaysSorted(limit, start, front);
      ExecKeepsWindowOk(Final(New(limit), front), ops[|ops| - 1], Clock(start, front));
    }
  }

  /** One operation keeps the window in step with the unevicted record `all`. */
  lemma ExecKeepsExact(g: Guard, all: seq<Entry>, o: Timed, now: int)
    requires o.t <= now && Since(g.window, now - WINDOW) == Since(all, now - WINDOW)
    ensures Since(Exec(g, o).0.window, now - WINDOW) == Since(all + Logged(g.limit, o), now - WINDOW)
  {
    ExecWindow(g, o);
    SinceTwice(g.window, o.t - WINDOW, now - WINDOW);
    SinceConcat(Since(g.window, o.t - WINDOW), Logged(g.limit, o), now - WINDOW);
    SinceConcat(all, Logged(g.limit, o), now - WINDOW);
    assert Since(all, now - WINDOW) + [] == Since(all, now - WINDOW);
  }

  /** Through every run the window, seen at any later time, is the exact rolling window of everything
      recorded. */
  lemma {:induction false} WindowIsExact(limit: real, start: int, ops: seq<Timed>, now: int)
    requires ClockOk(start, ops) && Clock(start, ops) <= now
    ensures Since(Final(New(limit), ops).window, now - WINDOW) == Since(Recorded(NormalLimit(limit), ops), now - WINDOW)
    decreases |ops|
  {
    if ops != [] {
      var front := ops[..|ops| - 1];
      WindowIsExact(limit, start, front, now);
      LimitIsTracked(limit, front);
      ExecKeepsExact(Final(New(limit), front), Recorded(NormalLimit(limit), front), ops[|ops| - 1], now);
    }
  }

  /** What was spent in the 24 hours up to `now`, from the full record. */
  function SpentBy(limit: real, ops: seq<Timed>, now: int): real {
    Sum(Since(Recorded(NormalLimit(limit), ops), now - WINDOW))
  }

  /** A snapshot and a verdict, over values. */
  lemma SnapshotBySum(g: Guard, t: int, t2: int, spent: real)
    requires Sum(Since(g.window, t - WINDOW)) == spent
    ensures var answer := Exec(g, Timed(State, t, t2)).1;
            && answer.Snap?
            && answer.s.spent == spent && answer.s.limit == g.limit && answer.s.remaining == g.limit - spent
            && (answer.s.exhausted <==> g.limit > 0.0 && spent >= g.limit)
  {
  }

  lemma VerdictBySum(g: Guard, q: Timed, spent: real)
    requires Sum(Since(g.window, q.t - WINDOW)) == spent && (q.op.Check? || q.op.WouldExceed?)
    ensures Exec(g, q).1 == Verdict(g.limit > 0.0 && spent + q.op.cost > g.limit)
  {
  }

  lemma SpentIsExact(limit: real, start: int, ops: seq<Timed>, t: int)
    requires ClockOk(start, ops) && Clock(start, ops) <= t
    ensures Sum(Since(Final(New(limit), ops).window, t - WINDOW)) == SpentBy(limit, ops, t)
  {
    WindowIsExact(limit, start, ops, t);
  }

  /** After any run, a snapshot reports the exact sum of the last 24 hours against the limit in
      force. */
  lemma SnapshotIsExact(limit: real, start: int, ops: seq<Timed>, t: int, t2: int)
    requires ClockOk(start, ops) && Clock(start, ops) <= t <= t2
    ensures var answer := Exec(Final(New(limit), ops), Timed(State, t, t2)).1;
            && answer.Snap?
            && answer.s.spent == SpentBy(limit, ops, t)
            && answer.s.limit == LimitAfter(NormalLimit(limit), ops)
            && answer.s.remaining == answer.s.limit - SpentBy(limit, ops, t)
            && (answer.s.exhausted <==> answer.s.limit > 0.0 && SpentBy(limit, ops, t) >= answer.s.limit)
  {
    SpentIsExact(limit, start, ops, t);
    LimitIsTracked(limit, ops);
    SnapshotBySum(Final(New(limit), ops), t, t2, SpentBy(limit, ops, t));
  }

  /** After any run, Check and WouldExceed reject exactly the costs that, on top of the last 24
      hours, exceed a positive limit. */
  lemma VerdictIsExact(limit: real, start: int, ops: seq<Timed>, q: Timed)
    requires ClockOk(start, ops) && Clock(start, ops) <= q.t <= q.t2 && (q.op.Check? || q.op.WouldExceed?)
    ensures var inForce := LimitAfter(NormalLimit(limit), ops);
            Exec(Final(New(limit), ops), q).1
            == Verdict(inForce > 0.0 && SpentBy(limit, ops, q.t) + q.op.cost > inForce)
  {
    SpentIsExact(limit, start, ops, q.t);
    LimitIsTracked(limit, ops);
    VerdictBySum(Final(New(limit), ops), q, SpentBy(limit, ops, q.t));
  }

  /** After any run, a snapshot announces the reset 24 hours after the oldest payment of the last 24 hours,
      or, when there is none, 24 hours after the present. */
  lemma NextResetIsExact(limit: real, start: int, ops: seq<Timed>, t: int, t2: int)
    requires ClockOk(start, ops) && Clock(start, ops) <= t <= t2
    ensures var answer := Exec(Final(New(limit), ops), Timed(State, t, t2)).1;
            var live := Since(Recorded(NormalLimit(limit), ops), t - WINDOW);
            answer.Snap? && answer.s.nextReset == (if live == [] then t2 else live[0].at) + WINDOW
  {
    WindowIsExact(limit, start, ops, t);
  }

  /** The time between a payment and its eviction is a day of nanoseconds. */
  lemma WindowIsADay()
    ensures WINDOW == 86_400 * 1_000_000_000
  {
  }

  lemma RemainingBySum(g: Guard, t: int, t2: int, spent: real)
    requires Sum(Since(g.window, t - WINDOW)) == spent
    ensures Exec(g, Timed(Remaining, t, t2)).1 == Amount(if g.limit > spent then g.limit - spent else 0.0)
  {
  }

  /** After any run, Remaining answers what is left of the limit in force after the last 24 hours, and never
      less than nothing. */
  lemma RemainingIsExact(limit: real, start: int, ops: seq<Timed>, t: int, t2: int)
    requires ClockOk(start, ops) && Clock(start, ops) <= t <= t2
    ensures var inForce, spent := LimitAfter(NormalLimit(limit), ops), SpentBy(limit, ops, t);
            Exec(Final(New(limit), ops), Timed(Remaining, t, t2)).1
            == Amount(if inForce > spent then inForce - spent else 0.0)
  {
    SpentIsExact(limit, start, ops, t);
    LimitIsTracked(limit, ops);
    RemainingBySum(Final(New(limit), ops), t, t2, SpentBy(limit, ops, t));
  }

  /* What is set and what is recorded */

  /** The last limit that was set. */
  function LastSet(limit: real, ops: seq<Timed>): real {
    if ops == [] then limit
    else if ops[|ops| - 1].op.SetLimit? then ops[|ops| - 1].op.limit
    else LastSet(limit, ops[..|ops| - 1])
  }

  /** The limit in force is the last one that was set, if that is positive, and else none. */
  lemma {:induction false} LimitInForce(limit: real, ops: seq<Timed>)
    ensures LastSet(limit, ops) > 0.0 ==> LimitAfter(NormalLimit(limit), ops) == LastSet(limit, ops)
    ensures LastSet(limit, ops) <= 0.0 ==> LimitAfter(NormalLimit(limit), ops) == 0.0
  {
    if ops != [] { LimitInForce(limit, ops[..|ops| - 1]); }
  }

  /** While the last limit set is not positive, nothing is rejected, announced or recorded. */
  lemma DisabledGuardIsSilent(limit: real, ops: seq<Timed>, o: Timed)
    requires LastSet(limit, ops) <= 0.0
    ensures o.op.Check? || o.op.WouldExceed? || o.op.CheckApproaching? ==>
              Exec(Final(New(limit), ops), o).1 == Verdict(false)
    ensures o.op.Record? ==> Exec(Final(New(limit), ops), o).0 == Final(New(limit), ops)
  {
    LimitInForce(limit, ops);
    LimitIsTracked(limit, ops);
  }

  /** The record grows by the cost and the source as they were given, stamped with the second clock reading, by
      every Record of a positive cost while a positive limit is in force, and by nothing else. */
  lemma RecordIsKept(limit: real, ops: seq<Timed>, o: Timed)
    ensures Recorded(NormalLimit(limit), ops + [o])
            == Recorded(NormalLimit(limit), ops)
               + if o.op.Record? && o.op.cost > 0.0 && LastSet(limit, ops) > 0.0
                 then [Entry(o.t2, o.op.cost, o.op.source)] else []
  {
    LimitInForce(limit, ops);
    assert (ops + [o])[..|ops|] == ops;
  }

  /* NextReset is tight */

  lemma {:induction false} SinceRemovesCost(w: seq<Entry>, cutoff: int)
    requires forall i :: 0 <= i < |w| ==> w[i].cost > 0.0
    ensures Sum(Since(w, cutoff)) <= Sum(w)
    ensures |w| > 0 && w[0].at < cutoff ==> Sum(Since(w, cutoff)) < Sum(w)
  {
    if |w| > 0 {
      SinceRemovesCost(w[..|w| - 1], cutoff);
      assert Since(w, cutoff) == Since(w[..|w| - 1], cutoff)
        || Since(w, cutoff)[..|Since(w, cutoff)| - 1] == Since(w[..|w| - 1], cutoff);
    }
  }

  lemma OldestDecides(w: seq<Entry>, cutoff: int)
    requires Sorted(w) && |w| > 0 && forall e :: e in w ==> e.cost > 0.0
    ensures w[0].at >= cutoff ==> Since(w, cutoff) == w
    ensures w[0].at < cutoff ==> Sum(Since(w, cutoff)) < Sum(w)
  {
    if w[0].at >= cutoff { SinceAll(w, cutoff); } else { SinceRemovesCost(w, cutoff); }
  }

  /** With no new record, evicting up to the announced instant removes nothing, and at any later time
      the spent sum strictly falls. */
  lemma NextResetIsTight(g: Guard, clock: int, now: int, later: int)
    requires WindowOk(g.window, clock) && |g.window| > 0
    ensures later <= CopyState(g, now).nextReset ==> Evict(g, later) == g
    ensures later > CopyState(g, now).nextReset ==> Sum(Evict(g, later).window) < Sum(g.window)
  {
    OldestDecides(g.window, later - WINDOW);
  }

  /* The approaching alert */

  predicate IsApproach(o: Timed) { o.op.CheckApproaching? }

  /** The call at index `j` found spend at or above 80% of the limit. */
  ghost predicate SawHigh(g: Guard, ops: seq<Timed>, j: nat)
    requires j < |ops|
  {
    High(Evict(Final(g, ops[..j]), ops[j].t))
  }

  /** The last CheckApproaching call before index `j`, or -1. */
  function PreviousApproach(ops: seq<Timed>, j: nat): (i: int)
    requires j <= |ops|
    ensures -1 <= i < j && (i >= 0 ==> IsApproach(ops[i]))
    ensures forall k :: i < k < j ==> !IsApproach(ops[k])
  {
    if j == 0 then -1 else if IsApproach(ops[j - 1]) then j - 1 else PreviousApproach(ops, j - 1)
  }

  /** What one operation does to the alert flag. */
  lemma FlagStep(g: Guard, o: Timed)
    requires g.limit > 0.0 && !o.op.SetLimit?
    ensures Exec(g, o).0.limit == g.limit
    ensures Exec(g, o).0.approachingSent == if IsApproach(o) then High(Evict(g, o.t)) else g.approachingSent
  {
  }

  lemma FinalUnfolds(g: Guard, ops: seq<Timed>, j: nat)
    requires 0 < j <= |ops|
    ensures Final(g, ops[..j]) == Exec(Final(g, ops[..j - 1]), ops[j - 1]).0
  {
    assert ops[..j][..j - 1] == ops[..j - 1];
  }

  /** What the last CheckApproaching call before index `j` saw. */
  ghost predicate LastSawHigh(g: Guard, ops: seq<Timed>, j: nat)
    requires j <= |ops|
  {
    j > 0 && if IsApproach(ops[j - 1]) then SawHigh(g, ops, j - 1) else LastSawHigh(g, ops, j - 1)
  }

  lemma {:induction false} LastIsPrevious(g: Guard, ops: seq<Timed>, j: nat)
    requires j <= |ops|
    ensures LastSawHigh(g, ops, j) <==> PreviousApproach(ops, j) >= 0 && SawHigh(g, ops, PreviousApproach(ops, j))
  {
    if j > 0 && !IsApproach(ops[j - 1]) { LastIsPrevious(g, ops, j - 1); }
  }

  ghost predicate LimitIsFixed(ops: seq<Timed>) { forall i :: 0 <= i < |ops| ==> !ops[i].op.SetLimit? }

  lemma {:induction false} FlagIsLastSeen(g: Guard, ops: seq<Timed>, j: nat)
    requires g.limit > 0.0 && !g.approachingSent && j <= |ops| && LimitIsFixed(ops)
    ensures Final(g, ops[..j]).limit == g.limit && (Final(g, ops[..j]).approachingSent <==> LastSawHigh(g, ops, j))
  {
    if j > 0 {
      FlagIsLastSeen(g, ops, j - 1);
      FinalUnfolds(g, ops, j);
      FlagStep(Final(g, ops[..j - 1]), ops[j - 1]);
    }
  }

  lemma SentFlagRemembersLastCall(g: Guard, ops: seq<Timed>, j: nat)
    requires g.limit > 0.0 && !g.approachingSent && j <= |ops| && LimitIsFixed(ops)
    ensures Final(g, ops[..j]).limit == g.limit
    ensures Final(g, ops[..j]).approachingSent
            <==> PreviousApproach(ops, j) >= 0 && SawHigh(g, ops, PreviousApproach(ops, j))
  {
    FlagIsLastSeen(g, ops, j);
    LastIsPrevious(g, ops, j);
  }

  /* The alert in any run, also with SetLimit */

  /** Whether the last CheckApproaching call under a limit since the last SetLimit saw high spend. */
  ghost predicate Warned(g: Guard, ops: seq<Timed>, j: nat)
    requires j <= |ops|
  {
    && j > 0
    && !ops[j - 1].op.SetLimit?
    && if IsApproach(ops[j - 1]) && Final(g, ops[..j - 1]).limit > 0.0 then SawHigh(g, ops, j - 1)
       else Warned(g, ops, j - 1)
  }

  lemma WarnedStep(g: Guard, o: Timed)
    ensures Exec(g, o).0.approachingSent
            == if o.op.SetLimit? then false
               else if IsApproach(o) && g.limit > 0.0 then High(Evict(g, o.t))
               else g.approachingSent
  {
  }

  lemma {:induction false} FlagIsWarned(g: Guard, ops: seq<Timed>, j: nat)
    requires !g.approachingSent && j <= |ops|
    ensures Final(g, ops[..j]).approachingSent <==> Warned(g, ops, j)
  {
    if j > 0 {
      FlagIsWarned(g, ops, j - 1);
      FinalUnfolds(g, ops, j);
      WarnedStep(Final(g, ops[..j - 1]), ops[j - 1]);
    }
  }

  /** In terms of the record: spend is high at four fifths of the limit. */
  lemma HighIsFourFifths(limit: real, start: int, ops: seq<Timed>, j: nat)
    requires j < |ops| && ClockOk(start, ops[..j]) && Clock(start, ops[..j]) <= ops[j].t
    ensures SawHigh(New(limit), ops, j)
            <==> 5.0 * SpentBy(limit, ops[..j], ops[j].t) >= 4.0 * LimitAfter(NormalLimit(limit), ops[..j])
  {
    SpentIsExact(limit, start, ops[..j], ops[j].t);
    LimitIsTracked(limit, ops[..j]);
  }

  /** In every run a CheckApproaching call returns true if and only if a limit is in force, it sees high
      spend, and the last call under a limit since the last SetLimit, if any, did not. */
  lemma AlertInAnyRun(limit: real, ops: seq<Timed>, j: nat)
    requires j < |ops| && IsApproach(ops[j])
    ensures Exec(Final(New(limit), ops[..j]), ops[j]).1
            == Verdict(LastSet(limit, ops[..j]) > 0.0 && SawHigh(New(limit), ops, j) && !Warned(New(limit), ops, j))
  {
    FlagIsWarned(New(limit), ops, j);
    LimitIsTracked(limit, ops[..j]);
    LimitInForce(limit, ops[..j]);
    if LastSet(limit, ops[..j]) > 0.0 {
      AlertStep(Final(New(limit), ops[..j]), ops[j]);
    }
  }

  /** When CheckApproaching returns true. */
  lemma AlertStep(g: Guard, o: Timed)
    requires g.limit > 0.0 && IsApproach(o)
    ensures Exec(g, o).1 == Verdict(High(Evict(g, o.t)) && !g.approachingSent)
  {
  }

  /** Without SetLimit, a CheckApproaching call returns true exactly when it sees high spend and the
      previous such call, if any, saw low spend: alerts and observed drops alternate. */
  lemma ApproachingFiresOnRisingEdge(g: Guard, ops: seq<Timed>, j: nat)
    requires g.limit > 0.0 && !g.approachingSent && j < |ops| && IsApproach(ops[j])
    requires LimitIsFixed(ops)
    ensures Exec(Final(g, ops[..j]), ops[j]).1 == Verdict(true)
            <==> SawHigh(g, ops, j)
                 && (PreviousApproach(ops, j) < 0 || !SawHigh(g, ops, PreviousApproach(ops, j)))
  {
    SentFlagRemembersLastCall(g, ops, j);
    AlertStep(Final(g, ops[..j]), ops[j]);
  }

  /** Between two calls that return true there is one that saw spend below the threshold. */
  lemma ApproachingAlternates(g: Guard, ops: seq<Timed>, i: nat, j: nat) returns (k: nat)
    requires g.limit > 0.0 && !g.approachingSent && i < j < |ops| && IsApproach(ops[i]) && IsApproach(ops[j])
    requires LimitIsFixed(ops)
    requires Exec(Final(g, ops[..i]), ops[i]).1 == Verdict(true)
    requires Exec(Final(g, ops[..j]), ops[j]).1 == Verdict(true)
    ensures i < k < j && IsApproach(ops[k]) && !SawHigh(g, ops, k)
  {
    k := PreviousApproach(ops, j);
    assert SawHigh(g, ops, i) by { ApproachingFiresOnRisingEdge(g, ops, i); }
    assert k < 0 || !SawHigh(g, ops, k) by { ApproachingFiresOnRisingEdge(g, ops, j); }
    assert k >= i;
  }
}
