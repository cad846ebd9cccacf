/** The fast bucketed tracker against the exact guard, over one history of payments. */
module TrackerVsGuard {
  import B = BudgetGuard
  import T = SpendBuckets

  /** A payment, or a question whether one more amount fits the budget. */
  datatype Event = Pay(t: int, amount: real) | Ask(t: int, amount: real)

  function GuardOp(e: Event): B.Timed {
    match e
    case Pay(t, amount) => B.Timed(B.Record(amount, "frontier"), t, t)
    case Ask(t, amount) => B.Timed(B.Check(amount), t, t)
  }

  function TrackerOp(e: Event): T.Op {
    match e
    case Pay(t, amount) => T.Record(t, amount)
    case Ask(t, amount) => T.WouldExceed(t, amount)
  }

  function GuardOps(es: seq<Event>): seq<B.Timed> {
    if es == [] then [] else GuardOps(es[..|es| - 1]) + [GuardOp(es[|es| - 1])]
  }

  function TrackerOps(es: seq<Event>): seq<T.Op> {
    if es == [] then [] else TrackerOps(es[..|es| - 1]) + [TrackerOp(es[|es| - 1])]
  }

  /** The same amounts at the same times. */
  ghost predicate SameHistory(w: seq<B.Entry>, h: seq<T.Entry>) {
    |w| == |h| && forall i :: 0 <= i < |w| ==> w[i].at == h[i].at && w[i].cost == h[i].amount
  }

  lemma {:induction false} SameSum(w: seq<B.Entry>, h: seq<T.Entry>, cutoff: int)
    requires SameHistory(w, h)
    ensures B.Sum(B.Since(w, cutoff)) == T.SpentSince(h, cutoff)
  {
    if w != [] {
      SameSum(w[..|w| - 1], h[..|h| - 1], cutoff);
      var kept := B.Since(w[..|w| - 1], cutoff);
      assert (kept + [w[|w| - 1]])[..|kept|] == kept;
    }
  }

  lemma {:induction false} SameRuns(limit: real, es: seq<Event>)
    requires limit > 0.0 && T.ClockOk(TrackerOps(es))
    ensures B.ClockOk(0, GuardOps(es)) && B.Clock(0, GuardOps(es)) == T.Clock(TrackerOps(es))
    ensures B.LimitAfter(limit, GuardOps(es)) == limit
    ensures SameHistory(B.Recorded(limit, GuardOps(es)), T.History(TrackerOps(es)))
    decreases |es|
  {
    if es != [] {
      var front := es[..|es| - 1];
      assert TrackerOps(es)[..|TrackerOps(es)| - 1] == TrackerOps(front);
      assert GuardOps(es)[..|GuardOps(es)| - 1] == GuardOps(front);
      SameRuns(limit, front);
    }
  }

  lemma GuardIsExact(limit: real, es: seq<Event>, t: int, amount: real)
    requires limit > 0.0 && T.ClockOk(TrackerOps(es)) && T.Clock(TrackerOps(es)) <= t
    ensures B.Exec(B.Final(B.New(limit), GuardOps(es)), GuardOp(Ask(t, amount))).1
            == B.Verdict(T.SpentSince(T.History(TrackerOps(es)), t - T.WINDOW) + amount > limit)
  {
    assert B.SpentBy(limit, GuardOps(es), t) == T.SpentSince(T.History(TrackerOps(es)), t - T.WINDOW) by {
      SameRuns(limit, es);
      SameSum(B.Recorded(limit, GuardOps(es)), T.History(TrackerOps(es)), t - T.WINDOW);
    }
    assert B.ClockOk(0, GuardOps(es)) && B.Clock(0, GuardOps(es)) <= t
        && B.LimitAfter(limit, GuardOps(es)) == limit by {
      SameRuns(limit, es);
    }
    B.VerdictIsExact(limit, 0, GuardOps(es), GuardOp(Ask(t, amount)));
  }

  /** The verdict of the tracker's WouldExceed. */
  ghost predicate TrackerRejects(limit: real, es: seq<Event>, t: int, amount: real) {
    amount > 0.0 && T.TotalAt(TrackerOps(es), t) + amount > limit
  }

  /** After any common history with a clock that never runs backwards, what the tracker rejects the
      exact guard rejects too, and a positive amount that the guard rejects on the strength of the last
      24 hours less one minute the tracker rejects. */
  lemma TrackerRejectsOnlyWhatGuardRejects(limit: real, es: seq<Event>, t: int, amount: real)
    requires limit > 0.0 && T.ClockOk(TrackerOps(es)) && T.Clock(TrackerOps(es)) <= t
    ensures TrackerRejects(limit, es, t, amount) ==>
              B.Exec(B.Final(B.New(limit), GuardOps(es)), GuardOp(Ask(t, amount))).1 == B.Verdict(true)
    ensures amount > 0.0 && T.SpentSince(T.History(TrackerOps(es)), t - T.WINDOW + T.MINUTE) + amount > limit ==>
              TrackerRejects(limit, es, t, amount)
  {
    GuardIsExact(limit, es, t, amount);
    T.TotalIsWithinAMinute(TrackerOps(es), t);
  }
}
