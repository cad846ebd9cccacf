/** The spend guard object, each method proved to be one operation of BudgetGuard. */
module SpendGuard {
  import opened BudgetGuard

  /** Binary search for the first entry at or after `cutoff`. */
  method SearchFirstLive(w: seq<Entry>, cutoff: int) returns (k: nat)
    requires Sorted(w)
    ensures k <= |w|
    ensures forall i :: 0 <= i < k ==> w[i].at < cutoff
    ensures forall i :: k <= i < |w| ==> w[i].at >= cutoff
  {
    k := 0;
    var hi := |w|;
    while k < hi
      invariant k <= hi <= |w|
      invariant forall i :: 0 <= i < k ==> w[i].at < cutoff
      invariant forall i :: hi <= i < |w| ==> w[i].at >= cutoff
    {
      var mid := (k + hi) / 2;
      if w[mid].at < cutoff {
        k := mid + 1;
      } else {
        hi := mid;
      }
    }
  }

  method SumCosts(w: seq<Entry>) returns (total: real)
    ensures total == Sum(w)
  {
    total := 0.0;
    for i := 0 to |w|
      invariant total == Sum(w[..i])
    {
      assert w[..i + 1][..i] == w[..i];
      total := total + w[i].cost;
    }
    assert w[..|w|] == w;
  }

  class SpendGuard {
    var limit: real
    var window: seq<Entry>
    var approachingSent: bool
    ghost var clock: int  // the latest clock reading

    ghost predicate Valid()
      reads this
    {
      WindowOk(window, clock)
    }

    ghost function View(): Guard
      reads this
    {
      Guard(limit, window, approachingSent)
    }

    constructor (limitUsd: real, ghost now: int)
      ensures Valid() && View() == New(limitUsd) && clock == now
    {
      limit := if limitUsd <= 0.0 then 0.0 else limitUsd;
      window, approachingSent, clock := [], false, now;
    }

    /** The binary-search shift keeps exactly the entries of the last 24 hours. */
    method EvictLocked(now: int)
      requires Valid() && clock <= now
      modifies `window, `clock
      ensures Valid() && View() == Evict(old(View()), now) && clock == now
    {
      SinceKeepsOrder(window, now - WINDOW);
      if |window| > 0 {
        var i := SearchFirstLive(window, now - WINDOW);
        SinceIsSuffix(window, now - WINDOW, i);
        if i > 0 {
          window := window[i..];
        }
      }
      clock := now;
    }

    method CurrentSpentLocked() returns (total: real)
      ensures total == Sum(window)
    {
      total := SumCosts(window);
    }

    method CopyStateLocked(now: int) returns (s: Snapshot)
      ensures s == CopyState(View(), now)
    {
      var spent := CurrentSpentLocked();
      var reset := now + WINDOW;
      if |window| > 0 {
        reset := window[0].at + WINDOW;
      }
      s := Snapshot(spent, limit, limit - spent, limit > 0.0 && spent >= limit, reset);
    }

    method Check(cost: real, now: int) returns (over: bool)
      requires Valid() && clock <= now
      modifies this
      ensures Valid() && clock == now
      ensures (View(), Verdict(over)) == Exec(old(View()), Timed(Op.Check(cost), now, now))
    {
      EvictLocked(now);
      if limit <= 0.0 {
        return false;
      }
      var spent := CurrentSpentLocked();
      over := spent + cost > limit;
    }

    method WouldExceed(cost: real, now: int) returns (over: bool)
      requires Valid() && clock <= now
      modifies this
      ensures Valid() && clock == now
      ensures (View(), Verdict(over)) == Exec(old(View()), Timed(Op.WouldExceed(cost), now, now))
    {
      EvictLocked(now);
      if limit <= 0.0 {
        return false;
      }
      var spent := CurrentSpentLocked();
      over := spent + cost > limit;
    }

    method Remaining(now: int) returns (remaining: real)
      requires Valid() && clock <= now
      modifies this
      ensures Valid() && clock == now
      ensures (View(), Amount(remaining)) == Exec(old(View()), Timed(Op.Remaining, now, now))
    {
      EvictLocked(now);
      var spent := CurrentSpentLocked();
      remaining := limit - spent;
      if remaining < 0.0 {
        remaining := 0.0;
      }
    }

    method State(now: int, now2: int) returns (s: Snapshot)
      requires Valid() && clock <= now <= now2
      modifies this
      ensures Valid() && clock == now2
      ensures (View(), Snap(s)) == Exec(old(View()), Timed(Op.State, now, now2))
    {
      EvictLocked(now);
      s := CopyStateLocked(now2);
      clock := now2;
    }

    method CheckApproaching(now: int) returns (crossed: bool)
      requires Valid() && clock <= now
      modifies this
      ensures Valid() && clock == now
      ensures (View(), Verdict(crossed)) == Exec(old(View()), Timed(Op.CheckApproaching, now, now))
    {
      EvictLocked(now);
      if limit <= 0.0 {
        return false;
      }
      var spent := CurrentSpentLocked();
      var threshold := limit * 0.8;
      if spent >= threshold && !approachingSent {
        approachingSent := true;
        return true;
      }
      if spent < threshold {
        approachingSent := false;
      }
      crossed := false;
    }

    /** Eviction reads the clock at `now`, the entry is stamped at `now2`. */
    method Record(cost: real, source: string, now: int, now2: int)
      requires Valid() && clock <= now <= now2
      modifies this
      ensures Valid() && View() == Exec(old(View()), Timed(Op.Record(cost, source), now, now2)).0
      ensures old(clock) <= clock <= now2
    {
      ExecKeepsWindowOk(View(), Timed(Op.Record(cost, source), now, now2), clock);
      if cost <= 0.0 || limit <= 0.0 {
        return;
      }
      EvictLocked(now);
      window := window + [Entry(now2, cost, source)];
      clock := now2;
    }

    method SetLimit(limitUsd: real)
      requires Valid()
      modifies `limit, `approachingSent
      ensures Valid() && View() == Exec(old(View()), Timed(Op.SetLimit(limitUsd), clock, clock)).0
    {
      limit := if limitUsd <= 0.0 then 0.0 else limitUsd;
      approachingSent := false;
    }
  }
}
