/**
 The chat handler's budget protocol around the guard: estimate the frontier cost, Check, dispatch,
 and Record the same cost when the call succeeds. Requests run concurrently, so other requests
 check and record between one request's Check and its Record. A stream that is cut off has been
 served in part and is not recorded.
 */
module Admission {
  import opened BudgetGuard

  /** `k * x`, by repeated addition. */
  function Times(k: nat, x: real): real { if k == 0 then 0.0 else Times(k - 1, x) + x }

  /** Input tokens at the configured price per thousand. */
  function FrontierCost(tokens: nat, per1K: real): real { Times(tokens, per1K) / 1000.0 }

  /** `pending`: costs of requests that passed Check and have neither recorded nor failed. */
  datatype Desk = Desk(guard: Guard, clock: int, pending: seq<real>)

  datatype Event =
    | Request(tokens: nat, now: int)
    | Succeed(i: nat, now: int, now2: int)
    | Truncate(i: nat)  // served in part
    | Fail(i: nat)
    | Ask(o: Timed)     // a router's budget query

  predicate Enabled(d: Desk, e: Event) {
    match e
    case Request(_, now) => d.clock <= now
    case Succeed(i, now, now2) => i < |d.pending| && d.clock <= now <= now2
    case Truncate(i) => i < |d.pending|
    case Fail(i) => i < |d.pending|
    case Ask(o) => Query(o.op) && d.clock <= o.t <= o.t2
  }

  /** A request of no cost is neither checked nor recorded; a rejected one leaves nothing behind. */
  function Admit(d: Desk, cost: real, now: int): Desk {
    if cost <= 0.0 then d
    else
      var (g, answer) := Exec(d.guard, Timed(Check(cost), now, now));
      if answer == Verdict(true) then Desk(g, now, d.pending) else Desk(g, now, d.pending + [cost])
  }

  function Without(xs: seq<real>, i: nat): seq<real>
    requires i < |xs|
  {
    xs[..i] + xs[i + 1..]
  }

  function Next(c: Load, d: Desk, e: Event): Desk
    requires Enabled(d, e)
  {
    match e
    case Request(tokens, now) => Admit(d, c.Cost(tokens), now)
    case Succeed(i, now, now2) =>
      Desk(Exec(d.guard, Timed(Record(d.pending[i], "frontier"), now, now2)).0, now2, Without(d.pending, i))
    case Truncate(i) => d.(pending := Without(d.pending, i))
    case Fail(i) => d.(pending := Without(d.pending, i))
    case Ask(o) => Desk(Exec(d.guard, o).0, o.t2, d.pending)
  }

  /** The configured limit and price, and what the clients do: at most `n` requests in flight at once,
      each of cost at most `most`. */
  datatype Load = Load(limit: real, start: int, n: nat, most: real, per1K: real) {
    ghost predicate Valid() { limit > 0.0 && n >= 1 && most >= 0.0 }

    function Cost(tokens: nat): real { FrontierCost(tokens, per1K) }

    /** The most tokens that cost no more than `x`; zero without a price. */
    ghost function Tokens(x: real): nat {
      if per1K <= 0.0 || x < 0.0 then 0 else TokensFor(x, per1K)
    }

    /** What a single request can cost at most. */
    function Ceiling(): real { if most <= limit then most else limit }

    ghost function CapTokens(): nat { Tokens(Ceiling()) }

    /** The greatest cost that can be admitted; zero when a single token costs too much. */
    ghost function Cap(): real { Cost(CapTokens()) }

    /** The most that can be recorded one request at a time. */
    ghost function Quota(): real { if CapTokens() == 0 then 0.0 else Cost(Tokens(limit)) }

    ghost function Bound(): real
      requires n >= 1
    {
      Quota() + Times(n - 1, Cap())
    }
  }

  ghost function TokensFor(x: real, per1K: real): (k: nat)
    requires x >= 0.0 && per1K > 0.0
    ensures FrontierCost(k, per1K) <= x < FrontierCost(k + 1, per1K)
  {
    TokensExist(x, per1K);
    var k: nat :| FrontierCost(k, per1K) <= x < FrontierCost(k + 1, per1K);
    k
  }

  lemma CostAgainst(x: real, per1K: real, k: nat)
    requires x >= 0.0 && per1K > 0.0
    ensures FrontierCost(k, per1K) <= x <==> k as real <= x * 1000.0 / per1K
  {
    var q := x * 1000.0 / per1K;
    assert q * per1K == x * 1000.0;
    TimesIsProduct(k, per1K);
    ProductOrder(k as real, q, per1K);
  }

  lemma TokensExist(x: real, per1K: real)
    requires x >= 0.0 && per1K > 0.0
    ensures exists k: nat :: FrontierCost(k, per1K) <= x < FrontierCost(k + 1, per1K)
  {
    var q := x * 1000.0 / per1K;
    CostAgainst(x, per1K, 0);
    var k: nat, next: nat := q.Floor, q.Floor + 1;
    assert k as real <= q < next as real;
    CostAgainst(x, per1K, k);
    CostAgainst(x, per1K, next);
    assert FrontierCost(k, per1K) <= x < FrontierCost(k + 1, per1K);
  }

  ghost predicate Legal(c: Load, es: seq<Event>)
    decreases |es|, 0
  {
    es == []
    || (&& Legal(c, es[..|es| - 1])
        && Enabled(Run(c, es[..|es| - 1]), es[|es| - 1])
        && Fits(c, Run(c, es[..|es| - 1]), es[|es| - 1]))
  }

  predicate Fits(c: Load, d: Desk, e: Event) { e.Request? ==> |d.pending| < c.n && c.Cost(e.tokens) <= c.most }

  ghost function Run(c: Load, es: seq<Event>): Desk
    requires Legal(c, es)
    decreases |es|, 1
  {
    if es == [] then Desk(New(c.limit), c.start, []) else Next(c, Run(c, es[..|es| - 1]), es[|es| - 1])
  }

  /** What an event records. */
  function RecordedBy(d: Desk, e: Event): seq<Entry>
    requires Enabled(d, e)
  {
    if e.Succeed? then [Entry(e.now2, d.pending[e.i], "frontier")] else []
  }

  /** Everything ever recorded, one entry per successful request; nothing is evicted here. */
  ghost function Ledger(c: Load, es: seq<Event>): seq<Entry>
    requires Legal(c, es)
  {
    if es == [] then [] else Ledger(c, es[..|es| - 1]) + RecordedBy(Run(c, es[..|es| - 1]), es[|es| - 1])
  }

  /** What was recorded from `begin` to `end`, both included. */
  function SumBetween(w: seq<Entry>, begin: int, end: int): real {
    if w == [] then 0.0
    else
      var last := w[|w| - 1];
      SumBetween(w[..|w| - 1], begin, end) + if begin <= last.at <= end then last.cost else 0.0
  }

  /** What was recorded in the 24 hours up to `t`. */
  ghost function LedgerInDay(c: Load, es: seq<Event>, t: int): real
    requires Legal(c, es)
  {
    SumBetween(Ledger(c, es), t - WINDOW, t)
  }

  /* Sums */

  function Total(xs: seq<real>): real {
    if xs == [] then 0.0 else Total(xs[..|xs| - 1]) + xs[|xs| - 1]
  }

  lemma {:induction false} TotalWithout(xs: seq<real>, i: nat)
    requires i < |xs|
    ensures Total(Without(xs, i)) == Total(xs) - xs[i]
  {
    var rest := Without(xs, i);
    if i == |xs| - 1 {
      assert rest == xs[..i];
    } else {
      var front := xs[..|xs| - 1];
      TotalWithout(front, i);
      assert rest[..|rest| - 1] == Without(front, i);
    }
  }

  lemma {:induction false} TimesIsProduct(k: nat, x: real)
    ensures Times(k, x) == k as real * x
  {
    if k > 0 {
      TimesIsProduct(k - 1, x);
      assert k as real * x == (k - 1) as real * x + x;
    }
  }

  lemma {:induction false} TimesAdds(a: nat, b: nat, x: real)
    ensures Times(a + b, x) == Times(a, x) + Times(b, x)
  {
    if b > 0 { TimesAdds(a, b - 1, x); }
  }

  lemma FrontierCostIsProduct(tokens: nat, per1K: real)
    ensures FrontierCost(tokens, per1K) == tokens as real * per1K / 1000.0
  {
    TimesIsProduct(tokens, per1K);
  }

  lemma {:induction false} TimesGrows(k: nat, n: nat, x: real)
    requires k <= n && x >= 0.0
    ensures 0.0 <= Times(k, x) <= Times(n, x)
  {
    if k < n {
      TimesGrows(k, n - 1, x);
    } else if k > 0 {
      TimesGrows(k - 1, k - 1, x);
    }
  }

  lemma {:induction false} TimesOfLess(k: nat, x: real, y: real)
    requires x <= y
    ensures Times(k, x) <= Times(k, y)
  {
    if k > 0 { TimesOfLess(k - 1, x, y); }
  }

  lemma {:induction false} TotalAtMost(xs: seq<real>, most: real)
    requires forall i :: 0 <= i < |xs| ==> xs[i] <= most
    ensures Total(xs) <= Times(|xs|, most)
  {
    if xs != [] {
      TotalAtMost(xs[..|xs| - 1], most);
    }
  }

  lemma {:induction false} PositiveTotal(xs: seq<real>)
    requires forall i :: 0 <= i < |xs| ==> xs[i] > 0.0
    ensures Total(xs) >= 0.0
  {
    if xs != [] { PositiveTotal(xs[..|xs| - 1]); }
  }

  lemma {:induction false} PositiveSum(w: seq<Entry>)
    requires forall e :: e in w ==> e.cost > 0.0
    ensures Sum(w) >= 0.0
  {
    if w != [] { PositiveSum(w[..|w| - 1]); }
  }

  lemma SumOneMore(w: seq<Entry>, e: Entry)
    ensures Sum(w + [e]) == Sum(w) + e.cost
  {
    assert (w + [e])[..|w|] == w;
  }

  /* Whole tokens */

  ghost predicate Whole(c: Load, x: real) { exists k: nat :: x == c.Cost(k) }

  lemma CostAdds(c: Load, a: nat, b: nat)
    ensures c.Cost(a + b) == c.Cost(a) + c.Cost(b)
  {
    TimesAdds(a, b, c.per1K);
  }

  lemma CostOfOne(c: Load)
    ensures c.Cost(0) == 0.0 && c.Cost(1) == c.per1K / 1000.0
  {
    assert Times(1, c.per1K) == Times(0, c.per1K) + c.per1K;
  }

  lemma {:induction false} CostGrows(c: Load, a: nat, b: nat)
    requires c.per1K > 0.0 && a <= b
    ensures 0.0 <= c.Cost(a) <= c.Cost(b) && (a < b ==> c.Cost(a) < c.Cost(b))
  {
    CostOfOne(c);
    if a < b {
      CostGrows(c, a, b - 1);
      CostAdds(c, b - 1, 1);
    } else if a > 0 {
      CostGrows(c, a - 1, a - 1);
      CostAdds(c, a - 1, 1);
    }
  }

  lemma CostNeedsTokens(c: Load, k: nat)
    requires c.Cost(k) > 0.0
    ensures k > 0 && c.per1K > 0.0
  {
    CostOfOne(c);
    if c.per1K <= 0.0 { TimesIsNegative(k, c.per1K); }
  }

  lemma {:induction false} TimesIsNegative(k: nat, x: real)
    requires x <= 0.0
    ensures Times(k, x) <= 0.0
  {
    if k > 0 { TimesIsNegative(k - 1, x); }
  }

  lemma ProductOrder(a: real, b: real, p: real)
    requires p > 0.0
    ensures a <= b <==> a * p <= b * p
  {
    assert (b - a) * p == b * p - a * p;
    if a <= b { assert (b - a) * p >= 0.0; } else { assert (a - b) * p > 0.0; }
  }

  /** `Tokens(x)` is the greatest number of tokens that costs no more than `x`. */
  lemma TokensIsGreatest(c: Load, x: real, k: nat)
    requires c.per1K > 0.0 && x >= 0.0
    ensures c.Cost(k) <= x <==> k <= c.Tokens(x)
  {
    if k <= c.Tokens(x) {
      CostGrows(c, k, c.Tokens(x));
    } else {
      CostGrows(c, c.Tokens(x) + 1, k);
    }
  }

  lemma {:induction false} SumIsWhole(c: Load, w: seq<Entry>)
    requires forall e :: e in w ==> Whole(c, e.cost)
    ensures Whole(c, Sum(w))
  {
    if w == [] {
      CostOfOne(c);
    } else {
      var front, last := w[..|w| - 1], w[|w| - 1];
      SumIsWhole(c, front);
      var a: nat :| Sum(front) == c.Cost(a);
      assert last in w;
      var b: nat :| last.cost == c.Cost(b);
      CostAdds(c, a, b);
      assert Sum(w) == c.Cost(a + b);
    }
  }

  /* The quota and the bound */

  lemma QuotaIsWithinLimit(c: Load)
    requires c.Valid()
    ensures 0.0 <= c.Cap() <= c.most && c.Cap() <= c.Quota() <= c.limit
    ensures c.CapTokens() > 0 ==> c.per1K > 0.0 && c.Cap() > 0.0 && c.CapTokens() <= c.Tokens(c.limit)
  {
    CostOfOne(c);
    if c.CapTokens() > 0 {
      TokensIsGreatest(c, c.Ceiling(), c.CapTokens());
      TokensIsGreatest(c, c.limit, c.CapTokens());
      TokensIsGreatest(c, c.limit, c.Tokens(c.limit));
      CostGrows(c, 0, c.CapTokens());
      CostGrows(c, c.CapTokens(), c.Tokens(c.limit));
    }
  }

  lemma BoundIsPositive(c: Load)
    requires c.Valid()
    ensures c.Bound() >= 0.0
  {
    QuotaIsWithinLimit(c);
    TimesGrows(0, c.n - 1, c.Cap());
  }

  lemma {:induction false} TimesOfCost(c: Load, k: nat, m: nat)
    ensures k * m >= 0 && Times(k, c.Cost(m)) == c.Cost(k * m)
  {
    CostOfOne(c);
    if k > 0 {
      TimesOfCost(c, k - 1, m);
      assert k * m == (k - 1) * m + m;
      CostAdds(c, (k - 1) * m, m);
    }
  }

  /** In tokens: what fits into the limit, and n - 1 times what can be admitted. */
  lemma BoundInTokens(c: Load)
    requires c.Valid() && c.CapTokens() > 0
    ensures (c.n - 1) * c.CapTokens() >= 0
    ensures c.Bound() == c.Cost(c.Tokens(c.limit) + (c.n - 1) * c.CapTokens())
  {
    TimesOfCost(c, c.n - 1, c.CapTokens());
    CostAdds(c, c.Tokens(c.limit), (c.n - 1) * c.CapTokens());
  }

  /** Whatever the price, the bound is at most the limit and n - 1 times the lesser of the greatest cost
      and the limit. */
  lemma BoundForAnyPrice(c: Load)
    requires c.Valid()
    ensures c.Bound() <= c.limit + (c.n - 1) as real * c.Ceiling()
  {
    var k: nat, x := c.n - 1, c.Ceiling();
    QuotaIsWithinLimit(c);
    TimesOfLess(k, c.Cap(), x);
    assert Times(k, x) == k as real * x by { TimesIsProduct(k, x); }
    assert c.Bound() <= c.limit + Times(k, x);
  }

  lemma OneTokenMoreExceeds(c: Load)
    requires c.Valid() && c.CapTokens() > 0
    ensures c.Quota() + c.Cap() > c.limit
  {
    var all := c.Tokens(c.limit);
    QuotaIsWithinLimit(c);
    TokensIsGreatest(c, c.limit, all + 1);
    CostAdds(c, all, 1);
    CostGrows(c, 1, c.CapTokens());
  }

  /** The bound exceeds the limit if and only if there is a second request and an affordable token. */
  lemma BoundExceedsIff(c: Load)
    requires c.Valid()
    ensures c.Bound() > c.limit <==> c.n >= 2 && c.CapTokens() > 0
  {
    QuotaIsWithinLimit(c);
    if c.CapTokens() == 0 {
      CostOfOne(c);
      TimesOfLess(c.n - 1, c.Cap(), 0.0);
      TimesIsProduct(c.n - 1, 0.0);
    } else if c.n >= 2 {
      OneTokenMoreExceeds(c);
      TimesGrows(1, c.n - 1, c.Cap());
      assert Times(1, c.Cap()) == Times(0, c.Cap()) + c.Cap();
    }
  }

  /* The guard's window and what is pending */

  ghost predicate EntryOk(c: Load, e: Entry) { e.cost > 0.0 && Whole(c, e.cost) }

  ghost predicate EntriesOk(c: Load, w: seq<Entry>) { forall e :: e in w ==> EntryOk(c, e) }

  ghost predicate PendingOk(c: Load, x: real) { 0.0 < x <= c.Cap() && Whole(c, x) }

  ghost predicate Inv(d: Desk, c: Load)
    requires c.n >= 1
  {
    && d.guard.limit == c.limit
    && EntriesOk(c, d.guard.window)
    && |d.pending| <= c.n
    && (forall i :: 0 <= i < |d.pending| ==> PendingOk(c, d.pending[i]))
    && Sum(d.guard.window) + Total(d.pending) <= c.Bound()
  }

  lemma EvictionLowersSum(c: Load, w: seq<Entry>, cutoff: int)
    requires EntriesOk(c, w)
    ensures Sum(Since(w, cutoff)) <= Sum(w) && EntriesOk(c, Since(w, cutoff))
  {
    assert forall i :: 0 <= i < |w| ==> EntryOk(c, w[i]);
    SinceRemovesCost(w, cutoff);
    SinceKeepsOrder(w, cutoff);
  }

  /** The window after an eviction, with the pending costs as they are. */
  lemma EvictKeepsInv(d: Desk, now: int, c: Load, clock: int)
    requires c.n >= 1 && Inv(d, c)
    ensures Inv(Desk(Evict(d.guard, now), clock, d.pending), c)
  {
    EvictionLowersSum(c, d.guard.window, now - WINDOW);
  }

  /** What passes Check stays within the quota, because everything is a whole number of tokens. */
  lemma AdmittedIsWithinQuota(c: Load, w: seq<Entry>, tokens: nat)
    requires c.Valid() && EntriesOk(c, w)
    requires 0.0 < c.Cost(tokens) <= c.most && Sum(w) + c.Cost(tokens) <= c.limit
    ensures PendingOk(c, c.Cost(tokens)) && Sum(w) + c.Cost(tokens) <= c.Quota()
  {
    CostNeedsTokens(c, tokens);
    PositiveSum(w);
    TokensIsGreatest(c, c.Ceiling(), tokens);
    CostGrows(c, tokens, c.CapTokens());
    SumIsWhole(c, w);
    var k: nat :| Sum(w) == c.Cost(k);
    CostAdds(c, k, tokens);
    TokensIsGreatest(c, c.limit, k + tokens);
    CostGrows(c, k + tokens, c.Tokens(c.limit));
  }

  lemma AddPendingKeepsInv(d: Desk, tokens: nat, c: Load)
    requires c.Valid() && Inv(d, c) && |d.pending| < c.n && 0.0 < c.Cost(tokens) <= c.most
    requires Sum(d.guard.window) + c.Cost(tokens) <= c.limit
    ensures Inv(d.(pending := d.pending + [c.Cost(tokens)]), c)
  {
    var cost := c.Cost(tokens);
    var pending := d.pending + [cost];
    AdmittedIsWithinQuota(c, d.guard.window, tokens);
    assert Total(d.pending) <= Times(c.n - 1, c.Cap()) by {
      TotalAtMost(d.pending, c.Cap());
      TimesGrows(|d.pending|, c.n - 1, c.Cap());
    }
    assert Total(pending) == Total(d.pending) + cost by { assert pending[..|d.pending|] == d.pending; }
  }

  lemma AdmitKeepsInv(d: Desk, tokens: nat, now: int, c: Load)
    requires c.Valid() && Inv(d, c) && |d.pending| < c.n && c.Cost(tokens) <= c.most
    ensures Inv(Admit(d, c.Cost(tokens), now), c)
  {
    var e := Desk(Evict(d.guard, now), now, d.pending);
    EvictKeepsInv(d, now, c, now);
    if c.Cost(tokens) > 0.0 && !Over(e.guard, c.Cost(tokens)) {
      AddPendingKeepsInv(e, tokens, c);
    }
  }

  lemma DropKeepsInv(d: Desk, i: nat, c: Load)
    requires c.n >= 1 && Inv(d, c) && i < |d.pending|
    ensures Inv(d.(pending := Without(d.pending, i)), c)
  {
    assert PendingOk(c, d.pending[i]);
    TotalWithout(d.pending, i);
  }

  lemma SucceedKeepsInv(d: Desk, i: nat, now: int, now2: int, c: Load)
    requires c.Valid() && Inv(d, c) && Enabled(d, Succeed(i, now, now2))
    ensures Inv(Next(c, d, Succeed(i, now, now2)), c)
  {
    var kept := Since(d.guard.window, now - WINDOW);
    var entry := Entry(now2, d.pending[i], "frontier");
    assert PendingOk(c, d.pending[i]);
    EvictionLowersSum(c, d.guard.window, now - WINDOW);
    TotalWithout(d.pending, i);
    SumOneMore(kept, entry);
    assert Next(c, d, Succeed(i, now, now2)).guard.window == kept + [entry];
  }

  lemma StepKeepsInv(d: Desk, e: Event, c: Load)
    requires c.Valid() && Inv(d, c) && Enabled(d, e) && Fits(c, d, e)
    ensures Inv(Next(c, d, e), c)
  {
    match e
    case Request(tokens, now) => AdmitKeepsInv(d, tokens, now, c);
    case Succeed(i, now, now2) => SucceedKeepsInv(d, i, now, now2, c);
    case Truncate(i) => DropKeepsInv(d, i, c);
    case Fail(i) => DropKeepsInv(d, i, c);
    case Ask(o) => EvictKeepsInv(d, o.t, c, o.t2);
  }

  lemma {:induction false} InvHolds(c: Load, es: seq<Event>)
    requires c.Valid() && Legal(c, es)
    ensures Inv(Run(c, es), c)
    decreases |es|
  {
    if es == [] {
      BoundIsPositive(c);
    } else {
      InvHolds(c, es[..|es| - 1]);
      StepKeepsInv(Run(c, es[..|es| - 1]), es[|es| - 1], c);
    }
  }

  /* The guard's window and the ledger */

  lemma StepKeepsLedger(d: Desk, e: Event, c: Load, ledger: seq<Entry>, now: int)
    requires c.Valid() && Inv(d, c) && Enabled(d, e) && Next(c, d, e).clock <= now
    requires Since(d.guard.window, now - WINDOW) == Since(ledger, now - WINDOW)
    ensures Since(Next(c, d, e).guard.window, now - WINDOW) == Since(ledger + RecordedBy(d, e), now - WINDOW)
  {
    assert !e.Succeed? ==> ledger + RecordedBy(d, e) == ledger;
    match e
    case Request(tokens, t) =>
      if c.Cost(tokens) > 0.0 { QueryKeepsLedger(d.guard, ledger, Timed(Check(c.Cost(tokens)), t, t), now); }
    case Succeed(i, t, t2) =>
      assert PendingOk(c, d.pending[i]);
      ExecKeepsExact(d.guard, ledger, Timed(Record(d.pending[i], "frontier"), t, t2), now);
    case Truncate(i) =>
    case Fail(i) =>
    case Ask(o) => QueryKeepsLedger(d.guard, ledger, o, now);
  }

  lemma QueryKeepsLedger(g: Guard, ledger: seq<Entry>, o: Timed, now: int)
    requires Query(o.op) && o.t <= now && Since(g.window, now - WINDOW) == Since(ledger, now - WINDOW)
    ensures Since(Exec(g, o).0.window, now - WINDOW) == Since(ledger, now - WINDOW)
  {
    ExecKeepsExact(g, ledger, o, now);
    assert ledger + Logged(g.limit, o) == ledger;
  }

  /** Through every run the guard's window, seen now or later, holds exactly what was recorded in the 24
      hours before. */
  lemma {:induction false} WindowIsLedger(c: Load, es: seq<Event>, now: int)
    requires c.Valid() && Legal(c, es) && Run(c, es).clock <= now
    ensures Since(Run(c, es).guard.window, now - WINDOW) == Since(Ledger(c, es), now - WINDOW)
    decreases |es|
  {
    if es != [] {
      var front := es[..|es| - 1];
      WindowIsLedger(c, front, now);
      InvHolds(c, front);
      StepKeepsLedger(Run(c, front), es[|es| - 1], c, Ledger(c, front), now);
    }
  }

  lemma {:induction false} LedgerUntilClock(c: Load, es: seq<Event>)
    requires Legal(c, es)
    ensures forall e :: e in Ledger(c, es) ==> e.at <= Run(c, es).clock
    decreases |es|
  {
    if es != [] { LedgerUntilClock(c, es[..|es| - 1]); }
  }

  lemma {:induction false} SumBetweenIsSince(w: seq<Entry>, begin: int, end: int)
    requires forall e :: e in w ==> e.at <= end
    ensures SumBetween(w, begin, end) == Sum(Since(w, begin))
  {
    if w != [] {
      SumBetweenIsSince(w[..|w| - 1], begin, end);
      SumOneMore(Since(w[..|w| - 1], begin), w[|w| - 1]);
    }
  }

  /* The overshoot */

  lemma PendingIsPositive(d: Desk, c: Load)
    requires c.n >= 1 && Inv(d, c)
    ensures Total(d.pending) >= 0.0
  {
    assert forall i :: 0 <= i < |d.pending| ==> PendingOk(c, d.pending[i]);
    PositiveTotal(d.pending);
  }

  /** At any time from the last event on, what was recorded in the last 24 hours plus what is still
      pending is at most the bound. */
  lemma LedgerAndPendingAreBounded(c: Load, es: seq<Event>, now: int)
    requires c.Valid() && Legal(c, es) && Run(c, es).clock <= now
    ensures LedgerInDay(c, es, now) + Total(Run(c, es).pending) <= c.Bound()
  {
    LedgerUntilClock(c, es);
    SumBetweenIsSince(Ledger(c, es), now - WINDOW, now);
    WindowIsLedger(c, es, now);
    InvHolds(c, es);
    EvictionLowersSum(c, Run(c, es).guard.window, now - WINDOW);
  }

  lemma LaterRecordIsNotCounted(c: Load, es: seq<Event>, t: int)
    requires Legal(c, es) && es != [] && Run(c, es).clock > t
    ensures LedgerInDay(c, es, t) == LedgerInDay(c, es[..|es| - 1], t)
  {
    var d, e := Run(c, es[..|es| - 1]), es[|es| - 1];
    var before := Ledger(c, es[..|es| - 1]);
    assert Ledger(c, es) == before + RecordedBy(d, e);
    if e.Succeed? {
      assert (before + RecordedBy(d, e))[..|before|] == before;
    } else {
      assert before + RecordedBy(d, e) == before;
    }
  }

  /** With at most `n` requests between Check and Record, each costing at most `most`, what is recorded in
      any 24 hours whatsoever is at most what fits into the limit in whole tokens plus n - 1 times the
      greatest cost that can be admitted. */
  lemma {:induction false} OvershootIsBounded(c: Load, es: seq<Event>, t: int)
    requires c.Valid() && Legal(c, es)
    ensures LedgerInDay(c, es, t) <= c.Bound()
    ensures t >= Run(c, es).clock ==> LedgerInDay(c, es, t) + Total(Run(c, es).pending) <= c.Bound()
    decreases |es|
  {
    if Run(c, es).clock <= t {
      LedgerAndPendingAreBounded(c, es, t);
      InvHolds(c, es);
      PendingIsPositive(Run(c, es), c);
    } else if es == [] {
      BoundIsPositive(c);
    } else {
      OvershootIsBounded(c, es[..|es| - 1], t);
      LaterRecordIsNotCounted(c, es, t);
    }
  }

  /* The bound is reached */

  function Repeat(k: nat, x: real): seq<real> { if k == 0 then [] else Repeat(k - 1, x) + [x] }

  ghost predicate AllAt(w: seq<Entry>, t: int) { forall e :: e in w ==> e.at == t }

  /** Everything happened at the start: `w` was recorded, and `pending` is on its way. */
  ghost predicate Settled(c: Load, es: seq<Event>, w: seq<Entry>, pending: seq<real>) {
    Legal(c, es) && Ledger(c, es) == w && Run(c, es) == Desk(Guard(c.limit, w, false), c.start, pending)
  }

  lemma Extend(c: Load, front: seq<Event>, e: Event)
    requires Legal(c, front) && Enabled(Run(c, front), e) && Fits(c, Run(c, front), e)
    ensures Legal(c, front + [e]) && Run(c, front + [e]) == Next(c, Run(c, front), e)
    ensures Ledger(c, front + [e]) == Ledger(c, front) + RecordedBy(Run(c, front), e)
    ensures Truncated(c, front + [e]) == Truncated(c, front) + TruncatedBy(Run(c, front), e)
  {
    assert (front + [e])[..|front|] == front;
  }

  lemma AdmittedAtOnce(limit: real, w: seq<Entry>, t: int, pending: seq<real>, x: real)
    requires limit > 0.0 && AllAt(w, t) && x > 0.0 && Sum(w) + x <= limit
    ensures Admit(Desk(Guard(limit, w, false), t, pending), x, t)
            == Desk(Guard(limit, w, false), t, pending + [x])
  {
    SinceAll(w, t - WINDOW);
  }

  lemma RecordedAtOnce(c: Load, w: seq<Entry>, t: int, pending: seq<real>, x: real)
    requires c.limit > 0.0 && AllAt(w, t) && x > 0.0
    ensures Next(c, Desk(Guard(c.limit, w, false), t, pending + [x]), Succeed(|pending|, t, t))
            == Desk(Guard(c.limit, w + [Entry(t, x, "frontier")], false), t, pending)
  {
    SinceAll(w, t - WINDOW);
    assert Without(pending + [x], |pending|) == pending;
  }

  lemma AskFor(c: Load, front: seq<Event>, w: seq<Entry>, pending: seq<real>, tokens: nat) returns (es: seq<Event>)
    requires c.Valid() && Settled(c, front, w, pending) && AllAt(w, c.start) && |pending| < c.n
    requires 0.0 < c.Cost(tokens) <= c.most && Sum(w) + c.Cost(tokens) <= c.limit
    ensures Settled(c, es, w, pending + [c.Cost(tokens)]) && Truncated(c, es) == Truncated(c, front)
  {
    var e := Request(tokens, c.start);
    AdmittedAtOnce(c.limit, w, c.start, pending, c.Cost(tokens));
    Extend(c, front, e);
    es := front + [e];
    assert w + [] == w && Truncated(c, front) + [] == Truncated(c, front);
  }

  function EntryNow(c: Load, x: real): Entry { Entry(c.start, x, "frontier") }

  lemma RecordLast(c: Load, front: seq<Event>, w: seq<Entry>, pending: seq<real>, x: real) returns (es: seq<Event>)
    requires c.Valid() && Settled(c, front, w, pending + [x]) && AllAt(w, c.start) && x > 0.0
    ensures Settled(c, es, w + [EntryNow(c, x)], pending) && AllAt(w + [EntryNow(c, x)], c.start)
  {
    var e := Succeed(|pending|, c.start, c.start);
    RecordedAtOnce(c, w, c.start, pending, x);
    Extend(c, front, e);
    es := front + [e];
  }

  /** A request of `x` tokens is admitted and recorded. */
  lemma RecordOne(c: Load, front: seq<Event>, w: seq<Entry>, x: nat) returns (es: seq<Event>, w': seq<Entry>)
    requires c.Valid() && Settled(c, front, w, []) && AllAt(w, c.start)
    requires 0.0 < c.Cost(x) <= c.most && Sum(w) + c.Cost(x) <= c.limit
    ensures Settled(c, es, w', []) && AllAt(w', c.start) && Sum(w') == Sum(w) + c.Cost(x)
  {
    es := AskFor(c, front, w, [], x);
    es := RecordLast(c, es, w, [], c.Cost(x));
    w' := w + [EntryNow(c, c.Cost(x))];
    SumOneMore(w, EntryNow(c, c.Cost(x)));
  }

  /** Any number of tokens within the limit can be recorded, one request at a time. */
  lemma {:induction false} RecordUp(c: Load, tokens: nat) returns (es: seq<Event>, w: seq<Entry>)
    requires c.Valid() && c.CapTokens() > 0 && c.Cost(tokens) <= c.limit
    ensures Settled(c, es, w, []) && AllAt(w, c.start) && Sum(w) == c.Cost(tokens)
    decreases tokens
  {
    if tokens == 0 {
      es, w := [], [];
      CostOfOne(c);
    } else {
      var x := if tokens <= c.CapTokens() then tokens else c.CapTokens();
      PartIsAffordable(c, tokens, x);
      es, w := RecordUp(c, tokens - x);
      es, w := RecordOne(c, es, w, x);
    }
  }

  lemma PartIsAffordable(c: Load, tokens: nat, x: nat)
    requires c.Valid() && 0 < x <= tokens && x <= c.CapTokens()
    ensures 0.0 < c.Cost(x) <= c.most
    ensures c.Cost(tokens - x) + c.Cost(x) == c.Cost(tokens) && c.Cost(tokens - x) <= c.Cost(tokens)
  {
    QuotaIsWithinLimit(c);
    CostOfOne(c);
    CostGrows(c, 0, x);
    CostGrows(c, x, c.CapTokens());
    CostAdds(c, tokens - x, x);
  }

  lemma {:induction false} PileUp(c: Load, front: seq<Event>, w: seq<Entry>, k: nat, tokens: nat)
    returns (es: seq<Event>)
    requires c.Valid() && Settled(c, front, w, []) && AllAt(w, c.start) && k <= c.n
    requires 0.0 < c.Cost(tokens) <= c.most && Sum(w) + c.Cost(tokens) <= c.limit
    ensures Settled(c, es, w, Repeat(k, c.Cost(tokens))) && |Repeat(k, c.Cost(tokens))| == k
  {
    if k == 0 {
      es := front;
    } else {
      es := PileUp(c, front, w, k - 1, tokens);
      es := AskFor(c, es, w, Repeat(k - 1, c.Cost(tokens)), tokens);
    }
  }

  lemma RecordTop(c: Load, front: seq<Event>, w: seq<Entry>, k: nat, x: real)
    returns (es: seq<Event>, w': seq<Entry>)
    requires c.Valid() && Settled(c, front, w, Repeat(k, x)) && AllAt(w, c.start) && x > 0.0 && k > 0
    ensures Settled(c, es, w', Repeat(k - 1, x)) && AllAt(w', c.start) && Sum(w') == Sum(w) + x
  {
    es := RecordLast(c, front, w, Repeat(k - 1, x), x);
    w' := w + [EntryNow(c, x)];
    SumOneMore(w, EntryNow(c, x));
  }

  lemma {:induction false} RecordAll(c: Load, front: seq<Event>, w: seq<Entry>, k: nat, x: real)
    returns (es: seq<Event>, w': seq<Entry>)
    requires c.Valid() && Settled(c, front, w, Repeat(k, x)) && AllAt(w, c.start) && x > 0.0
    ensures Settled(c, es, w', []) && AllAt(w', c.start) && Sum(w') == Sum(w) + Times(k, x)
    decreases k
  {
    if k == 0 {
      es, w' := front, w;
    } else {
      var es1, w1 := RecordTop(c, front, w, k, x);
      es, w' := RecordAll(c, es1, w1, k - 1, x);
    }
  }

  lemma RoomForOne(c: Load) returns (room: nat)
    requires c.Valid() && c.CapTokens() > 0
    ensures c.Cost(room) + c.Cap() == c.Quota() <= c.limit && c.Cost(room) <= c.limit && 0.0 < c.Cap() <= c.most
  {
    QuotaIsWithinLimit(c);
    room := c.Tokens(c.limit) - c.CapTokens();
    CostAdds(c, room, c.CapTokens());
  }

  /** Record all of the quota but one greatest cost, then let `n` requests of that cost check before any of
      them records. */
  lemma RecordMost(c: Load) returns (es: seq<Event>, w: seq<Entry>)
    requires c.Valid() && c.CapTokens() > 0
    ensures Settled(c, es, w, []) && AllAt(w, c.start) && Sum(w) == c.Bound()
  {
    var room := RoomForOne(c);
    assert c.Bound() == c.Cost(room) + Times(c.n, c.Cap());
    es, w := RecordUp(c, room);
    es := PileUp(c, es, w, c.n, c.CapTokens());
    es, w := RecordAll(c, es, w, c.n, c.Cap());
  }

  lemma {:induction false} SumAtOnce(w: seq<Entry>, t: int)
    requires AllAt(w, t)
    ensures SumBetween(w, t - WINDOW, t) == Sum(w)
  {
    if w != [] { SumAtOnce(w[..|w| - 1], t); }
  }

  lemma BoundIsZero(c: Load)
    requires c.Valid() && c.CapTokens() == 0
    ensures c.Bound() == 0.0
  {
    CostOfOne(c);
    TimesIsProduct(c.n - 1, 0.0);
  }

  /** The bound is the exact maximum, for every limit, price, greatest cost and number of requests. */
  lemma OvershootIsReached(c: Load) returns (es: seq<Event>)
    requires c.Valid()
    ensures Legal(c, es) && LedgerInDay(c, es, c.start) == c.Bound()
  {
    if c.CapTokens() == 0 {
      BoundIsZero(c);
      es := [];
    } else {
      var w;
      es, w := RecordMost(c);
      SumAtOnce(w, c.start);
    }
  }

  /** At no time more than the limit was recorded in the last 24 hours. */
  ghost predicate StaysWithin(c: Load, es: seq<Event>)
    requires Legal(c, es)
  {
    forall t :: LedgerInDay(c, es, t) <= c.limit
  }

  ghost predicate LimitIsKept(c: Load) { forall es :: Legal(c, es) ==> StaysWithin(c, es) }

  lemma BoundKeepsWithin(c: Load, es: seq<Event>)
    requires c.Valid() && c.Bound() <= c.limit && Legal(c, es)
    ensures StaysWithin(c, es)
  {
    forall t
      ensures LedgerInDay(c, es, t) <= c.limit
    {
      OvershootIsBounded(c, es, t);
    }
  }

  lemma ExceedLimit(c: Load) returns (es: seq<Event>)
    requires c.Valid() && c.Bound() > c.limit
    ensures Legal(c, es) && !StaysWithin(c, es)
  {
    es := OvershootIsReached(c);
    assert LedgerInDay(c, es, c.start) > c.limit;
  }

  /** A token has a price, and costs no more than the greatest cost and the limit. */
  predicate TokenIsAffordable(c: Load) { 0.0 < c.per1K / 1000.0 <= c.most && c.per1K / 1000.0 <= c.limit }

  lemma AffordableIff(c: Load)
    requires c.Valid()
    ensures TokenIsAffordable(c) <==> c.CapTokens() > 0
  {
    CostOfOne(c);
    if c.per1K > 0.0 {
      TokensIsGreatest(c, c.Ceiling(), 1);
    }
  }

  /** The limit is kept in every 24 hours of every run if and only if at most one request at a time is
      between its Check and its Record, or not even a single token can be admitted. */
  lemma LimitIsKeptIff(c: Load)
    requires c.Valid()
    ensures LimitIsKept(c) <==> c.n == 1 || !TokenIsAffordable(c)
  {
    AffordableIff(c);
    BoundExceedsIff(c);
    if c.Bound() <= c.limit {
      forall es | Legal(c, es)
        ensures StaysWithin(c, es)
      {
        BoundKeepsWithin(c, es);
      }
    } else {
      var es := ExceedLimit(c);
    }
  }

  /* What is served and never recorded */

  /** The estimated cost of a stream that is cut off. */
  function TruncatedBy(d: Desk, e: Event): seq<real>
    requires Enabled(d, e)
  {
    if e.Truncate? then [d.pending[e.i]] else []
  }

  ghost function Truncated(c: Load, es: seq<Event>): seq<real>
    requires Legal(c, es)
  {
    if es == [] then [] else Truncated(c, es[..|es| - 1]) + TruncatedBy(Run(c, es[..|es| - 1]), es[|es| - 1])
  }

  lemma TruncateOne(c: Load, front: seq<Event>, x: real) returns (es: seq<Event>)
    requires c.Valid() && Settled(c, front, [], [x])
    ensures Settled(c, es, [], []) && Truncated(c, es) == Truncated(c, front) + [x]
  {
    Extend(c, front, Truncate(0));
    es := front + [Truncate(0)];
    assert Without([x], 0) == [];
  }

  lemma ServeOne(c: Load, front: seq<Event>, tokens: nat) returns (es: seq<Event>)
    requires c.Valid() && Settled(c, front, [], []) && 0.0 < c.Cost(tokens) <= c.most && c.Cost(tokens) <= c.limit
    ensures Settled(c, es, [], []) && Truncated(c, es) == Truncated(c, front) + [c.Cost(tokens)]
  {
    var asked := AskFor(c, front, [], [], tokens);
    assert [] + [c.Cost(tokens)] == [c.Cost(tokens)];
    es := TruncateOne(c, asked, c.Cost(tokens));
  }

  lemma NothingYet(c: Load)
    requires c.Valid()
    ensures Settled(c, [], [], []) && Truncated(c, []) == []
  {
  }

  /** The guard does not see streams that are cut off: even one request at a time can be served in part any
      number `k` of times at once with nothing recorded. */
  lemma {:induction false} TruncationIsNotRecorded(c: Load, tokens: nat, k: nat, served: seq<real>)
    returns (es: seq<Event>)
    requires c.Valid() && 0.0 < c.Cost(tokens) <= c.most && c.Cost(tokens) <= c.limit
    requires served == Repeat(k, c.Cost(tokens))
    ensures Settled(c, es, [], []) && Truncated(c, es) == served
    decreases k
  {
    if k == 0 {
      es := [];
      NothingYet(c);
    } else {
      var before := Repeat(k - 1, c.Cost(tokens));
      assert served == before + [c.Cost(tokens)];
      es := TruncationIsNotRecorded(c, tokens, k - 1, before);
      es := ServeOne(c, es, tokens);
    }
  }

  /* Every admitted request meets one fate */

  /** What an event admits: a positive cost that does not exceed the limit on top of the last 24 hours. */
  function AdmittedBy(c: Load, d: Desk, e: Event): seq<real> {
    if e.Request? && c.Cost(e.tokens) > 0.0
       && (d.guard.limit <= 0.0 || Sum(Since(d.guard.window, e.now - WINDOW)) + c.Cost(e.tokens) <= d.guard.limit)
    then [c.Cost(e.tokens)] else []
  }

  function FailedBy(d: Desk, e: Event): seq<real>
    requires Enabled(d, e)
  {
    if e.Fail? then [d.pending[e.i]] else []
  }

  /** The costs that leave the desk with an event: recorded, cut off, or failed. */
  function LeavesBy(d: Desk, e: Event): multiset<real>
    requires Enabled(d, e)
  {
    multiset(if e.Succeed? then [d.pending[e.i]] else []) + multiset(TruncatedBy(d, e)) + multiset(FailedBy(d, e))
  }

  lemma OneLeaves(xs: seq<real>, i: nat)
    requires i < |xs|
    ensures multiset(xs) == multiset(Without(xs, i)) + multiset([xs[i]])
    ensures |Without(xs, i)| == |xs| - 1
    ensures forall j :: 0 <= j < i ==> Without(xs, i)[j] == xs[j]
    ensures forall j :: i < j < |xs| ==> Without(xs, i)[j - 1] == xs[j]
  {
    assert xs == xs[..i] + [xs[i]] + xs[i + 1..];
  }

  lemma RequestIsFair(c: Load, d: Desk, tokens: nat, now: int)
    requires Enabled(d, Request(tokens, now))
    ensures Next(c, d, Request(tokens, now)).pending == d.pending + AdmittedBy(c, d, Request(tokens, now))
    ensures c.Cost(tokens) <= 0.0 ==> Next(c, d, Request(tokens, now)) == d
  {
    assert d.pending + [] == d.pending;
  }

  lemma LeavingIsFair(c: Load, d: Desk, e: Event)
    requires Enabled(d, e) && (e.Succeed? || e.Truncate? || e.Fail?)
    ensures Next(c, d, e).pending == Without(d.pending, e.i) && LeavesBy(d, e) == multiset([d.pending[e.i]])
  {
  }

  /** An event admits or removes one request at most, and every other request keeps its cost. */
  lemma StepIsFair(c: Load, d: Desk, e: Event)
    requires Enabled(d, e)
    ensures multiset(Next(c, d, e).pending) + LeavesBy(d, e) == multiset(d.pending) + multiset(AdmittedBy(c, d, e))
    ensures e.Ask? ==> Next(c, d, e).pending == d.pending
    ensures e.Request? && c.Cost(e.tokens) <= 0.0 ==> Next(c, d, e) == d
  {
    match e
    case Request(tokens, now) => RequestIsFair(c, d, tokens, now);
    case Succeed(i, _, _) => LeavingIsFair(c, d, e); OneLeaves(d.pending, i);
    case Truncate(i) => LeavingIsFair(c, d, e); OneLeaves(d.pending, i);
    case Fail(i) => LeavingIsFair(c, d, e); OneLeaves(d.pending, i);
    case Ask(_) =>
  }

  function Costs(w: seq<Entry>): seq<real> { if w == [] then [] else Costs(w[..|w| - 1]) + [w[|w| - 1].cost] }

  ghost function Admitted(c: Load, es: seq<Event>): seq<real>
    requires Legal(c, es)
  {
    if es == [] then [] else Admitted(c, es[..|es| - 1]) + AdmittedBy(c, Run(c, es[..|es| - 1]), es[|es| - 1])
  }

  ghost function Failed(c: Load, es: seq<Event>): seq<real>
    requires Legal(c, es)
  {
    if es == [] then [] else Failed(c, es[..|es| - 1]) + FailedBy(Run(c, es[..|es| - 1]), es[|es| - 1])
  }

  lemma CostsOfRecorded(w: seq<Entry>, d: Desk, e: Event)
    requires Enabled(d, e)
    ensures Costs(w + RecordedBy(d, e)) == Costs(w) + if e.Succeed? then [d.pending[e.i]] else []
  {
    if e.Succeed? {
      assert (w + RecordedBy(d, e))[..|w|] == w;
    } else {
      assert w + RecordedBy(d, e) == w;
    }
  }

  lemma RunUnfolds(c: Load, es: seq<Event>)
    requires Legal(c, es) && es != []
    ensures var front, e := es[..|es| - 1], es[|es| - 1];
            var d := Run(c, front);
            && Run(c, es) == Next(c, d, e)
            && Admitted(c, es) == Admitted(c, front) + AdmittedBy(c, d, e)
            && Costs(Ledger(c, es)) == Costs(Ledger(c, front)) + (if e.Succeed? then [d.pending[e.i]] else [])
            && Truncated(c, es) == Truncated(c, front) + TruncatedBy(d, e)
            && Failed(c, es) == Failed(c, front) + FailedBy(d, e)
  {
    CostsOfRecorded(Ledger(c, es[..|es| - 1]), Run(c, es[..|es| - 1]), es[|es| - 1]);
  }

  lemma Counts(a: multiset<real>, b: multiset<real>, c: multiset<real>, d: multiset<real>, x: real)
    ensures (a + b + c + d)[x] == a[x] + b[x] + c[x] + d[x] && (a + (b + c + d))[x] == a[x] + b[x] + c[x] + d[x]
    ensures (a + b)[x] == a[x] + b[x]
  {
  }

  /** Adding up one step. */
  lemma Balance(admitted: multiset<real>, recorded: multiset<real>, truncated: multiset<real>, failed: multiset<real>,
                pending: multiset<real>, a: multiset<real>, r: multiset<real>, t: multiset<real>, f: multiset<real>,
                pending': multiset<real>)
    requires admitted == recorded + truncated + failed + pending
    requires pending' + (r + t + f) == pending + a
    ensures admitted + a == (recorded + r) + (truncated + t) + (failed + f) + pending'
  {
    forall x
      ensures (admitted + a)[x] == ((recorded + r) + (truncated + t) + (failed + f) + pending')[x]
    {
      Counts(recorded, truncated, failed, pending, x);
      Counts(pending', r, t, f, x);
      Counts(pending, a, a, a, x);
      Counts(admitted, a, a, a, x);
      Counts(recorded + r, truncated + t, failed + f, pending', x);
    }
  }

  /** Through every run the costs that were admitted are those that were recorded, with the same amount, those
      of streams that were cut off, those that failed, and those that are pending. */
  lemma {:induction false} AdmittedIsConserved(c: Load, es: seq<Event>)
    requires Legal(c, es)
    ensures multiset(Admitted(c, es))
            == multiset(Costs(Ledger(c, es))) + multiset(Truncated(c, es)) + multiset(Failed(c, es))
               + multiset(Run(c, es).pending)
    decreases |es|
  {
    if es != [] {
      var front, e := es[..|es| - 1], es[|es| - 1];
      var d := Run(c, front);
      AdmittedIsConserved(c, front);
      StepIsFair(c, d, e);
      RunUnfolds(c, es);
      Balance(multiset(Admitted(c, front)), multiset(Costs(Ledger(c, front))), multiset(Truncated(c, front)),
              multiset(Failed(c, front)), multiset(d.pending), multiset(AdmittedBy(c, d, e)),
              multiset(if e.Succeed? then [d.pending[e.i]] else []), multiset(TruncatedBy(d, e)),
              multiset(FailedBy(d, e)), multiset(Run(c, es).pending));
    }
  }
}
