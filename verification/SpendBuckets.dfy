/**
 The bucketed spend tracker: amounts grouped by minute, a sorted list of bucket keys and a running
 total. Pruning drops a whole bucket as soon as its first entry has expired.
 Times are nanoseconds since the epoch; amounts are `real`.
 */
module SpendBuckets {

  const SECOND: int := 1_000_000_000
  const MINUTE: int := 60 * SECOND
  const WINDOW: int := 24 * 3600 * SECOND

  datatype Entry = Entry(at: int, amount: real)

  datatype Bucket = Bucket(entries: seq<Entry>, sum: real, oldestAt: int)

  datatype Tracker = Tracker(buckets: map<int, Bucket>, sortedKeys: seq<int>, total: real)

  /** Whole seconds since the epoch, divided by 60 with truncation towards zero. */
  function BucketKey(t: int): int {
    var unix := t / SECOND;
    if unix >= 0 then unix / 60 else -(-unix / 60)
  }

  function Sum(es: seq<Entry>): real {
    if es == [] then 0.0 else Sum(es[..|es| - 1]) + es[|es| - 1].amount
  }

  ghost predicate Covers(buckets: map<int, Bucket>, keys: seq<int>) {
    forall i :: 0 <= i < |keys| ==> keys[i] in buckets
  }

  /** The sum of the buckets listed in `keys`. */
  ghost function SumOf(buckets: map<int, Bucket>, keys: seq<int>): real
    requires Covers(buckets, keys)
  {
    if keys == [] then 0.0 else buckets[keys[0]].sum + SumOf(buckets, keys[1..])
  }

  ghost predicate Increasing(keys: seq<int>) { forall i, j :: 0 <= i < j < |keys| ==> keys[i] < keys[j] }

  /** A bucket knows its sum and the time of its first entry; the total is the sum over the buckets;
      the key list is the strictly increasing list of bucket keys. */
  ghost predicate BucketOk(k: int, b: Bucket) {
    && |b.entries| > 0
    && b.sum == Sum(b.entries)
    && b.oldestAt == b.entries[0].at
    && forall i :: 0 <= i < |b.entries| ==> BucketKey(b.entries[i].at) == k && b.entries[i].amount > 0.0
  }

  ghost predicate Rep(s: Tracker) {
    && Increasing(s.sortedKeys)
    && Covers(s.buckets, s.sortedKeys)
    && (forall k :: k in s.buckets ==> k in s.sortedKeys)
    && (forall k {:trigger BucketOk(k, s.buckets[k])} :: k in s.buckets ==> BucketOk(k, s.buckets[k]))
    && s.total == SumOf(s.buckets, s.sortedKeys)
  }

  function DropFirst(s: Tracker): Tracker
    requires |s.sortedKeys| > 0 && s.sortedKeys[0] in s.buckets
  {
    var k := s.sortedKeys[0];
    Tracker(s.buckets - {k}, s.sortedKeys[1..], s.total - s.buckets[k].sum)
  }

  /** Drop leading buckets whose first entry is older than `cutoff`. */
  ghost function Prune(s: Tracker, cutoff: int): Tracker
    requires Covers(s.buckets, s.sortedKeys) && Increasing(s.sortedKeys)
    decreases |s.sortedKeys|
  {
    if s.sortedKeys == [] || s.buckets[s.sortedKeys[0]].oldestAt >= cutoff then s
    else Prune(DropFirst(s), cutoff)
  }

  /** Append a key and sort: the list is sorted already except for the new last key. */
  function InsertKey(keys: seq<int>, k: int): seq<int> {
    if keys == [] || keys[|keys| - 1] <= k then keys + [k]
    else InsertKey(keys[..|keys| - 1], k) + [keys[|keys| - 1]]
  }

  function Add(s: Tracker, now: int, amount: real): Tracker {
    var k := BucketKey(now);
    var isNew := k !in s.buckets;
    var b := if isNew then Bucket([], 0.0, now) else s.buckets[k];
    Tracker(s.buckets[k := Bucket(b.entries + [Entry(now, amount)], b.sum + amount, b.oldestAt)],
            if isNew then InsertKey(s.sortedKeys, k) else s.sortedKeys,
            s.total + amount)
  }

  const EMPTY := Tracker(map[], [], 0.0)

  /* The representation invariant, under any clock */

  lemma {:induction false} SumOfAgrees(a: map<int, Bucket>, b: map<int, Bucket>, keys: seq<int>)
    requires Covers(a, keys) && Covers(b, keys)
    requires forall i :: 0 <= i < |keys| ==> a[keys[i]].sum == b[keys[i]].sum
    ensures SumOf(a, keys) == SumOf(b, keys)
  {
    if keys != [] { SumOfAgrees(a, b, keys[1..]); }
  }

  lemma {:induction false} SumOfConcat(m: map<int, Bucket>, a: seq<int>, b: seq<int>)
    requires Covers(m, a + b)
    ensures Covers(m, a) && Covers(m, b)
    ensures SumOf(m, a + b) == SumOf(m, a) + SumOf(m, b)
  {
    assert forall i :: 0 <= i < |a| ==> (a + b)[i] == a[i];
    assert forall i :: 0 <= i < |b| ==> (a + b)[|a| + i] == b[i];
    if a == [] {
      assert a + b == b;
    } else {
      assert (a + b)[1..] == a[1..] + b;
      SumOfConcat(m, a[1..], b);
    }
  }

  lemma DropFirstKeepsKeys(s: Tracker)
    requires Increasing(s.sortedKeys) && Covers(s.buckets, s.sortedKeys) && s.sortedKeys != []
    requires forall k :: k in s.buckets ==> k in s.sortedKeys
    ensures var s' := DropFirst(s);
            && Increasing(s'.sortedKeys) && Covers(s'.buckets, s'.sortedKeys)
            && (forall k :: k in s'.buckets ==> k in s'.sortedKeys)
  {
    var rest := s.sortedKeys[1..];
    assert forall i :: 0 <= i < |rest| ==> rest[i] == s.sortedKeys[i + 1];
    forall k | k in DropFirst(s).buckets
      ensures k in rest
    {
      var i :| 0 <= i < |s.sortedKeys| && s.sortedKeys[i] == k;
      assert rest[i - 1] == k;
    }
  }

  lemma DropFirstKeepsRep(s: Tracker)
    requires Rep(s) && s.sortedKeys != []
    ensures Rep(DropFirst(s))
  {
    var k := s.sortedKeys[0];
    DropFirstKeepsKeys(s);
    SumOfAgrees(s.buckets, s.buckets - {k}, s.sortedKeys[1..]);
    forall j | j in s.buckets - {k}
      ensures BucketOk(j, (s.buckets - {k})[j])
    {
      assert BucketOk(j, s.buckets[j]);
    }
  }

  lemma {:induction false} PruneKeepsRep(s: Tracker, cutoff: int)
    requires Rep(s)
    ensures Rep(Prune(s, cutoff))
    decreases |s.sortedKeys|
  {
    if s.sortedKeys != [] && s.buckets[s.sortedKeys[0]].oldestAt < cutoff {
      DropFirstKeepsRep(s);
      PruneKeepsRep(DropFirst(s), cutoff);
    }
  }

  ghost predicate AllBelow(keys: seq<int>, k: int) { forall i :: 0 <= i < |keys| ==> keys[i] < k }

  lemma AppendIncreasing(keys: seq<int>, k: int)
    requires Increasing(keys) && AllBelow(keys, k)
    ensures Increasing(keys + [k])
  {
  }

  lemma {:induction false} InsertKeyMembers(keys: seq<int>, k: int)
    ensures forall j :: j in InsertKey(keys, k) <==> j in keys || j == k
  {
    if keys != [] && keys[|keys| - 1] > k {
      InsertKeyMembers(keys[..|keys| - 1], k);
      assert keys == keys[..|keys| - 1] + [keys[|keys| - 1]];
    }
  }

  lemma {:induction false} InsertKeyIsSorted(keys: seq<int>, k: int)
    requires Increasing(keys) && k !in keys
    ensures Increasing(InsertKey(keys, k))
    ensures forall j :: j in InsertKey(keys, k) <==> j in keys || j == k
  {
    InsertKeyMembers(keys, k);
    if keys != [] && keys[|keys| - 1] > k {
      var front, last := keys[..|keys| - 1], keys[|keys| - 1];
      InsertKeyIsSorted(front, k);
      var r := InsertKey(front, k);
      assert AllBelow(r, last) by {
        assert forall i :: 0 <= i < |r| ==> r[i] in r;
      }
      AppendIncreasing(r, last);
    } else {
      assert forall i :: 0 <= i < |keys| ==> keys[i] in keys;
      AppendIncreasing(keys, k);
    }
  }

  lemma {:induction false} InsertKeyAddsOnce(m: map<int, Bucket>, keys: seq<int>, k: int)
    requires Increasing(keys) && k !in keys && Covers(m, keys) && k in m
    ensures Covers(m, InsertKey(keys, k))
    ensures SumOf(m, InsertKey(keys, k)) == SumOf(m, keys) + m[k].sum
  {
    InsertKeyIsSorted(keys, k);
    if keys != [] && keys[|keys| - 1] > k {
      var front, last := keys[..|keys| - 1], keys[|keys| - 1];
      assert keys == front + [last];
      InsertKeyAddsOnce(m, front, k);
      SumOfConcat(m, InsertKey(front, k), [last]);
      SumOfConcat(m, front, [last]);
    } else {
      SumOfConcat(m, keys, [k]);
    }
  }

  lemma {:induction false} RaiseOne(a: map<int, Bucket>, b: map<int, Bucket>, keys: seq<int>, k: int, amount: real)
    requires Increasing(keys) && k in keys
    requires Covers(a, keys) && Covers(b, keys)
    requires forall i :: 0 <= i < |keys| && keys[i] != k ==> a[keys[i]].sum == b[keys[i]].sum
    requires b[k].sum == a[k].sum + amount
    ensures SumOf(b, keys) == SumOf(a, keys) + amount
  {
    if keys[0] == k {
      SumOfAgrees(a, b, keys[1..]);
    } else {
      RaiseOne(a, b, keys[1..], k, amount);
    }
  }

  lemma AddedBucketOk(s: Tracker, now: int, amount: real)
    requires Rep(s) && amount > 0.0
    ensures BucketOk(BucketKey(now), Add(s, now, amount).buckets[BucketKey(now)])
  {
    var k := BucketKey(now);
    var b' := Add(s, now, amount).buckets[k];
    if k in s.buckets {
      assert BucketOk(k, s.buckets[k]);
      assert b'.entries[..|b'.entries| - 1] == s.buckets[k].entries;
    } else {
      assert b'.entries == [Entry(now, amount)];
      assert Sum(b'.entries) == Sum(b'.entries[..0]) + amount;
    }
  }

  lemma AddKeepsBucketsOk(s: Tracker, now: int, amount: real, j: int)
    requires Rep(s) && amount > 0.0 && j in Add(s, now, amount).buckets
    ensures BucketOk(j, Add(s, now, amount).buckets[j])
  {
    if j == BucketKey(now) {
      AddedBucketOk(s, now, amount);
    } else {
      assert BucketOk(j, s.buckets[j]);
    }
  }

  lemma AddToOldBucketKeepsTotal(s: Tracker, now: int, amount: real)
    requires Rep(s) && BucketKey(now) in s.buckets
    ensures var s' := Add(s, now, amount);
            && s'.sortedKeys == s.sortedKeys && Covers(s'.buckets, s'.sortedKeys)
            && s'.total == SumOf(s'.buckets, s'.sortedKeys)
  {
    RaiseOne(s.buckets, Add(s, now, amount).buckets, s.sortedKeys, BucketKey(now), amount);
  }

  lemma AddNewBucketKeepsTotal(s: Tracker, now: int, amount: real)
    requires Rep(s) && BucketKey(now) !in s.buckets
    ensures var s' := Add(s, now, amount);
            && Increasing(s'.sortedKeys) && Covers(s'.buckets, s'.sortedKeys)
            && (forall j :: j in s'.sortedKeys <==> j in s.sortedKeys || j == BucketKey(now))
            && s'.total == SumOf(s'.buckets, s'.sortedKeys)
  {
    var k := BucketKey(now);
    var s' := Add(s, now, amount);
    assert k !in s.sortedKeys;
    InsertKeyIsSorted(s.sortedKeys, k);
    InsertKeyAddsOnce(s'.buckets, s.sortedKeys, k);
    SumOfAgrees(s.buckets, s'.buckets, s.sortedKeys);
  }

  lemma AddKeepsRep(s: Tracker, now: int, amount: real)
    requires Rep(s) && amount > 0.0
    ensures Rep(Add(s, now, amount))
  {
    forall j | j in Add(s, now, amount).buckets
      ensures BucketOk(j, Add(s, now, amount).buckets[j])
    {
      AddKeepsBucketsOk(s, now, amount, j);
    }
    if BucketKey(now) in s.buckets {
      AddToOldBucketKeepsTotal(s, now, amount);
    } else {
      AddNewBucketKeepsTotal(s, now, amount);
    }
  }

  /* Runs */

  datatype Op =
    | Record(t: int, amount: real)
    | WouldExceed(t: int, amount: real)
    | Query(t: int)  // CurrentSpend or RetryAfter

  /** A call with no positive amount returns before it looks at the clock. */
  predicate Prunes(o: Op) { o.Query? || o.amount > 0.0 }

  ghost function Exec(s: Tracker, o: Op): Tracker
    requires Rep(s)
  {
    match o
    case Record(t, amount) =>
      if amount <= 0.0 then s
      else
        PruneKeepsRep(s, t - WINDOW);
        Add(Prune(s, t - WINDOW), t, amount)
    case WouldExceed(t, amount) => if amount <= 0.0 then s else Prune(s, t - WINDOW)
    case Query(t) => Prune(s, t - WINDOW)
  }

  lemma ExecKeepsRep(s: Tracker, o: Op)
    requires Rep(s)
    ensures Rep(Exec(s, o))
  {
    PruneKeepsRep(s, o.t - WINDOW);
    if o.Record? && o.amount > 0.0 {
      AddKeepsRep(Prune(s, o.t - WINDOW), o.t, o.amount);
    }
  }

  /** The tracker after a run; the representation invariant holds throughout, whatever the clock
      readings were. */
  ghost function Final(ops: seq<Op>): (s: Tracker)
    ensures Rep(s)
  {
    if ops == [] then EMPTY
    else
      ExecKeepsRep(Final(ops[..|ops| - 1]), ops[|ops| - 1]);
      Exec(Final(ops[..|ops| - 1]), ops[|ops| - 1])
  }

  /** What an operation adds to the history. */
  function Logged(o: Op): seq<Entry> {
    if o.Record? && o.amount > 0.0 then [Entry(o.t, o.amount)] else []
  }

  /** Everything ever recorded. */
  function History(ops: seq<Op>): seq<Entry> {
    if ops == [] then [] else History(ops[..|ops| - 1]) + Logged(ops[|ops| - 1])
  }

  function Clock(ops: seq<Op>): int { if ops == [] then 0 else ops[|ops| - 1].t }

  /** A clock after the epoch that never runs backwards. */
  ghost predicate ClockOk(ops: seq<Op>)
    decreases |ops|
  {
    ops == [] || (ClockOk(ops[..|ops| - 1]) && Clock(ops[..|ops| - 1]) <= ops[|ops| - 1].t)
  }

  ghost predicate HistoryOk(h: seq<Entry>, clock: int) {
    && (forall i, j :: 0 <= i < j < |h| ==> h[i].at <= h[j].at)
    && (forall i :: 0 <= i < |h| ==> 0 <= h[i].at <= clock && h[i].amount > 0.0)
  }

  lemma {:induction false} HistoryIsOk(ops: seq<Op>)
    requires ClockOk(ops)
    ensures HistoryOk(History(ops), Clock(ops)) && Clock(ops) >= 0
    decreases |ops|
  {
    if ops != [] { HistoryIsOk(ops[..|ops| - 1]); }
  }

  /* What survives pruning */

  ghost function Flatten(m: map<int, Bucket>, keys: seq<int>): seq<Entry>
    requires Covers(m, keys)
  {
    if keys == [] then [] else m[keys[0]].entries + Flatten(m, keys[1..])
  }

  /** Some entry of the same minute is older than `cutoff`. */
  ghost predicate Expired(h: seq<Entry>, i: nat, cutoff: int)
    requires i < |h|
  {
    exists j :: 0 <= j < |h| && BucketKey(h[j].at) == BucketKey(h[i].at) && h[j].at < cutoff
  }

  /** A minute is never split at index `k`, and everything before it had expired by `cutoff`. */
  ghost predicate Cut(h: seq<Entry>, k: nat, cutoff: int) {
    && k <= |h|
    && (0 < k < |h| ==> BucketKey(h[k - 1].at) != BucketKey(h[k].at))
    && (forall i {:trigger Expired(h, i, cutoff)} :: 0 <= i < k ==> Expired(h, i, cutoff))
  }

  /** The buckets hold the history from index `k` on. */
  ghost predicate Holds(s: Tracker, h: seq<Entry>, k: nat, cutoff: int) {
    && Rep(s)
    && Cut(h, k, cutoff)
    && Flatten(s.buckets, s.sortedKeys) == h[k..]
  }

  lemma {:induction false} FlattenAgrees(a: map<int, Bucket>, b: map<int, Bucket>, keys: seq<int>)
    requires Covers(a, keys) && Covers(b, keys)
    requires forall i :: 0 <= i < |keys| ==> a[keys[i]].entries == b[keys[i]].entries
    ensures Flatten(a, keys) == Flatten(b, keys)
  {
    if keys != [] { FlattenAgrees(a, b, keys[1..]); }
  }

  lemma {:induction false} FlattenConcat(m: map<int, Bucket>, a: seq<int>, b: seq<int>)
    requires Covers(m, a) && Covers(m, b) && Covers(m, a + b)
    ensures Flatten(m, a + b) == Flatten(m, a) + Flatten(m, b)
  {
    if a == [] {
      assert a + b == b;
    } else {
      assert (a + b)[1..] == a[1..] + b;
      FlattenConcat(m, a[1..], b);
      Regroup(m[a[0]].entries, Flatten(m, a[1..]), Flatten(m, b));
    }
  }

  lemma Regroup(a: seq<Entry>, b: seq<Entry>, c: seq<Entry>)
    ensures a + (b + c) == a + b + c
  {
  }

  lemma CoversParts(m: map<int, Bucket>, a: seq<int>, b: seq<int>)
    requires Covers(m, a + b)
    ensures Covers(m, a) && Covers(m, b)
  {
    assert forall i :: 0 <= i < |a| ==> (a + b)[i] == a[i];
    assert forall i :: 0 <= i < |b| ==> (a + b)[|a| + i] == b[i];
  }

  lemma {:induction false} SumConcat(a: seq<Entry>, b: seq<Entry>)
    ensures Sum(a + b) == Sum(a) + Sum(b)
  {
    if b == [] {
      assert a + b == a;
    } else {
      SumConcat(a, b[..|b| - 1]);
      assert (a + b)[..|a + b| - 1] == a + b[..|b| - 1];
    }
  }

  lemma {:induction false} TotalIsSumOfEntries(m: map<int, Bucket>, keys: seq<int>)
    requires Covers(m, keys) && forall i :: 0 <= i < |keys| ==> m[keys[i]].sum == Sum(m[keys[i]].entries)
    ensures SumOf(m, keys) == Sum(Flatten(m, keys))
  {
    if keys != [] {
      TotalIsSumOfEntries(m, keys[1..]);
      SumConcat(m[keys[0]].entries, Flatten(m, keys[1..]));
    }
  }

  lemma KeysFollowTime(a: int, b: int)
    requires 0 <= a <= b
    ensures BucketKey(a) <= BucketKey(b)
    ensures BucketKey(a) == BucketKey(b) ==> b < a + MINUTE
  {
  }

  lemma FirstBucket(s: Tracker, h: seq<Entry>, k: nat, cutoff: int) returns (n: nat)
    requires Holds(s, h, k, cutoff) && s.sortedKeys != []
    ensures 0 < n && k + n <= |h| && s.buckets[s.sortedKeys[0]].oldestAt == h[k].at
    ensures forall i :: k <= i < k + n ==> BucketKey(h[i].at) == s.sortedKeys[0]
    ensures var s' := DropFirst(s);
            Covers(s'.buckets, s'.sortedKeys) && Flatten(s'.buckets, s'.sortedKeys) == h[k + n..]
    ensures k + n < |h| ==> BucketKey(h[k + n].at) != s.sortedKeys[0]
  {
    var key := s.sortedKeys[0];
    var rest := s.sortedKeys[1..];
    assert BucketOk(key, s.buckets[key]);
    var es := s.buckets[key].entries;
    n := |es|;
    assert h[k..] == es + Flatten(s.buckets, rest);
    assert forall i :: 0 <= i < n ==> es[i] == h[k + i];
    FlattenAgrees(s.buckets, s.buckets - {key}, rest);
    assert h[k + n..] == h[k..][n..];
    if k + n < |h| {
      var next := rest[0];
      assert BucketOk(next, s.buckets[next]);
      assert h[k + n] == s.buckets[next].entries[0];
    }
  }

  /** Pruning drops whole minutes from the front of the history, and only expired ones. */
  lemma {:induction false} PruneHolds(s: Tracker, h: seq<Entry>, k: nat, cutoff: int, clock: int) returns (k': nat)
    requires Holds(s, h, k, cutoff) && HistoryOk(h, clock)
    ensures Holds(Prune(s, cutoff), h, k', cutoff)
    ensures k' < |h| ==> h[k'].at >= cutoff
    decreases |s.sortedKeys|
  {
    PruneKeepsRep(s, cutoff);
    if s.sortedKeys == [] {
      assert |h[k..]| == 0;
      k' := k;
    } else {
      var n := FirstBucket(s, h, k, cutoff);
      if h[k].at >= cutoff {
        k' := k;
      } else {
        DropFirstKeepsRep(s);
        forall i | 0 <= i < k + n
          ensures Expired(h, i, cutoff)
        {
          assert i >= k ==> BucketKey(h[k].at) == BucketKey(h[i].at);
        }
        k' := PruneHolds(DropFirst(s), h, k + n, cutoff, clock);
      }
    }
  }

  lemma Drop(h: seq<Entry>, e: Entry, k: nat)
    requires k <= |h|
    ensures (h + [e])[k..] == h[k..] + [e]
  {
  }

  lemma SplitLastKey(m: map<int, Bucket>, keys: seq<int>)
    requires Covers(m, keys) && keys != []
    ensures Covers(m, keys[..|keys| - 1])
    ensures Flatten(m, keys) == Flatten(m, keys[..|keys| - 1]) + m[keys[|keys| - 1]].entries
  {
    var front, last := keys[..|keys| - 1], [keys[|keys| - 1]];
    assert keys == front + last;
    CoversParts(m, front, last);
    FlattenConcat(m, front, last);
    assert last[1..] == [];
    assert Flatten(m, last) == m[last[0]].entries + [];
  }

  lemma SplitLast(s: Tracker)
    requires Rep(s) && s.sortedKeys != []
    ensures var n := |s.sortedKeys| - 1;
            Flatten(s.buckets, s.sortedKeys)
            == Flatten(s.buckets, s.sortedKeys[..n]) + s.buckets[s.sortedKeys[n]].entries
  {
    SplitLastKey(s.buckets, s.sortedKeys);
  }

  /** With a clock that does not run backwards the newest minute is the last key. */
  lemma KeysAtMostNow(s: Tracker, h: seq<Entry>, k: nat, cutoff: int, clock: int, now: int)
    requires Holds(s, h, k, cutoff) && HistoryOk(h, clock) && clock <= now && s.sortedKeys != []
    ensures s.sortedKeys[|s.sortedKeys| - 1] <= BucketKey(now)
  {
    SplitLast(s);
    var n := |s.sortedKeys| - 1;
    var last := s.buckets[s.sortedKeys[n]].entries;
    assert BucketOk(s.sortedKeys[n], s.buckets[s.sortedKeys[n]]);
    var j := k + |Flatten(s.buckets, s.sortedKeys[..n])|;
    assert h[j] == h[k..][j - k] == last[0];
    KeysFollowTime(h[j].at, now);
  }

  /** The newest bucket is the last one, so a new entry ends the flattened list. */
  lemma AddFlattensOld(s: Tracker, now: int, amount: real)
    requires Rep(s) && amount > 0.0 && s.sortedKeys != [] && s.sortedKeys[|s.sortedKeys| - 1] == BucketKey(now)
    ensures var s' := Add(s, now, amount);
            Covers(s'.buckets, s'.sortedKeys)
            && Flatten(s'.buckets, s'.sortedKeys) == Flatten(s.buckets, s.sortedKeys) + [Entry(now, amount)]
  {
    var s' := Add(s, now, amount);
    AddKeepsRep(s, now, amount);
    var n := |s.sortedKeys| - 1;
    assert s'.sortedKeys == s.sortedKeys;
    SplitLast(s);
    SplitLast(s');
    FlattenAgrees(s.buckets, s'.buckets, s.sortedKeys[..n]);
  }

  lemma AddFlattensNew(s: Tracker, now: int, amount: real)
    requires Rep(s) && amount > 0.0 && (s.sortedKeys != [] ==> s.sortedKeys[|s.sortedKeys| - 1] < BucketKey(now))
    requires BucketKey(now) !in s.buckets
    ensures var s' := Add(s, now, amount);
            Covers(s'.buckets, s'.sortedKeys)
            && Flatten(s'.buckets, s'.sortedKeys) == Flatten(s.buckets, s.sortedKeys) + [Entry(now, amount)]
  {
    var key := BucketKey(now);
    var s' := Add(s, now, amount);
    assert s'.sortedKeys == s.sortedKeys + [key] && s'.sortedKeys[..|s.sortedKeys|] == s.sortedKeys;
    assert s'.buckets[key].entries == [Entry(now, amount)];
    FlattenAgrees(s.buckets, s'.buckets, s.sortedKeys);
    SplitLastKey(s'.buckets, s'.sortedKeys);
  }

  lemma AddFlattens(s: Tracker, h: seq<Entry>, k: nat, cutoff: int, clock: int, now: int, amount: real)
    requires Holds(s, h, k, cutoff) && HistoryOk(h, clock) && clock <= now && amount > 0.0
    ensures var s' := Add(s, now, amount);
            Covers(s'.buckets, s'.sortedKeys)
            && Flatten(s'.buckets, s'.sortedKeys) == Flatten(s.buckets, s.sortedKeys) + [Entry(now, amount)]
  {
    var key := BucketKey(now);
    if s.sortedKeys != [] { KeysAtMostNow(s, h, k, cutoff, clock, now); }
    if key in s.buckets {
      LastIfGreatest(s.sortedKeys, key);
      AddFlattensOld(s, now, amount);
    } else {
      AddFlattensNew(s, now, amount);
    }
  }

  lemma LastIfGreatest(keys: seq<int>, key: int)
    requires Increasing(keys) && key in keys && keys[|keys| - 1] <= key
    ensures keys[|keys| - 1] == key
  {
  }

  lemma AddHolds(s: Tracker, h: seq<Entry>, k: nat, clock: int, now: int, amount: real)
    requires Holds(s, h, k, now - WINDOW) && HistoryOk(h, clock) && 0 <= clock <= now && amount > 0.0
    ensures Holds(Add(s, now, amount), h + [Entry(now, amount)], k, now - WINDOW)
  {
    var e := Entry(now, amount);
    AddKeepsRep(s, now, amount);
    AddFlattens(s, h, k, now - WINDOW, clock, now, amount);
    Drop(h, e, k);
    forall i {:trigger Expired(h + [e], i, now - WINDOW)} | 0 <= i < k
      ensures Expired(h + [e], i, now - WINDOW)
    {
      assert Expired(h, i, now - WINDOW);
      var j :| 0 <= j < |h| && BucketKey(h[j].at) == BucketKey(h[i].at) && h[j].at < now - WINDOW;
      assert (h + [e])[j] == h[j];
    }
    if k == |h| > 0 {
      assert Expired(h, k - 1, now - WINDOW);
      var j :| 0 <= j < |h| && BucketKey(h[j].at) == BucketKey(h[k - 1].at) && h[j].at < now - WINDOW;
      KeysFollowTime(h[j].at, now);
    }
  }

  lemma HoldsLater(s: Tracker, h: seq<Entry>, k: nat, early: int, late: int)
    requires Holds(s, h, k, early) && early <= late
    ensures Holds(s, h, k, late)
  {
    forall i | 0 <= i < k
      ensures Expired(h, i, late)
    {
      assert Expired(h, i, early);
    }
  }

  lemma RecordHolds(s: Tracker, h: seq<Entry>, k: nat, clock: int, t: int, amount: real) returns (k': nat)
    requires Holds(s, h, k, t - WINDOW) && HistoryOk(h, clock) && 0 <= clock <= t && amount > 0.0
    ensures Holds(Exec(s, Record(t, amount)), h + [Entry(t, amount)], k', t - WINDOW)
  {
    var pruned := Prune(s, t - WINDOW);
    k' := PruneHolds(s, h, k, t - WINDOW, clock);
    AddHolds(pruned, h, k', clock, t, amount);
    assert Exec(s, Record(t, amount)) == Add(pruned, t, amount);
  }

  lemma ExecHolds(s: Tracker, h: seq<Entry>, k: nat, clock: int, o: Op) returns (k': nat)
    requires Holds(s, h, k, o.t - WINDOW) && HistoryOk(h, clock) && 0 <= clock <= o.t
    ensures Holds(Exec(s, o), h + Logged(o), k', o.t - WINDOW)
  {
    if Logged(o) != [] {
      k' := RecordHolds(s, h, k, clock, o.t, o.amount);
    } else {
      assert h + Logged(o) == h;
      if !Prunes(o) {
        k' := k;
      } else {
        k' := PruneHolds(s, h, k, o.t - WINDOW, clock);
      }
    }
  }

  lemma NextHolds(s: Tracker, h: seq<Entry>, k: nat, early: int, clock: int, o: Op,
                  s': Tracker, h': seq<Entry>, late: int) returns (k': nat)
    requires Holds(s, h, k, early) && early <= late == o.t - WINDOW && HistoryOk(h, clock) && 0 <= clock <= o.t
    requires s' == Exec(s, o) && h' == h + Logged(o)
    ensures Holds(s', h', k', late)
  {
    HoldsLater(s, h, k, early, late);
    k' := ExecHolds(s, h, k, clock, o);
  }

  lemma NothingHolds(cutoff: int)
    ensures Holds(EMPTY, [], 0, cutoff)
  {
  }

  lemma RunUnfolds(ops: seq<Op>)
    requires ops != []
    ensures var front, last := ops[..|ops| - 1], ops[|ops| - 1];
            && Final(ops) == Exec(Final(front), last) && History(ops) == History(front) + Logged(last)
            && Clock(ops) == last.t && (ClockOk(ops) ==> ClockOk(front) && Clock(front) <= last.t)
  {
  }

  /** Through every run the tracker holds a suffix of the history. */
  lemma {:induction false} TrackerHoldsSuffix(ops: seq<Op>) returns (k: nat)
    requires ClockOk(ops)
    ensures Holds(Final(ops), History(ops), k, Clock(ops) - WINDOW)
    decreases |ops|
  {
    if ops == [] {
      NothingHolds(Clock(ops) - WINDOW);
      k := 0;
    } else {
      var front := ops[..|ops| - 1];
      RunUnfolds(ops);
      k := TrackerHoldsSuffix(front);
      HistoryIsOk(front);
      k := NextHolds(Final(front), History(front), k, Clock(front) - WINDOW, Clock(front), ops[|ops| - 1],
                     Final(ops), History(ops), Clock(ops) - WINDOW);
    }
  }

  /* The total against the exact rolling window */

  /** The exact sum of the entries at or after `cutoff`. */
  function SpentSince(h: seq<Entry>, cutoff: int): real {
    if h == [] then 0.0
    else SpentSince(h[..|h| - 1], cutoff) + if h[|h| - 1].at >= cutoff then h[|h| - 1].amount else 0.0
  }

  /** The sum of the entries none of whose minute is older than `cutoff`, among the first `n`. */
  ghost function SumUnexpired(h: seq<Entry>, n: nat, cutoff: int): real
    requires n <= |h|
  {
    if n == 0 then 0.0
    else SumUnexpired(h, n - 1, cutoff) + if Expired(h, n - 1, cutoff) then 0.0 else h[n - 1].amount
  }

  /** What a query at `t` would report after `ops`. */
  ghost function TotalAt(ops: seq<Op>, t: int): real { Prune(Final(ops), t - WINDOW).total }

  /** How things stand after pruning at `cutoff`. */
  ghost predicate Pruned(h: seq<Entry>, k: nat, cutoff: int, clock: int) {
    Cut(h, k, cutoff) && HistoryOk(h, clock) && (k < |h| ==> h[k].at >= cutoff)
  }

  /** Kept after pruning at `cutoff` are exactly the entries whose minute has not expired. */
  lemma KeptIffUnexpired(h: seq<Entry>, k: nat, cutoff: int, clock: int, i: nat)
    requires Pruned(h, k, cutoff, clock) && i < |h|
    ensures Expired(h, i, cutoff) <==> i < k
    ensures h[i].at < cutoff ==> i < k
    ensures h[i].at >= cutoff + MINUTE ==> i >= k
  {
    if Expired(h, i, cutoff) {
      var j :| 0 <= j < |h| && BucketKey(h[j].at) == BucketKey(h[i].at) && h[j].at < cutoff;
      KeysFollowTime(h[if j < i then j else i].at, h[if j < i then i else j].at);
      if i >= k {
        assert j < k;
        KeysFollowTime(h[j].at, h[k - 1].at);
        KeysFollowTime(h[k - 1].at, h[k].at);
        KeysFollowTime(h[k].at, h[i].at);
      }
    }
  }

  lemma {:induction false} NothingUnexpired(h: seq<Entry>, k: nat, cutoff: int)
    requires k <= |h| && forall i {:trigger Expired(h, i, cutoff)} :: 0 <= i < k ==> Expired(h, i, cutoff)
    ensures SumUnexpired(h, k, cutoff) == 0.0
  {
    if k > 0 { NothingUnexpired(h, k - 1, cutoff); }
  }

  lemma SumAppend(es: seq<Entry>, e: Entry)
    ensures Sum(es + [e]) == Sum(es) + e.amount
  {
    assert (es + [e])[..|es|] == es;
  }

  lemma {:induction false} SplitSums(h: seq<Entry>, n: nat, k: nat, cutoff: int)
    requires k <= n <= |h|
    requires forall i {:trigger Expired(h, i, cutoff)} :: 0 <= i < n ==> (Expired(h, i, cutoff) <==> i < k)
    ensures SumUnexpired(h, n, cutoff) == Sum(h[k..n])
  {
    if k == n {
      NothingUnexpired(h, k, cutoff);
      assert h[k..n] == [];
    } else {
      SplitSums(h, n - 1, k, cutoff);
      SumAppend(h[k..n - 1], h[n - 1]);
      assert h[k..n] == h[k..n - 1] + [h[n - 1]];
      assert !Expired(h, n - 1, cutoff);
    }
  }

  lemma SumOfKept(h: seq<Entry>, k: nat, cutoff: int, clock: int)
    requires Pruned(h, k, cutoff, clock)
    ensures Sum(h[k..]) == SumUnexpired(h, |h|, cutoff)
  {
    forall i {:trigger Expired(h, i, cutoff)} | 0 <= i < |h|
      ensures Expired(h, i, cutoff) <==> i < k
    {
      KeptIffUnexpired(h, k, cutoff, clock, i);
    }
    SplitSums(h, |h|, k, cutoff);
    assert h[k..|h|] == h[k..];
  }

  ghost predicate AllPositive(h: seq<Entry>) { forall i :: 0 <= i < |h| ==> h[i].amount > 0.0 }

  lemma SuffixUnfolds(h: seq<Entry>, k: nat)
    requires k < |h|
    ensures Sum(h[k..]) == Sum(h[..|h| - 1][k..]) + h[|h| - 1].amount
  {
    assert h[k..][..|h| - k - 1] == h[..|h| - 1][k..];
  }

  lemma {:induction false} SuffixAtMost(h: seq<Entry>, k: nat, cutoff: int)
    requires k <= |h| && AllPositive(h) && forall i :: k <= i < |h| ==> h[i].at >= cutoff
    ensures Sum(h[k..]) <= SpentSince(h, cutoff)
  {
    if h != [] {
      if k < |h| {
        SuffixAtMost(h[..|h| - 1], k, cutoff);
        SuffixUnfolds(h, k);
      } else {
        SuffixAtMost(h[..|h| - 1], k - 1, cutoff);
        assert h[..|h| - 1][k - 1..] == [] && h[k..] == [];
      }
    }
  }

  lemma {:induction false} SuffixAtLeast(h: seq<Entry>, k: nat, cutoff: int)
    requires k <= |h| && AllPositive(h) && forall i :: 0 <= i < k ==> h[i].at < cutoff
    ensures Sum(h[k..]) >= SpentSince(h, cutoff)
  {
    if h != [] {
      if k < |h| {
        SuffixAtLeast(h[..|h| - 1], k, cutoff);
        SuffixUnfolds(h, k);
      } else {
        SuffixAtLeast(h[..|h| - 1], k - 1, cutoff);
        assert h[..|h| - 1][k - 1..] == [] && h[k..] == [];
      }
    }
  }

  /** A counted entry before index `k` makes the difference. */
  lemma {:induction false} SuffixBelow(h: seq<Entry>, k: nat, cutoff: int, j: nat)
    requires k <= |h| && AllPositive(h) && forall i :: k <= i < |h| ==> h[i].at >= cutoff
    requires j < k && h[j].at >= cutoff
    ensures Sum(h[k..]) < SpentSince(h, cutoff)
  {
    var front := h[..|h| - 1];
    if k < |h| {
      SuffixBelow(front, k, cutoff, j);
      SuffixUnfolds(h, k);
    } else {
      assert h[k..] == [] && front[k - 1..] == [];
      if j < k - 1 { SuffixBelow(front, k - 1, cutoff, j); } else { SuffixAtMost(front, k - 1, cutoff); }
    }
  }

  /** No entry at or after `cutoff` shares its minute with an older one. */
  ghost predicate NoMinuteIsShared(h: seq<Entry>, cutoff: int) {
    forall i {:trigger Expired(h, i, cutoff)} :: 0 <= i < |h| && h[i].at >= cutoff ==> !Expired(h, i, cutoff)
  }

  /** Only what is older than `cutoff` is missing. */
  ghost predicate CutIsExact(h: seq<Entry>, k: nat, cutoff: int)
    requires k <= |h|
  {
    forall i :: 0 <= i < k ==> h[i].at < cutoff
  }

  lemma ExactIffNotShared(h: seq<Entry>, k: nat, cutoff: int, clock: int)
    requires Pruned(h, k, cutoff, clock)
    ensures NoMinuteIsShared(h, cutoff) <==> CutIsExact(h, k, cutoff)
    ensures forall i :: k <= i < |h| ==> h[i].at >= cutoff
  {
    forall i {:trigger Expired(h, i, cutoff)} | 0 <= i < |h|
      ensures Expired(h, i, cutoff) <==> i < k
      ensures i >= k ==> h[i].at >= cutoff
    {
      KeptIffUnexpired(h, k, cutoff, clock, i);
    }
    if NoMinuteIsShared(h, cutoff) {
      forall i | 0 <= i < k
        ensures h[i].at < cutoff
      {
        assert Expired(h, i, cutoff);
      }
    }
  }

  lemma SumIsExactIff(h: seq<Entry>, k: nat, cutoff: int, clock: int, total: real)
    requires Pruned(h, k, cutoff, clock) && total == Sum(h[k..])
    ensures total == SpentSince(h, cutoff) <==> NoMinuteIsShared(h, cutoff)
  {
    ExactIffNotShared(h, k, cutoff, clock);
    if CutIsExact(h, k, cutoff) {
      SuffixAtMost(h, k, cutoff);
      SuffixAtLeast(h, k, cutoff);
    } else {
      var j: nat :| j < k && h[j].at >= cutoff;
      SuffixBelow(h, k, cutoff, j);
    }
  }

  lemma TotalOfRep(s: Tracker)
    requires Rep(s)
    ensures s.total == Sum(Flatten(s.buckets, s.sortedKeys))
  {
    forall i | 0 <= i < |s.sortedKeys|
      ensures s.buckets[s.sortedKeys[i]].sum == Sum(s.buckets[s.sortedKeys[i]].entries)
    {
      assert BucketOk(s.sortedKeys[i], s.buckets[s.sortedKeys[i]]);
    }
    TotalIsSumOfEntries(s.buckets, s.sortedKeys);
  }

  /** A query over values. */
  lemma QueryPrunes(s: Tracker, h: seq<Entry>, k: nat, early: int, clock: int, late: int, t: int)
    returns (k': nat)
    requires Holds(s, h, k, early) && HistoryOk(h, clock) && early <= late && clock <= t
    ensures Pruned(h, k', late, t) && Prune(s, late).total == Sum(h[k'..])
  {
    HoldsLater(s, h, k, early, late);
    k' := PruneHolds(s, h, k, late, clock);
    TotalOfRep(Prune(s, late));
  }

  /** The state of affairs after a query at `t`. */
  lemma AfterQuery(ops: seq<Op>, t: int) returns (k: nat)
    requires ClockOk(ops) && Clock(ops) <= t
    ensures Pruned(History(ops), k, t - WINDOW, t) && TotalAt(ops, t) == Sum(History(ops)[k..])
  {
    k := TrackerHoldsSuffix(ops);
    HistoryIsOk(ops);
    k := QueryPrunes(Final(ops), History(ops), k, Clock(ops) - WINDOW, Clock(ops), t - WINDOW, t);
  }

  /** For every history with a clock that never runs backwards, the reported total is the sum of
      exactly those entries whose minute holds nothing older than 24 hours. */
  lemma TotalIsSumOfUnexpired(ops: seq<Op>, t: int)
    requires ClockOk(ops) && Clock(ops) <= t
    ensures TotalAt(ops, t) == SumUnexpired(History(ops), |History(ops)|, t - WINDOW)
  {
    var k := AfterQuery(ops, t);
    SumOfKept(History(ops), k, t - WINDOW, t);
  }

  lemma SumIsWithinAMinute(h: seq<Entry>, k: nat, cutoff: int, clock: int)
    requires Pruned(h, k, cutoff, clock)
    ensures SpentSince(h, cutoff + MINUTE) <= Sum(h[k..]) <= SpentSince(h, cutoff)
  {
    forall i | 0 <= i < |h|
      ensures i >= k ==> h[i].at >= cutoff
      ensures i < k ==> h[i].at < cutoff + MINUTE
    {
      KeptIffUnexpired(h, k, cutoff, clock, i);
    }
    SuffixAtMost(h, k, cutoff);
    SuffixAtLeast(h, k, cutoff + MINUTE);
  }

  /** The total is at most the exact 24-hour sum, and at least the exact sum of the window shortened
      by one minute. */
  lemma TotalIsWithinAMinute(ops: seq<Op>, t: int)
    requires ClockOk(ops) && Clock(ops) <= t
    ensures SpentSince(History(ops), t - WINDOW + MINUTE) <= TotalAt(ops, t) <= SpentSince(History(ops), t - WINDOW)
  {
    var k := AfterQuery(ops, t);
    SumIsWithinAMinute(History(ops), k, t - WINDOW, t);
  }

  /** The total is exact if and only if no entry of the last 24 hours shares its minute with an older
      one. */
  lemma TotalIsExactIff(ops: seq<Op>, t: int)
    requires ClockOk(ops) && Clock(ops) <= t
    ensures TotalAt(ops, t) == SpentSince(History(ops), t - WINDOW)
            <==> NoMinuteIsShared(History(ops), t - WINDOW)
  {
    var k := AfterQuery(ops, t);
    SumIsExactIff(History(ops), k, t - WINDOW, t, TotalAt(ops, t));
  }

  lemma TwoRecords(t1: int, a: real, t2: int, b: real)
    requires 0 <= t1 <= t2 && a > 0.0 && b > 0.0
    ensures var ops := [Record(t1, a), Record(t2, b)];
            ClockOk(ops) && Clock(ops) == t2 && History(ops) == [Entry(t1, a), Entry(t2, b)]
  {
    var one, ops := [Record(t1, a)], [Record(t1, a), Record(t2, b)];
    assert one[..0] == [] && ops[..1] == one;
    assert ClockOk(one[..0]) && Clock(one[..0]) == 0 && History(one[..0]) == [];
    assert ClockOk(one) && Clock(one) == t1 && History(one) == [Entry(t1, a)];
  }

  lemma TwoEntries(a: Entry, b: Entry, cutoff: int)
    requires a.at < cutoff <= b.at && BucketKey(a.at) == BucketKey(b.at)
    ensures SumUnexpired([a, b], 2, cutoff) == 0.0 && SpentSince([a, b], cutoff) == b.amount
  {
    var h := [a, b];
    assert h[0].at < cutoff && Expired(h, 0, cutoff) && Expired(h, 1, cutoff);
    assert 0.0 == SumUnexpired(h, 0, cutoff) == SumUnexpired(h, 1, cutoff);
    assert h[..1] == [a] && h[..1][..0] == [];
    assert SpentSince(h[..1], cutoff) == 0.0;
  }

  /** Two times share a bucket if and only if they lie in the same minute, and 24 hours are 1440 of them. */
  lemma BucketIsMinute(a: int, b: int)
    requires a >= 0 && b >= 0
    ensures BucketKey(a) == BucketKey(b) <==> a / 60_000_000_000 == b / 60_000_000_000
    ensures MINUTE == 60_000_000_000 && WINDOW == 1440 * MINUTE
  {
  }

  /** The total is inexact at times: of two payments in one minute both are forgotten as soon as the
      first has expired, although the second still counts. */
  lemma SharedMinuteIsForgotten(t1: int, a: real, t2: int, b: real)
    requires 0 <= t1 < t2 && BucketKey(t1) == BucketKey(t2) && a > 0.0 && b > 0.0
    ensures var ops, t := [Record(t1, a), Record(t2, b)], t1 + WINDOW + 1;
            && ClockOk(ops) && Clock(ops) <= t
            && TotalAt(ops, t) == 0.0 && SpentSince(History(ops), t - WINDOW) == b
  {
    TwoRecords(t1, a, t2, b);
    TwoEntries(Entry(t1, a), Entry(t2, b), t1 + 1);
    KeysFollowTime(t1, t2);
    TotalIsSumOfUnexpired([Record(t1, a), Record(t2, b)], t1 + WINDOW + 1);
  }

  /* RetryAfter is tight */

  /** The instant RetryAfter announces: when the first entry of the oldest bucket is 24 hours old. */
  ghost function RetryAt(s: Tracker): int
    requires Rep(s) && s.sortedKeys != []
  {
    s.buckets[s.sortedKeys[0]].oldestAt + WINDOW
  }

  lemma {:induction false} PruneNeverAdds(s: Tracker, cutoff: int)
    requires Rep(s)
    ensures Prune(s, cutoff).total <= s.total
    decreases |s.sortedKeys|
  {
    if s.sortedKeys != [] && s.buckets[s.sortedKeys[0]].oldestAt < cutoff {
      DropFirstKeepsRep(s);
      var k := s.sortedKeys[0];
      assert BucketOk(k, s.buckets[k]);
      PositiveSum(s.buckets[k].entries);
      PruneNeverAdds(DropFirst(s), cutoff);
    }
  }

  lemma {:induction false} PositiveSum(es: seq<Entry>)
    requires forall i :: 0 <= i < |es| ==> es[i].amount > 0.0
    ensures Sum(es) >= 0.0 && (es != [] ==> Sum(es) > 0.0)
  {
    if es != [] { PositiveSum(es[..|es| - 1]); }
  }

  lemma DropFirstLowersTotal(s: Tracker)
    requires Rep(s) && s.sortedKeys != []
    ensures Rep(DropFirst(s)) && DropFirst(s).total < s.total
  {
    var k := s.sortedKeys[0];
    assert BucketOk(k, s.buckets[k]);
    PositiveSum(s.buckets[k].entries);
    DropFirstKeepsRep(s);
  }

  /** With no new record, pruning up to the announced instant removes nothing; at any later time the
      total strictly falls. */
  lemma RetryAfterIsTight(s: Tracker, later: int)
    requires Rep(s) && s.sortedKeys != []
    ensures later <= RetryAt(s) ==> Prune(s, later - WINDOW) == s
    ensures later > RetryAt(s) ==> Prune(s, later - WINDOW).total < s.total
  {
    if later > RetryAt(s) {
      DropFirstLowersTotal(s);
      PruneNeverAdds(DropFirst(s), later - WINDOW);
      assert Prune(s, later - WINDOW) == Prune(DropFirst(s), later - WINDOW);
    }
  }
}
