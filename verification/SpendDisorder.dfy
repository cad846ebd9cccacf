/**
 The bucketed tracker when records enter in another order than they read the clock, as happens when two
 of them wait for the lock. Clock readings are nonnegative and otherwise arbitrary.
 */
module SpendDisorder {
  import opened SpendBuckets

  /* What the buckets still hold of the entries at or after a moment */

  function LiveBucket(b: Bucket, from: int): Bucket { b.(sum := SpentSince(b.entries, from)) }

  ghost function LiveMap(m: map<int, Bucket>, from: int): map<int, Bucket> {
    map k | k in m :: LiveBucket(m[k], from)
  }

  ghost function LiveSum(m: map<int, Bucket>, keys: seq<int>, from: int): real
    requires Covers(m, keys)
  {
    SumOf(LiveMap(m, from), keys)
  }

  ghost predicate NoNegativeTimes(b: Bucket) { forall i :: 0 <= i < |b.entries| ==> b.entries[i].at >= 0 }

  /** A tracker that has seen only nonnegative clock readings. */
  ghost predicate Sound(s: Tracker) {
    Rep(s) && forall k {:trigger NoNegativeTimes(s.buckets[k])} :: k in s.buckets ==> NoNegativeTimes(s.buckets[k])
  }

  lemma {:induction false} SpentSinceIsPart(es: seq<Entry>, from: int)
    requires AllPositive(es)
    ensures 0.0 <= SpentSince(es, from) <= Sum(es)
    ensures (forall i :: 0 <= i < |es| ==> es[i].at >= from) ==> SpentSince(es, from) == Sum(es)
    ensures (forall i :: 0 <= i < |es| ==> es[i].at < from) ==> SpentSince(es, from) == 0.0
  {
    if es != [] { SpentSinceIsPart(es[..|es| - 1], from); }
  }

  /** The entries of a bucket lie within one minute of its first one. */
  lemma WithinAMinute(k: int, b: Bucket, i: nat)
    requires BucketOk(k, b) && NoNegativeTimes(b) && i < |b.entries|
    ensures b.oldestAt - MINUTE < b.entries[i].at < b.oldestAt + MINUTE
  {
    var first := b.entries[0].at;
    KeysFollowTime(if b.entries[i].at < first then b.entries[i].at else first,
                   if b.entries[i].at < first then first else b.entries[i].at);
  }

  /** What a bucket holds since `from`, whose first entry is on one side of `from` by a minute. */
  lemma LiveBucketBounds(k: int, b: Bucket, from: int)
    requires BucketOk(k, b) && NoNegativeTimes(b)
    ensures 0.0 <= SpentSince(b.entries, from) <= b.sum
    ensures b.oldestAt + MINUTE <= from ==> SpentSince(b.entries, from) == 0.0
    ensures b.oldestAt - MINUTE >= from ==> SpentSince(b.entries, from) == b.sum
  {
    forall i | 0 <= i < |b.entries|
      ensures b.oldestAt - MINUTE < b.entries[i].at < b.oldestAt + MINUTE
    {
      WithinAMinute(k, b, i);
    }
    SpentSinceIsPart(b.entries, from);
  }

  /* Dropping and pruning */

  lemma DropFirstSound(s: Tracker)
    requires Sound(s) && s.sortedKeys != []
    ensures Sound(DropFirst(s))
  {
    var k := s.sortedKeys[0];
    DropFirstKeepsRep(s);
    forall j | j in s.buckets - {k}
      ensures NoNegativeTimes((s.buckets - {k})[j])
    {
      assert NoNegativeTimes(s.buckets[j]);
    }
  }

  lemma DropFirstLive(s: Tracker, from: int)
    requires Increasing(s.sortedKeys) && Covers(s.buckets, s.sortedKeys) && s.sortedKeys != []
    requires Covers(DropFirst(s).buckets, DropFirst(s).sortedKeys)
    ensures LiveSum(DropFirst(s).buckets, DropFirst(s).sortedKeys, from)
            == LiveSum(s.buckets, s.sortedKeys, from) - SpentSince(s.buckets[s.sortedKeys[0]].entries, from)
  {
    SumOfAgrees(LiveMap(DropFirst(s).buckets, from), LiveMap(s.buckets, from), s.sortedKeys[1..]);
  }

  lemma FirstBucketBounds(s: Tracker, from: int)
    requires Sound(s) && s.sortedKeys != []
    ensures var b := s.buckets[s.sortedKeys[0]];
            && 0.0 <= SpentSince(b.entries, from)
            && (b.oldestAt + MINUTE <= from ==> SpentSince(b.entries, from) == 0.0)
  {
    var k := s.sortedKeys[0];
    assert BucketOk(k, s.buckets[k]) && NoNegativeTimes(s.buckets[k]);
    LiveBucketBounds(k, s.buckets[k], from);
  }

  /** Pruning removes only what is older than the cutoff and a minute. */
  lemma {:induction false} PruneLive(s: Tracker, cutoff: int, from: int)
    requires Sound(s)
    ensures var s' := Prune(s, cutoff);
            && Sound(s')
            && LiveSum(s'.buckets, s'.sortedKeys, from) <= LiveSum(s.buckets, s.sortedKeys, from)
            && (from >= cutoff + MINUTE ==>
                  LiveSum(s'.buckets, s'.sortedKeys, from) == LiveSum(s.buckets, s.sortedKeys, from))
            && (s'.sortedKeys != [] ==> s'.buckets[s'.sortedKeys[0]].oldestAt >= cutoff)
    decreases |s.sortedKeys|
  {
    if s.sortedKeys != [] && s.buckets[s.sortedKeys[0]].oldestAt < cutoff {
      DropFirstSound(s);
      DropFirstLive(s, from);
      FirstBucketBounds(s, from);
      PruneLive(DropFirst(s), cutoff, from);
    }
  }

  /* Adding */

  lemma OneEntryMore(b: Bucket, e: Entry, from: int)
    ensures SpentSince(b.entries + [e], from) == SpentSince(b.entries, from) + if e.at >= from then e.amount else 0.0
  {
    assert (b.entries + [e])[..|b.entries|] == b.entries;
  }

  lemma AddToOldLive(s: Tracker, now: int, amount: real, from: int)
    requires Rep(s) && amount > 0.0 && BucketKey(now) in s.buckets && Covers(Add(s, now, amount).buckets, s.sortedKeys)
    ensures LiveSum(Add(s, now, amount).buckets, s.sortedKeys, from)
            == LiveSum(s.buckets, s.sortedKeys, from) + if now >= from then amount else 0.0
  {
    var k := BucketKey(now);
    OneEntryMore(s.buckets[k], Entry(now, amount), from);
    RaiseOne(LiveMap(s.buckets, from), LiveMap(Add(s, now, amount).buckets, from), s.sortedKeys, k,
             if now >= from then amount else 0.0);
  }

  lemma AddToNewLive(s: Tracker, now: int, amount: real, from: int)
    requires Rep(s) && amount > 0.0 && BucketKey(now) !in s.buckets
    requires Covers(Add(s, now, amount).buckets, InsertKey(s.sortedKeys, BucketKey(now)))
    ensures LiveSum(Add(s, now, amount).buckets, InsertKey(s.sortedKeys, BucketKey(now)), from)
            == LiveSum(s.buckets, s.sortedKeys, from) + if now >= from then amount else 0.0
  {
    var k := BucketKey(now);
    var m := LiveMap(Add(s, now, amount).buckets, from);
    OneEntryMore(Bucket([], 0.0, now), Entry(now, amount), from);
    assert m[k].sum == if now >= from then amount else 0.0;
    InsertKeyAddsOnce(m, s.sortedKeys, k);
    SumOfAgrees(LiveMap(s.buckets, from), m, s.sortedKeys);
  }

  lemma AddLive(s: Tracker, now: int, amount: real, from: int)
    requires Sound(s) && amount > 0.0 && now >= 0
    ensures var s' := Add(s, now, amount);
            && Sound(s')
            && LiveSum(s'.buckets, s'.sortedKeys, from)
               == LiveSum(s.buckets, s.sortedKeys, from) + if now >= from then amount else 0.0
  {
    var s' := Add(s, now, amount);
    AddKeepsRep(s, now, amount);
    forall k | k in s'.buckets
      ensures NoNegativeTimes(s'.buckets[k])
    {
      if k in s.buckets { assert NoNegativeTimes(s.buckets[k]); }
    }
    if BucketKey(now) in s.buckets {
      AddToOldLive(s, now, amount, from);
    } else {
      AddToNewLive(s, now, amount, from);
    }
  }

  /* Runs */

  function Max(a: int, b: int): int { if a < b then b else a }

  /** The latest clock reading. */
  function Latest(ops: seq<Op>): int { if ops == [] then 0 else Max(Latest(ops[..|ops| - 1]), ops[|ops| - 1].t) }

  ghost predicate NonNegative(ops: seq<Op>) { forall i :: 0 <= i < |ops| ==> ops[i].t >= 0 }

  /** The buckets hold no more than what was recorded since `from`, and all of it when `from` is at least
      a minute inside the last 24 hours. */
  ghost predicate Within(s: Tracker, h: seq<Entry>, latest: int, from: int) {
    && Sound(s)
    && LiveSum(s.buckets, s.sortedKeys, from) <= SpentSince(h, from)
    && (from >= latest - WINDOW + MINUTE ==> LiveSum(s.buckets, s.sortedKeys, from) == SpentSince(h, from))
  }

  lemma LaterWithin(s: Tracker, h: seq<Entry>, latest: int, from: int, later: int)
    requires Within(s, h, latest, from) && latest <= later
    ensures Within(s, h, later, from)
  {
  }

  lemma PruneWithin(s: Tracker, h: seq<Entry>, latest: int, from: int, now: int, s': Tracker, later: int)
    requires Within(s, h, latest, from) && s' == Prune(s, now - WINDOW) && later == Max(latest, now)
    ensures Within(s', h, later, from)
  {
    PruneLive(s, now - WINDOW, from);
  }

  lemma AddWithin(s: Tracker, h: seq<Entry>, latest: int, from: int, e: Entry, s': Tracker, h': seq<Entry>)
    requires Within(s, h, latest, from) && e.at >= 0 && e.amount > 0.0
    requires s' == Add(s, e.at, e.amount) && h' == h + [e]
    ensures Within(s', h', latest, from)
  {
    AddLive(s, e.at, e.amount, from);
    assert (h + [e])[..|h|] == h;
  }

  lemma RecordWithin(s: Tracker, h: seq<Entry>, latest: int, from: int, e: Entry,
                     s': Tracker, h': seq<Entry>, later: int)
    requires Within(s, h, latest, from) && e.at >= 0 && e.amount > 0.0
    requires s' == Exec(s, Record(e.at, e.amount)) && h' == h + [e] && later == Max(latest, e.at)
    ensures Within(s', h', later, from)
  {
    var pruned := Prune(s, e.at - WINDOW);
    PruneWithin(s, h, latest, from, e.at, pruned, later);
    AddWithin(pruned, h, later, from, e, s', h');
  }

  lemma NextLive(s: Tracker, h: seq<Entry>, latest: int, from: int, o: Op, s': Tracker, h': seq<Entry>, later: int)
    requires Within(s, h, latest, from) && o.t >= 0
    requires s' == Exec(s, o) && h' == h + Logged(o) && later == Max(latest, o.t)
    ensures Within(s', h', later, from)
  {
    if o.Record? && o.amount > 0.0 {
      RecordWithin(s, h, latest, from, Entry(o.t, o.amount), s', h', later);
    } else {
      assert h' == h;
      if Prunes(o) { PruneWithin(s, h, latest, from, o.t, s', later); } else { LaterWithin(s, h, latest, from, later); }
    }
  }

  lemma {:induction false} RunLive(ops: seq<Op>, from: int)
    requires NonNegative(ops)
    ensures Within(Final(ops), History(ops), Latest(ops), from)
    decreases |ops|
  {
    if ops != [] {
      var front := ops[..|ops| - 1];
      RunUnfolds(ops);
      RunLive(front, from);
      NextLive(Final(front), History(front), Latest(front), from, ops[|ops| - 1],
               Final(ops), History(ops), Latest(ops));
    }
  }

  /* The total */

  ghost predicate NoneBefore(s: Tracker, keys: seq<int>, from: int)
    requires Covers(s.buckets, keys)
  {
    forall i :: 0 <= i < |keys| ==> s.buckets[keys[i]].oldestAt - MINUTE >= from
  }

  /** With the first bucket alive, so are all: the others are of later minutes. */
  lemma AllBucketsAlive(s: Tracker, cutoff: int)
    requires Sound(s) && s.sortedKeys != [] && s.buckets[s.sortedKeys[0]].oldestAt >= cutoff
    ensures NoneBefore(s, s.sortedKeys, cutoff - MINUTE)
  {
    var a := s.sortedKeys[0];
    assert BucketOk(a, s.buckets[a]) && NoNegativeTimes(s.buckets[a]);
    forall i | 0 <= i < |s.sortedKeys|
      ensures s.buckets[s.sortedKeys[i]].oldestAt >= cutoff
    {
      var b := s.sortedKeys[i];
      assert BucketOk(b, s.buckets[b]) && NoNegativeTimes(s.buckets[b]);
      if s.buckets[b].oldestAt < s.buckets[a].oldestAt {
        KeysFollowTime(s.buckets[b].oldestAt, s.buckets[a].oldestAt);
      }
    }
  }

  lemma {:induction false} TotalAgainstLive(s: Tracker, keys: seq<int>, from: int)
    requires Sound(s) && Covers(s.buckets, keys)
    ensures LiveSum(s.buckets, keys, from) <= SumOf(s.buckets, keys)
    ensures NoneBefore(s, keys, from) ==> LiveSum(s.buckets, keys, from) == SumOf(s.buckets, keys)
  {
    if keys != [] {
      var k := keys[0];
      assert BucketOk(k, s.buckets[k]) && NoNegativeTimes(s.buckets[k]);
      LiveBucketBounds(k, s.buckets[k], from);
      TotalAgainstLive(s, keys[1..], from);
    }
  }

  lemma PrunedTotalAtMost(s: Tracker, cutoff: int)
    requires Sound(s)
    ensures Prune(s, cutoff).total <= LiveSum(s.buckets, s.sortedKeys, cutoff - MINUTE)
  {
    var s' := Prune(s, cutoff);
    PruneLive(s, cutoff, cutoff - MINUTE);
    if s'.sortedKeys != [] { AllBucketsAlive(s', cutoff); }
    TotalAgainstLive(s', s'.sortedKeys, cutoff - MINUTE);
  }

  lemma PrunedTotalAtLeast(s: Tracker, cutoff: int, from: int)
    requires Sound(s) && from >= cutoff + MINUTE
    ensures Prune(s, cutoff).total >= LiveSum(s.buckets, s.sortedKeys, from)
  {
    var s' := Prune(s, cutoff);
    PruneLive(s, cutoff, from);
    TotalAgainstLive(s', s'.sortedKeys, from);
  }

  /** In whatever order records enter: the total is at most the exact sum of the last 24 hours and a minute,
      and at least the exact sum of the last 24 hours less a minute, counted back from the latest
      clock reading. */
  lemma TotalInAnyOrder(ops: seq<Op>, t: int)
    requires NonNegative(ops) && t >= 0
    ensures TotalAt(ops, t) <= SpentSince(History(ops), t - WINDOW - MINUTE)
    ensures TotalAt(ops, t) >= SpentSince(History(ops), Max(Latest(ops), t) - WINDOW + MINUTE)
  {
    RunLive(ops, t - WINDOW - MINUTE);
    PrunedTotalAtMost(Final(ops), t - WINDOW);
    var from := Max(Latest(ops), t) - WINDOW + MINUTE;
    RunLive(ops, from);
    PrunedTotalAtLeast(Final(ops), t - WINDOW, from);
  }

  /* The order matters */

  function OneBucket(k: int, b: Bucket): Tracker { Tracker(map[k := b], [k], b.sum) }

  lemma FirstRecord(t: int, b: real)
    requires b > 0.0
    ensures Exec(EMPTY, Record(t, b)) == OneBucket(BucketKey(t), Bucket([Entry(t, b)], b, t))
  {
    assert Prune(EMPTY, t - WINDOW) == EMPTY;
    assert [] + [Entry(t, b)] == [Entry(t, b)] && [] + [BucketKey(t)] == [BucketKey(t)];
  }

  lemma SecondRecord(t1: int, a: real, t2: int, b: real, s: Tracker)
    requires t1 < t2 && BucketKey(t1) == BucketKey(t2) && a > 0.0 && b > 0.0
    requires s == OneBucket(BucketKey(t2), Bucket([Entry(t2, b)], b, t2)) && Rep(s)
    ensures Exec(s, Record(t1, a)) == OneBucket(BucketKey(t2), Bucket([Entry(t2, b), Entry(t1, a)], b + a, t2))
  {
    var k := BucketKey(t2);
    assert Prune(s, t1 - WINDOW) == s;
    assert [Entry(t2, b)] + [Entry(t1, a)] == [Entry(t2, b), Entry(t1, a)];
    assert Add(s, t1, a).buckets == map[k := Bucket([Entry(t2, b), Entry(t1, a)], b + a, t2)];
  }

  lemma TwoDisordered(t1: int, a: real, t2: int, b: real)
    requires 0 <= t1 < t2 && BucketKey(t1) == BucketKey(t2) && a > 0.0 && b > 0.0
    ensures var ops := [Record(t2, b), Record(t1, a)];
            && Final(ops) == OneBucket(BucketKey(t2), Bucket([Entry(t2, b), Entry(t1, a)], b + a, t2))
            && History(ops) == [Entry(t2, b), Entry(t1, a)]
  {
    var one, ops := [Record(t2, b)], [Record(t2, b), Record(t1, a)];
    assert one[..0] == [] && ops[..1] == one;
    assert History([]) == [] && Final([]) == EMPTY;
    RunUnfolds(one);
    FirstRecord(t2, b);
    RunUnfolds(ops);
    SecondRecord(t1, a, t2, b, Final(one));
  }

  /** When a record enters after a later one of the same minute, it is counted for longer than 24
      hours: the total then exceeds the exact sum. */
  lemma LateEntryOutlivesWindow(t1: int, a: real, t2: int, b: real)
    requires 0 <= t1 < t2 && BucketKey(t1) == BucketKey(t2) && a > 0.0 && b > 0.0
    ensures var ops, t := [Record(t2, b), Record(t1, a)], t1 + WINDOW + 1;
            TotalAt(ops, t) == a + b && SpentSince(History(ops), t - WINDOW) == b
  {
    var h := [Entry(t2, b), Entry(t1, a)];
    TwoDisordered(t1, a, t2, b);
    assert h[..1] == [h[0]] && h[..1][..0] == [];
    assert SpentSince(h[..1], t1 + 1) == b;
  }
}
