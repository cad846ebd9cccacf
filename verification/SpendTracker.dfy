/** The spend tracker object, its pruning loop proved against SpendBuckets.Prune. */
module SpendTracker {
  import opened SpendBuckets

  function KeySet(keys: seq<int>): set<int> { set k | k in keys }

  /** What is left when the first `n` buckets are dropped. */
  ghost function Dropped(s: Tracker, n: nat): Tracker
    requires Covers(s.buckets, s.sortedKeys) && n <= |s.sortedKeys|
  {
    Tracker(s.buckets - KeySet(s.sortedKeys[..n]), s.sortedKeys[n..], s.total - SumOf(s.buckets, s.sortedKeys[..n]))
  }

  lemma SumOneMore(m: map<int, Bucket>, keys: seq<int>, n: nat)
    requires Covers(m, keys) && n < |keys|
    ensures SumOf(m, keys[..n + 1]) == SumOf(m, keys[..n]) + m[keys[n]].sum
  {
    var last := [keys[n]];
    assert keys[..n + 1] == keys[..n] + last;
    SumOfConcat(m, keys[..n], last);
    assert last[1..] == [];
  }

  lemma KeysLeft(s: Tracker, n: nat)
    requires Covers(s.buckets, s.sortedKeys) && Increasing(s.sortedKeys) && n <= |s.sortedKeys|
    ensures Covers(Dropped(s, n).buckets, s.sortedKeys[n..]) && Increasing(s.sortedKeys[n..])
  {
    forall i | 0 <= i < |s.sortedKeys[n..]|
      ensures s.sortedKeys[n..][i] in Dropped(s, n).buckets
    {
      assert s.sortedKeys[n + i] !in s.sortedKeys[..n];
    }
  }

  /** One iteration of the pruning loop. */
  lemma DropOneMore(s: Tracker, n: nat)
    requires Covers(s.buckets, s.sortedKeys) && Increasing(s.sortedKeys) && n < |s.sortedKeys|
    ensures s.sortedKeys[n] in Dropped(s, n).buckets
    ensures Dropped(s, n).buckets[s.sortedKeys[n]] == s.buckets[s.sortedKeys[n]]
    ensures Dropped(s, n).sortedKeys == [s.sortedKeys[n]] + s.sortedKeys[n + 1..]
    ensures Dropped(s, n + 1) == DropFirst(Dropped(s, n))
    ensures Dropped(s, n + 1) == Tracker(Dropped(s, n).buckets - {s.sortedKeys[n]}, s.sortedKeys[n + 1..],
                                         Dropped(s, n).total - s.buckets[s.sortedKeys[n]].sum)
  {
    var k := s.sortedKeys[n];
    KeysLeft(s, n);
    assert s.sortedKeys[n..][0] == k;
    SumOneMore(s.buckets, s.sortedKeys, n);
    assert s.sortedKeys[..n + 1] == s.sortedKeys[..n] + [k];
    assert KeySet(s.sortedKeys[..n + 1]) == KeySet(s.sortedKeys[..n]) + {k};
    assert s.buckets - KeySet(s.sortedKeys[..n + 1]) == s.buckets - KeySet(s.sortedKeys[..n]) - {k};
  }

  ghost predicate FirstExpired(s: Tracker, n: nat, cutoff: int)
    requires Covers(s.buckets, s.sortedKeys) && n <= |s.sortedKeys|
  {
    forall i :: 0 <= i < n ==> s.buckets[s.sortedKeys[i]].oldestAt < cutoff
  }

  lemma PruneUnfolds(s: Tracker, rest: Tracker, cutoff: int)
    requires Covers(s.buckets, s.sortedKeys) && Increasing(s.sortedKeys) && s.sortedKeys != []
    requires rest == DropFirst(s) && Covers(rest.buckets, rest.sortedKeys) && Increasing(rest.sortedKeys)
    ensures s.buckets[s.sortedKeys[0]].oldestAt < cutoff ==> Prune(s, cutoff) == Prune(rest, cutoff)
  {
  }

  lemma {:induction false} PruneContinues(s: Tracker, n: nat, cutoff: int)
    requires Covers(s.buckets, s.sortedKeys) && Increasing(s.sortedKeys) && n <= |s.sortedKeys|
    requires FirstExpired(s, n, cutoff)
    ensures Covers(Dropped(s, n).buckets, s.sortedKeys[n..]) && Increasing(s.sortedKeys[n..])
    ensures Prune(s, cutoff) == Prune(Dropped(s, n), cutoff)
    decreases n
  {
    KeysLeft(s, n);
    if n == 0 {
      assert Dropped(s, 0) == s by { assert s.sortedKeys[..0] == [] && s.buckets - {} == s.buckets; }
    } else {
      PruneContinues(s, n - 1, cutoff);
      DropOneMore(s, n - 1);
      PruneUnfolds(Dropped(s, n - 1), Dropped(s, n), cutoff);
    }
  }

  /** Where the pruning loop stops. */
  lemma PruneEnds(s: Tracker, n: nat, rest: Tracker, cutoff: int)
    requires Rep(s) && n <= |s.sortedKeys| && FirstExpired(s, n, cutoff) && rest == Dropped(s, n)
    requires n < |s.sortedKeys| ==> s.buckets[s.sortedKeys[n]].oldestAt >= cutoff
    ensures rest == Prune(s, cutoff)
  {
    PruneContinues(s, n, cutoff);
    if n < |s.sortedKeys| { DropOneMore(s, n); }
  }

  /** A bucket's first entry is the one that decides. */
  lemma FirstEntryDecides(s: Tracker, k: int)
    requires Rep(s) && k in s.buckets
    ensures |s.buckets[k].entries| > 0 && s.buckets[k].oldestAt == s.buckets[k].entries[0].at
  {
    assert BucketOk(k, s.buckets[k]);
  }

  lemma PrunedIsRep(s: Tracker, cutoff: int, s': Tracker)
    requires Rep(s) && s' == Prune(s, cutoff)
    ensures Rep(s')
  {
    PruneKeepsRep(s, cutoff);
  }

  class SpendTracker {
    const budget: real
    var buckets: map<int, Bucket>
    var sortedKeys: seq<int>
    var total: real

    ghost function View(): Tracker
      reads this
    {
      Tracker(buckets, sortedKeys, total)
    }

    ghost predicate Valid()
      reads this
    {
      Rep(View())
    }

    constructor (budget: real)
      ensures Valid() && View() == EMPTY && this.budget == budget
    {
      this.budget := budget;
      buckets, sortedKeys, total := map[], [], 0.0;
    }

    /** No tracker exists without a positive budget. */
    static method NewSpendTracker(dailyBudgetUsd: real) returns (st: SpendTracker?)
      ensures st == null <==> dailyBudgetUsd <= 0.0
      ensures st != null ==> fresh(st) && st.Valid() && st.View() == EMPTY && st.budget == dailyBudgetUsd
    {
      if dailyBudgetUsd <= 0.0 {
        return null;
      }
      st := new SpendTracker(dailyBudgetUsd);
    }

    /** The branch that expires part of a bucket is unreachable, under any clock: a bucket whose
        first entry has expired has been dropped whole before. */
    method PruneLocked(now: int)
      requires Valid()
      modifies this
      ensures Valid() && View() == Prune(old(View()), now - WINDOW)
    {
      ghost var was := View();
      if |buckets| == 0 {
        return;
      }
      PruneLoop(now);
      PrunedIsRep(was, now - WINDOW, View());
    }

    method PruneLoop(now: int)
      requires Valid()
      modifies this
      ensures View() == Prune(old(View()), now - WINDOW)
    {
      ghost var was := View();
      var cutoff := now - WINDOW;
      var i := 0;
      assert Dropped(was, 0) == was by { assert was.sortedKeys[..0] == [] && was.buckets - {} == was.buckets; }
      while i < |sortedKeys|
        invariant i <= |sortedKeys| && sortedKeys == was.sortedKeys
        invariant buckets == Dropped(was, i).buckets && total == Dropped(was, i).total
        invariant FirstExpired(was, i, cutoff)
      {
        DropOneMore(was, i);
        var bk := sortedKeys[i];
        FirstEntryDecides(was, bk);
        var b := buckets[bk];
        if b.oldestAt < cutoff {
          total := total - b.sum;
          buckets := buckets - {bk};
          i := i + 1;
          continue;
        }
        var j := CountOlder(b.entries, cutoff);
        if j > 0 {
          assert false;
        }
        break;
      }
      PruneEnds(was, i, Dropped(was, i), cutoff);
      if i > 0 {
        sortedKeys := sortedKeys[i..];
      }
    }

    /** The number of leading entries older than `cutoff`. */
    static method CountOlder(es: seq<Entry>, cutoff: int) returns (j: nat)
      ensures j <= |es| && (forall i :: 0 <= i < j ==> es[i].at < cutoff)
      ensures j < |es| ==> es[j].at >= cutoff
    {
      j := 0;
      while j < |es| && es[j].at < cutoff
        invariant j <= |es| && forall i :: 0 <= i < j ==> es[i].at < cutoff
      {
        j := j + 1;
      }
    }

    method WouldExceed(amount: real, now: int) returns (over: bool)
      requires Valid()
      modifies this
      ensures Valid() && View() == Exec(old(View()), Op.WouldExceed(now, amount))
      ensures over <==> amount > 0.0 && Prune(old(View()), now - WINDOW).total + amount > budget
    {
      if amount <= 0.0 {
        return false;
      }
      PruneLocked(now);
      over := total + amount > budget;
    }

    method Record(amount: real, now: int)
      requires Valid()
      modifies this
      ensures Valid() && View() == Exec(old(View()), SpendBuckets.Record(now, amount))
    {
      if amount <= 0.0 {
        return;
      }
      ghost var was := View();
      PruneLocked(now);
      assert View() == Prune(was, now - WINDOW);
      AddEntry(amount, now);
    }

    method AddEntry(amount: real, now: int)
      requires Valid() && amount > 0.0
      modifies this
      ensures Valid() && View() == Add(old(View()), now, amount)
    {
      AddKeepsRep(View(), now, amount);
      var bk := BucketKey(now);
      var isNew := bk !in buckets;
      var b := Bucket([], 0.0, now);
      if isNew {
        sortedKeys := InsertKey(sortedKeys, bk);
      } else {
        b := buckets[bk];
      }
      buckets := buckets[bk := Bucket(b.entries + [Entry(now, amount)], b.sum + amount, b.oldestAt)];
      total := total + amount;
    }

    method CurrentSpend(now: int) returns (spend: real)
      requires Valid()
      modifies this
      ensures Valid() && View() == Exec(old(View()), Query(now)) && spend == View().total
    {
      PruneLocked(now);
      spend := total;
    }

    /** Time from the second clock reading to the announced instant, never negative. */
    method RetryAfter(now: int, now2: int) returns (d: nat)
      requires Valid() && now <= now2
      modifies this
      ensures Valid() && View() == Exec(old(View()), Query(now))
      ensures if sortedKeys == [] then d == 0
              else if now2 <= RetryAt(View()) then now2 + d == RetryAt(View())
              else d == 0
    {
      PruneLocked(now);
      if |sortedKeys| == 0 {
        return 0;
      }
      var reset := buckets[sortedKeys[0]].oldestAt + WINDOW;
      d := if reset - now2 < 0 then 0 else reset - now2;
    }
  }
}
