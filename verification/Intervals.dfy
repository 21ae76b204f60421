/**
 * Interval queues of connections.h, and what they stand for: the coalescing of a
 * non-decreasing sequence of contact times into maximal runs.
 */
module Intervals {
  import opened Sequences

  const TIMEOUT := 120

  /** A pair of time points, both included. */
  datatype Interval = Interval(first: int, second: int)

  predicate InBounds(timestamp: int, interval: Interval) {
    timestamp >= interval.first && timestamp <= interval.second
  }

  /** add_connection, and the first interval of a new client. */
  function Extended(q: seq<Interval>, timestamp: int): (r: seq<Interval>)
    ensures r != []
  {
    if q != [] && q[|q| - 1].second >= timestamp then
      q[|q| - 1 := Interval(q[|q| - 1].first, timestamp + TIMEOUT)]
    else q + [Interval(timestamp, timestamp + TIMEOUT)]
  }

  /** The queue after the expired intervals have been popped from its front. */
  function Purged(q: seq<Interval>, timestamp: int): seq<Interval> {
    if q != [] && q[0].second < timestamp then Purged(q[1..], timestamp) else q
  }

  /** The test get_clients makes, on the front of the purged queue only. */
  predicate Hit(q: seq<Interval>, timestamp: int) {
    q != [] && InBounds(timestamp, q[0])
  }

  /** Where the maximal run that starts at i ends: each time at most TIMEOUT after the one before. */
  function RunEnd(times: seq<int>, i: nat): (j: nat)
    requires i < |times|
    ensures i < j <= |times|
    decreases |times| - i
  {
    if i + 1 < |times| && times[i + 1] <= times[i] + TIMEOUT then RunEnd(times, i + 1) else i + 1
  }

  /** One interval for each maximal run from i on: from its first time to TIMEOUT after its last. */
  function Coalesced(times: seq<int>, i: nat): (q: seq<Interval>)
    requires i <= |times|
    decreases |times| - i
  {
    if i == |times| then []
    else [Interval(times[i], times[RunEnd(times, i) - 1] + TIMEOUT)] + Coalesced(times, RunEnd(times, i))
  }

  /** Some contact time has its window around the time point. */
  ghost predicate Covered(times: seq<int>, timestamp: int) {
    exists i :: 0 <= i < |times| && times[i] <= timestamp <= times[i] + TIMEOUT
  }

  /** One more time has come. */
  ghost predicate OneMore(times: seq<int>, t: int, all: seq<int>) {
    && |all| == |times| + 1 && all[|times|] == t
    && forall i :: 0 <= i < |times| ==> all[i] == times[i]
  }

  lemma {:induction false} RunEndSnoc(times: seq<int>, t: int, all: seq<int>, i: nat)
    requires OneMore(times, t, all) && i < |times|
    ensures RunEnd(all, i) ==
            if RunEnd(times, i) == |times| && t <= times[|times| - 1] + TIMEOUT then |times| + 1 else RunEnd(times, i)
    decreases |times| - i
  {
    if i + 1 < |times| && times[i + 1] <= times[i] + TIMEOUT {
      RunEndSnoc(times, t, all, i + 1);
    }
  }

  lemma ExtendedActsAtBack(head: Interval, q: seq<Interval>, t: int)
    requires q != []
    ensures Extended([head] + q, t) == [head] + Extended(q, t)
  {
    assert ([head] + q)[|q|] == q[|q| - 1];
  }

  lemma NoneLeft(times: seq<int>, i: nat)
    requires i <= |times|
    ensures Coalesced(times, i) == [] <==> i == |times|
  {
  }

  lemma FirstRun(times: seq<int>, i: nat, j: nat)
    requires i < |times| && RunEnd(times, i) == j
    ensures Coalesced(times, i) == [Interval(times[i], times[j - 1] + TIMEOUT)] + Coalesced(times, j)
  {
  }

  /** A time after the last run is a run of its own; or it lengthens the last run. */
  lemma ExtendedLast(head: Interval, t: int, all: seq<int>, i: nat, j: nat)
    requires i < |all| && j + 1 == |all| && head.first == all[i] && all[j] == t
    requires RunEnd(all, i) == if t <= head.second then j + 1 else j
    requires i < j && head.second == all[j - 1] + TIMEOUT
    ensures Extended([head], t) == Coalesced(all, i)
  {
    NoneLeft(all, j + 1);
    if t <= head.second {
      FirstRun(all, i, j + 1);
    } else {
      FirstRun(all, i, j);
      FirstRun(all, j, j + 1);
    }
  }

  /** Extending the queue on each contact computes the coalescing of all contacts. */
  lemma {:induction false} ExtendedIsCoalesced(times: seq<int>, t: int, all: seq<int>, i: nat)
    requires OneMore(times, t, all) && i <= |times|
    ensures Extended(Coalesced(times, i), t) == Coalesced(all, i)
    decreases |times| - i
  {
    if i == |times| {
      NoneLeft(times, i);
      FirstRun(all, i, i + 1);
      NoneLeft(all, i + 1);
    } else {
      var j := RunEnd(times, i);
      var head := Interval(times[i], times[j - 1] + TIMEOUT);
      RunEndSnoc(times, t, all, i);
      FirstRun(times, i, j);
      NoneLeft(times, j);
      if j < |times| {
        ExtendedIsCoalesced(times, t, all, j);
        ExtendedActsAtBack(head, Coalesced(times, j), t);
        FirstRun(all, i, j);
      } else {
        ExtendedLast(head, t, all, i, j);
      }
    }
  }

  /** No run crosses the gap before k. */
  ghost predicate Boundary(times: seq<int>, k: nat) {
    0 < k < |times| ==> times[k] > times[k - 1] + TIMEOUT
  }

  lemma {:induction false} RunIsMaximal(times: seq<int>, i: nat)
    requires i < |times|
    ensures Boundary(times, RunEnd(times, i))
    ensures forall k :: i < k < |times| && Boundary(times, k) ==> RunEnd(times, i) <= k
    decreases |times| - i
  {
    if i + 1 < |times| && times[i + 1] <= times[i] + TIMEOUT {
      RunIsMaximal(times, i + 1);
    }
  }

  /** A run leaves no hole. */
  lemma {:induction false} RunCovers(times: seq<int>, i: nat, t: int)
    requires i < |times|
    requires times[i] <= t <= times[RunEnd(times, i) - 1] + TIMEOUT
    ensures Covered(times, t)
    decreases |times| - i
  {
    if t > times[i] + TIMEOUT {
      RunCovers(times, i + 1, t);
    }
  }

  /** The front of the queue decides whether a time point is covered, once the expired ones are gone. */
  lemma HitIsCovered(times: seq<int>, k: nat, t: int)
    requires NonDecreasing(times) && k <= |times|
    requires forall i :: 0 <= i < k ==> times[i] + TIMEOUT < t
    requires k < |times| ==> t <= Coalesced(times, k)[0].second
    ensures Hit(Coalesced(times, k), t) <==> Covered(times, t)
  {
    if k < |times| {
      if Hit(Coalesced(times, k), t) {
        RunCovers(times, k, t);
      }
      RunIsMaximal(times, k);
    }
  }

  /** The intervals are sorted and disjoint, and the last ends TIMEOUT after the last time. */
  lemma {:induction false} CoalescedIsSeparated(times: seq<int>, i: nat)
    requires NonDecreasing(times) && i <= |times|
    ensures forall d :: 0 <= d < |Coalesced(times, i)| ==>
                          times[i] <= Coalesced(times, i)[d].first <= Coalesced(times, i)[d].second - TIMEOUT
    ensures forall d, e :: 0 <= d < e < |Coalesced(times, i)| ==>
                             Coalesced(times, i)[d].second < Coalesced(times, i)[e].first
    ensures i < |times| ==> Coalesced(times, i)[|Coalesced(times, i)| - 1].second == times[|times| - 1] + TIMEOUT
    decreases |times| - i
  {
    if i < |times| {
      RunIsMaximal(times, i);
      CoalescedIsSeparated(times, RunEnd(times, i));
    }
  }

  /** From a gap on, the coalescing is that of all times with a prefix dropped, none of it ending late. */
  lemma {:induction false} CoalescedSuffix(times: seq<int>, i: nat, k: nat) returns (d: nat)
    requires NonDecreasing(times) && i <= k <= |times| && (i == k || Boundary(times, k))
    ensures d <= |Coalesced(times, i)| && Coalesced(times, k) == Coalesced(times, i)[d..]
    ensures forall e :: 0 <= e < d ==> Coalesced(times, i)[e].second <= times[k - 1] + TIMEOUT
    decreases k - i
  {
    if i == k {
      d := 0;
    } else {
      RunIsMaximal(times, i);
      var rest := CoalescedSuffix(times, RunEnd(times, i), k);
      d := rest + 1;
    }
  }

  /** Some interval of the queue contains the time point. */
  ghost predicate Inside(q: seq<Interval>, timestamp: int) {
    exists d :: 0 <= d < |q| && InBounds(timestamp, q[d])
  }

  /**
   * The clock assumption is needed: a contact keeps what the queue stands for exactly when it
   * is no earlier than the latest one, TIMEOUT before the end of the last interval.
   */
  lemma ExtensionKeepsWindows(q: seq<Interval>, t: int)
    requires q != [] && q[|q| - 1].first <= q[|q| - 1].second
    requires forall d :: 0 <= d < |q| - 1 ==> q[d].second < q[|q| - 1].first
    ensures (forall x :: Inside(q, x) ==> Inside(Extended(q, t), x)) <==> q[|q| - 1].second - TIMEOUT <= t
  {
    var n, after := |q| - 1, Extended(q, t);
    if q[n].second - TIMEOUT <= t {
      forall x | Inside(q, x)
        ensures Inside(after, x)
      {
        var d :| 0 <= d < |q| && InBounds(x, q[d]);
        assert InBounds(x, after[d]);
      }
    } else {
      assert InBounds(q[n].second, q[n]) && Inside(q, q[n].second);
      assert forall d :: 0 <= d < |after| ==> !InBounds(q[n].second, after[d]);
    }
  }
}
