/**
 * The registry of connections.h on values: what one call does to the stored clients, and
 * the proof that it answers queries like the plain contact log, whatever has been purged.
 */
module ConnectionsSpec {
  import opened ContactLog
  import opened Intervals
  import opened Sequences
  import opened Wrappers

  datatype ClientRecord = ClientRecord(address: Address, connections: seq<Interval>)

  /** What add_client leaves stored. */
  function Added(cs: seq<ClientRecord>, a: Address, time: int): seq<ClientRecord> {
    if cs == [] then [ClientRecord(a, Extended([], time))]
    else if cs[0].address == a then [cs[0].(connections := Extended(cs[0].connections, time))] + cs[1..]
    else [cs[0]] + Added(cs[1..], a, time)
  }

  /** What get_clients leaves of one client: the excluded one is not looked at. */
  function Visited(c: ClientRecord, time: int, exclude: Option<Address>): seq<ClientRecord> {
    if exclude == Some(c.address) then [c]
    else if Purged(c.connections, time) == [] then []
    else [c.(connections := Purged(c.connections, time))]
  }

  /** What get_clients has left of the first n clients. */
  function Kept(cs: seq<ClientRecord>, n: nat, time: int, exclude: Option<Address>): seq<ClientRecord>
    requires n <= |cs|
  {
    if n == 0 then [] else Kept(cs, n - 1, time, exclude) + Visited(cs[n - 1], time, exclude)
  }

  function Answer(c: ClientRecord, time: int, exclude: Option<Address>): seq<Address> {
    if exclude != Some(c.address) && Hit(Purged(c.connections, time), time) then [c.address] else []
  }

  /** What get_clients has found among the first n clients. */
  function Found(cs: seq<ClientRecord>, n: nat, time: int, exclude: Option<Address>): seq<Address>
    requires n <= |cs|
  {
    if n == 0 then [] else Found(cs, n - 1, time, exclude) + Answer(cs[n - 1], time, exclude)
  }

  /** What get_clients leaves stored. */
  function Survivors(cs: seq<ClientRecord>, time: int, exclude: Option<Address>): seq<ClientRecord> {
    Kept(cs, |cs|, time, exclude)
  }

  /** What get_clients returns. */
  function Matches(cs: seq<ClientRecord>, time: int, exclude: Option<Address>): seq<Address> {
    Found(cs, |cs|, time, exclude)
  }

  /** Addresses are pairwise distinct and every stored client has an interval. */
  ghost predicate Structured(cs: seq<ClientRecord>) {
    && (forall i, j :: 0 <= i < j < |cs| ==> cs[i].address != cs[j].address)
    && (forall i :: 0 <= i < |cs| ==> cs[i].connections != [])
  }

  /** The intervals the first n clients store for an address; none when it is not registered. */
  function LookupTo(cs: seq<ClientRecord>, n: nat, a: Address): seq<Interval>
    requires n <= |cs|
  {
    if n == 0 then []
    else if cs[n - 1].address == a then cs[n - 1].connections
    else LookupTo(cs, n - 1, a)
  }

  function Lookup(cs: seq<ClientRecord>, a: Address): seq<Interval> {
    LookupTo(cs, |cs|, a)
  }

  ghost predicate StoredAmong(cs: seq<ClientRecord>, n: nat, a: Address)
    requires n <= |cs|
  {
    exists i :: 0 <= i < n && cs[i].address == a
  }

  lemma {:induction false} LookupFinds(cs: seq<ClientRecord>, n: nat, a: Address)
    requires Structured(cs) && n <= |cs|
    ensures forall i :: 0 <= i < n && cs[i].address == a ==> LookupTo(cs, n, a) == cs[i].connections
    ensures LookupTo(cs, n, a) != [] <==> StoredAmong(cs, n, a)
  {
    if n > 0 {
      LookupFinds(cs, n - 1, a);
    }
  }

  lemma {:induction false} LookupPrefix(cs: seq<ClientRecord>, more: seq<ClientRecord>, n: nat, a: Address)
    requires n <= |cs|
    ensures LookupTo(cs + more, n, a) == LookupTo(cs, n, a)
  {
    if n > 0 {
      LookupPrefix(cs, more, n - 1, a);
    }
  }

  lemma LookupSnoc(cs: seq<ClientRecord>, c: ClientRecord, a: Address)
    ensures Lookup(cs + [c], a) == if c.address == a then c.connections else Lookup(cs, a)
  {
    LookupPrefix(cs, [c], |cs|, a);
  }

  /** Where add_client acts. */
  lemma {:induction false} AddedAt(cs: seq<ClientRecord>, a: Address, time: int) returns (i: nat)
    ensures i <= |cs| && forall j :: 0 <= j < i ==> cs[j].address != a
    ensures i < |cs| ==> cs[i].address == a
    ensures Added(cs, a, time) ==
            if i < |cs| then cs[i := cs[i].(connections := Extended(cs[i].connections, time))]
            else cs + [ClientRecord(a, Extended([], time))]
  {
    if cs == [] || cs[0].address == a {
      i := 0;
    } else {
      var k := AddedAt(cs[1..], a, time);
      i := k + 1;
    }
  }

  lemma AddedLookup(cs: seq<ClientRecord>, a: Address, time: int, b: Address)
    requires Structured(cs)
    ensures Structured(Added(cs, a, time))
    ensures Lookup(Added(cs, a, time), b) == if b == a then Extended(Lookup(cs, a), time) else Lookup(cs, b)
  {
    var i := AddedAt(cs, a, time);
    var after := Added(cs, a, time);
    if i < |cs| {
      LookupFinds(cs, |cs|, a);
      LookupUpdate(cs, i, after[i], |cs|, b);
    } else {
      LookupFinds(cs, |cs|, a);
      LookupSnoc(cs, ClientRecord(a, Extended([], time)), b);
    }
  }

  lemma {:induction false} LookupUpdate(cs: seq<ClientRecord>, i: nat, c: ClientRecord, n: nat, b: Address)
    requires Structured(cs) && i < |cs| && c.address == cs[i].address && n <= |cs|
    ensures LookupTo(cs[i := c], n, b) == if i < n && b == c.address then c.connections else LookupTo(cs, n, b)
  {
    if n > 0 {
      LookupUpdate(cs, i, c, n - 1, b);
    }
  }

  /** A query purges the intervals of every address but the excluded one. */
  lemma {:induction false} KeptLookup(cs: seq<ClientRecord>, n: nat, time: int, exclude: Option<Address>, a: Address)
    requires Structured(cs) && n <= |cs|
    ensures Lookup(Kept(cs, n, time, exclude), a) ==
            if exclude == Some(a) then LookupTo(cs, n, a) else Purged(LookupTo(cs, n, a), time)
  {
    if n > 0 {
      KeptLookup(cs, n - 1, time, exclude, a);
      LookupFinds(cs, n - 1, a);
      var rest, left := Kept(cs, n - 1, time, exclude), Visited(cs[n - 1], time, exclude);
      if left == [] {
        assert rest + left == rest;
      } else {
        LookupSnoc(rest, left[0], a);
      }
    }
  }

  lemma {:induction false} KeptStructured(cs: seq<ClientRecord>, n: nat, time: int, exclude: Option<Address>)
    requires Structured(cs) && n <= |cs|
    ensures Structured(Kept(cs, n, time, exclude))
    ensures forall j :: 0 <= j < |Kept(cs, n, time, exclude)| ==>
              StoredAmong(cs, n, Kept(cs, n, time, exclude)[j].address)
  {
    if n > 0 {
      KeptStructured(cs, n - 1, time, exclude);
      var rest, all := Kept(cs, n - 1, time, exclude), Kept(cs, n, time, exclude);
      forall j | 0 <= j < |all|
        ensures StoredAmong(cs, n, all[j].address)
        ensures j < |rest| ==> all[j].address != cs[n - 1].address
      {
        if j < |rest| {
          assert StoredAmong(cs, n - 1, rest[j].address);
        }
      }
    }
  }

  lemma SurvivorsStructured(cs: seq<ClientRecord>, time: int, exclude: Option<Address>)
    requires Structured(cs)
    ensures Structured(Survivors(cs, time, exclude))
  {
    KeptStructured(cs, |cs|, time, exclude);
  }

  /** The answer in terms of the intervals: who is in it. */
  lemma {:induction false} FoundLookup(cs: seq<ClientRecord>, n: nat, time: int, exclude: Option<Address>, a: Address)
    requires Structured(cs) && n <= |cs|
    ensures a in Found(cs, n, time, exclude) <==>
            StoredAmong(cs, n, a) && exclude != Some(a) && Hit(Purged(Lookup(cs, a), time), time)
  {
    if n > 0 {
      FoundLookup(cs, n - 1, time, exclude, a);
      LookupFinds(cs, |cs|, a);
      assert StoredAmong(cs, n, a) <==> StoredAmong(cs, n - 1, a) || cs[n - 1].address == a;
    }
  }

  lemma MatchesLookup(cs: seq<ClientRecord>, time: int, exclude: Option<Address>, a: Address)
    requires Structured(cs)
    ensures a in Matches(cs, time, exclude) <==> exclude != Some(a) && Hit(Purged(Lookup(cs, a), time), time)
  {
    FoundLookup(cs, |cs|, time, exclude, a);
    LookupFinds(cs, |cs|, a);
  }

  /** Nobody is answered twice. */
  lemma {:induction false} FoundNoDuplicates(cs: seq<ClientRecord>, n: nat, time: int, exclude: Option<Address>)
    requires Structured(cs) && n <= |cs|
    ensures NoDuplicates(Found(cs, n, time, exclude))
  {
    if n > 0 {
      FoundNoDuplicates(cs, n - 1, time, exclude);
      FoundLookup(cs, n - 1, time, exclude, cs[n - 1].address);
      assert cs[n - 1].address !in Found(cs, n - 1, time, exclude);
    }
  }

  // ---- The invariant that ties the registry to the log ----

  ghost predicate NotBefore(time: int, horizon: Option<int>) {
    horizon.Some? ==> horizon.value <= time
  }

  /** The window of a contact ended before the horizon. */
  ghost predicate ExpiredBy(time: int, horizon: Option<int>) {
    horizon.Some? && time + TIMEOUT < horizon.value
  }

  /**
   * The queue is the coalescing of the contact times from the k-th on; the windows of the
   * earlier ones end before the horizon, the latest time a query was made for. When every
   * contact so far was no older than the horizon of its moment (`ahead`), the k-th time
   * starts a run of its own.
   */
  ghost predicate TracksFrom(q: seq<Interval>, times: seq<int>, horizon: Option<int>, ahead: bool, k: nat) {
    && k <= |times|
    && q == Coalesced(times, k)
    && (forall i :: 0 <= i < k ==> ExpiredBy(times[i], horizon))
    && (ahead ==> Boundary(times, k))
  }

  ghost predicate Tracks(q: seq<Interval>, times: seq<int>, horizon: Option<int>, ahead: bool) {
    exists k: nat :: TracksFrom(q, times, horizon, ahead, k)
  }

  ghost predicate Index(cs: seq<ClientRecord>, log: seq<Contact>, horizon: Option<int>, ahead: bool) {
    && Structured(cs)
    && NonDecreasing(Times(log))
    && forall a :: Tracks(Lookup(cs, a), TimesOf(log, a), horizon, ahead)
  }

  lemma EmptyIndex()
    ensures Index([], [], None, true)
  {
    forall a
      ensures Tracks(Lookup([], a), TimesOf([], a), None, true)
    {
      assert TracksFrom([], [], None, true, 0);
    }
  }

  lemma TracksExtended(q: seq<Interval>, times: seq<int>, horizon: Option<int>, ahead: bool, t: int)
    requires Tracks(q, times, horizon, ahead)
    ensures Tracks(Extended(q, t), times + [t], horizon, ahead && NotBefore(t, horizon))
  {
    var k: nat :| TracksFrom(q, times, horizon, ahead, k);
    var all, still := times + [t], ahead && NotBefore(t, horizon);
    ExtendedIsCoalesced(times, t, all, k);
    assert still ==> Boundary(all, k) by {
      if still && 0 < k {
        assert all[k - 1] == times[k - 1] && ExpiredBy(times[k - 1], horizon);
        assert k < |times| ==> all[k] == times[k];
      }
    }
    forall i | 0 <= i < k
      ensures ExpiredBy(all[i], horizon)
    {
      assert all[i] == times[i];
    }
    assert TracksFrom(Extended(q, t), all, horizon, still, k);
  }

  /** One add_client at a time no earlier than all before it. */
  lemma AddKeepsIndex(cs: seq<ClientRecord>, log: seq<Contact>, horizon: Option<int>, ahead: bool, c: Contact)
    requires Index(cs, log, horizon, ahead)
    requires log != [] ==> log[|log| - 1].time <= c.time
    ensures Index(Added(cs, c.address, c.time), log + [c], horizon, ahead && NotBefore(c.time, horizon))
  {
    forall a
      ensures Structured(Added(cs, c.address, c.time))
      ensures Tracks(Lookup(Added(cs, c.address, c.time), a), TimesOf(log + [c], a), horizon,
                     ahead && NotBefore(c.time, horizon))
    {
      AddedLookup(cs, c.address, c.time, a);
      TimesOfSnoc(log, c, a);
      if a == c.address {
        TracksExtended(Lookup(cs, a), TimesOf(log, a), horizon, ahead, c.time);
      } else {
        var k: nat :| TracksFrom(Lookup(cs, a), TimesOf(log, a), horizon, ahead, k);
        assert TracksFrom(Lookup(cs, a), TimesOf(log, a), horizon, ahead && NotBefore(c.time, horizon), k);
      }
    }
    assert Structured(Added(cs, c.address, c.time)) by {
      AddedLookup(cs, c.address, c.time, c.address);
    }
    SortedSnoc(log, c);
  }

  lemma SortedSnoc(log: seq<Contact>, c: Contact)
    requires NonDecreasing(Times(log))
    requires log != [] ==> log[|log| - 1].time <= c.time
    ensures NonDecreasing(Times(log + [c]))
  {
    var before, after := Times(log), Times(log + [c]);
    forall i, j | 0 <= i <= j < |after|
      ensures after[i] <= after[j]
    {
      if j == |log| && i < j {
        assert before[i] <= before[|log| - 1];
      } else if j < |log| {
        assert before[i] <= before[j];
      }
    }
  }

  lemma TracksLater(q: seq<Interval>, times: seq<int>, horizon: Option<int>, ahead: bool, t: int)
    requires Tracks(q, times, horizon, ahead) && NotBefore(t, horizon)
    ensures Tracks(q, times, Some(t), ahead)
  {
    var k: nat :| TracksFrom(q, times, horizon, ahead, k);
    assert TracksFrom(q, times, Some(t), ahead, k);
  }

  /** Purging drops whole runs that have expired. */
  lemma {:induction false} TracksPurged(q: seq<Interval>, times: seq<int>, ahead: bool, t: int)
    requires NonDecreasing(times)
    requires Tracks(q, times, Some(t), ahead)
    ensures Tracks(Purged(q, t), times, Some(t), ahead)
    decreases |q|
  {
    if q != [] && q[0].second < t {
      var k: nat :| TracksFrom(q, times, Some(t), ahead, k);
      RunIsMaximal(times, k);
      assert q[1..] == Coalesced(times, RunEnd(times, k));
      assert TracksFrom(q[1..], times, Some(t), ahead, RunEnd(times, k));
      TracksPurged(q[1..], times, ahead, t);
    }
  }

  lemma {:induction false} PurgedFront(q: seq<Interval>, t: int)
    ensures Purged(q, t) != [] ==> t <= Purged(q, t)[0].second
    decreases |q|
  {
    if q != [] && q[0].second < t {
      PurgedFront(q[1..], t);
    }
  }

  lemma PurgedHit(q: seq<Interval>, times: seq<int>, ahead: bool, t: int)
    requires NonDecreasing(times)
    requires Tracks(q, times, Some(t), ahead)
    ensures Hit(Purged(q, t), t) <==> Covered(times, t)
  {
    TracksPurged(q, times, ahead, t);
    PurgedFront(q, t);
    var k: nat :| TracksFrom(Purged(q, t), times, Some(t), ahead, k);
    HitIsCovered(times, k, t);
  }

  /** One get_clients at a time no earlier than all queries before it keeps the invariant. */
  lemma QueryKeepsIndex(cs: seq<ClientRecord>, log: seq<Contact>, horizon: Option<int>, ahead: bool,
                        t: int, exclude: Option<Address>)
    requires Index(cs, log, horizon, ahead) && NotBefore(t, horizon)
    ensures Index(Survivors(cs, t, exclude), log, Some(t), ahead)
  {
    SurvivorsStructured(cs, t, exclude);
    forall a
      ensures Tracks(Lookup(Survivors(cs, t, exclude), a), TimesOf(log, a), Some(t), ahead)
    {
      KeptLookup(cs, |cs|, t, exclude, a);
      TimesOfIsSorted(log, a);
      TracksLater(Lookup(cs, a), TimesOf(log, a), horizon, ahead, t);
      TracksPurged(Lookup(cs, a), TimesOf(log, a), ahead, t);
    }
  }

  /** Its answer is the naive one: each address with a contact in the window, once, the excluded one apart. */
  lemma QueryIsNaive(cs: seq<ClientRecord>, log: seq<Contact>, horizon: Option<int>, ahead: bool,
                     t: int, exclude: Option<Address>)
    requires Index(cs, log, horizon, ahead) && NotBefore(t, horizon)
    ensures forall a :: a in Matches(cs, t, exclude) <==> exclude != Some(a) && Contacted(log, a, t)
    ensures NoDuplicates(Matches(cs, t, exclude))
  {
    FoundNoDuplicates(cs, |cs|, t, exclude);
    forall a
      ensures a in Matches(cs, t, exclude) <==> exclude != Some(a) && Contacted(log, a, t)
    {
      MatchesLookup(cs, t, exclude, a);
      TimesOfIsSorted(log, a);
      TracksLater(Lookup(cs, a), TimesOf(log, a), horizon, ahead, t);
      PurgedHit(Lookup(cs, a), TimesOf(log, a), ahead, t);
      ContactedIsCovered(log, a, t);
    }
  }

  /** The first n stored addresses that the naive test selects, in the order in which they are stored. */
  ghost function Selected(
    cs: seq<ClientRecord>, n: nat, log: seq<Contact>, t: int, exclude: Option<Address>
  ): seq<Address>
    requires n <= |cs|
  {
    if n == 0 then []
    else
      var a := cs[n - 1].address;
      Selected(cs, n - 1, log, t, exclude) + if exclude != Some(a) && Contacted(log, a, t) then [a] else []
  }

  lemma {:induction false} FoundIsSelected(
    cs: seq<ClientRecord>, n: nat, log: seq<Contact>, t: int, exclude: Option<Address>
  )
    requires n <= |cs| && Structured(cs)
    requires forall a :: a in Matches(cs, t, exclude) <==> exclude != Some(a) && Contacted(log, a, t)
    ensures Found(cs, n, t, exclude) == Selected(cs, n, log, t, exclude)
  {
    if n > 0 {
      var a := cs[n - 1].address;
      FoundIsSelected(cs, n - 1, log, t, exclude);
      MatchesLookup(cs, t, exclude, a);
      LookupFinds(cs, |cs|, a);
    }
  }

  /** The answer lists addresses in the order in which they are stored. */
  lemma MatchesInOrder(cs: seq<ClientRecord>, log: seq<Contact>, horizon: Option<int>, ahead: bool,
                       t: int, exclude: Option<Address>)
    requires Index(cs, log, horizon, ahead) && NotBefore(t, horizon)
    ensures Matches(cs, t, exclude) == Selected(cs, |cs|, log, t, exclude)
  {
    QueryIsNaive(cs, log, horizon, ahead, t, exclude);
    FoundIsSelected(cs, |cs|, log, t, exclude);
  }

  /** Every address with a window that reaches the horizon or later is registered. */
  lemma ContactedIsRegistered(cs: seq<ClientRecord>, log: seq<Contact>, horizon: Option<int>, ahead: bool,
                              t: int, a: Address)
    requires Index(cs, log, horizon, ahead) && NotBefore(t, horizon) && Contacted(log, a, t)
    ensures StoredAmong(cs, |cs|, a)
  {
    ContactedIsCovered(log, a, t);
    LookupFinds(cs, |cs|, a);
    var k: nat :| TracksFrom(Lookup(cs, a), TimesOf(log, a), horizon, ahead, k);
  }

  /** Sorted, pairwise disjoint, and the last one ends TIMEOUT after the latest time. */
  ghost predicate Separated(q: seq<Interval>, times: seq<int>) {
    && (forall d :: 0 <= d < |q| ==> q[d].first + TIMEOUT <= q[d].second)
    && (forall d, e :: 0 <= d < e < |q| ==> q[d].second < q[e].first)
    && q != [] && times != [] && q[|q| - 1].second == times[|times| - 1] + TIMEOUT
  }

  /** The coalescing of all the times, without its first d intervals, which have expired. */
  ghost predicate Canonical(q: seq<Interval>, times: seq<int>, horizon: Option<int>, d: nat) {
    && d <= |Coalesced(times, 0)|
    && q == Coalesced(times, 0)[d..]
    && forall e :: 0 <= e < d ==> horizon.Some? && Coalesced(times, 0)[e].second < horizon.value
  }

  lemma TracksCanonical(q: seq<Interval>, times: seq<int>, horizon: Option<int>) returns (d: nat)
    requires Tracks(q, times, horizon, true) && NonDecreasing(times) && q != []
    ensures Canonical(q, times, horizon, d) && Separated(q, times)
  {
    var k: nat :| TracksFrom(q, times, horizon, true, k);
    d := TracksSuffix(q, times, horizon, k);
    assert Separated(q, times) by {
      CoalescedIsSeparated(times, k);
    }
  }

  lemma TracksSuffix(q: seq<Interval>, times: seq<int>, horizon: Option<int>, k: nat) returns (d: nat)
    requires TracksFrom(q, times, horizon, true, k) && NonDecreasing(times)
    ensures Canonical(q, times, horizon, d)
  {
    d := CoalescedSuffix(times, 0, k);
    if k > 0 {
      assert ExpiredBy(times[k - 1], horizon);
    }
  }

  /**
   * With every contact at or after the horizon of its moment, a client's queue is the
   * coalescing of all its contact times with an expired prefix of the intervals removed.
   */
  lemma QueueIsCanonical(cs: seq<ClientRecord>, log: seq<Contact>, horizon: Option<int>, i: nat)
    returns (d: nat)
    requires Index(cs, log, horizon, true) && i < |cs|
    ensures Canonical(cs[i].connections, TimesOf(log, cs[i].address), horizon, d)
    ensures Separated(cs[i].connections, TimesOf(log, cs[i].address))
  {
    LookupFinds(cs, |cs|, cs[i].address);
    TimesOfIsSorted(log, cs[i].address);
    d := TracksCanonical(cs[i].connections, TimesOf(log, cs[i].address), horizon);
  }
}
