/**
 * The order of the registry's answers, from the times of contacts and queries alone: when
 * each client was last registered anew. It decides when purging shows in an answer.
 */
module RegistrationOrder {
  import opened ConnectionsRuns
  import opened ConnectionsSpec
  import opened ContactLog
  import opened Intervals
  import opened Sequences
  import opened Wrappers

  /** Every contact of the address has its window behind the time point. */
  ghost predicate AllEnded(log: seq<Contact>, a: Address, t: int) {
    forall i :: 0 <= i < |log| && log[i].address == a ==> log[i].time + TIMEOUT < t
  }

  /**
   * The number of the call that registered the address, if it is registered: a contact
   * registers an unknown one, a query for anybody else drops it when all its contacts have
   * ended.
   */
  ghost function Registered(calls: seq<Call>, a: Address): (r: Option<nat>)
    ensures r.Some? ==> r.value < |calls|
  {
    if calls == [] then None
    else
      var front := calls[..|calls| - 1];
      var before := Registered(front, a);
      match calls[|calls| - 1]
      case Add(c) => if c.address == a && before == None then Some(|front|) else before
      case Query(t, exclude) => if exclude != Some(a) && AllEnded(LogOf(front), a, t) then None else before
  }

  /** The place of an address in the order of registration. */
  ghost function Rank(calls: seq<Call>, a: Address): int {
    match Registered(calls, a)
    case Some(n) => n
    case None => -1
  }

  /** Clients stored first have been registered first. */
  ghost predicate Ranked(cs: seq<ClientRecord>, n: nat, calls: seq<Call>)
    requires n <= |cs|
  {
    forall i, j :: 0 <= i < j < n ==> Rank(calls, cs[i].address) < Rank(calls, cs[j].address)
  }

  ghost predicate AllPast(times: seq<int>, t: int) {
    forall i :: 0 <= i < |times| ==> times[i] + TIMEOUT < t
  }

  lemma {:induction false} AllEndedByTimes(log: seq<Contact>, a: Address, t: int)
    ensures AllEnded(log, a, t) <==> AllPast(TimesOf(log, a), t)
  {
    if log != [] {
      var front, last := log[..|log| - 1], log[|log| - 1];
      var before, all := TimesOf(front, a), TimesOf(log, a);
      AllEndedByTimes(front, a, t);
      assert AllEnded(log, a, t) <==> AllEnded(front, a, t) && (last.address == a ==> last.time + TIMEOUT < t) by {
        assert log == front + [last];
      }
      if last.address == a {
        assert all == before + [last.time];
        assert AllPast(all, t) <==> AllPast(before, t) && last.time + TIMEOUT < t by {
          assert all[|before|] == last.time;
          assert forall i :: 0 <= i < |before| ==> all[i] == before[i];
        }
      } else {
        assert all == before;
      }
    }
  }

  /** A queue is purged to nothing exactly when all its contacts have ended. */
  lemma PurgedAway(q: seq<Interval>, times: seq<int>, ahead: bool, t: int)
    requires NonDecreasing(times) && Tracks(q, times, Some(t), ahead)
    ensures Purged(q, t) == [] <==> AllPast(times, t)
  {
    TracksPurged(q, times, ahead, t);
    PurgedFront(q, t);
    var k: nat :| TracksFrom(Purged(q, t), times, Some(t), ahead, k);
    NoneLeft(times, k);
    if k < |times| {
      var j := RunEnd(times, k);
      FirstRun(times, k, j);
      assert times[j - 1] + TIMEOUT >= t;
    } else {
      assert forall i :: 0 <= i < |times| ==> ExpiredBy(times[i], Some(t));
    }
  }

  lemma {:induction false} RankedSnoc(
    cs: seq<ClientRecord>, v: seq<ClientRecord>, all: seq<ClientRecord>, calls: seq<Call>, a: Address
  )
    requires all == cs + v && |v| <= 1 && Ranked(cs, |cs|, calls)
    requires forall i :: 0 <= i < |v| ==> v[i].address == a
    requires forall i :: 0 <= i < |cs| ==> Rank(calls, cs[i].address) < Rank(calls, a)
    ensures Ranked(all, |all|, calls)
  {
    assert forall i :: 0 <= i < |cs| ==> all[i] == cs[i];
    assert forall i :: |cs| <= i < |all| ==> all[i] == v[i - |cs|];
  }

  lemma {:induction false} KeptRanked(
    cs: seq<ClientRecord>, n: nat, t: int, exclude: Option<Address>, calls: seq<Call>
  )
    requires n <= |cs| && Structured(cs) && Ranked(cs, n, calls)
    ensures var kept := Kept(cs, n, t, exclude);
            Ranked(kept, |kept|, calls)
  {
    if n > 0 {
      KeptRanked(cs, n - 1, t, exclude, calls);
      KeptStructured(cs, n - 1, t, exclude);
      var rest, kept := Kept(cs, n - 1, t, exclude), Kept(cs, n, t, exclude);
      var v := Visited(cs[n - 1], t, exclude);
      assert |v| <= 1 && forall i :: 0 <= i < |v| ==> v[i].address == cs[n - 1].address;
      forall i | 0 <= i < |rest|
        ensures Rank(calls, rest[i].address) < Rank(calls, cs[n - 1].address)
      {
        assert StoredAmong(cs, n - 1, rest[i].address);
      }
      RankedSnoc(rest, v, kept, calls, cs[n - 1].address);
    }
  }

  /** An address is stored exactly when it is registered, and clients are stored in the order of registration. */
  ghost predicate StoredAsRegistered(calls: seq<Call>) {
    && (forall a :: Lookup(Stored(calls), a) != [] <==> Registered(calls, a).Some?)
    && Ranked(Stored(calls), |Stored(calls)|, calls)
  }

  /** calls is front and one more call. */
  ghost predicate OneMoreCall(front: seq<Call>, call: Call, calls: seq<Call>) {
    |calls| == |front| + 1 && calls[..|front|] == front && calls[|front|] == call
  }

  lemma StoredRanks(cs: seq<ClientRecord>, before: seq<Call>, calls: seq<Call>)
    requires Ranked(cs, |cs|, before)
    requires forall i :: 0 <= i < |cs| ==> Rank(calls, cs[i].address) == Rank(before, cs[i].address)
    ensures Ranked(cs, |cs|, calls)
  {
  }

  lemma AddRanks(front: seq<Call>, c: Contact, calls: seq<Call>, a: Address)
    requires OneMoreCall(front, Add(c), calls)
    ensures Registered(calls, a).Some? <==> a == c.address || Registered(front, a).Some?
    ensures Registered(front, a).Some? ==> Rank(calls, a) == Rank(front, a)
    ensures Registered(front, a) == None && a == c.address ==> Rank(calls, a) == |front|
    ensures Rank(front, a) < |front|
  {
  }

  lemma {:induction false} AddKeepsRanked(cs: seq<ClientRecord>, c: Contact, after: seq<ClientRecord>, calls: seq<Call>)
    requires after == Added(cs, c.address, c.time) && Structured(cs) && Ranked(cs, |cs|, calls)
    requires Lookup(cs, c.address) == [] ==>
               forall i :: 0 <= i < |cs| ==> Rank(calls, cs[i].address) < Rank(calls, c.address)
    ensures Ranked(after, |after|, calls)
  {
    var k := AddedAt(cs, c.address, c.time);
    if k < |cs| {
      assert forall i :: 0 <= i < |cs| ==> after[i].address == cs[i].address;
    } else {
      assert Lookup(cs, c.address) == [] by {
        LookupFinds(cs, |cs|, c.address);
      }
      assert after[|cs|].address == c.address;
      assert forall i :: 0 <= i < |cs| ==> after[i] == cs[i];
    }
  }

  lemma StoredIsRegistered(cs: seq<ClientRecord>, i: nat, calls: seq<Call>)
    requires Structured(cs) && i < |cs|
    requires forall a :: Lookup(cs, a) != [] <==> Registered(calls, a).Some?
    ensures Registered(calls, cs[i].address).Some?
  {
    LookupFinds(cs, |cs|, cs[i].address);
    assert Lookup(cs, cs[i].address) != [];
  }

  lemma AddRegisters(front: seq<Call>, c: Contact, calls: seq<Call>)
    requires OneMoreCall(front, Add(c), calls)
    requires Structured(Stored(front)) && StoredAsRegistered(front)
    ensures StoredAsRegistered(calls)
  {
    var cs, after := Stored(front), Stored(calls);
    forall a
      ensures Lookup(after, a) != [] <==> Registered(calls, a).Some?
    {
      AddedLookup(cs, c.address, c.time, a);
      AddRanks(front, c, calls, a);
    }
    forall i | 0 <= i < |cs|
      ensures Rank(calls, cs[i].address) == Rank(front, cs[i].address) < |front|
    {
      StoredIsRegistered(cs, i, front);
      AddRanks(front, c, calls, cs[i].address);
    }
    StoredRanks(cs, front, calls);
    AddRanks(front, c, calls, c.address);
    AddKeepsRanked(cs, c, after, calls);
  }

  lemma QueryRegisters(front: seq<Call>, t: int, exclude: Option<Address>, calls: seq<Call>)
    requires OneMoreCall(front, Query(t, exclude), calls)
    requires Index(Stored(front), LogOf(front), Horizon(front), Ahead(front)) && NotBefore(t, Horizon(front))
    requires StoredAsRegistered(front)
    ensures StoredAsRegistered(calls)
  {
    var cs, log := Stored(front), LogOf(front);
    var after := Survivors(cs, t, exclude);
    assert Stored(calls) == after;
    forall a
      ensures Lookup(after, a) != [] <==> Registered(calls, a).Some?
    {
      KeptLookup(cs, |cs|, t, exclude, a);
      TimesOfIsSorted(log, a);
      TracksLater(Lookup(cs, a), TimesOf(log, a), Horizon(front), Ahead(front), t);
      PurgedAway(Lookup(cs, a), TimesOf(log, a), Ahead(front), t);
      AllEndedByTimes(log, a, t);
      assert Lookup(cs, a) == [] ==> Purged(Lookup(cs, a), t) == [];
    }
    SurvivorsStructured(cs, t, exclude);
    KeptRanked(cs, |cs|, t, exclude, front);
    forall i | 0 <= i < |after|
      ensures Rank(calls, after[i].address) == Rank(front, after[i].address)
    {
      LookupFinds(after, |after|, after[i].address);
      assert Lookup(after, after[i].address) != [];
    }
    StoredRanks(after, front, calls);
  }

  /**
   * In every run an address is stored exactly when the calls have it registered, and clients
   * are stored in the order in which they were registered.
   */
  lemma {:induction false} StoredInRegistrationOrder(calls: seq<Call>)
    requires Monotone(calls)
    ensures StoredAsRegistered(calls)
  {
    if calls != [] {
      var front, last := calls[..|calls| - 1], calls[|calls| - 1];
      assert Monotone(front);
      StoredInRegistrationOrder(front);
      RunKeepsIndex(front);
      match last
      case Add(c) => AddRegisters(front, c, calls);
      case Query(t, exclude) =>
        HorizonIsLatestQuery(front, t);
        QueryRegisters(front, t, exclude, calls);
    }
  }

  // ---- When purging shows ----

  /** The same contacts, with nothing ever queried and so nothing ever purged. */
  function WithoutQueries(calls: seq<Call>): seq<Call> {
    if calls == [] then []
    else
      WithoutQueries(calls[..|calls| - 1])
      + if calls[|calls| - 1].Add? then [calls[|calls| - 1]] else []
  }

  /** The place of the first contact of an address in the log. */
  ghost function FirstContact(log: seq<Contact>, a: Address): (r: Option<nat>)
    ensures r.Some? ==> r.value < |log| && log[r.value].address == a
  {
    if log == [] then None
    else
      var front := log[..|log| - 1];
      var before := FirstContact(front, a);
      if before == None && log[|log| - 1].address == a then Some(|front|) else before
  }

  lemma {:induction false} WithoutQueriesLogs(calls: seq<Call>)
    ensures LogOf(WithoutQueries(calls)) == LogOf(calls) && |WithoutQueries(calls)| == |LogOf(calls)|
    ensures forall i :: 0 <= i < |LogOf(calls)| ==> WithoutQueries(calls)[i] == Add(LogOf(calls)[i])
  {
    if calls != [] {
      var front, last := calls[..|calls| - 1], calls[|calls| - 1];
      var before, all := WithoutQueries(front), WithoutQueries(calls);
      WithoutQueriesLogs(front);
      if last.Add? {
        assert all[..|all| - 1] == before;
      } else {
        assert all == before && LogOf(calls) == LogOf(front);
      }
    }
  }

  /** Without queries an address stays where its first contact put it. */
  lemma {:induction false} FirstContactRegisters(calls: seq<Call>, a: Address)
    ensures Registered(WithoutQueries(calls), a) == FirstContact(LogOf(calls), a)
  {
    if calls != [] {
      var front, last := calls[..|calls| - 1], calls[|calls| - 1];
      FirstContactRegisters(front, a);
      WithoutQueriesLogs(front);
      var before, all := WithoutQueries(front), WithoutQueries(calls);
      var log := LogOf(calls);
      if last.Add? {
        assert all[..|all| - 1] == before && all[|all| - 1] == last;
        assert log[..|log| - 1] == LogOf(front) && log[|log| - 1] == last.contact;
      } else {
        assert all == before && log == LogOf(front);
      }
    }
  }

  lemma {:induction false} AddsAreMonotone(calls: seq<Call>)
    requires Monotone(calls)
    ensures Monotone(WithoutQueries(calls)) && Horizon(WithoutQueries(calls)) == None
  {
    WithoutQueriesLogs(calls);
    RunKeepsIndex(calls);
    var log, adds := LogOf(calls), WithoutQueries(calls);
    forall i, j | 0 <= i < j < |adds|
      ensures adds[i].contact.time <= adds[j].contact.time
    {
      assert Times(log)[i] <= Times(log)[j];
    }
    NoQueryNoHorizon(adds);
  }

  lemma {:induction false} NoQueryNoHorizon(calls: seq<Call>)
    requires forall i :: 0 <= i < |calls| ==> calls[i].Add?
    ensures Horizon(calls) == None
  {
    if calls != [] {
      NoQueryNoHorizon(calls[..|calls| - 1]);
    }
  }

  /** Addresses in the order of registration. */
  ghost predicate InRegistrationOrder(s: seq<Address>, calls: seq<Call>) {
    forall i, j :: 0 <= i < j < |s| ==> Rank(calls, s[i]) < Rank(calls, s[j])
  }

  lemma {:induction false} FoundInOrder(
    cs: seq<ClientRecord>, n: nat, t: int, exclude: Option<Address>, calls: seq<Call>
  )
    requires n <= |cs| && Structured(cs) && Ranked(cs, n, calls)
    ensures InRegistrationOrder(Found(cs, n, t, exclude), calls)
  {
    if n > 0 {
      FoundInOrder(cs, n - 1, t, exclude, calls);
      var before := Found(cs, n - 1, t, exclude);
      forall i | 0 <= i < |before|
        ensures Rank(calls, before[i]) < Rank(calls, cs[n - 1].address)
      {
        assert before[i] in before;
        FoundLookup(cs, n - 1, t, exclude, before[i]);
      }
    }
  }

  /** Who a query answers, by the calls alone. */
  ghost predicate Answered(calls: seq<Call>, t: int, exclude: Option<Address>, a: Address) {
    exclude != Some(a) && Contacted(LogOf(calls), a, t)
  }

  /**
   * The answer of every query consists of the addresses with a contact in its window, listed
   * in the order in which the calls registered them.
   */
  lemma AnswerInRegistrationOrder(calls: seq<Call>, t: int, exclude: Option<Address>)
    requires Monotone(calls + [Query(t, exclude)])
    ensures var answer := Matches(Stored(calls), t, exclude);
            && (forall a :: a in answer <==> Answered(calls, t, exclude, a))
            && InRegistrationOrder(answer, calls)
  {
    RegistryRefinesLog(calls, t, exclude);
    RunBeforeQuery(calls, t, exclude);
    StoredInRegistrationOrder(calls);
    FoundInOrder(Stored(calls), |Stored(calls)|, t, exclude, calls);
  }

  lemma UnpurgedAnswer(calls: seq<Call>, t: int, exclude: Option<Address>)
    requires Monotone(calls)
    ensures var adds := WithoutQueries(calls);
            var answer := Matches(Stored(adds), t, exclude);
            && (forall a :: a in answer <==> Answered(calls, t, exclude, a))
            && InRegistrationOrder(answer, adds)
  {
    var adds := WithoutQueries(calls);
    AddsAreMonotone(calls);
    WithoutQueriesLogs(calls);
    RunKeepsIndex(adds);
    QueryIsNaive(Stored(adds), LogOf(adds), None, Ahead(adds), t, exclude);
    StoredInRegistrationOrder(adds);
    FoundInOrder(Stored(adds), |Stored(adds)|, t, exclude, adds);
  }

  lemma LastIsLatest(s: seq<Address>, s': seq<Address>, calls: seq<Call>)
    requires InRegistrationOrder(s, calls) && InRegistrationOrder(s', calls)
    requires s != [] && s' != [] && s[|s| - 1] in s' && s'[|s'| - 1] in s
    ensures s[|s| - 1] == s'[|s'| - 1]
  {
    var n, n' := |s| - 1, |s'| - 1;
    var i :| 0 <= i < |s| && s[i] == s'[n'];
    var j :| 0 <= j < |s'| && s'[j] == s[n];
    assert i < n ==> Rank(calls, s[i]) < Rank(calls, s[n]);
    assert j < n' ==> Rank(calls, s'[j]) < Rank(calls, s'[n']);
  }

  lemma InFront(s: seq<Address>, calls: seq<Call>, a: Address)
    requires s != [] && InRegistrationOrder(s, calls)
    ensures a in s[..|s| - 1] <==> a in s && a != s[|s| - 1]
  {
    var n := |s| - 1;
    if a in s[..n] {
      var i :| 0 <= i < n && s[..n][i] == a;
      assert s[i] == a && Rank(calls, s[i]) < Rank(calls, s[n]);
    }
  }

  lemma NoneMissing(s: seq<Address>, s': seq<Address>)
    requires s != [] && forall a :: a in s ==> a in s'
    ensures s' != []
  {
    assert s[0] in s;
  }

  /** Sorting by registration leaves no choice. */
  lemma {:induction false} OrderIsUnique(s: seq<Address>, s': seq<Address>, calls: seq<Call>)
    requires InRegistrationOrder(s, calls) && InRegistrationOrder(s', calls)
    requires forall a :: a in s <==> a in s'
    ensures s == s'
  {
    if s == [] {
      if s' != [] {
        NoneMissing(s', s);
      }
    } else {
      NoneMissing(s, s');
      assert s[|s| - 1] in s' && s'[|s'| - 1] in s;
      LastIsLatest(s, s', calls);
      var front, front' := s[..|s| - 1], s'[..|s'| - 1];
      forall a
        ensures a in front <==> a in front'
      {
        InFront(s, calls, a);
        InFront(s', calls, a);
      }
      OrderIsUnique(front, front', calls);
      assert s == front + [s[|s| - 1]] && s' == front' + [s'[|s'| - 1]];
    }
  }

  /** b was heard from after a, but is registered before it: a has been dropped and registered anew. */
  ghost predicate Overtaken(calls: seq<Call>, a: Address, b: Address) {
    && FirstContact(LogOf(calls), a).Some? && FirstContact(LogOf(calls), b).Some?
    && FirstContact(LogOf(calls), a).value < FirstContact(LogOf(calls), b).value
    && Registered(calls, a).Some? && Registered(calls, b).Some?
    && Registered(calls, b).value < Registered(calls, a).value
  }

  /** The address has been heard from and is registered. */
  ghost predicate Known(calls: seq<Call>, a: Address) {
    Registered(calls, a).Some? && FirstContact(LogOf(calls), a).Some?
  }

  /** To be overtaken is to change places when the queries are left out. */
  lemma OvertakenByRank(calls: seq<Call>, a: Address, b: Address)
    requires Known(calls, a) && Known(calls, b)
    ensures var adds := WithoutQueries(calls);
            && (Overtaken(calls, a, b) <==> Rank(adds, a) < Rank(adds, b) && Rank(calls, b) < Rank(calls, a))
            && (Rank(adds, a) == Rank(adds, b) ==> a == b)
  {
    FirstContactRegisters(calls, a);
    FirstContactRegisters(calls, b);
  }

  lemma OrderKeptUnlessOvertaken(s: seq<Address>, calls: seq<Call>, i: nat, j: nat)
    requires i < j < |s| && InRegistrationOrder(s, calls) && Known(calls, s[i]) && Known(calls, s[j])
    requires !Overtaken(calls, s[j], s[i])
    ensures Rank(WithoutQueries(calls), s[i]) < Rank(WithoutQueries(calls), s[j])
  {
    OvertakenByRank(calls, s[j], s[i]);
  }

  lemma NotOvertakenInOrder(s: seq<Address>, calls: seq<Call>, a: Address, b: Address)
    requires a in s && b in s && Known(calls, a) && Known(calls, b)
    requires InRegistrationOrder(s, calls) && InRegistrationOrder(s, WithoutQueries(calls))
    ensures !Overtaken(calls, a, b)
  {
    var i :| 0 <= i < |s| && s[i] == a;
    var j :| 0 <= j < |s| && s[j] == b;
    OvertakenByRank(calls, a, b);
    assert i < j ==> Rank(calls, s[i]) < Rank(calls, s[j]);
    assert j < i ==> Rank(WithoutQueries(calls), s[j]) < Rank(WithoutQueries(calls), s[i]);
  }

  /** The order of registration is that of first contact exactly when no answered address is overtaken. */
  lemma NoneOvertaken(s: seq<Address>, calls: seq<Call>)
    requires InRegistrationOrder(s, calls) && forall a :: a in s ==> Known(calls, a)
    ensures InRegistrationOrder(s, WithoutQueries(calls)) <==>
            forall a, b :: a in s && b in s ==> !Overtaken(calls, a, b)
  {
    if forall a, b :: a in s && b in s ==> !Overtaken(calls, a, b) {
      forall i, j | 0 <= i < j < |s|
        ensures Rank(WithoutQueries(calls), s[i]) < Rank(WithoutQueries(calls), s[j])
      {
        OrderKeptUnlessOvertaken(s, calls, i, j);
      }
    }
    if InRegistrationOrder(s, WithoutQueries(calls)) {
      forall a, b | a in s && b in s
        ensures !Overtaken(calls, a, b)
      {
        NotOvertakenInOrder(s, calls, a, b);
      }
    }
  }

  lemma AnsweredIsRegistered(calls: seq<Call>, t: int, exclude: Option<Address>, a: Address)
    requires Monotone(calls + [Query(t, exclude)]) && Answered(calls, t, exclude, a)
    ensures Known(calls, a)
  {
    RunBeforeQuery(calls, t, exclude);
    StoredInRegistrationOrder(calls);
    ContactedIsRegistered(Stored(calls), LogOf(calls), Horizon(calls), Ahead(calls), t, a);
    LookupFinds(Stored(calls), |Stored(calls)|, a);
    assert Lookup(Stored(calls), a) != [];
    ContactedIsFirst(LogOf(calls), a, t);
  }

  lemma {:induction false} ContactedIsFirst(log: seq<Contact>, a: Address, t: int)
    requires Contacted(log, a, t)
    ensures FirstContact(log, a).Some?
  {
    var front, last := log[..|log| - 1], log[|log| - 1];
    var i :| 0 <= i < |log| && log[i].address == a && log[i].time <= t <= log[i].time + TIMEOUT;
    if i < |front| {
      assert front[i] == log[i];
      ContactedIsFirst(front, a, t);
    }
  }

  /**
   * Purging shows in an answer exactly when one of the answered addresses has been overtaken
   * by another: in every other case the answer is that of the run without its queries.
   */
  lemma PurgingShowsExactly(calls: seq<Call>, t: int, exclude: Option<Address>)
    requires Monotone(calls + [Query(t, exclude)])
    ensures Matches(Stored(calls), t, exclude) == Matches(Stored(WithoutQueries(calls)), t, exclude)
            <==>
            forall a, b :: Answered(calls, t, exclude, a) && Answered(calls, t, exclude, b) ==> !Overtaken(calls, a, b)
  {
    RunBeforeQuery(calls, t, exclude);
    var adds := WithoutQueries(calls);
    var answer, unpurged := Matches(Stored(calls), t, exclude), Matches(Stored(adds), t, exclude);
    AnswerInRegistrationOrder(calls, t, exclude);
    UnpurgedAnswer(calls, t, exclude);
    forall a | a in answer
      ensures Known(calls, a)
    {
      AnsweredIsRegistered(calls, t, exclude, a);
    }
    NoneOvertaken(answer, calls);
    if InRegistrationOrder(answer, adds) {
      OrderIsUnique(answer, unpurged, adds);
    }
  }
}
