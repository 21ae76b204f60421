/**
 * Whole runs of the registry: any interleaving of add_client and get_clients in which the
 * times of the former never decrease and neither do those of the latter. Contacts may run
 * ahead of the queries, or lag behind them.
 */
module ConnectionsRuns {
  import opened ConnectionsSpec
  import opened ContactLog
  import opened Intervals
  import opened Sequences
  import opened Wrappers

  datatype Call = Add(contact: Contact) | Query(time: int, exclude: Option<Address>)

  ghost predicate Monotone(calls: seq<Call>) {
    && (forall i, j :: 0 <= i < j < |calls| && calls[i].Add? && calls[j].Add? ==>
                         calls[i].contact.time <= calls[j].contact.time)
    && (forall i, j :: 0 <= i < j < |calls| && calls[i].Query? && calls[j].Query? ==> calls[i].time <= calls[j].time)
  }

  function After(before: seq<ClientRecord>, call: Call): seq<ClientRecord> {
    match call
    case Add(c) => Added(before, c.address, c.time)
    case Query(t, exclude) => Survivors(before, t, exclude)
  }

  /** The clients stored after the calls. */
  function Stored(calls: seq<Call>): seq<ClientRecord> {
    if calls == [] then [] else After(Stored(calls[..|calls| - 1]), calls[|calls| - 1])
  }

  /** The plain log: queries leave no trace in it. */
  function LogOf(calls: seq<Call>): seq<Contact> {
    if calls == [] then []
    else LogOf(calls[..|calls| - 1]) + if calls[|calls| - 1].Add? then [calls[|calls| - 1].contact] else []
  }

  ghost function Horizon(calls: seq<Call>): Option<int> {
    if calls == [] then None
    else if calls[|calls| - 1].Query? then Some(calls[|calls| - 1].time)
    else Horizon(calls[..|calls| - 1])
  }

  /** Every contact was at or after the latest query before it. */
  ghost predicate Ahead(calls: seq<Call>) {
    calls != [] ==>
      && Ahead(calls[..|calls| - 1])
      && (calls[|calls| - 1].Add? ==> NotBefore(calls[|calls| - 1].contact.time, Horizon(calls[..|calls| - 1])))
  }

  lemma {:induction false} HorizonIsLatestQuery(calls: seq<Call>, t: int)
    requires forall i :: 0 <= i < |calls| && calls[i].Query? ==> calls[i].time <= t
    ensures NotBefore(t, Horizon(calls))
  {
    if calls != [] && calls[|calls| - 1].Add? {
      HorizonIsLatestQuery(calls[..|calls| - 1], t);
    }
  }

  lemma {:induction false} LogIsOfAdds(calls: seq<Call>, t: int)
    requires forall i :: 0 <= i < |calls| && calls[i].Add? ==> calls[i].contact.time <= t
    ensures forall i :: 0 <= i < |LogOf(calls)| ==> LogOf(calls)[i].time <= t
  {
    if calls != [] {
      LogIsOfAdds(calls[..|calls| - 1], t);
    }
  }

  lemma {:induction false} RunKeepsIndex(calls: seq<Call>)
    requires Monotone(calls)
    ensures Index(Stored(calls), LogOf(calls), Horizon(calls), Ahead(calls))
  {
    if calls == [] {
      EmptyIndex();
    } else {
      var front := calls[..|calls| - 1];
      assert Monotone(front);
      RunKeepsIndex(front);
      match calls[|calls| - 1]
      case Add(c) =>
        LogIsOfAdds(front, c.time);
        AddKeepsIndex(Stored(front), LogOf(front), Horizon(front), Ahead(front), c);
      case Query(t, exclude) =>
        HorizonIsLatestQuery(front, t);
        QueryKeepsIndex(Stored(front), LogOf(front), Horizon(front), Ahead(front), t, exclude);
        assert LogOf(calls) == LogOf(front);
    }
  }

  /**
   * The registry refines the plain log: after any run, a query that does not go back in time
   * answers with the addresses that have a contact in its window, once each. Whether expired
   * intervals were purged in between does not show in who is answered.
   */
  lemma RegistryRefinesLog(calls: seq<Call>, t: int, exclude: Option<Address>)
    requires Monotone(calls + [Query(t, exclude)])
    ensures var answer := Matches(Stored(calls), t, exclude);
            && (forall a :: a in answer <==> exclude != Some(a) && Contacted(LogOf(calls), a, t))
            && NoDuplicates(answer)
  {
    RunBeforeQuery(calls, t, exclude);
    QueryIsNaive(Stored(calls), LogOf(calls), Horizon(calls), Ahead(calls), t, exclude);
  }

  /** The answer lists the addresses in the order in which they are stored. */
  lemma AnswerInStoredOrder(calls: seq<Call>, t: int, exclude: Option<Address>)
    requires Monotone(calls + [Query(t, exclude)])
    ensures Matches(Stored(calls), t, exclude) == Selected(Stored(calls), |Stored(calls)|, LogOf(calls), t, exclude)
  {
    RunBeforeQuery(calls, t, exclude);
    MatchesInOrder(Stored(calls), LogOf(calls), Horizon(calls), Ahead(calls), t, exclude);
  }

  lemma RunBeforeQuery(calls: seq<Call>, t: int, exclude: Option<Address>)
    requires Monotone(calls + [Query(t, exclude)])
    ensures Monotone(calls)
    ensures Index(Stored(calls), LogOf(calls), Horizon(calls), Ahead(calls)) && NotBefore(t, Horizon(calls))
  {
    var all := calls + [Query(t, exclude)];
    assert forall i :: 0 <= i < |calls| ==> all[i] == calls[i];
    assert Monotone(calls);
    assert all[|calls|] == Query(t, exclude);
    RunKeepsIndex(calls);
    HorizonIsLatestQuery(calls, t);
  }

  /** In every run with the contacts ahead of the queries, the stored queues are canonical. */
  lemma QueuesAreCanonical(calls: seq<Call>, i: nat) returns (d: nat)
    requires Monotone(calls) && Ahead(calls) && i < |Stored(calls)|
    ensures Structured(Stored(calls))
    ensures var q, times := Stored(calls)[i].connections, TimesOf(LogOf(calls), Stored(calls)[i].address);
            Canonical(q, times, Horizon(calls), d) && Separated(q, times)
  {
    RunKeepsIndex(calls);
    d := QueueIsCanonical(Stored(calls), LogOf(calls), Horizon(calls), i);
  }

  /** Purging does show in the order of the answer: a client that had expired is stored anew, at the end. */
  lemma PurgingShowsInOrder(a: Address, b: Address)
    requires a != b
    ensures var without := [Add(Contact(a, 0)), Add(Contact(b, 100)), Add(Contact(a, 140))];
            var with := without[..2] + [Query(130, None)] + without[2..];
            && Monotone(without) && Monotone(with)
            && Matches(Stored(without), 150, None) == [a, b]
            && Matches(Stored(with), 150, None) == [b, a]
  {
    var without := [Add(Contact(a, 0)), Add(Contact(b, 100)), Add(Contact(a, 140))];
    var with := [Add(Contact(a, 0)), Add(Contact(b, 100)), Query(130, None), Add(Contact(a, 140))];
    assert with == without[..2] + [Query(130, None)] + without[2..];
    TwoClientsStored(a, b);
    StoredSnoc(without[..2], without, without[2]);
    ExtendedStored(a, b);
    StoredSnoc(with[..2], with[..3], with[2]);
    ExpiredPurged(a, b);
    StoredSnoc(with[..3], with, with[3]);
    NewStored(a, b);
  }

  const FIRST := [Interval(0, 120)]
  const SECOND := [Interval(100, 220)]
  const THIRD := [Interval(140, 260)]

  lemma TwoClientsStored(a: Address, b: Address)
    requires a != b
    ensures Stored([Add(Contact(a, 0)), Add(Contact(b, 100))]) == [ClientRecord(a, FIRST), ClientRecord(b, SECOND)]
  {
    StoredSnoc([], [Add(Contact(a, 0))], Add(Contact(a, 0)));
    StoredSnoc([Add(Contact(a, 0))], [Add(Contact(a, 0)), Add(Contact(b, 100))], Add(Contact(b, 100)));
    NewRecord(a, 0);
    NewRecord(b, 100);
    assert [ClientRecord(a, FIRST)][1..] == [];
  }

  /** Without a purge the client keeps its place. */
  lemma ExtendedStored(a: Address, b: Address)
    requires a != b
    ensures var cs := Added([ClientRecord(a, FIRST), ClientRecord(b, SECOND)], a, 140);
            Matches(cs, 150, None) == [a, b]
  {
    var ra := ClientRecord(a, FIRST + THIRD);
    assert Extended(FIRST, 140) == FIRST + THIRD && (FIRST + THIRD)[1..] == THIRD;
    assert Purged(THIRD, 150) == THIRD && Purged(FIRST + THIRD, 150) == THIRD;
    assert [ClientRecord(a, FIRST), ClientRecord(b, SECOND)][1..] == [ClientRecord(b, SECOND)];
    assert Added([ClientRecord(a, FIRST), ClientRecord(b, SECOND)], a, 140) == [ra, ClientRecord(b, SECOND)];
    MatchesOfTwo(ra, ClientRecord(b, SECOND), 150);
  }

  lemma ExpiredPurged(a: Address, b: Address)
    ensures Survivors([ClientRecord(a, FIRST), ClientRecord(b, SECOND)], 130, None) == [ClientRecord(b, SECOND)]
  {
    assert FIRST[1..] == [];
    assert Kept([ClientRecord(a, FIRST), ClientRecord(b, SECOND)], 1, 130, None) == [];
  }

  lemma NewStored(a: Address, b: Address)
    requires a != b
    ensures Matches(Added([ClientRecord(b, SECOND)], a, 140), 150, None) == [b, a]
  {
    NewRecord(a, 140);
    assert [ClientRecord(b, SECOND)][1..] == [];
    assert Added([ClientRecord(b, SECOND)], a, 140) == [ClientRecord(b, SECOND), ClientRecord(a, THIRD)];
    MatchesOfTwo(ClientRecord(b, SECOND), ClientRecord(a, THIRD), 150);
  }

  lemma NewRecord(a: Address, t: int)
    ensures Added([], a, t) == [ClientRecord(a, [Interval(t, t + TIMEOUT)])]
  {
    assert Extended([], t) == [Interval(t, t + TIMEOUT)];
  }

  /** A client heard from once is answered from that second on, for two minutes, both ends included. */
  lemma OneContactWindow(a: Address, s: int, t: int)
    ensures Matches(Added([], a, s), t, None) == if s <= t <= s + 120 then [a] else []
  {
    NewRecord(a, s);
    var c := ClientRecord(a, [Interval(s, s + TIMEOUT)]);
    assert Found([c], 1, t, None) == [] + Answer(c, t, None);
    assert c.connections[1..] == [];
    assert Purged(c.connections, t) == if s + TIMEOUT < t then [] else c.connections;
  }

  lemma StoredSnoc(calls: seq<Call>, all: seq<Call>, call: Call)
    requires all == calls + [call]
    ensures Stored(all) == After(Stored(calls), call)
  {
    assert all[..|calls|] == calls;
  }

  lemma MatchesOfTwo(c: ClientRecord, d: ClientRecord, t: int)
    ensures Matches([c, d], t, None) == Answer(c, t, None) + Answer(d, t, None)
  {
    assert Found([c, d], 1, t, None) == Answer(c, t, None);
  }
}
