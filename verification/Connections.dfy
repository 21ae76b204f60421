/**
 * The classes of connections.h. Erasing while iterating is modelled as it is meant: after
 * the erased client the loop goes on with its successor.
 */
module Connections {
  import opened ConnectionsSpec
  import opened ContactLog
  import opened Intervals
  import opened Wrappers

  class Client {
    const address: Address
    var connections: seq<Interval>

    constructor (address: Address, timestamp: int)
      ensures Record() == ClientRecord(address, Extended([], timestamp))
    {
      this.address := address;
      connections := [Interval(timestamp, timestamp + TIMEOUT)];
    }

    ghost function Record(): ClientRecord
      reads this
    {
      ClientRecord(address, connections)
    }

    /** back() is defined: a stored client has an interval. */
    method AddConnection(timestamp: int)
      requires connections != []
      modifies this`connections
      ensures connections == Extended(old(connections), timestamp)
    {
      var back := connections[|connections| - 1];
      if back.second >= timestamp {
        connections := connections[|connections| - 1 := back.(second := timestamp + TIMEOUT)];
      } else {
        connections := connections + [Interval(timestamp, timestamp + TIMEOUT)];
      }
    }

    /** The inner loop of get_clients. */
    method PopExpired(timestamp: int)
      modifies this`connections
      ensures connections == Purged(old(connections), timestamp)
    {
      while |connections| > 0 && connections[0].second < timestamp
        invariant Purged(connections, timestamp) == Purged(old(connections), timestamp)
        decreases |connections|
      {
        connections := connections[1..];
      }
    }
  }

  class Connections {
    var clients: seq<Client>
    /** What the clients hold. */
    ghost var records: seq<ClientRecord>
    ghost var Repr: set<Client>

    /** The clients are stored by value: no two places share an object. */
    ghost predicate Stored()
      reads this, Repr
    {
      && |records| == |clients|
      && (forall i :: 0 <= i < |clients| ==> clients[i] in Repr && clients[i].Record() == records[i])
      && (forall i, j :: 0 <= i < j < |clients| ==> clients[i] != clients[j])
    }

    ghost predicate Valid()
      reads this, Repr
    {
      Stored() && Structured(records)
    }

    constructor ()
      ensures Valid() && fresh(Repr) && records == []
    {
      clients, records, Repr := [], [], {};
    }

    method AddClient(address: Address, connectionTime: int)
      requires Valid()
      modifies this, Repr
      ensures Valid() && fresh(Repr - old(Repr))
      ensures records == Added(old(records), address, connectionTime)
    {
      var i := 0;
      while i < |clients|
        invariant 0 <= i <= |clients|
        invariant clients == old(clients) && records == old(records) && Repr == old(Repr) && Valid()
        invariant forall j :: 0 <= j < i ==> records[j].address != address
      {
        if clients[i].address == address {
          AddedHere(records, address, connectionTime, i);
          AddConnectionAt(i, connectionTime);
          return;
        }
        i := i + 1;
      }
      AddedHere(records, address, connectionTime, i);
      var client := new Client(address, connectionTime);
      PushBack(client);
    }

    method AddConnectionAt(i: nat, timestamp: int)
      requires Valid() && i < |clients|
      modifies this`records, Repr
      ensures Stored()
      ensures records ==
              old(records)[i := old(records)[i].(connections := Extended(old(records)[i].connections, timestamp))]
    {
      clients[i].AddConnection(timestamp);
      records := records[i := clients[i].Record()];
    }

    method PushBack(client: Client)
      requires Stored() && client !in Repr
      modifies this
      ensures Stored() && Repr == old(Repr) + {client}
      ensures records == old(records) + [client.Record()]
    {
      clients := clients + [client];
      records := records + [client.Record()];
      Repr := Repr + {client};
    }

    /** The inner loop of get_clients, for one client. */
    method PurgeAt(it: nat, timestamp: int)
      requires Stored() && it < |clients|
      modifies this`records, Repr
      ensures Stored()
      ensures records ==
              old(records)[it := old(records)[it].(connections := Purged(old(records)[it].connections, timestamp))]
    {
      clients[it].PopExpired(timestamp);
      records := records[it := clients[it].Record()];
    }

    method Erase(it: nat)
      requires Stored() && it < |clients|
      modifies this`clients, this`records
      ensures Stored()
      ensures records == old(records)[..it] + old(records)[it + 1..]
    {
      clients := clients[..it] + clients[it + 1..];
      records := records[..it] + records[it + 1..];
    }

    /** The body of get_clients' loop: visit the client at the iterator. */
    method Visit(it: nat, found: seq<Address>, timestamp: int, exclude: Option<Address>,
                 ghost before: seq<ClientRecord>, ghost visited: nat)
      returns (next: nat, nowFound: seq<Address>)
      requires Stored() && it < |clients|
      requires AfterVisits(records, found, it, before, visited, timestamp, exclude)
      modifies this`clients, this`records, Repr
      ensures Stored() && visited < |before|
      ensures AfterVisits(records, nowFound, next, before, visited + 1, timestamp, exclude)
    {
      VisitNext(records, found, it, before, visited, timestamp, exclude);
      var client := clients[it];
      if exclude == Some(client.address) {
        return it + 1, found;
      }
      PurgeAt(it, timestamp);
      if |client.connections| == 0 {
        Erase(it);
        return it, found;
      }
      return it + 1, if InBounds(timestamp, client.connections[0]) then found + [client.address] else found;
    }

    method GetClients(timestamp: int, exclude: Option<Address>) returns (theClients: seq<Address>)
      requires Valid()
      modifies this`clients, this`records, Repr
      ensures Valid()
      ensures records == Survivors(old(records), timestamp, exclude)
      ensures theClients == Matches(old(records), timestamp, exclude)
    {
      theClients := [];
      ghost var before, visited := records, 0;
      var it := 0;
      VisitsBegin(before, timestamp, exclude);
      while it != |clients|
        invariant Repr == old(Repr) && Stored()
        invariant AfterVisits(records, theClients, it, before, visited, timestamp, exclude)
        decreases |before| - visited
      {
        it, theClients := Visit(it, theClients, timestamp, exclude, before, visited);
        visited := visited + 1;
      }
      VisitsEnd(records, theClients, it, before, visited, timestamp, exclude);
    }
  }

  /** The first `visited` of the clients `before` have been visited; the iterator is past what is left of them. */
  ghost predicate AfterVisits(view: seq<ClientRecord>, found: seq<Address>, it: nat,
                              before: seq<ClientRecord>, visited: nat, timestamp: int, exclude: Option<Address>)
  {
    && visited <= |before|
    && it == |Kept(before, visited, timestamp, exclude)|
    && view == Kept(before, visited, timestamp, exclude) + before[visited..]
    && found == Found(before, visited, timestamp, exclude)
  }

  lemma VisitsBegin(before: seq<ClientRecord>, timestamp: int, exclude: Option<Address>)
    ensures AfterVisits(before, [], 0, before, 0, timestamp, exclude)
  {
  }

  /** The three things that can become of the client at the iterator. */
  lemma VisitNext(view: seq<ClientRecord>, found: seq<Address>, it: nat,
                  before: seq<ClientRecord>, visited: nat, timestamp: int, exclude: Option<Address>)
    requires AfterVisits(view, found, it, before, visited, timestamp, exclude) && it < |view|
    ensures visited < |before|
    ensures var c := view[it];
            var left, answered := Purged(c.connections, timestamp), found + Answer(c, timestamp, exclude);
            if exclude == Some(c.address) then
              answered == found && AfterVisits(view, found, it + 1, before, visited + 1, timestamp, exclude)
            else if left == [] then
              answered == found
              && AfterVisits(view[it := c.(connections := left)][..it] + view[it := c.(connections := left)][it + 1..],
                             found, it, before, visited + 1, timestamp, exclude)
            else
              AfterVisits(view[it := c.(connections := left)], answered, it + 1, before, visited + 1,
                          timestamp, exclude)
  {
    var done, c := Kept(before, visited, timestamp, exclude), before[visited];
    var purged := c.(connections := Purged(c.connections, timestamp));
    VisitView(done, before, visited, Visited(c, timestamp, exclude), purged);
  }

  lemma VisitView(
    done: seq<ClientRecord>, before: seq<ClientRecord>, visited: nat, left: seq<ClientRecord>, r: ClientRecord
  )
    requires visited < |before|
    ensures var view, it := done + before[visited..], |done|;
            && view[it] == before[visited]
            && (left == [] ==> view[it := r][..it] + view[it := r][it + 1..] == done + left + before[visited + 1..])
            && (|left| == 1 ==> view[it := left[0]] == done + left + before[visited + 1..])
  {
  }

  lemma VisitsEnd(view: seq<ClientRecord>, found: seq<Address>, it: nat,
                  before: seq<ClientRecord>, visited: nat, timestamp: int, exclude: Option<Address>)
    requires AfterVisits(view, found, it, before, visited, timestamp, exclude) && it == |view| && Structured(before)
    ensures view == Survivors(before, timestamp, exclude) && found == Matches(before, timestamp, exclude)
    ensures Structured(view)
  {
    assert visited == |before|;
    SurvivorsStructured(before, timestamp, exclude);
  }

  lemma AddedHere(cs: seq<ClientRecord>, a: Address, time: int, i: nat)
    requires i <= |cs| && (forall j :: 0 <= j < i ==> cs[j].address != a)
    requires i < |cs| ==> cs[i].address == a
    requires Structured(cs)
    ensures Structured(Added(cs, a, time))
    ensures Added(cs, a, time) ==
            if i < |cs| then cs[i := cs[i].(connections := Extended(cs[i].connections, time))]
            else cs + [ClientRecord(a, Extended([], time))]
  {
    var k := AddedAt(cs, a, time);
    AddedLookup(cs, a, time, a);
  }
}
