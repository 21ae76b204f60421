/**
 * What every step of the server keeps, part by part. A step is a receive, one turn of
 * prepare_send_data's loop, or the rest of send.
 */
module ServerInvariant {
  import BufferRuns
  import opened Bytes
  import opened Communication
  import opened ConnectionsSpec
  import opened ContactLog
  import opened Protocol
  import opened Sequences
  import opened ServerModel
  import opened Wrappers

  // ---- The parts ----

  /** The queue holds the newest accepted datagrams, in order. */
  ghost predicate Buffered(w: World)
    requires Wf(w)
  {
    forall i :: 0 <= i < |w.s.queue| ==> w.s.queue[i] == w.h.accepted[Oldest(w) + i].item
  }

  ghost function Ids(ds: seq<Dispatch>): (ids: seq<nat>)
    ensures |ids| == |ds| && forall i :: 0 <= i < |ds| ==> ids[i] == ds[i].id
  {
    seq(|ds|, i requires 0 <= i < |ds| => ds[i].id)
  }

  /** Each datagram no longer buffered was either overwritten or dispatched, once. */
  ghost predicate Fates(w: World)
    requires Wf(w)
  {
    BufferRuns.Parted(Ids(w.h.dispatched), w.h.overwritten, Oldest(w))
  }

  ghost function Arrivals(accepted: seq<Accepted>): (r: seq<int>)
    ensures |r| == |accepted| && forall i :: 0 <= i < |r| ==> r[i] == accepted[i].item.arrival
  {
    seq(|accepted|, i requires 0 <= i < |accepted| => accepted[i].item.arrival)
  }

  /** Arrival times never decrease, and none is after the latest contact. */
  ghost predicate Timed(w: World) {
    && NonDecreasing(Arrivals(w.h.accepted))
    && (w.h.accepted != [] ==>
          && w.h.contacts != []
          && w.h.accepted[|w.h.accepted| - 1].item.arrival <= w.h.contacts[|w.h.contacts| - 1].time)
  }

  /** The latest time a query was made for: the arrival of the latest dispatched datagram. */
  ghost function Horizon(w: World): Option<int>
    requires Wf(w) && Fates(w)
  {
    if w.h.dispatched == [] then None
    else
      LatestLeftQueue(w);
      Some(w.h.accepted[w.h.dispatched[|w.h.dispatched| - 1].id].item.arrival)
  }

  lemma LatestLeftQueue(w: World)
    requires Wf(w) && Fates(w) && w.h.dispatched != []
    ensures w.h.dispatched[|w.h.dispatched| - 1].id < Oldest(w)
  {
    assert Ids(w.h.dispatched)[|w.h.dispatched| - 1] in Ids(w.h.dispatched);
  }

  ghost predicate Indexed(w: World)
    requires Wf(w) && Fates(w)
  {
    Index(w.s.clients, w.h.contacts, Horizon(w), true)
  }

  /**
   * The recipients of a dispatch: everyone but the sender with a contact in the window, once.
   * The latest contact seen is no older than the arrival.
   */
  ghost predicate Addressed(d: Dispatch, h: Ledger) {
    && d.id < |h.accepted| && 0 < d.contactsSeen <= |h.contacts|
    && NoDuplicates(d.recipients)
    && var item := h.accepted[d.id].item;
       && item.arrival <= h.contacts[d.contactsSeen - 1].time
       && forall c :: c in d.recipients <==>
                   c != item.sender && Contacted(h.contacts[..d.contactsSeen], c, item.arrival)
  }

  ghost predicate AllAddressed(w: World) {
    forall i :: 0 <= i < |w.h.dispatched| ==> Addressed(w.h.dispatched[i], w.h)
  }

  /** The clients for which an attempt at datagram `id` ended in the given way. */
  function Reached(attempts: seq<Attempt>, id: nat, result: SendResult): seq<Address> {
    if attempts == [] then []
    else
      var last := attempts[|attempts| - 1];
      Reached(attempts[..|attempts| - 1], id, result)
      + if last.id == id && last.result == result then [last.to] else []
  }

  /** The recipients of a dispatch still to be tried: none, unless it is the latest. */
  ghost function StillPending(w: World, i: nat): multiset<Address>
    requires i < |w.h.dispatched|
  {
    if i == |w.h.dispatched| - 1 then multiset(w.s.pending) else multiset{}
  }

  /** The recipients are those sent to, those that failed and those still pending. */
  ghost predicate Settled(w: World, i: nat)
    requires i < |w.h.dispatched|
  {
    var d := w.h.dispatched[i];
    multiset(d.recipients) ==
    multiset(Reached(w.h.attempts, d.id, Sent)) + multiset(Reached(w.h.attempts, d.id, SendFailed)) + StillPending(w, i)
  }

  /** Attempts go through the dispatched datagrams in order. */
  ghost predicate Delivered(w: World) {
    && (forall i :: 0 <= i < |w.h.dispatched| ==> Settled(w, i))
    && (forall i, j :: 0 <= i < j < |w.h.attempts| ==> w.h.attempts[i].id <= w.h.attempts[j].id)
    && (forall i :: 0 <= i < |w.h.attempts| ==>
          && w.h.dispatched != []
          && w.h.attempts[i].id <= w.h.dispatched[|w.h.dispatched| - 1].id
          && w.h.attempts[i].id in Ids(w.h.dispatched))
  }

  /** Accepted datagrams were relayable, and their items are what the bytes say. */
  ghost predicate Genuine(a: Accepted) {
    && Accepts(a.datagram)
    && a.item.message == Message(TimestampAt(a.datagram), a.datagram[8], [])
  }

  ghost predicate AllGenuine(w: World) {
    && (forall i :: 0 <= i < |w.h.accepted| ==> Genuine(w.h.accepted[i]))
    && (w.h.dispatched != [] ==>
          var id := w.h.dispatched[|w.h.dispatched| - 1].id;
          && id < |w.h.accepted|
          && w.s.current == Some(w.h.accepted[id].item.message.SetMessage(w.s.fileContent)))
  }

  /** The bytes of an attempt: the header of the datagram, the file content, one NUL. */
  ghost predicate Relayed(a: Attempt, w: World) {
    a.id < |w.h.accepted| && |w.h.accepted[a.id].datagram| >= MESSAGE_OFFSET &&
    a.bytes == w.h.accepted[a.id].datagram[..MESSAGE_OFFSET] + w.s.fileContent + [NUL]
  }

  ghost predicate AllRelayed(w: World) {
    forall i :: 0 <= i < |w.h.attempts| ==> Relayed(w.h.attempts[i], w)
  }

  /** POLLIN is always armed; POLLOUT whenever there is something to send. */
  predicate Armed(w: World) {
    w.s.pollIn && (w.s.queue != [] || w.s.pending != [] ==> w.s.pollOut)
  }

  ghost predicate Inv(w: World) {
    && Wf(w) && Buffered(w) && Fates(w) && Timed(w) && Indexed(w) && AllAddressed(w)
    && Delivered(w) && AllGenuine(w) && AllRelayed(w) && Armed(w)
  }

  lemma StartInv(capacity: nat, fileContent: seq<Byte>)
    requires capacity > 0
    ensures Inv(Start(capacity, fileContent))
  {
    EmptyIndex();
  }

  // ---- The parts depend on parts of the world only, and growing logs do not hurt them ----

  lemma AddressedGrows(w: World, w': World)
    requires AllAddressed(w) && w'.h.dispatched == w.h.dispatched
    requires w.h.contacts <= w'.h.contacts && w.h.accepted <= w'.h.accepted
    ensures AllAddressed(w')
  {
    forall i | 0 <= i < |w'.h.dispatched|
      ensures Addressed(w'.h.dispatched[i], w'.h)
    {
      var d := w.h.dispatched[i];
      assert Addressed(d, w.h);
      assert w'.h.contacts[..d.contactsSeen] == w.h.contacts[..d.contactsSeen];
    }
  }

  lemma RelayedGrows(w: World, w': World)
    requires AllRelayed(w) && w'.h.attempts == w.h.attempts
    requires w.h.accepted <= w'.h.accepted && w'.s.fileContent == w.s.fileContent
    ensures AllRelayed(w')
  {
    forall i | 0 <= i < |w'.h.attempts|
      ensures Relayed(w'.h.attempts[i], w')
    {
      assert Relayed(w.h.attempts[i], w);
    }
  }

  lemma DeliveredStays(w: World, w': World)
    requires Delivered(w) && w'.h.dispatched == w.h.dispatched && w'.h.attempts == w.h.attempts
    requires w'.s.pending == w.s.pending
    ensures Delivered(w')
  {
    forall i | 0 <= i < |w'.h.dispatched|
      ensures Settled(w', i)
    {
      SettledStays(w, w', i);
    }
  }

  lemma SettledStays(w: World, w': World, i: nat)
    requires i < |w.h.dispatched| && Settled(w, i)
    requires w'.h.dispatched == w.h.dispatched && w'.h.attempts == w.h.attempts && w'.s.pending == w.s.pending
    ensures Settled(w', i)
  {
    assert StillPending(w', i) == StillPending(w, i);
  }

  lemma GenuineGrows(w: World, w': World)
    requires AllGenuine(w) && w'.h.dispatched == w.h.dispatched
    requires w.h.accepted <= w'.h.accepted
    requires forall i :: |w.h.accepted| <= i < |w'.h.accepted| ==> Genuine(w'.h.accepted[i])
    requires w'.s.current == w.s.current && w'.s.fileContent == w.s.fileContent
    ensures AllGenuine(w')
  {
    forall i | 0 <= i < |w'.h.accepted|
      ensures Genuine(w'.h.accepted[i])
    {
      assert i < |w.h.accepted| ==> Genuine(w.h.accepted[i]);
    }
  }

  // ---- Receive ----

  /** The receiver's view of a relayable datagram. */
  lemma TakenIsRelayable(incoming: Incoming, arrival: int)
    ensures Taken(incoming.outcome).Some? <==> Relayable(incoming)
    ensures Relayable(incoming) ==>
              && Accepted(incoming.outcome.bytes,
                          Queued(arrival, Taken(incoming.outcome).value, SenderOf(incoming)))
                 == RelayedItem(incoming, arrival)
              && Genuine(RelayedItem(incoming, arrival))
  {
    if incoming.outcome.Datagram? {
      TakenIsHeaderUnlessNul(incoming.outcome.bytes);
      AcceptsWhatArrived(incoming.outcome.bytes);
    }
  }

  lemma TakeIsRelay(w: World, incoming: Incoming, arrival: int)
    requires Wf(w)
    ensures if Relayable(incoming) then
              var a := RelayedItem(incoming, arrival);
              Genuine(a) && Take(w, incoming, arrival) == Enqueue(w, a.datagram, a.item)
            else Take(w, incoming, arrival) == w
  {
    TakenIsRelayable(incoming, arrival);
  }

  /** As long as there is room nothing is lost; what is acceptable is queued, and nothing else. */
  lemma TakeQueues(w: World, incoming: Incoming, arrival: int)
    requires Wf(w)
    ensures var w' := Take(w, incoming, arrival);
            var full := |w.s.queue| == w.s.capacity;
            if Relayable(incoming) then
              && w'.s.queue == (if full then w.s.queue[1..] else w.s.queue) + [RelayedItem(incoming, arrival).item]
              && w'.h.overwritten == w.h.overwritten + (if full then [Oldest(w)] else [])
              && w'.s.pollIn && w'.s.pollOut
            else w' == w
  {
    TakeIsRelay(w, incoming, arrival);
  }

  lemma EnqueueKeepsBuffered(w: World, datagram: seq<Byte>, item: Queued)
    requires Wf(w) && Buffered(w)
    ensures Buffered(Enqueue(w, datagram, item))
  {
  }

  lemma EnqueueKeepsFates(w: World, datagram: seq<Byte>, item: Queued)
    requires Wf(w) && Fates(w)
    ensures Fates(Enqueue(w, datagram, item))
    ensures Horizon(Enqueue(w, datagram, item)) == Horizon(w)
    ensures |w.s.queue| < w.s.capacity ==>
              && Enqueue(w, datagram, item).s.queue == w.s.queue + [item]
              && Enqueue(w, datagram, item).h.overwritten == w.h.overwritten
  {
    var w' := Enqueue(w, datagram, item);
    if |w.s.queue| == w.s.capacity {
      BufferRuns.OneMoreLeaves(Ids(w.h.dispatched), w.h.overwritten, Oldest(w));
      assert Oldest(w') == Oldest(w) + 1 && w'.h.overwritten == w.h.overwritten + [Oldest(w)];
    } else {
      assert Oldest(w') == Oldest(w) && w'.h.overwritten == w.h.overwritten;
    }
    if w.h.dispatched != [] {
      LatestLeftQueue(w);
    }
  }

  /** Accepting a datagram overwrites the one accepted so many before it, unless that is dispatched already. */
  lemma EnqueueOverwrites(w: World, datagram: seq<Byte>, item: Queued, id: nat)
    requires Wf(w) && Fates(w)
    ensures id in Enqueue(w, datagram, item).h.overwritten <==>
            id in w.h.overwritten || (id + w.s.capacity == |w.h.accepted| && id !in Ids(w.h.dispatched))
  {
    var before, after := w.h.overwritten, Enqueue(w, datagram, item).h.overwritten;
    if |w.s.queue| == w.s.capacity {
      assert after == before + [Oldest(w)];
      assert id in after <==> id in before || id == Oldest(w);
    }
  }

  lemma EnqueueKeepsTimes(w: World, datagram: seq<Byte>, item: Queued, contact: Contact)
    requires Wf(w) && Timed(w)
    requires w.h.contacts != [] ==> w.h.contacts[|w.h.contacts| - 1].time <= item.arrival
    requires item.arrival <= contact.time
    ensures Timed(AddContact(Enqueue(w, datagram, item), contact))
  {
    var before, after := Arrivals(w.h.accepted), Arrivals(w.h.accepted + [Accepted(datagram, item)]);
    forall i, j | 0 <= i <= j < |after|
      ensures after[i] <= after[j]
    {
      if j < |before| {
        assert before[i] <= before[j];
      } else if i < |before| {
        assert before[i] <= before[|before| - 1];
      }
    }
  }

  lemma EnqueueKeepsRest(w: World, datagram: seq<Byte>, item: Queued)
    requires Wf(w) && AllAddressed(w) && Delivered(w) && AllGenuine(w) && AllRelayed(w)
    requires Genuine(Accepted(datagram, item))
    ensures var w' := Enqueue(w, datagram, item);
            AllAddressed(w') && Delivered(w') && AllGenuine(w') && AllRelayed(w') && Armed(w')
  {
    var w' := Enqueue(w, datagram, item);
    AddressedGrows(w, w');
    RelayedGrows(w, w');
    DeliveredStays(w, w');
    GenuineGrows(w, w');
  }

  /** The horizon is the arrival of a datagram, and those are never after the latest contact. */
  lemma HorizonBeforeContacts(w: World, t: int)
    requires Wf(w) && Fates(w) && Timed(w)
    requires w.h.contacts != [] ==> w.h.contacts[|w.h.contacts| - 1].time <= t
    ensures NotBefore(t, Horizon(w))
  {
    if w.h.dispatched != [] {
      var id := w.h.dispatched[|w.h.dispatched| - 1].id;
      LatestLeftQueue(w);
      assert Arrivals(w.h.accepted)[id] <= Arrivals(w.h.accepted)[|w.h.accepted| - 1];
    }
  }

  lemma AddContactKeepsIndex(w: World, c: Contact)
    requires Wf(w) && Fates(w) && Timed(w) && Indexed(w)
    requires w.h.contacts != [] ==> w.h.contacts[|w.h.contacts| - 1].time <= c.time
    ensures Fates(AddContact(w, c)) && Indexed(AddContact(w, c))
  {
    HorizonBeforeContacts(w, c.time);
    AddKeepsIndex(w.s.clients, w.h.contacts, Horizon(w), true, c);
    assert Horizon(AddContact(w, c)) == Horizon(w);
  }

  lemma AddContactKeepsRest(w: World, c: Contact)
    requires Wf(w) && Buffered(w) && AllAddressed(w) && Delivered(w) && AllGenuine(w) && AllRelayed(w)
    ensures var w' := AddContact(w, c);
            Buffered(w') && AllAddressed(w') && Delivered(w') && AllGenuine(w') && AllRelayed(w')
  {
    var w' := AddContact(w, c);
    AddressedGrows(w, w');
    RelayedGrows(w, w');
    DeliveredStays(w, w');
    GenuineGrows(w, w');
  }

  lemma ReceiveKeepsInv(w: World, incoming: Incoming, arrival: int, time: int)
    requires Inv(w) && ClockAllows(w.h.contacts, Receive(incoming, arrival, time))
    ensures Inv(ReceiveStep(w, incoming, arrival, time))
  {
    var contact := Contact(SenderOf(incoming), time);
    TakeIsRelay(w, incoming, arrival);
    if Relayable(incoming) {
      AcceptedKeepsInv(w, RelayedItem(incoming, arrival), contact);
    } else {
      RejectedKeepsInv(w, contact);
    }
  }

  lemma RejectedKeepsInv(w: World, contact: Contact)
    requires Inv(w)
    requires w.h.contacts != [] ==> w.h.contacts[|w.h.contacts| - 1].time <= contact.time
    ensures Inv(AddContact(w, contact))
  {
    AddContactKeepsIndex(w, contact);
    AddContactKeepsRest(w, contact);
  }

  lemma AcceptedKeepsInv(w: World, a: Accepted, contact: Contact)
    requires Inv(w) && Genuine(a)
    requires w.h.contacts != [] ==> w.h.contacts[|w.h.contacts| - 1].time <= a.item.arrival
    requires a.item.arrival <= contact.time
    ensures Inv(AddContact(Enqueue(w, a.datagram, a.item), contact))
  {
    EnqueueKeepsBuffered(w, a.datagram, a.item);
    EnqueueKeepsFates(w, a.datagram, a.item);
    EnqueueKeepsRest(w, a.datagram, a.item);
    EnqueueKeepsTimes(w, a.datagram, a.item, contact);
    AddContactKeepsRest(Enqueue(w, a.datagram, a.item), contact);
    EnqueueThenIndex(w, a.datagram, a.item, contact);
  }

  lemma EnqueueThenIndex(w: World, datagram: seq<Byte>, item: Queued, c: Contact)
    requires Wf(w) && Buffered(w) && Fates(w) && Timed(w) && Indexed(w)
    requires w.h.contacts != [] ==> w.h.contacts[|w.h.contacts| - 1].time <= c.time
    ensures var w' := AddContact(Enqueue(w, datagram, item), c);
            Fates(w') && Indexed(w')
  {
    var w1 := Enqueue(w, datagram, item);
    EnqueueKeepsFates(w, datagram, item);
    HorizonBeforeContacts(w, c.time);
    AddKeepsIndex(w.s.clients, w.h.contacts, Horizon(w), true, c);
    assert Horizon(AddContact(w1, c)) == Horizon(w1);
  }

  // ---- One turn of prepare_send_data ----

  lemma IdsSnoc(ds: seq<Dispatch>, d: Dispatch)
    ensures Ids(ds + [d]) == Ids(ds) + [d.id]
  {
  }

  lemma DispatchKeepsFates(w: World)
    requires Wf(w) && w.s.queue != [] && Buffered(w) && Fates(w)
    ensures Buffered(DispatchOne(w)) && Fates(DispatchOne(w))
    ensures Horizon(DispatchOne(w)) == Some(w.s.queue[0].arrival)
  {
    var w' := DispatchOne(w);
    var d := w'.h.dispatched[|w.h.dispatched|];
    IdsSnoc(w.h.dispatched, d);
    BufferRuns.OneMoreLeaves(Ids(w.h.dispatched), w.h.overwritten, Oldest(w));
    assert w.s.queue[0] == w.h.accepted[Oldest(w) + 0].item;
  }

  /** Datagrams are dispatched in the order of their arrival times, so queries never go back. */
  lemma QueueNotBeforeHorizon(w: World, i: nat)
    requires Wf(w) && Buffered(w) && Fates(w) && Timed(w) && i < |w.s.queue|
    ensures NotBefore(w.s.queue[i].arrival, Horizon(w))
  {
    if w.h.dispatched != [] {
      var id := w.h.dispatched[|w.h.dispatched| - 1].id;
      LatestLeftQueue(w);
      assert Arrivals(w.h.accepted)[id] <= Arrivals(w.h.accepted)[Oldest(w) + i];
    }
  }

  lemma DispatchKeepsIndex(w: World)
    requires Wf(w) && w.s.queue != [] && Buffered(w) && Fates(w) && Timed(w) && Indexed(w)
    ensures Fates(DispatchOne(w)) && Indexed(DispatchOne(w))
  {
    var item := w.s.queue[0];
    DispatchKeepsFates(w);
    QueueNotBeforeHorizon(w, 0);
    QueryKeepsIndex(w.s.clients, w.h.contacts, Horizon(w), true, item.arrival, Some(item.sender));
  }

  /** The answer of the registry is what a dispatch needs. */
  lemma DispatchAddressed(w: World)
    requires Wf(w) && w.s.queue != [] && Buffered(w) && Fates(w) && Timed(w) && Indexed(w)
    ensures var h := DispatchOne(w).h;
            Addressed(h.dispatched[|w.h.dispatched|], h)
  {
    var item := w.s.queue[0];
    QueueNotBeforeHorizon(w, 0);
    QueryIsNaive(w.s.clients, w.h.contacts, Horizon(w), true, item.arrival, Some(item.sender));
    assert item == w.h.accepted[Oldest(w) + 0].item;
    assert w.h.contacts[..|w.h.contacts|] == w.h.contacts;
    assert Arrivals(w.h.accepted)[Oldest(w)] <= Arrivals(w.h.accepted)[|w.h.accepted| - 1];
  }

  lemma DispatchKeepsAddressed(w: World)
    requires Wf(w) && w.s.queue != [] && Buffered(w) && Fates(w) && Timed(w) && Indexed(w) && AllAddressed(w)
    ensures AllAddressed(DispatchOne(w))
  {
    var h := DispatchOne(w).h;
    DispatchAddressed(w);
    forall i | 0 <= i < |h.dispatched|
      ensures Addressed(h.dispatched[i], h)
    {
      assert i < |w.h.dispatched| ==> Addressed(w.h.dispatched[i], w.h) && h.dispatched[i] == w.h.dispatched[i];
    }
  }

  lemma {:induction false} ReachedNobodyYet(attempts: seq<Attempt>, id: nat, result: SendResult)
    requires forall i :: 0 <= i < |attempts| ==> attempts[i].id != id
    ensures Reached(attempts, id, result) == []
  {
    if attempts != [] {
      ReachedNobodyYet(attempts[..|attempts| - 1], id, result);
    }
  }

  /** Nobody has been tried with a message that is still buffered. */
  lemma BufferedIsUntried(w: World)
    requires Wf(w) && Fates(w) && Delivered(w)
    ensures Reached(w.h.attempts, Oldest(w), Sent) == [] && Reached(w.h.attempts, Oldest(w), SendFailed) == []
  {
    if w.h.dispatched != [] {
      LatestLeftQueue(w);
    }
    ReachedNobodyYet(w.h.attempts, Oldest(w), Sent);
    ReachedNobodyYet(w.h.attempts, Oldest(w), SendFailed);
  }

  lemma DispatchSettles(w: World, i: nat)
    requires Wf(w) && w.s.queue != [] && w.s.pending == [] && i <= |w.h.dispatched|
    requires i < |w.h.dispatched| ==> Settled(w, i)
    requires Reached(w.h.attempts, Oldest(w), Sent) == [] && Reached(w.h.attempts, Oldest(w), SendFailed) == []
    ensures Settled(DispatchOne(w), i)
  {
  }

  lemma DispatchKeepsDelivered(w: World)
    requires Wf(w) && w.s.queue != [] && Fates(w) && Delivered(w) && w.s.pending == []
    ensures Delivered(DispatchOne(w))
  {
    var w', n := DispatchOne(w), |w.h.dispatched|;
    BufferedIsUntried(w);
    forall i | 0 <= i < n + 1
      ensures Settled(w', i)
    {
      assert i < n ==> Settled(w, i);
      DispatchSettles(w, i);
    }
    IdsSnoc(w.h.dispatched, w'.h.dispatched[n]);
    if n > 0 {
      LatestLeftQueue(w);
    }
  }

  lemma DispatchKeepsInv(w: World)
    requires Inv(w) && w.s.queue != [] && w.s.pending == []
    ensures Inv(DispatchOne(w))
  {
    var w' := DispatchOne(w);
    DispatchKeepsFates(w);
    DispatchKeepsIndex(w);
    DispatchKeepsAddressed(w);
    DispatchKeepsDelivered(w);
    assert w.s.queue[0] == w.h.accepted[Oldest(w) + 0].item;
    RelayedGrows(w, w');
  }

  lemma {:induction false} PrepareKeepsInv(w: World)
    requires Inv(w)
    ensures Inv(Prepare(w))
    decreases |w.s.queue|
  {
    if w.s.pending == [] && w.s.queue != [] {
      DispatchKeepsInv(w);
      PrepareKeepsInv(DispatchOne(w));
    }
  }

  // ---- The rest of send ----

  lemma ReachedSnoc(attempts: seq<Attempt>, a: Attempt, all: seq<Attempt>, id: nat, result: SendResult)
    requires |all| == |attempts| + 1 && all[..|attempts|] == attempts && all[|attempts|] == a
    ensures Reached(all, id, result) ==
            Reached(attempts, id, result) + if a.id == id && a.result == result then [a.to] else []
  {
  }

  lemma RotationKeepsPending(pending: seq<Address>)
    requires pending != []
    ensures multiset(pending) == multiset(pending[1..]) + multiset{pending[0]}
    ensures multiset(pending[1..] + [pending[0]]) == multiset(pending)
  {
    assert pending == [pending[0]] + pending[1..];
  }

  lemma EmitKeepsDelivered(w: World, outcome: SendtoOutcome)
    requires Wf(w) && Fates(w) && Delivered(w) && w.s.pending != []
    ensures Delivered(Emit(w, outcome))
  {
    var w', n := Emit(w, outcome), |w.h.dispatched|;
    var a := w'.h.attempts[|w.h.attempts|];
    assert Ids(w.h.dispatched)[n - 1] == a.id;
    forall i | 0 <= i < n
      ensures Settled(w', i)
    {
      EmitSettles(w, w', a, i);
    }
  }

  /** The attempt makes a difference to the latest dispatch only. */
  lemma EmitSettles(w: World, w': World, a: Attempt, i: nat)
    requires i < |w.h.dispatched| && Settled(w, i) && Increasing(Ids(w.h.dispatched))
    requires w.s.pending != [] && a.to == w.s.pending[0] && a.id == w.h.dispatched[|w.h.dispatched| - 1].id
    requires w'.s.pending == w.s.pending[1..] + if a.result.WouldBlock? then [a.to] else []
    requires w'.h.dispatched == w.h.dispatched
    requires |w'.h.attempts| == |w.h.attempts| + 1 && w'.h.attempts[..|w.h.attempts|] == w.h.attempts
    requires w'.h.attempts[|w.h.attempts|] == a
    ensures Settled(w', i)
  {
    var id := w.h.dispatched[i].id;
    ReachedSnoc(w.h.attempts, a, w'.h.attempts, id, Sent);
    ReachedSnoc(w.h.attempts, a, w'.h.attempts, id, SendFailed);
    var sent, failed := Reached(w.h.attempts, id, Sent), Reached(w.h.attempts, id, SendFailed);
    if i < |w.h.dispatched| - 1 {
      assert Ids(w.h.dispatched)[i] < Ids(w.h.dispatched)[|w.h.dispatched| - 1];
      assert sent + [] == sent && failed + [] == failed;
    } else {
      OneMovesOn(sent, failed, w.s.pending, a.result);
    }
  }

  /** The first pending client moves to the sent, the failed or the end of the pending ones. */
  lemma OneMovesOn(sent: seq<Address>, failed: seq<Address>, pending: seq<Address>, result: SendResult)
    requires pending != []
    ensures multiset(sent + (if result == Sent then [pending[0]] else []))
            + multiset(failed + (if result == SendFailed then [pending[0]] else []))
            + multiset(pending[1..] + (if result.WouldBlock? then [pending[0]] else []))
            == multiset(sent) + multiset(failed) + multiset(pending)
  {
    RotationKeepsPending(pending);
  }

  /** Re-encoding the message with the file content keeps the header bytes of the datagram. */
  lemma RelayBytes(a: Accepted, fileContent: seq<Byte>)
    requires Genuine(a)
    ensures Frame(a.item.message.SetMessage(fileContent), true) == a.datagram[..MESSAGE_OFFSET] + fileContent + [NUL]
  {
    BigEndianInvertsFromBigEndian(a.datagram[..8]);
    assert a.datagram[..MESSAGE_OFFSET] == a.datagram[..8] + [a.datagram[8]];
  }

  lemma EmitKeepsRelayed(w: World, outcome: SendtoOutcome)
    requires Wf(w) && Fates(w) && AllGenuine(w) && AllRelayed(w) && w.s.pending != []
    ensures AllRelayed(Emit(w, outcome))
  {
    var w' := Emit(w, outcome);
    RelayBytes(w.h.accepted[w.h.dispatched[|w.h.dispatched| - 1].id], w.s.fileContent);
    forall i | 0 <= i < |w'.h.attempts|
      ensures Relayed(w'.h.attempts[i], w')
    {
      if i < |w.h.attempts| {
        assert Relayed(w.h.attempts[i], w);
      }
    }
  }

  /** Trying a client touches neither the queue nor the registry, the contacts or the accepted datagrams. */
  lemma EmitKeepsQueue(w: World, outcome: SendtoOutcome)
    requires Wf(w) && Buffered(w) && Fates(w) && Timed(w) && Indexed(w)
    ensures var w' := Emit(w, outcome);
            Buffered(w') && Fates(w') && Timed(w') && Indexed(w')
  {
    var w' := Emit(w, outcome);
    assert w'.h.dispatched == w.h.dispatched && w'.h.accepted == w.h.accepted && w'.h.overwritten == w.h.overwritten;
    assert w'.s.queue == w.s.queue;
  }

  lemma EmitKeepsInv(w: World, outcome: SendtoOutcome)
    requires Inv(w) && (w.s.pending == [] ==> w.s.queue == [])
    ensures Inv(Emit(w, outcome))
  {
    var w' := Emit(w, outcome);
    EmitKeepsQueue(w, outcome);
    AddressedGrows(w, w');
    GenuineGrows(w, w');
    if w.s.pending != [] {
      EmitKeepsDelivered(w, outcome);
      EmitKeepsRelayed(w, outcome);
    } else {
      DeliveredStays(w, w');
      RelayedGrows(w, w');
    }
  }

  // ---- Runs ----

  lemma StepKeepsInv(w: World, e: Event)
    requires Inv(w) && ClockAllows(w.h.contacts, e)
    ensures Inv(Step(w, e))
  {
    match e
    case Receive(incoming, arrival, contact) => ReceiveKeepsInv(w, incoming, arrival, contact);
    case Send(outcome) =>
      PrepareKeepsInv(w);
      EmitKeepsInv(Prepare(w), outcome);
  }
}
