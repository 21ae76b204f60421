/**
 * Whole runs of the server: every sequence of receives and sends, with any outcomes, in
 * which the clock never goes back.
 */
module ServerRuns {
  import opened Bytes
  import opened Communication
  import opened ConnectionsSpec
  import opened ContactLog
  import opened FileReader
  import opened Intervals
  import opened Protocol
  import opened Sequences
  import opened ServerInvariant
  import opened ServerModel
  import opened Wrappers

  // ---- The ledger is what the events say ----

  /** Dispatching moves on in the ledger's list of dispatches, and nowhere else. */
  lemma {:induction false} PrepareGrows(w: World)
    requires Wf(w)
    ensures var w' := Prepare(w);
            && w'.h.contacts == w.h.contacts && w'.h.accepted == w.h.accepted
            && w'.h.overwritten == w.h.overwritten && w'.h.attempts == w.h.attempts
            && w'.s.capacity == w.s.capacity && w'.s.fileContent == w.s.fileContent
            && w'.s.pollIn == w.s.pollIn && w'.s.pollOut == w.s.pollOut
            && w.h.dispatched <= w'.h.dispatched
            && |w'.h.dispatched| - |w.h.dispatched| == |w.s.queue| - |w'.s.queue|
            && forall i :: |w.h.dispatched| <= i < |w'.h.dispatched| ==>
                 && w'.h.dispatched[i].contactsSeen == |w.h.contacts|
                 && w'.h.dispatched[i].id == Oldest(w) + i - |w.h.dispatched|
    decreases |w.s.queue|
  {
    if w.s.pending == [] && w.s.queue != [] {
      PrepareGrows(DispatchOne(w));
    }
  }

  lemma StepLogs(w: World, e: Event)
    requires Wf(w)
    ensures var w' := Step(w, e);
            && w'.s.capacity == w.s.capacity && w'.s.fileContent == w.s.fileContent
            && w'.h.contacts == w.h.contacts + ContactOf(e)
            && w'.h.accepted == w.h.accepted
               + (if e.Receive? && Relayable(e.incoming) then [RelayedItem(e.incoming, e.arrival)] else [])
  {
    match e
    case Receive(incoming, arrival, _) => TakenIsRelayable(incoming, arrival);
    case Send(_) => PrepareGrows(w);
  }

  /** Every run keeps the invariant, and logs its contacts and accepted datagrams faithfully. */
  lemma {:induction false} RunKeepsInv(capacity: nat, fileContent: seq<Byte>, es: seq<Event>)
    requires capacity > 0 && WellTimed(es)
    ensures var w := Run(Start(capacity, fileContent), es);
            && Inv(w) && w.s.capacity == capacity && w.s.fileContent == fileContent
            && w.h.contacts == ContactsOf(es) && w.h.accepted == AcceptedOf(es)
  {
    if es == [] {
      StartInv(capacity, fileContent);
    } else {
      var n := |es| - 1;
      RunKeepsInv(capacity, fileContent, es[..n]);
      StepKeepsInv(Run(Start(capacity, fileContent), es[..n]), es[n]);
      StepLogs(Run(Start(capacity, fileContent), es[..n]), es[n]);
    }
  }

  /** The state w is reached by the events es from a start with the same capacity and file content. */
  ghost predicate RunsTo(w: World, es: seq<Event>) {
    w.s.capacity > 0 && WellTimed(es) && w == Run(Start(w.s.capacity, w.s.fileContent), es)
  }

  /** Every reachable state satisfies the invariant, and its logs are what the events say. */
  lemma ReachedKeepsInv(w: World, es: seq<Event>)
    requires RunsTo(w, es)
    ensures Inv(w) && w.h.contacts == ContactsOf(es) && w.h.accepted == AcceptedOf(es)
  {
    RunKeepsInv(w.s.capacity, w.s.fileContent, es);
  }

  // ---- Who gets a message ----

  /** What is said of a dispatch is said of it in the latest log of contacts, when none came since. */
  lemma AddressedNow(h: Ledger, i: nat)
    requires i < |h.dispatched| && Addressed(h.dispatched[i], h)
    requires h.dispatched[i].contactsSeen == |h.contacts|
    ensures var d := h.dispatched[i];
            var item := h.accepted[d.id].item;
            && NoDuplicates(d.recipients)
            && forall c :: c in d.recipients <==> c != item.sender && Contacted(h.contacts, c, item.arrival)
  {
    assert h.contacts[..|h.contacts|] == h.contacts;
  }

  /**
   * After any run, each message the next send takes from the buffer, however late, goes to
   * exactly the addresses, other than its sender's, that were heard from at most TIMEOUT
   * before its arrival. Re-registrations, merged intervals and purges do not show.
   */
  lemma RecipientsAreNaive(w: World, es: seq<Event>, outcome: SendtoOutcome, i: nat)
    requires RunsTo(w, es)
    requires |w.h.dispatched| <= i < |SendStep(w, outcome).h.dispatched|
    ensures var d := SendStep(w, outcome).h.dispatched[i];
            && d.id == Oldest(w) + i - |w.h.dispatched| && d.id < |AcceptedOf(es)|
            && NoDuplicates(d.recipients)
            && var item := AcceptedOf(es)[d.id].item;
               forall c :: c in d.recipients <==> c != item.sender && Contacted(ContactsOf(es), c, item.arrival)
  {
    ReachedKeepsInv(w, es);
    PrepareGrows(w);
    var h := SendStep(w, outcome).h;
    assert Addressed(h.dispatched[i], h) by {
      StepKeepsInv(w, Send(outcome));
    }
    AddressedNow(h, i);
  }

  lemma TooLate(h: Ledger, i: nat, c: Address)
    requires i < |h.dispatched| && Addressed(h.dispatched[i], h) && NonDecreasing(Times(h.contacts))
    requires c != h.accepted[h.dispatched[i].id].item.sender
    requires Contacted(h.contacts, c, h.accepted[h.dispatched[i].id].item.arrival)
    ensures var d := h.dispatched[i];
            || c in d.recipients
            || exists j :: d.contactsSeen <= j < |h.contacts|
                           && h.contacts[j] == Contact(c, h.accepted[d.id].item.arrival)
  {
    var d, log := h.dispatched[i], h.contacts;
    var t := h.accepted[d.id].item.arrival;
    var j :| 0 <= j < |log| && log[j].address == c && log[j].time <= t <= log[j].time + TIMEOUT;
    if j < d.contactsSeen {
      assert log[..d.contactsSeen][j] == log[j];
    } else {
      assert Times(log)[d.contactsSeen - 1] <= Times(log)[j];
      assert log[j] == Contact(c, t);
    }
  }

  /**
   * Contacts logged after a message was dispatched would not have changed its recipients,
   * unless they came in the very second of its arrival.
   */
  lemma LaterContactsAreTooLate(w: World, es: seq<Event>, i: nat, c: Address)
    requires RunsTo(w, es)
    requires i < |w.h.dispatched|
    ensures var d := w.h.dispatched[i];
            && d.id < |AcceptedOf(es)| && d.contactsSeen <= |ContactsOf(es)|
            && var item := AcceptedOf(es)[d.id].item;
               c != item.sender && Contacted(ContactsOf(es), c, item.arrival) ==>
                 c in d.recipients
                 || exists j :: d.contactsSeen <= j < |ContactsOf(es)| && ContactsOf(es)[j] == Contact(c, item.arrival)
  {
    ReachedKeepsInv(w, es);
    var h := w.h;
    var d := h.dispatched[i];
    assert Addressed(d, h);
    if c != h.accepted[d.id].item.sender && Contacted(h.contacts, c, h.accepted[d.id].item.arrival) {
      TooLate(h, i, c);
    }
  }

  /**
   * At any time after a message was dispatched, its recipients are those the log as it was
   * at the dispatch determines.
   */
  lemma RecipientsOfPast(w: World, es: seq<Event>, i: nat)
    requires RunsTo(w, es) && i < |w.h.dispatched|
    ensures var d := w.h.dispatched[i];
            && d.id < |AcceptedOf(es)| && 0 < d.contactsSeen <= |ContactsOf(es)|
            && NoDuplicates(d.recipients)
            && var item := AcceptedOf(es)[d.id].item;
               forall c :: c in d.recipients <==>
                           c != item.sender && Contacted(ContactsOf(es)[..d.contactsSeen], c, item.arrival)
  {
    ReachedKeepsInv(w, es);
    assert Addressed(w.h.dispatched[i], w.h);
  }

  lemma ReceiveExtends(front: seq<Event>, e: Event, es: seq<Event>)
    requires |es| == |front| + 1 && es[..|front|] == front && es[|front|] == e
    ensures ContactsOf(es) == ContactsOf(front) + ContactOf(e)
    ensures WellTimed(es) <==> WellTimed(front) && ClockAllows(ContactsOf(front), e)
    ensures AcceptedOf(es) == AcceptedOf(front)
            + if e.Receive? && Relayable(e.incoming) then [RelayedItem(e.incoming, e.arrival)] else []
  {
  }

  /** The rest of the run: the send that takes message i, then a contact of b in the same second. */
  function SentThenHeard(es: seq<Event>, outcome: SendtoOutcome, b: Address, t: int): seq<Event> {
    es + [Send(outcome), Receive(Incoming(b, Datagram([])), t, t)]
  }

  lemma SentThenHeardIsTimed(es: seq<Event>, outcome: SendtoOutcome, b: Address, t: int)
    requires WellTimed(es) && ContactsOf(es) != [] && ContactsOf(es)[|ContactsOf(es)| - 1].time == t
    ensures var all := SentThenHeard(es, outcome, b, t);
            && WellTimed(all) && ContactsOf(all) == ContactsOf(es) + [Contact(b, t)]
            && AcceptedOf(all) == AcceptedOf(es)
  {
    var send, heard := Send(outcome), Receive(Incoming(b, Datagram([])), t, t);
    var sent, all := es + [send], SentThenHeard(es, outcome, b, t);
    ReceiveExtends(es, send, sent);
    ReceiveExtends(sent, heard, all);
  }

  lemma SentThenHeardRuns(w: World, es: seq<Event>, outcome: SendtoOutcome, b: Address, t: int)
    returns (w': World)
    requires RunsTo(w, es) && WellTimed(SentThenHeard(es, outcome, b, t))
    ensures RunsTo(w', SentThenHeard(es, outcome, b, t))
    ensures w'.h.dispatched == SendStep(w, outcome).h.dispatched
  {
    var send, heard := Send(outcome), Receive(Incoming(b, Datagram([])), t, t);
    var sent, all := es + [send], SentThenHeard(es, outcome, b, t);
    var start := Start(w.s.capacity, w.s.fileContent);
    RunSnoc(start, es, send, sent);
    RunSnoc(start, sent, heard, all);
    w' := Step(SendStep(w, outcome), heard);
    StepLogs(w, send);
    StepLogs(SendStep(w, outcome), heard);
  }

  lemma NewestIsContacted(log: seq<Contact>, b: Address, t: int)
    requires log != [] && log[|log| - 1] == Contact(b, t)
    ensures Contacted(log, b, t)
  {
  }

  /**
   * The exception is real: whenever a message is dispatched while the clock still shows the
   * second of its arrival, a client first heard from after that, in the same second, is missed.
   */
  lemma SameSecondIsMissed(
    w: World, es: seq<Event>, outcome: SendtoOutcome, i: nat, d: Dispatch, item: Queued, b: Address
  )
    returns (w': World, all: seq<Event>)
    requires RunsTo(w, es) && |w.h.dispatched| <= i < |SendStep(w, outcome).h.dispatched|
    requires d == SendStep(w, outcome).h.dispatched[i]
    requires d.id < |AcceptedOf(es)| && item == AcceptedOf(es)[d.id].item
    requires ContactsOf(es) != [] && ContactsOf(es)[|ContactsOf(es)| - 1].time == item.arrival
    requires b != item.sender && !Contacted(ContactsOf(es), b, item.arrival)
    ensures RunsTo(w', all) && i < |w'.h.dispatched| && w'.h.dispatched[i] == d && AcceptedOf(all) == AcceptedOf(es)
    ensures Contacted(ContactsOf(all), b, item.arrival) && b !in d.recipients
  {
    RecipientsAreNaive(w, es, outcome, i);
    all := SentThenHeard(es, outcome, b, item.arrival);
    SentThenHeardIsTimed(es, outcome, b, item.arrival);
    w' := SentThenHeardRuns(w, es, outcome, b, item.arrival);
    NewestIsContacted(ContactsOf(all), b, item.arrival);
  }

  /** One datagram has come in, and has not been sent. */
  lemma OneDatagramIn(a: Address, t: int, capacity: nat, fileContent: seq<Byte>) returns (w: World, es: seq<Event>)
    requires capacity > 0
    ensures RunsTo(w, es) && w.s.pending == [] && |w.s.queue| == 1 && w.h.dispatched == []
    ensures ContactsOf(es) == [Contact(a, t)] && |AcceptedOf(es)| == 1
    ensures AcceptedOf(es)[0].item.sender == a && AcceptedOf(es)[0].item.arrival == t
  {
    var m := Message(0, 97, []);
    ClientToServer(m);
    var e := Receive(Incoming(a, Datagram(Frame(m, false))), t, t);
    es := [e];
    ReceiveExtends([], e, es);
    w := Run(Start(capacity, fileContent), es);
    RunSnoc(Start(capacity, fileContent), [], e, es);
    StepLogs(Start(capacity, fileContent), e);
    TakenIsRelayable(e.incoming, t);
  }

  lemma OneDispatched(w: World, outcome: SendtoOutcome)
    requires Wf(w) && w.s.pending == [] && |w.s.queue| == 1 && w.h.dispatched == []
    ensures SendStep(w, outcome).h.dispatched != []
  {
    PrepareGrows(w);
    PrepareGrows(DispatchOne(w));
    assert Prepare(w) == Prepare(DispatchOne(w));
  }

  /** A run of a datagram from a, a send, and a contact of b in the same second: b is missed. */
  lemma SameSecondHappens(a: Address, b: Address, t: int, capacity: nat, fileContent: seq<Byte>, outcome: SendtoOutcome)
    returns (w: World, es: seq<Event>)
    requires a != b && capacity > 0
    ensures RunsTo(w, es) && w.h.dispatched != [] && w.h.dispatched[0].id < |AcceptedOf(es)|
    ensures var item := AcceptedOf(es)[w.h.dispatched[0].id].item;
            b != item.sender && Contacted(ContactsOf(es), b, item.arrival) && b !in w.h.dispatched[0].recipients
  {
    var w1, one := OneDatagramIn(a, t, capacity, fileContent);
    OneDispatched(w1, outcome);
    var d := SendStep(w1, outcome).h.dispatched[0];
    RecipientsAreNaive(w1, one, outcome, 0);
    assert !Contacted(ContactsOf(one), b, t);
    w, es := SameSecondIsMissed(w1, one, outcome, 0, d, AcceptedOf(one)[0].item, b);
  }

  /** Buffered arrivals never decrease, none is before an earlier query, none after the latest contact. */
  ghost predicate Timely(w: World, i: nat, j: nat)
    requires i <= j < |w.s.queue|
  {
    && w.s.queue[i].arrival <= w.s.queue[j].arrival
    && w.h.contacts != [] && w.s.queue[j].arrival <= w.h.contacts[|w.h.contacts| - 1].time
    && forall k :: 0 <= k < |w.h.dispatched| ==>
         && w.h.dispatched[k].id < |w.h.accepted|
         && w.h.accepted[w.h.dispatched[k].id].item.arrival <= w.s.queue[i].arrival
  }

  lemma QueueTimely(w: World, i: nat, j: nat)
    requires Wf(w) && Buffered(w) && Fates(w) && Timed(w) && i <= j < |w.s.queue|
    ensures Timely(w, i, j)
  {
    var at := Arrivals(w.h.accepted);
    assert at[Oldest(w) + i] <= at[Oldest(w) + j] <= at[|at| - 1];
    forall k | 0 <= k < |w.h.dispatched|
      ensures w.h.dispatched[k].id < |w.h.accepted|
      ensures w.h.accepted[w.h.dispatched[k].id].item.arrival <= w.s.queue[i].arrival
    {
      assert Ids(w.h.dispatched)[k] in Ids(w.h.dispatched);
      assert at[w.h.dispatched[k].id] <= at[Oldest(w) + i];
    }
  }

  lemma QueueIsTimely(w: World, es: seq<Event>, i: nat, j: nat)
    requires RunsTo(w, es)
    requires i <= j < |w.s.queue|
    ensures Timely(w, i, j)
  {
    ReachedKeepsInv(w, es);
    QueueTimely(w, i, j);
  }

  /** In every reachable state a client's intervals are canonical. */
  lemma ClientsAreCanonical(w: World, es: seq<Event>, i: nat) returns (d: nat)
    requires RunsTo(w, es)
    requires i < |w.s.clients|
    ensures Structured(w.s.clients) && Fates(w)
    ensures var q, times := w.s.clients[i].connections, TimesOf(ContactsOf(es), w.s.clients[i].address);
            Canonical(q, times, Horizon(w), d) && Separated(q, times)
  {
    ReachedKeepsInv(w, es);
    d := QueueIsCanonical(w.s.clients, w.h.contacts, Horizon(w), i);
  }

  // ---- Accounting ----

  predicate ExactlyOne(a: bool, b: bool, c: bool) {
    (a || b || c) && !(a && b) && !(a && c) && !(b && c)
  }

  /** A datagram is overwritten, dispatched or buffered: exactly one, and once only. */
  ghost predicate DatagramAccounted(w: World, id: nat) {
    && |w.s.queue| <= |w.h.accepted|
    && ExactlyOne(id in w.h.overwritten, id in Ids(w.h.dispatched), |w.h.accepted| - |w.s.queue| <= id)
    && (|w.h.accepted| - |w.s.queue| <= id < |w.h.accepted| ==>
          w.s.queue[id - (|w.h.accepted| - |w.s.queue|)] == w.h.accepted[id].item)
    && Increasing(w.h.overwritten) && Increasing(Ids(w.h.dispatched))
  }

  lemma AccountDatagram(w: World, id: nat)
    requires Wf(w) && Buffered(w) && Fates(w) && id < |w.h.accepted|
    ensures DatagramAccounted(w, id)
  {
  }

  /** Event p brings a datagram for which there is room only in the place of datagram `id`, still waiting. */
  ghost predicate DisplacedBy(start: World, es: seq<Event>, p: nat, id: nat)
    requires Wf(start)
  {
    && p < |es| && es[p].Receive? && Relayable(es[p].incoming)
    && |AcceptedOf(es[..p])| == id + start.s.capacity
    && id !in Ids(Run(start, es[..p]).h.dispatched)
  }

  ghost predicate Displaced(start: World, es: seq<Event>, id: nat)
    requires Wf(start)
  {
    exists p: nat :: DisplacedBy(start, es, p, id)
  }

  lemma DisplacedBefore(start: World, front: seq<Event>, es: seq<Event>, p: nat, id: nat)
    requires Wf(start) && p < |front| && |front| <= |es| && es[..|front|] == front
    ensures DisplacedBy(start, es, p, id) <==> DisplacedBy(start, front, p, id)
  {
    assert es[..p] == front[..p] && es[p] == front[p];
  }

  lemma DisplacedSnoc(start: World, front: seq<Event>, e: Event, es: seq<Event>, id: nat)
    requires Wf(start) && |es| == |front| + 1 && es[..|front|] == front && es[|front|] == e
    ensures Displaced(start, es, id) <==> Displaced(start, front, id) || DisplacedBy(start, es, |front|, id)
  {
    if Displaced(start, front, id) {
      var p: nat :| DisplacedBy(start, front, p, id);
      DisplacedBefore(start, front, es, p, id);
    }
    if Displaced(start, es, id) {
      var p: nat :| DisplacedBy(start, es, p, id);
      if p < |front| {
        DisplacedBefore(start, front, es, p, id);
      }
    }
  }

  lemma StepOverwrites(w: World, e: Event, id: nat)
    requires Wf(w) && Fates(w)
    ensures id in Step(w, e).h.overwritten <==>
            || id in w.h.overwritten
            || (&& e.Receive? && Relayable(e.incoming) && |w.h.accepted| == id + w.s.capacity
                && id !in Ids(w.h.dispatched))
  {
    match e
    case Receive(incoming, arrival, _) =>
      TakeIsRelay(w, incoming, arrival);
      if Relayable(incoming) {
        var a := RelayedItem(incoming, arrival);
        EnqueueOverwrites(w, a.datagram, a.item, id);
      }
    case Send(_) => PrepareGrows(w);
  }

  /**
   * A datagram is overwritten exactly when it has not been dispatched before the acceptance
   * of the one `capacity` places after it.
   */
  lemma {:induction false} OverwrittenUnlessDispatched(
    capacity: nat, fileContent: seq<Byte>, es: seq<Event>, id: nat
  )
    requires capacity > 0 && WellTimed(es)
    ensures var start := Start(capacity, fileContent);
            var overwritten := Run(start, es).h.overwritten;
            && (id in overwritten <==> Displaced(start, es, id))
            && (id in overwritten ==> id + capacity < |AcceptedOf(es)|)
  {
    if es != [] {
      var start, n := Start(capacity, fileContent), |es| - 1;
      OverwrittenUnlessDispatched(capacity, fileContent, es[..n], id);
      RunKeepsInv(capacity, fileContent, es[..n]);
      StepOverwrites(Run(start, es[..n]), es[n], id);
      DisplacedSnoc(start, es[..n], es[n], es, id);
    }
  }

  /** As long as there is room a receive loses nothing; it queues what it accepts, and nothing else. */
  lemma ReceiveQueues(w: World, incoming: Incoming, arrival: int, contact: int)
    requires Wf(w)
    ensures var w' := ReceiveStep(w, incoming, arrival, contact);
            && (w'.h.overwritten != w.h.overwritten <==> Relayable(incoming) && |w.s.queue| == w.s.capacity)
            && (w'.h.overwritten == w.h.overwritten ==>
                  w'.s.queue == w.s.queue
                  + if Relayable(incoming) then [RelayedItem(incoming, arrival).item] else [])
            && (w'.h.overwritten != w.h.overwritten ==>
                  w'.s.queue == w.s.queue[1..] + [RelayedItem(incoming, arrival).item])
  {
    TakeQueues(w, incoming, arrival);
  }

  /** In every run each accepted datagram, and no other, is accounted for. */
  lemma EveryDatagramAccounted(w: World, es: seq<Event>, id: nat)
    requires RunsTo(w, es) && id < |AcceptedOf(es)|
    ensures w.h.accepted == AcceptedOf(es) && DatagramAccounted(w, id)
    ensures id in w.h.overwritten <==> Displaced(Start(w.s.capacity, w.s.fileContent), es, id)
    ensures id in w.h.overwritten ==> id + w.s.capacity < |AcceptedOf(es)|
  {
    OverwrittenUnlessDispatched(w.s.capacity, w.s.fileContent, es, id);
    ReachedKeepsInv(w, es);
    AccountDatagram(w, id);
  }

  /**
   * Each recipient of a dispatched message was sent to, or failed, or is pending: exactly
   * one; and nobody else was. Only the latest message can have a pending recipient.
   */
  ghost predicate RecipientAccounted(w: World, i: nat, c: Address)
    requires i < |w.h.dispatched|
  {
    var d := w.h.dispatched[i];
    var sent, failed := c in Reached(w.h.attempts, d.id, Sent), c in Reached(w.h.attempts, d.id, SendFailed);
    var pending := i == |w.h.dispatched| - 1 && c in w.s.pending;
    if c in d.recipients then ExactlyOne(sent, failed, pending) else !sent && !failed && !pending
  }

  lemma AccountRecipient(w: World, i: nat, c: Address)
    requires i < |w.h.dispatched| && Settled(w, i) && NoDuplicates(w.h.dispatched[i].recipients)
    ensures RecipientAccounted(w, i, c)
  {
    MultiplicityOne(w.h.dispatched[i].recipients, c);
    var d := w.h.dispatched[i];
    var sent, failed := Reached(w.h.attempts, d.id, Sent), Reached(w.h.attempts, d.id, SendFailed);
    assert multiset(d.recipients)[c] == multiset(sent)[c] + multiset(failed)[c] + StillPending(w, i)[c];
  }

  lemma EveryRecipientAccounted(w: World, es: seq<Event>, i: nat, c: Address)
    requires RunsTo(w, es)
    requires i < |w.h.dispatched|
    ensures RecipientAccounted(w, i, c)
  {
    ReachedKeepsInv(w, es);
    assert Settled(w, i) && Addressed(w.h.dispatched[i], w.h);
    AccountRecipient(w, i, c);
  }

  // ---- Order, and at most once ----

  lemma {:induction false} ReachedTwice(attempts: seq<Attempt>, i: nat, j: nat)
    requires i < j < |attempts|
    requires attempts[i].id == attempts[j].id && attempts[i].to == attempts[j].to
    requires attempts[i].result == attempts[j].result
    ensures multiset(Reached(attempts, attempts[j].id, attempts[j].result))[attempts[j].to] >= 2
  {
    var front := attempts[..|attempts| - 1];
    if j < |attempts| - 1 {
      ReachedTwice(front, i, j);
    } else {
      ReachedOnce(front, i);
    }
  }

  lemma {:induction false} ReachedOnce(attempts: seq<Attempt>, i: nat)
    requires i < |attempts|
    ensures multiset(Reached(attempts, attempts[i].id, attempts[i].result))[attempts[i].to] >= 1
  {
    if i < |attempts| - 1 {
      ReachedOnce(attempts[..|attempts| - 1], i);
    }
  }

  /** Attempt j follows attempt i in the order of acceptance, strictly so where both reached one client. */
  ghost predicate InOrder(h: Ledger, i: nat, j: nat)
    requires i < j < |h.attempts|
  {
    var a, b := h.attempts[i], h.attempts[j];
    && a.id <= b.id < |h.accepted|
    && h.accepted[a.id].item.arrival <= h.accepted[b.id].item.arrival
    && (a.result == b.result == Sent && a.to == b.to ==> a.id < b.id)
  }

  lemma AttemptsInOrder(w: World, i: nat, j: nat)
    requires Wf(w) && Fates(w) && Timed(w) && AllAddressed(w) && Delivered(w) && i < j < |w.h.attempts|
    ensures InOrder(w.h, i, j)
  {
    var a, b := w.h.attempts[i], w.h.attempts[j];
    assert b.id in Ids(w.h.dispatched);
    var k :| 0 <= k < |w.h.dispatched| && Ids(w.h.dispatched)[k] == b.id;
    assert Settled(w, k) && Addressed(w.h.dispatched[k], w.h);
    assert Arrivals(w.h.accepted)[a.id] <= Arrivals(w.h.accepted)[b.id];
    if a.result == b.result == Sent && a.to == b.to && a.id == b.id {
      ReachedTwice(w.h.attempts, i, j);
      MultiplicityOne(w.h.dispatched[k].recipients, b.to);
    }
  }

  /**
   * The messages that reach a client reach it in the order in which they were accepted, each
   * at most once; over all clients the order of acceptance is kept as well.
   */
  lemma SendsAreOrdered(w: World, es: seq<Event>, i: nat, j: nat)
    requires RunsTo(w, es)
    requires i < j < |w.h.attempts|
    ensures w.h.accepted == AcceptedOf(es) && InOrder(w.h, i, j)
  {
    ReachedKeepsInv(w, es);
    AttemptsInOrder(w, i, j);
  }

  // ---- Bytes ----

  /**
   * Whatever the server emits is the first nine bytes of an accepted datagram, the content
   * it read from its file, and a NUL; a client that receives all of it decodes the sender's
   * timestamp and character and the file content, and refuses what had to be truncated.
   */
  lemma EmittedBytes(w: World, es: seq<Event>, file: seq<Read>, i: nat)
    requires RunsTo(w, es) && Content(file) == Success(w.s.fileContent)
    requires i < |w.h.attempts|
    ensures var a := w.h.attempts[i];
            && a.id < |AcceptedOf(es)| && Accepts(AcceptedOf(es)[a.id].datagram)
            && var d := AcceptedOf(es)[a.id].datagram;
               && a.bytes == d[..MESSAGE_OFFSET] + w.s.fileContent + [NUL]
               && IsProperTimestamp(TimestampAt(d))
               && Communication.Receive(Datagram(a.bytes), true) ==
                  if |a.bytes| <= 65535 then Success(Message(TimestampAt(d), d[8], w.s.fileContent))
                  else Failure(NotTerminated)
  {
    ReachedKeepsInv(w, es);
    var a := w.h.attempts[i];
    assert Relayed(a, w) && Genuine(w.h.accepted[a.id]);
    RelayBytes(w.h.accepted[a.id], w.s.fileContent);
    ContentIsNulFree(file);
    ServerToClient(w.h.accepted[a.id].item.message.SetMessage(w.s.fileContent));
  }
}
