/** What the server gets done: no lost wakeup, round fairness, draining. */
module ServerLiveness {
  import opened Bytes
  import opened Communication
  import opened ConnectionsSpec
  import opened ContactLog
  import opened Sequences
  import opened ServerInvariant
  import opened ServerModel
  import opened ServerRuns
  import opened Wrappers

  // ---- No lost wakeup ----

  /**
   * In every reachable state, whatever the clock did, POLLIN is armed, and POLLOUT is armed
   * whenever the buffer or the list of pending clients is not empty.
   */
  lemma {:induction false} NoLostWakeup(capacity: nat, fileContent: seq<Byte>, es: seq<Event>)
    requires capacity > 0
    ensures Armed(Run(Start(capacity, fileContent), es))
  {
    if es != [] {
      var n := |es| - 1;
      NoLostWakeup(capacity, fileContent, es[..n]);
      PrepareGrows(Run(Start(capacity, fileContent), es[..n]));
    }
  }

  /** A send makes an attempt when there is anybody to send to, and disarms POLLOUT when there is not. */
  lemma SendTriesOrDisarms(w: World, outcome: SendtoOutcome)
    requires Wf(w) && Armed(w)
    ensures var w' := SendStep(w, outcome);
            if Prepare(w).s.pending != [] then |w'.h.attempts| == |w.h.attempts| + 1 && w'.s.pollOut == w.s.pollOut
            else w'.h.attempts == w.h.attempts && !w'.s.pollOut && w'.s.queue == [] && w'.s.pending == []
  {
    PrepareGrows(w);
  }

  /**
   * The client a send tries leaves the list, whatever sendto did, but for EWOULDBLOCK: then
   * he is put last. The attempt is a success exactly when all octets were taken.
   */
  lemma TriedLeavesUnlessBlocked(w: World, outcome: SendtoOutcome)
    requires Wf(w) && Prepare(w).s.pending != []
    ensures var first, rest := Prepare(w).s.pending[0], Prepare(w).s.pending[1..];
            var w' := SendStep(w, outcome);
            && w'.s.pending == rest + (if outcome.length < 0 && outcome.wouldBlock then [first] else [])
            && |w'.h.attempts| == |w.h.attempts| + 1
            && var a := w'.h.attempts[|w.h.attempts|];
               && a.to == first
               && (a.result == Sent <==> outcome.length == |a.bytes|)
               && (a.result == SendFailed <==>
                     outcome.length != |a.bytes| && !(outcome.length < 0 && outcome.wouldBlock))
  {
    PrepareGrows(w);
  }

  // ---- Round fairness ----

  /** The outcomes sendto had during a run. */
  function SendsOf(es: seq<Event>): seq<SendtoOutcome> {
    if es == [] then []
    else SendsOf(es[..|es| - 1]) + if es[|es| - 1].Send? then [es[|es| - 1].outcome] else []
  }

  /** The clients whose attempt would have blocked, in order. */
  function Blocked(attempts: seq<Attempt>): seq<Address> {
    if attempts == [] then []
    else
      Blocked(attempts[..|attempts| - 1])
      + if attempts[|attempts| - 1].result.WouldBlock? then [attempts[|attempts| - 1].to] else []
  }

  /** The attempts of one round: the first n pending clients, in order, all with the same message. */
  ghost predicate Round(w: World, tried: seq<Attempt>, outcomes: seq<SendtoOutcome>)
    requires Wf(w) && w.s.pending != []
  {
    && |tried| == |outcomes| <= |w.s.pending|
    && forall i :: 0 <= i < |tried| ==>
         && tried[i].to == w.s.pending[i]
         && tried[i].id == w.h.dispatched[|w.h.dispatched| - 1].id
         && tried[i].bytes == Frame(w.s.current.value, true)
         && tried[i].result == Classify(outcomes[i], |tried[i].bytes|)
  }

  /**
   * With n clients pending, the next n sends try each of them once, in order, whatever the
   * outcomes are and however many receives come in between; those that would have blocked
   * are pending again, in the same order, and no other message is taken up.
   */
  lemma {:induction false} RoundIsFair(w: World, es: seq<Event>) returns (tried: seq<Attempt>)
    requires Wf(w) && w.s.pending != [] && |SendsOf(es)| <= |w.s.pending|
    ensures Round(w, tried, SendsOf(es))
    ensures var w' := Run(w, es);
            && w'.h.attempts == w.h.attempts + tried
            && w'.s.pending == w.s.pending[|tried|..] + Blocked(tried)
            && w'.h.dispatched == w.h.dispatched && w'.s.current == w.s.current
  {
    if es == [] {
      tried := [];
    } else {
      var front, last := es[..|es| - 1], es[|es| - 1];
      var before := RoundIsFair(w, front);
      var w1 := Run(w, front);
      if last.Send? {
        var a := RoundGoesOn(w, w1, before, SendsOf(front), last.outcome);
        tried := before + [a];
        assert tried[..|before|] == before;
      } else {
        tried := before;
        assert SendsOf(es) == SendsOf(front);
      }
    }
  }

  /** One more send of a round. */
  lemma RoundGoesOn(w: World, w1: World, tried: seq<Attempt>, outcomes: seq<SendtoOutcome>, outcome: SendtoOutcome)
    returns (a: Attempt)
    requires Wf(w) && Wf(w1) && w.s.pending != [] && |tried| < |w.s.pending| && Round(w, tried, outcomes)
    requires w1.s.pending == w.s.pending[|tried|..] + Blocked(tried)
    requires w1.h.dispatched == w.h.dispatched && w1.s.current == w.s.current
    ensures Round(w, tried + [a], outcomes + [outcome])
    ensures var w' := SendStep(w1, outcome);
            && w'.h.attempts == w1.h.attempts + [a]
            && w'.s.pending == w.s.pending[|tried| + 1..]
                               + (Blocked(tried) + (if a.result.WouldBlock? then [a.to] else []))
            && w'.h.dispatched == w.h.dispatched && w'.s.current == w.s.current
  {
    var rest := w.s.pending[|tried|..];
    assert rest[0] == w.s.pending[|tried|] && rest[1..] == w.s.pending[|tried| + 1..];
    assert w1.s.pending[0] == rest[0] && w1.s.pending[1..] == rest[1..] + Blocked(tried);
    assert Prepare(w1) == w1;
    a := Emit(w1, outcome).h.attempts[|w1.h.attempts|];
  }

  lemma {:induction false} AllBlocked(attempts: seq<Attempt>)
    requires forall i :: 0 <= i < |attempts| ==> attempts[i].result.WouldBlock?
    ensures |Blocked(attempts)| == |attempts|
    ensures forall i :: 0 <= i < |attempts| ==> Blocked(attempts)[i] == attempts[i].to
  {
    if attempts != [] {
      AllBlocked(attempts[..|attempts| - 1]);
    }
  }

  /** A round in which every send would have blocked changes nobody's place. */
  lemma BlockedRoundChangesNothing(w: World, es: seq<Event>)
    requires Wf(w) && w.s.pending != [] && |SendsOf(es)| == |w.s.pending|
    requires forall i :: 0 <= i < |SendsOf(es)| ==> Blocks(SendsOf(es)[i])
    ensures Run(w, es).s.pending == w.s.pending
  {
    var tried := RoundIsFair(w, es);
    AllBlocked(tried);
    assert w.s.pending[|tried|..] == [];
  }

  // ---- Draining ----

  /** Who a message is for, by the plain log. */
  ghost function Recipients(log: seq<Contact>, item: Queued): set<Address> {
    set c | c in log && c.address != item.sender && Contacted(log, c.address, item.arrival) :: c.address
  }

  ghost function QueueWork(log: seq<Contact>, queue: seq<Queued>): nat {
    if queue == [] then 0 else |Recipients(log, queue[0])| + QueueWork(log, queue[1..])
  }

  /** The attempts still to be made when nothing blocks and nothing more comes in. */
  ghost function Work(w: World): nat {
    |w.s.pending| + QueueWork(w.h.contacts, w.s.queue)
  }

  lemma DispatchWork(w: World)
    requires Inv(w) && w.s.queue != [] && w.s.pending == []
    ensures Work(DispatchOne(w)) == Work(w)
  {
    var item, log := w.s.queue[0], w.h.contacts;
    var answer := Matches(w.s.clients, item.arrival, Some(item.sender));
    QueueNotBeforeHorizon(w, 0);
    QueryIsNaive(w.s.clients, log, Horizon(w), true, item.arrival, Some(item.sender));
    ElementsCount(answer);
    forall a
      ensures a in Elements(answer) <==> a in Recipients(log, item)
    {
      if a in answer {
        var i :| 0 <= i < |log| && log[i].address == a
                 && log[i].time <= item.arrival <= log[i].time + Intervals.TIMEOUT;
        assert log[i] in log;
      }
    }
    assert Elements(answer) == Recipients(log, item);
  }

  lemma {:induction false} PrepareWork(w: World)
    requires Inv(w)
    ensures Inv(Prepare(w)) && Work(Prepare(w)) == Work(w)
    decreases |w.s.queue|
  {
    if w.s.pending == [] && w.s.queue != [] {
      DispatchKeepsInv(w);
      DispatchWork(w);
      PrepareWork(DispatchOne(w));
    }
  }

  lemma EmitWork(w: World, outcome: SendtoOutcome)
    requires Wf(w) && !Blocks(outcome) && (w.s.pending == [] ==> w.s.queue == [])
    ensures var w' := Emit(w, outcome);
            && w'.s.queue == w.s.queue
            && if Work(w) == 0 then
                 !w'.s.pollOut && w'.s.queue == [] && w'.s.pending == [] && w'.h.attempts == w.h.attempts
               else
                 && Work(w') == Work(w) - 1
                 && w'.s.pollOut == w.s.pollOut && |w'.h.attempts| == |w.h.attempts| + 1
                 && |w'.s.pending| < |w.s.pending|
  {
    assert w.s.queue == [] ==> QueueWork(w.h.contacts, w.s.queue) == 0;
  }

  /** A send that does not block does one unit of work; with none left it disarms POLLOUT. */
  lemma SendWork(w: World, outcome: SendtoOutcome)
    requires Inv(w) && !Blocks(outcome)
    ensures var w' := SendStep(w, outcome);
            && Inv(w')
            && if Work(w) == 0 then
                 !w'.s.pollOut && w'.s.queue == [] && w'.s.pending == [] && w'.h.attempts == w.h.attempts
               else
                 && Work(w') == Work(w) - 1
                 && w'.s.pollOut == w.s.pollOut && |w'.h.attempts| == |w.h.attempts| + 1
  {
    PrepareWork(w);
    PrepareGrows(w);
    EmitWork(Prepare(w), outcome);
    StepKeepsInv(w, Send(outcome));
  }

  /** Such a send shortens the buffer, or leaves it alone and shortens the list of pending clients. */
  lemma SendProgresses(w: World, outcome: SendtoOutcome)
    requires Wf(w) && !Blocks(outcome) && (w.s.queue != [] || w.s.pending != [])
    ensures var w' := SendStep(w, outcome);
            |w'.s.queue| < |w.s.queue| || (w'.s.queue == w.s.queue && |w'.s.pending| < |w.s.pending|)
  {
    EmitWork(Prepare(w), outcome);
    if w.s.pending == [] {
      PrepareGrows(DispatchOne(w));
    }
  }

  function Sends(outcomes: seq<SendtoOutcome>): (es: seq<Event>)
    ensures |es| == |outcomes| && forall i :: 0 <= i < |es| ==> es[i] == Send(outcomes[i])
  {
    seq(|outcomes|, i requires 0 <= i < |outcomes| => Send(outcomes[i]))
  }

  /** How far n sends of which none blocked have got. */
  ghost predicate Drained(w: World, w': World, n: nat) {
    if n <= Work(w) then
      w'.s.pollOut && Work(w') == Work(w) - n && |w'.h.attempts| == |w.h.attempts| + n
    else
      !w'.s.pollOut && w'.s.queue == [] && w'.s.pending == [] && |w'.h.attempts| == |w.h.attempts| + Work(w)
  }

  lemma DrainOneMore(w: World, w1: World, n: nat, outcome: SendtoOutcome)
    requires Inv(w1) && n <= Work(w) && Drained(w, w1, n) && !Blocks(outcome)
    ensures Inv(SendStep(w1, outcome)) && Drained(w, SendStep(w1, outcome), n + 1)
  {
    SendWork(w1, outcome);
  }

  /**
   * With no receives and nothing blocking, POLLOUT stays armed for exactly as many sends as
   * there are recipients left, and the next one disarms it, with everything sent out.
   */
  lemma {:induction false} Draining(w: World, outcomes: seq<SendtoOutcome>)
    requires Inv(w) && w.s.pollOut && |outcomes| <= Work(w) + 1
    requires forall i :: 0 <= i < |outcomes| ==> !Blocks(outcomes[i])
    ensures Inv(Run(w, Sends(outcomes))) && Drained(w, Run(w, Sends(outcomes)), |outcomes|)
  {
    if outcomes != [] {
      var n := |outcomes| - 1;
      Draining(w, outcomes[..n]);
      DrainOneMore(w, Run(w, Sends(outcomes[..n])), n, outcomes[n]);
      RunSends(w, outcomes);
    }
  }

  lemma RunSends(w: World, outcomes: seq<SendtoOutcome>)
    requires Wf(w) && outcomes != []
    ensures var n := |outcomes| - 1;
            Run(w, Sends(outcomes)) == SendStep(Run(w, Sends(outcomes[..n])), outcomes[n])
  {
    var n := |outcomes| - 1;
    assert Sends(outcomes)[..n] == Sends(outcomes[..n]);
    RunSnoc(w, Sends(outcomes[..n]), Send(outcomes[n]), Sends(outcomes));
  }

  lemma AddressesCount(cs: seq<ClientRecord>, n: nat, s: set<Address>)
    requires n <= |cs| && forall a :: a in s ==> StoredAmong(cs, n, a)
    ensures |s| <= n
  {
    if n == 0 {
      assert s == {};
    } else {
      var rest := s - {cs[n - 1].address};
      forall a | a in rest
        ensures StoredAmong(cs, n - 1, a)
      {
        assert StoredAmong(cs, n, a);
      }
      AddressesCount(cs, n - 1, rest);
      assert s <= rest + {cs[n - 1].address};
      SubsetCount(s, rest, cs[n - 1].address);
    }
  }

  lemma SubsetCount(s: set<Address>, rest: set<Address>, a: Address)
    requires rest == s - {a}
    ensures |s| <= |rest| + 1
  {
    if a in s {
      assert s == rest + {a};
    } else {
      assert s == rest;
    }
  }

  /** No message has more recipients than there are registered clients. */
  lemma {:induction false} WorkIsBounded(w: World)
    requires Inv(w)
    ensures Work(w) <= |w.s.pending| + |w.s.queue| * |w.s.clients|
  {
    forall i | 0 <= i < |w.s.queue|
      ensures |Recipients(w.h.contacts, w.s.queue[i])| <= |w.s.clients|
    {
      var item := w.s.queue[i];
      QueueNotBeforeHorizon(w, i);
      forall a | a in Recipients(w.h.contacts, item)
        ensures StoredAmong(w.s.clients, |w.s.clients|, a)
      {
        ContactedIsRegistered(w.s.clients, w.h.contacts, Horizon(w), true, item.arrival, a);
      }
      AddressesCount(w.s.clients, |w.s.clients|, Recipients(w.h.contacts, item));
    }
    QueueWorkIsBounded(w.h.contacts, w.s.queue, |w.s.clients|);
  }

  lemma {:induction false} QueueWorkIsBounded(log: seq<Contact>, queue: seq<Queued>, most: nat)
    requires forall i :: 0 <= i < |queue| ==> |Recipients(log, queue[i])| <= most
    ensures QueueWork(log, queue) <= |queue| * most
  {
    if queue != [] {
      QueueWorkIsBounded(log, queue[1..], most);
      assert |queue| * most == most + (|queue| - 1) * most;
    }
  }

  lemma SendTakesNoTime(front: seq<Event>, e: Event, es: seq<Event>)
    requires e.Send? && |es| == |front| + 1 && es[..|front|] == front && es[|front|] == e
    ensures WellTimed(front) ==> WellTimed(es)
    ensures ContactsOf(es) == ContactsOf(front) && AcceptedOf(es) == AcceptedOf(front)
  {
    assert ContactsOf(front) + [] == ContactsOf(front) && AcceptedOf(front) + [] == AcceptedOf(front);
  }

  /** Sends leave the clock, the contacts and the accepted datagrams alone. */
  lemma {:induction false} SendsTakeNoTime(es: seq<Event>, sends: seq<Event>, all: seq<Event>)
    requires WellTimed(es) && all == es + sends
    requires forall i :: 0 <= i < |sends| ==> sends[i].Send?
    ensures WellTimed(all) && AcceptedOf(all) == AcceptedOf(es) && ContactsOf(all) == ContactsOf(es)
  {
    if sends == [] {
      assert all == es;
    } else {
      var n := |sends| - 1;
      var front := all[..|all| - 1];
      assert front == es + sends[..n];
      SendsTakeNoTime(es, sends[..n], front);
      SendTakesNoTime(front, sends[n], all);
    }
  }

  /** c has been sent the message, or sending it failed. */
  predicate Decided(w: World, id: nat, c: Address) {
    c in Reached(w.h.attempts, id, Sent) || c in Reached(w.h.attempts, id, SendFailed)
  }

  /** Sending was done or failed for exactly those the log has in the window, other than the sender. */
  ghost predicate DecidedBy(w: World, id: nat, item: Queued, log: seq<Contact>) {
    forall c :: Decided(w, id, c) <==> c != item.sender && Contacted(log, c, item.arrival)
  }

  lemma NonePending(w: World, es: seq<Event>, i: nat)
    requires RunsTo(w, es) && w.s.pending == [] && i < |w.h.dispatched|
    ensures forall c :: Decided(w, w.h.dispatched[i].id, c) <==> c in w.h.dispatched[i].recipients
  {
    forall c
      ensures Decided(w, w.h.dispatched[i].id, c) <==> c in w.h.dispatched[i].recipients
    {
      EveryRecipientAccounted(w, es, i, c);
    }
  }

  lemma AllDecided(w: World, es: seq<Event>, i: nat)
    requires RunsTo(w, es) && w.s.pending == [] && i < |w.h.dispatched|
    ensures var d := w.h.dispatched[i];
            && d.id < |AcceptedOf(es)| && d.contactsSeen <= |ContactsOf(es)|
            && DecidedBy(w, d.id, AcceptedOf(es)[d.id].item, ContactsOf(es)[..d.contactsSeen])
  {
    RecipientsOfPast(w, es, i);
    NonePending(w, es, i);
  }

  /**
   * After any run, enough sends of which none blocks settle everything: each accepted
   * datagram that was not overwritten has been dispatched, and has been sent, or failed to
   * be sent, to exactly the clients, other than its sender, that the log at its dispatch
   * has in its window.
   */
  lemma DrainedServerSettlesAll(w: World, es: seq<Event>, outcomes: seq<SendtoOutcome>, id: nat)
    returns (i: nat)
    requires RunsTo(w, es) && id < |AcceptedOf(es)|
    requires w.s.pollOut && |outcomes| == Work(w) + 1
    requires forall k :: 0 <= k < |outcomes| ==> !Blocks(outcomes[k])
    ensures var w' := Run(w, Sends(outcomes));
            id !in w'.h.overwritten ==>
              && i < |w'.h.dispatched| && w'.h.dispatched[i].id == id
              && w'.h.dispatched[i].contactsSeen <= |ContactsOf(es)|
              && DecidedBy(w', id, AcceptedOf(es)[id].item, ContactsOf(es)[..w'.h.dispatched[i].contactsSeen])
  {
    var all, w' := es + Sends(outcomes), Run(w, Sends(outcomes));
    ReachedKeepsInv(w, es);
    Draining(w, outcomes);
    SendsTakeNoTime(es, Sends(outcomes), all);
    ReachedFurther(w, es, Sends(outcomes), all);
    i := DispatchedUnlessOverwritten(w', all, id);
    if id !in w'.h.overwritten {
      AllDecided(w', all, i);
    }
  }

  /** Sends overwrite nothing, and dispatch by the log as it is. */
  lemma {:induction false} SendsDispatchNow(w: World, outcomes: seq<SendtoOutcome>)
    requires Wf(w)
    ensures var h := Run(w, Sends(outcomes)).h;
            && h.overwritten == w.h.overwritten && h.contacts == w.h.contacts && h.accepted == w.h.accepted
            && w.h.dispatched <= h.dispatched
            && forall i :: |w.h.dispatched| <= i < |h.dispatched| ==> h.dispatched[i].contactsSeen == |w.h.contacts|
  {
    if outcomes != [] {
      var n := |outcomes| - 1;
      SendsDispatchNow(w, outcomes[..n]);
      RunSends(w, outcomes);
      PrepareGrows(Run(w, Sends(outcomes[..n])));
    }
  }

  lemma BufferedIsUndecided(w: World, id: nat)
    requires Wf(w) && Fates(w) && Oldest(w) <= id
    ensures id !in w.h.overwritten
    ensures forall i :: 0 <= i < |w.h.dispatched| ==> w.h.dispatched[i].id != id
  {
    forall i | 0 <= i < |w.h.dispatched|
      ensures w.h.dispatched[i].id != id
    {
      assert Ids(w.h.dispatched)[i] in Ids(w.h.dispatched);
    }
  }

  /** What is still buffered will not be overwritten by sends, and is dispatched by the whole log. */
  lemma BufferedSeesAll(w: World, es: seq<Event>, outcomes: seq<SendtoOutcome>, id: nat)
    requires RunsTo(w, es) && |AcceptedOf(es)| - |w.s.queue| <= id < |AcceptedOf(es)|
    ensures var h := Run(w, Sends(outcomes)).h;
            && id !in h.overwritten
            && forall i :: 0 <= i < |h.dispatched| && h.dispatched[i].id == id ==>
                 h.dispatched[i].contactsSeen == |ContactsOf(es)|
  {
    ReachedKeepsInv(w, es);
    SendsDispatchNow(w, outcomes);
    BufferedIsUndecided(w, id);
  }

  /**
   * From datagrams in to datagrams out: each datagram still buffered after a run is sent, or
   * fails to be sent, to exactly the clients other than its sender that were heard from at
   * most TIMEOUT before its arrival.
   */
  lemma DrainedServerDelivers(w: World, es: seq<Event>, outcomes: seq<SendtoOutcome>, id: nat)
    requires RunsTo(w, es) && |AcceptedOf(es)| - |w.s.queue| <= id < |AcceptedOf(es)|
    requires w.s.pollOut && |outcomes| == Work(w) + 1
    requires forall k :: 0 <= k < |outcomes| ==> !Blocks(outcomes[k])
    ensures DecidedBy(Run(w, Sends(outcomes)), id, AcceptedOf(es)[id].item, ContactsOf(es))
  {
    var i := DrainedServerSettlesAll(w, es, outcomes, id);
    BufferedSeesAll(w, es, outcomes, id);
    assert ContactsOf(es)[..|ContactsOf(es)|] == ContactsOf(es);
  }

  lemma ReachedFurther(w: World, es: seq<Event>, more: seq<Event>, all: seq<Event>)
    requires RunsTo(w, es) && all == es + more && WellTimed(all)
    ensures RunsTo(Run(w, more), all)
  {
    RunAppends(Start(w.s.capacity, w.s.fileContent), es, more, all);
    RunKeepsInv(w.s.capacity, w.s.fileContent, all);
  }

  lemma DispatchedUnlessOverwritten(w: World, es: seq<Event>, id: nat) returns (i: nat)
    requires RunsTo(w, es) && id < |AcceptedOf(es)| && w.s.queue == []
    ensures id !in w.h.overwritten ==> i < |w.h.dispatched| && w.h.dispatched[i].id == id
  {
    EveryDatagramAccounted(w, es, id);
    i := 0;
    if id !in w.h.overwritten {
      assert id in Ids(w.h.dispatched);
      i :| 0 <= i < |w.h.dispatched| && Ids(w.h.dispatched)[i] == id;
    }
  }

  // ---- The loop ----

  /**
   * In every reachable state with something to send, a wakeup with a writable socket makes
   * an attempt or finds that nobody is left to send to; either way receiving is not held up.
   * Nothing is sent unless the socket is writable and POLLOUT was armed.
   */
  lemma WritableWakeupServes(capacity: nat, fileContent: seq<Byte>, es: seq<Event>, k: Wakeup)
    requires capacity > 0 && k.Ready?
    ensures var w := Run(Start(capacity, fileContent), es);
            var w' := Run(w, EventsOf(w, k));
            && |w'.h.contacts| == |w.h.contacts| + (if k.readable then 1 else 0)
            && (!(k.writable && w.s.pollOut) ==>
                  w'.h.attempts == w.h.attempts && w'.h.dispatched == w.h.dispatched)
            && (k.writable && (w.s.queue != [] || w.s.pending != []) ==>
                  |w'.h.attempts| == |w.h.attempts| + 1 || (w'.s.queue == [] && w'.s.pending == [] && !w'.s.pollOut))
  {
    NoLostWakeup(capacity, fileContent, es);
    var w := Run(Start(capacity, fileContent), es);
    var w1 := if k.readable then ReceiveStep(w, k.incoming, k.arrival, k.contact) else w;
    RunOfTurn(w, k);
    if k.readable {
      TakeQueues(w, k.incoming, k.arrival);
    }
    if k.writable && w.s.pollOut {
      SendTriesOrDisarms(w1, k.outcome);
      PrepareGrows(w1);
    }
  }

  lemma RunOfTurn(w: World, k: Wakeup)
    requires Wf(w) && k.Ready? && w.s.pollIn
    ensures var w1 := if k.readable then ReceiveStep(w, k.incoming, k.arrival, k.contact) else w;
            Run(w, EventsOf(w, k)) == if w.s.pollOut && k.writable then SendStep(w1, k.outcome) else w1
  {
    var receive, send := Receive(k.incoming, k.arrival, k.contact), Send(k.outcome);
    RunSnoc(w, [], receive, [receive]);
    RunSnoc(w, [], send, [send]);
    RunSnoc(w, [receive], send, [receive] + [send]);
    assert [receive] + [] == [receive] && [] + [send] == [send];
  }
}
