/**
 * The relay of server.h as a state machine on values, with a ledger of all that ever
 * happened. The environment chooses what recvfrom and sendto do and what the clock says.
 *
 * Clock: successive std::time(0) values never decrease; the model is in seconds.
 * Contacts: add_client runs after every receive, also for a rejected datagram, and after a
 * failed recvfrom, when the address is still all zero. All of these are contacts.
 */
module ServerModel {
  import opened Buffer
  import opened Bytes
  import opened Communication
  import opened ConnectionsSpec
  import opened ContactLog
  import opened Protocol
  import opened Wrappers

  const ZERO_ADDRESS := Address(0, 0)

  /** An item of the buffer: arrival time, message, sender. */
  datatype Queued = Queued(arrival: int, message: Message, sender: Address)

  /** The fields of the server. `current` is the message being sent out, to the `pending` clients. */
  datatype State = State(
    capacity: nat,
    fileContent: seq<Byte>,
    queue: seq<Queued>,
    current: Option<Message>,
    pending: seq<Address>,
    clients: seq<ClientRecord>,
    pollIn: bool,
    pollOut: bool)

  /** An accepted datagram, as received. */
  datatype Accepted = Accepted(datagram: seq<Byte>, item: Queued)

  /** Accepted datagram `id` was taken from the buffer, when so many contacts had been logged. */
  datatype Dispatch = Dispatch(id: nat, recipients: seq<Address>, contactsSeen: nat)

  datatype Attempt = Attempt(id: nat, to: Address, result: SendResult, bytes: seq<Byte>)

  /** Accepted datagrams are numbered in the order of acceptance. */
  datatype Ledger = Ledger(
    contacts: seq<Contact>,
    accepted: seq<Accepted>,
    overwritten: seq<nat>,
    dispatched: seq<Dispatch>,
    attempts: seq<Attempt>)

  datatype World = World(s: State, h: Ledger)

  datatype Incoming = Incoming(from: Address, outcome: Received)

  datatype Event =
    | Receive(incoming: Incoming, arrival: int, contact: int)
    | Send(outcome: SendtoOutcome)

  /** What makes the steps well defined. */
  predicate Wf(w: World) {
    && w.s.capacity > 0
    && |w.s.queue| <= w.s.capacity
    && |w.s.queue| <= |w.h.accepted|
    && (w.s.pending != [] ==> w.s.current.Some? && w.h.dispatched != [])
  }

  /** The number of the oldest buffered datagram. */
  function Oldest(w: World): nat
    requires Wf(w)
  {
    |w.h.accepted| - |w.s.queue|
  }

  function Start(capacity: nat, fileContent: seq<Byte>): (w: World)
    requires capacity > 0
    ensures Wf(w)
  {
    World(State(capacity, fileContent, [], None, [], [], true, true), Ledger([], [], [], [], []))
  }

  /** The address recvfrom filled in; it stays zero when the call fails. */
  function SenderOf(incoming: Incoming): Address {
    if incoming.outcome.ReceiveFailed? then ZERO_ADDRESS else incoming.from
  }

  /** The message receive takes, if any: it has to decode, and to have no text. */
  function Taken(outcome: Received): Option<Message> {
    match Communication.Receive(outcome, false)
    case Success(m) => if m.HasMessage() then None else Some(m)
    case Failure(_) => None
  }

  /** The new item goes to the end of the queue, over the oldest one when there is no room. */
  function Enqueue(w: World, datagram: seq<Byte>, item: Queued): (w': World)
    requires Wf(w)
    ensures Wf(w')
  {
    World(
      w.s.(queue := Pushed(w.s.queue, w.s.capacity, item), pollIn := true, pollOut := true),
      w.h.(accepted := w.h.accepted + [Accepted(datagram, item)],
           overwritten := if |w.s.queue| == w.s.capacity then w.h.overwritten + [Oldest(w)] else w.h.overwritten))
  }

  function AddContact(w: World, c: Contact): (w': World)
    requires Wf(w)
    ensures Wf(w')
  {
    World(w.s.(clients := Added(w.s.clients, c.address, c.time)), w.h.(contacts := w.h.contacts + [c]))
  }

  /** The part of receive() that may throw: an acceptable datagram is queued. */
  function Take(w: World, incoming: Incoming, arrival: int): (w': World)
    requires Wf(w)
    ensures Wf(w')
  {
    var taken := Taken(incoming.outcome);
    if taken.Some? then
      Enqueue(w, incoming.outcome.bytes, Queued(arrival, taken.value, SenderOf(incoming)))
    else w
  }

  /** receive(): `arrival` is the clock when the item is queued, `contact` when the client is added. */
  function ReceiveStep(w: World, incoming: Incoming, arrival: int, contact: int): (w': World)
    requires Wf(w)
    ensures Wf(w')
  {
    AddContact(Take(w, incoming, arrival), Contact(SenderOf(incoming), contact))
  }

  /** One turn of the loop of prepare_send_data(). */
  function DispatchOne(w: World): (w': World)
    requires Wf(w) && w.s.queue != []
    ensures Wf(w')
  {
    var item := w.s.queue[0];
    var recipients := Matches(w.s.clients, item.arrival, Some(item.sender));
    World(
      w.s.(queue := w.s.queue[1..],
           pending := recipients,
           clients := Survivors(w.s.clients, item.arrival, Some(item.sender)),
           current := Some(item.message.SetMessage(w.s.fileContent))),
      w.h.(dispatched := w.h.dispatched + [Dispatch(Oldest(w), recipients, |w.h.contacts|)]))
  }

  /** prepare_send_data(): on to the next message that has a recipient. */
  function Prepare(w: World): (w': World)
    requires Wf(w)
    ensures Wf(w')
    ensures w'.s.pending == [] ==> w'.s.queue == []
    decreases |w.s.queue|
  {
    if w.s.pending == [] && w.s.queue != [] then Prepare(DispatchOne(w)) else w
  }

  /** The rest of send(): disarm when there is nothing left, else try the first pending client. */
  function Emit(w: World, outcome: SendtoOutcome): (w': World)
    requires Wf(w)
    ensures Wf(w')
  {
    if w.s.pending == [] then w.(s := w.s.(pollIn := true, pollOut := false))
    else
      var client := w.s.pending[0];
      var bytes := Frame(w.s.current.value, true);
      var result := Classify(outcome, |bytes|);
      World(
        w.s.(pending := w.s.pending[1..] + if result.WouldBlock? then [client] else []),
        w.h.(attempts := w.h.attempts + [Attempt(w.h.dispatched[|w.h.dispatched| - 1].id, client, result, bytes)]))
  }

  function SendStep(w: World, outcome: SendtoOutcome): (w': World)
    requires Wf(w)
    ensures Wf(w')
  {
    Emit(Prepare(w), outcome)
  }

  function Step(w: World, e: Event): (w': World)
    requires Wf(w)
    ensures Wf(w')
  {
    match e
    case Receive(incoming, arrival, contact) => ReceiveStep(w, incoming, arrival, contact)
    case Send(outcome) => SendStep(w, outcome)
  }

  function Run(w: World, es: seq<Event>): (w': World)
    requires Wf(w)
    ensures Wf(w')
  {
    if es == [] then w else Step(Run(w, es[..|es| - 1]), es[|es| - 1])
  }

  // ---- The loop ----

  /** One return of poll: with an error, or with what is ready and what the calls will then do. */
  datatype Wakeup =
    | Interrupted
    | Ready(readable: bool, writable: bool, incoming: Incoming, arrival: int, contact: int, outcome: SendtoOutcome)

  /** poll reports only what is armed; both flags are from before either call. */
  function EventsOf(w: World, k: Wakeup): seq<Event> {
    if k.Interrupted? then []
    else
      (if w.s.pollIn && k.readable then [Receive(k.incoming, k.arrival, k.contact)] else [])
      + (if w.s.pollOut && k.writable then [Send(k.outcome)] else [])
  }

  lemma RunSnoc(w: World, front: seq<Event>, e: Event, es: seq<Event>)
    requires Wf(w) && |es| == |front| + 1 && es[..|front|] == front && es[|front|] == e
    ensures Run(w, es) == Step(Run(w, front), e)
  {
  }

  lemma {:induction false} RunAppends(w: World, es: seq<Event>, more: seq<Event>, all: seq<Event>)
    requires Wf(w) && all == es + more
    ensures Run(w, all) == Run(Run(w, es), more)
  {
    if more == [] {
      assert all == es;
    } else {
      var n := |more| - 1;
      var front := all[..|all| - 1];
      assert front == es + more[..n];
      RunAppends(w, es, more[..n], front);
      RunSnoc(w, front, more[n], all);
      RunSnoc(Run(w, es), more[..n], more[n], more);
    }
  }

  // ---- What the events alone say, without the state machine ----

  /** The contact of an event: every receive is one, of the zero address when nothing was received. */
  function ContactOf(e: Event): seq<Contact> {
    if e.Send? then []
    else
      match e.incoming.outcome
      case Datagram(_) => [Contact(e.incoming.from, e.contact)]
      case ReceiveFailed => [Contact(ZERO_ADDRESS, e.contact)]
  }

  /** The contacts of a run, whatever became of the datagrams. */
  function ContactsOf(es: seq<Event>): seq<Contact> {
    if es == [] then [] else ContactsOf(es[..|es| - 1]) + ContactOf(es[|es| - 1])
  }

  /** A datagram the server relays, by its bytes alone. */
  predicate Relayable(incoming: Incoming) {
    incoming.outcome.Datagram? && Accepts(incoming.outcome.bytes)
  }

  function RelayedItem(incoming: Incoming, arrival: int): Accepted
    requires Relayable(incoming)
  {
    var d := incoming.outcome.bytes;
    Accepted(d, Queued(arrival, Message(TimestampAt(d), d[8], []), incoming.from))
  }

  /** The accepted datagrams of a run. */
  function AcceptedOf(es: seq<Event>): seq<Accepted> {
    if es == [] then []
    else
      var e := es[|es| - 1];
      AcceptedOf(es[..|es| - 1])
      + if e.Receive? && Relayable(e.incoming) then [RelayedItem(e.incoming, e.arrival)] else []
  }

  /** The clock readings of one receive come no earlier than those before it. */
  predicate ClockAllows(contacts: seq<Contact>, e: Event) {
    e.Receive? ==>
      var last := if contacts == [] then e.contact else contacts[|contacts| - 1].time;
      if Relayable(e.incoming) then (contacts != [] ==> last <= e.arrival) && e.arrival <= e.contact
      else last <= e.contact
  }

  predicate WellTimed(es: seq<Event>) {
    es != [] ==> WellTimed(es[..|es| - 1]) && ClockAllows(ContactsOf(es[..|es| - 1]), es[|es| - 1])
  }
}
