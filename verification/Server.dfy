/**
 * The Server class of server.h. Its fields always hold what the state machine reaches by
 * the events so far, so that everything proved about runs holds of it.
 */
module Server {
  import opened Buffer
  import opened Bytes
  import opened Communication
  import opened Connections
  import opened ContactLog
  import opened FileReader
  import opened Protocol
  import opened ServerInvariant
  import opened ServerModel
  import opened ServerRuns
  import opened Wrappers

  class Server {
    const fileContent: seq<Byte>
    const buffer: Buffer<Queued>
    const connections: Connections
    const receiver: Receiver
    var currentMessage: Option<Message>
    var currentClients: seq<Address>
    var pollIn: bool
    var pollOut: bool
    ghost var history: seq<Event>

    /** The fields, as a state of the state machine. */
    ghost function View(): State
      requires buffer.Valid()
      reads this, buffer, buffer.data, connections, connections.Repr
    {
      State(buffer.data.Length, fileContent, buffer.Contents(), currentMessage, currentClients,
            connections.records, pollIn, pollOut)
    }

    /** Where the events so far have led. */
    ghost function Reached(): (w: World)
      requires buffer.Valid()
      reads this, buffer
      ensures Wf(w)
    {
      Run(Start(buffer.data.Length, fileContent), history)
    }

    ghost predicate Valid()
      reads this, buffer, buffer.data, connections, connections.Repr
    {
      buffer.Valid() && connections.Valid() && receiver.Valid() && View() == Reached().s
    }

    constructor (capacity: nat, fileContent: seq<Byte>)
      requires capacity > 0
      ensures Valid() && history == [] && Reached() == Start(capacity, fileContent)
      ensures this.fileContent == fileContent && buffer.data.Length == capacity
      ensures pollIn && pollOut && buffer.Contents() == [] && currentClients == [] && connections.records == []
      ensures fresh(buffer) && fresh(buffer.data) && fresh(connections) && fresh(connections.Repr)
      ensures fresh(receiver) && fresh(receiver.buffer)
    {
      this.fileContent := fileContent;
      buffer := new Buffer<Queued>(capacity);
      connections := new Connections();
      receiver := new Receiver();
      currentMessage := None;
      currentClients := [];
      pollIn, pollOut := true, true;
      history := [];
    }

    /** When the clock never went back, what the theorems on runs say holds of this server. */
    lemma HistoryIsARun()
      requires Valid() && WellTimed(history)
      ensures RunsTo(Reached(), history) && View() == Reached().s
    {
      RunKeepsInv(buffer.data.Length, fileContent, history);
    }

    /** The fields are those of w. */
    ghost predicate At(w: World)
      reads this, buffer, buffer.data, connections, connections.Repr
    {
      Wf(w) && buffer.Valid() && connections.Valid() && View() == w.s
    }

    /** The try block of receive(). */
    method TakeDatagram(ghost w: World, incoming: Incoming, arrival: int)
      requires At(w) && receiver.Valid()
      modifies this`pollIn, this`pollOut, buffer, buffer.data, receiver.buffer
      ensures At(Take(w, incoming, arrival))
      ensures if Relayable(incoming) then
                && pollIn && pollOut
                && buffer.Contents() ==
                   (if old(buffer.length) == buffer.data.Length then old(buffer.Contents())[1..]
                    else old(buffer.Contents())) + [RelayedItem(incoming, arrival).item]
              else
                && pollIn == old(pollIn) && pollOut == old(pollOut)
                && buffer.Contents() == old(buffer.Contents())
    {
      TakeQueues(w, incoming, arrival);
      var message := receiver.ReceiveMessage(incoming.outcome, false);
      if message.Success? && !message.value.HasMessage() {
        buffer.Push(Queued(arrival, message.value, SenderOf(incoming)));
        pollIn, pollOut := true, true;
      }
    }

    /** receive() */
    method Receive(incoming: Incoming, arrival: int, contact: int)
      requires Valid()
      modifies this`pollIn, this`pollOut, this`history, buffer, buffer.data
      modifies connections, connections.Repr, receiver.buffer
      ensures Valid() && fresh(connections.Repr - old(connections.Repr))
      ensures history == old(history) + [Event.Receive(incoming, arrival, contact)]
      ensures Reached() == ReceiveStep(old(Reached()), incoming, arrival, contact)
    {
      ghost var w := Reached();
      TakeDatagram(w, incoming, arrival);
      AddContactNow(Take(w, incoming, arrival), SenderOf(incoming), contact);
      Remember(Event.Receive(incoming, arrival, contact));
    }

    method AddContactNow(ghost w: World, address: Address, time: int)
      requires At(w)
      modifies connections, connections.Repr
      ensures At(AddContact(w, Contact(address, time))) && fresh(connections.Repr - old(connections.Repr))
    {
      connections.AddClient(address, time);
    }

    ghost method Remember(e: Event)
      requires buffer.Valid()
      modifies this`history
      ensures history == old(history) + [e] && Reached() == Step(old(Reached()), e)
    {
      history := history + [e];
      RunSnoc(Start(buffer.data.Length, fileContent), old(history), e, history);
    }

    /** One turn of the loop of prepare_send_data(). */
    method DispatchNext(ghost w: World)
      requires At(w) && buffer.length > 0
      modifies this`currentMessage, this`currentClients, buffer, connections, connections.Repr
      ensures At(DispatchOne(w)) && connections.Repr == old(connections.Repr)
      ensures buffer.length == old(buffer.length) - 1
    {
      var currentItem := buffer.Pop();
      var item := currentItem.value;
      currentClients := connections.GetClients(item.arrival, Some(item.sender));
      currentMessage := Some(item.message.SetMessage(fileContent));
    }

    /** prepare_send_data() */
    method PrepareSendData(ghost w: World)
      requires At(w)
      modifies this`currentMessage, this`currentClients, buffer, connections, connections.Repr
      ensures At(Prepare(w)) && connections.Repr == old(connections.Repr)
    {
      ghost var now := w;
      while |currentClients| == 0 && buffer.length > 0
        invariant At(now) && Prepare(now) == Prepare(w) && connections.Repr == old(connections.Repr)
        decreases buffer.length
      {
        DispatchNext(now);
        now := DispatchOne(now);
      }
    }

    /** The rest of send(): the first pending client is tried, and put last if sendto would block. */
    method TryFirst(ghost w: World, outcome: SendtoOutcome) returns (emitted: Option<(Address, seq<Byte>)>)
      requires At(w)
      modifies this`currentClients, this`pollIn, this`pollOut
      ensures At(Emit(w, outcome))
      ensures old(currentClients) == [] ==> currentClients == [] && pollIn && !pollOut
      ensures old(currentClients) != [] ==>
                && currentClients == old(currentClients)[1..]
                   + (if outcome.length < 0 && outcome.wouldBlock then [old(currentClients)[0]] else [])
                && pollIn == old(pollIn) && pollOut == old(pollOut)
      ensures emitted == if w.s.pending == [] then None
                         else Some((w.s.pending[0], Frame(w.s.current.value, true)))
    {
      if |currentClients| == 0 {
        pollIn, pollOut := true, false;
        return None;
      }
      var clientAddress := currentClients[0];
      currentClients := currentClients[1..];
      var data, result := SendMessage(currentMessage.value, true, outcome);
      if result.WouldBlock? {
        currentClients := currentClients + [clientAddress];
      }
      emitted := Some((clientAddress, data));
    }

    /** send(): `emitted` is what sendto was handed, if it was called. */
    method SendNext(ghost w: World, outcome: SendtoOutcome) returns (emitted: Option<(Address, seq<Byte>)>)
      requires At(w)
      modifies this`currentMessage, this`currentClients, this`pollIn, this`pollOut
      modifies buffer, connections, connections.Repr
      ensures At(SendStep(w, outcome)) && connections.Repr == old(connections.Repr)
      ensures var p := Prepare(w).s;
              emitted == if p.pending == [] then None else Some((p.pending[0], Frame(p.current.value, true)))
    {
      PrepareSendData(w);
      emitted := TryFirst(Prepare(w), outcome);
    }

    method Send(outcome: SendtoOutcome) returns (emitted: Option<(Address, seq<Byte>)>)
      requires Valid()
      modifies this, buffer, connections, connections.Repr
      ensures Valid() && connections.Repr == old(connections.Repr)
      ensures history == old(history) + [Event.Send(outcome)]
      ensures Reached() == SendStep(old(Reached()), outcome)
      ensures var p := Prepare(old(Reached())).s;
              emitted == if p.pending == [] then None else Some((p.pending[0], Frame(p.current.value, true)))
    {
      emitted := SendNext(Reached(), outcome);
      Remember(Event.Send(outcome));
    }

    /** What a wakeup with these flags calls for. */
    method Serve(readable: bool, writable: bool, k: Wakeup)
      requires Valid() && k.Ready?
      modifies this, buffer, buffer.data, connections, connections.Repr, receiver.buffer
      ensures Valid() && fresh(connections.Repr - old(connections.Repr))
      ensures history == old(history)
              + (if readable then [Event.Receive(k.incoming, k.arrival, k.contact)] else [])
              + (if writable then [Event.Send(k.outcome)] else [])
    {
      if readable {
        Receive(k.incoming, k.arrival, k.contact);
      }
      if writable {
        var _ := Send(k.outcome);
      }
    }

    /** One turn of run()'s loop; the flags are those poll reported, from before either call. */
    method RunOnce(k: Wakeup)
      requires Valid()
      modifies this, buffer, buffer.data, connections, connections.Repr, receiver.buffer
      ensures Valid() && fresh(connections.Repr - old(connections.Repr))
      ensures history == old(history) + EventsOf(old(Reached()), k)
    {
      if k.Interrupted? {
        assert history == old(history) + [];
        return;
      }
      Serve(pollIn && k.readable, pollOut && k.writable, k);
    }
  }

  /** read_file, then the rest of construction: no server without the content of its file. */
  method CreateServer(capacity: nat, file: Option<seq<Read>>) returns (r: Result<Server, FileError>)
    requires capacity > 0 && (file.Some? ==> Script(file.value))
    ensures match OpenedContent(file)
            case Failure(e) => r == Failure(e)
            case Success(text) => r.Success? && r.value.fileContent == text
    ensures r == Failure(CouldNotOpenFile) <==> file == None
    ensures r == Failure(ErrorReadingFile) <==> file.Some? && ReadFails(file.value)
    ensures r.Success? ==>
              var server := r.value;
              && fresh(server) && server.Valid() && server.buffer.data.Length == capacity
              && server.history == [] && server.Reached() == Start(capacity, server.fileContent)
              && server.pollIn && server.pollOut
              && fresh(server.buffer) && fresh(server.buffer.data)
              && fresh(server.connections) && fresh(server.connections.Repr)
              && fresh(server.receiver) && fresh(server.receiver.buffer)
  {
    if file == None {
      return Failure(CouldNotOpenFile);
    }
    ReadFailsExactly(file.value);
    var content := ReadContent(file.value);
    match content
    case Failure(e) => return Failure(e);
    case Success(text) =>
      var server := new Server(capacity, text);
      return Success(server);
  }
}
