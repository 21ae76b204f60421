# Verification of the datagram relay

The repository is a small UDP relay. A client sends a datagram with a timestamp and one
character; the server appends the content of a file and sends the result to every other
client it heard from in the two minutes before the datagram arrived. Datagrams wait in a
bounded buffer that overwrites its oldest entry; one message at a time is sent out, one
`sendto` for each turn of a `poll` loop, and a client whose `sendto` would block is put
last.

This project models the server, the client registry and the cyclic buffer it uses, the wire
format, and the reading of the file, and proves what they keep over whole runs. Check it
with `dafny verify dfyconfig.toml`.

## Structure

| file | content |
|---|---|
| `Buffer.dfy`, `BufferRuns.dfy` | the cyclic buffer as a class over an array; whole runs of pushes and pops |
| `Intervals.dfy` | interval queues, and the coalescing of contact times they stand for |
| `ContactLog.dfy`, `ConnectionsSpec.dfy`, `ConnectionsRuns.dfy` | the plain log of contacts, the registry on values, whole runs of the registry |
| `RegistrationOrder.dfy` | the order of the registry's answers, from the times of contacts and queries |
| `Connections.dfy` | the registry and its clients as classes |
| `Bytes.dfy`, `Protocol.dfy`, `Communication.dfy`, `FileReader.dfy` | octets and C strings, messages, framing, the file |
| `Calendar.dfy` | the Gregorian calendar, reference for the bound on timestamps |
| `ServerModel.dfy` | the server as a state machine with a ledger of all that happened |
| `ServerInvariant.dfy`, `ServerRuns.dfy`, `ServerLiveness.dfy` | what every step keeps; theorems on runs; what gets done |
| `Server.dfy` | the server class; its fields are at all times the state the machine reaches by the events so far, so that the theorems on runs hold of it (`HistoryIsARun`) |

The theorems about runs are about every sequence of receives and sends, with any outcomes of
`recvfrom` and `sendto`. They compare the server with logs read off the events alone
(`ServerModel.ContactsOf`, `ServerModel.AcceptedOf`).

## Modelling decisions

- Clock: successive `std::time(0)` values never decrease, in whole seconds
  (`ServerModel.WellTimed`). `Intervals.ExtensionKeepsWindows` shows what an earlier contact
  time would cost. No method requires it: it is a hypothesis of the theorems that need it.
- Erasing while iterating (`connections.h:105`): `erase` invalidates iterators of a
  `std::deque` (section 23.3.3.4 of ISO C++14). The model does what is evidently meant: after
  the erased client the loop goes on with its successor.
- Contacts: `server.h:142` runs after every `receive`, also for a rejected datagram, and after
  a failed `recvfrom`, when the address is still all zero. All of these are contacts, so
  the zero address can become a recipient.
- Addresses are the pair of IP address and port, all that `connections.h:13-16` compares.
- Some methods of the source are split: `Visit` is the loop body of `get_clients`, `TakeDatagram`
  the try block of `receive`, `DispatchNext` the loop body of `prepare_send_data`, `TryFirst`
  the second half of `send`, and `Serve` what a turn of `run` does with the flags it read.

## Where the code and its documentation differ

- `server.h:121-124` means to take datagrams of a timestamp and one character only. It looks at
  the text of the decoded message, which ends at the first NUL, so a longer datagram with
  a NUL as its tenth octet is taken (`Communication.TakenIsHeaderUnlessNul` says exactly when).
- `protocol.h:14` is the last second of year 4242, as `README.md:70-71` requires. The bound
  expected by the unit tests is the first second of that year, 365 days too low.
- Purging does not show in who is answered, but it can show in the order of the answer, which
  no document promises. It shows exactly when an answered client was dropped and registered
  anew behind another answered client that was first heard from later
  (`RegistrationOrder.PurgingShowsExactly`; `ConnectionsRuns.PurgingShowsInOrder` is such a run).
- `README.md:68` assumes a file without NUL. What is sent depends on how the reads split the
  file exactly when some other octet comes after a NUL (`FileReader.SplitMattersExactly`;
  `FileReader.SplitMatters` is such a file). Otherwise it is the file up to its first NUL.

## Model

| member | source | states |
|---|---|---|
| ServerRuns.RunKeepsInv | server.h:113-181 | in every run with a clock that never goes back, the invariant holds, and the server's contacts and accepted datagrams are those the events alone determine |
| ServerRuns.ReachedKeepsInv | server.h:113-181 | the same for a state given with the events that reach it |
| ServerRuns.RecipientsAreNaive | server.h:148-156 | a message dequeued after any run, however late, goes to exactly the addresses other than its sender's that were heard from at most 120 seconds before its arrival, each once |
| ServerRuns.LaterContactsAreTooLate | server.h:150-152 | contacts logged after the dequeuing would not have changed the recipients, save one in the very second of arrival |
| ServerRuns.RecipientsOfPast | server.h:148-156 | for every message dispatched so far, whatever came since: its recipients are exactly the addresses other than its sender's that the log, as it was at the dispatch, has in the window of its arrival |
| ServerRuns.SameSecondIsMissed | server.h:150-152 | the exception is real: after any run whose latest contact is in the second of a message's arrival, a client first heard from in that second after the dispatch is in its window and is not sent it |
| ServerRuns.SameSecondHappens | server.h:150-152 | a run in which this happens |
| ServerRuns.QueueIsTimely | server.h:126-142 | in every reachable state buffered arrivals never decrease, none is before an arrival already queried, none after the latest contact |
| ServerRuns.ClientsAreCanonical | connections.h:44-51 | in every reachable state each client's intervals are the coalescing of all its contact times with an expired prefix removed, sorted, disjoint, the last ending 120 seconds after its latest contact |
| ServerRuns.EveryDatagramAccounted | server.h:126-132 | each accepted datagram is overwritten, buffered or dispatched: exactly one, exactly once; overwritten exactly when it was not dispatched before the acceptance of the one `capacity` places after it |
| ServerRuns.OverwrittenUnlessDispatched | server.h:126-132 | in every run, datagram `id` is overwritten exactly when datagram `id + capacity` was accepted while it was not yet dispatched; so none is lost as long as there is room |
| ServerRuns.ReceiveQueues | server.h:116-143 | a receive overwrites exactly when it accepts into a full buffer; otherwise the old queue is kept, with the accepted item after it |
| ServerRuns.EveryRecipientAccounted | server.h:169-180 | each recipient of a dispatched message was sent to, failed or is pending: exactly one; nobody else was; only the latest message has pending recipients |
| ServerRuns.SendsAreOrdered | server.h:148-176 | attempts follow the order of acceptance, and no client is sent the same message twice or messages out of order |
| ServerRuns.EmittedBytes | server.h:153-173 | what is emitted is the first nine octets of an accepted datagram with a proper timestamp, the file content and a NUL; a client decodes it to the sender's timestamp and character and the file content, or refuses it when it had to be truncated |
| ServerRuns.PrepareGrows | server.h:148-156 | preparing takes messages off the front of the buffer in order and changes neither logs nor poll flags |
| ServerRuns.StepLogs | server.h:116-143 | every receive logs one contact, and an accepted datagram exactly when the octets that arrived are a header with a proper timestamp with nothing, or a NUL, after it |
| ServerInvariant.StepKeepsInv | server.h:113-181 | each receive and each send keeps the whole invariant |
| ServerInvariant.TakenIsRelayable | server.h:119-124 | the receiver yields a message without text exactly for the datagrams relayable by the octets that arrived, however many; the queued item is what those octets say |
| ServerInvariant.TakeQueues | server.h:119-133 | the try block queues the item of a relayable datagram behind the old queue, whose oldest item goes only when it is full, and arms both bits; for any other it changes nothing |
| ServerInvariant.EnqueueKeepsFates | server.h:126-132 | queuing keeps every datagram accounted for, and with room in the buffer it overwrites nothing |
| ServerInvariant.EnqueueOverwrites | server.h:126-132 | queuing overwrites the datagram accepted `capacity` places before, unless that is dispatched already, and no other |
| ServerInvariant.QueueNotBeforeHorizon | server.h:150-152 | no buffered arrival is before a time already queried |
| ServerInvariant.HorizonBeforeContacts | server.h:141-142 | no contact is added before a time already queried |
| ServerInvariant.DispatchKeepsInv | server.h:149-155 | one turn of the loop of prepare_send_data keeps the invariant |
| ServerInvariant.EmitKeepsDelivered | server.h:169-180 | an attempt moves the client from pending to sent or failed, or leaves it pending |
| ServerInvariant.RelayBytes | server.h:153-154 | decoding, setting the file content and re-encoding keeps the nine header octets |
| ServerLiveness.NoLostWakeup | server.h:133-167 | POLLIN is always armed, and POLLOUT whenever the buffer or the pending list is not empty, whatever the clock does |
| ServerLiveness.SendTriesOrDisarms | server.h:162-173 | a send makes an attempt when there is a recipient, and otherwise disarms POLLOUT with both lists empty |
| ServerLiveness.TriedLeavesUnlessBlocked | server.h:162-180 | the client a send tries leaves the pending list whatever `sendto` returned, except for a negative result with EWOULDBLOCK, when it is put last; the attempt succeeds exactly when all octets were taken |
| ServerLiveness.RoundIsFair | server.h:169-180 | with n clients pending the next n sends try each once, in order, with the same bytes, whatever the outcomes and the receives in between; the blocked ones stay, in order |
| ServerLiveness.BlockedRoundChangesNothing | server.h:172-175 | a round in which every send would block leaves the pending list as it was |
| ServerLiveness.Draining | server.h:162-173 | without receives and blocking, POLLOUT is disarmed by exactly the send after as many as there are recipients left by the plain log, with all of them attempted |
| ServerLiveness.SendProgresses | server.h:148-181 | each such send shortens the buffer, or keeps it and shortens the pending list |
| ServerLiveness.WorkIsBounded | server.h:148-181 | the work is at most the pending clients plus the buffered messages times the registered clients |
| ServerLiveness.DrainedServerSettlesAll | server.h:148-181 | after any run and enough sends that do not block, each accepted datagram not overwritten was dispatched, and sending was done or failed for exactly the addresses other than its sender's that the log of its dispatch has in the window of its arrival |
| ServerLiveness.DrainedServerDelivers | server.h:148-181 | for a datagram still buffered after the run, that is exactly who was heard from at most 120 seconds before its arrival, by the log the events determine |
| ServerLiveness.SendsDispatchNow | server.h:148-181 | sends overwrite nothing, and every dispatch they make sees the log as it is |
| ServerLiveness.WritableWakeupServes | server.h:216-237 | with something to send, a wakeup with a writable socket makes an attempt or finds nobody left; a readable one always receives, once; without POLLOUT armed and a writable socket nothing is sent |
| Server.Server.constructor | server.h:189-201 | the new server is at the start of a run, with both poll bits armed, nothing buffered, nobody pending and nobody registered |
| Server.Server.TakeDatagram | server.h:119-133 | the try block queues the datagram exactly when the octets that arrived are acceptable, dropping the oldest item only when the buffer is full, and then arms both poll bits; otherwise nothing changes |
| Server.Server.Receive | server.h:116-143 | the fields become those the state machine reaches by one more receive |
| Server.Server.DispatchNext | server.h:150-154 | pops the oldest item, asks for its recipients and makes it current, as the specification says |
| Server.Server.PrepareSendData | server.h:148-156 | the loop does what the specification of preparing says |
| Server.Server.TryFirst | server.h:164-180 | disarms, or hands sendto the framed current message for the first pending client, which is requeued last exactly when sendto failed with EWOULDBLOCK |
| Server.Server.Send | server.h:162-181 | the fields become those reached by one more send; says what sendto was handed |
| Server.Server.RunOnce | server.h:219-235 | one turn receives and sends according to what poll reported before either call |
| Server.Server.HistoryIsARun | server.h:113-181 | when the clock never went back, the server's fields are those of the run its history describes, to which all theorems on runs apply |
| Server.CreateServer | server.h:102-111 | fails exactly when the file cannot be opened, or a read fails before the end of the file is found, with the error of each; otherwise gives a new server with the file's content and the given capacity, at the start of its run, made of new parts only |
| ConnectionsRuns.RegistryRefinesLog | connections.h:73-113 | after any interleaving of calls with non-decreasing add times and non-decreasing query times, a query answers with exactly the addresses the plain log selects, each once |
| ConnectionsRuns.QueuesAreCanonical | connections.h:44-103 | when contacts run ahead of queries every stored queue is canonical, separated and not empty, and stored addresses are distinct |
| ConnectionsRuns.OneContactWindow | connections.h:10-63 | a client heard from once, at s, is answered exactly for times from s to s + 120 |
| ConnectionsRuns.PurgingShowsInOrder | connections.h:100-106 | a run in which a purge that erases a client changes the order of a later answer |
| ConnectionsRuns.AnswerInStoredOrder | connections.h:92-112 | such an answer lists addresses in the order in which they are stored |
| RegistrationOrder.StoredInRegistrationOrder | connections.h:73-106 | in every run an address is stored exactly when the calls have it registered: a contact registers an unknown address, a query other than its own drops it when all its contacts have ended; clients are stored in the order in which they were registered |
| RegistrationOrder.AnswerInRegistrationOrder | connections.h:90-113 | every answer lists exactly the addresses with a contact in the window, in the order of registration |
| RegistrationOrder.FirstContactRegisters | connections.h:73-81 | where nothing is ever queried, an address is registered by its first contact |
| RegistrationOrder.PurgingShowsExactly | connections.h:90-113 | an answer equals that of the same contacts without any query exactly when no answered client was registered anew behind another answered client first heard from later |
| ConnectionsSpec.AddKeepsIndex | connections.h:73-81 | adding a contact keeps the tie between registry and log |
| ConnectionsSpec.QueryKeepsIndex | connections.h:90-113 | a query keeps the tie, with the query time as the new horizon |
| ConnectionsSpec.QueryIsNaive | connections.h:90-113 | the answer is the naive filter of the log minus the excluded address, without duplicates |
| ConnectionsSpec.MatchesInOrder | connections.h:92-112 | the answer is the stored addresses the naive test selects, in stored order |
| ConnectionsSpec.AddedLookup | connections.h:73-81 | adding changes the intervals of one address only and keeps addresses distinct and queues not empty |
| ConnectionsSpec.KeptLookup | connections.h:94-111 | a query purges the queue of every address but the excluded one |
| ConnectionsSpec.SurvivorsStructured | connections.h:96-106 | after a query addresses are distinct and every stored client has an interval |
| ConnectionsSpec.ContactedIsRegistered | connections.h:100-106 | whoever has a window at or after the latest query is still registered |
| ConnectionsSpec.QueueIsCanonical | connections.h:44-51 | a tied queue is canonical and separated |
| Connections.Client.AddConnection | connections.h:44-51 | extends the last interval or appends one; the queue is not empty |
| Connections.Client.PopExpired | connections.h:100-103 | drops the expired intervals from the front |
| Connections.Connections.AddClient | connections.h:73-81 | the loop with its early return does what the specification of adding says, on separate objects |
| Connections.Connections.Visit | connections.h:95-110 | the loop body: skip the excluded client, purge, erase or test the front interval |
| Connections.Connections.GetClients | connections.h:90-113 | stored clients and answer are those of the specification |
| Intervals.ExtendedIsCoalesced | connections.h:44-51 | extending the queue on each contact computes the maximal runs with gaps of at most 120 seconds of all contacts |
| Intervals.HitIsCovered | connections.h:60-108 | once the expired intervals are gone, the front one alone decides whether the time point is in some window |
| Intervals.CoalescedIsSeparated | connections.h:44-51 | coalesced intervals are sorted and disjoint, the last ending 120 seconds after the last time |
| Intervals.ExtensionKeepsWindows | connections.h:44-51 | a contact loses no window exactly when it is no earlier than the latest one |
| ContactLog.ContactedIsCovered | connections.h:60-63 | the log-wide test is the test on the contact times of the address |
| BufferRuns.BufferAccounting | buffer.h:71-93 | in every run the buffer holds the newest items, pops return an increasing choice of the pushed items, and pushes are pops plus overwrites plus contents |
| BufferRuns.OverwrittenUnlessPopped | buffer.h:71-78 | item i is overwritten exactly when it is not popped before push i + N |
| BufferRuns.ApplyKeepsBalance | buffer.h:71-93 | one push or pop keeps the books balanced |
| BufferRuns.OneMoreLeaves | buffer.h:71-93 | when the oldest item leaves, by being popped or overwritten, each item is still in exactly one place |
| Buffer.Buffer.constructor | buffer.h:14-43 | a new buffer is empty |
| Buffer.Buffer.GetIndex | buffer.h:38-40 | the modular index, within the array |
| Buffer.Buffer.Get | buffer.h:52-57 | the item at an abstract index, or out of range |
| Buffer.Buffer.Push | buffer.h:71-78 | appends, dropping the oldest item when full |
| Buffer.Buffer.Pop | buffer.h:85-93 | returns and removes the oldest item, or out of range when empty |
| Buffer.Buffer.Items | buffer.h:98-132 | iterating visits the contents in order |
| Protocol.ParseInvertsEncode | protocol.h:91-122 | decoding the terminated encoding returns the message exactly when its text has no NUL |
| Protocol.EncodeInvertsParse | protocol.h:91-122 | re-encoding a decoded buffer returns its bytes up to the first NUL at or after offset 9 |
| Protocol.EncodedOctets | protocol.h:104-122 | octet i of the encoding is the timestamp's octet of weight 256 to the power 7 - i; then the character, then the text |
| Protocol.ToBytes | protocol.h:113-122 | the in-place construction yields the encoding |
| Protocol.ProperTimestampIsYear4242 | protocol.h:14-25 | a timestamp is proper exactly when its UTC year is between 1717 and 4242 |
| Protocol.FirstSecondOf4242 | private/test_protocol.cc:10 | the bound the unit tests expect is the first second of year 4242 |
| Bytes.FromBigEndianInvertsBigEndian | protocol.h:116 | big-endian decoding inverts encoding |
| Bytes.BigEndianInvertsFromBigEndian | protocol.h:97 | big-endian encoding inverts decoding |
| Bytes.FirstOctetWeighsMost | protocol.h:97 | in network order the first octet weighs most |
| Bytes.CStringIsPrefix | protocol.h:101-102 | a C string is the NUL-free prefix before the first NUL |
| Calendar.PosixCountsLeapDays | protocol.h:13-14 | the closed formula of "Seconds Since the Epoch" counts the days year by year |
| Calendar.YearIsUnique | README.md:66-71 | no other year contains the timestamp, so `YearOf` is its Gregorian year |
| Calendar.YearReached | protocol.h:13-14 | a year is reached exactly when its first second is |
| Communication.Classify | communication.h:58-67 | an attempt counts as sent exactly when the whole datagram was taken, and as blocked exactly when the result is negative with EWOULDBLOCK |
| Communication.SendMessage | communication.h:42-68 | the octets handed to sendto; sent exactly when all were taken, would-block exactly when the result is negative with EWOULDBLOCK |
| Communication.Receiver.ReceiveMessage | communication.h:96-118 | the result depends on the datagram alone, not on what earlier ones left in the buffer; every error on its own condition on the octets that arrived |
| Communication.ReceivedByOctets | communication.h:100-117 | for the client and the server: no text, no terminator, too short, improper timestamp, each exactly when the octets that fit say so; in every other case the message they hold, its text up to the first NUL |
| Communication.StaleMemoryIsHidden | communication.h:115-117 | the terminator stored after the datagram hides the rest of the buffer |
| Communication.AcceptsDecodable | communication.h:107-117 | which received bytes decode to a message without text, and that re-encoding it returns the header |
| Communication.AcceptsWhatArrived | communication.h:100-117 | what does not fit in the buffer has no part in whether the server accepts a datagram |
| Communication.TakenIsHeaderUnlessNul | server.h:121-124 | a datagram is taken exactly when its octets are acceptable; a taken one has nine, except exactly where a tenth octet NUL hides more |
| Communication.PaddedDatagramIsTaken | server.h:121-124 | a datagram with more than nine octets that is taken |
| Communication.ClientToServer | client.h:96-103 | what a client sends is accepted and decodes unchanged |
| Communication.ServerToClient | communication.h:47-117 | what the server sends decodes to the relayed message when it fits in 65535 octets, and is refused when it does not |
| FileReader.ReadContent | file.h:32-46 | the read loop over one reused buffer computes the content, and fails exactly when a read fails before the end of the file is found |
| FileReader.ReadFailsExactly | file.h:37-46 | reading fails exactly when some read fails and none before it finds the end of the file |
| FileReader.ContentByReads | file.h:37-46 | the loop ends with the first read that fails or is empty: a failed one is an error, an empty one gives what was kept of each chunk before it, in order |
| FileReader.OneReadWillDo | file.h:33-38 | a file of up to 65535 octets can come in one read |
| FileReader.ContentIsNulFree | file.h:42-43 | whatever the reads, the content has no NUL |
| FileReader.ContentIsWholeFile | file.h:32-46 | in whatever split it arrives, the whole file is kept exactly when it has no NUL |
| FileReader.SplitMattersExactly | file.h:32-46 | every split of a file gives the same content exactly when only NULs follow its first NUL, and then the content is the file up to that NUL |
| FileReader.SplitMatters | file.h:42-43 | a file of which two splits give different contents |

## Left out

- Sockets, `poll`, `open`, `read`, `close`, `getaddrinfo`: replaced by outcomes the environment chooses.
- `poll.h` beyond two interest bits: the server uses a set of one descriptor, and `remove_descriptor` is never called.
- `parse.h`: a thin layer over `boost::lexical_cast`, whose behaviour is not part of this model.
- Command line, printing, signals and exit codes (`client.cc`, `server.cc`, `error.h`), and the `stopping` flag, which only ends the loop of `run`: its body is `RunOnce`, and the turns one after the other add their events to one history.
- Printing of messages, and moving of `unique_ptr`s: messages are values, and a moved-from slot of the buffer is not looked at again.
- `time_t` and `size_t` are unbounded: `timestamp + TIMEOUT` and the index sums of the buffer do not come near their limits.
- The limit of 42 clients that `README.md:89-90` allows the server to assume: the code has none.
- Intermediate states inside one call, and C++ object layout: clients of the deque are separate objects of the model, found again after an erasure.
- Server.Server.Receive: says nothing of the diagnostics printed for a rejected datagram.
- ConnectionsRuns.RegistryRefinesLog: does not cover queries that go back in time, which the server never makes.
