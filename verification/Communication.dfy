/**
 * Framing of messages in datagrams (communication.h). The outcomes of sendto and recvfrom
 * are parameters. The destination of sendto is kept by the caller.
 */
module Communication {
  import opened Bytes
  import opened Wrappers
  import opened Protocol

  const MAX_RECEIVED := PACKET_SIZE - 1

  /** What sendto returned, and whether errno was EWOULDBLOCK. */
  datatype SendtoOutcome = SendtoOutcome(length: int, wouldBlock: bool)

  /** How send_message ends: normally, or with one of its two exceptions. */
  datatype SendResult = Sent | WouldBlock | SendFailed

  /** What recvfrom did; the octets are those of the whole datagram, before truncation. */
  datatype Received = Datagram(bytes: seq<Byte>) | ReceiveFailed

  predicate Blocks(outcome: SendtoOutcome) {
    outcome.length < 0 && outcome.wouldBlock
  }

  /** Sent means that all of the datagram was taken; only EWOULDBLOCK is a reason to try again. */
  function Classify(outcome: SendtoOutcome, dataLength: nat): (r: SendResult)
    ensures r == Sent <==> outcome.length == dataLength
    ensures r == WouldBlock <==> outcome.length < 0 && outcome.wouldBlock
  {
    if Blocks(outcome) then WouldBlock
    else if outcome.length != dataLength then SendFailed
    else Sent
  }

  /** The octets handed to sendto. */
  function Frame(m: Message, withMessage: bool): seq<Byte> {
    m.Encode() + if withMessage then [NUL] else []
  }

  /** recvfrom drops what does not fit. */
  function Truncated(bytes: seq<Byte>): (r: seq<Byte>)
    ensures r <= bytes && |r| == if |bytes| <= 65535 then |bytes| else 65535
  {
    if |bytes| <= MAX_RECEIVED then bytes else bytes[..MAX_RECEIVED]
  }

  /** The message in a received datagram, as receive_message finds it. */
  function Decode(received: seq<Byte>, withMessage: bool): Result<Message, Error> {
    if withMessage && |received| <= MESSAGE_OFFSET then Failure(NoText)
    else if withMessage && received[|received| - 1] != NUL then Failure(NotTerminated)
    else
      TerminatorReadable(received);
      Parse(received + [NUL], |received|)
  }

  lemma TerminatorReadable(received: seq<Byte>)
    ensures |received| >= MESSAGE_OFFSET ==> Readable(received + [NUL])
  {
    if |received| >= MESSAGE_OFFSET {
      assert (received + [NUL])[MESSAGE_OFFSET..][|received| - MESSAGE_OFFSET] == NUL;
    }
  }

  function Receive(outcome: Received, withMessage: bool): Result<Message, Error> {
    match outcome
    case Datagram(bytes) => Decode(Truncated(bytes), withMessage)
    case ReceiveFailed => Failure(ConnectionError)
  }

  /**
   * The result by the octets that arrived, of which 65535 fit in the buffer: each refusal on
   * its own condition, in every other case the message with the text up to its first NUL.
   */
  ghost predicate DecidedByOctets(bytes: seq<Byte>, withMessage: bool, r: Result<Message, Error>) {
    var kept := if |bytes| <= 65535 then |bytes| else 65535;
    && r != Failure(ConnectionError)
    && (r == Failure(NoText) <==> withMessage && |bytes| <= 9)
    && (r == Failure(NotTerminated) <==> withMessage && |bytes| > 9 && bytes[kept - 1] != 0)
    && (r == Failure(InvalidData) <==> !withMessage && |bytes| < 9)
    && (r == Failure(InvalidTimestamp) <==>
          && |bytes| >= 9 && TimestampAt(bytes) > 71728934399
          && (withMessage ==> |bytes| > 9 && bytes[kept - 1] == 0))
    && (r.Success? ==> |bytes| >= 9 && r.value == Message(TimestampAt(bytes), bytes[8], CString(bytes[9..kept])))
  }

  lemma ReceivedByOctets(bytes: seq<Byte>, withMessage: bool)
    ensures DecidedByOctets(bytes, withMessage, Receive(Datagram(bytes), withMessage))
  {
    var received := Truncated(bytes);
    if |bytes| >= MESSAGE_OFFSET {
      var memory := received + [NUL];
      assert memory[..8] == received[..8] == bytes[..8];
      assert received[MESSAGE_OFFSET..] == bytes[MESSAGE_OFFSET..|received|];
      assert memory[MESSAGE_OFFSET..] == received[MESSAGE_OFFSET..] + [NUL] + [];
      CStringStopsAtNul(received[MESSAGE_OFFSET..], []);
    }
  }

  /** send_message: the encoding is copied into an array with room for the terminator. */
  method SendMessage(m: Message, withMessage: bool, outcome: SendtoOutcome)
    returns (data: seq<Byte>, result: SendResult)
    ensures data == Frame(m, withMessage)
    ensures result == Classify(outcome, |data|)
    ensures result == Sent <==> outcome.length == |data|
    ensures result == WouldBlock <==> outcome.length < 0 && outcome.wouldBlock
  {
    var bytes := ToBytes(m);
    var buffer := new Byte[|bytes| + 1](_ => 0);
    var dataLength := |bytes|;
    forall i | 0 <= i < |bytes| {
      buffer[i] := bytes[i];
    }
    if withMessage {
      buffer[dataLength] := NUL;
      dataLength := dataLength + 1;
    }
    data := buffer[..dataLength];
    if outcome.length < 0 && outcome.wouldBlock {
      return data, WouldBlock;
    }
    if outcome.length != dataLength {
      return data, SendFailed;
    }
    result := Sent;
  }

  /** The receiver reuses one buffer; what earlier datagrams left in it never shows. */
  class Receiver {
    const buffer: array<Byte>

    ghost predicate Valid() {
      buffer.Length == PACKET_SIZE
    }

    constructor ()
      ensures Valid() && fresh(buffer)
    {
      buffer := new Byte[PACKET_SIZE](_ => 0);
    }

    method ReceiveMessage(outcome: Received, withMessage: bool) returns (r: Result<Message, Error>)
      requires Valid()
      modifies buffer
      ensures r == Receive(outcome, withMessage)
      ensures outcome.ReceiveFailed? <==> r == Failure(ConnectionError)
      ensures outcome.Datagram? ==> DecidedByOctets(outcome.bytes, withMessage, r)
    {
      if outcome.ReceiveFailed? {
        return Failure(ConnectionError);
      }
      ReceivedByOctets(outcome.bytes, withMessage);
      var received := Truncated(outcome.bytes);
      var length := |received|;
      forall i | 0 <= i < length {
        buffer[i] := received[i];
      }
      if withMessage {
        if length <= MESSAGE_OFFSET {
          return Failure(NoText);
        } else if buffer[length - 1] != NUL {
          return Failure(NotTerminated);
        }
      }
      buffer[length] := NUL;
      StaleMemoryIsHidden(buffer[..], received);
      r := Parse(buffer[..], length);
    }
  }

  lemma StaleMemoryIsHidden(memory: seq<Byte>, received: seq<Byte>)
    requires |received| < |memory| && memory[..|received|] == received && memory[|received|] == NUL
    ensures |received| >= MESSAGE_OFFSET ==>
              && Readable(memory) && Readable(received + [NUL])
              && Parse(memory, |received|) == Parse(received + [NUL], |received|)
  {
    TerminatorReadable(received);
    if |received| >= MESSAGE_OFFSET {
      var text, stale := received[MESSAGE_OFFSET..], memory[|received| + 1..];
      assert memory[MESSAGE_OFFSET..] == text + [NUL] + stale;
      assert (received + [NUL])[MESSAGE_OFFSET..] == text + [NUL] + [];
      CStringStopsAtNul(text, stale);
      CStringStopsAtNul(text, []);
      assert memory[..8] == received[..8] == (received + [NUL])[..8];
      assert memory[8] == memory[..|received|][8];
      assert memory[MESSAGE_OFFSET..][|received| - MESSAGE_OFFSET] == NUL;
    }
  }

  /**
   * The datagrams the server takes: a header with a proper timestamp and nothing after it,
   * or a NUL. The source means to take nine octets only, but looks at the text of the
   * decoded message, which ends at the first NUL.
   */
  predicate Accepts(received: seq<Byte>) {
    && |received| >= MESSAGE_OFFSET
    && IsProperTimestamp(TimestampAt(received))
    && (|received| == MESSAGE_OFFSET || received[MESSAGE_OFFSET] == NUL)
  }

  lemma AcceptsDecodable(received: seq<Byte>)
    ensures Accepts(received) <==>
            Decode(received, false).Success? && !Decode(received, false).value.HasMessage()
    ensures Accepts(received) ==>
              && Decode(received, false) == Success(Message(TimestampAt(received), received[8], []))
              && Decode(received, false).value.Encode() == received[..MESSAGE_OFFSET]
  {
    if |received| >= MESSAGE_OFFSET {
      var memory := received + [NUL];
      assert memory[..8] == received[..8];
      if |received| > MESSAGE_OFFSET {
        assert memory[MESSAGE_OFFSET..][0] == received[MESSAGE_OFFSET];
      } else {
        assert memory[MESSAGE_OFFSET..] == [NUL];
      }
      BigEndianInvertsFromBigEndian(received[..8]);
      assert received[..8] + [received[8]] + [] == received[..MESSAGE_OFFSET];
    }
  }

  /** What does not fit in the buffer has no part in the decision. */
  lemma AcceptsWhatArrived(bytes: seq<Byte>)
    ensures Accepts(Truncated(bytes)) <==> Accepts(bytes)
    ensures Accepts(bytes) ==>
              Receive(Datagram(bytes), false) == Success(Message(TimestampAt(bytes), bytes[8], []))
  {
    var received := Truncated(bytes);
    if |bytes| >= MESSAGE_OFFSET {
      assert received[..8] == bytes[..8];
    }
    AcceptsDecodable(received);
  }

  /** The message is taken: it decodes, and has no text. */
  predicate Takes(bytes: seq<Byte>) {
    var r := Receive(Datagram(bytes), false);
    r.Success? && !r.value.HasMessage()
  }

  /**
   * "Only timestamp and a single character expected" is what the server says, but not what it
   * checks: a datagram is nine octets when taken, except where a NUL hides what follows it.
   */
  lemma TakenIsHeaderUnlessNul(bytes: seq<Byte>)
    ensures Takes(bytes) <==> Accepts(bytes)
    ensures (Takes(bytes) ==> |bytes| == MESSAGE_OFFSET)
            <==>
            !(|bytes| > MESSAGE_OFFSET && bytes[MESSAGE_OFFSET] == NUL && IsProperTimestamp(TimestampAt(bytes)))
  {
    AcceptsWhatArrived(bytes);
    AcceptsDecodable(Truncated(bytes));
  }

  lemma PaddedDatagramIsTaken() returns (bytes: seq<Byte>)
    ensures |bytes| == MESSAGE_OFFSET + 2 && bytes[MESSAGE_OFFSET + 1] != NUL && Takes(bytes)
  {
    var m := Message(0, 97, []);
    bytes := m.Encode() + [NUL, 66];
    HeaderReadsBack(m, [NUL, 66]);
    TakenIsHeaderUnlessNul(bytes);
  }

  /** What a client sends reaches the server unchanged. */
  lemma ClientToServer(m: Message)
    requires IsProperTimestamp(m.timestamp) && !m.HasMessage()
    ensures |Frame(m, false)| == MESSAGE_OFFSET && Accepts(Frame(m, false))
    ensures Receive(Datagram(Frame(m, false)), false) == Success(m)
  {
    var data := Frame(m, false);
    assert data == m.Encode() + [];
    HeaderReadsBack(m, []);
    AcceptsDecodable(data);
  }

  /**
   * What the server sends passes the client's checks and decodes to the relayed message
   * exactly when it fits in the client's buffer; a longer one is refused.
   */
  lemma ServerToClient(m: Message)
    requires IsProperTimestamp(m.timestamp) && NulFree(m.text)
    ensures var r := Receive(Datagram(Frame(m, true)), true);
            if |Frame(m, true)| <= 65535 then r == Success(m) else r == Failure(NotTerminated)
  {
    var data := Frame(m, true);
    if |data| <= MAX_RECEIVED {
      assert data + [NUL] == m.Encode() + [NUL] + [NUL];
      ParseInvertsEncode(m, [NUL], |data|);
    } else {
      var received := Truncated(data);
      assert received[MAX_RECEIVED - 1] == m.text[MAX_RECEIVED - 1 - MESSAGE_OFFSET];
    }
  }
}
