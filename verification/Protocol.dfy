/**
 * Messages and their wire format (protocol.h). A message is a value; the memory a
 * message is read from is a sequence of octets.
 */
module Protocol {
  import opened Bytes
  import opened Wrappers
  import Calendar

  const MAX_TIMESTAMP: UInt64 := 71728934399
  const PACKET_SIZE := 65536
  const MESSAGE_OFFSET := 9

  /** The reasons for which a datagram is refused. */
  datatype Error = InvalidData | InvalidTimestamp | NoText | NotTerminated | ConnectionError

  datatype Message = Message(timestamp: UInt64, character: Byte, text: seq<Byte>) {
    predicate HasMessage() {
      |text| > 0
    }

    /** Encoded by to_bytes: timestamp, character, text; no terminator. */
    function Encode(): (bytes: seq<Byte>)
    {
      BigEndian(timestamp, 8) + [character] + text
    }

    function SetMessage(msg: seq<Byte>): Message {
      this.(text := msg)
    }
  }

  predicate IsProperTimestamp(timestamp: UInt64) {
    timestamp <= MAX_TIMESTAMP
  }

  /** Both constructors validate the timestamp they were given. */
  function Validated(m: Message): Result<Message, Error> {
    if IsProperTimestamp(m.timestamp) then Success(m) else Failure(InvalidTimestamp)
  }

  function TimestampAt(memory: seq<Byte>): UInt64
    requires |memory| >= MESSAGE_OFFSET
  {
    Pow256OfEight();
    FromBigEndian(memory[..8])
  }

  /** The memory holds a header, and a NUL for the text to end at. */
  predicate Readable(memory: seq<Byte>) {
    |memory| >= MESSAGE_OFFSET && NUL in memory[MESSAGE_OFFSET..]
  }

  /** The constructor from raw bytes: memory at `bytes`, of which `length` octets were received. */
  function Parse(memory: seq<Byte>, length: nat): Result<Message, Error>
    requires length >= MESSAGE_OFFSET ==> Readable(memory)
  {
    if length < MESSAGE_OFFSET then Failure(InvalidData)
    else Validated(Message(TimestampAt(memory), memory[8], CString(memory[MESSAGE_OFFSET..])))
  }

  /** to_bytes: nine zero octets, overwritten in place, then the text appended. */
  method ToBytes(m: Message) returns (bytes: seq<Byte>)
    ensures bytes == m.Encode()
  {
    bytes := seq(MESSAGE_OFFSET, _ => 0);
    var word := BigEndian(m.timestamp, 8);
    for i := 0 to 8
      invariant |bytes| == MESSAGE_OFFSET && bytes[..i] == word[..i]
    {
      bytes := bytes[i := word[i]];
    }
    bytes := bytes[8 := m.character];
    bytes := bytes + m.text;
    assert bytes[..8] == word;
  }

  /** The wire format octet by octet: the timestamp in network order, the character, the text. */
  lemma EncodedOctets(m: Message, i: nat)
    ensures |m.Encode()| == 9 + |m.text|
    ensures i < 8 ==> m.Encode()[i] == m.timestamp / Pow256(7 - i) % 256
    ensures m.Encode()[8] == m.character && m.Encode()[9..] == m.text
  {
    if i < 8 {
      OctetOfBigEndian(m.timestamp, 8, i);
    }
  }

  /** The header of an encoding reads back. */
  lemma HeaderReadsBack(m: Message, rest: seq<Byte>)
    ensures |m.Encode() + rest| >= MESSAGE_OFFSET
    ensures TimestampAt(m.Encode() + rest) == m.timestamp
    ensures (m.Encode() + rest)[8] == m.character
    ensures (m.Encode() + rest)[MESSAGE_OFFSET..] == m.text + rest
  {
    var memory := m.Encode() + rest;
    assert memory[..8] == BigEndian(m.timestamp, 8);
    Pow256OfEight();
    FromBigEndianInvertsBigEndian(m.timestamp, 8);
  }

  /** Decoding the NUL-terminated encoding of a message gives the message up to its first NUL. */
  lemma ParseInvertsEncode(m: Message, junk: seq<Byte>, length: nat)
    requires IsProperTimestamp(m.timestamp)
    requires length >= MESSAGE_OFFSET
    ensures Readable(m.Encode() + [NUL] + junk)
    ensures Parse(m.Encode() + [NUL] + junk, length) == Success(m.SetMessage(CString(m.text)))
    ensures Parse(m.Encode() + [NUL] + junk, length) == Success(m) <==> NulFree(m.text)
  {
    var rest := [NUL] + junk;
    assert m.Encode() + [NUL] + junk == m.Encode() + rest;
    HeaderReadsBack(m, rest);
    assert m.text + rest == m.text + [NUL] + junk;
    assert (m.text + rest)[|m.text|] == NUL;
    CStringStopsAtNul(m.text, junk);
    CStringIsPrefix(m.text);
  }

  /** Re-encoding a decoded buffer gives its bytes up to the first NUL at or after the text offset. */
  lemma EncodeInvertsParse(memory: seq<Byte>, length: nat)
    requires length >= MESSAGE_OFFSET ==> Readable(memory)
    requires Parse(memory, length).Success?
    ensures var m := Parse(memory, length).value;
            && NulFree(m.text) && IsProperTimestamp(m.timestamp)
            && |m.Encode()| < |memory|
            && m.Encode() == memory[..|m.Encode()|]
            && memory[|m.Encode()|] == NUL
            && forall i :: MESSAGE_OFFSET <= i < |m.Encode()| ==> memory[i] != NUL
  {
    var m := Parse(memory, length).value;
    var tail := memory[MESSAGE_OFFSET..];
    CStringIsPrefix(tail);
    BigEndianInvertsFromBigEndian(memory[..8]);
    var n := |m.text|;
    assert m.text == tail[..n];
    assert m.Encode() == memory[..8] + [memory[8]] + tail[..n] == memory[..9 + n];
    assert memory[9 + n] == tail[n];
    forall i | MESSAGE_OFFSET <= i < |m.Encode()|
      ensures memory[i] != NUL
    {
      assert memory[i] == tail[i - 9] == m.text[i - 9];
    }
  }

  /** The bound is the documented one: years 1717 to 4242; no unsigned timestamp is before 1970. */
  lemma ProperTimestampIsYear4242(timestamp: UInt64)
    ensures IsProperTimestamp(timestamp) <==> 1717 <= Calendar.YearOf(timestamp) <= 4242
  {
    Calendar.YearReachedByPosix(timestamp, 4243, 830196);
  }

  /** The bound the unit tests expect is the first second of the last allowed year. */
  lemma FirstSecondOf4242(timestamp: UInt64)
    ensures Calendar.YearOf(timestamp) == 4242 <==> 71697398400 <= timestamp <= MAX_TIMESTAMP
  {
    Calendar.YearReachedByPosix(timestamp, 4242, 829831);
    Calendar.YearReachedByPosix(timestamp, 4243, 830196);
  }
}
