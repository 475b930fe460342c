/** The wire codec, and what a stream of encoded messages means. */
module TcpSerializer {
  import opened Protocol

  // ----- The codec -----

  function EncodeLength(n: UInt32): Bytes {
    [n % 256, n / 0x100 % 256, n / 0x1_0000 % 256, n / 0x100_0000]
  }

  function DecodeLength(b: Bytes): UInt32
    requires |b| == 4
  {
    b[0] as int + 0x100 * b[1] as int + 0x1_0000 * b[2] as int + 0x100_0000 * b[3] as int
  }

  function Serializer(m: Message): Bytes {
    [m.header.version, m.header.command, m.header.status] + EncodeLength(m.header.length) + m.data
  }

  function Deserializer(buffer: Bytes): Option<Message> {
    if |buffer| < HEADER_SIZE then None
    else
      var header := Header(buffer[0], buffer[1], buffer[2], DecodeLength(buffer[3..7]));
      if header.version != PROTOCOL_VERSION then None
      else if |buffer| < HEADER_SIZE + header.length then None
      else Some(Message(header, buffer[HEADER_SIZE..HEADER_SIZE + header.length]))
  }

  /** A reply whose body is the dumped document, or nothing for a null document.
      The 32-bit length field truncates the payload size. */
  function CreateJsonMsg(command: Byte, status: Byte, body: Option<Bytes>): Message {
    match body
    case Some(text) => Message(Header(PROTOCOL_VERSION, command, status, |text| % 0x1_0000_0000), text)
    case None => Message(Header(PROTOCOL_VERSION, command, status, 0), [])
  }

  lemma LengthRoundTrip(n: UInt32)
    ensures DecodeLength(EncodeLength(n)) == n
  {
    var q1, q2 := n / 0x100, n / 0x1_0000;
    assert n == 0x100 * q1 + n % 256;
    assert q2 == q1 / 0x100 && q1 == 0x100 * q2 + q1 % 256;
    assert n / 0x100_0000 == q2 / 0x100;
  }

  lemma DecodedLengthEncodes(b: Bytes)
    requires |b| == 4
    ensures EncodeLength(DecodeLength(b)) == b
  {
    var n := DecodeLength(b);
    var q2 := b[2] as int + 0x100 * b[3] as int;
    var q1 := b[1] as int + 0x100 * q2;
    SplitByte(n, b[0], q1);
    SplitByte(q1, b[1], q2);
    SplitByte(q2, b[2], b[3] as int);
    assert n / 0x1_0000 == q2;
    assert n / 0x100_0000 == b[3] as int;
  }

  lemma SplitByte(n: nat, low: Byte, high: nat)
    requires n == low as int + 0x100 * high
    ensures n % 0x100 == low && n / 0x100 == high
  {
  }

  // ----- One message -----

  /** The decoder inverts the encoder with any bytes behind the message. */
  lemma EncodedMessageParses(m: Message, rest: Bytes)
    requires WellFormed(m)
    ensures Deserializer(Serializer(m) + rest) == Some(m)
  {
    var b := Serializer(m) + rest;
    assert b[3..7] == EncodeLength(m.header.length);
    LengthRoundTrip(m.header.length);
    assert b[HEADER_SIZE..HEADER_SIZE + |m.data|] == m.data;
  }

  /** Whatever the decoder accepts is well formed, and its encoding is exactly
      the bytes it stands for at the head of the buffer. */
  lemma ParsedHeadIsEncoding(buffer: Bytes)
    requires Deserializer(buffer).Some?
    ensures var m := Deserializer(buffer).value;
            WellFormed(m) && HEADER_SIZE + m.header.length <= |buffer|
            && Serializer(m) == buffer[..HEADER_SIZE + m.header.length]
  {
    DecodedLengthEncodes(buffer[3..7]);
    var m := Deserializer(buffer).value;
    assert buffer[..HEADER_SIZE + m.header.length]
        == [buffer[0], buffer[1], buffer[2]] + buffer[3..7] + buffer[HEADER_SIZE..HEADER_SIZE + m.header.length];
  }

  /** Round trip, exactly: a message survives the wire iff it is well formed. */
  lemma RoundTripExactly(m: Message)
    ensures Deserializer(Serializer(m)) == Some(m) <==> WellFormed(m)
  {
    if WellFormed(m) {
      EncodedMessageParses(m, []);
      assert Serializer(m) + [] == Serializer(m);
    } else if Deserializer(Serializer(m)) == Some(m) {
      ParsedHeadIsEncoding(Serializer(m));
    }
  }

  /** Bytes that arrive later never change a message already complete. */
  lemma ExtensionStable(a: Bytes, b: Bytes)
    requires Deserializer(a).Some?
    ensures Deserializer(a + b) == Deserializer(a)
  {
    assert (a + b)[3..7] == a[3..7];
    var n := HEADER_SIZE + Deserializer(a).value.header.length;
    assert (a + b)[HEADER_SIZE..n] == a[HEADER_SIZE..n];
  }

  /** A message built from a JSON document carries its command, its status and the
      document, and reaches the reader so iff the body fits 32 bits. */
  lemma JsonMsgQualifies(command: Byte, status: Byte, body: Option<Bytes>)
    ensures var m := CreateJsonMsg(command, status, body);
            && m.header.command == command && m.header.status == status && m.header.version == 1
            && m.data == (if body.Some? then body.value else [])
            && (Deserializer(Serializer(m)) == Some(m) <==> (body.Some? ==> |body.value| < 0x1_0000_0000))
  {
    RoundTripExactly(CreateJsonMsg(command, status, body));
  }

  /** The number that bytes stand for, the lowest first. */
  function LittleEndian(b: Bytes): nat {
    if b == [] then 0 else b[0] + 0x100 * LittleEndian(b[1..])
  }

  lemma LittleEndianOfFour(b: Bytes)
    requires |b| == 4
    ensures LittleEndian(b) == DecodeLength(b)
  {
    assert LittleEndian(b[1..]) == b[1] + 0x100 * LittleEndian(b[1..][1..]);
    assert b[1..][1..] == [b[2], b[3]] && [b[2], b[3]][1..] == [b[3]] && [b[3]][1..] == [];
    assert LittleEndian([b[2], b[3]]) == b[2] + 0x100 * LittleEndian([b[3]]);
    assert LittleEndian([b[3]]) == b[3];
  }

  /** On the wire: version, command, status, the four bytes of the length with the
      lowest first, and the payload. */
  lemma WireLayout(m: Message)
    ensures var b := Serializer(m);
            && |b| == 7 + |m.data| && b[7..] == m.data
            && b[0] == m.header.version && b[1] == m.header.command && b[2] == m.header.status
            && LittleEndian(b[3..7]) == m.header.length
  {
    var b := Serializer(m);
    assert b[3..7] == EncodeLength(m.header.length);
    LengthRoundTrip(m.header.length);
    LittleEndianOfFour(b[3..7]);
  }

  /** So a request without a body is these seven bytes. */
  lemma BareRequest(command: Byte)
    ensures Deserializer([1, command, 0, 0, 0, 0, 0]) == Some(Message(Header(1, command, 0, 0), []))
  {
    var b: Bytes := [1, command, 0, 0, 0, 0, 0];
    assert b[3..7] == [0, 0, 0, 0] && b[7..7] == [];
  }

  // ----- A stream of messages -----

  /** Bytes the message at the head of the buffer occupies. */
  function Consumed(m: Message): nat {
    HEADER_SIZE + m.header.length
  }

  function EncodeAll(ms: seq<Message>): Bytes {
    if ms == [] then [] else Serializer(ms[0]) + EncodeAll(ms[1..])
  }

  /** The greedy parse: every complete message from the head, and what is left. */
  function Parse(buffer: Bytes): (r: (seq<Message>, Bytes))
    ensures |r.1| <= |buffer|
    decreases |buffer|
  {
    match Deserializer(buffer)
    case None => ([], buffer)
    case Some(m) =>
      var (ms, rest) := Parse(buffer[Consumed(m)..]);
      ([m] + ms, rest)
  }

  lemma EncodeAllCons(m: Message, ms: seq<Message>)
    ensures EncodeAll([m] + ms) == Serializer(m) + EncodeAll(ms)
  {
    assert ([m] + ms)[1..] == ms;
  }

  lemma Regroup(buffer: Bytes, n: nat, head: Bytes, middle: Bytes, rest: Bytes)
    requires n <= |buffer| && head == buffer[..n] && middle + rest == buffer[n..]
    ensures head + middle + rest == buffer
  {
    assert head + middle + rest == head + (middle + rest);
  }

  /** Parsing loses no byte. */
  lemma {:induction false} ParseConserves(buffer: Bytes)
    ensures EncodeAll(Parse(buffer).0) + Parse(buffer).1 == buffer
    decreases |buffer|
  {
    match Deserializer(buffer)
    case None =>
    case Some(m) =>
      ParsedHeadIsEncoding(buffer);
      var tail := buffer[Consumed(m)..];
      ParseConserves(tail);
      var (ms, rest) := Parse(tail);
      EncodeAllCons(m, ms);
      Regroup(buffer, Consumed(m), Serializer(m), EncodeAll(ms), rest);
  }

  /** The greedy parse yields well-formed messages only and stops only where
      nothing more can be parsed. */
  lemma {:induction false} ParseIsGreedy(buffer: Bytes)
    ensures Deserializer(Parse(buffer).1) == None
    ensures forall m :: m in Parse(buffer).0 ==> WellFormed(m)
    decreases |buffer|
  {
    match Deserializer(buffer)
    case None =>
    case Some(m) =>
      ParsedHeadIsEncoding(buffer);
      ParseIsGreedy(buffer[Consumed(m)..]);
  }

  lemma HeadComesFirst(a: Bytes, b: Bytes)
    requires Deserializer(a).Some?
    ensures Deserializer(a + b) == Deserializer(a)
    ensures var n := Consumed(Deserializer(a).value); n <= |a| && (a + b)[n..] == a[n..] + b
  {
    ParsedHeadIsEncoding(a);
    ExtensionStable(a, b);
  }

  /** Parsing what has arrived and then the leftover with the next bytes is
      parsing everything at once. */
  lemma {:induction false} ParseInPieces(a: Bytes, b: Bytes)
    ensures var (ms, rest) := Parse(a);
            var (ms', rest') := Parse(rest + b);
            Parse(a + b) == (ms + ms', rest')
    decreases |a|
  {
    match Deserializer(a)
    case None =>
      assert [] + Parse(a + b).0 == Parse(a + b).0;
    case Some(m) =>
      HeadComesFirst(a, b);
      ParseInPieces(a[Consumed(m)..], b);
      var (ms, rest) := Parse(a[Consumed(m)..]);
      assert [m] + ms + Parse(rest + b).0 == [m] + (ms + Parse(rest + b).0);
  }

  lemma ParseCons(m: Message, tail: Bytes)
    requires WellFormed(m)
    ensures Parse(Serializer(m) + tail) == ([m] + Parse(tail).0, Parse(tail).1)
  {
    EncodedMessageParses(m, tail);
    assert (Serializer(m) + tail)[Consumed(m)..] == tail;
  }

  /** Round trip on streams: encodings put end to end parse back to the list. */
  lemma {:induction false} StreamRoundTrip(ms: seq<Message>)
    requires forall i :: 0 <= i < |ms| ==> WellFormed(ms[i])
    ensures Parse(EncodeAll(ms)) == (ms, [])
  {
    if ms != [] {
      var tail := EncodeAll(ms[1..]);
      StreamRoundTrip(ms[1..]);
      ParseCons(ms[0], tail);
      assert ms == [ms[0]] + ms[1..];
    }
  }

  /** Distinct lists of well-formed messages have distinct encodings. */
  lemma EncodingInjective(ms: seq<Message>, ns: seq<Message>)
    requires forall i :: 0 <= i < |ms| ==> WellFormed(ms[i])
    requires forall i :: 0 <= i < |ns| ==> WellFormed(ns[i])
    requires EncodeAll(ms) == EncodeAll(ns)
    ensures ms == ns
  {
    StreamRoundTrip(ms);
    StreamRoundTrip(ns);
  }

  // ----- The sticking parser -----

  function Zeros(n: nat): Bytes {
    seq(n, _ => 0)
  }

  /** A buffer is beyond rescue by any further bytes iff its first byte is not
      the protocol version. */
  lemma StuckExactly(buffer: Bytes)
    ensures (forall more: Bytes :: Deserializer(buffer + more) == None)
            <==> |buffer| > 0 && buffer[0] != PROTOCOL_VERSION
  {
    if |buffer| > 0 && buffer[0] != PROTOCOL_VERSION {
      forall more: Bytes ensures Deserializer(buffer + more) == None {
        assert (buffer + more)[0] == buffer[0];
      }
    } else {
      var seed: Bytes := if |buffer| == 0 then [PROTOCOL_VERSION] else [];
      var head := buffer + (seed + Zeros(HEADER_SIZE));
      assert head[0] == PROTOCOL_VERSION;
      var n := DecodeLength(head[3..7]);
      var more := seed + Zeros(HEADER_SIZE) + Zeros(n);
      var full := buffer + more;
      assert full == head + Zeros(n);
      assert full[3..7] == head[3..7];
      assert Deserializer(full).Some?;
    }
  }

  /** Once a foreign byte heads the leftover, no later byte is ever consumed:
      the messages found stay the same and the leftover only grows. */
  lemma StuckForever(buffer: Bytes, more: Bytes)
    requires var rest := Parse(buffer).1; |rest| > 0 && rest[0] != PROTOCOL_VERSION
    ensures Parse(buffer + more) == (Parse(buffer).0, Parse(buffer).1 + more)
  {
    ParseInPieces(buffer, more);
    StuckExactly(Parse(buffer).1);
    assert Parse(buffer).0 + [] == Parse(buffer).0;
  }

  /** Behind any encoded messages a foreign byte ends the parse. */
  lemma ForeignHeadSticks(earlier: seq<Message>, tail: Bytes)
    requires forall i :: 0 <= i < |earlier| ==> WellFormed(earlier[i])
    requires |tail| > 0 && tail[0] != PROTOCOL_VERSION
    ensures Parse(EncodeAll(earlier) + tail) == (earlier, tail)
  {
    StreamRoundTrip(earlier);
    ParseInPieces(EncodeAll(earlier), tail);
    assert [] + tail == tail && earlier + [] == earlier;
  }
}
