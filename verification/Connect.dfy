/** Connect envelopes: a flag byte, a big-endian 32-bit length, and a payload. */
module Connect {
  import opened Common

  const HEADER_BYTES: nat := 5
  const DATA: byte := 0
  const END: byte := 2

  /** uint32 truncates, so the length of 4 GiB and more wraps around. */
  function Uint32(n: nat): nat { n % 0x1_0000_0000 }

  function BigEndian(n: nat): (b: Bytes)
    requires n < 0x1_0000_0000
    ensures |b| == 4
  {
    [n / 0x100_0000, n / 0x1_0000 % 0x100, n / 0x100 % 0x100, n % 0x100]
  }

  function FromBigEndian(b: Bytes): nat
    requires |b| == 4
  {
    var (b0: int, b1: int, b2: int, b3: int) := (b[0], b[1], b[2], b[3]);
    b0 * 0x100_0000 + b1 * 0x1_0000 + b2 * 0x100 + b3
  }

  lemma BigEndianInverse(n: nat, b: Bytes)
    requires n < 0x1_0000_0000 && |b| == 4
    ensures FromBigEndian(BigEndian(n)) == n
    ensures FromBigEndian(b) < 0x1_0000_0000 && BigEndian(FromBigEndian(b)) == b
  {
    var m := FromBigEndian(b);
    var b0: int, b1: int, b2: int := b[0], b[1], b[2];
    assert m / 0x100 == b0 * 0x1_0000 + b1 * 0x100 + b2;
    assert m / 0x1_0000 == b0 * 0x100 + b1;
    assert m / 0x100_0000 == b0;
    assert n / 0x100_0000 == n / 0x1_0000 / 0x100 && n / 0x1_0000 == n / 0x100 / 0x100;
  }

  function Envelope(flag: byte, payload: Bytes): Bytes {
    [flag] + BigEndian(Uint32(|payload|)) + payload
  }

  /** The number that four bytes of a header stand for, the most significant first. */
  function Announced(header: Bytes): nat
    requires |header| >= HEADER_BYTES
  {
    var (b1: int, b2: int, b3: int, b4: int) := (header[1], header[2], header[3], header[4]);
    b1 * 16777216 + b2 * 65536 + b3 * 256 + b4
  }

  method EncodeConnectMessage(payload: Bytes) returns (frame: Bytes)
    ensures frame == Envelope(DATA, payload)
    ensures |frame| == 5 + |payload| && frame[0] == 0 && frame[5..] == payload
    ensures Announced(frame) == |payload| % 0x1_0000_0000
  {
    EnvelopeBytes(DATA, payload);
    var buffer := new byte[HEADER_BYTES + |payload|](_ => 0);
    var length := BigEndian(Uint32(|payload|));
    forall i | 0 <= i < 4 {
      buffer[1 + i] := length[i];
    }
    forall i | 0 <= i < |payload| {
      buffer[HEADER_BYTES + i] := payload[i];
    }
    frame := buffer[..];
  }

  /** EncodeConnectEnd: the same envelope with its flag overwritten; json is the encoded end-of-stream payload. */
  method EncodeConnectEnd(json: Bytes) returns (frame: Bytes)
    ensures frame == Envelope(END, json)
    ensures |frame| == 5 + |json| && frame[0] == 2 && frame[5..] == json
    ensures Announced(frame) == |json| % 0x1_0000_0000
  {
    EnvelopeBytes(END, json);
    frame := EncodeConnectMessage(json);
    frame := frame[0 := END];
  }

  method DecodeConnectRequest(body: Bytes, maxMessageBytes: int) returns (r: Result<Bytes>)
    ensures r.Ok? <==> exists p :: IsRequest(body, maxMessageBytes, p)
    ensures r.Ok? ==> IsRequest(body, maxMessageBytes, r.value)
    ensures r == if && 0 < maxMessageBytes && |body| >= 5 && body[0] == 0
                    && Announced(body) <= maxMessageBytes && |body| == 5 + Announced(body)
                 then Ok(body[5..]) else Error
  {
    hide Envelope, FromBigEndian;
    forall p | IsRequest(body, maxMessageBytes, p)
      ensures |body| == HEADER_BYTES + |p| && body[0] == DATA && FromBigEndian(body[1..HEADER_BYTES]) == |p|
    {
      EnvelopeOf(body, DATA, p);
    }
    if maxMessageBytes <= 0 || |body| < HEADER_BYTES || body[0] != 0 {
      return Error;
    }
    EnvelopeParts(body);
    HeaderRead(body);
    var messageLength := FromBigEndian(body[1..HEADER_BYTES]);
    if messageLength > maxMessageBytes || |body| != HEADER_BYTES + messageLength {
      return Error;
    }
    r := Ok(body[HEADER_BYTES..]);
    assert IsRequest(body, maxMessageBytes, body[HEADER_BYTES..]);
  }

  /** The body is the envelope of this one message, which is not too long to have one. */
  predicate IsRequest(body: Bytes, maxMessageBytes: int, payload: Bytes) {
    body == Envelope(DATA, payload) && |payload| <= maxMessageBytes && 0 < maxMessageBytes && |payload| < 0x1_0000_0000
  }

  /** A message within the limit is read back exactly when it is shorter than 4 GiB. */
  lemma ReadBackBelow4GiB(payload: Bytes, maxMessageBytes: int)
    requires 0 < maxMessageBytes && |payload| <= maxMessageBytes
    ensures (exists p :: IsRequest(Envelope(DATA, payload), maxMessageBytes, p)) <==> |payload| < 0x1_0000_0000
  {
    hide BigEndian, Uint32;
    if |payload| < 0x1_0000_0000 {
      assert IsRequest(Envelope(DATA, payload), maxMessageBytes, payload);
    }
  }

  /** One of 4 GiB is not, whatever the limit: its envelope says that nothing follows. */
  lemma TooLongUnread() returns (payload: Bytes)
    ensures |payload| == 0x1_0000_0000
    ensures Envelope(DATA, payload)[1..HEADER_BYTES] == [0, 0, 0, 0]
    ensures forall p, maxMessageBytes :: !IsRequest(Envelope(DATA, payload), maxMessageBytes, p)
  {
    payload := seq(0x1_0000_0000, _ => 0);
    assert Envelope(DATA, payload)[1..HEADER_BYTES] == BigEndian(Uint32(|payload|));
  }

  lemma EnvelopeBytes(flag: byte, payload: Bytes)
    ensures var e := Envelope(flag, payload);
            && |e| == 5 + |payload| && e[0] == flag && e[5..] == payload
            && Announced(e) == |payload| % 0x1_0000_0000
  {
    var n := Uint32(|payload|);
    assert Envelope(flag, payload)[1..HEADER_BYTES] == BigEndian(n);
    BigEndianInverse(n, BigEndian(n));
  }

  lemma HeaderRead(body: Bytes)
    requires |body| >= HEADER_BYTES
    ensures FromBigEndian(body[1..HEADER_BYTES]) == Announced(body)
  {
  }

  lemma Uint32Small(n: nat)
    requires n < 0x1_0000_0000
    ensures Uint32(n) == n
  {
  }

  lemma Slices(flag: byte, length: Bytes, p: Bytes, rest: Bytes)
    requires |length| == 4
    ensures var e := [flag] + length + p + rest;
            && e[0] == flag && e[1..HEADER_BYTES] == length
            && e[HEADER_BYTES..HEADER_BYTES + |p|] == p && e[HEADER_BYTES + |p|..] == rest
  {
  }

  lemma EnvelopeHeader(flag: byte, p: Bytes, rest: Bytes)
    requires |p| < 0x1_0000_0000
    ensures var e := Envelope(flag, p) + rest;
            && e[0] == flag && FromBigEndian(e[1..HEADER_BYTES]) == |p|
            && e[HEADER_BYTES..HEADER_BYTES + |p|] == p && e[HEADER_BYTES + |p|..] == rest
  {
    hide BigEndian, FromBigEndian, Uint32;
    var length := BigEndian(|p|);
    BigEndianInverse(|p|, length);
    Slices(flag, length, p, rest);
    Uint32Small(|p|);
  }

  /** What starts with an envelope header is an envelope if as many bytes follow as the header says. */
  lemma EnvelopeParts(body: Bytes)
    requires |body| >= HEADER_BYTES
    ensures FromBigEndian(body[1..HEADER_BYTES]) < 0x1_0000_0000
    ensures |body| == HEADER_BYTES + FromBigEndian(body[1..HEADER_BYTES]) ==>
              body == Envelope(body[0], body[HEADER_BYTES..])
  {
    hide BigEndian, FromBigEndian, Uint32;
    BigEndianInverse(0, body[1..HEADER_BYTES]);
    Uint32Small(FromBigEndian(body[1..HEADER_BYTES]));
    assert body == [body[0]] + body[1..HEADER_BYTES] + body[HEADER_BYTES..];
  }

  /** And only then. */
  lemma EnvelopeOf(body: Bytes, flag: byte, p: Bytes)
    requires body == Envelope(flag, p) && |p| < 0x1_0000_0000
    ensures |body| == HEADER_BYTES + |p| && body[0] == flag && FromBigEndian(body[1..HEADER_BYTES]) == |p|
    ensures body[HEADER_BYTES..] == p
  {
    hide BigEndian, FromBigEndian, Uint32;
    EnvelopeHeader(flag, p, []);
    assert Envelope(flag, p) + [] == body;
  }

  // ---- Reading from a stream ----

  datatype Message = Message(flag: byte, payload: Bytes)

  datatype Reading = Got(message: Message) | EndOfStream | Malformed

  /** An io.Reader over bytes that have not arrived yet. */
  class Reader {
    var rest: Bytes

    constructor (bytes: Bytes)
      ensures rest == bytes
    {
      rest := bytes;
    }

    /** io.ReadFull: n bytes, or all that are left. */
    method ReadFull(n: nat) returns (data: Bytes)
      modifies this
      ensures |data| == n || (|data| < n && rest == [])
      ensures old(rest) == data + rest && |data| <= n
    {
      var take := if n <= |rest| then n else |rest|;
      data := rest[..take];
      rest := rest[take..];
    }
  }

  /** What ReadConnectMessage makes of the bytes still to come, and what it leaves of them. */
  function Next(bytes: Bytes, maxMessageBytes: int): (Reading, Bytes) {
    if maxMessageBytes <= 0 then (Malformed, bytes)
    else if |bytes| == 0 then (EndOfStream, [])
    else if |bytes| < HEADER_BYTES then (Malformed, [])
    else
      var flag, length, rest := bytes[0], FromBigEndian(bytes[1..HEADER_BYTES]), bytes[HEADER_BYTES..];
      if (flag != DATA && flag != END) || length > maxMessageBytes then (Malformed, rest)
      else if |rest| < length then (Malformed, [])
      else (Got(Message(flag, rest[..length])), rest[length..])
  }

  method ReadConnectMessage(reader: Reader, maxMessageBytes: int) returns (r: Reading)
    modifies reader
    ensures (r, reader.rest) == Next(old(reader.rest), maxMessageBytes)
  {
    if maxMessageBytes <= 0 {
      return Malformed;
    }
    var header := reader.ReadFull(HEADER_BYTES);
    if |header| == 0 {
      return EndOfStream;
    }
    if |header| < HEADER_BYTES {
      return Malformed;
    }
    assert header == old(reader.rest)[..HEADER_BYTES];
    assert header[1..] == old(reader.rest)[1..HEADER_BYTES];
    var flag := header[0];
    if flag % 2 != 0 {
      return Malformed;
    }
    if flag != DATA && flag != END {
      return Malformed;
    }
    var messageLength := FromBigEndian(header[1..]);
    if messageLength > maxMessageBytes {
      return Malformed;
    }
    var payload := reader.ReadFull(messageLength);
    if |payload| < messageLength {
      return Malformed;
    }
    r := Got(Message(flag, payload));
  }

  function Encode(m: Message): Bytes { Envelope(m.flag, m.payload) }

  function EncodeAll(ms: seq<Message>): Bytes {
    if ms == [] then [] else Encode(ms[0]) + EncodeAll(ms[1..])
  }

  predicate Sendable(m: Message, maxMessageBytes: int) {
    (m.flag == DATA || m.flag == END) && |m.payload| <= maxMessageBytes && |m.payload| < 0x1_0000_0000
  }

  /** All messages up to the first failure or the end of the stream, and how it stopped. */
  function ReadAll(bytes: Bytes, maxMessageBytes: int): (seq<Message>, Reading)
    decreases |bytes|
  {
    match Next(bytes, maxMessageBytes)
    case (Got(m), rest) =>
      var (ms, stopped) := ReadAll(rest, maxMessageBytes);
      ([m] + ms, stopped)
    case (stopped, _) => ([], stopped)
  }

  lemma NextReadsOne(m: Message, rest: Bytes, maxMessageBytes: int)
    requires 0 < maxMessageBytes && Sendable(m, maxMessageBytes)
    ensures Next(Encode(m) + rest, maxMessageBytes) == (Got(m), rest)
  {
    EnvelopeHeader(m.flag, m.payload, rest);
    var e := Encode(m) + rest;
    assert e[HEADER_BYTES..][..|m.payload|] == m.payload && e[HEADER_BYTES..][|m.payload|..] == rest;
  }

  lemma NothingLeft(maxMessageBytes: int)
    requires 0 < maxMessageBytes
    ensures Next([], maxMessageBytes) == (EndOfStream, [])
  {
  }

  /** Reading back inverts writing, message by message, to a clean end of the stream. */
  lemma {:induction false} ReadInvertsWrite(ms: seq<Message>, maxMessageBytes: int)
    requires 0 < maxMessageBytes && forall m :: m in ms ==> Sendable(m, maxMessageBytes)
    ensures ReadAll(EncodeAll(ms), maxMessageBytes) == (ms, EndOfStream)
  {
    hide Encode, Sendable, Next;
    if ms == [] {
      NothingLeft(maxMessageBytes);
    } else {
      NextReadsOne(ms[0], EncodeAll(ms[1..]), maxMessageBytes);
      ReadInvertsWrite(ms[1..], maxMessageBytes);
      assert ms == [ms[0]] + ms[1..];
    }
  }

  /** What is read as a message was its envelope. */
  lemma NextWasEnvelope(bytes: Bytes, maxMessageBytes: int)
    requires Next(bytes, maxMessageBytes).0.Got?
    ensures var (r, rest) := Next(bytes, maxMessageBytes);
            bytes == Encode(r.message) + rest && Sendable(r.message, maxMessageBytes)
  {
    hide FromBigEndian, Envelope;
    var (r, rest) := Next(bytes, maxMessageBytes);
    var n := HEADER_BYTES + |r.message.payload|;
    assert bytes[..n][1..HEADER_BYTES] == bytes[1..HEADER_BYTES];
    assert bytes[..n][HEADER_BYTES..] == r.message.payload && bytes[n..] == rest;
    EnvelopeParts(bytes[..n]);
    assert bytes == bytes[..n] + bytes[n..];
  }

  /** One message is read exactly if the bytes start with its envelope, and a clean end is one without any bytes. */
  lemma NextExactly(bytes: Bytes, maxMessageBytes: int, m: Message, rest: Bytes)
    ensures Next(bytes, maxMessageBytes) == (Got(m), rest) <==>
              0 < maxMessageBytes && Sendable(m, maxMessageBytes) && bytes == Encode(m) + rest
    ensures Next(bytes, maxMessageBytes).0.EndOfStream? <==> 0 < maxMessageBytes && bytes == []
  {
    hide Sendable, Encode, FromBigEndian;
    if Next(bytes, maxMessageBytes) == (Got(m), rest) {
      NextWasEnvelope(bytes, maxMessageBytes);
    }
    if 0 < maxMessageBytes && Sendable(m, maxMessageBytes) {
      NextReadsOne(m, rest, maxMessageBytes);
    }
  }

  /** And nothing else is read to a clean end: the bytes are the envelopes of what was read. */
  lemma {:induction false} WriteInvertsRead(bytes: Bytes, maxMessageBytes: int)
    requires ReadAll(bytes, maxMessageBytes).1.EndOfStream?
    ensures EncodeAll(ReadAll(bytes, maxMessageBytes).0) == bytes
    ensures forall m :: m in ReadAll(bytes, maxMessageBytes).0 ==> Sendable(m, maxMessageBytes)
    decreases |bytes|
  {
    hide Encode, Sendable;
    match Next(bytes, maxMessageBytes)
    case (Got(m), rest) =>
      NextWasEnvelope(bytes, maxMessageBytes);
      WriteInvertsRead(rest, maxMessageBytes);
      var ms := ReadAll(rest, maxMessageBytes).0;
      assert ([m] + ms)[1..] == ms;
    case _ =>
  }
}
