/** The bytes the handlers put on the serial link: the AT commands and the
    three hand-built MQTT-like frames (CONNECT, PUBLISH, DISCONNECT). */
module Frames {
  import opened Text

  // ---------------------------------------------------------------------------
  // AT commands
  //
  // The fixed commands are spelled as the bytes of their ASCII text; the
  // lemmas below show that each is the UTF-8 encoding of that text.

  /** `"ATE0\r\n"`: turn the modem's echo off. */
  function Ate0(): seq<byte> {
    [0x41, 0x54, 0x45, 0x30, 0x0D, 0x0A]
  }

  /** `"AT+CIPCLOSE\r\n"`: close the modem's TCP socket. */
  function CipClose(): seq<byte> {
    [0x41, 0x54, 0x2B, 0x43, 0x49, 0x50, 0x43, 0x4C, 0x4F, 0x53, 0x45, 0x0D, 0x0A]
  }

  /** `"\r\n"`, which ends every command. */
  function Crlf(): seq<byte> {
    [0x0D, 0x0A]
  }

  /** `"AT+CIPSTART=\"TCP\",\"192.168.0."` */
  function CipStartHead(): seq<byte> {
    [0x41, 0x54, 0x2B, 0x43, 0x49, 0x50, 0x53, 0x54, 0x41, 0x52, 0x54, 0x3D, 0x22, 0x54, 0x43,
     0x50, 0x22, 0x2C, 0x22, 0x31, 0x39, 0x32, 0x2E, 0x31, 0x36, 0x38, 0x2E, 0x30, 0x2E]
  }

  /** `"\",1883"` */
  function CipStartTail(): seq<byte> {
    [0x22, 0x2C, 0x31, 0x38, 0x38, 0x33]
  }

  /** Open a TCP socket to `192.168.0.<host>`, port 1883; `host` is inserted
      as given. */
  function CipStart(host: string): seq<byte> {
    CipStartHead() + Utf8(host) + CipStartTail() + Crlf()
  }

  /** `"AT+CIPSEND="` */
  function CipSendHead(): seq<byte> {
    [0x41, 0x54, 0x2B, 0x43, 0x49, 0x50, 0x53, 0x45, 0x4E, 0x44, 0x3D]
  }

  /** Tell the modem that exactly `n` raw bytes follow (`format!("{}", n)`). */
  function CipSend(n: nat): seq<byte> {
    CipSendHead() + Utf8(Digits(n, 10)) + Crlf()
  }

  /** `"AT+CIPSEND=2\r\n"`: the prime the acknowledgment handler writes,
      spelled out as a literal. */
  function CipSendTwo(): seq<byte> {
    [0x41, 0x54, 0x2B, 0x43, 0x49, 0x50, 0x53, 0x45, 0x4E, 0x44, 0x3D, 0x32, 0x0D, 0x0A]
  }

  lemma Ate0Text()
    ensures Ate0() == Utf8("ATE0\r\n")
  {
    AsciiBytes("ATE0\r\n", Ate0());
  }

  lemma CipCloseText()
    ensures CipClose() == Utf8("AT+CIPCLOSE\r\n")
  {
    AsciiBytes("AT+CIPCLOSE\r\n", CipClose());
  }

  lemma CipSendTwoText()
    ensures CipSendTwo() == Utf8("AT+CIPSEND=2\r\n")
  {
    AsciiBytes("AT+CIPSEND=2\r\n", CipSendTwo());
  }

  /** The socket command is the UTF-8 text of its `format!`. */
  lemma CipStartText(host: string)
    ensures CipStart(host) == Utf8("AT+CIPSTART=\"TCP\",\"192.168.0." + host + "\",1883\r\n")
  {
    CipStartHeadText();
    CipStartTailText();
    HeadAndTail(CipStartHead(), "AT+CIPSTART=\"TCP\",\"192.168.0.", host,
      CipStartTail() + Crlf(), "\",1883\r\n");
  }

  lemma CipStartTailText()
    ensures CipStartTail() + Crlf() == Utf8("\",1883\r\n")
  {
    AsciiBytes("\",1883\r\n", CipStartTail() + Crlf());
  }

  lemma CipStartHeadText()
    ensures CipStartHead() == Utf8("AT+CIPSTART=\"TCP\",\"192.168.0.")
  {
    AsciiBytes("AT+CIPSTART=\"TCP\",\"192.168.0.", CipStartHead());
  }

  /** Encoding `head + middle + tail` when the ends are already encoded. */
  lemma HeadAndTail(h: seq<byte>, head: string, middle: string, t: seq<byte>, tail: string)
    requires Utf8(head) == h && Utf8(tail) == t
    ensures h + Utf8(middle) + t == Utf8(head + middle + tail)
  {
    Utf8Append(head, middle);
    Utf8Append(head + middle, tail);
  }

  /** The send prime is the UTF-8 text of its `format!`. */
  lemma CipSendText(n: nat)
    ensures CipSend(n) == Utf8("AT+CIPSEND=" + Digits(n, 10) + "\r\n")
  {
    CipSendHeadText();
    CrlfText();
    HeadAndTail(CipSendHead(), "AT+CIPSEND=", Digits(n, 10), Crlf(), "\r\n");
  }

  lemma CipSendHeadText()
    ensures CipSendHead() == Utf8("AT+CIPSEND=")
  {
    AsciiBytes("AT+CIPSEND=", CipSendHead());
  }

  lemma CrlfText()
    ensures Crlf() == Utf8("\r\n")
  {
    AsciiBytes("\r\n", Crlf());
  }

  // ---------------------------------------------------------------------------
  // CONNECT (section 3.1 of MQTT 3.1.1)

  /** The fixed CONNECT frame: packet type 1, remaining length 19, protocol
      name "MQTT", level 4, flags 0x02 (clean session), keep-alive 60 s,
      client id "client1". */
  function ConnectFrame(): seq<byte> {
    [0x10, 0x13, 0x00, 0x04, 0x4D, 0x51, 0x54, 0x54, 0x04, 0x02, 0x00, 0x3C,
     0x00, 0x07, 0x63, 0x6C, 0x69, 0x65, 0x6E, 0x74, 0x31]
  }

  /** The fields of a CONNECT packet with a single-byte remaining length. */
  datatype ConnectPacket = ConnectPacket(
    protocolName: seq<byte>, level: byte, flags: byte, keepAlive: nat, clientId: seq<byte>)

  /** Reads a CONNECT frame the way a broker does: fixed header, then each
      2-byte big-endian length followed by that many bytes; the lengths must
      account for the frame exactly. */
  function DecodeConnect(f: seq<byte>): Option<ConnectPacket> {
    if |f| < 4 || f[0] != 0x10 || f[1] as int != |f| - 2 || f[1] >= 0x80 then None
    else
      var p := 4 + (f[2] as int * 256 + f[3] as int);
      if p + 6 > |f| then None
      else
        var idLen := f[p + 4] as int * 256 + f[p + 5] as int;
        if p + 6 + idLen != |f| then None
        else Some(ConnectPacket(f[4..p], f[p], f[p + 1], f[p + 2] as int * 256 + f[p + 3] as int, f[p + 6..]))
  }

  /** The fixed frame is a well-formed CONNECT with the intended fields, its
      remaining-length byte (19) is the frame length less the 2-byte fixed
      header. */
  lemma ConnectFrameLayout()
    ensures |ConnectFrame()| == 21
    ensures ConnectFrame()[1] as int == |ConnectFrame()| - 2
    ensures DecodeConnect(ConnectFrame())
      == Some(ConnectPacket(Utf8("MQTT"), 4, 0x02, 60, Utf8("client1")))
  {
    var name := [0x4D, 0x51, 0x54, 0x54];
    var id := [0x63, 0x6C, 0x69, 0x65, 0x6E, 0x74, 0x31];
    assert ConnectFrame() == [0x10, 0x13, 0x00, 0x04] + name + [0x04, 0x02, 0x00, 0x3C, 0x00, 0x07] + id;
    ConnectFrameFields(name, id);
    ProtocolNameBytes();
    ClientIdBytes();
  }

  /** The encoding of the protocol name `MQTT`. */
  lemma ProtocolNameBytes()
    ensures Utf8("MQTT") == [0x4D, 0x51, 0x54, 0x54]
  {
    AsciiBytes("MQTT", [0x4D, 0x51, 0x54, 0x54]);
  }

  /** The encoding of the client identifier `client1`. */
  lemma ClientIdBytes()
    ensures Utf8("client1") == [0x63, 0x6C, 0x69, 0x65, 0x6E, 0x74, 0x31]
  {
    AsciiBytes("client1", [0x63, 0x6C, 0x69, 0x65, 0x6E, 0x74, 0x31]);
  }

  /** How the decoder walks a frame with the layout of the fixed CONNECT:
      a 4-byte protocol name, level 4, flags 0x02, keep-alive 60 and a
      7-byte client identifier. */
  lemma ConnectFrameFields(name: seq<byte>, id: seq<byte>)
    requires |name| == 4 && |id| == 7
    ensures var f := [0x10, 0x13, 0x00, 0x04] + name + [0x04, 0x02, 0x00, 0x3C, 0x00, 0x07] + id;
      DecodeConnect(f) == Some(ConnectPacket(name, 4, 0x02, 60, id))
  {
    var f := [0x10, 0x13, 0x00, 0x04] + name + [0x04, 0x02, 0x00, 0x3C, 0x00, 0x07] + id;
    assert f[4..8] == name;
    assert f[14..] == id;
  }

  /** The prime written before the CONNECT frame announces its 21 bytes. */
  lemma ConnectPrimeText()
    ensures CipSend(|ConnectFrame()|) == Utf8("AT+CIPSEND=" + "21" + "\r\n")
  {
    assert |ConnectFrame()| == 21;
    TwentyOneDigits();
    CipSendText(21);
  }

  /** 21 in decimal. */
  lemma TwentyOneDigits()
    ensures Digits(21, 10) == "21"
  {
    assert Digits(2, 10) == [DigitChar(2)];
    assert Digits(21, 10) == Digits(2, 10) + [DigitChar(1)];
  }

  // ---------------------------------------------------------------------------
  // PUBLISH (section 3.3 of MQTT 3.1.1)

  const DefaultTopic: string := "/test/topic"
  const DefaultMessage: string := "hello"

  /** The topic and message of a publish request `<ignored>:<topic>:<message>`:
      fields 1 and 2 of the split on `':'`, with defaults when missing; any
      further fields are dropped. */
  function PublishFields(data: string): (string, string) {
    var args := SplitOn(data, ':');
    (Field(args, 1, DefaultTopic), Field(args, 2, DefaultMessage))
  }

  /** The bytes of `"/test/topic"`. */
  function DefaultTopicBytes(): seq<byte> {
    [0x2F, 0x74, 0x65, 0x73, 0x74, 0x2F, 0x74, 0x6F, 0x70, 0x69, 0x63]
  }

  /** The bytes of `"hello"`. */
  function DefaultMessageBytes(): seq<byte> {
    [0x68, 0x65, 0x6C, 0x6C, 0x6F]
  }

  /** The bytes the handler sends for a publish request (`into_bytes` of
      topic and message). `PublishFields` is the text the handler selects;
      this is its encoding, with the defaults spelled as their bytes so that
      the frame lemmas never unfold the encoding of a literal.
      `PublishPayloadEncodes` proves the two agree on every request. */
  function PublishPayload(data: string): (seq<byte>, seq<byte>) {
    var args := SplitOn(data, ':');
    (if 1 < |args| then Utf8(args[1]) else DefaultTopicBytes(),
     if 2 < |args| then Utf8(args[2]) else DefaultMessageBytes())
  }

  lemma DefaultTopicText()
    ensures DefaultTopicBytes() == Utf8(DefaultTopic)
  {
    AsciiBytes(DefaultTopic, DefaultTopicBytes());
  }

  lemma DefaultMessageText()
    ensures DefaultMessageBytes() == Utf8(DefaultMessage)
  {
    AsciiBytes(DefaultMessage, DefaultMessageBytes());
  }

  /** The payload is the UTF-8 encoding of the request's topic and message. */
  lemma PublishPayloadEncodes(data: string)
    ensures PublishPayload(data) == (Utf8(PublishFields(data).0), Utf8(PublishFields(data).1))
  {
    DefaultTopicText();
    DefaultMessageText();
  }

  /** The remaining-length byte as the handler computes it on `u8`s: the sum
      is clamped to 0xFF by `try_into().unwrap_or(0xFF)` and then 2 is added.
      The addition overflows for any sum above 253, which panics (None). */
  function RemainingLength(n: nat): Option<byte> {
    var clamped := if n <= 255 then n else 0xFF;
    if clamped + 2 <= 255 then Some((clamped + 2) as byte) else None
  }

  /** The clamp never takes effect: the byte exists exactly when the sum is at
      most 253, and then it is the sum plus 2. */
  lemma RemainingLengthRange(n: nat)
    ensures RemainingLength(n).Some? <==> n <= 253
    ensures RemainingLength(n).Some? ==> RemainingLength(n).value as int == n + 2
  {
  }

  /** Topic and message are short enough for the handler not to panic. */
  predicate PublishFits(topic: seq<byte>, message: seq<byte>) {
    RemainingLength(|topic| + |message|).Some?
  }

  /** `[0x30, len + 2, 0x00, topic_len as u8]`: packet type 3 with QoS 0,
      the remaining length, and a topic length whose high byte is always 0. */
  function PublishHeader(topicLen: nat, messageLen: nat): seq<byte>
    requires RemainingLength(topicLen + messageLen).Some?
  {
    [0x30, RemainingLength(topicLen + messageLen).value, 0x00, (topicLen % 256) as byte]
  }

  /** The header followed by topic and message; the message runs to the end
      of the frame. */
  function PublishFrame(topic: seq<byte>, message: seq<byte>): seq<byte>
    requires PublishFits(topic, message)
  {
    PublishHeader(|topic|, |message|) + (topic + message)
  }

  /** Reads a PUBLISH frame as its receiver must: the remaining length covers
      the rest of the frame, the topic has the 2-byte length in front of it,
      and the message is whatever follows the topic. */
  function DecodePublish(f: seq<byte>): Option<(seq<byte>, seq<byte>)> {
    if |f| < 4 || f[0] != 0x30 || f[1] as int != |f| - 2 then None
    else
      var topicLen := f[2] as int * 256 + f[3] as int;
      if 4 + topicLen > |f| then None
      else Some((f[4..4 + topicLen], f[4 + topicLen..]))
  }

  /** The clamp and the truncating cast never take effect in the header: its
      length byte is the remaining length and its last byte the topic length. */
  lemma PublishHeaderBytes(topicLen: nat, messageLen: nat)
    requires RemainingLength(topicLen + messageLen).Some?
    ensures topicLen + messageLen <= 253
    ensures PublishHeader(topicLen, messageLen)
      == [0x30, (topicLen + messageLen + 2) as byte, 0x00, topicLen as byte]
  {
    RemainingLengthRange(topicLen + messageLen);
  }

  /** The frame is `4 + topic + message` bytes long and decodes back to the
      topic and message. */
  lemma PublishRoundTrip(topic: seq<byte>, message: seq<byte>)
    requires PublishFits(topic, message)
    ensures |PublishFrame(topic, message)| == 4 + |topic| + |message|
    ensures DecodePublish(PublishFrame(topic, message)) == Some((topic, message))
  {
    PublishHeaderBytes(|topic|, |message|);
    var f := PublishFrame(topic, message);
    assert f[2] as int * 256 + f[3] as int == |topic|;
    assert f[4..4 + |topic|] == topic;
    assert f[4 + |topic|..] == message;
  }

  /** The length byte is a conformant single-byte remaining length (below 128)
      exactly when topic and message together take at most 125 bytes. */
  lemma PublishRemainingLengthConformant(topic: seq<byte>, message: seq<byte>)
    requires PublishFits(topic, message)
    ensures PublishFrame(topic, message)[1] < 0x80 <==> |topic| + |message| <= 125
  {
    RemainingLengthRange(|topic| + |message|);
  }

  /** With the default topic and message the frame begins `30 12 00 0B` and
      is 20 bytes long. */
  lemma DefaultPublishFrame()
    ensures PublishFits(DefaultTopicBytes(), DefaultMessageBytes())
    ensures PublishFrame(DefaultTopicBytes(), DefaultMessageBytes())[..4] == [0x30, 0x12, 0x00, 0x0B]
    ensures |PublishFrame(DefaultTopicBytes(), DefaultMessageBytes())| == 20
  {
    PublishHeaderBytes(11, 5);
    var f := PublishFrame(DefaultTopicBytes(), DefaultMessageBytes());
    assert f[..4] == PublishHeader(11, 5);
  }

  /** `<x>:<topic>:<message>` with colon-free fields publishes that topic and
      message; fields after the third are ignored. */
  lemma PublishFieldsOfJoin(x: string, topic: string, message: string, rest: seq<string>)
    requires ':' !in x && ':' !in topic && ':' !in message
    requires forall k :: 0 <= k < |rest| ==> ':' !in rest[k]
    ensures PublishFields(Join([x, topic, message] + rest, ':')) == (topic, message)
  {
    var parts := [x, topic, message] + rest;
    ColonFreeParts(x, topic, message, rest);
    SplitOnJoin(parts, ':');
    assert parts[1] == topic && parts[2] == message;
  }

  lemma ColonFreeParts(x: string, topic: string, message: string, rest: seq<string>)
    requires ':' !in x && ':' !in topic && ':' !in message
    requires forall k :: 0 <= k < |rest| ==> ':' !in rest[k]
    ensures forall k :: 0 <= k < |[x, topic, message] + rest| ==> ':' !in ([x, topic, message] + rest)[k]
  {
    var parts := [x, topic, message] + rest;
    forall k | 0 <= k < |parts| ensures ':' !in parts[k] {
      if k >= 3 {
        assert parts[k] == rest[k - 3];
      }
    }
  }

  /** The bytes published for `<x>:<topic>:<message>` with colon-free fields
      are the encoded topic and message. */
  lemma PublishPayloadOfJoin(x: string, topic: string, message: string)
    requires ':' !in x && ':' !in topic && ':' !in message
    ensures PublishPayload(Join([x, topic, message], ':')) == (Utf8(topic), Utf8(message))
  {
    var parts := [x, topic, message];
    assert forall k :: 0 <= k < |parts| ==> ':' !in parts[k];
    SplitOnJoin(parts, ':');
  }

  /** Without a colon both defaults apply; with one colon only the message
      defaults. */
  lemma PublishFieldsDefaults(x: string, topic: string)
    requires ':' !in x && ':' !in topic
    ensures PublishFields(x) == (DefaultTopic, DefaultMessage)
    ensures PublishFields(x + ":" + topic) == (topic, DefaultMessage)
  {
    SplitOnJoin([x], ':');
    SplitOnJoin([x, topic], ':');
    assert Join([x, topic], ':') == x + ":" + topic;
  }

  // ---------------------------------------------------------------------------
  // DISCONNECT (section 3.14 of MQTT 3.1.1)

  /** Packet type 14 with a zero remaining length. */
  function DisconnectFrame(): seq<byte> {
    [0xE0, 0x00]
  }

  /** The literal prime the acknowledgment handler writes announces exactly
      the DISCONNECT frame's length. */
  lemma DisconnectPrime()
    ensures CipSendTwo() == CipSend(|DisconnectFrame()|)
    ensures DisconnectFrame()[1] as int == |DisconnectFrame()| - 2
  {
    assert Digits(2, 10) == "2";
    assert Utf8("2") == [0x32];
  }
}
