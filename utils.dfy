/** `parse_bytes`, which turns a line of numerals into raw bytes, and
    `wait_for_msg_on_buffer`, the blocking wait the console task uses. */
module Utils {
  import opened Text
  import opened AckWait

  /** The radix of raw-byte input when none is given on the command line. */
  const DefaultRadix: nat := 16

  /** `wait_for_msg_on_buffer` gives up once its counter passes this. */
  const MsgWaitBudget: nat := 1000

  /** `u8::from_str_radix(token, radix)`: an optional leading `+` (not on its
      own), then one or more digits below `radix`, with a value of at most 255.
      Rust reports overflow as soon as a prefix exceeds 255; prefix values
      never decrease, so that is the same as the whole value exceeding 255. */
  function ParseU8(token: string, radix: nat): Option<byte>
    requires 2 <= radix <= 36
  {
    var digits := if |token| > 1 && token[0] == '+' then token[1..] else token;
    match DigitsValue(digits, radix)
    case Some(v) => if v < 256 then Some(v as byte) else None
    case None => None
  }

  /** Token `i` is the first one that is not a valid `u8` numeral. */
  predicate FirstInvalid(tokens: seq<string>, radix: nat, i: int)
    requires 2 <= radix <= 36
  {
    0 <= i < |tokens| && ParseU8(tokens[i], radix).None?
    && forall j :: 0 <= j < i ==> ParseU8(tokens[j], radix).Some?
  }

  /** The error `parse_bytes` reports: the first token that is not a byte. */
  datatype ParseError = InvalidHex(token: string)

  /** The text of the error, as `format!` writes it. */
  function ErrorText(e: ParseError): string {
    "Invalid hex: " + e.token
  }

  /** Parses every token, collecting into a `Result` that stops at the first
      failure. */
  function ParseTokens(tokens: seq<string>, radix: nat): (r: Result<seq<byte>, ParseError>)
    requires 2 <= radix <= 36
    ensures r.Ok? <==> forall i :: 0 <= i < |tokens| ==> ParseU8(tokens[i], radix).Some?
    ensures r.Ok? ==> |r.value| == |tokens|
    ensures r.Ok? ==> forall i :: 0 <= i < |tokens| ==> ParseU8(tokens[i], radix) == Some(r.value[i])
    ensures r.Err? ==> exists i :: FirstInvalid(tokens, radix, i) && r.error == InvalidHex(tokens[i])
    decreases |tokens|
  {
    if tokens == [] then Ok([])
    else match ParseU8(tokens[0], radix)
      case None =>
        assert FirstInvalid(tokens, radix, 0);
        Err(InvalidHex(tokens[0]))
      case Some(b) =>
        match ParseTokens(tokens[1..], radix)
        case Ok(bs) => Ok([b] + bs)
        case Err(e) =>
          var i :| FirstInvalid(tokens[1..], radix, i) && e == InvalidHex(tokens[1..][i]);
          assert FirstInvalid(tokens, radix, i + 1);
          Err(e)
  }

  /** `parse_bytes(input, radix)`: the white-space-separated tokens of `input`
      as bytes. `u8::from_str_radix` panics on a radix outside 2..=36. */
  function ParseBytes(input: string, radix: nat): Result<seq<byte>, ParseError>
    requires 2 <= radix <= 36
  {
    ParseTokens(SplitWhitespace(input), radix)
  }

  /** Empty or blank input is an empty byte list, not an error. */
  lemma ParseBytesBlank(input: string, radix: nat)
    requires 2 <= radix <= 36
    requires forall i :: 0 <= i < |input| ==> IsWhitespace(input[i])
    ensures ParseBytes(input, radix) == Ok([])
  {
    SplitWhitespaceBlank(input);
  }

  /** The numerals of `bytes` in base `radix`. */
  function Numerals(bytes: seq<byte>, radix: nat): (r: seq<string>)
    requires 2 <= radix <= 36
  {
    seq(|bytes|, i requires 0 <= i < |bytes| => Digits(bytes[i] as nat, radix))
  }

  /** Bytes written as base-`radix` numerals separated by single spaces: the
      input format that `parse_bytes` reads. */
  function FormatBytes(bytes: seq<byte>, radix: nat): string
    requires 2 <= radix <= 36
  {
    Join(Numerals(bytes, radix), ' ')
  }

  /** A numeral written by `Digits` parses back to its byte. */
  lemma ParseU8Digits(b: byte, radix: nat)
    requires 2 <= radix <= 36
    ensures ParseU8(Digits(b as nat, radix), radix) == Some(b)
  {
    var s := Digits(b as nat, radix);
    DigitsShape(b as nat, radix);
    DigitsRoundTrip(b as nat, radix);
    assert DigitValue(s[0]).Some?;
  }

  /** Round trip: formatting bytes and parsing the text gives the bytes back. */
  lemma ParseBytesRoundTrip(bytes: seq<byte>, radix: nat)
    requires 2 <= radix <= 36
    ensures ParseBytes(FormatBytes(bytes, radix), radix) == Ok(bytes)
  {
    var tokens := Numerals(bytes, radix);
    forall k | 0 <= k < |tokens| ensures tokens[k] != [] && NoWhitespace(tokens[k]) {
      DigitsShape(bytes[k] as nat, radix);
    }
    SplitWhitespaceJoin(tokens);
    forall k | 0 <= k < |tokens| ensures ParseU8(tokens[k], radix) == Some(bytes[k]) {
      ParseU8Digits(bytes[k], radix);
    }
    var r := ParseTokens(tokens, radix);
    assert r.Ok?;
    assert r.value == bytes;
  }

  /** `100` in base 16 is 256, too large for a byte, so the line is rejected
      with that token named. */
  lemma ParseBytesRejectsOverflow()
    ensures ParseBytes("0F 100", 16) == Err(InvalidHex("100"))
  {
    OverflowTokens();
    OverflowValues();
    assert ["0F", "100"][1..] == ["100"];
  }

  lemma OverflowTokens()
    ensures SplitWhitespace("0F 100") == ["0F", "100"]
  {
    SplitWhitespaceJoin(["0F", "100"]);
    assert Join(["0F", "100"], ' ') == "0F 100";
  }

  lemma OverflowValues()
    ensures ParseU8("0F", 16) == Some(15)
    ensures ParseU8("100", 16) == None
  {
    assert DigitsValue("0F", 16) == Some(15);
    assert DigitsValue("10", 16) == Some(16);
    assert DigitsValue("100", 16) == Some(256);
  }

  /** Why `wait_for_msg_on_buffer` gave up. */
  datatype WaitError = TimedOut

  /** `wait_for_msg_on_buffer(msg, buffer)`: clears the buffer once, then polls
      it. Unlike the handlers' workers it looks at the buffer before testing
      the counter, so it polls at counters `0..1001`, `MsgWaitBudget + 2` polls
      in all, before it times out. */
  method WaitForMsgOnBuffer(msg: string, buffer: ReadBuffer, polls: seq<Poll>)
    returns (r: Result<(), WaitError>)
    modifies buffer
    ensures r.Ok? <==> FirstHit(polls, msg, MsgWaitBudget + 2).Some?
    ensures r.Err? ==> r.error == TimedOut
    ensures buffer.text == WaitText(polls, msg, MsgWaitBudget + 2)
  {
    var timeout: nat := 0;
    buffer.text := "";
    while true
      invariant timeout <= MsgWaitBudget + 1
      invariant forall j :: 0 <= j < timeout ==> !Hit(polls, msg, j)
      invariant timeout == 0 ==> buffer.text == ""
      invariant timeout > 0 ==> buffer.text == Seen(polls, timeout - 1)
      decreases MsgWaitBudget + 1 - timeout
    {
      var poll := PollAt(polls, timeout);
      buffer.text := buffer.text + poll.arrived;
      assert timeout == 0 ==> buffer.text == poll.arrived;
      assert buffer.text == Seen(polls, timeout);
      if poll.locked && Contains(buffer.text, msg) {
        assert Hit(polls, msg, timeout);
        MarkerSeenSucceeds(polls, msg, timeout, MsgWaitBudget + 2);
        return Ok(());
      }
      if timeout > MsgWaitBudget {
        return Err(TimedOut);
      }
      timeout := timeout + 1;
    }
  }
}
