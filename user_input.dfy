/** The console task: each line typed on standard input is trimmed and
    classified by a chain of tests, first match wins. A line ending in `~` is
    a list of byte numerals to send to the modem as they are; a keyword line
    sends an event to the event loop; any other line is sent to the modem as
    an AT command with `\r\n` appended.

    Standard input and the port are parameters: the task reads a finite
    sequence of lines, each paired with whether the port accepts its write. */
module UserInput {
  import opened Text
  import opened Wifi
  import opened Utils
  import opened Frames

  /** The modem replies the `full` macro waits for. */
  datatype Reply = ConnectReply | SendOkReply

  /** The text of a reply as it appears on the read buffer. */
  function ReplyText(r: Reply): string {
    match r
    case ConnectReply => "CONNECT"
    case SendOkReply => "SEND OK"
  }

  /** A reply the `full` macro waits for on the read buffer, and the event it
      is meant to send once the reply has arrived. */
  datatype Await = Await(reply: Reply, event: Event)

  /** What the classifier makes of one console line. */
  datatype Command =
    | ByteList(text: string)                       // a `~` line: numerals to parse and write
    | AtCommand(text: string)                      // any other line: written with CR LF
    | Send(event: Event)                           // a keyword: an event for the loop
    | Script(event: Event, awaits: seq<Await>)     // the `full` macro

  /** The classifier chain of `user_input_task`, on the line as read. */
  function Classify(line: string): Command {
    var t := Trim(line);
    if |t| > 0 && t[|t| - 1] == '~' then ByteList(t[..|t| - 1])
    else if t == "configure" then Send(Event(Configure, ""))
    else if StartsWith(t, "start") then Send(Event(PublishConnectRequest, Field(SplitOn(t, ':'), 1, "243")))
    else if t == "reset" then Send(Event(Reset, t))
    else if StartsWith(t, "con") then Send(Event(ConnAck, t))
    else if StartsWith(t, "msg") then Send(Event(Publish, t[3..]))
    else if t == "close" then Send(Event(Close, t))
    else if StartsWith(t, "full") then FullMacro(t)
    else AtCommand(t)
  }

  /** `full:<host>:<topic>:<message>`, each field defaulting when missing
      (host `243`, topic `/home`, message `heLLOAS`). */
  function FullMacro(t: string): Command {
    var args := SplitOn(t, ':');
    Script(Event(PublishConnectRequest, Field(args, 1, "243")),
           [Await(ConnectReply, Event(ConnAck, "")),
            Await(SendOkReply, Event(Publish, "msg:" + Field(args, 2, "/home") + ":" + Field(args, 3, "heLLOAS"))),
            Await(SendOkReply, Event(Close, ""))])
  }

  /** The bytes a line writes to the port: the parsed numerals of a `~` line,
      or the encoded text of an AT command followed by CR LF. */
  function Payload(c: Command, radix: nat): Result<seq<byte>, ParseError>
    requires 2 <= radix <= 36
    requires c.ByteList? || c.AtCommand?
  {
    if c.ByteList? then ParseBytes(c.text, radix) else Ok(Utf8(c.text) + [0x0D, 0x0A])
  }

  /** Only the trimmed line matters: white space around a line never changes
      what it does. */
  lemma ClassifyTrimmed(line: string)
    ensures Classify(Trim(line)) == Classify(line)
  {
    TrimIdempotent(line);
  }

  /** A `~` line takes precedence over every keyword: `reset~` is numerals,
      not a reset, and its letters are not numerals in base 16, so the task
      ends. */
  lemma TildeBeforeKeywords(line: string)
    ensures Trim(line) == "reset~" ==> Classify(line) == ByteList("reset")
    ensures Trim(line) == "reset~" ==> Payload(Classify(line), DefaultRadix).Err?
  {
    var t := Trim(line);
    if t == "reset~" {
      assert t == "reset" + "~";
      TildeWord(line, "reset");
      ResetIsNotNumerals();
    }
  }

  /** A line that trims to `w~` is the numerals `w`. */
  lemma TildeWord(line: string, w: string)
    requires Trim(line) == w + "~"
    ensures Classify(line) == ByteList(w)
  {
    var t := Trim(line);
    assert t[|t| - 1] == '~';
    assert t[..|t| - 1] == w;
    ClassifyTilde(line);
  }

  /** `r` is not a digit in the default base 16. */
  lemma ResetIsNotNumerals()
    ensures ParseBytes("reset", DefaultRadix).Err?
  {
    var s := "reset";
    assert s != [] && !IsWhitespace(s[0]);
    assert WordLen(s) == 5 by {
      assert forall i :: 0 <= i < 5 ==> !IsWhitespace(s[i]);
    }
    assert SplitWhitespace(s) == [s] by {
      SplitWhitespaceJoin([s]);
    }
    assert DigitValue(s[4]) == Some(29);
    assert DigitsValue(s, DefaultRadix) == None;
    assert ParseU8(s, DefaultRadix) == None;
  }

  /** Round trip: bytes written as numerals in the configured radix and
      followed by `~` are the bytes the task writes to the port. */
  lemma RawRoundTrip(bytes: seq<byte>, radix: nat)
    requires 2 <= radix <= 36
    ensures var c := Classify(FormatBytes(bytes, radix) + "~");
      c == ByteList(FormatBytes(bytes, radix)) && Payload(c, radix) == Ok(bytes)
  {
    FormatBytesEdges(bytes, radix);
    TildeLine(FormatBytes(bytes, radix));
    ParseBytesRoundTrip(bytes, radix);
  }

  /** Text with no white space at either end, followed by `~`, is a byte
      list of that text. */
  lemma TildeLine(s: string)
    requires s == [] || (!IsWhitespace(s[0]) && !IsWhitespace(s[|s| - 1]))
    ensures Classify(s + "~") == ByteList(s)
  {
    var line := s + "~";
    assert line[|line| - 1] == '~';
    TrimUnchanged(line);
    assert line[..|line| - 1] == s;
    ClassifyTilde(line);
  }

  /** A trimmed line ending in `~` is always numerals. */
  lemma ClassifyTilde(line: string)
    requires var t := Trim(line); |t| > 0 && t[|t| - 1] == '~'
    ensures Classify(line) == ByteList(Trim(line)[..|Trim(line)| - 1])
  {
  }

  /** Formatted bytes neither start nor end with white space. */
  lemma FormatBytesEdges(bytes: seq<byte>, radix: nat)
    requires 2 <= radix <= 36
    ensures var s := FormatBytes(bytes, radix);
      s == [] || (!IsWhitespace(s[0]) && !IsWhitespace(s[|s| - 1]))
  {
    var tokens := Numerals(bytes, radix);
    forall k | 0 <= k < |tokens| ensures tokens[k] != [] && NoWhitespace(tokens[k]) {
      DigitsShape(bytes[k] as nat, radix);
    }
    JoinEdges(tokens);
  }

  /** A space-separated join of non-empty, blank-free tokens begins with the
      first token's first character and ends with the last token's last. */
  lemma {:induction false} JoinEdges(tokens: seq<string>)
    requires forall k :: 0 <= k < |tokens| ==> tokens[k] != [] && NoWhitespace(tokens[k])
    ensures var s := Join(tokens, ' ');
      s == [] || (!IsWhitespace(s[0]) && !IsWhitespace(s[|s| - 1]))
    decreases |tokens|
  {
    if |tokens| >= 2 {
      var rest := Join(tokens[1..], ' ');
      JoinEdges(tokens[1..]);
      JoinNonEmpty(tokens[1..]);
      var s := tokens[0] + [' '] + rest;
      assert s[0] == tokens[0][0];
      assert s[|s| - 1] == rest[|rest| - 1];
    } else if |tokens| == 1 {
      assert Join(tokens, ' ') == tokens[0];
    }
  }

  /** A join of at least one non-empty token is not empty. */
  lemma JoinNonEmpty(tokens: seq<string>)
    requires |tokens| >= 1 && tokens[0] != []
    ensures Join(tokens, ' ') != []
  {
  }

  /** A line no test claims, the empty line included, is an AT command: the
      trimmed line. */
  lemma CommandLines(line: string)
    requires var t := Trim(line); t == [] || t[|t| - 1] != '~'
    requires var t := Trim(line); t != "configure" && t != "reset" && t != "close"
    requires var t := Trim(line); !StartsWith(t, "start") && !StartsWith(t, "con") && !StartsWith(t, "msg")
    requires !StartsWith(Trim(line), "full")
    ensures Classify(line) == AtCommand(Trim(line))
  {
  }

  /** An AT command goes to the modem as its encoded text followed by CR LF. */
  lemma CommandPayload(text: string, radix: nat)
    requires 2 <= radix <= 36
    ensures Payload(AtCommand(text), radix) == Ok(Utf8(text + "\r\n"))
  {
    Utf8Append(text, "\r\n");
    AsciiBytes("\r\n", [0x0D, 0x0A]);
  }

  /** `configure` is an exact keyword, tested before the `con` prefix would
      claim it; it configures the modem with no data. */
  lemma ConfigureKeyword(line: string)
    ensures Trim(line) == "configure" ==> Classify(line) == Send(Event(Configure, ""))
  {
    var t := Trim(line);
    if t == "configure" {
      assert t[|t| - 1] == 'e';
    }
  }

  /** `reset` is an exact keyword; the reset request carries the word. */
  lemma ResetKeyword(line: string)
    ensures Trim(line) == "reset" ==> Classify(line) == Send(Event(Reset, "reset"))
  {
    var t := Trim(line);
    if t == "reset" {
      assert t[|t| - 1] == 't' && t != "configure";
      assert !StartsWith(t, "start") by { assert t[0] == 'r'; }
    }
  }

  /** `close` is an exact keyword, sent as a close event that no handler
      takes. */
  lemma CloseKeyword(line: string)
    ensures Trim(line) == "close" ==> Classify(line) == Send(Event(Close, "close"))
  {
    var t := Trim(line);
    if t == "close" {
      assert t[|t| - 1] == 'e' && t != "configure" && t != "reset";
      assert !StartsWith(t, "start") && !StartsWith(t, "con") && !StartsWith(t, "msg") by {
        assert t[..3] == "clo";
      }
    }
  }

  /** The keyword tests are prefix tests and run in order: `configure now` is
      not the exact keyword, so the `con` prefix claims it as a connect
      acknowledgment with the whole line as data. */
  lemma ConPrefixClaimsLongerWord(line: string)
    ensures Trim(line) == "configure now" ==> Classify(line) == Send(Event(ConnAck, "configure now"))
  {
    var t := Trim(line);
    if t == "configure now" {
      assert t[|t| - 1] == 'w' && t != "configure";
      assert t[..3] == "con";
      ClassifyCon(line);
    }
  }

  /** The `con` branch: a trimmed line beginning with `con`, other than the
      exact keyword `configure` and not ending in `~`, is a connect
      acknowledgment carrying the whole trimmed line. */
  lemma ClassifyCon(line: string)
    requires var t := Trim(line); |t| >= 3 && t[|t| - 1] != '~' && t[..3] == "con" && t != "configure"
    ensures Classify(line) == Send(Event(ConnAck, Trim(line)))
  {
    var t := Trim(line);
    assert !StartsWith(t, "start") by { assert t[0] == 'c'; }
    assert t != "reset" by { assert t[0] == 'c'; }
    assert StartsWith(t, "con");
  }

  /** A line beginning with `start` that has no `:` (`starter`, or `start`
      itself) has no host field, so it asks to connect to the default host
      `243`. */
  lemma StartPrefixDefaultsHost(line: string)
    requires var t := Trim(line); |t| >= 5 && t[|t| - 1] != '~' && t[..5] == "start" && ':' !in t
    ensures Classify(line) == Send(Event(PublishConnectRequest, "243"))
  {
    ClassifyStart(line);
    SplitOnJoin([Trim(line)], ':');
  }

  /** A line reading `start:<host>` (around white space) asks to connect to
      `192.168.0.<host>`; the host field is the text after the colon. */
  lemma StartLine(line: string, host: string)
    requires ':' !in host && (host == [] || host[|host| - 1] != '~')
    requires Trim(line) == "start:" + host
    ensures Classify(line) == Send(Event(PublishConnectRequest, host))
  {
    StartShape(Trim(line), host);
    ClassifyStart(line);
  }

  lemma StartShape(t: string, host: string)
    requires ':' !in host && (host == [] || host[|host| - 1] != '~')
    requires t == "start:" + host
    ensures |t| >= 5 && t[|t| - 1] != '~' && t[..5] == "start"
    ensures SplitOn(t, ':') == ["start", host]
  {
    assert t[|t| - 1] == (if host == [] then ':' else host[|host| - 1]);
    assert t == Join(["start", host], ':');
    SplitOnJoin(["start", host], ':');
  }

  /** The `start` branch: a trimmed line beginning with `start` and not
      ending in `~` asks to connect to its second `:` field, `243` when
      there is none. */
  lemma ClassifyStart(line: string)
    requires var t := Trim(line); |t| >= 5 && t[|t| - 1] != '~' && t[..5] == "start"
    ensures Classify(line) == Send(Event(PublishConnectRequest, Field(SplitOn(Trim(line), ':'), 1, "243")))
  {
    var t := Trim(line);
    assert t != "configure" by { assert t[0] == 's'; }
    assert StartsWith(t, "start");
  }

  /** `msg:<topic>:<message>` sends a publish request whose payload is the
      encoded topic and message: the text after `msg` is exactly what the
      publish handler splits. */
  lemma MsgLine(line: string, topic: string, message: string)
    requires ':' !in topic && ':' !in message && (message == [] || message[|message| - 1] != '~')
    requires Trim(line) == "msg:" + topic + ":" + message
    ensures Classify(line) == Send(Event(Publish, ":" + topic + ":" + message))
    ensures PublishPayload(Classify(line).event.data) == (Utf8(topic), Utf8(message))
  {
    MsgShape(Trim(line), topic, message);
    ClassifyMsg(line);
    var data := ":" + topic + ":" + message;
    assert Classify(line).event.data == data;
    assert data == Join(["", topic, message], ':') by {
      PublishDataJoin("", topic, message);
      assert "" + ":" == ":";
    }
    PublishPayloadOfJoin("", topic, message);
  }

  lemma MsgShape(t: string, topic: string, message: string)
    requires message == [] || message[|message| - 1] != '~'
    requires t == "msg:" + topic + ":" + message
    ensures |t| >= 3 && t[|t| - 1] != '~' && t[..3] == "msg" && t[3..] == ":" + topic + ":" + message
  {
    assert t[|t| - 1] == (if message == [] then ':' else message[|message| - 1]);
  }

  /** The `msg` branch: the publish request carries the text after `msg`. */
  lemma ClassifyMsg(line: string)
    requires var t := Trim(line); |t| >= 3 && t[|t| - 1] != '~' && t[..3] == "msg"
    ensures Classify(line) == Send(Event(Publish, Trim(line)[3..]))
  {
    var t := Trim(line);
    assert t != "configure" && t != "reset" by { assert t[0] == 'm'; }
    assert !StartsWith(t, "start") && !StartsWith(t, "con") by { assert t[0] == 'm'; }
    assert StartsWith(t, "msg");
  }

  /** `<x>:<topic>:<message>` is the join of its three fields. */
  lemma PublishDataJoin(x: string, topic: string, message: string)
    ensures x + ":" + topic + ":" + message == Join([x, topic, message], ':')
  {
    assert [x, topic, message][1..] == [topic, message];
    assert [topic, message][1..] == [message];
    assert Join([message], ':') == message;
    assert Join([topic, message], ':') == topic + [':'] + message;
    assert ":" == [':'];
  }

  /** `full:<host>:<topic>:<message>` sends the connect request at once and
      sets up, in order, the connect acknowledgment on `CONNECT`, the publish
      of that topic and message on `SEND OK`, and the close on `SEND OK`. */
  lemma FullLine(line: string, host: string, topic: string, message: string)
    requires ':' !in host && ':' !in topic && ':' !in message
    requires message == [] || message[|message| - 1] != '~'
    requires Trim(line) == "full:" + host + ":" + topic + ":" + message
    ensures Classify(line) == Script(Event(PublishConnectRequest, host),
                                     [Await(ConnectReply, Event(ConnAck, "")),
                                      Await(SendOkReply, Event(Publish, "msg:" + topic + ":" + message)),
                                      Await(SendOkReply, Event(Close, ""))])
    ensures PublishPayload(Classify(line).awaits[1].event.data) == (Utf8(topic), Utf8(message))
  {
    var data := "msg:" + topic + ":" + message;
    assert Classify(line) == Script(Event(PublishConnectRequest, host),
                                    [Await(ConnectReply, Event(ConnAck, "")),
                                     Await(SendOkReply, Event(Publish, data)),
                                     Await(SendOkReply, Event(Close, ""))]) by {
      FullShape(Trim(line), host, topic, message);
      ClassifyFull(line);
      FullMacroFields(Trim(line), host, topic, message);
    }
    assert data == Join(["msg", topic, message], ':') by {
      PublishDataJoin("msg", topic, message);
      assert "msg" + ":" == "msg:";
    }
    PublishPayloadOfJoin("msg", topic, message);
  }

  lemma FullShape(t: string, host: string, topic: string, message: string)
    requires ':' !in host && ':' !in topic && ':' !in message
    requires message == [] || message[|message| - 1] != '~'
    requires t == "full:" + host + ":" + topic + ":" + message
    ensures |t| >= 4 && t[|t| - 1] != '~' && t[..4] == "full"
    ensures SplitOn(t, ':') == ["full", host, topic, message]
  {
    assert t[|t| - 1] == (if message == [] then ':' else message[|message| - 1]);
    FullSplit(t, host, topic, message);
  }

  lemma FullSplit(t: string, host: string, topic: string, message: string)
    requires ':' !in host && ':' !in topic && ':' !in message
    requires t == "full:" + host + ":" + topic + ":" + message
    ensures SplitOn(t, ':') == ["full", host, topic, message]
  {
    var parts := ["full", host, topic, message];
    assert t == Join(parts, ':') by {
      var rest := host + ":" + topic + ":" + message;
      assert parts[1..] == [host, topic, message];
      assert Join(parts, ':') == "full" + [':'] + Join([host, topic, message], ':');
      PublishDataJoin(host, topic, message);
      assert t == "full" + [':'] + rest;
    }
    assert forall k :: 0 <= k < |parts| ==> ':' !in parts[k];
    SplitOnJoin(parts, ':');
  }

  /** The macro takes the host, topic and message from the second, third and
      fourth `:` fields. */
  lemma FullMacroFields(t: string, host: string, topic: string, message: string)
    requires SplitOn(t, ':') == ["full", host, topic, message]
    ensures FullMacro(t) == Script(Event(PublishConnectRequest, host),
                                   [Await(ConnectReply, Event(ConnAck, "")),
                                    Await(SendOkReply, Event(Publish, "msg:" + topic + ":" + message)),
                                    Await(SendOkReply, Event(Close, ""))])
  {
  }

  /** The `full` branch: a trimmed line beginning with `full` that no earlier
      test claims runs the macro on its `:` fields. */
  lemma ClassifyFull(line: string)
    requires var t := Trim(line); |t| >= 4 && t[|t| - 1] != '~' && t[..4] == "full"
    ensures Classify(line) == FullMacro(Trim(line))
  {
    var t := Trim(line);
    assert t != "configure" && t != "reset" && t != "close" by { assert t[0] == 'f'; }
    assert !StartsWith(t, "start") && !StartsWith(t, "con") && !StartsWith(t, "msg") by {
      assert t[0] == 'f';
    }
    assert StartsWith(t, "full");
  }

  // ---------------------------------------------------------------------------
  // The task loop

  /** One line of standard input, and whether the port accepts the write it
      may cause. */
  datatype ConsoleLine = ConsoleLine(text: string, portAccepts: bool)

  /** Why the task stopped, if it did: a failed write breaks the loop, bytes
      that do not parse end the task with an error. */
  datatype Stop = Running | WriteFailed | ParseFailed

  /** What the task has done: events sent to the loop, replies the `full`
      macro waits for, write attempts on the port, and whether it stopped. */
  datatype Transcript = Transcript(sent: seq<Event>, armed: seq<Await>, written: seq<seq<byte>>, stop: Stop)

  /** A running task acting on one classified line; `accepted` is whether
      the port takes the write, when there is one. */
  function Feed(tr: Transcript, c: Command, accepted: bool, radix: nat): (r: Transcript)
    requires 2 <= radix <= 36
    requires tr.stop == Running
    ensures r.sent == tr.sent + (if c.Send? || c.Script? then [c.event] else [])
    ensures |tr.written| <= |r.written| <= |tr.written| + 1 && r.written[..|tr.written|] == tr.written
    ensures r.stop == ParseFailed <==> c.ByteList? && Payload(c, radix).Err?
    ensures c.Send? || c.Script? ==> r.written == tr.written && r.stop == Running
    ensures (c.ByteList? || c.AtCommand?) && Payload(c, radix).Ok? ==>
      r.written == tr.written + [Payload(c, radix).value] && (r.stop == WriteFailed <==> !accepted)
  {
    match c
    case Send(e) => tr.(sent := tr.sent + [e])
    case Script(e, awaits) => tr.(sent := tr.sent + [e], armed := tr.armed + awaits)
    case _ =>
      match Payload(c, radix)
      case Err(_) => tr.(stop := ParseFailed)
      case Ok(bytes) =>
        tr.(written := tr.written + [bytes], stop := if accepted then Running else WriteFailed)
  }

  /** The task over `lines`, in order, until they run out or it stops. */
  function Session(lines: seq<ConsoleLine>, radix: nat): Transcript
    requires 2 <= radix <= 36
    decreases |lines|
  {
    if lines == [] then Transcript([], [], [], Running)
    else
      var before := Session(lines[..|lines| - 1], radix);
      var last := lines[|lines| - 1];
      if before.stop != Running then before else Feed(before, Classify(last.text), last.portAccepts, radix)
  }

  /** Once the task has stopped, the lines after that are never read. */
  lemma {:induction false} StoppedStays(lines: seq<ConsoleLine>, i: nat, radix: nat)
    requires 2 <= radix <= 36
    requires i <= |lines|
    requires Session(lines[..i], radix).stop != Running
    ensures Session(lines, radix) == Session(lines[..i], radix)
    decreases |lines| - i
  {
    if i < |lines| {
      var next := lines[..i + 1];
      assert next[..i] == lines[..i];
      StoppedStays(lines, i + 1, radix);
    } else {
      assert lines[..i] == lines;
    }
  }

  /** A `~` line whose numerals do not parse ends the task, with every line
      before it handled and none after it. */
  lemma BadLineEndsTask(lines: seq<ConsoleLine>, k: nat, radix: nat)
    requires 2 <= radix <= 36
    requires k < |lines|
    requires Session(lines[..k], radix).stop == Running
    requires Classify(lines[k].text).ByteList? && Payload(Classify(lines[k].text), radix).Err?
    ensures Session(lines, radix).stop == ParseFailed
    ensures Session(lines, radix).written == Session(lines[..k], radix).written
    ensures Session(lines, radix).sent == Session(lines[..k], radix).sent
  {
    SessionStep(lines, k, radix);
    FeedParseFailed(Session(lines[..k], radix), Classify(lines[k].text), lines[k].portAccepts, radix);
    StoppedStays(lines, k + 1, radix);
  }

  /** Numerals that do not parse stop the task and change nothing else. */
  lemma FeedParseFailed(tr: Transcript, c: Command, accepted: bool, radix: nat)
    requires 2 <= radix <= 36
    requires tr.stop == Running
    requires c.ByteList? && Payload(c, radix).Err?
    ensures Feed(tr, c, accepted, radix) == tr.(stop := ParseFailed)
  {
  }

  /** A line reached while the task runs whose payload is built writes
      exactly that payload; the task stops with `WriteFailed` exactly when
      the port rejects it, and then no later line is read. */
  lemma PayloadLine(lines: seq<ConsoleLine>, k: nat, radix: nat)
    requires 2 <= radix <= 36
    requires k < |lines|
    requires Session(lines[..k], radix).stop == Running
    requires var c := Classify(lines[k].text); (c.ByteList? || c.AtCommand?) && Payload(c, radix).Ok?
    ensures Session(lines[..k + 1], radix).written
      == Session(lines[..k], radix).written + [Payload(Classify(lines[k].text), radix).value]
    ensures Session(lines[..k + 1], radix).stop == WriteFailed <==> !lines[k].portAccepts
    ensures !lines[k].portAccepts ==> Session(lines, radix) == Session(lines[..k + 1], radix)
  {
    SessionStep(lines, k, radix);
    if !lines[k].portAccepts {
      StoppedStays(lines, k + 1, radix);
    }
  }

  /** Each line causes at most one write, and the port log only grows: a
      session never writes more than it has lines. */
  lemma {:induction false} SessionGrows(lines: seq<ConsoleLine>, radix: nat)
    requires 2 <= radix <= 36
    ensures |Session(lines, radix).written| <= |lines|
    ensures |Session(lines, radix).sent| <= |lines|
    decreases |lines|
  {
    if lines != [] {
      SessionGrows(lines[..|lines| - 1], radix);
    }
  }

  /** One more line while running is one more `Feed`. */
  lemma SessionStep(lines: seq<ConsoleLine>, i: nat, radix: nat)
    requires 2 <= radix <= 36
    requires i < |lines|
    requires Session(lines[..i], radix).stop == Running
    ensures Session(lines[..i + 1], radix)
      == Feed(Session(lines[..i], radix), Classify(lines[i].text), lines[i].portAccepts, radix)
  {
    assert lines[..i + 1][..i] == lines[..i];
  }

  /** `user_input_task`'s loop: classifies each line and acts on it, until
      the lines run out, a write fails or numerals do not parse. An event
      goes to the loop and the next line is read; otherwise the payload is
      built, a `~` line whose numerals do not parse ends the task, and the
      payload is written, a failed write breaking the loop. */
  method InputTask(lines: seq<ConsoleLine>, radix: nat) returns (tr: Transcript)
    requires 2 <= radix <= 36
    ensures tr == Session(lines, radix)
  {
    tr := Transcript([], [], [], Running);
    assert lines[..0] == [];
    var i := 0;
    while i < |lines|
      invariant 0 <= i <= |lines|
      invariant tr == Session(lines[..i], radix) && tr.stop == Running
    {
      var line := lines[i];
      SessionStep(lines, i, radix);
      var command := Classify(line.text);
      ghost var next := Feed(tr, command, line.portAccepts, radix);
      if command.Send? {
        tr := tr.(sent := tr.sent + [command.event]);
        assert tr == next;
      } else if command.Script? {
        tr := tr.(sent := tr.sent + [command.event], armed := tr.armed + command.awaits);
        assert tr == next;
      } else {
        var payload := Payload(command, radix);
        if payload.Err? {
          tr := tr.(stop := ParseFailed);
          StoppedStays(lines, i + 1, radix);
          return;
        }
        tr := tr.(written := tr.written + [payload.value]);
        assert line.portAccepts ==> tr == next;
        if !line.portAccepts {
          tr := tr.(stop := WriteFailed);
          StoppedStays(lines, i + 1, radix);
          return;
        }
      }
      assert tr == Session(lines[..i + 1], radix);
      i := i + 1;
    }
    assert lines[..i] == lines;
  }
}
