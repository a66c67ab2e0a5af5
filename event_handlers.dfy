/** The six handlers `register_event_handlers` installs: each reads the shared
    state, writes AT commands and frames to the modem, and moves the state
    between `Ready`, `WaitingConnectAck`, `Connected` and `WaitingPublishAck`.

    The serial port is a log of attempted writes; whether each write succeeds
    is an oracle (`Env`). The worker a handler spawns to wait for the modem's
    `OK` runs to completion right after the handler, so a handler and its
    worker form one step. */
module EventHandlers {
  import opened Text
  import opened Wifi
  import opened AckWait
  import opened Frames

  /** The connect worker gives up once its counter passes 1000. */
  const ConnectAckBudget: nat := 1000
  /** The publish and acknowledgment workers give up past 10000. */
  const PublishAckBudget: nat := 10000

  /** The closures, one per registered kind. */
  datatype Handler = OnConfigure | OnReset | OnPublishConnectRequest | OnConnAck | OnPublish | OnAckReceived

  /** What the outside world decides during one handler step: whether the
      step's first and second port writes succeed, and what the modem sends
      during the worker's polls. */
  datatype Env = Env(firstWriteOk: bool, secondWriteOk: bool, polls: seq<Poll>)

  /** Everything a handler can change: the protocol state, the read buffer and
      the bytes written to the port so far, one entry per `write` call. */
  datatype Config = Config(state: WifiState, buffer: string, written: seq<seq<byte>>)

  /** A step's new configuration, and whether it panicked (the `u8` overflow
      of the publish handler, which ends the dispatch loop). */
  datatype Outcome = Outcome(config: Config, panicked: bool)

  /** The state a handler acts in; in any other state it only logs. `Reset`
      acts in every state. */
  function RequiredState(h: Handler): Option<WifiState> {
    match h
    case OnConfigure => Some(Ready)
    case OnReset => None
    case OnPublishConnectRequest => Some(Ready)
    case OnConnAck => Some(WaitingConnectAck)
    case OnPublish => Some(Connected)
    case OnAckReceived => Some(WaitingPublishAck)
  }

  /** The four states the handlers ever set. */
  predicate Core(s: WifiState) {
    s == Ready || s == WaitingConnectAck || s == Connected || s == WaitingPublishAck
  }

  // ---------------------------------------------------------------------------
  // The handlers as functions of the configuration

  function ConfigureStep(c: Config): Config {
    if c.state == Ready then c.(written := c.written + [Ate0()]) else c
  }

  function ResetStep(c: Config): Config {
    Config(Ready, "", c.written + [DisconnectFrame(), CipClose()])
  }

  function ConnectRequestStep(c: Config, e: Event, env: Env): Config {
    if c.state != Ready then c
    else Config(if env.firstWriteOk then WaitingConnectAck else Ready, "", c.written + [CipStart(e.data)])
  }

  function ConnAckStep(c: Config, env: Env): Config {
    if c.state != WaitingConnectAck then c
    else
      var primed := c.written + [CipSend(|ConnectFrame()|)];
      if !env.firstWriteOk then Config(Ready, "", primed)
      else
        var text := WaitText(env.polls, OkMarker, ConnectAckBudget + 1);
        if FirstHit(env.polls, OkMarker, ConnectAckBudget + 1).None? then Config(Ready, text, primed)
        else Config(Connected, text, primed + [ConnectFrame()])
  }

  function PublishStep(c: Config, e: Event, env: Env): Outcome {
    if c.state != Connected then Outcome(c, false)
    else
      var (topic, message) := PublishPayload(e.data);
      if !PublishFits(topic, message) then Outcome(c.(buffer := ""), true)
      else
        var frame := PublishFrame(topic, message);
        var primed := c.written + [CipSend(|frame|)];
        var text := WaitText(env.polls, OkMarker, PublishAckBudget + 1);
        if FirstHit(env.polls, OkMarker, PublishAckBudget + 1).None? then Outcome(Config(Ready, text, primed), false)
        else Outcome(Config(WaitingPublishAck, text, primed + [frame]), false)
  }

  function AckReceivedStep(c: Config, env: Env): Config {
    if c.state != WaitingPublishAck then c
    else
      var primed := c.written + [CipSendTwo()];
      if !env.firstWriteOk then Config(WaitingPublishAck, "", primed)
      else
        var text := WaitText(env.polls, OkMarker, PublishAckBudget + 1);
        if FirstHit(env.polls, OkMarker, PublishAckBudget + 1).None? then Config(Ready, text, primed)
        else Config(Ready, text, primed + [DisconnectFrame()])
  }

  /** One handler step on the event it was given. */
  function Step(h: Handler, c: Config, e: Event, env: Env): Outcome {
    match h
    case OnConfigure => Outcome(ConfigureStep(c), false)
    case OnReset => Outcome(ResetStep(c), false)
    case OnPublishConnectRequest => Outcome(ConnectRequestStep(c, e, env), false)
    case OnConnAck => Outcome(ConnAckStep(c, env), false)
    case OnPublish => PublishStep(c, e, env)
    case OnAckReceived => Outcome(AckReceivedStep(c, env), false)
  }

  // ---------------------------------------------------------------------------
  // What the handlers promise

  /** Gating: a handler with a required state leaves everything untouched
      exactly when it is called in another state. */
  lemma Gating(h: Handler, c: Config, e: Event, env: Env)
    requires RequiredState(h).Some?
    ensures Step(h, c, e, env) == Outcome(c, false) <==> c.state != RequiredState(h).value
  {
    if c.state == RequiredState(h).value {
      var o := Step(h, c, e, env);
      assert o.panicked || |o.config.written| > |c.written|;
    }
  }

  /** Every step keeps what was written and appends at most two writes. */
  lemma WritesAppend(h: Handler, c: Config, e: Event, env: Env)
    ensures var w := Step(h, c, e, env).config.written;
      |c.written| <= |w| <= |c.written| + 2 && w[..|c.written|] == c.written
  {
    match h
    case OnConfigure =>
    case OnReset =>
    case OnPublishConnectRequest =>
    case OnConnAck => ConnAckAppends(c, env);
    case OnPublish => PublishAppends(c, e, env);
    case OnAckReceived => AckReceivedAppends(c, env);
  }

  /** `after` is `before` followed by at most two more writes. */
  predicate AppendsAtMostTwo(before: seq<seq<byte>>, after: seq<seq<byte>>) {
    |before| <= |after| <= |before| + 2 && after[..|before|] == before
  }

  lemma ConnAckAppends(c: Config, env: Env)
    ensures AppendsAtMostTwo(c.written, ConnAckStep(c, env).written)
  {
  }

  lemma PublishAppends(c: Config, e: Event, env: Env)
    ensures AppendsAtMostTwo(c.written, PublishStep(c, e, env).config.written)
  {
  }

  lemma AckReceivedAppends(c: Config, env: Env)
    ensures AppendsAtMostTwo(c.written, AckReceivedStep(c, env).written)
  {
  }

  /** Reset acts in every state: it clears the buffer, writes DISCONNECT and
      then `AT+CIPCLOSE`, and ends `Ready`. */
  lemma ResetFromAnyState(c: Config, e: Event, env: Env)
    ensures Step(OnReset, c, e, env)
      == Outcome(Config(Ready, "", c.written + [DisconnectFrame(), CipClose()]), false)
  {
  }

  /** Configuring never changes the state or the buffer; in `Ready` it turns
      the modem's echo off. */
  lemma ConfigureKeepsState(c: Config, e: Event, env: Env)
    ensures var o := Step(OnConfigure, c, e, env);
      o.config.state == c.state && o.config.buffer == c.buffer && !o.panicked
      && (c.state == Ready ==> o.config.written == c.written + [Ate0()])
  {
  }

  /** From `Ready` the connect request opens a socket to the given host; it
      waits for the connect acknowledgment exactly when that write succeeded,
      and clears the buffer after the write either way. */
  lemma ConnectRequestOutcome(c: Config, e: Event, env: Env)
    requires c.state == Ready
    ensures var o := Step(OnPublishConnectRequest, c, e, env).config;
      (o.state == WaitingConnectAck <==> env.firstWriteOk)
      && (o.state != WaitingConnectAck ==> o.state == Ready)
      && o.buffer == ""
      && o.written == c.written + [CipStart(e.data)]
  {
  }

  /** The connect acknowledgment ends `Connected` exactly when the prime was
      written and a worker poll saw `OK`, and in `Ready` otherwise; the frame
      is written exactly when the worker saw `OK`, whether or not that write
      succeeds (the `Ready` set on a failed frame write is overwritten). */
  lemma ConnAckOutcome(c: Config, e: Event, env: Env)
    requires c.state == WaitingConnectAck
    ensures var o := Step(OnConnAck, c, e, env).config;
      var hit := FirstHit(env.polls, OkMarker, ConnectAckBudget + 1).Some?;
      (o.state == Connected <==> env.firstWriteOk && hit)
      && (o.state != Connected ==> o.state == Ready)
      && (o.written == c.written + [CipSend(|ConnectFrame()|), ConnectFrame()] <==> env.firstWriteOk && hit)
      && (!(env.firstWriteOk && hit) ==> o.written == c.written + [CipSend(|ConnectFrame()|)])
  {
  }

  /** The publish handler panics exactly when topic and message exceed 253
      bytes together; otherwise it ends `WaitingPublishAck` exactly when a
      worker poll saw `OK`, even when the prime or the frame write failed, and
      `Ready` when the worker timed out. */
  lemma PublishOutcome(c: Config, e: Event, env: Env)
    requires c.state == Connected
    ensures var o := Step(OnPublish, c, e, env);
      var (topic, message) := PublishPayload(e.data);
      (o.panicked <==> |topic| + |message| > 253)
      && (o.panicked ==> o.config == c.(buffer := ""))
      && (!o.panicked ==>
            (o.config.state == WaitingPublishAck <==> FirstHit(env.polls, OkMarker, PublishAckBudget + 1).Some?)
            && (o.config.state != WaitingPublishAck ==> o.config.state == Ready))
  {
    var (topic, message) := PublishPayload(e.data);
    RemainingLengthRange(|topic| + |message|);
  }

  /** The frame a publish step writes is announced by the prime before it and
      decodes to the topic and message of the request. */
  lemma PublishWritesRequest(c: Config, e: Event, env: Env)
    requires c.state == Connected
    requires FirstHit(env.polls, OkMarker, PublishAckBudget + 1).Some?
    ensures var o := Step(OnPublish, c, e, env);
      !o.panicked ==>
        |o.config.written| == |c.written| + 2
        && o.config.written[|c.written|] == CipSend(|o.config.written[|c.written| + 1]|)
        && DecodePublish(o.config.written[|c.written| + 1]) == Some(PublishPayload(e.data))
  {
    var (topic, message) := PublishPayload(e.data);
    if PublishFits(topic, message) {
      PublishRoundTrip(topic, message);
    }
  }

  /** The acknowledgment handler returns to `Ready` on every path except a
      failed prime, which leaves `WaitingPublishAck` untouched; it always
      writes the prime `AT+CIPSEND=2`, and after it DISCONNECT exactly when
      the prime was written and a worker poll saw `OK`. */
  lemma AckReceivedOutcome(c: Config, e: Event, env: Env)
    requires c.state == WaitingPublishAck
    ensures var o := Step(OnAckReceived, c, e, env).config;
      var hit := FirstHit(env.polls, OkMarker, PublishAckBudget + 1).Some?;
      (o.state == WaitingPublishAck <==> !env.firstWriteOk)
      && (env.firstWriteOk ==> o.state == Ready)
      && (o.written == c.written + [CipSendTwo(), DisconnectFrame()] <==> env.firstWriteOk && hit)
      && (!(env.firstWriteOk && hit) ==> o.written == c.written + [CipSendTwo()])
  {
  }

  /** Whenever a step writes a frame after its prime, the prime announces the
      frame's exact length. */
  lemma FramesAnnounced(h: Handler, c: Config, e: Event, env: Env)
    ensures var w := Step(h, c, e, env).config.written;
      |w| == |c.written| + 2 && h != OnReset ==> w[|c.written|] == CipSend(|w[|c.written| + 1]|)
  {
    DisconnectPrime();
  }

  /** No false positive: a waiting handler that got past its prime times out,
      ending `Ready` with no frame written, when `OK` never reached the buffer
      by its last poll. No miss: when its last poll gets the lock and finds
      `OK`, the frame is written. */
  lemma TimeoutWritesNoFrame(h: Handler, c: Config, e: Event, env: Env)
    requires h == OnConnAck || h == OnPublish || h == OnAckReceived
    requires c.state == RequiredState(h).value
    requires h != OnPublish ==> env.firstWriteOk
    requires h == OnPublish ==> PublishFits(PublishPayload(e.data).0, PublishPayload(e.data).1)
    ensures var budget := if h == OnConnAck then ConnectAckBudget else PublishAckBudget;
      var o := Step(h, c, e, env).config;
      (!Contains(Seen(env.polls, budget), OkMarker) ==> o.state == Ready && |o.written| == |c.written| + 1)
      && (Hit(env.polls, OkMarker, budget) ==> |o.written| == |c.written| + 2)
  {
    match h
    case OnConnAck => ConnAckTimeout(c, env);
    case OnPublish => PublishTimeout(c, e, env);
    case OnAckReceived => AckReceivedTimeout(c, env);
  }

  /** The worker's verdict as seen in the written log: no `OK` by the last
      poll means one write and `Ready`; a hit means two writes. */
  predicate TimeoutShape(c: Config, o: Config, polls: seq<Poll>, budget: nat) {
    (!Contains(Seen(polls, budget), OkMarker) ==> o.state == Ready && |o.written| == |c.written| + 1)
    && (Hit(polls, OkMarker, budget) ==> |o.written| == |c.written| + 2)
  }

  /** The worker's two outcomes, for the poll budget `budget + 1`. */
  lemma WorkerVerdict(polls: seq<Poll>, budget: nat)
    ensures !Contains(Seen(polls, budget), OkMarker) ==> FirstHit(polls, OkMarker, budget + 1).None?
    ensures Hit(polls, OkMarker, budget) ==> FirstHit(polls, OkMarker, budget + 1).Some?
  {
    if !Contains(Seen(polls, budget), OkMarker) {
      NoMarkerTimesOut(polls, OkMarker, budget + 1);
    }
    if Hit(polls, OkMarker, budget) {
      MarkerSeenSucceeds(polls, OkMarker, budget, budget + 1);
    }
  }

  lemma ConnAckTimeout(c: Config, env: Env)
    requires c.state == WaitingConnectAck && env.firstWriteOk
    ensures TimeoutShape(c, ConnAckStep(c, env), env.polls, ConnectAckBudget)
  {
    WorkerVerdict(env.polls, ConnectAckBudget);
  }

  lemma PublishTimeout(c: Config, e: Event, env: Env)
    requires c.state == Connected
    requires PublishFits(PublishPayload(e.data).0, PublishPayload(e.data).1)
    ensures TimeoutShape(c, PublishStep(c, e, env).config, env.polls, PublishAckBudget)
  {
    WorkerVerdict(env.polls, PublishAckBudget);
  }

  lemma AckReceivedTimeout(c: Config, env: Env)
    requires c.state == WaitingPublishAck && env.firstWriteOk
    ensures TimeoutShape(c, AckReceivedStep(c, env), env.polls, PublishAckBudget)
  {
    WorkerVerdict(env.polls, PublishAckBudget);
  }

  /** The handlers only ever set the four core states: started in one of them,
      a step ends in one of them; `Reset` always ends in one. */
  lemma CoreStatesClosed(h: Handler, c: Config, e: Event, env: Env)
    requires Core(c.state) || h == OnReset
    ensures Core(Step(h, c, e, env).config.state)
  {
  }

  // ---------------------------------------------------------------------------
  // The handlers as they run

  /** The shared state handle, the shared read buffer and the port. */
  class Engine {
    var state: WifiState
    const buffer: ReadBuffer
    /** Every `write` attempted on the port, in order. */
    ghost var written: seq<seq<byte>>

    ghost function Snapshot(): Config
      reads this, buffer
    {
      Config(state, buffer.text, written)
    }

    constructor (buffer: ReadBuffer)
      ensures this.buffer == buffer && state == Ready && written == []
    {
      this.buffer := buffer;
      state := Ready;
      written := [];
    }

    /** Logs one write attempt and reports whether it succeeded. */
    method Write(bytes: seq<byte>, ok: bool) returns (success: bool)
      modifies this
      ensures written == old(written) + [bytes] && state == old(state)
      ensures success == ok
    {
      written := written + [bytes];
      success := ok;
    }

    method Configure()
      modifies this
      ensures Snapshot() == ConfigureStep(old(Snapshot()))
    {
      if state == Ready {
        var _ := Write(Ate0(), true);
      }
    }

    method Reset()
      modifies this, buffer
      ensures Snapshot() == ResetStep(old(Snapshot()))
    {
      buffer.text := "";
      var _ := Write(DisconnectFrame(), true);
      var _ := Write(CipClose(), true);
      state := Ready;
    }

    method PublishConnectRequest(e: Event, env: Env)
      modifies this, buffer
      ensures Snapshot() == ConnectRequestStep(old(Snapshot()), e, env)
    {
      if state == Ready {
        var ok := Write(CipStart(e.data), env.firstWriteOk);
        if ok {
          state := WaitingConnectAck;
        } else {
          state := Ready;
        }
        buffer.text := "";
      }
    }

    method ConnAck(env: Env)
      modifies this, buffer
      ensures Snapshot() == ConnAckStep(old(Snapshot()), env)
    {
      if state == WaitingConnectAck {
        buffer.text := "";
        var frame := ConnectFrame();
        var ok := Write(CipSend(|frame|), env.firstWriteOk);
        if !ok {
          state := Ready;
          return;
        }
        var found := WorkerWait(buffer, ConnectAckBudget, env.polls);
        if !found {
          state := Ready;
          return;
        }
        var sent := Write(frame, env.secondWriteOk);
        if !sent {
          state := Ready;
        }
        state := Connected;
      }
    }

    method Publish(e: Event, env: Env) returns (panicked: bool)
      modifies this, buffer
      ensures Outcome(Snapshot(), panicked) == PublishStep(old(Snapshot()), e, env)
    {
      panicked := false;
      if state == Connected {
        buffer.text := "";
        var (topic, message) := PublishPayload(e.data);
        if !PublishFits(topic, message) {
          panicked := true;
          return;
        }
        var frame := PublishFrame(topic, message);
        var ok := Write(CipSend(|frame|), env.firstWriteOk);
        if !ok {
          state := Ready;
        }
        var found := WorkerWait(buffer, PublishAckBudget, env.polls);
        if !found {
          state := Ready;
          return;
        }
        var sent := Write(frame, env.secondWriteOk);
        if !sent {
          state := Ready;
        }
        state := WaitingPublishAck;
      }
    }

    method AckReceived(env: Env)
      modifies this, buffer
      ensures Snapshot() == AckReceivedStep(old(Snapshot()), env)
    {
      if state == WaitingPublishAck {
        buffer.text := "";
        var ok := Write(CipSendTwo(), env.firstWriteOk);
        if !ok {
          return;
        }
        var found := WorkerWait(buffer, PublishAckBudget, env.polls);
        if !found {
          state := Ready;
          return;
        }
        var sent := Write(DisconnectFrame(), env.secondWriteOk);
        if !sent {
          state := Ready;
          return;
        }
        state := Ready;
      }
    }

    /** Runs the closure `h` on event `e`. */
    method Handle(h: Handler, e: Event, env: Env) returns (panicked: bool)
      modifies this, buffer
      ensures Outcome(Snapshot(), panicked) == Step(h, old(Snapshot()), e, env)
    {
      panicked := false;
      match h {
        case OnConfigure => Configure();
        case OnReset => Reset();
        case OnPublishConnectRequest => PublishConnectRequest(e, env);
        case OnConnAck => ConnAck(env);
        case OnPublish => panicked := Publish(e, env);
        case OnAckReceived => AckReceived(env);
      }
    }
  }
}
