/** `register_event_handlers`: the registry the bridge runs with, and what
    the protocol does end to end once it is installed. */
module Bridge {
  import opened Text
  import opened Wifi
  import opened AckWait
  import opened Frames
  import opened EventHandlers
  import opened Dispatch

  /** The kind each closure is registered for. */
  function HandledKind(h: Handler): WifiEvent {
    match h
    case OnConfigure => Configure
    case OnReset => Reset
    case OnPublishConnectRequest => PublishConnectRequest
    case OnConnAck => ConnAck
    case OnPublish => Publish
    case OnAckReceived => AckReceived
  }

  /** The registry `register_event_handlers` builds. */
  function StandardHandlers(): map<WifiEvent, Handler> {
    map[Configure := OnConfigure, Reset := OnReset, PublishConnectRequest := OnPublishConnectRequest,
        ConnAck := OnConnAck, Publish := OnPublish, AckReceived := OnAckReceived]
  }

  /** `register_event_handlers(event_loop, ..)`: one `on` per closure, in the
      source's order. */
  method RegisterEventHandlers(loop: EventLoop)
    modifies loop
    ensures loop.handlers == old(loop.handlers) + StandardHandlers()
  {
    ghost var h := loop.handlers;
    loop.On(Configure, OnConfigure);
    loop.On(Reset, OnReset);
    loop.On(PublishConnectRequest, OnPublishConnectRequest);
    loop.On(ConnAck, OnConnAck);
    loop.On(Publish, OnPublish);
    loop.On(AckReceived, OnAckReceived);
    RegistrationsAreUnion(h);
  }

  /** Six registrations in a row add the standard registry over what was
      there. */
  lemma RegistrationsAreUnion(h: map<WifiEvent, Handler>)
    ensures h[Configure := OnConfigure][Reset := OnReset][PublishConnectRequest := OnPublishConnectRequest]
             [ConnAck := OnConnAck][Publish := OnPublish][AckReceived := OnAckReceived]
            == h + StandardHandlers()
  {
  }

  /** Six kinds get a handler, each the one written for that kind; `Close`
      and `Timeout` get none. */
  lemma StandardRegistry(k: WifiEvent)
    ensures k in StandardHandlers() <==> k != Close && k != Timeout
    ensures k in StandardHandlers() ==> HandledKind(StandardHandlers()[k]) == k
  {
  }

  /** `Close` and `Timeout` events are dropped: whatever the state, nothing
      changes and nothing is written. */
  lemma CloseAndTimeoutIgnored(c: Config, e: Event, busy: bool, env: Env)
    requires e.kind == Close || e.kind == Timeout
    ensures Deliver(StandardHandlers(), c, Delivered(e, busy, env)) == Outcome(c, false)
  {
    StandardRegistry(e.kind);
    DroppedEvents(StandardHandlers(), c, e, busy, env);
  }

  /** Every event other than `Reset` that arrives in a state its handler does
      not act in leaves the state, the buffer and the port untouched. */
  lemma UnlistedPairsNoop(c: Config, e: Event, busy: bool, env: Env)
    requires e.kind != Reset
    requires e.kind in StandardHandlers() ==> c.state != RequiredState(StandardHandlers()[e.kind]).value
    ensures Deliver(StandardHandlers(), c, Delivered(e, busy, env)) == Outcome(c, false)
  {
    if !busy && e.kind in StandardHandlers() {
      Gating(StandardHandlers()[e.kind], c, e, env);
    }
  }

  /** With the standard registry in place, a run that starts in a core state
      stays in the core states. */
  lemma StandardRunsStayCore(c: Config, ds: seq<Delivery>)
    requires Core(c.state)
    ensures Core(Run(StandardHandlers(), c, ds).config.state)
  {
    RunKeepsCore(StandardHandlers(), c, ds);
  }

  // ---------------------------------------------------------------------------
  // End-to-end scenarios

  /** A connect request for host `243` from `Ready` opens the socket to
      `192.168.0.243` (whose text `CipStartText` gives) and waits for the
      connect acknowledgment. */
  lemma ConnectScenario(b: string, w: seq<seq<byte>>, polls: seq<Poll>, secondOk: bool)
    ensures var o := Deliver(StandardHandlers(), Config(Ready, b, w),
                             Delivered(Event(PublishConnectRequest, "243"), false, Env(true, secondOk, polls)));
      o == Outcome(Config(WaitingConnectAck, "", w + [CipStart("243")]), false)
  {
    ConnectRequestOutcome(Config(Ready, b, w), Event(PublishConnectRequest, "243"), Env(true, secondOk, polls));
  }

  /** When the modem answers `OK` to the prime, the connect acknowledgment
      writes the prime for 21 bytes and then the CONNECT frame, and ends
      `Connected`. */
  lemma ConnAckScenario(b: string, w: seq<seq<byte>>, rest: seq<Poll>, secondOk: bool)
    ensures var o := Deliver(StandardHandlers(), Config(WaitingConnectAck, b, w),
                             Delivered(Event(ConnAck, ""), false, Env(true, secondOk, [Poll("OK", true)] + rest)));
      o.config.state == Connected && !o.panicked
      && o.config.written == w + [CipSend(21), ConnectFrame()]
  {
    var polls := [Poll("OK", true)] + rest;
    OkSeenAtOnce(rest);
    MarkerSeenSucceeds(polls, OkMarker, 0, ConnectAckBudget + 1);
    ConnAckOutcome(Config(WaitingConnectAck, b, w), Event(ConnAck, ""), Env(true, secondOk, polls));
  }

  /** A first poll that brings `OK` is a hit. */
  lemma OkSeenAtOnce(rest: seq<Poll>)
    ensures Hit([Poll("OK", true)] + rest, OkMarker, 0)
  {
    var polls := [Poll("OK", true)] + rest;
    assert Seen(polls, 0) == "OK";
    assert OccursAt("OK", "OK", 0);
    ContainsAt("OK", "OK");
  }

  /** With no `OK` ever arriving, a publish request from `Connected` whose
      payload is `topic` and `message` (for `<x>:<topic>:<message>`,
      `PublishPayloadOfJoin` gives it) writes only the prime announcing its
      `4 + topic + message`-byte frame and falls back to `Ready` when the
      worker gives up, whether or not the prime was written. */
  lemma PublishTimeoutScenario(b: string, w: seq<seq<byte>>, data: string, topic: seq<byte>, message: seq<byte>,
                               firstOk: bool, secondOk: bool, polls: seq<Poll>)
    requires PublishPayload(data) == (topic, message)
    requires |topic| + |message| <= 253
    requires !Contains(Seen(polls, PublishAckBudget), OkMarker)
    ensures var o := Deliver(StandardHandlers(), Config(Connected, b, w),
                             Delivered(Event(Publish, data), false, Env(firstOk, secondOk, polls)));
      o.config.state == Ready && !o.panicked
      && o.config.written == w + [CipSend(4 + |topic| + |message|)]
  {
    var c := Config(Connected, b, w);
    var e := Event(Publish, data);
    var env := Env(firstOk, secondOk, polls);
    assert Deliver(StandardHandlers(), c, Delivered(e, false, env)) == PublishStep(c, e, env);
    RemainingLengthRange(|topic| + |message|);
    PublishRoundTrip(topic, message);
    NoMarkerTimesOut(polls, OkMarker, PublishAckBudget + 1);
  }
}
