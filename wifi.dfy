/** The protocol's data model: the modem-link states, the event kinds and
    the events that carry a kind and a free-form payload. */
module Wifi {
  import opened Text

  /** The single shared protocol state. `Sent` and `Invalid` are never set by
      the handlers; `Invalid` is what a failed read of the state would give. */
  datatype WifiState = Ready | WaitingConnectAck | Connected | WaitingPublishAck | Sent | Invalid

  /** Event kinds, in declaration order; this includes `Reset`. */
  datatype WifiEvent =
    | Configure
    | PublishConnectRequest
    | Timeout
    | ConnAck
    | Publish
    | AckReceived
    | Close
    | Reset

  /** `Event::new(kind, data)` keeps both verbatim. */
  datatype Event = Event(kind: WifiEvent, data: string)

  /** The `Debug` name of an event kind. */
  function KindName(k: WifiEvent): string {
    match k
    case Configure => "Configure"
    case PublishConnectRequest => "PublishConnectRequest"
    case Timeout => "Timeout"
    case ConnAck => "ConnAck"
    case Publish => "Publish"
    case AckReceived => "AckReceived"
    case Close => "Close"
    case Reset => "Reset"
  }

  /** The kind whose `Debug` name is `name`, if any. */
  function KindFromName(name: string): Option<WifiEvent> {
    if name == "Configure" then Some(Configure)
    else if name == "PublishConnectRequest" then Some(PublishConnectRequest)
    else if name == "Timeout" then Some(Timeout)
    else if name == "ConnAck" then Some(ConnAck)
    else if name == "Publish" then Some(Publish)
    else if name == "AckReceived" then Some(AckReceived)
    else if name == "Close" then Some(Close)
    else if name == "Reset" then Some(Reset)
    else None
  }

  /** `String::from(event)`: `"<Kind>: <data>"`. */
  function EventString(e: Event): string {
    KindName(e.kind) + ": " + e.data
  }

  /** Reads an event back from its string form: the kind name runs up to the
      first `':'`, which is followed by one space and then the data. */
  function ParseEventString(s: string): Option<Event> {
    var i := IndexOf(s, ':');
    if i + 2 <= |s| && s[i + 1] == ' ' then
      match KindFromName(s[..i])
      case Some(k) => Some(Event(k, s[i + 2..]))
      case None => None
    else None
  }

  /** Kind names are colon-free and name their kind uniquely. */
  lemma KindNameShape(k: WifiEvent)
    ensures ':' !in KindName(k)
    ensures KindFromName(KindName(k)) == Some(k)
  {
  }

  /** The string form loses nothing: it parses back to the same event, so
      distinct events give distinct strings. */
  lemma EventStringRoundTrip(e: Event)
    ensures ParseEventString(EventString(e)) == Some(e)
  {
    var name := KindName(e.kind);
    var s := EventString(e);
    KindNameShape(e.kind);
    assert s == name + ": " + e.data;
    assert forall j :: 0 <= j < |name| ==> s[j] == name[j];
    assert s[|name|] == ':';
    assert IndexOf(s, ':') == |name|;
    assert s[..|name|] == name;
    assert s[|name| + 2..] == e.data;
  }

  lemma EventStringInjective(a: Event, b: Event)
    requires EventString(a) == EventString(b)
    ensures a == b
  {
    EventStringRoundTrip(a);
    EventStringRoundTrip(b);
  }

  /** A configure request with empty data prints as `"Configure: "`. */
  lemma ConfigureEventString()
    ensures EventString(Event(Configure, "")) == "Configure: "
  {
  }
}
