/** The event loop: a registry from event kind to handler, and the loop that
    takes events off the channel in order and runs the registered handler on
    each one.

    The channel is a finite sequence of deliveries. Each delivery is an event
    (with whether `try_lock` on the registry failed and what the world does
    during its handler), or a failed `recv`. */
module Dispatch {
  import opened Wifi
  import opened EventHandlers

  /** One turn of the loop. */
  datatype Delivery =
    | Delivered(event: Event, registryBusy: bool, env: Env)
    | RecvFailed

  /** One turn: a failed receive, a busy registry or a kind with no handler
      changes nothing; otherwise the registered handler gets the event as it
      was sent. */
  function Deliver(handlers: map<WifiEvent, Handler>, c: Config, d: Delivery): Outcome {
    match d
    case RecvFailed => Outcome(c, false)
    case Delivered(e, busy, env) =>
      if busy || e.kind !in handlers then Outcome(c, false)
      else Step(handlers[e.kind], c, e, env)
  }

  /** The loop over a sequence of deliveries, in order; a handler panic ends it. */
  function Run(handlers: map<WifiEvent, Handler>, c: Config, ds: seq<Delivery>): Outcome
    decreases |ds|
  {
    if ds == [] then Outcome(c, false)
    else
      var o := Deliver(handlers, c, ds[0]);
      if o.panicked then o else Run(handlers, o.config, ds[1..])
  }

  /** Running two batches one after the other is running them together; a
      panic in the first ends the loop before the second. */
  lemma {:induction false} RunAppend(handlers: map<WifiEvent, Handler>, c: Config, ds1: seq<Delivery>, ds2: seq<Delivery>)
    ensures Run(handlers, c, ds1 + ds2)
      == (var o := Run(handlers, c, ds1); if o.panicked then o else Run(handlers, o.config, ds2))
    decreases |ds1|
  {
    if ds1 == [] {
      assert ds1 + ds2 == ds2;
    } else {
      assert (ds1 + ds2)[1..] == ds1[1..] + ds2;
      var o := Deliver(handlers, c, ds1[0]);
      if !o.panicked {
        RunAppend(handlers, o.config, ds1[1..], ds2);
      }
    }
  }

  /** An event whose kind has no handler, or that arrives while the registry
      is busy, is dropped: nothing changes. */
  lemma DroppedEvents(handlers: map<WifiEvent, Handler>, c: Config, e: Event, busy: bool, env: Env)
    requires busy || e.kind !in handlers
    ensures Deliver(handlers, c, Delivered(e, busy, env)) == Outcome(c, false)
  {
  }

  /** Over any run the handlers only ever set the four core states. */
  lemma {:induction false} RunKeepsCore(handlers: map<WifiEvent, Handler>, c: Config, ds: seq<Delivery>)
    requires Core(c.state)
    ensures Core(Run(handlers, c, ds).config.state)
    decreases |ds|
  {
    if ds != [] {
      if ds[0].Delivered? && !ds[0].registryBusy && ds[0].event.kind in handlers {
        CoreStatesClosed(handlers[ds[0].event.kind], c, ds[0].event, ds[0].env);
      }
      var o := Deliver(handlers, c, ds[0]);
      if !o.panicked {
        RunKeepsCore(handlers, o.config, ds[1..]);
      }
    }
  }

  /** The port log only grows over a run: earlier writes are never lost. */
  lemma {:induction false} RunKeepsWrites(handlers: map<WifiEvent, Handler>, c: Config, ds: seq<Delivery>)
    ensures var w := Run(handlers, c, ds).config.written;
      |c.written| <= |w| && w[..|c.written|] == c.written
    decreases |ds|
  {
    if ds != [] {
      if ds[0].Delivered? && !ds[0].registryBusy && ds[0].event.kind in handlers {
        WritesAppend(handlers[ds[0].event.kind], c, ds[0].event, ds[0].env);
      }
      var o := Deliver(handlers, c, ds[0]);
      if !o.panicked {
        RunKeepsWrites(handlers, o.config, ds[1..]);
        var w := Run(handlers, o.config, ds[1..]).config.written;
        assert w[..|c.written|] == w[..|o.config.written|][..|c.written|];
      }
    }
  }

  /** `EventLoop`: the handler registry. */
  class EventLoop {
    var handlers: map<WifiEvent, Handler>

    constructor ()
      ensures handlers == map[]
    {
      handlers := map[];
    }

    /** `on(kind, f)`: registers `f` for `kind`, replacing any earlier handler
        for that kind and leaving the others. */
    method On(kind: WifiEvent, h: Handler)
      modifies this
      ensures handlers == old(handlers)[kind := h]
      ensures kind in handlers && handlers[kind] == h
      ensures forall k :: k != kind ==> (k in handlers <==> k in old(handlers))
      ensures forall k :: k != kind && k in handlers ==> handlers[k] == old(handlers)[k]
    {
      handlers := handlers[kind := h];
    }

    /** `start`: handles the deliveries one at a time in order, until they are
        exhausted or a handler panics. */
    method Start(engine: Engine, inbox: seq<Delivery>) returns (panicked: bool)
      modifies engine, engine.buffer
      ensures Outcome(engine.Snapshot(), panicked) == Run(handlers, old(engine.Snapshot()), inbox)
    {
      ghost var start := engine.Snapshot();
      var i := 0;
      panicked := false;
      while i < |inbox|
        invariant 0 <= i <= |inbox|
        invariant Run(handlers, start, inbox[..i]) == Outcome(engine.Snapshot(), false)
      {
        var d := inbox[i];
        ghost var before := engine.Snapshot();
        RunAppend(handlers, start, inbox[..i], [d]);
        assert inbox[..i + 1] == inbox[..i] + [d];
        if d.Delivered? && !d.registryBusy && d.event.kind in handlers {
          panicked := engine.Handle(handlers[d.event.kind], d.event, d.env);
          if panicked {
            RunAppend(handlers, start, inbox[..i + 1], inbox[i + 1..]);
            assert inbox[..i + 1] + inbox[i + 1..] == inbox;
            return;
          }
        }
        i := i + 1;
      }
      assert inbox[..i] == inbox;
    }
  }
}
