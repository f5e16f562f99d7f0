/** The in-process event broker (internal/events/broker.go:30-64). */
module Broker {
  import opened Common

  const CAPACITY: nat := 32

  /** A non-blocking send that a dispatch tried: how many events the buffer held, and whether
      the event was taken. */
  datatype Offer<E> = Offer(dispatch: nat, event: E, held: nat, taken: bool)

  /** A Go channel with its history: what its reader has received and what it was offered. */
  datatype Channel<E> = Channel(buffer: seq<E>, closed: bool, received: seq<E>, offers: seq<Offer<E>>)

  function NewChannel<E>(): Channel<E> {
    Channel([], false, [], [])
  }

  /** `select { case ch <- e: default: }` on an open channel. */
  function Send<E>(ch: Channel<E>, d: nat, e: E): Channel<E> {
    var room := |ch.buffer| < CAPACITY;
    ch.(buffer := if room then ch.buffer + [e] else ch.buffer,
        offers := ch.offers + [Offer(d, e, |ch.buffer|, room)])
  }

  function Receive<E>(ch: Channel<E>): Channel<E> {
    if ch.buffer == [] then ch
    else ch.(buffer := ch.buffer[1..], received := ch.received + [ch.buffer[0]])
  }

  function Close<E>(ch: Channel<E>): Channel<E> {
    ch.(closed := true)
  }

  /** The events of the offers that were taken, in order. */
  function Taken<E>(offers: seq<Offer<E>>): seq<E> {
    if offers == [] then []
    else
      var o := offers[|offers| - 1];
      Taken(offers[..|offers| - 1]) + if o.taken then [o.event] else []
  }

  /** How often one dispatch offered its event. */
  function OffersBy<E>(offers: seq<Offer<E>>, d: nat): nat {
    if offers == [] then 0
    else OffersBy(offers[..|offers| - 1], d) + if offers[|offers| - 1].dispatch == d then 1 else 0
  }

  /** Nothing is lost, duplicated or reordered except offers that met a full buffer. */
  ghost predicate Faithful<E>(ch: Channel<E>) {
    && |ch.buffer| <= CAPACITY
    && ch.received + ch.buffer == Taken(ch.offers)
    && forall i | 0 <= i < |ch.offers| :: ch.offers[i].taken <==> ch.offers[i].held < CAPACITY
  }

  lemma SendIsFaithful<E>(ch: Channel<E>, d: nat, e: E)
    requires Faithful(ch)
    ensures Faithful(Send(ch, d, e))
  {
    var t := Send(ch, d, e);
    assert t.offers[..|t.offers| - 1] == ch.offers;
    assert ch.received + (ch.buffer + [e]) == (ch.received + ch.buffer) + [e];
  }

  lemma SendIsCounted<E>(ch: Channel<E>, d: nat, e: E, x: nat)
    ensures OffersBy(Send(ch, d, e).offers, x) == OffersBy(ch.offers, x) + if x == d then 1 else 0
  {
    var t := Send(ch, d, e);
    assert t.offers[..|t.offers| - 1] == ch.offers;
  }

  lemma ReceiveIsFaithful<E>(ch: Channel<E>)
    requires Faithful(ch)
    ensures Faithful(Receive(ch))
  {
    if ch.buffer != [] {
      assert (ch.received + [ch.buffer[0]]) + ch.buffer[1..] == ch.received + ch.buffer;
    }
  }

  // ---------------------------------------------------------------- the broker itself

  /** Channels are numbered in the order in which Subscribe makes them. */
  class EventBroker<E(==)> {
    var channels: seq<Channel<E>>
    var subscribers: set<nat>
    var dispatched: nat

    ghost predicate Valid()
      reads this
    {
      forall c: nat :: c in subscribers <==> c < |channels| && !channels[c].closed
    }

    constructor ()
      ensures Valid() && channels == [] && subscribers == {} && dispatched == 0
    {
      channels, subscribers, dispatched := [], {}, 0;
    }

    method Subscribe() returns (c: nat)
      requires Valid()
      modifies this
      ensures Valid()
      ensures c == |old(channels)| && channels == old(channels) + [NewChannel()]
      ensures subscribers == old(subscribers) + {c} && dispatched == old(dispatched)
    {
      c := |channels|;
      channels := channels + [Channel([], false, [], [])];
      subscribers := subscribers + {c};
    }

    /** The closure returned by Subscribe; calling it again does nothing. */
    method Unsubscribe(c: nat)
      requires Valid() && c < |channels|
      modifies this
      ensures Valid()
      ensures channels == old(channels)[c := Close(old(channels)[c])]
      ensures subscribers == old(subscribers) - {c} && dispatched == old(dispatched)
    {
      if c in subscribers {
        subscribers := subscribers - {c};
        channels := channels[c := channels[c].(closed := true)];
      }
    }

    method Dispatch(e: E)
      requires Valid()
      modifies this
      ensures Valid()
      ensures subscribers == old(subscribers) && |channels| == |old(channels)| && dispatched == old(dispatched) + 1
      ensures forall c | 0 <= c < |channels| ::
                channels[c] == if c in subscribers then Send(old(channels)[c], old(dispatched), e) else old(channels)[c]
    {
      var todo := subscribers;
      while todo != {}
        invariant todo <= subscribers == old(subscribers)
        invariant |channels| == |old(channels)| && dispatched == old(dispatched)
        invariant forall c | 0 <= c < |channels| ::
                    channels[c] == if c in subscribers && c !in todo
                                   then Send(old(channels)[c], dispatched, e) else old(channels)[c]
        decreases todo
      {
        var c :| c in todo;
        todo := todo - {c};
        var ch := channels[c];
        var room := |ch.buffer| < 32;
        channels := channels[c := Channel(if room then ch.buffer + [e] else ch.buffer, ch.closed, ch.received,
                                          ch.offers + [Offer(dispatched, e, |ch.buffer|, room)])];
      }
      dispatched := dispatched + 1;
    }
  }

  // ---------------------------------------------------------------- all interleavings

  /** A Dispatch that holds the read lock: its event and the subscribers it has still to reach. */
  datatype Running<E> = Running(event: E, targets: set<nat>, pending: set<nat>)

  /** `finished` remembers the completed dispatches; `panicked` is set by a send on a
      closed channel or a second close. */
  datatype State<E> = State(channels: map<nat, Channel<E>>, subscribers: set<nat>, running: map<nat, Running<E>>,
                            finished: map<nat, Running<E>>, panicked: bool)

  function Initial<E>(): State<E> {
    State(map[], {}, map[], map[], false)
  }

  /** Dispatches take the read lock and run concurrently; Subscribe and Unsubscribe need the
      write lock, so no dispatch may be running; receiving needs no lock. */
  datatype Step<E> =
    | Begin(dispatch: nat, event: E)
    | Reach(dispatch: nat, channel: nat)
    | End(dispatch: nat)
    | Join(channel: nat)
    | Leave(channel: nat)
    | Take(channel: nat)

  predicate Enabled<E>(s: State<E>, step: Step<E>) {
    match step
    case Begin(d, _) => d !in s.running && d !in s.finished
    case Reach(d, c) => d in s.running && c in s.running[d].pending && c in s.channels
    case End(d) => d in s.running && s.running[d].pending == {}
    case Join(c) => s.running == map[] && c !in s.channels
    case Leave(c) => s.running == map[] && c in s.channels
    case Take(c) => c in s.channels
  }

  function Next<E>(s: State<E>, step: Step<E>): State<E> {
    if !Enabled(s, step) then s
    else
      match step
      case Begin(d, e) => s.(running := s.running[d := Running(e, s.subscribers, s.subscribers)])
      case Reach(d, c) =>
        var r := s.running[d];
        s.(panicked := s.panicked || s.channels[c].closed,
           channels := s.channels[c := Send(s.channels[c], d, r.event)],
           running := s.running[d := r.(pending := r.pending - {c})])
      case End(d) => s.(running := s.running - {d}, finished := s.finished[d := s.running[d]])
      case Join(c) => s.(channels := s.channels[c := NewChannel()], subscribers := s.subscribers + {c})
      case Leave(c) =>
        if c !in s.subscribers then s
        else s.(panicked := s.panicked || s.channels[c].closed,
                channels := s.channels[c := Close(s.channels[c])],
                subscribers := s.subscribers - {c})
      case Take(c) => s.(channels := s.channels[c := Receive(s.channels[c])])
  }

  function Exec<E>(steps: seq<Step<E>>): State<E> {
    if steps == [] then Initial() else Next(Exec(steps[..|steps| - 1]), steps[|steps| - 1])
  }

  /** How often dispatch d has offered its event to channel c so far. */
  function Due<E>(s: State<E>, d: nat, c: nat): nat {
    if d in s.finished then (if c in s.finished[d].targets then 1 else 0)
    else if d in s.running && c in s.running[d].targets && c !in s.running[d].pending then 1
    else 0
  }

  ghost predicate Locked<E>(s: State<E>) {
    && !s.panicked
    && (forall c: nat :: c in s.subscribers <==> c in s.channels && !s.channels[c].closed)
    && (forall d <- s.running :: d !in s.finished && s.running[d].pending <= s.running[d].targets == s.subscribers)
    && (forall d <- s.finished :: s.finished[d].targets <= s.channels.Keys)
  }

  ghost predicate Delivered<E>(s: State<E>) {
    forall c <- s.channels ::
      Faithful(s.channels[c]) && forall d: nat :: OffersBy(s.channels[c].offers, d) == Due(s, d, c)
  }

  lemma StepIsSafe<E>(s: State<E>, step: Step<E>)
    requires Locked(s)
    ensures Locked(Next(s, step))
  {
  }

  /** A step changes what a channel was offered by d exactly as it changes what d owes it. */
  lemma StepIsCounted<E>(s: State<E>, step: Step<E>, c: nat, d: nat)
    requires Locked(s) && c in Next(s, step).channels
    requires c in s.channels ==> OffersBy(s.channels[c].offers, d) == Due(s, d, c)
    ensures OffersBy(Next(s, step).channels[c].offers, d) == Due(Next(s, step), d, c)
  {
    if Enabled(s, step) && step.Reach? {
      SendIsCounted(s.channels[step.channel], step.dispatch, s.running[step.dispatch].event, d);
    }
  }

  lemma StepIsFaithful<E>(s: State<E>, step: Step<E>, c: nat)
    requires c in Next(s, step).channels
    requires c in s.channels ==> Faithful(s.channels[c])
    ensures Faithful(Next(s, step).channels[c])
  {
    if Enabled(s, step) && step.Reach? && step.channel == c {
      SendIsFaithful(s.channels[c], step.dispatch, s.running[step.dispatch].event);
    } else if step == Take(c) {
      ReceiveIsFaithful(s.channels[c]);
    }
  }

  lemma StepDelivers<E>(s: State<E>, step: Step<E>)
    requires Locked(s) && Delivered(s)
    ensures Delivered(Next(s, step))
  {
    var t := Next(s, step);
    forall c | c in t.channels
      ensures Faithful(t.channels[c]) && forall d: nat :: OffersBy(t.channels[c].offers, d) == Due(t, d, c)
    {
      StepIsFaithful(s, step, c);
      forall d: nat ensures OffersBy(t.channels[c].offers, d) == Due(t, d, c) {
        StepIsCounted(s, step, c, d);
      }
    }
  }

  /** Safety over all interleavings: no send on a closed channel and no second close; every buffer
      within its capacity; each channel's received and buffered events are exactly the offers it
      took, in order, and an offer is lost only to a full buffer; and every finished dispatch has
      offered its event exactly once to each channel subscribed when it started, and to no other. */
  lemma {:induction false} BrokerIsSafe<E>(steps: seq<Step<E>>)
    ensures var s := Exec(steps);
            && Locked(s) && Delivered(s)
            && forall d <- s.finished, c <- s.channels ::
                 OffersBy(s.channels[c].offers, d) == if c in s.finished[d].targets then 1 else 0
  {
    if steps != [] {
      var front := steps[..|steps| - 1];
      BrokerIsSafe(front);
      StepIsSafe(Exec(front), steps[|steps| - 1]);
      StepDelivers(Exec(front), steps[|steps| - 1]);
    }
  }

  // ---------------------------------------------------------------- which event is offered

  /** The event of a dispatch that has begun. */
  function EventOf<E>(s: State<E>, d: nat): Option<E> {
    if d in s.running then Some(s.running[d].event)
    else if d in s.finished then Some(s.finished[d].event)
    else None
  }

  /** Some step of the run begins dispatch d with event e. */
  ghost predicate Began<E>(steps: seq<Step<E>>, d: nat, e: E) {
    exists k | 0 <= k < |steps| :: steps[k] == Begin(d, e) && Enabled(Exec(steps[..k]), steps[k])
  }

  lemma StepKeepsEvent<E>(s: State<E>, step: Step<E>, d: nat)
    requires Locked(s)
    ensures EventOf(s, d).Some? ==> EventOf(Next(s, step), d) == EventOf(s, d)
    ensures EventOf(s, d).None? && EventOf(Next(s, step), d).Some? ==>
              step.Begin? && step.dispatch == d && EventOf(Next(s, step), d) == Some(step.event)
    ensures step.Begin? && step.dispatch == d && Enabled(s, step) ==>
              EventOf(s, d).None? && EventOf(Next(s, step), d).Some?
  {
  }

  lemma BeganSnoc<E>(steps: seq<Step<E>>, d: nat, e: E)
    requires steps != []
    ensures var n := |steps| - 1;
            Began(steps, d, e) <==>
            Began(steps[..n], d, e) || (steps[n] == Begin(d, e) && Enabled(Exec(steps[..n]), steps[n]))
  {
    var n := |steps| - 1;
    forall k | 0 <= k < n ensures steps[..n][..k] == steps[..k] && steps[..n][k] == steps[k] {
    }
    if Began(steps[..n], d, e) {
      var k :| 0 <= k < n && steps[..n][k] == Begin(d, e) && Enabled(Exec(steps[..n][..k]), steps[..n][k]);
      assert steps[k] == Begin(d, e) && Enabled(Exec(steps[..k]), steps[k]);
    }
    if Began(steps, d, e) {
      var k :| 0 <= k <= n && steps[k] == Begin(d, e) && Enabled(Exec(steps[..k]), steps[k]);
      if k < n {
        assert steps[..n][k] == Begin(d, e) && Enabled(Exec(steps[..n][..k]), steps[..n][k]);
      }
    }
  }

  /** A dispatch begins once, and its event is the one it began with. */
  lemma {:induction false} EventOfIff<E>(steps: seq<Step<E>>, d: nat, e: E)
    ensures EventOf(Exec(steps), d) == Some(e) <==> Began(steps, d, e)
  {
    if steps != [] {
      var n := |steps| - 1;
      EventOfIff(steps[..n], d, e);
      BeganSnoc(steps, d, e);
      BrokerIsSafe(steps[..n]);
      StepKeepsEvent(Exec(steps[..n]), steps[n], d);
    }
  }

  ghost predicate CarriesEvents<E>(s: State<E>, ch: Channel<E>) {
    forall i | 0 <= i < |ch.offers| :: EventOf(s, ch.offers[i].dispatch) == Some(ch.offers[i].event)
  }

  lemma StepCarries<E>(s: State<E>, step: Step<E>, c: nat)
    requires Locked(s) && c in Next(s, step).channels && (c in s.channels ==> CarriesEvents(s, s.channels[c]))
    ensures CarriesEvents(Next(s, step), Next(s, step).channels[c])
  {
    var t := Next(s, step);
    forall i | 0 <= i < |t.channels[c].offers|
      ensures EventOf(t, t.channels[c].offers[i].dispatch) == Some(t.channels[c].offers[i].event)
    {
      StepKeepsEvent(s, step, t.channels[c].offers[i].dispatch);
    }
  }

  lemma {:induction false} RunCarries<E>(steps: seq<Step<E>>)
    ensures forall c <- Exec(steps).channels :: CarriesEvents(Exec(steps), Exec(steps).channels[c])
  {
    if steps != [] {
      var front := steps[..|steps| - 1];
      RunCarries(front);
      BrokerIsSafe(front);
      forall c | c in Exec(steps).channels ensures CarriesEvents(Exec(steps), Exec(steps).channels[c]) {
        StepCarries(Exec(front), steps[|steps| - 1], c);
      }
    }
  }

  /** Every offer carries the event its dispatch began with, and is lost exactly when the buffer holds
      32 events. */
  lemma OffersAreDispatched<E>(steps: seq<Step<E>>, c: nat, i: nat)
    requires c in Exec(steps).channels && i < |Exec(steps).channels[c].offers|
    ensures var o := Exec(steps).channels[c].offers[i];
            Began(steps, o.dispatch, o.event) && (!o.taken <==> o.held >= 32)
    ensures |Exec(steps).channels[c].buffer| <= 32
  {
    var o := Exec(steps).channels[c].offers[i];
    RunCarries(steps);
    BrokerIsSafe(steps);
    EventOfIff(steps, o.dispatch, o.event);
    assert Faithful(Exec(steps).channels[c]);
  }
}
