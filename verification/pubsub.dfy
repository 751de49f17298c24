/**
  The in-process publish-subscribe event bus.

  The bus is an immutable record: the registry of subscribers per event type,
  the FIFO queue of published events, the running flag, and a delivery log.
  Subscriber callbacks are identifiers; calling one appends a `Delivery` to the
  log. Whether a callback raises when called with an event is decided by the
  `raises` oracle, and a raising call is recorded (and, in the library, logged
  as an error) without affecting anything else. The background worker thread
  is replaced by the explicit `Step`, one iteration of its loop.
 */
module PubSub {
  import opened Common

  /** The closed set of event kinds. */
  datatype EventType =
    | StoryInfoNeeded | StoryInfoReceived | StoryConfigComplete | TtvConfigGenerated
    | TtvProcessStarted | TtvProcessProgress | TtvProcessCompleted | TtvProcessFailed
    | UserProfileUpdated | ConversationStarted | ConversationEnded
    | Custom

  /** Every event type, in declaration order. */
  const AllEventTypes: seq<EventType> :=
    [StoryInfoNeeded, StoryInfoReceived, StoryConfigComplete, TtvConfigGenerated,
     TtvProcessStarted, TtvProcessProgress, TtvProcessCompleted, TtvProcessFailed,
     UserProfileUpdated, ConversationStarted, ConversationEnded,
     Custom]

  /** A payload value: the dictionary values events carry. */
  datatype Value = Str(s: string) | Int(i: int) | Bool(b: bool) | Null

  type Payload = map<string, Value>

  /** An event. `id` and `timestamp` come from the uuid generator and the clock,
      which are parameters of `NewEvent`. */
  datatype Event = Event(
    id: string,
    eventType: EventType,
    data: Payload,
    source: Option<string>,
    target: Option<string>,
    timestamp: real)

  type CallbackId = nat

  /** One call of a subscriber callback during dispatch, and whether it raised. */
  datatype Delivery = Delivery(callback: CallbackId, event: Event, raised: bool)

  /** Whether a callback raises when called with an event. */
  type Raises = (CallbackId, Event) -> bool

  datatype Bus = Bus(
    subscribers: map<EventType, seq<CallbackId>>,
    queue: seq<Event>,
    running: bool,
    log: seq<Delivery>)

  lemma EveryTypeListed(t: EventType)
    ensures t in AllEventTypes
  {
    match t
    case StoryInfoNeeded => assert AllEventTypes[0] == t;
    case StoryInfoReceived => assert AllEventTypes[1] == t;
    case StoryConfigComplete => assert AllEventTypes[2] == t;
    case TtvConfigGenerated => assert AllEventTypes[3] == t;
    case TtvProcessStarted => assert AllEventTypes[4] == t;
    case TtvProcessProgress => assert AllEventTypes[5] == t;
    case TtvProcessCompleted => assert AllEventTypes[6] == t;
    case TtvProcessFailed => assert AllEventTypes[7] == t;
    case UserProfileUpdated => assert AllEventTypes[8] == t;
    case ConversationStarted => assert AllEventTypes[9] == t;
    case ConversationEnded => assert AllEventTypes[10] == t;
    case Custom => assert AllEventTypes[11] == t;
  }

  /** `Event(event_type, data, source, target)`: the type, source and target are
      stored as given; `data or {}` stores the mapping given, or `{}` for None. */
  function NewEvent(id: string, eventType: EventType, data: Option<Payload>,
                    source: Option<string>, target: Option<string>, now: real): (e: Event)
    ensures e.id == id && e.timestamp == now
    ensures e.eventType == eventType && e.source == source && e.target == target
    ensures data.Some? ==> e.data == data.value
    ensures data.None? ==> e.data == map[]
  {
    Event(id, eventType, data.GetOr(map[]), source, target, now)
  }

  /** The subscriber list the bus holds for `t` (empty when it holds none). */
  function Subscribers(b: Bus, t: EventType): seq<CallbackId> {
    if t in b.subscribers then b.subscribers[t] else []
  }

  /** `PubSub()`: stopped, nothing queued, and an empty list for every type. */
  function New(): (b: Bus)
    ensures !b.running && b.queue == [] && b.log == []
    ensures forall t: EventType :: t in b.subscribers && b.subscribers[t] == []
  {
    var b := Bus(map t | t in AllEventTypes :: [], [], false, []);
    assert forall t: EventType :: t in b.subscribers by {
      forall t: EventType ensures t in b.subscribers {
        EveryTypeListed(t);
      }
    }
    b
  }

  /** `start`: sets the running flag; a running bus is returned unchanged. */
  function Start(b: Bus): (r: Bus)
    ensures r.running
    ensures b.running ==> r == b
    ensures r.subscribers == b.subscribers && r.queue == b.queue && r.log == b.log
  {
    if b.running then b else b.(running := true)
  }

  /** `stop`: clears the running flag and nothing else; the queue is kept. */
  function Stop(b: Bus): (r: Bus)
    ensures !r.running
    ensures !b.running ==> r == b
    ensures r.subscribers == b.subscribers && r.queue == b.queue && r.log == b.log
  {
    b.(running := false)
  }

  /** `subscribe`: appends the callback to the end of the type's list (creating
      the list when missing), keeping duplicates; every other list is untouched. */
  function Subscribe(b: Bus, t: EventType, cb: CallbackId): (r: Bus)
    ensures Subscribers(r, t) == Subscribers(b, t) + [cb]
    ensures forall u :: u != t ==> Subscribers(r, u) == Subscribers(b, u)
    ensures r.subscribers.Keys == b.subscribers.Keys + {t}
    ensures r.queue == b.queue && r.running == b.running && r.log == b.log
  {
    var existing := if t in b.subscribers then b.subscribers[t] else [];
    b.(subscribers := b.subscribers[t := existing + [cb]])
  }

  /** The index of the first occurrence of `x` in `s`. */
  function IndexOf(s: seq<CallbackId>, x: CallbackId): (i: nat)
    requires x in s
    ensures i < |s| && s[i] == x && x !in s[..i]
  {
    if s[0] == x then 0 else 1 + IndexOf(s[1..], x)
  }

  /** `list.remove(x)` guarded by `x in list`: drops the first occurrence of `x`,
      and only it, or returns `s` when `x` is absent. */
  function RemoveFirst(s: seq<CallbackId>, x: CallbackId): (r: seq<CallbackId>)
    ensures x !in s ==> r == s
    ensures x in s ==> r == s[..IndexOf(s, x)] + s[IndexOf(s, x) + 1..]
    ensures multiset(r) == multiset(s) - multiset{x}
  {
    if s == [] then []
    else if s[0] == x then
      RemoveFirstHead(s, x);
      s[1..]
    else
      var rest := RemoveFirst(s[1..], x);
      RemoveFirstStep(s, x, rest);
      [s[0]] + rest
  }

  /** The base case of `RemoveFirst`: the head is the first occurrence. */
  lemma RemoveFirstHead(s: seq<CallbackId>, x: CallbackId)
    requires s != [] && s[0] == x
    ensures x in s && IndexOf(s, x) == 0
    ensures s[1..] == s[..0] + s[1..]
    ensures multiset(s[1..]) == multiset(s) - multiset{x}
  {
    assert s == [x] + s[1..];
  }

  /** The inductive step of `RemoveFirst` when the head is kept. */
  lemma RemoveFirstStep(s: seq<CallbackId>, x: CallbackId, rest: seq<CallbackId>)
    requires s != [] && s[0] != x
    requires x !in s[1..] ==> rest == s[1..]
    requires x in s[1..] ==> rest == s[1..][..IndexOf(s[1..], x)] + s[1..][IndexOf(s[1..], x) + 1..]
    requires multiset(rest) == multiset(s[1..]) - multiset{x}
    ensures x !in s ==> [s[0]] + rest == s
    ensures x in s ==> [s[0]] + rest == s[..IndexOf(s, x)] + s[IndexOf(s, x) + 1..]
    ensures multiset([s[0]] + rest) == multiset(s) - multiset{x}
  {
    assert s == [s[0]] + s[1..];
    if x in s {
      RemoveFirstKeepsHead(s, x, rest);
    }
    MultisetConsMinus(s[0], s[1..], x, rest);
  }

  lemma RemoveFirstKeepsHead(s: seq<CallbackId>, x: CallbackId, rest: seq<CallbackId>)
    requires s != [] && s[0] != x && x in s
    requires rest == s[1..][..IndexOf(s[1..], x)] + s[1..][IndexOf(s[1..], x) + 1..]
    ensures [s[0]] + rest == s[..IndexOf(s, x)] + s[IndexOf(s, x) + 1..]
  {
    var h, t := s[0], s[1..];
    var j := IndexOf(t, x);
    assert IndexOf(s, x) == 1 + j;
    assert s[..1 + j] == [h] + t[..j];
    assert s[2 + j..] == t[j + 1..];
    AppendAssoc([h], t[..j], t[j + 1..]);
  }

  lemma MultisetConsMinus(h: CallbackId, t: seq<CallbackId>, x: CallbackId, rest: seq<CallbackId>)
    requires h != x
    requires multiset(rest) == multiset(t) - multiset{x}
    ensures multiset([h] + rest) == multiset([h] + t) - multiset{x}
  {
    assert multiset([h] + rest) == multiset{h} + multiset(rest);
    assert multiset([h] + t) == multiset{h} + multiset(t);
  }

  /** `unsubscribe`: removes the first occurrence of the callback from the
      type's list when present; otherwise the bus is unchanged. */
  function Unsubscribe(b: Bus, t: EventType, cb: CallbackId): (r: Bus)
    ensures cb !in Subscribers(b, t) ==> r == b
    ensures cb in Subscribers(b, t) ==>
      var s := Subscribers(b, t);
      Subscribers(r, t) == s[..IndexOf(s, cb)] + s[IndexOf(s, cb) + 1..]
    ensures multiset(Subscribers(r, t)) == multiset(Subscribers(b, t)) - multiset{cb}
    ensures forall u :: u != t ==> Subscribers(r, u) == Subscribers(b, u)
    ensures r.queue == b.queue && r.running == b.running && r.log == b.log
  {
    var s := Subscribers(b, t);
    if cb in s then
      var r := b.(subscribers := b.subscribers[t := RemoveFirst(s, cb)]);
      RemovedFromList(b, t, cb, r);
      r
    else
      MultisetMinusAbsent(s, cb);
      b
  }

  /** Replacing one type's list by the list without the callback removes
      its first occurrence there and leaves every other type's list, the
      queue, the state and the log as they were. */
  lemma RemovedFromList(b: Bus, t: EventType, cb: CallbackId, r: Bus)
    requires cb in Subscribers(b, t)
    requires r == b.(subscribers := b.subscribers[t := RemoveFirst(Subscribers(b, t), cb)])
    ensures var s := Subscribers(b, t);
      Subscribers(r, t) == s[..IndexOf(s, cb)] + s[IndexOf(s, cb) + 1..]
    ensures multiset(Subscribers(r, t)) == multiset(Subscribers(b, t)) - multiset{cb}
    ensures forall u :: u != t ==> Subscribers(r, u) == Subscribers(b, u)
    ensures r.queue == b.queue && r.running == b.running && r.log == b.log
  {
    ReplaceList(b, t, RemoveFirst(Subscribers(b, t), cb));
  }

  /** Replacing one type's list leaves every other type's list as it was. */
  lemma ReplaceList(b: Bus, t: EventType, l: seq<CallbackId>)
    ensures var r := b.(subscribers := b.subscribers[t := l]);
      && Subscribers(r, t) == l
      && (forall u :: u != t ==> Subscribers(r, u) == Subscribers(b, u))
  {
  }

  lemma MultisetMinusAbsent(s: seq<CallbackId>, x: CallbackId)
    requires x !in s
    ensures multiset(s) - multiset{x} == multiset(s)
  {
    assert multiset(s)[x] == 0;
  }

  /** `publish`: puts the event at the back of the queue; nothing else changes. */
  function Publish(b: Bus, e: Event): (r: Bus)
    ensures r.queue == b.queue + [e]
    ensures r.subscribers == b.subscribers && r.running == b.running && r.log == b.log
  {
    b.(queue := b.queue + [e])
  }

  /** The calls `_dispatch_event` makes: each listed callback, in list order,
      once per occurrence, whether or not an earlier one raised. */
  function Deliveries(cbs: seq<CallbackId>, e: Event, raises: Raises): (ds: seq<Delivery>)
    ensures |ds| == |cbs|
    ensures forall i :: 0 <= i < |ds| ==>
      ds[i].callback == cbs[i] && ds[i].event == e && ds[i].raised == raises(cbs[i], e)
  {
    if cbs == [] then []
    else [Delivery(cbs[0], e, raises(cbs[0], e))] + Deliveries(cbs[1..], e, raises)
  }

  /** `_dispatch_event`: calls the list held for the event's type at dispatch time. */
  function DispatchEvent(b: Bus, e: Event, raises: Raises): Bus {
    b.(log := b.log + Deliveries(Subscribers(b, e.eventType), e, raises))
  }

  /** One iteration of `_process_events`: while running, takes the front event
      and dispatches it; with an empty queue (the `get` timeout) or a stopped
      bus, nothing happens. */
  function Step(b: Bus, raises: Raises): (r: Bus)
    ensures !b.running || b.queue == [] ==> r == b
    ensures b.running && b.queue != [] ==> r.queue == b.queue[1..]
    ensures r.subscribers == b.subscribers && r.running == b.running
    ensures |b.log| <= |r.log| && r.log[..|b.log|] == b.log
  {
    if b.running && b.queue != [] then
      DispatchEvent(b.(queue := b.queue[1..]), b.queue[0], raises)
    else
      b
  }

  /** `n` iterations of the worker loop. */
  function Run(b: Bus, raises: Raises, n: nat): (r: Bus)
    ensures r.subscribers == b.subscribers && r.running == b.running
    ensures |b.log| <= |r.log| && r.log[..|b.log|] == b.log
    decreases n
  {
    if n == 0 then b else Run(Step(b, raises), raises, n - 1)
  }

  /** Every delivery for the events of `q`, dispatched one after another. */
  function AllDeliveries(subs: map<EventType, seq<CallbackId>>, q: seq<Event>,
                         raises: Raises): seq<Delivery>
  {
    if q == [] then []
    else
      var cbs := if q[0].eventType in subs then subs[q[0].eventType] else [];
      Deliveries(cbs, q[0], raises) + AllDeliveries(subs, q[1..], raises)
  }

  function CallbacksOf(ds: seq<Delivery>): seq<CallbackId> {
    seq(|ds|, i requires 0 <= i < |ds| => ds[i].callback)
  }

  function EventsOf(ds: seq<Delivery>): seq<Event> {
    seq(|ds|, i requires 0 <= i < |ds| => ds[i].event)
  }

  /** A delivery with its outcome forgotten: which callback got which event. */
  function CallsOf(ds: seq<Delivery>): seq<(CallbackId, Event)> {
    seq(|ds|, i requires 0 <= i < |ds| => (ds[i].callback, ds[i].event))
  }

  /** The deliveries a step added to the log. */
  function NewDeliveries(b: Bus, raises: Raises): seq<Delivery> {
    Step(b, raises).log[|b.log|..]
  }

  /** Dispatching the front event calls exactly the callbacks listed for its
      type at dispatch time, in list order, once per occurrence, all with that
      event; a callback not listed for the type is never called. */
  lemma DispatchCallsListedCallbacks(b: Bus, raises: Raises, cb: CallbackId)
    requires b.running && b.queue != []
    ensures CallbacksOf(NewDeliveries(b, raises)) == Subscribers(b, b.queue[0].eventType)
    ensures forall d :: d in NewDeliveries(b, raises) ==> d.event == b.queue[0]
    ensures cb !in Subscribers(b, b.queue[0].eventType) ==>
      forall d :: d in NewDeliveries(b, raises) ==> d.callback != cb
  {
    var e := b.queue[0];
    var ds := Deliveries(Subscribers(b, e.eventType), e, raises);
    assert Step(b, raises).log == b.log + ds;
    assert NewDeliveries(b, raises) == ds;
    forall d | d in ds && cb !in Subscribers(b, e.eventType)
      ensures d.callback != cb
    {
      var i :| 0 <= i < |ds| && ds[i] == d;
      assert d.callback == Subscribers(b, e.eventType)[i];
    }
  }

  /** Failure isolation: whichever callbacks raise, any number of steps make
      the same calls and leave the same queue, so a raising callback stops
      neither later callbacks for the same event nor later events. */
  lemma RaisingDoesNotChangeRun(b: Bus, r1: Raises, r2: Raises, n: nat)
    ensures CallsOf(Run(b, r1, n).log) == CallsOf(Run(b, r2, n).log)
    ensures Run(b, r1, n).queue == Run(b, r2, n).queue
  {
    RaisingRunFrom(b, b, r1, r2, n);
  }

  /** Two buses that differ only in the outcomes recorded in their logs run
      the same calls. */
  lemma {:induction false} RaisingRunFrom(a: Bus, c: Bus, r1: Raises, r2: Raises, n: nat)
    requires a.queue == c.queue && a.subscribers == c.subscribers && a.running == c.running
    requires CallsOf(a.log) == CallsOf(c.log)
    ensures CallsOf(Run(a, r1, n).log) == CallsOf(Run(c, r2, n).log)
    ensures Run(a, r1, n).queue == Run(c, r2, n).queue
    decreases n
  {
    if n > 0 {
      var a', c' := Step(a, r1), Step(c, r2);
      assert |a.log| == |c.log|;
      var da, dc := a'.log[|a.log|..], c'.log[|c.log|..];
      if a.running && a.queue != [] {
        var e := a.queue[0];
        assert a'.log == a.log + Deliveries(Subscribers(a, e.eventType), e, r1);
        assert c'.log == c.log + Deliveries(Subscribers(c, e.eventType), e, r2);
      }
      assert |a'.log| == |c'.log|;
      forall i | 0 <= i < |a'.log|
        ensures CallsOf(a'.log)[i] == CallsOf(c'.log)[i]
      {
        if i < |a.log| {
          assert a'.log[i] == a.log[i] && c'.log[i] == c.log[i];
          assert CallsOf(a.log)[i] == CallsOf(c.log)[i];
        }
      }
      RaisingRunFrom(a', c', r1, r2, n - 1);
    }
  }

  /** The bus never reads `target`: a step on a targeted front event calls
      the same callbacks as on the same event with any other target. */
  lemma TargetIsIgnored(b: Bus, raises: Raises, target: Option<string>)
    requires b.running && b.queue != []
    ensures
      var b' := b.(queue := [b.queue[0].(target := target)] + b.queue[1..]);
      CallbacksOf(NewDeliveries(b', raises)) == CallbacksOf(NewDeliveries(b, raises))
  {
    var b' := b.(queue := [b.queue[0].(target := target)] + b.queue[1..]);
    DispatchCallsListedCallbacks(b, raises, 0);
    DispatchCallsListedCallbacks(b', raises, 0);
  }

  /** Draining: `|queue|` steps of a running bus dispatch the queued events
      front to back and leave the queue empty. */
  lemma {:induction false} DrainDispatchesInOrder(b: Bus, raises: Raises)
    requires b.running
    ensures Run(b, raises, |b.queue|).queue == []
    ensures Run(b, raises, |b.queue|).log == b.log + AllDeliveries(b.subscribers, b.queue, raises)
    decreases |b.queue|
  {
    if b.queue == [] {
      assert b.log + [] == b.log;
    } else {
      var s := StepFront(b, raises);
      DrainDispatchesInOrder(s, raises);
      DrainStep(b, raises, s, Run(b, raises, |b.queue|), Run(s, raises, |s.queue|));
    }
  }

  /** The inductive step of draining: after the first step, the rest of the
      queue delivers its events behind the first event's deliveries. `rb` and
      `rs` are what draining from `b` and from the first step's bus give. */
  lemma DrainStep(b: Bus, raises: Raises, s: Bus, rb: Bus, rs: Bus)
    requires b.queue != [] && s.queue == b.queue[1..] && s.subscribers == b.subscribers
    requires s.log == b.log + Deliveries(Subscribers(b, b.queue[0].eventType), b.queue[0], raises)
    requires rb == rs && rs.queue == []
    requires rs.log == s.log + AllDeliveries(s.subscribers, s.queue, raises)
    ensures rb.queue == []
    ensures rb.log == b.log + AllDeliveries(b.subscribers, b.queue, raises)
  {
    var first := Deliveries(Subscribers(b, b.queue[0].eventType), b.queue[0], raises);
    var rest := AllDeliveries(b.subscribers, b.queue[1..], raises);
    assert AllDeliveries(b.subscribers, b.queue, raises) == first + rest;
    AppendAssoc(b.log, first, rest);
  }

  /** One step of a running bus with a queued event: the front event leaves
      the queue and its deliveries join the log. */
  lemma StepFront(b: Bus, raises: Raises) returns (s: Bus)
    requires b.running && b.queue != []
    ensures s == Step(b, raises)
    ensures s.running && s.subscribers == b.subscribers && s.queue == b.queue[1..]
    ensures s.log == b.log + Deliveries(Subscribers(b, b.queue[0].eventType), b.queue[0], raises)
    ensures Run(b, raises, |b.queue|) == Run(s, raises, |s.queue|)
    ensures AllDeliveries(b.subscribers, b.queue, raises) ==
      Deliveries(Subscribers(b, b.queue[0].eventType), b.queue[0], raises)
      + AllDeliveries(b.subscribers, b.queue[1..], raises)
  {
    s := Step(b, raises);
  }

  /** FIFO: a callback that is the only subscriber of every queued event's
      type sees the events in publish order, each once. */
  lemma {:induction false} SoleSubscriberSeesPublishOrder(b: Bus, raises: Raises, cb: CallbackId)
    requires b.running
    requires forall i :: 0 <= i < |b.queue| ==> Subscribers(b, b.queue[i].eventType) == [cb]
    ensures
      var ds := Run(b, raises, |b.queue|).log[|b.log|..];
      EventsOf(ds) == b.queue && forall d :: d in ds ==> d.callback == cb
  {
    DrainDispatchesInOrder(b, raises);
    SoleSubscriberDeliveries(b.subscribers, b.queue, raises, cb);
  }

  lemma {:induction false} SoleSubscriberDeliveries(subs: map<EventType, seq<CallbackId>>,
                                                    q: seq<Event>, raises: Raises, cb: CallbackId)
    requires forall i :: 0 <= i < |q| ==>
      (if q[i].eventType in subs then subs[q[i].eventType] else []) == [cb]
    ensures EventsOf(AllDeliveries(subs, q, raises)) == q
    ensures forall d :: d in AllDeliveries(subs, q, raises) ==> d.callback == cb
    decreases |q|
  {
    if q != [] {
      assert (if q[0].eventType in subs then subs[q[0].eventType] else []) == [cb];
      var first := Deliveries([cb], q[0], raises);
      var rest := AllDeliveries(subs, q[1..], raises);
      SoleSubscriberDeliveries(subs, q[1..], raises, cb);
      assert AllDeliveries(subs, q, raises) == first + rest;
      EventsOfAppend(first, rest);
      assert EventsOf(first) == [q[0]];
      assert q == [q[0]] + q[1..];
    }
  }

  lemma EventsOfAppend(a: seq<Delivery>, b: seq<Delivery>)
    ensures EventsOf(a + b) == EventsOf(a) + EventsOf(b)
  {
  }

  /** Stopping keeps the queue, so events pending at `stop` are dispatched,
      in order, after a later `start`. */
  lemma PendingEventsSurviveRestart(b: Bus, raises: Raises)
    ensures Run(Start(Stop(b)), raises, |b.queue|).queue == []
    ensures Run(Start(Stop(b)), raises, |b.queue|).log ==
      b.log + AllDeliveries(b.subscribers, b.queue, raises)
  {
    DrainDispatchesInOrder(Start(Stop(b)), raises);
  }

  /** A stopped bus dispatches nothing, however many steps pass. */
  lemma {:induction false} StoppedBusIsIdle(b: Bus, raises: Raises, n: nat)
    requires !b.running
    ensures Run(b, raises, n) == b
    decreases n
  {
    if n > 0 {
      StoppedBusIsIdle(Step(b, raises), raises, n - 1);
    }
  }

  /** Removing the only occurrence of `x` after appending it gives back the list. */
  lemma {:induction false} RemoveFirstAfterAppend(s: seq<CallbackId>, x: CallbackId)
    requires x !in s
    ensures RemoveFirst(s + [x], x) == s
  {
    assert (s + [x])[..|s|] == s;
  }

  /** `unsubscribe` undoes a `subscribe` of a callback not yet listed. */
  lemma UnsubscribeUndoesSubscribe(b: Bus, t: EventType, cb: CallbackId)
    requires t in b.subscribers && cb !in b.subscribers[t]
    ensures Unsubscribe(Subscribe(b, t, cb), t, cb) == b
  {
    RemoveFirstAfterAppend(b.subscribers[t], cb);
    assert b.subscribers[t := b.subscribers[t]] == b.subscribers;
  }

  /** After `unsubscribe` of a callback listed once, dispatching any event of
      that type no longer calls it, and earlier deliveries stay in the log. */
  lemma UnsubscribeStopsDelivery(b: Bus, t: EventType, cb: CallbackId, raises: Raises)
    requires multiset(Subscribers(b, t))[cb] == 1
    ensures
      var u := Unsubscribe(b, t, cb);
      cb !in Subscribers(u, t) && u.log == b.log
    ensures
      var u := Unsubscribe(b, t, cb);
      u.running && u.queue != [] && u.queue[0].eventType == t ==>
        forall d :: d in NewDeliveries(u, raises) ==> d.callback != cb
  {
    var u := Unsubscribe(b, t, cb);
    assert multiset(Subscribers(u, t))[cb] == 0;
    if u.running && u.queue != [] && u.queue[0].eventType == t {
      DispatchCallsListedCallbacks(u, raises, cb);
    }
  }

  /** `get_pubsub`: builds and starts a bus on the first call only; afterwards
      returns the stored instance unchanged. The second component is the
      module-level `_instance` after the call. */
  function GetPubSub(instance: Option<Bus>): (res: (Bus, Option<Bus>))
    ensures res.1 == Some(res.0)
    ensures instance.None? ==> res.0 == Start(New())
    ensures instance.Some? ==> res.0 == instance.value
  {
    match instance
    case None =>
      var b := Start(New());
      (b, Some(b))
    case Some(b) => (b, instance)
  }

  /** In a process that makes no other bus call, every `get_pubsub` returns
      the bus the first call built and stored: running, with no subscribers
      and nothing queued. */
  lemma {:induction false} GetPubSubIsStable(calls: nat)
    ensures GetPubSub(StoredAfter(calls)).0 == Start(New())
    ensures GetPubSub(StoredAfter(calls)).0.running
    ensures StoredAfter(calls + 1) == Some(Start(New()))
    decreases calls
  {
    if calls > 0 {
      GetPubSubIsStable(calls - 1);
    }
  }

  /** The shared instance is returned in whatever state its callers left it:
      once it has been stopped, `get_pubsub` hands back a stopped bus that
      keeps its subscriptions and queue, and does not start it again. */
  lemma GetPubSubDoesNotRestart(b: Bus)
    ensures !GetPubSub(Some(Stop(b))).0.running
    ensures GetPubSub(Some(Stop(b))).0.subscribers == b.subscribers
    ensures GetPubSub(Some(Stop(b))).0.queue == b.queue
  {
  }

  /** The module-level `_instance` after `n` calls of `get_pubsub` in a fresh
      process; None before the first call. */
  function StoredAfter(n: nat): Option<Bus>
    decreases n
  {
    if n == 0 then None
    else GetPubSub(StoredAfter(n - 1)).1
  }
}
