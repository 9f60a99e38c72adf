/** The forwarding loop of the gossip engine. Messages received from the network are queued
    and pushed into the channels ("sinks") of the subscribers of their topic. A channel may be
    full, may be drained by its receiver, and may be closed by dropping the receiver, all at
    any moment between two accesses of the loop. */
module GossipEngine {
  import opened Types

  type Topic = nat
  type Msg = seq<byte>
  type SinkId = nat
  type Item = (Topic, Msg)

  /** A message accepted from the network, and whether the state machine stores it. */
  datatype Accepted = Accepted(item: Item, keep: bool)

  /** A stored message. `origin` is its position in the history, unless it is our own. */
  datatype Kept = Kept(item: Item, origin: Option<nat>)

  /** The sending half of a channel: what was sent, whether it takes one more message now, and
      whether the receiver is alive. */
  datatype Sink = Sink(topic: Topic, received: seq<Msg>, room: bool, open: bool)

  datatype Forwarding = Idle | Busy(queue: seq<Item>)

  /** Where `poll` is. `Parked` is between two calls, `Done` after the event stream ended. */
  datatype Pc =
    | Parked
    | Top
    | Checking(item: Item, i: nat)
    | Filtering(item: Item)
    | Sending(item: Item, i: nat)
    | Ending
    | Done
    | Panicked

  /** `stored` are the messages that the state machine keeps. `history` is everything ever
      accepted from the network, `done` how much of it has been dealt with; `start` and `initial`
      are taken when a sink is registered. */
  datatype State = State(
    pc: Pc,
    forwarding: Forwarding,
    registry: map<Topic, seq<SinkId>>,
    sinks: map<SinkId, Sink>,
    stored: seq<Kept>,
    history: seq<Item>,
    done: nat,
    start: map<SinkId, nat>,
    initial: map<SinkId, seq<Kept>>)

  const INIT := State(Parked, Idle, map[], map[], [], [], 0, map[], map[])

  /** `Last` is a batch that arrives together with the end of the other event stream. */
  datatype NetEvent =
    | Pending
    | Nothing
    | Notifications(batch: seq<Accepted>)
    | Last(batch: seq<Accepted>)
    | Closed

  datatype Move =
    | Poll                                // `poll` is called
    | Event(event: NetEvent)              // both event streams are polled
    | Pop                                 // take the next item
    | Check                               // poll one sink for readiness
    | Filter                              // drop the closed sinks of the topic
    | Send(full: bool)                    // send on one sink, after which it may be full
    | Maintain(expired: Item -> bool)     // periodic clean-up of closed sinks and old messages
    | Park                                // `poll` returns
    | Subscribe(id: SinkId, topic: Topic, room: bool)
    | Store(item: Item)                   // the upper layer registers a message of its own
    | Drain(id: SinkId)                   // a receiver takes messages out
    | Close(id: SinkId)                   // a receiver is dropped

  function Registered(s: State, t: Topic): seq<SinkId> {
    if t in s.registry then s.registry[t] else []
  }

  predicate IsOpen(s: State, id: SinkId) {
    id in s.sinks && s.sinks[id].open
  }

  /** The sinks of the list that are still open, in order. */
  function OpenOnes(s: State, ids: seq<SinkId>): (r: seq<SinkId>)
    ensures forall id :: id in r <==> id in ids && IsOpen(s, id)
  {
    if ids == [] then []
    else
      var front, last := ids[..|ids| - 1], ids[|ids| - 1];
      assert ids == front + [last];
      OpenOnes(s, front) + if IsOpen(s, last) then [last] else []
  }

  // ---- the accesses of the loop ----

  function Items(batch: seq<Accepted>): (r: seq<Item>)
    ensures |r| == |batch| && forall i :: 0 <= i < |batch| ==> r[i] == batch[i].item
  {
    if batch == [] then [] else Items(batch[..|batch| - 1]) + [batch[|batch| - 1].item]
  }

  /** What is stored of a batch whose first message has position `from`. */
  function KeptOf(batch: seq<Accepted>, from: nat): seq<Kept> {
    if batch == [] then []
    else
      var n := |batch| - 1;
      KeptOf(batch[..n], from) + if batch[n].keep then [Kept(batch[n].item, Some(from + n))] else []
  }

  /** The stored messages with the given property, in order. */
  function Where(kept: seq<Kept>, f: Item -> bool): seq<Kept> {
    if kept == [] then []
    else
      var n := |kept| - 1;
      Where(kept[..n], f) + if f(kept[n].item) then [kept[n]] else []
  }

  /** `messages_for`: what a new subscriber of the topic is given. */
  function PastOf(kept: seq<Kept>, t: Topic): seq<Kept> {
    Where(kept, (item: Item) => item.0 == t)
  }

  function Msgs(kept: seq<Kept>): seq<Msg> {
    if kept == [] then [] else Msgs(kept[..|kept| - 1]) + [kept[|kept| - 1].item.1]
  }

  function Accept(s: State, batch: seq<Accepted>): State {
    s.(forwarding := Busy(Items(batch)), history := s.history + Items(batch),
       stored := s.stored + KeptOf(batch, |s.history|))
  }

  /** Idle: take an event. A batch of notifications makes the engine busy. */
  function TakeEvent(s: State, e: NetEvent): State {
    match e
    case Pending => s.(pc := Ending)
    case Nothing => s
    case Notifications(batch) => Accept(s, batch)
    case Last(batch) => Accept(s, batch).(pc := Done)
    case Closed => s.(pc := Done)
  }

  /** Busy: take the next item; go idle when there is none, skip a topic nobody listens to. */
  function PopItem(s: State): State
    requires s.forwarding.Busy?
  {
    var q := s.forwarding.queue;
    if q == [] then s.(forwarding := Idle)
    else if q[0].0 !in s.registry then s.(forwarding := Busy(q[1..]), done := s.done + 1)
    else s.(forwarding := Busy(q[1..]), pc := Checking(q[0], 0))
  }

  /** One sink that is full sends the item back to the queue and ends the call. */
  function CheckSink(s: State, item: Item, i: nat): State
    requires s.forwarding.Busy?
  {
    var ids := Registered(s, item.0);
    if i >= |ids| then s.(pc := Filtering(item))
    else if ids[i] in s.sinks && s.sinks[ids[i]].open && !s.sinks[ids[i]].room then
      s.(forwarding := Busy([item] + s.forwarding.queue), pc := Ending)
    else s.(pc := Checking(item, i + 1))
  }

  function FilterSinks(s: State, item: Item): State {
    var ids := OpenOnes(s, Registered(s, item.0));
    if ids == [] then s.(registry := s.registry - {item.0}, pc := Top, done := s.done + 1)
    else s.(registry := s.registry[item.0 := ids], pc := Sending(item, 0))
  }

  /** Sending on a closed sink is an ignored error; on a full one it is declared unreachable. */
  function SendOne(s: State, item: Item, i: nat, full: bool): State {
    var ids := Registered(s, item.0);
    if i >= |ids| then s.(pc := Top, done := s.done + 1)
    else if ids[i] !in s.sinks || !s.sinks[ids[i]].open then s.(pc := Sending(item, i + 1))
    else if !s.sinks[ids[i]].room then s.(pc := Panicked)
    else
      var sink := s.sinks[ids[i]];
      s.(sinks := s.sinks[ids[i] := sink.(received := sink.received + [item.1], room := !full)],
         pc := Sending(item, i + 1))
  }

  function CleanRegistry(s: State): map<Topic, seq<SinkId>> {
    map t | t in s.registry && OpenOnes(s, s.registry[t]) != [] :: OpenOnes(s, s.registry[t])
  }

  function AddSink(s: State, id: SinkId, t: Topic, room: bool): State {
    var past := PastOf(s.stored, t);
    s.(registry := s.registry[t := Registered(s, t) + [id]],
       sinks := s.sinks[id := Sink(t, Msgs(past), room, true)],
       start := s.start[id := s.done],
       initial := s.initial[id := past])
  }

  /** The state after one access, or `None` when that access cannot come next. */
  function Step(s: State, m: Move): Option<State> {
    match m
    case Poll => if s.pc.Parked? then Some(s.(pc := Top)) else None
    case Event(e) => if s.pc.Top? && s.forwarding.Idle? then Some(TakeEvent(s, e)) else None
    case Pop => if s.pc.Top? && s.forwarding.Busy? then Some(PopItem(s)) else None
    case Check => if s.pc.Checking? && s.forwarding.Busy? then Some(CheckSink(s, s.pc.item, s.pc.i)) else None
    case Filter => if s.pc.Filtering? then Some(FilterSinks(s, s.pc.item)) else None
    case Send(full) => if s.pc.Sending? then Some(SendOne(s, s.pc.item, s.pc.i, full)) else None
    case Maintain(expired) =>
      if s.pc.Ending? then
        Some(s.(registry := CleanRegistry(s), stored := Where(s.stored, (item: Item) => !expired(item))))
      else None
    case Park => if s.pc.Ending? then Some(s.(pc := Parked)) else None
    case Subscribe(id, t, room) =>
      if s.pc.Parked? && id !in s.sinks then Some(AddSink(s, id, t, room)) else None
    case Store(item) => if s.pc.Parked? then Some(s.(stored := s.stored + [Kept(item, None)])) else None
    case Drain(id) => if id in s.sinks then Some(s.(sinks := s.sinks[id := s.sinks[id].(room := true)])) else None
    case Close(id) => if id in s.sinks then Some(s.(sinks := s.sinks[id := s.sinks[id].(open := false)])) else None
  }

  function Run(s: State, moves: seq<Move>): Option<State>
    decreases |moves|
  {
    if moves == [] then Some(s)
    else
      match Step(s, moves[0])
      case None => None
      case Some(s') => Run(s', moves[1..])
  }

  // ---- what every sink gets ----

  /** The messages of topic `t`, in order. */
  function For(items: seq<Item>, t: Topic): seq<Msg> {
    if items == [] then []
    else For(items[..|items| - 1], t) + if items[|items| - 1].0 == t then [items[|items| - 1].1] else []
  }

  /** The item in hand has already been sent to this sink. */
  predicate SentCurrent(s: State, id: SinkId) {
    && s.pc.Sending?
    && var ids := Registered(s, s.pc.item.0); id in ids[..Min(s.pc.i, |ids|)]
  }

  /** How far into the history this sink has been served. */
  function ServedTo(s: State, id: SinkId): nat {
    s.done + if SentCurrent(s, id) then 1 else 0
  }

  /** An open sink is registered under its topic and received exactly the messages of that
      topic dealt with since its registration. */
  ghost predicate SinkExact(s: State, id: SinkId) {
    && id in s.sinks && id in s.start && id in s.initial
    && s.start[id] <= ServedTo(s, id) <= |s.history|
    && (s.sinks[id].open ==>
          && id in Registered(s, s.sinks[id].topic)
          && s.sinks[id].received ==
               Msgs(s.initial[id]) + For(s.history[s.start[id]..ServedTo(s, id)], s.sinks[id].topic))
  }

  ghost predicate Sinks(s: State) {
    forall id :: id in s.sinks ==> SinkExact(s, id)
  }

  ghost predicate Registry(s: State) {
    && (forall t :: NoDup(Registered(s, t)))
    && (forall t, id :: id in Registered(s, t) ==> id in s.sinks && s.sinks[id].topic == t)
  }

  /** The queue is what has not been dealt with yet, less the item in hand. */
  ghost predicate Queue(s: State) {
    && s.done <= |s.history|
    && (s.forwarding.Idle? ==> s.done == |s.history| && !s.pc.Checking? && !s.pc.Filtering? && !s.pc.Sending?)
    && (s.forwarding.Busy? ==>
          if s.pc.Checking? || s.pc.Filtering? || s.pc.Sending?
          then s.done < |s.history| && s.history[s.done] == s.pc.item && s.forwarding.queue == s.history[s.done + 1..]
          else s.forwarding.queue == s.history[s.done..])
  }

  ghost predicate HasRoom(s: State, id: SinkId) {
    IsOpen(s, id) ==> s.sinks[id].room
  }

  /** The sinks already polled, and still to be sent to, can take a message. */
  ghost predicate Ready(s: State) {
    match s.pc
    case Checking(item, i) =>
      forall j :: 0 <= j < i && j < |Registered(s, item.0)| ==> HasRoom(s, Registered(s, item.0)[j])
    case Filtering(item) => forall id :: id in Registered(s, item.0) ==> HasRoom(s, id)
    case Sending(item, i) =>
      forall j :: i <= j < |Registered(s, item.0)| ==> HasRoom(s, Registered(s, item.0)[j])
    case Panicked => false
    case _ => true
  }

  ghost predicate Inv(s: State) {
    Sinks(s) && Registry(s) && Queue(s) && Ready(s)
  }

  // ---- every access keeps the invariant ----

  lemma ForSnoc(h: seq<Item>, a: nat, b: nat, t: Topic)
    requires a <= b < |h|
    ensures For(h[a..b + 1], t) == For(h[a..b], t) + if h[b].0 == t then [h[b].1] else []
  {
    assert h[a..b + 1][..b - a] == h[a..b];
  }

  /** A step that changes neither sinks nor registry nor progress, for one sink. */
  lemma SinkFrame(s: State, s': State, id: SinkId)
    requires SinkExact(s, id) && id in s'.sinks
    requires s'.sinks[id].topic == s.sinks[id].topic && s'.sinks[id].received == s.sinks[id].received
    requires s'.sinks[id].open ==> s.sinks[id].open
    requires s'.start == s.start && s'.initial == s.initial && s.history <= s'.history
    requires ServedTo(s', id) == ServedTo(s, id)
    requires s'.sinks[id].open ==> id in Registered(s', s'.sinks[id].topic)
    ensures SinkExact(s', id)
  {
    assert s'.history[s.start[id]..ServedTo(s, id)] == s.history[s.start[id]..ServedTo(s, id)];
  }

  lemma RegistryFrame(s: State, s': State)
    requires Registry(s) && s'.registry == s.registry
    requires forall id :: id in s.sinks ==> id in s'.sinks && s'.sinks[id].topic == s.sinks[id].topic
    ensures Registry(s')
  {
    forall t ensures NoDup(Registered(s', t)) { assert NoDup(Registered(s, t)); }
    forall t, id | id in Registered(s', t)
      ensures id in s'.sinks && s'.sinks[id].topic == t
    {
      assert id in Registered(s, t);
    }
  }

  lemma TakeEventKeeps(s: State, e: NetEvent)
    requires Inv(s) && s.pc.Top? && s.forwarding.Idle?
    ensures Inv(TakeEvent(s, e))
  {
    hide For, Msgs;
    var s' := TakeEvent(s, e);
    RegistryFrame(s, s');
    assert e.Notifications? || e.Last? ==> s'.history[s.done..] == Items(e.batch);
    forall id | id in s'.sinks
      ensures SinkExact(s', id)
    {
      SinkFrame(s, s', id);
    }
  }

  lemma PopKeeps(s: State)
    requires Inv(s) && s.pc.Top? && s.forwarding.Busy?
    ensures Inv(PopItem(s))
  {
    hide For, Msgs;
    var s' := PopItem(s);
    var q := s.forwarding.queue;
    RegistryFrame(s, s');
    assert q != [] ==> q[0] == s.history[s.done] && q[1..] == s.history[s.done + 1..];
    forall id | id in s'.sinks
      ensures SinkExact(s', id)
    {
      assert SinkExact(s, id);
      if q == [] || q[0].0 in s.registry {
        SinkFrame(s, s', id);
      } else {
        ForSnoc(s.history, s.start[id], s.done, s.sinks[id].topic);
      }
    }
  }

  lemma CheckKeeps(s: State)
    requires Inv(s) && s.pc.Checking? && s.forwarding.Busy?
    ensures Inv(CheckSink(s, s.pc.item, s.pc.i))
  {
    hide For, Msgs;
    var s' := CheckSink(s, s.pc.item, s.pc.i);
    RegistryFrame(s, s');
    forall id | id in s'.sinks
      ensures SinkExact(s', id)
    {
      SinkFrame(s, s', id);
    }
    CheckReady(s);
    assert s.history[s.done..] == [s.history[s.done]] + s.history[s.done + 1..];
  }

  lemma CheckReady(s: State)
    requires Ready(s) && Registry(s) && s.pc.Checking? && s.forwarding.Busy?
    ensures Ready(CheckSink(s, s.pc.item, s.pc.i))
  {
    var ids := Registered(s, s.pc.item.0);
    if s.pc.i >= |ids| {
      forall id | id in ids
        ensures HasRoom(s, id)
      {
        var j :| 0 <= j < |ids| && ids[j] == id;
        assert HasRoom(s, ids[j]);
      }
    }
  }

  lemma {:induction false} OpenOnesNoDup(s: State, ids: seq<SinkId>)
    requires NoDup(ids)
    ensures NoDup(OpenOnes(s, ids))
  {
    if ids != [] {
      var front, last := ids[..|ids| - 1], ids[|ids| - 1];
      OpenOnesNoDup(s, front);
      assert last !in front;
      SnocNoDup(OpenOnes(s, front), last);
    }
  }

  /** Dropping closed sinks from a topic, or from all of them, keeps the registry right. */
  lemma CleanedRegistry(s: State, s': State)
    requires Registry(s) && s'.sinks == s.sinks
    requires forall t :: Registered(s', t) == Registered(s, t) || Registered(s', t) == OpenOnes(s, Registered(s, t))
    ensures Registry(s')
    ensures forall t, id :: id in Registered(s, t) && IsOpen(s, id) ==> id in Registered(s', t)
  {
    forall t
      ensures NoDup(Registered(s', t))
    {
      assert NoDup(Registered(s, t));
      OpenOnesNoDup(s, Registered(s, t));
    }
    forall t, id | id in Registered(s', t)
      ensures id in s'.sinks && s'.sinks[id].topic == t
    {
      assert id in Registered(s, t);
    }
  }

  lemma FilterKeeps(s: State)
    requires Inv(s) && s.pc.Filtering? && s.forwarding.Busy?
    ensures Inv(FilterSinks(s, s.pc.item))
    ensures forall id ::
              id in Registered(FilterSinks(s, s.pc.item), s.pc.item.0) <==>
                id in Registered(s, s.pc.item.0) && IsOpen(s, id)
  {
    hide For, Msgs, OpenOnes, SinkExact, Ready, Registry, Queue;
    var s' := FilterSinks(s, s.pc.item);
    FilterReady(s);
    FilterRegistry(s);
    NextIsQueued(s);
    QueueAfter(s, s');
    forall id | id in s'.sinks
      ensures SinkExact(s', id)
    {
      FilterKeepsSink(s, id);
    }
  }

  lemma FilterRegistry(s: State)
    requires Registry(s) && s.pc.Filtering?
    ensures Registry(FilterSinks(s, s.pc.item))
  {
    hide OpenOnes, Registry;
    CleanedRegistry(s, FilterSinks(s, s.pc.item));
  }

  /** With an item in hand, the queue is what comes after it. */
  lemma NextIsQueued(s: State)
    requires Queue(s) && s.forwarding.Busy? && (s.pc.Filtering? || s.pc.Sending?)
    ensures s.done < |s.history| && s.history[s.done] == s.pc.item && s.forwarding.queue == s.history[s.done + 1..]
  {
  }

  /** The queue is right again when the item in hand is kept or dealt with. */
  lemma QueueAfter(s: State, s': State)
    requires s.forwarding.Busy? && s'.forwarding == s.forwarding && s'.history == s.history
    requires s.pc.Filtering? || s.pc.Sending?
    requires s.done < |s.history| && s.history[s.done] == s.pc.item && s.forwarding.queue == s.history[s.done + 1..]
    requires if s'.pc.Filtering? || s'.pc.Sending? then s'.pc.item == s.pc.item && s'.done == s.done
             else s'.pc.Top? && s'.done == s.done + 1
    ensures Queue(s')
  {
  }

  lemma FilterReady(s: State)
    requires Ready(s) && s.pc.Filtering?
    ensures Ready(FilterSinks(s, s.pc.item))
  {
    hide OpenOnes;
    OpenOnesAre(s, Registered(s, s.pc.item.0));
    var s' := FilterSinks(s, s.pc.item);
    forall id | id in Registered(s', s.pc.item.0) && s'.pc.Sending?
      ensures HasRoom(s', id)
    {
      assert HasRoom(s, id);
    }
  }

  lemma FilterKeepsSink(s: State, id: SinkId)
    requires Queue(s) && SinkExact(s, id) && s.pc.Filtering? && s.forwarding.Busy?
    ensures SinkExact(FilterSinks(s, s.pc.item), id)
  {
    hide For, Msgs, OpenOnes;
    OpenOnesAre(s, Registered(s, s.pc.item.0));
    var s' := FilterSinks(s, s.pc.item);
    if s'.pc.Sending? {
      SinkFrame(s, s', id);
    } else {
      ForSnoc(s.history, s.start[id], s.done, s.sinks[id].topic);
    }
  }

  lemma OpenOnesAre(s: State, ids: seq<SinkId>)
    ensures forall id :: id in OpenOnes(s, ids) <==> id in ids && IsOpen(s, id)
  {
  }

  /** The heart of the matter: a send reaches a sink that has room, adds exactly the item in
      hand to exactly this sink, and leaves the sinks still to come ready. */
  lemma SendKeeps(s: State, full: bool)
    requires Inv(s) && s.pc.Sending? && s.forwarding.Busy?
    ensures Inv(SendOne(s, s.pc.item, s.pc.i, full))
  {
    hide For, Msgs, SinkExact, Registry, Queue;
    var s' := SendOne(s, s.pc.item, s.pc.i, full);
    SendReady(s, full);
    RegistryFrame(s, s');
    NextIsQueued(s);
    QueueAfter(s, s');
    forall id | id in s'.sinks
      ensures SinkExact(s', id)
    {
      SendKeepsSink(s, full, id);
    }
  }

  lemma SendReady(s: State, full: bool)
    requires Ready(s) && Registry(s) && s.pc.Sending?
    ensures Ready(SendOne(s, s.pc.item, s.pc.i, full))
  {
    var ids := Registered(s, s.pc.item.0);
    var i := s.pc.i;
    assert NoDup(ids);
    var s' := SendOne(s, s.pc.item, i, full);
    if i < |ids| {
      assert HasRoom(s, ids[i]);
      forall j | i + 1 <= j < |ids|
        ensures HasRoom(s', ids[j])
      {
        assert HasRoom(s, ids[j]) && ids[i] != ids[j];
      }
    }
  }

  /** Which sinks count as served before and after sending to the one at position `i`. */
  lemma SentCurrentStep(s: State, s': State, id: SinkId)
    requires Registry(s) && s.pc.Sending? && s'.registry == s.registry
    requires s.pc.i < |Registered(s, s.pc.item.0)| && s'.pc == Sending(s.pc.item, s.pc.i + 1)
    ensures SentCurrent(s', id) <==> SentCurrent(s, id) || id == Registered(s, s.pc.item.0)[s.pc.i]
    ensures !SentCurrent(s, Registered(s, s.pc.item.0)[s.pc.i])
  {
    var ids, i := Registered(s, s.pc.item.0), s.pc.i;
    assert NoDup(ids);
    assert ids[..i + 1] == ids[..i] + [ids[i]];
  }

  lemma SendKeepsSink(s: State, full: bool, id: SinkId)
    requires Inv(s) && s.pc.Sending? && s.forwarding.Busy? && id in s.sinks
    ensures SinkExact(SendOne(s, s.pc.item, s.pc.i, full), id)
  {
    hide For, Msgs, NoDup, Queue;
    var ids, i := Registered(s, s.pc.item.0), s.pc.i;
    var s' := SendOne(s, s.pc.item, i, full);
    assert SinkExact(s, id);
    NextIsQueued(s);
    if i >= |ids| {
      EndOfItem(s, s', id);
    } else {
      assert HasRoom(s, ids[i]);
      SentCurrentStep(s, s', id);
      if id == ids[i] {
        ForSnoc(s.history, s.start[id], s.done, s.sinks[id].topic);
      }
    }
  }

  /** After the last sink of the topic the item counts as dealt with for everybody. */
  lemma EndOfItem(s: State, s': State, id: SinkId)
    requires Inv(s) && s.pc.Sending? && s.forwarding.Busy? && id in s.sinks
    requires s.pc.i >= |Registered(s, s.pc.item.0)| && s' == s.(pc := Top, done := s.done + 1)
    ensures SinkExact(s', id)
  {
    hide For, Msgs;
    var ids := Registered(s, s.pc.item.0);
    assert SinkExact(s, id);
    assert ids[..Min(s.pc.i, |ids|)] == ids;
    if !SentCurrent(s, id) {
      ForSnoc(s.history, s.start[id], s.done, s.sinks[id].topic);
    }
  }

  /** Starting and ending a call of `poll`. */
  lemma CallKeeps(s: State, pc: Pc)
    requires Inv(s) && (s.pc.Parked? || s.pc.Ending?) && (pc.Top? || pc.Parked?)
    ensures Inv(s.(pc := pc))
  {
    hide For, Msgs;
    var s' := s.(pc := pc);
    RegistryFrame(s, s');
    forall id | id in s'.sinks ensures SinkExact(s', id) { SinkFrame(s, s', id); }
  }

  /** Exactly the open sinks stay registered, and no topic without any. */
  lemma MaintainCleans(s: State, expired: Item -> bool, t: Topic, id: SinkId)
    requires Step(s, Maintain(expired)).Some?
    ensures var s' := Step(s, Maintain(expired)).value;
            && (id in Registered(s', t) <==> id in Registered(s, t) && IsOpen(s, id))
            && (t in s'.registry ==> s'.registry[t] != []) && s'.sinks == s.sinks
  {
    if t in s.registry && id in OpenOnes(s, s.registry[t]) { assert OpenOnes(s, s.registry[t]) != []; }
  }

  lemma MaintainKeeps(s: State, stored: seq<Kept>)
    requires Inv(s) && s.pc.Ending?
    ensures Inv(s.(registry := CleanRegistry(s), stored := stored))
  {
    hide For, Msgs, OpenOnes, NoDup;
    var s' := s.(registry := CleanRegistry(s), stored := stored);
    forall t
      ensures Registered(s', t) == OpenOnes(s, Registered(s, t))
    {
      OpenOnesAre(s, Registered(s, t));
      if t !in s.registry { OpenOnesOfNone(s); }
    }
    CleanedRegistry(s, s');
    forall id | id in s'.sinks
      ensures SinkExact(s', id)
    {
      assert SinkExact(s, id);
      SinkFrame(s, s', id);
    }
  }

  lemma OpenOnesOfNone(s: State)
    ensures OpenOnes(s, []) == []
  {
  }

  lemma SubscribeRegistry(s: State, id: SinkId, t: Topic, room: bool)
    requires Registry(s) && id !in s.sinks
    ensures Registry(AddSink(s, id, t, room))
  {
    hide NoDup, PastOf, Msgs;
    var s' := AddSink(s, id, t, room);
    assert id !in Registered(s, t);
    forall u
      ensures NoDup(Registered(s', u))
    {
      assert NoDup(Registered(s, u));
      if u == t { SnocNoDup(Registered(s, t), id); }
    }
    forall u, x | x in Registered(s', u)
      ensures x in s'.sinks && s'.sinks[x].topic == u
    {
      assert x in Registered(s, u) || (x == id && u == t);
    }
  }

  lemma {:induction false} WhereIs(kept: seq<Kept>, f: Item -> bool)
    ensures forall k :: k in Where(kept, f) <==> k in kept && f(k.item)
  {
    if kept != [] {
      var n := |kept| - 1;
      assert kept == kept[..n] + [kept[n]];
      WhereIs(kept[..n], f);
    }
  }

  lemma PastIs(kept: seq<Kept>, t: Topic)
    ensures forall k :: k in PastOf(kept, t) <==> k in kept && k.item.0 == t
  {
    WhereIs(kept, (item: Item) => item.0 == t);
  }

  lemma SubscribeKeeps(s: State, id: SinkId, t: Topic, room: bool)
    requires Inv(s) && s.pc.Parked? && id !in s.sinks
    ensures Inv(AddSink(s, id, t, room))
    ensures var s' := AddSink(s, id, t, room);
            && IsOpen(s', id) && id in Registered(s', t)
            && (forall k :: k in s'.initial[id] <==> k in s.stored && k.item.0 == t)
            && (forall other :: other in s.sinks ==> s'.sinks[other] == s.sinks[other])
  {
    PastIs(s.stored, t);
    hide For, Registry, PastOf, Msgs;
    var s' := AddSink(s, id, t, room);
    SubscribeRegistry(s, id, t, room);
    forall x | x in s'.sinks
      ensures SinkExact(s', x)
    {
      if x == id {
        assert s'.history[s'.start[id]..s'.done] == [];
        NoItems(t);
      } else {
        assert SinkExact(s, x);
        var topic := s.sinks[x].topic;
        assert x in Registered(s, topic) ==> x in Registered(s', topic);
      }
    }
  }

  lemma NoItems(t: Topic)
    ensures For([], t) == []
  {
  }

  lemma StoreKeeps(s: State, stored: seq<Kept>)
    requires Inv(s) && s.pc.Parked?
    ensures Inv(s.(stored := stored))
  {
    hide For, Msgs;
    var s' := s.(stored := stored);
    RegistryFrame(s, s');
    forall id | id in s'.sinks ensures SinkExact(s', id) { SinkFrame(s, s', id); }
  }

  /** A receiver takes messages out or is dropped, at any moment. */
  lemma ReceiverKeeps(s: State, id: SinkId, sink: Sink)
    requires Inv(s) && id in s.sinks
    requires sink == s.sinks[id].(room := true) || sink == s.sinks[id].(open := false)
    ensures Inv(s.(sinks := s.sinks[id := sink]))
  {
    hide For, Msgs;
    var s' := s.(sinks := s.sinks[id := sink]);
    RegistryFrame(s, s');
    forall x | x in s'.sinks
      ensures SinkExact(s', x)
    {
      assert SinkExact(s, x);
      SinkFrame(s, s', x);
    }
    assert forall x :: HasRoom(s, x) ==> HasRoom(s', x);
    assert forall t :: Registered(s', t) == Registered(s, t);
  }

  lemma StepKeepsInv(s: State, m: Move)
    requires Inv(s) && Step(s, m).Some?
    ensures Inv(Step(s, m).value)
  {
    hide Sinks, Registry, Ready, TakeEvent, PopItem, CheckSink, FilterSinks, SendOne, CleanRegistry, AddSink, Where;
    match m
    case Poll => CallKeeps(s, Top);
    case Event(e) => TakeEventKeeps(s, e);
    case Pop => PopKeeps(s);
    case Check => CheckKeeps(s);
    case Filter => FilterKeeps(s);
    case Send(full) => SendKeeps(s, full);
    case Maintain(expired) => MaintainKeeps(s, Where(s.stored, (item: Item) => !expired(item)));
    case Park => CallKeeps(s, Parked);
    case Subscribe(id, t, room) => SubscribeKeeps(s, id, t, room);
    case Store(item) => StoreKeeps(s, s.stored + [Kept(item, None)]);
    case Drain(id) => ReceiverKeeps(s, id, s.sinks[id].(room := true));
    case Close(id) => ReceiverKeeps(s, id, s.sinks[id].(open := false));
  }

  lemma {:induction false} RunKeepsInv(s: State, moves: seq<Move>)
    requires Inv(s) && Run(s, moves).Some?
    ensures Inv(Run(s, moves).value)
    decreases |moves|
  {
    hide Inv, Step;
    if moves != [] {
      StepKeepsInv(s, moves[0]);
      RunKeepsInv(Step(s, moves[0]).value, moves[1..]);
    }
  }

  /** What a move accepts from the network. */
  function Batch(m: Move): seq<Accepted> {
    if m.Event? && (m.event.Notifications? || m.event.Last?) then m.event.batch else []
  }

  function Arrived(moves: seq<Move>): seq<Accepted>
    decreases |moves|
  {
    if moves == [] then [] else Batch(moves[0]) + Arrived(moves[1..])
  }

  lemma ItemsConcat(a: seq<Accepted>, b: seq<Accepted>)
    ensures Items(a + b) == Items(a) + Items(b)
  {
  }

  lemma StepArrives(s: State, m: Move)
    requires Step(s, m).Some?
    ensures Step(s, m).value.history == s.history + Items(Batch(m))
  {
    hide OpenOnes, CleanRegistry, Where, KeptOf, Msgs;
    assert s.history + [] == s.history;
  }

  /** The history is what the network delivered, all of it and in order. */
  lemma {:induction false} HistoryIsArrived(s: State, moves: seq<Move>)
    requires Run(s, moves).Some?
    ensures Run(s, moves).value.history == s.history + Items(Arrived(moves))
    decreases |moves|
  {
    hide Step, Items;
    if moves != [] {
      StepArrives(s, moves[0]);
      HistoryIsArrived(Step(s, moves[0]).value, moves[1..]);
      ItemsConcat(Batch(moves[0]), Arrived(moves[1..]));
    }
  }

  lemma AllArrived(moves: seq<Move>)
    requires Run(INIT, moves).Some?
    ensures Run(INIT, moves).value.history == Items(Arrived(moves))
  {
    HistoryIsArrived(INIT, moves);
    assert [] + Items(Arrived(moves)) == Items(Arrived(moves));
  }

  lemma InitInv()
    ensures Inv(INIT)
  {
  }

  /** Exactly once and in order: whatever the receivers do, at any point of any run every sink
      that is still open holds what it was given at registration followed by precisely the
      messages of its topic dealt with since, and while the engine is idle that is every such
      message ever accepted since. */
  lemma DeliveredExactly(moves: seq<Move>, id: SinkId)
    requires Run(INIT, moves).Some?
    requires IsOpen(Run(INIT, moves).value, id)
    ensures var s := Run(INIT, moves).value;
            && id in s.start && id in s.initial && s.start[id] <= ServedTo(s, id) <= |s.history|
            && s.sinks[id].received ==
                 Msgs(s.initial[id]) + For(s.history[s.start[id]..ServedTo(s, id)], s.sinks[id].topic)
            && (s.forwarding.Idle? ==>
                  s.sinks[id].received == Msgs(s.initial[id]) + For(s.history[s.start[id]..], s.sinks[id].topic))
            && s.history == Items(Arrived(moves))
  {
    hide Run, For, Msgs, Registry, Ready, Items, Arrived;
    AllArrived(moves);
    InitInv();
    RunKeepsInv(INIT, moves);
    var s := Run(INIT, moves).value;
    assert SinkExact(s, id);
    if s.forwarding.Idle? {
      assert s.history[s.start[id]..ServedTo(s, id)] == s.history[s.start[id]..];
    }
  }

  /** The branch declared unreachable is never taken. */
  lemma NeverPanics(moves: seq<Move>)
    requires Run(INIT, moves).Some?
    ensures !Run(INIT, moves).value.pc.Panicked?
  {
    assert Inv(INIT);
    RunKeepsInv(INIT, moves);
  }

  /** Back-pressure: an event is taken from the network only when everything accepted before
      has been dealt with. */
  lemma NoEventWhileBusy(moves: seq<Move>, e: NetEvent)
    requires Run(INIT, moves).Some? && Step(Run(INIT, moves).value, Event(e)).Some?
    ensures Run(INIT, moves).value.done == |Run(INIT, moves).value.history|
  {
    assert Inv(INIT);
    RunKeepsInv(INIT, moves);
  }

  /** `poll` comes to its end if and only if both event streams are pending, or a sink of the
      item's topic that is still open is full; the item then stays first in the queue. */
  lemma PollEndsIff(s: State, m: Move)
    requires !s.pc.Ending? && Step(s, m).Some?
    ensures var s' := Step(s, m).value;
            && (s'.pc.Ending? <==> m == Event(Pending) || (m.Check? && MeetsFull(s)))
            && (m.Check? && MeetsFull(s) ==> s'.forwarding == Busy([s.pc.item] + s.forwarding.queue))
            && (s'.pc.Ending? ==> s'.done == s.done && s'.sinks == s.sinks && s'.registry == s.registry)
  {
    hide OpenOnes, CleanRegistry, Where, Items, KeptOf, Msgs;
  }

  /** The sink polled next is open and full. */
  predicate MeetsFull(s: State) {
    && s.pc.Checking? && s.forwarding.Busy? && s.pc.i < |Registered(s, s.pc.item.0)|
    && var id := Registered(s, s.pc.item.0)[s.pc.i]; IsOpen(s, id) && !s.sinks[id].room
  }

  // ---- progress ----

  /** What receivers do, at any moment. */
  predicate ByReceiver(m: Move) {
    m.Drain? || m.Close?
  }

  ghost predicate AllHaveRoom(s: State, t: Topic) {
    forall id :: id in Registered(s, t) ==> HasRoom(s, id)
  }

  /** The next item, queued or in hand, is not held up by a full sink of its topic. */
  ghost predicate Deliverable(s: State) {
    && Inv(s) && s.forwarding.Busy?
    && match s.pc
       case Top => s.forwarding.queue != [] && AllHaveRoom(s, s.forwarding.queue[0].0)
       case Checking(item, _) => AllHaveRoom(s, item.0)
       case Filtering(_) => true
       case Sending(_, _) => true
       case _ => false
  }

  /** How many accesses of the loop are left, at most, until that item is dealt with. */
  function Left(s: State): nat {
    match s.pc
    case Checking(item, i) => Max(|Registered(s, item.0)| - i, 0) + |Registered(s, item.0)| + 3
    case Filtering(item) => |Registered(s, item.0)| + 2
    case Sending(item, i) => Max(|Registered(s, item.0)| - i, 0) + 1
    case _ =>
      if s.forwarding.Busy? && s.forwarding.queue != []
      then 2 * |Registered(s, s.forwarding.queue[0].0)| + 4 else 0
  }

  lemma {:induction false} OpenOnesFewer(s: State, ids: seq<SinkId>)
    ensures |OpenOnes(s, ids)| <= |ids|
  {
    if ids != [] {
      OpenOnesFewer(s, ids[..|ids| - 1]);
    }
  }

  /** A receiver's move makes room at most, and changes nothing that the loop counts. */
  lemma ReceiverAdvances(s: State, m: Move)
    requires Deliverable(s) && ByReceiver(m) && Step(s, m).Some?
    ensures var s' := Step(s, m).value;
            Deliverable(s') && s'.done == s.done && Left(s') == Left(s)
  {
    hide Inv;
    StepKeepsInv(s, m);
    var s' := Step(s, m).value;
    assert forall x :: HasRoom(s, x) ==> HasRoom(s', x);
    assert forall t :: Registered(s', t) == Registered(s, t);
  }

  /** Every access of the loop deals with the item or comes one step closer. */
  lemma LoopAdvances(s: State, m: Move)
    requires Deliverable(s) && !ByReceiver(m) && Step(s, m).Some?
    ensures var s' := Step(s, m).value;
            s'.done > s.done || (Deliverable(s') && s'.done == s.done && Left(s') < Left(s))
  {
    hide Inv, OpenOnes;
    StepKeepsInv(s, m);
    var s' := Step(s, m).value;
    assert forall x :: s'.sinks == s.sinks ==> HasRoom(s', x) == HasRoom(s, x);
    match s.pc
    case Top =>
    case Checking(item, i) =>
      var ids := Registered(s, item.0);
      if i < |ids| { assert HasRoom(s, ids[i]); }
    case Filtering(item) => OpenOnesFewer(s, Registered(s, item.0));
    case Sending(item, i) =>
      assert !s'.pc.Panicked? by { InvNotPanicked(s'); }
  }

  lemma InvNotPanicked(s: State)
    requires Inv(s)
    ensures !s.pc.Panicked?
  {
  }

  /** Nothing un-deals an item. */
  lemma StepNeverUndoes(s: State, m: Move)
    requires Step(s, m).Some?
    ensures s.done <= Step(s, m).value.done
  {
    hide OpenOnes, CleanRegistry;
  }

  lemma {:induction false} RunNeverUndoes(s: State, moves: seq<Move>)
    requires Run(s, moves).Some?
    ensures s.done <= Run(s, moves).value.done
    decreases |moves|
  {
    hide Step;
    if moves != [] {
      StepNeverUndoes(s, moves[0]);
      RunNeverUndoes(Step(s, moves[0]).value, moves[1..]);
    }
  }

  /** How many of the moves are not the receivers'. */
  function LoopMoves(moves: seq<Move>): nat
    decreases |moves|
  {
    if moves == [] then 0 else (if ByReceiver(moves[0]) then 0 else 1) + LoopMoves(moves[1..])
  }

  /** Nothing is withheld: if the subscribers of the next item's topic have room, then whatever
      moves follow, with drains and dropped receivers anywhere between them and sinks filling
      up as they may, the item is dealt with as soon as the loop has made its share of them. */
  lemma {:induction false} ReadyItemIsDealtWith(s: State, moves: seq<Move>)
    requires Deliverable(s) && Run(s, moves).Some? && LoopMoves(moves) >= Left(s)
    ensures Run(s, moves).value.done > s.done
    decreases |moves|
  {
    hide Step, Deliverable, ByReceiver, Left;
    LeftIsPositive(s);
    var s', rest := Step(s, moves[0]).value, moves[1..];
    if ByReceiver(moves[0]) {
      ReceiverAdvances(s, moves[0]);
      ReadyItemIsDealtWith(s', rest);
    } else {
      LoopAdvances(s, moves[0]);
      if s'.done > s.done { RunNeverUndoes(s', rest); } else { ReadyItemIsDealtWith(s', rest); }
    }
  }

  lemma LeftIsPositive(s: State)
    requires Deliverable(s)
    ensures Left(s) > 0
  {
  }

  /** ...and until then the loop is never stuck: it has a next access, whatever a send does to
      the sink. */
  lemma LoopCanMove(s: State, full: bool) returns (m: Move)
    requires Deliverable(s)
    ensures !ByReceiver(m) && Step(s, m).Some? && (m.Send? ==> m.full == full)
  {
    hide Inv, OpenOnes;
    match s.pc
    case Top => m := Pop;
    case Checking(_, _) => m := Check;
    case Filtering(_) => m := Filter;
    case Sending(_, _) => m := Send(full);
  }

  // ---- back to idle ----

  /** The accesses that a queue takes, at most. */
  function Work(s: State, queue: seq<Item>): nat {
    if queue == [] then 1 else 2 * |Registered(s, queue[0].0)| + 4 + Work(s, queue[1..])
  }

  /** Forwarding, with no full sink anywhere. */
  ghost predicate Flowing(s: State) {
    && Inv(s) && s.forwarding.Busy? && (s.pc.Top? || s.pc.Checking? || s.pc.Filtering? || s.pc.Sending?)
    && (forall t :: AllHaveRoom(s, t))
  }

  function Todo(s: State): nat
    requires s.forwarding.Busy?
  {
    Work(s, s.forwarding.queue) + if s.pc.Top? then 0 else Left(s)
  }

  lemma {:induction false} WorkShrinks(s: State, s': State, queue: seq<Item>)
    requires forall t :: |Registered(s', t)| <= |Registered(s, t)|
    ensures Work(s', queue) <= Work(s, queue)
  {
    if queue != [] {
      assert |Registered(s', queue[0].0)| <= |Registered(s, queue[0].0)|;
      WorkShrinks(s, s', queue[1..]);
    }
  }

  /** A move that fills no sink keeps room everywhere. */
  lemma RoomStays(s: State, m: Move)
    requires Flowing(s) && Step(s, m).Some? && m != Send(true)
    ensures forall t :: AllHaveRoom(Step(s, m).value, t)
  {
    hide Inv, Where, Items, KeptOf, CleanRegistry;
    var s' := Step(s, m).value;
    forall t, id | id in Registered(s', t)
      ensures HasRoom(s', id)
    {
      assert AllHaveRoom(s, t);
      assert id in Registered(s, t);
    }
  }

  /** Every access takes work off the queue, or the queue is empty and the engine goes idle. */
  lemma FlowAdvances(s: State, m: Move)
    requires Flowing(s) && Step(s, m).Some? && m != Send(true)
    ensures var s' := Step(s, m).value;
            if s'.forwarding.Idle? then !ByReceiver(m) && s.forwarding.queue == [] && s'.pc.Top?
            else Flowing(s') && Todo(s') <= Todo(s) - if ByReceiver(m) then 0 else 1
  {
    StepKeepsInv(s, m);
    RoomStays(s, m);
    if ByReceiver(m) { ReceiverTodo(s, m); } else { LoopTodo(s, m); }
    hide Inv, Step, AllHaveRoom, Todo;
  }

  lemma ReceiverTodo(s: State, m: Move)
    requires Flowing(s) && Step(s, m).Some? && ByReceiver(m)
    ensures var s' := Step(s, m).value;
            s'.forwarding == s.forwarding && s'.pc == s.pc && Todo(s') <= Todo(s)
  {
    hide Inv, AllHaveRoom, Work;
    var s' := Step(s, m).value;
    assert forall t :: Registered(s', t) == Registered(s, t);
    WorkShrinks(s, s', s.forwarding.queue);
  }

  /** Still in the loop with less to do, or idle because the queue is empty. */
  ghost predicate Nearer(s: State, s': State)
    requires s.forwarding.Busy?
  {
    if s'.forwarding.Idle? then s.forwarding.queue == [] && s'.pc.Top?
    else (s'.pc.Top? || s'.pc.Checking? || s'.pc.Filtering? || s'.pc.Sending?) && Todo(s') < Todo(s)
  }

  lemma LoopTodo(s: State, m: Move)
    requires Flowing(s) && Step(s, m).Some? && !ByReceiver(m) && m != Send(true)
    ensures Nearer(s, Step(s, m).value)
  {
    hide Inv, AllHaveRoom, Nearer, PopItem, CheckSink, FilterSinks, SendOne, CleanRegistry, Where;
    match s.pc
    case Top => PopTodo(s);
    case Checking(item, i) => CheckTodo(s, item, i);
    case Filtering(item) => FilterTodo(s, item);
    case Sending(item, i) =>
      StepKeepsInv(s, m);
      InvNotPanicked(Step(s, m).value);
      SendTodo(s, item, i);
  }

  lemma CheckTodo(s: State, item: Item, i: nat)
    requires Flowing(s) && s.pc == Checking(item, i)
    ensures Nearer(s, CheckSink(s, item, i))
  {
    assert AllHaveRoom(s, item.0);
    hide Inv, AllHaveRoom, Work;
    CheckGoesOn(s, item, i);
    var s' := CheckSink(s, item, i);
    assert forall t :: Registered(s', t) == Registered(s, t);
    WorkShrinks(s, s', s.forwarding.queue);
  }

  lemma FilterTodo(s: State, item: Item)
    requires Flowing(s) && s.pc == Filtering(item)
    ensures Nearer(s, FilterSinks(s, item))
  {
    hide Inv, AllHaveRoom, Work, OpenOnes;
    OpenOnesFewer(s, Registered(s, item.0));
    var s' := FilterSinks(s, item);
    assert forall t :: |Registered(s', t)| <= |Registered(s, t)|;
    WorkShrinks(s, s', s.forwarding.queue);
  }

  lemma SendTodo(s: State, item: Item, i: nat)
    requires Flowing(s) && s.pc == Sending(item, i) && !SendOne(s, item, i, false).pc.Panicked?
    ensures Nearer(s, SendOne(s, item, i, false))
  {
    hide Inv, AllHaveRoom, Work;
    var s' := SendOne(s, item, i, false);
    assert forall t :: Registered(s', t) == Registered(s, t);
    WorkShrinks(s, s', s.forwarding.queue);
  }

  lemma PopTodo(s: State)
    requires Flowing(s) && s.pc.Top?
    ensures Nearer(s, PopItem(s))
  {
    hide Inv, AllHaveRoom;
    var s' := PopItem(s);
    assert forall t :: Registered(s', t) == Registered(s, t);
    if s'.forwarding.Busy? { WorkShrinks(s, s', s'.forwarding.queue); }
  }

  lemma CheckGoesOn(s: State, item: Item, i: nat)
    requires AllHaveRoom(s, item.0) && s.forwarding.Busy?
    ensures !CheckSink(s, item, i).pc.Ending?
  {
    if i < |Registered(s, item.0)| { assert HasRoom(s, Registered(s, item.0)[i]); }
  }

  ghost predicate WasIdle(s: State, moves: seq<Move>)
    requires Run(s, moves).Some?
    decreases |moves|
  {
    s.forwarding.Idle? || (moves != [] && WasIdle(Step(s, moves[0]).value, moves[1..]))
  }

  /** While no send fills a sink, the loop works its queue off: whatever receivers do in between,
      it is idle, and takes events again, after a bounded number of accesses. */
  lemma {:induction false} QueueIsWorkedOff(s: State, moves: seq<Move>)
    requires Flowing(s) && Run(s, moves).Some? && Send(true) !in moves && LoopMoves(moves) >= Todo(s)
    ensures WasIdle(s, moves)
    decreases |moves|
  {
    hide Step, Flowing, Todo, ByReceiver;
    TodoIsPositive(s);
    FlowAdvances(s, moves[0]);
    var s' := Step(s, moves[0]).value;
    if !s'.forwarding.Idle? { QueueIsWorkedOff(s', moves[1..]); }
  }

  lemma TodoIsPositive(s: State)
    requires Flowing(s)
    ensures s.forwarding.Busy? && Todo(s) > 0
  {
  }
}
