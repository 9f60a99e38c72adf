/** How often a subscriber of the gossip engine gets a message: it is given the stored messages
    of its topic when it subscribes, and the loop forwards what is still queued. */
module GossipSubscriptions {
  import opened Types
  import opened GossipEngine

  // ---- where stored messages come from ----

  /** Stored messages come from where they say, each position at most once and in order. */
  ghost predicate Faithful(kept: seq<Kept>, history: seq<Item>) {
    && (forall a :: 0 <= a < |kept| && kept[a].origin.Some? ==>
          kept[a].origin.value < |history| && history[kept[a].origin.value] == kept[a].item)
    && (forall a, b :: 0 <= a < b < |kept| && kept[a].origin.Some? && kept[b].origin.Some? ==>
          kept[a].origin.value < kept[b].origin.value)
  }

  lemma {:induction false} WhereFaithful(kept: seq<Kept>, f: Item -> bool, history: seq<Item>)
    requires Faithful(kept, history)
    ensures Faithful(Where(kept, f), history)
  {
    if kept != [] {
      var n := |kept| - 1;
      assert kept == kept[..n] + [kept[n]];
      WhereFaithful(kept[..n], f, history);
      WhereIs(kept[..n], f);
      SnocFaithful(Where(kept[..n], f), kept, history);
    }
  }

  /** A faithful selection of all but the last stays faithful with the last. */
  lemma SnocFaithful(some: seq<Kept>, kept: seq<Kept>, history: seq<Item>)
    requires kept != [] && Faithful(kept, history) && Faithful(some, history)
    requires forall k :: k in some ==> k in kept[..|kept| - 1]
    ensures Faithful(some + [kept[|kept| - 1]], history)
  {
    var n := |kept| - 1;
    forall a | 0 <= a < |some| && some[a].origin.Some? && kept[n].origin.Some?
      ensures some[a].origin.value < kept[n].origin.value
    {
      assert some[a] in some;
      var i :| 0 <= i < n && kept[..n][i] == some[a];
      assert kept[i] == some[a];
    }
  }

  lemma {:induction false} KeptOfFaithful(kept: seq<Kept>, batch: seq<Accepted>, history: seq<Item>)
    requires Faithful(kept, history)
    ensures Faithful(kept + KeptOf(batch, |history|), history + Items(batch))
  {
    var h' := history + Items(batch);
    if batch == [] {
      assert kept + KeptOf(batch, |history|) == kept && h' == history;
    } else {
      var n := |batch| - 1;
      var front := kept + KeptOf(batch[..n], |history|);
      KeptOfFaithful(kept, batch[..n], history);
      assert h' == (history + Items(batch[..n])) + [batch[n].item];
      if batch[n].keep {
        assert kept + KeptOf(batch, |history|) == front + [Kept(batch[n].item, Some(|history| + n))];
        assert h'[|history| + n] == batch[n].item;
      } else {
        assert kept + KeptOf(batch, |history|) == front;
      }
    }
  }

  lemma StoredStaysFaithful(s: State, m: Move)
    requires Faithful(s.stored, s.history) && Step(s, m).Some?
    ensures Faithful(Step(s, m).value.stored, Step(s, m).value.history)
  {
    hide Faithful, Items, KeptOf, Where, OpenOnes, CleanRegistry;
    match m
    case Event(e) => if e.Notifications? || e.Last? { KeptOfFaithful(s.stored, e.batch, s.history); }
    case Maintain(expired) => WhereFaithful(s.stored, (item: Item) => !expired(item), s.history);
    case Store(item) => OwnFaithful(s.stored, item, s.history);
    case _ =>
  }

  lemma OwnFaithful(kept: seq<Kept>, item: Item, history: seq<Item>)
    requires Faithful(kept, history)
    ensures Faithful(kept + [Kept(item, None)], history)
  {
  }

  lemma {:induction false} RunStaysFaithful(s: State, moves: seq<Move>)
    requires Faithful(s.stored, s.history) && Run(s, moves).Some?
    ensures Faithful(Run(s, moves).value.stored, Run(s, moves).value.history)
    decreases |moves|
  {
    hide Faithful, Step;
    if moves != [] {
      StoredStaysFaithful(s, moves[0]);
      RunStaysFaithful(Step(s, moves[0]).value, moves[1..]);
    }
  }

  // ---- which messages are stored ----

  /** No clean-up of the run expires the message. */
  ghost predicate NeverExpires(moves: seq<Move>, item: Item) {
    forall i :: 0 <= i < |moves| && moves[i].Maintain? ==> !moves[i].expired(item)
  }

  lemma {:induction false} KeptOfHolds(batch: seq<Accepted>, from: nat, j: nat)
    ensures Holds(KeptOf(batch, from), j) <==> from <= j < from + |batch| && batch[j - from].keep
  {
    if batch != [] {
      var n := |batch| - 1;
      KeptOfHolds(batch[..n], from, j);
      HoldsConcat(KeptOf(batch[..n], from), if batch[n].keep then [Kept(batch[n].item, Some(from + n))] else [], j);
      if batch[n].keep { HoldsOne(Kept(batch[n].item, Some(from + n)), j); }
    }
  }

  lemma HoldsOne(k: Kept, j: nat)
    ensures Holds([k], j) <==> k.origin == Some(j)
  {
    assert k in [k];
  }

  lemma HoldsConcat(a: seq<Kept>, b: seq<Kept>, j: nat)
    ensures Holds(a + b, j) <==> Holds(a, j) || Holds(b, j)
  {
    if Holds(a, j) {
      var k :| k in a && k.origin == Some(j);
      assert k in a + b;
    }
    if Holds(b, j) {
      var k :| k in b && k.origin == Some(j);
      assert k in a + b;
    }
  }

  lemma WhereHolds(kept: seq<Kept>, f: Item -> bool, history: seq<Item>, j: nat)
    requires Faithful(kept, history) && j < |history|
    ensures Holds(Where(kept, f), j) <==> Holds(kept, j) && f(history[j])
  {
    hide Where;
    WhereIs(kept, f);
    forall k | k in kept && k.origin == Some(j)
      ensures k.item == history[j]
    {
      var a :| 0 <= a < |kept| && kept[a] == k;
    }
    if Holds(kept, j) && f(history[j]) {
      var k :| k in kept && k.origin == Some(j);
      assert k in Where(kept, f);
    }
  }

  /** One move, for a message that was accepted before. */
  lemma StepHolds(s: State, m: Move, j: nat)
    requires Faithful(s.stored, s.history) && Step(s, m).Some? && j < |s.history|
    ensures Holds(Step(s, m).value.stored, j) <==> Holds(s.stored, j) && (m.Maintain? ==> !m.expired(s.history[j]))
  {
    hide Faithful, Holds, Items, KeptOf, Where, OpenOnes, CleanRegistry, Msgs;
    match m
    case Event(e) =>
      if e.Notifications? || e.Last? {
        KeptOfHolds(e.batch, |s.history|, j);
        HoldsConcat(s.stored, KeptOf(e.batch, |s.history|), j);
      }
    case Maintain(expired) => WhereHolds(s.stored, (item: Item) => !expired(item), s.history, j);
    case Store(item) =>
      HoldsOne(Kept(item, None), j);
      HoldsConcat(s.stored, [Kept(item, None)], j);
    case _ =>
  }

  lemma {:induction false} RunHolds(s: State, moves: seq<Move>, j: nat)
    requires Faithful(s.stored, s.history) && Run(s, moves).Some? && j < |s.history|
    ensures Holds(Run(s, moves).value.stored, j) <==> Holds(s.stored, j) && NeverExpires(moves, s.history[j])
    decreases |moves|
  {
    hide Faithful, Holds, Step;
    if moves != [] {
      var s' := Step(s, moves[0]).value;
      StepHolds(s, moves[0], j);
      StoredStaysFaithful(s, moves[0]);
      StepArrives(s, moves[0]);
      RunHolds(s', moves[1..], j);
      assert NeverExpires(moves, s.history[j]) <==>
             (moves[0].Maintain? ==> !moves[0].expired(s.history[j])) && NeverExpires(moves[1..], s.history[j]) by {
        if NeverExpires(moves, s.history[j]) {
          forall i | 0 <= i < |moves[1..]| && moves[1..][i].Maintain?
            ensures !moves[1..][i].expired(s.history[j])
          {
            assert moves[1..][i] == moves[i + 1];
          }
        }
        if NeverExpires(moves[1..], s.history[j]) && (moves[0].Maintain? ==> !moves[0].expired(s.history[j])) {
          forall i | 0 <= i < |moves| && moves[i].Maintain?
            ensures !moves[i].expired(s.history[j])
          {
            if i > 0 { assert moves[1..][i - 1] == moves[i]; }
          }
        }
      }
    }
  }

  /** Over any run, a message that arrived is stored if and only if the state machine was to keep
      it and no clean-up since then expired it. */
  lemma StoredIff(before: seq<Move>, batch: seq<Accepted>, after: seq<Move>, i: nat)
    requires Run(INIT, before).Some? && Step(Run(INIT, before).value, Event(Notifications(batch))).Some?
    requires Run(Step(Run(INIT, before).value, Event(Notifications(batch))).value, after).Some? && i < |batch|
    ensures var s1 := Run(INIT, before).value;
            var s := Run(Step(s1, Event(Notifications(batch))).value, after).value;
            Holds(s.stored, |s1.history| + i) <==> batch[i].keep && NeverExpires(after, batch[i].item)
  {
    InitFaithful();
    RunStaysFaithful(INIT, before);
    var s1, m := Run(INIT, before).value, Event(Notifications(batch));
    StoredStaysFaithful(s1, m);
    var j := |s1.history| + i;
    var s2 := Step(s1, m).value;
    assert j < |s2.history| && s2.history[j] == batch[i].item;
    NotYetHeld(s1.stored, s1.history, j);
    KeptOfHolds(batch, |s1.history|, j);
    HoldsConcat(s1.stored, KeptOf(batch, |s1.history|), j);
    hide Run, Holds, Faithful, NeverExpires;
    RunHolds(s2, after, j);
  }

  /** Whether the node's own message is stored after the moves, if `had` says whether it was. */
  ghost predicate OwnLeft(moves: seq<Move>, item: Item, had: bool)
    decreases |moves|
  {
    if moves == [] then had else OwnLeft(moves[1..], item, OwnAfter(moves[0], item, had))
  }

  ghost predicate OwnAfter(m: Move, item: Item, had: bool) {
    (m.Store? && m.item == item) || (had && (m.Maintain? ==> !m.expired(item)))
  }

  lemma {:induction false} KeptOfIsForeign(batch: seq<Accepted>, from: nat)
    ensures forall k :: k in KeptOf(batch, from) ==> k.origin.Some?
  {
    if batch != [] { KeptOfIsForeign(batch[..|batch| - 1], from); }
  }

  lemma StepOwn(s: State, m: Move, item: Item)
    requires Step(s, m).Some?
    ensures Kept(item, None) in Step(s, m).value.stored <==> OwnAfter(m, item, Kept(item, None) in s.stored)
  {
    hide Items, KeptOf, Where, OpenOnes, CleanRegistry, Msgs;
    match m
    case Event(e) => if e.Notifications? || e.Last? { KeptOfIsForeign(e.batch, |s.history|); }
    case Maintain(expired) => WhereIs(s.stored, (i: Item) => !expired(i));
    case _ =>
  }

  /** Over any run a message of the node's own is stored if and only if it was registered and no
      clean-up since then expired it. */
  lemma {:induction false} OwnStoredIff(s: State, moves: seq<Move>, item: Item)
    requires Run(s, moves).Some?
    ensures Kept(item, None) in Run(s, moves).value.stored <==> OwnLeft(moves, item, Kept(item, None) in s.stored)
    decreases |moves|
  {
    hide Step, OwnAfter;
    if moves != [] {
      StepOwn(s, moves[0], item);
      OwnStoredIff(Step(s, moves[0]).value, moves[1..], item);
    }
  }

  lemma NotYetHeld(kept: seq<Kept>, history: seq<Item>, j: nat)
    requires Faithful(kept, history) && j >= |history|
    ensures !Holds(kept, j)
  {
    if Holds(kept, j) { HeldIsAccepted(kept, history, j); }
  }

  // ---- what a subscriber gets ----

  /** A registration is not changed later, and the history only grows. */
  ghost predicate Later(s: State, s': State, id: SinkId) {
    && s.history <= s'.history
    && (id in s.sinks ==> id in s'.sinks && s'.sinks[id].topic == s.sinks[id].topic)
    && (id in s.start ==> id in s'.start && s'.start[id] == s.start[id])
    && (id in s.initial ==> id in s'.initial && s'.initial[id] == s.initial[id])
  }

  lemma StepLater(s: State, m: Move, id: SinkId)
    requires Step(s, m).Some? && id in s.sinks
    ensures Later(s, Step(s, m).value, id)
  {
    hide Items, KeptOf, Where, OpenOnes, CleanRegistry, Msgs;
  }

  lemma {:induction false} RunLater(s: State, moves: seq<Move>, id: SinkId)
    requires Run(s, moves).Some? && id in s.sinks
    ensures Later(s, Run(s, moves).value, id)
    decreases |moves|
  {
    hide Step;
    if moves != [] {
      StepLater(s, moves[0], id);
      RunLater(Step(s, moves[0]).value, moves[1..], id);
    }
  }

  /** How many of the messages given at registration are the one at position `j`. */
  function Copies(kept: seq<Kept>, j: nat): nat {
    if kept == [] then 0
    else
      var n := |kept| - 1;
      Copies(kept[..n], j) + if kept[n].origin == Some(j) then 1 else 0
  }

  ghost predicate Holds(kept: seq<Kept>, j: nat) {
    exists k :: k in kept && k.origin == Some(j)
  }

  lemma {:induction false} CopiesAre(kept: seq<Kept>, history: seq<Item>, j: nat)
    requires Faithful(kept, history)
    ensures Copies(kept, j) == if Holds(kept, j) then 1 else 0
  {
    if kept != [] {
      var n := |kept| - 1;
      assert kept == kept[..n] + [kept[n]];
      assert Faithful(kept[..n], history);
      CopiesAre(kept[..n], history, j);
      if Holds(kept[..n], j) {
        var k :| k in kept[..n] && k.origin == Some(j);
        var i :| 0 <= i < n && kept[..n][i] == k;
        assert kept[i].origin == Some(j) && kept[n].origin != Some(j);
        assert k in kept;
      }
      if kept[n].origin == Some(j) { assert kept[n] in kept; }
    }
  }

  /** How often the message at position `j` has been put into the sink: at registration, and by
      the loop. */
  ghost function TimesSent(s: State, id: SinkId, j: nat): nat
    requires id in s.sinks && id in s.start && id in s.initial && j < |s.history|
  {
    Copies(s.initial[id], j) +
    if s.start[id] <= j < ServedTo(s, id) && s.history[j].0 == s.sinks[id].topic then 1 else 0
  }

  // ---- how often a subscriber gets a message ----

  /** Whatever happened before a subscription and whatever happens after it, every message of the
      topic that has been dealt with reached the subscriber once for being stored when it
      subscribed, and once for not being dealt with yet then. So it comes twice if and only if
      it was stored and still queued, and never if the engine was idle. */
  lemma ReceivedHowOften(before: seq<Move>, id: SinkId, t: Topic, room: bool, after: seq<Move>, j: nat)
    requires Run(INIT, before).Some? && Step(Run(INIT, before).value, Subscribe(id, t, room)).Some?
    requires Run(Step(Run(INIT, before).value, Subscribe(id, t, room)).value, after).Some?
    requires var s := Run(Step(Run(INIT, before).value, Subscribe(id, t, room)).value, after).value;
             IsOpen(s, id) && j < ServedTo(s, id) <= |s.history| && s.history[j].0 == t
    ensures var s1 := Run(INIT, before).value;
            var s := Run(Step(s1, Subscribe(id, t, room)).value, after).value;
            && id in s.start && id in s.initial
            && TimesSent(s, id, j) == (if Holds(s1.stored, j) then 1 else 0) + (if j >= s1.done then 1 else 0)
            && (TimesSent(s, id, j) == 2 <==> Holds(s1.stored, j) && j >= s1.done)
            && (s1.forwarding.Idle? ==> TimesSent(s, id, j) <= 1)
  {
    InitFaithful();
    RunStaysFaithful(INIT, before);
    InitInv();
    RunKeepsInv(INIT, before);
    hide Run, Msgs, Sinks, Registry, Ready, Copies;
    var s1 := Run(INIT, before).value;
    var s2 := Step(s1, Subscribe(id, t, room)).value;
    RunLater(s2, after, id);
    var s := Run(s2, after).value;
    WhereFaithful(s1.stored, (item: Item) => item.0 == t, s1.history);
    CopiesAre(PastOf(s1.stored, t), s1.history, j);
    SameTopic(s1.stored, s1.history, s.history, t, j);
    if Holds(s1.stored, j) { HeldIsAccepted(s1.stored, s1.history, j); }
  }

  lemma SameTopic(kept: seq<Kept>, history: seq<Item>, later: seq<Item>, t: Topic, j: nat)
    requires Faithful(kept, history) && history <= later && j < |later| && later[j].0 == t
    ensures Holds(PastOf(kept, t), j) <==> Holds(kept, j)
  {
    PastIs(kept, t);
    if Holds(kept, j) {
      var k :| k in kept && k.origin == Some(j);
      var a :| 0 <= a < |kept| && kept[a] == k;
      assert k in PastOf(kept, t);
    }
    if Holds(PastOf(kept, t), j) {
      var k :| k in PastOf(kept, t) && k.origin == Some(j);
      assert k in kept;
    }
  }

  lemma HeldIsAccepted(kept: seq<Kept>, history: seq<Item>, j: nat)
    requires Faithful(kept, history) && Holds(kept, j)
    ensures j < |history|
  {
    var k :| k in kept && k.origin == Some(j);
    var a :| 0 <= a < |kept| && kept[a] == k;
  }

  lemma InitFaithful()
    ensures Faithful(INIT.stored, INIT.history)
  {
  }

  // ---- a run in which one comes twice ----

  lemma {:induction false} RunConcat(s: State, a: seq<Move>, b: seq<Move>)
    requires Run(s, a).Some?
    ensures Run(s, a + b) == Run(Run(s, a).value, b)
    decreases |a|
  {
    hide Step;
    if a == [] {
      assert a + b == b;
    } else {
      assert (a + b)[0] == a[0] && (a + b)[1..] == a[1..] + b;
      RunConcat(Step(s, a[0]).value, a[1..], b);
    }
  }

  /** One more move at the end of a run. */
  lemma Then(s: State, moves: seq<Move>, s1: State, m: Move, s2: State)
    requires Run(s, moves) == Some(s1) && Step(s1, m) == Some(s2)
    ensures Run(s, moves + [m]) == Some(s2)
  {
    hide Step;
    RunConcat(s, moves, [m]);
    assert [m][1..] == [];
    assert Run(s2, []) == Some(s2);
  }

  lemma {:induction false} AllOpen(s: State, ids: seq<SinkId>)
    requires forall id :: id in ids ==> IsOpen(s, id)
    ensures OpenOnes(s, ids) == ids
  {
    if ids != [] {
      var n := |ids| - 1;
      assert ids == ids[..n] + [ids[n]];
      AllOpen(s, ids[..n]);
    }
  }

  /** An engine with one subscriber to which `m0` was sent, and `m` stored and next. */
  ghost predicate NextIsStored(s: State, t: Topic, m0: Msg, m: Msg) {
    && s.forwarding == Busy([(t, m)]) && s.history == [(t, m0), (t, m)] && s.done == 1
    && s.stored == [Kept((t, m), Some(1))]
    && s.registry == map[t := [0]] && s.sinks == map[0 := Sink(t, [m0], false, true)]
  }

  /** Two messages arrive, the second one stored. */
  lemma TwoArrive(t: Topic, m0: Msg, m: Msg) returns (moves: seq<Move>, s: State)
    ensures Run(INIT, moves) == Some(s)
    ensures s.pc == Top && s.forwarding == Busy([(t, m0), (t, m)]) && s.history == [(t, m0), (t, m)] && s.done == 0
    ensures s.stored == [Kept((t, m), Some(1))]
    ensures s.registry == map[t := [0]] && s.sinks == map[0 := Sink(t, [], true, true)]
  {
    var batch := [Accepted((t, m0), false), Accepted((t, m), true)];
    BatchOfTwo(t, m0, m);
    hide Run, Items, KeptOf, PastOf, Msgs;
    var s1 := AddSink(INIT, 0, t, true);
    NothingStored(t);
    var none: seq<SinkId> := [];
    assert none + [0] == [0];
    assert s1.sinks == map[0 := Sink(t, [], true, true)] && s1.registry == map[t := [0]];
    var s2 := s1.(pc := Top);
    s := Accept(s2, batch);
    RunNothing(INIT);
    Then(INIT, [], INIT, Subscribe(0, t, true), s1);
    Then(INIT, [] + [Subscribe(0, t, true)], s1, Poll, s2);
    Then(INIT, [] + [Subscribe(0, t, true)] + [Poll], s2, Event(Notifications(batch)), s);
    moves := [] + [Subscribe(0, t, true)] + [Poll] + [Event(Notifications(batch))];
  }

  lemma RunNothing(s: State)
    ensures Run(s, []) == Some(s)
  {
  }

  lemma NothingStored(t: Topic)
    ensures PastOf([], t) == [] && Msgs([]) == []
  {
  }

  lemma BatchOfTwo(t: Topic, m0: Msg, m: Msg)
    ensures var batch := [Accepted((t, m0), false), Accepted((t, m), true)];
            Items(batch) == [(t, m0), (t, m)] && KeptOf(batch, 0) == [Kept((t, m), Some(1))]
  {
    var batch := [Accepted((t, m0), false), Accepted((t, m), true)];
    var first := [Accepted((t, m0), false)];
    assert batch[..1] == first && first[..0] == [];
    assert KeptOf([], 0) == [];
    assert KeptOf(first, 0) == [];
    assert KeptOf(batch, 0) == KeptOf(first, 0) + [Kept((t, m), Some(1))];
  }

  /** The first message fills the only channel... */
  lemma FirstFills(moves: seq<Move>, s: State, t: Topic, m0: Msg, m: Msg) returns (more: seq<Move>, f: State)
    requires Run(INIT, moves) == Some(s)
    requires s.pc == Top && s.forwarding == Busy([(t, m0), (t, m)]) && s.history == [(t, m0), (t, m)] && s.done == 0
    requires s.stored == [Kept((t, m), Some(1))]
    requires s.registry == map[t := [0]] && s.sinks == map[0 := Sink(t, [], true, true)]
    ensures Run(INIT, more) == Some(f) && f.pc == Top && NextIsStored(f, t, m0, m)
  {
    hide Run, OpenOnes;
    var item := (t, m0);
    var a := s.(forwarding := Busy([(t, m)]), pc := Checking(item, 0));
    assert s.forwarding.queue[1..] == [(t, m)];
    Then(INIT, moves, s, Pop, a);
    var b := a.(pc := Checking(item, 1));
    Then(INIT, moves + [Pop], a, Check, b);
    var c := b.(pc := Filtering(item));
    Then(INIT, moves + [Pop] + [Check], b, Check, c);
    AllOpen(c, [0]);
    var d := c.(registry := c.registry[t := [0]], pc := Sending(item, 0));
    Then(INIT, moves + [Pop] + [Check] + [Check], c, Filter, d);
    var e := d.(sinks := d.sinks[0 := Sink(t, [] + [m0], false, true)], pc := Sending(item, 1));
    Then(INIT, moves + [Pop] + [Check] + [Check] + [Filter], d, Send(true), e);
    f := e.(pc := Top, done := 1);
    more := moves + [Pop] + [Check] + [Check] + [Filter] + [Send(true)];
    Then(INIT, more, e, Send(true), f);
    more := more + [Send(true)];
    assert [] + [m0] == [m0];
    assert f.registry == map[t := [0]] && f.sinks == map[0 := Sink(t, [m0], false, true)];
  }

  /** ...so `poll` returns with the second one queued. */
  lemma SecondWaits(moves: seq<Move>, f: State, t: Topic, m0: Msg, m: Msg) returns (more: seq<Move>, s': State)
    requires Run(INIT, moves) == Some(f) && f.pc == Top && NextIsStored(f, t, m0, m)
    ensures Run(INIT, more) == Some(s') && s'.pc == Parked && NextIsStored(s', t, m0, m)
  {
    hide Run, OpenOnes;
    more := moves;
    var g := f.(forwarding := Busy([]), pc := Checking((t, m), 0));
    assert f.forwarding.queue[1..] == [];
    Then(INIT, more, f, Pop, g);
    more := more + [Pop];
    var h := g.(forwarding := Busy([(t, m)]), pc := Ending);
    assert [(t, m)] + [] == [(t, m)];
    Then(INIT, more, g, Check, h);
    more := more + [Check];
    s' := h.(pc := Parked);
    Then(INIT, more, h, Park, s');
    more := more + [Park];
  }

  /** Whoever subscribes then is given the second message, and gets it again once there is
      room. */
  lemma SecondComesAgain(s: State, t: Topic, m0: Msg, m: Msg) returns (after: seq<Move>)
    requires s.pc == Parked && NextIsStored(s, t, m0, m)
    ensures Step(s, Subscribe(1, t, true)).Some?
    ensures Run(Step(s, Subscribe(1, t, true)).value, after).Some?
    ensures var s' := Run(Step(s, Subscribe(1, t, true)).value, after).value;
            IsOpen(s', 1) && s'.sinks[1].received == [m, m]
  {
    hide Run, OpenOnes;
    OneStored(t, m);
    hide PastOf, Msgs;
    var s1 := AddSink(s, 1, t, true);
    var first: seq<SinkId> := [0];
    assert first + [1] == [0, 1];
    RunNothing(s1);
    var a := s1.(sinks := s1.sinks[0 := Sink(t, [m0], true, true)]);
    Then(s1, [], s1, Drain(0), a);
    after := [] + [Drain(0)];
    var b := a.(pc := Top);
    Then(s1, after, a, Poll, b);
    after := after + [Poll];
    var c := b.(forwarding := Busy([]), pc := Checking((t, m), 0));
    assert b.forwarding.queue[1..] == [];
    Then(s1, after, b, Pop, c);
    after := BothGetIt(s1, after + [Pop], c, t, m0, m);
  }

  /** Two sinks with room, one of which has the item already. */
  lemma BothGetIt(s1: State, moves: seq<Move>, c: State, t: Topic, m0: Msg, m: Msg) returns (after: seq<Move>)
    requires Run(s1, moves) == Some(c) && c.pc == Checking((t, m), 0) && c.forwarding.Busy?
    requires Registered(c, t) == [0, 1]
    requires c.sinks == map[0 := Sink(t, [m0], true, true), 1 := Sink(t, [m], true, true)]
    ensures Run(s1, after).Some? && IsOpen(Run(s1, after).value, 1) && Run(s1, after).value.sinks[1].received == [m, m]
  {
    hide Run, OpenOnes;
    var item := (t, m);
    var d := c.(pc := Checking(item, 1));
    Then(s1, moves, c, Check, d);
    var e := d.(pc := Checking(item, 2));
    after := moves + [Check];
    Then(s1, after, d, Check, e);
    after := after + [Check];
    var f := e.(pc := Filtering(item));
    Then(s1, after, e, Check, f);
    after := after + [Check];
    AllOpen(f, [0, 1]);
    var g := f.(registry := f.registry[t := [0, 1]], pc := Sending(item, 0));
    Then(s1, after, f, Filter, g);
    after := after + [Filter];
    var h := SendOne(g, item, 0, false);
    assert h.pc == Sending(item, 1) && h.sinks[1] == Sink(t, [m], true, true);
    Then(s1, after, g, Send(false), h);
    after := after + [Send(false)];
    var i := SendOne(h, item, 1, false);
    assert i.sinks[1].received == [m] + [m];
    Then(s1, after, h, Send(false), i);
    after := after + [Send(false)];
  }

  lemma OneStored(t: Topic, m: Msg)
    ensures var kept := [Kept((t, m), Some(1))];
            PastOf(kept, t) == kept && Msgs(kept) == [m]
  {
    var kept := [Kept((t, m), Some(1))];
    assert kept[..0] == [];
    assert Where(kept[..0], (item: Item) => item.0 == t) == [] && Msgs(kept[..0]) == [];
  }

  /** The case: a subscriber that registers while a stored message is queued gets it twice. */
  lemma QueuedComesTwice(t: Topic, m0: Msg, m: Msg) returns (before: seq<Move>, after: seq<Move>)
    ensures Run(INIT, before).Some? && Step(Run(INIT, before).value, Subscribe(1, t, true)).Some?
    ensures Run(Step(Run(INIT, before).value, Subscribe(1, t, true)).value, after).Some?
    ensures var s := Run(Step(Run(INIT, before).value, Subscribe(1, t, true)).value, after).value;
            IsOpen(s, 1) && s.sinks[1].received == [m, m]
  {
    hide Run, Step;
    var moves, s := TwoArrive(t, m0, m);
    var s1;
    moves, s := FirstFills(moves, s, t, m0, m);
    before, s1 := SecondWaits(moves, s, t, m0, m);
    after := SecondComesAgain(s1, t, m0, m);
  }
}
