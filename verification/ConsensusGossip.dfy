/** Which message goes to which peer: the bookkeeping of the consensus gossip. Every peer has
    the set of messages it is known to have; messages are broadcast to peers that lack them.

    The validator decides per call: its verdicts, permissions and expiries are functions given
    with each operation, so they may change from one operation to the next. */
module ConsensusGossip {
  import opened Types

  type PeerId = nat
  type Topic = nat
  type Msg = seq<byte>
  const KNOWN_MESSAGES_CACHE_SIZE := 8192

  datatype Intent = Broadcast | ForcedBroadcast | PeriodicRebroadcast

  datatype Validation = ProcessAndKeep(topic: Topic) | ProcessAndDiscard(topic: Topic) | Discard

  type Allowed = (PeerId, Intent, Topic, Msg) -> bool
  type Verdict = (PeerId, Msg) -> Validation
  type Evict = nat -> Hash

  /** What happened with a peer during its connection. */
  datatype PeerEvent =
    | Sent(hash: Hash, intent: Intent)
    | SentDirectly(hash: Hash)
    | Accepted(hash: Hash, keep: bool)
    | Duplicate(hash: Hash)

  /** A garbage collection: after how many events of the connection, and what was in the cache of
      known messages then. */
  datatype Sweep = Sweep(at: nat, cache: set<Hash>)

  /** `known` is what the program keeps; `log` and `sweeps` record the connection for the proof. */
  datatype Peer = Peer(known: set<Hash>, log: seq<PeerEvent>, sweeps: seq<Sweep>)

  const NEW_PEER := Peer({}, [], [])

  /** The peer after an event: it is known to have the message. */
  function Logged(p: Peer, e: PeerEvent): Peer {
    p.(known := p.known + {e.hash}, log := p.log + [e])
  }

  /** The peer after a collection: it is forgotten to have what is not in the cache. */
  function Swept(p: Peer, cache: set<Hash>): Peer {
    p.(known := p.known * cache, sweeps := p.sweeps + [Sweep(|p.log|, cache)])
  }

  datatype Entry = Entry(hash: Hash, topic: Topic, message: Msg)

  /** A message handed to the upper layer. */
  datatype Forward = Forward(hash: Hash, keep: bool)

  datatype State = State(peers: map<PeerId, Peer>, messages: seq<Entry>, known: set<Hash>, forwarded: seq<Forward>)

  const INIT := State(map[], [], {}, [])

  // ---- registering ----

  /** Inserting into the cache of known messages; over the limit `victim` is evicted. */
  function Remember(known: set<Hash>, h: Hash, victim: Hash): set<Hash> {
    if h in known || |known| < KNOWN_MESSAGES_CACHE_SIZE then known + {h} else (known - {victim}) + {h}
  }

  /** The cache reports new keys as inserted; `again` is what it reports for a key it has. */
  function Register(s: State, e: Entry, again: bool, victim: Hash): State {
    s.(messages := if e.hash !in s.known || again then s.messages + [e] else s.messages,
       known := Remember(s.known, e.hash, victim))
  }

  // ---- sending ----

  /** The intent a message goes out with, or `None` if it is not to be sent. */
  function EffectiveIntent(intent: Intent, peerKnows: bool): Option<Intent> {
    match intent
    case Broadcast => if peerKnows then None else Some(Broadcast)
    case PeriodicRebroadcast => if peerKnows then Some(PeriodicRebroadcast) else Some(Broadcast)
    case ForcedBroadcast => Some(ForcedBroadcast)
  }

  function SendOne(p: Peer, who: PeerId, e: Entry, intent: Intent, allowed: Allowed): Peer {
    match EffectiveIntent(intent, e.hash in p.known)
    case None => p
    case Some(eff) =>
      if allowed(who, eff, e.topic, e.message)
      then Logged(p, Sent(e.hash, eff))
      else p
  }

  function SendAll(p: Peer, who: PeerId, items: seq<Entry>, intent: Intent, allowed: Allowed): Peer {
    if items == [] then p
    else SendOne(SendAll(p, who, items[..|items| - 1], intent, allowed), who, items[|items| - 1], intent, allowed)
  }

  /** `propagate`: every peer, every message. */
  function PropagateTo(s: State, items: seq<Entry>, intent: Intent, allowed: Allowed): State {
    s.(peers := map who | who in s.peers :: SendAll(s.peers[who], who, items, intent, allowed))
  }

  function OfTopic(messages: seq<Entry>, t: Topic): (r: seq<Entry>)
    ensures forall e :: e in r <==> e in messages && e.topic == t
  {
    if messages == [] then []
    else
      var last := messages[|messages| - 1];
      assert messages == messages[..|messages| - 1] + [last];
      OfTopic(messages[..|messages| - 1], t) + if last.topic == t then [last] else []
  }

  function ForceIntent(force: bool): Intent {
    if force then ForcedBroadcast else Broadcast
  }

  // ---- receiving ----

  /** One incoming message of a batch; `victim` is the hash evicted if the cache is full. */
  function Receive(s: State, hash: Msg -> Hash, who: PeerId, m: Msg, verdict: Verdict, victim: Hash): State {
    var h := hash(m);
    if h in s.known then
      if who in s.peers then
        s.(peers := s.peers[who := Logged(s.peers[who], Duplicate(h))])
      else s
    else
      match verdict(who, m)
      case Discard => s
      case ProcessAndKeep(topic) =>
        if who !in s.peers then s
        else Register(Accept(s, who, h, true), Entry(h, topic, m), false, victim)
      case ProcessAndDiscard(topic) =>
        if who !in s.peers then s else Accept(s, who, h, false)
  }

  function Accept(s: State, who: PeerId, h: Hash, keep: bool): State
    requires who in s.peers
  {
    s.(peers := s.peers[who := Logged(s.peers[who], Accepted(h, keep))],
       forwarded := s.forwarded + [Forward(h, keep)])
  }

  /** A batch; `evict` gives the victim for each position. */
  function Incoming(s: State, hash: Msg -> Hash, who: PeerId, ms: seq<Msg>, verdict: Verdict, evict: Evict): State {
    if ms == [] then s
    else
      var n := |ms| - 1;
      Receive(Incoming(s, hash, who, ms[..n], verdict, evict), hash, who, ms[n], verdict, evict(n))
  }

  /** Expired messages go, and peers forget what is not in the cache. */
  function CollectGarbage(s: State, expired: (Topic, Msg) -> bool): State {
    s.(messages := Unexpired(s.messages, expired),
       peers := map who | who in s.peers :: Swept(s.peers[who], s.known))
  }

  function Unexpired(messages: seq<Entry>, expired: (Topic, Msg) -> bool): (r: seq<Entry>)
    ensures forall e :: e in r <==> e in messages && !expired(e.topic, e.message)
  {
    if messages == [] then []
    else
      var last := messages[|messages| - 1];
      assert messages == messages[..|messages| - 1] + [last];
      Unexpired(messages[..|messages| - 1], expired) + if expired(last.topic, last.message) then [] else [last]
  }

  // ---- operations ----

  datatype Op =
    | NewPeer(who: PeerId)
    | Disconnect(who: PeerId)
    | RegisterMessage(topic: Topic, message: Msg, again: bool)
    | BroadcastTopic(topic: Topic, force: bool, allowed: Allowed)
    | Rebroadcast(allowed: Allowed)
    | Multicast(topic: Topic, message: Msg, force: bool, allowed: Allowed, again: bool)
    | SendTopic(who: PeerId, topic: Topic, force: bool, allowed: Allowed)
    | SendMessage(who: PeerId, message: Msg)
    | OnIncoming(who: PeerId, messages: seq<Msg>, verdict: Verdict)
    | Collect(expired: (Topic, Msg) -> bool)

  function Apply(s: State, hash: Msg -> Hash, op: Op, evict: Evict): State {
    match op
    case NewPeer(who) => s.(peers := s.peers[who := NEW_PEER])
    case Disconnect(who) => s.(peers := s.peers - {who})
    case RegisterMessage(t, m, again) => Register(s, Entry(hash(m), t, m), again, evict(0))
    case BroadcastTopic(t, force, allowed) => PropagateTo(s, OfTopic(s.messages, t), ForceIntent(force), allowed)
    case Rebroadcast(allowed) => PropagateTo(s, s.messages, PeriodicRebroadcast, allowed)
    case Multicast(t, m, force, allowed, again) =>
      var e := Entry(hash(m), t, m);
      PropagateTo(Register(s, e, again, evict(0)), [e], ForceIntent(force), allowed)
    case SendTopic(who, t, force, allowed) =>
      if who in s.peers
      then s.(peers := s.peers[who := SendAll(s.peers[who], who, OfTopic(s.messages, t), ForceIntent(force), allowed)])
      else s
    case SendMessage(who, m) =>
      if who in s.peers
      then s.(peers := s.peers[who := Logged(s.peers[who], SentDirectly(hash(m)))])
      else s
    case OnIncoming(who, ms, verdict) => Incoming(s, hash, who, ms, verdict, evict)
    case Collect(expired) => CollectGarbage(s, expired)
  }

  // ---- what a peer is known to have ----

  /** Event `i` is about `h`, and `h` was in the cache at every later collection. */
  ghost predicate Outlasts(p: Peer, i: int, h: Hash) {
    && 0 <= i < |p.log| && p.log[i].hash == h
    && (forall k :: 0 <= k < |p.sweeps| && p.sweeps[k].at > i ==> h in p.sweeps[k].cache)
  }

  ghost predicate Remembered(p: Peer, h: Hash) {
    exists i :: Outlasts(p, i, h)
  }

  /** Between the events `i` and `j` a collection forgot the message of event `i`. */
  ghost predicate ForgottenBetween(p: Peer, i: int, j: int)
    requires 0 <= i < |p.log|
  {
    exists k :: 0 <= k < |p.sweeps| && i < p.sweeps[k].at <= j && p.log[i].hash !in p.sweeps[k].cache
  }

  /** A peer is known to have exactly the messages it is remembered for, and a message is
      broadcast to it after an earlier event about that message only if it was forgotten in
      between. */
  ghost predicate Tracked(p: Peer) {
    && (forall k :: 0 <= k < |p.sweeps| ==> p.sweeps[k].at <= |p.log|)
    && (forall h :: h in p.known <==> Remembered(p, h))
    && (forall i, j :: 0 <= i < j < |p.log| && p.log[j] == Sent(p.log[i].hash, Broadcast) ==> ForgottenBetween(p, i, j))
  }

  ghost predicate AllTracked(s: State) {
    forall who :: who in s.peers ==> Tracked(s.peers[who])
  }

  lemma NewTracked()
    ensures Tracked(NEW_PEER)
  {
  }

  lemma LoggedRemembers(p: Peer, e: PeerEvent, h: Hash)
    requires forall k :: 0 <= k < |p.sweeps| ==> p.sweeps[k].at <= |p.log|
    ensures Remembered(Logged(p, e), h) <==> Remembered(p, h) || h == e.hash
  {
    var p' := Logged(p, e);
    if Remembered(p, h) {
      var i :| Outlasts(p, i, h);
      assert Outlasts(p', i, h);
    }
    if h == e.hash { assert Outlasts(p', |p.log|, h); }
    if Remembered(p', h) && h != e.hash {
      var i :| Outlasts(p', i, h);
      assert Outlasts(p, i, h);
    }
  }

  lemma LoggedTracked(p: Peer, e: PeerEvent)
    requires Tracked(p) && (e.Sent? && e.intent == Broadcast ==> e.hash !in p.known)
    ensures Tracked(Logged(p, e))
  {
    hide Remembered;
    var p' := Logged(p, e);
    forall h ensures h in p'.known <==> Remembered(p', h) { LoggedRemembers(p, e, h); }
    forall i, j | 0 <= i < j < |p'.log| && p'.log[j] == Sent(p'.log[i].hash, Broadcast)
      ensures ForgottenBetween(p', i, j)
    {
      assert p'.log[i] == p.log[i];
      if j < |p.log| {
        assert ForgottenBetween(p, i, j);
      } else {
        NotRemembered(p, p.log[i].hash, i);
      }
    }
  }

  lemma NotRemembered(p: Peer, h: Hash, i: nat)
    requires !Remembered(p, h) && i < |p.log| && p.log[i].hash == h
    requires forall k :: 0 <= k < |p.sweeps| ==> p.sweeps[k].at <= |p.log|
    ensures ForgottenBetween(p, i, |p.log|)
  {
    assert !Outlasts(p, i, h);
  }

  lemma SweptTracked(p: Peer, cache: set<Hash>)
    requires Tracked(p)
    ensures Tracked(Swept(p, cache))
  {
    hide Remembered, ForgottenBetween;
    var p' := Swept(p, cache);
    forall h ensures h in p'.known <==> Remembered(p', h) { SweptRemembers(p, cache, h); }
    forall i, j | 0 <= i < j < |p'.log| && p'.log[j] == Sent(p'.log[i].hash, Broadcast)
      ensures ForgottenBetween(p', i, j)
    {
      SweptForgets(p, cache, i, j);
    }
  }

  lemma SweptRemembers(p: Peer, cache: set<Hash>, h: Hash)
    ensures Remembered(Swept(p, cache), h) <==> Remembered(p, h) && h in cache
  {
    var p' := Swept(p, cache);
    if Remembered(p, h) && h in cache {
      var i :| Outlasts(p, i, h);
      assert Outlasts(p', i, h);
    }
    if Remembered(p', h) {
      var i :| Outlasts(p', i, h);
      assert p'.sweeps[|p.sweeps|] == Sweep(|p.log|, cache);
      assert forall k :: 0 <= k < |p.sweeps| ==> p'.sweeps[k] == p.sweeps[k];
      assert Outlasts(p, i, h);
    }
  }

  lemma SweptForgets(p: Peer, cache: set<Hash>, i: nat, j: nat)
    requires i < |p.log| && ForgottenBetween(p, i, j)
    ensures ForgottenBetween(Swept(p, cache), i, j)
  {
    var k :| 0 <= k < |p.sweeps| && i < p.sweeps[k].at <= j && p.log[i].hash !in p.sweeps[k].cache;
    assert Swept(p, cache).sweeps[k] == p.sweeps[k];
  }

  lemma {:induction false} SendAllTracked(p: Peer, who: PeerId, items: seq<Entry>, intent: Intent, allowed: Allowed)
    requires Tracked(p)
    ensures Tracked(SendAll(p, who, items, intent, allowed))
  {
    hide Tracked, Logged;
    if items != [] {
      var e := items[|items| - 1];
      SendAllTracked(p, who, items[..|items| - 1], intent, allowed);
      var q := SendAll(p, who, items[..|items| - 1], intent, allowed);
      var eff := EffectiveIntent(intent, e.hash in q.known);
      if eff.Some? { LoggedTracked(q, Sent(e.hash, eff.value)); }
    }
  }

  lemma PropagateTracked(s: State, items: seq<Entry>, intent: Intent, allowed: Allowed)
    requires AllTracked(s)
    ensures AllTracked(PropagateTo(s, items, intent, allowed))
  {
    hide Tracked, SendAll;
    forall who | who in s.peers
      ensures Tracked(SendAll(s.peers[who], who, items, intent, allowed))
    {
      SendAllTracked(s.peers[who], who, items, intent, allowed);
    }
  }

  lemma ReceiveTracked(s: State, hash: Msg -> Hash, who: PeerId, m: Msg, verdict: Verdict, victim: Hash)
    requires AllTracked(s)
    ensures AllTracked(Receive(s, hash, who, m, verdict, victim))
  {
    hide Tracked, Logged, Remember;
    if who in s.peers {
      LoggedTracked(s.peers[who], Duplicate(hash(m)));
      LoggedTracked(s.peers[who], Accepted(hash(m), true));
      LoggedTracked(s.peers[who], Accepted(hash(m), false));
    }
  }

  lemma {:induction false} IncomingTracked(s: State, hash: Msg -> Hash, who: PeerId, ms: seq<Msg>, verdict: Verdict,
                                           evict: Evict)
    requires AllTracked(s)
    ensures AllTracked(Incoming(s, hash, who, ms, verdict, evict))
  {
    hide AllTracked, Receive;
    if ms != [] {
      var n := |ms| - 1;
      IncomingTracked(s, hash, who, ms[..n], verdict, evict);
      ReceiveTracked(Incoming(s, hash, who, ms[..n], verdict, evict), hash, who, ms[n], verdict, evict(n));
    }
  }

  lemma CollectTracked(s: State, expired: (Topic, Msg) -> bool)
    requires AllTracked(s)
    ensures AllTracked(CollectGarbage(s, expired))
  {
    hide Tracked, Swept, Unexpired;
    forall who | who in s.peers ensures Tracked(Swept(s.peers[who], s.known)) { SweptTracked(s.peers[who], s.known); }
  }

  lemma ApplyTracked(s: State, hash: Msg -> Hash, op: Op, evict: Evict)
    requires AllTracked(s)
    ensures AllTracked(Apply(s, hash, op, evict))
  {
    hide SendAll, Remember, OfTopic, Tracked, Logged, CollectGarbage;
    match op
    case NewPeer(who) => NewTracked();
    case Disconnect(who) =>
    case RegisterMessage(t, m, again) =>
    case BroadcastTopic(t, force, allowed) => PropagateTracked(s, OfTopic(s.messages, t), ForceIntent(force), allowed);
    case Rebroadcast(allowed) => PropagateTracked(s, s.messages, PeriodicRebroadcast, allowed);
    case Multicast(t, m, force, allowed, again) =>
      var e := Entry(hash(m), t, m);
      PropagateTracked(Register(s, e, again, evict(0)), [e], ForceIntent(force), allowed);
    case SendTopic(who, t, force, allowed) =>
      if who in s.peers {
        SendAllTracked(s.peers[who], who, OfTopic(s.messages, t), ForceIntent(force), allowed);
      }
    case SendMessage(who, m) => if who in s.peers { LoggedTracked(s.peers[who], SentDirectly(hash(m))); }
    case OnIncoming(who, ms, verdict) => IncomingTracked(s, hash, who, ms, verdict, evict);
    case Collect(expired) => CollectTracked(s, expired);
  }

  // ---- runs ----

  function Run(s: State, hash: Msg -> Hash, ops: seq<Op>, evicts: seq<Evict>): State
    requires |ops| == |evicts|
    decreases |ops|
  {
    if ops == [] then s else Run(Apply(s, hash, ops[0], evicts[0]), hash, ops[1..], evicts[1..])
  }

  lemma {:induction false} RunTracked(s: State, hash: Msg -> Hash, ops: seq<Op>, evicts: seq<Evict>)
    requires |ops| == |evicts| && AllTracked(s)
    ensures AllTracked(Run(s, hash, ops, evicts))
    decreases |ops|
  {
    hide AllTracked, Apply;
    if ops != [] {
      ApplyTracked(s, hash, ops[0], evicts[0]);
      RunTracked(Apply(s, hash, ops[0], evicts[0]), hash, ops[1..], evicts[1..]);
    }
  }

  /** Over every run, with any evictions and collections: a connected peer is known to have a
      message if and only if some event of the connection about it was followed only by
      collections that found it in the cache; and a message is broadcast to a peer after an
      earlier event about it only if a collection in between did not. */
  lemma MemoryIsExact(hash: Msg -> Hash, ops: seq<Op>, evicts: seq<Evict>, who: PeerId)
    requires |ops| == |evicts| && who in Run(INIT, hash, ops, evicts).peers
    ensures var p := Run(INIT, hash, ops, evicts).peers[who];
            && (forall h :: h in p.known <==> Remembered(p, h))
            && (forall i, j :: 0 <= i < j < |p.log| && p.log[j] == Sent(p.log[i].hash, Broadcast) ==>
                  ForgottenBetween(p, i, j))
  {
    RunTracked(INIT, hash, ops, evicts);
    hide Run, Remembered, ForgottenBetween;
    assert Tracked(Run(INIT, hash, ops, evicts).peers[who]);
  }

  /** A list sent without force adds a broadcast of `h` if and only if the peer is not known to
      have it and the validator allows one of its entries; by force, if and only if it allows
      one. Whatever becomes known was sent. */
  lemma {:induction false} SendAllExact(p: Peer, who: PeerId, items: seq<Entry>, intent: Intent, allowed: Allowed,
                                        h: Hash)
    ensures var p' := SendAll(p, who, items, intent, allowed);
            && |p.log| <= |p'.log| && p'.log[..|p.log|] == p.log && p'.sweeps == p.sweeps
            && (intent != ForcedBroadcast ==>
                  (Sent(h, Broadcast) in p'.log[|p.log|..] <==>
                     h !in p.known && AllowsOne(who, items, Broadcast, allowed, h)))
            && (intent == ForcedBroadcast ==>
                  (Sent(h, ForcedBroadcast) in p'.log[|p.log|..] <==>
                     AllowsOne(who, items, ForcedBroadcast, allowed, h)))
            && (h in p'.known <==>
                  || h in p.known
                  || (intent != ForcedBroadcast && AllowsOne(who, items, Broadcast, allowed, h))
                  || (intent == ForcedBroadcast && AllowsOne(who, items, ForcedBroadcast, allowed, h)))
  {
    hide AllowsOne;
    if items == [] {
      AllowsNone(who, intent, allowed, h);
      AllowsNone(who, Broadcast, allowed, h);
    } else {
      var n := |items| - 1;
      SendAllExact(p, who, items[..n], intent, allowed, h);
      AllowsSnoc(who, items, Broadcast, allowed, h);
      AllowsSnoc(who, items, ForcedBroadcast, allowed, h);
      SendOneSuffix(p, SendAll(p, who, items[..n], intent, allowed), who, items[n], intent, allowed);
    }
  }

  /** Some entry of the list with this hash may go to the peer with this intent. */
  ghost predicate AllowsOne(who: PeerId, items: seq<Entry>, intent: Intent, allowed: Allowed, h: Hash) {
    exists e :: e in items && e.hash == h && allowed(who, intent, e.topic, e.message)
  }

  lemma AllowsNone(who: PeerId, intent: Intent, allowed: Allowed, h: Hash)
    ensures !AllowsOne(who, [], intent, allowed, h)
  {
  }

  lemma AllowsSnoc(who: PeerId, items: seq<Entry>, intent: Intent, allowed: Allowed, h: Hash)
    requires items != []
    ensures var n := |items| - 1;
            AllowsOne(who, items, intent, allowed, h) <==>
              || AllowsOne(who, items[..n], intent, allowed, h)
              || (items[n].hash == h && allowed(who, intent, items[n].topic, items[n].message))
  {
    var n := |items| - 1;
    assert items == items[..n] + [items[n]];
    if items[n].hash == h && allowed(who, intent, items[n].topic, items[n].message) { assert items[n] in items; }
  }

  /** Sending one more entry adds at most one event after those added so far. */
  lemma SendOneSuffix(p: Peer, q: Peer, who: PeerId, e: Entry, intent: Intent, allowed: Allowed)
    requires |p.log| <= |q.log| && q.log[..|p.log|] == p.log
    ensures var q' := SendOne(q, who, e, intent, allowed);
            && |p.log| <= |q'.log| && q'.log[..|p.log|] == p.log && q'.sweeps == q.sweeps
            && var eff := EffectiveIntent(intent, e.hash in q.known);
               if eff.Some? && allowed(who, eff.value, e.topic, e.message)
               then q'.log[|p.log|..] == q.log[|p.log|..] + [Sent(e.hash, eff.value)] && q'.known == q.known + {e.hash}
               else q' == q
  {
  }

  /** When a message comes back: in every reachable state, propagating without force broadcasts
      `h` to a connected peer if and only if every earlier event of the connection about `h` was
      followed by a collection that did not find it in the cache, and the validator allows an
      entry with it. */
  lemma BroadcastIff(hash: Msg -> Hash, ops: seq<Op>, evicts: seq<Evict>, who: PeerId,
                     items: seq<Entry>, intent: Intent, allowed: Allowed, h: Hash)
    requires |ops| == |evicts| && who in Run(INIT, hash, ops, evicts).peers && intent != ForcedBroadcast
    ensures var s := Run(INIT, hash, ops, evicts);
            var p, p' := s.peers[who], PropagateTo(s, items, intent, allowed).peers[who];
            && |p.log| <= |p'.log|
            && (Sent(h, Broadcast) in p'.log[|p.log|..] <==>
                  && (forall i :: 0 <= i < |p.log| && p.log[i].hash == h ==> ForgottenBetween(p, i, |p.log|))
                  && AllowsOne(who, items, Broadcast, allowed, h))
  {
    hide Run, SendAll, AllowsOne;
    var s := Run(INIT, hash, ops, evicts);
    var p := s.peers[who];
    RunTracked(INIT, hash, ops, evicts);
    assert Tracked(p);
    SendAllExact(p, who, items, intent, allowed, h);
    RememberedIff(p, h);
  }

  lemma RememberedIff(p: Peer, h: Hash)
    requires Tracked(p)
    ensures h !in p.known <==> forall i :: 0 <= i < |p.log| && p.log[i].hash == h ==> ForgottenBetween(p, i, |p.log|)
  {
    if h !in p.known {
      forall i | 0 <= i < |p.log| && p.log[i].hash == h
        ensures ForgottenBetween(p, i, |p.log|)
      {
        NotRemembered(p, h, i);
      }
    } else {
      var i :| Outlasts(p, i, h);
      assert !ForgottenBetween(p, i, |p.log|);
    }
  }

  /** While no collection has happened in a connection, whatever the cache evicts, a message is
      never broadcast to the peer after it was sent it in any way, or sent it to us, kept or
      not. */
  lemma UncollectedBroadcastsAreFresh(hash: Msg -> Hash, ops: seq<Op>, evicts: seq<Evict>, who: PeerId, i: nat, j: nat)
    requires |ops| == |evicts| && who in Run(INIT, hash, ops, evicts).peers
    requires Run(INIT, hash, ops, evicts).peers[who].sweeps == []
    requires i < j < |Run(INIT, hash, ops, evicts).peers[who].log|
    ensures var log := Run(INIT, hash, ops, evicts).peers[who].log;
            log[j] != Sent(log[i].hash, Broadcast)
  {
    hide Run;
    MemoryIsExact(hash, ops, evicts, who);
    assert !ForgottenBetween(Run(INIT, hash, ops, evicts).peers[who], i, j);
  }

  /** `propagate` reaches every connected peer. */
  lemma PropagateReaches(s: State, items: seq<Entry>, intent: Intent, allowed: Allowed, who: PeerId, e: Entry)
    requires who in s.peers && e in items
    ensures var p, p' := s.peers[who], PropagateTo(s, items, intent, allowed).peers[who];
            && |p.log| <= |p'.log|
            && (intent != ForcedBroadcast && e.hash !in p.known && allowed(who, Broadcast, e.topic, e.message) ==>
                  e.hash in p'.known && Sent(e.hash, Broadcast) in p'.log[|p.log|..])
            && (intent == ForcedBroadcast && allowed(who, ForcedBroadcast, e.topic, e.message) ==>
                  e.hash in p'.known && Sent(e.hash, ForcedBroadcast) in p'.log[|p.log|..])
  {
    hide SendAll;
    SendAllExact(s.peers[who], who, items, intent, allowed, e.hash);
    assert allowed(who, Broadcast, e.topic, e.message) ==> AllowsOne(who, items, Broadcast, allowed, e.hash);
    assert allowed(who, ForcedBroadcast, e.topic, e.message) ==>
           AllowsOne(who, items, ForcedBroadcast, allowed, e.hash);
  }

  // ---- what goes to the upper layer ----

  lemma {:induction false} IncomingFrame(s: State, hash: Msg -> Hash, who: PeerId, ms: seq<Msg>, verdict: Verdict,
                                         evict: Evict)
    ensures var s' := Incoming(s, hash, who, ms, verdict, evict);
            && s'.peers.Keys == s.peers.Keys && s.forwarded <= s'.forwarded
            && (forall h :: h in s'.known ==> h in s.known || exists j :: 0 <= j < |ms| && hash(ms[j]) == h)
  {
    hide Logged;
    if ms != [] {
      var n := |ms| - 1;
      IncomingFrame(s, hash, who, ms[..n], verdict, evict);
      var s1 := Incoming(s, hash, who, ms[..n], verdict, evict);
      var s' := Incoming(s, hash, who, ms, verdict, evict);
      forall h | h in s'.known
        ensures h in s.known || exists j :: 0 <= j < |ms| && hash(ms[j]) == h
      {
        if h in s1.known && h !in s.known {
          var j :| 0 <= j < n && hash(ms[..n][j]) == h;
          assert hash(ms[j]) == h;
        } else if h !in s1.known {
          assert hash(ms[n]) == h;
        }
      }
    }
  }

  /** No new message is lost: one from a connected peer that the validator wants processed, and
      that is neither known nor repeated within the batch, is handed to the upper layer by this
      batch. */
  lemma {:induction false} NewMessageGoesUp(s: State, hash: Msg -> Hash, who: PeerId, ms: seq<Msg>, verdict: Verdict,
                                            evict: Evict, i: nat)
    requires who in s.peers && i < |ms| && !verdict(who, ms[i]).Discard? && hash(ms[i]) !in s.known
    requires forall j :: 0 <= j < i ==> hash(ms[j]) != hash(ms[i])
    ensures var s' := Incoming(s, hash, who, ms, verdict, evict);
            && |s.forwarded| <= |s'.forwarded|
            && Forward(hash(ms[i]), verdict(who, ms[i]).ProcessAndKeep?) in s'.forwarded[|s.forwarded|..]
    decreases |ms|
  {
    hide Logged;
    var n := |ms| - 1;
    var f := Forward(hash(ms[i]), verdict(who, ms[i]).ProcessAndKeep?);
    IncomingFrame(s, hash, who, ms[..n], verdict, evict);
    var s1 := Incoming(s, hash, who, ms[..n], verdict, evict);
    var s' := Incoming(s, hash, who, ms, verdict, evict);
    if i < n {
      NewMessageGoesUp(s, hash, who, ms[..n], verdict, evict, i);
      SuffixGrows(s.forwarded, s1.forwarded, s'.forwarded, f);
    } else {
      assert hash(ms[n]) !in s1.known;
      assert s'.forwarded[|s1.forwarded|] == f;
    }
  }

  lemma SuffixGrows(a: seq<Forward>, b: seq<Forward>, c: seq<Forward>, f: Forward)
    requires a <= b <= c && f in b[|a|..]
    ensures f in c[|a|..]
  {
    var k :| 0 <= k < |b| - |a| && b[|a|..][k] == f;
    assert c[|a|..][k] == f;
  }

  // ---- without eviction ----

  /** An event after which the message is in the cache of known messages. */
  predicate Lasting(e: PeerEvent) {
    e.Sent? || e.Duplicate? || (e.Accepted? && e.keep)
  }

  /** The message of every lasting event is in the cache, and was at every later collection. */
  ghost predicate Lasts(p: Peer, known: set<Hash>) {
    && (forall k :: 0 <= k < |p.sweeps| ==> p.sweeps[k].at <= |p.log|)
    && (forall i :: 0 <= i < |p.log| && Lasting(p.log[i]) ==> p.log[i].hash in known)
    && (forall i, k :: 0 <= i < |p.log| && Lasting(p.log[i]) && 0 <= k < |p.sweeps| && p.sweeps[k].at > i ==>
          p.log[i].hash in p.sweeps[k].cache)
  }

  /** A message that was kept is not handed to the upper layer again. */
  ghost predicate KeptIsLast(forwarded: seq<Forward>) {
    forall i, j :: 0 <= i < j < |forwarded| && forwarded[i].keep ==> forwarded[j].hash != forwarded[i].hash
  }

  ghost predicate Cached(s: State) {
    && (forall e :: e in s.messages ==> e.hash in s.known)
    && (forall who :: who in s.peers ==> Lasts(s.peers[who], s.known))
    && (forall i :: 0 <= i < |s.forwarded| && s.forwarded[i].keep ==> s.forwarded[i].hash in s.known)
    && KeptIsLast(s.forwarded)
  }

  /** No message of the batch drives a hash out of the cache. */
  ghost predicate BatchEvictsNone(s: State, hash: Msg -> Hash, who: PeerId, ms: seq<Msg>, verdict: Verdict,
                                  evict: Evict)
  {
    ms == [] ||
    var front := ms[..|ms| - 1];
    && BatchEvictsNone(s, hash, who, front, verdict, evict)
    && Incoming(s, hash, who, front, verdict, evict).known <= Incoming(s, hash, who, ms, verdict, evict).known
  }

  /** The operation drives no hash out of the cache of known messages. */
  ghost predicate NeverEvicts(s: State, hash: Msg -> Hash, op: Op, evict: Evict) {
    match op
    case OnIncoming(who, ms, verdict) => BatchEvictsNone(s, hash, who, ms, verdict, evict)
    case _ => s.known <= Apply(s, hash, op, evict).known
  }

  lemma LoggedLasts(p: Peer, known: set<Hash>, e: PeerEvent)
    requires Lasts(p, known) && (Lasting(e) ==> e.hash in known)
    ensures Lasts(Logged(p, e), known)
  {
  }

  lemma {:induction false} SendAllLasts(p: Peer, who: PeerId, items: seq<Entry>, intent: Intent, allowed: Allowed,
                                        known: set<Hash>)
    requires Lasts(p, known) && forall e :: e in items ==> e.hash in known
    ensures Lasts(SendAll(p, who, items, intent, allowed), known)
  {
    hide Lasts, Logged;
    if items != [] {
      var front, e := items[..|items| - 1], items[|items| - 1];
      SendAllLasts(p, who, front, intent, allowed, known);
      var q := SendAll(p, who, front, intent, allowed);
      var eff := EffectiveIntent(intent, e.hash in q.known);
      if eff.Some? { LoggedLasts(q, known, Sent(e.hash, eff.value)); }
    }
  }

  lemma PropagateCached(s: State, items: seq<Entry>, intent: Intent, allowed: Allowed)
    requires Cached(s) && forall e :: e in items ==> e.hash in s.known
    ensures Cached(PropagateTo(s, items, intent, allowed))
  {
    hide Lasts, KeptIsLast, SendAll;
    forall who | who in s.peers
      ensures Lasts(SendAll(s.peers[who], who, items, intent, allowed), s.known)
    {
      SendAllLasts(s.peers[who], who, items, intent, allowed, s.known);
    }
  }

  lemma LastsMore(p: Peer, known: set<Hash>, known': set<Hash>)
    requires Lasts(p, known) && known <= known'
    ensures Lasts(p, known')
  {
  }

  lemma RegisterCached(s: State, e: Entry, again: bool, victim: Hash)
    requires Cached(s) && s.known <= Register(s, e, again, victim).known
    ensures Cached(Register(s, e, again, victim)) && e.hash in Register(s, e, again, victim).known
  {
    hide Lasts, KeptIsLast;
    var s' := Register(s, e, again, victim);
    forall who | who in s'.peers ensures Lasts(s'.peers[who], s'.known) { LastsMore(s.peers[who], s.known, s'.known); }
  }

  /** Accepting a message that is not known yet: it goes up, and is kept or not. */
  lemma AcceptCached(s: State, who: PeerId, e: Entry, keep: bool, victim: Hash)
    requires Cached(s) && who in s.peers && e.hash !in s.known
    requires keep ==> s.known <= Remember(s.known, e.hash, victim)
    ensures var a := Accept(s, who, e.hash, keep);
            Cached(if keep then Register(a, e, false, victim) else a)
  {
    hide Lasts, Logged;
    var a := Accept(s, who, e.hash, keep);
    var s' := if keep then Register(a, e, false, victim) else a;
    forall w | w in s'.peers
      ensures Lasts(s'.peers[w], s'.known)
    {
      LastsMore(s.peers[w], s.known, s'.known);
      if w == who { LoggedLasts(s.peers[w], s'.known, Accepted(e.hash, keep)); }
    }
    assert forall i :: 0 <= i < |s.forwarded| && s.forwarded[i].keep ==> s.forwarded[i].hash != e.hash;
    assert forall i :: 0 <= i < |s.forwarded| ==> s'.forwarded[i] == s.forwarded[i];
  }

  lemma ReceiveCached(s: State, hash: Msg -> Hash, who: PeerId, m: Msg, verdict: Verdict, victim: Hash)
    requires Cached(s) && s.known <= Receive(s, hash, who, m, verdict, victim).known
    ensures Cached(Receive(s, hash, who, m, verdict, victim))
  {
    hide KeptIsLast, Lasts, Logged;
    var h := hash(m);
    if h in s.known {
      if who in s.peers { LoggedLasts(s.peers[who], s.known, Duplicate(h)); }
    } else if who in s.peers {
      match verdict(who, m)
      case Discard =>
      case ProcessAndKeep(t) => AcceptCached(s, who, Entry(h, t, m), true, victim);
      case ProcessAndDiscard(t) => AcceptCached(s, who, Entry(h, t, m), false, victim);
    }
  }

  lemma {:induction false} IncomingCached(s: State, hash: Msg -> Hash, who: PeerId, ms: seq<Msg>, verdict: Verdict,
                                          evict: Evict)
    requires Cached(s) && BatchEvictsNone(s, hash, who, ms, verdict, evict)
    ensures Cached(Incoming(s, hash, who, ms, verdict, evict))
  {
    hide Cached, Receive;
    if ms != [] {
      var n := |ms| - 1;
      IncomingCached(s, hash, who, ms[..n], verdict, evict);
      ReceiveCached(Incoming(s, hash, who, ms[..n], verdict, evict), hash, who, ms[n], verdict, evict(n));
    }
  }

  lemma SweptLasts(p: Peer, known: set<Hash>)
    requires Lasts(p, known)
    ensures Lasts(Swept(p, known), known)
  {
    var p' := Swept(p, known);
    assert forall k :: 0 <= k < |p.sweeps| ==> p'.sweeps[k] == p.sweeps[k];
  }

  /** Forgetting what is not in the cache loses nothing that lasts. */
  lemma CollectCached(s: State, expired: (Topic, Msg) -> bool)
    requires Cached(s)
    ensures Cached(CollectGarbage(s, expired))
  {
    hide KeptIsLast, Lasts, Swept;
    forall who | who in s.peers
      ensures Lasts(Swept(s.peers[who], s.known), s.known)
    {
      SweptLasts(s.peers[who], s.known);
    }
  }

  lemma ApplyCached(s: State, hash: Msg -> Hash, op: Op, evict: Evict)
    requires Cached(s) && NeverEvicts(s, hash, op, evict)
    ensures Cached(Apply(s, hash, op, evict))
  {
    hide KeptIsLast, Lasts, SendAll, Logged, Swept, Remember;
    match op
    case NewPeer(who) => NewLasts(s.known);
    case Disconnect(who) =>
    case RegisterMessage(t, m, again) => RegisterCached(s, Entry(hash(m), t, m), again, evict(0));
    case BroadcastTopic(t, force, allowed) => PropagateCached(s, OfTopic(s.messages, t), ForceIntent(force), allowed);
    case Rebroadcast(allowed) => PropagateCached(s, s.messages, PeriodicRebroadcast, allowed);
    case Multicast(t, m, force, allowed, again) =>
      var e := Entry(hash(m), t, m);
      RegisterCached(s, e, again, evict(0));
      PropagateCached(Register(s, e, again, evict(0)), [e], ForceIntent(force), allowed);
    case SendTopic(who, t, force, allowed) =>
      if who in s.peers {
        SendAllLasts(s.peers[who], who, OfTopic(s.messages, t), ForceIntent(force), allowed, s.known);
      }
    case SendMessage(who, m) => if who in s.peers { LoggedLasts(s.peers[who], s.known, SentDirectly(hash(m))); }
    case OnIncoming(who, ms, verdict) => IncomingCached(s, hash, who, ms, verdict, evict);
    case Collect(expired) => CollectCached(s, expired);
  }

  lemma NewLasts(known: set<Hash>)
    ensures Lasts(NEW_PEER, known)
  {
  }

  ghost predicate NeverEvictsRun(s: State, hash: Msg -> Hash, ops: seq<Op>, evicts: seq<Evict>)
    requires |ops| == |evicts|
    decreases |ops|
  {
    ops == [] ||
    (&& NeverEvicts(s, hash, ops[0], evicts[0])
     && NeverEvictsRun(Apply(s, hash, ops[0], evicts[0]), hash, ops[1..], evicts[1..]))
  }

  lemma {:induction false} RunCached(s: State, hash: Msg -> Hash, ops: seq<Op>, evicts: seq<Evict>)
    requires |ops| == |evicts| && Cached(s) && NeverEvictsRun(s, hash, ops, evicts)
    ensures Cached(Run(s, hash, ops, evicts))
    decreases |ops|
  {
    hide Cached, Apply, NeverEvicts;
    if ops != [] {
      ApplyCached(s, hash, ops[0], evicts[0]);
      RunCached(Apply(s, hash, ops[0], evicts[0]), hash, ops[1..], evicts[1..]);
    }
  }

  /** Over any run in which the cache evicts nothing, with any collections: within one
      connection a message is broadcast to a peer at most once, and never to a peer from which
      it was accepted and kept, or which sent it as a duplicate. */
  lemma BroadcastsAreFresh(hash: Msg -> Hash, ops: seq<Op>, evicts: seq<Evict>, who: PeerId, i: nat, j: nat)
    requires |ops| == |evicts| && NeverEvictsRun(INIT, hash, ops, evicts)
    requires who in Run(INIT, hash, ops, evicts).peers
    requires i < j < |Run(INIT, hash, ops, evicts).peers[who].log|
    ensures var log := Run(INIT, hash, ops, evicts).peers[who].log;
            log[j].Sent? && log[j].intent == Broadcast && log[i].hash == log[j].hash ==>
              !log[i].Sent? && !log[i].Duplicate? && log[i] != Accepted(log[j].hash, true)
  {
    assert Cached(INIT);
    RunCached(INIT, hash, ops, evicts);
    MemoryIsExact(hash, ops, evicts, who);
    hide Run, Remembered;
    var p := Run(INIT, hash, ops, evicts).peers[who];
    assert Lasts(p, Run(INIT, hash, ops, evicts).known);
    assert Lasting(p.log[i]) ==> !ForgottenBetween(p, i, j);
  }

  // ---- how often a kept message goes up ----

  /** How often a message was handed to the upper layer. */
  function Times(forwarded: seq<Forward>, h: Hash): nat {
    if forwarded == [] then 0
    else
      var n := |forwarded| - 1;
      Times(forwarded[..n], h) + if forwarded[n].hash == h then 1 else 0
  }

  /** How often it was handed over without being kept. */
  function TimesDiscarded(forwarded: seq<Forward>, h: Hash): nat {
    if forwarded == [] then 0
    else
      var n := |forwarded| - 1;
      TimesDiscarded(forwarded[..n], h) + if forwarded[n] == Forward(h, false) then 1 else 0
  }

  lemma {:induction false} KeptAtMostOnce(forwarded: seq<Forward>, h: Hash)
    requires KeptIsLast(forwarded)
    ensures Times(forwarded, h) == TimesDiscarded(forwarded, h) + if Forward(h, true) in forwarded then 1 else 0
  {
    if forwarded != [] {
      var n := |forwarded| - 1;
      assert forwarded == forwarded[..n] + [forwarded[n]];
      KeptAtMostOnce(forwarded[..n], h);
      if Forward(h, true) in forwarded[..n] {
        var i :| 0 <= i < n && forwarded[i] == Forward(h, true);
        assert forwarded[n].hash != h;
      }
    }
  }

  /** A connected peer offers `h` in the batch, not known at that point, and the validator wants
      it processed and discarded. */
  ghost predicate BatchDiscards(s: State, hash: Msg -> Hash, who: PeerId, ms: seq<Msg>, verdict: Verdict, evict: Evict,
                                h: Hash)
  {
    ms != [] &&
    var n := |ms| - 1;
    || BatchDiscards(s, hash, who, ms[..n], verdict, evict, h)
    || (&& who in s.peers && hash(ms[n]) == h && verdict(who, ms[n]).ProcessAndDiscard?
        && h !in Incoming(s, hash, who, ms[..n], verdict, evict).known)
  }

  ghost predicate RunDiscards(s: State, hash: Msg -> Hash, ops: seq<Op>, evicts: seq<Evict>, h: Hash)
    requires |ops| == |evicts|
    decreases |ops|
  {
    ops != [] &&
    (|| (ops[0].OnIncoming? && BatchDiscards(s, hash, ops[0].who, ops[0].messages, ops[0].verdict, evicts[0], h))
     || RunDiscards(Apply(s, hash, ops[0], evicts[0]), hash, ops[1..], evicts[1..], h))
  }

  lemma {:induction false} BatchDiscardsIff(s: State, hash: Msg -> Hash, who: PeerId, ms: seq<Msg>, verdict: Verdict,
                                            evict: Evict, h: Hash)
    ensures Forward(h, false) in Incoming(s, hash, who, ms, verdict, evict).forwarded <==>
              Forward(h, false) in s.forwarded || BatchDiscards(s, hash, who, ms, verdict, evict, h)
  {
    hide Logged, Remember;
    if ms != [] {
      var n := |ms| - 1;
      BatchDiscardsIff(s, hash, who, ms[..n], verdict, evict, h);
      IncomingFrame(s, hash, who, ms[..n], verdict, evict);
    }
  }

  /** The record of the run holds a discarded acceptance if and only if the operations make one. */
  lemma {:induction false} RunDiscardsIff(s: State, hash: Msg -> Hash, ops: seq<Op>, evicts: seq<Evict>, h: Hash)
    requires |ops| == |evicts|
    ensures Forward(h, false) in Run(s, hash, ops, evicts).forwarded <==>
              Forward(h, false) in s.forwarded || RunDiscards(s, hash, ops, evicts, h)
    decreases |ops|
  {
    hide SendAll, Incoming, Unexpired, OfTopic, Logged, Remember, BatchDiscards;
    if ops != [] {
      var s' := Apply(s, hash, ops[0], evicts[0]);
      if ops[0].OnIncoming? {
        BatchDiscardsIff(s, hash, ops[0].who, ops[0].messages, ops[0].verdict, evicts[0], h);
      } else {
        assert s'.forwarded == s.forwarded;
      }
      RunDiscardsIff(s', hash, ops[1..], evicts[1..], h);
    }
  }

  /** Over any run in which the cache evicts nothing, a kept message goes up once more than it
      went up without being kept, and not again after it was kept. So it goes up exactly once if
      and only if no batch offered it, while it was unknown, for the validator to discard. */
  lemma KeptMessagesGoUpOnce(hash: Msg -> Hash, ops: seq<Op>, evicts: seq<Evict>, h: Hash)
    requires |ops| == |evicts| && NeverEvictsRun(INIT, hash, ops, evicts)
    requires Forward(h, true) in Run(INIT, hash, ops, evicts).forwarded
    ensures var f := Run(INIT, hash, ops, evicts).forwarded;
            && Times(f, h) == TimesDiscarded(f, h) + 1
            && (Times(f, h) == 1 <==> !RunDiscards(INIT, hash, ops, evicts, h))
            && (forall i, j :: 0 <= i < j < |f| && f[i] == Forward(h, true) ==> f[j].hash != h)
  {
    assert Cached(INIT);
    RunCached(INIT, hash, ops, evicts);
    RunDiscardsIff(INIT, hash, ops, evicts, h);
    hide Run, NeverEvictsRun, RunDiscards;
    var f := Run(INIT, hash, ops, evicts).forwarded;
    KeptAtMostOnce(f, h);
    DiscardedIff(f, h);
  }

  lemma {:induction false} DiscardedIff(forwarded: seq<Forward>, h: Hash)
    ensures TimesDiscarded(forwarded, h) == 0 <==> Forward(h, false) !in forwarded
  {
    if forwarded != [] {
      var n := |forwarded| - 1;
      assert forwarded == forwarded[..n] + [forwarded[n]];
      DiscardedIff(forwarded[..n], h);
    }
  }

  /** No batch of the run has a message with this hash that the validator wants discarded. */
  ghost predicate NeverDiscarded(hash: Msg -> Hash, op: Op, h: Hash) {
    op.OnIncoming? ==> forall m :: m in op.messages && hash(m) == h ==> !op.verdict(op.who, m).ProcessAndDiscard?
  }

  lemma {:induction false} IncomingDiscardsNot(s: State, hash: Msg -> Hash, who: PeerId, ms: seq<Msg>, verdict: Verdict,
                                               evict: Evict, h: Hash)
    requires Forward(h, false) !in s.forwarded
    requires forall m :: m in ms && hash(m) == h ==> !verdict(who, m).ProcessAndDiscard?
    ensures Forward(h, false) !in Incoming(s, hash, who, ms, verdict, evict).forwarded
  {
    hide Logged;
    if ms != [] {
      var n := |ms| - 1;
      assert ms == ms[..n] + [ms[n]];
      IncomingDiscardsNot(s, hash, who, ms[..n], verdict, evict, h);
    }
  }

  lemma {:induction false} RunDiscardsNot(s: State, hash: Msg -> Hash, ops: seq<Op>, evicts: seq<Evict>, h: Hash)
    requires |ops| == |evicts| && Forward(h, false) !in s.forwarded
    requires forall k :: 0 <= k < |ops| ==> NeverDiscarded(hash, ops[k], h)
    ensures Forward(h, false) !in Run(s, hash, ops, evicts).forwarded
    decreases |ops|
  {
    hide SendAll, Incoming, Unexpired, OfTopic, Logged, Remember;
    if ops != [] {
      var s' := Apply(s, hash, ops[0], evicts[0]);
      assert NeverDiscarded(hash, ops[0], h);
      if ops[0].OnIncoming? {
        IncomingDiscardsNot(s, hash, ops[0].who, ops[0].messages, ops[0].verdict, evicts[0], h);
      } else {
        assert s'.forwarded == s.forwarded;
      }
      RunDiscardsNot(s', hash, ops[1..], evicts[1..], h);
    }
  }

  /** What a validator can do for it: if it never asks for a message with this hash to be
      processed and discarded, the message goes up once at most. */
  lemma OnceIfNeverDiscarded(hash: Msg -> Hash, ops: seq<Op>, evicts: seq<Evict>, h: Hash)
    requires |ops| == |evicts| && NeverEvictsRun(INIT, hash, ops, evicts)
    requires forall k :: 0 <= k < |ops| ==> NeverDiscarded(hash, ops[k], h)
    ensures Times(Run(INIT, hash, ops, evicts).forwarded, h) <= 1
  {
    assert Cached(INIT);
    RunCached(INIT, hash, ops, evicts);
    RunDiscardsNot(INIT, hash, ops, evicts, h);
    hide Run, NeverEvictsRun;
    var f := Run(INIT, hash, ops, evicts).forwarded;
    KeptAtMostOnce(f, h);
    DiscardedIff(f, h);
  }

  // ---- cases ----

  /** A message that is discarded first and kept later goes up twice. */
  lemma KeptAfterDiscardGoesUpTwice(hash: Msg -> Hash, who: PeerId, t: Topic, m: Msg, evict: Evict)
    ensures var ops := [NewPeer(who), OnIncoming(who, [m], (_, _) => ProcessAndDiscard(t)),
                        OnIncoming(who, [m], (_, _) => ProcessAndKeep(t))];
            && NeverEvictsRun(INIT, hash, ops, [evict, evict, evict])
            && Run(INIT, hash, ops, [evict, evict, evict]).forwarded ==
                 [Forward(hash(m), false), Forward(hash(m), true)]
  {
    var op1 := NewPeer(who);
    var discard: Verdict := (_, _) => ProcessAndDiscard(t);
    var keep: Verdict := (_, _) => ProcessAndKeep(t);
    var op2, op3 := OnIncoming(who, [m], discard), OnIncoming(who, [m], keep);
    RunThree(INIT, hash, op1, op2, op3, evict);
    hide Run, Logged, NeverEvictsRun;
    var s1 := Apply(INIT, hash, op1, evict);
    var s2 := Apply(s1, hash, op2, evict);
    IncomingOne(s1, hash, who, m, discard, evict);
    IncomingOne(s2, hash, who, m, keep, evict);
    assert s1.known == {} && s2.known == {};
  }

  lemma RunThree(s: State, hash: Msg -> Hash, a: Op, b: Op, c: Op, evict: Evict)
    ensures var s1 := Apply(s, hash, a, evict);
            var s2 := Apply(s1, hash, b, evict);
            && Run(s, hash, [a, b, c], [evict, evict, evict]) == Apply(s2, hash, c, evict)
            && (NeverEvictsRun(s, hash, [a, b, c], [evict, evict, evict]) <==>
                  NeverEvicts(s, hash, a, evict) && NeverEvicts(s1, hash, b, evict) && NeverEvicts(s2, hash, c, evict))
  {
    hide Apply, NeverEvicts;
    var s1 := Apply(s, hash, a, evict);
    var s2 := Apply(s1, hash, b, evict);
    var s3 := Apply(s2, hash, c, evict);
    assert [a, b, c][1..] == [b, c] && [b, c][1..] == [c] && [c][1..] == [];
    assert [evict, evict, evict][1..] == [evict, evict] && [evict, evict][1..] == [evict] && [evict][1..] == [];
    assert Run(s3, hash, [], []) == s3 && NeverEvictsRun(s3, hash, [], []);
    assert Run(s2, hash, [c], [evict]) == s3;
    assert NeverEvictsRun(s2, hash, [c], [evict]) <==> NeverEvicts(s2, hash, c, evict);
    assert Run(s1, hash, [b, c], [evict, evict]) == s3;
    assert NeverEvictsRun(s1, hash, [b, c], [evict, evict]) <==>
           NeverEvicts(s1, hash, b, evict) && NeverEvictsRun(s2, hash, [c], [evict]);
  }

  lemma IncomingOne(s: State, hash: Msg -> Hash, who: PeerId, m: Msg, verdict: Verdict, evict: Evict)
    ensures Incoming(s, hash, who, [m], verdict, evict) == Receive(s, hash, who, m, verdict, evict(0))
    ensures BatchEvictsNone(s, hash, who, [m], verdict, evict) <==>
              s.known <= Receive(s, hash, who, m, verdict, evict(0)).known
  {
    hide Receive;
    assert [m][..0] == [];
    assert Incoming(s, hash, who, [], verdict, evict) == s && BatchEvictsNone(s, hash, who, [], verdict, evict);
  }

  /** A message that was accepted but not kept is forgotten by a collection, and the peer is then
      broadcast its own message. */
  lemma DiscardedComesBack(hash: Msg -> Hash, who: PeerId, t: Topic, m: Msg, evict: Evict)
    ensures var ops := [NewPeer(who), OnIncoming(who, [m], (_, _) => ProcessAndDiscard(t)), Collect((_, _) => false),
                        Multicast(t, m, false, (_, _, _, _) => true, false)];
            var s := Run(INIT, hash, ops, [evict, evict, evict, evict]);
            && who in s.peers
            && s.peers[who].log == [Accepted(hash(m), false), Sent(hash(m), Broadcast)]
  {
    var verdict: Verdict := (_, _) => ProcessAndDiscard(t);
    var allowed: Allowed := (_, _, _, _) => true;
    var op1, op2, op3 := NewPeer(who), OnIncoming(who, [m], verdict), Collect((_, _) => false);
    var op4 := Multicast(t, m, false, allowed, false);
    RunFour(INIT, hash, op1, op2, op3, op4, evict);
    hide Run, SendAll, Remember;
    var h := hash(m);
    var s1 := Apply(INIT, hash, op1, evict);
    IncomingOne(s1, hash, who, m, verdict, evict);
    var s2 := Accept(s1, who, h, false);
    assert Apply(s1, hash, op2, evict) == s2;
    var s3 := Apply(s2, hash, op3, evict);
    assert s2.known == {} && s3.known == {};
    assert who in s3.peers && s3.peers[who].log == [Accepted(h, false)];
    assert s3.peers[who].known == {};
    SendsToIgnorant(s3.peers[who], who, Entry(h, t, m), allowed);
  }

  lemma SendsToIgnorant(p: Peer, who: PeerId, e: Entry, allowed: Allowed)
    requires e.hash !in p.known && allowed(who, Broadcast, e.topic, e.message)
    ensures SendAll(p, who, [e], Broadcast, allowed).log == p.log + [Sent(e.hash, Broadcast)]
  {
    assert [e][..0] == [];
    assert SendAll(p, who, [], Broadcast, allowed) == p;
  }

  lemma RunFour(s: State, hash: Msg -> Hash, a: Op, b: Op, c: Op, d: Op, evict: Evict)
    ensures Run(s, hash, [a, b, c, d], [evict, evict, evict, evict]) ==
            Apply(Apply(Apply(Apply(s, hash, a, evict), hash, b, evict), hash, c, evict), hash, d, evict)
  {
    hide Apply;
    var ops, es := [a, b, c, d], [evict, evict, evict, evict];
    assert ops[1..] == [b, c, d] && ops[1..][1..] == [c, d] && [c, d][1..] == [d] && [d][1..] == [];
    assert es[1..] == [evict, evict, evict] && es[1..][1..] == [evict, evict];
    assert [evict, evict][1..] == [evict] && [evict][1..] == [];
    var s1 := Apply(s, hash, a, evict);
    var s2 := Apply(s1, hash, b, evict);
    var s3 := Apply(s2, hash, c, evict);
    assert Run(s3, hash, [d], [evict]) == Apply(s3, hash, d, evict);
    assert Run(s2, hash, [c, d], [evict, evict]) == Run(s3, hash, [d], [evict]);
    assert Run(s1, hash, [b, c, d], [evict, evict, evict]) == Run(s2, hash, [c, d], [evict, evict]);
  }
}
