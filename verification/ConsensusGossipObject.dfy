/** The gossip state machine as an object. Its methods compute the functions of
    `ConsensusGossip`, about which the run theorems are proved. */
module ConsensusGossipObject {
  import opened Types
  import opened ConsensusGossip
  import G = ConsensusGossip

  /** For operations that register nothing. */
  function NoEviction(): Evict {
    _ => []
  }

  /** Only the peer `who` may have come, gone or changed. */
  ghost predicate OthersKept(before: map<PeerId, Peer>, now: map<PeerId, Peer>, who: PeerId) {
    forall w :: w != who ==> (w in now <==> w in before) && (w in now ==> now[w] == before[w])
  }

  /** `f` has been applied to all peers except those in `todo`. */
  ghost predicate Partly(before: map<PeerId, Peer>, now: map<PeerId, Peer>, todo: set<PeerId>,
                         f: (PeerId, Peer) -> Peer)
  {
    && now.Keys == before.Keys && todo <= before.Keys
    && (forall who :: who in before ==> now[who] == if who in todo then before[who] else f(who, before[who]))
  }

  lemma PartlyStart(peers: map<PeerId, Peer>, f: (PeerId, Peer) -> Peer)
    ensures Partly(peers, peers, peers.Keys, f)
  {
  }

  lemma PartlyStep(before: map<PeerId, Peer>, now: map<PeerId, Peer>, todo: set<PeerId>, f: (PeerId, Peer) -> Peer,
                   id: PeerId)
    requires Partly(before, now, todo, f) && id in todo
    ensures id in now && Partly(before, now[id := f(id, now[id])], todo - {id}, f)
  {
  }

  lemma PartlyDone(before: map<PeerId, Peer>, now: map<PeerId, Peer>, f: (PeerId, Peer) -> Peer)
    requires Partly(before, now, {}, f)
    ensures now.Keys == before.Keys && forall who :: who in before ==> now[who] == f(who, before[who])
  {
  }

  class Gossip {
    var peers: map<PeerId, Peer>
    var messages: seq<Entry>
    var known: set<Hash>
    var forwarded: seq<Forward>
    const hash: Msg -> Hash

    ghost function View(): State
      reads this
    {
      State(peers, messages, known, forwarded)
    }

    constructor (hash: Msg -> Hash)
      ensures View() == INIT && this.hash == hash
    {
      this.hash := hash;
      peers := map[];
      messages := [];
      known := {};
      forwarded := [];
    }

    /** A connection starts with nothing known about the peer, and concerns no other. */
    method NewPeer(who: PeerId)
      modifies this
      ensures View() == Apply(old(View()), hash, Op.NewPeer(who), NoEviction())
      ensures who in peers && forall h :: !Remembered(peers[who], h)
      ensures OthersKept(old(peers), peers, who)
      ensures AllTracked(old(View())) ==> AllTracked(View())
    {
      peers := peers[who := NEW_PEER];
      NewTracked();
    }

    /** A peer that left is not tracked, and nobody else is concerned. */
    method PeerDisconnected(who: PeerId)
      modifies this
      ensures View() == Apply(old(View()), hash, Disconnect(who), NoEviction())
      ensures who !in peers
      ensures OthersKept(old(peers), peers, who)
      ensures AllTracked(old(View())) ==> AllTracked(View())
    {
      peers := peers - {who};
    }

    /** The message is in the cache from now on, and stored if it was not. Nothing stored goes,
        the cache stays within its size, and only a full one gives up a hash, the given one.
        `again` is what the cache reports for a hash that it has. */
    method RegisterMessageHashed(e: Entry, again: bool, victim: Hash)
      modifies this
      ensures View() == Register(old(View()), e, again, victim)
      ensures e.hash in known && (e.hash !in old(known) ==> e in messages)
      ensures forall h :: h in known ==> h in old(known) || h == e.hash
      ensures old(messages) <= messages && forall x :: x in messages ==> x in old(messages) || x == e
      ensures forall h :: h in old(known) && h !in known ==>
                h == victim && e.hash !in old(known) && |old(known)| >= KNOWN_MESSAGES_CACHE_SIZE
      ensures |old(known)| <= KNOWN_MESSAGES_CACHE_SIZE && victim in old(known) ==> |known| <= KNOWN_MESSAGES_CACHE_SIZE
      ensures Cached(old(View())) && old(known) <= known ==> Cached(View())
    {
      hide Cached;
      var inserted := again;
      if e.hash !in known {
        inserted := true;
        if |known| >= KNOWN_MESSAGES_CACHE_SIZE {
          known := known - {victim};
        }
        known := known + {e.hash};
      }
      if inserted {
        messages := messages + [e];
      }
      assert View() == Register(old(View()), e, again, victim);
      if Cached(old(View())) && old(known) <= known { RegisterCached(old(View()), e, again, victim); }
    }

    /** Sends every message of the list to one peer. */
    method SendToPeer(peer0: Peer, id: PeerId, items: seq<Entry>, intent: Intent, allowed: Allowed) returns (peer: Peer)
      ensures peer == SendAll(peer0, id, items, intent, allowed)
    {
      peer := peer0;
      var i := 0;
      while i < |items|
        invariant 0 <= i <= |items|
        invariant peer == SendAll(peer0, id, items[..i], intent, allowed)
      {
        assert items[..i + 1][..i] == items[..i];
        var e := items[i];
        i := i + 1;
        var eff := EffectiveIntent(intent, e.hash in peer.known);
        if eff.None? || !allowed(id, eff.value, e.topic, e.message) {
          continue;
        }
        peer := Logged(peer, Sent(e.hash, eff.value));
      }
      assert items[..i] == items;
    }

    /** The nested loops of `propagate`: peers in any order, each with every message. */
    method Propagate(items: seq<Entry>, intent: Intent, allowed: Allowed)
      modifies this
      ensures View() == PropagateTo(old(View()), items, intent, allowed)
    {
      hide SendAll, Partly;
      ghost var send := (who: PeerId, p: Peer) => SendAll(p, who, items, intent, allowed);
      var todo := peers.Keys;
      PartlyStart(peers, send);
      while todo != {}
        invariant Partly(old(peers), peers, todo, send)
        invariant messages == old(messages) && known == old(known) && forwarded == old(forwarded)
        decreases |todo|
      {
        var id :| id in todo;
        PartlyStep(old(peers), peers, todo, send, id);
        var peer := SendToPeer(peers[id], id, items, intent, allowed);
        peers := peers[id := peer];
        todo := todo - {id};
      }
      PartlyDone(old(peers), peers, send);
      assert peers == PropagateTo(old(View()), items, intent, allowed).peers;
    }

    method BroadcastTopic(topic: Topic, force: bool, allowed: Allowed)
      modifies this
      ensures View() == Apply(old(View()), hash, Op.BroadcastTopic(topic, force, allowed), NoEviction())
    {
      Propagate(OfTopic(messages, topic), ForceIntent(force), allowed);
    }

    method Rebroadcast(allowed: Allowed)
      modifies this
      ensures View() == Apply(old(View()), hash, Op.Rebroadcast(allowed), NoEviction())
    {
      Propagate(messages, PeriodicRebroadcast, allowed);
    }

    method Multicast(topic: Topic, message: Msg, force: bool, allowed: Allowed, again: bool, evict: Evict)
      modifies this
      ensures View() == Apply(old(View()), hash, Op.Multicast(topic, message, force, allowed, again), evict)
    {
      var e := Entry(hash(message), topic, message);
      RegisterMessageHashed(e, again, evict(0));
      Propagate([e], ForceIntent(force), allowed);
    }

    method SendTopic(who: PeerId, topic: Topic, force: bool, allowed: Allowed)
      modifies this
      ensures View() == Apply(old(View()), hash, Op.SendTopic(who, topic, force, allowed), NoEviction())
    {
      if who in peers {
        var peer := SendToPeer(peers[who], who, OfTopic(messages, topic), ForceIntent(force), allowed);
        peers := peers[who := peer];
      }
    }

    /** One message of a batch: ignored, discarded, or handed on and perhaps kept. */
    method ReceiveOne(who: PeerId, m: Msg, verdict: Verdict, victim: Hash) returns (up: seq<Forward>)
      modifies this
      ensures View() == Receive(old(View()), hash, who, m, verdict, victim)
      ensures forwarded == old(forwarded) + up
    {
      hide Logged, Remember;
      var h := hash(m);
      up := [];
      if h in known {
        if who in peers {
          peers := peers[who := Logged(peers[who], Duplicate(h))];
        }
        return;
      }
      var validation := verdict(who, m);
      if validation.Discard? || who !in peers {
        return;
      }
      var keep := validation.ProcessAndKeep?;
      peers := peers[who := Logged(peers[who], Accepted(h, keep))];
      up := [Forward(h, keep)];
      forwarded := forwarded + up;
      if keep {
        RegisterMessageHashed(Entry(h, validation.topic, m), false, victim);
      }
    }

    /** Registers what is new and valid; returns it for the upper layer. */
    method OnIncoming(who: PeerId, ms: seq<Msg>, verdict: Verdict, evict: Evict) returns (toForward: seq<Forward>)
      modifies this
      ensures View() == Apply(old(View()), hash, Op.OnIncoming(who, ms, verdict), evict)
      ensures forwarded == old(forwarded) + toForward
    {
      hide Receive;
      toForward := [];
      var i := 0;
      while i < |ms|
        invariant 0 <= i <= |ms|
        invariant View() == Incoming(old(View()), hash, who, ms[..i], verdict, evict)
        invariant forwarded == old(forwarded) + toForward
      {
        assert ms[..i + 1][..i] == ms[..i];
        var up := ReceiveOne(who, ms[i], verdict, evict(i));
        toForward := toForward + up;
        i := i + 1;
      }
      assert ms[..i] == ms;
    }

    /** The messages that are not expired, in order. */
    method Retain(expired: (Topic, Msg) -> bool) returns (left: seq<Entry>)
      ensures left == Unexpired(messages, expired)
      ensures forall e :: e in left <==> e in messages && !expired(e.topic, e.message)
    {
      left := [];
      var i := 0;
      while i < |messages|
        invariant 0 <= i <= |messages|
        invariant left == Unexpired(messages[..i], expired)
        invariant forall e :: e in left <==> e in messages[..i] && !expired(e.topic, e.message)
      {
        assert messages[..i + 1][..i] == messages[..i];
        assert messages[..i + 1] == messages[..i] + [messages[i]];
        if !expired(messages[i].topic, messages[i].message) {
          left := left + [messages[i]];
        }
        i := i + 1;
      }
      assert messages[..i] == messages;
    }

    /** Exactly the expired messages go, and every peer forgets exactly what is not in the cache.
        What is remembered stays exact. */
    method CollectGarbage(expired: (Topic, Msg) -> bool)
      modifies this
      ensures View() == Apply(old(View()), hash, Collect(expired), NoEviction())
      ensures forall e :: e in messages <==> e in old(messages) && !expired(e.topic, e.message)
      ensures peers.Keys == old(peers).Keys
      ensures forall who, h :: who in peers ==> (h in peers[who].known <==> h in old(peers)[who].known && h in known)
      ensures AllTracked(old(View())) ==> AllTracked(View())
      ensures Cached(old(View())) ==> Cached(View())
    {
      hide Partly, Unexpired, Cached, AllTracked;
      messages := Retain(expired);
      ghost var sweep := (who: PeerId, p: Peer) => Swept(p, old(known));
      var todo := peers.Keys;
      PartlyStart(peers, sweep);
      while todo != {}
        invariant Partly(old(peers), peers, todo, sweep)
        invariant messages == Unexpired(old(messages), expired) && known == old(known) && forwarded == old(forwarded)
        invariant forall e :: e in messages <==> e in old(messages) && !expired(e.topic, e.message)
        decreases |todo|
      {
        var id :| id in todo;
        PartlyStep(old(peers), peers, todo, sweep, id);
        peers := peers[id := Swept(peers[id], known)];
        todo := todo - {id};
      }
      PartlyDone(old(peers), peers, sweep);
      assert peers == G.CollectGarbage(old(View()), expired).peers;
      if AllTracked(old(View())) { CollectTracked(old(View()), expired); }
      if Cached(old(View())) { CollectCached(old(View()), expired); }
    }
  }
}
