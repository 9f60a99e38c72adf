/** What the operations of the consensus gossip do, seen from a peer and from the upper layer:
    which stored messages they send, to whom and with which intent, and what they take in. */
module ConsensusGossipOps {
  import opened Types
  import opened ConsensusGossip

  // ---- sending ----

  predicate Sends(op: Op) {
    op.BroadcastTopic? || op.Rebroadcast? || op.Multicast? || op.SendTopic?
  }

  /** The operation offers this entry to the peer. */
  ghost predicate Offers(s: State, hash: Msg -> Hash, op: Op, who: PeerId, e: Entry) {
    match op
    case BroadcastTopic(t, _, _) => e in s.messages && e.topic == t
    case Rebroadcast(_) => e in s.messages
    case Multicast(t, m, _, _, _) => e == Entry(hash(m), t, m)
    case SendTopic(w, t, _, _) => w == who && e in s.messages && e.topic == t
    case _ => false
  }

  /** It offers an entry with this hash that the validator allows with this intent. */
  ghost predicate Permitted(s: State, hash: Msg -> Hash, op: Op, who: PeerId, intent: Intent, h: Hash)
    requires Sends(op)
  {
    exists e :: Offers(s, hash, op, who, e) && e.hash == h && op.allowed(who, intent, e.topic, e.message)
  }

  ghost predicate Forced(op: Op) {
    (op.BroadcastTopic? || op.Multicast? || op.SendTopic?) && op.force
  }

  /** What one operation sends to a connected peer. Without force a message is broadcast if and
      only if the peer is not known to have it and the validator allows an entry that the
      operation offers; by force, if and only if it allows one; and the periodic rebroadcast
      repeats what the peer has if and only if it allows that. */
  ghost predicate SendsRight(s: State, hash: Msg -> Hash, op: Op, who: PeerId, h: Hash, p: Peer, p': Peer)
    requires Sends(op)
  {
    && p.log <= p'.log && p'.sweeps == p.sweeps
    && var sent := p'.log[|p.log|..];
       && (!Forced(op) ==>
             (Sent(h, Broadcast) in sent <==> h !in p.known && Permitted(s, hash, op, who, Broadcast, h)))
       && (Forced(op) ==> (Sent(h, ForcedBroadcast) in sent <==> Permitted(s, hash, op, who, ForcedBroadcast, h)))
       && (op.Rebroadcast? && h in p.known ==>
             (Sent(h, PeriodicRebroadcast) in sent <==> Permitted(s, hash, op, who, PeriodicRebroadcast, h)))
  }

  lemma {:induction false} RebroadcastExact(p: Peer, who: PeerId, items: seq<Entry>, allowed: Allowed, h: Hash)
    requires h in p.known
    ensures var p' := SendAll(p, who, items, PeriodicRebroadcast, allowed);
            && |p.log| <= |p'.log| && p'.log[..|p.log|] == p.log && h in p'.known
            && (Sent(h, PeriodicRebroadcast) in p'.log[|p.log|..] <==>
                  AllowsOne(who, items, PeriodicRebroadcast, allowed, h))
  {
    hide AllowsOne;
    if items == [] {
      AllowsNone(who, PeriodicRebroadcast, allowed, h);
    } else {
      var n := |items| - 1;
      RebroadcastExact(p, who, items[..n], allowed, h);
      AllowsSnoc(who, items, PeriodicRebroadcast, allowed, h);
      SendOneSuffix(p, SendAll(p, who, items[..n], PeriodicRebroadcast, allowed), who, items[n], PeriodicRebroadcast,
                    allowed);
    }
  }

  /** The entries of `items` are those that the operation offers. */
  lemma OfferedAre(s: State, hash: Msg -> Hash, op: Op, who: PeerId, items: seq<Entry>, intent: Intent, h: Hash)
    requires Sends(op) && forall e :: e in items <==> Offers(s, hash, op, who, e)
    ensures AllowsOne(who, items, intent, op.allowed, h) <==> Permitted(s, hash, op, who, intent, h)
  {
    hide Offers;
    if AllowsOne(who, items, intent, op.allowed, h) {
      var e :| e in items && e.hash == h && op.allowed(who, intent, e.topic, e.message);
      assert Offers(s, hash, op, who, e);
    }
  }

  lemma ListSendsRight(s: State, hash: Msg -> Hash, op: Op, who: PeerId, p: Peer, items: seq<Entry>, intent: Intent,
                       h: Hash)
    requires Sends(op) && forall e :: e in items <==> Offers(s, hash, op, who, e)
    requires intent ==
             if op.Rebroadcast? then PeriodicRebroadcast else if Forced(op) then ForcedBroadcast else Broadcast
    ensures SendsRight(s, hash, op, who, h, p, SendAll(p, who, items, intent, op.allowed))
  {
    hide Offers, Permitted, AllowsOne, SendAll;
    SendAllExact(p, who, items, intent, op.allowed, h);
    OfferedAre(s, hash, op, who, items, Broadcast, h);
    OfferedAre(s, hash, op, who, items, ForcedBroadcast, h);
    OfferedAre(s, hash, op, who, items, PeriodicRebroadcast, h);
    if op.Rebroadcast? && h in p.known { RebroadcastExact(p, who, items, op.allowed, h); }
  }

  /** Every sending operation sends right to every connected peer. */
  lemma OperationSends(s: State, hash: Msg -> Hash, op: Op, evict: Evict, who: PeerId, h: Hash)
    requires who in s.peers && Sends(op)
    ensures var s' := Apply(s, hash, op, evict);
            && s'.peers.Keys == s.peers.Keys && SendsRight(s, hash, op, who, h, s.peers[who], s'.peers[who])
            && (!op.Multicast? ==> s'.messages == s.messages && s'.known == s.known) && s'.forwarded == s.forwarded
  {
    hide SendsRight, SendAll, OfTopic, Remember;
    var p := s.peers[who];
    match op
    case BroadcastTopic(t, force, _) =>
      ListSendsRight(s, hash, op, who, p, OfTopic(s.messages, t), ForceIntent(force), h);
    case Rebroadcast(_) => ListSendsRight(s, hash, op, who, p, s.messages, PeriodicRebroadcast, h);
    case Multicast(t, m, force, _, _) =>
      ListSendsRight(s, hash, op, who, p, [Entry(hash(m), t, m)], ForceIntent(force), h);
    case SendTopic(w, t, force, _) =>
      if w == who {
        ListSendsRight(s, hash, op, who, p, OfTopic(s.messages, t), ForceIntent(force), h);
      } else {
        NothingSent(s, hash, op, who, h, p);
        assert Apply(s, hash, op, evict).peers[who] == p;
      }
      assert Apply(s, hash, op, evict).peers.Keys == s.peers.Keys;
  }

  lemma NothingSent(s: State, hash: Msg -> Hash, op: Op, who: PeerId, h: Hash, p: Peer)
    requires op.SendTopic? && op.who != who
    ensures SendsRight(s, hash, op, who, h, p, p)
  {
    assert forall e :: !Offers(s, hash, op, who, e);
    assert p.log[|p.log|..] == [];
  }

  /** In every reachable state, an operation without force broadcasts `h` to a connected peer if
      and only if it offers an entry with it that the validator allows, and every earlier event
      of the connection about `h` was followed by a collection that did not find it in the
      cache. */
  lemma OperationBroadcastsIff(hash: Msg -> Hash, ops: seq<Op>, evicts: seq<Evict>, op: Op, evict: Evict, who: PeerId,
                               h: Hash)
    requires |ops| == |evicts| && who in Run(INIT, hash, ops, evicts).peers && Sends(op) && !Forced(op)
    ensures var s := Run(INIT, hash, ops, evicts);
            var s' := Apply(s, hash, op, evict);
            && who in s'.peers && |s.peers[who].log| <= |s'.peers[who].log|
            && var p := s.peers[who];
               Sent(h, Broadcast) in s'.peers[who].log[|p.log|..] <==>
                 && (forall i :: 0 <= i < |p.log| && p.log[i].hash == h ==> ForgottenBetween(p, i, |p.log|))
                 && Permitted(s, hash, op, who, Broadcast, h)
  {
    hide Run, Apply, Permitted;
    var s := Run(INIT, hash, ops, evicts);
    OperationSends(s, hash, op, evict, who, h);
    RunTracked(INIT, hash, ops, evicts);
    RememberedIff(s.peers[who], h);
  }

  /** A message sent directly is logged, and the peer is known to have it. */
  lemma DirectMessageIsLogged(s: State, hash: Msg -> Hash, who: PeerId, m: Msg, evict: Evict)
    requires who in s.peers
    ensures var s' := Apply(s, hash, SendMessage(who, m), evict);
            && who in s'.peers && hash(m) in s'.peers[who].known
            && s'.peers[who].log == s.peers[who].log + [SentDirectly(hash(m))]
            && (forall w :: w in s.peers && w != who ==> w in s'.peers && s'.peers[w] == s.peers[w])
  {
  }

  // ---- storing ----

  /** A message of the upper layer that is not known is stored under its topic; it is known
      from then on, and nothing that was stored goes. */
  lemma OwnMessageIsStored(s: State, hash: Msg -> Hash, op: Op, evict: Evict)
    requires op.RegisterMessage? || op.Multicast?
    ensures var s' := Apply(s, hash, op, evict);
            && hash(op.message) in s'.known && s.messages <= s'.messages
            && (hash(op.message) !in s.known || op.again ==>
                  s'.messages == s.messages + [Entry(hash(op.message), op.topic, op.message)])
            && (hash(op.message) in s.known && !op.again ==> s'.messages == s.messages)
  {
    hide SendAll;
  }

  // ---- receiving ----

  /** Message `i` of the batch counts: it is known when its turn comes, or the validator wants
      it processed. */
  ghost predicate Counts(s: State, hash: Msg -> Hash, who: PeerId, ms: seq<Msg>, verdict: Verdict, evict: Evict, i: nat)
    requires i < |ms|
  {
    hash(ms[i]) in Incoming(s, hash, who, ms[..i], verdict, evict).known || !verdict(who, ms[i]).Discard?
  }

  ghost predicate Counted(s: State, hash: Msg -> Hash, who: PeerId, ms: seq<Msg>, verdict: Verdict, evict: Evict,
                          h: Hash)
  {
    exists i: nat :: i < |ms| && hash(ms[i]) == h && Counts(s, hash, who, ms, verdict, evict, i)
  }

  /** The sender of a batch is known to have exactly what it was known to have and those of its
      messages that count; no other peer is concerned. */
  lemma {:induction false} SenderHasItsMessages(s: State, hash: Msg -> Hash, who: PeerId, ms: seq<Msg>,
                                                verdict: Verdict, evict: Evict, h: Hash)
    requires who in s.peers
    ensures var s' := Incoming(s, hash, who, ms, verdict, evict);
            && s'.peers.Keys == s.peers.Keys
            && (h in s'.peers[who].known <==>
                  h in s.peers[who].known || Counted(s, hash, who, ms, verdict, evict, h))
            && (forall w :: w in s.peers && w != who ==> s'.peers[w] == s.peers[w])
    decreases |ms|
  {
    hide Remember, Counted;
    if ms == [] {
      NoneCounted(s, hash, who, verdict, evict, h);
    } else {
      var n := |ms| - 1;
      SenderHasItsMessages(s, hash, who, ms[..n], verdict, evict, h);
      CountedSnoc(s, hash, who, ms, verdict, evict, h);
    }
  }

  lemma NoneCounted(s: State, hash: Msg -> Hash, who: PeerId, verdict: Verdict, evict: Evict, h: Hash)
    ensures !Counted(s, hash, who, [], verdict, evict, h)
  {
  }

  lemma CountedSnoc(s: State, hash: Msg -> Hash, who: PeerId, ms: seq<Msg>, verdict: Verdict, evict: Evict, h: Hash)
    requires ms != []
    ensures var n := |ms| - 1;
            Counted(s, hash, who, ms, verdict, evict, h) <==>
              || Counted(s, hash, who, ms[..n], verdict, evict, h)
              || (hash(ms[n]) == h && Counts(s, hash, who, ms, verdict, evict, n))
  {
    hide Incoming;
    var n := |ms| - 1;
    forall i: nat | i < n
      ensures Counts(s, hash, who, ms[..n], verdict, evict, i) <==> Counts(s, hash, who, ms, verdict, evict, i)
    {
      assert ms[..n][..i] == ms[..i];
    }
    if Counted(s, hash, who, ms[..n], verdict, evict, h) {
      var i: nat :| i < n && hash(ms[..n][i]) == h && Counts(s, hash, who, ms[..n], verdict, evict, i);
      assert hash(ms[i]) == h && Counts(s, hash, who, ms, verdict, evict, i);
    }
    if Counted(s, hash, who, ms, verdict, evict, h) {
      var i: nat :| i < |ms| && hash(ms[i]) == h && Counts(s, hash, who, ms, verdict, evict, i);
      if i < n { assert hash(ms[..n][i]) == h && Counts(s, hash, who, ms[..n], verdict, evict, i); }
    }
  }

  /** A new message that is to be kept is stored under the topic that the validator gives. */
  lemma {:induction false} KeptMessageIsStored(s: State, hash: Msg -> Hash, who: PeerId, ms: seq<Msg>,
                                               verdict: Verdict, evict: Evict, i: nat)
    requires who in s.peers && i < |ms| && verdict(who, ms[i]).ProcessAndKeep? && hash(ms[i]) !in s.known
    requires forall j :: 0 <= j < i ==> hash(ms[j]) != hash(ms[i])
    ensures Entry(hash(ms[i]), verdict(who, ms[i]).topic, ms[i]) in
              Incoming(s, hash, who, ms, verdict, evict).messages
    decreases |ms|
  {
    hide Logged, Remember;
    var n := |ms| - 1;
    if i < n {
      assert ms[..n][i] == ms[i];
      KeptMessageIsStored(s, hash, who, ms[..n], verdict, evict, i);
    } else {
      StillNew(s, hash, who, ms[..n], verdict, evict, hash(ms[n]));
    }
  }

  /** A message that is not known and not in the batch is not known after it. */
  lemma StillNew(s: State, hash: Msg -> Hash, who: PeerId, ms: seq<Msg>, verdict: Verdict, evict: Evict, h: Hash)
    requires h !in s.known && forall j :: 0 <= j < |ms| ==> hash(ms[j]) != h
    ensures var s' := Incoming(s, hash, who, ms, verdict, evict);
            h !in s'.known && s'.peers.Keys == s.peers.Keys
  {
    hide Incoming;
    IncomingFrame(s, hash, who, ms, verdict, evict);
  }
}
