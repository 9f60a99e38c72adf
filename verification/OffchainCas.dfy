/** `compare_and_set` of the offchain local storage, run by any number of threads.

    The storage shares one map from keys to reference-counted mutexes, itself behind a mutex.
    A call clones the mutex of its key out of the map, holds it while it reads and writes the
    database, and then removes the map entry if nobody else has a clone. Each transition below
    is one atomic access; threads interleave in any way. */
module OffchainCas {
  import opened Types

  type Key = seq<byte>
  type Value = seq<byte>
  type Tid = nat
  type LockId = nat

  datatype Call = Call(prefix: seq<byte>, itemKey: seq<byte>, oldValue: Option<Value>, newValue: Value) {
    /** Prefix and item key are concatenated without a separator. */
    function Key(): Key {
      prefix + itemKey
    }
  }

  /** Where a call is. `lock` is the mutex it has cloned out of the map. */
  datatype Pc =
    | Start
    | InMap
    | Cloned(lock: LockId)
    | Waiting(lock: LockId)
    | Locked(lock: LockId)
    | HasRead(lock: LockId, val: Option<Value>)
    | Wrote(lock: LockId, isSet: bool)
    | Unlocked(lock: LockId, isSet: bool)
    | InMapAgain(lock: LockId, isSet: bool)
    | Dropped(isSet: bool)
    | Cleaned(isSet: bool)
  {
    /** Owns a clone of the key's `Arc`. */
    predicate HasClone() {
      !Start? && !InMap? && !Dropped? && !Cleaned?
    }

    /** Owns the mutex of the lock map. */
    predicate OwnsMap() {
      InMap? || Cloned? || InMapAgain? || Dropped? || Cleaned?
    }

    /** In the read-then-write section, holding the key's mutex. */
    predicate OwnsKey() {
      Locked? || HasRead? || Wrote?
    }

    /** Between the entry into the map and the clean-up. */
    predicate InFlight() {
      HasClone() || Dropped?
    }
  }

  datatype Thread = Thread(call: Call, pc: Pc)

  datatype Event =
    | Invoke(t: Tid, call: Call)
    | Commit(t: Tid, call: Call, isSet: bool)
    | Return(t: Tid, call: Call, isSet: bool)

  datatype State = State(
    db: map<Key, Value>,
    locks: map<Key, LockId>,
    strong: map<LockId, nat>,
    keyOwner: map<LockId, Tid>,
    mapOwner: Option<Tid>,
    threads: map<Tid, Thread>,
    nextLock: LockId,
    log: seq<Event>)

  datatype Turn = Begin(t: Tid, call: Call) | Advance(t: Tid)

  function Init(db: map<Key, Value>): State {
    State(db, map[], map[], map[], None, map[], 0, [])
  }

  function Get(db: map<Key, Value>, k: Key): Option<Value> {
    if k in db then Some(db[k]) else None
  }

  function GoTo(s: State, t: Tid, pc: Pc): State
    requires t in s.threads
  {
    s.(threads := s.threads[t := s.threads[t].(pc := pc)])
  }

  /** `entry(key).or_default().clone()`: the clone and, if need be, a new entry. */
  function CloneLock(s: State, t: Tid, k: Key): State
    requires t in s.threads
  {
    if k in s.locks && s.locks[k] in s.strong then
      var l := s.locks[k];
      GoTo(s, t, Cloned(l)).(strong := s.strong[l := s.strong[l] + 1])
    else
      var l := s.nextLock;
      GoTo(s, t, Cloned(l)).(locks := s.locks[k := l], strong := s.strong[l := 2], nextLock := l + 1)
  }

  function DropClone(s: State, t: Tid, l: LockId, isSet: bool): State
    requires t in s.threads
  {
    var count := if l in s.strong then s.strong[l] else 0;
    GoTo(s, t, Dropped(isSet)).(strong := if count <= 1 then s.strong - {l} else s.strong[l := count - 1])
  }

  /** Removes the entry if `Arc::get_mut` succeeds on it, that is for the last reference. */
  function CleanUp(s: State, t: Tid, k: Key, isSet: bool): State
    requires t in s.threads
  {
    if k in s.locks && s.locks[k] in s.strong && s.strong[s.locks[k]] == 1 then
      GoTo(s, t, Cleaned(isSet)).(locks := s.locks - {k}, strong := s.strong - {s.locks[k]})
    else
      GoTo(s, t, Cleaned(isSet))
  }

  /** The next access of thread `t`; `None` when it has to wait or has no call. */
  function Next(s: State, t: Tid): Option<State> {
    if t !in s.threads then None
    else
      var call := s.threads[t].call;
      var k := call.Key();
      match s.threads[t].pc
      case Start =>
        if s.mapOwner != None then None else Some(GoTo(s, t, InMap).(mapOwner := Some(t)))
      case InMap =>
        Some(CloneLock(s, t, k))
      case Cloned(l) => Some(GoTo(s, t, Waiting(l)).(mapOwner := None))
      case Waiting(l) =>
        if l in s.keyOwner then None else Some(GoTo(s, t, Locked(l)).(keyOwner := s.keyOwner[l := t]))
      case Locked(l) => Some(GoTo(s, t, HasRead(l, Get(s.db, k))))
      case HasRead(l, val) =>
        var isSet := val == call.oldValue;
        Some(GoTo(s, t, Wrote(l, isSet)).(
             db := if isSet then s.db[k := call.newValue] else s.db,
             log := s.log + [Commit(t, call, isSet)]))
      case Wrote(l, isSet) => Some(GoTo(s, t, Unlocked(l, isSet)).(keyOwner := s.keyOwner - {l}))
      case Unlocked(l, isSet) =>
        if s.mapOwner != None then None else Some(GoTo(s, t, InMapAgain(l, isSet)).(mapOwner := Some(t)))
      case InMapAgain(l, isSet) =>
        Some(DropClone(s, t, l, isSet))
      case Dropped(isSet) =>
        Some(CleanUp(s, t, k, isSet))
      case Cleaned(isSet) =>
        Some(s.(mapOwner := None, threads := s.threads - {t}, log := s.log + [Return(t, call, isSet)]))
  }

  function Step(s: State, turn: Turn): Option<State> {
    match turn
    case Begin(t, call) =>
      if t in s.threads then None
      else Some(s.(threads := s.threads[t := Thread(call, Start)], log := s.log + [Invoke(t, call)]))
    case Advance(t) => Next(s, t)
  }

  /** The state after the given interleaving, if every step of it was possible. */
  function Run(s: State, turns: seq<Turn>): Option<State>
    decreases |turns|
  {
    if turns == [] then Some(s)
    else
      match Step(s, turns[0])
      case None => None
      case Some(s') => Run(s', turns[1..])
  }

  // ---- invariant ----

  predicate Cloner(s: State, t: Tid) {
    t in s.threads && s.threads[t].pc.HasClone()
  }

  predicate Flying(s: State, t: Tid) {
    t in s.threads && s.threads[t].pc.InFlight()
  }

  /** The threads that own a clone of `l`. */
  ghost function Clones(s: State, l: LockId): set<Tid> {
    set t | t in s.threads && Cloner(s, t) && s.threads[t].pc.lock == l
  }

  /** The map's mutex is owned by the one thread that is inside the map. */
  ghost predicate MapMutex(s: State) {
    && (forall t :: t in s.threads && s.threads[t].pc.OwnsMap() ==> s.mapOwner == Some(t))
    && (s.mapOwner.Some? ==> s.mapOwner.value in s.threads && s.threads[s.mapOwner.value].pc.OwnsMap())
  }

  /** Each key mutex is owned by the one thread in its read-then-write section. */
  ghost predicate KeyMutex(s: State) {
    && (forall t :: t in s.threads && s.threads[t].pc.OwnsKey() ==>
          s.threads[t].pc.lock in s.keyOwner && s.keyOwner[s.threads[t].pc.lock] == t)
    && (forall l :: l in s.keyOwner ==>
          s.keyOwner[l] in s.threads && s.threads[s.keyOwner[l]].pc.OwnsKey() && s.threads[s.keyOwner[l]].pc.lock == l)
  }

  /** Different keys have different locks, all of them allocated before. */
  ghost predicate LockIds(s: State) {
    && (forall k :: k in s.locks ==> s.locks[k] in s.strong && s.locks[k] < s.nextLock)
    && (forall k, k' :: k in s.locks && k' in s.locks && s.locks[k] == s.locks[k'] ==> k == k')
  }

  /** A clone is a clone of the entry that the map holds for the call's key. */
  ghost predicate ClonesOfMap(s: State) {
    && (forall t :: Flying(s, t) ==> s.threads[t].call.Key() in s.locks)
    && (forall t :: Cloner(s, t) ==> s.locks[s.threads[t].call.Key()] == s.threads[t].pc.lock)
  }

  /** The map holds one reference of each lock, every clone another. */
  ghost predicate Counts(s: State) {
    forall k :: k in s.locks && s.locks[k] in s.strong ==> s.strong[s.locks[k]] == 1 + |Clones(s, s.locks[k])|
  }

  /** Every entry of the map belongs to a call in flight. */
  ghost predicate Used(s: State) {
    forall k :: k in s.locks ==> exists t :: Flying(s, t) && s.threads[t].call.Key() == k
  }

  ghost predicate LockMap(s: State) {
    LockIds(s) && ClonesOfMap(s) && Counts(s) && Used(s)
  }

  /** What a thread has read is still what the database holds. */
  ghost predicate FreshReads(s: State) {
    forall t :: t in s.threads && s.threads[t].pc.HasRead? ==>
      s.threads[t].pc.val == Get(s.db, s.threads[t].call.Key())
  }

  // ---- sequential histories ----

  /** What one call executed alone does: the entry under the concatenated bytes is replaced if
      it is the expected one (`None` for no entry), and the call reports whether it was. */
  function CompareAndSet(db: map<Key, Value>, call: Call): (map<Key, Value>, bool) {
    var key := call.prefix + call.itemKey;
    var found := if key in db then Some(db[key]) else None;
    if found == call.oldValue then (db[key := call.newValue], true) else (db, false)
  }

  /** The database after the calls that the log commits, one after the other. */
  function Replay(log: seq<Event>, db: map<Key, Value>): map<Key, Value> {
    if log == [] then db
    else
      var before := Replay(log[..|log| - 1], db);
      match log[|log| - 1]
      case Commit(_, call, _) => CompareAndSet(before, call).0
      case _ => before
  }

  /** Every commit reports what a `compare_and_set` executed alone at that point would. */
  ghost predicate Sequential(log: seq<Event>, db: map<Key, Value>) {
    log == [] ||
    (&& Sequential(log[..|log| - 1], db)
     && match log[|log| - 1]
        case Commit(_, call, isSet) => isSet == CompareAndSet(Replay(log[..|log| - 1], db), call).1
        case _ => true)
  }

  datatype Phase = Idle | Invoked(call: Call) | Committed(call: Call, isSet: bool) | Bad

  /** The phase of `t` after the event `e`. */
  function NextPhase(before: Phase, e: Event, t: Tid): Phase {
    if e.t != t then before
    else
      match e
      case Invoke(_, call) => if before == Idle then Invoked(call) else Bad
      case Commit(_, call, isSet) => if before == Invoked(call) then Committed(call, isSet) else Bad
      case Return(_, call, isSet) => if before == Committed(call, isSet) then Idle else Bad
  }

  /** What the log says about thread `t`: its calls are invoked, commit once and return what
      was committed, in this order. Anything else is `Bad`. */
  function PhaseOf(log: seq<Event>, t: Tid): Phase {
    if log == [] then Idle
    else
      NextPhase(PhaseOf(log[..|log| - 1], t), log[|log| - 1], t)
  }

  function ThreadPhase(s: State, t: Tid): Phase {
    if t !in s.threads then Idle
    else
      match s.threads[t].pc
      case Wrote(_, b) => Committed(s.threads[t].call, b)
      case Unlocked(_, b) => Committed(s.threads[t].call, b)
      case InMapAgain(_, b) => Committed(s.threads[t].call, b)
      case Dropped(b) => Committed(s.threads[t].call, b)
      case Cleaned(b) => Committed(s.threads[t].call, b)
      case _ => Invoked(s.threads[t].call)
  }

  ghost predicate History(s: State, db: map<Key, Value>) {
    && Sequential(s.log, db)
    && s.db == Replay(s.log, db)
    && (forall t: Tid :: PhaseOf(s.log, t) == ThreadPhase(s, t))
  }

  ghost predicate Inv(s: State, db: map<Key, Value>) {
    MapMutex(s) && KeyMutex(s) && LockMap(s) && FreshReads(s) && History(s, db)
  }

  lemma InitInv(db: map<Key, Value>)
    ensures Inv(Init(db), db)
  {
  }

  // ---- every access keeps the invariant ----

  ghost predicate Struct(s: State) {
    MapMutex(s) && KeyMutex(s) && LockMap(s) && FreshReads(s)
  }

  predicate At(s: State, t: Tid, pc: Pc) {
    t in s.threads && s.threads[t].pc == pc
  }

  /** The two states have the same threads, except for what `t` does. */
  ghost predicate OnlyMoves(s: State, s': State, t: Tid) {
    forall u :: u != t ==> (u in s.threads <==> u in s'.threads) && (u in s.threads ==> s'.threads[u] == s.threads[u])
  }

  /** The move of `t` does not concern the lock map. */
  ghost predicate SameRole(s: State, s': State, t: Tid) {
    && s'.locks == s.locks && s'.strong == s.strong && s'.nextLock == s.nextLock
    && OnlyMoves(s, s', t)
    && (Flying(s, t) <==> Flying(s', t)) && (Flying(s, t) ==> s'.threads[t].call == s.threads[t].call)
    && (Cloner(s, t) <==> Cloner(s', t)) && (Cloner(s, t) ==> s'.threads[t].pc.lock == s.threads[t].pc.lock)
  }

  lemma ClonesFrame(s: State, s': State, t: Tid, l: LockId)
    requires OnlyMoves(s, s', t)
    requires Cloner(s, t) && s.threads[t].pc.lock == l <==> Cloner(s', t) && s'.threads[t].pc.lock == l
    ensures Clones(s', l) == Clones(s, l)
  {
  }

  lemma UsedFrame(s: State, s': State, t: Tid)
    requires Used(s) && OnlyMoves(s, s', t) && s'.locks == s.locks
    requires Flying(s, t) ==> Flying(s', t) && s'.threads[t].call == s.threads[t].call
    ensures Used(s')
  {
    forall k | k in s'.locks
      ensures exists u :: Flying(s', u) && s'.threads[u].call.Key() == k
    {
      var u :| Flying(s, u) && s.threads[u].call.Key() == k;
      assert Flying(s', u);
    }
  }

  lemma CountsFrame(s: State, s': State, t: Tid)
    requires Counts(s) && SameRole(s, s', t)
    ensures Counts(s')
  {
    forall k | k in s'.locks && s'.locks[k] in s'.strong
      ensures s'.strong[s'.locks[k]] == 1 + |Clones(s', s'.locks[k])|
    {
      ClonesFrame(s, s', t, s.locks[k]);
    }
  }

  lemma LockMapFrame(s: State, s': State, t: Tid)
    requires LockMap(s) && SameRole(s, s', t)
    ensures LockMap(s')
  {
    hide Counts, Used;
    CountsFrame(s, s', t);
    UsedFrame(s, s', t);
  }

  lemma MapMutexFrame(s: State, s': State, t: Tid)
    requires MapMutex(s) && OnlyMoves(s, s', t) && s'.mapOwner == s.mapOwner
    requires t in s.threads && s.threads[t].pc.OwnsMap() <==> t in s'.threads && s'.threads[t].pc.OwnsMap()
    ensures MapMutex(s')
  {
  }

  lemma KeyMutexFrame(s: State, s': State, t: Tid)
    requires KeyMutex(s) && OnlyMoves(s, s', t) && s'.keyOwner == s.keyOwner
    requires t in s.threads && s.threads[t].pc.OwnsKey() <==> t in s'.threads && s'.threads[t].pc.OwnsKey()
    requires t in s.threads && s.threads[t].pc.OwnsKey() ==> s'.threads[t].pc.lock == s.threads[t].pc.lock
    ensures KeyMutex(s')
  {
  }

  lemma FreshReadsFrame(s: State, s': State, t: Tid)
    requires FreshReads(s) && OnlyMoves(s, s', t) && s'.db == s.db
    requires !(t in s'.threads && s'.threads[t].pc.HasRead?)
    ensures FreshReads(s')
  {
  }

  /** Taking or releasing the map's mutex, and starting or ending a call. */
  lemma MapMutexKeeps(s: State, turn: Turn)
    requires Struct(s) && Step(s, turn).Some?
    requires turn.Begin? || (turn.t in s.threads &&
               var pc := s.threads[turn.t].pc; pc.Start? || pc.Cloned? || pc.Unlocked? || pc.Cleaned?)
    ensures Struct(Step(s, turn).value)
  {
    hide MapMutex, KeyMutex, LockMap, FreshReads;
    var s' := Step(s, turn).value;
    var t := turn.t;
    LockMapFrame(s, s', t);
    KeyMutexFrame(s, s', t);
    FreshReadsFrame(s, s', t);
    MapOwnerChange(s, turn);
  }

  lemma MapOwnerChange(s: State, turn: Turn)
    requires MapMutex(s) && Step(s, turn).Some?
    requires turn.Begin? || (turn.t in s.threads &&
               var pc := s.threads[turn.t].pc; pc.Start? || pc.Cloned? || pc.Unlocked? || pc.Cleaned?)
    ensures MapMutex(Step(s, turn).value)
  {
  }

  /** Two threads in their read-then-write sections work on different keys. */
  lemma MutualExclusion(s: State, t: Tid, u: Tid)
    requires Struct(s) && t in s.threads && u in s.threads && t != u
    requires s.threads[t].pc.OwnsKey() && s.threads[u].pc.OwnsKey()
    ensures s.threads[t].call.Key() != s.threads[u].call.Key()
  {
    assert Cloner(s, t) && Cloner(s, u) && Flying(s, t) && Flying(s, u);
  }

  lemma KeyOwnerChange(s: State, t: Tid)
    requires KeyMutex(s) && Next(s, t).Some?
    requires var pc := s.threads[t].pc; pc.Waiting? || pc.Locked? || pc.HasRead? || pc.Wrote?
    ensures KeyMutex(Next(s, t).value)
  {
  }

  lemma FreshReadsChange(s: State, t: Tid)
    requires Struct(s) && Next(s, t).Some?
    requires var pc := s.threads[t].pc; pc.Waiting? || pc.Locked? || pc.HasRead? || pc.Wrote?
    ensures FreshReads(Next(s, t).value)
  {
    hide MapMutex, KeyMutex, LockMap;
    var s' := Next(s, t).value;
    if s.threads[t].pc.HasRead? {
      forall u | u in s'.threads && s'.threads[u].pc.HasRead?
        ensures s'.threads[u].pc.val == Get(s'.db, s'.threads[u].call.Key())
      {
        MutualExclusion(s, t, u);
      }
    }
  }

  /** Locking the key, reading, writing and unlocking it. */
  lemma KeySectionKeeps(s: State, t: Tid)
    requires Struct(s) && Next(s, t).Some?
    requires var pc := s.threads[t].pc; pc.Waiting? || pc.Locked? || pc.HasRead? || pc.Wrote?
    ensures Struct(Next(s, t).value)
  {
    hide MapMutex, KeyMutex, LockMap, FreshReads;
    var s' := Next(s, t).value;
    LockMapFrame(s, s', t);
    MapMutexFrame(s, s', t);
    KeyOwnerChange(s, t);
    FreshReadsChange(s, t);
  }

  /** Moving inside the map does not concern the mutexes or the values read. */
  lemma InsideMapFrame(s: State, s': State, t: Tid)
    requires MapMutex(s) && KeyMutex(s) && FreshReads(s) && OnlyMoves(s, s', t)
    requires s'.mapOwner == s.mapOwner && s'.keyOwner == s.keyOwner && s'.db == s.db
    requires t in s.threads && s.threads[t].pc.OwnsMap() && t in s'.threads && s'.threads[t].pc.OwnsMap()
    ensures MapMutex(s') && KeyMutex(s') && FreshReads(s')
  {
    hide MapMutex, KeyMutex, FreshReads;
    MapMutexFrame(s, s', t);
    KeyMutexFrame(s, s', t);
    FreshReadsFrame(s, s', t);
  }

  /** Cloning the key's lock out of the map, new or existing. */
  lemma CloneKeeps(s: State, t: Tid)
    requires Struct(s) && At(s, t, InMap)
    ensures Struct(CloneLock(s, t, s.threads[t].call.Key()))
  {
    hide MapMutex, KeyMutex, FreshReads, LockIds, ClonesOfMap, Counts, Used;
    InsideMapFrame(s, CloneLock(s, t, s.threads[t].call.Key()), t);
    CloneIds(s, t);
    CloneCounts(s, t);
    CloneUsed(s, t);
  }

  lemma CloneUsed(s: State, t: Tid)
    requires Used(s) && At(s, t, InMap)
    ensures Used(CloneLock(s, t, s.threads[t].call.Key()))
  {
    var k := s.threads[t].call.Key();
    var s' := CloneLock(s, t, k);
    forall k' | k' in s'.locks
      ensures exists u :: Flying(s', u) && s'.threads[u].call.Key() == k'
    {
      if k' == k {
        assert Flying(s', t);
      } else {
        var u :| Flying(s, u) && s.threads[u].call.Key() == k';
        assert Flying(s', u);
      }
    }
  }

  lemma CloneIds(s: State, t: Tid)
    requires LockIds(s) && ClonesOfMap(s) && At(s, t, InMap)
    ensures LockIds(CloneLock(s, t, s.threads[t].call.Key())) && ClonesOfMap(CloneLock(s, t, s.threads[t].call.Key()))
  {
    var s' := CloneLock(s, t, s.threads[t].call.Key());
    forall u | Flying(s', u)
      ensures s'.threads[u].call.Key() in s'.locks
    {
      assert u != t ==> Flying(s, u);
    }
    forall u | Cloner(s', u)
      ensures s'.locks[s'.threads[u].call.Key()] == s'.threads[u].pc.lock
    {
      assert u != t ==> Cloner(s, u) && Flying(s, u);
    }
  }

  /** A lock that is not in the map has no clones. */
  lemma NoStrayClones(s: State, l: LockId)
    requires LockIds(s) && ClonesOfMap(s) && l >= s.nextLock
    ensures Clones(s, l) == {}
  {
    forall u | u in Clones(s, l)
      ensures false
    {
      assert Cloner(s, u) && Flying(s, u);
    }
  }

  lemma OneMoreClone(s: State, s': State, t: Tid)
    requires OnlyMoves(s, s', t) && !Cloner(s, t) && Cloner(s', t)
    ensures |Clones(s', s'.threads[t].pc.lock)| == |Clones(s, s'.threads[t].pc.lock)| + 1
  {
    var l := s'.threads[t].pc.lock;
    assert t !in Clones(s, l);
    assert Clones(s', l) == Clones(s, l) + {t};
  }

  lemma CloneCounts(s: State, t: Tid)
    requires LockIds(s) && ClonesOfMap(s) && Counts(s) && At(s, t, InMap)
    ensures Counts(CloneLock(s, t, s.threads[t].call.Key()))
  {
    var k := s.threads[t].call.Key();
    var s' := CloneLock(s, t, k);
    hide Clones, ClonesOfMap;
    OneMoreClone(s, s', t);
    NoStrayClones(s, s.nextLock);
    forall k' | k' in s'.locks && s'.locks[k'] in s'.strong
      ensures s'.strong[s'.locks[k']] == 1 + |Clones(s', s'.locks[k'])|
    {
      if k' != k {
        ClonesFrame(s, s', t, s.locks[k']);
      }
    }
  }

  /** Dropping the clone. */
  lemma DropKeeps(s: State, t: Tid)
    requires Struct(s) && t in s.threads && s.threads[t].pc.InMapAgain?
    ensures Struct(DropClone(s, t, s.threads[t].pc.lock, s.threads[t].pc.isSet))
  {
    hide MapMutex, KeyMutex, FreshReads, LockIds, ClonesOfMap, Counts, Used;
    var s' := DropClone(s, t, s.threads[t].pc.lock, s.threads[t].pc.isSet);
    InsideMapFrame(s, s', t);
    DropCounts(s, t);
    DropIds(s, t);
    UsedFrame(s, s', t);
  }

  lemma DropIds(s: State, t: Tid)
    requires LockIds(s) && ClonesOfMap(s) && Counts(s) && t in s.threads && s.threads[t].pc.InMapAgain?
    ensures var s' := DropClone(s, t, s.threads[t].pc.lock, s.threads[t].pc.isSet);
            LockIds(s') && ClonesOfMap(s')
  {
    hide Counts;
    var s' := DropClone(s, t, s.threads[t].pc.lock, s.threads[t].pc.isSet);
    DropCounts(s, t);
    assert forall u :: Cloner(s', u) ==> Cloner(s, u);
    assert forall u :: Flying(s', u) ==> Flying(s, u);
  }

  lemma DropCounts(s: State, t: Tid)
    requires LockIds(s) && ClonesOfMap(s) && Counts(s) && t in s.threads && s.threads[t].pc.InMapAgain?
    ensures var s' := DropClone(s, t, s.threads[t].pc.lock, s.threads[t].pc.isSet);
            Counts(s') && s'.strong.Keys == s.strong.Keys
  {
    var k := s.threads[t].call.Key();
    var l := s.threads[t].pc.lock;
    var s' := DropClone(s, t, l, s.threads[t].pc.isSet);
    hide Clones;
    assert Cloner(s, t) && Flying(s, t);
    OneMoreClone(s', s, t);
    assert s.strong[l] == 1 + |Clones(s, l)| >= 2;
    forall k' | k' in s'.locks && s'.locks[k'] in s'.strong
      ensures s'.strong[s'.locks[k']] == 1 + |Clones(s', s'.locks[k'])|
    {
      if k' != k { ClonesFrame(s, s', t, s.locks[k']); }
    }
  }

  /** Removing the entry if the map holds the last reference. */
  lemma CleanKeeps(s: State, t: Tid)
    requires Struct(s) && t in s.threads && s.threads[t].pc.Dropped?
    ensures Struct(CleanUp(s, t, s.threads[t].call.Key(), s.threads[t].pc.isSet))
  {
    hide MapMutex, KeyMutex, FreshReads, LockIds, ClonesOfMap, Counts, Used;
    InsideMapFrame(s, CleanUp(s, t, s.threads[t].call.Key(), s.threads[t].pc.isSet), t);
    CleanIds(s, t);
    CleanUsed(s, t);
    CleanCounts(s, t);
  }

  /** Everyone else in flight on the key has a clone: only one thread is inside the map. */
  lemma OthersAreClones(s: State, t: Tid, u: Tid)
    requires MapMutex(s) && LockIds(s) && ClonesOfMap(s) && t in s.threads && s.threads[t].pc.Dropped?
    requires u != t && Flying(s, u) && s.threads[u].call.Key() == s.threads[t].call.Key()
    ensures Cloner(s, u) && s.threads[u].call.Key() in s.locks && u in Clones(s, s.locks[s.threads[u].call.Key()])
  {
  }

  lemma CleanIds(s: State, t: Tid)
    requires MapMutex(s) && LockIds(s) && ClonesOfMap(s) && Counts(s) && t in s.threads && s.threads[t].pc.Dropped?
    ensures var s' := CleanUp(s, t, s.threads[t].call.Key(), s.threads[t].pc.isSet);
            LockIds(s') && ClonesOfMap(s')
  {
    var k := s.threads[t].call.Key();
    var s' := CleanUp(s, t, k, s.threads[t].pc.isSet);
    forall u | Flying(s', u)
      ensures s'.threads[u].call.Key() in s'.locks
    {
      assert Flying(s, u);
      if s.threads[u].call.Key() == k { OthersAreClones(s, t, u); }
    }
    forall u | Cloner(s', u)
      ensures s'.locks[s'.threads[u].call.Key()] == s'.threads[u].pc.lock
    {
      assert Cloner(s, u) && Flying(s', u);
    }
  }

  lemma CleanUsed(s: State, t: Tid)
    requires LockIds(s) && ClonesOfMap(s) && Counts(s) && Used(s) && t in s.threads && s.threads[t].pc.Dropped?
    ensures Used(CleanUp(s, t, s.threads[t].call.Key(), s.threads[t].pc.isSet))
  {
    var k := s.threads[t].call.Key();
    var s' := CleanUp(s, t, k, s.threads[t].pc.isSet);
    assert Flying(s, t);
    forall k' | k' in s'.locks
      ensures exists u :: Flying(s', u) && s'.threads[u].call.Key() == k'
    {
      if k' == k {
        var u :| u in Clones(s, s.locks[k]);
        assert Cloner(s, u) && Flying(s, u) && Flying(s', u);
      } else {
        var u :| Flying(s, u) && s.threads[u].call.Key() == k';
        assert Flying(s', u);
      }
    }
  }

  lemma CleanCounts(s: State, t: Tid)
    requires LockIds(s) && Counts(s) && t in s.threads && s.threads[t].pc.Dropped?
    ensures Counts(CleanUp(s, t, s.threads[t].call.Key(), s.threads[t].pc.isSet))
  {
    var s' := CleanUp(s, t, s.threads[t].call.Key(), s.threads[t].pc.isSet);
    forall k' | k' in s'.locks && s'.locks[k'] in s'.strong
      ensures s'.strong[s'.locks[k']] == 1 + |Clones(s', s'.locks[k'])|
    {
      ClonesFrame(s, s', t, s.locks[k']);
    }
  }

  lemma StepKeepsStruct(s: State, turn: Turn)
    requires Struct(s) && Step(s, turn).Some?
    ensures Struct(Step(s, turn).value)
  {
    hide Struct, CloneLock, DropClone, CleanUp;
    match turn
    case Begin(t, call) => MapMutexKeeps(s, turn);
    case Advance(t) =>
      match s.threads[t].pc
      case Start => MapMutexKeeps(s, turn);
      case InMap => CloneKeeps(s, t);
      case Cloned(_) => MapMutexKeeps(s, turn);
      case Waiting(_) => KeySectionKeeps(s, t);
      case Locked(_) => KeySectionKeeps(s, t);
      case HasRead(_, _) => KeySectionKeeps(s, t);
      case Wrote(_, _) => KeySectionKeeps(s, t);
      case Unlocked(_, _) => MapMutexKeeps(s, turn);
      case InMapAgain(_, _) => DropKeeps(s, t);
      case Dropped(_) => CleanKeeps(s, t);
      case Cleaned(_) => MapMutexKeeps(s, turn);
  }

  // ---- histories ----

  lemma AppendEvent(log: seq<Event>, e: Event, t: Tid, db: map<Key, Value>)
    ensures PhaseOf(log + [e], t) == NextPhase(PhaseOf(log, t), e, t)
    ensures !e.Commit? ==> Replay(log + [e], db) == Replay(log, db)
    ensures !e.Commit? && Sequential(log, db) ==> Sequential(log + [e], db)
    ensures e.Commit? ==> Replay(log + [e], db) == CompareAndSet(Replay(log, db), e.call).0
    ensures e.Commit? && Sequential(log, db) && e.isSet == CompareAndSet(Replay(log, db), e.call).1 ==>
              Sequential(log + [e], db)
  {
    assert (log + [e])[..|log|] == log;
  }

  /** A step keeps the phases of all threads in line with the log when it does so for its own
      thread. */
  lemma PhasesFrame(s: State, s': State, t: Tid, db: map<Key, Value>)
    requires forall u: Tid :: PhaseOf(s.log, u) == ThreadPhase(s, u)
    requires OnlyMoves(s, s', t)
    requires s'.log == s.log ||
             (|s'.log| == |s.log| + 1 && s'.log == s.log + [s'.log[|s.log|]] && s'.log[|s.log|].t == t)
    requires ThreadPhase(s', t) ==
             if s'.log == s.log then ThreadPhase(s, t) else NextPhase(ThreadPhase(s, t), s'.log[|s.log|], t)
    ensures forall u: Tid :: PhaseOf(s'.log, u) == ThreadPhase(s', u)
  {
    hide PhaseOf;
    forall u: Tid
      ensures PhaseOf(s'.log, u) == ThreadPhase(s', u)
    {
      assert PhaseOf(s.log, u) == ThreadPhase(s, u);
      if s'.log != s.log {
        AppendEvent(s.log, s'.log[|s.log|], u, db);
      }
    }
  }

  /** The commit of thread `t` is what a call executed alone would have done: nobody wrote the
      key since it was read. */
  lemma CommitKeepsHistory(s: State, t: Tid, db: map<Key, Value>)
    requires FreshReads(s) && History(s, db) && t in s.threads && s.threads[t].pc.HasRead?
    ensures History(Next(s, t).value, db)
  {
    hide Sequential, Replay, PhaseOf;
    var s' := Next(s, t).value;
    AppendEvent(s.log, s'.log[|s.log|], t, db);
    PhasesFrame(s, s', t, db);
  }

  lemma InvokeKeepsHistory(s: State, t: Tid, call: Call, db: map<Key, Value>)
    requires History(s, db) && t !in s.threads
    ensures History(Step(s, Begin(t, call)).value, db)
  {
    hide Sequential, Replay, PhaseOf;
    AppendEvent(s.log, Invoke(t, call), t, db);
    PhasesFrame(s, Step(s, Begin(t, call)).value, t, db);
  }

  lemma ReturnKeepsHistory(s: State, t: Tid, db: map<Key, Value>)
    requires History(s, db) && t in s.threads && s.threads[t].pc.Cleaned?
    ensures History(Next(s, t).value, db)
  {
    hide Sequential, Replay, PhaseOf;
    var s' := Next(s, t).value;
    AppendEvent(s.log, s'.log[|s.log|], t, db);
    PhasesFrame(s, s', t, db);
  }

  lemma GoToMoves(s: State, t: Tid, pc: Pc)
    requires t in s.threads
    ensures OnlyMoves(s, GoTo(s, t, pc), t)
  {
  }

  ghost predicate Silent(s: State, s': State, t: Tid) {
    s'.log == s.log && s'.db == s.db && OnlyMoves(s, s', t) && ThreadPhase(s', t) == ThreadPhase(s, t)
  }

  lemma SilentOutsideMap(s: State, t: Tid)
    requires Next(s, t).Some?
    requires var pc := s.threads[t].pc;
             pc.Start? || pc.Cloned? || pc.Waiting? || pc.Locked? || pc.Wrote? || pc.Unlocked?
    ensures Silent(s, Next(s, t).value, t)
  {
    GoToMoves(s, t, Next(s, t).value.threads[t].pc);
    hide OnlyMoves, CloneLock, DropClone, CleanUp;
    var g := GoTo(s, t, Next(s, t).value.threads[t].pc);
    assert Next(s, t).value.threads == g.threads;
    OnlyThreads(s, g, Next(s, t).value, t);
  }

  lemma SilentInsideMap(s: State, t: Tid)
    requires Next(s, t).Some?
    requires var pc := s.threads[t].pc; pc.InMap? || pc.InMapAgain? || pc.Dropped?
    ensures Silent(s, Next(s, t).value, t)
  {
    GoToMoves(s, t, Next(s, t).value.threads[t].pc);
    hide OnlyMoves;
    var g := GoTo(s, t, Next(s, t).value.threads[t].pc);
    assert Next(s, t).value.threads == g.threads;
    OnlyThreads(s, g, Next(s, t).value, t);
  }

  lemma OnlyThreads(s: State, g: State, s': State, t: Tid)
    requires OnlyMoves(s, g, t) && g.threads == s'.threads
    ensures OnlyMoves(s, s', t)
  {
  }

  lemma SilentKeepsHistory(s: State, t: Tid, db: map<Key, Value>)
    requires History(s, db) && t in s.threads && Next(s, t).Some?
    requires !s.threads[t].pc.HasRead? && !s.threads[t].pc.Cleaned?
    ensures History(Next(s, t).value, db)
  {
    hide Sequential, Replay, PhaseOf, Next, ThreadPhase;
    var pc := s.threads[t].pc;
    if pc.InMap? || pc.InMapAgain? || pc.Dropped? {
      SilentInsideMap(s, t);
    } else {
      SilentOutsideMap(s, t);
    }
    PhasesFrame(s, Next(s, t).value, t, db);
  }

  lemma StepKeepsInv(s: State, turn: Turn, db: map<Key, Value>)
    requires Inv(s, db) && Step(s, turn).Some?
    ensures Inv(Step(s, turn).value, db)
  {
    hide MapMutex, KeyMutex, LockMap, FreshReads, History;
    StepKeepsStruct(s, turn);
    match turn
    case Begin(t, call) => InvokeKeepsHistory(s, t, call, db);
    case Advance(t) =>
      if s.threads[t].pc.Cleaned? {
        ReturnKeepsHistory(s, t, db);
      } else if s.threads[t].pc.HasRead? {
        CommitKeepsHistory(s, t, db);
      } else {
        SilentKeepsHistory(s, t, db);
      }
  }

  lemma {:induction false} RunKeepsInv(s: State, turns: seq<Turn>, db: map<Key, Value>)
    requires Inv(s, db) && Run(s, turns).Some?
    ensures Inv(Run(s, turns).value, db)
    decreases |turns|
  {
    hide Inv, Step;
    if turns != [] {
      StepKeepsInv(s, turns[0], db);
      RunKeepsInv(Step(s, turns[0]).value, turns[1..], db);
    }
  }

  /** The calls that the log invokes, in order. */
  function Invocations(log: seq<Event>): seq<(Tid, Call)> {
    if log == [] then []
    else
      var e := log[|log| - 1];
      Invocations(log[..|log| - 1]) + if e.Invoke? then [(e.t, e.call)] else []
  }

  /** The calls that an interleaving begins, in order. */
  function Begun(turns: seq<Turn>): seq<(Tid, Call)> {
    if turns == [] then []
    else (if turns[0].Begin? then [(turns[0].t, turns[0].call)] else []) + Begun(turns[1..])
  }

  lemma StepInvokes(s: State, turn: Turn)
    requires Step(s, turn).Some?
    ensures Invocations(Step(s, turn).value.log) ==
              Invocations(s.log) + if turn.Begin? then [(turn.t, turn.call)] else []
  {
    hide Invocations;
    var log' := Step(s, turn).value.log;
    if log' != s.log {
      var e := log'[|s.log|];
      assert log' == s.log + [e];
      InvocationsSnoc(s.log, e);
    }
    assert Invocations(s.log) + [] == Invocations(s.log);
  }

  lemma InvocationsSnoc(log: seq<Event>, e: Event)
    ensures Invocations(log + [e]) == Invocations(log) + if e.Invoke? then [(e.t, e.call)] else []
  {
    assert (log + [e])[..|log|] == log;
  }

  lemma {:induction false} InvokesAll(s: State, turns: seq<Turn>)
    requires Run(s, turns).Some?
    ensures Invocations(Run(s, turns).value.log) == Invocations(s.log) + Begun(turns)
    decreases |turns|
  {
    hide Step, Invocations;
    if turns != [] {
      StepInvokes(s, turns[0]);
      InvokesAll(Step(s, turns[0]).value, turns[1..]);
    }
  }

  /** `compare_and_set` linearises. After any interleaving of any number of threads: the
      database is the one reached by executing the committed calls one after the other; each
      reported exactly what it would report in that order; and each call committed once,
      between its invocation and its return, with the result that it returns. The calls are
      the ones that were begun. */
  lemma Linearizable(db: map<Key, Value>, turns: seq<Turn>)
    requires Run(Init(db), turns).Some?
    ensures var s := Run(Init(db), turns).value;
            && s.db == Replay(s.log, db)
            && Sequential(s.log, db)
            && (forall t: Tid :: PhaseOf(s.log, t) != Bad)
            && Invocations(s.log) == Begun(turns)
  {
    InvokesAll(Init(db), turns);
    InitInv(db);
    RunKeepsInv(Init(db), turns, db);
    hide Struct, Run, Replay, Sequential, Begun;
    var s := Run(Init(db), turns).value;
    assert forall t: Tid :: PhaseOf(s.log, t) == ThreadPhase(s, t);
  }

  /** In every reachable state at most one call per key is in its read-then-write section. */
  lemma OneWriterPerKey(db: map<Key, Value>, turns: seq<Turn>, t: Tid, u: Tid)
    requires Run(Init(db), turns).Some?
    requires var s := Run(Init(db), turns).value;
             && t in s.threads && u in s.threads && t != u
             && s.threads[t].pc.OwnsKey() && s.threads[u].pc.OwnsKey()
    ensures var s := Run(Init(db), turns).value;
            s.threads[t].call.prefix + s.threads[t].call.itemKey != s.threads[u].call.prefix + s.threads[u].call.itemKey
  {
    InitInv(db);
    RunKeepsInv(Init(db), turns, db);
    hide Run, History;
    MutualExclusion(Run(Init(db), turns).value, t, u);
  }

  /** A key has an entry in the lock map exactly while a call on it is in flight; once all
      calls have returned the map is empty. */
  lemma LocksAreCallsInFlight(db: map<Key, Value>, turns: seq<Turn>)
    requires Run(Init(db), turns).Some?
    ensures var s := Run(Init(db), turns).value;
            && (forall k :: k in s.locks <==>
                  exists t :: Flying(s, t) && s.threads[t].call.prefix + s.threads[t].call.itemKey == k)
            && (s.threads == map[] ==> s.locks == map[] && s.keyOwner == map[] && s.mapOwner == None)
  {
    InitInv(db);
    RunKeepsInv(Init(db), turns, db);
    hide Run, History, FreshReads, Counts, LockIds;
    var s := Run(Init(db), turns).value;
    assert s.threads == map[] ==> s.locks.Keys == {} && s.keyOwner.Keys == {};
  }

  /** The protocol never deadlocks: while a call is in flight, some thread can move. */
  lemma NoDeadlock(db: map<Key, Value>, turns: seq<Turn>)
    requires Run(Init(db), turns).Some?
    ensures var s := Run(Init(db), turns).value;
            s.threads != map[] ==> exists t :: t in s.threads && Next(s, t).Some?
  {
    InitInv(db);
    RunKeepsInv(Init(db), turns, db);
    hide Run, History, FreshReads, LockMap, Next;
    var s := Run(Init(db), turns).value;
    if s.threads != map[] {
      var t :| t in s.threads;
      if Blocked(s, t) {
        var u := if s.threads[t].pc.Waiting? then s.keyOwner[s.threads[t].pc.lock] else s.mapOwner.value;
        MovesUnlessBlocked(s, u);
      } else {
        MovesUnlessBlocked(s, t);
      }
    }
  }

  /** How many accesses the call of `t` has made. */
  function Made(s: State, t: Tid): nat {
    if t !in s.threads then 0 else Rank(s.threads[t].pc)
  }

  function Rank(pc: Pc): nat {
    match pc
    case Start => 0
    case InMap => 1
    case Cloned(_) => 2
    case Waiting(_) => 3
    case Locked(_) => 4
    case HasRead(_, _) => 5
    case Wrote(_, _) => 6
    case Unlocked(_, _) => 7
    case InMapAgain(_, _) => 8
    case Dropped(_) => 9
    case Cleaned(_) => 10
  }

  function Accesses(turns: seq<Turn>, t: Tid): nat {
    if turns == [] then 0 else (if turns[0] == Advance(t) then 1 else 0) + Accesses(turns[1..], t)
  }

  function Returns(log: seq<Event>, t: Tid): nat {
    if log == [] then 0
    else
      var e := log[|log| - 1];
      Returns(log[..|log| - 1], t) + if e.Return? && e.t == t then 1 else 0
  }

  lemma ReturnsSnoc(log: seq<Event>, e: Event, t: Tid)
    ensures Returns(log + [e], t) == Returns(log, t) + if e.Return? && e.t == t then 1 else 0
  {
    assert (log + [e])[..|log|] == log;
  }

  lemma StepMakesOne(s: State, turn: Turn, t: Tid)
    requires Step(s, turn).Some?
    ensures var s' := Step(s, turn).value;
            11 * Returns(s'.log, t) + Made(s', t) ==
              11 * Returns(s.log, t) + Made(s, t) + if turn == Advance(t) then 1 else 0
  {
    hide Returns, Next, Made;
    var log' := Step(s, turn).value.log;
    match turn
    case Begin(u, call) =>
      assert Made(Step(s, turn).value, t) == Made(s, t) by { OtherMakesNone(s, turn, t); }
      ReturnsSnoc(s.log, Invoke(u, call), t);
    case Advance(u) =>
      NextMakesOne(s, u);
      NextLogs(s, u);
      if u != t { OtherMakesNone(s, turn, t); }
      if log' != s.log { ReturnsSnoc(s.log, log'[|s.log|], t); }
  }

  lemma NextMakesOne(s: State, t: Tid)
    requires Next(s, t).Some?
    ensures var s', done := Next(s, t).value, s.threads[t].pc.Cleaned?;
            Made(s', t) == (if done then 0 else Made(s, t) + 1) && (done ==> Made(s, t) == 10)
  {
    hide CloneLock, DropClone, CleanUp;
    match s.threads[t].pc
    case InMap => InsideMakes(s, t, s.threads[t].call.Key(), 0, false);
    case InMapAgain(l, isSet) => InsideMakes(s, t, [], l, isSet);
    case Dropped(isSet) => InsideMakes(s, t, s.threads[t].call.Key(), 0, isSet);
    case _ =>
  }

  lemma InsideMakes(s: State, t: Tid, k: Key, l: LockId, isSet: bool)
    requires t in s.threads
    ensures Made(CloneLock(s, t, k), t) == 2
    ensures Made(DropClone(s, t, l, isSet), t) == 9
    ensures Made(CleanUp(s, t, k, isSet), t) == 10
  {
  }

  lemma NextLogs(s: State, t: Tid)
    requires Next(s, t).Some?
    ensures var s', done := Next(s, t).value, s.threads[t].pc.Cleaned?;
            && (done ==> |s'.log| == |s.log| + 1 && s'.log[|s.log|].Return? && s'.log[|s.log|].t == t)
            && (s'.log == s.log || (|s'.log| == |s.log| + 1 && s'.log == s.log + [s'.log[|s.log|]]))
            && (s'.log != s.log ==> s'.log[|s.log|].t == t && s'.log[|s.log|].Return? == done)
  {
  }

  lemma OtherMakesNone(s: State, turn: Turn, t: Tid)
    requires Step(s, turn).Some? && turn != Advance(t)
    ensures Made(Step(s, turn).value, t) == Made(s, t)
  {
    hide Next;
    if turn.Advance? { NextOnlyMoves(s, turn.t); }
  }

  lemma NextOnlyMoves(s: State, t: Tid)
    requires Next(s, t).Some?
    ensures OnlyMoves(s, Next(s, t).value, t)
  {
    hide CloneLock, DropClone, CleanUp;
    var pc := s.threads[t].pc;
    if pc.InMap? || pc.InMapAgain? || pc.Dropped? {
      SilentInsideMap(s, t);
    } else if !pc.HasRead? && !pc.Cleaned? {
      SilentOutsideMap(s, t);
    }
  }

  lemma {:induction false} AccessesFrom(s: State, turns: seq<Turn>, t: Tid)
    requires Run(s, turns).Some?
    ensures var s' := Run(s, turns).value;
            11 * Returns(s'.log, t) + Made(s', t) == 11 * Returns(s.log, t) + Made(s, t) + Accesses(turns, t)
    decreases |turns|
  {
    hide Step, Returns, Made;
    if turns != [] {
      StepMakesOne(s, turns[0], t);
      AccessesFrom(Step(s, turns[0]).value, turns[1..], t);
    }
  }

  /** No call goes round in circles: over any interleaving a thread has returned once for every
      eleven accesses it made. */
  lemma ElevenAccessesPerCall(db: map<Key, Value>, turns: seq<Turn>, t: Tid)
    requires Run(Init(db), turns).Some?
    ensures var s := Run(Init(db), turns).value;
            Accesses(turns, t) == 11 * Returns(s.log, t) + Made(s, t) && Made(s, t) < 11
  {
    hide Run, Accesses;
    AccessesFrom(Init(db), turns, t);
  }

  predicate Blocked(s: State, t: Tid)
    requires t in s.threads
  {
    match s.threads[t].pc
    case Start => s.mapOwner != None
    case Unlocked(_, _) => s.mapOwner != None
    case Waiting(l) => l in s.keyOwner
    case _ => false
  }

  lemma MovesUnlessBlocked(s: State, t: Tid)
    requires t in s.threads && !Blocked(s, t)
    ensures Next(s, t).Some?
  {
    hide CloneLock, DropClone, CleanUp;
  }
}
