/** Filling a block from the transaction pool: the block builder's transactional `push`, its
    size estimate, and the proposer's loop with its size limit, deadlines and skip rule.

    The pool is whatever sequence its iterator yields, the clock any function of the number of
    readings so far, and the runtime a function of its state and the extrinsic. */
module BlockProposal {
  import opened Types

  /** An extrinsic, as its encoding. */
  type Xt = seq<byte>

  const MAX_SKIPPED_TRANSACTIONS := 8

  // ---- the block builder ----

  datatype ApplyResult = Applied | ExhaustedResources | OtherValidity | ApiError

  /** Bytes of the compact length prefix of a list. */
  function CompactLen(n: nat): nat {
    if n < 0x40 then 1 else if n < 0x4000 then 2 else if n < 0x4000_0000 then 4 else 5
  }

  function SumLen(xs: seq<Xt>): nat {
    if xs == [] then 0 else SumLen(xs[..|xs| - 1]) + |xs[|xs| - 1]|
  }

  function EncodedSize(xs: seq<Xt>): nat {
    CompactLen(|xs|) + SumLen(xs)
  }

  /** The runtime as the builder uses it. */
  datatype Runtime<!O> = Runtime(apply: (O, Xt) -> (O, ApplyResult), proofSize: O -> nat)

  /** The state of the runtime after executing extrinsics one after the other. */
  function Execute<O>(rt: Runtime<O>, o: O, xs: seq<Xt>): O {
    if xs == [] then o else rt.apply(Execute(rt, o, xs[..|xs| - 1]), xs[|xs| - 1]).0
  }

  class BlockBuilder<!O> {
    var extrinsics: seq<Xt>
    var overlay: O
    const runtime: Runtime<O>
    const estimatedHeaderSize: nat

    constructor (runtime: Runtime<O>, overlay: O, estimatedHeaderSize: nat)
      ensures this.runtime == runtime && this.overlay == overlay && extrinsics == []
      ensures this.estimatedHeaderSize == estimatedHeaderSize
    {
      this.runtime := runtime;
      this.overlay := overlay;
      this.estimatedHeaderSize := estimatedHeaderSize;
      extrinsics := [];
    }

    /** Executes the extrinsic in a transaction that is committed only if it was applied. */
    method Push(xt: Xt) returns (r: ApplyResult)
      modifies this
      ensures r == runtime.apply(old(overlay), xt).1
      ensures r.Applied? ==> extrinsics == old(extrinsics) + [xt] && overlay == runtime.apply(old(overlay), xt).0
      ensures !r.Applied? ==> extrinsics == old(extrinsics) && overlay == old(overlay)
    {
      var checkpoint := overlay;
      var (next, res) := runtime.apply(overlay, xt);
      overlay := next;
      r := res;
      if r.Applied? {
        extrinsics := extrinsics + [xt];
      } else {
        overlay := checkpoint;
      }
    }

    function EstimateBlockSize(includeProof: bool): nat
      reads this
    {
      var size := estimatedHeaderSize + EncodedSize(extrinsics);
      if includeProof then size + runtime.proofSize(overlay) else size
    }
  }

  // ---- one round of the loop ----

  datatype EndReason = NoMoreTransactions | HitDeadline | HitBlockSizeLimit | HitBlockWeightLimit

  /** What became of an examined transaction. */
  datatype Fate = Pushed | Overflowed | Exhausted | Invalid

  datatype PoolTx = PoolTx(hash: nat, data: Xt)

  datatype Params<!O> = Params(
    runtime: Runtime<O>,
    header: nat,
    limit: nat,
    includeProof: bool,
    deadline: nat,
    softDeadline: nat,
    clock: nat -> nat)

  /** `fates` and `tops` record, per examined transaction, its fate and the clock at its
      examination; `ticks` counts the readings of the clock. */
  datatype Loop<O> = Loop(
    extrinsics: seq<Xt>,
    overlay: O,
    skipped: nat,
    ticks: nat,
    fates: seq<Fate>,
    tops: seq<nat>,
    end: Option<EndReason>)

  function Estimate<O>(p: Params<O>, s: Loop<O>): nat {
    p.header + EncodedSize(s.extrinsics) + if p.includeProof then p.runtime.proofSize(s.overlay) else 0
  }

  function Note<O>(s: Loop<O>, fate: Fate, now: nat, ticks: nat): Loop<O> {
    s.(fates := s.fates + [fate], tops := s.tops + [now], ticks := ticks)
  }

  /** One transaction: stop after the deadline; skip what does not fit, up to eight of them or
      for as long as the soft deadline allows; otherwise push it. */
  function Examine<O>(p: Params<O>, s: Loop<O>, tx: PoolTx): Loop<O> {
    var now := p.clock(s.ticks);
    if now > p.deadline then s.(end := Some(HitDeadline), ticks := s.ticks + 1)
    else if Estimate(p, s) + |tx.data| > p.limit then
      var s1 := Note(s, Overflowed, now, s.ticks + 1);
      if s.skipped < MAX_SKIPPED_TRANSACTIONS then s1.(skipped := s.skipped + 1)
      else if now < p.softDeadline then s1
      else s1.(end := Some(HitBlockSizeLimit))
    else
      match p.runtime.apply(s.overlay, tx.data)
      case (o, Applied) =>
        Note(s, Pushed, now, s.ticks + 1).(extrinsics := s.extrinsics + [tx.data], overlay := o)
      case (_, ExhaustedResources) =>
        if s.skipped < MAX_SKIPPED_TRANSACTIONS then Note(s, Exhausted, now, s.ticks + 1).(skipped := s.skipped + 1)
        else if p.clock(s.ticks + 1) < p.softDeadline then Note(s, Exhausted, now, s.ticks + 2)
        else Note(s, Exhausted, now, s.ticks + 2).(end := Some(HitBlockWeightLimit))
      case (_, _) => Note(s, Invalid, now, s.ticks + 1)
  }

  /** The loop over the first `n` transactions of the pool. */
  function After<O>(p: Params<O>, s: Loop<O>, pool: seq<PoolTx>, n: nat): Loop<O>
    requires n <= |pool|
  {
    if n == 0 then s
    else
      var s1 := After(p, s, pool, n - 1);
      if s1.end.Some? then s1 else Examine(p, s1, pool[n - 1])
  }

  function Finished<O>(p: Params<O>, s: Loop<O>, pool: seq<PoolTx>): Loop<O> {
    var r := After(p, s, pool, |pool|);
    if r.end.Some? then r else r.(end := Some(NoMoreTransactions))
  }

  // ---- results ----

  /** The data of the transactions with the given fate, in pool order. */
  function Having(pool: seq<PoolTx>, fates: seq<Fate>, f: Fate): seq<PoolTx>
    requires |fates| <= |pool|
  {
    if fates == [] then []
    else
      var n := |fates| - 1;
      Having(pool, fates[..n], f) + if fates[n] == f then [pool[n]] else []
  }

  function Data(txs: seq<PoolTx>): seq<Xt> {
    if txs == [] then [] else Data(txs[..|txs| - 1]) + [txs[|txs| - 1].data]
  }

  /** Overflowed or exhausted transactions met at or after the soft deadline. */
  function Late<O>(p: Params<O>, fates: seq<Fate>, tops: seq<nat>): nat
    requires |fates| == |tops|
  {
    if fates == [] then 0
    else
      var n := |fates| - 1;
      Late(p, fates[..n], tops[..n]) +
        if (fates[n] == Overflowed || fates[n] == Exhausted) && tops[n] >= p.softDeadline then 1 else 0
  }

  function Begin<O>(o: O, xs: seq<Xt>, ticks: nat): Loop<O> {
    Loop(xs, o, 0, ticks, [], [], None)
  }

  lemma SumLenSnoc(xs: seq<Xt>, x: Xt)
    ensures SumLen(xs + [x]) == SumLen(xs) + |x|
  {
    assert (xs + [x])[..|xs|] == xs;
  }

  /** One more extrinsic costs its own size and at most two bytes of length prefix. */
  lemma PushGrowth(xs: seq<Xt>, x: Xt)
    ensures EncodedSize(xs) + |x| <= EncodedSize(xs + [x]) <= EncodedSize(xs) + |x| + 2
    ensures EncodedSize(xs + [x]) == EncodedSize(xs) + |x| <==> |xs| != 0x3f && |xs| != 0x3fff && |xs| != 0x3fff_ffff
    ensures EncodedSize(xs + [x]) == EncodedSize(xs) + |x| + 2 <==> |xs| == 0x3fff
    ensures EncodedSize([]) == 1
  {
    SumLenSnoc(xs, x);
  }

  /** A clock that never goes back, as `Instant` guarantees. */
  ghost predicate Monotone(clock: nat -> nat) {
    forall i: nat, j: nat :: i <= j ==> clock(i) <= clock(j)
  }

  /** What holds after any number of transactions. */
  ghost predicate LoopInv<O>(p: Params<O>, s0: Loop<O>, s: Loop<O>, pool: seq<PoolTx>) {
    && |s.fates| == |s.tops| && |s.fates| <= |pool|
    // examined transactions split by fate; the pushed ones make the block, in pool order
    && s.extrinsics == s0.extrinsics + Data(Having(pool, s.fates, Pushed))
    // the runtime has executed exactly what is in the block
    && s.overlay == Execute(p.runtime, s0.overlay, Data(Having(pool, s.fates, Pushed)))
    && p.header + EncodedSize(s.extrinsics) <= Max(p.header + EncodedSize(s0.extrinsics), p.limit + 2)
    && s.skipped <= MAX_SKIPPED_TRANSACTIONS
    && (Monotone(p.clock) ==> Late(p, s.fates, s.tops) <= s.skipped + (if s.end.Some? then 1 else 0))
  }

  lemma NoteFate<O>(p: Params<O>, s: Loop<O>, pool: seq<PoolTx>, fate: Fate, now: nat, ticks: nat)
    requires |s.fates| == |s.tops| && |s.fates| < |pool|
    ensures var s' := Note(s, fate, now, ticks);
            && Having(pool, s'.fates, Pushed) ==
                 Having(pool, s.fates, Pushed) + (if fate == Pushed then [pool[|s.fates|]] else [])
            && Late(p, s'.fates, s'.tops) ==
                 Late(p, s.fates, s.tops) +
                   (if (fate == Overflowed || fate == Exhausted) && now >= p.softDeadline then 1 else 0)
  {
    var s' := Note(s, fate, now, ticks);
    assert s'.fates[..|s.fates|] == s.fates && s'.tops[..|s.tops|] == s.tops;
  }

  lemma DataSnoc<O>(rt: Runtime<O>, o: O, txs: seq<PoolTx>, tx: PoolTx)
    ensures Data(txs + [tx]) == Data(txs) + [tx.data]
    ensures Execute(rt, o, Data(txs + [tx])) == rt.apply(Execute(rt, o, Data(txs)), tx.data).0
  {
    assert (txs + [tx])[..|txs|] == txs;
    assert (Data(txs) + [tx.data])[..|Data(txs)|] == Data(txs);
  }

  lemma ExamineKeeps<O>(p: Params<O>, s0: Loop<O>, s: Loop<O>, pool: seq<PoolTx>, tx: PoolTx)
    requires LoopInv(p, s0, s, pool) && s.end.None?
    requires |s.fates| < |pool| && tx == pool[|s.fates|]
    ensures LoopInv(p, s0, Examine(p, s, tx), pool)
  {
    hide EncodedSize, Data, Having, Late, Execute;
    var now := p.clock(s.ticks);
    var s' := Examine(p, s, tx);
    if now <= p.deadline {
      var fate := s'.fates[|s.fates|];
      NoteFate(p, s, pool, fate, now, s'.ticks);
      assert Monotone(p.clock) ==> p.clock(s.ticks) <= p.clock(s.ticks + 1);
      if fate == Pushed {
        DataSnoc(p.runtime, s0.overlay, Having(pool, s.fates, Pushed), tx);
        PushGrowth(s.extrinsics, tx.data);
        assert s'.extrinsics == s0.extrinsics + (Data(Having(pool, s.fates, Pushed)) + [tx.data]);
      } else {
        assert Having(pool, s.fates, Pushed) + [] == Having(pool, s.fates, Pushed);
      }
    }
  }

  /** What one round does to the record. */
  lemma ExamineRecords<O>(p: Params<O>, s: Loop<O>, tx: PoolTx)
    requires |s.fates| == |s.tops| && s.end.None?
    ensures var s' := Examine(p, s, tx);
            && s'.end != Some(NoMoreTransactions)
            && (s'.end == Some(HitDeadline) ==> s'.fates == s.fates && s'.tops == s.tops)
            && (s'.end != Some(HitDeadline) ==>
                  && |s'.fates| == |s.fates| + 1 && s'.fates[..|s.fates|] == s.fates
                  && s'.tops == s.tops + [p.clock(s.ticks)] && p.clock(s.ticks) <= p.deadline)
  {
    hide Estimate;
  }

  lemma {:induction false} AfterKeeps<O>(p: Params<O>, o: O, xs: seq<Xt>, ticks: nat, pool: seq<PoolTx>, n: nat)
    requires n <= |pool|
    ensures var s := After(p, Begin(o, xs, ticks), pool, n);
            && LoopInv(p, Begin(o, xs, ticks), s, pool)
            && |s.fates| == |s.tops| <= n && (s.end.None? ==> |s.fates| == n)
            && s.end != Some(NoMoreTransactions)
            && (forall i :: 0 <= i < |s.tops| ==> s.tops[i] <= p.deadline)
  {
    hide LoopInv, Examine;
    var s0 := Begin(o, xs, ticks);
    if n == 0 {
      BeginInv(p, o, xs, ticks, pool);
    } else {
      AfterKeeps(p, o, xs, ticks, pool, n - 1);
      var s := After(p, s0, pool, n - 1);
      if s.end.None? {
        ExamineKeeps(p, s0, s, pool, pool[n - 1]);
        ExamineRecords(p, s, pool[n - 1]);
      }
    }
  }

  lemma BeginInv<O>(p: Params<O>, o: O, xs: seq<Xt>, ticks: nat, pool: seq<PoolTx>)
    ensures LoopInv(p, Begin(o, xs, ticks), Begin(o, xs, ticks), pool)
  {
    assert xs + [] == xs;
  }

  /** For every pool, clock and runtime: the finished estimate without proof is at most the
      estimate before the loop or the limit plus two bytes, whichever is more; unless the clock
      goes back, at most nine transactions that do not fit are met at or after the soft
      deadline; nothing is examined after the deadline; the block holds exactly the pushed
      transactions, in pool order; and the runtime has executed exactly those. */
  lemma ProposalBounds<O>(p: Params<O>, o: O, xs: seq<Xt>, ticks: nat, pool: seq<PoolTx>)
    ensures var s := Finished(p, Begin(o, xs, ticks), pool);
            && s.end.Some?
            && |s.fates| == |s.tops| <= |pool| && (s.end == Some(NoMoreTransactions) ==> |s.fates| == |pool|)
            && p.header + EncodedSize(s.extrinsics) <= Max(p.header + EncodedSize(xs), p.limit + 2)
            && (Monotone(p.clock) ==> Late(p, s.fates, s.tops) <= 9)
            && (forall i :: 0 <= i < |s.tops| ==> s.tops[i] <= p.deadline)
            && s.extrinsics == xs + Data(Having(pool, s.fates, Pushed))
            && s.overlay == Execute(p.runtime, o, Data(Having(pool, s.fates, Pushed)))
  {
    hide After, EncodedSize, Late, Data, Having, Execute;
    AfterKeeps(p, o, xs, ticks, pool, |pool|);
  }

  /** What should become of a transaction when `pushed` are in the block already: it overflows
      if the block would pass the limit, and else the runtime decides. */
  function ExpectedFate<O>(p: Params<O>, o: O, xs: seq<Xt>, pushed: seq<PoolTx>, tx: PoolTx): Fate {
    var overlay := Execute(p.runtime, o, Data(pushed));
    var proof := if p.includeProof then p.runtime.proofSize(overlay) else 0;
    if p.header + EncodedSize(xs + Data(pushed)) + proof + |tx.data| > p.limit then Overflowed
    else
      match p.runtime.apply(overlay, tx.data).1
      case Applied => Pushed
      case ExhaustedResources => Exhausted
      case _ => Invalid
  }

  lemma ExamineFate<O>(p: Params<O>, s0: Loop<O>, s: Loop<O>, pool: seq<PoolTx>, tx: PoolTx)
    requires LoopInv(p, s0, s, pool) && s.end.None?
    ensures var s' := Examine(p, s, tx);
            s'.end != Some(HitDeadline) ==>
              s'.fates == s.fates + [ExpectedFate(p, s0.overlay, s0.extrinsics, Having(pool, s.fates, Pushed), tx)]
  {
    hide EncodedSize, Data, Having, Late, Execute;
  }

  ghost predicate RightFates<O>(p: Params<O>, o: O, xs: seq<Xt>, pool: seq<PoolTx>, fates: seq<Fate>)
    requires |fates| <= |pool|
  {
    forall i :: 0 <= i < |fates| ==> fates[i] == ExpectedFate(p, o, xs, Having(pool, fates[..i], Pushed), pool[i])
  }

  lemma RightFatesSnoc<O>(p: Params<O>, o: O, xs: seq<Xt>, pool: seq<PoolTx>, fates: seq<Fate>)
    requires |fates| < |pool| && RightFates(p, o, xs, pool, fates)
    ensures RightFates(p, o, xs, pool, fates + [ExpectedFate(p, o, xs, Having(pool, fates, Pushed), pool[|fates|])])
  {
    hide ExpectedFate, Having;
    var fates' := fates + [ExpectedFate(p, o, xs, Having(pool, fates, Pushed), pool[|fates|])];
    forall i | 0 <= i < |fates'|
      ensures fates'[i] == ExpectedFate(p, o, xs, Having(pool, fates'[..i], Pushed), pool[i])
    {
      assert fates'[..i] == fates[..i];
    }
  }

  /** Every examined transaction meets the fate it should, given those pushed before it. */
  lemma {:induction false} FatesAreRight<O>(p: Params<O>, o: O, xs: seq<Xt>, ticks: nat, pool: seq<PoolTx>, n: nat)
    requires n <= |pool|
    ensures var s := After(p, Begin(o, xs, ticks), pool, n);
            |s.fates| <= |pool| && RightFates(p, o, xs, pool, s.fates)
  {
    hide Examine, LoopInv, RightFates, ExpectedFate;
    AfterKeeps(p, o, xs, ticks, pool, n);
    if n == 0 {
      NoRightFates(p, o, xs, pool);
    } else {
      FatesAreRight(p, o, xs, ticks, pool, n - 1);
      AfterKeeps(p, o, xs, ticks, pool, n - 1);
      var s := After(p, Begin(o, xs, ticks), pool, n - 1);
      if s.end.None? {
        ExamineRecords(p, s, pool[n - 1]);
        ExamineFate(p, Begin(o, xs, ticks), s, pool, pool[n - 1]);
        RightFatesSnoc(p, o, xs, pool, s.fates);
      }
    }
  }

  lemma NoRightFates<O>(p: Params<O>, o: O, xs: seq<Xt>, pool: seq<PoolTx>)
    ensures RightFates(p, o, xs, pool, [])
  {
  }

  /** How many transactions did not fit. */
  function Misfits(fates: seq<Fate>): nat {
    if fates == [] then 0
    else
      var n := |fates| - 1;
      Misfits(fates[..n]) + if fates[n] == Overflowed || fates[n] == Exhausted then 1 else 0
  }

  lemma MisfitsSnoc(fates: seq<Fate>, f: Fate)
    ensures Misfits(fates + [f]) == Misfits(fates) + if f == Overflowed || f == Exhausted then 1 else 0
  {
    assert (fates + [f])[..|fates|] == fates;
  }

  /** The skip count is the number of misfits up to eight; and an end has its cause: a full
      block only at a ninth or later misfit, at or after the soft deadline, and the deadline
      only when the clock has passed it. */
  ghost predicate Caused<O>(p: Params<O>, s: Loop<O>) {
    && s.skipped == Min(8, Misfits(s.fates))
    && (s.end == Some(HitBlockSizeLimit) || s.end == Some(HitBlockWeightLimit) ==>
          && |s.fates| > 0 && Misfits(s.fates) > 8 && s.ticks > 0
          && p.clock(s.ticks - 1) >= p.softDeadline
          && s.fates[|s.fates| - 1] == if s.end.value == HitBlockSizeLimit then Overflowed else Exhausted)
    && (s.end == Some(HitDeadline) ==> s.ticks > 0 && p.clock(s.ticks - 1) > p.deadline)
  }

  lemma ExamineCaused<O>(p: Params<O>, s: Loop<O>, tx: PoolTx)
    requires Caused(p, s) && s.end.None?
    ensures Caused(p, Examine(p, s, tx))
  {
    hide Estimate, Misfits;
    MisfitsSnoc(s.fates, Pushed);
    MisfitsSnoc(s.fates, Overflowed);
    MisfitsSnoc(s.fates, Exhausted);
    MisfitsSnoc(s.fates, Invalid);
  }

  /** The loop never gives up without cause. */
  lemma {:induction false} GivesUpForCause<O>(p: Params<O>, o: O, xs: seq<Xt>, ticks: nat, pool: seq<PoolTx>, n: nat)
    requires n <= |pool|
    ensures Caused(p, After(p, Begin(o, xs, ticks), pool, n))
  {
    if n == 0 {
      NoMisfits();
    } else {
      hide Caused, Examine;
      GivesUpForCause(p, o, xs, ticks, pool, n - 1);
      var s := After(p, Begin(o, xs, ticks), pool, n - 1);
      if s.end.None? { ExamineCaused(p, s, pool[n - 1]); }
    }
  }

  lemma NoMisfits()
    ensures Misfits([]) == 0
  {
  }

  /** The finished loop has examined a prefix of the pool, all of it unless it gave up, and that
      prefix splits into the transactions in the block, those skipped because they do not fit,
      and those reported invalid and unqueued: each transaction is in one part, once. */
  lemma ExaminedSplits<O>(p: Params<O>, o: O, xs: seq<Xt>, ticks: nat, pool: seq<PoolTx>)
    ensures var s := Finished(p, Begin(o, xs, ticks), pool);
            var n := |s.fates|;
            && n <= |pool| && (s.end == Some(NoMoreTransactions) ==> n == |pool|)
            && s.extrinsics == xs + Data(Having(pool, s.fates, Pushed))
            && multiset(Having(pool, s.fates, Pushed)) + multiset(Having(pool, s.fates, Overflowed)) +
               multiset(Having(pool, s.fates, Exhausted)) + multiset(Having(pool, s.fates, Invalid)) ==
               multiset(pool[..n])
            && RightFates(p, o, xs, pool, s.fates)
  {
    hide After, EncodedSize, Late, Data, Having, Execute, RightFates;
    ProposalBounds(p, o, xs, ticks, pool);
    FatesAreRight(p, o, xs, ticks, pool, |pool|);
    FatesPartition(pool, Finished(p, Begin(o, xs, ticks), pool).fates);
  }

  /** Any labelling splits what it labels. */
  lemma {:induction false} FatesPartition(pool: seq<PoolTx>, fates: seq<Fate>)
    requires |fates| <= |pool|
    ensures multiset(Having(pool, fates, Pushed)) + multiset(Having(pool, fates, Overflowed)) +
            multiset(Having(pool, fates, Exhausted)) + multiset(Having(pool, fates, Invalid)) ==
            multiset(pool[..|fates|])
  {
    hide Having;
    if fates == [] {
      forall f: Fate ensures Having(pool, fates, f) == [] { NoFates(pool, f); }
    } else {
      var n := |fates| - 1;
      FatesPartition(pool, fates[..n]);
      HavingSnoc(pool, fates, Pushed);
      HavingSnoc(pool, fates, Overflowed);
      HavingSnoc(pool, fates, Exhausted);
      HavingSnoc(pool, fates, Invalid);
      assert pool[..n + 1] == pool[..n] + [pool[n]];
    }
  }

  lemma NoFates(pool: seq<PoolTx>, f: Fate)
    ensures Having(pool, [], f) == []
  {
  }

  lemma HavingSnoc(pool: seq<PoolTx>, fates: seq<Fate>, f: Fate)
    requires 0 < |fates| <= |pool|
    ensures var n := |fates| - 1;
            multiset(Having(pool, fates, f)) ==
              multiset(Having(pool, fates[..n], f)) + if f == fates[n] then multiset{pool[n]} else multiset{}
  {
  }

  // ---- the proposer's loop ----

  /** The given percentage of the way from now to the deadline. */
  function SoftDeadline(now: nat, deadline: nat, percent: nat): (r: nat)
    requires percent <= 100
    ensures now <= r && (now <= deadline ==> r <= deadline)
    ensures (r - now) * 100 <= Max(deadline - now, 0) * percent < (r - now + 1) * 100
  {
    var left := if deadline > now then deadline - now else 0;
    assert left * percent <= left * 100;
    Hundredth(left * percent);
    now + left * percent / 100
  }

  lemma Hundredth(x: nat)
    ensures x / 100 * 100 <= x < (x / 100 + 1) * 100
  {
  }

  function Hashes(txs: seq<PoolTx>): (r: seq<nat>)
    ensures |r| == |txs| && forall i :: 0 <= i < |txs| ==> r[i] == txs[i].hash
  {
    if txs == [] then [] else Hashes(txs[..|txs| - 1]) + [txs[|txs| - 1].hash]
  }

  /** One round: examines the transaction and pushes it if it fits. */
  method Round<O>(builder: BlockBuilder<O>, ghost p: Params<O>, limit: nat, includeProof: bool, deadline: nat,
                  softDeadline: nat, clock: nat -> nat, pendingTx: PoolTx, ghost s: Loop<O>, skipped0: nat, ticks0: nat)
    returns (skipped: nat, ticks: nat, fate: Option<Fate>, end: Option<EndReason>, ghost next: Loop<O>)
    requires p == Params(builder.runtime, builder.estimatedHeaderSize, limit, includeProof, deadline, softDeadline,
                         clock)
    requires builder.extrinsics == s.extrinsics && builder.overlay == s.overlay
    requires skipped0 == s.skipped && ticks0 == s.ticks && s.end.None?
    modifies builder
    ensures next == Examine(p, s, pendingTx)
    ensures builder.extrinsics == next.extrinsics && builder.overlay == next.overlay
    ensures skipped == next.skipped && ticks == next.ticks && end == next.end
    ensures next.fates == s.fates + match fate case None => [] case Some(f) => [f]
  {
    next := Examine(p, s, pendingTx);
    var now := clock(ticks0);
    skipped, ticks, fate, end := skipped0, ticks0 + 1, None, None;
    if now > deadline {
      end := Some(HitDeadline);
      return;
    }
    var blockSize := builder.EstimateBlockSize(includeProof);
    if blockSize + |pendingTx.data| > limit {
      fate := Some(Overflowed);
      if skipped < MAX_SKIPPED_TRANSACTIONS {
        skipped := skipped + 1;
      } else if now >= softDeadline {
        end := Some(HitBlockSizeLimit);
      }
      return;
    }
    var res := builder.Push(pendingTx.data);
    match res
    case Applied => fate := Some(Pushed);
    case ExhaustedResources =>
      fate := Some(Exhausted);
      if skipped < MAX_SKIPPED_TRANSACTIONS {
        skipped := skipped + 1;
      } else {
        var again := clock(ticks);
        ticks := ticks + 1;
        if again >= softDeadline {
          end := Some(HitBlockWeightLimit);
        }
      }
    case _ => fate := Some(Invalid);
  }

  /** The loop of `apply_extrinsics`. It reads the clock twice before the first round: for the
      soft deadline and for the time the pool may take to answer. Returns why it ended and the
      hashes that are removed from the pool. */
  method ApplyExtrinsics<O>(builder: BlockBuilder<O>, limit: nat, includeProof: bool, deadline: nat, percent: nat,
                            clock: nat -> nat, pool: seq<PoolTx>)
    returns (reason: EndReason, unqueueInvalid: seq<nat>, ghost s: Loop<O>)
    requires percent <= 100
    modifies builder
    ensures var p := Params(builder.runtime, builder.estimatedHeaderSize, limit, includeProof, deadline,
                            SoftDeadline(clock(0), deadline, percent), clock);
            && s == Finished(p, Begin(old(builder.overlay), old(builder.extrinsics), 2), pool)
            && |s.fates| <= |pool|
            && Some(reason) == s.end
            && builder.extrinsics == s.extrinsics && builder.overlay == s.overlay
            && unqueueInvalid == Hashes(Having(pool, s.fates, Invalid))
  {
    hide Examine, Having, Hashes, SoftDeadline;
    var softDeadline := SoftDeadline(clock(0), deadline, percent);
    ghost var p := Params(builder.runtime, builder.estimatedHeaderSize, limit, includeProof, deadline, softDeadline,
                          clock);
    ghost var s0 := Begin(builder.overlay, builder.extrinsics, 2);
    s := s0;
    var ticks, skipped := 2, 0;
    unqueueInvalid := [];
    NoneInvalid(pool);
    var i := 0;
    while i < |pool|
      invariant 0 <= i <= |pool| && |s.fates| == |s.tops| == i
      invariant s == After(p, s0, pool, i) && s.end.None?
      invariant builder.extrinsics == s.extrinsics && builder.overlay == s.overlay
      invariant skipped == s.skipped && ticks == s.ticks
      invariant unqueueInvalid == Hashes(Having(pool, s.fates, Invalid))
    {
      ghost var next;
      var fate, end;
      ExamineRecords(p, s, pool[i]);
      skipped, ticks, fate, end, next := Round(builder, p, limit, includeProof, deadline, softDeadline, clock,
                                               pool[i], s, skipped, ticks);
      if fate.Some? {
        FateNoted(s, next, pool);
        if fate == Some(Invalid) {
          unqueueInvalid := unqueueInvalid + [pool[i].hash];
        }
      }
      s := next;
      i := i + 1;
      EndsAt(p, s0, pool, i);
      if end.Some? {
        return end.value, unqueueInvalid, s;
      }
    }
    s := s.(end := Some(NoMoreTransactions));
    return NoMoreTransactions, unqueueInvalid, s;
  }

  lemma NoneInvalid(pool: seq<PoolTx>)
    ensures Having(pool, [], Invalid) == [] && Hashes([]) == []
  {
  }

  /** Once ended, the loop stays ended. */
  lemma {:induction false} EndsAt<O>(p: Params<O>, s: Loop<O>, pool: seq<PoolTx>, n: nat)
    requires n <= |pool|
    ensures After(p, s, pool, n).end.Some? ==> After(p, s, pool, |pool|) == After(p, s, pool, n)
    decreases |pool| - n
  {
    hide Examine;
    if n < |pool| {
      EndsAt(p, s, pool, n + 1);
    }
  }

  lemma FateNoted<O>(s: Loop<O>, next: Loop<O>, pool: seq<PoolTx>)
    requires |s.fates| < |pool| && |next.fates| == |s.fates| + 1 && next.fates[..|s.fates|] == s.fates
    ensures var n := |s.fates|;
            && Having(pool, next.fates, Invalid) ==
                 Having(pool, s.fates, Invalid) + (if next.fates[n] == Invalid then [pool[n]] else [])
            && Hashes(Having(pool, next.fates, Invalid)) ==
                 Hashes(Having(pool, s.fates, Invalid)) + (if next.fates[n] == Invalid then [pool[n].hash] else [])
  {
    var h := Having(pool, s.fates, Invalid);
    assert (h + [pool[|s.fates|]])[..|h|] == h;
    assert h + [] == h;
  }
}
