/** How long a batch of deliveries takes under bounded concurrency, and the lease that must outlast it. */
module Dispatching {
  import opened Arithmetic
  import opened Model

  /** The longest `core::time::Duration`. */
  const DURATION_MAX: int := U64_MAX * NANOS_PER_SECOND + 999_999_999

  /** Durations are nanoseconds. */
  datatype DispatchConfig = DispatchConfig(batch: nat, concurrency: nat, attemptTimeout: nat) {
    /** How many deliveries may be in flight. */
    function Slots(): (n: nat)
      ensures n >= 1
    {
      Max(concurrency, 1)
    }

    /** Rounds of concurrent attempts a batch takes, as a saturated u32. */
    function Waves(): nat {
      Min(CeilDiv(batch, Slots()), U32_MAX)
    }

    /** The attempt timeout times one more than the waves, both saturating. */
    function Lease(): nat {
      Min(attemptTimeout * Min(Waves() + 1, U32_MAX), DURATION_MAX)
    }
  }

  // ------------------------------------------------------------------------
  // Bounded-concurrency execution
  // ------------------------------------------------------------------------

  /** The slot that is free first. */
  function FirstFree(busy: seq<nat>): (k: nat)
    requires busy != []
    ensures k < |busy| && forall i :: 0 <= i < |busy| ==> busy[k] <= busy[i]
  {
    if |busy| == 1 then 0
    else
      var k := FirstFree(busy[..|busy| - 1]);
      if busy[|busy| - 1] < busy[k] then |busy| - 1 else k
  }

  /** The next delivery goes to the slot that is free first, the moment it is free. */
  function HandOut(busy: seq<nat>, length: nat): (after: seq<nat>)
    requires busy != []
    ensures |after| == |busy|
  {
    var k := FirstFree(busy);
    busy[k := busy[k] + length]
  }

  /** Until when each slot is busy once every delivery has been handed out, in order. */
  function BusyUntil(lengths: seq<nat>, slots: nat): (busy: seq<nat>)
    requires slots >= 1
    ensures |busy| == slots
  {
    if lengths == [] then seq(slots, _ => 0)
    else HandOut(BusyUntil(lengths[..|lengths| - 1], slots), lengths[|lengths| - 1])
  }

  function StartOf(lengths: seq<nat>, slots: nat, j: nat): nat
    requires slots >= 1 && j < |lengths|
  {
    var busy := BusyUntil(lengths[..j], slots);
    busy[FirstFree(busy)]
  }

  function FinishOf(lengths: seq<nat>, slots: nat, j: nat): nat
    requires slots >= 1 && j < |lengths|
  {
    StartOf(lengths, slots, j) + lengths[j]
  }

  /** Runs a batch: `for_each_concurrent`, with the lengths the attempts turn out to have. */
  method ForEachConcurrent(lengths: seq<nat>, slots: nat) returns (finishes: seq<nat>)
    requires slots >= 1
    ensures |finishes| == |lengths|
    ensures forall j :: 0 <= j < |lengths| ==> finishes[j] == FinishOf(lengths, slots, j)
  {
    var busy := seq(slots, _ => 0);
    finishes := [];
    for j := 0 to |lengths|
      invariant busy == BusyUntil(lengths[..j], slots)
      invariant |finishes| == j
      invariant forall i :: 0 <= i < j ==> finishes[i] == FinishOf(lengths, slots, i)
    {
      var k := FirstFree(busy);
      assert lengths[..j + 1][..j] == lengths[..j];
      busy := busy[k := busy[k] + lengths[j]];
      finishes := finishes + [busy[k]];
    }
  }

  // ------------------------------------------------------------------------
  // The bound
  // ------------------------------------------------------------------------

  /** How many slots are busy past `limit`. */
  function Later(busy: seq<nat>, limit: int): (n: nat)
    ensures n <= |busy|
  {
    if busy == [] then 0
    else Later(busy[..|busy| - 1], limit) + if busy[|busy| - 1] > limit then 1 else 0
  }

  lemma {:induction false} LaterUpdate(busy: seq<nat>, k: nat, until: nat, limit: int)
    requires k < |busy|
    ensures Later(busy[k := until], limit) ==
      Later(busy, limit) - (if busy[k] > limit then 1 else 0) + (if until > limit then 1 else 0)
  {
    var n := |busy| - 1;
    if k < n {
      LaterUpdate(busy[..n], k, until, limit);
      assert busy[k := until][..n] == busy[..n][k := until];
    } else {
      assert busy[k := until][..n] == busy[..n];
    }
  }

  lemma {:induction false} AllLater(busy: seq<nat>, limit: int)
    requires forall i :: 0 <= i < |busy| ==> busy[i] > limit
    ensures Later(busy, limit) == |busy|
  {
    if busy != [] {
      AllLater(busy[..|busy| - 1], limit);
    }
  }

  lemma {:induction false} SomeLater(busy: seq<nat>, i: nat, limit: int)
    requires i < |busy| && busy[i] > limit
    ensures Later(busy, limit) > 0
  {
    if i < |busy| - 1 {
      SomeLater(busy[..|busy| - 1], i, limit);
    }
  }

  ghost predicate Bounded(lengths: seq<nat>, timeout: nat) {
    forall j :: 0 <= j < |lengths| ==> lengths[j] <= timeout
  }

  /** Multiplication as repeated addition. */
  function Times(m: nat, n: nat): nat {
    if m == 0 then 0 else Times(m - 1, n) + n
  }

  lemma {:induction false} TimesMultiplies(m: nat, n: nat)
    ensures Times(m, n) == m * n
  {
    if m > 0 {
      TimesMultiplies(m - 1, n);
      assert (m - 1) * n == m * n - n;
    }
  }

  /** Only deliveries after the first `m` rounds of as many as there are slots keep one busy past `m` timeouts. */
  ghost predicate WithinRounds(busy: seq<nat>, handed: nat, timeout: nat, m: nat) {
    Later(busy, Times(m, timeout)) <= Max(0, handed - Times(m, |busy|))
  }

  /** One more delivery: past `m` timeouts only when every slot was busy past one timeout less. */
  lemma RoundStep(before: seq<nat>, length: nat, handed: nat, timeout: nat, m: nat)
    requires before != [] && length <= timeout
    requires WithinRounds(before, handed, timeout, m) && (m > 0 ==> WithinRounds(before, handed, timeout, m - 1))
    ensures WithinRounds(HandOut(before, length), handed + 1, timeout, m)
  {
    var k := FirstFree(before);
    var limit := Times(m, timeout);
    LaterUpdate(before, k, before[k] + length, limit);
    if before[k] + length > limit && m > 0 {
      AllLater(before, Times(m - 1, timeout));
    }
  }

  lemma {:induction false} RoundsBound(lengths: seq<nat>, slots: nat, timeout: nat, m: nat)
    requires slots >= 1 && Bounded(lengths, timeout)
    ensures WithinRounds(BusyUntil(lengths, slots), |lengths|, timeout, m)
    decreases |lengths|
  {
    if lengths == [] {
      NoneLater(slots, Times(m, timeout));
    } else {
      var j := |lengths| - 1;
      var before := BusyUntil(lengths[..j], slots);
      RoundsBound(lengths[..j], slots, timeout, m);
      if m > 0 {
        RoundsBound(lengths[..j], slots, timeout, m - 1);
      }
      RoundStep(before, lengths[j], j, timeout, m);
      assert BusyUntil(lengths, slots) == HandOut(before, lengths[j]);
    }
  }

  lemma {:induction false} NoneLater(slots: nat, limit: nat)
    ensures Later(seq(slots, _ => 0), limit) == 0
  {
    if slots > 0 {
      NoneLater(slots - 1, limit);
      assert seq(slots, _ => 0)[..slots - 1] == seq(slots - 1, _ => 0);
    }
  }

  lemma FinishIsBusy(lengths: seq<nat>, slots: nat, j: nat) returns (k: nat)
    requires slots >= 1 && j < |lengths|
    ensures k < slots && BusyUntil(lengths[..j + 1], slots)[k] == FinishOf(lengths, slots, j)
  {
    assert lengths[..j + 1][..j] == lengths[..j];
    k := FirstFree(BusyUntil(lengths[..j], slots));
  }

  /** Every delivery of a batch is over within its rounds of concurrent attempts. */
  lemma GreedyFinishesInRounds(lengths: seq<nat>, slots: nat, timeout: nat, j: nat)
    requires slots >= 1 && Bounded(lengths, timeout) && j < |lengths|
    ensures FinishOf(lengths, slots, j) <= CeilDiv(|lengths|, slots) * timeout
  {
    var m := CeilDiv(|lengths|, slots);
    RoundsBound(lengths[..j + 1], slots, timeout, m);
    CeilDivIsLeast(|lengths|, slots, m);
    TimesMultiplies(m, timeout);
    TimesMultiplies(m, slots);
    var k := FinishIsBusy(lengths, slots, j);
    if FinishOf(lengths, slots, j) > Times(m, timeout) {
      SomeLater(BusyUntil(lengths[..j + 1], slots), k, Times(m, timeout));
    }
  }

  // ------------------------------------------------------------------------
  // What is in flight
  // ------------------------------------------------------------------------

  /** How many of the deliveries are in flight at `t`. */
  function InFlight(lengths: seq<nat>, slots: nat, t: nat): nat
    requires slots >= 1
  {
    if lengths == [] then 0
    else
      var j := |lengths| - 1;
      InFlight(lengths[..j], slots, t) + if StartOf(lengths, slots, j) <= t < FinishOf(lengths, slots, j) then 1 else 0
  }

  lemma HandOutLater(busy: seq<nat>, length: nat, t: nat)
    requires busy != []
    ensures var start := busy[FirstFree(busy)];
      Later(HandOut(busy, length), t) == Later(busy, t) + if start <= t < start + length then 1 else 0
  {
    LaterUpdate(busy, FirstFree(busy), busy[FirstFree(busy)] + length, t);
  }

  lemma {:induction false} InFlightIsBusy(lengths: seq<nat>, slots: nat, t: nat)
    requires slots >= 1
    ensures InFlight(lengths, slots, t) == Later(BusyUntil(lengths, slots), t)
  {
    if lengths == [] {
      NoneLater(slots, t);
    } else {
      var j := |lengths| - 1;
      var before := BusyUntil(lengths[..j], slots);
      InFlightIsBusy(lengths[..j], slots, t);
      HandOutLater(before, lengths[j], t);
      assert BusyUntil(lengths, slots) == HandOut(before, lengths[j]);
    }
  }

  /** Never more in flight than there are slots, and never fewer while a delivery is waiting to start. */
  lemma ConcurrencyIsExact(lengths: seq<nat>, slots: nat, t: nat)
    requires slots >= 1
    ensures InFlight(lengths, slots, t) <= slots
    ensures forall j :: 0 <= j < |lengths| && t < StartOf(lengths, slots, j) ==>
      InFlight(lengths[..j], slots, t) == slots
  {
    InFlightIsBusy(lengths, slots, t);
    forall j | 0 <= j < |lengths| && t < StartOf(lengths, slots, j)
      ensures InFlight(lengths[..j], slots, t) == slots
    {
      InFlightIsBusy(lengths[..j], slots, t);
      AllLater(BusyUntil(lengths[..j], slots), t);
    }
  }

  // ------------------------------------------------------------------------
  // The worst case
  // ------------------------------------------------------------------------

  function AllAt(n: nat, timeout: nat): (lengths: seq<nat>)
    ensures |lengths| == n && forall j :: 0 <= j < n ==> lengths[j] == timeout
  {
    seq(n, _ => timeout)
  }

  lemma {:induction false} LaterMeans(busy: seq<nat>, limit: int)
    ensures Later(busy, limit) == |busy| ==> forall i :: 0 <= i < |busy| ==> busy[i] > limit
    ensures (forall i :: 0 <= i < |busy| ==> busy[i] <= limit) ==> Later(busy, limit) == 0
  {
    if busy != [] {
      LaterMeans(busy[..|busy| - 1], limit);
    }
  }

  /** `r` slots are one round ahead of the others, which have done `q`. */
  ghost predicate Level(busy: seq<nat>, q: nat, r: nat, timeout: nat) {
    && (forall i :: 0 <= i < |busy| ==> busy[i] == Times(q, timeout) || busy[i] == Times(q + 1, timeout))
    && Later(busy, Times(q, timeout)) == r
  }

  lemma LevelLeast(busy: seq<nat>, q: nat, r: nat, timeout: nat)
    requires r < |busy| && Level(busy, q, r, timeout)
    ensures busy[FirstFree(busy)] == Times(q, timeout)
  {
    if busy[FirstFree(busy)] > Times(q, timeout) {
      AllLater(busy, Times(q, timeout));
    }
  }

  lemma LevelStep(busy: seq<nat>, q: nat, r: nat, timeout: nat)
    requires timeout > 0 && r < |busy| && Level(busy, q, r, timeout)
    ensures Level(HandOut(busy, timeout), q, r + 1, timeout)
  {
    LevelLeast(busy, q, r, timeout);
    var k := FirstFree(busy);
    LaterUpdate(busy, k, busy[k] + timeout, Times(q, timeout));
  }

  lemma LevelUp(busy: seq<nat>, q: nat, timeout: nat)
    requires Level(busy, q, |busy|, timeout)
    ensures Level(busy, q + 1, 0, timeout)
  {
    LaterMeans(busy, Times(q, timeout));
    LaterMeans(busy, Times(q + 1, timeout));
  }

  lemma {:induction false} AllAtLevel(n: nat, slots: nat, timeout: nat) returns (q: nat, r: nat)
    requires slots >= 1 && timeout > 0
    ensures r < slots && n == Times(q, slots) + r
    ensures Level(BusyUntil(AllAt(n, timeout), slots), q, r, timeout)
  {
    if n == 0 {
      NoneLater(slots, 0);
      q, r := 0, 0;
    } else {
      assert AllAt(n, timeout)[..n - 1] == AllAt(n - 1, timeout);
      q, r := AllAtLevel(n - 1, slots, timeout);
      LevelStep(BusyUntil(AllAt(n - 1, timeout), slots), q, r, timeout);
      r := r + 1;
      if r == slots {
        LevelUp(BusyUntil(AllAt(n, timeout), slots), q, timeout);
        q, r := q + 1, 0;
      }
    }
  }

  lemma RoundOf(n: nat, slots: nat, q: nat, r: nat)
    requires slots >= 1 && r < slots && n == Times(q, slots) + r
    ensures CeilDiv(n + 1, slots) == q + 1
  {
    TimesMultiplies(q, slots);
    TimesMultiplies(q + 1, slots);
    CeilDivIsLeast(n + 1, slots, q);
    CeilDivIsLeast(n + 1, slots, q + 1);
  }

  /** When every attempt runs into its timeout, the last one takes all the rounds. */
  lemma WorstCaseIsReached(n: nat, slots: nat, timeout: nat)
    requires slots >= 1 && n >= 1
    ensures FinishOf(AllAt(n, timeout), slots, n - 1) == CeilDiv(n, slots) * timeout
  {
    var all := AllAt(n, timeout);
    if timeout == 0 {
      GreedyFinishesInRounds(all, slots, timeout, n - 1);
    } else {
      assert all[..n - 1] == AllAt(n - 1, timeout);
      var q, r := AllAtLevel(n - 1, slots, timeout);
      LevelLeast(BusyUntil(AllAt(n - 1, timeout), slots), q, r, timeout);
      RoundOf(n - 1, slots, q, r);
      TimesMultiplies(q + 1, timeout);
    }
  }

  // ------------------------------------------------------------------------
  // The lease
  // ------------------------------------------------------------------------

  /** However long the attempts of a batch turn out to take, all of them are over before `end`. */
  ghost predicate Outlasts(c: DispatchConfig, end: int) {
    forall lengths: seq<nat>, j: nat :: |lengths| <= c.batch && Bounded(lengths, c.attemptTimeout) && j < |lengths| ==>
      FinishOf(lengths, c.Slots(), j) < end
  }

  lemma OutlastsIff(c: DispatchConfig, end: int)
    ensures Outlasts(c, end) <==> c.batch == 0 || CeilDiv(c.batch, c.Slots()) * c.attemptTimeout < end
  {
    var worst := CeilDiv(c.batch, c.Slots()) * c.attemptTimeout;
    if c.batch > 0 {
      WorstCaseIsReached(c.batch, c.Slots(), c.attemptTimeout);
      assert Bounded(AllAt(c.batch, c.attemptTimeout), c.attemptTimeout);
    }
    if worst < end {
      forall lengths: seq<nat>, j: nat | |lengths| <= c.batch && Bounded(lengths, c.attemptTimeout) && j < |lengths|
        ensures FinishOf(lengths, c.Slots(), j) < end
      {
        GreedyFinishesInRounds(lengths, c.Slots(), c.attemptTimeout, j);
        CeilDivIsLeast(c.batch, c.Slots(), CeilDiv(c.batch, c.Slots()));
        CeilDivIsLeast(|lengths|, c.Slots(), CeilDiv(c.batch, c.Slots()));
        MulMonotone(CeilDiv(|lengths|, c.Slots()), CeilDiv(c.batch, c.Slots()), c.attemptTimeout);
      }
    }
  }

  /**
   The lease outlasts every schedule of a batch exactly when there is a timeout at all, the waves fit
   in a u32 with room for the wave of slack, and the worst case itself does not saturate.
   */
  lemma LeaseCoversEveryScheduleIff(c: DispatchConfig)
    ensures Outlasts(c, c.Lease()) <==>
      || c.batch == 0
      || (c.attemptTimeout > 0
          && CeilDiv(c.batch, c.Slots()) < U32_MAX
          && CeilDiv(c.batch, c.Slots()) * c.attemptTimeout < DURATION_MAX)
  {
    OutlastsIff(c, c.Lease());
    SlackWave(CeilDiv(c.batch, c.Slots()), c.attemptTimeout);
  }

  lemma SlackWave(waves: nat, timeout: nat)
    ensures var lease := Min(timeout * Min(Min(waves, U32_MAX) + 1, U32_MAX), DURATION_MAX);
      waves * timeout < lease <==> timeout > 0 && waves < U32_MAX && waves * timeout < DURATION_MAX
  {
    if waves < U32_MAX {
      assert timeout * (waves + 1) == waves * timeout + timeout;
    } else {
      MulMonotone(U32_MAX, waves, timeout);
    }
  }

  /** Short of saturation the lease is the timeout for every round a batch takes, and for one more. */
  lemma LeaseIs(c: DispatchConfig, rounds: nat)
    requires rounds > 0 ==> (rounds - 1) * Max(c.concurrency, 1) < c.batch
    requires c.batch <= rounds * Max(c.concurrency, 1)
    requires rounds + 1 <= 0xffff_ffff && c.attemptTimeout * (rounds + 1) <= DURATION_MAX
    ensures c.Lease() == c.attemptTimeout * (rounds + 1)
  {
    CeilDivIsLeast(c.batch, Max(c.concurrency, 1), rounds);
    if rounds > 0 {
      CeilDivIsLeast(c.batch, Max(c.concurrency, 1), rounds - 1);
    }
  }
}
