/** Every run of several dispatchers over one outbox, and when an entry can be in flight at two of them. */
module DispatchRuns {
  import opened Wrappers
  import opened Arithmetic
  import opened Model
  import opened Dispatching
  import opened Outboxes

  /** An entry claimed by a dispatcher and not yet settled, and when its attempt is over. */
  datatype Held = Held(dispatcher: nat, id: int, until: int)

  datatype State = State(now: Timestamp, rows: Rows, last: int, held: set<Held>)

  datatype Outcome = Delivered | Failed(retryAt: Option<Timestamp>) | Unrecorded

  /** `lengths` are how long the attempts of a claimed batch turn out to take. */
  datatype Step =
    | Wait(to: Timestamp)
    | Push
    | Revive
    | Claim(dispatcher: nat, ids: seq<int>, lengths: seq<nat>)
    | Settle(entry: Held, outcome: Outcome)

  function Taken(c: DispatchConfig, dispatcher: nat, ids: seq<int>, lengths: seq<nat>, now: int): set<Held>
    requires |lengths| == |ids|
  {
    set k | 0 <= k < |ids| :: Held(dispatcher, ids[k], now + FinishOf(lengths, c.Slots(), k))
  }

  /** Time does not pass the end of an attempt that is not settled: recording takes no time. */
  ghost predicate Enabled(c: DispatchConfig, s: State, step: Step) {
    match step
    case Wait(to) => s.now < to && forall h :: h in s.held ==> to <= h.until
    case Push => true
    case Revive => true
    case Claim(_, ids, lengths) =>
      Claims(s.rows, s.now, c.batch, ids) && |lengths| == |ids| && Bounded(lengths, c.attemptTimeout)
    case Settle(h, _) => h in s.held && h.until == s.now
  }

  function Settled(rows: Rows, id: int, outcome: Outcome): Rows {
    match outcome
    case Delivered => rows - {id}
    case Failed(retryAt) => if id in rows then rows[id := Retried(rows[id], retryAt)] else rows
    case Unrecorded => rows
  }

  /** Records what became of one entry, unless the record itself is lost. */
  method Attempt(outbox: MemoryOutbox, id: int, outcome: Outcome)
    requires outbox.Valid()
    modifies outbox
    ensures outbox.Valid() && outbox.rows == Settled(old(outbox.rows), id, outcome) && outbox.last == old(outbox.last)
  {
    match outcome
    case Delivered => outbox.Complete(id);
    case Failed(retryAt) => var abandoned := outbox.RecordFailure(id, retryAt);
    case Unrecorded =>
  }

  ghost function Next(c: DispatchConfig, s: State, step: Step): State
    requires Enabled(c, s, step)
  {
    match step
    case Wait(to) => s.(now := to)
    case Push => s.(rows := s.rows[s.last + 1 := Row(0, Some(s.now), None)], last := s.last + 1)
    case Revive => s.(rows := Revived(s.rows, s.now))
    case Claim(d, ids, lengths) =>
      s.(rows := Leased(s.rows, ids, LeaseEnd(s.now, c.Lease())), held := s.held + Taken(c, d, ids, lengths, s.now))
    case Settle(h, outcome) => s.(rows := Settled(s.rows, h.id, outcome), held := s.held - {h})
  }

  /** Every batch claimed now is over before the lease the outbox records for it. */
  ghost predicate SafeToClaim(c: DispatchConfig, now: Timestamp) {
    Outlasts(c, LeaseEnd(now, c.Lease()) - now)
  }

  /** `states` follow one another by `steps`. */
  ghost predicate IsRun(c: DispatchConfig, states: seq<State>, steps: seq<Step>) {
    && |states| == |steps| + 1
    && forall i :: 0 <= i < |steps| ==> Enabled(c, states[i], steps[i]) && states[i + 1] == Next(c, states[i], steps[i])
  }

  ghost predicate ClaimsSafely(c: DispatchConfig, states: seq<State>, steps: seq<Step>)
    requires |states| == |steps| + 1
  {
    forall i :: 0 <= i < |steps| && steps[i].Claim? ==> SafeToClaim(c, states[i].now)
  }

  function Start(now: Timestamp): State {
    State(now, map[], 0, {})
  }

  ghost predicate HeldOnce(s: State) {
    forall a, b :: a in s.held && b in s.held && a.id == b.id ==> a == b
  }

  /** What every step keeps: a held entry is leased past the end of its attempt. */
  ghost predicate Inv(s: State) {
    && HeldOnce(s)
    && (forall id :: id in s.rows ==> id <= s.last)
    && (forall h :: h in s.held ==> LeasedPast(s, h))
  }

  ghost predicate LeasedPast(s: State, h: Held) {
    && s.now <= h.until && h.id in s.rows && s.rows[h.id].nextAttemptAt.Some?
    && s.rows[h.id].leaseUntil.Some? && h.until < s.rows[h.id].leaseUntil.value
  }

  lemma HeldIsNotDue(s: State, h: Held)
    requires Inv(s) && h in s.held
    ensures LeasedPast(s, h) && !Due(s.rows[h.id], s.now)
  {}

  lemma ClaimLeasesPast(c: DispatchConfig, s: State, step: Step, h: Held)
    requires Inv(s) && step.Claim? && Enabled(c, s, step) && SafeToClaim(c, s.now)
    requires h in Next(c, s, step).held
    ensures LeasedPast(Next(c, s, step), h)
  {
    if h in s.held {
      HeldIsNotDue(s, h);
    } else {
      var k :| 0 <= k < |step.ids|
        && h == Held(step.dispatcher, step.ids[k], s.now + FinishOf(step.lengths, c.Slots(), k));
      assert FinishOf(step.lengths, c.Slots(), k) < LeaseEnd(s.now, c.Lease()) - s.now;
    }
  }

  lemma ClaimKeepsInv(c: DispatchConfig, s: State, step: Step)
    requires Inv(s) && step.Claim? && Enabled(c, s, step) && SafeToClaim(c, s.now)
    ensures Inv(Next(c, s, step))
  {
    var t := Next(c, s, step);
    forall h | h in t.held ensures LeasedPast(t, h) {
      ClaimLeasesPast(c, s, step, h);
    }
    forall h | h in s.held ensures h.id !in step.ids {
      HeldIsNotDue(s, h);
    }
    assert HeldOnce(t);
  }

  lemma StepKeepsInv(c: DispatchConfig, s: State, step: Step)
    requires Inv(s) && Enabled(c, s, step) && (step.Claim? ==> SafeToClaim(c, s.now))
    ensures Inv(Next(c, s, step))
  {
    if step.Claim? {
      ClaimKeepsInv(c, s, step);
    } else {
      var t := Next(c, s, step);
      forall h | h in t.held ensures LeasedPast(t, h) {
        assert LeasedPast(s, h);
      }
    }
  }

  /** No entry is ever in flight at two dispatchers, in any run whose claims are safe. */
  lemma {:induction false} NeverHeldTwice(c: DispatchConfig, states: seq<State>, steps: seq<Step>, start: Timestamp)
    requires IsRun(c, states, steps) && states[0] == Start(start) && ClaimsSafely(c, states, steps)
    ensures forall s :: s in states ==> HeldOnce(s)
    ensures Inv(states[|steps|])
  {
    if steps == [] {
      assert states == [states[0]];
    } else {
      var n := |steps| - 1;
      assert IsRun(c, states[..|states| - 1], steps[..n]);
      NeverHeldTwice(c, states[..|states| - 1], steps[..n], start);
      StepKeepsInv(c, states[n], steps[n]);
      assert states == states[..|states| - 1] + [states[n + 1]];
    }
  }

  // ------------------------------------------------------------------------
  // When a claim is safe
  // ------------------------------------------------------------------------

  lemma SafeToClaimIff(c: DispatchConfig, now: Timestamp)
    ensures SafeToClaim(c, now) <==>
      c.batch == 0 || now + CeilDiv(c.batch, c.Slots()) * c.attemptTimeout < LeaseEnd(now, c.Lease())
  {
    OutlastsIff(c, LeaseEnd(now, c.Lease()) - now);
  }

  /** The slack of one attempt outweighs the truncation to whole seconds once an attempt may take one. */
  lemma WholeSecondTimeoutsAreSafe(c: DispatchConfig, now: Timestamp)
    requires c.attemptTimeout >= NANOS_PER_SECOND && CeilDiv(c.batch, c.Slots()) < U32_MAX
    requires now + c.attemptTimeout * (c.Waves() + 1) <= MAX_TIME
    ensures SafeToClaim(c, now)
  {
    SafeToClaimIff(c, now);
    var lease := c.attemptTimeout * (c.Waves() + 1);
    SlackCoversTruncation(c.Waves(), c.attemptTimeout);
    assert c.Lease() == lease;
    LeaseEndInRange(now, lease);
  }

  lemma LeaseEndInRange(now: Timestamp, lease: nat)
    requires now + lease <= MAX_TIME
    ensures LeaseEnd(now, lease) == now + lease / NANOS_PER_SECOND * NANOS_PER_SECOND
  {
    DivBracket(lease, NANOS_PER_SECOND);
  }

  lemma SlackCoversTruncation(waves: nat, timeout: nat)
    requires timeout >= NANOS_PER_SECOND
    ensures var lease := timeout * (waves + 1);
      waves * timeout < lease / NANOS_PER_SECOND * NANOS_PER_SECOND <= lease
  {
    assert timeout * (waves + 1) == waves * timeout + timeout;
    DivBracket(timeout * (waves + 1), NANOS_PER_SECOND);
  }

  /** A lease under a second is truncated to none: the smallest dispatcher with a short timeout. */
  lemma ShortTimeoutIsUnsafe(now: Timestamp)
    ensures !SafeToClaim(DispatchConfig(1, 1, 400_000_000), now)
  {
    var c := DispatchConfig(1, 1, 400_000_000);
    SafeToClaimIff(c, now);
    assert CeilDiv(1, 1) == 1 && c.Lease() == 800_000_000;
  }

  lemma JoinRuns(c: DispatchConfig, a: seq<State>, s: seq<Step>, b: seq<State>, t: seq<Step>)
    returns (states: seq<State>, steps: seq<Step>)
    requires IsRun(c, a, s) && IsRun(c, b, t) && a[|s|] == b[0]
    ensures IsRun(c, states, steps) && states[0] == a[0] && states[|steps|] == b[|t|]
  {
    states, steps := a + b[1..], s + t;
    forall i | 0 <= i < |steps|
      ensures Enabled(c, states[i], steps[i]) && states[i + 1] == Next(c, states[i], steps[i])
    {
      if i < |s| {
        assert steps[i] == s[i] && states[i] == a[i] && states[i + 1] == a[i + 1];
      } else {
        assert steps[i] == t[i - |s|] && states[i] == b[i - |s|] && states[i + 1] == b[i - |s| + 1];
      }
    }
  }

  lemma Extend(c: DispatchConfig, before: seq<State>, s: seq<Step>, step: Step)
    returns (states: seq<State>, steps: seq<Step>)
    requires IsRun(c, before, s) && Enabled(c, before[|s|], step)
    ensures IsRun(c, states, steps) && states[0] == before[0] && states[|steps|] == Next(c, before[|s|], step)
  {
    states, steps := JoinRuns(c, before, s, [before[|s|], Next(c, before[|s|], step)], [step]);
  }

  function Queued(n: nat, now: Timestamp): (rows: Rows)
    ensures forall id :: id in rows <==> 1 <= id <= n
    ensures forall id :: id in rows ==> rows[id] == Row(0, Some(now), None)
  {
    if n == 0 then map[] else Queued(n - 1, now)[n := Row(0, Some(now), None)]
  }

  lemma {:induction false} PushAll(c: DispatchConfig, n: nat, now: Timestamp)
      returns (states: seq<State>, steps: seq<Step>)
    ensures IsRun(c, states, steps) && states[0] == Start(now)
    ensures states[|steps|] == State(now, Queued(n, now), n, {})
  {
    if n == 0 {
      states, steps := [Start(now)], [];
    } else {
      states, steps := PushAll(c, n - 1, now);
      assert Next(c, states[|steps|], Push).rows == Queued(n, now);
      states, steps := Extend(c, states, steps, Push);
    }
  }

  lemma EarliestHeld(held: set<Held>) returns (h: Held)
    requires held != {}
    ensures h in held && forall g :: g in held ==> h.until <= g.until
  {
    h :| h in held;
    if held - {h} != {} {
      var g := EarliestHeld(held - {h});
      if g.until < h.until {
        h := g;
      }
    }
  }

  /** Time can always move on, each attempt ending unrecorded when it is over. */
  lemma {:induction false} LetPass(c: DispatchConfig, s: State, to: Timestamp)
      returns (states: seq<State>, steps: seq<Step>)
    requires s.now <= to && forall h :: h in s.held ==> s.now <= h.until
    ensures IsRun(c, states, steps) && states[0] == s
    ensures states[|steps|] == s.(now := to, held := set h | h in s.held && to <= h.until)
    decreases |s.held|, to - s.now
  {
    var first: Held;
    if s.held != {} {
      first := EarliestHeld(s.held);
    }
    var over := s.held != {} && first.until < to;
    var next := if over then first.until else to;
    states, steps := [s], [];
    if s.now < next {
      states, steps := Extend(c, states, steps, Wait(next));
    }
    if over {
      states, steps := Extend(c, states, steps, Settle(first, Unrecorded));
      var more, moreSteps := LetPass(c, states[|steps|], to);
      states, steps := JoinRuns(c, states, steps, more, moreSteps);
    }
    assert (set h | h in s.held && to <= h.until) == states[|steps|].held;
  }

  function FirstIds(n: nat): (ids: seq<int>)
    ensures |ids| == n && forall i :: 0 <= i < n ==> ids[i] == i + 1
  {
    seq(n, i => i + 1)
  }

  lemma AllClaimed(rows: Rows, n: nat, now: Timestamp)
    requires forall id :: id in rows <==> 1 <= id <= n
    requires forall id :: id in rows ==> Due(rows[id], now)
    ensures Claims(rows, now, n, FirstIds(n))
  {
    forall id | id in rows ensures id in FirstIds(n) {
      assert FirstIds(n)[id - 1] == id;
    }
  }

  lemma TakenHolds(c: DispatchConfig, dispatcher: nat, ids: seq<int>, lengths: seq<nat>, now: int) returns (last: Held)
    requires |ids| == |lengths| > 0
    ensures last in Taken(c, dispatcher, ids, lengths, now)
    ensures last.dispatcher == dispatcher && last.id == ids[|ids| - 1]
    ensures last.until == now + FinishOf(lengths, c.Slots(), |lengths| - 1)
    ensures forall h :: h in Taken(c, dispatcher, ids, lengths, now) ==> now <= h.until
  {
    var k := |ids| - 1;
    last := Held(dispatcher, ids[k], now + FinishOf(lengths, c.Slots(), k));
  }

  /** A dispatcher may claim a whole batch that is due, and then holds the last of it. */
  lemma ClaimAll(c: DispatchConfig, s: State, dispatcher: nat, length: nat) returns (step: Step, last: Held)
    requires c.batch > 0 && length <= c.attemptTimeout
    requires forall id :: id in s.rows <==> 1 <= id <= c.batch
    requires forall id :: id in s.rows ==> Due(s.rows[id], s.now)
    ensures step.Claim? && Enabled(c, s, step)
    ensures Next(c, s, step).rows == Leased(s.rows, FirstIds(c.batch), LeaseEnd(s.now, c.Lease()))
    ensures Next(c, s, step).now == s.now && s.held <= Next(c, s, step).held
    ensures forall h :: h in Next(c, s, step).held ==> h in s.held || s.now <= h.until
    ensures last in Next(c, s, step).held && last.dispatcher == dispatcher && last.id == c.batch
    ensures last.until == s.now + FinishOf(AllAt(c.batch, length), c.Slots(), c.batch - 1)
  {
    AllClaimed(s.rows, c.batch, s.now);
    step := Claim(dispatcher, FirstIds(c.batch), AllAt(c.batch, length));
    last := TakenHolds(c, dispatcher, step.ids, step.lengths, s.now);
  }

  lemma LastOutlasts(c: DispatchConfig, now: Timestamp)
    requires !SafeToClaim(c, now)
    ensures c.batch > 0
    ensures now + FinishOf(AllAt(c.batch, c.attemptTimeout), c.Slots(), c.batch - 1) >= LeaseEnd(now, c.Lease())
  {
    SafeToClaimIff(c, now);
    WorstCaseIsReached(c.batch, c.Slots(), c.attemptTimeout);
  }

  /** The batch is claimed, and the last of it is not settled before its lease ends. */
  lemma ClaimedPastLease(c: DispatchConfig, now: Timestamp) returns (states: seq<State>, steps: seq<Step>, last: Held)
    requires !SafeToClaim(c, now)
    ensures IsRun(c, states, steps) && states[0] == Start(now)
    ensures var s := states[|steps|];
      && s.rows == Leased(Queued(c.batch, now), FirstIds(c.batch), LeaseEnd(now, c.Lease()))
      && s.now == now && forall h :: h in s.held ==> now <= h.until
    ensures last in states[|steps|].held && last.dispatcher == 0 && last.id == c.batch
      && last.until >= LeaseEnd(now, c.Lease())
  {
    LastOutlasts(c, now);
    states, steps := PushAll(c, c.batch, now);
    var claim;
    claim, last := ClaimAll(c, states[|steps|], 0, c.attemptTimeout);
    states, steps := Extend(c, states, steps, claim);
  }

  lemma HeldPastLease(c: DispatchConfig, now: Timestamp) returns (states: seq<State>, steps: seq<Step>, last: Held)
    requires !SafeToClaim(c, now)
    ensures IsRun(c, states, steps) && states[0] == Start(now)
    ensures var s := states[|steps|];
      && s.rows == Leased(Queued(c.batch, now), FirstIds(c.batch), LeaseEnd(now, c.Lease()))
      && s.now >= now && s.now >= LeaseEnd(now, c.Lease())
    ensures last in states[|steps|].held && last.dispatcher == 0 && last.id == c.batch
  {
    var end := LeaseEnd(now, c.Lease());
    states, steps, last := ClaimedPastLease(c, now);
    var to: Timestamp := if end < now then now else end;
    var more, moreSteps := LetPass(c, states[|steps|], to);
    states, steps := JoinRuns(c, states, steps, more, moreSteps);
  }

  /** Without that, two dispatchers do come to hold the same entry. */
  lemma UnsafeClaimIsHeldTwice(c: DispatchConfig, now: Timestamp) returns (states: seq<State>, steps: seq<Step>)
    requires !SafeToClaim(c, now)
    ensures IsRun(c, states, steps) && states[0] == Start(now) && !HeldOnce(states[|steps|])
  {
    SafeToClaimIff(c, now);
    var first: Held;
    states, steps, first := HeldPastLease(c, now);
    var claim, second := ClaimAll(c, states[|steps|], 1, 0);
    states, steps := Extend(c, states, steps, claim);
    assert first in states[|steps|].held && second in states[|steps|].held;
  }
}
