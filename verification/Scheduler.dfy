/** Admission of tasks against shared quota and a local ceiling, and dispatch with retries. */
module Scheduler {
  import opened Numbers
  import opened Options
  import opened Quota
  import opened Backoff

  datatype Task = Task(id: string, runtime: string, seatSeconds: Option<int>)

  datatype Status = Dispatch | Queued | WaitingOnQuota | WaitingOnConcurrency
  datatype Decision = Decision(status: Status, reason: Reason, vendor: string, estimate: int)
  datatype Scheduled = Scheduled(task: Task, vendor: string, estimate: int, reason: Reason)

  datatype Reason = Admitted | CeilingReached | QuotaExhausted | RateLimited(attempts: int)

  /** One request for admission: the task with its vendor and estimate, and what runs at that moment. */
  datatype Offer = Offer(task: Task, vendor: string, estimate: int, running: int, now: real)

  function VendorOf(task: Task, vendor: Option<string>): string {
    if vendor.Some? && vendor.value != "" then vendor.value else task.runtime
  }

  /** An estimate of zero counts as none, and the task's own budget is used. */
  function EstimateOf(task: Task, estimate: Option<int>): int {
    if estimate.Some? && estimate.value != 0 then estimate.value
    else if task.seatSeconds.Some? then task.seatSeconds.value
    else 0
  }

  predicate Fits(l: Snapshots, o: Offer, max: int) {
    o.running < max && HasRoom(l, o.vendor, o.estimate)
  }

  function ReasonOf(o: Offer, max: int): Reason {
    if o.running >= max then CeilingReached else QuotaExhausted
  }

  function Entry(o: Offer, max: int): Scheduled {
    Scheduled(o.task, o.vendor, o.estimate, ReasonOf(o, max))
  }

  // ---- the effect of a whole sequence of offers, d telling which of them are dispatched ------------------

  function LedgerAfter(l: Snapshots, offers: seq<Offer>, d: seq<bool>, n: nat): Snapshots
    requires n <= |offers| == |d|
  {
    if n == 0 then l else
      var m := LedgerAfter(l, offers, d, n - 1);
      if d[n - 1] then Reserved(m, offers[n - 1].vendor, offers[n - 1].estimate, offers[n - 1].now) else m
  }

  /** An offer is dispatched exactly when it fits the ledger it finds. */
  predicate Decided(l: Snapshots, offers: seq<Offer>, max: int, d: seq<bool>, i: nat)
    requires i < |offers| == |d|
  {
    d[i] == Fits(LedgerAfter(l, offers, d, i), offers[i], max)
  }

  ghost predicate AreDecisions(l: Snapshots, offers: seq<Offer>, max: int, d: seq<bool>) {
    |d| == |offers| && forall i :: 0 <= i < |d| ==> Decided(l, offers, max, d, i)
  }

  /** The decisions on the first n offers. */
  function Decisions(l: Snapshots, offers: seq<Offer>, max: int, n: nat): (d: seq<bool>)
    requires n <= |offers|
    ensures |d| == n
  {
    if n == 0 then [] else
      var d := Decisions(l, offers, max, n - 1);
      d + [Fits(LedgerAfter(l, offers[..n - 1], d, n - 1), offers[n - 1], max)]
  }

  lemma {:induction false} LedgerOfPrefix(l: Snapshots, a: seq<Offer>, d: seq<bool>, b: seq<Offer>, e: seq<bool>, n: nat)
    requires n <= |a| == |d| && n <= |b| == |e| && a[..n] == b[..n] && d[..n] == e[..n]
    ensures LedgerAfter(l, a, d, n) == LedgerAfter(l, b, e, n)
    decreases n
  {
    if n > 0 {
      assert a[..n - 1] == a[..n][..n - 1] && d[..n - 1] == d[..n][..n - 1];
      assert a[n - 1] == a[..n][n - 1] && d[n - 1] == d[..n][n - 1];
      LedgerOfPrefix(l, a, d, b, e, n - 1);
    }
  }

  lemma {:induction false} DecisionsAre(l: Snapshots, offers: seq<Offer>, max: int, n: nat)
    requires n <= |offers|
    ensures AreDecisions(l, offers[..n], max, Decisions(l, offers, max, n))
    decreases n
  {
    if n > 0 {
      DecisionsAre(l, offers, max, n - 1);
      var d, e := Decisions(l, offers, max, n), Decisions(l, offers, max, n - 1);
      forall i | 0 <= i < n ensures Decided(l, offers[..n], max, d, i) {
        LedgerOfPrefix(l, offers[..n], d, offers[..n - 1], e, i);
        assert i < n - 1 ==> Decided(l, offers[..n - 1], max, e, i);
      }
    }
  }

  /** The numbers of the first n offers that were dispatched, or that were not. */
  function Picked(d: seq<bool>, n: nat, dispatched: bool): seq<nat>
    requires n <= |d|
  {
    if n == 0 then [] else Picked(d, n - 1, dispatched) + if d[n - 1] == dispatched then [n - 1] else []
  }

  function QueueAfter(q: seq<Scheduled>, offers: seq<Offer>, max: int, d: seq<bool>, n: nat): seq<Scheduled>
    requires n <= |offers| == |d|
  {
    if n == 0 then q else QueueAfter(q, offers, max, d, n - 1) + if d[n - 1] then [] else [Entry(offers[n - 1], max)]
  }

  /** What the dispatched offers among the first n burn of a vendor's quota. */
  function BurnOf(offers: seq<Offer>, d: seq<bool>, n: nat, vendor: string): int
    requires n <= |offers| == |d|
  {
    if n == 0 then 0 else
      BurnOf(offers, d, n - 1, vendor) + if d[n - 1] && offers[n - 1].vendor == vendor then Burn(offers[n - 1].estimate) else 0
  }

  class QuotaAwareScheduler {
    const quota: QuotaLedger
    const maxConcurrent: int
    const backoff: Policy
    var running: int
    var queue: seq<Scheduled>
    var backoffLog: seq<real>

    /** The source raises ValueError when the ceiling is below one. */
    constructor (quota: QuotaLedger, maxConcurrent: int, backoff: Policy)
      requires maxConcurrent >= 1
      ensures this.quota == quota && this.maxConcurrent == maxConcurrent && this.backoff == backoff
      ensures running == 0 && queue == [] && backoffLog == []
    {
      this.quota, this.maxConcurrent, this.backoff := quota, maxConcurrent, backoff;
      running, queue, backoffLog := 0, [], [];
    }

    function OfferOf(task: Task, vendor: Option<string>, estimate: Option<int>, now: real): Offer
      reads this`running
    {
      Offer(task, VendorOf(task, vendor), EstimateOf(task, estimate), running, now)
    }

    method Admit(task: Task, vendor: Option<string>, estimate: Option<int>, now: real) returns (d: Decision)
      modifies this`queue, quota`snapshots, quota.store
      ensures var o := old(OfferOf(task, vendor, estimate, now));
              && d.vendor == o.vendor && d.estimate == o.estimate
              && if Fits(old(quota.snapshots), o, maxConcurrent) then
                   d.status == Dispatch && d.reason == Admitted && queue == old(queue)
                   && quota.snapshots == Reserved(old(quota.snapshots), o.vendor, o.estimate, now)
                 else
                   d.status == (if o.running >= maxConcurrent then WaitingOnConcurrency else WaitingOnQuota)
                   && d.reason == ReasonOf(o, maxConcurrent)
                   && queue == old(queue) + [Entry(o, maxConcurrent)] && quota.snapshots == old(quota.snapshots)
      ensures d.vendor == if vendor.Some? && vendor.value != "" then vendor.value else task.runtime
      ensures d.estimate == if estimate.Some? && estimate.value != 0 then estimate.value
                            else if task.seatSeconds.Some? then task.seatSeconds.value else 0
      ensures d.status == Dispatch <==> running < maxConcurrent && HasRoom(old(quota.snapshots), d.vendor, d.estimate)
      ensures d.status == WaitingOnConcurrency <==> running >= maxConcurrent
      ensures d.status in {Dispatch, WaitingOnConcurrency, WaitingOnQuota}
      ensures d.status != Dispatch ==>
                && queue == old(queue) + [Scheduled(task, d.vendor, d.estimate, d.reason)]
                && d.reason == (if running >= maxConcurrent then CeilingReached else QuotaExhausted)
      ensures old(quota.Durable()) ==> quota.Durable()
    {
      var taskVendor := VendorOf(task, vendor);
      var burn := EstimateOf(task, estimate);
      if running >= maxConcurrent {
        d := Enqueue(task, taskVendor, burn, WaitingOnConcurrency, CeilingReached);
        return;
      }
      var room := quota.HasHeadroom(taskVendor, burn);
      if !room {
        d := Enqueue(task, taskVendor, burn, WaitingOnQuota, QuotaExhausted);
        return;
      }
      quota.Reserve(taskVendor, burn, now);
      return Decision(Dispatch, Admitted, taskVendor, burn);
    }

    method Enqueue(task: Task, vendor: string, estimate: int, status: Status, reason: Reason) returns (d: Decision)
      modifies this`queue
      ensures queue == old(queue) + [Scheduled(task, vendor, estimate, reason)]
      ensures d == Decision(status, reason, vendor, estimate)
    {
      queue := queue + [Scheduled(task, vendor, estimate, reason)];
      return Decision(status, reason, vendor, estimate);
    }

    method DispatchWithBackoff(task: Task, attempts: int, dispatch: nat -> Attempt, random: nat -> real)
      returns (r: Dispatched)
      modifies this
      ensures running == old(running)
      ensures attempts < 1 ==> r == BadAttempts && queue == old(queue) && backoffLog == old(backoffLog)
      ensures attempts >= 1 ==>
                var k := FirstSettled(dispatch, 1, attempts);
                && r == (if k <= attempts then Settled(dispatch(k), k) else GaveUp)
                && queue == (if k <= attempts then old(queue)
                             else old(queue) + [Scheduled(task, task.runtime, EstimateOf(task, None), RateLimited(attempts))])
                && backoffLog == old(backoffLog) + Delays(backoff, random, Min(k, attempts))
      ensures r.Settled? ==>
                && 1 <= r.attempt <= attempts && r.outcome == dispatch(r.attempt)
                && r.outcome != VendorError(429) && r.outcome != VendorError(503)
                && forall i: nat :: 1 <= i < r.attempt ==> dispatch(i) in {VendorError(429), VendorError(503)}
      ensures r.GaveUp? ==> forall i: nat :: 1 <= i <= attempts ==> dispatch(i) in {VendorError(429), VendorError(503)}
    {
      if attempts < 1 {
        return BadAttempts;
      }
      running := running + 1;
      r := Retry(task, attempts, dispatch, random);
      running := running - 1;
      FirstSettledIsFirst(dispatch, 1, attempts);
    }

    /** The loop that runs while the task occupies a slot. */
    method Retry(task: Task, attempts: int, dispatch: nat -> Attempt, random: nat -> real) returns (r: Dispatched)
      requires attempts >= 1
      modifies this`queue, this`backoffLog
      ensures var k := FirstSettled(dispatch, 1, attempts);
              && r == (if k <= attempts then Settled(dispatch(k), k) else GaveUp)
              && queue == (if k <= attempts then old(queue)
                           else old(queue) + [Scheduled(task, task.runtime, EstimateOf(task, None), RateLimited(attempts))])
              && backoffLog == old(backoffLog) + Delays(backoff, random, Min(k, attempts))
    {
      var attempt := 1;
      while attempt <= attempts
        invariant 1 <= attempt <= attempts
        invariant FirstSettled(dispatch, 1, attempts) == FirstSettled(dispatch, attempt, attempts)
        invariant queue == old(queue)
        invariant backoffLog == old(backoffLog) + Delays(backoff, random, attempt)
      {
        var outcome := dispatch(attempt);
        if !Retriable(outcome) {
          return Settled(outcome, attempt);
        }
        if attempt == attempts {
          break;
        }
        backoffLog := backoffLog + [Delay(backoff, attempt, random(attempt))];
        attempt := attempt + 1;
      }
      var d := Enqueue(task, task.runtime, EstimateOf(task, None), Queued, RateLimited(attempts));
      return GaveUp;
    }

    method CompleteOne()
      modifies this`running
      ensures running == Max(0, old(running) - 1)
    {
      running := Max(0, running - 1);
    }
  }

  // ---- dispatching with retries ------------------------------------------------------------------------

  /** How one attempt ends: a result, a vendor error with its status code, or any other exception. */
  datatype Attempt = Returned(value: string) | VendorError(code: int) | Raised(error: string)

  /** How the whole call ends; `Settled` carries the attempt that decided it and its number. */
  datatype Dispatched = Settled(outcome: Attempt, attempt: nat) | GaveUp | BadAttempts

  predicate Retriable(a: Attempt) {
    a.VendorError? && (a.code == 429 || a.code == 503)
  }

  /** The first attempt from `from` on that is not a rate limit, or one more than the last. */
  function FirstSettled(dispatch: nat -> Attempt, from: nat, last: int): nat
    requires from <= last + 1
    decreases last + 1 - from
  {
    if from > last || !Retriable(dispatch(from)) then from else FirstSettled(dispatch, from + 1, last)
  }

  lemma {:induction false} FirstSettledIsFirst(dispatch: nat -> Attempt, from: nat, last: int)
    requires from <= last + 1
    ensures var k := FirstSettled(dispatch, from, last);
            && from <= k <= last + 1 && (k <= last ==> !Retriable(dispatch(k)))
            && forall i: nat :: from <= i < k ==> Retriable(dispatch(i))
    decreases last + 1 - from
  {
    if from <= last && Retriable(dispatch(from)) {
      FirstSettledIsFirst(dispatch, from + 1, last);
    }
  }

  /** The delays before attempts 2 to n. */
  function Delays(p: Policy, random: nat -> real, n: nat): seq<real> {
    if n <= 1 then [] else Delays(p, random, n - 1) + [Delay(p, n - 1, random(n - 1))]
  }

  lemma {:induction false} DelaysAre(p: Policy, random: nat -> real, n: nat)
    requires n >= 1
    ensures |Delays(p, random, n)| == n - 1
    ensures forall i :: 0 <= i < n - 1 ==> Delays(p, random, n)[i] == Delay(p, i + 1, random(i + 1))
    decreases n
  {
    if n > 1 {
      DelaysAre(p, random, n - 1);
    }
  }

  // ---- what admission guarantees over any sequence of offers ---------------------------------------------

  /** The decisions are determined by the offers and the ledger they start with. */
  lemma {:induction false} DecisionsUnique(l: Snapshots, offers: seq<Offer>, max: int, d: seq<bool>, n: nat)
    requires AreDecisions(l, offers, max, d) && n <= |d|
    ensures d[..n] == Decisions(l, offers, max, n)
    decreases n
  {
    if n > 0 {
      var e := Decisions(l, offers, max, n - 1);
      DecisionsUnique(l, offers, max, d, n - 1);
      LedgerOfPrefix(l, offers, d, offers[..n - 1], e, n - 1);
      assert Decided(l, offers, max, d, n - 1);
      assert d[..n] == d[..n - 1] + [d[n - 1]];
    }
  }

  /** Strictly rising numbers below n. */
  ghost predicate Rising(picked: seq<nat>, n: nat) {
    && (forall i, j :: 0 <= i < j < |picked| ==> picked[i] < picked[j])
    && forall i :: 0 <= i < |picked| ==> picked[i] < n
  }

  /** The queue `q` followed by the entries of the offers with the given numbers. */
  ghost predicate IsAppended(after: seq<Scheduled>, q: seq<Scheduled>, offers: seq<Offer>, max: int, picked: seq<nat>)
    requires forall i :: 0 <= i < |picked| ==> picked[i] < |offers|
  {
    && |after| == |q| + |picked|
    && (forall i :: 0 <= i < |q| ==> after[i] == q[i])
    && forall i :: |q| <= i < |after| ==> after[i] == Entry(offers[picked[i - |q|]], max)
  }

  /** Every one of the n offers is dispatched or queued, exactly once, and the queue keeps the order of arrival. */
  lemma DispatchedOrQueued(q: seq<Scheduled>, offers: seq<Offer>, max: int, d: seq<bool>, n: nat)
    requires n <= |offers| == |d|
    ensures var yes, no := Picked(d, n, true), Picked(d, n, false);
            && (forall i: nat :: i < n ==> (i in yes <==> d[i]) && (i in no <==> !d[i]))
            && Rising(yes, n) && Rising(no, n) && |yes| + |no| == n
            && IsAppended(QueueAfter(q, offers, max, d, n), q, offers, max, no)
  {
    forall i: nat | i < n ensures (i in Picked(d, n, true) <==> d[i]) && (i in Picked(d, n, false) <==> !d[i]) {
      PickedHas(d, n, true, i);
      PickedHas(d, n, false, i);
    }
    PickedRises(d, n, true);
    PickedRises(d, n, false);
    PickedCount(d, n);
    QueueIsPicked(q, offers, max, d, n);
  }

  lemma {:induction false} PickedHas(d: seq<bool>, n: nat, dispatched: bool, i: nat)
    requires n <= |d|
    ensures i in Picked(d, n, dispatched) <==> i < n && d[i] == dispatched
  {
    if n > 0 {
      PickedHas(d, n - 1, dispatched, i);
    }
  }

  lemma {:induction false} PickedCount(d: seq<bool>, n: nat)
    requires n <= |d|
    ensures |Picked(d, n, true)| + |Picked(d, n, false)| == n
  {
    if n > 0 {
      PickedCount(d, n - 1);
    }
  }

  lemma {:induction false} PickedRises(d: seq<bool>, n: nat, dispatched: bool)
    requires n <= |d|
    ensures Rising(Picked(d, n, dispatched), n)
  {
    if n > 0 {
      PickedRises(d, n - 1, dispatched);
    }
  }

  lemma {:induction false} QueueIsPicked(q: seq<Scheduled>, offers: seq<Offer>, max: int, d: seq<bool>, n: nat)
    requires n <= |offers| == |d| && Rising(Picked(d, n, false), n)
    ensures IsAppended(QueueAfter(q, offers, max, d, n), q, offers, max, Picked(d, n, false))
  {
    if n > 0 {
      PickedRises(d, n - 1, false);
      QueueIsPicked(q, offers, max, d, n - 1);
    }
  }

  /** Both counters of a vendor grow by exactly what was dispatched on it, and its caps stay. */
  lemma {:induction false} UsageIsConserved(l: Snapshots, offers: seq<Offer>, d: seq<bool>, n: nat, vendor: string)
    requires n <= |offers| == |d|
    ensures var s, t := Of(l, vendor), Of(LedgerAfter(l, offers, d, n), vendor);
            && t.fiveHourUsed == s.fiveHourUsed + BurnOf(offers, d, n, vendor)
            && t.weeklyUsed == s.weeklyUsed + BurnOf(offers, d, n, vendor)
            && t.fiveHourCap == s.fiveHourCap && t.weeklyCap == s.weeklyCap
            && BurnOf(offers, d, n, vendor) >= 0
    ensures l.Keys <= LedgerAfter(l, offers, d, n).Keys
    ensures WellKeyed(l) ==> WellKeyed(LedgerAfter(l, offers, d, n))
  {
    if n > 0 {
      UsageIsConserved(l, offers, d, n - 1, vendor);
    }
  }

  /** A counter that started within its cap never passes it, and a vendor that started over one burns no more. */
  lemma {:induction false} CapsAreNeverPassed(l: Snapshots, offers: seq<Offer>, max: int, d: seq<bool>, n: nat, vendor: string)
    requires AreDecisions(l, offers, max, d) && n <= |d|
    ensures var s, t := Of(l, vendor), Of(LedgerAfter(l, offers, d, n), vendor);
            && t.fiveHourUsed <= Max(s.fiveHourCap, s.fiveHourUsed)
            && t.weeklyUsed <= Max(s.weeklyCap, s.weeklyUsed)
            && (s.fiveHourUsed > s.fiveHourCap || s.weeklyUsed > s.weeklyCap ==>
                  t.fiveHourUsed == s.fiveHourUsed && t.weeklyUsed == s.weeklyUsed)
  {
    if n > 0 {
      CapsAreNeverPassed(l, offers, max, d, n - 1, vendor);
      assert Decided(l, offers, max, d, n - 1);
      UsageIsConserved(l, offers, d, n - 1, vendor);
      HasRoomIff(LedgerAfter(l, offers, d, n - 1), offers[n - 1].vendor, offers[n - 1].estimate);
    }
  }

  /** What the first n offers ask for from a vendor. */
  function Demand(offers: seq<Offer>, n: nat, vendor: string): int
    requires n <= |offers|
  {
    if n == 0 then 0 else
      Demand(offers, n - 1, vendor) + if offers[n - 1].vendor == vendor then Burn(offers[n - 1].estimate) else 0
  }

  lemma {:induction false} BurnIsDemand(offers: seq<Offer>, d: seq<bool>, n: nat, vendor: string)
    requires n <= |offers| == |d| && forall i :: 0 <= i < n ==> d[i]
    ensures BurnOf(offers, d, n, vendor) == Demand(offers, n, vendor)
  {
    if n > 0 {
      BurnIsDemand(offers, d, n - 1, vendor);
    }
  }

  lemma {:induction false} DemandGrows(offers: seq<Offer>, m: nat, n: nat, vendor: string)
    requires m <= n <= |offers|
    ensures Demand(offers, m, vendor) <= Demand(offers, n, vendor)
    decreases n
  {
    if m < n {
      DemandGrows(offers, m, n - 1, vendor);
    }
  }

  lemma {:induction false} AllDispatchedWithinQuota(l: Snapshots, offers: seq<Offer>, max: int, d: seq<bool>, n: nat)
    requires AreDecisions(l, offers, max, d)
    requires forall i :: 0 <= i < |d| ==> offers[i].running < max
    requires forall i :: 0 <= i < |d| ==> Demand(offers, |d|, offers[i].vendor) <= Remaining(Of(l, offers[i].vendor))
    requires n <= |d|
    ensures forall i :: 0 <= i < n ==> d[i]
  {
    if n > 0 {
      AllDispatchedWithinQuota(l, offers, max, d, n - 1);
      assert Decided(l, offers, max, d, n - 1);
      var v := offers[n - 1].vendor;
      BurnIsDemand(offers, d, n - 1, v);
      DemandGrows(offers, n, |d|, v);
      UsageIsConserved(l, offers, d, n - 1, v);
      HasRoomIff(LedgerAfter(l, offers, d, n - 1), v, offers[n - 1].estimate);
    }
  }

  predicate WithinQuota(l: Snapshots, offers: seq<Offer>, max: int, o: Offer) {
    o.running < max && Demand(offers, |offers|, o.vendor) <= Remaining(Of(l, o.vendor))
  }

  /**
   A whole series is dispatched exactly when fewer than the maximum run at every offer and the offers
   together stay within every vendor's remaining quota. How many offers there are does not matter.
   */
  lemma AllDispatchedIff(l: Snapshots, offers: seq<Offer>, max: int, d: seq<bool>)
    requires AreDecisions(l, offers, max, d)
    ensures (forall i :: 0 <= i < |d| ==> d[i]) <==> forall i :: 0 <= i < |d| ==> WithinQuota(l, offers, max, offers[i])
  {
    if forall i :: 0 <= i < |d| ==> d[i] {
      forall i | 0 <= i < |d| ensures WithinQuota(l, offers, max, offers[i]) {
        var v := offers[i].vendor;
        assert Decided(l, offers, max, d, i);
        BurnIsDemand(offers, d, |d|, v);
        UsageIsConserved(l, offers, d, |d|, v);
        CapsAreNeverPassed(l, offers, max, d, |d|, v);
      }
    }
    if forall i :: 0 <= i < |d| ==> WithinQuota(l, offers, max, offers[i]) {
      AllDispatchedWithinQuota(l, offers, max, d, |d|);
    }
  }

  /** The ceiling bounds what such a series dispatches exactly when the series itself is no longer than the ceiling. */
  lemma CeilingKeptIff(l: Snapshots, offers: seq<Offer>, max: int, d: seq<bool>)
    requires AreDecisions(l, offers, max, d)
    requires forall i :: 0 <= i < |d| ==> WithinQuota(l, offers, max, offers[i])
    ensures |Picked(d, |d|, true)| <= max <==> |offers| <= max
  {
    AllDispatchedIff(l, offers, max, d);
    AllPicked(d, |d|);
  }

  lemma {:induction false} AllPicked(d: seq<bool>, n: nat)
    requires n <= |d| && forall i :: 0 <= i < n ==> d[i]
    ensures |Picked(d, n, true)| == n
  {
    if n > 0 {
      AllPicked(d, n - 1);
    }
  }

  /** With a ceiling of one, two small tasks are both dispatched when nothing runs at either moment. */
  lemma CeilingCanBePassed()
    ensures var o := Offer(Task("t", "codex", None), "codex", 60, 0, 0.0);
            Decisions(map[], [o, o], 1, 2) == [true, true]
  {
    var o := Offer(Task("t", "codex", None), "codex", 60, 0, 0.0);
    var d := Decisions(map[], [o, o], 1, 2);
    DecisionsAre(map[], [o, o], 1, 2);
    assert [o, o][..2] == [o, o];
    assert Demand([o, o], 2, "codex") == 120 by {
      assert Demand([o, o], 1, "codex") == 60;
    }
    AllDispatchedIff(map[], [o, o], 1, d);
  }

  /** An estimate is what is charged exactly when it is not zero, or the task has no other budget. */
  lemma EstimateIsChargedIff(task: Task, e: int)
    ensures EstimateOf(task, Some(e)) == e <==> e != 0 || task.seatSeconds in {None, Some(0)}
  {
  }

  /** A task estimated at nothing is charged, and may be refused for, its whole budget. */
  lemma ZeroEstimateIsCharged(l: Snapshots, max: int)
    requires max > 0 && Remaining(Of(l, "codex")) < 600
    ensures var task := Task("t", "codex", Some(600));
            && EstimateOf(task, Some(0)) == 600
            && !Fits(l, Offer(task, "codex", EstimateOf(task, Some(0)), 0, 0.0), max)
            && Fits(l, Offer(task, "codex", 0, 0, 0.0), max)
  {
    EstimateIsChargedIff(Task("t", "codex", Some(600)), 0);
  }

  /** A ledger rebuilt, after any admissions, from the store and the snapshots the first one began with is identical. */
  lemma RebuiltAfterAdmissions(initial: Snapshots, stored: Snapshots, offers: seq<Offer>, d: seq<bool>)
    requires |d| == |offers|
    ensures var l := LedgerAfter(Loaded(initial, stored), offers, d, |offers|);
            Loaded(initial, l) == l
  {
    UsageIsConserved(Loaded(initial, stored), offers, d, |offers|, "");
    RebuiltIff(initial, LedgerAfter(Loaded(initial, stored), offers, d, |offers|));
  }
}
