/**
 The tech-lead coordinator: it has an objective decomposed for a bounded number of workers and hands out
 the tasks one by one, each with a reference to the parent's seat, and each dispatched or queued as the
 scheduler decides. The planner, the outcome of every dispatch and the clock are parameters; a dispatch
 does not touch the scheduler.
 */
module TechLead {
  import opened Numbers
  import opened Options
  import opened Seats
  import opened Quota
  import opened Scheduler

  /** The source refuses an autonomy outside 0..4 and a fan-out below one. */
  datatype Config = Config(tenant: string, project: string, vendor: string, autonomy: int, maxFanout: nat)
  datatype PlanTask = PlanTask(id: string, worker: string, prompt: string, estimate: int, mode: string)

  /** How handing out ends: at the end of the plan, or in an exception at the task with that number. */
  datatype Halt = Finished | InvalidTask(at: nat) | DispatchFailed(at: nat)

  datatype Outcome =
    | Executed(dispatched: seq<PlanTask>, queued: seq<PlanTask>)
    | ApprovalRequired
    | SeatNotHeld
    | Stopped(halt: Halt)
    | NoWorkers

  // ---- planning ------------------------------------------------------------------------------------

  /** What a planner returns for a task; an absent text is "", an absent number 0. */
  datatype Item = Item(
    workerId: string, assignedTo: string, agent: string,
    taskId: string, id: string,
    prompt: string, description: string, title: string,
    estimatedBurn: int, seatSeconds: int, mode: string)

  type Planner = seq<string> -> seq<Item>

  function Either(a: string, b: string): string {
    if a != "" then a else b
  }

  function NamedWorker(item: Item): string {
    Either(item.workerId, Either(item.assignedTo, item.agent))
  }

  /** An item without a worker gets one by turns. */
  function WorkerOf(index: nat, item: Item, workers: seq<string>): string
    requires workers != [] || NamedWorker(item) != ""
  {
    if NamedWorker(item) != "" then NamedWorker(item) else workers[index % |workers|]
  }

  function PlanTaskOf(index: nat, item: Item, workers: seq<string>): PlanTask
    requires workers != [] || NamedWorker(item) != ""
  {
    var worker := WorkerOf(index, item, workers);
    PlanTask(Either(item.taskId, Either(item.id, worker + "-task-" + Decimal(index + 1))), worker,
             Either(item.prompt, Either(item.description, item.title)),
             if item.estimatedBurn != 0 then item.estimatedBurn else item.seatSeconds, Either(item.mode, "socket"))
  }

  /** The workers that may be used: the first ones permitted. */
  function WorkersOf(c: Config, permitted: seq<string>): seq<string> {
    if |permitted| <= c.maxFanout then permitted else permitted[..c.maxFanout]
  }

  /** The tasks of the first n items; None when one without a worker meets an empty list of workers. */
  function TasksOf(items: seq<Item>, workers: seq<string>, n: nat): Option<seq<PlanTask>>
    requires n <= |items|
  {
    if n == 0 then Some([]) else
      match TasksOf(items, workers, n - 1)
      case None => None
      case Some(tasks) =>
        if workers == [] && NamedWorker(items[n - 1]) == "" then None
        else Some(tasks + [PlanTaskOf(n - 1, items[n - 1], workers)])
  }

  function PlanOf(c: Config, permitted: seq<string>, planner: Planner): Option<seq<PlanTask>> {
    var workers := WorkersOf(c, permitted);
    TasksOf(planner(workers), workers, |planner(workers)|)
  }

  /** The fallback planner: one task for each worker. */
  function SimplePlan(objective: string): Planner {
    (workers: seq<string>) => seq(|workers|, i requires 0 <= i < |workers| =>
      Item(workers[i], "", "", workers[i] + "-task", "", objective + "\n\nWorker: " + workers[i], "", "", 300, 0, ""))
  }

  lemma {:induction false} TasksAreItems(items: seq<Item>, workers: seq<string>, n: nat, i: nat)
    requires n <= |items| && (workers != [] || forall k :: 0 <= k < n ==> NamedWorker(items[k]) != "")
    ensures TasksOf(items, workers, n).Some? && |TasksOf(items, workers, n).value| == n
    ensures i < n ==> TasksOf(items, workers, n).value[i] == PlanTaskOf(i, items[i], workers)
  {
    if n > 0 {
      TasksAreItems(items, workers, n - 1, i);
      OneMoreTask(items, workers, n);
    }
  }

  lemma OneMoreTask(items: seq<Item>, workers: seq<string>, n: nat)
    requires 0 < n <= |items| && (workers != [] || NamedWorker(items[n - 1]) != "") && TasksOf(items, workers, n - 1).Some?
    ensures TasksOf(items, workers, n)
         == Some(TasksOf(items, workers, n - 1).value + [PlanTaskOf(n - 1, items[n - 1], workers)])
  {
  }

  /** Every item can be given to someone. */
  ghost predicate Assignable(items: seq<Item>, workers: seq<string>) {
    workers != [] || forall i :: 0 <= i < |items| ==> NamedWorker(items[i]) != ""
  }

  lemma {:induction false} NoTaskWithoutWorker(items: seq<Item>, n: nat, i: nat)
    requires i < n <= |items| && NamedWorker(items[i]) == ""
    ensures TasksOf(items, [], n) == None
  {
    if i < n - 1 {
      NoTaskWithoutWorker(items, n - 1, i);
    }
  }

  /** The task of an item, from the first of its texts that is there; `turn` is the worker whose turn it is. */
  ghost predicate IsTaskFor(t: PlanTask, index: nat, item: Item, turn: string) {
    && t.worker == (if item.workerId != "" then item.workerId else if item.assignedTo != "" then item.assignedTo
                    else if item.agent != "" then item.agent else turn)
    && t.id == (if item.taskId != "" then item.taskId else if item.id != "" then item.id
                else t.worker + "-task-" + Decimal(index + 1))
    && t.prompt == (if item.prompt != "" then item.prompt else if item.description != "" then item.description else item.title)
    && t.estimate == (if item.estimatedBurn != 0 then item.estimatedBurn else item.seatSeconds)
    && t.mode == (if item.mode != "" then item.mode else "socket")
  }

  lemma PlanTaskIsFor(index: nat, item: Item, workers: seq<string>)
    requires workers != [] || NamedWorker(item) != ""
    ensures IsTaskFor(PlanTaskOf(index, item, workers), index, item, if workers != [] then workers[index % |workers|] else "")
  {
  }

  /**
   There is a plan exactly when a worker is permitted or every item of the planner names one. It has one task
   for each item, and an item that names no worker goes to one of the first `maxFanout` permitted, by turns.
   So the fan-out is kept exactly when the planner keeps it.
   */
  lemma PlanFollowsPlanner(c: Config, permitted: seq<string>, planner: Planner)
    ensures var items, workers := planner(WorkersOf(c, permitted)), WorkersOf(c, permitted);
            var plan := PlanOf(c, permitted, planner);
            && (plan.Some? <==> Assignable(items, workers))
            && (plan.Some? ==>
                  && |plan.value| == |items|
                  && forall i :: 0 <= i < |items| ==>
                       IsTaskFor(plan.value[i], i, items[i],
                                 if workers != [] then permitted[i % Min(|permitted|, c.maxFanout)] else ""))
  {
    var workers := WorkersOf(c, permitted);
    var items := planner(workers);
    if Assignable(items, workers) {
      TasksAreItems(items, workers, |items|, 0);
      forall i | 0 <= i < |items|
        ensures IsTaskFor(PlanOf(c, permitted, planner).value[i], i, items[i],
                          if workers != [] then permitted[i % Min(|permitted|, c.maxFanout)] else "")
      {
        TaskAt(items, workers, i);
        assert workers != [] ==> workers[i % |workers|] == permitted[i % Min(|permitted|, c.maxFanout)];
      }
    } else {
      var i :| 0 <= i < |items| && NamedWorker(items[i]) == "";
      NoTaskWithoutWorker(items, |items|, i);
    }
  }

  lemma TaskAt(items: seq<Item>, workers: seq<string>, i: nat)
    requires Assignable(items, workers) && i < |items|
    ensures var tasks := TasksOf(items, workers, |items|);
            && tasks.Some? && |tasks.value| == |items|
            && IsTaskFor(tasks.value[i], i, items[i], if workers != [] then workers[i % |workers|] else "")
  {
    TasksAreItems(items, workers, |items|, i);
    PlanTaskIsFor(i, items[i], workers);
  }

  /** What the fallback planner's item for a worker becomes. */
  function SimpleTask(worker: string, objective: string): PlanTask {
    PlanTask(worker + "-task", worker, objective + "\n\nWorker: " + worker, 300, "socket")
  }

  lemma SimpleTaskOf(index: nat, workers: seq<string>, objective: string)
    requires index < |workers| && workers[index] != ""
    ensures NamedWorker(SimplePlan(objective)(workers)[index]) == workers[index]
    ensures PlanTaskOf(index, SimplePlan(objective)(workers)[index], workers) == SimpleTask(workers[index], objective)
  {
    assert |workers[index] + "-task"| >= 5 && |objective + "\n\nWorker: " + workers[index]| >= 10;
  }

  /** The fallback planner keeps the fan-out: one task for each of the first permitted workers, in their order. */
  lemma SimplePlanIsBounded(c: Config, permitted: seq<string>, objective: string)
    requires forall i :: 0 <= i < |permitted| ==> permitted[i] != ""
    ensures var plan := PlanOf(c, permitted, SimplePlan(objective));
            && plan.Some? && |plan.value| == Min(|permitted|, c.maxFanout)
            && forall i :: 0 <= i < |plan.value| ==> plan.value[i] == SimpleTask(permitted[i], objective)
  {
    var workers := WorkersOf(c, permitted);
    var items := SimplePlan(objective)(workers);
    assert forall i :: 0 <= i < |workers| ==> workers[i] == permitted[i];
    TasksAreItems(items, workers, |items|, 0);
    forall i | 0 <= i < |items|
      ensures PlanOf(c, permitted, SimplePlan(objective)).value[i] == SimpleTask(permitted[i], objective)
    {
      TasksAreItems(items, workers, |items|, i);
      SimpleTaskOf(i, workers, objective);
    }
  }

  /** A planner may return more tasks than the fan-out allows workers: here two for a fan-out of one. */
  lemma FanoutCanBeExceeded()
    ensures var item := Item("", "", "", "", "", "do", "", "", 0, 0, "");
            var plan := PlanOf(Config("t", "p", "v", 2, 1), ["w"], _ => [item, item]);
            plan.Some? && |plan.value| == 2 && plan.value[0].worker == plan.value[1].worker == "w"
  {
    var item := Item("", "", "", "", "", "do", "", "", 0, 0, "");
    PlanFollowsPlanner(Config("t", "p", "v", 2, 1), ["w"], _ => [item, item]);
  }

  // ---- execution -----------------------------------------------------------------------------------

  /** What the task envelope demands of its fields. */
  predicate IsValid(c: Config, t: PlanTask) {
    && t.id != "" && t.worker != "" && t.prompt != "" && t.estimate >= 0
    && (t.mode == "terminal" || t.mode == "socket")
    && c.tenant != "" && c.project != ""
  }

  function TaskOf(t: PlanTask): Task {
    Task(t.id, t.worker, Some(t.estimate))
  }

  function OfferOf(c: Config, t: PlanTask, running: int, now: real): Offer {
    Offer(TaskOf(t), VendorOf(TaskOf(t), Some(c.vendor)), EstimateOf(TaskOf(t), Some(t.estimate)), running, now)
  }

  function OffersOf(c: Config, tasks: seq<PlanTask>, running: int, clock: nat -> real): seq<Offer> {
    seq(|tasks|, i requires 0 <= i < |tasks| => OfferOf(c, tasks[i], running, clock(i)))
  }

  /** The first halt from task k on: a task that is not valid, or one that is admitted and whose dispatch fails. */
  function FirstHalt(c: Config, tasks: seq<PlanTask>, d: seq<bool>, dispatch: nat -> bool, k: nat): (h: Halt)
    requires k <= |tasks| == |d|
    ensures h != Finished ==> k <= h.at < |tasks|
    decreases |tasks| - k
  {
    if k == |tasks| then Finished
    else if !IsValid(c, tasks[k]) then InvalidTask(k)
    else if d[k] && !dispatch(k) then DispatchFailed(k)
    else FirstHalt(c, tasks, d, dispatch, k + 1)
  }

  /**
   A plan is handed out to its end exactly when its tasks are valid and those admitted are dispatched; otherwise
   the first task that is not, or whose dispatch fails, ends it.
   */
  lemma {:induction false} FirstHaltIs(c: Config, tasks: seq<PlanTask>, d: seq<bool>, dispatch: nat -> bool, k: nat)
    requires k <= |tasks| == |d|
    ensures var h := FirstHalt(c, tasks, d, dispatch, k);
            && (h == Finished <==> forall i :: k <= i < |tasks| ==> Passes(c, tasks[i], d[i], dispatch(i)))
            && (h != Finished ==>
                  && (forall i :: k <= i < h.at ==> Passes(c, tasks[i], d[i], dispatch(i)))
                  && !Passes(c, tasks[h.at], d[h.at], dispatch(h.at))
                  && (h.DispatchFailed? ==> d[h.at] && !dispatch(h.at)))
    decreases |tasks| - k
  {
    if k < |tasks| && IsValid(c, tasks[k]) && (d[k] ==> dispatch(k)) {
      FirstHaltIs(c, tasks, d, dispatch, k + 1);
    }
  }

  /** The envelope accepts the task, and it is dispatched if it is admitted. */
  predicate Passes(c: Config, t: PlanTask, admitted: bool, dispatched: bool) {
    && t.id != "" && t.worker != "" && t.prompt != "" && t.estimate >= 0 && c.tenant != "" && c.project != ""
    && (t.mode == "terminal" || t.mode == "socket")
    && (admitted ==> dispatched)
  }

  /** How many tasks reached the scheduler. */
  function Offered(tasks: seq<PlanTask>, o: Outcome): nat {
    match o
    case Executed(_, _) => |tasks|
    case Stopped(InvalidTask(at)) => at
    case Stopped(DispatchFailed(at)) => at + 1
    case _ => 0
  }

  /** How many references to the parent's seat were taken. */
  function Referenced(tasks: seq<PlanTask>, o: Outcome): nat {
    match o
    case Stopped(InvalidTask(at)) => at + 1
    case _ => Offered(tasks, o)
  }

  /** Which outcome, for a parent's seat with `refs` references and the decisions d on the tasks. */
  ghost predicate IsOutcome(c: Config, tasks: seq<PlanTask>, refs: nat, d: seq<bool>, dispatch: nat -> bool, o: Outcome)
    requires |tasks| == |d|
  {
    if tasks != [] && refs == 0 then o == SeatNotHeld else
      match FirstHalt(c, tasks, d, dispatch, 0)
      case Finished => o == Executed(Sorted(tasks, d, |tasks|, true), Sorted(tasks, d, |tasks|, false))
      case halt => o == Stopped(halt)
  }

  class TechLeadCoordinator {
    const config: Config
    const seatPool: SeatPool
    const scheduler: QuotaAwareScheduler

    constructor (config: Config, seatPool: SeatPool, scheduler: QuotaAwareScheduler)
      ensures this.config == config && this.seatPool == seatPool && this.scheduler == scheduler
    {
      this.config, this.seatPool, this.scheduler := config, seatPool, scheduler;
    }

    method Plan(permitted: seq<string>, planner: Planner) returns (plan: Option<seq<PlanTask>>)
      ensures plan == PlanOf(config, permitted, planner)
    {
      var workers := WorkersOf(config, permitted);
      var items := planner(workers);
      var tasks: seq<PlanTask> := [];
      for i := 0 to |items|
        invariant TasksOf(items, workers, i) == Some(tasks)
      {
        if workers == [] && NamedWorker(items[i]) == "" {
          NoTasks(items, workers, i + 1, |items|);
          return None;
        }
        tasks := tasks + [PlanTaskOf(i, items[i], workers)];
      }
      return Some(tasks);
    }

    /** Planning, then executing the plan; `NoWorkers` is the failure of planning without any worker. */
    method Execute(permitted: seq<string>, planner: Planner, parent: Seat, approved: bool,
                   dispatch: nat -> bool, clock: nat -> real) returns (o: Outcome)
      requires seatPool.Valid()
      modifies seatPool`known, parent`refCount, scheduler`queue, scheduler.quota`snapshots, scheduler.quota.store
      ensures seatPool.Valid()
      ensures match PlanOf(config, permitted, planner)
              case None =>
                && o == NoWorkers && parent.refCount == old(parent.refCount)
                && scheduler.queue == old(scheduler.queue) && scheduler.quota.snapshots == old(scheduler.quota.snapshots)
              case Some(tasks) =>
                var l, max := old(scheduler.quota.snapshots), scheduler.maxConcurrent;
                var offers := OffersOf(config, tasks, scheduler.running, clock);
                var d := Decisions(l, offers, max, |tasks|);
                && (if config.autonomy <= 1 && !approved then o == ApprovalRequired
                    else IsOutcome(config, tasks, old(parent.refCount), d, dispatch, o))
                && scheduler.quota.snapshots == LedgerAfter(l, offers, d, Offered(tasks, o))
                && scheduler.queue == QueueAfter(old(scheduler.queue), offers, max, d, Offered(tasks, o))
                && parent.refCount == old(parent.refCount) + Referenced(tasks, o)
      ensures old(scheduler.quota.Durable()) ==> scheduler.quota.Durable()
    {
      var plan := Plan(permitted, planner);
      if plan == None {
        return NoWorkers;
      }
      o := ExecutePlan(plan.value, parent, approved, dispatch, clock);
    }

    method ExecutePlan(tasks: seq<PlanTask>, parent: Seat, approved: bool, dispatch: nat -> bool, clock: nat -> real)
      returns (o: Outcome)
      requires seatPool.Valid()
      modifies seatPool`known, parent`refCount, scheduler`queue, scheduler.quota`snapshots, scheduler.quota.store
      ensures seatPool.Valid()
      ensures var offers := OffersOf(config, tasks, scheduler.running, clock);
              var l, max := old(scheduler.quota.snapshots), scheduler.maxConcurrent;
              var d := Decisions(l, offers, max, |tasks|);
              && (if config.autonomy <= 1 && !approved then o == ApprovalRequired
                  else IsOutcome(config, tasks, old(parent.refCount), d, dispatch, o))
              && scheduler.quota.snapshots == LedgerAfter(l, offers, d, Offered(tasks, o))
              && scheduler.queue == QueueAfter(old(scheduler.queue), offers, max, d, Offered(tasks, o))
      ensures parent.refCount == old(parent.refCount) + Referenced(tasks, o)
      ensures old(scheduler.quota.Durable()) ==> scheduler.quota.Durable()
    {
      if config.autonomy <= 1 && !approved {
        return ApprovalRequired;
      }
      ghost var offers := OffersOf(config, tasks, scheduler.running, clock);
      DecisionsAre(scheduler.quota.snapshots, offers, scheduler.maxConcurrent, |tasks|);
      assert offers[..|tasks|] == offers;
      o := HandOut(tasks, parent, dispatch, clock, offers,
                   Decisions(scheduler.quota.snapshots, offers, scheduler.maxConcurrent, |tasks|));
    }

    /** The loop over the tasks of an approved plan. */
    method HandOut(tasks: seq<PlanTask>, parent: Seat, dispatch: nat -> bool, clock: nat -> real,
                   ghost offers: seq<Offer>, ghost d: seq<bool>)
      returns (o: Outcome)
      requires seatPool.Valid() && offers == OffersOf(config, tasks, scheduler.running, clock)
      requires AreDecisions(scheduler.quota.snapshots, offers, scheduler.maxConcurrent, d)
      modifies seatPool`known, parent`refCount, scheduler`queue, scheduler.quota`snapshots, scheduler.quota.store
      ensures seatPool.Valid()
      ensures IsOutcome(config, tasks, old(parent.refCount), d, dispatch, o)
      ensures scheduler.quota.snapshots == LedgerAfter(old(scheduler.quota.snapshots), offers, d, Offered(tasks, o))
      ensures scheduler.queue == QueueAfter(old(scheduler.queue), offers, scheduler.maxConcurrent, d, Offered(tasks, o))
      ensures parent.refCount == old(parent.refCount) + Referenced(tasks, o)
      ensures old(scheduler.quota.Durable()) ==> scheduler.quota.Durable()
    {
      ghost var l, q := scheduler.quota.snapshots, scheduler.queue;
      var dispatched, queued := [], [];
      var k := 0;
      while k < |tasks|
        invariant k <= |tasks|
        invariant seatPool.Valid() && (k > 0 ==> old(parent.refCount) > 0)
        invariant parent.refCount == old(parent.refCount) + k
        invariant FirstHalt(config, tasks, d, dispatch, 0) == FirstHalt(config, tasks, d, dispatch, k)
        invariant scheduler.quota.snapshots == LedgerAfter(l, offers, d, k)
        invariant scheduler.queue == QueueAfter(q, offers, scheduler.maxConcurrent, d, k)
        invariant dispatched == Sorted(tasks, d, k, true) && queued == Sorted(tasks, d, k, false)
        invariant old(scheduler.quota.Durable()) ==> scheduler.quota.Durable()
      {
        var result := OfferTask(tasks, k, parent, clock, offers, d, l, q);
        SortedOneMore(tasks, d, k);
        if result == NotHeld {
          return SeatNotHeld;
        } else if result == Invalid {
          return Stopped(InvalidTask(k));
        } else if result == Accepted {
          if !dispatch(k) {
            return Stopped(DispatchFailed(k));
          }
          dispatched := dispatched + [tasks[k]];
        } else {
          queued := queued + [tasks[k]];
        }
        k := k + 1;
      }
      return Executed(dispatched, queued);
    }

    /** One round: a reference to the parent's seat, the envelope, and the scheduler's decision. */
    method OfferTask(tasks: seq<PlanTask>, k: nat, parent: Seat, clock: nat -> real,
                     ghost offers: seq<Offer>, ghost d: seq<bool>, ghost l: Snapshots, ghost q: seq<Scheduled>)
      returns (r: Round)
      requires seatPool.Valid() && k < |tasks|
      requires offers == OffersOf(config, tasks, scheduler.running, clock)
      requires AreDecisions(l, offers, scheduler.maxConcurrent, d)
      requires scheduler.quota.snapshots == LedgerAfter(l, offers, d, k)
      requires scheduler.queue == QueueAfter(q, offers, scheduler.maxConcurrent, d, k)
      modifies seatPool`known, parent`refCount, scheduler`queue, scheduler.quota`snapshots, scheduler.quota.store
      ensures seatPool.Valid()
      ensures r == NotHeld <==> old(parent.refCount) == 0
      ensures parent.refCount == old(parent.refCount) + if r == NotHeld then 0 else 1
      ensures r == Invalid <==> r != NotHeld && !IsValid(config, tasks[k])
      ensures r == Accepted <==> r != NotHeld && r != Invalid && d[k]
      ensures r == NotHeld || r == Invalid ==>
                && scheduler.quota.snapshots == old(scheduler.quota.snapshots) && scheduler.queue == old(scheduler.queue)
      ensures r == Accepted || r == Waiting ==>
                && scheduler.quota.snapshots == LedgerAfter(l, offers, d, k + 1)
                && scheduler.queue == QueueAfter(q, offers, scheduler.maxConcurrent, d, k + 1)
      ensures old(scheduler.quota.Durable()) ==> scheduler.quota.Durable()
    {
      var t := tasks[k];
      var held := seatPool.AcquireSubagent(parent);
      if !held {
        return NotHeld;
      }
      if !IsValid(config, t) {
        return Invalid;
      }
      assert offers[k] == OfferOf(config, t, scheduler.running, clock(k));
      OneMoreOffer(q, l, offers, scheduler.maxConcurrent, d, k);
      var decision := scheduler.Admit(TaskOf(t), Some(config.vendor), Some(t.estimate), clock(k));
      return if decision.status == Dispatch then Accepted else Waiting;
    }
  }

  /** What one more offer changes. */
  lemma OneMoreOffer(q: seq<Scheduled>, l: Snapshots, offers: seq<Offer>, max: int, d: seq<bool>, k: nat)
    requires k < |offers| && AreDecisions(l, offers, max, d)
    ensures d[k] == Fits(LedgerAfter(l, offers, d, k), offers[k], max)
    ensures d[k] ==>
              && LedgerAfter(l, offers, d, k + 1)
                 == Reserved(LedgerAfter(l, offers, d, k), offers[k].vendor, offers[k].estimate, offers[k].now)
              && QueueAfter(q, offers, max, d, k + 1) == QueueAfter(q, offers, max, d, k)
    ensures !d[k] ==>
              && LedgerAfter(l, offers, d, k + 1) == LedgerAfter(l, offers, d, k)
              && QueueAfter(q, offers, max, d, k + 1) == QueueAfter(q, offers, max, d, k) + [Entry(offers[k], max)]
  {
    assert Decided(l, offers, max, d, k);
  }

  lemma {:induction false} NoTasks(items: seq<Item>, workers: seq<string>, m: nat, n: nat)
    requires m <= n <= |items| && TasksOf(items, workers, m) == None
    ensures TasksOf(items, workers, n) == None
    decreases n
  {
    if m < n {
      NoTasks(items, workers, m, n - 1);
    }
  }

  datatype Round = NotHeld | Invalid | Accepted | Waiting

  /** Those of the first k tasks that were dispatched, or those that were not, in their order. */
  function Sorted(tasks: seq<PlanTask>, d: seq<bool>, k: nat, dispatched: bool): seq<PlanTask>
    requires k <= |tasks| == |d|
  {
    if k == 0 then [] else Sorted(tasks, d, k - 1, dispatched) + if d[k - 1] == dispatched then [tasks[k - 1]] else []
  }

  lemma SortedOneMore(tasks: seq<PlanTask>, d: seq<bool>, k: nat)
    requires k < |tasks| == |d|
    ensures Sorted(tasks, d, k + 1, true) == Sorted(tasks, d, k, true) + if d[k] then [tasks[k]] else []
    ensures Sorted(tasks, d, k + 1, false) == Sorted(tasks, d, k, false) + if d[k] then [] else [tasks[k]]
  {
  }

  /**
   The tasks dispatched, or queued, are those with the picked numbers: the numbers of the two kinds rise and
   share out the plan, so no task is lost, handed out twice or moved out of order.
   */
  lemma {:induction false} SortedArePicked(tasks: seq<PlanTask>, d: seq<bool>, k: nat, dispatched: bool)
    requires k <= |tasks| == |d|
    ensures var picked, sorted := Picked(d, k, dispatched), Sorted(tasks, d, k, dispatched);
            && Rising(picked, k) && |sorted| == |picked|
            && forall i :: 0 <= i < |picked| ==> sorted[i] == tasks[picked[i]]
  {
    PickedRises(d, k, dispatched);
    if k > 0 {
      SortedArePicked(tasks, d, k - 1, dispatched);
    }
  }

  /** The new entries of the scheduler's queue are those of the plan's queued tasks, in order. */
  lemma QueuedTasksAreEntered(c: Config, tasks: seq<PlanTask>, running: int, clock: nat -> real,
                              max: int, d: seq<bool>, k: nat, q: seq<Scheduled>)
    requires k <= |tasks| == |d|
    ensures var after, queued := QueueAfter(q, OffersOf(c, tasks, running, clock), max, d, k), Sorted(tasks, d, k, false);
            && |after| == |q| + |queued|
            && (forall i :: 0 <= i < |q| ==> after[i] == q[i])
            && forall i :: |q| <= i < |after| ==>
                 var entry, t := after[i], queued[i - |q|];
                 && entry.task == Task(t.id, t.worker, Some(t.estimate)) && entry.estimate == t.estimate
                 && entry.vendor == (if c.vendor != "" then c.vendor else t.worker)
                 && entry.reason == (if running >= max then CeilingReached else QuotaExhausted)
  {
    SortedArePicked(tasks, d, k, false);
    QueueIsPicked(q, OffersOf(c, tasks, running, clock), max, d, k);
  }
}
