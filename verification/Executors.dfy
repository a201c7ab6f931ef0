/**
 The two executors that run a task and report its life as a stream of events. What the queue client and
 the runtime adapter answer, and the clock, are parameters; a stream is the list of its events.
 */
module Executors {
  import AccountPool

  datatype Status = Queued | Claimed | Running | Blocked | Done | Failed
  datatype Event = Event(status: Status, text: string)

  const STAGES := [Queued, Claimed, Running]

  predicate IsFinal(s: Status) {
    s in {Blocked, Done, Failed}
  }

  /** Some stages in order and one final event, which is a failure unless all stages were reached. */
  predicate IsTrace(events: seq<Event>) {
    && 1 <= |events| <= 4
    && (forall i :: 0 <= i < |events| - 1 ==> events[i].status == STAGES[i])
    && var last := events[|events| - 1].status;
       last == Failed || (|events| == 4 && last in {Blocked, Done})
  }

  /** A step of a client or adapter answers or raises. */
  datatype Reply = Ok | Raises(error: string)

  // ---- the socket executor ----------------------------------------------------------------------------

  /** A polled record with its two state fields, "" when absent. */
  datatype Poll = Record(state: string, status: string) | PollRaises(error: string)

  /** `poll(k)` is the answer to the k-th poll, `clock(0)` the start, and `clock(k + 1)` the time after that poll. */
  datatype QueueClient = QueueClient(
    enqueue: Reply,
    claim: Reply,
    markRunning: Reply,
    poll: nat -> Poll,
    clock: nat -> real)

  function MapQueueState(state: string): Status {
    var s := AccountPool.Lower(state);
    if s in {"blocked", "waiting"} then Blocked
    else if s in {"failed", "timeout", "cancelled", "error"} then Failed
    else if s in {"done", "completed", "complete", "success"} then Done
    else if s in {"assigned", "claimed"} then Claimed
    else if s in {"in_progress", "running", "dispatched"} then Running
    else if s == "queued" then Queued
    else Running
  }

  /** The record's state, else its status, else "done". */
  function StateOf(p: Poll): string
    requires p.Record?
  {
    if p.state != "" then p.state else if p.status != "" then p.status else "done"
  }

  predicate Settled(p: Poll) {
    p.PollRaises? || IsFinal(MapQueueState(StateOf(p)))
  }

  /** Whether the executor stops waiting after the k-th poll: at the deadline, or without one after the last poll allowed. */
  predicate GivesUp(c: QueueClient, timeout: nat, maxPolls: int, k: nat) {
    if timeout > 0 then c.clock(k + 1) >= c.clock(0) + timeout as real
    else k + 1 >= (if maxPolls > 1 then maxPolls else 1)
  }

  /** The n-th poll is the first one that settles the task or after which the executor gives up. */
  ghost predicate LastPoll(c: QueueClient, timeout: nat, maxPolls: int, n: nat) {
    && (Settled(c.poll(n)) || GivesUp(c, timeout, maxPolls, n))
    && forall k: nat :: k < n ==> !Settled(c.poll(k)) && !GivesUp(c, timeout, maxPolls, k)
  }

  const ACCEPTED := "socket dispatch accepted; terminal completion will be reported by queue polling"

  /** The event of the poll loop that ended with the n-th poll. */
  function PollEvent(c: QueueClient, n: nat): Event {
    match c.poll(n)
    case PollRaises(error) => Event(Failed, error)
    case Record(_, _) =>
      var state := StateOf(c.poll(n));
      if IsFinal(MapQueueState(state)) then Event(MapQueueState(state), state) else Event(Done, ACCEPTED)
  }

  /** With a timeout, the loop relies on the clock to reach the deadline. */
  ghost predicate TimePasses(c: QueueClient, timeout: nat) {
    timeout > 0 ==> exists k: nat :: GivesUp(c, timeout, 1, k)
  }

  method PollTerminalStatus(c: QueueClient, timeout: nat, maxPolls: int) returns (e: Event)
    requires TimePasses(c, timeout)
    ensures exists n: nat :: LastPoll(c, timeout, maxPolls, n) && e == PollEvent(c, n)
                             && (timeout == 0 ==> n < (if maxPolls > 1 then maxPolls else 1))
  {
    ghost var end: nat := if maxPolls > 1 then maxPolls - 1 else 0;
    if timeout > 0 {
      end :| GivesUp(c, timeout, 1, end);
    }
    var attempt := 0;
    while true
      invariant attempt <= end && GivesUp(c, timeout, maxPolls, end)
      invariant forall k: nat :: k < attempt ==> !Settled(c.poll(k)) && !GivesUp(c, timeout, maxPolls, k)
      decreases end - attempt
    {
      var latest := c.poll(attempt);
      if latest.PollRaises? {
        assert LastPoll(c, timeout, maxPolls, attempt);
        return Event(Failed, latest.error);
      }
      var state := StateOf(latest);
      var status := MapQueueState(state);
      if status in {Blocked, Done, Failed} {
        assert LastPoll(c, timeout, maxPolls, attempt);
        return Event(status, state);
      }
      if GivesUp(c, timeout, maxPolls, attempt) {
        assert LastPoll(c, timeout, maxPolls, attempt);
        return Event(Done, ACCEPTED);
      }
      attempt := attempt + 1;
    }
  }

  method SocketDispatch(c: QueueClient, timeout: nat, maxPolls: int) returns (events: seq<Event>)
    requires TimePasses(c, timeout)
    ensures IsTrace(events)
    ensures forall i :: 0 <= i < |events| - 1 ==> events[i] == Event([Queued, Claimed, Running][i], "")
    ensures |events| == if c.enqueue.Raises? then 1 else if c.claim.Raises? then 2 else if c.markRunning.Raises? then 3 else 4
    ensures var last := events[|events| - 1];
            if c.enqueue.Raises? then last == Event(Failed, c.enqueue.error)
            else if c.claim.Raises? then last == Event(Failed, c.claim.error)
            else if c.markRunning.Raises? then last == Event(Failed, c.markRunning.error)
            else exists n: nat :: LastPoll(c, timeout, maxPolls, n) && last == PollEvent(c, n)
  {
    events := [];
    if c.enqueue.Raises? {
      return [Event(Failed, c.enqueue.error)];
    }
    events := events + [Event(Queued, "")];
    if c.claim.Raises? {
      return events + [Event(Failed, c.claim.error)];
    }
    events := events + [Event(Claimed, "")];
    if c.markRunning.Raises? {
      return events + [Event(Failed, c.markRunning.error)];
    }
    events := events + [Event(Running, "")];
    var last := PollTerminalStatus(c, timeout, maxPolls);
    return events + [last];
  }

  /** The poll that ends a socket dispatch, and so its last event, is determined. */
  lemma LastPollUnique(c: QueueClient, timeout: nat, maxPolls: int, m: nat, n: nat)
    requires LastPoll(c, timeout, maxPolls, m) && LastPoll(c, timeout, maxPolls, n)
    ensures m == n
  {
  }

  // ---- the polling read off the queue -------------------------------------------------------------------

  predicate IsAnyOf(state: string, names: seq<string>) {
    exists k :: 0 <= k < |names| && AccountPool.SameInAnyCase(state, names[k])
  }

  lemma NamedIff(state: string, names: seq<string>)
    requires forall k :: 0 <= k < |names| ==> AccountPool.Lower(names[k]) == names[k]
    ensures AccountPool.Lower(state) in names <==> IsAnyOf(state, names)
  {
    forall k | 0 <= k < |names|
      ensures AccountPool.SameInAnyCase(state, names[k]) <==> AccountPool.Lower(state) == names[k]
    {
      AccountPool.LowerIff(state, names[k]);
    }
  }

  lemma StateNamesAreLower()
    ensures forall k :: 0 <= k < 2 ==> AccountPool.Lower(["blocked", "waiting"][k]) == ["blocked", "waiting"][k]
    ensures var names := ["failed", "timeout", "cancelled", "error"];
            forall k :: 0 <= k < 4 ==> AccountPool.Lower(names[k]) == names[k]
    ensures var names := ["done", "completed", "complete", "success"];
            forall k :: 0 <= k < 4 ==> AccountPool.Lower(names[k]) == names[k]
  {
    assert AccountPool.Lower("blocked") == "blocked" && AccountPool.Lower("waiting") == "waiting";
    assert AccountPool.Lower("failed") == "failed" && AccountPool.Lower("timeout") == "timeout";
    assert AccountPool.Lower("cancelled") == "cancelled" && AccountPool.Lower("error") == "error";
    assert AccountPool.Lower("done") == "done" && AccountPool.Lower("completed") == "completed";
    assert AccountPool.Lower("complete") == "complete" && AccountPool.Lower("success") == "success";
  }

  /** Which states of the queue settle a task, and how, in any letter case. */
  lemma QueueStateIs(state: string)
    ensures MapQueueState(state) == Blocked <==> IsAnyOf(state, ["blocked", "waiting"])
    ensures MapQueueState(state) == Failed <==> IsAnyOf(state, ["failed", "timeout", "cancelled", "error"])
    ensures MapQueueState(state) == Done <==> IsAnyOf(state, ["done", "completed", "complete", "success"])
  {
    StateNamesAreLower();
    NamedIff(state, ["blocked", "waiting"]);
    NamedIff(state, ["failed", "timeout", "cancelled", "error"]);
    NamedIff(state, ["done", "completed", "complete", "success"]);
  }

  /** The loop's last poll: at the deadline or after the last poll allowed, unless a record settles the task before. */
  lemma LastPollIs(c: QueueClient, timeout: nat, maxPolls: int, n: nat)
    requires LastPoll(c, timeout, maxPolls, n)
    ensures timeout == 0 ==> n + 1 <= maxPolls || n == 0
    ensures timeout == 0 && !Settled(c.poll(n)) ==> n + 1 == maxPolls || (n == 0 && maxPolls < 1)
    ensures timeout > 0 && !Settled(c.poll(n)) ==> c.clock(n + 1) - c.clock(0) >= timeout as real
    ensures forall k: nat :: k < n ==>
              && c.poll(k).Record? && !IsFinal(MapQueueState(StateOf(c.poll(k))))
              && (timeout > 0 ==> c.clock(k + 1) - c.clock(0) < timeout as real)
  {
    if n > 0 {
      var k: nat := n - 1;
      assert !Settled(c.poll(k)) && !GivesUp(c, timeout, maxPolls, k);
    }
    forall k: nat | k < n
      ensures c.poll(k).Record? && !IsFinal(MapQueueState(StateOf(c.poll(k))))
      ensures timeout > 0 ==> c.clock(k + 1) - c.clock(0) < timeout as real
    {
      assert !Settled(c.poll(k)) && !GivesUp(c, timeout, maxPolls, k);
    }
  }

  /** What is reported: the error of the poll, or how its record settles the task, or that the dispatch was accepted. */
  lemma PollEventIs(c: QueueClient, n: nat)
    ensures match c.poll(n)
            case PollRaises(error) => PollEvent(c, n) == Event(Failed, error)
            case Record(state, status) =>
              var text := if state != "" then state else if status != "" then status else "done";
              PollEvent(c, n) ==
                if IsAnyOf(text, ["blocked", "waiting"]) then Event(Blocked, text)
                else if IsAnyOf(text, ["failed", "timeout", "cancelled", "error"]) then Event(Failed, text)
                else if IsAnyOf(text, ["done", "completed", "complete", "success"]) then Event(Done, text)
                else Event(Done, "socket dispatch accepted; terminal completion will be reported by queue polling")
  {
    if c.poll(n).Record? {
      QueueStateIs(StateOf(c.poll(n)));
    }
  }

  // ---- the terminal executor --------------------------------------------------------------------------

  datatype AgentState = Idle | Working | AgentBlocked | AgentDone | Unknown
  datatype Read = State(state: AgentState) | ReadRaises(error: string)
  datatype Adapter = Adapter(spawn: Reply, send: Reply, readState: Read, meter: Reply)

  method TerminalDispatch(a: Adapter) returns (events: seq<Event>)
    ensures IsTrace(events)
    ensures forall i :: 0 <= i < |events| - 1 ==> events[i] == Event([Queued, Claimed, Running][i], "")
    ensures |events| == if a.spawn.Raises? then 2 else if a.send.Raises? then 3 else 4
    ensures var last := events[|events| - 1];
            last == if a.spawn.Raises? then Event(Failed, a.spawn.error)
                    else if a.send.Raises? then Event(Failed, a.send.error)
                    else if a.readState.ReadRaises? then Event(Failed, a.readState.error)
                    else if a.readState.state == AgentBlocked then Event(Blocked, "")
                    else if a.meter.Raises? then Event(Failed, a.meter.error)
                    else Event(Done, "")
  {
    events := [Event(Queued, "")];
    if a.spawn.Raises? {
      return events + [Event(Failed, a.spawn.error)];
    }
    events := events + [Event(Claimed, "")];
    if a.send.Raises? {
      return events + [Event(Failed, a.send.error)];
    }
    events := events + [Event(Running, "")];
    if a.readState.ReadRaises? {
      return events + [Event(Failed, a.readState.error)];
    }
    if a.readState.state == AgentBlocked {
      return events + [Event(Blocked, "")];
    }
    if a.meter.Raises? {
      return events + [Event(Failed, a.meter.error)];
    }
    return events + [Event(Done, "")];
  }

  lemma FinalEventIsLast(a: seq<Event>, b: seq<Event>)
    requires IsTrace(a) && IsTrace(b) && |a| <= |b| && a[|a| - 1] == b[|a| - 1]
    ensures |a| == |b|
  {
  }

  /** Only the last event of a run is final, so runs that follow one another can be told apart. */
  lemma TracesAreSeparable(a: seq<Event>, rest: seq<Event>, b: seq<Event>, more: seq<Event>)
    requires IsTrace(a) && IsTrace(b) && a + rest == b + more
    ensures a == b && rest == more
  {
    var all := a + rest;
    if |a| <= |b| {
      assert all[|a| - 1] == b[|a| - 1];
      FinalEventIsLast(a, b);
    } else {
      assert all[|b| - 1] == a[|b| - 1];
      FinalEventIsLast(b, a);
    }
    assert a == all[..|a|] && rest == all[|a|..] && b == all[..|b|] && more == all[|b|..];
  }
}
