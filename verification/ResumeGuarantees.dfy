/** What resuming guarantees over the whole stream of a task. */
module ResumeGuarantees {
  import opened Numbers
  import opened Options
  import opened AccountPool
  import opened Rotation
  import opened RotationGuarantees
  import opened Executors
  import opened Resume

  lemma {:induction false} StatesAreWellKeyed(t: Task, w: World, h: History, k: nat)
    requires IsHistory(t, w, h) && k <= |h.markers| && WellKeyed(h.states[0].pool)
    ensures WellKeyed(h.states[k].pool)
  {
    if k > 0 {
      StatesAreWellKeyed(t, w, h, k - 1);
      RoundOf(t, w, h, k - 1);
      RotationKeepsKeys(h.states[k - 1], RequestAt(t, w, h, k - 1), w.login(k - 1), h.states[k], h.markers[k - 1]);
    }
  }

  /** The report that the k-th rotation answered. */
  function RequestAt(t: Task, w: World, h: History, k: nat): Request {
    var account := if k < |h.accounts| then h.accounts[k] else "";
    var signal := SignalOf(w, k, account);
    RequestOf(t, w, k, account, if signal.Some? then signal.value else Signal(None, None))
  }

  lemma RoundOf(t: Task, w: World, h: History, k: nat)
    requires IsHistory(t, w, h) && k < |h.markers|
    ensures Rotates(h.states[k], RequestAt(t, w, h, k), w.login(k), h.states[k + 1], h.markers[k])
    ensures k + 1 < |h.accounts| ==> Moves(h.markers[k]) && h.accounts[k + 1] == h.markers[k].to
  {
    assert IsRound(t, w, h, k);
    if k + 1 < |h.accounts| {
      assert Follows(h, k);
    }
  }

  /** Each marker names, as the account it left, the one the dispatch before it ran on. */
  lemma MarkersChain(t: Task, w: World, h: History, k: nat)
    requires IsHistory(t, w, h) && k < |h.markers|
    ensures k < |h.accounts|
    ensures h.markers[k].Rotated? || h.markers[k].Parked? || h.markers[k].Busy?
    ensures h.markers[k].from == h.accounts[k]
    ensures k + 1 < |h.accounts| ==> h.markers[k].Rotated? && h.markers[k].to == h.accounts[k + 1]
  {
    assert IsRound(t, w, h, k);
    RoundOf(t, w, h, k);
  }

  /** What a dispatch answers to is the first of its events in which exhaustion is detected. */
  lemma {:induction false} FirstSignalIs(w: World, events: seq<Event>, i: nat)
    requires i <= |events|
    ensures FirstSignal(w, events, i) == None <==> forall j :: i <= j < |events| ==> w.detect(events[j]) == None
    ensures forall j :: i <= j < |events| && w.detect(events[j]).Some?
                        && (forall m :: i <= m < j ==> w.detect(events[m]) == None)
                        ==> FirstSignal(w, events, i) == w.detect(events[j])
    decreases |events| - i
  {
    if i < |events| && w.detect(events[i]) == None {
      FirstSignalIs(w, events, i + 1);
    }
  }

  /**
   The account a dispatch moves to belongs to the task's tenant and to the vendor that the signal names, in
   any letter case, and is leased to the task's agent; the one left waits until the signal's reset time or,
   without one, for its window.
   */
  lemma RotatedAccountFits(t: Task, w: World, h: History, k: nat)
    requires IsHistory(t, w, h) && WellKeyed(h.states[0].pool) && k + 1 < |h.accounts|
    ensures SignalOf(w, k, h.accounts[k]).Some?
    ensures var before, after := h.states[k].pool, h.states[k + 1].pool;
            var left, to, signal := h.accounts[k], h.accounts[k + 1], SignalOf(w, k, h.accounts[k]).value;
            && to in before.accounts && to != left && before.accounts[to].tenant == t.tenant
            && (signal.vendor.Some? && signal.vendor.value != "" ==>
                  SameInAnyCase(before.accounts[to].vendor, signal.vendor.value))
            && to in after.leases && after.leases[to] == t.agent
            && left in before.accounts && left in after.accounts && after.accounts[left].status == Exhausted
            && after.accounts[left].cooldownUntil
               == Some(if signal.reset.Some? then signal.reset.value
                       else w.now(k) + before.accounts[left].windowSeconds as real)
  {
    StatesAreWellKeyed(t, w, h, k);
    RoundOf(t, w, h, k);
    assert IsRound(t, w, h, k);
    var r := RequestAt(t, w, h, k);
    RotatesToBestUsable(h.states[k], r, w.login(k), h.states[k + 1], h.markers[k]);
    CandidatesAre(h.states[k].pool, QueryOf(r), h.accounts[k + 1]);
  }

  /**
   Why a stream ends: the last rotation named no account to go on with, no event of the last dispatch shows
   exhaustion, the resumes are used up, or the rotation raised.
   */
  lemma ReasonsToEnd(t: Task, w: World, h: History, window: int, final: Service)
    requires Shaped(h) && h.accounts != [] && Resume.Ended(t, w, h, window, final)
    ensures var n := |h.markers|;
            if n == |h.accounts| then
              !h.markers[n - 1].Rotated? || h.markers[n - 1].to == ""
            else
              || (forall event :: event in w.run(n, h.accounts[n]) ==> w.detect(event) == None)
              || n == (if window > 1 then window else 1)
              || exists o :: (o == UnknownAccount || o == Unimplemented)
                             && Rotates(h.states[n], RequestAt(t, w, h, n), w.login(n), final, o)
  {
    var n := |h.markers|;
    if n < |h.accounts| {
      FirstSignalIs(w, w.run(n, h.accounts[n]), 0);
      var signal := SignalOf(w, n, h.accounts[n]);
      if signal.Some? && n != Max(1, window) {
        var o :| IsRaised(o) && Rotates(h.states[n], RequestOf(t, w, n, h.accounts[n], signal.value), w.login(n), final, o);
        assert RequestAt(t, w, h, n) == RequestOf(t, w, n, h.accounts[n], signal.value);
        assert Rotates(h.states[n], RequestAt(t, w, h, n), w.login(n), final, o);
        assert o == UnknownAccount || o == Unimplemented;
      }
    }
  }

  /** The task's rotation count grows with every further dispatch. */
  lemma {:induction false} CountGrows(t: Task, w: World, h: History, k: nat)
    requires IsHistory(t, w, h) && k < |h.accounts|
    ensures CountOf(h.states[k].counts, t.id) == CountOf(h.states[0].counts, t.id) + k
    ensures h.states[k].maxRotations == h.states[0].maxRotations
    ensures k > 0 ==> CountOf(h.states[0].counts, t.id) + k <= h.states[0].maxRotations
  {
    if k > 0 {
      CountGrows(t, w, h, k - 1);
      RoundOf(t, w, h, k - 1);
    }
  }

  /**
   The number of dispatches is bounded by the resumes the settings allow and, whatever the settings, by
   the rotations that the task has left in its window.
   */
  lemma DispatchesAreBounded(t: Task, w: World, h: History, window: int)
    requires IsHistory(t, w, h) && h.accounts != [] && |h.markers| <= Max(1, window)
    ensures |h.accounts| <= 1 + Max(1, window)
    ensures |h.accounts| <= 1 + Max(0, h.states[0].maxRotations - CountOf(h.states[0].counts, t.id))
  {
    CountGrows(t, w, h, |h.accounts| - 1);
  }

  /** When the account of the i-th dispatch may be used again. */
  function CooldownAt(t: Task, w: World, h: History, i: nat): real
    requires i < |h.accounts| && i < |h.states| && h.accounts[i] in h.states[i].pool.accounts
  {
    var r := RequestAt(t, w, h, i);
    if r.cooldown.Some? then r.cooldown.value
    else r.now + h.states[i].pool.accounts[h.accounts[i]].windowSeconds as real
  }

  /** The account waits for that time, unless a failed login has taken it out altogether. */
  predicate WaitsFor(p: Pool, a: string, c: real) {
    a in p.accounts
    && (p.accounts[a].status == Degraded || (p.accounts[a].status == Exhausted && p.accounts[a].cooldownUntil == Some(c)))
  }

  /** Rotating away from an account makes it wait, leaves the waiting ones waiting, and takes none before its time. */
  lemma RotationRespectsWaiting(s: Service, r: Request, login: LoginOf, s': Service, o: Outcome, a: string, c: real)
    requires WellKeyed(s.pool) && Rotates(s, r, login, s', o) && o.Rotated?
    ensures r.current in s.pool.accounts && o.to != r.current
    ensures WaitsFor(s'.pool, r.current, if r.cooldown.Some? then r.cooldown.value
                                         else r.now + s.pool.accounts[r.current].windowSeconds as real)
    ensures WaitsFor(s.pool, a, c) && a != r.current && a != o.to ==> WaitsFor(s'.pool, a, c)
    ensures WaitsFor(s.pool, a, c) && a == o.to ==> r.now >= c
  {
    RotatesToBestUsable(s, r, login, s', o);
  }

  lemma {:induction false} WaitsUntilReturn(t: Task, w: World, h: History, i: nat, k: nat)
    requires IsHistory(t, w, h) && WellKeyed(h.states[0].pool) && i < k < |h.accounts|
    requires forall m :: i < m < k + 1 ==> h.accounts[m] != h.accounts[i]
    ensures h.accounts[i] in h.states[i].pool.accounts
    ensures WaitsFor(h.states[k].pool, h.accounts[i], CooldownAt(t, w, h, i))
    decreases k
  {
    var a, c := h.accounts[i], 0.0;
    if k > i + 1 {
      WaitsUntilReturn(t, w, h, i, k - 1);
      c := CooldownAt(t, w, h, i);
    }
    AnyRotation(t, w, h, k - 1, a, c);
  }

  lemma AnyRotation(t: Task, w: World, h: History, k: nat, a: string, c: real)
    requires IsHistory(t, w, h) && WellKeyed(h.states[0].pool) && k + 1 < |h.accounts|
    ensures h.accounts[k] in h.states[k].pool.accounts && h.accounts[k + 1] != h.accounts[k]
    ensures WaitsFor(h.states[k + 1].pool, h.accounts[k], CooldownAt(t, w, h, k))
    ensures WaitsFor(h.states[k].pool, a, c) && a != h.accounts[k] && a != h.accounts[k + 1] ==> WaitsFor(h.states[k + 1].pool, a, c)
    ensures WaitsFor(h.states[k].pool, a, c) && a == h.accounts[k + 1] ==> w.now(k) >= c
  {
    StatesAreWellKeyed(t, w, h, k);
    RoundOf(t, w, h, k);
    RotationRespectsWaiting(h.states[k], RequestAt(t, w, h, k), w.login(k), h.states[k + 1], h.markers[k], a, c);
  }

  /**
   A task comes back to an account it exhausted only after that account's cooldown has passed: at the
   reset time the vendor named or, without one, a whole quota window after the exhaustion.
   */
  lemma NoReturnBeforeCooldown(t: Task, w: World, h: History, i: nat, j: nat)
    requires IsHistory(t, w, h) && WellKeyed(h.states[0].pool) && i < j < |h.accounts|
    requires h.accounts[j] == h.accounts[i]
    requires forall m :: i < m < j ==> h.accounts[m] != h.accounts[i]
    ensures i + 1 < j && h.accounts[i] in h.states[i].pool.accounts
    ensures w.now(j - 1) >= CooldownAt(t, w, h, i)
  {
    AnyRotation(t, w, h, i, "", 0.0);
    WaitsUntilReturn(t, w, h, i, j - 1);
    AnyRotation(t, w, h, j - 1, h.accounts[i], CooldownAt(t, w, h, i));
  }

  // ---- the shape of the stream --------------------------------------------------------------------------

  predicate EndsARun(item: Item) {
    item.Emitted? && IsFinal(item.event.status)
  }

  function Runs(items: seq<Item>): nat {
    if items == [] then 0 else Runs(items[..|items| - 1]) + if EndsARun(items[|items| - 1]) then 1 else 0
  }

  lemma {:induction false} RunsOfBoth(a: seq<Item>, b: seq<Item>)
    ensures Runs(a + b) == Runs(a) + Runs(b)
    decreases |b|
  {
    if b == [] {
      assert a + b == a;
    } else {
      RunsOfBoth(a, b[..|b| - 1]);
      assert (a + b)[..|a + b| - 1] == a + b[..|b| - 1];
    }
  }

  lemma {:induction false} StagesEndNoRun(events: seq<Event>, n: nat)
    requires IsTrace(events) && n < |events|
    ensures Runs(Items(events)[..n]) == 0
    decreases n
  {
    if n > 0 {
      StagesEndNoRun(events, n - 1);
      assert Items(events)[..n][..n - 1] == Items(events)[..n - 1];
    }
  }

  /** With executors that behave, the stream has one final event for each dispatch, and only the last of a run is final. */
  lemma {:induction false} OneFinalEventEach(w: World, accounts: seq<string>, markers: seq<Outcome>, n: nat)
    requires n <= |accounts| && forall k: nat, a: string :: IsTrace(w.run(k, a))
    ensures Runs(Stream(w, accounts, markers, n)) == n
    decreases n
  {
    if n > 0 {
      OneFinalEventEach(w, accounts, markers, n - 1);
      var before, events := Stream(w, accounts, markers, n - 1), w.run(n - 1, accounts[n - 1]);
      assert IsTrace(events);
      var run := Items(events);
      StagesEndNoRun(events, |events| - 1);
      assert EndsARun(run[|run| - 1]) && Runs(run) == 1;
      RunsOfBoth(before, run);
      if n - 1 < |markers| {
        RunsOfBoth(before + run, [Marker(markers[n - 1])]);
        assert Runs([Marker(markers[n - 1])]) == Runs([Marker(markers[n - 1])][..0]) == 0;
      } else {
        assert before + run + [] == before + run;
      }
    }
  }
}
