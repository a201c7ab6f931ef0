/**
 The wake time of a parked agent: when an account of the vendor it asked for can be selected again, and
 what the pool announces, which is the tenant's earliest cooldown whatever its vendor.
 */
module WakeTime {
  import opened Options
  import opened AccountPool
  import opened Rotation
  import opened RotationGuarantees
  import StringOrder

  /** Someone of the tenant can be selected at `t`. */
  ghost predicate Wakes(p: Pool, vendor: Option<string>, tenant: string, t: real) {
    Candidates(p, Query(vendor, tenant, t, {})) != {}
  }

  ghost predicate WakeReached(w: Option<real>, t: real) {
    w.Some? && w.value <= t
  }

  // ---- who waits, told from the report alone --------------------------------------------------------

  /** The candidates did not outnumber the login attempts. */
  ghost predicate AllTried(s: Service, r: Request) {
    |Candidates(s.pool, QueryOf(r))| <= s.maxLogins || Candidates(s.pool, QueryOf(r)) == {}
  }

  /** An account that waits for a time once the agent is parked: its own, or one that waits and was not tried. */
  ghost predicate WaitsAfter(s: Service, r: Request, k: string) {
    && k in s.pool.accounts && s.pool.accounts[k].tenant == r.tenant
    && (k == r.current
        || (Waiting(s.pool.accounts[k]) && s.pool.accounts[k].cooldownUntil.Some?
            && k !in Top(s.pool, Candidates(s.pool, QueryOf(r)), s.maxLogins)))
  }

  /** Until when it waits; the report sets a new time for the agent's own account. */
  ghost function EndOf(s: Service, r: Request, k: string): real
    requires WaitsAfter(s, r, k)
  {
    var a := s.pool.accounts[k];
    if k != r.current then a.cooldownUntil.value
    else if r.cooldown.Some? then r.cooldown.value
    else r.now + a.windowSeconds as real
  }

  ghost predicate EndsBy(s: Service, r: Request, k: string, t: real) {
    WaitsAfter(s, r, k) && EndOf(s, r, k) <= t
  }

  /** An account of the vendor that the report asks for. */
  ghost predicate Serves(s: Service, r: Request, k: string)
    requires k in s.pool.accounts
  {
    r.vendor == None || Lower(s.pool.accounts[k].vendor) == Lower(r.vendor.value)
  }

  // ---- the pool after parking -------------------------------------------------------------------------

  /** A report that parks its agent because no candidate could be logged in. */
  ghost predicate Parks(s: Service, r: Request, login: LoginOf, s': Service, o: Outcome) {
    WellKeyed(s.pool) && Rotates(s, r, login, s', o) && o.Parked? && !o.thrashing
  }

  /** The state a search leaves when it runs out: failed candidates degraded, everything else untouched. */
  lemma AfterRunningOut(s: Service, r: Request, login: LoginOf, s': Service, o: Outcome)
    requires Parks(s, r, login, s', o)
    ensures r.current in s.pool.accounts
    ensures var ids := Candidates(s.pool, QueryOf(r));
            var p := WithExhausted(s.pool, r.current, r.cooldown, r.now);
            && ids == Candidates(p, QueryOf(r)) && r.current !in ids && WellKeyed(p)
            && Top(p, ids, s.maxLogins) == Top(s.pool, ids, s.maxLogins)
            && s'.pool == WithDegraded(p, Top(s.pool, ids, s.maxLogins), LOGIN_FAILED)
            && IsNextWake(s'.pool, r.tenant, o.wakeAt)
  {
    CurrentDoesNotCompete(s, r);
    var ids := Candidates(s.pool, QueryOf(r));
    var p := WithExhausted(s.pool, r.current, r.cooldown, r.now);
    SameTop(s.pool, p, ids, s.maxLogins);
  }

  lemma SameTop(p: Pool, q: Pool, ids: set<string>, n: int)
    requires ids <= p.accounts.Keys && ids <= q.accounts.Keys && forall k :: k in ids ==> p.accounts[k] == q.accounts[k]
    ensures Top(p, ids, n) == Top(q, ids, n)
  {
    forall k | k in ids ensures Betters(p, ids, k) == Betters(q, ids, k) {
    }
  }

  lemma WaitersAre(s: Service, r: Request, login: LoginOf, s': Service, o: Outcome)
    requires Parks(s, r, login, s', o)
    ensures forall k :: k in WaitingIds(s'.pool, r.tenant) <==> WaitsAfter(s, r, k)
    ensures forall k :: WaitsAfter(s, r, k) ==> s'.pool.accounts[k].cooldownUntil.value == EndOf(s, r, k)
  {
    AfterRunningOut(s, r, login, s', o);
  }

  /** The announced time has been reached exactly when some account has stopped waiting. */
  lemma WakeReachedIff(s: Service, r: Request, login: LoginOf, s': Service, o: Outcome, t: real)
    requires Parks(s, r, login, s', o)
    ensures WakeReached(o.wakeAt, t) <==> exists k :: EndsBy(s, r, k, t)
  {
    AfterRunningOut(s, r, login, s', o);
    WaitersAre(s, r, login, s', o);
    if WakeReached(o.wakeAt, t) {
      var k :| k in WaitingIds(s'.pool, r.tenant) && s'.pool.accounts[k].cooldownUntil.value == o.wakeAt.value;
      assert EndsBy(s, r, k, t);
    }
    if k :| EndsBy(s, r, k, t) {
      assert k in WaitingIds(s'.pool, r.tenant);
    }
  }

  /** When all candidates were tried, an account can be selected exactly when one of that vendor has stopped waiting. */
  lemma WakesIff(s: Service, r: Request, login: LoginOf, s': Service, o: Outcome, t: real)
    requires Parks(s, r, login, s', o) && AllTried(s, r) && t >= r.now
    ensures Wakes(s'.pool, r.vendor, r.tenant, t) <==> exists k :: EndsBy(s, r, k, t) && Serves(s, r, k)
  {
    WaitersAre(s, r, login, s', o);
    if Wakes(s'.pool, r.vendor, r.tenant, t) {
      var k :| k in Candidates(s'.pool, Query(r.vendor, r.tenant, t, {}));
      TopIsAll(s, r);
      SelectableWaits(s, r, login, s', o, t, k);
      assert EndsBy(s, r, k, t);
    }
    if k :| EndsBy(s, r, k, t) && Serves(s, r, k) {
      StoppedIsSelectable(s, r, login, s', o, t, k);
    }
  }

  lemma TopIsAll(s: Service, r: Request)
    requires AllTried(s, r)
    ensures var ids := Candidates(s.pool, QueryOf(r)); Top(s.pool, ids, s.maxLogins) == ids
  {
    var ids := Candidates(s.pool, QueryOf(r));
    if ids != {} {
      AllWithinTop(s.pool, ids, s.maxLogins);
    }
  }

  lemma StoppedIsSelectable(s: Service, r: Request, login: LoginOf, s': Service, o: Outcome, t: real, k: string)
    requires Parks(s, r, login, s', o) && EndsBy(s, r, k, t) && Serves(s, r, k)
    ensures k in Candidates(s'.pool, Query(r.vendor, r.tenant, t, {}))
  {
    AfterRunningOut(s, r, login, s', o);
    WaitersAre(s, r, login, s', o);
    assert k in WaitingIds(s'.pool, r.tenant);
    assert s'.pool.accounts[k].id == k;
  }

  lemma SelectableWaits(s: Service, r: Request, login: LoginOf, s': Service, o: Outcome, t: real, k: string)
    requires Parks(s, r, login, s', o) && t >= r.now
    requires Top(s.pool, Candidates(s.pool, QueryOf(r)), s.maxLogins) == Candidates(s.pool, QueryOf(r))
    requires k in Candidates(s'.pool, Query(r.vendor, r.tenant, t, {}))
    ensures k in WaitingIds(s'.pool, r.tenant) && k in s.pool.accounts && Serves(s, r, k)
  {
    AfterRunningOut(s, r, login, s', o);
    assert s'.pool.accounts[k].status == Available ==> k in Candidates(s.pool, QueryOf(r));
  }

  lemma {:induction false} LastExists(p: Pool, ids: set<string>)
    requires WellKeyed(p) && ids <= p.accounts.Keys && ids != {}
    ensures exists z :: z in ids && Betters(p, ids, z) == ids - {z}
    decreases |ids|
  {
    var x :| x in ids;
    var rest := ids - {x};
    if Before(p.accounts[x], p.accounts[x]) {
      BeforeAsymmetric(p.accounts[x], p.accounts[x]);
    }
    if rest == {} {
      assert ids == {x};
      assert Betters(p, ids, x) == {};
    } else {
      LastExists(p, rest);
      var z :| z in rest && Betters(p, rest, z) == rest - {z};
      BeforeTotal(p.accounts[x], p.accounts[z]);
      if Before(p.accounts[x], p.accounts[z]) {
        forall k | k in ids ensures k in Betters(p, ids, z) <==> k != z {
          assert k != x ==> (k in Betters(p, ids, z) <==> k in Betters(p, rest, z));
        }
        assert Betters(p, ids, z) == ids - {z};
      } else {
        forall k | k in rest ensures k in Betters(p, ids, x) {
          if k != z {
            assert k in Betters(p, rest, z);
            BeforeTransitive(p.accounts[k], p.accounts[z], p.accounts[x]);
          }
        }
        assert Betters(p, ids, x) == ids - {x};
      }
    }
  }

  /** With more candidates than attempts, one is left that can be selected at once. */
  lemma UntriedIsLeft(s: Service, r: Request, login: LoginOf, s': Service, o: Outcome, t: real)
    requires Parks(s, r, login, s', o) && !AllTried(s, r) && t >= r.now
    ensures Wakes(s'.pool, r.vendor, r.tenant, t)
  {
    AfterRunningOut(s, r, login, s', o);
    var ids := Candidates(s.pool, QueryOf(r));
    LastExists(s.pool, ids);
    var z :| z in ids && Betters(s.pool, ids, z) == ids - {z};
    assert |ids - {z}| == |ids| - 1;
    assert z !in Top(s.pool, ids, s.maxLogins);
    assert s'.pool.accounts[z] == s.pool.accounts[z];
    assert z in Candidates(s'.pool, Query(r.vendor, r.tenant, t, {}));
  }

  // ---- when the announced time is right ---------------------------------------------------------------

  /** Nobody of that vendor can be selected before the announced time. */
  ghost predicate NeverLate(s': Service, r: Request, o: Outcome)
    requires o.Parked?
  {
    forall t: real :: t >= r.now && Wakes(s'.pool, r.vendor, r.tenant, t) ==> WakeReached(o.wakeAt, t)
  }

  /** Someone of that vendor can be selected exactly from the announced time on. */
  ghost predicate Exact(s': Service, r: Request, o: Outcome)
    requires o.Parked?
  {
    forall t: real :: t >= r.now ==> (Wakes(s'.pool, r.vendor, r.tenant, t) <==> WakeReached(o.wakeAt, t))
  }

  /** An account that waits although its time has come by the report. */
  ghost predicate SomeoneCooledDown(s: Service, r: Request) {
    exists k :: EndsBy(s, r, k, r.now)
  }

  /** No waiting account of any vendor ends before this one, unless this one has ended by the report. */
  ghost predicate EndsFirst(s: Service, r: Request, k: string) {
    WaitsAfter(s, r, k) && (EndOf(s, r, k) <= r.now || forall j :: WaitsAfter(s, r, j) ==> EndOf(s, r, k) <= EndOf(s, r, j))
  }

  /**
   For any vendor: the announced time is never late exactly when the candidates at entry did not outnumber
   the login attempts, or a waiting account has already cooled down: the agent's own, or an untried one.
   */
  lemma NeverLateIff(s: Service, r: Request, login: LoginOf, s': Service, o: Outcome)
    requires Parks(s, r, login, s', o)
    ensures NeverLate(s', r, o) <==> AllTried(s, r) || SomeoneCooledDown(s, r)
  {
    WakeReachedIff(s, r, login, s', o, r.now);
    if AllTried(s, r) {
      forall t: real | t >= r.now && Wakes(s'.pool, r.vendor, r.tenant, t) ensures WakeReached(o.wakeAt, t) {
        WakesIff(s, r, login, s', o, t);
        WakeReachedIff(s, r, login, s', o, t);
      }
    } else {
      UntriedIsLeft(s, r, login, s', o, r.now);
    }
  }

  /**
   For any vendor: the announced time is exact exactly when, if all candidates were tried, nobody waits or
   an account of that vendor is among the first to stop waiting; and if not, an account has already stopped.
   */
  lemma WakeTimeExactIff(s: Service, r: Request, login: LoginOf, s': Service, o: Outcome)
    requires Parks(s, r, login, s', o)
    ensures Exact(s', r, o) <==>
            if AllTried(s, r) then
              (forall k :: !WaitsAfter(s, r, k)) || exists k :: EndsFirst(s, r, k) && Serves(s, r, k)
            else SomeoneCooledDown(s, r)
  {
    if AllTried(s, r) {
      if k :| EndsFirst(s, r, k) && Serves(s, r, k) {
        FirstIsExact(s, r, login, s', o, k);
      }
      if forall k :: !WaitsAfter(s, r, k) {
        forall t: real | t >= r.now ensures Wakes(s'.pool, r.vendor, r.tenant, t) <==> WakeReached(o.wakeAt, t) {
          WakesIff(s, r, login, s', o, t);
          WakeReachedIff(s, r, login, s', o, t);
        }
      }
      if j :| Exact(s', r, o) && WaitsAfter(s, r, j) {
        var k := ExactHasFirst(s, r, login, s', o, j);
      }
    } else {
      NeverLateIff(s, r, login, s', o);
      forall t: real | t >= r.now ensures Wakes(s'.pool, r.vendor, r.tenant, t) {
        UntriedIsLeft(s, r, login, s', o, t);
      }
    }
  }

  lemma FirstIsExact(s: Service, r: Request, login: LoginOf, s': Service, o: Outcome, k: string)
    requires Parks(s, r, login, s', o) && AllTried(s, r) && EndsFirst(s, r, k) && Serves(s, r, k)
    ensures Exact(s', r, o)
  {
    forall t: real | t >= r.now ensures Wakes(s'.pool, r.vendor, r.tenant, t) <==> WakeReached(o.wakeAt, t) {
      WakesIff(s, r, login, s', o, t);
      WakeReachedIff(s, r, login, s', o, t);
      if j :| EndsBy(s, r, j, t) {
        assert EndsBy(s, r, k, t);
      }
    }
  }

  /** Once the first account of all stops waiting, one of that vendor must have, too. */
  lemma ExactHasFirst(s: Service, r: Request, login: LoginOf, s': Service, o: Outcome, j: string) returns (k: string)
    requires Parks(s, r, login, s', o) && AllTried(s, r) && Exact(s', r, o) && WaitsAfter(s, r, j)
    ensures EndsFirst(s, r, k) && Serves(s, r, k)
  {
    AfterRunningOut(s, r, login, s', o);
    WaitersAre(s, r, login, s', o);
    assert j in WaitingIds(s'.pool, r.tenant);
    var w := o.wakeAt.value;
    var t := if w <= r.now then r.now else w;
    WakesIff(s, r, login, s', o, t);
    k :| EndsBy(s, r, k, t) && Serves(s, r, k);
  }

  /** Without a pinned vendor, the announced time is exact exactly when it is never late. */
  lemma UnpinnedExactIff(s: Service, r: Request, login: LoginOf, s': Service, o: Outcome)
    requires Parks(s, r, login, s', o) && r.vendor == None
    ensures Exact(s', r, o) <==> NeverLate(s', r, o)
    ensures Exact(s', r, o) <==> AllTried(s, r) || SomeoneCooledDown(s, r)
  {
    NeverLateIff(s, r, login, s', o);
    if AllTried(s, r) {
      forall t: real | t >= r.now ensures Wakes(s'.pool, r.vendor, r.tenant, t) <==> WakeReached(o.wakeAt, t) {
        WakesIff(s, r, login, s', o, t);
        WakeReachedIff(s, r, login, s', o, t);
      }
    } else {
      WakeTimeExactIff(s, r, login, s', o);
    }
  }

  /** The agent's own account guarantees that a time is announced, no later than its own. */
  lemma OwnAccountWakes(s: Service, r: Request, login: LoginOf, s': Service, o: Outcome)
    requires Parks(s, r, login, s', o)
    ensures r.current in s.pool.accounts
    ensures s.pool.accounts[r.current].tenant == r.tenant ==>
              o.wakeAt.Some? && o.wakeAt.value <= EndOf(s, r, r.current)
  {
    AfterRunningOut(s, r, login, s', o);
    if s.pool.accounts[r.current].tenant == r.tenant {
      WakeReachedIff(s, r, login, s', o, EndOf(s, r, r.current));
      assert EndsBy(s, r, r.current, EndOf(s, r, r.current));
    }
  }

  // ---- two reports for which it is not ------------------------------------------------------------------

  /** Accounts "a" and "b" are free, "c" is in use; one login is attempted, and that of "a" fails. */
  function LateWakeService(): Service {
    var free := Account("a", "codex", "t", None, 10, 3600, Available, None, 0, None, None);
    Service(Pool(map["a" := free, "b" := free.(id := "b"), "c" := free.(id := "c", status := Leased)], map["c" := "agent"]),
            {}, map[], 8, 1)
  }

  const LATE_WAKE_REQUEST := Request("agent", "t", "c", "task", None, None, 0.0)

  lemma LateWakeCandidates(p: Pool)
    requires p == WithExhausted(LateWakeService().pool, "c", None, 0.0)
    ensures Candidates(p, QueryOf(LATE_WAKE_REQUEST)) == {"a", "b"} && Top(p, {"a", "b"}, 1) == {"a"}
  {
    assert StringOrder.Less("a", "b");
    assert Before(p.accounts["a"], p.accounts["b"]) && !Before(p.accounts["a"], p.accounts["a"]);
    BeforeAsymmetric(p.accounts["a"], p.accounts["b"]);
    assert Betters(p, {"a", "b"}, "a") == {};
    assert "a" in Betters(p, {"a", "b"}, "b");
  }

  lemma LateWakePool(p: Pool, q: Pool)
    requires p == WithExhausted(LateWakeService().pool, "c", None, 0.0) && q == WithDegraded(p, {"a"}, LOGIN_FAILED)
    ensures IsNextWake(q, "t", Some(3600.0)) && Wakes(q, None, "t", 0.0)
  {
    assert WaitingIds(q, "t") == {"c"};
    assert "b" in Candidates(q, Query(None, "t", 0.0, {}));
  }

  /** The agent is parked for an hour although account "b", which was not tried, is free at once. */
  lemma WakeTimeCanBeLate(login: LoginOf) returns (s': Service, o: Outcome)
    requires login("a") == LoginFailed
    ensures Rotates(LateWakeService(), LATE_WAKE_REQUEST, login, s', o)
    ensures o == Parked("c", Some(3600.0), false)
    ensures Wakes(s'.pool, None, "t", 0.0) && !WakeReached(o.wakeAt, 0.0)
  {
    var s := LateWakeService();
    var p := WithExhausted(s.pool, "c", None, 0.0);
    s', o := s.(pool := WithDegraded(p, {"a"}, LOGIN_FAILED)), Parked("c", Some(3600.0), false);
    LateWakeCandidates(p);
    LateWakePool(p, s'.pool);
    SearchDecides(s, LATE_WAKE_REQUEST, login, NoneLeft, s'.pool, s', o);
  }

  /** Account "c" of one vendor is in use, and "x" of another vendor is exhausted for a minute more. */
  function EarlyWakeService(): Service {
    var c := Account("c", "codex", "t", None, 10, 3600, Leased, None, 0, None, None);
    Service(Pool(map["c" := c, "x" := c.(id := "x", vendor := "opus", status := Exhausted, cooldownUntil := Some(60.0))],
                 map["c" := "agent"]), {}, map[], 8, 3)
  }

  const EARLY_WAKE_REQUEST := Request("agent", "t", "c", "task", None, Some("codex"), 0.0)

  lemma EarlyWakePool(p: Pool)
    requires p == WithExhausted(EarlyWakeService().pool, "c", None, 0.0)
    ensures Candidates(p, QueryOf(EARLY_WAKE_REQUEST)) == {} && WithDegraded(p, {}, LOGIN_FAILED) == p
    ensures IsNextWake(p, "t", Some(60.0)) && !Wakes(p, Some("codex"), "t", 60.0)
  {
    assert Lower("opus") == "opus" && Lower("codex") == "codex" && |"opus"| == 4 && |"codex"| == 5;
    assert WaitingIds(p, "t") == {"c", "x"};
    assert Candidates(p, Query(Some("codex"), "t", 60.0, {})) == {};
  }

  /** An agent that needs one vendor is told to wake after a minute, when only the other vendor's account is ready. */
  lemma WakeTimeCanBeEarly(login: LoginOf) returns (s': Service, o: Outcome)
    ensures Rotates(EarlyWakeService(), EARLY_WAKE_REQUEST, login, s', o)
    ensures o == Parked("c", Some(60.0), false)
    ensures WakeReached(o.wakeAt, 60.0) && !Wakes(s'.pool, Some("codex"), "t", 60.0)
  {
    var s := EarlyWakeService();
    var p := WithExhausted(s.pool, "c", None, 0.0);
    s', o := s.(pool := p), Parked("c", Some(60.0), false);
    EarlyWakePool(p);
    assert Top(p, {}, 3) == {};
    SearchDecides(s, EARLY_WAKE_REQUEST, login, NoneLeft, s'.pool, s', o);
  }
}
