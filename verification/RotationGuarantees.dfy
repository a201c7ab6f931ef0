/** What the rotation state machine promises: for single exhaustion reports, and over whole runs. */
module RotationGuarantees {
  import opened Options
  import opened AccountPool
  import StringOrder
  import opened Rotation

  // ---- one report ---------------------------------------------------------------------------------

  /** Exhausting the current account, which the search excludes, changes nothing for the others. */
  lemma CurrentDoesNotCompete(s: Service, r: Request)
    requires WellKeyed(s.pool) && r.current in s.pool.accounts
    ensures var p := WithExhausted(s.pool, r.current, r.cooldown, r.now);
            && WellKeyed(p)
            && Candidates(p, QueryOf(r)) == Candidates(s.pool, QueryOf(r))
            && forall k :: k in Candidates(p, QueryOf(r)) ==> k != r.current && p.accounts[k] == s.pool.accounts[k]
  {
  }

  lemma EndUnique(p: Pool, ids: set<string>, login: LoginOf, attempts: int, a: string, b: string)
    requires WellKeyed(p) && ids <= p.accounts.Keys
    requires EndsAt(p, ids, login, attempts, a) && EndsAt(p, ids, login, attempts, b)
    ensures a == b
  {
    if a != b {
      BeforeTotal(p.accounts[a], p.accounts[b]);
    }
  }

  /** A search that ends at an account has not run out. */
  lemma EndOrNone(p: Pool, ids: set<string>, login: LoginOf, attempts: int, a: string, p': Pool)
    requires ids <= p.accounts.Keys && EndsAt(p, ids, login, attempts, a)
    ensures !Searched(p, ids, login, attempts, NoneLeft, p')
  {
    assert a in Top(p, ids, attempts);
  }

  /** The account at which the search of a report ended. */
  lemma EndOfSearch(s: Service, r: Request, login: LoginOf, s': Service, o: Outcome) returns (a: string)
    requires Proceeds(s, r) && Rotates(s, r, login, s', o) && !o.Parked?
    ensures var p := WithExhausted(s.pool, r.current, r.cooldown, r.now);
            var ids := Candidates(p, QueryOf(r));
            && EndsAt(p, ids, login, s.maxLogins, a)
            && o == (if login(a) == LoggedIn then Rotated(r.current, a) else Unimplemented)
            && s' == (if login(a) == LoggedIn then
                        s.(pool := WithLease(WithDegraded(p, Betters(p, ids, a), LOGIN_FAILED), a, r.agent),
                           counts := s.counts[r.task := CountOf(s.counts, r.task) + 1])
                      else
                        s.(pool := WithDegraded(p, Betters(p, ids, a), LOGIN_FAILED)))
  {
    var p := WithExhausted(s.pool, r.current, r.cooldown, r.now);
    var ids := Candidates(p, QueryOf(r));
    if o.Rotated? {
      a := o.to;
    } else {
      a :| Searched(p, ids, login, s.maxLogins, Ended(a, NotImplemented), s'.pool);
    }
  }

  /** The report has one outcome: the service is a deterministic function of its state and of the logins. */
  lemma OutcomeDetermined(s: Service, r: Request, login: LoginOf, s1: Service, o1: Outcome, s2: Service, o2: Outcome)
    requires WellKeyed(s.pool) && Rotates(s, r, login, s1, o1) && Rotates(s, r, login, s2, o2)
    ensures o1 == o2 && s1 == s2
  {
    if Proceeds(s, r) {
      var p := WithExhausted(s.pool, r.current, r.cooldown, r.now);
      var ids := Candidates(p, QueryOf(r));
      CurrentDoesNotCompete(s, r);
      if !o1.Parked? {
        var a := EndOfSearch(s, r, login, s1, o1);
        EndOrNone(p, ids, login, s.maxLogins, a, s2.pool);
        var b := EndOfSearch(s, r, login, s2, o2);
        EndUnique(p, ids, login, s.maxLogins, a, b);
      } else if !o2.Parked? {
        var b := EndOfSearch(s, r, login, s2, o2);
        EndOrNone(p, ids, login, s.maxLogins, b, s1.pool);
      } else {
        NextWakeUnique(s1.pool, r.tenant, o1.wakeAt, o2.wakeAt);
      }
    }
  }

  /**
   A rotation goes to the best account at entry, for that tenant and vendor, that can be logged in:
   every better one failed its login in this call and is now degraded, there were at most `maxLogins`
   logins, the old account is exhausted, and every other account is as before.
   */
  lemma RotatesToBestUsable(s: Service, r: Request, login: LoginOf, s': Service, o: Outcome)
    requires WellKeyed(s.pool) && Rotates(s, r, login, s', o) && o.Rotated?
    ensures r.current in s.pool.accounts && s'.pool.accounts.Keys == s.pool.accounts.Keys
    ensures var ids := Candidates(s.pool, QueryOf(r));
            var better := Betters(s.pool, ids, o.to);
            && o.to in ids && login(o.to) == LoggedIn && |better| + 1 <= s.maxLogins
            && (forall k :: k in ids && login(k) == LoggedIn && k != o.to
                            ==> Before(s.pool.accounts[o.to], s.pool.accounts[k]))
            && (forall k :: k in better ==>
                  login(k) == LoginFailed && s'.pool.accounts[k].status == Degraded && k !in s'.pool.leases)
            && s'.pool.accounts[o.to] == s.pool.accounts[o.to].(status := Leased)
            && o.to in s'.pool.leases && s'.pool.leases[o.to] == r.agent
            && s'.pool.accounts[r.current].status == Exhausted && r.current !in s'.pool.leases
            && s'.pool.accounts[r.current].cooldownUntil
               == Some(if r.cooldown.Some? then r.cooldown.value
                       else r.now + s.pool.accounts[r.current].windowSeconds as real)
            && (forall k :: k in s.pool.accounts && k !in better && k != o.to && k != r.current
                  ==> s'.pool.accounts[k] == s.pool.accounts[k]
                      && (k in s'.pool.leases <==> k in s.pool.leases)
                      && (k in s.pool.leases ==> s'.pool.leases[k] == s.pool.leases[k]))
  {
    CurrentDoesNotCompete(s, r);
    var p := WithExhausted(s.pool, r.current, r.cooldown, r.now);
    var ids := Candidates(s.pool, QueryOf(r));
    assert Betters(p, ids, o.to) == Betters(s.pool, ids, o.to);
    forall k | k in ids && login(k) == LoggedIn && k != o.to
      ensures Before(s.pool.accounts[o.to], s.pool.accounts[k])
    {
      BeforeTotal(s.pool.accounts[o.to], s.pool.accounts[k]);
    }
  }

  /**
   The account rotated to, in the pool's own figures: of the candidates whose login does not fail none has a
   smaller priority, none of the same priority more quota left, and none equal in both a smaller id.
   */
  lemma RotatesToLeastPriority(s: Service, r: Request, login: LoginOf, s': Service, o: Outcome)
    requires WellKeyed(s.pool) && Rotates(s, r, login, s', o) && o.Rotated?
    ensures forall k :: k in Candidates(s.pool, QueryOf(r)) && login(k) != LoginFailed ==>
              var a, b := s.pool.accounts[o.to], s.pool.accounts[k];
              && EffectivePriority(a) <= EffectivePriority(b)
              && (EffectivePriority(a) == EffectivePriority(b) ==>
                    && a.tokensPerWindow - a.tokensUsed >= b.tokensPerWindow - b.tokensUsed
                    && (a.tokensPerWindow - a.tokensUsed == b.tokensPerWindow - b.tokensUsed
                        ==> !StringOrder.Less(b.id, a.id)))
  {
    RotatesIff(s, r, login, s', o, o.to);
    var usable := set k | k in Candidates(s.pool, QueryOf(r)) && login(k) != LoginFailed;
    forall k | k in usable && k != o.to ensures Before(s.pool.accounts[o.to], s.pool.accounts[k]) {
      BeforeTotal(s.pool.accounts[o.to], s.pool.accounts[k]);
    }
    FirstIffBest(s.pool, usable, o.to);
  }

  /** When the service rotates, stated from the inputs alone. */
  lemma RotatesIff(s: Service, r: Request, login: LoginOf, s': Service, o: Outcome, a: string)
    requires WellKeyed(s.pool) && Rotates(s, r, login, s', o)
    ensures o == Rotated(r.current, a)
            <==> && CountOf(s.counts, r.task) < s.maxRotations && r.agent !in s.locks && r.current in s.pool.accounts
                 && a in Candidates(s.pool, QueryOf(r)) && login(a) == LoggedIn
                 && |Betters(s.pool, Candidates(s.pool, QueryOf(r)), a)| < s.maxLogins
                 && (forall b :: b in Betters(s.pool, Candidates(s.pool, QueryOf(r)), a) ==> login(b) == LoginFailed)
  {
    if Proceeds(s, r) {
      CurrentDoesNotCompete(s, r);
      var p := WithExhausted(s.pool, r.current, r.cooldown, r.now);
      var ids := Candidates(s.pool, QueryOf(r));
      if a in ids {
        assert Betters(p, ids, a) == Betters(s.pool, ids, a);
        if EndsAt(p, ids, login, s.maxLogins, a) {
          EndOrNone(p, ids, login, s.maxLogins, a, s'.pool);
          var b := EndOfSearch(s, r, login, s', o);
          EndUnique(p, ids, login, s.maxLogins, a, b);
        }
      }
    }
  }

  // ---- runs ---------------------------------------------------------------------------------------

  datatype Op =
    | Register(account: Account)
    | Lease(id: string, agent: string)
    | Release(id: string)
    | MarkExhausted(id: string, cooldown: Option<real>, now: real)
    | MarkDegraded(id: string, reason: string)
    | RefreshWindows(now: real)
    | ResetWindowCounters
    | OnExhaustion(r: Request, login: LoginOf)

  ghost predicate PoolStep(p: Pool, op: Op, p': Pool) {
    match op
    case Register(a) => p' == Pool(p.accounts[a.id := a], p.leases)
    case Lease(id, agent) => p' == if id in p.accounts then WithLease(p, id, agent) else p
    case Release(id) => p' == if id in p.accounts then WithoutLease(p, id) else p
    case MarkExhausted(id, cooldown, now) => p' == if id in p.accounts then WithExhausted(p, id, cooldown, now) else p
    case MarkDegraded(id, reason) => p' == if id in p.accounts then WithDegraded(p, {id}, reason) else p
    case RefreshWindows(now) => p' == WithRefreshed(p, now)
    case _ => p' == p
  }

  ghost predicate Step(s: Service, op: Op, s': Service) {
    match op
    case OnExhaustion(r, login) => exists o :: Rotates(s, r, login, s', o)
    case ResetWindowCounters => s' == s.(counts := map[])
    case _ => s' == s.(pool := s'.pool) && PoolStep(s.pool, op, s'.pool)
  }

  /** An account as the pool may hold it: leased exactly when a lease is recorded, and never exhausted without an end. */
  ghost predicate Consistent(a: Account, leased: bool) {
    (a.status == Leased <==> leased) && (a.status == Exhausted ==> a.cooldownUntil.Some?)
  }

  ghost predicate PoolInv(p: Pool) {
    && WellKeyed(p)
    && p.leases.Keys <= p.accounts.Keys
    && forall k :: k in p.accounts ==> Consistent(p.accounts[k], k in p.leases)
  }

  ghost predicate Inv(s: Service) {
    && PoolInv(s.pool)
    && s.locks == {}
    && forall t :: t in s.counts ==> s.counts[t] <= s.maxRotations
  }

  /** Registering keeps the pool consistent exactly when the new record agrees with the recorded leases. */
  lemma RegisterKeepsInvIff(p: Pool, a: Account)
    requires PoolInv(p)
    ensures PoolInv(Pool(p.accounts[a.id := a], p.leases)) <==> Consistent(a, a.id in p.leases)
  {
    var p' := Pool(p.accounts[a.id := a], p.leases);
    assert p'.accounts[a.id] == a;
  }

  /** Replacing a leased account by a fresh record leaves a lease on an account that looks available. */
  lemma RegisterCanOrphanALease()
    ensures exists p: Pool, a: Account :: PoolInv(p) && a.status == Available && a.id in p.leases
                                          && !PoolInv(Pool(p.accounts[a.id := a], p.leases))
  {
    var a := Account("a", "codex", "t", None, 0, 18000, Available, None, 0, None, None);
    var p := Pool(map["a" := a.(status := Leased)], map["a" := "agent"]);
    assert PoolInv(p);
    RegisterKeepsInvIff(p, a);
  }

  lemma DegradedKeepsInv(p: Pool, ids: set<string>, reason: string)
    requires PoolInv(p)
    ensures PoolInv(WithDegraded(p, ids, reason))
  {
  }

  lemma ExhaustedKeepsInv(p: Pool, id: string, cooldown: Option<real>, now: real)
    requires PoolInv(p) && id in p.accounts
    ensures PoolInv(WithExhausted(p, id, cooldown, now))
  {
  }

  lemma LeaseKeepsInv(p: Pool, id: string, agent: string)
    requires PoolInv(p) && id in p.accounts
    ensures PoolInv(WithLease(p, id, agent))
  {
  }

  lemma PoolStepKeepsInv(p: Pool, op: Op, p': Pool)
    requires PoolInv(p) && PoolStep(p, op, p')
    requires op.Register? ==> Consistent(op.account, op.account.id in p.leases)
    ensures PoolInv(p')
  {
    match op
    case Register(a) => RegisterKeepsInvIff(p, a);
    case Lease(id, agent) => if id in p.accounts { LeaseKeepsInv(p, id, agent); }
    case Release(id) =>
    case MarkExhausted(id, cooldown, now) => if id in p.accounts { ExhaustedKeepsInv(p, id, cooldown, now); }
    case MarkDegraded(id, reason) => if id in p.accounts { DegradedKeepsInv(p, {id}, reason); }
    case RefreshWindows(now) =>
    case _ =>
  }

  lemma RotationKeepsInv(s: Service, r: Request, login: LoginOf, s': Service, o: Outcome)
    requires Inv(s) && Rotates(s, r, login, s', o)
    ensures Inv(s')
  {
    if Proceeds(s, r) {
      var p := WithExhausted(s.pool, r.current, r.cooldown, r.now);
      var ids := Candidates(p, QueryOf(r));
      ExhaustedKeepsInv(s.pool, r.current, r.cooldown, r.now);
      match o
      case Rotated(from, to) =>
        DegradedKeepsInv(p, Betters(p, ids, to), LOGIN_FAILED);
        LeaseKeepsInv(WithDegraded(p, Betters(p, ids, to), LOGIN_FAILED), to, r.agent);
      case Unimplemented =>
        var a :| Searched(p, ids, login, s.maxLogins, Ended(a, NotImplemented), s'.pool);
        DegradedKeepsInv(p, Betters(p, ids, a), LOGIN_FAILED);
      case Parked(_, _, _) =>
        DegradedKeepsInv(p, Top(p, ids, s.maxLogins), LOGIN_FAILED);
      case _ =>
    }
  }

  /** The i-th operation of a run; a registered record must agree with the recorded leases. */
  ghost predicate StepAt(states: seq<Service>, ops: seq<Op>, i: nat)
    requires i < |ops| && i + 1 < |states|
  {
    && Step(states[i], ops[i], states[i + 1])
    && (ops[i].Register? ==> Consistent(ops[i].account, ops[i].account.id in states[i].pool.leases))
  }

  ghost predicate IsRun(states: seq<Service>, ops: seq<Op>) {
    |states| == |ops| + 1 && forall i :: 0 <= i < |ops| ==> StepAt(states, ops, i)
  }

  lemma StepKeepsInv(s: Service, op: Op, s': Service)
    requires Inv(s) && Step(s, op, s')
    requires op.Register? ==> Consistent(op.account, op.account.id in s.pool.leases)
    ensures Inv(s')
  {
    match op
    case OnExhaustion(r, login) =>
      var o :| Rotates(s, r, login, s', o);
      RotationKeepsInv(s, r, login, s', o);
    case ResetWindowCounters =>
    case _ =>
      PoolStepKeepsInv(s.pool, op, s'.pool);
  }

  /**
   In every reachable state an account has a lease entry iff it is leased, an exhausted account has a
   cooldown, no agent is locked between calls, and no task has rotated more often than its window allows.
   */
  lemma {:induction false} ReachableStatesAreConsistent(states: seq<Service>, ops: seq<Op>, i: nat)
    requires IsRun(states, ops) && Inv(states[0]) && i <= |ops|
    ensures Inv(states[i])
  {
    if i > 0 {
      ReachableStatesAreConsistent(states, ops, i - 1);
      assert StepAt(states, ops, i - 1);
      StepKeepsInv(states[i - 1], ops[i - 1], states[i]);
    }
  }

  function LeasesOf(p: Pool, agent: string): set<string> {
    set k | k in p.leases && p.leases[k] == agent
  }

  /** A search only ever degrades candidates, and candidates hold no lease. */
  lemma DegradingFreesNoLease(s: Service, r: Request, lost: set<string>)
    requires Inv(s) && r.current in s.pool.accounts && lost <= Candidates(s.pool, QueryOf(r))
    ensures WithDegraded(WithExhausted(s.pool, r.current, r.cooldown, r.now), lost, LOGIN_FAILED).leases
         == s.pool.leases - {r.current}
  {
    assert forall k :: k in lost ==> s.pool.accounts[k].status != Leased;
  }

  lemma LeasesAfterRotation(s: Service, r: Request, login: LoginOf, s': Service, o: Outcome)
    requires Inv(s) && Rotates(s, r, login, s', o) && Proceeds(s, r)
    ensures o.Rotated? ==> o.to !in s.pool.leases && s'.pool.leases == (s.pool.leases - {r.current})[o.to := r.agent]
    ensures !o.Rotated? ==> s'.pool.leases == s.pool.leases - {r.current}
  {
    CurrentDoesNotCompete(s, r);
    var p := WithExhausted(s.pool, r.current, r.cooldown, r.now);
    var ids := Candidates(s.pool, QueryOf(r));
    match o
    case Rotated(_, to) =>
      DegradingFreesNoLease(s, r, Betters(p, ids, to));
      assert s.pool.accounts[to].status != Leased;
    case Unimplemented =>
      var a :| Searched(p, ids, login, s.maxLogins, Ended(a, NotImplemented), s'.pool);
      DegradingFreesNoLease(s, r, Betters(p, ids, a));
    case Parked(_, _, _) =>
      DegradingFreesNoLease(s, r, Top(p, ids, s.maxLogins));
    case _ =>
  }

  /**
   A rotation never takes an account from another agent, and an agent that held at most the account it
   reports ends with exactly the new one, or with none if it was not rotated.
   */
  lemma RotationRespectsLeases(s: Service, r: Request, login: LoginOf, s': Service, o: Outcome)
    requires Inv(s) && Rotates(s, r, login, s', o) && Proceeds(s, r)
    ensures o.Rotated? ==> o.to !in s.pool.leases
    ensures forall k :: k in s.pool.leases && k != r.current ==>
              k in s'.pool.leases && s'.pool.leases[k] == s.pool.leases[k]
    ensures LeasesOf(s.pool, r.agent) <= {r.current} ==>
              LeasesOf(s'.pool, r.agent) == if o.Rotated? then {o.to} else {}
  {
    LeasesAfterRotation(s, r, login, s', o);
    if LeasesOf(s.pool, r.agent) <= {r.current} {
      assert forall k :: k in s.pool.leases && k != r.current ==> k !in LeasesOf(s.pool, r.agent);
    }
  }
}
