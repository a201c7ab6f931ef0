/**
 The account rotation service: what happens when an agent's account runs out of quota. The outcome of
 logging in and resuming is an arbitrary function of the account (each account is tried at most once in
 a call); logging out has no effect on the state.
 */
module Rotation {
  import opened Options
  import opened AccountPool
  import opened Sets

  /** Login and resume: success, an ordinary failure, or a step the runtime has not implemented. */
  datatype Login = LoggedIn | LoginFailed | NotImplemented

  type LoginOf = string -> Login

  /** The state of the service. `locks` are the agents in the middle of a rotation. */
  datatype Service = Service(
    pool: Pool,
    locks: set<string>,
    counts: map<string, int>,
    maxRotations: int,
    maxLogins: int)

  datatype Request = Request(
    agent: string,
    tenant: string,
    current: string,
    task: string,
    cooldown: Option<real>,
    vendor: Option<string>,
    now: real)

  datatype Outcome =
    | Rotated(from: string, to: string)
    | Parked(from: string, wakeAt: Option<real>, thrashing: bool)
    | Busy(from: string)
    | UnknownAccount
    | Unimplemented

  const LOGIN_FAILED := "login/resume failed during rotation"

  function CountOf(counts: map<string, int>, task: string): int {
    if task in counts then counts[task] else 0
  }

  // ---- the search for the next account, stated over the candidates at once ------------------------

  /** The candidates that come before `a`. */
  ghost function Betters(p: Pool, ids: set<string>, a: string): set<string>
    requires a in p.accounts && ids <= p.accounts.Keys
  {
    set b | b in ids && Before(p.accounts[b], p.accounts[a])
  }

  /** The first `n` candidates in selection order. */
  ghost function Top(p: Pool, ids: set<string>, n: int): set<string>
    requires ids <= p.accounts.Keys
  {
    set b | b in ids && |Betters(p, ids, b)| < n
  }

  /** The search ends at `a`: everything better failed to log in, within the allowed number of attempts. */
  ghost predicate EndsAt(p: Pool, ids: set<string>, login: LoginOf, attempts: int, a: string)
    requires ids <= p.accounts.Keys
  {
    && a in ids
    && login(a) != LoginFailed
    && |Betters(p, ids, a)| < attempts
    && forall b :: b in Betters(p, ids, a) ==> login(b) == LoginFailed
  }

  ghost function QueryOf(r: Request): Query {
    Query(r.vendor, r.tenant, r.now, {r.current})
  }

  /** The whole effect of one exhaustion report. */
  ghost predicate Rotates(s: Service, r: Request, login: LoginOf, s': Service, o: Outcome) {
    && s'.locks == s.locks && s'.maxRotations == s.maxRotations && s'.maxLogins == s.maxLogins
    && if CountOf(s.counts, r.task) >= s.maxRotations then
         s' == s && o.Parked? && o.from == r.current && o.thrashing && IsNextWake(s.pool, r.tenant, o.wakeAt)
       else if r.agent in s.locks then
         s' == s && o == Busy(r.current)
       else if r.current !in s.pool.accounts then
         s' == s && o == UnknownAccount
       else
         var p := WithExhausted(s.pool, r.current, r.cooldown, r.now);
         var ids := Candidates(p, QueryOf(r));
         match o
         case Rotated(from, to) =>
           && from == r.current && EndsAt(p, ids, login, s.maxLogins, to) && login(to) == LoggedIn
           && s'.pool == WithLease(WithDegraded(p, Betters(p, ids, to), LOGIN_FAILED), to, r.agent)
           && s'.counts == s.counts[r.task := CountOf(s.counts, r.task) + 1]
         case Unimplemented =>
           && s'.counts == s.counts
           && exists a :: Searched(p, ids, login, s.maxLogins, Ended(a, NotImplemented), s'.pool)
         case Parked(from, wakeAt, thrashing) =>
           && from == r.current && !thrashing && s'.counts == s.counts
           && Searched(p, ids, login, s.maxLogins, NoneLeft, s'.pool)
           && IsNextWake(s'.pool, r.tenant, wakeAt)
         case _ => false
  }

  /** A report that gets past the guards: not thrashing, not already rotating, and about a known account. */
  ghost predicate Proceeds(s: Service, r: Request) {
    CountOf(s.counts, r.task) < s.maxRotations && r.agent !in s.locks && r.current in s.pool.accounts
  }

  datatype Search = Ended(id: string, result: Login) | NoneLeft

  /** What the retry loop finds among the candidates `ids` of `p`, and the pool `p'` it leaves. */
  ghost predicate Searched(p: Pool, ids: set<string>, login: LoginOf, attempts: int, found: Search, p': Pool)
    requires ids <= p.accounts.Keys
  {
    match found
    case Ended(a, result) =>
      EndsAt(p, ids, login, attempts, a) && result == login(a)
      && p' == WithDegraded(p, Betters(p, ids, a), LOGIN_FAILED)
    case NoneLeft =>
      (forall a :: a in Top(p, ids, attempts) ==> login(a) == LoginFailed)
      && p' == WithDegraded(p, Top(p, ids, attempts), LOGIN_FAILED)
  }

  /** `failed` is what a search has been through: a set of candidates closed under better ones. */
  ghost predicate Prefix(p: Pool, ids: set<string>, failed: set<string>)
    requires ids <= p.accounts.Keys
  {
    failed <= ids && forall d, b :: d in failed && b in ids - failed ==> Before(p.accounts[d], p.accounts[b])
  }

  /** The state of the search after `attempt` failed logins. */
  ghost predicate Failing(p: Pool, ids: set<string>, login: LoginOf, failed: set<string>, attempt: int)
    requires ids <= p.accounts.Keys
  {
    && Prefix(p, ids, failed)
    && |failed| == attempt
    && forall a :: a in failed ==> login(a) == LoginFailed
  }

  lemma PrefixIsTop(p: Pool, ids: set<string>, failed: set<string>)
    requires ids <= p.accounts.Keys && Prefix(p, ids, failed)
    ensures failed == Top(p, ids, |failed|)
  {
    forall b | b in ids ensures b in failed <==> |Betters(p, ids, b)| < |failed| {
      if b in failed {
        forall c | c in Betters(p, ids, b) ensures c in failed - {b} {
          BeforeAsymmetric(p.accounts[c], p.accounts[b]);
        }
        SmallerSet(Betters(p, ids, b), failed - {b});
      } else {
        SmallerSet(failed, Betters(p, ids, b));
      }
    }
  }

  /** The first of the remaining candidates has exactly the failed ones before it. */
  lemma NextAfterPrefix(p: Pool, ids: set<string>, failed: set<string>, next: string)
    requires WellKeyed(p) && ids <= p.accounts.Keys && Prefix(p, ids, failed) && IsFirst(p, ids - failed, next)
    ensures Betters(p, ids, next) == failed
    ensures Prefix(p, ids, failed + {next})
  {
    forall b | b in Betters(p, ids, next) ensures b in failed {
      if b !in failed {
        BeforeAsymmetric(p.accounts[b], p.accounts[next]);
      }
    }
  }

  lemma SearchGoesOn(p: Pool, ids: set<string>, login: LoginOf, failed: set<string>, attempt: int, next: string)
    requires WellKeyed(p) && ids <= p.accounts.Keys && Failing(p, ids, login, failed, attempt)
    requires IsFirst(p, ids - failed, next) && login(next) == LoginFailed
    ensures Failing(p, ids, login, failed + {next}, attempt + 1)
  {
    NextAfterPrefix(p, ids, failed, next);
  }

  lemma SearchStopsAt(p: Pool, ids: set<string>, login: LoginOf, failed: set<string>, attempts: int, next: string)
    requires WellKeyed(p) && ids <= p.accounts.Keys && Failing(p, ids, login, failed, |failed|)
    requires |failed| < attempts && IsFirst(p, ids - failed, next) && login(next) != LoginFailed
    ensures Searched(p, ids, login, attempts, Ended(next, login(next)),
                     WithDegraded(p, failed, LOGIN_FAILED))
  {
    NextAfterPrefix(p, ids, failed, next);
  }

  lemma SearchRunsOut(p: Pool, ids: set<string>, login: LoginOf, failed: set<string>, attempts: int)
    requires ids <= p.accounts.Keys && Failing(p, ids, login, failed, |failed|)
    requires (failed == ids && |failed| <= attempts) || |failed| == attempts || attempts <= |failed| == 0
    ensures Searched(p, ids, login, attempts, NoneLeft, WithDegraded(p, failed, LOGIN_FAILED))
  {
    PrefixIsTop(p, ids, failed);
    if failed == ids && |failed| <= attempts {
      AllWithinTop(p, ids, attempts);
    } else {
      assert Top(p, ids, attempts) == Top(p, ids, |failed|);
    }
  }

  /** Degrading accounts that a search excludes anyway does not change what is left to choose from. */
  lemma RemainingCandidates(p: Pool, r: Request, failed: set<string>, next: Option<string>)
    requires WellKeyed(p) && failed <= Candidates(p, QueryOf(r))
    ensures var p' := WithDegraded(p, failed, LOGIN_FAILED);
            var q := QueryOf(r).(exclude := {r.current} + failed);
            && WellKeyed(p')
            && Candidates(p', q) == Candidates(p, QueryOf(r)) - failed
            && (next.Some? && IsFirst(p', Candidates(p', q), next.value)
                ==> IsFirst(p, Candidates(p, QueryOf(r)) - failed, next.value))
  {
  }

  lemma DegradeOneMore(p: Pool, current: string, failed: set<string>, next: string)
    ensures {current} + failed + {next} == {current} + (failed + {next})
    ensures WithDegraded(WithDegraded(p, failed, LOGIN_FAILED), {next}, LOGIN_FAILED)
         == WithDegraded(p, failed + {next}, LOGIN_FAILED)
  {
  }

  /** What the search has to do with the outcome of a report that proceeds. */
  lemma SearchDecides(s: Service, r: Request, login: LoginOf, found: Search, q: Pool, s': Service, o: Outcome)
    requires Proceeds(s, r)
    requires var p := WithExhausted(s.pool, r.current, r.cooldown, r.now);
             Searched(p, Candidates(p, QueryOf(r)), login, s.maxLogins, found, q)
    requires match found
             case Ended(next, LoggedIn) =>
               && next in q.accounts && o == Rotated(r.current, next)
               && s' == s.(pool := WithLease(q, next, r.agent), counts := s.counts[r.task := CountOf(s.counts, r.task) + 1])
             case Ended(next, result) => result == NotImplemented && o == Unimplemented && s' == s.(pool := q)
             case NoneLeft =>
               o.Parked? && o.from == r.current && !o.thrashing && IsNextWake(q, r.tenant, o.wakeAt) && s' == s.(pool := q)
    ensures Rotates(s, r, login, s', o)
  {
  }

  class RotationService {
    const registry: AccountRegistry
    const maxRotations: int
    const maxLogins: int
    var locks: set<string>
    var counts: map<string, int>

    ghost function State(): Service
      reads this, registry
    {
      Service(registry.State(), locks, counts, maxRotations, maxLogins)
    }

    constructor (registry: AccountRegistry, maxRotations: int, maxLogins: int)
      ensures this.registry == registry
      ensures State() == Service(registry.State(), {}, map[], maxRotations, maxLogins)
    {
      this.registry := registry;
      this.maxRotations, this.maxLogins := maxRotations, maxLogins;
      locks, counts := {}, map[];
    }

    method OnExhaustion(r: Request, login: LoginOf) returns (o: Outcome)
      requires WellKeyed(State().pool)
      modifies this, registry
      ensures Rotates(old(State()), r, login, State(), o)
    {
      if CountOf(counts, r.task) >= maxRotations {
        var wakeAt := registry.NextWakeAt(r.tenant);
        return Parked(r.current, wakeAt, true);
      }
      if r.agent in locks {
        return Busy(r.current);
      }
      locks := locks + {r.agent};
      o := RotateLocked(r, login);
      locks := locks - {r.agent};
    }

    /** The part that runs under the agent's lock. */
    method RotateLocked(r: Request, login: LoginOf) returns (o: Outcome)
      requires WellKeyed(State().pool) && CountOf(counts, r.task) < maxRotations && r.agent in locks
      modifies this`counts, registry
      ensures Rotates(old(State()).(locks := locks - {r.agent}), r, login, State().(locks := locks - {r.agent}), o)
    {
      var known := registry.MarkExhausted(r.current, r.cooldown, r.now);
      if !known {
        return UnknownAccount;
      }
      var found := TryCandidates(r, login, registry.State(), Candidates(registry.State(), QueryOf(r)));
      ghost var was := old(State()).(locks := locks - {r.agent});
      ghost var q := registry.State();
      match found {
        case Ended(next, LoggedIn) =>
          var leased := registry.Lease(next, r.agent);
          counts := counts[r.task := CountOf(counts, r.task) + 1];
          o := Rotated(r.current, next);
        case Ended(_, _) =>
          o := Unimplemented;
        case NoneLeft =>
          var wakeAt := registry.NextWakeAt(r.tenant);
          o := Parked(r.current, wakeAt, false);
      }
      SearchDecides(was, r, login, found, q, State().(locks := locks - {r.agent}), o);
    }

    /** A selection when the accounts of `failed` have already been marked degraded in this call. */
    method SelectUntried(r: Request, tried: set<string>, ghost p: Pool, ghost ids: set<string>,
                         ghost failed: set<string>)
      returns (next: Option<string>)
      requires WellKeyed(p) && failed <= ids == Candidates(p, QueryOf(r)) && tried == {r.current} + failed
      requires registry.State() == WithDegraded(p, failed, LOGIN_FAILED)
      ensures next == None ==> failed == ids
      ensures next.Some? ==> IsFirst(p, ids - failed, next.value)
    {
      next := registry.SelectNext(Query(r.vendor, r.tenant, r.now, tried));
      RemainingCandidates(p, r, failed, next);
    }

    /** The retry loop: select, log in, and mark an account degraded when that fails. */
    method TryCandidates(r: Request, login: LoginOf, ghost p: Pool, ghost ids: set<string>) returns (found: Search)
      requires WellKeyed(p) && registry.State() == p && ids == Candidates(p, QueryOf(r))
      modifies registry
      ensures Searched(p, ids, login, maxLogins, found, registry.State())
    {
      ghost var failed: set<string> := {};
      found := NoneLeft;
      var tried := {r.current};
      var attempt := 0;
      while attempt < maxLogins
        invariant registry.State() == WithDegraded(p, failed, LOGIN_FAILED)
        invariant Failing(p, ids, login, failed, attempt)
        invariant tried == {r.current} + failed
        invariant found == NoneLeft && (attempt <= maxLogins || attempt == 0)
      {
        var next := SelectUntried(r, tried, p, ids, failed);
        if next == None {
          break;
        }
        tried := tried + {next.value};
        var outcome := login(next.value);
        if outcome != LoginFailed {
          SearchStopsAt(p, ids, login, failed, maxLogins, next.value);
          found := Ended(next.value, outcome);
          break;
        }
        SearchGoesOn(p, ids, login, failed, attempt, next.value);
        var marked := registry.MarkDegraded(next.value, LOGIN_FAILED);
        DegradeOneMore(p, r.current, failed, next.value);
        failed := failed + {next.value};
        attempt := attempt + 1;
      }
      if found == NoneLeft {
        SearchRunsOut(p, ids, login, failed, maxLogins);
      }
    }

    method ResetWindowCounters()
      modifies this
      ensures State() == old(State()).(counts := map[])
    {
      counts := map[];
    }
  }

  /** With no more candidates than attempts, every candidate is among the first. */
  lemma AllWithinTop(p: Pool, ids: set<string>, n: int)
    requires ids <= p.accounts.Keys && |ids| <= n
    ensures Top(p, ids, n) == ids
  {
    forall b | b in ids ensures |Betters(p, ids, b)| < n {
      if Before(p.accounts[b], p.accounts[b]) {
        BeforeAsymmetric(p.accounts[b], p.accounts[b]);
      }
      SmallerSet(Betters(p, ids, b), ids - {b});
    }
  }
}
