/**
 The pool of rotation accounts: selection by expertise priority, the parking wake time, and the lease
 and status transitions. Times are reals.
 */
module AccountPool {
  import opened Options
  import StringOrder

  datatype Status = Available | Leased | Exhausted | Cooldown | Degraded

  datatype Account = Account(
    id: string,
    vendor: string,
    tenant: string,
    priority: Option<int>,
    tokensPerWindow: int,
    windowSeconds: int,
    status: Status,
    windowStart: Option<real>,
    tokensUsed: int,
    cooldownUntil: Option<real>,
    lastError: Option<string>)

  /** The state of a pool as a value. A lease maps an account to the agent that holds it. */
  datatype Pool = Pool(accounts: map<string, Account>, leases: map<string, string>)

  /** What a selection is asked for; no vendor means any vendor. */
  datatype Query = Query(vendor: Option<string>, tenant: string, now: real, exclude: set<string>)

  const DEFAULT_PRIORITY := 99

  function Lower(s: string): string {
    seq(|s|, i requires 0 <= i < |s| => if 'A' <= s[i] <= 'Z' then s[i] - 'A' + 'a' else s[i])
  }

  function EffectivePriority(a: Account): int {
    if a.priority.Some? then a.priority.value else
      var vendor := Lower(a.vendor);
      if vendor == "codex" then 1
      else if vendor in {"opus", "claude", "glm"} then 2
      else if vendor == "antigravity" then 3
      else DEFAULT_PRIORITY
  }

  /** Exhausted accounts, and those in an explicit cooldown, wait for a time. */
  predicate Waiting(a: Account) {
    a.status in {Exhausted, Cooldown}
  }

  predicate IsSelectable(a: Account, now: real) {
    if a.status in {Leased, Degraded} then false
    else if Waiting(a) then a.cooldownUntil.Some? && now >= a.cooldownUntil.value
    else true
  }

  /** The selection order: priority, then most remaining quota, then account id. */
  predicate Before(a: Account, b: Account) {
    var pa, pb := EffectivePriority(a), EffectivePriority(b);
    var ra, rb := a.tokensPerWindow - a.tokensUsed, b.tokensPerWindow - b.tokensUsed;
    pa < pb || (pa == pb && (ra > rb || (ra == rb && StringOrder.Less(a.id, b.id))))
  }

  // ---- selection spelled out ------------------------------------------------------------------------

  /** The same character, or the same ASCII letter in the other case. */
  predicate SameLetter(c: char, d: char) {
    || c == d
    || ('A' <= c <= 'Z' && d as int == c as int + 32)
    || ('A' <= d <= 'Z' && c as int == d as int + 32)
  }

  predicate SameInAnyCase(s: string, t: string) {
    |s| == |t| && forall i :: 0 <= i < |s| ==> SameLetter(s[i], t[i])
  }

  lemma LowerIff(s: string, t: string)
    ensures Lower(s) == Lower(t) <==> SameInAnyCase(s, t)
  {
    if Lower(s) == Lower(t) {
      assert |Lower(s)| == |Lower(t)|;
      forall i | 0 <= i < |s| ensures SameLetter(s[i], t[i]) {
        assert Lower(s)[i] == Lower(t)[i];
      }
    }
  }

  /** An explicit priority wins; otherwise the vendor's name decides, in any letter case. */
  lemma PriorityIs(a: Account)
    ensures a.priority.Some? ==> EffectivePriority(a) == a.priority.value
    ensures a.priority == None ==>
              && (SameInAnyCase(a.vendor, "codex") <==> EffectivePriority(a) == 1)
              && (SameInAnyCase(a.vendor, "opus") || SameInAnyCase(a.vendor, "claude") || SameInAnyCase(a.vendor, "glm")
                  <==> EffectivePriority(a) == 2)
              && (SameInAnyCase(a.vendor, "antigravity") <==> EffectivePriority(a) == 3)
              && EffectivePriority(a) in {1, 2, 3, 99}
  {
    LowerIff(a.vendor, "codex");
    LowerIff(a.vendor, "opus");
    LowerIff(a.vendor, "claude");
    LowerIff(a.vendor, "glm");
    LowerIff(a.vendor, "antigravity");
    NamesAreLower();
  }

  lemma NamesAreLower()
    ensures Lower("codex") == "codex" && Lower("opus") == "opus" && Lower("claude") == "claude" && Lower("glm") == "glm"
    ensures Lower("antigravity") == "antigravity"
    ensures |"codex"| == 5 && |"opus"| == 4 && |"claude"| == 6 && |"glm"| == 3 && |"antigravity"| == 11
  {
  }

  /** Who can be selected: an available account, or one that waited until its cooldown ended; never a leased or degraded one. */
  lemma CandidatesAre(p: Pool, q: Query, k: string)
    ensures k in Candidates(p, q) <==>
            && k in p.accounts && p.accounts[k].id !in q.exclude && p.accounts[k].tenant == q.tenant
            && (q.vendor.Some? ==> SameInAnyCase(p.accounts[k].vendor, q.vendor.value))
            && (|| p.accounts[k].status == Available
                || ((p.accounts[k].status == Exhausted || p.accounts[k].status == Cooldown)
                    && p.accounts[k].cooldownUntil.Some? && p.accounts[k].cooldownUntil.value <= q.now))
  {
    if k in p.accounts && q.vendor.Some? {
      LowerIff(p.accounts[k].vendor, q.vendor.value);
    }
  }

  /** No account of `ids` has a smaller priority than `r`, nor of its priority more quota left, nor of both a smaller id. */
  ghost predicate IsBest(p: Pool, ids: set<string>, r: string)
    requires ids <= p.accounts.Keys
  {
    r in ids && forall k :: k in ids ==>
      var a, b := p.accounts[r], p.accounts[k];
      && EffectivePriority(a) <= EffectivePriority(b)
      && (EffectivePriority(a) == EffectivePriority(b) ==>
            && a.tokensPerWindow - a.tokensUsed >= b.tokensPerWindow - b.tokensUsed
            && (a.tokensPerWindow - a.tokensUsed == b.tokensPerWindow - b.tokensUsed ==> !StringOrder.Less(b.id, a.id)))
  }

  /** The account that comes first in selection order is the best one, and the only best one. */
  lemma FirstIffBest(p: Pool, ids: set<string>, r: string)
    requires WellKeyed(p) && ids <= p.accounts.Keys
    ensures IsFirst(p, ids, r) <==> IsBest(p, ids, r)
  {
    if IsFirst(p, ids, r) {
      forall k | k in ids
        ensures !StringOrder.Less(r, r) && (StringOrder.Less(r, k) ==> !StringOrder.Less(k, r))
      {
        if StringOrder.Less(r, r) {
          StringOrder.LessAsymmetric(r, r);
        }
        if StringOrder.Less(r, k) {
          StringOrder.LessAsymmetric(r, k);
        }
      }
    }
    if IsBest(p, ids, r) {
      forall k | k in ids && k != r ensures Before(p.accounts[r], p.accounts[k]) {
        StringOrder.LessTotal(r, k);
      }
    }
  }

  lemma BeforeAsymmetric(a: Account, b: Account)
    requires Before(a, b)
    ensures !Before(b, a)
  {
    if StringOrder.Less(a.id, b.id) {
      StringOrder.LessAsymmetric(a.id, b.id);
    }
  }

  lemma BeforeTotal(a: Account, b: Account)
    requires a.id != b.id
    ensures Before(a, b) || Before(b, a)
  {
    StringOrder.LessTotal(a.id, b.id);
  }

  lemma BeforeTransitive(a: Account, b: Account, c: Account)
    requires Before(a, b) && Before(b, c)
    ensures Before(a, c)
  {
    if StringOrder.Less(a.id, b.id) && StringOrder.Less(b.id, c.id) {
      StringOrder.LessTransitive(a.id, b.id, c.id);
    }
  }

  /** Accounts are registered under their own id. */
  ghost predicate WellKeyed(p: Pool) {
    forall k :: k in p.accounts ==> p.accounts[k].id == k
  }

  predicate Eligible(a: Account, q: Query) {
    && a.id !in q.exclude
    && a.tenant == q.tenant
    && (q.vendor == None || Lower(a.vendor) == Lower(q.vendor.value))
    && IsSelectable(a, q.now)
  }

  function Candidates(p: Pool, q: Query): set<string> {
    set k | k in p.accounts && Eligible(p.accounts[k], q)
  }

  /** `r` is the first of the accounts `ids` in selection order. */
  ghost predicate IsFirst(p: Pool, ids: set<string>, r: string)
    requires ids <= p.accounts.Keys
  {
    r in ids && forall k :: k in ids ==> k == r || Before(p.accounts[r], p.accounts[k])
  }

  /** Taking one more account into account. */
  lemma FirstOfOneMore(p: Pool, ids: set<string>, r: string, k: string)
    requires WellKeyed(p) && ids + {k} <= p.accounts.Keys && k !in ids && IsFirst(p, ids, r)
    ensures IsFirst(p, ids + {k}, if Before(p.accounts[k], p.accounts[r]) then k else r)
  {
    BeforeTotal(p.accounts[k], p.accounts[r]);
    if Before(p.accounts[k], p.accounts[r]) {
      forall j | j in ids && j != r ensures Before(p.accounts[k], p.accounts[j]) {
        BeforeTransitive(p.accounts[k], p.accounts[r], p.accounts[j]);
      }
    }
  }

  lemma FirstUnique(p: Pool, ids: set<string>, r: string, r': string)
    requires ids <= p.accounts.Keys && IsFirst(p, ids, r) && IsFirst(p, ids, r')
    ensures r == r'
  {
    if r != r' {
      BeforeAsymmetric(p.accounts[r], p.accounts[r']);
    }
  }

  /** The accounts a tenant is waiting for. */
  function WaitingIds(p: Pool, tenant: string): set<string> {
    set k | k in p.accounts && p.accounts[k].tenant == tenant && Waiting(p.accounts[k])
            && p.accounts[k].cooldownUntil.Some?
  }

  /** An exhausted account of the tenant, or one in a cooldown, that has a time to wait for. */
  predicate IsWaitingOf(a: Account, tenant: string) {
    (a.status == Exhausted || a.status == Cooldown) && a.cooldownUntil.Some? && a.tenant == tenant
  }

  /** `w` is the earliest cooldown among the tenant's waiting accounts, None when there is none. */
  ghost predicate IsNextWake(p: Pool, tenant: string, w: Option<real>) {
    var ids := WaitingIds(p, tenant);
    match w
    case None => ids == {}
    case Some(t) =>
      && (exists k :: k in ids && p.accounts[k].cooldownUntil.value == t)
      && (forall k :: k in ids ==> t <= p.accounts[k].cooldownUntil.value)
  }

  lemma NextWakeUnique(p: Pool, tenant: string, w: Option<real>, w': Option<real>)
    requires IsNextWake(p, tenant, w) && IsNextWake(p, tenant, w')
    ensures w == w'
  {
  }

  // ---- transitions, as functions on pool values ---------------------------------------------------

  function WithLease(p: Pool, id: string, agent: string): Pool
    requires id in p.accounts
  {
    Pool(p.accounts[id := p.accounts[id].(status := Leased)], p.leases[id := agent])
  }

  function WithoutLease(p: Pool, id: string): Pool
    requires id in p.accounts
  {
    var a := p.accounts[id];
    Pool(p.accounts[id := if a.status == Leased then a.(status := Available) else a], p.leases - {id})
  }

  function WithExhausted(p: Pool, id: string, cooldown: Option<real>, now: real): Pool
    requires id in p.accounts
  {
    var a := p.accounts[id];
    var until := if cooldown.Some? then cooldown.value else now + a.windowSeconds as real;
    Pool(p.accounts[id := a.(status := Exhausted, cooldownUntil := Some(until))], p.leases - {id})
  }

  /** Every account of `ids` marked degraded for the same reason. */
  function WithDegraded(p: Pool, ids: set<string>, reason: string): Pool {
    Pool(map k | k in p.accounts ::
           if k in ids then p.accounts[k].(status := Degraded, lastError := Some(reason)) else p.accounts[k],
         p.leases - ids)
  }

  predicate CooledDown(a: Account, now: real) {
    Waiting(a) && a.cooldownUntil.Some? && now >= a.cooldownUntil.value
  }

  function Renewed(a: Account, now: real): Account {
    a.(status := Available, cooldownUntil := None, windowStart := Some(now), tokensUsed := 0)
  }

  function WithRefreshed(p: Pool, now: real): Pool {
    p.(accounts := map k | k in p.accounts ::
                     if CooledDown(p.accounts[k], now) then Renewed(p.accounts[k], now) else p.accounts[k])
  }

  /** The in-memory registry. A false `known` stands for the KeyError on an unknown account. */
  class AccountRegistry {
    var accounts: map<string, Account>
    var leases: map<string, string>

    ghost function State(): Pool
      reads this
    {
      Pool(accounts, leases)
    }

    constructor ()
      ensures State() == Pool(map[], map[])
    {
      accounts, leases := map[], map[];
    }

    method Register(account: Account)
      modifies this
      ensures State() == Pool(old(accounts)[account.id := account], old(leases))
    {
      accounts := accounts[account.id := account];
    }

    /** The eligible account that comes first in selection order; None exactly when none is eligible. */
    method SelectNext(q: Query) returns (r: Option<string>)
      requires WellKeyed(State())
      ensures r == None <==> Candidates(State(), q) == {}
      ensures r.Some? ==> IsFirst(State(), Candidates(State(), q), r.value) && IsBest(State(), Candidates(State(), q), r.value)
    {
      var candidates := set k | k in accounts && Eligible(accounts[k], q);
      if candidates == {} {
        return None;
      }
      var first :| first in candidates;
      var rest := candidates - {first};
      while rest != {}
        invariant rest <= candidates && IsFirst(State(), candidates - rest, first)
        decreases |rest|
      {
        var k :| k in rest;
        FirstOfOneMore(State(), candidates - rest, first, k);
        assert candidates - rest + {k} == candidates - (rest - {k});
        rest := rest - {k};
        if Before(accounts[k], accounts[first]) {
          first := k;
        }
      }
      assert candidates - rest == candidates;
      FirstIffBest(State(), candidates, first);
      return Some(first);
    }

    method NextWakeAt(tenant: string) returns (w: Option<real>)
      ensures IsNextWake(State(), tenant, w)
      ensures w.Some? <==> exists k :: k in accounts && IsWaitingOf(accounts[k], tenant)
      ensures w.Some? ==>
                && (exists k :: k in accounts && IsWaitingOf(accounts[k], tenant) && accounts[k].cooldownUntil == w)
                && (forall k :: k in accounts && IsWaitingOf(accounts[k], tenant) ==> w.value <= accounts[k].cooldownUntil.value)
    {
      var waiting := set k | k in accounts && accounts[k].tenant == tenant && Waiting(accounts[k])
                             && accounts[k].cooldownUntil.Some?;
      assert forall k :: k in waiting <==> k in accounts && IsWaitingOf(accounts[k], tenant);
      if waiting == {} {
        assert forall k :: k in accounts && IsWaitingOf(accounts[k], tenant) ==> k in waiting;
        return None;
      }
      var at :| at in waiting;
      var earliest := accounts[at].cooldownUntil.value;
      var rest := waiting - {at};
      while rest != {}
        invariant rest <= waiting && at in waiting && accounts[at].cooldownUntil.value == earliest
        invariant forall k :: k in waiting && k !in rest ==> earliest <= accounts[k].cooldownUntil.value
        decreases |rest|
      {
        var k :| k in rest;
        rest := rest - {k};
        if accounts[k].cooldownUntil.value < earliest {
          earliest, at := accounts[k].cooldownUntil.value, k;
        }
      }
      return Some(earliest);
    }

    method Lease(id: string, agent: string) returns (known: bool)
      modifies this
      ensures known == (id in old(accounts))
      ensures State() == if known then WithLease(old(State()), id, agent) else old(State())
      ensures known ==>
                accounts == old(accounts)[id := old(accounts)[id].(status := Leased)] && leases == old(leases)[id := agent]
    {
      if id !in accounts {
        return false;
      }
      leases := leases[id := agent];
      accounts := accounts[id := accounts[id].(status := Leased)];
      return true;
    }

    method Release(id: string) returns (known: bool)
      modifies this
      ensures known == (id in old(accounts))
      ensures State() == if known then WithoutLease(old(State()), id) else old(State())
      ensures known ==>
                && leases == old(leases) - {id} && accounts.Keys == old(accounts).Keys
                && accounts[id].status == (if old(accounts)[id].status == Leased then Available else old(accounts)[id].status)
                && accounts == old(accounts)[id := old(accounts)[id].(status := accounts[id].status)]
    {
      if id !in accounts {
        return false;
      }
      leases := leases - {id};
      assert accounts == accounts[id := accounts[id]];
      if accounts[id].status == Leased {
        accounts := accounts[id := accounts[id].(status := Available)];
      }
      return true;
    }

    method MarkExhausted(id: string, cooldown: Option<real>, now: real) returns (known: bool)
      modifies this
      ensures known == (id in old(accounts))
      ensures State() == if known then WithExhausted(old(State()), id, cooldown, now) else old(State())
      ensures known ==>
                && leases == old(leases) - {id} && accounts.Keys == old(accounts).Keys
                && accounts[id].cooldownUntil.Some?
                && (cooldown.Some? ==> accounts[id].cooldownUntil == cooldown)
                && (cooldown == None ==> accounts[id].cooldownUntil.value - now == accounts[id].windowSeconds as real)
                && accounts == old(accounts)[id := old(accounts)[id].(status := Exhausted, cooldownUntil := accounts[id].cooldownUntil)]
    {
      if id !in accounts {
        return false;
      }
      var a := accounts[id];
      var until := if cooldown.Some? then cooldown.value else now + a.windowSeconds as real;
      accounts := accounts[id := a.(status := Exhausted, cooldownUntil := Some(until))];
      leases := leases - {id};
      return true;
    }

    method MarkDegraded(id: string, reason: string) returns (known: bool)
      modifies this
      ensures known == (id in old(accounts))
      ensures State() == if known then WithDegraded(old(State()), {id}, reason) else old(State())
      ensures known ==>
                && leases == old(leases) - {id}
                && accounts == old(accounts)[id := old(accounts)[id].(status := Degraded, lastError := Some(reason))]
    {
      if id !in accounts {
        return false;
      }
      accounts := accounts[id := accounts[id].(status := Degraded, lastError := Some(reason))];
      leases := leases - {id};
      return true;
    }

    method RefreshWindows(now: real)
      modifies this
      ensures State() == WithRefreshed(old(State()), now)
      ensures leases == old(leases) && accounts.Keys == old(accounts).Keys
      ensures forall k :: k in accounts ==>
                var a := old(accounts)[k];
                accounts[k] ==
                  if (a.status == Exhausted || a.status == Cooldown) && a.cooldownUntil.Some? && a.cooldownUntil.value <= now
                  then a.(status := Available, cooldownUntil := None, windowStart := Some(now), tokensUsed := 0)
                  else a
    {
      var rest := accounts.Keys;
      while rest != {}
        invariant leases == old(leases)
        invariant accounts.Keys == old(accounts).Keys && rest <= accounts.Keys
        invariant forall k :: k in accounts ==>
                    accounts[k] == if k in rest then old(accounts)[k] else WithRefreshed(old(State()), now).accounts[k]
        decreases |rest|
      {
        var k :| k in rest;
        rest := rest - {k};
        if CooledDown(accounts[k], now) {
          accounts := accounts[k := Renewed(accounts[k], now)];
        }
      }
      assert accounts == WithRefreshed(old(State()), now).accounts;
    }
  }
}
