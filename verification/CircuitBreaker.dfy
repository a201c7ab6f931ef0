/**
 The LLM router's circuit breakers and its fallback chain. A node of a chain is visited once: the breaker
 is asked at one clock reading, and a failure is recorded at a later one.
 */
module CircuitBreaker {
  import opened Options

  datatype Breaker = Breaker(failures: int, threshold: int, timeout: real, lastFailure: Option<real>)

  /** One visit to a provider: when it is asked for, whether a call succeeds, and when a failure is noticed. */
  datatype Visit = Visit(at: real, ok: bool, failedAt: real)

  /** A breaker as constructed, or one whose trips have a time. */
  ghost predicate Usable(b: Breaker) {
    b.threshold >= 1 && (b.failures >= b.threshold ==> b.lastFailure.Some?)
  }

  predicate Tripped(b: Breaker) {
    b.failures >= b.threshold
  }

  predicate IsOpen(b: Breaker, now: real)
    requires Tripped(b) ==> b.lastFailure.Some?
  {
    Tripped(b) && now - b.lastFailure.value <= b.timeout
  }

  /** The breaker after one visit. Asking a tripped breaker after its timeout leaves it one failure short of tripping. */
  function After(b: Breaker, v: Visit): (b': Breaker)
    requires Tripped(b) ==> b.lastFailure.Some?
  {
    if IsOpen(b, v.at) then b
    else if v.ok then b.(failures := 0)
    else b.(failures := (if Tripped(b) then b.threshold - 1 else b.failures) + 1, lastFailure := Some(v.failedAt))
  }

  class Switch {
    var failures: int
    const threshold: int
    const timeout: real
    var lastFailure: Option<real>

    ghost function State(): Breaker
      reads this
    {
      Breaker(failures, threshold, timeout, lastFailure)
    }

    constructor (threshold: int, timeout: real)
      ensures State() == Breaker(0, threshold, timeout, None)
    {
      this.threshold, this.timeout := threshold, timeout;
      failures, lastFailure := 0, None;
    }

    method AskOpen(now: real) returns (open: bool)
      requires Usable(State())
      modifies this`failures
      ensures open == IsOpen(old(State()), now)
      ensures failures == if Tripped(old(State())) && !open then threshold - 1 else old(failures)
    {
      if failures >= threshold {
        if now - lastFailure.value > timeout {
          failures := threshold - 1;
          return false;
        }
        return true;
      }
      return false;
    }

    method RecordFailure(now: real)
      modifies this
      ensures State() == old(State()).(failures := old(failures) + 1, lastFailure := Some(now))
    {
      failures := failures + 1;
      lastFailure := Some(now);
    }

    method RecordSuccess()
      modifies this`failures
      ensures failures == 0
    {
      failures := 0;
    }

    /** A whole visit, as the router makes it. */
    method DoVisit(v: Visit) returns (called: bool)
      requires Usable(State())
      modifies this
      ensures State() == After(old(State()), v) && Usable(State())
      ensures called == !IsOpen(old(State()), v.at)
    {
      var open := AskOpen(v.at);
      if open {
        return false;
      }
      if v.ok {
        RecordSuccess();
      } else {
        RecordFailure(v.failedAt);
      }
      return true;
    }
  }

  // ---- runs of visits to one provider -------------------------------------------------------------

  function AfterAll(b: Breaker, vs: seq<Visit>): (b': Breaker)
    requires Usable(b)
    ensures Usable(b') && b'.threshold == b.threshold && b'.timeout == b.timeout
  {
    if vs == [] then b else After(AfterAll(b, vs[..|vs| - 1]), vs[|vs| - 1])
  }

  /** The visits at which the provider was really called. */
  function Calls(b: Breaker, vs: seq<Visit>): seq<Visit>
    requires Usable(b)
  {
    if vs == [] then [] else
      var front, last := vs[..|vs| - 1], vs[|vs| - 1];
      if IsOpen(AfterAll(b, front), last.at) then Calls(b, front) else Calls(b, front) + [last]
  }

  /** How many of the latest calls failed in a row. */
  function Streak(calls: seq<Visit>): (n: nat)
    ensures n <= |calls|
  {
    if calls == [] || calls[|calls| - 1].ok then 0 else 1 + Streak(calls[..|calls| - 1])
  }

  function Fresh(threshold: int, timeout: real): Breaker {
    Breaker(0, threshold, timeout, None)
  }

  /** The counter is the streak of failed calls, cut off at the threshold; so it stays within [0, threshold]. */
  lemma {:induction false} CounterIsStreak(threshold: int, timeout: real, vs: seq<Visit>)
    requires threshold >= 1
    ensures var b := AfterAll(Fresh(threshold, timeout), vs);
            var calls := Calls(Fresh(threshold, timeout), vs);
            && b.failures == (if Streak(calls) < threshold then Streak(calls) else threshold)
            && (Streak(calls) > 0 ==> b.lastFailure == Some(calls[|calls| - 1].failedAt))
    decreases |vs|
  {
    if vs != [] {
      var front, last := vs[..|vs| - 1], vs[|vs| - 1];
      CounterIsStreak(threshold, timeout, front);
      var before := Calls(Fresh(threshold, timeout), front);
      assert (before + [last])[..|before|] == before;
    }
  }

  /**
   What the breaker decides, from the calls alone: a visit is turned away exactly when the last `threshold`
   calls all failed and the timeout since the latest failure has not passed.
   */
  lemma TurnedAwayIff(threshold: int, timeout: real, vs: seq<Visit>, at: real)
    requires threshold >= 1
    ensures var calls := Calls(Fresh(threshold, timeout), vs);
            IsOpen(AfterAll(Fresh(threshold, timeout), vs), at)
            <==> Streak(calls) >= threshold && at - calls[|calls| - 1].failedAt <= timeout
  {
    CounterIsStreak(threshold, timeout, vs);
  }

  ghost predicate AllFailed(calls: seq<Visit>, lo: nat, hi: nat)
    requires lo <= hi <= |calls|
  {
    forall i :: lo <= i < hi ==> !calls[i].ok
  }

  lemma {:induction false} StreakCovers(calls: seq<Visit>, n: nat)
    requires n <= |calls|
    ensures Streak(calls) >= n <==> AllFailed(calls, |calls| - n, |calls|)
    decreases n
  {
    if n > 0 {
      var front := calls[..|calls| - 1];
      StreakCovers(front, n - 1);
      if Streak(calls) >= n {
        assert AllFailed(front, |front| - (n - 1), |front|);
      }
      if AllFailed(calls, |calls| - n, |calls|) {
        assert !calls[|calls| - 1].ok;
        assert AllFailed(front, |front| - (n - 1), |front|);
      }
    }
  }

  /**
   Over any run: after `threshold` failed calls in a row the provider is not called again until more than
   the recovery timeout has passed since the last of them; a single failed probe then starts the next wait.
   */
  lemma {:induction false} NoCallWhileTripped(threshold: nat, timeout: real, vs: seq<Visit>, i: nat)
    requires threshold >= 1 && threshold <= i < |Calls(Fresh(threshold, timeout), vs)|
    requires AllFailed(Calls(Fresh(threshold, timeout), vs), i - threshold, i)
    ensures var calls := Calls(Fresh(threshold, timeout), vs);
            calls[i].at - calls[i - 1].failedAt > timeout
    decreases |vs|
  {
    var b := Fresh(threshold, timeout);
    var front, last := vs[..|vs| - 1], vs[|vs| - 1];
    var before := Calls(b, front);
    assert forall j :: 0 <= j < |before| ==> before[j] == Calls(b, vs)[j];
    if i < |before| {
      NoCallWhileTripped(threshold, timeout, front, i);
    } else {
      StreakCovers(before, threshold);
      TurnedAwayIff(threshold, timeout, front, last.at);
    }
  }

  // ---- the fallback chain -------------------------------------------------------------------------

  datatype Node = Node(provider: string, model: string)

  datatype Strategy = CostOptimized | LatencyOptimized | QualityOptimized | RoundRobin

  /** The strategy a request names; any other name stands for the cheapest. */
  function StrategyOf(name: string): Strategy {
    if name == "latency_optimized" then LatencyOptimized
    else if name == "quality_optimized" then QualityOptimized
    else if name == "round_robin" then RoundRobin
    else CostOptimized
  }

  const PROVIDERS: seq<string> := ["openai", "anthropic", "ollama_local"]

  /** The chain of a request, given how many round-robin requests came before. */
  function Chain(strategy: Strategy, turn: nat): seq<Node> {
    match strategy
    case CostOptimized =>
      [Node("ollama_local", "llama3"), Node("anthropic", "claude-3-haiku"), Node("openai", "gpt-3.5-turbo")]
    case LatencyOptimized =>
      [Node("openai", "gpt-4o-mini"), Node("anthropic", "claude-3-haiku"), Node("ollama_local", "llama3")]
    case QualityOptimized =>
      [Node("openai", "gpt-4o"), Node("anthropic", "claude-3-opus"), Node("openai", "gpt-4-turbo")]
    case RoundRobin =>
      [Node(PROVIDERS[turn % |PROVIDERS|], "default_model")]
  }

  type Breakers = map<string, Breaker>

  /** How each node of a chain is visited; the source's clock readings and the providers' answers. */
  type Environment = nat -> Visit

  ghost predicate AllUsable(bs: Breakers) {
    forall p :: p in bs ==> Usable(bs[p])
  }

  /** Whether node `k` of the chain is skipped because its breaker is open. */
  predicate Skips(bs: Breakers, chain: seq<Node>, env: Environment, k: nat)
    requires k < |chain| && forall p :: p in bs ==> (Tripped(bs[p]) ==> bs[p].lastFailure.Some?)
  {
    var p := chain[k].provider;
    p in bs && IsOpen(bs[p], env(k).at)
  }

  /** The breakers after visiting the first `k` nodes. */
  function Reached(bs: Breakers, chain: seq<Node>, env: Environment, k: nat): (r: Breakers)
    requires k <= |chain| && AllUsable(bs)
    ensures AllUsable(r) && r.Keys == bs.Keys
  {
    if k == 0 then bs else
      var before := Reached(bs, chain, env, k - 1);
      var p := chain[k - 1].provider;
      if p in before then before[p := After(before[p], env(k - 1))] else before
  }

  /** Node `k` answers: its breaker lets the call through and the call succeeds. */
  predicate Answers(bs: Breakers, chain: seq<Node>, env: Environment, k: nat)
    requires k < |chain| && AllUsable(bs)
  {
    !Skips(Reached(bs, chain, env, k), chain, env, k) && env(k).ok
  }

  /** What visiting one more node changes. */
  lemma AfterNode(bs: Breakers, chain: seq<Node>, env: Environment, k: nat)
    requires k < |chain| && AllUsable(bs)
    ensures var before, p := Reached(bs, chain, env, k), chain[k].provider;
            && Reached(bs, chain, env, k + 1) == (if p in before then before[p := After(before[p], env(k))] else before)
            && (Answers(bs, chain, env, k) <==> !(p in before && IsOpen(before[p], env(k).at)) && env(k).ok)
  {
  }

  /** The answer is the first node that answers, and the breakers have seen exactly the nodes up to it. */
  ghost predicate Routed(bs: Breakers, chain: seq<Node>, env: Environment, answer: Option<nat>, bs': Breakers)
    requires AllUsable(bs)
  {
    var visited := if answer.Some? then answer.value + 1 else |chain|;
    && visited <= |chain|
    && bs' == Reached(bs, chain, env, visited)
    && (answer.Some? ==> Answers(bs, chain, env, answer.value))
    && forall j :: 0 <= j < |chain| && (answer.Some? ==> j < answer.value) ==> !Answers(bs, chain, env, j)
  }

  /** Four names with an object each: distinct objects have distinct names. */
  lemma FourNames<T>(m: map<string, T>, a: T, b: T, c: T, d: T)
    requires m == map["openai" := a, "anthropic" := b, "ollama_local" := c, "broken_provider" := d]
    requires a != b && a != c && a != d && b != c && b != d && c != d
    ensures forall p, q :: p in m && q in m && m[p] == m[q] ==> p == q
    ensures m.Values == {a, b, c, d}
  {
    assert |"openai"| == 6 && |"anthropic"| == 9 && |"ollama_local"| == 12 && |"broken_provider"| == 15;
    assert m["openai"] == a && m["anthropic"] == b && m["ollama_local"] == c && m["broken_provider"] == d;
  }

  class Router {
    const breakers: map<string, Switch>
    var turn: nat

    ghost function States(): Breakers
      reads breakers.Values
    {
      map p | p in breakers :: breakers[p].State()
    }

    /** Every provider has a breaker of its own, in a usable state. */
    ghost predicate Valid()
      reads breakers.Values
    {
      && (forall p, q :: p in breakers && q in breakers && breakers[p] == breakers[q] ==> p == q)
      && AllUsable(States())
    }

    constructor ()
      ensures Valid() && turn == 0 && fresh(breakers.Values)
      ensures breakers.Keys == {"openai", "anthropic", "ollama_local", "broken_provider"}
      ensures forall p :: p in breakers ==>
                breakers[p].State() == Breaker(0, if p == "broken_provider" then 1 else 3, 60.0, None)
    {
      var openai := new Switch(3, 60.0);
      var anthropic := new Switch(3, 60.0);
      var ollama := new Switch(3, 60.0);
      var broken := new Switch(1, 60.0);
      breakers := map["openai" := openai, "anthropic" := anthropic, "ollama_local" := ollama, "broken_provider" := broken];
      turn := 0;
      new;
      FourNames(breakers, openai, anthropic, ollama, broken);
      assert forall p :: p in breakers ==> Usable(breakers[p].State());
    }

    method DetermineRoutingChain(name: string) returns (chain: seq<Node>)
      modifies this`turn
      ensures chain == Chain(StrategyOf(name), old(turn))
      ensures chain ==
              if name == "latency_optimized" then
                [Node("openai", "gpt-4o-mini"), Node("anthropic", "claude-3-haiku"), Node("ollama_local", "llama3")]
              else if name == "quality_optimized" then
                [Node("openai", "gpt-4o"), Node("anthropic", "claude-3-opus"), Node("openai", "gpt-4-turbo")]
              else if name == "round_robin" then
                [Node(["openai", "anthropic", "ollama_local"][old(turn) % 3], "default_model")]
              else
                [Node("ollama_local", "llama3"), Node("anthropic", "claude-3-haiku"), Node("openai", "gpt-3.5-turbo")]
      ensures turn == if name == "round_robin" then old(turn) + 1 else old(turn)
    {
      var strategy := StrategyOf(name);
      chain := Chain(strategy, turn);
      if strategy == RoundRobin {
        turn := turn + 1;
      }
    }

    /** The first node that answers, None standing for the error when no node does. */
    method RouteRequest(name: string, env: Environment) returns (answer: Option<nat>)
      requires Valid()
      modifies this`turn, breakers.Values
      ensures Valid() && turn == if name == "round_robin" then old(turn) + 1 else old(turn)
      ensures Routed(old(States()), Chain(StrategyOf(name), old(turn)), env, answer, States())
    {
      var chain := DetermineRoutingChain(name);
      answer := VisitChain(chain, env);
    }

    /** A node is called unless its provider has a breaker that is open; a provider without one always is. */
    method VisitNode(p: string, v: Visit) returns (called: bool)
      requires Valid()
      modifies breakers.Values
      ensures Valid()
      ensures called == !(p in breakers && IsOpen(old(States())[p], v.at))
      ensures States() == if p in breakers then old(States())[p := After(old(States())[p], v)] else old(States())
    {
      if p !in breakers {
        return true;
      }
      assert States()[p] == breakers[p].State();
      called := breakers[p].DoVisit(v);
      forall q | q in breakers && q != p ensures breakers[q].State() == old(States())[q] {
        assert breakers[q] != breakers[p];
      }
      assert States() == old(States())[p := After(old(States())[p], v)];
    }

    method VisitChain(chain: seq<Node>, env: Environment) returns (answer: Option<nat>)
      requires Valid()
      modifies breakers.Values
      ensures Valid()
      ensures Routed(old(States()), chain, env, answer, States())
    {
      ghost var entry := States();
      var k := 0;
      while k < |chain|
        invariant k <= |chain| && Valid()
        invariant States() == Reached(entry, chain, env, k)
        invariant forall j :: 0 <= j < k ==> !Answers(entry, chain, env, j)
      {
        var v := env(k);
        AfterNode(entry, chain, env, k);
        var called := VisitNode(chain[k].provider, v);
        if called && v.ok {
          return Some(k);
        }
        k := k + 1;
      }
      return None;
    }
  }

  // ---- runs of requests ---------------------------------------------------------------------------

  /** A request as far as the breakers are concerned: the nodes it visited and how. */
  datatype Request = Request(chain: seq<Node>, env: Environment, visited: nat)

  ghost predicate WellFormed(rs: seq<Request>) {
    forall i :: 0 <= i < |rs| ==> rs[i].visited <= |rs[i].chain|
  }

  function AfterRequests(bs: Breakers, rs: seq<Request>): (r: Breakers)
    requires AllUsable(bs) && WellFormed(rs)
    ensures AllUsable(r) && r.Keys == bs.Keys
  {
    if rs == [] then bs else
      var last := rs[|rs| - 1];
      Reached(AfterRequests(bs, rs[..|rs| - 1]), last.chain, last.env, last.visited)
  }

  function VisitsIn(chain: seq<Node>, env: Environment, k: nat, p: string): seq<Visit>
    requires k <= |chain|
  {
    if k == 0 then []
    else if chain[k - 1].provider == p then VisitsIn(chain, env, k - 1, p) + [env(k - 1)]
    else VisitsIn(chain, env, k - 1, p)
  }

  /** All visits to one provider, over all requests. */
  function VisitsTo(rs: seq<Request>, p: string): seq<Visit>
    requires WellFormed(rs)
  {
    if rs == [] then [] else
      var last := rs[|rs| - 1];
      VisitsTo(rs[..|rs| - 1], p) + VisitsIn(last.chain, last.env, last.visited, p)
  }

  lemma {:induction false} ReachedIsPerProvider(bs: Breakers, start: Breakers, past: seq<Visit>,
                                                chain: seq<Node>, env: Environment, k: nat, p: string)
    requires AllUsable(bs) && AllUsable(start) && p in bs && p in start && k <= |chain|
    requires bs[p] == AfterAll(start[p], past)
    ensures Reached(bs, chain, env, k)[p] == AfterAll(start[p], past + VisitsIn(chain, env, k, p))
    decreases k
  {
    if k == 0 {
      assert past + [] == past;
    } else {
      ReachedIsPerProvider(bs, start, past, chain, env, k - 1, p);
      if chain[k - 1].provider == p {
        var all := past + VisitsIn(chain, env, k - 1, p);
        assert past + VisitsIn(chain, env, k, p) == all + [env(k - 1)];
        assert (all + [env(k - 1)])[..|all|] == all;
      }
    }
  }

  /** Whatever requests are routed, a provider's breaker only ever reflects the visits to that provider. */
  lemma {:induction false} BreakersAreIndependent(bs: Breakers, rs: seq<Request>, p: string)
    requires AllUsable(bs) && WellFormed(rs) && p in bs
    ensures AfterRequests(bs, rs)[p] == AfterAll(bs[p], VisitsTo(rs, p))
    decreases |rs|
  {
    if rs != [] {
      var front, last := rs[..|rs| - 1], rs[|rs| - 1];
      BreakersAreIndependent(bs, front, p);
      ReachedIsPerProvider(AfterRequests(bs, front), bs, VisitsTo(front, p), last.chain, last.env, last.visited, p);
    }
  }

  /**
   What a fresh breaker promises over any requests, whichever providers they try: the failures of its
   provider stay within [0, threshold], and after `threshold` failed calls in a row the provider is not
   called before the timeout has passed.
   */
  lemma RoutingProtectsProviders(bs: Breakers, rs: seq<Request>, p: string, threshold: nat, timeout: real)
    requires AllUsable(bs) && WellFormed(rs) && p in bs && bs[p] == Fresh(threshold, timeout) && threshold >= 1
    ensures 0 <= AfterRequests(bs, rs)[p].failures <= threshold
    ensures var calls := Calls(Fresh(threshold, timeout), VisitsTo(rs, p));
            forall i: nat :: threshold <= i < |calls| && AllFailed(calls, i - threshold, i) ==>
              calls[i].at - calls[i - 1].failedAt > timeout
  {
    BreakersAreIndependent(bs, rs, p);
    var visits := VisitsTo(rs, p);
    CounterIsStreak(threshold, timeout, visits);
    var calls := Calls(Fresh(threshold, timeout), visits);
    forall i: nat | threshold <= i < |calls| && AllFailed(calls, i - threshold, i)
      ensures calls[i].at - calls[i - 1].failedAt > timeout
    {
      NoCallWhileTripped(threshold, timeout, visits, i);
    }
  }

  predicate TargetsAfter(turn: nat, i: nat, p: string) {
    Chain(RoundRobin, turn + i) == [Node(p, "default_model")]
  }

  /** Round robin turns to every provider within any three consecutive turns. */
  lemma RoundRobinCycles(turn: nat, p: string)
    requires p in PROVIDERS
    ensures exists i :: 0 <= i < 3 && TargetsAfter(turn, i, p)
  {
    var k :| 0 <= k < 3 && PROVIDERS[k] == p;
    var i := (k - turn) % 3;
    assert (turn + i) % 3 == k;
    assert TargetsAfter(turn, i, p);
  }
}
