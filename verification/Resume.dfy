/**
 Dispatching a task and resuming it on another account when its account runs out: the event stream that
 `collect_events` returns, over the rotation service. The runs of the executor, the exhaustion detector,
 the clock and the logins are parameters; recording costs has no effect on the stream.
 */
module Resume {
  import opened Numbers
  import opened Options
  import opened AccountPool
  import opened Rotation
  import opened RotationGuarantees
  import opened Executors

  datatype Task = Task(id: string, tenant: string, agent: string, account: Option<string>)

  /** An exhaustion signal, with the vendor and the reset time it names, if any. */
  datatype Signal = Signal(vendor: Option<string>, reset: Option<real>)

  datatype Item = Emitted(event: Event) | Marker(outcome: Outcome)

  /** `run(k, account)` are the events of the k-th dispatch; `now(k)` and `login(k)` belong to the k-th rotation. */
  datatype World = World(
    run: (nat, string) -> seq<Event>,
    detect: Event -> Option<Signal>,
    now: nat -> real,
    login: nat -> LoginOf)

  /** The first signal in the events of a dispatch, from position i on. */
  function FirstSignal(w: World, events: seq<Event>, i: nat): Option<Signal>
    requires i <= |events|
    decreases |events| - i
  {
    if i == |events| then None
    else if w.detect(events[i]).Some? then w.detect(events[i])
    else FirstSignal(w, events, i + 1)
  }

  function SignalOf(w: World, k: nat, account: string): Option<Signal> {
    FirstSignal(w, w.run(k, account), 0)
  }

  /** A signal without a vendor, or with an empty one, leaves the choice of vendor open. */
  function RequestOf(t: Task, w: World, k: nat, account: string, s: Signal): Request {
    Request(t.agent, t.tenant, account, t.id, s.reset, if s.vendor == Some("") then None else s.vendor, w.now(k))
  }

  /** A rotation that names the account to go on with. */
  predicate Moves(o: Outcome) {
    o.Rotated? && o.to != ""
  }

  /** The outcomes that are exceptions: no marker is recorded for them. */
  predicate IsRaised(o: Outcome) {
    o.UnknownAccount? || o.Unimplemented?
  }

  /** What happened: the account of each dispatch, the marker after it, and the service before each rotation. */
  datatype History = History(accounts: seq<string>, markers: seq<Outcome>, states: seq<Service>)

  /** The k-th dispatch was exhausted, and rotating away from its account had the k-th marker for its outcome. */
  ghost predicate IsRound(t: Task, w: World, h: History, k: nat)
    requires k < |h.markers| && k < |h.accounts| && k + 1 < |h.states|
  {
    var signal := SignalOf(w, k, h.accounts[k]);
    && signal.Some?
    && Rotates(h.states[k], RequestOf(t, w, k, h.accounts[k], signal.value), w.login(k), h.states[k + 1], h.markers[k])
    && !IsRaised(h.markers[k])
  }

  ghost predicate Shaped(h: History) {
    && |h.states| == |h.markers| + 1
    && |h.markers| <= |h.accounts| <= |h.markers| + 1
  }

  /** The dispatch after the k-th marker runs on the account that the marker moved to. */
  ghost predicate Follows(h: History, k: nat)
    requires k < |h.markers| && k + 1 < |h.accounts|
  {
    Moves(h.markers[k]) && h.accounts[k + 1] == h.markers[k].to
  }

  ghost predicate IsHistory(t: Task, w: World, h: History) {
    && Shaped(h)
    && (forall k :: 0 <= k < |h.markers| ==> IsRound(t, w, h, k))
    && forall k :: 0 <= k < |h.accounts| - 1 ==> Follows(h, k)
  }

  /** The first n dispatches, each followed by its marker. */
  function Stream(w: World, accounts: seq<string>, markers: seq<Outcome>, n: nat): seq<Item>
    requires n <= |accounts|
  {
    if n == 0 then [] else
      Stream(w, accounts, markers, n - 1) + Items(w.run(n - 1, accounts[n - 1]))
      + if n - 1 < |markers| then [Marker(markers[n - 1])] else []
  }

  function Items(events: seq<Event>): seq<Item> {
    seq(|events|, i requires 0 <= i < |events| => Emitted(events[i]))
  }

  /** Why there was no further dispatch; `final` is the service at the end. */
  ghost predicate Ended(t: Task, w: World, h: History, window: int, final: Service)
    requires Shaped(h) && h.accounts != []
  {
    var n := |h.markers|;
    if n == |h.accounts| then
      !Moves(h.markers[n - 1]) && final == h.states[n]
    else
      var signal := SignalOf(w, n, h.accounts[n]);
      if signal == None || n == Max(1, window) then final == h.states[n] else
        exists o :: IsRaised(o)
                    && Rotates(h.states[n], RequestOf(t, w, n, h.accounts[n], signal.value), w.login(n), final, o)
  }

  lemma {:induction false} StreamOfPrefix(w: World, h: History, g: History, n: nat)
    requires n <= |h.accounts| <= |g.accounts| && h.accounts == g.accounts[..|h.accounts|]
    requires n <= |h.markers| <= |g.markers| && h.markers == g.markers[..|h.markers|]
    ensures Stream(w, h.accounts, h.markers, n) == Stream(w, g.accounts, g.markers, n)
    decreases n
  {
    if n > 0 {
      StreamOfPrefix(w, h, g, n - 1);
    }
  }

  function WithMarker(h: History, o: Outcome, s: Service): History {
    h.(markers := h.markers + [o], states := h.states + [s])
  }

  function WithDispatch(h: History, account: string): History {
    h.(accounts := h.accounts + [account])
  }

  lemma MarkerExtends(t: Task, w: World, h: History, o: Outcome, s: Service)
    requires IsHistory(t, w, h) && |h.accounts| == |h.markers| + 1
    requires IsRound(t, w, WithMarker(h, o, s), |h.markers|)
    ensures IsHistory(t, w, WithMarker(h, o, s)) && WithMarker(h, o, s).states[0] == h.states[0]
    ensures Stream(w, h.accounts, h.markers + [o], |h.accounts|) == Stream(w, h.accounts, h.markers, |h.accounts|) + [Marker(o)]
  {
    var g := WithMarker(h, o, s);
    forall k | 0 <= k < |g.markers| ensures IsRound(t, w, g, k) {
      if k < |h.markers| {
        RoundStays(t, w, h, g, k);
      }
    }
    forall k | 0 <= k < |g.accounts| - 1 ensures Follows(g, k) {
      assert Follows(h, k);
    }
    StreamOfPrefix(w, h, g, |h.markers|);
  }

  lemma RoundStays(t: Task, w: World, h: History, g: History, k: nat)
    requires Shaped(h) && k < |h.markers| && k < |h.accounts| && IsRound(t, w, h, k)
    requires h.accounts <= g.accounts && h.markers <= g.markers && h.states <= g.states
    ensures IsRound(t, w, g, k)
  {
    assert h.accounts[k] == g.accounts[k] && h.markers[k] == g.markers[k];
    assert h.states[k] == g.states[k] && h.states[k + 1] == g.states[k + 1];
  }

  lemma DispatchExtends(t: Task, w: World, h: History)
    requires IsHistory(t, w, h) && |h.accounts| == |h.markers| > 0 && Moves(h.markers[|h.markers| - 1])
    ensures var n := |h.markers|;
            var to := h.markers[n - 1].to;
            && IsHistory(t, w, WithDispatch(h, to))
            && WithDispatch(h, to).accounts[0] == h.accounts[0] && WithDispatch(h, to).accounts[n] == to
            && Stream(w, h.accounts + [to], h.markers, n + 1) == Stream(w, h.accounts, h.markers, n) + Items(w.run(n, to))
  {
    var n := |h.markers|;
    var to := h.markers[n - 1].to;
    var g := WithDispatch(h, to);
    forall k | 0 <= k < |g.markers| ensures IsRound(t, w, g, k) {
      RoundStays(t, w, h, g, k);
    }
    forall k | 0 <= k < |g.accounts| - 1 ensures Follows(g, k) {
      assert k < n - 1 ==> Follows(h, k);
    }
    StreamOfPrefix(w, h, g, n);
  }

  lemma RotationKeepsKeys(s: Service, r: Request, login: LoginOf, s': Service, o: Outcome)
    requires WellKeyed(s.pool) && Rotates(s, r, login, s', o)
    ensures WellKeyed(s'.pool)
  {
    if Proceeds(s, r) && !o.Parked? {
      var a := EndOfSearch(s, r, login, s', o);
    }
  }

  /** Dispatching with rotation off is one dispatch. */
  method CollectEvents(t: Task, service: RotationService?, window: int, w: World)
    returns (items: seq<Item>, ghost h: History)
    requires service != null ==> WellKeyed(service.State().pool)
    modifies service, if service == null then {} else {service.registry}
    ensures service == null || t.account == None || t.account.value == "" ==>
              items == Items(w.run(0, if t.account.Some? then t.account.value else ""))
              && (service != null ==> service.State() == old(service.State()))
    ensures service != null && t.account.Some? && t.account.value != "" ==>
              && IsHistory(t, w, h) && h.accounts != [] && h.accounts[0] == t.account.value
              && h.states[0] == old(service.State()) && |h.markers| <= Max(1, window)
              && items == Stream(w, h.accounts, h.markers, |h.accounts|)
              && Ended(t, w, h, window, service.State())
  {
    var account := if t.account.Some? then t.account.value else "";
    items := Items(w.run(0, account));
    if service == null || account == "" {
      h := History([], [], []);
      return;
    }
    items, h := ResumeLoop(t, service, window, w, account, items);
  }

  /** One rotation, away from the account of the last dispatch. */
  method AttemptRotation(t: Task, service: RotationService, window: int, w: World, k: nat, account: string,
                         signal: Signal, ghost h: History) returns (o: Outcome)
    requires WellKeyed(service.State().pool)
    requires IsHistory(t, w, h) && |h.accounts| == |h.markers| + 1 == k + 1 && k < Max(1, window)
    requires h.accounts[k] == account && h.states[k] == service.State() && SignalOf(w, k, account) == Some(signal)
    modifies service, service.registry
    ensures WellKeyed(service.State().pool)
    ensures IsRaised(o) ==> Ended(t, w, h, window, service.State())
    ensures !IsRaised(o) ==>
              && IsHistory(t, w, WithMarker(h, o, service.State()))
              && WithMarker(h, o, service.State()).states[0] == h.states[0]
              && WithMarker(h, o, service.State()).states[k + 1] == service.State()
              && Stream(w, h.accounts, h.markers + [o], k + 1) == Stream(w, h.accounts, h.markers, k + 1) + [Marker(o)]
  {
    o := service.OnExhaustion(RequestOf(t, w, k, account, signal), w.login(k));
    RotationKeepsKeys(h.states[k], RequestOf(t, w, k, account, signal), w.login(k), service.State(), o);
    if !IsRaised(o) {
      MarkerExtends(t, w, h, o, service.State());
    }
  }

  method ResumeLoop(t: Task, service: RotationService, window: int, w: World, first: string, before: seq<Item>)
    returns (items: seq<Item>, ghost h: History)
    requires WellKeyed(service.State().pool) && before == Items(w.run(0, first))
    modifies service, service.registry
    ensures IsHistory(t, w, h) && h.accounts != [] && h.accounts[0] == first
    ensures h.states[0] == old(service.State()) && |h.markers| <= Max(1, window)
    ensures items == Stream(w, h.accounts, h.markers, |h.accounts|)
    ensures Ended(t, w, h, window, service.State())
  {
    items := before;
    h := History([first], [], [service.State()]);
    assert Stream(w, [first], [], 0) == [];
    var account := first;
    var signal := SignalOf(w, 0, account);
    var attempts, maxResumes := 0, Max(1, window);
    while signal.Some? && attempts < maxResumes
      invariant IsHistory(t, w, h) && |h.markers| == attempts <= maxResumes
      invariant |h.accounts| == attempts + 1 && h.accounts[0] == first && h.accounts[attempts] == account
      invariant h.states[0] == old(service.State()) && h.states[attempts] == service.State()
      invariant WellKeyed(service.State().pool)
      invariant items == Stream(w, h.accounts, h.markers, |h.accounts|)
      invariant signal == SignalOf(w, attempts, account)
      decreases maxResumes - attempts
    {
      var outcome := AttemptRotation(t, service, window, w, attempts, account, signal.value, h);
      if IsRaised(outcome) {
        return;
      }
      items := items + [Marker(outcome)];
      h := WithMarker(h, outcome, service.State());
      attempts := attempts + 1;
      if !Moves(outcome) {
        return;
      }
      DispatchExtends(t, w, h);
      account := outcome.to;
      items := items + Items(w.run(attempts, account));
      signal := SignalOf(w, attempts, account);
      h := WithDispatch(h, account);
    }
  }
}
