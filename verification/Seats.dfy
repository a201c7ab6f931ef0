/** Reference-counted seats: one queue of free seats for each tenant and vendor, subagents sharing their parent's seat. */
module Seats {
  import opened Options

  datatype Key = Key(tenant: string, vendor: string)

  /** What asking the token provider for a fresh token comes to; `at` is the time of the answer. */
  datatype Refresh = NoProvider | EmptyToken | Token(text: string, at: real)

  class Seat {
    const id: string
    const key: Key
    const tokenLifetime: real
    var refCount: nat
    var leaseExpiry: real
    var token: string

    constructor (id: string, key: Key, tokenLifetime: real, token: string, now: real)
      ensures this.id == id && this.key == key && this.tokenLifetime == tokenLifetime && this.token == token
      ensures refCount == 0 && leaseExpiry == if token != "" then now + tokenLifetime else 0.0
    {
      this.id, this.key, this.tokenLifetime, this.token := id, key, tokenLifetime, token;
      refCount := 0;
      leaseExpiry := if token != "" then now + tokenLifetime else 0.0;
    }

    method RefreshToken(refresh: Refresh) returns (ok: bool)
      modifies this`leaseExpiry, this`token
      ensures ok <==> refresh.Token? && refresh.text != ""
      ensures ok ==> leaseExpiry == refresh.at + tokenLifetime && token == refresh.text
      ensures !ok ==> leaseExpiry == old(leaseExpiry) && token == old(token)
    {
      match refresh
      case NoProvider => return false;
      case EmptyToken => return false;
      case Token(text, at) =>
        if text == "" {
          return false;
        }
        leaseExpiry := at + tokenLifetime;
        token := text;
        return true;
    }

    method Release() returns (free: bool)
      modifies this`refCount
      ensures refCount == Less(old(refCount)) && free == (refCount == 0)
    {
      if refCount > 0 {
        refCount := refCount - 1;
      }
      return refCount == 0;
    }
  }

  function Less(n: nat): nat {
    if n > 0 then n - 1 else 0
  }

  // ---- the pool as a value ------------------------------------------------------------------------

  /** The reference counts of the seats seen so far and the queues of free seats. */
  datatype State = State(refs: map<Seat, nat>, queues: map<Key, seq<Seat>>)

  function Queue(s: State, key: Key): seq<Seat> {
    if key in s.queues then s.queues[key] else []
  }

  function Enqueued(s: State, seat: Seat): State {
    s.(queues := s.queues[seat.key := Queue(s, seat.key) + [seat]])
  }

  /** The queue of the key is made if need be, and its first seat taken. */
  function Acquired(s: State, key: Key): State
    requires Queue(s, key) != [] ==> Queue(s, key)[0] in s.refs
  {
    var q := Queue(s, key);
    if q == [] then s.(queues := s.queues[key := []]) else
      State(s.refs[q[0] := s.refs[q[0]] + 1], s.queues[key := q[1..]])
  }

  function Shared(s: State, seat: Seat): State
    requires seat in s.refs
  {
    if s.refs[seat] == 0 then s else s.(refs := s.refs[seat := s.refs[seat] + 1])
  }

  function Released(s: State, seat: Seat): State
    requires seat in s.refs
  {
    var t := s.(refs := s.refs[seat := Less(s.refs[seat])]);
    if t.refs[seat] > 0 || seat.key !in t.queues then t else Enqueued(t, seat)
  }

  // ---- the pool -------------------------------------------------------------------------------------

  datatype Acquisition = Waits | Holds(seat: Seat) | RefreshFailed(seat: Seat)

  class SeatPool {
    var pools: map<Key, seq<Seat>>
    var allSeats: map<string, Seat>
    ghost var known: set<Seat>

    ghost predicate Valid()
      reads this
    {
      forall key, i :: key in pools && 0 <= i < |pools[key]| ==> pools[key][i] in known
    }

    ghost function Refs(seats: set<Seat>): map<Seat, nat>
      reads seats
    {
      map s | s in seats :: s.refCount
    }

    ghost function View(): State
      reads this, known
    {
      State(Refs(known), pools)
    }

    /** The state with a seat the pool may not have seen. */
    ghost function ViewWith(seat: Seat): State
      reads this, known, seat
    {
      State(Refs(known + {seat}), pools)
    }

    constructor ()
      ensures Valid() && View() == State(map[], map[]) && allSeats == map[]
    {
      pools, allSeats, known := map[], map[], {};
    }

    method RegisterSeat(seat: Seat)
      requires Valid()
      modifies this
      ensures Valid() && View() == Enqueued(old(ViewWith(seat)), seat)
      ensures pools == old(pools)[seat.key := (if seat.key in old(pools) then old(pools)[seat.key] else []) + [seat]]
      ensures allSeats == old(allSeats)[seat.id := seat]
    {
      known := known + {seat};
      if seat.key !in pools {
        pools := pools[seat.key := []];
      }
      pools := pools[seat.key := pools[seat.key] + [seat]];
      allSeats := allSeats[seat.id := seat];
    }

    /** The first free seat of the tenant and vendor. `Waits` is the case in which the source blocks. */
    method Acquire(tenant: string, vendor: string, now: real, refresh: Refresh) returns (r: Acquisition)
      requires Valid()
      modifies this, known
      ensures Valid() && View() == Acquired(old(View()), Key(tenant, vendor))
      ensures known == old(known) && allSeats == old(allSeats)
      ensures var q := Queue(old(View()), Key(tenant, vendor));
              if q == [] then r == Waits else
                && pools == old(pools)[Key(tenant, vendor) := q[1..]] && q[0].refCount == old(q[0].refCount) + 1
                && q[0] in known && (r == Holds(q[0]) || r == RefreshFailed(q[0]))
                && (r.Holds? <==> now < old(q[0].leaseExpiry) || (refresh.Token? && refresh.text != ""))
                && (now < old(q[0].leaseExpiry) ==> q[0].leaseExpiry == old(q[0].leaseExpiry))
                && (now >= old(q[0].leaseExpiry) && r.Holds? ==>
                      q[0].leaseExpiry == refresh.at + q[0].tokenLifetime && q[0].token == refresh.text)
      ensures forall s :: s in known && !(r != Waits && s == r.seat) ==>
                s.leaseExpiry == old(s.leaseExpiry) && s.token == old(s.token)
    {
      var key := Key(tenant, vendor);
      if key !in pools {
        pools := pools[key := []];
      }
      if pools[key] == [] {
        return Waits;
      }
      var seat := pools[key][0];
      pools := pools[key := pools[key][1..]];
      seat.refCount := seat.refCount + 1;
      if now >= seat.leaseExpiry {
        var ok := seat.RefreshToken(refresh);
        if !ok {
          return RefreshFailed(seat);
        }
      }
      return Holds(seat);
    }

    /** False when the source raises because the parent seat is not held. */
    method AcquireSubagent(parent: Seat) returns (ok: bool)
      requires Valid()
      modifies this`known, parent`refCount
      ensures Valid() && View() == Shared(old(ViewWith(parent)), parent)
      ensures ok <==> old(parent.refCount) > 0
      ensures parent.refCount == old(parent.refCount) + if ok then 1 else 0
    {
      known := known + {parent};
      if parent.refCount <= 0 {
        return false;
      }
      parent.refCount := parent.refCount + 1;
      return true;
    }

    /** False when the source raises because no queue was ever made for the seat's tenant and vendor. */
    method Release(seat: Seat) returns (ok: bool)
      requires Valid()
      modifies this, seat`refCount
      ensures Valid() && View() == Released(old(ViewWith(seat)), seat)
      ensures ok <==> old(seat.refCount) > 1 || seat.key in old(pools)
      ensures seat.refCount == if old(seat.refCount) > 0 then old(seat.refCount) - 1 else 0
      ensures pools == if seat.refCount == 0 && ok then old(pools)[seat.key := old(pools)[seat.key] + [seat]] else old(pools)
      ensures allSeats == old(allSeats)
    {
      known := known + {seat};
      var free := seat.Release();
      if free {
        if seat.key !in pools {
          return false;
        }
        pools := pools[seat.key := pools[seat.key] + [seat]];
      }
      return true;
    }
  }

  // ---- what every operation keeps ---------------------------------------------------------------------

  function Copies(s: State, key: Key, seat: Seat): nat {
    multiset(Queue(s, key))[seat]
  }

  /** A free seat is in its own queue exactly once, and a held seat in none. */
  ghost predicate Balanced(s: State) {
    forall seat, key :: seat in s.refs ==> Copies(s, key, seat) == if key == seat.key && s.refs[seat] == 0 then 1 else 0
  }

  /** Every seat has its queue, and only seats are queued. */
  ghost predicate Known(s: State) {
    && (forall seat :: seat in s.refs ==> seat.key in s.queues)
    && (forall key, i :: key in s.queues && 0 <= i < |s.queues[key]| ==> s.queues[key][i] in s.refs)
  }

  ghost predicate Inv(s: State) {
    Balanced(s) && Known(s)
  }

  lemma HeadIsFree(s: State, key: Key)
    requires Inv(s) && Queue(s, key) != []
    ensures var seat := Queue(s, key)[0]; seat in s.refs && s.refs[seat] == 0 && seat.key == key
  {
    assert Copies(s, key, Queue(s, key)[0]) > 0;
  }

  /** The state after a seat with `refs` references is put into its queue. */
  function Added(s: State, seat: Seat, refs: nat): State {
    Enqueued(s.(refs := s.refs[seat := refs]), seat)
  }

  lemma AddedCopies(s: State, seat: Seat, refs: nat, key: Key, x: Seat)
    ensures Copies(Added(s, seat, refs), key, x) == Copies(s, key, x) + if key == seat.key && x == seat then 1 else 0
  {
    assert multiset(Queue(s, seat.key) + [seat]) == multiset(Queue(s, seat.key)) + multiset{seat};
  }

  lemma AddKeepsKnown(s: State, seat: Seat, refs: nat)
    requires Known(s)
    ensures Known(Added(s, seat, refs))
  {
  }

  lemma AddKeepsBalance(s: State, seat: Seat)
    requires Balanced(s) && forall k :: Copies(s, k, seat) == 0
    ensures Balanced(Added(s, seat, 0))
  {
    var t := Added(s, seat, 0);
    forall x, k | x in t.refs ensures Copies(t, k, x) == if k == x.key && t.refs[x] == 0 then 1 else 0 {
      AddedCopies(s, seat, 0, k, x);
    }
  }

  /** Nothing but a free seat that is in no queue may be put into one. */
  lemma AddKeepsInvIff(s: State, seat: Seat, refs: nat)
    requires Inv(s)
    ensures Inv(Added(s, seat, refs)) <==> refs == 0 && (seat in s.refs ==> s.refs[seat] > 0)
  {
    AddedCopies(s, seat, refs, seat.key, seat);
    AddKeepsKnown(s, seat, refs);
    if refs == 0 && (seat in s.refs ==> s.refs[seat] > 0) {
      forall k ensures Copies(s, k, seat) == 0 {
      }
      AddKeepsBalance(s, seat);
    }
  }

  lemma TakenCopies(s: State, key: Key, k: Key, x: Seat)
    requires Queue(s, key) != [] && Queue(s, key)[0] in s.refs
    ensures Copies(s, k, x) == Copies(Acquired(s, key), k, x) + if k == key && x == Queue(s, key)[0] then 1 else 0
  {
    var q := Queue(s, key);
    assert q == [q[0]] + q[1..];
    assert multiset(q) == multiset{q[0]} + multiset(q[1..]);
  }

  /** An acquired seat was free, belongs to that tenant and vendor, and leaves its queue. */
  lemma AcquireKeepsInv(s: State, key: Key)
    requires Inv(s)
    ensures Queue(s, key) != [] ==> Queue(s, key)[0] in s.refs && Queue(s, key)[0].key == key && s.refs[Queue(s, key)[0]] == 0
    ensures Inv(Acquired(s, key))
  {
    var t := Acquired(s, key);
    if Queue(s, key) != [] {
      HeadIsFree(s, key);
    }
    assert Known(t);
    forall x, k | x in t.refs ensures Copies(t, k, x) == if k == x.key && t.refs[x] == 0 then 1 else 0 {
      if Queue(s, key) != [] {
        TakenCopies(s, key, k, x);
      } else {
        assert Copies(t, k, x) == Copies(s, k, x);
      }
    }
  }

  lemma ShareKeepsInv(s: State, seat: Seat)
    requires Inv(s) && seat in s.refs
    ensures Inv(Shared(s, seat))
  {
    var t := Shared(s, seat);
    forall x, k ensures Copies(t, k, x) == Copies(s, k, x) {
    }
  }

  /** Releasing is safe for exactly the seats with a reference: any other is put into its queue a second time. */
  lemma ReleaseKeepsInvIff(s: State, seat: Seat)
    requires Inv(s) && seat in s.refs
    ensures Inv(Released(s, seat)) <==> s.refs[seat] > 0
  {
    var t := Released(s, seat);
    if s.refs[seat] <= 1 {
      AddKeepsInvIff(s, seat, 0);
    } else {
      forall x, k ensures Copies(t, k, x) == Copies(s, k, x) {
      }
    }
  }

  /** Registering is safe for exactly the seats that are new and free. `refs` is the seat's own count. */
  lemma RegisterKeepsInvIff(s: State, seat: Seat, refs: nat)
    requires Inv(s) && (seat in s.refs ==> refs == s.refs[seat])
    ensures Inv(Added(s, seat, refs)) <==> seat !in s.refs && refs == 0
  {
    AddKeepsInvIff(s, seat, refs);
  }

  // ---- whole runs -------------------------------------------------------------------------------------

  datatype Op = Register(seat: Seat) | Acquire(key: Key) | Share(seat: Seat) | Release(seat: Seat)

  /** The operations the pool expects: new seats registered once, and only held seats given back. */
  predicate Proper(s: State, op: Op) {
    match op
    case Register(seat) => seat !in s.refs
    case Acquire(_) => true
    case Share(seat) => seat in s.refs
    case Release(seat) => seat in s.refs && s.refs[seat] > 0
  }

  ghost predicate Step(s: State, op: Op, t: State) {
    && Proper(s, op)
    && match op
       case Register(seat) => t == Added(s, seat, 0)
       case Acquire(key) => (Queue(s, key) != [] ==> Queue(s, key)[0] in s.refs) && t == Acquired(s, key)
       case Share(seat) => t == Shared(s, seat)
       case Release(seat) => t == Released(s, seat)
  }

  ghost predicate StepAt(states: seq<State>, ops: seq<Op>, i: nat)
    requires i < |ops| && i + 1 < |states|
  {
    Step(states[i], ops[i], states[i + 1])
  }

  ghost predicate IsRun(states: seq<State>, ops: seq<Op>) {
    && |states| == |ops| + 1 && states[0] == State(map[], map[])
    && forall i :: 0 <= i < |ops| ==> StepAt(states, ops, i)
  }

  lemma StepKeepsInv(s: State, op: Op, t: State)
    requires Inv(s) && Step(s, op, t)
    ensures Inv(t)
  {
    match op
    case Register(seat) => RegisterKeepsInvIff(s, seat, 0);
    case Acquire(key) => AcquireKeepsInv(s, key);
    case Share(seat) => ShareKeepsInv(s, seat);
    case Release(seat) => ReleaseKeepsInvIff(s, seat);
  }

  lemma {:induction false} ReachableStatesHold(states: seq<State>, ops: seq<Op>, i: nat)
    requires IsRun(states, ops) && i < |states|
    ensures Inv(states[i])
  {
    if i > 0 {
      ReachableStatesHold(states, ops, i - 1);
      assert StepAt(states, ops, i - 1);
      StepKeepsInv(states[i - 1], ops[i - 1], states[i]);
    } else {
      assert forall seat, key :: Copies(states[0], key, seat) == 0;
    }
  }

  /** Whether the operation hands out a new reference to the seat, as a parent's or as a subagent's. */
  predicate Takes(s: State, op: Op, seat: Seat) {
    match op
    case Acquire(key) => Queue(s, key) != [] && Queue(s, key)[0] == seat
    case Share(parent) => parent == seat && seat in s.refs && s.refs[seat] > 0
    case _ => false
  }

  function Taken(states: seq<State>, ops: seq<Op>, seat: Seat, i: nat, j: nat): nat
    requires i <= j <= |ops| <= |states|
  {
    if i == j then 0 else Taken(states, ops, seat, i, j - 1) + if Takes(states[j - 1], ops[j - 1], seat) then 1 else 0
  }

  function GivenBack(ops: seq<Op>, seat: Seat, i: nat, j: nat): nat
    requires i <= j <= |ops|
  {
    if i == j then 0 else GivenBack(ops, seat, i, j - 1) + if ops[j - 1] == Release(seat) then 1 else 0
  }

  lemma StepCounts(s: State, op: Op, t: State, seat: Seat)
    requires Inv(s) && Step(s, op, t) && seat in s.refs
    ensures seat in t.refs
    ensures t.refs[seat] == s.refs[seat] + (if Takes(s, op, seat) then 1 else 0) - (if op == Release(seat) then 1 else 0)
  {
  }

  /** Conservation: a seat's count is its acquires plus its subagent acquires less its releases. */
  lemma {:induction false} CountsAreConserved(states: seq<State>, ops: seq<Op>, seat: Seat, i: nat, j: nat)
    requires IsRun(states, ops) && i <= j <= |ops| && seat in states[i].refs
    ensures seat in states[j].refs
    ensures states[j].refs[seat] == states[i].refs[seat] + Taken(states, ops, seat, i, j) - GivenBack(ops, seat, i, j)
    decreases j
  {
    if i < j {
      CountsAreConserved(states, ops, seat, i, j - 1);
      ReachableStatesHold(states, ops, j - 1);
      assert StepAt(states, ops, j - 1);
      StepCounts(states[j - 1], ops[j - 1], states[j], seat);
    }
  }

  /**
   No two parents share a seat: between two acquisitions of one seat, the first parent's reference and
   every reference its subagents took have been released.
   */
  lemma TenuresDoNotOverlap(states: seq<State>, ops: seq<Op>, seat: Seat, i: nat, j: nat)
    requires IsRun(states, ops) && i < j < |ops| && ops[i].Acquire? && ops[j].Acquire?
    requires Takes(states[i], ops[i], seat) && Takes(states[j], ops[j], seat)
    ensures GivenBack(ops, seat, i + 1, j) == 1 + Taken(states, ops, seat, i + 1, j)
    ensures ops[i].key == seat.key == ops[j].key
  {
    ReachableStatesHold(states, ops, i);
    HeadIsFree(states[i], ops[i].key);
    assert StepAt(states, ops, i);
    StepCounts(states[i], ops[i], states[i + 1], seat);
    CountsAreConserved(states, ops, seat, i + 1, j);
    ReachableStatesHold(states, ops, j);
    HeadIsFree(states[j], ops[j].key);
  }

  /**
   A taken seat stays out of every queue until someone releases it. A seat whose refresh failed was taken
   but not handed to the caller, who therefore cannot release it.
   */
  lemma {:induction false} HeldUntilReleased(states: seq<State>, ops: seq<Op>, seat: Seat, i: nat, j: nat, key: Key)
    requires IsRun(states, ops) && i <= j <= |ops| && seat in states[i].refs && states[i].refs[seat] > 0
    requires forall k :: i <= k < j ==> ops[k] != Release(seat)
    ensures seat in states[j].refs && states[j].refs[seat] > 0 && seat !in Queue(states[j], key)
    decreases j
  {
    if i < j {
      HeldUntilReleased(states, ops, seat, i, j - 1, key);
      ReachableStatesHold(states, ops, j - 1);
      assert StepAt(states, ops, j - 1);
      StepCounts(states[j - 1], ops[j - 1], states[j], seat);
    }
    ReachableStatesHold(states, ops, j);
    assert Copies(states[j], key, seat) == 0;
  }

  // ---- whose turn it is ---------------------------------------------------------------------------------

  /** An acquisition takes the head of its queue; nothing else removes or overtakes a queued seat. */
  lemma StepMoves(s: State, op: Op, t: State, key: Key)
    requires Step(s, op, t)
    ensures op == Acquire(key) && Queue(s, key) != [] ==> Queue(t, key) == Queue(s, key)[1..]
    ensures op != Acquire(key) ==> Queue(s, key) <= Queue(t, key)
  {
  }

  function Acquisitions(ops: seq<Op>, key: Key, i: nat, j: nat): nat
    requires i <= j <= |ops|
  {
    if i == j then 0 else Acquisitions(ops, key, i, j - 1) + if ops[j - 1] == Acquire(key) then 1 else 0
  }

  lemma {:induction false} QueuedSeatMovesUp(states: seq<State>, ops: seq<Op>, key: Key, i: nat, j: nat, p: nat)
    requires IsRun(states, ops) && i <= j <= |ops| && p < |Queue(states[i], key)| && Acquisitions(ops, key, i, j) <= p
    ensures var ahead := p - Acquisitions(ops, key, i, j);
            ahead < |Queue(states[j], key)| && Queue(states[j], key)[ahead] == Queue(states[i], key)[p]
    decreases j
  {
    if i < j {
      QueuedSeatMovesUp(states, ops, key, i, j - 1, p);
      assert StepAt(states, ops, j - 1);
      StepMoves(states[j - 1], ops[j - 1], states[j], key);
    }
  }

  /** First come, first served: a seat with `p` seats before it is handed out by the acquisition after the next `p`. */
  lemma SeatsAreTakenInTurn(states: seq<State>, ops: seq<Op>, key: Key, i: nat, j: nat, p: nat)
    requires IsRun(states, ops) && i <= j < |ops| && p < |Queue(states[i], key)|
    requires ops[j] == Acquire(key) && Acquisitions(ops, key, i, j) == p
    ensures Takes(states[j], ops[j], Queue(states[i], key)[p])
  {
    QueuedSeatMovesUp(states, ops, key, i, j, p);
  }

  predicate Frees(s: State, op: Op, seat: Seat) {
    op == Register(seat) || (op == Release(seat) && seat in s.refs && s.refs[seat] == 1)
  }

  lemma FreedGoesLast(s: State, op: Op, t: State, seat: Seat)
    requires Known(s) && Step(s, op, t) && Frees(s, op, seat)
    ensures Queue(t, seat.key) == Queue(s, seat.key) + [seat]
  {
  }

  /** A seat given back for the last time, or registered, is handed out when all seats that were free by then have been. */
  lemma FreedSeatWaitsItsTurn(states: seq<State>, ops: seq<Op>, seat: Seat, i: nat, j: nat)
    requires IsRun(states, ops) && i < j < |ops| && ops[j] == Acquire(seat.key)
    requires Frees(states[i], ops[i], seat)
    requires Acquisitions(ops, seat.key, i + 1, j) == |Queue(states[i], seat.key)|
    ensures Takes(states[j], ops[j], seat)
  {
    assert StepAt(states, ops, i);
    ReachableStatesHold(states, ops, i);
    FreedGoesLast(states[i], ops[i], states[i + 1], seat);
    SeatsAreTakenInTurn(states, ops, seat.key, i + 1, j, |Queue(states[i], seat.key)|);
  }

  const NO_SEATS := State(map[], map[])

  /** A seat released before anyone acquired it is queued twice, and so handed to two parents. */
  lemma FreeSeatCanBeReleased(seat: Seat)
    ensures var s := Released(Added(NO_SEATS, seat, 0), seat);
            && Queue(s, seat.key) == [seat, seat]
            && Queue(Acquired(s, seat.key), seat.key) == [seat]
            && Acquired(Acquired(s, seat.key), seat.key).refs[seat] == 2
  {
    var s := Released(Added(NO_SEATS, seat, 0), seat);
    assert s.refs[seat] == 0;
  }

  /**
   The only seat of a tenant, acquired when its lease has expired and the refresh fails: the caller gets no
   seat, the seat has a reference all the same, and the next caller waits, whatever its refresh would give.
   */
  method FailedRefreshLosesSeat(key: Key, now: real, refresh: Refresh, later: real, again: Refresh)
    returns (seat: Seat, first: Acquisition, second: Acquisition)
    requires now >= 0.0 && !(refresh.Token? && refresh.text != "")
    ensures first == RefreshFailed(seat) && second == Waits && seat.refCount == 1
  {
    var pool := new SeatPool();
    assert pool.known == pool.View().refs.Keys == {};
    seat := new Seat("seat", key, 3600.0, "", 0.0);
    pool.RegisterSeat(seat);
    assert pool.known == pool.View().refs.Keys == {seat};
    first := pool.Acquire(key.tenant, key.vendor, now, refresh);
    assert pool.View().refs[seat] == seat.refCount == 1;
    second := pool.Acquire(key.tenant, key.vendor, later, again);
    assert pool.View().refs[seat] == seat.refCount;
  }
}
