/**
 The API key manager: records by id, and an index from key hash to id. Generated ids and hashes, and the
 clock, are parameters; the hash of a presented key stands for the key.
 */
module ApiKeys {
  import opened Options

  datatype Status = Active | Revoked | Expired | Rotated

  datatype Scope = Scope(
    tenant: string,
    project: Option<string>,
    models: seq<string>,
    endpoints: seq<string>,
    rpm: int,
    tpm: int,
    maxTokensPerRequest: int,
    budget: Option<real>)

  datatype Record = Record(
    hash: string,
    name: string,
    scope: Scope,
    status: Status,
    expiresAt: Option<real>,
    lastUsedAt: Option<real>,
    revokedAt: Option<real>,
    rotatedFrom: Option<string>,
    usageCount: nat,
    totalTokens: int,
    totalCost: real)

  datatype Store = Store(keys: map<string, Record>, index: map<string, string>)

  const SECONDS_PER_DAY := 86400.0

  function NewRecord(hash: string, name: string, scope: Scope, days: Option<int>, now: real): Record {
    var expiry := if days.Some? then Some(now + days.value as real * SECONDS_PER_DAY) else None;
    Record(hash, name, scope.(endpoints := []), Active, expiry, None, None, None, 0, 0, 0.0)
  }

  /** Creation does not carry a list of endpoints: a new key may use all of them. */
  function WithNew(s: Store, id: string, hash: string, name: string, scope: Scope, days: Option<int>, now: real): Store {
    Store(s.keys[id := NewRecord(hash, name, scope, days, now)], s.index[hash := id])
  }

  predicate PastExpiry(r: Record, now: real) {
    r.expiresAt.Some? && now > r.expiresAt.value
  }

  predicate OverBudget(r: Record) {
    r.scope.budget.Some? && r.totalCost >= r.scope.budget.value
  }

  /** A record a presented key may be accepted for. */
  predicate Accepts(r: Record, now: real) {
    r.status == Active && !PastExpiry(r, now) && !OverBudget(r)
  }

  function Used(r: Record, now: real): Record {
    r.(lastUsedAt := Some(now), usageCount := r.usageCount + 1)
  }

  /** Taking a key out of service. */
  function Retired(s: Store, id: string, status: Status, now: real): Store
    requires id in s.keys
  {
    var r := s.keys[id];
    Store(s.keys[id := r.(status := status, revokedAt := Some(now))], s.index - {r.hash})
  }

  /** The store after a presented key was checked, and the id it was accepted for. */
  function Validated(s: Store, hash: string, now: real): (Store, Option<string>) {
    if hash !in s.index || s.index[hash] !in s.keys then (s, None) else
      var id := s.index[hash];
      var r := s.keys[id];
      if r.status != Active then (s, None)
      else if PastExpiry(r, now) then (s.(keys := s.keys[id := r.(status := Expired)]), None)
      else if OverBudget(r) then (s, None)
      else (s.(keys := s.keys[id := Used(r, now)]), Some(id))
  }

  /** The old key is retired, and a new one with the same scope is linked to it. */
  function WithRotation(s: Store, id: string, newId: string, newHash: string, days: Option<int>, now: real): Store
    requires id in s.keys
  {
    var oldRecord := s.keys[id];
    var created := WithNew(Retired(s, id, Rotated, now), newId, newHash, oldRecord.name + " (rotated)", oldRecord.scope, days, now);
    created.(keys := created.keys[newId := created.keys[newId].(rotatedFrom := Some(id))])
  }

  /** An unused, active key for every endpoint, with its limits, models and budget from `scope`. */
  ghost predicate IsNewKey(r: Record, hash: string, name: string, scope: Scope, now: real, days: Option<int>) {
    && r.hash == hash && r.name == name && r.status == Active
    && r.scope.tenant == scope.tenant && r.scope.project == scope.project && r.scope.models == scope.models
    && r.scope.rpm == scope.rpm && r.scope.tpm == scope.tpm && r.scope.budget == scope.budget
    && r.scope.maxTokensPerRequest == scope.maxTokensPerRequest && r.scope.endpoints == []
    && r.expiresAt == (if days.Some? then Some(now + days.value as real * 86400.0) else None)
    && r.lastUsedAt == r.revokedAt == None && r.usageCount == r.totalTokens == 0 && r.totalCost == 0.0
  }

  class APIKeyManager {
    var keys: map<string, Record>
    var index: map<string, string>

    ghost function State(): Store
      reads this
    {
      Store(keys, index)
    }

    constructor ()
      ensures State() == Store(map[], map[])
    {
      keys, index := map[], map[];
    }

    method CreateKey(id: string, hash: string, name: string, scope: Scope, days: Option<int>, now: real)
      modifies this
      ensures State() == WithNew(old(State()), id, hash, name, scope, days, now)
      ensures id in keys && keys == old(keys)[id := keys[id]] && index == old(index)[hash := id]
      ensures IsNewKey(keys[id], hash, name, scope, now, days) && keys[id].rotatedFrom == None
    {
      var expiry := None;
      if days.Some? {
        expiry := Some(now + days.value as real * SECONDS_PER_DAY);
      }
      keys := keys[id := Record(hash, name, scope.(endpoints := []), Active, expiry, None, None, None, 0, 0, 0.0)];
      index := index[hash := id];
    }

    method ValidateKey(hash: string, now: real) returns (accepted: Option<string>)
      modifies this`keys
      ensures (State(), accepted) == Validated(old(State()), hash, now)
      ensures accepted.Some? <==>
                && hash in index && index[hash] in old(keys)
                && var r := old(keys)[index[hash]];
                   && r.status == Active
                   && (r.expiresAt.Some? ==> now <= r.expiresAt.value)
                   && (r.scope.budget.Some? ==> r.totalCost < r.scope.budget.value)
      ensures accepted.Some? ==>
                && accepted.value == index[hash]
                && var r := old(keys)[index[hash]];
                   keys == old(keys)[index[hash] := r.(lastUsedAt := Some(now), usageCount := r.usageCount + 1)]
      ensures accepted == None ==>
                keys ==
                  if hash in index && index[hash] in old(keys) && old(keys)[index[hash]].status == Active
                     && old(keys)[index[hash]].expiresAt.Some? && now > old(keys)[index[hash]].expiresAt.value
                  then old(keys)[index[hash] := old(keys)[index[hash]].(status := Expired)]
                  else old(keys)
    {
      if hash !in index {
        return None;
      }
      var id := index[hash];
      if id !in keys {
        return None;
      }
      var r := keys[id];
      if r.status != Active {
        return None;
      }
      if r.expiresAt.Some? && now > r.expiresAt.value {
        keys := keys[id := r.(status := Expired)];
        return None;
      }
      if r.scope.budget.Some? && r.totalCost >= r.scope.budget.value {
        return None;
      }
      keys := keys[id := r.(lastUsedAt := Some(now), usageCount := r.usageCount + 1)];
      return Some(id);
    }

    method RevokeKey(id: string, now: real) returns (found: bool)
      modifies this
      ensures found == (id in old(keys))
      ensures State() == if found then Retired(old(State()), id, Revoked, now) else old(State())
      ensures found ==>
                && keys == old(keys)[id := old(keys)[id].(status := Revoked, revokedAt := Some(now))]
                && index == old(index) - {old(keys)[id].hash}
    {
      if id !in keys {
        return false;
      }
      index := index - {keys[id].hash};
      keys := keys[id := keys[id].(status := Revoked, revokedAt := Some(now))];
      return true;
    }

    method RotateKey(id: string, newId: string, newHash: string, days: Option<int>, now: real) returns (found: bool)
      modifies this
      ensures found == (id in old(keys))
      ensures State() == if found then WithRotation(old(State()), id, newId, newHash, days, now) else old(State())
      ensures found ==>
                && newId in keys && IsNewKey(keys[newId], newHash, old(keys)[id].name + " (rotated)", old(keys)[id].scope, now, days)
                && keys[newId].rotatedFrom == Some(id)
                && keys == old(keys)[id := old(keys)[id].(status := Rotated, revokedAt := Some(now))][newId := keys[newId]]
                && index == (old(index) - {old(keys)[id].hash})[newHash := newId]
    {
      if id !in keys {
        return false;
      }
      var r := keys[id];
      keys := keys[id := r.(status := Rotated, revokedAt := Some(now))];
      index := index - {r.hash};
      CreateKey(newId, newHash, r.name + " (rotated)", r.scope, days, now);
      keys := keys[newId := keys[newId].(rotatedFrom := Some(id))];
      return true;
    }

    method RecordUsage(id: string, tokens: int, cost: real) returns (found: bool)
      modifies this`keys
      ensures found == (id in old(keys))
      ensures keys == if found then
                        old(keys)[id := old(keys)[id].(totalTokens := old(keys)[id].totalTokens + tokens,
                                                       totalCost := old(keys)[id].totalCost + cost)]
                      else old(keys)
    {
      if id !in keys {
        return false;
      }
      var r := keys[id];
      keys := keys[id := r.(totalTokens := r.totalTokens + tokens, totalCost := r.totalCost + cost)];
      return true;
    }
  }

  // ---- what every operation keeps -----------------------------------------------------------------

  /** Active and expired keys are indexed; revoked and rotated ones are not. */
  predicate Indexed(r: Record) {
    r.status in {Active, Expired}
  }

  /** A record as `owner` and `rank` see it: the only one with its hash, linked downwards to a key with its scope. */
  ghost predicate Placed(s: Store, owner: map<string, string>, rank: map<string, nat>, id: string)
    requires id in s.keys
  {
    var r := s.keys[id];
    && r.hash in owner && owner[r.hash] == id && id in rank
    && (Indexed(r) <==> r.hash in s.index)
    && r.scope.endpoints == []
    && (r.rotatedFrom.Some? ==>
          var p := r.rotatedFrom.value;
          p in s.keys && p in rank && rank[p] < rank[id] && s.keys[p].scope == r.scope)
  }

  /** `owner` tells which key has a hash, and `rank` falls along the rotation links. */
  ghost predicate Consistent(s: Store, owner: map<string, string>, rank: map<string, nat>) {
    && (forall id :: id in s.keys ==> Placed(s, owner, rank, id))
    && (forall h :: h in s.index ==> h in owner && s.index[h] == owner[h] && s.index[h] in s.keys
                                     && s.keys[s.index[h]].hash == h)
  }

  ghost predicate Valid(s: Store) {
    exists owner, rank :: Consistent(s, owner, rank)
  }

  /** What validity says about the index: it maps exactly the hashes of active and expired keys, each to its key. */
  lemma IndexIsExact(s: Store, hash: string, id: string)
    requires Valid(s)
    ensures hash in s.index && s.index[hash] == id <==> id in s.keys && s.keys[id].hash == hash && Indexed(s.keys[id])
  {
    var owner, rank :| Consistent(s, owner, rank);
    if id in s.keys {
      assert Placed(s, owner, rank, id);
    }
  }

  datatype Op =
    | Create(id: string, hash: string, name: string, scope: Scope, days: Option<int>, now: real)
    | Validate(hash: string, now: real)
    | Rotate(id: string, newId: string, newHash: string, days: Option<int>, now: real)
    | Revoke(id: string, now: real)
    | Usage(id: string, tokens: int, cost: real)

  /** Generated ids and hashes have not been used before. */
  ghost predicate Fresh(s: Store, id: string, hash: string) {
    id !in s.keys && forall k :: k in s.keys ==> s.keys[k].hash != hash
  }

  ghost predicate Allowed(s: Store, op: Op) {
    match op
    case Create(id, hash, _, _, _, _) => Fresh(s, id, hash)
    case Rotate(_, newId, newHash, _, _) => Fresh(s, newId, newHash)
    case _ => true
  }

  function Step(s: Store, op: Op): Store {
    match op
    case Create(id, hash, name, scope, days, now) => WithNew(s, id, hash, name, scope, days, now)
    case Validate(hash, now) => Validated(s, hash, now).0
    case Rotate(id, newId, newHash, days, now) =>
      if id in s.keys then WithRotation(s, id, newId, newHash, days, now) else s
    case Revoke(id, now) => if id in s.keys then Retired(s, id, Revoked, now) else s
    case Usage(id, tokens, cost) =>
      if id in s.keys then
        s.(keys := s.keys[id := s.keys[id].(totalTokens := s.keys[id].totalTokens + tokens,
                                            totalCost := s.keys[id].totalCost + cost)])
      else s
  }

  /** An update of one record that leaves its identity, and whether it is indexed, alone. */
  ghost predicate SameIdentity(a: Record, b: Record) {
    a.hash == b.hash && a.scope == b.scope && a.rotatedFrom == b.rotatedFrom && (Indexed(a) <==> Indexed(b))
  }

  lemma UpdateKeepsValid(s: Store, id: string, r: Record)
    requires Valid(s) && id in s.keys && SameIdentity(s.keys[id], r)
    ensures Valid(s.(keys := s.keys[id := r]))
  {
    var owner, rank :| Consistent(s, owner, rank);
    var s' := s.(keys := s.keys[id := r]);
    forall k | k in s'.keys ensures Placed(s', owner, rank, k) {
      assert Placed(s, owner, rank, k);
    }
    assert Consistent(s', owner, rank);
  }

  lemma RetireKeepsValid(s: Store, id: string, status: Status, now: real)
    requires Valid(s) && id in s.keys && status in {Revoked, Rotated}
    ensures Valid(Retired(s, id, status, now))
  {
    var owner, rank :| Consistent(s, owner, rank);
    var s' := Retired(s, id, status, now);
    assert Placed(s, owner, rank, id);
    forall k | k in s'.keys ensures Placed(s', owner, rank, k) {
      assert Placed(s, owner, rank, k);
      assert k != id ==> s'.keys[k] == s.keys[k];
    }
    assert Consistent(s', owner, rank);
  }

  /** A new key is ranked above the one it replaces. */
  lemma NewKeepsValid(s: Store, id: string, hash: string, r: Record)
    requires Valid(s) && Fresh(s, id, hash)
    requires r.hash == hash && r.status == Active && r.scope.endpoints == []
    requires r.rotatedFrom.Some? ==> r.rotatedFrom.value in s.keys && s.keys[r.rotatedFrom.value].scope == r.scope
    ensures Valid(Store(s.keys[id := r], s.index[hash := id]))
  {
    var owner, rank :| Consistent(s, owner, rank);
    var s' := Store(s.keys[id := r], s.index[hash := id]);
    if r.rotatedFrom.Some? {
      assert Placed(s, owner, rank, r.rotatedFrom.value);
    }
    var top: nat := if r.rotatedFrom.Some? then rank[r.rotatedFrom.value] + 1 else 0;
    var owner', rank' := owner[hash := id], rank[id := top];
    forall k | k in s'.keys ensures Placed(s', owner', rank', k) {
      if k != id {
        assert Placed(s, owner, rank, k);
      }
    }
    assert Consistent(s', owner', rank');
  }

  /** A rotation is a retirement followed by a creation with a link. */
  lemma RotationSteps(s: Store, id: string, newId: string, newHash: string, days: Option<int>, now: real)
    requires id in s.keys && newId !in s.keys
    ensures var s' := Retired(s, id, Rotated, now);
            var r := NewRecord(newHash, s.keys[id].name + " (rotated)", s.keys[id].scope, days, now).(rotatedFrom := Some(id));
            WithRotation(s, id, newId, newHash, days, now) == Store(s'.keys[newId := r], s'.index[newHash := newId])
  {
  }

  lemma RotateKeepsValid(s: Store, id: string, newId: string, newHash: string, days: Option<int>, now: real)
    requires Valid(s) && id in s.keys && Fresh(s, newId, newHash)
    ensures Valid(WithRotation(s, id, newId, newHash, days, now))
  {
    var owner, rank :| Consistent(s, owner, rank);
    assert Placed(s, owner, rank, id);
    var s' := Retired(s, id, Rotated, now);
    RetireKeepsValid(s, id, Rotated, now);
    var r := NewRecord(newHash, s.keys[id].name + " (rotated)", s.keys[id].scope, days, now).(rotatedFrom := Some(id));
    NewKeepsValid(s', newId, newHash, r);
    RotationSteps(s, id, newId, newHash, days, now);
  }

  lemma ValidateKeepsValid(s: Store, hash: string, now: real)
    requires Valid(s)
    ensures Valid(Validated(s, hash, now).0)
  {
    if hash in s.index && s.index[hash] in s.keys {
      var id := s.index[hash];
      var r := s.keys[id];
      if r.status == Active {
        UpdateKeepsValid(s, id, r.(status := Expired));
        UpdateKeepsValid(s, id, Used(r, now));
      }
    }
  }

  lemma StepKeepsValid(s: Store, op: Op)
    requires Valid(s) && Allowed(s, op)
    ensures Valid(Step(s, op))
  {
    match op
    case Create(id, hash, name, scope, days, now) => NewKeepsValid(s, id, hash, NewRecord(hash, name, scope, days, now));
    case Validate(hash, now) => ValidateKeepsValid(s, hash, now);
    case Rotate(id, newId, newHash, days, now) =>
      if id in s.keys {
        RotateKeepsValid(s, id, newId, newHash, days, now);
      }
    case Revoke(id, now) =>
      if id in s.keys {
        RetireKeepsValid(s, id, Revoked, now);
      }
    case Usage(id, tokens, cost) =>
      if id in s.keys {
        var r := s.keys[id];
        UpdateKeepsValid(s, id, r.(totalTokens := r.totalTokens + tokens, totalCost := r.totalCost + cost));
      }
  }

  ghost predicate IsRun(states: seq<Store>, ops: seq<Op>) {
    && |states| == |ops| + 1
    && states[0] == Store(map[], map[])
    && forall i :: 0 <= i < |ops| ==> Allowed(states[i], ops[i]) && states[i + 1] == Step(states[i], ops[i])
  }

  /** In every reachable state the index holds exactly the active and expired keys, and the rotation links are acyclic. */
  lemma {:induction false} ReachableIsValid(states: seq<Store>, ops: seq<Op>)
    requires IsRun(states, ops)
    ensures Valid(states[|ops|])
    decreases |ops|
  {
    if ops == [] {
      var noOwner: map<string, string>, noRank: map<string, nat> := map[], map[];
      assert Consistent(states[0], noOwner, noRank);
    } else {
      var n := |ops| - 1;
      ReachableIsValid(states[..n + 1], ops[..n]);
      StepKeepsValid(states[n], ops[n]);
    }
  }

  // ---- what the invariant gives -------------------------------------------------------------------

  /** The lookup through the index agrees with a scan of all records for an acceptable one with that hash. */
  lemma ValidateIsLinearScan(s: Store, hash: string, now: real, id: string)
    requires Valid(s)
    ensures Validated(s, hash, now).1 == Some(id)
       <==> && id in s.keys && s.keys[id].hash == hash && s.keys[id].status == Active
            && (s.keys[id].expiresAt.Some? ==> now <= s.keys[id].expiresAt.value)
            && (s.keys[id].scope.budget.Some? ==> s.keys[id].totalCost < s.keys[id].scope.budget.value)
  {
    IndexIsExact(s, hash, id);
  }

  /** Once out of service, a key never comes back: an inactive key stays inactive under every operation. */
  lemma InactiveStaysInactive(s: Store, op: Op, id: string)
    requires Allowed(s, op) && id in s.keys && s.keys[id].status != Active
    ensures id in Step(s, op).keys && Step(s, op).keys[id].status != Active
    ensures Step(s, op).keys[id].hash == s.keys[id].hash
  {
    match op
    case Create(_, _, _, _, _, _) =>
    case Validate(_, _) =>
    case Rotate(k, newId, newHash, days, now) =>
      if k in s.keys {
        assert WithRotation(s, k, newId, newHash, days, now).keys[id] == Retired(s, k, Rotated, now).keys[id];
      }
    case Revoke(_, _) =>
    case Usage(_, _, _) =>
  }

  lemma {:induction false} InactiveForever(states: seq<Store>, ops: seq<Op>, i: nat, j: nat, id: string)
    requires IsRun(states, ops) && i <= j <= |ops|
    requires id in states[i].keys && states[i].keys[id].status != Active
    ensures id in states[j].keys && states[j].keys[id].status != Active
    ensures states[j].keys[id].hash == states[i].keys[id].hash
    decreases j
  {
    if i < j {
      InactiveForever(states, ops, i, j - 1, id);
      InactiveStaysInactive(states[j - 1], ops[j - 1], id);
    }
  }

  /** From then on, whatever happens, presenting that key is never accepted: not for it, and not for another record. */
  lemma NeverAcceptedAgain(states: seq<Store>, ops: seq<Op>, i: nat, j: nat, id: string, now: real)
    requires IsRun(states, ops) && i <= j <= |ops|
    requires id in states[i].keys && states[i].keys[id].status != Active
    ensures Validated(states[j], states[i].keys[id].hash, now).1 == None
  {
    InactiveForever(states, ops, i, j, id);
    ReachableIsValid(states[..j + 1], ops[..j]);
    HashHasOneKey(states[j], id, now);
  }

  lemma HashHasOneKey(s: Store, id: string, now: real)
    requires Valid(s) && id in s.keys && s.keys[id].status != Active
    ensures Validated(s, s.keys[id].hash, now).1 == None
  {
    var owner, rank :| Consistent(s, owner, rank);
    assert Placed(s, owner, rank, id);
    forall k | k in s.keys && s.keys[k].hash == s.keys[id].hash ensures k == id {
      assert Placed(s, owner, rank, k);
    }
  }

  /** Following the rotation links `n` times. */
  function Ancestor(s: Store, id: string, n: nat): Option<string> {
    if n == 0 then Some(id) else
      match Ancestor(s, id, n - 1)
      case None => None
      case Some(k) => if k in s.keys then s.keys[k].rotatedFrom else None
  }

  /** No key descends from itself, and all keys of a chain have one scope. */
  lemma ChainsAreAcyclic(s: Store, id: string, n: nat)
    requires Valid(s) && id in s.keys && n > 0 && Ancestor(s, id, n).Some?
    ensures Ancestor(s, id, n).value != id
    ensures Ancestor(s, id, n).value in s.keys && s.keys[Ancestor(s, id, n).value].scope == s.keys[id].scope
  {
    var owner, rank :| Consistent(s, owner, rank);
    AncestorsRankLower(s, owner, rank, id, n);
  }

  lemma {:induction false} AncestorsRankLower(s: Store, owner: map<string, string>, rank: map<string, nat>, id: string, n: nat)
    requires Consistent(s, owner, rank) && id in s.keys && Ancestor(s, id, n).Some?
    ensures var a := Ancestor(s, id, n).value;
            && a in s.keys && a in rank && id in rank && rank[a] + n <= rank[id]
            && s.keys[a].scope == s.keys[id].scope
    decreases n
  {
    if n == 0 {
      assert Placed(s, owner, rank, id);
    } else {
      AncestorsRankLower(s, owner, rank, id, n - 1);
      assert Placed(s, owner, rank, Ancestor(s, id, n - 1).value);
    }
  }

  /**
   Any known key can be rotated, a revoked one included, since the only check is that the id is known. The
   new key is then accepted at a later time exactly when its budget, if it has one, is positive and its
   days, if it was given any, are not over.
   */
  lemma RevokedKeyCanBeRotated(s: Store, id: string, newId: string, newHash: string, days: Option<int>, now: real, t: real)
    requires Valid(s) && id in s.keys && Fresh(s, newId, newHash)
    ensures var s' := Step(s, Rotate(id, newId, newHash, days, now));
            && s'.keys[id].status == Rotated
            && (Validated(s', newHash, t).1 == Some(newId)
                <==> && (s.keys[id].scope.budget.Some? ==> s.keys[id].scope.budget.value > 0.0)
                     && (days.Some? ==> t <= now + days.value as real * SECONDS_PER_DAY))
  {
    StepKeepsValid(s, Rotate(id, newId, newHash, days, now));
  }
}
