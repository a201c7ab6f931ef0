/**
 The lazily refilled token bucket of the API rate limiter. A bucket is brought up to date only when a
 request is admitted; a refusal leaves it untouched. Tokens and clock readings are reals.
 */
module TokenBucket {
  import opened Numbers
  import opened Options

  /** One entry of the limiter's store: the tokens left after the last admission, and its time. */
  datatype Bucket = Bucket(tokens: real, at: real)

  datatype Request = Request(at: real, cost: nat)

  type Entries = map<string, Bucket>

  function Rate(limit: int): (r: real)
    ensures (r >= 0.0 <==> limit >= 0) && (r > 0.0 <==> limit > 0)
  {
    limit as real / 60.0
  }

  function Refill(limit: int, elapsed: real): real {
    elapsed * Rate(limit)
  }

  /** Tokens available at `now` from a bucket last written at `b.at`. */
  function Level(b: Bucket, limit: int, now: real): real {
    MinReal(limit as real, b.tokens + Refill(limit, now - b.at))
  }

  /** An empty bucket fills evenly, over one minute. */
  lemma RefillsInAMinute(limit: int, at: real, now: real)
    requires limit >= 0 && at <= now
    ensures var level := Level(Bucket(0.0, at), limit, now);
            if now - at <= 60.0 then level * 60.0 == limit as real * (now - at) else level == limit as real
  {
    var elapsed, full := now - at, limit as real;
    assert Refill(limit, elapsed) * 60.0 == full * elapsed;
    if elapsed <= 60.0 {
      assert full * (60.0 - elapsed) >= 0.0;
      assert full * elapsed <= full * 60.0;
    } else {
      assert full * (elapsed - 60.0) >= 0.0;
      assert full * elapsed >= full * 60.0;
    }
  }

  /** The bucket a request meets: a missing entry starts full. */
  function Found(entry: Option<Bucket>, limit: int, now: real): Bucket {
    match entry
    case None => Bucket(limit as real, now)
    case Some(b) => b
  }

  predicate Allows(entry: Option<Bucket>, limit: int, rq: Request) {
    Level(Found(entry, limit, rq.at), limit, rq.at) >= rq.cost as real
  }

  /** The entry after one request. A refused first request still records the full bucket. */
  function After(entry: Option<Bucket>, limit: int, rq: Request): Bucket {
    var b := Found(entry, limit, rq.at);
    if Allows(entry, limit, rq) then Bucket(Level(b, limit, rq.at) - rq.cost as real, rq.at) else b
  }

  function RetryAfter(missing: real, limit: int): (s: int)
    requires missing > 0.0
    ensures s >= 1
  {
    var seconds := if limit > 0 then (missing / Rate(limit)).Floor else 60;
    if seconds > 1 then seconds else 1
  }

  function Key(limitType: string, identifier: string): string {
    "ratelimit:" + limitType + ":" + identifier
  }

  predicate HasColon(s: string) {
    exists i :: 0 <= i < |s| && s[i] == ':'
  }

  lemma {:induction false} ColonSplits(a: string, b: string, c: string, d: string)
    requires !HasColon(a) && !HasColon(c) && a + ":" + b == c + ":" + d
    ensures a == c && b == d
    decreases |a|
  {
    var s, t := a + ":" + b, c + ":" + d;
    if a == "" || c == "" {
      assert s[0] == (a + ":")[0] && t[0] == (c + ":")[0];
      assert a == c;
      assert s[1..] == b && t[1..] == d;
    } else {
      assert s[0] == a[0] && t[0] == c[0];
      assert s[1..] == a[1..] + ":" + b && t[1..] == c[1..] + ":" + d;
      assert !HasColon(a[1..]) && !HasColon(c[1..]);
      ColonSplits(a[1..], b, c[1..], d);
      assert a == [a[0]] + a[1..] && c == [c[0]] + c[1..];
    }
  }

  /** Two checks of limit types without a colon share an entry exactly when both type and identifier are the same. */
  lemma KeysAreEqualIff(typeA: string, idA: string, typeB: string, idB: string)
    requires !HasColon(typeA) && !HasColon(typeB)
    ensures Key(typeA, idA) == Key(typeB, idB) <==> typeA == typeB && idA == idB
  {
    if Key(typeA, idA) == Key(typeB, idB) {
      var a, b := Key(typeA, idA), Key(typeB, idB);
      var n := |"ratelimit:"|;
      assert a[n..] == typeA + ":" + idA && b[n..] == typeB + ":" + idB;
      ColonSplits(typeA, idA, typeB, idB);
    }
  }

  lemma OthersHaveOtherKeys(limitType: string, identifier: string)
    requires !HasColon(limitType)
    ensures forall otherType, otherId ::
              !HasColon(otherType) && (otherType != limitType || otherId != identifier) ==>
                Key(otherType, otherId) != Key(limitType, identifier)
  {
    forall otherType, otherId | !HasColon(otherType) && (otherType != limitType || otherId != identifier)
      ensures Key(otherType, otherId) != Key(limitType, identifier)
    {
      KeysAreEqualIff(otherType, otherId, limitType, identifier);
    }
  }

  /** The longer type is the other one with a colon and the part by which the other identifier is longer. */
  ghost predicate Confused(typeA: string, idA: string, typeB: string, idB: string) {
    exists x: string :: typeB == typeA + ":" + x && idA == x + ":" + idB
  }

  lemma LongerTypeConfused(a: string, b: string, c: string, d: string)
    requires |a| < |c| && a + ":" + b == c + ":" + d
    ensures Confused(a, b, c, d)
  {
    var s, x := a + ":" + b, c[|a| + 1..];
    assert s[..|a|] == a && s[|a|] == ':' && s[|a| + 1..] == b;
    assert (c + ":" + d)[..|c|] == c && (c + ":" + d)[|c|..] == ":" + d;
    assert c == s[..|c|] == a + ":" + x;
    assert b == s[|a| + 1..|c|] + s[|c|..] == x + ":" + d;
  }

  /** For any types, two different checks share an entry exactly when they are confused one way or the other. */
  lemma KeysCollideIff(typeA: string, idA: string, typeB: string, idB: string)
    ensures Key(typeA, idA) == Key(typeB, idB)
       <==> (typeA == typeB && idA == idB) || Confused(typeA, idA, typeB, idB) || Confused(typeB, idB, typeA, idA)
  {
    var a, b := Key(typeA, idA), Key(typeB, idB);
    var n := |"ratelimit:"|;
    assert a[n..] == typeA + ":" + idA && b[n..] == typeB + ":" + idB;
    if a == b {
      if |typeA| < |typeB| {
        LongerTypeConfused(typeA, idA, typeB, idB);
      } else if |typeB| < |typeA| {
        LongerTypeConfused(typeB, idB, typeA, idA);
      } else {
        assert typeA == (typeA + ":" + idA)[..|typeA|] && idA == (typeA + ":" + idA)[|typeA| + 1..];
        assert typeB == (typeB + ":" + idB)[..|typeB|] && idB == (typeB + ":" + idB)[|typeB| + 1..];
      }
    } else if Confused(typeA, idA, typeB, idB) {
      ConfusedSame(typeA, idA, typeB, idB);
    } else if Confused(typeB, idB, typeA, idA) {
      ConfusedSame(typeB, idB, typeA, idA);
    }
  }

  lemma ConfusedSame(typeA: string, idA: string, typeB: string, idB: string)
    requires Confused(typeA, idA, typeB, idB)
    ensures Key(typeA, idA) == Key(typeB, idB)
  {
    var x: string :| typeB == typeA + ":" + x && idA == x + ":" + idB;
    assert Key(typeA, idA) == "ratelimit:" + (typeA + ":" + (x + ":" + idB));
    assert Key(typeB, idB) == "ratelimit:" + (typeA + ":" + x + ":" + idB);
    assert typeA + ":" + (x + ":" + idB) == typeA + ":" + x + ":" + idB;
  }

  /** With a colon in a type they can be confused. */
  lemma ColonsCanConfuse()
    ensures Key("a", "b:c") == Key("a:b", "c")
  {
    assert "a" + ":" + "b:c" == "a:b" + ":" + "c";
    assert Key("a", "b:c") == "ratelimit:" + ("a" + ":" + "b:c");
    assert Key("a:b", "c") == "ratelimit:" + ("a:b" + ":" + "c");
  }

  function Lookup(entries: Entries, key: string): Option<Bucket> {
    if key in entries then Some(entries[key]) else None
  }

  /** The limiter's store. */
  class RateLimitStore {
    var entries: Entries

    constructor ()
      ensures entries == map[]
    {
      entries := map[];
    }

    method GetOrSet(key: string, tokens: real, at: real) returns (b: Bucket)
      modifies this
      ensures b == (if key in old(entries) then old(entries)[key] else Bucket(tokens, at))
      ensures entries == old(entries)[key := b]
    {
      if key !in entries {
        entries := entries[key := Bucket(tokens, at)];
      }
      b := entries[key];
    }

    method Update(key: string, tokens: real, at: real)
      modifies this
      ensures entries == old(entries)[key := Bucket(tokens, at)]
    {
      entries := entries[key := Bucket(tokens, at)];
    }

    /** One rate check at clock reading `now`. Only the entry of this limit type and identifier changes. */
    method CheckRateLimit(identifier: string, limit: int, cost: nat, limitType: string, now: real)
      returns (allowed: bool, retryAfter: nat)
      modifies this
      ensures var key := Key(limitType, identifier);
              var entry := Lookup(old(entries), key);
              && allowed == Allows(entry, limit, Request(now, cost))
              && entries == old(entries)[key := After(entry, limit, Request(now, cost))]
              && retryAfter == (if allowed then 0 else
                                RetryAfter(cost as real - Level(Found(entry, limit, now), limit, now), limit))
      ensures var key := "ratelimit:" + limitType + ":" + identifier;
              var b := if key in old(entries) then old(entries)[key] else Bucket(limit as real, now);
              var level := Level(b, limit, now);
              && (allowed <==> level >= cost as real)
              && entries == old(entries)[key := if allowed then Bucket(level - cost as real, now) else b]
              && (if allowed then retryAfter == 0 else retryAfter >= 1 && (limit <= 0 ==> retryAfter == 60))
      ensures !HasColon(limitType) ==> forall otherType, otherId ::
                !HasColon(otherType) && (otherType != limitType || otherId != identifier) ==>
                  Lookup(entries, Key(otherType, otherId)) == Lookup(old(entries), Key(otherType, otherId))
    {
      if !HasColon(limitType) {
        OthersHaveOtherKeys(limitType, identifier);
      }
      var key := Key(limitType, identifier);
      var capacity := limit as real;
      var refillRate := capacity / 60.0;
      var b := GetOrSet(key, capacity, now);
      var elapsed := now - b.at;
      var level := MinReal(capacity, b.tokens + elapsed * refillRate);
      assert level == Level(b, limit, now) by {
        assert Refill(limit, elapsed) == elapsed * refillRate;
      }
      if level >= cost as real {
        Update(key, level - cost as real, now);
        return true, 0;
      }
      var needed := cost as real - level;
      var seconds := 60;
      if refillRate > 0.0 {
        seconds := (needed / refillRate).Floor;
      }
      return false, if seconds > 1 then seconds else 1;
    }
  }

  // ---------------------------------------------------------------------------------------------
  // Runs of requests against one key
  // ---------------------------------------------------------------------------------------------

  /** The clock never goes back, starting from `from`. */
  ghost predicate Ordered(from: real, rs: seq<Request>)
    decreases |rs|
  {
    rs != [] ==> from <= rs[0].at && Ordered(rs[0].at, rs[1..])
  }

  /** The decisions the limiter makes over a run. */
  function Decisions(entry: Option<Bucket>, limit: int, rs: seq<Request>): (ds: seq<bool>)
    ensures |ds| == |rs|
    decreases |rs|
  {
    if rs == [] then [] else
      [Allows(entry, limit, rs[0])] + Decisions(Some(After(entry, limit, rs[0])), limit, rs[1..])
  }

  /** The total cost admitted at times within [s, t]. */
  function AdmittedCost(rs: seq<Request>, ds: seq<bool>, s: real, t: real): nat
    requires |ds| == |rs|
  {
    if rs == [] then 0 else
      (if ds[0] && s <= rs[0].at <= t then rs[0].cost else 0) + AdmittedCost(rs[1..], ds[1..], s, t)
  }

  ghost predicate Valid(b: Bucket, limit: int) {
    0.0 <= b.tokens <= limit as real
  }

  lemma RefillAdds(limit: int, a: real, b: real)
    ensures Refill(limit, a + b) == Refill(limit, a) + Refill(limit, b)
  {
  }

  lemma RefillPositive(limit: int, elapsed: real)
    requires limit > 0 && elapsed > 0.0
    ensures Refill(limit, elapsed) > 0.0
  {
    assert elapsed * Rate(limit) > 0.0;
  }

  lemma RefillGrows(limit: int, a: real, b: real)
    requires limit >= 0 && a <= b
    ensures Refill(limit, a) <= Refill(limit, b)
  {
    assert (b - a) * Rate(limit) >= 0.0;
  }

  lemma LevelRange(b: Bucket, limit: int, now: real)
    requires limit >= 0 && Valid(b, limit) && b.at <= now
    ensures b.tokens <= Level(b, limit, now) <= limit as real
    ensures Level(b, limit, now) <= b.tokens + Refill(limit, now - b.at)
  {
    RefillGrows(limit, 0.0, now - b.at);
  }

  /** The stored level stays within [0, limit], and so does what a request finds. */
  lemma StoredLevelWithinCapacity(entry: Option<Bucket>, limit: int, rq: Request)
    requires limit >= 0
    requires entry.Some? ==> Valid(entry.value, limit) && entry.value.at <= rq.at
    ensures Valid(After(entry, limit, rq), limit)
    ensures After(entry, limit, rq).at <= rq.at
    ensures 0.0 <= Level(Found(entry, limit, rq.at), limit, rq.at) <= limit as real
  {
    LevelRange(Found(entry, limit, rq.at), limit, rq.at);
  }

  /** Once the bucket was written inside the window, its tokens plus the refill bound what is left to admit. */
  lemma {:induction false} AdmittedAfterWrite(b: Bucket, limit: int, rs: seq<Request>, s: real, t: real)
    requires Valid(b, limit) && Ordered(b.at, rs) && b.at <= t
    ensures AdmittedCost(rs, Decisions(Some(b), limit, rs), s, t) as real
         <= b.tokens + Refill(limit, t - b.at)
    decreases |rs|
  {
    RefillGrows(limit, 0.0, t - b.at);
    if rs == [] {
    } else {
      var rq := rs[0];
      var b' := After(Some(b), limit, rq);
      StoredLevelWithinCapacity(Some(b), limit, rq);
      OrderedFrom(b'.at, rq.at, rs[1..]);
      assert Decisions(Some(b), limit, rs)[1..] == Decisions(Some(b'), limit, rs[1..]);
      if rq.at <= t {
        AdmittedAfterWrite(b', limit, rs[1..], s, t);
        LevelRange(b, limit, rq.at);
        RefillAdds(limit, rq.at - b.at, t - rq.at);
        assert (rq.at - b.at) + (t - rq.at) == t - b.at;
      } else {
        NothingAfter(rs, Decisions(Some(b), limit, rs), s, t);
      }
    }
  }

  lemma OrderedFrom(a: real, b: real, rs: seq<Request>)
    requires a <= b && Ordered(b, rs)
    ensures Ordered(a, rs)
  {
  }

  lemma {:induction false} NothingAfter(rs: seq<Request>, ds: seq<bool>, s: real, t: real)
    requires |ds| == |rs|
    requires rs != [] ==> t < rs[0].at && Ordered(rs[0].at, rs[1..])
    ensures AdmittedCost(rs, ds, s, t) == 0
  {
    if rs != [] {
      NothingAfter(rs[1..], ds[1..], s, t);
    }
  }

  /**
   Whatever the requests, the cost admitted between any two instants is at most one full bucket plus
   the refill of the interval.
   */
  lemma {:induction false} AdmittedWithinWindow(entry: Option<Bucket>, limit: int, rs: seq<Request>, s: real, t: real)
    requires limit >= 0
    requires entry.Some? ==> Valid(entry.value, limit) && Ordered(entry.value.at, rs)
    requires rs != [] ==> Ordered(rs[0].at, rs)
    requires s <= t
    ensures AdmittedCost(rs, Decisions(entry, limit, rs), s, t) as real
         <= limit as real + Refill(limit, t - s)
    decreases |rs|
  {
    RefillGrows(limit, 0.0, t - s);
    if rs == [] {
    } else {
      var rq := rs[0];
      var b' := After(entry, limit, rq);
      StoredLevelWithinCapacity(entry, limit, rq);
      OrderedFrom(b'.at, rq.at, rs[1..]);
      if rs[1..] != [] {
        OrderedFrom(rs[1..][0].at, rs[1..][0].at, rs[1..]);
      }
      assert Decisions(entry, limit, rs)[1..] == Decisions(Some(b'), limit, rs[1..]);
      if rq.at < s || !Allows(entry, limit, rq) {
        AdmittedWithinWindow(Some(b'), limit, rs[1..], s, t);
      } else if rq.at <= t {
        AdmittedAfterWrite(b', limit, rs[1..], s, t);
        RefillGrows(limit, t - rq.at, t - s);
      } else {
        NothingAfter(rs, Decisions(entry, limit, rs), s, t);
      }
    }
  }

  // ---------------------------------------------------------------------------------------------
  // The simple form: a bucket refilled at every call
  // ---------------------------------------------------------------------------------------------

  function EagerAfter(b: Bucket, limit: int, rq: Request): Bucket {
    var level := Level(b, limit, rq.at);
    Bucket(if level >= rq.cost as real then level - rq.cost as real else level, rq.at)
  }

  function EagerDecisions(b: Bucket, limit: int, rs: seq<Request>): (ds: seq<bool>)
    ensures |ds| == |rs|
    decreases |rs|
  {
    if rs == [] then [] else
      [Level(b, limit, rs[0].at) >= rs[0].cost as real] + EagerDecisions(EagerAfter(b, limit, rs[0]), limit, rs[1..])
  }

  /** Refilling in two steps is refilling once. */
  lemma LevelComposes(b: Bucket, limit: int, mid: real, now: real)
    requires limit >= 0 && mid <= now
    ensures Level(Bucket(Level(b, limit, mid), mid), limit, now) == Level(b, limit, now)
  {
    RefillAdds(limit, mid - b.at, now - mid);
    RefillGrows(limit, 0.0, now - mid);
    assert (mid - b.at) + (now - mid) == now - b.at;
  }

  /** Two buckets that agree at `now` agree ever after. */
  lemma LevelAgrees(b: Bucket, c: Bucket, limit: int, mid: real, now: real)
    requires limit >= 0 && mid <= now
    requires Level(b, limit, mid) == Level(c, limit, mid)
    ensures Level(b, limit, now) == Level(c, limit, now)
  {
    LevelComposes(b, limit, mid, now);
    LevelComposes(c, limit, mid, now);
  }

  lemma {:induction false} LazyIsEagerFrom(b: Bucket, c: Bucket, limit: int, rs: seq<Request>, from: real)
    requires limit >= 0 && Ordered(from, rs)
    requires Level(b, limit, from) == Level(c, limit, from)
    ensures Decisions(Some(b), limit, rs) == EagerDecisions(c, limit, rs)
    decreases |rs|
  {
    if rs == [] {
    } else {
      var rq := rs[0];
      LevelAgrees(b, c, limit, from, rq.at);
      var b', c' := After(Some(b), limit, rq), EagerAfter(c, limit, rq);
      assert Level(b', limit, rq.at) == Level(c', limit, rq.at) by {
        assert Refill(limit, rq.at - rq.at) == 0.0;
      }
      LazyIsEagerFrom(b', c', limit, rs[1..], rq.at);
    }
  }

  /** The lazy limiter takes exactly the decisions of a bucket that starts full and is refilled at every call. */
  lemma LazyIsEager(limit: int, rs: seq<Request>)
    requires limit >= 0 && rs != [] && Ordered(rs[0].at, rs)
    ensures Decisions(None, limit, rs) == EagerDecisions(Bucket(limit as real, rs[0].at), limit, rs)
  {
    var full := Bucket(limit as real, rs[0].at);
    assert Decisions(None, limit, rs) == Decisions(Some(full), limit, rs);
    LazyIsEagerFrom(full, full, limit, rs, rs[0].at);
  }

  // ---------------------------------------------------------------------------------------------
  // The Retry-After hint
  // ---------------------------------------------------------------------------------------------

  /**
   A refused request that waits the advertised time while nothing else happens is admitted exactly when
   there is a limit at all, it asks for no more than the capacity, and the exact wait was at most one second
   or a whole number of seconds: any other wait is truncated downwards.
   */
  lemma RetryAfterSufficesIff(b: Bucket, limit: int, rq: Request)
    requires (limit > 0 ==> Valid(b, limit)) && b.at <= rq.at && !Allows(Some(b), limit, rq)
    ensures var missing := rq.cost as real - Level(b, limit, rq.at);
            && missing > 0.0
            && (Allows(Some(b), limit, Request(rq.at + RetryAfter(missing, limit) as real, rq.cost))
                <==> limit > 0 && rq.cost <= limit && IsTold(missing / Rate(limit)))
  {
    var missing := rq.cost as real - Level(b, limit, rq.at);
    if limit > 0 {
      var wait := missing / Rate(limit);
      var s := RetryAfter(missing, limit) as real;
      assert Refill(limit, wait) == missing;
      LevelComposes(b, limit, rq.at, rq.at + s);
      if wait <= s {
        RefillGrows(limit, wait, s);
      } else {
        RefillAdds(limit, s, wait - s);
        RefillPositive(limit, wait - s);
      }
    } else {
      NoLimitNeverAdmits(b, limit, rq, rq.at + RetryAfter(missing, limit) as real);
    }
  }

  /** The waits that the hint tells in full. */
  predicate IsTold(wait: real) {
    wait <= 1.0 || wait == wait.Floor as real
  }

  /** With a limit of zero or below, what was refused once is refused at all times; the hint of a minute is idle. */
  lemma NoLimitNeverAdmits(b: Bucket, limit: int, rq: Request, later: real)
    requires limit <= 0 && !Allows(Some(b), limit, rq) && b.at <= rq.at <= later
    ensures !Allows(Some(b), limit, Request(later, rq.cost))
    ensures RetryAfter(rq.cost as real - Level(b, limit, rq.at), limit) == 60
  {
    if limit == 0 {
      assert Refill(0, later - b.at) == 0.0 && Refill(0, rq.at - b.at) == 0.0;
    }
  }

  /** The truncation is real: with 40 requests a minute an empty bucket needs 1.5 s, and the hint says 1 s. */
  lemma RetryAfterCanFallShort()
    ensures var b := Bucket(0.0, 0.0);
            !Allows(Some(b), 40, Request(0.0, 1))
            && !Allows(Some(b), 40, Request(RetryAfter(1.0, 40) as real, 1))
  {
    assert 1.0 / Rate(40) == 1.5;
  }

  // ---------------------------------------------------------------------------------------------
  // Many keys in one store
  // ---------------------------------------------------------------------------------------------

  /** A request with the key and the limit it is checked against; one key may see different limits. */
  datatype Call = Call(key: string, limit: int, rq: Request)

  function StoreAfter(entries: Entries, calls: seq<Call>): Entries
    decreases |calls|
  {
    if calls == [] then entries else
      var c := calls[0];
      StoreAfter(entries[c.key := After(Lookup(entries, c.key), c.limit, c.rq)], calls[1..])
  }

  function OfKey(calls: seq<Call>, key: string): seq<Call> {
    if calls == [] then [] else (if calls[0].key == key then [calls[0]] else []) + OfKey(calls[1..], key)
  }

  function EntryAfter(entry: Option<Bucket>, calls: seq<Call>): Option<Bucket>
    decreases |calls|
  {
    if calls == [] then entry else EntryAfter(Some(After(entry, calls[0].limit, calls[0].rq)), calls[1..])
  }

  /** Keys never interfere: after any interleaving, an entry is what its own requests alone would have made of it. */
  lemma {:induction false} KeysAreIndependent(entries: Entries, calls: seq<Call>, key: string)
    ensures Lookup(StoreAfter(entries, calls), key) == EntryAfter(Lookup(entries, key), OfKey(calls, key))
    decreases |calls|
  {
    if calls == [] {
    } else {
      var c := calls[0];
      var entries' := entries[c.key := After(Lookup(entries, c.key), c.limit, c.rq)];
      KeysAreIndependent(entries', calls[1..], key);
      if c.key == key {
        assert OfKey(calls, key)[1..] == OfKey(calls[1..], key);
      } else {
        assert OfKey(calls, key) == OfKey(calls[1..], key);
      }
    }
  }

  /**
   A check of one limit type, whatever its result, changes the decision on no other type or identifier: on a
   new store the first check of each finds a full bucket of its own.
   */
  method TypesDoNotShareABucket(identifier: string, rpm: int, tpm: int, cost: nat, now: real)
    returns (first: bool, second: bool)
    ensures first == (rpm >= 1) && second == (tpm >= cost)
  {
    var store := new RateLimitStore();
    var hint, hint2;
    assert !HasColon("RPM") && !HasColon("TPM") && |"RPM"| == |"TPM"| == 3 && "RPM"[0] != "TPM"[0];
    first, hint := store.CheckRateLimit(identifier, rpm, 1, "RPM", now);
    assert Lookup(store.entries, Key("TPM", identifier)) == None;
    second, hint2 := store.CheckRateLimit(identifier, tpm, cost, "TPM", now);
    assert Refill(rpm, 0.0) == 0.0 && Refill(tpm, 0.0) == 0.0;
  }

  /** Calls of one key with limits from 0 to `top`, on a clock that does not go back from `from`. */
  ghost predicate Orderly(from: real, calls: seq<Call>, top: int)
    decreases |calls|
  {
    calls != [] ==> from <= calls[0].rq.at && 0 <= calls[0].limit <= top && Orderly(calls[0].rq.at, calls[1..], top)
  }

  /**
   Over any run the stored level stays within [0, top], where `top` is the largest limit used, and every
   request finds a level within [0, limit] of its own limit.
   */
  lemma {:induction false} LevelsStayWithinCapacity(entry: Option<Bucket>, calls: seq<Call>, top: int, from: real, n: nat)
    requires Orderly(from, calls, top) && n < |calls|
    requires entry.Some? ==> Valid(entry.value, top) && entry.value.at <= from
    ensures var found := EntryAfter(entry, calls[..n]);
            var c := calls[n];
            && (found.Some? ==> Valid(found.value, top))
            && 0.0 <= Level(Found(found, c.limit, c.rq.at), c.limit, c.rq.at) <= c.limit as real
    decreases n
  {
    var c := calls[0];
    var b := Found(entry, c.limit, c.rq.at);
    RefillGrows(c.limit, 0.0, c.rq.at - b.at);
    if n > 0 {
      assert calls[..n][1..] == calls[1..][..n - 1];
      LevelsStayWithinCapacity(Some(After(entry, c.limit, c.rq)), calls[1..], top, c.rq.at, n - 1);
    } else {
      assert calls[..0] == [];
    }
  }
}
