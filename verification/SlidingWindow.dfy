/**
 The two sliding-window limiters: the per-client request limiter of the security middleware and the
 per-consumer minute quota of the LLM gateway. Each keeps, per client, a deque of admission times and
 drops expired ones from the front only.
 */
module SlidingWindow {
  import opened Options

  /** The deque after popping from the front while the front has expired. */
  function DropExpired(hits: seq<real>, cutoff: real): seq<real>
    decreases |hits|
  {
    if hits != [] && hits[0] <= cutoff then DropExpired(hits[1..], cutoff) else hits
  }

  predicate HasRoom(hits: seq<real>, limit: int, window: real, now: real) {
    |DropExpired(hits, now - window)| < limit
  }

  /** The deque after one request at `now`. */
  function AfterRequest(hits: seq<real>, limit: int, window: real, now: real): seq<real> {
    var live := DropExpired(hits, now - window);
    if |live| < limit then live + [now] else live
  }

  function WholeSecondsAtLeastOne(wait: real): (s: int)
    ensures s >= 1
  {
    if wait.Floor > 1 then wait.Floor else 1
  }

  function HitsOf(log: map<string, seq<real>>, client: string): seq<real> {
    if client in log then log[client] else []
  }

  /** The per-client deques of a limiter. */
  class HitLog {
    var hits: map<string, seq<real>>

    constructor ()
      ensures hits == map[]
    {
      hits := map[];
    }

    method Evict(client: string, cutoff: real) returns (live: seq<real>)
      modifies this
      ensures live == DropExpired(HitsOf(old(hits), client), cutoff)
      ensures hits == old(hits)[client := live]
    {
      live := HitsOf(hits, client);
      while live != [] && live[0] <= cutoff
        invariant DropExpired(live, cutoff) == DropExpired(HitsOf(hits, client), cutoff)
        decreases |live|
      {
        live := live[1..];
      }
      hits := hits[client := live];
    }

    /** The middleware's check: None lets the request pass, Some(s) refuses it with a Retry-After of s seconds. */
    method RateLimitResponse(client: string, limit: int, window: real, now: real) returns (refusal: Option<int>)
      modifies this
      ensures limit <= 0 ==> refusal == None && hits == old(hits)
      ensures limit > 0 ==>
                var before := HitsOf(old(hits), client);
                && hits == old(hits)[client := AfterRequest(before, limit, window, now)]
                && (refusal == None <==> HasRoom(before, limit, window, now))
                && (refusal.Some? ==> refusal.value ==
                                      WholeSecondsAtLeastOne(DropExpired(before, now - window)[0] + window - now))
    {
      if limit <= 0 {
        return None;
      }
      var live := Evict(client, now - window);
      if |live| >= limit {
        return Some(WholeSecondsAtLeastOne(live[0] + window - now));
      }
      hits := hits[client := live + [now]];
      return None;
    }

    /** The gateway's check over a fixed 60-second window. False stands for the quota error. */
    method CheckQuota(consumer: string, quota: int, now: real) returns (ok: bool)
      modifies this
      ensures quota <= 0 ==> ok && hits == old(hits)
      ensures quota > 0 ==>
                var before := HitsOf(old(hits), consumer);
                && hits == old(hits)[consumer := AfterRequest(before, quota, 60.0, now)]
                && ok == HasRoom(before, quota, 60.0, now)
    {
      if quota <= 0 {
        return true;
      }
      var live := Evict(consumer, now - 60.0);
      if |live| >= quota {
        return false;
      }
      hits := hits[consumer := live + [now]];
      return true;
    }
  }

  // ---------------------------------------------------------------------------------------------
  // Whole runs of one client, and the simple form: a filter over everything ever admitted
  // ---------------------------------------------------------------------------------------------

  ghost predicate Ordered(times: seq<real>) {
    forall i, j :: 0 <= i < j < |times| ==> times[i] <= times[j]
  }

  ghost predicate AtMost(times: seq<real>, hi: real) {
    forall i :: 0 <= i < |times| ==> times[i] <= hi
  }

  function Last(times: seq<real>): real
    requires times != []
  {
    times[|times| - 1]
  }

  function Front(times: seq<real>): seq<real>
    requires times != []
  {
    times[..|times| - 1]
  }

  /** The deque after requests at all the given times. */
  function HitsAfter(times: seq<real>, limit: int, window: real): seq<real>
    decreases |times|
  {
    if times == [] then [] else AfterRequest(HitsAfter(Front(times), limit, window), limit, window, Last(times))
  }

  /** Every request time of the run that was admitted. */
  function AdmittedTimes(times: seq<real>, limit: int, window: real): seq<real>
    decreases |times|
  {
    if times == [] then []
    else if HasRoom(HitsAfter(Front(times), limit, window), limit, window, Last(times)) then
      AdmittedTimes(Front(times), limit, window) + [Last(times)]
    else
      AdmittedTimes(Front(times), limit, window)
  }

  /** The entries of `times` within the half-open interval (lo, hi]. */
  function Within(times: seq<real>, lo: real, hi: real): seq<real>
    decreases |times|
  {
    if times == [] then []
    else if lo < Last(times) <= hi then Within(Front(times), lo, hi) + [Last(times)]
    else Within(Front(times), lo, hi)
  }

  lemma {:induction false} AdmittedAreOrdered(times: seq<real>, limit: int, window: real)
    requires Ordered(times)
    ensures Ordered(AdmittedTimes(times, limit, window))
    ensures times != [] ==> AtMost(AdmittedTimes(times, limit, window), Last(times))
    decreases |times|
  {
    if times != [] {
      AdmittedAreOrdered(Front(times), limit, window);
    }
  }

  /** On an ordered deque, popping expired fronts is filtering. */
  lemma {:induction false} DropIsFilter(times: seq<real>, cutoff: real, hi: real)
    requires Ordered(times) && AtMost(times, hi)
    ensures DropExpired(times, cutoff) == Within(times, cutoff, hi)
    decreases |times|
  {
    if times == [] {
    } else if Last(times) <= cutoff {
      AllExpired(times, cutoff, hi);
    } else {
      DropIsFilter(Front(times), cutoff, hi);
      DropFront(times, cutoff);
    }
  }

  lemma {:induction false} AllExpired(times: seq<real>, cutoff: real, hi: real)
    requires AtMost(times, cutoff)
    ensures DropExpired(times, cutoff) == [] == Within(times, cutoff, hi)
    decreases |times|
  {
    if times != [] {
      AllExpired(times[1..], cutoff, hi);
      AllExpired(Front(times), cutoff, hi);
    }
  }

  lemma {:induction false} DropFront(times: seq<real>, cutoff: real)
    requires times != [] && cutoff < Last(times)
    ensures DropExpired(times, cutoff) == DropExpired(Front(times), cutoff) + [Last(times)]
    decreases |times|
  {
    if times[0] <= cutoff {
      DropFront(times[1..], cutoff);
      assert Front(times)[1..] == Front(times[1..]);
    } else {
      assert Front(times) + [Last(times)] == times;
    }
  }

  /** A later cutoff may be applied on top of an earlier one. */
  lemma {:induction false} DropTwice(times: seq<real>, early: real, late: real)
    requires early <= late
    ensures DropExpired(DropExpired(times, early), late) == DropExpired(times, late)
    decreases |times|
  {
    if times != [] && times[0] <= early {
      DropTwice(times[1..], early, late);
    }
  }

  lemma DropAppend(times: seq<real>, x: real, cutoff: real)
    ensures cutoff < x ==> DropExpired(times + [x], cutoff) == DropExpired(times, cutoff) + [x]
  {
    if cutoff < x {
      DropFront(times + [x], cutoff);
      assert Front(times + [x]) == times;
    }
  }

  /** Trimming for a later cutoff, after one admission at `last` on top of both sequences. */
  lemma TrimAfterAdmission(live: seq<real>, admitted: seq<real>, last: real, cutoff: real)
    requires DropExpired(live, cutoff) == DropExpired(admitted, cutoff)
    requires AtMost(live, last) && AtMost(admitted, last)
    ensures DropExpired(live + [last], cutoff) == DropExpired(admitted + [last], cutoff)
  {
    if cutoff < last {
      DropAppend(live, last, cutoff);
      DropAppend(admitted, last, cutoff);
    } else {
      AllExpired(live + [last], cutoff, cutoff);
      AllExpired(admitted + [last], cutoff, cutoff);
    }
  }

  /**
   Eviction loses nothing that matters: at the next check the deque, once trimmed, is the admitted
   history trimmed to the same window.
   */
  lemma {:induction false} TrimmedDequeIsTrimmedHistory(times: seq<real>, limit: int, window: real, now: real)
    requires Ordered(times + [now])
    ensures DropExpired(HitsAfter(times, limit, window), now - window)
         == DropExpired(AdmittedTimes(times, limit, window), now - window)
    decreases |times|
  {
    if times == [] {
    } else {
      var front, last := Front(times), Last(times);
      var hits, admitted := HitsAfter(front, limit, window), AdmittedTimes(front, limit, window);
      OrderedPrefix(times, now);
      assert front + [last] == times;
      TrimmedDequeIsTrimmedHistory(front, limit, window, last);
      var live := DropExpired(hits, last - window);
      DropTwice(hits, last - window, now - window);
      DropTwice(admitted, last - window, now - window);
      if HasRoom(hits, limit, window, last) {
        AdmittedUpToNow(front, limit, window, last);
        DropAtMost(admitted, last - window, last);
        TrimAfterAdmission(live, admitted, last, now - window);
      }
    }
  }

  lemma {:induction false} DropAtMost(times: seq<real>, cutoff: real, hi: real)
    requires AtMost(times, hi)
    ensures AtMost(DropExpired(times, cutoff), hi)
    decreases |times|
  {
    if times != [] && times[0] <= cutoff {
      DropAtMost(times[1..], cutoff, hi);
    }
  }

  lemma AdmittedUpToNow(times: seq<real>, limit: int, window: real, now: real)
    requires Ordered(times + [now])
    ensures Ordered(AdmittedTimes(times, limit, window)) && AtMost(AdmittedTimes(times, limit, window), now)
  {
    OrderedPrefix(times, now);
    AdmittedAreOrdered(times, limit, window);
    assert times != [] ==> Last(times) <= now;
  }

  /** The fast limiter decides as the simple one: it counts every admission within the last `window` seconds. */
  lemma RoomIsCountedOverFullHistory(times: seq<real>, limit: int, window: real, now: real)
    requires Ordered(times + [now])
    ensures DropExpired(HitsAfter(times, limit, window), now - window)
         == Within(AdmittedTimes(times, limit, window), now - window, now)
    ensures HasRoom(HitsAfter(times, limit, window), limit, window, now)
         <==> |Within(AdmittedTimes(times, limit, window), now - window, now)| < limit
  {
    TrimmedDequeIsTrimmedHistory(times, limit, window, now);
    AdmittedUpToNow(times, limit, window, now);
    DropIsFilter(AdmittedTimes(times, limit, window), now - window, now);
  }

  lemma OrderedPrefix(times: seq<real>, now: real)
    requires Ordered(times + [now])
    ensures Ordered(times) && AtMost(times, now)
  {
    var all := times + [now];
    assert forall i :: 0 <= i < |times| ==> times[i] == all[i] && all[|times|] == now;
  }

  /** Moving the window's start later, or its end up to a bound on all entries, cannot let more in. */
  lemma {:induction false} WithinShrinks(times: seq<real>, lo: real, lo': real, hi: real, hi': real)
    requires lo <= lo' && AtMost(times, hi)
    ensures |Within(times, lo', hi')| <= |Within(times, lo, hi)|
    decreases |times|
  {
    if times != [] {
      WithinShrinks(Front(times), lo, lo', hi, hi');
    }
  }

  /** One more admission when there is room within its own window overfills no window. */
  lemma OneMoreFits(admitted: seq<real>, limit: nat, window: real, now: real, t: real)
    requires AtMost(admitted, now) && |Within(admitted, now - window, now)| < limit
    requires |Within(admitted, t - window, t)| <= limit
    ensures |Within(admitted + [now], t - window, t)| <= limit
  {
    assert Front(admitted + [now]) == admitted;
    if t - window < now <= t {
      WithinShrinks(admitted, now - window, t - window, now, t);
    }
  }

  /** No window of `window` seconds, wherever it ends, ever holds more than `limit` admitted requests. */
  lemma {:induction false} NoWindowOverfull(times: seq<real>, limit: nat, window: real, t: real)
    requires Ordered(times)
    ensures |Within(AdmittedTimes(times, limit, window), t - window, t)| <= limit
    decreases |times|
  {
    if times == [] {
    } else {
      var front, last := Front(times), Last(times);
      var admitted := AdmittedTimes(front, limit, window);
      NoWindowOverfull(front, limit, window, t);
      if HasRoom(HitsAfter(front, limit, window), limit, window, last) {
        assert front + [last] == times;
        RoomIsCountedOverFullHistory(front, limit, window, last);
        AdmittedUpToNow(front, limit, window, last);
        OneMoreFits(admitted, limit, window, last, t);
      }
    }
  }

  /** A request is refused exactly when its own window already holds `limit` admitted requests. */
  lemma RefusedIffOwnWindowFull(times: seq<real>, limit: nat, window: real, now: real)
    requires Ordered(times + [now])
    ensures !HasRoom(HitsAfter(times, limit, window), limit, window, now)
       <==> |Within(AdmittedTimes(times, limit, window), now - window, now)| == limit
  {
    RoomIsCountedOverFullHistory(times, limit, window, now);
    OrderedPrefix(times, now);
    NoWindowOverfull(times, limit, window, now);
  }

  /**
   With nothing in between, a refused client is admitted again exactly from the moment the oldest of
   the admissions counted against it leaves the window.
   */
  lemma ReadmittedFrom(times: seq<real>, limit: nat, window: real, now: real, later: real)
    requires limit > 0 && Ordered(times + [now]) && now <= later
    requires !HasRoom(HitsAfter(times, limit, window), limit, window, now)
    ensures var live := DropExpired(HitsAfter(times, limit, window), now - window);
            && |live| == limit
            && (HasRoom(HitsAfter(times + [now], limit, window), limit, window, later)
                <==> live[0] + window <= later)
  {
    RefusedIffOwnWindowFull(times, limit, window, now);
    RoomIsCountedOverFullHistory(times, limit, window, now);
    RefusalOnlyTrims(times, limit, window, now);
    RoomWhenOldestLeaves(DropExpired(HitsAfter(times, limit, window), now - window), later - window);
  }

  lemma RefusalOnlyTrims(times: seq<real>, limit: nat, window: real, now: real)
    requires !HasRoom(HitsAfter(times, limit, window), limit, window, now)
    ensures HitsAfter(times + [now], limit, window) == DropExpired(HitsAfter(times, limit, window), now - window)
  {
    assert Front(times + [now]) == times;
  }

  lemma RoomWhenOldestLeaves(live: seq<real>, cutoff: real)
    requires live != []
    ensures |DropExpired(live, cutoff)| < |live| <==> live[0] <= cutoff
  {
    DropShrinks(live[1..], cutoff);
  }

  lemma {:induction false} DropShrinks(times: seq<real>, cutoff: real)
    ensures |DropExpired(times, cutoff)| <= |times|
    decreases |times|
  {
    if times != [] && times[0] <= cutoff {
      DropShrinks(times[1..], cutoff);
    }
  }

  /** The advertised Retry-After is truncated: it is long enough exactly for waits of at most, or of whole, seconds. */
  lemma RetryAfterSufficesIff(times: seq<real>, limit: nat, window: real, now: real)
    requires limit > 0 && Ordered(times + [now])
    requires !HasRoom(HitsAfter(times, limit, window), limit, window, now)
    ensures var live := DropExpired(HitsAfter(times, limit, window), now - window);
            && |live| == limit
            && var wait := live[0] + window - now;
               HasRoom(HitsAfter(times + [now], limit, window), limit, window, now + WholeSecondsAtLeastOne(wait) as real)
               <==> wait <= 1.0 || wait == wait.Floor as real
  {
    RefusedIffOwnWindowFull(times, limit, window, now);
    RoomIsCountedOverFullHistory(times, limit, window, now);
    var wait := DropExpired(HitsAfter(times, limit, window), now - window)[0] + window - now;
    ReadmittedFrom(times, limit, window, now, now + WholeSecondsAtLeastOne(wait) as real);
  }

  // ---------------------------------------------------------------------------------------------
  // Many clients in one log
  // ---------------------------------------------------------------------------------------------

  datatype Call = Call(client: string, at: real)

  /** The log after the calls of all clients, each handled as the two checks do. */
  function LogAfter(calls: seq<Call>, limit: int, window: real): map<string, seq<real>>
    decreases |calls|
  {
    if calls == [] then map[] else
      var before, c := LogAfter(calls[..|calls| - 1], limit, window), calls[|calls| - 1];
      before[c.client := AfterRequest(HitsOf(before, c.client), limit, window, c.at)]
  }

  function TimesOf(calls: seq<Call>, client: string): seq<real>
    decreases |calls|
  {
    if calls == [] then [] else
      var before, c := TimesOf(calls[..|calls| - 1], client), calls[|calls| - 1];
      if c.client == client then before + [c.at] else before
  }

  /** Clients never interfere: after any interleaving, a deque is what the client's own requests alone leave. */
  lemma {:induction false} ClientsAreIndependent(calls: seq<Call>, limit: int, window: real, client: string)
    ensures HitsOf(LogAfter(calls, limit, window), client) == HitsAfter(TimesOf(calls, client), limit, window)
    decreases |calls|
  {
    if calls != [] {
      var front, c := calls[..|calls| - 1], calls[|calls| - 1];
      ClientsAreIndependent(front, limit, window, client);
      if c.client == client {
        assert Front(TimesOf(calls, client)) == TimesOf(front, client);
      }
    }
  }

  /**
   So whatever the other clients do, a client is let through exactly when fewer than the limit of its own
   admitted requests lie in its window.
   */
  lemma AdmissionIsPerClient(calls: seq<Call>, limit: nat, window: real, client: string, now: real)
    requires Ordered(TimesOf(calls, client) + [now])
    ensures HasRoom(HitsOf(LogAfter(calls, limit, window), client), limit, window, now)
       <==> |Within(AdmittedTimes(TimesOf(calls, client), limit, window), now - window, now)| < limit
  {
    ClientsAreIndependent(calls, limit, window, client);
    RoomIsCountedOverFullHistory(TimesOf(calls, client), limit, window, now);
  }

  /** One request a minute: refused after 58.5 seconds, a client is told to wait one second, and refused again. */
  lemma RetryAfterCanFallShort()
    ensures Ordered([0.0, 58.5])
    ensures !HasRoom(HitsAfter([0.0], 1, 60.0), 1, 60.0, 58.5)
    ensures WholeSecondsAtLeastOne(HitsAfter([0.0], 1, 60.0)[0] + 60.0 - 58.5) == 1
    ensures !HasRoom(HitsAfter([0.0, 58.5], 1, 60.0), 1, 60.0, 58.5 + 1.0)
  {
    assert Front([0.0]) == [] && Front([0.0, 58.5]) == [0.0] == [] + [0.0];
    assert HitsAfter([0.0], 1, 60.0) == [0.0];
    RefusalOnlyTrims([0.0], 1, 60.0, 58.5);
    assert [0.0] + [58.5] == [0.0, 58.5];
  }
}
