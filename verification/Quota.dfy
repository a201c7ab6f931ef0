/** The ledger of shared vendor quota, kept in memory and written through to a store that outlives it. */
module Quota {
  import opened Numbers
  import opened Options

  datatype Snapshot = Snapshot(
    vendor: string,
    fiveHourCap: int,
    weeklyCap: int,
    fiveHourUsed: int,
    weeklyUsed: int,
    measuredAt: Option<real>)

  type Snapshots = map<string, Snapshot>

  const FIVE_HOURS := 5 * 60 * 60

  /** A vendor without a snapshot has an unused five-hour cap in both windows. */
  function Of(l: Snapshots, vendor: string): Snapshot {
    if vendor in l then l[vendor] else Snapshot(vendor, FIVE_HOURS, FIVE_HOURS, 0, 0, None)
  }

  function Remaining(s: Snapshot): int {
    Min(Max(0, s.fiveHourCap - s.fiveHourUsed), Max(0, s.weeklyCap - s.weeklyUsed))
  }

  function Burn(estimate: int): int {
    Max(0, estimate)
  }

  predicate HasRoom(l: Snapshots, vendor: string, estimate: int) {
    Remaining(Of(l, vendor)) >= Burn(estimate)
  }

  /** There is room exactly when the burn keeps both windows within their caps, or there is no burn. */
  lemma HasRoomIff(l: Snapshots, vendor: string, estimate: int)
    ensures var s := Of(l, vendor);
            HasRoom(l, vendor, estimate) <==>
            Burn(estimate) == 0 ||
            (s.fiveHourUsed + Burn(estimate) <= s.fiveHourCap && s.weeklyUsed + Burn(estimate) <= s.weeklyCap)
  {
  }

  function Burnt(s: Snapshot, vendor: string, burn: int, now: real): Snapshot {
    Snapshot(vendor, s.fiveHourCap, s.weeklyCap, s.fiveHourUsed + burn, s.weeklyUsed + burn, Some(now))
  }

  function Reserved(l: Snapshots, vendor: string, estimate: int, now: real): Snapshots {
    l[vendor := Burnt(Of(l, vendor), vendor, Burn(estimate), now)]
  }

  ghost predicate WellKeyed(l: Snapshots) {
    forall v :: v in l ==> l[v].vendor == v
  }

  /** What a ledger built on a store starts with: the given snapshots, replaced where the store has one. */
  function Loaded(initial: Snapshots, stored: Snapshots): Snapshots {
    initial + stored
  }

  /** Every vendor of the snapshots is named, and no other. */
  ghost predicate Enumerates(order: seq<string>, l: Snapshots) {
    (forall k :: 0 <= k < |order| ==> order[k] in l) && forall v :: v in l ==> exists k :: 0 <= k < |order| && order[k] == v
  }

  /** A stored hash after the snapshots were written to it in that order, each under its own vendor. */
  function Persisted(hash: Snapshots, l: Snapshots, order: seq<string>): Snapshots
    requires forall k :: 0 <= k < |order| ==> order[k] in l
  {
    if order == [] then hash else
      var s := l[order[|order| - 1]];
      Persisted(hash, l, order[..|order| - 1])[s.vendor := s]
  }

  /** Snapshots filed under their own vendors are all stored, and nothing else changes. */
  lemma {:induction false} WellKeyedPersisted(hash: Snapshots, l: Snapshots, order: seq<string>, v: string)
    requires WellKeyed(l) && forall k :: 0 <= k < |order| ==> order[k] in l
    ensures var h := Persisted(hash, l, order);
            && ((exists k :: 0 <= k < |order| && order[k] == v) ==> v in h && h[v] == l[v])
            && ((forall k :: 0 <= k < |order| ==> order[k] != v) ==> (v in h <==> v in hash) && (v in h ==> h[v] == hash[v]))
    decreases |order|
  {
    if order != [] {
      var n := |order| - 1;
      WellKeyedPersisted(hash, l, order[..n], v);
      assert forall k :: 0 <= k < n ==> order[..n][k] == order[k];
      if exists k :: 0 <= k < |order| && order[k] == v {
        var k :| 0 <= k < |order| && order[k] == v;
        assert k < n ==> order[..n][k] == v;
      }
    }
  }

  lemma AllPersisted(hash: Snapshots, l: Snapshots, order: seq<string>)
    requires WellKeyed(l) && Enumerates(order, l) && hash.Keys <= l.Keys
    ensures Persisted(hash, l, order) == l
  {
    var h := Persisted(hash, l, order);
    forall v ensures (v in h <==> v in l) && (v in h ==> h[v] == l[v]) {
      WellKeyedPersisted(hash, l, order, v);
    }
  }

  /** The hash of snapshots in the external store. */
  class Store {
    var hash: Snapshots

    constructor ()
      ensures hash == map[]
    {
      hash := map[];
    }
  }

  class QuotaLedger {
    const store: Store?
    var snapshots: Snapshots

    /** The store, if there is one, holds exactly what the ledger holds. */
    ghost predicate Durable()
      reads this, store
    {
      WellKeyed(snapshots) && (store != null ==> store.hash == snapshots)
    }

    /** `order` is the order in which the dictionary of all snapshots is gone through. */
    constructor (initial: Snapshots, store: Store?, order: seq<string>)
      requires Enumerates(order, if store == null then initial else Loaded(initial, store.hash))
      modifies store
      ensures this.store == store
      ensures snapshots == if store == null then initial else Loaded(initial, old(store.hash))
      ensures store != null ==> store.hash == Persisted(old(store.hash), snapshots, order)
      ensures WellKeyed(snapshots) ==> Durable()
    {
      this.store := store;
      this.snapshots := if store == null then initial else Loaded(initial, store.hash);
      new;
      ghost var before := if store == null then map[] else store.hash;
      for k := 0 to |order|
        invariant this.store == store && snapshots == old(if store == null then initial else Loaded(initial, store.hash))
        invariant store != null ==> store.hash == Persisted(before, snapshots, order[..k])
      {
        Persist(snapshots[order[k]]);
        assert order[..k + 1][..k] == order[..k];
      }
      assert order[..|order|] == order;
      if store != null && WellKeyed(snapshots) {
        AllPersisted(before, snapshots, order);
      }
    }

    method Persist(s: Snapshot)
      modifies store
      ensures store != null ==> store.hash == old(store.hash)[s.vendor := s]
    {
      if store != null {
        store.hash := store.hash[s.vendor := s];
      }
    }

    method SetSnapshot(s: Snapshot)
      modifies this`snapshots, store
      ensures snapshots == old(snapshots)[s.vendor := s]
      ensures store != null ==> store.hash == old(store.hash)[s.vendor := s]
      ensures old(Durable()) ==> Durable()
    {
      snapshots := snapshots[s.vendor := s];
      Persist(s);
    }

    method HasHeadroom(vendor: string, estimate: int) returns (ok: bool)
      ensures ok == HasRoom(snapshots, vendor, estimate)
      ensures vendor in snapshots && estimate > 0 ==>
                var s := snapshots[vendor];
                ok <==> s.fiveHourUsed + estimate <= s.fiveHourCap && s.weeklyUsed + estimate <= s.weeklyCap
      ensures vendor !in snapshots ==> (ok <==> estimate <= 18000)
      ensures estimate <= 0 ==> ok
    {
      return Remaining(Of(snapshots, vendor)) >= Burn(estimate);
    }

    method Reserve(vendor: string, estimate: int, now: real)
      modifies this`snapshots, store
      ensures snapshots == Reserved(old(snapshots), vendor, estimate, now)
      ensures vendor in snapshots && snapshots == old(snapshots)[vendor := snapshots[vendor]]
      ensures var s, burn := snapshots[vendor], if estimate > 0 then estimate else 0;
              && s.vendor == vendor && s.measuredAt == Some(now)
              && (vendor in old(snapshots) ==>
                    var before := old(snapshots)[vendor];
                    && s.fiveHourCap == before.fiveHourCap && s.weeklyCap == before.weeklyCap
                    && s.fiveHourUsed == before.fiveHourUsed + burn && s.weeklyUsed == before.weeklyUsed + burn)
              && (vendor !in old(snapshots) ==>
                    s.fiveHourCap == s.weeklyCap == 18000 && s.fiveHourUsed == s.weeklyUsed == burn)
      ensures old(Durable()) ==> Durable()
    {
      var current := Of(snapshots, vendor);
      SetSnapshot(Burnt(current, vendor, Burn(estimate), now));
    }
  }

  /** A ledger rebuilt from the store of another one is identical exactly when it is given no vendor of its own. */
  lemma RebuiltIff(initial: Snapshots, l: Snapshots)
    ensures Loaded(initial, l) == l <==> initial.Keys <= l.Keys
  {
    if Loaded(initial, l) == l {
      forall v | v in initial ensures v in l {
        assert v in Loaded(initial, l);
      }
    }
  }
}
