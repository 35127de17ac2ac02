/** The least-connections strategy: one in-flight counter per provider, shared by all replicas. */
module LeastConnections {
  import opened Shared

  type Id = string

  const CONNECTION_TTL_MS := 600_000

  type Counters = map<Id, Lease>

  function Lookup(cs: Counters, id: Id, now: int): Lease {
    if id in cs then cs[id].At(now) else Absent
  }

  /** The in-flight gauge a script started at `now` reads. */
  function Gauge(cs: Counters, id: Id, now: int): int {
    Lookup(cs, id, now).Value()
  }

  /** The position the scan settles on. */
  function MinIndex(cs: Counters, ids: seq<Id>, now: int): (k: nat)
    requires ids != []
    ensures k < |ids|
  {
    var n := |ids| - 1;
    if n == 0 then 0
    else
      var k := MinIndex(cs, ids[..n], now);
      if Gauge(cs, ids[n], now) < Gauge(cs, ids[k], now) then n else k
  }

  function Chosen(cs: Counters, ids: seq<Id>, now: int): Id
    requires ids != []
  {
    ids[MinIndex(cs, ids, now)]
  }

  function Taken(cs: Counters, id: Id, now: int): Counters {
    cs[id := Lookup(cs, id, now).Incremented(now + CONNECTION_TTL_MS)]
  }

  function Returned(cs: Counters, id: Id, now: int): Counters {
    cs[id := Lookup(cs, id, now).Decremented()]
  }

  class ConnectionCounters {
    var counters: Counters

    constructor ()
      ensures counters == map[]
    {
      counters := map[];
    }

    /** Scan for the least loaded candidate and count one more request on it, in one script. `None` is the empty-list error. */
    method Select(ids: seq<Id>, now: int) returns (chosen: Option<Id>)
      modifies this
      ensures ids == [] ==> chosen.None? && counters == old(counters)
      ensures ids != [] ==>
        chosen == Some(Chosen(old(counters), ids, now)) && counters == Taken(old(counters), chosen.value, now)
    {
      if ids == [] {
        return None;
      }
      var minIdx, minVal := 0, Gauge(counters, ids[0], now);
      for i := 1 to |ids|
        invariant minIdx == MinIndex(counters, ids[..i], now)
        invariant minIdx < i && minVal == Gauge(counters, ids[minIdx], now)
        invariant counters == old(counters)
      {
        assert ids[..i + 1][..i] == ids[..i];
        var v := Gauge(counters, ids[i], now);
        if v < minVal {
          minVal, minIdx := v, i;
        }
      }
      assert ids[..|ids|] == ids;
      var id := ids[minIdx];
      counters := counters[id := Lookup(counters, id, now).Incremented(now + CONNECTION_TTL_MS)];
      chosen := Some(id);
    }

    /** Count one request less, never below zero. */
    method Release(id: Id, now: int)
      modifies this
      ensures Lookup(old(counters), id, now).Value() > 0 ==> counters == Returned(old(counters), id, now)
      ensures Lookup(old(counters), id, now).Value() <= 0 ==> counters == old(counters)
    {
      if Gauge(counters, id, now) > 0 {
        counters := counters[id := Lookup(counters, id, now).Decremented()];
      }
    }
  }

  /** The choice is the first candidate whose gauge is least. */
  lemma {:induction false} ChosenIsFirstLeast(cs: Counters, ids: seq<Id>, now: int)
    requires ids != []
    ensures var k := MinIndex(cs, ids, now);
      && (forall j :: 0 <= j < |ids| ==> Gauge(cs, ids[k], now) <= Gauge(cs, ids[j], now))
      && (forall j :: 0 <= j < k ==> Gauge(cs, ids[k], now) < Gauge(cs, ids[j], now))
  {
    if |ids| > 1 {
      var front := ids[..|ids| - 1];
      ChosenIsFirstLeast(cs, front, now);
      assert forall j :: 0 <= j < |front| ==> Gauge(cs, ids[j], now) == Gauge(cs, front[j], now);
    }
  }
}
