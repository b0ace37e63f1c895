/** Eviction from the cache of seen sighting ids. */
module Cache {

  /** The entries of `used` that are not expired at time `now`: an entry is expired when its
      expiration is strictly before `now`. */
  function Unexpired(used: map<string, int>, now: int): map<string, int>
  {
    map id | id in used && !(used[id] < now) :: used[id]
  }

  /** Eviction removes exactly the expired ids and keeps the others with their values
      (the comprehension above, spelled out key by key). */
  lemma UnexpiredExactly(used: map<string, int>, now: int)
    ensures forall id :: id in Unexpired(used, now) <==> id in used && now <= used[id]
    ensures forall id :: id in Unexpired(used, now) ==> Unexpired(used, now)[id] == used[id]
  {
  }

  /** Evicting later evicts at least as much: what survives at n2 survives at any n1 <= n2,
      with the same value. */
  lemma UnexpiredMonotone(used: map<string, int>, n1: int, n2: int)
    requires n1 <= n2
    ensures Unexpired(used, n2).Keys <= Unexpired(used, n1).Keys
    ensures forall id :: id in Unexpired(used, n2) ==> Unexpired(used, n2)[id] == Unexpired(used, n1)[id]
  {
  }

  /** A second eviction at the same time changes nothing. */
  lemma UnexpiredIdempotent(used: map<string, int>, now: int)
    ensures Unexpired(Unexpired(used, now), now) == Unexpired(used, now)
  {
  }

  /** An id expiring at T survives an eviction at T - 1 and at T, and is gone after one at T + 1. */
  lemma EvictionAroundExpiry(used: map<string, int>, id: string)
    requires id in used
    ensures id in Unexpired(used, used[id] - 1)
    ensures id in Unexpired(used, used[id])
    ensures id !in Unexpired(used, used[id] + 1)
  {
  }
}
