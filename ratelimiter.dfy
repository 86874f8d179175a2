/**
 * Per-user admission control (backend/ratelimiter.go). Times are integers
 * in nanoseconds, the unit of Go's time.Duration; the clock is a parameter.
 * The lock is not modelled: each method is one critical section.
 */
module RateLimit {

  /** How long an idle entry is kept: 10 minutes, in nanoseconds. */
  const Retention: int := 600_000_000_000

  /**
   * The decision Allow makes for `userId` at time `now`: whether the pixel is
   * admitted, and the map afterwards.
   */
  function Admit(lastUpdate: map<string, int>, cooldown: int, userId: string, now: int): (r: (bool, map<string, int>))
    ensures r.0 <==> userId !in lastUpdate || now - lastUpdate[userId] >= cooldown
    ensures r.0 ==> userId in r.1 && r.1[userId] == now
    ensures !r.0 ==> r.1 == lastUpdate
    ensures r.1.Keys == lastUpdate.Keys + {userId}
    ensures forall v :: v in lastUpdate && v != userId ==> r.1[v] == lastUpdate[v]
  {
    if userId !in lastUpdate then (true, lastUpdate[userId := now])
    else if now - lastUpdate[userId] < cooldown then (false, lastUpdate)
    else (true, lastUpdate[userId := now])
  }

  /** An entry survives a sweep at `now` unless it is more than Retention old. */
  predicate Recent(last: int, now: int) {
    now - last <= Retention
  }

  /** The map a sweep at `now` leaves: the recent entries, with their values. */
  function Swept(lastUpdate: map<string, int>, now: int): (r: map<string, int>)
    ensures forall u :: u in r <==> u in lastUpdate && Recent(lastUpdate[u], now)
    ensures forall u :: u in r ==> r[u] == lastUpdate[u]
  {
    map u | u in lastUpdate && Recent(lastUpdate[u], now) :: lastUpdate[u]
  }

  class RateLimiter {
    var lastUpdate: map<string, int>
    const cooldown: int

    /** NewRateLimiter, without the background sweeper. */
    constructor (cooldown: int)
      ensures lastUpdate == map[] && this.cooldown == cooldown
    {
      lastUpdate := map[];
      this.cooldown := cooldown;
    }

    /**
     * Admits a first-seen user or one whose cooldown has elapsed, recording
     * `now`; rejects otherwise and leaves the map alone.
     */
    method Allow(userId: string, now: int) returns (allowed: bool)
      modifies this
      ensures userId !in old(lastUpdate) ==> allowed && lastUpdate == old(lastUpdate)[userId := now]
      ensures userId in old(lastUpdate) && now - old(lastUpdate)[userId] < cooldown ==>
        !allowed && lastUpdate == old(lastUpdate)
      ensures userId in old(lastUpdate) && now - old(lastUpdate)[userId] >= cooldown ==>
        allowed && lastUpdate == old(lastUpdate)[userId := now]
      ensures (allowed, lastUpdate) == Admit(old(lastUpdate), cooldown, userId, now)
    {
      if userId !in lastUpdate {
        lastUpdate := lastUpdate[userId := now];
        return true;
      }
      var sinceLast := now - lastUpdate[userId];
      if sinceLast < cooldown {
        return false;
      }
      lastUpdate := lastUpdate[userId := now];
      allowed := true;
    }

    /** One pass of the periodic cleanup: deletes every entry more than Retention old. */
    method Sweep(now: int)
      modifies this
      ensures lastUpdate == Swept(old(lastUpdate), now)
    {
      var pending := lastUpdate.Keys;
      while pending != {}
        invariant pending <= old(lastUpdate).Keys
        invariant lastUpdate.Keys <= old(lastUpdate).Keys
        invariant forall u :: u in lastUpdate ==> lastUpdate[u] == old(lastUpdate)[u]
        invariant forall u :: u in pending ==> u in lastUpdate
        invariant forall u :: u in old(lastUpdate) && u !in pending ==>
          (u in lastUpdate <==> Recent(old(lastUpdate)[u], now))
        decreases pending
      {
        var u :| u in pending;
        if now - lastUpdate[u] > Retention {
          lastUpdate := lastUpdate - {u};
        }
        pending := pending - {u};
      }
    }
  }

  /** A second call at the same instant is always rejected when the cooldown is positive. */
  lemma SameInstantSecondCallRejected(lastUpdate: map<string, int>, cooldown: int, userId: string, now: int)
    requires cooldown > 0
    ensures !Admit(Admit(lastUpdate, cooldown, userId, now).1, cooldown, userId, now).0
  {
  }

  /** The first call for an unseen user is admitted and the second, at once, is not. */
  lemma FreshUserOnceThenRejected(lastUpdate: map<string, int>, cooldown: int, userId: string, now: int)
    requires cooldown > 0 && userId !in lastUpdate
    ensures Admit(lastUpdate, cooldown, userId, now).0
    ensures !Admit(Admit(lastUpdate, cooldown, userId, now).1, cooldown, userId, now).0
  {
  }

  /** After an admitted call, the user is admitted again once exactly the cooldown has passed. */
  lemma AdmittedAgainAfterCooldown(lastUpdate: map<string, int>, cooldown: int, userId: string, t: int, later: int)
    requires Admit(lastUpdate, cooldown, userId, t).0
    requires later - t >= cooldown
    ensures Admit(Admit(lastUpdate, cooldown, userId, t).1, cooldown, userId, later).0
  {
  }

  /** Admits each attempt of `userId` in turn, threading the map through. */
  function AdmitAll(lastUpdate: map<string, int>, cooldown: int, userId: string, times: seq<int>): (r: (seq<bool>, map<string, int>))
    ensures |r.0| == |times|
    decreases |times|
  {
    if times == [] then ([], lastUpdate)
    else
      var (ok, next) := Admit(lastUpdate, cooldown, userId, times[0]);
      var rest := AdmitAll(next, cooldown, userId, times[1..]);
      ([ok] + rest.0, rest.1)
  }

  /**
   * A burst of attempts inside the cooldown window is rejected throughout and
   * leaves the entry as it was: rejected attempts neither reset nor extend
   * the cooldown.
   */
  lemma {:induction false} RejectedBurstKeepsEntry(lastUpdate: map<string, int>, cooldown: int, userId: string, times: seq<int>)
    requires userId in lastUpdate
    requires forall i :: 0 <= i < |times| ==> times[i] - lastUpdate[userId] < cooldown
    ensures AdmitAll(lastUpdate, cooldown, userId, times).1 == lastUpdate
    ensures forall i :: 0 <= i < |times| ==> !AdmitAll(lastUpdate, cooldown, userId, times).0[i]
    decreases |times|
  {
    if times != [] {
      RejectedBurstKeepsEntry(lastUpdate, cooldown, userId, times[1..]);
      var rest := AdmitAll(lastUpdate, cooldown, userId, times[1..]);
      assert AdmitAll(lastUpdate, cooldown, userId, times) == ([false] + rest.0, rest.1);
    }
  }

  /** An entry exactly Retention old survives a sweep; one older does not. */
  lemma SweepBoundary(lastUpdate: map<string, int>, userId: string, now: int)
    requires userId in lastUpdate
    ensures now - lastUpdate[userId] == Retention ==> userId in Swept(lastUpdate, now)
    ensures now - lastUpdate[userId] > Retention ==> userId !in Swept(lastUpdate, now)
  {
  }

  /** Once swept away, a user is admitted as if seen for the first time. */
  lemma AdmittedAfterSweep(lastUpdate: map<string, int>, cooldown: int, userId: string, now: int, later: int)
    requires userId in lastUpdate && now - lastUpdate[userId] > Retention
    ensures Admit(Swept(lastUpdate, now), cooldown, userId, later)
         == (true, Swept(lastUpdate, now)[userId := later])
  {
  }

  /** Sweeping twice at the same instant removes nothing more. */
  lemma SweepIdempotent(lastUpdate: map<string, int>, now: int)
    ensures Swept(Swept(lastUpdate, now), now) == Swept(lastUpdate, now)
  {
  }
}
