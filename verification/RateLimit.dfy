/** The fixed-window hit counter of the public endpoints, for one prefix and address. */
module RateLimit {
  import opened Basics
  import opened Redis

  datatype Limit = Limit(max: nat, window: nat)

  /** The counter after one more hit, and whether the hit is allowed. */
  function Hit(c: Option<Entry<nat>>, now: nat, limit: Limit): (Option<Entry<nat>>, bool) {
    var counted := Counted(c, now, limit.window);
    (Some(counted), counted.value <= limit.max)
  }

  method CheckIPRateLimit(rdb: Redis, prefix: string, ip: string, limit: Limit, now: nat) returns (allowed: bool)
    modifies rdb
    ensures (rdb.Counter(Hits(prefix, ip)), allowed) == Hit(old(rdb.Counter(Hits(prefix, ip))), now, limit)
    ensures forall k: Key :: k != Hits(prefix, ip) ==> rdb.Counter(k) == old(rdb.Counter(k))
    ensures rdb.strings == old(rdb.strings)
  {
    var key := Hits(prefix, ip);
    var n := rdb.Incr(key, now);
    if n == 1 {
      rdb.Expire(key, now, limit.window);
    }
    return n <= limit.max;
  }

  // ---- runs of hits ----

  function After(c: Option<Entry<nat>>, times: seq<nat>, limit: Limit): Option<Entry<nat>> {
    if times == [] then c else Hit(After(c, times[..|times| - 1], limit), times[|times| - 1], limit).0
  }

  predicate LastAllowed(c: Option<Entry<nat>>, times: seq<nat>, limit: Limit)
    requires times != []
  {
    Hit(After(c, times[..|times| - 1], limit), times[|times| - 1], limit).1
  }

  /** Allowed hits from time `from` on. */
  function Allowed(c: Option<Entry<nat>>, times: seq<nat>, limit: Limit, from: nat): nat {
    if times == [] then 0
    else
      Allowed(c, times[..|times| - 1], limit, from)
      + (if from <= times[|times| - 1] && LastAllowed(c, times, limit) then 1 else 0)
  }

  ghost predicate Ordered(times: seq<nat>) {
    forall i, j :: 0 <= i <= j < |times| ==> times[i] <= times[j]
  }

  /** A stored counter has counted something and expires within the window. */
  predicate WellFormed(c: Option<Entry<nat>>, now: nat, limit: Limit) {
    c.Some? ==> c.value.value >= 1 && c.value.expiry.Some? && c.value.expiry.value <= now + limit.window
  }

  /** Every run of hits from an absent counter leaves such a one. */
  lemma {:induction false} AlwaysWellFormed(times: seq<nat>, limit: Limit, now: nat)
    requires Ordered(times) && (times != [] ==> times[|times| - 1] <= now)
    ensures WellFormed(After(None, times, limit), now, limit)
  {
    if times != [] {
      AlwaysWellFormed(times[..|times| - 1], limit, times[|times| - 1]);
    }
  }

  // ---- one counter life ----

  /** In one life, begun when no counter was there or the last had expired, exactly the first `max` hits are allowed. */
  lemma {:induction false} LifeExact(c: Option<Entry<nat>>, times: seq<nat>, limit: Limit)
    requires times != [] && !Present(c, times[0]) && Ordered(times) && times[|times| - 1] < times[0] + limit.window
    ensures Allowed(c, times, limit, times[0]) == Min(|times|, limit.max)
    ensures After(c, times, limit) == Some(Entry(|times|, Some(times[0] + limit.window)))
  {
    var init := times[..|times| - 1];
    if init != [] {
      LifeExact(c, init, limit);
    }
  }

  // ---- any interval as long as the window ----

  /** n hits were allowed since `from`: by the running counter alone if it began by then, else by it and one before. */
  predicate Covered(c: Option<Entry<nat>>, from: nat, now: nat, limit: Limit, n: nat) {
    && WellFormed(c, now, limit)
    && match c
       case None => n == 0
       case Some(e) =>
         var began, end := e.expiry.value - limit.window, e.expiry.value;
         && (n > 0 ==> from <= now)
         && (began <= from ==> n <= Min(e.value, limit.max) && (n > 0 ==> from < end))
         && (began > from ==> n <= limit.max + Min(e.value, limit.max))
  }

  lemma CoveredStep(c: Option<Entry<nat>>, from: nat, before: nat, limit: Limit, n: nat, now: nat)
    requires Covered(c, from, before, limit, n) && before <= now <= from + limit.window && limit.window > 0
    ensures var (after, allowed) := Hit(c, now, limit);
      Covered(after, from, now, limit, if from <= now && allowed then n + 1 else n)
  {
  }

  lemma CoveredStart(c: Option<Entry<nat>>, from: nat, now: nat, limit: Limit)
    requires WellFormed(c, now, limit)
    ensures Covered(c, from, now, limit, 0)
  {
  }

  lemma {:induction false} RunCovered(c: Option<Entry<nat>>, times: seq<nat>, limit: Limit, from: nat)
    requires times != [] && Ordered(times) && WellFormed(c, times[0], limit) && limit.window > 0
    requires times[|times| - 1] <= from + limit.window
    ensures Covered(After(c, times, limit), from, times[|times| - 1], limit, Allowed(c, times, limit, from))
  {
    hide Covered, WellFormed, Hit;
    var init, last := times[..|times| - 1], times[|times| - 1];
    if init == [] {
      CoveredStart(c, from, last, limit);
      CoveredStep(c, from, last, limit, 0, last);
    } else {
      RunCovered(c, init, limit, from);
      CoveredStep(After(c, init, limit), from, init[|init| - 1], limit, Allowed(c, init, limit, from), last);
    }
  }

  /** Every closed interval as long as the window sees at most twice the limit allowed. */
  lemma IntervalBound(c: Option<Entry<nat>>, times: seq<nat>, limit: Limit, from: nat)
    requires times != [] && Ordered(times) && WellFormed(c, times[0], limit) && limit.window > 0
    requires times[|times| - 1] <= from + limit.window
    ensures Allowed(c, times, limit, from) <= 2 * limit.max
  {
    RunCovered(c, times, limit, from);
  }

  /** So after any hits before it. */
  lemma {:induction false} IntervalInRun(before: seq<nat>, times: seq<nat>, limit: Limit, from: nat)
    requires times != [] && Ordered(times) && limit.window > 0 && times[|times| - 1] <= from + limit.window
    requires Ordered(before) && (before != [] ==> before[|before| - 1] <= times[0])
    ensures Allowed(After(None, before, limit), times, limit, from) <= 2 * limit.max
  {
    AlwaysWellFormed(before, limit, times[0]);
    IntervalBound(After(None, before, limit), times, limit, from);
  }

  // ---- the bound is reached ----

  /** The first hit at 0, the rest of the first life just before its end, a second life's worth at its end. */
  function Bursts(limit: Limit): (times: seq<nat>)
    requires limit.window > 0
    ensures |times| == 2 * limit.max
    ensures forall i :: 0 <= i < |times| ==>
      times[i] == if i == 0 then 0 else if i < limit.max then limit.window - 1 else limit.window
  {
    seq(2 * limit.max, i requires 0 <= i < 2 * limit.max => BurstTime(limit, i))
  }

  function BurstTime(limit: Limit, i: nat): nat
    requires limit.window > 0
  {
    if i == 0 then 0 else if i < limit.max then limit.window - 1 else limit.window
  }

  /** The counter after the first n hits of the bursts. */
  function BurstCounter(limit: Limit, n: nat): Option<Entry<nat>> {
    if n == 0 then None
    else if n <= limit.max then Some(Entry(n, Some(limit.window)))
    else Some(Entry(n - limit.max, Some(2 * limit.window)))
  }

  lemma BurstStep(limit: Limit, n: nat)
    requires limit.window > 0 && n < 2 * limit.max
    ensures Hit(BurstCounter(limit, n), BurstTime(limit, n), limit) == (BurstCounter(limit, n + 1), true)
  {
  }

  lemma {:induction false} BurstsAllowed(limit: Limit, n: nat)
    requires limit.window > 0 && n <= 2 * limit.max
    ensures Allowed(None, Bursts(limit)[..n], limit, 0) == n
    ensures After(None, Bursts(limit)[..n], limit) == BurstCounter(limit, n)
  {
    if n > 0 {
      hide Hit, BurstCounter;
      var times := Bursts(limit)[..n];
      assert times[..n - 1] == Bursts(limit)[..n - 1];
      assert times[n - 1] == BurstTime(limit, n - 1);
      BurstsAllowed(limit, n - 1);
      BurstStep(limit, n - 1);
    }
  }

  /** Twice the limit is reached within the closed interval from 0 to the window. */
  lemma IntervalBoundReached(limit: Limit)
    requires limit.max > 0 && limit.window > 0
    ensures var times := Bursts(limit);
      times[0] == 0 && times[|times| - 1] == limit.window && Allowed(None, times, limit, 0) == 2 * limit.max
  {
    BurstsAllowed(limit, 2 * limit.max);
    assert Bursts(limit)[..2 * limit.max] == Bursts(limit);
  }
}
