/** The terminal's PIN limiter: five wrong PINs lock a user out for twenty seconds. */
module PinLimiter {
  import opened Basics
  import opened Redis

  const MAX_PIN_ATTEMPTS: nat := 5
  const LOCKOUT_TTL: nat := 20
  const ATTEMPT_WINDOW: nat := 300

  /** The two keys of one user. */
  datatype Keys = Keys(attempts: Option<Entry<nat>>, lock: Option<Entry<string>>)

  /** A time to live above zero: a present key that has an expiry. */
  predicate Locked(s: Keys, now: nat) {
    s.lock.Some? && s.lock.value.expiry.Some? && now < s.lock.value.expiry.value
  }

  function Failed(s: Keys, now: nat): Keys {
    var c := Counted(s.attempts, now, ATTEMPT_WINDOW);
    if c.value >= MAX_PIN_ATTEMPTS then Keys(None, Some(Entry("1", Some(now + LOCKOUT_TTL))))
    else s.(attempts := Some(c))
  }

  datatype Answer = LockedOut | Incorrect | Correct

  /** One login attempt by a known user: the lock first, then the PIN. */
  function Attempt(s: Keys, now: nat, correct: bool): (Keys, Answer) {
    if Locked(s, now) then (s, LockedOut)
    else if correct then (s.(attempts := None), Correct)
    else (Failed(s, now), Incorrect)
  }

  class PINLimiter {
    const rdb: Redis

    constructor (rdb: Redis)
      ensures this.rdb == rdb
    {
      this.rdb := rdb;
    }

    function View(user: nat): Keys
      reads rdb
    {
      Keys(rdb.Counter(PinAttempts(user)), rdb.Text(PinLocked(user)))
    }

    /** No other key of the store changes. */
    twostate predicate OnlyUser(user: nat)
      reads rdb
    {
      && (forall k: Key :: k != PinAttempts(user) && k != PinLocked(user) ==> rdb.Counter(k) == old(rdb.Counter(k)))
      && (forall k: Key :: k != PinAttempts(user) && k != PinLocked(user) ==> rdb.Text(k) == old(rdb.Text(k)))
    }

    method IsLocked(user: nat, now: nat) returns (locked: bool, retryAfter: nat)
      ensures locked == Locked(View(user), now)
      ensures locked ==> forall t: nat :: now <= t ==> (Locked(View(user), t) <==> t < now + retryAfter)
    {
      var lock := rdb.Text(PinLocked(user));
      if lock.Some? && lock.value.expiry.Some? && now < lock.value.expiry.value {
        return true, lock.value.expiry.value - now;
      }
      return false, 0;
    }

    method RecordFailure(user: nat, now: nat)
      modifies rdb
      ensures View(user) == Failed(old(View(user)), now)
      ensures OnlyUser(user)
    {
      var key := PinAttempts(user);
      var n := rdb.Incr(key, now);
      if n == 1 {
        rdb.Expire(key, now, ATTEMPT_WINDOW);
      }
      if n >= MAX_PIN_ATTEMPTS {
        rdb.Set(PinLocked(user), "1", now, LOCKOUT_TTL);
        rdb.Del(key);
      }
    }

    method Reset(user: nat)
      modifies rdb
      ensures View(user) == old(View(user)).(attempts := None)
      ensures OnlyUser(user)
    {
      rdb.Del(PinAttempts(user));
    }

    /** The login handler's use of the limiter. */
    method LogIn(user: nat, now: nat, correct: bool) returns (answer: Answer)
      modifies rdb
      ensures (View(user), answer) == Attempt(old(View(user)), now, correct)
      ensures answer == LockedOut <==> old(View(user)).lock.Some? && old(View(user)).lock.value.expiry.Some?
                                       && now < old(View(user)).lock.value.expiry.value
      ensures answer == LockedOut ==> View(user) == old(View(user))
      ensures OnlyUser(user)
    {
      var locked, _ := IsLocked(user, now);
      if locked {
        return LockedOut;
      }
      if !correct {
        RecordFailure(user, now);
        return Incorrect;
      }
      Reset(user);
      return Correct;
    }
  }

  // ---- runs of attempts ----

  /** One attempt by the user, with a PIN that is correct or not. */
  datatype LogInCall = LogInCall(at: nat, correct: bool)

  const EMPTY := Keys(None, None)

  function After(s: Keys, calls: seq<LogInCall>): Keys {
    if calls == [] then s
    else Attempt(After(s, calls[..|calls| - 1]), calls[|calls| - 1].at, calls[|calls| - 1].correct).0
  }

  function LastAnswer(s: Keys, calls: seq<LogInCall>): Answer
    requires calls != []
  {
    Attempt(After(s, calls[..|calls| - 1]), calls[|calls| - 1].at, calls[|calls| - 1].correct).1
  }

  /** How many PINs were compared and found wrong, not turned away by the lock. */
  function Admitted(s: Keys, calls: seq<LogInCall>): nat {
    if calls == [] then 0
    else Admitted(s, calls[..|calls| - 1]) + (if LastAnswer(s, calls) == Incorrect then 1 else 0)
  }

  // ---- after a correct PIN ----

  lemma {:induction false} NoLockYet(s: Keys, calls: seq<LogInCall>)
    requires s.attempts == None
    ensures var after := After(s, calls);
      && (Admitted(s, calls) < 5 ==> after.lock == s.lock)
      && (Admitted(s, calls) < 5 && after.attempts.Some? ==> after.attempts.value.value <= Admitted(s, calls))
  {
    if calls != [] {
      NoLockYet(s, calls[..|calls| - 1]);
    }
  }

  /** A correct PIN clears the count: the next lockout takes five more wrong ones, whatever came before. */
  lemma {:induction false} CorrectClears(s: Keys, at: nat, calls: seq<LogInCall>, now: nat)
    requires Attempt(s, at, true).1 == Correct && at <= now && Admitted(Attempt(s, at, true).0, calls) < 5
    ensures !Locked(After(Attempt(s, at, true).0, calls), now)
  {
    NoLockYet(Attempt(s, at, true).0, calls);
  }

  predicate AllIncorrect(s: Keys, calls: seq<LogInCall>) {
    calls == [] || (AllIncorrect(s, calls[..|calls| - 1]) && LastAnswer(s, calls) == Incorrect)
  }

  /** And the fifth within five minutes does lock the user out, for twenty seconds from then on. */
  lemma {:induction false} FifthLocks(s: Keys, calls: seq<LogInCall>)
    requires s.attempts == None && 1 <= |calls| <= 5 && Ordered(calls) && AllIncorrect(s, calls)
    requires calls[|calls| - 1].at < calls[0].at + 300
    ensures After(s, calls)
      == if |calls| == 5 then Keys(None, Some(Entry("1", Some(calls[4].at + 20))))
         else Keys(Some(Entry(|calls|, Some(calls[0].at + 300))), s.lock)
  {
    var init, last := calls[..|calls| - 1], calls[|calls| - 1];
    if init != [] {
      FifthLocks(s, init);
    } else {
      assert After(s, init) == s;
    }
  }

  predicate NoneCorrect(s: Keys, calls: seq<LogInCall>) {
    calls == [] || (NoneCorrect(s, calls[..|calls| - 1]) && LastAnswer(s, calls) != Correct)
  }

  ghost predicate Ordered(calls: seq<LogInCall>) {
    forall i, j :: 0 <= i <= j < |calls| ==> calls[i].at <= calls[j].at
  }

  /** All calls come in the t seconds from `start` on. */
  ghost predicate Within(calls: seq<LogInCall>, start: nat, t: nat) {
    Ordered(calls) && forall i :: 0 <= i < |calls| ==> start <= calls[i].at <= start + t
  }

  // ---- what every run keeps ----

  /** A stored counter is below the limit, ends within its window, and began after the last lock ended. */
  predicate WellFormed(s: Keys, now: nat) {
    && (s.lock.Some? ==> s.lock.value.expiry.Some?)
    && (s.attempts.Some? ==>
          && 1 <= s.attempts.value.value < MAX_PIN_ATTEMPTS
          && s.attempts.value.expiry.Some? && s.attempts.value.expiry.value <= now + ATTEMPT_WINDOW
          && (s.lock.Some? ==> s.lock.value.expiry.value + ATTEMPT_WINDOW <= s.attempts.value.expiry.value))
  }

  lemma AttemptWellFormed(s: Keys, before: nat, now: nat, correct: bool)
    requires WellFormed(s, before) && before <= now
    ensures WellFormed(Attempt(s, now, correct).0, now)
  {
  }

  /** Every run from an empty store, correct PINs included, leaves such keys. */
  lemma {:induction false} AlwaysWellFormed(calls: seq<LogInCall>, now: nat)
    requires Ordered(calls) && (calls != [] ==> calls[|calls| - 1].at <= now)
    ensures WellFormed(After(EMPTY, calls), now)
  {
    if calls != [] {
      var last := calls[|calls| - 1];
      AlwaysWellFormed(calls[..|calls| - 1], last.at);
      AttemptWellFormed(After(EMPTY, calls[..|calls| - 1]), last.at, last.at, last.correct);
    }
  }

  // ---- how many wrong PINs ----

  /** Attempts paid for by the lockouts that fit between the start and time t. */
  function Paid(start: int, t: int): int {
    MAX_PIN_ATTEMPTS * ((t - start) / LOCKOUT_TTL)
  }

  lemma PaidMonotone(start: int, t: int, u: int)
    requires t <= u
    ensures Paid(start, t) <= Paid(start, u)
  {
  }

  lemma PaidOneMore(start: int, t: int)
    ensures Paid(start, t + LOCKOUT_TTL) == Paid(start, t) + MAX_PIN_ATTEMPTS
  {
  }

  /**
   What a counter running at the start adds: if it ends before a lockout could, it can be filled up
   to one short of the limit and then start afresh.
   */
  function Leftover(s: Keys, start: nat): (r: nat)
    ensures r <= 3
  {
    if Present(s.attempts, start) && s.attempts.value.expiry.Some?
      && s.attempts.value.expiry.value < start + LOCKOUT_TTL
       && 1 <= s.attempts.value.value <= 3
    then 4 - s.attempts.value.value
    else 0
  }

  /**
   The account of a run begun at `start` with n attempts admitted by time `now`: they are covered by
   the lockouts that fit before the running counter began, or before the last lock ends, together
   with the counter itself and what was left over.
   */
  predicate Covered(s: Keys, start: nat, now: nat, n: nat, leftover: nat) {
    && start <= now && WellFormed(s, now)
    && match s.attempts
       case Some(c) =>
         var began := c.expiry.value - ATTEMPT_WINDOW;
         || (n == 0 && c.expiry.value <= now)
         || (n < c.value && (n + 4 <= c.value + leftover || start + LOCKOUT_TTL <= c.expiry.value))
         || (start <= began && n <= Paid(start, began) + c.value + leftover)
       case None =>
         || n == 0
         || (s.lock.Some? && start <= s.lock.value.expiry.value <= now + LOCKOUT_TTL
             && n <= Paid(start, s.lock.value.expiry.value) + leftover)
  }

  lemma CoveredStart(s: Keys, start: nat)
    requires WellFormed(s, start)
    ensures Covered(s, start, start, 0, Leftover(s, start))
  {
  }

  lemma CoveredStep(s: Keys, start: nat, before: nat, n: nat, leftover: nat, now: nat, correct: bool)
    requires Covered(s, start, before, n, leftover) && before <= now && Attempt(s, now, correct).1 != Correct
    ensures Covered(Attempt(s, now, correct).0, start, now, if Locked(s, now) then n else n + 1, leftover)
  {
    if !Locked(s, now) {
      PaidOneMore(start, now);
      PaidMonotone(start, start, now);
      match s.attempts {
        case Some(c) =>
          var began := c.expiry.value - ATTEMPT_WINDOW;
          PaidMonotone(start, began, now);
          PaidOneMore(start, began);
          PaidMonotone(start, began + LOCKOUT_TTL, c.expiry.value);
          PaidMonotone(start, c.expiry.value, if c.expiry.value <= now then now else c.expiry.value);
          PaidOneMore(start, start);
          PaidMonotone(start, start + LOCKOUT_TTL, if start + LOCKOUT_TTL <= now then now else start + LOCKOUT_TTL);
        case None =>
          if n > 0 {
            PaidMonotone(start, s.lock.value.expiry.value, now);
          }
      }
    }
  }

  lemma {:induction false} RunCovered(s: Keys, start: nat, t: nat, calls: seq<LogInCall>)
    requires WellFormed(s, start) && Within(calls, start, t) && NoneCorrect(s, calls)
    ensures Covered(After(s, calls), start, if calls == [] then start else calls[|calls| - 1].at,
                    Admitted(s, calls), Leftover(s, start))
  {
    hide Covered, WellFormed, Leftover;
    if calls == [] {
      CoveredStart(s, start);
    } else {
      var init, last := calls[..|calls| - 1], calls[|calls| - 1];
      RunCovered(s, start, t, init);
      CoveredStep(After(s, init), start, if init == [] then start else init[|init| - 1].at,
                  Admitted(s, init), Leftover(s, start), last.at, last.correct);
    }
  }

  lemma CoveredBound(s: Keys, start: nat, now: nat, n: nat, leftover: nat, t: nat)
    requires Covered(s, start, now, n, leftover) && now <= start + t
    ensures n <= MAX_PIN_ATTEMPTS * (t / LOCKOUT_TTL + 1) + leftover
  {
    PaidMonotone(start, start, start + t);
    PaidOneMore(start, start + t);
    match s.attempts {
      case Some(c) => PaidMonotone(start, c.expiry.value - ATTEMPT_WINDOW, start + t);
      case None =>
        if n > 0 {
          PaidMonotone(start, s.lock.value.expiry.value, start + t + LOCKOUT_TTL);
        }
    }
  }

  /**
   With no correct PIN among them, at most 5 * (T / 20 + 1) attempts are compared in the T seconds
   from `start` on, and what a counter running then leaves over.
   */
  lemma {:induction false} WrongPinBound(s: Keys, start: nat, t: nat, calls: seq<LogInCall>)
    requires WellFormed(s, start) && Within(calls, start, t) && NoneCorrect(s, calls)
    ensures Admitted(s, calls) <= MAX_PIN_ATTEMPTS * (t / LOCKOUT_TTL + 1) + Leftover(s, start)
  {
    hide Covered, Admitted, After;
    RunCovered(s, start, t, calls);
    CoveredBound(After(s, calls), start, if calls == [] then start else calls[|calls| - 1].at,
                 Admitted(s, calls), Leftover(s, start), t);
  }

  /** So in every window of every run, whatever came before it. */
  lemma {:induction false} WrongPinWindow(before: seq<LogInCall>, start: nat, t: nat, calls: seq<LogInCall>)
    requires Ordered(before) && (before != [] ==> before[|before| - 1].at <= start)
    requires Within(calls, start, t) && NoneCorrect(After(EMPTY, before), calls)
    ensures Admitted(After(EMPTY, before), calls)
         <= MAX_PIN_ATTEMPTS * (t / LOCKOUT_TTL + 1) + Leftover(After(EMPTY, before), start)
  {
    AlwaysWellFormed(before, start);
    WrongPinBound(After(EMPTY, before), start, t, calls);
  }

  // ---- the bound is reached ----

  /** The i-th time of the worst run: what is left over at the start, then five wrong PINs each time a lock ends. */
  function WorstTime(start: nat, leftover: nat, base: nat, i: nat): nat {
    if i < leftover then start else base + LOCKOUT_TTL * ((i - leftover) / 5)
  }

  function Worst(start: nat, leftover: nat, base: nat, n: nat): (calls: seq<LogInCall>)
    ensures |calls| == n
    ensures forall i :: 0 <= i < n ==> calls[i] == LogInCall(WorstTime(start, leftover, base, i), false)
  {
    seq(n, i requires 0 <= i < n => LogInCall(WorstTime(start, leftover, base, i), false))
  }

  /**
   The keys after i attempts of it: the old counter filling up, then a counter within a round or the
   end of a lock.
   */
  predicate InWorst(s: Keys, start: nat, leftover: nat, base: nat, i: nat) {
    && !Locked(s, WorstTime(start, leftover, base, i))
    && if i < leftover then start < base && leftover <= 3 && s.attempts == Some(Entry(4 - leftover + i, Some(base)))
       else
         var r := (i - leftover) % 5;
         if r == 0 then !Present(s.attempts, WorstTime(start, leftover, base, i))
         else s.attempts == Some(Entry(r, Some(WorstTime(start, leftover, base, i) + ATTEMPT_WINDOW)))
  }

  lemma WorstStep(s: Keys, start: nat, leftover: nat, base: nat, i: nat)
    requires InWorst(s, start, leftover, base, i)
    ensures InWorst(Attempt(s, WorstTime(start, leftover, base, i), false).0, start, leftover, base, i + 1)
  {
    if i >= leftover {
      var j := i - leftover;
      assert j % 5 < 4 ==> (j + 1) / 5 == j / 5 && (j + 1) % 5 == j % 5 + 1;
      assert j % 5 == 4 ==> (j + 1) / 5 == j / 5 + 1 && (j + 1) % 5 == 0;
    }
  }

  lemma {:induction false} WorstAdmitted(s: Keys, start: nat, leftover: nat, base: nat, n: nat)
    requires InWorst(s, start, leftover, base, 0)
    ensures var calls := Worst(start, leftover, base, n);
      Admitted(s, calls) == n && NoneCorrect(s, calls) && InWorst(After(s, calls), start, leftover, base, n)
  {
    var calls := Worst(start, leftover, base, n);
    if n > 0 {
      WorstAdmitted(s, start, leftover, base, n - 1);
      assert calls[..n - 1] == Worst(start, leftover, base, n - 1);
      WorstStep(After(s, calls[..n - 1]), start, leftover, base, n - 1);
    }
  }

  /** When the first round of the worst run begins. */
  function FirstRound(s: Keys, start: nat): (base: nat)
    ensures start <= base < start + LOCKOUT_TTL
  {
    if Leftover(s, start) > 0 then s.attempts.value.expiry.value else start
  }

  lemma WorstStart(s: Keys, start: nat)
    requires WellFormed(s, start)
    requires Leftover(s, start) > 0 || (!Present(s.attempts, start) && !Locked(s, start))
    ensures InWorst(s, start, Leftover(s, start), FirstRound(s, start), 0)
  {
  }

  lemma WorstWithin(start: nat, leftover: nat, base: nat, k: nat)
    requires k > 0 && start <= base
    ensures Within(Worst(start, leftover, base, leftover + 5 * k), start, base - start + LOCKOUT_TTL * (k - 1))
  {
    forall i | 0 <= i < leftover + 5 * k
      ensures start <= WorstTime(start, leftover, base, i) <= base + LOCKOUT_TTL * (k - 1)
    {
      assert i >= leftover ==> (i - leftover) / 5 <= k - 1;
    }
    forall i, j | 0 <= i <= j < leftover + 5 * k
      ensures WorstTime(start, leftover, base, i) <= WorstTime(start, leftover, base, j)
    {
      assert i >= leftover ==> (i - leftover) / 5 <= (j - leftover) / 5;
    }
  }

  /**
   No smaller bound holds: with a leftover, or from a user without counter and lock, the worst run
   of k rounds has exactly as many attempts compared as the bound allows for its time.
   */
  lemma {:induction false} WrongPinBoundReached(s: Keys, start: nat, k: nat)
    requires k > 0 && WellFormed(s, start)
    requires Leftover(s, start) > 0 || (!Present(s.attempts, start) && !Locked(s, start))
    ensures var leftover, base := Leftover(s, start), FirstRound(s, start);
      var calls, t := Worst(start, leftover, base, leftover + 5 * k), base - start + LOCKOUT_TTL * (k - 1);
      && Within(calls, start, t) && NoneCorrect(s, calls)
      && Admitted(s, calls) == MAX_PIN_ATTEMPTS * (t / LOCKOUT_TTL + 1) + leftover
  {
    hide WellFormed, InWorst, Leftover, Within, Admitted, NoneCorrect, After;
    var leftover, base := Leftover(s, start), FirstRound(s, start);
    WorstWithin(start, leftover, base, k);
    WorstStart(s, start);
    WorstAdmitted(s, start, leftover, base, leftover + 5 * k);
    RoundsFit(base - start, k);
  }

  lemma RoundsFit(d: nat, k: nat)
    requires d < LOCKOUT_TTL && k > 0
    ensures (d + LOCKOUT_TTL * (k - 1)) / LOCKOUT_TTL == k - 1
  {
  }

  /** The bound without leftover holds of every window from here on if and only if nothing is left over. */
  lemma {:induction false} PlainBoundExactly(s: Keys, start: nat)
    requires WellFormed(s, start)
    ensures (forall calls, t: nat :: Within(calls, start, t) && NoneCorrect(s, calls) ==>
               Admitted(s, calls) <= MAX_PIN_ATTEMPTS * (t / LOCKOUT_TTL + 1))
       <==> Leftover(s, start) == 0
  {
    hide Within, NoneCorrect, Admitted, WellFormed;
    forall calls, t: nat | Within(calls, start, t) && NoneCorrect(s, calls)
      ensures Admitted(s, calls) <= MAX_PIN_ATTEMPTS * (t / LOCKOUT_TTL + 1) + Leftover(s, start)
    {
      WrongPinBound(s, start, t, calls);
    }
    if Leftover(s, start) > 0 {
      WrongPinBoundReached(s, start, 1);
    }
  }

  /** A run where it fails: one wrong PIN, and 299 seconds later eight more are compared within a second. */
  lemma {:induction false} EightInASecond()
    ensures var s, calls := After(EMPTY, [LogInCall(0, false)]), Worst(299, 3, 300, 8);
      Within(calls, 299, 1) && NoneCorrect(s, calls) && Admitted(s, calls) == 8
  {
    var first := [LogInCall(0, false)];
    assert first[..0] == [];
    AlwaysWellFormed(first, 299);
    WrongPinBoundReached(After(EMPTY, first), 299, 1);
  }
}
