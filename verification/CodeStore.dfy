/** One-time receipt codes: resend cooldown, expiry, wrong-guess counter and lock, for one phone number at one plant. */
module CodeStore {
  import opened Basics
  import opened Redis

  const CODE_TTL: nat := 600
  const MAX_VERIFY_ATTEMPTS: nat := 5
  const VERIFY_LOCKOUT_TTL: nat := 300
  const RESEND_COOLDOWN: nat := 60

  /** The four keys of one phone number. */
  datatype Keys = Keys(
    code: Option<Entry<string>>,
    failures: Option<Entry<nat>>,
    lock: Option<Entry<string>>,
    cooldown: Option<Entry<string>>)

  datatype Answer = Issued | Cooldown | NoRandomness | Accepted | Wrong | NoCode | Blank | LockedOut

  /** A request with the code the random source yields, if it yields one. */
  function Request(s: Keys, now: nat, drawn: Option<string>): (Keys, Answer) {
    if Present(s.cooldown, now) then (s, Cooldown)
    else
      var cooling := s.(cooldown := Some(Entry("1", Some(now + RESEND_COOLDOWN))));
      if drawn.None? then (cooling, NoRandomness)
      else (cooling.(code := Some(Entry(drawn.value, Some(now + CODE_TTL)))), Issued)
  }

  function Failed(s: Keys, now: nat): Keys {
    var c := Counted(s.failures, now, CODE_TTL);
    var counted := s.(failures := Some(c));
    if c.value >= MAX_VERIFY_ATTEMPTS then counted.(lock := Some(Entry("1", Some(now + VERIFY_LOCKOUT_TTL))))
    else counted
  }

  function Verify(s: Keys, now: nat, submitted: string): (Keys, Answer) {
    if submitted == "" then (s, Blank)
    else if Present(s.lock, now) then (s, LockedOut)
    else if !Present(s.code, now) then (s, NoCode)
    else if s.code.value.value != submitted then (Failed(s, now), Wrong)
    else (s.(code := None, failures := None), Accepted)
  }

  class Store {
    const rdb: Redis

    constructor (rdb: Redis)
      ensures this.rdb == rdb
    {
      this.rdb := rdb;
    }

    function View(phone: string): Keys
      reads rdb
    {
      Keys(rdb.Text(ReceiptCode(phone)), rdb.Counter(ReceiptFailures(phone)),
           rdb.Text(ReceiptLock(phone)), rdb.Text(ReceiptCooldown(phone)))
    }

    predicate IsOwn(k: Key, phone: string) {
      k == ReceiptCode(phone) || k == ReceiptFailures(phone) || k == ReceiptLock(phone) || k == ReceiptCooldown(phone)
    }

    /** No other key of the store changes. */
    twostate predicate OnlyPhone(phone: string)
      reads rdb
    {
      && (forall k: Key :: !IsOwn(k, phone) ==> rdb.Counter(k) == old(rdb.Counter(k)))
      && (forall k: Key :: !IsOwn(k, phone) ==> rdb.Text(k) == old(rdb.Text(k)))
    }

    method RequestCode(phone: string, now: nat, drawn: Option<string>) returns (answer: Answer)
      modifies rdb
      ensures (View(phone), answer) == Request(old(View(phone)), now, drawn)
      ensures answer == Cooldown <==> Present(old(View(phone)).cooldown, now)
      ensures answer == Cooldown ==> View(phone) == old(View(phone))
      ensures answer != Cooldown ==> View(phone).cooldown == Some(Entry("1", Some(now + 60)))
      ensures OnlyPhone(phone)
    {
      var acquired := rdb.SetNX(ReceiptCooldown(phone), "1", now, RESEND_COOLDOWN);
      if !acquired {
        return Cooldown;
      }
      if drawn.None? {
        return NoRandomness;
      }
      rdb.Set(ReceiptCode(phone), drawn.value, now, CODE_TTL);
      return Issued;
    }

    method RecordFailure(phone: string, now: nat)
      modifies rdb
      ensures View(phone) == Failed(old(View(phone)), now)
      ensures OnlyPhone(phone)
    {
      var key := ReceiptFailures(phone);
      var n := rdb.Incr(key, now);
      if n == 1 {
        rdb.Expire(key, now, CODE_TTL);
      }
      if n >= MAX_VERIFY_ATTEMPTS {
        rdb.Set(ReceiptLock(phone), "1", now, VERIFY_LOCKOUT_TTL);
      }
    }

    method VerifyCode(phone: string, now: nat, submitted: string) returns (answer: Answer)
      modifies rdb
      ensures (View(phone), answer) == Verify(old(View(phone)), now, submitted)
      ensures answer == Blank <==> submitted == ""
      ensures answer == LockedOut <==> submitted != "" && Present(old(View(phone)).lock, now)
      ensures answer in {Blank, LockedOut, NoCode} ==> View(phone) == old(View(phone))
      ensures OnlyPhone(phone)
    {
      if submitted == "" {
        return Blank;
      }
      if Present(rdb.Text(ReceiptLock(phone)), now) {
        return LockedOut;
      }
      var stored := rdb.Text(ReceiptCode(phone));
      if !Present(stored, now) {
        return NoCode;
      }
      if stored.value.value != submitted {
        RecordFailure(phone, now);
        return Wrong;
      }
      rdb.Del(ReceiptCode(phone));
      rdb.Del(ReceiptFailures(phone));
      return Accepted;
    }
  }

  // ---- runs of requests and guesses ----

  datatype Call = Ask(at: nat, drawn: Option<string>) | Guess(at: nat, submitted: string)

  function Step(s: Keys, c: Call): (Keys, Answer) {
    match c
    case Ask(at, drawn) => Request(s, at, drawn)
    case Guess(at, submitted) => Verify(s, at, submitted)
  }

  function After(s: Keys, calls: seq<Call>): Keys {
    if calls == [] then s else Step(After(s, calls[..|calls| - 1]), calls[|calls| - 1]).0
  }

  /** The answer to the last call of a run. */
  function LastAnswer(s: Keys, calls: seq<Call>): Answer
    requires calls != []
  {
    Step(After(s, calls[..|calls| - 1]), calls[|calls| - 1]).1
  }

  const EMPTY := Keys(None, None, None, None)

  ghost predicate Ordered(calls: seq<Call>) {
    forall i, j :: 0 <= i <= j < |calls| ==> calls[i].at <= calls[j].at
  }

  // ---- what a code is good for ----

  datatype Issue = Issue(code: string, at: nat)

  /** From the answers alone: the last code issued, unless it has been accepted since. */
  function Outstanding(calls: seq<Call>): Option<Issue> {
    if calls == [] then None
    else
      var last := calls[|calls| - 1];
      match LastAnswer(EMPTY, calls)
      case Issued => if last.Ask? && last.drawn.Some? then Some(Issue(last.drawn.value, last.at)) else None
      case Accepted => None
      case _ => Outstanding(calls[..|calls| - 1])
  }

  lemma {:induction false} CodeIsOutstanding(calls: seq<Call>)
    ensures match Outstanding(calls)
            case None => After(EMPTY, calls).code == None
            case Some(issue) => After(EMPTY, calls).code == Some(Entry(issue.code, Some(issue.at + CODE_TTL)))
  {
    if calls != [] {
      CodeIsOutstanding(calls[..|calls| - 1]);
    }
  }

  /**
   A guess is accepted exactly when guessing is not locked and it is the last code issued, less than
   ten minutes ago, and not accepted before.
   */
  lemma {:induction false} AcceptedExactly(calls: seq<Call>, at: nat, submitted: string)
    ensures var s := After(EMPTY, calls);
      Verify(s, at, submitted).1 == Accepted <==>
        submitted != "" && !Present(s.lock, at)
        && Outstanding(calls).Some? && submitted == Outstanding(calls).value.code
        && at < Outstanding(calls).value.at + CODE_TTL
  {
    CodeIsOutstanding(calls);
  }

  /** Position of the request that issued the outstanding code. */
  function Issuer(calls: seq<Call>): (i: nat)
    requires Outstanding(calls).Some?
    ensures i < |calls|
  {
    if LastAnswer(EMPTY, calls) == Issued then |calls| - 1 else Issuer(calls[..|calls| - 1])
  }

  predicate IsAnswer(calls: seq<Call>, k: nat, a: Answer)
    requires k < |calls|
  {
    LastAnswer(EMPTY, calls[..k + 1]) == a
  }

  /** The outstanding code comes from one request; nothing was issued or accepted after it. */
  lemma {:induction false} IssuerIsLast(calls: seq<Call>)
    requires Outstanding(calls).Some?
    ensures var i := Issuer(calls); var issue := Outstanding(calls).value;
      && calls[i] == Ask(issue.at, Some(issue.code)) && IsAnswer(calls, i, Issued)
      && (forall k: nat {:trigger IsAnswer(calls, k, Issued)} :: i < k < |calls| ==>
           !IsAnswer(calls, k, Issued) && !IsAnswer(calls, k, Accepted))
  {
    hide Step, After;
    var n := |calls| - 1;
    assert calls[..n + 1] == calls;
    if LastAnswer(EMPTY, calls) != Issued {
      IssuerIsLast(calls[..n]);
      var i := Issuer(calls);
      assert calls[..n][..i + 1] == calls[..i + 1];
      assert IsAnswer(calls[..n], i, Issued);
      forall k: nat | i < k < |calls| ensures !IsAnswer(calls, k, Issued) && !IsAnswer(calls, k, Accepted) {
        if k < n {
          assert calls[..n][..k + 1] == calls[..k + 1];
          assert !IsAnswer(calls[..n], k, Issued) && !IsAnswer(calls[..n], k, Accepted);
        }
      }
    }
  }

  /**
   Each issued code is accepted at most once, within ten minutes, and only while no newer one has
   been issued: an accepted guess belongs to a request before it, and between the two nothing was
   issued or accepted.
   */
  lemma AcceptedOnce(calls: seq<Call>) returns (i: nat)
    requires calls != [] && LastAnswer(EMPTY, calls) == Accepted
    ensures i < |calls| - 1 && calls[i].Ask? && IsAnswer(calls, i, Issued)
    ensures var last := calls[|calls| - 1];
      last.Guess? && calls[i].drawn == Some(last.submitted) && last.at < calls[i].at + CODE_TTL
    ensures forall k: nat {:trigger IsAnswer(calls, k, Issued)} :: i < k < |calls| - 1 ==>
      !IsAnswer(calls, k, Issued) && !IsAnswer(calls, k, Accepted)
  {
    var init, last := calls[..|calls| - 1], calls[|calls| - 1];
    AcceptedExactly(init, last.at, last.submitted);
    IssuerIsLast(init);
    i := Issuer(init);
    assert calls[..i + 1] == init[..i + 1];
    forall k: nat | i < k < |calls| - 1 ensures !IsAnswer(calls, k, Issued) && !IsAnswer(calls, k, Accepted) {
      assert calls[..k + 1] == init[..k + 1];
      assert !IsAnswer(init, k, Issued) && !IsAnswer(init, k, Accepted);
    }
  }

  // ---- how often a code is sent ----

  lemma {:induction false} StillCooling(calls: seq<Call>, i: nat)
    requires Ordered(calls) && i < |calls| && IsAnswer(calls, i, Issued)
    ensures var c := After(EMPTY, calls).cooldown;
      c.Some? && c.value.expiry.Some? && calls[i].at + RESEND_COOLDOWN <= c.value.expiry.value
  {
    var init := calls[..|calls| - 1];
    if i < |init| {
      assert init[..i + 1] == calls[..i + 1];
      assert IsAnswer(init, i, Issued);
      StillCooling(init, i);
      assert calls[i].at <= calls[|init|].at;
    } else {
      assert calls[..i + 1] == calls;
    }
  }

  /** Two codes are never issued within a minute of each other. */
  lemma IssuesApart(calls: seq<Call>, i: nat, j: nat)
    requires Ordered(calls) && i < j < |calls| && IsAnswer(calls, i, Issued) && IsAnswer(calls, j, Issued)
    ensures calls[i].at + RESEND_COOLDOWN <= calls[j].at
  {
    var init := calls[..j];
    assert init[..i + 1] == calls[..i + 1] && calls[..j + 1][..j] == init;
    assert IsAnswer(init, i, Issued);
    StillCooling(init, i);
  }

  // ---- what every run keeps ----

  /**
   Up to four wrong guesses a counter began after the last lock ended; five set the lock; a sixth,
   after it, sets one that outlasts the counter.
   */
  predicate WellFormed(s: Keys, now: nat) {
    && (s.lock.Some? ==> s.lock.value.expiry.Some? && s.lock.value.expiry.value <= now + VERIFY_LOCKOUT_TTL)
    && (s.cooldown.Some? ==> s.cooldown.value.expiry.Some? && s.cooldown.value.expiry.value <= now + RESEND_COOLDOWN)
    && (s.failures.Some? ==>
          && s.failures.value.expiry.Some?
          && var n, end := s.failures.value.value, s.failures.value.expiry.value;
             && 1 <= n <= 6 && end <= now + CODE_TTL
             && (n <= 4 && s.lock.Some? ==> s.lock.value.expiry.value + CODE_TTL <= end)
             && (n == 5 ==> s.lock.Some? && end <= s.lock.value.expiry.value + VERIFY_LOCKOUT_TTL)
             && (n == 6 ==> s.lock.Some? && end <= s.lock.value.expiry.value))
  }

  lemma FailedWellFormed(s: Keys, before: nat, now: nat)
    requires WellFormed(s, before) && before <= now && !Present(s.lock, now)
    ensures WellFormed(Failed(s, now), now)
  {
  }

  lemma StepWellFormed(s: Keys, before: nat, c: Call)
    requires WellFormed(s, before) && before <= c.at
    ensures WellFormed(Step(s, c).0, c.at)
  {
    if Step(s, c).1 == Wrong {
      FailedWellFormed(s, before, c.at);
    }
    hide Failed;
  }

  lemma WellFormedLater(s: Keys, before: nat, now: nat)
    requires WellFormed(s, before) && before <= now
    ensures WellFormed(s, now)
  {
  }

  /** Every run from an empty store, accepted guesses included, leaves such keys. */
  lemma {:induction false} AlwaysWellFormed(calls: seq<Call>, now: nat)
    requires Ordered(calls) && (calls != [] ==> calls[|calls| - 1].at <= now)
    ensures WellFormed(After(EMPTY, calls), now)
  {
    if calls != [] {
      hide WellFormed, Step;
      var init, last := calls[..|calls| - 1], calls[|calls| - 1];
      AlwaysWellFormed(init, last.at);
      StepWellFormed(After(EMPTY, init), last.at, last);
      WellFormedLater(After(EMPTY, calls), last.at, now);
    }
  }

  // ---- how many guesses ----

  /** Wrong codes that were compared with a stored one. */
  function Compared(s: Keys, calls: seq<Call>): nat {
    if calls == [] then 0
    else Compared(s, calls[..|calls| - 1]) + (if LastAnswer(s, calls) == Wrong then 1 else 0)
  }

  // ---- after an accepted code ----

  lemma {:induction false} NoLockYet(s: Keys, calls: seq<Call>)
    requires s.failures == None
    ensures var after := After(s, calls);
      && (after.failures.Some? ==> after.failures.value.value <= Compared(s, calls))
      && (Compared(s, calls) < 5 ==> after.lock == s.lock)
  {
    if calls != [] {
      NoLockYet(s, calls[..|calls| - 1]);
    }
  }

  /** An accepted code clears the count: the next lock takes five more wrong guesses, whatever came before. */
  lemma {:induction false} AcceptedClears(s: Keys, at: nat, submitted: string, calls: seq<Call>, now: nat)
    requires Verify(s, at, submitted).1 == Accepted && at <= now
    requires Compared(Verify(s, at, submitted).0, calls) < 5
    ensures !Present(After(Verify(s, at, submitted).0, calls).lock, now)
  {
    NoLockYet(Verify(s, at, submitted).0, calls);
  }

  predicate AllWrong(s: Keys, calls: seq<Call>) {
    calls == [] || (AllWrong(s, calls[..|calls| - 1]) && LastAnswer(s, calls) == Wrong)
  }

  /** And the fifth within ten minutes does lock, for five minutes from then on. */
  lemma {:induction false} FifthLocks(s: Keys, calls: seq<Call>)
    requires s.failures == None && 1 <= |calls| <= 5 && Ordered(calls) && AllWrong(s, calls)
    requires calls[|calls| - 1].at < calls[0].at + 600
    ensures var after := After(s, calls);
      && after.failures == Some(Entry(|calls|, Some(calls[0].at + 600)))
      && after.lock == (if |calls| == 5 then Some(Entry("1", Some(calls[4].at + 300))) else s.lock)
  {
    var init, last := calls[..|calls| - 1], calls[|calls| - 1];
    if init != [] {
      FifthLocks(s, init);
    } else {
      assert After(s, init) == s;
    }
  }

  predicate NoneAccepted(s: Keys, calls: seq<Call>) {
    calls == [] || (NoneAccepted(s, calls[..|calls| - 1]) && LastAnswer(s, calls) != Accepted)
  }

  /** All calls come in the t seconds from `start` on. */
  ghost predicate Within(calls: seq<Call>, start: nat, t: nat) {
    Ordered(calls) && forall i :: 0 <= i < |calls| ==> start <= calls[i].at <= start + t
  }

  /** Guesses paid for by the counter lives that fit between the start and time t. */
  function Paid(start: int, t: int): int {
    6 * ((t - start) / CODE_TTL)
  }

  lemma PaidMonotone(start: int, t: int, u: int)
    requires t <= u
    ensures Paid(start, t) <= Paid(start, u)
  {
  }

  lemma PaidOneMore(start: int, t: int)
    ensures Paid(start, t + CODE_TTL) == Paid(start, t) + 6
  {
  }

  /** From when on a guess can be compared at all: there is a code, or one can be requested. */
  function GuessableAt(s: Keys, start: nat): (g: nat)
    ensures start <= g
  {
    if Present(s.code, start) || !Present(s.cooldown, start) || s.cooldown.value.expiry.None? then start
    else s.cooldown.value.expiry.value
  }

  /**
   What a counter running at the start adds, if it is not a whole life long and a guess comes before
   its end: it can be filled up to the lock, and the next life begins before the first ten minutes are over.
   */
  function Leftover(s: Keys, start: nat): (r: nat)
    ensures r <= 3
  {
    if Present(s.failures, start) && s.failures.value.expiry.Some? && s.failures.value.expiry.value < start + CODE_TTL
       && 1 <= s.failures.value.value <= 3 && GuessableAt(s, start) < s.failures.value.expiry.value
    then 4 - s.failures.value.value
    else 0
  }

  /** No guess reaches the counter before it ends: there is no code and none can be requested until then. */
  predicate Unreachable(s: Keys, end: nat, now: nat) {
    || end <= now
    || (&& !Present(s.code, now)
        && s.cooldown.Some? && s.cooldown.value.expiry.Some? && end <= s.cooldown.value.expiry.value)
  }

  predicate LockedUntil(s: Keys, t: nat) {
    s.lock.Some? && s.lock.value.expiry.Some? && t <= s.lock.value.expiry.value
  }

  /**
   The account of the n wrong guesses since `start`. Either none could come yet; or they are in the
   counter that ran at the start, and reaching its fifth and sixth took time; or a later counter runs,
   and the lives since the start, or since the first lock ended, cover them.
   */
  predicate Covered(s: Keys, start: nat, now: nat, n: nat, leftover: nat) {
    && start <= now && WellFormed(s, now)
    && match s.failures
       case Some(c) =>
         var v, end, began := c.value, c.expiry.value, c.expiry.value - CODE_TTL;
         || (n == 0 && Unreachable(s, end, now))
         || (n + 4 <= v + leftover
             && (n > leftover ==> LockedUntil(s, start + VERIFY_LOCKOUT_TTL))
             && (n > leftover + 1 ==> LockedUntil(s, start + CODE_TTL)))
         || (start <= began && n <= Paid(start, began) + v + leftover)
         || (start + VERIFY_LOCKOUT_TTL <= began && n <= Paid(start + VERIFY_LOCKOUT_TTL, began) + v + leftover + 1)
       case None => n == 0
  }

  lemma CoveredStart(s: Keys, start: nat)
    requires WellFormed(s, start)
    ensures Covered(s, start, start, 0, Leftover(s, start))
  {
  }

  /** A wrong guess that starts a new counter. */
  lemma CoveredAnew(s: Keys, start: nat, before: nat, n: nat, leftover: nat, now: nat)
    requires Covered(s, start, before, n, leftover) && before <= now
    requires !Present(s.lock, now) && !Present(s.failures, now)
    ensures n + 1 <= Paid(start, now) + 1 + leftover
         || (start + VERIFY_LOCKOUT_TTL <= now && n + 1 <= Paid(start + VERIFY_LOCKOUT_TTL, now) + 2 + leftover)
  {
    PaidMonotone(start, start, now);
    if s.failures.Some? {
      var began := s.failures.value.expiry.value - CODE_TTL;
      PaidOneMore(start, began);
      PaidMonotone(start, began + CODE_TTL, now);
      PaidOneMore(start + VERIFY_LOCKOUT_TTL, began);
      PaidMonotone(start + VERIFY_LOCKOUT_TTL, began + CODE_TTL, now);
      if n > leftover + 1 && n <= leftover + 2 && start + CODE_TTL <= now {
        PaidOneMore(start, start);
        PaidMonotone(start, start + CODE_TTL, now);
      }
      if start + VERIFY_LOCKOUT_TTL <= now {
        PaidMonotone(start + VERIFY_LOCKOUT_TTL, start + VERIFY_LOCKOUT_TTL, now);
      }
    }
  }

  lemma CoveredWrong(s: Keys, start: nat, before: nat, n: nat, leftover: nat, now: nat)
    requires Covered(s, start, before, n, leftover) && before <= now && !Present(s.lock, now) && Present(s.code, now)
    ensures Covered(Failed(s, now), start, now, n + 1, leftover)
  {
    if !Present(s.failures, now) {
      CoveredAnew(s, start, before, n, leftover, now);
    }
    hide Paid;
  }

  lemma CoveredStep(s: Keys, start: nat, before: nat, n: nat, leftover: nat, c: Call)
    requires Covered(s, start, before, n, leftover) && before <= c.at && Step(s, c).1 != Accepted
    ensures Covered(Step(s, c).0, start, c.at, if Step(s, c).1 == Wrong then n + 1 else n, leftover)
  {
    hide Paid, Failed;
    if Step(s, c).1 == Wrong {
      CoveredWrong(s, start, before, n, leftover, c.at);
    }
  }

  lemma {:induction false} RunCovered(s: Keys, start: nat, t: nat, calls: seq<Call>)
    requires WellFormed(s, start) && Within(calls, start, t) && NoneAccepted(s, calls)
    ensures Covered(After(s, calls), start, if calls == [] then start else calls[|calls| - 1].at,
                    Compared(s, calls), Leftover(s, start))
  {
    hide Covered, WellFormed, Step, Leftover;
    if calls == [] {
      CoveredStart(s, start);
    } else {
      var init, last := calls[..|calls| - 1], calls[|calls| - 1];
      RunCovered(s, start, t, init);
      CoveredStep(After(s, init), start, if init == [] then start else init[|init| - 1].at,
                  Compared(s, init), Leftover(s, start), last);
    }
  }

  lemma CoveredBound(s: Keys, start: nat, now: nat, n: nat, leftover: nat, t: nat)
    requires Covered(s, start, now, n, leftover) && now <= start + t
    ensures n <= 6 * (t / CODE_TTL + 1) + leftover
  {
    PaidMonotone(start, start, start + t);
    if s.failures.Some? {
      var began := s.failures.value.expiry.value - CODE_TTL;
      PaidMonotone(start, began, start + t);
      PaidMonotone(start + VERIFY_LOCKOUT_TTL, began, start + VERIFY_LOCKOUT_TTL + t);
      if began + VERIFY_LOCKOUT_TTL <= start + t {
        PaidMonotone(start, began + VERIFY_LOCKOUT_TTL, start + t);
        PaidOneMore(start + VERIFY_LOCKOUT_TTL, began);
      }
    }
  }

  /**
   With no correct code among them, at most 6 * (T / 600 + 1) wrong codes are compared in the T
   seconds from `start` on, and what a counter running then leaves over.
   */
  lemma {:induction false} GuessBound(s: Keys, start: nat, t: nat, calls: seq<Call>)
    requires WellFormed(s, start) && Within(calls, start, t) && NoneAccepted(s, calls)
    ensures Compared(s, calls) <= 6 * (t / CODE_TTL + 1) + Leftover(s, start)
  {
    hide Covered, Compared, After, Leftover, NoneAccepted;
    RunCovered(s, start, t, calls);
    CoveredBound(After(s, calls), start, if calls == [] then start else calls[|calls| - 1].at,
                 Compared(s, calls), Leftover(s, start), t);
  }

  /** So in every window of every run, whatever came before it, accepted codes included. */
  lemma {:induction false} GuessWindow(before: seq<Call>, start: nat, t: nat, calls: seq<Call>)
    requires Ordered(before) && (before != [] ==> before[|before| - 1].at <= start)
    requires Within(calls, start, t) && NoneAccepted(After(EMPTY, before), calls)
    ensures Compared(After(EMPTY, before), calls) <= 6 * (t / CODE_TTL + 1) + Leftover(After(EMPTY, before), start)
  {
    AlwaysWellFormed(before, start);
    GuessBound(After(EMPTY, before), start, t, calls);
  }

  /** In particular from an empty store. */
  lemma {:induction false} FirstGuesses(start: nat, t: nat, calls: seq<Call>)
    requires Within(calls, start, t) && NoneAccepted(EMPTY, calls)
    ensures Compared(EMPTY, calls) <= 6 * (t / CODE_TTL + 1)
  {
    GuessBound(EMPTY, start, t, calls);
  }

  // ---- the bound is reached ----

  /**
   A worst run: `lead` calls at the first moment, a request and the guesses that fill the counter up
   to the lock, then from `base` on every ten minutes a request, five guesses at once and a sixth
   when the lock ends.
   */
  datatype Plan = Plan(first: nat, lead: nat, base: nat, code: string, wrong: string)

  function LifeStart(p: Plan, i: nat): nat
    requires p.lead <= i
  {
    p.base + CODE_TTL * ((i - p.lead) / 7)
  }

  function PlannedCall(p: Plan, i: nat): Call {
    if i < p.lead then (if i == 0 then Ask(p.first, Some(p.code)) else Guess(p.first, p.wrong))
    else
      var r := (i - p.lead) % 7;
      if r == 0 then Ask(LifeStart(p, i), Some(p.code))
      else Guess(if r < 6 then LifeStart(p, i) else LifeStart(p, i) + VERIFY_LOCKOUT_TTL, p.wrong)
  }

  function Planned(p: Plan, n: nat): (calls: seq<Call>)
    ensures |calls| == n && forall i :: 0 <= i < n ==> calls[i] == PlannedCall(p, i)
  {
    seq(n, i requires 0 <= i < n => PlannedCall(p, i))
  }

  predicate PlanOk(p: Plan) {
    && p.wrong != "" && p.wrong != p.code && p.lead <= 5
    && (p.lead > 0 ==> 3 <= p.lead && p.first + VERIFY_LOCKOUT_TTL <= p.base)
  }

  /** The keys while the old counter is filled up. */
  predicate Leading(s: Keys, p: Plan, i: nat)
    requires 3 <= p.lead <= 5
  {
    && s.failures.Some? && s.failures.value.expiry.Some? && p.first < s.failures.value.expiry.value <= p.base
    && s.failures.value.value == (if i == 0 then 6 - p.lead else 5 - p.lead + i)
    && !Present(s.lock, p.first)
    && (s.cooldown.Some? ==>
          s.cooldown.value.expiry.Some? && s.cooldown.value.expiry.value <= p.first + RESEND_COOLDOWN)
    && ((Present(s.code, p.first) && s.code.value.value != p.wrong) || (i == 0 && !Present(s.cooldown, p.first)))
  }

  /** The keys within a life: r calls of it have been made. */
  predicate Living(s: Keys, p: Plan, at: nat, r: nat) {
    if r == 0 then !Present(s.failures, at) && !Present(s.lock, at) && !Present(s.cooldown, at)
    else
      && s.code == Some(Entry(p.code, Some(at + CODE_TTL)))
      && s.cooldown == Some(Entry("1", Some(at + RESEND_COOLDOWN)))
      && (if r == 1 then !Present(s.failures, at) else s.failures == Some(Entry(r - 1, Some(at + CODE_TTL))))
      && (if r < 6 then !Present(s.lock, at) else s.lock == Some(Entry("1", Some(at + VERIFY_LOCKOUT_TTL))))
  }

  predicate OnPlan(s: Keys, p: Plan, i: nat) {
    PlanOk(p) && if i < p.lead then Leading(s, p, i) else Living(s, p, LifeStart(p, i), (i - p.lead) % 7)
  }

  lemma LeadingStep(s: Keys, p: Plan, i: nat)
    requires OnPlan(s, p, i) && i < p.lead
    ensures OnPlan(Step(s, PlannedCall(p, i)).0, p, i + 1)
    ensures var answer := Step(s, PlannedCall(p, i)).1;
      answer != Accepted && (answer == Wrong <==> PlannedCall(p, i).Guess?)
  {
    if i + 1 == p.lead {
      assert LifeStart(p, i + 1) == p.base;
    }
  }

  lemma LivingStep(s: Keys, p: Plan, i: nat)
    requires OnPlan(s, p, i) && p.lead <= i
    ensures OnPlan(Step(s, PlannedCall(p, i)).0, p, i + 1)
    ensures var answer := Step(s, PlannedCall(p, i)).1;
      answer != Accepted && (answer == Wrong <==> PlannedCall(p, i).Guess?)
  {
    var j := i - p.lead;
    assert j % 7 < 6 ==> (j + 1) / 7 == j / 7 && (j + 1) % 7 == j % 7 + 1;
    assert j % 7 == 6 ==> (j + 1) / 7 == j / 7 + 1 && (j + 1) % 7 == 0;
  }

  lemma PlanStep(s: Keys, p: Plan, i: nat)
    requires OnPlan(s, p, i)
    ensures OnPlan(Step(s, PlannedCall(p, i)).0, p, i + 1)
    ensures var answer := Step(s, PlannedCall(p, i)).1;
      answer != Accepted && (answer == Wrong <==> PlannedCall(p, i).Guess?)
  {
    hide OnPlan, Step, PlannedCall;
    if i < p.lead {
      LeadingStep(s, p, i);
    } else {
      LivingStep(s, p, i);
    }
  }

  /** How many of the first n planned calls are guesses. */
  function Guesses(p: Plan, n: nat): int {
    if n == 0 then 0 else Guesses(p, n - 1) + (if PlannedCall(p, n - 1).Guess? then 1 else 0)
  }

  lemma OneMoreCall(s: Keys, init: seq<Call>, c: Call)
    ensures var (after, answer) := Step(After(s, init), c);
      && After(s, init + [c]) == after
      && Compared(s, init + [c]) == Compared(s, init) + (if answer == Wrong then 1 else 0)
      && NoneAccepted(s, init + [c]) == (NoneAccepted(s, init) && answer != Accepted)
  {
    assert (init + [c])[..|init|] == init;
  }

  lemma {:induction false} PlanCompared(s: Keys, p: Plan, n: nat)
    requires OnPlan(s, p, 0)
    ensures Compared(s, Planned(p, n)) == Guesses(p, n) && NoneAccepted(s, Planned(p, n))
      && OnPlan(After(s, Planned(p, n)), p, n)
  {
    if n > 0 {
      hide OnPlan, Step, PlannedCall, After, Compared, NoneAccepted;
      var init, c := Planned(p, n - 1), PlannedCall(p, n - 1);
      assert Planned(p, n) == init + [c];
      PlanCompared(s, p, n - 1);
      OneMoreCall(s, init, c);
      PlanStep(After(s, init), p, n - 1);
    } else {
      assert Planned(p, n) == [];
    }
  }

  lemma {:induction false} LeadGuesses(p: Plan, n: nat)
    requires n <= p.lead
    ensures Guesses(p, n) == if n == 0 then 0 else n - 1
  {
    if n > 0 {
      LeadGuesses(p, n - 1);
    }
  }

  lemma {:induction false} LifeGuesses(p: Plan, j: nat)
    ensures Guesses(p, p.lead + j) == (if p.lead == 0 then 0 else p.lead - 1) + j - (j + 6) / 7
  {
    if j == 0 {
      LeadGuesses(p, p.lead);
    } else {
      LifeGuesses(p, j - 1);
      assert (j + 6) / 7 == (j + 5) / 7 + (if (j - 1) % 7 == 0 then 1 else 0);
    }
  }

  lemma PlannedOrder(p: Plan, i: nat, j: nat)
    requires PlanOk(p) && i <= j
    ensures PlannedCall(p, i).at <= PlannedCall(p, j).at
  {
    if p.lead <= i {
      assert (i - p.lead) / 7 <= (j - p.lead) / 7;
      if (i - p.lead) / 7 == (j - p.lead) / 7 {
        assert (i - p.lead) % 7 <= (j - p.lead) % 7;
      }
    }
  }

  lemma PlannedWithin(p: Plan, n: nat, start: nat, t: nat)
    requires PlanOk(p) && n > 0
    requires start <= PlannedCall(p, 0).at && PlannedCall(p, n - 1).at == start + t
    ensures Within(Planned(p, n), start, t)
  {
    hide PlannedCall;
    forall i, j | 0 <= i <= j < n ensures PlannedCall(p, i).at <= PlannedCall(p, j).at {
      PlannedOrder(p, i, j);
    }
    forall i | 0 <= i < n ensures start <= PlannedCall(p, i).at <= start + t {
      PlannedOrder(p, 0, i);
      PlannedOrder(p, i, n - 1);
    }
  }

  /** The worst run from keys with something left over. */
  function WorstPlan(s: Keys, start: nat, code: string, wrong: string): Plan
    requires Leftover(s, start) > 0
  {
    var first, end := GuessableAt(s, start), s.failures.value.expiry.value;
    var base := if end < first + VERIFY_LOCKOUT_TTL then first + VERIFY_LOCKOUT_TTL else end;
    Plan(first, Leftover(s, start) + 2, base, code, wrong)
  }

  /** A wrong code to guess and a code to be issued. */
  predicate Distinguished(s: Keys, start: nat, code: string, wrong: string) {
    wrong != "" && wrong != code && (Present(s.code, start) ==> s.code.value.value != wrong)
  }

  lemma WorstPlanStarts(s: Keys, start: nat, code: string, wrong: string)
    requires WellFormed(s, start) && Leftover(s, start) > 0 && Distinguished(s, start, code, wrong)
    ensures var p := WorstPlan(s, start, code, wrong);
      OnPlan(s, p, 0) && PlanOk(p) && start <= p.first <= p.base < start + CODE_TTL && p.lead == Leftover(s, start) + 2
  {
  }

  lemma LifeTimes(p: Plan, k: nat)
    requires k > 0
    ensures PlannedCall(p, p.lead + 7 * k - 2).at == p.base + CODE_TTL * (k - 1)
    ensures PlannedCall(p, p.lead + 7 * k - 1).at == p.base + CODE_TTL * (k - 1) + VERIFY_LOCKOUT_TTL
  {
    assert (7 * k - 2) / 7 == k - 1 && (7 * k - 2) % 7 == 5;
    assert (7 * k - 1) / 7 == k - 1 && (7 * k - 1) % 7 == 6;
  }

  lemma LivesFit(d: nat, k: nat)
    requires d < CODE_TTL && k > 0
    ensures (d + CODE_TTL * (k - 1)) / CODE_TTL == k - 1
  {
  }

  /**
   With something left over, the worst run of k lives has exactly as many wrong codes compared as the
   bound allows.
   */
  lemma {:induction false} LeftoverReached(s: Keys, start: nat, k: nat, code: string, wrong: string)
    requires k > 0 && WellFormed(s, start) && Leftover(s, start) > 0 && Distinguished(s, start, code, wrong)
    ensures var p := WorstPlan(s, start, code, wrong);
      var calls, t := Planned(p, p.lead + 7 * k - 1), p.base - start + CODE_TTL * (k - 1);
      && t >= 0 && Within(calls, start, t) && NoneAccepted(s, calls)
      && Compared(s, calls) == 6 * (t / CODE_TTL + 1) + Leftover(s, start)
  {
    hide Within, NoneAccepted, Compared, WellFormed, PlannedCall, Guesses, After, OnPlan, PlanOk, Leftover, WorstPlan;
    WorstPlanStarts(s, start, code, wrong);
    var p := WorstPlan(s, start, code, wrong);
    var n := p.lead + 7 * k - 1;
    LifeTimes(p, k);
    FirstPlanned(p);
    PlannedWithin(p, n, start, p.base - start + CODE_TTL * (k - 1));
    PlanCompared(s, p, n);
    LifeGuesses(p, 7 * k - 1);
    assert p.lead + (7 * k - 1) == n && (7 * k - 1 + 6) / 7 == k;
    LivesFit(p.base - start, k);
  }

  lemma FirstPlanned(p: Plan)
    ensures PlannedCall(p, 0).at == if p.lead > 0 then p.first else p.base
  {
  }

  lemma FreePlanStarts(s: Keys, start: nat, p: Plan)
    requires p.first == p.base == start && p.lead == 0 && p.wrong != "" && p.wrong != p.code
    requires !Present(s.failures, start) && !Present(s.lock, start) && !Present(s.cooldown, start)
    ensures PlanOk(p) && OnPlan(s, p, 0)
  {
  }

  /** So it has, without a leftover, from keys that are free: no counter, no lock and no cooldown. */
  lemma {:induction false} GuessBoundReached(s: Keys, start: nat, k: nat, code: string, wrong: string)
    requires k > 0 && !Present(s.failures, start) && !Present(s.lock, start) && !Present(s.cooldown, start)
    requires wrong != "" && wrong != code
    ensures var calls, t := Planned(Plan(start, 0, start, code, wrong), 7 * k), CODE_TTL * (k - 1) + VERIFY_LOCKOUT_TTL;
      && Within(calls, start, t) && NoneAccepted(s, calls)
      && Compared(s, calls) == 6 * (t / CODE_TTL + 1)
  {
    hide Within, NoneAccepted, Compared, PlannedCall, Guesses, After, OnPlan, PlanOk;
    var p := Plan(start, 0, start, code, wrong);
    FreePlanStarts(s, start, p);
    LifeTimes(p, k);
    FirstPlanned(p);
    PlannedWithin(p, 7 * k, start, CODE_TTL * (k - 1) + VERIFY_LOCKOUT_TTL);
    PlanCompared(s, p, 7 * k);
    LifeGuesses(p, 7 * k);
    assert (7 * k + 6) / 7 == k;
    LivesFit(VERIFY_LOCKOUT_TTL, k);
  }

  /** The bound without leftover holds of every window from here on if and only if nothing is left over. */
  lemma {:induction false} PlainBoundExactly(s: Keys, start: nat)
    requires WellFormed(s, start)
    ensures (forall calls, t: nat :: Within(calls, start, t) && NoneAccepted(s, calls) ==>
               Compared(s, calls) <= 6 * (t / CODE_TTL + 1))
       <==> Leftover(s, start) == 0
  {
    hide Within, NoneAccepted, Compared, WellFormed, Leftover, WorstPlan;
    forall calls, t: nat | Within(calls, start, t) && NoneAccepted(s, calls)
      ensures Compared(s, calls) <= 6 * (t / CODE_TTL + 1) + Leftover(s, start)
    {
      GuessBound(s, start, t, calls);
    }
    if Leftover(s, start) > 0 {
      var wrong := if Present(s.code, start) && s.code.value.value == "999999" then "888888" else "999999";
      LeftoverReached(s, start, 1, "000000", wrong);
    }
  }

  /** The keys after a request at 0 and one wrong guess. */
  const ONE_WRONG := Keys(Some(Entry("000000", Some(600))), Some(Entry(1, Some(600))), None, Some(Entry("1", Some(60))))

  lemma OneWrongReached()
    ensures After(EMPTY, [Ask(0, Some("000000")), Guess(0, "999999")]) == ONE_WRONG
  {
    var ask, guess := Ask(0, Some("000000")), Guess(0, "999999");
    OneMoreCall(EMPTY, [], ask);
    OneMoreCall(EMPTY, [ask], guess);
    assert [] + [ask] == [ask] && [ask] + [guess] == [ask, guess];
  }

  lemma OneWrongLeft()
    ensures WellFormed(ONE_WRONG, 599) && Leftover(ONE_WRONG, 599) == 3
      && Distinguished(ONE_WRONG, 599, "000000", "999999")
    ensures WorstPlan(ONE_WRONG, 599, "000000", "999999") == Plan(599, 5, 899, "000000", "999999")
  {
  }

  /** A run where it fails: one wrong code, and from 599 seconds later nine more are compared within five minutes. */
  lemma {:induction false} NineInFiveMinutes()
    ensures var s := After(EMPTY, [Ask(0, Some("000000")), Guess(0, "999999")]);
      var calls := Planned(Plan(599, 5, 899, "000000", "999999"), 11);
      Within(calls, 599, 300) && NoneAccepted(s, calls) && Compared(s, calls) == 9
  {
    hide Within, NoneAccepted, Compared, After, WellFormed, Leftover, Distinguished, WorstPlan, PlannedCall;
    OneWrongReached();
    OneWrongLeft();
    LeftoverReached(ONE_WRONG, 599, 1, "000000", "999999");
  }
}
