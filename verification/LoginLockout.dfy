/**
 Failed-login counting and account lockout. The attempts counter and the lockout record live in the
 cache under one (email, ip, device) key; each service call is one atomic step.
 */
module LoginLockout {
  import opened Common

  type Seconds = n: int | n > 0 witness 1

  /** `redisIncr` says whether the store offers INCR; without it every increment renews the counter. */
  datatype Config = Config(maxFailedAttempts: int, window: Seconds, lockout: Seconds, redisIncr: bool)

  datatype Lockout = Lockout(attempts: nat, lockedUntil: int)

  datatype Account = Unknown | Inactive | Unverified | Active

  datatype Outcome = TooManyRequests | InvalidCredentials | Deactivated | NotVerified | Welcome

  // ---- One key --------------------------------------------------------------------------------

  /** The two cache records of one key. */
  datatype KeyState = KeyState(attempts: Option<Cell<nat>>, lockout: Option<Cell<Lockout>>)

  const FRESH := KeyState(None, None)

  predicate Live<T>(record: Option<Cell<T>>, now: int) {
    record.Some? && now < record.value.expiresAt
  }

  predicate Locked(k: KeyState, now: int) {
    Live(k.lockout, now) && k.lockout.value.value.lockedUntil > now
  }

  function Count(k: KeyState, now: int): nat {
    if Live(k.attempts, now) then k.attempts.value.value else 0
  }

  /** A lockout that has run out is forgotten together with the counter. */
  function Settle(k: KeyState, now: int): KeyState {
    if Live(k.lockout, now) && !Locked(k, now) then FRESH else k
  }

  function Increment(c: Config, k: KeyState, now: int): Cell<nat> {
    var renewed := now + 1000 * c.window;
    if Live(k.attempts, now)
    then Cell(k.attempts.value.value + 1, if c.redisIncr then k.attempts.value.expiresAt else renewed)
    else Cell(1, renewed)
  }

  function Fail(c: Config, k: KeyState, now: int): KeyState {
    var counter := Increment(c, k, now);
    KeyState(
      Some(counter),
      if counter.value >= c.maxFailedAttempts
      then Some(Cell(Lockout(counter.value, now + 1000 * c.lockout), now + 1000 * (c.lockout + c.window)))
      else k.lockout)
  }

  // ---- The service object ---------------------------------------------------------------------

  class LoginGuard {
    const config: Config
    var attempts: map<string, Cell<nat>>
    var lockouts: map<string, Cell<Lockout>>

    constructor (config: Config)
      ensures this.config == config && attempts == map[] && lockouts == map[]
    {
      this.config := config;
      attempts, lockouts := map[], map[];
    }

    ghost function Key(key: string): KeyState
      reads this
    {
      KeyState(if key in attempts then Some(attempts[key]) else None,
               if key in lockouts then Some(lockouts[key]) else None)
    }

    twostate predicate OthersUnchanged(key: string)
      reads this
    {
      forall k | k != key :: Key(k) == old(Key(k))
    }

    method CheckAccountLockout(key: string, now: int) returns (locked: bool)
      modifies this
      ensures locked == old(Locked(Key(key), now))
      ensures Key(key) == Settle(old(Key(key)), now) && OthersUnchanged(key)
      ensures var lapsed := key in old(lockouts)
                            && old(lockouts)[key].value.lockedUntil <= now < old(lockouts)[key].expiresAt;
              && attempts == (if lapsed then old(attempts) - {key} else old(attempts))
              && lockouts == (if lapsed then old(lockouts) - {key} else old(lockouts))
    {
      var record := Fetch(lockouts, key, now);
      if record.Some? && record.value.lockedUntil > now {
        return true;
      }
      if record.Some? {
        lockouts := lockouts - {key};
        attempts := attempts - {key};
      }
      return false;
    }

    method RecordFailedAttempt(key: string, now: int)
      modifies this
      ensures Key(key) == Fail(config, old(Key(key)), now) && OthersUnchanged(key)
    {
      var current := Fetch(attempts, key, now);
      var value := (if current.Some? then current.value else 0) + 1;
      if config.redisIncr && current.Some? {
        attempts := attempts[key := Cell(value, attempts[key].expiresAt)];
      } else {
        attempts := attempts[key := Cell(value, now + 1000 * config.window)];
      }
      if value >= config.maxFailedAttempts {
        lockouts := lockouts[key := Cell(Lockout(value, now + 1000 * config.lockout),
                                         now + 1000 * (config.lockout + config.window))];
      }
    }

    method ClearFailedAttempts(key: string)
      modifies this
      ensures Key(key) == FRESH && OthersUnchanged(key)
    {
      attempts := attempts - {key};
      lockouts := lockouts - {key};
    }

    /** `compared` reports whether the password was put to the hash comparison. */
    method ValidateUser(key: string, account: Account, matches: bool, now: int)
      returns (outcome: Outcome, compared: bool)
      modifies this
      ensures OthersUnchanged(key)
      ensures Key(key) == Login(config, old(Key(key)), account, matches, now).0
      ensures outcome == Login(config, old(Key(key)), account, matches, now).1
      ensures compared <==> !old(Locked(Key(key), now)) && account.Active?
      ensures outcome == Welcome <==> compared && matches
    {
      var locked := CheckAccountLockout(key, now);
      if locked {
        return TooManyRequests, false;
      }
      match account
      case Unknown =>
        RecordFailedAttempt(key, now);
        return InvalidCredentials, false;
      case Inactive => return Deactivated, false;
      case Unverified => return NotVerified, false;
      case Active =>
        if !matches {
          RecordFailedAttempt(key, now);
          return InvalidCredentials, true;
        }
        ClearFailedAttempts(key);
        return Welcome, true;
    }

    /** Whole seconds until the key unlocks, 0 exactly when it is not locked. */
    method GetRemainingLockoutTime(key: string, now: int) returns (seconds: nat)
      modifies this
      ensures seconds > 0 <==> old(Locked(Key(key), now))
      ensures seconds > 0 ==>
        1000 * (seconds - 1) < old(Key(key)).lockout.value.value.lockedUntil - now <= 1000 * seconds
      ensures Key(key) == Settle(old(Key(key)), now) && OthersUnchanged(key)
    {
      var record := Fetch(lockouts, key, now);
      if record.Some? && record.value.lockedUntil > now {
        return (record.value.lockedUntil - now + 999) / 1000;
      }
      if record.Some? {
        lockouts := lockouts - {key};
        attempts := attempts - {key};
      }
      return 0;
    }
  }

  /** A login attempt as one step on its key. */
  function Login(c: Config, k: KeyState, account: Account, matches: bool, now: int): (KeyState, Outcome) {
    var settled := Settle(k, now);
    if Locked(k, now) then (k, TooManyRequests)
    else match account
      case Unknown => (Fail(c, settled, now), InvalidCredentials)
      case Inactive => (settled, Deactivated)
      case Unverified => (settled, NotVerified)
      case Active => if matches then (FRESH, Welcome) else (Fail(c, settled, now), InvalidCredentials)
  }

  // ---- Runs on one key ------------------------------------------------------------------------

  datatype Event = Attempt(account: Account, matches: bool) | Remaining | Unlock | Tick(ms: nat)

  /** `epochs` counts the counters started so far and `epochStart` is when the last one was. */
  datatype Trace = Trace(now: int, key: KeyState, failures: nat, epochs: nat, epochStart: int)

  function Start(now: int): Trace {
    Trace(now, FRESH, 0, 0, now)
  }

  function Next(c: Config, s: Trace, e: Event): Trace {
    match e
    case Attempt(account, matches) =>
      var (k, outcome) := Login(c, s.key, account, matches, s.now);
      if outcome != InvalidCredentials then s.(key := k)
      else if Count(Settle(s.key, s.now), s.now) == 0
      then s.(key := k, failures := s.failures + 1, epochs := s.epochs + 1, epochStart := s.now)
      else s.(key := k, failures := s.failures + 1)
    case Remaining => s.(key := Settle(s.key, s.now))
    case Unlock => s.(key := FRESH)
    case Tick(ms) => s.(now := s.now + ms)
  }

  function Run(c: Config, s: Trace, es: seq<Event>): Trace
    decreases |es|
  {
    if es == [] then s else Run(c, Next(c, s, es[0]), es[1..])
  }

  /** Attempts before the lock falls; even a configured zero lets one attempt be recorded. */
  function Allowance(c: Config): int {
    Max(c.maxFailedAttempts, 1)
  }

  function Period(c: Config): (m: int)
    ensures m > 0
  {
    1000 * Min(c.window, c.lockout)
  }

  /** Without a live lockout record the live counter is below the limit. */
  ghost predicate KeyInv(c: Config, k: KeyState, now: int) {
    && (Live(k.attempts, now) ==> 1 <= k.attempts.value.value <= Allowance(c)
                                  && k.attempts.value.expiresAt <= now + 1000 * c.window)
    && (if Live(k.lockout, now)
        then Live(k.attempts, now) ==> k.attempts.value.expiresAt <= k.lockout.value.expiresAt
        else Count(k, now) < Allowance(c))
  }

  lemma NextKeepsKeyInv(c: Config, s: Trace, e: Event)
    requires KeyInv(c, s.key, s.now)
    ensures var t := Next(c, s, e); KeyInv(c, t.key, t.now)
  {
  }

  lemma {:induction false} RunKeepsKeyInv(c: Config, s: Trace, es: seq<Event>)
    requires KeyInv(c, s.key, s.now)
    ensures var t := Run(c, s, es); KeyInv(c, t.key, t.now)
    decreases |es|
  {
    if es != [] {
      NextKeepsKeyInv(c, s, es[0]);
      RunKeepsKeyInv(c, Next(c, s, es[0]), es[1..]);
    }
  }

  /**
   After any run whatever, an attempt that is let past the lockout check finds the counter below the
   limit, and the attempt that reaches the limit leaves the key locked for the whole lockout duration.
   */
  lemma LimitMeansLocked(c: Config, start: int, es: seq<Event>, account: Account, matches: bool, later: int)
    ensures var s := Run(c, Start(start), es);
            var (k, outcome) := Login(c, s.key, account, matches, s.now);
            && (outcome != TooManyRequests ==> Count(Settle(s.key, s.now), s.now) < Allowance(c))
            && (outcome == InvalidCredentials ==>
                  (Locked(k, s.now) <==> Count(Settle(s.key, s.now), s.now) + 1 >= c.maxFailedAttempts))
            && (outcome == InvalidCredentials && Locked(k, s.now) && s.now <= later ==>
                  (Locked(k, later) <==> later < s.now + 1000 * c.lockout))
  {
    RunKeepsKeyInv(c, Start(start), es);
  }

  /**
   What one attempt does after any run, in numbers: a wrong password and an unknown account add one to the
   counter, a welcome sets it to zero, the rest leave it. The counter lives for the window from its first
   failure where the store has INCR, from its last otherwise; reaching the limit locks for the lockout time.
   */
  lemma AttemptMeans(c: Config, start: int, es: seq<Event>, account: Account, matches: bool)
    ensures var s := Run(c, Start(start), es);
            var settled := Settle(s.key, s.now);
            var (k, outcome) := Login(c, s.key, account, matches, s.now);
            var failed := account.Unknown? || (account.Active? && !matches);
            !Locked(s.key, s.now) ==>
              && (outcome == InvalidCredentials <==> failed)
              && (outcome == Welcome <==> account.Active? && matches)
              && (outcome == Deactivated <==> account.Inactive?) && (outcome == NotVerified <==> account.Unverified?)
              && Count(k, s.now) == (if failed then Count(settled, s.now) + 1 else if outcome == Welcome then 0
                                     else Count(settled, s.now))
              && (failed ==>
                    && k.attempts.Some?
                    && k.attempts.value.expiresAt
                       == if c.redisIncr && Count(settled, s.now) > 0 then settled.attempts.value.expiresAt
                          else s.now + 1000 * c.window)
              && (failed && Count(settled, s.now) + 1 >= c.maxFailedAttempts ==>
                    k.lockout.Some? && k.lockout.value.value.lockedUntil == s.now + 1000 * c.lockout
                    && k.lockout.value.value.attempts == Count(settled, s.now) + 1)
              && (!failed && outcome != Welcome ==> k == settled)
    ensures var s := Run(c, Start(start), es);
            Locked(s.key, s.now) ==> Login(c, s.key, account, matches, s.now) == (s.key, TooManyRequests)
  {
    RunKeepsKeyInv(c, Start(start), es);
  }

  /** After a welcome nothing is remembered: the next failure, however soon or late, is counted as the first. */
  lemma WelcomeForgets(c: Config, start: int, es: seq<Event>, wait: nat)
    ensures var s := Run(c, Start(start), es);
            var (k, outcome) := Login(c, s.key, Active, true, s.now);
            outcome == Welcome ==>
              && Count(k, s.now + wait) == 0 && !Locked(k, s.now + wait)
              && Count(Login(c, k, Active, false, s.now + wait).0, s.now + wait) == 1
  {
  }

  /** No success and no administrator's unlock. */
  ghost predicate OnlyFailures(es: seq<Event>) {
    forall i | 0 <= i < |es| :: !es[i].Unlock? && (es[i].Attempt? ==> !(es[i].account.Active? && es[i].matches))
  }

  /** Counters start at least a period apart and each records at most the allowance. */
  ghost predicate EpochInv(c: Config, s: Trace, start: int) {
    && KeyInv(c, s.key, s.now)
    && start <= s.epochStart <= s.now
    && (s.epochs == 0 ==> s.failures == 0 && Count(s.key, s.now) == 0)
    && (s.epochs > 0 ==>
          && s.epochStart - start >= (s.epochs - 1) * Period(c)
          && s.failures <= s.epochs * Allowance(c)
          && (if Live(s.key.attempts, s.now)
              then s.key.attempts.value.expiresAt >= s.epochStart + 1000 * c.window
                   && s.failures <= (s.epochs - 1) * Allowance(c) + s.key.attempts.value.value
              else s.now >= s.epochStart + Period(c))
          && (Live(s.key.lockout, s.now) ==> s.key.lockout.value.value.lockedUntil >= s.epochStart + 1000 * c.lockout))
  }

  lemma Distribute(n: int, a: int)
    ensures (n + 1) * a == n * a + a
  {
  }

  lemma NextKeepsEpochInv(c: Config, s: Trace, e: Event, start: int)
    requires EpochInv(c, s, start) && OnlyFailures([e])
    ensures EpochInv(c, Next(c, s, e), start)
  {
    assert [e][0] == e;
    Distribute(s.epochs, Allowance(c));
    Distribute(s.epochs - 1, Allowance(c));
    Distribute(s.epochs - 1, Period(c));
    NextKeepsKeyInv(c, s, e);
  }

  lemma {:induction false} RunKeepsEpochInv(c: Config, s: Trace, es: seq<Event>, start: int)
    requires EpochInv(c, s, start) && OnlyFailures(es)
    ensures EpochInv(c, Run(c, s, es), start)
    decreases |es|
  {
    if es != [] {
      assert [es[0]][0] == es[0];
      NextKeepsEpochInv(c, s, es[0], start);
      RunKeepsEpochInv(c, Next(c, s, es[0]), es[1..], start);
    }
  }

  lemma ScaledQuotientBound(n: int, m: int, t: int, a: nat)
    requires m > 0 && n * m <= t
    ensures (n + 1) * a <= a * (t / m + 1)
  {
    assert m * (t / m) <= t < m * (t / m + 1);
    assert n <= t / m;
  }

  /**
   A guesser who starts on fresh keys and never succeeds records, in a run of length T, at most
   N * (T / min(window, lockout) + 1) failures.
   */
  lemma FailuresAreBounded(c: Config, start: int, es: seq<Event>)
    requires OnlyFailures(es)
    ensures var s := Run(c, Start(start), es);
            s.failures <= Allowance(c) * ((s.now - start) / Period(c) + 1)
  {
    var s := Run(c, Start(start), es);
    RunKeepsEpochInv(c, Start(start), es, start);
    ScaledQuotientBound(s.epochs - 1, Period(c), s.now - start, Allowance(c));
  }
}
