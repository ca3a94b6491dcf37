/**
 `sendMintTx`, `sendTransferTx` and `sendBurnTx`: read the result cache, take the lock with retries,
 read the cache again, execute, store the result, release. The three differ only in the names of the
 two keys, so one protocol instance is modelled: every caller that shares a default key.

 Callers interleave freely. The clock moves only through `Tick`, and a run keeps three provisos: Redis
 answers, a success is followed by its cache write, and no caller lets its lease run out between taking
 the lock and writing the result.
 */
module BlockchainSender {
  import opened Common
  import Lock = DistributedLock

  const LOCK_TTL_MS := 30_000
  const RETRIES := 3
  const RESULT_TTL_MS := 3_600_000

  datatype Phase =
    | Starting
    | Acquiring(attempt: nat)
    | LastLook
    | Holding(token: string, until: int)
    | Checked(token: string, until: int)
    | Executed(token: string, until: int, hash: string)
    | Tracking(token: string, until: int, seen: Seen)
    | Releasing(token: string, until: int, result: Option<Seen>)
    | Returned(seen: Seen)
    | Threw

  /** The hash a caller will return, and the instant at which it read it from the cache or stored it there. */
  datatype Seen = Seen(hash: string, at: int)

  /** A transaction the network accepted. */
  datatype Tx = Tx(hash: string, at: int)

  datatype System = System(
    now: int,
    locks: Lock.Store,
    cache: Option<Cell<string>>,
    callers: map<nat, Phase>,
    issued: set<string>,
    log: seq<Tx>)

  datatype Event =
    | Call(id: nat)
    | Advance(caller: nat, token: string, succeeds: bool, hash: string)
    | Crash(victim: nat)
    | Tick(ms: nat)

  function Init(now: int): System {
    System(now, map[], None, map[], {}, [])
  }

  /** A cache read of this protocol's key. */
  function Lookup(s: System): Option<string> {
    if s.cache.Some? && s.now < s.cache.value.expiresAt then Some(s.cache.value.value) else None
  }

  /** From the lock to the cache write. */
  predicate InSection(p: Phase) {
    p.Holding? || p.Checked? || p.Executed?
  }

  predicate HoldsLock(p: Phase) {
    InSection(p) || p.Tracking? || p.Releasing?
  }

  predicate MayTick(s: System, ms: nat) {
    forall c | c in s.callers && InSection(s.callers[c]) :: s.now + ms < s.callers[c].until
  }

  function Goto(s: System, c: nat, p: Phase): System {
    s.(callers := s.callers[c := p])
  }

  /** One step of one caller, as the code takes it between two awaits. */
  function AdvanceCaller(s: System, c: nat, token: string, succeeds: bool, hash: string, lockKey: string): System
    requires c in s.callers
  {
    match s.callers[c]
    case Starting =>
      Goto(s, c, if Lookup(s).Some? then Returned(Seen(Lookup(s).value, s.now)) else Acquiring(0))
    case Acquiring(attempt) =>
      if token in s.issued then s
      else if Lock.Held(s.locks, lockKey, s.now) then
        Goto(s.(issued := s.issued + {token}), c, if attempt < RETRIES then Acquiring(attempt + 1) else LastLook)
      else
        Goto(s.(issued := s.issued + {token}, locks := Lock.SetNxPx(s.locks, lockKey, token, LOCK_TTL_MS, s.now)),
             c, Holding(token, s.now + LOCK_TTL_MS))
    case LastLook =>
      Goto(s, c, if Lookup(s).Some? then Returned(Seen(Lookup(s).value, s.now)) else Threw)
    case Holding(t, until) =>
      Goto(s, c, if Lookup(s).Some? then Releasing(t, until, Some(Seen(Lookup(s).value, s.now))) else Checked(t, until))
    case Checked(t, until) =>
      if succeeds then Goto(s.(log := s.log + [Tx(hash, s.now)]), c, Executed(t, until, hash))
      else Goto(s, c, Releasing(t, until, None))
    case Executed(t, until, h) =>
      Goto(s.(cache := Some(Cell(h, s.now + RESULT_TTL_MS))), c, Tracking(t, until, Seen(h, s.now)))
    case Tracking(t, until, seen) =>
      Goto(s, c, Releasing(t, until, if succeeds then Some(seen) else None))
    case Releasing(t, _, result) =>
      Goto(s.(locks := Lock.CompareAndDelete(s.locks, lockKey, t, s.now)),
           c, if result.Some? then Returned(result.value) else Threw)
    case Returned(_) => s
    case Threw => s
  }

  /** With `guarded` the provisos of the header hold; without it anything can happen. */
  function Next(s: System, e: Event, lockKey: string, guarded: bool): System {
    match e
    case Call(c) => if c in s.callers then s else Goto(s, c, Starting)
    case Advance(c, token, succeeds, hash) =>
      if c in s.callers then AdvanceCaller(s, c, token, succeeds, hash, lockKey) else s
    case Crash(c) =>
      if guarded && c in s.callers && s.callers[c].Executed? then s else s.(callers := s.callers - {c})
    case Tick(ms) => if guarded && !MayTick(s, ms) then s else s.(now := s.now + ms)
  }

  function Run(s: System, es: seq<Event>, lockKey: string, guarded: bool): System
    decreases |es|
  {
    if es == [] then s else Run(Next(s, es[0], lockKey, guarded), es[1..], lockKey, guarded)
  }

  // ---- The invariant --------------------------------------------------------------------------

  /** Distinct callers hold distinct issued tokens; an unexpired holder owns the stored one. */
  ghost predicate LockInv(s: System, lockKey: string) {
    && (forall k | k in s.locks :: s.locks[k].value in s.issued)
    && (forall c | c in s.callers && HoldsLock(s.callers[c]) :: s.callers[c].token in s.issued)
    && (forall b, c | b in s.callers && c in s.callers && HoldsLock(s.callers[b]) && HoldsLock(s.callers[c])
                      && s.callers[b].token == s.callers[c].token :: b == c)
    && (forall c | c in s.callers && HoldsLock(s.callers[c]) && s.now < s.callers[c].until ::
          lockKey in s.locks && s.locks[lockKey] == Cell(s.callers[c].token, s.callers[c].until))
    && (forall c | c in s.callers && InSection(s.callers[c]) :: s.now < s.callers[c].until)
  }

  /** The last transaction accepted by an instant. */
  predicate IsLatest(log: seq<Tx>, i: nat, at: int) {
    i < |log| && log[i].at <= at && (i + 1 < |log| ==> at < log[i + 1].at)
  }

  ghost predicate Current(log: seq<Tx>, seen: Seen) {
    exists i: nat :: IsLatest(log, i, seen.at) && log[i].hash == seen.hash
  }

  /** A caller's hash was current when it was seen, and no stored result that lived then has been replaced. */
  ghost predicate Settled(s: System, seen: Seen) {
    Current(s.log, seen) && s.cache.Some? && seen.at < s.cache.value.expiresAt
  }

  predicate Pending(s: System) {
    exists c :: c in s.callers && s.callers[c].Executed?
  }

  /** The log is paced by the lifetime of the stored results; a live one, and any unless pending, is the last's. */
  ghost predicate LogInv(s: System) {
    && (forall i | 0 <= i < |s.log| :: s.log[i].at <= s.now)
    && (forall i | 0 <= i < |s.log| - 1 :: s.log[i + 1].at - s.log[i].at >= RESULT_TTL_MS)
    && (s.cache.Some? ==> s.cache.value.expiresAt <= s.now + RESULT_TTL_MS)
    && (Lookup(s).Some? ==> |s.log| > 0 && Lookup(s).value == s.log[|s.log| - 1].hash)
    && (|s.log| > 0 && !Pending(s) ==>
          s.cache.Some? && s.cache.value.expiresAt >= s.log[|s.log| - 1].at + RESULT_TTL_MS)
  }

  ghost predicate CallerInv(s: System, p: Phase) {
    match p
    case Checked(_, _) => Lookup(s).None?
    case Executed(_, _, h) => |s.log| > 0 && s.log[|s.log| - 1].hash == h
    case Tracking(_, _, seen) => Settled(s, seen)
    case Releasing(_, _, Some(seen)) => Settled(s, seen)
    case Returned(seen) => Settled(s, seen)
    case _ => true
  }

  ghost predicate Inv(s: System, lockKey: string) {
    && LockInv(s, lockKey)
    && LogInv(s)
    && (forall c | c in s.callers :: CallerInv(s, s.callers[c]))
  }

  /** `q` is a later phase of the same call: it holds the same lock as `p`, or none. */
  predicate Continues(p: Phase, q: Phase) {
    && (HoldsLock(q) ==> HoldsLock(p) && p.token == q.token && p.until == q.until)
    && (InSection(q) ==> InSection(p))
  }

  lemma MoveKeepsLockInv(s: System, s': System, lockKey: string, c: nat, q: Phase)
    requires LockInv(s, lockKey) && (if c in s.callers then Continues(s.callers[c], q) else !HoldsLock(q))
    requires s'.callers == s.callers[c := q]
    requires s'.now == s.now && s'.locks == s.locks && s.issued <= s'.issued
    ensures LockInv(s', lockKey)
  {
  }

  lemma AcquireKeepsLockInv(s: System, lockKey: string, c: nat, token: string)
    requires LockInv(s, lockKey) && c in s.callers && s.callers[c].Acquiring?
    requires token !in s.issued && !Lock.Held(s.locks, lockKey, s.now)
    ensures LockInv(AdvanceCaller(s, c, token, true, "", lockKey), lockKey)
  {
  }

  lemma ReleaseKeepsLockInv(s: System, lockKey: string, c: nat)
    requires LockInv(s, lockKey) && c in s.callers && s.callers[c].Releasing?
    ensures LockInv(AdvanceCaller(s, c, "", true, "", lockKey), lockKey)
  {
  }

  lemma CrashKeepsLockInv(s: System, c: nat, lockKey: string)
    requires LockInv(s, lockKey)
    ensures LockInv(Next(s, Crash(c), lockKey, true), lockKey)
  {
  }

  lemma TickKeepsLockInv(s: System, ms: nat, lockKey: string)
    requires LockInv(s, lockKey)
    ensures LockInv(Next(s, Tick(ms), lockKey, true), lockKey)
  {
  }

  /** A step that is neither a fresh acquisition nor a release only moves its caller on. */
  lemma AdvanceMoves(s: System, c: nat, token: string, succeeds: bool, hash: string, lockKey: string)
    requires c in s.callers && !s.callers[c].Releasing?
    requires s.callers[c].Acquiring? ==> token in s.issued || Lock.Held(s.locks, lockKey, s.now)
    ensures var s' := AdvanceCaller(s, c, token, succeeds, hash, lockKey);
            && s'.callers == s.callers[c := s'.callers[c]] && Continues(s.callers[c], s'.callers[c])
            && s'.now == s.now && s'.locks == s.locks && s.issued <= s'.issued
  {
  }

  lemma AdvanceKeepsLockInv(s: System, c: nat, token: string, succeeds: bool, hash: string, lockKey: string)
    requires LockInv(s, lockKey) && c in s.callers
    ensures LockInv(AdvanceCaller(s, c, token, succeeds, hash, lockKey), lockKey)
  {
    if s.callers[c].Acquiring? && token !in s.issued && !Lock.Held(s.locks, lockKey, s.now) {
      AcquireKeepsLockInv(s, lockKey, c, token);
    } else if s.callers[c].Releasing? {
      ReleaseKeepsLockInv(s, lockKey, c);
    } else {
      var s' := AdvanceCaller(s, c, token, succeeds, hash, lockKey);
      AdvanceMoves(s, c, token, succeeds, hash, lockKey);
      MoveKeepsLockInv(s, s', lockKey, c, s'.callers[c]);
    }
  }

  lemma {:induction false} NextKeepsLockInv(s: System, e: Event, lockKey: string)
    requires LockInv(s, lockKey)
    ensures LockInv(Next(s, e, lockKey, true), lockKey)
  {
    match e
    case Call(c) =>
      if c !in s.callers {
        MoveKeepsLockInv(s, Next(s, e, lockKey, true), lockKey, c, Starting);
      }
    case Crash(c) => CrashKeepsLockInv(s, c, lockKey);
    case Tick(ms) => TickKeepsLockInv(s, ms, lockKey);
    case Advance(c, token, succeeds, hash) =>
      if c in s.callers {
        AdvanceKeepsLockInv(s, c, token, succeeds, hash, lockKey);
      }
  }

  lemma SectionIsExclusive(s: System, lockKey: string, b: nat, c: nat)
    requires LockInv(s, lockKey)
    requires b in s.callers && c in s.callers && InSection(s.callers[b]) && InSection(s.callers[c])
    ensures b == c
  {
    assert s.locks[lockKey].value == s.callers[b].token == s.callers[c].token;
  }

  /** What was current stays so when a transaction is accepted later. */
  lemma CurrentGrows(log: seq<Tx>, tx: Tx, seen: Seen)
    requires Current(log, seen) && seen.at < tx.at
    ensures Current(log + [tx], seen)
  {
    var i: nat :| IsLatest(log, i, seen.at) && log[i].hash == seen.hash;
    assert IsLatest(log + [tx], i, seen.at) && (log + [tx])[i].hash == seen.hash;
  }

  /** A result that is read now, or has just been stored, is the last accepted transaction's. */
  lemma LastIsCurrent(log: seq<Tx>, seen: Seen)
    requires |log| > 0 && log[|log| - 1].at <= seen.at && log[|log| - 1].hash == seen.hash
    ensures Current(log, seen)
  {
    assert IsLatest(log, |log| - 1, seen.at);
  }

  /** While a caller is in the section nobody else is, so a pending result is its own. */
  lemma SoleSection(s: System, lockKey: string, c: nat)
    requires LockInv(s, lockKey) && c in s.callers && InSection(s.callers[c])
    ensures forall b | b in s.callers && b != c :: !InSection(s.callers[b])
  {
    forall b | b in s.callers && InSection(s.callers[b])
      ensures b == c
    {
      SectionIsExclusive(s, lockKey, b, c);
    }
  }

  /** Steps that touch neither the cache nor the log. */
  lemma MoveKeepsInv(s: System, s': System, lockKey: string, c: nat, q: Phase)
    requires Inv(s, lockKey) && LockInv(s', lockKey)
    requires s'.callers == s.callers[c := q] && s'.now == s.now && s'.cache == s.cache && s'.log == s.log
    requires !q.Executed? && (c in s.callers ==> !s.callers[c].Executed?) && CallerInv(s, q)
    ensures Inv(s', lockKey)
  {
    if Pending(s) {
      var b :| b in s.callers && s.callers[b].Executed?;
      assert s'.callers[b].Executed?;
    }
    forall b | b in s'.callers
      ensures CallerInv(s', s'.callers[b])
    {
      LaterKnowsNoLess(s, s', s'.callers[b]);
    }
  }

  /** The transaction is accepted: whatever was stored has expired, so the previous one is old enough. */
  lemma ExecuteKeepsInv(s: System, lockKey: string, c: nat, hash: string)
    requires Inv(s, lockKey) && c in s.callers && s.callers[c].Checked?
    ensures Inv(AdvanceCaller(s, c, "", true, hash, lockKey), lockKey)
  {
    var s' := AdvanceCaller(s, c, "", true, hash, lockKey);
    NextKeepsLockInv(s, Advance(c, "", true, hash), lockKey);
    SoleSection(s, lockKey, c);
    assert CallerInv(s, s.callers[c]);
    assert !Pending(s);
    assert s'.callers[c].Executed?;
    forall b | b in s'.callers
      ensures CallerInv(s', s'.callers[b])
    {
      if b != c {
        assert CallerInv(s, s.callers[b]) && !InSection(s.callers[b]);
        AcceptedKeepsCaller(s, s', s.callers[b], Tx(hash, s.now));
      }
    }
  }

  /** Outside the section a caller's result was seen before the next transaction is accepted. */
  lemma AcceptedKeepsCaller(s: System, s': System, p: Phase, tx: Tx)
    requires CallerInv(s, p) && !InSection(p) && Lookup(s).None? && tx.at == s.now
    requires s'.log == s.log + [tx] && s'.cache == s.cache
    ensures CallerInv(s', p)
  {
    if p.Tracking? || p.Returned? {
      CurrentGrows(s.log, tx, p.seen);
    } else if p.Releasing? && p.result.Some? {
      CurrentGrows(s.log, tx, p.result.value);
    }
  }

  lemma StoreKeepsInv(s: System, lockKey: string, c: nat)
    requires Inv(s, lockKey) && c in s.callers && s.callers[c].Executed?
    ensures var s' := AdvanceCaller(s, c, "", true, "", lockKey);
            Inv(s', lockKey) && |s'.log| > 0 && Lookup(s') == Some(s'.log[|s'.log| - 1].hash)
  {
    var s' := AdvanceCaller(s, c, "", true, "", lockKey);
    NextKeepsLockInv(s, Advance(c, "", true, ""), lockKey);
    SoleSection(s, lockKey, c);
    assert CallerInv(s, s.callers[c]);
    LastIsCurrent(s.log, Seen(s.callers[c].hash, s.now));
    forall b | b in s'.callers
      ensures CallerInv(s', s'.callers[b])
    {
      if b != c {
        assert CallerInv(s, s.callers[b]) && !InSection(s.callers[b]);
      }
    }
  }

  lemma CrashKeepsInv(s: System, lockKey: string, c: nat)
    requires Inv(s, lockKey)
    ensures Inv(Next(s, Crash(c), lockKey, true), lockKey)
  {
    var s' := Next(s, Crash(c), lockKey, true);
    NextKeepsLockInv(s, Crash(c), lockKey);
    assert Pending(s) ==> Pending(s') by {
      if Pending(s) {
        var b :| b in s.callers && s.callers[b].Executed?;
        assert s'.callers[b].Executed?;
      }
    }
    forall b | b in s'.callers
      ensures CallerInv(s', s'.callers[b])
    {
      LaterKnowsNoLess(s, s', s.callers[b]);
    }
  }

  lemma TickKeepsInv(s: System, lockKey: string, ms: nat)
    requires Inv(s, lockKey)
    ensures Inv(Next(s, Tick(ms), lockKey, true), lockKey)
  {
    var s' := Next(s, Tick(ms), lockKey, true);
    NextKeepsLockInv(s, Tick(ms), lockKey);
    assert Pending(s) == Pending(s');
    forall c | c in s'.callers
      ensures CallerInv(s', s'.callers[c])
    {
      LaterKnowsNoLess(s, s', s.callers[c]);
    }
  }

  lemma LaterKnowsNoLess(s: System, s': System, p: Phase)
    requires CallerInv(s, p) && s'.cache == s.cache && s'.log == s.log && s'.now >= s.now
    ensures CallerInv(s', p)
  {
  }

  lemma AdvanceKeepsInv(s: System, c: nat, token: string, succeeds: bool, hash: string, lockKey: string)
    requires Inv(s, lockKey) && c in s.callers
    ensures Inv(AdvanceCaller(s, c, token, succeeds, hash, lockKey), lockKey)
  {
    if s.callers[c].Executed? {
      StoreKeepsInv(s, lockKey, c);
    } else if s.callers[c].Checked? && succeeds {
      ExecuteKeepsInv(s, lockKey, c, hash);
    } else {
      var s' := AdvanceCaller(s, c, token, succeeds, hash, lockKey);
      NextKeepsLockInv(s, Advance(c, token, succeeds, hash), lockKey);
      assert CallerInv(s, s.callers[c]);
      QuietStep(s, c, token, succeeds, hash, lockKey);
      MoveKeepsInv(s, s', lockKey, c, s'.callers[c]);
    }
  }

  /** Every other step leaves the cache and the log alone, and what the caller knows stays true. */
  lemma QuietStep(s: System, c: nat, token: string, succeeds: bool, hash: string, lockKey: string)
    requires c in s.callers && CallerInv(s, s.callers[c]) && LogInv(s)
    requires !s.callers[c].Executed? && !(s.callers[c].Checked? && succeeds)
    ensures var s' := AdvanceCaller(s, c, token, succeeds, hash, lockKey);
            && s'.callers == s.callers[c := s'.callers[c]] && s'.now == s.now && s'.cache == s.cache && s'.log == s.log
            && !s'.callers[c].Executed? && CallerInv(s, s'.callers[c])
  {
    if Lookup(s).Some? {
      LastIsCurrent(s.log, Seen(Lookup(s).value, s.now));
    }
  }

  lemma {:induction false} NextKeepsInv(s: System, e: Event, lockKey: string)
    requires Inv(s, lockKey)
    ensures Inv(Next(s, e, lockKey, true), lockKey)
  {
    match e
    case Tick(ms) => TickKeepsInv(s, lockKey, ms);
    case Crash(c) => CrashKeepsInv(s, lockKey, c);
    case Call(c) =>
      if c !in s.callers {
        NextKeepsLockInv(s, e, lockKey);
        MoveKeepsInv(s, Next(s, e, lockKey, true), lockKey, c, Starting);
      }
    case Advance(c, token, succeeds, hash) =>
      if c in s.callers {
        AdvanceKeepsInv(s, c, token, succeeds, hash, lockKey);
      }
  }

  lemma {:induction false} RunKeepsInv(s: System, es: seq<Event>, lockKey: string)
    requires Inv(s, lockKey)
    ensures Inv(Run(s, es, lockKey, true), lockKey)
    decreases |es|
  {
    if es != [] {
      NextKeepsInv(s, es[0], lockKey);
      RunKeepsInv(Next(s, es[0], lockKey, true), es[1..], lockKey);
    }
  }

  // ---- What every run gives -------------------------------------------------------------------

  /** Any two accepted transactions, anywhere in a run, are a stored result's lifetime apart per step. */
  lemma {:induction false} LogIsPaced(s: System, i: nat, j: nat)
    requires LogInv(s) && i <= j < |s.log|
    ensures s.log[j].at - s.log[i].at >= (j - i) * RESULT_TTL_MS
    decreases j - i
  {
    if i < j {
      LogIsPaced(s, i, j - 1);
      assert s.log[(j - 1) + 1].at - s.log[j - 1].at >= RESULT_TTL_MS;
    }
  }

  lemma {:induction false} LogStartsInRun(s: System, es: seq<Event>, lockKey: string, start: int)
    requires s.now >= start && forall i | 0 <= i < |s.log| :: s.log[i].at >= start
    ensures var t := Run(s, es, lockKey, true); t.now >= start && forall i | 0 <= i < |t.log| :: t.log[i].at >= start
    decreases |es|
  {
    if es != [] {
      LogStartsInRun(Next(s, es[0], lockKey, true), es[1..], lockKey, start);
    }
  }

  /** In every interleaving of any callers, `execute` succeeds at most once per lifetime of a stored result. */
  lemma AtMostOncePerLifetime(start: int, es: seq<Event>, lockKey: string)
    ensures var s := Run(Init(start), es, lockKey, true);
            && (forall i, j | 0 <= i < j < |s.log| :: s.log[j].at - s.log[i].at >= 3_600_000)
            && |s.log| <= (s.now - start) / 3_600_000 + 1
  {
    var s := Run(Init(start), es, lockKey, true);
    RunKeepsInv(Init(start), es, lockKey);
    LogStartsInRun(Init(start), es, lockKey, start);
    forall i, j | 0 <= i < j < |s.log|
      ensures s.log[j].at - s.log[i].at >= RESULT_TTL_MS
    {
      LogIsPaced(s, i, j);
    }
    if |s.log| > 0 {
      LogIsPaced(s, 0, |s.log| - 1);
    }
  }

  predicate HasReturned(s: System, c: nat) {
    c in s.callers && s.callers[c].Returned?
  }

  /**
   In every interleaving every normal return carries the hash of the last transaction accepted by the
   instant at which that caller read or stored its result.
   */
  lemma EveryReturnIsCurrent(start: int, es: seq<Event>, lockKey: string)
    ensures var s := Run(Init(start), es, lockKey, true);
            forall c | HasReturned(s, c) :: Current(s.log, s.callers[c].seen)
  {
    var s := Run(Init(start), es, lockKey, true);
    RunKeepsInv(Init(start), es, lockKey);
    forall c | HasReturned(s, c)
      ensures Current(s.log, s.callers[c].seen)
    {
      assert CallerInv(s, s.callers[c]);
    }
  }

  /**
   So, however long the run: while an accepted transaction's stored result lives, every normal return carries
   its hash, and two returns differ only if a transaction was accepted between the instants they were read at.
   */
  lemma AtMostOnceAndAgreement(start: int, es: seq<Event>, lockKey: string)
    ensures var s := Run(Init(start), es, lockKey, true);
            forall c, i | HasReturned(s, c) && 0 <= i < |s.log|
                          && s.log[i].at <= s.callers[c].seen.at < s.log[i].at + 3_600_000 ::
              s.callers[c].seen.hash == s.log[i].hash
    ensures var s := Run(Init(start), es, lockKey, true);
            forall b, c | HasReturned(s, b) && HasReturned(s, c)
                          && !AcceptedBetween(s.log, s.callers[b].seen.at, s.callers[c].seen.at) ::
              s.callers[b].seen.hash == s.callers[c].seen.hash
  {
    var s := Run(Init(start), es, lockKey, true);
    EveryReturnIsCurrent(start, es, lockKey);
    AtMostOncePerLifetime(start, es, lockKey);
    forall c, i | HasReturned(s, c) && 0 <= i < |s.log|
                  && s.log[i].at <= s.callers[c].seen.at < s.log[i].at + RESULT_TTL_MS
      ensures s.callers[c].seen.hash == s.log[i].hash
    {
      var k: nat :| IsLatest(s.log, k, s.callers[c].seen.at) && s.log[k].hash == s.callers[c].seen.hash;
      LatestIsUnique(s.log, i, k, s.callers[c].seen.at);
    }
    forall b, c | HasReturned(s, b) && HasReturned(s, c)
                  && !AcceptedBetween(s.log, s.callers[b].seen.at, s.callers[c].seen.at)
      ensures s.callers[b].seen.hash == s.callers[c].seen.hash
    {
      SameLatest(s.log, s.callers[b].seen, s.callers[c].seen);
    }
  }

  /** A transaction was accepted after the earlier instant and not after the later one. */
  predicate AcceptedBetween(log: seq<Tx>, a: int, b: int) {
    exists i | 0 <= i < |log| :: Min(a, b) < log[i].at <= Max(a, b)
  }

  ghost predicate Paced(log: seq<Tx>) {
    forall i, j | 0 <= i < j < |log| :: log[j].at - log[i].at >= RESULT_TTL_MS
  }

  lemma LatestIsUnique(log: seq<Tx>, i: nat, k: nat, at: int)
    requires Paced(log) && IsLatest(log, k, at) && i < |log| && log[i].at <= at < log[i].at + RESULT_TTL_MS
    ensures i == k
  {
  }

  lemma SameLatest(log: seq<Tx>, a: Seen, b: Seen)
    requires Paced(log) && Current(log, a) && Current(log, b) && !AcceptedBetween(log, a.at, b.at)
    ensures a.hash == b.hash
  {
    var i: nat :| IsLatest(log, i, a.at) && log[i].hash == a.hash;
    var k: nat :| IsLatest(log, k, b.at) && log[k].hash == b.hash;
    if i < k {
      LaterIsBetween(log, i, k, a.at, b.at);
    } else if k < i {
      LaterIsBetween(log, k, i, b.at, a.at);
    }
  }

  lemma LaterIsBetween(log: seq<Tx>, i: nat, k: nat, a: int, b: int)
    requires Paced(log) && IsLatest(log, i, a) && IsLatest(log, k, b) && i < k
    ensures AcceptedBetween(log, a, b) && AcceptedBetween(log, b, a)
  {
    assert Min(a, b) < log[k].at <= Max(a, b);
  }

  /** The instant a caller has seen its result at, if it has. */
  function SeenAt(p: Phase): Option<int> {
    match p
    case Tracking(_, _, seen) => Some(seen.at)
    case Releasing(_, _, Some(seen)) => Some(seen.at)
    case Returned(seen) => Some(seen.at)
    case _ => None
  }

  /** That instant lies inside the call: not before it began, nor after it returned. */
  lemma {:induction false} SeenDuringCall(s: System, es: seq<Event>, c: nat, began: int, lockKey: string, guarded: bool)
    requires began <= s.now
    requires c in s.callers && SeenAt(s.callers[c]).Some? ==> began <= SeenAt(s.callers[c]).value <= s.now
    ensures var t := Run(s, es, lockKey, guarded);
            HasReturned(t, c) ==> began <= t.callers[c].seen.at <= t.now
    decreases |es|
  {
    if es != [] {
      SeenDuringCall(Next(s, es[0], lockKey, guarded), es[1..], c, began, lockKey, guarded);
    }
  }

  lemma {:induction false} RunAppend(s: System, es: seq<Event>, e: Event, lockKey: string, guarded: bool)
    ensures Run(s, es + [e], lockKey, guarded) == Next(Run(s, es, lockKey, guarded), e, lockKey, guarded)
    decreases |es|
  {
    if es == [] {
      assert [e][1..] == [];
    } else {
      assert (es + [e])[1..] == es[1..] + [e];
      RunAppend(Next(s, es[0], lockKey, guarded), es[1..], e, lockKey, guarded);
    }
  }

  // ---- A live result is returned, and what a throw means --------------------------------------

  /** Neither a step of this caller nor its crash. */
  ghost predicate LeavesAlone(es: seq<Event>, c: nat) {
    forall e | e in es :: (e.Advance? ==> e.caller != c) && (e.Crash? ==> e.victim != c)
  }

  lemma {:induction false} StaysPut(s: System, es: seq<Event>, c: nat, lockKey: string, guarded: bool)
    requires c in s.callers && LeavesAlone(es, c)
    ensures var t := Run(s, es, lockKey, guarded); c in t.callers && t.callers[c] == s.callers[c]
    decreases |es|
  {
    if es != [] {
      assert es[0] in es;
      StaysPut(Next(s, es[0], lockKey, guarded), es[1..], c, lockKey, guarded);
    }
  }

  /**
   In every interleaving, a caller that looks while a result is live (on its first look, on its second with
   the lock held, or on its last after the attempts failed) accepts no transaction and returns the last
   accepted hash: at once, or with the lock as soon as it goes on, whatever the others do in between.
   */
  lemma LiveResultIsReturned(start: int, es: seq<Event>, c: nat, step: Event, between: seq<Event>, last: Event,
                             lockKey: string)
    requires step.Advance? && last.Advance? && step.caller == last.caller == c && LeavesAlone(between, c)
    ensures var s := Run(Init(start), es, lockKey, true);
            var t := Next(s, step, lockKey, true);
            var u := Next(Run(t, between, lockKey, true), last, lockKey, true);
            c in s.callers && Lookup(s).Some? && |s.log| > 0 ==>
              && var seen := Seen(s.log[|s.log| - 1].hash, s.now);
              && (s.callers[c].Starting? || s.callers[c].LastLook? ==>
                    t == s.(callers := s.callers[c := Returned(seen)]))
              && (s.callers[c].Holding? ==> t.log == s.log && c in u.callers && u.callers[c] == Returned(seen))
    ensures var s := Run(Init(start), es, lockKey, true); Lookup(s).Some? ==> |s.log| > 0
  {
    var s := Run(Init(start), es, lockKey, true);
    RunKeepsInv(Init(start), es, lockKey);
    if c in s.callers {
      StaysPut(Next(s, step, lockKey, true), between, c, lockKey, true);
    }
  }

  /** The event is this caller failing: its execution or tracking fails, or its last look finds nothing live. */
  predicate Fails(s: System, e: Event, c: nat) {
    && e.Advance? && e.caller == c && c in s.callers
    && (((s.callers[c].Checked? || s.callers[c].Tracking?) && !e.succeeds)
        || (s.callers[c].LastLook? && Lookup(s).None?))
  }

  /** The caller has thrown, or will once it has released the lock. */
  predicate Doomed(s: System, c: nat) {
    c in s.callers && (s.callers[c].Threw? || (s.callers[c].Releasing? && s.callers[c].result.None?))
  }

  lemma DoomStep(s: System, e: Event, c: nat, lockKey: string, guarded: bool)
    requires Doomed(Next(s, e, lockKey, guarded), c)
    ensures Doomed(s, c) || Fails(s, e, c)
  {
  }

  /** In every run, a caller that throws has failed in one of those ways, at some event of the run. */
  lemma {:induction false} ThrowHasACause(start: int, es: seq<Event>, c: nat, lockKey: string, guarded: bool)
    ensures Doomed(Run(Init(start), es, lockKey, guarded), c) ==>
      exists k | 0 <= k < |es| :: Fails(Run(Init(start), es[..k], lockKey, guarded), es[k], c)
    decreases |es|
  {
    if es != [] && Doomed(Run(Init(start), es, lockKey, guarded), c) {
      var n := |es| - 1;
      ThrowHasACause(start, es[..n], c, lockKey, guarded);
      assert es == es[..n] + [es[n]];
      RunAppend(Init(start), es[..n], es[n], lockKey, guarded);
      DoomStep(Run(Init(start), es[..n], lockKey, guarded), es[n], c, lockKey, guarded);
      if k :| 0 <= k < n && Fails(Run(Init(start), es[..n][..k], lockKey, guarded), es[..n][k], c) {
        assert es[..n][..k] == es[..k];
        assert Fails(Run(Init(start), es[..k], lockKey, guarded), es[k], c);
      }
    }
  }

  /** After any run, a caller that fails in one of those ways accepts and stores nothing and goes on to throw. */
  lemma FailureThrows(start: int, es: seq<Event>, c: nat, e: Event, between: seq<Event>, last: Event, lockKey: string)
    requires last.Advance? && last.caller == c && LeavesAlone(between, c)
    ensures var s := Run(Init(start), es, lockKey, true);
            var t := Next(s, e, lockKey, true);
            var u := Next(Run(t, between, lockKey, true), last, lockKey, true);
            Fails(s, e, c) ==>
              t.log == s.log && t.cache == s.cache && c in u.callers && u.callers[c] == Threw
  {
    var s := Run(Init(start), es, lockKey, true);
    if Fails(s, e, c) {
      StaysPut(Next(s, e, lockKey, true), between, c, lockKey, true);
    }
  }

  /** A lock that is held is held by a caller that is still at work. */
  ghost predicate HolderInv(s: System, lockKey: string) {
    Lock.Held(s.locks, lockKey, s.now) ==>
      exists c :: c in s.callers && HoldsLock(s.callers[c]) && s.callers[c].token == s.locks[lockKey].value
  }

  lemma AdvanceKeepsHolderInv(s: System, b: nat, token: string, succeeds: bool, hash: string, lockKey: string)
    requires LockInv(s, lockKey) && HolderInv(s, lockKey) && b in s.callers
    ensures HolderInv(AdvanceCaller(s, b, token, succeeds, hash, lockKey), lockKey)
  {
    var t := AdvanceCaller(s, b, token, succeeds, hash, lockKey);
    if Lock.Held(s.locks, lockKey, s.now) {
      var c :| c in s.callers && HoldsLock(s.callers[c]) && s.callers[c].token == s.locks[lockKey].value;
      assert c in t.callers;
    } else {
      assert b in t.callers;
    }
  }

  lemma NextKeepsHolderInv(s: System, e: Event, lockKey: string)
    requires LockInv(s, lockKey) && HolderInv(s, lockKey) && !e.Crash?
    ensures HolderInv(Next(s, e, lockKey, true), lockKey)
  {
    if e.Advance? {
      if e.caller in s.callers {
        AdvanceKeepsHolderInv(s, e.caller, e.token, e.succeeds, e.hash, lockKey);
      }
    } else if Lock.Held(s.locks, lockKey, s.now) {
      var c :| c in s.callers && HoldsLock(s.callers[c]) && s.callers[c].token == s.locks[lockKey].value;
      assert c in Next(s, e, lockKey, true).callers;
    }
  }

  /** Without crashes nobody leaves the lock behind: a caller that has returned or thrown has given it back. */
  lemma {:induction false} NobodyLeavesTheLock(start: int, es: seq<Event>, lockKey: string)
    requires forall e | e in es :: !e.Crash?
    ensures HolderInv(Run(Init(start), es, lockKey, true), lockKey)
    decreases |es|
  {
    if es != [] {
      var n := |es| - 1;
      NobodyLeavesTheLock(start, es[..n], lockKey);
      assert es == es[..n] + [es[n]];
      RunAppend(Init(start), es[..n], es[n], lockKey, true);
      RunKeepsInv(Init(start), es[..n], lockKey);
      NextKeepsHolderInv(Run(Init(start), es[..n], lockKey, true), es[n], lockKey);
    }
  }

  /** How often the lock was refused to a caller since its call. */
  function Refusals(start: int, es: seq<Event>, c: nat, lockKey: string, guarded: bool): nat {
    if es == [] then 0
    else
      var n := |es| - 1;
      var s := Run(Init(start), es[..n], lockKey, guarded);
      if c !in s.callers then 0
      else Refusals(start, es[..n], c, lockKey, guarded) + (if IsRefused(s, es[n], c, lockKey) then 1 else 0)
  }

  predicate IsRefused(s: System, e: Event, c: nat, lockKey: string) {
    && e.Advance? && e.caller == c && c in s.callers && s.callers[c].Acquiring?
    && e.token !in s.issued && Lock.Held(s.locks, lockKey, s.now)
  }

  /** What a number of refusals means for a caller's phase. */
  predicate RefusedBy(p: Phase, refused: nat) {
    && (p.Starting? ==> refused == 0)
    && (p.Acquiring? ==> refused == p.attempt <= 3)
    && (p.LastLook? ==> refused == 4)
    && (HoldsLock(p) ==> refused <= 3)
  }

  lemma RefusalStep(s: System, e: Event, c: nat, refused: nat, lockKey: string, guarded: bool)
    requires c in s.callers ==> RefusedBy(s.callers[c], refused)
    ensures var t := Next(s, e, lockKey, guarded);
            var more := if IsRefused(s, e, c, lockKey) then 1 else 0;
            c in t.callers ==> RefusedBy(t.callers[c], if c !in s.callers then 0 else refused + more)
  {
  }

  /** In every run a caller gives up after exactly four refusals, and holds the lock after at most three. */
  lemma {:induction false} FourRefusals(start: int, es: seq<Event>, c: nat, lockKey: string, guarded: bool)
    ensures var t := Run(Init(start), es, lockKey, guarded);
            c in t.callers ==> RefusedBy(t.callers[c], Refusals(start, es, c, lockKey, guarded))
    decreases |es|
  {
    if es != [] {
      var n := |es| - 1;
      FourRefusals(start, es[..n], c, lockKey, guarded);
      assert es == es[..n] + [es[n]];
      RunAppend(Init(start), es[..n], es[n], lockKey, guarded);
      RefusalStep(Run(Init(start), es[..n], lockKey, guarded), es[n], c, Refusals(start, es[..n], c, lockKey, guarded),
                  lockKey, guarded);
    }
  }

  /** A lone caller reaches the point just before `execute` in four steps. */
  lemma ReachesExecute(s: System, es: seq<Event>, c: nat, token: string, lockKey: string, guarded: bool)
    returns (all: seq<Event>)
    requires Run(Init(0), es, lockKey, guarded) == s
    requires c !in s.callers && token !in s.issued && Lookup(s).None? && !Lock.Held(s.locks, lockKey, s.now)
    ensures Run(Init(0), all, lockKey, guarded) == s.(
            locks := s.locks[lockKey := Cell(token, s.now + LOCK_TTL_MS)],
            issued := s.issued + {token},
            callers := s.callers[c := Checked(token, s.now + LOCK_TTL_MS)])
  {
    var step := Advance(c, token, true, "");
    RunAppend(Init(0), es, Call(c), lockKey, guarded);
    RunAppend(Init(0), es + [Call(c)], step, lockKey, guarded);
    RunAppend(Init(0), es + [Call(c)] + [step], step, lockKey, guarded);
    RunAppend(Init(0), es + [Call(c)] + [step] + [step], step, lockKey, guarded);
    all := es + [Call(c)] + [step] + [step] + [step];
    assert Run(Init(0), all, lockKey, guarded).callers == s.callers[c := Checked(token, s.now + LOCK_TTL_MS)];
  }

  /** From there it executes, stores, reports and releases in four more. */
  lemma Finishes(s: System, es: seq<Event>, c: nat, hash: string, lockKey: string) returns (all: seq<Event>)
    requires Run(Init(0), es, lockKey, true) == s
    requires c in s.callers && s.callers[c].Checked?
    ensures Run(Init(0), all, lockKey, true) == s.(
            locks := Lock.CompareAndDelete(s.locks, lockKey, s.callers[c].token, s.now),
            cache := Some(Cell(hash, s.now + RESULT_TTL_MS)),
            callers := s.callers[c := Returned(Seen(hash, s.now))],
            log := s.log + [Tx(hash, s.now)])
  {
    var step := Advance(c, "", true, hash);
    RunAppend(Init(0), es, step, lockKey, true);
    RunAppend(Init(0), es + [step], step, lockKey, true);
    RunAppend(Init(0), es + [step] + [step], step, lockKey, true);
    RunAppend(Init(0), es + [step] + [step] + [step], step, lockKey, true);
    all := es + [step] + [step] + [step] + [step];
    assert Run(Init(0), all, lockKey, true).callers == s.callers[c := Returned(Seen(hash, s.now))];
  }

  /** The protocol makes progress: one caller gets through, and the next gets its hash without executing. */
  lemma SecondCallerGetsTheSameHash(lockKey: string)
    ensures exists es :: var s := Run(Init(0), es, lockKey, true);
              && s.log == [Tx("h", 0)] && lockKey !in s.locks
              && 1 in s.callers && 2 in s.callers && s.callers[1] == s.callers[2] == Returned(Seen("h", 0))
  {
    assert Run(Init(0), [], lockKey, true) == Init(0);
    var e1 := ReachesExecute(Init(0), [], 1, "a", lockKey, true);
    var e2 := Finishes(Run(Init(0), e1, lockKey, true), e1, 1, "h", lockKey);
    RunAppend(Init(0), e2, Call(2), lockKey, true);
    RunAppend(Init(0), e2 + [Call(2)], Advance(2, "", true, ""), lockKey, true);
    var s := Run(Init(0), e2 + [Call(2)] + [Advance(2, "", true, "")], lockKey, true);
    assert s.callers[1] == s.callers[2] == Returned(Seen("h", 0));
  }

  /** A stored result lives for an hour and no longer: then the next caller executes. */
  lemma NextHourExecutesAgain(lockKey: string)
    ensures exists es :: Run(Init(0), es, lockKey, true).log == [Tx("h", 0), Tx("k", 3_600_000)]
  {
    assert Run(Init(0), [], lockKey, true) == Init(0);
    var e1 := ReachesExecute(Init(0), [], 1, "a", lockKey, true);
    var e2 := Finishes(Run(Init(0), e1, lockKey, true), e1, 1, "h", lockKey);
    RunAppend(Init(0), e2, Tick(RESULT_TTL_MS), lockKey, true);
    var e3 := e2 + [Tick(RESULT_TTL_MS)];
    var s3 := Run(Init(0), e3, lockKey, true);
    assert s3.now == RESULT_TTL_MS && 2 !in s3.callers && lockKey !in s3.locks;
    var e4 := ReachesExecute(s3, e3, 2, "b", lockKey, true);
    RunAppend(Init(0), e4, Advance(2, "", true, "k"), lockKey, true);
    assert Run(Init(0), e4 + [Advance(2, "", true, "k")], lockKey, true).log == [Tx("h", 0), Tx("k", 3_600_000)];
  }

  /** A caller that is already waiting for the lock while another executes returns that hash, from its second look. */
  lemma WaitingCallerGetsTheSameHash(lockKey: string)
    ensures exists es :: var s := Run(Init(0), es, lockKey, true);
              && s.log == [Tx("h", 0)] && lockKey !in s.locks
              && 1 in s.callers && 2 in s.callers && s.callers[1] == s.callers[2] == Returned(Seen("h", 0))
  {
    assert Run(Init(0), [], lockKey, true) == Init(0);
    var step, acquire := Advance(2, "", true, ""), Advance(2, "b", true, "");
    RunAppend(Init(0), [], Call(2), lockKey, true);
    RunAppend(Init(0), [] + [Call(2)], step, lockKey, true);
    var e0 := [] + [Call(2)] + [step];
    assert Run(Init(0), e0, lockKey, true) == Init(0).(callers := map[2 := Acquiring(0)]);
    var e1 := ReachesExecute(Run(Init(0), e0, lockKey, true), e0, 1, "a", lockKey, true);
    var e2 := Finishes(Run(Init(0), e1, lockKey, true), e1, 1, "h", lockKey);
    var s2 := Run(Init(0), e2, lockKey, true);
    assert s2.callers[2] == Acquiring(0) && lockKey !in s2.locks && "b" !in s2.issued;
    var e3 := WaiterFinishes(s2, e2, acquire, step, lockKey);
  }

  lemma WaiterFinishes(s: System, es: seq<Event>, acquire: Event, step: Event, lockKey: string)
    returns (all: seq<Event>)
    requires Run(Init(0), es, lockKey, true) == s
    requires acquire == Advance(2, "b", true, "") && step == Advance(2, "", true, "")
    requires 2 in s.callers && s.callers[2] == Acquiring(0) && lockKey !in s.locks && "b" !in s.issued
    requires Lookup(s) == Some("h") && s.now == 0
    ensures var t := Run(Init(0), all, lockKey, true);
            t.log == s.log && lockKey !in t.locks && t.callers == s.callers[2 := Returned(Seen("h", 0))]
  {
    RunAppend(Init(0), es, acquire, lockKey, true);
    RunAppend(Init(0), es + [acquire], step, lockKey, true);
    RunAppend(Init(0), es + [acquire] + [step], step, lockKey, true);
    all := es + [acquire] + [step] + [step];
    assert Run(Init(0), all, lockKey, true).callers == s.callers[2 := Returned(Seen("h", 0))];
  }

  /**
   The lease proviso is needed: when a holder overruns its 30 seconds before executing, a second
   caller takes the lock, finds no result, and both transactions are accepted.
   */
  lemma OverrunDuplicates(lockKey: string)
    ensures exists es :: Run(Init(0), es, lockKey, false).log == [Tx("y", LOCK_TTL_MS), Tx("x", LOCK_TTL_MS)]
  {
    assert Run(Init(0), [], lockKey, false) == Init(0);
    var es1 := ReachesExecute(Init(0), [], 1, "a", lockKey, false);
    RunAppend(Init(0), es1, Tick(LOCK_TTL_MS), lockKey, false);
    var s2 := Run(Init(0), es1 + [Tick(LOCK_TTL_MS)], lockKey, false);
    var es2 := ReachesExecute(s2, es1 + [Tick(LOCK_TTL_MS)], 2, "b", lockKey, false);
    RunAppend(Init(0), es2, Advance(2, "", true, "y"), lockKey, false);
    RunAppend(Init(0), es2 + [Advance(2, "", true, "y")], Advance(1, "", true, "x"), lockKey, false);
  }

  /**
   So is the proviso that a success is followed by its cache write: a holder that crashes in between leaves
   nothing to find, and once its lock has expired a second transaction is accepted.
   */
  lemma CrashDuplicates(lockKey: string)
    ensures exists es :: Run(Init(0), es, lockKey, false).log == [Tx("x", 0), Tx("y", 30_000)]
  {
    assert Run(Init(0), [], lockKey, false) == Init(0);
    var es1 := ReachesExecute(Init(0), [], 1, "a", lockKey, false);
    var executed := es1 + [Advance(1, "", true, "x")];
    RunAppend(Init(0), es1, Advance(1, "", true, "x"), lockKey, false);
    RunAppend(Init(0), executed, Crash(1), lockKey, false);
    RunAppend(Init(0), executed + [Crash(1)], Tick(LOCK_TTL_MS), lockKey, false);
    var es2 := executed + [Crash(1)] + [Tick(LOCK_TTL_MS)];
    var es3 := ReachesExecute(Run(Init(0), es2, lockKey, false), es2, 2, "b", lockKey, false);
    RunAppend(Init(0), es3, Advance(2, "", true, "y"), lockKey, false);
    assert Run(Init(0), es3 + [Advance(2, "", true, "y")], lockKey, false).log == [Tx("x", 0), Tx("y", LOCK_TTL_MS)];
  }
}
