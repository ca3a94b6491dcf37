/**
 The Redis lock: `SET key token NX PX ttl` to acquire, a compare-and-delete script to release.
 The service object is a class; what every interleaving of its calls keeps is proved on a state
 machine over the same two Redis commands.
 */
module DistributedLock {
  import opened Common

  const MIN_TTL := 100
  const MAX_TTL := 3_600_000

  datatype Backend = Redis | Fallback

  datatype AcquiredLock = AcquiredLock(key: string, token: string, backend: Backend)

  type Store = map<string, Cell<string>>

  // ---- Redis commands -------------------------------------------------------------------------

  predicate Held(store: Store, key: string, now: int) {
    Fetch(store, key, now).Some?
  }

  function SetNxPx(store: Store, key: string, token: string, px: int, now: int): Store {
    if Held(store, key, now) then store else store[key := Cell(token, now + px)]
  }

  function CompareAndDelete(store: Store, key: string, token: string, now: int): Store {
    if Fetch(store, key, now) == Some(token) then store - {key} else store
  }

  /** Negative requests fall back to the configured default, which is not clamped. */
  function NormalizeTtl(ttlMs: int, defaultTtlMs: int): (r: int)
    ensures 100 <= r <= 3_600_000 <==> ttlMs >= 0 || 100 <= defaultTtlMs <= 3_600_000
    ensures ttlMs >= 0 ==> r == Max(100, Min(ttlMs, 3_600_000))
    ensures ttlMs < 0 ==> r == defaultTtlMs
  {
    if ttlMs < 0 then defaultTtlMs
    else if ttlMs < MIN_TTL then MIN_TTL
    else if ttlMs > MAX_TTL then MAX_TTL
    else ttlMs
  }

  // ---- The service object ---------------------------------------------------------------------

  /** How Redis answers during one call: no client at all, a healthy client, or a throwing one. */
  datatype Link = NoClient | Healthy | Failing

  class RedisServer {
    var store: Store

    constructor ()
      ensures store == map[]
    {
      store := map[];
    }
  }

  class DistributedLockService {
    const cronLockTtlMs: int
    var activeLocks: set<string>
    var backend: Backend
    var acquisitionFailures: nat
    var releaseFailures: nat

    constructor (cronLockTtlMs: int, link: Link)
      ensures activeLocks == {} && acquisitionFailures == 0 && releaseFailures == 0
      ensures this.cronLockTtlMs == cronLockTtlMs
      ensures backend == if link.NoClient? then Fallback else Redis
    {
      this.cronLockTtlMs := cronLockTtlMs;
      activeLocks := {};
      acquisitionFailures := 0;
      releaseFailures := 0;
      backend := if link.NoClient? then Fallback else Redis;
    }

    /** With Redis up the stored key alone decides; otherwise the process-local set does. */
    method Acquire(redis: RedisServer, link: Link, key: string, ttlMs: int, token: string, now: int)
      returns (lock: Option<AcquiredLock>)
      modifies this, redis
      ensures link.Healthy? && NormalizeTtl(ttlMs, cronLockTtlMs) > 0 ==>
        && (lock.Some? <==> !old(Held(redis.store, key, now)))
        && (lock.Some? ==> lock == Some(AcquiredLock(key, token, Redis)))
        && (lock.Some? ==> backend == Redis && Fetch(redis.store, key, now) == Some(token))
        && redis.store == SetNxPx(old(redis.store), key, token, NormalizeTtl(ttlMs, cronLockTtlMs), now)
        && acquisitionFailures == old(acquisitionFailures)
      ensures !(link.Healthy? && NormalizeTtl(ttlMs, cronLockTtlMs) > 0) ==>
        && redis.store == old(redis.store)
        && (lock.Some? <==> key !in old(activeLocks))
        && (lock.Some? ==> lock == Some(AcquiredLock(key, token, Fallback)) && backend == Fallback)
        && acquisitionFailures == old(acquisitionFailures) + (if link.NoClient? then 0 else 1)
      ensures activeLocks == old(activeLocks) + (if lock.Some? then {key} else {})
      ensures releaseFailures == old(releaseFailures)
    {
      var px := NormalizeTtl(ttlMs, cronLockTtlMs);
      if link.NoClient? {
        backend := Fallback;
        if key in activeLocks {
          return None;
        }
        activeLocks := activeLocks + {key};
        return Some(AcquiredLock(key, token, Fallback));
      }
      if link.Healthy? && px > 0 {
        if Held(redis.store, key, now) {
          return None;
        }
        redis.store := redis.store[key := Cell(token, now + px)];
        activeLocks := activeLocks + {key};
        backend := Redis;
        return Some(AcquiredLock(key, token, Redis));
      }
      // The command threw (Redis also refuses a PX that is not positive).
      acquisitionFailures := acquisitionFailures + 1;
      if key in activeLocks {
        return None;
      }
      backend := Fallback;
      activeLocks := activeLocks + {key};
      return Some(AcquiredLock(key, token, Fallback));
    }

    /** A release never touches an entry that carries another token, whatever the link does. */
    method Release(redis: RedisServer, link: Link, lock: Option<AcquiredLock>, now: int) returns (released: bool)
      modifies this, redis
      ensures forall k | k in old(redis.store)
                         && (lock.None? || k != lock.value.key || old(redis.store)[k].value != lock.value.token) ::
        k in redis.store && redis.store[k] == old(redis.store)[k]
      ensures redis.store.Keys <= old(redis.store).Keys
      ensures lock.None? ==> !released && redis.store == old(redis.store) && activeLocks == old(activeLocks)
      ensures lock.Some? ==> activeLocks == old(activeLocks) - {lock.value.key}
      ensures lock.Some? && lock.value.backend == Redis && link.Healthy? ==>
        && (released <==> old(Fetch(redis.store, lock.value.key, now)) == Some(lock.value.token))
        && redis.store == CompareAndDelete(old(redis.store), lock.value.key, lock.value.token, now)
        && (released ==> lock.value.key !in redis.store)
      ensures lock.Some? && (lock.value.backend == Fallback || !link.Healthy?) ==> redis.store == old(redis.store)
      ensures lock.Some? && lock.value.backend == Fallback ==> released
      ensures lock.Some? && lock.value.backend == Redis && !link.Healthy? ==> released == link.NoClient?
      ensures releaseFailures == old(releaseFailures)
        + (if lock.Some? && lock.value.backend == Redis && link.Failing? then 1 else 0)
      ensures backend == old(backend) && acquisitionFailures == old(acquisitionFailures)
    {
      if lock.None? {
        return false;
      }
      activeLocks := activeLocks - {lock.value.key};
      if lock.value.backend == Fallback || link.NoClient? {
        return true;
      }
      if link.Failing? {
        releaseFailures := releaseFailures + 1;
        return false;
      }
      released := Fetch(redis.store, lock.value.key, now) == Some(lock.value.token);
      if released {
        redis.store := redis.store - {lock.value.key};
      }
    }
  }

  // ---- Every interleaving with Redis up -------------------------------------------------------

  /** What a worker knows about the lock it took; `until` is the instant its key expires. */
  datatype Lease = Lease(key: string, token: string, until: int)

  datatype System = System(now: int, store: Store, leases: map<nat, Lease>, issued: set<string>)

  /** Worker numbers name individual holders, so any number of workers and instances is covered. */
  datatype Event =
    | Acquire(worker: nat, key: string, ttlMs: int, token: string)
    | Release(holder: nat)
    | Crash(victim: nat)
    | Tick(ms: nat)
    | Purge(expired: string)

  function Init(now: int): System {
    System(now, map[], map[], {})
  }

  /** An event that cannot happen leaves the state alone, so every event list is a run. */
  function Next(s: System, e: Event, defaultTtlMs: int): System {
    match e
    case Acquire(w, key, ttlMs, token) =>
      var px := NormalizeTtl(ttlMs, defaultTtlMs);
      if w in s.leases || token in s.issued || px <= 0 then s
      else if Held(s.store, key, s.now) then s.(issued := s.issued + {token})
      else s.(store := SetNxPx(s.store, key, token, px, s.now),
              leases := s.leases[w := Lease(key, token, s.now + px)],
              issued := s.issued + {token})
    case Release(w) =>
      if w !in s.leases then s
      else s.(store := CompareAndDelete(s.store, s.leases[w].key, s.leases[w].token, s.now),
              leases := s.leases - {w})
    case Crash(w) => s.(leases := s.leases - {w})
    case Tick(ms) => s.(now := s.now + ms)
    case Purge(key) =>
      if key in s.store && s.store[key].expiresAt <= s.now then s.(store := s.store - {key}) else s
  }

  function Run(s: System, es: seq<Event>, defaultTtlMs: int): System
    decreases |es|
  {
    if es == [] then s else Run(Next(s, es[0], defaultTtlMs), es[1..], defaultTtlMs)
  }

  predicate Owns(s: System, w: nat) {
    && w in s.leases
    && s.leases[w].key in s.store
    && s.store[s.leases[w].key] == Cell(s.leases[w].token, s.leases[w].until)
  }

  ghost predicate Inv(s: System) {
    && (forall w | w in s.leases :: s.leases[w].token in s.issued)
    && (forall k | k in s.store :: s.store[k].value in s.issued)
    && (forall v, w | v in s.leases && w in s.leases && s.leases[v].token == s.leases[w].token :: v == w)
    && (forall w | w in s.leases && s.now < s.leases[w].until :: Owns(s, w))
  }

  lemma {:induction false} NextKeepsInv(s: System, e: Event, defaultTtlMs: int)
    requires Inv(s)
    ensures Inv(Next(s, e, defaultTtlMs))
  {
    var s' := Next(s, e, defaultTtlMs);
    forall w | w in s'.leases && s'.now < s'.leases[w].until
      ensures Owns(s', w)
    {
      if w in s.leases {
        assert Owns(s, w);
      }
    }
  }

  lemma {:induction false} RunKeepsInv(s: System, es: seq<Event>, defaultTtlMs: int)
    requires Inv(s)
    ensures Inv(Run(s, es, defaultTtlMs))
    decreases |es|
  {
    if es != [] {
      NextKeepsInv(s, es[0], defaultTtlMs);
      RunKeepsInv(Next(s, es[0], defaultTtlMs), es[1..], defaultTtlMs);
    }
  }

  /** After any run, an unexpired and unreleased lease still owns the stored token. */
  lemma LiveLeaseOwnsToken(start: int, es: seq<Event>, defaultTtlMs: int, w: nat)
    ensures var s := Run(Init(start), es, defaultTtlMs);
            w in s.leases && s.now < s.leases[w].until ==> Owns(s, w)
  {
    RunKeepsInv(Init(start), es, defaultTtlMs);
  }

  /** After any run, at most one worker holds an unexpired lease on a key. */
  lemma MutualExclusion(start: int, es: seq<Event>, defaultTtlMs: int, v: nat, w: nat)
    ensures var s := Run(Init(start), es, defaultTtlMs);
            (&& v in s.leases && s.now < s.leases[v].until
             && w in s.leases && s.now < s.leases[w].until
             && s.leases[v].key == s.leases[w].key) ==> v == w
  {
    var s := Run(Init(start), es, defaultTtlMs);
    RunKeepsInv(Init(start), es, defaultTtlMs);
    if v in s.leases && w in s.leases && s.now < s.leases[v].until && s.now < s.leases[w].until {
      assert Owns(s, v) && Owns(s, w);
    }
  }

  /** After any run, a release by one worker, however late, takes nothing from a live holder. */
  lemma LateReleaseIsHarmless(start: int, es: seq<Event>, defaultTtlMs: int, late: nat, w: nat)
    requires late != w
    ensures var s := Run(Init(start), es, defaultTtlMs);
            w in s.leases && s.now < s.leases[w].until ==> Owns(Next(s, Release(late), defaultTtlMs), w)
  {
    var s := Run(Init(start), es, defaultTtlMs);
    RunKeepsInv(Init(start), es, defaultTtlMs);
    NextKeepsInv(s, Release(late), defaultTtlMs);
  }

  /** After any run, a key is granted exactly when it has no live entry, for the requested time clamped. */
  lemma FreeKeyIsGranted(start: int, es: seq<Event>, defaultTtlMs: int, w: nat, key: string, ttlMs: int, token: string)
    requires ttlMs >= 0
    ensures var s := Run(Init(start), es, defaultTtlMs);
            var t := Next(s, Acquire(w, key, ttlMs, token), defaultTtlMs);
            w !in s.leases && token !in s.issued ==>
              && (w in t.leases <==> !(key in s.store && s.now < s.store[key].expiresAt))
              && (w in t.leases ==> t.leases[w] == Lease(key, token, s.now + Max(100, Min(ttlMs, 3_600_000)))
                                    && t.store == s.store[key := Cell(token, t.leases[w].until)])
              && (w !in t.leases ==> t.store == s.store)
  {
  }

  /** After any run, a live holder's release frees its key at once, and no event touches the entries of other keys. */
  lemma ReleaseFreesTheKey(start: int, es: seq<Event>, defaultTtlMs: int, w: nat, e: Event, other: string)
    ensures var s := Run(Init(start), es, defaultTtlMs);
            w in s.leases && s.now < s.leases[w].until ==> s.leases[w].key !in Next(s, Release(w), defaultTtlMs).store
    ensures var s := Run(Init(start), es, defaultTtlMs);
            var t := Next(s, e, defaultTtlMs);
            !Names(s, e, other) ==> (other in t.store <==> other in s.store)
                                    && (other in s.store ==> t.store[other] == s.store[other])
  {
    RunKeepsInv(Init(start), es, defaultTtlMs);
    var s := Run(Init(start), es, defaultTtlMs);
    if w in s.leases && s.now < s.leases[w].until {
      assert Owns(s, w);
    }
  }

  /** The event asks for the key, releases a lease on it, or is its expiry. */
  predicate Names(s: System, e: Event, key: string) {
    match e
    case Acquire(_, k, _, _) => k == key
    case Release(w) => w in s.leases && s.leases[w].key == key
    case Crash(_) => false
    case Tick(_) => false
    case Purge(k) => k == key
  }

  /** Nothing ever extends an entry: an issued token keeps the expiry it was stored with. */
  lemma {:induction false} ExpiryNeverExtended(s: System, es: seq<Event>, defaultTtlMs: int, token: string, until: int)
    requires token in s.issued
    requires forall k | k in s.store && s.store[k].value == token :: s.store[k].expiresAt <= until
    ensures var t := Run(s, es, defaultTtlMs);
            token in t.issued && forall k | k in t.store && t.store[k].value == token :: t.store[k].expiresAt <= until
    decreases |es|
  {
    if es != [] {
      ExpiryNeverExtended(Next(s, es[0], defaultTtlMs), es[1..], defaultTtlMs, token, until);
    }
  }

  /**
   A holder that crashes, or simply never releases, blocks its key no longer than the normalised TTL:
   from then on the key is free or carries somebody else's token.
   */
  lemma AbandonedLockExpires(start: int, before: seq<Event>, w: nat, key: string, ttlMs: int, token: string,
                             after: seq<Event>, defaultTtlMs: int)
    requires ttlMs >= 0
    ensures var s := Run(Init(start), before, defaultTtlMs);
            var t := Run(Next(s, Acquire(w, key, ttlMs, token), defaultTtlMs), after, defaultTtlMs);
            && 100 <= NormalizeTtl(ttlMs, defaultTtlMs) <= 3_600_000
            && (w !in s.leases && token !in s.issued && t.now >= s.now + NormalizeTtl(ttlMs, defaultTtlMs) ==>
                Fetch(t.store, key, t.now) != Some(token))
  {
    var s := Run(Init(start), before, defaultTtlMs);
    RunKeepsInv(Init(start), before, defaultTtlMs);
    if w !in s.leases && token !in s.issued {
      ExpiryNeverExtended(Next(s, Acquire(w, key, ttlMs, token), defaultTtlMs), after, defaultTtlMs, token,
                          s.now + NormalizeTtl(ttlMs, defaultTtlMs));
    }
  }
}
