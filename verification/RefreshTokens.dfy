/**
 Refresh-token families: login, rotation with reuse detection, logout everywhere, and the access-token
 revocation list. A signed token is a record that verifies only if the service minted it; `randomUUID`
 is a counter; each service call is one atomic step.
 */
module RefreshTokens {
  import opened Common

  /** A configured lifetime that reads as a positive number of seconds. */
  type Seconds = n: int | n > 0 witness 1

  datatype FamilyMeta = FamilyMeta(currentTokenId: nat, reused: bool, userId: string, createdAt: int)

  /** `exp` is in seconds, as in a JWT. */
  datatype RefreshToken = RefreshToken(sub: string, jti: nat, family: nat, exp: int)

  datatype Auth = Auth(
    now: int,
    families: map<nat, Cell<FamilyMeta>>,
    sessions: map<string, Cell<seq<nat>>>,
    minted: set<RefreshToken>,
    nextId: nat)

  datatype Reply = Issued(token: RefreshToken) | InvalidToken | FamilyRevoked | AlreadyUsed | Done

  datatype Event = Login(user: string) | Rotate(token: RefreshToken) | LogoutAll(owner: string) | Tick(ms: nat)

  /** One accepted rotation. */
  datatype Rotation = Rotation(presented: RefreshToken, issued: RefreshToken)

  function Init(now: int): Auth {
    Auth(now, map[], map[], {}, 0)
  }

  function Expiry(s: Auth, ttl: Seconds): int {
    s.now + 1000 * ttl
  }

  predicate Verifies(s: Auth, t: RefreshToken) {
    t in s.minted && s.now / 1000 < t.exp
  }

  /** The tracked families of a user; a missing or expired list reads as empty. */
  function Tracked(s: Auth, user: string): seq<nat> {
    var list := Fetch(s.sessions, user, s.now);
    if list.Some? then list.value else []
  }

  /** Marks a live family as reused and renews its record; a missing family is left alone. */
  function RevokeFamily(families: map<nat, Cell<FamilyMeta>>, f: nat, now: int, expiry: int)
    : map<nat, Cell<FamilyMeta>>
  {
    var meta := Fetch(families, f, now);
    if meta.Some? then families[f := Cell(meta.value.(reused := true), expiry)] else families
  }

  function DoLogin(s: Auth, user: string, ttl: Seconds): (Auth, Reply) {
    var family, jti := s.nextId, s.nextId + 1;
    var token := RefreshToken(user, jti, family, s.now / 1000 + ttl);
    (s.(families := s.families[family := Cell(FamilyMeta(jti, false, user, s.now), Expiry(s, ttl))],
        sessions := s.sessions[user := Cell(Tracked(s, user) + [family], Expiry(s, ttl))],
        minted := s.minted + {token},
        nextId := s.nextId + 2),
     Issued(token))
  }

  function DoRotate(s: Auth, t: RefreshToken, ttl: Seconds): (Auth, Reply) {
    var meta := Fetch(s.families, t.family, s.now);
    var revoked := s.(families := RevokeFamily(s.families, t.family, s.now, Expiry(s, ttl)));
    if !Verifies(s, t) then (s, InvalidToken)
    else if meta.None? then (s, FamilyRevoked)
    else if meta.value.reused then (revoked, FamilyRevoked)
    else if meta.value.currentTokenId != t.jti then (revoked, AlreadyUsed)
    else
      var token := RefreshToken(t.sub, s.nextId, t.family, s.now / 1000 + ttl);
      (s.(families := s.families[t.family := Cell(meta.value.(currentTokenId := s.nextId), Expiry(s, ttl))],
          minted := s.minted + {token},
          nextId := s.nextId + 1),
       Issued(token))
  }

  /** Every family the user's tracked list names is revoked, and the list is dropped. */
  function DoLogoutAll(s: Auth, user: string, ttl: Seconds): Auth {
    s.(families := map f | f in s.families ::
           if f in Tracked(s, user) && s.now < s.families[f].expiresAt
           then Cell(s.families[f].value.(reused := true), Expiry(s, ttl)) else s.families[f],
       sessions := s.sessions - {user})
  }

  function Next(s: Auth, e: Event, ttl: Seconds): (Auth, Reply) {
    match e
    case Login(user) => DoLogin(s, user, ttl)
    case Rotate(t) => DoRotate(s, t, ttl)
    case LogoutAll(user) => (DoLogoutAll(s, user, ttl), Done)
    case Tick(ms) => (s.(now := s.now + ms), Done)
  }

  /** The state and the accepted rotations of a run, one event at a time. */
  function Run(es: seq<Event>, start: int, ttl: Seconds): (Auth, seq<Rotation>)
    decreases |es|
  {
    if es == [] then (Init(start), [])
    else
      var (s, log) := Run(es[..|es| - 1], start, ttl);
      Extend(s, log, es[|es| - 1], ttl)
  }

  lemma RunSnoc(es: seq<Event>, e: Event, start: int, ttl: Seconds)
    ensures var (s, log) := Run(es, start, ttl); Run(es + [e], start, ttl) == Extend(s, log, e, ttl)
  {
    assert (es + [e])[..|es|] == es;
  }

  function Extend(s: Auth, log: seq<Rotation>, e: Event, ttl: Seconds): (Auth, seq<Rotation>) {
    var (s', reply) := Next(s, e, ttl);
    (s', if e.Rotate? && reply.Issued? then log + [Rotation(e.token, reply.token)] else log)
  }

  // ---- The service object ---------------------------------------------------------------------

  class AuthTokenService {
    const refreshTtl: Seconds
    var now: int
    var families: map<nat, Cell<FamilyMeta>>
    var sessions: map<string, Cell<seq<nat>>>
    var minted: set<RefreshToken>
    var nextId: nat

    ghost function State(): Auth
      reads this
    {
      Auth(now, families, sessions, minted, nextId)
    }

    constructor (refreshTtl: Seconds, now: int)
      ensures this.refreshTtl == refreshTtl && State() == Init(now)
    {
      this.refreshTtl := refreshTtl;
      this.now := now;
      families, sessions, minted, nextId := map[], map[], {}, 0;
    }

    method GenerateRefreshToken(user: string) returns (token: RefreshToken)
      modifies this
      ensures (State(), Issued(token)) == DoLogin(old(State()), user, refreshTtl)
    {
      var family := nextId;
      var jti := nextId + 1;
      nextId := nextId + 2;
      token := RefreshToken(user, jti, family, now / 1000 + refreshTtl);
      minted := minted + {token};
      families := families[family := Cell(FamilyMeta(jti, false, user, now), now + 1000 * refreshTtl)];
      var list := Fetch(sessions, user, now);
      var tracked := if list.Some? then list.value else [];
      sessions := sessions[user := Cell(tracked + [family], now + 1000 * refreshTtl)];
    }

    method RotateRefreshToken(t: RefreshToken) returns (reply: Reply)
      modifies this
      ensures (State(), reply) == DoRotate(old(State()), t, refreshTtl)
    {
      if t !in minted || now / 1000 >= t.exp {
        return InvalidToken;
      }
      var meta := Fetch(families, t.family, now);
      if meta.None? {
        return FamilyRevoked;
      }
      if meta.value.reused {
        RevokeRefreshFamily(t.family);
        return FamilyRevoked;
      }
      if meta.value.currentTokenId != t.jti {
        families := families[t.family := Cell(meta.value.(reused := true), now + 1000 * refreshTtl)];
        RevokeRefreshFamily(t.family);
        assert families == RevokeFamily(old(families), t.family, now, now + 1000 * refreshTtl);
        return AlreadyUsed;
      }
      var token := RefreshToken(t.sub, nextId, t.family, now / 1000 + refreshTtl);
      minted := minted + {token};
      families := families[t.family := Cell(meta.value.(currentTokenId := nextId), now + 1000 * refreshTtl)];
      nextId := nextId + 1;
      return Issued(token);
    }

    method RevokeRefreshFamily(family: nat)
      modifies this`families
      ensures families == RevokeFamily(old(families), family, now, now + 1000 * refreshTtl)
    {
      var meta := Fetch(families, family, now);
      if meta.Some? {
        families := families[family := Cell(meta.value.(reused := true), now + 1000 * refreshTtl)];
      }
    }

    /** The loop over the tracked list revokes exactly the live families it names, in any order. */
    method RevokeAllUserRefreshTokens(user: string)
      modifies this
      ensures State() == DoLogoutAll(old(State()), user, refreshTtl)
    {
      var list := Fetch(sessions, user, now);
      var tracked := if list.Some? then list.value else [];
      ghost var before := families;
      for i := 0 to |tracked|
        invariant now == old(now) && sessions == old(sessions) && minted == old(minted) && nextId == old(nextId)
        invariant Marked(before, families, tracked[..i], now, now + 1000 * refreshTtl)
      {
        MarkOneMore(before, families, tracked[..i], tracked[i], now, now + 1000 * refreshTtl);
        RevokeRefreshFamily(tracked[i]);
        assert tracked[..i + 1] == tracked[..i] + [tracked[i]];
      }
      assert tracked[..|tracked|] == tracked;
      AllMarked(old(State()), user, refreshTtl, families);
      sessions := sessions - {user};
    }
  }

  /** The live families among the named ones are marked and renewed, and the rest are as before. */
  ghost predicate Marked(before: map<nat, Cell<FamilyMeta>>, after: map<nat, Cell<FamilyMeta>>, named: seq<nat>,
                         now: int, expiry: int)
  {
    && after.Keys == before.Keys
    && forall f | f in before :: after[f] == if f in named && now < before[f].expiresAt
                                             then Cell(before[f].value.(reused := true), expiry) else before[f]
  }

  lemma MarkOneMore(before: map<nat, Cell<FamilyMeta>>, after: map<nat, Cell<FamilyMeta>>, named: seq<nat>, next: nat,
                    now: int, expiry: int)
    requires Marked(before, after, named, now, expiry) && now < expiry
    ensures Marked(before, RevokeFamily(after, next, now, expiry), named + [next], now, expiry)
  {
  }

  lemma AllMarked(s: Auth, user: string, ttl: Seconds, after: map<nat, Cell<FamilyMeta>>)
    requires Marked(s.families, after, Tracked(s, user), s.now, Expiry(s, ttl))
    ensures DoLogoutAll(s, user, ttl) == s.(families := after, sessions := s.sessions - {user})
  {
    assert DoLogoutAll(s, user, ttl).families == after;
  }

  // ---- What every run keeps -------------------------------------------------------------------

  /** No later rotation of the same family among the first `n`. */
  ghost predicate IsLast(log: seq<Rotation>, i: nat, n: nat)
    requires i < n <= |log|
  {
    forall k | i < k < n :: log[k].presented.family != log[i].presented.family
  }

  ghost predicate TokenInv(s: Auth) {
    && (forall f | f in s.families :: f < s.nextId && s.families[f].value.currentTokenId < s.nextId)
    && (forall t | t in s.minted :: && t.jti < s.nextId && t.family in s.families
                                    && t.jti <= s.families[t.family].value.currentTokenId)
    && (forall t, u | t in s.minted && u in s.minted && t.jti == u.jti :: t == u)
  }

  /** Each rotation spends a token and mints a newer one; within a family they form one chain. */
  ghost predicate Chained(log: seq<Rotation>) {
    && (forall i | 0 <= i < |log| ::
          log[i].presented.family == log[i].issued.family && log[i].presented.jti < log[i].issued.jti)
    && (forall i, j | 0 <= i < j < |log| && log[i].presented.family == log[j].presented.family ::
          log[i].presented.jti < log[j].presented.jti)
    && (forall i, j | 0 <= i < j < |log| && log[i].presented.family == log[j].presented.family ::
          IsLast(log, i, j) ==> log[j].presented == log[i].issued)
  }

  ghost predicate LogInv(s: Auth, log: seq<Rotation>) {
    && (forall i | 0 <= i < |log| :: log[i].presented in s.minted && log[i].issued in s.minted)
    && (forall i | 0 <= i < |log| && log[i].issued.family in s.families && IsLast(log, i, |log|) ::
          s.families[log[i].issued.family].value.currentTokenId == log[i].issued.jti)
  }

  ghost predicate Inv(s: Auth, log: seq<Rotation>) {
    TokenInv(s) && LogInv(s, log) && Chained(log)
  }

  lemma NextKeepsTokenInv(s: Auth, e: Event, ttl: Seconds)
    requires TokenInv(s)
    ensures TokenInv(Next(s, e, ttl).0)
  {
  }

  /** A rotation that spends the token its family's last rotation minted extends the chain. */
  lemma AppendKeepsChain(log: seq<Rotation>, r: Rotation)
    requires Chained(log)
    requires r.presented.family == r.issued.family && r.presented.jti < r.issued.jti
    requires forall i | 0 <= i < |log| && log[i].presented.family == r.presented.family ::
      log[i].presented.jti < r.presented.jti && (IsLast(log, i, |log|) ==> r.presented == log[i].issued)
    ensures Chained(log + [r])
  {
    var log' := log + [r];
    forall i, j | 0 <= i < j < |log'| && log'[i].presented.family == log'[j].presented.family && IsLast(log', i, j)
      ensures log'[j].presented == log'[i].issued
    {
      IsLastPrefix(log, r, i, j);
    }
  }

  lemma IsLastPrefix(log: seq<Rotation>, r: Rotation, i: nat, n: nat)
    requires i < n <= |log|
    ensures IsLast(log + [r], i, n) <==> IsLast(log, i, n)
  {
    if IsLast(log + [r], i, n) {
      forall k | i < k < n
        ensures log[k].presented.family != log[i].presented.family
      {
        assert (log + [r])[k] == log[k];
      }
    }
  }

  /** What a step that accepts no rotation leaves of the families and tokens. */
  lemma QuietKeepsLogInv(s: Auth, s': Auth, log: seq<Rotation>)
    requires Inv(s, log)
    requires s.minted <= s'.minted
    requires forall f | f in s.families ::
      f in s'.families && s'.families[f].value.currentTokenId == s.families[f].value.currentTokenId
    ensures LogInv(s', log)
  {
    forall i | 0 <= i < |log|
      ensures log[i].issued.family in s.families
    {
      assert log[i].issued in s.minted;
    }
  }

  lemma AcceptKeepsLogInv(s: Auth, log: seq<Rotation>, t: RefreshToken, ttl: Seconds)
    requires Inv(s, log) && DoRotate(s, t, ttl).1.Issued?
    ensures var (s', reply) := DoRotate(s, t, ttl); LogInv(s', log + [Rotation(t, reply.token)])
  {
    var (s', reply) := DoRotate(s, t, ttl);
    var log' := log + [Rotation(t, reply.token)];
    forall i | 0 <= i < |log'| && log'[i].issued.family in s'.families && IsLast(log', i, |log'|)
      ensures s'.families[log'[i].issued.family].value.currentTokenId == log'[i].issued.jti
    {
      if i < |log| {
        assert log'[|log|].presented.family != log[i].presented.family;
        assert IsLast(log', i, |log|);
        IsLastPrefix(log, Rotation(t, reply.token), i, |log|);
        assert log[i].issued in s.minted;
      }
    }
  }

  lemma AcceptKeepsInv(s: Auth, log: seq<Rotation>, t: RefreshToken, ttl: Seconds)
    requires Inv(s, log) && DoRotate(s, t, ttl).1.Issued?
    ensures var (s', reply) := DoRotate(s, t, ttl); Inv(s', log + [Rotation(t, reply.token)])
  {
    var reply := DoRotate(s, t, ttl).1;
    NextKeepsTokenInv(s, Rotate(t), ttl);
    AcceptKeepsLogInv(s, log, t, ttl);
    forall i | 0 <= i < |log| && log[i].presented.family == t.family
      ensures log[i].presented.jti < t.jti && (IsLast(log, i, |log|) ==> t == log[i].issued)
    {
      assert log[i].issued in s.minted;
    }
    AppendKeepsChain(log, Rotation(t, reply.token));
  }

  lemma ExtendKeepsInv(s: Auth, log: seq<Rotation>, e: Event, ttl: Seconds)
    requires Inv(s, log)
    ensures var (s', log') := Extend(s, log, e, ttl); Inv(s', log')
  {
    if e.Rotate? && DoRotate(s, e.token, ttl).1.Issued? {
      AcceptKeepsInv(s, log, e.token, ttl);
    } else {
      NextKeepsTokenInv(s, e, ttl);
      QuietKeepsLogInv(s, Next(s, e, ttl).0, log);
    }
  }

  lemma {:induction false} RunKeepsInv(es: seq<Event>, start: int, ttl: Seconds)
    ensures var (s, log) := Run(es, start, ttl); Inv(s, log)
    decreases |es|
  {
    if es != [] {
      RunKeepsInv(es[..|es| - 1], start, ttl);
      var (s, log) := Run(es[..|es| - 1], start, ttl);
      ExtendKeepsInv(s, log, es[|es| - 1], ttl);
    }
  }

  predicate Acceptable(s: Auth, t: RefreshToken, ttl: Seconds) {
    DoRotate(s, t, ttl).1.Issued?
  }

  /** After any run each family has at most one token that a rotation would accept. */
  lemma OneAcceptableToken(es: seq<Event>, start: int, ttl: Seconds, t: RefreshToken, u: RefreshToken)
    requires t.family == u.family
    ensures var s := Run(es, start, ttl).0; Acceptable(s, t, ttl) && Acceptable(s, u, ttl) ==> t == u
  {
    RunKeepsInv(es, start, ttl);
  }

  /** In any run no token is accepted twice, and each rotation presents what the family's previous one issued. */
  lemma RotationsFormChains(es: seq<Event>, start: int, ttl: Seconds, i: nat, j: nat)
    ensures var log := Run(es, start, ttl).1;
            i < j < |log| ==>
              && log[i].presented != log[j].presented
              && (log[i].presented.family == log[j].presented.family && IsLast(log, i, j) ==>
                    log[j].presented == log[i].issued)
  {
    RunKeepsInv(es, start, ttl);
  }

  // ---- Revocation -----------------------------------------------------------------------------

  /** The family's record is gone or marked. */
  predicate Dead(s: Auth, f: nat) {
    var meta := Fetch(s.families, f, s.now);
    f < s.nextId && (meta.Some? ==> meta.value.reused)
  }

  lemma {:induction false} DeadStaysDead(es: seq<Event>, more: seq<Event>, start: int, ttl: Seconds, f: nat)
    requires Dead(Run(es, start, ttl).0, f)
    ensures Dead(Run(es + more, start, ttl).0, f)
    ensures var (log, log') := (Run(es, start, ttl).1, Run(es + more, start, ttl).1);
            log <= log' && forall k | |log| <= k < |log'| :: log'[k].presented.family != f
    decreases |more|
  {
    if more == [] {
      assert es + more == es;
    } else {
      var n := |more| - 1;
      assert es + more == es + more[..n] + [more[n]];
      DeadStaysDead(es, more[..n], start, ttl, f);
      RunSnoc(es + more[..n], more[n], start, ttl);
      var (s, log) := Run(es + more[..n], start, ttl);
      DeadStep(s, log, more[n], ttl, f);
    }
  }

  lemma DeadStep(s: Auth, log: seq<Rotation>, e: Event, ttl: Seconds, f: nat)
    requires Dead(s, f)
    ensures var (s', log') := Extend(s, log, e, ttl);
            && Dead(s', f)
            && (log' == log || (log'[..|log|] == log && |log'| == |log| + 1 && log'[|log|].presented.family != f))
  {
  }

  /**
   Presenting a token that verifies but is not the current one of its family kills the family: in
   whatever run follows, no token of that family is accepted again.
   */
  lemma ReuseKillsFamily(es: seq<Event>, more: seq<Event>, start: int, ttl: Seconds, t: RefreshToken)
    ensures var s := Run(es, start, ttl).0;
            var s' := Run(es + [Rotate(t)], start, ttl);
            var r := Run(es + [Rotate(t)] + more, start, ttl);
            Verifies(s, t) && !Acceptable(s, t, ttl) ==>
              && Dead(s'.0, t.family)
              && (forall k | |s'.1| <= k < |r.1| :: r.1[k].presented.family != t.family)
  {
    var s := Run(es, start, ttl).0;
    RunKeepsInv(es, start, ttl);
    assert (es + [Rotate(t)])[..|es|] == es;
    if Verifies(s, t) && !Acceptable(s, t, ttl) {
      assert t.family < s.nextId;
      DeadStaysDead(es + [Rotate(t)], more, start, ttl, t.family);
    }
  }

  /** The tracked list of a live family's owner names it until at least a lifetime after its login. */
  ghost predicate TrackInv(s: Auth, ttl: Seconds) {
    forall f | f in s.families ::
      var meta := s.families[f].value;
      && f < s.nextId
      && s.families[f].expiresAt >= meta.createdAt + 1000 * ttl
      && (!meta.reused && s.now < meta.createdAt + 1000 * ttl ==>
            && meta.userId in s.sessions
            && s.sessions[meta.userId].expiresAt >= meta.createdAt + 1000 * ttl
            && f in s.sessions[meta.userId].value)
  }

  lemma NextKeepsTrackInv(s: Auth, e: Event, ttl: Seconds)
    requires TrackInv(s, ttl) && forall f | f in s.families :: s.families[f].value.createdAt <= s.now
    ensures TrackInv(Next(s, e, ttl).0, ttl)
    ensures var s' := Next(s, e, ttl).0; forall f | f in s'.families :: s'.families[f].value.createdAt <= s'.now
  {
    match e
    case Login(user) => LoginKeepsTrackInv(s, user, ttl);
    case Rotate(t) => RotateKeepsTrackInv(s, t, ttl);
    case LogoutAll(user) =>
    case Tick(ms) =>
  }

  lemma LoginKeepsTrackInv(s: Auth, user: string, ttl: Seconds)
    requires TrackInv(s, ttl) && forall f | f in s.families :: s.families[f].value.createdAt <= s.now
    ensures var s' := DoLogin(s, user, ttl).0;
            TrackInv(s', ttl) && forall f | f in s'.families :: s'.families[f].value.createdAt <= s'.now
  {
  }

  lemma RotateKeepsTrackInv(s: Auth, t: RefreshToken, ttl: Seconds)
    requires TrackInv(s, ttl) && forall f | f in s.families :: s.families[f].value.createdAt <= s.now
    ensures var s' := DoRotate(s, t, ttl).0;
            TrackInv(s', ttl) && forall f | f in s'.families :: s'.families[f].value.createdAt <= s'.now
  {
  }

  lemma {:induction false} RunKeepsTrackInv(es: seq<Event>, start: int, ttl: Seconds)
    ensures var s := Run(es, start, ttl).0;
            TrackInv(s, ttl) && forall f | f in s.families :: s.families[f].value.createdAt <= s.now
    decreases |es|
  {
    if es != [] {
      RunKeepsTrackInv(es[..|es| - 1], start, ttl);
      NextKeepsTrackInv(Run(es[..|es| - 1], start, ttl).0, es[|es| - 1], ttl);
    }
  }

  /**
   What logging a user out everywhere achieves, exactly: a family that was still usable dies if and only
   if the tracked list names it, which is certain within one lifetime of its login. A dead family stays
   dead in whatever run follows.
   */
  lemma LogoutAllExactly(es: seq<Event>, more: seq<Event>, start: int, ttl: Seconds, user: string, f: nat)
    ensures var s := Run(es, start, ttl).0;
            var s' := Run(es + [LogoutAll(user)], start, ttl);
            var r := Run(es + [LogoutAll(user)] + more, start, ttl);
            f < s.nextId && !Dead(s, f) ==>
              && (Dead(s'.0, f) <==> f in Tracked(s, user))
              && (s.families[f].value.userId == user && s.now < s.families[f].value.createdAt + 1000 * ttl ==>
                    f in Tracked(s, user))
              && (f in Tracked(s, user) ==> forall k | |s'.1| <= k < |r.1| :: r.1[k].presented.family != f)
    ensures user !in Run(es + [LogoutAll(user)], start, ttl).0.sessions
  {
    var s := Run(es, start, ttl).0;
    RunKeepsTrackInv(es, start, ttl);
    assert (es + [LogoutAll(user)])[..|es|] == es;
    if f < s.nextId && !Dead(s, f) && f in Tracked(s, user) {
      DeadStaysDead(es + [LogoutAll(user)], more, start, ttl, f);
    }
  }

  // ---- What a step leaves alone ---------------------------------------------------------------

  /** A token's subject owns its family, and a user's list names only families of that user. */
  ghost predicate OwnerInv(s: Auth) {
    && (forall f | f in s.families :: f < s.nextId)
    && (forall t | t in s.minted :: t.jti < s.nextId && t.family in s.families
                                    && s.families[t.family].value.userId == t.sub)
    && (forall x | x in s.sessions :: forall f | f in s.sessions[x].value ::
          f in s.families && s.families[f].value.userId == x)
  }

  lemma NextKeepsOwnerInv(s: Auth, e: Event, ttl: Seconds)
    requires OwnerInv(s)
    ensures OwnerInv(Next(s, e, ttl).0)
  {
  }

  lemma {:induction false} RunKeepsOwnerInv(es: seq<Event>, start: int, ttl: Seconds)
    ensures OwnerInv(Run(es, start, ttl).0)
    decreases |es|
  {
    if es != [] {
      RunKeepsOwnerInv(es[..|es| - 1], start, ttl);
      NextKeepsOwnerInv(Run(es[..|es| - 1], start, ttl).0, es[|es| - 1], ttl);
    }
  }

  /** The service's answer to a token presented after a run. */
  function ReplyAfter(es: seq<Event>, start: int, ttl: Seconds, t: RefreshToken): Reply {
    Next(Run(es, start, ttl).0, Rotate(t), ttl).1
  }

  /** The event concerns another family, or another user. */
  predicate Spares(e: Event, u: RefreshToken) {
    match e
    case Login(_) => true
    case Rotate(t) => t.family != u.family
    case LogoutAll(x) => x != u.sub
    case Tick(_) => false
  }

  /**
   After any run, presenting a token (fresh, stale or forged), logging in and logging somebody out leave
   every token of the other families, and of the other users, accepted if and only if it was before. The
   same holds of a logout of the owner whose list does not name the family.
   */
  lemma OthersAreLeftAlone(es: seq<Event>, start: int, ttl: Seconds, e: Event, u: RefreshToken)
    ensures var s := Run(es, start, ttl).0;
            Spares(e, u) || (e.LogoutAll? && u.family !in Tracked(s, e.owner)) ==>
              Next(s, e, ttl).1 == Issued(u)
              || (ReplyAfter(es + [e], start, ttl, u).Issued? <==> ReplyAfter(es, start, ttl, u).Issued?)
  {
    var s := Run(es, start, ttl).0;
    RunKeepsOwnerInv(es, start, ttl);
    RunSnoc(es, e, start, ttl);
    if Spares(e, u) || (e.LogoutAll? && u.family !in Tracked(s, e.owner)) {
      SparedReply(s, e, u, ttl);
    }
  }

  lemma SparedReply(s: Auth, e: Event, u: RefreshToken, ttl: Seconds)
    requires OwnerInv(s) && (Spares(e, u) || (e.LogoutAll? && u.family !in Tracked(s, e.owner)))
    ensures Next(s, e, ttl).1 == Issued(u) || (Acceptable(Next(s, e, ttl).0, u, ttl) <==> Acceptable(s, u, ttl))
  {
    if u in s.minted {
      SparedKeepsAcceptance(s, e, u, ttl);
    } else {
      OnlyIssuedIsMinted(s, e, u, ttl);
    }
  }

  lemma OnlyIssuedIsMinted(s: Auth, e: Event, u: RefreshToken, ttl: Seconds)
    ensures u in Next(s, e, ttl).0.minted ==> u in s.minted || Next(s, e, ttl).1 == Issued(u)
  {
  }

  lemma SparedKeepsAcceptance(s: Auth, e: Event, u: RefreshToken, ttl: Seconds)
    requires OwnerInv(s) && u in s.minted
    requires Spares(e, u) || (e.LogoutAll? && u.family !in Tracked(s, e.owner))
    ensures var s' := Next(s, e, ttl).0;
            && u in s'.minted && u.family in s'.families && s'.families[u.family] == s.families[u.family]
            && s'.now == s.now
  {
  }

  /** The family's record names the token as current, unmarked, and outlives it. */
  predicate IsCurrent(s: Auth, t: RefreshToken) {
    && t in s.minted && t.family in s.families
    && s.families[t.family].value.currentTokenId == t.jti && !s.families[t.family].value.reused
    && 1000 * t.exp <= s.families[t.family].expiresAt
  }

  lemma SparedStaysCurrent(s: Auth, e: Event, t: RefreshToken, ttl: Seconds)
    requires OwnerInv(s) && IsCurrent(s, t) && (Spares(e, t) || e.Tick?)
    ensures IsCurrent(Next(s, e, ttl).0, t)
  {
    if !e.Tick? {
      SparedKeepsAcceptance(s, e, t, ttl);
    }
  }

  lemma CurrentIsAccepted(s: Auth, t: RefreshToken, ttl: Seconds)
    requires IsCurrent(s, t)
    ensures Next(s, Rotate(t), ttl).1.Issued? <==> s.now / 1000 < t.exp
  {
  }

  lemma IssuedIsCurrent(s: Auth, e: Event, t: RefreshToken, ttl: Seconds)
    requires Next(s, e, ttl).1 == Issued(t)
    ensures IsCurrent(Next(s, e, ttl).0, t) && t.exp == s.now / 1000 + ttl
  {
  }

  lemma {:induction false} CurrentLasts(es: seq<Event>, more: seq<Event>, start: int, ttl: Seconds, t: RefreshToken)
    requires IsCurrent(Run(es, start, ttl).0, t) && forall m | m in more :: Spares(m, t) || m.Tick?
    ensures IsCurrent(Run(es + more, start, ttl).0, t)
    decreases |more|
  {
    if more == [] {
      assert es + more == es;
    } else {
      var n := |more| - 1;
      CurrentLasts(es, more[..n], start, ttl, t);
      assert es + more == es + more[..n] + [more[n]];
      RunSnoc(es + more[..n], more[n], start, ttl);
      RunKeepsOwnerInv(es + more[..n], start, ttl);
      SparedStaysCurrent(Run(es + more[..n], start, ttl).0, more[n], t, ttl);
    }
  }

  /**
   A token that a login or a rotation has just issued lives for the configured time, in whole seconds from
   then, and through any run of events that spare its family and its user it is accepted exactly that long.
   */
  lemma IssuedTokenIsAccepted(es: seq<Event>, e: Event, more: seq<Event>, start: int, ttl: Seconds, t: RefreshToken)
    requires forall m | m in more :: Spares(m, t) || m.Tick?
    ensures var s := Run(es, start, ttl).0;
            Next(s, e, ttl).1 == Issued(t) ==>
              && t.exp == s.now / 1000 + ttl
              && (ReplyAfter(es + [e] + more, start, ttl, t).Issued?
                  <==> Run(es + [e] + more, start, ttl).0.now / 1000 < t.exp)
  {
    var s := Run(es, start, ttl).0;
    if Next(s, e, ttl).1 == Issued(t) {
      RunSnoc(es, e, start, ttl);
      IssuedIsCurrent(s, e, t, ttl);
      CurrentLasts(es + [e], more, start, ttl, t);
      CurrentIsAccepted(Run(es + [e] + more, start, ttl).0, t, ttl);
    }
  }

  /** After any run, a rotation issues a token of the same user and family; a login one of that user. */
  lemma IssuedToTheOwner(es: seq<Event>, start: int, ttl: Seconds, e: Event, t: RefreshToken)
    ensures Next(Run(es, start, ttl).0, e, ttl).1 == Issued(t) ==>
      && (e.Login? ==> t.sub == e.user && t.family !in Run(es, start, ttl).0.families)
      && (e.Rotate? ==> t.sub == e.token.sub && t.family == e.token.family && t.jti != e.token.jti)
  {
    RunKeepsOwnerInv(es, start, ttl);
  }

  /** The family's current id belongs to a token that was issued. */
  ghost predicate HasCurrent(s: Auth, f: nat)
    requires f in s.families
  {
    exists t :: t in s.minted && t.family == f && t.jti == s.families[f].value.currentTokenId
  }

  ghost predicate CurrentInv(s: Auth) {
    forall f | f in s.families :: HasCurrent(s, f)
  }

  lemma NextKeepsCurrentInv(s: Auth, e: Event, ttl: Seconds)
    requires CurrentInv(s)
    ensures CurrentInv(Next(s, e, ttl).0)
  {
    var (s', reply) := Next(s, e, ttl);
    forall f | f in s'.families
      ensures HasCurrent(s', f)
    {
      if reply.Issued? && reply.token.family == f {
        assert reply.token in s'.minted;
      } else {
        assert HasCurrent(s, f);
        var t :| t in s.minted && t.family == f && t.jti == s.families[f].value.currentTokenId;
        assert t in s'.minted;
      }
    }
  }

  lemma {:induction false} RunKeepsCurrentInv(es: seq<Event>, start: int, ttl: Seconds)
    ensures CurrentInv(Run(es, start, ttl).0)
    decreases |es|
  {
    if es != [] {
      RunKeepsCurrentInv(es[..|es| - 1], start, ttl);
      NextKeepsCurrentInv(Run(es[..|es| - 1], start, ttl).0, es[|es| - 1], ttl);
    }
  }

  /** A token of the same family was issued after this one. */
  predicate Superseded(s: Auth, t: RefreshToken) {
    exists u | u in s.minted :: u.family == t.family && u.jti > t.jti
  }

  /** The answer to any token after any run, in terms of what was issued and which families are dead. */
  lemma AnswerMeans(es: seq<Event>, start: int, ttl: Seconds, t: RefreshToken)
    ensures var s := Run(es, start, ttl).0;
            var reply := ReplyAfter(es, start, ttl, t);
            && (reply == InvalidToken <==> t !in s.minted || s.now / 1000 >= t.exp)
            && (reply == FamilyRevoked <==> Verifies(s, t) && Dead(s, t.family))
            && (reply == AlreadyUsed <==> Verifies(s, t) && !Dead(s, t.family) && Superseded(s, t))
            && (reply.Issued? <==> Verifies(s, t) && !Dead(s, t.family) && !Superseded(s, t))
  {
    var s := Run(es, start, ttl).0;
    RunKeepsInv(es, start, ttl);
    RunKeepsCurrentInv(es, start, ttl);
    if t in s.minted {
      assert HasCurrent(s, t.family);
    }
  }

  /** One user with one family, whose current token is `id`. */
  function Single(now: int, user: string, id: nat, until: int, listUntil: int, minted: set<RefreshToken>): Auth {
    Auth(now, map[0 := Cell(FamilyMeta(id, false, user, 0), until)], map[user := Cell([0], listUntil)], minted, id + 1)
  }

  lemma SingleLogin(user: string, ttl: Seconds)
    ensures DoLogin(Init(0), user, ttl).0 == Single(0, user, 1, 1000 * ttl, 1000 * ttl, {RefreshToken(user, 1, 0, ttl)})
  {
    assert [] + [0] == [0];
  }

  lemma SingleRotates(s: Auth, user: string, until: int, listUntil: int, t: RefreshToken, ttl: Seconds)
    requires s == Single(s.now, user, 1, until, listUntil, {t}) && s.now < until
    requires t == RefreshToken(user, 1, 0, t.exp) && s.now / 1000 < t.exp
    ensures var next := RefreshToken(user, 2, 0, s.now / 1000 + ttl);
            DoRotate(s, t, ttl) == (Single(s.now, user, 2, Expiry(s, ttl), listUntil, {t, next}), Issued(next))
  {
    assert DoRotate(s, t, ttl).0.families == map[0 := Cell(FamilyMeta(2, false, user, 0), Expiry(s, ttl))];
    assert DoRotate(s, t, ttl).0.minted == {t, RefreshToken(user, 2, 0, s.now / 1000 + ttl)};
  }

  lemma SingleSurvivesLogout(s: Auth, user: string, until: int, listUntil: int, t: RefreshToken,
                             minted: set<RefreshToken>, ttl: Seconds)
    requires s == Single(s.now, user, 2, until, listUntil, minted) && listUntil <= s.now < until
    requires t == RefreshToken(user, 2, 0, t.exp) && t in minted && s.now / 1000 < t.exp
    ensures Acceptable(DoLogoutAll(s, user, ttl), t, ttl)
  {
    assert DoLogoutAll(s, user, ttl).families[0] == s.families[0];
  }

  /**
   The list is not renewed by rotations, so a session kept alive by rotating outlives it: after such a
   run, logging out everywhere leaves that session's token acceptable.
   */
  lemma RotatedSessionSurvivesLogoutAll(user: string, ttl: Seconds)
    requires ttl >= 2
    ensures exists es, t :: Acceptable(Run(es + [LogoutAll(user)], 0, ttl).0, t, ttl) && t.sub == user
  {
    var first, second := RefreshToken(user, 1, 0, ttl), RefreshToken(user, 2, 0, (ttl - 1) + ttl);
    var wait := 1000 * (ttl - 1);
    RunSnoc([], Login(user), 0, ttl);
    SingleLogin(user, ttl);
    var e1 := [] + [Login(user)];
    RunSnoc(e1, Tick(wait), 0, ttl);
    RunSnoc(e1 + [Tick(wait)], Rotate(first), 0, ttl);
    SingleRotates(Run(e1 + [Tick(wait)], 0, ttl).0, user, 1000 * ttl, 1000 * ttl, first, ttl);
    var e3 := e1 + [Tick(wait)] + [Rotate(first)];
    RunSnoc(e3, Tick(1000), 0, ttl);
    RunSnoc(e3 + [Tick(1000)], LogoutAll(user), 0, ttl);
    SingleSurvivesLogout(Run(e3 + [Tick(1000)], 0, ttl).0, user,
                         wait + 1000 * ttl, 1000 * ttl, second, {first, second}, ttl);
  }

  // ---- Access tokens --------------------------------------------------------------------------

  /** How long a revocation record is kept; an absent (or zero) expiry claim falls back to the access lifetime. */
  function RemainingTtl(exp: Option<nat>, now: nat, accessTtl: nat): nat {
    if exp.None? || exp.value == 0 then accessTtl
    else if exp.value > now / 1000 then exp.value - now / 1000 else 0
  }

  /** Whether a token revoked at `revokedAt` is let through at a later instant. */
  predicate AcceptedAfterRevocation(exp: Option<nat>, revokedAt: nat, at: nat, accessTtl: nat) {
    var ttl := RemainingTtl(exp, revokedAt, accessTtl);
    && (exp.Some? ==> at / 1000 < exp.value)
    && !(ttl > 0 && at < revokedAt + 1000 * ttl)
  }

  /** The revocation record outlives the token exactly when the token carries an expiry. */
  lemma RevocationIsFinal(exp: Option<nat>, revokedAt: nat, accessTtl: nat)
    ensures (forall at: nat | at >= revokedAt :: !AcceptedAfterRevocation(exp, revokedAt, at, accessTtl)) <==> exp.Some?
  {
    if exp.None? {
      assert AcceptedAfterRevocation(exp, revokedAt, revokedAt + 1000 * accessTtl, accessTtl);
    }
  }
}
