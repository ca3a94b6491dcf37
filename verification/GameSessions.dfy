/**
 Starting and reporting game sessions. A report runs a five-step saga inside one database transaction and
 then stores its idempotency record; the users' statistics must stay the ledger of the reported sessions.
 */
module GameSessions {
  import opened Common
  import opened Saga

  const BATCH_SIZE := 1000
  const IDEMPOTENCY_TTL_MS := 600_000

  datatype Input = Input(timestamp: int, data: string)

  /** The keyed hash of the nonce and the reported summary; distinct summaries have distinct hashes. */
  datatype Mac = Mac(nonce: string, challengeId: string, score: int, duration: int, inputCount: nat,
                     first: int, last: int)

  datatype Report = Report(sessionId: nat, challengeId: string, score: int, duration: int, inputs: seq<Input>,
                           metadata: string, signature: Mac)

  /** What the integrity guard made of the report. */
  datatype Flag = Clear | Suspicious(reason: Option<string>)

  /** Stored with a report: the client's metadata, and the suspicion that was added to it. */
  datatype Metadata = Metadata(data: string, suspicion: Option<(Option<string>, int)>)

  datatype Session = Session(userId: string, nonce: string, score: int, duration: int, metadata: Option<Metadata>,
                             nonceUsedAt: Option<int>, isVerified: bool, isSuspicious: bool,
                             suspicionReason: Option<string>)

  datatype Stats = Stats(gamesPlayed: int, totalScore: int, highestScore: int)

  datatype InputEvent = InputEvent(sessionId: nat, input: Input)

  /** A session's id is its position. */
  datatype Db = Db(sessions: seq<Session>, users: map<string, Stats>, inputs: seq<InputEvent>)

  datatype Error = SessionNotFound | AlreadyReported | IntegrityFailed | UserNotFound
                 | LeaderboardFailed | BadgesFailed | StoreFailed

  /** Which calls outside the transaction fail during a report. */
  datatype Faults = Faults(leaderboard: bool, badges: bool, store: bool)

  datatype Ctx = Ctx(db: Db, saved: Option<nat>, previous: Stats)

  /** A session as it is started. */
  function NewSession(userId: string, nonce: string): Session {
    Session(userId, nonce, 0, 0, None, None, false, false, None)
  }

  // ---- The saga's steps -----------------------------------------------------------------------

  function ExpectedMac(nonce: string, r: Report): Mac {
    var n := |r.inputs|;
    Mac(nonce, r.challengeId, r.score, r.duration, n,
        if n == 0 then 0 else r.inputs[0].timestamp, if n == 0 then 0 else r.inputs[n - 1].timestamp)
  }

  function Fails(c: Ctx, e: Error): Outcome<Ctx, Error> {
    Outcome(c, Some(e))
  }

  function Done(c: Ctx): Outcome<Ctx, Error> {
    Outcome(c, None)
  }

  /** A reported session; the guard's suspicion, if there is one, is recorded in three places. */
  function Reported(s: Session, r: Report, flag: Flag, now: int): Session {
    var saved := s.(score := r.score, duration := r.duration, nonceUsedAt := Some(now), isVerified := true,
                    metadata := Some(Metadata(r.metadata, None)));
    match flag
    case Clear => saved
    case Suspicious(reason) =>
      saved.(isSuspicious := true, suspicionReason := Some(ReasonOf(reason)),
             metadata := Some(Metadata(r.metadata, Some((reason, now)))))
  }

  function ReasonOf(reason: Option<string>): string {
    if reason.Some? && reason.value != "" then reason.value else "Unknown"
  }

  function VerifyAndSave(user: string, r: Report, flag: Flag, now: int, c: Ctx): Outcome<Ctx, Error> {
    var sessions := c.db.sessions;
    if !(r.sessionId < |sessions| && sessions[r.sessionId].userId == user) then Fails(c, SessionNotFound)
    else
      var s := sessions[r.sessionId];
      if s.nonceUsedAt.Some? then Fails(c, AlreadyReported)
      else if ExpectedMac(s.nonce, r) != r.signature then Fails(c, IntegrityFailed)
      else
        var reported := sessions[r.sessionId := Reported(s, r, flag, now)];
        Done(c.(db := c.db.(sessions := reported), saved := Some(r.sessionId)))
  }

  function UnverifySession(c: Ctx): Outcome<Ctx, Error> {
    if c.saved.Some? && c.saved.value < |c.db.sessions| then
      var s := c.db.sessions[c.saved.value];
      Done(c.(db := c.db.(sessions := c.db.sessions[c.saved.value :=
        s.(score := 0, duration := 0, metadata := None, nonceUsedAt := None, isVerified := false)])))
    else Done(c)
  }

  /** The events are saved a batch at a time; together the batches are the report's inputs. */
  function SaveInputs(r: Report, c: Ctx): (o: Outcome<Ctx, Error>)
    ensures o == Done(c.(db := c.db.(inputs := c.db.inputs + EventsOf(r))))
  {
    BatchesAreSaved(c.db.inputs, r.sessionId, Chunks(r.inputs, BATCH_SIZE));
    ChunksFlatten(r.inputs, BATCH_SIZE);
    Done(c.(db := c.db.(inputs := SaveBatches(c.db.inputs, r.sessionId, Chunks(r.inputs, BATCH_SIZE)))))
  }

  function SaveBatches(saved: seq<InputEvent>, sessionId: nat, batches: seq<seq<Input>>): seq<InputEvent>
    decreases |batches|
  {
    if batches == [] then saved
    else SaveBatches(saved + Events(sessionId, batches[0]), sessionId, batches[1..])
  }

  function Events(sessionId: nat, inputs: seq<Input>): seq<InputEvent> {
    seq(|inputs|, i requires 0 <= i < |inputs| => InputEvent(sessionId, inputs[i]))
  }

  function EventsOf(r: Report): seq<InputEvent> {
    Events(r.sessionId, r.inputs)
  }

  lemma {:induction false} BatchesAreSaved(saved: seq<InputEvent>, sessionId: nat, batches: seq<seq<Input>>)
    ensures SaveBatches(saved, sessionId, batches) == saved + Events(sessionId, Flatten(batches))
    decreases |batches|
  {
    if batches == [] {
      assert Events(sessionId, Flatten(batches)) == [];
    } else {
      BatchesAreSaved(saved + Events(sessionId, batches[0]), sessionId, batches[1..]);
      assert Events(sessionId, Flatten(batches))
        == Events(sessionId, batches[0]) + Events(sessionId, Flatten(batches[1..]));
    }
  }

  function DeleteInputs(c: Ctx): Outcome<Ctx, Error> {
    if c.saved.None? then Done(c) else Done(c.(db := c.db.(inputs := Without(c.db.inputs, c.saved.value))))
  }

  function Without(inputs: seq<InputEvent>, sessionId: nat): seq<InputEvent> {
    if inputs == [] then []
    else
      var n := |inputs| - 1;
      Without(inputs[..n], sessionId) + (if inputs[n].sessionId == sessionId then [] else [inputs[n]])
  }

  function Plus(s: Stats, score: int): Stats {
    Stats(s.gamesPlayed + 1, s.totalScore + score, Max(s.highestScore, score))
  }

  function UpdateStats(user: string, score: int, c: Ctx): Outcome<Ctx, Error> {
    if user !in c.db.users then Fails(c, UserNotFound)
    else
      var stats := c.db.users[user];
      Done(c.(db := c.db.(users := c.db.users[user := Plus(stats, score)]), previous := stats))
  }

  function RestoreStats(user: string, c: Ctx): Outcome<Ctx, Error> {
    if user in c.db.users then Done(c.(db := c.db.(users := c.db.users[user := c.previous]))) else Done(c)
  }

  /** What the signature covers: of two reports of one session it tells these six apart, and nothing else. */
  predicate SameSummary(a: Report, b: Report) {
    && a.challengeId == b.challengeId && a.score == b.score && a.duration == b.duration && |a.inputs| == |b.inputs|
    && (a.inputs != [] && b.inputs != [] ==>
          && a.inputs[0].timestamp == b.inputs[0].timestamp
          && a.inputs[|a.inputs| - 1].timestamp == b.inputs[|b.inputs| - 1].timestamp)
  }

  /**
   Reusing the signature of an acceptable report for another one, of the same or of another session that the
   user has yet to report, is refused exactly if the nonces or the summaries differ.
   */
  lemma TamperedReportIsRefused(db: Db, user: string, r: Report, forged: Report, faults: Faults)
    requires Refusal(db, user, r, faults).None? && forged.signature == r.signature
    requires forged.sessionId < |db.sessions| && db.sessions[forged.sessionId].userId == user
    requires db.sessions[forged.sessionId].nonceUsedAt.None?
    ensures var sameNonce := db.sessions[forged.sessionId].nonce == db.sessions[r.sessionId].nonce;
            Refusal(db, user, forged, faults) == if sameNonce && SameSummary(r, forged) then None
                                                 else Some(IntegrityFailed)
  {
  }

  // ---- The ledger -----------------------------------------------------------------------------

  /** Count, sum and maximum (at least 0) of a user's sessions whose nonce has been used. */
  function Ledger(sessions: seq<Session>, user: string): Stats {
    if sessions == [] then Stats(0, 0, 0)
    else
      var n := |sessions| - 1;
      var before := Ledger(sessions[..n], user);
      if sessions[n].userId == user && sessions[n].nonceUsedAt.Some? then Plus(before, sessions[n].score) else before
  }

  /** The positions of a user's reported sessions. */
  function ReportedBy(sessions: seq<Session>, user: string): set<nat> {
    set i: nat | i < |sessions| && sessions[i].userId == user && sessions[i].nonceUsedAt.Some?
  }

  function SumOfScores(sessions: seq<Session>, user: string): int {
    if sessions == [] then 0
    else
      var n := |sessions| - 1;
      SumOfScores(sessions[..n], user)
      + (if sessions[n].userId == user && sessions[n].nonceUsedAt.Some? then sessions[n].score else 0)
  }

  /** Count, sum and maximum, as they are understood: the maximum of no scores is 0, and none is below 0. */
  ghost predicate IsRecordOf(stats: Stats, sessions: seq<Session>, user: string) {
    && stats.gamesPlayed == |ReportedBy(sessions, user)|
    && stats.totalScore == SumOfScores(sessions, user)
    && stats.highestScore >= 0
    && (forall i | i in ReportedBy(sessions, user) :: stats.highestScore >= sessions[i].score)
    && (stats.highestScore == 0
        || exists i :: i in ReportedBy(sessions, user) && stats.highestScore == sessions[i].score)
  }

  lemma ReportedGrows(sessions: seq<Session>, user: string)
    requires sessions != []
    ensures var n := |sessions| - 1;
            var before := ReportedBy(sessions[..n], user);
            && n !in before
            && ReportedBy(sessions, user)
               == if sessions[n].userId == user && sessions[n].nonceUsedAt.Some? then before + {n} else before
  {
    var n := |sessions| - 1;
    forall i: nat | i < n
      ensures sessions[..n][i] == sessions[i]
    {
    }
  }

  lemma {:induction false} LedgerMeans(sessions: seq<Session>, user: string)
    ensures IsRecordOf(Ledger(sessions, user), sessions, user)
  {
    if sessions == [] {
      assert ReportedBy(sessions, user) == {};
    } else {
      var n := |sessions| - 1;
      LedgerMeans(sessions[..n], user);
      ReportedGrows(sessions, user);
      RecordGrows(Ledger(sessions[..n], user), sessions, user);
    }
  }

  lemma RecordGrows(stats: Stats, sessions: seq<Session>, user: string)
    requires sessions != [] && IsRecordOf(stats, sessions[..|sessions| - 1], user)
    ensures var n := |sessions| - 1;
            var counts := sessions[n].userId == user && sessions[n].nonceUsedAt.Some?;
            IsRecordOf(if counts then Plus(stats, sessions[n].score) else stats, sessions, user)
  {
    var n := |sessions| - 1;
    ReportedGrows(sessions, user);
    var before, after := ReportedBy(sessions[..n], user), ReportedBy(sessions, user);
    assert forall i | i in before :: i in after && sessions[..n][i] == sessions[i];
    if stats.highestScore != 0 {
      var i :| i in before && stats.highestScore == sessions[..n][i].score;
      assert i in after && sessions[i].score == stats.highestScore;
    }
    if sessions[n].userId == user && sessions[n].nonceUsedAt.Some? {
      assert n in after;
      assert forall i | i in after :: i in before || i == n;
    }
  }

  ghost predicate Balanced(db: Db) {
    && (forall u | u in db.users :: db.users[u] == Ledger(db.sessions, u))
    && (forall i | 0 <= i < |db.sessions| && db.sessions[i].nonceUsedAt.Some? :: db.sessions[i].userId in db.users)
  }

  /** Until its report, a session is as it was started and has no input events. */
  ghost predicate Pristine(db: Db) {
    && (forall s | s in db.sessions && s.nonceUsedAt.None? :: s == NewSession(s.userId, s.nonce))
    && (forall e | e in db.inputs :: e.sessionId < |db.sessions| && db.sessions[e.sessionId].nonceUsedAt.Some?)
  }

  lemma {:induction false} LedgerOfReport(sessions: seq<Session>, i: nat, s: Session, user: string)
    requires i < |sessions| && sessions[i].nonceUsedAt.None?
    requires s.nonceUsedAt.Some? && s.userId == sessions[i].userId
    ensures Ledger(sessions[i := s], user)
      == if user == s.userId then Plus(Ledger(sessions, user), s.score) else Ledger(sessions, user)
  {
    var n := |sessions| - 1;
    if i == n {
      assert sessions[i := s][..n] == sessions[..n];
    } else {
      assert sessions[i := s][..n] == sessions[..n][i := s];
      LedgerOfReport(sessions[..n], i, s, user);
    }
  }

  // ---- What a report does to the tables -------------------------------------------------------

  /** The error the transaction ends with, if any, as the first failing step reports it. */
  function Refusal(db: Db, user: string, r: Report, faults: Faults): Option<Error> {
    if !(r.sessionId < |db.sessions| && db.sessions[r.sessionId].userId == user) then Some(SessionNotFound)
    else if db.sessions[r.sessionId].nonceUsedAt.Some? then Some(AlreadyReported)
    else if ExpectedMac(db.sessions[r.sessionId].nonce, r) != r.signature then Some(IntegrityFailed)
    else if user !in db.users then Some(UserNotFound)
    else if faults.leaderboard then Some(LeaderboardFailed)
    else if faults.badges then Some(BadgesFailed)
    else None
  }

  /** What the session's row says of its report. */
  predicate Records(s: Session, r: Report, flag: Flag, now: int) {
    && s.score == r.score && s.duration == r.duration && s.isVerified && s.nonceUsedAt == Some(now)
    && s.metadata.Some? && s.metadata.value.data == r.metadata
    && match flag
       case Clear => s.metadata.value.suspicion.None?
       case Suspicious(reason) =>
         s.isSuspicious && s.metadata.value.suspicion == Some((reason, now))
         && s.suspicionReason == Some(if reason == None || reason == Some("") then "Unknown" else reason.value)
  }

  /** The accepted report marks its session, appends its inputs and credits its user, and nothing else. */
  ghost predicate Credited(before: Db, after: Db, user: string, r: Report, flag: Flag, now: int) {
    && user in before.users && r.sessionId < |before.sessions| == |after.sessions|
    && (forall i | 0 <= i < |before.sessions| && i != r.sessionId :: after.sessions[i] == before.sessions[i])
    && before.sessions[r.sessionId].nonceUsedAt.None?
    && after.sessions[r.sessionId].userId == before.sessions[r.sessionId].userId == user
    && after.sessions[r.sessionId].nonceUsedAt == Some(now)
    && after.sessions[r.sessionId] == Reported(before.sessions[r.sessionId], r, flag, now)
    && Records(after.sessions[r.sessionId], r, flag, now)
    && after.users == before.users[user := Plus(before.users[user], r.score)]
    && after.inputs == before.inputs + EventsOf(r)
    && |after.inputs| == |before.inputs| + |r.inputs|
    && (forall i | 0 <= i < |r.inputs| :: after.inputs[|before.inputs| + i] == InputEvent(r.sessionId, r.inputs[i]))
  }

  ghost predicate IsReportSaga(steps: seq<Step<Ctx, Error>>, user: string, r: Report,
                               flag: Flag, faults: Faults, now: int)
  {
    && |steps| == 5
    && (forall c: Ctx :: steps[0].execute(c) == VerifyAndSave(user, r, flag, now, c))
    && (forall c: Ctx :: steps[1].execute(c) == SaveInputs(r, c))
    && (forall c: Ctx :: steps[2].execute(c) == UpdateStats(user, r.score, c))
    && (forall c: Ctx :: steps[3].execute(c) == if faults.leaderboard then Fails(c, LeaderboardFailed) else Done(c))
    && (forall c: Ctx :: steps[4].execute(c) == if faults.badges then Fails(c, BadgesFailed) else Done(c))
  }

  /** The context before each step; a step that fails leaves it alone. */
  lemma Stages(steps: seq<Step<Ctx, Error>>, start: Ctx, user: string, r: Report, flag: Flag, faults: Faults, now: int)
    requires IsReportSaga(steps, user, r, flag, faults, now)
    ensures var c1 := VerifyAndSave(user, r, flag, now, start).ctx;
            var c2 := SaveInputs(r, c1).ctx;
            var c3 := UpdateStats(user, r.score, c2).ctx;
            && Forward(steps[..0], start) == start && Forward(steps[..1], start) == c1
            && Forward(steps[..2], start) == c2
            && Forward(steps[..3], start) == c3 && Forward(steps[..4], start) == c3
  {
    assert steps[..0] == [];
    ForwardStep(steps, 0, start);
    ForwardStep(steps, 1, start);
    ForwardStep(steps, 2, start);
    ForwardStep(steps, 3, start);
  }

  /** Which of the table steps fails first. */
  lemma TableFailure(steps: seq<Step<Ctx, Error>>, start: Ctx, user: string, r: Report,
                     flag: Flag, faults: Faults, now: int)
    requires IsReportSaga(steps, user, r, flag, faults, now)
    ensures var c1 := VerifyAndSave(user, r, flag, now, start);
            && (c1.error.None? ==> FirstFailure(steps[..2], start).None?)
            && FirstFailure(steps[..3], start)
               == if c1.error.Some? then Some(0) else if user !in start.db.users then Some(2) else None
  {
    var c1 := VerifyAndSave(user, r, flag, now, start);
    Stages(steps, start, user, r, flag, faults, now);
    OneMoreStep(steps, 0, start);
    assert FirstFailure(steps[..1], start) == if c1.error.Some? then Some(0) else None;
    OneMoreStep(steps, 1, start);
    assert FirstFailure(steps[..2], start) == FirstFailure(steps[..1], start);
    StatsStepError(steps, start, user, r, flag, faults, now);
    OneMoreStep(steps, 2, start);
  }

  lemma StatsStepError(steps: seq<Step<Ctx, Error>>, start: Ctx, user: string, r: Report,
                       flag: Flag, faults: Faults, now: int)
    requires IsReportSaga(steps, user, r, flag, faults, now)
    ensures steps[2].execute(Forward(steps[..2], start)).error.Some? <==> user !in start.db.users
  {
    Stages(steps, start, user, r, flag, faults, now);
    assert SaveInputs(r, VerifyAndSave(user, r, flag, now, start).ctx).ctx.db.users == start.db.users;
  }

  /** The saga's first three steps, one after the other, credit the report. */
  lemma ReportCredits(start: Ctx, user: string, r: Report, flag: Flag, now: int)
    requires VerifyAndSave(user, r, flag, now, start).error.None? && user in start.db.users
    ensures var c2 := SaveInputs(r, VerifyAndSave(user, r, flag, now, start).ctx).ctx;
            Credited(start.db, UpdateStats(user, r.score, c2).ctx.db, user, r, flag, now)
  {
    var c2 := SaveInputs(r, VerifyAndSave(user, r, flag, now, start).ctx).ctx;
    assert UpdateStats(user, r.score, c2).ctx.db.users == start.db.users[user := Plus(start.db.users[user], r.score)];
  }

  /** The error of the step that fails first is the refusal. */
  lemma ErrorIsRefusal(start: Ctx, user: string, r: Report, flag: Flag, faults: Faults, now: int)
    ensures var c1 := VerifyAndSave(user, r, flag, now, start);
            var c3 := UpdateStats(user, r.score, SaveInputs(r, c1.ctx).ctx);
            if c1.error.Some? then c1.error == Refusal(start.db, user, r, faults)
            else if user !in start.db.users then c3.error == Refusal(start.db, user, r, faults) == Some(UserNotFound)
            else Refusal(start.db, user, r, Faults(false, false, false)).None?
  {
  }

  /** The table-changing steps: they stop at the first refusal, or the report is credited. */
  lemma TableSteps(steps: seq<Step<Ctx, Error>>, start: Ctx, user: string, r: Report,
                   flag: Flag, faults: Faults, now: int)
    requires IsReportSaga(steps, user, r, flag, faults, now)
    ensures match FirstFailure(steps[..3], start)
            case Some(k) => k < 3 && steps[k].execute(Forward(steps[..k], start)).error
                                     == Refusal(start.db, user, r, faults)
            case None => Credited(start.db, Forward(steps[..3], start).db, user, r, flag, now)
                         && Refusal(start.db, user, r, Faults(false, false, false)).None?
  {
    Stages(steps, start, user, r, flag, faults, now);
    TableFailure(steps, start, user, r, flag, faults, now);
    ErrorIsRefusal(start, user, r, flag, faults, now);
    if VerifyAndSave(user, r, flag, now, start).error.None? && user in start.db.users {
      ReportCredits(start, user, r, flag, now);
    }
  }

  /** The saga fails with the first refusal in step order, and otherwise leaves the report credited. */
  lemma SagaOutcome(steps: seq<Step<Ctx, Error>>, start: Ctx, user: string, r: Report,
                    flag: Flag, faults: Faults, now: int)
    requires IsReportSaga(steps, user, r, flag, faults, now)
    ensures match FirstFailure(steps, start)
            case Some(k) => steps[k].execute(Forward(steps[..k], start)).error == Refusal(start.db, user, r, faults)
            case None => Refusal(start.db, user, r, faults).None?
                         && Credited(start.db, Forward(steps, start).db, user, r, flag, now)
  {
    TableSteps(steps, start, user, r, flag, faults, now);
    LateFailure(steps, start, user, r, flag, faults, now);
  }

  /** The last two steps change no table; they fail if the leaderboard or the badges do. */
  lemma LateFailure(steps: seq<Step<Ctx, Error>>, start: Ctx, user: string, r: Report,
                    flag: Flag, faults: Faults, now: int)
    requires IsReportSaga(steps, user, r, flag, faults, now)
    ensures var early := FirstFailure(steps[..3], start);
            && FirstFailure(steps, start)
               == (if early.Some? then early else if faults.leaderboard then Some(3)
                   else if faults.badges then Some(4) else None)
            && (faults.leaderboard ==> steps[3].execute(Forward(steps[..3], start)).error == Some(LeaderboardFailed))
            && (faults.badges ==> steps[4].execute(Forward(steps[..4], start)).error == Some(BadgesFailed))
            && (!faults.leaderboard && !faults.badges ==> Forward(steps, start) == Forward(steps[..3], start))
  {
    OneMoreStep(steps, 3, start);
    OneMoreStep(steps, 4, start);
    assert steps[..5] == steps;
  }

  ghost predicate IsReportRollback(steps: seq<Step<Ctx, Error>>, user: string) {
    && |steps| == 5
    && (forall c: Ctx :: steps[0].compensate(c) == UnverifySession(c))
    && (forall c: Ctx :: steps[1].compensate(c) == DeleteInputs(c))
    && (forall c: Ctx :: steps[2].compensate(c) == RestoreStats(user, c))
    && (forall c: Ctx :: steps[3].compensate(c) == Done(c))
  }

  lemma {:induction false} WithoutNew(before: seq<InputEvent>, added: seq<InputEvent>, sessionId: nat)
    requires forall i | 0 <= i < |before| :: before[i].sessionId != sessionId
    requires forall i | 0 <= i < |added| :: added[i].sessionId == sessionId
    ensures Without(before + added, sessionId) == before
  {
    var all := before + added;
    if added != [] {
      assert all[..|all| - 1] == before + added[..|added| - 1];
      WithoutNew(before, added[..|added| - 1], sessionId);
    } else if before != [] {
      assert all == before && before == before[..|before| - 1] + [before[|before| - 1]];
      var none: seq<InputEvent> := [];
      assert before[..|before| - 1] + none == before[..|before| - 1];
      WithoutNew(before[..|before| - 1], [], sessionId);
    }
  }

  /** Forgetting a report in the session's row: all but the suspicion. */
  function Unreported(s: Session, flag: Flag): Session {
    match flag
    case Clear => s
    case Suspicious(reason) => s.(isSuspicious := true, suspicionReason := Some(ReasonOf(reason)))
  }

  /** The compensations of the first two steps, after the third's or without it, leave only the suspicion. */
  lemma TablesUndone(start: Ctx, user: string, r: Report, flag: Flag, now: int)
    requires VerifyAndSave(user, r, flag, now, start).error.None? && Pristine(start.db)
    ensures var c2 := SaveInputs(r, VerifyAndSave(user, r, flag, now, start).ctx).ctx;
            var c3 := UpdateStats(user, r.score, c2).ctx;
            var was := start.db.sessions[r.sessionId];
            && UnverifySession(DeleteInputs(c2).ctx).ctx.db
               == start.db.(sessions := start.db.sessions[r.sessionId := Unreported(was, flag)])
            && (user in start.db.users ==>
                  UnverifySession(DeleteInputs(RestoreStats(user, c3).ctx).ctx).ctx.db
                  == UnverifySession(DeleteInputs(c2).ctx).ctx.db)
  {
    WithoutNew(start.db.inputs, EventsOf(r), r.sessionId);
    var was := start.db.sessions[r.sessionId];
    assert was == NewSession(was.userId, was.nonce);
    var c2 := SaveInputs(r, VerifyAndSave(user, r, flag, now, start).ctx).ctx;
    assert UnverifySession(DeleteInputs(c2).ctx).ctx.db.sessions
      == start.db.sessions[r.sessionId := Unreported(was, flag)];
    if user in start.db.users {
      var c3 := UpdateStats(user, r.score, c2).ctx;
      assert RestoreStats(user, c3).ctx.db.users == c2.db.users;
    }
  }

  /** Where the saga of a report stands when it fails: the step, and the context that step leaves. */
  lemma FailurePoint(steps: seq<Step<Ctx, Error>>, start: Ctx, user: string, r: Report,
                     flag: Flag, faults: Faults, now: int, k: nat)
    requires IsReportSaga(steps, user, r, flag, faults, now) && FirstFailure(steps, start) == Some(k)
    ensures var c1 := VerifyAndSave(user, r, flag, now, start);
            var c2 := SaveInputs(r, c1.ctx).ctx;
            var left := steps[k].execute(Forward(steps[..k], start)).ctx;
            && k < 5 && k != 1
            && (k == 0 <==> c1.error.Some?)
            && (k == 0 ==> left == start)
            && (k == 2 ==> left == c2)
            && (k >= 3 ==> user in start.db.users && left == UpdateStats(user, r.score, c2).ctx)
  {
    Stages(steps, start, user, r, flag, faults, now);
    TableFailure(steps, start, user, r, flag, faults, now);
    if VerifyAndSave(user, r, flag, now, start).error.Some? {
      FailureFound(steps, start, 0);
    } else if user !in start.db.users {
      FailureFound(steps, start, 2);
    }
  }

  /** The compensations that run after each step's failure, one by one. */
  lemma RollbackSteps(steps: seq<Step<Ctx, Error>>, user: string, c: Ctx)
    requires IsReportRollback(steps, user)
    ensures Backward(steps[..0], c) == c
    ensures Backward(steps[..2], c) == UnverifySession(DeleteInputs(c).ctx).ctx
    ensures Backward(steps[..3], c) == UnverifySession(DeleteInputs(RestoreStats(user, c).ctx).ctx).ctx
    ensures Backward(steps[..4], c) == Backward(steps[..3], c)
  {
    assert steps[..0] == [];
    var d := DeleteInputs(c).ctx;
    OneLessStep(steps, 1, c);
    OneLessStep(steps, 0, d);
    var e := RestoreStats(user, c).ctx;
    OneLessStep(steps, 2, c);
    OneLessStep(steps, 1, e);
    OneLessStep(steps, 0, DeleteInputs(e).ctx);
    OneLessStep(steps, 3, c);
  }

  /**
   Before the transaction is rolled back, the compensations have already put every table back, whichever
   step failed, if and only if the report was not flagged as suspicious or had not passed the first step:
   the suspicion is not taken back.
   */
  lemma CompensationsRestore(steps: seq<Step<Ctx, Error>>, start: Ctx, user: string, r: Report,
                             flag: Flag, faults: Faults, now: int, k: nat)
    requires IsReportSaga(steps, user, r, flag, faults, now) && IsReportRollback(steps, user)
    requires Pristine(start.db) && FirstFailure(steps, start) == Some(k)
    ensures var thrown := steps[k].execute(Forward(steps[..k], start));
            Backward(steps[..k], thrown.ctx).db == start.db <==> k == 0 || flag.Clear?
  {
    var thrown := steps[k].execute(Forward(steps[..k], start));
    FailurePoint(steps, start, user, r, flag, faults, now, k);
    RollbackSteps(steps, user, thrown.ctx);
    if k != 0 {
      TablesUndone(start, user, r, flag, now);
      var was := start.db.sessions[r.sessionId];
      assert was == NewSession(was.userId, was.nonce);
      var back := start.db.(sessions := start.db.sessions[r.sessionId := Unreported(was, flag)]);
      assert Backward(steps[..k], thrown.ctx).db == back;
      assert back.sessions[r.sessionId] == Unreported(was, flag);
      assert flag.Clear? ==> back.sessions == start.db.sessions;
    }
  }

  /** Both together, as the saga returns them. */
  lemma OutcomeOfReport(steps: seq<Step<Ctx, Error>>, start: Ctx, user: string, r: Report,
                        flag: Flag, faults: Faults, now: int)
    requires IsReportSaga(steps, user, r, flag, faults, now) && IsReportRollback(steps, user) && Pristine(start.db)
    ensures match FirstFailure(steps, start)
            case Some(k) =>
              && var thrown := steps[k].execute(Forward(steps[..k], start));
              && thrown.error == Refusal(start.db, user, r, faults)
              && (Backward(steps[..k], thrown.ctx).db == start.db <==> RefusesFirst(thrown.error.value) || flag.Clear?)
            case None =>
              && Refusal(start.db, user, r, faults).None?
              && Credited(start.db, Forward(steps, start).db, user, r, flag, now)
  {
    SagaOutcome(steps, start, user, r, flag, faults, now);
    var failure := FirstFailure(steps, start);
    if failure.Some? {
      FailurePoint(steps, start, user, r, flag, faults, now, failure.value);
      CompensationsRestore(steps, start, user, r, flag, faults, now, failure.value);
      assert VerifyAndSave(user, r, flag, now, start).error.Some?
        <==> RefusesFirst(Refusal(start.db, user, r, faults).value);
    }
  }

  lemma CreditKeepsBalance(before: Db, after: Db, user: string, r: Report, flag: Flag, now: int)
    requires Balanced(before) && Credited(before, after, user, r, flag, now)
    ensures Balanced(after)
  {
    assert after.sessions == before.sessions[r.sessionId := after.sessions[r.sessionId]];
    forall u | u in after.users
      ensures after.users[u] == Ledger(after.sessions, u)
    {
      LedgerOfReport(before.sessions, r.sessionId, after.sessions[r.sessionId], u);
    }
  }

  lemma CreditedIsReported(before: Db, after: Db, user: string, r: Report, flag: Flag, faults: Faults, now: int)
    requires Credited(before, after, user, r, flag, now)
    ensures Refusal(after, user, r, faults) == Some(AlreadyReported)
  {
  }

  lemma CreditKeepsPristine(before: Db, after: Db, user: string, r: Report, flag: Flag, now: int)
    requires Pristine(before) && Credited(before, after, user, r, flag, now)
    ensures Pristine(after)
  {
    forall s | s in after.sessions && s.nonceUsedAt.None?
      ensures s == NewSession(s.userId, s.nonce)
    {
      var i :| 0 <= i < |after.sessions| && after.sessions[i] == s;
      assert before.sessions[i] in before.sessions;
    }
  }

  // ---- The service object ---------------------------------------------------------------------

  class GameSessionService {
    var db: Db
    var idempotency: map<(string, nat), (Session, int)>

    ghost predicate Valid()
      reads this
    {
      Balanced(db) && Pristine(db)
    }

    constructor ()
      ensures Valid() && db == Db([], map[], [])
    {
      db, idempotency := Db([], map[], []), map[];
    }

    /** Accounts come into being with empty statistics. */
    method AddUser(user: string)
      requires Valid() && user !in db.users
      modifies this
      ensures Valid() && db == old(db).(users := old(db).users[user := Stats(0, 0, 0)])
    {
      NoSessionsNoLedger(db.sessions, user);
      db := db.(users := db.users[user := Stats(0, 0, 0)]);
    }

    method StartSession(user: string, nonce: string) returns (sessionId: nat)
      requires Valid()
      modifies this
      ensures Valid() && sessionId == |old(db).sessions|
      ensures var s := Session(user, nonce, 0, 0, None, None, false, false, None);
              db == old(db).(sessions := old(db).sessions + [s])
    {
      sessionId := |db.sessions|;
      var s := NewSession(user, nonce);
      assert (db.sessions + [s])[..|db.sessions|] == db.sessions;
      db := db.(sessions := db.sessions + [s]);
    }

    /**
     The saga inside the transaction: it credits the report, or fails with the first refusal. The context a
     failure leaves has every table as it was, unless a flagged report got past the first step.
     */
    method RunReportSaga(user: string, r: Report, flag: Flag, faults: Faults, now: int)
      returns (ctx: Ctx, error: Option<Error>)
      requires Valid()
      ensures error == Refusal(db, user, r, faults)
      ensures error.None? ==> Credited(db, ctx.db, user, r, flag, now)
      ensures error.Some? ==> (ctx.db == db <==> RefusesFirst(error.value) || flag.Clear?)
    {
      var saga := BuildReportSaga(user, r, flag, faults, now);
      var start := Ctx(db, None, Stats(0, 0, 0));
      OutcomeOfReport(saga.steps, start, user, r, flag, faults, now);
      var actions: seq<Action>;
      ctx, error, actions := saga.Run(start);
    }

    method BuildReportSaga(user: string, r: Report, flag: Flag, faults: Faults, now: int)
      returns (saga: SagaBuilder<Ctx, Error>)
      ensures fresh(saga) && IsReportSaga(saga.steps, user, r, flag, faults, now) && IsReportRollback(saga.steps, user)
    {
      saga := new SagaBuilder<Ctx, Error>();
      saga.AddStep("verify-and-save-session", c => VerifyAndSave(user, r, flag, now, c), UnverifySession);
      saga.AddStep("save-input-events", c => SaveInputs(r, c), DeleteInputs);
      saga.AddStep("update-user-stats", c => UpdateStats(user, r.score, c), c => RestoreStats(user, c));
      saga.AddStep("update-leaderboard",
                   c => if faults.leaderboard then Fails(c, LeaderboardFailed) else Done(c), Done);
      saga.AddStep("award-badges", c => if faults.badges then Fails(c, BadgesFailed) else Done(c), Done);
    }

    /**
     A report is credited at most once and a refused one changes no table. The one failure that follows
     the commit, storing the idempotency record, leaves the report credited.
     */
    method ReportSession(user: string, r: Report, flag: Flag, faults: Faults, now: int)
      returns (result: Result<Session, Error>)
      requires Valid()
      modifies this
      ensures Valid() && forall u | u in db.users :: IsRecordOf(db.users[u], db.sessions, u)
      ensures forall k | k != (user, r.sessionId) ::
        (k in idempotency <==> k in old(idempotency)) && (k in idempotency ==> idempotency[k] == old(idempotency)[k])
      ensures !((user, r.sessionId) in old(idempotency) && now <= old(idempotency)[(user, r.sessionId)].1) ==>
        if result.Ok? then
          (user, r.sessionId) in idempotency && idempotency[(user, r.sessionId)] == (result.value, now + 600_000)
        else (user, r.sessionId) !in idempotency
      ensures var key := (user, r.sessionId);
        if key in old(idempotency) && now <= old(idempotency)[key].1
        then result == Ok(old(idempotency)[key].0) && db == old(db)
        else match Refusal(old(db), user, r, faults)
             case Some(e) => result == Err(e) && db == old(db)
             case None =>
               Credited(old(db), db, user, r, flag, now)
               && result == if faults.store then Err(StoreFailed) else Ok(db.sessions[r.sessionId])
    {
      forall u | u in db.users {
        LedgerMeans(db.sessions, u);
      }
      var key := (user, r.sessionId);
      if key in idempotency {
        if now <= idempotency[key].1 {
          return Ok(idempotency[key].0);
        }
        idempotency := idempotency - {key};
      }
      var ctx, error := RunReportSaga(user, r, flag, faults, now);
      if error.Some? {
        return Err(error.value);   // the transaction is rolled back
      }
      CreditKeepsBalance(db, ctx.db, user, r, flag, now);
      CreditKeepsPristine(db, ctx.db, user, r, flag, now);
      db := ctx.db;
      forall u | u in db.users {
        LedgerMeans(db.sessions, u);
      }
      if faults.store {
        return Err(StoreFailed);
      }
      idempotency := idempotency[key := (db.sessions[r.sessionId], now + IDEMPOTENCY_TTL_MS)];
      return Ok(db.sessions[r.sessionId]);
    }
  }

  /**
   A client that repeats a report within ten minutes gets the same session and nothing is credited twice; if
   storing the record had failed, it is told that the session has been reported.
   */
  method RepeatedReport(service: GameSessionService, user: string, r: Report, flag: Flag, faults: Faults, now: int,
                        later: int)
    returns (first: Result<Session, Error>, second: Result<Session, Error>)
    requires service.Valid() && (user, r.sessionId) !in service.idempotency && now <= later <= now + 600_000
    modifies service
    ensures service.Valid()
    ensures first.Ok? ==> second == first && Credited(old(service.db), service.db, user, r, flag, now)
    ensures first == Err(StoreFailed) ==>
      second == Err(AlreadyReported) && Credited(old(service.db), service.db, user, r, flag, now)
  {
    first := service.ReportSession(user, r, flag, faults, now);
    if Refusal(old(service.db), user, r, faults).None? {
      CreditedIsReported(old(service.db), service.db, user, r, flag, faults, now);
    }
    second := service.ReportSession(user, r, flag, faults, later);
  }

  /** The refusals of the first step, which saves nothing when it refuses. */
  predicate RefusesFirst(e: Error) {
    e in {SessionNotFound, AlreadyReported, IntegrityFailed}
  }

  lemma {:induction false} NoSessionsNoLedger(sessions: seq<Session>, user: string)
    requires forall i | 0 <= i < |sessions| && sessions[i].nonceUsedAt.Some? :: sessions[i].userId != user
    ensures Ledger(sessions, user) == Stats(0, 0, 0)
  {
    if sessions != [] {
      NoSessionsNoLedger(sessions[..|sessions| - 1], user);
    }
  }

  // ---- Batching -------------------------------------------------------------------------------

  function Flatten<T>(chunks: seq<seq<T>>): seq<T> {
    if chunks == [] then [] else chunks[0] + Flatten(chunks[1..])
  }

  /** Full batches, and then the rest. */
  function Chunks<T>(items: seq<T>, size: nat): (chunks: seq<seq<T>>)
    requires size > 0
    ensures forall i | 0 <= i < |chunks| :: 0 < |chunks[i]| <= size && (i < |chunks| - 1 ==> |chunks[i]| == size)
  {
    if items == [] then []
    else
      var n := Min(size, |items|);
      [items[..n]] + Chunks(items[n..], size)
  }

  lemma {:induction false} ChunksFlatten<T>(items: seq<T>, size: nat)
    requires size > 0
    ensures Flatten(Chunks(items, size)) == items
    decreases |items|
  {
    if items != [] {
      var n := Min(size, |items|);
      ChunksFlatten(items[n..], size);
      assert items == items[..n] + items[n..];
    }
  }

  /** The batches so far are the first ones of the array's, up to an offset that may lie behind its end. */
  ghost predicate CutUpTo<T>(items: seq<T>, chunks: seq<seq<T>>, i: nat, size: nat)
    requires size > 0
  {
    chunks + Chunks(items[Min(i, |items|)..], size) == Chunks(items, size)
  }

  lemma FirstCut<T>(items: seq<T>, size: nat)
    requires size > 0
    ensures CutUpTo(items, [], 0, size)
  {
    assert items[0..] == items;
  }

  /** One more batch: what has been cut off and what is left to cut. */
  lemma NextCut<T>(items: seq<T>, chunks: seq<seq<T>>, i: nat, size: nat)
    requires size > 0 && i < |items| && CutUpTo(items, chunks, i, size)
    ensures CutUpTo(items, chunks + [items[i..Min(i + size, |items|)]], i + size, size)
  {
    var n, end := Min(size, |items| - i), Min(i + size, |items|);
    var left := items[i..];
    assert left[..n] == items[i..end] && left[n..] == items[end..];
    assert Chunks(left, size) == [items[i..end]] + Chunks(items[end..], size);
    AppendFirst(chunks, items[i..end], Chunks(items[end..], size));
  }

  lemma AppendFirst<T>(a: seq<T>, x: T, b: seq<T>)
    ensures a + ([x] + b) == (a + [x]) + b
  {
  }

  lemma LastCut<T>(items: seq<T>, chunks: seq<seq<T>>, i: nat, size: nat)
    requires size > 0 && i >= |items| && CutUpTo(items, chunks, i, size)
    ensures chunks == Chunks(items, size)
  {
    assert items[|items|..] == [];
  }

  /** The batches are full except perhaps the last, none is empty, and together they are the array. */
  method ChunkArray<T>(items: seq<T>, size: nat) returns (chunks: seq<seq<T>>)
    requires size > 0
    ensures chunks == Chunks(items, size) && Flatten(chunks) == items
    ensures forall i | 0 <= i < |chunks| :: 0 < |chunks[i]| <= size && (i < |chunks| - 1 ==> |chunks[i]| == size)
  {
    chunks := [];
    var i := 0;
    FirstCut(items, size);
    while i < |items|
      invariant 0 <= i && CutUpTo(items, chunks, i, size)
      decreases |items| - i
    {
      NextCut(items, chunks, i, size);
      chunks := chunks + [items[i..Min(i + size, |items|)]];
      i := i + size;
    }
    LastCut(items, chunks, i, size);
    ChunksFlatten(items, size);
  }
}
