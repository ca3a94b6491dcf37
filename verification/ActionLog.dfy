/**
 The action log of the in-memory game-session service: which actions are recorded, and what every log looks
 like. A session object is shared with the store, so a field set before a call that throws stays set.
 */
module ActionLog {
  import opened Common

  const MAX_AGE_MS := 5 * 60 * 1000

  datatype Kind = Start | Move | HintRequest | Pause | Resume | SubmitAnswer | Complete | Abandon | Heartbeat

  datatype Action = Action(kind: Kind, timestamp: int, sequence: int, serverTimestamp: int)

  datatype Status = Active | Paused | Completed | Abandoned | Invalid | UnderReview

  datatype Session = Session(status: Status, actions: seq<Action>, pauseCount: nat)

  datatype Recommendation = Accept | Review | Reject

  datatype Error = NotFound | BadStatus | InvalidAction

  // ---- The rules ------------------------------------------------------------------------------

  /** The list that the rows of the table for a session in play share. */
  predicate InPlay(to: Kind) {
    to.Move? || to.HintRequest? || to.Pause? || to.SubmitAnswer? || to.Complete? || to.Abandon? || to.Heartbeat?
  }

  /** The transition table: what may follow an action, or stand first. */
  predicate IsValidActionTransition(from: Option<Kind>, to: Kind) {
    match from
    case None => to == Start
    case Some(Start) => InPlay(to)
    case Some(Move) => InPlay(to)
    case Some(HintRequest) => InPlay(to)
    case Some(Pause) => to.Resume? || to.Abandon?
    case Some(Resume) => InPlay(to)
    case Some(SubmitAnswer) => InPlay(to)
    case Some(Heartbeat) => InPlay(to)
    case Some(Complete) => false
    case Some(Abandon) => false
  }

  function Last(actions: seq<Action>): Option<Kind> {
    if actions == [] then None else Some(actions[|actions| - 1].kind)
  }

  /** Greater than the maximum of the recorded sequence numbers; with nothing recorded, any number will do. */
  predicate ExceedsAll(sequence: int, actions: seq<Action>) {
    forall i | 0 <= i < |actions| :: sequence > actions[i].sequence
  }

  predicate ValidateAction(actions: seq<Action>, action: Action, now: int) {
    && now - MAX_AGE_MS <= action.timestamp <= now
    && ExceedsAll(action.sequence, actions)
    && IsValidActionTransition(Last(actions), action.kind)
  }

  // ---- What every log looks like --------------------------------------------------------------

  /** Each action may follow the one before it, and the first may stand first. */
  ghost predicate Chained(log: seq<Action>) {
    forall i | 0 <= i < |log| :: IsValidActionTransition(Last(log[..i]), log[i].kind)
  }

  ghost predicate Legal(log: seq<Action>) {
    && Chained(log)
    && (forall i, j | 0 <= i < j < |log| :: log[i].sequence < log[j].sequence)
    && (forall i | 0 <= i < |log| :: log[i].serverTimestamp - MAX_AGE_MS <= log[i].timestamp <= log[i].serverTimestamp)
  }

  lemma RecordedStaysLegal(log: seq<Action>, action: Action)
    requires Legal(log) && ValidateAction(log, action, action.serverTimestamp)
    ensures Legal(log + [action])
  {
    var longer := log + [action];
    forall i | 0 <= i < |longer|
      ensures IsValidActionTransition(Last(longer[..i]), longer[i].kind)
    {
      assert longer[..i] == log[..i];
      assert log[..|log|] == log;
    }
  }

  /** A log begins with its only start, and nothing follows a completion or an abandonment. */
  lemma StartsOnceEndsOnce(log: seq<Action>, i: nat)
    requires Legal(log) && i < |log|
    ensures log[i].kind == Start <==> i == 0
    ensures log[i].kind in {Complete, Abandon} ==> i == |log| - 1
    ensures i + 1 < |log| ==> IsValidActionTransition(Some(log[i].kind), log[i + 1].kind)
  {
    assert IsValidActionTransition(Last(log[..i]), log[i].kind);
    if i > 0 {
      assert log[..i][i - 1] == log[i - 1];
    }
    if i + 1 < |log| {
      assert IsValidActionTransition(Last(log[..i + 1]), log[i + 1].kind);
      assert log[..i + 1][i] == log[i];
    }
  }

  function Balance(log: seq<Action>): int {
    if log == [] then 0
    else
      var n := |log| - 1;
      Balance(log[..n]) + (match log[n].kind case Pause => 1 case Resume => -1 case _ => 0)
  }

  /** The phases of play that the nine-row table amounts to. */
  datatype Phase = Fresh | Running | OnHold | Over | Stuck

  function Advance(p: Phase, k: Kind): Phase {
    match p
    case Fresh => if k == Start then Running else Stuck
    case Running =>
      (match k
       case Start => Stuck
       case Resume => Stuck
       case Pause => OnHold
       case Complete => Over
       case Abandon => Over
       case _ => Running)
    case OnHold => if k == Resume then Running else if k == Abandon then Over else Stuck
    case Over => Stuck
    case Stuck => Stuck
  }

  function PhaseOf(log: seq<Action>): Phase {
    if log == [] then Fresh else Advance(PhaseOf(log[..|log| - 1]), log[|log| - 1].kind)
  }

  function PhaseAfter(last: Option<Kind>): Phase {
    match last
    case None => Fresh
    case Some(Pause) => OnHold
    case Some(Complete) => Over
    case Some(Abandon) => Over
    case Some(_) => Running
  }

  lemma OneTransition(last: Option<Kind>, k: Kind)
    ensures IsValidActionTransition(last, k) <==> Advance(PhaseAfter(last), k) != Stuck
    ensures IsValidActionTransition(last, k) ==> Advance(PhaseAfter(last), k) == PhaseAfter(Some(k))
  {
  }

  lemma ChainedSplit(log: seq<Action>)
    requires log != []
    ensures var n := |log| - 1;
            Chained(log) <==> Chained(log[..n]) && IsValidActionTransition(Last(log[..n]), log[n].kind)
  {
    var n := |log| - 1;
    forall i | 0 <= i < n
      ensures log[..n][..i] == log[..i]
    {
    }
    if Chained(log[..n]) && IsValidActionTransition(Last(log[..n]), log[n].kind) {
      forall i | 0 <= i < |log| ensures IsValidActionTransition(Last(log[..i]), log[i].kind) {
        if i < n {
          assert IsValidActionTransition(Last(log[..n][..i]), log[..n][i].kind);
        }
      }
    }
    if Chained(log) {
      forall i | 0 <= i < n ensures IsValidActionTransition(Last(log[..n][..i]), log[..n][i].kind) {
        assert IsValidActionTransition(Last(log[..i]), log[i].kind);
      }
    }
  }

  /** The table and the phases accept the same logs, and agree on where a log has got to. */
  lemma {:induction false} TableIsPhases(log: seq<Action>)
    ensures Chained(log) <==> PhaseOf(log) != Stuck
    ensures Chained(log) ==> PhaseOf(log) == PhaseAfter(Last(log))
  {
    if log != [] {
      var n := |log| - 1;
      TableIsPhases(log[..n]);
      ChainedSplit(log);
      OneTransition(Last(log[..n]), log[n].kind);
    }
  }

  /**
   Pauses exceed resumes by one while a session is on hold, and if it was abandoned on hold; otherwise they
   are as many.
   */
  lemma {:induction false} BalanceOfPhase(log: seq<Action>)
    requires PhaseOf(log) != Stuck
    ensures var held := PhaseOf(log) == OnHold || (PhaseOf(log) == Over && PhaseOf(log[..|log| - 1]) == OnHold);
            Balance(log) == if held then 1 else 0
  {
    if log != [] {
      BalanceOfPhase(log[..|log| - 1]);
    }
  }

  lemma PausesBalance(log: seq<Action>)
    requires Legal(log)
    ensures 0 <= Balance(log) <= 1
    ensures PhaseOf(log) == OnHold ==> Balance(log) == 1
    ensures PhaseOf(log) in {Fresh, Running} ==> Balance(log) == 0
  {
    TableIsPhases(log);
    BalanceOfPhase(log);
  }

  /** Sequence numbers of a legal log are whole and strictly increase, so the last bounds them all. */
  lemma LastIsGreatest(log: seq<Action>, sequence: int)
    requires Legal(log)
    ensures ExceedsAll(sequence, log) <==> log == [] || sequence > log[|log| - 1].sequence
  {
  }

  /** The action that the service itself records when a session is paused, resumed, ended or abandoned. */
  function Own(kind: Kind, log: seq<Action>, now: int): Action {
    Action(kind, now, |log| + 1, now)
  }

  /**
   The service numbers its own actions by the length of the log, so after a client has skipped numbers they
   are refused: they are recorded exactly when the last number is at most the length and play allows them.
   */
  lemma OwnActionRecorded(log: seq<Action>, kind: Kind, now: int)
    requires Legal(log)
    ensures ValidateAction(log, Own(kind, log, now), now)
      <==> (log == [] || log[|log| - 1].sequence <= |log|) && Advance(PhaseOf(log), kind) != Stuck
  {
    TableIsPhases(log);
    OneTransition(Last(log), kind);
    LastIsGreatest(log, |log| + 1);
  }

  // ---- The service ----------------------------------------------------------------------------

  class GameSessionServiceImpl {
    var sessions: map<string, Session>

    ghost predicate Valid()
      reads this
    {
      forall id | id in sessions :: Legal(sessions[id].actions)
    }

    /** The service with some sessions in its store, none of which has recorded anything. */
    constructor (stored: set<string>)
      ensures Valid() && sessions == map id | id in stored :: Session(Active, [], 0)
    {
      sessions := map id | id in stored :: Session(Active, [], 0);
    }

    method RecordAction(id: string, kind: Kind, timestamp: int, sequence: int, now: int)
      returns (result: Result<Action, Error>)
      requires Valid()
      modifies this
      ensures Valid()
      ensures result == Err(NotFound) <==> id !in old(sessions)
      ensures result.Err? ==> sessions == old(sessions) && result.error in {NotFound, InvalidAction}
      ensures id in old(sessions) ==>
        (result.Ok? <==>
           && 0 <= now - timestamp <= 300_000
           && (forall i | 0 <= i < |old(sessions)[id].actions| :: sequence > old(sessions)[id].actions[i].sequence)
           && Advance(PhaseOf(old(sessions)[id].actions), kind) != Stuck)
      ensures id in old(sessions) ==>
        && var action := Action(kind, timestamp, sequence, now);
        && (result.Ok? <==> ValidateAction(old(sessions)[id].actions, action, now))
        && (result.Ok? ==>
              && result.value == action
              && sessions == old(sessions)[id := old(sessions)[id].(actions := old(sessions)[id].actions + [action])])
    {
      if id !in sessions {
        return Err(NotFound);
      }
      var session := sessions[id];
      TableIsPhases(session.actions);
      OneTransition(Last(session.actions), kind);
      var action := Action(kind, timestamp, sequence, now);
      if !ValidateAction(session.actions, action, now) {
        return Err(InvalidAction);
      }
      RecordedStaysLegal(session.actions, action);
      sessions := sessions[id := session.(actions := session.actions + [action])];
      return Ok(action);
    }

    /** The start action is recorded before the session is stored, so starting a new session always throws. */
    method StartSession(id: string, now: int) returns (result: Result<Session, Error>)
      requires Valid()
      modifies this
      ensures Valid()
      ensures id !in old(sessions) ==> result == Err(NotFound) && sessions == old(sessions)
      ensures result.Ok? ==> sessions == old(sessions)[id := Session(Active, [], 0)]
    {
      var recorded := RecordAction(id, Start, now, 1, now);
      if recorded.Err? {
        return Err(recorded.error);
      }
      var session := Session(Active, [], 0);
      sessions := sessions[id := session];
      return Ok(session);
    }

    /** Set the status, then record the service's own action: a refusal comes too late to keep the old status. */
    method ChangeStatus(id: string, status: Status, kind: Kind, now: int) returns (error: Option<Error>)
      requires Valid() && id in sessions
      modifies this
      ensures Valid()
      ensures var s := old(sessions)[id];
        var own := Own(kind, s.actions, now);
        if ValidateAction(s.actions, own, now) then
          error == None && sessions == old(sessions)[id := Session(status, s.actions + [own], s.pauseCount)]
        else
          error == Some(InvalidAction) && sessions == old(sessions)[id := s.(status := status)]
    {
      sessions := sessions[id := sessions[id].(status := status)];
      var recorded := RecordAction(id, kind, now, |sessions[id].actions| + 1, now);
      error := if recorded.Err? then Some(recorded.error) else None;
    }

    /** A refused pause still leaves the session's status changed, but neither its log nor its count. */
    method PauseSession(id: string, now: int) returns (result: Result<Session, Error>)
      requires Valid()
      modifies this
      ensures Valid()
      ensures result == Err(NotFound) <==> id !in old(sessions)
      ensures result == Err(BadStatus) <==> id in old(sessions) && old(sessions)[id].status != Active
      ensures result == Err(NotFound) || result == Err(BadStatus) ==> sessions == old(sessions)
      ensures id in old(sessions) && old(sessions)[id].status == Active ==>
        && var s := old(sessions)[id];
        && var own := Own(Pause, s.actions, now);
        if ValidateAction(s.actions, own, now) then
          result == Ok(Session(Paused, s.actions + [own], s.pauseCount + 1))
          && sessions == old(sessions)[id := result.value]
        else
          result == Err(InvalidAction) && sessions == old(sessions)[id := s.(status := Paused)]
    {
      if id !in sessions {
        return Err(NotFound);
      }
      if sessions[id].status != Active {
        return Err(BadStatus);
      }
      var error := ChangeStatus(id, Paused, Pause, now);
      if error.Some? {
        return Err(error.value);
      }
      sessions := sessions[id := sessions[id].(pauseCount := sessions[id].pauseCount + 1)];
      return Ok(sessions[id]);
    }

    method ResumeSession(id: string, now: int) returns (result: Result<Session, Error>)
      requires Valid()
      modifies this
      ensures Valid()
      ensures result == Err(NotFound) <==> id !in old(sessions)
      ensures result == Err(BadStatus) <==> id in old(sessions) && old(sessions)[id].status != Paused
      ensures result == Err(NotFound) || result == Err(BadStatus) ==> sessions == old(sessions)
      ensures id in old(sessions) && old(sessions)[id].status == Paused ==>
        && var s := old(sessions)[id];
        && var own := Own(Resume, s.actions, now);
        if ValidateAction(s.actions, own, now) then
          result == Ok(Session(Active, s.actions + [own], s.pauseCount))
          && sessions == old(sessions)[id := result.value]
        else
          result == Err(InvalidAction) && sessions == old(sessions)[id := s.(status := Active)]
    {
      if id !in sessions {
        return Err(NotFound);
      }
      if sessions[id].status != Paused {
        return Err(BadStatus);
      }
      var error := ChangeStatus(id, Active, Resume, now);
      if error.Some? {
        return Err(error.value);
      }
      return Ok(sessions[id]);
    }

    method AbandonSession(id: string, now: int) returns (result: Result<Session, Error>)
      requires Valid()
      modifies this
      ensures Valid()
      ensures result == Err(NotFound) <==> id !in old(sessions)
      ensures result == Err(NotFound) ==> sessions == old(sessions)
      ensures id in old(sessions) ==>
        && var s := old(sessions)[id];
        && var own := Own(Abandon, s.actions, now);
        if ValidateAction(s.actions, own, now) then
          result == Ok(Session(Abandoned, s.actions + [own], s.pauseCount))
          && sessions == old(sessions)[id := result.value]
        else
          result == Err(InvalidAction) && sessions == old(sessions)[id := s.(status := Abandoned)]
    {
      if id !in sessions {
        return Err(NotFound);
      }
      var error := ChangeStatus(id, Abandoned, Abandon, now);
      if error.Some? {
        return Err(error.value);
      }
      return Ok(sessions[id]);
    }

    /** The recommendation is the integrity service's, for the session as it is then. */
    method EndSession(id: string, recommendation: Recommendation, now: int)
      returns (result: Result<Recommendation, Error>)
      requires Valid()
      modifies this
      ensures Valid()
      ensures result == Err(NotFound) <==> id !in old(sessions)
      ensures result == Err(BadStatus) <==> id in old(sessions) && old(sessions)[id].status !in {Active, Paused}
      ensures result == Err(NotFound) || result == Err(BadStatus) ==> sessions == old(sessions)
      ensures id in old(sessions) && old(sessions)[id].status in {Active, Paused} ==>
        && var s := old(sessions)[id];
        && var own := Own(Complete, s.actions, now);
        if ValidateAction(s.actions, own, now) then
          && result == Ok(recommendation)
          && var status := match recommendation
                           case Accept => Completed
                           case Review => UnderReview
                           case Reject => Invalid;
          && sessions == old(sessions)[id := Session(status, s.actions + [own], s.pauseCount)]
        else
          result == Err(InvalidAction) && sessions == old(sessions)[id := s.(status := Completed)]
    {
      if id !in sessions {
        return Err(NotFound);
      }
      if sessions[id].status != Active && sessions[id].status != Paused {
        return Err(BadStatus);
      }
      var error := ChangeStatus(id, Completed, Complete, now);
      if error.Some? {
        return Err(error.value);
      }
      var status := Completed;
      if recommendation == Reject {
        status := Invalid;
      } else if recommendation == Review {
        status := UnderReview;
      }
      sessions := sessions[id := sessions[id].(status := status)];
      return Ok(recommendation);
    }
  }
}
