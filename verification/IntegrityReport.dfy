/**
 Integrity validation of a finished session: seven checks, one anomaly for each that fails, and a report
 with two scores. The outcome of a check other than the replay check is given; any check may throw.
 */
module IntegrityReport {
  import opened Common

  datatype Severity = Low | Medium | High | Critical

  datatype CheckStatus = Passed | Warning | Failed

  datatype CheckType = ScoreValidation | TimeValidation | ActionSequence | ReplayDetection | RateLimiting
                     | SignatureVerification | MetadataValidation

  datatype Check = Check(checkType: CheckType, status: CheckStatus, severity: Severity)

  datatype AnomalyType = ImpossibleScore | SuspiciousTime | InvalidSequence | ReplayAttack | RateLimitExceeded
                       | TamperedData | InconsistentMetadata

  datatype Anomaly = Anomaly(anomalyType: AnomalyType, severity: Severity)

  datatype Config = Config(scoreValidation: bool, timeValidation: bool, actionValidation: bool, replayDetection: bool,
                           rateLimiting: bool, autoReject: bool)

  datatype OverallStatus = Valid | Suspicious | Invalid

  datatype Recommendation = Accept | Review | Reject

  datatype Report = Report(overallStatus: OverallStatus, confidenceScore: int, riskScore: int,
                           recommendation: Recommendation, checks: seq<Check>, anomalies: seq<Anomaly>)

  /** What a check comes to: its status and severity, or None if it throws. */
  type Outcome = Option<(CheckStatus, Severity)>

  /** The session data that the replay check hashes, as one value; equal data have equal hashes. */
  datatype Session = Session(criticalData: string, hasSignature: bool)

  datatype Outcomes = Outcomes(score: Outcome, timing: Outcome, actions: Outcome, rate: Outcome, signature: Outcome,
                               metadata: Outcome)

  // ---- The report -----------------------------------------------------------------------------

  function CountStatus(checks: seq<Check>, status: CheckStatus): nat {
    if checks == [] then 0
    else CountStatus(checks[..|checks| - 1], status) + (if checks[|checks| - 1].status == status then 1 else 0)
  }

  function CountSeverity(anomalies: seq<Anomaly>, severity: Severity): nat {
    if anomalies == [] then 0
    else CountSeverity(anomalies[..|anomalies| - 1], severity)
         + (if anomalies[|anomalies| - 1].severity == severity then 1 else 0)
  }

  predicate SomeCriticalFailure(checks: seq<Check>) {
    exists c | c in checks :: c.status == Failed && c.severity == Critical
  }

  method GenerateIntegrityReport(checks: seq<Check>, anomalies: seq<Anomaly>, config: Config) returns (report: Report)
    ensures report == ReportOf(checks, anomalies, config)
  {
    var failed, warnings := CountStatus(checks, Failed), CountStatus(checks, Warning);
    var criticals, highs := CountSeverity(anomalies, Critical), CountSeverity(anomalies, High);

    var confidence := 100;
    confidence := confidence - failed * 20;
    confidence := confidence - warnings * 10;
    confidence := confidence - criticals * 30;
    confidence := confidence - highs * 15;
    confidence := Max(0, confidence);

    var risk := 0;
    risk := risk + failed * 25;
    risk := risk + warnings * 10;
    risk := risk + criticals * 40;
    risk := risk + highs * 20;
    risk := Min(100, risk);

    var overall: OverallStatus;
    if criticals > 0 || SomeCriticalFailure(checks) {
      overall := Invalid;
    } else if |anomalies| > 0 || failed > 0 || warnings > 1 {
      overall := Suspicious;
    } else {
      overall := Valid;
    }

    var recommendation: Recommendation;
    if overall == Invalid || (config.autoReject && risk > 70) {
      recommendation := Reject;
    } else if overall == Suspicious || risk > 30 {
      recommendation := Review;
    } else {
      recommendation := Accept;
    }
    report := Report(overall, confidence, risk, recommendation, checks, anomalies);
  }

  function Confidence(checks: seq<Check>, anomalies: seq<Anomaly>): int {
    Max(0, 100 - 20 * CountStatus(checks, Failed) - 10 * CountStatus(checks, Warning)
           - 30 * CountSeverity(anomalies, Critical) - 15 * CountSeverity(anomalies, High))
  }

  function Risk(checks: seq<Check>, anomalies: seq<Anomaly>): int {
    Min(100, 25 * CountStatus(checks, Failed) + 10 * CountStatus(checks, Warning)
             + 40 * CountSeverity(anomalies, Critical) + 20 * CountSeverity(anomalies, High))
  }

  function ReportOf(checks: seq<Check>, anomalies: seq<Anomaly>, config: Config): Report {
    var risk := Risk(checks, anomalies);
    var overall :=
      if CountSeverity(anomalies, Critical) > 0 || SomeCriticalFailure(checks) then Invalid
      else if anomalies != [] || CountStatus(checks, Failed) > 0 || CountStatus(checks, Warning) > 1 then Suspicious
      else Valid;
    var recommendation :=
      if overall == Invalid || (config.autoReject && risk > 70) then Reject
      else if overall == Suspicious || risk > 30 then Review
      else Accept;
    Report(overall, Confidence(checks, anomalies), risk, recommendation, checks, anomalies)
  }

  // ---- Anomalies of the failed checks ---------------------------------------------------------

  function AnomalyOf(t: CheckType): AnomalyType {
    match t
    case ScoreValidation => ImpossibleScore
    case TimeValidation => SuspiciousTime
    case ActionSequence => InvalidSequence
    case ReplayDetection => ReplayAttack
    case RateLimiting => RateLimitExceeded
    case SignatureVerification => TamperedData
    case MetadataValidation => InconsistentMetadata
  }

  /** One anomaly for each failed check, in order, with its severity. */
  function AnomaliesOf(checks: seq<Check>): seq<Anomaly> {
    if checks == [] then []
    else
      var c := checks[|checks| - 1];
      AnomaliesOf(checks[..|checks| - 1])
      + (if c.status == Failed then [Anomaly(AnomalyOf(c.checkType), c.severity)] else [])
  }

  lemma {:induction false} CountsOfAnomalies(checks: seq<Check>)
    ensures |AnomaliesOf(checks)| == CountStatus(checks, Failed)
    ensures CountSeverity(AnomaliesOf(checks), Critical) + CountSeverity(AnomaliesOf(checks), High)
      <= CountStatus(checks, Failed)
    ensures CountSeverity(AnomaliesOf(checks), Critical) > 0 <==> SomeCriticalFailure(checks)
  {
    if checks != [] {
      var n := |checks| - 1;
      var c := checks[n];
      CountsOfAnomalies(checks[..n]);
      assert checks == checks[..n] + [c];
      if c.status == Failed {
        var all := AnomaliesOf(checks);
        assert all[..|all| - 1] == AnomaliesOf(checks[..n]);
      } else {
        assert AnomaliesOf(checks) == AnomaliesOf(checks[..n]);
      }
    }
  }

  /**
   The report of a validation that ran to its end: invalid exactly when some failed check is critical,
   accepted exactly when valid, and the two scores bounded and never both low.
   */
  lemma ReportMeans(checks: seq<Check>, config: Config)
    ensures var report := ReportOf(checks, AnomaliesOf(checks), config);
            && (report.overallStatus == Invalid <==> SomeCriticalFailure(checks))
            && (report.overallStatus == Valid
                <==> CountStatus(checks, Failed) == 0 && CountStatus(checks, Warning) <= 1)
            && (report.recommendation == Accept <==> report.overallStatus == Valid)
            && (report.recommendation == Reject
                <==> report.overallStatus == Invalid || (config.autoReject && report.riskScore > 70))
            && (report.overallStatus == Invalid ==> report.confidenceScore <= 50 && report.riskScore >= 65)
            && 0 <= report.confidenceScore <= 100 && 0 <= report.riskScore <= 100
            && report.confidenceScore + report.riskScore >= 100
  {
    CountsOfAnomalies(checks);
    if SomeCriticalFailure(checks) {
      assert CountStatus(checks, Failed) >= 1;
    }
  }

  /** What one check takes from the confidence and adds to the risk. */
  function Penalty(c: Check): nat {
    if c.status == Failed then (if c.severity == Critical then 50 else if c.severity == High then 35 else 20)
    else if c.status == Warning then 10 else 0
  }

  function Increase(c: Check): nat {
    if c.status == Failed then (if c.severity == Critical then 65 else if c.severity == High then 45 else 25)
    else if c.status == Warning then 10 else 0
  }

  /** The scores start at 100 and 0, and each check moves them by its own amount, down to 0 and up to 100. */
  lemma ScoresAddUp(checks: seq<Check>, c: Check, config: Config)
    ensures var nothing := ReportOf([], AnomaliesOf([]), config);
            nothing.confidenceScore == 100 && nothing.riskScore == 0
    ensures var before := ReportOf(checks, AnomaliesOf(checks), config);
            var after := ReportOf(checks + [c], AnomaliesOf(checks + [c]), config);
            && after.confidenceScore == Max(0, before.confidenceScore - Penalty(c))
            && after.riskScore == Min(100, before.riskScore + Increase(c))
  {
    OneMoreCheck(checks, c);
  }

  function Rank(s: OverallStatus): nat {
    match s
    case Valid => 0
    case Suspicious => 1
    case Invalid => 2
  }

  /** No further check can raise the confidence, lower the risk or improve the status. */
  lemma MoreChecksNeverHelp(checks: seq<Check>, c: Check, config: Config)
    ensures var before := ReportOf(checks, AnomaliesOf(checks), config);
            var after := ReportOf(checks + [c], AnomaliesOf(checks + [c]), config);
            && after.confidenceScore <= before.confidenceScore
            && after.riskScore >= before.riskScore
            && Rank(after.overallStatus) >= Rank(before.overallStatus)
  {
    var before := ReportOf(checks, AnomaliesOf(checks), config);
    ScoresAddUp(checks, c, config);
    ReportMeans(checks, config);
    Clamped(before.confidenceScore, Penalty(c), before.riskScore, Increase(c));
    StatusNeverImproves(checks, c, config);
  }

  lemma Clamped(confidence: int, penalty: nat, risk: int, increase: nat)
    requires 0 <= confidence && risk <= 100
    ensures Max(0, confidence - penalty) <= confidence && Min(100, risk + increase) >= risk
  {
  }

  lemma StatusNeverImproves(checks: seq<Check>, c: Check, config: Config)
    ensures Rank(ReportOf(checks + [c], AnomaliesOf(checks + [c]), config).overallStatus)
      >= Rank(ReportOf(checks, AnomaliesOf(checks), config).overallStatus)
  {
    ReportMeans(checks, config);
    ReportMeans(checks + [c], config);
    assert (checks + [c])[..|checks|] == checks;
    if SomeCriticalFailure(checks) {
      CriticalFailureStays(checks, c);
    }
  }

  lemma CriticalFailureStays(checks: seq<Check>, c: Check)
    requires SomeCriticalFailure(checks)
    ensures SomeCriticalFailure(checks + [c])
  {
    var d :| d in checks && d.status == Failed && d.severity == Critical;
    assert d in checks + [c];
  }

  lemma OneMoreCheck(checks: seq<Check>, c: Check)
    ensures forall status: CheckStatus ::
      CountStatus(checks + [c], status) == CountStatus(checks, status) + (if c.status == status then 1 else 0)
    ensures forall severity: Severity ::
      CountSeverity(AnomaliesOf(checks + [c]), severity)
      == CountSeverity(AnomaliesOf(checks), severity) + (if c.status == Failed && c.severity == severity then 1 else 0)
    ensures |AnomaliesOf(checks + [c])| >= |AnomaliesOf(checks)|
  {
    assert (checks + [c])[..|checks|] == checks;
    var before := AnomaliesOf(checks);
    if c.status == Failed {
      var a := Anomaly(AnomalyOf(c.checkType), c.severity);
      assert AnomaliesOf(checks + [c]) == before + [a];
      assert (before + [a])[..|before|] == before;
    } else {
      assert AnomaliesOf(checks + [c]) == before;
    }
  }

  // ---- The service ----------------------------------------------------------------------------

  /** The replay check, for a session whose data has or has not been seen. */
  function ReplayOutcome(seen: bool): Outcome {
    Some(if seen then (Failed, Critical) else (Passed, Low))
  }

  /** A check that may be due: whether it is, its type, and what it comes to. */
  datatype Slot = Slot(enabled: bool, checkType: CheckType, outcome: Outcome)

  /** The seven checks in the order in which they are made. */
  predicate IsSchedule(slots: seq<Slot>, session: Session, config: Config, o: Outcomes, seen: bool) {
    && |slots| == 7
    && slots[0] == Slot(config.scoreValidation, ScoreValidation, o.score)
    && slots[1] == Slot(config.timeValidation, TimeValidation, o.timing)
    && slots[2] == Slot(config.actionValidation, ActionSequence, o.actions)
    && slots[3] == Slot(config.replayDetection, ReplayDetection, ReplayOutcome(config.replayDetection && seen))
    && slots[4] == Slot(config.rateLimiting, RateLimiting, o.rate)
    && slots[5] == Slot(session.hasSignature, SignatureVerification, o.signature)
    && slots[6] == Slot(true, MetadataValidation, o.metadata)
  }

  predicate Throws(slot: Slot) {
    slot.enabled && slot.outcome.None?
  }

  predicate SomeThrows(slots: seq<Slot>) {
    exists i | 0 <= i < |slots| :: Throws(slots[i])
  }

  predicate ReachesReplay(slots: seq<Slot>)
    requires |slots| >= 3
  {
    !Throws(slots[0]) && !Throws(slots[1]) && !Throws(slots[2])
  }

  predicate FailsCritically(slot: Slot) {
    slot.enabled && slot.outcome == Some((Failed, Critical))
  }

  function CheckOf(slot: Slot): Check
    requires slot.outcome.Some?
  {
    Check(slot.checkType, slot.outcome.value.0, slot.outcome.value.1)
  }

  /** The checks pushed by the time the slots are done, or one of them has thrown. */
  function Pushed(slots: seq<Slot>): seq<Check> {
    if slots == [] then []
    else
      var n := |slots| - 1;
      if (exists i | 0 <= i < n :: Throws(slots[i])) || !slots[n].enabled || slots[n].outcome.None?
      then Pushed(slots[..n])
      else Pushed(slots[..n]) + [CheckOf(slots[n])]
  }

  lemma NextSlot(slots: seq<Slot>, k: nat)
    requires k < |slots| && forall i | 0 <= i < k :: !Throws(slots[i])
    ensures Pushed(slots[..k + 1])
      == Pushed(slots[..k]) + (if slots[k].enabled && slots[k].outcome.Some? then [CheckOf(slots[k])] else [])
  {
    assert slots[..k + 1][..k] == slots[..k];
  }

  /** Nothing is pushed after a check has thrown. */
  lemma {:induction false} AfterThrow(slots: seq<Slot>, k: nat)
    requires k < |slots| && Throws(slots[k]) && forall i | 0 <= i < k :: !Throws(slots[i])
    ensures Pushed(slots) == Pushed(slots[..k])
  {
    var n := |slots| - 1;
    if k < n {
      AfterThrow(slots[..n], k);
      assert slots[..n][..k] == slots[..k];
    }
  }

  /** The check is made: it is enabled, and neither it nor one before it throws. */
  predicate IsMade(slots: seq<Slot>, i: nat)
    requires i < |slots|
  {
    slots[i].enabled && forall j | 0 <= j <= i :: !Throws(slots[j])
  }

  function Made(slots: seq<Slot>): set<nat> {
    set i: nat | i < |slots| && IsMade(slots, i)
  }

  lemma MadeGrows(slots: seq<Slot>)
    requires slots != []
    ensures var n := |slots| - 1;
            n !in Made(slots[..n]) && Made(slots) == Made(slots[..n]) + (if IsMade(slots, n) then {n} else {})
  {
    var n := |slots| - 1;
    forall i: nat | i < n
      ensures IsMade(slots, i) <==> IsMade(slots[..n], i)
    {
      EarlierIsMade(slots, i);
    }
  }

  lemma EarlierIsMade(slots: seq<Slot>, i: nat)
    requires i < |slots| - 1
    ensures IsMade(slots, i) <==> IsMade(slots[..|slots| - 1], i)
  {
    assert forall j | 0 <= j < |slots| - 1 :: slots[..|slots| - 1][j] == slots[j];
  }

  /** Each check that is made is pushed, behind the results of those made before it, and no other is. */
  lemma {:induction false} MadeIsPushed(slots: seq<Slot>, i: nat)
    ensures |Pushed(slots)| == |Made(slots)|
    ensures i < |slots| && IsMade(slots, i) ==>
      |Made(slots[..i])| < |Pushed(slots)| && Pushed(slots)[|Made(slots[..i])|] == CheckOf(slots[i])
  {
    if slots == [] {
      assert Made(slots) == {};
    } else {
      var n := |slots| - 1;
      MadeIsPushed(slots[..n], i);
      MadeGrows(slots);
      if i < n {
        assert slots[..n][..i] == slots[..i] && slots[..n][i] == slots[i];
        EarlierIsMade(slots, i);
      }
    }
  }

  lemma {:induction false} CriticalFailures(slots: seq<Slot>)
    requires forall i | 0 <= i < |slots| :: !Throws(slots[i])
    ensures SomeCriticalFailure(Pushed(slots)) <==> exists i | 0 <= i < |slots| :: FailsCritically(slots[i])
  {
    if slots != [] {
      var n := |slots| - 1;
      CriticalFailures(slots[..n]);
      assert forall i | 0 <= i < n :: slots[..n][i] == slots[i];
      assert slots[n].enabled ==> CheckOf(slots[n]) in Pushed(slots);
      if FailsCritically(slots[n]) {
        assert SomeCriticalFailure(Pushed(slots));
      }
      if exists i | 0 <= i < n :: FailsCritically(slots[i]) {
        var i :| 0 <= i < n && FailsCritically(slots[i]);
        assert FailsCritically(slots[..n][i]);
        var c :| c in Pushed(slots[..n]) && c.status == Failed && c.severity == Critical;
        assert c in Pushed(slots);
      }
    }
  }

  /** The first checks are done, none of them threw, and these are their results and anomalies. */
  ghost predicate Reached(slots: seq<Slot>, k: nat, checks: seq<Check>, anomalies: seq<Anomaly>)
    requires k <= |slots|
  {
    && (forall i | 0 <= i < k :: !Throws(slots[i]))
    && checks == Pushed(slots[..k]) && anomalies == AnomaliesOf(checks)
  }

  const CATCH_REPORT := Report(Invalid, 0, 100, Reject, [Check(SignatureVerification, Failed, Critical)], [])

  function FinalReport(slots: seq<Slot>, config: Config): Report {
    if SomeThrows(slots) then CATCH_REPORT
    else ReportOf(Pushed(slots), AnomaliesOf(Pushed(slots)), config)
  }

  /**
   Whatever the checks come to: a critical failure or an exception makes the report invalid and nothing else
   does, an invalid one is rejected with confidence at most 50 and risk at least 65, and the scores are
   between 0 and 100 and add up to at least 100.
   */
  lemma ReportOfSession(slots: seq<Slot>, config: Config)
    ensures var report := FinalReport(slots, config);
            && (report.overallStatus == Invalid <==>
                SomeThrows(slots) || exists i | 0 <= i < |slots| :: FailsCritically(slots[i]))
            && (report.overallStatus == Invalid
                ==> report.recommendation == Reject && report.confidenceScore <= 50 && report.riskScore >= 65)
            && (report.recommendation == Accept <==> report.overallStatus == Valid)
            && 0 <= report.confidenceScore <= 100 && 0 <= report.riskScore <= 100
            && report.confidenceScore + report.riskScore >= 100
            && (SomeThrows(slots) ==> report.confidenceScore == 0 && report.riskScore == 100 && report.anomalies == []
                                      && report.checks == [Check(SignatureVerification, Failed, Critical)])
  {
    if !SomeThrows(slots) {
      CriticalFailures(slots);
      ReportMeans(Pushed(slots), config);
    }
  }

  class SessionIntegrityService {
    var anomalyLogs: seq<Anomaly>
    var sessionHashes: set<string>

    constructor ()
      ensures anomalyLogs == [] && sessionHashes == {}
    {
      anomalyLogs, sessionHashes := [], {};
    }

    /** One block of the validation: push the check's result, and an anomaly if it failed. */
    method RunCheck(checks: seq<Check>, anomalies: seq<Anomaly>, slot: Slot, anomalyType: AnomalyType,
                    ghost slots: seq<Slot>, ghost k: nat, ghost logged: seq<Anomaly>)
      returns (thrown: bool, checks': seq<Check>, anomalies': seq<Anomaly>)
      requires k < |slots| && slots[k] == slot && Reached(slots, k, checks, anomalies)
      requires anomalyType == AnomalyOf(slot.checkType)
      requires anomalyLogs == logged + anomalies
      modifies `anomalyLogs
      ensures thrown <==> Throws(slot)
      ensures anomalyLogs == logged + anomalies'
      ensures if thrown then checks' == Pushed(slots) && anomalies' == AnomaliesOf(checks')
              else Reached(slots, k + 1, checks', anomalies')
    {
      checks', anomalies', thrown := checks, anomalies, false;
      NextSlot(slots, k);
      if slot.enabled {
        if slot.outcome.None? {
          AfterThrow(slots, k);
          thrown := true;
          return;
        }
        var check := CheckOf(slot);
        checks' := checks + [check];
        assert checks'[..|checks|] == checks;
        if check.status == Failed {
          var anomaly := Anomaly(anomalyType, check.severity);
          anomalyLogs := anomalyLogs + [anomaly];
          anomalies' := anomalies + [anomaly];
        }
      }
    }

    method DetectReplay(session: Session) returns (outcome: Outcome)
      modifies `sessionHashes
      ensures outcome == ReplayOutcome(session.criticalData in old(sessionHashes))
      ensures sessionHashes == old(sessionHashes) + {session.criticalData}
    {
      if session.criticalData in sessionHashes {
        return Some((Failed, Critical));
      }
      sessionHashes := sessionHashes + {session.criticalData};
      return Some((Passed, Low));
    }

    /** The checks made before the replay check. */
    method RunFirstChecks(config: Config, o: Outcomes, ghost slots: seq<Slot>, ghost logged: seq<Anomaly>)
      returns (thrown: bool, checks: seq<Check>, anomalies: seq<Anomaly>)
      requires |slots| >= 3
      requires slots[0] == Slot(config.scoreValidation, ScoreValidation, o.score)
      requires slots[1] == Slot(config.timeValidation, TimeValidation, o.timing)
      requires slots[2] == Slot(config.actionValidation, ActionSequence, o.actions)
      requires anomalyLogs == logged
      modifies `anomalyLogs
      ensures thrown <==> Throws(slots[0]) || Throws(slots[1]) || Throws(slots[2])
      ensures anomalyLogs == logged + anomalies
      ensures if thrown then checks == Pushed(slots) && anomalies == AnomaliesOf(checks)
              else Reached(slots, 3, checks, anomalies)
    {
      checks, anomalies := [], [];
      thrown, checks, anomalies :=
        RunCheck(checks, anomalies, Slot(config.scoreValidation, ScoreValidation, o.score), ImpossibleScore,
                 slots, 0, logged);
      if thrown {
        return;
      }
      thrown, checks, anomalies :=
        RunCheck(checks, anomalies, Slot(config.timeValidation, TimeValidation, o.timing), SuspiciousTime,
                 slots, 1, logged);
      if thrown {
        return;
      }
      thrown, checks, anomalies :=
        RunCheck(checks, anomalies, Slot(config.actionValidation, ActionSequence, o.actions), InvalidSequence,
                 slots, 2, logged);
    }

    /** The checks made after it; the last one's exception leaves nothing undone. */
    method RunLastChecks(checks: seq<Check>, anomalies: seq<Anomaly>, hasSignature: bool, config: Config, o: Outcomes,
                         ghost slots: seq<Slot>, ghost logged: seq<Anomaly>)
      returns (thrown: bool, checks': seq<Check>, anomalies': seq<Anomaly>)
      requires |slots| == 7 && Reached(slots, 4, checks, anomalies)
      requires slots[4] == Slot(config.rateLimiting, RateLimiting, o.rate)
      requires slots[5] == Slot(hasSignature, SignatureVerification, o.signature)
      requires slots[6] == Slot(true, MetadataValidation, o.metadata)
      requires anomalyLogs == logged + anomalies
      modifies `anomalyLogs
      ensures thrown <==> Throws(slots[4]) || Throws(slots[5]) || Throws(slots[6])
      ensures anomalyLogs == logged + anomalies'
      ensures checks' == Pushed(slots) && anomalies' == AnomaliesOf(checks')
    {
      thrown, checks', anomalies' :=
        RunCheck(checks, anomalies, Slot(config.rateLimiting, RateLimiting, o.rate), RateLimitExceeded,
                 slots, 4, logged);
      if thrown {
        return;
      }
      thrown, checks', anomalies' :=
        RunCheck(checks', anomalies', Slot(hasSignature, SignatureVerification, o.signature), TamperedData,
                 slots, 5, logged);
      if thrown {
        return;
      }
      thrown, checks', anomalies' :=
        RunCheck(checks', anomalies', Slot(true, MetadataValidation, o.metadata), InconsistentMetadata,
                 slots, 6, logged);
      assert slots[..|slots|] == slots;
    }

    /** The block that may throw: the seven checks, in order. */
    method RunChecks(session: Session, config: Config, o: Outcomes, ghost slots: seq<Slot>)
      returns (thrown: bool, checks: seq<Check>, anomalies: seq<Anomaly>)
      requires IsSchedule(slots, session, config, o, session.criticalData in sessionHashes)
      modifies this
      ensures thrown <==> SomeThrows(slots)
      ensures checks == Pushed(slots) && anomalies == AnomaliesOf(checks) && anomalyLogs == old(anomalyLogs) + anomalies
      ensures sessionHashes == old(sessionHashes)
        + (if config.replayDetection && ReachesReplay(slots) then {session.criticalData} else {})
    {
      ghost var logged := anomalyLogs;
      thrown, checks, anomalies := RunFirstChecks(config, o, slots, logged);
      if thrown {
        return;
      }
      var replay: Outcome := Some((Passed, Low));
      if config.replayDetection {
        replay := DetectReplay(session);
      }
      thrown, checks, anomalies :=
        RunCheck(checks, anomalies, Slot(config.replayDetection, ReplayDetection, replay), ReplayAttack,
                 slots, 3, logged);
      thrown, checks, anomalies := RunLastChecks(checks, anomalies, session.hasSignature, config, o, slots, logged);
    }

    /**
     Every anomaly is the record of a failed check of the same severity. A session whose data has been seen
     is rejected whatever else happens, and its data is remembered once the replay check is reached.
     */
    method ValidateSession(session: Session, config: Config, o: Outcomes)
      returns (report: Report, ghost slots: seq<Slot>)
      modifies this
      ensures IsSchedule(slots, session, config, o, session.criticalData in old(sessionHashes))
      ensures report == FinalReport(slots, config)
      ensures anomalyLogs == old(anomalyLogs) + AnomaliesOf(Pushed(slots))
      ensures sessionHashes == old(sessionHashes)
        + (if config.replayDetection && ReachesReplay(slots) then {session.criticalData} else {})
      ensures config.replayDetection && session.criticalData in old(sessionHashes)
        ==> report.overallStatus == Invalid && report.recommendation == Reject
      ensures 0 <= report.confidenceScore <= 100 && 0 <= report.riskScore <= 100
      ensures report.confidenceScore + report.riskScore >= 100
    {
      ghost var seen := session.criticalData in sessionHashes;
      slots := [
        Slot(config.scoreValidation, ScoreValidation, o.score),
        Slot(config.timeValidation, TimeValidation, o.timing),
        Slot(config.actionValidation, ActionSequence, o.actions),
        Slot(config.replayDetection, ReplayDetection, ReplayOutcome(config.replayDetection && seen)),
        Slot(config.rateLimiting, RateLimiting, o.rate),
        Slot(session.hasSignature, SignatureVerification, o.signature),
        Slot(true, MetadataValidation, o.metadata)
      ];
      ReportOfSession(slots, config);
      assert config.replayDetection && session.criticalData in sessionHashes ==> FailsCritically(slots[3]);
      var thrown, checks, anomalies := RunChecks(session, config, o, slots);
      if thrown {
        report := CATCH_REPORT;
        return;
      }
      report := GenerateIntegrityReport(checks, anomalies, config);
    }
  }
}
