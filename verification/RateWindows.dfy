/**
 The two sliding-window limiters: `WsRateLimiter.isAllowed`, which keeps its lists in a process map, and
 the submission list of `detectReplayAttack`, which keeps them in an expiring cache record.
 */
module RateWindows {
  import opened Common

  const MAX_RECENT_SUBMISSIONS := 10
  const SUBMISSION_WINDOW_MS := 60_000

  /** The timestamps still inside the window at `now`, in order. */
  function Recent(ts: seq<int>, now: int, windowMs: int): seq<int> {
    if ts == [] then []
    else
      var n := |ts| - 1;
      Recent(ts[..n], now, windowMs) + (if now - ts[n] < windowMs then [ts[n]] else [])
  }

  function ListFor(windows: map<string, seq<int>>, key: string): seq<int> {
    if key in windows then windows[key] else []
  }

  /** What a call at `now` makes of the kept list. */
  function AfterCall(list: seq<int>, limit: int, windowMs: int, now: int): seq<int> {
    var recent := Recent(list, now, windowMs);
    if |recent| < limit then recent + [now] else list
  }

  class WsRateLimiter {
    var windows: map<string, seq<int>>

    constructor ()
      ensures windows == map[]
    {
      windows := map[];
    }

    method IsAllowed(userId: string, event: string, limit: int, windowMs: int, now: int) returns (allowed: bool)
      modifies this
      ensures var key := userId + ":" + event;
              var kept := ListFor(old(windows), key);
              && (allowed <==> |Recent(kept, now, windowMs)| < limit)
              && windows == (if allowed then old(windows)[key := AfterCall(kept, limit, windowMs, now)]
                             else old(windows))
              && ListFor(windows, key) == AfterCall(kept, limit, windowMs, now)
    {
      var key := userId + ":" + event;
      var timestamps := Recent(if key in windows then windows[key] else [], now, windowMs);
      if |timestamps| >= limit {
        return false;
      }
      timestamps := timestamps + [now];
      windows := windows[key := timestamps];
      return true;
    }
  }

  /** A user without a record is like one whose record has expired. */
  function RecordFor(lists: map<string, Cell<seq<int>>>, userId: string): Cell<seq<int>> {
    if userId in lists then lists[userId] else NO_RECORD
  }

  const NO_RECORD: Cell<seq<int>> := Cell([], 0)

  function ReadCell(record: Cell<seq<int>>, now: int): seq<int> {
    if now < record.expiresAt then record.value else []
  }

  /** What a submission at `now` makes of the stored record. */
  function AfterSubmission(record: Cell<seq<int>>, limit: int, windowMs: int, ttlMs: int, now: int): Cell<seq<int>> {
    var recent := Recent(ReadCell(record, now), now, windowMs);
    if |recent| < limit then Cell(recent + [now], now + ttlMs) else record
  }

  class SubmissionRates {
    /** Lifetime of a stored list; the code asks for 120000. */
    const ttlMs: int
    var lists: map<string, Cell<seq<int>>>

    constructor (ttlMs: int)
      ensures this.ttlMs == ttlMs && lists == map[]
    {
      this.ttlMs := ttlMs;
      lists := map[];
    }

    method Submit(userId: string, now: int) returns (suspicious: bool)
      modifies this
      ensures var record := RecordFor(old(lists), userId);
              && (suspicious <==> |Recent(ReadCell(record, now), now, 60_000)| > 10)
              && (suspicious ==> lists == old(lists))
              && RecordFor(lists, userId)
                 == AfterSubmission(record, MAX_RECENT_SUBMISSIONS + 1, SUBMISSION_WINDOW_MS, ttlMs, now)
              && forall u | u != userId :: RecordFor(lists, u) == RecordFor(old(lists), u)
    {
      var record := Fetch(lists, userId, now);
      var submissions := if record.Some? then record.value else [];
      if |Recent(submissions, now, SUBMISSION_WINDOW_MS)| > MAX_RECENT_SUBMISSIONS {
        return true;
      }
      submissions := submissions + [now];
      var filtered := Recent(submissions, now, SUBMISSION_WINDOW_MS);
      lists := lists[userId := Cell(filtered, now + ttlMs)];
      return false;
    }
  }

  // ---- One key over a whole run ---------------------------------------------------------------

  ghost predicate Nondecreasing(calls: seq<int>) {
    forall i, j | 0 <= i < j < |calls| :: calls[i] <= calls[j]
  }

  /** The reference: every accepted call is remembered for ever. */
  function Accepted(calls: seq<int>, limit: int, windowMs: int): seq<int> {
    if calls == [] then []
    else
      var n := |calls| - 1;
      var before := Accepted(calls[..n], limit, windowMs);
      if |Recent(before, calls[n], windowMs)| < limit then before + [calls[n]] else before
  }

  /** The list `isAllowed` keeps for the key. */
  function Kept(calls: seq<int>, limit: int, windowMs: int): seq<int> {
    if calls == [] then []
    else
      var n := |calls| - 1;
      AfterCall(Kept(calls[..n], limit, windowMs), limit, windowMs, calls[n])
  }

  /** The record `detectReplayAttack` keeps for the user. */
  function Stored(calls: seq<int>, limit: int, windowMs: int, ttlMs: int): Cell<seq<int>> {
    if calls == [] then NO_RECORD
    else
      var n := |calls| - 1;
      AfterSubmission(Stored(calls[..n], limit, windowMs, ttlMs), limit, windowMs, ttlMs, calls[n])
  }

  function InWindow(ts: seq<int>, from: int, to: int): nat {
    if ts == [] then 0
    else InWindow(ts[..|ts| - 1], from, to) + (if from <= ts[|ts| - 1] < to then 1 else 0)
  }

  lemma RecentOfAppend(ts: seq<int>, t: int, now: int, windowMs: int)
    ensures Recent(ts + [t], now, windowMs) == Recent(ts, now, windowMs) + (if now - t < windowMs then [t] else [])
  {
    assert (ts + [t])[..|ts|] == ts;
  }

  /** Pruning at one instant loses nothing a later instant would still see. */
  lemma {:induction false} RecentOfRecent(ts: seq<int>, now: int, later: int, windowMs: int)
    requires now <= later
    ensures Recent(Recent(ts, now, windowMs), later, windowMs) == Recent(ts, later, windowMs)
  {
    if ts != [] {
      var n := |ts| - 1;
      RecentOfRecent(ts[..n], now, later, windowMs);
      var none: seq<int> := [];
      assert Recent(ts[..n], now, windowMs) + none == Recent(ts[..n], now, windowMs);
      if now - ts[n] < windowMs {
        RecentOfAppend(Recent(ts[..n], now, windowMs), ts[n], later, windowMs);
      }
    }
  }

  lemma {:induction false} OldTimesAreNotRecent(ts: seq<int>, now: int, windowMs: int)
    requires forall i | 0 <= i < |ts| :: now - ts[i] >= windowMs
    ensures Recent(ts, now, windowMs) == []
  {
    if ts != [] {
      OldTimesAreNotRecent(ts[..|ts| - 1], now, windowMs);
    }
  }

  ghost predicate Bounded(ts: seq<int>, bound: int) {
    forall i | 0 <= i < |ts| :: ts[i] <= bound
  }

  lemma BoundedAppend(ts: seq<int>, t: int)
    requires Bounded(ts, t)
    ensures Bounded(ts + [t], t)
  {
  }

  lemma {:induction false} RecentBound(ts: seq<int>, now: int, windowMs: int, bound: int)
    requires Bounded(ts, bound)
    ensures Bounded(Recent(ts, now, windowMs), bound)
  {
    if ts != [] {
      RecentBound(ts[..|ts| - 1], now, windowMs, bound);
    }
  }

  lemma EarlierCalls(calls: seq<int>, now: int)
    requires Nondecreasing(calls + [now]) && calls != []
    ensures var n := |calls| - 1;
            && calls[n] <= now
            && Nondecreasing(calls[..n] + [calls[n]])
            && forall i | 0 <= i < n :: calls[..n][i] <= calls[n]
  {
    var n := |calls| - 1;
    assert calls[..n] + [calls[n]] == calls;
    assert (calls + [now])[|calls|] == now && (calls + [now])[n] == calls[n];
    assert forall i | 0 <= i < |calls| :: calls[i] == (calls + [now])[i];
  }

  /** In every run the pruned list shows any later call exactly what the full history would. */
  lemma {:induction false} KeptDecidesAsHistory(calls: seq<int>, limit: int, windowMs: int, now: int)
    requires Nondecreasing(calls + [now])
    ensures Recent(Kept(calls, limit, windowMs), now, windowMs)
      == Recent(Accepted(calls, limit, windowMs), now, windowMs)
  {
    if calls != [] {
      var n := |calls| - 1;
      var t := calls[n];
      EarlierCalls(calls, now);
      KeptDecidesAsHistory(calls[..n], limit, windowMs, t);
      var list, before := Kept(calls[..n], limit, windowMs), Accepted(calls[..n], limit, windowMs);
      RecentOfRecent(list, t, now, windowMs);
      RecentOfRecent(before, t, now, windowMs);
      RecentOfAppend(Recent(list, t, windowMs), t, now, windowMs);
      RecentOfAppend(before, t, now, windowMs);
    }
  }

  /** A record whose lifetime is over holds nothing a window could still see. */
  lemma ExpiryForgetsNothing(record: Cell<seq<int>>, now: int, windowMs: int, ttlMs: int)
    requires windowMs <= ttlMs
    requires Bounded(record.value, record.expiresAt - ttlMs)
    ensures Recent(ReadCell(record, now), now, windowMs) == Recent(record.value, now, windowMs)
  {
    if now >= record.expiresAt {
      OldTimesAreNotRecent(record.value, now, windowMs);
    }
  }

  ghost predicate Mirrors(record: Cell<seq<int>>, history: seq<int>, now: int, windowMs: int, ttlMs: int) {
    && Recent(record.value, now, windowMs) == Recent(history, now, windowMs)
    && Bounded(record.value, record.expiresAt - ttlMs)
    && Bounded(history, now)
  }

  lemma MirrorsLater(record: Cell<seq<int>>, history: seq<int>, t: int, now: int, windowMs: int, ttlMs: int)
    requires Mirrors(record, history, t, windowMs, ttlMs) && t <= now
    ensures Mirrors(record, history, now, windowMs, ttlMs)
  {
    RecentOfRecent(record.value, t, now, windowMs);
    RecentOfRecent(history, t, now, windowMs);
  }

  lemma MirrorsAccept(record: Cell<seq<int>>, history: seq<int>, t: int, windowMs: int, ttlMs: int)
    requires Mirrors(record, history, t, windowMs, ttlMs)
    ensures Mirrors(Cell(Recent(history, t, windowMs) + [t], t + ttlMs), history + [t], t, windowMs, ttlMs)
  {
    var recent := Recent(history, t, windowMs);
    RecentOfRecent(history, t, t, windowMs);
    RecentOfAppend(recent, t, t, windowMs);
    RecentOfAppend(history, t, t, windowMs);
    RecentBound(history, t, windowMs, t);
    BoundedAppend(recent, t);
    BoundedAppend(history, t);
  }

  /** The same for the cached record, as long as it lives at least one window. */
  lemma {:induction false} StoredDecidesAsHistory(calls: seq<int>, limit: int, windowMs: int, ttlMs: int, now: int)
    requires Nondecreasing(calls + [now]) && windowMs <= ttlMs
    ensures var record := Stored(calls, limit, windowMs, ttlMs);
            && Recent(ReadCell(record, now), now, windowMs) == Recent(Accepted(calls, limit, windowMs), now, windowMs)
            && Mirrors(record, Accepted(calls, limit, windowMs), now, windowMs, ttlMs)
  {
    if calls != [] {
      var n := |calls| - 1;
      var t := calls[n];
      EarlierCalls(calls, now);
      StoredDecidesAsHistory(calls[..n], limit, windowMs, ttlMs, t);
      var earlier, before := Stored(calls[..n], limit, windowMs, ttlMs), Accepted(calls[..n], limit, windowMs);
      MirrorsAccept(earlier, before, t, windowMs, ttlMs);
      MirrorsLater(Stored(calls, limit, windowMs, ttlMs), Accepted(calls, limit, windowMs), t, now, windowMs, ttlMs);
    }
    ExpiryForgetsNothing(Stored(calls, limit, windowMs, ttlMs), now, windowMs, ttlMs);
  }

  // ---- The calls the limiters themselves accept -----------------------------------------------

  /** Decided by the list that is kept. */
  function AcceptedByKept(calls: seq<int>, limit: int, windowMs: int): seq<int> {
    if calls == [] then []
    else
      var n := |calls| - 1;
      var before := AcceptedByKept(calls[..n], limit, windowMs);
      if |Recent(Kept(calls[..n], limit, windowMs), calls[n], windowMs)| < limit then before + [calls[n]] else before
  }

  /** Decided by the record that is stored. */
  function AcceptedByStored(calls: seq<int>, limit: int, windowMs: int, ttlMs: int): seq<int> {
    if calls == [] then []
    else
      var n := |calls| - 1;
      var before := AcceptedByStored(calls[..n], limit, windowMs, ttlMs);
      var record := Stored(calls[..n], limit, windowMs, ttlMs);
      if |Recent(ReadCell(record, calls[n]), calls[n], windowMs)| < limit then before + [calls[n]] else before
  }

  lemma {:induction false} KeptAcceptsTheSame(calls: seq<int>, limit: int, windowMs: int)
    requires Nondecreasing(calls)
    ensures AcceptedByKept(calls, limit, windowMs) == Accepted(calls, limit, windowMs)
  {
    if calls != [] {
      var n := |calls| - 1;
      assert calls[..n] + [calls[n]] == calls;
      KeptAcceptsTheSame(calls[..n], limit, windowMs);
      KeptDecidesAsHistory(calls[..n], limit, windowMs, calls[n]);
    }
  }

  lemma {:induction false} StoredAcceptsTheSame(calls: seq<int>, limit: int, windowMs: int, ttlMs: int)
    requires Nondecreasing(calls) && windowMs <= ttlMs
    ensures AcceptedByStored(calls, limit, windowMs, ttlMs) == Accepted(calls, limit, windowMs)
  {
    if calls != [] {
      var n := |calls| - 1;
      assert calls[..n] + [calls[n]] == calls;
      StoredAcceptsTheSame(calls[..n], limit, windowMs, ttlMs);
      StoredDecidesAsHistory(calls[..n], limit, windowMs, ttlMs, calls[n]);
    }
  }

  /** Times not after `now` inside a window that reaches past `now` are recent at `now`. */
  lemma {:induction false} WindowWithinRecent(ts: seq<int>, from: int, windowMs: int, now: int)
    requires now < from + windowMs
    ensures InWindow(ts, from, from + windowMs) <= |Recent(ts, now, windowMs)|
  {
    if ts != [] {
      WindowWithinRecent(ts[..|ts| - 1], from, windowMs, now);
    }
  }

  lemma {:induction false} RecentIsWindow(ts: seq<int>, now: int, windowMs: int)
    requires Bounded(ts, now)
    ensures |Recent(ts, now, windowMs)| == InWindow(ts, now - windowMs + 1, now + 1)
  {
    if ts != [] {
      RecentIsWindow(ts[..|ts| - 1], now, windowMs);
    }
  }

  lemma {:induction false} AcceptedAreCalls(calls: seq<int>, limit: int, windowMs: int, now: int)
    requires Nondecreasing(calls + [now])
    ensures Bounded(Accepted(calls, limit, windowMs), now)
  {
    if calls != [] {
      EarlierCalls(calls, now);
      AcceptedAreCalls(calls[..|calls| - 1], limit, windowMs, calls[|calls| - 1]);
    }
  }

  /** The next call of any run is accepted if and only if fewer than `limit` fell in the window that ends with it. */
  lemma AcceptedExactlyWhenRoom(calls: seq<int>, limit: int, windowMs: int, now: int)
    requires Nondecreasing(calls + [now])
    ensures var accepted := AcceptedByKept(calls, limit, windowMs);
            AcceptedByKept(calls + [now], limit, windowMs)
            == if InWindow(accepted, now - windowMs + 1, now + 1) < limit then accepted + [now] else accepted
  {
    assert (calls + [now])[..|calls|] == calls;
    assert forall i | 0 <= i < |calls| :: calls[i] == (calls + [now])[i];
    KeptAcceptsTheSame(calls, limit, windowMs);
    KeptDecidesAsHistory(calls, limit, windowMs, now);
    AcceptedAreCalls(calls, limit, windowMs, now);
    RecentIsWindow(Accepted(calls, limit, windowMs), now, windowMs);
  }

  /** The same for the expiring record. */
  lemma StoredExactlyWhenRoom(calls: seq<int>, limit: int, windowMs: int, ttlMs: int, now: int)
    requires Nondecreasing(calls + [now]) && windowMs <= ttlMs
    ensures var accepted := AcceptedByStored(calls, limit, windowMs, ttlMs);
            AcceptedByStored(calls + [now], limit, windowMs, ttlMs)
            == if InWindow(accepted, now - windowMs + 1, now + 1) < limit then accepted + [now] else accepted
  {
    assert (calls + [now])[..|calls|] == calls;
    assert forall i | 0 <= i < |calls| :: calls[i] == (calls + [now])[i];
    StoredAcceptsTheSame(calls, limit, windowMs, ttlMs);
    StoredDecidesAsHistory(calls, limit, windowMs, ttlMs, now);
    AcceptedAreCalls(calls, limit, windowMs, now);
    RecentIsWindow(Accepted(calls, limit, windowMs), now, windowMs);
  }

  /** A submission is refused exactly when eleven accepted ones fell in the minute that ends with it. */
  lemma SubmittedExactlyWhenRoom(calls: seq<int>, ttlMs: int, now: int)
    requires Nondecreasing(calls + [now]) && SUBMISSION_WINDOW_MS <= ttlMs
    ensures var accepted := AcceptedByStored(calls, MAX_RECENT_SUBMISSIONS + 1, SUBMISSION_WINDOW_MS, ttlMs);
            AcceptedByStored(calls + [now], MAX_RECENT_SUBMISSIONS + 1, SUBMISSION_WINDOW_MS, ttlMs)
            == if InWindow(accepted, now - 59_999, now + 1) <= 10 then accepted + [now] else accepted
  {
    StoredExactlyWhenRoom(calls, MAX_RECENT_SUBMISSIONS + 1, SUBMISSION_WINDOW_MS, ttlMs, now);
  }

  lemma {:induction false} HistoryIsBounded(calls: seq<int>, limit: int, windowMs: int, from: int)
    requires Nondecreasing(calls)
    ensures InWindow(Accepted(calls, limit, windowMs), from, from + windowMs) <= Max(limit, 0)
  {
    if calls != [] {
      var n := |calls| - 1;
      var before := Accepted(calls[..n], limit, windowMs);
      HistoryIsBounded(calls[..n], limit, windowMs, from);
      assert (before + [calls[n]])[..|before|] == before;
      if from <= calls[n] < from + windowMs {
        WindowWithinRecent(before, from, windowMs, calls[n]);
      }
    }
  }

  /**
   In every run with a nondecreasing clock, every half-open interval of one window's length, wherever it
   starts, contains at most `limit` of the calls the limiter accepts.
   */
  lemma EveryWindowIsBounded(calls: seq<int>, limit: int, windowMs: int, from: int)
    requires Nondecreasing(calls)
    ensures InWindow(AcceptedByKept(calls, limit, windowMs), from, from + windowMs) <= Max(limit, 0)
  {
    KeptAcceptsTheSame(calls, limit, windowMs);
    HistoryIsBounded(calls, limit, windowMs, from);
  }

  /** For the submission list, with any lifetime of at least a minute, the bound is eleven per minute. */
  lemma ElevenPerMinute(calls: seq<int>, ttlMs: int, from: int)
    requires Nondecreasing(calls) && SUBMISSION_WINDOW_MS <= ttlMs
    ensures var accepted := AcceptedByStored(calls, MAX_RECENT_SUBMISSIONS + 1, SUBMISSION_WINDOW_MS, ttlMs);
            InWindow(accepted, from, from + 60_000) <= 11
  {
    StoredAcceptsTheSame(calls, MAX_RECENT_SUBMISSIONS + 1, SUBMISSION_WINDOW_MS, ttlMs);
    HistoryIsBounded(calls, MAX_RECENT_SUBMISSIONS + 1, SUBMISSION_WINDOW_MS, from);
  }
}
