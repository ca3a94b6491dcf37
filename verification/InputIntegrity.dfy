/**
 Checks on the inputs of a reported session: `validateSessionTiming` and `validateInputSequence`.
 Timestamps and durations are exact reals, in milliseconds.
 */
module InputIntegrity {
  import opened Common

  const MAX_INPUTS_PER_SECOND := 50
  const MAX_INPUTS_PER_100MS := 10
  const MAX_SAME_TIMESTAMP := 5
  const MAX_CLIENTS := 3
  const MIN_DURATION_MS := 100.0
  const MAX_DURATION_MS := 86_400_000.0
  const ONE_WEEK_MS := 604_800_000.0

  datatype Input = Input(timestamp: real, sequence: Option<int>, clientId: Option<string>)

  /** A timestamp as it arrives: absent, something that is not a number, or a number. */
  datatype Stamp = Missing | NotANumber | At(time: real)

  predicate AllNumbers(stamps: seq<Stamp>) {
    forall i | 0 <= i < |stamps| :: stamps[i].At?
  }

  function TimesOf(stamps: seq<Stamp>): seq<real>
    requires AllNumbers(stamps)
  {
    seq(|stamps|, i requires 0 <= i < |stamps| => stamps[i].time)
  }

  function Stamps(inputs: seq<Input>): seq<Stamp> {
    seq(|inputs|, i requires 0 <= i < |inputs| => At(inputs[i].timestamp))
  }

  function Times(inputs: seq<Input>): seq<real> {
    seq(|inputs|, i requires 0 <= i < |inputs| => inputs[i].timestamp)
  }

  /** The aligned bucket of each input. */
  function Buckets(inputs: seq<Input>, width: real): seq<int>
    requires width > 0.0
  {
    seq(|inputs|, i requires 0 <= i < |inputs| => (inputs[i].timestamp / width).Floor)
  }

  function ClientIds(inputs: seq<Input>): set<string> {
    set i | 0 <= i < |inputs| && inputs[i].clientId.Some? && inputs[i].clientId.value != "" :: inputs[i].clientId.value
  }

  ghost predicate Extremes(ts: seq<real>, first: real, last: real) {
    && first in ts && last in ts
    && forall i | 0 <= i < |ts| :: first <= ts[i] <= last
  }

  /** The reported duration is within 5% of the span of the inputs, and no input is in the future or stale. */
  ghost predicate TimingOk(duration: real, stamps: seq<Stamp>, now: real) {
    && 100.0 <= duration <= 86_400_000.0
    && (stamps != [] ==>
          && AllNumbers(stamps)
          && (exists first, last :: Extremes(TimesOf(stamps), first, last)
                && -0.05 * duration <= duration - (last - first) <= 0.05 * duration)
          && (forall t | t in TimesOf(stamps) :: 0.0 <= t && now - 604_800_000.0 <= t <= now))
  }

  ghost predicate AtMost<K(!new)>(keys: seq<K>, limit: nat) {
    forall k :: multiset(keys)[k] <= limit
  }

  ghost predicate SequenceOk(inputs: seq<Input>) {
    inputs != [] ==>
      && AtMost(Times(inputs), 5)
      && (forall i | 0 < i < |inputs| :: inputs[i - 1].timestamp <= inputs[i].timestamp)
      && (inputs[0].sequence.Some? ==> forall i | 0 < i < |inputs| :: InOrder(inputs, i))
      && AtMost(Buckets(inputs, 1000.0), 50)
      && AtMost(Buckets(inputs, 100.0), 10)
      && (inputs[0].clientId.Some? && inputs[0].clientId.value != "" ==> |ClientIds(inputs)| <= 3)
  }

  /** Neighbours that both carry a sequence number carry increasing ones. */
  predicate InOrder(inputs: seq<Input>, i: nat)
    requires 0 < i < |inputs|
  {
    inputs[i - 1].sequence.Some? && inputs[i].sequence.Some? ==> inputs[i - 1].sequence.value < inputs[i].sequence.value
  }

  // ---- The validators -------------------------------------------------------------------------

  method Span(ts: seq<real>) returns (first: real, last: real)
    requires ts != []
    ensures Extremes(ts, first, last)
  {
    first, last := ts[0], ts[0];
    for i := 1 to |ts|
      invariant first in ts && last in ts
      invariant forall j | 0 <= j < i :: first <= ts[j] <= last
    {
      if ts[i] < first {
        first := ts[i];
      }
      if ts[i] > last {
        last := ts[i];
      }
    }
  }

  lemma ExtremesAreUnique(ts: seq<real>, a: real, b: real, c: real, d: real)
    requires Extremes(ts, a, b) && Extremes(ts, c, d)
    ensures a == c && b == d
  {
  }

  method ValidateSessionTiming(duration: real, stamps: seq<Stamp>, now: real) returns (isValid: bool)
    ensures isValid <==> TimingOk(duration, stamps, now)
  {
    if duration < MIN_DURATION_MS || duration > MAX_DURATION_MS {
      return false;
    }
    if stamps == [] {
      return true;
    }
    for i := 0 to |stamps|
      invariant forall j | 0 <= j < i :: stamps[j].At? && stamps[j].time >= 0.0
    {
      if !stamps[i].At? {
        return false;
      }
      if stamps[i].time < 0.0 {
        assert AllNumbers(stamps) ==> TimesOf(stamps)[i] < 0.0;
        return false;
      }
    }
    var times := TimesOf(stamps);
    var first, last := Span(times);
    var actual := last - first;
    var difference := if duration >= actual then duration - actual else actual - duration;
    if difference > duration * 0.05 {
      forall a, b | Extremes(times, a, b)
        ensures a == first && b == last
      {
        ExtremesAreUnique(times, a, b, first, last);
      }
      return false;
    }
    return forall t | t in times :: now - ONE_WEEK_MS <= t <= now;
  }

  /** The counting-map loop: stops at the first key seen more than `limit` times. */
  method CountWithin<K(==, !new)>(keys: seq<K>, limit: nat) returns (ok: bool)
    ensures ok <==> AtMost(keys, limit)
  {
    var counts: map<K, nat> := map[];
    for i := 0 to |keys|
      invariant forall k :: (if k in counts then counts[k] else 0) == multiset(keys[..i])[k] <= limit
    {
      var k := keys[i];
      var count := (if k in counts then counts[k] else 0) + 1;
      counts := counts[k := count];
      assert keys[..i + 1] == keys[..i] + [k];
      if count > limit {
        assert keys == keys[..i + 1] + keys[i + 1..];
        assert multiset(keys)[k] > limit;
        return false;
      }
    }
    assert keys[..|keys|] == keys;
    return true;
  }

  method ValidateInputSequence(inputs: seq<Input>) returns (isValid: bool)
    ensures isValid <==> SequenceOk(inputs)
  {
    if inputs == [] {
      return true;
    }
    var ok := CountWithin(Times(inputs), MAX_SAME_TIMESTAMP);
    if !ok {
      return false;
    }
    for i := 1 to |inputs|
      invariant forall j | 0 < j < i :: inputs[j - 1].timestamp <= inputs[j].timestamp
    {
      if inputs[i].timestamp < inputs[i - 1].timestamp {
        return false;
      }
    }
    if inputs[0].sequence.Some? {
      for i := 1 to |inputs|
        invariant forall j | 0 < j < i :: InOrder(inputs, j)
      {
        if !InOrder(inputs, i) {
          return false;
        }
      }
    }
    ok := CountWithin(Buckets(inputs, 1000.0), MAX_INPUTS_PER_SECOND);
    if !ok {
      return false;
    }
    ok := CountWithin(Buckets(inputs, 100.0), MAX_INPUTS_PER_100MS);
    if !ok {
      return false;
    }
    if inputs[0].clientId.Some? && inputs[0].clientId.value != "" {
      var clients: set<string> := {};
      for i := 0 to |inputs|
        invariant clients == ClientIds(inputs[..i])
      {
        if inputs[i].clientId.Some? && inputs[i].clientId.value != "" {
          clients := clients + {inputs[i].clientId.value};
        }
        ClientIdsExtend(inputs, i);
      }
      assert inputs[..|inputs|] == inputs;
      return |clients| <= MAX_CLIENTS;
    }
    return true;
  }

  lemma ClientIdsExtend(inputs: seq<Input>, i: nat)
    requires i < |inputs|
    ensures ClientIds(inputs[..i + 1]) == ClientIds(inputs[..i])
      + (if inputs[i].clientId.Some? && inputs[i].clientId.value != "" then {inputs[i].clientId.value} else {})
  {
    var longer, shorter := inputs[..i + 1], inputs[..i];
    forall c | c in ClientIds(longer)
      ensures c in ClientIds(shorter) || inputs[i].clientId == Some(c)
    {
      var k :| 0 <= k < |longer| && longer[k].clientId == Some(c) && c != "";
      if k < i {
        assert shorter[k].clientId == Some(c);
      }
    }
    forall c | c in ClientIds(shorter)
      ensures c in ClientIds(longer)
    {
      var k :| 0 <= k < |shorter| && shorter[k].clientId == Some(c) && c != "";
      assert longer[k].clientId == Some(c);
    }
    assert longer[i] == inputs[i];
  }

  // ---- What acceptance implies ----------------------------------------------------------------

  /** How many keys lie in [lo, lo + n). */
  function Within(keys: seq<int>, lo: int, n: nat): nat {
    if keys == [] then 0
    else Within(keys[..|keys| - 1], lo, n) + (if lo <= keys[|keys| - 1] < lo + n then 1 else 0)
  }

  lemma {:induction false} WithinSplits(keys: seq<int>, lo: int, n: nat)
    ensures Within(keys, lo, n + 1) == Within(keys, lo, n) + multiset(keys)[lo + n]
  {
    if keys != [] {
      WithinSplits(keys[..|keys| - 1], lo, n);
      assert keys == keys[..|keys| - 1] + [keys[|keys| - 1]];
    }
  }

  lemma {:induction false} WithinBound(keys: seq<int>, lo: int, n: nat, limit: nat)
    requires AtMost(keys, limit)
    ensures Within(keys, lo, n) <= limit * n
  {
    if n == 0 {
      EmptyRange(keys, lo);
    } else {
      WithinBound(keys, lo, n - 1, limit);
      WithinSplits(keys, lo, n - 1);
      assert limit * n == limit * (n - 1) + limit;
    }
  }

  lemma {:induction false} EmptyRange(keys: seq<int>, lo: int)
    ensures Within(keys, lo, 0) == 0
  {
    if keys != [] {
      EmptyRange(keys[..|keys| - 1], lo);
    }
  }

  lemma {:induction false} AllWithin(keys: seq<int>, lo: int, n: nat)
    requires forall i | 0 <= i < |keys| :: lo <= keys[i] < lo + n
    ensures Within(keys, lo, n) == |keys|
  {
    if keys != [] {
      AllWithin(keys[..|keys| - 1], lo, n);
    }
  }

  /** How many inputs fall in a half-open interval, aligned or not. */
  function InInterval(inputs: seq<Input>, from: real, to: real): nat {
    if inputs == [] then 0
    else
      InInterval(inputs[..|inputs| - 1], from, to)
      + (if from <= inputs[|inputs| - 1].timestamp < to then 1 else 0)
  }

  /** The two bucket widths in use. */
  predicate BucketWidth(width: real) {
    width == 1000.0 || width == 100.0
  }

  lemma FloorWithinTwo(t: real, from: real, width: real)
    requires BucketWidth(width) && from <= t < from + width
    ensures (from / width).Floor <= (t / width).Floor < (from / width).Floor + 2
  {
    if width == 100.0 {
      assert from / 100.0 <= t / 100.0 < from / 100.0 + 1.0;
    } else {
      assert from / 1000.0 <= t / 1000.0 < from / 1000.0 + 1.0;
    }
  }

  lemma {:induction false} IntervalMeetsTwoBuckets(inputs: seq<Input>, from: real, width: real)
    requires BucketWidth(width)
    ensures InInterval(inputs, from, from + width) <= Within(Buckets(inputs, width), (from / width).Floor, 2)
  {
    if inputs != [] {
      var n := |inputs| - 1;
      IntervalMeetsTwoBuckets(inputs[..n], from, width);
      assert Buckets(inputs, width)[..n] == Buckets(inputs[..n], width);
      if from <= inputs[n].timestamp < from + width {
        FloorWithinTwo(inputs[n].timestamp, from, width);
      }
    }
  }

  /** The aligned buckets bound every interval: at most 100 inputs in any second, 20 in any 100 ms. */
  lemma AnyIntervalIsBounded(inputs: seq<Input>, from: real)
    requires SequenceOk(inputs)
    ensures InInterval(inputs, from, from + 1000.0) <= 100
    ensures InInterval(inputs, from, from + 100.0) <= 20
  {
    if inputs != [] {
      IntervalBound(inputs, from, 1000.0, MAX_INPUTS_PER_SECOND);
      IntervalBound(inputs, from, 100.0, MAX_INPUTS_PER_100MS);
    }
  }

  lemma IntervalBound(inputs: seq<Input>, from: real, width: real, limit: nat)
    requires BucketWidth(width) && AtMost(Buckets(inputs, width), limit)
    ensures InInterval(inputs, from, from + width) <= limit * 2
  {
    IntervalMeetsTwoBuckets(inputs, from, width);
    WithinBound(Buckets(inputs, width), (from / width).Floor, 2, limit);
  }

  lemma FloorSpan(first: real, t: real, span: real)
    requires first <= t <= first + span
    ensures (first / 1000.0).Floor <= (t / 1000.0).Floor < (first / 1000.0).Floor + (span / 1000.0).Floor + 2
  {
  }

  /** A session both validators accept carries at most 50 inputs for each second its duration can cover. */
  lemma TotalIsBounded(duration: real, inputs: seq<Input>, now: real)
    requires TimingOk(duration, Stamps(inputs), now) && SequenceOk(inputs)
    ensures |inputs| <= 50 * ((1.05 * duration / 1000.0).Floor + 2)
  {
    if inputs != [] {
      assert TimesOf(Stamps(inputs)) == Times(inputs);
      var first, last :| Extremes(Times(inputs), first, last) && duration - (last - first) >= -0.05 * duration;
      var span := 1.05 * duration;
      var keys, lo, n := Buckets(inputs, 1000.0), (first / 1000.0).Floor, (span / 1000.0).Floor + 2;
      forall i | 0 <= i < |keys|
        ensures lo <= keys[i] < lo + n
      {
        assert first <= Times(inputs)[i] <= last;
        FloorSpan(first, inputs[i].timestamp, span);
      }
      AllWithin(keys, lo, n);
      WithinBound(keys, lo, n, MAX_INPUTS_PER_SECOND);
    }
  }

  function CountAt(inputs: seq<Input>, t: real): nat {
    if inputs == [] then 0
    else CountAt(inputs[..|inputs| - 1], t) + (if inputs[|inputs| - 1].timestamp == t then 1 else 0)
  }

  lemma {:induction false} CountAtIsMultiplicity(inputs: seq<Input>, t: real)
    ensures CountAt(inputs, t) == multiset(Times(inputs))[t]
  {
    if inputs != [] {
      var n := |inputs| - 1;
      CountAtIsMultiplicity(inputs[..n], t);
      assert Times(inputs) == Times(inputs[..n]) + [inputs[n].timestamp];
    }
  }

  /** An accepted list is in the order of time, over all pairs, and at most five inputs share an instant. */
  lemma {:induction false} TimeAdvances(inputs: seq<Input>, i: nat, j: nat, t: real)
    requires SequenceOk(inputs) && i <= j < |inputs|
    ensures inputs[i].timestamp <= inputs[j].timestamp
    ensures CountAt(inputs, t) <= 5
    decreases j - i
  {
    CountAtIsMultiplicity(inputs, t);
    if i < j {
      TimeAdvances(inputs, i, j - 1, t);
    }
  }

  /** Once the first input names a client, inputs of four clients are refused, wherever they stand. */
  lemma FourClientsAreRefused(inputs: seq<Input>, a: nat, b: nat, c: nat, d: nat)
    requires a < |inputs| && b < |inputs| && c < |inputs| && d < |inputs|
    requires Named(inputs[0]) && Named(inputs[a]) && Named(inputs[b]) && Named(inputs[c]) && Named(inputs[d])
    requires inputs[a].clientId !in {inputs[b].clientId, inputs[c].clientId, inputs[d].clientId}
    requires inputs[b].clientId !in {inputs[c].clientId, inputs[d].clientId} && inputs[c].clientId != inputs[d].clientId
    ensures !SequenceOk(inputs)
  {
    var four := {inputs[a].clientId.value, inputs[b].clientId.value}
                + {inputs[c].clientId.value, inputs[d].clientId.value};
    assert |four| == 4;
    SubsetIsSmaller(four, ClientIds(inputs));
  }

  predicate Named(input: Input) {
    input.clientId.Some? && input.clientId.value != ""
  }

  lemma {:induction false} SubsetIsSmaller<T>(a: set<T>, b: set<T>)
    requires a <= b
    ensures |a| <= |b|
  {
    assert b == a + (b - a);
  }

  // ---- When the neighbour check is enough -----------------------------------------------------

  /** Any two numbered inputs, neighbours or not, carry increasing numbers. */
  predicate Increasing(inputs: seq<Input>) {
    forall i, j | 0 <= i < j < |inputs| && inputs[i].sequence.Some? && inputs[j].sequence.Some? ::
      inputs[i].sequence.value < inputs[j].sequence.value
  }

  /** Which inputs carry a number. */
  predicate HasShape(inputs: seq<Input>, numbered: seq<bool>) {
    |inputs| == |numbered| && forall i | 0 <= i < |inputs| :: inputs[i].sequence.Some? == numbered[i]
  }

  predicate AtMostOneNumbered(numbered: seq<bool>) {
    forall i, j | 0 <= i < j < |numbered| :: !(numbered[i] && numbered[j])
  }

  predicate NumberedPrefix(numbered: seq<bool>) {
    forall i, j | 0 <= i < j < |numbered| && numbered[j] :: numbered[i]
  }

  /** Up to a numbered input, the check compares all neighbours when none before it lacks a number. */
  lemma {:induction false} SequencesIncrease(inputs: seq<Input>, i: nat, j: nat)
    requires SequenceOk(inputs) && i < j < |inputs|
    requires forall k | 0 <= k <= j :: inputs[k].sequence.Some?
    ensures inputs[i].sequence.value < inputs[j].sequence.value
    decreases j - i
  {
    assert InOrder(inputs, j);
    if i < j - 1 {
      SequencesIncrease(inputs, i, j - 1);
    }
  }

  lemma SafeShapeIncreases(inputs: seq<Input>, numbered: seq<bool>)
    requires SequenceOk(inputs) && HasShape(inputs, numbered)
    requires AtMostOneNumbered(numbered) || NumberedPrefix(numbered)
    ensures Increasing(inputs)
  {
    forall i, j | 0 <= i < j < |inputs| && inputs[i].sequence.Some? && inputs[j].sequence.Some?
      ensures inputs[i].sequence.value < inputs[j].sequence.value
    {
      assert numbered[i] && numbered[j];
      SequencesIncrease(inputs, i, j);
    }
  }

  /** One input a second; numbers grow, but start again below zero after position `gap`. */
  function Restarting(numbered: seq<bool>, gap: nat): (inputs: seq<Input>)
    ensures HasShape(inputs, numbered)
  {
    seq(|numbered|, i requires 0 <= i < |numbered| =>
      Input(1000.0 * i as real, if numbered[i] then Some(if i < gap then i else i - |numbered|) else None, None))
  }

  lemma {:induction false} DistinctKeys<K(!new)>(keys: seq<K>)
    requires forall i, j | 0 <= i < j < |keys| :: keys[i] != keys[j]
    ensures AtMost(keys, 1)
  {
    if keys != [] {
      var n := |keys| - 1;
      DistinctKeys(keys[..n]);
      assert keys == keys[..n] + [keys[n]];
      assert keys[n] !in keys[..n];
      forall k ensures multiset(keys)[k] <= 1 {
        assert multiset(keys)[k] == multiset(keys[..n])[k] + multiset([keys[n]])[k];
      }
    }
  }

  lemma RestartingPasses(numbered: seq<bool>, gap: nat)
    requires gap < |numbered| && !numbered[gap]
    ensures SequenceOk(Restarting(numbered, gap))
  {
    var inputs := Restarting(numbered, gap);
    forall i | 0 <= i < |inputs|
      ensures Buckets(inputs, 1000.0)[i] == i && Buckets(inputs, 100.0)[i] == 10 * i
    {
      assert 1000.0 * i as real / 1000.0 == i as real;
      assert 1000.0 * i as real / 100.0 == (10 * i) as real;
    }
    DistinctKeys(Times(inputs));
    DistinctKeys(Buckets(inputs, 1000.0));
    DistinctKeys(Buckets(inputs, 100.0));
    forall i | 0 < i < |inputs|
      ensures InOrder(inputs, i)
    {
      assert numbered[i] ==> i != gap;
    }
  }

  /**
   The neighbour check is sound on exactly these shapes: every accepted list whose inputs are numbered in
   this way has increasing numbers if and only if at most one is numbered or the numbered ones come first.
   */
  lemma NeighbourCheckIsSoundExactly(numbered: seq<bool>)
    ensures (forall inputs :: HasShape(inputs, numbered) && SequenceOk(inputs) ==> Increasing(inputs))
      <==> AtMostOneNumbered(numbered) || NumberedPrefix(numbered)
  {
    if AtMostOneNumbered(numbered) || NumberedPrefix(numbered) {
      forall inputs | HasShape(inputs, numbered) && SequenceOk(inputs)
        ensures Increasing(inputs)
      {
        SafeShapeIncreases(inputs, numbered);
      }
    } else {
      var inputs := UnsafeShapeRepeats(numbered);
    }
  }

  /** On any other shape some accepted list does not increase. */
  lemma UnsafeShapeRepeats(numbered: seq<bool>) returns (inputs: seq<Input>)
    requires !AtMostOneNumbered(numbered) && !NumberedPrefix(numbered)
    ensures HasShape(inputs, numbered) && SequenceOk(inputs) && !Increasing(inputs)
  {
    if numbered[0] {
      var gap, late :| 0 <= gap < late < |numbered| && numbered[late] && !numbered[gap];
      inputs := Restarting(numbered, gap);
      RestartingPasses(numbered, gap);
      assert inputs[0].sequence.value > inputs[late].sequence.value;
    } else {
      var i, j :| 0 <= i < j < |numbered| && numbered[i] && numbered[j];
      inputs := Unchecked(numbered);
      assert inputs[i].sequence == inputs[j].sequence;
    }
  }

  /** With an unnumbered first input no number is ever checked. */
  lemma Unchecked(numbered: seq<bool>) returns (inputs: seq<Input>)
    requires numbered != [] && !numbered[0]
    ensures HasShape(inputs, numbered) && SequenceOk(inputs)
    ensures forall i | 0 <= i < |inputs| && numbered[i] :: inputs[i].sequence == Some(0)
  {
    var spaced := Restarting(numbered, 0);
    RestartingPasses(numbered, 0);
    inputs := seq(|numbered|, i requires 0 <= i < |numbered| =>
      spaced[i].(sequence := if numbered[i] then Some(0) else None));
    assert Times(inputs) == Times(spaced);
    assert Buckets(inputs, 1000.0) == Buckets(spaced, 1000.0);
    assert Buckets(inputs, 100.0) == Buckets(spaced, 100.0);
  }

  /** One missing number hides a repetition. */
  lemma GapHidesRepetition()
    ensures exists inputs: seq<Input> ::
      SequenceOk(inputs) && |inputs| == 3 && inputs[0].sequence == inputs[2].sequence == Some(1)
  {
    var inputs := [Input(0.0, Some(1), None), Input(1000.0, None, None), Input(2000.0, Some(1), None)];
    DistinctKeys(Times(inputs));
    DistinctKeys(Buckets(inputs, 1000.0));
    DistinctKeys(Buckets(inputs, 100.0));
    assert SequenceOk(inputs);
  }
}
