/** `forecast_gpu_demand` of demand.py: arrivals averaged by hour of the week, and what they say of the coming hours. */
module DemandForecast {
  import opened Wrappers
  import opened HourOfWeek

  const DAY := 24 * HOUR
  const HIGH_CONFIDENCE_HISTORY_HOURS := 28 * 24
  const HIGH_CONFIDENCE_JOBS := 20
  const HIGH_CONFIDENCE_DURATIONS := 10

  datatype DurationEstimate = DurationEstimate(averageSeconds: real, sampleCount: nat)

  /** A bucket of the arrival query; the count is as given. */
  datatype Arrival = Arrival(at: int, count: int)

  datatype DemandHour = DemandHour(start: int, occurrences: nat, arrivals: nat, predicted: real)

  datatype Confidence = ConfidenceUnavailable | LowConfidence | HighConfidence

  datatype Saturation = SaturationUnavailable | WithinCapacity | AtRisk | OverCapacity

  datatype Forecast = Forecast(
    earliest: int, historicalJobs: nat, historyHours: nat, predictedArrivals: real,
    projectedSeconds: Option<real>, availableSeconds: real, capacityRatio: Option<real>,
    confidence: Confidence, saturation: Saturation, hours: seq<DemandHour>)

  datatype DemandError = HistoryAfterObservation | NonPositiveSpan | NegativeCount | NegativeArrivals

  datatype Outcome = Forecasted(forecast: Forecast) | Refused(error: DemandError)

  // ---- What is counted ----

  predicate Counted(a: Arrival, first: int, observed: int) {
    first <= FloorHour(a.at) < observed
  }

  predicate NoNegative(arrivals: seq<Arrival>) {
    forall i :: 0 <= i < |arrivals| ==> arrivals[i].count >= 0
  }

  /** The arrivals of the history hours with the slot. */
  function ArrivalsIn(arrivals: seq<Arrival>, first: int, observed: int, slot: Slot): (n: nat)
    requires NoNegative(arrivals)
  {
    if arrivals == [] then 0
    else
      var a := arrivals[|arrivals| - 1];
      ArrivalsIn(arrivals[..|arrivals| - 1], first, observed, slot)
      + (if Counted(a, first, observed) && SlotOf(FloorHour(a.at)) == slot then a.count else 0)
  }

  function HistoricalJobs(arrivals: seq<Arrival>, first: int, observed: int): (n: nat)
    requires NoNegative(arrivals)
  {
    if arrivals == [] then 0
    else
      var a := arrivals[|arrivals| - 1];
      HistoricalJobs(arrivals[..|arrivals| - 1], first, observed) + (if Counted(a, first, observed) then a.count else 0)
  }

  /** A slot that has arrivals has occurred: no arrival is averaged away. */
  lemma {:induction false} ArrivalsOccur(arrivals: seq<Arrival>, first: int, observed: int, slot: Slot)
    requires NoNegative(arrivals)
    ensures ArrivalsIn(arrivals, first, observed, slot) > 0 ==> Occurrences(first, observed, slot) > 0
  {
    if arrivals != [] {
      var a := arrivals[|arrivals| - 1];
      ArrivalsOccur(arrivals[..|arrivals| - 1], first, observed, slot);
      if Counted(a, first, observed) && SlotOf(FloorHour(a.at)) == slot {
        HourOccurs(first, observed, FloorHour(a.at));
      }
    }
  }

  lemma {:induction false} HourOccurs(first: int, end: int, h: int)
    requires first <= h < end
    ensures Occurrences(first, end, SlotOf(h)) > 0
    decreases end - first
  {
    if h < end - 1 {
      HourOccurs(first, end - 1, h);
    }
  }

  // ---- What is predicted ----

  /** The prediction for an hour: the mean arrivals of its slot. */
  predicate Predicts(hour: DemandHour, start: int, arrivals: seq<Arrival>, first: int, observed: int)
    requires NoNegative(arrivals)
  {
    && hour.start == start
    && hour.occurrences == Occurrences(first, observed, SlotOf(start))
    && hour.arrivals == ArrivalsIn(arrivals, first, observed, SlotOf(start))
    && Weighted(hour) == hour.arrivals as real
    && (hour.occurrences == 0 ==> hour.predicted == 0.0)
  }

  predicate PredictsAll(hours: seq<DemandHour>, arrivals: seq<Arrival>, first: int, observed: int)
    requires NoNegative(arrivals)
  {
    forall i :: 0 <= i < |hours| ==> Predicts(hours[i], observed + 1 + i, arrivals, first, observed)
  }

  function SumPredicted(hours: seq<DemandHour>): (sum: real) {
    if hours == [] then 0.0 else SumPredicted(hours[..|hours| - 1]) + hours[|hours| - 1].predicted
  }

  /** Predictions weighted by how often their slot occurred. */
  function WeightedPredictions(hours: seq<DemandHour>): (sum: real) {
    if hours == [] then 0.0
    else WeightedPredictions(hours[..|hours| - 1]) + Weighted(hours[|hours| - 1])
  }

  function Weighted(hour: DemandHour): (product: real) {
    hour.predicted * hour.occurrences as real
  }

  /** The arrivals of the slots of `n` hours from `start`. */
  function ArrivalsOver(arrivals: seq<Arrival>, first: int, observed: int, start: int, n: nat): (sum: nat)
    requires NoNegative(arrivals)
  {
    if n == 0 then 0
    else
      var earlier := ArrivalsOver(arrivals, first, observed, start, n - 1);
      earlier + ArrivalsIn(arrivals, first, observed, SlotOf(start + n - 1))
  }

  lemma {:induction false} WeightedIsArrivals(hours: seq<DemandHour>, arrivals: seq<Arrival>, first: int, observed: int)
    requires NoNegative(arrivals) && PredictsAll(hours, arrivals, first, observed)
    ensures WeightedPredictions(hours) == ArrivalsOver(arrivals, first, observed, observed + 1, |hours|) as real
  {
    if hours != [] {
      WeightedIsArrivals(hours[..|hours| - 1], arrivals, first, observed);
      assert Predicts(hours[|hours| - 1], observed + |hours|, arrivals, first, observed);
    }
  }

  /** What one bucket adds to the slots of `n` hours from `start`. */
  function Repeated(a: Arrival, first: int, observed: int, start: int, n: nat): (sum: int) {
    if Counted(a, first, observed) then a.count * Occurrences(start, start + n, SlotOf(FloorHour(a.at))) else 0
  }

  lemma RepeatedNext(a: Arrival, first: int, observed: int, start: int, n: nat)
    requires n > 0
    ensures Repeated(a, first, observed, start, n)
         == Repeated(a, first, observed, start, n - 1)
            + (if Counted(a, first, observed) && SlotOf(FloorHour(a.at)) == SlotOf(start + n - 1) then a.count else 0)
  {
    var k := Occurrences(start, start + n - 1, SlotOf(FloorHour(a.at)));
    assert a.count * (k + 1) == a.count * k + a.count;
  }

  lemma {:induction false} ArrivalsOverNext(arrivals: seq<Arrival>, first: int, observed: int, start: int, n: nat)
    requires NoNegative(arrivals) && arrivals != []
    ensures ArrivalsOver(arrivals, first, observed, start, n)
         == ArrivalsOver(arrivals[..|arrivals| - 1], first, observed, start, n)
            + Repeated(arrivals[|arrivals| - 1], first, observed, start, n)
  {
    if n > 0 {
      ArrivalsOverNext(arrivals, first, observed, start, n - 1);
      RepeatedNext(arrivals[|arrivals| - 1], first, observed, start, n);
    }
  }

  lemma RepeatedWeekly(a: Arrival, first: int, observed: int, start: int, k: nat)
    ensures Repeated(a, first, observed, start, WEEK * k) == (if Counted(a, first, observed) then a.count else 0) * k
  {
    WeeksHoldEachSlot(start, k, FloorHour(a.at));
  }

  lemma Distribute(x: int, y: int, k: int)
    ensures (x + y) * k == x * k + y * k
  {
  }

  /** Over k weeks every counted arrival turns up k times. */
  lemma {:induction false} WeeksOfArrivals(arrivals: seq<Arrival>, first: int, observed: int, start: int, k: nat)
    requires NoNegative(arrivals)
    ensures ArrivalsOver(arrivals, first, observed, start, WEEK * k) == HistoricalJobs(arrivals, first, observed) * k
  {
    if arrivals == [] {
      NoArrivals(arrivals, first, observed, start, WEEK * k);
    } else {
      var before, a := arrivals[..|arrivals| - 1], arrivals[|arrivals| - 1];
      WeeksOfArrivals(before, first, observed, start, k);
      ArrivalsOverNext(arrivals, first, observed, start, WEEK * k);
      RepeatedWeekly(a, first, observed, start, k);
      Distribute(HistoricalJobs(before, first, observed), if Counted(a, first, observed) then a.count else 0, k);
    }
  }

  lemma {:induction false} NoArrivals(arrivals: seq<Arrival>, first: int, observed: int, start: int, n: nat)
    requires arrivals == []
    ensures ArrivalsOver(arrivals, first, observed, start, n) == 0
  {
    if n > 0 {
      NoArrivals(arrivals, first, observed, start, n - 1);
    }
  }

  /** Over a horizon of k whole weeks, predictions times occurrences give the counted history back k times. */
  lemma WeeksReturnHistory(hours: seq<DemandHour>, arrivals: seq<Arrival>, first: int, observed: int, k: nat)
    requires NoNegative(arrivals) && PredictsAll(hours, arrivals, first, observed) && |hours| == WEEK * k
    ensures WeightedPredictions(hours) == (HistoricalJobs(arrivals, first, observed) * k) as real
  {
    WeightedIsArrivals(hours, arrivals, first, observed);
    WeeksOfArrivals(arrivals, first, observed, observed + 1, k);
  }

  function Scale(x: real, k: nat): (product: real) {
    x * k as real
  }

  lemma ScaleAdds(x: real, y: real, k: nat)
    ensures Scale(x + y, k) == Scale(x, k) + Scale(y, k)
  {
  }

  lemma {:induction false} WeightedEvenly(hours: seq<DemandHour>, m: nat)
    requires forall i :: 0 <= i < |hours| ==> hours[i].occurrences == m
    ensures WeightedPredictions(hours) == Scale(SumPredicted(hours), m)
  {
    if hours != [] {
      var before, last := hours[..|hours| - 1], hours[|hours| - 1];
      WeightedEvenly(before, m);
      ScaleAdds(SumPredicted(before), last.predicted, m);
      assert Weighted(last) == Scale(last.predicted, m);
    }
  }

  /** With m whole weeks of history, a horizon of k whole weeks predicts k/m of the counted arrivals. */
  lemma WholeWeeksAverage(hours: seq<DemandHour>, arrivals: seq<Arrival>, first: int, observed: int, m: nat, k: nat)
    requires NoNegative(arrivals) && PredictsAll(hours, arrivals, first, observed)
    requires observed - first == WEEK * m && |hours| == WEEK * k
    ensures Scale(SumPredicted(hours), m) == (HistoricalJobs(arrivals, first, observed) * k) as real
  {
    forall i | 0 <= i < |hours|
      ensures hours[i].occurrences == m
    {
      assert Predicts(hours[i], observed + 1 + i, arrivals, first, observed);
      WeeksHoldEachSlot(first, m, observed + 1 + i);
      assert first + WEEK * m == observed;
    }
    WeightedEvenly(hours, m);
    WeeksReturnHistory(hours, arrivals, first, observed, k);
  }

  // ---- The loops ----

  function Get(counts: map<Slot, nat>, slot: Slot): (n: nat) {
    if slot in counts then counts[slot] else 0
  }

  method CountOccurrences(first: int, observed: int) returns (counts: map<Slot, nat>)
    ensures forall slot :: Get(counts, slot) == Occurrences(first, observed, slot)
  {
    counts := map[];
    var cursor := first;
    while cursor < observed
      invariant cursor == first || first <= cursor <= observed
      invariant forall slot :: Get(counts, slot) == Occurrences(first, cursor, slot)
    {
      counts := counts[SlotOf(cursor) := Get(counts, SlotOf(cursor)) + 1];
      cursor := cursor + 1;
    }
  }

  method CountArrivals(arrivals: seq<Arrival>, first: int, observed: int)
    returns (ok: bool, counts: map<Slot, nat>, jobs: nat)
    ensures ok == NoNegative(arrivals)
    ensures ok ==> jobs == HistoricalJobs(arrivals, first, observed)
    ensures ok ==> forall slot :: Get(counts, slot) == ArrivalsIn(arrivals, first, observed, slot)
  {
    counts, jobs := map[], 0;
    var i := 0;
    while i < |arrivals|
      invariant 0 <= i <= |arrivals| && NoNegative(arrivals[..i])
      invariant jobs == HistoricalJobs(arrivals[..i], first, observed)
      invariant forall slot :: Get(counts, slot) == ArrivalsIn(arrivals[..i], first, observed, slot)
    {
      var a := arrivals[i];
      if a.count < 0 {
        return false, counts, jobs;
      }
      assert arrivals[..i + 1][..i] == arrivals[..i];
      var hour := FloorHour(a.at);
      if first <= hour < observed {
        counts := counts[SlotOf(hour) := Get(counts, SlotOf(hour)) + a.count];
        jobs := jobs + a.count;
      }
      i := i + 1;
    }
    assert arrivals[..i] == arrivals;
    ok := true;
  }

  method PredictHours(occurrences: map<Slot, nat>, counts: map<Slot, nat>, ghost arrivals: seq<Arrival>,
                      ghost first: int, observed: int, horizon: nat)
    returns (hours: seq<DemandHour>)
    requires NoNegative(arrivals)
    requires forall slot :: Get(occurrences, slot) == Occurrences(first, observed, slot)
    requires forall slot :: Get(counts, slot) == ArrivalsIn(arrivals, first, observed, slot)
    ensures |hours| == horizon && PredictsAll(hours, arrivals, first, observed)
  {
    hours := [];
    for offset := 1 to horizon + 1
      invariant |hours| == offset - 1 && PredictsAll(hours, arrivals, first, observed)
    {
      var start := observed + offset;
      var key := SlotOf(start);
      var n, total := Get(occurrences, key), Get(counts, key);
      var hour := DemandHour(start, n, total, Mean(total, n));
      HourPredicts(hour, arrivals, first, observed);
      hours := hours + [hour];
    }
  }

  lemma HourPredicts(hour: DemandHour, arrivals: seq<Arrival>, first: int, observed: int)
    requires NoNegative(arrivals)
    requires hour.occurrences == Occurrences(first, observed, SlotOf(hour.start))
    requires hour.arrivals == ArrivalsIn(arrivals, first, observed, SlotOf(hour.start))
    requires hour.predicted == Mean(hour.arrivals, hour.occurrences)
    ensures Predicts(hour, hour.start, arrivals, first, observed)
  {
    ArrivalsOccur(arrivals, first, observed, SlotOf(hour.start));
    MeanWeighted(hour);
  }

  function Mean(total: nat, n: nat): (mean: real) {
    if n > 0 then total as real / n as real else 0.0
  }

  lemma MeanWeighted(hour: DemandHour)
    requires hour.arrivals > 0 ==> hour.occurrences > 0
    requires hour.predicted == Mean(hour.arrivals, hour.occurrences)
    ensures Weighted(hour) == hour.arrivals as real
    ensures hour.occurrences == 0 ==> hour.predicted == 0.0
  {
  }

  // ---- The forecast ----

  /** max(history_start, observed_at - lookback) */
  function Earliest(historyStart: int, observedAt: int, lookbackDays: int): (t: int) {
    if historyStart < observedAt - lookbackDays * DAY then observedAt - lookbackDays * DAY else historyStart
  }

  /** The later of two instants. */
  predicate IsEarliest(t: int, historyStart: int, observedAt: int, lookbackDays: int) {
    var back := observedAt - lookbackDays * 86_400_000_000;
    t >= historyStart && t >= back && (t == historyStart || t == back)
  }

  lemma EarliestIsLater(historyStart: int, observedAt: int, lookbackDays: int)
    ensures IsEarliest(Earliest(historyStart, observedAt, lookbackDays), historyStart, observedAt, lookbackDays)
  {
    assert DAY == 86_400_000_000;
  }

  /** An hour of each worker is 3600 seconds. */
  predicate IsWorkerTime(seconds: real, workers: int, horizon: int) {
    seconds == 3600.0 * (workers * horizon) as real
  }

  lemma AvailableIsWorkerHours(workers: int, horizon: int)
    ensures IsWorkerTime(Available(workers, horizon), workers, horizon)
  {
    var hours := workers * horizon;
    assert (hours * 3600) as real == 3600.0 * hours as real;
  }

  function Projected(backlog: int, predicted: real, duration: Option<DurationEstimate>): (seconds: Option<real>) {
    if duration.None? then None else Some((backlog as real + predicted) * duration.value.averageSeconds)
  }

  function Available(workers: int, horizon: int): (seconds: real) {
    (workers * horizon * 3600) as real
  }

  /** The GPU seconds of what is queued, what is running and what will arrive, if a duration is known. */
  predicate IsLoad(projected: Option<real>, queued: int, running: int, predicted: real,
                   duration: Option<DurationEstimate>)
  {
    && (projected.Some? <==> duration.Some?)
    && (projected.Some? ==>
        var each := duration.value.averageSeconds;
        projected.value == queued as real * each + running as real * each + predicted * each)
  }

  lemma ProjectedIsLoad(queued: int, running: int, predicted: real, duration: Option<DurationEstimate>)
    ensures IsLoad(Projected(queued + running, predicted, duration), queued, running, predicted, duration)
  {
    assert (queued + running) as real == queued as real + running as real;
  }

  /** Load against capacity, both in GPU seconds and compared without dividing. */
  predicate Assessed(
      projected: Option<real>, available: real, jobs: nat, historyHours: nat, duration: Option<DurationEstimate>,
      ratio: Option<real>, confidence: Confidence, saturation: Saturation)
  {
    && (ratio.Some? <==> projected.Some? && available > 0.0)
    && (ratio.Some? ==> ratio.value * available == projected.value)
    && (confidence == ConfidenceUnavailable <==> jobs == 0 || duration.None? || historyHours == 0)
    && (confidence == HighConfidence <==>
          historyHours >= 672 && jobs >= 20 && duration.Some? && duration.value.sampleCount >= 10)
    && (saturation == SaturationUnavailable <==> confidence == ConfidenceUnavailable || available == 0.0)
    && (saturation == OverCapacity ==> projected.Some? && projected.value > available)
    && (saturation == AtRisk ==>
        projected.Some? && 10.0 * projected.value >= 8.0 * available && projected.value <= available)
    && (saturation == WithinCapacity ==> projected.Some? && 10.0 * projected.value < 8.0 * available)
  }

  method SumHours(hours: seq<DemandHour>) returns (sum: real)
    ensures sum == SumPredicted(hours)
  {
    sum := 0.0;
    for i := 0 to |hours|
      invariant sum == SumPredicted(hours[..i])
    {
      assert hours[..i + 1][..i] == hours[..i];
      sum := sum + hours[i].predicted;
    }
    assert hours[..|hours|] == hours;
  }

  method Assess(projected: Option<real>, available: real, jobs: nat, historyHours: nat,
                duration: Option<DurationEstimate>)
    returns (ratio: Option<real>, confidence: Confidence, saturation: Saturation)
    requires projected.Some? <==> duration.Some?
    requires available >= 0.0
    ensures Assessed(projected, available, jobs, historyHours, duration, ratio, confidence, saturation)
  {
    ratio := if projected.Some? && available > 0.0 then Some(projected.value / available) else None;
    confidence := ConfidenceUnavailable;
    if jobs > 0 && duration.Some? && historyHours > 0 {
      confidence :=
        if historyHours >= HIGH_CONFIDENCE_HISTORY_HOURS && jobs >= HIGH_CONFIDENCE_JOBS
           && duration.value.sampleCount >= HIGH_CONFIDENCE_DURATIONS
        then HighConfidence else LowConfidence;
    }
    if ratio.None? || confidence == ConfidenceUnavailable {
      saturation := SaturationUnavailable;
      return;
    }
    RatioAgainst(ratio.value, projected.value, available);
    if ratio.value > 1.0 {
      saturation := OverCapacity;
    } else if ratio.value >= 0.8 {
      saturation := AtRisk;
    } else {
      saturation := WithinCapacity;
    }
  }

  lemma RatioAgainst(ratio: real, projected: real, available: real)
    requires available > 0.0 && ratio == projected / available
    ensures ratio > 1.0 <==> projected > available
    ensures ratio >= 0.8 <==> 10.0 * projected >= 8.0 * available
    ensures ratio * available == projected
  {
    assert ratio * available == projected;
    Scaled(ratio, 1.0, available);
    Scaled(ratio, 0.8, available);
  }

  lemma Scaled(a: real, b: real, c: real)
    requires c > 0.0
    ensures a > b <==> a * c > b * c
    ensures a >= b <==> a * c >= b * c
  {
    assert a * c - b * c == (a - b) * c;
  }

  /** What the forecast says of the history and of the coming hours. */
  ghost predicate Forecasts(f: Forecast, arrivals: seq<Arrival>, first: int, observed: int, horizon: int) {
    && NoNegative(arrivals)
    && f.historyHours == (if first <= observed then observed - first else 0)
    && f.historicalJobs == HistoricalJobs(arrivals, first, observed)
    && |f.hours| == horizon && PredictsAll(f.hours, arrivals, first, observed)
    && f.predictedArrivals == SumPredicted(f.hours)
  }

  method ForecastGpuDemand(
      arrivals: seq<Arrival>, historyStart: int, observedAt: int, queued: int, running: int, workers: int,
      duration: Option<DurationEstimate>, lookbackDays: int, horizon: int)
    returns (outcome: Outcome)
    ensures outcome == Refused(HistoryAfterObservation) <==> historyStart > observedAt
    ensures outcome == Refused(NonPositiveSpan) <==>
            historyStart <= observedAt && !(lookbackDays > 0 && horizon > 0)
    ensures outcome == Refused(NegativeCount) <==>
            && historyStart <= observedAt && lookbackDays > 0 && horizon > 0
            && !(queued >= 0 && running >= 0 && workers >= 0)
    ensures outcome == Refused(NegativeArrivals) <==>
            && historyStart <= observedAt && lookbackDays > 0 && horizon > 0
            && queued >= 0 && running >= 0 && workers >= 0
            && exists i :: 0 <= i < |arrivals| && arrivals[i].count < 0
    ensures outcome.Forecasted? ==>
              var f := outcome.forecast;
              && IsEarliest(f.earliest, historyStart, observedAt, lookbackDays)
              && IsLoad(f.projectedSeconds, queued, running, f.predictedArrivals, duration)
              && IsWorkerTime(f.availableSeconds, workers, horizon)
    ensures outcome.Forecasted? ==>
              Forecasts(outcome.forecast, arrivals, CeilHour(outcome.forecast.earliest), FloorHour(observedAt), horizon)
    ensures outcome.Forecasted? ==>
              var f := outcome.forecast;
              Assessed(f.projectedSeconds, f.availableSeconds, f.historicalJobs, f.historyHours, duration,
                       f.capacityRatio, f.confidence, f.saturation)
  {
    if historyStart > observedAt {
      return Refused(HistoryAfterObservation);
    }
    if lookbackDays <= 0 || horizon <= 0 {
      return Refused(NonPositiveSpan);
    }
    if queued < 0 || running < 0 || workers < 0 {
      return Refused(NegativeCount);
    }
    var earliest := Earliest(historyStart, observedAt, lookbackDays);
    var first, observed := CeilHour(earliest), FloorHour(observedAt);
    var occurrences := CountOccurrences(first, observed);
    var ok, counts, jobs := CountArrivals(arrivals, first, observed);
    if !ok {
      return Refused(NegativeArrivals);
    }
    var hours := PredictHours(occurrences, counts, arrivals, first, observed, horizon);
    var historyHours := if first <= observed then observed - first else 0;
    var predicted := SumHours(hours);
    var projected := Projected(queued + running, predicted, duration);
    var available := Available(workers, horizon);
    NoWorkersNoCapacity(workers, horizon);
    EarliestIsLater(historyStart, observedAt, lookbackDays);
    AvailableIsWorkerHours(workers, horizon);
    ProjectedIsLoad(queued, running, predicted, duration);
    var ratio, confidence, saturation := Assess(projected, available, jobs, historyHours, duration);
    return Forecasted(Forecast(earliest, jobs, historyHours, predicted, projected, available, ratio, confidence,
                               saturation, hours));
  }

  lemma NoWorkersNoCapacity(workers: int, horizon: int)
    requires workers >= 0 && horizon > 0
    ensures Available(workers, horizon) >= 0.0
    ensures Available(workers, horizon) == 0.0 <==> workers == 0
  {
    if workers > 0 {
      assert workers * horizon >= horizon;
    }
  }
}
