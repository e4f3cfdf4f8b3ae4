/**
 * What a quota runway says, told from the samples alone: which samples it rests on, how its horizons
 * follow from the allowance left and the usage between samples, and when there is none.
 */
module Runways {
  import opened Prelude
  import opened Control
  import opened Ordering
  import opened Forecast

  // ---------------------------------------------------------------- one horizon

  /** What is left of the allowance. */
  function Left(s: Sample): real
    requires s.limit.Some?
  {
    if s.used < s.limit.value then s.limit.value - s.used else 0.0
  }

  /**
   * The capacity is how long `left` lasts at the rate. Before a reset, capacity and shortfall make up the
   * time to the reset and the headroom, of which one is zero; exhaustion is the capacity if it comes first.
   */
  predicate IsBalanced(x: Horizon, left: real, resetIn: Option<int>) {
    && (x.capacity.Some? <==> left == 0.0 || (x.rate.Some? && x.rate.value > 0.0))
    && (x.capacity.Some? ==> if left == 0.0 then x.capacity == Some(0.0) else x.capacity.value * x.rate.value == left)
    && (x.headroom.Some? <==> x.capacity.Some? && resetIn.Some?)
    && (x.shortfall.Some? <==> x.headroom.Some?) && (x.beforeReset.Some? <==> x.headroom.Some?)
    && (x.headroom.Some? ==>
          && x.capacity.value + x.shortfall.value == resetIn.value as real + x.headroom.value
          && x.headroom.value >= 0.0 && x.shortfall.value >= 0.0
          && (x.headroom.value == 0.0 || x.shortfall.value == 0.0)
          && x.beforeReset == Some(x.shortfall.value > 0.0))
    && x.exhaustion == (if x.headroom.Some? && x.shortfall.value == 0.0 then None else x.capacity)
  }

  lemma HorizonIsBalanced(rate: Option<real>, left: real, resetIn: Option<int>, span: int)
    requires left >= 0.0
    ensures var x := MakeHorizon(rate, Some(left), resetIn, span);
      IsBalanced(x, left, resetIn) && x.rate == rate && x.span == span
  {
    HorizonBalances(rate, Some(left), resetIn, span);
  }

  // ---------------------------------------------------------------- the samples a forecast rests on

  /** Samples that may stand next to each other under the latest one: one window, usage growing, no long gap. */
  predicate Follows(older: Sample, newer: Sample, latest: Sample) {
    && older.stream == latest.stream && older.window == latest.window
    && older.resetAt == latest.resetAt && older.limit == latest.limit
    && older.used <= newer.used && newer.at <= older.at + 21600
  }

  /** Samples in time order that follow one another, up to the latest that is not in the future. */
  predicate IsChain(samples: seq<Sample>, now: int, seg: seq<Sample>) {
    && seg != [] && IsLatest(samples, now, seg[|seg| - 1])
    && (forall i | 0 <= i < |seg| :: seg[i] in samples && seg[i].at <= now)
    && (forall i | 0 <= i < |seg| - 1 :: seg[i].at < seg[i + 1].at && Follows(seg[i], seg[i + 1], seg[|seg| - 1]))
  }

  /**
   * The longest such chain: it skips no sample younger than its first, and the youngest one older than
   * that, if there is one, does not follow.
   */
  ghost predicate IsLongestChain(samples: seq<Sample>, now: int, seg: seq<Sample>) {
    && IsChain(samples, now, seg)
    && (forall s | s in samples && seg[0].at <= s.at <= now :: s in seg)
    && (forall s | s in samples && s.at < seg[0].at ::
          !Follows(s, seg[0], seg[|seg| - 1]) || IsOutdone(samples, s, seg[0].at))
  }

  /** A younger sample stands between this one and the given time. */
  ghost predicate IsOutdone(samples: seq<Sample>, s: Sample, at: int) {
    exists t :: t in samples && s.at < t.at < at
  }

  lemma LinksAreFollowing(a: Sample, b: Sample, latest: Sample)
    ensures Links(a, b, latest) <==> Follows(a, b, latest)
  {
  }

  /** The rows are the samples up to now, in strict time order. */
  ghost predicate AreRows(samples: seq<Sample>, now: int, rows: seq<Sample>) {
    && IsSorted(rows, Earlier) && !HasRepeatedTime(rows)
    && forall s :: s in rows <==> s in samples && s.at <= now
  }

  /** From a row on, the rows are exactly the samples that are not older. */
  lemma SuffixByTime(samples: seq<Sample>, now: int, rows: seq<Sample>, from: nat)
    requires AreRows(samples, now, rows) && from < |rows|
    ensures forall s | s in samples && s.at <= now :: rows[from].at <= s.at <==> s in rows[from..]
    ensures from == 0 <==> forall s | s in samples && s.at <= now :: rows[from].at <= s.at
    ensures forall i | from <= i < |rows| - 1 :: rows[i].at < rows[i + 1].at
  {
    hide IsSorted;
    hide HasRepeatedTime;
    forall i | from <= i < |rows| - 1 ensures rows[i].at < rows[i + 1].at {
      StrictAt(rows, i, i + 1);
    }
    forall s | s in samples && s.at <= now
      ensures rows[from].at <= s.at <==> s in rows[from..]
      ensures from == 0 ==> rows[from].at <= s.at
    {
      RowByTime(samples, now, rows, from, s);
    }
    if from > 0 {
      StrictAt(rows, from - 1, from);
      assert rows[from - 1] in rows;
    }
  }

  lemma RowByTime(samples: seq<Sample>, now: int, rows: seq<Sample>, from: nat, s: Sample)
    requires AreRows(samples, now, rows) && from < |rows| && s in samples && s.at <= now
    ensures rows[from].at <= s.at <==> s in rows[from..]
    ensures from == 0 ==> rows[from].at <= s.at
  {
    hide IsSorted;
    hide HasRepeatedTime;
    assert s in rows;
    var k :| 0 <= k < |rows| && rows[k] == s;
    if k < from {
      StrictAt(rows, k, from);
      if s in rows[from..] {
        var m :| 0 <= m < |rows[from..]| && rows[from..][m] == s;
        StrictAt(rows, k, from + m);
      }
    } else {
      assert rows[from..][k - from] == s;
      if from < k {
        StrictAt(rows, from, k);
      }
    }
  }

  /** The walked-back segment is the longest chain. */
  lemma SegmentIsChain(samples: seq<Sample>, now: int)
    requires var rows := Rows(samples, now); rows != [] && !HasRepeatedTime(rows)
    ensures var rows := Rows(samples, now);
      && IsLongestChain(samples, now, SegmentOf(rows))
      && SegmentOf(rows)[|SegmentOf(rows)| - 1] == rows[|rows| - 1]
      && (SegmentStart(rows, |rows| - 1) == 0 <==>
            forall s | s in samples && s.at <= now :: SegmentOf(rows)[0].at <= s.at)
  {
    hide IsLongestChain;
    hide AreRows;
    hide IsLatest;
    hide IsComparable;
    var rows, n := Rows(samples, now), |Rows(samples, now)| - 1;
    var from := SegmentStart(rows, n);
    RowsAreRows(samples, now);
    LastIsLatest(samples, now);
    StartIsLongest(rows, n);
    SuffixIsChain(samples, now, rows, from);
    SuffixByTime(samples, now, rows, from);
  }

  lemma RowsAreRows(samples: seq<Sample>, now: int)
    requires !HasRepeatedTime(Rows(samples, now))
    ensures AreRows(samples, now, Rows(samples, now))
  {
    hide Rows;
    hide HasRepeatedTime;
    hide IsSorted;
    RowsMeaning(samples, now);
  }

  lemma SuffixIsChain(samples: seq<Sample>, now: int, rows: seq<Sample>, from: nat)
    requires AreRows(samples, now, rows) && from < |rows| && IsLatest(samples, now, rows[|rows| - 1])
    requires IsComparable(rows, from) && (from > 0 ==> !IsComparable(rows, from - 1))
    ensures IsLongestChain(samples, now, rows[from..])
  {
    hide AreRows;
    hide IsLatest;
    hide IsChain;
    hide IsComparable;
    hide IsOutdone;
    hide Links;
    hide Follows;
    SuffixByTime(samples, now, rows, from);
    ComparableIsChain(samples, now, rows, from);
    StartIsPast(samples, now, rows, from);
    if from > 0 {
      BreakIsYoungest(samples, now, rows, from);
    }
    forall s | s in samples && s.at < rows[from].at
      ensures !Follows(s, rows[from], rows[|rows| - 1]) || IsOutdone(samples, s, rows[from].at)
    {
      LinksAreFollowing(s, rows[from], rows[|rows| - 1]);
    }
  }

  lemma StartIsLongest(rows: seq<Sample>, n: nat)
    requires |rows| == n + 1
    ensures var from := SegmentStart(rows, n);
      IsComparable(rows, from) && (from > 0 ==> !IsComparable(rows, from - 1))
  {
    hide Links;
    SegmentIsLongest(rows, n);
  }

  lemma StartIsPast(samples: seq<Sample>, now: int, rows: seq<Sample>, from: nat)
    requires AreRows(samples, now, rows) && from < |rows|
    ensures rows[from] in samples && rows[from].at <= now
  {
    hide IsSorted;
    assert rows[from] in rows;
  }

  lemma ComparableIsChain(samples: seq<Sample>, now: int, rows: seq<Sample>, from: nat)
    requires AreRows(samples, now, rows) && IsComparable(rows, from) && IsLatest(samples, now, rows[|rows| - 1])
    ensures IsChain(samples, now, rows[from..])
  {
    hide IsSorted;
    hide Links;
    hide Follows;
    hide IsLatest;
    hide HasRepeatedTime;
    var seg := rows[from..];
    forall i | 0 <= i < |seg| - 1
      ensures seg[i].at < seg[i + 1].at && Follows(seg[i], seg[i + 1], seg[|seg| - 1])
    {
      StrictAt(rows, from + i, from + i + 1);
      LinksAreFollowing(rows[from + i], rows[from + i + 1], rows[|rows| - 1]);
    }
    forall i | 0 <= i < |seg| ensures seg[i] in samples && seg[i].at <= now {
      assert rows[from + i] in rows;
    }
  }

  /** Where the walk stops, every older sample either does not follow or is not the youngest of the older ones. */
  lemma BreakIsYoungest(samples: seq<Sample>, now: int, rows: seq<Sample>, from: nat)
    requires AreRows(samples, now, rows) && 0 < from < |rows|
    requires IsComparable(rows, from) && !IsComparable(rows, from - 1)
    ensures forall s | s in samples && s.at < rows[from].at ::
      !Links(s, rows[from], rows[|rows| - 1]) || IsOutdone(samples, s, rows[from].at)
  {
    hide IsSorted;
    hide Links;
    hide HasRepeatedTime;
    StrictAt(rows, from - 1, from);
    assert rows[from] in rows && rows[from - 1] in rows;
    forall s | s in samples && s.at < rows[from].at
      ensures !Links(s, rows[from], rows[|rows| - 1]) || IsOutdone(samples, s, rows[from].at)
    {
      assert s in rows;
      var k :| 0 <= k < |rows| && rows[k] == s;
      if k == from - 1 {
        assert !Links(rows[from - 1], rows[from], rows[|rows| - 1]);
      } else if k < from - 1 {
        StrictAt(rows, k, from - 1);
      } else if k > from {
        StrictAt(rows, from, k);
      }
    }
  }

  // ---------------------------------------------------------------- rates

  /** Usage gained over the first n intervals, each discounted by the age of its end. */
  function AgedBurn(seg: seq<Sample>, n: nat, decay: Decay): real
    requires n < |seg|
  {
    if n == 0 then 0.0
    else AgedBurn(seg, n - 1, decay) + (seg[n].used - seg[n - 1].used) * decay(seg[|seg| - 1].at - seg[n].at)
  }

  /** Time passed over the first n intervals, discounted alike. */
  function AgedTime(seg: seq<Sample>, n: nat, decay: Decay): real
    requires n < |seg|
  {
    if n == 0 then 0.0
    else AgedTime(seg, n - 1, decay) + (seg[n].at - seg[n - 1].at) as real * decay(seg[|seg| - 1].at - seg[n].at)
  }

  /** Weighing slopes by discounted time is dividing discounted usage by discounted time. */
  lemma {:induction false} WeightedIsAged(seg: seq<Sample>, n: nat, decay: Decay)
    requires IsSegment(seg) && n < |seg|
    ensures Weighted(seg, n, seg[|seg| - 1].at, decay) == AgedBurn(seg, n, decay)
    ensures Weights(seg, n, seg[|seg| - 1].at, decay) == AgedTime(seg, n, decay)
  {
    hide Slope;
    hide Weight;
    if n > 0 {
      WeightedIsAged(seg, n - 1, decay);
      IntervalIsAged(seg, n, decay(seg[|seg| - 1].at - seg[n].at), decay);
    }
  }

  lemma IntervalIsAged(seg: seq<Sample>, n: nat, discount: real, decay: Decay)
    requires IsSegment(seg) && 0 < n < |seg| && discount == decay(seg[|seg| - 1].at - seg[n].at)
    ensures var weight := Weight(seg, n - 1, seg[|seg| - 1].at, decay);
      && weight == (seg[n].at - seg[n - 1].at) as real * discount
      && Slope(seg, n - 1) * weight == (seg[n].used - seg[n - 1].used) * discount
  {
    SlopeTimes(seg[n].used - seg[n - 1].used, (seg[n].at - seg[n - 1].at) as real, discount);
  }

  lemma SlopeTimes(gain: real, time: real, weight: real)
    requires time > 0.0
    ensures gain / time * (time * weight) == gain * weight
  {
    var slope := gain / time;
    assert slope * time == gain;
    assert slope * (time * weight) == slope * time * weight;
  }

  /** The rate over a window: the usage gained since it opens, if it reaches a minute back. */
  predicate IsWindow(x: Horizon, seg: seq<Sample>, seconds: int)
    requires IsSegment(seg)
  {
    var last := seg[|seg| - 1];
    && x.span == Min(seconds, last.at - seg[0].at)
    && (x.rate.Some? <==> x.span >= 60)
    && (x.rate.Some? ==> x.rate.value * x.span as real == last.used - UsageAt(seg, last.at - x.span))
  }

  /** Ten minutes, an hour, six hours, the whole chain, its discounted average, and 65 to 35 of the last two. */
  predicate AreRates(xs: seq<Horizon>, seg: seq<Sample>, decay: Decay)
    requires IsSegment(seg)
  {
    var last, span := seg[|seg| - 1], seg[|seg| - 1].at - seg[0].at;
    && |xs| == 6
    && IsWindow(xs[0], seg, 600) && IsWindow(xs[1], seg, 3600) && IsWindow(xs[2], seg, 21600)
    && (forall k | 3 <= k < 6 :: xs[k].span == span && xs[k].rate.Some?)
    && xs[3].rate.value * span as real == last.used - seg[0].used
    && xs[4].rate.value * AgedTime(seg, |seg| - 1, decay) == AgedBurn(seg, |seg| - 1, decay)
    && xs[5].rate.value == 0.65 * xs[4].rate.value + 0.35 * xs[3].rate.value
  }

  lemma WindowIsWindow(seg: seq<Sample>, seconds: int, remaining: Option<real>, resetIn: Option<int>)
    requires IsSegment(seg) && seconds >= 60
    ensures IsWindow(WindowHorizon(seg, seconds, remaining, resetIn), seg, seconds)
  {
    hide Burned;
    hide Elapsed;
    hide UsageAt;
    hide MakeHorizon;
    WindowMeaning(seg, seconds);
    var start := seg[|seg| - 1].at - seconds;
    var elapsed, burned := Elapsed(seg, start), Burned(seg, start);
    HorizonShows(WindowRate(seg, seconds), remaining, resetIn, elapsed);
    var x := WindowHorizon(seg, seconds, remaining, resetIn);
    assert x.rate == WindowRate(seg, seconds) && x.span == elapsed;
    if elapsed >= 60 {
      var time, rate := elapsed as real, burned / elapsed as real;
      QuotientTimes(burned, time);
      assert x.rate == Some(rate);
      assert x.rate.value * x.span as real == rate * time == burned;
    }
  }

  lemma HorizonShows(rate: Option<real>, remaining: Option<real>, resetIn: Option<int>, span: int)
    ensures var x := MakeHorizon(rate, remaining, resetIn, span); x.rate == rate && x.span == span
  {
  }

  lemma QuotientTimes(a: real, b: real)
    requires b > 0.0
    ensures a / b * b == a
  {
  }

  lemma HorizonsMeaning(seg: seq<Sample>, left: real, resetIn: Option<int>, decay: Decay)
    requires IsSegment(seg) && |seg| > 1 && Span(seg) > 0 && IsPositive(decay) && left >= 0.0
    ensures var xs := Horizons(seg, Some(left), resetIn, decay);
      AreRates(xs, seg, decay) && forall x | x in xs :: IsBalanced(x, left, resetIn)
  {
    hide IsWindow;
    hide MakeHorizon;
    hide IsBalanced;
    hide WindowRate;
    hide Weights;
    hide Weighted;
    hide AgedBurn;
    hide AgedTime;
    var n, end := |seg| - 1, seg[|seg| - 1].at;
    WindowIsWindow(seg, 600, Some(left), resetIn);
    WindowIsWindow(seg, 3600, Some(left), resetIn);
    WindowIsWindow(seg, 21600, Some(left), resetIn);
    QuotientTimes(seg[n].used - seg[0].used, Span(seg) as real);
    WeightedIsAged(seg, n, decay);
    WeightsArePositive(seg, n, end, decay);
    QuotientTimes(Weighted(seg, n, end, decay), Weights(seg, n, end, decay));
    var xs := Horizons(seg, Some(left), resetIn, decay);
    AllBalanced(xs, seg, left, resetIn, decay);
    HorizonIsBalanced(Some(Baseline(seg)), left, resetIn, Span(seg));
    HorizonIsBalanced(Some(Ewma(seg, decay)), left, resetIn, Span(seg));
    HorizonIsBalanced(Some(Blend(Ewma(seg, decay), Baseline(seg))), left, resetIn, Span(seg));
  }

  lemma AllBalanced(xs: seq<Horizon>, seg: seq<Sample>, left: real, resetIn: Option<int>, decay: Decay)
    requires IsSegment(seg) && |seg| > 1 && Span(seg) > 0 && IsPositive(decay) && left >= 0.0
    requires xs == Horizons(seg, Some(left), resetIn, decay)
    ensures forall x | x in xs :: IsBalanced(x, left, resetIn)
  {
    hide MakeHorizon;
    hide IsBalanced;
    hide WindowRate;
    hide Elapsed;
    var last := seg[|seg| - 1].at;
    HorizonIsBalanced(WindowRate(seg, 600), left, resetIn, Elapsed(seg, last - 600));
    HorizonIsBalanced(WindowRate(seg, 3600), left, resetIn, Elapsed(seg, last - 3600));
    HorizonIsBalanced(WindowRate(seg, 21600), left, resetIn, Elapsed(seg, last - 21600));
    HorizonIsBalanced(Some(Baseline(seg)), left, resetIn, Span(seg));
    HorizonIsBalanced(Some(Ewma(seg, decay)), left, resetIn, Span(seg));
    HorizonIsBalanced(Some(Blend(Ewma(seg, decay), Baseline(seg))), left, resetIn, Span(seg));
  }

  // ---------------------------------------------------------------- the runway

  /** What every answer shows of the latest sample. */
  predicate Shows(r: Runway, latest: Sample, now: int) {
    && r.stream == latest.stream && r.window == latest.window && r.used == latest.used
    && r.resetAt == latest.resetAt && r.observedAt == latest.at && r.asOf == now
    && r.remaining == (if latest.limit.Some? then Some(Left(latest)) else None)
  }

  /** Why no forecast is attempted of a latest sample that is not forecastable. */
  predicate IsReason(latest: Sample, now: int, note: Note) {
    match note
    case NotSubscription => latest.stream.meter != Subscription
    case ResetPassed => latest.stream.meter == Subscription && latest.resetAt.Some? && latest.resetAt.value <= now
    case TooOld =>
      && latest.stream.meter == Subscription && (latest.resetAt.Some? ==> latest.resetAt.value > now)
      && latest.at < now - 900
    case CapacityUnknown =>
      && latest.stream.meter == Subscription && (latest.resetAt.Some? ==> latest.resetAt.value > now)
      && latest.at >= now - 900 && latest.limit.None?
    case _ => false
  }

  /** The horizons of a chain long enough to carry any, against the time to the reset. */
  ghost predicate Foresees(r: Runway, seg: seq<Sample>, now: int, decay: Decay)
    requires IsSegment(seg)
  {
    var latest := seg[|seg| - 1];
    && latest.limit.Some?
    && AreRates(r.horizons, seg, decay)
    && forall x | x in r.horizons ::
         IsBalanced(x, Left(latest), if latest.resetAt.Some? then Some(latest.resetAt.value - now) else None)
  }

  ghost predicate HasOlder(samples: seq<Sample>, at: int) {
    exists s :: s in samples && s.at < at
  }

  /** The notes and the confidence say what the chain was like. */
  ghost predicate IsAnnotated(r: Runway, samples: seq<Sample>, seg: seq<Sample>, now: int)
    requires seg != []
  {
    var latest, span := seg[|seg| - 1], seg[|seg| - 1].at - seg[0].at;
    && Assumptions in r.notes
    && (BaselineEnded in r.notes <==> HasOlder(samples, seg[0].at))
    && (TooFewSamples in r.notes <==> r.horizons == [])
    && (NoBurn in r.notes <==> r.horizons != [] && latest.used == seg[0].used)
    && (LastObserved in r.notes <==> r.horizons != [] && latest.at < now)
    && (r.confidence.Insufficient? <==> r.horizons == [])
    && (r.confidence.Moderate? <==> |seg| >= 6 && span >= 3600)
  }

  /**
   * A runway rests on the longest chain of samples up to the latest one. It shows that sample and what is
   * left of its allowance; if the sample is forecastable and the chain spans a minute it has six horizons,
   * whose rates come from the chain and whose capacities from what is left, and otherwise none.
   */
  lemma RunwayMeaning(samples: seq<Sample>, now: int, decay: Decay) returns (latest: Sample, seg: seq<Sample>)
    requires IsPositive(decay) && Forecasted(samples, now, decay).Ok?
    ensures var r := Forecasted(samples, now, decay).value;
      && IsLatest(samples, now, latest) && Shows(r, latest, now)
      && (if IsForecastable(latest, now) then
            && IsLongestChain(samples, now, seg) && seg[|seg| - 1] == latest && IsSegment(seg)
            && (r.horizons == [] <==> latest.at - seg[0].at < 60)
            && (r.horizons != [] ==> Foresees(r, seg, now, decay))
            && IsAnnotated(r, samples, seg, now)
          else
            && r.horizons == [] && r.confidence.Insufficient?
            && |r.notes| == 2 && r.notes[0] == Assumptions && IsReason(latest, now, r.notes[1]))
  {
    hide Rows;
    hide SegmentOf;
    hide FromSegment;
    hide IsLongestChain;
    hide IsLatest;
    hide IsValid;
    hide HasRepeatedTime;
    hide SegmentStart;
    var rows := Rows(samples, now);
    latest, seg := rows[|rows| - 1], [];
    LastIsLatest(samples, now);
    ShownPlainly(latest, now);
    ReasonMeaning(latest, now);
    if IsForecastable(latest, now) {
      SegmentIsOrdered(samples, now);
      SegmentIsChain(samples, now);
      RowsMeaning(samples, now);
      seg := SegmentOf(rows);
      SegmentForesees(samples, seg, SegmentStart(rows, |rows| - 1) == 0, now, decay);
    }
  }

  lemma ShownPlainly(latest: Sample, now: int)
    ensures forall horizons, confidence, notes ::
      Shows(Plain(latest, now).(horizons := horizons, confidence := confidence, notes := notes), latest, now)
  {
  }

  lemma ReasonMeaning(latest: Sample, now: int)
    ensures IsForecastable(latest, now) <==> Withheld(latest, now).None?
    ensures Withheld(latest, now).Some? ==> IsReason(latest, now, Withheld(latest, now).value)
  {
  }

  lemma SegmentForesees(samples: seq<Sample>, seg: seq<Sample>, whole: bool, now: int, decay: Decay)
    requires IsSegment(seg) && IsPositive(decay) && IsForecastable(seg[|seg| - 1], now) && seg[|seg| - 1].at <= now
    requires whole <==> forall s | s in samples && s.at <= now :: seg[0].at <= s.at
    ensures var r, latest := FromSegment(seg, whole, now, decay), seg[|seg| - 1];
      && Shows(r, latest, now) && (r.horizons == [] <==> latest.at - seg[0].at < 60)
      && (r.horizons != [] ==> Foresees(r, seg, now, decay))
      && IsAnnotated(r, samples, seg, now)
  {
    hide Horizons;
    hide AreRates;
    hide IsBalanced;
    hide Baseline;
    hide IsAnnotated;
    var latest := seg[|seg| - 1];
    TimesIncrease(seg);
    if |seg| >= 2 && Span(seg) >= SHORTEST {
      var resetIn := if latest.resetAt.Some? then Some(latest.resetAt.value - now) else None;
      HorizonsMeaning(seg, Left(latest), resetIn, decay);
      SixHorizons(seg, Some(Left(latest)), resetIn, decay);
    }
    SegmentIsAnnotated(samples, seg, whole, now, decay);
  }

  lemma SegmentIsAnnotated(samples: seq<Sample>, seg: seq<Sample>, whole: bool, now: int, decay: Decay)
    requires IsSegment(seg) && IsPositive(decay) && seg[|seg| - 1].at <= now
    requires whole <==> forall s | s in samples && s.at <= now :: seg[0].at <= s.at
    ensures IsAnnotated(FromSegment(seg, whole, now, decay), samples, seg, now)
  {
    hide Baseline;
    hide FromSegment;
    hide HasOlder;
    TimesIncrease(seg);
    OlderIsOutside(samples, seg[0].at, now, whole);
    AnnotationsOf(seg, whole, now, decay);
    if Span(seg) > 0 {
      NoBurnMeaning(seg);
    }
  }

  lemma OlderIsOutside(samples: seq<Sample>, at: int, now: int, whole: bool)
    requires whole <==> forall s | s in samples && s.at <= now :: at <= s.at
    requires at <= now
    ensures whole <==> !HasOlder(samples, at)
  {
  }

  lemma AnnotationsOf(seg: seq<Sample>, whole: bool, now: int, decay: Decay)
    requires IsSegment(seg) && IsPositive(decay)
    ensures var r, ended := FromSegment(seg, whole, now, decay), if whole then [] else [BaselineEnded];
      if |seg| < 2 || Span(seg) < 60 then
        r.notes == [Assumptions] + ended + [TooFewSamples] && r.horizons == [] && r.confidence == Insufficient
      else
        && r.notes == [Assumptions] + ended + (if Baseline(seg) == 0.0 then [NoBurn] else [])
                        + (if seg[|seg| - 1].at < now then [LastObserved] else [])
        && r.horizons != [] && r.confidence == (if |seg| >= 6 && Span(seg) >= 3600 then Moderate else Low)
  {
    hide Horizons;
    if |seg| >= 2 && Span(seg) >= SHORTEST {
      var resetIn := if seg[|seg| - 1].resetAt.Some? then Some(seg[|seg| - 1].resetAt.value - now) else None;
      SixHorizons(seg, Plain(seg[|seg| - 1], now).remaining, resetIn, decay);
    }
  }

  lemma NoBurnMeaning(seg: seq<Sample>)
    requires seg != [] && Span(seg) > 0
    ensures Baseline(seg) == 0.0 <==> seg[|seg| - 1].used == seg[0].used
  {
    QuotientTimes(seg[|seg| - 1].used - seg[0].used, Span(seg) as real);
  }

  // ---------------------------------------------------------------- refusals

  /** A sample whose times and amounts are in range. */
  predicate IsSound(s: Sample) {
    && 0 <= s.at <= 253_402_300_799
    && (s.resetAt.Some? ==> 0 <= s.resetAt.value <= 253_402_300_799)
    && 0.0 <= s.used <= 1000000000000000.0
    && (s.limit.Some? ==> 0.0 < s.limit.value <= 1000000000000000.0)
  }

  /** Two samples that are not in the future were taken at one time. */
  ghost predicate RepeatsTime(samples: seq<Sample>, now: int) {
    exists s, t :: Shares(samples, now, s, t)
  }

  ghost predicate Shares(samples: seq<Sample>, now: int, s: Sample, t: Sample) {
    s in samples && t in samples && s.at == t.at <= now && (s == t ==> multiset(samples)[s] >= 2)
  }

  /** The checks that come before the samples are looked at in order. */
  predicate IsReadable(samples: seq<Sample>, now: int) {
    && 0 <= now <= 253_402_300_799 && 1 <= |samples| <= 10000
    && forall s | s in samples :: IsSound(s)
  }

  /**
   * Every refusal, in order: the time, the number of samples, an unsound one, none from the past, several
   * streams, and a repeated time where a forecast would be attempted.
   */
  lemma RefusalMeaning(samples: seq<Sample>, now: int, decay: Decay)
    requires IsPositive(decay)
    ensures var r := Forecasted(samples, now, decay);
      && (r == Err(InvalidTime) <==> !(0 <= now <= 253_402_300_799))
      && (r == Err(SampleCount) <==> 0 <= now <= 253_402_300_799 && !(1 <= |samples| <= 10000))
      && (r == Err(InvalidSample) <==>
            0 <= now <= 253_402_300_799 && 1 <= |samples| <= 10000 && exists s :: s in samples && !IsSound(s))
      && (r == Err(NoNonfutureSample) <==> IsReadable(samples, now) && forall s | s in samples :: s.at > now)
      && (r == Err(MixedStreams) <==>
            && IsReadable(samples, now)
            && exists s, t :: s in samples && t in samples && s.at <= now && t.at <= now && s.stream != t.stream)
      && (r == Err(DuplicateSampleTime) ==>
            RepeatsTime(samples, now) && exists s :: IsLatest(samples, now, s) && IsForecastable(s, now))
      && (r.Ok? && RepeatsTime(samples, now) ==>
            exists s :: IsLatest(samples, now, s) && !IsForecastable(s, now))
  {
    hide Rows;
    hide IsForecastable;
    hide FromSegment;
    hide SegmentOf;
    hide Withheld;
    hide IsLatest;
    hide RepeatsTime;
    hide HasRepeatedTime;
    var rows := Rows(samples, now);
    forall s ensures IsValid(s) <==> IsSound(s) {
    }
    hide IsValid;
    hide IsSound;
    MixedEitherWay(samples, now);
    RepeatIsShared(samples, now);
    if rows != [] {
      LastIsLatest(samples, now);
      ReasonMeaning(rows[|rows| - 1], now);
    }
  }

  lemma RepeatIsShared(samples: seq<Sample>, now: int)
    ensures HasRepeatedTime(Rows(samples, now)) <==> RepeatsTime(samples, now)
  {
    hide IsSorted;
    hide Shares;
    hide HasRepeatedTime;
    var rows := Rows(samples, now);
    RowsMeaning(samples, now);
    hide Rows;
    hide UpTo;
    if HasRepeatedTime(rows) {
      RepeatedShares(samples, now);
    }
    if s, t :| Shares(samples, now, s, t) {
      RowIsCounted(samples, now, s);
      SharedRepeats(samples, now, rows, s, t);
    }
  }

  lemma RowIsCounted(samples: seq<Sample>, now: int, s: Sample)
    ensures s.at <= now ==> multiset(Rows(samples, now))[s] == multiset(samples)[s]
  {
    hide Rows;
    hide UpTo;
    hide IsSorted;
    RowsMeaning(samples, now);
    UpToIsCounted(samples, now);
  }

  lemma RepeatedShares(samples: seq<Sample>, now: int)
    requires HasRepeatedTime(Rows(samples, now))
    ensures exists s, t :: Shares(samples, now, s, t)
  {
    var rows := Rows(samples, now);
    RowsMeaning(samples, now);
    hide Rows;
    hide UpTo;
    hide IsSorted;
    var i :| 0 <= i < |rows| - 1 && rows[i].at == rows[i + 1].at;
    assert rows[i] in rows && rows[i + 1] in rows;
    RowIsCounted(samples, now, rows[i]);
    if rows[i] == rows[i + 1] {
      TwiceInSequence(rows, i, i + 1);
    }
    assert Shares(samples, now, rows[i], rows[i + 1]);
  }

  lemma SharedRepeats(samples: seq<Sample>, now: int, rows: seq<Sample>, s: Sample, t: Sample)
    requires Shares(samples, now, s, t) && IsSorted(rows, Earlier)
    requires forall x :: x in rows <==> x in samples && x.at <= now
    requires s.at <= now ==> multiset(rows)[s] == multiset(samples)[s]
    ensures HasRepeatedTime(rows)
  {
    hide IsSorted;
    if s == t {
      TwiceMeansTwo(rows, s);
      var i, j :| 0 <= i < j < |rows| && rows[i] == s && rows[j] == s;
      PositionsRepeat(rows, i, j);
    } else {
      assert s in rows && t in rows;
      var i :| 0 <= i < |rows| && rows[i] == s;
      var j :| 0 <= j < |rows| && rows[j] == t;
      if i < j {
        PositionsRepeat(rows, i, j);
      } else {
        PositionsRepeat(rows, j, i);
      }
    }
  }

  lemma PositionsRepeat(rows: seq<Sample>, i: nat, j: nat)
    requires IsSorted(rows, Earlier) && i < j < |rows| && rows[i].at == rows[j].at
    ensures HasRepeatedTime(rows)
  {
    hide IsSorted;
    SortedAt(rows, Earlier, i, i + 1);
    if i + 1 < j {
      SortedAt(rows, Earlier, i + 1, j);
    }
    assert rows[i].at == rows[i + 1].at;
  }
}
