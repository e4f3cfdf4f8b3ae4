/**
 * Quota runway: the longest comparable run of samples, burn rates over windows of it, and what they
 * say about exhaustion before the next reset. Floating-point numbers are exact reals here.
 */
module Forecast {
  import opened Prelude
  import opened Control
  import opened Ordering

  datatype Meter = Context | Subscription | Dollars

  /** What must agree before samples may be mixed at all. */
  datatype Stream = Stream(provider: string, account: string, bucket: string, meter: Meter, measure: string)

  datatype Sample = Sample(
    stream: Stream, window: string, resetAt: Option<int>, limit: Option<real>, used: real, at: int)

  datatype Fault = InvalidTime | SampleCount | InvalidSample | NoNonfutureSample | MixedStreams | DuplicateSampleTime

  const LARGEST: real := 1000000000000000.0
  const GAP: int := 21600
  const STALE_AFTER: int := 900
  const SHORTEST: int := 60

  /** The numeric part of sample validation. */
  predicate IsValid(s: Sample) {
    && IsTimestamp(s.at) && (s.resetAt.Some? ==> IsTimestamp(s.resetAt.value))
    && 0.0 <= s.used <= LARGEST
    && (s.limit.Some? ==> 0.0 < s.limit.value <= LARGEST)
  }

  predicate SameStream(a: Sample, b: Sample) {
    a.stream == b.stream && a.window == b.window && a.resetAt == b.resetAt && a.limit == b.limit
  }

  // ---------------------------------------------------------------- horizons

  datatype Horizon = Horizon(
    span: int, rate: Option<real>, exhaustion: Option<real>, beforeReset: Option<bool>,
    capacity: Option<real>, headroom: Option<real>, shortfall: Option<real>)

  function FiniteRatio(numerator: real, denominator: real): Option<real> {
    if denominator <= 0.0 then None else Some(numerator / denominator)
  }

  function RealMax(a: real, b: real): real {
    if a >= b then a else b
  }

  function MakeHorizon(rate: Option<real>, remaining: Option<real>, resetIn: Option<int>, span: int): Horizon {
    var eta :=
      if remaining.Some? && remaining.value <= 0.0 then Some(0.0)
      else if remaining.Some? && rate.Some? && rate.value > 0.0 then FiniteRatio(remaining.value, rate.value)
      else None;
    var both := eta.Some? && resetIn.Some?;
    Horizon(
      span,
      rate,
      if both && eta.value >= resetIn.value as real then None else eta,
      if both then Some(eta.value < Max(resetIn.value, 0) as real) else None,
      eta,
      if both then Some(RealMax(eta.value - resetIn.value as real, 0.0)) else None,
      if both then Some(RealMax(resetIn.value as real - eta.value, 0.0)) else None)
  }

  /**
   * The capacity is the time the rest lasts at the rate. Against a reset, time to exhaustion plus
   * shortfall is time to reset plus headroom with at most one of the two positive, and exhaustion is
   * predicted exactly when it comes before the reset.
   */
  lemma HorizonBalances(rate: Option<real>, remaining: Option<real>, resetIn: Option<int>, span: int)
    ensures var h := MakeHorizon(rate, remaining, resetIn, span);
      && (h.capacity.Some? <==> remaining.Some? && (remaining.value <= 0.0 || (rate.Some? && rate.value > 0.0)))
      && (h.capacity.Some? && remaining.value > 0.0 ==> h.capacity.value * rate.value == remaining.value)
      && (h.headroom.Some? <==> h.capacity.Some? && resetIn.Some?)
      && (h.shortfall.Some? <==> h.headroom.Some?) && (h.beforeReset.Some? <==> h.headroom.Some?)
    ensures var h := MakeHorizon(rate, remaining, resetIn, span);
      h.headroom.Some? ==>
        && h.capacity.value + h.shortfall.value == resetIn.value as real + h.headroom.value
        && h.headroom.value >= 0.0 && h.shortfall.value >= 0.0
        && (h.headroom.value == 0.0 || h.shortfall.value == 0.0)
        && (h.exhaustion.Some? <==> h.shortfall.value > 0.0)
        && h.beforeReset == Some(h.exhaustion.Some?)
    ensures var h := MakeHorizon(rate, remaining, resetIn, span);
      h.exhaustion.Some? ==> h.exhaustion == h.capacity && h.exhaustion.value >= 0.0
  {
    var h := MakeHorizon(rate, remaining, resetIn, span);
    if h.capacity.Some? && remaining.value > 0.0 {
      RatioIsPositive(remaining.value, rate.value);
    }
  }

  lemma RatioIsPositive(a: real, b: real)
    requires a > 0.0 && b > 0.0
    ensures a / b > 0.0 && (a / b) * b == a
  {
  }

  // ---------------------------------------------------------------- the comparable segment

  /** Whether the walk back from the latest sample steps from `newer` to `older`. */
  predicate Links(older: Sample, newer: Sample, latest: Sample) {
    SameStream(older, latest) && older.used <= newer.used && newer.at - older.at <= GAP
  }

  /** Where the walk back from the last row stops. */
  function SegmentStart(rows: seq<Sample>, i: nat): (r: nat)
    requires i < |rows|
    ensures r <= i
  {
    if i == 0 || !Links(rows[i - 1], rows[i], rows[|rows| - 1]) then i else SegmentStart(rows, i - 1)
  }

  function SegmentOf(rows: seq<Sample>): seq<Sample>
    requires rows != []
  {
    rows[SegmentStart(rows, |rows| - 1)..]
  }

  predicate IsComparable(rows: seq<Sample>, from: nat) {
    && from < |rows|
    && forall j | from <= j < |rows| - 1 :: Links(rows[j], rows[j + 1], rows[|rows| - 1])
  }

  /** The segment is the longest comparable suffix. */
  lemma {:induction false} SegmentIsLongest(rows: seq<Sample>, i: nat)
    requires i < |rows| && IsComparable(rows, i)
    ensures forall from: nat | from <= i :: IsComparable(rows, from) <==> SegmentStart(rows, i) <= from
  {
    hide Links;
    if i > 0 {
      if Links(rows[i - 1], rows[i], rows[|rows| - 1]) {
        SegmentIsLongest(rows, i - 1);
      }
    }
  }

  // ---------------------------------------------------------------- burn over a window

  /** A segment with strictly increasing times and non-decreasing usage. */
  predicate IsSegment(seg: seq<Sample>) {
    && seg != []
    && forall i | 0 <= i < |seg| - 1 :: seg[i].at < seg[i + 1].at && seg[i].used <= seg[i + 1].used
  }

  function Overlap(a: Sample, b: Sample, start: int): int {
    Max(b.at - Max(a.at, start), 0)
  }

  /** The part of an increase `d` over a time `w` that falls into a time `x`. */
  function Portion(d: real, x: int, w: int): real
    requires w > 0
  {
    d * x as real / w as real
  }

  function Share(a: Sample, b: Sample, start: int): real
    requires a.at < b.at
  {
    if Overlap(a, b, start) > 0 then Portion(b.used - a.used, Overlap(a, b, start), b.at - a.at) else 0.0
  }

  function Burned(seg: seq<Sample>, start: int): real
    requires IsSegment(seg)
  {
    if |seg| == 1 then 0.0
    else Burned(seg[..|seg| - 1], start) + Share(seg[|seg| - 2], seg[|seg| - 1], start)
  }

  function Elapsed(seg: seq<Sample>, start: int): int {
    if |seg| <= 1 then 0
    else Elapsed(seg[..|seg| - 1], start) + Overlap(seg[|seg| - 2], seg[|seg| - 1], start)
  }

  /** Usage between samples, on the straight line through the neighbours. */
  function UsageAt(seg: seq<Sample>, t: int): real
    requires IsSegment(seg)
  {
    if |seg| == 1 then seg[0].used
    else
      var a, b := seg[|seg| - 2], seg[|seg| - 1];
      if t >= b.at then b.used
      else if t >= a.at then a.used + Portion(b.used - a.used, t - a.at, b.at - a.at)
      else UsageAt(seg[..|seg| - 1], t)
  }

  lemma {:induction false} TimesIncrease(seg: seq<Sample>)
    requires IsSegment(seg)
    ensures seg[0].at <= seg[|seg| - 1].at && seg[0].used <= seg[|seg| - 1].used
    ensures |seg| > 1 ==> seg[0].at < seg[|seg| - 1].at
  {
    if |seg| > 1 {
      TimesIncrease(seg[..|seg| - 1]);
    }
  }

  lemma {:induction false} NothingBefore(seg: seq<Sample>, start: int)
    requires IsSegment(seg) && start >= seg[|seg| - 1].at
    ensures Burned(seg, start) == 0.0 && Elapsed(seg, start) == 0
  {
    if |seg| > 1 {
      NothingBefore(seg[..|seg| - 1], start);
    }
  }

  /** The sums over the pairs telescope: usage now less the interpolated usage where the window opens. */
  lemma {:induction false} BurnTelescopes(seg: seq<Sample>, start: int)
    requires IsSegment(seg) && start <= seg[|seg| - 1].at
    ensures Elapsed(seg, start) == seg[|seg| - 1].at - Max(start, seg[0].at)
    ensures Burned(seg, start) == seg[|seg| - 1].used - UsageAt(seg, Max(start, seg[0].at))
  {
    hide Portion;
    TimesIncrease(seg);
    if |seg| > 1 {
      var front, a, b := seg[..|seg| - 1], seg[|seg| - 2], seg[|seg| - 1];
      TimesIncrease(front);
      Portions(b.used - a.used, b.at - start, b.at - a.at);
      if start < a.at {
        BurnTelescopes(front, start);
        Portions(b.used - a.used, b.at - a.at, b.at - a.at);
      } else {
        NothingBefore(front, start);
      }
    }
  }

  lemma Portions(d: real, x: int, w: int)
    requires w > 0
    ensures Portion(d, w, w) == d && Portion(d, 0, w) == 0.0
    ensures Portion(d, x, w) + Portion(d, w - x, w) == d
  {
    var p, q, u := x as real, (w - x) as real, w as real;
    assert p + q == u;
    assert d * p + d * q == d * u;
    assert d * p / u + d * q / u == (d * p + d * q) / u;
    WholeShare(d, u);
  }

  lemma WholeShare(d: real, w: real)
    requires w > 0.0
    ensures d * w / w == d
  {
  }

  /** A window looks back over its own length or the whole span, whichever is shorter. */
  lemma WindowMeaning(seg: seq<Sample>, seconds: int)
    requires IsSegment(seg) && seconds > 0
    ensures var last := seg[|seg| - 1];
      var elapsed := Elapsed(seg, last.at - seconds);
      && elapsed == Min(seconds, last.at - seg[0].at)
      && Burned(seg, last.at - seconds) == last.used - UsageAt(seg, last.at - elapsed)
  {
    BurnTelescopes(seg, seg[|seg| - 1].at - seconds);
  }

  // ---------------------------------------------------------------- rates are averages

  function Slope(seg: seq<Sample>, i: nat): real
    requires IsSegment(seg) && i < |seg| - 1
  {
    (seg[i + 1].used - seg[i].used) / (seg[i + 1].at - seg[i].at) as real
  }

  ghost predicate SlopesWithin(seg: seq<Sample>, lo: real, hi: real)
    requires IsSegment(seg)
  {
    forall i: nat | i < |seg| - 1 :: lo <= Slope(seg, i) <= hi
  }

  /** How a rate decays with the age of its interval; any positive weight will do. */
  type Decay = int -> real

  ghost predicate IsPositive(decay: Decay) {
    forall age :: decay(age) > 0.0
  }

  function Weight(seg: seq<Sample>, i: nat, end: int, decay: Decay): real
    requires i < |seg| - 1
  {
    (seg[i + 1].at - seg[i].at) as real * decay(end - seg[i + 1].at)
  }

  function Weights(seg: seq<Sample>, n: nat, end: int, decay: Decay): real
    requires n < |seg|
  {
    if n == 0 then 0.0 else Weights(seg, n - 1, end, decay) + Weight(seg, n - 1, end, decay)
  }

  function Weighted(seg: seq<Sample>, n: nat, end: int, decay: Decay): real
    requires IsSegment(seg) && n < |seg|
  {
    if n == 0 then 0.0
    else Weighted(seg, n - 1, end, decay) + Slope(seg, n - 1) * Weight(seg, n - 1, end, decay)
  }

  lemma {:induction false} WeightedIsBetween(seg: seq<Sample>, n: nat, end: int, decay: Decay, lo: real, hi: real)
    requires IsSegment(seg) && n < |seg| && IsPositive(decay) && SlopesWithin(seg, lo, hi)
    ensures n > 0 ==> Weights(seg, n, end, decay) > 0.0
    ensures lo * Weights(seg, n, end, decay) <= Weighted(seg, n, end, decay) <= hi * Weights(seg, n, end, decay)
  {
    hide Slope;
    if n > 0 {
      WeightedIsBetween(seg, n - 1, end, decay, lo, hi);
      var w := Weight(seg, n - 1, end, decay);
      assert w > 0.0 by {
        ProductIsPositive((seg[n].at - seg[n - 1].at) as real, decay(end - seg[n].at));
      }
      Scaled(lo, Slope(seg, n - 1), w);
      Scaled(Slope(seg, n - 1), hi, w);
      var before := Weights(seg, n - 1, end, decay);
      assert lo * (before + w) == lo * before + lo * w && hi * (before + w) == hi * before + hi * w;
    }
  }

  lemma ProductIsPositive(a: real, b: real)
    requires a > 0.0 && b > 0.0
    ensures a * b > 0.0
  {
  }

  lemma Scaled(a: real, b: real, w: real)
    requires a <= b && w >= 0.0
    ensures a * w <= b * w
  {
  }

  lemma Quotient(lo: real, x: real, hi: real, w: real)
    requires w > 0.0 && lo * w <= x <= hi * w
    ensures lo <= x / w <= hi
  {
    var q := x / w;
    assert q * w == x;
    Cancelled(lo, q, w);
    Cancelled(q, hi, w);
  }

  lemma Cancelled(a: real, b: real, w: real)
    requires w > 0.0 && a * w <= b * w
    ensures a <= b
  {
  }

  /** An amount gathered over a time at a rate between two bounds. */
  predicate RateWithin(lo: real, amount: real, hi: real, time: int) {
    lo * time as real <= amount <= hi * time as real
  }

  /** Burn over any window is the window's length times something between the slopes. */
  lemma {:induction false} BurnIsBetween(seg: seq<Sample>, start: int, lo: real, hi: real)
    requires IsSegment(seg) && SlopesWithin(seg, lo, hi)
    ensures RateWithin(lo, Burned(seg, start), hi, Elapsed(seg, start))
  {
    hide RateWithin;
    hide Share;
    hide Slope;
    NoTime(lo, hi);
    if |seg| > 1 {
      var front, a, b := seg[..|seg| - 1], seg[|seg| - 2], seg[|seg| - 1];
      forall i: nat | i < |front| - 1 ensures lo <= Slope(front, i) <= hi {
        SlopeOfFront(seg, i);
      }
      BurnIsBetween(front, start, lo, hi);
      ShareIsBetween(seg, start, lo, hi);
      TimesAdd(lo, hi, Burned(front, start), Elapsed(front, start), Share(a, b, start), Overlap(a, b, start));
    }
  }

  lemma SlopeOfFront(seg: seq<Sample>, i: nat)
    requires IsSegment(seg) && i < |seg| - 2
    ensures Slope(seg[..|seg| - 1], i) == Slope(seg, i)
  {
  }

  lemma NoTime(lo: real, hi: real)
    ensures RateWithin(lo, 0.0, hi, 0)
  {
  }

  lemma ShareIsBetween(seg: seq<Sample>, start: int, lo: real, hi: real)
    requires IsSegment(seg) && |seg| > 1 && SlopesWithin(seg, lo, hi)
    ensures var a, b := seg[|seg| - 2], seg[|seg| - 1];
      RateWithin(lo, Share(a, b, start), hi, Overlap(a, b, start))
  {
    var a, b := seg[|seg| - 2], seg[|seg| - 1];
    var slope, o := Slope(seg, |seg| - 2), Overlap(a, b, start);
    assert lo <= slope <= hi;
    if o > 0 {
      PortionIsSlope(b.used - a.used, o, b.at - a.at);
      hide Portion;
      assert Share(a, b, start) == slope * o as real;
      Scaled(lo, slope, o as real);
      Scaled(slope, hi, o as real);
    } else {
      NoTime(lo, hi);
    }
  }

  lemma TimesAdd(lo: real, hi: real, x: real, e: int, y: real, o: int)
    requires RateWithin(lo, x, hi, e) && RateWithin(lo, y, hi, o)
    ensures RateWithin(lo, x + y, hi, e + o)
  {
    var r, s := e as real, o as real;
    assert lo * (r + s) == lo * r + lo * s && hi * (r + s) == hi * r + hi * s;
  }

  lemma PortionIsSlope(d: real, x: int, w: int)
    requires w > 0
    ensures Portion(d, x, w) == (d / w as real) * x as real
  {
    Reordered(d, x as real, w as real);
  }

  lemma Reordered(d: real, o: real, w: real)
    requires w > 0.0
    ensures d * o / w == (d / w) * o
  {
    var q := d / w;
    assert q * w == d;
    assert d * o == (q * o) * w;
    WholeShare(q * o, w);
  }

  // ---------------------------------------------------------------- the forecast

  datatype Confidence = Insufficient | Low | Moderate

  datatype Note =
    | Assumptions | NotSubscription | ResetPassed | TooOld | CapacityUnknown | BaselineEnded | TooFewSamples
    | NoBurn | LastObserved

  datatype Runway = Runway(
    stream: Stream, window: string, remaining: Option<real>, used: real, resetAt: Option<int>,
    observedAt: int, asOf: int,
    horizons: seq<Horizon>, confidence: Confidence, notes: seq<Note>)

  function Earlier(a: Sample, b: Sample): bool {
    a.at <= b.at
  }

  function UpTo(samples: seq<Sample>, now: int): seq<Sample> {
    if samples == [] then []
    else
      var last := samples[|samples| - 1];
      UpTo(samples[..|samples| - 1], now) + (if last.at <= now then [last] else [])
  }

  function Rows(samples: seq<Sample>, now: int): seq<Sample> {
    Sort(UpTo(samples, now), Earlier)
  }

  predicate HasRepeatedTime(rows: seq<Sample>) {
    exists i | 0 <= i < |rows| - 1 :: rows[i].at == rows[i + 1].at
  }

  /** Rows in time order without repetition make the walked-back segment a segment. */
  lemma SegmentIsOrdered(samples: seq<Sample>, now: int)
    requires var rows := Rows(samples, now); rows != [] && !HasRepeatedTime(rows)
    ensures IsSegment(SegmentOf(Rows(samples, now)))
  {
    hide Sort;
    hide IsSorted;
    var rows := Rows(samples, now);
    assert IsTotalPreorder(Earlier);
    SortMeaning(UpTo(samples, now), Earlier);
    SegmentIsLongest(rows, |rows| - 1);
    var from := SegmentStart(rows, |rows| - 1);
    assert IsComparable(rows, from);
    var seg := SegmentOf(rows);
    forall i | 0 <= i < |seg| - 1 ensures seg[i].at < seg[i + 1].at && seg[i].used <= seg[i + 1].used {
      SortedAt(rows, Earlier, from + i, from + i + 1);
      assert Links(rows[from + i], rows[from + i + 1], rows[|rows| - 1]);
    }
  }

  lemma {:induction false} WeightsArePositive(seg: seq<Sample>, n: nat, end: int, decay: Decay)
    requires IsSegment(seg) && n < |seg| && IsPositive(decay)
    ensures n > 0 ==> Weights(seg, n, end, decay) > 0.0
  {
    if n > 0 {
      WeightsArePositive(seg, n - 1, end, decay);
      ProductIsPositive((seg[n].at - seg[n - 1].at) as real, decay(end - seg[n].at));
    }
  }

  function Span(seg: seq<Sample>): int
    requires seg != []
  {
    seg[|seg| - 1].at - seg[0].at
  }

  function WindowRate(seg: seq<Sample>, seconds: int): Option<real>
    requires IsSegment(seg)
  {
    var start := seg[|seg| - 1].at - seconds;
    var elapsed := Elapsed(seg, start);
    if elapsed >= SHORTEST then Some(Burned(seg, start) / elapsed as real) else None
  }

  function Baseline(seg: seq<Sample>): real
    requires seg != [] && Span(seg) > 0
  {
    (seg[|seg| - 1].used - seg[0].used) / Span(seg) as real
  }

  /** The average of the slopes, recent intervals weighing more. */
  function Ewma(seg: seq<Sample>, decay: Decay): real
    requires IsSegment(seg) && |seg| > 1 && IsPositive(decay)
  {
    var end := seg[|seg| - 1].at;
    WeightsArePositive(seg, |seg| - 1, end, decay);
    Weighted(seg, |seg| - 1, end, decay) / Weights(seg, |seg| - 1, end, decay)
  }

  function Blend(ewma: real, baseline: real): real {
    0.65 * ewma + 0.35 * baseline
  }

  function WindowHorizon(seg: seq<Sample>, seconds: int, remaining: Option<real>, resetIn: Option<int>): Horizon
    requires IsSegment(seg)
  {
    MakeHorizon(
      WindowRate(seg, seconds), remaining, resetIn, Elapsed(seg, seg[|seg| - 1].at - seconds))
  }

  function Horizons(seg: seq<Sample>, remaining: Option<real>, resetIn: Option<int>, decay: Decay): seq<Horizon>
    requires IsSegment(seg) && |seg| > 1 && Span(seg) > 0 && IsPositive(decay)
  {
    var baseline, ewma := Baseline(seg), Ewma(seg, decay);
    [ WindowHorizon(seg, 600, remaining, resetIn),
      WindowHorizon(seg, 3600, remaining, resetIn),
      WindowHorizon(seg, 21600, remaining, resetIn),
      MakeHorizon(Some(baseline), remaining, resetIn, Span(seg)),
      MakeHorizon(Some(ewma), remaining, resetIn, Span(seg)),
      MakeHorizon(Some(Blend(ewma, baseline)), remaining, resetIn, Span(seg))]
  }

  function Plain(latest: Sample, now: int): Runway {
    Runway(
      latest.stream, latest.window,
      if latest.limit.Some? then Some(RealMax(latest.limit.value - latest.used, 0.0)) else None,
      latest.used, latest.resetAt, latest.at, now, [], Insufficient, [Assumptions])
  }

  /** Why a forecast is withheld, if it is. */
  function Withheld(latest: Sample, now: int): Option<Note> {
    if latest.stream.meter != Subscription then Some(NotSubscription)
    else if latest.resetAt.Some? && latest.resetAt.value <= now then Some(ResetPassed)
    else if now - latest.at > STALE_AFTER then Some(TooOld)
    else if latest.limit.None? then Some(CapacityUnknown)
    else None
  }

  function FromSegment(seg: seq<Sample>, whole: bool, now: int, decay: Decay): Runway
    requires IsSegment(seg) && IsPositive(decay)
  {
    var latest := seg[|seg| - 1];
    var plain := Plain(latest, now);
    var notes := plain.notes + (if whole then [] else [BaselineEnded]);
    if |seg| < 2 || Span(seg) < SHORTEST then plain.(notes := notes + [TooFewSamples])
    else
      var resetIn := if latest.resetAt.Some? then Some(latest.resetAt.value - now) else None;
      plain.(
        horizons := Horizons(seg, plain.remaining, resetIn, decay),
        confidence := if |seg| >= 6 && Span(seg) >= 3600 then Moderate else Low,
        notes := notes + (if Baseline(seg) == 0.0 then [NoBurn] else [])
                       + (if latest.at < now then [LastObserved] else []))
  }

  function Forecasted(samples: seq<Sample>, now: int, decay: Decay): Result<Runway, Fault>
    requires IsPositive(decay)
  {
    if !IsTimestamp(now) then Err(InvalidTime)
    else if samples == [] || |samples| > 10000 then Err(SampleCount)
    else if exists s | s in samples :: !IsValid(s) then Err(InvalidSample)
    else
      var rows := Rows(samples, now);
      if rows == [] then Err(NoNonfutureSample)
      else
        var latest := rows[|rows| - 1];
        if exists s | s in rows :: s.stream != latest.stream then Err(MixedStreams)
        else
          match Withheld(latest, now)
          case Some(note) => Ok(Plain(latest, now).(notes := [Assumptions, note]))
          case None =>
            if HasRepeatedTime(rows) then Err(DuplicateSampleTime)
            else
              SegmentIsOrdered(samples, now);
              Ok(FromSegment(SegmentOf(rows), SegmentStart(rows, |rows| - 1) == 0, now, decay))
  }

  /** Every rate of a forecast lies between the smallest and the largest slope of the segment. */
  lemma RatesAreAverages(
    seg: seq<Sample>, remaining: Option<real>, resetIn: Option<int>, decay: Decay, lo: real, hi: real, k: nat)
    requires IsSegment(seg) && |seg| > 1 && Span(seg) > 0 && IsPositive(decay) && SlopesWithin(seg, lo, hi)
    requires k < 6
    ensures var rate := Horizons(seg, remaining, resetIn, decay)[k].rate;
      rate.Some? ==> lo <= rate.value <= hi
    ensures k >= 3 ==> Horizons(seg, remaining, resetIn, decay)[k].rate.Some?
  {
    hide Weights;
    hide Weighted;
    hide SlopesWithin;
    hide Burned;
    hide Elapsed;
    var end := seg[|seg| - 1].at;
    WindowIsBetween(seg, 600, lo, hi);
    WindowIsBetween(seg, 3600, lo, hi);
    WindowIsBetween(seg, 21600, lo, hi);
    BaselineIsBetween(seg, lo, hi);
    EwmaIsBetween(seg, decay, lo, hi);
  }

  lemma EwmaIsBetween(seg: seq<Sample>, decay: Decay, lo: real, hi: real)
    requires IsSegment(seg) && |seg| > 1 && IsPositive(decay) && SlopesWithin(seg, lo, hi)
    ensures lo <= Ewma(seg, decay) <= hi
  {
    hide Weights;
    hide Weighted;
    var n, end := |seg| - 1, seg[|seg| - 1].at;
    WeightedIsBetween(seg, n, end, decay, lo, hi);
    Quotient(lo, Weighted(seg, n, end, decay), hi, Weights(seg, n, end, decay));
  }

  lemma WindowIsBetween(seg: seq<Sample>, seconds: int, lo: real, hi: real)
    requires IsSegment(seg) && SlopesWithin(seg, lo, hi)
    ensures var rate := WindowRate(seg, seconds); rate.Some? ==> lo <= rate.value <= hi
  {
    hide Burned;
    hide Elapsed;
    var start := seg[|seg| - 1].at - seconds;
    BurnIsBetween(seg, start, lo, hi);
    if Elapsed(seg, start) >= SHORTEST {
      Quotient(lo, Burned(seg, start), hi, Elapsed(seg, start) as real);
    }
  }

  lemma BaselineIsBetween(seg: seq<Sample>, lo: real, hi: real)
    requires IsSegment(seg) && SlopesWithin(seg, lo, hi) && Span(seg) > 0
    ensures lo <= Baseline(seg) <= hi
  {
    hide Burned;
    hide Elapsed;
    BurnTelescopes(seg, seg[0].at);
    BurnIsBetween(seg, seg[0].at, lo, hi);
    UsageAtStart(seg);
    Quotient(lo, seg[|seg| - 1].used - seg[0].used, hi, Span(seg) as real);
  }

  lemma {:induction false} UsageAtStart(seg: seq<Sample>)
    requires IsSegment(seg)
    ensures UsageAt(seg, seg[0].at) == seg[0].used
  {
    TimesIncrease(seg);
    if |seg| > 1 {
      UsageAtStart(seg[..|seg| - 1]);
      TimesIncrease(seg[..|seg| - 1]);
      hide Portion;
      if seg[0].at >= seg[|seg| - 2].at {
        assert |seg| == 2;
        Portions(seg[1].used - seg[0].used, 0, seg[1].at - seg[0].at);
      }
    }
  }

  /** No forecast rate is negative. */
  lemma RatesAreNotNegative(samples: seq<Sample>, now: int, decay: Decay, k: nat)
    requires IsPositive(decay) && Forecasted(samples, now, decay).Ok?
    requires k < |Forecasted(samples, now, decay).value.horizons|
    ensures |Forecasted(samples, now, decay).value.horizons| == 6
    ensures var rate := Forecasted(samples, now, decay).value.horizons[k].rate; rate.Some? ==> rate.value >= 0.0
  {
    hide Rows;
    hide Horizons;
    hide HasRepeatedTime;
    hide SegmentOf;
    hide Baseline;
    var rows := Rows(samples, now);
    SegmentIsOrdered(samples, now);
    var seg := SegmentOf(rows);
    var latest := seg[|seg| - 1];
    var resetIn := if latest.resetAt.Some? then Some(latest.resetAt.value - now) else None;
    var remaining := Plain(latest, now).remaining;
    SixHorizons(seg, remaining, resetIn, decay);
    var top := SlopesHaveBounds(seg, |seg| - 1);
    RatesAreAverages(seg, remaining, resetIn, decay, 0.0, top, k);
  }

  lemma SixHorizons(seg: seq<Sample>, remaining: Option<real>, resetIn: Option<int>, decay: Decay)
    requires IsSegment(seg) && |seg| > 1 && Span(seg) > 0 && IsPositive(decay)
    ensures |Horizons(seg, remaining, resetIn, decay)| == 6
  {
  }

  lemma {:induction false} SlopesHaveBounds(seg: seq<Sample>, n: nat) returns (top: real)
    requires IsSegment(seg) && n < |seg|
    ensures forall i: nat | i < n :: 0.0 <= Slope(seg, i) <= top
  {
    top := 0.0;
    if n > 0 {
      top := SlopesHaveBounds(seg, n - 1);
      SlopeNotNegative(seg, n - 1);
      top := RealMax(top, Slope(seg, n - 1));
    }
  }

  lemma SlopeNotNegative(seg: seq<Sample>, i: nat)
    requires IsSegment(seg) && i < |seg| - 1
    ensures Slope(seg, i) >= 0.0
  {
    var d, w := seg[i + 1].used - seg[i].used, (seg[i + 1].at - seg[i].at) as real;
    assert (d / w) * w == d;
    Cancelled(0.0, d / w, w);
  }

  /** The sample is one of the latest that are not in the future. */
  predicate IsLatest(samples: seq<Sample>, now: int, s: Sample) {
    s in samples && s.at <= now && forall t | t in samples && t.at <= now :: t.at <= s.at
  }

  /** What is answered when the latest time is shared and this sample comes last. */
  function TieAnswer(s: Sample, now: int): Result<Runway, Fault> {
    match Withheld(s, now)
    case Some(note) => Ok(Plain(s, now).(notes := [Assumptions, note]))
    case None => Err(DuplicateSampleTime)
  }

  /** A current sample of a subscription with a known limit, of which a forecast is attempted. */
  predicate IsForecastable(s: Sample, now: int) {
    && s.stream.meter == Subscription && s.limit.Some?
    && (s.resetAt.Some? ==> s.resetAt.value > now)
    && now - s.at <= STALE_AFTER
  }

  /** Two samples that show the same usage, the same reset and the same allowance left. */
  predicate LookAlike(s: Sample, t: Sample) {
    && s.window == t.window && s.resetAt == t.resetAt && s.used == t.used
    && (s.limit == t.limit
        || (s.limit.Some? && t.limit.Some? && s.limit.value <= s.used && t.limit.value <= t.used))
  }

  /** Of two samples taken at the same time either may stand last. */
  predicate AreInterchangeable(s: Sample, t: Sample, now: int) {
    if IsForecastable(s, now) then IsForecastable(t, now) else !IsForecastable(t, now) && LookAlike(s, t)
  }

  lemma TieMeaning(s: Sample, t: Sample, now: int)
    requires s.stream == t.stream && s.at == t.at
    ensures TieAnswer(s, now) == TieAnswer(t, now) <==> AreInterchangeable(s, t, now)
  {
    assert IsForecastable(s, now) <==> Withheld(s, now).None?;
    assert IsForecastable(t, now) <==> Withheld(t, now).None?;
    if !IsForecastable(s, now) && !IsForecastable(t, now) {
      assert LookAlike(s, t) <==>
        Plain(s, now).(notes := []) == Plain(t, now).(notes := []);
    }
  }

  lemma RowsMeaning(samples: seq<Sample>, now: int)
    ensures IsSorted(Rows(samples, now), Earlier)
    ensures multiset(Rows(samples, now)) == multiset(UpTo(samples, now))
    ensures forall s :: s in Rows(samples, now) <==> s in samples && s.at <= now
  {
    hide Sort;
    hide UpTo;
    hide IsSorted;
    UpToIsCounted(samples, now);
    assert IsTotalPreorder(Earlier);
    SortMeaning(UpTo(samples, now), Earlier);
    forall s ensures s in Rows(samples, now) <==> s in samples && s.at <= now {
      assert s in Rows(samples, now) <==> s in multiset(Rows(samples, now));
      assert s in samples <==> s in multiset(samples);
    }
  }

  lemma LastIsLatest(samples: seq<Sample>, now: int)
    requires Rows(samples, now) != []
    ensures IsLatest(samples, now, Rows(samples, now)[|Rows(samples, now)| - 1])
  {
    hide Rows;
    hide IsSorted;
    RowsMeaning(samples, now);
    var rows := Rows(samples, now);
    forall t | t in samples && t.at <= now ensures t.at <= rows[|rows| - 1].at {
      assert t in rows;
      var i :| 0 <= i < |rows| && rows[i] == t;
      if i < |rows| - 1 {
        SortedAt(rows, Earlier, i, |rows| - 1);
      }
    }
  }

  lemma RepeatsAreOrderFree(p: seq<Sample>, q: seq<Sample>)
    requires multiset(p) == multiset(q) && IsSorted(q, Earlier) && HasRepeatedTime(p)
    ensures HasRepeatedTime(q)
  {
    hide IsSorted;
    var i :| 0 <= i < |p| - 1 && p[i].at == p[i + 1].at;
    var x, y := TwoPlaces(p, q, i, i + 1);
    assert q[x].at == q[y].at by {
      assert q[x] in {p[i], p[i + 1]} && q[y] in {p[i], p[i + 1]};
    }
    SortedAt(q, Earlier, x, x + 1);
    if x + 1 < y {
      SortedAt(q, Earlier, x + 1, y);
    }
    assert q[x].at == q[x + 1].at;
  }

  lemma NoRepeatNoTie(p: seq<Sample>, s: Sample, t: Sample)
    requires IsSorted(p, Earlier) && !HasRepeatedTime(p) && s in p && t in p && s.at == t.at
    ensures s == t
  {
    hide IsSorted;
    var i :| 0 <= i < |p| && p[i] == s;
    var j :| 0 <= j < |p| && p[j] == t;
    if i < j {
      StrictAt(p, i, j);
    } else if j < i {
      StrictAt(p, j, i);
    }
  }

  lemma StrictAt(p: seq<Sample>, i: nat, j: nat)
    requires IsSorted(p, Earlier) && !HasRepeatedTime(p) && i < j < |p|
    ensures p[i].at < p[j].at
  {
    hide IsSorted;
    SortedAt(p, Earlier, i, i + 1);
    if i + 1 < j {
      SortedAt(p, Earlier, i + 1, j);
    }
  }

  lemma RowsAgree(a: seq<Sample>, b: seq<Sample>, now: int)
    requires multiset(a) == multiset(b) && !HasRepeatedTime(Rows(a, now))
    ensures Rows(a, now) == Rows(b, now)
  {
    hide Rows;
    hide IsSorted;
    hide UpTo;
    hide HasRepeatedTime;
    SameRows(a, b, now);
    var p, q := Rows(a, now), Rows(b, now);
    RowsMeaning(a, now);
    RowsMeaning(b, now);
    forall s, t | s in p && t in p && Earlier(s, t) && Earlier(t, s) ensures s == t {
      NoRepeatNoTie(p, s, t);
    }
    SortedIsUnique(p, q, Earlier);
  }

  lemma SameRows(a: seq<Sample>, b: seq<Sample>, now: int)
    requires multiset(a) == multiset(b)
    ensures multiset(Rows(a, now)) == multiset(Rows(b, now))
  {
    hide Rows;
    hide UpTo;
    hide IsSorted;
    RowsMeaning(a, now);
    RowsMeaning(b, now);
    UpToIsCounted(a, now);
    UpToIsCounted(b, now);
    assert multiset(UpTo(a, now)) == multiset(UpTo(b, now));
  }

  /** The checks before the forecast proper, none of which looks at the order. */
  predicate IsAdmitted(samples: seq<Sample>, now: int) {
    && IsTimestamp(now) && 0 < |samples| <= 10000
    && (forall s | s in samples :: IsValid(s))
    && (exists s | s in samples :: s.at <= now)
    && (forall s, t | s in samples && t in samples && s.at <= now && t.at <= now :: s.stream == t.stream)
  }

  /** With a repeated time the answer is the one the last of the latest samples decides. */
  lemma RepeatedTimeAnswer(samples: seq<Sample>, now: int, decay: Decay)
    requires IsPositive(decay) && IsAdmitted(samples, now) && HasRepeatedTime(Rows(samples, now))
    ensures var rows := Rows(samples, now);
      rows != [] && Forecasted(samples, now, decay) == TieAnswer(rows[|rows| - 1], now)
  {
    hide Rows;
    hide Withheld;
    hide IsValid;
    hide Plain;
    RowsMeaning(samples, now);
    var s :| s in samples && s.at <= now;
    assert s in Rows(samples, now);
  }

  lemma AdmissionIsOrderFree(a: seq<Sample>, b: seq<Sample>, now: int, decay: Decay)
    requires IsPositive(decay) && multiset(a) == multiset(b)
    ensures IsAdmitted(a, now) <==> IsAdmitted(b, now)
    ensures !IsAdmitted(a, now) ==> Forecasted(a, now, decay) == Forecasted(b, now, decay)
  {
    hide IsValid;
    hide Withheld;
    hide FromSegment;
    hide SegmentOf;
    hide HasRepeatedTime;
    hide Rows;
    PermutedMembers(a, b);
    RowsMeaning(a, now);
    RowsMeaning(b, now);
    if !IsAdmitted(a, now) {
      MixedEitherWay(a, now);
      MixedEitherWay(b, now);
    }
  }

  lemma MixedEitherWay(samples: seq<Sample>, now: int)
    ensures var rows := Rows(samples, now);
      && (rows == [] <==> !exists s | s in samples :: s.at <= now)
      && (rows != [] ==>
            ((exists s | s in rows :: s.stream != rows[|rows| - 1].stream) <==>
             !(forall s, t | s in samples && t in samples && s.at <= now && t.at <= now :: s.stream == t.stream)))
  {
    hide Rows;
    RowsMeaning(samples, now);
    var rows := Rows(samples, now);
    if s :| s in samples && s.at <= now {
      assert s in rows;
    }
    if rows != [] {
      assert rows[|rows| - 1] in rows;
    }
  }

  /**
   * The order in which samples are given matters for nothing but which of the latest samples comes last,
   * and not for that either when those are all forecastable or all look alike and are not.
   */
  lemma SampleOrderIsIrrelevant(a: seq<Sample>, b: seq<Sample>, now: int, decay: Decay)
    requires IsPositive(decay) && multiset(a) == multiset(b)
    requires IsAdmitted(a, now) ==>
               forall s, t | IsLatest(a, now, s) && IsLatest(a, now, t) :: AreInterchangeable(s, t, now)
    ensures Forecasted(a, now, decay) == Forecasted(b, now, decay)
  {
    hide Rows;
    hide FromSegment;
    hide SegmentOf;
    hide TieAnswer;
    hide IsAdmitted;
    hide HasRepeatedTime;
    hide IsSorted;
    hide IsPositive;
    hide Withheld;
    hide IsValid;
    AdmissionIsOrderFree(a, b, now, decay);
    if IsAdmitted(a, now) {
      SameRows(a, b, now);
      RowsMeaning(a, now);
      RowsMeaning(b, now);
      PermutedMembers(a, b);
      if HasRepeatedTime(Rows(a, now)) {
        RepeatsAreOrderFree(Rows(a, now), Rows(b, now));
        RepeatedTimeAnswer(a, now, decay);
        RepeatedTimeAnswer(b, now, decay);
        LastIsLatest(a, now);
        LastIsLatest(b, now);
        LatestTie(a, Rows(a, now)[|Rows(a, now)| - 1], Rows(b, now)[|Rows(b, now)| - 1], now);
      } else {
        if HasRepeatedTime(Rows(b, now)) {
          RepeatsAreOrderFree(Rows(b, now), Rows(a, now));
        }
        RowsAgree(a, b, now);
        SameRowsSameForecast(a, b, now, decay);
      }
    }
  }

  lemma SameRowsSameForecast(a: seq<Sample>, b: seq<Sample>, now: int, decay: Decay)
    requires IsPositive(decay) && IsAdmitted(a, now) && IsAdmitted(b, now)
    requires Rows(a, now) == Rows(b, now)
    ensures Forecasted(a, now, decay) == Forecasted(b, now, decay)
  {
    hide Rows;
    hide FromSegment;
    hide SegmentOf;
    hide HasRepeatedTime;
    hide Withheld;
    hide IsValid;
  }

  /** Moving one of the latest samples to the end makes it the one that decides. */
  lemma LastLatestDecides(front: seq<Sample>, s: Sample, now: int)
    requires IsLatest(front + [s], now, s)
    ensures var rows := Rows(front + [s], now); rows != [] && rows[|rows| - 1] == s
  {
    hide IsSorted;
    var all := front + [s];
    assert all[..|front|] == front;
    assert UpTo(all, now) == UpTo(front, now) + [s];
    var before := UpTo(front, now);
    assert (before + [s])[..|before|] == before;
    RowsMeaning(front, now);
    var sorted := Rows(front, now);
    if sorted != [] {
      assert sorted[|sorted| - 1] in sorted;
      assert sorted[|sorted| - 1] in front;
      assert sorted[|sorted| - 1] in all;
    }
  }

  lemma LatestTie(samples: seq<Sample>, s: Sample, t: Sample, now: int)
    requires IsAdmitted(samples, now) && IsLatest(samples, now, s) && IsLatest(samples, now, t)
    ensures TieAnswer(s, now) == TieAnswer(t, now) <==> AreInterchangeable(s, t, now)
  {
    hide TieAnswer;
    hide AreInterchangeable;
    TieMeaning(s, t, now);
  }

  /** Two latest samples that may not stand for each other are told apart by the order alone. */
  lemma DifferingTiesMatter(samples: seq<Sample>, now: int, decay: Decay, s: Sample, t: Sample)
    requires IsPositive(decay) && IsAdmitted(samples, now)
    requires IsLatest(samples, now, s) && IsLatest(samples, now, t)
    requires !AreInterchangeable(s, t, now)
    ensures exists a, b ::
      && multiset(a) == multiset(samples) && multiset(b) == multiset(samples)
      && Forecasted(a, now, decay) != Forecasted(b, now, decay)
  {
    hide TieAnswer;
    hide Forecasted;
    hide IsAdmitted;
    hide IsLatest;
    LatestTie(samples, s, t, now);
    var a := MovedLast(samples, s, t, now, decay);
    var b := MovedLast(samples, t, s, now, decay);
  }

  lemma MovedLast(samples: seq<Sample>, s: Sample, t: Sample, now: int, decay: Decay) returns (a: seq<Sample>)
    requires IsPositive(decay) && IsAdmitted(samples, now) && s != t
    requires IsLatest(samples, now, s) && IsLatest(samples, now, t)
    ensures multiset(a) == multiset(samples) && Forecasted(a, now, decay) == TieAnswer(s, now)
  {
    hide Rows;
    hide TieAnswer;
    hide IsAdmitted;
    hide HasRepeatedTime;
    hide IsSorted;
    hide Forecasted;
    var i :| 0 <= i < |samples| && samples[i] == s;
    a := samples[..i] + samples[i + 1..] + [s];
    assert samples == samples[..i] + [s] + samples[i + 1..];
    assert multiset(a) == multiset(samples);
    PermutedMembers(a, samples);
    AdmissionIsOrderFree(samples, a, now, decay);
    LastLatestDecides(samples[..i] + samples[i + 1..], s, now);
    TieRepeats(a, s, t, now);
    RepeatedTimeAnswer(a, now, decay);
  }

  lemma TieRepeats(samples: seq<Sample>, s: Sample, t: Sample, now: int)
    requires s != t && IsLatest(samples, now, s) && IsLatest(samples, now, t)
    ensures HasRepeatedTime(Rows(samples, now))
  {
    hide Rows;
    hide IsSorted;
    RowsMeaning(samples, now);
    assert s in Rows(samples, now) && t in Rows(samples, now);
    if !HasRepeatedTime(Rows(samples, now)) {
      NoRepeatNoTie(Rows(samples, now), s, t);
    }
  }

  lemma {:induction false} UpToIsCounted(samples: seq<Sample>, now: int)
    ensures forall s :: multiset(UpTo(samples, now))[s] == if s.at <= now then multiset(samples)[s] else 0
  {
    if samples != [] {
      var front, last := samples[..|samples| - 1], samples[|samples| - 1];
      UpToIsCounted(front, now);
      assert samples == front + [last];
    }
  }

  // ---------------------------------------------------------------- the loops

  /** Walks back from the latest row while the rows stay comparable. */
  method WalkBack(rows: seq<Sample>) returns (segment: seq<Sample>, whole: bool)
    requires rows != []
    ensures segment == SegmentOf(rows) && (whole <==> SegmentStart(rows, |rows| - 1) == 0)
  {
    var latest := rows[|rows| - 1];
    segment := [latest];
    whole := true;
    var i := |rows| - 1;
    while i > 0
      invariant 0 <= i < |rows| && whole
      invariant segment == rows[i..]
      invariant SegmentStart(rows, i) == SegmentStart(rows, |rows| - 1)
    {
      var newer := segment[0];
      if !Links(rows[i - 1], newer, latest) {
        whole := false;
        break;
      }
      segment := [rows[i - 1]] + segment;
      i := i - 1;
    }
  }

  /** Burn and elapsed time of the window that opens at `start`. */
  method MeasureWindow(seg: seq<Sample>, start: int) returns (burned: real, elapsed: int)
    requires IsSegment(seg)
    ensures burned == Burned(seg, start) && elapsed == Elapsed(seg, start)
  {
    hide Portion;
    burned, elapsed := 0.0, 0;
    var i := 0;
    while i < |seg| - 1
      invariant 0 <= i < |seg|
      invariant burned == Burned(seg[..i + 1], start) && elapsed == Elapsed(seg[..i + 1], start)
    {
      var overlap := Max(seg[i + 1].at - Max(seg[i].at, start), 0);
      assert seg[..i + 2][..i + 1] == seg[..i + 1];
      if overlap > 0 {
        burned := burned + Portion(seg[i + 1].used - seg[i].used, overlap, seg[i + 1].at - seg[i].at);
        elapsed := elapsed + overlap;
      }
      i := i + 1;
    }
    assert seg[..i + 1] == seg;
  }

  method AverageSlope(seg: seq<Sample>, decay: Decay) returns (ewma: real)
    requires IsSegment(seg) && |seg| > 1 && IsPositive(decay)
    ensures ewma == Ewma(seg, decay)
  {
    var end := seg[|seg| - 1].at;
    var weights, weighted := 0.0, 0.0;
    var i := 0;
    while i < |seg| - 1
      invariant 0 <= i < |seg|
      invariant weights == Weights(seg, i, end, decay) && weighted == Weighted(seg, i, end, decay)
    {
      var dt := (seg[i + 1].at - seg[i].at) as real;
      var weight := dt * decay(end - seg[i + 1].at);
      weighted := weighted + ((seg[i + 1].used - seg[i].used) / dt) * weight;
      weights := weights + weight;
      i := i + 1;
    }
    WeightsArePositive(seg, |seg| - 1, end, decay);
    ewma := weighted / weights;
  }

  method ForecastSegment(seg: seq<Sample>, whole: bool, now: int, decay: Decay) returns (r: Runway)
    requires IsSegment(seg) && IsPositive(decay)
    ensures r == FromSegment(seg, whole, now, decay)
  {
    hide Burned;
    hide Elapsed;
    hide Weighted;
    hide Weights;
    hide MakeHorizon;
    var latest := seg[|seg| - 1];
    r := Plain(latest, now);
    if !whole {
      r := r.(notes := r.notes + [BaselineEnded]);
    }
    var span := latest.at - seg[0].at;
    if |seg| < 2 || span < SHORTEST {
      r := r.(notes := r.notes + [TooFewSamples]);
      return;
    }
    var resetIn := if latest.resetAt.Some? then Some(latest.resetAt.value - now) else None;
    var windows := [600, 3600, 21600];
    var i := 0;
    var horizons: seq<Horizon> := [];
    while i < 3
      invariant 0 <= i <= 3 && |horizons| == i
      invariant forall j | 0 <= j < i :: horizons[j] == WindowHorizon(seg, windows[j], r.remaining, resetIn)
    {
      var burned, elapsed := MeasureWindow(seg, latest.at - windows[i]);
      var rate := if elapsed >= SHORTEST then Some(burned / elapsed as real) else None;
      horizons := horizons + [MakeHorizon(rate, r.remaining, resetIn, elapsed)];
      i := i + 1;
    }
    var baseline := (latest.used - seg[0].used) / span as real;
    var ewma := AverageSlope(seg, decay);
    horizons := horizons + [
      MakeHorizon(Some(baseline), r.remaining, resetIn, span),
      MakeHorizon(Some(ewma), r.remaining, resetIn, span),
      MakeHorizon(Some(0.65 * ewma + 0.35 * baseline), r.remaining, resetIn, span)];
    assert horizons == Horizons(seg, r.remaining, resetIn, decay);
    r := r.(horizons := horizons, confidence := if |seg| >= 6 && span >= 3600 then Moderate else Low);
    if baseline == 0.0 {
      r := r.(notes := r.notes + [NoBurn]);
    }
    if latest.at < now {
      r := r.(notes := r.notes + [LastObserved]);
    }
  }

  method Forecast(samples: seq<Sample>, now: int, decay: Decay) returns (r: Result<Runway, Fault>)
    requires IsPositive(decay)
    ensures r == Forecasted(samples, now, decay)
  {
    hide Rows;
    hide FromSegment;
    hide Withheld;
    hide HasRepeatedTime;
    hide IsValid;
    if !IsTimestamp(now) {
      return Err(InvalidTime);
    }
    if samples == [] || |samples| > 10000 {
      return Err(SampleCount);
    }
    if exists s | s in samples :: !IsValid(s) {
      return Err(InvalidSample);
    }
    var rows := Rows(samples, now);
    if rows == [] {
      return Err(NoNonfutureSample);
    }
    var latest := rows[|rows| - 1];
    if exists s | s in rows :: s.stream != latest.stream {
      return Err(MixedStreams);
    }
    var note := Withheld(latest, now);
    if note.Some? {
      return Ok(Plain(latest, now).(notes := [Assumptions, note.value]));
    }
    if HasRepeatedTime(rows) {
      return Err(DuplicateSampleTime);
    }
    SegmentIsOrdered(samples, now);
    var segment, whole := WalkBack(rows);
    var runway := ForecastSegment(segment, whole, now, decay);
    return Ok(runway);
  }
}
