/**
 * The two track interpolators of Landmarks.java, `getPoint2` (policy A) and `getPoint`
 * (policy B). Each is specified by a function on the values of the track (`PolicyA`,
 * `PolicyB`) and implemented by a method that scans the track's `Point` objects as the
 * source does.
 */
module Interpolation {
  import opened Tracks

  /** Sample times never decrease along the track. */
  ghost predicate Sorted(s: seq<Sample>)
  {
    forall i, j :: 0 <= i <= j < |s| ==> s[i].time <= s[j].time
  }

  function Min(a: real, b: real): real { if a <= b then a else b }
  function Max(a: real, b: real): real { if a <= b then b else a }

  /** The linear blend both interpolators use: `a` moved the fraction `f` of the way to `b`. */
  function Lerp(a: real, b: real, f: real): real
  {
    a + f * (b - a)
  }

  /** The product of two non-negative reals is non-negative. */
  lemma MulNonNegative(x: real, y: real)
    requires x >= 0.0 && y >= 0.0
    ensures x * y >= 0.0
  {
  }

  /** A blend with a fraction in [0, 1] lies between its two end values. */
  lemma LerpBetween(a: real, b: real, f: real)
    requires 0.0 <= f <= 1.0
    ensures Min(a, b) <= Lerp(a, b, f) <= Max(a, b)
  {
    if a <= b {
      MulNonNegative(f, b - a);
      MulNonNegative(1.0 - f, b - a);
    } else {
      MulNonNegative(f, a - b);
      MulNonNegative(1.0 - f, a - b);
    }
  }

  /** How far `t` lies from `t0` towards `t1`, as a fraction of the span. */
  function Fraction(t: int, t0: int, t1: int): real
    requires t0 != t1
  {
    (t - t0) as real / (t1 - t0) as real
  }

  /** A time between the two ends of a span gives a fraction in [0, 1]. */
  lemma FractionInUnit(t: int, t0: int, t1: int)
    requires t0 < t1 && t0 <= t <= t1
    ensures 0.0 <= Fraction(t, t0, t1) <= 1.0
  {
    var f := Fraction(t, t0, t1);
    assert f * (t1 - t0) as real == (t - t0) as real;
  }

  // ---------------------------------------------------------------------------
  // Policy A: getPoint2
  // ---------------------------------------------------------------------------

  /** Where the scan of `getPoint2` stops: an exact match, a bracketing pair, or the end. */
  datatype ScanA = Hit(index: nat) | Bracket(index: nat) | Exhausted

  /**
   * The scan of `getPoint2` from index `i`: at each index the current sample is `s[i]` and the
   * previous one `s[i - 1]` (at index 0 both are `s[0]`, so only the exact match can fire).
   */
  function ScanFromA(s: seq<Sample>, t: int, i: nat): (o: ScanA)
    requires i <= |s|
    ensures o.Hit? ==> i <= o.index < |s| && s[o.index].time == t
    ensures o.Bracket? ==> 0 < o.index && i <= o.index < |s| && s[o.index - 1].time <= t < s[o.index].time
    decreases |s| - i
  {
    if i == |s| then Exhausted
    else if s[i].time == t then Hit(i)
    else if 0 < i && s[i - 1].time <= t <= s[i].time then Bracket(i)
    else ScanFromA(s, t, i + 1)
  }

  /** The scan of `getPoint2` stops at index `j`. */
  ghost predicate StopsA(s: seq<Sample>, t: int, j: int)
    requires 0 <= j < |s|
  {
    s[j].time == t || (0 < j && s[j - 1].time <= t <= s[j].time)
  }

  /**
   * The scan stops at the FIRST index where the current sample matches `t` exactly or where `t`
   * lies between the previous and the current sample, and is exhausted when there is none.
   */
  lemma {:induction false} ScanFromAFirstStop(s: seq<Sample>, t: int, i: nat)
    requires i <= |s|
    requires 0 < i ==> s[i - 1].time != t
    ensures match ScanFromA(s, t, i)
      case Hit(k) =>
        i <= k < |s| && s[k].time == t && forall j :: i <= j < k ==> !StopsA(s, t, j)
      case Bracket(k) =>
        0 < k && i <= k < |s| && s[k - 1].time < t < s[k].time && forall j :: i <= j < k ==> !StopsA(s, t, j)
      case Exhausted =>
        forall j :: i <= j < |s| ==> !StopsA(s, t, j)
    decreases |s| - i
  {
    if i < |s| && !StopsA(s, t, i) {
      ScanFromAFirstStop(s, t, i + 1);
    }
  }

  /** The result of policy A, as a pure function of the track's values and the query time. */
  function PolicyA(s: seq<Sample>, t: int): (r: Sample)
    requires |s| > 0
    ensures r.time == t
  {
    match ScanFromA(s, t, 0)
    case Hit(k) => s[k]
    case Bracket(k) => BlendA(s[k - 1], s[k], t)
    case Exhausted => s[|s| - 1].(time := t)
  }

  /** A point at time `t` on the straight line from `previous` to `current` (lines 203-210). */
  function BlendA(previous: Sample, current: Sample, t: int): Sample
    requires previous.time != current.time
  {
    var time := Fraction(t, previous.time, current.time);
    Sample(Lerp(previous.lat, current.lat, time), Lerp(previous.lon, current.lon, time), t)
  }

  /**
   * On a sorted track, a sample whose time equals `t` and that is the first such sample is
   * returned itself (line 201).
   */
  lemma PolicyAExact(s: seq<Sample>, t: int, k: nat)
    requires Sorted(s) && k < |s| && s[k].time == t
    requires forall j :: 0 <= j < k ==> s[j].time != t
    ensures ScanFromA(s, t, 0) == Hit(k)
    ensures PolicyA(s, t) == s[k]
  {
    ScanFromAFirstStop(s, t, 0);
    assert StopsA(s, t, k);
  }

  /**
   * Whenever the scan stops at a bracketing pair, the previous time is strictly below `t` and
   * the current one strictly above (so the division at line 205 has a positive divisor), and the
   * result is the linear blend of the pair at time `t`, each coordinate between the pair's.
   */
  lemma PolicyABracket(s: seq<Sample>, t: int)
    requires |s| > 0 && ScanFromA(s, t, 0).Bracket?
    ensures var k := ScanFromA(s, t, 0).index;
      var prev, cur, r := s[k - 1], s[k], PolicyA(s, t);
      var f := Fraction(t, prev.time, cur.time);
      && prev.time < t < cur.time
      && r.time == t
      && r.lat == prev.lat + f * (cur.lat - prev.lat)
      && r.lon == prev.lon + f * (cur.lon - prev.lon)
      && Min(prev.lat, cur.lat) <= r.lat <= Max(prev.lat, cur.lat)
      && Min(prev.lon, cur.lon) <= r.lon <= Max(prev.lon, cur.lon)
  {
    ScanFromAFirstStop(s, t, 0);
    var k := ScanFromA(s, t, 0).index;
    var f := Fraction(t, s[k - 1].time, s[k].time);
    FractionInUnit(t, s[k - 1].time, s[k].time);
    LerpBetween(s[k - 1].lat, s[k].lat, f);
    LerpBetween(s[k - 1].lon, s[k].lon, f);
  }

  /** On a sorted track, a time strictly inside two consecutive samples is bracketed by them. */
  lemma PolicyASortedBracket(s: seq<Sample>, t: int, k: nat)
    requires Sorted(s) && 0 < k < |s| && s[k - 1].time < t < s[k].time
    ensures ScanFromA(s, t, 0) == Bracket(k)
    ensures PolicyA(s, t) == BlendA(s[k - 1], s[k], t)
  {
    ScanFromAFirstStop(s, t, 0);
    assert StopsA(s, t, k);
  }

  /**
   * On a sorted track the scan finds neither a match nor a bracket exactly when `t` lies before
   * the first sample or after the last one; then the result is the last sample with its time
   * replaced by `t` (lines 215-217).
   */
  lemma PolicyAFallback(s: seq<Sample>, t: int)
    requires Sorted(s) && |s| > 0
    ensures ScanFromA(s, t, 0).Exhausted? <==> (t < s[0].time || s[|s| - 1].time < t)
    ensures ScanFromA(s, t, 0).Exhausted? ==> PolicyA(s, t) == s[|s| - 1].(time := t)
  {
    ScanFromAFirstStop(s, t, 0);
    if s[0].time <= t <= s[|s| - 1].time {
      FirstAtOrAfter(s, t);
    }
  }

  /**
   * On a sorted track whose time range contains `t`, some index matches or brackets `t`:
   * the first sample whose time is at least `t`.
   */
  lemma FirstAtOrAfter(s: seq<Sample>, t: int)
    requires Sorted(s) && |s| > 0 && s[0].time <= t <= s[|s| - 1].time
    ensures exists j :: 0 <= j < |s| && StopsA(s, t, j)
  {
    var k := |s| - 1;
    while k > 0 && s[k - 1].time >= t
      invariant 0 <= k < |s| && s[k].time >= t
      decreases k
    {
      k := k - 1;
    }
    assert StopsA(s, t, k);
  }

  /** A one-sample track yields that sample's coordinates at any query time. */
  lemma PolicyASingle(x: Sample, t: int)
    ensures PolicyA([x], t) == x.(time := t)
  {
  }

  /**
   * The track's values after a policy A query, when the track holds no point object twice:
   * only the fallback changes the stored last point, whose time becomes `t` (line 216).
   */
  function AfterA(s: seq<Sample>, t: int): (r: seq<Sample>)
    requires |s| > 0
    ensures |r| == |s|
    ensures forall j :: 0 <= j < |s| - 1 ==> r[j] == s[j]
    ensures r[|s| - 1] == (if ScanFromA(s, t, 0).Exhausted? then s[|s| - 1].(time := t) else s[|s| - 1])
  {
    if ScanFromA(s, t, 0).Exhausted? then s[|s| - 1 := s[|s| - 1].(time := t)] else s
  }

  /**
   * Because the fallback writes `t` into the stored last point, a later query sees a different
   * track: on samples at times 0 and 10, a query at 20 moves the last sample to time 20, and a
   * query at 15 then blends (fraction 3/4) instead of clamping to the last sample.
   */
  lemma FallbackChangesLaterQueries()
    ensures var s := [Sample(0.0, 0.0, 0), Sample(10.0, 10.0, 10)];
      && PolicyA(s, 15) == Sample(10.0, 10.0, 15)
      && PolicyA(AfterA(s, 20), 15) == Sample(7.5, 7.5, 15)
  {
    var s := [Sample(0.0, 0.0, 0), Sample(10.0, 10.0, 10)];
    assert ScanFromA(s, 15, 1) == Exhausted;
    var s' := AfterA(s, 20);
    assert s' == [Sample(0.0, 0.0, 0), Sample(10.0, 10.0, 20)];
    assert ScanFromA(s', 15, 0) == Bracket(1);
    assert Fraction(15, 0, 20) == 0.75;
  }

  // ---------------------------------------------------------------------------
  // Policy B: getPoint
  // ---------------------------------------------------------------------------

  /** Where the forward search of `getPoint` stops: an exact match, a later sample, or the end. */
  datatype ScanB = Equal(index: nat) | Later(index: nat) | NoneLater

  /** The forward search of `getPoint` from index `i` (lines 227-235). */
  function ScanFromB(s: seq<Sample>, t: int, i: nat): (o: ScanB)
    requires i <= |s|
    ensures o.Equal? ==> i <= o.index < |s| && s[o.index].time == t
    ensures o.Later? ==> i <= o.index < |s| && s[o.index].time > t
    ensures o.Equal? || o.Later? ==> forall j :: i <= j < o.index ==> s[j].time < t
    ensures o.NoneLater? ==> forall j :: i <= j < |s| ==> s[j].time < t
    decreases |s| - i
  {
    if i == |s| then NoneLater
    else if s[i].time == t then Equal(i)
    else if s[i].time > t then Later(i)
    else ScanFromB(s, t, i + 1)
  }

  /**
   * The new point of lines 241-251: `previous` moved towards `current` by `t - previous.time`,
   * divided by the span of times when that span is not zero.
   */
  function Divide(previous: Sample, current: Sample, t: int): Sample
  {
    var delta := Scaled((t - previous.time) as real, (current.time - previous.time) as real);
    Sample(Lerp(previous.lat, current.lat, delta), Lerp(previous.lon, current.lon, delta), t)
  }

  /** `delta` divided by `diff`, or `delta` itself when `diff` is zero (lines 245-247). */
  function Scaled(delta: real, diff: real): real
  {
    if diff != 0.0 then delta / diff else delta
  }

  /**
   * The result of policy B. In the source `previous` is reassigned from `current` on every
   * iteration, and `current` changes only just before the loop is left, so `previous` is always
   * the first sample; when no later sample exists `current` is the first sample too.
   */
  function PolicyB(s: seq<Sample>, t: int): (r: Sample)
    requires |s| > 0
    ensures r.time == t
  {
    match ScanFromB(s, t, 0)
    case Equal(k) => s[k]
    case Later(k) => Divide(s[0], s[k], t)
    case NoneLater => Divide(s[0], s[0], t)
  }

  /**
   * On a sorted track, the first sample whose time equals `t` is returned itself (line 230).
   */
  lemma PolicyBExact(s: seq<Sample>, t: int, k: nat)
    requires Sorted(s) && k < |s| && s[k].time == t
    requires forall j :: 0 <= j < k ==> s[j].time != t
    ensures ScanFromB(s, t, 0) == Equal(k)
    ensures PolicyB(s, t) == s[k]
  {
    assert forall j :: 0 <= j < k ==> s[j].time < t by {
      forall j | 0 <= j < k ensures s[j].time < t {
        assert s[j].time <= s[k].time;
      }
    }
    ScanFromBStart(s, t, k);
  }

  /** If every sample before `k` is earlier than `t`, the search reaches `k` unchanged. */
  lemma {:induction false} ScanFromBStart(s: seq<Sample>, t: int, k: nat)
    requires k <= |s|
    requires forall j :: 0 <= j < k ==> s[j].time < t
    ensures ScanFromB(s, t, 0) == ScanFromB(s, t, k)
  {
    var i := k;
    while i > 0
      invariant 0 <= i <= k
      invariant ScanFromB(s, t, i) == ScanFromB(s, t, k)
      decreases i
    {
      i := i - 1;
    }
  }

  /**
   * When the first sample is later than `t`, the result keeps the first sample's coordinates at
   * time `t`: the span is zero, so the undivided `delta` multiplies a zero difference.
   */
  lemma PolicyBBeforeFirst(s: seq<Sample>, t: int)
    requires |s| > 0 && s[0].time > t
    ensures PolicyB(s, t) == Sample(s[0].lat, s[0].lon, t)
  {
  }

  /**
   * When the search stops at a later sample other than the first, `t` lies strictly between
   * the FIRST sample's time and that sample's, and the result blends the first sample with it
   * (not with its predecessor), each coordinate between the two.
   */
  lemma PolicyBLater(s: seq<Sample>, t: int)
    requires |s| > 0 && ScanFromB(s, t, 0).Later? && ScanFromB(s, t, 0).index > 0
    ensures var k := ScanFromB(s, t, 0).index;
      var first, cur, r := s[0], s[k], PolicyB(s, t);
      var f := Fraction(t, first.time, cur.time);
      && first.time < t < cur.time
      && r.time == t
      && r.lat == Lerp(first.lat, cur.lat, f)
      && r.lon == Lerp(first.lon, cur.lon, f)
      && Min(first.lat, cur.lat) <= r.lat <= Max(first.lat, cur.lat)
      && Min(first.lon, cur.lon) <= r.lon <= Max(first.lon, cur.lon)
  {
    var k := ScanFromB(s, t, 0).index;
    var f := Fraction(t, s[0].time, s[k].time);
    FractionInUnit(t, s[0].time, s[k].time);
    LerpBetween(s[0].lat, s[k].lat, f);
    LerpBetween(s[0].lon, s[k].lon, f);
  }

  /**
   * When every sample is earlier than `t` (on a sorted track: `t` after the last sample), the
   * result has the FIRST sample's coordinates at time `t`, not the last sample's.
   */
  lemma PolicyBAfterAll(s: seq<Sample>, t: int)
    requires |s| > 0 && forall j :: 0 <= j < |s| ==> s[j].time < t
    ensures ScanFromB(s, t, 0) == NoneLater
    ensures PolicyB(s, t) == Sample(s[0].lat, s[0].lon, t)
  {
    ScanFromBStart(s, t, |s|);
  }

  /** A one-sample track yields that sample's coordinates at any query time. */
  lemma PolicyBSingle(x: Sample, t: int)
    ensures PolicyB([x], t) == x.(time := t)
  {
  }

  /**
   * The two policies differ inside a track: with samples at times 0, 10 and 20, a query at 15
   * is the second and third samples' blend under policy A and the first and third samples'
   * blend under policy B.
   */
  lemma PoliciesDiffer()
    ensures var s := [Sample(0.0, 0.0, 0), Sample(10.0, 10.0, 10), Sample(10.0, 20.0, 20)];
      && PolicyA(s, 15) == Sample(10.0, 15.0, 15)
      && PolicyB(s, 15) == Sample(7.5, 15.0, 15)
  {
    var s := [Sample(0.0, 0.0, 0), Sample(10.0, 10.0, 10), Sample(10.0, 20.0, 20)];
    assert ScanFromA(s, 15, 0) == Bracket(2);
    assert ScanFromB(s, 15, 0) == Later(2);
    assert Fraction(15, 10, 20) == 0.5;
    assert 15.0 / 20.0 == 0.75;
  }

  // ---------------------------------------------------------------------------
  // The methods over Point objects
  // ---------------------------------------------------------------------------

  /**
   * `getPoint2`: returns the matching stored point itself, a new blended point, or, when the
   * scan is exhausted, the stored last point after overwriting its time with `t`.
   */
  method GetPoint2(track: seq<Point>, t: int) returns (p: Point)
    requires |track| > 0
    modifies track[|track| - 1]
    ensures p.Value() == PolicyA(old(Samples(track)), t)
    ensures match ScanFromA(old(Samples(track)), t, 0)
      case Hit(k) => p == track[k] && unchanged(track[|track| - 1])
      case Bracket(_) => fresh(p) && unchanged(track[|track| - 1])
      case Exhausted => p == track[|track| - 1]
    ensures forall j :: 0 <= j < |track| ==>
      track[j].Value() == (if ScanFromA(old(Samples(track)), t, 0).Exhausted? && track[j] == track[|track| - 1]
                           then old(track[j].Value()).(time := t) else old(track[j].Value()))
  {
    ghost var s := Samples(track);
    var previous: Point;
    var current := track[0];
    var i := 0;
    while i < |track|
      invariant 0 <= i <= |track|
      invariant current == track[if i == 0 then 0 else i - 1]
      invariant 0 < i ==> current.timeInSeconds != t
      invariant ScanFromA(s, t, 0) == ScanFromA(s, t, i)
    {
      previous := current;
      current := track[i];
      if current.timeInSeconds == t {
        assert ScanFromA(s, t, i) == Hit(i);
        return current;
      } else if previous.timeInSeconds <= t && t <= current.timeInSeconds {
        assert ScanFromA(s, t, i) == Bracket(i);
        // time: line 205; the blends are lines 203-204 and 209-210
        var time := Fraction(t, previous.timeInSeconds, current.timeInSeconds);
        p := new Point();
        p.timeInSeconds := t;
        p.lat := Lerp(previous.lat, current.lat, time);
        p.lon := Lerp(previous.lon, current.lon, time);
        return p;
      }
      i := i + 1;
    }
    assert ScanFromA(s, t, 0) == Exhausted;
    p := track[|track| - 1];
    p.timeInSeconds := t;
  }

  /**
   * `getPoint`: returns the matching stored point itself, or a new point at time `t` blended
   * from the first sample as policy B describes; the track is left unchanged.
   */
  method GetPoint(track: seq<Point>, t: int) returns (p: Point)
    requires |track| > 0
    ensures p.Value() == PolicyB(old(Samples(track)), t)
    ensures match ScanFromB(old(Samples(track)), t, 0)
      case Equal(k) => p == track[k]
      case _ => fresh(p)
  {
    ghost var s := Samples(track);
    var previous, current := track[0], track[0];
    var i := 0;
    while i < |track|
      invariant 0 <= i <= |track|
      invariant previous == track[0] && current == track[0]
      invariant ScanFromB(s, t, 0) == ScanFromB(s, t, i)
    {
      previous := current;
      if track[i].timeInSeconds == t {
        assert ScanFromB(s, t, i) == Equal(i);
        return track[i];
      } else if track[i].timeInSeconds > t {
        current := track[i];
        break;
      }
      i := i + 1;
    }
    if i == |track| {
      previous := current;
    }
    assert ScanFromB(s, t, 0) == if i == |track| then NoneLater else Later(i);
    p := new Point();
    var delta := (t - previous.timeInSeconds) as real;
    var diff := (current.timeInSeconds - previous.timeInSeconds) as real;
    if diff != 0.0 {
      delta := delta / diff;
    }
    // lines 249-250
    p.lat := Lerp(previous.lat, current.lat, delta);
    p.lon := Lerp(previous.lon, current.lon, delta);
    p.timeInSeconds := t;
  }
}
