/**
 * The parse loop of `populateTrackList` (Landmarks.java lines 309-379), on text that has
 * already been fetched. The tokens of the text drive a small state machine: outside any
 * element, after a `trk` token (looking for the segment's start time), and inside a `trkpt`
 * element (collecting `lat`, `lon` and `time` until `/trkpt`).
 */
module TrackParser {
  import opened Wrappers
  import opened Tracks
  import opened Tokenizer

  /**
   * Why a document cannot be loaded. In the source each of these is an exception that nothing
   * catches, so it ends the whole loading thread.
   */
  datatype ParseError =
    | MissingValue(key: string)  // `nextToken()` after a key with no token left
    | BadNumber(token: string)   // `Double.parseDouble` rejects the token
    | BadTime(token: string)     // the point's date does not parse, so `parsed` is null at line 358
    | NoStartTime                // no segment start time was parsed, so `startDate` is null at line 358

  /**
   * The library parsers the loop calls: `Double.parseDouble`, and `SimpleDateFormat.parse` with
   * the pattern `yyyy-MM-dd'T'HH:mm:ss`, giving milliseconds since the epoch or `None` on failure.
   */
  datatype Parsers = Parsers(number: string -> Option<real>, date: string -> Option<int>)

  /**
   * Whole seconds in a number of milliseconds, by Java's `long` division, which truncates
   * toward zero (line 358).
   */
  function ElapsedSeconds(ms: int): (sec: int)
    ensures 0 <= ms ==> 0 <= sec && sec * 1000 <= ms < sec * 1000 + 1000
    ensures ms < 0 ==> sec <= 0 && sec * 1000 - 1000 < ms <= sec * 1000
  {
    if ms >= 0 then ms / 1000 else -((-ms) / 1000)
  }

  /** Truncation differs from Dafny's Euclidean division on negative operands. */
  lemma ElapsedSecondsTruncates()
    ensures ElapsedSeconds(-1500) == -1 && -1500 / 1000 == -2
    ensures ElapsedSeconds(10000) == 10
  {
  }

  /** The point a `trkpt` starts with: `new Point()` (lines 338 and 393-397). */
  const NewPoint := Sample(0.0, 0.0, 0)

  /** The outer loop (lines 321-368) at token `k`, with the start time found so far and the points added so far. */
  function Outer(toks: seq<string>, k: nat, start: Option<int>, acc: seq<Sample>, ps: Parsers): Result<seq<Sample>, ParseError>
    requires k <= |toks|
    decreases |toks| - k
  {
    if k == |toks| then Ok(acc)
    else if toks[k] == "trk" then InTrk(toks, k + 1, start, acc, ps)
    else if toks[k] == "trkpt" then InPoint(toks, k + 1, start, NewPoint, acc, ps)
    else if toks[k] == "/trkseg" then Ok(acc)
    else Outer(toks, k + 1, start, acc, ps)
  }

  /**
   * The loop after `trk` (lines 324-336): skips to the next `time` key and parses the token after
   * it as the start time; a date that does not parse is caught and leaves the start time as it was.
   */
  function InTrk(toks: seq<string>, k: nat, start: Option<int>, acc: seq<Sample>, ps: Parsers): Result<seq<Sample>, ParseError>
    requires k <= |toks|
    decreases |toks| - k
  {
    if k == |toks| then Ok(acc)
    else if toks[k] != "time" then InTrk(toks, k + 1, start, acc, ps)
    else if k + 1 == |toks| then Err(MissingValue("time"))
    else
      var parsed := ps.date(toks[k + 1]);
      Outer(toks, k + 2, if parsed.Some? then parsed else start, acc, ps)
  }

  /**
   * The loop after `trkpt` (lines 339-364) with the point `p` being filled in; the point is added
   * only when `/trkpt` is reached, and is lost if the tokens run out first.
   */
  function InPoint(toks: seq<string>, k: nat, start: Option<int>, p: Sample, acc: seq<Sample>, ps: Parsers): Result<seq<Sample>, ParseError>
    requires k <= |toks|
    decreases |toks| - k
  {
    if k == |toks| then Ok(acc)
    else if toks[k] == "lat" || toks[k] == "lon" then
      if k + 1 == |toks| then Err(MissingValue(toks[k]))
      else
        var v := ps.number(toks[k + 1]);
        if v.None? then Err(BadNumber(toks[k + 1]))
        else if toks[k] == "lat" then InPoint(toks, k + 2, start, p.(lat := v.value), acc, ps)
        else InPoint(toks, k + 2, start, p.(lon := v.value), acc, ps)
    else if toks[k] == "time" then
      if k + 1 == |toks| then Err(MissingValue("time"))
      else
        var parsed := ps.date(toks[k + 1]);
        if parsed.None? then Err(BadTime(toks[k + 1]))
        else if start.None? then Err(NoStartTime)
        else InPoint(toks, k + 2, start, p.(time := ElapsedSeconds(parsed.value - start.value)), acc, ps)
    else if toks[k] == "/trkpt" then Outer(toks, k + 1, start, acc + [p], ps)
    else InPoint(toks, k + 1, start, p, acc, ps)
  }

  /** The track one document yields: the parse of its tokens from a fresh state. */
  function ParseDocument(content: string, ps: Parsers): Result<seq<Sample>, ParseError>
  {
    Outer(Tokens(content), 0, None, [], ps)
  }

  // ---------------------------------------------------------------------------
  // Properties of the parse
  // ---------------------------------------------------------------------------

  /** Points are only ever appended: what was added before is a prefix of every successful result. */
  lemma {:induction false} OuterExtends(toks: seq<string>, k: nat, start: Option<int>, acc: seq<Sample>, ps: Parsers)
    requires k <= |toks|
    ensures Outer(toks, k, start, acc, ps).Ok? ==> acc <= Outer(toks, k, start, acc, ps).value
    decreases |toks| - k, 1
  {
    if k < |toks| {
      if toks[k] == "trk" {
        InTrkExtends(toks, k + 1, start, acc, ps);
      } else if toks[k] == "trkpt" {
        InPointExtends(toks, k + 1, start, NewPoint, acc, ps);
      } else if toks[k] != "/trkseg" {
        OuterExtends(toks, k + 1, start, acc, ps);
      }
    }
  }

  lemma {:induction false} InTrkExtends(toks: seq<string>, k: nat, start: Option<int>, acc: seq<Sample>, ps: Parsers)
    requires k <= |toks|
    ensures InTrk(toks, k, start, acc, ps).Ok? ==> acc <= InTrk(toks, k, start, acc, ps).value
    decreases |toks| - k, 0
  {
    if k < |toks| {
      if toks[k] != "time" {
        InTrkExtends(toks, k + 1, start, acc, ps);
      } else if k + 1 < |toks| {
        var parsed := ps.date(toks[k + 1]);
        OuterExtends(toks, k + 2, if parsed.Some? then parsed else start, acc, ps);
      }
    }
  }

  lemma {:induction false} InPointExtends(toks: seq<string>, k: nat, start: Option<int>, p: Sample, acc: seq<Sample>, ps: Parsers)
    requires k <= |toks|
    ensures InPoint(toks, k, start, p, acc, ps).Ok? ==> acc <= InPoint(toks, k, start, p, acc, ps).value
    decreases |toks| - k, 0
  {
    if k < |toks| && k + 1 < |toks| && (toks[k] == "lat" || toks[k] == "lon") {
      var v := ps.number(toks[k + 1]);
      if v.Some? {
        InPointExtends(toks, k + 2, start, if toks[k] == "lat" then p.(lat := v.value) else p.(lon := v.value), acc, ps);
      }
    } else if k < |toks| && k + 1 < |toks| && toks[k] == "time" {
      var parsed := ps.date(toks[k + 1]);
      if parsed.Some? && start.Some? {
        InPointExtends(toks, k + 2, start, p.(time := ElapsedSeconds(parsed.value - start.value)), acc, ps);
      }
    } else if k < |toks| && toks[k] == "/trkpt" {
      OuterExtends(toks, k + 1, start, acc + [p], ps);
    } else if k < |toks| && toks[k] != "lat" && toks[k] != "lon" && toks[k] != "time" {
      InPointExtends(toks, k + 1, start, p, acc, ps);
    }
  }

  /**
   * A `trkpt` whose `/trkpt` never comes is dropped: without a `/trkpt` token ahead, the parse
   * either fails or ends with exactly the points added before.
   */
  lemma {:induction false} UnterminatedPointDropped(toks: seq<string>, k: nat, start: Option<int>, p: Sample, acc: seq<Sample>, ps: Parsers)
    requires k <= |toks|
    requires forall j :: k <= j < |toks| ==> toks[j] != "/trkpt"
    ensures InPoint(toks, k, start, p, acc, ps).Ok? ==> InPoint(toks, k, start, p, acc, ps).value == acc
    decreases |toks| - k
  {
    if k < |toks| && k + 1 < |toks| && (toks[k] == "lat" || toks[k] == "lon") {
      var v := ps.number(toks[k + 1]);
      if v.Some? {
        UnterminatedPointDropped(toks, k + 2, start, if toks[k] == "lat" then p.(lat := v.value) else p.(lon := v.value), acc, ps);
      }
    } else if k < |toks| && k + 1 < |toks| && toks[k] == "time" {
      var parsed := ps.date(toks[k + 1]);
      if parsed.Some? && start.Some? {
        UnterminatedPointDropped(toks, k + 2, start, p.(time := ElapsedSeconds(parsed.value - start.value)), acc, ps);
      }
    } else if k < |toks| && toks[k] != "lat" && toks[k] != "lon" && toks[k] != "time" {
      UnterminatedPointDropped(toks, k + 1, start, p, acc, ps);
    }
  }

  /**
   * Parsing stops at the first `/trkseg` met outside an element: when the tokens from `k` up to
   * a `/trkseg` at `j` open no `trk` or `trkpt`, the result is the points added so far, whatever
   * follows `j`.
   */
  lemma {:induction false} StopsAtSegmentEnd(toks: seq<string>, k: nat, j: nat, start: Option<int>, acc: seq<Sample>, ps: Parsers)
    requires k <= j < |toks| && toks[j] == "/trkseg"
    requires forall i :: k <= i < j ==> toks[i] != "trk" && toks[i] != "trkpt" && toks[i] != "/trkseg"
    ensures Outer(toks, k, start, acc, ps) == Ok(acc)
    decreases j - k
  {
    if k < j {
      StopsAtSegmentEnd(toks, k + 1, j, start, acc, ps);
    }
  }

  /** `trk` followed by `time` and a date that parses sets the start time. */
  lemma StartTime(toks: seq<string>, k: nat, start: Option<int>, acc: seq<Sample>, ps: Parsers, date: string, ms: int)
    requires k + 3 <= |toks| && toks[k..k + 3] == ["trk", "time", date] && ps.date(date) == Some(ms)
    ensures Outer(toks, k, start, acc, ps) == Outer(toks, k + 3, Some(ms), acc, ps)
  {
    var w := toks[k..k + 3];
    assert toks[k] == w[0] && toks[k + 1] == w[1] && toks[k + 2] == w[2];
  }

  /**
   * A complete point `trkpt lat a lon b time c /trkpt` whose values parse appends one sample with
   * those coordinates and the whole seconds since the start time, and parsing resumes after it.
   */
  lemma WellFormedPoint(toks: seq<string>, k: nat, s0: int, acc: seq<Sample>, ps: Parsers,
                        a: string, b: string, c: string, lat: real, lon: real, ms: int)
    requires k + 8 <= |toks| && toks[k..k + 8] == ["trkpt", "lat", a, "lon", b, "time", c, "/trkpt"]
    requires ps.number(a) == Some(lat) && ps.number(b) == Some(lon) && ps.date(c) == Some(ms)
    ensures Outer(toks, k, Some(s0), acc, ps)
         == Outer(toks, k + 8, Some(s0), acc + [Sample(lat, lon, ElapsedSeconds(ms - s0))], ps)
  {
    var w := toks[k..k + 8];
    assert toks[k] == w[0] && toks[k + 1] == w[1] && toks[k + 2] == w[2] && toks[k + 3] == w[3];
    assert toks[k + 4] == w[4] && toks[k + 5] == w[5] && toks[k + 6] == w[6] && toks[k + 7] == w[7];
    var p1 := NewPoint.(lat := lat);
    var p2 := p1.(lon := lon);
    var p3 := p2.(time := ElapsedSeconds(ms - s0));
    assert InPoint(toks, k + 1, Some(s0), NewPoint, acc, ps) == InPoint(toks, k + 3, Some(s0), p1, acc, ps);
    assert InPoint(toks, k + 3, Some(s0), p1, acc, ps) == InPoint(toks, k + 5, Some(s0), p2, acc, ps);
    assert InPoint(toks, k + 5, Some(s0), p2, acc, ps) == InPoint(toks, k + 7, Some(s0), p3, acc, ps);
  }

  /** A point time met before any start time is an error, not a point at time 0. */
  lemma PointBeforeStartTime(ps: Parsers, c: string, ms: int)
    requires ps.date(c) == Some(ms)
    ensures Outer(["trkpt", "time", c, "/trkpt"], 0, None, [], ps) == Err(NoStartTime)
  {
    var toks := ["trkpt", "time", c, "/trkpt"];
    assert Outer(toks, 0, None, [], ps) == InPoint(toks, 1, None, NewPoint, [], ps);
  }

  /** Tokens other than the keys of a point leave the point being filled in as it is. */
  lemma {:induction false} SkipsOtherTokens(toks: seq<string>, k: nat, j: nat, start: Option<int>, p: Sample,
                                            acc: seq<Sample>, ps: Parsers)
    requires k <= j < |toks| && toks[j] == "/trkpt"
    requires forall i :: k <= i < j ==> toks[i] != "lat" && toks[i] != "lon" && toks[i] != "time" && toks[i] != "/trkpt"
    ensures InPoint(toks, k, start, p, acc, ps) == Outer(toks, j + 1, start, acc + [p], ps)
    decreases j - k
  {
    if k < j {
      SkipsOtherTokens(toks, k + 1, j, start, p, acc, ps);
    }
  }

  /**
   * A `trkpt` element with no `lat`, `lon` or `time` key adds a point with the values of
   * `new Point()`: latitude 0, longitude 0, time 0 (lines 338 and 393-397).
   */
  lemma PointWithoutKeys(toks: seq<string>, k: nat, j: nat, start: Option<int>, acc: seq<Sample>, ps: Parsers)
    requires k < j < |toks| && toks[k] == "trkpt" && toks[j] == "/trkpt"
    requires forall i :: k < i < j ==> toks[i] != "lat" && toks[i] != "lon" && toks[i] != "time" && toks[i] != "/trkpt"
    ensures Outer(toks, k, start, acc, ps) == Outer(toks, j + 1, start, acc + [Sample(0.0, 0.0, 0)], ps)
  {
    SkipsOtherTokens(toks, k + 1, j, start, NewPoint, acc, ps);
  }

  /** A point with coordinates but no `time` key keeps the time of `new Point()`, 0 (lines 338 and 396). */
  lemma PointWithoutTime(toks: seq<string>, k: nat, start: Option<int>, acc: seq<Sample>, ps: Parsers,
                         a: string, b: string, lat: real, lon: real)
    requires k + 6 <= |toks| && toks[k..k + 6] == ["trkpt", "lat", a, "lon", b, "/trkpt"]
    requires ps.number(a) == Some(lat) && ps.number(b) == Some(lon)
    ensures Outer(toks, k, start, acc, ps) == Outer(toks, k + 6, start, acc + [Sample(lat, lon, 0)], ps)
  {
    var w := toks[k..k + 6];
    assert toks[k] == w[0] && toks[k + 1] == w[1] && toks[k + 2] == w[2];
    assert toks[k + 3] == w[3] && toks[k + 4] == w[4] && toks[k + 5] == w[5];
    var p1 := NewPoint.(lat := lat);
    var p2 := p1.(lon := lon);
    assert p2 == Sample(lat, lon, 0);
    assert Outer(toks, k, start, acc, ps) == InPoint(toks, k + 1, start, NewPoint, acc, ps);
    assert InPoint(toks, k + 1, start, NewPoint, acc, ps) == InPoint(toks, k + 3, start, p1, acc, ps);
    assert InPoint(toks, k + 3, start, p1, acc, ps) == InPoint(toks, k + 5, start, p2, acc, ps);
    assert InPoint(toks, k + 5, start, p2, acc, ps) == Outer(toks, k + 6, start, acc + [p2], ps);
  }

  /** A point with a time but no `lat` or `lon` key keeps the coordinates of `new Point()`, (0, 0) (lines 338 and 394-395). */
  lemma PointWithoutCoordinates(toks: seq<string>, k: nat, s0: int, acc: seq<Sample>, ps: Parsers, c: string, ms: int)
    requires k + 4 <= |toks| && toks[k..k + 4] == ["trkpt", "time", c, "/trkpt"]
    requires ps.date(c) == Some(ms)
    ensures Outer(toks, k, Some(s0), acc, ps)
         == Outer(toks, k + 4, Some(s0), acc + [Sample(0.0, 0.0, ElapsedSeconds(ms - s0))], ps)
  {
    var w := toks[k..k + 4];
    assert toks[k] == w[0] && toks[k + 1] == w[1] && toks[k + 2] == w[2] && toks[k + 3] == w[3];
    var p1 := NewPoint.(time := ElapsedSeconds(ms - s0));
    assert p1 == Sample(0.0, 0.0, ElapsedSeconds(ms - s0));
    assert Outer(toks, k, Some(s0), acc, ps) == InPoint(toks, k + 1, Some(s0), NewPoint, acc, ps);
    assert InPoint(toks, k + 1, Some(s0), NewPoint, acc, ps) == InPoint(toks, k + 3, Some(s0), p1, acc, ps);
    assert InPoint(toks, k + 3, Some(s0), p1, acc, ps) == Outer(toks, k + 4, Some(s0), acc + [p1], ps);
  }

  /** The tokens of a one-point document: a segment starting at `d0` and a point at `d1`. */
  function OnePointTokens(d0: string, d1: string): seq<string>
  {
    ["trk", "time", d0, "/time", "trkseg",
     "trkpt", "lat", "10.0", "lon", "20.0", "time", d1, "/trkpt",
     "/trkseg", "/trk"]
  }

  /** The tokens of a one-point document are words, so they survive joining and splitting. */
  lemma OnePointWords(d0: string, d1: string)
    requires IsWord(d0) && IsWord(d1)
    ensures Tokens(JoinWords(OnePointTokens(d0, d1))) == OnePointTokens(d0, d1)
  {
    var toks := OnePointTokens(d0, d1);
    assert IsWord("trk") && IsWord("time") && IsWord("/time") && IsWord("trkseg");
    assert IsWord("trkpt") && IsWord("lat") && IsWord("10.0") && IsWord("lon");
    assert IsWord("20.0") && IsWord("/trkpt") && IsWord("/trkseg") && IsWord("/trk");
    TokensOfJoinedWords(toks);
  }

  /** The point ten seconds after the start of the segment gives one sample at time 10. */
  lemma OnePointTrack(ps: Parsers, d0: string, d1: string, ms: int)
    requires ps.date(d0) == Some(ms) && ps.date(d1) == Some(ms + 10000)
    requires ps.number("10.0") == Some(10.0) && ps.number("20.0") == Some(20.0)
    ensures Outer(OnePointTokens(d0, d1), 0, None, [], ps) == Ok([Sample(10.0, 20.0, 10)])
  {
    var toks := OnePointTokens(d0, d1);
    StartTime(toks, 0, None, [], ps, d0, ms);
    assert Outer(toks, 3, Some(ms), [], ps) == Outer(toks, 5, Some(ms), [], ps);
    WellFormedPoint(toks, 5, ms, [], ps, "10.0", "20.0", d1, 10.0, 20.0, ms + 10000);
    assert ElapsedSeconds(ms + 10000 - ms) == 10;
    assert [] + [Sample(10.0, 20.0, ElapsedSeconds(ms + 10000 - ms))] == [Sample(10.0, 20.0, 10)];
    StopsAtSegmentEnd(toks, 13, 13, Some(ms), [Sample(10.0, 20.0, 10)], ps);
  }

  /**
   * A one-point document: a segment starting at date `d0` and a point at `d1`, ten seconds
   * later, with latitude 10 and longitude 20, gives one sample at (10, 20) and time 10.
   */
  lemma OnePointDocument(ps: Parsers, d0: string, d1: string, ms: int)
    requires IsWord(d0) && IsWord(d1)
    requires ps.date(d0) == Some(ms) && ps.date(d1) == Some(ms + 10000)
    requires ps.number("10.0") == Some(10.0) && ps.number("20.0") == Some(20.0)
    ensures ParseDocument(JoinWords(OnePointTokens(d0, d1)), ps) == Ok([Sample(10.0, 20.0, 10)])
  {
    OnePointWords(d0, d1);
    OnePointTrack(ps, d0, d1, ms);
  }

  // ---------------------------------------------------------------------------
  // The loop itself
  // ---------------------------------------------------------------------------

  /**
   * Reads the track of one document (lines 313-368). Each `trkpt` gets a fresh `Point`, whose
   * fields are set as its keys are read and which is appended on `/trkpt`. The outcome is the
   * one `ParseDocument` describes; on success the track's points hold its samples, and an error
   * is returned where the source throws.
   */
  method ParseTrack(content: string, ps: Parsers) returns (track: seq<Point>, failure: Option<ParseError>)
    ensures ParseDocument(content, ps).Ok? ==>
              failure == None && Samples(track) == ParseDocument(content, ps).value
    ensures ParseDocument(content, ps).Err? ==> failure == Some(ParseDocument(content, ps).error)
    ensures Distinct(track) && forall q :: q in track ==> fresh(q)
  {
    ghost var result := ParseDocument(content, ps);
    var st := Tokens(content);
    var startDate: Option<int> := None;
    track := [];
    var k := 0;
    while k < |st|
      invariant k <= |st|
      invariant Outer(st, k, startDate, Samples(track), ps) == result
      invariant Distinct(track) && forall q :: q in track ==> fresh(q)
      decreases |st| - k
    {
      var temp := st[k];
      k := k + 1;
      if temp == "trk" {
        while k < |st|
          invariant k <= |st|
          invariant InTrk(st, k, startDate, Samples(track), ps) == result
          decreases |st| - k
        {
          temp := st[k];
          k := k + 1;
          if temp == "time" {
            if k == |st| {
              return track, Some(MissingValue("time"));
            }
            temp := st[k];
            k := k + 1;
            var parsed := ps.date(temp);
            if parsed.Some? {
              startDate := parsed;
            }
            break;
          }
        }
      } else if temp == "trkpt" {
        var p, closed, pointFailure;
        p, k, closed, pointFailure := ReadPoint(st, k, startDate, Samples(track), ps);
        if pointFailure.Some? {
          return track, pointFailure;
        }
        if closed {
          ghost var before := Samples(track);
          track := track + [p];
          assert Samples(track) == before + [p.Value()];
        }
      } else if temp == "/trkseg" {
        break;
      }
    }
    failure := None;
  }

  /**
   * The `trkpt` loop (lines 338-364) from token `k0`: a fresh point filled in from its keys.
   * `closed` says whether its `/trkpt` was reached; otherwise the tokens ran out and the point
   * is not added. An error is returned where the source throws.
   */
  method ReadPoint(st: seq<string>, k0: nat, startDate: Option<int>, ghost acc: seq<Sample>, ps: Parsers)
    returns (p: Point, k: nat, closed: bool, failure: Option<ParseError>)
    requires k0 <= |st|
    ensures fresh(p) && k0 <= k <= |st|
    ensures failure.Some? ==> InPoint(st, k0, startDate, NewPoint, acc, ps) == Err(failure.value)
    ensures failure.None? && closed ==>
              InPoint(st, k0, startDate, NewPoint, acc, ps) == Outer(st, k, startDate, acc + [p.Value()], ps)
    ensures failure.None? && !closed ==> k == |st| && InPoint(st, k0, startDate, NewPoint, acc, ps) == Ok(acc)
  {
    ghost var result := InPoint(st, k0, startDate, NewPoint, acc, ps);
    p := new Point();
    k := k0;
    while k < |st|
      invariant k0 <= k <= |st|
      invariant InPoint(st, k, startDate, p.Value(), acc, ps) == result
      decreases |st| - k
    {
      var temp := st[k];
      k := k + 1;
      if temp == "lat" || temp == "lon" {
        if k == |st| {
          return p, k, false, Some(MissingValue(temp));
        }
        var v := ps.number(st[k]);
        if v.None? {
          return p, k, false, Some(BadNumber(st[k]));
        }
        if temp == "lat" {
          p.lat := v.value;
        } else {
          p.lon := v.value;
        }
        k := k + 1;
      } else if temp == "time" {
        if k == |st| {
          return p, k, false, Some(MissingValue("time"));
        }
        temp := st[k];
        k := k + 1;
        var parsed := ps.date(temp);
        if parsed.None? {
          return p, k, false, Some(BadTime(temp));
        }
        if startDate.None? {
          return p, k, false, Some(NoStartTime);
        }
        p.timeInSeconds := ElapsedSeconds(parsed.value - startDate.value);
      } else if temp == "/trkpt" {
        return p, k, true, None;
      }
    }
    closed, failure := false, None;
  }
}
