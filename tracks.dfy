/**
 * The two record classes at the end of Landmarks.java: `Point`, a mutable track sample with a
 * latitude, a longitude and a time in seconds, and `Profile`, a numbered track. `Sample` is the
 * value a `Point` holds at one moment.
 */
module Tracks {

  /** The value of a `Point`: latitude and longitude in degrees, time in whole seconds. */
  datatype Sample = Sample(lat: real, lon: real, time: int)

  /** A track sample. Its fields are public and updated in place by the parser and by `GetPoint2`. */
  class Point {
    var lat: real
    var lon: real
    var timeInSeconds: int

    /** A new point at coordinates (0, 0) and time 0. */
    constructor ()
      ensures lat == 0.0 && lon == 0.0 && timeInSeconds == 0
    {
      lat := 0.0;
      lon := 0.0;
      timeInSeconds := 0;
    }

    /** The value this point holds in the current heap. */
    function Value(): Sample
      reads this
    {
      Sample(lat, lon, timeInSeconds)
    }
  }

  /** The values held by the points of a track, in track order. */
  ghost function Samples(track: seq<Point>): (r: seq<Sample>)
    reads track
    ensures |r| == |track|
    ensures forall i :: 0 <= i < |track| ==> r[i] == track[i].Value()
  {
    seq(|track|, i reads track requires 0 <= i < |track| => track[i].Value())
  }

  /** No point object occurs twice in the track. */
  ghost predicate Distinct(track: seq<Point>)
  {
    forall i, j :: 0 <= i < j < |track| ==> track[i] != track[j]
  }

  /** A loaded track with its number. The source's `Profile()` leaves `track` null until the loader sets it. */
  class Profile {
    var track: seq<Point>
    var id: int

    constructor ()
      ensures track == [] && id == 0
    {
      track := [];
      id := 0;
    }
  }
}
