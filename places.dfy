/**
 * Places and the two filters over them: the validity check that turns a landmark object of the
 * JSON document into a `Place` (Landmarks.java lines 127-159), and the proximity test of
 * `getNearbyLandmarks` (lines 56 and 100-111).
 */
module Places {
  import opened Wrappers

  /** A named location, in degrees. */
  datatype Place = Place(latitude: real, longitude: real, name: string)

  /**
   * One landmark object as the JSON library presents it: `optString("name")`, which is empty
   * when the key is missing, and `optDouble(key, NaN)`, where `None` stands for the NaN that the
   * library gives for a missing or non-numeric value.
   */
  datatype PlaceRecord = PlaceRecord(name: string, latitude: Option<real>, longitude: Option<real>)

  /** A place is shown on the compass when it is at most this many kilometres away (line 56). */
  const MaxDistanceKm: real := 10.0

  /** The place a landmark object denotes, if it has a name and both coordinates (lines 149-159). */
  function JsonObjectToPlace(o: PlaceRecord): (r: Option<Place>)
    ensures r.Some? <==> o.name != [] && o.latitude.Some? && o.longitude.Some?
    ensures r.Some? ==> r.value.name == o.name && r.value.latitude == o.latitude.value
                        && r.value.longitude == o.longitude.value
  {
    if o.name != [] && o.latitude.Some? && o.longitude.Some? then
      Some(Place(o.latitude.value, o.longitude.value, o.name))
    else
      None
  }

  /**
   * An element of the `landmarks` array: `Some` for an object, `None` for anything else, where
   * `optJSONObject` gives null.
   */
  type Element = Option<PlaceRecord>

  /** The place an array element contributes: nothing unless it is an object that converts. */
  function Converted(e: Element): Option<Place>
  {
    if e.Some? then JsonObjectToPlace(e.value) else None
  }

  /** The places of the array's elements, in array order, dropping those that do not convert. */
  function ValidPlaces(elems: seq<Element>): seq<Place>
  {
    if elems == [] then []
    else
      var last := Converted(elems[|elems| - 1]);
      ValidPlaces(elems[..|elems| - 1]) + (if last.Some? then [last.value] else [])
  }

  /**
   * The number of leading elements that are objects. At the first element that is not, the
   * source calls `jsonObjectToPlace(null)`, whose `NullPointerException` ends the load.
   */
  function ObjectPrefix(elems: seq<Element>): (n: nat)
    ensures n <= |elems|
    ensures forall k :: 0 <= k < n ==> elems[k].Some?
    ensures n < |elems| ==> elems[n].None?
  {
    if elems == [] || elems[0].None? then 0 else 1 + ObjectPrefix(elems[1..])
  }

  /** Reading the object at index `i` moves one element along both the prefix and the filter. */
  lemma ReadElement(elems: seq<Element>, i: nat)
    requires i < |elems| && elems[i].Some?
    ensures ObjectPrefix(elems[i..]) == 1 + ObjectPrefix(elems[i + 1..])
    ensures var c := JsonObjectToPlace(elems[i].value);
            ValidPlaces(elems[..i + 1]) == ValidPlaces(elems[..i]) + (if c.Some? then [c.value] else [])
  {
    assert elems[i..][1..] == elems[i + 1..];
    assert elems[..i + 1][..i] == elems[..i];
  }

  /** The test of line 105, with the distance function a parameter. */
  predicate IsNear(latitude: real, longitude: real, p: Place, distance: (real, real, real, real) -> real)
  {
    distance(latitude, longitude, p.latitude, p.longitude) <= MaxDistanceKm
  }

  /** The places within range of (latitude, longitude), in their original order. */
  function Nearby(places: seq<Place>, latitude: real, longitude: real, distance: (real, real, real, real) -> real): seq<Place>
  {
    if places == [] then []
    else
      var last := places[|places| - 1];
      Nearby(places[..|places| - 1], latitude, longitude, distance)
        + (if IsNear(latitude, longitude, last, distance) then [last] else [])
  }

  // ---------------------------------------------------------------------------
  // Properties of the validity filter
  // ---------------------------------------------------------------------------

  /** Filtering a concatenation filters each part: the array order is kept. */
  lemma {:induction false} ValidPlacesAppend(a: seq<Element>, b: seq<Element>)
    ensures ValidPlaces(a + b) == ValidPlaces(a) + ValidPlaces(b)
    decreases |b|
  {
    if b == [] {
      assert a + b == a;
    } else {
      assert (a + b)[..|a + b| - 1] == a + b[..|b| - 1];
      ValidPlacesAppend(a, b[..|b| - 1]);
    }
  }

  /** A place is kept exactly when some element converts to it. */
  lemma {:induction false} ValidPlacesMembers(elems: seq<Element>, p: Place)
    ensures p in ValidPlaces(elems) <==> exists k :: 0 <= k < |elems| && Converted(elems[k]) == Some(p)
    decreases |elems|
  {
    if elems != [] {
      var front := elems[..|elems| - 1];
      ValidPlacesMembers(front, p);
      if p in ValidPlaces(elems) && p in ValidPlaces(front) {
        var k :| 0 <= k < |front| && Converted(front[k]) == Some(p);
        assert elems[k] == front[k];
      }
      if exists k :: 0 <= k < |elems| && Converted(elems[k]) == Some(p) {
        var k :| 0 <= k < |elems| && Converted(elems[k]) == Some(p);
        if k < |front| {
          assert front[k] == elems[k];
        }
      }
    }
  }

  /** Every kept place has a name: a place with an empty name is never loaded. */
  lemma {:induction false} ValidPlacesNamed(elems: seq<Element>)
    ensures forall p :: p in ValidPlaces(elems) ==> p.name != []
    decreases |elems|
  {
    if elems != [] {
      ValidPlacesNamed(elems[..|elems| - 1]);
    }
  }

  // ---------------------------------------------------------------------------
  // Properties of the proximity filter
  // ---------------------------------------------------------------------------

  /** Filtering a concatenation filters each part. */
  lemma {:induction false} NearbyAppend(a: seq<Place>, b: seq<Place>, latitude: real, longitude: real,
                                        distance: (real, real, real, real) -> real)
    ensures Nearby(a + b, latitude, longitude, distance)
         == Nearby(a, latitude, longitude, distance) + Nearby(b, latitude, longitude, distance)
    decreases |b|
  {
    if b == [] {
      assert a + b == a;
    } else {
      assert (a + b)[..|a + b| - 1] == a + b[..|b| - 1];
      NearbyAppend(a, b[..|b| - 1], latitude, longitude, distance);
    }
  }

  /** A place is in the result exactly when it is a known place within range, the boundary included. */
  lemma {:induction false} NearbyMembers(places: seq<Place>, latitude: real, longitude: real,
                                         distance: (real, real, real, real) -> real, p: Place)
    ensures p in Nearby(places, latitude, longitude, distance)
        <==> p in places && distance(latitude, longitude, p.latitude, p.longitude) <= MaxDistanceKm
    decreases |places|
  {
    if places != [] {
      var front := places[..|places| - 1];
      NearbyMembers(front, latitude, longitude, distance, p);
      assert places == front + [places[|places| - 1]];
    }
  }

  /** Each place occurs in the result as often as in the input when it is near, and not at all otherwise. */
  lemma {:induction false} NearbyCounts(places: seq<Place>, latitude: real, longitude: real,
                                        distance: (real, real, real, real) -> real, p: Place)
    ensures multiset(Nearby(places, latitude, longitude, distance))[p]
         == if IsNear(latitude, longitude, p, distance) then multiset(places)[p] else 0
    decreases |places|
  {
    if places != [] {
      var front := places[..|places| - 1];
      NearbyCounts(front, latitude, longitude, distance, p);
      assert places == front + [places[|places| - 1]];
    }
  }

  /** Filtering again changes nothing. */
  lemma {:induction false} NearbyIdempotent(places: seq<Place>, latitude: real, longitude: real,
                                            distance: (real, real, real, real) -> real)
    ensures Nearby(Nearby(places, latitude, longitude, distance), latitude, longitude, distance)
         == Nearby(places, latitude, longitude, distance)
    decreases |places|
  {
    if places != [] {
      var front := places[..|places| - 1];
      var last := places[|places| - 1];
      NearbyIdempotent(front, latitude, longitude, distance);
      NearbyAppend(Nearby(front, latitude, longitude, distance),
                   if IsNear(latitude, longitude, last, distance) then [last] else [],
                   latitude, longitude, distance);
      if IsNear(latitude, longitude, last, distance) {
        assert [last][..0] == [];
      }
    }
  }
}
