/**
 * The `Landmarks` store: the list of known places with the proximity query over it, and the
 * list of loaded track profiles with the query that places every profile at a given time.
 */
module Model {
  import opened Wrappers
  import opened Tracks
  import opened Interpolation
  import opened TrackParser
  import opened Places
  import opened Decimal
  import opened Tokenizer

  /**
   * The index of the first document that fails to parse, or the number of documents when all
   * of them parse, searching from `i`.
   */
  function FirstFailureFrom(docs: seq<string>, ps: Parsers, i: nat): (n: nat)
    requires i <= |docs|
    ensures i <= n <= |docs|
    decreases |docs| - i
  {
    if i == |docs| || ParseDocument(docs[i], ps).Err? then i else FirstFailureFrom(docs, ps, i + 1)
  }

  /**
   * The documents before the first failure all parse, and the one at the first failure, if
   * any, does not.
   */
  lemma {:induction false} FirstFailureIsFirst(docs: seq<string>, ps: Parsers, i: nat)
    requires i <= |docs|
    ensures forall k :: i <= k < FirstFailureFrom(docs, ps, i) ==> ParseDocument(docs[k], ps).Ok?
    ensures FirstFailureFrom(docs, ps, i) < |docs| ==> ParseDocument(docs[FirstFailureFrom(docs, ps, i)], ps).Err?
    decreases |docs| - i
  {
    if i < |docs| && ParseDocument(docs[i], ps).Ok? {
      FirstFailureIsFirst(docs, ps, i + 1);
    }
  }

  /** Every document loads exactly when the first failure is past the end. */
  lemma AllLoaded(docs: seq<string>, ps: Parsers)
    ensures FirstFailureFrom(docs, ps, 0) == |docs| <==> forall k :: 0 <= k < |docs| ==> ParseDocument(docs[k], ps).Ok?
  {
    FirstFailureIsFirst(docs, ps, 0);
  }

  /** The name `getNearbyLandmarks2` gives the place of a profile (line 117). */
  function ProfileName(id: int): string
  {
    "id" + IntToString(id)
  }

  /** The place `getNearbyLandmarks2` reports, named `name`, for a profile with samples `s` at time `t`. */
  function PlaceFor(s: seq<Sample>, t: int, name: string): Place
    requires |s| > 0
  {
    var r := PolicyA(s, t);
    Place(r.lat, r.lon, name)
  }

  /** Where a point sits: the index of its track and its index in that track. */
  datatype Slot = Slot(track: nat, index: nat)

  /**
   * `owner` records the slot of every point of every track: no point sits in two places, so a
   * point that `GetNearbyLandmarks2` changes belongs to one track, at one position.
   */
  ghost predicate Owned(tracks: seq<seq<Point>>, owner: map<Point, Slot>)
  {
    forall k, j :: 0 <= k < |tracks| && 0 <= j < |tracks[k]| ==>
      tracks[k][j] in owner && owner[tracks[k][j]] == Slot(k, j)
  }

  /** `owner` with the points of `track` recorded as those of track `n`. */
  ghost function Claim(owner: map<Point, Slot>, track: seq<Point>, n: nat): (r: map<Point, Slot>)
    requires Distinct(track)
    ensures forall j :: 0 <= j < |track| ==> track[j] in r && r[track[j]] == Slot(n, j)
    ensures forall q :: q in owner && q !in track ==> q in r && r[q] == owner[q]
    ensures forall q :: q in r ==> q in owner || q in track
  {
    owner + map j | 0 <= j < |track| :: track[j] := Slot(n, j)
  }

  /** A track whose points are not yet recorded can join. */
  lemma OwnedAppend(tracks: seq<seq<Point>>, owner: map<Point, Slot>, track: seq<Point>)
    requires Owned(tracks, owner) && Distinct(track)
    requires forall q :: q in track ==> q !in owner
    ensures Owned(tracks + [track], Claim(owner, track, |tracks|))
  {
    forall k, j | 0 <= k < |tracks| && 0 <= j < |tracks[k]|
      ensures tracks[k][j] !in track
    {
      assert tracks[k][j] in owner;
    }
  }

  /** Recorded points are distinct within a track. */
  lemma OwnedDistinct(tracks: seq<seq<Point>>, owner: map<Point, Slot>, i: nat)
    requires Owned(tracks, owner) && i < |tracks|
    ensures Distinct(tracks[i])
  {
    var track := tracks[i];
    forall j1, j2 | 0 <= j1 < j2 < |track|
      ensures track[j1] != track[j2]
    {
      assert owner[track[j1]] == Slot(i, j1);
      assert owner[track[j2]] == Slot(i, j2);
    }
  }

  /** The tracks of the profiles, in order. */
  ghost function TracksOf(profiles: seq<Profile>): (r: seq<seq<Point>>)
    reads profiles
    ensures |r| == |profiles| && forall k :: 0 <= k < |profiles| ==> r[k] == profiles[k].track
  {
    seq(|profiles|, k requires 0 <= k < |profiles| reads profiles => profiles[k].track)
  }

  /** The names of the profiles' places, in order. */
  ghost function Names(profiles: seq<Profile>): (r: seq<string>)
    reads profiles
    ensures |r| == |profiles| && forall k :: 0 <= k < |profiles| ==> r[k] == ProfileName(profiles[k].id)
  {
    seq(|profiles|, k requires 0 <= k < |profiles| reads profiles => ProfileName(profiles[k].id))
  }

  /** The places `getNearbyLandmarks2` reports for profiles with the given samples and names, in order. */
  function PlacesFor(tracks: seq<seq<Sample>>, names: seq<string>, t: int): seq<Place>
    requires |names| == |tracks| && forall k :: 0 <= k < |tracks| ==> 0 < |tracks[k]|
  {
    if tracks == [] then []
    else PlacesFor(tracks[..|tracks| - 1], names[..|names| - 1], t) + [PlaceFor(tracks[|tracks| - 1], t, names[|names| - 1])]
  }

  /** Extending the profiles by one adds that profile's place at the end. */
  lemma PlacesForStep(tracks: seq<seq<Sample>>, names: seq<string>, t: int, i: nat)
    requires |names| == |tracks| && forall k :: 0 <= k < |tracks| ==> 0 < |tracks[k]|
    requires i < |tracks|
    ensures PlacesFor(tracks[..i + 1], names[..i + 1], t) == PlacesFor(tracks[..i], names[..i], t) + [PlaceFor(tracks[i], t, names[i])]
  {
    assert tracks[..i + 1][..i] == tracks[..i];
    assert names[..i + 1][..i] == names[..i];
  }

  /** One place per profile, and the `k`-th is the place of the `k`-th profile. */
  lemma {:induction false} PlacesForIndex(tracks: seq<seq<Sample>>, names: seq<string>, t: int)
    requires |names| == |tracks| && forall k :: 0 <= k < |tracks| ==> 0 < |tracks[k]|
    ensures |PlacesFor(tracks, names, t)| == |tracks|
    ensures forall k :: 0 <= k < |tracks| ==> PlacesFor(tracks, names, t)[k] == PlaceFor(tracks[k], t, names[k])
    decreases |tracks|
  {
    if tracks != [] {
      var n := |tracks| - 1;
      PlacesForIndex(tracks[..n], names[..n], t);
    }
  }

  /** The samples of every track, in order. */
  ghost function Snapshot(tracks: seq<seq<Point>>, owner: map<Point, Slot>): (r: seq<seq<Sample>>)
    requires Owned(tracks, owner)
    reads owner.Keys
    ensures |r| == |tracks|
    ensures forall k :: 0 <= k < |tracks| ==> r[k] == Samples(tracks[k])
  {
    seq(|tracks|, k requires 0 <= k < |tracks| && Owned(tracks, owner) reads owner.Keys => Samples(tracks[k]))
  }

  /**
   * The tracks, whose points `owner` records, are not empty, the first `i` of them hold `AfterA`
   * of the samples in `before`, and the others hold the samples in `before`.
   */
  ghost predicate TracksAfter(tracks: seq<seq<Point>>, owner: map<Point, Slot>, before: seq<seq<Sample>>, t: int, i: nat)
    reads owner.Keys
  {
    Owned(tracks, owner) && |before| == |tracks| && i <= |tracks|
    && forall k :: 0 <= k < |tracks| ==>
         0 < |before[k]| && Samples(tracks[k]) == if k < i then AfterA(before[k], t) else before[k]
  }

  class Landmarks {
    /** The known places (`mPlaces`). */
    var mPlaces: seq<Place>
    /** The loaded profiles (`profiles`), in load order. */
    var profiles: seq<Profile>
    /** The points of the loaded tracks, and the slot of each. */
    ghost var Repr: set<Point>
    ghost var Owner: map<Point, Slot>

    /**
     * An empty store. The source's constructor starts a thread that runs the track loader;
     * here the loader is `PopulateTrackList`, called separately.
     */
    constructor ()
      ensures mPlaces == [] && profiles == [] && Repr == {} && Owner == map[]
    {
      mPlaces := [];
      profiles := [];
      Repr, Owner := {}, map[];
    }

    /** `Owner` records where each point of the loaded tracks sits. */
    ghost predicate Valid()
      reads this, profiles
    {
      Owned(TracksOf(profiles), Owner) && Repr == Owner.Keys
    }

    /** The known places within range of (latitude, longitude), in order (lines 100-111). */
    method GetNearbyLandmarks(latitude: real, longitude: real, distance: (real, real, real, real) -> real)
      returns (nearbyPlaces: seq<Place>)
      ensures nearbyPlaces == Nearby(mPlaces, latitude, longitude, distance)
    {
      nearbyPlaces := [];
      var i := 0;
      while i < |mPlaces|
        invariant 0 <= i <= |mPlaces|
        invariant nearbyPlaces == Nearby(mPlaces[..i], latitude, longitude, distance)
      {
        var knownPlace := mPlaces[i];
        if distance(latitude, longitude, knownPlace.latitude, knownPlace.longitude) <= MaxDistanceKm {
          nearbyPlaces := nearbyPlaces + [knownPlace];
        }
        assert mPlaces[..i + 1][..i] == mPlaces[..i];
        i := i + 1;
      }
      assert mPlaces[..i] == mPlaces;
    }

    /**
     * One place per profile, in profile order, at the position `GetPoint2` gives for time `t`,
     * named after the profile's id (lines 113-120). Each call to `GetPoint2` may retime the
     * last point of its track, so every track afterwards holds `AfterA` of what it held.
     */
    method GetNearbyLandmarks2(t: int) returns (nearbyPlaces: seq<Place>)
      requires Valid()
      requires forall i :: 0 <= i < |profiles| ==> 0 < |profiles[i].track|
      modifies Repr
      ensures Valid()
      ensures nearbyPlaces == PlacesFor(old(Snapshot(TracksOf(profiles), Owner)), Names(profiles), t)
      ensures |nearbyPlaces| == |profiles| && forall i :: 0 <= i < |profiles| ==>
                nearbyPlaces[i] == PlaceFor(old(Samples(profiles[i].track)), t, ProfileName(profiles[i].id))
      ensures forall i :: 0 <= i < |profiles| ==>
                Samples(profiles[i].track) == AfterA(old(Samples(profiles[i].track)), t)
    {
      ghost var tracks, names := TracksOf(profiles), Names(profiles);
      ghost var before := Snapshot(tracks, Owner);
      nearbyPlaces := PlaceAll(profiles, t, Owner, tracks, before, names);
      PlacesForIndex(before, names, t);
    }

    /**
     * The loop of `getNearbyLandmarks2` is at profile `i` of `all`: the first `i` tracks have
     * been retimed and `places` holds their places.
     */
    static ghost predicate Placed(all: seq<Profile>, t: int, owner: map<Point, Slot>, tracks: seq<seq<Point>>,
                                  before: seq<seq<Sample>>, names: seq<string>, i: nat, places: seq<Place>)
      reads all, owner.Keys
    {
      tracks == TracksOf(all) && names == Names(all) && TracksAfter(tracks, owner, before, t, i)
      && places == PlacesFor(before[..i], names[..i], t)
    }

    /** The loop of `getNearbyLandmarks2` (lines 115-118) over the profiles `all`. */
    static method PlaceAll(all: seq<Profile>, t: int, ghost owner: map<Point, Slot>, ghost tracks: seq<seq<Point>>,
                           ghost before: seq<seq<Sample>>, ghost names: seq<string>)
      returns (nearbyPlaces: seq<Place>)
      requires tracks == TracksOf(all) && names == Names(all) && TracksAfter(tracks, owner, before, t, 0)
      modifies owner.Keys
      ensures nearbyPlaces == PlacesFor(before, names, t)
      ensures tracks == TracksOf(all) && names == Names(all) && TracksAfter(tracks, owner, before, t, |all|)
    {
      nearbyPlaces := [];
      var i := 0;
      while i < |all|
        invariant i <= |all| && Placed(all, t, owner, tracks, before, names, i, nearbyPlaces)
      {
        nearbyPlaces := PlaceNext(all, t, i, owner, tracks, before, names, nearbyPlaces);
        i := i + 1;
      }
      assert before[..i] == before && names[..i] == names;
    }

    /** One pass of the loop of `getNearbyLandmarks2`: the place of profile `i` joins `places`. */
    static method PlaceNext(all: seq<Profile>, t: int, i: nat, ghost owner: map<Point, Slot>, ghost tracks: seq<seq<Point>>,
                            ghost before: seq<seq<Sample>>, ghost names: seq<string>, places: seq<Place>)
      returns (next: seq<Place>)
      requires i < |all| && Placed(all, t, owner, tracks, before, names, i, places)
      modifies owner.Keys
      ensures Placed(all, t, owner, tracks, before, names, i + 1, next)
    {
      var place := ProfilePlace(all[i], t, i, owner, tracks, before, names[i]);
      PlacesForStep(before, names, t, i);
      next := places + [place];
    }

    /**
     * The place of `profile`, the `i`-th, at time `t` (lines 116-117): its position by
     * `GetPoint2`, named after its id. Its track afterwards holds `AfterA` of what it held, and
     * the other tracks, which share no point with it, are as they were.
     */
    static method ProfilePlace(profile: Profile, t: int, ghost i: nat, ghost owner: map<Point, Slot>,
                               ghost tracks: seq<seq<Point>>, ghost before: seq<seq<Sample>>, ghost name: string)
      returns (place: Place)
      requires i < |tracks| && profile.track == tracks[i] && TracksAfter(tracks, owner, before, t, i)
      requires name == ProfileName(profile.id)
      modifies tracks[i][|tracks[i]| - 1]
      ensures place == PlaceFor(before[i], t, name)
      ensures TracksAfter(tracks, owner, before, t, i + 1)
    {
      var track := profile.track;
      OwnedDistinct(tracks, owner, i);
      var p := GetPoint2(track, t);
      assert Samples(track) == AfterA(before[i], t) by {
        forall j | 0 <= j < |track|
          ensures Samples(track)[j] == AfterA(before[i], t)[j]
        {
          assert track[j] == track[|track| - 1] <==> j == |track| - 1;
        }
      }
      forall k, j | 0 <= k < |tracks| && k != i && 0 <= j < |tracks[k]|
        ensures tracks[k][j] != track[|track| - 1]
      {
        assert owner[track[|track| - 1]] == Slot(i, |track| - 1);
      }
      place := Place(p.lat, p.lon, ProfileName(profile.id));
    }

    /**
     * Adds the places of a landmarks document (lines 127-144). `None` stands for a document
     * that is not a JSON object or has no `landmarks` array; both leave the list as it is. An
     * array element that is not an object ends the load with a `NullPointerException`; the
     * result says whether the whole array was read.
     */
    method PopulatePlaceList(document: Option<seq<Element>>) returns (completed: bool)
      modifies this`mPlaces
      ensures document.None? ==> mPlaces == old(mPlaces) && completed
      ensures document.Some? ==>
                var n := ObjectPrefix(document.value);
                mPlaces == old(mPlaces) + ValidPlaces(document.value[..n])
                && (completed <==> n == |document.value|)
    {
      if document.None? {
        return true;
      }
      var places;
      places, completed := ReadPlaces(document.value);
      mPlaces := mPlaces + places;
    }

    /**
     * The places of the `landmarks` array, in order, up to the first element that is not an
     * object, and whether there was none (lines 133-139).
     */
    static method ReadPlaces(elements: seq<Element>) returns (places: seq<Place>, completed: bool)
      ensures places == ValidPlaces(elements[..ObjectPrefix(elements)])
      ensures completed <==> ObjectPrefix(elements) == |elements|
    {
      places := [];
      var i := 0;
      while i < |elements|
        invariant 0 <= i <= |elements|
        invariant ObjectPrefix(elements) == i + ObjectPrefix(elements[i..])
        invariant places == ValidPlaces(elements[..i])
      {
        var entry := elements[i];
        if entry.None? {
          assert elements[i..][0] == entry;
          return places, false;
        }
        var place := JsonObjectToPlace(entry.value);
        ReadElement(elements, i);
        if place.Some? {
          places := places + [place.value];
        }
        i := i + 1;
      }
      completed := true;
    }

    /** One pass of the loading loop: a new profile with the given id and the track of one document (lines 310-368). */
    static method LoadProfile(id: int, content: string, ps: Parsers) returns (profile: Profile, failure: Option<ParseError>)
      ensures fresh(profile) && profile.id == id
      ensures ParseDocument(content, ps).Ok? ==>
                failure == None && Samples(profile.track) == ParseDocument(content, ps).value
      ensures ParseDocument(content, ps).Err? ==> failure == Some(ParseDocument(content, ps).error)
      ensures Distinct(profile.track) && forall q :: q in profile.track ==> fresh(q)
    {
      profile := new Profile();
      profile.id := id;
      var track;
      track, failure := ParseTrack(content, ps);
      profile.track := track;
    }

    /**
     * Loads one profile per document, in order, with the document's index as its id (lines
     * 304-379). A document that fails to parse ends the load: the profiles before it are kept,
     * it and the documents after it are not.
     */
    method PopulateTrackList(docs: seq<string>, ps: Parsers) returns (failure: Option<ParseError>)
      modifies this`profiles, this`Repr, this`Owner
      ensures |profiles| == FirstFailureFrom(docs, ps, 0)
      ensures forall i :: 0 <= i < |profiles| ==>
                profiles[i].id == i && ParseDocument(docs[i], ps) == Ok(Samples(profiles[i].track))
      ensures |profiles| == |docs| ==> failure == None
      ensures |profiles| < |docs| ==>
                ParseDocument(docs[|profiles|], ps).Err? && failure == Some(ParseDocument(docs[|profiles|], ps).error)
      ensures Valid()
      ensures fresh(Repr) && forall i :: 0 <= i < |profiles| ==> fresh(profiles[i])
    {
      ghost var owner;
      profiles, owner, failure := LoadAll(docs, ps);
      Repr, Owner := owner.Keys, owner;
    }

    /** The loading loop (lines 309-378): the profiles up to the first document that fails. */
    static method LoadAll(docs: seq<string>, ps: Parsers)
      returns (loaded: seq<Profile>, ghost owner: map<Point, Slot>, failure: Option<ParseError>)
      ensures |loaded| == FirstFailureFrom(docs, ps, 0)
      ensures forall i :: 0 <= i < |loaded| ==>
                loaded[i].id == i && ParseDocument(docs[i], ps) == Ok(Samples(loaded[i].track))
      ensures |loaded| == |docs| ==> failure == None
      ensures |loaded| < |docs| ==>
                ParseDocument(docs[|loaded|], ps).Err? && failure == Some(ParseDocument(docs[|loaded|], ps).error)
      ensures Owned(TracksOf(loaded), owner)
      ensures (forall q :: q in owner ==> fresh(q)) && forall i :: 0 <= i < |loaded| ==> fresh(loaded[i])
    {
      loaded, owner := [], map[];
      ghost var tracks: seq<seq<Point>> := [];
      var i := 0;
      while i < |docs|
        invariant 0 <= i <= |docs| && |loaded| == |tracks| == i
        invariant FirstFailureFrom(docs, ps, 0) == FirstFailureFrom(docs, ps, i)
        invariant forall k :: 0 <= k < i ==>
                    loaded[k].id == k && loaded[k].track == tracks[k] && ParseDocument(docs[k], ps) == Ok(Samples(tracks[k]))
        invariant Owned(tracks, owner)
        invariant (forall q :: q in owner ==> fresh(q)) && forall k :: 0 <= k < i ==> fresh(loaded[k])
      {
        var profile, parseFailure := LoadProfile(i, docs[i], ps);
        if parseFailure.Some? {
          assert TracksOf(loaded) == tracks;
          return loaded, owner, parseFailure;
        }
        OwnedAppend(tracks, owner, profile.track);
        owner := Claim(owner, profile.track, |tracks|);
        tracks := tracks + [profile.track];
        loaded := loaded + [profile];
        i := i + 1;
      }
      assert TracksOf(loaded) == tracks;
      failure := None;
    }
  }

  /** A lone sample queried at its own time, under id 0, is the place at its coordinates named "id0". */
  lemma LonePlace(x: Sample)
    ensures PlacesFor([[x]], [ProfileName(0)], x.time) == [Place(x.lat, x.lon, "id0")]
  {
    IntToStringExamples();
    assert ProfileName(0) == "id0";
    assert PlacesFor([[x]], [ProfileName(0)], x.time) == [PlaceFor([x], x.time, ProfileName(0))];
  }

  /**
   * Loading then querying: a new store that loads one document whose track is the single
   * sample `x` (such as the one-point document) reports, at the sample's time, that profile,
   * id 0, as the place at the sample's coordinates named "id0".
   */
  method LoadThenPlace(doc: string, ps: Parsers, x: Sample) returns (places: seq<Place>)
    requires ParseDocument(doc, ps) == Ok([x])
    ensures places == [Place(x.lat, x.lon, "id0")]
  {
    var store := new Landmarks();
    var failure := store.PopulateTrackList([doc], ps);
    assert FirstFailureFrom([doc], ps, 0) == 1;
    places := store.GetNearbyLandmarks2(x.time);
    LonePlace(x);
  }
}
