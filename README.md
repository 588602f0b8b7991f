# Landmarks: track interpolation, GPX track loading and place filters

This project models the `Landmarks` store of the compass sample (`Landmarks.java`), which does three things:

- It keeps a list of known places (`mPlaces`) and returns the ones within 10 km of a position (`getNearbyLandmarks`).
- It loads GPS tracks from GPX text, one `Profile` per document, each a list of `Point`s (`populateTrackList`).
- It turns the tracks into places at a given time (`getNearbyLandmarks2`). Each profile is placed by the interpolator `getPoint2`.

The second interpolator, `getPoint`, is also modelled. So is the JSON filter that converts landmark objects into places (`jsonObjectToPlace` / `populatePlaceList`).

## Layout

- `wrappers.dfy` (`Wrappers`): the `Option` and `Result` datatypes.
- `tracks.dfy` (`Tracks`): the `Point` class and the `Profile` class.
  - `Point` has mutable `lat`, `lon` and `timeInSeconds`.
  - `Profile` has `track` and `id`.
  - `Sample` is the value a `Point` holds, and `Samples` gives the values of a track.
- `interpolation.dfy` (`Interpolation`): `getPoint2` and `getPoint`.
  - Each one is specified by a function on the track's values (`PolicyA`, `PolicyB`).
  - Each one is implemented by a method that loops over the `Point` objects as the source does.
  - `GetPoint2` modifies the last point of the track in its fallback case, as line 216 does.
- `tokenizer.dfy` (`Tokenizer`): `StringTokenizer` with delimiters `" =<>\""`.
- `parser.dfy` (`TrackParser`): the token state machine of `populateTrackList`.
  - The functions `Outer`, `InTrk` and `InPoint` specify it.
  - The methods `ParseTrack` and `ReadPoint` implement it with the source's nested loops.
- `places.dfy` (`Places`): `Place`, the landmark-object check, and the proximity filter as order-preserving filters.
- `decimal.dfy` (`Decimal`): `Integer.toString`, which gives the `"id" + id` place names.
- `landmarks.dfy` (`Model`): the `Landmarks` class and its operations.
  - Its fields are `mPlaces` and `profiles`.
  - The ghost map `Owner` records the track and position of every loaded `Point`. This shows that no point sits in two tracks, so retiming one track's last point leaves every other track unchanged.

## Behaviour of the code that the model keeps

- **`getPoint` (policy B).**
  - `previous` is reassigned from `current`, and `current` changes only just before the loop exits. So `previous` is always the first sample.
  - The result therefore blends the first sample with the first later sample.
  - When every sample is earlier than `t`, the result has the first sample's coordinates.
- **`getPoint2` (policy A) fallback.** The stored last `Point` is retimed in place and returned. This affects later queries (`FallbackChangesLaterQueries`).
- **A document that fails to parse ends the whole load.** The possible failures are:
  - a key with no token after it;
  - a number that does not parse;
  - a point date that does not parse;
  - a point time before any start time.

  Each of these throws an exception that nothing catches, so the loading thread stops. The profiles loaded before that document remain, and no later document is read. The model does the same (`PopulateTrackList`, `FirstFailureFrom`). Skipping the failing document and loading the rest would be a different behaviour: the code does not catch the exception, so the model does not either.
- **`populatePlaceList` is never called in the source.** Its call in the constructor (lines 80-81) is commented out, so there `mPlaces` stays empty and `getNearbyLandmarks` always returns an empty list. The model lets `PopulatePlaceList` be called, so that the filter and the proximity query can be stated over non-empty place lists.

## Model

| member | source | states |
|---|---|---|
| Tracks.Point.constructor | app/src/main/java/com/google/android/glass/sample/compass/model/Landmarks.java:393-397 | A new point is at latitude 0, longitude 0, time 0 |
| Tracks.Profile.constructor | app/src/main/java/com/google/android/glass/sample/compass/model/Landmarks.java:383-388 | A new profile has an empty track and id 0 |
| Interpolation.ScanFromA | app/src/main/java/com/google/android/glass/sample/compass/model/Landmarks.java:197-214 | The scan stops at an index whose time equals `t`, or at a pair whose previous time is ≤ `t` and whose current time is > `t` |
| Interpolation.ScanFromAFirstStop | app/src/main/java/com/google/android/glass/sample/compass/model/Landmarks.java:197-214 | The scan stops at the first index that matches or brackets `t`, and is exhausted only when no index does. A bracket is strict on both sides |
| Interpolation.PolicyA | app/src/main/java/com/google/android/glass/sample/compass/model/Landmarks.java:192-218 | `getPoint2` on the track's values: the first matching sample, the blend of the first bracketing pair, or else the last sample. The result is always at time `t` |
| Interpolation.BlendA | app/src/main/java/com/google/android/glass/sample/compass/model/Landmarks.java:203-210 | The new point at time `t`, on the straight line from the previous sample to the current one, at the fraction of the time span that `t` has covered |
| Interpolation.PolicyAExact | app/src/main/java/com/google/android/glass/sample/compass/model/Landmarks.java:201 | On a sorted track, the first sample whose time equals `t` is the result |
| Interpolation.PolicyABracket | app/src/main/java/com/google/android/glass/sample/compass/model/Landmarks.java:202-211 | At a bracket, the divisor is positive. The result is at time `t`, with coordinates `prev + (t - prev.time)/(cur.time - prev.time) * (cur - prev)`, each between the pair's values |
| Interpolation.PolicyASortedBracket | app/src/main/java/com/google/android/glass/sample/compass/model/Landmarks.java:202-211 | On a sorted track, a `t` strictly between consecutive samples is bracketed by exactly those two samples |
| Interpolation.PolicyAFallback | app/src/main/java/com/google/android/glass/sample/compass/model/Landmarks.java:215-217 | On a sorted track, the scan is exhausted exactly when `t` is before the first sample or after the last. The result is then the last sample at time `t` |
| Interpolation.PolicyASingle | app/src/main/java/com/google/android/glass/sample/compass/model/Landmarks.java:192-218 | A one-sample track gives that sample's coordinates at time `t` |
| Interpolation.AfterA | app/src/main/java/com/google/android/glass/sample/compass/model/Landmarks.java:215-216 | After a query, the track's values are unchanged except the last one. The last one is retimed to `t` exactly when the scan was exhausted |
| Interpolation.FallbackChangesLaterQueries | app/src/main/java/com/google/android/glass/sample/compass/model/Landmarks.java:215-216 | A fallback query changes the answer to a later query on the same track |
| Interpolation.GetPoint2 | app/src/main/java/com/google/android/glass/sample/compass/model/Landmarks.java:192-218 | The result holds `PolicyA` of the track's values. It depends on the scan: <br>- match: the stored point itself; <br>- bracket: a fresh point; <br>- fallback: the stored last point. <br>Only the fallback changes a point: the last one, whose time becomes `t` |
| Interpolation.ScanFromB | app/src/main/java/com/google/android/glass/sample/compass/model/Landmarks.java:227-235 | The search stops at the first sample whose time is ≥ `t`. All samples before it are earlier than `t` |
| Interpolation.PolicyB | app/src/main/java/com/google/android/glass/sample/compass/model/Landmarks.java:220-254 | `getPoint` on the track's values: the first sample at time `t`, or the first sample blended towards the first later sample (towards itself when there is none). The result is always at time `t` |
| Interpolation.Divide | app/src/main/java/com/google/android/glass/sample/compass/model/Landmarks.java:241-251 | The new point at time `t`: the first point moved towards the second by the scaled time difference |
| Interpolation.Scaled | app/src/main/java/com/google/android/glass/sample/compass/model/Landmarks.java:245-247 | The time difference divided by the span, or left undivided when the span is zero |
| Interpolation.PolicyBExact | app/src/main/java/com/google/android/glass/sample/compass/model/Landmarks.java:229-230 | On a sorted track, the first sample whose time equals `t` is the result |
| Interpolation.PolicyBBeforeFirst | app/src/main/java/com/google/android/glass/sample/compass/model/Landmarks.java:231-250 | When the first sample is later than `t`, the result is the first sample's coordinates at time `t` |
| Interpolation.PolicyBLater | app/src/main/java/com/google/android/glass/sample/compass/model/Landmarks.java:226-253 | Stopping at a later sample `i > 0` blends the first sample with sample `i`, using the fraction `(t - time0)/(time_i - time0)`, and each coordinate lies between the two |
| Interpolation.PolicyBAfterAll | app/src/main/java/com/google/android/glass/sample/compass/model/Landmarks.java:237-250 | When every sample is earlier than `t`, the result is the first sample's coordinates, not the last's, at time `t` |
| Interpolation.PolicyBSingle | app/src/main/java/com/google/android/glass/sample/compass/model/Landmarks.java:220-254 | A one-sample track gives that sample's coordinates at time `t` |
| Interpolation.PoliciesDiffer | app/src/main/java/com/google/android/glass/sample/compass/model/Landmarks.java:192-254 | On the same track and time the two interpolators give different points |
| Interpolation.GetPoint | app/src/main/java/com/google/android/glass/sample/compass/model/Landmarks.java:220-254 | The result holds `PolicyB` of the track's values. It is the stored point on an exact match, and a fresh point otherwise. The track is unchanged |
| Tokenizer.Tokens | app/src/main/java/com/google/android/glass/sample/compass/model/Landmarks.java:319-322 | Every token is a non-empty run of non-delimiters. `TokensAreMaximalRuns` and `TokensKeepCharacters` state that these are exactly the text's maximal runs |
| Tokenizer.TokensOfJoinedWords | app/src/main/java/com/google/android/glass/sample/compass/model/Landmarks.java:319 | Tokenizing space-separated words gives back exactly those words |
| Tokenizer.TokensAreMaximalRuns | app/src/main/java/com/google/android/glass/sample/compass/model/Landmarks.java:319-322 | Every text is its tokens with delimiter runs around and between them, and at least one delimiter separates consecutive tokens. So the tokens are the maximal runs of non-delimiters, in order |
| Tokenizer.GapsOf | app/src/main/java/com/google/android/glass/sample/compass/model/Landmarks.java:319-322 | The delimiter runs around the tokens of a text, the first one non-empty when the text starts with a delimiter |
| Tokenizer.TokensKeepCharacters | app/src/main/java/com/google/android/glass/sample/compass/model/Landmarks.java:319-322 | The tokens put together are the text with its delimiters removed |
| TrackParser.ElapsedSeconds | app/src/main/java/com/google/android/glass/sample/compass/model/Landmarks.java:358 | The whole seconds in a number of milliseconds, truncated toward zero, for either sign |
| TrackParser.ElapsedSecondsTruncates | app/src/main/java/com/google/android/glass/sample/compass/model/Landmarks.java:358 | The truncated division differs from Euclidean division on negative values |
| TrackParser.Outer | app/src/main/java/com/google/android/glass/sample/compass/model/Landmarks.java:321-368 | The outer loop: `trk` looks for the start time, `trkpt` reads a point, `/trkseg` ends the parse, and other tokens are skipped |
| TrackParser.InTrk | app/src/main/java/com/google/android/glass/sample/compass/model/Landmarks.java:324-336 | After `trk`: the first `time` key sets the start time when its date parses and otherwise leaves it unchanged. A `time` with no token after it is an error |
| TrackParser.InPoint | app/src/main/java/com/google/android/glass/sample/compass/model/Landmarks.java:339-364 | Inside `trkpt`: `lat`, `lon` and `time` set the point's fields, and `/trkpt` appends it. A missing value, a bad number, a bad date or a missing start time is an error |
| TrackParser.ParseDocument | app/src/main/java/com/google/android/glass/sample/compass/model/Landmarks.java:319-368 | The track a document yields: the parse of its tokens with no start time and no points |
| TrackParser.OuterExtends | app/src/main/java/com/google/android/glass/sample/compass/model/Landmarks.java:321-368 | Points are only appended: the points collected so far are a prefix of any successful result |
| TrackParser.UnterminatedPointDropped | app/src/main/java/com/google/android/glass/sample/compass/model/Landmarks.java:339-364 | A `trkpt` with no `/trkpt` ahead either fails or adds nothing |
| TrackParser.StopsAtSegmentEnd | app/src/main/java/com/google/android/glass/sample/compass/model/Landmarks.java:365-366 | Parsing ends at the first `/trkseg` outside an element, whatever follows it |
| TrackParser.StartTime | app/src/main/java/com/google/android/glass/sample/compass/model/Landmarks.java:323-335 | `trk time d`, where `d` parses, sets the start time |
| TrackParser.WellFormedPoint | app/src/main/java/com/google/android/glass/sample/compass/model/Landmarks.java:337-363 | A complete `trkpt` appends one sample with its coordinates and the truncated seconds since the start |
| TrackParser.PointBeforeStartTime | app/src/main/java/com/google/android/glass/sample/compass/model/Landmarks.java:358 | A point time before any start time is an error |
| TrackParser.SkipsOtherTokens | app/src/main/java/com/google/android/glass/sample/compass/model/Landmarks.java:339-363 | Tokens that are not keys leave the point being read unchanged until `/trkpt` appends it |
| TrackParser.PointWithoutKeys | app/src/main/java/com/google/android/glass/sample/compass/model/Landmarks.java:338-363 | A `trkpt` with no `lat`, `lon` or `time` adds the point at (0, 0) and time 0 |
| TrackParser.PointWithoutTime | app/src/main/java/com/google/android/glass/sample/compass/model/Landmarks.java:338-363 | A `trkpt` with `lat` and `lon` but no `time` adds a point at those coordinates with time 0 |
| TrackParser.PointWithoutCoordinates | app/src/main/java/com/google/android/glass/sample/compass/model/Landmarks.java:338-363 | A `trkpt` with only a `time` adds a point at (0, 0) with the seconds since the start |
| TrackParser.OnePointWords | app/src/main/java/com/google/android/glass/sample/compass/model/Landmarks.java:319-322 | The text of a one-point document tokenizes into its words |
| TrackParser.OnePointTrack | app/src/main/java/com/google/android/glass/sample/compass/model/Landmarks.java:321-368 | The tokens of a one-point document give one sample at its coordinates and time 10 |
| TrackParser.OnePointDocument | app/src/main/java/com/google/android/glass/sample/compass/model/Landmarks.java:313-368 | A one-point document loads as that one sample |
| TrackParser.ReadPoint | app/src/main/java/com/google/android/glass/sample/compass/model/Landmarks.java:338-364 | The `trkpt` loop returns a fresh point holding what `InPoint` specifies. It says whether `/trkpt` was reached, and returns the error `InPoint` gives where the source throws |
| TrackParser.ParseTrack | app/src/main/java/com/google/android/glass/sample/compass/model/Landmarks.java:313-368 | The loop gives exactly `ParseDocument`: on success the track's points, which are fresh and distinct, hold the samples. On failure the same error is returned |
| Places.JsonObjectToPlace | app/src/main/java/com/google/android/glass/sample/compass/model/Landmarks.java:149-159 | A place exactly when the name is non-empty and both coordinates are numbers. The place then carries those values |
| Places.Converted | app/src/main/java/com/google/android/glass/sample/compass/model/Landmarks.java:134-135 | The place an array element contributes: none unless it is an object that converts |
| Places.ObjectPrefix | app/src/main/java/com/google/android/glass/sample/compass/model/Landmarks.java:133-135 | The number of leading objects. The element after them, if any, is not an object |
| Places.ValidPlaces | app/src/main/java/com/google/android/glass/sample/compass/model/Landmarks.java:133-139 | The places of the elements, in array order, without the elements that do not convert |
| Places.IsNear | app/src/main/java/com/google/android/glass/sample/compass/model/Landmarks.java:104-105 | A place is near when its distance is at most 10 km |
| Places.Nearby | app/src/main/java/com/google/android/glass/sample/compass/model/Landmarks.java:100-111 | The known places that are near, in their original order |
| Places.ValidPlacesAppend | app/src/main/java/com/google/android/glass/sample/compass/model/Landmarks.java:133-139 | The filter keeps array order across concatenation |
| Places.ValidPlacesMembers | app/src/main/java/com/google/android/glass/sample/compass/model/Landmarks.java:133-139 | A place is kept exactly when some element converts to it |
| Places.ValidPlacesNamed | app/src/main/java/com/google/android/glass/sample/compass/model/Landmarks.java:154 | No kept place has an empty name |
| Places.NearbyAppend | app/src/main/java/com/google/android/glass/sample/compass/model/Landmarks.java:103-108 | The proximity filter distributes over concatenation |
| Places.NearbyMembers | app/src/main/java/com/google/android/glass/sample/compass/model/Landmarks.java:56 | A place is returned exactly when it is known and at most 10 km away, the boundary included |
| Places.NearbyCounts | app/src/main/java/com/google/android/glass/sample/compass/model/Landmarks.java:100-111 | Each near place is returned as often as it is known. A far one is never returned |
| Places.NearbyIdempotent | app/src/main/java/com/google/android/glass/sample/compass/model/Landmarks.java:100-111 | Filtering the result again changes nothing |
| Decimal.NatToStringRoundTrip | app/src/main/java/com/google/android/glass/sample/compass/model/Landmarks.java:117 | The decimal digits of `n` read back as `n` |
| Decimal.NatToString | app/src/main/java/com/google/android/glass/sample/compass/model/Landmarks.java:117 | The decimal digits of a natural number, with no leading zero |
| Decimal.IntToString | app/src/main/java/com/google/android/glass/sample/compass/model/Landmarks.java:117 | The text Java gives an `int`: a minus sign for a negative number, then the digits of its magnitude |
| Decimal.IntToStringRoundTrip | app/src/main/java/com/google/android/glass/sample/compass/model/Landmarks.java:117 | The id's text is a numeral, and it reads back as the id |
| Decimal.NamesDistinct | app/src/main/java/com/google/android/glass/sample/compass/model/Landmarks.java:117 | Two ids give the same `"id" + id` name exactly when they are equal |
| Decimal.IntToStringExamples | app/src/main/java/com/google/android/glass/sample/compass/model/Landmarks.java:117 | The texts of 0, 17 and -5 |
| Model.FirstFailureFrom | app/src/main/java/com/google/android/glass/sample/compass/model/Landmarks.java:309-379 | The number of documents loaded: between the start and the document count |
| Model.FirstFailureIsFirst | app/src/main/java/com/google/android/glass/sample/compass/model/Landmarks.java:309-379 | Every document before that point parses, and the one at it, if any, does not |
| Model.AllLoaded | app/src/main/java/com/google/android/glass/sample/compass/model/Landmarks.java:309-379 | All documents are loaded exactly when every document parses |
| Model.ProfileName | app/src/main/java/com/google/android/glass/sample/compass/model/Landmarks.java:117 | The name of a profile's place: `"id"` followed by the id's decimal text |
| Model.PlaceFor | app/src/main/java/com/google/android/glass/sample/compass/model/Landmarks.java:116-117 | The place of one profile: the position `getPoint2` gives at time `t` under the given name |
| Model.PlacesFor | app/src/main/java/com/google/android/glass/sample/compass/model/Landmarks.java:113-120 | The places of all profiles, one per profile, in profile order |
| Model.OwnedAppend | app/src/main/java/com/google/android/glass/sample/compass/model/Landmarks.java:361 | A track of new, distinct points can join the recorded tracks |
| Model.OwnedDistinct | app/src/main/java/com/google/android/glass/sample/compass/model/Landmarks.java:361 | The points of a recorded track are distinct |
| Model.Names | app/src/main/java/com/google/android/glass/sample/compass/model/Landmarks.java:117 | The `k`-th name is `"id"` followed by the `k`-th profile's id |
| Model.PlacesForStep | app/src/main/java/com/google/android/glass/sample/compass/model/Landmarks.java:115-118 | One more profile adds its place at the end |
| Model.PlacesForIndex | app/src/main/java/com/google/android/glass/sample/compass/model/Landmarks.java:113-120 | One place per profile. The `k`-th is `PolicyA` of the `k`-th track at `t` under the `k`-th name |
| Model.LonePlace | app/src/main/java/com/google/android/glass/sample/compass/model/Landmarks.java:113-120 | A one-sample track queried at its sample's time under id 0 gives the place at the sample's coordinates named "id0" |
| Model.Landmarks.constructor | app/src/main/java/com/google/android/glass/sample/compass/model/Landmarks.java:72-93 | A new store has no places and no profiles |
| Model.Landmarks.GetNearbyLandmarks | app/src/main/java/com/google/android/glass/sample/compass/model/Landmarks.java:100-111 | The result is `Nearby` of the known places: the order-preserving sublist within 10 km |
| Model.Landmarks.GetNearbyLandmarks2 | app/src/main/java/com/google/android/glass/sample/compass/model/Landmarks.java:113-120 | Requires non-empty tracks. The result is `PlacesFor` of the tracks' earlier values and the names: one place per profile, in profile order, the i-th being `PlaceFor` of profile i's earlier track, the time and `ProfileName` of its id. Every track afterwards holds `AfterA` of its earlier values, and the ownership invariant is kept |
| Model.Landmarks.PlaceAll | app/src/main/java/com/google/android/glass/sample/compass/model/Landmarks.java:115-118 | The loop's result is `PlacesFor`, and every track is retimed by `AfterA` |
| Model.Landmarks.PlaceNext | app/src/main/java/com/google/android/glass/sample/compass/model/Landmarks.java:115-118 | One pass adds the next profile's place and retimes only that profile's track |
| Model.Landmarks.ProfilePlace | app/src/main/java/com/google/android/glass/sample/compass/model/Landmarks.java:116-117 | The place is `getPoint2`'s position under the profile's name. Its track holds `AfterA`, and the other tracks are unchanged |
| Model.Landmarks.PopulatePlaceList | app/src/main/java/com/google/android/glass/sample/compass/model/Landmarks.java:127-144 | With no array, nothing changes. Otherwise the valid places of the leading objects are appended in order, and `completed` says whether every element was an object |
| Model.Landmarks.ReadPlaces | app/src/main/java/com/google/android/glass/sample/compass/model/Landmarks.java:133-139 | The loop gives `ValidPlaces` of the leading objects, and whether it reached the end |
| Model.Landmarks.LoadProfile | app/src/main/java/com/google/android/glass/sample/compass/model/Landmarks.java:310-368 | A fresh profile with the given id, whose track holds the document's parse, or the parse error |
| Model.Landmarks.PopulateTrackList | app/src/main/java/com/google/android/glass/sample/compass/model/Landmarks.java:300-380 | Loads the profiles up to the first failing document, with ids `0..n-1` in order. Each loaded track holds its document's parse. It returns the failure of the first failing document, or none |
| Model.Landmarks.LoadAll | app/src/main/java/com/google/android/glass/sample/compass/model/Landmarks.java:309-379 | The loading loop gives the same profiles, ids and failure, with every point recorded. The profiles and points are new objects |
| Model.LoadThenPlace | app/src/main/java/com/google/android/glass/sample/compass/model/Landmarks.java:72-120 | A new store that loads one document whose track is one sample reports, at that sample's time, the place at its coordinates named "id0". Loaded profiles and points are new objects, so the query can follow the load |

## Left out

- `getHTML`, `downloadTrack` and `readLandmarksResource` (HTTP and resource I/O) are left out. `PopulateTrackList` takes the text of each document instead. Its number of documents is any number, where the source fixes two URLs.
- The JSON text parser is left out. `PopulatePlaceList` takes the `landmarks` array as already-parsed records, or `None` when there is no array or the text is not JSON. Both leave the list unchanged in the source.
- `MathUtils.getDistance`, `Double.parseDouble` and `SimpleDateFormat.parse` are foreign code. They are function-valued parameters.
- Floating point is not modelled: coordinates are reals, and NaN is `None`.
- `timeInSeconds` is modelled as an int. The source stores it as a `double`, but it only ever receives whole numbers there: 0, `t`, or a `long` divided by 1000. The division truncates toward zero, as Java's does (`ElapsedSeconds`). A time difference too large for a double's 53-bit mantissa would round in the source and not here.
- GetNearbyLandmarks2: requires every track to be non-empty, where the source throws `ArrayIndexOutOfBoundsException` at line 195. That case does occur: `getHTML` swallows every exception and returns "" (lines 271-276), so a failed fetch loads a profile with an empty track, and every later `getNearbyLandmarks2` call throws. The model does not capture that exception.
- GetPoint2 and GetPoint: require a non-empty track, for the same reason (line 195 and line 223).
- The background thread started by the constructor is not modelled. The constructor leaves loading to `PopulateTrackList`.
- The race in which `getNearbyLandmarks2` runs before or during loading is not modelled. This includes `profiles` being null and the partial list being visible.
- `PopulateTrackList` and `LoadAll` build the profile list in a local sequence and assign it at the end. The source adds to the shared `Vector` as it goes. Sequentially the outcome is the same.
- `Point.toString`, logging and `printStackTrace` are left out. They affect no state.
- `LearnActivity.java` is Android UI glue and is not part of this model.
