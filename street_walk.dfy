/** The body of `main` after geocoding: the walk along the street, one
    nearby search per sample point, deduplication, the bounding-box filter
    and the decision whether there is anything to save. */
module StreetWalk {
  import opened Places
  import opened BoundingBoxes
  import opened StreetFilter
  import opened Dedupe
  import opened NearbySearch
  import opened Text
  import opened Sequences

  /** The fixed parameters of `main`: street, radius and step count. */
  const Street := "Union Street"
  const Radius := 100
  const Steps: nat := 20

  /** `lng_step`: the longitude advance between two sample points. It points
      from the start towards the end; that `steps` of them lead exactly to
      the end's longitude is `SamplePointEnds`. */
  function LngStep(start: Coordinate, end: Coordinate, steps: nat): (step: real)
    requires steps > 0
    ensures step < 0.0 <==> end.lng < start.lng
    ensures step == 0.0 <==> end.lng == start.lng
  {
    (end.lng - start.lng) / (steps as real)
  }

  /** The `k`-th point searched: latitude of the start, longitude advanced
      `k` steps. */
  function SamplePoint(start: Coordinate, end: Coordinate, steps: nat, k: nat): Coordinate
    requires steps > 0
  {
    Coordinate(start.lat, start.lng + (k as real) * LngStep(start, end, steps))
  }

  /** The walk starts at the start point and its last point has the end's
      longitude (but still the start's latitude). */
  lemma SamplePointEnds(start: Coordinate, end: Coordinate, steps: nat)
    requires steps > 0
    ensures SamplePoint(start, end, steps, 0) == start
    ensures SamplePoint(start, end, steps, steps) == Coordinate(start.lat, end.lng)
  {
    var d := end.lng - start.lng;
    var n := steps as real;
    assert n * (d / n) == d;
  }

  /** Every sample point lies in the bounding box of the two ends. */
  lemma SamplePointInBox(start: Coordinate, end: Coordinate, steps: nat, k: nat)
    requires steps > 0 && k <= steps
    ensures InBox(SamplePoint(start, end, steps, k), BoundingBoxOf(start, end))
  {
    var d := end.lng - start.lng;
    var n := steps as real;
    var t := (k as real) * (d / n);
    FractionBetween(k as real, n, d);
    assert SamplePoint(start, end, steps, k).lng == start.lng + t;
  }

  /** A fraction `k / n` of `d`, for `0 <= k <= n`, lies between 0 and `d`. */
  lemma FractionBetween(k: real, n: real, d: real)
    requires 0.0 <= k <= n && n > 0.0
    ensures d >= 0.0 ==> 0.0 <= k * (d / n) <= d
    ensures d < 0.0 ==> d <= k * (d / n) <= 0.0
  {
    var q := d / n;
    assert n * q == d;
    if d >= 0.0 {
      assert q >= 0.0;
      assert k * q <= n * q;
    } else {
      assert q < 0.0;
      assert n * q <= k * q;
    }
  }

  /** Advancing a sample point by `lng_step` gives the next one. */
  lemma SamplePointNext(start: Coordinate, end: Coordinate, steps: nat, k: nat)
    requires steps > 0
    ensures SamplePoint(start, end, steps, k + 1) ==
      SamplePoint(start, end, steps, k).(lng := SamplePoint(start, end, steps, k).lng + LngStep(start, end, steps))
  {
    var d := LngStep(start, end, steps);
    assert ((k + 1) as real) * d == (k as real) * d + d;
  }

  /** The results of the searches, one after the other. */
  function Gathered(responses: seq<seq<Response>>): seq<Place>
  {
    if responses == [] then []
    else Gathered(responses[..|responses| - 1]) + Accumulated(responses[|responses| - 1])
  }

  lemma GatheredStep(responses: seq<seq<Response>>, step: nat)
    requires step < |responses|
    ensures Gathered(responses[..step + 1]) == Gathered(responses[..step]) + Accumulated(responses[step])
  {
    assert responses[..step + 1][..step] == responses[..step];
  }

  /** The requests of one search: one per answer up to the answer that
      ended it, every one sent at `location` with `radius`. */
  ghost predicate SearchedAt(requests: seq<Request>, answers: seq<Response>, location: Coordinate, radius: int)
    requires Completes(answers)
  {
    && |requests| == FirstStop(answers) + 1
    && forall j :: 0 <= j < |requests| ==> requests[j].location == location && requests[j].radius == radius
  }

  /** The requests one search sends are sent where it searches. */
  lemma RequestLogSearchedAt(location: Coordinate, radius: int, answers: seq<Response>)
    requires Completes(answers)
    ensures SearchedAt(RequestLog(location, radius, answers, FirstStop(answers) + 1), answers, location, radius)
  {
    RequestLogAt(location, radius, answers, FirstStop(answers) + 1);
  }

  /** The first `|requests|` searches of the walk were each sent at their
      sample point, as `SearchedAt` says. */
  ghost predicate SearchedAlong(requests: seq<seq<Request>>, responses: seq<seq<Response>>,
                                start: Coordinate, end: Coordinate, steps: nat, radius: int)
    requires steps > 0 && |requests| <= |responses|
  {
    requests == [] ||
    var n := |requests| - 1;
    && SearchedAlong(requests[..n], responses, start, end, steps, radius)
    && Completes(responses[n])
    && SearchedAt(requests[n], responses[n], SamplePoint(start, end, steps, n), radius)
  }

  lemma SearchedAlongStep(requests: seq<seq<Request>>, responses: seq<seq<Response>>,
                          start: Coordinate, end: Coordinate, steps: nat, radius: int, next: seq<Request>)
    requires steps > 0 && |requests| < |responses|
    requires SearchedAlong(requests, responses, start, end, steps, radius)
    requires Completes(responses[|requests|])
    requires SearchedAt(next, responses[|requests|], SamplePoint(start, end, steps, |requests|), radius)
    ensures SearchedAlong(requests + [next], responses, start, end, steps, radius)
  {
    assert (requests + [next])[..|requests|] == requests;
  }

  lemma {:induction false} SearchedAlongAll(requests: seq<seq<Request>>, responses: seq<seq<Response>>,
                                            start: Coordinate, end: Coordinate, steps: nat, radius: int)
    requires steps > 0 && |requests| <= |responses|
    requires SearchedAlong(requests, responses, start, end, steps, radius)
    ensures forall k :: 0 <= k < |requests| ==>
      Completes(responses[k]) &&
      SearchedAt(requests[k], responses[k], SamplePoint(start, end, steps, k), radius)
  {
    if requests != [] {
      var n := |requests| - 1;
      SearchedAlongAll(requests[..n], responses, start, end, steps, radius);
      assert forall k :: 0 <= k < n ==> requests[..n][k] == requests[k];
    }
  }

  /** Merging the results of one more search into the deduplicated results
      so far deduplicates the longer list of results. */
  lemma DedupGatheredStep(responses: seq<seq<Response>>, step: nat)
    requires step < |responses|
    ensures AddNew(Dedup(Gathered(responses[..step])), Accumulated(responses[step])) ==
      Dedup(Gathered(responses[..step + 1]))
  {
    GatheredStep(responses, step);
    AddNewAppend([], Gathered(responses[..step]), Accumulated(responses[step]));
  }

  /** The sampling loop. `responses[k]` are the answers the places service
      gives to the `k`-th search, and `requests[k]` are the requests that
      search sends: every one of them at the `k`-th sample point with the
      given radius. What is kept is the deduplication of all the results
      together. */
  method CollectAlongStreet(start: Coordinate, end: Coordinate, steps: nat, radius: int,
                            responses: seq<seq<Response>>)
    returns (restaurants: seq<Place>, requests: seq<seq<Request>>)
    requires steps > 0
    requires |responses| == steps + 1
    requires forall k :: 0 <= k < |responses| ==> Completes(responses[k])
    ensures restaurants == Dedup(Gathered(responses))
    ensures DistinctIds(restaurants)
    ensures |requests| == steps + 1
    ensures forall k :: 0 <= k < |requests| ==>
      SearchedAt(requests[k], responses[k], SamplePoint(start, end, steps, k), radius)
  {
    restaurants := [];
    var seenPlaces: set<PlaceKey> := {};
    requests := [];
    var lngStep := (end.lng - start.lng) / (steps as real);
    var currentLocation := start;
    for step := 0 to steps + 1
      invariant currentLocation == SamplePoint(start, end, steps, step)
      invariant |requests| == step
      invariant SearchedAlong(requests, responses, start, end, steps, radius)
      invariant restaurants == Dedup(Gathered(responses[..step]))
      invariant seenPlaces == Ids(restaurants)
      invariant DistinctIds(restaurants)
    {
      var newRestaurants, pageRequests := FetchRestaurantsNearby(currentLocation, radius, responses[step]);
      RequestLogSearchedAt(currentLocation, radius, responses[step]);
      SearchedAlongStep(requests, responses, start, end, steps, radius, pageRequests);
      requests := requests + [pageRequests];
      restaurants, seenPlaces := MergeNew(restaurants, seenPlaces, newRestaurants);
      DedupGatheredStep(responses, step);
      SamplePointNext(start, end, steps, step);
      currentLocation := currentLocation.(lng := currentLocation.lng + lngStep);
    }
    assert responses[..steps + 1] == responses;
    SearchedAlongAll(requests, responses, start, end, steps, radius);
  }

  /** How a run ends. `Saved` carries the places written to the file. */
  datatype Outcome = CoordinatesNotFound | NoRestaurantsInRange | Saved(places: seq<Place>)

  /** What the run keeps from the searches once both ends are known: the
      deduplicated places inside the box that mention the street. */
  function Found(start: Coordinate, end: Coordinate, responses: seq<seq<Response>>): (found: seq<Place>)
    ensures forall p :: p in found <==>
      p in Dedup(Gathered(responses)) && InBox(p.location, BoundingBoxOf(start, end)) &&
      Mentions(Address(p), Street)
  {
    FilteredMembers(Dedup(Gathered(responses)), BoundingBoxOf(start, end), Some(Street));
    Filtered(Dedup(Gathered(responses)), BoundingBoxOf(start, end), Some(Street))
  }

  /** `main` from the geocoding results on. The geocoder's answers are
      given; a missing one aborts the run. */
  method Run(startLocation: Option<Coordinate>, endLocation: Option<Coordinate>,
             responses: seq<seq<Response>>)
    returns (outcome: Outcome)
    requires |responses| == Steps + 1
    requires forall k :: 0 <= k < |responses| ==> Completes(responses[k])
    ensures outcome.CoordinatesNotFound? <==> startLocation.None? || endLocation.None?
    ensures startLocation.Some? && endLocation.Some? ==>
      var found := Found(startLocation.value, endLocation.value, responses);
      (outcome.NoRestaurantsInRange? <==> found == []) &&
      (outcome.Saved? ==> outcome.places == found)
  {
    if startLocation.None? || endLocation.None? {
      return CoordinatesNotFound;
    }
    var start, end := startLocation.value, endLocation.value;
    var box := BoundingBoxOf(start, end);
    var restaurants, _ := CollectAlongStreet(start, end, Steps, Radius, responses);
    var filteredRestaurants := FilterByBoundingBox(restaurants, box, Some(Street));
    if filteredRestaurants != [] {
      outcome := Saved(filteredRestaurants);
    } else {
      outcome := NoRestaurantsInRange;
    }
  }

  /** What a saved run writes: places inside the box of the two ends, each
      mentioning the street, without repeated keys, in the order the
      searches first returned them. */
  lemma SavedPlaces(start: Coordinate, end: Coordinate, responses: seq<seq<Response>>)
    ensures var found := Found(start, end, responses);
      var box := BoundingBoxOf(start, end);
      && DistinctIds(found)
      && IsSubsequence(found, Dedup(Gathered(responses)))
      && forall p :: p in found ==> InBox(p.location, box) && Mentions(Address(p), Street)
  {
    var box := BoundingBoxOf(start, end);
    var all := Dedup(Gathered(responses));
    DedupSpec(Gathered(responses));
    FilteredSound(all, box, Some(Street));
    FilteredSubsequence(all, box, Some(Street));
    FilteredPreservesDistinct(all, box, Some(Street));
  }

  /** Filtering cannot introduce a repeated key. */
  lemma {:induction false} FilteredPreservesDistinct(s: seq<Place>, box: BoundingBox, streetFilter: Option<string>)
    requires DistinctIds(s)
    ensures DistinctIds(Filtered(s, box, streetFilter))
  {
    if s != [] {
      var s' := s[..|s| - 1];
      var x := s[|s| - 1];
      var r := Filtered(s', box, streetFilter);
      FilteredPreservesDistinct(s', box, streetFilter);
      if Keeps(x, box, streetFilter) {
        FilteredSubsequence(s', box, streetFilter);
        SubsequenceMembers(r, s');
        forall i | 0 <= i < |r| ensures r[i].placeId != x.placeId {
          assert r[i] in s';
          var j :| 0 <= j < |s'| && s'[j] == r[i];
          assert s[j] == r[i];
        }
      }
    }
  }

  /** A worked case: two ends on the same latitude and two steps give three
      points half a step apart, and the box degenerates to a line of
      latitude. */
  lemma UnionStreetWalk()
    ensures var start, end := Coordinate(37.7, -122.43), Coordinate(37.7, -122.44);
      && SamplePoint(start, end, 2, 0) == Coordinate(37.7, -122.430)
      && SamplePoint(start, end, 2, 1) == Coordinate(37.7, -122.435)
      && SamplePoint(start, end, 2, 2) == Coordinate(37.7, -122.440)
      && BoundingBoxOf(start, end) == BoundingBox(37.7, 37.7, -122.44, -122.43)
  {
  }

  /** In the same case, a place halfway whose address names the street is
      kept. */
  lemma UnionStreetPlaceKept()
    ensures var p := Place(Some("a"), "Cafe", Some("123 Union Street"), Coordinate(37.7, -122.435));
      Filtered([p], BoundingBox(37.7, 37.7, -122.44, -122.43), Some(Street)) == [p]
  {
    var p := Place(Some("a"), "Cafe", Some("123 Union Street"), Coordinate(37.7, -122.435));
    assert Address(p)[4..16] == Street;
    OccursLower(Address(p), Street, 4);
    OnStreetMentions(p, Some(Street));
    FilterSingle(p, BoundingBox(37.7, 37.7, -122.44, -122.43), Some(Street));
  }
}
