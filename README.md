# RestaurantsNearMe, list logic in Dafny

RestaurantsNearMe geocodes the two ends of a street segment ("Gough Street at
Union Street" and "Pierce Street at Union Street", San Francisco), walks from
one end to the other in 20 equal longitude steps, runs a paginated Google
Places nearby search for restaurants at each of the 21 points, merges the
results while skipping places already seen (by `place_id`), keeps the places
inside the bounding box of the two ends whose `vicinity` mentions "Union
Street", and saves them.

This project models the list logic of that pipeline, with every network
answer given as data:

- `BoundingBoxes`: the box as per-axis min/max of the two ends.
- `StreetFilter`: `filter_by_bounding_box`, a loop that keeps places inside
  the inclusive box whose lower-cased address contains the lower-cased street.
- `Dedupe`: the loop that extends `restaurants` and `seen_places`.
- `NearbySearch`: the pagination loop of `fetch_restaurants_nearby`, over a
  given sequence of answers (status, results, optional next-page token).
- `StreetWalk`: the sampling loop and the rest of `main` after geocoding.
- `Places`, `Text`, `Sequences`: the place record, ASCII lower-casing and
  substring search, and subsequences.

Each loop of the source is a method with a loop. Its `ensures` ties the
result to a specification function: `Filtered`, `AddNew`/`Dedup`,
`Accumulated` or `Gathered`. Lemmas then prove what the source promises about
those functions.

Behaviour of the code that the model accounts for:

- `min_lat <= lat` at line 88 raises `TypeError` when `lat` is `None`; the
  model rules that case out, since `Place` always carries a coordinate.
- `if street_filter` at line 90 skips the address test when the filter is
  `None` or empty (`FilterActive`).
- A record without `place_id` has the key `None`. So all such records share
  one key, and only the first of them is kept (`PlaceKey = Option<string>`).
- Latitude is not interpolated. The last sample point has the end's
  longitude but the start's latitude (`SamplePointEnds`).
- One request is sent for every answer up to and including the one that
  ends the search. A failed answer (status other than 200) ends the search
  silently, and what was collected before it is kept.

## Model

| member | source | states |
|---|---|---|
| `Text.LowerChar` | RestaurantsNearMe.py:90 | lower-casing one character leaves no upper-case ASCII letter, changes only letters A-Z, and moves them to a-z |
| `Text.Lower` | RestaurantsNearMe.py:90 | `s.lower()` on ASCII keeps the length, lower-cases each character in place, and leaves no upper-case letter |
| `Text.ContainsIff` | RestaurantsNearMe.py:90 | the substring search `needle in hay` holds exactly when the needle occurs at some start position |
| `Text.OccursLower` | RestaurantsNearMe.py:90 | an occurrence of the street in the address is still an occurrence after lower-casing both |
| `Text.ContainsEmpty` | RestaurantsNearMe.py:90 | the empty string is contained in every address |
| `BoundingBoxes.Min` | RestaurantsNearMe.py:116 | `min` of two coordinates is at most both and equals one of them |
| `BoundingBoxes.Max` | RestaurantsNearMe.py:117 | `max` of two coordinates is at least both and equals one of them |
| `BoundingBoxes.BoundingBoxOf` | RestaurantsNearMe.py:116-119 | the derived box has min <= max on both axes and holds both endpoints |
| `BoundingBoxes.BoundingBoxOfSmallest` | RestaurantsNearMe.py:116-119 | every box holding both endpoints contains the derived box |
| `StreetFilter.GuardMattersOnlyForNone` | RestaurantsNearMe.py:90 | the address check passes iff the filter is `None` or occurs in the address: the `if street_filter` guard skips the test for `None` and for "", and an empty filter would pass every address even without it |
| `StreetFilter.OnStreetMentions` | RestaurantsNearMe.py:90-91 | the address check passes exactly when the filter is absent or empty, or the lower-cased filter occurs in the lower-cased vicinity |
| `StreetFilter.FilterByBoundingBox` | RestaurantsNearMe.py:79-93 | the loop's output is `Filtered`: the places that pass, in input order |
| `StreetFilter.FilteredSound` | RestaurantsNearMe.py:88-92 | every kept place has min_lat <= lat <= max_lat and min_lng <= lng <= max_lng, and its address mentions an active filter |
| `StreetFilter.FilteredCounts` | RestaurantsNearMe.py:81-92 | a place that passes occurs in the output as often as in the input; one that fails never occurs in it |
| `StreetFilter.FilteredComplete` | RestaurantsNearMe.py:81-92 | every input place inside the box and on the street is in the output |
| `StreetFilter.FilteredMembers` | RestaurantsNearMe.py:81-92 | a place is in the output iff it is in the input, inside the box and, when the filter is active, its address text (`vicinity`, or "" when absent, line 85) mentions the filter |
| `StreetFilter.FilteredSubsequence` | RestaurantsNearMe.py:80-93 | the output is a subsequence of the input (order kept, nothing added or altered) |
| `StreetFilter.FilteredAppend` | RestaurantsNearMe.py:81-92 | filtering a concatenation is concatenating the filtered parts |
| `StreetFilter.FilteredIdempotent` | RestaurantsNearMe.py:79-93 | filtering the filtered list again with the same box and street gives the same list |
| `StreetFilter.FilterSingle` | RestaurantsNearMe.py:88-92 | one place is kept iff it lies in the closed box and mentions an active filter: boundary points are kept, strictly outside ones dropped |
| `Dedupe.IdsAppend` | RestaurantsNearMe.py:138 | appending a place adds exactly its key to the set of keys |
| `Dedupe.MergeNew` | RestaurantsNearMe.py:135-139 | the dedupe loop yields `AddNew` of the list, `seen_places` equals the keys of `restaurants` afterwards, and distinct keys stay distinct |
| `Dedupe.AddNewIds` | RestaurantsNearMe.py:135-139 | the keys after merging are the old keys together with the new results' keys |
| `Dedupe.AddNewDistinct` | RestaurantsNearMe.py:135-139 | merging never gives two entries the same `place_id` |
| `Dedupe.AddNewExtends` | RestaurantsNearMe.py:135-139 | merging leaves the old list unchanged at the front and appends a subsequence of the new results |
| `Dedupe.AddNewKeepsFirst` | RestaurantsNearMe.py:135-139 | the first occurrence of every key not seen before is appended |
| `Dedupe.AddNewAppend` | RestaurantsNearMe.py:130-139 | merging two searches one after the other equals merging their concatenation |
| `Dedupe.DedupSpec` | RestaurantsNearMe.py:130-139 | the merged list has distinct keys, the same key set as all results together, keeps their order and holds every first occurrence |
| `Dedupe.DedupFirstOnly` | RestaurantsNearMe.py:135-139 | each entry of the merged list is the first occurrence of its key in the results |
| `Dedupe.FirstIndex` | RestaurantsNearMe.py:137 | every entry has a first occurrence of its key at or before it |
| `NearbySearch.FirstStop` | RestaurantsNearMe.py:62-73 | the search ends at the first answer whose status is not 200 (line 64) or whose `next_page_token` is missing or empty (line 72) |
| `NearbySearch.AccumulatedStep` | RestaurantsNearMe.py:64-74 | one turn of the loop: a failed answer adds nothing and stops, an answer without a token adds its results and stops, any other adds its results and continues |
| `NearbySearch.FetchRestaurantsNearby` | RestaurantsNearMe.py:54-76 | the loop returns `Accumulated` of the answers, and the requests it sends are `RequestLog` up to and including the stopping answer: one request per answer |
| `NearbySearch.RequestLogAt` | RestaurantsNearMe.py:55-74 | every logged request has the search's location and radius; the first carries no `pagetoken`, and each later one carries the previous answer's `next_page_token` |
| `NearbySearch.AccumulatedPages` | RestaurantsNearMe.py:61-76 | the results are the in-order concatenation of the pages before the stopping answer, plus that answer's page only if its status is 200 |
| `NearbySearch.AccumulatedIgnoresRest` | RestaurantsNearMe.py:62-73 | answers after the stopping one never affect the results |
| `StreetWalk.LngStep` | RestaurantsNearMe.py:127 | `lng_step` points from the start's longitude towards the end's, and is zero exactly when they are equal |
| `StreetWalk.SamplePointEnds` | RestaurantsNearMe.py:127-142 | the first point searched is the start; after `steps` steps the longitude is the end's, the latitude still the start's |
| `StreetWalk.SamplePointNext` | RestaurantsNearMe.py:142 | adding `lng_step` to a sample point gives the next one |
| `StreetWalk.SamplePointInBox` | RestaurantsNearMe.py:116-142 | every point searched lies inside the bounding box of the two ends |
| `StreetWalk.GatheredStep` | RestaurantsNearMe.py:130-132 | one more search appends its results to what was gathered |
| `StreetWalk.DedupGatheredStep` | RestaurantsNearMe.py:130-139 | merging one more search's results into the deduplicated list so far gives the deduplication of everything gathered up to that search |
| `StreetWalk.CollectAlongStreet` | RestaurantsNearMe.py:122-142 | steps+1 searches are made; every request of the k-th search is sent at the k-th sample point with the given radius, one per answer up to the stopping one; the kept list is the deduplication of all their results and has distinct keys |
| `StreetWalk.Found` | RestaurantsNearMe.py:144-147 | a place is found iff it is in the deduplicated results, inside the box of the two ends and mentions "Union Street" |
| `StreetWalk.Run` | RestaurantsNearMe.py:111-154 | a missing end aborts the run, and only a missing end does; otherwise the run saves the filtered, deduplicated places, or reports none found when that list is empty |
| `StreetWalk.SavedPlaces` | RestaurantsNearMe.py:144-151 | saved places are inside the box, mention the street, have distinct keys and keep the order in which they were first found |
| `StreetWalk.FilteredPreservesDistinct` | RestaurantsNearMe.py:144-147 | filtering a list with distinct keys keeps them distinct |
| `StreetWalk.UnionStreetWalk` | RestaurantsNearMe.py:116-142 | from (37.7, -122.43) to (37.7, -122.44) in two steps the points are at -122.430, -122.435 and -122.440, in the box [37.7, 37.7] x [-122.44, -122.43] |
| `StreetWalk.UnionStreetPlaceKept` | RestaurantsNearMe.py:88-92 | a place at (37.7, -122.435) with vicinity "123 Union Street" passes that box and the filter "Union Street" |

## Left out

- `get_coordinates` (lines 21-50) is not modelled: it makes the geocoding request, parses the response and prints. `Run` receives its two results as `Option<Coordinate>`.
- The HTTP requests, JSON decoding and the API key and `type` parameters are not modelled. Each search is a given sequence of `Response` values, and a `Request` records only the location, radius and page token.
- `print` output and `time.sleep(2)` are left out: they have no effect on the lists.
- `save_to_csv` (lines 96-103) is file I/O. `Run` returns `Saved(places)` with the places that would be written. The file's rows would be a header followed by one (name, vicinity) row per place.
- Floating point is not modelled: coordinates are reals, so `lng_step` and the repeated `+=` use exact arithmetic.
- `Text.Lower`: lower-cases ASCII letters only. Python's `str.lower()` also lower-cases other Unicode letters.
- Places with a missing latitude or longitude are left out: the model's `Place` always has a coordinate. In the code, the `and` at line 88 stops at the first false comparison. A missing `lat` raises `TypeError`. A missing `lng` raises only when `lat` is inside the box; otherwise the place is dropped silently.
- `NearbySearch.FetchRestaurantsNearby`: requires that one of the given answers ends the search. With a service that sends a token forever, the source never stops; that case is outside the model.
- `StreetWalk.CollectAlongStreet`: requires `steps > 0`. The source divides by `steps`, which is the literal 20 there. The source also mutates `start_location` through its alias `current_location`; `main` never reads it again, so the model uses a separate loop variable instead.
- Raw place attributes other than `place_id`, `name`, `vicinity` and the location are not modelled: nothing in the pipeline reads them.
