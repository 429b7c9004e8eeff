/** `fetch_restaurants_nearby`: one nearby search, following next-page
    tokens over the answers the places service gives. */
module NearbySearch {
  import opened Places

  /** The status the loop treats as success. */
  const HttpOk := 200

  /** One answer of the places service: the HTTP status, the `results`
      array (empty when absent) and the optional `next_page_token`. */
  datatype Response = Response(statusCode: int, results: seq<Place>, nextPageToken: Option<string>)

  /** The parameters that vary between the requests of one search; the
      type and key are fixed. */
  datatype Request = Request(location: Coordinate, radius: int, pageToken: Option<string>)

  /** `if not next_page_token` fails: a token is present and not empty. */
  predicate HasToken(r: Response)
  {
    r.nextPageToken.Some? && |r.nextPageToken.value| > 0
  }

  /** The loop ends after this answer. */
  predicate Stops(r: Response)
  {
    r.statusCode != HttpOk || !HasToken(r)
  }

  /** The answers given cover the whole exchange: one of them ends it. */
  ghost predicate Completes(responses: seq<Response>)
  {
    exists i :: 0 <= i < |responses| && Stops(responses[i])
  }

  lemma CompletesTail(responses: seq<Response>)
    requires Completes(responses) && !Stops(responses[0])
    ensures Completes(responses[1..])
  {
    var i :| 0 <= i < |responses| && Stops(responses[i]);
    assert responses[1..][i - 1] == responses[i];
  }

  /** The index of the answer that ends the loop. */
  function FirstStop(responses: seq<Response>): (k: nat)
    requires Completes(responses)
    ensures k < |responses| && Stops(responses[k])
    ensures forall j :: 0 <= j < k ==> !Stops(responses[j])
  {
    if Stops(responses[0]) then 0
    else
      CompletesTail(responses);
      1 + FirstStop(responses[1..])
  }

  /** The results the loop collects, answer by answer. */
  function Accumulated(responses: seq<Response>): seq<Place>
  {
    if responses == [] then []
    else if responses[0].statusCode != HttpOk then []
    else if !HasToken(responses[0]) then responses[0].results
    else responses[0].results + Accumulated(responses[1..])
  }

  /** The concatenation of a list of pages. */
  function Concat(pages: seq<seq<Place>>): seq<Place>
  {
    if pages == [] then [] else pages[0] + Concat(pages[1..])
  }

  /** The results arrays of a list of answers. */
  function Pages(responses: seq<Response>): seq<seq<Place>>
  {
    if responses == [] then [] else [responses[0].results] + Pages(responses[1..])
  }

  /** One turn of the loop, read off `Accumulated`. */
  lemma AccumulatedStep(responses: seq<Response>, i: nat)
    requires i < |responses|
    ensures Accumulated(responses[i..]) ==
      if responses[i].statusCode != HttpOk then []
      else if !HasToken(responses[i]) then responses[i].results
      else responses[i].results + Accumulated(responses[i + 1..])
  {
    assert responses[i..][1..] == responses[i + 1..];
  }

  /** The `pagetoken` of request `n`: none for the first, the previous
      answer's token after that. */
  function TokenBefore(responses: seq<Response>, n: nat): Option<string>
    requires n <= |responses|
  {
    if n == 0 then None else responses[n - 1].nextPageToken
  }

  /** The first `n` requests of a search, as the loop sends them. */
  ghost function RequestLog(location: Coordinate, radius: int, responses: seq<Response>, n: nat): seq<Request>
    requires n <= |responses| + 1
  {
    if n == 0 then []
    else RequestLog(location, radius, responses, n - 1) +
         [Request(location, radius, TokenBefore(responses, n - 1))]
  }

  /** Every logged request is at the search's location with its radius; the
      first has no page token and each later one the previous answer's. */
  lemma {:induction false} RequestLogAt(location: Coordinate, radius: int, responses: seq<Response>, n: nat)
    requires n <= |responses| + 1
    ensures |RequestLog(location, radius, responses, n)| == n
    ensures forall j :: 0 <= j < n ==>
      RequestLog(location, radius, responses, n)[j].location == location &&
      RequestLog(location, radius, responses, n)[j].radius == radius
    ensures n > 0 ==> RequestLog(location, radius, responses, n)[0].pageToken == None
    ensures forall j :: 0 < j < n ==>
      RequestLog(location, radius, responses, n)[j].pageToken == responses[j - 1].nextPageToken
  {
    if n > 0 {
      RequestLogAt(location, radius, responses, n - 1);
    }
  }

  /** An answer that ends the search, at or before the first one that does,
      is that first one. */
  lemma FirstStopAt(responses: seq<Response>, i: nat)
    requires Completes(responses) && i <= FirstStop(responses) && i < |responses| && Stops(responses[i])
    ensures i == FirstStop(responses)
  {
  }

  /** The loop. It sends one request per answer up to and including the one
      that ends the search, logged as `RequestLog` describes (see
      `RequestLogAt`), and collects `Accumulated` of the answers. */
  method FetchRestaurantsNearby(location: Coordinate, radius: int, responses: seq<Response>)
    returns (results: seq<Place>, requests: seq<Request>)
    requires Completes(responses)
    ensures results == Accumulated(responses)
    ensures requests == RequestLog(location, radius, responses, FirstStop(responses) + 1)
  {
    ghost var stop := FirstStop(responses);
    var pageToken: Option<string> := None;
    results, requests := [], [];
    var i := 0;
    while true
      invariant 0 <= i <= stop
      invariant results + Accumulated(responses[i..]) == Accumulated(responses)
      invariant pageToken == TokenBefore(responses, i)
      invariant requests == RequestLog(location, radius, responses, i)
      decreases stop - i
    {
      requests := requests + [Request(location, radius, pageToken)];
      var response := responses[i];
      AccumulatedStep(responses, i);
      if response.statusCode != HttpOk {
        FirstStopAt(responses, i);
        break;
      }
      results := results + response.results;
      if !HasToken(response) {
        FirstStopAt(responses, i);
        break;
      }
      pageToken := response.nextPageToken;
      i := i + 1;
    }
  }

  /** The collected results are the in-order concatenation of the pages
      before the answer that ends the search, followed by that answer's
      page when its status is success; a failed answer adds nothing. */
  lemma {:induction false} AccumulatedPages(responses: seq<Response>)
    requires Completes(responses)
    ensures var k := FirstStop(responses);
      Accumulated(responses) ==
        Concat(Pages(responses[..k])) +
        (if responses[k].statusCode == HttpOk then responses[k].results else [])
  {
    var k := FirstStop(responses);
    if k > 0 {
      CompletesTail(responses);
      AccumulatedPages(responses[1..]);
      assert responses[1..][..k - 1] == responses[..k][1..];
    }
  }

  /** Answers after the one that ends the search are never looked at. */
  lemma {:induction false} AccumulatedIgnoresRest(responses: seq<Response>, more: seq<Response>)
    requires Completes(responses)
    ensures Accumulated(responses + more) == Accumulated(responses)
  {
    if !Stops(responses[0]) {
      CompletesTail(responses);
      AccumulatedIgnoresRest(responses[1..], more);
      assert (responses + more)[1..] == responses[1..] + more;
    }
  }
}
