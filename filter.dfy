/** `filter_by_bounding_box`: keep, in input order, the places inside the
    box whose address mentions the street. */
module StreetFilter {
  import opened Places
  import opened Text
  import opened Sequences
  import opened BoundingBoxes

  /** `if street_filter` in Python: present and not the empty string. */
  predicate FilterActive(streetFilter: Option<string>)
  {
    streetFilter.Some? && streetFilter.value != ""
  }

  /** The address check: without an active filter every place passes;
      otherwise the lower-cased filter must occur in the lower-cased address. */
  predicate OnStreet(p: Place, streetFilter: Option<string>)
  {
    FilterActive(streetFilter) ==> Contains(Lower(Address(p)), Lower(streetFilter.value))
  }

  /** Case-insensitive substring, stated by position: the lower-cased
      street occurs somewhere in the lower-cased address. */
  ghost predicate Mentions(address: string, street: string)
  {
    exists i :: OccursAt(Lower(address), Lower(street), i)
  }

  /** The computed address check agrees with `Mentions`. */
  lemma OnStreetMentions(p: Place, streetFilter: Option<string>)
    ensures OnStreet(p, streetFilter) <==>
      (FilterActive(streetFilter) ==> Mentions(Address(p), streetFilter.value))
  {
    if FilterActive(streetFilter) {
      ContainsIff(Lower(Address(p)), Lower(streetFilter.value));
    }
  }

  /** The `if street_filter` guard only matters for `None`: an empty
      filter would pass every address even without it. */
  lemma GuardMattersOnlyForNone(p: Place, streetFilter: Option<string>)
    ensures OnStreet(p, streetFilter) <==>
      (streetFilter.None? || Contains(Lower(Address(p)), Lower(streetFilter.value)))
  {
    if streetFilter == Some("") {
      assert Lower("") == "";
      ContainsEmpty(Lower(Address(p)));
    }
  }

  /** The decision the loop body makes for one place. */
  predicate Keeps(p: Place, box: BoundingBox, streetFilter: Option<string>)
  {
    InBox(p.location, box) && OnStreet(p, streetFilter)
  }

  /** The list the loop builds: the kept places of `s`, in order. */
  function Filtered(s: seq<Place>, box: BoundingBox, streetFilter: Option<string>): seq<Place>
  {
    if s == [] then []
    else
      var rest := Filtered(s[..|s| - 1], box, streetFilter);
      if Keeps(s[|s| - 1], box, streetFilter) then rest + [s[|s| - 1]] else rest
  }

  method FilterByBoundingBox(restaurants: seq<Place>, box: BoundingBox, streetFilter: Option<string>)
    returns (filtered: seq<Place>)
    ensures filtered == Filtered(restaurants, box, streetFilter)
  {
    filtered := [];
    for i := 0 to |restaurants|
      invariant filtered == Filtered(restaurants[..i], box, streetFilter)
    {
      assert restaurants[..i + 1][..i] == restaurants[..i];
      var restaurant := restaurants[i];
      var location := restaurant.location;
      var address := Address(restaurant);
      if box.minLat <= location.lat <= box.maxLat && box.minLng <= location.lng <= box.maxLng {
        if FilterActive(streetFilter) && !Contains(Lower(address), Lower(streetFilter.value)) {
          continue;
        }
        filtered := filtered + [restaurant];
      }
    }
    assert restaurants[..|restaurants|] == restaurants;
  }

  /** Every kept place lies inside the box, bounds included, and, when the
      filter is active, its lower-cased address carries the lower-cased
      filter at some position. */
  lemma {:induction false} FilteredSound(s: seq<Place>, box: BoundingBox, streetFilter: Option<string>)
    ensures forall p :: p in Filtered(s, box, streetFilter) ==>
      && box.minLat <= p.location.lat <= box.maxLat
      && box.minLng <= p.location.lng <= box.maxLng
      && (FilterActive(streetFilter) ==>
            Mentions(Address(p), streetFilter.value))
  {
    if s != [] {
      FilteredSound(s[..|s| - 1], box, streetFilter);
      var x := s[|s| - 1];
      OnStreetMentions(x, streetFilter);
      forall p | p in Filtered(s, box, streetFilter)
        ensures p in Filtered(s[..|s| - 1], box, streetFilter) || (p == x && Keeps(x, box, streetFilter))
      {
      }
    }
  }

  /** Nothing is dropped that passes and nothing is added: each place occurs
      in the output as often as in the input if it passes, and never
      otherwise. */
  lemma {:induction false} FilteredCounts(s: seq<Place>, box: BoundingBox, streetFilter: Option<string>, p: Place)
    ensures multiset(Filtered(s, box, streetFilter))[p] ==
      if Keeps(p, box, streetFilter) then multiset(s)[p] else 0
  {
    if s != [] {
      var s' := s[..|s| - 1];
      FilteredCounts(s', box, streetFilter, p);
      assert s == s' + [s[|s| - 1]];
    }
  }

  /** Completeness: a place of the input that is in the box and on the
      street is in the output. */
  lemma FilteredComplete(s: seq<Place>, box: BoundingBox, streetFilter: Option<string>, p: Place)
    requires p in s && Keeps(p, box, streetFilter)
    ensures p in Filtered(s, box, streetFilter)
  {
    FilteredCounts(s, box, streetFilter, p);
  }

  /** Membership in the output, stated without the computed search: a place
      is kept iff it is in the input, in the box and mentions an active
      filter. */
  lemma FilteredMembers(s: seq<Place>, box: BoundingBox, streetFilter: Option<string>)
    ensures forall p :: p in Filtered(s, box, streetFilter) <==>
      && p in s
      && InBox(p.location, box)
      && (FilterActive(streetFilter) ==> Mentions(Address(p), streetFilter.value))
  {
    forall p
      ensures p in Filtered(s, box, streetFilter) <==> p in s && Keeps(p, box, streetFilter)
    {
      FilteredCounts(s, box, streetFilter, p);
    }
    forall p {
      OnStreetMentions(p, streetFilter);
    }
  }

  /** The output keeps the input's relative order. */
  lemma {:induction false} FilteredSubsequence(s: seq<Place>, box: BoundingBox, streetFilter: Option<string>)
    ensures IsSubsequence(Filtered(s, box, streetFilter), s)
  {
    if s != [] {
      var s' := s[..|s| - 1];
      var x := s[|s| - 1];
      FilteredSubsequence(s', box, streetFilter);
      assert s == s' + [x];
      if Keeps(x, box, streetFilter) {
        SubsequenceKeep(Filtered(s', box, streetFilter), s', x);
      } else {
        SubsequenceSkip(Filtered(s', box, streetFilter), s', x);
      }
    }
  }

  /** Filtering distributes over concatenation. */
  lemma {:induction false} FilteredAppend(a: seq<Place>, b: seq<Place>, box: BoundingBox, streetFilter: Option<string>)
    ensures Filtered(a + b, box, streetFilter) == Filtered(a, box, streetFilter) + Filtered(b, box, streetFilter)
    decreases |b|
  {
    if b == [] {
      assert a + b == a;
    } else {
      var b' := b[..|b| - 1];
      FilteredAppend(a, b', box, streetFilter);
      assert (a + b)[..|a + b| - 1] == a + b';
    }
  }

  /** Filtering an already filtered list with the same box and street
      changes nothing. */
  lemma {:induction false} FilteredIdempotent(s: seq<Place>, box: BoundingBox, streetFilter: Option<string>)
    ensures Filtered(Filtered(s, box, streetFilter), box, streetFilter) == Filtered(s, box, streetFilter)
  {
    if s != [] {
      var s' := s[..|s| - 1];
      var x := s[|s| - 1];
      FilteredIdempotent(s', box, streetFilter);
      if Keeps(x, box, streetFilter) {
        FilteredAppend(Filtered(s', box, streetFilter), [x], box, streetFilter);
        assert [x][..0] == [];
      }
    }
  }

  /** The decision for a single place, spelled out: a place exactly on an
      edge or corner of the box is kept, one strictly outside on either axis
      is dropped, and an inactive filter never drops anything. */
  lemma FilterSingle(p: Place, box: BoundingBox, streetFilter: Option<string>)
    ensures Filtered([p], box, streetFilter) ==
      if && box.minLat <= p.location.lat <= box.maxLat
         && box.minLng <= p.location.lng <= box.maxLng
         && (FilterActive(streetFilter) ==>
               Mentions(Address(p), streetFilter.value))
      then [p] else []
  {
    assert [p][..0] == [];
    assert Filtered([p], box, streetFilter) == if Keeps(p, box, streetFilter) then [p] else [];
    OnStreetMentions(p, streetFilter);
  }
}
