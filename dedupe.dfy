/** Merging each search's results into the running list, skipping every
    place whose `place_id` has been seen before. */
module Dedupe {
  import opened Places
  import opened Sequences

  /** The keys of the places in `s`. */
  function Ids(s: seq<Place>): set<PlaceKey>
  {
    set p | p in s :: p.placeId
  }

  /** No two entries share a key. */
  ghost predicate DistinctIds(s: seq<Place>)
  {
    forall i, j :: 0 <= i < j < |s| ==> s[i].placeId != s[j].placeId
  }

  /** Entry `i` of `s` is the first one with its key. */
  ghost predicate FirstOccurrence(s: seq<Place>, i: int)
    requires 0 <= i < |s|
  {
    forall j :: 0 <= j < i ==> s[j].placeId != s[i].placeId
  }

  /** What the dedupe loop leaves in `restaurants` after scanning `s`,
      starting from `acc`. */
  function AddNew(acc: seq<Place>, s: seq<Place>): seq<Place>
  {
    if s == [] then acc
    else
      var r := AddNew(acc, s[..|s| - 1]);
      if s[|s| - 1].placeId in Ids(r) then r else r + [s[|s| - 1]]
  }

  /** Deduplication of a whole list: its first occurrences. */
  function Dedup(s: seq<Place>): seq<Place>
  {
    AddNew([], s)
  }

  lemma IdsAppend(s: seq<Place>, x: Place)
    ensures Ids(s + [x]) == Ids(s) + {x.placeId}
  {
    assert forall p :: p in s + [x] <==> p in s || p == x;
  }

  /** The dedupe loop of the sampling walk: `seenPlaces` mirrors the keys of
      `restaurants` before and after, and the new list is `AddNew`'s. */
  method MergeNew(restaurants: seq<Place>, seenPlaces: set<PlaceKey>, newRestaurants: seq<Place>)
    returns (merged: seq<Place>, seen: set<PlaceKey>)
    requires seenPlaces == Ids(restaurants)
    ensures merged == AddNew(restaurants, newRestaurants)
    ensures seen == Ids(merged)
    ensures DistinctIds(restaurants) ==> DistinctIds(merged)
  {
    merged, seen := restaurants, seenPlaces;
    for i := 0 to |newRestaurants|
      invariant merged == AddNew(restaurants, newRestaurants[..i])
      invariant seen == Ids(merged)
      invariant DistinctIds(restaurants) ==> DistinctIds(merged)
    {
      assert newRestaurants[..i + 1][..i] == newRestaurants[..i];
      var restaurant := newRestaurants[i];
      var placeId := restaurant.placeId;
      if placeId !in seen {
        IdsAppend(merged, restaurant);
        seen := seen + {placeId};
        merged := merged + [restaurant];
      }
    }
    assert newRestaurants[..|newRestaurants|] == newRestaurants;
  }

  /** The keys after merging are the old keys and the new list's keys. */
  lemma {:induction false} AddNewIds(acc: seq<Place>, s: seq<Place>)
    ensures Ids(AddNew(acc, s)) == Ids(acc) + Ids(s)
  {
    if s == [] {
    } else {
      var s' := s[..|s| - 1];
      var x := s[|s| - 1];
      AddNewIds(acc, s');
      IdsAppend(s', x);
      assert s == s' + [x];
      IdsAppend(AddNew(acc, s'), x);
    }
  }

  /** Merging keeps keys unique. */
  lemma {:induction false} AddNewDistinct(acc: seq<Place>, s: seq<Place>)
    requires DistinctIds(acc)
    ensures DistinctIds(AddNew(acc, s))
  {
    if s != [] {
      var s' := s[..|s| - 1];
      var r := AddNew(acc, s');
      var x := s[|s| - 1];
      AddNewDistinct(acc, s');
      if x.placeId !in Ids(r) {
        forall i | 0 <= i < |r| ensures r[i].placeId != x.placeId {
          assert r[i] in r;
        }
      }
    }
  }

  /** The old list stays as it is, at the front, and what follows is taken
      from the new list in its order. */
  lemma {:induction false} AddNewExtends(acc: seq<Place>, s: seq<Place>)
    ensures |acc| <= |AddNew(acc, s)| && AddNew(acc, s)[..|acc|] == acc
    ensures IsSubsequence(AddNew(acc, s)[|acc|..], s)
  {
    if s != [] {
      var s' := s[..|s| - 1];
      var r := AddNew(acc, s');
      var x := s[|s| - 1];
      AddNewExtends(acc, s');
      assert s == s' + [x];
      if x.placeId in Ids(r) {
        SubsequenceSkip(r[|acc|..], s', x);
      } else {
        SubsequenceKeep(r[|acc|..], s', x);
        assert (r + [x])[|acc|..] == r[|acc|..] + [x];
      }
    }
  }

  /** Every first occurrence of a key not seen before is kept. */
  lemma {:induction false} AddNewKeepsFirst(acc: seq<Place>, s: seq<Place>, i: int)
    requires 0 <= i < |s| && FirstOccurrence(s, i) && s[i].placeId !in Ids(acc)
    ensures s[i] in AddNew(acc, s)
  {
    var s' := s[..|s| - 1];
    var r := AddNew(acc, s');
    var x := s[|s| - 1];
    if i < |s'| {
      AddNewKeepsFirst(acc, s', i);
    } else {
      AddNewIds(acc, s');
      assert x.placeId !in Ids(s') by {
        forall p | p in s' ensures p.placeId != x.placeId {
          var j :| 0 <= j < |s'| && s'[j] == p;
        }
      }
    }
  }

  /** Merging the results of two searches one after the other is merging
      their concatenation. */
  lemma {:induction false} AddNewAppend(acc: seq<Place>, a: seq<Place>, b: seq<Place>)
    ensures AddNew(AddNew(acc, a), b) == AddNew(acc, a + b)
    decreases |b|
  {
    if b == [] {
      assert a + b == a;
    } else {
      AddNewAppend(acc, a, b[..|b| - 1]);
      assert (a + b)[..|a + b| - 1] == a + b[..|b| - 1];
    }
  }

  /** The deduplicated list holds exactly one entry per distinct key of the
      input, that entry is the key's first occurrence, and the entries keep
      the input's order. */
  lemma DedupSpec(s: seq<Place>)
    ensures DistinctIds(Dedup(s))
    ensures Ids(Dedup(s)) == Ids(s)
    ensures IsSubsequence(Dedup(s), s)
    ensures forall i :: 0 <= i < |s| && FirstOccurrence(s, i) ==> s[i] in Dedup(s)
  {
    AddNewDistinct([], s);
    AddNewIds([], s);
    AddNewExtends([], s);
    assert Dedup(s)[0..] == Dedup(s);
    forall i | 0 <= i < |s| && FirstOccurrence(s, i) ensures s[i] in Dedup(s) {
      AddNewKeepsFirst([], s, i);
    }
  }

  /** A consequence of `DedupSpec`: each entry of the result is the first
      occurrence of its key in the input. */
  lemma DedupFirstOnly(s: seq<Place>, k: int)
    requires 0 <= k < |Dedup(s)|
    ensures exists i :: 0 <= i < |s| && FirstOccurrence(s, i) && s[i] == Dedup(s)[k]
  {
    DedupSpec(s);
    var r := Dedup(s);
    SubsequenceMembers(r, s);
    assert r[k] in s;
    var i0 :| 0 <= i0 < |s| && s[i0] == r[k];
    var i := FirstIndex(s, i0);
    assert s[i] in r;
    var k' :| 0 <= k' < |r| && r[k'] == s[i];
    assert r[k'].placeId == r[k].placeId;
    assert k' == k;
  }

  /** The first index whose key is that of entry `i0`. */
  lemma {:induction false} FirstIndex(s: seq<Place>, i0: int) returns (i: int)
    requires 0 <= i0 < |s|
    ensures 0 <= i <= i0 && s[i].placeId == s[i0].placeId && FirstOccurrence(s, i)
    decreases i0
  {
    if FirstOccurrence(s, i0) {
      i := i0;
    } else {
      var j :| 0 <= j < i0 && s[j].placeId == s[i0].placeId;
      i := FirstIndex(s, j);
    }
  }
}
