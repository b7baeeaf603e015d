/**
 * services/places_service.py: turning Overpass API elements into places, and
 * `search_places`, which gathers the results of every query of a place type,
 * keeps the nearest entry per name and address, and orders by distance.
 *
 * The HTTP fetch is the oracle `fetch` (query to elements, already empty when
 * the request failed) and the geodesic distance from the search origin is the
 * oracle `dist`, in kilometres.
 */
module PlacesService {
  import opened Basics
  import opened Sorting

  datatype Center = Center(lat: real, lon: real)

  /** One element of the Overpass response: a node with coordinates, or a way with a `center`. */
  datatype Element = Element(lat: Option<real>, lon: Option<real>, center: Option<Center>, tags: map<string, string>)

  datatype Place = Place(name: string, address: string, latitude: real, longitude: real, distance: real)

  const Unnamed: string := "Без названия"
  const NoAddress: string := "Адрес не указан"

  /** `PLACE_TYPES[...]["queries"]`: the Overpass filters of each place type. */
  function Queries(placeType: string): (r: Option<seq<string>>)
    ensures r.Some? <==> placeType in {"pharmacies", "vet", "shops"}
    ensures r.Some? ==> |r.value| > 0
  {
    if placeType == "pharmacies" then Some(["amenity=pharmacy"])
    else if placeType == "vet" then Some(["amenity=veterinary", "shop=pet"])
    else if placeType == "shops" then Some(["shop=supermarket", "shop=convenience", "shop=bakery", "shop=butcher"])
    else None
  }

  /** `tags.get(key, default)`. */
  function TagOr(tags: map<string, string>, key: string, default: string): (r: string)
    ensures key in tags ==> r == tags[key]
    ensures key !in tags ==> r == default
  {
    if key in tags then tags[key] else default
  }

  /** The displayed address: "street, house", the street alone, or the placeholder. */
  function AddressOf(tags: map<string, string>): (r: string)
    ensures |r| > 0
    ensures var street := TagOr(tags, "addr:street", "");
      var house := TagOr(tags, "addr:housenumber", "");
      && (street != "" && house != "" ==> r == street + ", " + house)
      && (street != "" && house == "" ==> r == street)
      && (street == "" ==> r == NoAddress)
  {
    var street := TagOr(tags, "addr:street", "");
    var house := TagOr(tags, "addr:housenumber", "");
    if street != "" && house != "" then street + ", " + house
    else if street != "" then street
    else NoAddress
  }

  /** An element the parser can place: both `lat` and `lon`, or a `center`. */
  predicate Locatable(e: Element) {
    (e.lat.Some? && e.lon.Some?) || e.center.Some?
  }

  /** One iteration of `_parse_overpass_response`. */
  function ParseElement(e: Element): (r: Option<Place>)
    ensures r.Some? <==> Locatable(e)
    ensures r.Some? && e.lat.Some? && e.lon.Some? ==>
      r.value.latitude == e.lat.value && r.value.longitude == e.lon.value
    ensures r.Some? && !(e.lat.Some? && e.lon.Some?) ==>
      r.value.latitude == e.center.value.lat && r.value.longitude == e.center.value.lon
    ensures r.Some? ==>
      && r.value.name == TagOr(e.tags, "name", Unnamed)
      && r.value.address == AddressOf(e.tags)
      && r.value.distance == 0.0
  {
    if e.lat.Some? && e.lon.Some? then
      Some(Place(TagOr(e.tags, "name", Unnamed), AddressOf(e.tags), e.lat.value, e.lon.value, 0.0))
    else if e.center.Some? then
      Some(Place(TagOr(e.tags, "name", Unnamed), AddressOf(e.tags), e.center.value.lat, e.center.value.lon, 0.0))
    else None
  }

  /** `_parse_overpass_response`: the locatable elements, parsed, in response order. */
  function ParseResponse(elements: seq<Element>): (r: seq<Place>)
    ensures |r| <= |elements|
    ensures forall p :: p in r <==> exists e :: e in elements && ParseElement(e) == Some(p)
  {
    if |elements| == 0 then []
    else
      var rest := ParseResponse(elements[1..]);
      assert forall e :: e in elements <==> e == elements[0] || e in elements[1..];
      match ParseElement(elements[0])
      case Some(p) => [p] + rest
      case None => rest
  }

  /** The results of each query, concatenated in query order. */
  function Gather(queries: seq<string>, fetch: string -> seq<Element>): (r: seq<Place>)
    ensures forall p :: p in r <==> FoundBySome(queries, fetch, p)
  {
    if |queries| == 0 then []
    else
      var rest := Gather(queries[1..], fetch);
      forall p
        ensures FoundBySome(queries, fetch, p) <==> p in ParseResponse(fetch(queries[0])) || FoundBySome(queries[1..], fetch, p)
      {
        FoundByFirstOrRest(queries, fetch, p);
      }
      ParseResponse(fetch(queries[0])) + rest
  }

  /** Some query of `queries` returned an element parsed as `p`. */
  predicate FoundBySome(queries: seq<string>, fetch: string -> seq<Element>, p: Place) {
    exists k :: 0 <= k < |queries| && p in ParseResponse(fetch(queries[k]))
  }

  lemma FoundByFirstOrRest(queries: seq<string>, fetch: string -> seq<Element>, p: Place)
    requires |queries| > 0
    ensures FoundBySome(queries, fetch, p) <==>
      p in ParseResponse(fetch(queries[0])) || FoundBySome(queries[1..], fetch, p)
  {
    if FoundBySome(queries[1..], fetch, p) {
      var k :| 0 <= k < |queries[1..]| && p in ParseResponse(fetch(queries[1..][k]));
      assert queries[1..][k] == queries[k + 1];
    }
    if FoundBySome(queries, fetch, p) {
      var k :| 0 <= k < |queries| && p in ParseResponse(fetch(queries[k]));
      if k > 0 {
        assert queries[1..][k - 1] == queries[k];
      }
    }
  }

  /** The distance from the search origin, filled in for every result. */
  function WithDistances(places: seq<Place>, dist: (real, real) -> real): (r: seq<Place>)
    ensures |r| == |places|
    ensures forall i :: 0 <= i < |places| ==>
      r[i] == places[i].(distance := dist(places[i].latitude, places[i].longitude))
  {
    seq(|places|, i requires 0 <= i < |places| =>
      places[i].(distance := dist(places[i].latitude, places[i].longitude)))
  }

  /** The dedup key `f"{name}_{address}"`. */
  function Key(p: Place): string {
    p.name + "_" + p.address
  }

  predicate DifferentKey(a: Place, b: Place) {
    Key(a) != Key(b)
  }

  /** Where an entry with key `k` sits, if any (the dict lookup). */
  function KeyIndex(acc: seq<Place>, k: string): (r: Option<nat>)
    ensures r.Some? ==> r.value < |acc| && Key(acc[r.value]) == k
    ensures r.Some? ==> forall i :: 0 <= i < r.value ==> Key(acc[i]) != k
    ensures r.None? ==> forall i :: 0 <= i < |acc| ==> Key(acc[i]) != k
  {
    if |acc| == 0 then None
    else if Key(acc[0]) == k then Some(0)
    else match KeyIndex(acc[1..], k)
      case None => None
      case Some(i) => Some(i + 1)
  }

  /**
   * One iteration of the dedup loop: a new key is appended; a known key is
   * replaced only by a strictly nearer entry, keeping its position.
   */
  function Keep(acc: seq<Place>, p: Place): (r: seq<Place>)
    ensures |acc| <= |r|
  {
    match KeyIndex(acc, Key(p))
    case None => acc + [p]
    case Some(i) => if p.distance < acc[i].distance then acc[i := p] else acc
  }

  /**
   * The facts the dedup loop keeps about the entries seen so far: keys are
   * distinct, every kept entry was seen, and every entry seen has a kept
   * entry with its key that is at least as near.
   */
  predicate DedupOf(r: seq<Place>, seen: seq<Place>) {
    && Pairwise(r, DifferentKey)
    && (forall q :: q in r ==> q in seen)
    && (forall j :: 0 <= j < |seen| ==> NearestKept(r, seen[j]))
  }

  /** Some kept entry has the key of `c` and is no farther than `c`. */
  predicate NearestKept(r: seq<Place>, c: Place) {
    exists i :: 0 <= i < |r| && Key(r[i]) == Key(c) && r[i].distance <= c.distance
  }

  /** Appending an entry whose key is new keeps keys distinct. */
  lemma AppendKeepsDistinct(acc: seq<Place>, p: Place)
    requires Pairwise(acc, DifferentKey) && KeyIndex(acc, Key(p)).None?
    ensures Pairwise(acc + [p], DifferentKey)
  {
    var r := acc + [p];
    forall a, b | 0 <= a < b < |r|
      ensures DifferentKey(r[a], r[b])
    {
      if b < |acc| {
        assert DifferentKey(acc[a], acc[b]);
      } else {
        assert r[a] == acc[a] && r[b] == p;
      }
    }
  }

  /** Replacing an entry by one with the same key keeps keys distinct. */
  lemma ReplaceKeepsDistinct(acc: seq<Place>, i: nat, p: Place)
    requires Pairwise(acc, DifferentKey) && i < |acc| && Key(acc[i]) == Key(p)
    ensures Pairwise(acc[i := p], DifferentKey)
  {
    var r := acc[i := p];
    forall a, b | 0 <= a < b < |r|
      ensures DifferentKey(r[a], r[b])
    {
      assert DifferentKey(acc[a], acc[b]);
    }
  }

  /** Replacing an entry by a nearer one with the same key keeps every key's nearest representative. */
  lemma ReplaceKeepsNearest(acc: seq<Place>, i: nat, p: Place, c: Place)
    requires i < |acc| && Key(acc[i]) == Key(p) && p.distance < acc[i].distance
    requires NearestKept(acc, c)
    ensures NearestKept(acc[i := p], c)
  {
    var k :| 0 <= k < |acc| && Key(acc[k]) == Key(c) && acc[k].distance <= c.distance;
    var r := acc[i := p];
    assert Key(r[k]) == Key(c) && r[k].distance <= c.distance;
  }

  /** Appending keeps every key's representative. */
  lemma AppendKeepsNearest(acc: seq<Place>, p: Place, c: Place)
    requires NearestKept(acc, c)
    ensures NearestKept(acc + [p], c)
  {
    var k :| 0 <= k < |acc| && Key(acc[k]) == Key(c) && acc[k].distance <= c.distance;
    assert (acc + [p])[k] == acc[k];
  }

  /** A new key is appended. */
  lemma KeepAppends(acc: seq<Place>, seen: seq<Place>, p: Place)
    requires DedupOf(acc, seen) && KeyIndex(acc, Key(p)).None?
    ensures DedupOf(acc + [p], seen + [p])
  {
    var r := acc + [p];
    var seen' := seen + [p];
    AppendKeepsDistinct(acc, p);
    forall j | 0 <= j < |seen'|
      ensures NearestKept(r, seen'[j])
    {
      if j < |seen| {
        AppendKeepsNearest(acc, p, seen[j]);
      } else {
        assert r[|acc|] == p;
      }
    }
  }

  /** A known key with a strictly nearer entry: the nearer one takes its place. */
  lemma KeepReplaces(acc: seq<Place>, seen: seq<Place>, p: Place, i: nat)
    requires DedupOf(acc, seen) && KeyIndex(acc, Key(p)) == Some(i)
    requires p.distance < acc[i].distance
    ensures DedupOf(acc[i := p], seen + [p])
  {
    var r := acc[i := p];
    var seen' := seen + [p];
    ReplaceKeepsDistinct(acc, i, p);
    forall q | q in r
      ensures q in seen'
    {
      var a :| 0 <= a < |r| && r[a] == q;
      if a != i {
        assert acc[a] in seen;
      }
    }
    forall j | 0 <= j < |seen'|
      ensures NearestKept(r, seen'[j])
    {
      if j < |seen| {
        ReplaceKeepsNearest(acc, i, p, seen[j]);
      } else {
        assert r[i] == p;
      }
    }
  }

  /** A known key with an entry no nearer: nothing changes. */
  lemma KeepSkips(acc: seq<Place>, seen: seq<Place>, p: Place, i: nat)
    requires DedupOf(acc, seen) && KeyIndex(acc, Key(p)) == Some(i)
    requires !(p.distance < acc[i].distance)
    ensures DedupOf(acc, seen + [p])
  {
    var seen' := seen + [p];
    forall j | 0 <= j < |seen'|
      ensures NearestKept(acc, seen'[j])
    {
      if j < |seen| {
        assert NearestKept(acc, seen[j]);
      } else {
        assert Key(acc[i]) == Key(p);
      }
    }
  }

  /** The dedup loop of `search_places`: one entry per key, the nearest, first seen first. */
  function Dedup(s: seq<Place>): (r: seq<Place>)
    ensures DedupOf(r, s)
  {
    if |s| == 0 then []
    else
      var prefix := s[..|s| - 1];
      var p := s[|s| - 1];
      var acc := Dedup(prefix);
      assert prefix + [p] == s;
      match KeyIndex(acc, Key(p))
      case None => KeepAppends(acc, prefix, p); acc + [p]
      case Some(i) =>
        if p.distance < acc[i].distance then KeepReplaces(acc, prefix, p, i); acc[i := p]
        else KeepSkips(acc, prefix, p, i); acc
  }

  predicate NearerOrEqual(a: Place, b: Place) {
    a.distance <= b.distance
  }

  /** `sorted(..., key=lambda x: x.distance)`, which keeps keys distinct. */
  function NearestFirst(unique: seq<Place>): (r: seq<Place>)
    requires Pairwise(unique, DifferentKey)
    ensures SortedBy(r, NearerOrEqual)
    ensures Pairwise(r, DifferentKey)
    ensures forall q :: q in r <==> q in unique
  {
    var r := SortBy(unique, NearerOrEqual);
    SortBySorted(unique, NearerOrEqual);
    PermutationKeepsPairwise(unique, r, DifferentKey);
    assert forall q :: q in r <==> q in unique by {
      forall q { SameElements(r, unique, q); }
    }
    r
  }

  /**
   * `search_places`: nothing for an unknown type; otherwise the results of
   * all the type's queries with distances, one entry per key (the nearest),
   * ordered by distance.
   */
  function SearchPlaces(placeType: string, fetch: string -> seq<Element>, dist: (real, real) -> real)
    : (r: seq<Place>)
    ensures Queries(placeType).None? ==> r == []
    ensures SortedBy(r, NearerOrEqual)
    ensures Pairwise(r, DifferentKey)
    ensures Queries(placeType).Some? ==>
      var found := WithDistances(Gather(Queries(placeType).value, fetch), dist);
      && (forall q :: q in r ==> q in found)
      && (forall c :: c in found ==> exists q :: q in r && Key(q) == Key(c) && q.distance <= c.distance)
  {
    match Queries(placeType)
    case None => []
    case Some(queries) =>
      var found := WithDistances(Gather(queries, fetch), dist);
      var unique := Dedup(found);
      var r := NearestFirst(unique);
      forall c | c in found
        ensures exists q :: q in r && Key(q) == Key(c) && q.distance <= c.distance
      {
        var j :| 0 <= j < |found| && found[j] == c;
        assert NearestKept(unique, found[j]);
        var k :| 0 <= k < |unique| && Key(unique[k]) == Key(c) && unique[k].distance <= c.distance;
        assert unique[k] in r;
      }
      r
  }
}
