/**
 * The places router of handlers/places.py: choosing a location (a shared
 * location or a geocoded address), choosing a kind of place, and paging
 * through the search results.
 *
 * Coordinates travel inside callback payloads as the text Python prints for
 * a float (`f"{latitude}"`), so a coordinate is that text here, and `float()`
 * on a payload field is the `parseFloat` parameter (`None` for the
 * `ValueError`). Nominatim geocoding is the `geocode` parameter; the search
 * itself is `PlacesService.SearchPlaces` with its `fetch` and `dist` oracles
 * for the chosen location.
 */
module PlacesHandlers {
  import opened Basics
  import opened Text
  import opened Conversation
  import Store
  import Keyboards
  import Paging
  import PlacesService

  /** A coordinate as the text of its float. */
  type Coord = string

  // ---------------------------------------------------------------------------
  // Payloads and keyboards
  // ---------------------------------------------------------------------------

  /** `f"places:search:{type}:{latitude}:{longitude}"`. */
  function SearchPayload(placeType: string, lat: Coord, lon: Coord): string {
    "places:search:" + placeType + ":" + lat + ":" + lon
  }

  /** `f"places:types:{latitude}:{longitude}"`. */
  function TypesPayload(lat: Coord, lon: Coord): string {
    "places:types:" + lat + ":" + lon
  }

  /** `f"places:page:{type}:{latitude}:{longitude}:{page}"`. */
  function PagePayload(placeType: string, lat: Coord, lon: Coord, page: int): string {
    "places:page:" + placeType + ":" + lat + ":" + lon + ":" + IntToString(page)
  }

  /** The page counter's payload, which the pagination handler ignores. */
  const CurrentPayload: string := "places:page:current"

  /** `get_place_type_keyboard`: a search per kind of place here, another location, or back. */
  function PlaceTypeKeyboard(lat: Coord, lon: Coord): (r: seq<Keyboards.Button>)
    ensures |r| == 5
    ensures r[0].payload == SearchPayload("pharmacies", lat, lon)
    ensures r[1].payload == SearchPayload("vet", lat, lon)
    ensures r[2].payload == SearchPayload("shops", lat, lon)
    ensures r[3].payload == "places:location" && r[4].payload == "menu:main"
  {
    [ Keyboards.Button("💊 Аптеки", SearchPayload("pharmacies", lat, lon)),
      Keyboards.Button("🏥 Ветаптеки", SearchPayload("vet", lat, lon)),
      Keyboards.Button("🛒 Продукты", SearchPayload("shops", lat, lon)),
      Keyboards.Button("📍 Другое место", "places:location"),
      Keyboards.Button("◀️ Назад", "menu:main") ]
  }

  /**
   * `get_places_pagination_keyboard`: previous only after the first page,
   * the counter always, next only before the last page, then two buttons
   * back to the choice of place type.
   */
  function PageKeyboard(placeType: string, lat: Coord, lon: Coord, page: nat, totalPages: nat)
    : (r: seq<Keyboards.Button>)
    ensures |r| == 3 + (if page > 0 then 1 else 0) + (if page + 1 < totalPages then 1 else 0)
    ensures page > 0 ==> r[0].payload == PagePayload(placeType, lat, lon, page - 1)
    ensures r[if page > 0 then 1 else 0].payload == CurrentPayload
    ensures page + 1 < totalPages ==> r[|r| - 3].payload == PagePayload(placeType, lat, lon, page + 1)
    ensures r[|r| - 2].payload == TypesPayload(lat, lon) && r[|r| - 1].payload == TypesPayload(lat, lon)
  {
    var prev := if page > 0 then [Keyboards.Button("⬅️", PagePayload(placeType, lat, lon, page - 1))] else [];
    var next := if page < totalPages - 1 then [Keyboards.Button("➡️", PagePayload(placeType, lat, lon, page + 1))] else [];
    prev + [Keyboards.Button("📄", CurrentPayload)] + next
      + [Keyboards.Button("🔄 Другой тип", TypesPayload(lat, lon)), Keyboards.Button("◀️ Назад", TypesPayload(lat, lon))]
  }

  // ---------------------------------------------------------------------------
  // Replies
  // ---------------------------------------------------------------------------

  datatype Reply =
    | Nothing
    | AskForLocation(buttons: seq<Keyboards.Button>)
    | ChooseType(buttons: seq<Keyboards.Button>)
    | AskLocation
    | AddressNotFound
    | GeocodingFailed
    | Located(address: Option<string>, buttons: seq<Keyboards.Button>)
    | NothingFound(buttons: seq<Keyboards.Button>)
    | Results(page: nat, totalPages: nat, first: nat, places: seq<PlacesService.Place>, buttons: seq<Keyboards.Button>)

  /**
   * `show_places_page`: the clamped page of the results, numbered from
   * `start_idx + 1`, with its navigation. An unknown place type fails on the
   * `PLACE_TYPES` lookup and shows nothing.
   */
  function ShowPlacesPage(placeType: string, lat: Coord, lon: Coord, results: seq<PlacesService.Place>, page: int)
    : (r: Reply)
    ensures r.Nothing? <==> PlacesService.Queries(placeType).None?
    ensures r.Nothing? || r.Results?
    ensures r.Results? ==>
      && r.totalPages == Paging.TotalPages(|results|)
      && r.page == Paging.ClampPage(page, r.totalPages)
      && r.first == Paging.PageStart(|results|, page) + 1
      && r.places == results[r.first - 1..Paging.PageEnd(|results|, page)]
      && |r.places| <= Paging.PageSize
      && (results != [] ==> r.page < r.totalPages && r.places != [])
      && r.buttons == PageKeyboard(placeType, lat, lon, r.page, r.totalPages)
  {
    if PlacesService.Queries(placeType).None? then Nothing
    else
      var total := Paging.TotalPages(|results|);
      var p := Paging.ClampPage(page, total);
      Results(p, total, Paging.PageStart(|results|, page) + 1, Paging.PageSlice(results, page),
              PageKeyboard(placeType, lat, lon, p, total))
  }

  /** Result `i` is shown on page `i / 10` as entry number `i + 1`. */
  lemma EveryResultIsShown(placeType: string, lat: Coord, lon: Coord, results: seq<PlacesService.Place>, i: nat)
    requires PlacesService.Queries(placeType).Some? && i < |results|
    ensures var r := ShowPlacesPage(placeType, lat, lon, results, i / Paging.PageSize);
      && r.page == i / Paging.PageSize
      && i % Paging.PageSize < |r.places|
      && r.places[i % Paging.PageSize] == results[i]
      && r.first + i % Paging.PageSize == i + 1
  {
    Paging.EntryOnItsPage(results, i);
  }

  // ---------------------------------------------------------------------------
  // The remembered location
  // ---------------------------------------------------------------------------

  /** `data.get(...)` is truthy: a float other than zero (Python prints zero as `0.0` or `-0.0`). */
  predicate IsSet(c: Option<Coord>) {
    c.Some? && c.value != "0.0" && c.value != "-0.0"
  }

  /** `update_data(latitude=..., longitude=...)`: the conversation state is kept. */
  function WithLocation(s: Session, lat: Coord, lon: Coord): (r: Session)
    ensures r.state == s.state
    ensures r.data.latitude == Some(lat) && r.data.longitude == Some(lon)
    ensures r.data.(latitude := s.data.latitude, longitude := s.data.longitude) == s.data
  {
    Session(s.state, s.data.(latitude := Some(lat), longitude := Some(lon)))
  }

  /**
   * What a received location leaves behind, as written: the location is
   * stored with `update_data` and then wiped by `state.clear()` right after.
   */
  function StoredLocationAsWritten(s: Session, lat: Coord, lon: Coord): (r: Session)
    ensures r.state == Idle && r.data.latitude.None? && r.data.longitude.None?
  {
    var stored := WithLocation(s, lat, lon);
    Cleared
  }

  /**
   * What a received location leaves behind, as evidently intended: the
   * waiting state ends and the location stays in the data for the next
   * visit to the places menu.
   */
  function StoredLocation(s: Session, lat: Coord, lon: Coord): (r: Session)
    ensures r.state == Idle && WellFormed(r)
    ensures r.data.latitude == Some(lat) && r.data.longitude == Some(lon)
  {
    Session(Idle, WithLocation(s, lat, lon).data)
  }

  /** `show_places_menu` (`menu:places`): the place types for a remembered location, else ask for one. */
  function ShowPlacesMenu(s: Session, db: Store.Db): (r: Step<Reply>)
    ensures r.session == s && r.db == db
    ensures IsSet(s.data.latitude) && IsSet(s.data.longitude) ==>
      r.reply == ChooseType(PlaceTypeKeyboard(s.data.latitude.value, s.data.longitude.value))
    ensures !(IsSet(s.data.latitude) && IsSet(s.data.longitude)) ==>
      r.reply == AskForLocation(Keyboards.PlacesMenu())
  {
    if IsSet(s.data.latitude) && IsSet(s.data.longitude) then
      Stay(s, db, ChooseType(PlaceTypeKeyboard(s.data.latitude.value, s.data.longitude.value)))
    else Stay(s, db, AskForLocation(Keyboards.PlacesMenu()))
  }

  /**
   * As written, the places menu asks again for a location the user has just
   * given, whether it was shared or typed as an address.
   */
  lemma LocationForgottenAsWritten(s: Session, db: Store.Db, lat: Coord, lon: Coord, userId: int, text: string,
                                   geocode: string -> Geocoded)
    ensures ShowPlacesMenu(ProcessLocation(s, db, lat, lon).session, db).reply == AskForLocation(Keyboards.PlacesMenu())
    ensures ProcessAddress(s, db, userId, text, geocode).reply.Located? ==>
      ShowPlacesMenu(ProcessAddress(s, db, userId, text, geocode).session, db).reply == AskForLocation(Keyboards.PlacesMenu())
  {
  }

  /** With the location kept, the places menu goes straight to the place types for it. */
  lemma LocationIsRemembered(s: Session, db: Store.Db, lat: Coord, lon: Coord)
    requires IsSet(Some(lat)) && IsSet(Some(lon))
    ensures ShowPlacesMenu(StoredLocation(s, lat, lon), db).reply == ChooseType(PlaceTypeKeyboard(lat, lon))
  {
  }

  // ---------------------------------------------------------------------------
  // Choosing a location
  // ---------------------------------------------------------------------------

  /** `request_location` (`places:location`): waits for a location and remembers the message to edit. */
  function RequestLocation(s: Session, db: Store.Db, messageId: int): (r: Step<Reply>)
    ensures r.session == Session(PlacesLocation, s.data.(messageId := Some(messageId))) && WellFormed(r.session)
    ensures r.db == db && r.reply == AskLocation
  {
    Step(Session(PlacesLocation, s.data.(messageId := Some(messageId))), db, AskLocation)
  }

  /**
   * `process_location_coords`: a shared location is always accepted and the
   * place types are offered for it, but the conversation and its data,
   * the location included, are cleared.
   */
  function ProcessLocation(s: Session, db: Store.Db, lat: Coord, lon: Coord): (r: Step<Reply>)
    ensures r.session == Cleared && r.db == db
    ensures r.session.data.latitude.None? && r.session.data.longitude.None?
    ensures r.reply == Located(None, PlaceTypeKeyboard(lat, lon))
  {
    Step(StoredLocationAsWritten(s, lat, lon), db, Located(None, PlaceTypeKeyboard(lat, lon)))
  }

  /** What Nominatim answers for an address. */
  datatype Geocoded = NotFound | GeocoderError | Found(lat: Coord, lon: Coord, address: string)

  /** The city the address is looked up in: the user's city, or Moscow. */
  function BaseCity(db: Store.Db, userId: int): (r: string)
    ensures userId in db.settings && db.settings[userId].city.Some? && db.settings[userId].city.value != [] ==>
      r == db.settings[userId].city.value
    ensures userId !in db.settings || db.settings[userId].city.None? || db.settings[userId].city.value == [] ==>
      r == "Moscow"
  {
    match Store.GetSettings(db, userId)
    case None => "Moscow"
    case Some(row) => if row.city.Some? && row.city.value != [] then row.city.value else "Moscow"
  }

  /** `f"{address}, {base_city}, Russia"`. */
  function FullAddress(db: Store.Db, userId: int, text: string): (r: string)
    ensures StartsWith(r, Strip(text))
    ensures |r| >= 8 && r[|r| - 8..] == ", Russia"
    ensures userId !in db.settings ==> r == Strip(text) + ", " + "Moscow" + ", Russia"
  {
    var head := Strip(text) + ", " + BaseCity(db, userId);
    var r := head + ", Russia";
    assert r[..|Strip(text)|] == Strip(text) by { assert r[..|Strip(text)|] == head[..|Strip(text)|]; }
    assert r[|r| - 8..] == ", Russia";
    r
  }

  /**
   * `process_location_address`: without a remembered prompt message nothing
   * happens; an address the geocoder cannot place, or a geocoder failure,
   * keeps the conversation waiting; a placed address is offered the place
   * types, and the conversation and its data, the location included, are
   * cleared.
   */
  function ProcessAddress(s: Session, db: Store.Db, userId: int, text: string, geocode: string -> Geocoded)
    : (r: Step<Reply>)
    ensures r.db == db
    ensures s.data.messageId.None? || s.data.messageId == Some(0) ==> r.session == s && r.reply == Nothing
    ensures r.reply.Located? <==>
      s.data.messageId.Some? && s.data.messageId != Some(0) && geocode(FullAddress(db, userId, text)).Found?
    ensures r.reply.Located? ==>
      var g := geocode(FullAddress(db, userId, text));
      && r.session == Cleared
      && r.reply == Located(Some(g.address), PlaceTypeKeyboard(g.lat, g.lon))
    ensures !r.reply.Located? ==> r.session == s
  {
    if s.data.messageId.None? || s.data.messageId == Some(0) then Stay(s, db, Nothing)
    else
      match geocode(FullAddress(db, userId, text))
      case NotFound => Stay(s, db, AddressNotFound)
      case GeocoderError => Stay(s, db, GeocodingFailed)
      case Found(lat, lon, address) =>
        Step(StoredLocationAsWritten(s, lat, lon), db, Located(Some(address), PlaceTypeKeyboard(lat, lon)))
  }

  // ---------------------------------------------------------------------------
  // Callback payloads
  // ---------------------------------------------------------------------------

  datatype Command =
    | OpenMenu                                                   // menu:places
    | ChooseLocation                                             // places:location
    | Search(placeType: string, lat: Coord, lon: Coord)          // places:search:{type}:{lat}:{lon}
    | GotoPage(placeType: string, lat: Coord, lon: Coord, page: int) // places:page:{type}:{lat}:{lon}:{n}
    | SamePage                                                   // places:page:current
    | ShowTypes(lat: Coord, lon: Coord)                          // places:types:{lat}:{lon}

  /** The handlers of the router that take a callback, in registration order. */
  datatype Route = MenuRoute | LocationRoute | SearchRoute | PageRoute | TypesRoute

  /**
   * The first handler whose filter (`==` or `startswith`) accepts the payload,
   * if any. The router claims only `menu:places` and payloads under
   * `places:`, and its three prefixes never shadow each other.
   */
  function RouteOf(p: string): (r: Option<Route>)
    ensures r.Some? ==> p == "menu:places" || StartsWith(p, "places:")
    ensures r == Some(SearchRoute) <==> StartsWith(p, "places:search:")
    ensures r == Some(PageRoute) <==> StartsWith(p, "places:page:")
    ensures r == Some(TypesRoute) <==> StartsWith(p, "places:types:")
  {
    PrefixesApart(p);
    if p == "menu:places" then Some(MenuRoute)
    else if p == "places:location" then Some(LocationRoute)
    else if StartsWith(p, "places:search:") then Some(SearchRoute)
    else if StartsWith(p, "places:page:") then Some(PageRoute)
    else if StartsWith(p, "places:types:") then Some(TypesRoute)
    else None
  }

  /** The fixed payloads and the three prefixes of the router exclude one another. */
  lemma PrefixesApart(p: string)
    ensures StartsWith(p, "places:search:") ==>
      p != "menu:places" && p != "places:location" && !StartsWith(p, "places:page:") && !StartsWith(p, "places:types:")
    ensures StartsWith(p, "places:page:") ==>
      p != "menu:places" && p != "places:location" && !StartsWith(p, "places:types:")
    ensures StartsWith(p, "places:types:") ==> p != "menu:places" && p != "places:location"
  {
    if StartsWith(p, "places:search:") {
      assert p[0] == 'p' && p[7] == 's';
      NotPrefix(p, "places:page:", 7);
      NotPrefix(p, "places:types:", 7);
    }
    if StartsWith(p, "places:page:") {
      assert p[0] == 'p' && p[7] == 'p';
      NotPrefix(p, "places:types:", 7);
    }
    if StartsWith(p, "places:types:") {
      assert p[0] == 'p' && p[7] == 't';
    }
  }

  /** The handler that produces each command. */
  function RouteFor(c: Command): Route {
    match c
    case OpenMenu => MenuRoute
    case ChooseLocation => LocationRoute
    case Search(_, _, _) => SearchRoute
    case GotoPage(_, _, _, _) => PageRoute
    case SamePage => PageRoute
    case ShowTypes(_, _) => TypesRoute
  }

  /** `float(parts[i])` and `float(parts[i + 1])` both succeed. */
  predicate ReadsCoords(parts: seq<string>, i: nat, parseFloat: string -> Option<real>) {
    i + 1 < |parts| && parseFloat(parts[i]).Some? && parseFloat(parts[i + 1]).Some?
  }

  /**
   * What each handler reads from the payload, positionally after
   * `split(":")`; `None` when a field is missing or is not a number (the
   * handler raises before changing anything).
   */
  function Read(route: Route, p: string, parseFloat: string -> Option<real>): (r: Option<Command>)
    ensures route in {MenuRoute, LocationRoute} ==> r.Some?
    ensures r.Some? ==> RouteFor(r.value) == route
    ensures route == PageRoute && LastField(p, ':') == "current" ==> r == Some(SamePage)
    ensures r.Some? && (r.value.Search? || r.value.GotoPage? || r.value.ShowTypes?) ==>
      parseFloat(r.value.lat).Some? && parseFloat(r.value.lon).Some?
  {
    var parts := Split(p, ':');
    match route
    case MenuRoute => Some(OpenMenu)
    case LocationRoute => Some(ChooseLocation)
    case SearchRoute =>
      if ReadsCoords(parts, 3, parseFloat) then Some(Search(parts[2], parts[3], parts[4])) else None
    case PageRoute =>
      if LastField(p, ':') == "current" then Some(SamePage)
      else if |parts| >= 6 && ReadsCoords(parts, 3, parseFloat) && ParseInt(parts[5]).Some? then
        Some(GotoPage(parts[2], parts[3], parts[4], ParseInt(parts[5]).value))
      else None
    case TypesRoute =>
      if ReadsCoords(parts, 2, parseFloat) then Some(ShowTypes(parts[2], parts[3])) else None
  }

  /** Which handler of the router claims a payload and what it reads from it. */
  function Decode(p: string, parseFloat: string -> Option<real>): (r: Option<Command>)
    ensures r.Some? ==> RouteOf(p) == Some(RouteFor(r.value))
    ensures r.Some? ==> p == "menu:places" || StartsWith(p, "places:")
    ensures p == "menu:places" ==> r == Some(OpenMenu)
    ensures p == "places:location" ==> r == Some(ChooseLocation)
  {
    match RouteOf(p)
    case None => None
    case Some(route) => Read(route, p, parseFloat)
  }

  /** A field the bot writes into a payload: no colon, and for a coordinate, a number. */
  predicate Field(t: string) {
    ':' !in t
  }

  predicate CoordField(c: Coord, parseFloat: string -> Option<real>) {
    Field(c) && parseFloat(c).Some?
  }

  lemma SplitPagePayload(placeType: string, lat: Coord, lon: Coord, page: int)
    requires Field(placeType) && Field(lat) && Field(lon)
    ensures Split(PagePayload(placeType, lat, lon, page), ':') ==
      ["places", "page", placeType, lat, lon, IntToString(page)]
  {
    var n := IntToString(page);
    IntToStringHasNo(page, ':');
    var t3 := lon + [':'] + n;
    var t2 := lat + [':'] + t3;
    var t1 := placeType + [':'] + t2;
    var t0 := "page" + [':'] + t1;
    assert PagePayload(placeType, lat, lon, page) == "places" + [':'] + t0;
    SplitAppend("places", ':', t0);
    SplitAppend("page", ':', t1);
    SplitAppend(placeType, ':', t2);
    SplitAppend(lat, ':', t3);
    SplitAppend(lon, ':', n);
    SplitNoSeparator(n, ':');
  }

  lemma SplitSearchPayload(placeType: string, lat: Coord, lon: Coord)
    requires Field(placeType) && Field(lat) && Field(lon)
    ensures Split(SearchPayload(placeType, lat, lon), ':') == ["places", "search", placeType, lat, lon]
  {
    var t2 := lat + [':'] + lon;
    var t1 := placeType + [':'] + t2;
    var t0 := "search" + [':'] + t1;
    assert SearchPayload(placeType, lat, lon) == "places" + [':'] + t0;
    SplitAppend("places", ':', t0);
    SplitAppend("search", ':', t1);
    SplitAppend(placeType, ':', t2);
    SplitAppend(lat, ':', lon);
    SplitNoSeparator(lon, ':');
  }

  lemma SplitTypesPayload(lat: Coord, lon: Coord)
    requires Field(lat) && Field(lon)
    ensures Split(TypesPayload(lat, lon), ':') == ["places", "types", lat, lon]
  {
    var t1 := lat + [':'] + lon;
    var t0 := "types" + [':'] + t1;
    assert TypesPayload(lat, lon) == "places" + [':'] + t0;
    SplitAppend("places", ':', t0);
    SplitAppend("types", ':', t1);
    SplitAppend(lat, ':', lon);
    SplitNoSeparator(lon, ':');
  }

  /** Whatever follows `places:page:` goes to the page handler. */
  lemma PageRouteOf(p: string)
    requires |p| >= 12 && p[..12] == "places:page:"
    ensures RouteOf(p) == Some(PageRoute)
  {
    assert p != "menu:places" by { assert p[0] != "menu:places"[0]; }
    assert p != "places:location" by { assert p[7] != "places:location"[7]; }
    NotPrefix(p, "places:search:", 7);
    assert StartsWith(p, "places:page:");
  }

  /** A page button goes to the page handler. */
  lemma PagePayloadRoute(placeType: string, lat: Coord, lon: Coord, page: int)
    ensures RouteOf(PagePayload(placeType, lat, lon, page)) == Some(PageRoute)
  {
    var x0 := "places:page:";
    var x1 := x0 + placeType;
    var x2 := x1 + ":";
    var x3 := x2 + lat;
    var x4 := x3 + ":";
    var x5 := x4 + lon;
    var x6 := x5 + ":";
    assert StartsWith(x0, x0);
    StartsWithAppend(x0, placeType, x0);
    StartsWithAppend(x1, ":", x0);
    StartsWithAppend(x2, lat, x0);
    StartsWithAppend(x3, ":", x0);
    StartsWithAppend(x4, lon, x0);
    StartsWithAppend(x5, ":", x0);
    StartsWithAppend(x6, IntToString(page), x0);
    PageRouteOf(PagePayload(placeType, lat, lon, page));
  }

  /** A page button reads back the place type, the location and the page it was made for. */
  lemma DecodePagePayload(placeType: string, lat: Coord, lon: Coord, page: int, parseFloat: string -> Option<real>)
    requires Field(placeType) && CoordField(lat, parseFloat) && CoordField(lon, parseFloat)
    ensures Decode(PagePayload(placeType, lat, lon, page), parseFloat) == Some(GotoPage(placeType, lat, lon, page))
  {
    var p := PagePayload(placeType, lat, lon, page);
    var n := IntToString(page);
    PagePayloadRoute(placeType, lat, lon, page);
    SplitPagePayload(placeType, lat, lon, page);
    var parts := Split(p, ':');
    assert LastField(p, ':') == n;
    IntToStringRoundTrip(page);
    assert n != "current" by { assert n[0] == '-' || IsDigit(n[0]); }
    assert ReadsCoords(parts, 3, parseFloat);
    assert Read(PageRoute, p, parseFloat) == Some(GotoPage(placeType, lat, lon, page));
  }

  /** Any page payload whose last field is `current` reads as a no-op. */
  lemma DecodeCounterPayload(p: string, parseFloat: string -> Option<real>)
    requires |p| >= 12 && p[..12] == "places:page:" && LastField(p, ':') == "current"
    ensures Decode(p, parseFloat) == Some(SamePage)
  {
    PageRouteOf(p);
  }

  /** The counter reads as a no-op. */
  lemma DecodeCurrentPayload(parseFloat: string -> Option<real>)
    ensures Decode(CurrentPayload, parseFloat) == Some(SamePage)
  {
    var prefix := "places:page:";
    LastFieldAfterPrefix(prefix, ':', "current");
    assert prefix + "current" == CurrentPayload;
    DecodeCounterPayload(CurrentPayload, parseFloat);
  }

  /** A search button reads back its place type and location. */
  lemma DecodeSearchPayload(placeType: string, lat: Coord, lon: Coord, parseFloat: string -> Option<real>)
    requires Field(placeType) && CoordField(lat, parseFloat) && CoordField(lon, parseFloat)
    ensures Decode(SearchPayload(placeType, lat, lon), parseFloat) == Some(Search(placeType, lat, lon))
  {
    var p := SearchPayload(placeType, lat, lon);
    assert p == "places:search:" + (placeType + ":" + lat + ":" + lon);
    assert p[..14] == "places:search:";
    SplitSearchPayload(placeType, lat, lon);
  }

  /** A "back to the types" button reads back its location. */
  lemma DecodeTypesPayload(lat: Coord, lon: Coord, parseFloat: string -> Option<real>)
    requires CoordField(lat, parseFloat) && CoordField(lon, parseFloat)
    ensures Decode(TypesPayload(lat, lon), parseFloat) == Some(ShowTypes(lat, lon))
  {
    var p := TypesPayload(lat, lon);
    assert p == "places:types:" + (lat + ":" + lon);
    assert p[..13] == "places:types:";
    NotPrefix(p, "places:search:", 7);
    NotPrefix(p, "places:page:", 7);
    SplitTypesPayload(lat, lon);
  }

  /**
   * Every button under a page of results leads somewhere valid: to a page
   * that exists, to the same page, or back to the place types here.
   */
  lemma PageKeyboardDecodes(placeType: string, lat: Coord, lon: Coord, page: nat, totalPages: nat,
                            parseFloat: string -> Option<real>, k: int)
    requires Field(placeType) && CoordField(lat, parseFloat) && CoordField(lon, parseFloat)
    requires page < totalPages
    requires 0 <= k < |PageKeyboard(placeType, lat, lon, page, totalPages)|
    ensures var c := Decode(PageKeyboard(placeType, lat, lon, page, totalPages)[k].payload, parseFloat);
      || c == Some(SamePage)
      || c == Some(ShowTypes(lat, lon))
      || (c.Some? && c.value.GotoPage? && c.value == GotoPage(placeType, lat, lon, c.value.page)
          && 0 <= c.value.page < totalPages && c.value.page != page)
  {
    var r := PageKeyboard(placeType, lat, lon, page, totalPages);
    var counter := if page > 0 then 1 else 0;
    if k >= |r| - 2 {
      DecodeTypesPayload(lat, lon, parseFloat);
    } else if k == counter {
      DecodeCurrentPayload(parseFloat);
    } else if k < counter {
      DecodePagePayload(placeType, lat, lon, page - 1, parseFloat);
    } else {
      DecodePagePayload(placeType, lat, lon, page + 1, parseFloat);
    }
  }

  /** The place-type buttons search for their own kind of place at the location they were made for. */
  lemma PlaceTypeKeyboardDecodes(lat: Coord, lon: Coord, parseFloat: string -> Option<real>)
    requires CoordField(lat, parseFloat) && CoordField(lon, parseFloat)
    ensures var r := PlaceTypeKeyboard(lat, lon);
      && Decode(r[0].payload, parseFloat) == Some(Search("pharmacies", lat, lon))
      && Decode(r[1].payload, parseFloat) == Some(Search("vet", lat, lon))
      && Decode(r[2].payload, parseFloat) == Some(Search("shops", lat, lon))
      && Decode(r[3].payload, parseFloat) == Some(ChooseLocation)
  {
    DecodeSearchPayload("pharmacies", lat, lon, parseFloat);
    DecodeSearchPayload("vet", lat, lon, parseFloat);
    DecodeSearchPayload("shops", lat, lon, parseFloat);
  }

  // ---------------------------------------------------------------------------
  // Callback handlers
  // ---------------------------------------------------------------------------

  /**
   * The callback handlers. Every one that reads a location from its payload
   * stores it in the data first; a search that finds nothing says so and
   * never renders a page, while re-searching for a page renders whatever
   * comes back.
   */
  function HandleCallback(s: Session, db: Store.Db, messageId: int, c: Command,
                          fetch: string -> seq<PlacesService.Element>, dist: (real, real) -> real)
    : (r: Step<Reply>)
    ensures r.db == db
    ensures c.OpenMenu? || c.SamePage? ==> r.session == s
    ensures c.ChooseLocation? ==> r.session == Session(PlacesLocation, s.data.(messageId := Some(messageId)))
    ensures c.Search? || c.GotoPage? ==> r.session == WithLocation(s, c.lat, c.lon)
    ensures c.ShowTypes? ==> r.session == WithLocation(s, c.lat, c.lon) && r.reply == ChooseType(PlaceTypeKeyboard(c.lat, c.lon))
    ensures c.Search? ==>
      var found := PlacesService.SearchPlaces(c.placeType, fetch, dist);
      && (found == [] ==> r.reply == NothingFound(PlaceTypeKeyboard(c.lat, c.lon)))
      && (found != [] ==>
            r.reply == ShowPlacesPage(c.placeType, c.lat, c.lon, found, 0) && r.reply.Results? && r.reply.page == 0)
    ensures c.GotoPage? ==>
      r.reply == ShowPlacesPage(c.placeType, c.lat, c.lon, PlacesService.SearchPlaces(c.placeType, fetch, dist), c.page)
  {
    match c
    case OpenMenu => ShowPlacesMenu(s, db)
    case ChooseLocation => RequestLocation(s, db, messageId)
    case Search(placeType, lat, lon) =>
      var found := PlacesService.SearchPlaces(placeType, fetch, dist);
      if found == [] then Step(WithLocation(s, lat, lon), db, NothingFound(PlaceTypeKeyboard(lat, lon)))
      else Step(WithLocation(s, lat, lon), db, ShowPlacesPage(placeType, lat, lon, found, 0))
    case GotoPage(placeType, lat, lon, page) =>
      var found := PlacesService.SearchPlaces(placeType, fetch, dist);
      Step(WithLocation(s, lat, lon), db, ShowPlacesPage(placeType, lat, lon, found, page))
    case SamePage => Stay(s, db, Nothing)
    case ShowTypes(lat, lon) => Step(WithLocation(s, lat, lon), db, ChooseType(PlaceTypeKeyboard(lat, lon)))
  }

  /** Paging through results keeps the user inside the list: the page shown is the one asked for, when it exists. */
  lemma PageButtonsLandOnTheirPage(s: Session, db: Store.Db, messageId: int, placeType: string, lat: Coord, lon: Coord,
                                   page: nat, fetch: string -> seq<PlacesService.Element>, dist: (real, real) -> real)
    requires page < Paging.TotalPages(|PlacesService.SearchPlaces(placeType, fetch, dist)|)
    ensures var r := HandleCallback(s, db, messageId, GotoPage(placeType, lat, lon, page), fetch, dist).reply;
      r.Results? && r.page == page
  {
    var found := PlacesService.SearchPlaces(placeType, fetch, dist);
    assert found != [];
  }
}
