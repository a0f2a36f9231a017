/** The state transitions of App.tsx: entering the key, starting over, the
    search pipeline and selecting a result card. Each handler is a function
    from the session before to the session after it settled; the map
    provider is a parameter (`Providers`), and the map view itself (markers,
    panning, zoom) is not modelled. */
module App {
  import opened Common
  import opened Strings
  import opened Types
  import opened GoogleMaps
  import Sidebar

  /** The top-level component's state: the application state, the
      in-flight flag and the selected card. */
  datatype Session = Session(state: AppState, isSearching: bool, selectedId: Option<string>)

  const LABEL_A: string := "Person A"
  const LABEL_B: string := "Person B"
  const DEFAULT_PRICE_RANGE: seq<int> := [2, 3]

  /** How many search results receive travel times and are shown. */
  const TOP_RESULTS: nat := 10

  /** The session when the application opens. */
  const INITIAL: Session := Session(
    AppState(
      step := ApiKey,
      mapsApiKey := "",
      locationA := UserLocation("", None, LABEL_A),
      locationB := UserLocation("", None, LABEL_B),
      region := ANYWHERE,
      selectedCuisines := [],
      priceRange := DEFAULT_PRICE_RANGE,
      timing := Now,
      results := [],
      midpoint := None,
      error := None),
    false,
    None)

  // ---------------------------------------------------------------------
  // Entering the key

  /** `handleApiKeySubmit`: once the map script loaded, the key is stored and
      the input step shown; when loading failed only an alert is shown. */
  function ApiKeySubmit(s: Session, key: string, loaded: bool): (r: Session)
    ensures loaded ==> r.state.step == Input && r.state.mapsApiKey == key
    ensures loaded ==> r.state == s.state.(step := Input, mapsApiKey := key) && r.isSearching == s.isSearching && r.selectedId == s.selectedId
    ensures !loaded ==> r == s
  {
    if loaded then s.(state := s.state.(mapsApiKey := key, step := Input)) else s
  }

  // ---------------------------------------------------------------------
  // Starting over

  /** A location with its address and position cleared; the label stays. */
  function ClearLocation(l: UserLocation): (c: UserLocation)
    ensures c.address == "" && c.coords.None? && c.labelText == l.labelText
  {
    l.(address := "", coords := None)
  }

  /** `handleStartOver`: back to the input step with empty addresses, the
      default filters and no results; the key, the timing and the labels are kept. */
  function StartOver(s: Session): (r: Session)
    ensures r.selectedId.None? && r.isSearching == s.isSearching
    ensures r.state.step == Input && r.state.error.None?
    ensures r.state.results == [] && r.state.midpoint.None?
    ensures r.state.locationA.address == "" && r.state.locationB.address == ""
    ensures r.state.locationA.coords.None? && r.state.locationB.coords.None?
    ensures r.state.region == ANYWHERE && r.state.selectedCuisines == [] && r.state.priceRange == DEFAULT_PRICE_RANGE
    ensures r.state.mapsApiKey == s.state.mapsApiKey && r.state.timing == s.state.timing
    ensures r.state.locationA.labelText == s.state.locationA.labelText
    ensures r.state.locationB.labelText == s.state.locationB.labelText
  {
    Session(
      s.state.(
        step := Input,
        locationA := ClearLocation(s.state.locationA),
        locationB := ClearLocation(s.state.locationB),
        region := ANYWHERE,
        selectedCuisines := [],
        priceRange := DEFAULT_PRICE_RANGE,
        results := [],
        midpoint := None,
        error := None),
      s.isSearching,
      None)
  }

  /** Starting over twice is the same as starting over once. */
  lemma StartOverIdempotent(s: Session)
    ensures StartOver(StartOver(s)) == StartOver(s)
  {
  }

  /** After the key was entered, starting over gives the opening session
      at the input step, keeping the key and the timing. */
  lemma StartOverRestoresInitial(s: Session)
    requires s.state.locationA.labelText == LABEL_A && s.state.locationB.labelText == LABEL_B
    requires !s.isSearching
    ensures StartOver(s) == INITIAL.(state := INITIAL.state.(step := Input, mapsApiKey := s.state.mapsApiKey, timing := s.state.timing))
  {
  }

  // ---------------------------------------------------------------------
  // The search

  /** The smallest selected value, as `Math.min` computes it. */
  function MinOf(s: seq<int>): (m: int)
    requires |s| > 0
    ensures m in s
    ensures forall i :: 0 <= i < |s| ==> m <= s[i]
  {
    if |s| == 1 then s[0]
    else
      var rest := MinOf(s[1..]);
      if s[0] <= rest then s[0] else rest
  }

  /** The largest selected value, as `Math.max` computes it. */
  function MaxOf(s: seq<int>): (m: int)
    requires |s| > 0
    ensures m in s
    ensures forall i :: 0 <= i < |s| ==> s[i] <= m
  {
    if |s| == 1 then s[0]
    else
      var rest := MaxOf(s[1..]);
      if s[0] >= rest then s[0] else rest
  }

  /** The price filter of the restaurant search: the least and greatest
      selected level, or 1..4 when no level is selected. */
  function PriceBounds(range: seq<int>): (b: (int, int))
    ensures |range| == 0 ==> b == (1, 4)
    ensures |range| > 0 ==> b.0 in range && b.1 in range
    ensures forall i :: 0 <= i < |range| ==> b.0 <= range[i] <= b.1
    ensures (forall i :: 0 <= i < |range| ==> 1 <= range[i] <= 4) ==> 1 <= b.0 <= b.1 <= 4
  {
    if |range| > 0 then (MinOf(range), MaxOf(range)) else (1, 4)
  }

  /** The map centre shown with the results, and the point the restaurant search is centred on. */
  datatype Centre = Centre(midpoint: Coordinates, searchCentre: Coordinates)

  /** Step 2 of `handleSearch`. A named region is geocoded and is both the
      midpoint and the search centre; "Anywhere" uses the geographic
      midpoint, and searches around the closest subway station when there is one. */
  function ResolveCentre(region: string, a: Coordinates, b: Coordinates, p: Providers): (r: Result<Centre>)
    ensures region != ANYWHERE ==>
      var g := GeocodeAddress(p.geocode(region));
      && (r.Ok? <==> g.Ok?)
      && (r.Ok? ==> r.value.midpoint == g.value && r.value.searchCentre == g.value)
      && (r.Err? ==> r.message == g.message)
    ensures region == ANYWHERE ==> r.Ok? && r.value.midpoint == Midpoint(a, b)
    ensures region == ANYWHERE ==>
      var reply := p.places(SubwayRequest(Midpoint(a, b)));
      && (reply.status == OK && reply.results.Some? && |reply.results.value| > 0 ==>
            r.value.searchCentre == reply.results.value[0].location)
      && (!(reply.status == OK && reply.results.Some? && |reply.results.value| > 0) ==>
            r.value.searchCentre == Midpoint(a, b))
  {
    if region != ANYWHERE then
      match GeocodeAddress(p.geocode(region))
      case Err(m) => Err(m)
      case Ok(c) => Ok(Centre(c, c))
    else
      var mid := Midpoint(a, b);
      var subways := NearbySubways(p.places(SubwayRequest(mid)));
      Ok(Centre(mid, if |subways| > 0 then subways[0].location else mid))
  }

  /** Steps 3 and 4 of `handleSearch`: the restaurants around the centre
      within the price bounds, cut to the first ten. */
  function Candidates(st: AppState, c: Centre, p: Providers): (top: seq<Restaurant>)
    ensures var rs := SearchRestaurantsNear(c.searchCentre, st.selectedCuisines,
                                            PriceBounds(st.priceRange).0, PriceBounds(st.priceRange).1, p.places);
      && |top| == Min(TOP_RESULTS, |rs|)
      && forall i :: 0 <= i < |top| ==> top[i] == rs[i]
  {
    var bounds := PriceBounds(st.priceRange);
    Take(SearchRestaurantsNear(c.searchCentre, st.selectedCuisines, bounds.0, bounds.1, p.places), TOP_RESULTS)
  }

  /** The error a failed search shows: the thrown message, or "Search failed" when it is empty. */
  function ErrorText(message: string): (t: string)
    ensures t != ""
    ensures message != "" ==> t == message
    ensures message == "" ==> t == "Search failed"
  {
    if message != "" then message else "Search failed"
  }

  function Fail(st: AppState, message: string): AppState {
    st.(error := Some(ErrorText(message)))
  }

  /** The provider's distance matrix always has an element per destination in each row. */
  ghost predicate MatrixWellShaped(p: Providers) {
    forall q :: MatrixShaped(p.matrix(q), |q.destinations|)
  }

  predicate HasPrefix(s: string, prefix: string) {
    |prefix| <= |s| && s[..|prefix|] == prefix
  }

  /** The error messages a search can end with. */
  predicate SearchError(message: string) {
    HasPrefix(message, "Geocode failed: ") || HasPrefix(message, "Distance Matrix failed: ")
  }

  /** `handleSearch` past its empty-address guard: the error is cleared,
      then the `try` block runs. */
  function Search(st: AppState, p: Providers): (r: AppState)
    requires MatrixWellShaped(p)
    ensures r == st.(locationA := r.locationA, locationB := r.locationB, step := r.step,
                     results := r.results, midpoint := r.midpoint, error := r.error)
    ensures r.locationA == st.locationA.(coords := r.locationA.coords)
    ensures r.locationB == st.locationB.(coords := r.locationB.coords)
    ensures r.error.Some? ==> r.step == st.step && r.results == st.results && r.midpoint == st.midpoint
    ensures r.error.Some? ==> SearchError(r.error.value)
    ensures r.error.None? ==> r.step == Results && r.midpoint.Some? && |r.results| <= TOP_RESULTS
    ensures r.error.None? ==> forall i :: 0 <= i < |r.results| ==> r.results[i].travel.Some?
  {
    var st := st.(error := None);
    match GeocodeAddress(p.geocode(st.locationA.address))
    case Err(m) => Fail(st, m)
    case Ok(a) =>
      match GeocodeAddress(p.geocode(st.locationB.address))
      case Err(m) => Fail(st, m)
      case Ok(b) =>
        var located := st.(locationA := st.locationA.(coords := Some(a)), locationB := st.locationB.(coords := Some(b)));
        match ResolveCentre(st.region, a, b, p)
        case Err(m) => Fail(located, m)
        case Ok(c) =>
          var top := Candidates(st, c, p);
          match CalculateTravelTimes(a, b, top, p.matrix)
          case Err(m) => Fail(located, m)
          case Ok(enriched) => located.(step := Results, results := enriched, midpoint := Some(c.midpoint))
  }

  /** Both starting points are geocoded; their positions are recorded as
      soon as both are known, even when a later step fails. */
  lemma SearchRecordsCoordinates(st: AppState, p: Providers)
    requires MatrixWellShaped(p)
    ensures var ga := GeocodeAddress(p.geocode(st.locationA.address));
            var gb := GeocodeAddress(p.geocode(st.locationB.address));
            var r := Search(st, p);
            && (ga.Ok? && gb.Ok? ==> r.locationA.coords == Some(ga.value) && r.locationB.coords == Some(gb.value))
            && (ga.Err? || gb.Err? ==> r == Fail(st, if ga.Err? then ga.message else gb.message))
  {
  }

  /** Once both addresses are found, a failed centre or a failed distance
      matrix shows exactly the message thrown by that step. */
  lemma SearchReportsStepError(st: AppState, p: Providers)
    requires MatrixWellShaped(p)
    requires GeocodeAddress(p.geocode(st.locationA.address)).Ok?
    requires GeocodeAddress(p.geocode(st.locationB.address)).Ok?
    ensures var a := GeocodeAddress(p.geocode(st.locationA.address)).value;
            var b := GeocodeAddress(p.geocode(st.locationB.address)).value;
            var c := ResolveCentre(st.region, a, b, p);
            && (c.Err? ==> Search(st, p).error == Some(c.message))
            && (c.Ok? && CalculateTravelTimes(a, b, Candidates(st, c.value, p), p.matrix).Err? ==>
                  Search(st, p).error == Some(CalculateTravelTimes(a, b, Candidates(st, c.value, p), p.matrix).message))
  {
  }

  /** A successful search shows the first ten restaurants found around the
      centre, in the provider's order, each with its travel times added. */
  lemma SearchResultsAreTopTen(st: AppState, p: Providers)
    requires MatrixWellShaped(p)
    requires Search(st, p).error.None?
    ensures var a := GeocodeAddress(p.geocode(st.locationA.address)).value;
            var b := GeocodeAddress(p.geocode(st.locationB.address)).value;
            var c := ResolveCentre(st.region, a, b, p);
            var r := Search(st, p);
            && c.Ok?
            && r.midpoint == Some(c.value.midpoint)
            && |r.results| == |Candidates(st, c.value, p)|
            && forall i :: 0 <= i < |r.results| ==>
                 r.results[i] == Candidates(st, c.value, p)[i].(travel := r.results[i].travel)
    ensures var a := GeocodeAddress(p.geocode(st.locationA.address)).value;
            var b := GeocodeAddress(p.geocode(st.locationB.address)).value;
            var c := ResolveCentre(st.region, a, b, p).value;
            var travel := CalculateTravelTimes(a, b, Candidates(st, c, p), p.matrix);
            travel.Ok? && Search(st, p).results == travel.value
  {
  }

  /** A restaurant search that fails is not an error: once both addresses
      and the centre are found, the results step is shown with no restaurants. */
  lemma FailedRestaurantSearchShowsNothing(st: AppState, p: Providers)
    requires MatrixWellShaped(p)
    requires GeocodeAddress(p.geocode(st.locationA.address)).Ok?
    requires GeocodeAddress(p.geocode(st.locationB.address)).Ok?
    requires st.region == ANYWHERE || GeocodeAddress(p.geocode(st.region)).Ok?
    requires forall q: NearbyRequest :: q.RestaurantSearch? ==> p.places(q).status != OK
    ensures Search(st, p).error.None?
    ensures Search(st, p).step == Results && Search(st, p).results == []
    ensures Search(st, p).midpoint.Some?
  {
  }

  /** `handleSearch`. With an empty address nothing happens; otherwise the
      error is cleared, the search runs, and the in-flight flag ends cleared. */
  function HandleSearch(s: Session, p: Providers): (r: Session)
    requires MatrixWellShaped(p)
    ensures s.state.locationA.address == "" || s.state.locationB.address == "" ==> r == s
    ensures s.state.locationA.address != "" && s.state.locationB.address != "" ==>
      && !r.isSearching
      && r.selectedId == s.selectedId
      && r.state == Search(s.state, p)
  {
    if s.state.locationA.address == "" || s.state.locationB.address == "" then s
    else Session(Search(s.state, p), false, s.selectedId)
  }

  /** A search started from the enabled button always runs: the button is
      disabled exactly when the handler would return at once, or a search is in flight. */
  lemma EnabledButtonRuns(s: Session, p: Providers)
    requires MatrixWellShaped(p)
    requires !Sidebar.SearchDisabled(s.isSearching, s.state.locationA, s.state.locationB)
    ensures !HandleSearch(s, p).isSearching
    ensures HandleSearch(s, p).state == Search(s.state, p)
  {
  }

  /** A failed search keeps the previous results on screen and shows the error. */
  lemma FailedSearchKeepsResults(s: Session, p: Providers)
    requires MatrixWellShaped(p)
    requires HandleSearch(s, p).state.error.Some?
    ensures HandleSearch(s, p).state.step == s.state.step
    ensures HandleSearch(s, p).state.results == s.state.results
    ensures SearchError(HandleSearch(s, p).state.error.value) || HandleSearch(s, p) == s
  {
  }

  /** After starting over, searching does nothing: both addresses are empty. */
  lemma SearchAfterStartOver(s: Session, p: Providers)
    requires MatrixWellShaped(p)
    ensures HandleSearch(StartOver(s), p) == StartOver(s)
    ensures Sidebar.SearchDisabled(false, StartOver(s).state.locationA, StartOver(s).state.locationB)
  {
  }

  // ---------------------------------------------------------------------
  // Selecting a result card

  /** The position of the first card with the given place id (`findIndex`). */
  function FindRestaurant(results: seq<Restaurant>, id: string): (r: Option<nat>)
    ensures r.None? <==> forall i :: 0 <= i < |results| ==> results[i].placeId != id
    ensures r.Some? ==> r.value < |results| && results[r.value].placeId == id
    ensures r.Some? ==> forall j :: 0 <= j < r.value ==> results[j].placeId != id
  {
    FirstIndex(results, (x: Restaurant) => x.placeId == id)
  }

  /** The record spread with the fetched details and marked loaded: a
      successful reply replaces all five detail fields (a field the reply
      lacks becomes missing), a failed one replaces none. */
  function MergeDetails(r: Restaurant, d: Option<PlaceDetails>): (m: Restaurant)
    ensures m.detailsLoaded
    ensures m == r.(website := m.website, phone := m.phone, url := m.url,
                    openingHours := m.openingHours, photos := m.photos, detailsLoaded := true)
    ensures d.None? ==> m == r.(detailsLoaded := true)
    ensures d.Some? ==> m.website == d.value.website && m.phone == d.value.phone && m.url == d.value.url
                        && m.openingHours == d.value.openingHours && m.photos == d.value.photos
  {
    match d
    case None => r.(detailsLoaded := true)
    case Some(x) =>
      r.(website := x.website, phone := x.phone, url := x.url,
         openingHours := x.openingHours, photos := x.photos, detailsLoaded := true)
  }

  /** Merging the same details twice changes nothing more. */
  lemma MergeDetailsIdempotent(r: Restaurant, d: Option<PlaceDetails>)
    ensures MergeDetails(MergeDetails(r, d), d) == MergeDetails(r, d)
  {
  }

  /** `handleSelectRestaurant`: the card is selected; when it is in the
      results and its details were not loaded yet, the details are fetched
      and merged into that one record. */
  function SelectRestaurant(s: Session, id: string, details: string -> DetailsReply): (r: Session)
    ensures r.selectedId == Some(id) && r.isSearching == s.isSearching
    ensures r.state == s.state.(results := r.state.results)
    ensures |r.state.results| == |s.state.results|
    ensures forall i :: 0 <= i < |s.state.results| ==> r.state.results[i].placeId == s.state.results[i].placeId
    ensures FindRestaurant(s.state.results, id).None? ==> r.state.results == s.state.results
    ensures FindRestaurant(s.state.results, id).Some? ==>
      var k := FindRestaurant(s.state.results, id).value;
      && r.state.results[k].detailsLoaded
      && (s.state.results[k].detailsLoaded ==> r.state.results == s.state.results)
      && (!s.state.results[k].detailsLoaded ==>
            r.state.results[k] == MergeDetails(s.state.results[k], GetPlaceDetails(details(id))))
      && forall j :: 0 <= j < |s.state.results| && j != k ==> r.state.results[j] == s.state.results[j]
  {
    var selected := s.(selectedId := Some(id));
    match FindRestaurant(s.state.results, id)
    case None => selected
    case Some(k) =>
      var rest := s.state.results[k];
      if rest.detailsLoaded then selected
      else
        var merged := MergeDetails(rest, GetPlaceDetails(details(rest.placeId)));
        selected.(state := s.state.(results := s.state.results[k := merged]))
  }

  /** Selecting the same card again fetches nothing and changes nothing. */
  lemma {:induction false} SelectTwice(s: Session, id: string, details: string -> DetailsReply)
    ensures SelectRestaurant(SelectRestaurant(s, id, details), id, details) == SelectRestaurant(s, id, details)
  {
    var once := SelectRestaurant(s, id, details);
    var before := s.state.results;
    var after := once.state.results;
    match FindRestaurant(before, id)
    case None =>
      assert FindRestaurant(after, id).None?;
    case Some(k) =>
      var k2 := FindRestaurant(after, id);
      assert after[k].placeId == id;
  }
}
