/** The decision rules of services/googleMaps.ts. Every call into the map
    provider is replaced by a function parameter (bundled in `Providers`)
    whose reply is modelled raw: a status string plus an optional payload,
    so that the checks of the status and of the payload are modelled too. */
module GoogleMaps {
  import opened Common
  import opened Strings
  import opened Types

  const OK: string := "OK"

  // ---------------------------------------------------------------------
  // The provider boundary

  /** A nearby-search result as the provider returns it, before default-filling. */
  datatype RawPlace = RawPlace(
    placeId: string,
    name: string,
    rating: Option<real>,
    ratingsTotal: Option<int>,
    priceLevel: Option<int>,
    vicinity: Option<string>,
    location: Coordinates,
    types: Option<seq<string>>,
    photos: Option<seq<Photo>>)

  datatype GeocodeReply = GeocodeReply(status: string, results: Option<seq<Coordinates>>)

  /** The two nearby searches the application issues. The subway search is ranked by distance. */
  datatype NearbyRequest =
    | SubwaySearch(location: Coordinates, placeType: string)
    | RestaurantSearch(location: Coordinates, radius: nat, placeType: string, keyword: string,
                       minPriceLevel: int, maxPriceLevel: int)

  datatype PlacesReply = PlacesReply(status: string, results: Option<seq<RawPlace>>)

  /** The `duration` of one distance-matrix element: display text and whole seconds. */
  datatype Duration = Duration(text: string, seconds: nat)

  /** One distance-matrix element; its `duration` may be missing. */
  type MatrixCell = Option<Duration>

  /** `rows[0].elements` (from origin A) and `rows[1].elements` (from origin B). */
  datatype MatrixRows = MatrixRows(rowA: seq<MatrixCell>, rowB: seq<MatrixCell>)

  /** A transit distance-matrix request: two origins and the destinations in order. */
  datatype MatrixRequest = MatrixRequest(originA: Coordinates, originB: Coordinates, destinations: seq<Coordinates>)

  datatype MatrixReply = MatrixReply(status: string, rows: Option<MatrixRows>)

  datatype PlaceDetails = PlaceDetails(
    website: Option<string>,
    phone: Option<string>,
    url: Option<string>,
    openingHours: Option<OpeningHours>,
    photos: Option<seq<Photo>>)

  datatype DetailsReply = DetailsReply(status: string, place: Option<PlaceDetails>)

  /** The map provider: geocoding, nearby search, distance matrix and place details. */
  datatype Providers = Providers(
    geocode: string -> GeocodeReply,
    places: NearbyRequest -> PlacesReply,
    matrix: MatrixRequest -> MatrixReply,
    details: string -> DetailsReply)

  // ---------------------------------------------------------------------
  // Geocoding and the midpoint

  /** The outcome of `geocodeAddress`: the first result, or an Error naming the status. */
  function GeocodeAddress(reply: GeocodeReply): (r: Result<Coordinates>)
    ensures r.Ok? <==> reply.status == OK && reply.results.Some? && |reply.results.value| > 0
    ensures r.Ok? ==> r.value == reply.results.value[0]
    ensures r.Err? ==> r.message == "Geocode failed: " + reply.status
  {
    if reply.status == OK && reply.results.Some? && |reply.results.value| > 0
    then Ok(reply.results.value[0])
    else Err("Geocode failed: " + reply.status)
  }

  /** `getGeographicMidpoint`: latitude and longitude averaged separately, over the reals. */
  function Midpoint(a: Coordinates, b: Coordinates): (m: Coordinates)
    ensures m.lat - a.lat == b.lat - m.lat
    ensures m.lng - a.lng == b.lng - m.lng
  {
    Coordinates((a.lat + b.lat) / 2.0, (a.lng + b.lng) / 2.0)
  }

  /** The midpoint does not depend on which party is A. */
  lemma MidpointSymmetric(a: Coordinates, b: Coordinates)
    ensures Midpoint(a, b) == Midpoint(b, a)
  {
  }

  // ---------------------------------------------------------------------
  // Nearby subways

  const SUBWAY_LIMIT: nat := 3

  function SubwayRequest(location: Coordinates): NearbyRequest {
    SubwaySearch(location, "subway_station")
  }

  /** `searchNearbySubways` after the reply arrived: the three closest
      stations, or none when the search failed. */
  function NearbySubways(reply: PlacesReply): (subways: seq<RawPlace>)
    ensures |subways| <= SUBWAY_LIMIT
    ensures reply.status != OK || reply.results.None? ==> subways == []
    ensures reply.status == OK && reply.results.Some? ==>
      && |subways| == Min(SUBWAY_LIMIT, |reply.results.value|)
      && forall i :: 0 <= i < |subways| ==> subways[i] == reply.results.value[i]
  {
    if reply.status == OK && reply.results.Some? then Take(reply.results.value, SUBWAY_LIMIT) else []
  }

  // ---------------------------------------------------------------------
  // Cuisine labels

  const RESTAURANT_SUFFIX: string := "_restaurant"

  /** A provider type that names a cuisine. */
  predicate IsCuisineType(t: string) {
    EndsWith(t, RESTAURANT_SUFFIX) || t == "pizza" || t == "steakhouse"
  }

  /** Every word with its first character upper-cased. */
  function CapitaliseAll(words: seq<string>): (r: seq<string>)
    ensures |r| == |words|
  {
    if |words| == 0 then [] else [Capitalise(words[0])] + CapitaliseAll(words[1..])
  }

  /** `CapitaliseAll`, optionally leaving the first word as it is. */
  function CapitaliseFrom(words: seq<string>, capitaliseFirst: bool): seq<string>
    requires |words| > 0
  {
    if capitaliseFirst then CapitaliseAll(words) else [words[0]] + CapitaliseAll(words[1..])
  }

  /** The character a label shows for `c`. */
  function TitleChar(c: char, startsWord: bool): char {
    if c == '_' then ' ' else if startsWord then Upper(c) else c
  }

  /** Position `k` of `s` begins a word: it follows an underscore, or it is the first position. */
  predicate StartsWord(s: string, k: nat, atWordStart: bool)
    requires k < |s|
  {
    if k == 0 then atWordStart else s[k - 1] == '_'
  }

  /** A character-by-character reference for the humanised label: every
      underscore becomes a space and every word's first character is upper-cased. */
  function Titleize(s: string, atWordStart: bool): (r: string)
    ensures |r| == |s|
    ensures forall k :: 0 <= k < |s| ==> r[k] == TitleChar(s[k], StartsWord(s, k, atWordStart))
  {
    if |s| == 0 then ""
    else [TitleChar(s[0], atWordStart)] + Titleize(s[1..], s[0] == '_')
  }

  lemma SplitConsNone(s: string)
    requires |s| > 0 && s[0] != '_' && IndexOf(s[1..], "_").None?
    ensures Split(s, "_") == [[s[0]] + Split(s[1..], "_")[0]] + Split(s[1..], "_")[1..]
  {
    var t := s[1..];
    assert s[..1] != "_";
    IndexOfStep(s, "_");
    SplitStep(t, "_");
    SplitStep(s, "_");
    assert [s[0]] + t == s;
  }

  lemma SplitConsSome(s: string)
    requires |s| > 0 && s[0] != '_' && IndexOf(s[1..], "_").Some?
    ensures Split(s, "_") == [[s[0]] + Split(s[1..], "_")[0]] + Split(s[1..], "_")[1..]
  {
    var t := s[1..];
    assert s[..1] != "_";
    IndexOfStep(s, "_");
    var i := IndexOf(t, "_").value;
    assert IndexOf(s, "_") == Some(i + 1);
    SplitStep(t, "_");
    SplitStep(s, "_");
    var w := Split(t[i + 1..], "_");
    assert t[i + 1..] == s[i + 2..];
    assert Split(t, "_") == [t[..i]] + w;
    assert Split(s, "_") == [s[..i + 1]] + w;
    assert s[..i + 1] == [s[0]] + t[..i];
    assert Split(t, "_")[1..] == w;
  }

  /** Splitting a word that does not start with an underscore: its first
      character joins the first piece of the rest. */
  lemma SplitUnderscoreCons(s: string)
    requires |s| > 0 && s[0] != '_'
    ensures Split(s, "_") == [[s[0]] + Split(s[1..], "_")[0]] + Split(s[1..], "_")[1..]
  {
    if IndexOf(s[1..], "_").None? {
      SplitConsNone(s);
    } else {
      SplitConsSome(s);
    }
  }

  lemma JoinConsChar(c: char, ys: seq<string>, sep: string)
    requires |ys| > 0
    ensures Join([[c] + ys[0]] + ys[1..], sep) == [c] + Join(ys, sep)
  {
    var xs := [[c] + ys[0]] + ys[1..];
    if |ys| > 1 {
      assert xs[1..] == ys[1..];
    }
  }

  lemma HumaniseWordsUnderscore(s: string, atWordStart: bool)
    requires |s| > 0 && s[0] == '_'
    requires Join(CapitaliseAll(Split(s[1..], "_")), " ") == Titleize(s[1..], true)
    ensures Join(CapitaliseFrom(Split(s, "_"), atWordStart), " ") == Titleize(s, atWordStart)
  {
    var rest := Split(s[1..], "_");
    assert Split(s, "_") == [""] + rest by {
      assert s[..1] == "_";
      SplitStep(s, "_");
    }
    var caps := CapitaliseFrom(Split(s, "_"), atWordStart);
    assert caps == [""] + CapitaliseAll(rest);
    assert caps[1..] == CapitaliseAll(rest);
  }

  /** Capitalising a list whose first word starts with a non-underscore character `x`. */
  lemma CapitaliseFromCons(x: char, v: seq<string>, atWordStart: bool)
    requires |v| > 0 && x != '_'
    ensures CapitaliseFrom([[x] + v[0]] + v[1..], atWordStart)
         == [[TitleChar(x, atWordStart)] + CapitaliseFrom(v, false)[0]] + CapitaliseFrom(v, false)[1..]
  {
    var ws := [[x] + v[0]] + v[1..];
    assert ws[1..] == v[1..];
    var ys := CapitaliseFrom(v, false);
    assert ys[1..] == CapitaliseAll(v[1..]);
    if atWordStart {
      assert Capitalise(ws[0]) == [Upper(x)] + v[0] by {
        assert ([x] + v[0])[1..] == v[0];
      }
    }
  }

  lemma HumaniseWordsLetter(s: string, atWordStart: bool)
    requires |s| > 0 && s[0] != '_'
    requires Join(CapitaliseFrom(Split(s[1..], "_"), false), " ") == Titleize(s[1..], false)
    ensures Join(CapitaliseFrom(Split(s, "_"), atWordStart), " ") == Titleize(s, atWordStart)
  {
    var v := Split(s[1..], "_");
    var ys := CapitaliseFrom(v, false);
    var c := TitleChar(s[0], atWordStart);
    SplitUnderscoreCons(s);
    CapitaliseFromCons(s[0], v, atWordStart);
    JoinConsChar(c, ys, " ");
    assert Titleize(s, atWordStart) == [c] + Titleize(s[1..], false);
  }

  /** Splitting on underscores, capitalising and joining with spaces is the
      character-level `Titleize`. */
  lemma {:induction false} HumaniseWords(s: string, atWordStart: bool)
    ensures Join(CapitaliseFrom(Split(s, "_"), atWordStart), " ") == Titleize(s, atWordStart)
    decreases |s|
  {
    if |s| == 0 {
      assert Split(s, "_") == [""];
    } else if s[0] == '_' {
      HumaniseWords(s[1..], true);
      HumaniseWordsUnderscore(s, atWordStart);
    } else {
      HumaniseWords(s[1..], false);
      HumaniseWordsLetter(s, atWordStart);
    }
  }

  /** The label `extractCuisine` derives from a matching type: drop the first
      `_restaurant`, split on `_`, upper-case each word's first character and
      join the words with spaces. */
  function Humanise(t: string): (name: string)
    ensures name == Titleize(ReplaceFirst(t, RESTAURANT_SUFFIX, ""), true)
  {
    var stripped := ReplaceFirst(t, RESTAURANT_SUFFIX, "");
    HumaniseWords(stripped, true);
    Join(CapitaliseAll(Split(stripped, "_")), " ")
  }

  /** The humanised label, character by character: the type with its first
      `_restaurant` removed, underscores shown as spaces and each word's
      first character upper-cased. */
  lemma HumaniseIsTitleize(t: string)
    ensures Humanise(t) == Titleize(ReplaceFirst(t, RESTAURANT_SUFFIX, ""), true)
  {
    HumaniseWords(ReplaceFirst(t, RESTAURANT_SUFFIX, ""), true);
  }

  /** A humanised label never shows an underscore. */
  lemma HumanisedHasNoUnderscore(t: string)
    ensures !Contains(Humanise(t), "_")
  {
    HumaniseIsTitleize(t);
  }

  /** `extractCuisine`: the label of the first type that names a cuisine. */
  function ExtractCuisine(types: seq<string>): (r: Option<string>)
    ensures r.None? <==> forall i :: 0 <= i < |types| ==> !IsCuisineType(types[i])
    ensures r.Some? ==> exists i :: 0 <= i < |types| && IsCuisineType(types[i])
                          && (forall j :: 0 <= j < i ==> !IsCuisineType(types[j]))
                          && r.value == Humanise(types[i])
  {
    match FirstIndex(types, IsCuisineType)
    case None => None
    case Some(i) => Some(Humanise(types[i]))
  }

  lemma FastFoodSuffixAt(j: nat)
    requires j < 9
    ensures !OccursAt("fast_food_restaurant", RESTAURANT_SUFFIX, j)
  {
    var t := "fast_food_restaurant";
    var w := t[j..j + 11];
    assert w[0] == t[j] && w[1] == t[j + 1];
  }

  lemma FastFoodSuffixFirstAt9()
    ensures IndexOf("fast_food_restaurant", RESTAURANT_SUFFIX) == Some(9)
  {
    var t := "fast_food_restaurant";
    assert OccursAt(t, RESTAURANT_SUFFIX, 9);
    forall j: nat | j < 9
      ensures !OccursAt(t, RESTAURANT_SUFFIX, j)
    {
      FastFoodSuffixAt(j);
    }
    IndexOfAt(t, RESTAURANT_SUFFIX, 9);
  }

  lemma StripFastFood()
    ensures ReplaceFirst("fast_food_restaurant", RESTAURANT_SUFFIX, "") == "fast_food"
  {
    FastFoodSuffixFirstAt9();
  }

  lemma TitleizeFastFood()
    ensures Titleize("fast_food", true) == "Fast Food"
  {
    var s := "fast_food";
    var r := Titleize(s, true);
    forall k | 0 <= k < 9
      ensures r[k] == "Fast Food"[k]
    {
      assert r[k] == TitleChar(s[k], StartsWord(s, k, true));
    }
  }

  /** Worked label: the suffix is dropped and each word capitalised. */
  lemma FastFoodLabel()
    ensures Humanise("fast_food_restaurant") == "Fast Food"
  {
    StripFastFood();
    HumaniseIsTitleize("fast_food_restaurant");
    TitleizeFastFood();
  }

  /** Worked label: a type recognised by name is only capitalised. */
  lemma PizzaLabel()
    ensures Humanise("pizza") == "Pizza"
  {
    HumaniseIsTitleize("pizza");
    assert IndexOf("pizza", RESTAURANT_SUFFIX) == None;
    var r := Titleize("pizza", true);
    assert r[0] == 'P';
    assert r == "Pizza";
  }

  /** The first type that names a cuisine wins; a list without one gives no label. */
  lemma ExtractCuisineExamples()
    ensures ExtractCuisine(["point_of_interest", "pizza", "fast_food_restaurant"]) == Some(Humanise("pizza"))
    ensures ExtractCuisine(["point_of_interest", "establishment"]) == None
  {
    assert IsCuisineType("pizza");
    assert !IsCuisineType("point_of_interest");
    assert !IsCuisineType("establishment");
  }

  // ---------------------------------------------------------------------
  // Restaurant search

  const SEARCH_RADIUS: nat := 800

  /** The free-text keyword: the selected cuisines joined with " OR ", or
      "restaurant" when none is selected. */
  function Keyword(cuisines: seq<string>): (k: string)
    ensures |cuisines| == 0 ==> k == "restaurant"
    ensures |cuisines| == 1 ==> k == cuisines[0]
    ensures forall i :: 0 <= i < |cuisines| ==> Contains(k, cuisines[i])
    ensures |cuisines| > 0 && (forall i :: 0 <= i < |cuisines| ==> FreeOf(cuisines[i], ' ')) ==>
      Split(k, " OR ") == cuisines
  {
    if |cuisines| > 0 then
      JoinContainsAll(cuisines, " OR ");
      if forall i :: 0 <= i < |cuisines| ==> FreeOf(cuisines[i], ' ') then
        SplitJoin(cuisines, " OR ");
        Join(cuisines, " OR ")
      else Join(cuisines, " OR ")
    else "restaurant"
  }

  /** The cuisine options offered for selection contain no space. */
  lemma CuisineOptionsHaveNoSpace()
    ensures forall i :: 0 <= i < |CUISINE_OPTIONS| ==> FreeOf(CUISINE_OPTIONS[i], ' ')
  {
  }

  /** A keyword built from offered cuisines splits on " OR " back into the selection. */
  lemma KeywordOfOptionsSplitsBack(selected: seq<string>)
    requires |selected| > 0
    requires forall i :: 0 <= i < |selected| ==> selected[i] in CUISINE_OPTIONS
    ensures Split(Keyword(selected), " OR ") == selected
  {
    CuisineOptionsHaveNoSpace();
  }

  /** A cuisine ending in " OR" meets the separator across the boundary:
      its keyword splits differently from the selection. */
  lemma KeywordStraddle()
    ensures Split(Keyword(["x OR", "y"]), " OR ")[0] == "x"
  {
    var k := "x OR" + " OR " + "y";
    assert Keyword(["x OR", "y"]) == k;
    assert OccursAt(k, " OR ", 1);
    assert !OccursAt(k, " OR ", 0) by {
      assert k[0..4][0] == 'x';
    }
    IndexOfAt(k, " OR ", 1);
    SplitStep(k, " OR ");
  }

  function RestaurantRequest(center: Coordinates, cuisines: seq<string>, minPrice: int, maxPrice: int): NearbyRequest {
    RestaurantSearch(center, SEARCH_RADIUS, "restaurant", Keyword(cuisines), minPrice, maxPrice)
  }

  /** A raw search result mapped to a restaurant with the defaults of `searchRestaurantsNear`:
      rating 0, ratings count 0, price level 1, vicinity "", types []. */
  function ToRestaurant(raw: RawPlace): (r: Restaurant)
    ensures r.placeId == raw.placeId && r.name == raw.name
    ensures r.location == raw.location && r.photos == raw.photos
    ensures r.rating == raw.rating.GetOr(0.0)
    ensures r.ratingsTotal == raw.ratingsTotal.GetOr(0)
    ensures r.vicinity == raw.vicinity.GetOr("")
    ensures r.types == raw.types.GetOr([])
    ensures raw.priceLevel.None? || raw.priceLevel == Some(0) ==> r.priceLevel == 1
    ensures raw.priceLevel.Some? && raw.priceLevel.value != 0 ==> r.priceLevel == raw.priceLevel.value
    ensures r.cuisineType == ExtractCuisine(r.types)
    ensures !r.detailsLoaded && r.travel.None?
    ensures r.website.None? && r.phone.None? && r.url.None? && r.openingHours.None?
  {
    var types := raw.types.GetOr([]);
    Restaurant(
      placeId := raw.placeId,
      name := raw.name,
      rating := Or(raw.rating, 0.0, 0.0),
      ratingsTotal := Or(raw.ratingsTotal, 0, 0),
      priceLevel := Or(raw.priceLevel, 0, 1),
      vicinity := Or(raw.vicinity, "", ""),
      location := raw.location,
      types := types,
      photos := raw.photos,
      travel := None,
      cuisineType := ExtractCuisine(types),
      detailsLoaded := false,
      website := None,
      phone := None,
      url := None,
      openingHours := None)
  }

  /** A restaurant seen again as a raw search result with every field present. */
  function AsRaw(r: Restaurant): RawPlace {
    RawPlace(r.placeId, r.name, Some(r.rating), Some(r.ratingsTotal), Some(r.priceLevel),
             Some(r.vicinity), r.location, Some(r.types), r.photos)
  }

  /** Default-filling is idempotent: mapping an already mapped record changes nothing. */
  lemma ToRestaurantIdempotent(raw: RawPlace)
    ensures ToRestaurant(AsRaw(ToRestaurant(raw))) == ToRestaurant(raw)
  {
  }

  /** `searchRestaurantsNear`: one nearby search, each result mapped in
      order; a failed search gives no restaurants rather than an error. */
  function SearchRestaurantsNear(center: Coordinates, cuisines: seq<string>, minPrice: int, maxPrice: int,
                                 places: NearbyRequest -> PlacesReply): (rs: seq<Restaurant>)
    ensures var reply := places(RestaurantRequest(center, cuisines, minPrice, maxPrice));
      && (reply.status != OK || reply.results.None? ==> rs == [])
      && (reply.status == OK && reply.results.Some? ==>
            && |rs| == |reply.results.value|
            && forall i :: 0 <= i < |rs| ==> rs[i] == ToRestaurant(reply.results.value[i]))
    ensures forall i :: 0 <= i < |rs| ==> !rs[i].detailsLoaded && rs[i].travel.None?
  {
    var reply := places(RestaurantRequest(center, cuisines, minPrice, maxPrice));
    if reply.status == OK && reply.results.Some? then
      var raws := reply.results.value;
      seq(|raws|, i requires 0 <= i < |raws| => ToRestaurant(raws[i]))
    else []
  }

  // ---------------------------------------------------------------------
  // Commute fairness

  function Abs(x: int): nat {
    if x < 0 then -x else x
  }

  /** The absolute difference rounded to whole minutes (`Math.round`), halves rounded up. */
  function DiffMinutes(secondsA: int, secondsB: int): (m: nat)
    ensures 60 * m - 30 <= Abs(secondsA - secondsB) < 60 * m + 30
  {
    (Abs(secondsA - secondsB) + 30) / 60
  }

  /** The tier table: the least fair tier whose minimum difference is reached. */
  function TierFor(minutes: nat): (t: Tier)
    ensures t.MinMinutes() <= minutes
    ensures forall u: Tier :: u.MinMinutes() <= minutes ==> u.Rank() <= t.Rank()
  {
    if minutes <= 5 then VeryFair
    else if minutes <= 10 then Fair
    else if minutes <= 15 then MostlyFair
    else Unfair
  }

  /** The fairness score and colour of two transit durations in seconds. */
  function Classify(secondsA: int, secondsB: int): (f: Fairness)
    ensures f.colour == f.tier.Colour()
    ensures f.tier == VeryFair <==> Abs(secondsA - secondsB) < 330
    ensures f.tier == Fair <==> 330 <= Abs(secondsA - secondsB) < 630
    ensures f.tier == MostlyFair <==> 630 <= Abs(secondsA - secondsB) < 930
    ensures f.tier == Unfair <==> 930 <= Abs(secondsA - secondsB)
  {
    var diffMins := DiffMinutes(secondsA, secondsB);
    if diffMins <= 5 then Fairness(VeryFair, Green)
    else if diffMins <= 10 then Fairness(Fair, Green)
    else if diffMins <= 15 then Fairness(MostlyFair, Orange)
    else Fairness(Unfair, Red)
  }

  /** The classifier follows the tier table on the rounded minute difference. */
  lemma ClassifyFollowsTable(secondsA: int, secondsB: int)
    ensures Classify(secondsA, secondsB).tier == TierFor(DiffMinutes(secondsA, secondsB))
  {
  }

  /** The boundaries 5/6, 10/11 and 15/16 minutes are inclusive on the fairer tier. */
  lemma TierBoundaries()
    ensures TierFor(5) == VeryFair && TierFor(6) == Fair
    ensures TierFor(10) == Fair && TierFor(11) == MostlyFair
    ensures TierFor(15) == MostlyFair && TierFor(16) == Unfair
  {
  }

  /** Swapping the two durations gives the same score and colour. */
  lemma ClassifySymmetric(secondsA: int, secondsB: int)
    ensures Classify(secondsA, secondsB) == Classify(secondsB, secondsA)
  {
  }

  /** A larger difference never gives a fairer tier. */
  lemma TierMonotone(m1: nat, m2: nat)
    requires m1 <= m2
    ensures TierFor(m1).Rank() <= TierFor(m2).Rank()
  {
  }

  function DurationText(cell: MatrixCell): Option<string> {
    if cell.Some? then Some(cell.value.text) else None
  }

  function DurationSeconds(cell: MatrixCell): Option<nat> {
    if cell.Some? then Some(cell.value.seconds) else None
  }

  /** The display text of an element's duration; "?" when it is missing or empty. */
  function CellText(cell: MatrixCell): (t: string)
    ensures t != ""
    ensures cell.Some? && cell.value.text != "" ==> t == cell.value.text
    ensures cell.None? || cell.value.text == "" ==> t == "?"
  {
    Or(DurationText(cell), "", "?")
  }

  /** The seconds of an element's duration; 0 when it is missing. */
  function CellSeconds(cell: MatrixCell): (n: nat)
    ensures cell.Some? ==> n == cell.value.seconds
    ensures cell.None? ==> n == 0
  {
    Or(DurationSeconds(cell), 0, 0)
  }

  /** One destination with its two matrix elements: the travel fields are
      added and every other field is copied. */
  function Annotate(rest: Restaurant, cellA: MatrixCell, cellB: MatrixCell): (r: Restaurant)
    ensures r.travel.Some? && r == rest.(travel := r.travel)
    ensures cellA.None? ==> r.travel.value.timeA == "?" && r.travel.value.secondsA == 0
    ensures cellB.None? ==> r.travel.value.timeB == "?" && r.travel.value.secondsB == 0
    ensures cellA.Some? ==>
      && r.travel.value.secondsA == cellA.value.seconds
      && r.travel.value.timeA == (if cellA.value.text == "" then "?" else cellA.value.text)
    ensures cellB.Some? ==>
      && r.travel.value.secondsB == cellB.value.seconds
      && r.travel.value.timeB == (if cellB.value.text == "" then "?" else cellB.value.text)
    ensures r.travel.value.fairness == Classify(r.travel.value.secondsA, r.travel.value.secondsB)
  {
    var valA := CellSeconds(cellA);
    var valB := CellSeconds(cellB);
    rest.(travel := Some(Travel(CellText(cellA), CellText(cellB), valA, valB, Classify(valA, valB))))
  }

  /** Swapping the two origins' elements swaps the times and keeps the fairness. */
  lemma AnnotateSymmetric(rest: Restaurant, cellA: MatrixCell, cellB: MatrixCell)
    ensures var ab := Annotate(rest, cellA, cellB).travel.value;
            var ba := Annotate(rest, cellB, cellA).travel.value;
            ab.timeA == ba.timeB && ab.secondsA == ba.secondsB && ab.fairness == ba.fairness
  {
  }

  function Locations(rs: seq<Restaurant>): (locs: seq<Coordinates>)
    ensures |locs| == |rs|
  {
    seq(|rs|, i requires 0 <= i < |rs| => rs[i].location)
  }

  /** The provider returns at least one element per destination in each row of a successful reply. */
  predicate MatrixShaped(reply: MatrixReply, n: nat) {
    reply.status == OK && reply.rows.Some? ==> |reply.rows.value.rowA| >= n && |reply.rows.value.rowB| >= n
  }

  function TravelRequest(originA: Coordinates, originB: Coordinates, destinations: seq<Restaurant>): MatrixRequest {
    MatrixRequest(originA, originB, Locations(destinations))
  }

  /** `calculateTravelTimes`: one batched transit request for all
      destinations; each destination annotated in order, or an Error when
      the batch failed. An empty list needs no request. */
  function CalculateTravelTimes(originA: Coordinates, originB: Coordinates, destinations: seq<Restaurant>,
                                matrix: MatrixRequest -> MatrixReply): (r: Result<seq<Restaurant>>)
    requires |destinations| > 0 ==> MatrixShaped(matrix(TravelRequest(originA, originB, destinations)), |destinations|)
    ensures |destinations| == 0 ==> r == Ok([])
    ensures var reply := matrix(TravelRequest(originA, originB, destinations));
      && (r.Err? <==> |destinations| > 0 && !(reply.status == OK && reply.rows.Some?))
      && (r.Err? ==> r.message == "Distance Matrix failed: " + reply.status)
    ensures r.Ok? ==> |r.value| == |destinations|
    ensures r.Ok? ==> forall i :: 0 <= i < |destinations| ==>
      && r.value[i].travel.Some?
      && r.value[i] == destinations[i].(travel := r.value[i].travel)
    ensures var reply := matrix(TravelRequest(originA, originB, destinations));
      r.Ok? && |destinations| > 0 ==>
        && reply.status == OK && reply.rows.Some?
        && forall i :: 0 <= i < |destinations| ==>
             r.value[i] == Annotate(destinations[i], reply.rows.value.rowA[i], reply.rows.value.rowB[i])
  {
    if |destinations| == 0 then Ok([])
    else
      var reply := matrix(TravelRequest(originA, originB, destinations));
      if reply.status == OK && reply.rows.Some? then
        var rows := reply.rows.value;
        Ok(seq(|destinations|, i requires 0 <= i < |destinations| =>
                 Annotate(destinations[i], rows.rowA[i], rows.rowB[i])))
      else Err("Distance Matrix failed: " + reply.status)
  }

  // ---------------------------------------------------------------------
  // Place details

  /** `getPlaceDetails`: the five detail fields of a successful reply, or
      nothing (an empty object) when the request failed. */
  function GetPlaceDetails(reply: DetailsReply): (d: Option<PlaceDetails>)
    ensures d.Some? <==> reply.status == OK && reply.place.Some?
    ensures d.Some? ==> d == reply.place
  {
    if reply.status == OK && reply.place.Some? then reply.place else None
  }
}
