/** The records of the application (types.ts), restricted to the fields the
    decision logic reads or writes. */
module Types {
  import opened Common

  /** A latitude/longitude pair, as the map provider returns it. */
  datatype Coordinates = Coordinates(lat: real, lng: real)

  /** One of the two starting points: the typed address, the geocoded
      position once a search has resolved it, and the display label. */
  datatype UserLocation = UserLocation(address: string, coords: Option<Coordinates>, labelText: string)

  /** A photo reference returned by the places provider. */
  type Photo = string

  /** `open.day` is 0 for Sunday; `time` is the HHMM integer that `getHoursStatus` obtains with `parseInt`. */
  datatype DayTime = DayTime(day: int, time: int)

  /** One opening interval; a missing `close` means the venue does not close that day. */
  datatype Period = Period(open: DayTime, close: Option<DayTime>)

  /** `weekday_text` lists one display line per day, Monday first. */
  datatype OpeningHours = OpeningHours(weekdayText: Option<seq<string>>, periods: Option<seq<Period>>)

  /** The commute-fairness label shown on a result card. */
  datatype Tier = VeryFair | Fair | MostlyFair | Unfair {
    function Label(): string {
      match this
      case VeryFair => "Very Fair"
      case Fair => "Fair"
      case MostlyFair => "Mostly Fair"
      case Unfair => "Unfair"
    }

    /** 0 for the fairest tier, 3 for the least fair. */
    function Rank(): nat {
      match this
      case VeryFair => 0
      case Fair => 1
      case MostlyFair => 2
      case Unfair => 3
    }

    /** The smallest whole-minute difference that reaches this tier. */
    function MinMinutes(): nat {
      match this
      case VeryFair => 0
      case Fair => 6
      case MostlyFair => 11
      case Unfair => 16
    }

    /** The colour a card of this tier is drawn in. */
    function Colour(): Colour {
      match this
      case VeryFair => Green
      case Fair => Green
      case MostlyFair => Orange
      case Unfair => Red
    }
  }

  /** The text colour of the fairness label. */
  datatype Colour = Green | Orange | Red {
    function ClassName(): string {
      match this
      case Green => "text-[#2ECC71]"
      case Orange => "text-[#E67E22]"
      case Red => "text-[#E74C3C]"
    }
  }

  datatype Fairness = Fairness(tier: Tier, colour: Colour)

  /** The travel fields the fairness evaluation adds to a restaurant:
      `travelTimeA/B`, `secondsA/B`, `fairnessScore` and `fairnessColor`. */
  datatype Travel = Travel(timeA: string, timeB: string, secondsA: nat, secondsB: nat, fairness: Fairness)

  /** A search result. `travel` is absent until the fairness evaluation ran;
      the last four fields are absent until the details were fetched. */
  datatype Restaurant = Restaurant(
    placeId: string,
    name: string,
    rating: real,
    ratingsTotal: int,
    priceLevel: int,
    vicinity: string,
    location: Coordinates,
    types: seq<string>,
    photos: Option<seq<Photo>>,
    travel: Option<Travel>,
    cuisineType: Option<string>,
    detailsLoaded: bool,
    website: Option<string>,
    phone: Option<string>,
    url: Option<string>,
    openingHours: Option<OpeningHours>)

  datatype PriceLevel = Inexpensive | Moderate | Expensive | VeryExpensive {
    function Value(): int {
      match this
      case Inexpensive => 1
      case Moderate => 2
      case Expensive => 3
      case VeryExpensive => 4
    }
  }

  /** The enum member whose numeric value is `n`, if any. */
  function PriceLevelOf(n: int): (r: Option<PriceLevel>)
    ensures r.Some? <==> 1 <= n <= 4
    ensures r.Some? ==> r.value.Value() == n
  {
    if n == 1 then Some(Inexpensive)
    else if n == 2 then Some(Moderate)
    else if n == 3 then Some(Expensive)
    else if n == 4 then Some(VeryExpensive)
    else None
  }

  /** Every price level has a value in 1..4 that converts back to it. */
  lemma PriceLevelRoundTrip(p: PriceLevel)
    ensures 1 <= p.Value() <= 4
    ensures PriceLevelOf(p.Value()) == Some(p)
  {
  }

  datatype Step = ApiKey | Input | Searching | Results

  datatype Timing = Now | Later

  /** The whole application state held by the top-level component. */
  datatype AppState = AppState(
    step: Step,
    mapsApiKey: string,
    locationA: UserLocation,
    locationB: UserLocation,
    region: string,
    selectedCuisines: seq<string>,
    priceRange: seq<int>,
    timing: Timing,
    results: seq<Restaurant>,
    midpoint: Option<Coordinates>,
    error: Option<string>)

  const CUISINE_OPTIONS: seq<string> := [
    "Italian", "Chinese", "Japanese", "Korean", "Mexican", "Thai",
    "Indian", "American", "Mediterranean", "French", "Vietnamese", "Pizza", "Burgers"
  ]

  datatype RegionOption = RegionOption(labelText: string, value: string)

  /** The region value that selects the calculated midpoint instead of a named place. */
  const ANYWHERE: string := "ANYWHERE"

  const REGION_OPTIONS: seq<RegionOption> := [
    RegionOption("Anywhere (Calculated Midpoint)", ANYWHERE),
    RegionOption("Manhattan", "Manhattan, NY"),
    RegionOption("Brooklyn", "Brooklyn, NY"),
    RegionOption("Queens", "Queens, NY"),
    RegionOption("The Bronx", "The Bronx, NY"),
    RegionOption("Staten Island", "Staten Island, NY"),
    RegionOption("SoHo", "SoHo, Manhattan, NY"),
    RegionOption("East Village", "East Village, Manhattan, NY"),
    RegionOption("Williamsburg", "Williamsburg, Brooklyn, NY"),
    RegionOption("Astoria", "Astoria, Queens, NY"),
    RegionOption("Upper West Side", "Upper West Side, Manhattan, NY"),
    RegionOption("Midtown", "Midtown Manhattan, NY"),
    RegionOption("Lower East Side", "Lower East Side, Manhattan, NY"),
    RegionOption("Chelsea", "Chelsea, Manhattan, NY"),
    RegionOption("Financial District", "Financial District, Manhattan, NY"),
    RegionOption("Greenpoint", "Greenpoint, Brooklyn, NY"),
    RegionOption("DUMBO", "DUMBO, Brooklyn, NY"),
    RegionOption("Long Island City", "Long Island City, Queens, NY"),
    RegionOption("Harlem", "Harlem, Manhattan, NY")
  ]

  function RegionValues(options: seq<RegionOption>): (values: seq<string>)
    ensures |values| == |options|
    ensures forall i :: 0 <= i < |options| ==> values[i] == options[i].value
  {
    seq(|options|, i requires 0 <= i < |options| => options[i].value)
  }

  /** Thirteen distinct cuisine labels are offered. */
  lemma CuisineOptionsDistinct()
    ensures |CUISINE_OPTIONS| == 13
    ensures Distinct(CUISINE_OPTIONS)
  {
  }

  /** The first region is the midpoint sentinel and no two regions share a value. */
  lemma RegionOptionsWellFormed()
    ensures |REGION_OPTIONS| == 19
    ensures REGION_OPTIONS[0].value == ANYWHERE
    ensures Distinct(RegionValues(REGION_OPTIONS))
  {
  }
}
