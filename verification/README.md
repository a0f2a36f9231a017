# Halfway — a Dafny model of its decision rules

Halfway helps two people find a restaurant that is fair to reach for both.
Each person enters a starting address. The application geocodes both
addresses and picks a search centre. That centre is a named region, or the
subway station closest to the geographic midpoint. It then searches for
restaurants around the centre and asks for transit times from both starting
points. Each result is rated by how evenly the commute is shared.

This project models the pure decision logic of that pipeline as functions
over immutable datatypes, and proves properties of it:

- `common.dfy` (`Common`): optional values, results with an error message, JavaScript's `x || d` fallback, `findIndex`, `slice(0, n)` and `filter`.
- `strings.dfy` (`Strings`): the JavaScript string operations the application uses. These are `indexOf`, `replace` with a string pattern (first occurrence only), `split`/`join`, one-character `toUpperCase` and `trim`.
- `types.dfy` (`Types`): the records and constants of `types.ts`.
- `google_maps.dfy` (`GoogleMaps`): the rules inside `services/googleMaps.ts`. These are the geocode outcome, the three-station subway cap, the cuisine label of a place, the search keyword, default-filling of search results, the commute-fairness classifier with its per-destination annotation, and the details reply.
- `sidebar.dfy` (`Sidebar`): the cuisine and price toggles, the opening-hours status of a card, the weekday index, and the search button's disabled condition.
- `app.dfy` (`App`): the state transitions of `App.tsx`. These are entering the key, starting over, the search pipeline (price bounds, search centre, top ten, travel times, error handling) and selecting a card (the once-only details merge).
- `api_key_modal.dfy` (`ApiKeyModal`): which input the key dialog hands on, and when its button is enabled.

The map provider (geocoder, nearby search, distance matrix, place details) is
a parameter, `GoogleMaps.Providers`: four functions from a request to a raw
reply. Each reply has a status string and an optional payload, so the
application's checks of a reply (an OK status and a present payload) are modelled as written. The
clock is a parameter of `Sidebar.GetHoursStatus`: a day of the week plus an
hour and a minute.

## Model

| member | source | states |
|---|---|---|
| Types.PriceLevelOf | types.ts:47-52 | exactly the values 1..4 name a price level, and the level found has that value |
| Types.PriceLevelRoundTrip | types.ts:47-52 | every price level's value lies in 1..4 and converts back to the same level |
| Types.CuisineOptionsDistinct | types.ts:68-71 | thirteen cuisine labels are offered, no two alike |
| Types.RegionOptionsWellFormed | types.ts:73-93 | nineteen regions; the first is the "ANYWHERE" midpoint sentinel; no two share a value |
| Common.Filter | components/Sidebar.tsx:47 | only elements satisfying the test are kept, every element satisfying it is kept, and a list that passes entirely is returned unchanged |
| Common.FilterAppend | components/Sidebar.tsx:47 | filtering a concatenation is the concatenation of the filtered parts, so kept elements keep their order and repeats |
| Strings.IndexOfSpec | services/googleMaps.ts:102 | the search finds the first occurrence of the pattern, and finds nothing exactly when there is no occurrence |
| Strings.ReplaceFirst | services/googleMaps.ts:102 | with no occurrence the string is unchanged; otherwise only the first occurrence is replaced and the text around it is kept |
| Strings.Split | components/Sidebar.tsx:103 | at least one piece, and no piece contains the separator |
| Strings.Join | services/googleMaps.ts:119 | no parts join to ""; otherwise the joined string starts with the first part |
| Strings.SplitJoin | services/googleMaps.ts:119 | joining parts free of the separator's first character and splitting again gives the parts back |
| Strings.JoinSplit | components/Sidebar.tsx:103 | splitting on a separator and joining with it again gives the original line back |
| Strings.Trim | components/ApiKeyModal.tsx:13 | the trimmed string is no longer than the input and neither starts nor ends with whitespace |
| Strings.TrimIsSlice | components/ApiKeyModal.tsx:13 | the trimmed key is a contiguous slice of the input, with only whitespace cut from either end |
| Strings.TrimIdempotent | components/ApiKeyModal.tsx:14 | trimming an already trimmed key changes nothing |
| GoogleMaps.GeocodeAddress | services/googleMaps.ts:57-63 | an OK reply with a first result yields that position; any other reply is the error "Geocode failed: " followed by the status |
| GoogleMaps.Midpoint | services/googleMaps.ts:68-73 | the midpoint is equally far from both points in latitude and in longitude (over the reals) |
| GoogleMaps.MidpointSymmetric | services/googleMaps.ts:68-73 | the midpoint does not depend on which person is A |
| GoogleMaps.NearbySubways | services/googleMaps.ts:85-91 | at most three stations, the first ones of a successful reply in order; none when the search failed |
| GoogleMaps.Titleize | services/googleMaps.ts:101-105 | reference label: every underscore becomes a space and the first character of every word is upper-cased, position by position |
| GoogleMaps.Humanise | services/googleMaps.ts:101-105 | the label of a type is the character-level reference label of the type with its first "_restaurant" removed |
| GoogleMaps.HumaniseWords | services/googleMaps.ts:103-105 | splitting on "_", capitalising each piece and joining with " " is exactly the character-level reference label |
| GoogleMaps.HumaniseIsTitleize | services/googleMaps.ts:101-105 | the humanised label is the reference label of the type with its first "_restaurant" removed |
| GoogleMaps.HumanisedHasNoUnderscore | services/googleMaps.ts:101-105 | a humanised label never contains an underscore |
| GoogleMaps.StripFastFood | services/googleMaps.ts:102 | removing the suffix from "fast_food_restaurant" leaves "fast_food" |
| GoogleMaps.FastFoodLabel | services/googleMaps.ts:101-105 | "fast_food_restaurant" is labelled "Fast Food" |
| GoogleMaps.PizzaLabel | services/googleMaps.ts:101-105 | "pizza" is labelled "Pizza" |
| GoogleMaps.ExtractCuisine | services/googleMaps.ts:96-109 | no label exactly when no type ends in "_restaurant" or equals "pizza" or "steakhouse"; otherwise the label of the first such type |
| GoogleMaps.ExtractCuisineExamples | services/googleMaps.ts:98-108 | the first cuisine type in list order wins; a list without one gives no label |
| GoogleMaps.Keyword | services/googleMaps.ts:119 | "restaurant" when no cuisine is selected, the cuisine itself when one is; the keyword contains every selected cuisine, and splitting it on " OR " gives the selection back when no cuisine contains a space |
| GoogleMaps.CuisineOptionsHaveNoSpace | types.ts:68-71 | none of the offered cuisine labels contains a space |
| GoogleMaps.KeywordOfOptionsSplitsBack | services/googleMaps.ts:119 | for any non-empty selection of offered cuisines, the keyword splits on " OR " back into the selection |
| GoogleMaps.KeywordStraddle | services/googleMaps.ts:119 | a cuisine "x OR" followed by "y" gives a keyword whose first " OR " piece is "x": the join is not invertible for every label |
| GoogleMaps.ToRestaurant | services/googleMaps.ts:134-146 | rating and ratings count default to 0, price level to 1 (also when the provider says 0), vicinity to "" and types to []; the cuisine label is derived from the types; details are not loaded |
| GoogleMaps.ToRestaurantIdempotent | services/googleMaps.ts:134-146 | default-filling an already filled record changes nothing |
| GoogleMaps.SearchRestaurantsNear | services/googleMaps.ts:130-152 | a successful search maps every result in order; a failed one gives no restaurants rather than an error |
| GoogleMaps.GetPlaceDetails | services/googleMaps.ts:164-176 | the five detail fields of a successful reply, or nothing when the request failed |
| GoogleMaps.DiffMinutes | services/googleMaps.ts:211-212 | the whole-minute difference is the absolute difference in seconds rounded to the nearest minute, halves up |
| GoogleMaps.TierFor | services/googleMaps.ts:217-229 | the tier whose minimum difference is reached, and no less fair tier's minimum is reached |
| GoogleMaps.Classify | services/googleMaps.ts:211-229 | the colour follows the tier; "Very Fair" below 330 seconds of difference, "Fair" below 630, "Mostly Fair" below 930, "Unfair" from 930 |
| GoogleMaps.ClassifyFollowsTable | services/googleMaps.ts:212-229 | the tier is the table's tier for the rounded minute difference |
| GoogleMaps.TierBoundaries | services/googleMaps.ts:217-226 | 5, 10 and 15 minutes stay on the fairer tier; 6, 11 and 16 move to the next |
| GoogleMaps.ClassifySymmetric | services/googleMaps.ts:211-212 | swapping the two durations gives the same tier and colour |
| GoogleMaps.TierMonotone | services/googleMaps.ts:217-229 | a larger difference never gives a fairer tier |
| GoogleMaps.CellText | services/googleMaps.ts:204-207 | the duration's text, or "?" when the duration is missing or its text empty |
| GoogleMaps.CellSeconds | services/googleMaps.ts:205-208 | the duration's seconds, or 0 when the duration is missing |
| GoogleMaps.Annotate | services/googleMaps.ts:201-239 | travel fields are added and every other field is copied; each time and seconds come from that origin's element ("?" for a missing or empty text, 0 seconds for a missing duration); the fairness classifies those seconds |
| GoogleMaps.AnnotateSymmetric | services/googleMaps.ts:204-212 | swapping the origins swaps the times and keeps the fairness |
| GoogleMaps.CalculateTravelTimes | services/googleMaps.ts:186-246 | no destinations give no results and no request; a failed matrix is the error "Distance Matrix failed: " followed by the status; otherwise destination i, in order, is annotated from element i of each origin's row |
| Sidebar.Remove | components/Sidebar.tsx:47 | the value is gone, every other element is kept, nothing is added, and a list without the value is returned unchanged |
| Sidebar.Toggle | components/Sidebar.tsx:45-51 | the value is selected exactly when it was not; every other value keeps its membership; a new value is appended; no duplicates appear |
| Sidebar.RemoveAppended | components/Sidebar.tsx:47-49 | deselecting a value just appended restores the list exactly |
| Sidebar.ToggleTwice | components/Sidebar.tsx:45-59 | toggling twice restores membership, and restores the list itself when the value was not selected |
| Sidebar.ToggleCuisine | components/Sidebar.tsx:45-51 | only the selected cuisines change, and only in the toggled cuisine's membership |
| Sidebar.TogglePrice | components/Sidebar.tsx:53-59 | only the selected price levels change, and only in the toggled level's membership |
| Sidebar.WeekdayIndex | components/Sidebar.tsx:101 | the Monday-first index lies in 0..6 and the day after it (mod 7) is the Sunday-first day |
| Sidebar.WeekdayIndexInjective | components/Sidebar.tsx:101 | different days map to different lines |
| Sidebar.WeekdayIndexOnto | components/Sidebar.tsx:101 | every line 0..6 is some day's line |
| Sidebar.TodayPeriods | components/Sidebar.tsx:81 | exactly the periods that open on the given day |
| Sidebar.IsOpenNow | components/Sidebar.tsx:83-96 | open exactly when some period of today covers the time, both ends inclusive, a missing close meaning 23:59 |
| Sidebar.TimeOnly | components/Sidebar.tsx:103 | the text after the first ": ", or "" when the line has none |
| Sidebar.TimeOnlyExample | components/Sidebar.tsx:103 | "Monday: 9:00 AM" shows as "9:00 AM" |
| Sidebar.SearchDisabled | components/Sidebar.tsx:223 | the button is disabled exactly when a search is running or either address is empty |
| Sidebar.GetHoursStatus | components/Sidebar.tsx:67-110 | unavailable, with no hours line, exactly when the periods list is missing; otherwise open exactly when a period of today covers the time, closed for an empty list, and today's hours line shown |
| App.ApiKeySubmit | App.tsx:41-48 | after the script loaded the key is stored and the input step shown; otherwise nothing changes |
| App.StartOver | App.tsx:62-76 | back to the input step with both addresses and positions cleared, default filters, no results, midpoint or error; key, timing and labels kept |
| App.StartOverIdempotent | App.tsx:62-76 | starting over twice is the same as once |
| App.StartOverRestoresInitial | App.tsx:23-35 | starting over gives the opening state at the input step, keeping the key and the timing |
| App.MinOf | App.tsx:119 | the least selected price level, which is one of the selected levels |
| App.MaxOf | App.tsx:120 | the greatest selected price level, which is one of the selected levels |
| App.PriceBounds | App.tsx:119-120 | 1..4 with no selection; otherwise selected levels bounding every selected level; within 1..4 when the levels are |
| App.ResolveCentre | App.tsx:106-116 | a named region's geocode is midpoint and centre (its failure is the search's error); "Anywhere" centres on the first subway near the midpoint, or on the midpoint when none is found |
| App.Candidates | App.tsx:119-130 | the first min(10, n) restaurants found within the price bounds, in order |
| App.ErrorText | App.tsx:147 | the error's message, or "Search failed" when it has none |
| App.Search | App.tsx:86-150 | only locations' positions, step, results, midpoint and error change; a failure keeps step, results and midpoint and shows a geocode or matrix error; only success shows results, at most ten, each with travel times |
| App.SearchRecordsCoordinates | App.tsx:92-100 | both positions are recorded once both addresses geocode, even when a later step fails; a failed geocode changes only the error |
| App.SearchReportsStepError | App.tsx:106-147 | once both addresses are found, a failed region geocode or a failed distance matrix shows exactly the message that step threw |
| App.SearchResultsAreTopTen | App.tsx:129-140 | a successful search shows the ten first candidates in order, each annotated by the travel-time step from its own matrix elements, and the resolved midpoint |
| App.FailedRestaurantSearchShowsNothing | App.tsx:118-140 | once both addresses and the centre are found, a failed restaurant search is no error: the results step is shown with no restaurants |
| App.HandleSearch | App.tsx:84-151 | nothing happens when either address is empty; otherwise the search runs and the in-flight flag ends cleared |
| App.EnabledButtonRuns | App.tsx:85 | a search started from the enabled button always passes the empty-address guard |
| App.FailedSearchKeepsResults | App.tsx:145-148 | a search ending in an error keeps the step and the results on screen |
| App.SearchAfterStartOver | App.tsx:85 | after starting over the button is disabled and searching changes nothing |
| App.FindRestaurant | App.tsx:227 | the first card with the id, or none exactly when no card has it |
| App.MergeDetails | App.tsx:243 | the record is marked loaded; a successful reply replaces the five detail fields; nothing else changes |
| App.MergeDetailsIdempotent | App.tsx:243 | merging the same details twice changes nothing more |
| App.SelectRestaurant | App.tsx:225-249 | the card is selected; an unknown or already loaded card leaves the results alone; otherwise only that record changes and becomes loaded |
| App.SelectTwice | App.tsx:238-244 | selecting the same card a second time changes nothing |
| ApiKeyModal.SubmittedKey | components/ApiKeyModal.tsx:11-16 | a key is handed on exactly when the trimmed input is longer than ten characters, and it is the trimmed input |
| ApiKeyModal.SubmittedKeyWasEnabled | components/ApiKeyModal.tsx:13-49 | every key handed on came through an enabled button |
| ApiKeyModal.SubmitDisabled | components/ApiKeyModal.tsx:49 | the button as written is enabled only for inputs of at least ten raw characters |
| ApiKeyModal.EnabledButIgnored | components/ApiKeyModal.tsx:13-49 | every input of at least ten raw characters that trims to at most ten enables the button and is ignored on submit |
| ApiKeyModal.TenCharactersIgnored | components/ApiKeyModal.tsx:13-49 | the button as written is enabled for a ten-character key that submitting ignores |
| ApiKeyModal.FixedButtonMatchesSubmit | components/ApiKeyModal.tsx:49 | with the corrected condition, the button is enabled exactly when submitting hands a key on |
| ApiKeyModal.Submit | components/ApiKeyModal.tsx:11-16 | an input that would be ignored, or a script that failed to load, changes nothing; otherwise the trimmed key is stored and the input step shown, and nothing else changes |
| ApiKeyModal.StoredKeyIsTrimmed | components/ApiKeyModal.tsx:14 | a stored key has more than ten characters and no surrounding whitespace |

## Left out

- Script loading, service initialisation and the map itself (markers, bounds, panning, zoom) are browser and provider plumbing. Each provider call appears only through its reply. The "not initialized" errors these helpers throw before initialisation are not modelled, because initialisation always precedes a search.
- `services/geminiService.ts` is not part of this model. It is a network call with a fixed fallback string.
- Midpoint arithmetic is over the reals. Floating-point rounding is not modelled.
- `new Date()` and `parseInt` are replaced by integer parameters: the day of the week, the hour and minute, and HHMM integers in each period.
- Rendering is not modelled: JSX, CSS classes other than the fairness and hours colours, star ratings, and the `openXiaohongshu` link.
- Only the settled state after each handler is modelled. The intermediate renders are not: `isSearching` true while awaiting, and the error cleared before the geocodes. Asynchronous ordering is left out too: stale closures over `state.results`, and overlapping searches or detail fetches.
- The step value "SEARCHING" exists in the type but nothing assigns it. The model keeps the constructor and no transition produces it.
- The fields `nearestSubway`, `subwayDist` and `aiVerdict` are never set by the modelled code, so `Restaurant` omits them. No modelled file reads `timing`; it is only carried along.
- `Strings.Upper`: only ASCII letters are upper-cased, where JavaScript's `toUpperCase` maps every cased letter. String lengths count code points, not UTF-16 units.
- `GoogleMaps.CalculateTravelTimes`: requires both matrix rows to hold an element per destination, because the code indexes them unchecked. With a short row the application reads a property of `undefined` inside the distance-matrix callback (services/googleMaps.ts:201-205). The exception escapes the callback, so the promise neither resolves nor rejects.
- `App.Search` and `App.HandleSearch`: require that matrix shape for every request, for the same reason. With a short row the application's search never settles: no error is shown and `isSearching` stays true (App.tsx:133, 148-149). The model does not represent that hang.
- `GoogleMaps.Keyword`: the round trip through " OR " is stated only for cuisines without a space; `GoogleMaps.KeywordStraddle` shows that some labels do not split back.
- `Sidebar.GetHoursStatus`: requires a present `weekday_text` list to hold a line for the day, because the component indexes it unchecked.
- The structural invariants need no lemma because the datatypes enforce them. These are: exactly two locations per state, each with no position or one; four step values; two timing values.

## Findings

| source | as written | input that shows it | evidently intended | confidence | as-written member | corrected member |
|---|---|---|---|---|---|---|
| components/ApiKeyModal.tsx:13-49 | the submit button is enabled once the raw input has ten characters, but submitting hands a key on only when the trimmed input has more than ten | "0123456789", or any input of ten or more characters that trims to ten or fewer (`ApiKeyModal.EnabledButIgnored`): the button is enabled, and clicking it does nothing and shows nothing | the button is enabled exactly when submitting hands a key on (trimmed length above ten) | medium, not executed | ApiKeyModal.TenCharactersIgnored | ApiKeyModal.FixedButtonMatchesSubmit |
