/** The decision logic of components/Sidebar.tsx: the cuisine and price
    toggles, the opening-hours status of a result card and the condition
    that disables the search button. The clock is a parameter: the component
    reads the day of the week and the time of day from `new Date()`. */
module Sidebar {
  import opened Common
  import opened Strings
  import opened Types

  // ---------------------------------------------------------------------
  // Toggles

  /** The list without any occurrence of `x` (`filter`). */
  function Remove<T(==)>(s: seq<T>, x: T): (r: seq<T>)
    ensures x !in r
    ensures forall i :: 0 <= i < |s| && s[i] != x ==> s[i] in r
    ensures forall i :: 0 <= i < |r| ==> r[i] in s
    ensures x !in s ==> r == s
    ensures Distinct(s) ==> Distinct(r)
  {
    Filter(s, y => y != x)
  }

  /** Select `x` when it is not selected (appending it), deselect it otherwise. */
  function Toggle<T(==)>(s: seq<T>, x: T): (r: seq<T>)
    ensures x in r <==> x !in s
    ensures forall i :: 0 <= i < |s| && s[i] != x ==> s[i] in r
    ensures forall i :: 0 <= i < |r| && r[i] != x ==> r[i] in s
    ensures x !in s ==> r == s + [x]
    ensures Distinct(s) ==> Distinct(r)
  {
    if x in s then Remove(s, x) else s + [x]
  }

  /** Removing a value just appended to a list without it gives the list back. */
  lemma {:induction false} RemoveAppended<T>(s: seq<T>, x: T)
    requires x !in s
    ensures Remove(s + [x], x) == s
  {
    assert forall i :: 0 <= i < |s| ==> (s + [x])[i] == s[i];
    var f := y => y != x;
    RemoveAppendedFilter(s, x, f);
  }

  lemma {:induction false} RemoveAppendedFilter<T>(s: seq<T>, x: T, f: T -> bool)
    requires forall i :: 0 <= i < |s| ==> f(s[i])
    requires !f(x)
    ensures Filter(s + [x], f) == s
    decreases |s|
  {
    if |s| == 0 {
      assert s + [x] == [x];
    } else {
      assert (s + [x])[1..] == s[1..] + [x];
      RemoveAppendedFilter(s[1..], x, f);
    }
  }

  /** Toggling the same value twice restores which values are selected; when
      the value was not selected, the list itself is restored. */
  lemma ToggleTwice<T>(s: seq<T>, x: T)
    ensures forall y :: y in Toggle(Toggle(s, x), x) <==> y in s
    ensures x !in s ==> Toggle(Toggle(s, x), x) == s
  {
    if x !in s {
      RemoveAppended(s, x);
    }
  }

  /** `toggleCuisine`: only the selected cuisines change. */
  function ToggleCuisine(st: AppState, c: string): (r: AppState)
    ensures r == st.(selectedCuisines := r.selectedCuisines)
    ensures c in r.selectedCuisines <==> c !in st.selectedCuisines
    ensures forall d :: d != c ==> (d in r.selectedCuisines <==> d in st.selectedCuisines)
  {
    st.(selectedCuisines := Toggle(st.selectedCuisines, c))
  }

  /** `togglePrice`: only the selected price levels change. */
  function TogglePrice(st: AppState, p: int): (r: AppState)
    ensures r == st.(priceRange := r.priceRange)
    ensures p in r.priceRange <==> p !in st.priceRange
    ensures forall q :: q != p ==> (q in r.priceRange <==> q in st.priceRange)
  {
    st.(priceRange := Toggle(st.priceRange, p))
  }

  // ---------------------------------------------------------------------
  // Opening hours

  /** The position of a day (0 for Sunday) in the Monday-first `weekday_text` list. */
  function WeekdayIndex(day: int): (i: int)
    requires 0 <= day <= 6
    ensures 0 <= i <= 6
    ensures (i + 1) % 7 == day
  {
    if day == 0 then 6 else day - 1
  }

  /** Two different days never share a `weekday_text` line. */
  lemma WeekdayIndexInjective(d1: int, d2: int)
    requires 0 <= d1 <= 6 && 0 <= d2 <= 6 && d1 != d2
    ensures WeekdayIndex(d1) != WeekdayIndex(d2)
  {
  }

  /** Every line of `weekday_text` belongs to some day, so the mapping is a bijection on 0..6. */
  lemma WeekdayIndexOnto(i: int)
    requires 0 <= i <= 6
    ensures WeekdayIndex((i + 1) % 7) == i
  {
  }

  /** The closing time of a period; a period without one is open until 23:59. */
  function CloseTime(p: Period): int {
    if p.close.Some? then p.close.value.time else 2359
  }

  /** The period is open at `now` (an HHMM integer), both ends inclusive. */
  predicate Covers(p: Period, now: int) {
    p.open.time <= now <= CloseTime(p)
  }

  /** The periods that open on `day`, in order. */
  function TodayPeriods(periods: seq<Period>, day: int): (today: seq<Period>)
    ensures forall i :: 0 <= i < |today| ==> today[i] in periods && today[i].open.day == day
    ensures forall i :: 0 <= i < |periods| && periods[i].open.day == day ==> periods[i] in today
  {
    Filter(periods, (p: Period) => p.open.day == day)
  }

  /** The loop of `getHoursStatus`: scan today's periods and stop at the first one covering `now`. */
  method IsOpenNow(periods: seq<Period>, day: int, now: int) returns (open: bool)
    ensures open <==> exists i :: 0 <= i < |periods| && periods[i].open.day == day && Covers(periods[i], now)
  {
    var today := TodayPeriods(periods, day);
    open := false;
    var k := 0;
    while k < |today|
      invariant 0 <= k <= |today|
      invariant !open
      invariant forall j :: 0 <= j < k ==> !Covers(today[j], now)
    {
      if Covers(today[k], now) {
        open := true;
        break;
      }
      k := k + 1;
    }
    if open {
      var p := today[k];
      var i :| 0 <= i < |periods| && periods[i] == p;
    } else {
      forall i | 0 <= i < |periods| && periods[i].open.day == day
        ensures !Covers(periods[i], now)
      {
        var j :| 0 <= j < |today| && today[j] == periods[i];
      }
    }
  }

  /** The hours part of a weekday line, obtained by splitting on ": ", dropping the first
      piece and joining the rest: the text after the first ": ", or "" when there is none. */
  function TimeOnly(line: string): (t: string)
    ensures IndexOf(line, ": ").None? ==> t == ""
    ensures IndexOf(line, ": ").Some? ==> t == line[IndexOf(line, ": ").value + 2..]
  {
    SplitStep(line, ": ");
    match IndexOf(line, ": ")
    case None => Join(Split(line, ": ")[1..], ": ")
    case Some(i) =>
      JoinSplit(line[i + 2..], ": ");
      assert Split(line, ": ")[1..] == Split(line[i + 2..], ": ");
      Join(Split(line, ": ")[1..], ": ")
  }

  /** A weekday line shows only what follows the day name. */
  lemma TimeOnlyExample()
    ensures TimeOnly("Monday: 9:00 AM") == "9:00 AM"
  {
    var line := "Monday: 9:00 AM";
    assert OccursAt(line, ": ", 6);
    forall j: nat | j < 6
      ensures !OccursAt(line, ": ", j)
    {
      var w := line[j..j + 2];
      assert w[0] == line[j];
    }
    IndexOfSpec(line, ": ");
  }

  /** The status label of a result card and its colour class. */
  datatype OpenStatus = Unavailable | Open | Closed {
    function Text(): string {
      match this
      case Unavailable => "Hours unavailable"
      case Open => "Open"
      case Closed => "Closed"
    }

    function ClassName(): string {
      match this
      case Unavailable => "text-gray-400"
      case Open => Green.ClassName()
      case Closed => Red.ClassName()
    }
  }

  /** What `getHoursStatus` returns: the status and today's hours (`null` when unavailable). */
  datatype HoursView = HoursView(status: OpenStatus, fullString: Option<string>)

  /** The hours are known: the venue has opening hours with a `periods` list. */
  predicate HasPeriods(r: Restaurant) {
    r.openingHours.Some? && r.openingHours.value.periods.Some?
  }

  /** `getHoursStatus` for the day of the week `day` (0 for Sunday) at
      `hour`:`minute`. When a `weekday_text` list is present it must hold
      a line for the day: the component indexes it unchecked. */
  method GetHoursStatus(r: Restaurant, day: int, hour: int, minute: int) returns (view: HoursView)
    requires 0 <= day <= 6
    requires HasPeriods(r) && r.openingHours.value.weekdayText.Some? ==>
      WeekdayIndex(day) < |r.openingHours.value.weekdayText.value|
    ensures !HasPeriods(r) <==> view.status == Unavailable
    ensures !HasPeriods(r) ==> view.fullString.None?
    ensures HasPeriods(r) ==>
      var periods := r.openingHours.value.periods.value;
      && (view.status == Open <==>
            exists i :: 0 <= i < |periods| && periods[i].open.day == day && Covers(periods[i], hour * 100 + minute))
      && view.fullString.Some?
    ensures HasPeriods(r) && r.openingHours.value.periods.value == [] ==> view.status == Closed
    ensures HasPeriods(r) && r.openingHours.value.weekdayText.None? ==> view.fullString == Some("")
    ensures HasPeriods(r) && r.openingHours.value.weekdayText.Some? ==>
      view.fullString == Some(TimeOnly(r.openingHours.value.weekdayText.value[WeekdayIndex(day)]))
  {
    if !HasPeriods(r) {
      return HoursView(Unavailable, None);
    }
    var hours := r.openingHours.value;
    var now := hour * 100 + minute;
    var open := IsOpenNow(hours.periods.value, day, now);
    var mapIndex := WeekdayIndex(day);
    var todayString := if hours.weekdayText.Some? then hours.weekdayText.value[mapIndex] else "";
    assert IndexOf("", ": ").None?;
    view := HoursView(if open then Open else Closed, Some(TimeOnly(todayString)));
  }

  // ---------------------------------------------------------------------
  // The search button

  /** The search button is disabled while a search runs or while either address is empty. */
  predicate SearchDisabled(isSearching: bool, a: UserLocation, b: UserLocation)
    ensures !SearchDisabled(isSearching, a, b) ==> !isSearching && |a.address| > 0 && |b.address| > 0
    ensures SearchDisabled(isSearching, a, b) ==> isSearching || a.address == "" || b.address == ""
  {
    isSearching || a.address == "" || b.address == ""
  }
}
