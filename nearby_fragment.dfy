/**
 * The "nearby" list: the four closest stations served by the selected kind
 * of transport ("MRT" or "BUS"), each with the time until its next
 * departure. The station list is fetched once and kept; the user's distance
 * to each station and the time of day are parameters.
 */
module NearbyStations {
  import opened Wrappers
  import opened Strings
  import opened Model
  import opened Ranking
  import opened TimeUtils

  /** How many stations the list shows. */
  const ListSize: nat := 4

  /** The first service of `services` whose type is `serviceType`, ignoring case (`find`). */
  function FirstOfType(services: seq<StationService>, serviceType: string): (r: Option<StationService>)
    ensures r.None? <==> forall i :: 0 <= i < |services| ==> !EqualsIgnoreCase(services[i].serviceType, serviceType)
    ensures r.Some? ==> exists i :: 0 <= i < |services| && services[i] == r.value &&
                          EqualsIgnoreCase(r.value.serviceType, serviceType) &&
                          forall j :: 0 <= j < i ==> !EqualsIgnoreCase(services[j].serviceType, serviceType)
  {
    if services == [] then None
    else if EqualsIgnoreCase(services[0].serviceType, serviceType) then Some(services[0])
    else
      var r := FirstOfType(services[1..], serviceType);
      assert r.Some? ==> exists i :: 0 <= i < |services| - 1 && services[1..][i] == r.value &&
                          EqualsIgnoreCase(r.value.serviceType, serviceType) &&
                          forall j :: 0 <= j < i ==> !EqualsIgnoreCase(services[1..][j].serviceType, serviceType);
      r
  }

  /** `services.any { it.type.equals(selectedType, ignoreCase = true) }`. */
  predicate HasServiceOfType(station: Station, serviceType: string) {
    exists i :: 0 <= i < |station.services| && EqualsIgnoreCase(station.services[i].serviceType, serviceType)
  }

  /** The stations served by `serviceType`, in list order (`filter`). */
  function Serving(all: seq<Station>, serviceType: string): (r: seq<Station>)
    ensures |r| <= |all|
    ensures forall i :: 0 <= i < |r| ==> r[i] in all && HasServiceOfType(r[i], serviceType)
    ensures forall i :: 0 <= i < |all| && HasServiceOfType(all[i], serviceType) ==> all[i] in r
  {
    if all == [] then []
    else (if HasServiceOfType(all[0], serviceType) then [all[0]] else []) + Serving(all[1..], serviceType)
  }

  /** The text beside a station: its next departure, or "Service available" without a matching service. */
  datatype Info = NextDeparture(serviceType: string, timeText: string) | ServiceAvailable

  datatype NearbyEntry = NearbyEntry(station: Station, info: Info)

  /** The info text of a station, computed from its first service of the type. */
  function InfoFor(station: Station, serviceType: string, now: NanoOfDay): Info
    reads station.services
  {
    match FirstOfType(station.services, serviceType)
    case None => ServiceAvailable
    case Some(s) =>
      NextDeparture(s.serviceType,
                    FormatTimeDisplay(NextTrainMinutes(Some(s.firstTrain), s.FrequencyMin(), s.OffsetMin(), now)))
  }

  /** The filtered stations, each with its distance. */
  function RankedStations(stations: seq<Station>, dist: DistanceFrom): (r: seq<Ranked<Station>>)
    ensures |r| == |stations|
    ensures forall i :: 0 <= i < |stations| ==> r[i] == Ranked(stations[i], dist(stations[i]))
  {
    if stations == [] then []
    else [Ranked(stations[0], dist(stations[0]))] + RankedStations(stations[1..], dist)
  }

  /** The served stations, nearest first, cut to four (`filter`, `sortedBy`, `take(4)`). */
  function NearestStations(all: seq<Station>, serviceType: string, dist: DistanceFrom): seq<Ranked<Station>> {
    Take(SortByDistance(RankedStations(Serving(all, serviceType), dist)), ListSize)
  }

  /** Every service of the ranked stations. */
  function ServicesOfRanked(r: seq<Ranked<Station>>): set<StationService> {
    set x, sv | x in r && sv in x.item.services :: sv
  }

  /** Each station with its info text; the distances are dropped. */
  function WithInfo(r: seq<Ranked<Station>>, serviceType: string, now: NanoOfDay): (e: seq<NearbyEntry>)
    reads ServicesOfRanked(r)
    ensures |e| == |r|
    ensures forall i :: 0 <= i < |r| ==> e[i] == NearbyEntry(r[i].item, InfoFor(r[i].item, serviceType, now))
  {
    if r == [] then []
    else
      assert forall sv :: sv in r[0].item.services ==> sv in ServicesOfRanked(r);
      assert ServicesOfRanked(r[1..]) <= ServicesOfRanked(r);
      [NearbyEntry(r[0].item, InfoFor(r[0].item, serviceType, now))] + WithInfo(r[1..], serviceType, now)
  }

  /**
   * The result of `calculateNearbyStations`. The source computes the info
   * text of every served station before sorting; as the text depends on the
   * station alone, computing it for the four kept ones gives the same list.
   */
  function NearbyList(all: seq<Station>, serviceType: string, dist: DistanceFrom,
                      now: NanoOfDay): seq<NearbyEntry>
    reads ServicesOfRanked(NearestStations(all, serviceType, dist))
  {
    WithInfo(NearestStations(all, serviceType, dist), serviceType, now)
  }

  /** Each ranked station is a served station of `all`, at its distance. */
  lemma RankedStationsFacts(all: seq<Station>, serviceType: string, dist: DistanceFrom)
    ensures forall x :: x in RankedStations(Serving(all, serviceType), dist) ==>
              x.distance == dist(x.item) && x.item in all && HasServiceOfType(x.item, serviceType)
  {
    var served := Serving(all, serviceType);
    var ranked := RankedStations(served, dist);
    forall x | x in ranked
      ensures x.distance == dist(x.item) && x.item in all && HasServiceOfType(x.item, serviceType)
    {
      var k :| 0 <= k < |ranked| && ranked[k] == x;
      assert x.item == served[k];
    }
  }

  /** At most four stations, each from `all` and served by the type, nearest first. */
  lemma NearestStationsShape(all: seq<Station>, serviceType: string, dist: DistanceFrom)
    ensures var r := NearestStations(all, serviceType, dist);
            |r| <= ListSize &&
            (forall i :: 0 <= i < |r| ==>
               r[i].distance == dist(r[i].item) && r[i].item in all && HasServiceOfType(r[i].item, serviceType)) &&
            SortedByDistance(r)
  {
    var ranked := RankedStations(Serving(all, serviceType), dist);
    var top := NearestStations(all, serviceType, dist);
    NearestFirst(ranked, ListSize);
    RankedStationsFacts(all, serviceType, dist);
    forall i | 0 <= i < |top|
      ensures top[i] in ranked
    {
      assert top[i] in multiset(top);
    }
  }

  /** No served station left out of the list is nearer than one shown. */
  lemma NearestStationsNearest(all: seq<Station>, serviceType: string, dist: DistanceFrom)
    ensures var ranked := RankedStations(Serving(all, serviceType), dist);
            var top := NearestStations(all, serviceType, dist);
            multiset(top) <= multiset(ranked) &&
            forall x, y :: x in top && y in multiset(ranked) - multiset(top) ==> x.distance <= y.distance
  {
    var ranked := RankedStations(Serving(all, serviceType), dist);
    var sorted := SortByDistance(ranked);
    var top := NearestStations(all, serviceType, dist);
    NearestFirst(ranked, ListSize);
    SortMultiset(ranked);
    assert sorted == top + sorted[|top|..];
    assert multiset(sorted) == multiset(top) + multiset(sorted[|top|..]);
  }

  /** With at most four stations served, every one of them is listed. */
  lemma NearestStationsComplete(all: seq<Station>, serviceType: string, dist: DistanceFrom)
    requires |Serving(all, serviceType)| <= ListSize
    ensures forall i :: 0 <= i < |all| && HasServiceOfType(all[i], serviceType) ==>
              Ranked(all[i], dist(all[i])) in NearestStations(all, serviceType, dist)
  {
    var served := Serving(all, serviceType);
    var ranked := RankedStations(served, dist);
    var top := NearestStations(all, serviceType, dist);
    SortMultiset(ranked);
    assert multiset(top) == multiset(ranked);
    forall i | 0 <= i < |all| && HasServiceOfType(all[i], serviceType)
      ensures Ranked(all[i], dist(all[i])) in top
    {
      var k :| 0 <= k < |served| && served[k] == all[i];
      assert ranked[k] in multiset(top);
    }
  }

  /**
   * Each shown station has a service of the type, and its text is the next
   * departure of the first such service, via `getMinutesUntilNextTrain` and
   * `formatTimeDisplay`.
   */
  lemma NearbyListInfo(all: seq<Station>, serviceType: string, dist: DistanceFrom, now: NanoOfDay)
    ensures var r := NearbyList(all, serviceType, dist, now);
            forall i :: 0 <= i < |r| ==>
              var s := FirstOfType(r[i].station.services, serviceType);
              s.Some? &&
              r[i].info == NextDeparture(s.value.serviceType,
                                         FormatTimeDisplay(NextTrainMinutes(Some(s.value.firstTrain),
                                                                            s.value.FrequencyMin(),
                                                                            s.value.OffsetMin(), now)))
  {
    NearestStationsShape(all, serviceType, dist);
  }

  /** The service named when a station is clicked: its first of the type, else "<type> Service". */
  function ClickedServiceName(station: Station, selectedType: string): (name: string)
    ensures FirstOfType(station.services, selectedType).Some? ==>
              name == FirstOfType(station.services, selectedType).value.name
    ensures !HasServiceOfType(station, selectedType) ==> name == selectedType + " Service"
  {
    match FirstOfType(station.services, selectedType)
    case Some(s) => s.name
    case None => selectedType + " Service"
  }

  /** The cached station list after a refresh: the cache once filled, else what was fetched. */
  function CacheAfter(cache: Option<seq<Station>>, fetched: Option<seq<Station>>): (r: Option<seq<Station>>)
    ensures cache.Some? ==> r == cache
    ensures r.Some? <==> cache.Some? || fetched.Some?
  {
    if cache.Some? then cache else fetched
  }

  /**
   * A failed first load is never repaired: the empty list it caches stays
   * cached whatever later loads would deliver, and every later refresh
   * shows an empty list, whichever type is selected.
   */
  lemma FailedLoadIsKept(later: seq<Option<seq<Station>>>, serviceType: string, dist: DistanceFrom, now: NanoOfDay)
    ensures CacheAfter(None, Some([])) == Some([])
    ensures forall i :: 0 <= i < |later| ==> CacheAfter(Some([]), later[i]) == Some([])
    ensures NearbyList([], serviceType, dist, now) == []
  {
    assert Serving([], serviceType) == [];
    assert SortByDistance(RankedStations([], dist)) == [];
  }

  /** The screen's own state: the selected type and the cached station list. */
  class NearbyScreen {
    var selectedType: string
    var cachedAllStations: Option<seq<Station>>

    constructor ()
      ensures selectedType == "MRT" && cachedAllStations.None?
    {
      selectedType := "MRT";
      cachedAllStations := None;
    }

    /** The toggle: a checked button selects "MRT" for the MRT button and "BUS" for any other. */
    method OnButtonChecked(isMrtButton: bool, isChecked: bool)
      modifies this`selectedType
      ensures isChecked ==> selectedType == (if isMrtButton then "MRT" else "BUS")
      ensures !isChecked ==> selectedType == old(selectedType)
    {
      if isChecked {
        selectedType := if isMrtButton then "MRT" else "BUS";
      }
    }

    /**
     * `calculateNearbyStations`. `fetched` is what the station repository
     * delivers: the repository catches its own errors and returns the empty
     * list, so a failed load is `Some([])`, and `None` stands for a load that
     * never completes (its coroutine cancelled). It is used only while
     * nothing is cached. The result is the new list, or `None` when the list
     * is left as it was.
     */
    method CalculateNearbyStations(fetched: Option<seq<Station>>, dist: DistanceFrom, now: NanoOfDay)
      returns (list: Option<seq<NearbyEntry>>)
      modifies this`cachedAllStations
      ensures cachedAllStations == CacheAfter(old(cachedAllStations), fetched)
      ensures cachedAllStations.None? <==> list.None?
      ensures cachedAllStations.Some? ==>
                list == Some(NearbyList(cachedAllStations.value, selectedType, dist, now))
    {
      var all: seq<Station>;
      if cachedAllStations.Some? {
        all := cachedAllStations.value;
      } else {
        if fetched.None? {
          return None;
        }
        all := fetched.value;
        cachedAllStations := Some(all);
      }
      list := Some(NearbyList(all, selectedType, dist, now));
    }
  }
}
