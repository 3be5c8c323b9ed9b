/**
 * What happens after the user picks a place in the search screen: the
 * stations within 350 m of it become candidates, nearest first; one
 * candidate opens that station, several open a chooser, none shows a
 * message; and the place joins the recent-search history exactly when some
 * station was found.
 *
 * The distance from the place to each station is supplied as a function
 * (`DistanceFrom`), in whole metres.
 */
module PlaceSearch {
  import opened Wrappers
  import opened Model
  import opened Ranking
  import opened SearchHistory

  /** The largest distance, in metres, at which a station counts as near the place. */
  const MatchThresholdMeters: nat := 350

  /** What the screen does with the candidates. */
  datatype Dispatch =
    | NoStationNearby
    | OpenStation(station: Station)
    | ChooseStation(candidates: seq<Ranked<Station>>)

  /** The stations of `stations` within the threshold, each with its distance, in list order. */
  function Candidates(stations: seq<Station>, dist: DistanceFrom): (r: seq<Ranked<Station>>)
    ensures |r| <= |stations|
  {
    if stations == [] then []
    else
      var last := stations[|stations| - 1];
      Candidates(stations[..|stations| - 1], dist) +
      (if dist(last) <= MatchThresholdMeters then [Ranked(last, dist(last))] else [])
  }

  /** An entry is a candidate exactly when it is a station of the list, at its distance, within the threshold. */
  lemma {:induction false} CandidatesExactly(stations: seq<Station>, dist: DistanceFrom)
    ensures forall c :: c in Candidates(stations, dist) <==>
              c.item in stations && c.distance == dist(c.item) && c.distance <= MatchThresholdMeters
    decreases |stations|
  {
    if stations != [] {
      var init := stations[..|stations| - 1];
      CandidatesExactly(init, dist);
      assert stations == init + [stations[|stations| - 1]];
    }
  }

  /** The branch on the number of sorted candidates. */
  function DispatchOn(sorted: seq<Ranked<Station>>): Dispatch {
    if |sorted| == 0 then NoStationNearby
    else if |sorted| == 1 then OpenStation(sorted[0].item)
    else ChooseStation(sorted)
  }

  /** The history entry for a place, with the defaults for what the place lacks. */
  function PlaceEntry(name: Option<string>, address: Option<string>,
                      lat: Option<real>, lng: Option<real>): (e: RecentPlace)
    ensures e.name == (if name.Some? then name.value else "Unknown")
    ensures e.address == (if address.Some? then address.value else "")
    ensures e.lat == (if lat.Some? then lat.value else 0.0)
    ensures e.lng == (if lng.Some? then lng.value else 0.0)
  {
    RecentPlace(name.GetOr("Unknown"), address.GetOr(""), lat.GetOr(0.0), lng.GetOr(0.0))
  }

  /**
   * The screen opens the single nearest station, or a chooser listing every
   * candidate nearest first, or reports that none was found.
   */
  lemma DispatchCases(stations: seq<Station>, dist: DistanceFrom)
    ensures var c := Candidates(stations, dist);
            var d := DispatchOn(SortByDistance(c));
            (d.NoStationNearby? <==> c == []) &&
            (d.OpenStation? <==> |c| == 1) &&
            (d.OpenStation? ==> d.station == c[0].item) &&
            (d.ChooseStation? ==> SortedByDistance(d.candidates) &&
                                  multiset(d.candidates) == multiset(c) && |c| >= 2)
  {
    var c := Candidates(stations, dist);
    var sorted := SortByDistance(c);
    SortSorted(c);
    SortMultiset(c);
    if |c| == 1 {
      assert c == [c[0]];
      assert sorted == InsertByDistance(c[0], []);
    }
  }

  /**
   * `handleSelectedPlace`: the loop over the stations, the sort, the branch
   * on the number of candidates, and the history entry saved when there is
   * at least one.
   */
  method HandleSelectedPlace(stations: seq<Station>, dist: DistanceFrom,
                             name: Option<string>, address: Option<string>,
                             lat: Option<real>, lng: Option<real>,
                             history: SearchHistoryManager)
    returns (d: Dispatch)
    modifies history
    ensures d == DispatchOn(SortByDistance(Candidates(stations, dist)))
    ensures d.NoStationNearby? ==> history.stored == old(history.stored)
    ensures !d.NoStationNearby? ==>
              history.stored == Some(Saved(old(history.History()), PlaceEntry(name, address, lat, lng)))
  {
    var nearby: seq<Ranked<Station>> := [];
    for i := 0 to |stations|
      invariant nearby == Candidates(stations[..i], dist)
    {
      var distance := dist(stations[i]);
      if distance <= MatchThresholdMeters {
        nearby := nearby + [Ranked(stations[i], distance)];
      }
      assert stations[..i + 1][..i] == stations[..i];
    }
    assert stations[..|stations|] == stations;
    nearby := SortByDistance(nearby);
    if |nearby| > 0 {
      if |nearby| == 1 {
        d := OpenStation(nearby[0].item);
      } else {
        d := ChooseStation(nearby);
      }
      history.SavePlace(PlaceEntry(name, address, lat, lng));
    } else {
      d := NoStationNearby;
    }
  }

  /** The extras handed to the route screen once a service of the station is picked. */
  datatype RouteRequest = RouteRequest(destName: string, destLat: real, destLng: real, serviceName: string)

  /** What `openStationOptions` offers. */
  datatype StationOptions =
    | NoServicesConfigured
    | ChooseService(stationName: string, services: seq<StationService>)

  /** `openStationOptions`: a service chooser exactly when the station has a service. */
  function OpenStationOptions(station: Station): (o: StationOptions)
    ensures o.NoServicesConfigured? <==> station.services == []
    ensures o.ChooseService? ==> o.stationName == station.name && o.services == station.services
  {
    if |station.services| > 0 then ChooseService(station.name, station.services)
    else NoServicesConfigured
  }

  /** The request for the picked service: the station's name and position, the service's name. */
  function PickService(station: Station, service: StationService): (r: RouteRequest)
    ensures r.destName == station.name && r.serviceName == service.name
    ensures r.destLat == station.latitude && r.destLng == station.longitude
  {
    RouteRequest(station.name, station.latitude, station.longitude, service.name)
  }

  /** The station the dispatch opens, or one the chooser lists. */
  predicate Offered(d: Dispatch, station: Station) {
    (d.OpenStation? && d.station == station) ||
    (d.ChooseStation? && exists c :: c in d.candidates && c.item == station)
  }

  /**
   * A route started from a search goes to a station within 350 m of the
   * place, with that station's own name and position, and to one of that
   * station's own services: whether the station was opened directly or
   * picked from the chooser, `openStationOptions` offers its services and
   * picking the k-th yields this request.
   */
  lemma OfferedStationRoute(stations: seq<Station>, dist: DistanceFrom, station: Station, k: nat)
    requires Offered(DispatchOn(SortByDistance(Candidates(stations, dist))), station)
    requires k < |station.services|
    ensures station in stations && dist(station) <= MatchThresholdMeters
    ensures OpenStationOptions(station).ChooseService?
    ensures var o := OpenStationOptions(station);
            var r := PickService(station, o.services[k]);
            o.stationName == station.name && r.destName == station.name &&
            r.destLat == station.latitude && r.destLng == station.longitude &&
            r.serviceName == station.services[k].name
  {
    var c := Candidates(stations, dist);
    var d := DispatchOn(SortByDistance(c));
    CandidatesExactly(stations, dist);
    DispatchCases(stations, dist);
    if d.OpenStation? && d.station == station {
      assert c[0] in c;
    } else {
      var e :| e in d.candidates && e.item == station;
      assert e in multiset(d.candidates);
      assert e in c;
    }
  }
}
