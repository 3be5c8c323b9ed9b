/**
 * The tracking card of the map screen. While a route is saved in the
 * `ActiveRoute` store, location updates ask for the driving route to the
 * destination once; the flag `isRouteFetched` keeps further updates from
 * asking again, and `lastStationName` tells when the destination changed.
 *
 * The request itself runs in a coroutine and finishes later: starting it is
 * `UpdateTrackingLogic`, its end is `CompleteFetch` with the outcome as a
 * parameter. Location, permission and map readiness are parameters too.
 */
module RouteTracking {
  import opened Wrappers
  import opened ActiveRoute
  import opened Polyline

  /** What the directions request ends with. */
  datatype FetchOutcome =
    | Thrown                      // an exception, from the network or the JSON
    | Unsuccessful                // an HTTP error, or no body
    | NoRoutes                    // a body with an empty route list
    | Routes(points: string, legDuration: Option<string>)
      // the first route's encoded line, and the duration text of its first leg if any

  /** The fields and views the tracking logic updates. */
  datatype TrackerState = TrackerState(
    isRouteFetched: bool,
    lastStationName: Option<string>,
    cardVisible: bool,
    stationLabel: string,
    locationUpdates: bool,
    markerShown: bool,
    routeLine: Option<seq<LatLngE5>>,
    etaText: string)

  /** `checkActiveTracking`, given the stored route and whether location access is granted. */
  function AfterCheck(t: TrackerState, route: Option<Route>, permitted: bool): TrackerState {
    match route
    case None =>
      t.(cardVisible := false, locationUpdates := false, lastStationName := None)
    case Some(r) =>
      var name := r.destName;
      var t' :=
        if Some(name) != t.lastStationName then
          t.(isRouteFetched := false, lastStationName := Some(name),
             routeLine := None, markerShown := false, etaText := "-- min")
        else t;
      t'.(cardVisible := true, stationLabel := name, locationUpdates := t.locationUpdates || permitted)
  }

  /** `stopTracking` (besides clearing the store). */
  function AfterStop(t: TrackerState): TrackerState {
    t.(cardVisible := false, locationUpdates := false, markerShown := false, routeLine := None,
       isRouteFetched := false, lastStationName := None)
  }

  /** Whether a location update starts a directions request. */
  predicate StartsFetch(t: TrackerState, route: Option<Route>, mapReady: bool) {
    route.Some? && mapReady && !t.isRouteFetched
  }

  /** `updateTrackingLogic`: the marker is placed, and a request started unless one was. */
  function AfterUpdate(t: TrackerState, route: Option<Route>, mapReady: bool): TrackerState {
    if route.None? || !mapReady then t
    else t.(markerShown := true, isRouteFetched := true)
  }

  /** The outcomes that end in the `catch` block: an exception, or a line that does not decode. */
  predicate FetchFails(o: FetchOutcome) {
    o.Thrown? || (o.Routes? && Decode(o.points).None?)
  }

  /** The end of the request started by `fetchAndDrawRoute`. */
  function AfterFetch(t: TrackerState, o: FetchOutcome): TrackerState {
    match o
    case Thrown => t.(isRouteFetched := false)
    case Unsuccessful => t
    case NoRoutes => t
    case Routes(points, leg) =>
      match Decode(points)
      case None => t.(isRouteFetched := false)
      case Some(path) => t.(routeLine := Some(path), etaText := leg.GetOr(t.etaText))
  }

  /** A request starts exactly when a route is stored, the map is ready and none was started. */
  lemma UpdateStartsFetch(t: TrackerState, route: Option<Route>, mapReady: bool)
    ensures StartsFetch(t, route, mapReady) <==>
            !t.isRouteFetched && AfterUpdate(t, route, mapReady).isRouteFetched
    ensures AfterUpdate(t, route, mapReady).lastStationName == t.lastStationName
  {
  }

  /** Two updates in a row start at most one request. */
  lemma NoSecondFetch(t: TrackerState, r1: Option<Route>, m1: bool, r2: Option<Route>, m2: bool)
    requires StartsFetch(t, r1, m1)
    ensures !StartsFetch(AfterUpdate(t, r1, m1), r2, m2)
  {
  }

  /** Once set, the flag is cleared by a request's end only when that request failed in the `catch` block. */
  lemma FetchClearsFlagOnlyOnFailure(t: TrackerState, o: FetchOutcome)
    requires t.isRouteFetched
    ensures !AfterFetch(t, o).isRouteFetched <==> FetchFails(o)
    ensures AfterFetch(t, o).lastStationName == t.lastStationName
  {
  }

  /** After a failed request, the next update with a route and a ready map asks again. */
  lemma FailedFetchIsRetried(t: TrackerState, o: FetchOutcome, r: Route)
    requires FetchFails(o)
    ensures StartsFetch(AfterFetch(t, o), Some(r), true)
  {
  }

  /** After an HTTP error or an empty answer, no update asks again. */
  lemma ErrorResponseIsNotRetried(t: TrackerState, o: FetchOutcome, route: Option<Route>, mapReady: bool)
    requires t.isRouteFetched && (o.Unsuccessful? || o.NoRoutes?)
    ensures !StartsFetch(AfterFetch(t, o), route, mapReady)
  {
  }

  /** A new destination clears the flag, the drawn line and the marker, and is remembered. */
  lemma NewStationResets(t: TrackerState, r: Route, permitted: bool)
    requires t.lastStationName != Some(r.destName)
    ensures var t' := AfterCheck(t, Some(r), permitted);
            !t'.isRouteFetched && t'.lastStationName == Some(r.destName) &&
            t'.routeLine.None? && !t'.markerShown && t'.etaText == "-- min" &&
            t'.cardVisible && t'.stationLabel == r.destName
  {
  }

  /** The same destination keeps the flag and the drawn line. */
  lemma SameStationKeeps(t: TrackerState, r: Route, permitted: bool)
    requires t.lastStationName == Some(r.destName)
    ensures var t' := AfterCheck(t, Some(r), permitted);
            t'.isRouteFetched == t.isRouteFetched && t'.routeLine == t.routeLine &&
            t'.lastStationName == t.lastStationName
  {
  }

  /** After `stopTracking` the flag is clear and no destination is remembered, so a route saved again is fetched again. */
  lemma StopThenTrackAgain(t: TrackerState, r: Route, permitted: bool)
    ensures !AfterStop(t).isRouteFetched && AfterStop(t).lastStationName.None?
    ensures StartsFetch(AfterCheck(AfterStop(t), Some(r), permitted), Some(r), true)
  {
  }

  /** The tracking part of `MainActivity`. */
  class RouteTracker {
    const store: RouteStore
    var isRouteFetched: bool
    var lastStationName: Option<string>
    var cardVisible: bool
    var stationLabel: string
    var locationUpdates: bool
    var markerShown: bool
    var routeLine: Option<seq<LatLngE5>>
    var etaText: string

    function State(): TrackerState
      reads this
    {
      TrackerState(isRouteFetched, lastStationName, cardVisible, stationLabel,
                   locationUpdates, markerShown, routeLine, etaText)
    }

    /** A screen that tracks nothing yet; the layout's initial texts are not modelled. */
    constructor (store: RouteStore)
      ensures this.store == store
      ensures State() == TrackerState(false, None, false, "", false, false, None, "")
    {
      this.store := store;
      isRouteFetched, lastStationName := false, None;
      cardVisible, stationLabel, locationUpdates := false, "", false;
      markerShown, routeLine, etaText := false, None, "";
    }

    /** `checkActiveTracking`. */
    method CheckActiveTracking(permitted: bool)
      modifies this
      ensures State() == AfterCheck(old(State()), store.CurrentRoute(), permitted)
    {
      var route := store.CurrentRoute();
      match route {
        case Some(r) =>
          if Some(r.destName) != lastStationName {
            isRouteFetched := false;
            lastStationName := Some(r.destName);
            routeLine := None;
            markerShown := false;
            etaText := "-- min";
          }
          cardVisible := true;
          stationLabel := r.destName;
          locationUpdates := locationUpdates || permitted;
        case None =>
          cardVisible := false;
          locationUpdates := false;
          lastStationName := None;
      }
    }

    /** `stopTracking`: the stored route is removed and the screen forgets the destination. */
    method StopTracking()
      modifies this, store
      ensures store.CurrentRoute() == None
      ensures State() == AfterStop(old(State()))
    {
      store.ClearRoute();
      cardVisible := false;
      locationUpdates := false;
      markerShown := false;
      routeLine := None;
      isRouteFetched := false;
      lastStationName := None;
    }

    /** `updateTrackingLogic`; `fetchStarted` tells whether a directions request was launched. */
    method UpdateTrackingLogic(mapReady: bool) returns (fetchStarted: bool)
      modifies this
      ensures fetchStarted == StartsFetch(old(State()), store.CurrentRoute(), mapReady)
      ensures State() == AfterUpdate(old(State()), store.CurrentRoute(), mapReady)
    {
      fetchStarted := false;
      var route := store.CurrentRoute();
      if route.None? {
        return;
      }
      if mapReady {
        if !markerShown {
          markerShown := true;
        }
        if !isRouteFetched {
          FetchAndDrawRoute();
          fetchStarted := true;
        }
      }
    }

    /** `fetchAndDrawRoute`, up to the launch of the request: the flag is set first. */
    method FetchAndDrawRoute()
      modifies this`isRouteFetched
      ensures isRouteFetched
    {
      isRouteFetched := true;
    }

    /** The rest of `fetchAndDrawRoute`, when the request ends with `outcome`. */
    method CompleteFetch(outcome: FetchOutcome)
      modifies this
      ensures State() == AfterFetch(old(State()), outcome)
    {
      match outcome {
        case Thrown =>
          isRouteFetched := false;
        case Unsuccessful =>
        case NoRoutes =>
        case Routes(points, leg) =>
          var path := DecodePolyline(points);
          match path {
            case None =>
              isRouteFetched := false;
            case Some(p) =>
              routeLine := Some(p);
              if leg.Some? {
                etaText := leg.value;
              }
          }
      }
    }
  }
}
