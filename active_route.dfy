/**
 * The store of the route being tracked: a small key-value file holding the
 * destination's name, the chosen service and the destination's position.
 *
 * The position is written as the text of a `Double` and read back with
 * `toDoubleOrNull`; the model keeps that text as it is (see `Route`), so the
 * conversion between numbers and text is not part of it.
 */
module ActiveRoute {
  import opened Wrappers

  const KeyDestName := "dest_name"
  const KeyServiceName := "service_name"
  const KeyLat := "dest_lat"
  const KeyLng := "dest_lng"

  /** The text a missing latitude or longitude reads as. */
  const DefaultCoordinate := "0.0"

  /**
   * What `getRoute` returns: the four entries `destName`, `serviceName`,
   * `destLat` and `destLng`, the coordinates as their stored text.
   */
  datatype Route = Route(destName: string, serviceName: string, destLat: string, destLng: string)

  /** The value under `key`, or `default` when there is none. */
  function Get(prefs: map<string, string>, key: string, default: string): (v: string)
    ensures key in prefs ==> v == prefs[key]
    ensures key !in prefs ==> v == default
  {
    if key in prefs then prefs[key] else default
  }

  /** The stored route: none without a destination name, defaults for the other entries. */
  function RouteIn(prefs: map<string, string>): (r: Option<Route>)
    ensures r.None? <==> KeyDestName !in prefs
  {
    if KeyDestName !in prefs then None
    else Some(Route(prefs[KeyDestName],
                    Get(prefs, KeyServiceName, ""),
                    Get(prefs, KeyLat, DefaultCoordinate),
                    Get(prefs, KeyLng, DefaultCoordinate)))
  }

  /** The entries after `saveRoute`: the four keys overwritten, nothing else touched. */
  function SavedRoute(prefs: map<string, string>, destName: string, serviceName: string,
                      lat: string, lng: string): map<string, string>
  {
    prefs[KeyDestName := destName][KeyServiceName := serviceName][KeyLat := lat][KeyLng := lng]
  }

  /** Reading after a save gives back exactly what was saved, whatever was stored before. */
  lemma RouteInSavedRoute(prefs: map<string, string>, destName: string, serviceName: string,
                          lat: string, lng: string)
    ensures RouteIn(SavedRoute(prefs, destName, serviceName, lat, lng)) ==
            Some(Route(destName, serviceName, lat, lng))
  {
    var p := SavedRoute(prefs, destName, serviceName, lat, lng);
    assert KeyDestName != KeyServiceName && KeyDestName != KeyLat && KeyDestName != KeyLng;
    assert KeyServiceName != KeyLat && KeyServiceName != KeyLng && KeyLat != KeyLng;
    assert p[KeyDestName] == destName && p[KeyServiceName] == serviceName;
  }

  /** With only a name stored, the service reads as "" and both coordinates as "0.0". */
  lemma RouteInDefaults(name: string)
    ensures RouteIn(map[KeyDestName := name]) == Some(Route(name, "", "0.0", "0.0"))
  {
    var p := map[KeyDestName := name];
    assert KeyServiceName !in p && KeyLat !in p && KeyLng !in p;
  }

  /** The preferences file of the tracked route (`ActiveRouteManager`). */
  class RouteStore {
    var prefs: map<string, string>

    /** A store with nothing saved. */
    constructor ()
      ensures prefs == map[]
      ensures CurrentRoute() == None
    {
      prefs := map[];
    }

    /** `getRoute`. */
    function CurrentRoute(): Option<Route>
      reads this
    {
      RouteIn(prefs)
    }

    /** `saveRoute`: the four entries are written; reading them back gives the route. */
    method SaveRoute(destName: string, serviceName: string, lat: string, lng: string)
      modifies this
      ensures prefs == SavedRoute(old(prefs), destName, serviceName, lat, lng)
      ensures CurrentRoute() == Some(Route(destName, serviceName, lat, lng))
    {
      prefs := SavedRoute(prefs, destName, serviceName, lat, lng);
      RouteInSavedRoute(old(prefs), destName, serviceName, lat, lng);
    }

    /** `clearRoute`: every entry is removed, so there is no route. */
    method ClearRoute()
      modifies this
      ensures prefs == map[]
      ensures CurrentRoute() == None
    {
      prefs := map[];
    }
  }
}
