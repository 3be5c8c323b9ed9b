/**
 * The report bottom sheet. Choosing a line fills the station spinner with
 * "General (Whole Line)" and, sorted by name, the stations having a service
 * whose name or type contains the line's keyword; choosing "Select Line"
 * puts back the placeholder.
 */
module ReportSheet {
  import opened Wrappers
  import opened Strings
  import opened Model
  import opened ReportForm

  /** The first entry of a filled station spinner. */
  const WholeLine := "General (Whole Line)"

  /** The station spinner's content while no line is chosen. */
  const NoLineYet: seq<string> := ["Select Line First"]

  /** The text a line's stations are recognised by, or "" for a line without one. */
  function LineKeyword(line: string): (keyword: string)
    ensures line == "MRT Kajang Line" ==> keyword == "Kajang"
    ensures line == "MRT Putrajaya Line" ==> keyword == "Putrajaya"
    ensures line == "Bus T460" ==> keyword == "T460"
    ensures keyword == "" <==> line !in Lines[1..]
  {
    if line == "MRT Kajang Line" then "Kajang"
    else if line == "MRT Putrajaya Line" then "Putrajaya"
    else if line == "Bus T460" then "T460"
    else ""
  }

  /** Some service of the station has the keyword in its name or its type, ignoring case. */
  predicate ServesKeyword(station: Station, keyword: string) {
    exists i :: 0 <= i < |station.services| &&
      (ContainsIgnoreCase(station.services[i].name, keyword) ||
       ContainsIgnoreCase(station.services[i].serviceType, keyword))
  }

  /** The names of the stations that serve the keyword, in list order (`filter`, `map`). */
  function MatchingNames(stations: seq<Station>, keyword: string): (names: seq<string>)
    ensures |names| <= |stations|
  {
    if stations == [] then []
    else (if ServesKeyword(stations[0], keyword) then [stations[0].name] else []) +
         MatchingNames(stations[1..], keyword)
  }

  /** A name is listed exactly when some station of that name serves the keyword. */
  lemma {:induction false} MatchingNamesExactly(stations: seq<Station>, keyword: string, name: string)
    ensures name in MatchingNames(stations, keyword) <==>
            exists i :: 0 <= i < |stations| && stations[i].name == name && ServesKeyword(stations[i], keyword)
    decreases |stations|
  {
    if stations != [] {
      var rest := stations[1..];
      MatchingNamesExactly(rest, keyword, name);
      if exists i :: 0 <= i < |rest| && rest[i].name == name && ServesKeyword(rest[i], keyword) {
        var i :| 0 <= i < |rest| && rest[i].name == name && ServesKeyword(rest[i], keyword);
        assert stations[i + 1] == rest[i];
      }
      if exists i :: 0 <= i < |stations| && stations[i].name == name && ServesKeyword(stations[i], keyword) {
        var i :| 0 <= i < |stations| && stations[i].name == name && ServesKeyword(stations[i], keyword);
        if i > 0 {
          assert rest[i - 1] == stations[i];
        }
      }
    }
  }

  /**
   * The new content of the station spinner for `line`, or `None` where
   * `filterStationsByLine` returns early: nothing cached, or no keyword.
   */
  function StationOptionsFor(cache: seq<Station>, line: string): (r: Option<seq<string>>)
    ensures r.None? <==> cache == [] || LineKeyword(line) == ""
    ensures r.Some? ==> |r.value| >= 1 && r.value[0] == WholeLine && SortedStrings(r.value[1..]) &&
                        multiset(r.value[1..]) == multiset(MatchingNames(cache, LineKeyword(line)))
  {
    if cache == [] then None
    else
      var keyword := LineKeyword(line);
      if keyword == "" then None
      else
        var r := [WholeLine] + SortStrings(MatchingNames(cache, keyword));
        assert r[1..] == SortStrings(MatchingNames(cache, keyword));
        Some(r)
  }

  /**
   * Once filled, the spinner lists, after "General (Whole Line)", exactly the
   * names of the cached stations that serve the line.
   */
  lemma StationOptionsListLine(cache: seq<Station>, line: string, name: string)
    requires cache != [] && LineKeyword(line) != ""
    ensures var options := StationOptionsFor(cache, line).value;
            name in options[1..] <==>
            exists i :: 0 <= i < |cache| && cache[i].name == name && ServesKeyword(cache[i], LineKeyword(line))
  {
    var options := StationOptionsFor(cache, line).value;
    var names := MatchingNames(cache, LineKeyword(line));
    MatchingNamesExactly(cache, LineKeyword(line), name);
    assert name in options[1..] <==> name in multiset(options[1..]);
    assert name in names <==> name in multiset(names);
  }

  /** The bottom sheet's station cache and station spinner. */
  class ReportBottomSheet {
    var allStationsCache: seq<Station>
    var stationOptions: seq<string>

    /** A sheet before the stations arrive; the spinner's first content is not modelled. */
    constructor ()
      ensures allStationsCache == [] && stationOptions == []
    {
      allStationsCache := [];
      stationOptions := [];
    }

    /** The line spinner's listener: a line filters the stations, "Select Line" resets them. */
    method OnLineSelected(position: nat)
      requires position < |Lines|
      modifies this`stationOptions
      ensures position == 0 ==> stationOptions == NoLineYet
      ensures position > 0 ==>
                stationOptions == StationOptionsFor(allStationsCache, Lines[position]).GetOr(old(stationOptions))
    {
      var selectedLine := Lines[position];
      if selectedLine != SelectLine {
        FilterStationsByLine(selectedLine);
      } else {
        ResetStationSpinner();
      }
    }

    /** `filterStationsByLine`. */
    method FilterStationsByLine(selectedLine: string)
      modifies this`stationOptions
      ensures stationOptions == StationOptionsFor(allStationsCache, selectedLine).GetOr(old(stationOptions))
    {
      if allStationsCache == [] {
        return;
      }
      var keyword := LineKeyword(selectedLine);
      if keyword == "" {
        return;
      }
      var filteredNames := SortStrings(MatchingNames(allStationsCache, keyword));
      stationOptions := [WholeLine] + filteredNames;
    }

    /** `resetStationSpinner`. */
    method ResetStationSpinner()
      modifies this`stationOptions
      ensures stationOptions == NoLineYet
    {
      stationOptions := NoLineYet;
    }

    /**
     * `fetchAllStations`, given what the repository delivers and the line
     * chosen meanwhile. The repository catches its own errors and returns the
     * empty list, so a failed query is `Some([])`; `None` stands for a load
     * that throws past it (its coroutine cancelled).
     */
    method FetchAllStations(fetched: Option<seq<Station>>, currentLine: string)
      modifies this
      ensures fetched.None? ==> allStationsCache == old(allStationsCache) && stationOptions == old(stationOptions)
      ensures fetched.Some? ==> allStationsCache == fetched.value
      ensures fetched.Some? && currentLine != SelectLine ==>
                stationOptions == StationOptionsFor(fetched.value, currentLine).GetOr(old(stationOptions))
      ensures currentLine == SelectLine ==> stationOptions == old(stationOptions)
    {
      if fetched.Some? {
        allStationsCache := fetched.value;
        if currentLine != SelectLine {
          FilterStationsByLine(currentLine);
        }
      }
    }

    /** `submitReport`: the report sent, if any; the sheet closes on success and keeps no state. */
    method SubmitReport(line: string, selectedStation: Option<string>, crowd: CrowdButton,
                        delayInput: string, comment: string)
      returns (sent: Option<Report>)
      ensures sent == Submission(line, selectedStation, crowd, delayInput, comment)
      ensures sent.None? <==> line == SelectLine
    {
      if line == SelectLine {
        return None;
      }
      var crowdLevel := CrowdLevel(crowd);
      var delay := DelayOrZero(delayInput);
      sent := Some(Report(line, selectedStation.GetOr("General"), crowdLevel, delay, comment));
    }
  }
}
