/**
 * The report screen. Its station spinner lists "Select Station" and then
 * every cached station, whatever line is chosen; a report sent successfully
 * clears the comment and delay fields.
 */
module ReportScreen {
  import opened Wrappers
  import opened Model
  import opened ReportForm

  /** The first entry of the station spinner. */
  const SelectStation := "Select Station"

  /** The names of the stations, in list order. */
  function Names(stations: seq<Station>): (names: seq<string>)
    ensures |names| == |stations|
    ensures forall i :: 0 <= i < |stations| ==> names[i] == stations[i].name
  {
    if stations == [] then [] else [stations[0].name] + Names(stations[1..])
  }

  /** The station spinner's content for a chosen line: the line plays no part. */
  function StationOptions(cache: seq<Station>): (options: seq<string>)
    ensures |options| == |cache| + 1 && options[0] == SelectStation
    ensures forall i :: 0 <= i < |cache| ==> options[i + 1] == cache[i].name
  {
    [SelectStation] + Names(cache)
  }

  /**
   * Leaving the station spinner on its first entry reports the station as
   * "Select Station": the entry is a real item, so the "General" default of
   * the submission never applies once a line was chosen.
   */
  lemma PlaceholderIsReported(cache: seq<Station>, line: string, crowd: CrowdButton,
                              delayInput: string, comment: string)
    requires line != SelectLine
    ensures var options := StationOptions(cache);
            Submission(line, Some(options[0]), crowd, delayInput, comment).value.station == SelectStation
  {
  }

  /** The screen's station cache, station spinner and text fields. */
  class ReportFragment {
    var allStationsCache: seq<Station>
    var stationOptions: seq<string>
    var commentText: string
    var delayText: string

    /** The screen before the stations arrive, with empty fields; the spinner's first content is not modelled. */
    constructor ()
      ensures allStationsCache == [] && stationOptions == [] && commentText == "" && delayText == ""
    {
      allStationsCache := [];
      stationOptions := [];
      commentText := "";
      delayText := "";
    }

    /**
     * The loading started by `setupSpinners`. A failed query reaches it as the
     * empty list, which the repository returns on error; `None` stands for a
     * load that throws past the repository (its coroutine cancelled).
     */
    method LoadStations(fetched: Option<seq<Station>>)
      modifies this`allStationsCache
      ensures allStationsCache == fetched.GetOr(old(allStationsCache))
    {
      if fetched.Some? {
        allStationsCache := fetched.value;
      }
    }

    /** The line spinner's listener: any line but "Select Line" refills the station spinner. */
    method OnLineSelected(position: nat)
      requires position < |Lines|
      modifies this`stationOptions
      ensures position == 0 ==> stationOptions == old(stationOptions)
      ensures position > 0 ==> stationOptions == StationOptions(allStationsCache)
    {
      var selectedLine := Lines[position];
      if selectedLine != SelectLine {
        FilterStationsByLine(selectedLine);
      }
    }

    /** `filterStationsByLine`, whose filter keeps every station. */
    method FilterStationsByLine(line: string)
      modifies this`stationOptions
      ensures stationOptions == StationOptions(allStationsCache)
    {
      var filteredStations := Names(allStationsCache);
      stationOptions := [SelectStation] + filteredStations;
    }

    /**
     * `submitReport` with the repository's answer `success`: the report sent
     * from the current fields, if any, and the fields cleared when it was
     * stored.
     */
    method SubmitReport(line: string, selectedStation: Option<string>, crowd: CrowdButton, success: bool)
      returns (sent: Option<Report>)
      modifies this`commentText, this`delayText
      ensures sent == Submission(line, selectedStation, crowd, old(delayText), old(commentText))
      ensures sent.Some? && success ==> commentText == "" && delayText == ""
      ensures sent.None? || !success ==> commentText == old(commentText) && delayText == old(delayText)
    {
      if line == SelectLine {
        return None;
      }
      var crowdLevel := CrowdLevel(crowd);
      var delay := DelayOrZero(delayText);
      var comment := commentText;
      sent := Some(Report(line, selectedStation.GetOr("General"), crowdLevel, delay, comment));
      if success {
        commentText := "";
        delayText := "";
      }
    }
  }
}
