/**
 * The crowd report form shared by the report screen and the report bottom
 * sheet: the line spinner's entries and what a submission sends. Sending
 * it to the database is not modelled; whether it succeeded is a parameter
 * where the screens react to it.
 */
module ReportForm {
  import opened Wrappers

  /** The line spinner's first entry, which stands for "no line chosen". */
  const SelectLine := "Select Line"

  /** The entries of the line spinner. */
  const Lines: seq<string> := [SelectLine, "MRT Kajang Line", "MRT Putrajaya Line", "Bus T460"]

  /** Which crowd button is checked; `NoButton` covers every other id, including none. */
  datatype CrowdButton = LowButton | MediumButton | HighButton | NoButton

  /** The crowd level sent for the checked button. */
  function CrowdLevel(b: CrowdButton): (level: string)
    ensures level == "Low" || level == "Medium" || level == "High"
    ensures level == "Low" <==> b.LowButton?
    ensures level == "High" <==> b.HighButton?
  {
    match b
    case LowButton => "Low"
    case MediumButton => "Medium"
    case HighButton => "High"
    case NoButton => "Medium"
  }

  /** The delay field's text, or "0" when it is empty (`ifEmpty { "0" }`). */
  function DelayOrZero(text: string): (delay: string)
    ensures delay != ""
    ensures text != "" ==> delay == text
    ensures delay == "0" <==> text == "" || text == "0"
  {
    if text == "" then "0" else text
  }

  /** What is sent to the database. */
  datatype Report = Report(line: string, station: string, crowdLevel: string, delayTime: string, comment: string)

  /**
   * `submitReport` up to the call to the repository: nothing is sent while
   * no line is chosen; otherwise the station spinner's entry ("General"
   * when it has none), the crowd level, the delay and the comment.
   */
  function Submission(line: string, selectedStation: Option<string>, crowd: CrowdButton,
                      delayInput: string, comment: string): (r: Option<Report>)
    ensures r.None? <==> line == SelectLine
  {
    if line == SelectLine then None
    else Some(Report(line, selectedStation.GetOr("General"), CrowdLevel(crowd), DelayOrZero(delayInput), comment))
  }

  /** Every report sent has a crowd level of the three, a non-empty delay and the entered texts. */
  lemma SubmissionFields(line: string, selectedStation: Option<string>, crowd: CrowdButton,
                         delayInput: string, comment: string)
    requires line != SelectLine
    ensures var r := Submission(line, selectedStation, crowd, delayInput, comment).value;
            r.line == line && r.comment == comment &&
            (r.crowdLevel == "Low" || r.crowdLevel == "Medium" || r.crowdLevel == "High") &&
            r.delayTime != "" && (delayInput != "" ==> r.delayTime == delayInput) &&
            (selectedStation.None? ==> r.station == "General") &&
            (selectedStation.Some? ==> r.station == selectedStation.value)
  {
  }
}
