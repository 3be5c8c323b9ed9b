/**
 * The alert list: how one crowd report stored in the database is shown as a
 * card (title, age, message), and the list the adapter holds. The clock is
 * a parameter `now`, in milliseconds.
 */
module Alerts {
  import opened Wrappers
  import opened Strings
  import opened ReportForm

  /** A stored report as the adapter reads it; a field is `None` when absent or not of the expected type (`as?`). */
  datatype AlertRecord = AlertRecord(crowdLevel: Option<string>, station: Option<string>, comment: Option<string>,
                                     delayTime: Option<string>, timestamp: Option<int>)

  /** The three texts of a card. */
  datatype AlertCard = AlertCard(title: string, time: string, message: string)

  const MillisPerMinute: nat := 1000 * 60

  /** The text that opens the delay sentence, after the comment. */
  const DelayIntro := "\n" + "\n(Estimate Delay Time: +"

  /** The text that closes the delay sentence. */
  const DelayOutro := " mins)"

  /** The station shown in the title: "Whole Line" for any station naming "General". */
  function DisplayStation(station: string): string {
    if Contains(station, "General") then "Whole Line" else station
  }

  /** The card's title: a warning sign, the crowd level and the station shown. */
  function Title(crowdLevel: string, station: string): string {
    "\U{26A0}\U{FE0F} " + crowdLevel + " (" + DisplayStation(station) + ")"
  }

  /** `Long` division by a positive divisor, which truncates toward zero. */
  function TruncDiv(a: int, b: nat): (q: int)
    requires b > 0
    ensures a >= 0 ==> q * b <= a < (q + 1) * b
    ensures a < 0 ==> (q - 1) * b < a <= q * b
  {
    if a >= 0 then a / b else -((-a) / b)
  }

  /** The card's age text for a report `diffMillis` milliseconds old. */
  function TimeAgo(diffMillis: int): string {
    var minsAgo := TruncDiv(diffMillis, MillisPerMinute);
    if minsAgo < 1 then "Now" else IntToString(minsAgo) + "m ago"
  }

  /** The age reads "Now" exactly while the report is less than a whole minute old, or from the future. */
  lemma TimeAgoNow(diffMillis: int)
    ensures TimeAgo(diffMillis) == "Now" <==> diffMillis < MillisPerMinute
  {
    var minsAgo := TruncDiv(diffMillis, MillisPerMinute);
    if minsAgo >= 1 {
      var t := IntToString(minsAgo) + "m ago";
      assert t[|t| - 1] == 'o';
      assert "Now"[2] == 'w';
    }
  }

  /** Otherwise it gives the number of whole minutes elapsed, in decimal. */
  lemma TimeAgoMinutes(diffMillis: int, m: nat)
    requires m >= 1 && m * MillisPerMinute <= diffMillis < (m + 1) * MillisPerMinute
    ensures TimeAgo(diffMillis) == NatToString(m) + "m ago"
  {
    var q := TruncDiv(diffMillis, MillisPerMinute);
    assert q * MillisPerMinute <= diffMillis < (q + 1) * MillisPerMinute;
    assert q == m;
  }

  /** The card's message: the comment, followed by the delay sentence unless the delay is "0". */
  function Message(comment: string, delay: string): string {
    if delay != "0" then comment + "\n" + "\n(Estimate Delay Time: +" + delay + " mins)" else comment
  }

  /** The message starts with the comment, and the delay can be read back from it whenever it is shown. */
  lemma MessageReadBack(comment: string, delay: string)
    ensures var m := Message(comment, delay);
            |comment| <= |m| && m[..|comment|] == comment &&
            (delay == "0" <==> m == comment) &&
            (delay != "0" ==> |m| == |comment| + |DelayIntro| + |delay| + |DelayOutro| &&
                              m[|comment|..|comment| + |DelayIntro|] == DelayIntro &&
                              m[|comment| + |DelayIntro|..|m| - |DelayOutro|] == delay &&
                              m[|m| - |DelayOutro|..] == DelayOutro)
  {
    var m := Message(comment, delay);
    if delay != "0" {
      assert m == comment + DelayIntro + delay + DelayOutro;
      var a := |comment|;
      var b := a + |DelayIntro|;
      var c := b + |delay|;
      assert m[..a] == comment;
      assert m[a..b] == DelayIntro;
      assert m[b..c] == delay;
      assert m[c..] == DelayOutro;
      assert |m| > |comment|;
    }
  }

  /** `onBindViewHolder` for one record, with the defaults for the fields it lacks. */
  function CardFor(record: AlertRecord, now: int): (card: AlertCard)
    ensures card.title == Title(record.crowdLevel.GetOr("Alert"), record.station.GetOr("General"))
    ensures record.timestamp.None? ==> card.time == "Now"
    ensures record.timestamp.Some? ==> card.time == TimeAgo(now - record.timestamp.value)
    ensures card.message == Message(record.comment.GetOr(""), record.delayTime.GetOr("0"))
  {
    var crowdLevel := record.crowdLevel.GetOr("Alert");
    var station := record.station.GetOr("General");
    var comment := record.comment.GetOr("");
    var delay := record.delayTime.GetOr("0");
    var timestamp := record.timestamp.GetOr(now);
    assert TimeAgo(0) == "Now";
    AlertCard(Title(crowdLevel, station), TimeAgo(now - timestamp), Message(comment, delay))
  }

  /** A record without station, comment or delay shows the whole line and an empty message. */
  lemma BareRecordCard(crowdLevel: Option<string>, timestamp: Option<int>, now: int)
    ensures var card := CardFor(AlertRecord(crowdLevel, None, None, None, timestamp), now);
            card.title == "\U{26A0}\U{FE0F} " + crowdLevel.GetOr("Alert") + " (Whole Line)" &&
            card.message == ""
  {
    WholeLineShown();
  }

  /** Both the default station and the bottom sheet's whole-line entry are shown as "Whole Line". */
  lemma WholeLineShown()
    ensures DisplayStation("General") == "Whole Line"
    ensures DisplayStation("General (Whole Line)") == "Whole Line"
  {
    assert MatchesAt("General", "General", 0);
    assert MatchesAt("General (Whole Line)", "General", 0);
  }

  /**
   * A report sent from the report bottom sheet for the whole line (or with
   * no station entry) is shown as a whole-line alert with its crowd level,
   * and its comment alone when no delay was entered.
   */
  lemma WholeLineReportCard(line: string, selectedStation: Option<string>, crowd: CrowdButton,
                            comment: string, timestamp: int, now: int)
    requires line != SelectLine
    requires selectedStation == None || selectedStation == Some("General (Whole Line)")
    ensures var r := Submission(line, selectedStation, crowd, "", comment).value;
            var card := CardFor(AlertRecord(Some(r.crowdLevel), Some(r.station), Some(r.comment),
                                            Some(r.delayTime), Some(timestamp)), now);
            card.title == "\U{26A0}\U{FE0F} " + CrowdLevel(crowd) + " (Whole Line)" &&
            card.message == comment
  {
    WholeLineShown();
    var r := Submission(line, selectedStation, crowd, "", comment).value;
    assert r.station == "General" || r.station == "General (Whole Line)";
    assert r.crowdLevel == CrowdLevel(crowd) && r.delayTime == "0" && r.comment == comment;
    assert Title(r.crowdLevel, r.station) == "\U{26A0}\U{FE0F} " + CrowdLevel(crowd) + " (Whole Line)";
    assert Message(r.comment, r.delayTime) == comment;
  }

  /** The adapter's list of records. */
  class AlertAdapter {
    var alerts: seq<AlertRecord>

    constructor (alerts: seq<AlertRecord>)
      ensures this.alerts == alerts
    {
      this.alerts := alerts;
    }

    /** `getItemCount`: one card per record. */
    function ItemCount(): (n: nat)
      reads this
      ensures n == |alerts|
    {
      |alerts|
    }

    /** `onBindViewHolder`: the card at a position the list has. */
    method BindCard(position: nat, now: int) returns (card: AlertCard)
      requires position < |alerts|
      ensures card == CardFor(alerts[position], now)
    {
      var report := alerts[position];
      card := CardFor(report, now);
    }

    /** `updateList`: the new records replace the old ones. */
    method UpdateList(newAlerts: seq<AlertRecord>)
      modifies this
      ensures alerts == newAlerts && ItemCount() == |newAlerts|
    {
      alerts := newAlerts;
    }
  }
}
