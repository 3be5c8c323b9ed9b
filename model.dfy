/**
 * The app's data records: a station with its services, a service with its
 * timetable fields, and an entry of the recent-search history.
 *
 * Coordinates are kept as `real` and never computed with; distances between
 * places are supplied from outside as whole metres (see `DistanceFrom`).
 */
module Model {
  import opened Wrappers
  import opened Strings

  /**
   * The integer behind a timetable field that is stored as text: the parsed
   * value, or 0 when there is no text or it is not an `Int`.
   */
  function IntOrZero(text: Option<string>): (r: Int32)
    ensures text.Some? && ParseInt(text.value).Some? ==> r == ParseInt(text.value).value
    ensures text.None? || ParseInt(text.value).None? ==> r == 0
  {
    match text
    case None => 0
    case Some(s) => ParseInt(s).GetOr(0)
  }

  /** Writing an `Int` as its text and reading it back gives that `Int`. */
  lemma IntOrZeroOfIntToString(v: Int32)
    ensures IntOrZero(Some(IntToString(v))) == v
  {
    ParseIntOfIntToString(v);
  }

  /**
   * One service (a train line or a bus route) at a station. The timetable
   * fields `frequencyText` and `offsetText` hold the text the database
   * delivers; `FrequencyMin` and `OffsetMin` read them as integers.
   */
  class StationService {
    const id: string
    const name: string
    const serviceType: string
    const direction: string
    const firstTrain: string
    const lastTrain: string
    var frequencyText: Option<string>
    var offsetText: Option<string>

    constructor (id: string, name: string, serviceType: string, direction: string,
                 firstTrain: string, lastTrain: string,
                 frequencyText: Option<string>, offsetText: Option<string>)
      ensures this.id == id && this.name == name && this.serviceType == serviceType
      ensures this.direction == direction && this.firstTrain == firstTrain && this.lastTrain == lastTrain
      ensures this.frequencyText == frequencyText && this.offsetText == offsetText
    {
      this.id, this.name, this.serviceType := id, name, serviceType;
      this.direction, this.firstTrain, this.lastTrain := direction, firstTrain, lastTrain;
      this.frequencyText, this.offsetText := frequencyText, offsetText;
    }

    /** A record with every field at its default: empty texts and timetable fields "0". */
    constructor Default()
      ensures id == "" && name == "" && serviceType == "" && direction == ""
      ensures firstTrain == "" && lastTrain == ""
      ensures frequencyText == Some("0") && offsetText == Some("0")
      ensures FrequencyMin() == 0 && OffsetMin() == 0
    {
      id, name, serviceType, direction, firstTrain, lastTrain := "", "", "", "", "", "";
      frequencyText, offsetText := Some("0"), Some("0");
      IntOrZeroOfIntToString(0);
    }

    /** Minutes between departures. */
    function FrequencyMin(): Int32
      reads this
    {
      IntOrZero(frequencyText)
    }

    /** Minutes from the first departure at the depot to the first one here. */
    function OffsetMin(): Int32
      reads this
    {
      IntOrZero(offsetText)
    }

    method SetFrequencyMin(v: Int32)
      modifies this`frequencyText
      ensures frequencyText == Some(IntToString(v))
      ensures FrequencyMin() == v
    {
      frequencyText := Some(IntToString(v));
      IntOrZeroOfIntToString(v);
    }

    method SetOffsetMin(v: Int32)
      modifies this`offsetText
      ensures offsetText == Some(IntToString(v))
      ensures OffsetMin() == v
    {
      offsetText := Some(IntToString(v));
      IntOrZeroOfIntToString(v);
    }
  }

  /** A station with its position and the services that stop there. */
  datatype Station = Station(name: string, latitude: real, longitude: real, services: seq<StationService>)

  /** An entry of the recent-search history. */
  datatype RecentPlace = RecentPlace(name: string, address: string, lat: real, lng: real)

  /** The distance in metres from a fixed place (the user, or a searched place) to a station. */
  type DistanceFrom = Station -> nat
}
