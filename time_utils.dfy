/**
 * Next departures from a static timetable (`TimeUtils`).
 *
 * A service runs from a first departure at the depot ("HH:mm"), every
 * `freq` minutes; a station sees each departure `offset` minutes later.
 * Times of day are minutes after midnight, and adding minutes wraps at
 * midnight as `LocalTime.plusMinutes` does. The current time is a
 * parameter, in nanoseconds after midnight (the precision of
 * `LocalTime.now`).
 */
module TimeUtils {
  import opened Wrappers
  import opened Strings

  const MinutesPerDay: int := 1440
  const NanosPerMinute: int := 60_000_000_000
  const NanosPerDay: int := 86_400_000_000_000

  /** Number of timetable slots examined. */
  const Slots: nat := 100
  /** Number of departures reported. */
  const Wanted: nat := 3

  /** A time of day with no seconds, such as one parsed from "HH:mm". */
  type MinuteOfDay = m: int | 0 <= m < MinutesPerDay

  /** The current time of day, `LocalTime.now`. */
  type NanoOfDay = n: int | 0 <= n < NanosPerDay

  // ---------------------------------------------------------------------------
  // "HH:mm"

  /**
   * `LocalTime.parse(s, ofPattern("HH:mm"))`, its exception as `None`: two
   * ASCII digits, a colon, two ASCII digits, hour at most 23 and minute at
   * most 59. The default (smart) resolver also reads "24:00" as midnight.
   */
  function ParseHHmm(s: string): Option<MinuteOfDay> {
    if |s| == 5 && IsDigit(s[0]) && IsDigit(s[1]) && s[2] == ':' && IsDigit(s[3]) && IsDigit(s[4]) then
      var h := DigitValue(s[0]) * 10 + DigitValue(s[1]);
      var m := DigitValue(s[3]) * 10 + DigitValue(s[4]);
      if h < 24 && m < 60 then Some(h * 60 + m)
      else if h == 24 && m == 0 then Some(0)
      else None
    else None
  }

  /** The "HH:mm" text of a time of day. */
  function FormatHHmm(t: MinuteOfDay): (s: string)
    ensures |s| == 5
  {
    var h, m := t / 60, t % 60;
    [DigitChar(h / 10), DigitChar(h % 10), ':', DigitChar(m / 10), DigitChar(m % 10)]
  }

  /** Every time of day survives being written as "HH:mm" and parsed back. */
  lemma ParseFormatHHmm(t: MinuteOfDay)
    ensures ParseHHmm(FormatHHmm(t)) == Some(t)
  {
    var s := FormatHHmm(t);
    assert DigitValue(s[0]) * 10 + DigitValue(s[1]) == t / 60;
    assert DigitValue(s[3]) * 10 + DigitValue(s[4]) == t % 60;
  }

  // ---------------------------------------------------------------------------
  // Clock arithmetic

  /** `LocalTime.plusMinutes`: the time `minutes` later, wrapping at midnight (or earlier, if negative). */
  function PlusMinutes(t: MinuteOfDay, minutes: int): MinuteOfDay {
    (t + minutes) % MinutesPerDay
  }

  /** Adding `a` minutes and then `b` minutes is adding `a + b` minutes. */
  lemma PlusMinutesAdd(t: MinuteOfDay, a: int, b: int)
    ensures PlusMinutes(PlusMinutes(t, a), b) == PlusMinutes(t, a + b)
  {
    var q := (t + a) / MinutesPerDay;
    assert t + a == q * MinutesPerDay + PlusMinutes(t, a);
    assert PlusMinutes(t, a) + b == (t + a + b) - q * MinutesPerDay;
    ModShift(t + a + b, q);
  }

  lemma ModShift(x: int, q: int)
    ensures (x - q * MinutesPerDay) % MinutesPerDay == x % MinutesPerDay
  {
    var y := x - q * MinutesPerDay;
    var qy, qx := y / MinutesPerDay, x / MinutesPerDay;
    assert y == qy * MinutesPerDay + y % MinutesPerDay;
    assert x == qx * MinutesPerDay + x % MinutesPerDay;
    assert (qy + q - qx) * MinutesPerDay == x % MinutesPerDay - y % MinutesPerDay;
  }

  /** The k-th departure (from 0) at the station whose first departure is `start`. */
  function Candidate(start: MinuteOfDay, freq: int, k: nat): MinuteOfDay {
    PlusMinutes(start, k * freq)
  }

  /** The k-th departure is the station's first departure plus k headways, modulo a day. */
  lemma CandidateFormula(depot: MinuteOfDay, offset: int, freq: int, k: nat)
    ensures Candidate(PlusMinutes(depot, offset), freq, k) == (depot + offset + k * freq) % MinutesPerDay
  {
    PlusMinutesAdd(depot, offset, k * freq);
  }

  /** Each departure is the previous one plus one headway. */
  lemma CandidateNext(start: MinuteOfDay, freq: int, k: nat)
    ensures Candidate(start, freq, k + 1) == PlusMinutes(Candidate(start, freq, k), freq)
  {
    PlusMinutesAdd(start, k * freq, freq);
    assert k * freq + freq == (k + 1) * freq;
  }

  /** `c.isAfter(now) || c == now`. */
  predicate NotBefore(c: MinuteOfDay, now: NanoOfDay) {
    c * NanosPerMinute >= now
  }

  /** `ChronoUnit.MINUTES.between(now, c)`: whole minutes from `now` to `c`, rounded down. */
  function MinutesBetween(now: NanoOfDay, c: MinuteOfDay): int
    requires NotBefore(c, now)
  {
    (c * NanosPerMinute - now) / NanosPerMinute
  }

  /**
   * The minutes until a departure not before `now` lie in [0, 1439]; they
   * are the departure minute less the current minute, counting a started
   * minute as gone.
   */
  lemma MinutesBetweenValue(now: NanoOfDay, c: MinuteOfDay)
    requires NotBefore(c, now)
    ensures 0 <= MinutesBetween(now, c) < MinutesPerDay
    ensures MinutesBetween(now, c) == c - (now + NanosPerMinute - 1) / NanosPerMinute
  {
    var d := c * NanosPerMinute - now;
    var q, r := now / NanosPerMinute, now % NanosPerMinute;
    assert now == q * NanosPerMinute + r;
    if r == 0 {
      assert d == (c - q) * NanosPerMinute;
      assert (now + NanosPerMinute - 1) / NanosPerMinute == q;
    } else {
      assert d == (c - q - 1) * NanosPerMinute + (NanosPerMinute - r);
      assert (now + NanosPerMinute - 1) / NanosPerMinute == q + 1;
    }
  }

  // ---------------------------------------------------------------------------
  // The next three departures

  /**
   * Minutes until each of the first `n` departures that is not before
   * `now`, in timetable order.
   */
  function Upcoming(start: MinuteOfDay, freq: int, now: NanoOfDay, n: nat): seq<int> {
    if n == 0 then []
    else
      var c := Candidate(start, freq, n - 1);
      Upcoming(start, freq, now, n - 1) + (if NotBefore(c, now) then [MinutesBetween(now, c)] else [])
  }

  function TakeAtMost(s: seq<int>, n: nat): (r: seq<int>)
    ensures |r| <= n && r <= s
  {
    if |s| <= n then s else s[..n]
  }

  /**
   * `getNextThreeTrains`: no text, empty text or a headway that is not
   * positive give nothing, and so does text that is not "HH:mm"; otherwise
   * the first three departures among the first hundred that are not before
   * `now`.
   */
  function NextThreeTrains(firstTrain: Option<string>, freq: Int32, offset: Int32, now: NanoOfDay): seq<int> {
    if firstTrain.None? || firstTrain.value == "" || freq <= 0 then []
    else
      match ParseHHmm(firstTrain.value)
      case None => []
      case Some(depot) => TakeAtMost(Upcoming(PlusMinutes(depot, offset), freq, now, Slots), Wanted)
  }

  /** Looking at more slots only appends departures. */
  lemma {:induction false} UpcomingPrefix(start: MinuteOfDay, freq: int, now: NanoOfDay, m: nat, n: nat)
    requires m <= n
    ensures Upcoming(start, freq, now, m) <= Upcoming(start, freq, now, n)
    decreases n
  {
    if m < n {
      UpcomingPrefix(start, freq, now, m, n - 1);
    }
  }

  /** Every reported value lies in [0, 1439]. */
  lemma {:induction false} UpcomingBounds(start: MinuteOfDay, freq: int, now: NanoOfDay, n: nat)
    ensures |Upcoming(start, freq, now, n)| <= n
    ensures forall j :: 0 <= j < |Upcoming(start, freq, now, n)| ==>
      0 <= Upcoming(start, freq, now, n)[j] < MinutesPerDay
  {
    if n > 0 {
      UpcomingBounds(start, freq, now, n - 1);
      var c := Candidate(start, freq, n - 1);
      if NotBefore(c, now) {
        MinutesBetweenValue(now, c);
      }
    }
  }

  /** The slots, among the first `n`, whose departure is not before `now`, in order. */
  function KeptSlots(start: MinuteOfDay, freq: int, now: NanoOfDay, n: nat): seq<nat> {
    if n == 0 then []
    else KeptSlots(start, freq, now, n - 1) + (if NotBefore(Candidate(start, freq, n - 1), now) then [n - 1] else [])
  }

  /**
   * The values among the first `n` slots are exactly the minutes until the
   * departures of the kept slots: those slots k < n whose departure is not
   * before `now`, every one of them, each once and in increasing order.
   */
  lemma {:induction false} UpcomingFromKeptSlots(start: MinuteOfDay, freq: int, now: NanoOfDay, n: nat)
    ensures var u, ks := Upcoming(start, freq, now, n), KeptSlots(start, freq, now, n);
      && |u| == |ks|
      && (forall j :: 0 <= j < |ks| ==>
            ks[j] < n && NotBefore(Candidate(start, freq, ks[j]), now) &&
            u[j] == MinutesBetween(now, Candidate(start, freq, ks[j])))
      && (forall i, j :: 0 <= i < j < |ks| ==> ks[i] < ks[j])
      && (forall k :: 0 <= k < n && NotBefore(Candidate(start, freq, k), now) ==> k in ks)
  {
    if n > 0 {
      UpcomingFromKeptSlots(start, freq, now, n - 1);
    }
  }

  /**
   * The next-departure list has at most three entries, each in [0, 1439],
   * and is empty when there is no usable first departure or headway.
   */
  lemma NextThreeTrainsShape(firstTrain: Option<string>, freq: Int32, offset: Int32, now: NanoOfDay)
    ensures |NextThreeTrains(firstTrain, freq, offset, now)| <= Wanted
    ensures forall j :: 0 <= j < |NextThreeTrains(firstTrain, freq, offset, now)| ==>
      0 <= NextThreeTrains(firstTrain, freq, offset, now)[j] < MinutesPerDay
    ensures firstTrain.None? || firstTrain.value == "" || freq <= 0 ==> NextThreeTrains(firstTrain, freq, offset, now) == []
    ensures firstTrain.Some? && ParseHHmm(firstTrain.value).None? ==> NextThreeTrains(firstTrain, freq, offset, now) == []
  {
    if firstTrain.Some? && firstTrain.value != "" && freq > 0 && ParseHHmm(firstTrain.value).Some? {
      UpcomingBounds(PlusMinutes(ParseHHmm(firstTrain.value).value, offset), freq, now, Slots);
    }
  }

  /**
   * `getNextThreeTrains` as the app runs it: a loop over one hundred
   * timetable slots that advances the departure time by the headway and
   * stops once three departures are found.
   */
  method GetNextThreeTrains(firstTrain: Option<string>, freq: Int32, offset: Int32, now: NanoOfDay)
    returns (trains: seq<int>)
    ensures trains == NextThreeTrains(firstTrain, freq, offset, now)
  {
    if firstTrain.None? || |firstTrain.value| == 0 || freq <= 0 {
      return [];
    }
    var depot := ParseHHmm(firstTrain.value);
    if depot.None? {
      return [];
    }
    var current := PlusMinutes(depot.value, offset);
    ghost var start := current;
    var upcoming: seq<int> := [];
    for i := 0 to Slots
      invariant current == Candidate(start, freq, i)
      invariant upcoming == Upcoming(start, freq, now, i)
      invariant |upcoming| < Wanted
    {
      if NotBefore(current, now) {
        upcoming := upcoming + [MinutesBetween(now, current)];
        if |upcoming| >= Wanted {
          UpcomingPrefix(start, freq, now, i + 1, Slots);
          break;
        }
      }
      CandidateNext(start, freq, i);
      current := PlusMinutes(current, freq);
    }
    return upcoming;
  }

  /** `getMinutesUntilNextTrain`, as a value: the first of the next three departures, or -1. */
  function NextTrainMinutes(firstTrain: Option<string>, freq: Int32, offset: Int32, now: NanoOfDay): int {
    var trains := NextThreeTrains(firstTrain, freq, offset, now);
    if trains != [] then trains[0] else -1
  }

  /**
   * `getMinutesUntilNextTrain`: the first entry of `getNextThreeTrains`, or
   * -1 when that list is empty; otherwise a value in [0, 1439].
   */
  method GetMinutesUntilNextTrain(firstTrain: Option<string>, freq: Int32, offset: Int32, now: NanoOfDay)
    returns (minutes: int)
    ensures minutes == NextTrainMinutes(firstTrain, freq, offset, now)
    ensures minutes == -1 <==> NextThreeTrains(firstTrain, freq, offset, now) == []
    ensures -1 <= minutes < MinutesPerDay
  {
    var trains := GetNextThreeTrains(firstTrain, freq, offset, now);
    NextThreeTrainsShape(firstTrain, freq, offset, now);
    minutes := if |trains| > 0 then trains[0] else -1;
  }

  /**
   * The list is in timetable order, not in order of closeness: for a last
   * departure at 22:00 with an hourly headway, at 00:30 the list is 21h30m,
   * 22h30m, then 30 minutes, and the "next" train reported is the one in
   * 21h30m.
   */
  lemma NextThreeTrainsNotSoonestFirst()
    ensures NextThreeTrains(Some("22:00"), 60, 0, 30 * NanosPerMinute) == [1290, 1350, 30]
    ensures NextTrainMinutes(Some("22:00"), 60, 0, 30 * NanosPerMinute) == 1290
  {
    assert ParseHHmm("22:00") == Some(1320);
    var start := PlusMinutes(1320, 0);
    var now := 30 * NanosPerMinute;
    assert Candidate(start, 60, 0) == 1320;
    assert Candidate(start, 60, 1) == 1380;
    assert Candidate(start, 60, 2) == 0;
    assert Candidate(start, 60, 3) == 60;
    assert Upcoming(start, 60, now, 1) == [1290];
    assert Upcoming(start, 60, now, 2) == [1290, 1350];
    assert Upcoming(start, 60, now, 3) == [1290, 1350];
    assert Upcoming(start, 60, now, 4) == [1290, 1350, 30];
    UpcomingPrefix(start, 60, now, 4, Slots);
  }

  // ---------------------------------------------------------------------------
  // Display

  /**
   * `formatTimeDisplay`: "--" for a negative value (no departure), "Now"
   * for 0, "{h}h {m}m" from an hour on, and "{m} min" otherwise.
   */
  function FormatTimeDisplay(minutes: int): string {
    if minutes < 0 then "--"
    else if minutes == 0 then "Now"
    else if minutes >= 60 then IntToString(minutes / 60) + "h " + IntToString(minutes % 60) + "m"
    else IntToString(minutes) + " min"
  }

  /** A negative value shows "--", and no other value does. */
  lemma FormatTimeDisplayNoDeparture(minutes: int)
    ensures FormatTimeDisplay(minutes) == "--" <==> minutes < 0
  {
    if minutes > 0 {
      var s := FormatTimeDisplay(minutes);
      var n := if minutes >= 60 then minutes / 60 else minutes;
      assert s[0] == NatToString(n)[0];
      assert IsDigit(s[0]);
    }
  }

  /** A positive waiting time is shown starting with a digit. */
  lemma FormatTimeDisplayStartsWithDigit(n: nat)
    requires n > 0
    ensures IsDigit(FormatTimeDisplay(n)[0])
  {
    var d := if n >= 60 then n / 60 else n;
    assert FormatTimeDisplay(n)[0] == NatToString(d)[0];
  }

  /**
   * Under an hour, the shown text ends in " min"; from an hour on, in a
   * digit followed by "m". So the last character alone tells them apart.
   */
  lemma FormatTimeDisplaySuffix(n: nat)
    requires n > 0
    ensures FormatTimeDisplay(n)[|FormatTimeDisplay(n)| - 1] == if n < 60 then 'n' else 'm'
    ensures n < 60 ==> |FormatTimeDisplay(n)| > 4 &&
                       FormatTimeDisplay(n)[|FormatTimeDisplay(n)| - 4..] == " min"
    ensures n >= 60 ==> IsDigit(FormatTimeDisplay(n)[|FormatTimeDisplay(n)| - 2])
  {
    var t := FormatTimeDisplay(n);
    if n < 60 {
      assert t == NatToString(n) + " min";
      assert t[|t| - 4..] == " min";
    } else {
      FormatHoursShape(n);
      var m := NatToString(n % 60);
      assert t[|t| - 2] == m[|m| - 1];
    }
  }

  lemma FormatHoursShape(n: nat)
    requires n >= 60
    ensures FormatTimeDisplay(n) == NatToString(n / 60) + ("h " + (NatToString(n % 60) + "m"))
  {
    var h, m := n / 60, n % 60;
    assert FormatTimeDisplay(n) == IntToString(h) + "h " + IntToString(m) + "m";
    assert IntToString(h) == NatToString(h);
    assert IntToString(m) == NatToString(m);
  }

  lemma FormatHoursInjective(a: nat, b: nat)
    requires a >= 60 && b >= 60 && FormatTimeDisplay(a) == FormatTimeDisplay(b)
    ensures a == b
  {
    var ha, hb := NatToString(a / 60), NatToString(b / 60);
    var ma, mb := NatToString(a % 60), NatToString(b % 60);
    FormatHoursShape(a);
    FormatHoursShape(b);
    DigitsPrefixUnique(ha, "h " + (ma + "m"), hb, "h " + (mb + "m"));
    assert ma + "m" == ("h " + (ma + "m"))[2..] == ("h " + (mb + "m"))[2..] == mb + "m";
    DigitsPrefixUnique(ma, "m", mb, "m");
    IntToStringInjective(a / 60, b / 60);
    IntToStringInjective(a % 60, b % 60);
  }

  lemma FormatMinutesInjective(a: nat, b: nat)
    requires 0 < a < 60 && 0 < b < 60 && FormatTimeDisplay(a) == FormatTimeDisplay(b)
    ensures a == b
  {
    DigitsPrefixUnique(NatToString(a), " min", NatToString(b), " min");
    IntToStringInjective(a, b);
  }

  /** Different waiting times (zero or more minutes) are shown differently. */
  lemma FormatTimeDisplayInjective(a: nat, b: nat)
    requires FormatTimeDisplay(a) == FormatTimeDisplay(b)
    ensures a == b
  {
    if a == 0 && b > 0 {
      FormatTimeDisplayStartsWithDigit(b);
    } else if b == 0 && a > 0 {
      FormatTimeDisplayStartsWithDigit(a);
    } else if a > 0 && b > 0 {
      if a < 60 && b < 60 {
        FormatMinutesInjective(a, b);
      } else if a >= 60 && b >= 60 {
        FormatHoursInjective(a, b);
      } else {
        FormatTimeDisplaySuffix(a);
        FormatTimeDisplaySuffix(b);
      }
    }
  }
}
