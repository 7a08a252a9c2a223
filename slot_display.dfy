/** How the availability views show a proposed slot: the 12-hour clock text
    of an `HH:MM` time, the id that joins a date and that text, and the
    colour bands of an availability percentage. The add-in's availability
    view (whattime_example/components/simplified-outlook-addin.tsx) and the
    compact availability view
    (whattime_example/components/compact-availability-view.tsx) hold the
    same copy of each; the e-mail preview's copy differs in its defaults. */
module SlotDisplay {
  import opened Wrappers
  import opened JsStrings

  /** `hour % 12 || 12` with JavaScript's truncating `%`. */
  function Hour12(hour: int): (h: int)
    ensures 0 <= hour ==> 1 <= h <= 12 && h % 12 == hour % 12
    ensures hour % 12 == 0 ==> h == 12
  {
    var r := JsRem(hour, 12);
    if r == 0 then 12 else r
  }

  /** `hour >= 12 ? "PM" : "AM"`, where `NaN` (`None`) compares false. */
  function Meridiem(hour: Option<int>): (m: string)
    ensures m == "PM" <==> hour.Some? && hour.value >= 12
    ensures m == "AM" || m == "PM"
  {
    if hour.Some? && hour.value >= 12 then "PM" else "AM"
  }

  /** The hour shown: `NaN % 12 || 12` is 12. */
  function ShownHour(hour: Option<int>): int {
    match hour
    case None => 12
    case Some(n) => Hour12(n)
  }

  /** `formatTime` of the availability views: `const [hours, minutes] =
      t.split(":")`, then `${hour12}:${minutes} ${ampm}`; a missing minutes
      piece prints as "undefined". */
  function FormatTime(timeStr: string): string {
    var parts := Split(timeStr, ':');
    var hour := ParseInt(parts[0]);
    var minutes := if |parts| >= 2 then parts[1] else "undefined";
    IntToString(ShownHour(hour)) + ":" + minutes + " " + Meridiem(hour)
  }

  /** The zero-padded text `HH:MM`. */
  function Clock24(h: nat, m: nat): string {
    Pad2(h) + ":" + Pad2(m)
  }

  /** The clock text splits back into its two padded numbers. */
  lemma SplitClock24(h: nat, m: nat)
    ensures Split(Clock24(h, m), ':') == [Pad2(h), Pad2(m)]
  {
    assert ':' !in Pad2(h) && ':' !in Pad2(m) by {
      assert forall i :: 0 <= i < |Pad2(h)| ==> IsDigit(Pad2(h)[i]);
      assert forall i :: 0 <= i < |Pad2(m)| ==> IsDigit(Pad2(m)[i]);
    }
    assert Clock24(h, m) == Pad2(h) + [':'] + Pad2(m);
    SplitAtSeparator(Pad2(h), Pad2(m), ':');
    SplitNoSeparator(Pad2(m), ':');
  }

  /** The hour is read back from a padded clock text. */
  lemma ParseHourOfClock24(h: nat, m: nat)
    requires h < 100
    ensures ParseInt(Split(Clock24(h, m), ':')[0]) == Some(h)
  {
    SplitClock24(h, m);
    ParsePad2(h, "");
    assert Pad2(h) + "" == Pad2(h);
  }

  /** On a well-formed time of day, `formatTime` gives the 12-hour hour
      (12 for noon and midnight), the minutes as written, and AM exactly
      before noon. */
  lemma FormatTimeOfClock(h: nat, m: nat)
    requires h < 24
    ensures FormatTime(Clock24(h, m))
            == NatToString(Hour12(h)) + ":" + Pad2(m) + " " + (if h < 12 then "AM" else "PM")
  {
    SplitClock24(h, m);
    ParseHourOfClock24(h, m);
  }

  /** Two times in the same hour twelve hours apart get the same digits and
      differ only in AM/PM. */
  lemma FormatTimeTwelveApart(h: nat, m: nat)
    requires h < 12
    ensures var am := FormatTime(Clock24(h, m));
            var pm := FormatTime(Clock24(h + 12, m));
            && |am| == |pm| && am != pm
            && am[..|am| - 2] == pm[..|pm| - 2]
  {
    FormatTimeOfClock(h, m);
    FormatTimeOfClock(h + 12, m);
    var am := FormatTime(Clock24(h, m));
    var pm := FormatTime(Clock24(h + 12, m));
    var common := NatToString(Hour12(h)) + ":" + Pad2(m) + " ";
    assert Hour12(h + 12) == Hour12(h);
    assert am == common + "AM" && pm == common + "PM";
    assert am[|am| - 2] != pm[|pm| - 2];
    assert am[..|am| - 2] == common && pm[..|pm| - 2] == common;
  }

  /** A slot's id in both availability views: the date, a space, the shown time. */
  function SlotId(date: string, time: string): (id: string)
    ensures date + " " <= id
  {
    date + " " + FormatTime(time)
  }

  /** What a "Confirm" button reports through `onConfirm`: the slot's date,
      which the view then localizes, and the time text shown after " at ". */
  datatype ConfirmedSlot = ConfirmedSlot(date: string, time: string)

  const AvailabilityGreen := "bg-green-500"
  const AvailabilityYellow := "bg-yellow-400"
  const AvailabilityAmber := "bg-amber-500"
  const AvailabilityRed := "bg-red-500"

  /** `getAvailabilityColor`: green from 75, yellow from 50, amber from 25, red below. */
  function GetAvailabilityColor(percentage: int): (c: string)
    ensures c == AvailabilityGreen <==> percentage >= 75
    ensures c == AvailabilityYellow <==> 50 <= percentage < 75
    ensures c == AvailabilityAmber <==> 25 <= percentage < 50
    ensures c == AvailabilityRed <==> percentage < 25
  {
    if percentage >= 75 then AvailabilityGreen
    else if percentage >= 50 then AvailabilityYellow
    else if percentage >= 25 then AvailabilityAmber
    else AvailabilityRed
  }

  /** A higher percentage never gets a worse colour. */
  lemma AvailabilityColorMonotone(a: int, b: int)
    requires a <= b
    ensures GetAvailabilityColor(a) == AvailabilityGreen ==> GetAvailabilityColor(b) == AvailabilityGreen
    ensures GetAvailabilityColor(a) == AvailabilityYellow ==> GetAvailabilityColor(b) in {AvailabilityGreen, AvailabilityYellow}
    ensures GetAvailabilityColor(b) == AvailabilityRed ==> GetAvailabilityColor(a) == AvailabilityRed
    ensures GetAvailabilityColor(b) == AvailabilityAmber ==> GetAvailabilityColor(a) in {AvailabilityAmber, AvailabilityRed}
  {
  }
}
