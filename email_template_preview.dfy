/** The e-mail preview (whattime_example/components/email-template-preview.tsx):
    how a proposed time option is written out, the time-zone label, the
    seven hour labels above the response grid, and the cells a recipient
    marks as free. */
module EmailTemplatePreview {
  import opened Wrappers
  import opened JsStrings
  import opened Selection
  import opened SlotDisplay

  datatype TimeOption = TimeOption(date: string, startTime: string, endTime: string, isAllDay: bool)

  /** The preview's `formatTime`: "" stays "", and a missing or empty
      minutes piece reads "00". */
  function PreviewFormatTime(timeStr: string): (r: string)
    ensures r == "" <==> timeStr == ""
  {
    if timeStr == "" then ""
    else
      var parts := Split(timeStr, ':');
      var hour := ParseInt(parts[0]);
      var minutes := if |parts| >= 2 && parts[1] != "" then parts[1] else "00";
      IntToString(ShownHour(hour)) + ":" + minutes + " " + Meridiem(hour)
  }

  /** Where a minutes piece is written, the preview and the availability
      views show a time the same way. */
  lemma PreviewFormatTimeAgrees(timeStr: string)
    requires |Split(timeStr, ':')| >= 2 && Split(timeStr, ':')[1] != ""
    ensures PreviewFormatTime(timeStr) == FormatTime(timeStr)
  {
  }

  /** A well-formed `HH:MM` reads as the 12-hour clock with AM before noon. */
  lemma PreviewFormatTimeOfClock(h: nat, m: nat)
    requires h < 24
    ensures PreviewFormatTime(Clock24(h, m))
            == NatToString(Hour12(h)) + ":" + Pad2(m) + " " + (if h < 12 then "AM" else "PM")
  {
    SplitClock24(h, m);
    PreviewFormatTimeAgrees(Clock24(h, m));
    FormatTimeOfClock(h, m);
  }

  /** A time with no ':' gets the minutes "00" in the preview, where the
      availability views print "undefined". */
  lemma NoMinutesPiece(timeStr: string)
    requires timeStr != "" && ':' !in timeStr
    ensures PreviewFormatTime(timeStr)
            == IntToString(ShownHour(ParseInt(timeStr))) + ":" + "00" + " " + Meridiem(ParseInt(timeStr))
    ensures FormatTime(timeStr)
            == IntToString(ShownHour(ParseInt(timeStr))) + ":" + "undefined" + " " + Meridiem(ParseInt(timeStr))
  {
    SplitNoSeparator(timeStr, ':');
  }

  /** So a bare hour of the day reads as that hour with ":00". */
  lemma PreviewFormatTimeBareHour(h: nat)
    requires h < 24
    ensures PreviewFormatTime(NatToString(h)) == NatToString(Hour12(h)) + ":" + "00" + " " + Meridiem(Some(h))
  {
    var t := NatToString(h);
    assert forall i :: 0 <= i < |t| ==> IsDigit(t[i]);
    ParseNatToString(h, "");
    assert t + "" == t;
    NoMinutesPiece(t);
  }

  /** `formatTimeOption`, given the localized date text: the day and
      "(All day)", or the day, the start and the end. */
  function FormatTimeOption(dateLabel: string, option: TimeOption): (r: string)
    ensures option.isAllDay ==> r == dateLabel + " (All day)"
    ensures !option.isAllDay ==>
              r == dateLabel + ", " + PreviewFormatTime(option.startTime) + " - " + PreviewFormatTime(option.endTime)
  {
    if option.isAllDay then dateLabel + " (All day)"
    else dateLabel + ", " + PreviewFormatTime(option.startTime) + " - " + PreviewFormatTime(option.endTime)
  }

  /** An all-day option shows no times: its text does not depend on them. */
  lemma AllDayShowsNoTimes(dateLabel: string, option: TimeOption, startTime: string, endTime: string)
    requires option.isAllDay
    ensures FormatTimeOption(dateLabel, option)
            == FormatTimeOption(dateLabel, option.(startTime := startTime, endTime := endTime))
  {
  }

  /** A timed option with well-formed times shows both as the availability
      views show them. */
  lemma TimedOptionShowsTimes(dateLabel: string, date: string, h1: nat, m1: nat, h2: nat, m2: nat)
    ensures FormatTimeOption(dateLabel, TimeOption(date, Clock24(h1, m1), Clock24(h2, m2), false))
            == dateLabel + ", " + FormatTime(Clock24(h1, m1)) + " - " + FormatTime(Clock24(h2, m2))
  {
    SplitClock24(h1, m1);
    PreviewFormatTimeAgrees(Clock24(h1, m1));
    SplitClock24(h2, m2);
    PreviewFormatTimeAgrees(Clock24(h2, m2));
  }

  /** The label of a known time-zone code, `timezoneMap[code]`. */
  function TimezoneName(code: string): (name: Option<string>)
    ensures name.Some? ==> |code| <= 8 && |name.value| >= 17
  {
    match code
    case "et" => Some("Eastern Time (ET)")
    case "ct" => Some("Central Time (CT)")
    case "mt" => Some("Mountain Time (MT)")
    case "pt" => Some("Pacific Time (PT)")
    case "gmt" => Some("Greenwich Mean Time (GMT)")
    case "bst" => Some("British Summer Time (BST)")
    case "cet" => Some("Central European Time (CET)")
    case "eet" => Some("Eastern European Time (EET)")
    case "msk" => Some("Moscow Time (MSK)")
    case "gst" => Some("Gulf Standard Time (GST)")
    case "ist" => Some("India Standard Time (IST)")
    case "cst_asia" => Some("China Standard Time (CST)")
    case "jst" => Some("Japan Standard Time (JST)")
    case "aest" => Some("Australian Eastern Standard Time (AEST)")
    case "nzst" => Some("New Zealand Standard Time (NZST)")
    case _ => None
  }

  /** `getTimezoneLabel`: a known code's label; any other code is shown as
      it is (every label is non-empty, so `|| timezone` only catches unknown
      codes). */
  function TimezoneLabel(timezone: string): (shown: string)
    ensures TimezoneName(timezone).Some? ==> shown == TimezoneName(timezone).value && shown != ""
    ensures TimezoneName(timezone).None? ==> shown == timezone
  {
    match TimezoneName(timezone)
    case Some(name) => if name != "" then name else timezone
    case None => timezone
  }

  /** A label is not itself a code, so labelling twice is labelling once. */
  lemma TimezoneLabelIdempotent(timezone: string)
    ensures TimezoneLabel(TimezoneLabel(timezone)) == TimezoneLabel(timezone)
  {
    var name := TimezoneName(timezone);
    if name.Some? {
      var text := name.value;
      assert |text| > 8;
      assert TimezoneName(text).None?;
    }
  }

  /** `parseInt(firstOption.startTime.split(":")[0])`. */
  function StartHour(option: TimeOption): Option<int> {
    ParseInt(Split(option.startTime, ':')[0])
  }

  /** The header's hour rule as written: `hour > 12 ? hour - 12 : hour === 0 ? 12 : hour`. */
  function HeaderHour12(hour: int): int {
    if hour > 12 then hour - 12 else if hour == 0 then 12 else hour
  }

  /** The label of column `i`: `${hour12}:00`, "NaN:00" for an unreadable start. */
  function HeaderLabel(startHour: Option<int>, i: nat): string {
    match startHour
    case None => "NaN:00"
    case Some(h) => IntToString(HeaderHour12(h + i)) + ":00"
  }

  /** Within a day (up to midnight as hour 24) the header rule is the
      12-hour clock of the time formatter. */
  lemma HeaderHourOfDay(hour: int)
    requires 0 <= hour <= 24
    ensures HeaderHour12(hour) == Hour12(hour)
    ensures 1 <= HeaderHour12(hour) <= 12
  {
  }

  /** Past midnight the rule as written leaves the 12-hour range: a start
      at 20:00 labels its sixth column (hour 25) "13:00". */
  lemma HeaderHourPastMidnight(hour: int)
    requires hour >= 25
    ensures HeaderHour12(hour) >= 13
  {
  }

  lemma HeaderLabelAtEightPm()
    ensures HeaderLabel(Some(20), 5) == "13:00"
    ensures HeaderLabelWrapped(Some(20), 5) == "1:00"
  {
    assert IntToString(13) == NatToString(1) + [DigitChar(3)] == "13";
    assert IntToString(1) == NatToString(1) == "1";
  }

  /** The rule as evidently intended: the hour of a 12-hour clock of any
      hour count, wrapping past midnight. */
  function HeaderLabelWrapped(startHour: Option<int>, i: nat): string {
    match startHour
    case None => "NaN:00"
    case Some(h) => IntToString(Hour12(h + i)) + ":00"
  }

  /** The corrected labels always read 1..12 for a non-negative start, and
      agree with the labels as written while the columns stay within the day. */
  lemma HeaderLabelWrappedSpec(h: int, i: nat)
    requires h >= 0
    ensures exists k :: 1 <= k <= 12 && k % 12 == (h + i) % 12
                        && HeaderLabelWrapped(Some(h), i) == NatToString(k) + ":00"
    ensures h + i <= 24 ==> HeaderLabelWrapped(Some(h), i) == HeaderLabel(Some(h), i)
  {
    var k := Hour12(h + i);
    assert HeaderLabelWrapped(Some(h), i) == NatToString(k) + ":00";
    if h + i <= 24 {
      HeaderHourOfDay(h + i);
    }
  }

  /** A start hour up to 18 keeps all seven columns within the day, where
      the rule as written and the wrapped rule agree. */
  lemma HeaderWithinDay(h: int)
    requires 0 <= h <= 18
    ensures forall i: nat :: i < 7 ==> HeaderLabel(Some(h), i) == HeaderLabelWrapped(Some(h), i)
  {
    forall i: nat | i < 7
      ensures HeaderLabel(Some(h), i) == HeaderLabelWrapped(Some(h), i)
    {
      HeaderLabelWrappedSpec(h, i);
    }
  }

  /** The header loop: with no time options nothing is shown; otherwise
      seven labels, by the rule as written, for the first option's start
      hour and the six after it. While the seventh column stays within the
      day they are the labels of a 12-hour clock. */
  method HeaderLabels(timeOptions: seq<TimeOption>) returns (labels: seq<string>)
    ensures |timeOptions| == 0 ==> labels == []
    ensures |timeOptions| > 0 ==>
              labels == seq(7, i requires 0 <= i => HeaderLabel(StartHour(timeOptions[0]), i))
    ensures |timeOptions| > 0 && StartHour(timeOptions[0]).None? ==>
              forall i :: 0 <= i < 7 ==> labels[i] == "NaN:00"
    ensures |timeOptions| > 0 && StartHour(timeOptions[0]).Some? && 0 <= StartHour(timeOptions[0]).value <= 18 ==>
              forall i :: 0 <= i < 7 ==> labels[i] == HeaderLabelWrapped(StartHour(timeOptions[0]), i)
  {
    labels := [];
    if |timeOptions| > 0 {
      var startHour := StartHour(timeOptions[0]);
      for i := 0 to 7
        invariant labels == seq(i, k requires 0 <= k => HeaderLabel(startHour, k))
      {
        labels := labels + [HeaderLabel(startHour, i)];
      }
      if startHour.Some? && 0 <= startHour.value <= 18 {
        HeaderWithinDay(startHour.value);
      }
    }
  }

  /** A grid cell's id: `${dateIndex}-${slotIndex}`. */
  function CellId(dateIndex: nat, slotIndex: nat): string {
    NatToString(dateIndex) + "-" + NatToString(slotIndex)
  }

  /** Different cells have different ids, so a selection names cells exactly. */
  lemma CellIdInjective(d1: nat, s1: nat, d2: nat, s2: nat)
    requires CellId(d1, s1) == CellId(d2, s2)
    ensures d1 == d2 && s1 == s2
  {
    CellIdSplit(d1, s1);
    CellIdSplit(d2, s2);
    ParseNatToString(d1, "");
    ParseNatToString(d2, "");
    ParseNatToString(s1, "");
    ParseNatToString(s2, "");
    assert NatToString(d1) + "" == NatToString(d1) && NatToString(d2) + "" == NatToString(d2);
    assert NatToString(s1) + "" == NatToString(s1) && NatToString(s2) + "" == NatToString(s2);
  }

  lemma CellIdSplit(d: nat, s: nat)
    ensures Split(CellId(d, s), '-') == [NatToString(d), NatToString(s)]
  {
    assert '-' !in NatToString(d) && '-' !in NatToString(s) by {
      assert forall i :: 0 <= i < |NatToString(d)| ==> IsDigit(NatToString(d)[i]);
      assert forall i :: 0 <= i < |NatToString(s)| ==> IsDigit(NatToString(s)[i]);
    }
    assert CellId(d, s) == NatToString(d) + ['-'] + NatToString(s);
    SplitAtSeparator(NatToString(d), NatToString(s), '-');
    SplitNoSeparator(NatToString(s), '-');
  }

  /** The preview's one piece of state: the ids of the cells marked free. */
  class EmailPreview {
    const timeOptions: seq<TimeOption>
    var selectedOptions: seq<string>

    constructor(timeOptions: seq<TimeOption>)
      ensures this.timeOptions == timeOptions && selectedOptions == []
    {
      this.timeOptions := timeOptions;
      selectedOptions := [];
    }

    /** `toggleOption`. */
    method ToggleOption(optionId: string)
      modifies this
      ensures selectedOptions == Toggle(old(selectedOptions), optionId)
    {
      selectedOptions := Toggle(selectedOptions, optionId);
    }

    /** A click on a cell: a busy cell ignores it, a free one toggles. */
    method ClickCell(dateIndex: nat, slotIndex: nat, isBusy: bool)
      modifies this
      ensures isBusy ==> selectedOptions == old(selectedOptions)
      ensures !isBusy ==> selectedOptions == Toggle(old(selectedOptions), CellId(dateIndex, slotIndex))
    {
      if !isBusy {
        ToggleOption(CellId(dateIndex, slotIndex));
      }
    }

    /** "No Availability". */
    method NoAvailability()
      modifies this
      ensures selectedOptions == []
    {
      selectedOptions := [];
    }

    /** "Send Availability" is disabled while nothing is selected. */
    predicate SendDisabled()
      reads this
    {
      |selectedOptions| == 0
    }
  }
}
