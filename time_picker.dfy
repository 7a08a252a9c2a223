/** The time picker (whattime_example/components/time-picker.tsx): the
    half-hour grid of a day it offers, the text its button shows, and what
    picking a time does. */
module TimePicker {
  import opened Wrappers
  import opened JsStrings
  import opened Seqs
  import opened SlotDisplay

  /** One entry of the list: the `HH:MM` value and the 12-hour label. */
  datatype TimeOption = TimeOption(value: string, labelText: string)

  /** The entry the loops push for an hour and a minute. */
  function OptionAt(hour: nat, minute: nat): TimeOption {
    TimeOption(Clock24(hour, minute), ClockLabel(hour, minute))
  }

  /** `${h}:${mm} ${period}` with `h = hour % 12 || 12`. */
  function ClockLabel(hour: nat, minute: nat): string {
    NatToString(Hour12(hour)) + ":" + Pad2(minute) + " " + (if hour < 12 then "AM" else "PM")
  }

  const HoursPerDay: nat := 24

  /** The entries of the first `n` hours, each hour's :00 entry before its :30 entry. */
  function HoursUpTo(n: nat): (r: seq<TimeOption>)
    ensures |r| == 2 * n
  {
    if n == 0 then [] else HoursUpTo(n - 1) + [OptionAt(n - 1, 0), OptionAt(n - 1, 30)]
  }

  /** The whole list, as an independent definition of what the loops build. */
  function Grid(): (r: seq<TimeOption>)
    ensures |r| == 48
  {
    HoursUpTo(HoursPerDay)
  }

  /** Entry 2·h + k is hour h with minute 30·k. */
  lemma {:induction false} HoursUpToAt(n: nat, h: nat, k: nat)
    requires h < n && k < 2
    ensures HoursUpTo(n)[2 * h + k] == OptionAt(h, 30 * k)
  {
    var prefix := HoursUpTo(n - 1);
    var last := [OptionAt(n - 1, 0), OptionAt(n - 1, 30)];
    assert HoursUpTo(n) == prefix + last;
    if h < n - 1 {
      HoursUpToAt(n - 1, h, k);
      assert (prefix + last)[2 * h + k] == prefix[2 * h + k];
    } else {
      assert (prefix + last)[2 * h + k] == last[k];
    }
  }

  /** `generateTimeOptions`: hours 0 to 23, minutes 0 and 30. */
  method GenerateTimeOptions() returns (options: seq<TimeOption>)
    ensures options == Grid()
  {
    options := [];
    var hour := 0;
    while hour < 24
      invariant 0 <= hour <= 24
      invariant options == HoursUpTo(hour)
    {
      var minute := 0;
      while minute < 60
        invariant minute == 0 || minute == 30 || minute == 60
        invariant minute == 0 ==> options == HoursUpTo(hour)
        invariant minute == 30 ==> options == HoursUpTo(hour) + [OptionAt(hour, 0)]
        invariant minute == 60 ==> options == HoursUpTo(hour + 1)
      {
        options := options + [OptionAt(hour, minute)];
        minute := minute + 30;
      }
      hour := hour + 1;
    }
  }

  /** Every entry is some hour of the day with minute 0 or 30, and sits
      30 minutes after the one before it. */
  lemma GridEntry(i: nat)
    requires i < 48
    ensures exists h: nat, k: nat :: h < 24 && k < 2 && i == 2 * h + k && Grid()[i] == OptionAt(h, 30 * k)
  {
    var h, k := i / 2, i % 2;
    assert i == 2 * h + k && h < 24;
    HoursUpToAt(HoursPerDay, h, k);
    assert Grid()[i] == OptionAt(h, 30 * k);
  }

  /** A five-character `HH:MM` text: two digits, a colon, two digits. */
  predicate IsClockText(v: string) {
    |v| == 5 && IsDigit(v[0]) && IsDigit(v[1]) && v[2] == ':' && IsDigit(v[3]) && IsDigit(v[4])
  }

  /** Minutes since midnight of an `HH:MM` text. */
  function ClockMinutes(v: string): nat
    requires IsClockText(v)
  {
    60 * DecimalValue(v[..2]) + DecimalValue(v[3..])
  }

  /** The value pushed for hour h and minute m is an `HH:MM` text of
      60·h + m minutes. */
  lemma ClockTextOf(h: nat, m: nat)
    requires h < 100 && m < 100
    ensures var v := Clock24(h, m);
            IsClockText(v) && v[..2] == Pad2(h) && v[3..] == Pad2(m) && ClockMinutes(v) == 60 * h + m
  {
    Pad2Value(h);
    Pad2Value(m);
    var v := Clock24(h, m);
    assert v[..2] == Pad2(h);
    assert v[3..] == Pad2(m);
  }

  /** Entry `i` is an `HH:MM` text 30·i minutes after midnight. */
  lemma GridValueMinutes(i: nat)
    requires i < 48
    ensures IsClockText(Grid()[i].value) && ClockMinutes(Grid()[i].value) == 30 * i
  {
    GridEntry(i);
    var h: nat, k: nat :| h < 24 && k < 2 && i == 2 * h + k && Grid()[i] == OptionAt(h, 30 * k);
    ClockTextOf(h, 30 * k);
  }

  /** The list starts at midnight and goes up in half hours, so no value
      repeats. */
  lemma GridIncreasing(i: nat, j: nat)
    requires i < j < 48
    ensures IsClockText(Grid()[i].value) && IsClockText(Grid()[j].value)
    ensures ClockMinutes(Grid()[j].value) - ClockMinutes(Grid()[i].value) == 30 * (j - i)
    ensures Grid()[i].value != Grid()[j].value
  {
    GridValueMinutes(i);
    GridValueMinutes(j);
  }

  /** The list starts at midnight and ends at half past eleven at night. */
  lemma GridEnds()
    ensures Grid()[0].value == "00:00" && Grid()[47].value == "23:30"
  {
    HoursUpToAt(HoursPerDay, 0, 0);
    HoursUpToAt(HoursPerDay, 23, 1);
    Midnight();
    HalfPastEleven();
  }

  lemma Midnight()
    ensures Clock24(0, 0) == "00:00"
  {
    assert NatToString(0) == "0" && Pad2(0) == "00";
  }

  lemma HalfPastEleven()
    ensures Clock24(23, 30) == "23:30"
  {
    assert NatToString(23) == NatToString(2) + [DigitChar(3)] == "23";
    assert NatToString(30) == NatToString(3) + [DigitChar(0)] == "30";
  }

  /** The minutes piece of an entry's value is "00" or "30". */
  lemma MinutesPiece(k: nat)
    requires k < 2
    ensures Pad2(30 * k) == "00" || Pad2(30 * k) == "30"
  {
    if k == 0 {
      assert NatToString(0) == "0";
    } else {
      assert NatToString(30) == NatToString(3) + [DigitChar(0)] == "30";
    }
  }

  /** Each value is `HH:MM` with the minutes "00" or "30". */
  lemma GridValueShape(i: nat)
    requires i < 48
    ensures var v := Grid()[i].value;
            IsClockText(v) && (v[3..] == "00" || v[3..] == "30")
  {
    GridEntry(i);
    var h: nat, k: nat :| h < 24 && k < 2 && i == 2 * h + k && Grid()[i] == OptionAt(h, 30 * k);
    ClockTextOf(h, 30 * k);
    MinutesPiece(k);
  }

  /** Each label is what the availability views' formatter makes of the
      value: the 12-hour hour and AM exactly before noon. */
  lemma GridLabelIsFormattedValue(i: nat)
    requires i < 48
    ensures Grid()[i].labelText == FormatTime(Grid()[i].value)
  {
    GridEntry(i);
    var h: nat, k: nat :| h < 24 && k < 2 && i == 2 * h + k && Grid()[i] == OptionAt(h, 30 * k);
    FormatTimeOfClock(h, 30 * k);
  }

  function HasValue(value: string): TimeOption -> bool {
    (o: TimeOption) => o.value == value
  }

  /** The button: "Select time" while nothing is chosen, else the label of
      the first entry with the chosen value (nothing, if none has it). */
  function ButtonLabel(options: seq<TimeOption>, selectedTime: string): (text: string)
    ensures selectedTime == "" ==> text == "Select time"
    ensures selectedTime != "" && (forall i :: 0 <= i < |options| ==> options[i].value != selectedTime) ==> text == ""
    ensures selectedTime != "" && (exists i :: 0 <= i < |options| && options[i].value == selectedTime) ==>
              exists i :: 0 <= i < |options| && options[i].value == selectedTime && text == options[i].labelText
  {
    if selectedTime == "" then "Select time"
    else
      match Find(options, HasValue(selectedTime))
      case Some(o) => o.labelText
      case None => ""
  }

  /** Picking an entry of the grid shows exactly that entry's label. */
  lemma ButtonShowsPickedLabel(i: nat)
    requires i < 48
    ensures ButtonLabel(Grid(), Grid()[i].value) == Grid()[i].labelText
  {
    forall k | 0 <= k < i
      ensures !HasValue(Grid()[i].value)(Grid()[k])
    {
      GridIncreasing(k, i);
    }
    assert Grid()[i].value != "" by { GridValueShape(i); }
    FindAt(Grid(), HasValue(Grid()[i].value), i);
  }

  class TimePickerState {
    var open: bool
    var selectedTime: string

    constructor()
      ensures !open && selectedTime == ""
    {
      open := false;
      selectedTime := "";
    }

    /** The popover's `onOpenChange`. */
    method SetOpen(isOpen: bool)
      modifies this`open
      ensures open == isOpen
    {
      open := isOpen;
    }

    /** `handleSelect`: remember the time, close, and report the time to
        `onSelect` when there is one (the result is that call, if any). */
    method HandleSelect(time: string, hasOnSelect: bool) returns (reported: Option<string>)
      modifies this
      ensures selectedTime == time && !open
      ensures reported == (if hasOnSelect then Some(time) else None)
    {
      selectedTime := time;
      open := false;
      reported := if hasOnSelect then Some(time) else None;
    }

    /** What the button shows now. */
    function Label(): string
      reads this
    {
      ButtonLabel(Grid(), selectedTime)
    }
  }
}
