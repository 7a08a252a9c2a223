/** The time ranges a meeting request offers, as the add-in's create form
    (whattime_example/components/simplified-outlook-addin.tsx) and the Outlook
    sidebar (whattime_example/components/outlook-sidebar.tsx) both keep them,
    and the edits their inputs make to one range. */
module MeetingForm {
  import opened Wrappers
  import opened JsStrings
  import opened FormLists

  /** One proposed range: a date (`YYYY-MM-DD`), start and end times, or the whole day. */
  datatype TimeRange = TimeRange(id: string, date: string, startTime: string, endTime: string, isAllDay: bool)

  function RangeId(r: TimeRange): string { r.id }

  /** A fresh range for a new row: the given date, no times, not all day. */
  function NewTimeRange(id: string, today: string): (r: TimeRange)
    ensures r.id == id && r.date == today
    ensures r.startTime == "" && r.endTime == "" && !r.isAllDay
  {
    TimeRange(id, today, "", "", false)
  }

  /** `updateTimeRange(id, field, value)` for the four fields the inputs edit. */
  datatype RangeEdit =
    | SetDate(newDate: string)
    | SetStartTime(newStart: string)
    | SetEndTime(newEnd: string)
    | SetAllDay(newAllDay: bool)

  /** `{ ...range, [field]: value }`: the named field takes the value, every
      other field, the id among them, is kept. */
  function EditRange(edit: RangeEdit, r: TimeRange): (e: TimeRange)
    ensures e.id == r.id
    ensures e.date == (if edit.SetDate? then edit.newDate else r.date)
    ensures e.startTime == (if edit.SetStartTime? then edit.newStart else r.startTime)
    ensures e.endTime == (if edit.SetEndTime? then edit.newEnd else r.endTime)
    ensures e.isAllDay == (if edit.SetAllDay? then edit.newAllDay else r.isAllDay)
  {
    match edit
    case SetDate(v) => r.(date := v)
    case SetStartTime(v) => r.(startTime := v)
    case SetEndTime(v) => r.(endTime := v)
    case SetAllDay(v) => r.(isAllDay := v)
  }

  function RangeEditor(edit: RangeEdit): TimeRange -> TimeRange {
    r => EditRange(edit, r)
  }

  /** `updateTimeRange` on a list with distinct ids: the range with the id
      gets the edit, every other range and the order stay, and the ids stay
      distinct. */
  lemma UpdateTimeRangeSpec(ranges: seq<TimeRange>, id: string, edit: RangeEdit)
    requires DistinctIds(ranges, RangeId)
    ensures var r := UpdateById(ranges, RangeId, id, RangeEditor(edit));
            && |r| == |ranges|
            && DistinctIds(r, RangeId)
            && (forall i :: 0 <= i < |ranges| ==> r[i].id == ranges[i].id)
            && (forall i :: 0 <= i < |ranges| && ranges[i].id != id ==> r[i] == ranges[i])
            && (forall i :: 0 <= i < |ranges| && ranges[i].id == id ==> r[i] == EditRange(edit, ranges[i]))
  {
    forall x: TimeRange
      ensures RangeId(RangeEditor(edit)(x)) == RangeId(x)
    {
    }
    UpdateByIdKeepsIds(ranges, RangeId, id, RangeEditor(edit));
  }

  /** The name `addGroup` gives the new group: "Group n+1" for n groups. */
  function NumberedGroupName(count: nat): (name: string)
    ensures |name| > 6 && name[..6] == "Group "
    ensures ParseInt(name[6..]) == Some(count + 1)
  {
    ParseNatToString(count + 1, "");
    assert NatToString(count + 1) + "" == NatToString(count + 1);
    var name := "Group " + NatToString(count + 1);
    assert name[6..] == NatToString(count + 1);
    name
  }
}
