/** The add-in's proposal editor (`ProposeNewTimesView` in
    whattime_example/components/simplified-outlook-addin.tsx): the same
    list of time ranges as the create form, edited by the same three
    handlers, before "Send" hands them on. */
module ProposeNewTimes {
  import opened FormLists
  import opened MeetingForm

  class ProposeNewTimesForm {
    var timeRanges: seq<TimeRange>

    /** At least one range, told apart by id. */
    ghost predicate Valid()
      reads this
    {
      |timeRanges| >= 1 && DistinctIds(timeRanges, RangeId)
    }

    /** One empty range dated today, with id "1". */
    constructor(today: string)
      ensures timeRanges == [NewTimeRange("1", today)]
      ensures Valid()
    {
      timeRanges := [NewTimeRange("1", today)];
    }

    /** `addTimeRange`: one empty range dated today at the end. */
    method AddTimeRange(newId: string, today: string)
      modifies this
      ensures timeRanges == old(timeRanges) + [NewTimeRange(newId, today)]
      ensures old(Valid()) && !HasId(old(timeRanges), RangeId, newId) ==> Valid()
    {
      timeRanges := timeRanges + [NewTimeRange(newId, today)];
    }

    /** `removeTimeRange`: only while more than one range is left. */
    method RemoveTimeRange(id: string)
      modifies this
      ensures timeRanges == RemoveUnlessLast(old(timeRanges), RangeId, id)
      ensures old(Valid()) ==> Valid()
    {
      if Valid() {
        RemoveKeepsOne(timeRanges, RangeId, id);
      }
      if |timeRanges| > 1 {
        timeRanges := WithoutId(timeRanges, RangeId, id);
      }
    }

    /** `updateTimeRange`: the range with the id gets the edit. */
    method UpdateTimeRange(id: string, edit: RangeEdit)
      modifies this
      ensures timeRanges == UpdateById(old(timeRanges), RangeId, id, RangeEditor(edit))
      ensures old(Valid()) ==> Valid()
    {
      if Valid() {
        UpdateTimeRangeSpec(timeRanges, id, edit);
      }
      timeRanges := UpdateById(timeRanges, RangeId, id, RangeEditor(edit));
    }
  }
}
