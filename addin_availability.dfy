/** The add-in's availability view (`AvailabilityView` in
    whattime_example/components/simplified-outlook-addin.tsx): the proposed
    slots of one meeting filtered to a chosen date, ordered by how many
    participants can come, and the slot a "Confirm" finds again from its id. */
module AddinAvailability {
  import opened Wrappers
  import opened JsStrings
  import opened Seqs
  import opened SlotDisplay

  datatype UnavailableParticipant = UnavailableParticipant(name: string, email: string, isKey: bool)

  /** A proposed slot and its availability percentages. */
  datatype Slot = Slot(
    date: string,
    time: string,
    available: int,
    unavailable: int,
    noResponse: int,
    unavailableParticipants: seq<UnavailableParticipant>)

  /** The id a slot card carries: the date, a space, the shown time. */
  function CardId(s: Slot): (id: string)
    ensures s.date + " " <= id
  {
    SlotId(s.date, s.time)
  }

  /** The card's warning: some participant who cannot come is a key participant. */
  predicate KeyParticipantUnavailable(s: Slot) {
    exists i :: 0 <= i < |s.unavailableParticipants| && s.unavailableParticipants[i].isKey
  }

  function OnDate(date: string): Slot -> bool {
    (s: Slot) => s.date == date
  }

  /** `selectedDate ? slots.filter(slot => slot.date === selectedDate) : slots`;
      `null` and "" are both falsy. */
  function FilteredSlots(slots: seq<Slot>, selectedDate: Option<string>): (r: seq<Slot>)
    ensures selectedDate.None? || selectedDate.value == "" ==> r == slots
    ensures selectedDate.Some? && selectedDate.value != "" ==>
              r == Filter(slots, OnDate(selectedDate.value))
  {
    if selectedDate.Some? && selectedDate.value != "" then Filter(slots, OnDate(selectedDate.value))
    else slots
  }

  /** Highest availability first. */
  predicate SortedByAvailability(s: seq<Slot>) {
    forall i, j :: 0 <= i < j < |s| ==> s[i].available >= s[j].available
  }

  /** Places `x`, which came before every slot of `t`, in front of the first
      slot no more available than it. */
  function Insert(x: Slot, t: seq<Slot>): (r: seq<Slot>)
    ensures |r| == |t| + 1
    ensures multiset(r) == multiset(t) + multiset{x}
  {
    if t == [] || t[0].available <= x.available then [x] + t
    else
      assert t == [t[0]] + t[1..];
      [t[0]] + Insert(x, t[1..])
  }

  /** `[...slots].sort((a, b) => b.available - a.available)`: the copy is
      sorted and the argument is a value, so the source list is untouched.
      The JavaScript sort is stable; so is this insertion sort. */
  function SortByAvailability(s: seq<Slot>): (r: seq<Slot>)
    ensures multiset(r) == multiset(s)
  {
    if s == [] then []
    else
      assert s == [s[0]] + s[1..];
      Insert(s[0], SortByAvailability(s[1..]))
  }

  lemma {:induction false} InsertSorted(x: Slot, t: seq<Slot>)
    requires SortedByAvailability(t)
    ensures SortedByAvailability(Insert(x, t))
  {
    if t == [] || t[0].available <= x.available {
    } else {
      InsertSorted(x, t[1..]);
      InsertBounded(x, t[1..], t[0].available);
      assert Insert(x, t) == [t[0]] + Insert(x, t[1..]);
    }
  }

  /** Inserting a slot no more available than a bound into slots no more
      available than it keeps under the bound. */
  lemma {:induction false} InsertBounded(x: Slot, t: seq<Slot>, bound: int)
    requires x.available <= bound
    requires forall k :: 0 <= k < |t| ==> t[k].available <= bound
    ensures forall k :: 0 <= k < |Insert(x, t)| ==> Insert(x, t)[k].available <= bound
  {
    if t != [] && t[0].available > x.available {
      InsertBounded(x, t[1..], bound);
    }
  }

  /** The shown order never puts a less available slot first. */
  lemma {:induction false} SortByAvailabilitySorted(s: seq<Slot>)
    ensures SortedByAvailability(SortByAvailability(s))
  {
    if s != [] {
      SortByAvailabilitySorted(s[1..]);
      InsertSorted(s[0], SortByAvailability(s[1..]));
    }
  }

  function HasAvailable(v: int): Slot -> bool {
    (s: Slot) => s.available == v
  }

  lemma {:induction false} InsertStable(x: Slot, t: seq<Slot>, v: int)
    ensures Filter(Insert(x, t), HasAvailable(v))
            == Filter([x], HasAvailable(v)) + Filter(t, HasAvailable(v))
  {
    if t == [] || t[0].available <= x.available {
      FilterConcat([x], t, HasAvailable(v));
    } else {
      var p := HasAvailable(v);
      InsertStable(x, t[1..], v);
      FilterConcat([t[0]], Insert(x, t[1..]), p);
      FilterConcat([t[0]], t[1..], p);
      assert t == [t[0]] + t[1..];
      if x.available == v {
        assert Filter([t[0]], p) == [];
      }
    }
  }

  /** Slots with the same availability keep their original order: among
      the slots of any one percentage, the shown list and the source agree. */
  lemma {:induction false} SortByAvailabilityStable(s: seq<Slot>, v: int)
    ensures Filter(SortByAvailability(s), HasAvailable(v)) == Filter(s, HasAvailable(v))
  {
    if s != [] {
      SortByAvailabilityStable(s[1..], v);
      InsertStable(s[0], SortByAvailability(s[1..]), v);
      assert Filter([s[0]], HasAvailable(v)) == if s[0].available == v then [s[0]] else [];
    }
  }

  /** The list the view shows. */
  function ShownSlots(slots: seq<Slot>, selectedDate: Option<string>): seq<Slot> {
    SortByAvailability(FilteredSlots(slots, selectedDate))
  }

  /** What the view shows: the slots of the selected date (all of them
      without one), each as often as in the source, the most available
      first, ties in source order. */
  lemma ShownSlotsSpec(slots: seq<Slot>, selectedDate: Option<string>, v: int)
    ensures var shown := ShownSlots(slots, selectedDate);
            && multiset(shown) == multiset(FilteredSlots(slots, selectedDate))
            && SortedByAvailability(shown)
            && Filter(shown, HasAvailable(v)) == Filter(FilteredSlots(slots, selectedDate), HasAvailable(v))
    ensures selectedDate.Some? && selectedDate.value != "" ==>
              forall k :: 0 <= k < |ShownSlots(slots, selectedDate)| ==>
                ShownSlots(slots, selectedDate)[k].date == selectedDate.value
    ensures selectedDate.None? ==> multiset(ShownSlots(slots, selectedDate)) == multiset(slots)
  {
    var filtered := FilteredSlots(slots, selectedDate);
    var shown := ShownSlots(slots, selectedDate);
    SortByAvailabilitySorted(filtered);
    SortByAvailabilityStable(filtered, v);
    if selectedDate.Some? && selectedDate.value != "" {
      forall k | 0 <= k < |shown|
        ensures shown[k].date == selectedDate.value
      {
        assert shown[k] in multiset(filtered);
        var j :| 0 <= j < |filtered| && filtered[j] == shown[k];
      }
    }
  }

  function HasCardId(id: string): Slot -> bool {
    (s: Slot) => CardId(s) == id
  }

  /** `handleConfirm`: with a selection, the first slot of the whole meeting
      whose card id is the selection is reported with its full shown time. */
  function HandleConfirm(slots: seq<Slot>, selectedTimeSlot: Option<string>): (r: Option<ConfirmedSlot>)
    ensures r.Some? <==> selectedTimeSlot.Some? && selectedTimeSlot.value != ""
                         && exists i :: 0 <= i < |slots| && CardId(slots[i]) == selectedTimeSlot.value
    ensures r.Some? ==> exists i :: 0 <= i < |slots| && CardId(slots[i]) == selectedTimeSlot.value
                                    && (forall j :: 0 <= j < i ==> CardId(slots[j]) != selectedTimeSlot.value)
                                    && r.value == ConfirmedSlot(slots[i].date, FormatTime(slots[i].time))
  {
    if selectedTimeSlot.None? || selectedTimeSlot.value == "" then None
    else
      match FindIndex(slots, HasCardId(selectedTimeSlot.value))
      case None => None
      case Some(k) => Some(ConfirmedSlot(slots[k].date, FormatTime(slots[k].time)))
  }

  /** Confirming a shown card reports that slot's own date and its full
      shown time, AM/PM included, whenever dates hold no space. */
  lemma HandleConfirmOfCard(slots: seq<Slot>, k: nat)
    requires k < |slots|
    requires forall i :: 0 <= i < |slots| ==> ' ' !in slots[i].date
    ensures HandleConfirm(slots, Some(CardId(slots[k])))
            == Some(ConfirmedSlot(slots[k].date, FormatTime(slots[k].time)))
  {
    var id := CardId(slots[k]);
    var r := HandleConfirm(slots, Some(id));
    assert id != "" by { assert slots[k].date + " " <= id; }
    var i :| 0 <= i < |slots| && CardId(slots[i]) == id
             && r.value == ConfirmedSlot(slots[i].date, FormatTime(slots[i].time));
    SameCardId(slots[i].date, slots[i].time, slots[k].date, slots[k].time);
  }

  /** Two card ids agree only when the dates and the shown times do. */
  lemma SameCardId(d1: string, t1: string, d2: string, t2: string)
    requires ' ' !in d1 && ' ' !in d2
    requires SlotId(d1, t1) == SlotId(d2, t2)
    ensures d1 == d2 && FormatTime(t1) == FormatTime(t2)
  {
    var id := SlotId(d1, t1);
    assert id == d1 + [' '] + FormatTime(t1) == d2 + [' '] + FormatTime(t2);
    SplitAtSeparator(d1, FormatTime(t1), ' ');
    SplitAtSeparator(d2, FormatTime(t2), ' ');
    assert d1 == Split(id, ' ')[0] == d2;
    assert FormatTime(t1) == id[|d1| + 1..] == FormatTime(t2);
  }

  const FollowUpPrefix := "Follow-up sent to: "

  /** The alert of `sendFollowUp`: the addresses joined by ", ". */
  function FollowUpMessage(emails: seq<string>): (m: string)
    ensures FollowUpPrefix <= m && m[|FollowUpPrefix|..] == Join(emails, ", ")
  {
    FollowUpPrefix + Join(emails, ", ")
  }

  /** The view's state: the date filter, the selected card and the expanded card. */
  class AvailabilityView {
    const slots: seq<Slot>
    var selectedDate: Option<string>
    var selectedTimeSlot: Option<string>
    var expandedTimeSlot: Option<string>

    constructor(slots: seq<Slot>)
      ensures this.slots == slots
      ensures selectedDate == None && selectedTimeSlot == None && expandedTimeSlot == None
    {
      this.slots := slots;
      selectedDate := None;
      selectedTimeSlot := None;
      expandedTimeSlot := None;
    }

    /** The date drop-down: "all" clears the filter, any other value sets it. */
    method SelectDate(value: string)
      modifies this`selectedDate
      ensures selectedDate == (if value == "all" then None else Some(value))
    {
      if value == "all" {
        selectedDate := None;
      } else {
        selectedDate := Some(value);
      }
    }

    /** A click on a card selects it. */
    method SelectTimeSlot(timeSlotId: string)
      modifies this`selectedTimeSlot
      ensures selectedTimeSlot == Some(timeSlotId)
    {
      selectedTimeSlot := Some(timeSlotId);
    }

    /** `toggleExpandTimeSlot`: collapses the expanded card, expands any other. */
    method ToggleExpandTimeSlot(slotId: string)
      modifies this`expandedTimeSlot
      ensures old(expandedTimeSlot) == Some(slotId) ==> expandedTimeSlot == None
      ensures old(expandedTimeSlot) != Some(slotId) ==> expandedTimeSlot == Some(slotId)
    {
      if expandedTimeSlot == Some(slotId) {
        expandedTimeSlot := None;
      } else {
        expandedTimeSlot := Some(slotId);
      }
    }

    /** The cards in the order shown. */
    function Shown(): seq<Slot>
      reads this
    {
      ShownSlots(slots, selectedDate)
    }

    /** The Confirm button: what `onConfirm` receives, if it is called. */
    method Confirm() returns (confirmed: Option<ConfirmedSlot>)
      ensures confirmed == HandleConfirm(slots, selectedTimeSlot)
    {
      confirmed := HandleConfirm(slots, selectedTimeSlot);
    }
  }
}
