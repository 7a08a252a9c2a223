/** The weekly grid of suggested slots
    (frontend/src/taskpane/components/AvailabilityCalendar.tsx). The selected
    slot is identified by its position. */
module AvailabilityCalendar {
  import opened Wrappers
  import opened AvailabilityTypes

  /** How many slots the grid shows at most. */
  const CalendarSlotLimit: nat := 14

  /** The three cell styles. */
  datatype CellClass = AvailableCell | PartialCell | BusyCell

  datatype CalendarCell = CalendarCell(slotIndex: nat, cellClass: CellClass, selected: bool)

  /** The column headers. */
  function DayHeaders(): (days: seq<string>)
    ensures |days| == 7
    ensures days[0] == "Mon" && days[6] == "Sun"
  {
    ["Mon", "Tue", "Wed", "Thu", "Fri", "Sat", "Sun"]
  }

  /** Available wins; a slot that is not available is partial when it has
      conflicts and busy otherwise. */
  function ClassifySlot(slot: AvailabilitySlot): (c: CellClass)
    ensures c == AvailableCell <==> slot.isAvailable
    ensures c == PartialCell <==> !slot.isAvailable && slot.conflictCount > 0
    ensures c == BusyCell <==> !slot.isAvailable && slot.conflictCount <= 0
  {
    if slot.isAvailable then AvailableCell
    else if slot.conflictCount > 0 then PartialCell
    else BusyCell
  }

  /** The first 14 slots in their order, each with its class, the selected one marked. */
  function CalendarCells(slots: seq<AvailabilitySlot>, selected: Option<nat>): (cells: seq<CalendarCell>)
    ensures |cells| == (if |slots| < CalendarSlotLimit then |slots| else CalendarSlotLimit)
    ensures forall i :: 0 <= i < |cells| ==>
              && cells[i].slotIndex == i
              && cells[i].cellClass == ClassifySlot(slots[i])
              && (cells[i].selected <==> selected == Some(i))
  {
    var shown := if |slots| < CalendarSlotLimit then slots else slots[..CalendarSlotLimit];
    seq(|shown|, i requires 0 <= i < |shown| => CalendarCell(i, ClassifySlot(shown[i]), selected == Some(i)))
  }

  /** A click on a cell hands its slot to `onSlotSelect` only when the slot is available. */
  function CalendarClick(slots: seq<AvailabilitySlot>, index: nat): (r: Option<nat>)
    requires index < |slots|
    ensures r.Some? <==> slots[index].isAvailable
    ensures r.Some? ==> r.value == index
  {
    if slots[index].isAvailable then Some(index) else None
  }

  /** Only an available cell can ever become the selection by clicking. */
  lemma ClickedCellIsAvailable(slots: seq<AvailabilitySlot>, index: nat)
    requires index < |slots|
    requires CalendarClick(slots, index).Some?
    ensures ClassifySlot(slots[CalendarClick(slots, index).value]) == AvailableCell
  {
  }
}
