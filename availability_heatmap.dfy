/** The availability heatmap
    (whattime_example/components/availability-heatmap.tsx): the one cell a
    user may pick, confirming or cancelling that pick, and how a cell reads
    its percentages out of the nested availability record. */
module AvailabilityHeatmap {
  import opened Wrappers

  /** A (date, time slot) pair. */
  datatype Cell = Cell(date: string, timeSlot: string)

  /** `availability[date][timeSlot][key]`, each level keyed by text. */
  type Availability = map<string, map<string, map<string, int>>>

  /** `availability[date]?.[timeSlot] || {}`: a missing date or slot reads
      as the empty record. */
  function CellData(availability: Availability, date: string, timeSlot: string): (data: map<string, int>)
    ensures date in availability && timeSlot in availability[date] ==> data == availability[date][timeSlot]
    ensures !(date in availability && timeSlot in availability[date]) ==> data == map[]
  {
    if date in availability && timeSlot in availability[date] then availability[date][timeSlot] else map[]
  }

  /** `data[key] || 0`: a missing entry, like a zero, reads 0. */
  function ValueOr0(data: map<string, int>, key: string): (v: int)
    ensures key in data ==> v == data[key]
    ensures key !in data ==> v == 0
  {
    if key in data then data[key] else 0
  }

  /** The percentage a cell shows for `key` ("all" in the overall view, a
      group id in the group view). */
  function Percentage(availability: Availability, date: string, timeSlot: string, key: string): int {
    ValueOr0(CellData(availability, date, timeSlot), key)
  }

  /** Missing data at any of the three levels reads as 0, and present data
      reads as itself. */
  lemma MissingReadsZero(availability: Availability, date: string, timeSlot: string, key: string)
    ensures date !in availability ==> Percentage(availability, date, timeSlot, key) == 0
    ensures date in availability && timeSlot !in availability[date] ==> Percentage(availability, date, timeSlot, key) == 0
    ensures date in availability && timeSlot in availability[date] && key !in availability[date][timeSlot]
            ==> Percentage(availability, date, timeSlot, key) == 0
    ensures date in availability && timeSlot in availability[date] && key in availability[date][timeSlot]
            ==> Percentage(availability, date, timeSlot, key) == availability[date][timeSlot][key]
  {
  }

  /** The view that is shown. */
  datatype ViewMode = All | Groups

  /** The percentages drawn in a cell: one overall figure, or one per
      selected group in the order the groups were selected. */
  function CellPercentages(availability: Availability, viewMode: ViewMode, selectedGroups: seq<string>,
                           date: string, timeSlot: string): (ps: seq<int>)
    ensures viewMode == All ==> ps == [Percentage(availability, date, timeSlot, "all")]
    ensures viewMode == Groups ==>
              |ps| == |selectedGroups|
              && forall i :: 0 <= i < |selectedGroups| ==>
                             ps[i] == Percentage(availability, date, timeSlot, selectedGroups[i])
  {
    match viewMode
    case All => [Percentage(availability, date, timeSlot, "all")]
    case Groups =>
      seq(|selectedGroups|, i requires 0 <= i < |selectedGroups| => Percentage(availability, date, timeSlot, selectedGroups[i]))
  }

  /** `selectedCell?.date === date && selectedCell?.timeSlot === timeSlot`. */
  predicate IsSelected(selectedCell: Option<Cell>, date: string, timeSlot: string) {
    selectedCell.Some? && selectedCell.value.date == date && selectedCell.value.timeSlot == timeSlot
  }

  /** At most one cell is highlighted at a time. */
  lemma OneCellHighlighted(selectedCell: Option<Cell>, a: Cell, b: Cell)
    requires IsSelected(selectedCell, a.date, a.timeSlot) && IsSelected(selectedCell, b.date, b.timeSlot)
    ensures a == b
  {
  }

  /** The cell picked by `handleCellClick`: the same cell again deselects,
      any other cell is picked instead. */
  function AfterClick(selectedCell: Option<Cell>, date: string, timeSlot: string): (next: Option<Cell>)
    ensures IsSelected(selectedCell, date, timeSlot) ==> next.None?
    ensures !IsSelected(selectedCell, date, timeSlot) ==> next == Some(Cell(date, timeSlot))
  {
    if IsSelected(selectedCell, date, timeSlot) then None else Some(Cell(date, timeSlot))
  }

  /** Clicking one cell twice from no selection ends with no selection, and
      clicking two different cells ends with the second picked. */
  lemma ClickSequences(date: string, timeSlot: string, other: Cell)
    ensures AfterClick(AfterClick(None, date, timeSlot), date, timeSlot) == None
    ensures other != Cell(date, timeSlot) ==>
              AfterClick(AfterClick(None, date, timeSlot), other.date, other.timeSlot) == Some(other)
  {
  }

  class HeatmapState {
    var selectedCell: Option<Cell>

    constructor()
      ensures selectedCell == None
    {
      selectedCell := None;
    }

    /** `handleCellClick`. */
    method HandleCellClick(date: string, timeSlot: string)
      modifies this
      ensures selectedCell == AfterClick(old(selectedCell), date, timeSlot)
    {
      if selectedCell.Some? && selectedCell.value.date == date && selectedCell.value.timeSlot == timeSlot {
        selectedCell := None;
      } else {
        selectedCell := Some(Cell(date, timeSlot));
      }
    }

    /** `handleConfirmSelection`: with a pick, report it to
        `onSelectTimeSlot` (the result) and clear it; without one, nothing. */
    method HandleConfirmSelection() returns (reported: Option<Cell>)
      modifies this
      ensures reported == old(selectedCell)
      ensures selectedCell == None
    {
      reported := selectedCell;
      if selectedCell.Some? {
        selectedCell := None;
      }
    }

    /** The "Cancel" button. */
    method Cancel()
      modifies this
      ensures selectedCell == None
    {
      selectedCell := None;
    }

    /** Whether the confirmation bar is shown. */
    predicate HasSelection()
      reads this
    {
      selectedCell.Some?
    }
  }
}
