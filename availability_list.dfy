/** The list of suggested slots (frontend/src/taskpane/components/AvailabilityList.tsx):
    a confidence badge, the slot's length in minutes, attendee counts and the
    conflicts line. A card is "selected" when it is the `selectedSlot`
    prop; the model identifies that slot by its position. */
module AvailabilityList {
  import opened Wrappers
  import opened JsStrings
  import opened AvailabilityTypes

  const ConfidenceGreen := "#10b981"
  const ConfidenceYellow := "#f59e0b"
  const ConfidenceRed := "#ef4444"

  /** `getConfidenceColor`: green from 90, yellow from 70, red below. */
  function GetConfidenceColor(confidence: int): (c: string)
    ensures c == ConfidenceGreen <==> confidence >= 90
    ensures c == ConfidenceYellow <==> 70 <= confidence < 90
    ensures c == ConfidenceRed <==> confidence < 70
  {
    if confidence >= 90 then ConfidenceGreen
    else if confidence >= 70 then ConfidenceYellow
    else ConfidenceRed
  }

  /** `getConfidenceLabel`: "Excellent" from 90, "Good" from 70, "Fair" below. */
  function GetConfidenceLabel(confidence: int): (l: string)
    ensures l == "Excellent" <==> confidence >= 90
    ensures l == "Good" <==> 70 <= confidence < 90
    ensures l == "Fair" <==> confidence < 70
  {
    if confidence >= 90 then "Excellent"
    else if confidence >= 70 then "Good"
    else "Fair"
  }

  /** The badge's colour and its label always describe the same band. */
  lemma LabelMatchesColor(confidence: int)
    ensures GetConfidenceLabel(confidence) == "Excellent" <==> GetConfidenceColor(confidence) == ConfidenceGreen
    ensures GetConfidenceLabel(confidence) == "Good" <==> GetConfidenceColor(confidence) == ConfidenceYellow
    ensures GetConfidenceLabel(confidence) == "Fair" <==> GetConfidenceColor(confidence) == ConfidenceRed
  {
  }

  /** Raising the confidence never lowers the band of the colour or the label. */
  lemma ConfidenceBandsMonotone(a: int, b: int)
    requires a <= b
    ensures GetConfidenceColor(a) == ConfidenceGreen ==> GetConfidenceColor(b) == ConfidenceGreen
    ensures GetConfidenceColor(b) == ConfidenceRed ==> GetConfidenceColor(a) == ConfidenceRed
    ensures GetConfidenceLabel(a) == "Excellent" ==> GetConfidenceLabel(b) == "Excellent"
    ensures GetConfidenceLabel(b) == "Fair" ==> GetConfidenceLabel(a) == "Fair"
  {
  }

  /** `Math.round((end - start) / 60000)`: the whole number of minutes nearest
      to the slot's length, halves rounded up. */
  function SlotMinutes(startMs: int, endMs: int): (m: int)
    ensures 60000 * m - 30000 <= endMs - startMs < 60000 * m + 30000
  {
    (endMs - startMs + 30000) / 60000
  }

  /** An exact number of minutes is shown as itself. */
  lemma SlotMinutesExact(startMs: int, minutes: int)
    ensures SlotMinutes(startMs, startMs + 60000 * minutes) == minutes
  {
    var m := SlotMinutes(startMs, startMs + 60000 * minutes);
    assert 60000 * (m - minutes) <= 30000 && 60000 * (minutes - m) < 30000;
  }

  const ConflictsPrefix := "Conflicts: "

  /** The red line under a slot with conflicts: the prefix, then the
      conflicting attendees joined by ", ". */
  function ConflictsLine(slot: AvailabilitySlot): (r: Option<string>)
    ensures r.Some? <==> slot.conflictCount > 0
    ensures r.Some? ==> ConflictsPrefix <= r.value && r.value[|ConflictsPrefix|..] == Join(slot.attendeesConflict, ", ")
  {
    if slot.conflictCount > 0 then Some(ConflictsPrefix + Join(slot.attendeesConflict, ", ")) else None
  }

  /** What one card shows. */
  datatype SlotCard = SlotCard(
    minutes: int,
    badgeColor: string,
    badgeLabel: string,
    availableCount: nat,
    conflictCount: int,
    conflictsLine: Option<string>,
    selected: bool,
    buttonLabel: string)

  /** The whole list: the empty state, or one card per suggested slot. */
  datatype ListView = EmptyState | Cards(cards: seq<SlotCard>)

  function RenderSlot(slot: AvailabilitySlot, isSelected: bool): SlotCard {
    SlotCard(
      SlotMinutes(slot.startMs, slot.endMs),
      GetConfidenceColor(slot.confidence),
      GetConfidenceLabel(slot.confidence),
      |slot.attendeesAvailable|,
      slot.conflictCount,
      ConflictsLine(slot),
      isSelected,
      if isSelected then "Selected" else "Select Time")
  }

  /** No slot gives the empty state; otherwise the cards follow the slots one
      for one, and only the selected slot's card is marked. */
  function RenderList(slots: seq<AvailabilitySlot>, selected: Option<nat>): (v: ListView)
    ensures v.EmptyState? <==> slots == []
    ensures v.Cards? ==> |v.cards| == |slots|
    ensures v.Cards? ==> forall i :: 0 <= i < |slots| ==>
              && v.cards[i].minutes == SlotMinutes(slots[i].startMs, slots[i].endMs)
              && v.cards[i].badgeLabel == GetConfidenceLabel(slots[i].confidence)
              && v.cards[i].badgeColor == GetConfidenceColor(slots[i].confidence)
              && v.cards[i].availableCount == |slots[i].attendeesAvailable|
              && v.cards[i].conflictCount == slots[i].conflictCount
              && v.cards[i].conflictsLine == ConflictsLine(slots[i])
              && (v.cards[i].selected <==> selected == Some(i))
              && (v.cards[i].buttonLabel == "Selected" <==> selected == Some(i))
  {
    if |slots| == 0 then EmptyState
    else Cards(seq(|slots|, i requires 0 <= i < |slots| => RenderSlot(slots[i], selected == Some(i))))
  }
}
