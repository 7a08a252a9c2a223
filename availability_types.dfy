/** A suggested meeting slot as the availability views receive it
    (frontend/src/taskpane/types/availability.ts). The ISO date strings of
    the source are modelled by the millisecond timestamps they denote. */
module AvailabilityTypes {

  datatype AvailabilitySlot = AvailabilitySlot(
    startMs: int,
    endMs: int,
    isAvailable: bool,
    conflictCount: int,
    attendeesAvailable: seq<string>,
    attendeesConflict: seq<string>,
    confidence: int)
}
