/** A participant's answer for a time option and the icon every response
    list draws for it (the response table, the response manager and the
    add-in's responses view switch on the status the same way). */
module ResponseStatus {

  /** "available", "unavailable" or "no-response". */
  datatype Status = Available | Unavailable | NoResponse

  /** A green check, a red cross, or a grey clock. */
  datatype Icon = GreenCheck | RedCross | GreyClock

  /** `getResponseIcon` / `getStatusIcon`: anything but "available" and
      "unavailable" draws the clock. */
  function StatusIcon(status: Status): (icon: Icon)
    ensures icon == GreenCheck <==> status == Available
    ensures icon == RedCross <==> status == Unavailable
    ensures icon == GreyClock <==> status == NoResponse
  {
    match status
    case Available => GreenCheck
    case Unavailable => RedCross
    case NoResponse => GreyClock
  }
}
