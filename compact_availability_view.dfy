/** The compact availability view
    (whattime_example/components/compact-availability-view.tsx): the list
    badge's colour and what "Confirm" reports for the selected slot id. The
    localized date text that precedes the time in the report is left to
    `formatDate`; the report here is the date piece and the time piece. */
module CompactAvailabilityView {
  import opened Wrappers
  import opened JsStrings
  import opened SlotDisplay

  /** The list tab's badge: three bands, no amber. */
  function ListBadgeColor(available: int): (c: string)
    ensures c == AvailabilityGreen <==> available >= 75
    ensures c == AvailabilityYellow <==> 50 <= available < 75
    ensures c == AvailabilityRed <==> available < 50
  {
    if available >= 75 then AvailabilityGreen
    else if available >= 50 then AvailabilityYellow
    else AvailabilityRed
  }

  /** The badge and the heatmap bar agree from 50 up; below 50 the badge is
      red where the bar may be amber. */
  lemma BadgeAgreesWithBar(available: int)
    ensures available >= 50 ==> ListBadgeColor(available) == GetAvailabilityColor(available)
    ensures 25 <= available < 50 ==> ListBadgeColor(available) == AvailabilityRed
                                     && GetAvailabilityColor(available) == AvailabilityAmber
  {
  }

  /** `handleConfirm` as written: `const [date, time] = id.split(" ")`, so
      the time is the second space-separated token only ("undefined" when
      there is none). No selection (`null` or "") confirms nothing. */
  function HandleConfirm(selectedTimeSlot: Option<string>): (r: Option<ConfirmedSlot>)
    ensures r.None? <==> selectedTimeSlot.None? || selectedTimeSlot.value == ""
  {
    match selectedTimeSlot
    case None => None
    case Some(id) =>
      if id == "" then None
      else
        var parts := Split(id, ' ');
        Some(ConfirmedSlot(parts[0], if |parts| >= 2 then parts[1] else "undefined"))
  }

  /** A space-free piece followed by a space and the rest splits there. */
  lemma SplitAtFirstSpace(a: string, b: string)
    requires ' ' !in a
    ensures Split(a + " " + b, ' ') == [a] + Split(b, ' ')
  {
    assert a + " " + b == a + [' '] + b;
    SplitAtSeparator(a, b, ' ');
  }

  /** A slot id of three space-separated pieces confirms its first two. */
  lemma HandleConfirmOfPieces(date: string, digits: string, mer: string)
    requires ' ' !in date && ' ' !in digits && ' ' !in mer
    ensures HandleConfirm(Some(date + " " + (digits + " " + mer))) == Some(ConfirmedSlot(date, digits))
  {
    SplitAtFirstSpace(date, digits + " " + mer);
    SplitAtFirstSpace(digits, mer);
    SplitNoSeparator(mer, ' ');
    assert Split(date + " " + (digits + " " + mer), ' ') == [date, digits, mer];
  }

  /** As written, confirming a slot of a well-formed time reports its digits
      without AM/PM. */
  lemma HandleConfirmDropsMeridiem(date: string, h: nat, m: nat)
    requires ' ' !in date && h < 24
    ensures HandleConfirm(Some(SlotId(date, Clock24(h, m))))
            == Some(ConfirmedSlot(date, NatToString(Hour12(h)) + ":" + Pad2(m)))
  {
    FormatTimeOfClock(h, m);
    var hour := NatToString(Hour12(h));
    var digits := hour + ":" + Pad2(m);
    var mer := if h < 12 then "AM" else "PM";
    assert ' ' !in digits by {
      assert forall i :: 0 <= i < |hour| ==> IsDigit(hour[i]);
      assert forall i :: 0 <= i < |Pad2(m)| ==> IsDigit(Pad2(m)[i]);
    }
    assert ' ' !in mer;
    assert FormatTime(Clock24(h, m)) == digits + " " + mer;
    HandleConfirmOfPieces(date, digits, mer);
  }

  /** The counterexample: a morning slot and the evening slot twelve hours
      later on the same day (9:00 AM and 9:00 PM, say) are different slots,
      yet confirming either reports the same time. */
  lemma HandleConfirmConflatesAmPm(date: string, h: nat, m: nat)
    requires ' ' !in date && h < 12
    ensures SlotId(date, Clock24(h, m)) != SlotId(date, Clock24(h + 12, m))
    ensures HandleConfirm(Some(SlotId(date, Clock24(h, m))))
            == HandleConfirm(Some(SlotId(date, Clock24(h + 12, m))))
  {
    HandleConfirmDropsMeridiem(date, h, m);
    HandleConfirmDropsMeridiem(date, h + 12, m);
    assert Hour12(h + 12) == Hour12(h);
    FormatTimeTwelveApart(h, m);
    var a := SlotId(date, Clock24(h, m));
    var b := SlotId(date, Clock24(h + 12, m));
    assert a[|date| + 1..] == FormatTime(Clock24(h, m));
    assert b[|date| + 1..] == FormatTime(Clock24(h + 12, m));
  }

  /** `handleConfirm` as evidently intended: the date is the text before the
      first space and the time is all of the rest. */
  function HandleConfirmWhole(selectedTimeSlot: Option<string>): (r: Option<ConfirmedSlot>)
    ensures r.None? <==> selectedTimeSlot.None? || selectedTimeSlot.value == ""
  {
    match selectedTimeSlot
    case None => None
    case Some(id) =>
      if id == "" then None
      else
        var date := Split(id, ' ')[0];
        SplitFirstPiece(id, ' ');
        Some(ConfirmedSlot(date, if |date| < |id| then id[|date| + 1..] else ""))
  }

  /** The corrected split gives back the date and the whole shown time, so
      different times of a day are reported differently. */
  lemma HandleConfirmWholeRoundTrip(date: string, time: string)
    requires ' ' !in date
    ensures HandleConfirmWhole(Some(SlotId(date, time))) == Some(ConfirmedSlot(date, FormatTime(time)))
  {
    var id := SlotId(date, time);
    SplitAtFirstSpace(date, FormatTime(time));
    assert Split(id, ' ')[0] == date;
    assert id[|date| + 1..] == FormatTime(time);
  }
}
