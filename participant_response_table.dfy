/** The response table
    (whattime_example/components/participant-response-table.tsx): one row
    per participant, one column per time option, the answer read from the
    participant's responses with "no response" as the default, the two-line
    column header and the notes preview. */
module ParticipantResponseTable {
  import opened Wrappers
  import opened JsStrings
  import opened Seqs
  import opened ResponseStatus

  datatype TimeOption = TimeOption(id: string, dateTime: string)

  datatype ParticipantResponse = ParticipantResponse(timeOptionId: string, status: Status)

  datatype Participant = Participant(
    id: string,
    name: string,
    email: string,
    group: string,
    responses: seq<ParticipantResponse>,
    notes: string)

  function ForOption(timeOptionId: string): ParticipantResponse -> bool {
    (r: ParticipantResponse) => r.timeOptionId == timeOptionId
  }

  /** `getResponseStatus`: the status of a response to the option, and "no
      response" when the participant has none. */
  function GetResponseStatus(participant: Participant, timeOptionId: string): (status: Status)
    ensures (forall i :: 0 <= i < |participant.responses| ==> participant.responses[i].timeOptionId != timeOptionId)
            ==> status == NoResponse
    ensures status != NoResponse ==>
              exists i :: 0 <= i < |participant.responses|
                          && participant.responses[i].timeOptionId == timeOptionId
                          && participant.responses[i].status == status
  {
    match Find(participant.responses, ForOption(timeOptionId))
    case None => NoResponse
    case Some(r) => r.status
  }

  /** It is the first response to the option that counts. */
  lemma FirstResponseCounts(participant: Participant, timeOptionId: string, k: nat)
    requires k < |participant.responses| && participant.responses[k].timeOptionId == timeOptionId
    requires forall i :: 0 <= i < k ==> participant.responses[i].timeOptionId != timeOptionId
    ensures GetResponseStatus(participant, timeOptionId) == participant.responses[k].status
  {
    FindAt(participant.responses, ForOption(timeOptionId), k);
  }

  /** The column header: `dateTime.split(",")[0]` above
      `dateTime.split(",")[1]`, the latter `undefined` (nothing shown)
      without a comma. */
  function HeaderLines(dateTime: string): (lines: (string, Option<string>))
    ensures ',' !in lines.0
    ensures lines.1.Some? ==> ',' !in lines.1.value
  {
    var parts := Split(dateTime, ',');
    (parts[0], if |parts| >= 2 then Some(parts[1]) else None)
  }

  /** A heading without a comma is all on the first line. */
  lemma HeaderWithoutComma(dateTime: string)
    requires ',' !in dateTime
    ensures HeaderLines(dateTime) == (dateTime, None)
  {
    SplitNoSeparator(dateTime, ',');
  }

  /** The first line is the text before the first comma and the second line
      the text between the first comma and the next one (or the end). */
  lemma HeaderAtCommas(before: string, between: string, rest: Option<string>)
    requires ',' !in before && ',' !in between
    ensures var dateTime := before + [','] + between + (if rest.Some? then [','] + rest.value else "");
            HeaderLines(dateTime) == (before, Some(between))
  {
    var tail := between + (if rest.Some? then [','] + rest.value else "");
    assert before + [','] + between + (if rest.Some? then [','] + rest.value else "") == before + [','] + tail;
    SplitAtSeparator(before, tail, ',');
    if rest.Some? {
      assert tail == between + [','] + rest.value;
      SplitAtSeparator(between, rest.value, ',');
    } else {
      assert tail == between;
      SplitNoSeparator(between, ',');
    }
  }

  /** The header row: participant, group, one heading per option, notes. */
  function HeaderTexts(timeOptions: seq<TimeOption>): (texts: seq<string>)
    ensures |texts| == |timeOptions| + 3
    ensures texts[0] == "Participant" && texts[1] == "Group" && texts[|texts| - 1] == "Notes"
    ensures forall i :: 0 <= i < |timeOptions| ==> texts[i + 2] == timeOptions[i].dateTime
  {
    ["Participant", "Group"] + seq(|timeOptions|, i requires 0 <= i < |timeOptions| => timeOptions[i].dateTime) + ["Notes"]
  }

  /** The notes column. */
  datatype NotesCell = NotesPreview(preview: string, full: string) | NoNotes

  /** Non-empty notes show `notes.substring(0, 20)` and "...", with the whole
      text in the tooltip; empty notes read "No notes". */
  function NotesColumn(notes: string): (cell: NotesCell)
    ensures cell.NoNotes? <==> notes == ""
    ensures cell.NotesPreview? ==>
              && cell.full == notes
              && |cell.preview| <= 23
              && exists k :: 0 <= k <= |notes| && cell.preview == notes[..k] + "..."
                              && (k == 20 || k == |notes|)
    ensures cell.NotesPreview? && |notes| <= 20 ==> cell.preview == notes + "..."
  {
    if notes == "" then NoNotes
    else
      var k := if |notes| < 20 then |notes| else 20;
      assert notes[..|notes|] == notes;
      NotesPreview(notes[..k] + "...", notes)
  }

  /** One participant's row. */
  datatype Row = Row(name: string, email: string, group: string, statuses: seq<Status>, notes: NotesCell)

  function RowOf(participant: Participant, timeOptions: seq<TimeOption>): (row: Row)
    ensures |row.statuses| == |timeOptions|
    ensures forall i :: 0 <= i < |timeOptions| ==> row.statuses[i] == GetResponseStatus(participant, timeOptions[i].id)
  {
    Row(participant.name, participant.email, participant.group,
        seq(|timeOptions|, i requires 0 <= i < |timeOptions| => GetResponseStatus(participant, timeOptions[i].id)),
        NotesColumn(participant.notes))
  }

  /** Name, group, one cell per option, notes. */
  function RowWidth(row: Row): nat {
    3 + |row.statuses|
  }

  /** The table body: the placeholder row across all columns, or the rows. */
  datatype Body = NoParticipants(colSpan: nat) | ParticipantRows(rows: seq<Row>)

  function TableBody(participants: seq<Participant>, timeOptions: seq<TimeOption>): (body: Body)
    ensures body.NoParticipants? <==> |participants| == 0
    ensures body.NoParticipants? ==> body.colSpan == |timeOptions| + 3
    ensures body.ParticipantRows? ==>
              |body.rows| == |participants|
              && forall i :: 0 <= i < |participants| ==> body.rows[i] == RowOf(participants[i], timeOptions)
  {
    if |participants| == 0 then NoParticipants(|timeOptions| + 3)
    else ParticipantRows(seq(|participants|, i requires 0 <= i < |participants| => RowOf(participants[i], timeOptions)))
  }

  /** The placeholder spans exactly the header, and every row is as wide as
      the header. */
  lemma BodyFitsHeader(participants: seq<Participant>, timeOptions: seq<TimeOption>)
    ensures var body := TableBody(participants, timeOptions);
            && (body.NoParticipants? ==> body.colSpan == |HeaderTexts(timeOptions)|)
            && (body.ParticipantRows? ==>
                  forall i :: 0 <= i < |body.rows| ==> RowWidth(body.rows[i]) == |HeaderTexts(timeOptions)|)
  {
  }
}
