/** The add-in pane's meeting optimizer form
    (frontend/src/taskpane/components/MeetingOptimizer.tsx): a list of
    attendee addresses, a duration, and the call that asks the backend for
    suggestions, whose answer is an input here. */
module MeetingOptimizer {
  import opened Wrappers
  import opened JsStrings
  import opened Seqs
  import opened Selection

  const NoAttendeesError := "Please add at least one attendee."
  const OptimizeFailedMessage := "Failed to optimize meeting. Please try again."
  const DefaultDuration: int := 60

  const ScoreGreen := "#10b981"
  const ScoreYellow := "#f59e0b"
  const ScoreRed := "#ef4444"

  datatype MeetingSuggestion = MeetingSuggestion(startTime: string, endTime: string, score: int, reason: string)

  datatype OptimizationResult = OptimizationResult(
    optimizedSuggestions: seq<MeetingSuggestion>,
    attendees: seq<string>,
    duration: int)

  /** The arguments of the backend call. */
  datatype OptimizeRequest = OptimizeRequest(attendees: seq<string>, duration: int)

  /** The backend's answer: a result, or a failure with its message ("" when none). */
  datatype OptimizeResponse = Optimized(result: OptimizationResult) | OptimizeFailed(message: string)

  /** `parseInt(duration) || 60`: the parsed number, or 60 when the text is
      not a number (`NaN`) or reads as 0. */
  function DurationToSend(duration: string): (d: int)
    ensures d != 0
    ensures ParseInt(duration).None? ==> d == DefaultDuration
    ensures ParseInt(duration).Some? && ParseInt(duration).value != 0 ==> d == ParseInt(duration).value
  {
    match ParseInt(duration)
    case None => DefaultDuration
    case Some(n) => if n == 0 then DefaultDuration else n
  }

  /** Every positive numeral is sent as the number it spells. */
  lemma DurationOfNumeral(n: nat)
    requires n > 0
    ensures DurationToSend(NatToString(n)) == n
  {
    ParseNatToString(n, "");
    assert NatToString(n) + "" == NatToString(n);
  }

  /** "0" falls back to the default. */
  lemma DurationOfZero()
    ensures DurationToSend("0") == DefaultDuration
  {
    ParseNatToString(0, "");
    assert NatToString(0) + "" == "0";
  }

  /** `getScoreColor`: green from 90, yellow from 75, red below. */
  function GetScoreColor(score: int): (c: string)
    ensures c == ScoreGreen <==> score >= 90
    ensures c == ScoreYellow <==> 75 <= score < 90
    ensures c == ScoreRed <==> score < 75
  {
    if score >= 90 then ScoreGreen
    else if score >= 75 then ScoreYellow
    else ScoreRed
  }

  /** A higher score never gets a lower band. */
  lemma GetScoreColorMonotone(a: int, b: int)
    requires a <= b
    ensures GetScoreColor(a) == ScoreGreen ==> GetScoreColor(b) == ScoreGreen
    ensures GetScoreColor(b) == ScoreRed ==> GetScoreColor(a) == ScoreRed
  {
  }

  /** The form's state. */
  class MeetingOptimizer {
    var attendees: seq<string>
    var newAttendee: string
    var duration: string
    var isOptimizing: bool
    var optimizationResult: Option<OptimizationResult>
    var error: Option<string>

    /** What `addAttendee` and `removeAttendee` keep: distinct, trimmed,
        non-empty addresses. */
    ghost predicate Valid()
      reads this
    {
      && NoDuplicates(attendees)
      && forall a :: a in attendees ==> a != "" && Trim(a) == a
    }

    constructor()
      ensures Valid()
      ensures attendees == [] && newAttendee == "" && duration == "60"
      ensures !isOptimizing && optimizationResult == None && error == None
    {
      attendees := [];
      newAttendee := "";
      duration := "60";
      isOptimizing := false;
      optimizationResult := None;
      error := None;
    }

    /** `addAttendee`: appends the trimmed input and clears the box, unless the
        input is blank or already listed, in which case nothing changes. */
    method AddAttendee()
      requires Valid()
      modifies this
      ensures Valid()
      ensures var t := Trim(old(newAttendee));
              if t != "" && t !in old(attendees)
              then attendees == old(attendees) + [t] && newAttendee == ""
              else attendees == old(attendees) && newAttendee == old(newAttendee)
      ensures duration == old(duration) && isOptimizing == old(isOptimizing)
      ensures optimizationResult == old(optimizationResult) && error == old(error)
    {
      var t := Trim(newAttendee);
      if t != "" && t !in attendees {
        TrimIdempotent(newAttendee);
        attendees := attendees + [t];
        newAttendee := "";
      }
    }

    /** `removeAttendee(email)`: every entry equal to `email` goes, the others stay in order. */
    method RemoveAttendee(email: string)
      requires Valid()
      modifies this
      ensures Valid()
      ensures attendees == Without(old(attendees), email)
      ensures attendees == Filter(old(attendees), (x: string) => x != email)
      ensures newAttendee == old(newAttendee) && duration == old(duration) && isOptimizing == old(isOptimizing)
      ensures optimizationResult == old(optimizationResult) && error == old(error)
    {
      WithoutNoDuplicates(attendees, email);
      WithoutIsFilter(attendees, email);
      attendees := Without(attendees, email);
    }

    /** `handleOptimizeMeeting` run to its end, given the backend's answer.
        Returns the request sent, or `None` when there is no attendee. */
    method HandleOptimizeMeeting(response: OptimizeResponse) returns (request: Option<OptimizeRequest>)
      modifies this
      ensures attendees == old(attendees) && newAttendee == old(newAttendee) && duration == old(duration)
      ensures old(attendees) == [] ==> && request == None && error == Some(NoAttendeesError)
                                       && isOptimizing == old(isOptimizing)
                                       && optimizationResult == old(optimizationResult)
      ensures old(attendees) != [] ==> && request == Some(OptimizeRequest(attendees, DurationToSend(duration)))
                                       && !isOptimizing
      ensures old(attendees) != [] && response.Optimized? ==>
                optimizationResult == Some(response.result) && error == None
      ensures old(attendees) != [] && response.OptimizeFailed? ==>
                && optimizationResult == old(optimizationResult)
                && error == Some(if response.message != "" then response.message else OptimizeFailedMessage)
    {
      if |attendees| == 0 {
        error := Some(NoAttendeesError);
        return None;
      }
      isOptimizing := true;
      error := None;
      request := Some(OptimizeRequest(attendees, DurationToSend(duration)));
      match response {
        case Optimized(result) =>
          optimizationResult := Some(result);
        case OptimizeFailed(message) =>
          error := Some(if message != "" then message else OptimizeFailedMessage);
      }
      isOptimizing := false;
    }
  }
}
