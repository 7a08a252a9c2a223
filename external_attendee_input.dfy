/** The external-address field of the attendee picker
    (frontend/src/taskpane/components/attendees/ExternalAttendeeInput.tsx):
    the e-mail check, and the `email` / `error` state behind the input box. */
module ExternalAttendeeInput {
  import opened Wrappers
  import opened JsStrings
  import opened Attendees

  const EmailRequired := "Email address is required"
  const EmailInvalid := "Please enter a valid email address"
  const EmailDuplicate := "This attendee is already added"

  /** The character class `[^\s@]`. */
  predicate IsEmailChar(c: char) {
    !IsWhitespace(c) && c != '@'
  }

  /** `s[lo..hi]` is a non-empty run of `[^\s@]`. */
  predicate EmailRun(s: string, lo: int, hi: int)
    requires 0 <= lo <= hi <= |s|
  {
    lo < hi && forall k :: lo <= k < hi ==> IsEmailChar(s[k])
  }

  /** `EMAIL_REGEX.test(s)` for `^[^\s@]+@[^\s@]+\.[^\s@]+$`: three non-empty
      runs of `[^\s@]`, the first two separated by an `@`, the last two by a `.`. */
  predicate MatchesEmailRegex(s: string) {
    exists i, j :: 0 <= i < j < |s| && s[i] == '@' && s[j] == '.'
                   && EmailRun(s, 0, i) && EmailRun(s, i + 1, j) && EmailRun(s, j + 1, |s|)
  }

  /** The `@` at `i` is the only one in `s`. */
  predicate OnlyAt(s: string, i: int) {
    forall k :: 0 <= k < |s| && s[k] == '@' ==> k == i
  }

  /** The shape of an accepted address in plain terms: no white space, exactly
      one `@` with something before it, and after it a `.` that is neither the
      first nor the last character of the domain part. */
  predicate WellFormedEmail(s: string) {
    NoWhitespace(s)
    && exists i, j :: 0 < i && i + 1 < j < |s| - 1 && s[i] == '@' && OnlyAt(s, i) && s[j] == '.'
  }

  /** The regular expression accepts exactly the well-formed addresses. */
  lemma EmailRegexSpec(s: string)
    ensures MatchesEmailRegex(s) <==> WellFormedEmail(s)
  {
    if MatchesEmailRegex(s) {
      var i, j :| 0 <= i < j < |s| && s[i] == '@' && s[j] == '.'
                  && EmailRun(s, 0, i) && EmailRun(s, i + 1, j) && EmailRun(s, j + 1, |s|);
      RegexMatchIsWellFormed(s, i, j);
    }
    if WellFormedEmail(s) {
      var i, j :| 0 < i && i + 1 < j < |s| - 1 && s[i] == '@' && OnlyAt(s, i) && s[j] == '.';
      WellFormedMatchesRegex(s, i, j);
    }
  }

  lemma RegexMatchIsWellFormed(s: string, i: int, j: int)
    requires 0 <= i < j < |s| && s[i] == '@' && s[j] == '.'
    requires EmailRun(s, 0, i) && EmailRun(s, i + 1, j) && EmailRun(s, j + 1, |s|)
    ensures 0 < i && i + 1 < j < |s| - 1 && OnlyAt(s, i) && NoWhitespace(s)
  {
    assert forall k :: 0 <= k < |s| && k != i && k != j ==> IsEmailChar(s[k]);
  }

  lemma WellFormedMatchesRegex(s: string, i: int, j: int)
    requires NoWhitespace(s)
    requires 0 < i && i + 1 < j < |s| - 1 && s[i] == '@' && OnlyAt(s, i) && s[j] == '.'
    ensures EmailRun(s, 0, i) && EmailRun(s, i + 1, j) && EmailRun(s, j + 1, |s|)
  {
  }

  /** Lowercasing an ASCII letter never produces or removes `@`, `.` or white space. */
  lemma LowerCharEmailClasses(c: char)
    ensures IsEmailChar(LowerChar(c)) == IsEmailChar(c)
    ensures (LowerChar(c) == '@') == (c == '@')
    ensures (LowerChar(c) == '.') == (c == '.')
  {
    LowerCharWhitespace(c);
  }

  /** The regular expression does not depend on letter case. */
  lemma EmailRegexIgnoresCase(s: string)
    ensures MatchesEmailRegex(ToLower(s)) == MatchesEmailRegex(s)
  {
    var t := ToLower(s);
    forall k | 0 <= k < |s|
      ensures SameClass(s[k], t[k]) && SameClass(t[k], s[k])
    {
      LowerCharEmailClasses(s[k]);
    }
    MatchesUnderSameClass(s, t);
    MatchesUnderSameClass(t, s);
  }

  lemma MatchesUnderSameClass(s: string, t: string)
    requires |s| == |t|
    requires forall k :: 0 <= k < |s| ==> SameClass(s[k], t[k])
    ensures MatchesEmailRegex(s) ==> MatchesEmailRegex(t)
  {
    if MatchesEmailRegex(s) {
      var i, j :| 0 <= i < j < |s| && s[i] == '@' && s[j] == '.'
                  && EmailRun(s, 0, i) && EmailRun(s, i + 1, j) && EmailRun(s, j + 1, |s|);
      MatchTransfers(s, t, i, j);
    }
  }

  /** Two characters the regular expression cannot tell apart. */
  predicate SameClass(c: char, d: char) {
    IsEmailChar(c) == IsEmailChar(d) && (c == '@') == (d == '@') && (c == '.') == (d == '.')
  }

  /** A match carries over, at the same positions, to a string whose
      characters the expression cannot tell apart from the original's. */
  lemma MatchTransfers(s: string, t: string, i: int, j: int)
    requires |s| == |t|
    requires forall k :: 0 <= k < |s| ==> SameClass(s[k], t[k])
    requires 0 <= i < j < |s| && s[i] == '@' && s[j] == '.'
    requires EmailRun(s, 0, i) && EmailRun(s, i + 1, j) && EmailRun(s, j + 1, |s|)
    ensures t[i] == '@' && t[j] == '.'
    ensures EmailRun(t, 0, i) && EmailRun(t, i + 1, j) && EmailRun(t, j + 1, |t|)
  {
    assert SameClass(s[i], t[i]) && SameClass(s[j], t[j]);
  }

  /** `validateEmail`: required, then format, then duplicate; the first
      failing check is reported and `None` (`null`) means valid. */
  function ValidateEmail(excludeEmails: seq<string>, v: string): (r: Option<string>)
    ensures IsBlank(v) ==> r == Some(EmailRequired)
    ensures !IsBlank(v) && !WellFormedEmail(v) ==> r == Some(EmailInvalid)
    ensures !IsBlank(v) && WellFormedEmail(v) && ToLower(v) in excludeEmails ==> r == Some(EmailDuplicate)
    ensures r.None? <==> WellFormedEmail(v) && ToLower(v) !in excludeEmails
  {
    TrimEmptyIffBlank(v);
    EmailRegexSpec(v);
    if Trim(v) == "" then Some(EmailRequired)
    else if !MatchesEmailRegex(v) then Some(EmailInvalid)
    else if ToLower(v) in excludeEmails then Some(EmailDuplicate)
    else None
  }

  /** `isValid`, which enables the Add button: checked on the trimmed input,
      without lowercasing it first. */
  predicate IsValidInput(excludeEmails: seq<string>, email: string) {
    Trim(email) != "" && ValidateEmail(excludeEmails, Trim(email)).None?
  }

  /** The Add button is enabled exactly when pressing it would add an attendee:
      the check on the trimmed input and the one on its lowercased form agree. */
  lemma AddEnabledIffAddSucceeds(excludeEmails: seq<string>, email: string)
    ensures IsValidInput(excludeEmails, email) <==> ValidateEmail(excludeEmails, ToLower(Trim(email))).None?
  {
    var t := Trim(email);
    EmailRegexIgnoresCase(t);
    EmailRegexSpec(t);
    EmailRegexSpec(ToLower(t));
    ToLowerIdempotent(t);
  }

  /** The display name given to an added address is its non-empty local part,
      the text before its only `@`. */
  lemma DisplayNameIsLocalPart(t: string)
    requires WellFormedEmail(t)
    ensures var n := Split(t, '@')[0];
            n != "" && '@' !in n && n + "@" <= t
  {
    var i, j :| 0 < i && i + 1 < j < |t| - 1 && t[i] == '@' && OnlyAt(t, i) && t[j] == '.';
    var n := Split(t, '@')[0];
    SplitFirstPiece(t, '@');
    assert forall k :: 0 <= k < |n| ==> t[k] == n[k] && t[k] != '@';
    assert |n| <= i;
    assert |n| == i;
    assert n + "@" == t[..i + 1];
  }

  /** What pressing Add does with the text in the box. */
  datatype AddOutcome = Rejected(error: string) | Accepted(attendee: Attendee)

  /** `handleAddAttendee`'s decision for the text in the box. */
  function AddAttempt(excludeEmails: seq<string>, email: string): AddOutcome {
    var t := ToLower(Trim(email));
    match ValidateEmail(excludeEmails, t)
    case Some(msg) => Rejected(msg)
    case None => Accepted(CreateExternalAttendee(t, Some(Split(t, '@')[0])))
  }

  /** The check runs on the trimmed, lowercased input and its first failure is
      the error shown; an accepted address becomes an external attendee with
      that address and, as display name, the non-empty local part before the `@`. */
  lemma AddAttemptSpec(excludeEmails: seq<string>, email: string)
    ensures var t := ToLower(Trim(email));
            var r := AddAttempt(excludeEmails, email);
            && (r.Rejected? <==> ValidateEmail(excludeEmails, t).Some?)
            && (r.Rejected? ==> ValidateEmail(excludeEmails, t) == Some(r.error))
            && (r.Accepted? ==> && IsExternalAttendee(r.attendee) && GetAttendeeEmail(r.attendee) == t
                                && r.attendee.displayName.Some?
                                && var n := r.attendee.displayName.value;
                                   n != "" && '@' !in n && n + "@" <= t)
  {
    var t := ToLower(Trim(email));
    if ValidateEmail(excludeEmails, t).None? {
      DisplayNameIsLocalPart(t);
    }
  }

  /** The state behind the input box; `excludeEmails` is the prop. */
  class ExternalAttendeeInput {
    const excludeEmails: seq<string>
    var email: string
    var error: Option<string>

    constructor(excludeEmails: seq<string>)
      ensures this.excludeEmails == excludeEmails
      ensures email == "" && error == None
    {
      this.excludeEmails := excludeEmails;
      email := "";
      error := None;
    }

    /** The Add button's state. */
    predicate AddEnabled()
      reads this
    {
      IsValidInput(excludeEmails, email)
    }

    /** `handleAddAttendee`: on a failed check the error is shown and nothing
        is added; on success the attendee passed to `onAttendeeAdd` is
        returned and the box is reset. */
    method HandleAddAttendee() returns (added: Option<Attendee>)
      modifies this
      ensures match AddAttempt(excludeEmails, old(email))
              case Rejected(msg) => added == None && error == Some(msg) && email == old(email)
              case Accepted(a) => added == Some(a) && email == "" && error == None
    {
      var outcome := AddAttempt(excludeEmails, email);
      if outcome.Rejected? {
        error := Some(outcome.error);
        added := None;
      } else {
        added := Some(outcome.attendee);
        email := "";
        error := None;
      }
    }

    /** `handleEmailChange`: typing replaces the text and clears any error. */
    method HandleEmailChange(value: string)
      modifies this
      ensures email == value && error == None
    {
      email := value;
      if error.Some? {
        error := None;
      }
    }
  }
}
