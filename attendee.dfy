/** Attendees of the add-in pane's meeting optimizer
    (frontend/src/taskpane/types/attendee.ts): a member of the organisation,
    found through the directory, or an external e-mail address typed by hand. */
module Attendees {
  import opened Wrappers

  /** A directory user as the directory search returns it. */
  datatype GraphUser = GraphUser(
    id: string,
    displayName: string,
    mail: string,
    userPrincipalName: string,
    jobTitle: Option<string>,
    department: Option<string>,
    officeLocation: Option<string>)

  /** The union keyed by `isExternal`: `Internal` carries every field of the
      directory user (`isExternal: false`), `External` an address and an
      optional display name (`isExternal: true`). */
  datatype Attendee =
    | Internal(user: GraphUser)
    | External(email: string, displayName: Option<string>)

  /** A predefined group whose members are e-mail addresses. */
  datatype TeamGroup = TeamGroup(
    id: string,
    name: string,
    description: string,
    members: seq<string>,
    color: Option<string>)

  /** `DEFAULT_TEAM_GROUPS`: four groups, none with members yet. */
  function DefaultTeamGroups(): (gs: seq<TeamGroup>)
    ensures |gs| == 4
    ensures forall i, j :: 0 <= i < j < |gs| ==> gs[i].id != gs[j].id
    ensures forall i :: 0 <= i < |gs| ==> gs[i].members == [] && gs[i].color.Some?
  {
    [ TeamGroup("legal", "Legal Team", "Legal department members", [], Some("#0078d4")),
      TeamGroup("managers", "Management", "Management team members", [], Some("#107c10")),
      TeamGroup("finance", "Finance Team", "Finance department members", [], Some("#5c2d91")),
      TeamGroup("consultants", "Consultants", "Consulting team members", [], Some("#d83b01")) ]
  }

  predicate IsExternalAttendee(a: Attendee) {
    a.External?
  }

  /** Internal and external are the two exclusive kinds. */
  function IsInternalAttendee(a: Attendee): (r: bool)
    ensures r <==> !IsExternalAttendee(a)
    ensures r ==> exists u :: a == Internal(u)
  {
    !a.External?
  }

  /** The address used to recognise an attendee: the typed address, or the
      directory user's `mail`. */
  function GetAttendeeEmail(a: Attendee): (r: string)
    ensures IsExternalAttendee(a) ==> r == a.email
    ensures IsInternalAttendee(a) ==> r == a.user.mail
  {
    match a
    case External(email, _) => email
    case Internal(u) => u.mail
  }

  /** The name shown for an attendee; an external attendee without a
      (non-empty) display name is shown by address. */
  function GetAttendeeDisplayName(a: Attendee): (r: string)
    ensures IsInternalAttendee(a) ==> r == a.user.displayName
    ensures IsExternalAttendee(a) && GetAttendeeEmail(a) != "" ==> r != ""
    ensures IsExternalAttendee(a) ==> r == GetAttendeeEmail(a) || Some(r) == a.displayName
  {
    match a
    case Internal(u) => u.displayName
    case External(email, name) =>
      if name.Some? && name.value != "" then name.value else email
  }

  /** An external attendee is recognised by the address it was created with. */
  function CreateExternalAttendee(email: string, displayName: Option<string>): (a: Attendee)
    ensures IsExternalAttendee(a)
    ensures GetAttendeeEmail(a) == email
    ensures GetAttendeeDisplayName(a) == (if displayName.Some? && displayName.value != "" then displayName.value else email)
  {
    External(email, displayName)
  }

  /** An internal attendee keeps every field of the directory user. */
  function CreateInternalAttendee(user: GraphUser): (a: Attendee)
    ensures IsInternalAttendee(a)
    ensures a.user == user
    ensures GetAttendeeEmail(a) == user.mail
    ensures GetAttendeeDisplayName(a) == user.displayName
  {
    Internal(user)
  }
}
