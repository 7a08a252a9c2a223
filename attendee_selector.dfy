/** The attendee picker's handlers
    (frontend/src/taskpane/components/attendees/AttendeeSelector.tsx). Each
    handler computes the new attendee list from the current one and hands it
    to the parent's `onChange`; `None` stands for "onChange is not called".
    The directory lookup for a team group is an input. */
module AttendeeSelector {
  import opened Wrappers
  import opened Seqs
  import opened Attendees

  /** The default for the `maxAttendees` prop. */
  const DefaultMaxAttendees: int := 50

  /** What the directory lookup of a group's member addresses returned. */
  datatype MemberLookup = Users(users: seq<GraphUser>) | LookupFailed

  /** The addresses of the selected attendees, position by position. */
  function ExcludeEmails(value: seq<Attendee>): (r: seq<string>)
    ensures |r| == |value|
    ensures forall i :: 0 <= i < |value| ==> r[i] == GetAttendeeEmail(value[i])
  {
    seq(|value|, i requires 0 <= i < |value| => GetAttendeeEmail(value[i]))
  }

  /** The list is full: no single add is accepted. */
  predicate IsAtMaxCapacity(value: seq<Attendee>, maxAttendees: int) {
    |value| >= maxAttendees
  }

  /** Appends one attendee below capacity and leaves everything else alone. */
  function AddBelowCapacity(value: seq<Attendee>, maxAttendees: int, a: Attendee): (r: Option<seq<Attendee>>)
    ensures r.None? <==> IsAtMaxCapacity(value, maxAttendees)
    ensures r.Some? ==> |r.value| == |value| + 1 && r.value[..|value|] == value && r.value[|value|] == a
  {
    if |value| >= maxAttendees then None else Some(value + [a])
  }

  /** `handleInternalUserSelect`: the directory user becomes an internal attendee. */
  function HandleInternalUserSelect(value: seq<Attendee>, maxAttendees: int, user: GraphUser): (r: Option<seq<Attendee>>)
    ensures r.None? <==> IsAtMaxCapacity(value, maxAttendees)
    ensures r.Some? ==> |r.value| == |value| + 1 && r.value[..|value|] == value
                        && IsInternalAttendee(r.value[|value|]) && r.value[|value|].user == user
  {
    AddBelowCapacity(value, maxAttendees, CreateInternalAttendee(user))
  }

  /** `handleExternalAttendeeAdd`: the attendee is appended as given. */
  function HandleExternalAttendeeAdd(value: seq<Attendee>, maxAttendees: int, attendee: Attendee): (r: Option<seq<Attendee>>)
    ensures r.None? <==> IsAtMaxCapacity(value, maxAttendees)
    ensures r.Some? ==> r.value == value + [attendee]
  {
    assert value + [attendee] == (value + [attendee])[..|value|] + [attendee];
    AddBelowCapacity(value, maxAttendees, attendee)
  }

  /** The looked-up users whose address is not selected yet, in lookup order,
      as internal attendees. */
  function NewInternalAttendees(users: seq<GraphUser>, excludeEmails: seq<string>): (r: seq<Attendee>)
    ensures |r| <= |users|
  {
    if users == [] then []
    else
      (if users[0].mail in excludeEmails then [] else [CreateInternalAttendee(users[0])])
      + NewInternalAttendees(users[1..], excludeEmails)
  }

  /** Every new attendee is an internal one made from a looked-up user whose
      address is not selected, and every such user is made one. */
  lemma {:induction false} NewInternalAttendeesSpec(users: seq<GraphUser>, excludeEmails: seq<string>)
    ensures var r := NewInternalAttendees(users, excludeEmails);
            && (forall i :: 0 <= i < |r| ==> IsInternalAttendee(r[i]) && r[i].user in users
                                             && GetAttendeeEmail(r[i]) !in excludeEmails)
            && (forall u :: u in users && u.mail !in excludeEmails ==> Internal(u) in r)
  {
    if users != [] {
      NewInternalAttendeesSpec(users[1..], excludeEmails);
    }
  }

  /** The new users of `a + b` are those of `a` followed by those of `b`: the
      lookup order is kept. */
  lemma {:induction false} NewInternalAttendeesConcat(a: seq<GraphUser>, b: seq<GraphUser>, excludeEmails: seq<string>)
    ensures NewInternalAttendees(a + b, excludeEmails)
            == NewInternalAttendees(a, excludeEmails) + NewInternalAttendees(b, excludeEmails)
  {
    if a == [] {
      assert a + b == b;
    } else {
      assert (a + b)[1..] == a[1..] + b;
      NewInternalAttendeesConcat(a[1..], b, excludeEmails);
    }
  }

  /** The addresses the directory is asked for, or `None` when the group has
      no members and no lookup is made. */
  function TeamGroupLookupRequest(group: TeamGroup): (r: Option<seq<string>>)
    ensures r.None? <==> group.members == []
    ensures r.Some? ==> r.value == group.members
  {
    if |group.members| == 0 then None else Some(group.members)
  }

  /** `handleTeamGroupSelect`: adds the group's not-yet-selected members as far
      as capacity allows. */
  function HandleTeamGroupSelect(value: seq<Attendee>, maxAttendees: int, group: TeamGroup, lookup: MemberLookup): (r: Option<seq<Attendee>>)
    ensures group.members == [] ==> r.None?
    ensures lookup.LookupFailed? ==> r.None?
    ensures r.Some? ==> |r.value| <= maxAttendees
    ensures r.Some? ==> lookup.Users? && |value| <= |r.value|
                        && |r.value| - |value| <= |NewInternalAttendees(lookup.users, ExcludeEmails(value))|
                        && r.value == value + NewInternalAttendees(lookup.users, ExcludeEmails(value))[..|r.value| - |value|]
  {
    if |group.members| == 0 then None
    else
      match lookup
      case LookupFailed => None
      case Users(users) =>
        var newOnes := NewInternalAttendees(users, ExcludeEmails(value));
        if |value| + |newOnes| > maxAttendees then
          var canAdd := maxAttendees - |value|;
          if canAdd > 0 then Some(value + newOnes[..canAdd]) else None
        else
          assert newOnes[..|newOnes|] == newOnes;
          Some(value + newOnes)
  }

  /** How many members a team-group add appends: all new ones when they fit,
      exactly the free places when they do not, and nothing (no `onChange`)
      when the list is already full and some member is new. */
  lemma TeamGroupSelectCount(value: seq<Attendee>, maxAttendees: int, group: TeamGroup, users: seq<GraphUser>)
    requires group.members != []
    ensures var newOnes := NewInternalAttendees(users, ExcludeEmails(value));
            var r := HandleTeamGroupSelect(value, maxAttendees, group, Users(users));
            && (|value| + |newOnes| <= maxAttendees ==> r == Some(value + newOnes))
            && (|value| + |newOnes| > maxAttendees && |value| < maxAttendees ==> r.Some? && |r.value| == maxAttendees)
            && (|value| + |newOnes| > maxAttendees && |value| >= maxAttendees ==> r.None?)
  {
  }

  /** `handleRemoveAttendee`: drops every attendee with the removed one's address. */
  function HandleRemoveAttendee(value: seq<Attendee>, toRemove: Attendee): (r: seq<Attendee>)
    ensures |r| <= |value|
    ensures forall i :: 0 <= i < |r| ==> r[i] in value && GetAttendeeEmail(r[i]) != GetAttendeeEmail(toRemove)
    ensures forall i :: 0 <= i < |value| && GetAttendeeEmail(value[i]) != GetAttendeeEmail(toRemove) ==> value[i] in r
  {
    Filter(value, (a: Attendee) => GetAttendeeEmail(a) != GetAttendeeEmail(toRemove))
  }

  /** Removal keeps the order of what remains: it distributes over concatenation. */
  lemma HandleRemoveAttendeeConcat(a: seq<Attendee>, b: seq<Attendee>, toRemove: Attendee)
    ensures HandleRemoveAttendee(a + b, toRemove) == HandleRemoveAttendee(a, toRemove) + HandleRemoveAttendee(b, toRemove)
  {
    FilterConcat(a, b, (x: Attendee) => GetAttendeeEmail(x) != GetAttendeeEmail(toRemove));
  }
}
