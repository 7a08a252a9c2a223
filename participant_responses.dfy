/** Following up on a meeting request's answers: the response manager
    (whattime_example/components/participant-response-manager.tsx) and the
    add-in's responses view (`ResponsesView` in
    whattime_example/components/simplified-outlook-addin.tsx). Both search
    the participants of every group, split them into those who answered and
    those who did not, and keep a selection of participants to remind. The
    add-in's view also opens one group at a time. */
module ParticipantResponses {
  import opened Wrappers
  import opened JsStrings
  import opened Seqs
  import opened Selection
  import opened ResponseStatus

  datatype Participant = Participant(id: string, name: string, email: string, status: Status, isKey: bool)

  datatype Group = Group(id: string, name: string, responseRate: int, participants: seq<Participant>)

  // ---------------------------------------------------------------------------
  // Non-responders
  // ---------------------------------------------------------------------------

  /** The ids of one list's participants who have not answered, in order. */
  function PendingIds(ps: seq<Participant>): (ids: seq<string>)
    ensures forall id :: id in ids <==> exists j :: 0 <= j < |ps| && ps[j].status == NoResponse && ps[j].id == id
  {
    if ps == [] then []
    else
      var rest := PendingIds(ps[1..]);
      assert forall j :: 0 <= j < |ps[1..]| ==> ps[1..][j] == ps[j + 1];
      (if ps[0].status == NoResponse then [ps[0].id] else []) + rest
  }

  /** `groups.flatMap(g => g.participants).filter(p => p.status ===
      "no-response").map(p => p.id)`: group by group, in order. */
  function NonResponderIds(groups: seq<Group>): (ids: seq<string>)
  {
    if groups == [] then [] else PendingIds(groups[0].participants) + NonResponderIds(groups[1..])
  }

  /** An id is picked exactly when some group has a participant with that id
      who has not answered. */
  lemma {:induction false} NonResponderIdsSpec(groups: seq<Group>, id: string)
    ensures id in NonResponderIds(groups) <==>
              exists i, j :: 0 <= i < |groups| && 0 <= j < |groups[i].participants|
                             && groups[i].participants[j].status == NoResponse
                             && groups[i].participants[j].id == id
  {
    if groups != [] {
      NonResponderIdsSpec(groups[1..], id);
      if id in NonResponderIds(groups[1..]) {
        var i, j :| 0 <= i < |groups[1..]| && 0 <= j < |groups[1..][i].participants|
                    && groups[1..][i].participants[j].status == NoResponse
                    && groups[1..][i].participants[j].id == id;
        assert groups[1..][i] == groups[i + 1];
      }
      if exists i, j :: 0 <= i < |groups| && 0 <= j < |groups[i].participants|
                        && groups[i].participants[j].status == NoResponse
                        && groups[i].participants[j].id == id {
        var i, j :| 0 <= i < |groups| && 0 <= j < |groups[i].participants|
                    && groups[i].participants[j].status == NoResponse
                    && groups[i].participants[j].id == id;
        if i > 0 {
          assert groups[1..][i - 1] == groups[i];
        }
      }
    }
  }

  /** The ids of a list, in order (`.map(p => p.id)`). */
  function IdsOf(ps: seq<Participant>): (ids: seq<string>)
    ensures |ids| == |ps|
    ensures forall j :: 0 <= j < |ps| ==> ids[j] == ps[j].id
  {
    seq(|ps|, j requires 0 <= j < |ps| => ps[j].id)
  }

  /** `groups.flatMap(g => g.participants)`: every group's participants, group by group. */
  function AllParticipants(groups: seq<Group>): seq<Participant> {
    if groups == [] then [] else groups[0].participants + AllParticipants(groups[1..])
  }

  /** The pending ids of two lists one after the other are those of the
      first list followed by those of the second. */
  lemma {:induction false} PendingIdsConcat(a: seq<Participant>, b: seq<Participant>)
    ensures PendingIds(a + b) == PendingIds(a) + PendingIds(b)
  {
    if a == [] {
      assert a + b == b;
    } else {
      assert (a + b)[1..] == a[1..] + b;
      PendingIdsConcat(a[1..], b);
    }
  }

  /** The non-responders of two runs of groups are those of the first run
      followed by those of the second. */
  lemma {:induction false} NonResponderIdsConcat(g1: seq<Group>, g2: seq<Group>)
    ensures NonResponderIds(g1 + g2) == NonResponderIds(g1) + NonResponderIds(g2)
  {
    if g1 == [] {
      assert g1 + g2 == g2;
    } else {
      assert (g1 + g2)[1..] == g1[1..] + g2;
      NonResponderIdsConcat(g1[1..], g2);
    }
  }

  /** The pending ids are the filter of the participants without an answer,
      then their ids: in order, one entry per such participant. */
  lemma {:induction false} PendingIdsIsFilterMap(ps: seq<Participant>)
    ensures PendingIds(ps) == IdsOf(Filter(ps, IsPending))
  {
    if ps != [] {
      PendingIdsIsFilterMap(ps[1..]);
      var head := if IsPending(ps[0]) then [ps[0]] else [];
      var rest := Filter(ps[1..], IsPending);
      assert Filter(ps, IsPending) == head + rest;
      IdsOfConcat(head, rest);
      assert IdsOf(head) == if IsPending(ps[0]) then [ps[0].id] else [];
    }
  }

  lemma IdsOfConcat(a: seq<Participant>, b: seq<Participant>)
    ensures IdsOf(a + b) == IdsOf(a) + IdsOf(b)
  {
  }

  /** Taking the pending ids group by group is taking them from the
      flattened list. */
  lemma {:induction false} NonResponderIdsOfAll(groups: seq<Group>)
    ensures NonResponderIds(groups) == PendingIds(AllParticipants(groups))
  {
    if groups != [] {
      NonResponderIdsOfAll(groups[1..]);
      PendingIdsConcat(groups[0].participants, AllParticipants(groups[1..]));
    }
  }

  /** `selectAllNonResponders` as the source writes it: flatten the groups in
      order, keep the participants without an answer, take their ids; one
      entry per such participant. */
  lemma NonResponderIdsIsFlatMap(groups: seq<Group>)
    ensures NonResponderIds(groups) == IdsOf(Filter(AllParticipants(groups), IsPending))
    ensures |NonResponderIds(groups)| == |Filter(AllParticipants(groups), IsPending)|
  {
    NonResponderIdsOfAll(groups);
    PendingIdsIsFilterMap(AllParticipants(groups));
  }

  // ---------------------------------------------------------------------------
  // Search
  // ---------------------------------------------------------------------------

  /** The search: the lower-cased query occurs in the lower-cased name or
      e-mail. */
  predicate MatchesQuery(p: Participant, searchQuery: string) {
    Contains(ToLower(p.name), ToLower(searchQuery)) || Contains(ToLower(p.email), ToLower(searchQuery))
  }

  function Matches(searchQuery: string): Participant -> bool {
    (p: Participant) => MatchesQuery(p, searchQuery)
  }

  /** `filteredGroups`: every group stays, with only its matching participants. */
  function FilteredGroups(groups: seq<Group>, searchQuery: string): (r: seq<Group>)
    ensures |r| == |groups|
    ensures forall i :: 0 <= i < |groups| ==>
              r[i] == groups[i].(participants := Filter(groups[i].participants, Matches(searchQuery)))
  {
    seq(|groups|, i requires 0 <= i < |groups| =>
      groups[i].(participants := Filter(groups[i].participants, Matches(searchQuery))))
  }

  /** An empty query keeps everybody. */
  lemma EmptyQueryKeepsAll(groups: seq<Group>)
    ensures FilteredGroups(groups, "") == groups
  {
    forall i | 0 <= i < |groups|
      ensures Filter(groups[i].participants, Matches("")) == groups[i].participants
    {
      forall j | 0 <= j < |groups[i].participants|
        ensures Matches("")(groups[i].participants[j])
      {
        ContainsEmpty(ToLower(groups[i].participants[j].name));
      }
      FilterAllPass(groups[i].participants, Matches(""));
    }
  }

  /** The search ignores the case of ASCII letters in the query. */
  lemma SearchIgnoresCase(groups: seq<Group>, searchQuery: string)
    ensures FilteredGroups(groups, ToLower(searchQuery)) == FilteredGroups(groups, searchQuery)
  {
    ToLowerIdempotent(searchQuery);
    forall i | 0 <= i < |groups|
      ensures Filter(groups[i].participants, Matches(ToLower(searchQuery)))
              == Filter(groups[i].participants, Matches(searchQuery))
    {
      FilterAgree(groups[i].participants, Matches(ToLower(searchQuery)), Matches(searchQuery));
    }
  }

  // ---------------------------------------------------------------------------
  // Responded and pending
  // ---------------------------------------------------------------------------

  function HasResponded(p: Participant): bool { p.status != NoResponse }

  function IsPending(p: Participant): bool { p.status == NoResponse }

  /** The "Responded" tab's list of a group. */
  function Responded(g: Group): seq<Participant> {
    Filter(g.participants, HasResponded)
  }

  /** The "Pending" tab's list of a group. */
  function Pending(g: Group): seq<Participant> {
    Filter(g.participants, IsPending)
  }

  /** Every participant of a group is in exactly one of the two tabs. */
  lemma RespondedPendingPartition(g: Group, p: Participant)
    ensures |Responded(g)| + |Pending(g)| == |g.participants|
    ensures p in g.participants ==> (p in Responded(g) <==> p !in Pending(g))
  {
    FilterComplementLength(g.participants, HasResponded, IsPending);
    if p in g.participants {
      var j :| 0 <= j < |g.participants| && g.participants[j] == p;
      if HasResponded(p) {
        assert p !in Pending(g) by {
          assert forall q :: q in Pending(g) ==> IsPending(q);
        }
      } else {
        assert p !in Responded(g) by {
          assert forall q :: q in Responded(g) ==> HasResponded(q);
        }
      }
    }
  }

  /** The three tabs of the response manager. */
  datatype Tab = AllTab | RespondedTab | PendingTab

  function TabList(g: Group, tab: Tab): seq<Participant> {
    match tab
    case AllTab => g.participants
    case RespondedTab => Responded(g)
    case PendingTab => Pending(g)
  }

  /** A tab shows each group whose list in that tab is not empty, with that
      list (a group with nobody to show renders nothing). */
  function TabGroups(groups: seq<Group>, tab: Tab): (shown: seq<(Group, seq<Participant>)>)
    ensures |shown| <= |groups|
    ensures forall k :: 0 <= k < |shown| ==> shown[k].0 in groups && shown[k].1 == TabList(shown[k].0, tab) && |shown[k].1| > 0
    ensures forall i :: 0 <= i < |groups| && |TabList(groups[i], tab)| > 0 ==> (groups[i], TabList(groups[i], tab)) in shown
  {
    if groups == [] then []
    else
      var rest := TabGroups(groups[1..], tab);
      assert forall i :: 0 < i < |groups| ==> groups[i] == groups[1..][i - 1];
      (if |TabList(groups[0], tab)| > 0 then [(groups[0], TabList(groups[0], tab))] else []) + rest
  }

  /** The tabs list the groups in their own order: over two runs of groups,
      the first run's shown groups come before the second's. */
  lemma {:induction false} TabGroupsConcat(g1: seq<Group>, g2: seq<Group>, tab: Tab)
    ensures TabGroups(g1 + g2, tab) == TabGroups(g1, tab) + TabGroups(g2, tab)
  {
    if g1 == [] {
      assert g1 + g2 == g2;
    } else {
      assert (g1 + g2)[1..] == g1[1..] + g2;
      TabGroupsConcat(g1[1..], g2, tab);
    }
  }

  // ---------------------------------------------------------------------------
  // The selection
  // ---------------------------------------------------------------------------

  const RemindersPrefix := "Reminders sent to "
  const RemindersSuffix := " participants"

  /** `Reminders sent to ${n} participants`. */
  function RemindersMessage(n: nat): string {
    RemindersPrefix + NatToString(n) + RemindersSuffix
  }

  /** The message reads back as the number of participants reminded. */
  lemma RemindersMessageCount(n: nat)
    ensures ParseInt(RemindersMessage(n)[|RemindersPrefix|..]) == Some(n)
  {
    assert RemindersMessage(n)[|RemindersPrefix|..] == NatToString(n) + RemindersSuffix;
    ParseNatToString(n, RemindersSuffix);
  }

  /** The state of both components: the (fixed) groups, the search text,
      the chosen participants and, in the add-in's view, the open group. */
  class ResponsesState {
    const groups: seq<Group>
    var searchQuery: string
    var selectedParticipants: seq<string>
    var activeGroup: Option<string>

    /** A selection built by the handlers never lists an id twice. */
    ghost predicate Valid()
      reads this
    {
      NoDuplicates(selectedParticipants)
    }

    constructor(groups: seq<Group>)
      ensures this.groups == groups
      ensures searchQuery == "" && selectedParticipants == [] && activeGroup == None
      ensures Valid()
    {
      this.groups := groups;
      searchQuery := "";
      selectedParticipants := [];
      activeGroup := None;
    }

    method SetSearchQuery(q: string)
      modifies this`searchQuery
      ensures searchQuery == q
    {
      searchQuery := q;
    }

    /** What the lists show now. */
    function Shown(): seq<Group>
      reads this
    {
      FilteredGroups(groups, searchQuery)
    }

    /** `toggleParticipantSelection`. */
    method ToggleParticipantSelection(id: string)
      modifies this`selectedParticipants
      ensures selectedParticipants == Toggle(old(selectedParticipants), id)
      ensures old(Valid()) ==> Valid()
    {
      if Valid() {
        ToggleNoDuplicates(selectedParticipants, id);
      }
      if id in selectedParticipants {
        selectedParticipants := Without(selectedParticipants, id);
      } else {
        selectedParticipants := selectedParticipants + [id];
      }
    }

    /** `selectAllNonResponders`: every participant without an answer, from
        all groups whatever the search shows, replaces the selection. */
    method SelectAllNonResponders()
      modifies this`selectedParticipants
      ensures selectedParticipants == NonResponderIds(groups)
      ensures selectedParticipants == IdsOf(Filter(AllParticipants(groups), IsPending))
    {
      selectedParticipants := NonResponderIds(groups);
      NonResponderIdsIsFlatMap(groups);
    }

    /** `clearSelection`. */
    method ClearSelection()
      modifies this`selectedParticipants
      ensures selectedParticipants == []
      ensures Valid()
    {
      selectedParticipants := [];
    }

    /** The "Send Reminders" button is disabled while nobody is selected. */
    predicate SendDisabled()
      reads this
    {
      |selectedParticipants| == 0
    }

    /** `sendReminders`: the alert text (the result) counts the selection,
        which is then emptied. */
    method SendReminders() returns (alertText: string)
      modifies this`selectedParticipants
      ensures alertText == RemindersMessage(|old(selectedParticipants)|)
      ensures selectedParticipants == []
    {
      alertText := RemindersMessage(|selectedParticipants|);
      selectedParticipants := [];
    }

    /** A group header's click: it opens that group, or closes it when it is
        the open one. */
    method ToggleActiveGroup(groupId: string)
      modifies this`activeGroup
      ensures old(activeGroup) == Some(groupId) ==> activeGroup == None
      ensures old(activeGroup) != Some(groupId) ==> activeGroup == Some(groupId)
    {
      activeGroup := if activeGroup == Some(groupId) then None else Some(groupId);
    }

    /** At most one group is open. */
    predicate IsOpen(groupId: string)
      reads this
    {
      activeGroup == Some(groupId)
    }
  }
}
