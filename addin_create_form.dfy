/** The add-in's "create meeting request" form (`CreateMeetingView` in
    whattime_example/components/simplified-outlook-addin.tsx): time ranges,
    participant groups edited by id, the check run before the e-mail
    preview and the one run before sending. The clock that names new rows
    (`Date.now()`) and today's date are parameters of the operations. */
module AddinCreateForm {
  import opened Wrappers
  import opened JsStrings
  import opened Seqs
  import opened FormLists
  import opened MeetingForm

  datatype Participant = Participant(id: string, email: string, isKey: bool)

  datatype Group = Group(id: string, name: string, participants: seq<Participant>)

  function ParticipantId(p: Participant): string { p.id }

  function GroupId(g: Group): string { g.id }

  /** The two changes made to one participant. */
  datatype ParticipantEdit = SetEmail(newEmail: string) | FlipKey

  function EditParticipant(edit: ParticipantEdit, p: Participant): (q: Participant)
    ensures q.id == p.id
    ensures q.email == (if edit.SetEmail? then edit.newEmail else p.email)
    ensures q.isKey == (if edit.FlipKey? then !p.isKey else p.isKey)
  {
    match edit
    case SetEmail(e) => p.(email := e)
    case FlipKey => p.(isKey := !p.isKey)
  }

  function ParticipantEditor(edit: ParticipantEdit): Participant -> Participant {
    p => EditParticipant(edit, p)
  }

  /** The changes the form makes to one group: `updateGroupName`,
      `addParticipant`, `removeParticipant`, `updateParticipant` and
      `toggleKeyParticipant`. */
  datatype GroupEdit =
    | Rename(newName: string)
    | AddParticipant(participantId: string)
    | RemoveParticipant(participantId: string)
    | SetParticipantEmail(participantId: string, email: string)
    | ToggleKey(participantId: string)

  /** The group after one change; the id never changes, and only the name or
      only the participants do. */
  function EditGroup(edit: GroupEdit, g: Group): (h: Group)
    ensures h.id == g.id
    ensures edit.Rename? ==> h == g.(name := edit.newName)
    ensures !edit.Rename? ==> h.name == g.name
    ensures edit.AddParticipant? ==> h.participants == g.participants + [Participant(edit.participantId, "", false)]
    ensures edit.RemoveParticipant? ==> h.participants == WithoutId(g.participants, ParticipantId, edit.participantId)
  {
    match edit
    case Rename(n) => g.(name := n)
    case AddParticipant(pid) => g.(participants := g.participants + [Participant(pid, "", false)])
    case RemoveParticipant(pid) => g.(participants := WithoutId(g.participants, ParticipantId, pid))
    case SetParticipantEmail(pid, e) =>
      g.(participants := UpdateById(g.participants, ParticipantId, pid, ParticipantEditor(SetEmail(e))))
    case ToggleKey(pid) =>
      g.(participants := UpdateById(g.participants, ParticipantId, pid, ParticipantEditor(FlipKey)))
  }

  function GroupEditor(edit: GroupEdit): Group -> Group {
    g => EditGroup(edit, g)
  }

  /** Editing participants of group `groupId` leaves every other group as it
      is, changes only the participant with the id inside that group, and
      keeps the number of groups and of that group's participants. */
  lemma EditParticipantSpec(groups: seq<Group>, groupId: string, pid: string, edit: ParticipantEdit)
    ensures var ge := if edit.FlipKey? then ToggleKey(pid) else SetParticipantEmail(pid, edit.newEmail);
            var r := UpdateById(groups, GroupId, groupId, GroupEditor(ge));
            && |r| == |groups|
            && (forall i :: 0 <= i < |groups| && groups[i].id != groupId ==> r[i] == groups[i])
            && (forall i :: 0 <= i < |groups| && groups[i].id == groupId ==>
                  && r[i].id == groups[i].id && r[i].name == groups[i].name
                  && |r[i].participants| == |groups[i].participants|
                  && forall k :: 0 <= k < |groups[i].participants| ==>
                       r[i].participants[k]
                       == if groups[i].participants[k].id == pid
                          then EditParticipant(edit, groups[i].participants[k])
                          else groups[i].participants[k])
  {
  }

  /** `toggleKeyParticipant` twice on the same participant restores the groups. */
  lemma ToggleKeyTwice(groups: seq<Group>, groupId: string, pid: string)
    ensures var t := GroupEditor(ToggleKey(pid));
            UpdateById(UpdateById(groups, GroupId, groupId, t), GroupId, groupId, t) == groups
  {
    var t := GroupEditor(ToggleKey(pid));
    var f := ParticipantEditor(FlipKey);
    forall p: Participant
      ensures ParticipantId(f(p)) == ParticipantId(p) && f(f(p)) == p
    {
    }
    forall g: Group
      ensures GroupId(t(g)) == GroupId(g) && t(t(g)) == g
    {
      UpdateByIdTwice(g.participants, ParticipantId, pid, f);
    }
    UpdateByIdTwice(groups, GroupId, groupId, t);
  }

  /** A copy of a saved group's participants: each keeps its address and key
      flag and gets the id `p<stamp>-<old id>`. */
  function CopyParticipants(ps: seq<Participant>, stamp: string): (r: seq<Participant>)
    ensures |r| == |ps|
    ensures forall k :: 0 <= k < |ps| ==> r[k] == ps[k].(id := "p" + stamp + "-" + ps[k].id)
  {
    seq(|ps|, k requires 0 <= k < |ps| => ps[k].(id := "p" + stamp + "-" + ps[k].id))
  }

  /** The copied ids are as distinct as the saved ones: the common prefix is injective. */
  lemma CopyParticipantsDistinct(ps: seq<Participant>, stamp: string)
    ensures DistinctIds(CopyParticipants(ps, stamp), ParticipantId) <==> DistinctIds(ps, ParticipantId)
  {
    var r := CopyParticipants(ps, stamp);
    var pre := "p" + stamp + "-";
    forall i, j | 0 <= i < j < |ps|
      ensures (r[i].id == r[j].id) == (ps[i].id == ps[j].id)
    {
      assert r[i].id == pre + ps[i].id && r[j].id == pre + ps[j].id;
      if r[i].id == r[j].id {
        assert ps[i].id == r[i].id[|pre|..];
        assert ps[j].id == r[j].id[|pre|..];
      }
    }
  }

  function HasGroupId(id: string): Group -> bool {
    (g: Group) => g.id == id
  }

  // ---------------------------------------------------------------------------
  // The checks before previewing and before sending
  // ---------------------------------------------------------------------------

  const TitleMissing := "Please enter a meeting title"
  const DurationMissing := "Please select a meeting duration"
  const RangesIncomplete := "Please complete all time range fields or remove them"
  const GroupsIncomplete := "Please add participants to all groups or remove empty groups"

  /** A range that is not all day and lacks a start or an end. */
  predicate RangeIncomplete(r: TimeRange) {
    !r.isAllDay && (r.startTime == "" || r.endTime == "")
  }

  /** A group without participants, or with a blank address. */
  predicate GroupIncomplete(g: Group) {
    |g.participants| == 0 || exists k :: 0 <= k < |g.participants| && Trim(g.participants[k].email) == ""
  }

  /** `handlePreviewEmail`'s check: the title, then the duration. */
  function PreviewFailure(title: string, duration: string): (r: Option<string>)
    ensures IsBlank(title) ==> r == Some(TitleMissing)
    ensures !IsBlank(title) && duration == "" ==> r == Some(DurationMissing)
    ensures r.None? <==> !IsBlank(title) && duration != ""
  {
    TrimEmptyIffBlank(title);
    if Trim(title) == "" then Some(TitleMissing)
    else if duration == "" then Some(DurationMissing)
    else None
  }

  /** `handleSubmitMeetingRequest`'s check: title, duration, ranges, groups,
      in this order; the first failure is the message shown and `None` means
      the request goes out. */
  function SubmitError(title: string, duration: string, ranges: seq<TimeRange>, groups: seq<Group>): (r: Option<string>)
    ensures IsBlank(title) ==> r == Some(TitleMissing)
    ensures !IsBlank(title) && duration == "" ==> r == Some(DurationMissing)
    ensures !IsBlank(title) && duration != ""
            && (exists i :: 0 <= i < |ranges| && RangeIncomplete(ranges[i]))
            ==> r == Some(RangesIncomplete)
    ensures !IsBlank(title) && duration != ""
            && (forall i :: 0 <= i < |ranges| ==> !RangeIncomplete(ranges[i]))
            && (exists i :: 0 <= i < |groups| && GroupIncomplete(groups[i]))
            ==> r == Some(GroupsIncomplete)
    ensures r.None? <==> && !IsBlank(title) && duration != ""
                         && (forall i :: 0 <= i < |ranges| ==> !RangeIncomplete(ranges[i]))
                         && (forall i :: 0 <= i < |groups| ==> !GroupIncomplete(groups[i]))
  {
    TrimEmptyIffBlank(title);
    FilterNonEmpty(ranges, RangeIncomplete);
    FilterNonEmpty(groups, GroupIncomplete);
    if Trim(title) == "" then Some(TitleMissing)
    else if duration == "" then Some(DurationMissing)
    else if |Filter(ranges, RangeIncomplete)| > 0 then Some(RangesIncomplete)
    else if |Filter(groups, GroupIncomplete)| > 0 then Some(GroupsIncomplete)
    else None
  }

  /** Sending runs the preview's two checks first, with the same messages. */
  lemma SubmitExtendsPreview(title: string, duration: string, ranges: seq<TimeRange>, groups: seq<Group>)
    ensures PreviewFailure(title, duration).Some? ==> SubmitError(title, duration, ranges, groups) == PreviewFailure(title, duration)
    ensures SubmitError(title, duration, ranges, groups).None? ==> PreviewFailure(title, duration).None?
  {
  }

  // ---------------------------------------------------------------------------
  // The form's state
  // ---------------------------------------------------------------------------

  class CreateMeetingForm {
    /** The saved groups offered in the drop-down. */
    const savedGroups: seq<Group>
    var isSubmitting: bool
    var meetingTitle: string
    var location: string
    var duration: string
    var timezone: string
    var showEmailPreview: bool
    var timeRanges: seq<TimeRange>
    var groups: seq<Group>

    /** Both lists keep at least one row, and rows are told apart by id. */
    ghost predicate Valid()
      reads this
    {
      && |timeRanges| >= 1 && DistinctIds(timeRanges, RangeId)
      && |groups| >= 1 && DistinctIds(groups, GroupId)
    }

    /** The initial form: one empty range dated today, the given groups. */
    constructor(today: string, initialGroups: seq<Group>, savedGroups: seq<Group>)
      ensures this.savedGroups == savedGroups
      ensures timeRanges == [TimeRange("1", today, "", "", false)] && groups == initialGroups
      ensures !isSubmitting && meetingTitle == "" && location == "" && duration == ""
      ensures timezone == "et" && !showEmailPreview
      ensures |initialGroups| >= 1 && DistinctIds(initialGroups, GroupId) ==> Valid()
    {
      this.savedGroups := savedGroups;
      isSubmitting := false;
      meetingTitle := "";
      location := "";
      duration := "";
      timezone := "et";
      showEmailPreview := false;
      timeRanges := [TimeRange("1", today, "", "", false)];
      groups := initialGroups;
    }

    /** `addTimeRange`: one empty range dated today at the end. */
    method AddTimeRange(newId: string, today: string)
      modifies this`timeRanges
      ensures timeRanges == old(timeRanges) + [NewTimeRange(newId, today)]
      ensures old(Valid()) && !HasId(old(timeRanges), RangeId, newId) ==> Valid()
    {
      timeRanges := timeRanges + [NewTimeRange(newId, today)];
    }

    /** `removeTimeRange`: only while more than one range is left. */
    method RemoveTimeRange(id: string)
      modifies this`timeRanges
      ensures timeRanges == RemoveUnlessLast(old(timeRanges), RangeId, id)
      ensures old(Valid()) ==> Valid()
    {
      if Valid() {
        RemoveKeepsOne(timeRanges, RangeId, id);
      }
      if |timeRanges| > 1 {
        timeRanges := WithoutId(timeRanges, RangeId, id);
      }
    }

    /** `updateTimeRange`: the range with the id gets the edit. */
    method UpdateTimeRange(id: string, edit: RangeEdit)
      modifies this`timeRanges
      ensures timeRanges == UpdateById(old(timeRanges), RangeId, id, RangeEditor(edit))
      ensures old(Valid()) ==> Valid()
    {
      if Valid() {
        UpdateTimeRangeSpec(timeRanges, id, edit);
      }
      timeRanges := UpdateById(timeRanges, RangeId, id, RangeEditor(edit));
    }

    /** `addGroup`: an empty group named after the new number of groups. */
    method AddGroup(newId: string)
      modifies this`groups
      ensures groups == old(groups) + [Group(newId, NumberedGroupName(|old(groups)|), [])]
      ensures old(Valid()) && !HasId(old(groups), GroupId, newId) ==> Valid()
    {
      groups := groups + [Group(newId, NumberedGroupName(|groups|), [])];
    }

    /** `removeGroup`: only while more than one group is left. */
    method RemoveGroup(id: string)
      modifies this`groups
      ensures groups == RemoveUnlessLast(old(groups), GroupId, id)
      ensures old(Valid()) ==> Valid()
    {
      if Valid() {
        RemoveKeepsOne(groups, GroupId, id);
      }
      if |groups| > 1 {
        groups := WithoutId(groups, GroupId, id);
      }
    }

    /** The five per-group handlers share this shape: the group with the id
        gets the change, the others stay. */
    method EditGroupById(groupId: string, edit: GroupEdit)
      modifies this`groups
      ensures groups == UpdateById(old(groups), GroupId, groupId, GroupEditor(edit))
      ensures old(Valid()) ==> Valid()
    {
      forall g: Group
        ensures GroupId(GroupEditor(edit)(g)) == GroupId(g)
      {
      }
      UpdateByIdKeepsIds(groups, GroupId, groupId, GroupEditor(edit));
      groups := UpdateById(groups, GroupId, groupId, GroupEditor(edit));
    }

    /** `updateGroupName`. */
    method UpdateGroupName(groupId: string, name: string)
      modifies this`groups
      ensures groups == UpdateById(old(groups), GroupId, groupId, GroupEditor(Rename(name)))
      ensures old(Valid()) ==> Valid()
    {
      EditGroupById(groupId, Rename(name));
    }

    /** `addParticipant`: an empty, non-key participant at the end of the group. */
    method AddParticipantTo(groupId: string, newId: string)
      modifies this`groups
      ensures groups == UpdateById(old(groups), GroupId, groupId, GroupEditor(AddParticipant(newId)))
      ensures old(Valid()) ==> Valid()
    {
      EditGroupById(groupId, AddParticipant(newId));
    }

    /** `removeParticipant`: no guard, a group may end up empty. */
    method RemoveParticipantFrom(groupId: string, participantId: string)
      modifies this`groups
      ensures groups == UpdateById(old(groups), GroupId, groupId, GroupEditor(RemoveParticipant(participantId)))
      ensures old(Valid()) ==> Valid()
    {
      EditGroupById(groupId, RemoveParticipant(participantId));
    }

    /** `updateParticipant`: a new address for one participant. */
    method UpdateParticipant(groupId: string, participantId: string, email: string)
      modifies this`groups
      ensures groups == UpdateById(old(groups), GroupId, groupId, GroupEditor(SetParticipantEmail(participantId, email)))
      ensures old(Valid()) ==> Valid()
    {
      EditGroupById(groupId, SetParticipantEmail(participantId, email));
    }

    /** `toggleKeyParticipant`: flips one participant's key flag. */
    method ToggleKeyParticipant(groupId: string, participantId: string)
      modifies this`groups
      ensures groups == UpdateById(old(groups), GroupId, groupId, GroupEditor(ToggleKey(participantId)))
      ensures old(Valid()) ==> Valid()
    {
      EditGroupById(groupId, ToggleKey(participantId));
    }

    /** `addSavedGroup`: a copy of the first saved group with the id, under a
        new id and with renamed participants; an unknown id changes nothing. */
    method AddSavedGroup(savedGroupId: string, newId: string, stamp: string)
      modifies this`groups
      ensures match Find(savedGroups, HasGroupId(savedGroupId))
              case None => groups == old(groups)
              case Some(sg) => groups == old(groups) + [Group(newId, sg.name, CopyParticipants(sg.participants, stamp))]
      ensures old(Valid()) && !HasId(old(groups), GroupId, newId) ==> Valid()
    {
      var found := Find(savedGroups, HasGroupId(savedGroupId));
      if found.Some? {
        var sg := found.value;
        groups := groups + [Group(newId, sg.name, CopyParticipants(sg.participants, stamp))];
      }
    }

    /** `handlePreviewEmail`: the preview opens only when its check passes;
        the message of a failed check is returned (the toast). */
    method HandlePreviewEmail() returns (toast: Option<string>)
      modifies this`showEmailPreview
      ensures toast == PreviewFailure(meetingTitle, duration)
      ensures toast.None? ==> showEmailPreview
      ensures toast.Some? ==> showEmailPreview == old(showEmailPreview)
    {
      toast := PreviewFailure(meetingTitle, duration);
      if toast.None? {
        showEmailPreview := true;
      }
    }

    /** `handleSubmitMeetingRequest` up to the simulated call: `isSubmitting`
        is set exactly when all four checks pass. */
    method HandleSubmitMeetingRequest() returns (toast: Option<string>)
      modifies this`isSubmitting
      ensures toast == SubmitError(meetingTitle, duration, timeRanges, groups)
      ensures toast.None? ==> isSubmitting
      ensures toast.Some? ==> isSubmitting == old(isSubmitting)
    {
      toast := SubmitError(meetingTitle, duration, timeRanges, groups);
      if toast.None? {
        isSubmitting := true;
      }
    }
  }
}
