/** The "Create New Meeting Request" page
    (whattime_example/app/create/page.tsx): its list of time options and its
    list of participant groups, each grown by an "Add" button and shrunk by
    a remove button that does nothing on the last entry. The clock that
    names new rows (`Date.now()`) and the current date (`new Date()`) are
    parameters. */
module CreatePage {
  import opened FormLists

  datatype TimeOption = TimeOption(date: string, time: string, id: string)

  datatype ParticipantGroup = ParticipantGroup(name: string, emails: string, id: string)

  function OptionId(o: TimeOption): string { o.id }

  function GroupId(g: ParticipantGroup): string { g.id }

  /** The time option's delete button is disabled exactly when one option
      is left. */
  predicate DeleteDisabled(timeOptions: seq<TimeOption>) {
    |timeOptions| == 1
  }

  /** A group may be removed exactly while more than one is left. */
  predicate CanRemove(groups: seq<ParticipantGroup>) {
    |groups| > 1
  }

  class CreateMeetingPage {
    var timeOptions: seq<TimeOption>
    var participantGroups: seq<ParticipantGroup>

    /** At least one entry in each list, told apart by id. */
    ghost predicate Valid()
      reads this
    {
      && |timeOptions| >= 1 && DistinctIds(timeOptions, OptionId)
      && |participantGroups| >= 1 && DistinctIds(participantGroups, GroupId)
    }

    /** One option for today with no time, and the groups "Internal Team"
        and "Client". */
    constructor(today: string)
      ensures timeOptions == [TimeOption(today, "", "1")]
      ensures participantGroups == [ParticipantGroup("Internal Team", "", "1"), ParticipantGroup("Client", "", "2")]
      ensures Valid()
    {
      timeOptions := [TimeOption(today, "", "1")];
      participantGroups := [ParticipantGroup("Internal Team", "", "1"), ParticipantGroup("Client", "", "2")];
    }

    /** `addTimeOption`: one more option, for today and with no time. */
    method AddTimeOption(newId: string, today: string)
      modifies this`timeOptions
      ensures timeOptions == old(timeOptions) + [TimeOption(today, "", newId)]
      ensures old(Valid()) && !HasId(old(timeOptions), OptionId, newId) ==> Valid()
    {
      timeOptions := timeOptions + [TimeOption(today, "", newId)];
    }

    /** `removeTimeOption`: only while more than one option is left. */
    method RemoveTimeOption(id: string)
      modifies this`timeOptions
      ensures timeOptions == RemoveUnlessLast(old(timeOptions), OptionId, id)
      ensures old(Valid()) ==> Valid()
    {
      if Valid() {
        RemoveKeepsOne(timeOptions, OptionId, id);
      }
      if |timeOptions| > 1 {
        timeOptions := WithoutId(timeOptions, OptionId, id);
      }
    }

    /** `addParticipantGroup`: one more group, unnamed and with no e-mails. */
    method AddParticipantGroup(newId: string)
      modifies this`participantGroups
      ensures participantGroups == old(participantGroups) + [ParticipantGroup("", "", newId)]
      ensures old(Valid()) && !HasId(old(participantGroups), GroupId, newId) ==> Valid()
    {
      participantGroups := participantGroups + [ParticipantGroup("", "", newId)];
    }

    /** `removeParticipantGroup`: only while more than one group is left. */
    method RemoveParticipantGroup(id: string)
      modifies this`participantGroups
      ensures participantGroups == RemoveUnlessLast(old(participantGroups), GroupId, id)
      ensures old(Valid()) ==> Valid()
    {
      if Valid() {
        RemoveKeepsOne(participantGroups, GroupId, id);
      }
      if |participantGroups| > 1 {
        participantGroups := WithoutId(participantGroups, GroupId, id);
      }
    }
  }

  /** The disabled buttons are exactly the ones whose handler would do
      nothing: on the last entry a remove leaves the list as it is, and with
      more than one entry (distinct ids) it takes one away. */
  lemma DisabledExactlyWhenRemoveIsIdle(timeOptions: seq<TimeOption>, k: nat)
    requires k < |timeOptions| && DistinctIds(timeOptions, OptionId)
    ensures DeleteDisabled(timeOptions) ==> RemoveUnlessLast(timeOptions, OptionId, timeOptions[k].id) == timeOptions
    ensures !DeleteDisabled(timeOptions) ==>
              |RemoveUnlessLast(timeOptions, OptionId, timeOptions[k].id)| == |timeOptions| - 1
  {
    RemoveKeepsOne(timeOptions, OptionId, timeOptions[k].id);
    if |timeOptions| > 1 {
      assert OptionId(timeOptions[k]) == timeOptions[k].id;
    }
  }

  /** The same for the groups' `canRemove`. */
  lemma CanRemoveExactlyWhenRemoveActs(groups: seq<ParticipantGroup>, k: nat)
    requires k < |groups| && DistinctIds(groups, GroupId)
    ensures !CanRemove(groups) ==> RemoveUnlessLast(groups, GroupId, groups[k].id) == groups
    ensures CanRemove(groups) ==> |RemoveUnlessLast(groups, GroupId, groups[k].id)| == |groups| - 1
  {
    RemoveKeepsOne(groups, GroupId, groups[k].id);
    if |groups| > 1 {
      assert GroupId(groups[k]) == groups[k].id;
    }
  }
}
