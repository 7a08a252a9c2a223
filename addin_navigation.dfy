/** The add-in's screen state (`SimplifiedOutlookAddin` in
    whattime_example/components/simplified-outlook-addin.tsx): which view is
    shown and which meeting a detail view is about. Each method is one
    handler; its doc comment names the view in which the control that runs
    it is rendered, though nothing in the handler itself checks that. The `alert` text a handler shows is its result. */
module AddinNavigation {
  import opened Wrappers

  datatype View = Create | Pending | Upcoming | Availability | Responses | ProposeNewTimes

  /** The three views reached from the tab bar, which `handleBackToMain` accepts. */
  predicate IsMainView(v: View) {
    v.Create? || v.Pending? || v.Upcoming?
  }

  type MainView = v: View | IsMainView(v) witness Create

  /** The views about one meeting, shown with a Back button instead of the tab bar. */
  predicate IsDetailView(v: View) {
    v.Availability? || v.Responses? || v.ProposeNewTimes?
  }

  /** Every view is either a tab or a detail view, never both. */
  lemma ViewKinds(v: View)
    ensures IsMainView(v) != IsDetailView(v)
  {
  }

  const ConfirmedPrefix := "Meeting time confirmed: "

  /** The alert `handleConfirmTime` shows: the fixed prefix, then the slot text. */
  function ConfirmedMessage(timeSlot: string): (m: string)
    ensures ConfirmedPrefix <= m && m[|ConfirmedPrefix|..] == timeSlot
  {
    ConfirmedPrefix + timeSlot
  }

  const ProposalsSentMessage := "New time proposals have been sent to participants"

  class AddinNavigation {
    var currentView: View
    var currentMeetingId: Option<string>

    /** A detail view always knows its meeting. */
    ghost predicate Valid()
      reads this
    {
      IsDetailView(currentView) ==> currentMeetingId.Some?
    }

    constructor()
      ensures Valid()
      ensures currentView == Create && currentMeetingId == None
    {
      currentView := Create;
      currentMeetingId := None;
    }

    /** `handleViewAvailability`, from a pending meeting's card. */
    method HandleViewAvailability(meetingId: string)
      modifies this
      ensures currentView == Availability && currentMeetingId == Some(meetingId)
      ensures Valid()
    {
      currentMeetingId := Some(meetingId);
      currentView := Availability;
    }

    /** `handleViewResponses`, from a pending meeting's card. */
    method HandleViewResponses(meetingId: string)
      modifies this
      ensures currentView == Responses && currentMeetingId == Some(meetingId)
      ensures Valid()
    {
      currentMeetingId := Some(meetingId);
      currentView := Responses;
    }

    /** `handleBackToMain(view)`: shows the view and forgets the meeting. */
    method HandleBackToMain(view: MainView)
      modifies this
      ensures currentView == view && currentMeetingId == None
      ensures Valid()
    {
      currentView := view;
      currentMeetingId := None;
    }

    /** The header's Back button, shown in the detail views: from the
        proposal editor back to availability, from the others to "pending". */
    method Back()
      modifies this
      ensures old(currentView) == ProposeNewTimes ==> currentView == Availability && currentMeetingId == old(currentMeetingId)
      ensures old(currentView) != ProposeNewTimes ==> currentView == Pending && currentMeetingId == None
      ensures old(Valid()) ==> Valid()
    {
      if currentView == ProposeNewTimes {
        currentView := Availability;
      } else {
        HandleBackToMain(Pending);
      }
    }

    /** A tab of the tab bar, shown outside the detail views: only the view changes. */
    method SelectTab(view: MainView)
      modifies this`currentView
      ensures currentView == view
      ensures Valid()
    {
      currentView := view;
    }

    /** `handleConfirmTime`, from the availability view: back to "pending". */
    method HandleConfirmTime(timeSlot: string) returns (alert: string)
      modifies this`currentView
      ensures alert == ConfirmedMessage(timeSlot)
      ensures currentView == Pending
      ensures Valid()
    {
      alert := ConfirmedMessage(timeSlot);
      currentView := Pending;
    }

    /** `handleProposeNewTimes`, from the availability view: same meeting, the proposal editor. */
    method HandleProposeNewTimes()
      modifies this`currentView
      ensures currentView == ProposeNewTimes
      ensures old(currentMeetingId).Some? ==> Valid()
    {
      currentView := ProposeNewTimes;
    }

    /** `handleSaveNewTimes`, from the proposal editor: back to "pending". */
    method HandleSaveNewTimes() returns (alert: string)
      modifies this`currentView
      ensures alert == ProposalsSentMessage
      ensures currentView == Pending
      ensures Valid()
    {
      alert := ProposalsSentMessage;
      currentView := Pending;
    }

    /** The create form's `onSuccess`: the new request shows under "pending". */
    method CreateSucceeded()
      modifies this`currentView
      ensures currentView == Pending
      ensures Valid()
    {
      currentView := Pending;
    }
  }
}
