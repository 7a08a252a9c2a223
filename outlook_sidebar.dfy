/** The Outlook sidebar's create tab
    (whattime_example/components/outlook-sidebar.tsx): its proposed time
    ranges, its participant groups with an editable name and a free-text
    list of e-mail addresses, the suggestion list that adds one address to a
    group, and the saved-group drop-down. The clock that names new rows
    (`Date.now()`) and today's date are parameters. */
module OutlookSidebar {
  import opened Wrappers
  import opened JsStrings
  import opened Seqs
  import opened FormLists
  import opened MeetingForm

  /** A participant group: its addresses are one comma-separated text. */
  datatype EmailGroup = EmailGroup(id: string, name: string, emails: string)

  function GroupId(g: EmailGroup): string { g.id }

  // ---------------------------------------------------------------------------
  // The address list of a group
  // ---------------------------------------------------------------------------

  /** `parts.map(e => e.trim())`. */
  function TrimAll(parts: seq<string>): (r: seq<string>)
    ensures |r| == |parts|
    ensures forall k :: 0 <= k < |parts| ==> r[k] == Trim(parts[k])
  {
    seq(|parts|, k requires 0 <= k < |parts| => Trim(parts[k]))
  }

  /** `.filter((e) => e)`: an empty text is falsy. */
  function NonEmpty(e: string): bool { e != "" }

  /** An address as the list holds it: not empty, no white space at its
      ends, no comma. */
  predicate IsListedAddress(e: string) {
    e != "" && IsTrimmed(e) && ',' !in e
  }

  predicate AllListed(xs: seq<string>) {
    forall k :: 0 <= k < |xs| ==> IsListedAddress(xs[k])
  }

  /** One more listed address keeps a list of listed addresses. */
  lemma AllListedAppend(xs: seq<string>, e: string)
    requires AllListed(xs) && IsListedAddress(e)
    ensures AllListed(xs + [e])
  {
  }

  /** A trimmed piece of a comma split has no comma and no white space at its ends. */
  lemma TrimmedPiece(piece: string)
    requires ',' !in piece
    ensures IsTrimmed(Trim(piece)) && ',' !in Trim(piece)
  {
    TrimSpec(piece);
  }

  /** The non-empty trimmed pieces of a comma split are listed addresses. */
  lemma TrimmedPiecesListed(parts: seq<string>)
    requires forall k :: 0 <= k < |parts| ==> ',' !in parts[k]
    ensures AllListed(Filter(TrimAll(parts), NonEmpty))
  {
    var t := TrimAll(parts);
    forall j | 0 <= j < |t|
      ensures IsTrimmed(t[j]) && ',' !in t[j]
    {
      TrimmedPiece(parts[j]);
    }
    var f := Filter(t, NonEmpty);
    forall k | 0 <= k < |f|
      ensures IsListedAddress(f[k])
    {
      assert f[k] in t && NonEmpty(f[k]);
      var j :| 0 <= j < |t| && t[j] == f[k];
    }
  }

  /** The addresses a group's text holds: `emails.split(",").map(e =>
      e.trim()).filter(e => e)`. */
  function CurrentEmails(emails: string): seq<string>
  {
    Filter(TrimAll(Split(emails, ',')), NonEmpty)
  }

  /** Every address a text holds is a listed address. */
  lemma CurrentEmailsListed(emails: string)
    ensures AllListed(CurrentEmails(emails))
  {
    TrimmedPiecesListed(Split(emails, ','));
  }

  const ListSeparator := ", "

  /** Picking a suggested address for one group: an address not yet listed
      is added at the end and the list is written back joined by ", "; an
      address already listed leaves the group, and its text, as they are. */
  function AddSuggestion(g: EmailGroup, email: string): (h: EmailGroup)
    ensures h.id == g.id && h.name == g.name
    ensures email in CurrentEmails(g.emails) ==> h == g
  {
    var current := CurrentEmails(g.emails);
    if email !in current then g.(emails := Join(current + [email], ListSeparator)) else g
  }

  function Suggester(email: string): EmailGroup -> EmailGroup {
    (g: EmailGroup) => AddSuggestion(g, email)
  }

  /** The pieces of every address after the first, as splitting the joined
      text on "," leaves them: each with the space of ", " in front. */
  function Padded(xs: seq<string>): (ps: seq<string>)
    requires |xs| >= 1
    ensures |ps| == |xs|
  {
    [xs[0]] + seq(|xs| - 1, k requires 0 <= k < |xs| - 1 => " " + xs[k + 1])
  }

  lemma SplitJoinedAddresses(xs: seq<string>)
    requires |xs| >= 1
    requires forall k :: 0 <= k < |xs| ==> ',' !in xs[k]
    ensures Split(Join(xs, ListSeparator), ',') == Padded(xs)
  {
    assert ListSeparator == [','] + " ";
    SplitJoin(xs, ',', " ");
  }

  lemma TrimPadded(xs: seq<string>)
    requires |xs| >= 1
    requires forall k :: 0 <= k < |xs| ==> IsTrimmed(xs[k])
    ensures TrimAll(Padded(xs)) == xs
  {
    var ps := Padded(xs);
    var trimmed := TrimAll(ps);
    forall k | 0 <= k < |xs|
      ensures trimmed[k] == xs[k]
    {
      if k == 0 {
        TrimOfTrimmed(xs[0]);
      } else {
        assert ps[k] == [' '] + xs[k];
        TrimAfterSpace(' ', xs[k]);
      }
    }
  }

  /** Reading back the text written by joining listed addresses with ", "
      gives the same addresses. */
  lemma JoinedAddressesReadBack(xs: seq<string>)
    requires |xs| >= 1
    requires AllListed(xs)
    ensures CurrentEmails(Join(xs, ListSeparator)) == xs
  {
    SplitJoinedAddresses(xs);
    TrimPadded(xs);
    FilterAllPass(xs, NonEmpty);
  }

  /** The suggestion round trip: afterwards the group lists exactly the
      addresses it listed before, followed by the picked one when it was
      missing; so the picked address is always listed afterwards. */
  lemma AddSuggestionSpec(g: EmailGroup, email: string)
    requires IsListedAddress(email)
    ensures var current := CurrentEmails(g.emails);
            CurrentEmails(AddSuggestion(g, email).emails) == if email in current then current else current + [email]
    ensures email in CurrentEmails(AddSuggestion(g, email).emails)
  {
    var current := CurrentEmails(g.emails);
    var h := AddSuggestion(g, email);
    if email !in current {
      var ys := current + [email];
      CurrentEmailsListed(g.emails);
      AllListedAppend(current, email);
      assert h.emails == Join(ys, ListSeparator);
      JoinedAddressesReadBack(ys);
      assert ys[|ys| - 1] == email;
    } else {
      assert h == g;
    }
  }

  /** Picking the same suggestion twice is picking it once. */
  lemma AddSuggestionIdempotent(g: EmailGroup, email: string)
    requires IsListedAddress(email)
    ensures AddSuggestion(AddSuggestion(g, email), email) == AddSuggestion(g, email)
  {
    AddSuggestionSpec(g, email);
  }

  /** The addresses the autocomplete list offers. */
  const EmailSuggestions: seq<string> := [
    "john.doe@company.com",
    "jane.smith@company.com",
    "michael.johnson@company.com",
    "sarah.williams@company.com",
    "david.brown@company.com",
    "emily.davis@company.com",
    "robert.wilson@company.com",
    "jennifer.miller@company.com"
  ]

  /** Every offered address is a listed address, so picking any of them
      meets the conditions of `AddSuggestionSpec`. */
  lemma SuggestionsAreListed()
    ensures forall k :: 0 <= k < |EmailSuggestions| ==> IsListedAddress(EmailSuggestions[k])
  {
  }

  /** A saved group of the drop-down. */
  datatype SavedGroup = SavedGroup(id: string, name: string, members: seq<string>)

  function SavedGroupId(g: SavedGroup): string { g.id }

  const SavedGroups: seq<SavedGroup> := [
    SavedGroup("sg1", "Deal Team", ["john.doe@company.com", "jane.smith@company.com"]),
    SavedGroup("sg2", "Legal Team", ["legal.counsel@company.com", "compliance@company.com"]),
    SavedGroup("sg3", "Investors", ["investor1@fund.com", "investor2@fund.com"])
  ]

  function HasSavedId(id: string): SavedGroup -> bool {
    (g: SavedGroup) => g.id == id
  }

  const SavedPrefix := "Added saved group: "
  const SavedMiddle := " with "
  const SavedSuffix := " members"

  /** `Added saved group: ${name} with ${members.length} members`. */
  function SavedGroupMessage(g: SavedGroup): string {
    SavedPrefix + g.name + SavedMiddle + NatToString(|g.members|) + SavedSuffix
  }

  /** The message names the group and reads back its number of members. */
  lemma SavedGroupMessageSpec(g: SavedGroup)
    ensures var m := SavedGroupMessage(g);
            var at := |SavedPrefix| + |g.name|;
            && at + |SavedMiddle| <= |m|
            && m[|SavedPrefix|..at] == g.name
            && ParseInt(m[at + |SavedMiddle|..]) == Some(|g.members|)
  {
    SavedGroupMessageParts(g);
    ParseNatToString(|g.members|, SavedSuffix);
  }

  lemma SavedGroupMessageParts(g: SavedGroup)
    ensures var m := SavedGroupMessage(g);
            var at := |SavedPrefix| + |g.name|;
            && at + |SavedMiddle| <= |m|
            && m[|SavedPrefix|..at] == g.name
            && m[at + |SavedMiddle|..] == NatToString(|g.members|) + SavedSuffix
  {
    var m := SavedGroupMessage(g);
    assert m == SavedPrefix + g.name + SavedMiddle + (NatToString(|g.members|) + SavedSuffix);
  }

  /** `applySavedGroup`: the alert for a known saved group, nothing for an
      unknown id. */
  function SavedGroupAlert(savedGroupId: string): (alertText: Option<string>)
    ensures alertText.None? <==> forall k :: 0 <= k < |SavedGroups| ==> SavedGroups[k].id != savedGroupId
    ensures alertText.Some? ==>
              exists k :: 0 <= k < |SavedGroups| && SavedGroups[k].id == savedGroupId
                          && alertText.value == SavedGroupMessage(SavedGroups[k])
  {
    match Find(SavedGroups, HasSavedId(savedGroupId))
    case None => None
    case Some(g) => Some(SavedGroupMessage(g))
  }

  /** The three saved groups of the drop-down each announce two members. */
  lemma SavedGroupAlerts()
    ensures SavedGroupAlert("sg1") == Some(SavedPrefix + "Deal Team" + SavedMiddle + NatToString(2) + SavedSuffix)
    ensures SavedGroupAlert("sg2") == Some(SavedPrefix + "Legal Team" + SavedMiddle + NatToString(2) + SavedSuffix)
    ensures SavedGroupAlert("sg3") == Some(SavedPrefix + "Investors" + SavedMiddle + NatToString(2) + SavedSuffix)
  {
    FindAt(SavedGroups, HasSavedId("sg1"), 0);
    FindAt(SavedGroups, HasSavedId("sg2"), 1);
    FindAt(SavedGroups, HasSavedId("sg3"), 2);
  }

  // ---------------------------------------------------------------------------
  // The sidebar's state
  // ---------------------------------------------------------------------------

  /** The renaming `saveGroupName` applies. */
  function Renamer(name: string): EmailGroup -> EmailGroup {
    (g: EmailGroup) => g.(name := name)
  }

  /** The edit of the address input. */
  function EmailsSetter(emails: string): EmailGroup -> EmailGroup {
    (g: EmailGroup) => g.(emails := emails)
  }

  /** Changes of the name or of the addresses keep the id. */
  lemma EditsKeepIds(name: string, emails: string, email: string)
    ensures forall g: EmailGroup :: GroupId(Renamer(name)(g)) == GroupId(g)
    ensures forall g: EmailGroup :: GroupId(EmailsSetter(emails)(g)) == GroupId(g)
    ensures forall g: EmailGroup :: GroupId(Suggester(email)(g)) == GroupId(g)
  {
  }

  /** Saving the name a group already has, right after starting to edit it,
      changes no group. */
  lemma SaveUneditedNameIsIdle(groups: seq<EmailGroup>, k: nat)
    requires k < |groups| && DistinctIds(groups, GroupId)
    ensures UpdateById(groups, GroupId, groups[k].id, Renamer(groups[k].name)) == groups
  {
    var r := UpdateById(groups, GroupId, groups[k].id, Renamer(groups[k].name));
    forall i | 0 <= i < |groups|
      ensures r[i] == groups[i]
    {
      if i != k {
        assert GroupId(groups[i]) != GroupId(groups[k]);
      }
    }
  }

  class Sidebar {
    var timeRanges: seq<TimeRange>
    var groups: seq<EmailGroup>
    var editingGroupId: Option<string>
    var editingGroupName: string

    /** Both lists keep at least one row, and rows are told apart by id. */
    ghost predicate Valid()
      reads this
    {
      && |timeRanges| >= 1 && DistinctIds(timeRanges, RangeId)
      && |groups| >= 1 && DistinctIds(groups, GroupId)
    }

    /** One empty range dated today, the groups "Internal Team" and "Client",
        no name being edited. */
    constructor(today: string)
      ensures timeRanges == [TimeRange("1", today, "", "", false)]
      ensures groups == [EmailGroup("1", "Internal Team", ""), EmailGroup("2", "Client", "")]
      ensures editingGroupId == None && editingGroupName == ""
      ensures Valid()
    {
      timeRanges := [TimeRange("1", today, "", "", false)];
      groups := [EmailGroup("1", "Internal Team", ""), EmailGroup("2", "Client", "")];
      editingGroupId := None;
      editingGroupName := "";
    }

    /** `addTimeRange`: one empty range dated today at the end. */
    method AddTimeRange(newId: string, today: string)
      modifies this`timeRanges
      ensures timeRanges == old(timeRanges) + [NewTimeRange(newId, today)]
      ensures old(Valid()) && !HasId(old(timeRanges), RangeId, newId) ==> Valid()
    {
      timeRanges := timeRanges + [NewTimeRange(newId, today)];
    }

    /** `updateTimeRange`: the range with the id gets the edit. */
    method UpdateTimeRange(id: string, edit: RangeEdit)
      modifies this`timeRanges
      ensures timeRanges == UpdateById(old(timeRanges), RangeId, id, RangeEditor(edit))
      ensures old(Valid()) ==> Valid()
    {
      if Valid() {
        UpdateTimeRangeSpec(timeRanges, id, edit);
      }
      timeRanges := UpdateById(timeRanges, RangeId, id, RangeEditor(edit));
    }

    /** `removeTimeRange`: only while more than one range is left. */
    method RemoveTimeRange(id: string)
      modifies this`timeRanges
      ensures timeRanges == RemoveUnlessLast(old(timeRanges), RangeId, id)
      ensures old(Valid()) ==> Valid()
    {
      if Valid() {
        RemoveKeepsOne(timeRanges, RangeId, id);
      }
      if |timeRanges| > 1 {
        timeRanges := WithoutId(timeRanges, RangeId, id);
      }
    }

    /** `addGroup`: "Group n+1" with no addresses, for n groups. */
    method AddGroup(newId: string)
      modifies this`groups
      ensures groups == old(groups) + [EmailGroup(newId, NumberedGroupName(|old(groups)|), "")]
      ensures old(Valid()) && !HasId(old(groups), GroupId, newId) ==> Valid()
    {
      groups := groups + [EmailGroup(newId, NumberedGroupName(|groups|), "")];
    }

    /** `removeGroup`: only while more than one group is left. */
    method RemoveGroup(id: string)
      modifies this`groups
      ensures groups == RemoveUnlessLast(old(groups), GroupId, id)
      ensures old(Valid()) ==> Valid()
    {
      if Valid() {
        RemoveKeepsOne(groups, GroupId, id);
      }
      if |groups| > 1 {
        groups := WithoutId(groups, GroupId, id);
      }
    }

    /** `startEditingGroupName`: the pencil button of a group. */
    method StartEditingGroupName(id: string, currentName: string)
      modifies this`editingGroupId, this`editingGroupName
      ensures editingGroupId == Some(id) && editingGroupName == currentName
    {
      editingGroupId := Some(id);
      editingGroupName := currentName;
    }

    /** Typing in the name input. */
    method SetEditingGroupName(name: string)
      modifies this`editingGroupName
      ensures editingGroupName == name
    {
      editingGroupName := name;
    }

    /** `saveGroupName`: the group with the id takes the edited name, no
        other group changes, and editing ends. */
    method SaveGroupName(id: string)
      modifies this`groups, this`editingGroupId
      ensures groups == UpdateById(old(groups), GroupId, id, Renamer(editingGroupName))
      ensures editingGroupId == None
      ensures old(Valid()) ==> Valid()
    {
      EditsKeepIds(editingGroupName, "", "");
      UpdateByIdKeepsIds(groups, GroupId, id, Renamer(editingGroupName));
      groups := UpdateById(groups, GroupId, id, Renamer(editingGroupName));
      editingGroupId := None;
    }

    /** Typing in a group's address input. */
    method SetGroupEmails(id: string, emails: string)
      modifies this`groups
      ensures groups == UpdateById(old(groups), GroupId, id, EmailsSetter(emails))
      ensures old(Valid()) ==> Valid()
    {
      EditsKeepIds("", emails, "");
      UpdateByIdKeepsIds(groups, GroupId, id, EmailsSetter(emails));
      groups := UpdateById(groups, GroupId, id, EmailsSetter(emails));
    }

    /** A click on a suggested address in a group's pop-over. */
    method PickSuggestion(id: string, email: string)
      modifies this`groups
      ensures groups == UpdateById(old(groups), GroupId, id, Suggester(email))
      ensures old(Valid()) ==> Valid()
    {
      EditsKeepIds("", "", email);
      UpdateByIdKeepsIds(groups, GroupId, id, Suggester(email));
      groups := UpdateById(groups, GroupId, id, Suggester(email));
    }

    /** `applySavedGroup`: the alert it raises, if any; the groups are not
        changed. */
    method ApplySavedGroup(savedGroupId: string) returns (alertText: Option<string>)
      ensures alertText == SavedGroupAlert(savedGroupId)
    {
      alertText := SavedGroupAlert(savedGroupId);
    }
  }

  /** Picking a suggestion changes only the addresses of the group with the
      id, and that group ends up listing the address. */
  lemma PickSuggestionSpec(groups: seq<EmailGroup>, id: string, email: string, k: nat)
    requires IsListedAddress(email) && k < |groups|
    ensures var r := UpdateById(groups, GroupId, id, Suggester(email));
            && |r| == |groups|
            && (groups[k].id != id ==> r[k] == groups[k])
            && (groups[k].id == id ==> r[k].name == groups[k].name && email in CurrentEmails(r[k].emails))
            && (groups[k].id == id && email in CurrentEmails(groups[k].emails) ==> r[k] == groups[k])
  {
    AddSuggestionSpec(groups[k], email);
  }
}
