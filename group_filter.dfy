/** The group filter (whattime_example/components/group-filter.tsx): the
    badges that pick which participant groups the heatmap shows. Each
    handler computes a new list of group ids and hands it to
    `onSelectionChange`. */
module GroupFilter {
  import opened Selection

  datatype Group = Group(id: string, name: string, color: string)

  /** `toggleGroup`: the shared multi-select click. */
  function ToggleGroup(selectedGroups: seq<string>, groupId: string): (r: seq<string>)
    ensures groupId in selectedGroups ==> r == Without(selectedGroups, groupId)
    ensures groupId !in selectedGroups ==> r == selectedGroups + [groupId]
  {
    Toggle(selectedGroups, groupId)
  }

  /** `selectAll`: every group's id, in the order the groups are listed. */
  function SelectAll(groups: seq<Group>): (r: seq<string>)
    ensures |r| == |groups|
    ensures forall i :: 0 <= i < |groups| ==> r[i] == groups[i].id
  {
    seq(|groups|, i requires 0 <= i < |groups| => groups[i].id)
  }

  /** `clearAll`. */
  function ClearAll(): (r: seq<string>)
    ensures |r| == 0
  {
    []
  }

  /** A badge is highlighted (`bg-primary/10`) exactly when its id is selected. */
  predicate Highlighted(selectedGroups: seq<string>, group: Group) {
    group.id in selectedGroups
  }

  /** After "Select All" every badge is highlighted, and after "Clear" none is. */
  lemma SelectAllAndClear(groups: seq<Group>, g: Group)
    ensures g in groups ==> Highlighted(SelectAll(groups), g)
    ensures !Highlighted(ClearAll(), g)
  {
    if g in groups {
      var i :| 0 <= i < |groups| && groups[i] == g;
      assert SelectAll(groups)[i] == g.id;
    }
  }

  /** "Select All" selects nothing but the listed groups. */
  lemma SelectAllOnlyListed(groups: seq<Group>, id: string)
    ensures id in SelectAll(groups) <==> exists i :: 0 <= i < |groups| && groups[i].id == id
  {
    if id in SelectAll(groups) {
      var i :| 0 <= i < |SelectAll(groups)| && SelectAll(groups)[i] == id;
      assert groups[i].id == id;
    }
  }

  /** Clicking a badge flips that badge's highlight and no other. */
  lemma ToggleFlipsOneBadge(selectedGroups: seq<string>, clicked: Group, other: Group)
    ensures Highlighted(ToggleGroup(selectedGroups, clicked.id), clicked) == !Highlighted(selectedGroups, clicked)
    ensures other.id != clicked.id ==>
              Highlighted(ToggleGroup(selectedGroups, clicked.id), other) == Highlighted(selectedGroups, other)
  {
  }

  /** Two clicks on a badge restore which badges are highlighted; when it
      was off, they restore the list itself. */
  lemma ToggleGroupTwice(selectedGroups: seq<string>, groupId: string, g: Group)
    ensures Highlighted(ToggleGroup(ToggleGroup(selectedGroups, groupId), groupId), g) == Highlighted(selectedGroups, g)
    ensures groupId !in selectedGroups ==> ToggleGroup(ToggleGroup(selectedGroups, groupId), groupId) == selectedGroups
  {
    ToggleTwiceSameMembers(selectedGroups, groupId, g.id);
    if groupId !in selectedGroups {
      ToggleTwiceRestores(selectedGroups, groupId);
    }
  }

  /** With distinct group ids, "Select All" lists no id twice. */
  lemma SelectAllDistinct(groups: seq<Group>)
    requires forall i, j :: 0 <= i < j < |groups| ==> groups[i].id != groups[j].id
    ensures forall i, j :: 0 <= i < j < |SelectAll(groups)| ==> SelectAll(groups)[i] != SelectAll(groups)[j]
  {
  }
}
