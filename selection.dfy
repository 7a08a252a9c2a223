/** The multi-select rule several components share: clicking an item whose
    id is selected removes it; clicking any other item appends its id. The
    participant response manager, the add-in's responses view, the group
    filter and the e-mail preview's time grid all keep their selection this
    way. */
module Selection {
  import opened Seqs

  /** `selected.filter(x => x !== id)`. */
  function Without(selected: seq<string>, id: string): (r: seq<string>)
    ensures |r| <= |selected|
    ensures forall x :: x in r <==> x in selected && x != id
  {
    if selected == [] then []
    else (if selected[0] == id then [] else [selected[0]]) + Without(selected[1..], id)
  }

  /** Removal distributes over concatenation, so the entries that stay keep
      their order. */
  lemma {:induction false} WithoutConcat(a: seq<string>, b: seq<string>, id: string)
    ensures Without(a + b, id) == Without(a, id) + Without(b, id)
  {
    if a == [] {
      assert a + b == b;
    } else {
      assert (a + b)[1..] == a[1..] + b;
      WithoutConcat(a[1..], b, id);
    }
  }

  /** Removal is the filter that drops every entry equal to the id. */
  lemma {:induction false} WithoutIsFilter(selected: seq<string>, id: string)
    ensures Without(selected, id) == Filter(selected, (x: string) => x != id)
  {
    if selected != [] {
      WithoutIsFilter(selected[1..], id);
    }
  }

  /** Removing an id that is not there changes nothing. */
  lemma {:induction false} WithoutAbsent(selected: seq<string>, id: string)
    requires id !in selected
    ensures Without(selected, id) == selected
  {
    if selected != [] {
      WithoutAbsent(selected[1..], id);
    }
  }

  /** Removing keeps a list free of repeats. */
  lemma {:induction false} WithoutNoDuplicates(selected: seq<string>, id: string)
    requires NoDuplicates(selected)
    ensures NoDuplicates(Without(selected, id))
  {
    if selected != [] {
      WithoutNoDuplicates(selected[1..], id);
      assert selected[0] !in selected[1..];
    }
  }

  /** One click on `id`: only the membership of `id` flips, and a newly chosen
      id goes to the end. */
  function Toggle(selected: seq<string>, id: string): (r: seq<string>)
    ensures forall x :: x in r <==> (if x == id then id !in selected else x in selected)
    ensures id !in selected ==> r == selected + [id]
  {
    if id in selected then Without(selected, id) else selected + [id]
  }

  /** Two clicks on an id that was not selected restore the selection exactly. */
  lemma ToggleTwiceRestores(selected: seq<string>, id: string)
    requires id !in selected
    ensures Toggle(Toggle(selected, id), id) == selected
  {
    assert id in selected + [id];
    WithoutAppended(selected, id);
  }

  lemma {:induction false} WithoutAppended(selected: seq<string>, id: string)
    requires id !in selected
    ensures Without(selected + [id], id) == selected
  {
    if selected == [] {
      assert [id][1..] == [];
    } else {
      assert (selected + [id])[1..] == selected[1..] + [id];
      WithoutAppended(selected[1..], id);
    }
  }

  /** Two clicks on any id leave the same set of ids selected. */
  lemma ToggleTwiceSameMembers(selected: seq<string>, id: string, x: string)
    ensures x in Toggle(Toggle(selected, id), id) <==> x in selected
  {
  }

  /** A selection built by clicks never holds an id twice. */
  lemma ToggleNoDuplicates(selected: seq<string>, id: string)
    requires NoDuplicates(selected)
    ensures NoDuplicates(Toggle(selected, id))
  {
    if id in selected {
      WithoutNoDuplicates(selected, id);
    }
  }
}
