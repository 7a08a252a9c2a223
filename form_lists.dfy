/** The list edits the meeting-request forms share: every editable list
    (time ranges, time options, groups, participants) is edited by the id of
    an entry, with `filter(x => x.id !== id)` to remove and
    `map(x => x.id === id ? change(x) : x)` to change; the remove buttons of
    the top-level lists only act while more than one entry is left. */
module FormLists {

  /** No two entries share an id. */
  predicate DistinctIds<T>(items: seq<T>, idOf: T -> string) {
    forall i, j :: 0 <= i < j < |items| ==> idOf(items[i]) != idOf(items[j])
  }

  /** Some entry has this id. */
  predicate HasId<T>(items: seq<T>, idOf: T -> string, id: string) {
    exists i :: 0 <= i < |items| && idOf(items[i]) == id
  }

  /** `items.filter(x => x.id !== id)`: every entry with the id goes, the
      others stay in order. */
  function WithoutId<T>(items: seq<T>, idOf: T -> string, id: string): (r: seq<T>)
    ensures |r| <= |items|
    ensures forall i :: 0 <= i < |r| ==> r[i] in items && idOf(r[i]) != id
    ensures forall i :: 0 <= i < |items| && idOf(items[i]) != id ==> items[i] in r
  {
    if items == [] then []
    else (if idOf(items[0]) == id then [] else [items[0]]) + WithoutId(items[1..], idOf, id)
  }

  /** Removing an id nobody has changes nothing. */
  lemma {:induction false} WithoutIdAbsent<T>(items: seq<T>, idOf: T -> string, id: string)
    requires !HasId(items, idOf, id)
    ensures WithoutId(items, idOf, id) == items
  {
    if items != [] {
      assert !HasId(items[1..], idOf, id) by {
        forall i | 0 <= i < |items[1..]|
          ensures idOf(items[1..][i]) != id
        {
          assert items[1..][i] == items[i + 1];
        }
      }
      WithoutIdAbsent(items[1..], idOf, id);
    }
  }

  /** The tail of a list with distinct ids has distinct ids. */
  lemma DistinctTail<T>(items: seq<T>, idOf: T -> string)
    requires items != [] && DistinctIds(items, idOf)
    ensures DistinctIds(items[1..], idOf)
  {
    forall i, j | 0 <= i < j < |items[1..]|
      ensures idOf(items[1..][i]) != idOf(items[1..][j])
    {
      assert items[1..][i] == items[i + 1] && items[1..][j] == items[j + 1];
    }
  }

  /** Removing distributes over concatenation. */
  lemma {:induction false} WithoutIdConcat<T>(a: seq<T>, b: seq<T>, idOf: T -> string, id: string)
    ensures WithoutId(a + b, idOf, id) == WithoutId(a, idOf, id) + WithoutId(b, idOf, id)
  {
    if a != [] {
      assert (a + b)[1..] == a[1..] + b;
      WithoutIdConcat(a[1..], b, idOf, id);
    } else {
      assert a + b == b;
    }
  }

  /** With distinct ids, no entry before or after entry `k` has its id. */
  lemma OthersLackId<T>(items: seq<T>, idOf: T -> string, k: nat)
    requires k < |items| && DistinctIds(items, idOf)
    ensures !HasId(items[..k], idOf, idOf(items[k]))
    ensures !HasId(items[k + 1..], idOf, idOf(items[k]))
  {
    var a, b := items[..k], items[k + 1..];
    forall i | 0 <= i < |a|
      ensures idOf(a[i]) != idOf(items[k])
    {
      assert a[i] == items[i];
    }
    forall i | 0 <= i < |b|
      ensures idOf(b[i]) != idOf(items[k])
    {
      assert b[i] == items[k + 1 + i];
    }
  }

  /** A one-entry list loses its entry to its own id. */
  lemma WithoutIdOwn<T>(x: T, idOf: T -> string)
    ensures WithoutId([x], idOf, idOf(x)) == []
  {
    assert [x][1..] == [];
  }

  lemma SplitAround<T>(items: seq<T>, k: nat)
    requires k < |items|
    ensures items == (items[..k] + [items[k]]) + items[k + 1..]
  {
  }

  /** Removing the id of entry `k` removes it and what precedes and follows it
      loses the entries with that id. */
  lemma WithoutIdAround<T>(items: seq<T>, idOf: T -> string, k: nat)
    requires k < |items|
    ensures var id := idOf(items[k]);
            WithoutId(items, idOf, id) == WithoutId(items[..k], idOf, id) + WithoutId(items[k + 1..], idOf, id)
  {
    var id := idOf(items[k]);
    var a, b := items[..k], items[k + 1..];
    SplitAround(items, k);
    WithoutIdConcat(a + [items[k]], b, idOf, id);
    WithoutIdConcat(a, [items[k]], idOf, id);
    WithoutIdOwn(items[k], idOf);
  }

  /** With distinct ids, removing the id of entry `k` removes that entry and
      nothing else. */
  lemma WithoutIdAt<T>(items: seq<T>, idOf: T -> string, k: nat)
    requires k < |items| && DistinctIds(items, idOf)
    ensures WithoutId(items, idOf, idOf(items[k])) == items[..k] + items[k + 1..]
  {
    var id := idOf(items[k]);
    WithoutIdAround(items, idOf, k);
    OthersLackId(items, idOf, k);
    WithoutIdAbsent(items[..k], idOf, id);
    WithoutIdAbsent(items[k + 1..], idOf, id);
  }

  /** Removing entries keeps the remaining ids distinct. */
  lemma {:induction false} WithoutIdDistinct<T>(items: seq<T>, idOf: T -> string, id: string)
    requires DistinctIds(items, idOf)
    ensures DistinctIds(WithoutId(items, idOf, id), idOf)
  {
    if items != [] {
      DistinctTail(items, idOf);
      WithoutIdDistinct(items[1..], idOf, id);
      var rest := WithoutId(items[1..], idOf, id);
      if idOf(items[0]) != id {
        forall j | 0 <= j < |rest|
          ensures idOf(items[0]) != idOf(rest[j])
        {
          var m :| 0 <= m < |items[1..]| && items[1..][m] == rest[j];
          assert items[1..][m] == items[m + 1];
        }
        assert WithoutId(items, idOf, id) == [items[0]] + rest;
      }
    }
  }

  /** The guarded remove of the top-level lists (`if (list.length > 1)`). */
  function RemoveUnlessLast<T>(items: seq<T>, idOf: T -> string, id: string): (r: seq<T>)
    ensures |items| <= 1 ==> r == items
    ensures |r| <= |items|
  {
    if |items| > 1 then WithoutId(items, idOf, id) else items
  }

  /** The list never drops below one entry: with distinct ids a guarded
      remove takes away the entry with the id, when there is one and it is
      not the last, and nothing else. */
  lemma RemoveKeepsOne<T>(items: seq<T>, idOf: T -> string, id: string)
    requires |items| >= 1 && DistinctIds(items, idOf)
    ensures var r := RemoveUnlessLast(items, idOf, id);
            && |r| >= 1
            && DistinctIds(r, idOf)
            && (!HasId(items, idOf, id) ==> r == items)
            && (forall k :: 0 <= k < |items| && idOf(items[k]) == id && |items| > 1
                            ==> r == items[..k] + items[k + 1..])
  {
    if |items| > 1 {
      WithoutIdDistinct(items, idOf, id);
      if HasId(items, idOf, id) {
        var k :| 0 <= k < |items| && idOf(items[k]) == id;
        WithoutIdAt(items, idOf, k);
      } else {
        WithoutIdAbsent(items, idOf, id);
      }
      forall k | 0 <= k < |items| && idOf(items[k]) == id
        ensures WithoutId(items, idOf, id) == items[..k] + items[k + 1..]
      {
        WithoutIdAt(items, idOf, k);
      }
    }
  }

  /** Why the ids must be distinct: two entries sharing the removed id both go. */
  lemma RemoveSharedIdEmpties<T>(a: T, b: T, idOf: T -> string)
    requires idOf(a) == idOf(b)
    ensures RemoveUnlessLast([a, b], idOf, idOf(a)) == []
  {
    assert [a, b][1..] == [b];
    assert [b][1..] == [];
    assert WithoutId([b], idOf, idOf(a)) == [] + WithoutId([], idOf, idOf(a));
    assert WithoutId([a, b], idOf, idOf(a)) == [] + WithoutId([b], idOf, idOf(a));
  }

  /** `items.map(x => x.id === id ? change(x) : x)`. */
  function UpdateById<T>(items: seq<T>, idOf: T -> string, id: string, change: T -> T): (r: seq<T>)
    ensures |r| == |items|
    ensures forall i :: 0 <= i < |items| && idOf(items[i]) != id ==> r[i] == items[i]
    ensures forall i :: 0 <= i < |items| && idOf(items[i]) == id ==> r[i] == change(items[i])
  {
    seq(|items|, i requires 0 <= i < |items| => if idOf(items[i]) == id then change(items[i]) else items[i])
  }

  /** A change that keeps the id keeps every id in place, so distinct ids stay distinct. */
  lemma UpdateByIdKeepsIds<T>(items: seq<T>, idOf: T -> string, id: string, change: T -> T)
    requires forall x :: idOf(change(x)) == idOf(x)
    ensures var r := UpdateById(items, idOf, id, change);
            (forall i :: 0 <= i < |items| ==> idOf(r[i]) == idOf(items[i]))
            && (DistinctIds(items, idOf) ==> DistinctIds(r, idOf))
  {
    var r := UpdateById(items, idOf, id, change);
    forall i | 0 <= i < |items|
      ensures idOf(r[i]) == idOf(items[i])
    {
      if idOf(items[i]) == id {
        assert idOf(change(items[i])) == idOf(items[i]);
      }
    }
  }

  /** An id nobody has leaves the list as it is. */
  lemma UpdateByIdAbsent<T>(items: seq<T>, idOf: T -> string, id: string, change: T -> T)
    requires !HasId(items, idOf, id)
    ensures UpdateById(items, idOf, id, change) == items
  {
  }

  /** A change that keeps the id and undoes itself, applied twice to the same
      id, restores the list. */
  lemma UpdateByIdTwice<T>(items: seq<T>, idOf: T -> string, id: string, change: T -> T)
    requires forall x :: idOf(change(x)) == idOf(x)
    requires forall x :: change(change(x)) == x
    ensures UpdateById(UpdateById(items, idOf, id, change), idOf, id, change) == items
  {
    UpdateByIdKeepsIds(items, idOf, id, change);
  }
}
