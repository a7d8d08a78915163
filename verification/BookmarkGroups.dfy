/** Repairing and deleting bookmark groups (`fixBookmarkGroups`, `delBookmarkGroup`). */
module BookmarkGroups {
  import opened Options
  import opened Sequences

  const DEFAULT_ID := "default"

  /** Top-level groups have any level but 2. Absent lists are `None`. */
  datatype Group = Group(id: string, level: int, bookmarkIds: Option<seq<string>>, groupIds: Option<seq<string>>)

  /** A stored group, possibly in the old text form (`None` when the text does not parse). */
  datatype Stored = Object(group: Group) | Text(parsed: Option<Group>)

  function Items(list: Option<seq<string>>): seq<string>
  {
    if list.Some? then list.value else []
  }

  /** Without repetitions, first occurrences kept. */
  function Dedup(s: seq<string>): (r: seq<string>)
    ensures forall x :: x in r <==> x in s
  {
    if s == [] then []
    else
      var earlier, last := Dedup(s[..|s| - 1]), s[|s| - 1];
      assert s == s[..|s| - 1] + [last];
      if last in earlier then earlier else earlier + [last]
  }

  function Ids(groups: seq<Group>): set<string>
  {
    set g | g in groups :: g.id
  }

  /** Every bookmark that some group holds. */
  function Grouped(groups: seq<Group>): set<string>
  {
    set g, b | g in groups && b in Items(g.bookmarkIds) :: b
  }

  /** Every group that some group lists as a child. */
  function Listed(groups: seq<Group>): set<string>
  {
    set g, c | g in groups && c in Items(g.groupIds) :: c
  }

  /** The first group with this id, or the number of groups. */
  function IndexOfId(groups: seq<Group>, id: string): (i: nat)
    ensures i <= |groups|
    ensures i < |groups| ==> groups[i].id == id
    ensures forall j :: 0 <= j < i ==> groups[j].id != id
  {
    if groups == [] || groups[0].id == id then 0 else 1 + IndexOfId(groups[1..], id)
  }

  /** The first group that lists this id as a child, or the number of groups. */
  function IndexOfParent(groups: seq<Group>, id: string): (i: nat)
    ensures i <= |groups|
    ensures i < |groups| ==> id in Items(groups[i].groupIds)
    ensures forall j :: 0 <= j < i ==> id !in Items(groups[j].groupIds)
  {
    if groups == [] || id in Items(groups[0].groupIds) then 0 else 1 + IndexOfParent(groups[1..], id)
  }

  // ----- Repair -----

  function Normalized(stored: seq<Stored>): seq<Group>
  {
    if stored == [] then []
    else
      var rest := Normalized(stored[1..]);
      match stored[0]
      case Object(g) => [g] + rest
      case Text(Some(g)) => [g] + rest
      case Text(None) => rest
  }

  function WithDefault(groups: seq<Group>): (r: seq<Group>)
    ensures IndexOfId(r, DEFAULT_ID) < |r|
  {
    if IndexOfId(groups, DEFAULT_ID) < |groups| then groups
    else [Group(DEFAULT_ID, 0, Some([]), Some([]))] + groups
  }

  function CleanGroup(g: Group, bookmarks: set<string>, ids: set<string>): Group
  {
    Group(g.id, g.level, Some(Filter(b => b in bookmarks, Items(g.bookmarkIds))),
          Some(Filter(c => c in ids && c != g.id, Items(g.groupIds))))
  }

  function Cleaned(groups: seq<Group>, bookmarks: set<string>, ids: set<string>): (r: seq<Group>)
    ensures |r| == |groups|
    ensures forall i :: 0 <= i < |groups| ==> r[i] == CleanGroup(groups[i], bookmarks, ids)
  {
    seq(|groups|, i requires 0 <= i < |groups| => CleanGroup(groups[i], bookmarks, ids))
  }

  function AsSet(s: seq<string>): set<string> { set x | x in s }

  function StrayBookmarks(groups: seq<Group>, bookmarks: seq<string>): seq<string>
  {
    Filter(b => b !in Grouped(groups), bookmarks)
  }

  predicate IsStray(g: Group, listed: set<string>)
  {
    g.level == 2 && g.id != DEFAULT_ID && g.id !in listed
  }

  function StrayGroupIds(groups: seq<Group>, listed: set<string>): (r: seq<string>)
    ensures forall id :: id in r <==> exists g :: g in groups && g.id == id && IsStray(g, listed)
  {
    if groups == [] then []
    else
      assert groups == [groups[0]] + groups[1..];
      var rest := StrayGroupIds(groups[1..], listed);
      if IsStray(groups[0], listed) then [groups[0].id] + rest else rest
  }

  /** Stray bookmarks go to the default group. */
  function Adopt(groups: seq<Group>, stray: seq<string>): seq<Group>
    requires IndexOfId(groups, DEFAULT_ID) < |groups|
  {
    if stray == [] then groups
    else
      var d := IndexOfId(groups, DEFAULT_ID);
      groups[d := groups[d].(bookmarkIds := Some(Dedup(Items(groups[d].bookmarkIds) + stray)))]
  }

  /** Stray groups become children of the default group. */
  function AdoptGroups(groups: seq<Group>, stray: seq<string>): seq<Group>
    requires IndexOfId(groups, DEFAULT_ID) < |groups|
  {
    if stray == [] then groups
    else
      var d := IndexOfId(groups, DEFAULT_ID);
      groups[d := groups[d].(groupIds := Some(Dedup(Items(groups[d].groupIds) + stray)))]
  }

  lemma {:induction false} SameIdsSameIndex(a: seq<Group>, b: seq<Group>, id: string)
    requires |a| == |b| && forall i :: 0 <= i < |a| ==> a[i].id == b[i].id
    ensures IndexOfId(a, id) == IndexOfId(b, id)
  {
  }

  function Repaired(stored: seq<Stored>, bookmarks: seq<string>): seq<Group>
  {
    var groups := WithDefault(Normalized(stored));
    var clean := Cleaned(groups, AsSet(bookmarks), Ids(groups));
    SameIdsSameIndex(groups, clean, DEFAULT_ID);
    var adopted := Adopt(clean, StrayBookmarks(clean, bookmarks));
    SameIdsSameIndex(clean, adopted, DEFAULT_ID);
    AdoptGroups(adopted, StrayGroupIds(adopted, Listed(adopted)))
  }

  // ----- Deletion -----

  datatype Outcome = Deleted | Ignored | Crashed

  datatype Deletion = Deletion(outcome: Outcome, groups: seq<Group>, current: string)

  /** Where a deleted group's contents go: its parent if it is a child, else the default group. */
  function HeirIndex(groups: seq<Group>, victim: Group): (i: nat)
    ensures i <= |groups|
  {
    var p := if victim.level == 2 then IndexOfParent(groups, victim.id) else |groups|;
    if p < |groups| then p else IndexOfId(groups, DEFAULT_ID)
  }

  function Merged(own: seq<string>, more: seq<string>): seq<string>
  {
    if more == [] then own else Dedup(own + more)
  }

  function Heir(parent: Group, victim: Group): Group
  {
    parent.(bookmarkIds := Some(Merged(Items(parent.bookmarkIds), Items(victim.bookmarkIds))),
            groupIds := Some(Merged(Items(parent.groupIds), Items(victim.groupIds))))
  }

  function RemoveAt(groups: seq<Group>, i: nat): seq<Group>
    requires i < |groups|
  {
    groups[..i] + groups[i + 1..]
  }

  function Delete(groups: seq<Group>, current: string, id: string): Deletion
  {
    var index := IndexOfId(groups, id);
    if id == DEFAULT_ID || index == |groups| then Deletion(Ignored, groups, current)
    else
      var victim := groups[index];
      var p := HeirIndex(groups, victim);
      if p == |groups| then Deletion(Crashed, groups, current)
      else
        var merged := groups[p := Heir(groups[p], victim)];
        Deletion(Deleted, RemoveAt(merged, index), if id == current then groups[p].id else current)
  }

  class BookmarkStore {
    var bookmarks: seq<string>  // ids
    var stored: seq<Stored>
    var currentGroupId: string

    constructor (bookmarks: seq<string>, stored: seq<Stored>, current: string)
      ensures this.bookmarks == bookmarks && this.stored == stored && currentGroupId == current
    {
      this.bookmarks, this.stored, currentGroupId := bookmarks, stored, current;
    }

    static method CleanAll(all: seq<Group>, bookmarkIds: set<string>, groupIds: set<string>) returns (groups: seq<Group>)
      ensures groups == Cleaned(all, bookmarkIds, groupIds)
    {
      groups := all;
      for i := 0 to |groups|
        invariant |groups| == |all|
        invariant forall j :: 0 <= j < i ==> groups[j] == CleanGroup(all[j], bookmarkIds, groupIds)
        invariant forall j :: i <= j < |groups| ==> groups[j] == all[j]
      {
        groups := groups[i := CleanGroup(groups[i], bookmarkIds, groupIds)];
      }
    }

    method FixBookmarkGroups()
      modifies this`stored
      ensures stored == Objects(Repaired(old(stored), bookmarks))
    {
      var groups := Normalized(stored);
      if IndexOfId(groups, DEFAULT_ID) == |groups| {
        groups := [Group(DEFAULT_ID, 0, Some([]), Some([]))] + groups;
      }
      ghost var all := groups;
      assert all == WithDefault(Normalized(stored));
      var bookmarkIds, groupIds := AsSet(bookmarks), Ids(groups);
      groups := CleanAll(groups, bookmarkIds, groupIds);
      SameIdsSameIndex(all, groups, DEFAULT_ID);
      groups := Adopt(groups, StrayBookmarks(groups, bookmarks));
      SameIdsSameIndex(all, groups, DEFAULT_ID);
      groups := AdoptGroups(groups, StrayGroupIds(groups, Listed(groups)));
      stored := Objects(groups);
    }

    /** The parent of a child that has one, otherwise the default group. */
    static method FindHeir(bookmarkGroups: seq<Stored>, tobeDel: Group) returns (parent: nat)
      ensures parent <= |bookmarkGroups|
      ensures var i := HeirIndex(ObjectsIn(bookmarkGroups), tobeDel);
              if parent == |bookmarkGroups| then i == |ObjectsIn(bookmarkGroups)|
              else
                && i < |ObjectsIn(bookmarkGroups)| && i == Place(bookmarkGroups, parent)
                && bookmarkGroups[parent] == Object(ObjectsIn(bookmarkGroups)[i])
    {
      parent := |bookmarkGroups|;
      if tobeDel.level == 2 {
        parent := FindStored(bookmarkGroups, tobeDel.id, true);
        FoundStored(bookmarkGroups, tobeDel.id, true);
      }
      if parent == |bookmarkGroups| {
        parent := FindStored(bookmarkGroups, DEFAULT_ID, false);
        FoundStored(bookmarkGroups, DEFAULT_ID, false);
      }
    }

    /** Groups in the old text form have no id and no lists that a deletion could see: they stay as they are. */
    method DelBookmarkGroup(id: string) returns (outcome: Outcome)
      modifies this
      ensures var d := Delete(ObjectsIn(old(stored)), old(currentGroupId), id);
              outcome == d.outcome && ObjectsIn(stored) == d.groups && currentGroupId == d.current
      ensures TextsIn(stored) == TextsIn(old(stored)) && bookmarks == old(bookmarks)
    {
      if id == DEFAULT_ID {
        return Ignored;
      }
      var bookmarkGroups := stored;
      var index := FindStored(bookmarkGroups, id, false);
      FoundStored(bookmarkGroups, id, false);
      if index == |bookmarkGroups| {
        return Ignored;
      }
      var tobeDel := bookmarkGroups[index].group;
      var parent := FindHeir(bookmarkGroups, tobeDel);
      if parent == |bookmarkGroups| {
        return Crashed;
      }
      var parentGroup := bookmarkGroups[parent].group;
      StoredUpdate(bookmarkGroups, parent, Heir(parentGroup, tobeDel));
      ghost var before := bookmarkGroups;
      bookmarkGroups := bookmarkGroups[parent := Object(Heir(parentGroup, tobeDel))];
      SamePlace(before, bookmarkGroups, index);
      StoredRemove(bookmarkGroups, index);
      bookmarkGroups := bookmarkGroups[..index] + bookmarkGroups[index + 1..];
      if id == currentGroupId {
        currentGroupId := parentGroup.id;
      }
      stored := bookmarkGroups;
      return Deleted;
    }
  }

  // ----- Stored groups, some of them in the old text form -----

  function ObjectsIn(stored: seq<Stored>): (groups: seq<Group>)
    ensures |groups| <= |stored|
  {
    if stored == [] then []
    else if stored[0].Object? then [stored[0].group] + ObjectsIn(stored[1..])
    else ObjectsIn(stored[1..])
  }

  function TextsIn(stored: seq<Stored>): seq<Stored>
  {
    Filter((s: Stored) => s.Text?, stored)
  }

  /** The place among the objects of what is at `k`. */
  function Place(stored: seq<Stored>, k: nat): nat
    requires k <= |stored|
  {
    |ObjectsIn(stored[..k])|
  }

  /** The first object with this id or, for `asChild`, the first that lists it; or the number of entries. */
  function FindStored(stored: seq<Stored>, id: string, asChild: bool): (k: nat)
    ensures k <= |stored| && (k < |stored| ==> stored[k].Object?)
  {
    if stored == [] then 0
    else
      var s := stored[0];
      if s.Object? && (if asChild then id in Items(s.group.groupIds) else s.group.id == id) then 0
      else 1 + FindStored(stored[1..], id, asChild)
  }

  lemma {:induction false} ObjectsAppend(a: seq<Stored>, b: seq<Stored>)
    ensures ObjectsIn(a + b) == ObjectsIn(a) + ObjectsIn(b)
  {
    if a == [] {
      assert a + b == b;
    } else {
      assert (a + b)[1..] == a[1..] + b;
      ObjectsAppend(a[1..], b);
    }
  }

  lemma ObjectsAround(stored: seq<Stored>, k: nat)
    requires k < |stored| && stored[k].Object?
    ensures ObjectsIn(stored) == ObjectsIn(stored[..k]) + [stored[k].group] + ObjectsIn(stored[k + 1..])
    ensures Place(stored, k) < |ObjectsIn(stored)| && ObjectsIn(stored)[Place(stored, k)] == stored[k].group
  {
    assert stored == stored[..k] + ([stored[k]] + stored[k + 1..]);
    ObjectsAppend(stored[..k], [stored[k]] + stored[k + 1..]);
    ObjectsAppend([stored[k]], stored[k + 1..]);
    assert ObjectsIn([stored[k]]) == [stored[k].group];
  }

  lemma {:induction false} FoundStored(stored: seq<Stored>, id: string, asChild: bool)
    ensures var k, groups := FindStored(stored, id, asChild), ObjectsIn(stored);
            var i := FindGroup(groups, id, asChild);
            && (k == |stored| <==> i == |groups|)
            && (k < |stored| ==> i == Place(stored, k) && groups[i] == stored[k].group)
  {
    if stored != [] {
      var rest, k := stored[1..], FindStored(stored, id, asChild);
      FoundStored(rest, id, asChild);
      if stored[0].Object? {
        FindNext(stored[0].group, ObjectsIn(rest), id, asChild);
      }
      if k == 0 {
        assert stored[..0] == [];
      } else if k < |stored| {
        PlaceNext(stored, k);
      }
    }
  }

  function FindGroup(groups: seq<Group>, id: string, asChild: bool): (i: nat)
    ensures i <= |groups|
  {
    if asChild then IndexOfParent(groups, id) else IndexOfId(groups, id)
  }

  lemma FindNext(g: Group, groups: seq<Group>, id: string, asChild: bool)
    ensures FindGroup([g] + groups, id, asChild) ==
            if (if asChild then id in Items(g.groupIds) else g.id == id) then 0 else 1 + FindGroup(groups, id, asChild)
  {
    assert ([g] + groups)[1..] == groups;
  }

  lemma PlaceNext(stored: seq<Stored>, k: nat)
    requires 0 < k <= |stored|
    ensures Place(stored, k) == (if stored[0].Object? then 1 else 0) + Place(stored[1..], k - 1)
  {
    assert stored[..k][1..] == stored[1..][..k - 1];
  }

  lemma TextsAround(stored: seq<Stored>, k: nat)
    requires k < |stored| && stored[k].Object?
    ensures TextsIn(stored) == TextsIn(stored[..k]) + TextsIn(stored[k + 1..])
  {
    var keep := (s: Stored) => s.Text?;
    assert stored == stored[..k] + ([stored[k]] + stored[k + 1..]);
    FilterAppend(keep, stored[..k], [stored[k]] + stored[k + 1..]);
    FilterCons(keep, stored[k], stored[k + 1..]);
  }

  lemma StoredUpdate(stored: seq<Stored>, k: nat, g: Group)
    requires k < |stored| && stored[k].Object?
    ensures Place(stored, k) < |ObjectsIn(stored)|
    ensures ObjectsIn(stored[k := Object(g)]) == ObjectsIn(stored)[Place(stored, k) := g]
    ensures TextsIn(stored[k := Object(g)]) == TextsIn(stored)
  {
    var after := stored[k := Object(g)];
    assert after[..k] == stored[..k] && after[k + 1..] == stored[k + 1..];
    ObjectsAround(stored, k);
    ObjectsAround(after, k);
    TextsAround(stored, k);
    TextsAround(after, k);
  }

  lemma {:induction false} SamePlace(a: seq<Stored>, b: seq<Stored>, i: nat)
    requires |a| == |b| && i <= |a| && forall k :: 0 <= k < |a| ==> a[k].Object? == b[k].Object?
    ensures Place(a, i) == Place(b, i)
    decreases i
  {
    if i > 0 {
      SamePlace(a, b, i - 1);
      assert a[..i] == a[..i - 1] + [a[i - 1]] && b[..i] == b[..i - 1] + [b[i - 1]];
      ObjectsAppend(a[..i - 1], [a[i - 1]]);
      ObjectsAppend(b[..i - 1], [b[i - 1]]);
    }
  }

  lemma StoredRemove(stored: seq<Stored>, k: nat)
    requires k < |stored| && stored[k].Object?
    ensures Place(stored, k) < |ObjectsIn(stored)|
    ensures ObjectsIn(stored[..k] + stored[k + 1..]) == RemoveAt(ObjectsIn(stored), Place(stored, k))
    ensures TextsIn(stored[..k] + stored[k + 1..]) == TextsIn(stored)
  {
    ObjectsAround(stored, k);
    TextsAround(stored, k);
    ObjectsAppend(stored[..k], stored[k + 1..]);
    FilterAppend((s: Stored) => s.Text?, stored[..k], stored[k + 1..]);
  }

  function Objects(groups: seq<Group>): (r: seq<Stored>)
    ensures |r| == |groups| && forall i :: 0 <= i < |groups| ==> r[i] == Object(groups[i])
  {
    seq(|groups|, i requires 0 <= i < |groups| => Object(groups[i]))
  }

  lemma {:induction false} NormalizedObjects(groups: seq<Group>)
    ensures Normalized(Objects(groups)) == groups
  {
    if groups != [] {
      NormalizedObjects(groups[1..]);
      assert Objects(groups)[1..] == Objects(groups[1..]);
      assert groups == [groups[0]] + groups[1..];
    }
  }
}
