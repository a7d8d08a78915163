/** What repairing and deleting bookmark groups promise. */
module BookmarkGroupLaws {
  import opened Options
  import opened Sequences
  import opened BookmarkGroups

  /** No group refers to what does not exist or to itself, and the lists are there. */
  ghost predicate RefersWell(groups: seq<Group>, bookmarks: set<string>)
  {
    forall i :: 0 <= i < |groups| ==>
                  var g := groups[i];
                  && g.bookmarkIds.Some? && g.groupIds.Some?
                  && (forall b :: b in g.bookmarkIds.value ==> b in bookmarks)
                  && (forall c :: c in g.groupIds.value ==> c in Ids(groups) && c != g.id)
  }

  /** Every bookmark is in a group and every non-default child group under a parent. */
  ghost predicate NothingStrays(groups: seq<Group>, bookmarks: set<string>)
  {
    && bookmarks <= Grouped(groups)
    && forall i :: 0 <= i < |groups| && groups[i].level == 2 && groups[i].id != DEFAULT_ID ==> groups[i].id in Listed(groups)
  }

  ghost predicate IsRepaired(groups: seq<Group>, bookmarks: set<string>)
  {
    && IndexOfId(groups, DEFAULT_ID) < |groups|
    && RefersWell(groups, bookmarks) && NothingStrays(groups, bookmarks)
  }

  ghost predicate SameIds(a: seq<Group>, b: seq<Group>)
  {
    |a| == |b| && forall i :: 0 <= i < |a| ==> a[i].id == b[i].id && a[i].level == b[i].level
  }

  lemma SameIdsSets(a: seq<Group>, b: seq<Group>)
    requires SameIds(a, b)
    ensures Ids(a) == Ids(b)
  {
    forall id
      ensures id in Ids(a) <==> id in Ids(b)
    {
      if id in Ids(a) {
        var i :| 0 <= i < |a| && a[i].id == id;
        assert b[i] in b;
      }
      if id in Ids(b) {
        var i :| 0 <= i < |b| && b[i].id == id;
        assert a[i] in a;
      }
    }
  }

  lemma CleanedRefersWell(groups: seq<Group>, bookmarks: set<string>)
    ensures var clean := Cleaned(groups, bookmarks, Ids(groups));
            SameIds(groups, clean) && RefersWell(clean, bookmarks)
  {
    var clean := Cleaned(groups, bookmarks, Ids(groups));
    SameIdsSets(groups, clean);
    forall i | 0 <= i < |clean|
      ensures forall b :: b in clean[i].bookmarkIds.value ==> b in bookmarks
      ensures forall c :: c in clean[i].groupIds.value ==> c in Ids(groups) && c != clean[i].id
    {
      var g := groups[i];
      forall b | b in clean[i].bookmarkIds.value
        ensures b in bookmarks
      {
        FilterIn(b => b in bookmarks, Items(g.bookmarkIds), b);
      }
      forall c | c in clean[i].groupIds.value
        ensures c in Ids(groups) && c != g.id
      {
        FilterIn(c => c in Ids(groups) && c != g.id, Items(g.groupIds), c);
      }
    }
  }

  lemma StrayBookmarksIn(groups: seq<Group>, bookmarks: seq<string>, b: string)
    ensures b in StrayBookmarks(groups, bookmarks) <==> b in bookmarks && b !in Grouped(groups)
  {
    FilterIn(b => b !in Grouped(groups), bookmarks, b);
  }

  /** Changing one group's lists within bounds keeps all references good. */
  lemma UpdateRefersWell(groups: seq<Group>, bookmarks: set<string>, d: nat, g: Group)
    requires d < |groups| && RefersWell(groups, bookmarks)
    requires g.id == groups[d].id && g.level == groups[d].level && g.bookmarkIds.Some? && g.groupIds.Some?
    requires forall b :: b in g.bookmarkIds.value ==> b in bookmarks
    requires forall c :: c in g.groupIds.value ==> c in Ids(groups) && c != g.id
    ensures SameIds(groups, groups[d := g]) && RefersWell(groups[d := g], bookmarks)
  {
    SameIdsSets(groups, groups[d := g]);
  }

  /** Extending one group's lists loses nothing. */
  lemma UpdateExtends(groups: seq<Group>, d: nat, g: Group, x: string)
    requires d < |groups|
    requires forall b :: b in Items(groups[d].bookmarkIds) ==> b in Items(g.bookmarkIds)
    requires forall c :: c in Items(groups[d].groupIds) ==> c in Items(g.groupIds)
    ensures x in Grouped(groups) || x in Items(g.bookmarkIds) ==> x in Grouped(groups[d := g])
    ensures x in Listed(groups) || x in Items(g.groupIds) ==> x in Listed(groups[d := g])
  {
    var after := groups[d := g];
    assert after[d] in after;
    if x in Grouped(groups) {
      var i :| 0 <= i < |groups| && x in Items(groups[i].bookmarkIds);
      assert after[i] in after && x in Items(after[i].bookmarkIds);
    }
    if x in Listed(groups) {
      var i :| 0 <= i < |groups| && x in Items(groups[i].groupIds);
      assert after[i] in after && x in Items(after[i].groupIds);
    }
  }

  lemma AdoptKeeps(groups: seq<Group>, bookmarks: seq<string>)
    requires IndexOfId(groups, DEFAULT_ID) < |groups| && RefersWell(groups, AsSet(bookmarks))
    ensures var after := Adopt(groups, StrayBookmarks(groups, bookmarks));
            && SameIds(groups, after) && RefersWell(after, AsSet(bookmarks))
            && AsSet(bookmarks) <= Grouped(after)
  {
    var stray := StrayBookmarks(groups, bookmarks);
    var d := IndexOfId(groups, DEFAULT_ID);
    var g := groups[d].(bookmarkIds := Some(Dedup(Items(groups[d].bookmarkIds) + stray)));
    forall b
      ensures b in stray <==> b in bookmarks && b !in Grouped(groups)
    {
      StrayBookmarksIn(groups, bookmarks, b);
    }
    if stray != [] {
      UpdateRefersWell(groups, AsSet(bookmarks), d, g);
      forall b | b in bookmarks
        ensures b in Grouped(groups[d := g])
      {
        UpdateExtends(groups, d, g, b);
      }
    }
  }

  /** A group that takes all strays as children leaves none. */
  lemma StraysListed(groups: seq<Group>, bookmarks: set<string>, d: nat, g: Group, stray: seq<string>)
    requires d < |groups| && bookmarks <= Grouped(groups)
    requires stray == StrayGroupIds(groups, Listed(groups))
    requires g == groups[d].(groupIds := Some(Dedup(Items(groups[d].groupIds) + stray)))
    ensures NothingStrays(groups[d := g], bookmarks)
  {
    var after := groups[d := g];
    forall b | b in bookmarks
      ensures b in Grouped(after)
    {
      UpdateExtends(groups, d, g, b);
    }
    forall i | 0 <= i < |after| && after[i].level == 2 && after[i].id != DEFAULT_ID
      ensures after[i].id in Listed(after)
    {
      assert groups[i] in groups;
      assert groups[i].id in Listed(groups) || groups[i].id in stray;
      UpdateExtends(groups, d, g, groups[i].id);
    }
  }

  lemma AdoptGroupsKeeps(groups: seq<Group>, bookmarks: set<string>)
    requires IndexOfId(groups, DEFAULT_ID) < |groups| && RefersWell(groups, bookmarks) && bookmarks <= Grouped(groups)
    ensures var after := AdoptGroups(groups, StrayGroupIds(groups, Listed(groups)));
            SameIds(groups, after) && RefersWell(after, bookmarks) && NothingStrays(after, bookmarks)
  {
    var stray := StrayGroupIds(groups, Listed(groups));
    var d := IndexOfId(groups, DEFAULT_ID);
    var g := groups[d].(groupIds := Some(Dedup(Items(groups[d].groupIds) + stray)));
    StraysListed(groups, bookmarks, d, g, stray);
    if stray != [] {
      UpdateRefersWell(groups, bookmarks, d, g);
    } else {
      NoStrayGroups(groups, bookmarks);
    }
  }

  lemma NoStrayGroups(groups: seq<Group>, bookmarks: set<string>)
    requires StrayGroupIds(groups, Listed(groups)) == [] && bookmarks <= Grouped(groups)
    ensures NothingStrays(groups, bookmarks)
  {
    forall i | 0 <= i < |groups| && groups[i].level == 2 && groups[i].id != DEFAULT_ID
      ensures groups[i].id in Listed(groups)
    {
      assert groups[i] in groups;
      assert groups[i].id !in StrayGroupIds(groups, Listed(groups));
    }
  }

  lemma SameIdsFurther(a: seq<Group>, b: seq<Group>, c: seq<Group>)
    requires SameIds(a, b) && SameIds(b, c)
    ensures SameIds(a, c)
  {
  }

  /** The repair leaves no dangling or self references and no strays, and keeps all groups in order. */
  lemma RepairRepairs(stored: seq<Stored>, bookmarks: seq<string>)
    ensures IsRepaired(Repaired(stored, bookmarks), AsSet(bookmarks))
    ensures SameIds(WithDefault(Normalized(stored)), Repaired(stored, bookmarks))
  {
    var groups := WithDefault(Normalized(stored));
    var clean := Cleaned(groups, AsSet(bookmarks), Ids(groups));
    CleanedRefersWell(groups, AsSet(bookmarks));
    SameIdsSameIndex(groups, clean, DEFAULT_ID);
    var adopted := Adopt(clean, StrayBookmarks(clean, bookmarks));
    AdoptKeeps(clean, bookmarks);
    SameIdsSameIndex(clean, adopted, DEFAULT_ID);
    AdoptGroupsKeeps(adopted, AsSet(bookmarks));
    var r := Repaired(stored, bookmarks);
    SameIdsSameIndex(adopted, r, DEFAULT_ID);
    SameIdsFurther(groups, clean, adopted);
    SameIdsFurther(groups, adopted, r);
  }

  lemma CleanedIsSame(groups: seq<Group>, bookmarks: set<string>)
    requires RefersWell(groups, bookmarks)
    ensures Cleaned(groups, bookmarks, Ids(groups)) == groups
  {
    forall i | 0 <= i < |groups|
      ensures CleanGroup(groups[i], bookmarks, Ids(groups)) == groups[i]
    {
      var g := groups[i];
      FilterKeepsAll(b => b in bookmarks, g.bookmarkIds.value);
      FilterKeepsAll(c => c in Ids(groups) && c != g.id, g.groupIds.value);
    }
  }

  lemma NoStrays(groups: seq<Group>, bookmarks: seq<string>)
    requires NothingStrays(groups, AsSet(bookmarks))
    ensures StrayBookmarks(groups, bookmarks) == [] && StrayGroupIds(groups, Listed(groups)) == []
  {
    var stray, strayIds := StrayBookmarks(groups, bookmarks), StrayGroupIds(groups, Listed(groups));
    forall b
      ensures b !in stray
    {
      StrayBookmarksIn(groups, bookmarks, b);
    }
    forall g | g in groups
      ensures !IsStray(g, Listed(groups))
    {
      var i :| 0 <= i < |groups| && groups[i] == g;
    }
    EmptyIff(stray);
    EmptyIff(strayIds);
  }

  /** Groups in good order are left as they are. */
  lemma RepairedIsFixpoint(groups: seq<Group>, bookmarks: seq<string>)
    requires IsRepaired(groups, AsSet(bookmarks))
    ensures Repaired(Objects(groups), bookmarks) == groups
  {
    NormalizedObjects(groups);
    CleanedIsSame(groups, AsSet(bookmarks));
    NoStrays(groups, bookmarks);
  }

  /** Running the repair again changes nothing. */
  lemma RepairIsIdempotent(stored: seq<Stored>, bookmarks: seq<string>)
    ensures Repaired(Objects(Repaired(stored, bookmarks)), bookmarks) == Repaired(stored, bookmarks)
  {
    RepairRepairs(stored, bookmarks);
    RepairedIsFixpoint(Repaired(stored, bookmarks), bookmarks);
  }

  lemma AdoptLosesNothing(groups: seq<Group>, stray: seq<string>, i: nat, b: string)
    requires IndexOfId(groups, DEFAULT_ID) < |groups| && i < |groups| && b in Items(groups[i].bookmarkIds)
    ensures |Adopt(groups, stray)| == |groups| && b in Items(Adopt(groups, stray)[i].bookmarkIds)
  {
  }

  lemma AdoptGroupsLosesNothing(groups: seq<Group>, stray: seq<string>, i: nat, b: string)
    requires IndexOfId(groups, DEFAULT_ID) < |groups| && i < |groups| && b in Items(groups[i].bookmarkIds)
    ensures |AdoptGroups(groups, stray)| == |groups| && b in Items(AdoptGroups(groups, stray)[i].bookmarkIds)
  {
  }

  /** No membership that was valid is lost: a group keeps its existing bookmarks. */
  lemma RepairKeepsMembers(stored: seq<Stored>, bookmarks: seq<string>, i: nat, b: string)
    requires var groups := WithDefault(Normalized(stored));
             i < |groups| && b in Items(groups[i].bookmarkIds) && b in bookmarks
    ensures var r := Repaired(stored, bookmarks);
            i < |r| && b in Items(r[i].bookmarkIds)
  {
    var groups := WithDefault(Normalized(stored));
    var clean := Cleaned(groups, AsSet(bookmarks), Ids(groups));
    FilterIn(b => b in AsSet(bookmarks), Items(groups[i].bookmarkIds), b);
    SameIdsSameIndex(groups, clean, DEFAULT_ID);
    var adopted := Adopt(clean, StrayBookmarks(clean, bookmarks));
    SameIdsSameIndex(clean, adopted, DEFAULT_ID);
    AdoptLosesNothing(clean, StrayBookmarks(clean, bookmarks), i, b);
    AdoptGroupsLosesNothing(adopted, StrayGroupIds(adopted, Listed(adopted)), i, b);
  }

  // ----- Deletion -----

  lemma GroupedIn(groups: seq<Group>, i: nat, b: string)
    requires i < |groups| && b in Items(groups[i].bookmarkIds)
    ensures b in Grouped(groups)
  {
    assert groups[i] in groups;
  }

  lemma GroupedAt(groups: seq<Group>, b: string) returns (i: nat)
    requires b in Grouped(groups)
    ensures i < |groups| && b in Items(groups[i].bookmarkIds)
  {
    var g :| g in groups && b in Items(g.bookmarkIds);
    i :| 0 <= i < |groups| && groups[i] == g;
  }

  /** A group whose own child list makes it its own heir. */
  predicate OwnHeir(groups: seq<Group>, id: string)
    requires IndexOfId(groups, id) < |groups|
  {
    HeirIndex(groups, groups[IndexOfId(groups, id)]) == IndexOfId(groups, id)
  }

  ghost predicate HeldElsewhere(groups: seq<Group>, index: nat)
    requires index < |groups|
  {
    forall b :: b in Items(groups[index].bookmarkIds) ==> b in Grouped(RemoveAt(groups, index))
  }

  lemma MergedMembers(own: seq<string>, more: seq<string>, x: string)
    ensures x in Merged(own, more) <==> x in own || x in more
  {
  }

  lemma RemovedMembers(groups: seq<Group>, index: nat, b: string)
    requires index < |groups|
    ensures b in Grouped(RemoveAt(groups, index)) <==>
            exists i :: 0 <= i < |groups| && i != index && b in Items(groups[i].bookmarkIds)
  {
    var rest := RemoveAt(groups, index);
    if b in Grouped(rest) {
      var i := GroupedAt(rest, b);
      var j := if i < index then i else i + 1;
      assert rest[i] == groups[j];
    }
    if exists i :: 0 <= i < |groups| && i != index && b in Items(groups[i].bookmarkIds) {
      var i :| 0 <= i < |groups| && i != index && b in Items(groups[i].bookmarkIds);
      var j := if i < index then i else i - 1;
      assert rest[j] == groups[i];
      GroupedIn(rest, j, b);
    }
  }

  lemma DeletedMembers(groups: seq<Group>, current: string, id: string, b: string)
    requires Delete(groups, current, id).outcome == Deleted
    ensures var index := IndexOfId(groups, id);
            var p := HeirIndex(groups, groups[index]);
            b in Grouped(Delete(groups, current, id).groups) <==>
            if p == index then b in Grouped(RemoveAt(groups, index)) else b in Grouped(groups)
  {
    var index := IndexOfId(groups, id);
    var victim := groups[index];
    var p := HeirIndex(groups, victim);
    var merged := groups[p := Heir(groups[p], victim)];
    RemovedMembers(merged, index, b);
    RemovedMembers(groups, index, b);
    MergedMembers(Items(groups[p].bookmarkIds), Items(victim.bookmarkIds), b);
    if p != index {
      if b in Grouped(groups) {
        var i := GroupedAt(groups, b);
        if i == index {
          assert b in Items(merged[p].bookmarkIds);
        } else {
          assert b in Items(merged[i].bookmarkIds);
        }
      }
      if i :| 0 <= i < |groups| && i != index && b in Items(merged[i].bookmarkIds) {
        if i == p && b !in Items(groups[p].bookmarkIds) {
          GroupedIn(groups, index, b);
        } else {
          GroupedIn(groups, i, b);
        }
      }
    }
  }

  /** Deleting keeps the set of grouped bookmarks exactly unless the group is its own heir and alone holds some. */
  lemma DeleteKeepsGroupedIff(groups: seq<Group>, current: string, id: string)
    requires Delete(groups, current, id).outcome == Deleted
    ensures Grouped(Delete(groups, current, id).groups) == Grouped(groups) <==>
            !OwnHeir(groups, id) || HeldElsewhere(groups, IndexOfId(groups, id))
  {
    var index := IndexOfId(groups, id);
    var after := Delete(groups, current, id).groups;
    forall b
      ensures OwnHeir(groups, id) ==> (b in Grouped(after) <==> b in Grouped(RemoveAt(groups, index)))
      ensures !OwnHeir(groups, id) ==> (b in Grouped(after) <==> b in Grouped(groups))
      ensures b in Grouped(RemoveAt(groups, index)) ==> b in Grouped(groups)
      ensures b in Grouped(groups) ==> b in Grouped(RemoveAt(groups, index)) || b in Items(groups[index].bookmarkIds)
    {
      DeletedMembers(groups, current, id, b);
      RemovedMembers(groups, index, b);
      if b in Grouped(groups) {
        var i := GroupedAt(groups, b);
      }
      if b in Grouped(RemoveAt(groups, index)) {
        var i :| 0 <= i < |groups| && i != index && b in Items(groups[i].bookmarkIds);
        GroupedIn(groups, i, b);
      }
    }
    if OwnHeir(groups, id) && !HeldElsewhere(groups, index) {
      var b :| b in Items(groups[index].bookmarkIds) && b !in Grouped(RemoveAt(groups, index));
      GroupedIn(groups, index, b);
    }
  }

  lemma RemovedAt(groups: seq<Group>, index: nat, i: nat)
    requires index < |groups| && i < |groups| && i != index
    ensures groups[i] in RemoveAt(groups, index)
  {
    assert RemoveAt(groups, index)[if i < index then i else i - 1] == groups[i];
  }

  lemma DeletedIds(groups: seq<Group>, current: string, id: string, i: nat)
    requires Delete(groups, current, id).outcome == Deleted
    requires i < |groups| && i != IndexOfId(groups, id)
    ensures groups[i].id in Ids(Delete(groups, current, id).groups)
  {
    var index := IndexOfId(groups, id);
    var p := HeirIndex(groups, groups[index]);
    var merged := groups[p := Heir(groups[p], groups[index])];
    RemovedAt(merged, index, i);
    assert merged[i].id == groups[i].id;
  }

  /** The current group stays a group that exists, unless it is deleted while being its own heir. */
  lemma DeleteKeepsCurrentIff(groups: seq<Group>, current: string, id: string)
    requires Delete(groups, current, id).outcome == Deleted
    requires forall i, j :: 0 <= i < j < |groups| ==> groups[i].id != groups[j].id
    requires current in Ids(groups)
    ensures var d := Delete(groups, current, id);
            d.current in Ids(d.groups) <==> !(current == id && OwnHeir(groups, id))
  {
    var d := Delete(groups, current, id);
    var index := IndexOfId(groups, id);
    var p := HeirIndex(groups, groups[index]);
    if current != id || p != index {
      if current != id {
        CurrentElsewhere(groups, current, id);
      } else {
        DeletedIds(groups, current, id, p);
      }
    } else {
      forall k | 0 <= k < |d.groups|
        ensures d.groups[k].id != id
      {
        assert d.groups[k].id == groups[if k < index then k else k + 1].id;
      }
    }
  }

  lemma CurrentElsewhere(groups: seq<Group>, current: string, id: string)
    requires Delete(groups, current, id).outcome == Deleted && current in Ids(groups) && current != id
    ensures current in Ids(Delete(groups, current, id).groups)
  {
    var i :| 0 <= i < |groups| && groups[i].id == current;
    DeletedIds(groups, current, id, i);
  }

  lemma DeleteKeepsCurrent(groups: seq<Group>, current: string, id: string)
    requires Delete(groups, current, id).outcome == Deleted && !OwnHeir(groups, id) && current in Ids(groups)
    ensures var d := Delete(groups, current, id);
            d.current in Ids(d.groups)
  {
    var index := IndexOfId(groups, id);
    if current != id {
      CurrentElsewhere(groups, current, id);
    } else {
      DeletedIds(groups, current, id, HeirIndex(groups, groups[index]));
    }
  }

  /** In repaired groups no group is its own heir, and there always is an heir. */
  lemma RepairedHasHeirs(groups: seq<Group>, bookmarks: set<string>, id: string)
    requires IsRepaired(groups, bookmarks)
    requires id != DEFAULT_ID && IndexOfId(groups, id) < |groups|
    ensures HeirIndex(groups, groups[IndexOfId(groups, id)]) < |groups| && !OwnHeir(groups, id)
  {
  }

  /** In groups in good order, a deletion never fails, keeps every bookmark grouped and the current group valid. */
  lemma DeleteFromRepaired(groups: seq<Group>, bookmarks: set<string>, current: string, id: string)
    requires IsRepaired(groups, bookmarks) && current in Ids(groups)
    ensures var d := Delete(groups, current, id);
            && (d.outcome == Deleted <==> id != DEFAULT_ID && id in Ids(groups))
            && d.outcome != Crashed
            && Grouped(d.groups) == Grouped(groups)
            && d.current in Ids(d.groups)
  {
    FoundIff(groups, id);
    if id != DEFAULT_ID && id in Ids(groups) {
      RepairedHasHeirs(groups, bookmarks, id);
      DeleteKeepsGroupedIff(groups, current, id);
      DeleteKeepsCurrent(groups, current, id);
    }
  }

  lemma FoundIff(groups: seq<Group>, id: string)
    ensures id in Ids(groups) <==> IndexOfId(groups, id) < |groups|
  {
    if id in Ids(groups) {
      var i :| 0 <= i < |groups| && groups[i].id == id;
    }
    if IndexOfId(groups, id) < |groups| {
      assert groups[IndexOfId(groups, id)] in groups;
    }
  }

  /** So after a repair every deletion is safe. */
  lemma DeleteAfterRepair(stored: seq<Stored>, bookmarks: seq<string>, current: string, id: string)
    requires current in Ids(Repaired(stored, bookmarks))
    ensures var groups := Repaired(stored, bookmarks);
            var d := Delete(groups, current, id);
            && (d.outcome == Deleted <==> id != DEFAULT_ID && id in Ids(groups))
            && d.outcome != Crashed
            && Grouped(d.groups) == Grouped(groups)
            && d.current in Ids(d.groups)
  {
    RepairRepairs(stored, bookmarks);
    DeleteFromRepaired(Repaired(stored, bookmarks), AsSet(bookmarks), current, id);
  }

  /** Some group other than `groups[index]` lists `id` as a child. */
  ghost predicate ListedElsewhere(groups: seq<Group>, index: nat, id: string)
  {
    exists i :: 0 <= i < |groups| && i != index && id in Items(groups[i].groupIds)
  }

  lemma ListedAfterRemoval(groups: seq<Group>, index: nat, id: string)
    requires index < |groups|
    ensures id in Listed(RemoveAt(groups, index)) <==> ListedElsewhere(groups, index, id)
  {
    var rest := RemoveAt(groups, index);
    if id in Listed(rest) {
      var g :| g in rest && id in Items(g.groupIds);
      var i :| 0 <= i < |rest| && rest[i] == g;
      assert rest[i] == groups[if i < index then i else i + 1];
    }
    if i :| 0 <= i < |groups| && i != index && id in Items(groups[i].groupIds) {
      RemovedAt(groups, index, i);
    }
  }

  /**
   * A deletion leaves a reference to the deleted group exactly if some other group lists it as a
   * child, or the group lists itself and another group inherits its children.
   */
  lemma StaysListedIff(groups: seq<Group>, current: string, id: string)
    requires Delete(groups, current, id).outcome == Deleted
    ensures var index := IndexOfId(groups, id);
            id in Listed(Delete(groups, current, id).groups) <==>
              ListedElsewhere(groups, index, id) || (!OwnHeir(groups, id) && id in Items(groups[index].groupIds))
  {
    var index := IndexOfId(groups, id);
    var p := HeirIndex(groups, groups[index]);
    var merged := groups[p := Heir(groups[p], groups[index])];
    ListedAfterRemoval(merged, index, id);
    MergedMembers(Items(groups[p].groupIds), Items(groups[index].groupIds), id);
    if p != index {
      if i :| 0 <= i < |groups| && i != index && id in Items(groups[i].groupIds) {
        assert id in Items(merged[i].groupIds);
      }
      if id in Items(groups[index].groupIds) {
        assert id in Items(merged[p].groupIds);
      }
      if i :| 0 <= i < |merged| && i != index && id in Items(merged[i].groupIds) {
        assert i != p ==> id in Items(groups[i].groupIds);
      }
    } else {
      if i :| 0 <= i < |groups| && i != index && id in Items(groups[i].groupIds) {
        assert id in Items(merged[i].groupIds);
      }
      if i :| 0 <= i < |merged| && i != index && id in Items(merged[i].groupIds) {
        assert id in Items(groups[i].groupIds);
      }
    }
  }

  /** So a deleted child stays listed under its parent until the next repair. */
  lemma DeletedChildStaysListed(groups: seq<Group>, current: string, id: string)
    requires Delete(groups, current, id).outcome == Deleted
    requires groups[IndexOfId(groups, id)].level == 2
    requires IndexOfParent(groups, id) < |groups| && IndexOfParent(groups, id) != IndexOfId(groups, id)
    ensures id in Listed(Delete(groups, current, id).groups)
  {
    StaysListedIff(groups, current, id);
  }
  // ----- Who takes over what -----

  /** Position `index` is that of the first group with this id. */
  predicate IsFirst(groups: seq<Group>, id: string, index: nat)
  {
    index < |groups| && groups[index].id == id && forall j :: 0 <= j < index ==> groups[j].id != id
  }

  predicate IsFirstParent(groups: seq<Group>, id: string, p: nat)
  {
    && p < |groups| && id in Items(groups[p].groupIds)
    && forall j :: 0 <= j < p ==> id !in Items(groups[j].groupIds)
  }

  ghost predicate HasParent(groups: seq<Group>, id: string)
  {
    exists i :: 0 <= i < |groups| && id in Items(groups[i].groupIds)
  }

  /** Group `p` takes over: for a child the first group that lists it, else, or if there is none, the default group. */
  ghost predicate TakesOver(groups: seq<Group>, index: nat, p: nat)
    requires index < |groups|
  {
    if groups[index].level == 2 && HasParent(groups, groups[index].id) then IsFirstParent(groups, groups[index].id, p)
    else IsFirst(groups, "default", p)
  }

  lemma FirstIsIndex(groups: seq<Group>, id: string, index: nat)
    ensures IsFirst(groups, id, index) <==> index < |groups| && index == IndexOfId(groups, id)
    ensures IsFirstParent(groups, id, index) <==> index < |groups| && index == IndexOfParent(groups, id)
    ensures HasParent(groups, id) <==> IndexOfParent(groups, id) < |groups|
  {
  }

  lemma TakesOverIsHeir(groups: seq<Group>, index: nat, p: nat)
    requires index < |groups|
    ensures TakesOver(groups, index, p) <==> p < |groups| && p == HeirIndex(groups, groups[index])
  {
    FirstIsIndex(groups, groups[index].id, p);
    FirstIsIndex(groups, "default", p);
  }

  /** Where a group other than `groups[index]` stands once that one is gone. */
  function Shifted(index: nat, i: nat): nat
    requires i != index
  {
    if i < index then i else i - 1
  }

  lemma RemoveShifts(groups: seq<Group>, index: nat, i: nat)
    requires index < |groups| && i < |groups| && i != index
    ensures |RemoveAt(groups, index)| == |groups| - 1 && RemoveAt(groups, index)[Shifted(index, i)] == groups[i]
  {
  }

  /**
   * After a deletion every other group stands as it was, in the same order, except that the one that
   * takes over holds also the bookmarks and the children of the deleted group; if that was the
   * current group, the one that takes over is current now.
   */
  lemma DeletionHandsOver(groups: seq<Group>, current: string, id: string, index: nat, p: nat, i: nat, x: string)
    requires id != DEFAULT_ID && IsFirst(groups, id, index) && TakesOver(groups, index, p)
    requires i < |groups| && i != index
    ensures var d := Delete(groups, current, id);
            && d.outcome == Deleted && |d.groups| == |groups| - 1
            && d.current == (if current == id then groups[p].id else current)
            && var after := d.groups[Shifted(index, i)];
               && (i != p ==> after == groups[i])
               && after.id == groups[i].id && after.level == groups[i].level
               && (i == p ==>
                     (x in Items(after.bookmarkIds) <==>
                        x in Items(groups[i].bookmarkIds) || x in Items(groups[index].bookmarkIds)))
               && (i == p ==>
                     (x in Items(after.groupIds) <==> x in Items(groups[i].groupIds) || x in Items(groups[index].groupIds)))
  {
    FirstIsIndex(groups, id, index);
    TakesOverIsHeir(groups, index, p);
    var merged := groups[p := Heir(groups[p], groups[index])];
    RemoveShifts(merged, index, i);
    MergedMembers(Items(groups[p].bookmarkIds), Items(groups[index].bookmarkIds), x);
    MergedMembers(Items(groups[p].groupIds), Items(groups[index].groupIds), x);
  }

  /** Nothing is deleted if it is the default group or no group at all; it fails if nobody takes over. */
  lemma NotDeletedIff(groups: seq<Group>, current: string, id: string)
    ensures var d := Delete(groups, current, id);
            && (d.outcome == Ignored <==> id == DEFAULT_ID || id !in Ids(groups))
            && (d.outcome == Crashed <==>
                  id != DEFAULT_ID
                  && exists index: nat :: IsFirst(groups, id, index) && forall p: nat :: !TakesOver(groups, index, p))
            && (d.outcome != Deleted ==> d.groups == groups && d.current == current)
  {
    FoundIff(groups, id);
    var index := IndexOfId(groups, id);
    forall k: nat
      ensures IsFirst(groups, id, k) <==> k < |groups| && k == index
    {
      FirstIsIndex(groups, id, k);
    }
    if index < |groups| {
      assert IsFirst(groups, id, index);
      var heir := HeirIndex(groups, groups[index]);
      forall p: nat
        ensures TakesOver(groups, index, p) <==> p < |groups| && p == heir
      {
        TakesOverIsHeir(groups, index, p);
      }
      assert heir < |groups| ==> TakesOver(groups, index, heir);
    }
  }

  lemma {:induction false} DedupIsDistinct(s: seq<string>)
    ensures Distinct(Dedup(s))
    decreases |s|
  {
    if s != [] {
      DedupIsDistinct(s[..|s| - 1]);
    }
  }

  lemma {:induction false} DedupKeepsFirst(own: seq<string>, more: seq<string>)
    requires Distinct(own)
    ensures own <= Dedup(own + more)
    decreases |own| + |more|
  {
    var s := own + more;
    if more != [] {
      assert s[..|s| - 1] == own + more[..|more| - 1];
      DedupKeepsFirst(own, more[..|more| - 1]);
    } else if own != [] {
      var front := own[..|own| - 1];
      assert s == own && front + [] == front;
      DedupKeepsFirst(front, []);
      assert own[|own| - 1] !in front;
      assert front <= Dedup(front) && |Dedup(front)| <= |front| by {
        DedupIsShorter(front);
      }
    }
  }

  lemma {:induction false} DedupIsShorter(s: seq<string>)
    ensures |Dedup(s)| <= |s|
    decreases |s|
  {
    if s != [] {
      DedupIsShorter(s[..|s| - 1]);
    }
  }

  /** The lists of the group that takes over keep their own order in front, and get nothing twice. */
  lemma MergedInOrder(own: seq<string>, more: seq<string>)
    requires Distinct(own)
    ensures own <= Merged(own, more) && Distinct(Merged(own, more))
  {
    DedupKeepsFirst(own, more);
    DedupIsDistinct(own + more);
  }

  // ----- Exactly what a repair leaves -----

  lemma AdoptMembers(groups: seq<Group>, stray: seq<string>, i: nat, x: string)
    requires IndexOfId(groups, DEFAULT_ID) < |groups| && i < |groups|
    ensures var after := Adopt(groups, stray);
            && |after| == |groups| && after[i].id == groups[i].id && after[i].level == groups[i].level
            && after[i].groupIds == groups[i].groupIds
            && (x in Items(after[i].bookmarkIds) <==>
                  x in Items(groups[i].bookmarkIds) || (i == IndexOfId(groups, DEFAULT_ID) && x in stray))
  {
  }

  lemma AdoptGroupsMembers(groups: seq<Group>, stray: seq<string>, i: nat, x: string)
    requires IndexOfId(groups, DEFAULT_ID) < |groups| && i < |groups|
    ensures var after := AdoptGroups(groups, stray);
            && |after| == |groups| && after[i].bookmarkIds == groups[i].bookmarkIds
            && (x in Items(after[i].groupIds) <==>
                  x in Items(groups[i].groupIds) || (i == IndexOfId(groups, DEFAULT_ID) && x in stray))
  {
  }

  lemma CleanedMembers(groups: seq<Group>, bookmarks: set<string>, i: nat, x: string)
    requires i < |groups|
    ensures var clean := Cleaned(groups, bookmarks, Ids(groups));
            && (x in Items(clean[i].bookmarkIds) <==> x in bookmarks && x in Items(groups[i].bookmarkIds))
            && (x in Items(clean[i].groupIds) <==> x in Ids(groups) && x != groups[i].id && x in Items(groups[i].groupIds))
  {
    FilterIn(b => b in bookmarks, Items(groups[i].bookmarkIds), x);
    FilterIn(c => c in Ids(groups) && c != groups[i].id, Items(groups[i].groupIds), x);
  }

  lemma GroupedCleaned(groups: seq<Group>, bookmarks: set<string>, b: string)
    requires b in bookmarks
    ensures b in Grouped(Cleaned(groups, bookmarks, Ids(groups))) <==>
            exists j :: 0 <= j < |groups| && b in Items(groups[j].bookmarkIds)
  {
    var clean := Cleaned(groups, bookmarks, Ids(groups));
    if b in Grouped(clean) {
      var j := GroupedAt(clean, b);
      CleanedMembers(groups, bookmarks, j, b);
    }
    if j :| 0 <= j < |groups| && b in Items(groups[j].bookmarkIds) {
      CleanedMembers(groups, bookmarks, j, b);
      GroupedIn(clean, j, b);
    }
  }

  /**
   * After a repair a group holds exactly those bookmarks that exist and that it held before; the
   * default group holds also those that no group held.
   */
  lemma RepairedMembersIff(stored: seq<Stored>, bookmarks: seq<string>, i: nat, b: string)
    requires i < |WithDefault(Normalized(stored))|
    ensures var groups, r := WithDefault(Normalized(stored)), Repaired(stored, bookmarks);
            && |r| == |groups| && r[i].id == groups[i].id && r[i].level == groups[i].level
            && (b in Items(r[i].bookmarkIds) <==>
                  && b in bookmarks
                  && (b in Items(groups[i].bookmarkIds)
                      || (IsFirst(groups, "default", i)
                          && forall j :: 0 <= j < |groups| ==> b !in Items(groups[j].bookmarkIds))))
  {
    RepairRepairs(stored, bookmarks);
    var groups := WithDefault(Normalized(stored));
    var clean := Cleaned(groups, AsSet(bookmarks), Ids(groups));
    SameIdsSameIndex(groups, clean, DEFAULT_ID);
    var stray := StrayBookmarks(clean, bookmarks);
    var adopted := Adopt(clean, stray);
    SameIdsSameIndex(clean, adopted, DEFAULT_ID);
    AdoptMembers(clean, stray, i, b);
    AdoptGroupsMembers(adopted, StrayGroupIds(adopted, Listed(adopted)), i, b);
    CleanedMembers(groups, AsSet(bookmarks), i, b);
    StrayBookmarksIn(clean, bookmarks, b);
    FirstIsIndex(groups, "default", i);
    if b in bookmarks {
      GroupedCleaned(groups, AsSet(bookmarks), b);
    }
  }

  /** A child group that no other group lists. */
  ghost predicate IsUnparented(groups: seq<Group>, c: string)
  {
    && c != "default" && (exists k :: 0 <= k < |groups| && groups[k].id == c && groups[k].level == 2)
    && forall j :: 0 <= j < |groups| && groups[j].id != c ==> c !in Items(groups[j].groupIds)
  }

  lemma ListedCleaned(groups: seq<Group>, bookmarks: set<string>, after: seq<Group>, c: string)
    requires |after| == |groups| && c in Ids(groups)
    requires forall i :: 0 <= i < |groups| ==> after[i].groupIds == Cleaned(groups, bookmarks, Ids(groups))[i].groupIds
    ensures c in Listed(after) <==> exists j :: 0 <= j < |groups| && groups[j].id != c && c in Items(groups[j].groupIds)
  {
    if c in Listed(after) {
      var g :| g in after && c in Items(g.groupIds);
      var j :| 0 <= j < |after| && after[j] == g;
      CleanedMembers(groups, bookmarks, j, c);
    }
    if j :| 0 <= j < |groups| && groups[j].id != c && c in Items(groups[j].groupIds) {
      CleanedMembers(groups, bookmarks, j, c);
      assert after[j] in after && c in Items(after[j].groupIds);
    }
  }

  lemma StrayIffUnparented(groups: seq<Group>, bookmarks: set<string>, after: seq<Group>, c: string)
    requires SameIds(groups, after)
    requires forall i :: 0 <= i < |groups| ==> after[i].groupIds == Cleaned(groups, bookmarks, Ids(groups))[i].groupIds
    ensures c in StrayGroupIds(after, Listed(after)) <==> IsUnparented(groups, c)
  {
    if c in Ids(groups) {
      ListedCleaned(groups, bookmarks, after, c);
    }
    if c in StrayGroupIds(after, Listed(after)) {
      var g :| g in after && g.id == c && IsStray(g, Listed(after));
      var k :| 0 <= k < |after| && after[k] == g;
      assert groups[k] in groups;
    }
    if IsUnparented(groups, c) {
      var k :| 0 <= k < |groups| && groups[k].id == c && groups[k].level == 2;
      assert groups[k] in groups && after[k] in after && IsStray(after[k], Listed(after));
    }
  }

  /**
   * ... and lists exactly those children that exist, are not itself, and that it listed before; the
   * default group lists also every child group that no other group lists.
   */
  lemma RepairedChildrenIff(stored: seq<Stored>, bookmarks: seq<string>, i: nat, c: string)
    requires i < |WithDefault(Normalized(stored))|
    ensures var groups, r := WithDefault(Normalized(stored)), Repaired(stored, bookmarks);
            && |r| == |groups|
            && (c in Items(r[i].groupIds) <==>
                  || (c in Ids(groups) && c != groups[i].id && c in Items(groups[i].groupIds))
                  || (IsFirst(groups, "default", i) && IsUnparented(groups, c)))
  {
    var groups := WithDefault(Normalized(stored));
    var clean := Cleaned(groups, AsSet(bookmarks), Ids(groups));
    SameIdsSameIndex(groups, clean, DEFAULT_ID);
    var adopted := Adopt(clean, StrayBookmarks(clean, bookmarks));
    forall k | 0 <= k < |groups|
      ensures adopted[k].id == clean[k].id && adopted[k].level == clean[k].level && adopted[k].groupIds == clean[k].groupIds
    {
      AdoptMembers(clean, StrayBookmarks(clean, bookmarks), k, c);
    }
    SameIdsSameIndex(clean, adopted, DEFAULT_ID);
    AdoptGroupsMembers(adopted, StrayGroupIds(adopted, Listed(adopted)), i, c);
    CleanedMembers(groups, AsSet(bookmarks), i, c);
    StrayIffUnparented(groups, AsSet(bookmarks), adopted, c);
    FirstIsIndex(groups, "default", i);
  }

  /** What a repair starts from: every stored group, in order, as an object or as a text that parses. */
  lemma {:induction false} NormalizedAt(stored: seq<Stored>, k: nat)
    requires k < |stored|
    ensures |Normalized(stored[..k])| <= |Normalized(stored)|
    ensures var parsed := if stored[k].Object? then Some(stored[k].group) else stored[k].parsed;
            if parsed.None? then |Normalized(stored[..k + 1])| == |Normalized(stored[..k])|
            else
              && |Normalized(stored[..k])| < |Normalized(stored)| && |Normalized(stored[..k + 1])| == |Normalized(stored[..k])| + 1
              && Normalized(stored)[|Normalized(stored[..k])|] == parsed.value
  {
    if k == 0 {
      assert stored[..1][1..] == [] && stored[..0] == [];
    } else {
      NormalizedAt(stored[1..], k - 1);
      assert stored[..k][1..] == stored[1..][..k - 1] && stored[..k + 1][1..] == stored[1..][..k];
    }
  }

  /** ... with a new empty default group in front if there is none. */
  lemma WithDefaultIs(groups: seq<Group>)
    ensures if "default" in Ids(groups) then WithDefault(groups) == groups
            else
              && |WithDefault(groups)| == |groups| + 1 && WithDefault(groups)[1..] == groups
              && var g := WithDefault(groups)[0];
                 g.id == "default" && g.level != 2 && Items(g.bookmarkIds) == [] && Items(g.groupIds) == []
  {
    FoundIff(groups, "default");
  }
}
