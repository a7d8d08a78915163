/** The id-keyed diff of two arrays (`compare`). */
module DataCompare {
  import opened Options
  import opened Sequences

  type Id = s: string | s != "" witness "0"

  /**
   * The JSON text of a record without its id. Of an item, the password and its
   * flag matter later; the other kind of record holds a list of ids.
   */
  datatype Payload =
    | Fields(password: seq<CodeUnit>, passwordEncrypted: bool, rest: string)
    | Value(value: seq<Id>)

  datatype Item = Item(id: Id, payload: Payload)

  datatype Diff = Diff(updated: seq<Item>, added: seq<Item>, removed: seq<Item>)

  /** The map that `new Map(items.map(item => [item.id, item]))` builds: later items win. */
  function ById(items: seq<Item>): map<Id, Item>
  {
    if items == [] then map[]
    else ById(items[..|items| - 1])[items[|items| - 1].id := items[|items| - 1]]
  }

  function Changed(known: map<Id, Item>, items: seq<Item>): seq<Item>
  {
    Filter((x: Item) => x.id in known && known[x.id] != x, items)
  }

  function Unknown(known: map<Id, Item>, items: seq<Item>): seq<Item>
  {
    Filter((x: Item) => x.id !in known, items)
  }

  function DiffOf(before: seq<Item>, after: seq<Item>): Diff
  {
    Diff(Changed(ById(before), after), Unknown(ById(before), after), Unknown(ById(after), before))
  }

  lemma {:induction false} ByIdHas(items: seq<Item>, id: Id)
    ensures id in ById(items) <==> exists x :: x in items && x.id == id
    ensures id in ById(items) ==> ById(items)[id] in items && ById(items)[id].id == id
  {
    if items != [] {
      var front, last := items[..|items| - 1], items[|items| - 1];
      assert items == front + [last];
      ByIdHas(front, id);
    }
  }

  lemma ChangedNext(known: map<Id, Item>, items: seq<Item>, i: nat)
    requires i < |items|
    ensures Changed(known, items[..i + 1]) ==
            if items[i].id in known && known[items[i].id] != items[i] then Changed(known, items[..i]) + [items[i]]
            else Changed(known, items[..i])
  {
    var keep := (x: Item) => x.id in known && known[x.id] != x;
    assert items[..i + 1] == items[..i] + [items[i]];
    FilterAppend(keep, items[..i], [items[i]]);
    FilterCons(keep, items[i], []);
    assert [items[i]] + [] == [items[i]];
  }

  lemma UnknownNext(known: map<Id, Item>, items: seq<Item>, i: nat)
    requires i < |items|
    ensures Unknown(known, items[..i + 1]) ==
            if items[i].id !in known then Unknown(known, items[..i]) + [items[i]] else Unknown(known, items[..i])
  {
    var keep := (x: Item) => x.id !in known;
    assert items[..i + 1] == items[..i] + [items[i]];
    FilterAppend(keep, items[..i], [items[i]]);
    FilterCons(keep, items[i], []);
    assert [items[i]] + [] == [items[i]];
  }

  lemma ChangedHas(known: map<Id, Item>, items: seq<Item>, x: Item)
    ensures x in Changed(known, items) <==> x in items && x.id in known && known[x.id] != x
  {
    FilterIn((x: Item) => x.id in known && known[x.id] != x, items, x);
  }

  lemma UnknownHas(known: map<Id, Item>, items: seq<Item>, x: Item)
    ensures x in Unknown(known, items) <==> x in items && x.id !in known
  {
    FilterIn((x: Item) => x.id !in known, items, x);
  }

  method MapById(items: seq<Item>) returns (m: map<Id, Item>)
    ensures m == ById(items)
  {
    m := map[];
    for i := 0 to |items|
      invariant m == ById(items[..i])
    {
      assert items[..i + 1][..i] == items[..i];
      m := m[items[i].id := items[i]];
    }
    assert items[..|items|] == items;
  }

  /** A missing array gives an empty diff. */
  method Compare(before: Option<seq<Item>>, after: Option<seq<Item>>) returns (diff: Diff)
    ensures diff == if before.None? || after.None? then Diff([], [], []) else DiffOf(before.value, after.value)
  {
    if before.None? || after.None? {
      return Diff([], [], []);
    }
    var oldItems, newItems := before.value, after.value;
    var oldMap := MapById(oldItems);
    var newMap := MapById(newItems);
    var updated, added, removed := [], [], [];
    for i := 0 to |newItems|
      invariant updated == Changed(oldMap, newItems[..i]) && added == Unknown(oldMap, newItems[..i])
    {
      var item := newItems[i];
      ChangedNext(oldMap, newItems, i);
      UnknownNext(oldMap, newItems, i);
      if item.id !in oldMap {
        added := added + [item];
      } else if oldMap[item.id] != item {
        updated := updated + [item];
      }
    }
    assert newItems[..|newItems|] == newItems;
    for i := 0 to |oldItems|
      invariant removed == Unknown(newMap, oldItems[..i])
    {
      UnknownNext(newMap, oldItems, i);
      if oldItems[i].id !in newMap {
        removed := removed + [oldItems[i]];
      }
    }
    assert oldItems[..|oldItems|] == oldItems;
    diff := Diff(updated, added, removed);
  }
}
