/** Rebuilding an array from the rows of its table and the stored order (`fetchInitData`). */
module InitData {
  import opened Options
  import opened Sequences
  import opened DataCompare
  import opened RowStore
  import opened Persistence
  import opened Sorting

  // ----- Sorting -----

  /** `findIndex`: the first position of `id`, or -1. */
  function IndexIn(order: seq<Id>, id: Id): (k: int)
    ensures -1 <= k < |order| && (k >= 0 ==> order[k] == id) && (k == -1 <==> id !in order)
  {
    if order == [] then -1
    else if order[0] == id then 0
    else
      var k := IndexIn(order[1..], id);
      if k < 0 then -1 else k + 1
  }

  /** ... and it is the first one. */
  lemma {:induction false} IndexIsFirst(order: seq<Id>, id: Id, j: nat)
    requires j < |order| && order[j] == id
    ensures 0 <= IndexIn(order, id) <= j
  {
    if order[0] != id {
      IndexIsFirst(order[1..], id, j - 1);
    }
  }

  /** The comparison of `res.sort`: `a` does not come after `b`. */
  function ByOrder(order: seq<Id>): (Item, Item) -> bool
  {
    (a: Item, b: Item) => IndexIn(order, a.id) <= IndexIn(order, b.id)
  }

  function Fetch(docs: seq<Item>, order: Option<seq<Id>>): seq<Item>
  {
    var items := Map(DecObj, docs);
    if order.Some? && order.value != [] then Sort(ByOrder(order.value), items) else items
  }

  function Ids(items: seq<Item>): (ids: seq<Id>)
    ensures |ids| == |items|
  {
    Map((x: Item) => x.id, items)
  }

  /** The positions of `ids` in `order` grow; an id that is not there has position -1. */
  ghost predicate FollowsOrder(order: seq<Id>, ids: seq<Id>)
  {
    forall i, j :: 0 <= i < j < |ids| ==> IndexIn(order, ids[i]) < IndexIn(order, ids[j])
  }

  lemma {:induction false} SortOfSorted(le: (Item, Item) -> bool, s: seq<Item>)
    requires SortedBy(le, s)
    ensures Sort(le, s) == s
  {
    if s != [] {
      SortOfSorted(le, s[1..]);
      assert |s| > 1 ==> le(s[0], s[1]);
      assert s == [s[0]] + s[1..];
    }
  }

  lemma ByOrderIsTotal(order: seq<Id>)
    ensures TotalPreorder(ByOrder(order))
  {
  }

  /** An empty order changes nothing, so that sorting by it is what `fetchInitData` does in every case. */
  lemma FetchSorts(docs: seq<Item>, order: Option<seq<Id>>)
    ensures Fetch(docs, order) == Sort(ByOrder(if order.Some? then order.value else []), Map(DecObj, docs))
  {
    SortOfSorted(ByOrder([]), Map(DecObj, docs));
  }

  // ----- When the array comes back as it was -----

  lemma FollowingIsUnique(order: seq<Id>, items: seq<Item>, docs: seq<Item>)
    requires FollowsOrder(order, Ids(items)) && multiset(docs) == multiset(items)
    ensures Sort(ByOrder(order), docs) == items
  {
    var le := ByOrder(order);
    ByOrderIsTotal(order);
    SortIsSorted(le, docs);
    forall i, j | 0 <= i < j < |items|
      ensures IndexIn(order, items[i].id) < IndexIn(order, items[j].id)
    {
      assert IndexIn(order, Ids(items)[i]) < IndexIn(order, Ids(items)[j]);
    }
    SortedIsUnique(le, items, Sort(le, docs));
  }

  function Swapped(items: seq<Item>, k: nat): seq<Item>
    requires k + 1 < |items|
  {
    items[k := items[k + 1]][k + 1 := items[k]]
  }

  lemma SwappedIsPermuted(items: seq<Item>, k: nat)
    requires k + 1 < |items|
    ensures multiset(Swapped(items, k)) == multiset(items)
  {
    assert items == items[..k] + [items[k], items[k + 1]] + items[k + 2..];
    assert Swapped(items, k) == items[..k] + [items[k + 1], items[k]] + items[k + 2..];
  }

  /** Neighbours that the order does not tell apart can also come back swapped. */
  lemma TiesCanSwap(order: seq<Id>, items: seq<Item>, k: nat)
    requires k + 1 < |items| && items[k] != items[k + 1]
    requires SortedBy(ByOrder(order), items) && IndexIn(order, items[k].id) == IndexIn(order, items[k + 1].id)
    ensures Sort(ByOrder(order), Swapped(items, k)) != items
  {
    var swapped := Swapped(items, k);
    forall i, j | 0 <= i < j < |swapped|
      ensures ByOrder(order)(swapped[i], swapped[j])
    {
      var i', j' := if i == k then k + 1 else if i == k + 1 then k else i, if j == k then k + 1 else if j == k + 1 then k else j;
      assert swapped[i] == items[i'] && swapped[j] == items[j'];
      assert i' < j' ==> ByOrder(order)(items[i'], items[j']);
    }
    SortOfSorted(ByOrder(order), swapped);
    assert swapped[k] != items[k];
  }

  lemma {:induction false} NeighboursSuffice(order: seq<Id>, ids: seq<Id>)
    requires forall k :: 0 <= k < |ids| - 1 ==> IndexIn(order, ids[k]) < IndexIn(order, ids[k + 1])
    ensures FollowsOrder(order, ids)
  {
    if ids != [] {
      var n := |ids| - 1;
      NeighboursSuffice(order, ids[..n]);
      forall i, j | 0 <= i < j < |ids|
        ensures IndexIn(order, ids[i]) < IndexIn(order, ids[j])
      {
        if j == n && i < n - 1 {
          assert IndexIn(order, ids[..n][i]) < IndexIn(order, ids[..n][n - 1]);
          assert IndexIn(order, ids[n - 1]) < IndexIn(order, ids[n - 1 + 1]);
        } else if j < n {
          assert IndexIn(order, ids[..n][i]) < IndexIn(order, ids[..n][j]);
        } else {
          assert IndexIn(order, ids[i]) < IndexIn(order, ids[i + 1]);
        }
      }
    }
  }

  /** If neither listing the items in their order nor with two neighbours swapped can change the result, ids follow the order. */
  lemma SortsBackOnlyIf(order: seq<Id>, items: seq<Item>)
    requires DistinctIds(items) && Sort(ByOrder(order), items) == items
    requires forall k: nat :: k + 1 < |items| ==> Sort(ByOrder(order), Swapped(items, k)) == items
    ensures FollowsOrder(order, Ids(items))
  {
    ByOrderIsTotal(order);
    SortIsSorted(ByOrder(order), items);
    forall k | 0 <= k < |items| - 1
      ensures IndexIn(order, Ids(items)[k]) < IndexIn(order, Ids(items)[k + 1])
    {
      assert ByOrder(order)(items[k], items[k + 1]);
      if IndexIn(order, items[k].id) == IndexIn(order, items[k + 1].id) {
        TiesCanSwap(order, items, k);
      }
    }
    NeighboursSuffice(order, Ids(items));
  }

  lemma {:induction false} IndexOfOwn(ids: seq<Id>, k: nat)
    requires Distinct(ids) && k < |ids|
    ensures IndexIn(ids, ids[k]) == k
  {
    if k > 0 {
      IndexOfOwn(ids[1..], k - 1);
    }
  }

  lemma OwnOrder(items: seq<Item>)
    requires DistinctIds(items)
    ensures FollowsOrder(Ids(items), Ids(items))
  {
    var ids := Ids(items);
    forall i, j | 0 <= i < j < |ids|
      ensures IndexIn(ids, ids[i]) < IndexIn(ids, ids[j])
    {
      IndexOfOwn(ids, i);
      IndexOfOwn(ids, j);
    }
  }

  // ----- From rows to documents -----

  lemma StoredLists(p: Place, items: seq<Item>, docs: seq<Item>)
    requires DistinctIds(items) && Lists(p.enc, p.table, Stored(p, items), docs)
    ensures multiset(docs) == multiset(items)
  {
    forall x
      ensures x in docs <==> x in items
    {
      InsertedAt(p, map[], items, x.id);
      if x in items {
        InsertedItem(p, map[], items, x);
        ReadBackIff(p.enc, p.enc, p.table, x.id, x.payload);
        var i :| 0 <= i < |docs| && docs[i].id == x.id;
        assert docs[i] == x;
      }
      if x in docs {
        var i :| 0 <= i < |docs| && docs[i] == x;
        var j :| 0 <= j < |items| && items[j].id == x.id;
        InsertedItem(p, map[], items, items[j]);
        ReadBackIff(p.enc, p.enc, p.table, x.id, items[j].payload);
        assert items[j] == x;
      }
    }
    SameElements(docs, items);
  }

  /** Decoding keeps ids, so decoded listings of one table differ only in their order. */
  lemma DecodedPermuted(a: seq<Item>, b: seq<Item>)
    requires DistinctIds(a) && DistinctIds(b) && multiset(a) == multiset(b)
    ensures multiset(Map(DecObj, a)) == multiset(Map(DecObj, b))
  {
    var a', b' := Map(DecObj, a), Map(DecObj, b);
    forall x
      ensures x in a' <==> x in b'
    {
      if x in a' {
        DecodedIn(a, b, x);
      }
      if x in b' {
        DecodedIn(b, a, x);
      }
    }
    SameElements(a', b');
  }

  lemma DecodedIn(a: seq<Item>, b: seq<Item>, x: Item)
    requires multiset(a) == multiset(b) && x in Map(DecObj, a)
    ensures x in Map(DecObj, b)
  {
    var i :| 0 <= i < |a| && Map(DecObj, a)[i] == x;
    assert a[i] in multiset(b);
    var j :| 0 <= j < |b| && b[j] == a[i];
    assert Map(DecObj, b)[j] == x;
  }

  /** Decoding leaves exactly the items without an old password as they are. */
  lemma DecodedIff(items: seq<Item>)
    ensures Map(DecObj, items) == items <==> forall x :: x in items ==> !HasOldPassword(x)
  {
    if forall x :: x in items ==> !HasOldPassword(x) {
      forall i | 0 <= i < |items|
        ensures DecObj(items[i]) == items[i]
      {
        assert items[i] in items;
      }
    }
    if Map(DecObj, items) == items {
      forall x | x in items
        ensures !HasOldPassword(x)
      {
        var i :| 0 <= i < |items| && items[i] == x;
        assert DecObj(items[i]) == items[i];
      }
    }
  }

  /** Every arrangement of the items is a listing of their table. */
  lemma ArrangedLists(p: Place, items: seq<Item>, docs: seq<Item>)
    requires DistinctIds(items) && DistinctIds(docs) && forall x :: x in docs <==> x in items
    ensures Lists(p.enc, p.table, Stored(p, items), docs)
  {
    var rows := Stored(p, items);
    forall i | 0 <= i < |docs|
      ensures docs[i].id in rows && docs[i].payload == ToDoc(p.enc, p.table, docs[i].id, rows[docs[i].id])
    {
      InsertedItem(p, map[], items, docs[i]);
      ReadBackIff(p.enc, p.enc, p.table, docs[i].id, docs[i].payload);
    }
    forall id | id in rows
      ensures exists i :: 0 <= i < |docs| && docs[i].id == id
    {
      InsertedAt(p, map[], items, id);
      var k :| 0 <= k < |items| && items[k].id == id;
      assert items[k] in docs;
    }
  }

  lemma SwappedDecoded(items: seq<Item>, k: nat)
    requires k + 1 < |items|
    ensures Map(DecObj, Swapped(items, k)) == Swapped(Map(DecObj, items), k)
  {
  }

  lemma SwappedLists(p: Place, items: seq<Item>, k: nat)
    requires DistinctIds(items) && k + 1 < |items|
    ensures Lists(p.enc, p.table, Stored(p, items), Swapped(items, k))
  {
    var docs := Swapped(items, k);
    SwappedIsPermuted(items, k);
    forall x
      ensures x in docs <==> x in items
    {
      assert x in docs <==> x in multiset(docs);
    }
    ArrangedLists(p, items, docs);
  }

  /** Where the rows of a table go by `fetchInitData`, whatever order they come in. */
  ghost predicate Fetches(p: Place, rows: Rows, order: Option<seq<Id>>, items: seq<Item>)
  {
    forall docs :: Lists(p.enc, p.table, rows, docs) ==> Fetch(docs, order) == items
  }

  /**
   * From a table that stores `items`, every listing of its rows gives back the
   * decoded items in their order, exactly if their ids follow the stored order.
   */
  lemma FetchesIff(p: Place, items: seq<Item>, order: Option<seq<Id>>)
    requires DistinctIds(items)
    ensures Fetches(p, Stored(p, items), order, Map(DecObj, items))
            <==> FollowsOrder(if order.Some? then order.value else [], Ids(items))
  {
    var ids := if order.Some? then order.value else [];
    var whole := Map(DecObj, items);
    assert Ids(whole) == Ids(items) && DistinctIds(whole);
    if FollowsOrder(ids, Ids(items)) {
      forall docs | Lists(p.enc, p.table, Stored(p, items), docs)
        ensures Fetch(docs, order) == whole
      {
        StoredLists(p, items, docs);
        DecodedPermuted(docs, items);
        FetchSorts(docs, order);
        FollowingIsUnique(ids, whole, Map(DecObj, docs));
      }
    }
    if Fetches(p, Stored(p, items), order, whole) {
      ArrangedLists(p, items, items);
      FetchSorts(items, order);
      forall k: nat | k + 1 < |whole|
        ensures Sort(ByOrder(ids), Swapped(whole, k)) == whole
      {
        SwappedLists(p, items, k);
        SwappedDecoded(items, k);
        FetchSorts(Swapped(items, k), order);
      }
      SortsBackOnlyIf(ids, whole);
    }
  }

  /** The documents of one table, as another table has them. */
  function Reread(p: Place, rows: Rows, docs: seq<Item>): seq<Item>
  {
    Map((x: Item) => if x.id in rows then Item(x.id, ToDoc(p.enc, p.table, x.id, rows[x.id])) else x, docs)
  }

  lemma RereadLists(p: Place, a: Rows, b: Rows, docs: seq<Item>)
    requires SameDocs(true, p, a, b) && Lists(p.enc, p.table, a, docs)
    ensures Lists(p.enc, p.table, b, Reread(p, b, docs))
    ensures Map(DecObj, Reread(p, b, docs)) == Map(DecObj, docs)
  {
    var other := Reread(p, b, docs);
    forall i | 0 <= i < |docs|
      ensures DecObj(other[i]) == DecObj(docs[i])
    {
      assert Reading(true, p, docs[i].id, a[docs[i].id]) == Reading(true, p, docs[i].id, b[docs[i].id]);
    }
    forall id | id in b
      ensures exists i :: 0 <= i < |other| && other[i].id == id
    {
      var i :| 0 <= i < |docs| && docs[i].id == id;
      assert other[i].id == id;
    }
  }

  lemma FetchesFromSame(p: Place, a: Rows, b: Rows, order: Option<seq<Id>>, items: seq<Item>)
    requires SameDocs(true, p, a, b) && Fetches(p, b, order, items)
    ensures Fetches(p, a, order, items)
  {
    forall docs | Lists(p.enc, p.table, a, docs)
      ensures Fetch(docs, order) == items
    {
      RereadLists(p, a, b, docs);
    }
  }

  /** What loading gives depends on the decoded documents only. */
  lemma FetchesSame(decoded: bool, p: Place, a: Rows, b: Rows, order: Option<seq<Id>>, items: seq<Item>)
    requires SameDocs(decoded, p, a, b)
    ensures Fetches(p, a, order, items) <==> Fetches(p, b, order, items)
  {
    assert SameDocs(true, p, a, b) && SameDocs(true, p, b, a);
    if Fetches(p, b, order, items) {
      FetchesFromSame(p, a, b, order, items);
    }
    if Fetches(p, a, order, items) {
      FetchesFromSame(p, b, a, order, items);
    }
  }

  // ----- The order row -----

  function OrderKey(table: string): Id { table + ":order" }

  function OrderOp(table: string, order: seq<Id>): Op { Update(OrderKey(table), Value(order), true) }

  /** `getData`: the order row of the table, if there is one. */
  function StoredOrder(p: Place, data: Rows): Option<seq<Id>>
  {
    var key := OrderKey(p.table);
    if key !in data then None
    else
      match ToDoc(p.enc, "data", key, data[key])
      case Value(order) => Some(order)
      case _ => None
  }

  lemma OrderIsStored(p: Place, data: Rows, order: seq<Id>)
    ensures StoredOrder(p, Apply(p.enc, "data", data, OrderOp(p.table, order))) == Some(order)
  {
    ReadBackIff(p.enc, p.enc, "data", OrderKey(p.table), Value(order));
  }

  lemma KeysOfOrders(a: string, b: string)
    ensures OrderKey(a) != "userConfig" && (OrderKey(a) == OrderKey(b) <==> a == b)
  {
    var key := OrderKey(a);
    assert key[|key| - 1] == 'r';
    assert "userConfig"[|"userConfig"| - 1] == 'g';
    if key == OrderKey(b) {
      assert a == key[..|key| - 6] && b == OrderKey(b)[..|key| - 6];
    }
  }

  /** Storing the order of one table leaves the orders of the others and the user's configuration alone. */
  lemma OtherOrdersStay(p: Place, other: Place, data: Rows, order: seq<Id>)
    requires other.enc == p.enc && other.table != p.table
    ensures var after := Apply(p.enc, "data", data, OrderOp(p.table, order));
            && StoredOrder(other, after) == StoredOrder(other, data)
            && (("userConfig" in after) <==> ("userConfig" in data))
            && ("userConfig" in data ==> after["userConfig"] == data["userConfig"])
  {
    KeysOfOrders(p.table, other.table);
  }

  method GetOrder(database: Database, table: string) returns (order: Option<seq<Id>>)
    requires database.Valid()
    ensures order == StoredOrder(Place(database.encrypting, table), database.tables["data"])
  {
    var doc := database.FindOne("data", OrderKey(table));
    if doc.Some? && doc.value.payload.Value? {
      return Some(doc.value.payload.value);
    }
    order := None;
  }

  /**
   * `fetchInitData`: some listing of the rows, decoded and sorted by the stored order; so where
   * every listing gives the same array, that array. Each row gives one item, in which an old
   * password is the one that was encoded. An unknown table gives nothing.
   */
  method FetchInitData(database: Database, table: string) returns (items: seq<Item>)
    requires database.Valid()
    ensures table !in TABLES ==> items == []
    ensures table in TABLES ==>
              var p := Place(database.encrypting, table);
              var rows, order := database.tables[table], StoredOrder(p, database.tables["data"]);
              && (exists docs :: Lists(p.enc, table, rows, docs) && items == Fetch(docs, order))
              && (forall whole :: Fetches(p, rows, order, whole) ==> items == whole)
              && DistinctIds(items) && (forall id :: id in rows <==> HasId(items, id))
              && (forall x :: x in items ==> x.id in rows && LoadsAs(ToDoc(p.enc, table, x.id, rows[x.id]), x.payload))
  {
    var found := database.Find(table);
    var docs := if found.Some? then found.value else [];
    var order := GetOrder(database, table);
    items := Fetch(docs, order);
    if found.Some? {
      LoadedRows(Place(database.encrypting, table), database.tables[table], docs, order);
    } else {
      FetchedItems(docs, order);
      assert |items| == |multiset(items)|;
    }
  }

  // ----- Loading -----

  lemma FetchedItems(docs: seq<Item>, order: Option<seq<Id>>)
    ensures multiset(Fetch(docs, order)) == multiset(Map(DecObj, docs))
  {
    FetchSorts(docs, order);
    var ids := if order.Some? then order.value else [];
    ByOrderIsTotal(ids);
    SortIsSorted(ByOrder(ids), Map(DecObj, docs));
  }

  lemma PermutedIds(a: seq<Item>, b: seq<Item>)
    requires DistinctIds(a) && multiset(a) == multiset(b)
    ensures DistinctIds(b)
  {
    assert Distinct(a);
    PermutedIsDistinct(a, b);
    forall i, j | 0 <= i < j < |b|
      ensures b[i].id != b[j].id
    {
      assert b[i] in multiset(a) && b[j] in multiset(a);
    }
  }

  lemma LoadedDistinct(p: Place, rows: Rows, docs: seq<Item>, order: Option<seq<Id>>)
    requires Lists(p.enc, p.table, rows, docs)
    ensures DistinctIds(Fetch(docs, order))
  {
    FetchedItems(docs, order);
    assert DistinctIds(Map(DecObj, docs));
    PermutedIds(Map(DecObj, docs), Fetch(docs, order));
  }

  lemma LoadedHas(docs: seq<Item>, order: Option<seq<Id>>, i: nat)
    requires i < |docs|
    ensures DecObj(docs[i]) in Fetch(docs, order)
  {
    FetchedItems(docs, order);
    assert Map(DecObj, docs)[i] in multiset(Fetch(docs, order));
  }

  lemma LoadedFrom(docs: seq<Item>, order: Option<seq<Id>>, k: nat) returns (i: nat)
    requires k < |Fetch(docs, order)|
    ensures i < |docs| && DecObj(docs[i]) == Fetch(docs, order)[k]
  {
    FetchedItems(docs, order);
    assert Fetch(docs, order)[k] in multiset(Map(DecObj, docs));
    i :| 0 <= i < |docs| && Map(DecObj, docs)[i] == Fetch(docs, order)[k];
  }

  /** Each row of the table gives one loaded item, with its password decoded. */
  lemma LoadedRows(p: Place, rows: Rows, docs: seq<Item>, order: Option<seq<Id>>)
    requires Lists(p.enc, p.table, rows, docs)
    ensures var items := Fetch(docs, order);
            && DistinctIds(items) && (forall id :: id in rows <==> HasId(items, id))
            && (forall x :: x in items ==> x.id in rows && LoadsAs(ToDoc(p.enc, p.table, x.id, rows[x.id]), x.payload))
  {
    var items := Fetch(docs, order);
    LoadedDistinct(p, rows, docs, order);
    forall x | x in items
      ensures x.id in rows && LoadsAs(ToDoc(p.enc, p.table, x.id, rows[x.id]), x.payload)
    {
      var k :| 0 <= k < |items| && items[k] == x;
      var i := LoadedFrom(docs, order, k);
      DecodesAs(docs[i].payload);
    }
    forall id
      ensures id in rows <==> HasId(items, id)
    {
      if id in rows {
        RowIsLoaded(p, rows, docs, order, id);
      }
    }
  }

  lemma RowIsLoaded(p: Place, rows: Rows, docs: seq<Item>, order: Option<seq<Id>>, id: Id)
    requires Lists(p.enc, p.table, rows, docs) && id in rows
    ensures HasId(Fetch(docs, order), id)
  {
    var items := Fetch(docs, order);
    var i :| 0 <= i < |docs| && docs[i].id == id;
    LoadedHas(docs, order, i);
    var k :| 0 <= k < |items| && items[k] == DecObj(docs[i]);
    assert items[k].id == id;
  }

  /** The row of a loaded document reads as the decoded document. */
  ghost predicate LoadedRow(p: Place, items: seq<Item>, x: Item)
  {
    x.id in Stored(p, items) && ToDoc(p.enc, p.table, x.id, Stored(p, items)[x.id]) == DecObj(x).payload
  }

  lemma LoadedAt(p: Place, items: seq<Item>, x: Item)
    requires DistinctIds(items) && DecObj(x) in items
    ensures LoadedRow(p, items, x)
  {
    InsertedItem(p, map[], items, DecObj(x));
    ReadBackIff(p.enc, p.enc, p.table, x.id, DecObj(x).payload);
  }

  lemma LoadedStays(p: Place, rows: Rows, docs: seq<Item>, order: Option<seq<Id>>, id: Id)
    requires Lists(p.enc, p.table, rows, docs) && id in rows
    ensures id in Stored(p, Fetch(docs, order))
  {
    LoadedDistinct(p, rows, docs, order);
    var i :| 0 <= i < |docs| && docs[i].id == id;
    LoadedHas(docs, order, i);
    LoadedAt(p, Fetch(docs, order), docs[i]);
  }

  lemma LoadedKeys(p: Place, rows: Rows, docs: seq<Item>, order: Option<seq<Id>>, id: Id)
    requires Lists(p.enc, p.table, rows, docs)
    ensures id in rows <==> id in Stored(p, Fetch(docs, order))
  {
    var items := Fetch(docs, order);
    InsertedAt(p, map[], items, id);
    if id in rows {
      LoadedStays(p, rows, docs, order, id);
    } else if HasId(items, id) {
      var k :| 0 <= k < |items| && items[k].id == id;
      var i := LoadedFrom(docs, order, k);
    }
  }

  lemma LoadedSame(p: Place, rows: Rows, docs: seq<Item>, order: Option<seq<Id>>, id: Id)
    requires Lists(p.enc, p.table, rows, docs) && id in rows && id in Stored(p, Fetch(docs, order))
    requires forall x :: x in docs ==> !HasOldPassword(x)
    ensures ToDoc(p.enc, p.table, id, rows[id]) == ToDoc(p.enc, p.table, id, Stored(p, Fetch(docs, order))[id])
  {
    LoadedDistinct(p, rows, docs, order);
    var i :| 0 <= i < |docs| && docs[i].id == id;
    assert docs[i] in docs;
    LoadedHas(docs, order, i);
    LoadedAt(p, Fetch(docs, order), docs[i]);
  }

  lemma LoadedOld(p: Place, rows: Rows, docs: seq<Item>, order: Option<seq<Id>>, i: nat)
    requires Lists(p.enc, p.table, rows, docs) && i < |docs|
    requires SameDocs(false, p, rows, Stored(p, Fetch(docs, order)))
    ensures !HasOldPassword(docs[i])
  {
    LoadedDistinct(p, rows, docs, order);
    LoadedHas(docs, order, i);
    LoadedAt(p, Fetch(docs, order), docs[i]);
    assert docs[i].id in rows;
  }

  /**
   * Just loaded, the array reads like its table exactly if no document has an
   * old password: such a document is decoded in memory and stays as it was in the table.
   */
  lemma LoadedIff(p: Place, rows: Rows, docs: seq<Item>, order: Option<seq<Id>>)
    requires Lists(p.enc, p.table, rows, docs)
    ensures SameDocs(false, p, rows, Stored(p, Fetch(docs, order))) <==> forall x :: x in docs ==> !HasOldPassword(x)
  {
    var stored := Stored(p, Fetch(docs, order));
    if SameDocs(false, p, rows, stored) {
      forall x | x in docs
        ensures !HasOldPassword(x)
      {
        var i :| 0 <= i < |docs| && docs[i] == x;
        LoadedOld(p, rows, docs, order, i);
      }
    }
    if forall x :: x in docs ==> !HasOldPassword(x) {
      forall id
        ensures id in rows <==> id in stored
        ensures id in rows && id in stored ==> Reading(false, p, id, rows[id]) == Reading(false, p, id, stored[id])
      {
        LoadedKeys(p, rows, docs, order, id);
        if id in rows {
          LoadedSame(p, rows, docs, order, id);
        }
      }
    }
  }

  lemma LoadedDecoded(p: Place, rows: Rows, docs: seq<Item>, order: Option<seq<Id>>, id: Id)
    requires Lists(p.enc, p.table, rows, docs) && id in rows && id in Stored(p, Fetch(docs, order))
    ensures Reading(true, p, id, rows[id]) == Reading(true, p, id, Stored(p, Fetch(docs, order))[id])
  {
    LoadedDistinct(p, rows, docs, order);
    var i :| 0 <= i < |docs| && docs[i].id == id;
    LoadedHas(docs, order, i);
    LoadedAt(p, Fetch(docs, order), docs[i]);
    assert DecPayload(DecPayload(docs[i].payload)) == DecPayload(docs[i].payload);
  }

  /** Just loaded, the array always reads like its table once both are decoded. */
  lemma LoadedReadsTheSame(p: Place, rows: Rows, docs: seq<Item>, order: Option<seq<Id>>)
    requires Lists(p.enc, p.table, rows, docs)
    ensures DistinctIds(Fetch(docs, order)) && SameDocs(true, p, rows, Stored(p, Fetch(docs, order)))
  {
    LoadedDistinct(p, rows, docs, order);
    var stored := Stored(p, Fetch(docs, order));
    forall id
      ensures id in rows <==> id in stored
      ensures id in rows && id in stored ==> Reading(true, p, id, rows[id]) == Reading(true, p, id, stored[id])
    {
      LoadedKeys(p, rows, docs, order, id);
      if id in rows {
        LoadedDecoded(p, rows, docs, order, id);
      }
    }
  }
}
