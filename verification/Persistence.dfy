/** The queued writes of a diff, and rebuilding an array from its table (`db.js`). */
module Persistence {
  import opened Options
  import opened Sequences
  import opened DataCompare
  import opened RowStore
  import Sorting

  /** Where the rows of an array live. */
  datatype Place = Place(enc: bool, table: string)

  function RowOf(p: Place, x: Item): Row { ToRow(p.enc, p.table, x.id, x.payload) }

  /** "Store the whole array": the table with a row for each item. */
  function Stored(p: Place, items: seq<Item>): Rows
  {
    Inserted(p.enc, p.table, map[], items)
  }

  // ----- Queues of writes -----

  /** First in, first out. */
  function Drain(p: Place, rows: Rows, queue: seq<Op>): Rows
    decreases |queue|
  {
    if queue == [] then rows else Drain(p, Apply(p.enc, p.table, rows, queue[0]), queue[1..])
  }

  function Removes(items: seq<Item>): seq<Op> { Map((x: Item) => Remove(x.id), items) }

  function Updates(items: seq<Item>): seq<Op> { Map((x: Item) => Update(x.id, x.payload, false), items) }

  /** The writes of one firing, in the order in which they are queued. */
  function WritesOf(diff: Diff): seq<Op>
  {
    Removes(diff.removed) + Updates(diff.updated) + if diff.added == [] then [] else [Insert(diff.added)]
  }

  lemma {:induction false} DrainAppend(p: Place, rows: Rows, a: seq<Op>, b: seq<Op>)
    ensures Drain(p, rows, a + b) == Drain(p, Drain(p, rows, a), b)
    decreases |a|
  {
    if a == [] {
      assert a + b == b;
    } else {
      assert (a + b)[1..] == a[1..] + b;
      DrainAppend(p, Apply(p.enc, p.table, rows, a[0]), a[1..], b);
    }
  }

  predicate HasId(items: seq<Item>, id: Id)
  {
    exists i :: 0 <= i < |items| && items[i].id == id
  }

  ghost predicate DistinctIds(items: seq<Item>)
  {
    forall i, j :: 0 <= i < j < |items| ==> items[i].id != items[j].id
  }

  lemma {:induction false} DrainRemoves(p: Place, rows: Rows, removed: seq<Item>, id: Id)
    ensures var r := Drain(p, rows, Removes(removed));
            && (id in r <==> id in rows && !HasId(removed, id))
            && (id in r ==> r[id] == rows[id])
    decreases |removed|
  {
    if removed != [] {
      assert Removes(removed)[1..] == Removes(removed[1..]);
      DrainRemoves(p, rows - {removed[0].id}, removed[1..], id);
      if HasId(removed, id) && id != removed[0].id {
        var i :| 0 <= i < |removed| && removed[i].id == id;
        assert removed[1..][i - 1].id == id;
      }
    }
  }

  lemma {:induction false} DrainUpdates(p: Place, rows: Rows, updated: seq<Item>, id: Id)
    ensures var r := Drain(p, rows, Updates(updated));
            && (id in r <==> id in rows)
            && (id in r && !HasId(updated, id) ==> r[id] == rows[id])
    decreases |updated|
  {
    if updated != [] {
      var x, rest := updated[0], updated[1..];
      assert Updates(updated)[1..] == Updates(rest);
      DrainUpdates(p, Apply(p.enc, p.table, rows, Update(x.id, x.payload, false)), rest, id);
      if HasId(rest, id) {
        var i :| 0 <= i < |rest| && rest[i].id == id;
        assert updated[i + 1].id == id;
      }
    }
  }

  lemma DistinctRest(items: seq<Item>)
    requires DistinctIds(items) && items != []
    ensures DistinctIds(items[1..]) && !HasId(items[1..], items[0].id)
    ensures forall x :: x in items && x != items[0] ==> x in items[1..]
  {
    assert items == [items[0]] + items[1..];
  }

  lemma {:induction false} DrainUpdate(p: Place, rows: Rows, updated: seq<Item>, x: Item)
    requires DistinctIds(updated) && x in updated && x.id in rows
    ensures var r := Drain(p, rows, Updates(updated));
            x.id in r && r[x.id] == RowOf(p, x)
    decreases |updated|
  {
    var first, rest := updated[0], updated[1..];
    assert Updates(updated)[1..] == Updates(rest);
    var next := Apply(p.enc, p.table, rows, Update(first.id, first.payload, false));
    DistinctRest(updated);
    if x == first {
      DrainUpdates(p, next, rest, x.id);
    } else {
      DrainUpdate(p, next, rest, x);
    }
  }

  lemma {:induction false} InsertedAt(p: Place, rows: Rows, docs: seq<Item>, id: Id)
    ensures var r := Inserted(p.enc, p.table, rows, docs);
            && (id in r <==> id in rows || HasId(docs, id))
            && (id in r && !HasId(docs, id) ==> r[id] == rows[id])
    decreases |docs|
  {
    if docs != [] {
      var front := docs[..|docs| - 1];
      InsertedAt(p, rows, front, id);
      if HasId(front, id) {
        var i :| 0 <= i < |front| && front[i].id == id;
        assert docs[i].id == id;
      }
      assert docs[|docs| - 1].id == id ==> HasId(docs, id);
    }
  }

  lemma {:induction false} InsertedItem(p: Place, rows: Rows, docs: seq<Item>, x: Item)
    requires DistinctIds(docs) && x in docs
    ensures var r := Inserted(p.enc, p.table, rows, docs);
            x.id in r && r[x.id] == RowOf(p, x)
    decreases |docs|
  {
    var front, last := docs[..|docs| - 1], docs[|docs| - 1];
    assert docs == front + [last];
    if x != last {
      InsertedItem(p, rows, front, x);
      assert x.id != last.id;
    }
  }

  // ----- The diff is enough -----

  lemma DistinctFilter(keep: Item -> bool, items: seq<Item>)
    requires DistinctIds(items)
    ensures DistinctIds(Filter(keep, items))
  {
    if items != [] {
      DistinctFilter(keep, items[1..]);
      var rest := Filter(keep, items[1..]);
      forall j | 0 <= j < |rest|
        ensures rest[j].id != items[0].id
      {
        FilterIn(keep, items[1..], rest[j]);
      }
    }
  }

  lemma DistinctDiff(before: seq<Item>, after: seq<Item>)
    requires DistinctIds(after)
    ensures DistinctIds(DiffOf(before, after).updated) && DistinctIds(DiffOf(before, after).added)
  {
    var known := ById(before);
    DistinctFilter((x: Item) => x.id in known && known[x.id] != x, after);
    DistinctFilter((x: Item) => x.id !in known, after);
  }

  lemma HasIdIn(items: seq<Item>, id: Id)
    ensures HasId(items, id) <==> exists x :: x in items && x.id == id
    ensures HasId(items, id) <==> id in ById(items)
  {
    ByIdHas(items, id);
    if HasId(items, id) {
      var i :| 0 <= i < |items| && items[i].id == id;
      assert items[i] in items;
    }
    if x: Item :| x in items && x.id == id {
      var i :| 0 <= i < |items| && items[i] == x;
    }
  }

  /** What the three lists of a diff say about one id. */
  lemma DiffAt(before: seq<Item>, after: seq<Item>, id: Id)
    requires DistinctIds(before) && DistinctIds(after)
    ensures var d := DiffOf(before, after);
            && (HasId(d.removed, id) <==> HasId(before, id) && !HasId(after, id))
            && (HasId(d.added, id) <==> HasId(after, id) && !HasId(before, id))
            && (HasId(d.updated, id) ==> HasId(before, id) && HasId(after, id))
            && (forall x :: x in after && x.id == id ==>
                  if HasId(before, id) then x in d.updated || (x in before && !HasId(d.updated, id)) else x in d.added)
  {
    var d := DiffOf(before, after);
    HasIdIn(before, id);
    HasIdIn(after, id);
    HasIdIn(d.removed, id);
    HasIdIn(d.added, id);
    HasIdIn(d.updated, id);
    ByIdHas(before, id);
    ByIdHas(after, id);
    forall x: Item | x.id == id
      ensures x in d.removed <==> x in before && !HasId(after, id)
      ensures x in d.added <==> x in after && !HasId(before, id)
      ensures x in d.updated <==> x in after && HasId(before, id) && ById(before)[id] != x
    {
      UnknownHas(ById(after), before, x);
      UnknownHas(ById(before), after, x);
      ChangedHas(ById(before), after, x);
    }
  }

  /** A diff lists exactly the items that are not there with the same content before, or not at all after. */
  lemma DiffIsExact(before: seq<Item>, after: seq<Item>, x: Item)
    requires DistinctIds(before) && DistinctIds(after)
    ensures var d := DiffOf(before, after);
            && (x in d.updated <==> x in after && x !in before && HasId(before, x.id))
            && (x in d.added <==> x in after && !HasId(before, x.id))
            && (x in d.removed <==> x in before && !HasId(after, x.id))
  {
    HasIdIn(before, x.id);
    HasIdIn(after, x.id);
    ByIdHas(before, x.id);
    UnknownHas(ById(after), before, x);
    UnknownHas(ById(before), after, x);
    ChangedHas(ById(before), after, x);
  }

  /** So an array that has not changed causes no writes. */
  lemma NothingChanged(items: seq<Item>)
    requires DistinctIds(items)
    ensures WritesOf(DiffOf(items, items)) == []
  {
    var d := DiffOf(items, items);
    forall x
      ensures x !in d.updated && x !in d.added && x !in d.removed
    {
      DiffIsExact(items, items, x);
      HasIdIn(items, x.id);
    }
    EmptyIff(d.updated);
    EmptyIff(d.added);
    EmptyIff(d.removed);
  }

  /** The table after the writes of a diff. */
  function Patched(p: Place, rows: Rows, d: Diff): Rows
  {
    Drain(p, rows, WritesOf(d))
  }

  lemma PatchedInThree(p: Place, rows: Rows, d: Diff)
    ensures var updated := Drain(p, Drain(p, rows, Removes(d.removed)), Updates(d.updated));
            Patched(p, rows, d) == Inserted(p.enc, p.table, updated, d.added)
  {
    var removes, updates := Removes(d.removed), Updates(d.updated);
    var inserts := if d.added == [] then [] else [Insert(d.added)];
    DrainAppend(p, rows, removes + updates, inserts);
    DrainAppend(p, rows, removes, updates);
  }

  lemma PatchedAt(p: Place, rows: Rows, d: Diff, id: Id)
    ensures var r := Patched(p, rows, d);
            && (id in r <==> (id in rows && !HasId(d.removed, id)) || HasId(d.added, id))
            && (id in r && !HasId(d.added, id) && !HasId(d.updated, id) ==> r[id] == rows[id])
  {
    var first := Drain(p, rows, Removes(d.removed));
    PatchedInThree(p, rows, d);
    DrainRemoves(p, rows, d.removed, id);
    DrainUpdates(p, first, d.updated, id);
    InsertedAt(p, Drain(p, first, Updates(d.updated)), d.added, id);
  }

  lemma PatchedItem(p: Place, rows: Rows, d: Diff, x: Item)
    requires DistinctIds(d.updated) && DistinctIds(d.added)
    requires x in d.added || (x in d.updated && x.id in rows && !HasId(d.removed, x.id) && !HasId(d.added, x.id))
    ensures x.id in Patched(p, rows, d) && Patched(p, rows, d)[x.id] == RowOf(p, x)
  {
    var first := Drain(p, rows, Removes(d.removed));
    var second := Drain(p, first, Updates(d.updated));
    PatchedInThree(p, rows, d);
    if x in d.added {
      InsertedItem(p, second, d.added, x);
    } else {
      DrainRemoves(p, rows, d.removed, x.id);
      DrainUpdate(p, first, d.updated, x);
      InsertedAt(p, second, d.added, x.id);
    }
  }

  /** For one id: the row after the writes is the row of the whole new array. */
  lemma DiffPatchesAt(p: Place, before: seq<Item>, after: seq<Item>, id: Id)
    requires DistinctIds(before) && DistinctIds(after)
    ensures var r, whole := Patched(p, Stored(p, before), DiffOf(before, after)), Stored(p, after);
            (id in r <==> id in whole) && (id in r && id in whole ==> r[id] == whole[id])
  {
    var d, rows := DiffOf(before, after), Stored(p, before);
    DistinctDiff(before, after);
    DiffAt(before, after, id);
    PatchedAt(p, rows, d, id);
    InsertedAt(p, map[], before, id);
    InsertedAt(p, map[], after, id);
    if HasId(after, id) {
      var i :| 0 <= i < |after| && after[i].id == id;
      var x := after[i];
      InsertedItem(p, map[], after, x);
      if x in d.updated || x in d.added {
        PatchedItem(p, rows, d, x);
      } else {
        InsertedItem(p, map[], before, x);
      }
    }
  }

  /** The incremental form agrees with storing the whole array. */
  lemma DiffPatches(p: Place, before: seq<Item>, after: seq<Item>)
    requires DistinctIds(before) && DistinctIds(after)
    ensures Patched(p, Stored(p, before), DiffOf(before, after)) == Stored(p, after)
  {
    var r, whole := Patched(p, Stored(p, before), DiffOf(before, after)), Stored(p, after);
    forall id: Id
      ensures id in r <==> id in whole
      ensures id in r && id in whole ==> r[id] == whole[id]
    {
      DiffPatchesAt(p, before, after, id);
    }
  }

  // ----- Decoding old passwords -----

  /** How passwords were once stored: the unit at position i is moved up by i + 1. */
  function Encoded(password: seq<CodeUnit>): (r: seq<CodeUnit>)
    ensures |r| == |password|
  {
    seq(|password|, i requires 0 <= i < |password| => (password[i] + i + 1) % 0x10000)
  }

  function Dec(password: seq<CodeUnit>): seq<CodeUnit>
  {
    seq(|password|, i requires 0 <= i < |password| => (password[i] - i - 1) % 0x10000)
  }

  /** Decoding undoes the old encoding, and every text is the encoding of what it decodes to. */
  lemma DecEncoded(password: seq<CodeUnit>)
    ensures Dec(Encoded(password)) == password && Encoded(Dec(password)) == password
  {
    forall i | 0 <= i < |password|
      ensures Dec(Encoded(password))[i] == password[i] && Encoded(Dec(password))[i] == password[i]
    {
    }
  }

  function DecPayload(json: Payload): Payload
  {
    if json.Fields? && json.passwordEncrypted && json.password != [] then Fields(Dec(json.password), false, json.rest)
    else json
  }

  function DecObj(x: Item): Item { Item(x.id, DecPayload(x.payload)) }

  predicate HasOldPassword(x: Item)
  {
    x.payload.Fields? && x.payload.passwordEncrypted && x.payload.password != []
  }

  /**
   * What loading may make of a document, in terms of the old encoding: where there is an old password,
   * the text that it is the encoding of, without the flag; everything else stays.
   */
  predicate LoadsAs(doc: Payload, loaded: Payload)
  {
    if doc.Fields? && doc.passwordEncrypted && doc.password != [] then
      loaded.Fields? && Encoded(loaded.password) == doc.password && !loaded.passwordEncrypted && loaded.rest == doc.rest
    else loaded == doc
  }

  /** A document with the old encoding of a password loads as the password, and as nothing else. */
  lemma LoadsAsIff(password: seq<CodeUnit>, rest: string, loaded: Payload)
    requires password != []
    ensures LoadsAs(Fields(Encoded(password), true, rest), loaded) <==> loaded == Fields(password, false, rest)
  {
    DecEncoded(password);
    if loaded.Fields? {
      DecEncoded(loaded.password);
    }
  }

  lemma DecodesAs(json: Payload)
    ensures LoadsAs(json, DecPayload(json))
  {
    if json.Fields? {
      DecEncoded(json.password);
    }
  }

  // ----- Tables that read the same -----

  /** What a row says, as a document, or for `decoded` as a document whose old password is decoded. */
  function Reading(decoded: bool, p: Place, id: Id, row: Row): Payload
  {
    if decoded then DecPayload(ToDoc(p.enc, p.table, id, row)) else ToDoc(p.enc, p.table, id, row)
  }

  /** Equal as documents, decoded or not; a row may still be plain where it would be encrypted today. */
  ghost predicate SameDocs(decoded: bool, p: Place, a: Rows, b: Rows)
  {
    && (forall id :: id in a <==> id in b)
    && (forall id :: id in a && id in b ==> Reading(decoded, p, id, a[id]) == Reading(decoded, p, id, b[id]))
  }

  lemma {:induction false} InsertedSame(decoded: bool, p: Place, a: Rows, b: Rows, docs: seq<Item>)
    requires SameDocs(decoded, p, a, b)
    ensures SameDocs(decoded, p, Inserted(p.enc, p.table, a, docs), Inserted(p.enc, p.table, b, docs))
    decreases |docs|
  {
    if docs != [] {
      InsertedSame(decoded, p, a, b, docs[..|docs| - 1]);
    }
  }

  lemma {:induction false} DrainSame(decoded: bool, p: Place, a: Rows, b: Rows, queue: seq<Op>)
    requires SameDocs(decoded, p, a, b)
    ensures SameDocs(decoded, p, Drain(p, a, queue), Drain(p, b, queue))
    decreases |queue|
  {
    if queue != [] {
      if queue[0].Insert? {
        InsertedSame(decoded, p, a, b, queue[0].docs);
      }
      DrainSame(decoded, p, Apply(p.enc, p.table, a, queue[0]), Apply(p.enc, p.table, b, queue[0]), queue[1..]);
    }
  }
}
