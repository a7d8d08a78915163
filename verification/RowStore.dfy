/** The tables of the main process (`toRow`, `toDoc`, `dbAction`): each is a map from id to row. */
module RowStore {
  import opened Options
  import opened Sequences
  import opened DataCompare

  /** The stored text: plain JSON, or marked and encrypted. The cipher is ideal. */
  datatype Row = Plain(json: Payload) | Encrypted(json: Payload)

  type Rows = map<Id, Row>

  /** What a text that is no JSON reads as: an object without fields. */
  const NOTHING := Fields([], false, "")

  const TABLES: set<string> := {
    "bookmarks", "bookmarkGroups", "addressBookmarks", "terminalThemes", "lastStates", "data", "quickCommands",
    "log", "dbUpgradeLog", "profiles", "workspaces", "history", "terminalCommandHistory", "aiChatHistory",
    "autoRunWidgets" }

  const ENC_TABLES: set<string> := {
    "bookmarks", "profiles", "data", "history", "terminalCommandHistory", "aiChatHistory" }

  predicate ShouldEnc(table: string, id: Id)
  {
    if table == "data" then id == "userConfig" else table in ENC_TABLES
  }

  function ToRow(enc: bool, table: string, id: Id, json: Payload): Row
  {
    if enc && ShouldEnc(table, id) then Encrypted(json) else Plain(json)
  }

  function ToDoc(dec: bool, table: string, id: Id, row: Row): Payload
  {
    if dec && ShouldEnc(table, id) then row.json
    else if row.Plain? then row.json
    else NOTHING
  }

  /** What is written is read back, unless it was encrypted and can no longer be decrypted. */
  lemma ReadBackIff(enc: bool, dec: bool, table: string, id: Id, json: Payload)
    ensures ToDoc(dec, table, id, ToRow(enc, table, id, json)) == json
            <==> (enc && ShouldEnc(table, id) ==> dec || json == NOTHING)
  {
  }

  /**
   * In a database that encrypts, exactly these records are encrypted: those of five tables, and the
   * user's configuration. In one that does not, none is.
   */
  ghost predicate AtRest(enc: bool, table: string, rows: Rows)
  {
    forall id :: id in rows ==>
      (rows[id].Encrypted? <==>
        && enc
        && (if table == "data" then id == "userConfig"
            else table in {"bookmarks", "profiles", "history", "terminalCommandHistory", "aiChatHistory"}))
  }

  datatype Op =
    | Insert(docs: seq<Item>)
    | Remove(id: Id)
    | Update(id: Id, json: Payload, upsert: bool)

  /** `INSERT OR REPLACE`, document by document. */
  function Inserted(enc: bool, table: string, rows: Rows, docs: seq<Item>): Rows
  {
    if docs == [] then rows
    else
      var last := docs[|docs| - 1];
      Inserted(enc, table, rows, docs[..|docs| - 1])[last.id := ToRow(enc, table, last.id, last.payload)]
  }

  /** One statement on one table; an update without `upsert` needs a row to update. */
  function Apply(enc: bool, table: string, rows: Rows, op: Op): Rows
  {
    match op
    case Insert(docs) => Inserted(enc, table, rows, docs)
    case Remove(id) => rows - {id}
    case Update(id, json, upsert) =>
      if upsert || id in rows then rows[id := ToRow(enc, table, id, json)] else rows
  }

  lemma {:induction false} InsertedAtRest(enc: bool, table: string, rows: Rows, docs: seq<Item>)
    requires AtRest(enc, table, rows)
    ensures AtRest(enc, table, Inserted(enc, table, rows, docs))
    decreases |docs|
  {
    if docs != [] {
      InsertedAtRest(enc, table, rows, docs[..|docs| - 1]);
    }
  }

  /** Every statement keeps exactly the records of those tables encrypted. */
  lemma AtRestStays(enc: bool, table: string, rows: Rows, op: Op)
    requires AtRest(enc, table, rows)
    ensures AtRest(enc, table, Apply(enc, table, rows, op))
  {
    if op.Insert? {
      InsertedAtRest(enc, table, rows, op.docs);
    }
  }

  /** The documents of a table, in whatever order the database has. */
  ghost predicate Lists(dec: bool, table: string, rows: Rows, docs: seq<Item>)
  {
    && (forall i, j :: 0 <= i < j < |docs| ==> docs[i].id != docs[j].id)
    && (forall i :: 0 <= i < |docs| ==>
          docs[i].id in rows && docs[i].payload == ToDoc(dec, table, docs[i].id, rows[docs[i].id]))
    && (forall id :: id in rows ==> exists i :: 0 <= i < |docs| && docs[i].id == id)
  }

  class Database {
    const encrypting: bool   // whether an encryption and a decryption are configured
    var tables: map<string, Rows>

    ghost predicate Valid()
      reads this
    {
      tables.Keys == TABLES
    }

    constructor (encrypting: bool)
      ensures Valid() && this.encrypting == encrypting
      ensures forall table :: table in tables ==> tables[table] == map[]
    {
      this.encrypting := encrypting;
      tables := map table | table in TABLES :: map[];
    }

    /** A statement that writes; `changes` counts rows. There is no such statement for an unknown table. */
    method Write(table: string, op: Op) returns (changes: Option<nat>)
      requires Valid()
      modifies this
      ensures Valid()
      ensures changes.None? <==> table !in TABLES
      ensures table !in TABLES ==> tables == old(tables)
      ensures table in TABLES ==>
                tables == old(tables)[table := Apply(encrypting, table, old(tables)[table], op)]
      ensures table in TABLES && !op.Insert? ==>
                (changes.value == 0 <==> op.id !in old(tables)[table] && !(op.Update? && op.upsert))
    {
      if table !in TABLES {
        return None;
      }
      var rows := tables[table];
      match op {
        case Insert(docs) =>
          for i := 0 to |docs|
            invariant rows == Inserted(encrypting, table, old(tables)[table], docs[..i])
          {
            assert docs[..i + 1][..i] == docs[..i];
            rows := rows[docs[i].id := ToRow(encrypting, table, docs[i].id, docs[i].payload)];
          }
          assert docs[..|docs|] == docs;
          changes := Some(|docs|);
        case Remove(id) =>
          changes := Some(if id in rows then 1 else 0);
          rows := rows - {id};
        case Update(id, json, upsert) =>
          if upsert || id in rows {
            rows := rows[id := ToRow(encrypting, table, id, json)];
            changes := Some(1);
          } else {
            changes := Some(0);
          }
      }
      tables := tables[table := rows];
    }

    /** `find`: every row as a document. */
    method Find(table: string) returns (docs: Option<seq<Item>>)
      requires Valid()
      ensures docs.None? <==> table !in TABLES
      ensures docs.Some? ==> Lists(encrypting, table, tables[table], docs.value)
    {
      if table !in TABLES {
        return None;
      }
      var rows := tables[table];
      var left, found: seq<Item> := rows.Keys, [];
      while left != {}
        invariant left <= rows.Keys
        invariant Lists(encrypting, table, rows - left, found)
        decreases |left|
      {
        var id :| id in left;
        var doc := Item(id, ToDoc(encrypting, table, id, rows[id]));
        ListsMore(encrypting, table, rows, left, found, doc);
        found, left := found + [doc], left - {id};
      }
      assert rows - {} == rows;
      docs := Some(found);
    }

    method FindOne(table: string, id: Id) returns (doc: Option<Item>)
      requires Valid()
      ensures doc == if table in TABLES && id in tables[table]
                     then Some(Item(id, ToDoc(encrypting, table, id, tables[table][id]))) else None
    {
      if table in TABLES && id in tables[table] {
        return Some(Item(id, ToDoc(encrypting, table, id, tables[table][id])));
      }
      doc := None;
    }
  }

  lemma ListsMore(dec: bool, table: string, rows: Rows, left: set<Id>, docs: seq<Item>, doc: Item)
    requires left <= rows.Keys && Lists(dec, table, rows - left, docs)
    requires doc.id in left && doc.payload == ToDoc(dec, table, doc.id, rows[doc.id])
    ensures Lists(dec, table, rows - (left - {doc.id}), docs + [doc])
  {
    var more, all := rows - (left - {doc.id}), docs + [doc];
    forall id | id in more
      ensures exists i :: 0 <= i < |all| && all[i].id == id
    {
      if id == doc.id {
        assert all[|docs|].id == id;
      } else {
        assert id in rows - left;
        var i :| 0 <= i < |docs| && docs[i].id == id;
        assert all[i].id == id;
      }
    }
  }
}
