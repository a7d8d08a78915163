/**
 * The watcher of one array: each firing diffs the array against the snapshot,
 * queues the row writes and, once these are acknowledged, writes the order. The
 * main process executes what is queued first in, first out.
 */
module WatchSync {
  import opened Options
  import opened Sequences
  import opened DataCompare
  import opened RowStore
  import opened Persistence
  import opened InitData

  datatype Entry =
    | RowWrite(firing: nat, op: Op)
    | OrderWrite(order: seq<Id>)

  /** `waiting` holds the firings whose order is not queued yet, with that order. */
  datatype State = State(
    snapshot: seq<Item>, queue: seq<Entry>, waiting: map<nat, seq<Id>>, firings: nat, rows: Rows, data: Rows)

  function Tagged(firing: nat, ops: seq<Op>): seq<Entry> { Map((op: Op) => RowWrite(firing, op), ops) }

  function ItemsOf(items: Option<seq<Item>>): seq<Item> { if items.Some? then items.value else [] }

  /** A firing; nothing is diffed if there is no array. */
  function Fired(s: State, items: Option<seq<Item>>, migrating: bool): State
  {
    if migrating then s
    else
      var diff := if items.None? then Diff([], [], []) else DiffOf(s.snapshot, items.value);
      s.(snapshot := ItemsOf(items), queue := s.queue + Tagged(s.firings, WritesOf(diff)),
         waiting := s.waiting[s.firings := Ids(ItemsOf(items))], firings := s.firings + 1)
  }

  /** All row writes of a firing are executed. */
  predicate Acknowledged(queue: seq<Entry>, firing: nat)
  {
    forall i :: 0 <= i < |queue| && queue[i].RowWrite? ==> queue[i].firing != firing
  }

  function Continued(s: State, firing: nat): State
    requires firing in s.waiting
  {
    s.(queue := s.queue + [OrderWrite(s.waiting[firing])], waiting := s.waiting - {firing})
  }

  function Executed(p: Place, s: State): State
    requires s.queue != []
  {
    match s.queue[0]
    case RowWrite(_, op) => s.(queue := s.queue[1..], rows := Apply(p.enc, p.table, s.rows, op))
    case OrderWrite(order) =>
      s.(queue := s.queue[1..], data := Apply(p.enc, "data", s.data, OrderOp(p.table, order)))
  }

  class Watcher {
    const table: string
    const database: Database
    var snapshot: seq<Item>
    var queue: seq<Entry>
    var waiting: map<nat, seq<Id>>
    var firings: nat

    ghost predicate Valid()
      reads this, database
    {
      database.Valid() && table in TABLES && table != "data"
    }

    ghost function Contents(): State
      requires Valid()
      reads this, database
    {
      State(snapshot, queue, waiting, firings, database.tables[table], database.tables["data"])
    }

    /** The array was just loaded. */
    constructor (table: string, database: Database, loaded: seq<Item>)
      requires database.Valid() && table in TABLES && table != "data"
      ensures Valid() && this.database == database && this.table == table
      ensures Contents() == State(loaded, [], map[], 0, database.tables[table], database.tables["data"])
    {
      this.table, this.database := table, database;
      snapshot, queue, waiting, firings := loaded, [], map[], 0;
    }

    method OnChange(items: Option<seq<Item>>, migrating: bool)
      requires Valid()
      modifies this
      ensures Valid() && Contents() == Fired(old(Contents()), items, migrating)
    {
      if migrating {
        return;
      }
      var diff := Compare(Some(snapshot), items);
      snapshot := ItemsOf(items);
      queue := queue + Tagged(firings, WritesOf(diff));
      waiting := waiting[firings := Ids(ItemsOf(items))];
      firings := firings + 1;
    }

    method OnAcknowledged(firing: nat)
      requires Valid() && firing in waiting && Acknowledged(queue, firing)
      modifies this
      ensures Valid() && Contents() == Continued(old(Contents()), firing)
    {
      queue := queue + [OrderWrite(waiting[firing])];
      waiting := waiting - {firing};
    }

    /** The main process takes the next statement. */
    method ExecuteNext()
      requires Valid() && queue != []
      modifies this`queue, database
      ensures Valid()
      ensures Contents() == Executed(Place(database.encrypting, table), old(Contents()))
    {
      match queue[0] {
        case RowWrite(_, op) =>
          var _ := database.Write(table, op);
        case OrderWrite(order) =>
          var _ := database.Write("data", OrderOp(table, order));
      }
      queue := queue[1..];
    }
  }

  // ----- Runs -----

  datatype Event = Change(items: Option<seq<Item>>, migrating: bool) | Continue(firing: nat) | Execute

  predicate CanHappen(s: State, e: Event)
  {
    match e
    case Change(_, _) => true
    case Continue(firing) => firing in s.waiting && Acknowledged(s.queue, firing)
    case Execute => s.queue != []
  }

  function Step(p: Place, s: State, e: Event): State
    requires CanHappen(s, e)
  {
    match e
    case Change(items, migrating) => Fired(s, items, migrating)
    case Continue(firing) => Continued(s, firing)
    case Execute => Executed(p, s)
  }

  predicate IsRun(p: Place, s: State, es: seq<Event>)
    decreases |es|
  {
    es == [] || (CanHappen(s, es[0]) && IsRun(p, Step(p, s, es[0]), es[1..]))
  }

  function After(p: Place, s: State, es: seq<Event>): State
    requires IsRun(p, s, es)
    decreases |es|
  {
    if es == [] then s else After(p, Step(p, s, es[0]), es[1..])
  }

  /** The arrays that the watcher sees have distinct ids. */
  ghost predicate DistinctArrays(es: seq<Event>)
  {
    forall e :: e in es && e.Change? ==> e.items.Some? && DistinctIds(e.items.value)
  }

  predicate Quiet(s: State)
  {
    s.queue == [] && s.waiting == map[]
  }

  /**
   * After loading: the table reads like the snapshot, decoded (as it always does) or even without
   * decoding (as it does when no row has an old password).
   */
  ghost predicate Loaded(decoded: bool, p: Place, s: State)
  {
    Quiet(s) && DistinctIds(s.snapshot) && SameDocs(decoded, p, s.rows, Stored(p, s.snapshot))
  }

  // ----- The table is never behind by more than the queue -----

  function RowOps(queue: seq<Entry>): seq<Op>
  {
    if queue == [] then []
    else if queue[0].RowWrite? then [queue[0].op] + RowOps(queue[1..])
    else RowOps(queue[1..])
  }

  lemma {:induction false} RowOpsAppend(a: seq<Entry>, b: seq<Entry>)
    ensures RowOps(a + b) == RowOps(a) + RowOps(b)
  {
    if a == [] {
      assert a + b == b;
    } else {
      assert (a + b)[1..] == a[1..] + b;
      RowOpsAppend(a[1..], b);
    }
  }

  lemma {:induction false} RowOpsTagged(firing: nat, ops: seq<Op>)
    ensures RowOps(Tagged(firing, ops)) == ops
  {
    if ops != [] {
      assert Tagged(firing, ops)[1..] == Tagged(firing, ops[1..]);
      RowOpsTagged(firing, ops[1..]);
    }
  }

  /** Executing what is queued gives a table that reads like the one of the whole snapshot. */
  ghost predicate Agrees(decoded: bool, p: Place, s: State)
  {
    DistinctIds(s.snapshot) && SameDocs(decoded, p, Drain(p, s.rows, RowOps(s.queue)), Stored(p, s.snapshot))
  }

  lemma FiringDrains(decoded: bool, p: Place, s: State, ops: seq<Op>)
    requires Agrees(decoded, p, s)
    ensures SameDocs(decoded, p, Drain(p, s.rows, RowOps(s.queue + Tagged(s.firings, ops))), Drain(p, Stored(p, s.snapshot), ops))
  {
    RowOpsAppend(s.queue, Tagged(s.firings, ops));
    RowOpsTagged(s.firings, ops);
    DrainAppend(p, s.rows, RowOps(s.queue), ops);
    DrainSame(decoded, p, Drain(p, s.rows, RowOps(s.queue)), Stored(p, s.snapshot), ops);
  }

  lemma FiringAgrees(decoded: bool, p: Place, s: State, items: seq<Item>, migrating: bool)
    requires Agrees(decoded, p, s) && DistinctIds(items)
    ensures Agrees(decoded, p, Fired(s, Some(items), migrating))
  {
    if !migrating {
      FiringDrains(decoded, p, s, WritesOf(DiffOf(s.snapshot, items)));
      DiffPatches(p, s.snapshot, items);
    }
  }

  lemma StepAgrees(decoded: bool, p: Place, s: State, e: Event)
    requires Agrees(decoded, p, s) && CanHappen(s, e)
    requires e.Change? ==> e.items.Some? && DistinctIds(e.items.value)
    ensures Agrees(decoded, p, Step(p, s, e))
  {
    match e
    case Change(items, migrating) => FiringAgrees(decoded, p, s, items.value, migrating);
    case Continue(firing) =>
      RowOpsAppend(s.queue, [OrderWrite(s.waiting[firing])]);
      assert RowOps([OrderWrite(s.waiting[firing])]) == [];
      assert RowOps(s.queue) + [] == RowOps(s.queue);
    case Execute =>
  }

  /**
   * In every run, overlapping firings included, executing the pending writes
   * gives a table that reads like the latest snapshot stored as a whole.
   */
  lemma {:induction false} QueueAgrees(decoded: bool, p: Place, s: State, es: seq<Event>)
    requires Agrees(decoded, p, s) && IsRun(p, s, es) && DistinctArrays(es)
    ensures Agrees(decoded, p, After(p, s, es))
    decreases |es|
  {
    if es != [] {
      assert es[0] in es;
      StepAgrees(decoded, p, s, es[0]);
      QueueAgrees(decoded, p, Step(p, s, es[0]), es[1..]);
    }
  }

  /** While the data is migrated, or when the array has not changed, no row is written. */
  lemma WritesNoRows(s: State, items: seq<Item>, migrating: bool)
    requires DistinctIds(s.snapshot) && (migrating || items == s.snapshot)
    ensures RowOps(Fired(s, Some(items), migrating).queue) == RowOps(s.queue)
    ensures migrating ==> Fired(s, Some(items), migrating) == s
  {
    if !migrating {
      NothingChanged(items);
      assert s.queue + Tagged(s.firings, []) == s.queue;
    }
  }

  /** Without an array the snapshot is emptied but no row is removed. */
  lemma MissingArrayIff(decoded: bool, p: Place, s: State)
    requires Agrees(decoded, p, s)
    ensures Agrees(decoded, p, Fired(s, None, false)) <==> s.snapshot == []
  {
    FiringDrains(decoded, p, s, []);
    assert WritesOf(Diff([], [], [])) == [];
    if s.snapshot != [] {
      InsertedItem(p, map[], s.snapshot, s.snapshot[0]);
    }
  }

  // ----- The order -----

  /** The stored order once the queue is executed. */
  function FinalOrder(p: Place, data: Rows, queue: seq<Entry>): Option<seq<Id>>
  {
    if queue == [] then StoredOrder(p, data)
    else if queue[|queue| - 1].OrderWrite? then Some(queue[|queue| - 1].order)
    else FinalOrder(p, data, queue[..|queue| - 1])
  }

  lemma {:induction false} FinalOrderExecuted(p: Place, data: Rows, queue: seq<Entry>)
    requires queue != []
    ensures var data' := if queue[0].OrderWrite? then Apply(p.enc, "data", data, OrderOp(p.table, queue[0].order)) else data;
            FinalOrder(p, data', queue[1..]) == FinalOrder(p, data, queue)
    decreases |queue|
  {
    var n := |queue| - 1;
    if n == 0 {
      if queue[0].OrderWrite? {
        OrderIsStored(p, data, queue[0].order);
      }
    } else {
      assert queue[1..][..n - 1] == queue[..n][1..];
      FinalOrderExecuted(p, data, queue[..n]);
    }
  }

  lemma {:induction false} FinalOrderTagged(p: Place, data: Rows, queue: seq<Entry>, firing: nat, ops: seq<Op>)
    ensures FinalOrder(p, data, queue + Tagged(firing, ops)) == FinalOrder(p, data, queue)
    decreases |ops|
  {
    if ops == [] {
      assert queue + Tagged(firing, ops) == queue;
    } else {
      var n := |ops| - 1;
      var longer := queue + Tagged(firing, ops);
      assert longer[..|longer| - 1] == queue + Tagged(firing, ops[..n]);
      FinalOrderTagged(p, data, queue, firing, ops[..n]);
    }
  }

  /** In every run, the order that ends up stored is the one of the firing that continued last. */
  lemma LastContinueWins(p: Place, s: State, e: Event)
    requires CanHappen(s, e)
    ensures var t := Step(p, s, e);
            FinalOrder(p, t.data, t.queue) == if e.Continue? then Some(s.waiting[e.firing]) else FinalOrder(p, s.data, s.queue)
  {
    match e
    case Change(items, migrating) =>
      if !migrating {
        var diff := if items.None? then Diff([], [], []) else DiffOf(s.snapshot, items.value);
        FinalOrderTagged(p, s.data, s.queue, s.firings, WritesOf(diff));
      }
    case Continue(firing) =>
    case Execute => FinalOrderExecuted(p, s.data, s.queue);
  }

  /**
   * When a run has come to rest, loading gives back the current array, in its
   * order, exactly if its ids follow the stored order.
   */
  lemma RestoredIff(decoded: bool, p: Place, s: State, es: seq<Event>)
    requires Loaded(decoded, p, s) && IsRun(p, s, es) && DistinctArrays(es) && Quiet(After(p, s, es))
    ensures var t := After(p, s, es);
            var order := StoredOrder(p, t.data);
            Fetches(p, t.rows, order, Map(DecObj, t.snapshot))
            <==> FollowsOrder(if order.Some? then order.value else [], Ids(t.snapshot))
  {
    QueueAgrees(decoded, p, s, es);
    var t := After(p, s, es);
    FetchesIff(p, t.snapshot, StoredOrder(p, t.data));
    FetchesSame(decoded, p, t.rows, Stored(p, t.snapshot), StoredOrder(p, t.data), Map(DecObj, t.snapshot));
  }

  // ----- Firings that do not overlap -----

  /** A firing begins only when the one before it has written its order. */
  predicate NoOverlap(p: Place, s: State, es: seq<Event>)
    requires IsRun(p, s, es)
    decreases |es|
  {
    es == [] || ((es[0].Change? && !es[0].migrating ==> Quiet(s)) && NoOverlap(p, Step(p, s, es[0]), es[1..]))
  }

  /** At most the last firing is under way; if it is not, its order is stored or about to be. */
  ghost predicate OneFiring(p: Place, s: State)
  {
    s.firings > 0 ==>
      || s.waiting == map[s.firings - 1 := Ids(s.snapshot)]
      || (s.waiting == map[] && FinalOrder(p, s.data, s.queue) == Some(Ids(s.snapshot)))
  }

  lemma StepOneFiring(p: Place, s: State, e: Event)
    requires OneFiring(p, s) && CanHappen(s, e) && (s.firings == 0 ==> s.waiting == map[])
    requires e.Change? && !e.migrating ==> Quiet(s)
    ensures var t := Step(p, s, e);
            OneFiring(p, t) && (t.firings == 0 ==> t.waiting == map[])
  {
    LastContinueWins(p, s, e);
    if e.Continue? {
      assert s.waiting - {e.firing} == map[];
    }
  }

  lemma {:induction false} RunOneFiring(p: Place, s: State, es: seq<Event>)
    requires OneFiring(p, s) && (s.firings == 0 ==> s.waiting == map[])
    requires IsRun(p, s, es) && NoOverlap(p, s, es)
    ensures OneFiring(p, After(p, s, es))
    decreases |es|
  {
    if es != [] {
      StepOneFiring(p, s, es[0]);
      RunOneFiring(p, Step(p, s, es[0]), es[1..]);
    }
  }

  /**
   * If firings do not overlap, then after the first of them, and whenever the
   * watcher is at rest, loading gives back exactly the current array in its
   * order, up to the decoding of old passwords.
   */
  lemma Restored(decoded: bool, p: Place, s: State, es: seq<Event>)
    requires Loaded(decoded, p, s) && s.firings == 0
    requires IsRun(p, s, es) && DistinctArrays(es) && NoOverlap(p, s, es)
    requires Quiet(After(p, s, es)) && After(p, s, es).firings > 0
    ensures var t := After(p, s, es);
            && SameDocs(decoded, p, t.rows, Stored(p, t.snapshot))
            && StoredOrder(p, t.data) == Some(Ids(t.snapshot))
            && Fetches(p, t.rows, StoredOrder(p, t.data), Map(DecObj, t.snapshot))
  {
    RunOneFiring(p, s, es);
    QueueAgrees(decoded, p, s, es);
    RestedIsRestored(decoded, p, After(p, s, es));
  }

  lemma RestedIsRestored(decoded: bool, p: Place, t: State)
    requires Agrees(decoded, p, t) && Quiet(t) && OneFiring(p, t) && t.firings > 0
    ensures SameDocs(decoded, p, t.rows, Stored(p, t.snapshot))
    ensures StoredOrder(p, t.data) == Some(Ids(t.snapshot))
    ensures Fetches(p, t.rows, StoredOrder(p, t.data), Map(DecObj, t.snapshot))
  {
    assert t.firings - 1 !in t.waiting;
    OwnOrder(t.snapshot);
    FetchesIff(p, t.snapshot, StoredOrder(p, t.data));
    FetchesSame(decoded, p, t.rows, Stored(p, t.snapshot), StoredOrder(p, t.data), Map(DecObj, t.snapshot));
  }

  // ----- Firings that overlap -----

  lemma {:induction false} AfterAppend(p: Place, s: State, a: seq<Event>, b: seq<Event>)
    requires IsRun(p, s, a + b)
    ensures IsRun(p, s, a) && IsRun(p, After(p, s, a), b) && After(p, s, a + b) == After(p, After(p, s, a), b)
    decreases |a|
  {
    if a == [] {
      assert a + b == b;
    } else {
      assert (a + b)[1..] == a[1..] + b;
      AfterAppend(p, Step(p, s, a[0]), a[1..], b);
    }
  }

  /** The last firing, while its order is not queued, holds the order of the snapshot. */
  ghost predicate LastHoldsOrder(s: State)
  {
    && (forall k :: k in s.waiting ==> k < s.firings)
    && (s.firings - 1 in s.waiting ==> s.waiting[s.firings - 1] == Ids(s.snapshot))
  }

  lemma {:induction false} RunLastHoldsOrder(p: Place, s: State, es: seq<Event>)
    requires LastHoldsOrder(s) && IsRun(p, s, es)
    ensures LastHoldsOrder(After(p, s, es)) && After(p, s, es).firings >= s.firings
    decreases |es|
  {
    if es != [] {
      RunLastHoldsOrder(p, Step(p, s, es[0]), es[1..]);
    }
  }

  /** Without another firing or continuation, snapshot and final order stay. */
  lemma {:induction false} NothingFollows(p: Place, s: State, es: seq<Event>)
    requires LastHoldsOrder(s) && IsRun(p, s, es) && (forall e :: e in es ==> !e.Continue?)
    requires After(p, s, es).firings == s.firings
    ensures var t := After(p, s, es);
            t.snapshot == s.snapshot && FinalOrder(p, t.data, t.queue) == FinalOrder(p, s.data, s.queue)
    decreases |es|
  {
    if es != [] {
      var next := Step(p, s, es[0]);
      assert es[0] in es;
      LastContinueWins(p, s, es[0]);
      RunLastHoldsOrder(p, next, es[1..]);
      assert next.firings == s.firings && next.snapshot == s.snapshot;
      NothingFollows(p, next, es[1..]);
    }
  }

  /**
   * Overlapping firings do no harm if the last one continues last: once at
   * rest, loading gives back the current array in its order.
   */
  lemma RestoredIfLastContinuesLast(decoded: bool, p: Place, s: State, before: seq<Event>, after: seq<Event>)
    requires Loaded(decoded, p, s) && s.firings == 0
    requires IsRun(p, s, before) && After(p, s, before).firings > 0
    requires var es := before + ([Continue(After(p, s, before).firings - 1)] + after);
             && IsRun(p, s, es) && DistinctArrays(es) && Quiet(After(p, s, es))
             && After(p, s, es).firings == After(p, s, before).firings
    requires forall e :: e in after ==> !e.Continue?
    ensures var t := After(p, s, before + ([Continue(After(p, s, before).firings - 1)] + after));
            StoredOrder(p, t.data) == Some(Ids(t.snapshot))
            && Fetches(p, t.rows, StoredOrder(p, t.data), Map(DecObj, t.snapshot))
  {
    var u := After(p, s, before);
    var last := Continue(u.firings - 1);
    AfterAppend(p, s, before, [last] + after);
    RunLastHoldsOrder(p, s, before);
    FirstStep(p, u, last, after);
    LastContinueWins(p, u, last);
    NothingFollows(p, Step(p, u, last), after);
    QueueAgrees(decoded, p, s, before + ([last] + after));
    RestedIsRestored(decoded, p, After(p, s, before + ([last] + after)));
  }

  lemma FirstStep(p: Place, s: State, e: Event, rest: seq<Event>)
    requires CanHappen(s, e)
    ensures IsRun(p, s, [e] + rest) <==> IsRun(p, Step(p, s, e), rest)
    ensures IsRun(p, s, [e] + rest) ==> After(p, s, [e] + rest) == After(p, Step(p, s, e), rest)
  {
    assert ([e] + rest)[1..] == rest;
  }

  lemma OvertakenDiffs(a: Item, b: Item)
    requires a.id != b.id
    ensures WritesOf(DiffOf([a], [b, a])) == [Insert([b])]
    ensures WritesOf(DiffOf([b, a], [a, b])) == []
  {
    ByIdOfTwo(b, a);
    ByIdOfTwo(a, b);
    assert ById([a]) == map[a.id := a];
    assert [b, a] == [b] + [a] && [a, b] == [a] + [b];
    var d := DiffOf([a], [b, a]);
    FilterCons((x: Item) => x.id !in ById([a]), b, [a]);
    FilterCons((x: Item) => x.id in ById([a]) && ById([a])[x.id] != x, b, [a]);
    assert d == Diff([], [b], []);
    var known := ById([b, a]);
    FilterCons((x: Item) => x.id !in known, a, [b]);
    FilterCons((x: Item) => x.id in known && known[x.id] != x, a, [b]);
    FilterCons((x: Item) => x.id !in ById([a, b]), b, [a]);
    assert DiffOf([b, a], [a, b]) == Diff([], [], []);
  }

  lemma ByIdOfTwo(a: Item, b: Item)
    requires a.id != b.id
    ensures ById([a, b]) == map[a.id := a, b.id := b]
  {
    assert [a][..0] == [] && ById([a]) == map[][a.id := a];
    assert [a, b][..1] == [a] && ById([a, b]) == ById([a])[b.id := b];
  }

  /** The rest of such a run, after both firings. */
  lemma OvertakenEnd(p: Place, s: State, x: Id, y: Id, op: Op) returns (t: State)
    requires s.queue == [RowWrite(0, op)] && s.waiting == map[0 := [x, y], 1 := [y, x]]
    ensures var es := [Continue(1)] + ([Execute] + ([Continue(0)] + ([Execute] + ([Execute] + []))));
            IsRun(p, s, es) && After(p, s, es) == t
    ensures Quiet(t) && t.snapshot == s.snapshot && StoredOrder(p, t.data) == Some([x, y])
  {
    var s1 := Step(p, s, Continue(1));
    assert s1.queue == [RowWrite(0, op), OrderWrite([y, x])] && s1.waiting == map[0 := [x, y]];
    var s2 := Step(p, s1, Execute);
    assert s2.queue == [OrderWrite([y, x])];
    var s3 := Step(p, s2, Continue(0));
    assert s3.queue == [OrderWrite([y, x]), OrderWrite([x, y])] && s3.waiting == map[];
    var s4 := Step(p, s3, Execute);
    assert s4.queue == [OrderWrite([x, y])];
    t := Step(p, s4, Execute);
    OrderIsStored(p, s4.data, [x, y]);
    FirstStep(p, s4, Execute, []);
    FirstStep(p, s3, Execute, [Execute] + []);
    FirstStep(p, s2, Continue(0), [Execute] + ([Execute] + []));
    FirstStep(p, s1, Execute, [Continue(0)] + ([Execute] + ([Execute] + [])));
    FirstStep(p, s, Continue(1), [Execute] + ([Continue(0)] + ([Execute] + ([Execute] + []))));
  }

  /** ... and its beginning. */
  lemma OvertakenStart(p: Place, s: State, a: Item, b: Item) returns (t: State)
    requires a.id != b.id && s.snapshot == [a] && Quiet(s) && s.firings == 0
    ensures t == Fired(Fired(s, Some([b, a]), false), Some([a, b]), false)
    ensures t.queue == [RowWrite(0, Insert([b]))] && t.waiting == map[0 := [b.id, a.id], 1 := [a.id, b.id]]
    ensures t.snapshot == [a, b]
  {
    OvertakenDiffs(a, b);
    assert Ids([b, a]) == [b.id, a.id] && Ids([a, b]) == [a.id, b.id];
    var s1 := Fired(s, Some([b, a]), false);
    assert s1.queue == [RowWrite(0, Insert([b]))];
    t := Fired(s1, Some([a, b]), false);
  }

  lemma NotFollowed(a: Item, b: Item)
    requires a.id != b.id
    ensures !FollowsOrder([b.id, a.id], Ids([a, b]))
  {
    assert IndexIn([b.id, a.id], Ids([a, b])[0]) == 1 && IndexIn([b.id, a.id], Ids([a, b])[1]) == 0;
  }

  lemma OvertakenIsLost(decoded: bool, p: Place, t: State, a: Item, b: Item)
    requires Agrees(decoded, p, t) && Quiet(t) && t.snapshot == [a, b] && a.id != b.id && StoredOrder(p, t.data) == Some([b.id, a.id])
    ensures !Fetches(p, t.rows, StoredOrder(p, t.data), Map(DecObj, t.snapshot))
  {
    FetchesIff(p, t.snapshot, StoredOrder(p, t.data));
    FetchesSame(decoded, p, t.rows, Stored(p, t.snapshot), StoredOrder(p, t.data), Map(DecObj, t.snapshot));
    NotFollowed(a, b);
  }

  function OvertakingRun(a: Item, b: Item): seq<Event>
  {
    [Change(Some([b, a]), false)] + ([Change(Some([a, b]), false)]
    + ([Continue(1)] + ([Execute] + ([Continue(0)] + ([Execute] + ([Execute] + []))))))
  }

  lemma OvertakenRun(p: Place, s: State, a: Item, b: Item) returns (t: State)
    requires a.id != b.id && s.snapshot == [a] && Quiet(s) && s.firings == 0
    ensures IsRun(p, s, OvertakingRun(a, b)) && After(p, s, OvertakingRun(a, b)) == t
    ensures Quiet(t) && t.snapshot == [a, b] && StoredOrder(p, t.data) == Some([b.id, a.id])
  {
    var first, second := Change(Some([b, a]), false), Change(Some([a, b]), false);
    var rest := [Continue(1)] + ([Execute] + ([Continue(0)] + ([Execute] + ([Execute] + []))));
    var s2 := OvertakenStart(p, s, a, b);
    t := OvertakenEnd(p, s2, b.id, a.id, Insert([b]));
    FirstStep(p, Step(p, s, first), second, rest);
    FirstStep(p, s, first, [second] + rest);
  }

  lemma OvertakingIsDistinct(a: Item, b: Item)
    requires a.id != b.id
    ensures DistinctArrays(OvertakingRun(a, b))
  {
  }

  lemma EndsLost(decoded: bool, p: Place, s: State, es: seq<Event>, a: Item, b: Item)
    requires Loaded(decoded, p, s) && IsRun(p, s, es) && DistinctArrays(es) && a.id != b.id
    requires var t := After(p, s, es); Quiet(t) && t.snapshot == [a, b] && StoredOrder(p, t.data) == Some([b.id, a.id])
    ensures var t := After(p, s, es); !Fetches(p, t.rows, StoredOrder(p, t.data), Map(DecObj, t.snapshot))
  {
    QueueAgrees(decoded, p, s, es);
    OvertakenIsLost(decoded, p, After(p, s, es), a, b);
  }

  /**
   * A firing with rows to write, overtaken by one that only changes the order:
   * the older order is stored last, and the array does not come back.
   */
  lemma OrderIsOvertaken(p: Place, a: Item, b: Item, data: Rows)
    requires a.id != b.id
    ensures var s, es := State([a], [], map[], 0, Stored(p, [a]), data), OvertakingRun(a, b);
            && Loaded(false, p, s) && IsRun(p, s, es) && DistinctArrays(es)
            && var t := After(p, s, es);
               && Quiet(t) && t.snapshot == [a, b]
               && !Fetches(p, t.rows, StoredOrder(p, t.data), Map(DecObj, t.snapshot))
  {
    var s := State([a], [], map[], 0, Stored(p, [a]), data);
    var _ := OvertakenRun(p, s, a, b);
    OvertakingIsDistinct(a, b);
    EndsLost(false, p, s, OvertakingRun(a, b), a, b);
  }
}
