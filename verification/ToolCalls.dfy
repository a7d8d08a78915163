/** Assembling tool calls from streamed fragments (`mergeToolCallDelta`). */
module ToolCalls {
  import opened Options
  import opened Sequences
  import Sorting

  /** A fragment; absent texts are empty, and an index that is no integer is `None`. */
  datatype Delta = Delta(index: Option<int>, id: string, kind: string, name: string, arguments: string)

  /** A call's id is the one the provider gave, or one made from the index. */
  datatype CallId = Given(text: string) | Generated(index: int)
  datatype Call = Call(index: int, id: CallId, kind: string, name: string, arguments: string)

  function IndexOf(d: Delta): int
  {
    if d.index.Some? then d.index.value else 0
  }

  function NewCall(d: Delta): Call
  {
    var index := IndexOf(d);
    Call(index, if d.id != "" then Given(d.id) else Generated(index),
         if d.kind != "" then d.kind else "function", "", "")
  }

  function Extended(call: Call, d: Delta): Call
  {
    Call(call.index,
         if d.id != "" then Given(d.id) else call.id,
         if d.kind != "" then d.kind else call.kind,
         call.name + d.name, call.arguments + d.arguments)
  }

  function Merge(calls: map<int, Call>, d: Delta): map<int, Call>
  {
    var index := IndexOf(d);
    calls[index := Extended(if index in calls then calls[index] else NewCall(d), d)]
  }

  function MergeAll(deltas: seq<Delta>): map<int, Call>
  {
    if deltas == [] then map[]
    else Merge(MergeAll(deltas[..|deltas| - 1]), deltas[|deltas| - 1])
  }

  /** `calls` lists a map's values by increasing index. */
  ghost predicate IsAssembly(calls: seq<Call>, m: map<int, Call>)
  {
    && (forall i, j :: 0 <= i < j < |calls| ==> calls[i].index < calls[j].index)
    && (forall i :: 0 <= i < |calls| ==> calls[i].index in m && calls[i] == m[calls[i].index])
    && (forall index :: index in m ==> exists i :: 0 <= i < |calls| && calls[i].index == index)
  }

  class Assembler {
    var order: seq<int>  // the keys, first inserted first
    var calls: map<int, Call>

    ghost predicate Valid()
      reads this
    {
      && Distinct(order)
      && (forall index :: index in order <==> index in calls)
      && (forall index :: index in calls ==> calls[index].index == index)
    }

    constructor ()
      ensures Valid() && calls == map[]
    {
      order, calls := [], map[];
    }

    method MergeDelta(delta: Delta)
      requires Valid()
      modifies this
      ensures Valid() && calls == Merge(old(calls), delta)
    {
      var index := IndexOf(delta);
      var current := if index in calls then calls[index] else NewCall(delta);
      if index !in calls {
        order := order + [index];
      }
      calls := calls[index := Extended(current, delta)];
    }

    method Assemble() returns (message: seq<Call>)
      requires Valid()
      ensures IsAssembly(message, calls)
    {
      var sorted := Sorting.Sort((a: int, b: int) => a <= b, order);
      SortedKeys(order, calls, sorted);
      var all := calls;
      message := seq(|sorted|, i requires 0 <= i < |sorted| => all[sorted[i]]);
      SortedIsAssembly(calls, sorted, message);
    }
  }

  lemma SortedIsAssembly(calls: map<int, Call>, sorted: seq<int>, message: seq<Call>)
    requires forall index :: index in calls ==> calls[index].index == index
    requires forall i, j :: 0 <= i < j < |sorted| ==> sorted[i] < sorted[j]
    requires forall index :: index in calls ==> index in sorted
    requires |message| == |sorted|
    requires forall i :: 0 <= i < |sorted| ==> sorted[i] in calls && message[i] == calls[sorted[i]]
    ensures IsAssembly(message, calls)
  {
    forall index | index in calls
      ensures exists i :: 0 <= i < |message| && message[i].index == index
    {
      var i :| 0 <= i < |sorted| && sorted[i] == index;
      assert message[i].index == index;
    }
  }

  lemma SortedKeys(order: seq<int>, calls: map<int, Call>, sorted: seq<int>)
    requires Distinct(order) && forall index :: index in order <==> index in calls
    requires sorted == Sorting.Sort((a: int, b: int) => a <= b, order)
    ensures forall i, j :: 0 <= i < j < |sorted| ==> sorted[i] < sorted[j]
    ensures forall i :: 0 <= i < |sorted| ==> sorted[i] in calls
    ensures forall index :: index in calls ==> index in sorted
  {
    var le := (a: int, b: int) => a <= b;
    Sorting.SortIsSorted(le, order);
    PermutedIsDistinct(order, sorted);
    forall i, j | 0 <= i < j < |sorted|
      ensures sorted[i] < sorted[j]
    {
      assert le(sorted[i], sorted[j]);
    }
    forall index
      ensures index in sorted <==> index in calls
    {
      assert index in sorted <==> index in multiset(sorted);
    }
    assert forall i :: 0 <= i < |sorted| ==> sorted[i] in sorted;
  }

  /** A whole stream of fragments. */
  method AssembleAll(deltas: seq<Delta>) returns (message: seq<Call>)
    ensures IsAssembly(message, MergeAll(deltas))
  {
    var assembler := new Assembler();
    for i := 0 to |deltas|
      invariant assembler.Valid() && fresh(assembler)
      invariant assembler.calls == MergeAll(deltas[..i])
    {
      assert deltas[..i + 1][..i] == deltas[..i];
      assembler.MergeDelta(deltas[i]);
    }
    assert deltas[..|deltas|] == deltas;
    message := assembler.Assemble();
  }

  // ----- What the assembled calls are, without the merging -----

  /** A fragment without an index is for call 0. */
  predicate IsFor(d: Delta, index: int)
  {
    d.index == Some(index) || (d.index.None? && index == 0)
  }

  function OfIndex(index: int, deltas: seq<Delta>): seq<Delta>
  {
    Filter(d => IsFor(d, index), deltas)
  }

  function Names(deltas: seq<Delta>): string
  {
    if deltas == [] then "" else Names(deltas[..|deltas| - 1]) + deltas[|deltas| - 1].name
  }

  function Arguments(deltas: seq<Delta>): string
  {
    if deltas == [] then "" else Arguments(deltas[..|deltas| - 1]) + deltas[|deltas| - 1].arguments
  }

  /** The last non-empty id, or the generated one. */
  function LastId(index: int, deltas: seq<Delta>): CallId
  {
    if deltas == [] then Generated(index)
    else if deltas[|deltas| - 1].id != "" then Given(deltas[|deltas| - 1].id)
    else LastId(index, deltas[..|deltas| - 1])
  }

  function LastKind(deltas: seq<Delta>): string
  {
    if deltas == [] then "function"
    else if deltas[|deltas| - 1].kind != "" then deltas[|deltas| - 1].kind
    else LastKind(deltas[..|deltas| - 1])
  }

  /** The call of an index, from its own fragments in arrival order. */
  function CallOf(index: int, own: seq<Delta>): Call
  {
    Call(index, LastId(index, own), LastKind(own), Names(own), Arguments(own))
  }

  lemma OfIndexSnoc(index: int, deltas: seq<Delta>, d: Delta)
    ensures OfIndex(index, deltas + [d]) == if IsFor(d, index) then OfIndex(index, deltas) + [d] else OfIndex(index, deltas)
  {
    var keep := (d: Delta) => IsFor(d, index);
    FilterAppend(keep, deltas, [d]);
    assert [d][1..] == [];
  }

  lemma CallOfSnoc(index: int, own: seq<Delta>, d: Delta)
    ensures CallOf(index, own + [d]) == Extended(CallOf(index, own), d)
  {
    assert (own + [d])[..|own|] == own;
  }

  /** There is a call for exactly the indices that occur, made of that index's own fragments. */
  lemma {:induction false} MergedByIndex(deltas: seq<Delta>, index: int)
    ensures index in MergeAll(deltas) <==> OfIndex(index, deltas) != []
    ensures index in MergeAll(deltas) ==> MergeAll(deltas)[index] == CallOf(index, OfIndex(index, deltas))
    decreases |deltas|
  {
    if deltas != [] {
      var n := |deltas| - 1;
      var earlier, d := deltas[..n], deltas[n];
      MergedByIndex(earlier, index);
      assert deltas == earlier + [d];
      OfIndexSnoc(index, earlier, d);
      if IndexOf(d) == index {
        CallOfSnoc(index, OfIndex(index, earlier), d);
        assert Extended(NewCall(d), d) == Extended(CallOf(index, []), d);
      }
    }
  }

  lemma LastIsShared(a: seq<Call>, b: seq<Call>, m: map<int, Call>)
    requires IsAssembly(a, m) && IsAssembly(b, m) && a != [] && b != []
    ensures a[|a| - 1] == b[|b| - 1]
  {
    var x, y := a[|a| - 1], b[|b| - 1];
    var i :| 0 <= i < |a| && a[i].index == y.index;
    var j :| 0 <= j < |b| && b[j].index == x.index;
  }

  lemma SameInParts(a: seq<Call>, b: seq<Call>)
    requires a != [] && b != [] && a[..|a| - 1] == b[..|b| - 1] && a[|a| - 1] == b[|b| - 1]
    ensures a == b
  {
    assert a == a[..|a| - 1] + [a[|a| - 1]] && b == b[..|b| - 1] + [b[|b| - 1]];
  }

  lemma {:induction false} AssemblyIsUnique(a: seq<Call>, b: seq<Call>, m: map<int, Call>)
    requires IsAssembly(a, m) && IsAssembly(b, m)
    ensures a == b
    decreases |a|
  {
    EmptyAssembly(a, m);
    EmptyAssembly(b, m);
    if a != [] {
      LastIsShared(a, b, m);
      DropLast(a, m);
      DropLast(b, m);
      AssemblyIsUnique(a[..|a| - 1], b[..|b| - 1], m - {a[|a| - 1].index});
      SameInParts(a, b);
    }
  }

  lemma EmptyAssembly(a: seq<Call>, m: map<int, Call>)
    requires IsAssembly(a, m)
    ensures a == [] <==> m == map[]
  {
    if a != [] {
      assert a[0].index in m;
    } else {
      forall index
        ensures index !in m
      {
      }
      assert m.Keys == {};
    }
  }

  lemma DropLast(a: seq<Call>, m: map<int, Call>)
    requires a != [] && IsAssembly(a, m)
    ensures IsAssembly(a[..|a| - 1], m - {a[|a| - 1].index})
  {
    var n := |a| - 1;
    forall index | index in m && index != a[n].index
      ensures exists i :: 0 <= i < |a[..n]| && a[..n][i].index == index
    {
      var i :| 0 <= i < |a| && a[i].index == index;
      assert a[..n][i].index == index;
    }
  }

  /** Reordering fragments of different indices never changes the assembled calls. */
  lemma OnlyPerIndexOrderMatters(a: seq<Delta>, b: seq<Delta>, fromA: seq<Call>, fromB: seq<Call>)
    requires IsAssembly(fromA, MergeAll(a)) && IsAssembly(fromB, MergeAll(b))
    requires forall index :: OfIndex(index, a) == OfIndex(index, b)
    ensures fromA == fromB
  {
    forall index
      ensures index in MergeAll(a) <==> index in MergeAll(b)
      ensures index in MergeAll(a) ==> MergeAll(a)[index] == MergeAll(b)[index]
    {
      MergedByIndex(a, index);
      MergedByIndex(b, index);
    }
    assert MergeAll(a) == MergeAll(b);
    AssemblyIsUnique(fromA, fromB, MergeAll(a));
  }
}
