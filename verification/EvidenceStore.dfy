/**
 * Evidence under a quota (`EvidenceStore.write`, `evict`). One task's manifest
 * and the files beside it; sizes are compressed bytes. Contents, hashes and
 * expiry are left out.
 */
module EvidenceStore {
  import opened Sequences
  import opened Sorting

  datatype Record = Record(id: string, size: nat, critical: bool, lastAccessed: int)

  datatype Result = Written | QuotaExceeded

  function Sum(records: seq<Record>): nat
  {
    if records == [] then 0 else records[0].size + Sum(records[1..])
  }

  /** Non-critical first, then least recently used. */
  predicate EvictedNoLater(a: Record, b: Record)
  {
    if a.critical != b.critical then b.critical else a.lastAccessed <= b.lastAccessed
  }

  function Order(): (Record, Record) -> bool
  {
    (a: Record, b: Record) => EvictedNoLater(a, b)
  }

  function Candidates(records: seq<Record>): seq<Record>
  {
    Sort(Order(), records)
  }

  /** A new record of `size` bytes is to be stored. */
  datatype Incoming = Incoming(id: string, size: nat, critical: bool, now: int)

  /** How many candidates the eviction loop removes. */
  function EvictCount(candidates: seq<Record>, total: int, incoming: Incoming, quota: nat): (k: nat)
    ensures k <= |candidates|
  {
    if total + incoming.size <= quota || candidates == [] then 0
    else if candidates[0].critical && incoming.critical && total == 0 then 0
    else 1 + EvictCount(candidates[1..], total - candidates[0].size, incoming, quota)
  }

  predicate IdsDistinct(records: seq<Record>)
  {
    forall i, j :: 0 <= i < j < |records| ==> records[i].id != records[j].id
  }

  function Ids(records: seq<Record>): set<string>
  {
    set r | r in records :: r.id
  }

  function Without(records: seq<Record>, gone: set<string>): seq<Record>
  {
    if records == [] then []
    else if records[0].id in gone then Without(records[1..], gone)
    else [records[0]] + Without(records[1..], gone)
  }

  lemma {:induction false} SumAppend(a: seq<Record>, b: seq<Record>)
    ensures Sum(a + b) == Sum(a) + Sum(b)
  {
    if a == [] {
      assert a + b == b;
    } else {
      assert (a + b)[0] == a[0] && (a + b)[1..] == a[1..] + b;
      SumAppend(a[1..], b);
    }
  }

  lemma SumTakeOut(b: seq<Record>, k: nat)
    requires k < |b|
    ensures Sum(b) == b[k].size + Sum(b[..k] + b[k + 1..])
  {
    var tail := b[k..];
    assert b == b[..k] + tail && tail[1..] == b[k + 1..];
    SumAppend(b[..k], tail);
    SumAppend(b[..k], b[k + 1..]);
  }

  lemma TakeOutRest(b: seq<Record>, k: nat)
    requires k < |b|
    ensures multiset(b[..k] + b[k + 1..]) == multiset(b) - multiset{b[k]}
  {
    assert b == b[..k] + [b[k]] + b[k + 1..];
  }

  lemma {:induction false} SumOfPermutation(a: seq<Record>, b: seq<Record>)
    requires multiset(a) == multiset(b)
    ensures Sum(a) == Sum(b)
    decreases |a|
  {
    if a == [] {
      assert |multiset(b)| == 0;
    } else {
      assert a == [a[0]] + a[1..];
      assert a[0] in multiset(b);
      var k :| 0 <= k < |b| && b[k] == a[0];
      SumTakeOut(b, k);
      TakeOutRest(b, k);
      assert multiset(a[1..]) == multiset(a) - multiset{a[0]};
      SumOfPermutation(a[1..], b[..k] + b[k + 1..]);
    }
  }

  lemma {:induction false} WithoutIn(records: seq<Record>, gone: set<string>, r: Record)
    ensures r in Without(records, gone) <==> r in records && r.id !in gone
  {
    if records != [] {
      WithoutIn(records[1..], gone, r);
      assert records == [records[0]] + records[1..];
    }
  }

  lemma {:induction false} WithoutNothing(records: seq<Record>)
    ensures Without(records, {}) == records
  {
    if records != [] {
      WithoutNothing(records[1..]);
    }
  }

  lemma {:induction false} WithoutTwice(records: seq<Record>, a: set<string>, b: set<string>)
    ensures Without(Without(records, a), b) == Without(records, a + b)
  {
    if records != [] {
      WithoutTwice(records[1..], a, b);
      if records[0].id !in a {
        assert ([records[0]] + Without(records[1..], a))[1..] == Without(records[1..], a);
      }
    }
  }

  /** Taking one record out of a list with distinct ids lowers the sum by its size. */
  lemma {:induction false} SumWithoutOne(records: seq<Record>, r: Record)
    requires IdsDistinct(records) && r in records
    ensures Sum(Without(records, {r.id})) == Sum(records) - r.size
    ensures IdsDistinct(Without(records, {r.id}))
  {
    if records[0] == r {
      assert forall i :: 0 <= i < |records[1..]| ==> records[1..][i].id != r.id;
      WithoutNobody(records[1..], r.id);
    } else {
      assert r in records[1..];
      SumWithoutOne(records[1..], r);
      var rest := Without(records[1..], {r.id});
      var i :| 1 <= i < |records| && records[i] == r;
      assert ([records[0]] + rest)[1..] == rest;
      forall j | 0 <= j < |rest|
        ensures rest[j].id != records[0].id
      {
        WithoutIn(records[1..], {r.id}, rest[j]);
        var m :| 0 <= m < |records[1..]| && records[1..][m] == rest[j];
        assert records[m + 1] == rest[j];
      }
    }
  }

  lemma {:induction false} WithoutNobody(records: seq<Record>, id: string)
    requires forall i :: 0 <= i < |records| ==> records[i].id != id
    ensures Without(records, {id}) == records
  {
    if records != [] {
      WithoutNobody(records[1..], id);
    }
  }

  /** The records that an eviction removes, first removed first. */
  function Gone(records: seq<Record>, incoming: Incoming, quota: nat): seq<Record>
  {
    var candidates := Candidates(records);
    candidates[..EvictCount(candidates, Sum(records), incoming, quota)]
  }

  function Kept(records: seq<Record>, incoming: Incoming, quota: nat): seq<Record>
  {
    Without(records, Ids(Gone(records, incoming, quota)))
  }

  function Fits(records: seq<Record>, incoming: Incoming, quota: nat): bool
  {
    Sum(Kept(records, incoming, quota)) + incoming.size <= quota
  }

  lemma SumOfCandidates(records: seq<Record>)
    ensures multiset(Candidates(records)) == multiset(records) && SortedBy(Order(), Candidates(records))
    ensures Sum(Candidates(records)) == Sum(records)
  {
    SortIsSorted(Order(), records);
    SumOfPermutation(Candidates(records), records);
  }

  lemma CandidatesAreRecords(records: seq<Record>, r: Record)
    ensures r in Candidates(records) <==> r in records
  {
    SumOfCandidates(records);
    assert r in Candidates(records) <==> r in multiset(Candidates(records));
    assert r in records <==> r in multiset(records);
  }

  lemma CountStep(candidates: seq<Record>, total: int, incoming: Incoming, quota: nat)
    requires candidates != [] && total + incoming.size > quota
    requires !(candidates[0].critical && incoming.critical && total == 0)
    ensures EvictCount(candidates, total, incoming, quota) ==
            1 + EvictCount(candidates[1..], total - candidates[0].size, incoming, quota)
  {
  }

  class Store {
    const quotaBytes: nat
    var saved: seq<Record>   // the manifest on disk
    var files: set<string>   // the evidence files on disk

    constructor (quotaBytes: nat)
      ensures this.quotaBytes == quotaBytes && saved == [] && files == {}
    {
      this.quotaBytes, saved, files := quotaBytes, [], {};
    }

    /** Removes files and records from a loaded manifest until the incoming record fits. */
    method Evict(records: seq<Record>, incoming: Incoming) returns (kept: seq<Record>, result: Result)
      requires IdsDistinct(records)
      modifies this`files
      ensures kept == Kept(records, incoming, quotaBytes)
      ensures files == old(files) - Ids(Gone(records, incoming, quotaBytes))
      ensures result == if Fits(records, incoming, quotaBytes) then Written else QuotaExceeded
    {
      var total: int := Sum(records);
      var all := Candidates(records);
      var candidates := all;
      kept := records;
      ghost var k := 0;
      EvictingStarts(records, incoming, quotaBytes, files);
      while total + incoming.size > quotaBytes && candidates != []
        invariant Evicting(records, incoming, quotaBytes, k, candidates, kept, total, old(files), files)
        decreases |candidates|
      {
        var item := candidates[0];
        if item.critical && incoming.critical && total == 0 {
          break;
        }
        EvictingGoesOn(records, incoming, quotaBytes, k, candidates, kept, total, old(files), files);
        candidates := candidates[1..];
        files := files - {item.id};
        kept := Without(kept, {item.id});
        total := total - item.size;
        k := k + 1;
      }
      assert EvictCount(candidates, total, incoming, quotaBytes) == 0;
      result := if total + incoming.size > quotaBytes then QuotaExceeded else Written;
    }

    method Write(incoming: Incoming) returns (result: Result)
      requires IdsDistinct(saved) && forall r :: r in saved ==> r.id != incoming.id
      modifies this
      ensures result == if Fits(old(saved), incoming, quotaBytes) then Written else QuotaExceeded
      ensures saved == SavedAfter(old(saved), incoming, quotaBytes)
      ensures files == FilesAfter(old(saved), old(files), incoming, quotaBytes)
      ensures IdsDistinct(saved)
    {
      var manifest;
      manifest, result := Evict(saved, incoming);
      if result == QuotaExceeded {
        return;
      }
      KeptAreDistinct(saved, Ids(Gone(saved, incoming, quotaBytes)));
      forall r | r in manifest
        ensures r.id != incoming.id
      {
        WithoutIn(saved, Ids(Gone(saved, incoming, quotaBytes)), r);
      }
      files := files + {incoming.id};
      saved := manifest + [Record(incoming.id, incoming.size, incoming.critical, incoming.now)];
    }
  }

  lemma {:induction false} KeptAreDistinct(records: seq<Record>, gone: set<string>)
    requires IdsDistinct(records)
    ensures IdsDistinct(Without(records, gone))
  {
    if records != [] {
      var rest := Without(records[1..], gone);
      KeptAreDistinct(records[1..], gone);
      forall j | 0 <= j < |rest|
        ensures rest[j].id != records[0].id
      {
        WithoutIn(records[1..], gone, rest[j]);
        var m :| 0 <= m < |records[1..]| && records[1..][m] == rest[j];
        assert records[m + 1] == rest[j];
      }
    }
  }

  /** Sorting does not double a record. */
  lemma CandidatesAreDistinct(records: seq<Record>)
    requires IdsDistinct(records)
    ensures IdsDistinct(Candidates(records))
  {
    var all := Candidates(records);
    SumOfCandidates(records);
    assert Distinct(records);
    PermutedIsDistinct(records, all);
    forall i, j | 0 <= i < j < |all|
      ensures all[i].id != all[j].id
    {
      CandidatesAreRecords(records, all[i]);
      CandidatesAreRecords(records, all[j]);
    }
  }

  lemma CandidateOnce(records: seq<Record>, k: nat)
    requires IdsDistinct(records) && k < |Candidates(records)|
    ensures Candidates(records)[k] in records
    ensures Candidates(records)[k].id !in Ids(Candidates(records)[..k])
  {
    CandidatesAreRecords(records, Candidates(records)[k]);
    CandidatesAreDistinct(records);
  }

  /** The eviction loop after `k` rounds. */
  ghost predicate Evicting(records: seq<Record>, incoming: Incoming, quota: nat, k: nat,
    candidates: seq<Record>, kept: seq<Record>, total: int, before: set<string>, files: set<string>)
  {
    var all := Candidates(records);
    && k <= |all| && candidates == all[k..]
    && k + EvictCount(candidates, total, incoming, quota) == EvictCount(all, Sum(records), incoming, quota)
    && kept == Without(records, Ids(all[..k])) && total == Sum(kept) && files == before - Ids(all[..k])
  }

  lemma EvictingStarts(records: seq<Record>, incoming: Incoming, quota: nat, files: set<string>)
    ensures Evicting(records, incoming, quota, 0, Candidates(records), records, Sum(records), files, files)
  {
    var all := Candidates(records);
    WithoutNothing(records);
    assert all[..0] == [] && all[0..] == all && Ids([]) == {};
  }

  lemma EvictingGoesOn(records: seq<Record>, incoming: Incoming, quota: nat, k: nat,
    candidates: seq<Record>, kept: seq<Record>, total: int, before: set<string>, files: set<string>)
    requires IdsDistinct(records)
    requires Evicting(records, incoming, quota, k, candidates, kept, total, before, files)
    requires candidates != [] && total + incoming.size > quota
    requires !(candidates[0].critical && incoming.critical && total == 0)
    ensures var item := candidates[0];
            Evicting(records, incoming, quota, k + 1, candidates[1..], Without(kept, {item.id}),
                     total - item.size, before, files - {item.id})
  {
    var all := Candidates(records);
    CountStep(candidates, total, incoming, quota);
    TakeOne(records, all, k);
    assert all[k..][1..] == all[k + 1..];
  }

  lemma IdsNext(all: seq<Record>, k: nat)
    requires k < |all|
    ensures Ids(all[..k + 1]) == Ids(all[..k]) + {all[k].id}
  {
    assert all[..k + 1] == all[..k] + [all[k]];
    IdsSnoc(all[..k], all[k]);
  }

  /** One round of the eviction loop. */
  lemma TakeOne(records: seq<Record>, all: seq<Record>, k: nat)
    requires IdsDistinct(records) && all == Candidates(records) && k < |all|
    ensures var before, item := Without(records, Ids(all[..k])), all[k];
            && Ids(all[..k + 1]) == Ids(all[..k]) + {item.id}
            && Without(before, {item.id}) == Without(records, Ids(all[..k + 1]))
            && Sum(Without(before, {item.id})) == Sum(before) - item.size
  {
    var before, item := Without(records, Ids(all[..k])), all[k];
    IdsNext(all, k);
    CandidateOnce(records, k);
    KeptAreDistinct(records, Ids(all[..k]));
    WithoutTwice(records, Ids(all[..k]), {item.id});
    WithoutIn(records, Ids(all[..k]), item);
    SumWithoutOne(before, item);
  }

  // ----- What an eviction is -----

  lemma {:induction false} SumAfter(records: seq<Record>, k: nat)
    requires IdsDistinct(records) && k <= |records|
    ensures var all := Candidates(records);
            Sum(Without(records, Ids(all[..k]))) == Sum(records) - Sum(all[..k]) >= 0
  {
    var all := Candidates(records);
    if k == 0 {
      assert all[..0] == [] && Ids([]) == {};
      WithoutNothing(records);
    } else {
      SumAfter(records, k - 1);
      TakeOne(records, all, k - 1);
      SumNext(all, k - 1);
    }
  }

  lemma SumNext(all: seq<Record>, k: nat)
    requires k < |all|
    ensures Sum(all[..k + 1]) == Sum(all[..k]) + all[k].size
  {
    assert all[..k + 1] == all[..k] + [all[k]];
    SumAppend(all[..k], [all[k]]);
    assert [all[k]][1..] == [];
  }

  /** The loop stops as soon as the rest fits, or with everything gone that takes room. */
  lemma {:induction false} CountIsLeast(candidates: seq<Record>, total: int, incoming: Incoming, quota: nat)
    requires total == Sum(candidates)
    ensures var k := EvictCount(candidates, total, incoming, quota);
            && (incoming.size <= quota ==> total - Sum(candidates[..k]) + incoming.size <= quota)
            && (incoming.size > quota ==> total - Sum(candidates[..k]) == 0)
            && (forall j :: 0 <= j < k ==> total - Sum(candidates[..j]) + incoming.size > quota)
  {
    var k := EvictCount(candidates, total, incoming, quota);
    assert candidates[..0] == [];
    if k > 0 {
      var rest := candidates[1..];
      CountIsLeast(rest, total - candidates[0].size, incoming, quota);
      forall j | 0 < j <= k
        ensures Sum(candidates[..j]) == candidates[0].size + Sum(rest[..j - 1])
      {
        assert candidates[..j][1..] == rest[..j - 1];
      }
    }
  }

  /** A write succeeds exactly when the record alone is within the quota, and then all stored bytes are. */
  lemma FitsIff(records: seq<Record>, incoming: Incoming, quota: nat)
    requires IdsDistinct(records)
    ensures Fits(records, incoming, quota) <==> incoming.size <= quota
  {
    var all := Candidates(records);
    var k := EvictCount(all, Sum(records), incoming, quota);
    SumOfCandidates(records);
    CountIsLeast(all, Sum(records), incoming, quota);
    SumAfter(records, k);
  }

  lemma StoredWithinQuota(records: seq<Record>, incoming: Incoming, quota: nat)
    requires IdsDistinct(records) && Fits(records, incoming, quota)
    ensures Sum(Kept(records, incoming, quota) + [Record(incoming.id, incoming.size, incoming.critical, incoming.now)]) <= quota
  {
    var new_ := Record(incoming.id, incoming.size, incoming.critical, incoming.now);
    SumAppend(Kept(records, incoming, quota), [new_]);
    assert [new_][1..] == [];
  }

  /** The evicted records are the shortest sufficient prefix of the order: with any shorter one the new record does not fit. */
  lemma EvictsShortestPrefix(records: seq<Record>, incoming: Incoming, quota: nat, j: nat)
    requires IdsDistinct(records) && j < |Gone(records, incoming, quota)|
    ensures Gone(records, incoming, quota) <= Candidates(records)
    ensures Sum(Without(records, Ids(Candidates(records)[..j]))) + incoming.size > quota
  {
    SumOfCandidates(records);
    CountIsLeast(Candidates(records), Sum(records), incoming, quota);
    SumAfter(records, j);
  }

  /** What goes is no later in the order than what stays; so a critical record goes only after every non-critical one. */
  lemma EvictsInOrder(records: seq<Record>, incoming: Incoming, quota: nat, evicted: Record, stays: Record)
    requires IdsDistinct(records)
    requires evicted in Gone(records, incoming, quota) && stays in Kept(records, incoming, quota)
    ensures evicted in records && stays in records
    ensures EvictedNoLater(evicted, stays)
    ensures evicted.critical ==> stays.critical
    ensures evicted.critical == stays.critical ==> evicted.lastAccessed <= stays.lastAccessed
  {
    var all, gone := Candidates(records), Gone(records, incoming, quota);
    SumOfCandidates(records);
    WithoutIn(records, Ids(gone), stays);
    CandidatesAreRecords(records, stays);
    var i :| 0 <= i < |gone| && gone[i] == evicted;
    assert all[i] == evicted;
    CandidatesAreRecords(records, evicted);
    var j :| 0 <= j < |all| && all[j] == stays;
    assert forall m :: 0 <= m < |gone| ==> gone[m].id in Ids(gone);
    assert Order()(all[i], all[j]);
  }

  /**
   * A write that is refused has already removed the files: the manifest still lists every record,
   * but no record that takes room has its file any more.
   */
  lemma RefusedWriteLosesFiles(records: seq<Record>, incoming: Incoming, quota: nat, r: Record)
    requires IdsDistinct(records) && incoming.size > quota && r in records && r.size > 0
    ensures !Fits(records, incoming, quota) && r.id in Ids(Gone(records, incoming, quota))
  {
    FitsIff(records, incoming, quota);
    var all := Candidates(records);
    var k := EvictCount(all, Sum(records), incoming, quota);
    SumOfCandidates(records);
    CountIsLeast(all, Sum(records), incoming, quota);
    CandidatesAreRecords(records, r);
    var i :| 0 <= i < |all| && all[i] == r;
    if i >= k {
      LeftOverAll(all, k, i);
    } else {
      assert all[..k][i] == r;
    }
  }

  /**
   * Of a refused write, exactly the files of these candidates survive: those from which on nothing
   * takes room, if the new record is critical and they are too.
   */
  lemma RefusedWriteKeepsIff(records: seq<Record>, incoming: Incoming, quota: nat, i: nat)
    requires IdsDistinct(records) && incoming.size > quota && i < |Candidates(records)|
    ensures var all := Candidates(records);
            i >= |Gone(records, incoming, quota)| <==>
              incoming.critical && all[i].critical && forall j :: i <= j < |all| ==> all[j].size == 0
  {
    var all := Candidates(records);
    SumOfCandidates(records);
    CountOfRefused(all, Sum(all), incoming, quota, i);
  }

  lemma {:induction false} CountOfRefused(all: seq<Record>, total: int, incoming: Incoming, quota: nat, i: nat)
    requires SortedBy(Order(), all) && total == Sum(all) && incoming.size > quota && i < |all|
    ensures i >= EvictCount(all, total, incoming, quota) <==>
              incoming.critical && all[i].critical && forall j :: i <= j < |all| ==> all[j].size == 0
    decreases |all|
  {
    NothingTakesRoomIff(all);
    if all[0].critical && incoming.critical && total == 0 {
      assert i > 0 ==> Order()(all[0], all[i]);
    } else if i == 0 {
      assert EvictCount(all, total, incoming, quota) > 0;
    } else {
      CountStep(all, total, incoming, quota);
      CountOfRefused(all[1..], total - all[0].size, incoming, quota, i - 1);
      forall j | i <= j < |all|
        ensures all[j] == all[1..][j - 1]
      {
      }
    }
  }

  lemma NothingTakesRoomIff(records: seq<Record>)
    ensures Sum(records) == 0 <==> forall j :: 0 <= j < |records| ==> records[j].size == 0
  {
    if Sum(records) == 0 {
      forall j | 0 <= j < |records|
        ensures records[j].size == 0
      {
        PartOfSum(records, j);
      }
    }
    if forall j :: 0 <= j < |records| ==> records[j].size == 0 {
      SumOfNothing(records);
    }
  }

  lemma {:induction false} SumOfNothing(records: seq<Record>)
    requires forall j :: 0 <= j < |records| ==> records[j].size == 0
    ensures Sum(records) == 0
  {
    if records != [] {
      SumOfNothing(records[1..]);
    }
  }

  /** A write that succeeds lists the new record last, as it came in, behind old records as they were. */
  lemma WrittenIsListed(saved: seq<Record>, incoming: Incoming, quota: nat, r: Record)
    requires IdsDistinct(saved) && incoming.size <= quota
    ensures var after := SavedAfter(saved, incoming, quota);
            && after != []
            && after[|after| - 1] == Record(incoming.id, incoming.size, incoming.critical, incoming.now)
            && (r in after[..|after| - 1] <==> r in saved && r.id !in Ids(Gone(saved, incoming, quota)))
  {
    FitsIff(saved, incoming, quota);
    WithoutIn(saved, Ids(Gone(saved, incoming, quota)), r);
    var kept := Kept(saved, incoming, quota);
    assert (kept + [RecordOf(incoming)])[..|kept|] == kept;
  }

  lemma LeftOverAll(all: seq<Record>, k: nat, i: nat)
    requires k <= i < |all|
    ensures Sum(all) >= Sum(all[..k]) + all[i].size
  {
    assert all == all[..k] + all[k..];
    SumAppend(all[..k], all[k..]);
    PartOfSum(all[k..], i - k);
  }

  lemma {:induction false} PartOfSum(records: seq<Record>, i: nat)
    requires i < |records|
    ensures Sum(records) >= records[i].size
  {
    if i > 0 {
      PartOfSum(records[1..], i - 1);
    }
  }

  // ----- Whole runs of writes -----

  function RecordOf(incoming: Incoming): Record
  {
    Record(incoming.id, incoming.size, incoming.critical, incoming.now)
  }

  /** The manifest after a write. */
  function SavedAfter(saved: seq<Record>, incoming: Incoming, quota: nat): seq<Record>
  {
    if Fits(saved, incoming, quota) then Kept(saved, incoming, quota) + [RecordOf(incoming)] else saved
  }

  /** The files after a write. */
  function FilesAfter(saved: seq<Record>, files: set<string>, incoming: Incoming, quota: nat): set<string>
  {
    files - Ids(Gone(saved, incoming, quota)) + if Fits(saved, incoming, quota) then {incoming.id} else {}
  }

  lemma {:induction false} IdsWithout(records: seq<Record>, gone: set<string>)
    ensures Ids(Without(records, gone)) == Ids(records) - gone
  {
    forall id
      ensures id in Ids(Without(records, gone)) <==> id in Ids(records) - gone
    {
      if id in Ids(Without(records, gone)) {
        var r :| r in Without(records, gone) && r.id == id;
        WithoutIn(records, gone, r);
      }
      if id in Ids(records) - gone {
        var r :| r in records && r.id == id;
        WithoutIn(records, gone, r);
      }
    }
  }

  lemma GoneIsListed(records: seq<Record>, incoming: Incoming, quota: nat)
    ensures Ids(Gone(records, incoming, quota)) <= Ids(records)
  {
    forall id | id in Ids(Gone(records, incoming, quota))
      ensures id in Ids(records)
    {
      var r :| r in Gone(records, incoming, quota) && r.id == id;
      CandidatesAreRecords(records, r);
    }
  }

  /** A write keeps files and manifest in step exactly unless it is refused after something was evicted. */
  lemma InStepIff(saved: seq<Record>, files: set<string>, incoming: Incoming, quota: nat)
    requires IdsDistinct(saved) && Ids(saved) == files && incoming.id !in files
    ensures Ids(SavedAfter(saved, incoming, quota)) == FilesAfter(saved, files, incoming, quota)
            <==> incoming.size <= quota || Gone(saved, incoming, quota) == []
  {
    var gone := Gone(saved, incoming, quota);
    FitsIff(saved, incoming, quota);
    GoneIsListed(saved, incoming, quota);
    if Fits(saved, incoming, quota) {
      var kept := Kept(saved, incoming, quota);
      IdsWithout(saved, Ids(gone));
      IdsSnoc(kept, RecordOf(incoming));
    } else if gone != [] {
      assert gone[0] in gone && gone[0].id in Ids(gone);
    } else {
      assert Ids(gone) == {};
    }
  }

  lemma IdsSnoc(records: seq<Record>, r: Record)
    ensures Ids(records + [r]) == Ids(records) + {r.id}
  {
    forall id
      ensures id in Ids(records + [r]) <==> id in Ids(records) + {r.id}
    {
      if id in Ids(records) {
        var s :| s in records && s.id == id;
        assert s in records + [r];
      }
      assert r in records + [r];
    }
  }

  datatype Disk = Disk(saved: seq<Record>, files: set<string>)

  /** The disk after a run of writes, starting from nothing. */
  function AfterWrites(incomings: seq<Incoming>, quota: nat): Disk
  {
    if incomings == [] then Disk([], {})
    else
      var n := |incomings| - 1;
      var before := AfterWrites(incomings[..n], quota);
      Disk(SavedAfter(before.saved, incomings[n], quota), FilesAfter(before.saved, before.files, incomings[n], quota))
  }

  lemma {:induction false} SavedAreWritten(incomings: seq<Incoming>, quota: nat, r: Record)
    requires r in AfterWrites(incomings, quota).saved
    ensures exists i :: 0 <= i < |incomings| && incomings[i].id == r.id
  {
    var n := |incomings| - 1;
    var before := AfterWrites(incomings[..n], quota).saved;
    if r.id != incomings[n].id {
      if Fits(before, incomings[n], quota) {
        WithoutIn(before, Ids(Gone(before, incomings[n], quota)), r);
      }
      SavedAreWritten(incomings[..n], quota, r);
      var i :| 0 <= i < n && incomings[..n][i].id == r.id;
      assert incomings[i].id == r.id;
    }
  }

  /**
   * In every run of writes none of which is larger than the quota, the manifest lists exactly the
   * files there are, without repetition, and together they are within the quota.
   */
  lemma {:induction false} RunStaysInStep(incomings: seq<Incoming>, quota: nat)
    requires forall i, j :: 0 <= i < j < |incomings| ==> incomings[i].id != incomings[j].id
    requires forall i :: 0 <= i < |incomings| ==> incomings[i].size <= quota
    ensures var disk := AfterWrites(incomings, quota);
            IdsDistinct(disk.saved) && Ids(disk.saved) == disk.files && Sum(disk.saved) <= quota
  {
    if incomings != [] {
      var n := |incomings| - 1;
      RunStaysInStep(incomings[..n], quota);
      var before, e := AfterWrites(incomings[..n], quota), incomings[n];
      NewIdIsFresh(incomings, quota);
      InStepIff(before.saved, before.files, e, quota);
      FitsIff(before.saved, e, quota);
      StoredWithinQuota(before.saved, e, quota);
      AddedIsDistinct(before.saved, e, quota);
    }
  }

  lemma NewIdIsFresh(incomings: seq<Incoming>, quota: nat)
    requires incomings != [] && forall i, j :: 0 <= i < j < |incomings| ==> incomings[i].id != incomings[j].id
    ensures var n := |incomings| - 1;
            incomings[n].id !in Ids(AfterWrites(incomings[..n], quota).saved)
  {
    var n := |incomings| - 1;
    if incomings[n].id in Ids(AfterWrites(incomings[..n], quota).saved) {
      var r :| r in AfterWrites(incomings[..n], quota).saved && r.id == incomings[n].id;
      SavedAreWritten(incomings[..n], quota, r);
    }
  }

  lemma AddedIsDistinct(saved: seq<Record>, incoming: Incoming, quota: nat)
    requires IdsDistinct(saved) && incoming.id !in Ids(saved)
    ensures IdsDistinct(SavedAfter(saved, incoming, quota))
  {
    var gone := Ids(Gone(saved, incoming, quota));
    KeptAreDistinct(saved, gone);
    forall r | r in Without(saved, gone)
      ensures r.id != incoming.id
    {
      WithoutIn(saved, gone, r);
      assert r.id in Ids(saved);
    }
  }
}
