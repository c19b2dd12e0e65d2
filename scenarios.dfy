/** Clients of ThreadedObject that derive, from the method contracts alone,
    what a caller of the pool can rely on. Thread ids are integers here. */
module Scenarios {
  import opened ThreadedObjectUtils
  import opened ThreadedObjects

  function Sum(xs: seq<int>): int
  {
    if xs == [] then 0 else xs[0] + Sum(xs[1..])
  }

  /** The Merge of an integer accumulator: adds the sources to the target. */
  function SumMerge(acc: int, sources: seq<int>): int
  {
    acc + Sum(sources)
  }

  /** A thread's work item: add `c` to its own object `reps` times. */
  method AddRepeatedly(x: Instance<int>, c: int, reps: nat)
    modifies x
    ensures x.state == old(x.state) + c * reps
  {
    for k := 0 to reps
      invariant x.state == old(x.state) + c * k
    {
      x.state := x.state + c;
    }
  }

  /** With two slots, two threads get distinct fresh clones of the model and
      the third distinct thread gets null. */
  method CapacityExceeded<T>(model: T, t1: int, t2: int, t3: int)
    returns (a: Instance?<T>, b: Instance?<T>, c: Instance?<T>, ghost warned: seq<Warning>)
    requires t1 != t2 && t1 != t3 && t2 != t3
    ensures a != null && b != null && a != b && a.state == model && b.state == model
    ensures c == null && warned == [MaxSlotsReached]
  {
    var pool := new ThreadedObject<T, int>(model, 2);
    a := pool.Get(t1);
    b := pool.Get(t2);
    c := pool.Get(t3);
    warned := pool.warnings;
  }

  /** The work item of a thread seen for the first time: fetch its object
      from the pool and add `c` to it `reps` times. */
  method WorkItem(pool: ThreadedObject<int, int>, tid: int, c: int, reps: nat) returns (x: Instance<int>)
    requires pool.Valid() && pool.model == 0
    requires tid !in pool.thrMap && pool.currMax < pool.slots.Length
    requires pool.slots[pool.currMax] == null
    modifies pool, pool.slots
    ensures pool.Valid() && pool.isMerged == old(pool.isMerged)
    ensures pool.thrMap == old(pool.thrMap)[tid := old(pool.currMax)] && pool.currMax == old(pool.currMax) + 1
    ensures pool.slots[old(pool.currMax)] == x && x.state == c * reps && fresh(x)
    ensures forall j :: 0 <= j < pool.slots.Length && j != old(pool.currMax) ==> pool.slots[j] == old(pool.slots[j])
  {
    var r := pool.Get(tid);
    x := r;
    AddRepeatedly(x, c, reps);
  }

  /** Four threads with distinct ids run their work items on a fresh pool
      of four counters starting at 0, adding 10, 20, 30 and 40 `reps`
      times each. */
  method RunFourThreads(tids: seq<int>, reps: nat)
    returns (pool: ThreadedObject<int, int>, a: Instance<int>, b: Instance<int>, c: Instance<int>, d: Instance<int>)
    requires |tids| == 4
    requires forall i, j :: 0 <= i < j < |tids| ==> tids[i] != tids[j]
    ensures fresh(pool) && fresh(pool.slots) && pool.Valid() && !pool.isMerged
    ensures fresh(a) && fresh(b) && fresh(c) && fresh(d)
    ensures pool.slots[..] == [a, b, c, d]
    ensures a.state == 10 * reps && b.state == 20 * reps && c.state == 30 * reps && d.state == 40 * reps
  {
    pool := new ThreadedObject<int, int>(0, 4);
    a := WorkItem(pool, tids[0], 10, reps);
    b := WorkItem(pool, tids[1], 20, reps);
    c := WorkItem(pool, tids[2], 30, reps);
    d := WorkItem(pool, tids[3], 40, reps);
  }

  /** Four threads add 10, 20, 30 and 40 to their own counter `reps` times;
      each slot then holds its thread's partial sum, and the destructive
      merge with summation yields the total. */
  method AccumulateAndMerge(tids: seq<int>, reps: nat) returns (partials: seq<int>, total: Instance?<int>)
    requires |tids| == 4
    requires forall i, j :: 0 <= i < j < |tids| ==> tids[i] != tids[j]
    ensures partials == [10 * reps, 20 * reps, 30 * reps, 40 * reps]
    ensures total != null && total.state == 100 * reps
  {
    var pool, a, b, c, d := RunFourThreads(tids, reps);
    partials := [a.state, b.state, c.state, d.state];
    ghost var others := pool.slots[1..];
    assert others == [b, c, d];
    PresentOfNonNull(others);
    ghost var contents := States(Present(others));
    assert contents == [20 * reps, 30 * reps, 40 * reps];
    assert Sum(contents[2..]) == 40 * reps;
    assert Sum(contents[1..]) == 30 * reps + Sum(contents[1..][1..]);
    assert contents[1..][1..] == contents[2..];
    assert Sum(contents) == 90 * reps;
    assert pool.SlotZero() == a;
    total := pool.Merge(SumMerge);
  }

  /** A second destructive merge returns the same object and does not
      invoke the merge function again. */
  method MergeTwice<T>(pool: ThreadedObject<T, int>, typeMerge: (T, seq<T>) -> T)
    returns (first: Instance?<T>, second: Instance?<T>, ghost afterFirst: T)
    requires pool.Valid()
    modifies pool, pool.SlotZero()
    ensures first == second && first == old(pool.SlotZero()) && pool.mergeCalls == 1
    ensures var z := old(pool.SlotZero()); z != null && !old(pool.isMerged) ==>
      afterFirst == typeMerge(old(z.state), old(States(Present(pool.slots[1..]))))
    ensures second != null ==> second.state == afterFirst
  {
    first := pool.Merge(typeMerge);
    afterFirst := if first != null then first.state else pool.model;
    second := pool.Merge(typeMerge);
  }

  /** Two snapshot merges before any destructive merge return two distinct
      objects with equal contents and leave every slot as it was. */
  method SnapshotTwice<T>(pool: ThreadedObject<T, int>, typeMerge: (T, seq<T>) -> T)
    returns (first: Instance?<T>, second: Instance?<T>)
    requires pool.Valid() && !pool.isMerged
    modifies pool
    ensures first != null && second != null && first != second && first.state == second.state
    ensures pool.slots[..] == old(pool.slots[..]) && !pool.isMerged
  {
    first := pool.SnapshotMerge(typeMerge);
    ghost var sources := Present(pool.slots[..]);
    ghost var contents := States(sources);
    second := pool.SnapshotMerge(typeMerge);
    assert Present(pool.slots[..]) == sources;
    assert States(sources) == contents;
  }

  /** The same thread always receives the same object. */
  method SameThreadSameObject<T>(pool: ThreadedObject<T, int>, tid: int)
    returns (first: Instance?<T>, second: Instance?<T>)
    requires pool.Valid()
    modifies pool, pool.slots
    ensures first == second
  {
    first := pool.Get(tid);
    second := pool.Get(tid);
  }

  /** A pool merged before any slot was used: Merge returns null, and a
      following SnapshotMerge, as written, would dereference that null
      pointer; the model returns null instead. */
  method MergeBeforeFirstUse<T>(model: T, maxSlots: nat, typeMerge: (T, seq<T>) -> T)
    returns (merged: Instance?<T>, asWrittenDereferencesNull: bool, snapshot: Instance?<T>)
    requires maxSlots > 0
    ensures merged == null && asWrittenDereferencesNull && snapshot == null
  {
    var pool := new ThreadedObject<T, int>(model, maxSlots);
    merged := pool.Merge(typeMerge);
    asWrittenDereferencesNull := pool.SnapshotMergeAsWrittenDereferencesNull();
    snapshot := pool.SnapshotMerge(typeMerge);
  }

  /** A pool built with no slots, which the public static fgMaxSlots
      allows: Merge, as written, reads past the end of the empty slot
      vector; the model merges nothing and returns null. */
  method MergeWithoutSlots<T>(model: T, typeMerge: (T, seq<T>) -> T)
    returns (asWrittenReadsPastEnd: bool, merged: Instance?<T>, snapshot: Instance?<T>)
    ensures asWrittenReadsPastEnd && merged == null && snapshot == null
  {
    var pool := new ThreadedObject<T, int>(model, 0);
    asWrittenReadsPastEnd := pool.MergeAsWrittenReadsPastEnd();
    merged := pool.Merge(typeMerge);
    snapshot := pool.SnapshotMerge(typeMerge);
  }
}
