/** ROOT::TThreadedObject<T>: a pool that gives every thread its own lazily
    created copy of a model object, and merges the copies on request.

    A thread id is an opaque value of type `Tid`; the mutex-protected region
    of GetThisSlotNumber is one atomic step, so each method is one sequential
    state transition. */
module ThreadedObjects {
  import opened ThreadedObjectUtils

  /** The default of the process-wide fgMaxSlots. */
  const DefaultMaxSlots: nat := 64

  /** A call to ROOT's Warning(location, message). */
  datatype Warning = Warning(location: string, message: string)

  // GetAtSlot reports under the location of Merge.
  const MaxSlotsReached := Warning("TThreadedObject::Merge", "Maximum number of slots reached.")
  const AlreadyMerged := Warning("TThreadedObject::Merge", "This object was already merged. Returning the previous result.")
  const SnapshotAlreadyMerged := Warning("TThreadedObject::SnapshotMerge", "This object was already merged. Returning the previous result.")

  /** The slot indices handed out while the counter stands at `next`. */
  ghost function SlotRange(next: nat): (r: set<nat>)
    ensures forall s: nat :: s in r <==> s < next
  {
    if next == 0 then {} else SlotRange(next - 1) + {next - 1}
  }

  ghost predicate Injective<Tid>(m: map<Tid, nat>)
  {
    forall t, u :: t in m && u in m && m[t] == m[u] ==> t == u
  }

  /** The thread-to-slot map together with its counter: one slot per thread,
      no slot shared, and the counter equal to the number of threads seen. */
  ghost predicate IsSlotRegistry<Tid>(m: map<Tid, nat>, next: nat)
  {
    |m| == next && Injective(m) && (forall t :: t in m ==> m[t] < next)
  }

  lemma {:induction false} SlotRangeSize(next: nat)
    ensures |SlotRange(next)| == next
  {
    if next > 0 {
      SlotRangeSize(next - 1);
    }
  }

  lemma {:induction false} InjectiveValuesSize<Tid>(m: map<Tid, nat>)
    requires Injective(m)
    ensures |m.Values| == |m.Keys|
    decreases |m.Keys|
  {
    if m.Keys != {} {
      var t :| t in m.Keys;
      var rest := m - {t};
      assert rest.Keys == m.Keys - {t};
      assert rest.Values == m.Values - {m[t]} by {
        forall v | v in m.Values
          ensures v in rest.Values <==> v != m[t]
        {
          var u :| u in m && m[u] == v;
          if v != m[t] {
            assert u != t && u in rest;
          }
        }
      }
      InjectiveValuesSize(rest);
    }
  }

  lemma {:induction false} SubsetOfSameSize(a: set<nat>, b: set<nat>)
    requires a <= b && |a| == |b|
    ensures a == b
  {
    if a != b {
      var x :| x in b && x !in a;
      assert a <= b - {x};
      assert |b - {x}| == |b| - 1;
      SubsetSize(a, b - {x});
    }
  }

  lemma {:induction false} SubsetSize(a: set<nat>, b: set<nat>)
    requires a <= b
    ensures |a| <= |b|
  {
    assert b == a + (b - a);
  }

  /** The slots handed out to N distinct threads are exactly 0 .. N-1. */
  lemma RegistrySlotsAreDense<Tid>(m: map<Tid, nat>, next: nat)
    requires IsSlotRegistry(m, next)
    ensures m.Values == SlotRange(next)
  {
    InjectiveValuesSize(m);
    SlotRangeSize(next);
    SubsetOfSameSize(m.Values, SlotRange(next));
  }

  class ThreadedObject<T, Tid(==)> {
    /** fModel: cloned into every slot that is used for the first time. */
    const model: T
    /** fObjPointers: one entry per processing slot, null until first use. */
    const slots: array<Instance?<T>>
    /** fThrIDSlotMap and fCurrMaxSlotIndex. */
    var thrMap: map<Tid, nat>
    var currMax: nat
    /** fIsMerged. */
    var isMerged: bool
    /** How many times Merge has invoked its merge function. */
    ghost var mergeCalls: nat
    /** The warnings reported so far, oldest first. */
    ghost var warnings: seq<Warning>

    ghost predicate Valid()
      reads this, slots
    {
      IsSlotRegistry(thrMap, currMax)
      && mergeCalls == (if isMerged then 1 else 0)
      // every slot holds its own clone
      && (forall i, j :: 0 <= i < slots.Length && 0 <= j < slots.Length && i != j && slots[i] != null
            ==> slots[i] != slots[j])
    }

    /** A pool for `maxSlots` processing slots, all empty; the source takes
        the process-wide fgMaxSlots, by default DefaultMaxSlots. */
    constructor (model: T, maxSlots: nat)
      ensures Valid() && fresh(slots)
      ensures this.model == model && slots.Length == maxSlots
      ensures forall i :: 0 <= i < slots.Length ==> slots[i] == null
      ensures thrMap == map[] && currMax == 0 && !isMerged && warnings == []
    {
      this.model := model;
      slots := new Instance?<T>[maxSlots](_ => null);
      thrMap := map[];
      currMax := 0;
      isMerged := false;
      mergeCalls := 0;
      warnings := [];
    }

    /** The object of slot `i`, cloned from the model on first use; null
        with a warning when `i` is beyond the last slot. */
    method GetAtSlot(i: nat) returns (r: Instance?<T>)
      requires Valid()
      modifies this, slots
      ensures Valid()
      ensures thrMap == old(thrMap) && currMax == old(currMax)
      ensures isMerged == old(isMerged) && mergeCalls == old(mergeCalls)
      ensures forall j :: 0 <= j < slots.Length && j != i ==> slots[j] == old(slots[j])
      ensures i >= slots.Length ==> r == null && warnings == old(warnings) + [MaxSlotsReached]
      ensures i < slots.Length ==> r != null && r == slots[i] && warnings == old(warnings)
      ensures i < slots.Length && old(slots[i]) == null ==> fresh(r) && r.state == model
      ensures i < slots.Length && old(slots[i]) != null ==> r == old(slots[i])
    {
      if i >= slots.Length {
        warnings := warnings + [MaxSlotsReached];
        return null;
      }
      r := slots[i];
      if r == null {
        r := Clone(model);
        slots[i] := r;
      }
    }

    /** The object of slot `i` as stored, possibly null; no bounds check and
        no creation. */
    method GetAtSlotUnchecked(i: nat) returns (r: Instance?<T>)
      requires i < slots.Length
      ensures r == slots[i]
    {
      r := slots[i];
    }

    /** The slot of thread `tid`: the recorded one, or else the next counter
        value, which is recorded for `tid` as the counter advances. */
    method GetThisSlotNumber(tid: Tid) returns (slot: nat)
      requires Valid()
      modifies this
      ensures Valid()
      ensures isMerged == old(isMerged) && warnings == old(warnings)
      ensures tid in thrMap && thrMap[tid] == slot && slot < currMax
      ensures tid in old(thrMap) ==> slot == old(thrMap)[tid] && thrMap == old(thrMap) && currMax == old(currMax)
      ensures tid !in old(thrMap) ==>
        slot == old(currMax) && thrMap == old(thrMap)[tid := slot] && currMax == old(currMax) + 1
    {
      if tid in thrMap {
        return thrMap[tid];
      }
      slot := currMax;
      currMax := currMax + 1;
      thrMap := thrMap[tid := slot];
    }

    /** The object of the calling thread `tid`: its slot number, then
        GetAtSlot. */
    method Get(tid: Tid) returns (r: Instance?<T>)
      requires Valid()
      modifies this, slots
      ensures Valid()
      ensures isMerged == old(isMerged) && mergeCalls == old(mergeCalls)
      ensures tid in thrMap
      ensures tid in old(thrMap) ==> thrMap == old(thrMap) && currMax == old(currMax)
      ensures tid !in old(thrMap) ==>
        thrMap == old(thrMap)[tid := old(currMax)] && currMax == old(currMax) + 1
      ensures forall j :: 0 <= j < slots.Length && j != thrMap[tid] ==> slots[j] == old(slots[j])
      ensures thrMap[tid] >= slots.Length ==> r == null && warnings == old(warnings) + [MaxSlotsReached]
      ensures thrMap[tid] < slots.Length ==> r != null && r == slots[thrMap[tid]] && warnings == old(warnings)
      ensures var s := thrMap[tid]; s < slots.Length && old(slots[s]) == null ==> fresh(r) && r.state == model
      ensures var s := thrMap[tid]; s < slots.Length && old(slots[s]) != null ==> r == old(slots[s])
    {
      var slot := GetThisSlotNumber(tid);
      r := GetAtSlot(slot);
    }

    /** The entry of slot 0, the target of a destructive merge; null when
        the pool has no slot at all (see MergeAsWrittenReadsPastEnd). */
    function SlotZero(): (r: Instance?<T>)
      reads slots
    {
      if slots.Length > 0 then slots[0] else null
    }

    /** The destructive merge: the first call folds every other slot's
        object into slot 0's with the type's Merge and records that it
        happened; later calls only warn. Both return slot 0's object. */
    method Merge(typeMerge: (T, seq<T>) -> T) returns (r: Instance?<T>)
      requires Valid()
      modifies this, SlotZero()
      ensures Valid() && isMerged && mergeCalls == 1
      ensures r == SlotZero() && slots[..] == old(slots[..])
      ensures thrMap == old(thrMap) && currMax == old(currMax)
      ensures old(isMerged) ==>
        mergeCalls == old(mergeCalls) && warnings == old(warnings) + [AlreadyMerged]
        && (r != null ==> r.state == old(r.state))
      ensures !old(isMerged) ==>
        mergeCalls == old(mergeCalls) + 1 && warnings == old(warnings)
        && (r != null ==> r.state == typeMerge(old(r.state), old(States(Present(slots[1..])))))
    {
      r := SlotZero();
      if isMerged {
        warnings := warnings + [AlreadyMerged];
        return;
      }
      if r != null {
        ghost var others := Present(slots[1..]);
        ghost var before := States(others);
        assert r !in slots[1..];
        MergeSourcesOfHeadTarget(slots[..]);
        assert slots[..][1..] == slots[1..];
        var passed := MergeTObjects(r, slots[..], typeMerge);
        assert passed == others;
        assert States(others) == before;
      } else {
        var passed := MergeTObjects(r, slots[..], typeMerge);
      }
      mergeCalls := mergeCalls + 1;
      isMerged := true;
    }

    /** The non-destructive merge: folds every non-null slot into a fresh
        clone of the model and returns it, leaving the pool alone. After a
        destructive merge it returns a clone of slot 0's object instead. */
    method SnapshotMerge(typeMerge: (T, seq<T>) -> T) returns (r: Instance?<T>)
      requires Valid()
      modifies this
      ensures Valid() && slots[..] == old(slots[..])
      ensures thrMap == old(thrMap) && currMax == old(currMax)
      ensures isMerged == old(isMerged) && mergeCalls == old(mergeCalls)
      ensures r != null ==> fresh(r) && r !in slots[..]
      ensures isMerged ==>
        warnings == old(warnings) + [SnapshotAlreadyMerged]
        && (r == null <==> SlotZero() == null)
        && (r != null ==> r.state == SlotZero().state)
      ensures !isMerged ==>
        warnings == old(warnings)
        && r != null && r.state == typeMerge(model, States(Present(slots[..])))
    {
      if isMerged {
        warnings := warnings + [SnapshotAlreadyMerged];
        var merged := SlotZero();
        if merged == null {
          // TThreadedObject::SnapshotMerge dereferences this null pointer (see SnapshotMergeAsWrittenDereferencesNull)
          return null;
        }
        r := Clone(merged.state);
        return;
      }
      var target := Clone(model);
      MergeSourcesOfOutsideTarget(target, slots[..]);
      var passed := MergeTObjects(target, slots[..], typeMerge);
      r := target;
    }

    /** True when Merge, as written, reads slot 0 of an empty slot vector:
        the pool was built with no slots. */
    predicate MergeAsWrittenReadsPastEnd()
      reads slots
    {
      slots.Length == 0
    }

    /** True in the one state where SnapshotMerge, as written, reads through
        a null pointer: the pool was merged while slot 0 was never used. */
    predicate SnapshotMergeAsWrittenDereferencesNull()
      reads this, slots
    {
      isMerged && slots.Length > 0 && slots[0] == null
    }
  }
}
