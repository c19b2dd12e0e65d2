# TThreadedObject: thread-private objects, lazily, with merge

A Dafny model of `ROOT::TThreadedObject<T>` from ROOT's thread library. This
is a pool that gives every thread its own copy of a model object. The copy is
cloned on the thread's first access. Later the copies are merged into one
result. The model covers three parts:

- **Slot registry** (`GetThisSlotNumber`). It maps an opaque thread id to a
  small slot number. It uses a map and a counter that only grows. The
  mutex-protected region is one atomic step, so each call is one sequential
  state transition.
- **Slot pool** (`GetAtSlot`, `GetAtSlotUnchecked`, `Get`). A fixed-length
  array of nullable object references. A slot is filled with a fresh clone of
  the model on first use.
- **Merging** (`Merge`, `SnapshotMerge`, `MergeTObjects`). `Merge` is a
  destructive merge into slot 0, remembered by `isMerged`, so it happens
  once. `SnapshotMerge` is non-destructive and merges into a fresh clone of
  the model. The default merge function keeps the sources that are non-null
  and are not the target, in order.

Files:

- `threaded_object_utils.dfy` (module `ThreadedObjectUtils`): the managed
  object `Instance<T>`, `Clone`, `MergeTObjects`, and the list of sources it
  builds (`MergeSources`) with its lemmas.
- `threaded_object.dfy` (module `ThreadedObjects`): the class
  `ThreadedObject<T, Tid>` and the registry invariant with its density
  lemma.
- `scenarios.dfy` (module `Scenarios`): client methods that derive, from the
  contracts alone, what callers can rely on.

How the model represents the source:

- Objects of the managed type are `Instance<T>` heap objects. Pointer identity
  (`obj != target`) is reference equality.
- The contents of an object are its `state`. The type's own `Merge` is a
  function `typeMerge` from the target's contents and the sources' contents
  to the target's new contents.
- Thread ids are a type parameter `Tid` with equality. The calling thread's
  id is an argument.
- Every call to `Warning` is appended to a ghost log `warnings`. The log keeps
  the source's location and message strings.
- A ghost counter `mergeCalls` counts how many times `Merge` invoked its merge
  function.
- The object invariant `Valid()` has four parts:
  - the registry is injective;
  - every recorded slot is below the counter, and the counter equals the
    number of threads;
  - `mergeCalls` is 1 exactly when `isMerged` holds;
  - every filled slot holds its own object.

## Model

| member | source | states |
|---|---|---|
| `ThreadedObjects.ThreadedObject.constructor` | core/thread/inc/ROOT/TThreadedObject.h:94-96 | The slot array has exactly the requested number of entries, all null. The registry is empty, the counter is 0 and the pool is unmerged. The array is `const`, so no operation changes its length. Zero slots is allowed, as in the source. |
| `ThreadedObjects.ThreadedObject.GetAtSlot` | core/thread/inc/ROOT/TThreadedObject.h:101-113 | If `i` is past the last slot: returns null, logs the "Maximum number of slots reached." warning, and changes no slot, the registry, the counter or the merged flag. If slot `i` is empty: stores a fresh clone of the model there and returns it. If slot `i` is filled: returns the stored object itself, not a new one. No other slot changes. |
| `ThreadedObjects.ThreadedObject.GetAtSlotUnchecked` | core/thread/inc/ROOT/TThreadedObject.h:119-122 | Returns the entry of slot `i` as stored, possibly null, and changes nothing. The caller must give an index below the array length. |
| `ThreadedObjects.ThreadedObject.GetThisSlotNumber` | core/thread/inc/ROOT/TThreadedObject.h:190-202 | A known thread gets its recorded slot, with no change. A new thread gets the old counter value, that value is recorded for it, and the counter grows by exactly 1. The registry stays injective and dense below the counter. |
| `ThreadedObjects.ThreadedObject.Get` | core/thread/inc/ROOT/TThreadedObject.h:139-142 | Resolves the calling thread's slot, then does what `GetAtSlot` does for that slot. The same thread always gets the object of the same slot. |
| `ThreadedObjects.ThreadedObject.Merge` | core/thread/inc/ROOT/TThreadedObject.h:153-163 | Returns slot 0's object, or null when the pool has no slots (see Findings). On the first call: invokes the merge function once, on slot 0 and the other non-null slots. Slot 0's contents become `typeMerge` of its old contents and theirs, and `isMerged` becomes true. On later calls: only logs a warning and returns slot 0 with its contents unchanged. No slot entry is reassigned, and `isMerged` is never cleared. |
| `ThreadedObjects.ThreadedObject.SnapshotMerge` | core/thread/inc/ROOT/TThreadedObject.h:169-179 | Never changes `isMerged`, the registry or any slot entry. Before a destructive merge it returns a fresh object, not in any slot, whose contents are `typeMerge` of the model and every non-null slot. After one it logs a warning and returns a fresh clone of slot 0, or null when slot 0 is null or missing (see Findings). |
| `ThreadedObjectUtils.Clone` | core/thread/inc/ROOT/TThreadedObject.h:37-49 | Copy construction or `Clone()`: a newly allocated object with the same contents as the original. |
| `ThreadedObjectUtils.MergeTObjects` | core/thread/inc/ROOT/TThreadedObject.h:60-69 | With a null target it passes nothing on and changes nothing. Otherwise the list it hands to the target's `Merge` is exactly `MergeSources(target, objs)`, which does not contain the target. The target's new contents are `typeMerge` of its old contents and that list's contents, and only the target changes. |
| `ThreadedObjectUtils.MergeSourcesMembership` | core/thread/inc/ROOT/TThreadedObject.h:65-66 | An object is in the merge list exactly when it occurs among the sources, is non-null and is not the target (both directions). |
| `ThreadedObjectUtils.MergeSourcesAppend` | core/thread/inc/ROOT/TThreadedObject.h:65-67 | The list is built entry by entry in source order: the list for `a + b` is the list for `a` followed by the list for `b`. |
| `ThreadedObjectUtils.MergeSourcesOfOutsideTarget` | core/thread/inc/ROOT/TThreadedObject.h:175-177 | A target that is not among the sources, such as SnapshotMerge's fresh clone, receives every non-null source. |
| `ThreadedObjectUtils.MergeSourcesOfHeadTarget` | core/thread/inc/ROOT/TThreadedObject.h:160 | When the target is slot 0 and no other slot holds it, as in `Merge`, the target receives every other non-null slot. |
| `ThreadedObjects.RegistrySlotsAreDense` | core/thread/inc/ROOT/TThreadedObject.h:196-199 | Under the registry invariant, the slots given to N distinct threads are exactly 0 .. N-1. |
| `Scenarios.CapacityExceeded` | core/thread/inc/ROOT/TThreadedObject.h:139-142 | With two slots, two distinct threads get two distinct clones of the model. A third distinct thread gets null, and the only warning logged is "Maximum number of slots reached.". |
| `Scenarios.AccumulateAndMerge` | core/thread/inc/ROOT/TThreadedObject.h:153-163 | Four threads add 10, 20, 30 and 40 to their own counters `reps` times. Before the merge, each slot holds its thread's partial sum. `Merge` with summation returns 100 times `reps`. |
| `Scenarios.MergeTwice` | core/thread/inc/ROOT/TThreadedObject.h:156-158 | A second `Merge` returns the identical object, slot 0. Its contents stay what the first call made them: `typeMerge` of slot 0's old contents and the other present slots. The merge function has still been invoked only once. |
| `Scenarios.SnapshotTwice` | core/thread/inc/ROOT/TThreadedObject.h:175-178 | Two `SnapshotMerge` calls before any `Merge` return two distinct objects with equal contents. No slot entry changes and the pool stays unmerged. |
| `Scenarios.SameThreadSameObject` | core/thread/inc/ROOT/TThreadedObject.h:139-142 | Two calls of `Get` by one thread return the same object. |
| `Scenarios.MergeWithoutSlots` | core/thread/inc/ROOT/TThreadedObject.h:160 | A pool with zero slots can be built. In it the source's `Merge` reads past the end of the empty vector; the model's `Merge` and `SnapshotMerge` return null. |
| `Scenarios.MergeBeforeFirstUse` | core/thread/inc/ROOT/TThreadedObject.h:171-173 | On a pool where no slot was ever used, `Merge` returns null. The state it leaves is one where the source's `SnapshotMerge` dereferences null. |

## Left out

- Threads and the mutex are not modelled. `std::this_thread::get_id` is an argument, and the locked check-assign-record region is one step. The unsynchronised race on one slot index in `GetAtSlot` is a documented precondition, not behaviour.
- `Cloner` selects copy construction or `Clone()` at compile time. This is modelled as one operation, `Clone`, that returns a new object with equal contents.
- `T::Merge`, `TList` and `TList::Add` are foreign classes. The type's merge is modelled as a function `typeMerge` of contents that changes only the target. The model assumes a type's `Merge` does not mutate its sources.
- ThreadedObjects.ThreadedObject.Merge: only the default merge function `MergeTObjects` is modelled. A caller-supplied `MergeFunctionType` could do anything to any object, so it is not modelled. The same holds for SnapshotMerge.
- ThreadedObjects.ThreadedObject.GetThisSlotNumber: the counter is unbounded. The source's `unsigned` counter would wrap after 2^32 distinct threads, and this model does not capture that. Slot indices are `nat` for the same reason.
- The `Warning(...)` calls appear only as entries in the ghost `warnings` log. No output is modelled.
- `shared_ptr` reference counting, the no-op deleter in `SnapshotMerge`, and `unique_ptr` ownership are not modelled. Objects are references, and newness is `fresh`.
- `operator->` and `MakeThreaded` only forward to `Get` and to the constructor, so they are not modelled.
- The process-wide static `fgMaxSlots` is a constructor parameter here. Callers pass `DefaultMaxSlots` (64) for the source's default.
- Argument forwarding to the model's constructor is not modelled. The model object is given as a value.
- `core/base/inc/RConfig.h` is only an include, so it has nothing to model.

## Findings

| source | as written | input that shows it | evidently intended | confidence | as-written member | corrected member |
|---|---|---|---|---|---|---|
| core/thread/inc/ROOT/TThreadedObject.h:173 | After a destructive merge, `SnapshotMerge` clones `*fObjPointers[0].get()` without checking slot 0 for null. | Construct a pool and call `Merge()` before any slot is used. `Merge` returns null and sets `fIsMerged`. A following `SnapshotMerge()` then dereferences null. `Scenarios.MergeBeforeFirstUse` reaches this state. | Return the previous result, as the warning says. That result is null, which is what `Merge` returns in the same state. | medium; not executed | `ThreadedObjects.ThreadedObject.SnapshotMergeAsWrittenDereferencesNull` | `ThreadedObjects.ThreadedObject.SnapshotMerge` |
| core/thread/inc/ROOT/TThreadedObject.h:160 | `Merge` reads `fObjPointers[0]` without checking that the vector has an entry. | Set the public static `fgMaxSlots` to 0, construct a pool, and call `Merge()`. The vector is empty, so the read is out of bounds. `Scenarios.MergeWithoutSlots` builds this pool. The merged branch at line 158 and `SnapshotMerge` at line 173 read slot 0 the same way. | With no slots there is nothing to merge, so return null, as for an unused slot 0. | medium; not executed | `ThreadedObjects.ThreadedObject.MergeAsWrittenReadsPastEnd` | `ThreadedObjects.ThreadedObject.Merge` |
