/** The helpers of TThreadedObject.h: the managed object type, cloning, and
    the default merge function MergeTObjects with the list of sources it
    hands on to the target's own Merge. */
module ThreadedObjectUtils {

  /** An instance of the managed type (a histogram, a counter, ...). Its
      contents are `state`; the thread that owns a slot mutates them directly
      through the reference the pool hands out. */
  class Instance<T> {
    var state: T

    constructor (s: T)
      ensures state == s
    {
      state := s;
    }
  }

  /** Cloner<T>::Clone: copy construction when the type has a copy
      constructor, the type's own Clone() otherwise. Either way the result is
      a new object whose contents equal those of the original. */
  method Clone<T>(original: T) returns (c: Instance<T>)
    ensures fresh(c) && c.state == original
  {
    c := new Instance(original);
  }

  /** The contents of a list of instances, in order. */
  function States<T>(list: seq<Instance<T>>): (r: seq<T>)
    reads list
    ensures |r| == |list|
    ensures forall k :: 0 <= k < |list| ==> r[k] == list[k].state
  {
    if list == [] then [] else [list[0].state] + States(list[1..])
  }

  /** The non-null entries of a slot vector, in order. */
  function Present<T>(objs: seq<Instance?<T>>): seq<Instance<T>>
  {
    if objs == [] then []
    else
      var last := objs[|objs| - 1];
      Present(objs[..|objs| - 1]) + (if last != null then [last] else [])
  }

  /** Without null entries nothing is dropped. */
  lemma {:induction false} PresentOfNonNull<T>(objs: seq<Instance?<T>>)
    requires forall k :: 0 <= k < |objs| ==> objs[k] != null
    ensures |Present(objs)| == |objs|
    ensures forall k :: 0 <= k < |objs| ==> Present(objs)[k] == objs[k]
  {
    if objs != [] {
      PresentOfNonNull(objs[..|objs| - 1]);
    }
  }

  /** The list MergeTObjects adds to the TList it hands to `target`'s Merge:
      every entry of `objs`, in order, that is non-null and is not the target
      object itself. */
  function MergeSources<T>(target: Instance<T>, objs: seq<Instance?<T>>): seq<Instance<T>>
  {
    if objs == [] then []
    else
      var last := objs[|objs| - 1];
      MergeSources(target, objs[..|objs| - 1])
        + (if last != null && last != target then [last] else [])
  }

  /** An object is passed on exactly when it occurs in `objs`, is non-null
      and is not the target. */
  lemma {:induction false} MergeSourcesMembership<T>(target: Instance<T>, objs: seq<Instance?<T>>)
    ensures forall o: Instance?<T> :: o in MergeSources(target, objs) <==> o in objs && o != null && o != target
  {
    if objs != [] {
      var init := objs[..|objs| - 1];
      MergeSourcesMembership(target, init);
      assert objs == init + [objs[|objs| - 1]];
    }
  }

  /** Filtering is done entry by entry, preserving order: the sources of a
      concatenation are the concatenation of the sources. */
  lemma {:induction false} MergeSourcesAppend<T>(target: Instance<T>, a: seq<Instance?<T>>, b: seq<Instance?<T>>)
    ensures MergeSources(target, a + b) == MergeSources(target, a) + MergeSources(target, b)
    decreases |b|
  {
    if b != [] {
      var init := b[..|b| - 1];
      MergeSourcesAppend(target, a, init);
      assert (a + b)[..|a + b| - 1] == a + init;
      assert (a + b)[|a + b| - 1] == b[|b| - 1];
    } else {
      assert a + b == a;
    }
  }

  /** A target that is not among the entries (a fresh accumulator, as in
      SnapshotMerge) receives every non-null entry. */
  lemma {:induction false} MergeSourcesOfOutsideTarget<T>(target: Instance<T>, objs: seq<Instance?<T>>)
    requires target !in objs
    ensures MergeSources(target, objs) == Present(objs)
  {
    if objs != [] {
      var init := objs[..|objs| - 1];
      assert forall o :: o in init ==> o in objs;
      MergeSourcesOfOutsideTarget(target, init);
    }
  }

  /** When the target is the first entry and occurs nowhere else (slot 0 in
      a destructive Merge), it receives every other non-null entry. */
  lemma MergeSourcesOfHeadTarget<T>(objs: seq<Instance?<T>>)
    requires |objs| > 0 && objs[0] != null && objs[0] !in objs[1..]
    ensures MergeSources(objs[0], objs) == Present(objs[1..])
  {
    var target: Instance<T> := objs[0];
    assert objs == [objs[0]] + objs[1..];
    MergeSourcesAppend(target, [objs[0]], objs[1..]);
    assert [objs[0]][..0] == [];
    MergeSourcesOfOutsideTarget(target, objs[1..]);
  }

  /** TThreadedObjectUtils::MergeTObjects: with a null target it does nothing;
      otherwise it collects the sources that are non-null and not the target,
      in order, and folds them into the target with the type's own Merge,
      modelled as `typeMerge` on the contents. Only the target changes. */
  method MergeTObjects<T>(target: Instance?<T>, objs: seq<Instance?<T>>, typeMerge: (T, seq<T>) -> T)
    returns (passed: seq<Instance<T>>)
    modifies target
    ensures target == null ==> passed == []
    ensures target != null ==> passed == MergeSources(target, objs)
    ensures target != null ==> target !in passed && target.state == typeMerge(old(target.state), States(passed))
  {
    passed := [];
    if target == null {
      return;
    }
    for k := 0 to |objs|
      invariant passed == MergeSources(target, objs[..k])
    {
      var o := objs[k];
      assert objs[..k + 1][..k] == objs[..k];
      if o != null && o != target {
        passed := passed + [o];
      }
    }
    assert objs[..|objs|] == objs;
    MergeSourcesMembership(target, objs);
    target.state := typeMerge(target.state, States(passed));
  }
}
