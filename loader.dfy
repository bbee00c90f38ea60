/**
 * Batch asset loader (src/loader.rs).
 *
 * A `Loader` counts the requests of one batch that are not yet resolved and
 * keeps two queues: the paths enqueued but not yet handed to the asset server
 * (`requestQueue`) and the handles the asset server is still loading
 * (`workQueue`). Each `Tick` first drops the work-queue handles that have
 * resolved, then dispatches every queued path.
 *
 * The asset server is an oracle: one `AssetSource` value is a snapshot of what
 * the server answers during one tick.
 */
module Loader {

  /** What the asset server reports for a handle (Bevy's `LoadState`). */
  datatype LoadState = NotLoaded | Loading | Loaded | Failed

  /** An untyped asset handle; handles are compared by identity. */
  datatype Handle = Handle(id: nat)

  /**
   * The asset server as seen during one tick: `handleOf` is `load_untyped`
   * (a path always yields a handle) and `stateOf` is `get_load_state`.
   */
  datatype AssetSource = AssetSource(handleOf: string -> Handle, stateOf: Handle -> LoadState)

  /** A load has reached a terminal state; failure counts as resolved and is never retried. */
  predicate IsResolved(s: LoadState) {
    s == Loaded || s == Failed
  }

  /**
   * The handles of `hs` that `src` does not report as resolved, in their
   * original relative order.
   */
  function Unresolved(hs: seq<Handle>, src: AssetSource): (r: seq<Handle>)
    ensures |r| <= |hs|
  {
    if hs == [] then []
    else
      var init := hs[..|hs| - 1];
      var last := hs[|hs| - 1];
      if IsResolved(src.stateOf(last)) then Unresolved(init, src) else Unresolved(init, src) + [last]
  }

  /**
   * The filter keeps exactly the unresolved handles: whatever it keeps was in
   * the queue and unresolved, and every unresolved handle of the queue is kept.
   */
  lemma {:induction false} UnresolvedMembers(hs: seq<Handle>, src: AssetSource)
    ensures forall h :: h in Unresolved(hs, src) <==> h in hs && !IsResolved(src.stateOf(h))
  {
    if hs != [] {
      var init := hs[..|hs| - 1];
      UnresolvedMembers(init, src);
      assert hs == init + [hs[|hs| - 1]];
    }
  }

  /** Extending a prefix by one handle extends its filtered form by that handle or by nothing. */
  lemma UnresolvedSnoc(hs: seq<Handle>, k: nat, src: AssetSource)
    requires k < |hs|
    ensures Unresolved(hs[..k + 1], src)
         == Unresolved(hs[..k], src) + (if IsResolved(src.stateOf(hs[k])) then [] else [hs[k]])
  {
    assert hs[..k + 1][..k] == hs[..k];
  }

  /**
   * One step of the in-place filter: with the first `j` handles of `w0`
   * filtered into `wq[..i]`, handle `wq[i]` is `w0[j]`, and either removing
   * it (when resolved) or stepping over it filters the first `j + 1`.
   */
  lemma DropStep(wq: seq<Handle>, w0: seq<Handle>, i: nat, j: nat, src: AssetSource)
    requires j < |w0|
    requires wq == Unresolved(w0[..j], src) + w0[j..]
    requires i == |Unresolved(w0[..j], src)|
    ensures i < |wq| && wq[i] == w0[j]
    ensures IsResolved(src.stateOf(w0[j])) ==>
              && wq[..i] + wq[i + 1..] == Unresolved(w0[..j + 1], src) + w0[j + 1..]
              && i == |Unresolved(w0[..j + 1], src)|
    ensures !IsResolved(src.stateOf(w0[j])) ==>
              && wq == Unresolved(w0[..j + 1], src) + w0[j + 1..]
              && i + 1 == |Unresolved(w0[..j + 1], src)|
  {
    UnresolvedSnoc(w0, j, src);
    var u := Unresolved(w0[..j], src);
    assert w0[j..] == [w0[j]] + w0[j + 1..];
    assert wq == u + [w0[j]] + w0[j + 1..];
    if IsResolved(src.stateOf(w0[j])) {
      assert wq[..i] == u;
      assert wq[i + 1..] == w0[j + 1..];
    }
  }

  /** The handles the asset server hands out for `paths`, in order. */
  function Handles(paths: seq<string>, src: AssetSource): (r: seq<Handle>)
    ensures |r| == |paths|
    ensures forall k :: 0 <= k < |paths| ==> r[k] == src.handleOf(paths[k])
  {
    if paths == [] then [] else Handles(paths[..|paths| - 1], src) + [src.handleOf(paths[|paths| - 1])]
  }

  /** The work queue after one tick that starts from `work` and `requests`. */
  function TickedWork(work: seq<Handle>, requests: seq<string>, src: AssetSource): seq<Handle> {
    Unresolved(work, src) + Unresolved(Handles(requests, src), src)
  }

  class Loader {
    /** Number of enqueued requests not yet resolved (`AtomicUsize`). */
    var count: nat
    /** Paths enqueued but not yet dispatched. */
    var requestQueue: seq<string>
    /** Handles dispatched and still loading. */
    var workQueue: seq<Handle>

    /** Every pending request is either queued or in flight. */
    ghost predicate Valid()
      reads this
    {
      count == |requestQueue| + |workQueue|
    }

    constructor ()
      ensures Valid()
      ensures count == 0 && requestQueue == [] && workQueue == []
    {
      count := 0;
      requestQueue := [];
      workQueue := [];
    }

    /** The requests still outstanding. */
    function PendingCount(): (r: nat)
      reads this
      requires Valid()
      ensures r == |requestQueue| + |workQueue|
    {
      count
    }

    /** No request is outstanding. */
    function IsEmpty(): (r: bool)
      reads this
      requires Valid()
      ensures r <==> PendingCount() == 0
      ensures r <==> requestQueue == [] && workQueue == []
    {
      PendingCount() == 0
    }

    /** The batch is complete: the same test as `IsEmpty`. */
    function IsDone(): (r: bool)
      reads this
      requires Valid()
      ensures r == IsEmpty()
      ensures r <==> requestQueue == [] && workQueue == []
    {
      IsEmpty()
    }

    /** Records the intent to load `path`; nothing is dispatched until the next tick. */
    method Enqueue(path: string)
      requires Valid()
      modifies this
      ensures Valid()
      ensures requestQueue == old(requestQueue) + [path]
      ensures workQueue == old(workQueue)
      ensures count == old(count) + 1
    {
      requestQueue := requestQueue + [path];
      count := count + 1;
    }

    /**
     * Drops the resolved handles of the work queue, then swaps out the request
     * queue and dispatches each of its paths: an unresolved one joins the work
     * queue, a resolved one is counted off at once. The count never underflows
     * because `Valid()` holds throughout.
     */
    method Tick(src: AssetSource)
      requires Valid()
      modifies this
      ensures Valid()
      ensures requestQueue == []
      ensures workQueue == TickedWork(old(workQueue), old(requestQueue), src)
      ensures count == old(count)
                       - (|old(workQueue)| - |Unresolved(old(workQueue), src)|)
                       - (|old(requestQueue)| - |Unresolved(Handles(old(requestQueue), src), src)|)
    {
      DropResolved(src);
      // Swap the request queue out, then dispatch what it held.
      var requests := requestQueue;
      requestQueue := [];
      Dispatch(requests, src);
    }

    /** Phase 1 of a tick: removes resolved handles in place, one decrement each. */
    method DropResolved(src: AssetSource)
      requires Valid()
      modifies this
      ensures Valid()
      ensures requestQueue == old(requestQueue)
      ensures workQueue == Unresolved(old(workQueue), src)
    {
      ghost var w0 := workQueue;
      var i := 0;
      ghost var j := 0;
      while i < |workQueue|
        invariant 0 <= i <= j <= |w0|
        invariant requestQueue == old(requestQueue)
        invariant workQueue == Unresolved(w0[..j], src) + w0[j..]
        invariant i == |Unresolved(w0[..j], src)|
        invariant count == |requestQueue| + |workQueue|
        decreases |w0| - j
      {
        DropStep(workQueue, w0, i, j, src);
        if IsResolved(src.stateOf(workQueue[i])) {
          workQueue := workQueue[..i] + workQueue[i + 1..];
          count := count - 1;
        } else {
          i := i + 1;
        }
        j := j + 1;
      }
      assert w0[..j] == w0;
    }

    /**
     * Phase 2 of a tick: hands each of `requests` to the asset server; an
     * unresolved handle joins the work queue, a resolved one is counted off.
     */
    method Dispatch(requests: seq<string>, src: AssetSource)
      requires count == |requests| + |requestQueue| + |workQueue|
      modifies this
      ensures Valid()
      ensures requestQueue == old(requestQueue)
      ensures workQueue == old(workQueue) + Unresolved(Handles(requests, src), src)
    {
      ghost var hs := Handles(requests, src);
      for k := 0 to |requests|
        invariant requestQueue == old(requestQueue)
        invariant workQueue == old(workQueue) + Unresolved(hs[..k], src)
        invariant count == (|requests| - k) + |requestQueue| + |workQueue|
      {
        UnresolvedSnoc(hs, k, src);
        var handle := src.handleOf(requests[k]);
        match src.stateOf(handle)
        case NotLoaded | Loading =>
          workQueue := workQueue + [handle];
        case Loaded | Failed =>
          count := count - 1;
      }
      assert hs[..|requests|] == hs;
    }
  }

  /** Filtering distributes over concatenation, so a tick keeps the queue order. */
  lemma {:induction false} UnresolvedAppend(a: seq<Handle>, b: seq<Handle>, src: AssetSource)
    ensures Unresolved(a + b, src) == Unresolved(a, src) + Unresolved(b, src)
  {
    if b == [] {
      assert a + b == a;
    } else {
      var b' := b[..|b| - 1];
      assert (a + b)[..|a + b| - 1] == a + b';
      UnresolvedAppend(a, b', src);
    }
  }

  /** Filtering twice is filtering once: a surviving handle is never dropped by the same snapshot. */
  lemma {:induction false} UnresolvedIdempotent(hs: seq<Handle>, src: AssetSource)
    ensures Unresolved(Unresolved(hs, src), src) == Unresolved(hs, src)
  {
    if hs != [] {
      var init := hs[..|hs| - 1];
      var last := hs[|hs| - 1];
      UnresolvedIdempotent(init, src);
      if !IsResolved(src.stateOf(last)) {
        UnresolvedAppend(Unresolved(init, src), [last], src);
        assert Unresolved([last], src) == [last] by {
          assert [last][..0] == [];
        }
      }
    }
  }

  /**
   * Only whether a state is resolved matters: two snapshots that agree on
   * which handles are resolved filter alike, so `Failed` is handled exactly
   * like `Loaded`.
   */
  lemma {:induction false} UnresolvedDependsOnlyOnResolution(hs: seq<Handle>, s1: AssetSource, s2: AssetSource)
    requires forall h :: h in hs ==> (IsResolved(s1.stateOf(h)) <==> IsResolved(s2.stateOf(h)))
    ensures Unresolved(hs, s1) == Unresolved(hs, s2)
  {
    if hs != [] {
      var init := hs[..|hs| - 1];
      assert forall h :: h in init ==> h in hs;
      UnresolvedDependsOnlyOnResolution(init, s1, s2);
    }
  }

  /** A snapshot that reports every handle as Failed ticks exactly like one reporting Loaded. */
  lemma FailedTicksLikeLoaded(work: seq<Handle>, requests: seq<string>, handleOf: string -> Handle)
    ensures TickedWork(work, requests, AssetSource(handleOf, _ => Failed))
         == TickedWork(work, requests, AssetSource(handleOf, _ => Loaded))
         == []
  {
    var failed := AssetSource(handleOf, _ => Failed);
    var loaded := AssetSource(handleOf, _ => Loaded);
    var hs := Handles(requests, failed);
    assert hs == Handles(requests, loaded);
    UnresolvedDependsOnlyOnResolution(work, failed, loaded);
    UnresolvedDependsOnlyOnResolution(hs, failed, loaded);
    UnresolvedAllResolved(work, loaded);
    UnresolvedAllResolved(hs, loaded);
  }

  /** When the snapshot reports every handle resolved, nothing survives the filter. */
  lemma {:induction false} UnresolvedAllResolved(hs: seq<Handle>, src: AssetSource)
    requires forall h :: h in hs ==> IsResolved(src.stateOf(h))
    ensures Unresolved(hs, src) == []
  {
    if hs != [] {
      var init := hs[..|hs| - 1];
      assert forall h :: h in init ==> h in hs;
      UnresolvedAllResolved(init, src);
    }
  }

  /** When no handle is resolved, the work queue is kept whole and every request joins it. */
  lemma {:induction false} UnresolvedNoneResolved(hs: seq<Handle>, src: AssetSource)
    requires forall h :: h in hs ==> !IsResolved(src.stateOf(h))
    ensures Unresolved(hs, src) == hs
  {
    if hs != [] {
      var init := hs[..|hs| - 1];
      assert forall h :: h in init ==> h in hs;
      UnresolvedNoneResolved(init, src);
      assert init + [hs[|hs| - 1]] == hs;
    }
  }

  /**
   * Two ticks under one unchanged snapshot: the second tick resolves nothing
   * new, so its work queue equals the first one's.
   */
  lemma SecondTickUnderSameSnapshotIsStable(work: seq<Handle>, requests: seq<string>, src: AssetSource)
    ensures TickedWork(TickedWork(work, requests, src), [], src) == TickedWork(work, requests, src)
  {
    var w := TickedWork(work, requests, src);
    assert Handles([], src) == [];
    assert Unresolved([], src) == [];
    UnresolvedAppend(Unresolved(work, src), Unresolved(Handles(requests, src), src), src);
    UnresolvedIdempotent(work, src);
    UnresolvedIdempotent(Handles(requests, src), src);
    assert w + [] == w;
  }

  /** With both queues empty, a tick leaves the work queue empty whatever the asset server says. */
  lemma TickOnIdleLoaderChangesNothing(src: AssetSource)
    ensures TickedWork([], [], src) == []
  {
    assert Handles([], src) == [];
  }

  /** A fresh loader has nothing pending and is empty. */
  method FreshLoader() returns (pending: nat, empty: bool)
    ensures pending == 0 && empty
  {
    var loader := new Loader();
    pending := loader.PendingCount();
    empty := loader.IsEmpty();
  }

  /** A fresh loader given one path has exactly one request pending. */
  method EnqueueOnFreshLoader() returns (pending: nat, empty: bool)
    ensures pending == 1 && !empty
  {
    var loader := new Loader();
    loader.Enqueue("dummy");
    pending := loader.PendingCount();
    empty := loader.IsEmpty();
  }
}
