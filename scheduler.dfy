/** The deferred-execution scheduler (`DelayScheduler`): a binary min-heap of
    timer entries ordered by due time, kept in an array as `heapq` keeps it in
    a list, plus a shutdown flag. The background loop is modelled one
    iteration at a time by `Step(now)`, with the clock passed in; callbacks
    are opaque task ids. */
module Scheduler {

  /** Names the callback (with its arguments) an entry will run. */
  type TaskId = nat

  /** `(run_at, fn, args, kwargs)`. */
  datatype Entry = Entry(runAt: int, task: TaskId)

  /** What one iteration of the loop does: keep waiting, leave the loop, or
      pop an entry and run its callback. */
  datatype Action = Wait | Stop | Fire(entry: Entry)

  /** Entry `i` (not the root) is due no earlier than its parent at `(i - 1) / 2`. */
  ghost predicate EdgeOk(s: seq<Entry>, i: int)
  {
    0 < i < |s| && s[(i - 1) / 2].runAt <= s[i].runAt
  }

  ghost predicate IsHeap(s: seq<Entry>)
  {
    forall i :: 0 < i < |s| ==> EdgeOk(s, i)
  }

  /** `e` is pending and nothing pending is due before it. */
  ghost predicate IsEarliest(e: Entry, pending: multiset<Entry>)
  {
    e in pending && forall x | x in pending :: e.runAt <= x.runAt
  }

  lemma {:induction false} RootNoLater(s: seq<Entry>, i: int)
    requires IsHeap(s) && 0 <= i < |s|
    ensures s[0].runAt <= s[i].runAt
    decreases i
  {
    if i > 0 {
      assert EdgeOk(s, i);
      RootNoLater(s, (i - 1) / 2);
    }
  }

  /** The root of a heap is an earliest entry, which is what `heap[0]` is
      read for. */
  lemma HeapRootIsEarliest(s: seq<Entry>)
    requires IsHeap(s) && |s| > 0
    ensures IsEarliest(s[0], multiset(s))
  {
    forall x | x in multiset(s) ensures s[0].runAt <= x.runAt {
      var i :| 0 <= i < |s| && s[i] == x;
      RootNoLater(s, i);
    }
  }

  /** `k`'s parent is due no later than `k`'s children. */
  ghost predicate GrandparentOk(s: seq<Entry>, k: int)
  {
    0 < k < |s| ==>
      && (2 * k + 1 < |s| ==> s[(k - 1) / 2].runAt <= s[2 * k + 1].runAt)
      && (2 * k + 2 < |s| ==> s[(k - 1) / 2].runAt <= s[2 * k + 2].runAt)
  }

  /** Heap order holds on every edge except the one into `k` (the state of
      sift-up). */
  ghost predicate HeapExceptUp(s: seq<Entry>, k: int)
  {
    && (forall i :: 0 < i < |s| && i != k ==> EdgeOk(s, i))
    && GrandparentOk(s, k)
  }

  /** Heap order holds on every edge except those out of `k` (the state of
      sift-down). */
  ghost predicate HeapExceptDown(s: seq<Entry>, k: int)
  {
    && (forall i :: 0 < i < |s| && (i - 1) / 2 != k ==> EdgeOk(s, i))
    && GrandparentOk(s, k)
  }

  /** A non-root position is one of its parent's two children. */
  lemma ChildOfParent(i: int)
    requires i > 0
    ensures i == 2 * ((i - 1) / 2) + 1 || i == 2 * ((i - 1) / 2) + 2
  {
  }

  function Swap(s: seq<Entry>, i: int, j: int): (r: seq<Entry>)
    requires 0 <= i < |s| && 0 <= j < |s|
    ensures |r| == |s| && multiset(r) == multiset(s)
    ensures r[i] == s[j] && r[j] == s[i]
    ensures forall m :: 0 <= m < |s| && m != i && m != j ==> r[m] == s[m]
  {
    s[i := s[j]][j := s[i]]
  }

  /** Appending to a heap leaves at most the new edge out of order. */
  lemma AppendIsHeapExceptUp(s: seq<Entry>, e: Entry)
    requires IsHeap(s)
    ensures HeapExceptUp(s + [e], |s|)
  {
    var t := s + [e];
    forall i | 0 < i < |t| && i != |s| ensures EdgeOk(t, i) {
      assert EdgeOk(s, i);
    }
  }

  /** Moving the last entry of a heap to the root removes the root and
      leaves at most the edges out of the root out of order. */
  lemma MoveLastToRootIsHeapExceptDown(s: seq<Entry>)
    requires IsHeap(s) && |s| >= 2
    ensures HeapExceptDown(s[..|s| - 1][0 := s[|s| - 1]], 0)
    ensures multiset(s[..|s| - 1][0 := s[|s| - 1]]) == multiset(s) - multiset{s[0]}
  {
    var t := s[..|s| - 1][0 := s[|s| - 1]];
    forall i | 0 < i < |t| && (i - 1) / 2 != 0 ensures EdgeOk(t, i) {
      assert EdgeOk(s, i);
    }
    assert s == [s[0]] + s[1..|s| - 1] + [s[|s| - 1]];
    assert t == [s[|s| - 1]] + s[1..|s| - 1];
  }

  /** Moving an entry that is earlier than its parent one level up keeps the
      sift-up state, one level higher. */
  lemma SiftUpStep(s: seq<Entry>, k: int)
    requires 0 < k < |s| && HeapExceptUp(s, k)
    requires s[k].runAt < s[(k - 1) / 2].runAt
    ensures HeapExceptUp(Swap(s, k, (k - 1) / 2), (k - 1) / 2)
  {
    var p := (k - 1) / 2;
    var r := Swap(s, k, p);
    SiftUpStepEdges(s, k, p);
    if 0 < p {
      assert EdgeOk(s, p);
      assert 2 * p + 1 < |r| ==> 2 * p + 1 == k || EdgeOk(s, 2 * p + 1);
      assert 2 * p + 2 < |r| ==> 2 * p + 2 == k || EdgeOk(s, 2 * p + 2);
    }
  }

  /** The edge part of `SiftUpStep`: after the swap every edge but the one
      into the parent is in order. */
  lemma SiftUpStepEdges(s: seq<Entry>, k: int, p: int)
    requires 0 < k < |s| && p == (k - 1) / 2 && HeapExceptUp(s, k)
    requires s[k].runAt < s[p].runAt
    ensures forall i :: 0 < i < |s| && i != p ==> EdgeOk(Swap(s, k, p), i)
  {
    var r := Swap(s, k, p);
    ChildOfParent(k);
    forall i | 0 < i < |r| && i != p ensures EdgeOk(r, i) {
      if i != k {
        assert EdgeOk(s, i);
        ChildOfParent(i);
      }
    }
  }

  /** Swapping an entry with its earliest child, when that child is earlier,
      keeps the sift-down state, one level lower. */
  lemma SiftDownStep(s: seq<Entry>, k: int, c: int)
    requires 0 <= k && (c == 2 * k + 1 || c == 2 * k + 2) && c < |s| && HeapExceptDown(s, k)
    requires 2 * k + 1 < |s| ==> s[c].runAt <= s[2 * k + 1].runAt
    requires 2 * k + 2 < |s| ==> s[c].runAt <= s[2 * k + 2].runAt
    requires s[c].runAt < s[k].runAt
    ensures HeapExceptDown(Swap(s, k, c), c)
  {
    var r := Swap(s, k, c);
    forall i | 0 < i < |r| && (i - 1) / 2 != c ensures EdgeOk(r, i) {
      ChildOfParent(i);
      if (i - 1) / 2 != k { assert EdgeOk(s, i); }
    }
    assert 2 * c + 1 < |r| ==> EdgeOk(s, 2 * c + 1);
    assert 2 * c + 2 < |r| ==> EdgeOk(s, 2 * c + 2);
  }

  /** When `k`'s children are no earlier than `k`, sift-down is done. */
  lemma SiftDownDone(s: seq<Entry>, k: int)
    requires 0 <= k < |s| && HeapExceptDown(s, k)
    requires 2 * k + 1 < |s| ==> s[k].runAt <= s[2 * k + 1].runAt
    requires 2 * k + 2 < |s| ==> s[k].runAt <= s[2 * k + 2].runAt
    ensures IsHeap(s)
  {
    forall i | 0 < i < |s| ensures EdgeOk(s, i) {
      ChildOfParent(i);
    }
  }

  /** When `k` is the root or no earlier than its parent, sift-up is done. */
  lemma SiftUpDone(s: seq<Entry>, k: int)
    requires 0 <= k < |s| && HeapExceptUp(s, k)
    requires k > 0 ==> s[(k - 1) / 2].runAt <= s[k].runAt
    ensures IsHeap(s)
  {
    forall i | 0 < i < |s| ensures EdgeOk(s, i) {
    }
  }

  /** `heapq._siftdown`: move the entry at `k` up while it is due before its
      parent. */
  method SiftUp(heap: array<Entry>, size: int, k0: int)
    requires size <= heap.Length && 0 <= k0 < size
    requires HeapExceptUp(heap[..size], k0)
    modifies heap
    ensures IsHeap(heap[..size])
    ensures multiset(heap[..size]) == old(multiset(heap[..size]))
  {
    var k := k0;
    while k > 0 && heap[(k - 1) / 2].runAt > heap[k].runAt
      invariant 0 <= k < size
      invariant HeapExceptUp(heap[..size], k)
      invariant multiset(heap[..size]) == old(multiset(heap[..size]))
    {
      var p := (k - 1) / 2;
      ghost var s := heap[..size];
      SiftUpStep(s, k);
      heap[k], heap[p] := heap[p], heap[k];
      assert heap[..size] == Swap(s, k, p);
      k := p;
    }
    SiftUpDone(heap[..size], k);
  }

  /** Sift-down from `k`: swap the entry with its earlier child while that
      child is due before it. */
  method SiftDown(heap: array<Entry>, size: int, k0: int)
    requires size <= heap.Length && 0 <= k0 < size
    requires HeapExceptDown(heap[..size], k0)
    modifies heap
    ensures IsHeap(heap[..size])
    ensures multiset(heap[..size]) == old(multiset(heap[..size]))
  {
    var k := k0;
    while true
      invariant 0 <= k < size
      invariant HeapExceptDown(heap[..size], k)
      invariant multiset(heap[..size]) == old(multiset(heap[..size]))
      decreases size - k
    {
      var left := 2 * k + 1;
      if left >= size {
        SiftDownDone(heap[..size], k);
        return;
      }
      var c := if left + 1 < size && !(heap[left].runAt < heap[left + 1].runAt) then left + 1 else left;
      if heap[k].runAt <= heap[c].runAt {
        SiftDownDone(heap[..size], k);
        return;
      }
      ghost var s := heap[..size];
      SiftDownStep(s, k, c);
      heap[k], heap[c] := heap[c], heap[k];
      assert heap[..size] == Swap(s, k, c);
      k := c;
    }
  }

  /** Store `e` in the first free slot after `heap[..size]`. */
  method Place(heap: array<Entry>, size: int, e: Entry)
    requires 0 <= size < heap.Length
    modifies heap
    ensures heap[..size + 1] == old(heap[..size]) + [e]
    ensures multiset(heap[..size + 1]) == old(multiset(heap[..size])) + multiset{e}
  {
    heap[size] := e;
    assert heap[..size + 1] == old(heap[..size]) + [e];
  }

  /** Add `e` to the heap `heap[..size]`, which has a free slot after it:
      store it there and let it rise. */
  method AddEntry(heap: array<Entry>, size: int, e: Entry)
    requires 0 <= size < heap.Length && IsHeap(heap[..size])
    modifies heap
    ensures IsHeap(heap[..size + 1])
    ensures multiset(heap[..size + 1]) == old(multiset(heap[..size])) + multiset{e}
  {
    ghost var s := heap[..size];
    Place(heap, size, e);
    AppendIsHeapExceptUp(s, e);
    SiftUp(heap, size + 1, size);
  }

  /** Remove the root of the heap `heap[..size]`: the last entry takes its
      place and sinks, leaving a heap of `size - 1` entries. */
  method TakeRoot(heap: array<Entry>, size: int) returns (e: Entry)
    requires 0 < size <= heap.Length && IsHeap(heap[..size])
    modifies heap
    ensures IsEarliest(e, old(multiset(heap[..size])))
    ensures IsHeap(heap[..size - 1])
    ensures multiset(heap[..size - 1]) == old(multiset(heap[..size])) - multiset{e}
  {
    ghost var s := heap[..size];
    HeapRootIsEarliest(s);
    var last := heap[size - 1];
    if size > 1 {
      e := heap[0];
      heap[0] := last;
      assert heap[..size - 1] == s[..size - 1][0 := last];
      MoveLastToRootIsHeapExceptDown(s);
      SiftDown(heap, size - 1, 0);
    } else {
      e := last;
      assert s == [e];
    }
  }

  class DelayScheduler {
    /** `heap[..size]` is the pending list; the rest is spare capacity. */
    var heap: array<Entry>
    var size: nat
    var shutdown: bool
    /** The entries waiting to fire. */
    ghost var pending: multiset<Entry>

    ghost predicate Valid()
      reads this, heap
    {
      size <= heap.Length && IsHeap(heap[..size]) && pending == multiset(heap[..size])
    }

    constructor ()
      ensures Valid() && fresh(heap) && heap.Length == 16 && size == 0
      ensures pending == multiset{} && !shutdown
    {
      heap := new Entry[16];
      size := 0;
      shutdown := false;
      pending := multiset{};
    }

    /** Replace a full backing array by a larger copy. */
    method Grow()
      requires size <= heap.Length
      modifies this`heap
      ensures fresh(heap) && size < heap.Length
      ensures heap[..size] == old(heap[..size])
    {
      var bigger := new Entry[2 * heap.Length + 1];
      forall i | 0 <= i < size {
        bigger[i] := heap[i];
      }
      heap := bigger;
    }

    /** `heapq.heappush`: append, then sift the new entry up. */
    method Push(e: Entry)
      requires Valid()
      modifies this`heap, this`size, this`pending, heap
      ensures Valid() && (heap == old(heap) || fresh(heap))
      ensures old(size) < old(heap.Length) ==> heap == old(heap)
      ensures size == old(size) + 1
      ensures pending == old(pending) + multiset{e}
    {
      if size == heap.Length {
        Grow();
      }
      assert IsHeap(heap[..size]) && pending == multiset(heap[..size]);
      AddEntry(heap, size, e);
      size := size + 1;
      pending := pending + multiset{e};
    }

    /** `heapq.heappop` on a non-empty heap: take the root, put the last entry
        in its place and sift it down. */
    method Pop() returns (e: Entry)
      requires Valid() && size > 0
      modifies this`size, this`pending, heap
      ensures Valid()
      ensures IsEarliest(e, old(pending))
      ensures pending == old(pending) - multiset{e}
    {
      e := TakeRoot(heap, size);
      size := size - 1;
      pending := pending - multiset{e};
    }

    /** `call_later`: after shutdown nothing happens; otherwise one entry due
        at `now + delay` joins the pending entries. */
    method CallLater(now: int, delay: int, task: TaskId)
      requires Valid()
      modifies this`heap, this`size, this`pending, heap
      ensures Valid() && (heap == old(heap) || fresh(heap)) && shutdown == old(shutdown)
      ensures old(size) < old(heap.Length) ==> heap == old(heap)
      ensures size == old(size) + (if old(shutdown) then 0 else 1)
      ensures old(shutdown) ==> pending == old(pending)
      ensures !old(shutdown) ==> pending == old(pending) + multiset{Entry(now + delay, task)}
    {
      if shutdown {
        return;
      }
      Push(Entry(now + delay, task));
    }

    /** One iteration of `_run` at time `now`. After shutdown it stops and
        fires nothing; otherwise it waits while nothing pending is due, and
        else removes an earliest pending entry, which is due, and fires it. */
    method Step(now: int) returns (action: Action)
      requires Valid()
      modifies this`size, this`pending, heap
      ensures Valid()
      ensures action == Stop <==> shutdown
      ensures action == Wait <==> !shutdown && forall e | e in old(pending) :: e.runAt > now
      ensures !action.Fire? ==> pending == old(pending)
      ensures action.Fire? ==> action.entry.runAt <= now && IsEarliest(action.entry, old(pending))
      ensures action.Fire? ==> pending == old(pending) - multiset{action.entry}
    {
      if shutdown {
        return Stop;
      }
      if size == 0 {
        return Wait;
      }
      HeapRootIsEarliest(heap[..size]);
      if heap[0].runAt > now {
        return Wait;
      }
      var e := Pop();
      action := Fire(e);
    }

    /** `shutdown`: raise the flag; pending entries stay where they are and
        will never fire. */
    method Shutdown()
      requires Valid()
      modifies this`shutdown
      ensures Valid() && shutdown
    {
      shutdown := true;
    }
  }

  /** Entries fired one after another from `pending`, each an earliest of
      what is then pending and removed before the next, leaving `left`:
      what successive `Step`s that fire promise, each by its own
      postcondition (see `RunDue`). */
  ghost predicate FiredInTurn(pending: multiset<Entry>, fired: seq<Entry>, left: multiset<Entry>)
    decreases |fired|
  {
    if fired == [] then left == pending
    else IsEarliest(fired[0], pending) && FiredInTurn(pending - multiset{fired[0]}, fired[1..], left)
  }

  /** Successive fires with no insertion in between come in non-decreasing
      due-time order, and fire exactly the entries that are no longer
      pending. */
  lemma {:induction false} FiredInTurnIsOrdered(pending: multiset<Entry>, fired: seq<Entry>, left: multiset<Entry>)
    requires FiredInTurn(pending, fired, left)
    ensures forall i, j :: 0 <= i < j < |fired| ==> fired[i].runAt <= fired[j].runAt
    ensures multiset(fired) + left == pending
    decreases |fired|
  {
    if fired != [] {
      var rest := pending - multiset{fired[0]};
      FiredInTurnIsOrdered(rest, fired[1..], left);
      assert fired == [fired[0]] + fired[1..];
      forall j | 0 < j < |fired| ensures fired[0].runAt <= fired[j].runAt {
        assert fired[j] in multiset(fired[1..]);
      }
    }
  }

  /** Firing one more earliest entry of what is left extends a run. */
  lemma {:induction false} FiredInTurnAppend(pending: multiset<Entry>, fired: seq<Entry>, left: multiset<Entry>, e: Entry)
    requires FiredInTurn(pending, fired, left)
    requires IsEarliest(e, left)
    ensures FiredInTurn(pending, fired + [e], left - multiset{e})
    decreases |fired|
  {
    if fired == [] {
      assert [e][1..] == [];
    } else {
      FiredInTurnAppend(pending - multiset{fired[0]}, fired[1..], left, e);
      assert (fired + [e])[0] == fired[0] && (fired + [e])[1..] == fired[1..] + [e];
    }
  }

  /** Iterations of `_run` at one time `now`, with nothing scheduled in
      between: entries fire until the loop waits or stops. What fires is
      a run in the sense of `FiredInTurn`, hence in due-time order. */
  method RunDue(s: DelayScheduler, now: int) returns (fired: seq<Entry>, last: Action)
    requires s.Valid()
    modifies s`size, s`pending, s.heap
    ensures s.Valid() && s.shutdown == old(s.shutdown)
    ensures FiredInTurn(old(s.pending), fired, s.pending)
    ensures forall i, j :: 0 <= i < j < |fired| ==> fired[i].runAt <= fired[j].runAt
    ensures forall e | e in fired :: e.runAt <= now
    ensures last == Stop <==> s.shutdown
    ensures last == Wait <==> !s.shutdown && forall e | e in s.pending :: e.runAt > now
    ensures !last.Fire?
  {
    fired := [];
    while true
      invariant s.Valid() && s.shutdown == old(s.shutdown)
      invariant FiredInTurn(old(s.pending), fired, s.pending)
      invariant forall e | e in fired :: e.runAt <= now
      decreases |s.pending|
    {
      ghost var left := s.pending;
      var a := s.Step(now);
      if !a.Fire? {
        last := a;
        FiredInTurnIsOrdered(old(s.pending), fired, s.pending);
        return;
      }
      FiredInTurnAppend(old(s.pending), fired, left, a.entry);
      fired := fired + [a.entry];
    }
  }

  /** Of pending entries with distinct due times, only the one due first
      can be earliest. */
  lemma OnlyFirstDueIsEarliest(e: Entry, first: Entry, rest: multiset<Entry>)
    requires IsEarliest(e, rest + multiset{first})
    requires forall y | y in rest :: first.runAt < y.runAt
    ensures e == first
  {
  }

  /** A scheduler, created at time 0, holding entries due 3, 1 and 2 time
      units ahead. */
  method ScheduleThree() returns (s: DelayScheduler)
    ensures fresh(s) && fresh(s.heap) && s.Valid() && !s.shutdown
    ensures s.pending == multiset{Entry(2, 12), Entry(3, 10)} + multiset{Entry(1, 11)}
  {
    s := new DelayScheduler();
    s.CallLater(0, 3, 10);
    s.CallLater(0, 1, 11);
    s.CallLater(0, 2, 12);
  }

  /** When one pending entry is due strictly before all the others and is
      due by `now`, a step fires exactly that entry. */
  method StepFiresFirst(s: DelayScheduler, now: int, first: Entry, rest: multiset<Entry>)
    returns (a: Action)
    requires s.Valid() && !s.shutdown
    requires s.pending == multiset{first} + rest
    requires first.runAt <= now && forall y | y in rest :: first.runAt < y.runAt
    modifies s`size, s`pending, s.heap
    ensures s.Valid() && !s.shutdown && s.pending == rest
    ensures a == Fire(first)
  {
    a := s.Step(now);
    OnlyFirstDueIsEarliest(a.entry, first, rest);
  }

  /** At time 5 the three entries due at 1, 2 and 3 fire one per step in
      due-time order. */
  method DrainAtFive(s: DelayScheduler) returns (fired: seq<Entry>)
    requires s.Valid() && !s.shutdown
    requires s.pending == multiset{Entry(2, 12), Entry(3, 10)} + multiset{Entry(1, 11)}
    modifies s`size, s`pending, s.heap
    ensures fired == [Entry(1, 11), Entry(2, 12), Entry(3, 10)]
    ensures s.Valid() && !s.shutdown && s.pending == multiset{}
  {
    var e1, e2, e3 := Entry(1, 11), Entry(2, 12), Entry(3, 10);
    var a := StepFiresFirst(s, 5, e1, multiset{e2, e3});
    var b := StepFiresFirst(s, 5, e2, multiset{e3});
    var c := StepFiresFirst(s, 5, e3, multiset{});
    fired := [a.entry, b.entry, c.entry];
  }

  /** Entries scheduled 3, 1 and 2 time units ahead do not fire at time 0,
      fire in the order 1, 2, 3 at time 5, and then the loop waits. */
  method FiresByDueTime() returns (early: Action, fired: seq<Entry>, last: Action)
    ensures early == Wait
    ensures fired == [Entry(1, 11), Entry(2, 12), Entry(3, 10)] && last == Wait
  {
    var s := ScheduleThree();
    early := s.Step(0);
    fired := DrainAtFive(s);
    last := s.Step(5);
  }

  /** After shutdown a new entry is dropped and the loop stops, firing
      nothing. */
  method ShutdownDropsEntries() returns (s: DelayScheduler, a: Action)
    ensures s.Valid() && s.shutdown
    ensures a == Stop && s.pending == multiset{Entry(1, 10)}
  {
    s := new DelayScheduler();
    s.CallLater(0, 1, 10);
    assert s.pending == multiset{Entry(1, 10)};
    s.Shutdown();
    s.CallLater(0, 0, 11);
    a := s.Step(5);
  }
}
