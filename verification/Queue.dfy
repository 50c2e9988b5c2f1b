/** The ring buffer of the blocking queue (runtime_threadutil.c:10-128): what happens between
    taking the mutex and giving it back, in the code's own form. */
module Queue {

  /** The fields that the critical sections read and write. */
  datatype Ring = Ring(buf: seq<int>, nextOut: nat, len: nat, unfinished: nat)

  predicate InRange(q: Ring) {
    |q.buf| > 0 && q.nextOut < |q.buf| && q.len <= |q.buf|
  }

  function Slot(q: Ring, i: nat): nat
    requires InRange(q)
  {
    if q.nextOut + i >= |q.buf| then q.nextOut + i - |q.buf| else q.nextOut + i
  }

  /** The items in the queue, the next one to be taken first. */
  function Contents(q: Ring): (s: seq<int>)
    requires InRange(q)
    ensures |s| == q.len
  {
    ContentsUpTo(q, q.len)
  }

  function ContentsUpTo(q: Ring, n: nat): (s: seq<int>)
    requires InRange(q) && n <= |q.buf|
    ensures |s| == n && forall i :: 0 <= i < n ==> s[i] == q.buf[Slot(q, i)]
  {
    if n == 0 then [] else ContentsUpTo(q, n - 1) + [q.buf[Slot(q, n - 1)]]
  }

  function PutInto(q: Ring, x: int): Ring
    requires InRange(q) && q.len < |q.buf|
  {
    q.(buf := q.buf[Slot(q, q.len) := x], len := q.len + 1, unfinished := q.unfinished + 1)
  }

  function Front(q: Ring): int
    requires InRange(q)
  {
    q.buf[q.nextOut]
  }

  function TakenFrom(q: Ring): Ring
    requires InRange(q) && q.len > 0
  {
    q.(len := q.len - 1, nextOut := if q.nextOut + 1 >= |q.buf| then 0 else q.nextOut + 1)
  }

  /** Putting adds at the back and nothing else moves, wherever the ring starts. */
  lemma {:induction false} PutAppends(q: Ring, x: int)
    requires InRange(q) && q.len < |q.buf|
    ensures InRange(PutInto(q, x)) && Contents(PutInto(q, x)) == Contents(q) + [x]
  {
    var q1 := PutInto(q, x);
    forall i | 0 <= i < q.len ensures Contents(q1)[i] == Contents(q)[i] {
      assert Slot(q, i) != Slot(q, q.len);
    }
  }

  /** Taking removes from the front. */
  lemma {:induction false} TakeRemoves(q: Ring)
    requires InRange(q) && q.len > 0
    ensures InRange(TakenFrom(q)) && Contents(q) == [Front(q)] + Contents(TakenFrom(q))
  {
    var q1 := TakenFrom(q);
    forall i | 0 < i < q.len ensures Contents(q)[i] == Contents(q1)[i - 1] {
      assert Slot(q, i) == Slot(q1, i - 1);
    }
  }

  // ----- when an operation waits and when it signals -----

  datatype Op = Put(item: int) | Get | Join

  predicate MustPark(q: Ring, op: Op) {
    match op
    case Put(_) => q.len == |q.buf|
    case Get => q.len == 0
    case Join => q.unfinished > 0
  }

  /** Whether an operation signals when it goes through. */
  predicate Signals(q: Ring, op: Op) {
    match op
    case Put(_) => q.len == 0
    case Get => q.len == |q.buf|
    case Join => false
  }

  predicate SignalsDone(q: Ring) {
    q.unfinished == 1
  }

  /** How a critical section ends: the operation went through, or the thread has to wait. */
  datatype Ending = Through(signal: bool) | MustWait

  class BlockingQueue {
    const buf: array<int>
    var nextOut: nat
    var len: nat
    var unfinishedTasks: nat

    ghost predicate Valid()
      reads this, buf
    {
      InRange(View())
    }

    function View(): Ring
      reads this, buf
    {
      Ring(buf[..], nextOut, len, unfinishedTasks)
    }

    constructor (nels: nat)
      requires nels > 0
      ensures Valid() && Contents(View()) == [] && View().unfinished == 0 && buf.Length == nels && fresh(buf)
    {
      buf := new int[nels];
      nextOut, len, unfinishedTasks := 0, 0, 0;
    }

    /** queue_put with the mutex held.  The signal is for a thread waiting for an item. */
    method Put(x: int) returns (e: Ending)
      requires Valid()
      modifies this, buf
      ensures Valid() && e.MustWait? == (old(len) == buf.Length) == MustPark(old(View()), Op.Put(x))
      ensures e.MustWait? ==> View() == old(View())
      ensures e.Through? ==>
        && Contents(View()) == Contents(old(View())) + [x] && unfinishedTasks == old(unfinishedTasks) + 1
        && View() == PutInto(old(View()), x)
        && e.signal == (Contents(old(View())) == []) == Signals(old(View()), Op.Put(x))
    {
      if len == buf.Length { return MustWait; }
      PutAppends(View(), x);
      ghost var was := View();
      var nextIn := nextOut + len;
      if nextIn >= buf.Length { nextIn := nextIn - buf.Length; }
      buf[nextIn] := x;
      e := Through(len == 0);
      len := len + 1;
      unfinishedTasks := unfinishedTasks + 1;
      assert View() == PutInto(was, x);
    }

    /** queue_get with the mutex held.  The signal is for a thread waiting for room. */
    method Get() returns (e: Ending, x: int)
      requires Valid()
      modifies this
      ensures Valid() && e.MustWait? == (old(len) == 0) == MustPark(old(View()), Op.Get)
      ensures e.MustWait? ==> View() == old(View())
      ensures e.Through? ==>
        && Contents(old(View())) == [x] + Contents(View()) && unfinishedTasks == old(unfinishedTasks)
        && View() == TakenFrom(old(View())) && x == Front(old(View()))
        && e.signal == (|Contents(old(View()))| == buf.Length) == Signals(old(View()), Op.Get)
    {
      x := 0;
      if len == 0 { return MustWait, x; }
      TakeRemoves(View());
      x := buf[nextOut];
      e := Through(len == buf.Length);
      len := len - 1;
      nextOut := nextOut + 1;
      if nextOut >= buf.Length { nextOut := 0; }
    }

    /** queue_task_done with the mutex held; the code asserts that something is unfinished. */
    method TaskDone() returns (e: Ending)
      requires Valid() && unfinishedTasks > 0
      modifies this`unfinishedTasks
      ensures Valid() && View() == old(View()).(unfinished := old(unfinishedTasks) - 1)
      ensures e == Through(unfinishedTasks == 0) == Through(SignalsDone(old(View())))
    {
      unfinishedTasks := unfinishedTasks - 1;
      e := Through(unfinishedTasks == 0);
    }

    /** queue_join with the mutex held. */
    method Join() returns (e: Ending)
      ensures e == if unfinishedTasks > 0 then MustWait else Through(false)
      ensures e.MustWait? == MustPark(View(), Op.Join) && !Signals(View(), Op.Join)
    {
      e := if unfinishedTasks > 0 then MustWait else Through(false);
    }
  }
}
