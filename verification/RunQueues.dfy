/**
  The per-CPU run queue of `kernel/src/cpu/sched.rs`: a priority queue that keeps enqueue order
  among equals and lets blocked processes stay in line.
*/
module RunQueues {
  import opened Wrappers

  /** A queued process; `stamp` numbers the enqueue operations of its queue and decides nothing. */
  datatype Proc = Proc(pid: nat, priority: nat, affinity: Option<nat>, stamp: nat)

  /** Higher priority first, earlier enqueued first among equals. */
  predicate Before(a: Proc, b: Proc) {
    a.priority > b.priority || (a.priority == b.priority && a.stamp < b.stamp)
  }

  ghost predicate Sorted(q: seq<Proc>) { forall i, j :: 0 <= i < j < |q| ==> Before(q[i], q[j]) }

  /** Where a process of the given priority is inserted: before the first one of lower priority. */
  function InsertPos(q: seq<Proc>, priority: nat): (k: nat)
    ensures k <= |q|
    ensures forall i :: 0 <= i < k ==> q[i].priority >= priority
    ensures k < |q| ==> q[k].priority < priority
  {
    if q == [] || q[0].priority < priority then 0 else InsertPos(q[1..], priority) + 1
  }

  function Insert(q: seq<Proc>, p: Proc): seq<Proc> {
    var k := InsertPos(q, p.priority);
    q[..k] + [p] + q[k..]
  }

  function Without(q: seq<Proc>, i: nat): (r: seq<Proc>)
    requires i < |q|
    ensures |r| == |q| - 1
  {
    q[..i] + q[i + 1..]
  }

  function FirstPid(q: seq<Proc>, pid: nat): (k: nat)
    ensures k <= |q| && (k < |q| ==> q[k].pid == pid) && forall i :: 0 <= i < k ==> q[i].pid != pid
  {
    if q == [] || q[0].pid == pid then 0 else FirstPid(q[1..], pid) + 1
  }

  function FirstReady(q: seq<Proc>, ready: set<nat>): (k: nat)
    ensures k <= |q| && (k < |q| ==> q[k].pid in ready) && forall i :: 0 <= i < k ==> q[i].pid !in ready
  {
    if q == [] || q[0].pid in ready then 0 else FirstReady(q[1..], ready) + 1
  }

  function RemovePid(q: seq<Proc>, pid: nat): seq<Proc> {
    var k := FirstPid(q, pid);
    if k < |q| then Without(q, k) else q
  }

  lemma InsertSorted(q: seq<Proc>, p: Proc)
    requires Sorted(q) && forall i :: 0 <= i < |q| ==> q[i].stamp < p.stamp
    ensures Sorted(Insert(q, p))
  {
    var k, r := InsertPos(q, p.priority), Insert(q, p);
    forall j | k <= j < |q| ensures q[j].priority < p.priority {
      assert j > k ==> Before(q[k], q[j]);
    }
    forall i, j | 0 <= i < j < |r| ensures Before(r[i], r[j]) {
      assert r[i] == if i < k then q[i] else if i == k then p else q[i - 1];
      assert r[j] == if j < k then q[j] else if j == k then p else q[j - 1];
    }
  }

  lemma WithoutSorted(q: seq<Proc>, i: nat)
    requires Sorted(q) && i < |q|
    ensures Sorted(Without(q, i))
  {
    var r := Without(q, i);
    forall j | 0 <= j < |r| ensures r[j] == if j < i then q[j] else q[j + 1] { }
  }

  lemma InsertElements(q: seq<Proc>, p: Proc)
    ensures forall x :: x in Insert(q, p) <==> x == p || x in q
  {
    var k, r := InsertPos(q, p.priority), Insert(q, p);
    assert q == q[..k] + q[k..];
    assert r[k] == p;
  }

  lemma WithoutElements(q: seq<Proc>, i: nat)
    requires Sorted(q) && i < |q|
    ensures forall x :: x in Without(q, i) <==> x in q && x != q[i]
  {
    var r := Without(q, i);
    forall x | x in q && x != q[i] ensures x in r {
      var j :| 0 <= j < |q| && q[j] == x;
      assert r[if j < i then j else j - 1] == x;
    }
    forall x | x in r ensures x in q && x != q[i] {
      var j :| 0 <= j < |r| && r[j] == x;
      assert x == q[if j < i then j else j + 1];
    }
  }

  /** In priority order, oldest first among equals. */
  ghost predicate Ordered(q: seq<Proc>, clock: nat) {
    Sorted(q) && forall i :: 0 <= i < |q| ==> q[i].stamp < clock
  }

  lemma InsertOrdered(q: seq<Proc>, p: Proc, clock: nat)
    requires Ordered(q, clock) && p.stamp == clock
    ensures Ordered(Insert(q, p), clock + 1)
  {
    InsertSorted(q, p);
    InsertElements(q, p);
    var r := Insert(q, p);
    forall i | 0 <= i < |r| ensures r[i].stamp < clock + 1 {
      assert r[i] in r;
    }
  }

  lemma WithoutOrdered(q: seq<Proc>, i: nat, clock: nat)
    requires Ordered(q, clock) && i < |q|
    ensures Ordered(Without(q, i), clock)
  {
    WithoutSorted(q, i);
    WithoutElements(q, i);
    var r := Without(q, i);
    forall j | 0 <= j < |r| ensures r[j].stamp < clock {
      assert r[j] in r;
    }
  }

  /** The order is canonical: the queued processes alone determine the queue. */
  lemma {:induction false} SortedUnique(a: seq<Proc>, b: seq<Proc>)
    requires Sorted(a) && Sorted(b) && forall x :: x in a <==> x in b
    ensures a == b
  {
    assert b != [] ==> b[0] in b;
    if a != [] {
      assert a[0] in b;
      assert b[0] in a;
      var i :| 0 <= i < |b| && b[i] == a[0];
      var j :| 0 <= j < |a| && a[j] == b[0];
      assert a[0] == b[0];
      TailElements(a);
      TailElements(b);
      SortedUnique(a[1..], b[1..]);
      assert a == [a[0]] + a[1..] && b == [b[0]] + b[1..];
    }
  }

  lemma TailElements(a: seq<Proc>)
    requires Sorted(a) && a != []
    ensures Sorted(a[1..]) && forall x :: x in a[1..] <==> x in a && x != a[0]
  {
    WithoutElements(a, 0);
    assert Without(a, 0) == a[1..];
  }

  method FindPos(q: seq<Proc>, priority: nat) returns (k: nat)
    ensures k == InsertPos(q, priority)
  {
    k := 0;
    while k < |q| && q[k].priority >= priority
      invariant k <= |q| && forall i :: 0 <= i < k ==> q[i].priority >= priority
    {
      k := k + 1;
    }
  }

  class RunQueue {
    var queue: seq<Proc>
    var clock: nat

    ghost predicate Valid()
      reads this
    {
      Ordered(queue, clock)
    }

    constructor ()
      ensures Valid() && queue == []
    {
      queue, clock := [], 0;
    }

    method Enqueue(pid: nat, priority: nat, affinity: Option<nat>)
      requires Valid()
      modifies this
      ensures Valid() && clock == old(clock) + 1
      ensures queue == Insert(old(queue), Proc(pid, priority, affinity, old(clock)))
      ensures forall x :: x in queue <==> x == Proc(pid, priority, affinity, old(clock)) || x in old(queue)
    {
      var p := Proc(pid, priority, affinity, clock);
      var k := FindPos(queue, priority);
      InsertOrdered(queue, p, clock);
      InsertElements(queue, p);
      queue := queue[..k] + [p] + queue[k..];
      clock := clock + 1;
    }

    /** The earliest-enqueued process among the runnable ones of highest priority; the others keep their order. */
    method Dequeue(ready: set<nat>) returns (r: Option<Proc>)
      requires Valid()
      modifies `queue
      ensures Valid()
      ensures r.None? ==> queue == old(queue) && forall x :: x in queue ==> x.pid !in ready
      ensures r.Some? ==> r.value in old(queue) && r.value.pid in ready
      ensures r.Some? ==> forall x :: x in old(queue) && x.pid in ready && x != r.value ==> Before(r.value, x)
      ensures r.Some? ==> forall x :: x in queue <==> x in old(queue) && x != r.value
    {
      for i := 0 to |queue|
        invariant queue == old(queue) && forall j :: 0 <= j < i ==> queue[j].pid !in ready
      {
        if queue[i].pid in ready {
          r := Some(queue[i]);
          WithoutOrdered(queue, i, clock);
          WithoutElements(queue, i);
          queue := Without(queue, i);
          return;
        }
      }
      r := None;
    }

    method Remove(pid: nat) returns (r: Option<Proc>)
      requires Valid()
      modifies `queue
      ensures Valid() && queue == RemovePid(old(queue), pid)
      ensures r.None? <==> forall x :: x in old(queue) ==> x.pid != pid
      ensures r.Some? ==> r.value.pid == pid && forall x :: x in queue <==> x in old(queue) && x != r.value
    {
      var k := 0;
      while k < |queue| && queue[k].pid != pid
        invariant k <= |queue| && forall i :: 0 <= i < k ==> queue[i].pid != pid
      {
        k := k + 1;
      }
      if k < |queue| {
        assert queue[k] in queue;
        r := Some(queue[k]);
        WithoutOrdered(queue, k, clock);
        WithoutElements(queue, k);
        queue := Without(queue, k);
      } else {
        r := None;
      }
    }

    /** Takes the last in line, and only when another process stays behind. */
    method Steal() returns (r: Option<Proc>)
      requires Valid()
      modifies `queue
      ensures Valid() && (r.Some? <==> |old(queue)| > 1)
      ensures r.None? ==> queue == old(queue)
      ensures r.Some? ==> old(queue) == queue + [r.value] && forall x :: x in queue ==> Before(x, r.value)
    {
      if |queue| > 1 {
        r := Some(queue[|queue| - 1]);
        queue := queue[..|queue| - 1];
      } else {
        r := None;
      }
    }
  }
}
