/**
  CPU affinity in the scheduler of `kernel/src/cpu/sched.rs`.  Every operation is one step on
  the run queues and the steal queues; which processes are ready, which harts are up, and which
  steals lose their race are inputs of the operations that look at them.
*/
module Scheduler {
  import opened Wrappers
  import opened RunQueues
  import Modular

  predicate CanRun(p: Proc, cpu: nat) { p.affinity.None? || p.affinity.value == cpu }

  /** Every copy of a pinned process in this hart's queue is pinned to this hart. */
  ghost predicate PinnedHere(q: seq<Proc>, cpu: nat) { forall i :: 0 <= i < |q| ==> CanRun(q[i], cpu) }

  lemma InsertPinned(q: seq<Proc>, p: Proc, cpu: nat)
    ensures PinnedHere(Insert(q, p), cpu) <==> PinnedHere(q, cpu) && CanRun(p, cpu)
  {
    var k, r := InsertPos(q, p.priority), Insert(q, p);
    assert r[k] == p;
    forall i | 0 <= i < |q| ensures q[i] == r[if i < k then i else i + 1] { }
    forall i | 0 <= i < |r| && i != k ensures r[i] == q[if i < k then i else i - 1] { }
  }

  lemma WithoutPinned(q: seq<Proc>, i: nat, cpu: nat)
    requires i < |q| && PinnedHere(q, cpu)
    ensures PinnedHere(Without(q, i), cpu)
  {
    var r := Without(q, i);
    forall j | 0 <= j < |r| ensures r[j] == q[if j < i then j else j + 1] { }
  }

  /** Removing a pid keeps a queue's order and affinity. */
  lemma RemovedStays(q: seq<Proc>, pid: nat, cpu: nat, clock: nat)
    requires PinnedHere(q, cpu)
    ensures PinnedHere(RemovePid(q, pid), cpu) && (Ordered(q, clock) ==> Ordered(RemovePid(q, pid), clock))
  {
    var k := FirstPid(q, pid);
    if k < |q| {
      WithoutPinned(q, k, cpu);
      if Ordered(q, clock) {
        WithoutOrdered(q, k, clock);
      }
    }
  }

  function Min(a: nat, b: nat): nat { if a < b then a else b }

  /** What one theft attempt on a victim finds: nothing usable, or the head of its steal queue. */
  predicate Stealable(steal: seq<Proc>, cpu: nat) { steal != [] && CanRun(steal[0], cpu) }

  /** The steal queue without its newest entry, if it has one. */
  ghost predicate NewestDropped(before: seq<Proc>, after: seq<Proc>) {
    if before == [] then after == [] else before == after + [before[|before| - 1]]
  }

  /** The turn at which a scan of n harts from `start` reaches hart v. */
  function Turn(v: nat, start: nat, n: nat): (t: nat)
    requires v < n
    ensures t < n
  {
    Modular.Distance(v, start, n)
  }

  lemma TurnUnique(start: nat, i: nat, v: nat, n: nat)
    requires v < n && i < n
    ensures (start + i) % n == v <==> Turn(v, start, n) == i
  {
    var t := Turn(v, start, n);
    Modular.DistanceReaches(v, start, n);
    if t < i {
      Modular.NearbyDiffer(start, t, i, n);
    } else if i < t {
      Modular.NearbyDiffer(start, i, t, n);
    }
  }

  predicate IdleReady(qs: seq<seq<Proc>>, c: nat, ready: set<nat>) { 1 <= c < |qs| && c in ready && qs[c] == [] }

  predicate Eligible(c: nat, ready: set<nat>, offline: set<nat>) { c in ready || c !in offline }

  /**
    The hart for a floating process: the first idle ready hart other than 0; failing that, the
    shortest queue among hart 0 and the harts that are ready or not known to be offline, the
    highest-numbered one on a tie.
  */
  ghost predicate LeastLoaded(qs: seq<seq<Proc>>, ready: set<nat>, offline: set<nat>, best: nat) {
    && best < |qs|
    && (IdleReady(qs, best, ready) || forall c :: 1 <= c < |qs| ==> !IdleReady(qs, c, ready))
    && (IdleReady(qs, best, ready) ==> forall c :: 1 <= c < best ==> !IdleReady(qs, c, ready))
    && (!IdleReady(qs, best, ready) ==>
          && (best == 0 || Eligible(best, ready, offline))
          && |qs[best]| <= |qs[0]|
          && forall c :: 1 <= c < |qs| && Eligible(c, ready, offline) ==>
               |qs[best]| <= |qs[c]| && (c > best ==> |qs[best]| < |qs[c]|))
  }

  /** There is one such hart, and it is not hart 0 if another hart is ready and idle. */
  lemma LeastLoadedUnique(qs: seq<seq<Proc>>, ready: set<nat>, offline: set<nat>, a: nat, b: nat)
    requires LeastLoaded(qs, ready, offline, a) && LeastLoaded(qs, ready, offline, b)
    ensures a == b
    ensures a == 0 ==> forall c :: 1 <= c < |qs| ==> !(c in ready && qs[c] == [])
  {
    if IdleReady(qs, a, ready) {
      assert IdleReady(qs, b, ready);
    }
    if a == 0 {
      forall c | 1 <= c < |qs| ensures !(c in ready && qs[c] == []) {
        assert !IdleReady(qs, c, ready);
      }
    }
  }

  /** One operation of some hart, with what it sees of the rest of the system. */
  datatype Op =
    | Spawn(pid: nat, priority: nat, affinity: Option<nat>, ready: set<nat>, offline: set<nat>)
    | Again(p: Proc, ready: set<nat>, offline: set<nat>)
    | Pick(cpu: nat, start: nat, ready: set<nat>, lost: set<nat>)
    | KillPid(pid: nat)
    | Finish(pid: nat, priority: nat, restart: bool, ready: set<nat>, offline: set<nat>)

  predicate Permitted(op: Op, cpus: nat) {
    match op
    case Spawn(_, _, affinity, _, _) => affinity.Some? ==> affinity.value < cpus
    case Again(p, _, _) => p.affinity.Some? ==> p.affinity.value < cpus
    case Pick(cpu, _, _, _) => cpu < cpus
    case _ => true
  }

  class Scheduler {
    const numCpus: nat
    var queues: seq<seq<Proc>>
    var steals: seq<seq<Proc>>
    var clock: nat

    ghost predicate Shaped()
      reads this
    {
      numCpus >= 1 && |queues| == numCpus && |steals| == numCpus
    }

    ghost predicate Valid()
      reads this
    {
      && Shaped() && InOrder()
      && forall c :: 0 <= c < numCpus ==> PinnedHere(queues[c], c) && PinnedHere(steals[c], c)
    }

    ghost predicate InOrder()
      reads this
    {
      forall c :: 0 <= c < |queues| ==> Ordered(queues[c], clock)
    }

    constructor (cpus: nat)
      ensures Valid() && numCpus == (if cpus == 0 then 1 else cpus)
      ensures forall c :: 0 <= c < numCpus ==> queues[c] == [] && steals[c] == []
    {
      numCpus := if cpus == 0 then 1 else cpus;
      queues := seq(if cpus == 0 then 1 else cpus, c => []);
      steals := seq(if cpus == 0 then 1 else cpus, c => []);
      clock := 0;
    }

    /** A copy goes to the steal queue and a copy to the run queue of the (clamped) target. */
    method Enqueue(target: nat, p: Proc)
      requires Valid() && p.stamp == clock
      modifies this
      ensures Shaped() && InOrder() && clock == old(clock) + 1
      ensures var c := Min(target, numCpus - 1);
              queues == old(queues)[c := Insert(old(queues)[c], p)] && steals == old(steals)[c := old(steals)[c] + [p]]
      ensures Valid() <==> CanRun(p, Min(target, numCpus - 1))
    {
      var c := Min(target, numCpus - 1);
      InsertPinned(queues[c], p, c);
      InsertOrdered(queues[c], p, clock);
      clock := clock + 1;
      ghost var st := steals[c] + [p];
      assert st[|st| - 1] == p;
      steals := steals[c := steals[c] + [p]];
      queues := queues[c := Insert(queues[c], p)];
      assert queues[c] == Insert(old(queues)[c], p);
    }

    method FindLeastLoaded(ready: set<nat>, offline: set<nat>) returns (best: nat)
      requires Shaped()
      ensures LeastLoaded(queues, ready, offline, best)
    {
      if numCpus == 1 {
        return 0;
      }
      for c := 1 to numCpus
        invariant forall k :: 1 <= k < c ==> !IdleReady(queues, k, ready)
      {
        if c in ready && |queues[c]| == 0 {
          return c;
        }
      }
      best := 0;
      for c := 1 to numCpus
        invariant best < c && (best == 0 || Eligible(best, ready, offline)) && |queues[best]| <= |queues[0]|
        invariant forall k :: 1 <= k < c && Eligible(k, ready, offline) ==>
                    |queues[best]| <= |queues[k]| && (k > best ==> |queues[best]| < |queues[k]|)
      {
        if (c in ready || c !in offline) && |queues[c]| <= |queues[best]| {
          best := c;
        }
      }
    }

    /**
      Spawns a process with an optional pinning.  The pinning is respected if and only if it
      names an existing hart: a larger number is clamped to the last one.
    */
    method SpawnOnCpu(pid: nat, priority: nat, affinity: Option<nat>, ready: set<nat>, offline: set<nat>)
      requires Valid()
      modifies this
      ensures Shaped() && InOrder() && clock == old(clock) + 1
      ensures Valid() <==> affinity.None? || affinity.value < numCpus
      ensures Placed(old(queues), old(steals), Proc(pid, priority, affinity, old(clock)), ready, offline)
    {
      var p := Proc(pid, priority, affinity, clock);
      var target;
      if affinity.Some? {
        target := affinity.value;
      } else {
        target := FindLeastLoaded(ready, offline);
      }
      Enqueue(target, p);
      assert AddedAt(old(queues), old(steals), Min(target, numCpus - 1), p);
    }

    ghost predicate AddedAt(qs: seq<seq<Proc>>, sts: seq<seq<Proc>>, c: nat, p: Proc)
      reads this
    {
      c < |qs| && c < |sts| && queues == qs[c := Insert(qs[c], p)] && steals == sts[c := sts[c] + [p]]
    }

    /** p was added where it belongs: at the hart it is pinned to, the last one if there is none such, else the least loaded. */
    ghost predicate Placed(qs: seq<seq<Proc>>, sts: seq<seq<Proc>>, p: Proc, ready: set<nat>, offline: set<nat>)
      requires numCpus >= 1
      reads this
    {
      if p.affinity.Some? then AddedAt(qs, sts, Min(p.affinity.value, numCpus - 1), p)
      else exists c :: LeastLoaded(qs, ready, offline, c) && AddedAt(qs, sts, c, p)
    }

    /** A pinned process goes back to its hart, a floating one to the least loaded. */
    method Requeue(p: Proc, ready: set<nat>, offline: set<nat>)
      requires Valid() && (p.affinity.Some? ==> p.affinity.value < numCpus)
      modifies this
      ensures Valid()
      ensures Placed(old(queues), old(steals), p.(stamp := old(clock)), ready, offline)
    {
      var target;
      if p.affinity.Some? {
        target := p.affinity.value;
      } else {
        target := FindLeastLoaded(ready, offline);
      }
      Enqueue(target, p.(stamp := clock));
      assert AddedAt(old(queues), old(steals), target, p.(stamp := old(clock)));
    }

    /** kill: the first copy in each run queue goes. */
    method Kill(pid: nat)
      requires Valid()
      modifies `queues
      ensures Valid()
      ensures forall c :: 0 <= c < numCpus ==> queues[c] == RemovePid(old(queues)[c], pid)
    {
      for c := 0 to numCpus
        invariant Valid()
        invariant forall k :: 0 <= k < numCpus ==>
                    queues[k] == if k < c then RemovePid(old(queues)[k], pid) else old(queues)[k]
      {
        RemovedStays(queues[c], pid, c, clock);
        queues := queues[c := RemovePid(queues[c], pid)];
      }
    }

    /** exit: a restarting daemon comes back as a new, floating process. */
    method Exit(pid: nat, priority: nat, restart: bool, ready: set<nat>, offline: set<nat>)
      requires Valid()
      modifies this
      ensures Valid()
      ensures !restart ==> queues == old(queues) && steals == old(steals)
      ensures restart ==>
                Placed(old(queues), old(steals), Proc(pid, priority, None, old(clock)), ready, offline)
    {
      if restart {
        SpawnOnCpu(pid, priority, None, ready, offline);
      }
    }

    /**
      One theft attempt.  A usable head is taken and removed from the victim's run queue; one
      pinned to the victim is put back (at the end of the steal queue, and once more in line).
    */
    method StealFrom(victim: nat, cpu: nat, lost: bool) returns (r: Option<Proc>)
      requires Valid() && victim < numCpus && victim != cpu
      modifies this
      ensures Valid()
      ensures queues == old(queues)[victim := queues[victim]] && steals == old(steals)[victim := steals[victim]]
      ensures r.Some? <==> !lost && Stealable(old(steals)[victim], cpu)
      ensures r.Some? ==> Taken(old(queues), old(steals), victim, r.value)
      ensures lost || old(steals)[victim] == [] ==> queues == old(queues) && steals == old(steals)
      ensures r.None? && !lost && old(steals)[victim] != [] ==>
                var p := old(steals)[victim][0];
                && steals[victim] == old(steals)[victim][1..] + [p]
                && queues[victim] == Insert(old(queues)[victim], p.(stamp := old(clock)))
    {
      r := None;
      if !lost && steals[victim] != [] {
        var p := steals[victim][0];
        var rest := steals[victim][1..];
        assert CanRun(p, victim);
        if CanRun(p, cpu) {
          RemovedStays(queues[victim], p.pid, victim, clock);
          steals := steals[victim := rest];
          queues := queues[victim := RemovePid(queues[victim], p.pid)];
          r := Some(p);
        } else {
          var back := p.(stamp := clock);
          InsertPinned(queues[victim], back, victim);
          InsertOrdered(queues[victim], back, clock);
          steals := steals[victim := rest + [p]];
          queues := queues[victim := Insert(queues[victim], back)];
          clock := clock + 1;
        }
      }
    }

    /** p was the head of hart v's steal queue and left both of its queues. */
    ghost predicate Taken(qs: seq<seq<Proc>>, sts: seq<seq<Proc>>, v: nat, p: Proc)
      reads this
    {
      && v < |qs| == |queues| && v < |sts| == |steals|
      && sts[v] == [p] + steals[v] && queues[v] == RemovePid(qs[v], p.pid)
    }

    /** Hart v is a possible victim of cpu, and a theft would have succeeded. */
    ghost predicate Victim(sts: seq<seq<Proc>>, v: nat, cpu: nat, lost: set<nat>) {
      v < |sts| && v != 0 && v != cpu && v !in lost && Stealable(sts[v], cpu)
    }

    /** Hart v was passed by: nothing changed, or the head of its steal queue, which may not run here, went back in line. */
    ghost predicate Passed(qs: seq<seq<Proc>>, sts: seq<seq<Proc>>, v: nat, cpu: nat, lost: set<nat>)
      requires v < |qs| == |queues| && v < |sts| == |steals|
      reads this
    {
      if v == 0 || v == cpu || v in lost || sts[v] == [] then queues[v] == qs[v] && steals[v] == sts[v]
      else
        && !CanRun(sts[v][0], cpu) && steals[v] == sts[v][1..] + [sts[v][0]]
        && exists t :: queues[v] == Insert(qs[v], sts[v][0].(stamp := t))
    }

    /** The theft by cpu, scanning from `start`: from the first hart in turn that has something to take, or from none. */
    ghost predicate Scanned(qs: seq<seq<Proc>>, sts: seq<seq<Proc>>, cpu: nat, start: nat, lost: set<nat>, r: Option<Proc>)
      requires |qs| == |queues| == |sts| == |steals| == numCpus
      reads this
    {
      match r
      case None => forall v :: 0 <= v < numCpus ==> !Victim(sts, v, cpu, lost) && Passed(qs, sts, v, cpu, lost)
      case Some(p) => exists v :: StolenFrom(qs, sts, cpu, start, lost, v, p)
    }

    ghost predicate StolenFrom(qs: seq<seq<Proc>>, sts: seq<seq<Proc>>, cpu: nat, start: nat, lost: set<nat>, v: nat, p: Proc)
      requires |qs| == |queues| == |sts| == |steals| == numCpus
      reads this
    {
      && Victim(sts, v, cpu, lost) && Taken(qs, sts, v, p)
      && forall w :: 0 <= w < numCpus && w != v ==>
           if Turn(w, start, numCpus) < Turn(v, start, numCpus) then !Victim(sts, w, cpu, lost) && Passed(qs, sts, w, cpu, lost)
           else queues[w] == qs[w] && steals[w] == sts[w]
    }

    /** The local choice: the first ready process of the own queue; the newest steal entry goes too. */
    method PickLocal(cpu: nat, ready: set<nat>) returns (r: Option<Proc>)
      requires Valid() && cpu < numCpus
      modifies `queues, `steals
      ensures Valid()
      ensures var q, k := old(queues)[cpu], FirstReady(old(queues)[cpu], ready);
              if k == |q| then r.None? && queues == old(queues) && steals == old(steals)
              else r == Some(q[k]) && CanRun(q[k], cpu) && queues == old(queues)[cpu := Without(q, k)]
                   && steals == old(steals)[cpu := steals[cpu]] && NewestDropped(old(steals)[cpu], steals[cpu])
    {
      var k := FirstReady(queues[cpu], ready);
      if k == |queues[cpu]| {
        return None;
      }
      WithoutPinned(queues[cpu], k, cpu);
      WithoutOrdered(queues[cpu], k, clock);
      r := Some(queues[cpu][k]);
      queues := queues[cpu := Without(queues[cpu], k)];
      if steals[cpu] != [] {
        steals := steals[cpu := steals[cpu][..|steals[cpu]| - 1]];
      }
    }

    /**
      The next process for a hart: its own first ready process, else one stolen from the first
      hart in turn that has one to take, never from hart 0 and never one that may not run here;
      None only when its own queue has no ready process and no uncontended victim has a usable head.
    */
    method PickNext(cpu: nat, start: nat, ready: set<nat>, lost: set<nat>) returns (r: Option<Proc>)
      requires Valid() && cpu < numCpus
      modifies this
      ensures Valid()
      ensures r.Some? ==> CanRun(r.value, cpu)
      ensures cpu != 0 ==> queues[0] == old(queues)[0] && steals[0] == old(steals)[0]
      ensures var q, k := old(queues)[cpu], FirstReady(old(queues)[cpu], ready);
              if k < |q| then
                && r == Some(q[k]) && queues == old(queues)[cpu := Without(q, k)]
                && steals == old(steals)[cpu := steals[cpu]] && NewestDropped(old(steals)[cpu], steals[cpu])
              else Scanned(old(queues), old(steals), cpu, start, lost, r)
      ensures r.None? <==>
                FirstReady(old(queues)[cpu], ready) == |old(queues)[cpu]| && forall v :: !Victim(old(steals), v, cpu, lost)
    {
      r := PickLocal(cpu, ready);
      if r.Some? || numCpus <= 1 {
        return;
      }
      r := Steal(cpu, start, lost);
    }

    /** The scan for a victim. */
    method Steal(cpu: nat, start: nat, lost: set<nat>) returns (r: Option<Proc>)
      requires Valid() && cpu < numCpus
      modifies this
      ensures Valid()
      ensures r.Some? ==> CanRun(r.value, cpu)
      ensures queues[0] == old(queues)[0] && steals[0] == old(steals)[0]
      ensures Scanned(old(queues), old(steals), cpu, start, lost, r)
    {
      r := None;
      for i := 0 to numCpus
        invariant Valid() && r.None?
        invariant forall v :: 0 <= v < numCpus && Turn(v, start, numCpus) >= i ==>
                    queues[v] == old(queues)[v] && steals[v] == old(steals)[v]
        invariant forall v :: 0 <= v < numCpus && Turn(v, start, numCpus) < i ==>
                    !Victim(old(steals), v, cpu, lost) && Passed(old(queues), old(steals), v, cpu, lost)
      {
        var victim := (start + i) % numCpus;
        forall v | 0 <= v < numCpus ensures v == victim <==> Turn(v, start, numCpus) == i {
          TurnUnique(start, i, v, numCpus);
        }
        if victim != cpu && victim != 0 {
          r := StealFrom(victim, cpu, victim in lost);
          if r.Some? {
            assert StolenFrom(old(queues), old(steals), cpu, start, lost, victim, r.value);
            return;
          }
        }
      }
    }

    /**
      Any sequence of operations, affinities being fixed at spawn and below numCpus: every state
      on the way keeps priority order and affinity, and every hart was only ever given processes
      that may run on it.
    */
    method RunAll(ops: seq<Op>) returns (picks: seq<(nat, Proc)>)
      requires Valid() && forall i :: 0 <= i < |ops| ==> Permitted(ops[i], numCpus)
      modifies this
      ensures Valid()
      ensures forall i :: 0 <= i < |picks| ==> CanRun(picks[i].1, picks[i].0)
    {
      picks := [];
      for i := 0 to |ops|
        invariant Valid()
        invariant forall j :: 0 <= j < |picks| ==> CanRun(picks[j].1, picks[j].0)
      {
        match ops[i]
        case Spawn(pid, priority, affinity, ready, offline) => SpawnOnCpu(pid, priority, affinity, ready, offline);
        case Again(p, ready, offline) => Requeue(p, ready, offline);
        case Pick(cpu, start, ready, lost) =>
          var r := PickNext(cpu, start, ready, lost);
          if r.Some? {
            picks := picks + [(cpu, r.value)];
          }
        case KillPid(pid) => Kill(pid);
        case Finish(pid, priority, restart, ready, offline) => Exit(pid, priority, restart, ready, offline);
      }
    }
  }
}
