/**
  Fairness of the dispatcher in `kernel/src/cpu/io_router.rs`: order and bounded bypass over
  every run of the router (disciplined or not), and the sweep and dispatch loops as code.
*/
module RoundRobin {
  import opened Wrappers
  import opened IoRouter
  import opened Modular

  // ---------------------------------------------------------------- order of each hart's requests

  ghost predicate LogInv(s: State) {
    && |s.pushed| == |s.queues| && |s.served| == |s.queues|
    && (forall h :: 0 <= h < |s.queues| ==> s.served[h] + s.queues[h] == s.pushed[h])
    && s.cursor == s.probes % WORD
    && s.dequeued <= s.probes
  }

  lemma LogStep(s: State, l: Label)
    requires LogInv(s)
    ensures LogInv(Apply(s, l))
  {
    if l.Probe? && s.handling.None? && |s.queues| > 0 {
      LogProbe(s);
    }
  }

  lemma LogProbe(s: State)
    requires LogInv(s) && |s.queues| > 0
    ensures LogInv(ProbeAt(s))
  {
    var h := s.cursor % |s.queues|;
    var t := ProbeAt(s);
    CursorStep(s.probes);
    if s.queues[h] != [] {
      assert [s.queues[h][0]] + s.queues[h][1..] == s.queues[h];
      assert t.served[h] + t.queues[h] == s.served[h] + s.queues[h];
    }
  }

  lemma CursorStep(n: nat)
    ensures (n % WORD + 1) % WORD == (n + 1) % WORD
  {
  }

  lemma {:induction false} LogRun(harts: nat, ls: seq<Label>)
    ensures LogInv(Run(harts, ls)) && |Run(harts, ls).queues| == harts
  {
    if ls != [] {
      LogRun(harts, ls[..|ls| - 1]);
      LogStep(Run(harts, ls[..|ls| - 1]), ls[|ls| - 1]);
    }
  }

  /** First in, first out: what has left a hart's queue is a prefix of what entered it, the rest is the queue. */
  lemma Fifo(harts: nat, ls: seq<Label>, h: nat)
    requires h < harts
    ensures
      var s := Run(harts, ls);
      && |s.pushed| == harts && |s.served| == harts && |s.queues| == harts
      && s.served[h] <= s.pushed[h] && s.queues[h] == s.pushed[h][|s.served[h]|..]
  {
    LogRun(harts, ls);
  }

  // ---------------------------------------------------------------- bounded bypass

  /** Cursor turns, counted from `start`, within which the m-th request of hart h is dequeued. */
  function Needs(s: State, h: nat, m: nat, start: nat): nat
    requires h < |s.queues| && |s.served| == |s.queues| && |s.served[h]| <= m && start <= s.probes
  {
    (m - |s.served[h]|) * |s.queues| + Distance(h, s.probes - start, |s.queues|)
  }

  /** Waiting for position m of hart h: it has been pushed and not yet dequeued. */
  ghost predicate Waits(s: State, h: nat, m: nat) {
    LogInv(s) && h < |s.queues| && |s.served[h]| <= m < |s.pushed[h]|
  }

  /** The cursor counts from `start` and, if it wraps, does so without disturbing its residue. */
  ghost predicate InStep(s: State, start: nat) {
    start <= s.probes && start % WORD == 0 && |s.queues| > 0 && (s.probes - start < WORD || WORD % |s.queues| == 0)
  }

  lemma WordMod(v: nat, n: nat)
    requires n > 0 && (v < WORD || WORD % n == 0)
    ensures v % WORD % n == v % n
  {
    if v < WORD {
      SmallMod(v, WORD);
    } else {
      var q, r, k := v / WORD, v % WORD, WORD / n;
      assert v == q * WORD + r && WORD == k * n;
      assert r == (r / n) * n + r % n;
      assert v == (q * k + r / n) * n + r % n by { assert q * (k * n) == (q * k) * n; }
      ModUnique(v, q * k + r / n, r % n, n);
    }
  }

  lemma CursorInStep(s: State, start: nat)
    requires LogInv(s) && InStep(s, start)
    ensures s.cursor % |s.queues| == (s.probes - start) % |s.queues|
  {
    var v, q := s.probes - start, start / WORD;
    assert v == (v / WORD) * WORD + v % WORD;
    ModUnique(s.probes, v / WORD + q, v % WORD, WORD);
    WordMod(v, |s.queues|);
  }

  lemma NeedsProbe(s: State, h: nat, m: nat, start: nat)
    requires Waits(s, h, m) && Waits(ProbeAt(s), h, m) && InStep(s, start)
    ensures ProbeAt(s).probes + Needs(ProbeAt(s), h, m, start) == s.probes + Needs(s, h, m, start)
  {
    ProbeServes(s, h);
    CursorInStep(s, start);
    Countdown(m - |s.served[h]|, h, s.probes - start, |s.queues|);
  }

  /** A probe of a non-empty queue serves it, and no other. */
  lemma ProbeServes(s: State, h: nat)
    requires LogInv(s) && h < |s.queues| && s.queues[h] != []
    ensures
      var t := ProbeAt(s);
      && t.probes == s.probes + 1 && |t.queues| == |s.queues| && |t.served| == |s.served|
      && |t.served[h]| == |s.served[h]| + if s.cursor % |s.queues| == h then 1 else 0
  {
  }

  lemma Countdown(k: nat, h: nat, c: nat, n: nat)
    requires h < n
    ensures k * n + Distance(h, c, n) ==
            1 + (if c % n == h then k - 1 else k) * n + Distance(h, c + 1, n)
  {
    DistanceStep(h, c, n);
    assert (k - 1) * n + n == k * n;
  }

  /** A step that is not a turn of the dispatcher leaves queues' fronts, cursor and counts alone. */
  lemma OtherStep(s: State, l: Label)
    requires LogInv(s) && !(l.Probe? && s.handling.None? && |s.queues| > 0)
    ensures
      var t := Apply(s, l);
      && t.served == s.served && t.probes == s.probes && t.dequeued == s.dequeued && |t.queues| == |s.queues|
      && |t.pushed| == |s.pushed| && forall h :: 0 <= h < |s.pushed| ==> |s.pushed[h]| <= |t.pushed[h]|
  {
  }

  lemma ProbeStep(s: State)
    requires LogInv(s) && |s.queues| > 0
    ensures
      var t := ProbeAt(s);
      && t.pushed == s.pushed && t.probes == s.probes + 1 && s.dequeued <= t.dequeued <= s.dequeued + 1
      && |t.queues| == |s.queues| && |t.served| == |s.served|
      && forall h :: 0 <= h < |s.served| ==> |s.served[h]| <= |t.served[h]|
  {
  }

  /** What a step does to the counts, and that it neither unserves nor unpushes. */
  lemma Grows(s: State, l: Label, h: nat)
    requires LogInv(s) && h < |s.queues|
    ensures
      var t := Apply(s, l);
      && LogInv(t) && |t.queues| == |s.queues| && s.probes <= t.probes && 0 <= t.dequeued - s.dequeued <= t.probes - s.probes
      && |s.pushed[h]| <= |t.pushed[h]| && |s.served[h]| <= |t.served[h]|
  {
    LogStep(s, l);
    if l.Probe? && s.handling.None? && |s.queues| > 0 {
      ProbeStep(s);
    } else {
      OtherStep(s, l);
    }
  }

  /** Every step that leaves the request waiting spends exactly the cursor turns it takes. */
  lemma NeedsStep(s: State, l: Label, h: nat, m: nat, start: nat)
    requires Waits(s, h, m) && Waits(Apply(s, l), h, m) && start <= s.probes
    requires Apply(s, l).probes > s.probes ==> InStep(s, start)
    ensures start <= Apply(s, l).probes
    ensures Apply(s, l).probes + Needs(Apply(s, l), h, m, start) == s.probes + Needs(s, h, m, start)
  {
    if l.Probe? && s.handling.None? && |s.queues| > 0 {
      ProbeStep(s);
      NeedsProbe(s, h, m, start);
    } else {
      OtherStep(s, l);
    }
  }

  /** The cursor's turns in the window from s to t do not disturb its residue. */
  ghost predicate Undisturbed(s: State, t: State) {
    s.cursor + t.probes - s.probes <= WORD || (|s.queues| > 0 && WORD % |s.queues| == 0)
  }

  /** What a window of steps from s to t means for the m-th request of hart h. */
  ghost predicate Window(s: State, t: State, h: nat, m: nat) {
    && LogInv(s) && LogInv(t) && |t.queues| == |s.queues| && h < |s.queues|
    && s.probes <= t.probes && t.dequeued - s.dequeued <= t.probes - s.probes
    && |s.pushed[h]| <= |t.pushed[h]| && |s.served[h]| <= |t.served[h]|
    && (Waits(s, h, m) && Waits(t, h, m) && Undisturbed(s, t) ==>
          var start := s.probes - s.cursor;
          start >= 0 && t.probes + Needs(t, h, m, start) == s.probes + Needs(s, h, m, start))
  }

  lemma CursorStart(s: State)
    requires LogInv(s)
    ensures s.probes >= s.cursor && (s.probes - s.cursor) % WORD == 0
  {
  }

  lemma WindowStep(s: State, u: State, l: Label, h: nat, m: nat)
    requires Window(s, u, h, m)
    ensures Window(s, Apply(u, l), h, m)
  {
    var t := Apply(u, l);
    Grows(u, l, h);
    CursorStart(s);
    if Waits(s, h, m) && Waits(t, h, m) && Undisturbed(s, t) {
      NeedsStep(u, l, h, m, s.probes - s.cursor);
    }
  }

  lemma {:induction false} WindowRun(harts: nat, ls: seq<Label>, ms: seq<Label>, h: nat, m: nat)
    requires h < harts
    ensures Window(Run(harts, ls), Run(harts, ls + ms), h, m)
  {
    if ms == [] {
      assert ls + ms == ls;
      LogRun(harts, ls);
      CursorStart(Run(harts, ls));
    } else {
      var front, l := ms[..|ms| - 1], ms[|ms| - 1];
      WindowRun(harts, ls, front, h, m);
      JoinSlices(ls, ms);
      RunLast(harts, ls + ms, ls + front, l);
      WindowStep(Run(harts, ls), Run(harts, ls + front), l, h, m);
    }
  }

  /** The m-th request of hart h has been pushed and not dequeued: it is at position m - |served[h]| of the queue. */
  ghost predicate Waiting(s: State, h: nat, m: nat) {
    h < |s.served| == |s.pushed| && |s.served[h]| <= m < |s.pushed[h]|
  }

  /** Fewer than (p + 1) * n requests were dequeued between s and t, p being the request's position in s. */
  ghost predicate PassedFew(s: State, t: State, h: nat, m: nat)
    requires Waiting(s, h, m)
  {
    t.dequeued - s.dequeued < (m - |s.served[h]| + 1) * |s.queues|
  }

  lemma WindowPasses(s: State, t: State, h: nat, m: nat)
    requires Window(s, t, h, m) && Waiting(s, h, m) && Waiting(t, h, m) && Undisturbed(s, t)
    ensures PassedFew(s, t, h, m)
  {
    NeedsBound(s, h, m);
  }

  /**
    Bounded bypass: a request at position p of hart h's queue that is still queued at the end of
    any continuation has been passed by fewer than (p + 1) * n successful dequeues, however many
    requests were submitted meanwhile, unless the 64-bit cursor wraps in this window at a number
    of harts that does not divide 2^64.
  */
  lemma BoundedBypass(harts: nat, ls: seq<Label>, ms: seq<Label>, h: nat, m: nat)
    requires h < harts && Waiting(Run(harts, ls), h, m) && Waiting(Run(harts, ls + ms), h, m)
    requires Undisturbed(Run(harts, ls), Run(harts, ls + ms))
    ensures PassedFew(Run(harts, ls), Run(harts, ls + ms), h, m) && |Run(harts, ls).queues| == harts
  {
    LogRun(harts, ls);
    WindowRun(harts, ls, ms, h, m);
    WindowPasses(Run(harts, ls), Run(harts, ls + ms), h, m);
  }

  lemma NeedsBound(s: State, h: nat, m: nat)
    requires Waits(s, h, m)
    ensures s.probes >= s.cursor
    ensures Needs(s, h, m, s.probes - s.cursor) < (m - |s.served[h]| + 1) * |s.queues|
  {
    CursorStart(s);
    var k, n := m - |s.served[h]|, |s.queues|;
    assert (k + 1) * n == k * n + n;
  }

  // ---------------------------------------------------------------- the sweep

  /** The hart that turn k of a sweep starting at cursor c looks at. */
  function Visit(c: nat, k: nat, n: nat): (h: nat)
    requires n > 0
    ensures h < n
  {
    (c + k) % WORD % n
  }

  /** The n turns of a sweep look at n different harts. */
  ghost predicate VisitsEachOnce(c: nat, n: nat)
    requires n > 0
  {
    forall j, k :: 0 <= j < k < n ==> Visit(c, j, n) != Visit(c, k, n)
  }

  /** The cursor does not wrap during the sweep, or wrapping does not disturb its residue. */
  predicate Steady(c: nat, n: nat)
    requires n > 0
  {
    c + n <= WORD || WORD % n == 0
  }

  lemma SteadyVisit(c: nat, k: nat, n: nat)
    requires 0 < n <= WORD && k < n && c < WORD && Steady(c, n)
    ensures Visit(c, k, n) == (c + k) % n
  {
    if c + k >= WORD {
      var q := WORD / n;
      assert WORD == q * n + WORD % n;
      var x := c + k - WORD;
      assert (c + k) % WORD == x by { ModUnique(c + k, 1, x, WORD); }
      assert x + q * n == (x / n + q) * n + x % n;
      ModUnique(c + k, x / n + q, x % n, n);
    } else {
      ModUnique(c + k, 0, c + k, WORD);
    }
  }

  /** A cursor that wraps at a word that n does not divide makes the sweep look at one hart twice. */
  lemma WrapRevisits(c: nat, n: nat) returns (j: nat, k: nat)
    requires 0 < n <= WORD && c < WORD && !Steady(c, n)
    ensures j < k < n && Visit(c, j, n) == Visit(c, k, n)
  {
    var a, w := WORD - c, WORD % n;
    var q := WORD / n;
    assert WORD == q * n + w;
    if a >= w {
      j, k := a - w, a;
      ModUnique(c + j, 0, q * n, WORD);
      ModUnique(q * n, q, 0, n);
      ModUnique(c + k, 1, 0, WORD);
      ModUnique(0, 0, 0, n);
    } else {
      j, k := 0, w;
      ModUnique(c, 0, c, WORD);
      ModUnique(c, q, w - a, n);
      ModUnique(c + k, 1, w - a, WORD);
      ModUnique(w - a, 0, w - a, n);
    }
  }

  /** A sweep visits each hart queue exactly once if and only if the cursor stays steady. */
  lemma SweepVisits(c: nat, n: nat)
    requires 0 < n <= WORD && c < WORD
    ensures VisitsEachOnce(c, n) <==> Steady(c, n)
  {
    if Steady(c, n) {
      forall j, k | 0 <= j < k < n ensures Visit(c, j, n) != Visit(c, k, n) {
        SteadyVisit(c, j, n);
        SteadyVisit(c, k, n);
        NearbyDiffer(c, j, k, n);
      }
    } else {
      var j, k := WrapRevisits(c, n);
    }
  }

  /** In a steady sweep every hart has its turn. */
  lemma TurnOf(c: nat, n: nat, h: nat) returns (k: nat)
    requires h < n <= WORD && c < WORD && Steady(c, n)
    ensures k < n && Visit(c, k, n) == h
  {
    k := Distance(h, c, n);
    SteadyVisit(c, k, n);
    DistanceReaches(h, c, n);
  }

  /** All queues of the first n harts are empty. */
  predicate Idle(queues: seq<seq<nat>>, n: nat)
    requires n <= |queues|
  {
    forall h :: 0 <= h < n ==> queues[h] == []
  }

  lemma SweptIdle(queues: seq<seq<nat>>, c: nat, n: nat)
    requires 0 < n <= |queues| && n <= WORD && c < WORD && Steady(c, n)
    requires forall k :: 0 <= k < n ==> queues[Visit(c, k, n)] == []
    ensures Idle(queues, n)
  {
    forall h | 0 <= h < n ensures queues[h] == [] {
      var k := TurnOf(c, n, h);
    }
  }

  /** What has been served and what is queued make up the queues at the start. */
  ghost predicate Progress(start: seq<seq<nat>>, queues: seq<seq<nat>>, served: seq<seq<nat>>, processed: nat) {
    && |served| == |queues| == |start|
    && (forall h :: 0 <= h < |start| ==> served[h] + queues[h] == start[h])
    && processed == Total(served) && processed + Total(queues) == Total(start)
  }

  lemma Starting(queues: seq<seq<nat>>)
    ensures Progress(queues, queues, NoRequests(|queues|), 0)
  {
    TotalEmpty(|queues|);
    forall h | 0 <= h < |queues| ensures NoRequests(|queues|)[h] + queues[h] == queues[h] { }
  }

  lemma Advance(start: seq<seq<nat>>, queues: seq<seq<nat>>, served: seq<seq<nat>>, processed: nat, h: nat, id: nat)
    requires Progress(start, queues, served, processed) && h < |queues| && queues[h] != [] && queues[h][0] == id
    ensures Progress(start, queues[h := queues[h][1..]], Append(served, h, id), processed + 1)
    ensures Total(queues[h := queues[h][1..]]) < Total(queues)
  {
    TotalUpdate(queues, h, queues[h][1..]);
    TotalUpdate(served, h, served[h] + [id]);
    assert served[h] + [id] + queues[h][1..] == served[h] + queues[h];
  }

  /** The turns of k full sweeps. */
  function Turns(k: nat, n: nat): nat {
    if k == 0 then 0 else Turns(k - 1, n) + n
  }

  lemma {:induction false} TurnsAre(k: nat, n: nat)
    ensures Turns(k, n) == k * n
  {
    if k > 0 {
      TurnsAre(k - 1, n);
      assert (k - 1) * n + n == k * n;
    }
  }

  lemma {:induction false} TurnsGrow(p: nat, t: nat, n: nat)
    requires p <= t
    ensures Turns(p, n) <= Turns(t, n)
  {
    if p < t {
      TurnsGrow(p, t - 1, n);
    }
  }

  /** The cursor has made at most n turns per request, as long as it cannot wrap. */
  predicate Bounded(c0: nat, c: nat, processed: nat, total: nat, n: nat) {
    processed <= total && (c0 + Turns(total + 1, n) <= WORD ==> c <= c0 + Turns(processed, n))
  }

  lemma CursorBound(c0: nat, c: nat, processed: nat, total: nat, n: nat, turns: nat)
    requires Bounded(c0, c, processed, total, n) && processed < total && 0 < turns <= n && c < WORD
    ensures Bounded(c0, (c + turns) % WORD, processed + 1, total, n)
  {
    TurnsGrow(processed + 1, total, n);
    NoWrap(c0, c, Turns(processed, n), Turns(total, n), n, turns);
  }

  lemma NoWrap(c0: nat, c: nat, x: nat, y: nat, n: nat, turns: nat)
    requires c0 + y + n <= WORD ==> c <= c0 + x
    requires y >= x + n && turns <= n && c < WORD
    ensures c0 + y + n <= WORD ==> (c + turns) % WORD <= c0 + x + n
  {
  }

  lemma LastSweep(c0: nat, c: nat, processed: nat, total: nat, n: nat)
    requires Bounded(c0, c, processed, total, n) && n > 0
    ensures c0 + Turns(total + 1, n) <= WORD ==> Steady(c, n)
  {
    TurnsGrow(processed, total, n);
  }

  /** The hart that a sweep with an unsteady cursor does not look at. */
  function Missed(c: nat, n: nat): (h: nat)
    requires 0 < n && c < WORD && !Steady(c, n)
    ensures h < n
  {
    var a, w := WORD - c, WORD % n;
    if a >= w then n - a + w - 1 else n - 1
  }

  lemma MissedAlways(c: nat, k: nat, n: nat)
    requires k < n <= WORD && c < WORD && !Steady(c, n)
    ensures Visit(c, k, n) != Missed(c, n)
  {
    var a, w, q := WORD - c, WORD % n, WORD / n;
    assert WORD == q * n + w;
    if k >= a {
      ModUnique(c + k, 1, k - a, WORD);
      SmallMod(k - a, n);
    } else {
      SmallMod(c + k, WORD);
      var r := w - a + k;
      if r >= 0 {
        ModUnique(c + k, q, r, n);
      } else {
        assert (q - 1) * n + n == q * n;
        ModUnique(c + k, q - 1, n + r, n);
      }
    }
  }

  /** Everything a sweep from cursor c looks at is empty. */
  ghost predicate SweptEmpty(queues: seq<seq<nat>>, c: nat, n: nat)
    requires 0 < n <= |queues|
  {
    forall k :: 0 <= k < n ==> queues[Visit(c, k, n)] == []
  }

  /**
    A fruitless sweep means that every queue is empty if and only if the cursor is steady:
    otherwise some hart is missed, and its requests with it.
  */
  lemma SweepExact(c: nat, n: nat)
    requires 0 < n <= WORD && c < WORD
    ensures Steady(c, n) <==> forall queues: seq<seq<nat>> :: n <= |queues| && SweptEmpty(queues, c, n) ==> Idle(queues, n)
  {
    if Steady(c, n) {
      forall queues: seq<seq<nat>> | n <= |queues| && SweptEmpty(queues, c, n) ensures Idle(queues, n) {
        SweptIdle(queues, c, n);
      }
    } else {
      var h := Missed(c, n);
      var queues := NoRequests(n)[h := [1]];
      forall k | 0 <= k < n ensures queues[Visit(c, k, n)] == [] {
        MissedAlways(c, k, n);
      }
      assert SweptEmpty(queues, c, n) && queues[h] != [];
    }
  }

  /** The turns of a sweep over empty queues: advances the cursor until a queue has a request or n turns are over. */
  method Scan(queues: seq<seq<nat>>, c: nat, n: nat) returns (c': nat, turn: nat)
    requires n <= |queues| && c < WORD
    ensures turn <= n && c' == (c + turn) % WORD
    ensures forall k :: 0 <= k < turn ==> queues[Visit(c, k, n)] == []
    ensures turn < n ==> queues[Visit(c, turn, n)] != []
  {
    c', turn := c, 0;
    while turn < n && queues[c' % n] == []
      invariant turn <= n && c' == (c + turn) % WORD
      invariant forall k :: 0 <= k < turn ==> queues[Visit(c, k, n)] == []
    {
      CursorStep(c + turn);
      c', turn := (c' + 1) % WORD, turn + 1;
    }
  }

  /**
    Nothing is left for the first n harts if the last sweep, which ended at cursor c, was steady;
    so it was if n divides 2^64 or the cursor could not wrap since c0.
  */
  ghost predicate Emptied(queues: seq<seq<nat>>, c0: nat, c: nat, total: nat, n: nat) {
    n > 0 && (Steady((c - n) % WORD, n) || WORD % n == 0 || c0 + Turns(total + 1, n) <= WORD) ==>
      n <= |queues| && Idle(queues, n)
  }

  lemma SweepStart(c: nat, n: nat)
    requires c < WORD && n <= WORD
    ensures ((c + n) % WORD - n) % WORD == c
  {
  }

  /** Hart 0's view of the router between submissions: the request queues and the cursor. */
  class Dispatcher {
    var queues: seq<seq<nat>>
    var cursor: nat

    ghost predicate Valid()
      reads this
    {
      cursor < WORD && |queues| <= WORD
    }

    constructor (harts: nat)
      requires harts <= WORD
      ensures Valid() && queues == NoRequests(harts) && cursor == 0
    {
      queues, cursor := NoRequests(harts), 0;
    }

    /**
      One sweep: the head of the first non-empty queue in cursor order, which is popped, or
      None after n fruitless turns; with a steady cursor, None means that every queue is empty.
    */
    method Sweep(n: nat) returns (r: Option<nat>, turn: nat)
      requires Valid() && n <= |queues|
      modifies `queues, `cursor
      ensures Valid() && |queues| == |old(queues)| && turn <= n && (r.None? <==> turn == n)
      ensures forall k :: 0 <= k < turn ==> old(queues)[Visit(old(cursor), k, n)] == []
      ensures cursor == (old(cursor) + turn + if r.Some? then 1 else 0) % WORD
      ensures r.None? ==> queues == old(queues) && (n > 0 && Steady(old(cursor), n) ==> Idle(queues, n))
      ensures r.Some? ==>
        var h := Visit(old(cursor), turn, n);
        old(queues)[h] == [r.value] + queues[h] && queues == old(queues)[h := queues[h]]
    {
      var c;
      c, turn := Scan(queues, cursor, n);
      if turn == n {
        cursor := c;
        r := None;
        if n > 0 && Steady(old(cursor), n) {
          SweptIdle(queues, old(cursor), n);
        }
      } else {
        var h := c % n;
        CursorStep(old(cursor) + turn);
        cursor := (c + 1) % WORD;
        r := Some(queues[h][0]);
        queues := queues[h := queues[h][1..]];
      }
    }

    /** One turn of the dispatch loop: the next request, if any, joins those served. */
    method ServeNext(n: nat, ghost start: seq<seq<nat>>, ghost c0: nat, ghost served: seq<seq<nat>>, ghost done: nat)
      returns (r: Option<nat>, ghost served': seq<seq<nat>>)
      requires Valid() && n <= |queues| && Progress(start, queues, served, done)
      requires Bounded(c0, cursor, done, Total(start), n)
      modifies `queues, `cursor
      ensures Valid()
      ensures r.Some? ==> Progress(start, queues, served', done + 1) && Total(queues) < Total(old(queues))
      ensures r.Some? ==> Bounded(c0, cursor, done + 1, Total(start), n)
      ensures r.None? ==> queues == old(queues)
      ensures r.None? ==> Emptied(queues, c0, cursor, Total(start), n)
    {
      if n > 0 {
        LastSweep(c0, cursor, done, Total(start), n);
      }
      ghost var turn;
      r, turn := Sweep(n);
      served' := served;
      if r.None? {
        SweepStart(old(cursor), n);
      } else {
        ghost var h := Visit(old(cursor), turn, n);
        Advance(start, old(queues), served, done, h, r.value);
        assert queues == old(queues)[h := old(queues)[h][1..]];
        CursorBound(c0, old(cursor), done, Total(start), n, turn + 1);
        served' := Append(served, h, r.value);
      }
    }

    /**
      dispatch_io with nothing submitted meanwhile: each hart's requests are processed in order,
      each once, and nothing is left if the last sweep's cursor was steady.
    */
    method Dispatch(n: nat) returns (processed: nat, ghost served: seq<seq<nat>>)
      requires Valid() && n <= |queues|
      modifies `queues, `cursor
      ensures Valid() && Progress(old(queues), queues, served, processed)
      ensures Emptied(queues, old(cursor), cursor, Total(old(queues)), n)
    {
      processed, served := 0, NoRequests(|queues|);
      ghost var start, c0, total := queues, cursor, Total(queues);
      Starting(queues);
      while true
        invariant Valid() && Progress(start, queues, served, processed)
        invariant Bounded(c0, cursor, processed, total, n)
        decreases Total(queues)
      {
        var r, next := ServeNext(n, start, c0, served, processed);
        if r.None? {
          return;
        }
        processed, served := processed + 1, next;
      }
    }
  }
}
