/**
  The event queue of the VirtIO input driver (`kernel/src/virtio_input.rs`) as a two-party
  protocol over a split virtqueue (section 2.7 of VirtIO 1.2).  The driver's poll loop takes one
  shared-memory access per step; the device is free to do anything a device may: consume
  available descriptors, fill the buffers it holds in any order, and return them in any order.
*/
module Virtqueue {
  import opened Wrappers

  const N: nat := 64
  const M: nat := 0x1_0000
  const EV_KEY: nat := 1
  const EV_ABS: nat := 3

  datatype Event = Event(kind: nat, code: nat, value: int)

  /** `cur` is the used index that this poll read, `n` the same without wrap-around. */
  datatype Pc =
    | Idle
    | Loop(cur: nat, n: nat)
    | Got(cur: nat, n: nat, d: nat)
    | Readd(cur: nat, n: nat, d: nat)
    | Publish(cur: nat, n: nat, d: nat)
    | Advance(cur: nat, n: nat)

  datatype Place = Avail(k: nat) | Held | Used(k: nat) | Driver

  /**
    Shared memory, then the driver's and the device's own variables, then records: everything
    ever made available and ever used, the events the device sent, the events handed to callers,
    the driver's and the device's indices without wrap-around, and where each descriptor is.
  */
  datatype State = State(
    ring: seq<nat>,
    availIdx: nat,
    used: seq<nat>,
    usedIdx: nat,
    buffers: seq<Event>,
    lastUsed: nat,
    pc: Pc,
    queue: seq<Event>,
    lastAvail: nat,
    held: set<nat>,
    pending: Option<nat>,
    availLog: seq<nat>,
    usedLog: seq<nat>,
    sent: seq<Event>,
    popped: seq<Event>,
    taken: nat,
    consumed: nat,
    place: seq<Place>)

  datatype Label =
    | Poll
    | Step
    | NextEvent
    | Consume
    | Write(d: nat, event: Event)
    | Fill(d: nat)
    | Return

  // ---------------------------------------------------------------- driver

  /** setup_descriptors: descriptor i goes to slot i of the available ring. */
  method SetupDescriptors(ring: array<nat>) returns (availIdx: nat)
    requires ring.Length == N
    modifies ring
    ensures ring[..] == Init().ring && availIdx == Init().availIdx
    ensures availIdx == 64 && forall i :: 0 <= i < 64 ==> ring[i] == i
  {
    availIdx := 0;
    for i := 0 to N
      invariant availIdx == i && forall k :: 0 <= k < i ==> ring[k] == k
    {
      ring[i] := i;
      availIdx := i + 1;
    }
  }

  predicate Wanted(e: Event) { e.kind == EV_KEY || e.kind == EV_ABS }

  function Filter(es: seq<Event>): seq<Event> {
    if es == [] then []
    else Filter(es[..|es| - 1]) + if Wanted(es[|es| - 1]) then [es[|es| - 1]] else []
  }

  lemma FilterLast(es: seq<Event>, e: Event)
    ensures Filter(es + [e]) == Filter(es) + if e.kind == 1 || e.kind == 3 then [e] else []
  {
    assert (es + [e])[..|es|] == es;
  }

  /** Filtering keeps the events of kinds 1 (keys) and 3 (positions) and the order. */
  lemma {:induction false} FilterIs(es: seq<Event>, fs: seq<Event>)
    ensures Filter(es + fs) == Filter(es) + Filter(fs)
    ensures |fs| == 1 ==> Filter(fs) == if fs[0].kind == 1 || fs[0].kind == 3 then fs else []
  {
    if fs == [] {
      assert es + fs == es;
    } else {
      var most, e := fs[..|fs| - 1], fs[|fs| - 1];
      FilterIs(es, most);
      FilterLast(es + most, e);
      assert es + fs == es + most + [e];
    }
  }

  function Init(): State {
    State(seq(N, i => i), N, seq(N, i => 0), 0, seq(N, i => Event(0, 0, 0)),
          0, Idle, [], 0, {}, None,
          seq(N, i => i), [], [], [], 0, 0, seq(N, (i: nat) => Avail(i)))
  }

  predicate Shaped(s: State) { |s.ring| == |s.used| == |s.buffers| == |s.place| == N }

  function Put<T>(s: seq<T>, i: nat, x: T): seq<T> { if i < |s| then s[i := x] else s }

  /** One step of the poll loop. */
  function DriverStep(s: State): State
    requires Shaped(s)
  {
    match s.pc
    case Idle => s
    case Loop(cur, n) =>
      if s.lastUsed == cur then s.(pc := Idle)
      else
        var d := s.used[s.lastUsed % N];
        s.(pc := Got(cur, n, d), place := Put(s.place, d, Driver))
    case Got(cur, n, d) =>
      if d < N then
        var e := s.buffers[d];
        s.(pc := Readd(cur, n, d), queue := s.queue + if Wanted(e) then [e] else [])
      else s.(pc := Advance(cur, n))
    case Readd(cur, n, d) => s.(pc := Publish(cur, n, d), ring := s.ring[s.availIdx % N := d])
    case Publish(cur, n, d) =>
      s.(pc := Advance(cur, n), availIdx := (s.availIdx + 1) % M,
         availLog := s.availLog + [d], place := Put(s.place, d, Avail(|s.availLog|)))
    case Advance(cur, n) => s.(pc := Loop(cur, n), lastUsed := (s.lastUsed + 1) % M, taken := s.taken + 1)
  }

  function Apply(s: State, l: Label): State
    requires Shaped(s)
  {
    match l
    case Poll => if s.pc.Idle? then s.(pc := Loop(s.usedIdx, |s.usedLog|)) else s
    case Step => DriverStep(s)
    case NextEvent =>
      if s.pc.Idle? && s.queue != [] then s.(queue := s.queue[1..], popped := s.popped + [s.queue[0]]) else s
    case Consume =>
      if s.lastAvail != s.availIdx then
        var d := s.ring[s.lastAvail % N];
        s.(lastAvail := (s.lastAvail + 1) % M, held := s.held + {d},
           consumed := s.consumed + 1, place := Put(s.place, d, Held))
      else s
    case Write(d, event) => if d in s.held then s.(buffers := Put(s.buffers, d, event)) else s
    case Fill(d) => if d in s.held then s.(used := s.used[s.usedIdx % N := d], pending := Some(d)) else s
    case Return =>
      if s.pending.Some? && s.pending.value < N then
        var d := s.pending.value;
        s.(usedIdx := (s.usedIdx + 1) % M, pending := None, held := s.held - {d},
           usedLog := s.usedLog + [d], sent := s.sent + [s.buffers[d]],
           place := Put(s.place, d, Used(|s.usedLog|)))
      else s
  }

  function Run(ls: seq<Label>): (s: State)
    ensures Shaped(s)
  {
    if ls == [] then Init() else Apply(Run(ls[..|ls| - 1]), ls[|ls| - 1])
  }

  // ---------------------------------------------------------------- counters

  function A(s: State): nat { |s.availLog| }

  function U(s: State): nat { |s.usedLog| }

  /** Used entries whose id the driver has read. */
  function R(s: State): nat { s.taken + if s.pc.Idle? || s.pc.Loop? then 0 else 1 }

  /** Used entries whose event the driver has examined. */
  function P(s: State): nat { s.taken + if s.pc.Idle? || s.pc.Loop? || s.pc.Got? then 0 else 1 }

  ghost predicate Counters(s: State) {
    && s.availIdx == A(s) % M && s.usedIdx == U(s) % M
    && s.lastAvail == s.consumed % M && s.lastUsed == s.taken % M
    && A(s) == N + s.taken + (if s.pc.Advance? then 1 else 0)
    && R(s) <= U(s) <= s.consumed <= A(s)
    && s.consumed == U(s) + |s.held|
    && |s.sent| == U(s)
    && (!s.pc.Idle? ==> s.pc.cur == s.pc.n % M && R(s) <= s.pc.n <= U(s))
  }

  // ---------------------------------------------------------------- memory and places

  ghost predicate AvailOk(ring: seq<nat>, log: seq<nat>, place: seq<Place>, c: nat) {
    && |ring| == |place| == N
    && forall k :: c <= k < |log| ==> log[k] < N && ring[k % N] == log[k] && place[log[k]] == Avail(k)
  }

  ghost predicate UsedOk(used: seq<nat>, log: seq<nat>, sent: seq<Event>, buffers: seq<Event>, place: seq<Place>, r: nat) {
    && |used| == |buffers| == |place| == N && |sent| == |log|
    && forall k :: r <= k < |log| ==>
         log[k] < N && used[k % N] == log[k] && place[log[k]] == Used(k) && buffers[log[k]] == sent[k]
  }

  ghost predicate HeldOk(held: set<nat>, place: seq<Place>) {
    forall d: nat :: d in held <==> d < |place| && place[d] == Held
  }

  /** The descriptor between its used entry and its re-adding. */
  function Hand(pc: Pc): Option<nat> {
    if pc.Got? || pc.Readd? || pc.Publish? then Some(pc.d) else None
  }

  /** A descriptor's recorded place is where it really is. */
  ghost predicate PlacesOk(place: seq<Place>, availLog: seq<nat>, c: nat, usedLog: seq<nat>, r: nat, hand: Option<nat>) {
    forall d :: 0 <= d < |place| ==>
      match place[d]
      case Avail(k) => c <= k < |availLog| && availLog[k] == d
      case Used(k) => r <= k < |usedLog| && usedLog[k] == d
      case Driver => hand == Some(d)
      case Held => true
  }

  ghost predicate HandOk(hand: Option<nat>, place: seq<Place>) {
    hand.Some? ==> hand.value < |place| && place[hand.value] == Driver
  }

  /** The event of the used entry in hand, the slot about to be published, the used slot about to be returned. */
  ghost predicate DriverOk(s: State) {
    && (s.pc.Got? ==> s.taken < |s.sent| && s.pc.d < |s.buffers| && s.buffers[s.pc.d] == s.sent[s.taken])
    && (s.pc.Publish? ==> A(s) % N < |s.ring| && s.ring[A(s) % N] == s.pc.d)
    && (s.pending.Some? ==>
          s.pending.value in s.held && U(s) % N < |s.used| && s.used[U(s) % N] == s.pending.value)
  }

  ghost predicate EventsOk(sent: seq<Event>, p: nat, popped: seq<Event>, queue: seq<Event>) {
    p <= |sent| && popped + queue == Filter(sent[..p])
  }

  ghost predicate Memory(s: State) {
    && AvailOk(s.ring, s.availLog, s.place, s.consumed)
    && UsedOk(s.used, s.usedLog, s.sent, s.buffers, s.place, R(s))
    && HeldOk(s.held, s.place)
    && PlacesOk(s.place, s.availLog, s.consumed, s.usedLog, R(s), Hand(s.pc))
    && HandOk(Hand(s.pc), s.place)
  }

  ghost predicate Inv(s: State) {
    && Shaped(s)
    && Counters(s)
    && Memory(s)
    && DriverOk(s)
    && EventsOk(s.sent, P(s), s.popped, s.queue)
  }

  lemma InitInv()
    ensures Inv(Init())
  {
    InitMemory();
    assert Filter([]) == [] && Init().sent[..0] == [];
  }

  lemma InitMemory()
    ensures Memory(Init())
  {
    var s := Init();
    assert forall k :: 0 <= k < N ==> s.availLog[k] == k && s.ring[k] == k && s.place[k] == Avail(k);
    assert forall k :: 0 <= k < N ==> k % N == k;
  }

  // ---------------------------------------------------------------- arithmetic of the wrapping indices

  lemma Slot(n: nat)
    ensures n % M % N == n % N
  {
  }

  lemma Next(n: nat)
    ensures (n % M + 1) % M == (n + 1) % M
  {
  }

  lemma SameIndex(a: nat, b: nat)
    requires a <= b < a + M
    ensures a % M == b % M <==> a == b
  {
  }

  lemma SlotsDiffer(a: nat, b: nat)
    requires a < b < a + N
    ensures a % N != b % N
  {
  }

  // ---------------------------------------------------------------- every step keeps the invariant

  lemma InvPoll(s: State)
    requires Inv(s)
    ensures Inv(Apply(s, Poll))
  {
  }

  lemma InvNextEvent(s: State)
    requires Inv(s)
    ensures Inv(Apply(s, NextEvent))
  {
    if s.queue != [] {
      assert s.popped + [s.queue[0]] + s.queue[1..] == s.popped + s.queue;
    }
  }

  lemma InvWrite(s: State, d: nat, event: Event)
    requires Inv(s)
    ensures Inv(Apply(s, Write(d, event)))
  {
  }

  lemma InvFill(s: State, d: nat)
    requires Inv(s)
    ensures Inv(Apply(s, Fill(d)))
  {
    Slot(U(s));
    if d in s.held {
      assert s.held != {};
      forall k | R(s) <= k < U(s) ensures k % N != U(s) % N {
        SlotsDiffer(k, U(s));
      }
    }
  }

  /** The next descriptor to consume: published, and not already with the device. */
  lemma Consumable(s: State)
    requires Inv(s) && s.lastAvail != s.availIdx
    ensures s.consumed < A(s) && s.ring[s.lastAvail % N] == s.availLog[s.consumed] < N
    ensures s.place[s.availLog[s.consumed]] == Avail(s.consumed) && s.availLog[s.consumed] !in s.held
  {
    SameIndex(s.consumed, A(s));
    Slot(s.consumed);
  }

  lemma ConsumeMemory(s: State, d: nat)
    requires Shaped(s) && Memory(s) && s.consumed < A(s) && d == s.availLog[s.consumed] < N
    ensures
      var place := s.place[d := Held];
      && AvailOk(s.ring, s.availLog, place, s.consumed + 1)
      && UsedOk(s.used, s.usedLog, s.sent, s.buffers, place, R(s))
      && HeldOk(s.held + {d}, place)
      && PlacesOk(place, s.availLog, s.consumed + 1, s.usedLog, R(s), Hand(s.pc))
      && HandOk(Hand(s.pc), place)
  {
    assert s.place[d] == Avail(s.consumed);
  }

  lemma ConsumeCounters(s: State)
    requires Shaped(s) && Counters(s) && DriverOk(s) && s.lastAvail != s.availIdx
    requires s.consumed < A(s) && s.ring[s.lastAvail % N] !in s.held
    ensures Counters(Apply(s, Consume)) && DriverOk(Apply(s, Consume))
  {
    Next(s.consumed);
  }

  lemma InvConsume(s: State)
    requires Inv(s) && s.lastAvail != s.availIdx
    ensures Inv(Apply(s, Consume))
  {
    Consumable(s);
    ConsumeKeeps(s);
    ConsumeCounters(s);
  }

  lemma ConsumeKeeps(s: State)
    requires Shaped(s) && Memory(s) && s.lastAvail != s.availIdx
    requires s.consumed < A(s) && s.ring[s.lastAvail % N] == s.availLog[s.consumed] < N
    ensures var t := Apply(s, Consume); Shaped(t) && Memory(t) && P(t) == P(s)
  {
    ConsumeMemory(s, s.availLog[s.consumed]);
  }

  lemma ReturnMemory(s: State, d: nat)
    requires Shaped(s) && Memory(s) && |s.sent| == U(s) && R(s) <= U(s)
    requires d in s.held && s.used[U(s) % N] == d
    ensures
      var place := s.place[d := Used(U(s))];
      var usedLog, sent := s.usedLog + [d], s.sent + [s.buffers[d]];
      && AvailOk(s.ring, s.availLog, place, s.consumed)
      && UsedOk(s.used, usedLog, sent, s.buffers, place, R(s))
      && HeldOk(s.held - {d}, place)
      && PlacesOk(place, s.availLog, s.consumed, usedLog, R(s), Hand(s.pc))
      && HandOk(Hand(s.pc), place)
  {
    assert s.place[d] == Held;
  }

  lemma ReturnCounters(s: State)
    requires Shaped(s) && Counters(s) && DriverOk(s) && s.pending.Some? && s.pending.value < N
    ensures Counters(Apply(s, Return)) && DriverOk(Apply(s, Return))
  {
    Next(U(s));
  }

  lemma ReturnKeeps(s: State)
    requires Shaped(s) && Memory(s) && Counters(s) && DriverOk(s) && s.pending.Some?
    ensures s.pending.value < N && Memory(Apply(s, Return))
  {
    assert HeldOk(s.held, s.place);
    ReturnMemory(s, s.pending.value);
  }

  /** An event sent later does not change what the driver has examined. */
  lemma MoreSent(sent: seq<Event>, e: Event, p: nat, popped: seq<Event>, queue: seq<Event>)
    requires EventsOk(sent, p, popped, queue)
    ensures EventsOk(sent + [e], p, popped, queue)
  {
    assert (sent + [e])[..p] == sent[..p];
  }

  lemma InvReturn(s: State)
    requires Inv(s) && s.pending.Some?
    ensures Inv(Apply(s, Return))
  {
    ReturnKeeps(s);
    ReturnCounters(s);
    MoreSent(s.sent, s.buffers[s.pending.value], P(s), s.popped, s.queue);
  }

  lemma TakeMemory(s: State, d: nat)
    requires Shaped(s) && Memory(s) && Hand(s.pc).None? && R(s) < U(s) && d == s.usedLog[R(s)] < N
    ensures
      var place := s.place[d := Driver];
      && AvailOk(s.ring, s.availLog, place, s.consumed)
      && UsedOk(s.used, s.usedLog, s.sent, s.buffers, place, R(s) + 1)
      && HeldOk(s.held, place)
      && PlacesOk(place, s.availLog, s.consumed, s.usedLog, R(s) + 1, Some(d))
      && HandOk(Some(d), place)
  {
    assert s.place[d] == Used(R(s));
  }

  lemma InvTake(s: State)
    requires Inv(s) && s.pc.Loop?
    ensures Inv(DriverStep(s))
  {
    SameIndex(s.taken, s.pc.n);
    Slot(s.taken);
    if s.taken < s.pc.n {
      assert s.used[s.taken % N] == s.usedLog[s.taken];
      TakeMemory(s, s.usedLog[s.taken]);
    }
  }

  lemma InvExamine(s: State)
    requires Inv(s) && s.pc.Got?
    ensures Inv(DriverStep(s))
  {
    var es := s.sent[..s.taken + 1];
    assert es[..s.taken] == s.sent[..s.taken];
    assert s.popped + (s.queue + if Wanted(es[s.taken]) then [es[s.taken]] else []) == Filter(es);
  }

  lemma InvReadd(s: State)
    requires Inv(s) && s.pc.Readd?
    ensures Inv(DriverStep(s))
  {
    Slot(A(s));
    forall k | s.consumed <= k < A(s) ensures k % N != A(s) % N {
      SlotsDiffer(k, A(s));
    }
  }

  lemma InvPublish(s: State)
    requires Inv(s) && s.pc.Publish?
    ensures Inv(DriverStep(s))
  {
    Next(A(s));
  }

  lemma InvAdvance(s: State)
    requires Inv(s) && s.pc.Advance?
    ensures Inv(DriverStep(s))
  {
    Next(s.taken);
  }

  lemma InvStep(s: State, l: Label)
    requires Inv(s)
    ensures Inv(Apply(s, l))
  {
    match l
    case Poll => InvPoll(s);
    case Step =>
      match s.pc {
        case Idle =>
        case Loop(_, _) => InvTake(s);
        case Got(_, _, _) => InvExamine(s);
        case Readd(_, _, _) => InvReadd(s);
        case Publish(_, _, _) => InvPublish(s);
        case Advance(_, _) => InvAdvance(s);
      }
    case NextEvent => InvNextEvent(s);
    case Consume => if s.lastAvail != s.availIdx { InvConsume(s); }
    case Write(d, event) => InvWrite(s, d, event);
    case Fill(d) => InvFill(s, d);
    case Return => if s.pending.Some? { InvReturn(s); }
  }

  /** The invariant holds in every run, however long the indices wrap. */
  lemma {:induction false} InvRun(ls: seq<Label>)
    ensures Inv(Run(ls))
  {
    if ls == [] {
      InitInv();
    } else {
      InvRun(ls[..|ls| - 1]);
      InvStep(Run(ls[..|ls| - 1]), ls[|ls| - 1]);
    }
  }

  // ---------------------------------------------------------------- results

  function EntryAt(ring: seq<nat>, k: nat): nat
    requires |ring| == N
  {
    ring[k % N]
  }

  /** Offered to the device and not consumed, by the contents of the available ring. */
  ghost predicate IsAvail(s: State, d: nat)
    requires Shaped(s)
  {
    exists k :: s.consumed <= k < A(s) && EntryAt(s.ring, k) == d
  }

  /** Returned by the device and not yet read, by the contents of the used ring. */
  ghost predicate IsUsed(s: State, d: nat)
    requires Shaped(s)
  {
    exists k :: R(s) <= k < U(s) && EntryAt(s.used, k) == d
  }

  function Count(b: bool): nat { if b then 1 else 0 }

  /** Each descriptor is in exactly one place, and there once. */
  ghost predicate OnePlace(s: State, d: nat)
    requires Shaped(s)
  {
    && Count(IsAvail(s, d)) + Count(d in s.held) + Count(IsUsed(s, d)) + Count(Hand(s.pc) == Some(d)) == 1
    && (forall j, k :: s.consumed <= j < k < A(s) && EntryAt(s.ring, j) == d ==> EntryAt(s.ring, k) != d)
    && (forall j, k :: R(s) <= j < k < U(s) && EntryAt(s.used, j) == d ==> EntryAt(s.used, k) != d)
  }

  lemma AvailIs(s: State, d: nat)
    requires Shaped(s) && Memory(s) && d < N
    ensures IsAvail(s, d) <==> s.place[d].Avail?
    ensures IsUsed(s, d) <==> s.place[d].Used?
  {
    match s.place[d]
    case Avail(k) => assert EntryAt(s.ring, k) == d;
    case Used(k) => assert EntryAt(s.used, k) == d;
    case _ =>
  }

  lemma DescriptorConserved(ls: seq<Label>, d: nat)
    requires d < N
    ensures OnePlace(Run(ls), d)
  {
    InvRun(ls);
    var s := Run(ls);
    AvailIs(s, d);
    forall j, k | s.consumed <= j < k < A(s) && EntryAt(s.ring, j) == d ensures EntryAt(s.ring, k) != d {
      assert s.place[s.availLog[j]] == Avail(j) && s.place[s.availLog[k]] == Avail(k);
    }
    forall j, k | R(s) <= j < k < U(s) && EntryAt(s.used, j) == d ensures EntryAt(s.used, k) != d {
      assert s.place[s.usedLog[j]] == Used(j) && s.place[s.usedLog[k]] == Used(k);
    }
  }

  /** Re-adding a descriptor writes a slot that holds no unconsumed entry; the device's used slot holds no unread one. */
  lemma NoOverwrite(ls: seq<Label>)
    ensures
      var s := Run(ls);
      && (s.pc.Readd? ==> forall k :: s.consumed <= k < A(s) ==> k % N != s.availIdx % N)
      && (s.held != {} ==> forall k :: R(s) <= k < U(s) ==> k % N != s.usedIdx % N)
  {
    InvRun(ls);
    var s := Run(ls);
    Slot(A(s));
    Slot(U(s));
    if s.pc.Readd? {
      forall k | s.consumed <= k < A(s) ensures k % N != A(s) % N { SlotsDiffer(k, A(s)); }
    }
    if s.held != {} {
      forall k | R(s) <= k < U(s) ensures k % N != U(s) % N { SlotsDiffer(k, U(s)); }
    }
  }

  /** What callers received and will receive is exactly the key and position events the device sent, in its order. */
  lemma EventsInOrder(ls: seq<Label>)
    ensures
      var s := Run(ls);
      P(s) <= |s.sent| && s.popped + s.queue == Filter(s.sent[..P(s)])
  {
    InvRun(ls);
  }

  /** A poll ends only when it has examined every event returned before it began, whatever the indices' wrap-around. */
  lemma PollComplete(ls: seq<Label>)
    ensures
      var s := Run(ls);
      s.pc.Loop? ==>
        && s.taken <= s.pc.n <= |s.sent|
        && (Apply(s, Step).pc.Idle? <==> s.taken == s.pc.n)
        && (Apply(s, Step).pc.Idle? ==> s.popped + s.queue == Filter(s.sent[..s.pc.n]))
  {
    InvRun(ls);
    var s := Run(ls);
    if s.pc.Loop? {
      SameIndex(s.taken, s.pc.n);
    }
  }

  // ---------------------------------------------------------------- whole calls

  lemma RunSnoc(ls: seq<Label>, l: Label)
    ensures Run(ls + [l]) == Apply(Run(ls), l)
  {
    assert (ls + [l])[..|ls|] == ls;
  }

  /** The state before label k of a run. */
  function At(ls: seq<Label>, k: nat): (s: State)
    requires k <= |ls|
    ensures Shaped(s)
  {
    Run(ls[..k])
  }

  lemma NextAt(ls: seq<Label>, k: nat)
    requires k < |ls|
    ensures At(ls, k + 1) == Apply(At(ls, k), ls[k])
  {
    assert ls[..k + 1][..k] == ls[..k];
  }

  /** The part of the invariant that whole calls rest on. */
  ghost predicate Sound(s: State) {
    Counters(s) && DriverOk(s) && |s.buffers| == N && EventsOk(s.sent, P(s), s.popped, s.queue)
  }

  lemma SoundRun(ls: seq<Label>)
    ensures Sound(Run(ls))
  {
    InvRun(ls);
  }

  lemma SoundAt(ls: seq<Label>, k: nat)
    requires k <= |ls|
    ensures Sound(At(ls, k))
  {
    SoundRun(ls[..k]);
  }

  /** The driver is inside a poll that label i started. */
  ghost predicate Polling(ls: seq<Label>, i: nat, k: nat) {
    && i < k <= |ls| && ls[i] == Poll && At(ls, i).pc.Idle?
    && forall q :: i < q < k ==> !At(ls, q).pc.Idle?
  }

  /** A poll that began in s and has come to t: it is over and has examined all of s's events, or it is still to do so. */
  ghost predicate PollTo(s: State, t: State) {
    && s.sent <= t.sent && t.popped == s.popped
    && if t.pc.Idle? then t.taken == U(s) else t.pc.n == U(s)
  }

  lemma PollStarts(s: State)
    requires Shaped(s) && Sound(s) && s.pc.Idle?
    ensures PollTo(s, Apply(s, Poll)) && !Apply(s, Poll).pc.Idle?
  {
  }

  lemma PollNext(s: State, t: State, l: Label)
    requires Shaped(t) && Sound(t) && PollTo(s, t) && !t.pc.Idle?
    ensures PollTo(s, Apply(t, l))
  {
    if t.pc.Loop? { SameIndex(t.taken, t.pc.n); }
  }

  lemma PollNextAt(ls: seq<Label>, s: State, k: nat)
    requires k < |ls| && PollTo(s, At(ls, k)) && !At(ls, k).pc.Idle?
    ensures PollTo(s, At(ls, k + 1))
  {
    NextAt(ls, k);
    SoundAt(ls, k);
    PollNext(s, At(ls, k), ls[k]);
  }

  lemma PollStartsAt(ls: seq<Label>, i: nat)
    requires i < |ls| && ls[i] == Poll && At(ls, i).pc.Idle?
    ensures PollTo(At(ls, i), At(ls, i + 1)) && !At(ls, i + 1).pc.Idle?
    ensures |At(ls, i).sent| == U(At(ls, i)) && Rank(At(ls, i + 1)) == 5 * (|At(ls, i).sent| - At(ls, i).taken) + 1
  {
    NextAt(ls, i);
    SoundAt(ls, i);
    PollStarts(At(ls, i));
  }

  lemma {:induction false} PollingAt(ls: seq<Label>, i: nat, k: nat)
    requires Polling(ls, i, k)
    ensures PollTo(At(ls, i), At(ls, k))
  {
    if k == i + 1 {
      PollStartsAt(ls, i);
    } else {
      PollingAt(ls, i, k - 1);
      PollNextAt(ls, At(ls, i), k - 1);
    }
  }

  /** Everything the device had sent is in the queue or was there before, and nothing else. */
  ghost predicate Collected(s: State, t: State) {
    t.pc.Idle? && t.popped == s.popped && t.popped + t.queue == Filter(s.sent) && t.taken == |s.sent|
  }

  lemma PollOver(s: State, t: State)
    requires |s.sent| == U(s) && Sound(t) && PollTo(s, t) && t.pc.Idle?
    ensures Collected(s, t)
  {
    assert t.sent[..U(s)] == s.sent;
  }

  /** Whatever the device does meanwhile, a poll that returns has queued exactly the wanted events sent before it began. */
  lemma PollCall(ls: seq<Label>, i: nat, k: nat)
    requires Polling(ls, i, k) && At(ls, k).pc.Idle?
    ensures Collected(At(ls, i), At(ls, k))
  {
    PollingAt(ls, i, k);
    PollStartsAt(ls, i);
    SoundAt(ls, k);
    PollOver(At(ls, i), At(ls, k));
  }

  /** The steps a poll still has to take. */
  function Rank(s: State): int {
    match s.pc
    case Idle => 0
    case Loop(_, n) => 5 * (n - s.taken) + 1
    case Got(_, n, _) => 5 * (n - s.taken)
    case Readd(_, n, _) => 5 * (n - s.taken) - 1
    case Publish(_, n, _) => 5 * (n - s.taken) - 2
    case Advance(_, n) => 5 * (n - s.taken) - 3
  }

  lemma RankFalls(s: State, l: Label)
    requires Shaped(s) && Sound(s) && !s.pc.Idle?
    ensures Rank(Apply(s, l)) == Rank(s) - (if l == Step then 1 else 0)
  {
    if s.pc.Loop? { SameIndex(s.taken, s.pc.n); }
  }

  /** How many of the labels from i to k are driver steps. */
  function Steps(ls: seq<Label>, i: nat, k: nat): nat
    requires k <= |ls|
    decreases k
  {
    if i >= k then 0 else Steps(ls, i, k - 1) + if ls[k - 1] == Step then 1 else 0
  }

  lemma RankFallsAt(ls: seq<Label>, k: nat)
    requires k < |ls| && !At(ls, k).pc.Idle?
    ensures Rank(At(ls, k + 1)) == Rank(At(ls, k)) - (if ls[k] == Step then 1 else 0)
  {
    NextAt(ls, k);
    SoundAt(ls, k);
    RankFalls(At(ls, k), ls[k]);
  }

  lemma {:induction false} RankSpent(ls: seq<Label>, i: nat, k: nat)
    requires i <= k <= |ls| && forall q :: i <= q < k ==> !At(ls, q).pc.Idle?
    ensures Rank(At(ls, k)) == Rank(At(ls, i)) - Steps(ls, i, k)
    decreases k
  {
    if i < k {
      RankSpent(ls, i, k - 1);
      RankFallsAt(ls, k - 1);
    }
  }

  lemma RankZero(s: State)
    requires Sound(s)
    ensures Rank(s) >= 0 && (Rank(s) == 0 <==> s.pc.Idle?)
  {
  }

  /** A poll takes exactly five steps for each event and one to see that there are no more, however fast the device sends. */
  lemma PollEnds(ls: seq<Label>, i: nat, k: nat)
    requires Polling(ls, i, k)
    ensures
      var s := At(ls, i); var n := 5 * (|s.sent| - s.taken) + 1;
      Steps(ls, i + 1, k) <= n && (At(ls, k).pc.Idle? <==> Steps(ls, i + 1, k) == n)
  {
    PollStartsAt(ls, i);
    RankSpent(ls, i + 1, k);
    SoundAt(ls, k);
    RankZero(At(ls, k));
  }

  function Repeat(l: Label, n: nat): seq<Label> { if n == 0 then [] else Repeat(l, n - 1) + [l] }

  lemma RepeatLast(ls: seq<Label>, l: Label, n: nat)
    requires n > 0
    ensures ls + Repeat(l, n) == ls + Repeat(l, n - 1) + [l]
  {
  }

  lemma RunRepeat(ls: seq<Label>, l: Label, n: nat)
    requires n > 0
    ensures Run(ls + Repeat(l, n)) == Apply(Run(ls + Repeat(l, n - 1)), l)
  {
    RepeatLast(ls, l, n);
    RunSnoc(ls + Repeat(l, n - 1), l);
  }

  lemma PollStepOn(ls: seq<Label>, s: State, k: nat)
    requires var t := Run(ls + Repeat(Step, k)); PollTo(s, t) && Rank(t) > 0
    ensures var t, u := Run(ls + Repeat(Step, k)), Run(ls + Repeat(Step, k + 1)); PollTo(s, u) && Rank(u) == Rank(t) - 1
  {
    var t := Run(ls + Repeat(Step, k));
    SoundRun(ls + Repeat(Step, k));
    RankZero(t);
    RunRepeat(ls, Step, k + 1);
    PollNext(s, t, Step);
    RankFalls(t, Step);
  }

  lemma {:induction false} PollSteps(ls: seq<Label>, s: State, k: nat)
    requires PollTo(s, Run(ls)) && k <= Rank(Run(ls))
    ensures var t := Run(ls + Repeat(Step, k)); PollTo(s, t) && Rank(t) == Rank(Run(ls)) - k
  {
    if k == 0 {
      assert ls + Repeat(Step, 0) == ls;
    } else {
      PollSteps(ls, s, k - 1);
      PollStepOn(ls, s, k - 1);
    }
  }

  lemma PollBegins(ls: seq<Label>)
    requires Run(ls).pc.Idle?
    ensures
      var s, t := Run(ls), Run(ls + [Poll]);
      s.taken <= |s.sent| == U(s) && PollTo(s, t) && Rank(t) == 5 * (|s.sent| - s.taken) + 1
  {
    RunSnoc(ls, Poll);
    SoundRun(ls);
    PollStarts(Run(ls));
  }

  lemma PollIsOver(ls: seq<Label>, s: State)
    requires PollTo(s, Run(ls)) && Rank(Run(ls)) == 0 && |s.sent| == U(s)
    ensures Collected(s, Run(ls))
  {
    SoundRun(ls);
    RankZero(Run(ls));
    PollOver(s, Run(ls));
  }

  lemma PollRuns(ls: seq<Label>, s: State, n: nat)
    requires PollTo(s, Run(ls)) && |s.sent| == U(s) && Rank(Run(ls)) == n
    ensures Collected(s, Run(ls + Repeat(Step, n)))
  {
    PollSteps(ls, s, n);
    PollIsOver(ls + Repeat(Step, n), s);
  }

  /** The steps of a poll that begins in an idle state s. */
  function PollLength(s: State): nat { if s.taken <= |s.sent| then 5 * (|s.sent| - s.taken) + 1 else 0 }

  /** After any run, an undisturbed poll returns with exactly the wanted events that were sent. */
  lemma PollAlone(ls: seq<Label>)
    requires Run(ls).pc.Idle?
    ensures Collected(Run(ls), Run(ls + [Poll] + Repeat(Step, PollLength(Run(ls)))))
  {
    PollBegins(ls);
    PollRuns(ls + [Poll], Run(ls), PollLength(Run(ls)));
  }

  /** next_event hands over the head of the queue, and nothing exactly if the queue is empty. */
  lemma NextEventPops(ls: seq<Label>)
    requires Run(ls).pc.Idle?
    ensures
      var s, t := Run(ls), Run(ls + [NextEvent]);
      && t.pc.Idle?
      && if s.queue == [] then t == s else s.queue == [t.popped[|t.popped| - 1]] + t.queue && t.popped[..|t.popped| - 1] == s.popped
  {
    RunSnoc(ls, NextEvent);
  }

  /** The caller of an idle driver has taken k of the events that were queued in s. */
  ghost predicate Drained(s: State, k: nat, t: State) {
    k <= |s.queue| && t.pc.Idle? && t.popped == s.popped + s.queue[..k] && t.queue == s.queue[k..]
  }

  lemma DrainNext(s: State, k: nat, t: State)
    requires Shaped(t) && Drained(s, k, t) && k < |s.queue|
    ensures Drained(s, k + 1, Apply(t, NextEvent))
  {
    assert s.queue[..k + 1] == s.queue[..k] + [s.queue[k]];
  }

  lemma {:induction false} Drains(ls: seq<Label>, s: State, k: nat)
    requires Drained(s, 0, Run(ls)) && k <= |s.queue|
    ensures Drained(s, k, Run(ls + Repeat(NextEvent, k)))
  {
    if k == 0 {
      assert ls + Repeat(NextEvent, 0) == ls;
    } else {
      Drains(ls, s, k - 1);
      RunRepeat(ls, NextEvent, k);
      DrainNext(s, k - 1, Run(ls + Repeat(NextEvent, k - 1)));
    }
  }

  /** Poll, then take events until the queue is empty: the caller has received every wanted event ever sent, in order. */
  lemma AllDelivered(ls: seq<Label>)
    requires Run(ls).pc.Idle?
    ensures
      var polled := ls + [Poll] + Repeat(Step, PollLength(Run(ls)));
      var t := Run(polled + Repeat(NextEvent, |Run(polled).queue|));
      t.pc.Idle? && t.queue == [] && t.popped == Filter(Run(ls).sent)
  {
    PollAlone(ls);
    var polled := ls + [Poll] + Repeat(Step, PollLength(Run(ls)));
    Drains(polled, Run(polled), |Run(polled).queue|);
    assert Run(polled).queue[..|Run(polled).queue|] == Run(polled).queue;
  }

  lemma SentStep(ls: seq<Label>, d: nat, e: Event)
    requires d in Run(ls).held
    ensures
      var s, t := Run(ls), Run(ls + [Write(d, e)]);
      d < N && t.held == s.held && t.sent == s.sent && t.pc == s.pc && t.buffers[d] == e
  {
    InvRun(ls);
    assert HeldOk(Run(ls).held, Run(ls).place);
    RunSnoc(ls, Write(d, e));
  }

  /** A device that writes an event into a buffer it holds and returns the buffer has sent that event. */
  lemma EventSent(ls: seq<Label>, d: nat, e: Event)
    requires d in Run(ls).held
    ensures
      var s, t := Run(ls), Run(ls + [Write(d, e)] + [Fill(d)] + [Return]);
      t.sent == s.sent + [e] && t.held == s.held - {d} && t.pc == s.pc
  {
    SentStep(ls, d, e);
    RunSnoc(ls + [Write(d, e)], Fill(d));
    RunSnoc(ls + [Write(d, e)] + [Fill(d)], Return);
  }

  /** Once the driver has caught up, every one of the 64 descriptors is with the device or there to be consumed. */
  lemma NeverStarved(ls: seq<Label>)
    requires Run(ls).pc.Idle? && Run(ls).taken == |Run(ls).sent|
    ensures
      var s, t := Run(ls), Run(ls + [Consume]);
      if |s.held| == N then t == s else |t.held| == |s.held| + 1 && s.held < t.held
  {
    InvRun(ls);
    RunSnoc(ls, Consume);
    var s := Run(ls);
    SameIndex(s.consumed, A(s));
    if s.lastAvail != s.availIdx { Consumable(s); }
  }
}
