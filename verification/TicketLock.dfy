/**
  The ticket lock of `kernel/src/lock/mod.rs` as interleaved steps on two wrapping 32-bit
  counters.  `issued` and `served` are the same counters without the wrap-around, `owner`
  remembers who drew a ticket and `abandoned` which tickets a failed try_lock left behind;
  no step reads these four to decide what to do.
*/
module TicketLock {
  const WORD: nat := 0x1_0000_0000

  datatype Pc =
    | Idle
    | Waiting(ticket: nat, n: nat)
    | Holding(n: nat)
    | TryLoadNext(current: nat)
    | TryFetch
    | TryCheck(ticket: nat, n: nat)

  datatype State = State(
    nextTicket: nat,
    nowServing: nat,
    pcs: map<nat, Pc>,
    issued: nat,
    served: nat,
    owner: map<nat, nat>,
    abandoned: set<nat>)

  datatype Label = Lock(id: nat) | TryLock(id: nat) | Step(id: nat) | Drop(id: nat)

  function Init(): State { State(0, 0, map[], 0, 0, map[], {}) }

  function PcOf(s: State, i: nat): Pc { if i in s.pcs then s.pcs[i] else Idle }

  function Set(s: State, i: nat, pc: Pc): State { s.(pcs := s.pcs[i := pc]) }

  /** next_ticket.fetch_add(1) by agent i. */
  function Draw(s: State, i: nat): State {
    s.(nextTicket := (s.nextTicket + 1) % WORD, issued := s.issued + 1, owner := s.owner[s.issued := i])
  }

  function Next(s: State, i: nat): State {
    match PcOf(s, i)
    case Waiting(ticket, n) => if s.nowServing == ticket then Set(s, i, Holding(n)) else s
    case TryLoadNext(current) => Set(s, i, if current == s.nextTicket then TryFetch else Idle)
    case TryFetch => Set(Draw(s, i), i, TryCheck(s.nextTicket, s.issued))
    case TryCheck(ticket, n) =>
      if s.nowServing == ticket then Set(s, i, Holding(n))
      else Set(s, i, Idle).(abandoned := s.abandoned + {n})
    case _ => s
  }

  function Apply(s: State, l: Label): State {
    var pc := PcOf(s, l.id);
    match l
    case Lock(i) => if pc.Idle? then Set(Draw(s, i), i, Waiting(s.nextTicket, s.issued)) else s
    case TryLock(i) => if pc.Idle? then Set(s, i, TryLoadNext(s.nowServing)) else s
    case Step(i) => Next(s, i)
    case Drop(i) =>
      if pc.Holding? then Set(s, i, Idle).(nowServing := (s.nowServing + 1) % WORD, served := s.served + 1)
      else s
  }

  function Run(ls: seq<Label>): State {
    if ls == [] then Init() else Apply(Run(ls[..|ls| - 1]), ls[|ls| - 1])
  }

  /** At no point of the run are more than 2^32 tickets outstanding. */
  ghost predicate Bounded(ls: seq<Label>) {
    forall k | 0 <= k <= |ls| :: Run(ls[..k]).issued - Run(ls[..k]).served <= WORD
  }

  // ---------------------------------------------------------------- the invariant

  predicate HasTicket(pc: Pc) { pc.Waiting? || pc.Holding? || pc.TryCheck? }

  ghost predicate PcInv(s: State, i: nat, pc: Pc) {
    && (HasTicket(pc) ==>
          && s.served <= pc.n < s.issued
          && pc.n in s.owner && s.owner[pc.n] == i && pc.n !in s.abandoned)
    && (pc.Waiting? || pc.TryCheck? ==> pc.ticket == pc.n % WORD)
    && (pc.Holding? ==> pc.n == s.served)
  }

  /** Every outstanding ticket is abandoned or in the hands of the agent that drew it. */
  ghost predicate TicketInv(s: State, n: nat) {
    n in s.owner && (n in s.abandoned || (HasTicket(PcOf(s, s.owner[n])) && PcOf(s, s.owner[n]).n == n))
  }

  ghost predicate Inv(s: State) {
    && s.nextTicket == s.issued % WORD && s.nowServing == s.served % WORD
    && s.served <= s.issued
    && (forall i | i in s.pcs :: PcInv(s, i, s.pcs[i]))
    && (forall n | s.served <= n < s.issued :: TicketInv(s, n))
    && (forall n | n in s.abandoned :: s.served <= n < s.issued)
    && (forall n | n in s.owner :: n < s.issued)
  }

  lemma SameWord(a: nat, n: nat)
    requires a <= n < a + WORD
    ensures n % WORD == a % WORD <==> n == a
  {
  }

  lemma SuccWord(a: nat)
    ensures (a % WORD + 1) % WORD == (a + 1) % WORD
  {
  }

  lemma InvDraw(s: State, i: nat, pc: Pc)
    requires Inv(s) && !HasTicket(PcOf(s, i))
    requires (pc.Waiting? || pc.TryCheck?) && pc.ticket == s.nextTicket && pc.n == s.issued
    ensures Inv(Set(Draw(s, i), i, pc))
  {
    SuccWord(s.issued);
    var s' := Set(Draw(s, i), i, pc);
    forall j | j in s'.pcs ensures PcInv(s', j, s'.pcs[j]) {
      assert j != i ==> PcInv(s, j, s.pcs[j]);
    }
    forall n | s'.served <= n < s'.issued ensures TicketInv(s', n) {
      assert n < s.issued ==> TicketInv(s, n);
    }
  }

  lemma InvNext(s: State, i: nat)
    requires Inv(s) && s.issued - s.served <= WORD
    ensures Inv(Next(s, i))
  {
    var s' := Next(s, i);
    if i in s.pcs { assert PcInv(s, i, s.pcs[i]); }
    match PcOf(s, i)
    case Waiting(ticket, n) =>
      SameWord(s.served, n);
      InvRetag(s, s', i);
    case TryLoadNext(_) => InvRetag(s, s', i);
    case TryFetch => InvDraw(s, i, TryCheck(s.nextTicket, s.issued));
    case TryCheck(ticket, n) =>
      SameWord(s.served, n);
      InvRetag(s, s', i);
    case _ =>
  }

  /** A step that moves no counter: agent i keeps its ticket, has none, or abandons it. */
  lemma InvRetag(s: State, s': State, i: nat)
    requires Inv(s)
    requires s' == Set(s, i, PcOf(s', i)).(abandoned := s'.abandoned)
    requires PcInv(s', i, PcOf(s', i))
    requires
      var pc, pc' := PcOf(s, i), PcOf(s', i);
      || (s'.abandoned == s.abandoned && (HasTicket(pc) <==> HasTicket(pc')) && (HasTicket(pc) ==> pc'.n == pc.n))
      || (HasTicket(pc) && !HasTicket(pc') && s'.abandoned == s.abandoned + {pc.n})
    ensures Inv(s')
  {
    if i in s.pcs { assert PcInv(s, i, s.pcs[i]); }
    forall j | j in s'.pcs ensures PcInv(s', j, s'.pcs[j]) {
      assert j != i ==> PcInv(s, j, s.pcs[j]);
    }
    forall n | s'.served <= n < s'.issued ensures TicketInv(s', n) {
      assert TicketInv(s, n);
    }
  }

  lemma InvDrop(s: State, i: nat)
    requires Inv(s)
    ensures Inv(Apply(s, Drop(i)))
  {
    var s' := Apply(s, Drop(i));
    if PcOf(s, i).Holding? {
      SuccWord(s.served);
      assert PcInv(s, i, s.pcs[i]);
      forall j | j in s'.pcs ensures PcInv(s', j, s'.pcs[j]) {
        assert j != i ==> PcInv(s, j, s.pcs[j]);
      }
      forall n | s'.served <= n < s'.issued ensures TicketInv(s', n) {
        assert TicketInv(s, n);
      }
    }
  }

  lemma InvStep(s: State, l: Label)
    requires Inv(s) && s.issued - s.served <= WORD
    ensures Inv(Apply(s, l))
  {
    match l
    case Lock(i) => if PcOf(s, i).Idle? { InvDraw(s, i, Waiting(s.nextTicket, s.issued)); }
    case TryLock(i) => if PcOf(s, i).Idle? { InvRetag(s, Apply(s, l), i); }
    case Step(i) => InvNext(s, i);
    case Drop(i) => InvDrop(s, i);
  }

  lemma BoundedPrefix(ls: seq<Label>, n: nat)
    requires Bounded(ls) && n <= |ls|
    ensures Bounded(ls[..n])
  {
    assert forall k | 0 <= k <= n :: ls[..n][..k] == ls[..k];
  }

  /** Every bounded interleaving keeps the invariant. */
  lemma {:induction false} InvRun(ls: seq<Label>)
    requires Bounded(ls)
    ensures Inv(Run(ls))
  {
    if ls != [] {
      var most := ls[..|ls| - 1];
      BoundedPrefix(ls, |most|);
      InvRun(most);
      assert most[..|most|] == most;
      InvStep(Run(most), ls[|ls| - 1]);
    }
  }

  lemma RunSnoc(ls: seq<Label>, l: Label)
    ensures Run(ls + [l]) == Apply(Run(ls), l)
  {
    assert (ls + [l])[..|ls|] == ls;
  }

  // ---------------------------------------------------------------- results

  /** At most one agent holds the lock. */
  lemma Exclusion(ls: seq<Label>, i: nat, j: nat)
    requires Bounded(ls) && PcOf(Run(ls), i).Holding? && PcOf(Run(ls), j).Holding?
    ensures i == j
  {
    InvRun(ls);
    assert PcInv(Run(ls), i, Run(ls).pcs[i]) && PcInv(Run(ls), j, Run(ls).pcs[j]);
  }

  /** Whoever holds the lock has the smallest ticket anyone still has. */
  lemma GrantInOrder(ls: seq<Label>, i: nat, j: nat)
    requires Bounded(ls) && PcOf(Run(ls), i).Holding? && HasTicket(PcOf(Run(ls), j))
    ensures PcOf(Run(ls), i).n <= PcOf(Run(ls), j).n
  {
    InvRun(ls);
    assert PcInv(Run(ls), i, Run(ls).pcs[i]) && PcInv(Run(ls), j, Run(ls).pcs[j]);
  }

  lemma {:induction false} ServedGrows(ls: seq<Label>, ms: seq<Label>)
    ensures Run(ls).served <= Run(ls + ms).served
  {
    if ms == [] {
      assert ls + ms == ls;
    } else {
      var most := ms[..|ms| - 1];
      ServedGrows(ls, most);
      RunSnoc(ls + most, ms[|ms| - 1]);
      assert ls + ms == ls + most + [ms[|ms| - 1]];
    }
  }

  /** First come, first served, over whole runs: a later holder never has an earlier ticket. */
  lemma HoldersInTicketOrder(ls: seq<Label>, ms: seq<Label>, i: nat, j: nat)
    requires Bounded(ls + ms) && PcOf(Run(ls), i).Holding? && PcOf(Run(ls + ms), j).Holding?
    ensures PcOf(Run(ls), i).n <= PcOf(Run(ls + ms), j).n
  {
    BoundedPrefix(ls + ms, |ls|);
    assert (ls + ms)[..|ls|] == ls;
    InvRun(ls);
    InvRun(ls + ms);
    ServedGrows(ls, ms);
    assert PcInv(Run(ls), i, Run(ls).pcs[i]) && PcInv(Run(ls + ms), j, Run(ls + ms).pcs[j]);
  }

  lemma HandOver(s: State, i: nat, n: nat)
    requires Inv(s) && PcOf(s, i).Holding? && n == s.served + 1
    requires n < s.issued && n !in s.abandoned
    ensures n in s.owner && s.owner[n] != i
    ensures PcOf(Apply(Apply(s, Drop(i)), Step(s.owner[n])), s.owner[n]) == Holding(n)
  {
    assert TicketInv(s, n);
    var j := s.owner[n];
    assert PcInv(s, i, s.pcs[i]) && PcInv(s, j, s.pcs[j]);
    SuccWord(s.served);
    var s1 := Apply(s, Drop(i));
    assert s1.nowServing == n % WORD && PcOf(s1, j) == PcOf(s, j);
  }

  /** The next ticket after the holder's, if drawn and not abandoned, is served right after the release. */
  ghost predicate HandsOver(s: State, i: nat) {
    var n := s.served + 1;
    n < s.issued && n !in s.abandoned ==>
      n in s.owner && s.owner[n] != i && PcOf(Apply(Apply(s, Drop(i)), Step(s.owner[n])), s.owner[n]) == Holding(n)
  }

  lemma RunTwo(ls: seq<Label>, a: Label, b: Label)
    ensures Run(ls + [a] + [b]) == Apply(Apply(Run(ls), a), b)
  {
    RunSnoc(ls, a);
    RunSnoc(ls + [a], b);
  }

  /** A release hands over: unless the next ticket was abandoned, the agent that drew it gets the lock at its next step. */
  lemma ReleaseHandsOver(ls: seq<Label>, i: nat)
    requires Bounded(ls) && PcOf(Run(ls), i).Holding?
    ensures HandsOver(Run(ls), i)
  {
    InvRun(ls);
    HandOverNext(Run(ls), i);
  }

  lemma HandOverNext(s: State, i: nat)
    requires Inv(s) && PcOf(s, i).Holding?
    ensures HandsOver(s, i)
  {
    if s.served + 1 < s.issued && s.served + 1 !in s.abandoned {
      HandOver(s, i, s.served + 1);
    }
  }

  lemma AbandonedStays(s: State, l: Label)
    ensures s.abandoned <= Apply(s, l).abandoned
  {
  }

  /** Once a try_lock has abandoned a ticket, no later ticket is ever served, however long the run. */
  lemma {:induction false} AbandonedBlocks(ls: seq<Label>, ms: seq<Label>, a: nat, i: nat)
    requires Bounded(ls + ms) && a in Run(ls).abandoned
    ensures a in Run(ls + ms).abandoned && Run(ls + ms).served <= a
    ensures PcOf(Run(ls + ms), i).Holding? ==> PcOf(Run(ls + ms), i).n < a
  {
    AbandonedForever(ls, ms, a);
    InvRun(ls + ms);
    if PcOf(Run(ls + ms), i).Holding? { assert PcInv(Run(ls + ms), i, Run(ls + ms).pcs[i]); }
  }

  lemma {:induction false} AbandonedForever(ls: seq<Label>, ms: seq<Label>, a: nat)
    requires a in Run(ls).abandoned
    ensures a in Run(ls + ms).abandoned
  {
    if ms == [] {
      assert ls + ms == ls;
    } else {
      var most := ms[..|ms| - 1];
      AbandonedForever(ls, most, a);
      RunSnoc(ls + most, ms[|ms| - 1]);
      AbandonedStays(Run(ls + most), ms[|ms| - 1]);
      assert ls + ms == ls + most + [ms[|ms| - 1]];
    }
  }

  lemma {:induction false} DrawsAtMostOne(ls: seq<Label>)
    ensures Run(ls).issued <= |ls|
  {
    if ls != [] {
      DrawsAtMostOne(ls[..|ls| - 1]);
    }
  }

  /** A run of up to 2^32 steps cannot have more tickets outstanding. */
  lemma ShortRunsBounded(ls: seq<Label>)
    requires |ls| <= WORD
    ensures Bounded(ls)
  {
    forall k | 0 <= k <= |ls| ensures Run(ls[..k]).issued - Run(ls[..k]).served <= WORD {
      DrawsAtMostOne(ls[..k]);
    }
  }

  lemma Run5(a: Label, b: Label, c: Label, d: Label, e: Label)
    ensures Run([a, b, c, d, e]) == Apply(Apply(Apply(Apply(Apply(Init(), a), b), c), d), e)
  {
    RunSnoc([], a);
    RunSnoc([a], b);
    RunSnoc([a, b], c);
    RunSnoc([a, b, c], d);
    RunSnoc([a, b, c, d], e);
    assert [] + [a] == [a] && [a] + [b] == [a, b] && [a, b] + [c] == [a, b, c];
    assert [a, b, c] + [d] == [a, b, c, d] && [a, b, c, d] + [e] == [a, b, c, d, e];
  }

  lemma Race()
    ensures
      var s := Apply(Apply(Apply(Apply(Apply(Init(), TryLock(1)), Step(1)), Lock(0)), Step(1)), Step(1));
      s.abandoned == {1} && PcOf(s, 1).Idle?
  {
    var s1 := Apply(Init(), TryLock(1));
    var s2 := Apply(s1, Step(1));
    assert PcOf(s2, 1) == TryFetch && s2.issued == 0;
    var s3 := Apply(s2, Lock(0));
    assert PcOf(s3, 1) == TryFetch && s3.issued == 1 && s3.nextTicket == 1 && s3.nowServing == 0;
    var s4 := Apply(s3, Step(1));
    assert PcOf(s4, 1) == TryCheck(1, 1) && s4.nowServing == 0 && s4.abandoned == {};
  }

  /** Abandonment is reachable: agent 0 locks between agent 1's test and its fetch_add. */
  lemma AbandonmentReachable()
    ensures
      var race := [TryLock(1), Step(1), Lock(0), Step(1), Step(1)];
      Run(race).abandoned == {1} && PcOf(Run(race), 1).Idle? && Bounded(race)
  {
    Run5(TryLock(1), Step(1), Lock(0), Step(1), Step(1));
    Race();
    ShortRunsBounded([TryLock(1), Step(1), Lock(0), Step(1), Step(1)]);
  }

  // ---------------------------------------------------------------- whole calls

  /** Tickets drawn and not yet served. */
  function Outstanding(s: State): int { s.issued - s.served }

  lemma SameRemainder(a: nat, b: nat)
    requires a <= b
    ensures b % WORD == a % WORD <==> (b - a) % WORD == 0
  {
    if (b - a) % WORD == 0 {
      assert b == a + (b - a) / WORD * WORD;
    }
  }

  lemma RunFour(ls: seq<Label>, a: Label, b: Label, c: Label, d: Label)
    ensures Run(ls + [a] + [b] + [c] + [d]) == Apply(Apply(Apply(Apply(Run(ls), a), b), c), d)
  {
    RunTwo(ls, a, b);
    RunTwo(ls + [a] + [b], c, d);
  }

  /** An undisturbed lock of an idle agent is granted at once exactly if no ticket is outstanding, modulo 2^32. */
  lemma LockAlone(ls: seq<Label>, i: nat)
    requires Bounded(ls) && PcOf(Run(ls), i).Idle?
    ensures
      var s, t := Run(ls), Run(ls + [Lock(i)] + [Step(i)]);
      && t.issued == s.issued + 1 && t.served == s.served
      && PcOf(t, i) == if Outstanding(s) % WORD == 0 then Holding(s.issued) else Waiting(s.issued % WORD, s.issued)
  {
    InvRun(ls);
    RunTwo(ls, Lock(i), Step(i));
    SameRemainder(Run(ls).served, Run(ls).issued);
  }

  lemma TryLockSteps(s: State, i: nat)
    requires s.nextTicket == s.issued % WORD && PcOf(s, i).Idle?
    ensures
      var t := Apply(Apply(Apply(Apply(s, TryLock(i)), Step(i)), Step(i)), Step(i));
      && t.served == s.served && t.abandoned == s.abandoned
      && (if s.nowServing == s.nextTicket then PcOf(t, i) == Holding(s.issued) && t.issued == s.issued + 1
          else PcOf(t, i).Idle? && t.issued == s.issued)
  {
    var s1 := Apply(s, TryLock(i));
    var s2 := Apply(s1, Step(i));
    if s.nowServing == s.nextTicket {
      assert PcOf(s2, i) == TryFetch;
      assert PcOf(Apply(s2, Step(i)), i) == TryCheck(s.nextTicket, s.issued);
    }
  }

  /** An undisturbed try_lock succeeds exactly if no ticket is outstanding, modulo 2^32, and otherwise draws none. */
  lemma TryLockAlone(ls: seq<Label>, i: nat)
    requires Bounded(ls) && PcOf(Run(ls), i).Idle?
    ensures
      var s, t := Run(ls), Run(ls + [TryLock(i)] + [Step(i)] + [Step(i)] + [Step(i)]);
      && t.served == s.served && t.abandoned == s.abandoned
      && (if Outstanding(s) % WORD == 0 then PcOf(t, i) == Holding(s.issued) && t.issued == s.issued + 1
          else PcOf(t, i).Idle? && t.issued == s.issued)
  {
    InvRun(ls);
    RunFour(ls, TryLock(i), Step(i), Step(i), Step(i));
    SameRemainder(Run(ls).served, Run(ls).issued);
    TryLockSteps(Run(ls), i);
  }

  /** Every ticket from the one being served up to n is in somebody's hands. */
  ghost predicate ClearTo(s: State, n: nat) { s.served <= n < s.issued && forall a :: a in s.abandoned ==> a > n }

  lemma BoundedMore(ls: seq<Label>, l: Label)
    requires Bounded(ls) && Outstanding(Run(ls + [l])) <= WORD
    ensures Bounded(ls + [l])
  {
    forall k | 0 <= k <= |ls| + 1 ensures Outstanding(Run((ls + [l])[..k])) <= WORD {
      if k <= |ls| { assert (ls + [l])[..k] == ls[..k]; } else { assert (ls + [l])[..k] == ls + [l]; }
    }
  }

  /** The owner of the ticket being served gets the lock at its next step. */
  lemma ServeNow(ls: seq<Label>, n: nat)
    requires Bounded(ls) && ClearTo(Run(ls), n)
    ensures
      var s := Run(ls);
      && s.served in s.owner
      && var t := Run(ls + [Step(s.owner[s.served])]);
         && PcOf(t, s.owner[s.served]) == Holding(s.served) && ClearTo(t, n) && Bounded(ls + [Step(s.owner[s.served])])
         && t.served == s.served && t.owner == s.owner
  {
    InvRun(ls);
    var s := Run(ls);
    assert TicketInv(s, s.served);
    var j := s.owner[s.served];
    assert PcInv(s, j, s.pcs[j]);
    RunSnoc(ls, Step(j));
    assert ls[..|ls|] == ls;
    BoundedMore(ls, Step(j));
  }

  /** The holder's release moves on to the next ticket. */
  lemma ReleaseNow(ls: seq<Label>, j: nat, n: nat)
    requires Bounded(ls) && ClearTo(Run(ls), n) && PcOf(Run(ls), j).Holding? && Run(ls).served < n
    ensures
      var s, t := Run(ls), Run(ls + [Drop(j)]);
      ClearTo(t, n) && Bounded(ls + [Drop(j)]) && t.served == s.served + 1 && t.owner == s.owner
  {
    InvRun(ls);
    RunSnoc(ls, Drop(j));
    BoundedMore(ls, Drop(j));
  }

  /** The waiting agents' own steps and releases bring ticket n to the lock. */
  lemma {:induction false} Reached(ls: seq<Label>, n: nat) returns (ms: seq<Label>)
    requires Bounded(ls) && ClearTo(Run(ls), n)
    ensures Bounded(ls + ms) && n in Run(ls).owner && PcOf(Run(ls + ms), Run(ls).owner[n]) == Holding(n)
    decreases n - Run(ls).served
  {
    ServeNow(ls, n);
    var j := Run(ls).owner[Run(ls).served];
    var more := ls + [Step(j)];
    if Run(ls).served == n {
      ms := [Step(j)];
    } else {
      ReleaseNow(more, j, n);
      var rest := Reached(more + [Drop(j)], n);
      ms := [Step(j)] + [Drop(j)] + rest;
      assert ls + ms == more + [Drop(j)] + rest;
    }
  }

  /** Some bounded continuation gives ticket n the lock. */
  ghost predicate CanHold(ls: seq<Label>, n: nat) {
    exists ms, i :: Bounded(ls + ms) && PcOf(Run(ls + ms), i) == Holding(n)
  }

  /** A ticket that is waiting can get the lock if and only if no ticket before it was abandoned. */
  lemma ServedExactly(ls: seq<Label>, i: nat)
    requires Bounded(ls) && HasTicket(PcOf(Run(ls), i))
    ensures var n := PcOf(Run(ls), i).n; CanHold(ls, n) <==> forall a :: a in Run(ls).abandoned ==> a > n
  {
    InvRun(ls);
    var s, n := Run(ls), PcOf(Run(ls), i).n;
    assert PcInv(s, i, s.pcs[i]);
    if forall a :: a in s.abandoned ==> a > n {
      var ms := Reached(ls, n);
      assert PcOf(Run(ls + ms), s.owner[n]) == Holding(n);
    }
    if CanHold(ls, n) {
      var ms, j :| Bounded(ls + ms) && PcOf(Run(ls + ms), j) == Holding(n);
      forall a | a in s.abandoned ensures a > n {
        AbandonedBlocks(ls, ms, a, j);
      }
    }
  }
}
