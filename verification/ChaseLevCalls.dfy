/**
  Whole calls of the deque of `ChaseLev`: what push, pop and steal return and do between being
  called and returning, in every interleaving, and within how many steps of their own they return.
*/
module ChaseLevCalls {
  import opened Wrappers
  import opened ChaseLev

  /** The state before label k of a run. */
  function At<T>(ls: seq<Label<T>>, k: nat): State<T>
    requires k <= |ls|
  {
    Run(ls[..k])
  }

  function MemAt<T>(ls: seq<Label<T>>, k: nat): Mem<T>
    requires k <= |ls|
  {
    At(ls, k).mem
  }

  lemma NextAt<T>(ls: seq<Label<T>>, k: nat)
    requires k < |ls|
    ensures At(ls, k + 1) == Apply(At(ls, k), ls[k]) && Inv(At(ls, k))
  {
    assert ls[..k + 1][..k] == ls[..k];
    InvRun(ls[..k]);
  }

  // ---------------------------------------------------------------- one call of the owner

  /** The owner is inside an operation that label i started. */
  ghost predicate Calling<T>(ls: seq<Label<T>>, i: nat, k: nat) {
    && i < k <= |ls| && MemAt(ls, i).owner.OwnerIdle?
    && forall q :: i < q < k ==> !MemAt(ls, q).owner.OwnerIdle?
  }

  /** The contents of the deque before each label and after the last. */
  ghost function Lives<T>(ls: seq<Label<T>>): (lv: seq<seq<nat>>)
    ensures |lv| == |ls| + 1
  {
    seq(|ls| + 1, k requires 0 <= k <= |ls| => Live(MemAt(ls, k)))
  }

  /** Owner step q leaves the contents of the deque alone. */
  ghost predicate Leaves<T>(ls: seq<Label<T>>, lv: seq<seq<nat>>, q: nat)
    requires q < |ls| < |lv|
  {
    ls[q].OwnerStep? ==> lv[q + 1] == lv[q]
  }

  /** Owner step q takes item n, the newest, out of the deque. */
  ghost predicate Takes<T>(ls: seq<Label<T>>, lv: seq<seq<nat>>, q: nat, n: nat)
    requires q < |ls| < |lv|
  {
    ls[q].OwnerStep? && lv[q] == lv[q + 1] + [n]
  }

  ghost predicate TookNothing<T>(ls: seq<Label<T>>, lv: seq<seq<nat>>, i: nat, k: nat)
    requires k <= |ls| < |lv|
  {
    forall q :: i < q < k ==> Leaves(ls, lv, q)
  }

  ghost predicate TookOnly<T>(ls: seq<Label<T>>, lv: seq<seq<nat>>, i: nat, k: nat, n: nat)
    requires k <= |ls| < |lv|
  {
    exists q :: i < q < k && Takes(ls, lv, q, n) && forall p :: i < p < k && p != q ==> Leaves(ls, lv, p)
  }

  /**
    The answer of a pop: an item's own value if the call took that item and no other; None if it
    took nothing and the deque was empty at some point of the call.
  */
  ghost predicate Answers<T>(ls: seq<Label<T>>, lv: seq<seq<nat>>, pushes: seq<T>, i: nat, k: nat, r: Option<T>)
    requires k <= |ls| < |lv|
  {
    match r
    case Some(x) => exists n :: 0 <= n < |pushes| && pushes[n] == x && TookOnly(ls, lv, i, k, n)
    case None => TookNothing(ls, lv, i, k) && exists q :: i < q < k && lv[q] == []
  }

  ghost predicate PopAnswer<T>(ls: seq<Label<T>>, i: nat, k: nat, r: Option<T>)
    requires i < k <= |ls|
  {
    Answers(ls, Lives(ls), MemAt(ls, i).log.pushes, i, k, r)
  }

  predicate InPop<T>(pc: OwnerPc<T>) {
    pc.PopStoreBottom? || pc.PopLoadTop? || pc.PopLoadBuffer? || pc.PopRead? || pc.PopCas?
  }

  /** The pop has taken the item at its index and has yet to read it. */
  predicate Decided<T>(pc: OwnerPc<T>) { (pc.PopLoadBuffer? || pc.PopRead?) && pc.t < pc.b }

  /** How far the pop started by label i is, by its program counter. */
  ghost predicate Popping<T>(ls: seq<Label<T>>, i: nat, k: nat)
    requires i < k <= |ls|
  {
    var m := MemAt(ls, k);
    && m.log == MemAt(ls, i).log
    && if m.owner.PopRestore? || m.owner.OwnerIdle? then PopAnswer(ls, i, k, m.owner.result)
       else if Decided(m.owner) then TookOnly(ls, Lives(ls), i, k, m.log.SerialAt(m.owner.b))
       else InPop(m.owner) && TookNothing(ls, Lives(ls), i, k)
  }

  lemma LaterOnly<T>(ls: seq<Label<T>>, lv: seq<seq<nat>>, i: nat, k: nat, n: nat)
    requires i < k < |ls| < |lv| && Leaves(ls, lv, k) && TookOnly(ls, lv, i, k, n)
    ensures TookOnly(ls, lv, i, k + 1, n)
  {
    var q :| i < q < k && Takes(ls, lv, q, n) && forall p :: i < p < k && p != q ==> Leaves(ls, lv, p);
    assert forall p :: i < p < k + 1 && p != q ==> Leaves(ls, lv, p);
  }

  lemma LaterNothing<T>(ls: seq<Label<T>>, lv: seq<seq<nat>>, i: nat, k: nat)
    requires i < k < |ls| < |lv| && Leaves(ls, lv, k) && TookNothing(ls, lv, i, k)
    ensures TookNothing(ls, lv, i, k + 1)
  {
  }

  lemma LaterAnswer<T>(ls: seq<Label<T>>, lv: seq<seq<nat>>, pushes: seq<T>, i: nat, k: nat, r: Option<T>)
    requires i < k < |ls| < |lv| && Leaves(ls, lv, k) && Answers(ls, lv, pushes, i, k, r)
    ensures Answers(ls, lv, pushes, i, k + 1, r)
  {
    if r.Some? {
      var n :| 0 <= n < |pushes| && pushes[n] == r.value && TookOnly(ls, lv, i, k, n);
      LaterOnly(ls, lv, i, k, n);
    } else {
      LaterNothing(ls, lv, i, k);
    }
  }

  lemma TakesNow<T>(ls: seq<Label<T>>, lv: seq<seq<nat>>, i: nat, k: nat, n: nat)
    requires i < k < |ls| < |lv| && Takes(ls, lv, k, n) && TookNothing(ls, lv, i, k)
    ensures TookOnly(ls, lv, i, k + 1, n)
  {
    assert forall p :: i < p < k + 1 && p != k ==> Leaves(ls, lv, p);
  }

  lemma EmptyNow<T>(ls: seq<Label<T>>, lv: seq<seq<nat>>, pushes: seq<T>, i: nat, k: nat)
    requires i < k < |ls| < |lv| && lv[k] == [] && Leaves(ls, lv, k) && TookNothing(ls, lv, i, k)
    ensures Answers(ls, lv, pushes, i, k + 1, None)
  {
    LaterNothing(ls, lv, i, k);
  }

  /** A step that leaves the deque alone and decides nothing. */
  lemma PoppingOn<T>(ls: seq<Label<T>>, i: nat, k: nat)
    requires i < k < |ls| && Popping(ls, i, k) && Leaves(ls, Lives(ls), k) && MemAt(ls, k + 1).log == MemAt(ls, k).log
    requires
      var pc, pc' := MemAt(ls, k).owner, MemAt(ls, k + 1).owner;
      if pc.PopRestore? then (pc'.PopRestore? || pc'.OwnerIdle?) && pc'.result == pc.result
      else if Decided(pc) then Decided(pc') && pc'.b == pc.b
      else InPop(pc') && !Decided(pc') && !pc.OwnerIdle?
    ensures Popping(ls, i, k + 1)
  {
    var m := MemAt(ls, k);
    if m.owner.PopRestore? {
      LaterAnswer(ls, Lives(ls), m.log.pushes, i, k, m.owner.result);
    } else if Decided(m.owner) {
      LaterOnly(ls, Lives(ls), i, k, m.log.SerialAt(m.owner.b));
    } else {
      LaterNothing(ls, Lives(ls), i, k);
    }
  }

  /** A step of another agent, or a call that is refused because one is going on. */
  lemma OthersKeepOwner<T>(s: State<T>, l: Label<T>)
    requires !l.OwnerStep? && !s.mem.owner.OwnerIdle?
    ensures Apply(s, l).mem.owner == s.mem.owner && Apply(s, l).mem.log == s.mem.log
  {
  }

  lemma PoppingOther<T>(ls: seq<Label<T>>, i: nat, k: nat)
    requires i < k < |ls| && Popping(ls, i, k) && !MemAt(ls, k).owner.OwnerIdle? && !ls[k].OwnerStep?
    ensures Popping(ls, i, k + 1)
  {
    NextAt(ls, k);
    OthersKeepOwner(At(ls, k), ls[k]);
    PoppingOn(ls, i, k);
  }

  /** The two steps that may take an item. */
  lemma PoppingDecides<T>(ls: seq<Label<T>>, i: nat, k: nat)
    requires i < k < |ls| && Popping(ls, i, k) && ls[k].OwnerStep?
    requires MemAt(ls, k).owner.PopLoadTop? || MemAt(ls, k).owner.PopCas?
    requires MemAt(ls, k + 1) == Owner(MemAt(ls, k)) && PopOutcome(MemAt(ls, k), MemAt(ls, k + 1))
    ensures Popping(ls, i, k + 1)
  {
    var m, m' := MemAt(ls, k), MemAt(ls, k + 1);
    var b := m.owner.b;
    if m.top < b || (m.owner.PopCas? && m.top == b) {
      assert m.owner.PopCas? && m.top == b ==> Live(m) == Live(m') + [m.log.SerialAt(b)];
      TakesNow(ls, Lives(ls), i, k, m.log.SerialAt(b));
    } else if m.top == b {
      LaterNothing(ls, Lives(ls), i, k);
    } else {
      EmptyNow(ls, Lives(ls), m.log.pushes, i, k);
    }
  }

  /** The step that reads a taken item and returns it. */
  lemma PoppingReads<T>(ls: seq<Label<T>>, i: nat, k: nat)
    requires i < k < |ls| && Popping(ls, i, k) && ls[k].OwnerStep?
    requires MemAt(ls, k).owner.PopRead? && Decided(MemAt(ls, k).owner)
    requires MemAt(ls, k + 1) == Owner(MemAt(ls, k)) && PopOutcome(MemAt(ls, k), MemAt(ls, k + 1))
    ensures Popping(ls, i, k + 1)
  {
    var m := MemAt(ls, k);
    LaterOnly(ls, Lives(ls), i, k, m.log.SerialAt(m.owner.b));
  }

  lemma PoppingOwner<T>(ls: seq<Label<T>>, i: nat, k: nat)
    requires i < k < |ls| && Popping(ls, i, k) && !MemAt(ls, k).owner.OwnerIdle? && ls[k].OwnerStep?
    ensures Popping(ls, i, k + 1)
  {
    NextAt(ls, k);
    PopStep(MemAt(ls, k));
    var pc := MemAt(ls, k).owner;
    if pc.PopLoadTop? || pc.PopCas? {
      PoppingDecides(ls, i, k);
    } else if pc.PopRead? && Decided(pc) {
      PoppingReads(ls, i, k);
    } else {
      PoppingOn(ls, i, k);
    }
  }

  lemma {:induction false} PoppingAt<T>(ls: seq<Label<T>>, i: nat, k: nat)
    requires Calling(ls, i, k) && ls[i] == StartPop
    ensures Popping(ls, i, k)
  {
    if k == i + 1 {
      NextAt(ls, i);
    } else {
      PoppingAt(ls, i, k - 1);
      if ls[k - 1].OwnerStep? { PoppingOwner(ls, i, k - 1); } else { PoppingOther(ls, i, k - 1); }
    }
  }

  /** Whatever thieves do meanwhile, a pop that returns answers for exactly what it took. */
  lemma PopCall<T>(ls: seq<Label<T>>, i: nat, k: nat)
    requires Calling(ls, i, k) && ls[i] == StartPop && MemAt(ls, k).owner.OwnerIdle?
    ensures PopAnswer(ls, i, k, MemAt(ls, k).owner.result)
  {
    PoppingAt(ls, i, k);
  }

  // ---------------------------------------------------------------- push

  predicate InPush<T>(pc: OwnerPc<T>) {
    pc.PushLoadTop? || pc.PushLoadBuffer? || pc.PushInitBuffer? || pc.PushCopy? || pc.PushPut? || pc.PushStoreBottom?
  }

  /** The push of v has not appended anything yet, or has just appended v. */
  ghost predicate Pushing<T>(ls: seq<Label<T>>, i: nat, k: nat, v: T)
    requires i < k <= |ls|
  {
    var m := MemAt(ls, k);
    if m.owner.OwnerIdle? then Appended(ls, i, k, v)
    else InPush(m.owner) && m.owner.v == v && m.log == MemAt(ls, i).log && TookNothing(ls, Lives(ls), i, k)
  }

  /** The last step appended v as a new item, and no step before it touched the deque. */
  ghost predicate Appended<T>(ls: seq<Label<T>>, i: nat, k: nat, v: T)
    requires i < k <= |ls|
  {
    var log := MemAt(ls, i).log;
    && i < k - 1 && ls[k - 1].OwnerStep? && TookNothing(ls, Lives(ls), i, k - 1)
    && MemAt(ls, k).log.pushes == log.pushes + [v]
    && Live(MemAt(ls, k)) == Live(MemAt(ls, k - 1)) + [|log.pushes|]
  }

  lemma PushKeeps<T>(m: Mem<T>)
    requires MemInv(m) && InPush(m.owner) && !m.owner.PushStoreBottom?
    ensures
      var m' := Owner(m);
      InPush(m'.owner) && m'.owner.v == m.owner.v && m'.log == m.log && m'.top == m.top && Live(m') == Live(m)
  {
  }

  lemma PushingNext<T>(ls: seq<Label<T>>, i: nat, k: nat, v: T)
    requires i < k < |ls| && Pushing(ls, i, k, v) && !MemAt(ls, k).owner.OwnerIdle?
    ensures Pushing(ls, i, k + 1, v)
  {
    NextAt(ls, k);
    var m := MemAt(ls, k);
    if !ls[k].OwnerStep? {
      OthersKeepOwner(At(ls, k), ls[k]);
      LaterNothing(ls, Lives(ls), i, k);
    } else if m.owner.PushStoreBottom? {
      PushStep(m);
    } else {
      PushKeeps(m);
      LaterNothing(ls, Lives(ls), i, k);
    }
  }

  lemma {:induction false} PushingAt<T>(ls: seq<Label<T>>, i: nat, k: nat)
    requires Calling(ls, i, k) && ls[i].StartPush?
    ensures Pushing(ls, i, k, ls[i].v)
  {
    if k == i + 1 {
      NextAt(ls, i);
    } else {
      PushingAt(ls, i, k - 1);
      PushingNext(ls, i, k - 1, ls[i].v);
    }
  }

  /** A push that returns has appended exactly the value it was called with, by its last step. */
  lemma PushCall<T>(ls: seq<Label<T>>, i: nat, k: nat)
    requires Calling(ls, i, k) && ls[i].StartPush? && MemAt(ls, k).owner.OwnerIdle?
    ensures Appended(ls, i, k, ls[i].v)
  {
    PushingAt(ls, i, k);
  }

  // ---------------------------------------------------------------- steal

  function ThiefAt<T>(ls: seq<Label<T>>, k: nat, t: nat): ThiefPc<T>
    requires k <= |ls|
  {
    var s := At(ls, k);
    if t in s.thieves then s.thieves[t] else ThiefDone(Empty)
  }

  /** Thief t is inside a steal that label i started. */
  ghost predicate Thieving<T>(ls: seq<Label<T>>, t: nat, i: nat, k: nat) {
    && i < k <= |ls| && ls[i] == StartSteal(t) && ThiefAt(ls, i, t).ThiefDone?
    && forall q :: i < q < k ==> !ThiefAt(ls, q, t).ThiefDone?
  }

  /** Step q of thief t takes the oldest item and learns its value. */
  ghost predicate Steals<T>(ls: seq<Label<T>>, t: nat, q: nat, x: Option<T>)
    requires q < |ls|
  {
    var m := MemAt(ls, q);
    ls[q] == ThiefStep(t) && Live(m) != [] && Live(m) == [Live(m)[0]] + Live(MemAt(ls, q + 1))
    && Live(m)[0] < |m.log.pushes| && x == Some(m.log.pushes[Live(m)[0]])
  }

  /** The deque is empty, or its single item is the one a pop is deciding on. */
  ghost predicate LooksEmpty<T>(m: Mem<T>) {
    Live(m) == [] || (|Live(m)| == 1 && PopUndecided(m.owner) && m.owner.b == m.top)
  }

  /**
    The answer of a steal: a value if the last step took the oldest item, which has that value;
    Empty if the deque looked empty during the call; Retry if another agent took an item.
  */
  ghost predicate StealAnswer<T>(ls: seq<Label<T>>, t: nat, i: nat, k: nat, r: StealResult<T>)
    requires i < k <= |ls|
  {
    match r
    case Success(x) => Steals(ls, t, k - 1, x)
    case Empty => LooksEmpty(MemAt(ls, k - 1)) && MemAt(ls, k).top == MemAt(ls, k - 1).top
    case Retry => MemAt(ls, i).top < MemAt(ls, k - 1).top == MemAt(ls, k).top
  }

  /** A steal in progress works on the index that was `top` when it began, and has taken nothing. */
  ghost predicate Stealing<T>(ls: seq<Label<T>>, t: nat, i: nat, k: nat)
    requires i < k <= |ls|
  {
    var pc := ThiefAt(ls, k, t);
    if pc.ThiefDone? then StealAnswer(ls, t, i, k, pc.outcome)
    else pc.t == MemAt(ls, i).top && forall q :: i < q < k && ls[q] == ThiefStep(t) ==> MemAt(ls, q + 1).top == MemAt(ls, q).top
  }

  lemma StealingNext<T>(ls: seq<Label<T>>, t: nat, i: nat, k: nat)
    requires i < k < |ls| && Stealing(ls, t, i, k) && !ThiefAt(ls, k, t).ThiefDone?
    ensures Stealing(ls, t, i, k + 1)
  {
    NextAt(ls, k);
    if ls[k] == ThiefStep(t) {
      var m, pc := MemAt(ls, k), ThiefAt(ls, k, t);
      assert ThiefInv(m, pc);
      if pc.StealCas? {
        StealStep(m, pc);
      }
    }
  }

  lemma {:induction false} StealingAt<T>(ls: seq<Label<T>>, t: nat, i: nat, k: nat)
    requires Thieving(ls, t, i, k)
    ensures Stealing(ls, t, i, k)
  {
    if k == i + 1 {
      NextAt(ls, i);
    } else {
      StealingAt(ls, t, i, k - 1);
      StealingNext(ls, t, i, k - 1);
    }
  }

  /** Whatever the owner and other thieves do meanwhile, a steal answers for exactly what it took. */
  lemma StealCall<T>(ls: seq<Label<T>>, t: nat, i: nat, k: nat)
    requires Thieving(ls, t, i, k) && ThiefAt(ls, k, t).ThiefDone?
    ensures StealAnswer(ls, t, i, k, ThiefAt(ls, k, t).outcome)
  {
    StealingAt(ls, t, i, k);
  }

  // ---------------------------------------------------------------- progress

  function Gap(lo: int, hi: int): nat { if lo < hi then hi - lo else 0 }

  /** An upper bound on the owner's remaining steps. */
  function OwnerRank<T>(m: Mem<T>): nat {
    match m.owner
    case OwnerIdle(_) => 0
    case PushLoadTop(_, b) => Gap(m.top, b) + 6
    case PushLoadBuffer(_, b, t) => Gap(t, b) + 5
    case PushInitBuffer(_, b, t) => Gap(t, b) + 4
    case PushCopy(_, b, _, _, _, i) => Gap(i, b) + 3
    case PushPut(_, _, _) => 2
    case PushStoreBottom(_, _) => 1
    case PopStoreBottom(_) => 6
    case PopLoadTop(_) => 5
    case PopLoadBuffer(_, _) => 4
    case PopRead(_, _, _) => 3
    case PopCas(_, _) => 2
    case PopRestore(_, _) => 1
  }

  lemma RankFalls<T>(m: Mem<T>)
    requires MemInv(m) && !m.owner.OwnerIdle?
    ensures OwnerRank(Owner(m)) < OwnerRank(m)
  {
  }

  /** How often a label occurs from i to k. */
  ghost function Count<T>(ls: seq<Label<T>>, l: Label<T>, i: nat, k: nat): nat
    requires k <= |ls|
    decreases k
  {
    if i >= k then 0 else Count(ls, l, i, k - 1) + if ls[k - 1] == l then 1 else 0
  }

  lemma OwnerSpendsOne<T>(ls: seq<Label<T>>, k: nat)
    requires k < |ls| && !MemAt(ls, k).owner.OwnerIdle?
    ensures OwnerRank(MemAt(ls, k + 1)) + (if ls[k] == OwnerStep then 1 else 0) <= OwnerRank(MemAt(ls, k))
  {
    NextAt(ls, k);
    if ls[k].OwnerStep? { RankFalls(MemAt(ls, k)); } else { OthersKeepOwner(At(ls, k), ls[k]); }
  }

  /** Each step of the owner uses up some of its rank, and nobody else adds to it. */
  lemma {:induction false} OwnerSpends<T>(ls: seq<Label<T>>, i: nat, k: nat)
    requires i <= k <= |ls| && forall q :: i <= q < k ==> !MemAt(ls, q).owner.OwnerIdle?
    ensures Count(ls, OwnerStep, i, k) + OwnerRank(MemAt(ls, k)) <= OwnerRank(MemAt(ls, i))
    decreases k
  {
    if i < k {
      OwnerSpends(ls, i, k - 1);
      OwnerSpendsOne(ls, k - 1);
    }
  }

  /** Push and pop are wait-free: pop needs at most six steps of its own, push as many plus one for each item. */
  lemma OwnerWaitFree<T>(ls: seq<Label<T>>, i: nat, k: nat)
    requires Calling(ls, i, k) && (ls[i].StartPush? || ls[i].StartPop?)
    ensures
      Count(ls, OwnerStep, i + 1, k) <= if ls[i].StartPop? then 6 else |Live(MemAt(ls, i))| + 6
    ensures
      Count(ls, OwnerStep, i + 1, k) == (if ls[i].StartPop? then 6 else |Live(MemAt(ls, i))| + 6) ==>
        MemAt(ls, k).owner.OwnerIdle?
  {
    NextAt(ls, i);
    OwnerSpends(ls, i + 1, k);
  }

  function ThiefRank<T>(pc: ThiefPc<T>): nat {
    match pc
    case ThiefDone(_) => 0
    case StealLoadBottom(_) => 4
    case StealLoadBuffer(_) => 3
    case StealRead(_, _) => 2
    case StealCas(_, _) => 1
  }

  lemma ThiefRankFalls<T>(s: State<T>, l: Label<T>, t: nat)
    requires t in s.thieves && !s.thieves[t].ThiefDone?
    ensures
      var s' := Apply(s, l);
      t in s'.thieves && ThiefRank(s'.thieves[t]) + (if l == ThiefStep(t) then 1 else 0) <= ThiefRank(s.thieves[t])
  {
  }

  lemma ThiefSpendsOne<T>(ls: seq<Label<T>>, t: nat, k: nat)
    requires k < |ls| && !ThiefAt(ls, k, t).ThiefDone?
    ensures ThiefRank(ThiefAt(ls, k + 1, t)) + (if ls[k] == ThiefStep(t) then 1 else 0) <= ThiefRank(ThiefAt(ls, k, t))
  {
    NextAt(ls, k);
    ThiefRankFalls(At(ls, k), ls[k], t);
  }

  lemma {:induction false} ThiefSpends<T>(ls: seq<Label<T>>, t: nat, i: nat, k: nat)
    requires i <= k <= |ls| && forall q :: i <= q < k ==> !ThiefAt(ls, q, t).ThiefDone?
    ensures Count(ls, ThiefStep(t), i, k) + ThiefRank(ThiefAt(ls, k, t)) <= ThiefRank(ThiefAt(ls, i, t))
    decreases k
  {
    if i < k {
      ThiefSpends(ls, t, i, k - 1);
      ThiefSpendsOne(ls, t, k - 1);
    }
  }

  /** Steal is wait-free: it answers, if only with Retry, after at most four steps of its own. */
  lemma StealWaitFree<T>(ls: seq<Label<T>>, t: nat, i: nat, k: nat)
    requires Thieving(ls, t, i, k)
    ensures Count(ls, ThiefStep(t), i + 1, k) <= 4
    ensures Count(ls, ThiefStep(t), i + 1, k) == 4 ==> ThiefAt(ls, k, t).ThiefDone?
  {
    NextAt(ls, i);
    ThiefSpends(ls, t, i + 1, k);
  }

  // ---------------------------------------------------------------- calls run alone

  function Repeat<T>(l: Label<T>, n: nat): seq<Label<T>> { if n == 0 then [] else Repeat(l, n - 1) + [l] }

  function Again<T>(s: State<T>, l: Label<T>, n: nat): State<T> {
    if n == 0 then s else Apply(Again(s, l, n - 1), l)
  }

  lemma RepeatLast<T>(ls: seq<Label<T>>, l: Label<T>, n: nat)
    requires n > 0
    ensures ls + Repeat(l, n) == ls + Repeat(l, n - 1) + [l]
  {
  }

  lemma {:induction false} RunAgain<T>(ls: seq<Label<T>>, l: Label<T>, n: nat)
    ensures Run(ls + Repeat(l, n)) == Again(Run(ls), l, n)
  {
    if n == 0 {
      assert ls + Repeat(l, 0) == ls;
    } else {
      RunAgain(ls, l, n - 1);
      RunSnoc(ls + Repeat(l, n - 1), l);
      RepeatLast(ls, l, n);
    }
  }

  /** The memory after n steps of the owner. */
  function OwnerSteps<T>(m: Mem<T>, n: nat): Mem<T> { if n == 0 then m else Owner(OwnerSteps(m, n - 1)) }

  lemma {:induction false} AgainOwner<T>(s: State<T>, n: nat)
    ensures Again(s, OwnerStep, n).mem == OwnerSteps(s.mem, n)
  {
    if n > 0 {
      AgainOwner(s, n - 1);
    }
  }

  lemma RunOwner<T>(ls: seq<Label<T>>, n: nat)
    ensures Run(ls + Repeat(OwnerStep, n)).mem == OwnerSteps(Run(ls).mem, n)
  {
    RunAgain(ls, OwnerStep, n);
    AgainOwner(Run(ls), n);
  }

  lemma {:induction false} OwnerStepsFirst<T>(m: Mem<T>, n: nat)
    requires n > 0
    ensures OwnerSteps(m, n) == OwnerSteps(Owner(m), n - 1)
  {
    if n > 1 {
      OwnerStepsFirst(m, n - 1);
    }
  }

  lemma {:induction false} IdleStays<T>(m: Mem<T>, n: nat)
    requires m.owner.OwnerIdle?
    ensures OwnerSteps(m, n) == m
  {
    if n > 0 {
      IdleStays(m, n - 1);
    }
  }

  /** What a pop run alone leaves: the newest item is returned, or None if there is none. */
  ghost predicate Popped<T>(m: Mem<T>, m': Mem<T>) {
    var live := Live(m);
    && m'.owner.OwnerIdle? && m'.log == m.log
    && if live == [] then m'.owner.result == None && Live(m') == []
       else
         var n := live[|live| - 1];
         n < |m.log.pushes| && m'.owner.result == Some(m.log.pushes[n]) && Live(m') == live[..|live| - 1]
  }

  /** With the pop's decision still ahead. */
  lemma {:induction false} PopFinishes<T>(m: Mem<T>, n: nat)
    requires MemInv(m) && (m.owner.PopStoreBottom? || m.owner.PopLoadTop?) && OwnerRank(m) <= n
    ensures Popped(m, OwnerSteps(m, n))
    decreases n
  {
    OwnerStepsFirst(m, n);
    PopStep(m);
    OwnerMem(m);
    var m1 := Owner(m);
    if m.owner.PopStoreBottom? {
      PopFinishes(m1, n - 1);
    } else if m1.owner.PopRestore? {
      RestoreFinishes(m1, n - 1);
    } else {
      ReadFinishes(m1, n - 1);
    }
  }

  lemma RestoreFinishes<T>(m: Mem<T>, n: nat)
    requires MemInv(m) && m.owner.PopRestore? && 1 <= n
    ensures
      var m' := OwnerSteps(m, n);
      m'.owner == OwnerIdle(m.owner.result) && m'.log == m.log && Live(m') == Live(m)
  {
    OwnerStepsFirst(m, n);
    PopStep(m);
    IdleStays(Owner(m), n - 1);
  }

  /** Loading the buffer and reading the item leads from m to m2. */
  ghost predicate ReadItem<T>(m: Mem<T>, m2: Mem<T>)
    requires m.owner.PopLoadBuffer?
  {
    var i := m.log.SerialAt(m.owner.b);
    && i < |m.log.pushes| && m2.log == m.log && m2.top == m.top && Live(m2) == Live(m)
    && var x := Some(m.log.pushes[i]);
       m2.owner == if m.owner.t < m.owner.b then OwnerIdle(x) else PopCas(m.owner.b, x)
  }

  lemma ReadTwo<T>(m: Mem<T>)
    requires MemInv(m) && m.owner.PopLoadBuffer?
    ensures MemInv(Owner(Owner(m))) && ReadItem(m, Owner(Owner(m)))
  {
    OwnerMem(m);
    OwnerMem(Owner(m));
    PopStep(m);
    PopStep(Owner(m));
  }

  lemma OwnerStepsTwo<T>(m: Mem<T>, n: nat)
    requires n >= 2
    ensures OwnerSteps(m, n) == OwnerSteps(Owner(Owner(m)), n - 2)
  {
    OwnerStepsFirst(m, n);
    var m1 := Owner(m);
    OwnerStepsFirst(m1, n - 1);
  }

  /** The exchange for the last item, when no thief is after it. */
  lemma CasFinishes<T>(m: Mem<T>, n: nat)
    requires MemInv(m) && m.owner.PopCas? && m.owner.b == m.top && 2 <= n
    ensures
      var m' := OwnerSteps(m, n); var i := m.log.SerialAt(m.owner.b);
      && i < |m.log.pushes| && m'.owner == OwnerIdle(Some(m.log.pushes[i])) && m'.log == m.log
      && Live(m') == [] && Live(m) == [i]
  {
    OwnerStepsFirst(m, n);
    OwnerMem(m);
    PopStep(m);
    RestoreFinishes(Owner(m), n - 1);
  }

  /** The pop is over: the item at its index was returned, and is the last one if it was at top. */
  ghost predicate ReadDone<T>(m: Mem<T>, m': Mem<T>)
    requires m.owner.PopLoadBuffer?
  {
    var i := m.log.SerialAt(m.owner.b);
    && i < |m.log.pushes| && m'.owner == OwnerIdle(Some(m.log.pushes[i])) && m'.log == m.log
    && Live(m') == (if m.owner.t < m.owner.b then Live(m) else [])
    && (m.owner.t == m.owner.b ==> Live(m) == [i])
  }

  lemma AfterRead<T>(m: Mem<T>, m2: Mem<T>, n: nat)
    requires m.owner.PopLoadBuffer? && m.owner.t == m.top <= m.owner.b && ReadItem(m, m2) && MemInv(m2) && 2 <= n
    ensures ReadDone(m, OwnerSteps(m2, n))
  {
    if m.owner.t < m.owner.b {
      IdleStays(m2, n);
    } else {
      CasFinishes(m2, n);
    }
  }

  /** With an item in sight that no thief is after. */
  lemma ReadFinishes<T>(m: Mem<T>, n: nat)
    requires MemInv(m) && m.owner.PopLoadBuffer? && m.owner.t == m.top && OwnerRank(m) <= n
    ensures ReadDone(m, OwnerSteps(m, n))
  {
    ReadTwo(m);
    OwnerStepsTwo(m, n);
    AfterRead(m, Owner(Owner(m)), n - 2);
  }

  /** After any run, a pop that nobody disturbs returns the newest value, and None exactly on an empty deque. */
  lemma PopAlone<T>(ls: seq<Label<T>>)
    requires Run(ls).mem.owner.OwnerIdle?
    ensures Popped(Run(ls).mem, Run(ls + [StartPop] + Repeat(OwnerStep, 6)).mem)
  {
    InvRun(ls);
    RunSnoc(ls, StartPop);
    StartInv(Run(ls), StartPop);
    RunOwner(ls + [StartPop], 6);
    PopFinishes(Run(ls + [StartPop]).mem, 6);
  }

  /** What a push of v run alone leaves. */
  ghost predicate Pushed<T>(m: Mem<T>, v: T, m': Mem<T>) {
    m'.owner.OwnerIdle? && m'.log.pushes == m.log.pushes + [v] && Live(m') == Live(m) + [|m.log.pushes|]
  }

  /** A push of v that began in m has been completed, or needs at most n more steps. */
  ghost predicate PushWithin<T>(m: Mem<T>, v: T, n: nat, x: Mem<T>) {
    || Pushed(m, v, x)
    || (MemInv(x) && InPush(x.owner) && x.owner.v == v && OwnerRank(x) <= n && x.log == m.log && Live(x) == Live(m))
  }

  lemma PushNext<T>(m: Mem<T>, v: T, n: nat, x: Mem<T>)
    requires PushWithin(m, v, n, x) && n > 0
    ensures PushWithin(m, v, n - 1, Owner(x))
  {
    if !x.owner.OwnerIdle? {
      OwnerMem(x);
      if x.owner.PushStoreBottom? {
        PushStep(x);
      } else {
        PushKeeps(x);
        RankFalls(x);
      }
    }
  }

  lemma {:induction false} PushFinishes<T>(m: Mem<T>, v: T, n: nat, x: Mem<T>, k: nat)
    requires PushWithin(m, v, n, x) && k <= n
    ensures PushWithin(m, v, n - k, OwnerSteps(x, k))
  {
    if k > 0 {
      PushFinishes(m, v, n, x, k - 1);
      PushNext(m, v, n - (k - 1), OwnerSteps(x, k - 1));
    }
  }

  lemma PushStarts<T>(s: State<T>, v: T)
    requires Inv(s) && s.mem.owner.OwnerIdle?
    ensures PushWithin(s.mem, v, |Live(s.mem)| + 6, Apply(s, StartPush(v)).mem)
  {
    StartInv(s, StartPush(v));
  }

  /** After any run, a push that nobody disturbs appends its value, whether or not the buffer has to grow. */
  lemma PushAlone<T>(ls: seq<Label<T>>, v: T)
    requires Run(ls).mem.owner.OwnerIdle?
    ensures
      var m := Run(ls).mem;
      Pushed(m, v, Run(ls + [StartPush(v)] + Repeat(OwnerStep, |Live(m)| + 6)).mem)
  {
    var m, n := Run(ls).mem, |Live(Run(ls).mem)| + 6;
    InvRun(ls);
    RunSnoc(ls, StartPush(v));
    RunOwner(ls + [StartPush(v)], n);
    PushStarts(Run(ls), v);
    PushFinishes(m, v, n, Run(ls + [StartPush(v)]).mem, n);
  }

  /** A push allocates a buffer for the first item, and one more whenever all but one slot are taken. */
  function NewBuffers<T>(m: Mem<T>): nat {
    if m.buffer.None? || |Live(m)| >= |Cur(m)| - 1 then 1 else 0
  }

  /** How many buffers a push that began in m has published by the time it has come to x. */
  ghost predicate GrowTo<T>(m: Mem<T>, x: Mem<T>) {
    && x.top == m.top
    && match x.owner
       case PushLoadTop(_, b) => x.bufs == m.bufs && x.buffer == m.buffer && b == m.bottom
       case PushLoadBuffer(_, b, t) => x.bufs == m.bufs && x.buffer == m.buffer && b == m.bottom && t == m.top
       case PushInitBuffer(_, b, t) => x.bufs == m.bufs && m.buffer.None? && b == m.bottom && t == m.top
       case PushCopy(_, _, _, _, _, _) => |x.bufs| == |m.bufs| && NewBuffers(m) == 1
       case PushPut(_, _, _) => |x.bufs| == |m.bufs| + NewBuffers(m)
       case PushStoreBottom(_, _) => |x.bufs| == |m.bufs| + NewBuffers(m)
       case OwnerIdle(_) => |x.bufs| == |m.bufs| + NewBuffers(m)
       case _ => false
  }

  lemma GrowNext<T>(m: Mem<T>, x: Mem<T>)
    requires GrowTo(m, x) && MemInv(x) && (m.buffer.None? ==> m.bottom == m.top) && m.top <= m.bottom && m.owner.OwnerIdle?
    ensures GrowTo(m, Owner(x)) && MemInv(Owner(x))
  {
    OwnerMem(x);
  }

  lemma {:induction false} GrowSteps<T>(m: Mem<T>, x: Mem<T>, n: nat)
    requires GrowTo(m, x) && MemInv(x) && (m.buffer.None? ==> m.bottom == m.top) && m.top <= m.bottom && m.owner.OwnerIdle?
    ensures GrowTo(m, OwnerSteps(x, n)) && MemInv(OwnerSteps(x, n))
  {
    if n > 0 {
      GrowSteps(m, x, n - 1);
      GrowNext(m, OwnerSteps(x, n - 1));
    }
  }

  lemma GrowStarts<T>(s: State<T>, v: T)
    requires Inv(s) && s.mem.owner.OwnerIdle?
    ensures GrowTo(s.mem, Apply(s, StartPush(v)).mem) && MemInv(Apply(s, StartPush(v)).mem)
    ensures (s.mem.buffer.None? ==> s.mem.bottom == s.mem.top) && s.mem.top <= s.mem.bottom
  {
    StartInv(s, StartPush(v));
  }

  lemma GrowRun<T>(s: State<T>, v: T, n: nat)
    requires Inv(s) && s.mem.owner.OwnerIdle?
    ensures GrowTo(s.mem, OwnerSteps(Apply(s, StartPush(v)).mem, n))
  {
    GrowStarts(s, v);
    GrowSteps(s.mem, Apply(s, StartPush(v)).mem, n);
  }

  lemma GrowEnds<T>(m: Mem<T>, v: T, x: Mem<T>)
    requires GrowTo(m, x) && Pushed(m, v, x)
    ensures |x.bufs| == |m.bufs| + NewBuffers(m)
  {
  }

  /** After any run, an undisturbed push grows the buffer exactly when it has to. */
  lemma PushGrows<T>(ls: seq<Label<T>>, v: T)
    requires Run(ls).mem.owner.OwnerIdle?
    ensures
      var m := Run(ls).mem;
      |Run(ls + [StartPush(v)] + Repeat(OwnerStep, |Live(m)| + 6)).mem.bufs| == |m.bufs| + NewBuffers(m)
  {
    var n := |Live(Run(ls).mem)| + 6;
    PushAlone(ls, v);
    InvRun(ls);
    GrowRun(Run(ls), v, n);
    RunSnoc(ls, StartPush(v));
    RunOwner(ls + [StartPush(v)], n);
    GrowEnds(Run(ls).mem, v, Run(ls + [StartPush(v)] + Repeat(OwnerStep, n)).mem);
  }

  function Capacity(k: nat): nat { if k == 0 then 32 else 2 * Capacity(k - 1) }

  /** The k-th buffer has 32 slots, doubled k times. */
  ghost predicate Doubled<T>(bufs: seq<Slots<T>>) { forall k :: 0 <= k < |bufs| ==> |bufs[k]| == Capacity(k) }

  lemma DoubledNext<T>(m: Mem<T>)
    requires MemInv(m) && Doubled(m.bufs)
    ensures Doubled(Owner(m).bufs)
  {
  }

  /** In every run the capacities are 32, 64, 128 and so on, in the order in which the buffers were published. */
  lemma {:induction false} CapacitiesDouble<T>(ls: seq<Label<T>>)
    ensures Doubled(Run(ls).mem.bufs)
  {
    if ls != [] {
      var s, l := Run(ls[..|ls| - 1]), ls[|ls| - 1];
      CapacitiesDouble(ls[..|ls| - 1]);
      InvRun(ls[..|ls| - 1]);
      if l.OwnerStep? {
        DoubledNext(s.mem);
      }
    }
  }

  /** What a steal run alone leaves: the oldest item is returned, or Empty if there is none. */
  ghost predicate Stolen<T>(m: Mem<T>, m': Mem<T>, r: StealResult<T>) {
    var live := Live(m);
    if live == [] then r == Empty && Live(m') == []
    else live[0] < |m.log.pushes| && r == Success(Some(m.log.pushes[live[0]])) && Live(m') == live[1..]
  }

  /** A thief's step, by its program counter. */
  lemma ThiefMoves<T>(s: State<T>, t: nat, n: nat)
    requires n > 0
    ensures
      var s0, s' := Again(s, ThiefStep(t), n - 1), Again(s, ThiefStep(t), n);
      t in s0.thieves ==>
        && t in s'.thieves && s'.thieves[t] == Thief(s0.mem, s0.thieves[t]).0
        && s'.mem == s0.mem.(top := Thief(s0.mem, s0.thieves[t]).1)
  {
  }

  lemma StealReads<T>(s: State<T>, t: nat)
    requires Inv(s) && s.mem.owner.OwnerIdle? && s.mem.top < s.mem.bottom
    requires t in s.thieves && s.thieves[t] == StealLoadBottom(s.mem.top)
    ensures
      var s' := Again(s, ThiefStep(t), 3);
      t in s'.thieves && s'.thieves[t] == StealCas(s.mem.top, Get(Cur(s.mem), s.mem.top)) && s'.mem == s.mem
  {
    ThiefMoves(s, t, 1);
    ThiefMoves(s, t, 2);
    ThiefMoves(s, t, 3);
  }

  lemma StealFinds<T>(s: State<T>, t: nat)
    requires Inv(s) && s.mem.owner.OwnerIdle? && s.mem.top < s.mem.bottom
    requires t in s.thieves && s.thieves[t] == StealLoadBottom(s.mem.top)
    ensures
      var s' := Again(s, ThiefStep(t), 4);
      t in s'.thieves && s'.thieves[t].ThiefDone? && Stolen(s.mem, s'.mem, s'.thieves[t].outcome)
  {
    StealReads(s, t);
    ThiefMoves(s, t, 4);
    assert s.mem.log.ItemAt(s.mem.top) == Get(Cur(s.mem), s.mem.top);
    StealStep(s.mem, StealCas(s.mem.top, Get(Cur(s.mem), s.mem.top)));
  }

  lemma StealMisses<T>(s: State<T>, t: nat)
    requires Inv(s) && s.mem.owner.OwnerIdle? && s.mem.top >= s.mem.bottom
    requires t in s.thieves && s.thieves[t] == StealLoadBottom(s.mem.top)
    ensures
      var s' := Again(s, ThiefStep(t), 4);
      t in s'.thieves && s'.thieves[t] == ThiefDone(Empty) && s'.mem == s.mem && Live(s.mem) == []
  {
    ThiefMoves(s, t, 1);
    ThiefMoves(s, t, 2);
    ThiefMoves(s, t, 3);
    ThiefMoves(s, t, 4);
  }

  /** After any run with no owner operation going on, an undisturbed steal returns the oldest value, and Empty exactly on an empty deque. */
  lemma StealAlone<T>(ls: seq<Label<T>>, t: nat)
    requires Run(ls).mem.owner.OwnerIdle? && (t in Run(ls).thieves ==> Run(ls).thieves[t].ThiefDone?)
    ensures
      var s := Run(ls + [StartSteal(t)] + Repeat(ThiefStep(t), 4));
      t in s.thieves && s.thieves[t].ThiefDone? && Stolen(Run(ls).mem, s.mem, s.thieves[t].outcome)
  {
    InvRun(ls);
    InvRun(ls + [StartSteal(t)]);
    RunSnoc(ls, StartSteal(t));
    RunAgain(ls + [StartSteal(t)], ThiefStep(t), 4);
    var s := Run(ls + [StartSteal(t)]);
    if s.mem.top < s.mem.bottom { StealFinds(s, t); } else { StealMisses(s, t); }
  }
}
