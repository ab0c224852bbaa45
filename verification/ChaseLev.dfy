/**
  The Chase-Lev work-stealing deque of `kernel/src/cpu/chase_lev.rs` as a labelled
  transition system: one owner that pushes and pops, any number of thieves that steal.
  Every load, store, compare-and-swap and slot access is one step; memory is
  sequentially consistent.  A run is any sequence of labels.

  The state carries history fields that no step reads to decide what to do: `log` (the
  value and index of every completed push, whose position is the item's serial number, and
  which serial was last pushed at an index) and `spec`, a sequential deque that performs each
  operation atomically, at one step of the concurrent one: push at the store of `bottom`,
  steal at the successful compare-and-swap, pop at its own compare-and-swap for the last item
  and at the load of `top` otherwise.
*/
module ChaseLev {
  import opened Wrappers

  const INITIAL_CAPACITY: nat := 32

  // ---------------------------------------------------------------- circular buffers

  /** Slots of one circular buffer; `None` is an uninitialised slot. */
  type Slots<T> = seq<Option<T>>

  function Get<T>(buf: Slots<T>, index: int): Option<T> {
    if |buf| == 0 then None else buf[index % |buf|]
  }

  function Put<T>(buf: Slots<T>, index: int, value: Option<T>): (r: Slots<T>)
    ensures |r| == |buf|
  {
    if |buf| == 0 then buf else buf[index % |buf| := value]
  }

  function Uninit<T>(capacity: nat): Slots<T> {
    seq(capacity, _ => None)
  }

  lemma MulGap(q: int, n: nat)
    ensures q >= 1 ==> q * n >= n
    ensures q <= 0 ==> q * n <= 0
  {
  }

  lemma ModDistinct(i: int, j: int, n: nat)
    requires i < j < i + n
    ensures i % n != j % n
  {
    MulGap(j / n - i / n, n);
    assert j - i == (j / n - i / n) * n + j % n - i % n;
  }

  /** Writing one index leaves every index alone that is not congruent to it, in particular its window. */
  lemma PutFrame<T>(buf: Slots<T>, i: int, j: int, value: Option<T>)
    requires |buf| > 0
    ensures Get(Put(buf, i, value), j) == if i % |buf| == j % |buf| then value else Get(buf, j)
    ensures i != j && i - |buf| < j < i + |buf| ==> i % |buf| != j % |buf|
  {
    if i < j < i + |buf| { ModDistinct(i, j, |buf|); }
    if i - |buf| < j < i { ModDistinct(j, i, |buf|); }
  }

  /** The copy loop of `grow`: indices lo..hi of src written into dst. */
  function CopyRange<T>(dst: Slots<T>, src: Slots<T>, lo: int, hi: int): (r: Slots<T>)
    ensures |r| == |dst|
    decreases hi - lo
  {
    if lo >= hi then dst else Put(CopyRange(dst, src, lo, hi - 1), hi - 1, Get(src, hi - 1))
  }

  /** Growing keeps the item at every index of a window that fits the new buffer. */
  lemma {:induction false} CopyRangeGet<T>(dst: Slots<T>, src: Slots<T>, lo: int, hi: int, i: int)
    requires lo <= i < hi <= lo + |dst|
    ensures Get(CopyRange(dst, src, lo, hi), i) == Get(src, i)
    decreases hi - lo
  {
    PutFrame(CopyRange(dst, src, lo, hi - 1), hi - 1, i, Get(src, hi - 1));
    if i < hi - 1 { CopyRangeGet(dst, src, lo, hi - 1, i); }
  }

  predicate PowerOfTwo(n: nat) {
    n == 1 || (n > 1 && n % 2 == 0 && PowerOfTwo(n / 2))
  }

  lemma DoublePower(n: nat)
    requires PowerOfTwo(n)
    ensures PowerOfTwo(2 * n)
  {
    assert (2 * n) / 2 == n;
  }

  /** Bitwise and. */
  function And(a: nat, b: nat): nat {
    if a == 0 || b == 0 then 0 else 2 * And(a / 2, b / 2) + (a % 2) * (b % 2)
  }

  /** The code masks an index with capacity - 1; for a power of two that is the remainder. */
  lemma {:induction false} MaskIsRemainder(index: nat, capacity: nat)
    requires PowerOfTwo(capacity)
    ensures And(index, capacity - 1) == index % capacity
  {
    if capacity > 1 {
      var h := capacity / 2;
      MaskIsRemainder(index / 2, h);
      HalfRemainder(index, h);
      AndOdd(index, h - 1);
      assert capacity == 2 * h && capacity - 1 == 2 * (h - 1) + 1;
    }
  }

  lemma AndOdd(a: nat, b: nat)
    ensures And(a, 2 * b + 1) == 2 * And(a / 2, b) + a % 2
  {
    assert (2 * b + 1) / 2 == b && (2 * b + 1) % 2 == 1;
  }

  lemma HalfRemainder(i: nat, h: nat)
    requires h > 0
    ensures i % (2 * h) == 2 * ((i / 2) % h) + i % 2
  {
    var q, r := (i / 2) / h, 2 * ((i / 2) % h) + i % 2;
    assert i == q * (2 * h) + r;
    RemainderUnique(i, q, r, 2 * h);
  }

  lemma RemainderUnique(i: nat, q: nat, r: nat, n: nat)
    requires 0 <= r < n && i == q * n + r
    ensures i % n == r
  {
    MulGap(i / n - q, n);
    assert (i / n - q) * n == r - i % n;
  }

  /** The heap object: a fixed array of slots, as allocated by `Buffer::new`. */
  class Buffer<T> {
    const data: array<Option<T>>

    constructor (capacity: nat)
      requires capacity > 0
      ensures data.Length == capacity && data[..] == Uninit(capacity)
      ensures fresh(data)
    {
      data := new Option<T>[capacity](_ => None);
    }

    method Read(index: int) returns (x: Option<T>)
      requires data.Length > 0
      ensures x == Get(data[..], index)
    {
      x := data[index % data.Length];
    }

    method Write(index: int, value: Option<T>)
      requires data.Length > 0
      modifies data
      ensures data[..] == Put(old(data[..]), index, value)
    {
      data[index % data.Length] := value;
    }

    method Grow(bottom: int, top: int) returns (bigger: Buffer<T>)
      requires data.Length > 0
      ensures fresh(bigger) && fresh(bigger.data)
      ensures bigger.data.Length == 2 * data.Length
      ensures bigger.data[..] == CopyRange(Uninit(2 * data.Length), data[..], top, bottom)
    {
      bigger := new Buffer(2 * data.Length);
      var i := top;
      while i < bottom
        invariant top <= i && (i <= bottom || i == top)
        invariant bigger.data[..] == CopyRange(Uninit(2 * data.Length), data[..], top, i)
      {
        var x := Read(i);
        bigger.Write(i, x);
        i := i + 1;
      }
      assert top >= bottom ==> CopyRange(Uninit<T>(2 * data.Length), data[..], top, bottom) == Uninit(2 * data.Length);
    }
  }

  // ---------------------------------------------------------------- states and labels

  datatype OwnerPc<T> =
    | OwnerIdle(result: Option<T>)
    | PushLoadTop(v: T, b: int)
    | PushLoadBuffer(v: T, b: int, t: int)
    | PushInitBuffer(v: T, b: int, t: int)
    | PushCopy(v: T, b: int, t: int, src: nat, dst: Slots<T>, i: int)
    | PushPut(v: T, b: int, k: nat)
    | PushStoreBottom(v: T, b: int)
    | PopStoreBottom(b: int)
    | PopLoadTop(b: int)
    | PopLoadBuffer(b: int, t: int)
    | PopRead(b: int, t: int, k: nat)
    | PopCas(b: int, x: Option<T>)
    | PopRestore(newBottom: int, result: Option<T>)

  datatype StealResult<T> = Success(value: Option<T>) | Empty | Retry

  datatype ThiefPc<T> =
    | ThiefDone(outcome: StealResult<T>)
    | StealLoadBottom(t: int)
    | StealLoadBuffer(t: int)
    | StealRead(t: int, k: nat)
    | StealCas(t: int, x: Option<T>)

  /** Where a pushed item is: in the deque, removed by an operation that has not returned, or returned. */
  datatype Fate<T> = Present | Removed | Returned(value: Option<T>)

  /** A sequential deque of serial numbers; `legal` is lost by an operation it would not allow. */
  datatype Deque<T> = Deque(items: seq<nat>, fate: map<nat, Fate<T>>, legal: bool) {
    function PushBottom(n: nat): Deque<T> {
      if n !in fate then this.(items := items + [n], fate := fate[n := Present])
      else this.(legal := false)
    }

    function PopBottom(n: nat): Deque<T> {
      if |items| > 0 && items[|items| - 1] == n && n in fate && fate[n].Present? then
        this.(items := items[..|items| - 1], fate := fate[n := Removed])
      else this.(legal := false)
    }

    function StealTop(n: nat): Deque<T> {
      if |items| > 0 && items[0] == n && n in fate && fate[n].Present? then
        this.(items := items[1..], fate := fate[n := Removed])
      else this.(legal := false)
    }

    /** The operation that removed n returns x to its caller. */
    function Return(n: nat, x: Option<T>): Deque<T> {
      if n in fate && fate[n].Removed? then this.(fate := fate[n := Returned(x)])
      else this.(legal := false)
    }
  }

  /** Every completed push, and which of them was last made at an index. */
  datatype Log<T> = Log(pushes: seq<T>, index: seq<int>, at: map<int, nat>) {
    function SerialAt(i: int): nat {
      if i in at then at[i] else 0
    }

    /** The value last pushed at an index. */
    function ItemAt(i: int): Option<T> {
      if i in at && at[i] < |pushes| then Some(pushes[at[i]]) else None
    }

    /** The serials at indices lo..hi. */
    function Window(lo: int, hi: int): (w: seq<nat>)
      ensures |w| == if lo < hi then hi - lo else 0
      ensures forall j | 0 <= j < |w| :: w[j] == SerialAt(lo + j)
      decreases hi - lo
    {
      if lo >= hi then [] else Window(lo, hi - 1) + [SerialAt(hi - 1)]
    }

    /** The buffer holds the items of indices lo..hi. */
    ghost predicate Holds(buf: Slots<T>, lo: int, hi: int) {
      forall i | lo <= i < hi :: ItemAt(i).Some? && Get(buf, i) == ItemAt(i)
    }

    function Add(b: int, v: T): Log<T> {
      Log(pushes + [v], index + [b], at[b := |pushes|])
    }
  }

  /** The shared words, every buffer ever published, the owner's program counter, the log. */
  datatype Mem<T> = Mem(
    bottom: int,
    top: int,
    buffer: Option<nat>,
    bufs: seq<Slots<T>>,
    owner: OwnerPc<T>,
    log: Log<T>)

  datatype State<T> = State(mem: Mem<T>, thieves: map<nat, ThiefPc<T>>, spec: Deque<T>)

  datatype Label<T> =
    | StartPush(v: T)
    | StartPop
    | OwnerStep
    | StartSteal(thief: nat)
    | ThiefStep(thief: nat)

  function Init<T>(): State<T> {
    State(Mem(0, 0, None, [], OwnerIdle(None), Log([], [], map[])), map[], Deque([], map[], true))
  }

  function Buf<T>(m: Mem<T>, k: nat): Slots<T> {
    if k < |m.bufs| then m.bufs[k] else []
  }

  // ---------------------------------------------------------------- steps

  /** The full test of `push`: grow when `bottom - top >= capacity - 1`. */
  function PushDecide<T>(m: Mem<T>, v: T, b: int, t: int, k: nat): OwnerPc<T> {
    if b - t >= |Buf(m, k)| - 1 then PushCopy(v, b, t, k, Uninit(2 * |Buf(m, k)|), t)
    else PushPut(v, b, k)
  }

  /** Next step of the owner's `push` or `pop`. */
  function Owner<T>(m: Mem<T>): Mem<T> {
    match m.owner
    case OwnerIdle(_) => m
    case PushLoadTop(v, b) => m.(owner := PushLoadBuffer(v, b, m.top))
    case PushLoadBuffer(v, b, t) =>
      if m.buffer.None? then m.(owner := PushInitBuffer(v, b, t))
      else m.(owner := PushDecide(m, v, b, t, m.buffer.value))
    case PushInitBuffer(v, b, t) =>
      // compare_exchange(null, new_buf)
      if m.buffer.None? then
        var m1 := m.(bufs := m.bufs + [Uninit(INITIAL_CAPACITY)], buffer := Some(|m.bufs|));
        m1.(owner := PushDecide(m1, v, b, t, |m.bufs|))
      else
        m.(owner := PushDecide(m, v, b, t, m.buffer.value))
    case PushCopy(v, b, t, src, dst, i) =>
      if i < b then
        m.(owner := PushCopy(v, b, t, src, Put(dst, i, Get(Buf(m, src), i)), i + 1))
      else
        m.(bufs := m.bufs + [dst], buffer := Some(|m.bufs|), owner := PushPut(v, b, |m.bufs|))
    case PushPut(v, b, k) =>
      if k < |m.bufs| then
        m.(bufs := m.bufs[k := Put(m.bufs[k], b, Some(v))], owner := PushStoreBottom(v, b))
      else m
    case PushStoreBottom(v, b) => m.(bottom := b + 1, owner := OwnerIdle(None), log := m.log.Add(b, v))
    case PopStoreBottom(b) => m.(bottom := b, owner := PopLoadTop(b))
    case PopLoadTop(b) =>
      if m.top <= b then m.(owner := PopLoadBuffer(b, m.top)) else m.(owner := PopRestore(m.top, None))
    case PopLoadBuffer(b, t) =>
      if m.buffer.None? then m.(owner := PopRestore(t, None))
      else m.(owner := PopRead(b, t, m.buffer.value))
    case PopRead(b, t, k) =>
      var x := Get(Buf(m, k), b);
      if t == b then m.(owner := PopCas(b, x)) else m.(owner := OwnerIdle(x))
    case PopCas(b, x) =>
      if m.top == b then m.(top := b + 1, owner := PopRestore(b + 1, x))
      else m.(owner := PopRestore(b + 1, None))
    case PopRestore(nb, r) => m.(bottom := nb, owner := OwnerIdle(r))
  }

  /** What the sequential deque does at that step. */
  function OwnerSpec<T>(m: Mem<T>, d: Deque<T>): Deque<T> {
    match m.owner
    case PushStoreBottom(v, b) => d.PushBottom(|m.log.pushes|)
    case PopLoadTop(b) =>
      // With a second item in sight no thief can reach index b any more.
      if m.top < b then d.PopBottom(m.log.SerialAt(b)) else d
    case PopRead(b, t, k) =>
      if t == b then d else d.Return(m.log.SerialAt(b), Get(Buf(m, k), b))
    case PopCas(b, x) =>
      if m.top == b then d.PopBottom(m.log.SerialAt(b)).Return(m.log.SerialAt(b), x) else d
    case _ => d
  }

  /** Next step of a thief's `steal`: its program counter and the value of `top`. */
  function Thief<T>(m: Mem<T>, pc: ThiefPc<T>): (ThiefPc<T>, int) {
    match pc
    case ThiefDone(_) => (pc, m.top)
    case StealLoadBottom(t) => (if t >= m.bottom then ThiefDone(Empty) else StealLoadBuffer(t), m.top)
    case StealLoadBuffer(t) =>
      (if m.buffer.None? then ThiefDone(Empty) else StealRead(t, m.buffer.value), m.top)
    case StealRead(t, k) => (StealCas(t, Get(Buf(m, k), t)), m.top)
    case StealCas(t, x) =>
      if m.top == t then (ThiefDone(Success(x)), t + 1) else (ThiefDone(Retry), m.top)
  }

  /** What the sequential deque does at that step. */
  function ThiefSpec<T>(m: Mem<T>, pc: ThiefPc<T>, d: Deque<T>): Deque<T> {
    if pc.StealCas? && m.top == pc.t then d.StealTop(m.log.SerialAt(pc.t)).Return(m.log.SerialAt(pc.t), pc.x)
    else d
  }

  /** One step; a label that is not enabled changes nothing. */
  function Apply<T>(s: State<T>, l: Label<T>): State<T> {
    var m := s.mem;
    match l
    case StartPush(v) =>
      if m.owner.OwnerIdle? then s.(mem := m.(owner := PushLoadTop(v, m.bottom))) else s
    case StartPop =>
      if m.owner.OwnerIdle? then s.(mem := m.(owner := PopStoreBottom(m.bottom - 1))) else s
    case OwnerStep => s.(mem := Owner(m), spec := OwnerSpec(m, s.spec))
    case StartSteal(i) =>
      if i in s.thieves && !s.thieves[i].ThiefDone? then s
      else s.(thieves := s.thieves[i := StealLoadBottom(m.top)])
    case ThiefStep(i) =>
      if i !in s.thieves then s
      else
        var (pc, top) := Thief(m, s.thieves[i]);
        State(m.(top := top), s.thieves[i := pc], ThiefSpec(m, s.thieves[i], s.spec))
  }

  /** The state after an arbitrary interleaving. */
  function Run<T>(ls: seq<Label<T>>): State<T> {
    if ls == [] then Init() else Apply(Run(ls[..|ls| - 1]), ls[|ls| - 1])
  }

  // ---------------------------------------------------------------- the invariant

  /** One past the last index that is logically in the deque. */
  function LiveEnd<T>(m: Mem<T>): int {
    match m.owner
    case PopLoadTop(b) => b + 1
    case PopLoadBuffer(b, t) => if t < b then b else b + 1
    case PopRead(b, t, _) => if t < b then b else b + 1
    case PopCas(b, _) => b + 1
    case PopRestore(nb, _) => nb
    case _ => m.bottom
  }

  /** The index of the item the owner has removed but not read yet. */
  function Claimed<T>(m: Mem<T>): Option<int> {
    match m.owner
    case PopLoadBuffer(b, t) => if t < b then Some(b) else None
    case PopRead(b, t, _) => if t < b then Some(b) else None
    case _ => None
  }

  function SlotEnd<T>(m: Mem<T>): int {
    LiveEnd(m) + if Claimed(m).Some? then 1 else 0
  }

  /** The logical contents, oldest first. */
  function Live<T>(m: Mem<T>): seq<nat> {
    m.log.Window(m.top, LiveEnd(m))
  }

  function Cur<T>(m: Mem<T>): Slots<T> {
    if m.buffer.Some? then Buf(m, m.buffer.value) else []
  }

  ghost predicate BufferInv<T>(m: Mem<T>) {
    && (forall k | 0 <= k < |m.bufs| :: PowerOfTwo(|m.bufs[k]|))
    && (if m.buffer.None? then m.bufs == [] && m.log.pushes == [] && SlotEnd(m) == 0
        else
          && m.buffer.value == |m.bufs| - 1
          && |Cur(m)| >= INITIAL_CAPACITY
          && SlotEnd(m) - m.top < |Cur(m)|
          && m.log.Holds(Cur(m), m.top, SlotEnd(m)))
  }

  ghost predicate PushInv<T>(m: Mem<T>, b: int, t: int) {
    && b == m.bottom && 0 <= t <= m.top
    && (m.buffer.Some? ==> b - t < |Cur(m)| && m.log.Holds(Cur(m), t, b))
  }

  ghost predicate PopInv<T>(m: Mem<T>, b: int, t: int) {
    && b == m.bottom && t <= b && t <= m.top
    && m.log.ItemAt(b).Some? && Get(Cur(m), b) == m.log.ItemAt(b)
  }

  ghost predicate OwnerInv<T>(m: Mem<T>) {
    match m.owner
    case OwnerIdle(_) => true
    case PushLoadTop(v, b) => b == m.bottom
    case PushLoadBuffer(v, b, t) => PushInv(m, b, t)
    case PushInitBuffer(v, b, t) => PushInv(m, b, t) && m.buffer.None?
    case PushCopy(v, b, t, src, dst, i) =>
      PushInv(m, b, t) && t <= i <= b && m.buffer == Some(src) && dst == CopyRange(Uninit(2 * |Cur(m)|), Cur(m), t, i)
    case PushPut(v, b, k) => b == m.bottom && m.buffer == Some(k) && b - m.top < |Cur(m)| - 1
    case PushStoreBottom(v, b) =>
      b == m.bottom && m.buffer.Some? && b - m.top < |Cur(m)| - 1 && Get(Cur(m), b) == Some(v)
    case PopStoreBottom(b) => b == m.bottom - 1
    case PopLoadTop(b) => b == m.bottom
    case PopLoadBuffer(b, t) => PopInv(m, b, t)
    case PopRead(b, t, k) => PopInv(m, b, t) && m.buffer == Some(k)
    case PopCas(b, x) => b == m.bottom && b <= m.top && m.log.ItemAt(b).Some? && x == m.log.ItemAt(b)
    case PopRestore(nb, _) => m.bottom == nb - 1 && m.top == nb
  }

  ghost predicate MemInv<T>(m: Mem<T>) {
    0 <= m.top <= LiveEnd(m) && BufferInv(m) && OwnerInv(m)
  }

  /** What a thief knows stays true only as long as `top` has not moved past its index. */
  ghost predicate ThiefInv<T>(m: Mem<T>, pc: ThiefPc<T>) {
    match pc
    case ThiefDone(_) => true
    case StealLoadBottom(t) => 0 <= t <= m.top
    case StealLoadBuffer(t) => 0 <= t <= m.top && (t == m.top ==> t < LiveEnd(m))
    case StealRead(t, k) =>
      0 <= t <= m.top && (t == m.top ==> t < LiveEnd(m) && Get(Buf(m, k), t) == m.log.ItemAt(t))
    case StealCas(t, x) =>
      0 <= t <= m.top && (t == m.top ==> t < LiveEnd(m) && x == m.log.ItemAt(t))
  }

  /** Every index lo..hi is where its own serial was pushed. */
  ghost predicate Placed<T>(log: Log<T>, lo: int, hi: int) {
    forall i | lo <= i < hi :: i in log.at && log.at[i] < |log.index| && log.index[log.at[i]] == i
  }

  /** The fate of the n-th push when indices lo..hi are in the deque. */
  ghost predicate FateOk<T>(log: Log<T>, fate: Fate<T>, lo: int, hi: int, claimed: Option<int>, n: nat)
    requires n < |log.pushes| && n < |log.index|
  {
    && (fate.Present? <==> lo <= log.index[n] < hi && log.SerialAt(log.index[n]) == n)
    && (fate.Removed? <==> claimed.Some? && log.SerialAt(claimed.value) == n)
    && (fate.Returned? ==> fate.value == Some(log.pushes[n]))
  }

  /** The sequential deque has stayed legal, holds indices lo..hi, and accounts for every push. */
  ghost predicate Linearised<T>(log: Log<T>, spec: Deque<T>, lo: int, hi: int, claimed: Option<int>) {
    && spec.legal && spec.items == log.Window(lo, hi)
    && |log.index| == |log.pushes|
    && Placed(log, lo, hi)
    && (forall n: nat :: n in spec.fate <==> n < |log.pushes|)
    && (forall n: nat | n < |log.pushes| :: FateOk(log, spec.fate[n], lo, hi, claimed, n))
  }

  ghost predicate SpecInv<T>(m: Mem<T>, d: Deque<T>) {
    Linearised(m.log, d, m.top, LiveEnd(m), Claimed(m))
  }

  ghost predicate Inv<T>(s: State<T>) {
    && MemInv(s.mem)
    && (forall i | i in s.thieves :: ThiefInv(s.mem, s.thieves[i]))
    && SpecInv(s.mem, s.spec)
  }

  // ---------------------------------------------------------------- thieves

  lemma AdvanceTop<T>(m: Mem<T>)
    requires MemInv(m) && m.top < LiveEnd(m)
    ensures MemInv(m.(top := m.top + 1))
  {
  }

  lemma ThiefMem<T>(m: Mem<T>, pc: ThiefPc<T>)
    requires MemInv(m) && ThiefInv(m, pc)
    ensures MemInv(m.(top := Thief(m, pc).1))
    ensures ThiefInv(m.(top := Thief(m, pc).1), Thief(m, pc).0)
  {
    if pc.StealCas? && m.top == pc.t {
      AdvanceTop(m);
    } else {
      assert m.(top := m.top) == m;
    }
  }

  /** Another agent's progress of `top` cannot invalidate what a thief knows. */
  lemma ThiefOther<T>(m: Mem<T>, top: int, pc: ThiefPc<T>)
    requires ThiefInv(m, pc) && m.top <= top
    ensures ThiefInv(m.(top := top), pc)
  {
  }

  lemma StealLinearised<T>(log: Log<T>, spec: Deque<T>, claimed: Option<int>, lo: int, hi: int, x: Option<T>)
    requires lo < hi && log.ItemAt(lo) == x && x.Some?
    requires Linearised(log, spec, lo, hi, claimed)
    ensures Linearised(log, spec.StealTop(log.SerialAt(lo)).Return(log.SerialAt(lo), x), lo + 1, hi, claimed)
  {
    assert log.Window(lo, hi)[1..] == log.Window(lo + 1, hi);
  }

  lemma SpecIs<T>(m: Mem<T>, d: Deque<T>, lo: int, hi: int, claimed: Option<int>)
    requires m.top == lo && LiveEnd(m) == hi && Claimed(m) == claimed
    ensures SpecInv(m, d) <==> Linearised(m.log, d, lo, hi, claimed)
  {
  }

  lemma ThiefSpecInv<T>(m: Mem<T>, pc: ThiefPc<T>, d: Deque<T>)
    requires SpecInv(m, d) && ThiefInv(m, pc)
    requires m.top < LiveEnd(m) ==> m.log.ItemAt(m.top).Some?
    ensures SpecInv(m.(top := Thief(m, pc).1), ThiefSpec(m, pc, d))
  {
    if pc.StealCas? && m.top == pc.t {
      TopTaken(m, d, pc.x);
    } else {
      assert m.(top := m.top) == m;
    }
  }

  lemma TopTaken<T>(m: Mem<T>, d: Deque<T>, x: Option<T>)
    requires SpecInv(m, d) && m.top < LiveEnd(m) && m.log.ItemAt(m.top) == x && x.Some?
    ensures SpecInv(m.(top := m.top + 1), d.StealTop(m.log.SerialAt(m.top)).Return(m.log.SerialAt(m.top), x))
  {
    var n := m.log.SerialAt(m.top);
    StealLinearised(m.log, d, Claimed(m), m.top, LiveEnd(m), x);
    SpecIs(m.(top := m.top + 1), d.StealTop(n).Return(n, x), m.top + 1, LiveEnd(m), Claimed(m));
  }

  // ---------------------------------------------------------------- the owner

  /** A thief's knowledge survives an owner step that keeps the item at `top`. */
  lemma ThiefKept<T>(m: Mem<T>, m': Mem<T>, pc: ThiefPc<T>)
    requires ThiefInv(m, pc)
    requires m'.top >= m.top
    requires m'.top == m.top < LiveEnd(m) ==>
      && m.top < LiveEnd(m')
      && m'.log.ItemAt(m.top) == m.log.ItemAt(m.top)
      && m.log.ItemAt(m.top).Some?
      && (forall k | 0 <= k < |m.bufs| :: Get(Buf(m', k), m.top) == Get(Buf(m, k), m.top))
    ensures ThiefInv(m', pc)
  {
  }

  lemma PushLoadMem<T>(m: Mem<T>)
    requires MemInv(m) && (m.owner.PushLoadTop? || m.owner.PushLoadBuffer?)
    ensures MemInv(Owner(m))
  {
  }

  lemma PushInitMem<T>(m: Mem<T>)
    requires MemInv(m) && m.owner.PushInitBuffer?
    ensures MemInv(Owner(m))
  {
    assert PowerOfTwo(32) by { assert PowerOfTwo(16) by { assert PowerOfTwo(4); } }
  }

  lemma PushCopyMem<T>(m: Mem<T>)
    requires MemInv(m) && m.owner.PushCopy? && m.owner.i < m.owner.b
    ensures MemInv(Owner(m))
  {
  }

  lemma GrownHolds<T>(log: Log<T>, src: Slots<T>, lo: int, hi: int)
    requires log.Holds(src, lo, hi) && hi - lo <= |src|
    ensures log.Holds(CopyRange(Uninit(2 * |src|), src, lo, hi), lo, hi)
  {
    forall i | lo <= i < hi ensures Get(CopyRange(Uninit(2 * |src|), src, lo, hi), i) == Get(src, i) {
      CopyRangeGet(Uninit(2 * |src|), src, lo, hi, i);
    }
  }

  lemma PushPublishMem<T>(m: Mem<T>)
    requires MemInv(m) && m.owner.PushCopy? && m.owner.i >= m.owner.b
    ensures MemInv(Owner(m))
  {
    var PushCopy(v, b, t, src, dst, i) := m.owner;
    GrownHolds(m.log, Cur(m), t, b);
    DoublePower(|Cur(m)|);
  }

  lemma PushPutMem<T>(m: Mem<T>)
    requires MemInv(m) && m.owner.PushPut?
    ensures MemInv(Owner(m))
  {
    var PushPut(v, b, k) := m.owner;
    forall j | m.top <= j <= b
      ensures Get(Cur(Owner(m)), j) == if j == b then Some(v) else Get(Cur(m), j)
    {
      PutFrame(Cur(m), b, j, Some(v));
    }
  }

  lemma PushStoreMem<T>(m: Mem<T>)
    requires MemInv(m) && m.owner.PushStoreBottom?
    ensures MemInv(Owner(m))
  {
    assert forall j | m.top <= j < m.owner.b :: Owner(m).log.ItemAt(j) == m.log.ItemAt(j);
  }

  lemma PopMem<T>(m: Mem<T>)
    requires MemInv(m) && (m.owner.PopStoreBottom? || m.owner.PopLoadTop? || m.owner.PopLoadBuffer? || m.owner.PopRead?)
    ensures MemInv(Owner(m))
  {
  }

  lemma OwnerMem<T>(m: Mem<T>)
    requires MemInv(m)
    ensures MemInv(Owner(m))
  {
    match m.owner
    case PushInitBuffer(_, _, _) => PushInitMem(m);
    case PushCopy(_, b, _, _, _, i) => if i >= b { PushPublishMem(m); } else { PushCopyMem(m); }
    case PushPut(_, _, _) => PushPutMem(m);
    case PushStoreBottom(_, _) => PushStoreMem(m);
    case PopCas(b, _) => if m.top == b { AdvanceTop(m); }
    case OwnerIdle(_) =>
    case PushLoadTop(_, _) => PushLoadMem(m);
    case PushLoadBuffer(_, _, _) => PushLoadMem(m);
    case PopRestore(_, _) =>
    case _ => PopMem(m);
  }

  lemma OwnerKeepsThief<T>(m: Mem<T>, pc: ThiefPc<T>)
    requires MemInv(m) && ThiefInv(m, pc)
    ensures ThiefInv(Owner(m), pc)
  {
    if m.owner.PushPut? && m.top < LiveEnd(m) {
      PutFrame(Cur(m), m.owner.b, m.top, Some(m.owner.v));
    }
    ThiefKept(m, Owner(m), pc);
  }

  lemma PopLinearised<T>(log: Log<T>, spec: Deque<T>, lo: int, b: int)
    requires lo <= b
    requires Linearised(log, spec, lo, b + 1, None)
    ensures Linearised(log, spec.PopBottom(log.SerialAt(b)), lo, b, Some(b))
  {
    assert log.Window(lo, b + 1)[..b - lo] == log.Window(lo, b);
  }

  lemma ReturnLinearised<T>(log: Log<T>, spec: Deque<T>, lo: int, hi: int, b: int, x: Option<T>)
    requires log.ItemAt(b) == x && x.Some?
    requires Linearised(log, spec, lo, hi, Some(b))
    ensures Linearised(log, spec.Return(log.SerialAt(b), x), lo, hi, None)
  {
  }

  lemma PopLastLinearised<T>(log: Log<T>, spec: Deque<T>, b: int, x: Option<T>)
    requires log.ItemAt(b) == x && x.Some?
    requires Linearised(log, spec, b, b + 1, None)
    ensures Linearised(log, spec.PopBottom(log.SerialAt(b)).Return(log.SerialAt(b), x), b + 1, b + 1, None)
  {
    PopLinearised(log, spec, b, b);
    ReturnLinearised(log, spec.PopBottom(log.SerialAt(b)), b, b, b, x);
    assert log.Window(b, b) == [] == log.Window(b + 1, b + 1);
  }

  lemma PushLinearised<T>(log: Log<T>, spec: Deque<T>, lo: int, hi: int, v: T)
    requires lo <= hi
    requires Linearised(log, spec, lo, hi, None)
    ensures Linearised(log.Add(hi, v), spec.PushBottom(|log.pushes|), lo, hi + 1, None)
  {
    assert log.Add(hi, v).Window(lo, hi + 1) == log.Window(lo, hi) + [|log.pushes|];
  }

  lemma PushStoreSpec<T>(m: Mem<T>, d: Deque<T>)
    requires SpecInv(m, d) && OwnerInv(m) && m.owner.PushStoreBottom? && m.top <= m.bottom
    ensures SpecInv(Owner(m), OwnerSpec(m, d))
  {
    PushLinearised(m.log, d, m.top, m.owner.b, m.owner.v);
    SpecIs(Owner(m), OwnerSpec(m, d), m.top, m.owner.b + 1, None);
  }

  lemma PopClaimSpec<T>(m: Mem<T>, d: Deque<T>)
    requires SpecInv(m, d) && m.owner.PopLoadTop? && m.top < m.owner.b
    ensures SpecInv(Owner(m), OwnerSpec(m, d))
  {
    PopLinearised(m.log, d, m.top, m.owner.b);
    SpecIs(Owner(m), OwnerSpec(m, d), m.top, m.owner.b, Some(m.owner.b));
  }

  lemma PopReadSpec<T>(m: Mem<T>, d: Deque<T>)
    requires SpecInv(m, d) && OwnerInv(m) && m.owner.PopRead? && m.owner.t < m.owner.b
    ensures SpecInv(Owner(m), OwnerSpec(m, d))
  {
    var b := m.owner.b;
    ReturnLinearised(m.log, d, m.top, b, b, m.log.ItemAt(b));
    SpecIs(Owner(m), OwnerSpec(m, d), m.top, b, None);
  }

  lemma PopCasShape<T>(m: Mem<T>)
    requires OwnerInv(m) && m.owner.PopCas? && m.top == m.owner.b
    ensures LiveEnd(m) == m.top + 1 && Claimed(m) == None
    ensures var m' := Owner(m); m'.top == LiveEnd(m') == m.top + 1 && Claimed(m') == None && m'.log == m.log
  {
  }

  lemma PopCasSpec<T>(m: Mem<T>, d: Deque<T>)
    requires SpecInv(m, d) && OwnerInv(m) && m.owner.PopCas? && m.top == m.owner.b
    ensures SpecInv(Owner(m), OwnerSpec(m, d))
  {
    PopCasShape(m);
    PopLastLinearised(m.log, d, m.top, m.owner.x);
  }

  lemma OwnerSpecInv<T>(m: Mem<T>, d: Deque<T>)
    requires SpecInv(m, d) && OwnerInv(m) && m.top <= LiveEnd(m)
    ensures SpecInv(Owner(m), OwnerSpec(m, d))
  {
    if m.owner.PushStoreBottom? {
      PushStoreSpec(m, d);
    } else if m.owner.PopLoadTop? && m.top < m.owner.b {
      PopClaimSpec(m, d);
    } else if m.owner.PopRead? && m.owner.t < m.owner.b {
      PopReadSpec(m, d);
    } else if m.owner.PopCas? && m.top == m.owner.b {
      PopCasSpec(m, d);
    } else {
      SpecIs(Owner(m), d, m.top, LiveEnd(m), Claimed(m));
    }
  }

  // ---------------------------------------------------------------- every interleaving

  lemma StartInv<T>(s: State<T>, l: Label<T>)
    requires Inv(s) && (l.StartPush? || l.StartPop?)
    ensures Inv(Apply(s, l))
  {
    var m, m' := s.mem, Apply(s, l).mem;
    forall i | i in s.thieves ensures ThiefInv(m', s.thieves[i]) {
      ThiefKept(m, m', s.thieves[i]);
    }
    SpecIs(m', s.spec, m.top, LiveEnd(m), Claimed(m));
  }

  lemma InvStep<T>(s: State<T>, l: Label<T>)
    requires Inv(s)
    ensures Inv(Apply(s, l))
  {
    match l
    case StartPush(_) => StartInv(s, l);
    case StartPop => StartInv(s, l);
    case StartSteal(_) =>
    case OwnerStep =>
      OwnerMem(s.mem);
      OwnerSpecInv(s.mem, s.spec);
      forall i | i in s.thieves ensures ThiefInv(Owner(s.mem), s.thieves[i]) {
        OwnerKeepsThief(s.mem, s.thieves[i]);
      }
    case ThiefStep(i) =>
      if i in s.thieves {
        var top := Thief(s.mem, s.thieves[i]).1;
        ThiefMem(s.mem, s.thieves[i]);
        ThiefSpecInv(s.mem, s.thieves[i], s.spec);
        forall j | j in s.thieves ensures ThiefInv(s.mem.(top := top), s.thieves[j]) {
          ThiefOther(s.mem, top, s.thieves[j]);
        }
      }
  }

  /** Every interleaving keeps the invariant. */
  lemma {:induction false} InvRun<T>(ls: seq<Label<T>>)
    ensures Inv(Run(ls))
  {
    if ls != [] {
      InvRun(ls[..|ls| - 1]);
      InvStep(Run(ls[..|ls| - 1]), ls[|ls| - 1]);
    }
  }

  // ---------------------------------------------------------------- results

  /** Number n sits at exactly one index between `top` and the logical end. */
  ghost predicate InDequeOnce<T>(m: Mem<T>, n: nat) {
    exists i :: m.top <= i < LiveEnd(m) && m.log.SerialAt(i) == n &&
      forall j | m.top <= j < LiveEnd(m) && m.log.SerialAt(j) == n :: j == i
  }

  ghost predicate InDeque<T>(m: Mem<T>, n: nat) {
    exists i :: m.top <= i < LiveEnd(m) && m.log.SerialAt(i) == n
  }

  /**
    Nothing is lost and nothing is handed out twice: in every interleaving the lock-step
    sequential deque never sees an operation it would not allow (it refuses to remove an absent
    item or to return one twice), it holds the items of indices top..LiveEnd in order, and every
    push ever made is in exactly one place, with the value that was pushed.
  */
  lemma ExactlyOnce<T>(ls: seq<Label<T>>, n: nat)
    requires n < |Run(ls).mem.log.pushes|
    ensures Accounted(Run(ls), n)
  {
    InvRun(ls);
    AccountedIn(Run(ls), n);
  }

  /** The lock-step deque is in order, and push n is in one place with its own value. */
  ghost predicate Accounted<T>(s: State<T>, n: nat)
    requires n < |s.mem.log.pushes|
  {
    var m := s.mem;
    && s.spec.legal && s.spec.items == Live(m) && n in s.spec.fate
    && match s.spec.fate[n]
       case Present => InDequeOnce(m, n)
       case Removed => !InDeque(m, n) && Claimed(m).Some? && m.log.SerialAt(Claimed(m).value) == n
       case Returned(x) => !InDeque(m, n) && x == Some(m.log.pushes[n])
  }

  lemma AccountedIn<T>(s: State<T>, n: nat)
    requires SpecInv(s.mem, s.spec) && n < |s.mem.log.pushes|
    ensures Accounted(s, n)
  {
    var m := s.mem;
    assert FateOk(m.log, s.spec.fate[n], m.top, LiveEnd(m), Claimed(m), n);
    if s.spec.fate[n].Present? {
      var i := m.log.index[n];
      assert m.top <= i < LiveEnd(m) && m.log.SerialAt(i) == n;
    }
  }

  /** Between owner operations, whatever the thieves are doing: returned with its value, or at one index of top..bottom. */
  lemma QuiescentConservation<T>(ls: seq<Label<T>>, n: nat)
    requires var m := Run(ls).mem; n < |m.log.pushes| && m.owner.OwnerIdle?
    ensures
      var s := Run(ls); var m := s.mem;
      && LiveEnd(m) == m.bottom && n in s.spec.fate
      && (InDequeOnce(m, n) <==> InDeque(m, n))
      && (InDeque(m, n) <==> s.spec.fate[n] != Returned(Some(m.log.pushes[n])))
  {
    ExactlyOnce(ls, n);
  }

  /** What the last step of a steal does to memory, and what the thief is told. */
  ghost predicate StealOutcome<T>(m: Mem<T>, t: int, m': Mem<T>, pc': ThiefPc<T>) {
    if m.top == t then
      var n := m.log.SerialAt(t);
      && n < |m.log.pushes|
      && Live(m) == [n] + Live(m')
      && pc' == ThiefDone(Success(Some(m.log.pushes[n])))
    else t < m.top && pc' == ThiefDone(Retry) && Live(m') == Live(m)
  }

  lemma StealStep<T>(m: Mem<T>, pc: ThiefPc<T>)
    requires MemInv(m) && ThiefInv(m, pc) && pc.StealCas?
    ensures StealOutcome(m, pc.t, m.(top := Thief(m, pc).1), Thief(m, pc).0)
  {
    if m.top == pc.t {
      assert m.log.ItemAt(pc.t).Some?;
      assert m.log.Window(m.top, LiveEnd(m)) == [m.log.SerialAt(m.top)] + m.log.Window(m.top + 1, LiveEnd(m));
    }
  }

  /** A steal that wins its compare-and-swap returns the oldest item, with the value pushed there. */
  lemma StealCorrect<T>(ls: seq<Label<T>>, i: nat)
    requires var s := Run(ls); i in s.thieves && s.thieves[i].StealCas?
    ensures
      var s := Run(ls); var s' := Run(ls + [ThiefStep(i)]);
      i in s'.thieves && StealOutcome(s.mem, s.thieves[i].t, s'.mem, s'.thieves[i])
  {
    InvRun(ls);
    RunSnoc(ls, ThiefStep(i));
    StealStep(Run(ls).mem, Run(ls).thieves[i]);
  }

  lemma RunSnoc<T>(ls: seq<Label<T>>, l: Label<T>)
    ensures Run(ls + [l]) == Apply(Run(ls), l)
  {
    assert (ls + [l])[..|ls|] == ls;
  }

  /** The owner is between its store of `bottom` and the decision of its pop. */
  predicate PopUndecided<T>(pc: OwnerPc<T>) {
    pc.PopLoadTop? || pc.PopLoadBuffer? || pc.PopRead? || pc.PopCas?
  }

  /** A steal reports Empty only if the deque is empty or its single item is the one a pop is deciding on. */
  lemma StealEmptyCorrect<T>(ls: seq<Label<T>>, i: nat)
    requires var s := Run(ls); i in s.thieves && !s.thieves[i].ThiefDone?
    requires Run(ls + [ThiefStep(i)]).thieves[i] == ThiefDone(Empty)
    ensures var m := Run(ls).mem; Live(m) == [] || (|Live(m)| == 1 && PopUndecided(m.owner) && m.owner.b == m.top)
    ensures Run(ls).thieves[i].StealLoadBottom?
  {
    InvRun(ls);
    RunSnoc(ls, ThiefStep(i));
    assert ThiefInv(Run(ls).mem, Run(ls).thieves[i]);
  }

  /** What each step of a pop does: take the newest item with its value, or nothing when the deque is empty. */
  ghost predicate PopOutcome<T>(m: Mem<T>, m': Mem<T>) {
    match m.owner
    case PopStoreBottom(b) => m'.owner == PopLoadTop(b) && Live(m') == Live(m)
    case PopLoadTop(b) =>
      // the decision: with two items in sight the newest one leaves the deque
      if m.top < b then m'.owner == PopLoadBuffer(b, m.top) && Live(m) == Live(m') + [m.log.SerialAt(b)]
      else if m.top == b then m'.owner == PopLoadBuffer(b, b) && Live(m') == Live(m)
      else m'.owner == PopRestore(m.top, None) && Live(m') == Live(m) == []
    case PopLoadBuffer(b, t) => m'.owner.PopRead? && m'.owner.b == b && m'.owner.t == t && Live(m') == Live(m)
    case PopRead(b, t, k) =>
      var n := m.log.SerialAt(b);
      && n < |m.log.pushes|
      && m'.owner == (if t < b then OwnerIdle(Some(m.log.pushes[n])) else PopCas(b, Some(m.log.pushes[n])))
      && Live(m') == Live(m)
    case PopCas(b, x) =>
      var n := m.log.SerialAt(b);
      && n < |m.log.pushes|
      && Live(m') == []
      && Live(m) == (if m.top == b then [n] else [])
      && m'.owner == PopRestore(b + 1, if m.top == b then Some(m.log.pushes[n]) else None)
    case PopRestore(nb, r) => m'.owner == OwnerIdle(r) && m'.bottom == m'.top == nb && Live(m') == Live(m)
    case _ => true
  }

  lemma PopStep<T>(m: Mem<T>)
    requires MemInv(m)
    ensures PopOutcome(m, Owner(m))
  {
    match m.owner
    case PopLoadTop(b) => PopLoadTopStep(m);
    case PopCas(b, x) => PopCasStep(m);
    case _ =>
  }

  lemma PopLoadTopStep<T>(m: Mem<T>)
    requires MemInv(m) && m.owner.PopLoadTop?
    ensures PopOutcome(m, Owner(m))
  {
    var b := m.owner.b;
    if m.top < b {
      assert m.log.Window(m.top, b + 1) == m.log.Window(m.top, b) + [m.log.SerialAt(b)];
    }
  }

  lemma PopCasStep<T>(m: Mem<T>)
    requires MemInv(m) && m.owner.PopCas?
    ensures PopOutcome(m, Owner(m))
  {
    var b := m.owner.b;
    assert m.log.Window(b, b + 1) == [m.log.SerialAt(b)];
  }

  /** What a pop returns, step by step, in every interleaving. */
  lemma PopCorrect<T>(ls: seq<Label<T>>)
    ensures PopOutcome(Run(ls).mem, Run(ls + [OwnerStep]).mem)
  {
    InvRun(ls);
    RunSnoc(ls, OwnerStep);
    PopStep(Run(ls).mem);
  }

  /** A completed push puts its value at the bottom end of the deque and nowhere else. */
  lemma PushCorrect<T>(ls: seq<Label<T>>)
    requires Run(ls).mem.owner.PushStoreBottom?
    ensures
      var m := Run(ls).mem; var m' := Run(ls + [OwnerStep]).mem;
      && m'.log.pushes == m.log.pushes + [m.owner.v]
      && Live(m') == Live(m) + [|m.log.pushes|]
  {
    InvRun(ls);
    RunSnoc(ls, OwnerStep);
    PushStep(Run(ls).mem);
  }

  lemma PushStep<T>(m: Mem<T>)
    requires MemInv(m) && m.owner.PushStoreBottom?
    ensures
      var m' := Owner(m);
      m'.log.pushes == m.log.pushes + [m.owner.v] && Live(m') == Live(m) + [|m.log.pushes|]
  {
    var log' := m.log.Add(m.owner.b, m.owner.v);
    assert log'.Window(m.top, m.owner.b + 1) == m.log.Window(m.top, m.owner.b) + [|m.log.pushes|];
  }

  ghost predicate OldFrozen<T>(m: Mem<T>, m': Mem<T>) {
    && m.top <= m'.top && |m.bufs| <= |m'.bufs|
    && forall k | 0 <= k < |m.bufs| && m.buffer != Some(k) :: m'.bufs[k] == m.bufs[k]
  }

  lemma OwnerFreezes<T>(m: Mem<T>)
    requires MemInv(m)
    ensures OldFrozen(m, Owner(m))
  {
  }

  lemma StepFreezes<T>(s: State<T>, l: Label<T>)
    requires Inv(s)
    ensures OldFrozen(s.mem, Apply(s, l).mem)
  {
    if l.OwnerStep? {
      OwnerFreezes(s.mem);
    }
  }

  /** `top` only grows, and a buffer that has been replaced is never written again. */
  lemma TopGrowsOldBuffersFrozen<T>(ls: seq<Label<T>>, l: Label<T>)
    ensures OldFrozen(Run(ls).mem, Apply(Run(ls), l).mem)
  {
    InvRun(ls);
    StepFreezes(Run(ls), l);
  }
}
