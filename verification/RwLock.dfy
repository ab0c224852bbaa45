/**
  The reader-writer spin lock of `kernel/src/lock/mod.rs` as interleaved steps on one 32-bit
  word: bits 0-30 count the readers, bit 31 is the writer flag.  An agent is one acquisition
  in progress or one live guard, so a hart that holds several guards is several agents.
*/
module RwLock {
  const WRITER_BIT: nat := 0x8000_0000
  const MAX_READERS: nat := 0x7FFF_FFFF

  datatype Pc =
    | Idle
    | Panicked
    | ReadLoad(blocking: bool)
    | ReadCas(blocking: bool, seen: nat)
    | Reading
    | WriteLoad
    | WriteCas(seen: nat)
    | Draining
    | Writing

  datatype State = State(word: nat, pcs: map<nat, Pc>)

  /** `spurious` lets a compare_exchange_weak fail although the word matches. */
  datatype Label =
    | Read(id: nat)
    | TryRead(id: nat)
    | Write(id: nat)
    | TryWrite(id: nat)
    | Step(id: nat, spurious: bool)
    | Drop(id: nat)

  function Init(): State { State(0, map[]) }

  function PcOf(s: State, i: nat): Pc { if i in s.pcs then s.pcs[i] else Idle }

  function Set(s: State, i: nat, pc: Pc): State { s.(pcs := s.pcs[i := pc]) }

  /** word & WRITER_BIT != 0 */
  predicate HasWriterBit(w: nat) { w / WRITER_BIT % 2 == 1 }

  /** word & READER_MASK */
  function ReaderCount(w: nat): nat { w % WRITER_BIT }

  function Next(s: State, i: nat, spurious: bool): State {
    match PcOf(s, i)
    case ReadLoad(blocking) =>
      if HasWriterBit(s.word) then (if blocking then s else Set(s, i, Idle))
      else if ReaderCount(s.word) >= MAX_READERS then Set(s, i, if blocking then Panicked else Idle)
      else Set(s, i, ReadCas(blocking, s.word))
    case ReadCas(blocking, seen) =>
      if s.word == seen && !spurious then Set(s, i, Reading).(word := (seen + 1) % 0x1_0000_0000)
      else Set(s, i, if blocking then ReadLoad(true) else Idle)
    case WriteLoad => if HasWriterBit(s.word) then s else Set(s, i, WriteCas(s.word))
    case WriteCas(seen) =>
      // seen | WRITER_BIT, with the bit clear in seen
      if s.word == seen && !spurious then Set(s, i, Draining).(word := seen + WRITER_BIT)
      else Set(s, i, WriteLoad)
    case Draining => if s.word == WRITER_BIT then Set(s, i, Writing) else s
    case _ => s
  }

  function Apply(s: State, l: Label): State {
    var pc := PcOf(s, l.id);
    match l
    case Read(i) => if pc.Idle? then Set(s, i, ReadLoad(true)) else s
    case TryRead(i) => if pc.Idle? then Set(s, i, ReadLoad(false)) else s
    case Write(i) => if pc.Idle? then Set(s, i, WriteLoad) else s
    case TryWrite(i) =>
      if pc.Idle? && s.word == 0 then Set(s, i, Writing).(word := WRITER_BIT) else s
    case Step(i, spurious) => Next(s, i, spurious)
    case Drop(i) =>
      if pc.Reading? then Set(s, i, Idle).(word := (s.word + 0xFFFF_FFFF) % 0x1_0000_0000) // fetch_sub(1)
      else if pc.Writing? then Set(s, i, Idle).(word := ReaderCount(s.word)) // fetch_and(!WRITER_BIT)
      else s
  }

  function Run(ls: seq<Label>): State {
    if ls == [] then Init() else Apply(Run(ls[..|ls| - 1]), ls[|ls| - 1])
  }

  // ---------------------------------------------------------------- the invariant

  function Readers(s: State): set<nat> { set i | i in s.pcs && s.pcs[i].Reading? }

  predicate OwnsBit(pc: Pc) { pc.Draining? || pc.Writing? }

  function Writers(s: State): set<nat> { set i | i in s.pcs && OwnsBit(s.pcs[i]) }

  ghost predicate PcInv(readers: nat, pc: Pc) {
    match pc
    case ReadCas(_, seen) => seen < MAX_READERS
    case WriteCas(seen) => seen < WRITER_BIT
    case Writing => readers == 0
    case _ => true
  }

  /** The word is the number of live read guards plus, if some writer owns it, the writer bit. */
  ghost predicate Inv(s: State) {
    && |Writers(s)| <= 1
    && |Readers(s)| <= MAX_READERS
    && s.word == |Readers(s)| + |Writers(s)| * WRITER_BIT
    && (forall i | i in s.pcs :: PcInv(|Readers(s)|, s.pcs[i]))
  }

  lemma Resize(a: set<nat>, i: nat)
    ensures |a + {i}| == |a| + (if i in a then 0 else 1)
    ensures |a - {i}| == |a| - (if i in a then 1 else 0)
  {
    if i in a { assert a + {i} == a; } else { assert a - {i} == a; }
  }

  lemma ReadersAfter(s: State, i: nat, pc: Pc, w: nat)
    ensures
      var s' := Set(s, i, pc).(word := w);
      && Readers(s') == (if pc.Reading? then Readers(s) + {i} else Readers(s) - {i})
      && |Readers(s')| == |Readers(s)| + (if pc.Reading? then 1 else 0) - (if PcOf(s, i).Reading? then 1 else 0)
  {
    var s' := Set(s, i, pc).(word := w);
    Resize(Readers(s), i);
    if pc.Reading? { assert Readers(s') == Readers(s) + {i}; } else { assert Readers(s') == Readers(s) - {i}; }
  }

  lemma WritersAfter(s: State, i: nat, pc: Pc, w: nat)
    ensures
      var s' := Set(s, i, pc).(word := w);
      && Writers(s') == (if OwnsBit(pc) then Writers(s) + {i} else Writers(s) - {i})
      && |Writers(s')| == |Writers(s)| + (if OwnsBit(pc) then 1 else 0) - (if OwnsBit(PcOf(s, i)) then 1 else 0)
  {
    var s' := Set(s, i, pc).(word := w);
    Resize(Writers(s), i);
    if OwnsBit(pc) { assert Writers(s') == Writers(s) + {i}; } else { assert Writers(s') == Writers(s) - {i}; }
  }

  lemma WritingAlone(s: State, i: nat)
    requires Inv(s) && PcOf(s, i).Writing?
    ensures s.word == WRITER_BIT && Writers(s) == {i} && Readers(s) == {}
  {
    assert i in Writers(s) && PcInv(|Readers(s)|, s.pcs[i]);
    assert {i} <= Writers(s) && |Writers(s) - {i}| == |Writers(s)| - 1;
  }

  function B(b: bool): int { if b then 1 else 0 }

  /** A change of one agent keeps the invariant if the word follows the counts. */
  lemma Move(s: State, i: nat, pc: Pc, w: nat)
    requires Inv(s)
    requires
      var r := |Readers(s)| + B(pc.Reading?) - B(PcOf(s, i).Reading?);
      var x := |Writers(s)| + B(OwnsBit(pc)) - B(OwnsBit(PcOf(s, i)));
      && 0 <= r <= MAX_READERS && 0 <= x <= 1 && w == r + x * WRITER_BIT && PcInv(r, pc)
      && (r <= |Readers(s)| || |Writers(s)| == 0)
    ensures Inv(Set(s, i, pc).(word := w))
  {
    ReadersAfter(s, i, pc, w);
    WritersAfter(s, i, pc, w);
    var s' := Set(s, i, pc).(word := w);
    forall j | j in s'.pcs ensures PcInv(|Readers(s')|, s'.pcs[j]) {
      if j != i {
        assert PcInv(|Readers(s)|, s.pcs[j]);
        assert s.pcs[j].Writing? ==> j in Writers(s);
      }
    }
  }

  lemma InvNext(s: State, i: nat, spurious: bool)
    requires Inv(s)
    ensures Inv(Next(s, i, spurious))
  {
    var s' := Next(s, i, spurious);
    if i in s.pcs && s' != s {
      assert PcInv(|Readers(s)|, s.pcs[i]);
      assert s' == Set(s, i, PcOf(s', i)).(word := s'.word);
      Move(s, i, PcOf(s', i), s'.word);
    }
  }

  lemma InvDrop(s: State, i: nat)
    requires Inv(s)
    ensures Inv(Apply(s, Drop(i)))
  {
    var s' := Apply(s, Drop(i));
    var pc := PcOf(s, i);
    if pc.Reading? {
      assert i in Readers(s);
      Move(s, i, Idle, s'.word);
    } else if pc.Writing? {
      WritingAlone(s, i);
      Move(s, i, Idle, s'.word);
    }
  }

  lemma InvStart(s: State, l: Label)
    requires Inv(s) && !l.Step? && !l.Drop?
    ensures Inv(Apply(s, l))
  {
    var s', i := Apply(s, l), l.id;
    if s' != s {
      assert s' == Set(s, i, PcOf(s', i)).(word := s'.word);
      Move(s, i, PcOf(s', i), s'.word);
    }
  }

  /** Every interleaving keeps the invariant. */
  lemma {:induction false} InvRun(ls: seq<Label>)
    ensures Inv(Run(ls))
  {
    if ls != [] {
      var s, l := Run(ls[..|ls| - 1]), ls[|ls| - 1];
      InvRun(ls[..|ls| - 1]);
      match l
      case Step(i, spurious) => InvNext(s, i, spurious);
      case Drop(i) => InvDrop(s, i);
      case _ => InvStart(s, l);
    }
  }

  // ---------------------------------------------------------------- results

  /** A live write guard excludes every other guard and every writer that has the bit. */
  lemma Exclusion(ls: seq<Label>, i: nat, j: nat)
    requires PcOf(Run(ls), i).Writing? && j != i
    ensures !PcOf(Run(ls), j).Reading? && !OwnsBit(PcOf(Run(ls), j))
  {
    InvRun(ls);
    WritingAlone(Run(ls), i);
    assert j !in Readers(Run(ls)) && j !in Writers(Run(ls));
  }

  /** The low 31 bits count the read guards, the top bit tells of a writer, and no increment reaches the top bit. */
  lemma WordExact(ls: seq<Label>, i: nat)
    ensures
      var s := Run(ls);
      && s.word < 0x1_0000_0000
      && ReaderCount(s.word) == |Readers(s)|
      && (HasWriterBit(s.word) <==> Writers(s) != {})
      && (PcOf(s, i).ReadCas? && s.word == PcOf(s, i).seen ==> s.word + 1 < WRITER_BIT)
  {
    InvRun(ls);
    var s := Run(ls);
    WordSplit(s.word, |Readers(s)|, |Writers(s)|);
    if i in s.pcs { assert PcInv(|Readers(s)|, s.pcs[i]); }
  }

  lemma WordSplit(word: nat, readers: nat, writers: nat)
    requires readers <= MAX_READERS && writers <= 1 && word == readers + writers * WRITER_BIT
    ensures word < 0x1_0000_0000 && ReaderCount(word) == readers && (HasWriterBit(word) <==> writers == 1)
  {
  }

  lemma NoAdmissionStep(s: State, l: Label)
    requires Inv(s) && Writers(s) != {}
    ensures Readers(Apply(s, l)) <= Readers(s)
  {
    var s', i := Apply(s, l), l.id;
    if i in s.pcs { assert PcInv(|Readers(s)|, s.pcs[i]); }
    assert |Writers(s)| == 1;
    forall j | j in Readers(s') ensures j in Readers(s) {
      assert j != i ==> PcOf(s', j) == PcOf(s, j);
    }
  }

  lemma RunSnoc(ls: seq<Label>, l: Label)
    ensures Run(ls + [l]) == Apply(Run(ls), l)
  {
    assert (ls + [l])[..|ls|] == ls;
  }

  /** As long as a writer owns the bit, waiting or holding, no reader is admitted. */
  lemma {:induction false} NoAdmission(ls: seq<Label>, ms: seq<Label>)
    requires forall k | 0 <= k <= |ms| :: Writers(Run(ls + ms[..k])) != {}
    ensures Readers(Run(ls + ms)) <= Readers(Run(ls))
  {
    if ms == [] {
      assert ls + ms == ls;
    } else {
      var n := |ms| - 1;
      var most := ms[..n];
      assert forall k | 0 <= k <= n :: most[..k] == ms[..k];
      NoAdmission(ls, most);
      InvRun(ls + most);
      assert Writers(Run(ls + ms[..n])) != {};
      NoAdmissionStep(Run(ls + most), ms[n]);
      RunSnoc(ls + most, ms[n]);
      assert ls + ms == ls + most + [ms[n]];
    }
  }

  /** A waiting writer enters exactly when the last reader has left, a try_write exactly when nobody holds or waits to write. */
  lemma WriterEntersExactly(ls: seq<Label>, i: nat, spurious: bool)
    ensures
      var s := Run(ls); var pc := PcOf(s, i);
      && (pc.Draining? ==> (PcOf(Run(ls + [Step(i, spurious)]), i).Writing? <==> Readers(s) == {}))
      && (pc.Idle? ==> (PcOf(Run(ls + [TryWrite(i)]), i).Writing? <==> Readers(s) == {} && Writers(s) == {}))
  {
    InvRun(ls);
    RunSnoc(ls, Step(i, spurious));
    RunSnoc(ls, TryWrite(i));
    var s := Run(ls);
    if PcOf(s, i).Draining? { assert i in Writers(s); }
  }

  /** Dropping the write guard leaves the lock free. */
  lemma WriteDropFrees(ls: seq<Label>, i: nat)
    requires PcOf(Run(ls), i).Writing?
    ensures var s := Run(ls + [Drop(i)]); s.word == 0 && Readers(s) == {} && Writers(s) == {}
  {
    InvRun(ls);
    WritingAlone(Run(ls), i);
    RunSnoc(ls, Drop(i));
    ReadersAfter(Run(ls), i, Idle, 0);
    WritersAfter(Run(ls), i, Idle, 0);
  }

  // ---------------------------------------------------------------- whole calls

  lemma RunThree(ls: seq<Label>, a: Label, b: Label, c: Label)
    ensures Run(ls + [a] + [b] + [c]) == Apply(Apply(Apply(Run(ls), a), b), c)
  {
    RunSnoc(ls, a);
    RunSnoc(ls + [a], b);
    RunSnoc(ls + [a] + [b], c);
  }

  /** Readers can be admitted. */
  ghost predicate Open(s: State) { Writers(s) == {} && |Readers(s)| < 0x7FFF_FFFF }

  lemma OpenWord(s: State)
    requires Inv(s)
    ensures HasWriterBit(s.word) <==> Writers(s) != {}
    ensures Writers(s) == {} ==> ReaderCount(s.word) == s.word == |Readers(s)|
  {
  }

  /** Where an undisturbed read or try_read ends. */
  ghost function ReadGoal(s: State, blocking: bool): Pc {
    if Open(s) then Reading
    else if !blocking then Idle
    else if Writers(s) != {} then ReadLoad(true)
    else Panicked
  }

  /** Agent i got there, and who then holds the lock. */
  ghost predicate ReadEnds(s: State, i: nat, blocking: bool, s': State) {
    && PcOf(s', i) == ReadGoal(s, blocking)
    && Readers(s') == (if Open(s) then Readers(s) + {i} else Readers(s))
    && Writers(s') == Writers(s) && s'.word == s.word + if Open(s) then 1 else 0
  }

  lemma ReadLoads(s: State, i: nat, blocking: bool)
    requires Inv(s)
    ensures
      Next(Set(s, i, ReadLoad(blocking)), i, false) ==
        Set(s, i, if Open(s) then ReadCas(blocking, s.word) else ReadGoal(s, blocking))
  {
    OpenWord(s);
  }

  lemma ReadExchanges(s: State, i: nat, blocking: bool)
    requires Inv(s)
    ensures
      var s1 := Set(s, i, if Open(s) then ReadCas(blocking, s.word) else ReadGoal(s, blocking));
      Next(s1, i, false) == Set(s, i, ReadGoal(s, blocking)).(word := s.word + if Open(s) then 1 else 0)
  {
    OpenWord(s);
  }

  lemma ReadCounted(s: State, i: nat, blocking: bool)
    requires PcOf(s, i).Idle?
    ensures ReadEnds(s, i, blocking, Set(s, i, ReadGoal(s, blocking)).(word := s.word + if Open(s) then 1 else 0))
  {
    var w := s.word + if Open(s) then 1 else 0;
    ReadersAfter(s, i, ReadGoal(s, blocking), w);
    WritersAfter(s, i, ReadGoal(s, blocking), w);
    assert i !in Readers(s) && i !in Writers(s);
  }

  lemma ReadTwoSteps(s: State, i: nat, blocking: bool)
    requires Inv(s) && PcOf(s, i).Idle?
    ensures ReadEnds(s, i, blocking, Next(Next(Set(s, i, ReadLoad(blocking)), i, false), i, false))
  {
    ReadLoads(s, i, blocking);
    ReadExchanges(s, i, blocking);
    ReadCounted(s, i, blocking);
  }

  /** After any run, an undisturbed reader is admitted if and only if no writer owns the bit and the count is not full. */
  lemma ReadAdmitted(ls: seq<Label>, i: nat, blocking: bool)
    requires PcOf(Run(ls), i).Idle?
    ensures
      var call := if blocking then Read(i) else TryRead(i);
      ReadEnds(Run(ls), i, blocking, Run(ls + [call] + [Step(i, false)] + [Step(i, false)]))
  {
    InvRun(ls);
    RunThree(ls, if blocking then Read(i) else TryRead(i), Step(i, false), Step(i, false));
    ReadTwoSteps(Run(ls), i, blocking);
  }

  /** Where an undisturbed write by agent i ends after its two steps for the bit. */
  ghost predicate WriteEnds(s: State, i: nat, s': State) {
    && PcOf(s', i) == (if Writers(s) == {} then Draining else WriteLoad)
    && Writers(s') == (if Writers(s) == {} then {i} else Writers(s))
    && Readers(s') == Readers(s)
  }

  lemma WriteLands(s: State, i: nat)
    requires Inv(s)
    ensures
      Next(Next(Set(s, i, WriteLoad), i, false), i, false) ==
        if Writers(s) == {} then Set(s, i, Draining).(word := s.word + WRITER_BIT) else Set(s, i, WriteLoad)
  {
    OpenWord(s);
  }

  lemma WriteCounted(s: State, i: nat, w: nat)
    requires PcOf(s, i).Idle?
    ensures WriteEnds(s, i, Set(s, i, if Writers(s) == {} then Draining else WriteLoad).(word := w))
  {
    Counted(s, i, if Writers(s) == {} then Draining else WriteLoad, w);
  }

  /** An idle agent that moves on without becoming a reader. */
  lemma Counted(s: State, i: nat, pc: Pc, w: nat)
    requires PcOf(s, i).Idle? && !pc.Reading?
    ensures
      var s' := Set(s, i, pc).(word := w);
      Readers(s') == Readers(s) && Writers(s') == if OwnsBit(pc) then Writers(s) + {i} else Writers(s)
  {
    ReadersAfter(s, i, pc, w);
    WritersAfter(s, i, pc, w);
    assert i !in Readers(s) && i !in Writers(s);
  }

  lemma WriteTwoSteps(s: State, i: nat)
    requires Inv(s) && PcOf(s, i).Idle?
    ensures WriteEnds(s, i, Next(Next(Set(s, i, WriteLoad), i, false), i, false))
  {
    WriteLands(s, i);
    WriteCounted(s, i, if Writers(s) == {} then s.word + WRITER_BIT else s.word);
  }

  /** After any run, an undisturbed writer gets the bit if and only if no other writer owns it. */
  lemma WriteTakesBit(ls: seq<Label>, i: nat)
    requires PcOf(Run(ls), i).Idle?
    ensures WriteEnds(Run(ls), i, Run(ls + [Write(i)] + [Step(i, false)] + [Step(i, false)]))
  {
    InvRun(ls);
    RunThree(ls, Write(i), Step(i, false), Step(i, false));
    WriteTwoSteps(Run(ls), i);
  }

  /** Dropping a read guard removes that reader and nothing else. */
  lemma ReadDropLeaves(ls: seq<Label>, i: nat)
    requires PcOf(Run(ls), i).Reading?
    ensures
      var s, s' := Run(ls), Run(ls + [Drop(i)]);
      PcOf(s', i).Idle? && Readers(s') == Readers(s) - {i} && Writers(s') == Writers(s)
      && forall j :: j != i ==> PcOf(s', j) == PcOf(s, j)
  {
    InvRun(ls);
    RunSnoc(ls, Drop(i));
    var s, s' := Run(ls), Run(ls + [Drop(i)]);
    ReadersAfter(s, i, Idle, s'.word);
    WritersAfter(s, i, Idle, s'.word);
    assert i !in Writers(s);
  }

  function Drops(ids: seq<nat>): seq<Label> { if ids == [] then [] else [Drop(ids[0])] + Drops(ids[1..]) }

  /** The readers of a state, each once, in some order. */
  ghost predicate Lists(ids: seq<nat>, readers: set<nat>) {
    (forall j :: j in ids <==> j in readers) && forall a, b :: 0 <= a < b < |ids| ==> ids[a] != ids[b]
  }

  lemma ListsRest(ids: seq<nat>, readers: set<nat>)
    requires ids != [] && Lists(ids, readers)
    ensures ids[0] in readers && Lists(ids[1..], readers - {ids[0]})
  {
    assert ids == [ids[0]] + ids[1..];
    assert forall j :: j in ids <==> j == ids[0] || j in ids[1..];
  }

  lemma DropsFirst(ls: seq<Label>, ids: seq<nat>)
    requires ids != []
    ensures ls + Drops(ids) == ls + [Drop(ids[0])] + Drops(ids[1..])
  {
  }

  /** The first of the listed readers drops its guard; the others and the waiting writer stay. */
  lemma DrainOne(ls: seq<Label>, i: nat, ids: seq<nat>)
    requires PcOf(Run(ls), i).Draining? && Lists(ids, Readers(Run(ls))) && ids != []
    ensures var s' := Run(ls + [Drop(ids[0])]); PcOf(s', i).Draining? && Lists(ids[1..], Readers(s'))
  {
    ListsRest(ids, Readers(Run(ls)));
    ReadDropLeaves(ls, ids[0]);
  }

  /** A writer that owns the bit enters as soon as the readers have dropped their guards, in whatever order. */
  lemma {:induction false} DrainCompletes(ls: seq<Label>, i: nat, ids: seq<nat>)
    requires PcOf(Run(ls), i).Draining? && Lists(ids, Readers(Run(ls)))
    ensures PcOf(Run(ls + Drops(ids) + [Step(i, false)]), i).Writing?
    decreases |ids|
  {
    if ids == [] {
      assert ls + Drops(ids) == ls;
      WriterEntersExactly(ls, i, false);
    } else {
      DrainOne(ls, i, ids);
      DrainCompletes(ls + [Drop(ids[0])], i, ids[1..]);
      DropsFirst(ls, ids);
    }
  }

  /** The state before label k of a run. */
  function At(ls: seq<Label>, k: nat): State
    requires k <= |ls|
  {
    Run(ls[..k])
  }

  lemma NextAt(ls: seq<Label>, k: nat)
    requires k < |ls|
    ensures At(ls, k + 1) == Apply(At(ls, k), ls[k]) && Inv(At(ls, k))
  {
    assert ls[..k + 1][..k] == ls[..k];
    InvRun(ls[..k]);
  }

  /** Agent i is inside a try_read that label j started. */
  ghost predicate Trying(ls: seq<Label>, i: nat, j: nat, k: nat) {
    && j < k <= |ls| && ls[j] == TryRead(i) && PcOf(At(ls, j), i).Idle?
    && forall q :: j < q < k ==> PcOf(At(ls, q), i).ReadLoad? || PcOf(At(ls, q), i).ReadCas?
  }

  /** A reason for a try_read to fail: shut when it looked, changed since, or a spurious failure of its exchange. */
  ghost predicate Refused(ls: seq<Label>, i: nat, j: nat, k: nat)
    requires j < k <= |ls|
  {
    || (exists q :: j < q < k && !Open(At(ls, q)))
    || (exists q :: j < q < k && At(ls, q).word != At(ls, k - 1).word)
    || ls[k - 1] == Step(i, true)
  }

  /** A try_read in progress has seen, at some point, the word it compares with. */
  ghost predicate Saw(ls: seq<Label>, i: nat, j: nat, k: nat)
    requires j < k <= |ls|
  {
    match PcOf(At(ls, k), i)
    case ReadLoad(blocking) => !blocking
    case ReadCas(blocking, seen) => !blocking && exists q :: j < q < k && At(ls, q).word == seen
    case Reading => ls[k - 1].Step? && Open(At(ls, k - 1)) && j < k - 1
    case Idle => j < k - 1 && Refused(ls, i, j, k)
    case _ => false
  }

  lemma SawLoad(ls: seq<Label>, i: nat, j: nat, k: nat)
    requires j < k < |ls| && Saw(ls, i, j, k) && PcOf(At(ls, k), i).ReadLoad?
    ensures Saw(ls, i, j, k + 1)
  {
    NextAt(ls, k);
    OpenWord(At(ls, k));
  }

  /** A step of anybody while agent i is about to exchange the word. */
  lemma CasStep(s: State, l: Label, i: nat)
    requires Inv(s) && PcOf(s, i).ReadCas? && !PcOf(s, i).blocking
    ensures
      var pc, pc' := PcOf(s, i), PcOf(Apply(s, l), i);
      || pc' == pc
      || (pc'.Reading? && l.Step? && Open(s))
      || (pc'.Idle? && (l == Step(i, true) || s.word != pc.seen))
  {
    OpenWord(s);
    assert PcInv(|Readers(s)|, s.pcs[i]);
  }

  lemma SawCas(ls: seq<Label>, i: nat, j: nat, k: nat)
    requires j < k < |ls| && Saw(ls, i, j, k) && PcOf(At(ls, k), i).ReadCas?
    ensures Saw(ls, i, j, k + 1)
  {
    NextAt(ls, k);
    CasStep(At(ls, k), ls[k], i);
    var q :| j < q < k && At(ls, q).word == PcOf(At(ls, k), i).seen;
    assert j < q < k + 1;
  }

  lemma {:induction false} SawAt(ls: seq<Label>, i: nat, j: nat, k: nat)
    requires Trying(ls, i, j, k)
    ensures Saw(ls, i, j, k)
  {
    if k == j + 1 {
      NextAt(ls, j);
    } else {
      SawAt(ls, i, j, k - 1);
      if PcOf(At(ls, k - 1), i).ReadLoad? { SawLoad(ls, i, j, k - 1); } else { SawCas(ls, i, j, k - 1); }
    }
  }

  /**
    In every interleaving a try_read that is over was admitted while no writer owned the bit, or
    failed for a reason.
  */
  lemma TryReadCall(ls: seq<Label>, i: nat, j: nat, k: nat)
    requires Trying(ls, i, j, k) && !PcOf(At(ls, k), i).ReadLoad? && !PcOf(At(ls, k), i).ReadCas?
    ensures
      var pc := PcOf(At(ls, k), i);
      (pc.Reading? && Open(At(ls, k - 1))) || (pc.Idle? && Refused(ls, i, j, k))
  {
    SawAt(ls, i, j, k);
  }
}
