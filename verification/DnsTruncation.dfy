/**
  DNS responses that arrive cut short: at which cuts the parser still answers, and with what.
*/
module DnsTruncation {
  import opened Wrappers
  import opened Dns
  import opened DnsResponse

  /** q is the beginning of p. */
  ghost predicate Cut(p: Bytes, q: Bytes) { exists rest :: p == q + rest }

  /** A prefix of a packet holds what stands before its end. */
  lemma CutAt(p: Bytes, q: Bytes, i: nat, b: Bytes)
    requires Cut(p, q) && At(p, i, b) && i + |b| <= |q|
    ensures At(q, i, b)
  {
    assert q[i..i + |b|] == p[i..i + |b|];
  }

  // ---------------------------------------------------------------- names, questions, records

  /** Skipping a name that is cut off fails, or would end beyond the packet. */
  predicate SkipFails(q: Bytes, pos: nat) {
    match Skip(q, pos)
    case Ok(after) => after > |q|
    case Err(e) => e == "Name extends past packet" || e == "Label extends past packet"
  }

  lemma SkipEndCut(p: Bytes, q: Bytes, pos: nat, end: Bytes)
    requires Cut(p, q) && At(p, pos, end) && pos <= |q| < pos + |end|
    requires end == [0] || (|end| == 2 && end[0] >= 0xC0)
    ensures SkipFails(q, pos)
  {
    assert end == [end[0]] + end[1..];
    AtByte(p, pos, end[0], end[1..]);
  }

  lemma SkipLabelCut(p: Bytes, q: Bytes, pos: nat, l: Bytes, rest: Bytes)
    requires Cut(p, q) && Label(l) && At(p, pos, [LengthByte(l)] + (l + rest)) && pos <= |q|
    ensures At(p, pos + 1 + |l|, rest)
    ensures if |q| < pos + 1 + |l| then SkipFails(q, pos) else Skip(q, pos) == Skip(q, pos + 1 + |l|)
  {
    AtByte(p, pos, LengthByte(l), l + rest);
    AtSplit(p, pos + 1, l, rest);
  }

  lemma {:induction false} SkipCut(p: Bytes, q: Bytes, pos: nat, n: Name)
    requires Cut(p, q) && GoodName(n) && At(p, pos, NameBytes(n)) && pos <= |q| < pos + |NameBytes(n)|
    ensures SkipFails(q, pos)
    decreases |n.labels|
  {
    if n.labels == [] {
      assert NameBytes(n) == NameEnd(n);
      SkipEndCut(p, q, pos, NameEnd(n));
    } else {
      var l, m := n.labels[0], n.(labels := n.labels[1..]);
      FirstLabel(n);
      SkipLabelCut(p, q, pos, l, NameBytes(m));
      if pos + 1 + |l| <= |q| {
        SkipCut(p, q, pos + 1 + |l|, m);
      }
    }
  }

  /** A question that is cut off is an error: in its name, or in the four bytes after it. */
  lemma QuestionCut(p: Bytes, q: Bytes, pos: nat, x: Question, n: nat)
    requires Cut(p, q) && GoodQuestion(x) && At(p, pos, QuestionBytes(x)) && pos <= |q| < pos + |QuestionBytes(x)| && n > 0
    ensures Questions(q, pos, n).Err?
    ensures pos + |NameBytes(x.name)| <= |q| ==> Questions(q, pos, n) == Err("Truncated question")
  {
    AtSplit(p, pos, NameBytes(x.name), BE16(x.qtype) + BE16(x.qclass));
    if |q| < pos + |NameBytes(x.name)| {
      SkipCut(p, q, pos, x.name);
    } else {
      CutAt(p, q, pos, NameBytes(x.name));
      SkipWire(q, pos, x.name);
    }
  }

  /** What a record cut off at the end of q is: an error that tells where it was cut. */
  ghost predicate RecordFails(q: Bytes, pos: nat, r: Record)
    requires GoodRecord(r)
  {
    var name := pos + |NameBytes(r.name)|;
    && RecordAt(q, pos).Err?
    && (name <= |q| < name + 10 ==> RecordAt(q, pos) == Err("Truncated answer"))
    && (name + 10 <= |q| ==> RecordAt(q, pos) == Err("Truncated RDATA"))
  }

  lemma RecordCut(p: Bytes, q: Bytes, pos: nat, r: Record)
    requires Cut(p, q) && GoodRecord(r) && At(p, pos, RecordBytes(r)) && pos <= |q| < pos + |RecordBytes(r)|
    ensures RecordFails(q, pos, r)
  {
    var name := pos + |NameBytes(r.name)|;
    AtSplit(p, pos, NameBytes(r.name), RecordHead(r) + r.rdata);
    AtSplit(p, name, RecordHead(r), r.rdata);
    if |q| < name {
      SkipCut(p, q, pos, r.name);
    } else {
      CutAt(p, q, pos, NameBytes(r.name));
      SkipWire(q, pos, r.name);
      if name + 10 <= |q| {
        CutAt(p, q, name, RecordHead(r));
        HeadRead(q, name, r);
      }
    }
  }

  // ---------------------------------------------------------------- sections

  lemma {:induction false} OffsetGrows(bs: seq<Bytes>, pos: nat, j: nat, k: nat)
    requires j <= k <= |bs|
    ensures Offset(bs, pos, j) <= Offset(bs, pos, k)
    decreases k
  {
    if j < k {
      OffsetGrows(bs, pos, j, k - 1);
    }
  }

  /** Byte string i of a section that lies before the cut. */
  lemma PartKept(p: Bytes, q: Bytes, pos: nat, bs: seq<Bytes>, i: nat, k: nat)
    requires Cut(p, q) && At(p, pos, Concat(bs, 0)) && i < k <= |bs| && Offset(bs, pos, k) <= |q|
    ensures At(q, Offset(bs, pos, i), bs[i])
  {
    ConcatAt(p, pos, bs, i);
    OffsetGrows(bs, pos, i + 1, k);
    CutAt(p, q, Offset(bs, pos, i), bs[i]);
  }

  predicate SkipsAtStep(q: Bytes, offs: seq<nat>, i: nat)
    requires i + 1 < |offs|
  {
    SkipsTo(q, offs[i], offs[i + 1])
  }

  lemma {:induction false} QuestionsUpTo(q: Bytes, offs: seq<nat>, n: nat, k: nat, j: nat)
    requires j <= k < |offs| && k <= n && forall i :: 0 <= i < k ==> SkipsAtStep(q, offs, i)
    ensures Questions(q, offs[j], n - j) == Questions(q, offs[k], n - k)
    decreases k - j
  {
    if j < k {
      assert SkipsAtStep(q, offs, j);
      QuestionsUpTo(q, offs, n, k, j + 1);
    }
  }

  /** The addresses of records j to k. */
  function Between(rs: seq<Record>, j: nat, k: nat): seq<Bytes>
    requires j <= k <= |rs|
    decreases k - j
  {
    if j == k then [] else AddressOf(rs[j]) + Between(rs, j + 1, k)
  }

  lemma {:induction false} BetweenIs(rs: seq<Record>, j: nat, k: nat)
    requires j <= k <= |rs|
    ensures Between(rs, j, k) == Addresses(rs[..k], j)
    decreases k - j
  {
    if j < k {
      BetweenIs(rs, j + 1, k);
      assert rs[..k][j] == rs[j];
    }
  }

  /** What n records from pos on give: the addresses if the packet is whole as far as it goes, else an error. */
  predicate EndsWith(q: Bytes, pos: nat, n: nat, addresses: seq<Bytes>, whole: bool) {
    if whole then Answers(q, pos, n) == Ok(addresses) else Answers(q, pos, n).Err?
  }

  lemma EndsStep(q: Bytes, pos: nat, n: nat, a: seq<Bytes>, next: nat, rest: seq<Bytes>, whole: bool)
    requires n > 0 && Yields(q, pos, a, next) && EndsWith(q, next, n - 1, rest, whole)
    ensures EndsWith(q, pos, n, a + rest, whole)
  {
  }

  /** Records 0 to k of a packet, by the positions between them. */
  ghost predicate AllYield(q: Bytes, offs: seq<nat>, rs: seq<Record>, k: nat) {
    k <= |rs| < |offs| && forall i :: 0 <= i < k ==> YieldsAtStep(q, offs, rs, i)
  }

  predicate YieldsAtStep(q: Bytes, offs: seq<nat>, rs: seq<Record>, i: nat)
    requires i < |rs| < |offs|
  {
    Yields(q, offs[i], AddressOf(rs[i]), offs[i + 1])
  }

  lemma {:induction false} EndsChain(q: Bytes, offs: seq<nat>, rs: seq<Record>, n: nat, k: nat, j: nat, whole: bool)
    requires AllYield(q, offs, rs, k) && j <= k <= n && EndsWith(q, offs[k], n - k, [], whole)
    ensures EndsWith(q, offs[j], n - j, Between(rs, j, k), whole)
    decreases k - j
  {
    if j < k {
      EndsChain(q, offs, rs, n, k, j + 1, whole);
      assert YieldsAtStep(q, offs, rs, j);
      EndsStep(q, offs[j], n - j, AddressOf(rs[j]), offs[j + 1], Between(rs, j + 1, k), whole);
    }
  }

  /** The cut lies in part k of a section of byte strings that starts at pos. */
  predicate CutIn(q: Bytes, bs: seq<Bytes>, pos: nat, k: nat) {
    k < |bs| && Offset(bs, pos, k) <= |q| < Offset(bs, pos, k + 1)
  }

  lemma QuestionKept(p: Bytes, q: Bytes, pos: nat, bs: seq<Bytes>, i: nat, k: nat, x: Question)
    requires Cut(p, q) && At(p, pos, Concat(bs, 0)) && i < k <= |bs| && Offset(bs, pos, k) <= |q|
    requires GoodQuestion(x) && bs[i] == QuestionBytes(x)
    ensures SkipsTo(q, Offset(bs, pos, i), Offset(bs, pos, i + 1))
  {
    PartKept(p, q, pos, bs, i, k);
    SkipsAt(q, Offset(bs, pos, i), bs[i], x);
  }

  lemma RecordKept(p: Bytes, q: Bytes, pos: nat, bs: seq<Bytes>, i: nat, k: nat, r: Record)
    requires Cut(p, q) && At(p, pos, Concat(bs, 0)) && i < k <= |bs| && Offset(bs, pos, k) <= |q|
    requires GoodRecord(r) && bs[i] == RecordBytes(r)
    ensures Yields(q, Offset(bs, pos, i), AddressOf(r), Offset(bs, pos, i + 1))
  {
    PartKept(p, q, pos, bs, i, k);
    YieldsAt(q, Offset(bs, pos, i), bs[i], r);
  }

  lemma LastQuestionCut(p: Bytes, q: Bytes, pos: nat, bs: seq<Bytes>, k: nat, x: Question, n: nat)
    requires Cut(p, q) && At(p, pos, Concat(bs, 0)) && CutIn(q, bs, pos, k) && n > 0
    requires GoodQuestion(x) && bs[k] == QuestionBytes(x)
    ensures Questions(q, Offset(bs, pos, k), n).Err?
  {
    ConcatAt(p, pos, bs, k);
    QuestionCut(p, q, Offset(bs, pos, k), x, n);
  }

  lemma LastRecordCut(p: Bytes, q: Bytes, pos: nat, bs: seq<Bytes>, k: nat, r: Record, n: nat)
    requires Cut(p, q) && At(p, pos, Concat(bs, 0)) && CutIn(q, bs, pos, k) && n > 0
    requires GoodRecord(r) && bs[k] == RecordBytes(r)
    ensures EndsWith(q, Offset(bs, pos, k), n, [], |q| == Offset(bs, pos, k))
  {
    if |q| != Offset(bs, pos, k) {
      ConcatAt(p, pos, bs, k);
      RecordCut(p, q, Offset(bs, pos, k), r);
    }
  }

  ghost predicate AllSkip(q: Bytes, offs: seq<nat>, k: nat) {
    k < |offs| && forall i :: 0 <= i < k ==> SkipsAtStep(q, offs, i)
  }

  lemma QuestionsBefore(p: Bytes, q: Bytes, pos: nat, xs: seq<Question>, k: nat)
    requires forall i :: 0 <= i < |xs| ==> GoodQuestion(xs[i])
    requires Cut(p, q) && At(p, pos, Concat(QuestionSeq(xs), 0)) && CutIn(q, QuestionSeq(xs), pos, k)
    ensures AllSkip(q, Offsets(QuestionSeq(xs), pos), k)
  {
    var offs := Offsets(QuestionSeq(xs), pos);
    forall i | 0 <= i < k ensures SkipsAtStep(q, offs, i) {
      QuestionKept(p, q, pos, QuestionSeq(xs), i, k, xs[i]);
    }
  }

  lemma QuestionsEnd(q: Bytes, offs: seq<nat>, n: nat, k: nat)
    requires AllSkip(q, offs, k) && k <= n && Questions(q, offs[k], n - k).Err?
    ensures Questions(q, offs[0], n).Err?
  {
    QuestionsUpTo(q, offs, n, k, 0);
  }

  lemma QuestionsCut(p: Bytes, q: Bytes, pos: nat, xs: seq<Question>, k: nat)
    requires forall i :: 0 <= i < |xs| ==> GoodQuestion(xs[i])
    requires Cut(p, q) && At(p, pos, Concat(QuestionSeq(xs), 0)) && CutIn(q, QuestionSeq(xs), pos, k)
    ensures Questions(q, pos, |xs|).Err?
  {
    QuestionsBefore(p, q, pos, xs, k);
    LastQuestionCut(p, q, pos, QuestionSeq(xs), k, xs[k], |xs| - k);
    QuestionsEnd(q, Offsets(QuestionSeq(xs), pos), |xs|, k);
  }

  /** The records before the cut are read as in the whole packet. */
  lemma AnswersBefore(p: Bytes, q: Bytes, pos: nat, rs: seq<Record>, k: nat)
    requires forall i :: 0 <= i < |rs| ==> GoodRecord(rs[i])
    requires Cut(p, q) && At(p, pos, Concat(RecordSeq(rs), 0)) && CutIn(q, RecordSeq(rs), pos, k)
    ensures AllYield(q, Offsets(RecordSeq(rs), pos), rs, k)
  {
    var offs := Offsets(RecordSeq(rs), pos);
    forall i | 0 <= i < k ensures YieldsAtStep(q, offs, rs, i) {
      RecordKept(p, q, pos, RecordSeq(rs), i, k, rs[i]);
    }
  }

  /** The record that is cut ends the answers or makes them fail. */
  lemma AnswersStop(p: Bytes, q: Bytes, pos: nat, rs: seq<Record>, k: nat)
    requires forall i :: 0 <= i < |rs| ==> GoodRecord(rs[i])
    requires Cut(p, q) && At(p, pos, Concat(RecordSeq(rs), 0)) && CutIn(q, RecordSeq(rs), pos, k)
    ensures
      var end := Offset(RecordSeq(rs), pos, k);
      EndsWith(q, end, |rs| - k, [], |q| == end)
  {
    LastRecordCut(p, q, pos, RecordSeq(rs), k, rs[k], |rs| - k);
  }

  // ---------------------------------------------------------------- whole responses

  /** A response without error that announces answers. */
  predicate Answering(m: Message) { Good(m) && m.flags >= 0x8000 && m.flags % 0x10 == 0 && m.answers != [] }

  lemma HeaderKept(m: Message, q: Bytes)
    requires Good(m) && Cut(MessageBytes(m), q) && |q| >= 12
    ensures U16(q, 0) == m.txid && U16(q, 2) == m.flags && U16(q, 4) == |m.questions| && U16(q, 6) == |m.answers|
  {
    var p := MessageBytes(m);
    PartsAt(p, Header(m), Concat(QuestionSeq(m.questions), 0), Concat(RecordSeq(m.answers), 0), m.rest);
    CutAt(p, q, 0, Header(m));
    HeaderRead(q, m);
  }

  /** A response cut short within its header or its questions is an error. */
  lemma CutInQuestions(m: Message, q: Bytes, k: nat)
    requires Answering(m) && Cut(MessageBytes(m), q)
    requires |q| < 12 || CutIn(q, QuestionSeq(m.questions), 12, k)
    ensures Parse(q, m.txid).Error?
    ensures |q| < 12 ==> Parse(q, m.txid) == Error("Packet too short")
  {
    if |q| >= 12 {
      var p, qs := MessageBytes(m), QuestionSeq(m.questions);
      HeaderKept(m, q);
      PartsAt(p, Header(m), Concat(qs, 0), Concat(RecordSeq(m.answers), 0), m.rest);
      QuestionsCut(p, q, 12, m.questions, k);
    }
  }

  /** Where the answers begin. */
  function AnswersStart(m: Message): nat
    requires Good(m)
  {
    12 + |Concat(QuestionSeq(m.questions), 0)|
  }

  lemma QuestionsFill(q: Bytes, xs: seq<Question>)
    requires forall i :: 0 <= i < |xs| ==> GoodQuestion(xs[i])
    requires At(q, 12, Concat(QuestionSeq(xs), 0))
    ensures Questions(q, 12, |xs|) == Ok(12 + |Concat(QuestionSeq(xs), 0)|)
  {
    QuestionsRead(q, 12, xs);
    OffsetEnd(QuestionSeq(xs), 12, |xs|);
  }

  lemma QuestionsWhole(p: Bytes, q: Bytes, xs: seq<Question>)
    requires forall i :: 0 <= i < |xs| ==> GoodQuestion(xs[i])
    requires Cut(p, q) && At(p, 12, Concat(QuestionSeq(xs), 0)) && |q| >= 12 + |Concat(QuestionSeq(xs), 0)|
    ensures Questions(q, 12, |xs|) == Ok(12 + |Concat(QuestionSeq(xs), 0)|)
  {
    CutAt(p, q, 12, Concat(QuestionSeq(xs), 0));
    QuestionsFill(q, xs);
  }

  lemma QuestionsStand(m: Message)
    requires Good(m)
    ensures At(MessageBytes(m), 12, Concat(QuestionSeq(m.questions), 0))
  {
    PartsAt(MessageBytes(m), Header(m), Concat(QuestionSeq(m.questions), 0), Concat(RecordSeq(m.answers), 0), m.rest);
  }

  lemma QuestionsKept(m: Message, p: Bytes, q: Bytes)
    requires Good(m) && At(p, 12, Concat(QuestionSeq(m.questions), 0)) && Cut(p, q) && |q| >= AnswersStart(m)
    ensures Questions(q, 12, |m.questions|) == Ok(AnswersStart(m))
  {
    QuestionsWhole(p, q, m.questions);
  }

  /** The header of m is in order and its questions end at start. */
  predicate Prepared(q: Bytes, m: Message, start: nat) {
    && |q| >= 12 && U16(q, 0) == m.txid && U16(q, 2) == m.flags
    && U16(q, 4) == |m.questions| && U16(q, 6) == |m.answers| && Questions(q, 12, |m.questions|) == Ok(start)
  }

  lemma Prepares(m: Message, q: Bytes, k: nat)
    requires Good(m) && Cut(MessageBytes(m), q) && CutIn(q, RecordSeq(m.answers), AnswersStart(m), k)
    ensures Prepared(q, m, AnswersStart(m))
  {
    OffsetGrows(RecordSeq(m.answers), AnswersStart(m), 0, k);
    HeaderKept(m, q);
    QuestionsStand(m);
    QuestionsKept(m, MessageBytes(m), q);
  }

  /** All that decides the verdict on a packet whose first k records can be read and which ends there or fails. */
  ghost predicate Readable(q: Bytes, m: Message, offs: seq<nat>, k: nat) {
    && |offs| == |m.answers| + 1 && k <= |m.answers| && Prepared(q, m, offs[0])
    && AllYield(q, offs, m.answers, k) && EndsWith(q, offs[k], |m.answers| - k, [], |q| == offs[k])
  }

  lemma Concludes(q: Bytes, m: Message, offs: seq<nat>, k: nat)
    requires Answering(m) && Readable(q, m, offs, k)
    ensures
      if |q| == offs[k] then Parse(q, m.txid) == Verdict(Ok(Addresses(m.answers[..k], 0)))
      else Parse(q, m.txid).Error?
  {
    EndsChain(q, offs, m.answers, |m.answers|, k, 0, |q| == offs[k]);
    BetweenIs(m.answers, 0, k);
  }

  lemma AnswersStand(m: Message)
    requires Good(m)
    ensures At(MessageBytes(m), AnswersStart(m), Concat(RecordSeq(m.answers), 0))
  {
    PartsAt(MessageBytes(m), Header(m), Concat(QuestionSeq(m.questions), 0), Concat(RecordSeq(m.answers), 0), m.rest);
  }

  lemma RecordsRead(m: Message, q: Bytes, k: nat)
    requires Good(m) && Cut(MessageBytes(m), q) && CutIn(q, RecordSeq(m.answers), AnswersStart(m), k)
    ensures AllYield(q, Offsets(RecordSeq(m.answers), AnswersStart(m)), m.answers, k)
  {
    AnswersStand(m);
    AnswersBefore(MessageBytes(m), q, AnswersStart(m), m.answers, k);
  }

  lemma RecordsStop(m: Message, q: Bytes, k: nat)
    requires Good(m) && Cut(MessageBytes(m), q) && CutIn(q, RecordSeq(m.answers), AnswersStart(m), k)
    ensures
      var end := Offset(RecordSeq(m.answers), AnswersStart(m), k);
      EndsWith(q, end, |m.answers| - k, [], |q| == end)
  {
    AnswersStand(m);
    AnswersStop(MessageBytes(m), q, AnswersStart(m), m.answers, k);
  }

  lemma CutReadable(m: Message, q: Bytes, k: nat, offs: seq<nat>)
    requires Good(m) && Cut(MessageBytes(m), q) && CutIn(q, RecordSeq(m.answers), AnswersStart(m), k)
    requires offs == Offsets(RecordSeq(m.answers), AnswersStart(m))
    ensures Readable(q, m, offs, k)
  {
    Prepares(m, q, k);
    RecordsRead(m, q, k);
    RecordsStop(m, q, k);
  }

  /**
    A response cut short within its answers: an error if a record is cut in two, and otherwise
    exactly the addresses of the records that are left, as if no others had been announced.
  */
  lemma CutInAnswers(m: Message, q: Bytes, k: nat)
    requires Answering(m) && Cut(MessageBytes(m), q) && CutIn(q, RecordSeq(m.answers), AnswersStart(m), k)
    ensures
      if |q| == Offset(RecordSeq(m.answers), AnswersStart(m), k)
      then Parse(q, m.txid) == Verdict(Ok(Addresses(m.answers[..k], 0)))
      else Parse(q, m.txid).Error?
  {
    var offs := Offsets(RecordSeq(m.answers), AnswersStart(m));
    CutReadable(m, q, k, offs);
    Concludes(q, m, offs, k);
  }
}
