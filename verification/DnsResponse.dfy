/**
  Parsing of DNS responses (`kernel/src/dns.rs`): the parser as code, and its agreement with the
  message format of section 4.1 of RFC 1035.
*/
module DnsResponse {
  import opened Wrappers
  import opened Dns

  // ---------------------------------------------------------------- the parser

  /** The position after n questions. */
  function Questions(p: Bytes, pos: nat, n: nat): Result<nat>
    decreases n
  {
    if n == 0 then Ok(pos)
    else
      match Skip(p, pos)
      case Err(e) => Err(e)
      case Ok(after) => if after + 4 > |p| then Err("Truncated question") else Questions(p, after + 4, n - 1)
  }

  /** One resource record at pos whose name ends at `after`: its position after, and its address if it is A/IN. */
  function Answer(p: Bytes, after: nat): Result<(seq<Bytes>, nat)> {
    if after + 10 > |p| then Err("Truncated answer")
    else
      var length := U16(p, after + 8);
      var data := after + 10;
      if data + length > |p| then Err("Truncated RDATA")
      else
        var isA := U16(p, after) == 1 && U16(p, after + 2) == 1 && length == 4;
        Ok((if isA then [p[data..data + 4]] else [], data + length))
  }

  function RecordAt(p: Bytes, pos: nat): Result<(seq<Bytes>, nat)> {
    match Skip(p, pos)
    case Err(e) => Err(e)
    case Ok(after) => Answer(p, after)
  }

  function Prepend(a: seq<Bytes>, r: Result<seq<Bytes>>): Result<seq<Bytes>> {
    if r.Ok? then Ok(a + r.value) else r
  }

  /** The addresses of up to n records from pos on. */
  function Answers(p: Bytes, pos: nat, n: nat): Result<seq<Bytes>>
    decreases n
  {
    if n == 0 || pos >= |p| then Ok([])
    else
      match RecordAt(p, pos)
      case Err(e) => Err(e)
      case Ok((a, next)) => Prepend(a, Answers(p, next, n - 1))
  }

  function Verdict(r: Result<seq<Bytes>>): DnsResult {
    match r
    case Err(e) => Error(e)
    case Ok(addresses) => if addresses == [] then NotFound else Resolved(addresses)
  }

  function Parse(p: Bytes, txid: nat): DnsResult {
    if |p| < 12 then Error("Packet too short")
    else if U16(p, 0) != txid then WrongId
    else if U16(p, 2) < 0x8000 then Error("Not a response")
    else if U16(p, 2) % 0x10 == 3 then NotFound
    else if U16(p, 2) % 0x10 != 0 then Error("DNS server error")
    else if U16(p, 6) == 0 then NotFound
    else
      match Questions(p, 12, U16(p, 4))
      case Err(e) => Error(e)
      case Ok(pos) => Verdict(Answers(p, pos, U16(p, 6)))
  }

  method SkipQuestions(p: Bytes, start: nat, n: nat) returns (r: Result<nat>)
    ensures r == Questions(p, start, n)
  {
    var pos: nat := start;
    for i := 0 to n
      invariant Questions(p, pos, n - i) == Questions(p, start, n)
    {
      var s := SkipName(p, pos);
      if s.Err? {
        return Err(s.error);
      }
      pos := s.value + 4;
      if pos > |p| {
        return Err("Truncated question");
      }
    }
    r := Ok(pos);
  }

  method ReadAnswer(p: Bytes, after: nat) returns (r: Result<(seq<Bytes>, nat)>)
    ensures r == Answer(p, after)
  {
    if after + 10 > |p| {
      return Err("Truncated answer");
    }
    var rtype, rclass, length := U16(p, after), U16(p, after + 2), U16(p, after + 8);
    var data := after + 10;
    if data + length > |p| {
      return Err("Truncated RDATA");
    }
    var addresses: seq<Bytes> := [];
    if rtype == 1 && rclass == 1 && length == 4 {
      assert p[data..data + 4] == [p[data], p[data + 1], p[data + 2], p[data + 3]];
      addresses := [[p[data], p[data + 1], p[data + 2], p[data + 3]]];
    }
    r := Ok((addresses, data + length));
  }

  method ReadRecord(p: Bytes, pos: nat) returns (r: Result<(seq<Bytes>, nat)>)
    ensures r == RecordAt(p, pos)
  {
    var s := SkipName(p, pos);
    if s.Err? {
      return Err(s.error);
    }
    r := ReadAnswer(p, s.value);
  }

  lemma CollectNext(p: Bytes, pos: nat, n: nat, addresses: seq<Bytes>)
    requires n > 0 && pos < |p| && RecordAt(p, pos).Ok?
    ensures
      var (a, next) := RecordAt(p, pos).value;
      Prepend(addresses, Answers(p, pos, n)) == Prepend(addresses + a, Answers(p, next, n - 1))
  {
    var (a, next) := RecordAt(p, pos).value;
    PrependTwice(addresses, a, Answers(p, next, n - 1));
  }

  method ReadAnswers(p: Bytes, start: nat, n: nat) returns (r: Result<seq<Bytes>>)
    ensures r == Answers(p, start, n)
  {
    var pos: nat, addresses: seq<Bytes> := start, [];
    var i := 0;
    PrependNothing(Answers(p, start, n));
    while i < n && pos < |p|
      invariant i <= n && Prepend(addresses, Answers(p, pos, n - i)) == Answers(p, start, n)
    {
      var a := ReadRecord(p, pos);
      if a.Err? {
        return Err(a.error);
      }
      CollectNext(p, pos, n - i, addresses);
      addresses := addresses + a.value.0;
      pos := a.value.1;
      i := i + 1;
    }
    r := Ok(addresses);
    assert addresses + [] == addresses;
  }

  lemma PrependNothing(r: Result<seq<Bytes>>)
    ensures Prepend([], r) == r
  {
    if r.Ok? {
      assert [] + r.value == r.value;
    }
  }

  lemma PrependTwice(a: seq<Bytes>, b: seq<Bytes>, r: Result<seq<Bytes>>)
    ensures Prepend(a, Prepend(b, r)) == Prepend(a + b, r)
  {
    if r.Ok? {
      assert a + (b + r.value) == a + b + r.value;
    }
  }

  /** parse_response on any packet whatever: every read is in bounds. */
  method ParseResponse(p: Bytes, txid: nat) returns (r: DnsResult)
    ensures r == Parse(p, txid)
  {
    if |p| < 12 {
      return Error("Packet too short");
    }
    if U16(p, 0) != txid {
      return WrongId;
    }
    var flags := U16(p, 2);
    if flags < 0x8000 {
      return Error("Not a response");
    }
    if flags % 0x10 == 3 {
      return NotFound;
    }
    if flags % 0x10 != 0 {
      return Error("DNS server error");
    }
    var questions, answers := U16(p, 4), U16(p, 6);
    if answers == 0 {
      return NotFound;
    }
    var q := SkipQuestions(p, 12, questions);
    if q.Err? {
      return Error(q.error);
    }
    var a := ReadAnswers(p, q.value, answers);
    if a.Err? {
      return Error(a.error);
    }
    r := if a.value == [] then NotFound else Resolved(a.value);
  }

  // ---------------------------------------------------------------- messages

  /** Labels followed by the root or by a compression pointer. */
  datatype Name = Name(labels: seq<Bytes>, pointer: Option<nat>)

  datatype Question = Question(name: Name, qtype: nat, qclass: nat)

  datatype Record = Record(name: Name, rtype: nat, rclass: nat, ttl: Bytes, rdata: Bytes)

  datatype Message = Message(
    txid: nat,
    flags: nat,
    questions: seq<Question>,
    answers: seq<Record>,
    authorities: nat,
    additionals: nat,
    rest: Bytes)

  predicate GoodName(n: Name) {
    && (forall i :: 0 <= i < |n.labels| ==> Label(n.labels[i]))
    && (n.pointer.Some? ==> n.pointer.value < 0x4000)
  }

  predicate GoodQuestion(q: Question) { GoodName(q.name) && q.qtype < 0x1_0000 && q.qclass < 0x1_0000 }

  predicate GoodRecord(r: Record) {
    GoodName(r.name) && r.rtype < 0x1_0000 && r.rclass < 0x1_0000 && |r.ttl| == 4 && |r.rdata| < 0x1_0000
  }

  predicate Good(m: Message) {
    && m.txid < 0x1_0000 && m.flags < 0x1_0000 && m.authorities < 0x1_0000 && m.additionals < 0x1_0000
    && |m.questions| < 0x1_0000 && |m.answers| < 0x1_0000
    && (forall i :: 0 <= i < |m.questions| ==> GoodQuestion(m.questions[i]))
    && (forall i :: 0 <= i < |m.answers| ==> GoodRecord(m.answers[i]))
  }

  function NameEnd(n: Name): Bytes
    requires GoodName(n)
  {
    if n.pointer.Some? then BE16(0xC000 + n.pointer.value) else [0]
  }

  function NameBytes(n: Name): Bytes
    requires GoodName(n)
  {
    EncodeLabels(n.labels) + NameEnd(n)
  }

  function QuestionBytes(q: Question): Bytes
    requires GoodQuestion(q)
  {
    NameBytes(q.name) + (BE16(q.qtype) + BE16(q.qclass))
  }

  function RecordHead(r: Record): (b: Bytes)
    requires GoodRecord(r)
    ensures |b| == 10
  {
    BE16(r.rtype) + BE16(r.rclass) + r.ttl + BE16(|r.rdata|)
  }

  function RecordBytes(r: Record): Bytes
    requires GoodRecord(r)
  {
    NameBytes(r.name) + (RecordHead(r) + r.rdata)
  }

  /** Byte strings from number k on, one after the other. */
  function Concat(bs: seq<Bytes>, k: nat): Bytes
    requires k <= |bs|
    decreases |bs| - k
  {
    if k == |bs| then [] else bs[k] + Concat(bs, k + 1)
  }

  function QuestionSeq(qs: seq<Question>): (bs: seq<Bytes>)
    requires forall i :: 0 <= i < |qs| ==> GoodQuestion(qs[i])
    ensures |bs| == |qs|
  {
    seq(|qs|, i requires 0 <= i < |qs| => QuestionBytes(qs[i]))
  }

  function RecordSeq(rs: seq<Record>): (bs: seq<Bytes>)
    requires forall i :: 0 <= i < |rs| ==> GoodRecord(rs[i])
    ensures |bs| == |rs|
  {
    seq(|rs|, i requires 0 <= i < |rs| => RecordBytes(rs[i]))
  }

  function Header(m: Message): (b: Bytes)
    requires Good(m)
    ensures |b| == 12
  {
    BE16(m.txid) + BE16(m.flags) + BE16(|m.questions|) + BE16(|m.answers|) + BE16(m.authorities) + BE16(m.additionals)
  }

  function MessageBytes(m: Message): Bytes
    requires Good(m)
  {
    Header(m) + (Concat(QuestionSeq(m.questions), 0) + (Concat(RecordSeq(m.answers), 0) + m.rest))
  }

  function AddressOf(r: Record): seq<Bytes> {
    if r.rtype == 1 && r.rclass == 1 && |r.rdata| == 4 then [r.rdata] else []
  }

  /** The addresses of the A/IN records from number k on, in order. */
  function Addresses(rs: seq<Record>, k: nat): seq<Bytes>
    requires k <= |rs|
    decreases |rs| - k
  {
    if k == |rs| then [] else AddressOf(rs[k]) + Addresses(rs, k + 1)
  }

  function Meaning(m: Message): DnsResult {
    if m.flags < 0x8000 then Error("Not a response")
    else if m.flags % 0x10 == 3 then NotFound
    else if m.flags % 0x10 != 0 then Error("DNS server error")
    else if Addresses(m.answers, 0) == [] then NotFound
    else Resolved(Addresses(m.answers, 0))
  }

  // ---------------------------------------------------------------- the parser reads the format

  lemma AtU16(p: Bytes, i: nat, n: nat)
    requires n < 0x1_0000 && At(p, i, BE16(n))
    ensures i + 1 < |p| && U16(p, i) == n
  {
    assert p[i..i + 2][0] == BE16(n)[0] && p[i..i + 2][1] == BE16(n)[1];
  }

  lemma SkipStep(p: Bytes, pos: nat, l: Bytes, rest: Bytes)
    requires Label(l) && At(p, pos, [LengthByte(l)] + (l + rest))
    ensures Skip(p, pos) == Skip(p, pos + 1 + |l|) && At(p, pos + 1 + |l|, rest)
  {
    AtByte(p, pos, LengthByte(l), l + rest);
    AtSplit(p, pos + 1, l, rest);
  }

  lemma FirstLabel(n: Name)
    requires GoodName(n) && n.labels != []
    ensures
      var l, m := n.labels[0], n.(labels := n.labels[1..]);
      Label(l) && GoodName(m) && NameBytes(n) == [LengthByte(l)] + (l + NameBytes(m))
  {
  }

  lemma {:induction false} SkipWire(p: Bytes, pos: nat, n: Name)
    requires GoodName(n) && At(p, pos, NameBytes(n))
    ensures Skip(p, pos) == Ok(pos + |NameBytes(n)|)
    decreases |n.labels|
  {
    if n.labels == [] {
      assert NameBytes(n) == NameEnd(n);
      assert NameEnd(n) == [NameEnd(n)[0]] + NameEnd(n)[1..];
      AtByte(p, pos, NameEnd(n)[0], NameEnd(n)[1..]);
    } else {
      var l, m := n.labels[0], n.(labels := n.labels[1..]);
      FirstLabel(n);
      SkipStep(p, pos, l, NameBytes(m));
      SkipWire(p, pos + 1 + |l|, m);
    }
  }

  lemma QuestionRead(p: Bytes, pos: nat, q: Question)
    requires GoodQuestion(q) && At(p, pos, QuestionBytes(q))
    ensures Skip(p, pos) == Ok(pos + |QuestionBytes(q)| - 4) && pos + |QuestionBytes(q)| <= |p|
  {
    AtSplit(p, pos, NameBytes(q.name), BE16(q.qtype) + BE16(q.qclass));
    SkipWire(p, pos, q.name);
  }

  /** Where the k-th byte string starts if the first one starts at pos. */
  function Offset(bs: seq<Bytes>, pos: nat, k: nat): nat
    requires k <= |bs|
  {
    if k == 0 then pos else Offset(bs, pos, k - 1) + |bs[k - 1]|
  }

  /** Each byte string of a concatenation stands at its offset. */
  lemma {:induction false} ConcatAt(p: Bytes, pos: nat, bs: seq<Bytes>, k: nat)
    requires k <= |bs| && At(p, pos, Concat(bs, 0))
    ensures At(p, Offset(bs, pos, k), Concat(bs, k))
    ensures k < |bs| ==> At(p, Offset(bs, pos, k), bs[k])
  {
    if k > 0 {
      ConcatAt(p, pos, bs, k - 1);
      AtSplit(p, Offset(bs, pos, k - 1), bs[k - 1], Concat(bs, k));
    }
    if k < |bs| {
      AtSplit(p, Offset(bs, pos, k), bs[k], Concat(bs, k + 1));
    }
  }

  /** The parser skips from one position to the next over a question. */
  predicate SkipsTo(p: Bytes, pos: nat, next: nat) { next >= 4 && Skip(p, pos) == Ok(next - 4) && next <= |p| }

  lemma {:induction false} QuestionsChain(p: Bytes, offs: seq<nat>, k: nat)
    requires k < |offs| && forall i :: 0 <= i < |offs| - 1 ==> SkipsTo(p, offs[i], offs[i + 1])
    ensures Questions(p, offs[k], |offs| - 1 - k) == Ok(offs[|offs| - 1])
    decreases |offs| - k
  {
    if k < |offs| - 1 {
      QuestionsChain(p, offs, k + 1);
      assert SkipsTo(p, offs[k], offs[k + 1]);
    }
  }

  lemma QuestionSkips(p: Bytes, pos: nat, bs: seq<Bytes>, k: nat, q: Question)
    requires k < |bs| && At(p, pos, Concat(bs, 0)) && GoodQuestion(q) && bs[k] == QuestionBytes(q)
    ensures SkipsTo(p, Offset(bs, pos, k), Offset(bs, pos, k + 1))
  {
    ConcatAt(p, pos, bs, k);
    SkipsAt(p, Offset(bs, pos, k), bs[k], q);
  }

  lemma SkipsAt(p: Bytes, pos: nat, b: Bytes, q: Question)
    requires At(p, pos, b) && GoodQuestion(q) && b == QuestionBytes(q)
    ensures SkipsTo(p, pos, pos + |b|)
  {
    QuestionRead(p, pos, q);
  }

  function Offsets(bs: seq<Bytes>, pos: nat): (offs: seq<nat>)
    ensures |offs| == |bs| + 1 && forall k :: 0 <= k <= |bs| ==> offs[k] == Offset(bs, pos, k)
  {
    seq(|bs| + 1, k requires 0 <= k <= |bs| => Offset(bs, pos, k))
  }

  lemma QuestionsRead(p: Bytes, pos: nat, qs: seq<Question>)
    requires forall i :: 0 <= i < |qs| ==> GoodQuestion(qs[i])
    requires At(p, pos, Concat(QuestionSeq(qs), 0))
    ensures Questions(p, pos, |qs|) == Ok(Offset(QuestionSeq(qs), pos, |qs|))
  {
    var offs := Offsets(QuestionSeq(qs), pos);
    forall k | 0 <= k < |qs| ensures SkipsTo(p, offs[k], offs[k + 1]) {
      QuestionSkips(p, pos, QuestionSeq(qs), k, qs[k]);
    }
    QuestionsChain(p, offs, 0);
  }

  lemma HeadRead(p: Bytes, pos: nat, r: Record)
    requires GoodRecord(r) && At(p, pos, RecordHead(r))
    ensures pos + 10 <= |p| && U16(p, pos) == r.rtype && U16(p, pos + 2) == r.rclass && U16(p, pos + 8) == |r.rdata|
  {
    AtSplit(p, pos, BE16(r.rtype) + BE16(r.rclass) + r.ttl, BE16(|r.rdata|));
    AtSplit(p, pos, BE16(r.rtype) + BE16(r.rclass), r.ttl);
    AtSplit(p, pos, BE16(r.rtype), BE16(r.rclass));
    AtU16(p, pos, r.rtype);
    AtU16(p, pos + 2, r.rclass);
    AtU16(p, pos + 8, |r.rdata|);
  }

  lemma AnswerRead(p: Bytes, after: nat, r: Record)
    requires GoodRecord(r) && At(p, after, RecordHead(r) + r.rdata)
    ensures Answer(p, after) == Ok((AddressOf(r), after + 10 + |r.rdata|))
  {
    AtSplit(p, after, RecordHead(r), r.rdata);
    HeadRead(p, after, r);
  }

  lemma RecordRead(p: Bytes, pos: nat, r: Record)
    requires GoodRecord(r) && At(p, pos, RecordBytes(r))
    ensures pos < |p| && RecordAt(p, pos) == Ok((AddressOf(r), pos + |RecordBytes(r)|))
  {
    AtSplit(p, pos, NameBytes(r.name), RecordHead(r) + r.rdata);
    SkipWire(p, pos, r.name);
    AnswerRead(p, pos + |NameBytes(r.name)|, r);
  }

  /** The parser reads a record at pos that yields the addresses and ends at next. */
  predicate Yields(p: Bytes, pos: nat, addresses: seq<Bytes>, next: nat) {
    pos < |p| && RecordAt(p, pos) == Ok((addresses, next))
  }

  lemma AnswersStep(p: Bytes, pos: nat, n: nat, a: seq<Bytes>, next: nat, rest: seq<Bytes>)
    requires n > 0 && Yields(p, pos, a, next) && Answers(p, next, n - 1) == Ok(rest)
    ensures Answers(p, pos, n) == Ok(a + rest)
  {
  }

  lemma {:induction false} AnswersChain(p: Bytes, offs: seq<nat>, rs: seq<Record>, k: nat)
    requires |offs| == |rs| + 1 && k <= |rs|
    requires forall i :: 0 <= i < |rs| ==> Yields(p, offs[i], AddressOf(rs[i]), offs[i + 1])
    ensures Answers(p, offs[k], |rs| - k) == Ok(Addresses(rs, k))
    decreases |rs| - k
  {
    if k < |rs| {
      AnswersChain(p, offs, rs, k + 1);
      AnswersStep(p, offs[k], |rs| - k, AddressOf(rs[k]), offs[k + 1], Addresses(rs, k + 1));
    }
  }

  lemma RecordYields(p: Bytes, pos: nat, bs: seq<Bytes>, k: nat, r: Record)
    requires k < |bs| && At(p, pos, Concat(bs, 0)) && GoodRecord(r) && bs[k] == RecordBytes(r)
    ensures Yields(p, Offset(bs, pos, k), AddressOf(r), Offset(bs, pos, k + 1))
  {
    ConcatAt(p, pos, bs, k);
    YieldsAt(p, Offset(bs, pos, k), bs[k], r);
  }

  lemma YieldsAt(p: Bytes, pos: nat, b: Bytes, r: Record)
    requires At(p, pos, b) && GoodRecord(r) && b == RecordBytes(r)
    ensures Yields(p, pos, AddressOf(r), pos + |b|)
  {
    RecordRead(p, pos, r);
  }

  lemma AnswersRead(p: Bytes, pos: nat, rs: seq<Record>)
    requires forall i :: 0 <= i < |rs| ==> GoodRecord(rs[i])
    requires At(p, pos, Concat(RecordSeq(rs), 0))
    ensures Answers(p, pos, |rs|) == Ok(Addresses(rs, 0))
  {
    var offs := Offsets(RecordSeq(rs), pos);
    forall k | 0 <= k < |rs| ensures Yields(p, offs[k], AddressOf(rs[k]), offs[k + 1]) {
      RecordYields(p, pos, RecordSeq(rs), k, rs[k]);
    }
    AnswersChain(p, offs, rs, 0);
  }

  lemma HeaderRead(p: Bytes, m: Message)
    requires Good(m) && At(p, 0, Header(m))
    ensures |p| >= 12 && U16(p, 0) == m.txid && U16(p, 2) == m.flags
    ensures U16(p, 4) == |m.questions| && U16(p, 6) == |m.answers|
  {
    var a := BE16(m.txid) + BE16(m.flags) + BE16(|m.questions|) + BE16(|m.answers|);
    AtSplit(p, 0, a + BE16(m.authorities), BE16(m.additionals));
    AtSplit(p, 0, a, BE16(m.authorities));
    AtSplit(p, 0, BE16(m.txid) + BE16(m.flags) + BE16(|m.questions|), BE16(|m.answers|));
    AtSplit(p, 0, BE16(m.txid) + BE16(m.flags), BE16(|m.questions|));
    AtSplit(p, 0, BE16(m.txid), BE16(m.flags));
    AtU16(p, 0, m.txid);
    AtU16(p, 2, m.flags);
    AtU16(p, 4, |m.questions|);
    AtU16(p, 6, |m.answers|);
  }

  /** Four parts of a packet, each where the ones before it end. */
  lemma PartsAt(p: Bytes, a: Bytes, b: Bytes, c: Bytes, d: Bytes)
    requires p == a + (b + (c + d))
    ensures At(p, 0, a) && At(p, |a|, b) && At(p, |a| + |b|, c)
  {
    assert At(p, 0, a + (b + (c + d)));
    AtSplit(p, 0, a, b + (c + d));
    AtSplit(p, |a|, b, c + d);
    AtSplit(p, |a| + |b|, c, d);
  }

  lemma BodyQuestions(p: Bytes, head: Bytes, m: Message)
    requires Good(m) && |head| == 12
    requires p == head + (Concat(QuestionSeq(m.questions), 0) + (Concat(RecordSeq(m.answers), 0) + m.rest))
    ensures At(p, 0, head) && Questions(p, 12, |m.questions|) == Ok(12 + |Concat(QuestionSeq(m.questions), 0)|)
  {
    var qs := QuestionSeq(m.questions);
    PartsAt(p, head, Concat(qs, 0), Concat(RecordSeq(m.answers), 0), m.rest);
    QuestionsRead(p, 12, m.questions);
    OffsetEnd(qs, 12, |qs|);
  }

  lemma BodyAnswers(p: Bytes, head: Bytes, m: Message)
    requires Good(m) && |head| == 12
    requires p == head + (Concat(QuestionSeq(m.questions), 0) + (Concat(RecordSeq(m.answers), 0) + m.rest))
    ensures Answers(p, 12 + |Concat(QuestionSeq(m.questions), 0)|, |m.answers|) == Ok(Addresses(m.answers, 0))
  {
    var qs := QuestionSeq(m.questions);
    PartsAt(p, head, Concat(qs, 0), Concat(RecordSeq(m.answers), 0), m.rest);
    AnswersRead(p, 12 + |Concat(qs, 0)|, m.answers);
  }

  lemma {:induction false} OffsetEnd(bs: seq<Bytes>, pos: nat, k: nat)
    requires k <= |bs|
    ensures Offset(bs, pos, k) + |Concat(bs, k)| == pos + |Concat(bs, 0)|
  {
    if k > 0 {
      OffsetEnd(bs, pos, k - 1);
    }
  }

  /**
    On every well-formed response to the expected transaction the parser returns exactly the
    addresses of its A/IN records in order, whatever names, compression, other records and
    trailing sections it carries; any other transaction is WrongId.
  */
  lemma ResponseRead(m: Message, txid: nat)
    requires Good(m)
    ensures Parse(MessageBytes(m), txid) == if txid == m.txid then Meaning(m) else WrongId
  {
    var p := MessageBytes(m);
    BodyQuestions(p, Header(m), m);
    BodyAnswers(p, Header(m), m);
    HeaderRead(p, m);
  }

  // ---------------------------------------------------------------- queries

  /** One recursion-desired question for the A/IN records of a hostname. */
  function Query(txid: nat, h: Bytes): (m: Message)
    requires txid < 0x1_0000
    ensures Good(m)
  {
    Message(txid, 0x0100, [Question(Name(Labels(Pieces(h, 0)), None), 1, 1)], [], 0, 0, [])
  }

  lemma QueryBytes(txid: nat, h: Bytes)
    requires txid < 0x1_0000
    ensures MessageBytes(Query(txid, h)) == Header(Query(txid, h)) + Qname(h) + BE16(1) + BE16(1)
  {
    var m := Query(txid, h);
    var bs := QuestionSeq(m.questions);
    assert Concat(bs, 0) == bs[0] + Concat(bs, 1);
    assert NameBytes(m.questions[0].name) == Qname(h);
  }

  /** build_query: the next transaction id and the message that asks for the hostname. */
  method BuildQuery(last: nat, h: Bytes) returns (txid: nat, packet: Bytes)
    ensures txid == (last + 1) % 0x1_0000 && packet == MessageBytes(Query(txid, h))
  {
    txid := (last + 1) % 0x1_0000;
    packet := BE16(txid);
    packet := packet + BE16(0x0100);
    packet := packet + BE16(1);
    packet := packet + BE16(0);
    packet := packet + BE16(0);
    packet := packet + BE16(0);
    assert packet == Header(Query(txid, h));
    packet := EncodeDomainName(h, packet);
    packet := packet + BE16(1);
    packet := packet + BE16(1);
    QueryBytes(txid, h);
  }

  /** The numbers a server reads in the query: recursion desired, one question, nothing else, type A, class IN. */
  lemma QueryWords(txid: nat, h: Bytes)
    requires txid < 0x1_0000
    ensures
      var p := MessageBytes(Query(txid, h));
      && |p| >= 16 && U16(p, 0) == txid && U16(p, 2) == 256
      && U16(p, 4) == 1 && U16(p, 6) == 0 && U16(p, 8) == 0 && U16(p, 10) == 0
      && U16(p, |p| - 4) == 1 && U16(p, |p| - 2) == 1
  {
    var m := Query(txid, h);
    QueryBytes(txid, h);
    assert |m.questions| == 1 && |m.answers| == 0;
  }

  lemma NameInside(p: Bytes, a: Bytes, name: Bytes, b: Bytes, c: Bytes)
    requires p == a + name + b + c
    ensures At(p, |a|, name)
  {
  }

  /** What a server reads in the query: the hostname's labels at offset 12, four bytes before the end. */
  lemma QueryNames(txid: nat, h: Bytes)
    requires txid < 0x1_0000
    ensures
      var p := MessageBytes(Query(txid, h));
      |p| >= 17 && DecodeName(p, 12) == Some((Labels(Pieces(h, 0)), |p| - 4)) && Skip(p, 12) == Ok(|p| - 4)
  {
    var p := MessageBytes(Query(txid, h));
    QueryBytes(txid, h);
    NameInside(p, Header(Query(txid, h)), Qname(h), BE16(1), BE16(1));
    QnameRoundTrip(p, 12, h);
    SkipAgrees(p, 12);
  }
}
