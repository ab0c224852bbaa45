/**
  The DNS client's wire format (`kernel/src/dns.rs`): building a query and parsing a response,
  against the name and message formats of sections 3.1 and 4.1 of RFC 1035.
*/
module Dns {
  import opened Wrappers

  newtype Byte = b: int | 0 <= b < 0x100
  type Bytes = seq<Byte>

  const DOT: Byte := 46

  datatype Result<T> = Ok(value: T) | Err(error: string)

  datatype DnsResult = Resolved(addresses: seq<Bytes>) | NotFound | Error(message: string) | WrongId

  function BE16(n: nat): Bytes
    requires n < 0x1_0000
  {
    [(n / 0x100) as Byte, (n % 0x100) as Byte]
  }

  function U16(p: Bytes, i: nat): (n: nat)
    requires i + 1 < |p|
    ensures n < 0x1_0000
  {
    (p[i] as int) * 0x100 + p[i + 1] as int
  }

  /** The bytes b stand at position i of packet p. */
  predicate At(p: Bytes, i: nat, b: Bytes) { i + |b| <= |p| && p[i..i + |b|] == b }

  lemma AtSplit(p: Bytes, i: nat, a: Bytes, b: Bytes)
    requires At(p, i, a + b)
    ensures At(p, i, a) && At(p, i + |a|, b)
  {
    var w := p[i..i + |a| + |b|];
    assert w[..|a|] == a && w[|a|..] == b;
    assert p[i..i + |a|] == w[..|a|] && p[i + |a|..i + |a| + |b|] == w[|a|..];
  }

  lemma AtByte(p: Bytes, i: nat, a: Byte, b: Bytes)
    requires At(p, i, [a] + b)
    ensures i < |p| && p[i] == a && At(p, i + 1, b)
  {
    AtSplit(p, i, [a], b);
    assert p[i..i + 1][0] == a;
  }

  // ---------------------------------------------------------------- names

  /** Index of the first dot from start on, or the length. */
  function NextDot(h: Bytes, start: nat): (i: nat)
    requires start <= |h|
    ensures start <= i <= |h| && (i < |h| ==> h[i] == DOT) && forall j :: start <= j < i ==> h[j] != DOT
    decreases |h| - start
  {
    if start == |h| || h[start] == DOT then start else NextDot(h, start + 1)
  }

  /** The dot-separated pieces of a hostname from start on. */
  function Pieces(h: Bytes, start: nat): (ps: seq<Bytes>)
    requires start <= |h|
    ensures ps != []
    decreases |h| - start
  {
    var i := NextDot(h, start);
    if i == |h| then [h[start..i]] else [h[start..i]] + Pieces(h, i + 1)
  }

  function Join(ps: seq<Bytes>): Bytes
    requires ps != []
  {
    if |ps| == 1 then ps[0] else ps[0] + [DOT] + Join(ps[1..])
  }

  /** The pieces contain no dot and make up the hostname. */
  lemma {:induction false} JoinPieces(h: Bytes, start: nat)
    requires start <= |h|
    ensures Join(Pieces(h, start)) == h[start..]
    ensures forall k, j :: 0 <= k < |Pieces(h, start)| && 0 <= j < |Pieces(h, start)[k]| ==> Pieces(h, start)[k][j] != DOT
    decreases |h| - start
  {
    var i := NextDot(h, start);
    if i < |h| {
      JoinPieces(h, i + 1);
      var rest := Pieces(h, i + 1);
      assert Pieces(h, start) == [h[start..i]] + rest;
      assert Pieces(h, start)[1..] == rest;
      assert h[start..] == h[start..i] + [DOT] + h[i + 1..];
    }
  }

  predicate Label(l: Bytes) { 1 <= |l| <= 63 }

  /** The pieces that fit a DNS label; the others are dropped. */
  function Labels(ps: seq<Bytes>): (ls: seq<Bytes>)
    ensures forall i :: 0 <= i < |ls| ==> Label(ls[i])
  {
    if ps == [] then [] else (if Label(ps[0]) then [ps[0]] else []) + Labels(ps[1..])
  }

  function LengthByte(l: Bytes): Byte
    requires Label(l)
  {
    |l| as Byte
  }

  function EncodeLabels(ls: seq<Bytes>): Bytes
    requires forall i :: 0 <= i < |ls| ==> Label(ls[i])
  {
    if ls == [] then [] else [LengthByte(ls[0])] + ls[0] + EncodeLabels(ls[1..])
  }

  /** The QNAME of a hostname: its labels, each after its length, and the root. */
  function Qname(h: Bytes): Bytes { EncodeLabels(Labels(Pieces(h, 0))) + [0] }

  /** One piece, as far as it can be encoded. */
  function Piece(l: Bytes): Bytes { if Label(l) then [LengthByte(l)] + l else [] }

  function EncodeAll(ps: seq<Bytes>): Bytes {
    if ps == [] then [] else Piece(ps[0]) + EncodeAll(ps[1..])
  }

  lemma {:induction false} EncodeAllIs(ps: seq<Bytes>)
    ensures EncodeAll(ps) == EncodeLabels(Labels(ps))
  {
    if ps != [] {
      EncodeAllIs(ps[1..]);
      if Label(ps[0]) {
        assert Labels(ps)[1..] == Labels(ps[1..]);
      } else {
        assert Labels(ps) == Labels(ps[1..]);
      }
    }
  }

  lemma Assoc(a: Bytes, b: Bytes, c: Bytes)
    ensures a + (b + c) == a + b + c
  {
  }

  lemma {:induction false} EncodeAllSnoc(ps: seq<Bytes>, l: Bytes)
    ensures EncodeAll(ps + [l]) == EncodeAll(ps) + Piece(l)
  {
    var qs := ps + [l];
    if ps == [] {
      assert qs == [l] && qs[1..] == [];
      assert EncodeAll(qs) == Piece(l) + [];
    } else {
      EncodeAllSnoc(ps[1..], l);
      assert qs[1..] == ps[1..] + [l] && qs[0] == ps[0];
      assert EncodeAll(qs) == Piece(ps[0]) + EncodeAll(ps[1..] + [l]);
      Assoc(Piece(ps[0]), EncodeAll(ps[1..]), Piece(l));
    }
  }

  /** `done` are the pieces before start, all emitted. */
  ghost predicate Emitted(h: Bytes, start: nat, done: seq<Bytes>) {
    start <= |h| && done + Pieces(h, start) == Pieces(h, 0)
  }

  lemma EmitNext(h: Bytes, start: nat, done: seq<Bytes>)
    requires Emitted(h, start, done)
    ensures
      var i := NextDot(h, start);
      var next := done + [h[start..i]];
      if i == |h| then next == Pieces(h, 0) else Emitted(h, i + 1, next)
  {
    var i := NextDot(h, start);
    if i < |h| {
      assert done + ([h[start..i]] + Pieces(h, i + 1)) == done + [h[start..i]] + Pieces(h, i + 1);
    }
  }

  method EncodeDomainName(h: Bytes, packet: Bytes) returns (out: Bytes)
    ensures out == packet + Qname(h)
  {
    ghost var done;
    var start;
    out, start, done := EncodeDotted(h, packet);
    EmitNext(h, start, done);
    out := EmitLabel(h, start, |h|, out, packet, done);
    QnameIs(h, packet);
    out := out + [0];
  }

  /** The labels that a dot ends; the last one starts at `start`. */
  method EncodeDotted(h: Bytes, packet: Bytes) returns (out: Bytes, start: nat, ghost done: seq<Bytes>)
    ensures Emitted(h, start, done) && NextDot(h, start) == |h| && out == packet + EncodeAll(done)
  {
    out, start, done := packet, 0, [];
    EmitFirst(h);
    assert packet + [] == packet;
    var i := 0;
    while i < |h|
      invariant start <= i <= |h| && Emitted(h, start, done) && i <= NextDot(h, start)
      invariant out == packet + EncodeAll(done)
    {
      if h[i] == DOT {
        assert NextDot(h, start) == i;
        EmitNext(h, start, done);
        out := EmitLabel(h, start, i, out, packet, done);
        start, done := i + 1, done + [h[start..i]];
      }
      i := i + 1;
    }
  }

  lemma EmitFirst(h: Bytes)
    ensures Emitted(h, 0, [])
  {
    assert [] + Pieces(h, 0) == Pieces(h, 0);
  }

  lemma QnameIs(h: Bytes, packet: Bytes)
    ensures packet + EncodeAll(Pieces(h, 0)) + [0] == packet + Qname(h)
  {
    EncodeAllIs(Pieces(h, 0));
    Assoc(packet, EncodeAll(Pieces(h, 0)), [0]);
  }

  method EmitLabel(h: Bytes, start: nat, i: nat, packet: Bytes, ghost base: Bytes, ghost done: seq<Bytes>)
    returns (out: Bytes)
    requires start <= i <= |h| && packet == base + EncodeAll(done)
    ensures out == base + EncodeAll(done + [h[start..i]])
  {
    EncodeAllSnoc(done, h[start..i]);
    out := packet;
    var length := i - start;
    if length > 0 && length <= 63 {
      out := out + [length as Byte];
      out := out + h[start..i];
    }
    assert out == base + (EncodeAll(done) + Piece(h[start..i]));
  }

  /** Section 3.1 of RFC 1035, uncompressed: the labels of the name at pos and the position after it. */
  function DecodeName(p: Bytes, pos: nat): Option<(seq<Bytes>, nat)>
    decreases |p| - pos
  {
    if pos >= |p| then None
    else
      var n := p[pos] as nat;
      if n == 0 then Some(([], pos + 1))
      else if n > 63 || pos + 1 + n > |p| then None
      else
        match DecodeName(p, pos + 1 + n)
        case None => None
        case Some((ls, end)) => Some(([p[pos + 1..pos + 1 + n]] + ls, end))
  }

  lemma DecodeStep(p: Bytes, pos: nat, l: Bytes, rest: Bytes)
    requires Label(l) && At(p, pos, [LengthByte(l)] + (l + rest))
    ensures At(p, pos + 1 + |l|, rest)
    ensures
      var d := DecodeName(p, pos + 1 + |l|);
      DecodeName(p, pos) == if d.Some? then Some(([l] + d.value.0, d.value.1)) else None
  {
    AtByte(p, pos, LengthByte(l), l + rest);
    AtSplit(p, pos + 1, l, rest);
  }

  lemma {:induction false} DecodeLabels(p: Bytes, pos: nat, ls: seq<Bytes>)
    requires forall i :: 0 <= i < |ls| ==> Label(ls[i])
    requires At(p, pos, EncodeLabels(ls) + [0])
    ensures DecodeName(p, pos) == Some((ls, pos + |EncodeLabels(ls)| + 1))
    decreases |ls|
  {
    if ls == [] {
      assert EncodeLabels(ls) + [0] == [0] + [];
      AtByte(p, pos, 0, []);
    } else {
      var l, rest := ls[0], EncodeLabels(ls[1..]) + [0];
      assert EncodeLabels(ls) + [0] == [LengthByte(l)] + (l + rest);
      DecodeStep(p, pos, l, rest);
      DecodeLabels(p, pos + 1 + |l|, ls[1..]);
      assert ls == [l] + ls[1..];
    }
  }

  /** The encoded name decodes, wherever it stands in a packet, to exactly the labels of the hostname. */
  lemma QnameRoundTrip(p: Bytes, pos: nat, h: Bytes)
    requires At(p, pos, Qname(h))
    ensures DecodeName(p, pos) == Some((Labels(Pieces(h, 0)), pos + |Qname(h)|))
  {
    DecodeLabels(p, pos, Labels(Pieces(h, 0)));
  }

  // ---------------------------------------------------------------- skipping names

  /** The position after a name, compressed or not. */
  function Skip(p: Bytes, pos: nat): Result<nat>
    decreases |p| - pos
  {
    if pos >= |p| then Err("Name extends past packet")
    else
      var n := p[pos] as nat;
      if n == 0 then Ok(pos + 1)
      else if n >= 0xC0 then Ok(pos + 2)
      else if pos + 1 + n > |p| then Err("Label extends past packet")
      else Skip(p, pos + 1 + n)
  }

  method SkipName(p: Bytes, start: nat) returns (r: Result<nat>)
    ensures r == Skip(p, start)
    ensures r.Ok? ==> start < r.value <= |p| + 1
  {
    var pos := start;
    while true
      invariant start <= pos && Skip(p, pos) == Skip(p, start)
      decreases |p| - pos
    {
      if pos >= |p| {
        return Err("Name extends past packet");
      }
      var n := p[pos] as nat;
      if n == 0 {
        return Ok(pos + 1);
      }
      if n >= 0xC0 {
        return Ok(pos + 2);
      }
      pos := pos + 1 + n;
      if pos > |p| {
        return Err("Label extends past packet");
      }
    }
  }

  /** Skipping a well-formed uncompressed name stops exactly where the name ends. */
  lemma {:induction false} SkipAgrees(p: Bytes, pos: nat)
    requires DecodeName(p, pos).Some?
    ensures Skip(p, pos) == Ok(DecodeName(p, pos).value.1)
    decreases |p| - pos
  {
    var n := p[pos] as nat;
    if n != 0 {
      SkipAgrees(p, pos + 1 + n);
    }
  }
}
