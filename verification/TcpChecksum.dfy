/**
  Repair of the TCP checksum of a patched Ethernet frame (`kernel/src/net/patching.rs`), against
  the definition of section 3.1 of RFC 9293 with the arithmetic of RFC 1071.
*/
module TcpChecksum {
  type Byte = b: int | 0 <= b < 0x100
  const WORD: nat := 0x1_0000_0000
  type U32 = n: int | 0 <= n < WORD

  const IP: nat := 14

  /** Big-endian 16-bit word. */
  function Word(hi: Byte, lo: Byte): (w: nat)
    ensures w < 0x1_0000
  {
    hi * 0x100 + lo
  }

  /** Sum of the 16-bit words from index i on, an odd last byte padded with zero on the right. */
  function WordSum(s: seq<Byte>, i: nat): nat
    decreases |s| - i
  {
    if i + 1 < |s| then Word(s[i], s[i + 1]) + WordSum(s, i + 2)
    else if i < |s| then Word(s[i], 0)
    else 0
  }

  lemma {:induction false} WordSumBound(s: seq<Byte>, i: nat)
    requires i <= |s|
    ensures 2 * WordSum(s, i) <= (|s| - i + 1) * 0xFFFF
    decreases |s| - i
  {
    if i + 1 < |s| {
      WordSumBound(s, i + 2);
    }
  }

  /** Source and destination address, protocol number and segment length. */
  function PseudoHeader(frame: seq<Byte>, tcp: nat): (n: nat)
    requires IP + 20 <= |frame| && tcp <= |frame|
    ensures n <= 4 * 0xFFFF + 6 + |frame|
  {
    Word(frame[IP + 12], frame[IP + 13]) + Word(frame[IP + 14], frame[IP + 15])
      + Word(frame[IP + 16], frame[IP + 17]) + Word(frame[IP + 18], frame[IP + 19])
      + 6 + (|frame| - tcp)
  }

  /** Everything the checksum covers, the checksum field included. */
  function Covered(frame: seq<Byte>, tcp: nat): nat
    requires IP + 20 <= |frame| && tcp <= |frame|
  {
    PseudoHeader(frame, tcp) + WordSum(frame[tcp..], 0)
  }

  /** The pseudo-header of section 3.1 of RFC 9293 in bytes: addresses, zero, protocol 6, segment length. */
  function PseudoBytes(frame: seq<Byte>, tcp: nat): (b: seq<Byte>)
    requires 34 <= |frame| && tcp <= |frame| < tcp + 0x1_0000
    ensures |b| == 12
  {
    var n := |frame| - tcp;
    frame[26..34] + [0, 6, n / 0x100, n % 0x100]
  }

  lemma {:induction false} WordSumShift(a: seq<Byte>, s: seq<Byte>, i: nat)
    requires |a| % 2 == 0
    ensures WordSum(a + s, |a| + i) == WordSum(s, i)
    decreases |s| - i
  {
    if i + 1 < |s| {
      WordSumShift(a, s, i + 2);
    }
  }

  lemma WordSumTwo(a: seq<Byte>, i: nat)
    requires i + 1 < |a|
    ensures WordSum(a, i) == a[i] * 0x100 + a[i + 1] + WordSum(a, i + 2)
  {
  }

  /** What the checksum covers is the sum of the words of the pseudo-header's bytes and the segment. */
  lemma CoveredIs(frame: seq<Byte>, tcp: nat)
    requires 34 <= |frame| && tcp <= |frame| < tcp + 0x1_0000
    ensures Covered(frame, tcp) == WordSum(PseudoBytes(frame, tcp) + frame[tcp..], 0)
  {
    var b := PseudoBytes(frame, tcp) + frame[tcp..];
    WordSumTwo(b, 0);
    WordSumTwo(b, 2);
    WordSumTwo(b, 4);
    WordSumTwo(b, 6);
    WordSumTwo(b, 8);
    WordSumTwo(b, 10);
    WordSumShift(PseudoBytes(frame, tcp), frame[tcp..], 0);
  }

  /** End-around carry until 16 bits remain: the one's complement sum. */
  function Fold(n: nat): (f: nat)
    ensures f < 0x1_0000
  {
    if n < 0x1_0000 then n else Fold(n % 0x1_0000 + n / 0x1_0000)
  }

  /** Folding is reduction modulo 2^16 - 1, with 0xFFFF rather than 0 for positive multiples. */
  lemma {:induction false} FoldIs(n: nat)
    ensures Fold(n) % 0xFFFF == n % 0xFFFF && (Fold(n) == 0 <==> n == 0)
  {
    if n >= 0x1_0000 {
      var lo, hi := n % 0x1_0000, n / 0x1_0000;
      FoldIs(lo + hi);
      assert n == lo + hi + hi * 0xFFFF;
      ShiftMod(lo + hi, hi);
    }
  }

  lemma ShiftMod(x: int, k: int)
    ensures (x + k * 0xFFFF) % 0xFFFF == x % 0xFFFF
  {
  }

  /** Filling a zero checksum field adds exactly the checksum to the sum, wherever it lies at an even index. */
  lemma {:induction false} SumPatched(s: seq<Byte>, k: nat, hi: Byte, lo: Byte, i: nat)
    requires k + 1 < |s| && k % 2 == 0 && i % 2 == 0 && s[k] == 0 && s[k + 1] == 0
    ensures WordSum(s[k := hi][k + 1 := lo], i) == WordSum(s, i) + if i <= k then Word(hi, lo) else 0
    decreases |s| - i
  {
    if i + 1 < |s| {
      SumPatched(s, k, hi, lo, i + 2);
    }
  }

  /** A total with the complement of its folded 32-bit sum added. */
  function Closing(total: nat): nat { total + (0xFFFF - Fold(total % WORD)) }

  /**
    The complement of the folded 32-bit sum makes the total fold to all ones exactly if the sum
    wrapped a multiple of 2^16 - 1 times, because 2^32 leaves the remainder 1.
  */
  lemma ComplementCloses(total: nat)
    requires total > 0
    ensures Fold(Closing(total)) == 0xFFFF <==> total / WORD % 0xFFFF == 0
  {
    FoldIs(total % WORD);
    FoldIs(total + (0xFFFF - Fold(total % WORD)));
    Complement(total % WORD, Fold(total % WORD), total / WORD);
  }

  lemma Complement(sum: nat, f: nat, wraps: nat)
    requires f % 0xFFFF == sum % 0xFFFF
    ensures (wraps * WORD + sum + (0xFFFF - f)) % 0xFFFF == wraps % 0xFFFF
  {
    var k := wraps * 0x1_0001 + sum / 0xFFFF + 1 - f / 0xFFFF;
    assert wraps * WORD + sum + (0xFFFF - f) == wraps + k * 0xFFFF;
    ShiftMod(wraps, k);
  }

  lemma AddWraps(a: nat, b: nat)
    ensures (a % WORD + b) % WORD == (a + b) % WORD
  {
    assert a + b == a % WORD + b + a / WORD * WORD;
  }

  /** The 32-bit sum of the words of a segment, computed as the loop does it. */
  method AddSegment(frame: array<Byte>, tcp: nat, start: U32) returns (sum: U32)
    requires tcp <= frame.Length
    ensures sum == (start + WordSum(frame[tcp..], 0)) % WORD
  {
    ghost var data := frame[tcp..];
    ghost var total: nat := start;
    var n := frame.Length - tcp;
    sum := start;
    var i := 0;
    while i + 1 < n
      invariant i <= n && i % 2 == 0
      invariant sum == total % WORD && total + WordSum(data, i) == start + WordSum(data, 0)
    {
      var word := Word(frame[tcp + i], frame[tcp + i + 1]);
      AddWraps(total, word);
      sum := (sum + word) % WORD;
      total := total + word;
      i := i + 2;
    }
    if i < n {
      AddWraps(total, Word(frame[tcp + i], 0));
      sum := (sum + Word(frame[tcp + i], 0)) % WORD;
    }
  }

  method FoldSum(start: U32) returns (sum: nat)
    ensures sum == Fold(start) < 0x1_0000
  {
    sum := start;
    while sum / 0x1_0000 != 0
      invariant Fold(sum) == Fold(start)
      decreases sum
    {
      sum := sum % 0x1_0000 + sum / 0x1_0000;
    }
  }

  /** The checksum field does not overlap the addresses of the IP header. */
  predicate FieldApart(tcp: nat) { tcp + 17 < IP + 12 || IP + 20 <= tcp + 16 }

  /** The frame with the checksum field cleared. */
  function Cleared(frame: seq<Byte>, tcp: nat): seq<Byte>
    requires tcp + 18 <= |frame|
  {
    frame[tcp + 16 := 0][tcp + 17 := 0]
  }

  /** Only a frame of more than 131056 bytes can overflow the 32-bit sum. */
  lemma ShortFits(frame: seq<Byte>, tcp: nat)
    requires IP + 20 <= |frame| <= 0x1_FFF0 && tcp <= |frame|
    ensures Covered(frame, tcp) / WORD % 0xFFFF == 0
  {
    WordSumBound(frame[tcp..], 0);
  }

  lemma Patched(zeroed: seq<Byte>, frame: seq<Byte>, tcp: nat, checksum: nat)
    requires IP + 20 <= |zeroed| && tcp + 18 <= |zeroed| && FieldApart(tcp) && checksum < 0x1_0000
    requires zeroed[tcp + 16] == 0 && zeroed[tcp + 17] == 0
    requires frame == zeroed[tcp + 16 := checksum / 0x100][tcp + 17 := checksum % 0x100]
    ensures Covered(frame, tcp) == Covered(zeroed, tcp) + checksum
  {
    var s: seq<Byte> := zeroed[tcp..];
    var hi: Byte, lo: Byte := checksum / 0x100, checksum % 0x100;
    assert frame[tcp..] == s[16 := hi][17 := lo];
    SumPatched(s, 16, hi, lo, 0);
  }

  /** What the repair promises for a frame whose checksum field was cleared. */
  ghost predicate Repaired(cleared: seq<Byte>, after: seq<Byte>, tcp: nat)
    requires IP + 20 <= |cleared| == |after| && tcp + 18 <= |cleared|
  {
    && (Fold(Covered(after, tcp)) == 0xFFFF <==> Covered(cleared, tcp) / WORD % 0xFFFF == 0)
    && (|cleared| <= 0x1_FFF0 ==> Fold(Covered(after, tcp)) == 0xFFFF)
  }

  lemma Repairs(cleared: seq<Byte>, after: seq<Byte>, tcp: nat)
    requires IP + 20 <= |cleared| == |after| && tcp + 18 <= |cleared|
    requires Covered(after, tcp) == Closing(Covered(cleared, tcp))
    ensures Repaired(cleared, after, tcp)
  {
    ComplementCloses(Covered(cleared, tcp));
    if |cleared| <= 0x1_FFF0 {
      ShortFits(cleared, tcp);
    }
  }

  /** Pseudo-header and segment in 32 bits. */
  method SumFrame(frame: array<Byte>, tcp: nat) returns (sum: U32)
    requires IP + 20 <= frame.Length && tcp <= frame.Length
    ensures sum == Covered(frame[..], tcp) % WORD
  {
    var pseudo := Word(frame[IP + 12], frame[IP + 13]) + Word(frame[IP + 14], frame[IP + 15])
                  + Word(frame[IP + 16], frame[IP + 17]) + Word(frame[IP + 18], frame[IP + 19])
                  + 6 + (frame.Length - tcp);
    assert frame[..][tcp..] == frame[tcp..];
    AddWraps(pseudo, WordSum(frame[tcp..], 0));
    sum := AddSegment(frame, tcp, pseudo % WORD);
  }

  /**
    After the repair the pseudo-header and segment, checksum included, sum to all ones if and only
    if the 32-bit sum wrapped a multiple of 2^16 - 1 times, in particular for every frame of up to
    131056 bytes. Nothing but the checksum field changes.
  */
  method Recalculate(frame: array<Byte>, tcp: nat)
    requires IP + 20 <= frame.Length && tcp + 18 <= frame.Length
    modifies frame
    ensures FieldApart(tcp) ==> Repaired(Cleared(old(frame[..]), tcp), frame[..], tcp)
    ensures forall i :: 0 <= i < frame.Length && i != tcp + 16 && i != tcp + 17 ==> frame[i] == old(frame[i])
  {
    frame[tcp + 16] := 0;
    frame[tcp + 17] := 0;
    ghost var cleared: seq<Byte> := frame[..];
    assert cleared == Cleared(old(frame[..]), tcp);
    var sum := SumFrame(frame, tcp);
    var folded := FoldSum(sum);
    var checksum := 0xFFFF - folded;
    frame[tcp + 16] := checksum / 0x100;
    frame[tcp + 17] := checksum % 0x100;
    if FieldApart(tcp) {
      Patched(cleared, frame[..], tcp, checksum);
      Repairs(cleared, frame[..], tcp);
    }
  }
}
