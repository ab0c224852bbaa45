/**
  The directory listing that hart 0 prints for other harts (`kernel/src/cpu/io_router.rs`) and
  the line parser that reads it back (`kernel/src/cpu/fs_proxy.rs`).
*/
module Listing {
  import opened Wrappers

  const U64: nat := 0x1_0000_0000_0000_0000

  datatype Entry = Entry(name: string, size: nat)

  // ---------------------------------------------------------------- printing

  function Digit(d: nat): (c: char)
    requires d < 10
    ensures '0' <= c <= '9'
  {
    '0' + d as char
  }

  function Decimal(n: nat): (s: string)
    ensures s != [] && forall i :: 0 <= i < |s| ==> '0' <= s[i] <= '9'
  {
    if n < 10 then [Digit(n)] else Decimal(n / 10) + [Digit(n % 10)]
  }

  function Line(e: Entry): string { e.name + ":" + Decimal(e.size) }

  function Print(es: seq<Entry>): string {
    if es == [] then "" else Line(es[0]) + "\n" + Print(es[1..])
  }

  lemma {:induction false} PrintSnoc(es: seq<Entry>, e: Entry)
    ensures Print(es + [e]) == Print(es) + (Line(e) + "\n")
  {
    if es == [] {
      assert es + [e] == [e];
    } else {
      PrintSnoc(es[1..], e);
      assert (es + [e])[1..] == es[1..] + [e];
    }
  }

  method PrintListing(es: seq<Entry>) returns (text: string)
    ensures text == Print(es)
  {
    text := "";
    for i := 0 to |es|
      invariant text == Print(es[..i])
    {
      text := text + es[i].name;
      text := text + ":";
      text := text + Decimal(es[i].size);
      text := text + "\n";
      PrintSnoc(es[..i], es[i]);
      assert es[..i + 1] == es[..i] + [es[i]];
    }
    assert es[..|es|] == es;
  }

  // ---------------------------------------------------------------- parsing

  /** Index of the first occurrence of c, or the length. */
  function Find(s: string, c: char): (i: nat)
    ensures i <= |s| && (i < |s| ==> s[i] == c) && forall j :: 0 <= j < i ==> s[j] != c
  {
    if s == "" || s[0] == c then 0 else Find(s[1..], c) + 1
  }

  /** Index of the last occurrence of c. */
  function RFind(s: string, c: char): (r: Option<nat>)
    ensures r.Some? ==> r.value < |s| && s[r.value] == c && forall j :: r.value < j < |s| ==> s[j] != c
    ensures r.None? ==> c !in s
  {
    if s == "" then None
    else if s[|s| - 1] == c then Some(|s| - 1)
    else
      assert s == s[..|s| - 1] + [s[|s| - 1]];
      RFind(s[..|s| - 1], c)
  }

  function StripReturn(line: string): string {
    if line != "" && line[|line| - 1] == '\r' then line[..|line| - 1] else line
  }

  /** str::lines: the pieces between newlines, each without a carriage return before its newline. */
  function Lines(text: string): (ls: seq<string>)
    ensures forall i :: 0 <= i < |ls| ==> '\n' !in ls[i]
  {
    if text == "" then [] else
      var i := Find(text, '\n');
      if i == |text| then
        assert text[..i] == text;
        [text]
      else [StripReturn(text[..i])] + Lines(text[i + 1..])
  }

  predicate Digits(s: string) { s != "" && forall i :: 0 <= i < |s| ==> '0' <= s[i] <= '9' }

  function Value(s: string): nat
    requires forall i :: 0 <= i < |s| ==> '0' <= s[i] <= '9'
  {
    if s == "" then 0 else Value(s[..|s| - 1]) * 10 + (s[|s| - 1] - '0') as nat
  }

  /** str::parse::<u64>: an optional plus sign, at least one digit, no overflow. */
  function ParseU64(s: string): (r: Option<nat>)
    ensures r.Some? ==> r.value < U64
  {
    var t := if s != "" && s[0] == '+' then s[1..] else s;
    if Digits(t) && Value(t) < U64 then Some(Value(t)) else None
  }

  function ParseLine(line: string): Entry {
    match RFind(line, ':')
    case Some(colon) =>
      var size := ParseU64(line[colon + 1..]);
      Entry(line[..colon], if size.Some? then size.value else 0)
    case None => Entry(line, 0)
  }

  function ParseLines(ls: seq<string>): (es: seq<Entry>)
    ensures |es| <= |ls|
  {
    if ls == [] then [] else (if ls[0] == "" then [] else [ParseLine(ls[0])]) + ParseLines(ls[1..])
  }

  function Parse(text: string): seq<Entry> { ParseLines(Lines(text)) }

  // ---------------------------------------------------------------- round trip

  lemma {:induction false} ValueDecimal(n: nat)
    ensures Value(Decimal(n)) == n
  {
    if n >= 10 {
      ValueDecimal(n / 10);
      var s := Decimal(n);
      assert s[..|s| - 1] == Decimal(n / 10);
    }
  }

  /** Without leading zeros. */
  lemma {:induction false} DecimalPlain(n: nat)
    ensures if n == 0 then Decimal(n) == "0" else Decimal(n)[0] != '0'
  {
    if n >= 10 {
      DecimalPlain(n / 10);
    }
  }

  lemma SizeRoundTrip(n: nat)
    requires n < U64
    ensures ParseU64(Decimal(n)) == Some(n)
  {
    ValueDecimal(n);
  }

  lemma RFindIs(s: string, c: char, i: nat)
    requires i < |s| && s[i] == c && forall j :: i < j < |s| ==> s[j] != c
    ensures RFind(s, c) == Some(i)
  {
    assert s[i] in s;
  }

  /** A line whose last colon is at i parses into what is before it and the number after it. */
  lemma ParsedAt(l: string, i: nat, e: Entry)
    requires i < |l| && l[i] == ':' && forall j :: i < j < |l| ==> l[j] != ':'
    requires l[..i] == e.name && ParseU64(l[i + 1..]) == Some(e.size)
    ensures ParseLine(l) == e
  {
    RFindIs(l, ':', i);
  }

  lemma LineShape(name: string, digits: string)
    requires forall i :: 0 <= i < |digits| ==> '0' <= digits[i] <= '9'
    ensures
      var l, i := name + ":" + digits, |name|;
      l[i] == ':' && l[..i] == name && l[i + 1..] == digits && forall j :: i < j < |l| ==> '0' <= l[j] <= '9'
  {
    var l, i := name + ":" + digits, |name|;
    assert forall j :: i < j < |l| ==> l[j] == digits[j - i - 1];
  }

  /** One line gives its entry back, colons in the name and all. */
  lemma LineRoundTrip(e: Entry)
    requires e.size < U64
    ensures ParseLine(Line(e)) == e
  {
    LineShape(e.name, Decimal(e.size));
    SizeRoundTrip(e.size);
    ParsedAt(Line(e), |e.name|, e);
  }

  /** Empty, or with a character other than a digit or a leading plus sign. */
  predicate NoNumber(s: string) {
    s == "" || exists j :: 0 <= j < |s| && !('0' <= s[j] <= '9') && (j > 0 || s[j] != '+')
  }

  lemma NoNumberParses(s: string)
    requires NoNumber(s)
    ensures ParseU64(s).None?
  {
    if s != "" {
      var j :| 0 <= j < |s| && !('0' <= s[j] <= '9') && (j > 0 || s[j] != '+');
      if s[0] == '+' {
        assert s[1..][j - 1] == s[j];
      }
    }
  }

  lemma LastColon(name: string, tail: string)
    requires ':' !in tail
    ensures var l := name + ":" + tail; RFind(l, ':') == Some(|name|) && l[..|name|] == name && l[|name| + 1..] == tail
  {
    var l := name + ":" + tail;
    assert forall j :: |name| < j < |l| ==> l[j] == tail[j - |name| - 1];
    RFindIs(l, ':', |name|);
  }

  /** Lines that no listing prints: without a colon the line is the name, without a number after it the size is 0. */
  lemma ParseOther(name: string, tail: string)
    requires ':' !in tail
    ensures ParseLine(tail) == Entry(tail, 0)
    ensures NoNumber(tail) ==> ParseLine(name + ":" + tail) == Entry(name, 0)
  {
    LastColon(name, tail);
    if NoNumber(tail) {
      NoNumberParses(tail);
    }
  }

  lemma FindIs(s: string, c: char, i: nat)
    requires i < |s| && s[i] == c && forall j :: 0 <= j < i ==> s[j] != c
    ensures Find(s, c) == i
  {
  }

  lemma LinesAt(t: string, i: nat)
    requires i < |t| && t[i] == '\n' && forall j :: 0 <= j < i ==> t[j] != '\n'
    ensures Lines(t) == [StripReturn(t[..i])] + Lines(t[i + 1..])
  {
    FindIs(t, '\n', i);
  }

  /** A carriage return before the newline does not count. */
  lemma ReturnIgnored(line: string, rest: string)
    requires '\n' !in line
    ensures Lines(line + "\r\n" + rest) == [line] + Lines(rest)
  {
    var t, i := line + "\r\n" + rest, |line| + 1;
    forall j | 0 <= j < i ensures t[j] != '\n' {
      assert j < |line| ==> t[j] == line[j];
    }
    assert t[i] == '\n' && t[..i] == line + "\r" && t[i + 1..] == rest;
    LinesAt(t, i);
    assert (line + "\r")[..|line|] == line;
  }

  /** The printed text splits back into the printed lines. */
  lemma FirstLine(e: Entry, rest: string)
    requires '\n' !in e.name
    ensures Lines(Line(e) + "\n" + rest) == [Line(e)] + Lines(rest)
  {
    var l, d := Line(e), Decimal(e.size);
    var t := l + "\n" + rest;
    LineShape(e.name, d);
    assert t[..|l|] == l && t[|l| + 1..] == rest;
    forall j | 0 <= j < |l| ensures t[j] != '\n' {
      assert t[j] == l[j];
      if j < |e.name| {
        assert l[j] == e.name[j];
      }
    }
    LinesAt(t, |l|);
  }

  predicate NewlineFree(es: seq<Entry>) { forall i :: 0 <= i < |es| ==> '\n' !in es[i].name }

  lemma ParseFirst(e: Entry, rest: string)
    requires e.size < U64 && '\n' !in e.name
    ensures Parse(Line(e) + "\n" + rest) == [e] + Parse(rest)
  {
    FirstLine(e, rest);
    LineRoundTrip(e);
    var ls := [Line(e)] + Lines(rest);
    assert ls[0] == Line(e) && ls[1..] == Lines(rest);
  }

  lemma {:induction false} ParsePrint(es: seq<Entry>)
    requires forall i :: 0 <= i < |es| ==> es[i].size < U64
    requires NewlineFree(es)
    ensures Parse(Print(es)) == es
  {
    if es != [] {
      ParseFirst(es[0], Print(es[1..]));
      ParsePrint(es[1..]);
    }
  }

  lemma {:induction false} ParsedNewlineFree(ls: seq<string>)
    requires forall i :: 0 <= i < |ls| ==> '\n' !in ls[i]
    ensures NewlineFree(ParseLines(ls))
  {
    if ls != [] {
      ParsedNewlineFree(ls[1..]);
    }
  }

  /**
    A delegated listing shows exactly the names and sizes of the local one, in the same order,
    if and only if no name contains a newline.
  */
  lemma ListingRoundTrip(es: seq<Entry>)
    requires forall i :: 0 <= i < |es| ==> es[i].size < U64
    ensures Parse(Print(es)) == es <==> NewlineFree(es)
  {
    if NewlineFree(es) {
      ParsePrint(es);
    }
    ParsedNewlineFree(Lines(Print(es)));
  }
}
