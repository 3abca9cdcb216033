/** The alignment probe's pure parts (src/alignment_probe.hpp): decoding a chunked response body
    and judging whether a backend's tokens agree with the router's where routing depends on them. */
module Chunked {
  import opened Common

  const MAX_RESPONSE := 65536
  const SIZE_LIMIT := 0x1_0000_0000_0000_0000
  const CRLF := "\r\n"

  // ---- The pieces of the size line ----

  /** Index of the first CRLF, or -1. */
  function FindCrlf(s: string): (i: int)
    ensures -1 <= i && (i >= 0 ==> i + 2 <= |s|)
  {
    if |s| < 2 then -1
    else if s[0] == '\r' && s[1] == '\n' then 0
    else
      var i := FindCrlf(s[1..]);
      if i < 0 then -1 else i + 1
  }

  function BeforeSemi(s: string): string { if s == "" || s[0] == ';' then "" else [s[0]] + BeforeSemi(s[1..]) }

  predicate Blank(c: char) { c == ' ' || c == '\t' }

  function DropFront(s: string): string { if s != "" && Blank(s[0]) then DropFront(s[1..]) else s }
  function DropBack(s: string): string { if s != "" && Blank(s[|s| - 1]) then DropBack(s[..|s| - 1]) else s }

  predicate Hex(c: char) { '0' <= c <= '9' || 'a' <= c <= 'f' || 'A' <= c <= 'F' }

  function Digit(c: char): nat
    requires Hex(c)
  {
    if c <= '9' then c as int - '0' as int else if c <= 'F' then c as int - 'A' as int + 10 else c as int - 'a' as int + 10
  }

  predicate AllHex(s: string) { forall i :: 0 <= i < |s| ==> Hex(s[i]) }

  function HexValue(s: string): nat
    requires AllHex(s)
  {
    if s == "" then 0 else 16 * HexValue(s[..|s| - 1]) + Digit(s[|s| - 1])
  }

  /** std::from_chars in base 16 over the whole field: no sign, no prefix, no partial match. */
  function FromChars(s: string): Option<nat> {
    if s == "" || !AllHex(s) || HexValue(s) >= SIZE_LIMIT then None else Some(HexValue(s))
  }

  function ParseSize(line: string): Option<nat> { FromChars(DropBack(DropFront(BeforeSemi(line)))) }

  const LOWER := "0123456789abcdef"
  const UPPER := "0123456789ABCDEF"

  /** The digits are the sixteen of either case, each worth its place among them; blanks are the
      space and the tab. */
  lemma DigitMeaning(c: char)
    ensures Hex(c) <==> c in LOWER || c in UPPER
    ensures forall k :: 0 <= k < 16 ==> Hex(LOWER[k]) && Digit(LOWER[k]) == k && Hex(UPPER[k]) && Digit(UPPER[k]) == k
    ensures Blank(c) <==> c as int == 32 || c as int == 9
  {
    if '0' <= c <= '9' { assert LOWER[c as int - 48] == c; }
    if 'a' <= c <= 'f' { assert LOWER[c as int - 97 + 10] == c; }
    if 'A' <= c <= 'F' { assert UPPER[c as int - 65 + 10] == c; }
  }

  function Pow16(n: nat): nat { if n == 0 then 1 else 16 * Pow16(n - 1) }

  /** The first of n digits counts sixteen to the n - 1. */
  lemma {:induction false} HexPlaces(s: string)
    requires s != "" && AllHex(s)
    ensures HexValue(s) == Digit(s[0]) * Pow16(|s| - 1) + HexValue(s[1..])
  {
    var n := |s| - 1;
    if n == 0 {
      assert s[..0] == "" && s[1..] == "";
    } else {
      HexPlaces(s[..n]);
      assert s[..n][1..] == s[1..][..n - 1];
      MorePlaces(Digit(s[0]), Pow16(n - 1), HexValue(s[..n][1..]), Digit(s[n]));
    }
  }

  lemma MorePlaces(d: nat, w: nat, rest: nat, last: nat)
    ensures 16 * (d * w + rest) + last == d * (16 * w) + (16 * rest + last)
  {}

  // ---- The decoder ----

  function Dechunk(input: string, out: string): Option<string>
    decreases |input|
  {
    var eol := FindCrlf(input);
    if eol < 0 then None
    else
      var size, rest := ParseSize(input[..eol]), input[eol + 2..];
      if size.None? then None
      else if size.value == 0 then Some(out)
      else if |out| + size.value > MAX_RESPONSE || |rest| < size.value + 2 then None
      else if rest[size.value..size.value + 2] != CRLF then None
      else Dechunk(rest[size.value + 2..], out + rest[..size.value])
  }

  method Trim(s: string) returns (t: string)
    ensures t == DropBack(DropFront(s))
  {
    t := s;
    while t != "" && Blank(t[0])
      invariant DropFront(t) == DropFront(s)
      decreases |t|
    {
      t := t[1..];
    }
    while t != "" && Blank(t[|t| - 1])
      invariant DropBack(t) == DropBack(DropFront(s))
      decreases |t|
    {
      t := t[..|t| - 1];
    }
  }

  /** The decoder's loop: the unread input shrinks every round. */
  method Decode(input: string) returns (r: Option<string>)
    ensures r == Dechunk(input, "")
    ensures r.Some? ==> |r.value| <= MAX_RESPONSE
  {
    hide FindCrlf, BeforeSemi, FromChars, DropFront, DropBack;
    var rest, out := input, "";
    while true
      invariant |out| <= MAX_RESPONSE && Dechunk(rest, out) == Dechunk(input, "")
      decreases |rest|
    {
      var eol := FindCrlf(rest);
      if eol < 0 { return None; }
      var field := Trim(BeforeSemi(rest[..eol]));
      var size := FromChars(field);
      if size.None? { return None; }
      rest := rest[eol + 2..];
      if size.value == 0 { return Some(out); }
      if size.value > MAX_RESPONSE || |out| + size.value > MAX_RESPONSE || |rest| < size.value + 2 { return None; }
      if rest[size.value..size.value + 2] != CRLF { return None; }
      out := out + rest[..size.value];
      rest := rest[size.value + 2..];
    }
  }

  // ---- Size lines ----

  predicate AllBlank(s: string) { forall i :: 0 <= i < |s| ==> Blank(s[i]) }

  predicate NoCrlf(s: string) { forall i :: 0 <= i < |s| - 1 ==> !(s[i] == '\r' && s[i + 1] == '\n') }

  /** Blanks, hexadecimal digits of value n, blanks, and then nothing or a semicolon and any text. */
  ghost predicate SizeLineAt(line: string, n: nat, i: nat, j: nat, k: nat) {
    && i < j <= k <= |line| && AllBlank(line[..i])
    && AllHex(line[i..j]) && HexValue(line[i..j]) == n
    && AllBlank(line[j..k]) && (k == |line| || line[k] == ';')
  }

  ghost predicate IsSizeLine(line: string, n: nat) {
    NoCrlf(line) && exists i: nat, j: nat, k: nat :: SizeLineAt(line, n, i, j, k)
  }

  lemma {:induction false} SemiCut(a: string, b: string)
    requires ';' !in a && (b == "" || b[0] == ';')
    ensures BeforeSemi(a + b) == a
  {
    if a != "" {
      assert (a + b)[1..] == a[1..] + b;
      SemiCut(a[1..], b);
    }
  }

  lemma {:induction false} SemiMeaning(s: string)
    ensures BeforeSemi(s) <= s && (BeforeSemi(s) == s || s[|BeforeSemi(s)|] == ';')
  {
    if s != "" && s[0] != ';' { SemiMeaning(s[1..]); }
  }

  lemma {:induction false} FrontDropped(blanks: string, s: string)
    requires AllBlank(blanks) && s != "" && !Blank(s[0])
    ensures DropFront(blanks + s) == s
  {
    if blanks == "" {
      assert blanks + s == s;
    } else {
      assert (blanks + s)[1..] == blanks[1..] + s;
      FrontDropped(blanks[1..], s);
    }
  }

  lemma {:induction false} BackDropped(s: string, blanks: string)
    requires s != "" && !Blank(s[|s| - 1]) && AllBlank(blanks)
    ensures DropBack(s + blanks) == s
    decreases |blanks|
  {
    if blanks == "" {
      assert s + blanks == s;
    } else {
      assert (s + blanks)[..|s + blanks| - 1] == s + blanks[..|blanks| - 1];
      BackDropped(s, blanks[..|blanks| - 1]);
    }
  }

  lemma {:induction false} FrontMeaning(s: string) returns (i: nat)
    ensures i <= |s| && AllBlank(s[..i]) && DropFront(s) == s[i..]
  {
    i := 0;
    if s != "" && Blank(s[0]) {
      i := FrontMeaning(s[1..]);
      i := i + 1;
      assert s[..i] == [s[0]] + s[1..][..i - 1] && s[i..] == s[1..][i - 1..];
    }
  }

  lemma {:induction false} BackMeaning(s: string) returns (n: nat)
    ensures n <= |s| && AllBlank(s[n..]) && DropBack(s) == s[..n]
  {
    n := |s|;
    if s != "" && Blank(s[|s| - 1]) {
      var t := s[..|s| - 1];
      n := BackMeaning(t);
      assert s[n..] == t[n..] + [s[|s| - 1]] && s[..n] == t[..n];
    }
  }

  lemma HexPlain(s: string)
    requires AllHex(s)
    ensures ';' !in s && forall i :: 0 <= i < |s| ==> !Blank(s[i])
  {}

  /** A size line is parsed to its value, if that fits the machine word. */
  lemma ParsesLine(line: string, n: nat, i: nat, j: nat, k: nat)
    requires SizeLineAt(line, n, i, j, k)
    ensures ParseSize(line) == if n < 0x1_0000_0000_0000_0000 then Some(n) else None
  {
    hide BeforeSemi, DropFront, DropBack, HexValue;
    var digits, tail := line[i..j], line[j..k];
    HexPlain(digits);
    assert line[..k] == line[..i] + (digits + tail) && line == line[..k] + line[k..];
    SemiCut(line[..k], line[k..]);
    FrontDropped(line[..i], digits + tail);
    BackDropped(digits, tail);
  }

  /** And nothing else parses. */
  lemma ParsedLine(line: string)
    requires ParseSize(line).Some?
    ensures ParseSize(line).value < SIZE_LIMIT
    ensures exists i: nat, j: nat, k: nat :: SizeLineAt(line, ParseSize(line).value, i, j, k)
  {
    hide BeforeSemi, DropFront, DropBack, HexValue;
    var field := BeforeSemi(line);
    SemiMeaning(line);
    var i := FrontMeaning(field);
    var m := BackMeaning(field[i..]);
    var j, k := i + m, |field|;
    assert field == line[..k] && line[..i] == field[..i];
    assert field[i..][..m] == line[i..j] && field[i..][m..] == line[j..k];
    assert SizeLineAt(line, ParseSize(line).value, i, j, k);
  }

  // ---- Bodies ----

  datatype Chunk = Chunk(line: string, data: string)
  datatype Body = Body(chunks: seq<Chunk>, last: string, trailer: string)

  /** The body as sent; the trailer is everything after the last chunk's line. */
  function Encode(b: Body): string
    decreases |b.chunks|
  {
    if b.chunks == [] then b.last + CRLF + b.trailer
    else b.chunks[0].line + CRLF + (b.chunks[0].data + CRLF + Encode(b.(chunks := b.chunks[1..])))
  }

  function Content(chunks: seq<Chunk>): string { if chunks == [] then "" else chunks[0].data + Content(chunks[1..]) }

  ghost predicate ChunkReadable(c: Chunk) { c.data != "" && IsSizeLine(c.line, |c.data|) }

  /** Chunks as long as their size lines say, ended by a line that says zero. */
  ghost predicate Readable(b: Body) {
    (forall i :: 0 <= i < |b.chunks| ==> ChunkReadable(b.chunks[i])) && IsSizeLine(b.last, 0)
  }

  // ---- Bodies as section 7.1 of RFC 9112 writes them ----

  /** Nothing, or optional blanks and a semicolon followed by text of one line. */
  ghost predicate IsExt(ext: string) {
    && '\r' !in ext
    && (ext == "" || exists k :: 0 <= k < |ext| && ext[k] == ';' && AllBlank(ext[..k]))
  }

  /** A chunk size directly followed by its extensions. */
  ghost predicate IsRfcLine(line: string, n: nat) {
    exists j: nat :: 0 < j <= |line| && AllHex(line[..j]) && HexValue(line[..j]) == n && IsExt(line[j..])
  }

  ghost predicate WellFormed(b: Body) {
    && (forall i :: 0 <= i < |b.chunks| ==> b.chunks[i].data != "" && IsRfcLine(b.chunks[i].line, |b.chunks[i].data|))
    && IsRfcLine(b.last, 0)
  }

  lemma RfcLineIsSizeLine(line: string, n: nat)
    requires IsRfcLine(line, n)
    ensures IsSizeLine(line, n)
  {
    var j: nat :| 0 < j <= |line| && AllHex(line[..j]) && HexValue(line[..j]) == n && IsExt(line[j..]);
    var ext := line[j..];
    forall i | 0 <= i < |line| ensures line[i] != '\r' { assert line[i] == if i < j then line[..j][i] else ext[i - j]; }
    assert line[0..j] == line[..j] && line[..0] == "";
    if ext == "" {
      assert SizeLineAt(line, n, 0, j, j);
    } else {
      var k :| 0 <= k < |ext| && ext[k] == ';' && AllBlank(ext[..k]);
      assert line[j..j + k] == ext[..k];
      assert SizeLineAt(line, n, 0, j, j + k);
    }
  }

  lemma WellFormedIsReadable(b: Body)
    requires WellFormed(b)
    ensures Readable(b)
  {
    hide IsRfcLine, IsSizeLine;
    forall i | 0 <= i < |b.chunks| ensures ChunkReadable(b.chunks[i]) {
      RfcLineIsSizeLine(b.chunks[i].line, |b.chunks[i].data|);
    }
    RfcLineIsSizeLine(b.last, 0);
  }

  // ---- The decoder accepts exactly the readable bodies within the limit ----

  lemma {:induction false} FindLine(line: string, rest: string)
    requires NoCrlf(line)
    ensures FindCrlf(line + CRLF + rest) == |line|
  {
    var s := line + CRLF + rest;
    if line != "" {
      assert s[1..] == line[1..] + CRLF + rest && s[0] == line[0];
      assert s[1] == if |line| > 1 then line[1] else '\r';
      FindLine(line[1..], rest);
    }
  }

  lemma ReadLine(line: string, n: nat, rest: string)
    requires IsSizeLine(line, n)
    ensures var input := line + CRLF + rest;
            var eol := FindCrlf(input);
            && eol >= 0 && ParseSize(input[..eol]) == (if n < SIZE_LIMIT then Some(n) else None)
            && input[eol + 2..] == rest
  {
    var i: nat, j: nat, k: nat :| SizeLineAt(line, n, i, j, k);
    ParsesLine(line, n, i, j, k);
    FindLine(line, rest);
    var input := line + CRLF + rest;
    assert input[..|line|] == line;
  }

  lemma OneChunk(c: Chunk, more: string, out: string)
    requires ChunkReadable(c)
    ensures Dechunk(c.line + CRLF + (c.data + CRLF + more), out) ==
            if |out| + |c.data| <= MAX_RESPONSE then Dechunk(more, out + c.data) else None
  {
    hide FindCrlf, ParseSize, IsSizeLine;
    var rest, n := c.data + CRLF + more, |c.data|;
    ReadLine(c.line, n, rest);
    assert rest[..n] == c.data && rest[n..n + 2] == CRLF && rest[n + 2..] == more;
  }

  lemma LastChunk(last: string, trailer: string, out: string)
    requires IsSizeLine(last, 0)
    ensures Dechunk(last + CRLF + trailer, out) == Some(out)
  {
    hide FindCrlf, ParseSize, IsSizeLine;
    ReadLine(last, 0, trailer);
  }

  lemma {:induction false} DecodesFrom(b: Body, out: string)
    requires Readable(b) && |out| <= MAX_RESPONSE
    ensures Dechunk(Encode(b), out) ==
            if |out| + |Content(b.chunks)| <= MAX_RESPONSE then Some(out + Content(b.chunks)) else None
    decreases |b.chunks|
  {
    hide Dechunk, ChunkReadable, IsSizeLine;
    if b.chunks == [] {
      LastChunk(b.last, b.trailer, out);
      assert out + "" == out;
    } else {
      var c, more := b.chunks[0], b.(chunks := b.chunks[1..]);
      OneChunk(c, Encode(more), out);
      if |out| + |c.data| <= MAX_RESPONSE {
        DecodesFrom(more, out + c.data);
        assert out + c.data + Content(more.chunks) == out + (c.data + Content(more.chunks));
      }
    }
  }

  /** Every body of section 7.1 of RFC 9112 decodes to the concatenation of its chunks, and is
      refused exactly when that is longer than the response limit. */
  lemma DecodesEveryBody(b: Body)
    requires WellFormed(b)
    ensures Dechunk(Encode(b), "") ==
            if |Content(b.chunks)| <= MAX_RESPONSE then Some(Content(b.chunks)) else None
  {
    hide Dechunk, Encode;
    WellFormedIsReadable(b);
    DecodesFrom(b, "");
    assert "" + Content(b.chunks) == Content(b.chunks);
  }

  /** Whatever the input, no more than the limit comes out. */
  lemma {:induction false} OutputBounded(input: string, out: string)
    requires |out| <= MAX_RESPONSE
    ensures Dechunk(input, out).Some? ==> |Dechunk(input, out).value| <= MAX_RESPONSE
    decreases |input|
  {
    hide FindCrlf, ParseSize;
    var eol := FindCrlf(input);
    if eol >= 0 {
      var size, rest := ParseSize(input[..eol]), input[eol + 2..];
      if size.Some? && size.value > 0 && |out| + size.value <= MAX_RESPONSE && |rest| >= size.value + 2 {
        OutputBounded(rest[size.value + 2..], out + rest[..size.value]);
      }
    }
  }

  lemma {:induction false} FindMeaning(s: string)
    requires FindCrlf(s) >= 0
    ensures s == s[..FindCrlf(s)] + CRLF + s[FindCrlf(s) + 2..] && NoCrlf(s[..FindCrlf(s)])
  {
    if !(s[0] == '\r' && s[1] == '\n') {
      FindMeaning(s[1..]);
      var i := FindCrlf(s[1..]);
      assert s == [s[0]] + s[1..] && s[..i + 1] == [s[0]] + s[1..][..i] && s[i + 3..] == s[1..][i + 2..];
    }
  }

  /** Nothing else decodes. */
  lemma {:induction false} AcceptsOnlyBodies(input: string, out: string) returns (b: Body)
    requires Dechunk(input, out).Some?
    ensures Readable(b) && Encode(b) == input && Dechunk(input, out).value == out + Content(b.chunks)
    decreases |input|
  {
    hide Readable, Encode, Content, Dechunk;
    var line, data, rest, more := Unread(input, out);
    if data == "" {
      b := Ended(line, rest);
      assert out + "" == out;
    } else {
      b := AcceptsOnlyBodies(more, out + data);
      assert out + data + Content(b.chunks) == out + (data + Content(b.chunks));
      b := Extended(Chunk(line, data), b, more);
    }
  }

  /** One round of the decoder on an accepted input. */
  lemma Unread(input: string, out: string) returns (line: string, data: string, rest: string, more: string)
    requires Dechunk(input, out).Some?
    ensures IsSizeLine(line, |data|)
    ensures data == "" ==> input == line + CRLF + rest && Dechunk(input, out).value == out
    ensures data != "" ==> input == line + CRLF + (data + CRLF + more) && |more| < |input|
                           && Dechunk(input, out) == Dechunk(more, out + data)
  {
    hide FindCrlf, ParseSize, SizeLineAt, NoCrlf;
    var eol := FindCrlf(input);
    line, rest := input[..eol], input[eol + 2..];
    var n := ParseSize(line).value;
    FindMeaning(input);
    ParsedLine(line);
    if n == 0 {
      data, more := "", "";
    } else {
      data, more := rest[..n], rest[n + 2..];
      assert rest == data + CRLF + more;
    }
  }

  lemma Ended(line: string, rest: string) returns (b: Body)
    requires IsSizeLine(line, 0)
    ensures Readable(b) && Encode(b) == line + CRLF + rest && Content(b.chunks) == ""
  {
    b := Body([], line, rest);
  }

  lemma Extended(c: Chunk, b: Body, more: string) returns (r: Body)
    requires Readable(b) && Encode(b) == more && ChunkReadable(c)
    ensures Readable(r) && Encode(r) == c.line + CRLF + (c.data + CRLF + more)
    ensures Content(r.chunks) == c.data + Content(b.chunks)
  {
    hide ChunkReadable, IsSizeLine;
    r := b.(chunks := [c] + b.chunks);
    assert r.(chunks := r.chunks[1..]) == b && r.chunks[1..] == b.chunks;
  }

  ghost predicate SentAs(b: Body, input: string, out: string) {
    Readable(b) && Encode(b) == input && Content(b.chunks) == out
  }

  /** The accepted language and its meaning: an input decodes to `out` exactly when it is a readable
      body with that content and the content is within the limit. */
  lemma DecodesIff(input: string, out: string)
    ensures Dechunk(input, "") == Some(out) <==> |out| <= 65536 && exists b :: SentAs(b, input, out)
  {
    hide Dechunk, Readable, Encode, Content;
    if Dechunk(input, "") == Some(out) {
      OutputBounded(input, "");
      var b := AcceptsOnlyBodies(input, "");
      assert "" + Content(b.chunks) == Content(b.chunks);
      assert SentAs(b, input, out);
    }
    forall b | SentAs(b, input, out) && |out| <= MAX_RESPONSE ensures Dechunk(input, "") == Some(out) {
      DecodesFrom(b, "");
      assert "" + out == out;
    }
  }
}

/** Judging a probe. */
module Alignment {
  import opened Common

  datatype Verdict = FAILED | ALIGNED | MISALIGNED | UNSUPPORTED

  datatype Result = Result(verdict: Verdict, routingPrefix: nat, firstDivergence: nat, ranvierId: int, backendId: int,
                           backendTokens: nat)

  /** Down to a multiple of the block size, unless that is nothing. */
  function AlignDown(p: nat, block: nat): nat {
    if block == 0 then p else if p / block * block == 0 then p else p / block * block
  }

  /** The longest prefix routing could look at, before alignment. */
  function Bound(ranvierTokens: nat, boundary: nat, prefixLength: nat, depth: nat): nat {
    Min(Min(Max(boundary, Min(ranvierTokens, prefixLength)), ranvierTokens), depth)
  }

  function RoutingPrefixTokens(ranvierTokens: nat, boundary: nat, prefixLength: nat, depth: nat, block: nat): nat {
    AlignDown(Bound(ranvierTokens, boundary, prefixLength, depth), block)
  }

  lemma AlignDownMonotone(c: nat, p: nat, block: nat)
    requires c <= p
    ensures AlignDown(c, block) <= AlignDown(p, block)
  {
    if block > 0 {
      if c / block == 0 {
        if p / block > 0 { assert p / block * block >= block; }
      } else {
        QuotientMonotone(c, p, block);
      }
    }
  }

  lemma QuotientMonotone(c: nat, p: nat, block: nat)
    requires c <= p && block > 0
    ensures c / block * block <= p / block * block
  {
    var more := p / block - c / block;
    QuotientGrows(c, p, block);
    assert more * block >= 0;
    assert p / block * block == c / block * block + more * block;
  }

  lemma {:induction false} QuotientGrows(c: nat, p: nat, block: nat)
    requires c <= p && block > 0
    ensures c / block <= p / block
    decreases p
  {
    if c >= block {
      QuotientGrows(c - block, p - block, block);
      OneBlock(c, block);
      OneBlock(p, block);
    }
  }

  lemma OneBlock(p: nat, block: nat)
    requires p >= block > 0
    ensures p / block == (p - block) / block + 1
  {
    var q, r := (p - block) / block, (p - block) % block;
    assert p == (q + 1) * block + r;
    QuotientIs(p, block, q + 1, r);
  }

  lemma QuotientIs(p: nat, block: nat, q: nat, r: nat)
    requires block > 0 && p == q * block + r && r < block
    ensures p / block == q
  {
    assert (p / block - q) * block == r - p % block;
    SmallMultiple(p / block - q, block);
  }

  lemma SmallMultiple(k: int, block: int)
    requires -block < k * block < block
    ensures k == 0
  {
    assert k >= 1 ==> k * block >= block;
    assert k <= -1 ==> k * block <= -block;
  }

  /** The largest multiple of the block size that is not above p, unless that is zero. */
  lemma AlignDownMeaning(p: nat, block: nat)
    ensures block > 0 && p >= block ==>
              AlignDown(p, block) % block == 0 && p - block < AlignDown(p, block) <= p
    ensures block == 0 || p < block ==> AlignDown(p, block) == p
  {
    if block > 0 {
      var q := p / block;
      assert p == q * block + p % block;
      if p >= block {
        QuotientGrows(block, p, block);
        QuotientIs(block, block, 1, 0);
        assert q * block >= block;
        RemainderIs(q, block);
      } else {
        QuotientIs(p, block, 0, p);
      }
    }
  }

  lemma RemainderIs(q: nat, block: nat)
    requires block > 0
    ensures q * block % block == 0
  {
    QuotientIs(q * block, block, q, 0);
  }

  /** Both token lists have a first n tokens, and they are the same. */
  predicate AgreeOn(ranvier: seq<int>, backend: seq<int>, n: nat) {
    n <= |ranvier| && n <= |backend| && ranvier[..n] == backend[..n]
  }

  method Classify(ranvier: seq<int>, backend: seq<int>, routingPrefix: nat) returns (r: Result)
    ensures r.routingPrefix == routingPrefix && r.backendTokens == |backend|
    ensures r.verdict == FAILED <==> routingPrefix == 0 || ranvier == [] || backend == []
    ensures r.verdict == FAILED ==> r.firstDivergence == 0 && r.ranvierId == r.backendId == -1
    ensures r.verdict != FAILED ==> r.verdict == if AgreeOn(ranvier, backend, routingPrefix) then ALIGNED else MISALIGNED
    ensures r.verdict != FAILED ==>
              && AgreeOn(ranvier, backend, r.firstDivergence) && !AgreeOn(ranvier, backend, r.firstDivergence + 1)
              && r.ranvierId == (if r.firstDivergence < |ranvier| then ranvier[r.firstDivergence] else -1)
              && r.backendId == (if r.firstDivergence < |backend| then backend[r.firstDivergence] else -1)
  {
    r := Result(FAILED, routingPrefix, 0, -1, -1, |backend|);
    if routingPrefix == 0 || ranvier == [] || backend == [] { return; }
    var n, d := Min(|ranvier|, |backend|), 0;
    while d < n && ranvier[d] == backend[d]
      invariant d <= n && AgreeOn(ranvier, backend, d)
    {
      AgreeOnMore(ranvier, backend, d);
      d := d + 1;
    }
    r := r.(firstDivergence := d);
    if d < |ranvier| { r := r.(ranvierId := ranvier[d]); }
    if d < |backend| { r := r.(backendId := backend[d]); }
    r := r.(verdict := if d >= routingPrefix then ALIGNED else MISALIGNED);
    DivergesAt(ranvier, backend, d, routingPrefix);
  }

  lemma AgreeOnMore(ranvier: seq<int>, backend: seq<int>, d: nat)
    requires AgreeOn(ranvier, backend, d) && d < |ranvier| && d < |backend| && ranvier[d] == backend[d]
    ensures AgreeOn(ranvier, backend, d + 1)
  {
    assert ranvier[..d + 1] == ranvier[..d] + [ranvier[d]] && backend[..d + 1] == backend[..d] + [backend[d]];
  }

  lemma AgreeOnLess(ranvier: seq<int>, backend: seq<int>, m: nat, n: nat)
    requires AgreeOn(ranvier, backend, n) && m <= n
    ensures AgreeOn(ranvier, backend, m)
  {
    assert ranvier[..m] == ranvier[..n][..m] && backend[..m] == backend[..n][..m];
  }

  lemma DivergesAt(ranvier: seq<int>, backend: seq<int>, d: nat, n: nat)
    requires AgreeOn(ranvier, backend, d)
    requires d == |ranvier| || d == |backend| || ranvier[d] != backend[d]
    ensures !AgreeOn(ranvier, backend, d + 1) && (AgreeOn(ranvier, backend, n) <==> n <= d)
  {
    if d < |ranvier| && d < |backend| { assert ranvier[..d + 1][d] != backend[..d + 1][d]; }
    if AgreeOn(ranvier, backend, n) && n > d { AgreeOnLess(ranvier, backend, d + 1, n); }
    if n <= d { AgreeOnLess(ranvier, backend, n, d); }
  }

  /** An aligned verdict at the computed routing prefix means: whatever prefix routing may hash,
      aligned down as the hash does, both sides hash the same tokens. And conversely. */
  lemma AlignedIffRoutingAgrees(ranvier: seq<int>, backend: seq<int>, boundary: nat, prefixLength: nat, depth: nat, block: nat)
    ensures AgreeOn(ranvier, backend, RoutingPrefixTokens(|ranvier|, boundary, prefixLength, depth, block)) <==>
            forall c: nat :: c <= Bound(|ranvier|, boundary, prefixLength, depth) ==>
              AgreeOn(ranvier, backend, AlignDown(c, block))
  {
    var p := Bound(|ranvier|, boundary, prefixLength, depth);
    if AgreeOn(ranvier, backend, AlignDown(p, block)) {
      forall c: nat | c <= p ensures AgreeOn(ranvier, backend, AlignDown(c, block)) {
        AlignDownMonotone(c, p, block);
        AgreeOnLess(ranvier, backend, AlignDown(c, block), AlignDown(p, block));
      }
    }
  }

  /** Both choices routing makes lie within the bound, cut to the indexed depth. */
  lemma ChoicesWithinBound(ranvierTokens: nat, boundary: nat, prefixLength: nat, depth: nat)
    requires boundary <= ranvierTokens
    ensures Min(boundary, depth) <= Bound(ranvierTokens, boundary, prefixLength, depth)
    ensures Min(Min(ranvierTokens, prefixLength), depth) <= Bound(ranvierTokens, boundary, prefixLength, depth)
  {}

  lemma AlignDownMax(a: nat, b: nat, block: nat)
    ensures AlignDown(Max(a, b), block) == Max(AlignDown(a, block), AlignDown(b, block))
  {
    if a <= b { AlignDownMonotone(a, b, block); } else { AlignDownMonotone(b, a, block); }
  }

  /** Routing hashes the prefix up to the boundary or the one of the configured length, each cut to
      the tokens there are and to the indexed depth, and aligned down. The computed prefix is the
      longer of the two. */
  lemma PrefixIsLongerChoice(ranvierTokens: nat, boundary: nat, prefixLength: nat, depth: nat, block: nat)
    ensures RoutingPrefixTokens(ranvierTokens, boundary, prefixLength, depth, block) ==
            Max(AlignDown(Min(Min(boundary, ranvierTokens), depth), block),
                AlignDown(Min(Min(ranvierTokens, prefixLength), depth), block))
  {
    AlignDownMax(Min(Min(boundary, ranvierTokens), depth), Min(Min(ranvierTokens, prefixLength), depth), block);
  }

  /** So both sides agree on the computed prefix exactly when they agree on what routing hashes
      under either choice. */
  lemma RoutingAgreesIff(ranvier: seq<int>, backend: seq<int>, boundary: nat, prefixLength: nat, depth: nat, block: nat)
    ensures AgreeOn(ranvier, backend, RoutingPrefixTokens(|ranvier|, boundary, prefixLength, depth, block)) <==>
            && AgreeOn(ranvier, backend, AlignDown(Min(Min(boundary, |ranvier|), depth), block))
            && AgreeOn(ranvier, backend, AlignDown(Min(Min(|ranvier|, prefixLength), depth), block))
  {
    hide AlignDown, AgreeOn, RoutingPrefixTokens;
    PrefixIsLongerChoice(|ranvier|, boundary, prefixLength, depth, block);
    var a, b := AlignDown(Min(Min(boundary, |ranvier|), depth), block), AlignDown(Min(Min(|ranvier|, prefixLength), depth), block);
    if AgreeOn(ranvier, backend, Max(a, b)) {
      AgreeOnLess(ranvier, backend, a, Max(a, b));
      AgreeOnLess(ranvier, backend, b, Max(a, b));
    }
  }

  /** The values the source's own examples give. */
  lemma PrefixExamples()
    ensures RoutingPrefixTokens(190, 150, 128, 2048, 16) == 144
    ensures RoutingPrefixTokens(190, 40, 128, 2048, 16) == RoutingPrefixTokens(190, 0, 128, 2048, 16) == 128
    ensures RoutingPrefixTokens(190, 150, 128, 64, 16) == 64 && RoutingPrefixTokens(100, 0, 128, 2048, 16) == 96
    ensures RoutingPrefixTokens(10, 0, 128, 2048, 16) == 10
  {}
}
