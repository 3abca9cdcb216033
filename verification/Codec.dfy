/** Big-endian integers (src/byte_order.hpp) and the two's-complement casts of the packet codecs. */
module ByteOrder {

  type byte = x: int | 0 <= x < 0x100
  type u16 = x: int | 0 <= x < 0x1_0000
  type u32 = x: int | 0 <= x < 0x1_0000_0000
  type u64 = x: int | 0 <= x < 0x1_0000_0000_0000_0000
  type i32 = x: int | -0x8000_0000 <= x < 0x8000_0000

  function AsU32(v: i32): u32 { if v < 0 then v + 0x1_0000_0000 else v }
  function AsI32(v: u32): i32 { if v >= 0x8000_0000 then v - 0x1_0000_0000 else v }

  function Pow256(n: nat): nat { if n == 0 then 1 else 256 * Pow256(n - 1) }

  /** The n low-order bytes of v, most significant first. */
  function Bytes(v: nat, n: nat): (s: seq<byte>)
    ensures |s| == n
  {
    if n == 0 then [] else Bytes(v / 256, n - 1) + [v % 256]
  }

  function Value(s: seq<byte>): nat { if s == [] then 0 else 256 * Value(s[..|s| - 1]) + s[|s| - 1] }

  lemma {:induction false} ValueOfBytes(v: nat, n: nat)
    requires v < Pow256(n)
    ensures Value(Bytes(v, n)) == v
  {
    if n > 0 {
      ValueOfBytes(v / 256, n - 1);
      assert Bytes(v, n)[..n - 1] == Bytes(v / 256, n - 1);
    }
  }

  lemma {:induction false} BytesOfValue(s: seq<byte>)
    ensures Bytes(Value(s), |s|) == s && Value(s) < Pow256(|s|)
  {
    if s != [] {
      BytesOfValue(s[..|s| - 1]);
      assert s == s[..|s| - 1] + [s[|s| - 1]];
    }
  }

  lemma Widths()
    ensures Pow256(2) == 0x1_0000 && Pow256(4) == 0x1_0000_0000 && Pow256(8) == 0x1_0000_0000_0000_0000
  {
    assert Pow256(1) == 256;
    assert Pow256(3) == 256 * Pow256(2) && Pow256(5) == 256 * Pow256(4);
    assert Pow256(6) == 256 * Pow256(5) && Pow256(7) == 256 * Pow256(6);
  }

  method WriteU16(buf: seq<byte>, v: u16) returns (r: seq<byte>)
    ensures r == buf + Bytes(v, 2)
  {
    Unfold2(v);
    r := buf + [v / 0x100 % 0x100];
    r := r + [v % 0x100];
  }

  method WriteU32(buf: seq<byte>, v: u32) returns (r: seq<byte>)
    ensures r == buf + Bytes(v, 4)
  {
    Unfold4(v);
    r := buf + [v / 0x100_0000 % 0x100];
    r := r + [v / 0x1_0000 % 0x100];
    r := r + [v / 0x100 % 0x100];
    r := r + [v % 0x100];
  }

  method WriteU64(buf: seq<byte>, v: u64) returns (r: seq<byte>)
    ensures r == buf + Bytes(v, 8)
  {
    Unfold8(v);
    r := buf + [v / 0x100_0000_0000_0000 % 0x100];
    r := r + [v / 0x1_0000_0000_0000 % 0x100];
    r := r + [v / 0x100_0000_0000 % 0x100];
    r := r + [v / 0x1_0000_0000 % 0x100];
    r := r + [v / 0x100_0000 % 0x100];
    r := r + [v / 0x1_0000 % 0x100];
    r := r + [v / 0x100 % 0x100];
    r := r + [v % 0x100];
  }

  lemma Unfold2(v: nat)
    ensures Bytes(v, 2) == [v / 0x100 % 0x100, v % 0x100]
  {
    assert Bytes(v / 256, 1) == Bytes(v / 256 / 256, 0) + [v / 256 % 256];
  }

  lemma Unfold4(v: nat)
    ensures Bytes(v, 4) == [v / 0x100_0000 % 0x100, v / 0x1_0000 % 0x100, v / 0x100 % 0x100, v % 0x100]
  {
    var w := v / 0x1_0000;
    assert w == v / 256 / 256 && w / 0x100 == v / 0x100_0000;
    Unfold2(w);
    assert Bytes(v, 4) == Bytes(w, 2) + [v / 256 % 256] + [v % 256];
  }

  lemma Unfold8(v: nat)
    ensures Bytes(v, 8) == [v / 0x100_0000_0000_0000 % 0x100, v / 0x1_0000_0000_0000 % 0x100,
                            v / 0x100_0000_0000 % 0x100, v / 0x1_0000_0000 % 0x100, v / 0x100_0000 % 0x100,
                            v / 0x1_0000 % 0x100, v / 0x100 % 0x100, v % 0x100]
  {
    var w := v / 0x1_0000_0000;
    HighWord(v);
    Unfold4(w);
    Unfold4(v);
    SplitBytes(v);
  }

  lemma HighWord(v: nat)
    ensures var w := v / 0x1_0000_0000;
            && w / 0x100_0000 == v / 0x100_0000_0000_0000 && w / 0x1_0000 == v / 0x1_0000_0000_0000
            && w / 0x100 == v / 0x100_0000_0000 && w == v / 256 / 256 / 256 / 256
  {}

  lemma SplitBytes(v: nat)
    ensures Bytes(v, 8) == Bytes(v / 0x1_0000_0000, 4) + Bytes(v, 4)
  {
    var a, b, c, d := v / 256, v / 256 / 256, v / 256 / 256 / 256, v / 256 / 256 / 256 / 256;
    HighWord(v);
    assert Bytes(v, 8) == Bytes(a, 7) + [v % 256] && Bytes(a, 7) == Bytes(b, 6) + [a % 256];
    assert Bytes(b, 6) == Bytes(c, 5) + [b % 256] && Bytes(c, 5) == Bytes(d, 4) + [c % 256];
    assert Bytes(v, 4) == Bytes(a, 3) + [v % 256] && Bytes(a, 3) == Bytes(b, 2) + [a % 256];
    assert Bytes(b, 2) == Bytes(c, 1) + [b % 256] && Bytes(c, 1) == Bytes(d, 0) + [c % 256];
  }

  lemma Fold2(p: seq<byte>)
    requires |p| == 2
    ensures Value(p) == (p[0] as int) * 0x100 + p[1]
  {
    hide Value;
    NoBytes();
    ValueSnoc([], p[0]);
    ValueSnoc([p[0]], p[1]);
    assert [] + [p[0]] == [p[0]] && p == [p[0]] + [p[1]];
  }

  method ReadU16(p: seq<byte>) returns (v: u16)
    requires |p| == 2
    ensures v == Value(p)
  {
    Fold2(p);
    v := (p[0] as int) * 0x100 + p[1];
  }

  method ReadU32(p: seq<byte>) returns (v: u32)
    requires |p| == 4
    ensures v == Value(p)
  {
    Fold4(p);
    v := (p[0] as int) * 0x100_0000 + (p[1] as int) * 0x1_0000 + (p[2] as int) * 0x100 + p[3];
  }

  lemma NoBytes()
    ensures Value([]) == 0
  {}

  lemma ValueSnoc(s: seq<byte>, b: byte)
    ensures Value(s + [b]) == 256 * Value(s) + b
  {
    assert (s + [b])[..|s|] == s;
  }

  lemma Fold4(p: seq<byte>)
    requires |p| == 4
    ensures Value(p) == (p[0] as int) * 0x100_0000 + (p[1] as int) * 0x1_0000 + (p[2] as int) * 0x100 + p[3]
  {
    hide Value;
    NoBytes();
    ValueSnoc([], p[0]);
    ValueSnoc([p[0]], p[1]);
    ValueSnoc([p[0], p[1]], p[2]);
    ValueSnoc([p[0], p[1], p[2]], p[3]);
    assert [] + [p[0]] == [p[0]] && [p[0]] + [p[1]] == [p[0], p[1]];
    assert [p[0], p[1]] + [p[2]] == [p[0], p[1], p[2]] && p == [p[0], p[1], p[2]] + [p[3]];
  }

  method ReadU64(p: seq<byte>) returns (v: u64)
    requires |p| == 8
    ensures v == Value(p)
  {
    Fold8(p);
    v := (p[0] as int) * 0x100_0000_0000_0000 + (p[1] as int) * 0x1_0000_0000_0000 + (p[2] as int) * 0x100_0000_0000 + (p[3] as int) * 0x1_0000_0000
       + (p[4] as int) * 0x100_0000 + (p[5] as int) * 0x1_0000 + (p[6] as int) * 0x100 + p[7];
  }

  lemma Fold8(p: seq<byte>)
    requires |p| == 8
    ensures Value(p) == (p[0] as int) * 0x100_0000_0000_0000 + (p[1] as int) * 0x1_0000_0000_0000 + (p[2] as int) * 0x100_0000_0000
                      + (p[3] as int) * 0x1_0000_0000 + (p[4] as int) * 0x100_0000 + (p[5] as int) * 0x1_0000 + (p[6] as int) * 0x100 + p[7]
  {
    Fold4(p[..4]);
    hide Value;
    ValueSnoc(p[..4], p[4]);
    ValueSnoc(p[..5], p[5]);
    ValueSnoc(p[..6], p[6]);
    ValueSnoc(p[..7], p[7]);
    assert p[..4] + [p[4]] == p[..5] && p[..5] + [p[5]] == p[..6] && p[..6] + [p[6]] == p[..7] && p[..7] + [p[7]] == p;
  }

  // ---- Arrays of fixed-width words ----

  function Pack(ws: seq<nat>, n: nat): seq<byte> { if ws == [] then [] else Bytes(ws[0], n) + Pack(ws[1..], n) }

  function Unpack(d: seq<byte>, n: nat): seq<nat>
    requires n > 0
  {
    if |d| < n then [] else [Value(d[..n])] + Unpack(d[n..], n)
  }

  predicate Fit(ws: seq<nat>, n: nat) { forall i :: 0 <= i < |ws| ==> ws[i] < Pow256(n) }

  lemma {:induction false} PackSize(ws: seq<nat>, n: nat)
    ensures |Pack(ws, n)| == |ws| * n
  {
    if ws != [] {
      PackSize(ws[1..], n);
      assert |ws| * n == n + (|ws| - 1) * n;
    }
  }

  lemma {:induction false} PackSnoc(ws: seq<nat>, w: nat, n: nat)
    ensures Pack(ws + [w], n) == Pack(ws, n) + Bytes(w, n)
  {
    if ws == [] {
      assert ws + [w] == [w];
    } else {
      assert (ws + [w])[1..] == ws[1..] + [w];
      PackSnoc(ws[1..], w, n);
    }
  }

  lemma {:induction false} UnpackPack(ws: seq<nat>, n: nat)
    requires n > 0 && Fit(ws, n)
    ensures Unpack(Pack(ws, n), n) == ws
  {
    if ws != [] {
      ValueOfBytes(ws[0], n);
      assert Pack(ws, n)[..n] == Bytes(ws[0], n) && Pack(ws, n)[n..] == Pack(ws[1..], n);
      UnpackPack(ws[1..], n);
    }
  }

  lemma {:induction false} PackUnpack(d: seq<byte>, n: nat, k: nat)
    requires n > 0 && |d| == k * n
    ensures Pack(Unpack(d, n), n) == d && |Unpack(d, n)| == k
    ensures Fit(Unpack(d, n), n)
  {
    if k > 0 {
      assert k * n == n + (k - 1) * n && |d| >= n;
      PackUnpack(d[n..], n, k - 1);
      BytesOfValue(d[..n]);
      assert d == d[..n] + d[n..];
    } else {
      assert d == [];
    }
  }

  /** One more word read at its offset. */
  lemma {:induction false} UnpackSnoc(d: seq<byte>, n: nat, k: nat)
    requires n > 0 && |d| == (k + 1) * n
    ensures k * n + n == |d| && Unpack(d, n) == Unpack(d[..k * n], n) + [Value(d[k * n..])]
  {
    assert (k + 1) * n == k * n + n;
    if k == 0 {
      assert d[..n] == d && d[0..] == d;
    } else {
      assert k * n == n + (k - 1) * n;
      UnpackSnoc(d[n..], n, k - 1);
      assert d[..k * n][n..] == d[n..][..(k - 1) * n] && d[..k * n][..n] == d[..n];
      assert d[n..][(k - 1) * n..] == d[k * n..];
    }
  }
}

/** The two reliable gossip packets on the wire (src/gossip_protocol.cpp): route announcements and
    cache evictions. */
module GossipCodec {
  import opened ByteOrder
  import opened Common

  const ROUTE: byte := 1
  const EVICTION: byte := 5
  const VERSION: byte := 2
  const MAX_TOKENS := 256

  function Word32(s: seq<byte>): u32
    requires |s| == 4
  {
    Widths(); BytesOfValue(s); Value(s)
  }

  function Word64(s: seq<byte>): u64
    requires |s| == 8
  {
    Widths(); BytesOfValue(s); Value(s)
  }

  lemma Word32RoundTrip(v: u32)
    ensures Word32(Bytes(v, 4)) == v
  {
    Widths();
    ValueOfBytes(v, 4);
  }

  /** Both reliable packets start alike: type, version, sequence number, backend. */
  function Header(kind: byte, seqNum: u32, backend: i32): (h: seq<byte>)
    ensures |h| == 10
  {
    [kind, VERSION] + Bytes(seqNum, 4) + Bytes(AsU32(backend), 4)
  }

  lemma HeaderFields(kind: byte, seqNum: u32, backend: i32, rest: seq<byte>)
    ensures var d := Header(kind, seqNum, backend) + rest;
            && d[0] == kind && d[1] == VERSION && d[10..] == rest
            && Word32(d[2..6]) == seqNum && AsI32(Word32(d[6..10])) == backend
  {
    var d := Header(kind, seqNum, backend) + rest;
    assert d[2..6] == Bytes(seqNum, 4) && d[6..10] == Bytes(AsU32(backend), 4);
    Word32RoundTrip(seqNum);
    Word32RoundTrip(AsU32(backend));
  }

  lemma HeaderRebuilt(d: seq<byte>)
    requires |d| >= 10 && d[1] == VERSION
    ensures d == Header(d[0], Word32(d[2..6]), AsI32(Word32(d[6..10]))) + d[10..]
  {
    BytesOfValue(d[2..6]);
    BytesOfValue(d[6..10]);
    assert d == [d[0], d[1]] + d[2..6] + d[6..10] + d[10..];
  }

  // ---- Sequence-number stamping ----

  function Stamp(buf: seq<byte>, seqNum: u32): seq<byte>
    requires |buf| >= 6
  {
    buf[2 := seqNum / 0x100_0000 % 0x100][3 := seqNum / 0x1_0000 % 0x100]
       [4 := seqNum / 0x100 % 0x100][5 := seqNum % 0x100]
  }

  /** Stamping bytes 2 to 5 of a serialized packet is serializing it with that number. */
  lemma StampIsHeader(kind: byte, was: u32, seqNum: u32, backend: i32, rest: seq<byte>)
    ensures Stamp(Header(kind, was, backend) + rest, seqNum) == Header(kind, seqNum, backend) + rest
  {
    Unfold4(seqNum);
    Unfold4(was);
  }

  // ---- Route announcements ----

  datatype Route = Route(seqNum: u32, backend: i32, tokens: seq<i32>)

  function AsWords(ts: seq<i32>): (ws: seq<nat>)
    ensures |ws| == |ts| && forall i :: 0 <= i < |ts| ==> ws[i] == AsU32(ts[i])
  {
    if ts == [] then [] else [AsU32(ts[0]) as nat] + AsWords(ts[1..])
  }

  function AsTokens(ws: seq<nat>): (ts: seq<i32>)
    requires Fit(ws, 4)
    ensures |ts| == |ws| && forall i :: 0 <= i < |ws| ==> AsU32(ts[i]) == ws[i]
  {
    Widths();
    if ws == [] then [] else [AsI32(ws[0])] + AsTokens(ws[1..])
  }

  lemma TokensOfWords(ts: seq<i32>)
    ensures Fit(AsWords(ts), 4) && AsTokens(AsWords(ts)) == ts
  {
    Widths();
    var again := AsTokens(AsWords(ts));
    assert forall i :: 0 <= i < |ts| ==> AsU32(again[i]) == AsU32(ts[i]);
  }

  lemma WordsOfTokens(ws: seq<nat>)
    requires Fit(ws, 4)
    ensures AsWords(AsTokens(ws)) == ws
  {}

  function EncodeRoute(p: Route): seq<byte> {
    var count := Min(|p.tokens|, MAX_TOKENS);
    Header(ROUTE, p.seqNum, p.backend) + (Bytes(count, 2) + Pack(AsWords(p.tokens[..count]), 4))
  }

  function DecodeRoute(d: seq<byte>): Option<Route> {
    if |d| < 12 || d[0] != ROUTE || d[1] != VERSION then None
    else
      var count := Value(d[10..12]);
      if |d| != 12 + count * 4 || count > MAX_TOKENS then None
      else
        PackUnpack(d[12..], 4, count);
        Some(Route(Word32(d[2..6]), AsI32(Word32(d[6..10])), AsTokens(Unpack(d[12..], 4))))
  }

  /** Decoding undoes encoding, up to the truncation at the token limit. */
  lemma RouteRoundTrip(p: Route)
    ensures DecodeRoute(EncodeRoute(p)) == Some(p.(tokens := p.tokens[..Min(|p.tokens|, MAX_TOKENS)]))
    ensures |p.tokens| <= MAX_TOKENS ==> DecodeRoute(EncodeRoute(p)) == Some(p)
  {
    var count := Min(|p.tokens|, MAX_TOKENS);
    var d, ts := EncodeRoute(p), p.tokens[..count];
    var body := Bytes(count, 2) + Pack(AsWords(ts), 4);
    HeaderFields(ROUTE, p.seqNum, p.backend, body);
    PackSize(AsWords(ts), 4);
    Widths();
    ValueOfBytes(count, 2);
    assert d[10..12] == d[10..][..2] == Bytes(count, 2) && d[12..] == d[10..][2..] == Pack(AsWords(ts), 4);
    TokensOfWords(ts);
    UnpackPack(AsWords(ts), 4);
    assert |p.tokens| <= MAX_TOKENS ==> ts == p.tokens;
  }

  /** Every accepted byte string is the encoding of what it decodes to: with the round trip,
      announcements of at most MAX_TOKENS tokens are in bijection with the accepted strings. */
  lemma RouteOnto(d: seq<byte>)
    requires DecodeRoute(d).Some?
    ensures EncodeRoute(DecodeRoute(d).value) == d && |DecodeRoute(d).value.tokens| <= MAX_TOKENS
  {
    var count, p := Value(d[10..12]), DecodeRoute(d).value;
    PackUnpack(d[12..], 4, count);
    WordsOfTokens(Unpack(d[12..], 4));
    BytesOfValue(d[10..12]);
    HeaderRebuilt(d);
    assert d[10..] == d[10..12] + d[12..] && p.tokens[..count] == p.tokens;
  }

  lemma StampedRoute(p: Route, seqNum: u32)
    ensures Stamp(EncodeRoute(p.(seqNum := 0)), seqNum) == EncodeRoute(p.(seqNum := seqNum))
  {
    var count := Min(|p.tokens|, MAX_TOKENS);
    StampIsHeader(ROUTE, 0, seqNum, p.backend, Bytes(count, 2) + Pack(AsWords(p.tokens[..count]), 4));
  }

  method SerializeRoute(p: Route) returns (buf: seq<byte>)
    ensures buf == EncodeRoute(p)
  {
    hide Bytes, Pack;
    buf := [ROUTE, VERSION];
    buf := WriteU32(buf, p.seqNum);
    buf := WriteU32(buf, AsU32(p.backend));
    var count: u16 := Min(|p.tokens|, MAX_TOKENS);
    buf := WriteU16(buf, count);
    buf := WriteTokens(buf, p.tokens[..count]);
  }

  method WriteTokens(buf: seq<byte>, ts: seq<i32>) returns (r: seq<byte>)
    ensures r == buf + Pack(AsWords(ts), 4)
  {
    hide Bytes;
    ghost var words := AsWords(ts);
    r := buf;
    for i := 0 to |ts|
      invariant r == buf + Pack(words[..i], 4)
    {
      assert words[..i + 1] == words[..i] + [words[i]];
      PackSnoc(words[..i], words[i], 4);
      r := WriteU32(r, AsU32(ts[i]));
    }
    assert words[..|ts|] == words;
  }

  method DeserializeRoute(d: seq<byte>) returns (r: Option<Route>)
    ensures r == DecodeRoute(d)
  {
    if |d| < 12 { return None; }
    if d[0] != ROUTE || d[1] != VERSION { return None; }
    var seqNum := ReadU32(d[2..6]);
    var backend := ReadU32(d[6..10]);
    var count := ReadU16(d[10..12]);
    if |d| != 12 + count * 4 || count > MAX_TOKENS { return None; }
    PackUnpack(d[12..], 4, count);
    var tokens := ReadTokens(d[12..], count);
    TokensOfWords(tokens);
    r := Some(Route(seqNum, AsI32(backend), tokens));
  }

  method ReadTokens(body: seq<byte>, count: nat) returns (tokens: seq<i32>)
    requires |body| == count * 4
    ensures AsWords(tokens) == Unpack(body, 4)
  {
    hide Value;
    tokens := [];
    for i := 0 to count
      invariant AsWords(tokens) == Unpack(body[..i * 4], 4)
    {
      UnpackSnoc(body[..i * 4 + 4], 4, i);
      assert body[..i * 4 + 4][..i * 4] == body[..i * 4];
      assert body[..i * 4 + 4][i * 4..] == body[i * 4..i * 4 + 4];
      var w := ReadU32(body[i * 4..i * 4 + 4]);
      WordsSnoc(tokens, AsI32(w));
      tokens := tokens + [AsI32(w)];
    }
    assert body[..count * 4] == body;
  }

  lemma {:induction false} WordsSnoc(ts: seq<i32>, t: i32)
    ensures AsWords(ts + [t]) == AsWords(ts) + [AsU32(t)]
  {}

  // ---- Cache evictions ----

  datatype Eviction = Eviction(seqNum: u32, backend: i32, prefixHash: u64)

  function EncodeEviction(p: Eviction): seq<byte> { Header(EVICTION, p.seqNum, p.backend) + Bytes(p.prefixHash, 8) }

  function DecodeEviction(d: seq<byte>): Option<Eviction> {
    if |d| != 18 || d[0] != EVICTION || d[1] != VERSION then None
    else Some(Eviction(Word32(d[2..6]), AsI32(Word32(d[6..10])), Word64(d[10..])))
  }

  lemma EvictionRoundTrip(p: Eviction)
    ensures DecodeEviction(EncodeEviction(p)) == Some(p)
  {
    HeaderFields(EVICTION, p.seqNum, p.backend, Bytes(p.prefixHash, 8));
    Widths();
    ValueOfBytes(p.prefixHash, 8);
  }

  lemma EvictionOnto(d: seq<byte>)
    requires DecodeEviction(d).Some?
    ensures EncodeEviction(DecodeEviction(d).value) == d
  {
    HeaderRebuilt(d);
    BytesOfValue(d[10..]);
  }

  lemma StampedEviction(p: Eviction, seqNum: u32)
    ensures Stamp(EncodeEviction(p.(seqNum := 0)), seqNum) == EncodeEviction(p.(seqNum := seqNum))
  {
    StampIsHeader(EVICTION, 0, seqNum, p.backend, Bytes(p.prefixHash, 8));
  }

  method SerializeEviction(p: Eviction) returns (buf: seq<byte>)
    ensures buf == EncodeEviction(p)
  {
    buf := [EVICTION, VERSION];
    buf := WriteU32(buf, p.seqNum);
    buf := WriteU32(buf, AsU32(p.backend));
    buf := WriteU64(buf, p.prefixHash);
  }

  method DeserializeEviction(d: seq<byte>) returns (r: Option<Eviction>)
    ensures r == DecodeEviction(d)
  {
    if |d| != 18 { return None; }
    if d[0] != EVICTION || d[1] != VERSION { return None; }
    var seqNum := ReadU32(d[2..6]);
    var backend := ReadU32(d[6..10]);
    assert d[10..18] == d[10..];
    var hash := ReadU64(d[10..18]);
    r := Some(Eviction(seqNum, AsI32(backend), hash));
  }
}
