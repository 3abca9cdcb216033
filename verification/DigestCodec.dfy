/** Hot-prefix digests on the wire (src/gossip_protocol.cpp): a list of prefix hashes and, as a
    bitmap over that list, the ones verified resident. */
module DigestCodec {
  import opened ByteOrder
  import opened Common
  import opened GossipCodec

  const DIGEST: byte := 7
  const MAX_HASHES := 128

  datatype Digest = Digest(version: byte, backend: i32, hashes: seq<u64>, verified: seq<u64>)

  // ---- Bits of a byte, least significant first ----

  predicate TestBit(x: nat, k: nat) { if k == 0 then x % 2 == 1 else TestBit(x / 2, k - 1) }

  function SetBit(x: nat, k: nat): nat { if k == 0 then x - x % 2 + 1 else x % 2 + 2 * SetBit(x / 2, k - 1) }

  lemma {:induction false} TestSetBit(x: nat, k: nat, j: nat)
    ensures TestBit(SetBit(x, k), j) <==> j == k || TestBit(x, j)
  {
    if k > 0 && j > 0 { TestSetBit(x / 2, k - 1, j - 1); }
  }

  lemma {:induction false} SetBitBound(x: nat, k: nat, m: nat)
    requires x < Pow2(m) && k < m
    ensures SetBit(x, k) < Pow2(m)
  {
    var half := Pow2(m - 1);
    assert x / 2 <= half - 1;
    if k == 0 {
      assert SetBit(x, k) == 2 * (x / 2) + 1;
    } else {
      SetBitBound(x / 2, k - 1, m - 1);
    }
  }

  lemma {:induction false} NoBitsInZero(k: nat)
    ensures !TestBit(0, k)
  {
    if k > 0 { NoBitsInZero(k - 1); }
  }

  function SetInByte(x: byte, k: nat): byte
    requires k < 8
  {
    assert Pow2(8) == 256 by { assert Pow2(4) == 16; assert Pow2(7) == 8 * Pow2(4); }
    SetBitBound(x, k, 8);
    SetBit(x, k)
  }

  // ---- The bitmap ----

  function BitmapSize(count: nat): nat { (count + 7) / 8 }

  predicate Flag(bm: seq<byte>, i: nat)
    requires i / 8 < |bm|
  {
    TestBit(bm[i / 8], i % 8)
  }

  /** Bit i says whether the i-th hash is in the set, and no bit beyond the hashes is set. */
  ghost predicate IsBitmap(bm: seq<byte>, hashes: seq<u64>, s: set<u64>) {
    && |bm| == BitmapSize(|hashes|)
    && forall i :: 0 <= i < 8 * |bm| ==> (Flag(bm, i) <==> i < |hashes| && hashes[i] in s)
  }

  ghost predicate BitmapSoFar(bm: seq<byte>, hashes: seq<u64>, s: set<u64>, n: nat) {
    && |bm| == BitmapSize(|hashes|) && n <= |hashes|
    && forall i :: 0 <= i < 8 * |bm| ==> (Flag(bm, i) <==> i < n && hashes[i] in s)
  }

  function WithFlag(bm: seq<byte>, n: nat): seq<byte>
    requires n / 8 < |bm|
  {
    bm[n / 8 := SetInByte(bm[n / 8], n % 8)]
  }

  lemma FlagSet(bm: seq<byte>, n: nat, i: nat)
    requires n / 8 < |bm| && i / 8 < |bm|
    ensures Flag(WithFlag(bm, n), i) <==> i == n || Flag(bm, i)
  {
    if i / 8 == n / 8 {
      TestSetBit(bm[n / 8], n % 8, i % 8);
      assert i == n <==> i % 8 == n % 8;
    }
  }

  lemma NextFlag(bm: seq<byte>, hashes: seq<u64>, s: set<u64>, n: nat)
    requires BitmapSoFar(bm, hashes, s, n) && n < |hashes|
    ensures n / 8 < |bm|
    ensures BitmapSoFar(if hashes[n] in s then WithFlag(bm, n) else bm, hashes, s, n + 1)
  {
    if hashes[n] in s {
      forall i | 0 <= i < 8 * |bm| ensures Flag(WithFlag(bm, n), i) <==> i < n + 1 && hashes[i] in s {
        FlagSet(bm, n, i);
      }
    }
  }

  lemma NoFlags(size: nat, i: nat)
    requires i / 8 < size
    ensures !Flag(seq(size, _ => 0), i)
  {
    NoBitsInZero(i % 8);
  }

  method WriteBitmap(hashes: seq<u64>, verified: seq<u64>) returns (bm: seq<byte>)
    ensures IsBitmap(bm, hashes, Elements(verified))
  {
    hide TestBit, SetBit;
    var s := Elements(verified);
    bm := seq(BitmapSize(|hashes|), _ => 0);
    forall i | 0 <= i < 8 * |bm| ensures !Flag(bm, i) { NoFlags(|bm|, i); }
    for n := 0 to |hashes|
      invariant BitmapSoFar(bm, hashes, s, n)
    {
      NextFlag(bm, hashes, s, n);
      if hashes[n] in s { bm := WithFlag(bm, n); }
    }
  }

  /** The hashes whose bits are set, in membership order. */
  function Pick(hashes: seq<u64>, bm: seq<byte>): seq<u64>
    requires BitmapSize(|hashes|) <= |bm|
  {
    if hashes == [] then []
    else
      var n := |hashes| - 1;
      Pick(hashes[..n], bm) + if Flag(bm, n) then [hashes[n]] else []
  }

  /** The hashes that belong to a set, in membership order. */
  function Filter(hashes: seq<u64>, s: set<u64>): seq<u64> {
    if hashes == [] then []
    else
      var n := |hashes| - 1;
      Filter(hashes[..n], s) + if hashes[n] in s then [hashes[n]] else []
  }

  lemma {:induction false} PickIsFilter(hashes: seq<u64>, bm: seq<byte>, s: set<u64>)
    requires BitmapSize(|hashes|) <= |bm|
    requires forall i :: 0 <= i < |hashes| ==> (Flag(bm, i) <==> hashes[i] in s)
    ensures Pick(hashes, bm) == Filter(hashes, s)
  {
    if hashes != [] {
      var n := |hashes| - 1;
      assert forall i :: 0 <= i < n ==> hashes[..n][i] == hashes[i];
      PickIsFilter(hashes[..n], bm, s);
    }
  }

  ghost predicate AnyFlag(bm: seq<byte>, count: nat)
    requires BitmapSize(count) <= |bm|
  {
    exists i :: 0 <= i < count && Flag(bm, i)
  }

  lemma {:induction false} PickEmptyIff(hashes: seq<u64>, bm: seq<byte>)
    requires BitmapSize(|hashes|) <= |bm|
    ensures Pick(hashes, bm) == [] <==> !AnyFlag(bm, |hashes|)
  {
    if hashes != [] {
      var n := |hashes| - 1;
      PickEmptyIff(hashes[..n], bm);
      assert AnyFlag(bm, n + 1) <==> AnyFlag(bm, n) || Flag(bm, n);
    }
  }

  lemma {:induction false} PickAgrees(hashes: seq<u64>, bm: seq<byte>, x: seq<byte>)
    requires BitmapSize(|hashes|) <= |bm|
    ensures Pick(hashes, bm + x) == Pick(hashes, bm)
  {
    if hashes != [] { PickAgrees(hashes[..|hashes| - 1], bm, x); }
  }

  // ---- Encoding ----

  /** What fits: the first MAX_HASHES hashes. */
  function First(p: Digest): seq<u64> { p.hashes[..Min(|p.hashes|, MAX_HASHES)] }

  function Prefix(version: byte, backend: i32, hashes: seq<u64>): seq<byte> {
    [DIGEST, version] + Bytes(AsU32(backend), 4) + Bytes(|hashes|, 2) + Pack(hashes, 8)
  }

  /** The tail: nothing if no hash is verified, else the bitmap. */
  ghost predicate IsTail(p: Digest, tail: seq<byte>) {
    if p.verified == [] then tail == [] else IsBitmap(tail, First(p), Elements(p.verified))
  }

  /** The bytes are the header and hashes followed by the right tail. */
  ghost predicate Encodes(p: Digest, d: seq<byte>) {
    var head := Prefix(p.version, p.backend, First(p));
    |d| >= |head| && d[..|head|] == head && IsTail(p, d[|head|..])
  }

  method Serialize(p: Digest) returns (d: seq<byte>)
    ensures Encodes(p, d)
  {
    hide Bytes, Pack, IsBitmap;
    var count: u16 := Min(|p.hashes|, MAX_HASHES);
    d := [DIGEST, p.version];
    d := WriteU32(d, AsU32(p.backend));
    d := WriteU16(d, count);
    d := WriteHashes(d, p.hashes[..count]);
    if p.verified != [] {
      var bm := WriteBitmap(p.hashes[..count], p.verified);
      d := d + bm;
    }
  }

  method WriteHashes(buf: seq<byte>, hashes: seq<u64>) returns (r: seq<byte>)
    ensures r == buf + Pack(hashes, 8)
  {
    hide Bytes;
    r := buf;
    for i := 0 to |hashes|
      invariant r == buf + Pack(hashes[..i], 8)
    {
      assert hashes[..i + 1] == hashes[..i] + [hashes[i]];
      PackSnoc(hashes[..i], hashes[i], 8);
      r := WriteU64(r, hashes[i]);
    }
    assert hashes[..|hashes|] == hashes;
  }

  // ---- Decoding ----

  function AsHashes(ws: seq<nat>): (hs: seq<u64>)
    requires Fit(ws, 8)
    ensures hs == ws
  {
    Widths();
    assert forall i :: 0 <= i < |ws| ==> ws[i] < 0x1_0000_0000_0000_0000;
    ws
  }

  /** Whether the bytes after the hashes hold a whole bitmap. */
  predicate HasBitmap(count: nat, tail: seq<byte>) { count > 0 && |tail| >= BitmapSize(count) }

  /** What the bytes after the hashes say is verified. */
  function Verified(hashes: seq<u64>, tail: seq<byte>): seq<u64> {
    if HasBitmap(|hashes|, tail) then Pick(hashes, tail) else []
  }

  /** The bytes hold a header of the right type and all the hashes it declares. */
  predicate Accepted(d: seq<byte>) {
    |d| >= 8 && d[0] == DIGEST && Value(d[6..8]) <= MAX_HASHES && |d| >= 8 + Value(d[6..8]) * 8
  }

  function Need(d: seq<byte>): nat
    requires |d| >= 8
  {
    8 + Value(d[6..8]) * 8
  }

  function HashesIn(d: seq<byte>): (hs: seq<u64>)
    requires Accepted(d)
    ensures |hs| == Value(d[6..8])
  {
    PackUnpack(d[8..Need(d)], 8, Value(d[6..8]));
    AsHashes(Unpack(d[8..Need(d)], 8))
  }

  function Decode(d: seq<byte>): Option<Digest> {
    if !Accepted(d) then None
    else Some(Digest(d[1], AsI32(Word32(d[2..6])), HashesIn(d), Verified(HashesIn(d), d[Need(d)..])))
  }

  method Deserialize(d: seq<byte>) returns (r: Option<Digest>)
    ensures r == Decode(d)
  {
    if |d| < 8 { return None; }
    if d[0] != DIGEST { return None; }
    var backend := ReadU32(d[2..6]);
    var count := ReadU16(d[6..8]);
    if count > MAX_HASHES { return None; }
    if |d| < 8 + count * 8 { return None; }
    var hashes := ReadHashes(d[8..8 + count * 8], count);
    var verified := ReadVerified(hashes, d[8 + count * 8..]);
    r := Some(Digest(d[1], AsI32(backend), hashes, verified));
  }

  method ReadHashes(body: seq<byte>, count: nat) returns (hashes: seq<u64>)
    requires |body| == count * 8
    ensures hashes == Unpack(body, 8)
  {
    hide Value;
    hashes := [];
    for i := 0 to count
      invariant hashes == Unpack(body[..i * 8], 8)
    {
      UnpackSnoc(body[..i * 8 + 8], 8, i);
      assert body[..i * 8 + 8][..i * 8] == body[..i * 8];
      assert body[..i * 8 + 8][i * 8..] == body[i * 8..i * 8 + 8];
      var w := ReadU64(body[i * 8..i * 8 + 8]);
      hashes := hashes + [w];
    }
    assert body[..count * 8] == body;
  }

  method ReadVerified(hashes: seq<u64>, tail: seq<byte>) returns (verified: seq<u64>)
    ensures verified == Verified(hashes, tail)
  {
    verified := [];
    if |hashes| > 0 && |tail| >= BitmapSize(|hashes|) {
      for i := 0 to |hashes|
        invariant verified == Pick(hashes[..i], tail)
      {
        assert hashes[..i + 1][..i] == hashes[..i];
        if TestBit(tail[i / 8], i % 8) { verified := verified + [hashes[i]]; }
      }
      assert hashes[..|hashes|] == hashes;
    }
  }

  // ---- Round trip and forward compatibility ----

  lemma PrefixDecodes(version: byte, backend: i32, hashes: seq<u64>, tail: seq<byte>)
    requires |hashes| <= MAX_HASHES
    ensures Decode(Prefix(version, backend, hashes) + tail) ==
            Some(Digest(version, backend, hashes, Verified(hashes, tail)))
  {
    var d := Prefix(version, backend, hashes) + tail;
    PackSize(hashes, 8);
    Widths();
    ValueOfBytes(|hashes|, 2);
    assert d[2..6] == Bytes(AsU32(backend), 4) && d[6..8] == Bytes(|hashes|, 2);
    Word32RoundTrip(AsU32(backend));
    assert d[8..Need(d)] == Pack(hashes, 8) && d[Need(d)..] == tail;
    UnpackPack(hashes, 8);
  }

  /** A digest decodes to its first MAX_HASHES hashes and exactly the verified ones among them, in
      membership order, whatever order the sender listed them in. */
  lemma DigestRoundTrip(p: Digest, d: seq<byte>)
    requires Encodes(p, d)
    ensures Decode(d) == Some(Digest(p.version, p.backend, First(p), Filter(First(p), Elements(p.verified))))
  {
    var head := Prefix(p.version, p.backend, First(p));
    var tail := d[|head|..];
    assert d == head + tail;
    PrefixDecodes(p.version, p.backend, First(p), tail);
    if p.verified == [] || First(p) == [] {
      FilterNone(First(p), Elements(p.verified));
    } else {
      PickIsFilter(First(p), tail, Elements(p.verified));
    }
  }

  lemma {:induction false} FilterNone(hashes: seq<u64>, s: set<u64>)
    requires hashes == [] || s == {}
    ensures Filter(hashes, s) == []
  {
    if hashes != [] { FilterNone(hashes[..|hashes| - 1], s); }
  }

  /** Appended bytes leave the verified set alone: a bitmap was already there, or there still is
      none, or the bytes taken for one set no bit of a declared hash. */
  ghost predicate Harmless(d: seq<byte>, x: seq<byte>)
    requires Accepted(d)
  {
    var count, tail := Value(d[6..8]), d[Need(d)..];
    HasBitmap(count, tail) || !HasBitmap(count, tail + x) || !AnyFlag(tail + x, count)
  }

  /** Forward compatibility: appending bytes never changes version, backend or hashes, and leaves
      the whole digest unchanged exactly when they are harmless to the bitmap. */
  lemma AppendedBytes(d: seq<byte>, x: seq<byte>)
    requires Accepted(d)
    ensures Decode(d + x).Some?
    ensures Decode(d + x).value.(verified := []) == Decode(d).value.(verified := [])
    ensures Decode(d + x) == Decode(d) <==> Harmless(d, x)
  {
    hide HashesIn, Pick, Value;
    var tail, hashes := d[Need(d)..], HashesIn(d);
    AppendParts(d, x);
    if HasBitmap(|hashes|, tail) {
      PickAgrees(hashes, tail, x);
    } else if HasBitmap(|hashes|, tail + x) {
      PickEmptyIff(hashes, tail + x);
    }
  }

  lemma AppendParts(d: seq<byte>, x: seq<byte>)
    requires Accepted(d)
    ensures Accepted(d + x) && Need(d + x) == Need(d) && HashesIn(d + x) == HashesIn(d) && Need(d) <= |d|
    ensures (d + x)[1] == d[1] && (d + x)[2..6] == d[2..6] && (d + x)[6..8] == d[6..8]
    ensures (d + x)[Need(d)..] == d[Need(d)..] + x
  {
    assert (d + x)[6..8] == d[6..8] && (d + x)[2..6] == d[2..6];
    assert (d + x)[8..Need(d)] == d[8..Need(d)];
    assert (d + x)[Need(d)..] == d[Need(d)..] + x;
  }

  /** One byte appended to a digest without a bitmap can make a hash verified. */
  lemma AppendCreatesVerified(version: byte, backend: i32, h: u64)
    ensures var d := Prefix(version, backend, [h]);
            && Decode(d) == Some(Digest(version, backend, [h], []))
            && Decode(d + [1]) == Some(Digest(version, backend, [h], [h]))
  {
    var d := Prefix(version, backend, [h]);
    PrefixDecodes(version, backend, [h], []);
    PrefixDecodes(version, backend, [h], [1]);
    assert d + [] == d && Flag([1], 0);
    assert Pick([h], [1]) == [h] by { assert [h][..0] == []; }
  }
}
