/** Where every field of the three packets lies on the wire, byte by byte. */
module WireLayout {
  import opened ByteOrder
  import opened Common
  import opened DigestCodec
  import opened GossipCodec

  /** Unsigned big-endian numbers at offset i. */
  function At16(d: seq<byte>, i: nat): int
    requires i + 2 <= |d|
  {
    (d[i] as int) * 0x100 + d[i + 1]
  }

  function At32(d: seq<byte>, i: nat): int
    requires i + 4 <= |d|
  {
    At16(d, i) * 0x1_0000 + At16(d, i + 2)
  }

  function At64(d: seq<byte>, i: nat): int
    requires i + 8 <= |d|
  {
    At32(d, i) * 0x1_0000_0000 + At32(d, i + 4)
  }

  lemma ValueAt16(d: seq<byte>, i: nat)
    requires i + 2 <= |d|
    ensures Value(d[i..i + 2]) == At16(d, i)
  {
    Fold2(d[i..i + 2]);
  }

  lemma ValueAt32(d: seq<byte>, i: nat)
    requires i + 4 <= |d|
    ensures Value(d[i..i + 4]) == At32(d, i)
  {
    Fold4(d[i..i + 4]);
  }

  lemma ValueAt64(d: seq<byte>, i: nat)
    requires i + 8 <= |d|
    ensures Value(d[i..i + 8]) == At64(d, i)
  {
    Fold8(d[i..i + 8]);
  }

  /** The casts keep the 32 bits. */
  lemma SameBits(v: i32, w: u32)
    ensures (v as int) % 0x1_0000_0000 == AsU32(v) && (AsI32(w) as int) % 0x1_0000_0000 == w
  {}

  lemma {:induction false} UnpackAt(d: seq<byte>, n: nat, i: nat, at: nat)
    requires n > 0 && at == i * n && at + n <= |d|
    ensures i < |Unpack(d, n)| && Unpack(d, n)[i] == Value(d[at..at + n])
    decreases i
  {
    hide Value;
    if i > 0 {
      OneWord(i, n);
      UnpackAt(d[n..], n, i - 1, at - n);
      assert d[n..][at - n..at - n + n] == d[at..at + n];
    } else {
      assert d[0..n] == d[..n];
    }
  }

  lemma OneWord(i: nat, n: nat)
    requires i > 0
    ensures i * n >= n && i * n - n == (i - 1) * n
  {}

  /** The common header: the sequence number in bytes 2 to 5, the signed backend in bytes 6 to 9. */
  lemma HeaderLayout(d: seq<byte>)
    requires |d| >= 10
    ensures Word32(d[2..6]) == At32(d, 2) && (AsI32(Word32(d[6..10])) as int) % 0x1_0000_0000 == At32(d, 6)
  {
    ValueAt32(d, 2);
    ValueAt32(d, 6);
    SameBits(0, Word32(d[6..10]));
  }

  /** A route announcement: type 1, version 2, the header, the number of tokens in bytes 10 and 11,
      at most 256, and as many signed tokens of four bytes, and nothing after them. */
  lemma RouteLayout(d: seq<byte>)
    ensures DecodeRoute(d).Some? <==>
            |d| >= 12 && d[0] == 1 && d[1] == 2 && At16(d, 10) <= 256 && |d| == 12 + 4 * At16(d, 10)
    ensures DecodeRoute(d).Some? ==>
              var p := DecodeRoute(d).value;
              && p.seqNum == At32(d, 2) && (p.backend as int) % 0x1_0000_0000 == At32(d, 6)
              && |p.tokens| == At16(d, 10)
              && forall i :: 0 <= i < |p.tokens| ==> (p.tokens[i] as int) % 0x1_0000_0000 == At32(d, 12 + 4 * i)
  {
    hide At16, At32;
    if |d| >= 12 { ValueAt16(d, 10); }
    if DecodeRoute(d).Some? {
      var p, count := DecodeRoute(d).value, Value(d[10..12]);
      HeaderLayout(d);
      PackUnpack(d[12..], 4, count);
      forall i | 0 <= i < count ensures (p.tokens[i] as int) % 0x1_0000_0000 == At32(d, 12 + 4 * i) {
        TokenLayout(d, count, i);
      }
    }
  }

  lemma TokenLayout(d: seq<byte>, count: nat, i: nat)
    requires |d| == 12 + count * 4 && i < count
    ensures |Unpack(d[12..], 4)| == count && Fit(Unpack(d[12..], 4), 4)
    ensures (AsTokens(Unpack(d[12..], 4))[i] as int) % 0x1_0000_0000 == At32(d, 12 + 4 * i)
  {
    hide Unpack, At32;
    PackUnpack(d[12..], 4, count);
    UnpackAt(d[12..], 4, i, i * 4);
    assert d[12..][i * 4..i * 4 + 4] == d[12 + 4 * i..12 + 4 * i + 4];
    ValueAt32(d, 12 + 4 * i);
    SameBits(AsTokens(Unpack(d[12..], 4))[i], 0);
  }

  /** A cache eviction: type 5, version 2, the header, and an eight-byte prefix hash. */
  lemma EvictionLayout(d: seq<byte>)
    ensures DecodeEviction(d).Some? <==> |d| == 18 && d[0] == 5 && d[1] == 2
    ensures DecodeEviction(d).Some? ==>
              var p := DecodeEviction(d).value;
              p.seqNum == At32(d, 2) && (p.backend as int) % 0x1_0000_0000 == At32(d, 6) && p.prefixHash == At64(d, 10)
  {
    hide At32, At64;
    if |d| == 18 {
      HeaderLayout(d);
      ValueAt64(d, 10);
      assert d[10..18] == d[10..];
    }
  }

  lemma {:induction false} BitMeaning(x: nat, k: nat)
    ensures TestBit(x, k) <==> x / Pow2(k) % 2 == 1
  {
    if k > 0 {
      BitMeaning(x / 2, k - 1);
      HalveThenShift(x, Pow2(k - 1));
    }
  }

  lemma HalveThenShift(x: nat, w: nat)
    requires w > 0
    ensures x / 2 / w == x / (2 * w)
  {
    var q, r := x / 2 / w, x / 2 % w;
    assert x / 2 == q * w + r;
    var rest := 2 * r + x % 2;
    assert x == q * (2 * w) + rest && rest < 2 * w;
    Quotient(x, 2 * w, q, rest);
  }

  lemma Quotient(x: nat, w: nat, q: nat, r: nat)
    requires w > 0 && x == q * w + r && r < w
    ensures x / w == q
  {
    var more := x / w - q;
    assert more * w == r - x % w;
    assert more >= 1 ==> more * w >= w;
    assert more <= -1 ==> more * w <= -1 * w;
  }

  lemma {:induction false} PickMember(hashes: seq<u64>, bm: seq<byte>, h: u64)
    requires BitmapSize(|hashes|) <= |bm|
    ensures h in Pick(hashes, bm) <==> exists i :: 0 <= i < |hashes| && hashes[i] == h && Flag(bm, i)
  {
    if hashes != [] {
      var n := |hashes| - 1;
      PickMember(hashes[..n], bm, h);
      assert forall i :: 0 <= i < n ==> hashes[..n][i] == hashes[i];
    }
  }

  /** Hash i is flagged in the bitmap that starts at byte `at`: bit i mod 8, least significant
      first, of byte i div 8. */
  predicate FlaggedAt(d: seq<byte>, at: nat, i: nat)
    requires at + i / 8 < |d|
  {
    d[at + i / 8] / Pow2(i % 8) % 2 == 1
  }

  /** A digest: type 7, any version, the signed backend in bytes 2 to 5, the number of hashes in bytes
      6 and 7, at most 128, and as many hashes of eight bytes. If at least one bit for each of them
      follows, the flagged hashes are the verified ones; otherwise none is. */
  lemma DigestLayout(d: seq<byte>)
    ensures Decode(d).Some? <==> |d| >= 8 && d[0] == 7 && At16(d, 6) <= 128 && |d| >= 8 + 8 * At16(d, 6)
    ensures Decode(d).Some? ==>
              var p, n := Decode(d).value, At16(d, 6);
              && p.version == d[1] && (p.backend as int) % 0x1_0000_0000 == At32(d, 2) && |p.hashes| == n
              && (forall i :: 0 <= i < n ==> p.hashes[i] == At64(d, 8 + 8 * i))
              && (8 * (|d| - 8 - 8 * n) < n ==> p.verified == [])
              && (8 * (|d| - 8 - 8 * n) >= n ==>
                    forall h :: h in p.verified <==>
                                exists i :: 0 <= i < n && p.hashes[i] == h && FlaggedAt(d, 8 + 8 * n, i))
  {
    hide At16, At32, At64, HashesIn, Pick;
    if |d| >= 8 { ValueAt16(d, 6); }
    if Decode(d).Some? {
      var p, n := Decode(d).value, At16(d, 6);
      ValueAt32(d, 2);
      SameBits(0, Word32(d[2..6]));
      forall i | 0 <= i < n ensures p.hashes[i] == At64(d, 8 + 8 * i) { HashLayout(d, n, i); }
      VerifiedLayout(d, n, p.hashes);
    }
  }

  lemma Within(d: seq<byte>, from: nat, size: nat, at: nat, n: nat)
    requires from + size <= |d| && at + n <= size
    ensures d[from..from + size][at..at + n] == d[from + at..from + at + n]
  {
    var inner, outer := d[from..from + size][at..at + n], d[from + at..from + at + n];
    assert forall k :: 0 <= k < n ==> inner[k] == d[from..from + size][at + k] == d[from + at + k] == outer[k];
  }

  lemma HashLayout(d: seq<byte>, n: nat, i: nat)
    requires Accepted(d) && n == Value(d[6..8]) && i < n
    ensures HashesIn(d)[i] == At64(d, 8 + 8 * i)
  {
    hide At64, Unpack, Value;
    UnpackAt(d[8..8 + n * 8], 8, i, i * 8);
    Within(d, 8, n * 8, i * 8, 8);
    ValueAt64(d, 8 + 8 * i);
  }

  lemma VerifiedLayout(d: seq<byte>, n: nat, hashes: seq<u64>)
    requires |hashes| == n && |d| >= 8 + 8 * n
    ensures var v := Verified(hashes, d[8 + n * 8..]);
            && (8 * (|d| - 8 - 8 * n) < n ==> v == [])
            && (8 * (|d| - 8 - 8 * n) >= n ==>
                  forall h :: h in v <==> exists i :: 0 <= i < n && hashes[i] == h && FlaggedAt(d, 8 + 8 * n, i))
  {
    hide Pick, TestBit;
    var tail := d[8 + n * 8..];
    if n > 0 && 8 * |tail| >= n {
      forall i | 0 <= i < n ensures Flag(tail, i) <==> FlaggedAt(d, 8 + 8 * n, i) {
        BitMeaning(tail[i / 8], i % 8);
      }
      forall h: u64
        ensures h in Pick(hashes, tail) <==> exists i :: 0 <= i < n && hashes[i] == h && FlaggedAt(d, 8 + 8 * n, i)
      {
        PickMember(hashes, tail, h);
      }
    }
  }
}
