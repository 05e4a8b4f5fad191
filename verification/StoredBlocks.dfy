/** Stored blocks, section 3.2.4 of RFC 1951: bytes as they are, in blocks with a length and its
    complement in front. */
module StoredBlocks {
  import opened Arith
  import opened Bits
  import opened Canonical
  import opened Wrappers
  import Inflate

  datatype Stored = Stored(data: seq<byte>, rest: seq<byte>)

  function Le16(lo: int, hi: int): int {
    lo + 256 * hi
  }

  /** Stored blocks up to the final one; nothing but stored blocks. */
  function ReadStoredBlocks(s: seq<byte>): (r: Option<Stored>)
    ensures r.Some? ==> |r.value.rest| < |s|
    decreases |s|
  {
    if |s| < 5 || (s[0] / 2) % 4 != 0 then None
    else
      var len := Le16(s[1], s[2]);
      if len + Le16(s[3], s[4]) != 0xFFFF || |s| < 5 + len then None
      else if s[0] % 2 == 1 then Some(Stored(s[5..5 + len], s[5 + len..]))
      else match ReadStoredBlocks(s[5 + len..])
        case None => None
        case Some(r) => Some(Stored(s[5..5 + len] + r.data, r.rest))
  }

  lemma {:induction false} BytesOfBits(s: seq<byte>, n: nat)
    requires n <= |s|
    ensures Inflate.BytesOf(ByteBits(s), n) == s[..n]
  {
    if n > 0 {
      BytesOfBits(s[1..], n - 1);
      assert ByteBits(s)[..8] == ToBits(s[0], 8) && ByteBits(s)[8..] == ByteBits(s[1..]);
      Pow2Values();
      FromToBitsFits(s[0], 8);
    }
  }

  lemma ByteBitsSplit(s: seq<byte>, n: nat)
    requires n <= |s|
    ensures ByteBits(s)[..8 * n] == ByteBits(s[..n]) && ByteBits(s)[8 * n..] == ByteBits(s[n..])
  {
    ByteBitsConcat(s[..n], s[n..]);
    assert s == s[..n] + s[n..];
  }

  lemma LeTwo(two: seq<byte>)
    requires |two| == 2
    ensures LeValue(two) == Le16(two[0], two[1]) >= 0
  {
    assert two[1..] == [two[1]] && [two[1]][1..] == [];
    assert LeValue([]) == 0 && LeValue([two[1]]) == two[1];
  }

  lemma Read16(s: seq<byte>)
    requires |s| >= 2
    ensures Le16(s[0], s[1]) >= 0
    ensures Inflate.ReadBits(ByteBits(s), 16) == Some(Inflate.Read(Le16(s[0], s[1]), ByteBits(s[2..])))
  {
    hide ByteBits, ToBits, Pow2, LeValue, FromBits;
    var two := s[..2];
    LeTwo(two);
    ByteBitsSplit(s, 2);
    LeBits(two);
    FromToBitsFits(LeValue(two), 16);
  }

  lemma HeadBits(b: byte)
    ensures var x := ToBits(b, 8); x[0] == (b % 2 == 1) && FromBits(x[1..3]) == (b / 2) % 4
  {
    var x := ToBits(b, 8);
    assert x[1..] == ToBits(b / 2, 7);
    assert x[1..3] == x[1..][..2];
    ToBitsTake(b / 2, 7, 2);
    FromToBits(b / 2, 2);
    Pow2Values();
  }

  lemma AfterHead(x: seq<bool>, tail: seq<bool>)
    requires |x| == 8 && |tail| % 8 == 0
    ensures (x + tail)[0] == x[0] && (x + tail)[1..3] == x[1..3] && Inflate.ToByteBoundary((x + tail)[3..]) == tail
  {
    assert |(x + tail)[3..]| % 8 == 5;
    assert (x + tail)[3..][5..] == tail;
  }

  lemma WholeBytes(s: seq<byte>)
    ensures |ByteBits(s)| % 8 == 0
  {
    hide ByteBits;
    DivModUnique(|ByteBits(s)|, 8, |s|, 0);
  }

  lemma ByteBitsHead(s: seq<byte>)
    requires s != []
    ensures ByteBits(s) == ToBits(s[0], 8) + ByteBits(s[1..])
  {
  }

  /** The first three bits of a block, and where its body starts. */
  lemma StoredHead(s: seq<byte>)
    requires |s| >= 1
    ensures var bits := ByteBits(s);
      && |bits| >= 3 && bits[0] == (s[0] % 2 == 1) && FromBits(bits[1..3]) == (s[0] / 2) % 4
      && Inflate.ToByteBoundary(bits[3..]) == ByteBits(s[1..])
  {
    hide ByteBits, ToBits, FromBits, Inflate.ToByteBoundary;
    ByteBitsHead(s);
    HeadBits(s[0]);
    WholeBytes(s[1..]);
    AfterHead(ToBits(s[0], 8), ByteBits(s[1..]));
  }

  lemma StoredBody(s: seq<byte>, len: nat)
    requires |s| >= 5 + len && len == Le16(s[1], s[2]) && len + Le16(s[3], s[4]) == 0xFFFF
    ensures Inflate.ReadStored(ByteBits(s)[3..]) == Some(Inflate.Read(s[5..5 + len], ByteBits(s[5 + len..])))
  {
    hide ByteBits, Inflate.ToByteBoundary, FromBits, Inflate.ReadBits, Le16, Inflate.BytesOf;
    StoredHead(s);
    Read16(s[1..]);
    Read16(s[3..]);
    var body := s[5..];
    assert s[1..][2..] == s[3..] && s[3..][2..] == body;
    ByteBitsSplit(body, len);
    BytesOfBits(body, len);
    assert body[..len] == s[5..5 + len] && body[len..] == s[5 + len..];
  }

  /** Any reader of the standard gets the same data out of them (sections 3.2.3 and 3.2.4 of RFC 1951). */
  lemma {:induction false} StoredInflates(s: seq<byte>, out: seq<byte>)
    requires ReadStoredBlocks(s).Some?
    ensures Inflate.InflateBlocks(ByteBits(s), out)
         == Some(Inflate.Read(out + ReadStoredBlocks(s).value.data, ByteBits(ReadStoredBlocks(s).value.rest)))
    decreases |s|
  {
    var len := Le16(s[1], s[2]);
    StoredHead(s);
    StoredBody(s, len);
    hide ByteBits, Inflate.ReadStored, Inflate.ReadDynamicHeader, Inflate.InflateCodes, FromBits;
    if s[0] % 2 == 0 {
      var r := ReadStoredBlocks(s[5 + len..]).value;
      StoredInflates(s[5 + len..], out + s[5..5 + len]);
      Assoc(out, s[5..5 + len], r.data);
    }
  }

  // ---- Writing them, max bytes at a time.

  const MAX_STORED: nat := 0xFFFF

  function BlockSize(remaining: nat, max: nat): nat {
    if remaining < max then remaining else max
  }

  function BlockHead(size: nat, final: bool): (s: seq<byte>)
    requires size <= MAX_STORED
    ensures |s| == 5
  {
    [if final then 1 else 0, size % 256, size / 256, (0xFFFF - size) % 256, (0xFFFF - size) / 256]
  }

  /** src in stored blocks of at most max bytes, the last one final. */
  function StoredBytes(src: seq<byte>, max: nat): seq<byte>
    requires 1 <= max <= MAX_STORED
    decreases |src|
  {
    if src == [] then []
    else
      var n := BlockSize(|src|, max);
      BlockHead(n, n == |src|) + src[..n] + StoredBytes(src[n..], max)
  }

  function Blocks(n: nat, max: nat): nat
    requires max >= 1
  {
    if n == 0 then 0 else 1 + Blocks(n - BlockSize(n, max), max)
  }

  lemma {:induction false} BlocksClosed(n: nat, max: nat)
    requires max >= 1
    ensures Blocks(n, max) == (n + max - 1) / max
    decreases n
  {
    if n == 0 {
      DivModUnique(max - 1, max, 0, max - 1);
    } else if n < max {
      assert Blocks(0, max) == 0;
      DivModUnique(n + max - 1, max, 1, n - 1);
    } else {
      BlocksClosed(n - max, max);
      var q, r := (n - 1) / max, (n - 1) % max;
      assert n - 1 == q * max + r;
      assert n + max - 1 == (q + 1) * max + r;
      DivModUnique(n + max - 1, max, q + 1, r);
    }
  }

  /** Five bytes of header for every max bytes begun. */
  lemma {:induction false} StoredLength(src: seq<byte>, max: nat)
    requires 1 <= max <= MAX_STORED
    ensures |StoredBytes(src, max)| == |src| + 5 * Blocks(|src|, max)
    decreases |src|
  {
    if src != [] {
      StoredLength(src[BlockSize(|src|, max)..], max);
    }
  }

  lemma {:induction false} StoredReadBack(src: seq<byte>, max: nat, tail: seq<byte>)
    requires src != [] && 1 <= max <= MAX_STORED
    ensures ReadStoredBlocks(StoredBytes(src, max) + tail) == Some(Stored(src, tail))
    decreases |src|
  {
    hide StoredBytes, BlockHead, ReadStoredBlocks;
    var n := BlockSize(|src|, max);
    var head, body, more := BlockHead(n, n == |src|), src[..n], StoredBytes(src[n..], max);
    StoredFront(src, max, tail);
    OneBlock(head, body, more + tail, n, n == |src|);
    if n < |src| {
      StoredReadBack(src[n..], max, tail);
      assert src[..n] + src[n..] == src;
    } else {
      assert src[n..] == [] && body == src;
      NoBytes(max);
      assert [] + tail == tail;
    }
  }

  lemma StoredFront(src: seq<byte>, max: nat, tail: seq<byte>)
    requires src != [] && 1 <= max <= MAX_STORED
    ensures var n := BlockSize(|src|, max);
      StoredBytes(src, max) + tail == BlockHead(n, n == |src|) + (src[..n] + (StoredBytes(src[n..], max) + tail))
  {
    hide BlockHead;
    var n := BlockSize(|src|, max);
    Assoc(BlockHead(n, n == |src|), src[..n], StoredBytes(src[n..], max));
    Assoc(BlockHead(n, n == |src|), src[..n] + StoredBytes(src[n..], max), tail);
    Assoc(src[..n], StoredBytes(src[n..], max), tail);
  }

  lemma NoBytes(max: nat)
    requires 1 <= max <= MAX_STORED
    ensures StoredBytes([], max) == []
  {
  }

  lemma OneBlock(head: seq<byte>, body: seq<byte>, rest: seq<byte>, n: nat, final: bool)
    requires n <= MAX_STORED && head == BlockHead(n, final) && |body| == n
    ensures var s := head + (body + rest);
      ReadStoredBlocks(s) == if final then Some(Stored(body, rest))
        else match ReadStoredBlocks(rest)
          case None => None
          case Some(r) => Some(Stored(body + r.data, r.rest))
  {
    var s := head + (body + rest);
    assert s[5..5 + n] == body && s[5 + n..] == rest;
    assert s[0] == head[0] && s[1] == head[1] && s[2] == head[2] && s[3] == head[3] && s[4] == head[4];
    assert Le16(s[1], s[2]) == n && Le16(s[3], s[4]) == 0xFFFF - n;
  }
}
