/** Images that do not compress: stored blocks (libs/fpng/fpng.cpp:818-866), and reading pixels from
    them (libs/fpng/fpng.cpp:2107-2207). */
module FpngRaw {
  import Adler
  import opened Arith
  import opened Bits
  import opened Canonical
  import opened Wrappers
  import opened FpngEncode
  import opened FpngFilter
  import opened FpngScreen
  import opened FpngTokens
  import opened StoredBlocks
  import Inflate

  /** memcpy of n bytes of src at from. */
  method CopyBytes(src: seq<byte>, from: nat, n: nat, dst: array<byte>, o: nat)
    requires from + n <= |src| && o + n <= dst.Length
    modifies dst
    ensures dst[..o] == old(dst[..o]) && dst[o..o + n] == src[from..from + n]
  {
    forall k | 0 <= k < n {
      dst[o + k] := src[from + k];
    }
  }

  method PutHead(dst: array<byte>, o: nat, size: nat, final: bool)
    requires size <= MAX_STORED && o + 5 <= dst.Length
    modifies dst
    ensures dst[..o] == old(dst[..o]) && dst[o..o + 5] == BlockHead(size, final)
  {
    dst[o] := if final then 1 else 0;
    dst[o + 1] := size % 256;
    dst[o + 2] := size / 256;
    dst[o + 3] := (0xFFFF - size) % 256;
    dst[o + 4] := (0xFFFF - size) / 256;
    assert dst[o..o + 5] == BlockHead(size, final);
  }

  lemma NextBlock(src: seq<byte>, o: nat, n: nat)
    requires o < |src| && n == BlockSize(|src| - o, MAX_STORED)
    ensures StoredBytes(src[o..], MAX_STORED) == BlockHead(n, n == |src| - o) + src[o..o + n] + StoredBytes(src[o + n..], MAX_STORED)
    ensures |StoredBytes(src[o..], MAX_STORED)| == 5 + n + |StoredBytes(src[o + n..], MAX_STORED)|
  {
    assert src[o..][..n] == src[o..o + n] && src[o..][n..] == src[o + n..];
  }

  /** One block, if it fits. */
  method PutBlock(src: seq<byte>, from: nat, n: nat, dst: array<byte>, o: nat)
    requires from < |src| && n == BlockSize(|src| - from, MAX_STORED) && o + 5 + n <= dst.Length
    modifies dst
    ensures dst[..o + 5 + n] == old(dst[..o]) + (BlockHead(n, n == |src| - from) + src[from..from + n])
  {
    hide BlockHead;
    PutHead(dst, o, n, n == |src| - from);
    ghost var part := dst[..o + 5];
    assert part == dst[..o] + dst[o..o + 5];
    CopyBytes(src, from, n, dst, o + 5);
    assert dst[..o + 5 + n] == dst[..o + 5] + dst[o + 5..o + 5 + n];
    Assoc(dst[..o], BlockHead(n, n == |src| - from), src[from..from + n]);
  }

  /** The header, the blocks and the checksum. */
  function RawStream(src: seq<byte>): (s: seq<byte>)
    ensures |s| == 6 + |StoredBytes(src, MAX_STORED)|
  {
    [0x78, 0x01] + StoredBytes(src, MAX_STORED) + Inflate.AdlerBytes(src)
  }

  /** write_raw_block: it fails only when dst is too small. */
  method WriteRawBlock(src: seq<byte>, dst: array<byte>, adler: nat) returns (size: nat)
    requires adler == Inflate.AdlerB(src) * 0x10000 + Inflate.AdlerA(src)
    modifies dst
    ensures size == if dst.Length < |RawStream(src)| then 0 else |RawStream(src)|
    ensures size > 0 ==> dst[..size] == RawStream(src)
  {
    hide StoredBytes, BlockHead, Inflate.AdlerA, Inflate.AdlerB, Inflate.AdlerBytes;
    if dst.Length < 2 {
      return 0;
    }
    dst[0], dst[1] := 0x78, 0x01;
    assert dst[..2] == [0x78, 0x01];
    size := PutBlocks(src, dst);
    if size == 0 {
      return 0;
    }
    size := Adler.PutAdler(dst, size, adler, src);
    assert size > 0 ==> dst[..size] == dst[..size - 4] + dst[size - 4..size];
  }

  method PutBlocks(src: seq<byte>, dst: array<byte>) returns (end: nat)
    requires dst.Length >= 2
    modifies dst
    ensures end == if dst.Length < 2 + |StoredBytes(src, MAX_STORED)| then 0 else 2 + |StoredBytes(src, MAX_STORED)|
    ensures end > 0 ==> dst[..end] == old(dst[..2]) + StoredBytes(src, MAX_STORED)
  {
    ghost var want := dst[..2] + StoredBytes(src, MAX_STORED);
    var srcOfs: nat := 0;
    end := 2;
    assert src[0..] == src;
    hide StoredBytes, BlockHead;
    while srcOfs < |src|
      invariant srcOfs <= |src| && 2 <= end <= dst.Length
      invariant dst[..end] + StoredBytes(src[srcOfs..], MAX_STORED) == want
    {
      var n := BlockSize(|src| - srcOfs, MAX_STORED);
      NextBlock(src, srcOfs, n);
      if end + 5 + n > dst.Length {
        return 0;
      }
      ghost var done := dst[..end];
      PutBlock(src, srcOfs, n, dst, end);
      Assoc(done, BlockHead(n, n == |src| - srcOfs) + src[srcOfs..srcOfs + n], StoredBytes(src[srcOfs + n..], MAX_STORED));
      srcOfs := srcOfs + n;
      end := end + 5 + n;
    }
    assert src[srcOfs..] == [];
    NoBytes(MAX_STORED);
    assert dst[..end] + [] == dst[..end];
  }

  /** An uncompressed image is a zlib stream of its bytes. */
  lemma RawInflates(src: seq<byte>)
    requires src != []
    ensures Inflate.ZlibInflate(RawStream(src)) == Some(src)
  {
    var trailer := Inflate.AdlerBytes(src);
    StoredReadBack(src, MAX_STORED, trailer);
    StoredInflates(StoredBytes(src, MAX_STORED) + trailer, []);
    RawParts(src, trailer);
    hide StoredBytes, RawStream, Inflate.InflateBlocks, Inflate.AdlerBytes, ByteBits, Inflate.ToByteBoundary, Inflate.ZlibInflate;
    assert [] + src == src;
    WholeBytes(trailer);
    Aligned(ByteBits(trailer));
    Inflate.ZlibParts(RawStream(src), src, ByteBits(trailer));
  }

  lemma RawParts(src: seq<byte>, trailer: seq<byte>)
    requires trailer == Inflate.AdlerBytes(src)
    ensures var data := RawStream(src);
      && |data| >= 6 && data[0] == 0x78 && data[1] == 0x01
      && data[2..] == StoredBytes(src, MAX_STORED) + trailer && data[|data| - 4..] == trailer
  {
    hide StoredBytes, Inflate.AdlerBytes;
  }

  lemma Aligned(bits: seq<bool>)
    requires |bits| % 8 == 0
    ensures Inflate.ToByteBoundary(bits) == bits
  {
  }
}
