/** The bit buffer that fpng's encoders write through (libs/fpng/fpng.cpp:564-588, 747-760). The
    buffer's low bits are the bits not yet stored; or-ing b in above them is adding b * 2^size, since
    everything above the buffer's size is zero. */
module BitWriter {
  import opened Arith
  import opened Bits

  class BitWriter {
    const dst: array<byte>
    var dstOfs: nat
    var bitBuf: nat
    var bitBufSize: int

    ghost predicate Valid()
      reads this, dst
    {
      dstOfs <= dst.Length && 0 <= bitBufSize <= 64 && bitBuf < Pow2(bitBufSize)
    }

    /** Every bit put so far, in order: the stored bytes, then the buffer's low bits. */
    ghost function Written(): seq<bool>
      requires Valid()
      reads this, dst
    {
      ByteBits(dst[..dstOfs]) + ToBits(bitBuf, bitBufSize)
    }

    constructor (dst: array<byte>)
      ensures Valid() && this.dst == dst && Written() == [] && bitBufSize == 0 && dstOfs == 0
    {
      this.dst := dst;
      dstOfs, bitBuf, bitBufSize := 0, 0, 0;
      new;
      assert dst[..0] == [];
    }

    /** PUT_BITS and PUT_BITS_CZ. */
    method PutBits(b: nat, l: nat)
      requires Valid() && b < Pow2(l) && bitBufSize + l <= 64
      modifies this`bitBuf, this`bitBufSize
      ensures Valid() && bitBufSize == old(bitBufSize) + l
      ensures Written() == old(Written()) + ToBits(b, l)
    {
      ToBitsConcat(bitBuf, bitBufSize, b, l);
      FitsAbove(bitBuf, bitBufSize, b, l);
      bitBuf := bitBuf + b * Pow2(bitBufSize);
      bitBufSize := bitBufSize + l;
      assert dst[..dstOfs] == old(dst[..dstOfs]);
    }

    /** Stores the lowest byte of the buffer. */
    method PutByte()
      requires Valid() && bitBufSize >= 8 && dstOfs < dst.Length
      modifies this`bitBuf, this`bitBufSize, this`dstOfs, dst
      ensures Valid() && bitBufSize == old(bitBufSize) - 8 && dstOfs == old(dstOfs) + 1
      ensures Written() == old(Written())
    {
      hide Pow2, ToBits, ByteBits;
      ghost var done := dst[..dstOfs];
      StoredByte(done, bitBuf, bitBufSize);
      dst[dstOfs] := bitBuf % 256;
      dstOfs := dstOfs + 1;
      assert dst[..dstOfs] == done + [bitBuf % 256];
      bitBuf := bitBuf / 256;
      bitBufSize := bitBufSize - 8;
    }

    /** DEFL_DYN_PUT_BITS: at most 7 bits stay in the buffer. */
    method DynPutBits(b: nat, l: nat) returns (ok: bool)
      requires Valid() && b < Pow2(l) && bitBufSize + l <= 64
      modifies this`bitBuf, this`bitBufSize, this`dstOfs, dst
      ensures ok ==> Valid() && bitBufSize <= 7 && Written() == old(Written()) + ToBits(b, l)
      ensures !ok ==> |old(Written())| + l > 8 * dst.Length
    {
      PutBits(b, l);
      ghost var w := Written();
      while bitBufSize >= 8
        invariant Valid() && Written() == w
      {
        if dstOfs + 1 > dst.Length {
          return false;
        }
        PutByte();
      }
      return true;
    }

    /** PUT_BITS_FLUSH: stores eight bytes whatever the buffer holds, and keeps only the whole ones. */
    method Flush() returns (ok: bool)
      requires Valid() && bitBufSize < 64
      modifies this`bitBuf, this`bitBufSize, this`dstOfs, dst
      ensures ok ==> Valid() && bitBufSize == old(bitBufSize) % 8 && Written() == old(Written())
      ensures ok <==> old(dstOfs) + 8 <= dst.Length
      ensures !ok ==> |old(Written())| + 64 > 8 * dst.Length
    {
      hide Pow2, ToBits, ByteBits, LeBytes;
      if dstOfs + 8 > dst.Length {
        return false;
      }
      ghost var done := dst[..dstOfs];
      StoreLe64(bitBuf);
      var bytes := bitBufSize / 8;
      FlushBits(done, bitBuf, bitBufSize);
      assert dst[..dstOfs + bytes] == done + LeBytes(bitBuf, 8)[..bytes];
      dstOfs := dstOfs + bytes;
      bitBuf := Shr(bitBuf, 8 * bytes);
      bitBufSize := bitBufSize - 8 * bytes;
      return true;
    }

    /** WRITE_LE64 at dstOfs. */
    method StoreLe64(v: nat)
      requires dstOfs + 8 <= dst.Length
      modifies dst
      ensures dst[..dstOfs] == old(dst[..dstOfs]) && dst[dstOfs..dstOfs + 8] == LeBytes(v, 8)
    {
      var i, u := 0, v;
      while i < 8
        invariant 0 <= i <= 8
        invariant dst[..dstOfs] == old(dst[..dstOfs])
        invariant dst[dstOfs..dstOfs + i] + LeBytes(u, 8 - i) == LeBytes(v, 8)
      {
        ghost var part := dst[dstOfs..dstOfs + i];
        dst[dstOfs + i] := u % 256;
        assert dst[dstOfs..dstOfs + i + 1] == part + [u % 256];
        assert LeBytes(u, 8 - i) == [u % 256] + LeBytes(u / 256, 8 - i - 1);
        u := u / 256;
        i := i + 1;
      }
    }

    /** PUT_BITS_FORCE_FLUSH: pads with zero bits to a byte boundary and empties the buffer. */
    method ForceFlush() returns (ok: bool)
      requires Valid()
      modifies this`bitBuf, this`bitBufSize, this`dstOfs, dst
      ensures ok ==> dstOfs <= dst.Length && ByteBits(dst[..dstOfs]) == Padded(old(Written()))
      ensures !ok ==> |old(Written())| > 8 * dst.Length
    {
      hide Pow2, ToBits, ByteBits;
      ghost var w := Written();
      while bitBufSize >= 8
        invariant Valid() && Written() == w
      {
        if dstOfs + 1 > dst.Length {
          return false;
        }
        PutByte();
      }
      if bitBufSize > 0 {
        // The last round of the loop: fewer than eight bits are left, and the byte's top is zero.
        if dstOfs + 1 > dst.Length {
          return false;
        }
        ghost var done := dst[..dstOfs];
        LastByte(done, bitBuf, bitBufSize);
        assert bitBuf % 256 == bitBuf;
        dst[dstOfs] := bitBuf % 256;
        dstOfs := dstOfs + 1;
        assert dst[..dstOfs] == done + [bitBuf];
        bitBuf := 0;
        bitBufSize := bitBufSize - 8;
      } else {
        NothingLeft(dst[..dstOfs], bitBuf);
      }
      return true;
    }
  }

  /** Bits followed by zero bits up to a whole number of bytes. */
  function Padded(bits: seq<bool>): (r: seq<bool>)
    ensures |r| % 8 == 0
  {
    bits + ToBits(0, (8 - |bits| % 8) % 8)
  }

  lemma NothingLeft(done: seq<byte>, v: nat)
    ensures Padded(ByteBits(done) + ToBits(v, 0)) == ByteBits(done)
  {
    assert ToBits(0, 0) == [] && ToBits(v, 0) == [];
    assert |ByteBits(done)| % 8 == 0;
  }

  lemma PadLow(v: nat, n: nat)
    requires 0 < n < 8 && v < Pow2(n)
    ensures v < 256 && ToBits(v, 8) == ToBits(v, n) + ToBits(0, 8 - n)
  {
    Pow2Monotone(n, 8);
    Pow2Values();
    ToBitsConcat(v, n, 0, 8 - n);
    assert 0 * Pow2(n) == 0;
  }

  lemma LastByte(done: seq<byte>, v: nat, n: nat)
    requires 0 < n < 8 && v < Pow2(n)
    ensures v < 256 && ByteBits(done + [v]) == Padded(ByteBits(done) + ToBits(v, n))
  {
    hide Pow2, ToBits, ByteBits;
    PadLow(v, n);
    ByteBitsConcat(done, [v]);
    OneByte(v);
    var bits := ByteBits(done) + ToBits(v, n);
    assert |bits| == 8 * |done| + n;
    assert |bits| % 8 == n && (8 - n) % 8 == 8 - n;
    assert ByteBits(done) + (ToBits(v, n) + ToBits(0, 8 - n)) == bits + ToBits(0, 8 - n);
  }

  /** The whole bytes of the buffer, stored, and what is left of it. */
  lemma FlushBits(done: seq<byte>, v: nat, n: nat)
    requires n < 64 && v < Pow2(n)
    ensures var k := n / 8;
      && ByteBits(done + LeBytes(v, 8)[..k]) + ToBits(Shr(v, 8 * k), n - 8 * k) == ByteBits(done) + ToBits(v, n)
      && Shr(v, 8 * k) < Pow2(n - 8 * k)
  {
    hide Pow2, ToBits, ByteBits, LeBytes;
    var k := n / 8;
    LeBytesTake(v, 8, k);
    ByteBitsConcat(done, LeBytes(v, k));
    LeBytesBits(v, k);
    ToBitsSplit(v, n, 8 * k);
    ShrFits(v, n, 8 * k);
    assert (ByteBits(done) + ToBits(v, 8 * k)) + ToBits(Shr(v, 8 * k), n - 8 * k)
        == ByteBits(done) + (ToBits(v, 8 * k) + ToBits(Shr(v, 8 * k), n - 8 * k));
  }

  lemma OneByte(b: byte)
    ensures ByteBits([b]) == ToBits(b, 8)
  {
    assert ByteBits([b]) == ToBits(b, 8) + ByteBits([]);
  }

  lemma LowByte(v: nat, n: nat)
    requires v < Pow2(n) && n >= 8
    ensures ToBits(v, n) == ToBits(v % 256, 8) + ToBits(v / 256, n - 8)
    ensures v / 256 < Pow2(n - 8)
  {
    hide Pow2, ToBits, Shr;
    Pow2Values();
    ShrByte(v);
    ToBitsSplit(v, n, 8);
    ToBitsMod(v, 8);
    ShrFits(v, n, 8);
  }

  lemma StoredByte(done: seq<byte>, v: nat, n: nat)
    requires v < Pow2(n) && n >= 8
    ensures ByteBits(done + [v % 256]) + ToBits(v / 256, n - 8) == ByteBits(done) + ToBits(v, n)
    ensures v / 256 < Pow2(n - 8)
  {
    hide Pow2, ToBits, ByteBits;
    LowByte(v, n);
    ByteBitsConcat(done, [v % 256]);
    OneByte(v % 256);
    assert (ByteBits(done) + ToBits(v % 256, 8)) + ToBits(v / 256, n - 8)
        == ByteBits(done) + (ToBits(v % 256, 8) + ToBits(v / 256, n - 8));
  }

  lemma {:induction false} LeBytesTake(v: nat, n: nat, k: nat)
    requires k <= n
    ensures LeBytes(v, n)[..k] == LeBytes(v, k)
  {
    if k > 0 {
      LeBytesTake(v / 256, n - 1, k - 1);
    }
  }
}
