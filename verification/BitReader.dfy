/** The bit buffer that fpng's decoder reads through (libs/fpng/fpng.cpp:1919-1952). Bits are taken
    from the low end; four more bytes are read ahead whenever fewer than 32 bits are left. */
module BitReader {
  import opened Arith
  import opened Bits
  import opened Wrappers

  class BitReader {
    const src: seq<byte>
    var srcOfs: nat
    var bitBuf: nat
    var bitBufSize: nat

    ghost predicate Valid()
      reads this
    {
      srcOfs <= |src| && bitBufSize <= 64 && bitBuf < Pow2(bitBufSize)
    }

    /** Every bit not yet consumed: the buffer's, then those of the bytes not yet read. */
    ghost function Rest(): seq<bool>
      requires Valid()
      reads this
    {
      ToBits(bitBuf, bitBufSize) + ByteBits(src[srcOfs..])
    }

    /** The buffer starts with the four bytes at ofs. */
    constructor (src: seq<byte>, ofs: nat)
      requires ofs + 4 <= |src|
      ensures Valid() && this.src == src && bitBufSize == 32 && Rest() == ByteBits(src[ofs..])
    {
      this.src := src;
      srcOfs, bitBuf, bitBufSize := ofs + 4, LeValue(src[ofs..ofs + 4]), 32;
      new;
      LeBits(src[ofs..ofs + 4]);
      FourBytes(src, ofs);
    }

    /** ENSURE_32BITS: the only way it fails is that the input is nearly used up. */
    method Ensure32() returns (ok: bool)
      requires Valid()
      modifies this`srcOfs, this`bitBuf, this`bitBufSize
      ensures Valid() && Rest() == old(Rest())
      ensures ok ==> bitBufSize >= 32
      ensures !ok ==> |Rest()| < 64
    {
      hide Pow2, ToBits, ByteBits, LeValue;
      if bitBufSize < 32 {
        if srcOfs + 4 > |src| {
          return false;
        }
        Refill(src, srcOfs, bitBuf, bitBufSize);
        bitBuf := bitBuf + LeValue(src[srcOfs..srcOfs + 4]) * Pow2(bitBufSize);
        srcOfs := srcOfs + 4;
        bitBufSize := bitBufSize + 32;
      }
      return true;
    }

    /** SKIP_BITS_NE */
    method SkipNe(l: nat)
      requires Valid() && l <= bitBufSize
      modifies this`bitBuf, this`bitBufSize
      ensures Valid() && bitBufSize == old(bitBufSize) - l
      ensures l <= |old(Rest())| && Rest() == old(Rest())[l..]
    {
      hide Pow2, ToBits, ByteBits;
      ToBitsDrop(bitBuf, bitBufSize, l);
      ShrFits(bitBuf, bitBufSize, l);
      DropFront(ToBits(bitBuf, bitBufSize), ByteBits(src[srcOfs..]), l);
      bitBuf := Shr(bitBuf, l);
      bitBufSize := bitBufSize - l;
    }

    /** SKIP_BITS */
    method Skip(l: nat) returns (ok: bool)
      requires Valid() && l <= bitBufSize
      modifies this`srcOfs, this`bitBuf, this`bitBufSize
      ensures Valid() && l <= |old(Rest())| && Rest() == old(Rest())[l..]
      ensures ok ==> bitBufSize >= 32
      ensures !ok ==> |Rest()| < 64
    {
      SkipNe(l);
      ok := Ensure32();
    }

    /** The l low bits of the buffer. */
    method Peek(l: nat) returns (v: nat)
      requires Valid() && l <= bitBufSize
      ensures v < Pow2(l) && l <= |Rest()| && ToBits(v, l) == Rest()[..l] && v == FromBits(Rest()[..l])
    {
      hide ToBits, ByteBits, Pow2, FromBits;
      v := bitBuf % Pow2(l);
      ToBitsMod(bitBuf, l);
      ToBitsTake(bitBuf, bitBufSize, l);
      TakeFront(ToBits(bitBuf, bitBufSize), ByteBits(src[srcOfs..]), l);
      FromToBitsFits(v, l);
    }

    /** GET_BITS_NE */
    method GetNe(l: nat) returns (v: nat)
      requires Valid() && l <= bitBufSize
      modifies this`bitBuf, this`bitBufSize
      ensures Valid() && bitBufSize == old(bitBufSize) - l
      ensures l <= |old(Rest())| && Rest() == old(Rest())[l..] && v == FromBits(old(Rest())[..l])
    {
      v := Peek(l);
      SkipNe(l);
    }

    /** GET_BITS */
    method Get(l: nat) returns (ok: bool, v: nat)
      requires Valid() && l <= bitBufSize
      modifies this`srcOfs, this`bitBuf, this`bitBufSize
      ensures Valid() && l <= |old(Rest())| && Rest() == old(Rest())[l..] && v == FromBits(old(Rest())[..l])
      ensures ok ==> bitBufSize >= 32
      ensures !ok ==> |Rest()| < 64
    {
      v := GetNe(l);
      ok := Ensure32();
    }
  }

  lemma FourBytes(src: seq<byte>, ofs: nat)
    requires ofs + 4 <= |src|
    ensures ByteBits(src[ofs..]) == ByteBits(src[ofs..ofs + 4]) + ByteBits(src[ofs + 4..])
  {
    assert src[ofs..] == src[ofs..ofs + 4] + src[ofs + 4..];
    ByteBitsConcat(src[ofs..ofs + 4], src[ofs + 4..]);
  }

  lemma DropFront(a: seq<bool>, b: seq<bool>, l: nat)
    requires l <= |a|
    ensures a[l..] + b == (a + b)[l..]
  {
  }

  lemma TakeFront(a: seq<bool>, b: seq<bool>, l: nat)
    requires l <= |a|
    ensures a[..l] == (a + b)[..l]
  {
  }

  /** Four bytes placed above the buffer. */
  lemma Refill(src: seq<byte>, ofs: nat, buf: nat, size: nat)
    requires ofs + 4 <= |src| && buf < Pow2(size)
    ensures var b := buf + LeValue(src[ofs..ofs + 4]) * Pow2(size);
      && b < Pow2(size + 32)
      && ToBits(b, size + 32) + ByteBits(src[ofs + 4..]) == ToBits(buf, size) + ByteBits(src[ofs..])
  {
    var four := src[ofs..ofs + 4];
    LeBits(four);
    FourBytes(src, ofs);
    hide Pow2, ToBits, ByteBits, LeValue;
    var v := LeValue(four);
    ToBitsConcat(buf, size, v, 32);
    FitsAbove(buf, size, v, 32);
    Assoc(ToBits(buf, size), ByteBits(four), ByteBits(src[ofs + 4..]));
  }
}
