/** fpng's decoders for one zlib stream (libs/fpng/fpng.cpp:2107-2207, 2209-2901): compressed or raw,
    with 3 or 4 channels, asked for 3 or 4 channels. They succeed exactly on the streams the reference
    takes, and then draw what it draws. */
module FpngDecode {
  import opened Arith
  import opened Bits
  import opened BitReader
  import opened Canonical
  import opened Wrappers
  import opened FpngEncode
  import opened FpngFilter
  import opened FpngHeader
  import opened FpngPixels
  import FpngRawRead
  import opened FpngScreen
  import opened FpngTable
  import opened FpngTokens
  import opened Inflate

  // ---- Compressed streams.

  /** A final dynamic block at bits, of fpng's kind. */
  ghost function DecodeBlock(g: Geometry, bits: seq<bool>, h: nat): (r: Option<Read<seq<byte>>>)
    requires g.Valid()
    ensures r.Some? ==> |r.value.rest| <= |bits|
  {
    if |bits| < 3 || FromBits(bits[..1]) != 1 || FromBits(bits[1..3]) != 2 then None
    else match ReadFpngHeader(bits[3..], g.sc)
    case None => None
    case Some(lit) => DecodeRows(g, lit.value, lit.rest, 0, h, [])
  }

  /** The checksum, four bytes, follows the block and ends at zlibLen. */
  ghost predicate EndsAt(rest: seq<bool>, srcLen: nat, zlibLen: nat) {
    zlibLen <= srcLen && |ToByteBoundary(rest)| == 8 * (srcLen - zlibLen + 4)
  }

  ghost predicate Ends(r: Option<Read<seq<byte>>>, srcLen: nat, zlibLen: nat) {
    r.Some? && EndsAt(r.value.rest, srcLen, zlibLen)
  }

  ghost function DecodeCompressed(g: Geometry, src: seq<byte>, zlibLen: nat, h: nat): Option<seq<byte>>
    requires g.Valid() && |src| >= 2
  {
    var r := DecodeBlock(g, ByteBits(src[2..]), h);
    if Ends(r, |src|, zlibLen) then Some(r.value.value) else None
  }

  lemma HopelessEnd(r: Option<Read<seq<byte>>>, srcLen: nat, zlibLen: nat)
    requires Hopeless(r) && srcLen >= zlibLen + 4
    ensures !Ends(r, srcLen, zlibLen)
  {
  }

  lemma InRowStart(g: Geometry, out: seq<byte>, y: nat)
    requires g.Valid() && Opaque(g, out) && |out| == Span(y, g.Bpl())
    ensures InRow(g, out, g.w, y > 0)
  {
    if y > 0 {
      MulMonotone(1, y, g.Bpl());
    } else {
      assert Span(0, g.Bpl()) == 0;
    }
  }

  lemma SpanNext(y: nat, h: nat, b: nat)
    requires y < h
    ensures Span(y + 1, b) == Span(y, b) + b <= Span(h, b)
  {
    MulMonotone(y + 1, h, b);
  }

  method ReadRows(g: Geometry, r: BitReader, table: seq<Entry>, dst: array<byte>, h: nat, ghost lit: seq<nat>)
    returns (ok: bool)
    requires r.Valid() && r.bitBufSize >= 20 && GoodTable(lit, table) && |lit| <= 288
    requires g.Valid() && dst.Length == Span(h, g.Bpl())
    modifies r, dst
    ensures ok ==> r.Valid() && r.bitBufSize >= 20
    ensures ok ==> DecodeRows(g, lit, old(r.Rest()), 0, h, []) == DecodeRows(g, lit, r.Rest(), h, h, dst[..])
    ensures !ok ==> Hopeless(DecodeRows(g, lit, old(r.Rest()), 0, h, []))
  {
    ghost var spec := DecodeRows(g, lit, r.Rest(), 0, h, []);
    var o: nat, y: nat := 0, 0;
    assert dst[..0] == [];
    hide DecodeRows, GoodTable, Geometry.Bpl, BitReader.Rest, BitReader.Valid;
    while y < h
      invariant y <= h && o == Span(y, g.Bpl()) <= dst.Length && Opaque(g, dst[..o])
      invariant r.Valid() && r.bitBufSize >= 20
      invariant spec == DecodeRows(g, lit, r.Rest(), y, h, dst[..o])
    {
      SpanNext(y, h, g.Bpl());
      InRowStart(g, dst[..o], y);
      hide Span, Opaque;
      ok, o := ReadFilteredRow(g, r, table, dst, o, y, h, lit);
      if !ok {
        return;
      }
      y := y + 1;
    }
    assert dst[..o] == dst[..];
    ok := true;
  }

  // ---- The end of the stream.

  /** What is left after whole bytes are dropped, by the reader's own count. */
  lemma Position(size: nat, unread: nat, rest: seq<bool>, srcLen: nat, zlibLen: nat)
    requires |rest| == size + 8 * unread && unread <= srcLen && 7 <= zlibLen && zlibLen + 4 <= srcLen
    ensures var o := srcLen - unread;
      EndsAt(rest, srcLen, zlibLen) <==> o >= (size - size % 8) / 8 && o - (size - size % 8) / 8 + 4 == zlibLen
  {
    assert |rest| % 8 == size % 8 by {
      DivModUnique(|rest|, 8, size / 8 + unread, size % 8);
    }
    var bytes := (size - size % 8) / 8;
    assert size - size % 8 == 8 * bytes;
    assert |ToByteBoundary(rest)| == 8 * (bytes + unread);
  }

  lemma RestLength(r: BitReader)
    requires r.Valid()
    ensures |r.Rest()| == r.bitBufSize + 8 * (|r.src| - r.srcOfs)
  {
  }

  /** The last symbol must end the block, and the checksum must be all that follows. */
  method ReadEnd(g: Geometry, r: BitReader, table: seq<Entry>, zlibLen: nat, ghost h: nat, ghost lit: seq<nat>, ghost out: seq<byte>)
    returns (ok: bool)
    requires r.Valid() && r.bitBufSize >= 20 && GoodTable(lit, table)
    requires g.Valid() && 7 <= zlibLen && zlibLen + 4 <= |r.src|
    modifies r
    ensures var d := DecodeRows(g, lit, old(r.Rest()), h, h, out);
      ok <==> Ends(d, |r.src|, zlibLen)
    ensures ok ==> DecodeRows(g, lit, old(r.Rest()), h, h, out).value.value == out
  {
    hide GoodTable, DecodeRows, BitReader.Rest, BitReader.Valid, EndsAt;
    ghost var bits := r.Rest();
    var lit0 := Look(r, table, lit);
    RowsNext(g, lit, bits, h, h, out, lit0);
    if lit0.len == 0 {
      return false;
    }
    if lit0.sym != 256 {
      return false;
    }
    r.SkipNe(lit0.len);
    RestLength(r);
    InRange(r);
    Position(r.bitBufSize, |r.src| - r.srcOfs, r.Rest(), |r.src|, zlibLen);
    var whole := (r.bitBufSize - r.bitBufSize % 8) / 8;
    if r.srcOfs < whole {
      return false;
    }
    return r.srcOfs - whole + 4 == zlibLen;
  }

  lemma InRange(r: BitReader)
    requires r.Valid()
    ensures r.srcOfs <= |r.src|
  {
  }

  // ---- One stream.

  /** The three bits in front of a block. */
  method BlockStart(r: BitReader) returns (ok: bool)
    requires r.Valid() && r.bitBufSize == 32 && |r.Rest()| >= 3
    modifies r
    ensures ok ==> r.Valid() && r.bitBufSize >= 32
    ensures var bits := old(r.Rest());
      && (ok ==> FromBits(bits[..1]) == 1 && FromBits(bits[1..3]) == 2 && r.Rest() == bits[3..])
      && (!ok ==> |bits[3..]| < 64 || FromBits(bits[..1]) != 1 || FromBits(bits[1..3]) != 2)
  {
    hide BitReader.Rest, BitReader.Valid, FromBits;
    ghost var bits := r.Rest();
    var final, kind;
    ok, final := r.Get(1);
    if !ok {
      return;
    }
    ok, kind := r.Get(2);
    assert bits[1..][..2] == bits[1..3] && bits[1..][2..] == bits[3..];
    if !ok {
      return;
    }
    ok := final == 1 && kind == 2;
  }

  lemma ShortBlock(g: Geometry, bits: seq<bool>, h: nat)
    requires g.Valid() && |bits| >= 3
    requires |bits[3..]| < 64 || FromBits(bits[..1]) != 1 || FromBits(bits[1..3]) != 2
    ensures Hopeless(DecodeBlock(g, bits, h))
  {
    hide ReadFpngHeader, DecodeRows, FromBits;
  }

  lemma HeaderHopeless(g: Geometry, bits: seq<bool>, h: nat)
    requires g.Valid() && |bits| >= 3 && Hopeless(ReadFpngHeader(bits[3..], g.sc))
    ensures Hopeless(DecodeBlock(g, bits, h))
  {
    hide ReadFpngHeader, DecodeRows, FromBits;
  }

  /** A block and the end of the stream, from the first bit on. */
  method ReadBlock(g: Geometry, r: BitReader, zlibLen: nat, dst: array<byte>, h: nat) returns (ok: bool)
    requires r.Valid() && r.bitBufSize == 32 && |r.Rest()| >= 3
    requires g.Valid() && zlibLen + 4 <= |r.src| && zlibLen >= 7 && dst.Length == Span(h, g.Bpl())
    modifies r, dst
    ensures ok <==> Ends(DecodeBlock(g, old(r.Rest()), h), |r.src|, zlibLen)
    ensures ok ==> dst[..] == DecodeBlock(g, old(r.Rest()), h).value.value
  {
    hide BitReader.Rest, BitReader.Valid, ReadFpngHeader, DecodeRows, Packed, Decodable, Bounded, EndsAt, Ends, DecodeBlock, Hopeless, Span, Geometry.Bpl, FromBits;
    ghost var bits := r.Rest();
    var table;
    ghost var lit;
    ok := BlockStart(r);
    if !ok {
      ShortBlock(g, bits, h);
      HopelessEnd(DecodeBlock(g, bits, h), |r.src|, zlibLen);
      return;
    }
    ok, table, lit := PrepareDynamicBlock(r, g.sc);
    if !ok {
      HeaderHopeless(g, bits, h);
      HopelessEnd(DecodeBlock(g, bits, h), |r.src|, zlibLen);
      return;
    }
    HeaderRead(g, bits, h, lit, r.Rest());
    ok := ReadRows(g, r, table[..], dst, h, lit);
    if !ok {
      HopelessEnd(DecodeBlock(g, bits, h), |r.src|, zlibLen);
      return;
    }
    ok := ReadEnd(g, r, table[..], zlibLen, h, lit, dst[..]);
  }

  lemma HeaderRead(g: Geometry, bits: seq<bool>, h: nat, lit: seq<nat>, rest: seq<bool>)
    requires g.Valid() && |bits| >= 3 && FromBits(bits[..1]) == 1 && FromBits(bits[1..3]) == 2
    requires ReadFpngHeader(bits[3..], g.sc) == Some(Read(lit, rest))
    ensures DecodeBlock(g, bits, h) == DecodeRows(g, lit, rest, 0, h, []) && |lit| <= 288
  {
    hide ReadFpngHeader, DecodeRows, FromBits;
  }

  method PixelZlibDecompress(g: Geometry, src: seq<byte>, zlibLen: nat, dst: array<byte>, h: nat) returns (ok: bool)
    requires g.Valid() && |src| >= zlibLen + 4 && zlibLen >= 7 && dst.Length == Span(h, g.Bpl())
    modifies dst
    ensures ok <==> DecodeCompressed(g, src, zlibLen, h).Some?
    ensures ok ==> dst[..] == DecodeCompressed(g, src, zlibLen, h).value
  {
    var r := new BitReader(src, 2);
    RestLength(r);
    hide BitReader.Rest, BitReader.Valid, ByteBits, DecodeBlock, EndsAt, Span;
    ok := ReadBlock(g, r, zlibLen, dst, h);
  }

  /** What both decoders take, whether the image was compressed or not. */
  ghost function DecodeStream(g: Geometry, src: seq<byte>, zlibLen: nat, h: nat): Option<seq<byte>>
    requires g.Valid() && |src| >= zlibLen + 4
  {
    if zlibLen < 7 || src[0] != 0x78 || src[1] != 0x01 then None
    else if (src[2] / 2) % 4 == 0 then FpngRawRead.DecodeRaw(g, src, zlibLen, h)
    else DecodeCompressed(g, src, zlibLen, h)
  }

  /** fpng_pixel_zlib_decompress_3 and _4, for 3 or 4 channels asked for. */
  method FpngPixelZlibDecompress(g: Geometry, src: seq<byte>, zlibLen: nat, dst: array<byte>, h: nat) returns (ok: bool)
    requires g.Valid() && |src| >= zlibLen + 4 && dst.Length == Span(h, g.Bpl())
    modifies dst
    ensures ok <==> DecodeStream(g, src, zlibLen, h).Some?
    ensures ok ==> dst[..] == DecodeStream(g, src, zlibLen, h).value
  {
    hide FpngRawRead.DecodeRaw, DecodeCompressed, Span, Geometry.Bpl;
    if zlibLen < 7 {
      return false;
    }
    if src[0] != 0x78 || src[1] != 0x01 {
      return false;
    }
    if (src[2] / 2) % 4 == 0 {
      ok := FpngRawRead.PixelZlibRawDecompress(g, src, zlibLen, dst, h);
    } else {
      ok := PixelZlibDecompress(g, src, zlibLen, dst, h);
    }
  }
}
