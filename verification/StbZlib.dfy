/** The deflate compressor of stb_image_write (libs/stb/stb_image_write.h:804-1020): LZ77 with hash
    chains and lazy matching, the fixed Huffman codes, and stored blocks when that is shorter. Every
    zlib reader gets the input back, except for the empty input. */
module StbZlib {
  import Adler
  import W = BitWriter
  import opened Arith
  import opened Bits
  import opened Canonical
  import opened Wrappers
  import opened FixedCodes
  import opened StoredBlocks
  import Inflate

  // ---- The output: a growing list of bytes behind a bit buffer.

  class Deflater {
    var out: seq<byte>
    var bitbuf: nat
    var bitcount: nat

    ghost predicate Valid()
      reads this
    {
      && |out| >= 2 && out[0] == 0x78 && out[1] == 0x5E
      && bitcount <= 7 && bitbuf < Pow2(bitcount)
    }

    /** The bits after the zlib header. */
    ghost function Body(): seq<bool>
      requires Valid()
      reads this
    {
      ByteBits(out[2..]) + ToBits(bitbuf, bitcount)
    }

    constructor ()
      ensures Valid() && Body() == [] && out == [0x78, 0x5E] && bitcount == 0
    {
      out := [0x78, 0x5E];
      bitbuf, bitcount := 0, 0;
      new;
      assert out[2..] == [];
    }

    /** As Valid, while whole bytes may still be in the buffer. */
    ghost predicate Filled()
      reads this
    {
      |out| >= 2 && out[0] == 0x78 && out[1] == 0x5E && bitcount <= 32 && bitbuf < Pow2(bitcount)
    }

    /** The lowest byte leaves the buffer. */
    method PushByte()
      requires Filled() && bitcount >= 8
      modifies this
      ensures Filled() && bitcount == old(bitcount) - 8 && |out| > |old(out)|
      ensures ByteBits(out[2..]) + ToBits(bitbuf, bitcount) == old(ByteBits(out[2..]) + ToBits(bitbuf, bitcount))
    {
      hide Pow2, ToBits, ByteBits;
      W.StoredByte(out[2..], bitbuf, bitcount);
      assert out[2..] + [bitbuf % 256] == (out + [bitbuf % 256])[2..];
      out := out + [bitbuf % 256];
      bitbuf := bitbuf / 256;
      bitcount := bitcount - 8;
    }

    /** stbiw__zlib_add: whole bytes leave the buffer at once, so 32 bits hold it. */
    method Add(code: nat, codebits: nat)
      requires Valid() && code < Pow2(codebits) && codebits <= 25
      modifies this
      ensures Valid() && Body() == old(Body()) + ToBits(code, codebits)
      ensures |out| >= |old(out)| && bitcount == (old(bitcount) + codebits) % 8
    {
      hide Pow2, ToBits, ByteBits;
      ToBitsConcat(bitbuf, bitcount, code, codebits);
      FitsAbove(bitbuf, bitcount, code, codebits);
      Assoc(ByteBits(out[2..]), ToBits(bitbuf, bitcount), ToBits(code, codebits));
      bitbuf := bitbuf + code * Pow2(bitcount);
      bitcount := bitcount + codebits;
      Flush();
    }

    /** stbiw__zlib_flushf */
    method Flush()
      requires Filled()
      modifies this
      ensures Valid() && bitcount == old(bitcount) % 8 && |out| >= |old(out)|
      ensures Body() == old(ByteBits(out[2..]) + ToBits(bitbuf, bitcount))
    {
      hide Pow2, ToBits, ByteBits;
      while bitcount >= 8
        invariant Filled() && |out| >= |old(out)| && bitcount % 8 == old(bitcount) % 8
        invariant ByteBits(out[2..]) + ToBits(bitbuf, bitcount) == old(ByteBits(out[2..]) + ToBits(bitbuf, bitcount))
      {
        PushByte();
      }
    }

    /** stbiw__zlib_huffa */
    method HuffA(b: nat, c: nat)
      requires Valid() && c <= 25
      modifies this
      ensures Valid() && Body() == old(Body()) + MsbBits(b, c)
      ensures |out| >= |old(out)|
    {
      hide Pow2, ToBits, MsbBits, Valid, Body;
      var rev := ReverseCode(b, c);
      Add(rev, c);
    }

    /** stbiw__zlib_huff */
    method Huff(n: nat)
      requires Valid() && n < 288
      modifies this
      ensures Valid() && Body() == old(Body()) + Codeword(Inflate.FIXED.lit, n)
      ensures |out| >= |old(out)|
    {
      hide MsbBits, Valid, Body, Codeword, Inflate.Repeat;
      LitWord(n);
      if n <= 143 {
        HuffA(0x30 + n, 8);
      } else if n <= 255 {
        HuffA(0x190 + n - 144, 9);
      } else if n <= 279 {
        HuffA(n - 256, 7);
      } else {
        HuffA(0xC0 + n - 280, 8);
      }
    }
  }

  // ---- What the bits so far decode to.

  /** Reading body leads to out, whatever follows. */
  ghost predicate Encodes(body: seq<bool>, out: seq<byte>) {
    forall rest: seq<bool> ::
      Inflate.InflateCodes(Inflate.FIXED.lit, Inflate.FIXED.dist, body + rest, [])
        == Inflate.InflateCodes(Inflate.FIXED.lit, Inflate.FIXED.dist, rest, out)
  }

  lemma FixedSent(s: nat, rest: seq<bool>)
    requires s < 288
    ensures |Inflate.FIXED.lit| == 288
    ensures Inflate.ReadSym(Inflate.FIXED.lit, Codeword(Inflate.FIXED.lit, s) + rest) == Some(Inflate.Read(s, rest))
  {
    hide Inflate.Repeat, Codeword, Decodable;
    FixedDecodable();
    FixedAt(s);
    var bits := Codeword(Inflate.FIXED.lit, s) + rest;
    DecodeSent(Inflate.FIXED.lit, 9, s, rest);
    assert bits[|Codeword(Inflate.FIXED.lit, s)|..] == rest;
  }

  lemma DistSent(s: nat, rest: seq<bool>)
    requires s < 32
    ensures |Inflate.FIXED.dist| == 32
    ensures Inflate.ReadSym(Inflate.FIXED.dist, Codeword(Inflate.FIXED.dist, s) + rest) == Some(Inflate.Read(s, rest))
  {
    hide Inflate.Repeat, Codeword, Decodable;
    FixedDecodable();
    FixedDistAt(s);
    var bits := Codeword(Inflate.FIXED.dist, s) + rest;
    DecodeSent(Inflate.FIXED.dist, 5, s, rest);
    assert bits[|Codeword(Inflate.FIXED.dist, s)|..] == rest;
  }

  lemma NothingYet()
    ensures Encodes([], [])
  {
    hide Inflate.Repeat, Inflate.InflateCodes;
    forall rest: seq<bool>
      ensures Inflate.InflateCodes(Inflate.FIXED.lit, Inflate.FIXED.dist, [] + rest, [])
           == Inflate.InflateCodes(Inflate.FIXED.lit, Inflate.FIXED.dist, rest, [])
    {
      assert [] + rest == rest;
    }
  }

  lemma LiteralRead(s: nat, rest: seq<bool>, out: seq<byte>)
    requires s < 256
    ensures Inflate.InflateCodes(Inflate.FIXED.lit, Inflate.FIXED.dist, Codeword(Inflate.FIXED.lit, s) + rest, out)
         == Inflate.InflateCodes(Inflate.FIXED.lit, Inflate.FIXED.dist, rest, out + [s])
  {
    hide Inflate.Repeat, Codeword;
    FixedSent(s, rest);
  }

  lemma EncodesLiteral(body: seq<bool>, out: seq<byte>, s: nat)
    requires Encodes(body, out) && s < 256
    ensures |Inflate.FIXED.lit| == 288
    ensures Encodes(body + Codeword(Inflate.FIXED.lit, s), out + [s])
  {
    hide Inflate.Repeat, Codeword, Inflate.InflateCodes;
    FixedAt(0);
    var w := Codeword(Inflate.FIXED.lit, s);
    forall rest: seq<bool>
      ensures Inflate.InflateCodes(Inflate.FIXED.lit, Inflate.FIXED.dist, body + w + rest, [])
           == Inflate.InflateCodes(Inflate.FIXED.lit, Inflate.FIXED.dist, rest, out + [s])
    {
      Assoc(body, w, rest);
      LiteralRead(s, rest, out);
    }
  }

  // ---- Matches.

  /** n bytes at i repeat the bytes at pos. */
  ghost predicate SameBytes(data: seq<byte>, pos: nat, i: nat, n: nat) {
    pos <= i && i + n <= |data| && data[pos..pos + n] == data[i..i + n]
  }

  /** A copy that deflate can express, and that is true. */
  ghost predicate Match(data: seq<byte>, pos: nat, i: nat, n: nat) {
    pos < i <= pos + 32767 && 3 <= n <= 258 && SameBytes(data, pos, i, n)
  }

  /** Copying from the output so far produces the next bytes of the input, even where they overlap. */
  lemma {:induction false} CopyMatch(data: seq<byte>, pos: nat, i: nat, n: nat)
    requires pos < i && SameBytes(data, pos, i, n)
    ensures Inflate.CopyBack(data[..i], i - pos, n) == data[..i + n]
    decreases n
  {
    if n > 0 {
      var a, b := data[pos..pos + n], data[i..i + n];
      assert a[0] == data[pos] && b[0] == data[i];
      assert data[pos + 1..pos + n] == a[1..] && data[i + 1..i + n] == b[1..];
      assert data[..i] + [data[i]] == data[..i + 1];
      CopyMatch(data, pos + 1, i + 1, n - 1);
    }
  }

  /** stbiw__zlib_countm: how far two places agree, up to the limit and to 258. */
  method CountM(data: seq<byte>, pos: nat, i: nat, limit: nat) returns (n: nat)
    requires pos <= i && i + limit <= |data|
    ensures n <= limit && n <= 258 && SameBytes(data, pos, i, n)
    ensures n < limit && n < 258 ==> data[pos + n] != data[i + n]
  {
    n := 0;
    while n < limit && n < 258
      invariant n <= limit && n <= 258 && SameBytes(data, pos, i, n)
    {
      if data[pos + n] != data[i + n] {
        break;
      }
      assert data[pos..pos + n + 1] == data[pos..pos + n] + [data[pos + n]];
      assert data[i..i + n + 1] == data[i..i + n] + [data[i + n]];
      n := n + 1;
    }
  }

  /** The bits of a match: length symbol, its extra bits, distance symbol, its extra bits. */
  function MatchBits(lenSym: nat, lenExtra: nat, distSym: nat, distExtra: nat): seq<bool>
    requires lenSym < 29 && distSym < 30 && |Inflate.FIXED.lit| == 288 && |Inflate.FIXED.dist| == 32
  {
    Codeword(Inflate.FIXED.lit, 257 + lenSym) + ToBits(lenExtra, Inflate.LENGTH_EXTRA[lenSym])
    + Codeword(Inflate.FIXED.dist, distSym) + ToBits(distExtra, Inflate.DIST_EXTRA[distSym])
  }

  lemma FixedSizes()
    ensures |Inflate.FIXED.lit| == 288 && |Inflate.FIXED.dist| == 32
  {
    FixedAt(0);
    FixedDistAt(0);
  }

  lemma SentBits(v: nat, n: nat, rest: seq<bool>)
    requires v < Pow2(n)
    ensures Inflate.ReadBits(ToBits(v, n) + rest, n) == Some(Inflate.Read(v, rest))
  {
    hide ToBits, Pow2, FromBits;
    var bits := ToBits(v, n) + rest;
    assert bits[..n] == ToBits(v, n) && bits[n..] == rest;
    FromToBitsFits(v, n);
  }

  lemma LengthSent(j: nat, e: nat, rest: seq<bool>)
    requires j < 29 && e < Pow2(Inflate.LENGTH_EXTRA[j])
    ensures Inflate.ReadLength(257 + j, ToBits(e, Inflate.LENGTH_EXTRA[j]) + rest)
         == Some(Inflate.Read(Inflate.LENGTH_BASE[j] + e, rest))
  {
    hide ToBits, Pow2, Inflate.ReadBits;
    SentBits(e, Inflate.LENGTH_EXTRA[j], rest);
  }

  lemma DistanceSent(j: nat, e: nat, rest: seq<bool>)
    requires j < 30 && e < Pow2(Inflate.DIST_EXTRA[j]) && |Inflate.FIXED.dist| == 32
    ensures Inflate.ReadDistance(Inflate.FIXED.dist, Codeword(Inflate.FIXED.dist, j) + (ToBits(e, Inflate.DIST_EXTRA[j]) + rest))
         == Some(Inflate.Read(Inflate.DIST_BASE[j] + e, rest))
  {
    hide ToBits, Pow2, Inflate.ReadBits, Inflate.Repeat, Codeword, Inflate.ReadSym;
    DistSent(j, ToBits(e, Inflate.DIST_EXTRA[j]) + rest);
    SentBits(e, Inflate.DIST_EXTRA[j], rest);
  }

  /** What a reader does with a length symbol, given what follows it. */
  lemma MatchStep(bits: seq<bool>, out: seq<byte>, sym: nat, b1: seq<bool>, n: nat, b2: seq<bool>, d: nat, b3: seq<bool>)
    requires Inflate.ReadSym(Inflate.FIXED.lit, bits) == Some(Inflate.Read(sym, b1)) && sym >= 257
    requires Inflate.ReadLength(sym, b1) == Some(Inflate.Read(n, b2))
    requires Inflate.ReadDistance(Inflate.FIXED.dist, b2) == Some(Inflate.Read(d, b3)) && 1 <= d <= |out|
    ensures Inflate.InflateCodes(Inflate.FIXED.lit, Inflate.FIXED.dist, bits, out)
         == Inflate.InflateCodes(Inflate.FIXED.lit, Inflate.FIXED.dist, b3, Inflate.CopyBack(out, d, n))
  {
    hide Inflate.Repeat, Inflate.ReadSym, Inflate.ReadLength, Inflate.ReadDistance, Inflate.CopyBack;
  }

  lemma MatchRead(j: nat, e: nat, dj: nat, de: nat, rest: seq<bool>, out: seq<byte>, n: nat, d: nat)
    requires j < 29 && e < Pow2(Inflate.LENGTH_EXTRA[j]) && n == Inflate.LENGTH_BASE[j] + e
    requires dj < 30 && de < Pow2(Inflate.DIST_EXTRA[dj]) && d == Inflate.DIST_BASE[dj] + de && 1 <= d <= |out|
    requires |Inflate.FIXED.lit| == 288 && |Inflate.FIXED.dist| == 32
    ensures Inflate.InflateCodes(Inflate.FIXED.lit, Inflate.FIXED.dist, MatchBits(j, e, dj, de) + rest, out)
         == Inflate.InflateCodes(Inflate.FIXED.lit, Inflate.FIXED.dist, rest, Inflate.CopyBack(out, d, n))
  {
    hide ToBits, Pow2, Inflate.Repeat, Codeword, Inflate.ReadSym, Inflate.ReadLength, Inflate.ReadDistance, Inflate.InflateCodes, Inflate.CopyBack, MatchBits;
    var x := ToBits(e, Inflate.LENGTH_EXTRA[j]);
    var b2 := Codeword(Inflate.FIXED.dist, dj) + (ToBits(de, Inflate.DIST_EXTRA[dj]) + rest);
    MatchSplit(j, e, dj, de, rest);
    FixedSent(257 + j, x + b2);
    LengthSent(j, e, b2);
    DistanceSent(dj, de, rest);
    MatchStep(MatchBits(j, e, dj, de) + rest, out, 257 + j, x + b2, n, b2, d, rest);
  }

  lemma MatchSplit(j: nat, e: nat, dj: nat, de: nat, rest: seq<bool>)
    requires j < 29 && dj < 30 && |Inflate.FIXED.lit| == 288 && |Inflate.FIXED.dist| == 32
    ensures MatchBits(j, e, dj, de) + rest
         == Codeword(Inflate.FIXED.lit, 257 + j) + (ToBits(e, Inflate.LENGTH_EXTRA[j])
            + (Codeword(Inflate.FIXED.dist, dj) + (ToBits(de, Inflate.DIST_EXTRA[dj]) + rest)))
  {
    hide ToBits, Codeword, Inflate.Repeat;
    AssocFour(Codeword(Inflate.FIXED.lit, 257 + j), ToBits(e, Inflate.LENGTH_EXTRA[j]), Codeword(Inflate.FIXED.dist, dj),
              ToBits(de, Inflate.DIST_EXTRA[dj]), rest);
  }

  lemma AssocFour(w: seq<bool>, x: seq<bool>, y: seq<bool>, z: seq<bool>, rest: seq<bool>)
    ensures w + x + y + z + rest == w + (x + (y + (z + rest)))
  {
  }

  lemma EncodesMatch(body: seq<bool>, data: seq<byte>, pos: nat, i: nat, n: nat, j: nat, e: nat, dj: nat, de: nat)
    requires i <= |data| && Encodes(body, data[..i]) && Match(data, pos, i, n)
    requires j < 29 && e < Pow2(Inflate.LENGTH_EXTRA[j]) && n == Inflate.LENGTH_BASE[j] + e
    requires dj < 30 && de < Pow2(Inflate.DIST_EXTRA[dj]) && i - pos == Inflate.DIST_BASE[dj] + de
    requires |Inflate.FIXED.lit| == 288 && |Inflate.FIXED.dist| == 32
    ensures Encodes(body + MatchBits(j, e, dj, de), data[..i + n])
  {
    hide Inflate.Repeat, Codeword, Inflate.InflateCodes, MatchBits, Pow2, Inflate.CopyBack;
    CopyMatch(data, pos, i, n);
    var w := MatchBits(j, e, dj, de);
    forall rest: seq<bool>
      ensures Inflate.InflateCodes(Inflate.FIXED.lit, Inflate.FIXED.dist, body + w + rest, [])
           == Inflate.InflateCodes(Inflate.FIXED.lit, Inflate.FIXED.dist, rest, data[..i + n])
    {
      Assoc(body, w, rest);
      MatchRead(j, e, dj, de, rest, data[..i], n, i - pos);
    }
  }

  // ---- The symbol for a length or a distance: the last base that is not larger.

  const LENGTHC: seq<nat> :=
    [3, 4, 5, 6, 7, 8, 9, 10, 11, 13, 15, 17, 19, 23, 27, 31, 35, 43, 51, 59, 67, 83, 99, 115, 131, 163, 195, 227, 258, 259]
  const DISTC: seq<nat> :=
    [1, 2, 3, 4, 5, 7, 9, 13, 17, 25, 33, 49, 65, 97, 129, 193, 257, 385, 513, 769, 1025, 1537, 2049, 3073, 4097, 6145,
     8193, 12289, 16385, 24577, 32768]

  function LengthC(j: nat): nat
    requires j < 30
  {
    LENGTHC[j]
  }

  function DistC(j: nat): nat
    requires j < 31
  {
    DISTC[j]
  }

  lemma LengthBases(j: nat)
    requires j < 29
    ensures LengthC(j) == Inflate.LENGTH_BASE[j] && LengthC(0) == 3 && LengthC(29) == 259
    ensures LengthC(j + 1) <= LengthC(j) + Pow2(Inflate.LENGTH_EXTRA[j]) && Inflate.LENGTH_EXTRA[j] <= 5
  {
    hide Pow2;
    Pow2Values();
  }

  lemma DistBases(j: nat)
    requires j < 30
    ensures DistC(j) == Inflate.DIST_BASE[j] && DistC(0) == 1 && DistC(30) == 32768
    ensures DistC(j + 1) <= DistC(j) + Pow2(Inflate.DIST_EXTRA[j]) && Inflate.DIST_EXTRA[j] <= 13
  {
    hide Pow2;
    Pow2More();
  }

  lemma Pow2More()
    ensures Pow2(0) == 1 && Pow2(1) == 2 && Pow2(2) == 4 && Pow2(3) == 8 && Pow2(4) == 16 && Pow2(5) == 32 && Pow2(6) == 64
    ensures Pow2(7) == 128 && Pow2(8) == 256 && Pow2(9) == 512 && Pow2(10) == 1024 && Pow2(11) == 2048 && Pow2(12) == 4096
    ensures Pow2(13) == 8192
  {
    hide Pow2;
    Pow2Values();
    Pow2Add(5, 1);
    Pow2Add(9, 1);
    Pow2Add(9, 2);
    Pow2Add(12, 1);
  }

  method LengthSymbol(best: nat) returns (j: nat)
    requires 3 <= best <= 258
    ensures j < 29 && Inflate.LENGTH_BASE[j] <= best && best - Inflate.LENGTH_BASE[j] < Pow2(Inflate.LENGTH_EXTRA[j])
    ensures Inflate.LENGTH_EXTRA[j] <= 5 && LengthC(j) <= best < LengthC(j + 1)
  {
    hide Pow2, LengthC;
    j := 0;
    LengthBases(0);
    while best > LengthC(j + 1) - 1
      invariant j < 29 && LengthC(j) <= best && LengthC(29) == 259
      decreases 29 - j
    {
      j := j + 1;
    }
    LengthBases(j);
  }

  method DistSymbol(d: nat) returns (j: nat)
    requires 1 <= d <= 32767
    ensures j < 30 && Inflate.DIST_BASE[j] <= d && d - Inflate.DIST_BASE[j] < Pow2(Inflate.DIST_EXTRA[j])
    ensures Inflate.DIST_EXTRA[j] <= 13 && DistC(j) <= d < DistC(j + 1)
  {
    hide Pow2, DistC;
    j := 0;
    DistBases(0);
    while d > DistC(j + 1) - 1
      invariant j < 30 && DistC(j) <= d && DistC(30) == 32768
      decreases 30 - j
    {
      j := j + 1;
    }
    DistBases(j);
  }

  // ---- Hash chains.

  const ZHASH: nat := 16384

  /** stbiw__zhash, reduced to a slot of the table. */
  function Slot(a: byte, b: byte, c: byte): (h: nat)
    ensures h < ZHASH
  {
    var h0: bv32 := (a + 0x100 * b + 0x10000 * c) as bv32;
    var h1 := h0 ^ (h0 << 3);
    var h2 := h1 + (h1 >> 5);
    var h3 := h2 ^ (h2 << 4);
    var h4 := h3 + (h3 >> 17);
    var h5 := h4 ^ (h4 << 25);
    var h6 := h5 + (h5 >> 6);
    (h6 as int) % ZHASH
  }

  /** Every list holds places before the bound. */
  ghost predicate Before(table: seq<seq<nat>>, bound: nat) {
    |table| == ZHASH && forall h, k :: 0 <= h < ZHASH && 0 <= k < |table[h]| ==> table[h][k] < bound
  }

  /** The k-th place has the longest match, and none behind it has one as long. */
  ghost predicate LongestAt(data: seq<byte>, i: nat, hlist: seq<nat>, k: nat, n: nat) {
    && k < |hlist| && Match(data, hlist[k], i, n)
    && (forall j :: 0 <= j < |hlist| ==> !Match(data, hlist[j], i, n + 1))
    && (forall j :: k < j < |hlist| ==> !Match(data, hlist[j], i, n))
  }

  /** The longest match within the window, the last one in the list if there are several; at least three bytes. */
  method FindMatch(data: seq<byte>, i: nat, hlist: seq<nat>) returns (found: bool, loc: nat, best: nat, ghost at: nat)
    requires i + 3 < |data| && forall k :: 0 <= k < |hlist| ==> hlist[k] < i
    ensures found ==> Match(data, loc, i, best) && LongestAt(data, i, hlist, at, best) && hlist[at] == loc
    ensures !found ==> forall k :: 0 <= k < |hlist| ==> !Match(data, hlist[k], i, 3)
  {
    hide Match, SameBytes, LongestAt;
    found, loc, best, at := false, 0, 3, 0;
    var j := 0;
    while j < |hlist|
      invariant 0 <= j <= |hlist| && 3 <= best && (found ==> Match(data, loc, i, best)) && (!found ==> best == 3)
      invariant found ==> at < j && hlist[at] == loc && forall k :: at < k < j ==> !Match(data, hlist[k], i, best)
      invariant forall k :: 0 <= k < j && Match(data, hlist[k], i, 3) ==> found && !Match(data, hlist[k], i, best + 1)
    {
      if hlist[j] > i - 32768 {
        var d := CountM(data, hlist[j], i, |data| - i);
        NoLonger(data, hlist[j], i, d, best);
        if d >= best {
          Longer(data, hlist, j, i, best, d, found);
          IsMatch(data, hlist[j], i, d);
          found, loc, best, at := true, hlist[j], d, j;
        }
      } else {
        OutOfWindow(data, hlist[j], i);
      }
      j := j + 1;
    }
    NoneLonger(data, hlist, i, best, found);
    if found {
      TheLongest(data, i, hlist, at, best);
    }
  }

  lemma IsMatch(data: seq<byte>, pos: nat, i: nat, n: nat)
    requires pos < i && pos > i - 32768 && 3 <= n <= 258 && SameBytes(data, pos, i, n)
    ensures Match(data, pos, i, n)
  {
  }

  lemma OutOfWindow(data: seq<byte>, pos: nat, i: nat)
    requires pos <= i - 32768
    ensures forall n :: !Match(data, pos, i, n)
  {
  }

  lemma TheLongest(data: seq<byte>, i: nat, hlist: seq<nat>, at: nat, n: nat)
    requires at < |hlist| && Match(data, hlist[at], i, n) && forall k :: at < k < |hlist| ==> !Match(data, hlist[k], i, n)
    requires forall k :: 0 <= k < |hlist| ==> !Match(data, hlist[k], i, n + 1)
    ensures LongestAt(data, i, hlist, at, n)
  {
    hide Match;
  }

  lemma NoneLonger(data: seq<byte>, hlist: seq<nat>, i: nat, best: nat, found: bool)
    requires best >= 3
    requires forall k :: 0 <= k < |hlist| && Match(data, hlist[k], i, 3) ==> found && !Match(data, hlist[k], i, best + 1)
    ensures forall k :: 0 <= k < |hlist| ==> !Match(data, hlist[k], i, best + 1)
  {
    forall k | 0 <= k < |hlist|
      ensures !Match(data, hlist[k], i, best + 1)
    {
      if Match(data, hlist[k], i, best + 1) {
        Shorter(data, hlist[k], i, best + 1, 3);
      }
    }
  }

  lemma NoLonger(data: seq<byte>, pos: nat, i: nat, d: nat, best: nat)
    requires pos < i < |data| && d <= |data| - i && d <= 258 && SameBytes(data, pos, i, d)
    requires d < |data| - i && d < 258 ==> data[pos + d] != data[i + d]
    ensures forall n :: n > d ==> !Match(data, pos, i, n)
  {
    forall n | n > d
      ensures !Match(data, pos, i, n)
    {
      if Match(data, pos, i, n) {
        Agree(data, pos, i, n, d);
      }
    }
  }

  lemma Agree(data: seq<byte>, pos: nat, i: nat, n: nat, k: nat)
    requires SameBytes(data, pos, i, n) && k < n
    ensures data[pos + k] == data[i + k]
  {
    assert data[pos..pos + n][k] == data[pos + k] && data[i..i + n][k] == data[i + k];
  }

  lemma Longer(data: seq<byte>, hlist: seq<nat>, j: nat, i: nat, best: nat, d: nat, found: bool)
    requires j <= |hlist| && d >= best >= 3
    requires forall k :: 0 <= k < j && Match(data, hlist[k], i, 3) ==> found && !Match(data, hlist[k], i, best + 1)
    ensures forall k :: 0 <= k < j && Match(data, hlist[k], i, 3) ==> !Match(data, hlist[k], i, d + 1)
  {
    forall k | 0 <= k < j && Match(data, hlist[k], i, 3)
      ensures !Match(data, hlist[k], i, d + 1)
    {
      if Match(data, hlist[k], i, d + 1) {
        Shorter(data, hlist[k], i, d + 1, best + 1);
      }
    }
  }

  lemma Shorter(data: seq<byte>, pos: nat, i: nat, n: nat, m: nat)
    requires Match(data, pos, i, n) && 3 <= m <= n
    ensures Match(data, pos, i, m)
  {
    TakeTake(data, pos, n, m);
    TakeTake(data, i, n, m);
  }

  lemma TakeTake(data: seq<byte>, a: nat, n: nat, m: nat)
    requires m <= n && a + n <= |data|
    ensures data[a..a + m] == data[a..a + n][..m]
  {
  }

  /** A longer match at the next byte, from within the window. */
  ghost predicate NextBetter(data: seq<byte>, pos: nat, i: nat, best: nat) {
    pos + 32767 > i && best < 258 && SameBytes(data, pos, i + 1, best + 1)
  }

  lemma NotBetter(data: seq<byte>, pos: nat, i: nat, e: nat, best: nat)
    requires pos <= i && i + 1 + e <= |data| && e <= best
    requires e < |data| - i - 1 && e < 258 ==> data[pos + e] != data[i + 1 + e]
    ensures !NextBetter(data, pos, i, best)
  {
    if NextBetter(data, pos, i, best) {
      Agree(data, pos, i + 1, best + 1, e);
    }
  }

  lemma IsBetter(data: seq<byte>, pos: nat, i: nat, e: nat, best: nat)
    requires pos + 32767 > i && e <= 258 && e > best && SameBytes(data, pos, i + 1, e)
    ensures NextBetter(data, pos, i, best)
  {
    assert data[pos..pos + best + 1] == data[pos..pos + e][..best + 1];
    assert data[i + 1..i + 1 + best + 1] == data[i + 1..i + 1 + e][..best + 1];
  }

  /** Lazy matching: does the next byte start a longer match? */
  method BetterNext(data: seq<byte>, i: nat, hlist: seq<nat>, best: nat) returns (better: bool)
    requires i + 3 < |data| && forall k :: 0 <= k < |hlist| ==> hlist[k] <= i
    ensures better <==> exists k :: 0 <= k < |hlist| && NextBetter(data, hlist[k], i, best)
  {
    hide NextBetter, SameBytes;
    var j := 0;
    while j < |hlist|
      invariant 0 <= j <= |hlist|
      invariant forall k :: 0 <= k < j ==> !NextBetter(data, hlist[k], i, best)
    {
      if hlist[j] > i - 32767 {
        var e := CountM(data, hlist[j], i + 1, |data| - i - 1);
        if e > best {
          IsBetter(data, hlist[j], i, e, best);
          return true;
        }
        NotBetter(data, hlist[j], i, e, best);
      } else {
        TooFar(data, hlist[j], i, best);
      }
      j := j + 1;
    }
    return false;
  }

  lemma TooFar(data: seq<byte>, pos: nat, i: nat, best: nat)
    requires pos <= i - 32767
    ensures !NextBetter(data, pos, i, best)
  {
  }

  /** The list with a place more; a full one loses its older half first. */
  function Chained(hlist: seq<nat>, i: nat, quality: nat): seq<nat> {
    (if |hlist| == 2 * quality && quality <= |hlist| then hlist[quality..] else hlist) + [i]
  }

  /** A list that has become too long loses its older half before the place is added. */
  method Remember(table: array<seq<nat>>, h: nat, i: nat, quality: nat)
    requires Before(table[..], i) && h < ZHASH && quality >= 5
    modifies table
    ensures Before(table[..], i + 1) && table[..] == old(table[..])[h := Chained(old(table[..])[h], i, quality)]
  {
    ghost var was := table[..];
    var hlist := table[h];
    if |hlist| == 2 * quality {
      hlist := hlist[quality..];
    }
    AddPlace(was, h, i, hlist + [i]);
    table[h] := hlist + [i];
    assert table[..] == was[h := hlist + [i]];
  }

  lemma AddPlace(table: seq<seq<nat>>, h: nat, i: nat, hlist: seq<nat>)
    requires Before(table, i) && h < ZHASH && forall k :: 0 <= k < |hlist| ==> hlist[k] < i + 1
    ensures Before(table[h := hlist], i + 1)
  {
  }

  // ---- What the compressor chooses.

  /** A byte as it is, or a copy with the symbols of its length and distance. */
  datatype Choice = Byte | Copy(pos: nat, n: nat, lenSym: nat, distSym: nat)

  /** The position behind some choices. */
  function Position(choices: seq<Choice>): nat {
    if choices == [] then 0
    else
      var last := choices[|choices| - 1];
      Position(choices[..|choices| - 1]) + if last.Copy? then last.n else 1
  }

  /** The list for the three bytes at i. */
  function SlotAt(data: seq<byte>, i: nat): (h: nat)
    requires i + 3 <= |data|
    ensures h < ZHASH
  {
    Slot(data[i], data[i + 1], data[i + 2])
  }

  function Entered(table: seq<seq<nat>>, data: seq<byte>, i: nat, quality: nat): (r: seq<seq<nat>>)
    requires |table| == ZHASH
    ensures |r| == ZHASH
  {
    if i + 3 < |data| then table[SlotAt(data, i) := Chained(table[SlotAt(data, i)], i, quality)] else table
  }

  /** The hash table behind some choices: the position of each has been entered. */
  function TableAfter(data: seq<byte>, choices: seq<Choice>, quality: nat): (table: seq<seq<nat>>)
    ensures |table| == ZHASH
  {
    if choices == [] then seq(ZHASH, _ => [])
    else
      var front := choices[..|choices| - 1];
      Entered(TableAfter(data, front, quality), data, Position(front), quality)
  }

  ghost predicate SymbolsOf(c: Choice, i: nat) {
    c.Copy? ==>
      && c.pos < i && c.lenSym < 29 && LengthC(c.lenSym) <= c.n < LengthC(c.lenSym + 1)
      && c.distSym < 30 && DistC(c.distSym) <= i - c.pos < DistC(c.distSym + 1)
  }

  /** A choice at i, with the list of places for the bytes at i and, i itself being entered, that for those at
      i + 1: the longest match there is, unless the next byte starts a longer one. */
  ghost predicate Chosen(data: seq<byte>, i: nat, hlist: seq<nat>, next: seq<nat>, c: Choice) {
    match c
    case Byte =>
      || (forall k :: 0 <= k < |hlist| ==> !Match(data, hlist[k], i, 3))
      || exists at: nat, n: nat, k :: LongestAt(data, i, hlist, at, n) && 0 <= k < |next| && NextBetter(data, next[k], i, n)
    case Copy(pos, n, _, _) =>
      && (exists at: nat :: LongestAt(data, i, hlist, at, n) && hlist[at] == pos)
      && SymbolsOf(c, i) && forall k :: 0 <= k < |next| ==> !NextBetter(data, next[k], i, n)
  }

  /** The last choice is right; the last three bytes are taken as they are. */
  ghost predicate LastRight(data: seq<byte>, quality: nat, choices: seq<Choice>)
    requires choices != []
  {
    var front, c := choices[..|choices| - 1], choices[|choices| - 1];
    var i := Position(front);
    if i + 3 < |data| then
      Chosen(data, i, TableAfter(data, front, quality)[SlotAt(data, i)], TableAfter(data, choices, quality)[SlotAt(data, i + 1)], c)
    else c == Byte
  }

  ghost predicate AllRight(data: seq<byte>, quality: nat, choices: seq<Choice>) {
    forall n :: 1 <= n <= |choices| ==> LastRight(data, quality, choices[..n])
  }

  function CopyBits(c: Choice, i: nat): seq<bool>
    requires c.Copy? && |Inflate.FIXED.lit| == 288 && |Inflate.FIXED.dist| == 32
  {
    if c.lenSym < 29 && c.distSym < 30 && LengthC(c.lenSym) <= c.n && c.pos + DistC(c.distSym) <= i then
      MatchBits(c.lenSym, c.n - LengthC(c.lenSym), c.distSym, i - c.pos - DistC(c.distSym))
    else []
  }

  /** The bits of the choices. */
  function ChoiceBits(data: seq<byte>, choices: seq<Choice>): seq<bool>
    requires |Inflate.FIXED.lit| == 288 && |Inflate.FIXED.dist| == 32
  {
    if choices == [] then []
    else
      var front, c := choices[..|choices| - 1], choices[|choices| - 1];
      var i := Position(front);
      ChoiceBits(data, front) +
        if c.Copy? then CopyBits(c, i) else if i < |data| then Codeword(Inflate.FIXED.lit, data[i]) else []
  }

  /** The whole block up to its end: one final block with fixed codes. */
  function BlockBits(data: seq<byte>, choices: seq<Choice>): seq<bool>
    requires |Inflate.FIXED.lit| == 288 && |Inflate.FIXED.dist| == 32
  {
    [true] + ToBits(1, 2) + ChoiceBits(data, choices)
  }

  /** choices have been made right and written, up to i. */
  ghost predicate Made(data: seq<byte>, quality: nat, choices: seq<Choice>, bits: seq<bool>, i: nat)
    requires |Inflate.FIXED.lit| == 288 && |Inflate.FIXED.dist| == 32
  {
    AllRight(data, quality, choices) && Position(choices) == i && bits == BlockBits(data, choices)
  }

  lemma MadeByte(data: seq<byte>, quality: nat, choices: seq<Choice>, bits: seq<bool>, i: nat)
    requires |Inflate.FIXED.lit| == 288 && |Inflate.FIXED.dist| == 32
    requires Made(data, quality, choices, bits, i) && i < |data| && LastRight(data, quality, choices + [Byte])
    ensures Made(data, quality, choices + [Byte], bits + Codeword(Inflate.FIXED.lit, data[i]), i + 1)
  {
    hide Inflate.Repeat, Codeword, LastRight, MatchBits, ToBits;
    OneMoreRight(data, quality, choices, Byte);
    assert (choices + [Byte])[..|choices|] == choices;
    Assoc([true] + ToBits(1, 2), ChoiceBits(data, choices), Codeword(Inflate.FIXED.lit, data[i]));
  }

  lemma MadeCopy(data: seq<byte>, quality: nat, choices: seq<Choice>, bits: seq<bool>, i: nat, c: Choice)
    requires |Inflate.FIXED.lit| == 288 && |Inflate.FIXED.dist| == 32 && c.Copy?
    requires Made(data, quality, choices, bits, i) && LastRight(data, quality, choices + [c])
    ensures Made(data, quality, choices + [c], bits + CopyBits(c, i), i + c.n)
  {
    hide Inflate.Repeat, Codeword, LastRight, MatchBits, ToBits, CopyBits;
    OneMoreRight(data, quality, choices, c);
    assert (choices + [c])[..|choices|] == choices;
    Assoc([true] + ToBits(1, 2), ChoiceBits(data, choices), CopyBits(c, i));
  }

  lemma OneMoreRight(data: seq<byte>, quality: nat, choices: seq<Choice>, c: Choice)
    requires AllRight(data, quality, choices) && LastRight(data, quality, choices + [c])
    ensures AllRight(data, quality, choices + [c])
  {
    hide LastRight;
    var all := choices + [c];
    forall n | 1 <= n <= |all|
      ensures LastRight(data, quality, all[..n])
    {
      if n <= |choices| {
        assert all[..n] == choices[..n];
      } else {
        assert all[..n] == all;
      }
    }
  }

  /** One position later. */
  lemma TableNext(data: seq<byte>, choices: seq<Choice>, quality: nat, c: Choice)
    ensures TableAfter(data, choices + [c], quality) == Entered(TableAfter(data, choices, quality), data, Position(choices), quality)
  {
    hide Entered;
    assert (choices + [c])[..|choices|] == choices;
  }

  /** One round at i: i is entered, and c is the right choice. */
  ghost predicate Round(data: seq<byte>, i: nat, table: seq<seq<nat>>, after: seq<seq<nat>>, quality: nat, c: Choice) {
    && i + 3 < |data| && |table| == ZHASH && after == Entered(table, data, i, quality)
    && Chosen(data, i, table[SlotAt(data, i)], after[SlotAt(data, i + 1)], c)
  }

  /** What one round has found out is that its choice is right. */
  lemma RoundRight(data: seq<byte>, quality: nat, choices: seq<Choice>, c: Choice, table: seq<seq<nat>>, after: seq<seq<nat>>)
    requires table == TableAfter(data, choices, quality) && Round(data, Position(choices), table, after, quality, c)
    ensures LastRight(data, quality, choices + [c]) && after == TableAfter(data, choices + [c], quality)
  {
    hide Chosen, Slot, SlotAt, Entered, TableAfter;
    TableNext(data, choices, quality, c);
    assert (choices + [c])[..|choices|] == choices;
  }

  // ---- Compressing.

  /** The block so far: its three header bits, and symbols that stand for the first i bytes. */
  ghost predicate Compressed(bits: seq<bool>, data: seq<byte>, i: nat) {
    && i <= |data| && |bits| >= 3 && bits[..3] == [true] + ToBits(1, 2)
    && Encodes(bits[3..], data[..i])
  }

  lemma CompressedMore(bits: seq<bool>, more: seq<bool>, data: seq<byte>, i: nat, n: nat)
    requires Compressed(bits, data, i) && i + n <= |data|
    requires Encodes(bits[3..] + more, data[..i + n])
    ensures Compressed(bits + more, data, i + n)
  {
    hide Encodes, ToBits;
    assert (bits + more)[..3] == bits[..3] && (bits + more)[3..] == bits[3..] + more;
  }

  /** stbiw__zlib_huffb */
  method PutLiteral(w: Deflater, data: seq<byte>, i: nat)
    requires w.Valid() && i < |data| && Compressed(w.Body(), data, i)
    modifies w
    ensures w.Valid() && Compressed(w.Body(), data, i + 1) && |Inflate.FIXED.lit| == 288
    ensures w.Body() == old(w.Body()) + Codeword(Inflate.FIXED.lit, data[i])
  {
    hide Encodes, Compressed, Codeword, Inflate.Repeat, Deflater.Valid, Deflater.Body;
    LiteralMore(w.Body(), data, i);
    w.Huff(data[i]);
  }

  lemma LiteralMore(bits: seq<bool>, data: seq<byte>, i: nat)
    requires i < |data| && Compressed(bits, data, i)
    ensures |Inflate.FIXED.lit| == 288
    ensures Compressed(bits + Codeword(Inflate.FIXED.lit, data[i]), data, i + 1)
  {
    hide Encodes, Codeword, Inflate.Repeat, ToBits;
    FixedSizes();
    EncodesLiteral(bits[3..], data[..i], data[i]);
    assert data[..i] + [data[i]] == data[..i + 1];
    CompressedMore(bits, Codeword(Inflate.FIXED.lit, data[i]), data, i, 1);
  }

  method PutMatch(w: Deflater, data: seq<byte>, pos: nat, i: nat, n: nat) returns (ghost c: Choice)
    requires w.Valid() && i <= |data| && Compressed(w.Body(), data, i) && Match(data, pos, i, n)
    modifies w
    ensures w.Valid() && i + n <= |data| && Compressed(w.Body(), data, i + n)
    ensures c.Copy? && c.pos == pos && c.n == n && SymbolsOf(c, i)
    ensures |Inflate.FIXED.lit| == 288 && |Inflate.FIXED.dist| == 32 && w.Body() == old(w.Body()) + CopyBits(c, i)
  {
    hide Encodes, Codeword, Inflate.Repeat, Deflater.Valid, Deflater.Body, Pow2, ToBits, MsbBits;
    ghost var bits := w.Body();
    FixedSizes();
    var j := LengthSymbol(n);
    var e := n - Inflate.LENGTH_BASE[j];
    var dj := DistSymbol(i - pos);
    var de := i - pos - Inflate.DIST_BASE[dj];
    c := Copy(pos, n, j, dj);
    LengthBases(j);
    DistBases(dj);
    EncodesMatch(bits[3..], data, pos, i, n, j, e, dj, de);
    CompressedMore(bits, MatchBits(j, e, dj, de), data, i, n);
    hide Compressed;
    PutMatchBits(w, j, e, dj, de);
  }

  method PutMatchBits(w: Deflater, j: nat, e: nat, dj: nat, de: nat)
    requires w.Valid() && j < 29 && dj < 30 && |Inflate.FIXED.lit| == 288 && |Inflate.FIXED.dist| == 32
    requires e < Pow2(Inflate.LENGTH_EXTRA[j]) && Inflate.LENGTH_EXTRA[j] <= 5
    requires de < Pow2(Inflate.DIST_EXTRA[dj]) && Inflate.DIST_EXTRA[dj] <= 13
    modifies w
    ensures w.Valid() && w.Body() == old(w.Body()) + MatchBits(j, e, dj, de)
  {
    hide Codeword, Inflate.Repeat, Deflater.Valid, Deflater.Body, Pow2, ToBits, MsbBits;
    ghost var b0 := w.Body();
    ghost var a, b, c, d := Codeword(Inflate.FIXED.lit, 257 + j), ToBits(e, Inflate.LENGTH_EXTRA[j]),
                            Codeword(Inflate.FIXED.dist, dj), ToBits(de, Inflate.DIST_EXTRA[dj]);
    w.Huff(j + 257);
    NoExtra(e, b0 + a);
    if Inflate.LENGTH_EXTRA[j] != 0 {
      w.Add(e, Inflate.LENGTH_EXTRA[j]);
    }
    DistWord(dj);
    w.HuffA(dj, 5);
    NoExtra(de, b0 + a + b + c);
    if Inflate.DIST_EXTRA[dj] != 0 {
      w.Add(de, Inflate.DIST_EXTRA[dj]);
    }
    InOrder(b0, a, b, c, d);
  }

  lemma NoExtra(v: nat, bits: seq<bool>)
    ensures bits + ToBits(v, 0) == bits
  {
  }

  lemma InOrder(w: seq<bool>, a: seq<bool>, b: seq<bool>, c: seq<bool>, d: seq<bool>)
    ensures w + a + b + c + d == w + (a + b + c + d)
  {
  }

  lemma BeforeMore(table: seq<seq<nat>>, a: nat, b: nat)
    requires Before(table, a) && a <= b
    ensures Before(table, b)
  {
  }

  lemma ListBefore(table: seq<seq<nat>>, bound: nat, h: nat)
    requires Before(table, bound) && h < ZHASH
    ensures |table| == ZHASH && forall k :: 0 <= k < |table[h]| ==> table[h][k] < bound
  {
  }

  /** Looking for a match at i, entering i, and looking for a better one at the next byte. */
  method Choose(data: seq<byte>, i: nat, table: array<seq<nat>>, quality: nat) returns (found: bool, loc: nat, best: nat)
    requires i + 3 < |data| && Before(table[..], i) && quality >= 5
    modifies table
    ensures Before(table[..], i + 1) && (found ==> Match(data, loc, i, best))
    ensures found ==> forall c: Choice :: c.Copy? && c.pos == loc && c.n == best && SymbolsOf(c, i) ==>
      Round(data, i, old(table[..]), table[..], quality, c)
    ensures !found ==> Round(data, i, old(table[..]), table[..], quality, Byte)
  {
    hide Before, Slot, Chained, Chosen, SymbolsOf, LongestAt, NextBetter, Match;
    var h := SlotAt(data, i);
    ListBefore(table[..], i, h);
    ghost var was, hlist := table[..], table[h];
    ghost var at;
    found, loc, best, at := FindMatch(data, i, table[h]);
    ghost var any := found;
    Remember(table, h, i, quality);
    h := SlotAt(data, i + 1);
    ListBefore(table[..], i + 1, h);
    ghost var next := table[h];
    assert next == table[..][h];
    if found {
      var better := BetterNext(data, i, table[h], best);
      found := !better;
    }
    if found {
      forall c: Choice | c.Copy? && c.pos == loc && c.n == best && SymbolsOf(c, i) ensures Chosen(data, i, hlist, next, c) {
        CopyRight(data, i, hlist, next, c, at);
      }
      assert forall c: Choice :: c.Copy? && c.pos == loc && c.n == best && SymbolsOf(c, i) ==> Round(data, i, was, table[..], quality, c);
    } else {
      ByteRight(data, i, hlist, next, at, best, any);
    }
  }

  /** The loop's invariant: what is written stands for the first i bytes, as chosen, and so does the table. */
  ghost predicate Going(w: Deflater, data: seq<byte>, i: nat, table: seq<seq<nat>>, quality: nat, choices: seq<Choice>)
    reads w
  {
    && w.Valid() && i <= |data| && Compressed(w.Body(), data, i) && Before(table, i)
    && |Inflate.FIXED.lit| == 288 && |Inflate.FIXED.dist| == 32
    && Made(data, quality, choices, w.Body(), i) && table == TableAfter(data, choices, quality)
  }

  /** A match is taken. */
  method TakeMatch(w: Deflater, data: seq<byte>, i: nat, loc: nat, best: nat, ghost quality: nat, ghost choices0: seq<Choice>,
                   ghost was: seq<seq<nat>>, ghost after: seq<seq<nat>>)
    returns (ghost choices: seq<Choice>)
    requires Going(w, data, i, was, quality, choices0) && Match(data, loc, i, best) && Before(after, i + 1)
    requires forall c: Choice :: c.Copy? && c.pos == loc && c.n == best && SymbolsOf(c, i) ==> Round(data, i, was, after, quality, c)
    modifies w
    ensures i + best <= |data| && Going(w, data, i + best, after, quality, choices)
  {
    hide Compressed, Made, Before, Match, SymbolsOf, Round, TableAfter, CopyBits, Position, LastRight, Deflater.Valid, Deflater.Body, Inflate.Repeat;
    AtPosition(data, quality, choices0, w.Body(), i);
    ghost var bits := w.Body();
    ghost var c := PutMatch(w, data, loc, i, best);
    RoundRight(data, quality, choices0, c, was, after);
    MadeCopy(data, quality, choices0, bits, i, c);
    AtLeastThree(data, loc, i, best);
    BeforeMore(after, i + 1, i + best);
    choices := choices0 + [c];
  }

  /** A byte is taken as it is. */
  method TakeByte(w: Deflater, data: seq<byte>, i: nat, ghost quality: nat, ghost choices0: seq<Choice>,
                  ghost was: seq<seq<nat>>, ghost after: seq<seq<nat>>)
    returns (ghost choices: seq<Choice>)
    requires i < |data| && Going(w, data, i, was, quality, choices0) && Before(after, i + 1)
    requires Round(data, i, was, after, quality, Byte)
    modifies w
    ensures Going(w, data, i + 1, after, quality, choices)
  {
    hide Compressed, Made, Before, Round, TableAfter, Codeword, Position, LastRight, Deflater.Valid, Deflater.Body, Inflate.Repeat;
    AtPosition(data, quality, choices0, w.Body(), i);
    ghost var bits := w.Body();
    PutLiteral(w, data, i);
    RoundRight(data, quality, choices0, Byte, was, after);
    MadeByte(data, quality, choices0, bits, i);
    choices := choices0 + [Byte];
  }

  method Take(w: Deflater, data: seq<byte>, i0: nat, found: bool, loc: nat, best: nat, ghost quality: nat, ghost choices0: seq<Choice>,
              ghost was: seq<seq<nat>>, ghost after: seq<seq<nat>>)
    returns (i: nat, ghost choices: seq<Choice>)
    requires i0 < |data| && Going(w, data, i0, was, quality, choices0) && Before(after, i0 + 1)
    requires found ==> Match(data, loc, i0, best)
    requires found ==> forall c: Choice :: c.Copy? && c.pos == loc && c.n == best && SymbolsOf(c, i0) ==>
      Round(data, i0, was, after, quality, c)
    requires !found ==> Round(data, i0, was, after, quality, Byte)
    modifies w
    ensures i0 < i <= |data| && Going(w, data, i, after, quality, choices)
  {
    hide *;
    if found {
      AtLeastThree(data, loc, i0, best);
      choices := TakeMatch(w, data, i0, loc, best, quality, choices0, was, after);
      i := i0 + best;
    } else {
      choices := TakeByte(w, data, i0, quality, choices0, was, after);
      i := i0 + 1;
    }
  }

  /** One round of the main loop: a match, unless the next byte starts a better one, or a literal. */
  method CompressStep(w: Deflater, data: seq<byte>, i0: nat, table: array<seq<nat>>, quality: nat, ghost choices0: seq<Choice>)
    returns (i: nat, ghost choices: seq<Choice>)
    requires i0 + 3 < |data| && quality >= 5 && Going(w, data, i0, table[..], quality, choices0)
    modifies w, table
    ensures i0 < i <= |data| && Going(w, data, i, table[..], quality, choices)
  {
    ghost var was := table[..];
    BeforeNow(w, data, i0, was, quality, choices0);
    hide *;
    var found, loc, best := Choose(data, i0, table, quality);
    i, choices := Take(w, data, i0, found, loc, best, quality, choices0, was, table[..]);
  }

  lemma BeforeNow(w: Deflater, data: seq<byte>, i: nat, table: seq<seq<nat>>, quality: nat, choices: seq<Choice>)
    requires Going(w, data, i, table, quality, choices)
    ensures Before(table, i)
  {
  }

  lemma AtLeastThree(data: seq<byte>, pos: nat, i: nat, n: nat)
    requires Match(data, pos, i, n)
    ensures n >= 3
  {
  }

  lemma AtPosition(data: seq<byte>, quality: nat, choices: seq<Choice>, bits: seq<bool>, i: nat)
    requires |Inflate.FIXED.lit| == 288 && |Inflate.FIXED.dist| == 32 && Made(data, quality, choices, bits, i)
    ensures Position(choices) == i
  {
  }

  lemma CopyRight(data: seq<byte>, i: nat, hlist: seq<nat>, next: seq<nat>, c: Choice, at: nat)
    requires c.Copy? && SymbolsOf(c, i) && LongestAt(data, i, hlist, at, c.n) && hlist[at] == c.pos
    requires forall k :: 0 <= k < |next| ==> !NextBetter(data, next[k], i, c.n)
    ensures Chosen(data, i, hlist, next, c)
  {
    hide NextBetter, LongestAt, SymbolsOf;
  }

  lemma ByteRight(data: seq<byte>, i: nat, hlist: seq<nat>, next: seq<nat>, at: nat, n: nat, any: bool)
    requires !any ==> forall k :: 0 <= k < |hlist| ==> !Match(data, hlist[k], i, 3)
    requires any ==> LongestAt(data, i, hlist, at, n) && exists k :: 0 <= k < |next| && NextBetter(data, next[k], i, n)
    ensures Chosen(data, i, hlist, next, Byte)
  {
    hide NextBetter, LongestAt, Match;
  }

  lemma EmptyTable(table: seq<seq<nat>>)
    requires |table| == ZHASH && forall h :: 0 <= h < ZHASH ==> table[h] == []
    ensures Before(table, 0)
  {
  }

  lemma BlockStarts(data: seq<byte>)
    ensures Compressed([] + ToBits(1, 1) + ToBits(1, 2), data, 0)
  {
    NothingYet();
    hide Encodes, Inflate.Repeat;
    var bits := [] + ToBits(1, 1) + ToBits(1, 2);
    assert ToBits(1, 1) == [true];
    assert bits[..3] == [true] + ToBits(1, 2) && bits[3..] == [] && data[..0] == [];
  }

  /** Every byte of the input, as literals and matches. */
  method CompressAll(w: Deflater, data: seq<byte>, quality: nat) returns (ghost choices: seq<Choice>)
    requires w.Valid() && w.Body() == [] && quality >= 5
    modifies w
    ensures w.Valid() && Compressed(w.Body(), data, |data|)
    ensures |Inflate.FIXED.lit| == 288 && |Inflate.FIXED.dist| == 32 && Made(data, quality, choices, w.Body(), |data|)
  {
    FixedSizes();
    PutHead(w);
    var table := NewTable(data, quality);
    choices := [];
    GoingStarts(w, data, table[..], quality);
    hide *;
    var i: nat := 0;
    while i + 3 < |data|
      invariant i <= |data| && Going(w, data, i, table[..], quality, choices)
    {
      i, choices := CompressStep(w, data, i, table, quality, choices);
    }
    choices := PutTail(w, data, i, quality, choices, table[..]);
  }

  lemma GoingStarts(w: Deflater, data: seq<byte>, table: seq<seq<nat>>, quality: nat)
    requires w.Valid() && w.Body() == [] + ToBits(1, 1) + ToBits(1, 2) && Before(table, 0) && table == TableAfter(data, [], quality)
    ensures Going(w, data, 0, table, quality, [])
  {
    FixedSizes();
    hide Compressed, Made, Before, TableAfter, ToBits, Deflater.Valid, Deflater.Body, Inflate.Repeat;
    BlockStarts(data);
    NothingMade(data, quality);
  }

  method PutHead(w: Deflater)
    requires w.Valid() && w.Body() == []
    modifies w
    ensures w.Valid() && w.Body() == [] + ToBits(1, 1) + ToBits(1, 2)
  {
    Pow2Values();
    hide Pow2, ToBits, Deflater.Valid, Deflater.Body;
    w.Add(1, 1);
    w.Add(1, 2);
  }

  method NewTable(data: seq<byte>, quality: nat) returns (table: array<seq<nat>>)
    ensures fresh(table) && Before(table[..], 0) && table[..] == TableAfter(data, [], quality)
  {
    hide Before, TableAfter;
    table := new seq<nat>[ZHASH](_ => []);
    EmptyTable(table[..]);
    FirstTable(data, quality, table[..]);
  }

  /** The last bytes, which are not looked up. */
  method PutTail(w: Deflater, data: seq<byte>, i0: nat, ghost quality: nat, ghost choices0: seq<Choice>, ghost table: seq<seq<nat>>)
    returns (ghost choices: seq<Choice>)
    requires |data| <= i0 + 3 && Going(w, data, i0, table, quality, choices0)
    modifies w
    ensures w.Valid() && Compressed(w.Body(), data, |data|)
    ensures |Inflate.FIXED.lit| == 288 && |Inflate.FIXED.dist| == 32 && Made(data, quality, choices, w.Body(), |data|)
  {
    hide Compressed, Made, Before, TableAfter, LastRight, Codeword, Inflate.Repeat, Deflater.Valid, Deflater.Body;
    choices := choices0;
    var i := i0;
    while i < |data|
      invariant i <= |data| <= i + 3 && w.Valid() && Compressed(w.Body(), data, i) && Made(data, quality, choices, w.Body(), i)
    {
      TailRight(data, quality, choices, w.Body(), i);
      MadeByte(data, quality, choices, w.Body(), i);
      PutLiteral(w, data, i);
      choices := choices + [Byte];
      i := i + 1;
    }
  }

  lemma NothingMade(data: seq<byte>, quality: nat)
    requires |Inflate.FIXED.lit| == 288 && |Inflate.FIXED.dist| == 32
    ensures Made(data, quality, [], [] + ToBits(1, 1) + ToBits(1, 2), 0)
  {
    assert ToBits(1, 1) == [true];
    assert [true] + ToBits(1, 2) + [] == [true] + ToBits(1, 2) == [] + [true] + ToBits(1, 2);
  }

  lemma FirstTable(data: seq<byte>, quality: nat, table: seq<seq<nat>>)
    requires |table| == ZHASH && forall h :: 0 <= h < ZHASH ==> table[h] == []
    ensures table == TableAfter(data, [], quality)
  {
  }

  lemma TailRight(data: seq<byte>, quality: nat, choices: seq<Choice>, bits: seq<bool>, i: nat)
    requires |Inflate.FIXED.lit| == 288 && |Inflate.FIXED.dist| == 32
    requires Made(data, quality, choices, bits, i) && |data| <= i + 3
    ensures LastRight(data, quality, choices + [Byte])
  {
    assert (choices + [Byte])[..|choices|] == choices;
  }

  /** The end of the block, and zero bits up to a whole number of bytes. */
  method EndBlock(w: Deflater) returns (ghost pad: seq<bool>)
    requires w.Valid()
    modifies w
    ensures w.Valid() && w.bitcount == 0 && |pad| < 8 && |Inflate.FIXED.lit| == 288
    ensures forall i :: 0 <= i < |pad| ==> !pad[i]
    ensures w.Body() == old(w.Body()) + Codeword(Inflate.FIXED.lit, 256) + pad
  {
    FixedSizes();
    Pow2Values();
    hide Codeword, Inflate.Repeat, Pow2, ToBits, Deflater.Body;
    w.Huff(256);
    pad := [];
    ghost var b0, bits := w.bitcount, w.Body();
    assert bits + [] == bits;
    while w.bitcount != 0
      invariant w.Valid() && w.Body() == bits + pad && forall i :: 0 <= i < |pad| ==> !pad[i]
      invariant if w.bitcount == 0 then |pad| == (8 - b0) % 8 else w.bitcount == b0 + |pad|
      decreases if w.bitcount == 0 then 0 else 8 - w.bitcount
    {
      Assoc(bits, pad, ToBits(0, 1));
      w.Add(0, 1);
      assert ToBits(0, 1) == [false] by {
        ZeroBits([false]);
      }
      pad := pad + ToBits(0, 1);
    }
  }

  lemma FixedKind(tail: seq<bool>)
    ensures var bits := [true] + ToBits(1, 2) + tail;
      |bits| >= 3 && bits[0] && FromBits(bits[1..3]) == 1 && bits[3..] == tail
  {
    var bits := [true] + ToBits(1, 2) + tail;
    assert bits[1..3] == ToBits(1, 2);
    Pow2Values();
    FromToBitsFits(1, 2);
  }

  /** The whole block decodes to the input. */
  lemma BlockDecodes(bits: seq<bool>, data: seq<byte>, tail: seq<bool>)
    requires Compressed(bits, data, |data|) && |Inflate.FIXED.lit| == 288
    ensures Inflate.InflateBlocks(bits + Codeword(Inflate.FIXED.lit, 256) + tail, []) == Some(Inflate.Read(data, tail))
  {
    hide Codeword, Inflate.Repeat, ToBits, FromBits, Inflate.ReadStored, Inflate.ReadDynamicHeader;
    var body, end := bits[3..], Codeword(Inflate.FIXED.lit, 256);
    var all := bits + end + tail;
    assert data[..|data|] == data;
    assert all == [true] + ToBits(1, 2) + (body + (end + tail));
    FixedKind(body + (end + tail));
    FixedSent(256, tail);
    assert Inflate.InflateCodes(Inflate.FIXED.lit, Inflate.FIXED.dist, body + (end + tail), [])
        == Inflate.InflateCodes(Inflate.FIXED.lit, Inflate.FIXED.dist, end + tail, data);
    hide Encodes;
  }

  // ---- Stored instead.

  const STORE_MAX: nat := 32767

  /** The size of the input in stored blocks, with the two header bytes. */
  function StoredSize(n: nat): nat {
    n + 2 + (n + 32766) / 32767 * 5
  }

  lemma NextStored(src: seq<byte>, j: nat, n: nat)
    requires j < |src| && n == BlockSize(|src| - j, STORE_MAX)
    ensures StoredBytes(src[j..], STORE_MAX) == BlockHead(n, n == |src| - j) + src[j..j + n] + StoredBytes(src[j + n..], STORE_MAX)
  {
    assert src[j..][..n] == src[j..j + n] && src[j..][n..] == src[j + n..];
  }

  /** The compressed bytes are dropped; what replaces them takes less room than they did. */
  method StoreInstead(w: Deflater, data: seq<byte>)
    requires w.Valid() && |w.out| > StoredSize(|data|)
    modifies w
    ensures w.out == [0x78, 0x5E] + StoredBytes(data, STORE_MAX)
    ensures |w.out| == StoredSize(|data|) < |old(w.out)|
  {
    hide StoredBytes, BlockHead;
    ghost var want := [0x78, 0x5E] + StoredBytes(data, STORE_MAX);
    w.out := w.out[..2];
    assert w.out == [0x78, 0x5E];
    var j: nat := 0;
    assert data[0..] == data;
    while j < |data|
      invariant j <= |data| && w.out + StoredBytes(data[j..], STORE_MAX) == want
    {
      var blocklen := if |data| - j > 32767 then 32767 else |data| - j;
      NextStored(data, j, blocklen);
      ghost var was := w.out;
      PushBlock(w, data, j, blocklen);
      Assoc(was, BlockHead(blocklen, blocklen == |data| - j) + data[j..j + blocklen], StoredBytes(data[j + blocklen..], STORE_MAX));
      j := j + blocklen;
    }
    assert data[j..] == [];
    NoBytes(STORE_MAX);
    assert w.out + [] == w.out;
    StoredLength(data, STORE_MAX);
    BlocksClosed(|data|, STORE_MAX);
  }

  /** One block: is it the last, its length, the complement, its bytes. */
  method PushBlock(w: Deflater, data: seq<byte>, j: nat, blocklen: nat)
    requires j + blocklen <= |data| && blocklen <= 32767
    modifies w`out
    ensures w.out == old(w.out) + (BlockHead(blocklen, blocklen == |data| - j) + data[j..j + blocklen])
  {
    w.out := w.out + [if |data| - j == blocklen then 1 else 0];
    w.out := w.out + [blocklen % 256] + [blocklen / 256];
    w.out := w.out + [(0xFFFF - blocklen) % 256] + [(0xFFFF - blocklen) / 256];
    w.out := w.out + data[j..j + blocklen];
  }

  // ---- The whole function.

  lemma StoredParts(data: seq<byte>, out: seq<byte>)
    requires data != [] && out == [0x78, 0x5E] + StoredBytes(data, STORE_MAX) + Inflate.AdlerBytes(data)
    ensures Inflate.ZlibInflate(out) == Some(data)
  {
    hide StoredBytes, Inflate.AdlerBytes, ByteBits, Inflate.InflateBlocks, Inflate.ToByteBoundary, Inflate.ZlibInflate, ReadStoredBlocks;
    var trailer := Inflate.AdlerBytes(data);
    StoredReadBack(data, STORE_MAX, trailer);
    StoredInflates(StoredBytes(data, STORE_MAX) + trailer, []);
    assert [] + data == data;
    assert out[2..] == StoredBytes(data, STORE_MAX) + trailer && out[|out| - 4..] == trailer;
    FourBytesLeft([], trailer);
    assert [] + ByteBits(trailer) == ByteBits(trailer);
    Inflate.ZlibParts(out, data, ByteBits(trailer));
  }

  lemma FourBytesLeft(pad: seq<bool>, trailer: seq<byte>)
    requires |pad| < 8 && |trailer| == 4
    ensures |Inflate.ToByteBoundary(pad + ByteBits(trailer))| == 32
  {
    hide ByteBits;
    DivModUnique(|pad + ByteBits(trailer)|, 8, 4, |pad|);
  }

  lemma CompressedParts(data: seq<byte>, out: seq<byte>, bits: seq<bool>, pad: seq<bool>)
    requires |out| >= 2 && out[0] == 0x78 && out[1] == 0x5E && |Inflate.FIXED.lit| == 288 && |pad| < 8
    requires Compressed(bits, data, |data|) && ByteBits(out[2..]) == bits + Codeword(Inflate.FIXED.lit, 256) + pad
    ensures Inflate.ZlibInflate(out + Inflate.AdlerBytes(data)) == Some(data)
  {
    hide Inflate.AdlerBytes, ByteBits, Inflate.InflateBlocks, Inflate.ToByteBoundary, Inflate.ZlibInflate, Compressed, Codeword, Inflate.Repeat;
    var trailer := Inflate.AdlerBytes(data);
    var all := out + trailer;
    assert all[2..] == out[2..] + trailer && all[|all| - 4..] == trailer;
    ByteBitsConcat(out[2..], trailer);
    Assoc(bits + Codeword(Inflate.FIXED.lit, 256), pad, ByteBits(trailer));
    BlockDecodes(bits, data, pad + ByteBits(trailer));
    FourBytesLeft(pad, trailer);
    Inflate.ZlibParts(all, data, pad + ByteBits(trailer));
  }

  /** An empty input is stored as no block at all, which is not a deflate stream. */
  lemma EmptyStream()
    ensures Inflate.ZlibInflate([0x78, 0x5E, 0, 0, 0, 1]).None?
  {
    hide ByteBits, Inflate.InflateBlocks;
    var data: seq<byte> := [0x78, 0x5E, 0, 0, 0, 1];
    assert data[2..] == [0, 0, 0, 1];
    EmptyBlocks([0, 0, 0, 1]);
  }

  lemma EmptyBlocks(s: seq<byte>)
    requires s == [0, 0, 0, 1]
    ensures Inflate.InflateBlocks(ByteBits(s), []).None?
  {
    hide *;
    StoredHead(s);
    NoStored(s);
    BadStored(ByteBits(s));
  }

  lemma BadStored(bits: seq<bool>)
    requires |bits| >= 3 && FromBits(bits[1..3]) == 0 && Inflate.ReadStored(bits[3..]).None?
    ensures Inflate.InflateBlocks(bits, []).None?
  {
    hide FromBits, Inflate.ReadStored, Inflate.InflateCodes, Inflate.ReadDynamicHeader;
  }

  lemma NoStored(s: seq<byte>)
    requires s == [0, 0, 0, 1]
    ensures |ByteBits(s)| >= 3 && Inflate.ReadStored(ByteBits(s)[3..]).None?
  {
    hide ByteBits, Inflate.ToByteBoundary, FromBits, Inflate.BytesOf;
    StoredHead(s);
    Read16(s[1..]);
    assert |s[1..][2..]| == 1;
  }

  lemma AllFlushed(w: Deflater)
    requires w.Valid() && w.bitcount == 0
    ensures w.Body() == ByteBits(w.out[2..]) && |w.Body()| == 8 * (|w.out| - 2)
    ensures |w.out| >= 2 && w.out[0] == 0x78 && w.out[1] == 0x5E
  {
    assert ToBits(w.bitbuf, 0) == [];
    assert ByteBits(w.out[2..]) + [] == ByteBits(w.out[2..]);
  }

  /** Three bits and the end of block are more than nothing stored. */
  lemma AtLeastTen(bits: seq<bool>, data: seq<byte>)
    requires Compressed(bits, data, |data|)
    ensures |Inflate.FIXED.lit| == 288 && |bits + Codeword(Inflate.FIXED.lit, 256)| >= 10
  {
    hide Codeword, Inflate.Repeat, Encodes;
    FixedAt(256);
  }

  lemma StoredResult(data: seq<byte>, stored: seq<byte>)
    requires stored == [0x78, 0x5E] + StoredBytes(data, STORE_MAX)
    ensures Inflate.ZlibInflate(stored + Inflate.AdlerBytes(data)) == Some(data) <==> data != []
    ensures data == [] ==> stored + Inflate.AdlerBytes(data) == [0x78, 0x5E, 0, 0, 0, 1]
  {
    hide StoredBytes, Inflate.ZlibInflate;
    if data == [] {
      NoBytes(STORE_MAX);
      assert stored == [0x78, 0x5E] + [];
      assert Inflate.AdlerA(data) == 1 && Inflate.AdlerB(data) == 0;
      assert stored + Inflate.AdlerBytes(data) == [0x78, 0x5E, 0, 0, 0, 1];
      EmptyStream();
    } else {
      hide Inflate.AdlerBytes;
      StoredParts(data, stored + Inflate.AdlerBytes(data));
    }
  }

  /** The bytes that hold the choices and the end of the block. */
  function CompressedSize(data: seq<byte>, choices: seq<Choice>): nat
    requires |Inflate.FIXED.lit| == 288 && |Inflate.FIXED.dist| == 32
  {
    2 + (|BlockBits(data, choices) + Codeword(Inflate.FIXED.lit, 256)| + 7) / 8
  }

  /** out is the input as the choices say or, if that takes more room, in stored blocks. */
  ghost predicate IsOutput(data: seq<byte>, choices: seq<Choice>, out: seq<byte>)
    requires |Inflate.FIXED.lit| == 288 && |Inflate.FIXED.dist| == 32
  {
    if CompressedSize(data, choices) > StoredSize(|data|) then
      out == [0x78, 0x5E] + StoredBytes(data, STORE_MAX) + Inflate.AdlerBytes(data)
    else
      && |out| >= 6 && out[..2] == [0x78, 0x5E] && out[|out| - 4..] == Inflate.AdlerBytes(data)
      && ByteBits(out[2..|out| - 4]) == W.Padded(BlockBits(data, choices) + Codeword(Inflate.FIXED.lit, 256))
  }

  /** stbi_zlib_compress: every zlib reader gets the input back unless it is empty, and the result is
      never longer than the input in stored blocks. */
  method ZlibCompress(data: seq<byte>, quality: int) returns (out: seq<byte>, ghost choices: seq<Choice>)
    ensures Inflate.ZlibInflate(out) == Some(data) <==> data != []
    ensures data == [] ==> out == [0x78, 0x5E, 0, 0, 0, 1]
    ensures |out| <= StoredSize(|data|) + 4
    ensures AllRight(data, if quality < 5 then 5 else quality, choices) && Position(choices) == |data|
    ensures |Inflate.FIXED.lit| == 288 && |Inflate.FIXED.dist| == 32 && IsOutput(data, choices, out)
  {
    hide Compressed, Codeword, Inflate.Repeat, Deflater.Valid, Deflater.Body, Inflate.ZlibInflate, StoredBytes, ByteBits, ToBits, Inflate.AdlerBytes, Adler.BigEndian, BlockBits, W.Padded, AllRight, Position, IsOutput;
    var w := new Deflater();
    choices := CompressAll(w, data, if quality < 5 then 5 else quality);
    ghost var bits := w.Body();
    AtLeastTen(bits, data);
    ghost var pad := EndBlock(w);
    AllFlushed(w);
    Sized(data, choices, bits, pad, w.out);
    ghost var was := w.out;
    if |w.out| > StoredSize(|data|) {
      StoreInstead(w, data);
      StoredResult(data, w.out);
    } else {
      CompressedParts(data, w.out, bits, pad);
    }
    var adler := Adler.AdlerScalar(data);
    Adler.ChecksumBytes(data);
    out := w.out + Adler.BigEndian(adler);
    OutputIs(data, choices, was, w.out, out);
  }

  lemma Sized(data: seq<byte>, choices: seq<Choice>, bits: seq<bool>, pad: seq<bool>, out: seq<byte>)
    requires |Inflate.FIXED.lit| == 288 && |Inflate.FIXED.dist| == 32 && bits == BlockBits(data, choices) && |out| >= 2
    requires |pad| < 8 && (forall i :: 0 <= i < |pad| ==> !pad[i])
    requires ByteBits(out[2..]) == bits + Codeword(Inflate.FIXED.lit, 256) + pad
    ensures |out| == CompressedSize(data, choices)
    ensures ByteBits(out[2..]) == W.Padded(BlockBits(data, choices) + Codeword(Inflate.FIXED.lit, 256))
  {
    hide ByteBits, Codeword, Inflate.Repeat, BlockBits, ToBits;
    var all := bits + Codeword(Inflate.FIXED.lit, 256);
    var n := |all|;
    assert |ByteBits(out[2..])| == 8 * (|out| - 2) == n + |pad|;
    DivModUnique(n + 7, 8, |out| - 2, 7 - |pad|);
    PadLength(n, |pad|, |out| - 2);
    ZeroBits(pad);
  }

  lemma PadLength(n: nat, p: nat, bytes: nat)
    requires p < 8 && n + p == 8 * bytes
    ensures p == (8 - n % 8) % 8
  {
  }

  lemma {:induction false} ZeroBits(pad: seq<bool>)
    requires forall i :: 0 <= i < |pad| ==> !pad[i]
    ensures pad == ToBits(0, |pad|)
  {
    if pad != [] {
      ZeroBits(pad[1..]);
    }
  }

  lemma OutputIs(data: seq<byte>, choices: seq<Choice>, was: seq<byte>, body: seq<byte>, out: seq<byte>)
    requires |Inflate.FIXED.lit| == 288 && |Inflate.FIXED.dist| == 32
    requires |was| == CompressedSize(data, choices) && |was| >= 2 && was[0] == 0x78 && was[1] == 0x5E
    requires ByteBits(was[2..]) == W.Padded(BlockBits(data, choices) + Codeword(Inflate.FIXED.lit, 256))
    requires body == if |was| > StoredSize(|data|) then [0x78, 0x5E] + StoredBytes(data, STORE_MAX) else was
    requires out == body + Inflate.AdlerBytes(data)
    ensures IsOutput(data, choices, out)
  {
    hide ByteBits, Codeword, Inflate.Repeat, BlockBits, W.Padded, StoredBytes, CompressedSize, StoredSize, Inflate.AdlerBytes;
    if |was| <= StoredSize(|data|) {
      assert out[..|out| - 4] == was && out[|out| - 4..] == Inflate.AdlerBytes(data);
      assert out[..2] == [0x78, 0x5E] && out[2..|out| - 4] == was[2..];
    }
  }
}
