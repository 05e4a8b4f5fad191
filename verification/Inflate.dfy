/** A reference decoder for the deflate format (RFC 1951) inside its zlib wrapper (RFC 1950). It is
    written from the standards alone and shares nothing with the compressors and decoders whose
    output and input it judges. */
module Inflate {
  import opened Bits
  import opened Canonical
  import opened Wrappers

  /** A value read from the front of a bit string, and what is left of it. */
  datatype Read<+T> = Read(value: T, rest: seq<bool>)

  function ReadBits(bits: seq<bool>, n: nat): (r: Option<Read<nat>>)
    ensures r.Some? ==> |bits| >= n && r.value.rest == bits[n..]
  {
    if |bits| < n then None else Some(Read(FromBits(bits[..n]), bits[n..]))
  }

  ghost function ReadSym(lens: seq<nat>, bits: seq<bool>): (r: Option<Read<nat>>)
    ensures r.Some? ==> r.value.value < |lens| && |r.value.rest| < |bits|
  {
    match DecodeSym(lens, bits)
    case None => None
    case Some(s) => Some(Read(s, bits[lens[s]..]))
  }

  // Section 3.2.5: what length and distance symbols stand for.
  const LENGTH_BASE: seq<nat> :=
    [3, 4, 5, 6, 7, 8, 9, 10, 11, 13, 15, 17, 19, 23, 27, 31, 35, 43, 51, 59, 67, 83, 99, 115, 131, 163, 195, 227, 258]
  const LENGTH_EXTRA: seq<nat> :=
    [0, 0, 0, 0, 0, 0, 0, 0, 1, 1, 1, 1, 2, 2, 2, 2, 3, 3, 3, 3, 4, 4, 4, 4, 5, 5, 5, 5, 0]
  const DIST_BASE: seq<nat> :=
    [1, 2, 3, 4, 5, 7, 9, 13, 17, 25, 33, 49, 65, 97, 129, 193, 257, 385, 513, 769, 1025, 1537, 2049, 3073,
     4097, 6145, 8193, 12289, 16385, 24577]
  const DIST_EXTRA: seq<nat> :=
    [0, 0, 0, 0, 1, 1, 2, 2, 3, 3, 4, 4, 5, 5, 6, 6, 7, 7, 8, 8, 9, 9, 10, 10, 11, 11, 12, 12, 13, 13]

  /** A copy of length n from distance d back; it may overlap its own output. */
  function CopyBack(out: seq<byte>, d: nat, n: nat): (r: seq<byte>)
    requires 1 <= d <= |out|
    ensures |r| == |out| + n
    decreases n
  {
    if n == 0 then out else CopyBack(out + [out[|out| - d]], d, n - 1)
  }

  /** A length symbol with its extra bits. */
  function ReadLength(sym: nat, bits: seq<bool>): (r: Option<Read<nat>>)
    ensures r.Some? ==> |r.value.rest| <= |bits|
  {
    if !(257 <= sym <= 285) then None
    else match ReadBits(bits, LENGTH_EXTRA[sym - 257])
    case None => None
    case Some(e) => Some(Read(LENGTH_BASE[sym - 257] + e.value, e.rest))
  }

  ghost function ReadDistance(dist: seq<nat>, bits: seq<bool>): (r: Option<Read<nat>>)
    ensures r.Some? ==> |r.value.rest| < |bits| && r.value.value >= 1
  {
    match ReadSym(dist, bits)
    case None => None
    case Some(s) =>
      if s.value > 29 then None
      else match ReadBits(s.rest, DIST_EXTRA[s.value])
      case None => None
      case Some(e) => Some(Read(DIST_BASE[s.value] + e.value, e.rest))
  }

  /** Section 3.2.3: literals, matches and the end of block. */
  ghost function InflateCodes(lit: seq<nat>, dist: seq<nat>, bits: seq<bool>, out: seq<byte>)
    : (r: Option<Read<seq<byte>>>)
    ensures r.Some? ==> |r.value.rest| < |bits|
    decreases |bits|
  {
    match ReadSym(lit, bits)
    case None => None
    case Some(s) =>
      if s.value < 256 then InflateCodes(lit, dist, s.rest, out + [s.value])
      else if s.value == 256 then Some(Read(out, s.rest))
      else match ReadLength(s.value, s.rest)
      case None => None
      case Some(n) =>
        match ReadDistance(dist, n.rest)
        case None => None
        case Some(d) =>
          if d.value > |out| then None
          else InflateCodes(lit, dist, d.rest, CopyBack(out, d.value, n.value))
  }

  // Section 3.2.7: dynamic Huffman codes.
  const LENGTH_ORDER: seq<nat> := [16, 17, 18, 0, 8, 7, 9, 6, 10, 5, 11, 4, 12, 3, 13, 2, 14, 1, 15]

  function Repeat(v: nat, n: nat): (s: seq<nat>)
    ensures |s| == n && forall i :: 0 <= i < n ==> s[i] == v
  {
    if n == 0 then [] else [v] + Repeat(v, n - 1)
  }

  /** n three-bit lengths, in the order of the code length alphabet. */
  function ReadClens(n: nat, bits: seq<bool>): (r: Option<Read<seq<nat>>>)
    ensures r.Some? ==> |r.value.value| == n && |r.value.rest| <= |bits|
    decreases n
  {
    if n == 0 then Some(Read([], bits))
    else match ReadBits(bits, 3)
    case None => None
    case Some(v) =>
      match ReadClens(n - 1, v.rest)
      case None => None
      case Some(r) => Some(Read([v.value] + r.value, r.rest))
  }

  /** Lengths listed in the order of the alphabet, put where they belong; the others are zero. */
  function Unswizzle(lens: seq<nat>): (r: seq<nat>)
    requires |lens| <= 19
    ensures |r| == 19
  {
    if lens == [] then Zeros(19)
    else
      var n := |lens| - 1;
      Unswizzle(lens[..n])[LENGTH_ORDER[n] := lens[n]]
  }

  /** Code lengths, run-length coded, until there are n of them. */
  ghost function ReadLens(cl: seq<nat>, n: nat, bits: seq<bool>, acc: seq<nat>): (r: Option<Read<seq<nat>>>)
    ensures r.Some? ==> |r.value.value| == n && |r.value.rest| <= |bits|
    decreases |bits|
  {
    if |acc| == n then Some(Read(acc, bits))
    else if |acc| > n then None
    else match ReadSym(cl, bits)
    case None => None
    case Some(s) =>
      if s.value < 16 then ReadLens(cl, n, s.rest, acc + [s.value])
      else if s.value == 16 then
        if acc == [] then None
        else match ReadBits(s.rest, 2)
        case None => None
        case Some(k) => ReadLens(cl, n, k.rest, acc + Repeat(acc[|acc| - 1], 3 + k.value))
      else if s.value == 17 then
        match ReadBits(s.rest, 3)
        case None => None
        case Some(k) => ReadLens(cl, n, k.rest, acc + Repeat(0, 3 + k.value))
      else
        match ReadBits(s.rest, 7)
        case None => None
        case Some(k) => ReadLens(cl, n, k.rest, acc + Repeat(0, 11 + k.value))
  }

  datatype Codes = Codes(lit: seq<nat>, dist: seq<nat>)

  /** A literal code must be exactly filled and able to end the block; a distance code must be
      exactly filled, or hold at most one code, of one bit. */
  ghost predicate ValidCodes(c: Codes) {
    && Complete(c.lit, 15) && |c.lit| > 256 && c.lit[256] > 0
    && (Complete(c.dist, 15) || (Bounded(c.dist, 1) && Count(c.dist, 1) <= 1))
  }

  datatype Sizes = Sizes(nlit: nat, ndist: nat, nclen: nat)

  function ReadSizes(bits: seq<bool>): (r: Option<Read<Sizes>>)
    ensures r.Some? ==> |r.value.rest| < |bits|
  {
    match ReadBits(bits, 5)
    case None => None
    case Some(hlit) =>
      match ReadBits(hlit.rest, 5)
      case None => None
      case Some(hdist) =>
        match ReadBits(hdist.rest, 4)
        case None => None
        case Some(hclen) =>
          var n := Sizes(257 + hlit.value, 1 + hdist.value, 4 + hclen.value);
          if n.nlit > 286 || n.ndist > 30 || n.nclen > 19 then None else Some(Read(n, hclen.rest))
  }

  ghost function ReadDynamicCodes(n: Sizes, cl: seq<nat>, bits: seq<bool>): (r: Option<Read<Codes>>)
    ensures r.Some? ==> |r.value.rest| <= |bits| && ValidCodes(r.value.value)
  {
    match ReadLens(cl, n.nlit + n.ndist, bits, [])
    case None => None
    case Some(lens) =>
      var c := Codes(lens.value[..n.nlit], lens.value[n.nlit..]);
      if ValidCodes(c) then Some(Read(c, lens.rest)) else None
  }

  ghost function ReadDynamicHeader(bits: seq<bool>): (r: Option<Read<Codes>>)
    ensures r.Some? ==> |r.value.rest| < |bits| && ValidCodes(r.value.value)
  {
    match ReadSizes(bits)
    case None => None
    case Some(n) =>
      match ReadClens(n.value.nclen, n.rest)
      case None => None
      case Some(clens) =>
        if |clens.value| > 19 || !Complete(Unswizzle(clens.value), 7) then None
        else ReadDynamicCodes(n.value, Unswizzle(clens.value), clens.rest)
  }

  /** Section 3.2.6: the fixed codes. */
  const FIXED: Codes := Codes(Repeat(8, 144) + Repeat(9, 112) + Repeat(7, 24) + Repeat(8, 8), Repeat(5, 32))

  /** Section 3.2.4: a stored block starts at the next byte boundary. The stream is a whole number of
      bytes, so what is left over modulo 8 is the rest of the current byte. */
  function ToByteBoundary(bits: seq<bool>): (r: seq<bool>)
    ensures |r| <= |bits| && |r| % 8 == 0
  {
    bits[|bits| % 8..]
  }

  /** The first n bytes. */
  function BytesOf(bits: seq<bool>, n: nat): (r: seq<byte>)
    requires |bits| >= 8 * n
    ensures |r| == n
  {
    if n == 0 then [] else
      Pow2Values();
      [FromBits(bits[..8])] + BytesOf(bits[8..], n - 1)
  }

  function ReadStored(bits: seq<bool>): (r: Option<Read<seq<byte>>>)
    ensures r.Some? ==> |r.value.rest| <= |bits|
  {
    match ReadBits(ToByteBoundary(bits), 16)
    case None => None
    case Some(len) =>
      match ReadBits(len.rest, 16)
      case None => None
      case Some(nlen) =>
        if len.value + nlen.value != 0xFFFF || |nlen.rest| < 8 * len.value then None
        else Some(Read(BytesOf(nlen.rest, len.value), nlen.rest[8 * len.value..]))
  }

  /** Section 3.2.3: blocks up to the final one. */
  ghost function InflateBlocks(bits: seq<bool>, out: seq<byte>): (r: Option<Read<seq<byte>>>)
    decreases |bits|
  {
    if |bits| < 3 then None
    else
      var final, kind, body := bits[0], FromBits(bits[1..3]), bits[3..];
      var block := if kind == 0 then
          match ReadStored(body)
          case None => None
          case Some(s) => Some(Read(out + s.value, s.rest))
        else if kind == 1 then InflateCodes(FIXED.lit, FIXED.dist, body, out)
        else if kind == 2 then
          match ReadDynamicHeader(body)
          case None => None
          case Some(c) => InflateCodes(c.value.lit, c.value.dist, c.rest, out)
        else None;
      match block
      case None => None
      case Some(b) => if final then Some(b) else InflateBlocks(b.rest, b.value)
  }

  // Section 8.2 of RFC 1950: the Adler-32 checksum.
  const ADLER_BASE: nat := 65521

  function AdlerA(data: seq<byte>): (a: nat)
    ensures a < ADLER_BASE
  {
    if data == [] then 1 else (AdlerA(data[..|data| - 1]) + data[|data| - 1]) % ADLER_BASE
  }

  function AdlerB(data: seq<byte>): (b: nat)
    ensures b < ADLER_BASE
  {
    if data == [] then 0 else (AdlerB(data[..|data| - 1]) + AdlerA(data)) % ADLER_BASE
  }

  /** The checksum as it ends a zlib stream: most significant byte first, b before a. */
  function AdlerBytes(data: seq<byte>): (s: seq<byte>)
    ensures |s| == 4
  {
    var a, b := AdlerA(data), AdlerB(data);
    [b / 256, b % 256, a / 256, a % 256]
  }

  /** Section 2.2 of RFC 1950: header, deflate stream, checksum, and nothing more. */
  ghost function ZlibInflate(data: seq<byte>): Option<seq<byte>> {
    if |data| < 6 then None
    else
      var cmf: int, flg: int := data[0], data[1];
      if cmf % 16 != 8 || cmf / 16 > 7 || (256 * cmf + flg) % 31 != 0 || (flg / 32) % 2 != 0 then None
      else match InflateBlocks(ByteBits(data[2..]), [])
      case None => None
      case Some(r) =>
        if |ToByteBoundary(r.rest)| == 32 && data[|data| - 4..] == AdlerBytes(r.value) then Some(r.value)
        else None
  }

  lemma ZlibParts(data: seq<byte>, out: seq<byte>, rest: seq<bool>)
    requires |data| >= 6 && data[0] == 0x78 && (data[1] == 0x01 || data[1] == 0x5E)
    requires InflateBlocks(ByteBits(data[2..]), []) == Some(Read(out, rest))
    requires |ToByteBoundary(rest)| == 32 && data[|data| - 4..] == AdlerBytes(out)
    ensures ZlibInflate(data) == Some(out)
  {
    hide InflateBlocks, ToByteBoundary, AdlerBytes, ByteBits;
  }
}
