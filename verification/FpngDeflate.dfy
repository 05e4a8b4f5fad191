/** The second pass of fpng's encoders: header, symbols, end of block, checksum
    (libs/fpng/fpng.cpp:1080-1160, 1360-1446), and what a zlib reader makes of the result. */
module FpngDeflate {
  import Adler
  import opened Arith
  import opened Bits
  import opened BitWriter
  import opened Canonical
  import opened Wrappers
  import opened DynamicHeader
  import opened FpngEncode
  import opened FpngFrequencies
  import opened FpngTokens
  import opened HuffmanTable
  import opened MinimumRedundancy
  import Inflate

  // ---- The encoder's table and the trimmed lengths in the header name the same code.

  ghost predicate TailZero(lens: seq<nat>, n: nat) {
    n <= |lens| && forall i :: n <= i < |lens| ==> lens[i] == 0
  }

  lemma {:induction false} TrimCounts(lens: seq<nat>, n: nat, l: nat)
    requires TailZero(lens, n) && l >= 1
    ensures Count(lens[..n], l) == Count(lens, l)
    decreases |lens|
  {
    if n < |lens| {
      var k := |lens| - 1;
      TrimCounts(lens[..k], n, l);
      assert lens[..k][..n] == lens[..n];
    } else {
      assert lens[..n] == lens;
    }
  }

  lemma {:induction false} TrimNextCode(lens: seq<nat>, n: nat, l: nat)
    requires TailZero(lens, n)
    ensures NextCode(lens[..n], l) == NextCode(lens, l)
  {
    if l > 1 {
      TrimNextCode(lens, n, l - 1);
      TrimCounts(lens, n, l - 1);
    }
  }

  lemma TrimCodeword(lens: seq<nat>, n: nat, s: nat)
    requires TailZero(lens, n) && s < n
    ensures Codeword(lens[..n], s) == Codeword(lens, s)
  {
    TrimNextCode(lens, n, lens[s]);
    assert lens[..n][..s] == lens[..s];
  }

  /** What the table puts for a symbol is the codeword of that symbol. */
  ghost predicate Agrees(lit: Table, lens: seq<nat>) {
    && |lit.sizes| == |lit.codes| == 288
    && forall s :: Has(lens, s) ==> Entry(lit, lens, s)
  }

  ghost predicate Entry(lit: Table, lens: seq<nat>, s: nat)
    requires |lit.sizes| == |lit.codes| == 288
  {
    s < 288 && 1 <= lit.sizes[s] <= 12 && lit.codes[s] < Pow2(lit.sizes[s])
    && ToBits(lit.codes[s], lit.sizes[s]) == Word(lens, s)
  }

  lemma TrimmedAgrees(lit: Table, n: nat)
    requires |lit.sizes| == |lit.codes| == 288 && TailZero(lit.sizes, n)
    requires SendsCodes(lit.sizes, lit.codes, 288) && Bounded(lit.sizes, 12)
    ensures Agrees(lit, lit.sizes[..n])
    ensures forall s :: 0 <= s < 288 && lit.sizes[s] > 0 ==> Has(lit.sizes[..n], s)
  {
    forall s | Has(lit.sizes[..n], s)
      ensures Entry(lit, lit.sizes[..n], s)
    {
      TrimCodeword(lit.sizes, n, s);
    }
  }

  // ---- Putting symbols.

  method PutWord(w: BitWriter, lit: Table, s: nat, ghost lens: seq<nat>)
    requires w.Valid() && w.bitBufSize + 12 <= 64 && Agrees(lit, lens) && Has(lens, s)
    modifies w`bitBuf, w`bitBufSize
    ensures w.Valid() && w.bitBufSize <= old(w.bitBufSize) + 12
    ensures w.Written() == old(w.Written()) + Word(lens, s)
  {
    assert Entry(lit, lens, s);
    hide Pow2;
    w.PutBits(lit.codes[s], lit.sizes[s]);
  }

  /** The three or four literals of a pixel; four flush first if the buffer is nearly full. */
  method PutPixel(w: BitWriter, lit: Table, px: Pixel, ghost lens: seq<nat>) returns (ok: bool)
    requires w.Valid() && w.bitBufSize <= 27 && Agrees(lit, lens) && (|px| == 3 || |px| == 4)
    requires forall i :: 0 <= i < |px| ==> Has(lens, px[i])
    modifies w, w.dst
    ensures ok ==> w.Valid() && w.bitBufSize <= 63 && w.bitBufSize <= old(w.bitBufSize) + 12 * |px|
    ensures ok ==> w.Written() == old(w.Written()) + BytesBits(lens, px)
    ensures !ok ==> |old(w.Written())| + |BytesBits(lens, px)| + 64 > 8 * w.dst.Length
  {
    ghost var before := w.Written();
    PixelBits(lens, px, before);
    hide Agrees, Has, Word, BytesBits, BitWriter.Valid, BitWriter.Written;
    PutWord(w, lit, px[0], lens);
    PutWord(w, lit, px[1], lens);
    PutWord(w, lit, px[2], lens);
    if |px| == 4 {
      if w.bitBufSize >= 49 {
        ok := w.Flush();
        if !ok {
          return false;
        }
      }
      PutWord(w, lit, px[3], lens);
    }
    return true;
  }

  lemma BytesFront(lens: seq<nat>, b: byte, t: seq<byte>)
    ensures BytesBits(lens, [b] + t) == Word(lens, b) + BytesBits(lens, t)
    ensures BytesBits(lens, []) == []
  {
    assert ([b] + t)[1..] == t;
  }

  lemma ThreeBytes(lens: seq<nat>, a: byte, b: byte, c: byte, t: seq<byte>)
    ensures BytesBits(lens, [a] + ([b] + ([c] + t)))
         == Word(lens, a) + (Word(lens, b) + (Word(lens, c) + BytesBits(lens, t)))
  {
    hide BytesBits, Word;
    BytesFront(lens, a, [b] + ([c] + t));
    BytesFront(lens, b, [c] + t);
    BytesFront(lens, c, t);
  }

  lemma AssocThree(before: seq<bool>, a: seq<bool>, b: seq<bool>, c: seq<bool>, d: seq<bool>)
    ensures before + (a + (b + (c + d))) == before + a + b + c + d
  {
  }

  lemma PixelBits(lens: seq<nat>, px: Pixel, before: seq<bool>)
    requires |px| == 3 || |px| == 4
    ensures var r := before + Word(lens, px[0]) + Word(lens, px[1]) + Word(lens, px[2]);
      before + BytesBits(lens, px) == if |px| == 4 then r + Word(lens, px[3]) else r
  {
    hide BytesBits, Word;
    var t := px[3..];
    assert px == [px[0]] + ([px[1]] + ([px[2]] + t));
    ThreeBytes(lens, px[0], px[1], px[2], t);
    AssocThree(before, Word(lens, px[0]), Word(lens, px[1]), Word(lens, px[2]), BytesBits(lens, t));
    BytesFront(lens, px[|px| - 1], []);
    assert |px| == 4 ==> t == [px[3]] + [];
    assert |px| == 3 ==> t == [];
  }

  /** The length symbol, then its extra bits and a zero bit for the distance in one go. */
  method PutRun(w: BitWriter, lit: Table, n: nat, chans: nat, ghost lens: seq<nat>)
    requires w.Valid() && w.bitBufSize <= 7 && Agrees(lit, lens)
    requires 3 <= n * chans <= 258 && Has(lens, LenSym(n * chans - 3))
    modifies w`bitBuf, w`bitBufSize
    ensures w.Valid() && w.bitBufSize <= 25
    ensures w.Written() == old(w.Written()) + RunBits(lens, n * chans - 3)
  {
    var adj := n * chans - 3;
    LenSymRight(adj);
    ExtraAndZero(LenLow(adj), LenExtra(adj));
    ghost var before, a, b := w.Written(), Word(lens, LenSym(adj)), ToBits(LenLow(adj), LenExtra(adj));
    hide Pow2, ToBits, LenSym, LenExtra, LenLow, Agrees, Word;
    PutWord(w, lit, LenSym(adj), lens);
    w.PutBits(LenLow(adj), LenExtra(adj) + 1);
    AssocRun(before, a, b);
  }

  lemma AssocRun(before: seq<bool>, a: seq<bool>, b: seq<bool>)
    ensures before + a + (b + [false]) == before + (a + b + [false])
  {
  }

  lemma ExtraAndZero(v: nat, e: nat)
    requires v < Pow2(e)
    ensures v < Pow2(e + 1) && ToBits(v, e + 1) == ToBits(v, e) + [false]
  {
    ToBitsConcat(v, e, 0, 1);
    assert 0 * Pow2(e) == 0;
    assert ToBits(0, 1) == [false];
  }

  method PutToken(w: BitWriter, lit: Table, t: Token, chans: nat, ghost lens: seq<nat>) returns (ok: bool)
    requires w.Valid() && w.bitBufSize <= 7 && Agrees(lit, lens) && Sendable(lens, t, chans)
    requires chans == 3 || chans == 4
    requires t.Literal? ==> |t.px| == chans
    modifies w, w.dst
    ensures ok ==> w.Valid() && w.bitBufSize <= 7 && w.Written() == old(w.Written()) + TokenBits(lens, t, chans)
    ensures !ok ==> |old(w.Written())| + |TokenBits(lens, t, chans)| + 64 > 8 * w.dst.Length
  {
    hide Agrees, Word, RunBits, BytesBits, BitWriter.Valid, BitWriter.Written;
    ok := true;
    match t {
      case Literal(px) =>
        ok := PutPixel(w, lit, px, lens);
      case Filter(b) =>
        PutWord(w, lit, b, lens);
      case Run(n) =>
        PutRun(w, lit, n, chans, lens);
    }
    if ok {
      ok := w.Flush();
    }
  }

  lemma {:induction false} ItemsBitsSnoc(lit: seq<nat>, items: seq<Token>, t: Token, chans: nat)
    ensures ItemsBits(lit, items + [t], chans) == ItemsBits(lit, items, chans) + TokenBits(lit, t, chans)
  {
    hide TokenBits;
    if items == [] {
      assert [] + [t] == [t] && [t][1..] == [];
      assert ItemsBits(lit, [], chans) == [];
      assert TokenBits(lit, t, chans) + [] == [] + TokenBits(lit, t, chans);
    } else {
      ItemsBitsSnoc(lit, items[1..], t, chans);
      assert (items + [t])[0] == items[0] && (items + [t])[1..] == items[1..] + [t];
      Assoc(TokenBits(lit, items[0], chans), ItemsBits(lit, items[1..], chans), TokenBits(lit, t, chans));
    }
  }

  lemma {:induction false} ItemsBitsConcat(lit: seq<nat>, a: seq<Token>, b: seq<Token>, chans: nat)
    ensures ItemsBits(lit, a + b, chans) == ItemsBits(lit, a, chans) + ItemsBits(lit, b, chans)
    decreases |b|
  {
    hide TokenBits;
    if b == [] {
      assert a + b == a;
      assert ItemsBits(lit, a, chans) + [] == ItemsBits(lit, a, chans);
    } else {
      ItemsBitsSnoc(lit, a, b[0], chans);
      ItemsBitsConcat(lit, a + [b[0]], b[1..], chans);
      assert a + [b[0]] + b[1..] == a + b;
      Assoc(ItemsBits(lit, a, chans), TokenBits(lit, b[0], chans), ItemsBits(lit, b[1..], chans));
    }
  }

  lemma {:induction false} RowsBitsSnoc(lit: seq<nat>, rows: seq<Row>, r: Row, chans: nat)
    ensures RowsBits(lit, rows + [r], chans) == RowsBits(lit, rows, chans) + RowBits(lit, r, chans)
  {
    hide RowBits;
    if rows == [] {
      assert [] + [r] == [r] && [r][1..] == [];
      assert RowsBits(lit, [], chans) == [];
      assert RowBits(lit, r, chans) + [] == [] + RowBits(lit, r, chans);
    } else {
      RowsBitsSnoc(lit, rows[1..], r, chans);
      assert (rows + [r])[0] == rows[0] && (rows + [r])[1..] == rows[1..] + [r];
      Assoc(RowBits(lit, rows[0], chans), RowsBits(lit, rows[1..], chans), RowBits(lit, r, chans));
    }
  }

  lemma RowTokensBits(lit: seq<nat>, tokens: seq<Token>, r: Row, chans: nat)
    ensures ItemsBits(lit, tokens + [Filter(r.filter)] + r.items, chans)
         == ItemsBits(lit, tokens, chans) + RowBits(lit, r, chans)
  {
    ItemsBitsConcat(lit, tokens + [Filter(r.filter)], r.items, chans);
    ItemsBitsSnoc(lit, tokens, Filter(r.filter), chans);
    hide ItemsBits, Word;
    Assoc(ItemsBits(lit, tokens, chans), Word(lit, r.filter), ItemsBits(lit, r.items, chans));
  }

  /** The flat token list and the rows are the same bits. */
  lemma {:induction false} FlatBits(lit: seq<nat>, rows: seq<Row>, chans: nat)
    ensures ItemsBits(lit, FlatTokens(rows), chans) == RowsBits(lit, rows, chans)
  {
    hide RowBits, TokenBits;
    if rows != [] {
      var n := |rows| - 1;
      FlatBits(lit, rows[..n], chans);
      assert rows == rows[..n] + [rows[n]];
      RowsBitsSnoc(lit, rows[..n], rows[n], chans);
      hide ItemsBits, RowsBits;
      RowTokensBits(lit, FlatTokens(rows[..n]), rows[n], chans);
    }
  }

  ghost predicate TokensSendable(lens: seq<nat>, tokens: seq<Token>, chans: nat) {
    AllSendable(lens, tokens, chans) && forall i :: 0 <= i < |tokens| && tokens[i].Literal? ==> |tokens[i].px| == chans
  }

  method PutTokens(w: BitWriter, lit: Table, tokens: seq<Token>, chans: nat, ghost lens: seq<nat>) returns (ok: bool)
    requires w.Valid() && w.bitBufSize <= 7 && Agrees(lit, lens) && TokensSendable(lens, tokens, chans)
    requires chans == 3 || chans == 4
    modifies w, w.dst
    ensures ok ==> w.Valid() && w.bitBufSize <= 7 && w.Written() == old(w.Written()) + ItemsBits(lens, tokens, chans)
    ensures !ok ==> |old(w.Written())| + |ItemsBits(lens, tokens, chans)| + 64 > 8 * w.dst.Length
  {
    hide Agrees, TokenBits, ItemsBits, Sendable, BitWriter.Valid, BitWriter.Written;
    ghost var before := w.Written();
    var i := 0;
    NoBits(lens, tokens, chans, before);
    while i < |tokens|
      invariant 0 <= i <= |tokens| && w.Valid() && w.bitBufSize <= 7
      invariant w.Written() == before + ItemsBits(lens, tokens[..i], chans)
    {
      ok := PutToken(w, lit, tokens[i], chans, lens);
      ItemsBitsSnoc(lens, tokens[..i], tokens[i], chans);
      assert tokens[..i] + [tokens[i]] == tokens[..i + 1];
      if !ok {
        ItemsBitsGrow(lens, tokens, i + 1, chans);
        return false;
      }
      Assoc(before, ItemsBits(lens, tokens[..i], chans), TokenBits(lens, tokens[i], chans));
      i := i + 1;
    }
    assert tokens[..i] == tokens;
    return true;
  }

  lemma ItemsBitsGrow(lens: seq<nat>, tokens: seq<Token>, n: nat, chans: nat)
    requires n <= |tokens|
    ensures |ItemsBits(lens, tokens[..n], chans)| <= |ItemsBits(lens, tokens, chans)|
  {
    ItemsBitsConcat(lens, tokens[..n], tokens[n..], chans);
    hide ItemsBits;
    assert tokens[..n] + tokens[n..] == tokens;
  }

  lemma NoBits(lens: seq<nat>, tokens: seq<Token>, chans: nat, before: seq<bool>)
    ensures before + ItemsBits(lens, tokens[..0], chans) == before
  {
    assert tokens[..0] == [];
  }

  // ---- The zlib stream.

  function StreamBits(hb: seq<bool>, lens: seq<nat>, rows: seq<Row>, chans: nat): seq<bool> {
    [true] + ToBits(2, 2) + hb + RowsBits(lens, rows, chans) + Word(lens, 256)
  }

  /** data is a zlib stream of one final dynamic block holding the rows, and their checksum. */
  ghost predicate FpngStream(data: seq<byte>, hb: seq<bool>, c: Inflate.Codes, rows: seq<Row>, w: nat, chans: nat) {
    && IsHeader(hb, c) && FpngCodes(c, chans) && GoodRows(c.lit, rows, w, chans)
    && |data| >= 7 && data[0] == 0x78 && data[1] == 0x01
    && ByteBits(data[2..|data| - 4]) == Padded(StreamBits(hb, c.lit, rows, chans))
    && data[|data| - 4..] == Inflate.AdlerBytes(ImageBytes(rows))
  }

  lemma StreamSplit(hb: seq<bool>, lens: seq<nat>, rows: seq<Row>, chans: nat, rest: seq<bool>)
    ensures StreamBits(hb, lens, rows, chans) + rest
         == [true] + (ToBits(2, 2) + (hb + (RowsBits(lens, rows, chans) + (Word(lens, 256) + rest))))
  {
    hide ToBits, RowsBits, Word;
    var a, b, d := ToBits(2, 2), RowsBits(lens, rows, chans), Word(lens, 256);
    Assoc([true] + a + hb + b, d, rest);
    Assoc([true] + a + hb, b, d + rest);
    Assoc([true] + a, hb, b + (d + rest));
    Assoc([true], a, hb + (b + (d + rest)));
  }

  lemma BlockKind(tail: seq<bool>)
    ensures var bits := [true] + (ToBits(2, 2) + tail);
      |bits| >= 3 && bits[0] && FromBits(bits[1..3]) == 2 && bits[3..] == tail
  {
    var bits := [true] + (ToBits(2, 2) + tail);
    assert bits[1..3] == ToBits(2, 2);
    Pow2Values();
    FromToBitsFits(2, 2);
  }

  /** Any zlib reader gets the image bytes back (RFC 1950, RFC 1951). */
  lemma StreamInflates(data: seq<byte>, hb: seq<bool>, c: Inflate.Codes, rows: seq<Row>, w: nat, chans: nat)
    requires FpngStream(data, hb, c, rows, w, chans)
    ensures Inflate.ZlibInflate(data) == Some(ImageBytes(rows))
  {
    hide Inflate.InflateBlocks, Inflate.ZlibInflate, StreamBits, Inflate.AdlerBytes, ByteBits, Padded, Inflate.ToByteBoundary, ToBits, RowsBits, Word, ImageBytes, IsHeader, FpngCodes, GoodRows;
    var s := StreamBits(hb, c.lit, rows, chans);
    var tail := ToBits(0, (8 - |s| % 8) % 8) + ByteBits(data[|data| - 4..]);
    StreamBody(data, s);
    StreamSplit(hb, c.lit, rows, chans, tail);
    BlockInflates(hb, c, rows, w, chans, s + tail, tail);
    AlignTail(|s|, ToBits(0, (8 - |s| % 8) % 8), data[|data| - 4..]);
    Inflate.ZlibParts(data, ImageBytes(rows), tail);
  }

  lemma StreamBody(data: seq<byte>, s: seq<bool>)
    requires |data| >= 6 && ByteBits(data[2..|data| - 4]) == Padded(s)
    ensures ByteBits(data[2..]) == s + (ToBits(0, (8 - |s| % 8) % 8) + ByteBits(data[|data| - 4..]))
  {
    hide ByteBits, ToBits;
    CutTail(data);
    ByteBitsConcat(data[2..|data| - 4], data[|data| - 4..]);
    PaddedThen(s, ByteBits(data[|data| - 4..]));
    hide Padded;
  }

  lemma CutTail(data: seq<byte>)
    requires |data| >= 6
    ensures data[2..] == data[2..|data| - 4] + data[|data| - 4..]
  {
  }

  lemma PaddedThen(s: seq<bool>, t: seq<bool>)
    ensures Padded(s) + t == s + (ToBits(0, (8 - |s| % 8) % 8) + t)
  {
    hide ToBits;
    Assoc(s, ToBits(0, (8 - |s| % 8) % 8), t);
  }

  lemma AlignTail(n: nat, pad: seq<bool>, trailer: seq<byte>)
    requires |pad| == (8 - n % 8) % 8 && |trailer| == 4
    ensures |Inflate.ToByteBoundary(pad + ByteBits(trailer))| == 32
  {
    hide ByteBits;
    DivModUnique(|pad + ByteBits(trailer)|, 8, 4, |pad|);
  }

  lemma BlockInflates(hb: seq<bool>, c: Inflate.Codes, rows: seq<Row>, w: nat, chans: nat, bits: seq<bool>, tail: seq<bool>)
    requires IsHeader(hb, c) && FpngCodes(c, chans) && GoodRows(c.lit, rows, w, chans)
    requires bits == [true] + (ToBits(2, 2) + (hb + (RowsBits(c.lit, rows, chans) + (Word(c.lit, 256) + tail))))
    ensures Inflate.InflateBlocks(bits, []) == Some(Inflate.Read(ImageBytes(rows), tail))
  {
    hide FpngCodes, GoodRows, RowsBits, Word, ImageBytes, ToBits, Inflate.ReadDynamicHeader, Inflate.InflateCodes, Inflate.ReadStored;
    var body := RowsBits(c.lit, rows, chans) + (Word(c.lit, 256) + tail);
    BlockKind(hb + body);
    assert Inflate.ReadDynamicHeader(hb + body) == Some(Inflate.Read(c, body));
    InflateImage(c, chans, w, rows, tail);
  }

  // ---- The encoder.

  /** How often the tokens need each symbol; the end of block is needed once. */
  ghost predicate Frequencies(freq: seq<nat>, tokens: seq<Token>, chans: nat) {
    |freq| == 288 && forall s :: 0 <= s < 288 ==> freq[s] == if s == 256 then 1 else Uses(tokens, s, chans)
  }

  ghost predicate SharesOf(freq: seq<nat>, counts: seq<nat>) {
    && |freq| == |counts| == 288 && counts[256] == 1
    && forall s :: 0 <= s < 288 && s != 256 ==> Share(freq[s], Sum(freq), counts[s])
  }

  /** Exactly the symbols that are counted have codes, and what counts more never has a longer one. */
  ghost predicate Follows(lens: seq<nat>, counts: seq<nat>) {
    && |lens| <= |counts| && (forall s :: 0 <= s < |counts| ==> (counts[s] > 0 <==> Has(lens, s)))
    && forall x, y :: 0 <= x < |lens| && 0 <= y < |lens| && counts[x] > counts[y] > 0 ==> lens[x] <= lens[y]
  }

  /** A literal code made for the tokens. */
  ghost predicate MadeFor(lens: seq<nat>, tokens: seq<Token>, chans: nat) {
    exists freq: seq<nat>, counts: seq<nat> :: Frequencies(freq, tokens, chans) && SharesOf(freq, counts) && Follows(lens, counts)
  }

  /** Frequencies of an image with at least one row make two codes fpng's decoder takes. */
  method MakeCounts(freq: seq<nat>, chans: nat, ghost first: byte) returns (litCount: seq<uint16>, distCount: seq<uint16>)
    requires (chans == 3 || chans == 4) && |freq| == 288 && freq[286] == freq[287] == 0 && freq[256] == 1
    requires freq[first] > 0 && Sum(freq) < 0x1_0000_0000
    ensures BlockCounts(litCount, distCount)
    ensures SharesOf(freq, litCount) && forall i :: 0 <= i < 288 && freq[i] > 0 ==> litCount[i] > 0
    ensures distCount == Distances(chans)
  {
    hide Sum;
    var freq16, halved := AdjustFreq32(freq);
    litCount := freq16[256 := 1];
    SumUpdate(freq16, 256, 1);
    TwoUsed(litCount, first, 256);
    distCount := Distances(chans);
    DistancesSum(chans);
    TwoUsed(distCount, chans - 1, chans);
    assert litCount[286] == 0 && litCount[287] == 0;
  }

  /** Distance chans, and the next one so that the code is complete. */
  function Distances(chans: nat): (s: seq<uint16>)
    requires chans == 3 || chans == 4
    ensures |s| == 32 && forall i :: 0 <= i < 32 ==> s[i] == if i == chans - 1 || i == chans then 1 else 0
  {
    seq(32, i => if i == chans - 1 || i == chans then 1 else 0)
  }

  lemma DistancesSum(chans: nat)
    requires chans == 3 || chans == 4
    ensures Sum(Distances(chans)) == 2
  {
    SumZeros(32);
    var z := Zeros(32);
    SumUpdate(z, chans - 1, 1);
    SumUpdate(z[chans - 1 := 1], chans, 1);
    var d: seq<nat> := Distances(chans);
    assert d == z[chans - 1 := 1][chans := 1];
  }

  /** Two symbols alone in a complete code have one bit each. */
  lemma TwoOnly(sizes: seq<nat>, x: nat)
    requires x + 1 < |sizes| && Complete(sizes, 12) && sizes[x] > 0 && sizes[x + 1] > 0
    requires forall i :: 0 <= i < |sizes| && i != x && i != x + 1 ==> sizes[i] == 0
    ensures sizes[x] == sizes[x + 1] == 1
  {
    KraftTwo(sizes, x, |sizes|);
    assert sizes[..|sizes|] == sizes;
    TwoHalves(sizes[x], sizes[x + 1]);
    hide Pow2;
  }

  /** Two codewords fill the code space only if each takes half of it. */
  lemma TwoHalves(a: nat, b: nat)
    requires 1 <= a <= 12 && 1 <= b <= 12 && Pow2(12 - a) + Pow2(12 - b) == Pow2(12)
    ensures a == b == 1
  {
    hide Pow2;
    Halves();
    Pow2Monotone(12 - a, 11);
    Pow2Monotone(12 - b, 11);
    if a > 1 {
      Pow2Monotone(12 - a, 10);
    }
    if b > 1 {
      Pow2Monotone(12 - b, 10);
    }
  }

  lemma Halves()
    ensures Pow2(12) == 2 * Pow2(11) && Pow2(11) == 2 * Pow2(10) && Pow2(10) > 0
  {
  }

  lemma {:induction false} KraftTwo(sizes: seq<nat>, x: nat, n: nat)
    requires x + 1 < |sizes| && Bounded(sizes, 12) && sizes[x] > 0 && sizes[x + 1] > 0
    requires forall i :: 0 <= i < |sizes| && i != x && i != x + 1 ==> sizes[i] == 0
    requires n <= |sizes|
    ensures Kraft(sizes[..n], 12) == (if n > x then Pow2(12 - sizes[x]) else 0) + (if n > x + 1 then Pow2(12 - sizes[x + 1]) else 0)
  {
    if n > 0 {
      KraftTwo(sizes, x, n - 1);
      assert sizes[..n][..n - 1] == sizes[..n - 1];
    }
  }

  /** The codes of an encoder's header are fpng codes. */
  lemma MadeCodes(c: Inflate.Codes, lit: Table, dist: Table, chans: nat, litCount: seq<uint16>)
    requires chans == 3 || chans == 4
    requires TableFor(litCount, 12, lit.sizes, lit.codes) && |litCount| == 288
    requires TableFor(Distances(chans), 12, dist.sizes, dist.codes) && |Used(Distances(chans))| >= 2
    requires |Used(litCount)| >= 2 && Trims(c, lit.sizes, dist.sizes) && Inflate.ValidCodes(c)
    ensures FpngCodes(c, chans)
    ensures Agrees(lit, c.lit)
    ensures forall s :: 0 <= s < 288 && litCount[s] > 0 ==> Has(c.lit, s)
  {
    hide Complete, SendsCodes, Agrees, Inflate.ValidCodes, Used;
    var d := dist.sizes;
    assert d[chans - 1] > 0 && d[chans] > 0;
    TwoOnly(d, chans - 1);
    TrimComplete(lit.sizes, |c.lit|, 12, 12);
    assert |c.dist| == chans + 1;
    TrimmedAgrees(lit, |c.lit|);
  }

  lemma CoveredSendable(freq: seq<nat>, lens: seq<nat>, rows: seq<Row>, w: nat, chans: nat)
    requires RowsDone(rows, w, freq, chans) && forall s :: 0 <= s < 288 && freq[s] > 0 ==> Has(lens, s)
    ensures GoodRows(lens, rows, w, chans)
  {
    forall i | 0 <= i < |rows|
      ensures GoodRow(lens, rows[i], w, chans)
    {
      ItemsSendable(freq, lens, rows[i].items, chans);
    }
  }

  lemma ItemsSendable(freq: seq<nat>, lens: seq<nat>, items: seq<Token>, chans: nat)
    requires CoversAll(freq, items, chans) && |freq| == 288 && forall s :: 0 <= s < 288 && freq[s] > 0 ==> Has(lens, s)
    ensures AllSendable(lens, items, chans)
  {
    forall i | 0 <= i < |items|
      ensures Sendable(lens, items[i], chans)
    {
      assert Covers(freq, items[i], chans);
    }
  }

  lemma {:induction false} FlatSendable(lens: seq<nat>, rows: seq<Row>, w: nat, chans: nat)
    requires GoodRows(lens, rows, w, chans)
    ensures TokensSendable(lens, FlatTokens(rows), chans)
  {
    if rows != [] {
      var n := |rows| - 1;
      FlatSendable(lens, rows[..n], w, chans);
      assert GoodRow(lens, rows[n], w, chans);
      forall i | 0 <= i < |rows[n].items| && rows[n].items[i].Literal?
        ensures |rows[n].items[i].px| == chans
      {
        assert PixelToken(rows[n].items[i], chans);
      }
      hide Sendable, GoodRow;
      assert Sendable(lens, Filter(rows[n].filter), chans) by {
        assert Has(lens, rows[n].filter);
      }
    }
  }

  lemma ByteBitsFront(d: seq<byte>, a: byte, t: seq<bool>)
    requires ByteBits(d) == ToBits(a, 8) + t
    ensures |d| >= 1 && d[0] == a && ByteBits(d[1..]) == t
  {
    assert |ByteBits(d)| >= 8;
    var x := ToBits(d[0], 8);
    assert ByteBits(d) == x + ByteBits(d[1..]);
    assert ByteBits(d)[..8] == x && ByteBits(d)[..8] == ToBits(a, 8);
    assert ByteBits(d)[8..] == ByteBits(d[1..]) && ByteBits(d)[8..] == t;
    Pow2Values();
    FromToBitsFits(a, 8);
    FromToBitsFits(d[0], 8);
  }

  lemma ZlibHeader(d: seq<byte>, s: seq<bool>)
    requires ByteBits(d) == Padded(ToBits(0x78, 8) + ToBits(0x01, 8) + s)
    ensures |d| >= 2 && d[0] == 0x78 && d[1] == 0x01 && ByteBits(d[2..]) == Padded(s)
  {
    hide ToBits, ByteBits;
    var a, b, n := ToBits(0x78, 8), ToBits(0x01, 8), |s|;
    var pad := ToBits(0, (8 - n % 8) % 8);
    assert (16 + n) % 8 == n % 8;
    Assoc(a + b, s, pad);
    Assoc(a, b, s + pad);
    ByteBitsFront(d, 0x78, b + (s + pad));
    ByteBitsFront(d[1..], 0x01, s + pad);
    assert d[1..][0] == d[1] && d[1..][1..] == d[2..];
  }

  /** Everything put before the final flush, in order. */
  lemma StreamWritten(hb: seq<bool>, lens: seq<nat>, rows: seq<Row>, chans: nat, head: seq<bool>)
    ensures head + [true] + ToBits(2, 2) + hb + RowsBits(lens, rows, chans) + Word(lens, 256)
         == head + StreamBits(hb, lens, rows, chans)
  {
    hide ToBits, RowsBits, Word;
    var a, b, d := ToBits(2, 2), RowsBits(lens, rows, chans), Word(lens, 256);
    Assoc(head, [true], a);
    Assoc(head, [true] + a, hb);
    Assoc(head, [true] + a + hb, b);
    Assoc(head, [true] + a + hb + b, d);
  }

  /** The zlib header and the final-block bit. */
  method PutZlibHeader(w: BitWriter)
    requires w.Valid() && w.Written() == [] && w.bitBufSize == 0
    modifies w
    ensures w.Valid() && w.bitBufSize == 17 && w.Written() == ToBits(0x78, 8) + ToBits(0x01, 8) + [true]
  {
    Pow2Values();
    assert ToBits(1, 1) == [true];
    hide Pow2, ToBits, BitWriter.Valid, BitWriter.Written;
    w.PutBits(0x78, 8);
    w.PutBits(0x01, 8);
    w.PutBits(1, 1);
    assert [] + ToBits(0x78, 8) == ToBits(0x78, 8);
  }

  /** Symbols, end of block, padding; the bytes so far. */
  method PutSymbols(w: BitWriter, lit: Table, tokens: seq<Token>, chans: nat, ghost c: Inflate.Codes, ghost rows: seq<Row>)
    returns (ok: bool)
    requires w.Valid() && w.bitBufSize <= 7 && Agrees(lit, c.lit) && Has(c.lit, 256)
    requires (chans == 3 || chans == 4) && tokens == FlatTokens(rows) && TokensSendable(c.lit, tokens, chans)
    modifies w, w.dst
    ensures ok ==> w.dstOfs <= w.dst.Length
    ensures ok ==> ByteBits(w.dst[..w.dstOfs]) == Padded(old(w.Written()) + RowsBits(c.lit, rows, chans) + Word(c.lit, 256))
    ensures !ok ==> |old(w.Written())| + |RowsBits(c.lit, rows, chans)| + |Word(c.lit, 256)| + 64 > 8 * w.dst.Length
  {
    hide Agrees, TokensSendable, ItemsBits, RowsBits, Word, Padded, Has, BitWriter.Valid, BitWriter.Written;
    FlatBits(c.lit, rows, chans);
    ok := PutTokens(w, lit, tokens, chans, c.lit);
    if ok {
      PutWord(w, lit, 256, c.lit);
      ok := w.ForceFlush();
    }
  }

  /** The bits before the checksum: the zlib header and the block. */
  function StreamSize(hb: seq<bool>, lens: seq<nat>, rows: seq<Row>, chans: nat): nat {
    16 + |StreamBits(hb, lens, rows, chans)|
  }

  lemma StreamLength(hb: seq<bool>, lens: seq<nat>, rows: seq<Row>, chans: nat)
    ensures StreamSize(hb, lens, rows, chans) == 16 + |StreamBits(hb, lens, rows, chans)|
    ensures |StreamBits(hb, lens, rows, chans)| == 3 + |hb| + |RowsBits(lens, rows, chans)| + |Word(lens, 256)|
  {
    hide ToBits, RowsBits, Word;
  }

  /** It fails only if dst is too small for the stream, with its checksum or with the eight bytes that are
      stored at a time. */
  method PixelDeflateDynRle(img: seq<byte>, w: nat, h: nat, chans: nat, dst: array<byte>, sse41: bool)
    returns (size: nat, ghost hb: seq<bool>, ghost c: Inflate.Codes, ghost rows: seq<Row>)
    requires (chans == 3 || chans == 4) && w >= 1 && h >= 1
    requires |img| == h * (1 + Times(w, chans)) && |img| + 1 < 0x1_0000_0000
    modifies dst
    ensures size <= dst.Length && |rows| == h && ImageBytes(rows) == img
    ensures GreedyRows(rows, chans) && MadeFor(c.lit, FlatTokens(rows), chans)
    ensures IsHeader(hb, c) && FpngCodes(c, chans) && GoodRows(c.lit, rows, w, chans)
    ensures size > 0 ==> FpngStream(dst[..size], hb, c, rows, w, chans)
    ensures size > 0 ==> Inflate.ZlibInflate(dst[..size]) == Some(img)
    ensures size == 0 ==> 8 * dst.Length < StreamSize(hb, c.lit, rows, chans) + 64
  {
    hide Inflate.ZlibInflate, FpngStream, FpngCodes, GoodRows, GreedyRows, MadeFor, CountsUp, SharesOf, Agrees, TokensSendable, RowsDone, ImageBytes, FlatTokens, BlockCounts, TableFor, Trims, IsHeader, Times, Sum, BitWriter.Valid, BitWriter.Written, StreamBits, StreamSize, Inflate.ValidCodes, ByteBits, ToBits, Pow2, RowsBits, Word, Padded;
    var bw := new BitWriter(dst);
    PutZlibHeader(bw);
    var tokens, freq;
    tokens, freq, rows := CollectTokens(img, w, h, chans);
    var adler := Adler.Adler32(img, sse41);
    var litCount, distCount := CountSymbols(freq, chans, rows, w, |img|);
    var ok, lit, dist;
    ok, lit, dist, hb, c := StartDynamicBlock(bw, litCount, distCount);
    HeaderMade(hb, c, lit, dist, chans, litCount, distCount, freq, rows, w);
    CodeMade(c, lit, dist, tokens, chans, freq, litCount);
    StreamLength(hb, c.lit, rows, chans);
    if !ok {
      return 0, hb, c, rows;
    }
    ok := PutSymbols(bw, lit, tokens, chans, c, rows);
    if !ok {
      return 0, hb, c, rows;
    }
    StreamWritten(hb, c.lit, rows, chans, ToBits(0x78, 8) + ToBits(0x01, 8));
    var end := bw.dstOfs;
    ghost var body := dst[..end];
    PaddedSize(body, ToBits(0x78, 8) + ToBits(0x01, 8) + StreamBits(hb, c.lit, rows, chans));
    size := Adler.PutAdler(dst, end, adler, img);
    if size > 0 {
      StreamMade(dst[..size], body, hb, c, rows, w, chans);
      StreamInflates(dst[..size], hb, c, rows, w, chans);
    }
  }

  lemma PaddedSize(body: seq<byte>, bits: seq<bool>)
    requires ByteBits(body) == Padded(bits)
    ensures 8 * |body| < |bits| + 8
  {
    hide ByteBits, ToBits;
  }

  lemma StreamMade(data: seq<byte>, body: seq<byte>, hb: seq<bool>, c: Inflate.Codes, rows: seq<Row>, w: nat, chans: nat)
    requires IsHeader(hb, c) && FpngCodes(c, chans) && GoodRows(c.lit, rows, w, chans)
    requires ByteBits(body) == Padded(ToBits(0x78, 8) + ToBits(0x01, 8) + StreamBits(hb, c.lit, rows, chans))
    requires |data| == |body| + 4 && data[..|body|] == body && data[|body|..] == Inflate.AdlerBytes(ImageBytes(rows))
    ensures FpngStream(data, hb, c, rows, w, chans)
  {
    hide ToBits, ByteBits, Padded, IsHeader, FpngCodes, GoodRows, Inflate.AdlerBytes, ImageBytes;
    var s := StreamBits(hb, c.lit, rows, chans);
    ZlibHeader(body, s);
    assert data[2..|data| - 4] == body[2..];
    StreamNotEmpty(body, s);
  }

  lemma StreamNotEmpty(body: seq<byte>, s: seq<bool>)
    requires |body| >= 2 && ByteBits(body[2..]) == Padded(s) && |s| >= 1
    ensures |body| >= 3
  {
    hide ByteBits;
    assert |Padded(s)| >= 1;
    assert |ByteBits(body[2..])| == 8 * (|body| - 2);
  }

  /** The counts handed to the header: EOB is counted once, every symbol of a token at least once. */
  method CountSymbols(freq: seq<nat>, chans: nat, ghost rows: seq<Row>, ghost w: nat, ghost total: nat)
    returns (litCount: seq<uint16>, distCount: seq<uint16>)
    requires (chans == 3 || chans == 4) && RowsDone(rows, w, freq, chans) && rows != []
    requires Tally(freq, total) && total + 1 < 0x1_0000_0000
    ensures BlockCounts(litCount, distCount) && distCount == Distances(chans)
    ensures SharesOf(freq[256 := 1], litCount)
    ensures forall s :: 0 <= s < 288 && freq[s] > 0 ==> litCount[s] > 0
  {
    hide Sum, BlockCounts, SharesOf;
    SumUpdate(freq, 256, 1);
    litCount, distCount := MakeCounts(freq[256 := 1], chans, rows[0].filter);
  }

  lemma CodeMade(c: Inflate.Codes, lit: Table, dist: Table, tokens: seq<Token>, chans: nat, freq: seq<nat>, litCount: seq<uint16>)
    requires Trims(c, lit.sizes, dist.sizes) && TableFor(litCount, 12, lit.sizes, lit.codes)
    requires |freq| == 288 && CountsUp(Zeros(288), freq, tokens, chans) && SharesOf(freq[256 := 1], litCount)
    ensures MadeFor(c.lit, tokens, chans)
  {
    hide Uses, SharesOf, Sum, Bounded, Complete, SendsCodes, Used;
    assert Frequencies(freq[256 := 1], tokens, chans);
    SharesShape(freq[256 := 1], litCount);
    assert Follows(c.lit, litCount);
  }

  lemma SharesShape(freq: seq<nat>, counts: seq<nat>)
    requires SharesOf(freq, counts)
    ensures |counts| == 288
  {
  }

  lemma HeaderMade(hb: seq<bool>, c: Inflate.Codes, lit: Table, dist: Table, chans: nat,
                   litCount: seq<uint16>, distCount: seq<uint16>, freq: seq<nat>, rows: seq<Row>, w: nat)
    requires (chans == 3 || chans == 4) && BlockCounts(litCount, distCount) && distCount == Distances(chans)
    requires TableFor(litCount, 12, lit.sizes, lit.codes) && TableFor(distCount, 12, dist.sizes, dist.codes)
    requires IsHeader(hb, c) && Trims(c, lit.sizes, dist.sizes)
    requires RowsDone(rows, w, freq, chans) && forall s :: 0 <= s < 288 && freq[s] > 0 ==> litCount[s] > 0
    ensures FpngCodes(c, chans) && Agrees(lit, c.lit) && GoodRows(c.lit, rows, w, chans) && Has(c.lit, 256)
    ensures TokensSendable(c.lit, FlatTokens(rows), chans)
  {
    HeaderValid(hb, c);
    hide TableFor, Sum, Used, IsHeader, Trims, Inflate.ValidCodes, RowsDone, FpngCodes, Agrees;
    MadeCodes(c, lit, dist, chans, litCount);
    CoveredSendable(freq, c.lit, rows, w, chans);
    FlatSendable(c.lit, rows, w, chans);
  }

  lemma HeaderValid(hb: seq<bool>, c: Inflate.Codes)
    requires IsHeader(hb, c)
    ensures Inflate.ValidCodes(c)
  {
    assert Inflate.ReadDynamicHeader(hb + []) == Some(Inflate.Read(c, []));
  }
}
