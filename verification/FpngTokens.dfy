/** The symbol stream of an fpng image: every row is a filter byte and then pixels, each sent as its
    bytes or as a run of copies of the pixel before it (libs/fpng/fpng.cpp:1006-1122, 1267-1425).
    Read by RFC 1951, the stream gives back the bytes of the rows. */
module FpngTokens {
  import opened Bits
  import opened Canonical
  import opened Wrappers
  import opened HeaderRuns
  import Inflate

  type Pixel = seq<byte>

  datatype Token = Filter(b: byte) | Literal(px: Pixel) | Run(n: nat)

  function Copies(px: Pixel, n: nat): (s: seq<Pixel>)
    ensures |s| == n
  {
    if n == 0 then [] else [px] + Copies(px, n - 1)
  }

  /** The pixels that tokens after a filter byte stand for, prev being the pixel before them. */
  function Pixels(items: seq<Token>, prev: Pixel): seq<Pixel> {
    if items == [] then []
    else match items[0]
      case Filter(_) => []
      case Literal(px) => [px] + Pixels(items[1..], px)
      case Run(n) => Copies(prev, n) + Pixels(items[1..], prev)
  }

  /** The pixel that a run after these tokens repeats. */
  function LastPixel(items: seq<Token>, prev: Pixel): Pixel {
    if items == [] then prev
    else LastPixel(items[1..], if items[0].Literal? then items[0].px else prev)
  }

  function Flat(pixels: seq<Pixel>): seq<byte> {
    if pixels == [] then [] else pixels[0] + Flat(pixels[1..])
  }

  ghost predicate PixelToken(t: Token, chans: nat) {
    match t
    case Filter(_) => false
    case Literal(px) => |px| == chans
    case Run(n) => n >= 1 && 3 <= n * chans <= 258
  }

  /** Tokens of one row: a literal pixel first, so that every run has something to repeat. */
  ghost predicate RowItems(items: seq<Token>, chans: nat) {
    && (forall i :: 0 <= i < |items| ==> PixelToken(items[i], chans))
    && (items != [] ==> items[0].Literal?)
  }

  lemma {:induction false} FlatConcat(a: seq<Pixel>, b: seq<Pixel>)
    ensures Flat(a + b) == Flat(a) + Flat(b)
  {
    if a == [] {
      assert a + b == b;
    } else {
      FlatConcat(a[1..], b);
      FlatFirst(a);
      FlatFirst(a + b);
      hide Flat;
      assert (a + b)[0] == a[0] && (a + b)[1..] == a[1..] + b;
      Assoc(a[0], Flat(a[1..]), Flat(b));
    }
  }

  lemma FlatFirst(px: seq<Pixel>)
    requires px != []
    ensures Flat(px) == px[0] + Flat(px[1..])
  {
  }

  lemma {:induction false} PixelsSnoc(items: seq<Token>, prev: Pixel, t: Token)
    requires forall i :: 0 <= i < |items| ==> !items[i].Filter?
    requires !t.Filter?
    ensures Pixels(items + [t], prev)
         == Pixels(items, prev) + if t.Literal? then [t.px] else Copies(LastPixel(items, prev), t.n)
    ensures LastPixel(items + [t], prev) == if t.Literal? then t.px else LastPixel(items, prev)
  {
    hide Copies;
    if items == [] {
      assert [] + [t] == [t] && [t][1..] == [];
      var prev' := if t.Literal? then t.px else prev;
      assert Pixels([], prev') == [] && LastPixel([], prev') == prev';
      assert Pixels([t], prev) == if t.Literal? then [t.px] + [] else Copies(prev, t.n) + [];
      assert Copies(prev, if t.Literal? then 0 else t.n) + [] == Copies(prev, if t.Literal? then 0 else t.n);
    } else {
      var prev' := if items[0].Literal? then items[0].px else prev;
      PixelsSnoc(items[1..], prev', t);
      assert (items + [t])[0] == items[0] && (items + [t])[1..] == items[1..] + [t];
      Assoc(if items[0].Literal? then [items[0].px] else Copies(prev, items[0].n), Pixels(items[1..], prev'),
            if t.Literal? then [t.px] else Copies(LastPixel(items, prev), t.n));
    }
  }

  // ---- Length symbols: g_defl_len_sym and g_defl_len_extra in closed form.

  function LenSym(adj: nat): nat
    requires adj <= 255
  {
    if adj < 8 then 257 + adj
    else if adj < 16 then 265 + (adj - 8) / 2
    else if adj < 32 then 269 + (adj - 16) / 4
    else if adj < 64 then 273 + (adj - 32) / 8
    else if adj < 128 then 277 + (adj - 64) / 16
    else if adj < 255 then 281 + (adj - 128) / 32
    else 285
  }

  function LenExtra(adj: nat): nat
    requires adj <= 255
  {
    if adj < 8 || adj == 255 then 0
    else if adj < 16 then 1
    else if adj < 32 then 2
    else if adj < 64 then 3
    else if adj < 128 then 4
    else 5
  }

  /** adj & g_bitmasks[extra] */
  function LenLow(adj: nat): nat
    requires adj <= 255
  {
    adj % Pow2(LenExtra(adj))
  }

  ghost predicate LengthSent(adj: nat)
    requires adj <= 255
  {
    var s, e := LenSym(adj), LenExtra(adj);
    && 257 <= s <= 285 && Inflate.LENGTH_EXTRA[s - 257] == e <= 5
    && Inflate.LENGTH_BASE[s - 257] + LenLow(adj) == adj + 3
    && LenLow(adj) < Pow2(e)
  }

  lemma ShortLength(adj: nat)
    requires adj < 32
    ensures LengthSent(adj)
  {
    Pow2Values();
  }

  lemma MiddleLength(adj: nat)
    requires 32 <= adj < 128
    ensures LengthSent(adj)
  {
    Pow2Values();
  }

  lemma LongLength(adj: nat)
    requires 128 <= adj <= 255
    ensures LengthSent(adj)
  {
    Pow2Values();
  }

  lemma LenSymRight(adj: nat)
    requires adj <= 255
    ensures var s, e := LenSym(adj), LenExtra(adj);
      && 257 <= s <= 285 && Inflate.LENGTH_EXTRA[s - 257] == e <= 5
      && Inflate.LENGTH_BASE[s - 257] + LenLow(adj) == adj + 3
      && LenLow(adj) < Pow2(e)
  {
    hide LenSym, LenExtra, LenLow, Pow2;
    if adj < 32 {
      ShortLength(adj);
    } else if adj < 128 {
      MiddleLength(adj);
    } else {
      LongLength(adj);
    }
  }

  // ---- Bits of tokens.

  /** The codeword of s, if the code has one. */
  function Word(lens: seq<nat>, s: nat): seq<bool> {
    if s < |lens| then Codeword(lens, s) else []
  }

  ghost predicate Has(lens: seq<nat>, s: nat) {
    s < |lens| && lens[s] > 0
  }

  function BytesBits(lit: seq<nat>, px: seq<byte>): seq<bool> {
    if px == [] then [] else Word(lit, px[0]) + BytesBits(lit, px[1..])
  }

  /** A run: its length symbol, the extra bits, and the distance code, which is one zero bit. */
  function RunBits(lit: seq<nat>, adj: nat): seq<bool>
    requires adj <= 255
  {
    Word(lit, LenSym(adj)) + ToBits(LenLow(adj), LenExtra(adj)) + [false]
  }

  function TokenBits(lit: seq<nat>, t: Token, chans: nat): seq<bool> {
    match t
    case Filter(b) => Word(lit, b)
    case Literal(px) => BytesBits(lit, px)
    case Run(n) => if 3 <= n * chans <= 258 then RunBits(lit, n * chans - 3) else []
  }

  function ItemsBits(lit: seq<nat>, items: seq<Token>, chans: nat): seq<bool> {
    if items == [] then [] else TokenBits(lit, items[0], chans) + ItemsBits(lit, items[1..], chans)
  }

  /** Every symbol the token needs has a code. */
  ghost predicate Sendable(lit: seq<nat>, t: Token, chans: nat) {
    match t
    case Filter(b) => Has(lit, b)
    case Literal(px) => forall i :: 0 <= i < |px| ==> Has(lit, px[i])
    case Run(n) => 3 <= n * chans <= 258 && Has(lit, LenSym(n * chans - 3))
  }

  ghost predicate AllSendable(lit: seq<nat>, items: seq<Token>, chans: nat) {
    forall i :: 0 <= i < |items| ==> Sendable(lit, items[i], chans)
  }

  /** The codes of an fpng stream: no code is longer than twelve bits, and distance chans is the first
      of two one-bit codes. */
  ghost predicate FpngCodes(c: Inflate.Codes, chans: nat) {
    && Inflate.ValidCodes(c) && Bounded(c.lit, 12) && Complete(c.lit, 12)
    && (chans == 3 || chans == 4) && |c.dist| == chans + 1
    && (forall i :: 0 <= i < chans - 1 ==> c.dist[i] == 0) && c.dist[chans - 1] == c.dist[chans] == 1
  }

  lemma DistanceWord(c: Inflate.Codes, chans: nat)
    requires FpngCodes(c, chans)
    ensures Codeword(c.dist, chans - 1) == [false] && Decodable(c.dist, 15)
  {
    NoneBefore(c.dist, chans - 1);
    assert MsbBits(0, 1) == MsbBits(0, 0) + [false] && MsbBits(0, 0) == [];
    assert Bounded(c.dist, 1);
    assert Complete(c.dist, 15) || Count(c.dist, 1) <= 1;
    if !Complete(c.dist, 15) {
      CompleteAtMostOne(c.dist);
    }
  }

  lemma {:induction false} NoneBefore(dist: seq<nat>, n: nat)
    requires n <= |dist| && forall i :: 0 <= i < n ==> dist[i] == 0
    ensures Count(dist[..n], 1) == 0
  {
    if n > 0 {
      NoneBefore(dist, n - 1);
      assert dist[..n][..n - 1] == dist[..n - 1];
    }
  }

  lemma CompleteAtMostOne(dist: seq<nat>)
    requires Bounded(dist, 1) && Count(dist, 1) <= 1
    ensures Decodable(dist, 15)
  {
    KraftStep(dist, 1);
    KraftZero(dist);
    KraftExact(dist, 1, 15);
    assert Pow2(15) == 2 * Pow2(14);
  }

  // ---- Inflating tokens.

  lemma InflateLiteral(c: Inflate.Codes, s: nat, rest: seq<bool>, out: seq<byte>)
    requires Decodable(c.lit, 12) && Has(c.lit, s) && s < 256
    ensures Inflate.InflateCodes(c.lit, c.dist, Word(c.lit, s) + rest, out)
         == Inflate.InflateCodes(c.lit, c.dist, rest, out + [s])
  {
    ReadSymSent(c.lit, 12, s, Word(c.lit, s) + rest, rest);
  }

  lemma {:induction false} InflateBytes(c: Inflate.Codes, px: seq<byte>, rest: seq<bool>, out: seq<byte>)
    requires Decodable(c.lit, 12) && forall i :: 0 <= i < |px| ==> Has(c.lit, px[i])
    ensures Inflate.InflateCodes(c.lit, c.dist, BytesBits(c.lit, px) + rest, out)
         == Inflate.InflateCodes(c.lit, c.dist, rest, out + px)
    decreases |px|
  {
    hide Inflate.InflateCodes, Word, Decodable, Has;
    if px == [] {
      assert BytesBits(c.lit, px) + rest == rest && out + px == out;
    } else {
      var tail := BytesBits(c.lit, px[1..]) + rest;
      Assoc(Word(c.lit, px[0]), BytesBits(c.lit, px[1..]), rest);
      InflateLiteral(c, px[0], tail, out);
      InflateBytes(c, px[1..], rest, out + [px[0]]);
      assert out + [px[0]] + px[1..] == out + px;
    }
  }

  lemma {:induction false} CopyOnce(pre: seq<byte>, px: seq<byte>, j: nat, more: nat)
    requires px != [] && j <= |px|
    ensures Inflate.CopyBack(pre + px + px[..j], |px|, |px| - j + more)
         == Inflate.CopyBack(pre + px + px, |px|, more)
    decreases |px| - j
  {
    var out := pre + px + px[..j];
    if j < |px| {
      assert out[|out| - |px|] == px[j];
      assert out + [px[j]] == pre + px + px[..j + 1];
      CopyOnce(pre, px, j + 1, more);
    } else {
      assert px[..j] == px;
    }
  }

  /** Copying from one pixel back repeats the pixel. */
  lemma {:induction false} CopyPixels(pre: seq<byte>, px: seq<byte>, n: nat)
    requires px != []
    ensures Inflate.CopyBack(pre + px, |px|, n * |px|) == pre + px + Flat(Copies(px, n))
    decreases n
  {
    if n == 0 {
      assert 0 * |px| == 0;
      assert pre + px + Flat(Copies(px, 0)) == pre + px;
    } else {
      assert n * |px| == |px| - 0 + (n - 1) * |px|;
      assert pre + px + px[..0] == pre + px;
      CopyOnce(pre, px, 0, (n - 1) * |px|);
      CopyPixels(pre + px, px, n - 1);
      assert Copies(px, n)[0] == px && Copies(px, n)[1..] == Copies(px, n - 1);
      Assoc(pre + px, px, Flat(Copies(px, n - 1)));
    }
  }

  lemma LengthRead(adj: nat, bits: seq<bool>, tail: seq<bool>)
    requires adj <= 255 && bits == ToBits(LenLow(adj), LenExtra(adj)) + tail
    ensures Inflate.ReadLength(LenSym(adj), bits) == Some(Inflate.Read(adj + 3, tail))
  {
    LenSymRight(adj);
    hide LenSym, LenExtra, LenLow, ToBits, Pow2;
    ReadSent(bits, LenLow(adj), LenExtra(adj), tail);
  }

  lemma DistanceRead(c: Inflate.Codes, chans: nat, bits: seq<bool>, tail: seq<bool>)
    requires FpngCodes(c, chans) && bits == [false] + tail
    ensures Inflate.ReadDistance(c.dist, bits) == Some(Inflate.Read(chans, tail))
  {
    DistanceWord(c, chans);
    ReadSymSent(c.dist, 15, chans - 1, bits, tail);
    assert tail[0..] == tail && FromBits([]) == 0;
  }

  lemma RunSplit(lit: seq<nat>, adj: nat, rest: seq<bool>)
    requires adj <= 255
    ensures RunBits(lit, adj) + rest
         == Word(lit, LenSym(adj)) + (ToBits(LenLow(adj), LenExtra(adj)) + ([false] + rest))
  {
  }

  lemma InflateRun(c: Inflate.Codes, chans: nat, n: nat, rest: seq<bool>, pre: seq<byte>, px: Pixel)
    requires FpngCodes(c, chans) && |px| == chans && n >= 1 && Sendable(c.lit, Run(n), chans)
    ensures Inflate.InflateCodes(c.lit, c.dist, RunBits(c.lit, n * chans - 3) + rest, pre + px)
         == Inflate.InflateCodes(c.lit, c.dist, rest, pre + px + Flat(Copies(px, n)))
  {
    var adj := n * chans - 3;
    LenSymRight(adj);
    CopyPixels(pre, px, n);
    RunSplit(c.lit, adj, rest);
    hide LenSym, LenExtra, LenLow, ToBits, Pow2, RunBits, Flat, Inflate.CopyBack;
    var tail1 := [false] + rest;
    var tail0 := ToBits(LenLow(adj), LenExtra(adj)) + tail1;
    ReadSymSent(c.lit, 12, LenSym(adj), RunBits(c.lit, adj) + rest, tail0);
    LengthRead(adj, tail0, tail1);
    DistanceRead(c, chans, tail1, rest);
    hide FpngCodes, Inflate.ReadLength, Inflate.ReadDistance, Inflate.ReadSym;
  }

  lemma CodesDecodable(c: Inflate.Codes, chans: nat)
    requires FpngCodes(c, chans)
    ensures Decodable(c.lit, 12)
  {
  }

  lemma InflateToken(c: Inflate.Codes, chans: nat, t: Token, rest: seq<bool>, out: seq<byte>, prev: Pixel)
    requires FpngCodes(c, chans) && PixelToken(t, chans) && Sendable(c.lit, t, chans)
    requires t.Run? ==> |prev| == chans && |prev| <= |out| && out[|out| - |prev|..] == prev
    ensures Inflate.InflateCodes(c.lit, c.dist, TokenBits(c.lit, t, chans) + rest, out)
         == Inflate.InflateCodes(c.lit, c.dist, rest, out + if t.Literal? then t.px else Flat(Copies(prev, t.n)))
  {
    match t
    case Literal(px) =>
      hide Inflate.InflateCodes, BytesBits, Word, Has, Decodable;
      CodesDecodable(c, chans);
      InflateBytes(c, px, rest, out);
    case Run(n) =>
      hide *;
      RunSendable(c.lit, n, chans);
      InflateRunToken(c, chans, n, rest, out, prev);
  }

  lemma RunSendable(lit: seq<nat>, n: nat, chans: nat)
    requires PixelToken(Run(n), chans) && Sendable(lit, Run(n), chans)
    ensures n >= 1 && 3 <= n * chans <= 258
    ensures TokenBits(lit, Run(n), chans) == RunBits(lit, n * chans - 3)
  {
    hide RunBits;
  }

  lemma InflateRunToken(c: Inflate.Codes, chans: nat, n: nat, rest: seq<bool>, out: seq<byte>, prev: Pixel)
    requires FpngCodes(c, chans) && Sendable(c.lit, Run(n), chans) && n >= 1 && 3 <= n * chans <= 258
    requires |prev| == chans && |prev| <= |out| && out[|out| - |prev|..] == prev
    ensures Inflate.InflateCodes(c.lit, c.dist, RunBits(c.lit, n * chans - 3) + rest, out)
         == Inflate.InflateCodes(c.lit, c.dist, rest, out + Flat(Copies(prev, n)))
  {
    hide *;
    var pre := out[..|out| - |prev|];
    assert out == pre + prev;
    InflateRun(c, chans, n, rest, pre, prev);
  }

  lemma {:induction false} CopiesEnd(out: seq<byte>, px: Pixel, n: nat)
    requires px != [] && |px| <= |out| && out[|out| - |px|..] == px
    ensures var r := out + Flat(Copies(px, n)); r[|r| - |px|..] == px
    decreases n
  {
    if n > 0 {
      assert Copies(px, n)[0] == px && Copies(px, n)[1..] == Copies(px, n - 1);
      assert (out + px)[|out + px| - |px|..] == px;
      CopiesEnd(out + px, px, n - 1);
      Assoc(out, px, Flat(Copies(px, n - 1)));
    } else {
      assert out + Flat(Copies(px, 0)) == out;
    }
  }

  lemma ItemsSplit(lit: seq<nat>, items: seq<Token>, chans: nat, rest: seq<bool>)
    requires items != []
    ensures ItemsBits(lit, items, chans) + rest
         == TokenBits(lit, items[0], chans) + (ItemsBits(lit, items[1..], chans) + rest)
  {
    Assoc(TokenBits(lit, items[0], chans), ItemsBits(lit, items[1..], chans), rest);
  }

  /** A run has a pixel to repeat: the row starts with a literal or out ends with prev. */
  ghost predicate Primed(items: seq<Token>, chans: nat, out: seq<byte>, prev: Pixel) {
    items == [] || items[0].Literal? || (|prev| == chans && |prev| <= |out| && out[|out| - |prev|..] == prev)
  }

  /** Tokens of a row inflate to the bytes of the pixels they stand for. */
  lemma {:induction false} InflateItems(c: Inflate.Codes, chans: nat, items: seq<Token>, rest: seq<bool>, out: seq<byte>, prev: Pixel)
    requires FpngCodes(c, chans) && AllSendable(c.lit, items, chans)
    requires forall i :: 0 <= i < |items| ==> PixelToken(items[i], chans)
    requires Primed(items, chans, out, prev)
    ensures Inflate.InflateCodes(c.lit, c.dist, ItemsBits(c.lit, items, chans) + rest, out)
         == Inflate.InflateCodes(c.lit, c.dist, rest, out + Flat(Pixels(items, prev)))
    decreases |items|
  {
    hide Inflate.InflateCodes, TokenBits;
    if items == [] {
      assert ItemsBits(c.lit, items, chans) + rest == rest;
      assert out + Flat(Pixels(items, prev)) == out;
    } else {
      var t := items[0];
      var prev' := if t.Literal? then t.px else prev;
      var more := if t.Literal? then t.px else Flat(Copies(prev, t.n));
      assert PixelToken(t, chans) && Sendable(c.lit, t, chans);
      ItemsSplit(c.lit, items, chans, rest);
      NextPixels(items, prev);
      StayPrimed(chans, items, out, prev);
      hide ItemsBits, FpngCodes, Sendable, PixelToken, Pixels, Flat, Primed;
      InflateToken(c, chans, t, ItemsBits(c.lit, items[1..], chans) + rest, out, prev);
      Assoc(out, more, Flat(Pixels(items[1..], prev')));
      InflateItems(c, chans, items[1..], rest, out + more, prev');
    }
  }

  lemma StayPrimed(chans: nat, items: seq<Token>, out: seq<byte>, prev: Pixel)
    requires items != [] && PixelToken(items[0], chans) && Primed(items, chans, out, prev) && chans >= 1
    ensures items[0].Run? ==> |prev| == chans && |prev| <= |out| && out[|out| - |prev|..] == prev
    ensures items[0].Literal? ==> Primed(items[1..], chans, out + items[0].px, items[0].px)
    ensures items[0].Run? ==> Primed(items[1..], chans, out + Flat(Copies(prev, items[0].n)), prev)
  {
    if items[0].Literal? {
      EndsWith(out, items[0].px);
    } else {
      CopiesEnd(out, prev, items[0].n);
    }
  }

  lemma EndsWith(a: seq<byte>, b: seq<byte>)
    ensures (a + b)[|a + b| - |b|..] == b
  {
  }

  lemma NextPixels(items: seq<Token>, prev: Pixel)
    requires items != [] && !items[0].Filter?
    ensures Flat(Pixels(items, prev)) == if items[0].Literal? then items[0].px + Flat(Pixels(items[1..], items[0].px))
            else Flat(Copies(prev, items[0].n)) + Flat(Pixels(items[1..], prev))
  {
    if items[0].Literal? {
      var p := Pixels(items[1..], items[0].px);
      assert ([items[0].px] + p)[1..] == p;
    } else {
      FlatConcat(Copies(prev, items[0].n), Pixels(items[1..], prev));
    }
  }

  // ---- Rows.

  datatype Row = Row(filter: byte, items: seq<Token>)

  function RowBytes(r: Row): seq<byte> {
    [r.filter] + Flat(Pixels(r.items, []))
  }

  function ImageBytes(rows: seq<Row>): seq<byte> {
    if rows == [] then [] else ImageBytes(rows[..|rows| - 1]) + RowBytes(rows[|rows| - 1])
  }

  function RowBits(lit: seq<nat>, r: Row, chans: nat): seq<bool> {
    Word(lit, r.filter) + ItemsBits(lit, r.items, chans)
  }

  function RowsBits(lit: seq<nat>, rows: seq<Row>, chans: nat): seq<bool> {
    if rows == [] then [] else RowBits(lit, rows[0], chans) + RowsBits(lit, rows[1..], chans)
  }

  /** w pixels of chans bytes, and a code for every symbol. */
  ghost predicate GoodRow(lit: seq<nat>, r: Row, w: nat, chans: nat) {
    && RowItems(r.items, chans) && AllSendable(lit, r.items, chans) && Has(lit, r.filter)
    && |Pixels(r.items, [])| == w
  }

  ghost predicate GoodRows(lit: seq<nat>, rows: seq<Row>, w: nat, chans: nat) {
    forall i :: 0 <= i < |rows| ==> GoodRow(lit, rows[i], w, chans)
  }

  lemma {:induction false} ImageBytesFront(rows: seq<Row>)
    requires rows != []
    ensures ImageBytes(rows) == RowBytes(rows[0]) + ImageBytes(rows[1..])
  {
    hide RowBytes;
    var n := |rows| - 1;
    if n == 0 {
      assert rows[..0] == [] && rows[1..] == [];
      assert ImageBytes([]) == [];
      assert [] + RowBytes(rows[0]) == RowBytes(rows[0]) + [];
    } else {
      ImageBytesFront(rows[..n]);
      assert rows[..n][1..] == rows[1..][..n - 1] && rows[..n][0] == rows[0];
      assert rows[1..][n - 1] == rows[n];
      Assoc(RowBytes(rows[0]), ImageBytes(rows[1..][..n - 1]), RowBytes(rows[n]));
    }
  }

  lemma InflateRow(c: Inflate.Codes, chans: nat, w: nat, r: Row, rest: seq<bool>, out: seq<byte>)
    requires FpngCodes(c, chans) && GoodRow(c.lit, r, w, chans)
    ensures Inflate.InflateCodes(c.lit, c.dist, RowBits(c.lit, r, chans) + rest, out)
         == Inflate.InflateCodes(c.lit, c.dist, rest, out + RowBytes(r))
  {
    hide Inflate.InflateCodes, ItemsBits, Word, Flat, Pixels;
    Assoc(Word(c.lit, r.filter), ItemsBits(c.lit, r.items, chans), rest);
    InflateLiteral(c, r.filter, ItemsBits(c.lit, r.items, chans) + rest, out);
    InflateItems(c, chans, r.items, rest, out + [r.filter], []);
    Assoc(out, [r.filter], Flat(Pixels(r.items, [])));
  }

  lemma {:induction false} InflateRows(c: Inflate.Codes, chans: nat, w: nat, rows: seq<Row>, rest: seq<bool>, out: seq<byte>)
    requires FpngCodes(c, chans) && GoodRows(c.lit, rows, w, chans)
    ensures Inflate.InflateCodes(c.lit, c.dist, RowsBits(c.lit, rows, chans) + rest, out)
         == Inflate.InflateCodes(c.lit, c.dist, rest, out + ImageBytes(rows))
    decreases |rows|
  {
    hide Inflate.InflateCodes, FpngCodes, GoodRow, RowBytes, RowBits;
    if rows == [] {
      assert RowsBits(c.lit, rows, chans) + rest == rest;
      assert out + ImageBytes(rows) == out;
    } else {
      Assoc(RowBits(c.lit, rows[0], chans), RowsBits(c.lit, rows[1..], chans), rest);
      ImageBytesFront(rows);
      hide ImageBytes;
      InflateRow(c, chans, w, rows[0], RowsBits(c.lit, rows[1..], chans) + rest, out);
      InflateRows(c, chans, w, rows[1..], rest, out + RowBytes(rows[0]));
      Assoc(out, RowBytes(rows[0]), ImageBytes(rows[1..]));
    }
  }

  /** The symbols of an image followed by the end of block inflate to the image's bytes. */
  lemma InflateImage(c: Inflate.Codes, chans: nat, w: nat, rows: seq<Row>, rest: seq<bool>)
    requires FpngCodes(c, chans) && GoodRows(c.lit, rows, w, chans)
    ensures Inflate.InflateCodes(c.lit, c.dist, RowsBits(c.lit, rows, chans) + (Word(c.lit, 256) + rest), [])
         == Some(Inflate.Read(ImageBytes(rows), rest))
  {
    InflateRows(c, chans, w, rows, Word(c.lit, 256) + rest, []);
    assert [] + ImageBytes(rows) == ImageBytes(rows);
    ReadSymSent(c.lit, 12, 256, Word(c.lit, 256) + rest, rest);
  }
}
