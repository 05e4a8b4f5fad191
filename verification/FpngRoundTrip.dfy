/** fpng's decoder undoes its encoder: the tokens of an encoded image, read one symbol at a time, draw
    the image the filter was given. */
module FpngRoundTrip {
  import opened Arith
  import opened Bits
  import opened Canonical
  import opened Wrappers
  import opened FpngDecode
  import opened FpngEncode
  import opened FpngFilter
  import opened FpngPixels
  import opened FpngScreen
  import opened FpngTokens
  import opened HeaderRuns
  import Inflate

  // ---- Tokens of a row.

  function DrawAll(g: Geometry, out: seq<byte>, px: seq<Pixel>): (r: seq<byte>)
    requires g.Valid() && forall i :: 0 <= i < |px| ==> |px[i]| == g.sc
    decreases |px|
  {
    if px == [] then out else DrawAll(g, DrawPixel(g, out, px[0]), px[1..])
  }

  lemma {:induction false} DrawAllConcat(g: Geometry, out: seq<byte>, a: seq<Pixel>, b: seq<Pixel>)
    requires g.Valid() && (forall i :: 0 <= i < |a| ==> |a[i]| == g.sc) && (forall i :: 0 <= i < |b| ==> |b[i]| == g.sc)
    ensures DrawAll(g, out, a + b) == DrawAll(g, DrawAll(g, out, a), b)
    decreases |a|
  {
    if a == [] {
      assert a + b == b;
    } else {
      DrawAllConcat(g, DrawPixel(g, out, a[0]), a[1..], b);
      assert (a + b)[0] == a[0] && (a + b)[1..] == a[1..] + b;
    }
  }

  lemma {:induction false} DrawCopies(g: Geometry, out: seq<byte>, d: Pixel, n: nat)
    requires g.Valid() && |d| == g.sc
    ensures forall i :: 0 <= i < n ==> |Copies(d, n)[i]| == g.sc
    ensures DrawAll(g, out, Copies(d, n)) == DrawRun(g, out, d, n)
    decreases n
  {
    hide DrawPixel;
    if n > 0 {
      DrawCopies(g, DrawPixel(g, out, d), d, n - 1);
      assert Copies(d, n)[0] == d && Copies(d, n)[1..] == Copies(d, n - 1);
    }
  }

  lemma {:induction false} LiteralsSent(lit: seq<nat>, q: seq<byte>, px: seq<byte>, rest: seq<bool>)
    requires Decodable(lit, 12) && forall i :: 0 <= i < |q| ==> Has(lit, q[i])
    ensures ReadLiterals(lit, BytesBits(lit, q) + rest, px, |q|) == Some(Inflate.Read(px + q, rest))
    decreases |q|
  {
    hide Word, Has, Decodable;
    if q == [] {
      assert BytesBits(lit, q) + rest == rest && px + q == px;
    } else {
      var tail := BytesBits(lit, q[1..]) + rest;
      Assoc(Word(lit, q[0]), BytesBits(lit, q[1..]), rest);
      WordRead(lit, q[0], tail);
      LiteralsSent(lit, q[1..], px + [q[0]], rest);
      hide BytesBits;
      assert px + [q[0]] + q[1..] == px + q;
    }
  }

  lemma WordRead(lit: seq<nat>, s: nat, rest: seq<bool>)
    requires Decodable(lit, 12) && Has(lit, s)
    ensures Inflate.ReadSym(lit, Word(lit, s) + rest) == Some(Inflate.Read(s, rest))
  {
    ReadSymSent(lit, 12, s, Word(lit, s) + rest, rest);
  }

  lemma RowLiteralSent(g: Geometry, lit: seq<nat>, px: Pixel, rest: seq<bool>, n: nat, d: Pixel, out: seq<byte>)
    requires g.Valid() && |d| == |px| == g.sc && n > 0 && Decodable(lit, 12)
    requires forall i :: 0 <= i < |px| ==> Has(lit, px[i])
    ensures DecodeRow(g, lit, BytesBits(lit, px) + rest, n, d, out) == DecodeRow(g, lit, rest, n - 1, px, DrawPixel(g, out, px))
  {
    var tail := BytesBits(lit, px[1..]) + rest;
    Assoc(Word(lit, px[0]), BytesBits(lit, px[1..]), rest);
    assert BytesBits(lit, px) + rest == Word(lit, px[0]) + tail;
    WordRead(lit, px[0], tail);
    LiteralsSent(lit, px[1..], [px[0]], rest);
    assert [px[0]] + px[1..] == px;
    hide ReadLiterals, BytesBits, Word, DrawPixel, DrawRun, ReadRun, RunPixels;
  }

  lemma RunRead(sym: nat, e: seq<bool>, rest: seq<bool>, bytes: nat, sc: nat)
    requires 257 <= sym && |e| == RunExtra(sym) && bytes == RunBase(sym) + FromBits(e) && RunOf(bytes, sc).Some?
    ensures ReadRun(sym, sc, e + ([false] + rest)) == Some(Inflate.Read(RunOf(bytes, sc).value, rest))
  {
    var bits := e + ([false] + rest);
    assert bits[..|e|] == e && bits[|e| + 1..] == rest;
  }

  lemma RunOfPixels(n: nat, sc: nat)
    requires n >= 1 && (sc == 3 || sc == 4)
    ensures RunOf(n * sc, sc) == Some(n)
  {
  }

  lemma RowRunRead(g: Geometry, lit: seq<nat>, bits: seq<bool>, n: nat, d: Pixel, out: seq<byte>,
                   sym: nat, mid: seq<bool>, k: nat, rest: seq<bool>)
    requires g.Valid() && |d| == g.sc && 1 <= k <= n && sym >= 257
    requires Inflate.ReadSym(lit, bits) == Some(Inflate.Read(sym, mid)) && ReadRun(sym, g.sc, mid) == Some(Inflate.Read(k, rest))
    ensures DecodeRow(g, lit, bits, n, d, out) == DecodeRow(g, lit, rest, n - k, d, DrawRun(g, out, d, k))
  {
    hide ReadRun, ReadLiterals, DrawRun, DrawPixel;
  }

  /** The bits of a run are read as its length. */
  lemma RunSent(lit: seq<nat>, adj: nat, rest: seq<bool>, sc: nat) returns (mid: seq<bool>)
    requires Decodable(lit, 12) && adj <= 255 && Has(lit, LenSym(adj)) && RunOf(adj + 3, sc).Some?
    ensures Inflate.ReadSym(lit, RunBits(lit, adj) + rest) == Some(Inflate.Read(LenSym(adj), mid))
    ensures LenSym(adj) >= 257 && ReadRun(LenSym(adj), sc, mid) == Some(Inflate.Read(RunOf(adj + 3, sc).value, rest))
  {
    LenSymRight(adj);
    RunSplit(lit, adj, rest);
    FromToBitsFits(LenLow(adj), LenExtra(adj));
    hide RunBits, Word, LenSym, LenExtra, LenLow, ToBits, FromBits, Pow2, RunOf, ReadRun;
    var e := ToBits(LenLow(adj), LenExtra(adj));
    mid := e + ([false] + rest);
    WordRead(lit, LenSym(adj), mid);
    RunRead(LenSym(adj), e, rest, adj + 3, sc);
  }

  lemma RowRunSent(g: Geometry, lit: seq<nat>, k: nat, rest: seq<bool>, n: nat, d: Pixel, out: seq<byte>)
    requires g.Valid() && |d| == g.sc && 1 <= k <= n && Decodable(lit, 12)
    requires 3 <= k * g.sc <= 258 && Has(lit, LenSym(k * g.sc - 3))
    ensures DecodeRow(g, lit, RunBits(lit, k * g.sc - 3) + rest, n, d, out) == DecodeRow(g, lit, rest, n - k, d, DrawRun(g, out, d, k))
  {
    var adj := k * g.sc - 3;
    RunOfPixels(k, g.sc);
    hide RunBits, LenSym, RunOf, ReadRun, DecodeRow, DrawRun;
    var mid := RunSent(lit, adj, rest, g.sc);
    RowRunRead(g, lit, RunBits(lit, adj) + rest, n, d, out, LenSym(adj), mid, k, rest);
  }

  /** A row's tokens draw its pixels. */
  lemma {:induction false} RowSent(g: Geometry, lit: seq<nat>, items: seq<Token>, rest: seq<bool>, prev: Pixel, d: Pixel, out: seq<byte>, n: nat)
    requires g.Valid() && |d| == g.sc && Decodable(lit, 12) && AllSendable(lit, items, g.sc)
    requires forall i :: 0 <= i < |items| ==> PixelToken(items[i], g.sc)
    requires items == [] || items[0].Literal? || prev == d
    requires n == |Pixels(items, prev)|
    ensures forall i :: 0 <= i < n ==> |Pixels(items, prev)[i]| == g.sc
    ensures DecodeRow(g, lit, ItemsBits(lit, items, g.sc) + rest, n, d, out)
         == Some(Inflate.Read(DrawAll(g, out, Pixels(items, prev)), rest))
    decreases |items|
  {
    hide DecodeRow, TokenBits, DrawPixel, DrawRun;
    if items == [] {
      assert ItemsBits(lit, items, g.sc) + rest == rest;
      RowOver(g, lit, rest, d, out);
    } else {
      assert PixelToken(items[0], g.sc) && Sendable(lit, items[0], g.sc);
      ItemsSplit(lit, items, g.sc, rest);
      if items[0].Literal? {
        FirstLiteral(g, lit, items, rest, prev, d, out, n);
      } else {
        FirstRun(g, lit, items, rest, prev, out, n);
      }
    }
  }

  lemma RowOver(g: Geometry, lit: seq<nat>, bits: seq<bool>, d: Pixel, out: seq<byte>)
    requires g.Valid() && |d| == g.sc
    ensures DecodeRow(g, lit, bits, 0, d, out) == Some(Inflate.Read(out, bits))
    ensures DrawAll(g, out, []) == out
  {
  }

  lemma {:induction false} FirstLiteral(g: Geometry, lit: seq<nat>, items: seq<Token>, rest: seq<bool>, prev: Pixel, d: Pixel, out: seq<byte>, n: nat)
    requires g.Valid() && |d| == g.sc && Decodable(lit, 12) && AllSendable(lit, items, g.sc)
    requires forall i :: 0 <= i < |items| ==> PixelToken(items[i], g.sc)
    requires items != [] && items[0].Literal? && n == |Pixels(items, prev)|
    ensures forall i :: 0 <= i < n ==> |Pixels(items, prev)[i]| == g.sc
    ensures DecodeRow(g, lit, TokenBits(lit, items[0], g.sc) + (ItemsBits(lit, items[1..], g.sc) + rest), n, d, out)
         == Some(Inflate.Read(DrawAll(g, out, Pixels(items, prev)), rest))
    decreases |items|, 0
  {
    hide DecodeRow, DrawPixel, ItemsBits;
    var px, more := items[0].px, Pixels(items[1..], items[0].px);
    assert PixelToken(items[0], g.sc) && Sendable(lit, items[0], g.sc);
    assert Pixels(items, prev) == [px] + more && ([px] + more)[1..] == more;
    RowLiteralSent(g, lit, px, ItemsBits(lit, items[1..], g.sc) + rest, n, d, out);
    RowSent(g, lit, items[1..], rest, px, px, DrawPixel(g, out, px), n - 1);
  }

  lemma {:induction false} FirstRun(g: Geometry, lit: seq<nat>, items: seq<Token>, rest: seq<bool>, d: Pixel, out: seq<byte>, n: nat)
    requires g.Valid() && |d| == g.sc && Decodable(lit, 12) && AllSendable(lit, items, g.sc)
    requires forall i :: 0 <= i < |items| ==> PixelToken(items[i], g.sc)
    requires items != [] && items[0].Run? && n == |Pixels(items, d)|
    ensures forall i :: 0 <= i < n ==> |Pixels(items, d)[i]| == g.sc
    ensures DecodeRow(g, lit, TokenBits(lit, items[0], g.sc) + (ItemsBits(lit, items[1..], g.sc) + rest), n, d, out)
         == Some(Inflate.Read(DrawAll(g, out, Pixels(items, d)), rest))
    decreases |items|, 0
  {
    hide DecodeRow, DrawPixel, DrawRun, ItemsBits, RunBits, DrawAll;
    var k, more := items[0].n, Pixels(items[1..], d);
    assert PixelToken(items[0], g.sc) && Sendable(lit, items[0], g.sc);
    assert Pixels(items, d) == Copies(d, k) + more;
    RowRunSent(g, lit, k, ItemsBits(lit, items[1..], g.sc) + rest, n, d, out);
    RowSent(g, lit, items[1..], rest, d, d, DrawRun(g, out, d, k), n - k);
    DrawCopies(g, out, d, k);
    DrawAllConcat(g, out, Copies(d, k), more);
  }

  // ---- Deltas against the row above give the row.

  /** The k-th channel of pixel x in flat bytes. */
  lemma {:induction false} FlatAt(px: seq<Pixel>, sc: nat, x: nat, k: nat)
    requires (forall i :: 0 <= i < |px| ==> |px[i]| == sc) && x < |px| && k < sc && (sc == 3 || sc == 4)
    ensures |Flat(px)| == Times(|px|, sc) && Times(x, sc) + k < |Flat(px)|
    ensures Flat(px)[Times(x, sc) + k] == px[x][k]
    decreases |px|
  {
    if |px| > 1 {
      FlatAt(px[1..], sc, if x > 0 then x - 1 else 0, k);
    } else {
      assert px[1..] == [] && Flat([]) == [];
    }
  }

  lemma {:induction false} ConvertedAt(g: Geometry, a: seq<byte>, n: nat, x: nat, k: nat)
    requires g.Valid() && |a| == Times(n, g.sc) && x < n && k < g.sc && k < g.dc
    ensures |Converted(g, a)| == Times(n, g.dc) && Times(x, g.dc) + k < |Converted(g, a)|
    ensures Converted(g, a)[Times(x, g.dc) + k] == a[Times(x, g.sc) + k]
    decreases n
  {
    ConvertedConcat(g, a, [], n);
    if x > 0 {
      ConvertedAt(g, a[g.sc..], n - 1, x - 1, k);
    }
  }

  /** out ends with the row above, converted; above the first row stands a row of zeros. */
  ghost predicate Below(g: Geometry, out: seq<byte>, above: seq<byte>)
    requires g.Valid()
  {
    && |above| == Times(g.w, g.sc)
    && if out == [] then forall i :: 0 <= i < |above| ==> above[i] == 0
       else |out| >= g.Bpl() && out[|out| - g.Bpl()..] == Converted(g, above)
  }

  /** out, the row above, and x pixels of the current row. */
  lemma AboveIs(g: Geometry, out: seq<byte>, above: seq<byte>, part: seq<byte>, x: nat, k: nat)
    requires g.Valid() && Below(g, out, above) && x < g.w && k < g.sc && k < g.dc && |part| == Times(x, g.dc)
    ensures Times(x, g.sc) + k < |above| && Above(out + part, g.Bpl(), k) == above[Times(x, g.sc) + k]
  {
    var all := out + part;
    if out == [] {
      assert |all| < g.Bpl();
    } else {
      ConvertedAt(g, above, g.w, x, k);
      var o := |out| - g.Bpl();
      assert all[|all| - g.Bpl() + k] == out[o + Times(x, g.dc) + k] == out[o..][Times(x, g.dc) + k];
    }
  }

  /** The deltas of a row: what the Up filter leaves of it. */
  ghost predicate DeltasOf(g: Geometry, px: seq<Pixel>, row: seq<byte>, above: seq<byte>) {
    && |px| == g.w && (forall i :: 0 <= i < |px| ==> |px[i]| == g.sc)
    && |row| == |above| == Times(g.w, g.sc) && Flat(px) == SubRows(row, above)
  }

  lemma DeltaByte(g: Geometry, px: seq<Pixel>, row: seq<byte>, above: seq<byte>, x: nat, k: nat)
    requires g.Valid() && DeltasOf(g, px, row, above) && x < g.w && k < g.sc
    ensures var i := Times(x, g.sc) + k; i < |row| && px[x][k] == SubByte(row[i], above[i])
  {
    FlatAt(px, g.sc, x, k);
  }

  lemma RestoredByte(x: byte, y: byte)
    ensures AddByte(y, SubByte(x, y)) == x
  {
  }

  /** A channel that is shown as the sum of delta and above is the channel of the row. */
  lemma ShownByte(g: Geometry, out: seq<byte>, above: seq<byte>, row: seq<byte>, px: seq<Pixel>, part: seq<byte>, x: nat, k: nat)
    requires g.Valid() && Below(g, out, above) && DeltasOf(g, px, row, above)
    requires x < g.w && k < g.sc && k < g.dc && |part| == Times(x, g.dc)
    ensures Times(x, g.sc) + k < |row|
    ensures AddByte(Above(out + part, g.Bpl(), k), px[x][k]) == row[Times(x, g.sc) + k]
  {
    hide Below, DeltasOf, Above, AddByte, SubByte, Geometry.Bpl;
    AboveIs(g, out, above, part, x, k);
    DeltaByte(g, px, row, above, x, k);
    RestoredByte(row[Times(x, g.sc) + k], above[Times(x, g.sc) + k]);
  }

  lemma ShownPixel(g: Geometry, out: seq<byte>, above: seq<byte>, row: seq<byte>, px: seq<Pixel>, part: seq<byte>, x: nat)
    requires g.Valid() && Below(g, out, above) && DeltasOf(g, px, row, above)
    requires x < g.w && |part| == Times(x, g.dc)
    ensures Times(x, g.sc) + g.sc <= |row|
    ensures Shown(g, out + part, px[x]) == Convert(g, row[Times(x, g.sc)..Times(x, g.sc) + g.sc])
  {
    ShownByte(g, out, above, row, px, part, x, 0);
    ShownByte(g, out, above, row, px, part, x, 1);
    ShownByte(g, out, above, row, px, part, x, 2);
    if g.sc == 4 && g.dc == 4 {
      ShownByte(g, out, above, row, px, part, x, 3);
    }
    RowReaches(g, row, px, above, x);
    hide Below, Above, AddByte, Geometry.Bpl;
  }

  lemma RowReaches(g: Geometry, row: seq<byte>, px: seq<Pixel>, above: seq<byte>, x: nat)
    requires g.Valid() && DeltasOf(g, px, row, above) && x < g.w
    ensures Times(x, g.sc) + g.sc == Times(x + 1, g.sc) <= |row|
    ensures |px| == g.w && forall i :: 0 <= i < |px| ==> |px[i]| == g.sc
  {
  }

  /** The pixels of a row from x on. */
  lemma {:induction false} RowDrawn(g: Geometry, out: seq<byte>, above: seq<byte>, row: seq<byte>, px: seq<Pixel>, x: nat)
    requires g.Valid() && Below(g, out, above) && DeltasOf(g, px, row, above) && x <= g.w
    requires Times(x, g.sc) <= |row|
    ensures DrawAll(g, out + Converted(g, row[..Times(x, g.sc)]), px[x..]) == out + Converted(g, row)
    decreases g.w - x
  {
    hide Below, DeltasOf, Shown, Convert, Converted, Geometry.Bpl, DrawAll, DrawPixel, Times;
    var o := Times(x, g.sc);
    if x == g.w {
      WholeRowDone(g, row, px, above);
      assert row[..o] == row && px[x..] == [];
      NothingDrawn(g, out + Converted(g, row));
    } else {
      var part := Converted(g, row[..o]);
      RowReaches(g, row, px, above, x);
      ConvertedConcat(g, row[..o], row[o..o + g.sc], x);
      ShownPixel(g, out, above, row, px, part, x);
      OneConverted(g, row[o..o + g.sc]);
      RowDrawn(g, out, above, row, px, x + 1);
      assert row[..o] + row[o..o + g.sc] == row[..o + g.sc];
      DrawFirst(g, out + part, px, x);
      Assoc(out, part, Shown(g, out + part, px[x]));
    }
  }

  lemma WholeRowDone(g: Geometry, row: seq<byte>, px: seq<Pixel>, above: seq<byte>)
    requires g.Valid() && DeltasOf(g, px, row, above)
    ensures |row| == Times(g.w, g.sc) && |px| == g.w
  {
  }

  lemma NothingDrawn(g: Geometry, out: seq<byte>)
    requires g.Valid()
    ensures DrawAll(g, out, []) == out
  {
  }

  lemma DrawFirst(g: Geometry, out: seq<byte>, px: seq<Pixel>, x: nat)
    requires g.Valid() && x < |px| && forall i :: 0 <= i < |px| ==> |px[i]| == g.sc
    ensures DrawAll(g, out, px[x..]) == DrawAll(g, out + Shown(g, out, px[x]), px[x + 1..])
  {
    assert px[x..][0] == px[x] && px[x..][1..] == px[x + 1..];
  }

  lemma OneConverted(g: Geometry, px: Pixel)
    requires g.Valid() && |px| == g.sc
    ensures Converted(g, px) == Convert(g, px)
  {
    assert px[..g.sc] == px && Converted(g, px[g.sc..]) == [];
  }

  // ---- The rows of an image.

  lemma {:induction false} PixelSizes(items: seq<Token>, prev: Pixel, sc: nat)
    requires forall i :: 0 <= i < |items| ==> PixelToken(items[i], sc)
    requires items == [] || items[0].Literal? || |prev| == sc
    ensures forall i :: 0 <= i < |Pixels(items, prev)| ==> |Pixels(items, prev)[i]| == sc
    decreases |items|
  {
    if items != [] {
      assert PixelToken(items[0], sc);
      if items[0].Literal? {
        PixelSizes(items[1..], items[0].px, sc);
      } else {
        PixelSizes(items[1..], prev, sc);
        CopiesSizes(prev, items[0].n);
      }
    }
  }

  lemma {:induction false} CopiesSizes(px: Pixel, n: nat)
    ensures forall i :: 0 <= i < n ==> Copies(px, n)[i] == px
  {
    if n > 0 {
      CopiesSizes(px, n - 1);
    }
  }

  lemma HeadsEqual(a: seq<byte>, b: seq<byte>, c: seq<byte>, d: seq<byte>)
    requires a + b == c + d && |a| == |c|
    ensures a == c && b == d
  {
    assert a == (a + b)[..|a|] && c == (c + d)[..|c|];
    assert b == (a + b)[|a|..] && d == (c + d)[|c|..];
  }

  lemma SubNothing(row: seq<byte>, zeros: seq<byte>)
    requires |row| == |zeros| && forall i :: 0 <= i < |zeros| ==> zeros[i] == 0
    ensures SubRows(row, zeros) == row
  {
    forall i | 0 <= i < |row|
      ensures SubRows(row, zeros)[i] == row[i]
    {
      SubZero(row[i]);
    }
  }

  lemma SubZero(x: byte)
    ensures SubByte(x, 0) == x
  {
  }

  /** A row whose bytes are a filtered scanline: its filter and its deltas. */
  lemma RowOfFiltered(g: Geometry, lit: seq<nat>, r: Row, row: seq<byte>, above: seq<byte>, first: bool)
    requires g.Valid() && GoodRow(lit, r, g.w, g.sc) && |row| == |above| == Times(g.w, g.sc)
    requires RowBytes(r) == FilteredRow(!first, row, above)
    requires first ==> forall i :: 0 <= i < |above| ==> above[i] == 0
    ensures r.filter == if first then 0 else 2
    ensures DeltasOf(g, Pixels(r.items, []), row, above)
  {
    PixelSizes(r.items, [], g.sc);
    SubNothingIf(first, row, above);
    hide SubRows, Pixels, Times;
    var f := RowBytes(r);
    assert f[0] == r.filter && f[1..] == Flat(Pixels(r.items, []));
    var e := FilteredRow(!first, row, above);
    assert e[1..] == if first then row else SubRows(row, above);
  }

  lemma SubNothingIf(first: bool, row: seq<byte>, above: seq<byte>)
    requires |row| == |above| && (first ==> forall i :: 0 <= i < |above| ==> above[i] == 0)
    ensures first ==> SubRows(row, above) == row
  {
    if first {
      SubNothing(row, above);
    }
  }

  lemma RowLength(lit: seq<nat>, r: Row, w: nat, sc: nat)
    requires GoodRow(lit, r, w, sc) && w >= 1 && (sc == 3 || sc == 4)
    ensures |RowBytes(r)| == 1 + Times(w, sc)
  {
    PixelSizes(r.items, [], sc);
    FlatAt(Pixels(r.items, []), sc, 0, 0);
  }

  lemma BelowNext(g: Geometry, out: seq<byte>, row: seq<byte>)
    requires g.Valid() && |row| == Times(g.w, g.sc)
    ensures Below(g, out + Converted(g, row), row)
  {
    ConvertedConcat(g, row, [], g.w);
    var all := out + Converted(g, row);
    assert all[|all| - g.Bpl()..] == Converted(g, row);
  }

  /** One row with its filter byte: its scanline is appended, converted. */
  lemma OneRowSent(g: Geometry, lit: seq<nat>, r: Row, row: seq<byte>, above: seq<byte>, out: seq<byte>, y: nat, h: nat, rest: seq<bool>)
    requires g.Valid() && Decodable(lit, 12) && GoodRow(lit, r, g.w, g.sc) && y < h
    requires |row| == Times(g.w, g.sc) && Below(g, out, above) && (y == 0 <==> out == [])
    requires RowBytes(r) == FilteredRow(y > 0, row, above)
    ensures DecodeRows(g, lit, RowBits(lit, r, g.sc) + rest, y, h, out)
         == DecodeRows(g, lit, rest, y + 1, h, out + Converted(g, row))
  {
    RowOfFiltered(g, lit, r, row, above, y == 0);
    hide DecodeRow, RowBytes, ItemsBits, Word, FilteredRow, DrawAll, Below, DeltasOf;
    var px := Pixels(r.items, []);
    var tail := ItemsBits(lit, r.items, g.sc) + rest;
    Assoc(Word(lit, r.filter), ItemsBits(lit, r.items, g.sc), rest);
    WordRead(lit, r.filter, tail);
    RowTokens(g, lit, r, rest, out);
    AllDrawn(g, out, above, row, px);
    hide Pixels, RowItems, AllSendable, Converted;
  }

  lemma RowTokens(g: Geometry, lit: seq<nat>, r: Row, rest: seq<bool>, out: seq<byte>)
    requires g.Valid() && Decodable(lit, 12) && GoodRow(lit, r, g.w, g.sc)
    ensures forall i :: 0 <= i < |Pixels(r.items, [])| ==> |Pixels(r.items, [])[i]| == g.sc
    ensures DecodeRow(g, lit, ItemsBits(lit, r.items, g.sc) + rest, g.w, NoDelta(g.sc), out)
         == Some(Inflate.Read(DrawAll(g, out, Pixels(r.items, [])), rest))
  {
    RowSent(g, lit, r.items, rest, [], NoDelta(g.sc), out, g.w);
  }

  lemma AllDrawn(g: Geometry, out: seq<byte>, above: seq<byte>, row: seq<byte>, px: seq<Pixel>)
    requires g.Valid() && Below(g, out, above) && DeltasOf(g, px, row, above)
    ensures forall i :: 0 <= i < |px| ==> |px[i]| == g.sc
    ensures DrawAll(g, out, px) == out + Converted(g, row)
  {
    RowDrawn(g, out, above, row, px, 0);
    assert row[..0] == [] && Converted(g, []) == [] && out + [] == out && px[0..] == px;
  }

  lemma {:induction false} RowsSent(g: Geometry, lit: seq<nat>, rows: seq<Row>, image: seq<byte>, above: seq<byte>, out: seq<byte>,
                                    y: nat, h: nat, rest: seq<bool>)
    requires g.Valid() && Decodable(lit, 12) && Has(lit, 256) && GoodRows(lit, rows, g.w, g.sc)
    requires y + |rows| == h && |image| == Span(|rows|, Times(g.w, g.sc))
    requires Below(g, out, above) && (y == 0 <==> out == [])
    requires ImageBytes(rows) == Filtered(image, Times(g.w, g.sc), true, y == 0, above)
    ensures DecodeRows(g, lit, RowsBits(lit, rows, g.sc) + (Word(lit, 256) + rest), y, h, out)
         == Some(Inflate.Read(out + Converted(g, image), rest))
    decreases |rows|
  {
    hide DecodeRows, RowsBits, RowBits, Word, Has, Below, Converted, FilteredRow, RowBytes, GoodRows, GoodRow, Filtered, ImageBytes, Span, Decodable;
    var b := Times(g.w, g.sc);
    var end := Word(lit, 256) + rest;
    if rows == [] {
      RowsEnd(g, lit, image, out, h, rest);
    } else {
      SpanFront(|rows|, b);
      AboveLength(g, out, above);
      FirstRowParts(g, lit, rows, image, above, y == 0);
      var row := image[..b];
      BelowNext(g, out, row);
      ConvertedFront(g, image);
      RowsBitsFront(lit, rows, g.sc, end);
      OneRowSent(g, lit, rows[0], row, above, out, y, h, RowsBits(lit, rows[1..], g.sc) + end);
      RowsSent(g, lit, rows[1..], image[b..], row, out + Converted(g, row), y + 1, h, rest);
      Assoc(out, Converted(g, row), Converted(g, image[b..]));
    }
  }

  lemma AboveLength(g: Geometry, out: seq<byte>, above: seq<byte>)
    requires g.Valid() && Below(g, out, above)
    ensures |above| == Times(g.w, g.sc)
  {
  }

  lemma RowsEnd(g: Geometry, lit: seq<nat>, image: seq<byte>, out: seq<byte>, h: nat, rest: seq<bool>)
    requires g.Valid() && Decodable(lit, 12) && Has(lit, 256) && |image| == Span(0, Times(g.w, g.sc))
    ensures DecodeRows(g, lit, RowsBits(lit, [], g.sc) + (Word(lit, 256) + rest), h, h, out)
         == Some(Inflate.Read(out + Converted(g, image), rest))
  {
    hide Word, DecodeRow;
    var end := Word(lit, 256) + rest;
    assert Span(0, Times(g.w, g.sc)) == 0 && image == [];
    assert RowsBits(lit, [], g.sc) + end == end && Converted(g, image) == [] && out + [] == out;
    WordRead(lit, 256, rest);
  }

  lemma RowsBitsFront(lit: seq<nat>, rows: seq<Row>, sc: nat, end: seq<bool>)
    requires rows != []
    ensures RowsBits(lit, rows, sc) + end == RowBits(lit, rows[0], sc) + (RowsBits(lit, rows[1..], sc) + end)
  {
    hide RowBits;
    Assoc(RowBits(lit, rows[0], sc), RowsBits(lit, rows[1..], sc), end);
  }

  lemma SpanFront(n: nat, b: nat)
    requires n >= 1
    ensures Span(n, b) == b + Span(n - 1, b)
  {
  }

  lemma ConvertedFront(g: Geometry, image: seq<byte>)
    requires g.Valid() && |image| >= Times(g.w, g.sc)
    ensures Converted(g, image) == Converted(g, image[..Times(g.w, g.sc)]) + Converted(g, image[Times(g.w, g.sc)..])
    ensures Converted(g, image[..Times(g.w, g.sc)]) != []
  {
    hide Converted;
    var b := Times(g.w, g.sc);
    assert image == image[..b] + image[b..];
    ConvertedConcat(g, image[..b], image[b..], g.w);
    assert Times(g.w, g.dc) > 0;
  }

  lemma FirstRowParts(g: Geometry, lit: seq<nat>, rows: seq<Row>, image: seq<byte>, above: seq<byte>, first: bool)
    requires g.Valid() && rows != [] && GoodRows(lit, rows, g.w, g.sc)
    requires |above| == Times(g.w, g.sc) <= |image|
    requires ImageBytes(rows) == Filtered(image, Times(g.w, g.sc), true, first, above)
    ensures var b := Times(g.w, g.sc);
      && RowBytes(rows[0]) == FilteredRow(!first, image[..b], above)
      && ImageBytes(rows[1..]) == Filtered(image[b..], b, true, false, image[..b])
      && GoodRow(lit, rows[0], g.w, g.sc) && GoodRows(lit, rows[1..], g.w, g.sc)
  {
    var b := Times(g.w, g.sc);
    RowLength(lit, rows[0], g.w, g.sc);
    ImageBytesFront(rows);
    FilterNext(image, b, true, first, above);
    hide ImageBytes, Filtered, FilteredRow, RowBytes;
    HeadsEqual(RowBytes(rows[0]), ImageBytes(rows[1..]), FilteredRow(!first, image[..b], above), Filtered(image[b..], b, true, false, image[..b]));
  }
}
