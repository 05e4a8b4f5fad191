/** fpng's pixel decoders (libs/fpng/fpng.cpp:2254-2557, 2632-2873). The reference below looks up one
    symbol at a time; the decoders use the packed two-symbol table, read ahead, and draw as they go.
    The two decoders share their run branch and differ in the channels of the stream and in how the
    literals of a pixel are read; sc is 3 in one and 4 in the other. */
module FpngPixels {
  import opened Bits
  import opened BitReader
  import opened Canonical
  import opened Wrappers
  import opened FpngEncode
  import opened FpngHeader
  import opened FpngScreen
  import opened FpngTable
  import opened FpngTokens
  import opened Inflate

  // ---- One symbol at a time.

  /** n more literals after px. */
  ghost function ReadLiterals(lit: seq<nat>, bits: seq<bool>, px: seq<byte>, n: nat): (r: Option<Read<seq<byte>>>)
    ensures r.Some? ==> |r.value.value| == |px| + n && |r.value.rest| <= |bits|
    decreases n
  {
    if n == 0 then Some(Read(px, bits))
    else match ReadSym(lit, bits)
    case None => None
    case Some(s) => if s.value < 256 then ReadLiterals(lit, s.rest, px + [s.value], n - 1) else None
  }

  /** The base length of a run symbol; the two symbols that stand for nothing count as zero. */
  function RunBase(sym: nat): nat
    requires 257 <= sym
  {
    if sym <= 285 then LENGTH_BASE[sym - 257] else 0
  }

  function RunExtra(sym: nat): nat
    requires 257 <= sym
  {
    if sym <= 285 then LENGTH_EXTRA[sym - 257] else 0
  }

  /** The pixels of a run of that many bytes. */
  function RunOf(bytes: nat, sc: nat): Option<nat> {
    if sc == 3 then if bytes % 3 == 0 && bytes > 0 then Some(bytes / 3) else None
    else if bytes % 4 == 0 then Some(bytes / 4)
    else None
  }

  /** A run: its extra bits, then one bit for the distance, which is always the same. */
  function ReadRun(sym: nat, sc: nat, bits: seq<bool>): (r: Option<Read<nat>>)
    requires 257 <= sym
    ensures r.Some? ==> |r.value.rest| < |bits|
  {
    var e := RunExtra(sym);
    if |bits| < e + 1 then None
    else match RunOf(RunBase(sym) + FromBits(bits[..e]), sc)
    case None => None
    case Some(n) => Some(Read(n, bits[e + 1..]))
  }

  /** The n pixels still missing from a row; d is the delta of the pixel before them. */
  ghost function DecodeRow(g: Geometry, lit: seq<nat>, bits: seq<bool>, n: nat, d: Pixel, out: seq<byte>)
    : (r: Option<Read<seq<byte>>>)
    requires g.Valid() && |d| == g.sc
    ensures r.Some? ==> |r.value.rest| <= |bits|
    decreases |bits|
  {
    if n == 0 then Some(Read(out, bits))
    else match ReadSym(lit, bits)
    case None => None
    case Some(s) =>
      if s.value < 256 then
        match ReadLiterals(lit, s.rest, [s.value], g.sc - 1)
        case None => None
        case Some(px) => DecodeRow(g, lit, px.rest, n - 1, px.value, DrawPixel(g, out, px.value))
      else if s.value == 256 then None
      else
        match ReadRun(s.value, g.sc, s.rest)
        case None => None
        case Some(k) =>
          if k.value > n then None
          else
            var m := RunPixels(g, |out|, d, k.value);
            DecodeRow(g, lit, k.rest, n - m, d, DrawRun(g, out, d, m))
  }

  function NoDelta(sc: nat): (d: Pixel)
    ensures |d| == sc
  {
    seq(sc, _ => 0)
  }

  /** Rows from y on, each after its filter byte, and the end of the block. */
  ghost function DecodeRows(g: Geometry, lit: seq<nat>, bits: seq<bool>, y: nat, h: nat, out: seq<byte>)
    : (r: Option<Read<seq<byte>>>)
    requires g.Valid() && y <= h
    ensures r.Some? ==> |r.value.rest| <= |bits|
    decreases h - y
  {
    match ReadSym(lit, bits)
    case None => None
    case Some(s) =>
      if y == h then if s.value == 256 then Some(Read(out, s.rest)) else None
      else if s.value != (if y > 0 then 2 else 0) then None
      else match DecodeRow(g, lit, s.rest, g.w, NoDelta(g.sc), out)
        case None => None
        case Some(row) => DecodeRows(g, lit, row.rest, y + 1, h, row.value)
  }

  // ---- Table lookups.

  ghost predicate GoodTable(lit: seq<nat>, table: seq<Entry>) {
    Packed(lit, table) && Decodable(lit, 15) && Bounded(lit, TABLE_BITS)
  }

  /** lit_table[bit_buf & (FPNG_DECODER_TABLE_SIZE - 1)] */
  method Look(r: BitReader, table: seq<Entry>, ghost lit: seq<nat>) returns (e: Entry)
    requires r.Valid() && r.bitBufSize >= TABLE_BITS && GoodTable(lit, table)
    ensures Means(lit, e, r.Rest())
  {
    hide Pow2, ToBits, Decodable, BitReader.Rest, BitReader.Valid;
    Pow2Values();
    var x := r.Peek(TABLE_BITS);
    Lookup(lit, table, x, r.Rest());
    return table[x];
  }

  /** e's second symbol as an entry of its own. */
  function Second(e: Entry): Entry {
    Entry(e.sym2, e.len2, 0, 0)
  }

  lemma SecondMeans(lit: seq<nat>, e: Entry, bits: seq<bool>)
    requires Means(lit, e, bits) && e.len2 > 0
    ensures Means(lit, Second(e), bits[e.len..])
  {
    assert |bits[e.len..]| == |bits| - e.len;
  }

  /** The symbol after a literal, packed with it or looked up. */
  method After(r: BitReader, table: seq<Entry>, e: Entry, ghost lit: seq<nat>, ghost bits: seq<bool>) returns (next: Entry)
    requires r.Valid() && r.bitBufSize >= TABLE_BITS && GoodTable(lit, table)
    requires Means(lit, e, bits) && e.len > 0 && r.Rest() == bits[e.len..]
    ensures Means(lit, next, r.Rest())
  {
    hide Means, GoodTable, BitReader.Rest, BitReader.Valid;
    if e.len2 > 0 {
      SecondMeans(lit, e, bits);
      next := Second(e);
    } else {
      next := Look(r, table, lit);
    }
  }

  /** Two symbols follow in bits: the second is still unread. */
  ghost predicate TwoNext(lit: seq<nat>, bits: seq<bool>, sym: nat, e: Entry, rest: seq<bool>) {
    ReadSym(lit, bits) == Some(Read(sym, rest)) && Means(lit, e, rest) && e.len > 0
  }

  ghost predicate NotTwo(lit: seq<nat>, bits: seq<bool>) {
    ReadSym(lit, bits).None? || ReadSym(lit, ReadSym(lit, bits).value.rest).None?
  }

  /** The second and third literal of a pixel: packed with the first, looked up, or packed with the second. */
  method SecondAndThird(r: BitReader, table: seq<Entry>, lit0: Entry, ghost lit: seq<nat>, ghost bits: seq<bool>)
    returns (ok: bool, lit1: nat, lit2: Entry)
    requires r.Valid() && r.bitBufSize >= 32 && GoodTable(lit, table)
    requires Means(lit, lit0, bits) && lit0.len > 0 && r.Rest() == bits[lit0.len..]
    modifies r
    ensures ok ==> r.Valid() && r.bitBufSize >= 20 && TwoNext(lit, old(r.Rest()), lit1, lit2, r.Rest())
    ensures !ok ==> NotTwo(lit, old(r.Rest()))
  {
    hide GoodTable, Packed, BitReader.Rest, BitReader.Valid;
    if lit0.len2 > 0 {
      lit1 := lit0.sym2;
      r.SkipNe(lit0.len2);
      lit2 := Look(r, table, lit);
    } else {
      var e := Look(r, table, lit);
      lit1, lit2 := e.sym, e;
      if e.len == 0 {
        return false, lit1, lit2;
      }
      ghost var from := r.Rest();
      r.SkipNe(e.len);
      lit2 := After(r, table, e, lit, from);
    }
    ok := lit2.len > 0;
  }

  // ---- What the reference does with a pixel of literals.

  lemma LiteralsNext(lit: seq<nat>, bits: seq<bool>, px: seq<byte>, n: nat, e: Entry)
    requires n > 0 && MeansFirst(lit, e, bits)
    ensures e.len == 0 || e.sym >= 256 ==> ReadLiterals(lit, bits, px, n).None?
    ensures e.len > 0 && e.sym < 256 ==> ReadLiterals(lit, bits, px, n) == ReadLiterals(lit, bits[e.len..], px + [e.sym], n - 1)
  {
  }

  lemma LiteralsTwo(lit: seq<nat>, bits: seq<bool>, px: seq<byte>, n: nat, sym: nat, e: Entry, rest: seq<bool>)
    requires n >= 2 && TwoNext(lit, bits, sym, e, rest)
    ensures sym >= 256 || e.sym >= 256 ==> ReadLiterals(lit, bits, px, n).None?
    ensures sym < 256 && e.sym < 256 ==> ReadLiterals(lit, bits, px, n) == ReadLiterals(lit, rest[e.len..], px + [sym] + [e.sym], n - 2)
  {
    if sym < 256 {
      LiteralsNext(lit, rest, px + [sym], n - 1, e);
    }
  }

  lemma LiteralsNotTwo(lit: seq<nat>, bits: seq<bool>, px: seq<byte>, n: nat)
    requires n >= 2 && NotTwo(lit, bits)
    ensures ReadLiterals(lit, bits, px, n).None?
  {
    var s := ReadSym(lit, bits);
    if s.Some? && s.value.value < 256 {
      assert ReadLiterals(lit, s.value.rest, px + [s.value.value], n - 1).None?;
    }
  }

  /** The first symbol of a pixel that is a literal. */
  lemma RowLiteral(g: Geometry, lit: seq<nat>, bits: seq<bool>, n: nat, d: Pixel, out: seq<byte>, e: Entry)
    requires g.Valid() && |d| == g.sc && n > 0 && MeansFirst(lit, e, bits) && e.len > 0 && e.sym < 256
    ensures var px := ReadLiterals(lit, bits[e.len..], [e.sym], g.sc - 1);
      DecodeRow(g, lit, bits, n, d, out)
        == if px.None? then None else DecodeRow(g, lit, px.value.rest, n - 1, px.value.value, DrawPixel(g, out, px.value.value))
  {
  }

  lemma RowStarved(g: Geometry, lit: seq<nat>, bits: seq<bool>, n: nat, d: Pixel, out: seq<byte>, e: Entry)
    requires g.Valid() && |d| == g.sc && n > 0 && MeansFirst(lit, e, bits)
    requires e.len == 0 || |bits[e.len..]| < 64
    ensures Hopeless(DecodeRow(g, lit, bits, n, d, out))
  {
    hide DrawRun, DrawPixel, RunPixels, ReadLiterals, ReadRun;
  }

  /** A whole pixel of three literals. */
  lemma RowPixel3(g: Geometry, lit: seq<nat>, bits: seq<bool>, n: nat, d: Pixel, out: seq<byte>, e: Entry,
                  sym: nat, e2: Entry, rest: seq<bool>)
    requires g.Valid() && g.sc == 3 && |d| == 3 && n > 0 && MeansFirst(lit, e, bits) && e.len > 0 && e.sym < 256
    requires TwoNext(lit, bits[e.len..], sym, e2, rest)
    ensures sym >= 256 || e2.sym >= 256 ==> DecodeRow(g, lit, bits, n, d, out).None? && Hopeless(DecodeRow(g, lit, bits, n, d, out))
    ensures sym < 256 && e2.sym < 256 ==>
      DecodeRow(g, lit, bits, n, d, out) == DecodeRow(g, lit, rest[e2.len..], n - 1, [e.sym, sym, e2.sym], DrawPixel(g, out, [e.sym, sym, e2.sym]))
    ensures |rest[e2.len..]| < 64 ==> Hopeless(DecodeRow(g, lit, bits, n, d, out))
  {
    RowLiteral(g, lit, bits, n, d, out, e);
    LiteralsTwo(lit, bits[e.len..], [e.sym], 2, sym, e2, rest);
    hide DecodeRow, DrawPixel, ReadSym;
    if sym < 256 && e2.sym < 256 {
      assert [e.sym] + [sym] + [e2.sym] == [e.sym, sym, e2.sym];
      assert ReadLiterals(lit, rest[e2.len..], [e.sym, sym, e2.sym], 0) == Some(Read([e.sym, sym, e2.sym], rest[e2.len..]));
    }
  }

  /** Four literals: the last is e3. */
  lemma RowPixel4(g: Geometry, lit: seq<nat>, bits: seq<bool>, n: nat, d: Pixel, out: seq<byte>, e: Entry,
                  sym: nat, e2: Entry, rest: seq<bool>, e3: Entry, r3: seq<bool>)
    requires g.Valid() && g.sc == 4 && |d| == 4 && n > 0 && MeansFirst(lit, e, bits) && e.len > 0 && e.sym < 256
    requires e.len <= |bits| && TwoNext(lit, bits[e.len..], sym, e2, rest)
    requires e2.len <= |rest| && r3 == rest[e2.len..] && MeansFirst(lit, e3, r3)
    ensures sym >= 256 || e2.sym >= 256 || e3.len == 0 || e3.sym >= 256 ==> DecodeRow(g, lit, bits, n, d, out).None?
    ensures sym < 256 && e2.sym < 256 && e3.sym < 256 && 0 < e3.len <= |r3| ==>
      var px := [e.sym, sym, e2.sym, e3.sym];
      DecodeRow(g, lit, bits, n, d, out) == DecodeRow(g, lit, r3[e3.len..], n - 1, px, DrawPixel(g, out, px))
  {
    hide DecodeRow, DrawPixel, ReadSym, Means, ReadLiterals;
    RowLiteral(g, lit, bits, n, d, out, e);
    LiteralsTwo(lit, bits[e.len..], [e.sym], 3, sym, e2, rest);
    if sym < 256 && e2.sym < 256 {
      assert [e.sym] + [sym] + [e2.sym] == [e.sym, sym, e2.sym];
      LiteralsNext(lit, r3, [e.sym, sym, e2.sym], 1, e3);
      if e3.len > 0 && e3.sym < 256 {
        var px := [e.sym, sym, e2.sym, e3.sym];
        assert [e.sym, sym, e2.sym] + [e3.sym] == px;
        NoLiterals(lit, r3[e3.len..], px);
      }
    }
  }

  lemma NoLiterals(lit: seq<nat>, bits: seq<bool>, px: seq<byte>)
    ensures ReadLiterals(lit, bits, px, 0) == Some(Read(px, bits))
  {
  }

  lemma RowNotTwo(g: Geometry, lit: seq<nat>, bits: seq<bool>, n: nat, d: Pixel, out: seq<byte>, e: Entry)
    requires g.Valid() && |d| == g.sc && n > 0 && MeansFirst(lit, e, bits) && e.len > 0 && e.sym < 256
    requires NotTwo(lit, bits[e.len..])
    ensures DecodeRow(g, lit, bits, n, d, out).None? && Hopeless(DecodeRow(g, lit, bits, n, d, out))
  {
    RowLiteral(g, lit, bits, n, d, out, e);
    LiteralsNotTwo(lit, bits[e.len..], [e.sym], g.sc - 1);
  }

  /** The input ends right after the second symbol of a pixel. */
  lemma RowShort(g: Geometry, lit: seq<nat>, bits: seq<bool>, n: nat, d: Pixel, out: seq<byte>, e: Entry, e1: Entry)
    requires g.Valid() && |d| == g.sc && n > 0 && MeansFirst(lit, e, bits) && e.len > 0 && e.sym < 256
    requires MeansFirst(lit, e1, bits[e.len..]) && e1.len > 0 && |bits[e.len..][e1.len..]| < 64
    ensures Hopeless(DecodeRow(g, lit, bits, n, d, out))
  {
    RowLiteral(g, lit, bits, n, d, out, e);
    LiteralsNext(lit, bits[e.len..], [e.sym], g.sc - 1, e1);
    hide DecodeRow, DrawPixel, ReadSym;
  }

  // ---- The decoders' steps.

  /** Where the next pixel of a row goes: n are missing, and the first row has no scanline above. */
  ghost predicate InRow(g: Geometry, out: seq<byte>, n: nat, prevScanline: bool)
    requires g.Valid()
  {
    && Opaque(g, out)
    && (prevScanline ==> |out| >= g.Bpl())
    && (!prevScanline ==> |out| + Times(n, g.dc) == g.Bpl())
  }

  lemma FirstRowOpen(g: Geometry, out: seq<byte>, n: nat, prevScanline: bool)
    requires g.Valid() && InRow(g, out, n, prevScanline) && n > 0
    ensures prevScanline <==> |out| >= g.Bpl()
    ensures Times(n, g.dc) == g.dc + Times(n - 1, g.dc)
  {
  }

  lemma InRowPixel(g: Geometry, out: seq<byte>, n: nat, prevScanline: bool, d: Pixel)
    requires g.Valid() && |d| == g.sc && InRow(g, out, n, prevScanline) && n > 0
    ensures InRow(g, DrawPixel(g, out, d), n - 1, prevScanline)
  {
    PixelOpaque(g, out, d);
    hide DrawPixel, Opaque;
  }

  method OnePixel(g: Geometry, dst: array<byte>, o: nat, prevScanline: bool, d: Pixel, ghost n: nat) returns (end: nat)
    requires g.Valid() && |d| == g.sc && n > 0 && o + Times(n, g.dc) <= dst.Length
    requires InRow(g, dst[..o], n, prevScanline)
    modifies dst
    ensures end == o + g.dc && end + Times(n - 1, g.dc) == o + Times(n, g.dc)
    ensures dst[..end] == DrawPixel(g, old(dst[..o]), d) && InRow(g, dst[..end], n - 1, prevScanline)
  {
    FirstRowOpen(g, dst[..o], n, prevScanline);
    InRowPixel(g, dst[..o], n, prevScanline, d);
    hide DrawPixel, InRow, Times, Geometry.Bpl;
    PutPixel(g, dst, o, prevScanline, d);
    end := o + g.dc;
  }

  /** A pixel whose first literal was packed with the last one of the pixel before. */
  method NextPixel3(g: Geometry, r: BitReader, table: seq<Entry>, lit0: Entry, dst: array<byte>, o: nat, prevScanline: bool,
                    d0: Pixel, ghost lit: seq<nat>, ghost n: nat)
    returns (ok: bool, end: nat, d: Pixel)
    requires r.Valid() && r.bitBufSize >= 32 && GoodTable(lit, table)
    requires g.Valid() && g.sc == 3 && |d0| == 3 && n > 0 && o + Times(n, g.dc) <= dst.Length
    requires InRow(g, dst[..o], n, prevScanline)
    requires Means(lit, lit0, r.Rest()) && lit0.len > 0 && lit0.sym < 256
    modifies r, dst
    ensures ok ==> r.Valid() && r.bitBufSize >= 20 && |d| == 3
    ensures ok ==> end == o + g.dc && end + Times(n - 1, g.dc) == o + Times(n, g.dc) && InRow(g, dst[..end], n - 1, prevScanline)
    ensures ok ==> DecodeRow(g, lit, old(r.Rest()), n, d0, old(dst[..o])) == DecodeRow(g, lit, r.Rest(), n - 1, d, dst[..end])
    ensures !ok ==> Hopeless(DecodeRow(g, lit, old(r.Rest()), n, d0, old(dst[..o])))
  {
    hide GoodTable, ReadLiterals, ReadSym, Hopeless, DecodeRow, DrawPixel, InRow, Times, Geometry.Bpl, BitReader.Rest, BitReader.Valid;
    ghost var bits, out := r.Rest(), dst[..o];
    end, d := o, d0;
    r.SkipNe(lit0.len);
    ghost var r1 := r.Rest();
    var lit1 := Look(r, table, lit);
    if lit1.len == 0 {
      RowNotTwo(g, lit, bits, n, d0, out, lit0);
      return false, end, d;
    }
    ok := r.Skip(lit1.len);
    if !ok {
      RowShort(g, lit, bits, n, d0, out, lit0, lit1);
      return;
    }
    ghost var r2 := r.Rest();
    var lit2 := After(r, table, lit1, lit, r1);
    if lit2.len == 0 {
      RowNotTwo(g, lit, bits, n, d0, out, lit0);
      return false, end, d;
    }
    r.SkipNe(lit2.len);
    RowPixel3(g, lit, bits, n, d0, out, lit0, lit1.sym, lit2, r2);
    if lit1.sym >= 256 || lit2.sym >= 256 {
      return false, end, d;
    }
    d := [lit0.sym, lit1.sym, lit2.sym];
    end := OnePixel(g, dst, o, prevScanline, d, n);
    return true, end, d;
  }

  /** One or two pixels of three literals. */
  method Literals3(g: Geometry, r: BitReader, table: seq<Entry>, lit0: Entry, dst: array<byte>, o: nat, rowEnd: nat, prevScanline: bool,
                   d0: Pixel, ghost lit: seq<nat>, ghost bits: seq<bool>, ghost n: nat)
    returns (ok: bool, end: nat, d: Pixel, ghost left: nat)
    requires r.Valid() && r.bitBufSize >= 32 && GoodTable(lit, table)
    requires g.Valid() && g.sc == 3 && |d0| == 3 && n > 0 && rowEnd == o + Times(n, g.dc) <= dst.Length
    requires InRow(g, dst[..o], n, prevScanline)
    requires Means(lit, lit0, bits) && lit0.len > 0 && lit0.sym < 256 && r.Rest() == bits[lit0.len..]
    modifies r, dst
    ensures ok ==> r.Valid() && r.bitBufSize >= 20 && |d| == 3 && left < n
    ensures ok ==> end <= rowEnd && rowEnd == end + Times(left, g.dc) && InRow(g, dst[..end], left, prevScanline)
    ensures ok ==> DecodeRow(g, lit, bits, n, d0, old(dst[..o])) == DecodeRow(g, lit, r.Rest(), left, d, dst[..end])
    ensures !ok ==> Hopeless(DecodeRow(g, lit, bits, n, d0, old(dst[..o])))
  {
    hide GoodTable, ReadLiterals, ReadSym, Hopeless, DecodeRow, DrawPixel, InRow, Geometry.Bpl, BitReader.Rest, BitReader.Valid;
    ghost var out := dst[..o];
    end, d, left := o, d0, n;
    var lit1, lit2;
    ok, lit1, lit2 := SecondAndThird(r, table, lit0, lit, bits);
    if !ok {
      RowNotTwo(g, lit, bits, n, d0, out, lit0);
      return;
    }
    ghost var r2 := r.Rest();
    RowPixel3(g, lit, bits, n, d0, out, lit0, lit1, lit2, r2);
    ok := r.Skip(lit2.len);
    if !ok {
      return;
    }
    if lit1 >= 256 || lit2.sym >= 256 {
      return false, end, d, left;
    }
    d := [lit0.sym, lit1, lit2.sym];
    end := OnePixel(g, dst, o, prevScanline, d, n);
    left := n - 1;
    if lit2.len2 > 0 && end < rowEnd {
      SecondMeans(lit, lit2, r2);
      if lit2.sym2 < 256 {
        ok, end, d := NextPixel3(g, r, table, Second(lit2), dst, end, prevScanline, d, lit, left);
        left := left - 1;
      }
    }
  }

  /** Reading one more symbol fails, or leaves too little input. */
  ghost predicate NoFourth(lit: seq<nat>, bits: seq<bool>) {
    Hopeless(ReadSym(lit, bits))
  }

  lemma RowNoFourth(g: Geometry, lit: seq<nat>, bits: seq<bool>, n: nat, d: Pixel, out: seq<byte>, e: Entry,
                    sym: nat, e2: Entry, rest: seq<bool>)
    requires g.Valid() && g.sc == 4 && |d| == 4 && n > 0 && MeansFirst(lit, e, bits) && e.len > 0 && e.sym < 256
    requires TwoNext(lit, bits[e.len..], sym, e2, rest) && NoFourth(lit, rest[e2.len..])
    ensures Hopeless(DecodeRow(g, lit, bits, n, d, out))
  {
    RowLiteral(g, lit, bits, n, d, out, e);
    LiteralsTwo(lit, bits[e.len..], [e.sym], 3, sym, e2, rest);
    hide DecodeRow, DrawPixel;
    if sym < 256 && e2.sym < 256 {
      LiteralsOne(lit, rest[e2.len..], [e.sym] + [sym] + [e2.sym]);
    }
  }

  lemma LiteralsOne(lit: seq<nat>, bits: seq<bool>, px: seq<byte>)
    requires NoFourth(lit, bits)
    ensures Hopeless(ReadLiterals(lit, bits, px, 1))
  {
    var s := ReadSym(lit, bits);
    if s.Some? && s.value.value < 256 {
      assert ReadLiterals(lit, s.value.rest, px + [s.value.value], 0) == Some(Read(px + [s.value.value], s.value.rest));
    }
  }

  /** The bits of the third literal and the fourth literal with its bits. */
  method Fourth(r: BitReader, table: seq<Entry>, lit2: Entry, ghost lit: seq<nat>) returns (ok: bool, lit3: Entry)
    requires r.Valid() && r.bitBufSize >= 20 && GoodTable(lit, table)
    requires Means(lit, lit2, r.Rest()) && lit2.len > 0
    modifies r
    ensures ok ==> r.Valid() && r.bitBufSize >= 20 && MeansFirst(lit, lit3, old(r.Rest())[lit2.len..]) && lit3.len > 0
    ensures ok ==> r.Rest() == old(r.Rest())[lit2.len..][lit3.len..]
    ensures !ok ==> NoFourth(lit, old(r.Rest())[lit2.len..])
  {
    hide GoodTable, Packed, BitReader.Rest, BitReader.Valid;
    ghost var bits := r.Rest();
    if lit2.len2 > 0 {
      SecondMeans(lit, lit2, bits);
      lit3 := Second(lit2);
      SliceTwice(bits, lit2.len, lit2.len2);
      ok := r.Skip(lit2.len + lit2.len2);
    } else {
      lit3 := lit2;
      ok := r.Skip(lit2.len);
      if !ok {
        return;
      }
      lit3 := Look(r, table, lit);
      if lit3.len == 0 {
        return false, lit3;
      }
      r.SkipNe(lit3.len);
    }
  }

  lemma SliceTwice(bits: seq<bool>, a: nat, b: nat)
    requires a + b <= |bits|
    ensures bits[a + b..] == bits[a..][b..]
  {
  }

  /** One pixel of four literals. */
  method Literals4(g: Geometry, r: BitReader, table: seq<Entry>, lit0: Entry, dst: array<byte>, o: nat, prevScanline: bool,
                   d0: Pixel, ghost lit: seq<nat>, ghost bits: seq<bool>, ghost n: nat)
    returns (ok: bool, end: nat, d: Pixel)
    requires r.Valid() && r.bitBufSize >= 32 && GoodTable(lit, table)
    requires g.Valid() && g.sc == 4 && |d0| == 4 && n > 0 && o + Times(n, g.dc) <= dst.Length
    requires InRow(g, dst[..o], n, prevScanline)
    requires Means(lit, lit0, bits) && lit0.len > 0 && lit0.sym < 256 && r.Rest() == bits[lit0.len..]
    modifies r, dst
    ensures ok ==> r.Valid() && r.bitBufSize >= 20 && |d| == 4
    ensures ok ==> end == o + g.dc && end + Times(n - 1, g.dc) == o + Times(n, g.dc) && InRow(g, dst[..end], n - 1, prevScanline)
    ensures ok ==> DecodeRow(g, lit, bits, n, d0, old(dst[..o])) == DecodeRow(g, lit, r.Rest(), n - 1, d, dst[..end])
    ensures !ok ==> Hopeless(DecodeRow(g, lit, bits, n, d0, old(dst[..o])))
  {
    hide GoodTable, ReadLiterals, ReadSym, DecodeRow, DrawPixel, InRow, Geometry.Bpl, Times, BitReader.Rest, BitReader.Valid;
    ghost var out := dst[..o];
    end, d := o, d0;
    var lit1, lit2, lit3;
    ok, lit1, lit2 := SecondAndThird(r, table, lit0, lit, bits);
    if !ok {
      RowNotTwo(g, lit, bits, n, d0, out, lit0);
      return;
    }
    ghost var r2 := r.Rest();
    ok, lit3 := Fourth(r, table, lit2, lit);
    if !ok {
      RowNoFourth(g, lit, bits, n, d0, out, lit0, lit1, lit2, r2);
      return;
    }
    RowPixel4(g, lit, bits, n, d0, out, lit0, lit1, lit2, r2, lit3, r2[lit2.len..]);
    if lit1 >= 256 || lit2.sym >= 256 || lit3.sym >= 256 {
      return false, end, d;
    }
    d := [lit0.sym, lit1, lit2.sym, lit3.sym];
    end := OnePixel(g, dst, o, prevScanline, d, n);
    return true, end, d;
  }

  // ---- Runs.

  /** g_run_len3_to_4: bytes of four-byte pixels for bytes of three-byte pixels, zero if they are no whole pixels. */
  function RunLen3To4(n: nat): nat {
    if n % 3 == 0 then n / 3 * 4 else 0
  }

  /** The bytes a run takes in the image, if its length is one that fpng writes. */
  method RunBytes(g: Geometry, runLen: nat) returns (ok: bool, bytes: nat)
    requires g.Valid()
    ensures ok <==> RunOf(runLen, g.sc).Some?
    ensures ok ==> bytes == Times(RunOf(runLen, g.sc).value, g.dc)
  {
    bytes := 0;
    if g.sc == 3 {
      if RunLen3To4(runLen) == 0 {
        return false, bytes;
      }
      bytes := if g.dc == 4 then RunLen3To4(runLen) else runLen;
    } else {
      if runLen % 4 != 0 {
        return false, bytes;
      }
      bytes := if g.dc == 3 then runLen / 4 * 3 else runLen;
    }
    return true, bytes;
  }

  /** The run branch of the reference. */
  lemma RowRun(g: Geometry, lit: seq<nat>, bits: seq<bool>, n: nat, d: Pixel, out: seq<byte>, e: Entry)
    requires g.Valid() && |d| == g.sc && n > 0 && MeansFirst(lit, e, bits) && e.len > 0 && e.sym >= 256
    ensures e.sym == 256 ==> DecodeRow(g, lit, bits, n, d, out).None?
    ensures e.sym > 256 ==>
      var k := ReadRun(e.sym, g.sc, bits[e.len..]);
      && (k.None? || k.value.value > n ==> DecodeRow(g, lit, bits, n, d, out).None?)
      && (k.Some? && k.value.value <= n ==>
            var m := RunPixels(g, |out|, d, k.value.value);
            DecodeRow(g, lit, bits, n, d, out) == DecodeRow(g, lit, k.value.rest, n - m, d, DrawRun(g, out, d, m)))
  {
    hide ReadRun, ReadLiterals, DrawRun, DrawPixel;
  }

  lemma RunStaysInRow(g: Geometry, out: seq<byte>, n: nat, prevScanline: bool, d: Pixel, k: nat)
    requires g.Valid() && |d| == g.sc && InRow(g, out, n, prevScanline) && n > 0 && k <= n && Times(n, g.dc) <= g.Bpl()
    ensures var m := RunPixels(g, |out|, d, k);
      && m <= n && Times(k, g.dc) <= g.Bpl() && Times(m, g.dc) <= Times(n, g.dc)
      && Times(n, g.dc) == Times(m, g.dc) + Times(n - m, g.dc)
      && Opaque(g, out) && (!prevScanline ==> |out| + Times(m, g.dc) <= g.Bpl())
      && InRow(g, DrawRun(g, out, d, m), n - m, prevScanline)
  {
    var m := RunPixels(g, |out|, d, k);
    RunOpaque(g, out, d, m);
    hide DrawRun, Opaque;
  }

  lemma RunTimes(g: Geometry, k: nat, n: nat)
    requires g.Valid()
    ensures k <= n <==> Times(k, g.dc) <= Times(n, g.dc)
  {
  }

  /** The length of a run, with its extra bits, and the distance skipped. */
  method GetRun(r: BitReader, sym: nat) returns (runLen: nat)
    requires r.Valid() && r.bitBufSize >= 32 && 257 <= sym <= 287
    modifies r
    ensures r.Valid() && r.bitBufSize >= 20 && |old(r.Rest())| >= RunExtra(sym) + 1
    ensures r.Rest() == old(r.Rest())[RunExtra(sym) + 1..]
    ensures runLen == RunBase(sym) + FromBits(old(r.Rest())[..RunExtra(sym)])
  {
    ghost var bits := r.Rest();
    ExtraSmall(sym);
    assert FromBits([]) == 0;
    hide BitReader.Rest, BitReader.Valid, FromBits;
    runLen := RunBase(sym);
    if sym >= 265 {
      var e := r.GetNe(RunExtra(sym));
      runLen := runLen + e;
    } else {
      assert bits[..0] == [] && bits[0..] == bits;
    }
    SliceTwice(bits, RunExtra(sym), 1);
    r.SkipNe(1);
  }

  lemma ExtraSmall(sym: nat)
    requires 257 <= sym <= 287
    ensures RunExtra(sym) <= 5 && (sym < 265 ==> RunExtra(sym) == 0)
  {
  }

  method RunStep(g: Geometry, r: BitReader, e: Entry, dst: array<byte>, o: nat, rowEnd: nat, prevScanline: bool,
                 d: Pixel, ghost lit: seq<nat>, ghost bits: seq<bool>, ghost n: nat)
    returns (ok: bool, end: nat, ghost left: nat)
    requires r.Valid() && r.bitBufSize >= 32 && |lit| <= 288
    requires g.Valid() && |d| == g.sc && n > 0 && rowEnd == o + Times(n, g.dc) <= dst.Length && Times(n, g.dc) <= g.Bpl()
    requires InRow(g, dst[..o], n, prevScanline)
    requires MeansFirst(lit, e, bits) && e.len > 0 && e.sym >= 256 && r.Rest() == bits[e.len..]
    modifies r, dst
    ensures ok ==> r.Valid() && r.bitBufSize >= 20 && left <= n && |r.Rest()| < |bits|
    ensures ok ==> end <= rowEnd && rowEnd == end + Times(left, g.dc) && InRow(g, dst[..end], left, prevScanline)
    ensures ok ==> DecodeRow(g, lit, bits, n, d, old(dst[..o])) == DecodeRow(g, lit, r.Rest(), left, d, dst[..end])
    ensures !ok ==> Hopeless(DecodeRow(g, lit, bits, n, d, old(dst[..o])))
  {
    hide DecodeRow, DrawPixel, DrawRun, InRow, Geometry.Bpl, Times, RunPixels, RunOf, BitReader.Rest, BitReader.Valid, FromBits;
    ghost var out := dst[..o];
    end, left := o, n;
    RowRun(g, lit, bits, n, d, out, e);
    if e.sym == 256 {
      return false, end, left;
    }
    var runLen := GetRun(r, e.sym);
    var bytes;
    ok, bytes := RunBytes(g, runLen);
    if !ok {
      return;
    }
    ghost var k := RunOf(runLen, g.sc).value;
    RunTimes(g, k, n);
    if o + bytes > rowEnd {
      return false, end, left;
    }
    RunStaysInRow(g, out, n, prevScanline, d, k);
    FirstRowOpen(g, out, n, prevScanline);
    PixelsOfBytes(g, k);
    left := n - RunPixels(g, o, d, k);
    end := PutRun(g, dst, o, prevScanline, d, bytes / g.dc);
  }

  lemma PixelsOfBytes(g: Geometry, k: nat)
    requires g.Valid()
    ensures Times(k, g.dc) / g.dc == k
  {
  }

  // ---- Rows.

  /** One round of the loop over a row. */
  method RowStep(g: Geometry, r: BitReader, table: seq<Entry>, dst: array<byte>, o: nat, rowEnd: nat, prevScanline: bool,
                 d0: Pixel, ghost lit: seq<nat>, ghost n: nat)
    returns (ok: bool, end: nat, d: Pixel, ghost left: nat)
    requires r.Valid() && r.bitBufSize >= 20 && GoodTable(lit, table) && |lit| <= 288
    requires g.Valid() && |d0| == g.sc && n > 0 && rowEnd == o + Times(n, g.dc) <= dst.Length && Times(n, g.dc) <= g.Bpl()
    requires InRow(g, dst[..o], n, prevScanline)
    modifies r, dst
    ensures ok ==> r.Valid() && r.bitBufSize >= 20 && |d| == g.sc && left <= n
    ensures ok ==> left < n || |r.Rest()| < |old(r.Rest())|
    ensures ok ==> end <= rowEnd && rowEnd == end + Times(left, g.dc) && InRow(g, dst[..end], left, prevScanline)
    ensures ok ==> DecodeRow(g, lit, old(r.Rest()), n, d0, old(dst[..o])) == DecodeRow(g, lit, r.Rest(), left, d, dst[..end])
    ensures !ok ==> Hopeless(DecodeRow(g, lit, old(r.Rest()), n, d0, old(dst[..o])))
  {
    hide DecodeRow, DrawPixel, DrawRun, InRow, GoodTable, Geometry.Bpl, Times, BitReader.Rest, BitReader.Valid;
    ghost var bits, out := r.Rest(), dst[..o];
    end, d, left := o, d0, n;
    var lit0 := Look(r, table, lit);
    if lit0.len == 0 {
      RowStarved(g, lit, bits, n, d0, out, lit0);
      return false, end, d, left;
    }
    ok := r.Skip(lit0.len);
    if !ok {
      RowStarved(g, lit, bits, n, d0, out, lit0);
      return;
    }
    if lit0.sym >= 256 {
      ok, end, left := RunStep(g, r, lit0, dst, o, rowEnd, prevScanline, d0, lit, bits, n);
    } else if g.sc == 3 {
      ok, end, d, left := Literals3(g, r, table, lit0, dst, o, rowEnd, prevScanline, d0, lit, bits, n);
    } else {
      ok, end, d := Literals4(g, r, table, lit0, dst, o, prevScanline, d0, lit, bits, n);
      left := n - 1;
    }
  }

  lemma LeftOpen(g: Geometry, n: nat, left: nat)
    requires g.Valid() && left <= n
    ensures Times(left, g.dc) <= Times(n, g.dc) && (left > 0 <==> Times(left, g.dc) > 0)
  {
  }

  method ReadRow(g: Geometry, r: BitReader, table: seq<Entry>, dst: array<byte>, o: nat, prevScanline: bool, ghost lit: seq<nat>)
    returns (ok: bool, end: nat)
    requires r.Valid() && r.bitBufSize >= 20 && GoodTable(lit, table) && |lit| <= 288
    requires g.Valid() && o + g.Bpl() <= dst.Length && InRow(g, dst[..o], g.w, prevScanline)
    modifies r, dst
    ensures ok ==> r.Valid() && r.bitBufSize >= 20 && end == o + g.Bpl() && Opaque(g, dst[..end])
    ensures ok ==> DecodeRow(g, lit, old(r.Rest()), g.w, NoDelta(g.sc), old(dst[..o])) == Some(Read(dst[..end], r.Rest()))
    ensures !ok ==> Hopeless(DecodeRow(g, lit, old(r.Rest()), g.w, NoDelta(g.sc), old(dst[..o])))
  {
    var rowEnd := o + g.Bpl();
    ghost var spec := DecodeRow(g, lit, r.Rest(), g.w, NoDelta(g.sc), dst[..o]);
    ghost var left: nat := g.w;
    var d := NoDelta(g.sc);
    end := o;
    assert g.Bpl() == Times(g.w, g.dc);
    LeftOpen(g, g.w, g.w);
    hide DecodeRow, InRow, GoodTable, Geometry.Bpl, Times, BitReader.Rest, BitReader.Valid;
    while end < rowEnd
      invariant r.Valid() && r.bitBufSize >= 20 && |d| == g.sc && left <= g.w && (left > 0 <==> end < rowEnd)
      invariant end <= rowEnd && rowEnd == end + Times(left, g.dc) && Times(left, g.dc) <= g.Bpl()
      invariant InRow(g, dst[..end], left, prevScanline)
      invariant spec == DecodeRow(g, lit, r.Rest(), left, d, dst[..end])
      decreases left, |r.Rest()|
    {
      ghost var n := left;
      ok, end, d, left := RowStep(g, r, table, dst, end, rowEnd, prevScanline, d, lit, left);
      if !ok {
        return;
      }
      LeftOpen(g, n, left);
    }
    RowRead(g, lit, r.Rest(), d, dst[..end], prevScanline);
    ok := true;
  }

  lemma RowRead(g: Geometry, lit: seq<nat>, bits: seq<bool>, d: Pixel, out: seq<byte>, prevScanline: bool)
    requires g.Valid() && |d| == g.sc && InRow(g, out, 0, prevScanline)
    ensures DecodeRow(g, lit, bits, 0, d, out) == Some(Read(out, bits)) && Opaque(g, out)
  {
  }

  // ---- The image.

  /** The filter byte in front of row y, or the end of block after the last row. */
  lemma RowsNext(g: Geometry, lit: seq<nat>, bits: seq<bool>, y: nat, h: nat, out: seq<byte>, e: Entry)
    requires g.Valid() && y <= h && MeansFirst(lit, e, bits)
    ensures e.len == 0 ==> DecodeRows(g, lit, bits, y, h, out).None?
    ensures e.len > 0 && |bits[e.len..]| < 64 ==> Hopeless(DecodeRows(g, lit, bits, y, h, out))
    ensures e.len > 0 && y == h ==> DecodeRows(g, lit, bits, y, h, out) == if e.sym == 256 then Some(Read(out, bits[e.len..])) else None
    ensures e.len > 0 && y < h && e.sym != (if y > 0 then 2 else 0) ==> DecodeRows(g, lit, bits, y, h, out).None?
    ensures e.len > 0 && y < h && e.sym == (if y > 0 then 2 else 0) ==>
      var row := DecodeRow(g, lit, bits[e.len..], g.w, NoDelta(g.sc), out);
      DecodeRows(g, lit, bits, y, h, out) == if row.None? then None else DecodeRows(g, lit, row.value.rest, y + 1, h, row.value.value)
  {
    hide DecodeRow;
  }

  lemma RowsHopeless(g: Geometry, lit: seq<nat>, bits: seq<bool>, y: nat, h: nat, out: seq<byte>, e: Entry)
    requires g.Valid() && y < h && MeansFirst(lit, e, bits) && e.len > 0
    requires Hopeless(DecodeRow(g, lit, bits[e.len..], g.w, NoDelta(g.sc), out))
    ensures Hopeless(DecodeRows(g, lit, bits, y, h, out))
  {
    RowsNext(g, lit, bits, y, h, out, e);
    hide DecodeRow;
  }

  /** One row with its filter byte. */
  method ReadFilteredRow(g: Geometry, r: BitReader, table: seq<Entry>, dst: array<byte>, o: nat, y: nat, ghost h: nat, ghost lit: seq<nat>)
    returns (ok: bool, end: nat)
    requires r.Valid() && r.bitBufSize >= 20 && GoodTable(lit, table) && |lit| <= 288
    requires g.Valid() && o + g.Bpl() <= dst.Length && y < h && InRow(g, dst[..o], g.w, y > 0)
    modifies r, dst
    ensures ok ==> r.Valid() && r.bitBufSize >= 20 && end == o + g.Bpl() && Opaque(g, dst[..end])
    ensures ok ==> DecodeRows(g, lit, old(r.Rest()), y, h, old(dst[..o])) == DecodeRows(g, lit, r.Rest(), y + 1, h, dst[..end])
    ensures !ok ==> Hopeless(DecodeRows(g, lit, old(r.Rest()), y, h, old(dst[..o])))
  {
    hide DecodeRows, DecodeRow, InRow, GoodTable, Geometry.Bpl, Opaque, BitReader.Rest, BitReader.Valid;
    ghost var bits, out := r.Rest(), dst[..o];
    end := o;
    var filter := Look(r, table, lit);
    RowsNext(g, lit, bits, y, h, out, filter);
    if filter.len == 0 {
      return false, end;
    }
    ok := r.Skip(filter.len);
    if !ok {
      return;
    }
    if filter.sym != (if y > 0 then 2 else 0) {
      return false, end;
    }
    ok, end := ReadRow(g, r, table, dst, o, y > 0, lit);
    if !ok {
      RowsHopeless(g, lit, bits, y, h, out, filter);
    }
  }
}
