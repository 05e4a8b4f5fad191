/** Reading the pixels of an uncompressed image (libs/fpng/fpng.cpp:2107-2207): a machine that takes
    one byte at a time, keeping its place in the scanline and in the pixel. */
module FpngRawRead {
  import opened Arith
  import opened Bits
  import opened Canonical
  import opened Wrappers
  import opened FpngEncode
  import opened FpngFilter
  import opened FpngRaw
  import opened FpngScreen
  import opened FpngTokens
  import opened StoredBlocks

  function RowLen(g: Geometry): nat {
    1 + Times(g.w, g.sc)
  }

  /** h rows, each a zero filter byte and w pixels. One more zero byte after the last row is let through. */
  function RawRows(g: Geometry, p: seq<byte>, h: nat): Option<seq<byte>>
    requires g.Valid()
    decreases h
  {
    if h == 0 then if p == [] || p == [0] then Some([]) else None
    else if |p| < RowLen(g) || p[0] != 0 then None
    else match RawRows(g, p[RowLen(g)..], h - 1)
      case None => None
      case Some(rest) => Some(Converted(g, p[1..RowLen(g)]) + rest)
  }

  /** raster_ofs, comp_ofs and what has been stored. */
  datatype RawState = RawState(raster: nat, comp: nat, out: seq<byte>)

  function Advance(g: Geometry, raster: nat): nat {
    if raster + 1 == RowLen(g) then 0 else raster + 1
  }

  /** One byte of a channel. */
  function RawChannel(g: Geometry, s: RawState, c: byte, dstLen: nat): Option<RawState> {
    var full := s.comp < g.dc && |s.out| == dstLen;
    var out := if s.comp < g.dc then s.out + [c] else s.out;
    if full then None
    else if s.comp + 1 != g.sc then Some(RawState(Advance(g, s.raster), s.comp + 1, out))
    else if g.dc <= g.sc then Some(RawState(Advance(g, s.raster), 0, out))
    else if |out| == dstLen then None
    else Some(RawState(Advance(g, s.raster), 0, out + [255]))
  }

  function RawByte(g: Geometry, s: RawState, c: byte, dstLen: nat): Option<RawState> {
    if s.raster == 0 then if c != 0 then None else Some(s.(raster := Advance(g, 0)))
    else RawChannel(g, s, c, dstLen)
  }

  function RawBytes(g: Geometry, s: RawState, p: seq<byte>, dstLen: nat): Option<RawState>
    decreases |p|
  {
    if p == [] then Some(s)
    else match RawByte(g, s, p[0], dstLen)
      case None => None
      case Some(t) => RawBytes(g, t, p[1..], dstLen)
  }

  /** The checks after the last byte. */
  function Finish(s: Option<RawState>, dstLen: nat): Option<seq<byte>> {
    if s.Some? && s.value.comp == 0 && |s.value.out| == dstLen then Some(s.value.out) else None
  }

  lemma {:induction false} RawBytesConcat(g: Geometry, s: RawState, a: seq<byte>, b: seq<byte>, dstLen: nat)
    ensures RawBytes(g, s, a + b, dstLen)
         == (match RawBytes(g, s, a, dstLen) case None => None case Some(t) => RawBytes(g, t, b, dstLen))
    decreases |a|
  {
    hide RawByte;
    if a == [] {
      assert a + b == b;
    } else {
      assert (a + b)[0] == a[0] && (a + b)[1..] == a[1..] + b;
      var t := RawByte(g, s, a[0], dstLen);
      if t.Some? {
        RawBytesConcat(g, t.value, a[1..], b, dstLen);
      }
    }
  }

  lemma RawBytesSnoc(g: Geometry, s: RawState, a: seq<byte>, c: byte, dstLen: nat)
    ensures RawBytes(g, s, a + [c], dstLen)
         == (match RawBytes(g, s, a, dstLen) case None => None case Some(t) => RawByte(g, t, c, dstLen))
  {
    RawBytesConcat(g, s, a, [c], dstLen);
    assert [c][1..] == [];
    hide RawByte;
  }

  // ---- The machine against the description of a whole image.

  /** x pixels of the row are read. */
  function AtPixel(g: Geometry, x: nat, out: seq<byte>): RawState {
    RawState(if x == g.w then 0 else 1 + Times(x, g.sc), 0, out)
  }

  lemma {:induction false} ThreeSteps(g: Geometry, s: RawState, q: seq<byte>, dstLen: nat)
    requires |q| >= 3
    ensures RawBytes(g, s, q, dstLen) ==
      match RawByte(g, s, q[0], dstLen)
        case None => None
        case Some(a) => match RawByte(g, a, q[1], dstLen)
          case None => None
          case Some(b) => match RawByte(g, b, q[2], dstLen)
            case None => None
            case Some(c) => RawBytes(g, c, q[3..], dstLen)
  {
    hide RawByte;
    assert q[1..][1..] == q[2..] && q[2..][1..] == q[3..] && q[1..][0] == q[1] && q[2..][0] == q[2];
    var a := RawByte(g, s, q[0], dstLen);
    if a.Some? {
      var b := RawByte(g, a.value, q[1], dstLen);
      assert RawBytes(g, a.value, q[1..], dstLen) == if b.None? then None else RawBytes(g, b.value, q[2..], dstLen);
      if b.Some? {
        var c := RawByte(g, b.value, q[2], dstLen);
        assert RawBytes(g, b.value, q[2..], dstLen) == if c.None? then None else RawBytes(g, c.value, q[3..], dstLen);
      }
    }
  }

  /** A whole pixel. */
  lemma OnePixel(g: Geometry, x: nat, out: seq<byte>, q: seq<byte>, dstLen: nat)
    requires g.Valid() && x < g.w && |q| >= g.sc && |out| + g.dc <= dstLen
    ensures RawBytes(g, AtPixel(g, x, out), q, dstLen)
         == RawBytes(g, AtPixel(g, x + 1, out + Convert(g, q[..g.sc])), q[g.sc..], dstLen)
  {
    ThreeSteps(g, AtPixel(g, x, out), q, dstLen);
    if g.sc == 4 {
      LastChannel(g, x, out, q, dstLen);
    } else {
      ThreeChannels(g, x, out, q, dstLen);
    }
  }

  lemma ThreeChannels(g: Geometry, x: nat, out: seq<byte>, q: seq<byte>, dstLen: nat)
    requires g.Valid() && g.sc == 3 && x < g.w && |q| >= 3 && |out| + g.dc <= dstLen
    ensures var s := AtPixel(g, x, out);
      && RawByte(g, s, q[0], dstLen) == Some(RawState(s.raster + 1, 1, out + [q[0]]))
      && RawByte(g, RawState(s.raster + 1, 1, out + [q[0]]), q[1], dstLen) == Some(RawState(s.raster + 2, 2, out + [q[0]] + [q[1]]))
      && RawByte(g, RawState(s.raster + 2, 2, out + [q[0]] + [q[1]]), q[2], dstLen)
      == Some(AtPixel(g, x + 1, out + Convert(g, q[..3])))
  {
    var p := q[..3];
    assert out + [q[0]] + [q[1]] + [q[2]] == out + p && p[..3] == p;
    assert out + p + [255] == out + (p + [255]);
    assert Advance(g, AtPixel(g, x, out).raster + 2) == AtPixel(g, x + 1, []).raster;
  }

  lemma LastChannel(g: Geometry, x: nat, out: seq<byte>, q: seq<byte>, dstLen: nat)
    requires g.Valid() && g.sc == 4 && x < g.w && |q| >= 4 && |out| + g.dc <= dstLen
    ensures var s := AtPixel(g, x, out);
      && RawByte(g, s, q[0], dstLen) == Some(RawState(s.raster + 1, 1, out + [q[0]]))
      && RawByte(g, RawState(s.raster + 1, 1, out + [q[0]]), q[1], dstLen) == Some(RawState(s.raster + 2, 2, out + [q[0]] + [q[1]]))
      && RawByte(g, RawState(s.raster + 2, 2, out + [q[0]] + [q[1]]), q[2], dstLen)
      == Some(RawState(s.raster + 3, 3, out + [q[0]] + [q[1]] + [q[2]]))
      && RawBytes(g, RawState(s.raster + 3, 3, out + [q[0]] + [q[1]] + [q[2]]), q[3..], dstLen)
      == RawBytes(g, AtPixel(g, x + 1, out + Convert(g, q[..4])), q[4..], dstLen)
  {
    var p := q[..3];
    assert out + [q[0]] + [q[1]] + [q[2]] == out + p && q[..4][..3] == p;
    assert out + p + [q[3]] == out + q[..4];
    assert q[3..][0] == q[3] && q[3..][1..] == q[4..];
  }

  /** Input that ends inside a pixel is refused, and so is an image that is not full. */
  lemma PartPixel(g: Geometry, x: nat, out: seq<byte>, q: seq<byte>, dstLen: nat)
    requires g.Valid() && x < g.w && |q| < g.sc && |out| + g.dc <= dstLen
    ensures Finish(RawBytes(g, AtPixel(g, x, out), q, dstLen), dstLen).None?
  {
    var s := AtPixel(g, x, out);
    if q != [] {
      var t := RawState(s.raster + 1, 1, out + [q[0]]);
      assert RawByte(g, s, q[0], dstLen) == Some(t);
      var q1 := q[1..];
      if q1 != [] {
        var u := RawState(s.raster + 2, 2, out + [q[0]] + [q1[0]]);
        assert RawByte(g, t, q1[0], dstLen) == Some(u);
        assert RawBytes(g, s, q, dstLen) == RawBytes(g, t, q1, dstLen) == RawBytes(g, u, q1[1..], dstLen);
        var q2 := q1[1..];
        if q2 != [] {
          var v := RawState(s.raster + 3, 3, u.out + if g.dc >= 3 then [q2[0]] else []);
          assert RawByte(g, u, q2[0], dstLen) == Some(v);
          assert RawBytes(g, v, q2[1..], dstLen) == Some(v);
        }
      }
    }
  }

  /** The rest of a row: n pixels. */
  lemma {:induction false} RestOfRow(g: Geometry, n: nat, out: seq<byte>, q: seq<byte>, dstLen: nat)
    requires g.Valid() && n <= g.w && |out| + Times(n, g.dc) <= dstLen
    ensures |q| >= Times(n, g.sc) ==>
      RawBytes(g, AtPixel(g, g.w - n, out), q, dstLen)
        == RawBytes(g, AtPixel(g, g.w, out + Converted(g, q[..Times(n, g.sc)])), q[Times(n, g.sc)..], dstLen)
    ensures |q| < Times(n, g.sc) ==> Finish(RawBytes(g, AtPixel(g, g.w - n, out), q, dstLen), dstLen).None?
    decreases n
  {
    hide RawBytes, Finish, AtPixel, Convert, Converted;
    if n == 0 {
      NoneConverted(g);
      assert q[..0] == [] && q[0..] == q && out + [] == out;
    } else if |q| < g.sc {
      PartPixel(g, g.w - n, out, q, dstLen);
    } else {
      OnePixel(g, g.w - n, out, q, dstLen);
      var px := Convert(g, q[..g.sc]);
      RestOfRow(g, n - 1, out + px, q[g.sc..], dstLen);
      var k := Times(n - 1, g.sc);
      TimesStep(n, g.sc);
      if |q| >= g.sc + k {
        hide Times;
        ConvertedNext(g, q, k);
        Assoc(out, px, Converted(g, q[g.sc..][..k]));
      }
    }
  }

  lemma NoneConverted(g: Geometry)
    requires g.Valid()
    ensures Converted(g, []) == []
  {
  }

  lemma TimesStep(n: nat, c: nat)
    requires n > 0 && (c == 3 || c == 4)
    ensures Times(n, c) == c + Times(n - 1, c)
  {
  }

  lemma ConvertedNext(g: Geometry, q: seq<byte>, k: nat)
    requires g.Valid() && |q| >= g.sc + k
    ensures Converted(g, q[..g.sc + k]) == Convert(g, q[..g.sc]) + Converted(g, q[g.sc..][..k])
    ensures q[g.sc..][k..] == q[g.sc + k..]
  {
    var p := q[..g.sc + k];
    assert p[..g.sc] == q[..g.sc] && p[g.sc..] == q[g.sc..][..k];
  }

  /** Nothing more fits: only a filter byte can still follow. */
  lemma Full(g: Geometry, out: seq<byte>, p: seq<byte>, dstLen: nat)
    requires g.Valid() && |out| == dstLen
    ensures Finish(RawBytes(g, RawState(0, 0, out), p, dstLen), dstLen)
         == if p == [] || p == [0] then Some(out) else None
  {
    if p != [] && p[0] == 0 {
      var t := RawState(1, 0, out);
      assert RawByte(g, RawState(0, 0, out), p[0], dstLen) == Some(t);
      if |p| > 1 {
        assert p[1..][0] == p[1];
        assert RawByte(g, t, p[1], dstLen).None?;
      } else {
        assert p == [0] && p[1..] == [];
      }
    }
  }

  /** The machine takes exactly the described images. */
  lemma {:induction false} MachineReadsRows(g: Geometry, p: seq<byte>, h: nat, out: seq<byte>, dstLen: nat)
    requires g.Valid() && |out| + Span(h, g.Bpl()) == dstLen
    ensures Finish(RawBytes(g, RawState(0, 0, out), p, dstLen), dstLen)
         == (match RawRows(g, p, h) case None => None case Some(r) => Some(out + r))
    decreases h
  {
    hide Span, Geometry.Bpl, RawBytes, Finish, Converted, RawRows, RowLen, Times;
    if h == 0 {
      NoRows(g, p, out, dstLen);
    } else {
      SpanOne(h, g.Bpl());
      RowsFront(g, p, h);
      SomeWidth(g);
      if TakesRow(g, p) {
        RowTaken(g, p, out, dstLen);
        var row, more := Converted(g, p[1..RowLen(g)]), p[RowLen(g)..];
        MachineReadsRows(g, more, h - 1, out + row, dstLen);
        var rest := RawRows(g, more, h - 1);
        if rest.Some? {
          Assoc(out, row, rest.value);
        }
      } else {
        RowRefused(g, p, out, dstLen);
      }
    }
  }

  /** A whole row is there. */
  predicate TakesRow(g: Geometry, p: seq<byte>)
    ensures TakesRow(g, p) ==> 1 <= RowLen(g) <= |p|
  {
    |p| >= RowLen(g) && p[0] == 0
  }

  lemma SomeWidth(g: Geometry)
    requires g.Valid()
    ensures g.Bpl() > 0
  {
  }

  lemma NoRows(g: Geometry, p: seq<byte>, out: seq<byte>, dstLen: nat)
    requires g.Valid() && |out| + Span(0, g.Bpl()) == dstLen
    ensures Finish(RawBytes(g, RawState(0, 0, out), p, dstLen), dstLen)
         == (match RawRows(g, p, 0) case None => None case Some(r) => Some(out + r))
  {
    hide RawBytes, Finish;
    assert Span(0, g.Bpl()) == 0 && out + [] == out;
    Full(g, out, p, dstLen);
  }

  lemma RowsFront(g: Geometry, p: seq<byte>, h: nat)
    requires g.Valid() && h > 0
    ensures RawRows(g, p, h) ==
      if !TakesRow(g, p) then None
      else match RawRows(g, p[RowLen(g)..], h - 1)
        case None => None
        case Some(r) => Some(Converted(g, p[1..RowLen(g)]) + r)
  {
    hide Converted;
  }

  lemma RowTaken(g: Geometry, p: seq<byte>, out: seq<byte>, dstLen: nat)
    requires g.Valid() && TakesRow(g, p) && |out| + g.Bpl() <= dstLen
    ensures |Converted(g, p[1..RowLen(g)])| == g.Bpl()
    ensures RawBytes(g, RawState(0, 0, out), p, dstLen)
      == RawBytes(g, RawState(0, 0, out + Converted(g, p[1..RowLen(g)])), p[RowLen(g)..], dstLen)
  {
    hide RawBytes, Converted;
    FirstByte(g, p, out, dstLen);
    RestOfRow(g, g.w, out, p[1..], dstLen);
    RowSlices(p, Times(g.w, g.sc));
    WholeRow(g, p[1..RowLen(g)]);
  }

  lemma RowRefused(g: Geometry, p: seq<byte>, out: seq<byte>, dstLen: nat)
    requires g.Valid() && !TakesRow(g, p) && |out| + g.Bpl() <= dstLen && g.Bpl() > 0
    ensures Finish(RawBytes(g, RawState(0, 0, out), p, dstLen), dstLen).None?
  {
    if p == [] || p[0] != 0 {
      NoRow(g, p, out, dstLen);
    } else {
      hide RawBytes, Finish, Converted;
      FirstByte(g, p, out, dstLen);
      RestOfRow(g, g.w, out, p[1..], dstLen);
    }
  }

  lemma SpanOne(h: nat, b: nat)
    requires h > 0
    ensures Span(h, b) == b + Span(h - 1, b)
  {
  }

  lemma NoRow(g: Geometry, p: seq<byte>, out: seq<byte>, dstLen: nat)
    requires g.Valid() && |out| < dstLen && (p == [] || p[0] != 0)
    ensures Finish(RawBytes(g, RawState(0, 0, out), p, dstLen), dstLen).None?
  {
  }

  lemma FirstByte(g: Geometry, p: seq<byte>, out: seq<byte>, dstLen: nat)
    requires g.Valid() && p != [] && p[0] == 0
    ensures RawBytes(g, RawState(0, 0, out), p, dstLen) == RawBytes(g, AtPixel(g, 0, out), p[1..], dstLen)
  {
  }

  lemma RowSlices(p: seq<byte>, n: nat)
    requires |p| >= 1 + n
    ensures p[1..][..n] == p[1..1 + n] && p[1..][n..] == p[1 + n..]
  {
  }

  lemma WholeRow(g: Geometry, row: seq<byte>)
    requires g.Valid() && |row| == Times(g.w, g.sc)
    ensures |Converted(g, row)| == g.Bpl()
  {
    ConvertedConcat(g, row, [], g.w);
  }

  // ---- The reader.

  /** The stored blocks from offset 2 on hold the rows of an image, and four bytes of checksum follow. */
  function DecodeRaw(g: Geometry, src: seq<byte>, zlibLen: nat, h: nat): Option<seq<byte>>
    requires g.Valid() && |src| >= 2
  {
    match ReadStoredBlocks(src[2..])
    case None => None
    case Some(r) => if |src| - |r.rest| + 4 == zlibLen then RawRows(g, r.data, h) else None
  }

  /** What is left to read decides, after the data read so far. */
  function Then(soFar: seq<byte>, r: Option<Stored>): Option<Stored> {
    match r
    case None => None
    case Some(x) => Some(Stored(soFar + x.data, x.rest))
  }

  lemma BlockRead(src: seq<byte>, o: nat, len: nat, soFar: seq<byte>)
    requires o + 5 + len <= |src| && (src[o] / 2) % 4 == 0
    requires len == Le16(src[o + 1], src[o + 2]) && len + Le16(src[o + 3], src[o + 4]) == 0xFFFF
    ensures Then(soFar, ReadStoredBlocks(src[o..])) == if src[o] % 2 == 1
      then Some(Stored(soFar + src[o + 5..o + 5 + len], src[o + 5 + len..]))
      else Then(soFar + src[o + 5..o + 5 + len], ReadStoredBlocks(src[o + 5 + len..]))
  {
    var s := src[o..];
    assert s[5..5 + len] == src[o + 5..o + 5 + len] && s[5 + len..] == src[o + 5 + len..];
    assert s[0] == src[o] && s[1] == src[o + 1] && s[2] == src[o + 2] && s[3] == src[o + 3] && s[4] == src[o + 4];
    var r := ReadStoredBlocks(src[o + 5 + len..]);
    if src[o] % 2 == 0 && r.Some? {
      Assoc(soFar, src[o + 5..o + 5 + len], r.value.data);
    }
  }

  lemma BlockRefused(src: seq<byte>, o: nat)
    requires o <= |src|
    requires |src| < o + 5 || (src[o] / 2) % 4 != 0 || Le16(src[o + 1], src[o + 2]) + Le16(src[o + 3], src[o + 4]) != 0xFFFF
          || |src| < o + 5 + Le16(src[o + 1], src[o + 2])
    ensures ReadStoredBlocks(src[o..]).None?
  {
    var s := src[o..];
    assert |s| >= 5 ==> s[0] == src[o] && s[1] == src[o + 1] && s[2] == src[o + 2] && s[3] == src[o + 3] && s[4] == src[o + 4];
  }

  /** One round of the loop over a block's bytes. */
  method TakeByte(g: Geometry, c: byte, dst: array<byte>, raster0: nat, comp0: nat, o: nat) returns (ok: bool, raster: nat, comp: nat, end: nat)
    requires g.Valid() && o <= dst.Length
    modifies dst
    ensures ok ==> end <= dst.Length
    ensures RawByte(g, RawState(raster0, comp0, old(dst[..o])), c, dst.Length)
         == if ok then Some(RawState(raster, comp, dst[..end])) else None
  {
    raster, comp, end := raster0, comp0, o;
    if raster0 == 0 {
      if c != 0 {
        return false, raster, comp, end;
      }
    } else {
      if comp < g.dc {
        if end == dst.Length {
          return false, raster, comp, end;
        }
        dst[end] := c;
        end := end + 1;
        assert dst[..end] == old(dst[..o]) + [c];
      }
      comp := comp + 1;
      if comp == g.sc {
        if g.dc > g.sc {
          if end == dst.Length {
            return false, raster, comp, end;
          }
          ghost var before := dst[..end];
          dst[end] := 255;
          end := end + 1;
          assert dst[..end] == before + [255];
        }
        comp := 0;
      }
    }
    raster := raster + 1;
    if raster == g.w * g.sc + 1 {
      raster := 0;
    }
    return true, raster, comp, end;
  }

  method TakeBytes(g: Geometry, src: seq<byte>, from: nat, len: nat, dst: array<byte>, raster0: nat, comp0: nat, o: nat)
    returns (ok: bool, raster: nat, comp: nat, end: nat)
    requires g.Valid() && o <= dst.Length && from + len <= |src|
    modifies dst
    ensures ok ==> end <= dst.Length
    ensures RawBytes(g, RawState(raster0, comp0, old(dst[..o])), src[from..from + len], dst.Length)
         == if ok then Some(RawState(raster, comp, dst[..end])) else None
  {
    ok, raster, comp, end := true, raster0, comp0, o;
    ghost var s := RawState(raster0, comp0, dst[..o]);
    var i: nat := 0;
    assert src[from..from] == [];
    hide RawByte;
    while i < len
      invariant i <= len && end <= dst.Length
      invariant RawBytes(g, s, src[from..from + i], dst.Length) == Some(RawState(raster, comp, dst[..end]))
    {
      ok, raster, comp, end := TakeByte(g, src[from + i], dst, raster, comp, end);
      RawBytesSnoc(g, s, src[from..from + i], src[from + i], dst.Length);
      assert src[from..from + i] + [src[from + i]] == src[from..from + i + 1];
      if !ok {
        RawBytesConcat(g, s, src[from..from + i + 1], src[from + i + 1..from + len], dst.Length);
        assert src[from..from + i + 1] + src[from + i + 1..from + len] == src[from..from + len];
        return;
      }
      i := i + 1;
    }
  }

  /** All blocks' bytes through the machine, and the data they hold. */
  ghost predicate Reading(g: Geometry, src: seq<byte>, o: nat, soFar: seq<byte>, s: RawState, dstLen: nat)
    requires 2 <= o <= |src|
  {
    && Then(soFar, ReadStoredBlocks(src[o..])) == ReadStoredBlocks(src[2..])
    && RawBytes(g, RawState(0, 0, []), soFar, dstLen) == Some(s)
  }

  lemma MachineStart(g: Geometry, p: seq<byte>, h: nat, dstLen: nat)
    requires g.Valid() && dstLen == Span(h, g.Bpl())
    ensures Finish(RawBytes(g, RawState(0, 0, []), p, dstLen), dstLen) == RawRows(g, p, h)
  {
    MachineReadsRows(g, p, h, [], dstLen);
    var r := RawRows(g, p, h);
    assert r.Some? ==> [] + r.value == r.value;
  }

  /** A block the machine refuses: whatever follows, the stream is refused. */
  lemma BlockBad(g: Geometry, src: seq<byte>, zlibLen: nat, h: nat, o: nat, len: nat, soFar: seq<byte>, s: RawState, dstLen: nat)
    requires g.Valid() && 2 <= o && o + 5 + len <= |src| && (src[o] / 2) % 4 == 0 && dstLen == Span(h, g.Bpl())
    requires len == Le16(src[o + 1], src[o + 2]) && len + Le16(src[o + 3], src[o + 4]) == 0xFFFF
    requires Reading(g, src, o, soFar, s, dstLen)
    requires RawBytes(g, s, src[o + 5..o + 5 + len], dstLen).None?
    ensures DecodeRaw(g, src, zlibLen, h).None?
  {
    var block := src[o + 5..o + 5 + len];
    BlockRead(src, o, len, soFar);
    RawBytesConcat(g, RawState(0, 0, []), soFar, block, dstLen);
    var all := ReadStoredBlocks(src[2..]);
    hide ReadStoredBlocks, RawBytes, RawRows;
    if all.Some? {
      var more := all.value.data[|soFar + block|..];
      assert all.value.data == (soFar + block) + more;
      RawBytesConcat(g, RawState(0, 0, []), soFar + block, more, dstLen);
      MachineStart(g, all.value.data, h, dstLen);
    }
  }

  lemma BlockGood(g: Geometry, src: seq<byte>, o: nat, len: nat, soFar: seq<byte>, s: RawState, t: RawState, dstLen: nat)
    requires g.Valid() && 2 <= o && o + 5 + len <= |src| && (src[o] / 2) % 4 == 0
    requires len == Le16(src[o + 1], src[o + 2]) && len + Le16(src[o + 3], src[o + 4]) == 0xFFFF
    requires Reading(g, src, o, soFar, s, dstLen)
    requires RawBytes(g, s, src[o + 5..o + 5 + len], dstLen) == Some(t)
    ensures var d := soFar + src[o + 5..o + 5 + len];
      && RawBytes(g, RawState(0, 0, []), d, dstLen) == Some(t)
      && (src[o] % 2 == 0 ==> Reading(g, src, o + 5 + len, d, t, dstLen))
      && (src[o] % 2 == 1 ==> ReadStoredBlocks(src[2..]) == Some(Stored(d, src[o + 5 + len..])))
  {
    BlockRead(src, o, len, soFar);
    RawBytesConcat(g, RawState(0, 0, []), soFar, src[o + 5..o + 5 + len], dstLen);
    hide ReadStoredBlocks, RawBytes;
  }

  lemma ReadingRefused(g: Geometry, src: seq<byte>, zlibLen: nat, h: nat, o: nat, soFar: seq<byte>, s: RawState, dstLen: nat)
    requires g.Valid() && 2 <= o <= |src| && Reading(g, src, o, soFar, s, dstLen) && ReadStoredBlocks(src[o..]).None?
    ensures DecodeRaw(g, src, zlibLen, h).None?
  {
  }

  method PixelZlibRawDecompress(g: Geometry, src: seq<byte>, zlibLen: nat, dst: array<byte>, h: nat) returns (ok: bool)
    requires g.Valid() && |src| >= 2 && dst.Length == Span(h, g.Bpl())
    modifies dst
    ensures ok <==> DecodeRaw(g, src, zlibLen, h).Some?
    ensures ok ==> dst[..] == DecodeRaw(g, src, zlibLen, h).value
  {
    hide ReadStoredBlocks, RawBytes, Reading, RawRows, Span, DecodeRaw, Geometry.Bpl, Then, Finish;
    var o: nat, end: nat, raster: nat, comp: nat := 2, 0, 0, 0;
    ghost var soFar: seq<byte> := [];
    assert dst[..0] == [];
    StartReading(g, src, dst.Length);
    var final := false;
    while !final
      invariant 2 <= o <= |src| && end <= dst.Length
      invariant !final ==> Reading(g, src, o, soFar, RawState(raster, comp, dst[..end]), dst.Length)
      invariant final ==> RawBytes(g, RawState(0, 0, []), soFar, dst.Length) == Some(RawState(raster, comp, dst[..end]))
      invariant final ==> ReadStoredBlocks(src[2..]) == Some(Stored(soFar, src[o..]))
      decreases !final, |src| - o
    {
      ghost var s := RawState(raster, comp, dst[..end]);
      var len := BlockLength(src, o);
      if len < 0 {
        ReadingRefused(g, src, zlibLen, h, o, soFar, s, dst.Length);
        return false;
      }
      ok, raster, comp, end := TakeBytes(g, src, o + 5, len, dst, raster, comp, end);
      if !ok {
        BlockBad(g, src, zlibLen, h, o, len, soFar, s, dst.Length);
        return false;
      }
      BlockGood(g, src, o, len, soFar, s, RawState(raster, comp, dst[..end]), dst.Length);
      soFar := soFar + src[o + 5..o + 5 + len];
      final := src[o] % 2 == 1;
      o := o + 5 + len;
    }
    AllRead(g, src, zlibLen, h, o, soFar, RawState(raster, comp, dst[..end]), dst.Length);
    if comp != 0 {
      return false;
    }
    if o + 4 != zlibLen {
      return false;
    }
    assert end == dst.Length ==> dst[..end] == dst[..];
    return end == dst.Length;
  }

  /** What decides after the last block. */
  lemma AllRead(g: Geometry, src: seq<byte>, zlibLen: nat, h: nat, o: nat, soFar: seq<byte>, s: RawState, dstLen: nat)
    requires g.Valid() && 2 <= o <= |src| && dstLen == Span(h, g.Bpl())
    requires ReadStoredBlocks(src[2..]) == Some(Stored(soFar, src[o..]))
    requires RawBytes(g, RawState(0, 0, []), soFar, dstLen) == Some(s)
    ensures DecodeRaw(g, src, zlibLen, h) == if s.comp == 0 && o + 4 == zlibLen && |s.out| == dstLen then Some(s.out) else None
  {
    hide ReadStoredBlocks, RawBytes, RawRows, Span, Geometry.Bpl;
    MachineStart(g, soFar, h, dstLen);
  }

  lemma StartReading(g: Geometry, src: seq<byte>, dstLen: nat)
    requires |src| >= 2
    ensures Reading(g, src, 2, [], RawState(0, 0, []), dstLen)
  {
    var r := ReadStoredBlocks(src[2..]);
    assert r.Some? ==> [] + r.value.data == r.value.data;
  }

  /** The header of the block at o: its length, or a negative number if it is not a stored block that fits. */
  method BlockLength(src: seq<byte>, o: nat) returns (len: int)
    requires o <= |src|
    ensures len < 0 ==> ReadStoredBlocks(src[o..]).None?
    ensures len >= 0 ==> o + 5 + len <= |src| && (src[o] / 2) % 4 == 0
    ensures len >= 0 ==> len == Le16(src[o + 1], src[o + 2]) && len + Le16(src[o + 3], src[o + 4]) == 0xFFFF
  {
    hide ReadStoredBlocks;
    if o + 1 > |src| || (src[o] / 2) % 4 != 0 || o + 5 > |src| {
      BlockRefused(src, o);
      return -1;
    }
    len := Le16(src[o + 1], src[o + 2]);
    var nlen := Le16(src[o + 3], src[o + 4]);
    if len != 0xFFFF - nlen || o + 5 + len > |src| {
      BlockRefused(src, o);
      return -1;
    }
  }
}
