/** What fpng's decoders draw: pixels of sc channels, each the sum of a delta and the pixel above it,
    shown with dc channels (libs/fpng/fpng.cpp:2321-2399, 2446-2476, 2698-2765, 2828-2862). */
module FpngScreen {
  import opened Bits
  import opened Wrappers
  import opened FpngEncode
  import opened FpngFilter
  import opened FpngTokens

  /** Pixels in a row, channels in the stream, channels asked for. */
  datatype Geometry = Geometry(w: nat, sc: nat, dc: nat) {
    predicate Valid() {
      w >= 1 && (sc == 3 || sc == 4) && (dc == 3 || dc == 4)
    }

    function Bpl(): nat {
      Times(w, dc)
    }
  }

  /** The byte one row above the k-th byte to come; zero above the first row. */
  function Above(out: seq<byte>, bpl: nat, k: nat): byte {
    if bpl <= |out| && k < bpl then out[|out| - bpl + k] else 0
  }

  function Shown(g: Geometry, out: seq<byte>, d: Pixel): (px: seq<byte>)
    requires g.Valid() && |d| == g.sc
    ensures |px| == g.dc
  {
    var rgb := [AddByte(Above(out, g.Bpl(), 0), d[0]), AddByte(Above(out, g.Bpl(), 1), d[1]), AddByte(Above(out, g.Bpl(), 2), d[2])];
    if g.dc == 3 then rgb
    else if g.sc == 3 then rgb + [255]
    else rgb + [AddByte(Above(out, g.Bpl(), 3), d[3])]
  }

  function DrawPixel(g: Geometry, out: seq<byte>, d: Pixel): (r: seq<byte>)
    requires g.Valid() && |d| == g.sc
    ensures |r| == |out| + g.dc
  {
    out + Shown(g, out, d)
  }

  function DrawRun(g: Geometry, out: seq<byte>, d: Pixel, n: nat): (r: seq<byte>)
    requires g.Valid() && |d| == g.sc
    ensures |r| == |out| + Times(n, g.dc)
    decreases n
  {
    if n == 0 then out else DrawRun(g, DrawPixel(g, out, d), d, n - 1)
  }

  /** When alpha is added it is 255 everywhere. */
  ghost predicate Opaque(g: Geometry, out: seq<byte>) {
    g.sc == 3 && g.dc == 4 ==> |out| % 4 == 0 && forall i :: 0 <= i < |out| && i % 4 == 3 ==> out[i] == 255
  }

  lemma PixelOpaque(g: Geometry, out: seq<byte>, d: Pixel)
    requires g.Valid() && |d| == g.sc && Opaque(g, out)
    ensures Opaque(g, DrawPixel(g, out, d))
  {
    if g.sc == 3 && g.dc == 4 {
      var px := Shown(g, out, d);
      assert px[3] == 255;
      hide Shown;
      forall i | 0 <= i < |out + px| && i % 4 == 3
        ensures (out + px)[i] == 255
      {
        assert i < |out| || i == |out| + 3;
      }
    }
  }

  lemma {:induction false} RunOpaque(g: Geometry, out: seq<byte>, d: Pixel, n: nat)
    requires g.Valid() && |d| == g.sc && Opaque(g, out)
    ensures Opaque(g, DrawRun(g, out, d, n))
    decreases n
  {
    if n > 0 {
      PixelOpaque(g, out, d);
      RunOpaque(g, DrawPixel(g, out, d), d, n - 1);
    }
  }

  predicate Zero(d: Pixel) {
    forall i :: 0 <= i < |d| ==> d[i] == 0
  }

  /** A zero delta shows the pixel above. */
  lemma ShownZero(g: Geometry, out: seq<byte>, d: Pixel)
    requires g.Valid() && |d| == g.sc && Zero(d) && Opaque(g, out) && |out| >= g.Bpl()
    ensures Shown(g, out, d) == out[|out| - g.Bpl()..|out| - g.Bpl() + g.dc]
  {
    var o := |out| - g.Bpl();
    if g.dc == 4 && g.sc == 3 {
      assert (o + 3) % 4 == 3;
    }
  }

  /** A run of zero deltas copies from the row above, as long as it stays within one row. */
  lemma {:induction false} RunOfZero(g: Geometry, out: seq<byte>, d: Pixel, n: nat)
    requires g.Valid() && |d| == g.sc && Zero(d) && Opaque(g, out) && |out| >= g.Bpl() >= Times(n, g.dc)
    ensures DrawRun(g, out, d, n) == out + out[|out| - g.Bpl()..|out| - g.Bpl() + Times(n, g.dc)]
    decreases n
  {
    var o := |out| - g.Bpl();
    if n == 0 {
      assert out + out[o..o] == out;
    } else {
      ShownZero(g, out, d);
      PixelOpaque(g, out, d);
      hide Opaque, Shown, Zero;
      var out' := DrawPixel(g, out, d);
      RunOfZero(g, out', d, n - 1);
      Slices(out, out', o, g.dc, Times(n - 1, g.dc));
    }
  }

  lemma Slices(out: seq<byte>, out': seq<byte>, o: nat, c: nat, k: nat)
    requires o + c + k <= |out| && out' == out + out[o..o + c]
    ensures out' + out'[o + c..o + c + k] == out + out[o..o + c + k]
  {
    assert out'[o + c..o + c + k] == out[o + c..o + c + k];
    assert out[o..o + c] + out[o + c..o + c + k] == out[o..o + c + k];
  }

  // ---- Writing pixels where they belong.

  /** One pixel at o; the scanline above is there once a whole row has been written. */
  method PutPixel(g: Geometry, dst: array<byte>, o: nat, prevScanline: bool, d: Pixel)
    requires g.Valid() && |d| == g.sc && o + g.dc <= dst.Length
    requires prevScanline <==> o >= g.Bpl()
    modifies dst
    ensures dst[..o + g.dc] == DrawPixel(g, old(dst[..o]), d)
  {
    ghost var out := dst[..o];
    ghost var px := Shown(g, out, d);
    var prev := o - g.Bpl();
    if prevScanline {
      dst[o] := AddByte(dst[prev], d[0]);
      dst[o + 1] := AddByte(dst[prev + 1], d[1]);
      dst[o + 2] := AddByte(dst[prev + 2], d[2]);
    } else {
      dst[o] := d[0];
      dst[o + 1] := d[1];
      dst[o + 2] := d[2];
    }
    if g.dc == 4 {
      if g.sc == 3 {
        dst[o + 3] := 255;
      } else {
        dst[o + 3] := if prevScanline then AddByte(dst[prev + 3], d[3]) else d[3];
      }
    }
    assert dst[..o] == out;
    assert dst[o..o + g.dc] == px;
    assert dst[..o + g.dc] == dst[..o] + dst[o..o + g.dc];
  }

  /** n pixels at o, at least one: the loops that test at their end. */
  method PutRunPixels(g: Geometry, dst: array<byte>, o: nat, prevScanline: bool, d: Pixel, n: nat) returns (end: nat)
    requires g.Valid() && |d| == g.sc && n >= 1 && o + Times(n, g.dc) <= dst.Length
    requires prevScanline <==> o >= g.Bpl()
    requires !prevScanline ==> o + Times(n, g.dc) <= g.Bpl()
    modifies dst
    ensures end == o + Times(n, g.dc) && dst[..end] == DrawRun(g, old(dst[..o]), d, n)
  {
    hide DrawPixel, DrawRun, Times, Geometry.Bpl;
    ghost var out := dst[..o];
    ghost var i: nat := 1;
    RunOne(g, out, d);
    TimesStep(0, n, g.dc);
    PutPixel(g, dst, o, prevScanline, d);
    end := o + g.dc;
    while end < o + Times(n, g.dc)
      invariant 1 <= i <= n && end == o + Times(i, g.dc) <= o + Times(n, g.dc)
      invariant dst[..end] == DrawRun(g, out, d, i)
    {
      TimesStep(i, n, g.dc);
      RunSnoc(g, out, d, i);
      PutPixel(g, dst, end, prevScanline, d);
      end := end + g.dc;
      i := i + 1;
    }
    TimesStep(i, n, g.dc);
  }

  lemma RunOne(g: Geometry, out: seq<byte>, d: Pixel)
    requires g.Valid() && |d| == g.sc
    ensures DrawRun(g, out, d, 1) == DrawPixel(g, out, d)
  {
    assert DrawRun(g, DrawPixel(g, out, d), d, 0) == DrawPixel(g, out, d);
  }

  lemma {:induction false} RunSnoc(g: Geometry, out: seq<byte>, d: Pixel, n: nat)
    requires g.Valid() && |d| == g.sc
    ensures DrawRun(g, out, d, n + 1) == DrawPixel(g, DrawRun(g, out, d, n), d)
    decreases n
  {
    hide DrawPixel;
    if n > 0 {
      RunSnoc(g, DrawPixel(g, out, d), d, n - 1);
    }
  }

  lemma TimesStep(i: nat, n: nat, dc: nat)
    requires i <= n && (dc == 3 || dc == 4)
    ensures Times(0, dc) == 0 && Times(i + 1, dc) == Times(i, dc) + dc
    ensures i < n <==> Times(i, dc) < Times(n, dc)
    ensures i < n ==> Times(i, dc) + dc <= Times(n, dc)
  {
  }

  /** How many pixels a run of n draws: the copying branch takes n as it is, the loops draw at least one. */
  function RunPixels(g: Geometry, drawn: nat, d: Pixel, n: nat): nat {
    if n == 0 && !(drawn >= g.Bpl() && Zero(d)) then 1 else n
  }

  /** memcpy from the row above. */
  method CopyAbove(g: Geometry, dst: array<byte>, o: nat, n: nat)
    requires g.Valid() && n <= g.Bpl() <= o && o + n <= dst.Length
    modifies dst
    ensures dst[..o + n] == old(dst[..o]) + old(dst[o - g.Bpl()..o - g.Bpl() + n])
  {
    var from := o - g.Bpl();
    forall k | 0 <= k < n {
      dst[o + k] := dst[from + k];
    }
    assert dst[..o] == old(dst[..o]);
    assert dst[o..o + n] == old(dst[from..from + n]);
    assert dst[..o + n] == dst[..o] + dst[o..o + n];
  }

  lemma AboveSlice(g: Geometry, dst: seq<byte>, o: nat, n: nat)
    requires n <= g.Bpl() <= o <= |dst|
    ensures dst[..o][|dst[..o]| - g.Bpl()..|dst[..o]| - g.Bpl() + n] == dst[o - g.Bpl()..o - g.Bpl() + n]
  {
  }

  method PutRun(g: Geometry, dst: array<byte>, o: nat, prevScanline: bool, d: Pixel, n: nat) returns (end: nat)
    requires g.Valid() && |d| == g.sc && Times(n, g.dc) <= g.Bpl()
    requires prevScanline <==> o >= g.Bpl()
    requires o <= dst.Length && Opaque(g, dst[..o])
    requires o + Times(RunPixels(g, o, d, n), g.dc) <= dst.Length
    requires !prevScanline ==> o + Times(RunPixels(g, o, d, n), g.dc) <= g.Bpl()
    modifies dst
    ensures end == o + Times(RunPixels(g, o, d, n), g.dc)
    ensures dst[..end] == DrawRun(g, old(dst[..o]), d, RunPixels(g, o, d, n))
  {
    hide DrawRun, Opaque, Times, Geometry.Bpl;
    if prevScanline && Zero(d) {
      RunOfZero(g, dst[..o], d, n);
      AboveSlice(g, dst[..], o, Times(n, g.dc));
      assert dst[..][..o] == dst[..o];
      CopyAbove(g, dst, o, Times(n, g.dc));
      end := o + Times(n, g.dc);
    } else {
      end := PutRunPixels(g, dst, o, prevScanline, d, if n == 0 then 1 else n);
    }
  }

  // ---- Channel conversion.

  /** A pixel with the channels asked for: alpha is added as 255, or dropped. */
  function Convert(g: Geometry, px: Pixel): (r: Pixel)
    requires g.Valid() && |px| == g.sc
    ensures |r| == g.dc
  {
    if g.dc == 3 then px[..3] else if g.sc == 3 then px + [255] else px
  }

  /** Every pixel of an image converted. */
  function Converted(g: Geometry, image: seq<byte>): (r: seq<byte>)
    requires g.Valid()
    decreases |image|
  {
    if |image| < g.sc then [] else Convert(g, image[..g.sc]) + Converted(g, image[g.sc..])
  }

  lemma {:induction false} ConvertedConcat(g: Geometry, a: seq<byte>, b: seq<byte>, n: nat)
    requires g.Valid() && |a| == Times(n, g.sc)
    ensures Converted(g, a + b) == Converted(g, a) + Converted(g, b)
    ensures |Converted(g, a)| == Times(n, g.dc)
    decreases n
  {
    if n == 0 {
      assert a + b == b && Converted(g, a) == [];
    } else {
      ConvertedConcat(g, a[g.sc..], b, n - 1);
      assert (a + b)[..g.sc] == a[..g.sc] && (a + b)[g.sc..] == a[g.sc..] + b;
      Assoc(Convert(g, a[..g.sc]), Converted(g, a[g.sc..]), Converted(g, b));
    }
  }
}
