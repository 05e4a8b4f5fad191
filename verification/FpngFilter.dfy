/** Scanline filtering: what fpng writes in front of every row (libs/fpng/fpng.cpp:1592-1660,
    1685-1699), and the reconstruction of section 6.4 of RFC 2083. */
module FpngFilter {
  import opened Arith
  import opened Bits
  import opened Canonical
  import opened Wrappers

  function AddByte(x: int, y: int): byte {
    (x + y) % 256
  }

  function SubByte(x: int, y: int): byte {
    (x - y) % 256
  }

  lemma AddSubByte(x: byte, y: byte)
    ensures AddByte(SubByte(x, y), y) == x
  {
  }

  /** Reconstruction with the Up filter: byte sums modulo 256. */
  function AddRows(a: seq<byte>, b: seq<byte>): (r: seq<byte>)
    requires |a| == |b|
    ensures |r| == |a|
  {
    seq(|a|, i requires 0 <= i < |a| => AddByte(a[i], b[i]))
  }

  function SubRows(a: seq<byte>, b: seq<byte>): (r: seq<byte>)
    requires |a| == |b|
    ensures |r| == |a|
  {
    seq(|a|, i requires 0 <= i < |a| => SubByte(a[i], b[i]))
  }

  lemma AddSub(a: seq<byte>, b: seq<byte>)
    requires |a| == |b|
    ensures AddRows(SubRows(a, b), b) == a
  {
    forall i | 0 <= i < |a|
      ensures AddRows(SubRows(a, b), b)[i] == a[i]
    {
      AddSubByte(a[i], b[i]);
    }
  }

  function ZeroRow(n: nat): (r: seq<byte>)
    ensures |r| == n
  {
    seq(n, _ => 0)
  }

  /** The image that filtered scanlines of bpl bytes stand for; prev is the row above. Only the
      filter types None and Up are known here. */
  function Reconstruct(f: seq<byte>, bpl: nat, prev: seq<byte>): (r: Option<seq<byte>>)
    requires |prev| == bpl
    decreases |f|
  {
    if f == [] then Some([])
    else if |f| < 1 + bpl then None
    else
      var row := f[1..1 + bpl];
      if f[0] != 0 && f[0] != 2 then None
      else
        var cur := if f[0] == 0 then row else AddRows(row, prev);
        match Reconstruct(f[1 + bpl..], bpl, cur)
        case None => None
        case Some(rest) => Some(cur + rest)
  }

  /** Filter type None or Up on one row. */
  function FilteredRow(up: bool, row: seq<byte>, prev: seq<byte>): (r: seq<byte>)
    requires |row| == |prev|
    ensures |r| == 1 + |row|
  {
    if up then [2] + SubRows(row, prev) else [0] + row
  }

  /** All rows from the image, each filtered against the row above; the first row never is. */
  function Filtered(image: seq<byte>, bpl: nat, up: bool, first: bool, prev: seq<byte>): (r: seq<byte>)
    requires bpl > 0 && |prev| == bpl
    decreases |image|
  {
    if |image| < bpl then []
    else FilteredRow(up && !first, image[..bpl], prev) + Filtered(image[bpl..], bpl, up, false, image[..bpl])
  }

  /** One filtered row in front. */
  lemma ReconstructNext(row: seq<byte>, up: bool, prev: seq<byte>, tail: seq<byte>, rest: seq<byte>)
    requires |row| == |prev| > 0 && Reconstruct(tail, |row|, row) == Some(rest)
    ensures Reconstruct(FilteredRow(up, row, prev) + tail, |row|, prev) == Some(row + rest)
  {
    hide AddRows, SubRows;
    var head := FilteredRow(up, row, prev);
    var f := head + tail;
    assert f[1 + |row|..] == tail && f[1..1 + |row|] == head[1..];
    AddSub(row, prev);
  }

  /** Filtering is undone by any PNG reader. */
  lemma {:induction false} FilterRoundTrip(image: seq<byte>, bpl: nat, h: nat, up: bool, first: bool, prev: seq<byte>)
    requires bpl > 0 && |prev| == bpl && |image| == h * bpl
    ensures Reconstruct(Filtered(image, bpl, up, first, prev), bpl, prev) == Some(image)
    ensures |Filtered(image, bpl, up, first, prev)| == h * (1 + bpl)
    decreases h
  {
    if h == 0 {
      assert 0 * bpl == 0;
      assert Filtered(image, bpl, up, first, prev) == [];
    } else {
      RowCount(h, bpl);
      FilterRoundTrip(image[bpl..], bpl, h - 1, up, false, image[..bpl]);
      FilterNext(image, bpl, up, first, prev);
      hide Filtered, FilteredRow, Reconstruct;
      var tail := Filtered(image[bpl..], bpl, up, false, image[..bpl]);
      ReconstructNext(image[..bpl], up && !first, prev, tail, image[bpl..]);
      assert image[..bpl] + image[bpl..] == image;
    }
  }

  lemma RowCount(h: nat, bpl: nat)
    requires h >= 1
    ensures h * bpl == bpl + (h - 1) * bpl && h * (1 + bpl) == 1 + bpl + (h - 1) * (1 + bpl)
    ensures h * bpl >= bpl
  {
    assert (h - 1) * bpl >= 0;
  }

  /** apply_filter: one scanline into the buffer at ofs. */
  method ApplyFilter(filter: nat, src: seq<byte>, prev: seq<byte>, dst: array<byte>, ofs: nat)
    requires filter == 0 || filter == 2
    requires |src| == |prev| && ofs + 1 + |src| <= dst.Length
    modifies dst
    ensures dst[..ofs] == old(dst[..ofs])
    ensures dst[ofs..ofs + 1 + |src|] == FilteredRow(filter == 2, src, prev)
  {
    dst[ofs] := filter;
    var i := 0;
    while i < |src|
      invariant 0 <= i <= |src| && dst[..ofs] == old(dst[..ofs]) && dst[ofs] == filter
      invariant forall k :: 0 <= k < i ==> dst[ofs + 1 + k] == if filter == 2 then SubByte(src[k], prev[k]) else src[k]
    {
      dst[ofs + 1 + i] := if filter == 2 then SubByte(src[i], prev[i]) else src[i];
      i := i + 1;
    }
    assert dst[ofs..ofs + 1 + |src|] == FilteredRow(filter == 2, src, prev);
  }

  /** Bytes taken by n rows. */
  function Span(n: nat, row: nat): nat {
    n * row
  }

  /** A filtered row at o, of the image's row at i: its filter type, and its bytes less those above it if that
      is Up. */
  ghost predicate RowAt(f: seq<byte>, image: seq<byte>, bpl: nat, o: nat, i: nat, up: bool, above: seq<byte>) {
    && o + 1 + bpl <= |f| && i + bpl <= |image| && |above| == bpl
    && f[o] == (if up then 2 else 0)
    && f[o + 1..o + 1 + bpl] == if up then SubRows(image[i..i + bpl], above) else image[i..i + bpl]
  }

  ghost predicate RowIs(f: seq<byte>, image: seq<byte>, bpl: nat, y: nat, up: bool, above: seq<byte>) {
    RowAt(f, image, bpl, Span(y, 1 + bpl), Span(y, bpl), up, above)
  }

  /** The row above in the image. */
  function RowAbove(image: seq<byte>, bpl: nat, y: nat): seq<byte> {
    if 0 < y && Span(y - 1, bpl) + bpl <= |image| then image[Span(y - 1, bpl)..Span(y - 1, bpl) + bpl] else []
  }

  lemma {:induction false} FilteredRowIs(image: seq<byte>, bpl: nat, h: nat, up: bool, first: bool, prev: seq<byte>, y: nat)
    requires bpl > 0 && |prev| == bpl && |image| == Span(h, bpl) && y < h
    ensures var f := Filtered(image, bpl, up, first, prev);
      if y == 0 then RowIs(f, image, bpl, y, up && !first, prev) else RowIs(f, image, bpl, y, up, RowAbove(image, bpl, y))
    decreases h
  {
    RowsLeft(0, h, bpl);
    NoSpan(bpl);
    hide Filtered, RowIs, RowAbove, Span;
    FilterNext(image, bpl, up, first, prev);
    var head, tail := FilteredRow(up && !first, image[..bpl], prev), Filtered(image[bpl..], bpl, up, false, image[..bpl]);
    if y == 0 {
      FirstRowIs(image, bpl, up && !first, prev, tail);
    } else {
      OneRowLess(h, bpl);
      FilteredRowIs(image[bpl..], bpl, h - 1, up, false, image[..bpl], y - 1);
      RowsLeft(y - 1, h - 1, bpl);
      var above := if y == 1 then image[..bpl] else RowAbove(image[bpl..], bpl, y - 1);
      AboveNext(image, bpl, h, y);
      LaterRowIs(head, tail, image, bpl, y, up, above);
    }
  }

  lemma OneRowLess(h: nat, bpl: nat)
    requires h >= 1
    ensures Span(h - 1, bpl) == Span(h, bpl) - bpl
  {
  }

  lemma AboveNext(image: seq<byte>, bpl: nat, h: nat, y: nat)
    requires bpl > 0 && |image| == Span(h, bpl) && 0 < y < h && bpl <= |image|
    ensures RowAbove(image, bpl, y) == if y == 1 then image[..bpl] else RowAbove(image[bpl..], bpl, y - 1)
  {
    NoSpan(bpl);
    RowsLeft(y - 1, h, bpl);
    hide Span;
    if y > 1 {
      NextSpan(y - 2, bpl);
    }
  }

  lemma NextSpan(y: nat, bpl: nat)
    ensures Span(y + 1, bpl) == Span(y, bpl) + bpl
  {
  }

  lemma FirstRowIs(image: seq<byte>, bpl: nat, up: bool, prev: seq<byte>, tail: seq<byte>)
    requires bpl > 0 && |prev| == bpl && |image| >= bpl
    ensures RowIs(FilteredRow(up, image[..bpl], prev) + tail, image, bpl, 0, up, prev)
  {
    NoSpan(bpl);
    hide Span;
  }

  lemma LaterRowIs(head: seq<byte>, tail: seq<byte>, image: seq<byte>, bpl: nat, y: nat, up: bool, above: seq<byte>)
    requires |head| == 1 + bpl && bpl <= |image| && y > 0 && RowIs(tail, image[bpl..], bpl, y - 1, up, above)
    ensures RowIs(head + tail, image, bpl, y, up, above)
  {
    hide Span, RowAt;
    var z := y - 1;
    NextSpan(z, bpl);
    NextSpan(z, 1 + bpl);
    LaterRowAt(head, tail, image, bpl, Span(z, 1 + bpl), Span(z, bpl), up, above);
  }

  lemma LaterRowAt(head: seq<byte>, tail: seq<byte>, image: seq<byte>, bpl: nat, o: nat, i: nat, up: bool, above: seq<byte>)
    requires |head| == 1 + bpl && bpl <= |image| && RowAt(tail, image[bpl..], bpl, o, i, up, above)
    ensures RowAt(head + tail, image, bpl, o + 1 + bpl, i + bpl, up, above)
  {
    hide SubRows;
    SliceBehind(head, tail, o + 1, o + 1 + bpl);
    SliceBehind(image[..bpl], image[bpl..], i, i + bpl);
    assert image[..bpl] + image[bpl..] == image;
    assert image[i + bpl..i + bpl + bpl] == image[bpl..][i..i + bpl];
    assert (head + tail)[o + 1 + bpl + 1..o + 1 + bpl + 1 + bpl] == tail[o + 1..o + 1 + bpl];
  }

  lemma SliceBehind(head: seq<byte>, tail: seq<byte>, a: nat, b: nat)
    requires a <= b <= |tail|
    ensures (head + tail)[|head| + a..|head| + b] == tail[a..b]
    ensures a > 0 ==> (head + tail)[|head| + a - 1] == tail[a - 1]
  {
  }

  /** The filtered image: None on the first row and Up on the others, or None throughout. */
  method FilterImage(image: seq<byte>, bpl: nat, h: nat, up: bool) returns (buf: array<byte>)
    requires bpl > 0 && |image| == h * bpl
    ensures fresh(buf) && buf[..] == Filtered(image, bpl, up, true, ZeroRow(bpl))
    ensures forall y :: 0 <= y < h ==> RowIs(buf[..], image, bpl, y, up && y > 0, if y == 0 then ZeroRow(bpl) else RowAbove(image, bpl, y))
  {
    hide RowIs, RowAbove, Filtered;
    FilterRoundTrip(image, bpl, h, up, true, ZeroRow(bpl));
    buf := new byte[h * (1 + bpl)](_ => 0);
    FilterRows(image, bpl, h, up, buf);
    forall y | 0 <= y < h
      ensures RowIs(Filtered(image, bpl, up, true, ZeroRow(bpl)), image, bpl, y, up && y > 0, if y == 0 then ZeroRow(bpl) else RowAbove(image, bpl, y))
    {
      FilteredRowIs(image, bpl, h, up, true, ZeroRow(bpl), y);
    }
  }

  method FilterRows(image: seq<byte>, bpl: nat, h: nat, up: bool, buf: array<byte>)
    requires bpl > 0 && |image| == Span(h, bpl) && buf.Length == Span(h, 1 + bpl)
    modifies buf
    ensures buf[..] == Filtered(image, bpl, up, true, ZeroRow(bpl))
  {
    hide Filtered, FilteredRow, ZeroRow, Span;
    ghost var all := Filtered(image, bpl, up, true, ZeroRow(bpl));
    var y: nat, ofs: nat, src: nat := 0, 0, 0;
    var prev := ZeroRow(bpl);
    assert image[0..] == image;
    assert buf[..0] + all == all;
    NoSpan(bpl);
    while y < h
      invariant y <= h && src == Span(y, bpl) <= |image| && ofs == Span(y, 1 + bpl) <= buf.Length && |prev| == bpl
      invariant buf[..ofs] + Filtered(image[src..], bpl, up, y == 0, prev) == all
    {
      RowsLeft(y, h, bpl);
      prev := FilterOneRow(image, bpl, up, y, src, prev, buf, ofs);
      y, ofs, src := y + 1, ofs + 1 + bpl, src + bpl;
    }
    NothingLeft(image, src, bpl, up, y == 0, prev);
    assert buf[..ofs] == buf[..];
  }

  method FilterOneRow(image: seq<byte>, bpl: nat, up: bool, y: nat, src: nat, prev: seq<byte>, buf: array<byte>, ofs: nat)
    returns (row: seq<byte>)
    requires bpl > 0 && |prev| == bpl && src + bpl <= |image| && ofs + 1 + bpl <= buf.Length
    modifies buf
    ensures |row| == bpl && row == image[src..src + bpl]
    ensures buf[..ofs + 1 + bpl] + Filtered(image[src + bpl..], bpl, up, false, row)
         == old(buf[..ofs]) + Filtered(image[src..], bpl, up, y == 0, prev)
  {
    hide FilteredRow, Filtered;
    row := image[src..src + bpl];
    FilterNext(image[src..], bpl, up, y == 0, prev);
    assert image[src..][..bpl] == row && image[src..][bpl..] == image[src + bpl..];
    ApplyFilter(if y > 0 && up then 2 else 0, row, prev, buf, ofs);
    assert buf[..ofs + 1 + bpl] == buf[..ofs] + buf[ofs..ofs + 1 + bpl];
    Assoc(buf[..ofs], FilteredRow(y > 0 && up, row, prev), Filtered(image[src + bpl..], bpl, up, false, row));
  }

  lemma NothingLeft(image: seq<byte>, src: nat, bpl: nat, up: bool, first: bool, prev: seq<byte>)
    requires bpl > 0 && |prev| == bpl && src == |image|
    ensures Filtered(image[src..], bpl, up, first, prev) == []
  {
  }

  lemma FilterNext(image: seq<byte>, bpl: nat, up: bool, first: bool, prev: seq<byte>)
    requires bpl > 0 && |prev| == bpl && |image| >= bpl
    ensures Filtered(image, bpl, up, first, prev)
         == FilteredRow(up && !first, image[..bpl], prev) + Filtered(image[bpl..], bpl, up, false, image[..bpl])
  {
  }

  lemma NoSpan(bpl: nat)
    ensures Span(0, bpl) == 0 && Span(0, 1 + bpl) == 0
  {
  }

  lemma RowsLeft(y: nat, h: nat, bpl: nat)
    requires y < h
    ensures Span(y + 1, bpl) == Span(y, bpl) + bpl && Span(y + 1, 1 + bpl) == Span(y, 1 + bpl) + 1 + bpl
    ensures Span(y, bpl) + bpl <= Span(h, bpl) && Span(y, 1 + bpl) + 1 + bpl <= Span(h, 1 + bpl)
  {
    MulMonotone(y + 1, h, bpl);
    MulMonotone(y + 1, h, 1 + bpl);
  }
}
