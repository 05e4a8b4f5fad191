/** fpng's two-pass encoders for 3- and 4-channel images (libs/fpng/fpng.cpp:990-1161, 1267-1447).
    The two differ only in the pixel size, the longest run and one extra flush, so one model with a
    channel count stands for both. */
module FpngEncode {
  import opened Bits
  import opened BitWriter
  import opened Canonical
  import opened FpngFrequencies
  import opened FpngTokens
  import opened MinimumRedundancy
  import Inflate
  import Wrappers

  /** n pixels of chans bytes. */
  function Times(n: nat, chans: nat): nat {
    if chans == 3 then 3 * n else 4 * n
  }

  /** px are the pixels stored at start. */
  ghost predicate PixelsAt(img: seq<byte>, start: nat, px: seq<Pixel>, chans: nat) {
    && start + Times(|px|, chans) <= |img|
    && forall j :: 0 <= j < |px| ==> PixelAt(img, start + Times(j, chans), px[j], chans)
  }

  ghost predicate PixelAt(img: seq<byte>, o: nat, p: Pixel, chans: nat) {
    |p| == chans && o + chans <= |img| && img[o..o + chans] == p
  }

  // ---- Frequencies cover the symbols of a token.

  ghost predicate Covers(freq: seq<nat>, t: Token, chans: nat) {
    && |freq| == 288
    && match t
       case Filter(b) => freq[b] > 0
       case Literal(px) => forall i :: 0 <= i < |px| ==> freq[px[i]] > 0
       case Run(n) => 3 <= n * chans <= 258 && freq[LenSym(n * chans - 3)] > 0
  }

  ghost predicate CoversAll(freq: seq<nat>, tokens: seq<Token>, chans: nat) {
    forall i :: 0 <= i < |tokens| ==> Covers(freq, tokens[i], chans)
  }

  /** Frequencies only ever grow. */
  ghost predicate Grown(a: seq<nat>, b: seq<nat>) {
    |a| == |b| && forall i :: 0 <= i < |a| ==> a[i] <= b[i]
  }

  /** Frequencies of at most total symbols, none beyond 285. */
  ghost predicate Tally(freq: seq<nat>, total: nat) {
    && |freq| == 288 && Sum(freq) <= total && freq[286] == freq[287] == 0
  }

  /** How often a token needs the symbol s. */
  function TokenUses(t: Token, s: nat, chans: nat): nat {
    match t
    case Filter(b) => if s == b then 1 else 0
    case Literal(px) => if s < 256 then multiset(px)[s] else 0
    case Run(n) => if 3 <= n * chans <= 258 && s == LenSym(n * chans - 3) then 1 else 0
  }

  function Uses(tokens: seq<Token>, s: nat, chans: nat): nat {
    if tokens == [] then 0 else Uses(tokens[..|tokens| - 1], s, chans) + TokenUses(tokens[|tokens| - 1], s, chans)
  }

  /** freq counts exactly the symbols of the tokens on top of freq0. */
  ghost predicate CountsUp(freq0: seq<nat>, freq: seq<nat>, tokens: seq<Token>, chans: nat) {
    |freq0| == |freq| && forall s :: 0 <= s < |freq| ==> freq[s] == freq0[s] + Uses(tokens, s, chans)
  }

  lemma UsesSnoc(tokens: seq<Token>, t: Token, s: nat, chans: nat)
    ensures Uses(tokens + [t], s, chans) == Uses(tokens, s, chans) + TokenUses(t, s, chans)
  {
    assert (tokens + [t])[..|tokens|] == tokens;
  }

  lemma {:induction false} UsesConcat(a: seq<Token>, b: seq<Token>, s: nat, chans: nat)
    ensures Uses(a + b, s, chans) == Uses(a, s, chans) + Uses(b, s, chans)
    decreases |b|
  {
    if b == [] {
      assert a + b == a;
    } else {
      var n := |b| - 1;
      UsesConcat(a, b[..n], s, chans);
      UsesSnoc(a + b[..n], b[n], s, chans);
      assert a + b[..n] + [b[n]] == a + b;
    }
  }

  lemma CountsConcat(f0: seq<nat>, f1: seq<nat>, f2: seq<nat>, a: seq<Token>, b: seq<Token>, chans: nat)
    requires CountsUp(f0, f1, a, chans) && CountsUp(f1, f2, b, chans)
    ensures CountsUp(f0, f2, a + b, chans)
  {
    forall s | 0 <= s < |f2|
      ensures f2[s] == f0[s] + Uses(a + b, s, chans)
    {
      UsesConcat(a, b, s, chans);
    }
  }

  /** One token's symbols counted. */
  lemma CountsOne(f0: seq<nat>, f1: seq<nat>, t: Token, chans: nat)
    requires |f0| == |f1| && forall s :: 0 <= s < |f1| ==> f1[s] == f0[s] + TokenUses(t, s, chans)
    ensures CountsUp(f0, f1, [t], chans)
  {
    forall s | 0 <= s < |f1|
      ensures Uses([t], s, chans) == TokenUses(t, s, chans)
    {
      UsesSnoc([], t, s, chans);
      assert [] + [t] == [t];
    }
  }

  lemma RunCounted(f0: seq<nat>, f1: seq<nat>, n: nat, chans: nat)
    requires 3 <= n * chans <= 258 && LenSym(n * chans - 3) < |f0|
    requires f1 == f0[LenSym(n * chans - 3) := f0[LenSym(n * chans - 3)] + 1]
    ensures CountsUp(f0, f1, [Run(n)], chans)
  {
    hide LenSym, CountsUp;
    CountsOne(f0, f1, Run(n), chans);
  }

  lemma CountsNone(f: seq<nat>, chans: nat)
    ensures CountsUp(f, f, [], chans)
  {
  }

  lemma CoversGrown(a: seq<nat>, b: seq<nat>, tokens: seq<Token>, chans: nat)
    requires CoversAll(a, tokens, chans) && Grown(a, b)
    ensures CoversAll(b, tokens, chans)
  {
    forall i | 0 <= i < |tokens|
      ensures Covers(b, tokens[i], chans)
    {
      assert Covers(a, tokens[i], chans);
    }
  }

  method Bump(freq0: seq<nat>, s: nat, ghost total: nat) returns (freq: seq<nat>)
    requires Tally(freq0, total) && s <= 285
    ensures Tally(freq, total + 1) && Grown(freq0, freq) && freq == freq0[s := freq0[s] + 1]
  {
    SumUpdate(freq0, s, freq0[s] + 1);
    freq := freq0[s := freq0[s] + 1];
  }

  /** The bytes of a literal pixel, counted. */
  method BumpPixel(freq0: seq<nat>, px: Pixel, ghost total: nat) returns (freq: seq<nat>)
    requires Tally(freq0, total)
    ensures Tally(freq, total + |px|) && Grown(freq0, freq)
    ensures forall i :: 0 <= i < |px| ==> freq[px[i]] > 0
    ensures forall s :: 0 <= s < 288 ==> freq[s] == freq0[s] + if s < 256 then multiset(px)[s] else 0
  {
    hide Tally, Sum;
    freq := freq0;
    var i := 0;
    TallyShape(freq0, total);
    while i < |px|
      invariant 0 <= i <= |px| && Tally(freq, total + i) && Grown(freq0, freq) && |freq| == 288
      invariant forall j :: 0 <= j < i ==> freq[px[j]] > 0
      invariant forall s :: 0 <= s < 288 ==> freq[s] == freq0[s] + if s < 256 then multiset(px[..i])[s] else 0
    {
      freq := Bump(freq, px[i], total + i);
      assert px[..i + 1] == px[..i] + [px[i]];
      i := i + 1;
    }
    assert px[..i] == px;
  }

  lemma TallyShape(freq: seq<nat>, total: nat)
    requires Tally(freq, total)
    ensures |freq| == 288 && freq[286] == freq[287] == 0
  {
  }

  // ---- First pass: one row.

  /** The longest run: 255 bytes of three-byte pixels, 252 of four-byte ones. */
  function MaxRun(chans: nat): nat {
    if chans == 3 then 85 else 63
  }

  /** How many pixels at o equal lits, up to the limit; the first is known to. */
  method RunLength(img: seq<byte>, o: nat, lits: Pixel, chans: nat, max: nat, ghost start: nat, ghost px: seq<Pixel>, ghost x: nat)
    returns (n: nat)
    requires chans == 3 || chans == 4
    requires PixelsAt(img, start, px, chans) && o == start + Times(x, chans)
    requires 1 <= max && x + max <= |px| && px[x] == lits
    ensures 1 <= n <= max && forall j :: x <= j < x + n ==> px[j] == lits
    ensures n < max ==> px[x + n] != lits
  {
    n := 1;
    while n < max
      invariant 1 <= n <= max && forall j :: x <= j < x + n ==> px[j] == lits
    {
      assert PixelAt(img, start + Times(x + n, chans), px[x + n], chans);
      if img[o + Times(n, chans)..o + Times(n, chans) + chans] != lits {
        break;
      }
      n := n + 1;
    }
  }

  /** What one row of tokens has to be: the pixels px, with a code counted for every symbol. */
  ghost predicate RowDone(items: seq<Token>, px: seq<Pixel>, freq: seq<nat>, chans: nat) {
    RowItems(items, chans) && Pixels(items, []) == px && CoversAll(freq, items, chans)
  }

  lemma LiteralStep(items: seq<Token>, px: seq<Pixel>, freq: seq<nat>, freq': seq<nat>, chans: nat, p: Pixel)
    requires RowDone(items, px, freq, chans) && Grown(freq, freq') && |p| == chans
    requires |freq'| == 288 && forall i :: 0 <= i < |p| ==> freq'[p[i]] > 0
    ensures RowDone(items + [Literal(p)], px + [p], freq', chans)
    ensures LastPixel(items + [Literal(p)], []) == p
  {
    NoFilters(items, chans);
    PixelsSnoc(items, [], Literal(p));
    CoversGrown(freq, freq', items, chans);
    assert Covers(freq', Literal(p), chans);
    hide Covers;
  }

  lemma RunStep(items: seq<Token>, px: seq<Pixel>, freq: seq<nat>, freq': seq<nat>, chans: nat, n: nat)
    requires RowDone(items, px, freq, chans) && Grown(freq, freq') && items != []
    requires n >= 1 && 3 <= n * chans <= 258
    requires |freq'| == 288 && freq'[LenSym(n * chans - 3)] > 0
    ensures RowDone(items + [Run(n)], px + Copies(LastPixel(items, []), n), freq', chans)
    ensures LastPixel(items + [Run(n)], []) == LastPixel(items, [])
  {
    NoFilters(items, chans);
    PixelsSnoc(items, [], Run(n));
    CoversGrown(freq, freq', items, chans);
    assert Covers(freq', Run(n), chans);
    hide Covers;
  }

  lemma NoFilters(items: seq<Token>, chans: nat)
    requires RowItems(items, chans)
    ensures forall i :: 0 <= i < |items| ==> !items[i].Filter?
  {
    forall i | 0 <= i < |items|
      ensures !items[i].Filter?
    {
      assert PixelToken(items[i], chans);
    }
  }

  lemma CopiesSlice(px: seq<Pixel>, x: nat, n: nat, lits: Pixel)
    requires x + n <= |px| && forall j :: x <= j < x + n ==> px[j] == lits
    ensures px[..x] + Copies(lits, n) == px[..x + n]
    decreases n
  {
    if n > 0 {
      CopiesSlice(px, x, n - 1, lits);
      CopiesSnoc(lits, n - 1);
      assert px[..x] + (Copies(lits, n - 1) + [lits]) == px[..x] + Copies(lits, n - 1) + [lits];
      assert px[..x + n] == px[..x + n - 1] + [lits];
    }
  }

  lemma {:induction false} CopiesSnoc(px: Pixel, n: nat)
    ensures Copies(px, n + 1) == Copies(px, n) + [px]
  {
    if n > 0 {
      CopiesSnoc(px, n - 1);
    }
  }

  /** A pixel that repeats the one before it is in a run, and a run ends only where the pixels change or
      at the longest run. */
  ghost predicate Greedy(items: seq<Token>, chans: nat) {
    forall i :: 0 <= i < |items| ==> GreedyAt(items, i, chans)
  }

  ghost predicate GreedyAt(items: seq<Token>, i: nat, chans: nat)
    requires i < |items|
  {
    match items[i]
    case Filter(_) => false
    case Literal(px) => i > 0 ==> px != LastPixel(items[..i], [])
    case Run(n) => 1 <= n <= MaxRun(chans) && (i + 1 < |items| && n < MaxRun(chans) ==> items[i + 1].Literal?)
  }

  /** If the next pixel repeats prev, the last token is not a run that could be longer. */
  ghost predicate Exhausted(items: seq<Token>, px: seq<Pixel>, x: nat, prev: Pixel, chans: nat) {
    items != [] && items[|items| - 1].Run? && items[|items| - 1].n < MaxRun(chans) && x < |px| ==> px[x] != prev
  }

  lemma GreedySnoc(items: seq<Token>, t: Token, chans: nat)
    requires Greedy(items, chans) && !t.Filter?
    requires t.Literal? && items != [] ==> t.px != LastPixel(items, [])
    requires t.Run? ==> 1 <= t.n <= MaxRun(chans)
    requires t.Run? && items != [] && items[|items| - 1].Run? ==> items[|items| - 1].n >= MaxRun(chans)
    ensures Greedy(items + [t], chans)
  {
    hide LastPixel;
    var all := items + [t];
    forall i | 0 <= i < |all|
      ensures GreedyAt(all, i, chans)
    {
      assert all[..|items|] == items;
      if i < |items| {
        assert GreedyAt(items, i, chans);
        assert all[..i] == items[..i];
      }
    }
  }

  /** x pixels of the row are tokens, the last of them being prev. */
  ghost predicate RowSoFar(items: seq<Token>, px: seq<Pixel>, x: nat, prev: Pixel, freq: seq<nat>, chans: nat) {
    && 1 <= x <= |px| && items != [] && |prev| == chans
    && RowDone(items, px[..x], freq, chans) && LastPixel(items, []) == prev
  }

  lemma SoFarRun(items: seq<Token>, px: seq<Pixel>, x: nat, prev: Pixel, freq: seq<nat>, freq': seq<nat>, chans: nat, n: nat)
    requires RowSoFar(items, px, x, prev, freq, chans) && x + n <= |px|
    requires forall j :: x <= j < x + n ==> px[j] == prev
    requires n >= 1 && 3 <= n * chans <= 258
    requires Grown(freq, freq') && |freq'| == 288 && freq'[LenSym(n * chans - 3)] > 0
    ensures RowSoFar(items + [Run(n)], px, x + n, prev, freq', chans)
  {
    hide RowDone, LenSym, Grown, LastPixel;
    RunStep(items, px[..x], freq, freq', chans, n);
    CopiesSlice(px, x, n, prev);
  }

  lemma SoFarLiteral(items: seq<Token>, px: seq<Pixel>, x: nat, prev: Pixel, freq: seq<nat>, freq': seq<nat>, chans: nat, p: Pixel)
    requires RowSoFar(items, px, x, prev, freq, chans) && x < |px| && px[x] == p && |p| == chans
    requires Grown(freq, freq') && |freq'| == 288 && forall i :: 0 <= i < |p| ==> freq'[p[i]] > 0
    ensures RowSoFar(items + [Literal(p)], px, x + 1, p, freq', chans)
  {
    hide RowDone, Grown, LastPixel;
    LiteralStep(items, px[..x], freq, freq', chans, p);
    assert px[..x] + [p] == px[..x + 1];
  }

  lemma RunFits(n: nat, chans: nat)
    requires (chans == 3 || chans == 4) && 1 <= n <= MaxRun(chans)
    ensures 3 <= n * chans <= 255 && LenSym(n * chans - 3) <= 284
  {
  }

  /** The invariant of the loop over a row's pixels; base are the counts before the row. */
  ghost predicate RowState(items: seq<Token>, px: seq<Pixel>, x: nat, prev: Pixel, base: seq<nat>, freq: seq<nat>, chans: nat) {
    && RowSoFar(items, px, x, prev, freq, chans) && Greedy(items, chans) && Exhausted(items, px, x, prev, chans)
    && CountsUp(base, freq, items, chans)
  }

  lemma StateRun(items: seq<Token>, px: seq<Pixel>, x: nat, prev: Pixel, base: seq<nat>, freq: seq<nat>, freq': seq<nat>, chans: nat, n: nat)
    requires RowState(items, px, x, prev, base, freq, chans) && x < |px| && x + n <= |px|
    requires forall j :: x <= j < x + n ==> px[j] == prev
    requires 1 <= n <= MaxRun(chans) && 3 <= n * chans <= 258 && (n < MaxRun(chans) && x + n < |px| ==> px[x + n] != prev)
    requires |freq| == 288 && LenSym(n * chans - 3) <= 285
    requires freq' == freq[LenSym(n * chans - 3) := freq[LenSym(n * chans - 3)] + 1]
    ensures RowState(items + [Run(n)], px, x + n, prev, base, freq', chans)
  {
    hide Greedy, CountsUp, RowDone, LastPixel, LenSym;
    SoFarRun(items, px, x, prev, freq, freq', chans, n);
    GreedySnoc(items, Run(n), chans);
    RunCounted(freq, freq', n, chans);
    CountsConcat(base, freq, freq', items, [Run(n)], chans);
  }

  lemma StateLiteral(items: seq<Token>, px: seq<Pixel>, x: nat, prev: Pixel, base: seq<nat>, freq: seq<nat>, freq': seq<nat>, chans: nat, p: Pixel)
    requires RowState(items, px, x, prev, base, freq, chans) && x < |px| && px[x] == p && p != prev && |p| == chans
    requires |freq| == |freq'| == 288 && Grown(freq, freq') && forall i :: 0 <= i < |p| ==> freq'[p[i]] > 0
    requires forall s :: 0 <= s < 288 ==> freq'[s] == freq[s] + if s < 256 then multiset(p)[s] else 0
    ensures RowState(items + [Literal(p)], px, x + 1, p, base, freq', chans)
  {
    hide Greedy, CountsUp, RowDone, LastPixel;
    SoFarLiteral(items, px, x, prev, freq, freq', chans, p);
    GreedySnoc(items, Literal(p), chans);
    CountsOne(freq, freq', Literal(p), chans);
    CountsConcat(base, freq, freq', items, [Literal(p)], chans);
  }

  /** One round of the loop over a row's pixels. */
  method NextToken(img: seq<byte>, start: nat, w: nat, chans: nat, items0: seq<Token>, freq0: seq<nat>, x0: nat, prev0: Pixel,
                   ghost px: seq<Pixel>, ghost total: nat, ghost base: seq<nat>)
    returns (items: seq<Token>, freq: seq<nat>, x: nat, prev: Pixel)
    requires chans == 3 || chans == 4
    requires |px| == w && PixelsAt(img, start, px, chans) && x0 < w
    requires RowState(items0, px, x0, prev0, base, freq0, chans) && Tally(freq0, total + Times(x0, chans))
    ensures x0 < x <= w && RowState(items, px, x, prev, base, freq, chans)
    ensures Grown(freq0, freq) && Tally(freq, total + Times(x, chans))
  {
    hide RowState, Sum;
    var o := start + Times(x0, chans);
    assert PixelAt(img, start + Times(x0, chans), px[x0], chans);
    var lits := img[o..o + chans];
    if lits == prev0 {
      var max := if w - x0 < MaxRun(chans) then w - x0 else MaxRun(chans);
      var n := RunLength(img, o, lits, chans, max, start, px, x0);
      RunFits(n, chans);
      freq := Bump(freq0, LenSym(n * chans - 3), total + Times(x0, chans));
      StateRun(items0, px, x0, prev0, base, freq0, freq, chans, n);
      items, x, prev := items0 + [Run(n)], x0 + n, prev0;
    } else {
      freq := BumpPixel(freq0, lits, total + Times(x0, chans));
      StateLiteral(items0, px, x0, prev0, base, freq0, freq, chans, lits);
      items, x, prev := items0 + [Literal(lits)], x0 + 1, lits;
    }
  }

  method EncodeRow(img: seq<byte>, start: nat, w: nat, chans: nat, freq0: seq<nat>, ghost px: seq<Pixel>, ghost total: nat)
    returns (items: seq<Token>, freq: seq<nat>)
    requires (chans == 3 || chans == 4) && w >= 1
    requires |px| == w && PixelsAt(img, start, px, chans) && Tally(freq0, total)
    ensures RowDone(items, px, freq, chans) && Grown(freq0, freq)
    ensures Tally(freq, total + Times(w, chans))
    ensures Greedy(items, chans) && CountsUp(freq0, freq, items, chans)
  {
    assert PixelAt(img, start + Times(0, chans), px[0], chans);
    var prev := img[start..start + chans];
    freq := BumpPixel(freq0, prev, total);
    StartRow(freq0, freq, px, chans, prev);
    items := [Literal(prev)];
    var x: nat := 1;
    hide Sum, Tally, RowState, PixelsAt;
    while x < w
      invariant 1 <= x <= w && RowState(items, px, x, prev, freq0, freq, chans)
      invariant Grown(freq0, freq) && Tally(freq, total + Times(x, chans))
    {
      items, freq, x, prev := NextToken(img, start, w, chans, items, freq, x, prev, px, total, freq0);
    }
    WholeRow(items, px, prev, freq0, freq, chans);
  }

  lemma WholeRow(items: seq<Token>, px: seq<Pixel>, prev: Pixel, base: seq<nat>, freq: seq<nat>, chans: nat)
    requires RowState(items, px, |px|, prev, base, freq, chans)
    ensures RowDone(items, px, freq, chans) && Greedy(items, chans) && CountsUp(base, freq, items, chans)
  {
    hide RowDone, Greedy, CountsUp;
    assert px[..|px|] == px;
  }

  lemma StartRow(base: seq<nat>, freq: seq<nat>, px: seq<Pixel>, chans: nat, p: Pixel)
    requires px != [] && px[0] == p && |p| == chans
    requires |base| == |freq| == 288 && forall i :: 0 <= i < |p| ==> freq[p[i]] > 0
    requires forall s :: 0 <= s < 288 ==> freq[s] == base[s] + if s < 256 then multiset(p)[s] else 0
    ensures RowState([Literal(p)], px, 1, p, base, freq, chans)
  {
    assert RowDone([], [], freq, chans);
    LiteralStep([], [], freq, freq, chans, p);
    CountsOne(base, freq, Literal(p), chans);
    GreedySnoc([], Literal(p), chans);
    assert [] + [Literal(p)] == [Literal(p)] && [] + [p] == px[..1];
    hide RowDone, Greedy, CountsUp;
  }

  // ---- First pass: the image.

  /** The w pixels stored at start. */
  function RowPixels(img: seq<byte>, start: nat, w: nat, chans: nat): (px: seq<Pixel>)
    requires chans == 3 || chans == 4
    requires start + Times(w, chans) <= |img|
    ensures |px| == w && PixelsAt(img, start, px, chans)
  {
    seq(w, i requires 0 <= i < w => img[start + Times(i, chans)..start + Times(i, chans) + chans])
  }

  lemma LastColumn(img: seq<byte>, start: nat, w: nat, chans: nat)
    requires (chans == 3 || chans == 4) && start + Times(w, chans) <= |img| && w > 0
    ensures var o := start + Times(w - 1, chans);
      && start + Times(w, chans) == o + chans
      && RowPixels(img, start, w, chans) == RowPixels(img, start, w - 1, chans) + [img[o..o + chans]]
      && Flat([img[o..o + chans]]) == img[o..o + chans]
  {
    var o := start + Times(w - 1, chans);
    assert Flat([img[o..o + chans]]) == img[o..o + chans] + Flat([]);
  }

  lemma {:induction false} FlatRowPixels(img: seq<byte>, start: nat, w: nat, chans: nat)
    requires (chans == 3 || chans == 4) && start + Times(w, chans) <= |img|
    ensures Flat(RowPixels(img, start, w, chans)) == img[start..start + Times(w, chans)]
  {
    if w > 0 {
      hide Times, RowPixels, Flat;
      FlatRowPixels(img, start, w - 1, chans);
      LastColumn(img, start, w, chans);
      var px, px' := RowPixels(img, start, w - 1, chans), RowPixels(img, start, w, chans);
      var o := start + Times(w - 1, chans);
      FlatConcat(px, [img[o..o + chans]]);
      assert img[start..o] + img[o..o + chans] == img[start..o + chans];
    }
  }

  function FlatTokens(rows: seq<Row>): seq<Token> {
    if rows == [] then []
    else FlatTokens(rows[..|rows| - 1]) + [Filter(rows[|rows| - 1].filter)] + rows[|rows| - 1].items
  }

  ghost predicate GreedyRows(rows: seq<Row>, chans: nat) {
    forall i :: 0 <= i < |rows| ==> Greedy(rows[i].items, chans)
  }

  /** Rows of an image: tokens of w pixels each, all their symbols counted. */
  ghost predicate RowsDone(rows: seq<Row>, w: nat, freq: seq<nat>, chans: nat) {
    && |freq| == 288
    && forall i :: 0 <= i < |rows| ==>
         && RowItems(rows[i].items, chans) && |Pixels(rows[i].items, [])| == w
         && CoversAll(freq, rows[i].items, chans) && freq[rows[i].filter] > 0
  }

  lemma RowsDoneSnoc(rows: seq<Row>, w: nat, freq: seq<nat>, freq': seq<nat>, chans: nat, r: Row)
    requires RowsDone(rows, w, freq, chans) && Grown(freq, freq')
    requires RowItems(r.items, chans) && |Pixels(r.items, [])| == w
    requires CoversAll(freq', r.items, chans) && freq'[r.filter] > 0
    ensures RowsDone(rows + [r], w, freq', chans)
  {
    forall i | 0 <= i < |rows|
      ensures CoversAll(freq', rows[i].items, chans) && freq'[rows[i].filter] > 0
    {
      CoversGrown(freq, freq', rows[i].items, chans);
    }
    hide CoversAll, RowItems;
  }

  lemma ImageBytesSnoc(rows: seq<Row>, r: Row)
    ensures ImageBytes(rows + [r]) == ImageBytes(rows) + RowBytes(r)
    ensures FlatTokens(rows + [r]) == FlatTokens(rows) + [Filter(r.filter)] + r.items
  {
    assert (rows + [r])[..|rows|] == rows;
  }

  function RowStart(y: nat, bpl: nat): nat {
    y * bpl
  }

  lemma RowOfs(y: nat, h: nat, bpl: nat)
    ensures RowStart(y + 1, bpl) == RowStart(y, bpl) + bpl
    ensures y < h ==> RowStart(y + 1, bpl) <= RowStart(h, bpl)
  {
    if y < h {
      Arith.MulMonotone(y + 1, h, bpl);
    }
  }

  import Arith

  /** What has been collected from the first o bytes. */
  ghost predicate Collected(img: seq<byte>, o: nat, w: nat, chans: nat, tokens: seq<Token>, freq: seq<nat>, rows: seq<Row>) {
    && o <= |img| && RowsDone(rows, w, freq, chans) && Tally(freq, o)
    && ImageBytes(rows) == img[..o] && tokens == FlatTokens(rows)
    && GreedyRows(rows, chans) && CountsUp(Zeros(288), freq, tokens, chans)
  }

  /** Line 1005-1078: every row of the filtered image becomes tokens, and every symbol is counted. */
  method CollectTokens(img: seq<byte>, w: nat, h: nat, chans: nat)
    returns (tokens: seq<Token>, freq: seq<nat>, ghost rows: seq<Row>)
    requires (chans == 3 || chans == 4) && w >= 1 && h >= 1
    requires |img| == h * (1 + Times(w, chans))
    ensures |rows| == h && RowsDone(rows, w, freq, chans) && Tally(freq, |img|)
    ensures ImageBytes(rows) == img && tokens == FlatTokens(rows)
    ensures GreedyRows(rows, chans) && CountsUp(Zeros(288), freq, tokens, chans)
  {
    var bpl := 1 + Times(w, chans);
    tokens, rows := [], [];
    freq := Zeros(288);
    NothingCollected(img, w, chans);
    var y, srcOfs: nat := 0, 0;
    assert RowStart(0, bpl) == 0 && |img| == RowStart(h, bpl);
    hide Times, Collected, RowStart;
    while y < h
      invariant 0 <= y <= h && |rows| == y && srcOfs == RowStart(y, bpl) <= |img|
      invariant Collected(img, srcOfs, w, chans, tokens, freq, rows)
    {
      RowOfs(y, h, bpl);
      tokens, freq, rows := CollectRow(img, srcOfs, w, chans, tokens, freq, rows);
      srcOfs := srcOfs + bpl;
      y := y + 1;
    }
    AllCollected(img, w, chans, tokens, freq, rows);
  }

  lemma AllCollected(img: seq<byte>, w: nat, chans: nat, tokens: seq<Token>, freq: seq<nat>, rows: seq<Row>)
    requires Collected(img, |img|, w, chans, tokens, freq, rows)
    ensures RowsDone(rows, w, freq, chans) && Tally(freq, |img|)
    ensures ImageBytes(rows) == img && tokens == FlatTokens(rows)
    ensures GreedyRows(rows, chans) && CountsUp(Zeros(288), freq, tokens, chans)
  {
    assert img[..|img|] == img;
  }

  lemma NothingCollected(img: seq<byte>, w: nat, chans: nat)
    ensures Collected(img, 0, w, chans, [], Zeros(288), [])
  {
    ZeroTally();
    CountsNone(Zeros(288), chans);
    NoRows(w, Zeros(288), chans);
    assert img[..0] == [];
  }

  method CollectRow(img: seq<byte>, o: nat, w: nat, chans: nat, tokens0: seq<Token>, freq0: seq<nat>, ghost rows0: seq<Row>)
    returns (tokens: seq<Token>, freq: seq<nat>, ghost rows: seq<Row>)
    requires (chans == 3 || chans == 4) && w >= 1 && o + 1 + Times(w, chans) <= |img|
    requires Collected(img, o, w, chans, tokens0, freq0, rows0)
    ensures |rows| == |rows0| + 1 && Collected(img, o + 1 + Times(w, chans), w, chans, tokens, freq, rows)
  {
    hide Times, Tally, RowsDone, ImageBytes, FlatTokens, Sum, CountsUp, GreedyRows;
    var items;
    items, freq, rows := NextRow(img, o, w, chans, freq0, rows0);
    CountsRow(freq0, freq, tokens0, img[o], items, chans);
    tokens := tokens0 + [Filter(img[o])] + items;
  }

  lemma NoRows(w: nat, freq: seq<nat>, chans: nat)
    requires |freq| == 288
    ensures RowsDone([], w, freq, chans) && GreedyRows([], chans) && ImageBytes([]) == [] && FlatTokens([]) == []
  {
  }

  lemma CountsRow(freq0: seq<nat>, freq: seq<nat>, tokens: seq<Token>, filter: byte, items: seq<Token>, chans: nat)
    requires CountsUp(Zeros(288), freq0, tokens, chans) && CountsUp(freq0, freq, [Filter(filter)] + items, chans)
    ensures CountsUp(Zeros(288), freq, tokens + [Filter(filter)] + items, chans)
  {
    hide CountsUp;
    CountsConcat(Zeros(288), freq0, freq, tokens, [Filter(filter)] + items, chans);
    Wrappers.Assoc(tokens, [Filter(filter)], items);
  }

  lemma ZeroTally()
    ensures Tally(Zeros(288), 0)
  {
    SumZeros(288);
  }

  method NextRow(img: seq<byte>, o: nat, w: nat, chans: nat, freq0: seq<nat>, ghost rows0: seq<Row>)
    returns (items: seq<Token>, freq: seq<nat>, ghost rows: seq<Row>)
    requires (chans == 3 || chans == 4) && w >= 1 && o + 1 + Times(w, chans) <= |img|
    requires RowsDone(rows0, w, freq0, chans) && Tally(freq0, o) && ImageBytes(rows0) == img[..o]
    ensures rows == rows0 + [Row(img[o], items)]
    ensures RowsDone(rows, w, freq, chans) && Tally(freq, o + 1 + Times(w, chans))
    ensures ImageBytes(rows) == img[..o + 1 + Times(w, chans)]
    ensures FlatTokens(rows) == FlatTokens(rows0) + [Filter(img[o])] + items
    ensures GreedyRows(rows0, chans) ==> GreedyRows(rows, chans)
    ensures CountsUp(freq0, freq, [Filter(img[o])] + items, chans)
  {
    hide Times, Sum, RowsDone, ImageBytes, FlatTokens, Greedy, CountsUp, RowBytes;
    ghost var px := RowPixels(img, o + 1, w, chans);
    var freq1 := Bump(freq0, img[o], o);
    CountsOne(freq0, freq1, Filter(img[o]), chans);
    items, freq := EncodeRow(img, o + 1, w, chans, freq1, px, o + 1);
    CountsConcat(freq0, freq1, freq, [Filter(img[o])], items, chans);
    ghost var r := Row(img[o], items);
    rows := rows0 + [r];
    RowsDoneSnoc(rows0, w, freq0, freq, chans, r);
    ImageBytesSnoc(rows0, r);
    RowInImage(img, o, w, chans, items);
  }

  lemma RowInImage(img: seq<byte>, o: nat, w: nat, chans: nat, items: seq<Token>)
    requires (chans == 3 || chans == 4) && o + 1 + Times(w, chans) <= |img|
    requires Pixels(items, []) == RowPixels(img, o + 1, w, chans)
    ensures img[..o] + RowBytes(Row(img[o], items)) == img[..o + 1 + Times(w, chans)]
  {
    hide Times, RowPixels;
    FlatRowPixels(img, o + 1, w, chans);
    assert img[..o] + ([img[o]] + img[o + 1..o + 1 + Times(w, chans)]) == img[..o + 1 + Times(w, chans)];
  }
}
