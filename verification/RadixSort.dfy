/** The two-pass radix sort that puts symbols in order of frequency (libs/fpng/fpng.cpp:622-637). */
module RadixSort {
  import opened MinimumRedundancy

  function Digit(x: SymFreq, pass: nat): (d: nat)
    ensures d < 256
  {
    if pass == 0 then x.key % 256 else x.key / 256
  }

  /** The entries of s with digit b, in order. */
  function Select(s: seq<SymFreq>, pass: nat, b: nat): (r: seq<SymFreq>)
    ensures |r| <= |s|
  {
    if s == [] then []
    else Select(s[..|s| - 1], pass, b) + if Digit(s[|s| - 1], pass) == b then [s[|s| - 1]] else []
  }

  /** The entries with digits below b, in order of digit, and in order of s within a digit. */
  function Bucketed(s: seq<SymFreq>, pass: nat, b: nat): seq<SymFreq> {
    if b == 0 then [] else Bucketed(s, pass, b - 1) + Select(s, pass, b - 1)
  }

  ghost predicate KeySorted(s: seq<SymFreq>) {
    forall i, j :: 0 <= i <= j < |s| ==> s[i].key <= s[j].key
  }

  ghost predicate LowSorted(s: seq<SymFreq>) {
    forall i, j :: 0 <= i <= j < |s| ==> Digit(s[i], 0) <= Digit(s[j], 0)
  }

  lemma SelectSnoc(s: seq<SymFreq>, x: SymFreq, pass: nat, b: nat)
    ensures Select(s + [x], pass, b) == Select(s, pass, b) + if Digit(x, pass) == b then [x] else []
  {
    assert (s + [x])[..|s|] == s;
  }

  lemma {:induction false} BucketedSnoc(s: seq<SymFreq>, x: SymFreq, pass: nat, b: nat)
    ensures multiset(Bucketed(s + [x], pass, b))
         == multiset(Bucketed(s, pass, b)) + if Digit(x, pass) < b then multiset{x} else multiset{}
  {
    if b > 0 {
      BucketedSnoc(s, x, pass, b - 1);
      SelectSnoc(s, x, pass, b - 1);
      hide Select;
    }
  }

  /** Nothing is lost or invented. */
  lemma {:induction false} BucketedAll(s: seq<SymFreq>, pass: nat)
    ensures multiset(Bucketed(s, pass, 256)) == multiset(s)
    ensures |Bucketed(s, pass, 256)| == |s|
  {
    if s == [] {
      BucketedEmpty(pass, 256);
    } else {
      var n := |s| - 1;
      BucketedAll(s[..n], pass);
      BucketedSnoc(s[..n], s[n], pass, 256);
      assert s == s[..n] + [s[n]];
    }
    assert |multiset(Bucketed(s, pass, 256))| == |multiset(s)|;
  }

  lemma {:induction false} BucketedEmpty(pass: nat, b: nat)
    ensures Bucketed([], pass, b) == []
  {
    if b > 0 {
      BucketedEmpty(pass, b - 1);
    }
  }

  lemma {:induction false} SelectDigit(s: seq<SymFreq>, pass: nat, b: nat)
    ensures forall i :: 0 <= i < |Select(s, pass, b)| ==> Digit(Select(s, pass, b)[i], pass) == b
    ensures forall i :: 0 <= i < |Select(s, pass, b)| ==> Select(s, pass, b)[i] in s
  {
    if s != [] {
      SelectDigit(s[..|s| - 1], pass, b);
    }
  }

  lemma {:induction false} BucketedDigit(s: seq<SymFreq>, pass: nat, b: nat)
    ensures forall i :: 0 <= i < |Bucketed(s, pass, b)| ==> Digit(Bucketed(s, pass, b)[i], pass) < b
  {
    if b > 0 {
      BucketedDigit(s, pass, b - 1);
      SelectDigit(s, pass, b - 1);
    }
  }

  lemma {:induction false} FirstPassSorts(s: seq<SymFreq>, b: nat)
    ensures LowSorted(Bucketed(s, 0, b))
  {
    if b > 0 {
      FirstPassSorts(s, b - 1);
      BucketedDigit(s, 0, b - 1);
      SelectDigit(s, 0, b - 1);
    }
  }

  lemma {:induction false} SelectStable(s: seq<SymFreq>, b: nat)
    requires LowSorted(s)
    ensures LowSorted(Select(s, 1, b))
  {
    if s != [] {
      var n := |s| - 1;
      SelectStable(s[..n], b);
      SelectDigit(s[..n], 1, b);
      LastIsLargest(s);
      var r := Select(s[..n], 1, b);
      assert forall i :: 0 <= i < |r| ==> r[i] in s[..n];
    }
  }

  lemma LastIsLargest(s: seq<SymFreq>)
    requires LowSorted(s) && s != []
    ensures forall x :: x in s[..|s| - 1] ==> Digit(x, 0) <= Digit(s[|s| - 1], 0)
  {
  }

  lemma KeyFromDigits(x: SymFreq)
    ensures x.key == 256 * Digit(x, 1) + Digit(x, 0)
  {
  }

  lemma SelectKeySorted(s: seq<SymFreq>, b: nat)
    requires LowSorted(s)
    ensures KeySorted(Select(s, 1, b))
  {
    SelectStable(s, b);
    SelectDigit(s, 1, b);
    var r := Select(s, 1, b);
    forall i | 0 <= i < |r|
      ensures r[i].key == 256 * b + Digit(r[i], 0)
    {
      KeyFromDigits(r[i]);
    }
  }

  /** The second pass keeps the order of the first where the high digits agree. */
  lemma {:induction false} SecondPassSorts(s: seq<SymFreq>, b: nat)
    requires LowSorted(s)
    ensures KeySorted(Bucketed(s, 1, b))
  {
    if b > 0 {
      SecondPassSorts(s, b - 1);
      BucketedDigit(s, 1, b - 1);
      SelectKeySorted(s, b - 1);
      SelectDigit(s, 1, b - 1);
      var x, y := Bucketed(s, 1, b - 1), Select(s, 1, b - 1);
      hide Select, Digit, LowSorted;
      forall i | 0 <= i < |x|
        ensures x[i].key < 256 * (b - 1)
      {
        KeyFromDigits(x[i]);
      }
      forall i | 0 <= i < |y|
        ensures y[i].key >= 256 * (b - 1)
      {
        KeyFromDigits(y[i]);
      }
    }
  }

  lemma {:induction false} BucketsNest(s: seq<SymFreq>, pass: nat, a: nat, b: nat)
    requires a <= b
    ensures Bucketed(s, pass, a) <= Bucketed(s, pass, b)
    decreases b
  {
    if a < b {
      BucketsNest(s, pass, a, b - 1);
    }
  }

  lemma {:induction false} SelectGrows(s: seq<SymFreq>, i: nat, pass: nat, b: nat)
    requires i <= |s|
    ensures |Select(s[..i], pass, b)| <= |Select(s, pass, b)|
    ensures i < |s| && Digit(s[i], pass) == b ==> |Select(s[..i], pass, b)| < |Select(s, pass, b)|
    decreases |s|
  {
    if i < |s| {
      var n := |s| - 1;
      SelectGrows(s[..n], i, pass, b);
      assert s[..n][..i] == s[..i];
    } else {
      assert s[..i] == s;
    }
  }

  // ---- Scattering into place: bucket b starts where the entries with smaller digits end.

  ghost function Start(s: seq<SymFreq>, pass: nat, b: nat): nat {
    |Bucketed(s, pass, b)|
  }

  /** Bucket b holds what belongs there of the first i entries of s, ending at offset o. */
  ghost predicate InBucket(s: seq<SymFreq>, pass: nat, i: nat, out: seq<SymFreq>, o: nat, b: nat)
    requires i <= |s| <= |out|
  {
    && Start(s, pass, b) <= o <= Start(s, pass, b + 1) <= |s|
    && out[Start(s, pass, b)..o] == Select(s[..i], pass, b)
  }

  /** The first i entries of s are in their places, and offsets point just past them. */
  ghost predicate Scattered(s: seq<SymFreq>, pass: nat, i: nat, out: seq<SymFreq>, offsets: seq<nat>) {
    && i <= |s| <= |out| && |offsets| == 256
    && forall b :: 0 <= b < 256 ==> InBucket(s, pass, i, out, offsets[b], b)
  }

  lemma BucketRange(s: seq<SymFreq>, pass: nat, b: nat)
    requires b < 256
    ensures Start(s, pass, b + 1) == Start(s, pass, b) + |Select(s, pass, b)| <= |s|
  {
    BucketsNest(s, pass, b + 1, 256);
    BucketedAll(s, pass);
  }

  /** A write past the end of bucket b leaves it alone. */
  lemma OtherBucket(s: seq<SymFreq>, pass: nat, i: nat, out: seq<SymFreq>, o: nat, b: nat, p: nat)
    requires i < |s| <= |out| && InBucket(s, pass, i, out, o, b) && b != Digit(s[i], pass)
    requires p < |s| && Start(s, pass, Digit(s[i], pass)) <= p < Start(s, pass, Digit(s[i], pass) + 1)
    ensures InBucket(s, pass, i + 1, out[p := s[i]], o, b)
  {
    hide Digit, Start, Select, Bucketed;
    SelectSkip(s, i, pass, b);
    StartOrder(s, pass, b + 1, Digit(s[i], pass));
    StartOrder(s, pass, Digit(s[i], pass) + 1, b);
    SliceAway(out, Start(s, pass, b), o, p, s[i]);
  }

  lemma SelectSkip(s: seq<SymFreq>, i: nat, pass: nat, b: nat)
    requires i < |s| && b != Digit(s[i], pass)
    ensures Select(s[..i + 1], pass, b) == Select(s[..i], pass, b)
  {
    assert s[..i + 1][..i] == s[..i];
  }

  lemma StartOrder(s: seq<SymFreq>, pass: nat, a: nat, b: nat)
    ensures a <= b ==> Start(s, pass, a) <= Start(s, pass, b)
  {
    if a <= b {
      BucketsNest(s, pass, a, b);
    }
  }

  lemma SliceAway(out: seq<SymFreq>, a: nat, o: nat, p: nat, x: SymFreq)
    requires a <= o <= |out| && p < |out| && (p < a || o <= p)
    ensures out[p := x][a..o] == out[a..o]
  {
  }

  lemma SameBucket(s: seq<SymFreq>, pass: nat, i: nat, out: seq<SymFreq>, o: nat, b: nat)
    requires i < |s| <= |out| && InBucket(s, pass, i, out, o, b) && b == Digit(s[i], pass)
    ensures o < |s| && Start(s, pass, b) <= o < Start(s, pass, b + 1)
    ensures InBucket(s, pass, i + 1, out[o := s[i]], o + 1, b)
  {
    SelectGrows(s, i, pass, b);
    BucketRange(s, pass, b);
    assert s[..i + 1][..i] == s[..i];
  }

  lemma ScatterStep(s: seq<SymFreq>, pass: nat, i: nat, out: seq<SymFreq>, offsets: seq<nat>)
    requires Scattered(s, pass, i, out, offsets) && i < |s|
    ensures var b := Digit(s[i], pass);
      && offsets[b] < |s|
      && Scattered(s, pass, i + 1, out[offsets[b] := s[i]], offsets[b := offsets[b] + 1])
  {
    var d := Digit(s[i], pass);
    SameBucket(s, pass, i, out, offsets[d], d);
    hide Digit, InBucket;
    forall b | 0 <= b < 256 && b != d
      ensures InBucket(s, pass, i + 1, out[offsets[d] := s[i]], offsets[b], b)
    {
      assert InBucket(s, pass, i, out, offsets[b], b);
      OtherBucket(s, pass, i, out, offsets[b], b, offsets[d]);
    }
  }

  lemma {:induction false} ScatteredAll(s: seq<SymFreq>, pass: nat, out: seq<SymFreq>, offsets: seq<nat>, b: nat)
    requires Scattered(s, pass, |s|, out, offsets) && b <= 256
    ensures Start(s, pass, b) <= |out| && out[..Start(s, pass, b)] == Bucketed(s, pass, b)
  {
    if b > 0 {
      ScatteredAll(s, pass, out, offsets, b - 1);
      assert InBucket(s, pass, |s|, out, offsets[b - 1], b - 1);
      BucketRange(s, pass, b - 1);
      assert s[..|s|] == s;
      assert out[..Start(s, pass, b)] == out[..Start(s, pass, b - 1)] + out[Start(s, pass, b - 1)..Start(s, pass, b)];
    }
  }

  /** Entry k of hist counts the entries of s with digit k. */
  ghost predicate Histogram(s: seq<SymFreq>, pass: nat, hist: seq<nat>) {
    |hist| == 256 && forall b :: 0 <= b < 256 ==> hist[b] == |Select(s, pass, b)|
  }

  method BucketStarts(hist: seq<nat>, pass: nat, ghost s: seq<SymFreq>) returns (offsets: seq<nat>)
    requires Histogram(s, pass, hist)
    ensures |offsets| == 256 && forall b :: 0 <= b < 256 ==> offsets[b] == Start(s, pass, b)
  {
    offsets := [];
    var curOfs: nat := 0;
    while |offsets| < 256
      invariant |offsets| <= 256 && curOfs == Start(s, pass, |offsets|)
      invariant forall b :: 0 <= b < |offsets| ==> offsets[b] == Start(s, pass, b)
    {
      offsets, curOfs := offsets + [curOfs], curOfs + hist[|offsets|];
    }
  }

  /** One pass: a stable scatter by one digit. */
  method Pass(cur: array<SymFreq>, nxt: array<SymFreq>, n: nat, pass: nat, hist: seq<nat>)
    requires n <= cur.Length && n <= nxt.Length && cur != nxt
    requires Histogram(cur[..n], pass, hist)
    modifies nxt
    ensures nxt[..n] == Bucketed(cur[..n], pass, 256)
  {
    hide Histogram, Bucketed, Start, Digit, Scattered;
    ghost var s := cur[..n];
    var offsets := BucketStarts(hist, pass, s);
    StartScattered(s, pass, nxt[..], offsets);
    var i: nat := 0;
    while i < n
      invariant i <= n && cur[..n] == s && |offsets| == 256
      invariant Scattered(s, pass, i, nxt[..], offsets)
    {
      ScatterStep(s, pass, i, nxt[..], offsets);
      var d := Digit(cur[i], pass);
      assert cur[i] == s[i];
      nxt[offsets[d]] := cur[i];
      offsets := offsets[d := offsets[d] + 1];
      i := i + 1;
    }
    ScatteredEnd(s, pass, nxt[..], offsets);
    assert nxt[..n] == nxt[..][..n];
  }

  lemma ScatteredEnd(s: seq<SymFreq>, pass: nat, out: seq<SymFreq>, offsets: seq<nat>)
    requires Scattered(s, pass, |s|, out, offsets)
    ensures |s| <= |out| && out[..|s|] == Bucketed(s, pass, 256)
  {
    ScatteredAll(s, pass, out, offsets, 256);
    BucketedAll(s, pass);
  }

  lemma StartScattered(s: seq<SymFreq>, pass: nat, out: seq<SymFreq>, offsets: seq<nat>)
    requires |s| <= |out| && |offsets| == 256
    requires forall b :: 0 <= b < 256 ==> offsets[b] == Start(s, pass, b)
    ensures Scattered(s, pass, 0, out, offsets)
  {
    forall b | 0 <= b < 256
      ensures InBucket(s, pass, 0, out, offsets[b], b)
    {
      BucketRange(s, pass, b);
    }
  }

  /** Digit counts do not depend on order. */
  lemma {:induction false} SelectMultiset(s: seq<SymFreq>, pass: nat, b: nat, x: SymFreq)
    ensures multiset(Select(s, pass, b))[x] == if Digit(x, pass) == b then multiset(s)[x] else 0
  {
    if s != [] {
      var n := |s| - 1;
      SelectMultiset(s[..n], pass, b, x);
      assert s == s[..n] + [s[n]];
    }
  }

  lemma HistogramPermuted(s: seq<SymFreq>, t: seq<SymFreq>, pass: nat, hist: seq<nat>)
    requires multiset(s) == multiset(t) && Histogram(s, pass, hist)
    ensures Histogram(t, pass, hist)
  {
    forall b | 0 <= b < 256
      ensures |Select(s, pass, b)| == |Select(t, pass, b)|
    {
      forall x
        ensures multiset(Select(s, pass, b))[x] == multiset(Select(t, pass, b))[x]
      {
        SelectMultiset(s, pass, b, x);
        SelectMultiset(t, pass, b, x);
      }
      assert multiset(Select(s, pass, b)) == multiset(Select(t, pass, b));
      assert |multiset(Select(s, pass, b))| == |multiset(Select(t, pass, b))|;
    }
  }

  lemma HistogramStep(s: seq<SymFreq>, x: SymFreq, pass: nat, hist: seq<nat>)
    requires Histogram(s, pass, hist)
    ensures var d := Digit(x, pass); Histogram(s + [x], pass, hist[d := hist[d] + 1])
  {
    assert (s + [x])[..|s|] == s;
  }

  method CountDigits(syms: array<SymFreq>, n: nat) returns (hist0: seq<nat>, hist1: seq<nat>)
    requires n <= syms.Length
    ensures Histogram(syms[..n], 0, hist0) && Histogram(syms[..n], 1, hist1)
  {
    hist0 := seq(256, _ => 0);
    hist1 := seq(256, _ => 0);
    var i := 0;
    while i < n
      invariant 0 <= i <= n
      invariant Histogram(syms[..i], 0, hist0) && Histogram(syms[..i], 1, hist1)
    {
      HistogramStep(syms[..i], syms[i], 0, hist0);
      HistogramStep(syms[..i], syms[i], 1, hist1);
      assert syms[..i + 1] == syms[..i] + [syms[i]];
      var d0, d1 := Digit(syms[i], 0), Digit(syms[i], 1);
      hist0 := hist0[d0 := hist0[d0] + 1];
      hist1 := hist1[d1 := hist1[d1] + 1];
      i := i + 1;
    }
  }

  /** Sorted by frequency, and the same symbols. */
  ghost predicate SortedVersion(s: seq<SymFreq>, r: seq<SymFreq>) {
    KeySorted(r) && multiset(r) == multiset(s)
  }

  method RadixSortSyms(n: nat, syms0: array<SymFreq>, syms1: array<SymFreq>) returns (sorted: array<SymFreq>)
    requires n <= syms0.Length && n <= syms1.Length && syms0 != syms1
    modifies syms0, syms1
    ensures sorted == syms0 || sorted == syms1
    ensures SortedVersion(old(syms0[..n]), sorted[..n])
  {
    hide Histogram, Bucketed, SortedVersion, LowSorted;
    ghost var s := syms0[..n];
    var hist0, hist1 := CountDigits(syms0, n);
    // One pass is enough when every high digit is zero.
    var onePass := HighDigitsZero(n, hist1, s);
    Pass(syms0, syms1, n, 0, hist0);
    ghost var t := syms1[..n];
    FirstPassSorts(s, 256);
    BucketedAll(s, 0);
    if onePass {
      OnePassEnough(s, t);
      return syms1;
    }
    HistogramPermuted(s, t, 1, hist1);
    Pass(syms1, syms0, n, 1, hist1);
    TwoPassesSort(s, t);
    return syms0;
  }

  method HighDigitsZero(n: nat, hist1: seq<nat>, ghost s: seq<SymFreq>) returns (zero: bool)
    requires Histogram(s, 1, hist1) && |s| == n
    ensures zero ==> forall x :: x in s ==> Digit(x, 1) == 0
  {
    AllLow(s);
    return n == hist1[0];
  }

  lemma OnePassEnough(s: seq<SymFreq>, t: seq<SymFreq>)
    requires LowSorted(t) && multiset(t) == multiset(s)
    requires forall x :: x in s ==> Digit(x, 1) == 0
    ensures SortedVersion(s, t)
  {
    forall i | 0 <= i < |t|
      ensures t[i].key == Digit(t[i], 0)
    {
      assert t[i] in multiset(t);
      assert t[i] in s;
      KeyFromDigits(t[i]);
    }
  }

  lemma TwoPassesSort(s: seq<SymFreq>, t: seq<SymFreq>)
    requires LowSorted(t) && multiset(t) == multiset(s)
    ensures SortedVersion(s, Bucketed(t, 1, 256))
  {
    SecondPassSorts(t, 256);
    BucketedAll(t, 1);
  }

  lemma {:induction false} AllLow(s: seq<SymFreq>)
    ensures |Select(s, 1, 0)| == |s| ==> forall x :: x in s ==> Digit(x, 1) == 0
  {
    if s != [] {
      var n := |s| - 1;
      AllLow(s[..n]);
      assert s == s[..n] + [s[n]];
    }
  }
}
