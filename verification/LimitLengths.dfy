/** Cutting a complete code down to a longest length, on the numbers of codes of each length
    (libs/fpng/fpng.cpp:665-679). */
module LimitLengths {
  import opened Arith
  import opened Bits
  import opened Canonical

  /** DEFL_MAX_SUPPORTED_HUFF_CODESIZE */
  const MAX_SUPPORTED: nat := 32

  /** The Kraft sum of c[i] codes of each length i <= l, in units of 2^-l. */
  function CountKraft(c: seq<int>, l: nat): int
    requires l < |c|
  {
    if l == 0 then 0 else 2 * CountKraft(c, l - 1) + c[l]
  }

  /** How many codes have lengths from..to. */
  function Codes(c: seq<int>, lo: nat, hi: nat): int
    requires hi < |c|
    decreases hi
  {
    if hi < lo || hi == 0 then 0 else Codes(c, lo, hi - 1) + c[hi]
  }

  ghost predicate NonNegative(c: seq<int>) {
    forall i :: 0 <= i < |c| ==> c[i] >= 0
  }

  lemma {:induction false} KraftUpdate(c: seq<int>, l: nat, i: nat, v: int)
    requires 1 <= i < |c| && l < |c|
    ensures CountKraft(c[i := v], l) == CountKraft(c, l) + if i <= l then (v - c[i]) * Pow2(l - i) else 0
  {
    if l > 0 {
      KraftUpdate(c, l - 1, i, v);
      if i < l {
        assert (v - c[i]) * Pow2(l - i) == 2 * ((v - c[i]) * Pow2(l - 1 - i)) by {
          MulTwoInt(v - c[i], Pow2(l - 1 - i));
        }
      }
    }
  }

  lemma MulTwoInt(b: int, p: nat)
    ensures b * (2 * p) == 2 * (b * p)
  {
  }

  lemma {:induction false} CodesUpdate(c: seq<int>, lo: nat, hi: nat, i: nat, v: int)
    requires 1 <= i < |c| && hi < |c|
    ensures Codes(c[i := v], lo, hi) == Codes(c, lo, hi) + if lo <= i <= hi then v - c[i] else 0
    decreases hi
  {
    if !(hi < lo || hi == 0) {
      CodesUpdate(c, lo, hi - 1, i, v);
    }
  }

  lemma {:induction false} CodesPositive(c: seq<int>, lo: nat, hi: nat)
    requires hi < |c| && NonNegative(c)
    ensures Codes(c, lo, hi) >= 0
    decreases hi
  {
    if !(hi < lo || hi == 0) {
      CodesPositive(c, lo, hi - 1);
    }
  }

  lemma {:induction false} CodesSplit(c: seq<int>, m: nat, hi: nat)
    requires m <= hi < |c|
    ensures Codes(c, 1, hi) == Codes(c, 1, m) + Codes(c, m + 1, hi)
    decreases hi
  {
    if m < hi {
      CodesSplit(c, m, hi - 1);
    }
  }

  /** What the codes longer than m are worth: they leave the Kraft sum at m below a full one, but
      by less than one unit each, and by at most half a unit each. */
  lemma {:induction false} LongCodes(c: seq<int>, m: nat, l: nat)
    requires m <= l < |c| && NonNegative(c)
    ensures var r := CountKraft(c, l) - CountKraft(c, m) * Pow2(l - m);
      && 0 <= r && 2 * r <= Codes(c, m + 1, l) * Pow2(l - m)
      && (Codes(c, m + 1, l) > 0 ==> r > 0)
    decreases l
  {
    if m < l {
      LongCodes(c, m, l - 1);
      var p, k, f := Pow2(l - 1 - m), CountKraft(c, m), Codes(c, m + 1, l - 1);
      assert Pow2(l - m) == 2 * p;
      MulTwoInt(k, p);
      assert k * (2 * p) == 2 * (k * p);
      CodesPositive(c, m + 1, l - 1);
      assert (f + c[l]) * (2 * p) == 2 * (f * p) + 2 * (c[l] * p) by {
        MulTwoInt(f + c[l], p);
      }
      MulMonotone(1, p, c[l]);
    } else {
      assert Pow2(0) == 1;
    }
  }

  /** A complete code whose longer codes are all cut to length m: too full by less than the number
      of codes now at length m. */
  lemma FoldedExcess(c: seq<int>, m: nat)
    requires |c| == MAX_SUPPORTED + 1 && 1 <= m <= MAX_SUPPORTED && NonNegative(c)
    requires CountKraft(c, MAX_SUPPORTED) == Pow2(MAX_SUPPORTED)
    ensures var f := Codes(c, m + 1, MAX_SUPPORTED);
      var e := CountKraft(c, m) + f - Pow2(m);
      0 <= e && (e < f || (e == 0 && f == 0))
  {
    var f, k, p := Codes(c, m + 1, MAX_SUPPORTED), CountKraft(c, m), Pow2(MAX_SUPPORTED - m);
    LongCodes(c, m, MAX_SUPPORTED);
    CodesPositive(c, m + 1, MAX_SUPPORTED);
    Pow2Add(m, MAX_SUPPORTED - m);
    hide Pow2, CountKraft, Codes;
    ExcessArith(k, f, p, Pow2(m));
  }

  lemma ExcessArith(k: int, f: int, p: int, q: int)
    requires p >= 1 && f >= 0
    requires 0 <= q * p - k * p && 2 * (q * p - k * p) <= f * p
    requires f > 0 ==> q * p - k * p > 0
    ensures 0 <= k + f - q && (k + f - q < f || (k + f - q == 0 && f == 0))
  {
    var d := q - k;
    assert d * p == q * p - k * p;
    assert (2 * d) * p == 2 * (d * p);
    MulCancel(2 * d, f, p);
    assert 0 * p <= d * p;
    MulCancel(0, d, p);
  }

  ghost predicate Limited(c: seq<int>, m: nat, n: int, total: int) {
    && |c| == MAX_SUPPORTED + 1 && 1 <= m <= MAX_SUPPORTED && NonNegative(c)
    && CountKraft(c, m) == total && Codes(c, 1, m) == n
    && total >= Pow2(m) && (total > Pow2(m) ==> total - Pow2(m) < c[m])
  }

  /** Only length m in use: the Kraft sum is the number of codes. */
  lemma {:induction false} OnlyLongest(c: seq<int>, l: nat)
    requires l < |c| && forall i :: 1 <= i <= l ==> c[i] == 0
    ensures CountKraft(c, l) == 0 && Codes(c, 1, l) == 0
  {
    if l > 0 {
      OnlyLongest(c, l - 1);
    }
  }

  /** While the code is too full and there is room for all codes at length m, some code is shorter. */
  lemma ShorterExists(c: seq<int>, m: nat, n: int, total: int)
    requires Limited(c, m, n, total) && total > Pow2(m) && n <= Pow2(m)
    ensures exists i :: 1 <= i < m && c[i] > 0
  {
    if forall i :: 1 <= i < m ==> c[i] <= 0 {
      OnlyLongest(c, m - 1);
    }
  }

  /** One step: a longest code goes, the longest shorter code is split in two. */
  lemma SplitStep(c: seq<int>, m: nat, n: int, total: int, i: nat)
    requires Limited(c, m, n, total) && total > Pow2(m) && 1 <= i < m && c[i] > 0
    ensures var c1 := c[m := c[m] - 1];
      var c2 := c1[i := c1[i] - 1];
      Limited(c2[i + 1 := c2[i + 1] + 2], m, n, total - 1)
  {
    hide CountKraft, Codes, Pow2, NonNegative;
    var c1 := c[m := c[m] - 1];
    var c2 := c1[i := c1[i] - 1];
    KraftBy(c, m, m, -1);
    KraftBy(c1, m, i, -1);
    KraftBy(c2, m, i + 1, 2);
    CodesUpdate(c, 1, m, m, c[m] - 1);
    CodesUpdate(c1, 1, m, i, c1[i] - 1);
    CodesUpdate(c2, 1, m, i + 1, c2[i + 1] + 2);
    HalfPow(m - i);
    SplitNonNegative(c, m, i);
  }

  lemma KraftBy(c: seq<int>, l: nat, i: nat, d: int)
    requires 1 <= i <= l < |c|
    ensures CountKraft(c[i := c[i] + d], l) == CountKraft(c, l) + d * Pow2(l - i)
  {
    hide CountKraft, Pow2;
    KraftUpdate(c, l, i, c[i] + d);
  }

  lemma HalfPow(k: nat)
    requires k > 0
    ensures Pow2(0) == 1 && Pow2(k) == 2 * Pow2(k - 1)
  {
  }

  lemma SplitNonNegative(c: seq<int>, m: nat, i: nat)
    requires NonNegative(c) && 1 <= i < m < |c| && c[i] > 0 && c[m] > 0
    ensures var c1 := c[m := c[m] - 1];
      var c2 := c1[i := c1[i] - 1];
      NonNegative(c2[i + 1 := c2[i + 1] + 2])
  {
  }

  lemma TotalStep(c: seq<int>, i: nat, m: nat)
    requires 1 <= i <= m < |c|
    ensures CountKraft(c, i) * Pow2(m - i)
         == c[i] * Pow2(m - i) + CountKraft(c, i - 1) * Pow2(m - (i - 1))
  {
    MulTwoInt(CountKraft(c, i - 1), Pow2(m - i));
    assert (2 * CountKraft(c, i - 1) + c[i]) * Pow2(m - i)
        == 2 * CountKraft(c, i - 1) * Pow2(m - i) + c[i] * Pow2(m - i);
  }

  /** Counts every longer code as one of length m. */
  method FoldLonger(numCodes: array<int>, m: nat)
    requires numCodes.Length == MAX_SUPPORTED + 1 && 1 <= m <= MAX_SUPPORTED
    modifies numCodes
    ensures var c := old(numCodes[..]);
      numCodes[..] == c[m := c[m] + Codes(c, m + 1, MAX_SUPPORTED)]
  {
    ghost var c := numCodes[..];
    var i := m + 1;
    while i <= MAX_SUPPORTED
      invariant m + 1 <= i <= MAX_SUPPORTED + 1
      invariant numCodes[..] == c[m := c[m] + Codes(c, m + 1, i - 1)]
    {
      numCodes[m] := numCodes[m] + numCodes[i];
      i := i + 1;
    }
  }

  method KraftTotal(numCodes: array<int>, m: nat) returns (total: int)
    requires m < numCodes.Length
    ensures total == CountKraft(numCodes[..], m)
  {
    ghost var c := numCodes[..];
    assert Pow2(0) == 1;
    total := 0;
    var i := m;
    while i > 0
      invariant 0 <= i <= m
      invariant total + CountKraft(c, i) * Pow2(m - i) == CountKraft(c, m)
    {
      TotalStep(c, i, m);
      total := total + numCodes[i] * Pow2(m - i);
      i := i - 1;
    }
  }

  lemma KraftTop(c: seq<int>, m: nat, v: int)
    requires 1 <= m < |c|
    ensures CountKraft(c[m := v], m) == CountKraft(c, m) + v - c[m]
    ensures Codes(c[m := v], 1, m) == Codes(c, 1, m) + v - c[m]
  {
    KraftUpdate(c, m - 1, m, v);
    CodesUpdate(c, 1, m, m, v);
  }

  lemma FoldedLimited(c: seq<int>, m: nat, n: int)
    requires |c| == MAX_SUPPORTED + 1 && 1 <= m <= MAX_SUPPORTED && NonNegative(c)
    requires CountKraft(c, MAX_SUPPORTED) == Pow2(MAX_SUPPORTED)
    requires Codes(c, 1, MAX_SUPPORTED) == n
    ensures var c1 := c[m := c[m] + Codes(c, m + 1, MAX_SUPPORTED)];
      Limited(c1, m, n, CountKraft(c1, m))
  {
    hide CountKraft, Codes, Pow2;
    var v := c[m] + Codes(c, m + 1, MAX_SUPPORTED);
    FoldedExcess(c, m);
    CodesSplit(c, m, MAX_SUPPORTED);
    CodesPositive(c, m + 1, MAX_SUPPORTED);
    KraftTop(c, m, v);
  }

  /** One round of the limiting loop. */
  method SplitShorter(numCodes: array<int>, m: nat, ghost n: nat, ghost total: int)
    requires numCodes.Length == MAX_SUPPORTED + 1
    requires Limited(numCodes[..], m, n, total) && total > Pow2(m) && n <= Pow2(m)
    modifies numCodes
    ensures Limited(numCodes[..], m, n, total - 1)
  {
    ghost var c := numCodes[..];
    ShorterExists(c, m, n, total);
    assert 1 <= m <= MAX_SUPPORTED && NonNegative(c);
    numCodes[m] := numCodes[m] - 1;
    var i := m - 1;
    hide Limited;
    while i > 0 && numCodes[i] == 0
      invariant 0 <= i <= m - 1
      invariant numCodes[..] == c[m := c[m] - 1]
      invariant forall j :: i < j < m ==> c[j] == 0
    {
      i := i - 1;
    }
    SplitStep(c, m, n, total, i);
    numCodes[i] := numCodes[i] - 1;
    numCodes[i + 1] := numCodes[i + 1] + 2;
  }

  method EnforceMaxCodeSize(numCodes: array<int>, n: nat, m: nat)
    requires numCodes.Length == MAX_SUPPORTED + 1 && 1 <= m <= MAX_SUPPORTED
    requires NonNegative(numCodes[..])
    requires n > 1 ==> CountKraft(numCodes[..], MAX_SUPPORTED) == Pow2(MAX_SUPPORTED)
    requires n > 1 ==> Codes(numCodes[..], 1, MAX_SUPPORTED) == n <= Pow2(m)
    modifies numCodes
    ensures n <= 1 ==> numCodes[..] == old(numCodes[..])
    ensures n > 1 ==> Limited(numCodes[..], m, n, Pow2(m))
  {
    hide *;
    if n <= 1 {
      return;
    }
    ghost var c := numCodes[..];
    FoldedLimited(c, m, n);
    FoldLonger(numCodes, m);
    SplitDown(numCodes, m, n);
  }

  /** The rounds of the limiting loop. */
  method SplitDown(numCodes: array<int>, m: nat, n: nat)
    requires numCodes.Length == MAX_SUPPORTED + 1 && 1 <= m <= MAX_SUPPORTED
    requires Limited(numCodes[..], m, n, CountKraft(numCodes[..], m)) && n <= Pow2(m)
    modifies numCodes
    ensures Limited(numCodes[..], m, n, Pow2(m))
  {
    hide CountKraft, Codes, Pow2, NonNegative;
    var total := KraftTotal(numCodes, m);
    while total != Pow2(m)
      invariant Limited(numCodes[..], m, n, total)
      decreases total
    {
      SplitShorter(numCodes, m, n, total);
      total := total - 1;
    }
  }
}
