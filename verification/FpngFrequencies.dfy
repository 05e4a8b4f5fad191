/** Symbol frequencies of an image and their reduction to 16 bits (libs/fpng/fpng.cpp:868-907). */
module FpngFrequencies {
  import opened Arith
  import opened Canonical
  import opened MinimumRedundancy

  /** Sums of non-negative numbers grow with their parts. */
  lemma {:induction false} SumUpdate(s: seq<nat>, i: nat, v: nat)
    requires i < |s|
    ensures Sum(s[i := v]) == Sum(s) + v - s[i]
  {
    if i == 0 {
      assert s[0 := v][1..] == s[1..];
    } else {
      SumUpdate(s[1..], i - 1, v);
      assert s[i := v][1..] == s[1..][i - 1 := v];
    }
  }

  lemma {:induction false} EntryBelowSum(s: seq<nat>, i: nat)
    requires i < |s|
    ensures s[i] <= Sum(s)
  {
    if i > 0 {
      EntryBelowSum(s[1..], i - 1);
    }
  }

  lemma {:induction false} SumZeros(n: nat)
    ensures Sum(Zeros(n)) == 0
  {
    if n > 0 {
      SumZeros(n - 1);
      assert Zeros(n)[1..] == Zeros(n - 1);
    }
  }

  /** The share of f in total, out of 0xFFFF, but at least one. */
  function Scaled(f: nat, total: nat): (r: uint16)
    requires 0 < f <= total
    ensures r >= 1
  {
    ScaledFits(f, total);
    var r := f * 0xFFFF / total;
    if r > 1 then r else 1
  }

  lemma ScaledFits(f: nat, total: nat)
    requires 0 < f <= total
    ensures 0 <= f * 0xFFFF / total <= 0xFFFF
    ensures (f * 0xFFFF / total) * total <= f * 0xFFFF
  {
    DivAtLeast(f * 0xFFFF, 0x10000, total);
    DivAtLeast(f * 0xFFFF, f * 0xFFFF / total, total);
  }

  /** x is f's part of 0xFFFF, rounded down, but at least one. */
  ghost predicate Share(f: nat, total: nat, x: nat) {
    if f == 0 then x == 0 else x >= 1 && (x == 1 || x * total <= f * 0xFFFF) && f * 0xFFFF < (x + 1) * total
  }

  lemma ScaledShare(f: nat, total: nat)
    requires 0 < f <= total
    ensures Share(f, total, Scaled(f, total))
  {
    var q := f * 0xFFFF / total;
    ScaledFits(f, total);
    DivBelow(f * 0xFFFF, total);
    MulMonotone(q + 1, Scaled(f, total) + 1, total);
  }

  lemma DivBelow(n: nat, d: nat)
    requires d > 0
    ensures n < (n / d + 1) * d
  {
    assert n == n / d * d + n % d;
  }

  /** 16-bit frequencies: each the original's share of 0xFFFF, and barely above 0xFFFF in total. */
  ghost predicate Reduced(freq: seq<nat>, freq16: seq<uint16>) {
    && |freq16| == |freq|
    && (forall i :: 0 <= i < |freq| ==> Share(freq[i], Sum(freq), freq16[i]))
    && Sum(freq16) <= 0xFFFF + |freq|
  }

  lemma ShareStep(sum: int, acc: int, k: nat, f: nat, total: nat, x: nat)
    requires (acc - k) * total <= 0xFFFF * sum && total > 0
    requires f == 0 ==> x == 0
    requires f > 0 ==> f <= total && x == Scaled(f, total)
    ensures (acc + x - (k + 1)) * total <= 0xFFFF * (sum + f)
  {
    if f > 0 {
      ScaledFits(f, total);
      MulMonotone(x - 1, f * 0xFFFF / total, total);
      assert (x - 1) * total <= f * 0xFFFF;
    }
    assert (acc + x - (k + 1)) * total == (acc - k) * total + (x - 1) * total;
  }

  /** total_freq is a 32-bit sum: it does not wrap for images whose size fits 32 bits. */
  method AdjustFreq32(freq0: seq<nat>) returns (freq16: seq<uint16>, freq: seq<nat>)
    requires |freq0| <= 0xFFFF && Sum(freq0) < 0x1_0000_0000
    ensures Reduced(freq0, freq16)
  {
    freq := freq0;
    var total := Total(freq0);
    if total == 0 {
      freq16 := ZeroFreq(freq0);
      return;
    }
    var total16: nat := 0;
    freq16 := [];
    while |freq16| < |freq0|
      invariant |freq16| <= |freq0| && total16 == Sum(freq16)
      invariant forall i :: 0 <= i < |freq16| ==> Share(freq0[i], total, freq16[i])
      invariant (total16 - |freq16|) * total <= 0xFFFF * Sum(freq0[..|freq16|])
    {
      var i := |freq16|;
      EntryBelowSum(freq0, i);
      var x: uint16 := if freq0[i] == 0 then 0 else Scaled(freq0[i], total);
      if freq0[i] > 0 {
        ScaledShare(freq0[i], total);
      }
      ShareStep(Sum(freq0[..i]), total16, i, freq0[i], total, x);
      SumSnoc(freq0[..i], freq0[i]);
      assert freq0[..i + 1] == freq0[..i] + [freq0[i]];
      SumSnoc(freq16, x);
      assert Share(freq0[i], total, x);
      hide Sum, Scaled, Share;
      freq16 := freq16 + [x];
      total16 := total16 + x;
    }
    assert freq0[..|freq16|] == freq0;
    MulCancel(total16 - |freq0|, 0xFFFF, total);
    freq := Halve(freq0, total16);
  }

  method Total(freq: seq<nat>) returns (total: nat)
    ensures total == Sum(freq)
  {
    total := 0;
    var i := 0;
    assert freq[..0] == [];
    while i < |freq|
      invariant 0 <= i <= |freq| && total == Sum(freq[..i])
    {
      SumSnoc(freq[..i], freq[i]);
      assert freq[..i + 1] == freq[..i] + [freq[i]];
      total := total + freq[i];
      i := i + 1;
    }
    assert freq[..i] == freq;
  }

  method ZeroFreq(freq: seq<nat>) returns (freq16: seq<uint16>)
    requires Sum(freq) == 0
    ensures Reduced(freq, freq16)
  {
    forall i | 0 <= i < |freq|
      ensures freq[i] == 0
    {
      EntryBelowSum(freq, i);
    }
    freq16 := [];
    while |freq16| < |freq|
      invariant |freq16| <= |freq| && Sum(freq16) == 0
      invariant forall i :: 0 <= i < |freq16| ==> freq16[i] == 0
    {
      SumSnoc(freq16, 0);
      freq16 := freq16 + [0];
    }
  }

  /** Every nonzero frequency halved, but kept above zero. */
  function Halved(freq: seq<nat>): (r: seq<nat>)
    ensures |r| == |freq|
  {
    if freq == [] then [] else [if freq[0] > 1 then freq[0] / 2 else freq[0]] + Halved(freq[1..])
  }

  lemma {:induction false} HalvedSmaller(freq: seq<nat>)
    ensures Sum(Halved(freq)) <= Sum(freq)
    ensures Sum(freq) > |freq| ==> Sum(Halved(freq)) < Sum(freq)
  {
    if freq != [] {
      HalvedSmaller(freq[1..]);
      assert Halved(freq)[1..] == Halved(freq[1..]);
    }
  }

  /** The closing loop of adjust_freq32. It halves the 32-bit frequencies, which nobody reads again,
      and never touches the 16-bit ones; it ends because they keep shrinking. */
  method Halve(freq0: seq<nat>, total0: nat) returns (freq: seq<nat>)
    requires |freq0| <= 0xFFFF
    ensures total0 <= 0xFFFF ==> freq == freq0
  {
    freq := freq0;
    var total16 := total0;
    var first := true;
    while total16 > 0xFFFF
      invariant |freq| == |freq0| && (first ==> freq == freq0 && total16 == total0)
      invariant !first ==> total16 == Sum(freq) && total0 > 0xFFFF
      decreases first, Sum(freq)
    {
      HalvedSmaller(freq);
      freq := Halved(freq);
      total16 := Total(freq);
      first := false;
    }
  }
}
