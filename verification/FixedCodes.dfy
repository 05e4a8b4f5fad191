/** The fixed Huffman codes of section 3.2.6 of RFC 1951: the code values that the tables there list
    follow from the code lengths, and both codes are complete. */
module FixedCodes {
  import opened Arith
  import opened Bits
  import opened Canonical
  import opened Inflate

  function FixedLength(s: nat): nat {
    if s < 144 then 8 else if s < 256 then 9 else if s < 280 then 7 else 8
  }

  lemma FixedAt(s: nat)
    requires s < 288
    ensures |FIXED.lit| == 288 && FIXED.lit[s] == FixedLength(s)
  {
    hide Repeat;
    var a, b, c, d := Repeat(8, 144), Repeat(9, 112), Repeat(7, 24), Repeat(8, 8);
    assert FIXED.lit == a + b + c + d;
    assert s < 144 ==> FIXED.lit[s] == a[s];
    assert 144 <= s < 256 ==> FIXED.lit[s] == b[s - 144];
    assert 256 <= s < 280 ==> FIXED.lit[s] == c[s - 256];
    assert 280 <= s < 288 ==> FIXED.lit[s] == d[s - 280];
  }

  lemma FixedDistAt(s: nat)
    requires s < 32
    ensures |FIXED.dist| == 32 && FIXED.dist[s] == 5
  {
    hide Repeat;
  }

  function Clamp(x: int, n: nat): nat {
    if x < 0 then 0 else if x > n then n else x
  }

  /** How many of the first s literal codes have length l. */
  function FixedCount(s: nat, l: nat): nat {
    if l == 7 then Clamp(s - 256, 24)
    else if l == 8 then Clamp(s, 144) + Clamp(s - 280, 8)
    else if l == 9 then Clamp(s - 144, 112)
    else 0
  }

  lemma {:induction false} LitCounts(s: nat, l: nat)
    requires s <= 288
    ensures |FIXED.lit| == 288 && Count(FIXED.lit[..s], l) == FixedCount(s, l)
  {
    hide Repeat;
    FixedAt(0);
    if s > 0 {
      LitCounts(s - 1, l);
      FixedAt(s - 1);
      var t := FIXED.lit[..s];
      assert t[..s - 1] == FIXED.lit[..s - 1] && t[s - 1] == FIXED.lit[s - 1];
    }
  }

  lemma {:induction false} DistCounts(s: nat, l: nat)
    requires s <= 32
    ensures |FIXED.dist| == 32 && Count(FIXED.dist[..s], l) == if l == 5 then s else 0
  {
    hide Repeat;
    FixedDistAt(0);
    if s > 0 {
      DistCounts(s - 1, l);
      FixedDistAt(s - 1);
      var t := FIXED.dist[..s];
      assert t[..s - 1] == FIXED.dist[..s - 1] && t[s - 1] == FIXED.dist[s - 1];
    }
  }

  lemma AllCounts(l: nat)
    ensures Count(FIXED.lit, l) == FixedCount(288, l) && Count(FIXED.dist, l) == if l == 5 then 32 else 0
  {
    hide Repeat, Count;
    LitCounts(288, l);
    DistCounts(32, l);
    assert FIXED.lit[..288] == FIXED.lit && FIXED.dist[..32] == FIXED.dist;
  }

  lemma {:induction false} NoShortCodes(lens: seq<nat>, l: nat)
    requires forall k :: 1 <= k < l ==> Count(lens, k) == 0
    ensures NextCode(lens, l) == 0
  {
    if l > 1 {
      NoShortCodes(lens, l - 1);
    }
  }

  /** Where the codes of each length start. */
  lemma FixedNext()
    ensures NextCode(FIXED.lit, 7) == 0 && NextCode(FIXED.lit, 8) == 0x30 && NextCode(FIXED.lit, 9) == 0x190
    ensures NextCode(FIXED.dist, 5) == 0
  {
    hide Repeat, Count;
    forall k | 1 <= k < 7
      ensures Count(FIXED.lit, k) == 0
    {
      AllCounts(k);
    }
    forall k | 1 <= k < 5
      ensures Count(FIXED.dist, k) == 0
    {
      AllCounts(k);
    }
    NoShortCodes(FIXED.lit, 7);
    NoShortCodes(FIXED.dist, 5);
    AllCounts(7);
    AllCounts(8);
  }

  /** The table of section 3.2.6. */
  function FixedCode(s: nat): nat
    requires s < 288
  {
    if s < 144 then 0x30 + s else if s < 256 then 0x190 + (s - 144) else if s < 280 then s - 256 else 0xC0 + (s - 280)
  }

  lemma LitWord(s: nat)
    requires s < 288
    ensures |FIXED.lit| == 288 && FIXED.lit[s] == FixedLength(s)
    ensures Codeword(FIXED.lit, s) == MsbBits(FixedCode(s), FixedLength(s))
  {
    hide Repeat, Count, NextCode, MsbBits;
    FixedAt(s);
    FixedNext();
    LitCounts(s, FixedLength(s));
  }

  lemma DistWord(s: nat)
    requires s < 32
    ensures |FIXED.dist| == 32 && FIXED.dist[s] == 5 && Codeword(FIXED.dist, s) == MsbBits(s, 5)
  {
    hide Repeat, Count, NextCode, MsbBits;
    FixedDistAt(s);
    FixedNext();
    DistCounts(s, 5);
  }

  /** No code space is used twice, and none is left over. */
  lemma FixedComplete()
    ensures Complete(FIXED.lit, 9) && Complete(FIXED.dist, 5)
  {
    hide Repeat, Count, NextCode, Kraft;
    forall s | 0 <= s < |FIXED.lit|
      ensures FIXED.lit[s] <= 9
    {
      FixedAt(0);
      FixedAt(s);
    }
    forall s | 0 <= s < |FIXED.dist|
      ensures FIXED.dist[s] <= 5
    {
      FixedDistAt(0);
      FixedDistAt(s);
    }
    FixedNext();
    FirstFree(FIXED.lit, 9);
    FirstFree(FIXED.dist, 5);
    AllCounts(9);
    AllCounts(5);
    Pow2Values();
  }

  lemma FixedDecodable()
    ensures Decodable(FIXED.lit, 9) && Decodable(FIXED.dist, 5)
  {
    FixedComplete();
    hide Kraft, Repeat;
  }
}
