/** Bit sequences, least significant bit first, and the byte strings that carry them.
    Section 3.1.1 of RFC 1951 packs bits into bytes starting at the least significant bit, and
    packs Huffman codes starting at their most significant bit; both orders are defined here. */
module Bits {
  import opened Arith

  type byte = x: int | 0 <= x < 256

  function Pow2(n: nat): (p: nat)
    ensures p >= 1
  {
    if n == 0 then 1 else 2 * Pow2(n - 1)
  }

  /** The powers that sizes in the formats come to. */
  lemma Pow2Values()
    ensures Pow2(0) == 1 && Pow2(1) == 2 && Pow2(2) == 4 && Pow2(3) == 8 && Pow2(4) == 16 && Pow2(5) == 32
    ensures Pow2(7) == 128 && Pow2(8) == 256 && Pow2(9) == 512 && Pow2(12) == 4096 && Pow2(15) == 32768
  {
    assert Pow2(0) == 1 && Pow2(1) == 2 * Pow2(0) && Pow2(2) == 2 * Pow2(1) && Pow2(3) == 2 * Pow2(2);
    assert Pow2(4) == 2 * Pow2(3) && Pow2(5) == 2 * Pow2(4) && Pow2(6) == 2 * Pow2(5) && Pow2(7) == 2 * Pow2(6);
    assert Pow2(8) == 2 * Pow2(7) && Pow2(9) == 2 * Pow2(8) && Pow2(10) == 2 * Pow2(9) && Pow2(11) == 2 * Pow2(10);
    assert Pow2(12) == 2 * Pow2(11) && Pow2(13) == 2 * Pow2(12) && Pow2(14) == 2 * Pow2(13) && Pow2(15) == 2 * Pow2(14);
  }

  lemma {:induction false} Pow2Add(a: nat, b: nat)
    ensures Pow2(a + b) == Pow2(a) * Pow2(b)
  {
    if b != 0 {
      Pow2Add(a, b - 1);
    }
  }

  lemma {:induction false} Pow2Monotone(a: nat, b: nat)
    requires a <= b
    ensures Pow2(a) <= Pow2(b)
  {
    if a < b {
      Pow2Monotone(a, b - 1);
    }
  }

  /** The n low bits of v, least significant first. */
  function ToBits(v: nat, n: nat): (s: seq<bool>)
    ensures |s| == n
  {
    if n == 0 then [] else [v % 2 == 1] + ToBits(v / 2, n - 1)
  }

  function FromBits(s: seq<bool>): (v: nat)
    ensures v < Pow2(|s|)
  {
    if s == [] then 0 else (if s[0] then 1 else 0) + 2 * FromBits(s[1..])
  }

  /** The n low bits of v, most significant first: the order in which a Huffman code is sent. */
  function MsbBits(v: nat, n: nat): (s: seq<bool>)
    ensures |s| == n
  {
    if n == 0 then [] else MsbBits(v / 2, n - 1) + [v % 2 == 1]
  }

  function ByteBits(bytes: seq<byte>): (s: seq<bool>)
    ensures |s| == 8 * |bytes|
  {
    if bytes == [] then [] else ToBits(bytes[0], 8) + ByteBits(bytes[1..])
  }

  /** Little-endian value of a byte string. */
  function LeValue(bytes: seq<byte>): nat {
    if bytes == [] then 0 else bytes[0] + 256 * LeValue(bytes[1..])
  }

  lemma {:induction false} FromToBits(v: nat, n: nat)
    ensures FromBits(ToBits(v, n)) == v % Pow2(n)
  {
    if n != 0 {
      FromToBits(v / 2, n - 1);
      assert ToBits(v, n)[1..] == ToBits(v / 2, n - 1);
      ModStep(v, Pow2(n - 1));
    }
  }

  lemma {:induction false} FromToBitsFits(v: nat, n: nat)
    requires v < Pow2(n)
    ensures FromBits(ToBits(v, n)) == v
  {
    if n != 0 {
      FromToBitsFits(v / 2, n - 1);
      assert ToBits(v, n)[1..] == ToBits(v / 2, n - 1);
    }
  }

  lemma ModStep(v: nat, m: nat)
    requires m >= 1
    ensures v % (2 * m) == v % 2 + 2 * ((v / 2) % m)
  {
    var q, r := (v / 2) / m, (v / 2) % m;
    assert v / 2 == q * m + r;
    assert v == 2 * (q * m + r) + v % 2;
    assert v == q * (2 * m) + (2 * r + v % 2);
    assert 0 <= 2 * r + v % 2 < 2 * m;
    DivModUnique(v, 2 * m, q, 2 * r + v % 2);
  }

  lemma {:induction false} ToFromBits(s: seq<bool>)
    ensures ToBits(FromBits(s), |s|) == s
  {
    if s != [] {
      ToFromBits(s[1..]);
    }
  }

  lemma MulTwo(b: nat, p: nat)
    ensures b * (2 * p) == 2 * (b * p)
  {
  }

  lemma HalfOfSum(a: nat, h: nat)
    ensures (a + 2 * h) % 2 == a % 2 && (a + 2 * h) / 2 == a / 2 + h
  {
  }

  /** Placing b above the n bits of a, as `bit_buf |= b << bit_buf_size` does, appends b's bits. */
  lemma {:induction false} ToBitsConcat(a: nat, n: nat, b: nat, m: nat)
    requires a < Pow2(n)
    ensures ToBits(a + b * Pow2(n), n + m) == ToBits(a, n) + ToBits(b, m)
  {
    if n == 0 {
      assert a + b * Pow2(0) == b;
    } else {
      var h := b * Pow2(n - 1);
      assert b * Pow2(n) == 2 * h by {
        MulTwo(b, Pow2(n - 1));
      }
      HalfOfSum(a, h);
      ToBitsConcat(a / 2, n - 1, b, m);
      assert ToBits(a + 2 * h, n + m) == [a % 2 == 1] + (ToBits(a / 2, n - 1) + ToBits(b, m));
    }
  }

  lemma FitsAbove(a: nat, n: nat, b: nat, m: nat)
    requires a < Pow2(n) && b < Pow2(m)
    ensures a + b * Pow2(n) < Pow2(n + m)
  {
    Pow2Add(n, m);
    MulMonotone(b + 1, Pow2(m), Pow2(n));
  }

  lemma {:induction false} ToBitsTake(v: nat, n: nat, k: nat)
    requires k <= n
    ensures ToBits(v, n)[..k] == ToBits(v, k)
  {
    if k != 0 {
      ToBitsTake(v / 2, n - 1, k - 1);
      assert ToBits(v, n)[..k] == [v % 2 == 1] + ToBits(v / 2, n - 1)[..k - 1];
    }
  }

  /** v >> k */
  function Shr(v: nat, k: nat): nat {
    if k == 0 then v else Shr(v / 2, k - 1)
  }

  lemma ShrByte(v: nat)
    ensures Shr(v, 8) == v / 256
  {
    var u := v / 2 / 2 / 2 / 2;
    assert Shr(v, 8) == Shr(v / 2, 7) == Shr(v / 2 / 2, 6) == Shr(v / 2 / 2 / 2, 5) == Shr(u, 4);
    assert Shr(u, 4) == Shr(u / 2, 3) == Shr(u / 2 / 2, 2) == Shr(u / 2 / 2 / 2, 1) == u / 2 / 2 / 2 / 2;
  }

  lemma {:induction false} ToBitsDrop(v: nat, n: nat, k: nat)
    requires k <= n
    ensures ToBits(v, n)[k..] == ToBits(Shr(v, k), n - k)
  {
    if k != 0 {
      ToBitsDrop(v / 2, n - 1, k - 1);
      assert ToBits(v, n)[k..] == ToBits(v / 2, n - 1)[k - 1..];
    }
  }

  lemma DivDiv(v: nat, m: nat)
    requires m >= 1
    ensures (v / 2) / m == v / (2 * m)
  {
    var q, r := (v / 2) / m, (v / 2) % m;
    assert v / 2 == q * m + r;
    assert v == q * (2 * m) + (2 * r + v % 2);
    DivModUnique(v, 2 * m, q, 2 * r + v % 2);
  }

  lemma {:induction false} MsbBitsTake(v: nat, n: nat, k: nat)
    requires k <= n
    ensures MsbBits(v, n)[..k] == MsbBits(v / Pow2(n - k), k)
  {
    if k < n {
      MsbBitsTake(v / 2, n - 1, k);
      DivDiv(v, Pow2(n - 1 - k));
      assert MsbBits(v, n)[..k] == MsbBits(v / 2, n - 1)[..k];
    } else {
      assert v / Pow2(0) == v;
      assert MsbBits(v, n)[..k] == MsbBits(v, n);
    }
  }

  lemma {:induction false} MsbBitsInjective(a: nat, b: nat, n: nat)
    requires a < Pow2(n) && b < Pow2(n)
    requires MsbBits(a, n) == MsbBits(b, n)
    ensures a == b
  {
    if n != 0 {
      var x, y := MsbBits(a, n), MsbBits(b, n);
      assert x[..n - 1] == MsbBits(a / 2, n - 1) && y[..n - 1] == MsbBits(b / 2, n - 1);
      assert x[n - 1] == (a % 2 == 1) && y[n - 1] == (b % 2 == 1);
      MsbBitsInjective(a / 2, b / 2, n - 1);
    }
  }

  /** The value of bits sent most significant first. */
  function FromMsb(s: seq<bool>): (v: nat)
    ensures v < Pow2(|s|)
  {
    if s == [] then 0 else 2 * FromMsb(s[..|s| - 1]) + if s[|s| - 1] then 1 else 0
  }

  lemma {:induction false} MsbFromMsb(s: seq<bool>)
    ensures MsbBits(FromMsb(s), |s|) == s
  {
    if s != [] {
      MsbFromMsb(s[..|s| - 1]);
      assert FromMsb(s) / 2 == FromMsb(s[..|s| - 1]);
    }
  }

  lemma {:induction false} ByteBitsConcat(a: seq<byte>, b: seq<byte>)
    ensures ByteBits(a + b) == ByteBits(a) + ByteBits(b)
  {
    if a == [] {
      assert a + b == b;
    } else {
      ByteBitsConcat(a[1..], b);
      assert (a + b)[0] == a[0] && (a + b)[1..] == a[1..] + b;
      var x, y, z := ToBits(a[0], 8), ByteBits(a[1..]), ByteBits(b);
      assert x + (y + z) == (x + y) + z;
    }
  }

  lemma {:induction false} LeBits(bytes: seq<byte>)
    ensures LeValue(bytes) < Pow2(8 * |bytes|)
    ensures ToBits(LeValue(bytes), 8 * |bytes|) == ByteBits(bytes)
  {
    if bytes != [] {
      LeBits(bytes[1..]);
      var n := 8 * (|bytes| - 1);
      Pow2Add(8, n);
      Pow2Values();
      ToBitsConcat(bytes[0], 8, LeValue(bytes[1..]), n);
    }
  }

  lemma ToBitsMod(v: nat, n: nat)
    ensures ToBits(v % Pow2(n), n) == ToBits(v, n)
  {
    FromToBits(v, n);
    ToFromBits(ToBits(v, n));
  }

  lemma ToBitsSplit(v: nat, n: nat, k: nat)
    requires k <= n
    ensures ToBits(v, n) == ToBits(v, k) + ToBits(Shr(v, k), n - k)
  {
    ToBitsTake(v, n, k);
    ToBitsDrop(v, n, k);
    assert ToBits(v, n) == ToBits(v, n)[..k] + ToBits(v, n)[k..];
  }

  /** The n low bytes of v, least significant first. */
  function LeBytes(v: nat, n: nat): (s: seq<byte>)
    ensures |s| == n
  {
    if n == 0 then [] else [v % 256] + LeBytes(v / 256, n - 1)
  }

  lemma {:induction false} LeValueBytes(v: nat, n: nat)
    requires v < Pow2(8 * n)
    ensures LeValue(LeBytes(v, n)) == v
  {
    if n > 0 {
      LeStep(v, n);
      LeValueBytes(v / 256, n - 1);
      assert LeBytes(v, n)[1..] == LeBytes(v / 256, n - 1);
    }
  }

  lemma LeStep(v: nat, n: nat)
    requires n > 0 && v < Pow2(8 * n)
    ensures v / 256 < Pow2(8 * (n - 1))
  {
    hide Pow2;
    Pow2Add(8 * (n - 1), 8);
    Pow2Values();
    DivAtLeast(v, Pow2(8 * (n - 1)), 256);
  }

  lemma {:induction false} LeBytesBits(v: nat, n: nat)
    ensures ByteBits(LeBytes(v, n)) == ToBits(v, 8 * n)
  {
    if n > 0 {
      LeBytesBits(v / 256, n - 1);
      Pow2Values();
      ShrByte(v);
      ToBitsSplit(v, 8 * n, 8);
      ToBitsMod(v, 8);
      assert LeBytes(v, n)[1..] == LeBytes(v / 256, n - 1);
    }
  }

  lemma {:induction false} ShrFits(v: nat, n: nat, k: nat)
    requires v < Pow2(n) && k <= n
    ensures Shr(v, k) < Pow2(n - k)
  {
    if k != 0 {
      ShrFits(v / 2, n - 1, k - 1);
    }
  }

  /** Turning a code around bit by bit, so that it can be sent least significant bit first. */
  method ReverseCode(code: nat, n: nat) returns (rev: nat)
    ensures rev < Pow2(n) && ToBits(rev, n) == MsbBits(code, n)
  {
    hide MsbBits, ToBits, Pow2;
    rev := 0;
    var cur, l: nat := code, 0;
    ReverseEnds(code, n);
    while l < n
      invariant l <= n && rev < Pow2(l)
      invariant MsbBits(code, n) == MsbBits(cur, n - l) + ToBits(rev, l)
    {
      ReverseStep(code, n, cur, l, rev);
      ReverseFits(rev, cur % 2, l);
      rev := rev * 2 + cur % 2;
      cur := cur / 2;
      l := l + 1;
    }
    ReverseEnds(cur, 0);
    assert [] + ToBits(rev, n) == ToBits(rev, n);
  }

  lemma ReverseEnds(code: nat, n: nat)
    ensures MsbBits(code, n) == MsbBits(code, n) + ToBits(0, 0) && 0 < Pow2(0)
    ensures MsbBits(code, 0) == []
  {
  }

  lemma ReverseFits(rev: nat, b: nat, l: nat)
    requires rev < Pow2(l) && b < 2
    ensures rev * 2 + b < Pow2(l + 1)
  {
  }

  lemma ReverseStep(code: nat, n: nat, cur: nat, l: nat, rev: nat)
    requires l < n && MsbBits(code, n) == MsbBits(cur, n - l) + ToBits(rev, l)
    ensures MsbBits(code, n) == MsbBits(cur / 2, n - (l + 1)) + ToBits(rev * 2 + cur % 2, l + 1)
  {
    var b := [cur % 2 == 1];
    assert MsbBits(cur, n - l) == MsbBits(cur / 2, n - l - 1) + b;
    assert (rev * 2 + cur % 2) % 2 == cur % 2 && (rev * 2 + cur % 2) / 2 == rev;
    assert ToBits(rev * 2 + cur % 2, l + 1) == b + ToBits(rev, l);
    assert (MsbBits(cur / 2, n - l - 1) + b) + ToBits(rev, l) == MsbBits(cur / 2, n - l - 1) + (b + ToBits(rev, l));
  }
}
