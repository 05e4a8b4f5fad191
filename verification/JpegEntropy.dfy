/** The entropy coder of stb_image_write's baseline JPEG writer (libs/stb/stb_image_write.h:1253-1268,
    1318-1326, 1355-1396), against the decoding procedures of ITU-T T.81: section F.2.2 for the
    coefficients, section F.1.2.3 for the bytes. Blocks are quantized coefficients in zigzag order. */
module JpegEntropy {
  import opened Arith
  import opened Bits
  import opened Canonical
  import opened Wrappers

  // ---- Byte stuffing.

  /** A zero byte follows every byte of ones. */
  function Stuff(raw: seq<byte>): seq<byte> {
    if raw == [] then [] else Stuff(raw[..|raw| - 1]) + if raw[|raw| - 1] == 255 then [255, 0] else [raw[|raw| - 1]]
  }

  /** Reading: a zero byte after a byte of ones is dropped; anything else there would be a marker. */
  function Unstuff(s: seq<byte>): Option<seq<byte>>
    decreases |s|
  {
    if s == [] then Some([])
    else if s[0] == 255 && (|s| < 2 || s[1] != 0) then None
    else match Unstuff(s[if s[0] == 255 then 2 else 1..])
      case None => None
      case Some(r) => Some([s[0]] + r)
  }

  lemma {:induction false} StuffFront(raw: seq<byte>)
    requires raw != []
    ensures Stuff(raw) == (if raw[0] == 255 then [255, 0] else [raw[0]]) + Stuff(raw[1..])
    decreases |raw|
  {
    var n := |raw| - 1;
    var head := if raw[0] == 255 then [255, 0] else [raw[0]];
    if n == 0 {
      assert raw[..0] == [] && raw[1..] == [];
      assert Stuff(raw[..0]) == [] && Stuff(raw[1..]) == [];
    } else {
      StuffFront(raw[..n]);
      assert raw[..n][1..] == raw[1..][..n - 1] && raw[1..][n - 1] == raw[n];
      Assoc(head, Stuff(raw[1..][..n - 1]), if raw[n] == 255 then [255, 0] else [raw[n]]);
    }
  }

  lemma {:induction false} UnstuffStuffed(raw: seq<byte>)
    ensures Unstuff(Stuff(raw)) == Some(raw)
    decreases |raw|
  {
    if raw != [] {
      StuffFront(raw);
      UnstuffStuffed(raw[1..]);
      var s := Stuff(raw);
      hide Stuff;
      assert s[if raw[0] == 255 then 2 else 1..] == Stuff(raw[1..]);
      assert [raw[0]] + raw[1..] == raw;
    }
  }

  /** No marker can be taken out of stuffed bytes. */
  lemma {:induction false} NoMarkers(raw: seq<byte>, i: nat)
    requires i < |Stuff(raw)| && Stuff(raw)[i] == 255
    ensures i + 1 < |Stuff(raw)| && Stuff(raw)[i + 1] == 0
    decreases |raw|
  {
    var n := |raw| - 1;
    if i < |Stuff(raw[..n])| {
      NoMarkers(raw[..n], i);
    }
  }

  // ---- Bits, most significant first.

  function MsbBytes(raw: seq<byte>): seq<bool> {
    if raw == [] then [] else MsbBytes(raw[..|raw| - 1]) + MsbBits(raw[|raw| - 1], 8)
  }

  lemma {:induction false} MsbConcat(a: nat, n: nat, b: nat, m: nat)
    requires b < Pow2(m)
    ensures MsbBits(a * Pow2(m) + b, n + m) == MsbBits(a, n) + MsbBits(b, m)
  {
    if m == 0 {
      assert Pow2(0) == 1;
      assert MsbBits(b, 0) == [];
    } else {
      var h := a * Pow2(m - 1);
      MulTwo(a, Pow2(m - 1));
      HalfOfSum(b, h);
      MsbConcat(a, n, b / 2, m - 1);
      Assoc(MsbBits(a, n), MsbBits(b / 2, m - 1), [b % 2 == 1]);
    }
  }

  /** The byte at the top of the buffer's 24 bits, and what is left. */
  lemma TopByte(v: nat, cnt: nat, w: nat)
    requires 8 <= cnt <= 24 && v < Pow2(cnt) && w == v * Pow2(24 - cnt)
    ensures var hi, lo := v / Pow2(cnt - 8), v % Pow2(cnt - 8);
      && hi < 256 && w / 0x10000 == hi && w % 0x10000 * 0x100 == lo * Pow2(24 - (cnt - 8)) && lo < Pow2(cnt - 8)
      && MsbBits(v, cnt) == MsbBits(hi, 8) + MsbBits(lo, cnt - 8)
  {
    hide Pow2, MsbBits;
    Pow2Add(8, cnt - 8);
    Pow2Add(cnt - 8, 24 - cnt);
    Pow2Add(24 - cnt, 8);
    Pow2Values();
    Pow2Sixteen();
    TopProduct(v, w, Pow2(cnt - 8), Pow2(24 - cnt));
    MsbConcat(v / Pow2(cnt - 8), 8, v % Pow2(cnt - 8), cnt - 8);
  }

  lemma TopProduct(v: nat, w: nat, p: nat, q: nat)
    requires p >= 1 && q >= 1 && p * q == 0x10000 && v < 256 * p && w == v * q
    ensures v / p < 256 && v % p < p && v == (v / p) * p + v % p
    ensures w / 0x10000 == v / p && w % 0x10000 * 0x100 == (v % p) * (q * 256)
  {
    var hi, lo := v / p, v % p;
    DivMod(v, p);
    BelowQuotient(v, p);
    SplitProduct(hi, lo, p, q, w);
    Shifted(lo, q);
  }

  lemma DivMod(v: nat, p: nat)
    requires p >= 1
    ensures v == (v / p) * p + v % p && v % p < p
  {
  }

  lemma Shifted(lo: nat, q: nat)
    ensures lo * q * 0x100 == lo * (q * 256)
  {
  }

  lemma Pow2Sixteen()
    ensures Pow2(16) == 0x10000
  {
    hide Pow2;
    Pow2Values();
    Pow2Add(8, 8);
  }

  lemma BelowQuotient(v: nat, p: nat)
    requires p >= 1 && v < 256 * p
    ensures v / p < 256
  {
    DivAtLeast(v, 256, p);
  }

  lemma SplitProduct(hi: nat, lo: nat, p: nat, q: nat, w: nat)
    requires p * q == 0x10000 && lo < p && w == (hi * p + lo) * q && q >= 1
    ensures w / 0x10000 == hi && w % 0x10000 == lo * q
  {
    assert w == hi * (p * q) + lo * q;
    MulMonotone(lo + 1, p, q);
    DivModUnique(w, 0x10000, hi, lo * q);
  }

  /** Code bits go below the bits that are there. */
  lemma AddBelow(v: nat, cnt: nat, code: nat, n: nat)
    requires v < Pow2(cnt) && code < Pow2(n) && cnt + n <= 24
    ensures var v' := v * Pow2(n) + code;
      && v' < Pow2(cnt + n) && MsbBits(v', cnt + n) == MsbBits(v, cnt) + MsbBits(code, n)
      && v * Pow2(24 - cnt) + code * Pow2(24 - (cnt + n)) == v' * Pow2(24 - (cnt + n))
  {
    hide Pow2, MsbBits;
    MsbConcat(v, cnt, code, n);
    FitsAbove2(v, cnt, code, n);
    Pow2Add(n, 24 - (cnt + n));
    Distribute(v, Pow2(n), code, Pow2(24 - (cnt + n)));
  }

  lemma FitsAbove2(v: nat, cnt: nat, code: nat, n: nat)
    requires v < Pow2(cnt) && code < Pow2(n)
    ensures v * Pow2(n) + code < Pow2(cnt + n)
  {
    hide Pow2;
    Pow2Add(cnt, n);
    MulMonotone(v + 1, Pow2(cnt), Pow2(n));
  }

  lemma Distribute(v: nat, p: nat, c: nat, q: nat)
    ensures v * (p * q) + c * q == (v * p + c) * q
  {
  }

  // ---- The bit writer.

  class JpegWriter {
    var out: seq<byte>
    var bitBuf: nat
    var bitCnt: nat
    ghost var raw: seq<byte>
    ghost var v: nat

    /** The buffer's 24 low bits are v and zeros below it; higher bits have left it. */
    ghost predicate Valid()
      reads this
    {
      && out == Stuff(raw) && bitCnt <= 7 && v < Pow2(bitCnt)
      && bitBuf % 0x100_0000 == v * Pow2(24 - bitCnt)
    }

    /** Every bit written: those of the bytes, without stuffing, and the pending ones. */
    ghost function Written(): seq<bool>
      reads this
    {
      MsbBytes(raw) + MsbBits(v, bitCnt)
    }

    constructor ()
      ensures Valid() && Written() == [] && out == []
    {
      out, bitBuf, bitCnt, raw, v := [], 0, 0, [], 0;
    }

    /** stbiw__jpg_writeBits */
    method WriteBits(code: nat, n: nat)
      requires Valid() && code < Pow2(n) && n <= 16
      modifies this
      ensures Valid() && Written() == old(Written()) + MsbBits(code, n)
    {
      hide Pow2, MsbBits, Stuff, MsbBytes;
      ghost var want := Written() + MsbBits(code, n);
      AddBelow(v, bitCnt, code, n);
      Assoc(MsbBytes(raw), MsbBits(v, bitCnt), MsbBits(code, n));
      OrIsAdd(bitBuf, code * Pow2(24 - (bitCnt + n)), v * Pow2(24 - bitCnt), (v * Pow2(n) + code) * Pow2(24 - (bitCnt + n)), bitCnt + n, v * Pow2(n) + code);
      v := v * Pow2(n) + code;
      bitCnt := bitCnt + n;
      bitBuf := bitBuf + code * Pow2(24 - bitCnt);
      while bitCnt >= 8
        invariant bitCnt <= 24 && v < Pow2(bitCnt) && bitBuf % 0x100_0000 == v * Pow2(24 - bitCnt)
        invariant out == Stuff(raw) && MsbBytes(raw) + MsbBits(v, bitCnt) == want
      {
        PutTop();
      }
    }

    /** One byte leaves the top of the buffer, with a zero byte behind it if it is all ones. */
    method PutTop()
      requires 8 <= bitCnt <= 24 && v < Pow2(bitCnt) && bitBuf % 0x100_0000 == v * Pow2(24 - bitCnt) && out == Stuff(raw)
      modifies this
      ensures bitCnt == old(bitCnt) - 8 && v < Pow2(bitCnt) && bitBuf % 0x100_0000 == v * Pow2(24 - bitCnt) && out == Stuff(raw)
      ensures MsbBytes(raw) + MsbBits(v, bitCnt) == old(MsbBytes(raw) + MsbBits(v, bitCnt))
    {
      hide Pow2, MsbBits, Stuff, MsbBytes, Written, Valid;
      TopByte(v, bitCnt, bitBuf % 0x100_0000);
      ShiftedOut(bitBuf);
      var c := bitBuf / 0x10000 % 256;
      ghost var lo := v % Pow2(bitCnt - 8);
      RawByte(raw, c, MsbBits(lo, bitCnt - 8));
      out := out + [c];
      if c == 255 {
        assert out + [0] == old(out) + [255, 0];
        out := out + [0];
      }
      raw := raw + [c];
      v := lo;
      bitBuf := bitBuf * 0x100 % 0x1_0000_0000;
      bitCnt := bitCnt - 8;
    }
  }

  lemma ShiftedOut(buf: nat)
    ensures buf / 0x10000 % 256 == buf % 0x100_0000 / 0x10000
    ensures buf * 0x100 % 0x1_0000_0000 % 0x100_0000 == buf % 0x100_0000 % 0x10000 * 0x100
  {
    var a, b, c := buf / 0x100_0000, buf % 0x100_0000 / 0x10000, buf % 0x10000;
    assert buf == a * 0x100_0000 + b * 0x10000 + c;
  }

  lemma RawByte(raw: seq<byte>, c: byte, rest: seq<bool>)
    ensures Stuff(raw + [c]) == Stuff(raw) + if c == 255 then [255, 0] else [c]
    ensures MsbBytes(raw + [c]) + rest == MsbBytes(raw) + (MsbBits(c, 8) + rest)
  {
    assert (raw + [c])[..|raw|] == raw;
    Assoc(MsbBytes(raw), MsbBits(c, 8), rest);
  }

  /** Adding code bits does not carry out of the 24 bits in use. */
  lemma OrIsAdd(buf: nat, more: nat, low: nat, sum: nat, cnt: nat, v: nat)
    requires buf % 0x100_0000 == low && low + more == sum && cnt <= 24 && v < Pow2(cnt) && sum == v * Pow2(24 - cnt)
    ensures (buf + more) % 0x100_0000 == sum
  {
    hide Pow2;
    Pow2Add(cnt, 24 - cnt);
    Pow2Add(8, 16);
    Pow2Values();
    Pow2Sixteen();
    MulMonotone(v + 1, Pow2(cnt), Pow2(24 - cnt));
    var q := buf / 0x100_0000;
    assert buf + more == q * 0x100_0000 + sum;
    DivModUnique(buf + more, 0x100_0000, q, sum);
  }

  // ---- Coefficients.

  /** The number of bits of a magnitude. */
  function Size(val: int): nat
    decreases if val < 0 then -val else val
  {
    if val == 0 then 0 else 1 + Size((if val < 0 then -val else val) / 2)
  }

  /** The bits sent for a nonzero coefficient: negative ones are one less, in as many bits. */
  function Magnitude(val: int): int {
    if val < 0 then val - 1 + Pow2(Size(val)) else val
  }

  lemma {:induction false} SizeBounds(val: int)
    requires val != 0
    ensures var a := if val < 0 then -val else val;
      Size(val) >= 1 && Pow2(Size(val) - 1) <= a < Pow2(Size(val))
    decreases if val < 0 then -val else val
  {
    var a := if val < 0 then -val else val;
    assert Size(val) == 1 + Size(a / 2);
    if a > 1 {
      SizeBounds(a / 2);
      assert Pow2(Size(val)) == 2 * Pow2(Size(val) - 1);
      assert Pow2(Size(val) - 1) == 2 * Pow2(Size(val) - 2);
    } else {
      assert a == 1 && Size(0) == 0;
      assert Pow2(0) == 1 && Pow2(1) == 2 * Pow2(0);
    }
  }

  /** EXTEND, figure F.12 of T.81. */
  function Extend(v: nat, t: nat): int
    requires t >= 1
  {
    if v < Pow2(t - 1) then v - Pow2(t) + 1 else v
  }

  lemma ExtendMagnitude(val: int)
    requires val != 0
    ensures Size(val) >= 1 && 0 <= Magnitude(val) < Pow2(Size(val)) && Extend(Magnitude(val), Size(val)) == val
  {
    SizeBounds(val);
    var t := Size(val);
    assert Pow2(t) == 2 * Pow2(t - 1);
    hide Size, Pow2;
  }

  /** stbiw__jpg_calcBits */
  method CalcBits(val: int) returns (code: nat, n: nat)
    requires val != 0
    ensures n == Size(val) && code == Magnitude(val) && code < Pow2(n)
  {
    ExtendMagnitude(val);
    var tmp1 := if val < 0 then -val else val;
    n := 1;
    tmp1 := tmp1 / 2;
    ghost var all := Size(val);
    assert all == 1 + Size(tmp1);
    while tmp1 != 0
      invariant 0 <= tmp1 && n >= 1 && all == n + Size(tmp1)
      decreases tmp1
    {
      n := n + 1;
      tmp1 := tmp1 / 2;
    }
    SizeBounds(val);
    MaskedMagnitude(val, n);
    code := (if val < 0 then val - 1 else val) % Pow2(n);
  }

  lemma MaskedMagnitude(val: int, n: nat)
    requires val != 0 && n == Size(val)
    ensures (if val < 0 then val - 1 else val) % Pow2(n) == Magnitude(val)
  {
    ExtendMagnitude(val);
    hide Pow2, Size;
    if val < 0 {
      NegativeMod(val - 1, Pow2(n));
    } else {
      NegativeMod(val - Pow2(n), Pow2(n));
      SmallMod(val, Pow2(n));
    }
  }

  lemma NegativeMod(x: int, m: nat)
    requires m >= 1 && 0 <= x + m && x < 0
    ensures x % m == x + m
  {
  }

  lemma SmallMod(x: int, m: nat)
    requires 0 <= x < m
    ensures x % m == x
  {
  }

  // ---- Huffman tables.

  datatype Huff = Huff(code: nat, len: nat)

  function Word(ht: seq<Huff>, s: nat): seq<bool> {
    if s < |ht| then MsbBits(ht[s].code, ht[s].len) else []
  }

  ghost predicate Has(ht: seq<Huff>, s: nat) {
    s < |ht| && 0 < ht[s].len <= 16 && ht[s].code < Pow2(ht[s].len)
  }

  ghost predicate PrefixFree(ht: seq<Huff>) {
    |ht| == 256 && forall s, t :: Has(ht, s) && Has(ht, t) && s != t ==> !(Word(ht, s) <= Word(ht, t))
  }

  /** A table for the sizes of differences: up to eleven bits. */
  ghost predicate DcTable(ht: seq<Huff>) {
    PrefixFree(ht) && forall s :: 0 <= s <= 11 ==> Has(ht, s)
  }

  /** A table for runs of up to 15 zeros before a coefficient of up to ten bits, the end of a block, and 16 zeros. */
  ghost predicate AcTable(ht: seq<Huff>) {
    && PrefixFree(ht) && Has(ht, 0x00) && Has(ht, 0xF0)
    && forall x :: 0 <= x < 256 && 1 <= x % 16 <= 10 ==> Has(ht, x)
  }

  /** DECODE, section F.2.2.3. */
  ghost function Decode(ht: seq<Huff>, bits: seq<bool>): (r: Option<(nat, seq<bool>)>)
    ensures r.Some? ==> r.value.0 < |ht| && |r.value.1| < |bits|
  {
    if s: nat :| Has(ht, s) && Word(ht, s) <= bits then Some((s, bits[|Word(ht, s)|..])) else None
  }

  lemma WordDecodes(ht: seq<Huff>, s: nat, rest: seq<bool>)
    requires PrefixFree(ht) && Has(ht, s)
    ensures Decode(ht, Word(ht, s) + rest) == Some((s, rest))
  {
    var bits := Word(ht, s) + rest;
    assert Has(ht, s) && Word(ht, s) <= bits;
    var t: nat :| t == Decode(ht, bits).value.0 && Has(ht, t) && Word(ht, t) <= bits;
    PrefixesNest(Word(ht, s), Word(ht, t), bits);
    assert bits[|Word(ht, s)|..] == rest;
  }

  /** RECEIVE, section F.2.2.4. */
  function Receive(bits: seq<bool>, n: nat): Option<(nat, seq<bool>)> {
    if |bits| < n then None else Some((FromMsb(bits[..n]), bits[n..]))
  }

  lemma BitsReceived(v: nat, n: nat, rest: seq<bool>)
    requires v < Pow2(n)
    ensures Receive(MsbBits(v, n) + rest, n) == Some((v, rest))
  {
    var bits := MsbBits(v, n) + rest;
    assert bits[..n] == MsbBits(v, n) && bits[n..] == rest;
    MsbFromMsb(MsbBits(v, n));
    MsbBitsInjective(FromMsb(MsbBits(v, n)), v, n);
  }

  // ---- Blocks.

  /** Coefficients of a baseline block in zigzag order, after a block whose first one was dc. */
  ghost predicate Baseline(du: seq<int>, dc: int) {
    && |du| == 64 && -2047 <= du[0] - dc <= 2047
    && forall k :: 1 <= k < 64 ==> -1023 <= du[k] <= 1023
  }

  function NoCoefs(n: nat): (s: seq<int>)
    ensures |s| == n
  {
    seq(n, _ => 0)
  }

  /** How many zeros there are from i on. */
  function ZeroRun(du: seq<int>, i: nat): (z: nat)
    requires i <= |du|
    ensures i + z <= |du| && du[i..i + z] == NoCoefs(z)
    ensures i + z < |du| ==> du[i + z] != 0
    decreases |du| - i
  {
    if i == |du| || du[i] != 0 then 0
    else
      var z := 1 + ZeroRun(du, i + 1);
      assert du[i..i + z] == [du[i]] + du[i + 1..i + z];
      z
  }

  /** A size and the bits of the value. */
  function ValueBits(ht: seq<Huff>, run: nat, val: int): seq<bool> {
    Word(ht, run * 16 + Size(val)) + if 0 <= Magnitude(val) then MsbBits(Magnitude(val), Size(val)) else []
  }

  function SixteenZeros(ht: seq<Huff>, n: nat): seq<bool> {
    if n == 0 then [] else SixteenZeros(ht, n - 1) + Word(ht, 0xF0)
  }

  /** Section F.1.2.2: runs of zeros, sixteen at a time if need be, before every nonzero coefficient. */
  function AcBits(ht: seq<Huff>, du: seq<int>, i: nat): seq<bool>
    requires i <= |du|
    decreases |du| - i
  {
    var z := ZeroRun(du, i);
    if i + z == |du| then if z == 0 then [] else Word(ht, 0x00)
    else SixteenZeros(ht, z / 16) + ValueBits(ht, z % 16, du[i + z]) + AcBits(ht, du, i + z + 1)
  }

  function BlockBits(htdc: seq<Huff>, htac: seq<Huff>, du: seq<int>, dc: int): seq<bool>
    requires |du| == 64
  {
    ValueBits(htdc, 0, du[0] - dc) + AcBits(htac, du, 1)
  }

  /** A value of t bits. */
  function ReadValue(bits: seq<bool>, t: nat): Option<(int, seq<bool>)> {
    if t == 0 then Some((0, bits))
    else match Receive(bits, t)
      case None => None
      case Some(v) => Some((Extend(v.0, t), v.1))
  }

  /** Figure F.13 of T.81: coefficients until there are 64. */
  ghost function DecodeAc(ht: seq<Huff>, bits: seq<bool>, acc: seq<int>): Option<(seq<int>, seq<bool>)>
    decreases |bits|
  {
    if |acc| >= 64 then if |acc| == 64 then Some((acc, bits)) else None
    else match Decode(ht, bits)
      case None => None
      case Some(rs) =>
        var r, t := rs.0 / 16, rs.0 % 16;
        if t == 0 then
          if r == 15 then DecodeAc(ht, rs.1, acc + NoCoefs(16))
          else Some((acc + NoCoefs(64 - |acc|), rs.1))
        else match ReadValue(rs.1, t)
          case None => None
          case Some(v) => if |v.1| < |bits| then DecodeAc(ht, v.1, acc + NoCoefs(r) + [v.0]) else None
  }

  /** Section F.2.2.1: the difference, then the other coefficients. */
  ghost function DecodeBlock(htdc: seq<Huff>, htac: seq<Huff>, bits: seq<bool>, dc: int): Option<(seq<int>, seq<bool>)> {
    match Decode(htdc, bits)
    case None => None
    case Some(t) =>
      match ReadValue(t.1, t.0)
      case None => None
      case Some(diff) => DecodeAc(htac, diff.1, [dc + diff.0])
  }

  // ---- Decoding undoes coding.

  lemma ValueRead(val: int, rest: seq<bool>)
    ensures 0 <= Magnitude(val)
    ensures ReadValue(MsbBits(Magnitude(val), Size(val)) + rest, Size(val)) == Some((val, rest))
  {
    if val == 0 {
      assert MsbBits(0, 0) + rest == rest;
    } else {
      ExtendMagnitude(val);
      hide Size, Magnitude, MsbBits, Extend, Receive;
      BitsReceived(Magnitude(val), Size(val), rest);
    }
  }

  lemma {:induction false} SizeAtMost(val: int, n: nat)
    requires (if val < 0 then -val else val) < Pow2(n)
    ensures Size(val) <= n
  {
    if val != 0 {
      SizeBounds(val);
      hide Size;
      if Size(val) > n {
        Pow2Monotone(n, Size(val) - 1);
      }
    }
  }

  /** A coded value, once its symbol has been decoded. */
  lemma SymbolThenValue(ht: seq<Huff>, run: nat, val: int, rest: seq<bool>)
    requires PrefixFree(ht) && Has(ht, run * 16 + Size(val))
    ensures var mid := if 0 <= Magnitude(val) then MsbBits(Magnitude(val), Size(val)) + rest else rest;
      && 0 <= Magnitude(val) && Decode(ht, ValueBits(ht, run, val) + rest) == Some((run * 16 + Size(val), mid))
      && ReadValue(mid, Size(val)) == Some((val, rest))
  {
    ValueRead(val, rest);
    var w, x := Word(ht, run * 16 + Size(val)), MsbBits(Magnitude(val), Size(val));
    Assoc(w, x, rest);
    hide Size, Magnitude, MsbBits, ReadValue, Word, PrefixFree, Has;
    WordDecodes(ht, run * 16 + Size(val), x + rest);
  }

  lemma RunAndSize(r: nat, t: nat)
    requires r <= 15 && t <= 15
    ensures (r * 16 + t) / 16 == r && (r * 16 + t) % 16 == t
  {
  }

  /** One nonzero coefficient after fewer than sixteen zeros. */
  lemma CoefDecodes(ht: seq<Huff>, run: nat, val: int, rest: seq<bool>, acc: seq<int>)
    requires AcTable(ht) && run <= 15 && val != 0 && -1023 <= val <= 1023 && |acc| < 64
    ensures DecodeAc(ht, ValueBits(ht, run, val) + rest, acc) == DecodeAc(ht, rest, acc + NoCoefs(run) + [val])
  {
    Pow2More();
    SizeAtMost(val, 10);
    SizeBounds(val);
    RunAndSize(run, Size(val));
    hide Size, Magnitude, MsbBits, ReadValue, Word, PrefixFree, Has, ValueBits, Pow2;
    SymbolThenValue(ht, run, val, rest);
    hide Decode, AcTable;
    ShorterRest(val, rest);
  }

  lemma ShorterRest(val: int, rest: seq<bool>)
    requires 0 <= Magnitude(val)
    ensures |MsbBits(Magnitude(val), Size(val)) + rest| >= |rest|
  {
  }

  lemma Pow2More()
    ensures Pow2(10) == 1024 && Pow2(11) == 2048
  {
    hide Pow2;
    Pow2Values();
    Pow2Add(9, 1);
    Pow2Add(9, 2);
  }

  lemma ZrlDecodes(ht: seq<Huff>, rest: seq<bool>, acc: seq<int>)
    requires AcTable(ht) && |acc| < 64
    ensures DecodeAc(ht, Word(ht, 0xF0) + rest, acc) == DecodeAc(ht, rest, acc + NoCoefs(16))
  {
    WordDecodes(ht, 0xF0, rest);
    hide Decode, AcTable, Word, ReadValue;
  }

  lemma {:induction false} ZerosDecode(ht: seq<Huff>, n: nat, rest: seq<bool>, acc: seq<int>)
    requires AcTable(ht) && |acc| + 16 * n <= 64 && (n > 0 ==> |acc| + 16 * n < 80)
    ensures DecodeAc(ht, SixteenZeros(ht, n) + rest, acc) == DecodeAc(ht, rest, acc + NoCoefs(16 * n))
    decreases n
  {
    hide DecodeAc, AcTable, Word;
    if n == 0 {
      assert SixteenZeros(ht, 0) + rest == rest && acc + NoCoefs(0) == acc;
    } else {
      var w := Word(ht, 0xF0);
      Assoc(SixteenZeros(ht, n - 1), w, rest);
      ZerosDecode(ht, n - 1, w + rest, acc);
      ZrlDecodes(ht, rest, acc + NoCoefs(16 * (n - 1)));
      assert acc + NoCoefs(16 * (n - 1)) + NoCoefs(16) == acc + NoCoefs(16 * n);
    }
  }

  /** What is coded from place i on is what is decoded after the first i coefficients. */
  lemma {:induction false} AcDecodes(ht: seq<Huff>, du: seq<int>, i: nat, rest: seq<bool>)
    requires AcTable(ht) && |du| == 64 && 1 <= i <= 64 && forall k :: 1 <= k < 64 ==> -1023 <= du[k] <= 1023
    ensures DecodeAc(ht, AcBits(ht, du, i) + rest, du[..i]) == Some((du, rest))
    decreases 64 - i
  {
    hide DecodeAc, AcBits, SixteenZeros, ValueBits, AcTable, ZeroRun;
    var z := ZeroRun(du, i);
    var k := i + z;
    if k == 64 {
      LastZeros(ht, du, i, z, rest);
    } else {
      var b, c := ValueBits(ht, z % 16, du[k]), AcBits(ht, du, k + 1);
      AcFront(ht, du, i, rest);
      ZerosDecode(ht, z / 16, b + (c + rest), du[..i]);
      CoefDecodes(ht, z % 16, du[k], c + rest, du[..i] + NoCoefs(16 * (z / 16)));
      Rebuilt(du, i, z);
      AcDecodes(ht, du, k + 1, rest);
    }
  }

  lemma AcFront(ht: seq<Huff>, du: seq<int>, i: nat, rest: seq<bool>)
    requires i <= |du| && i + ZeroRun(du, i) < |du|
    ensures var z := ZeroRun(du, i);
      AcBits(ht, du, i) + rest
        == SixteenZeros(ht, z / 16) + (ValueBits(ht, z % 16, du[i + z]) + (AcBits(ht, du, i + z + 1) + rest))
  {
    hide SixteenZeros, ValueBits, ZeroRun;
    var z := ZeroRun(du, i);
    AssocThree(SixteenZeros(ht, z / 16), ValueBits(ht, z % 16, du[i + z]), AcBits(ht, du, i + z + 1), rest);
  }

  lemma AssocThree(a: seq<bool>, b: seq<bool>, c: seq<bool>, rest: seq<bool>)
    ensures a + b + c + rest == a + (b + (c + rest))
  {
  }

  lemma Rebuilt(du: seq<int>, i: nat, z: nat)
    requires i + z < |du| && du[i..i + z] == NoCoefs(z)
    ensures du[..i] + NoCoefs(16 * (z / 16)) + NoCoefs(z % 16) + [du[i + z]] == du[..i + z + 1]
  {
    assert NoCoefs(16 * (z / 16)) + NoCoefs(z % 16) == NoCoefs(z);
    assert du[..i] + du[i..i + z] + [du[i + z]] == du[..i + z + 1];
  }

  lemma LastZeros(ht: seq<Huff>, du: seq<int>, i: nat, z: nat, rest: seq<bool>)
    requires AcTable(ht) && |du| == 64 && 1 <= i <= 64 && z == ZeroRun(du, i) && i + z == 64
    ensures DecodeAc(ht, AcBits(ht, du, i) + rest, du[..i]) == Some((du, rest))
  {
    if z == 0 {
      assert AcBits(ht, du, i) + rest == rest && du[..64] == du;
    } else {
      WordDecodes(ht, 0x00, rest);
      hide Decode, Word, AcTable;
      assert du[..i] + du[i..i + z] == du;
    }
  }

  /** A block comes back with whatever follows it. */
  lemma BlockDecodes(htdc: seq<Huff>, htac: seq<Huff>, du: seq<int>, dc: int, rest: seq<bool>)
    requires DcTable(htdc) && AcTable(htac) && Baseline(du, dc)
    ensures DecodeBlock(htdc, htac, BlockBits(htdc, htac, du, dc) + rest, dc) == Some((du, rest))
  {
    hide Size, Magnitude, MsbBits, ValueBits, AcBits, DecodeAc, AcTable, DcTable, PrefixFree, Has, Decode, ReadValue, Pow2;
    var diff, ac := du[0] - dc, AcBits(htac, du, 1);
    DcHas(htdc, diff);
    Assoc(ValueBits(htdc, 0, diff), ac, rest);
    SymbolThenValue(htdc, 0, diff, ac + rest);
    AcDecodes(htac, du, 1, rest);
    assert [dc + diff] == du[..1];
  }

  lemma DcHas(ht: seq<Huff>, diff: int)
    requires DcTable(ht) && -2047 <= diff <= 2047
    ensures PrefixFree(ht) && Has(ht, Size(diff))
  {
    hide Size, PrefixFree, Has, Pow2;
    Pow2More();
    SizeAtMost(diff, 11);
  }

  // ---- The coder.

  lemma WordBits(ht: seq<Huff>, s: nat)
    requires Has(ht, s)
    ensures s < |ht| && ht[s].len <= 16 && ht[s].code < Pow2(ht[s].len) && Word(ht, s) == MsbBits(ht[s].code, ht[s].len)
  {
  }

  method WriteWord(w: JpegWriter, ht: seq<Huff>, s: nat)
    requires w.Valid() && Has(ht, s)
    modifies w
    ensures w.Valid() && w.Written() == old(w.Written()) + Word(ht, s)
  {
    hide Has, Word, MsbBits, Pow2, JpegWriter.Valid, JpegWriter.Written;
    WordBits(ht, s);
    w.WriteBits(ht[s].code, ht[s].len);
  }

  /** The symbol for a run and a nonzero value, and the value. */
  method WriteValue(w: JpegWriter, ht: seq<Huff>, run: nat, val: int)
    requires w.Valid() && val != 0 && Size(val) <= 16 && Has(ht, run * 16 + Size(val))
    modifies w
    ensures w.Valid() && w.Written() == old(w.Written()) + ValueBits(ht, run, val)
  {
    hide Has, Word, MsbBits, Pow2, Size, Magnitude, JpegWriter.Valid, JpegWriter.Written;
    ghost var before := w.Written();
    var code, n := CalcBits(val);
    WriteWord(w, ht, run * 16 + n);
    w.WriteBits(code, n);
    Assoc(before, Word(ht, run * 16 + n), MsbBits(code, n));
  }

  lemma AcHas(ht: seq<Huff>, run: nat, val: int)
    requires AcTable(ht) && run <= 15 && val != 0 && -1023 <= val <= 1023
    ensures 1 <= Size(val) <= 10 && Has(ht, run * 16 + Size(val))
  {
    hide PrefixFree, Has, Pow2;
    Pow2More();
    SizeAtMost(val, 10);
    SizeBounds(val);
    hide Size;
    RunAndSize(run, Size(val));
  }

  /** The last nonzero coefficient after the first, or zero. */
  method LastNonZero(du: seq<int>) returns (end: nat)
    requires |du| == 64
    ensures end < 64 && (end > 0 ==> du[end] != 0) && forall k :: end < k < 64 ==> du[k] == 0
  {
    end := 63;
    while end > 0 && du[end] == 0
      invariant end < 64 && forall k :: end < k < 64 ==> du[k] == 0
    {
      end := end - 1;
    }
  }

  lemma {:induction false} RunEnds(du: seq<int>, i: nat, z: nat)
    requires i + z <= |du| && (forall k :: i <= k < i + z ==> du[k] == 0) && (i + z < |du| ==> du[i + z] != 0)
    ensures ZeroRun(du, i) == z
    decreases z
  {
    if z > 0 {
      RunEnds(du, i + 1, z - 1);
    }
  }

  /** stbiw__jpg_processDU, its integer half. */
  method ProcessDU(w: JpegWriter, du: seq<int>, dc: int, htdc: seq<Huff>, htac: seq<Huff>) returns (dc': int)
    requires w.Valid() && DcTable(htdc) && AcTable(htac) && Baseline(du, dc)
    modifies w
    ensures w.Valid() && w.Written() == old(w.Written()) + BlockBits(htdc, htac, du, dc) && dc' == du[0]
  {
    hide Has, Word, AcBits, ValueBits, Size, DcTable, AcTable, JpegWriter.Valid, JpegWriter.Written;
    ghost var before := w.Written();
    var diff := du[0] - dc;
    WriteDc(w, diff, htdc);
    WriteAc(w, du, htac);
    Assoc(before, ValueBits(htdc, 0, diff), AcBits(htac, du, 1));
    return du[0];
  }

  method WriteDc(w: JpegWriter, diff: int, ht: seq<Huff>)
    requires w.Valid() && DcTable(ht) && -2047 <= diff <= 2047
    modifies w
    ensures w.Valid() && w.Written() == old(w.Written()) + ValueBits(ht, 0, diff)
  {
    DcHas(ht, diff);
    hide Has, Word, MsbBits, JpegWriter.Valid, JpegWriter.Written, DcTable;
    if diff == 0 {
      assert Size(0) == 0 && MsbBits(0, 0) == [] by {
        NoBits();
      }
      WriteWord(w, ht, 0);
    } else {
      SizeSmall(diff);
      hide ValueBits;
      WriteValue(w, ht, 0, diff);
    }
  }

  lemma NoBits()
    ensures Size(0) == 0 && MsbBits(0, 0) == []
  {
  }

  lemma SizeSmall(diff: int)
    requires -2047 <= diff <= 2047
    ensures Size(diff) <= 11
  {
    hide Size, Pow2;
    Pow2More();
    SizeAtMost(diff, 11);
  }

  lemma NoMore(ht: seq<Huff>, du: seq<int>, i: nat, end: nat)
    requires |du| == 64 && end < 64 && (forall k :: end < k < 64 ==> du[k] == 0) && i == end + 1
    ensures AcBits(ht, du, i) == if end != 63 then Word(ht, 0x00) else []
  {
    RunEnds(du, i, 64 - i);
    hide Word;
  }

  method WriteAc(w: JpegWriter, du: seq<int>, ht: seq<Huff>)
    requires w.Valid() && AcTable(ht) && |du| == 64 && forall k :: 1 <= k < 64 ==> -1023 <= du[k] <= 1023
    modifies w
    ensures w.Valid() && w.Written() == old(w.Written()) + AcBits(ht, du, 1)
  {
    hide Has, Word, AcBits, PrefixFree, JpegWriter.Valid, JpegWriter.Written;
    ghost var total := w.Written() + AcBits(ht, du, 1);
    var end0pos := LastNonZero(du);
    if end0pos == 0 {
      NoMore(ht, du, 1, 0);
      WriteWord(w, ht, 0x00);
      return;
    }
    var i: nat := 1;
    while i <= end0pos
      invariant 1 <= i <= end0pos + 1 && w.Valid() && w.Written() + AcBits(ht, du, i) == total
    {
      i := WriteRun(w, du, ht, i, end0pos);
    }
    NoMore(ht, du, i, end0pos);
    if end0pos != 63 {
      WriteWord(w, ht, 0x00);
    } else {
      assert w.Written() + [] == w.Written();
    }
  }

  method SkipZeros(du: seq<int>, startpos: nat, end0pos: nat) returns (i: nat)
    requires |du| == 64 && startpos <= end0pos < 64 && du[end0pos] != 0
    ensures startpos <= i <= end0pos && du[i] != 0 && ZeroRun(du, startpos) == i - startpos
  {
    hide ZeroRun;
    i := startpos;
    while du[i] == 0 && i <= end0pos
      invariant startpos <= i <= end0pos && forall k :: startpos <= k < i ==> du[k] == 0
      decreases 64 - i
    {
      i := i + 1;
    }
    RunEnds(du, startpos, i - startpos);
  }

  /** Zeros and the nonzero coefficient after them. */
  method WriteRun(w: JpegWriter, du: seq<int>, ht: seq<Huff>, startpos: nat, end0pos: nat) returns (next: nat)
    requires w.Valid() && AcTable(ht) && |du| == 64 && 1 <= startpos <= end0pos < 64 && du[end0pos] != 0
    requires forall k :: 1 <= k < 64 ==> -1023 <= du[k] <= 1023
    modifies w
    ensures startpos < next <= end0pos + 1 && w.Valid()
    ensures w.Written() + AcBits(ht, du, next) == old(w.Written()) + AcBits(ht, du, startpos)
  {
    hide Has, Word, AcBits, ZeroRun, PrefixFree, SixteenZeros, ValueBits, Size, JpegWriter.Valid, JpegWriter.Written;
    ghost var before := w.Written();
    var i := SkipZeros(du, startpos, end0pos);
    var nrzeroes := i - startpos;
    AcFront(ht, du, startpos, []);
    AcHas(ht, nrzeroes % 16, du[i]);
    WriteZeros(w, ht, nrzeroes / 16);
    WriteValue(w, ht, nrzeroes % 16, du[i]);
    next := i + 1;
    RunWritten(before, SixteenZeros(ht, nrzeroes / 16), ValueBits(ht, nrzeroes % 16, du[i]), AcBits(ht, du, next), AcBits(ht, du, startpos));
  }

  lemma RunWritten(before: seq<bool>, a: seq<bool>, b: seq<bool>, c: seq<bool>, whole: seq<bool>)
    requires whole + [] == a + (b + (c + []))
    ensures before + a + b + c == before + whole
  {
    assert whole == whole + [] && c + [] == c;
    assert before + a + b + c == before + (a + (b + c));
  }

  method WriteZeros(w: JpegWriter, ht: seq<Huff>, lng: nat)
    requires w.Valid() && Has(ht, 0xF0)
    modifies w
    ensures w.Valid() && w.Written() == old(w.Written()) + SixteenZeros(ht, lng)
  {
    hide Has, Word, JpegWriter.Valid, JpegWriter.Written;
    ghost var before := w.Written();
    var nrmarker: nat := 0;
    assert before + SixteenZeros(ht, 0) == before;
    while nrmarker < lng
      invariant nrmarker <= lng && w.Valid() && w.Written() == before + SixteenZeros(ht, nrmarker)
    {
      WriteWord(w, ht, 0xF0);
      Assoc(before, SixteenZeros(ht, nrmarker), Word(ht, 0xF0));
      nrmarker := nrmarker + 1;
    }
  }

  // ---- A scan: blocks of several components, each predicting its own first coefficient.

  datatype Tables = Tables(dc: seq<Huff>, ac: seq<Huff>)

  datatype Unit = Unit(comp: nat, du: seq<int>)

  ghost predicate GoodTables(tabs: seq<Tables>) {
    forall c :: 0 <= c < |tabs| ==> DcTable(tabs[c].dc) && AcTable(tabs[c].ac)
  }

  ghost predicate GoodScan(tabs: seq<Tables>, units: seq<Unit>, preds: seq<int>)
    decreases |units|
  {
    units == []
    || (units[0].comp < |tabs| == |preds| && Baseline(units[0].du, preds[units[0].comp])
        && GoodScan(tabs, units[1..], preds[units[0].comp := units[0].du[0]]))
  }

  ghost function ScanBits(tabs: seq<Tables>, units: seq<Unit>, preds: seq<int>): seq<bool>
    requires GoodScan(tabs, units, preds)
    decreases |units|
  {
    if units == [] then []
    else
      var u := units[0];
      BlockBits(tabs[u.comp].dc, tabs[u.comp].ac, u.du, preds[u.comp])
      + ScanBits(tabs, units[1..], preds[u.comp := u.du[0]])
  }

  /** Blocks of the given components, one after the other. */
  ghost function DecodeScan(tabs: seq<Tables>, comps: seq<nat>, bits: seq<bool>, preds: seq<int>): Option<(seq<Unit>, seq<bool>)>
    requires |preds| == |tabs| && forall i :: 0 <= i < |comps| ==> comps[i] < |tabs|
    decreases |comps|
  {
    if comps == [] then Some(([], bits))
    else match DecodeBlock(tabs[comps[0]].dc, tabs[comps[0]].ac, bits, preds[comps[0]])
      case None => None
      case Some(b) =>
        if |b.0| != 64 then None
        else match DecodeScan(tabs, comps[1..], b.1, preds[comps[0] := b.0[0]])
          case None => None
          case Some(r) => Some(([Unit(comps[0], b.0)] + r.0, r.1))
  }

  function Comps(units: seq<Unit>): (c: seq<nat>)
    ensures |c| == |units| && forall i :: 0 <= i < |c| ==> c[i] == units[i].comp
  {
    seq(|units|, i requires 0 <= i < |units| => units[i].comp)
  }

  lemma {:induction false} ScanInRange(tabs: seq<Tables>, units: seq<Unit>, preds: seq<int>)
    requires GoodScan(tabs, units, preds)
    ensures forall i :: 0 <= i < |units| ==> units[i].comp < |tabs|
    decreases |units|
  {
    if units != [] {
      ScanInRange(tabs, units[1..], preds[units[0].comp := units[0].du[0]]);
      forall i | 0 <= i < |units|
        ensures units[i].comp < |tabs|
      {
        assert i > 0 ==> units[i] == units[1..][i - 1];
      }
    }
  }

  /** Every block of a scan comes back, with every prediction undone. */
  lemma {:induction false} ScanDecodes(tabs: seq<Tables>, units: seq<Unit>, preds: seq<int>, rest: seq<bool>)
    requires GoodTables(tabs) && GoodScan(tabs, units, preds) && |preds| == |tabs|
    ensures forall i :: 0 <= i < |units| ==> units[i].comp < |tabs|
    ensures DecodeScan(tabs, Comps(units), ScanBits(tabs, units, preds) + rest, preds) == Some((units, rest))
    decreases |units|
  {
    ScanInRange(tabs, units, preds);
    if units == [] {
      assert ScanBits(tabs, units, preds) + rest == rest;
    } else {
      hide DcTable, AcTable, Baseline, BlockBits, DecodeBlock;
      var u := units[0];
      var more := ScanBits(tabs, units[1..], preds[u.comp := u.du[0]]) + rest;
      Assoc(BlockBits(tabs[u.comp].dc, tabs[u.comp].ac, u.du, preds[u.comp]), ScanBits(tabs, units[1..], preds[u.comp := u.du[0]]), rest);
      BlockDecodes(tabs[u.comp].dc, tabs[u.comp].ac, u.du, preds[u.comp], more);
      ScanDecodes(tabs, units[1..], preds[u.comp := u.du[0]], rest);
      assert Comps(units)[1..] == Comps(units[1..]);
      assert [u] + units[1..] == units;
    }
  }

  // ---- The whole entropy-coded segment.

  lemma WholeBytes(raw: seq<byte>)
    ensures |MsbBytes(raw)| == 8 * |raw|
  {
    if raw != [] {
      WholeBytes(raw[..|raw| - 1]);
    }
  }

  /** After seven one bits, what has become bytes is the scan and fewer than eight one bits. */
  lemma Filled(raw: seq<byte>, pending: seq<bool>, scan: seq<bool>) returns (rest: seq<bool>)
    requires MsbBytes(raw) + pending == scan + MsbBits(0x7F, 7) && |pending| <= 7
    ensures MsbBytes(raw) == scan + rest && |rest| < 8 && forall i :: 0 <= i < |rest| ==> rest[i]
  {
    WholeBytes(raw);
    var ones := MsbBits(0x7F, 7);
    SevenOnes();
    hide MsbBytes, MsbBits;
    var k := 7 - |pending|;
    assert |scan + ones| == |scan| + 7;
    rest := ones[..k];
    assert MsbBytes(raw) == (scan + ones)[..|MsbBytes(raw)|];
    assert (scan + ones)[..|scan| + k] == scan + ones[..k];
  }

  lemma SevenOnes()
    ensures forall i :: 0 <= i < 7 ==> MsbBits(0x7F, 7)[i]
  {
    assert MsbBits(1, 1) == MsbBits(0, 0) + [true] && MsbBits(0, 0) == [];
    assert MsbBits(3, 2) == MsbBits(1, 1) + [true];
    assert MsbBits(7, 3) == MsbBits(3, 2) + [true];
    assert MsbBits(15, 4) == MsbBits(7, 3) + [true];
    assert MsbBits(31, 5) == MsbBits(15, 4) + [true];
    assert MsbBits(63, 6) == MsbBits(31, 5) + [true];
    assert MsbBits(127, 7) == MsbBits(63, 6) + [true];
  }

  lemma ScanNext(tabs: seq<Tables>, units: seq<Unit>, preds: seq<int>)
    requires units != [] && GoodScan(tabs, units, preds)
    ensures var u := units[0];
      && |u.du| == 64 && u.comp < |tabs| == |preds| && Baseline(u.du, preds[u.comp]) && GoodScan(tabs, units[1..], preds[u.comp := u.du[0]])
      && ScanBits(tabs, units, preds)
         == BlockBits(tabs[u.comp].dc, tabs[u.comp].ac, u.du, preds[u.comp]) + ScanBits(tabs, units[1..], preds[u.comp := u.du[0]])
  {
    hide BlockBits;
  }

  /** The bytes between the start of scan and the end of image, for the blocks of an image in order:
      no marker occurs in them, a decoder gets every block back, and fewer than eight one bits fill up. */
  method EncodeScan(tabs: seq<Tables>, units: seq<Unit>) returns (out: seq<byte>, ghost raw: seq<byte>, ghost rest: seq<bool>)
    requires GoodTables(tabs) && GoodScan(tabs, units, NoCoefs(|tabs|))
    ensures forall i :: 0 <= i < |out| && out[i] == 255 ==> i + 1 < |out| && out[i + 1] == 0
    ensures Unstuff(out) == Some(raw) && |rest| < 8 && forall i :: 0 <= i < |rest| ==> rest[i]
    ensures forall i :: 0 <= i < |units| ==> units[i].comp < |tabs|
    ensures DecodeScan(tabs, Comps(units), MsbBytes(raw), NoCoefs(|tabs|)) == Some((units, rest))
  {
    hide GoodScan, ScanBits, GoodTables, DcTable, AcTable, Baseline, BlockBits, JpegWriter.Written, DecodeScan, MsbBytes, MsbBits, Stuff, Pow2;
    var w := new JpegWriter();
    var preds := NoCoefs(|tabs|);
    ghost var scan := ScanBits(tabs, units, preds);
    var i := 0;
    assert units[0..] == units && [] + scan == scan;
    while i < |units|
      invariant 0 <= i <= |units| && w.Valid() && |preds| == |tabs| && GoodScan(tabs, units[i..], preds)
      invariant w.Written() + ScanBits(tabs, units[i..], preds) == scan
    {
      preds := EncodeUnit(w, tabs, units, i, preds);
      i := i + 1;
    }
    NoUnits(tabs, preds);
    assert units[i..] == [] && w.Written() + [] == w.Written();
    ScanInRange(tabs, units, NoCoefs(|tabs|));
    SevenFit();
    w.WriteBits(0x7F, 7);
    out, raw := w.out, w.raw;
    rest := Segment(w, scan);
    ScanDecodes(tabs, units, NoCoefs(|tabs|), rest);
    UnstuffStuffed(raw);
    forall k | 0 <= k < |out| && out[k] == 255
      ensures k + 1 < |out| && out[k + 1] == 0
    {
      NoMarkers(raw, k);
    }
  }

  lemma SevenFit()
    ensures 0x7F < Pow2(7)
  {
    Pow2Values();
  }

  lemma NoUnits(tabs: seq<Tables>, preds: seq<int>)
    requires GoodScan(tabs, [], preds)
    ensures ScanBits(tabs, [], preds) == []
  {
  }

  lemma Segment(w: JpegWriter, scan: seq<bool>) returns (rest: seq<bool>)
    requires w.Valid() && w.Written() == scan + MsbBits(0x7F, 7)
    ensures MsbBytes(w.raw) == scan + rest && |rest| < 8 && (forall i :: 0 <= i < |rest| ==> rest[i]) && w.out == Stuff(w.raw)
  {
    hide MsbBytes, Stuff;
    rest := Filled(w.raw, MsbBits(w.v, w.bitCnt), scan);
  }

  /** One block, with the tables and the prediction of its component. */
  method EncodeUnit(w: JpegWriter, tabs: seq<Tables>, units: seq<Unit>, i: nat, preds0: seq<int>) returns (preds: seq<int>)
    requires w.Valid() && i < |units| && |preds0| == |tabs| && GoodTables(tabs) && GoodScan(tabs, units[i..], preds0)
    modifies w
    ensures w.Valid() && |preds| == |tabs| && GoodScan(tabs, units[i + 1..], preds)
    ensures w.Written() + ScanBits(tabs, units[i + 1..], preds) == old(w.Written()) + ScanBits(tabs, units[i..], preds0)
  {
    hide GoodScan, ScanBits, DcTable, AcTable, Baseline, BlockBits, JpegWriter.Valid, JpegWriter.Written;
    ghost var before := w.Written();
    var u := units[i];
    ScanNext(tabs, units[i..], preds0);
    assert units[i..][1..] == units[i + 1..];
    var dc := ProcessDU(w, u.du, preds0[u.comp], tabs[u.comp].dc, tabs[u.comp].ac);
    preds := preds0[u.comp := dc];
    Assoc(before, BlockBits(tabs[u.comp].dc, tabs[u.comp].ac, u.du, preds0[u.comp]), ScanBits(tabs, units[i + 1..], preds));
  }
}
