/** fpng's Adler-32: the blocked scalar loop and the sixteen-lane loop it runs on SSE 4.1
    (libs/fpng/fpng.cpp:403-487), against the definition in section 8.2 of RFC 1950. Sums are kept
    exact here; what has to be shown besides the value is that 32 bits hold every one of them. */
module Adler {
  import opened Bits
  import opened Canonical
  import Inflate

  const WORD: nat := 0x1_0000_0000

  /** The two running sums without any reduction, from a and b. */
  function RawA(a: nat, data: seq<byte>): nat {
    if data == [] then a else RawA(a, data[..|data| - 1]) + data[|data| - 1]
  }

  function RawB(a: nat, b: nat, data: seq<byte>): nat {
    if data == [] then b else RawB(a, b, data[..|data| - 1]) + RawA(a, data)
  }

  lemma {:induction false} RawConcat(a: nat, b: nat, x: seq<byte>, y: seq<byte>)
    ensures RawA(a, x + y) == RawA(RawA(a, x), y)
    ensures RawB(a, b, x + y) == RawB(RawA(a, x), RawB(a, b, x), y)
    decreases |y|
  {
    if y == [] {
      assert x + y == x;
    } else {
      var n := |y| - 1;
      RawConcat(a, b, x, y[..n]);
      assert (x + y)[..|x + y| - 1] == x + y[..n];
    }
  }

  /** Starting from reduced sums changes nothing modulo the base. */
  lemma {:induction false} RawModulo(a: nat, b: nat, a': nat, b': nat, data: seq<byte>)
    requires a % Inflate.ADLER_BASE == a' % Inflate.ADLER_BASE && b % Inflate.ADLER_BASE == b' % Inflate.ADLER_BASE
    ensures RawA(a, data) % Inflate.ADLER_BASE == RawA(a', data) % Inflate.ADLER_BASE
    ensures RawB(a, b, data) % Inflate.ADLER_BASE == RawB(a', b', data) % Inflate.ADLER_BASE
  {
    if data != [] {
      RawModulo(a, b, a', b', data[..|data| - 1]);
      AddModulo(RawA(a, data[..|data| - 1]), RawA(a', data[..|data| - 1]), data[|data| - 1], data[|data| - 1]);
      AddModulo(RawB(a, b, data[..|data| - 1]), RawB(a', b', data[..|data| - 1]), RawA(a, data), RawA(a', data));
    }
  }

  lemma AddModulo(x: nat, x': nat, y: nat, y': nat)
    requires x % Inflate.ADLER_BASE == x' % Inflate.ADLER_BASE && y % Inflate.ADLER_BASE == y' % Inflate.ADLER_BASE
    ensures (x + y) % Inflate.ADLER_BASE == (x' + y') % Inflate.ADLER_BASE
  {
  }

  /** The checksum is the raw sums, reduced. */
  lemma {:induction false} RawIsAdler(data: seq<byte>)
    ensures Inflate.AdlerA(data) == RawA(1, data) % Inflate.ADLER_BASE
    ensures Inflate.AdlerB(data) == RawB(1, 0, data) % Inflate.ADLER_BASE
  {
    if data != [] {
      var n := |data| - 1;
      RawIsAdler(data[..n]);
      AddModulo(Inflate.AdlerA(data[..n]), RawA(1, data[..n]), data[n], data[n]);
      AddModulo(Inflate.AdlerB(data[..n]), RawB(1, 0, data[..n]), Inflate.AdlerA(data), RawA(1, data));
    }
  }

  // ---- No 32-bit sum overflows over 5552 steps.

  /** A bound on the second sum after n bytes, from sums below 65521. */
  function MaxB(n: nat): nat {
    if n == 0 then 65520 else MaxB(n - 1) + 65520 + 255 * n
  }

  lemma {:induction false} MaxBClosed(n: nat)
    ensures 2 * MaxB(n) == 131040 * (n + 1) + 255 * (n * n + n)
  {
    if n > 0 {
      MaxBClosed(n - 1);
      assert (n - 1) * (n - 1) == n * n - 2 * n + 1;
    }
  }

  lemma {:induction false} MaxBMonotone(m: nat, n: nat)
    requires m <= n
    ensures MaxB(m) <= MaxB(n)
  {
    if m < n {
      MaxBMonotone(m, n - 1);
    }
  }

  /** 5552 is the largest block for which the second sum fits. */
  lemma BlockFits(n: nat)
    requires n <= 5552
    ensures MaxB(n) < WORD
  {
    MaxBMonotone(n, 5552);
    MaxBClosed(5552);
  }

  lemma BlockIsTight()
    ensures MaxB(5553) >= WORD
  {
    MaxBClosed(5553);
  }

  lemma {:induction false} RawBounded(a: nat, b: nat, data: seq<byte>)
    requires a <= 65520 && b <= 65520
    ensures RawA(a, data) <= 65520 + 255 * |data| && RawB(a, b, data) <= MaxB(|data|)
  {
    if data != [] {
      RawBounded(a, b, data[..|data| - 1]);
    }
  }

  // ---- The scalar loop.

  /** The sums of data, both reduced. */
  ghost predicate Sums(s1: nat, s2: nat, data: seq<byte>) {
    s1 == Inflate.AdlerA(data) && s2 == Inflate.AdlerB(data)
  }

  lemma ModTwice(x: nat)
    ensures (x % Inflate.ADLER_BASE) % Inflate.ADLER_BASE == x % Inflate.ADLER_BASE
  {
  }

  lemma SumsBlock(s1: nat, s2: nat, done: seq<byte>, block: seq<byte>)
    requires Sums(s1, s2, done)
    ensures Sums(RawA(s1, block) % Inflate.ADLER_BASE, RawB(s1, s2, block) % Inflate.ADLER_BASE, done + block)
  {
    hide RawA, RawB, Inflate.AdlerA, Inflate.AdlerB;
    RawIsAdler(done);
    RawIsAdler(done + block);
    RawConcat(1, 0, done, block);
    ModTwice(RawA(1, done));
    ModTwice(RawB(1, 0, done));
    RawModulo(s1, s2, RawA(1, done), RawB(1, 0, done), block);
  }

  /** One block without reductions: both sums stay within 32 bits at every byte. */
  method ScalarBlock(data: seq<byte>, ofs: nat, n: nat, a: nat, b: nat) returns (s1: nat, s2: nat)
    requires ofs + n <= |data| && n <= 5552 && a <= 65520 && b <= 65520
    ensures s1 == RawA(a, data[ofs..ofs + n]) && s2 == RawB(a, b, data[ofs..ofs + n])
    ensures s1 < WORD && s2 < WORD
  {
    s1, s2 := a, b;
    var i := 0;
    assert data[ofs..ofs] == [];
    while i < n
      invariant 0 <= i <= n
      invariant s1 == RawA(a, data[ofs..ofs + i]) < WORD && s2 == RawB(a, b, data[ofs..ofs + i]) < WORD
    {
      assert data[ofs..ofs + i + 1] == data[ofs..ofs + i] + [data[ofs + i]];
      s1 := s1 + data[ofs + i];
      s2 := s2 + s1;
      i := i + 1;
      RawBounded(a, b, data[ofs..ofs + i]);
      BlockFits(i);
    }
  }

  lemma Start()
    ensures Sums(1, 0, [])
  {
  }

  lemma Reduced(s1: nat, s2: nat, data: seq<byte>)
    requires Sums(s1, s2, data)
    ensures s1 == Inflate.AdlerA(data) <= 65520 && s2 == Inflate.AdlerB(data) <= 65520
  {
  }

  method AdlerScalar(data: seq<byte>) returns (adler: nat)
    ensures adler == Inflate.AdlerB(data) * 0x10000 + Inflate.AdlerA(data)
  {
    var s1: nat, s2: nat := 1, 0;
    var ofs: nat, blockLen: nat := 0, |data| % 5552;
    ghost var k: nat := |data| / 5552;
    assert data[..0] == [];
    Start();
    hide Sums;
    while ofs < |data|
      invariant ofs <= |data| && blockLen <= 5552 && Sums(s1, s2, data[..ofs])
      invariant ofs == |data| || |data| - ofs == blockLen + 5552 * k
      decreases |data| - ofs, 5552 - blockLen
    {
      SumsBlock(s1, s2, data[..ofs], data[ofs..ofs + blockLen]);
      Reduced(s1, s2, data[..ofs]);
      assert data[..ofs] + data[ofs..ofs + blockLen] == data[..ofs + blockLen];
      var r1, r2 := ScalarBlock(data, ofs, blockLen, s1, s2);
      s1, s2 := r1 % Inflate.ADLER_BASE, r2 % Inflate.ADLER_BASE;
      ofs := ofs + blockLen;
      blockLen := 5552;
      k := if k > 0 then k - 1 else 0;
    }
    Reduced(s1, s2, data[..ofs]);
    assert data[..ofs] == data;
    return s2 * 0x10000 + s1;
  }

  // ---- The sixteen-lane loop: lane k adds up byte k of every sixteen, and the running values of
  // ---- that sum.

  function LaneSum(s: seq<nat>): nat {
    if s == [] then 0 else LaneSum(s[..|s| - 1]) + s[|s| - 1]
  }

  /** The sum of k times entry k. */
  function IndexSum(s: seq<nat>): nat {
    if s == [] then 0 else IndexSum(s[..|s| - 1]) + (|s| - 1) * s[|s| - 1]
  }

  function AddLanes(s: seq<nat>, t: seq<nat>): (r: seq<nat>)
    requires |s| == |t|
    ensures |r| == |s|
  {
    if s == [] then [] else AddLanes(s[..|s| - 1], t[..|s| - 1]) + [s[|s| - 1] + t[|s| - 1]]
  }

  lemma {:induction false} AddLanesSums(s: seq<nat>, t: seq<nat>)
    requires |s| == |t|
    ensures LaneSum(AddLanes(s, t)) == LaneSum(s) + LaneSum(t)
    ensures IndexSum(AddLanes(s, t)) == IndexSum(s) + IndexSum(t)
  {
    if s != [] {
      var n := |s| - 1;
      AddLanesSums(s[..n], t[..n]);
      assert AddLanes(s, t)[..n] == AddLanes(s[..n], t[..n]);
      assert n * (s[n] + t[n]) == n * s[n] + n * t[n];
    }
  }

  lemma {:induction false} AddLanesAt(s: seq<nat>, t: seq<nat>)
    requires |s| == |t|
    ensures forall k :: 0 <= k < |s| ==> AddLanes(s, t)[k] == s[k] + t[k]
  {
    if s != [] {
      AddLanesAt(s[..|s| - 1], t[..|s| - 1]);
    }
  }

  /** A group of bytes adds its sum, weighted by how many bytes are left to come. */
  lemma {:induction false} RawGroup(a: nat, b: nat, group: seq<byte>)
    ensures RawA(a, group) == a + LaneSum(group)
    ensures RawB(a, b, group) == b + |group| * a + |group| * LaneSum(group) - IndexSum(group)
  {
    if group != [] {
      var n := |group| - 1;
      RawGroup(a, b, group[..n]);
      OneMore(n, a, LaneSum(group[..n]), group[n]);
      assert n * group[n] == (|group| - 1) * group[|group| - 1];
    }
  }

  lemma OneMore(n: nat, a: nat, s: nat, x: nat)
    ensures (n + 1) * a == n * a + a
    ensures (n + 1) * (s + x) == n * s + s + n * x + x
  {
  }

  /** What the lanes hold after some groups of sixteen bytes. */
  ghost predicate Lanes(sa: seq<nat>, sb: seq<nat>, a: nat, b: nat, data: seq<byte>) {
    && |sa| == |sb| == 16
    && LaneSum(sa) == RawA(a, data)
    && 16 * LaneSum(sb) + b == RawB(a, b, data) + IndexSum(sa)
  }

  lemma LanesStep(sa: seq<nat>, sb: seq<nat>, a: nat, b: nat, data: seq<byte>, group: seq<byte>)
    requires Lanes(sa, sb, a, b, data) && |group| == 16
    ensures var sa' := AddLanes(sa, group); Lanes(sa', AddLanes(sb, sa'), a, b, data + group)
  {
    var sa' := AddLanes(sa, group);
    AddLanesSums(sa, group);
    AddLanesSums(sb, sa');
    RawConcat(a, b, data, group);
    RawGroup(RawA(a, data), RawB(a, b, data), group);
  }

  /** No lane overflows: lane k starts at most 65520 high and grows by at most 255 a step. */
  ghost predicate LanesFit(sa: seq<nat>, sb: seq<nat>, n: nat) {
    && |sa| == |sb| == 16
    && (forall k :: 0 <= k < 16 ==> sa[k] <= 65520 + 255 * n)
    && (forall k :: 0 <= k < 16 ==> sb[k] <= MaxB(n))
  }

  lemma LanesFitStep(sa: seq<nat>, sb: seq<nat>, n: nat, group: seq<byte>)
    requires LanesFit(sa, sb, n) && |group| == 16
    ensures var sa' := AddLanes(sa, group); LanesFit(sa', AddLanes(sb, sa'), n + 1)
  {
    AddLanesAt(sa, group);
    AddLanesAt(sb, AddLanes(sa, group));
  }

  lemma {:induction false} FirstLane(a: nat, n: nat)
    requires n >= 1
    ensures LaneSum([a] + Zeros(n - 1)) == a && IndexSum([a] + Zeros(n - 1)) == 0
    ensures LaneSum(Zeros(n)) == 0
  {
    var s := [a] + Zeros(n - 1);
    if n == 1 {
      assert s == [a] && [a][..0] == [];
      assert Zeros(1)[..0] == [];
    } else {
      FirstLane(a, n - 1);
      assert s[..n - 1] == [a] + Zeros(n - 2);
      assert Zeros(n)[..n - 1] == Zeros(n - 1);
    }
  }

  /** Up to 5552 groups of sixteen, then one reduction. */
  method LaneBlock(data: seq<byte>, ofs: nat, n: nat, a: nat, b: nat) returns (s1: nat, s2: nat)
    requires ofs + 16 * n <= |data| && n <= 5552 && a <= 65520 && b <= 65520
    ensures s1 == RawA(a, data[ofs..ofs + 16 * n]) % Inflate.ADLER_BASE
    ensures s2 == RawB(a, b, data[ofs..ofs + 16 * n]) % Inflate.ADLER_BASE
  {
    var sa, sb := [a] + Zeros(15), Zeros(16);
    FirstLane(a, 16);
    assert data[ofs..ofs] == [];
    var i := 0;
    while i < n
      invariant 0 <= i <= n
      invariant Lanes(sa, sb, a, b, data[ofs..ofs + 16 * i]) && LanesFit(sa, sb, i)
    {
      var v := data[ofs + 16 * i..ofs + 16 * i + 16];
      LanesStep(sa, sb, a, b, data[ofs..ofs + 16 * i], v);
      LanesFitStep(sa, sb, i, v);
      assert data[ofs..ofs + 16 * i] + v == data[ofs..ofs + 16 * (i + 1)];
      hide Lanes, LanesFit;
      sa := AddLanes(sa, v);
      sb := AddLanes(sb, sa);
      i := i + 1;
      LanesHold(sa, sb, i);
    }
    // vs1, vs2_a and vs2_b
    s1 := LaneSum(sa) % Inflate.ADLER_BASE;
    s2 := (16 * LaneSum(sb) - IndexSum(sa) + b) % Inflate.ADLER_BASE;
  }

  lemma LanesHold(sa: seq<nat>, sb: seq<nat>, n: nat)
    requires LanesFit(sa, sb, n) && n <= 5552
    ensures forall k :: 0 <= k < 16 ==> sa[k] < WORD && sb[k] < WORD
  {
    BlockFits(n);
  }

  method AdlerSse(data: seq<byte>) returns (adler: nat)
    ensures adler == Inflate.AdlerB(data) * 0x10000 + Inflate.AdlerA(data)
  {
    var s1: nat, s2: nat, ofs: nat := 1, 0, 0;
    assert data[..0] == [];
    while |data| - ofs >= 16
      invariant ofs <= |data| && Sums(s1, s2, data[..ofs])
    {
      var len := (|data| - ofs) / 16;
      var n := if len < 5552 then len else 5552;
      ghost var block := data[ofs..ofs + 16 * n];
      SumsBlock(s1, s2, data[..ofs], block);
      assert data[..ofs] + block == data[..ofs + 16 * n];
      s1, s2 := LaneBlock(data, ofs, n, s1, s2);
      ofs := ofs + 16 * n;
    }
    SumsBlock(s1, s2, data[..ofs], data[ofs..]);
    assert data[..ofs] + data[ofs..] == data && data[ofs..|data|] == data[ofs..];
    s1, s2 := ScalarBlock(data, ofs, |data| - ofs, s1, s2);
    return (s2 % Inflate.ADLER_BASE) * 0x10000 + s1 % Inflate.ADLER_BASE;
  }

  /** Either loop, whatever the processor has. */
  method Adler32(data: seq<byte>, sse41: bool) returns (adler: nat)
    ensures adler == Inflate.AdlerB(data) * 0x10000 + Inflate.AdlerA(data)
  {
    if sse41 {
      adler := AdlerSse(data);
    } else {
      adler := AdlerScalar(data);
    }
  }

  /** The four bytes of a checksum, most significant first. */
  function BigEndian(adler: nat): (s: seq<byte>)
    requires adler < WORD
    ensures |s| == 4
  {
    [adler / 0x100_0000, adler / 0x1_0000 % 256, adler / 0x100 % 256, adler % 256]
  }

  lemma ChecksumBytes(data: seq<byte>)
    ensures var adler := Inflate.AdlerB(data) * 0x10000 + Inflate.AdlerA(data);
      adler < WORD && BigEndian(adler) == Inflate.AdlerBytes(data)
  {
    hide Inflate.AdlerA, Inflate.AdlerB;
    var a, b := Inflate.AdlerA(data), Inflate.AdlerB(data);
    var adler := b * 0x10000 + a;
    assert adler / 0x1_0000 == b && adler / 0x100 == b * 256 + a / 256 && adler / 0x100_0000 == b / 256;
  }

  /** The checksum at the end of a stream, byte by byte; what was there before stays. */
  method PutAdler(dst: array<byte>, o: nat, adler: nat, ghost data: seq<byte>) returns (end: nat)
    requires o <= dst.Length && adler == Inflate.AdlerB(data) * 0x10000 + Inflate.AdlerA(data)
    modifies dst
    ensures end == if dst.Length < o + 4 then 0 else o + 4
    ensures end > 0 ==> dst[..o] == old(dst[..o]) && dst[o..end] == Inflate.AdlerBytes(data)
  {
    ChecksumBytes(data);
    hide Inflate.AdlerA, Inflate.AdlerB, Inflate.AdlerBytes, BigEndian;
    var bytes := BigEndian(adler);
    var i := 0;
    while i < 4
      invariant 0 <= i <= 4 && o + i <= dst.Length && dst[..o] == old(dst[..o])
      invariant dst[o..o + i] == bytes[..i]
    {
      if o + i + 1 > dst.Length {
        return 0;
      }
      dst[o + i] := bytes[i];
      assert dst[o..o + i + 1] == dst[o..o + i] + [bytes[i]];
      i := i + 1;
    }
    return o + 4;
  }
}
