/** BLAKE2b as it is fed piece by piece (src/blake2b/blake2b-ref.c:45-151, 153-270), against the
    one-shot definition in sections 3.2 and 3.3 of RFC 7693. */
module Blake2b {
  import opened Arith
  import opened Bits
  import opened Wrappers

  const BLOCK: nat := 128
  const OUT_BYTES: nat := 64
  const KEY_BYTES: nat := 64
  const PARAM_BYTES: nat := 64
  const WORD: nat := 0x1_0000_0000_0000_0000

  // ---- Section 3.2: the compression function F.

  const IV: seq<bv64> := [
    0x6A09E667F3BCC908, 0xBB67AE8584CAA73B, 0x3C6EF372FE94F82B, 0xA54FF53A5F1D36F1,
    0x510E527FADE682D1, 0x9B05688C2B3E6C1F, 0x1F83D9ABFB41BD6B, 0x5BE0CD19137E2179]

  const SIGMA: seq<seq<nat>> := [
    [0, 1, 2, 3, 4, 5, 6, 7, 8, 9, 10, 11, 12, 13, 14, 15],
    [14, 10, 4, 8, 9, 15, 13, 6, 1, 12, 0, 2, 11, 7, 5, 3],
    [11, 8, 12, 0, 5, 2, 15, 13, 10, 14, 3, 6, 7, 1, 9, 4],
    [7, 9, 3, 1, 13, 12, 11, 14, 2, 6, 5, 10, 4, 0, 15, 8],
    [9, 0, 5, 7, 2, 4, 10, 15, 14, 1, 11, 12, 6, 8, 3, 13],
    [2, 12, 6, 10, 0, 11, 8, 3, 4, 13, 7, 5, 15, 14, 1, 9],
    [12, 5, 1, 15, 14, 13, 4, 10, 0, 7, 6, 3, 9, 2, 8, 11],
    [13, 11, 7, 14, 12, 1, 3, 9, 5, 0, 15, 4, 8, 6, 2, 10],
    [6, 15, 14, 9, 11, 3, 0, 8, 12, 2, 13, 7, 1, 4, 10, 5],
    [10, 2, 8, 4, 7, 6, 1, 5, 15, 11, 9, 14, 3, 12, 13, 0],
    [0, 1, 2, 3, 4, 5, 6, 7, 8, 9, 10, 11, 12, 13, 14, 15],
    [14, 10, 4, 8, 9, 15, 13, 6, 1, 12, 0, 2, 11, 7, 5, 3]]

  /** Each round takes every word of the message once, and the last two as the first two do. */
  lemma SigmaPermutes(r: nat)
    requires r < 12
    ensures |SIGMA[r]| == 16 && forall k :: 0 <= k < 16 ==> k in SIGMA[r]
    ensures r >= 10 ==> SIGMA[r] == SIGMA[r - 10]
  {
  }

  function Rotr(x: bv64, n: bv7): bv64
    requires 0 < n < 64
  {
    (x >> n) | (x << (64 - n))
  }

  /** The mixing function on four words of the work vector. */
  function Quarter(a: bv64, b: bv64, c: bv64, d: bv64, x: bv64, y: bv64): (bv64, bv64, bv64, bv64) {
    var a1 := a + b + x;
    var d1 := Rotr(d ^ a1, 32);
    var c1 := c + d1;
    var b1 := Rotr(b ^ c1, 24);
    var a2 := a1 + b1 + y;
    var d2 := Rotr(d1 ^ a2, 16);
    var c2 := c1 + d2;
    (a2, Rotr(b1 ^ c2, 63), c2, d2)
  }

  function G(v: seq<bv64>, a: nat, b: nat, c: nat, d: nat, x: bv64, y: bv64): (r: seq<bv64>)
    requires |v| == 16 && a < 16 && b < 16 && c < 16 && d < 16
    ensures |r| == 16
  {
    var q := Quarter(v[a], v[b], v[c], v[d], x, y);
    v[a := q.0][b := q.1][c := q.2][d := q.3]
  }

  function At(m: seq<bv64>, i: nat): bv64 {
    if i < |m| then m[i] else 0
  }

  function Columns(v: seq<bv64>, m: seq<bv64>, s: seq<nat>): (r: seq<bv64>)
    requires |v| == 16 && |m| == 16 && |s| == 16
    ensures |r| == 16
  {
    var v0 := G(v, 0, 4, 8, 12, At(m, s[0]), At(m, s[1]));
    var v1 := G(v0, 1, 5, 9, 13, At(m, s[2]), At(m, s[3]));
    var v2 := G(v1, 2, 6, 10, 14, At(m, s[4]), At(m, s[5]));
    G(v2, 3, 7, 11, 15, At(m, s[6]), At(m, s[7]))
  }

  function Diagonals(v: seq<bv64>, m: seq<bv64>, s: seq<nat>): (r: seq<bv64>)
    requires |v| == 16 && |m| == 16 && |s| == 16
    ensures |r| == 16
  {
    var v0 := G(v, 0, 5, 10, 15, At(m, s[8]), At(m, s[9]));
    var v1 := G(v0, 1, 6, 11, 12, At(m, s[10]), At(m, s[11]));
    var v2 := G(v1, 2, 7, 8, 13, At(m, s[12]), At(m, s[13]));
    G(v2, 3, 4, 9, 14, At(m, s[14]), At(m, s[15]))
  }

  function Round(v: seq<bv64>, m: seq<bv64>, s: seq<nat>): (r: seq<bv64>)
    requires |v| == 16 && |m| == 16 && |s| == 16
    ensures |r| == 16
  {
    Diagonals(Columns(v, m, s), m, s)
  }

  function Rounds(v: seq<bv64>, m: seq<bv64>, n: nat): (r: seq<bv64>)
    requires |v| == 16 && |m| == 16 && n <= 12
    ensures |r| == 16
  {
    if n == 0 then v
    else
      SigmaRow(n - 1);
      Round(Rounds(v, m, n - 1), m, SIGMA[n - 1])
  }

  lemma SigmaRow(r: nat)
    requires r < 12
    ensures |SIGMA[r]| == 16
  {
  }

  function Load64(s: seq<byte>): bv64 {
    (LeValue(s) % WORD) as bv64
  }

  function Words(block: seq<byte>): (m: seq<bv64>)
    requires |block| == BLOCK
    ensures |m| == 16
  {
    seq(16, i requires 0 <= i < 16 => Load64(block[8 * i..8 * i + 8]))
  }

  function StartV(h: seq<bv64>, t0: bv64, t1: bv64, f0: bv64, f1: bv64): (v: seq<bv64>)
    requires |h| == 8
    ensures |v| == 16
  {
    h + [IV[0], IV[1], IV[2], IV[3], IV[4] ^ t0, IV[5] ^ t1, IV[6] ^ f0, IV[7] ^ f1]
  }

  function Mix(h: seq<bv64>, w: seq<bv64>): (r: seq<bv64>)
    requires |h| == 8 && |w| == 16
    ensures |r| == 8
  {
    seq(8, i requires 0 <= i < 8 => h[i] ^ w[i] ^ w[i + 8])
  }

  /** F with the counter and the flags as words. */
  function CompressWords(h: seq<bv64>, block: seq<byte>, t0: bv64, t1: bv64, f0: bv64, f1: bv64): (r: seq<bv64>)
    requires |h| == 8 && |block| == BLOCK
    ensures |r| == 8
  {
    Mix(h, Rounds(StartV(h, t0, t1, f0, f1), Words(block), 12))
  }

  const ONES: bv64 := 0xFFFF_FFFF_FFFF_FFFF

  /** F with the counter as a number of bytes. The first flag is set for the final block, the second
      only in tree hashing, for the last node. */
  function F(h: seq<bv64>, block: seq<byte>, t: nat, final: bool, lastNode: bool): (r: seq<bv64>)
    requires |h| == 8 && |block| == BLOCK
    ensures |r| == 8
  {
    CompressWords(h, block, (t % WORD) as bv64, (t / WORD % WORD) as bv64, if final then ONES else 0, if lastNode then ONES else 0)
  }

  // ---- Section 3.3: the hash of a whole message.

  /** Block i of a message, padded with zeros. */
  function BlockAt(d: seq<byte>, i: nat): (b: seq<byte>)
    ensures |b| == BLOCK
  {
    seq(BLOCK, k requires 0 <= k < BLOCK => if BLOCK * i + k < |d| then d[BLOCK * i + k] else 0)
  }

  /** After the first n blocks, none of them the last. */
  function Chain(h: seq<bv64>, d: seq<byte>, n: nat): (r: seq<bv64>)
    requires |h| == 8
    ensures |r| == 8
  {
    if n == 0 then h else F(Chain(h, d, n - 1), BlockAt(d, n - 1), BLOCK * n, false, false)
  }

  /** The index of the last block; an empty message has one block all the same. */
  function LastBlock(n: nat): nat {
    if n == 0 then 0 else (n - 1) / BLOCK
  }

  function FinalHash(h: seq<bv64>, d: seq<byte>, lastNode: bool): (r: seq<bv64>)
    requires |h| == 8
    ensures |r| == 8
  {
    F(Chain(h, d, LastBlock(|d|)), BlockAt(d, LastBlock(|d|)), |d|, true, lastNode)
  }

  function Store(h: seq<bv64>): seq<byte> {
    if h == [] then [] else LeBytes(h[0] as nat, 8) + Store(h[1..])
  }

  /** Section 3.3: the first word tells the lengths of the key and of the digest. */
  function Start(kk: nat, nn: nat): (h: seq<bv64>)
    requires kk <= KEY_BYTES && nn <= OUT_BYTES
    ensures |h| == 8
  {
    IV[0 := IV[0] ^ 0x01010000 ^ ((kk as bv64) << 8) ^ (nn as bv64)]
  }

  /** Section 2.5: the parameter block without tree hashing, salt and personalization. */
  ghost predicate IsParamBlock(p: seq<byte>, keylen: nat, outlen: nat) {
    && |p| == PARAM_BYTES && p[0] == outlen && p[1] == keylen && p[2] == 1 && p[3] == 1
    && forall i :: 4 <= i < PARAM_BYTES ==> p[i] == 0
  }

  lemma BackAndForth(b: bv64, n: nat)
    requires b as nat == n
    ensures n < WORD && n as bv64 == b
  {
  }

  lemma {:induction false} AsWord(n: nat)
    requires n < 256
    ensures (n as bv64) as nat == n && (n as bv64) < 256
  {
    if n > 0 {
      AsWord(n - 1);
      NextWord(n, (n - 1) as bv64);
    }
  }

  lemma NextWord(n: nat, b: bv64)
    requires b as nat + 1 == n && n < 256 && b < 256
    ensures (n as bv64) as nat == n && (n as bv64) < 256
  {
    SmallWord(b);
    OneMore(b);
    BackAndForth(b + 1, n);
  }

  lemma SmallWord(b: bv64)
    requires b as nat < 255
    ensures b < 255
  {
  }

  lemma OneMore(b: bv64)
    requires b < 255
    ensures (b + 1) as nat == b as nat + 1
  {
  }

  /** Bytes in different places of a word: or-ing them in is adding. */
  lemma Apart(n: bv64, k: bv64)
    requires n < 256 && k < 256
    ensures 0x01010000 ^ (k << 8) ^ n == n + k * 256 + 0x01010000
  {
  }

  lemma SumAsNumber(n: bv64, k: bv64)
    requires n < 256 && k < 256
    ensures (n + k * 256 + 0x01010000) as nat == n as nat + 256 * (k as nat) + 0x01010000
  {
  }

  lemma {:induction false} ZeroValue(s: seq<byte>)
    requires forall i :: 0 <= i < |s| ==> s[i] == 0
    ensures LeValue(s) == 0
  {
    if s != [] {
      ZeroValue(s[1..]);
    }
  }

  lemma FourBytes(s: seq<byte>, a: nat, b: nat)
    requires |s| == 8 && s[0] == a && s[1] == b && s[2] == 1 && s[3] == 1 && forall i :: 4 <= i < 8 ==> s[i] == 0
    ensures LeValue(s) == a + 256 * b + 0x01010000
  {
    ZeroValue(s[4..]);
    assert s[1..][1..] == s[2..] && s[2..][1..] == s[3..] && s[3..][1..] == s[4..];
    assert LeValue(s[3..]) == 1 && LeValue(s[2..]) == 257;
  }

  lemma LoadOf(s: seq<byte>, w: bv64)
    requires LeValue(s) == w as nat
    ensures Load64(s) == w
  {
    hide LeValue;
    BackAndForth(w, LeValue(s));
    SmallModulo(LeValue(s), WORD);
  }

  lemma SmallModulo(n: nat, m: nat)
    requires n < m
    ensures n % m == n
  {
  }

  lemma FirstLoad(s: seq<byte>, n: bv64, k: bv64)
    requires n < 256 && k < 256 && LeValue(s) == n as nat + 256 * (k as nat) + 0x01010000
    ensures IV[0] ^ 0x01010000 ^ (k << 8) ^ n == IV[0] ^ Load64(s)
  {
    hide LeValue, Load64;
    SumAsNumber(n, k);
    LoadOf(s, n + k * 256 + 0x01010000);
    Apart(n, k);
    XorAssoc(IV[0], 0x01010000, k << 8, n);
  }

  lemma NoLoad(s: seq<byte>, v: bv64)
    requires forall i :: 0 <= i < |s| ==> s[i] == 0
    ensures v ^ Load64(s) == v
  {
    ZeroValue(s);
    ZeroLoad(s);
    XorZero(v);
  }

  lemma ZeroLoad(s: seq<byte>)
    requires LeValue(s) == 0
    ensures Load64(s) == 0
  {
    hide LeValue;
  }

  lemma StartFirst(s: seq<byte>, kk: nat, nn: nat)
    requires kk <= KEY_BYTES && nn <= OUT_BYTES
    requires |s| == 8 && s[0] == nn && s[1] == kk && s[2] == 1 && s[3] == 1 && forall i :: 4 <= i < 8 ==> s[i] == 0
    ensures Start(kk, nn)[0] == IV[0] ^ Load64(s)
  {
    hide LeValue, Load64;
    FourBytes(s, nn, kk);
    AsWord(nn);
    AsWord(kk);
    FirstLoad(s, nn as bv64, kk as bv64);
  }

  /** The two definitions of the start agree: section 3.3 sets a word, section 2.5 lays out a block. */
  lemma StartIsParamBlock(p: seq<byte>, kk: nat, nn: nat)
    requires kk <= KEY_BYTES && nn <= OUT_BYTES && IsParamBlock(p, kk, nn)
    ensures forall i :: 0 <= i < 8 ==> Start(kk, nn)[i] == IV[i] ^ Load64(p[8 * i..8 * i + 8])
  {
    hide LeValue, Load64;
    forall i | 0 <= i < 8
      ensures Start(kk, nn)[i] == IV[i] ^ Load64(p[8 * i..8 * i + 8])
    {
      if i == 0 {
        hide Start;
        StartFirst(p[0..8], kk, nn);
      } else {
        NoLoad(p[8 * i..8 * i + 8], IV[i]);
      }
    }
  }

  lemma XorAssoc(a: bv64, b: bv64, c: bv64, d: bv64)
    ensures a ^ b ^ c ^ d == a ^ (b ^ c ^ d)
  {
  }

  lemma XorZero(a: bv64)
    ensures a ^ 0 == a
  {
  }

  function Pad(key: seq<byte>): (b: seq<byte>)
    requires |key| <= BLOCK
    ensures |b| == BLOCK
  {
    key + seq(BLOCK - |key|, _ => 0)
  }

  /** The key, if there is one, is a block in front of the message. */
  function Message(key: seq<byte>, data: seq<byte>): seq<byte>
    requires |key| <= KEY_BYTES
  {
    if key == [] then data else Pad(key) + data
  }

  function Digest(key: seq<byte>, data: seq<byte>, nn: nat): seq<byte>
    requires |key| <= KEY_BYTES && nn <= OUT_BYTES
  {
    Truncated(Store(FinalHash(Start(|key|, nn), Message(key, data), false)), nn)
  }

  // ---- The streaming state.

  lemma WordParts(n: nat, t0: nat, t1: nat)
    requires t0 < WORD && t1 < WORD && (t0 + WORD * t1) % (WORD * WORD) == n % (WORD * WORD)
    ensures t0 == n % WORD && t1 == n / WORD % WORD
  {
    var q, r := n / (WORD * WORD), n % (WORD * WORD);
    assert t0 + WORD * t1 < WORD * WORD;
    assert r == t0 + WORD * t1;
    assert n == (q * WORD + t1) * WORD + t0;
    DivModUnique(n, WORD, q * WORD + t1, t0);
    DivModUnique(q * WORD + t1, WORD, q, t1);
  }

  /** d has been fed: all blocks but the last are compressed, what may be the last one is buffered. */
  ghost predicate Fed(h0: seq<bv64>, d: seq<byte>, h: seq<bv64>, t0: nat, t1: nat, buffered: seq<byte>) {
    && |h0| == 8 && t0 < WORD && t1 < WORD
    && (t0 + WORD * t1) % (WORD * WORD) == BLOCK * LastBlock(|d|) % (WORD * WORD)
    && h == Chain(h0, d, LastBlock(|d|)) && buffered == d[BLOCK * LastBlock(|d|)..]
  }

  lemma LastBlockBounds(n: nat)
    ensures BLOCK * LastBlock(n) <= n <= BLOCK * LastBlock(n) + BLOCK
    ensures n > 0 ==> BLOCK * LastBlock(n) < n
  {
  }

  /** A counter step: the carry goes into the high word. */
  lemma CounterStep(t0: nat, t1: nat, inc: nat, total: nat)
    requires t0 < WORD && t1 < WORD && inc < WORD && (t0 + WORD * t1) % (WORD * WORD) == total % (WORD * WORD)
    ensures var u0 := (t0 + inc) % WORD;
      var u1 := (t1 + if u0 < inc then 1 else 0) % WORD;
      (u0 + WORD * u1) % (WORD * WORD) == (total + inc) % (WORD * WORD)
  {
    var u0 := (t0 + inc) % WORD;
    var c := if u0 < inc then 1 else 0;
    Carry(t0, inc);
    var u1 := (t1 + c) % WORD;
    var q := (t1 + c) / WORD;
    Expand(t0, t1, inc, u0, u1, c, q, WORD);
    SameModulo(t0 + WORD * t1, total, inc, WORD * WORD);
    DropMultiple(u0 + WORD * u1, q, WORD * WORD);
  }

  lemma Carry(t: nat, inc: nat)
    requires t < WORD && inc < WORD
    ensures var u := (t + inc) % WORD; t + inc == u + WORD * if u < inc then 1 else 0
  {
  }

  lemma Expand(t0: nat, t1: nat, inc: nat, u0: nat, u1: nat, c: nat, q: nat, word: nat)
    requires t0 + inc == u0 + word * c && t1 + c == word * q + u1
    ensures t0 + word * t1 + inc == (u0 + word * u1) + q * (word * word)
  {
    assert word * t1 + word * c == word * (t1 + c) == word * (word * q) + word * u1;
    assert word * (word * q) == q * (word * word);
  }

  lemma SameModulo(a: nat, b: nat, c: nat, m: nat)
    requires m > 0 && a % m == b % m
    ensures (a + c) % m == (b + c) % m
  {
    var x, y, r := a / m, b / m, a % m;
    assert a == x * m + r && b == y * m + r;
    var q, s := (r + c) / m, (r + c) % m;
    assert r + c == q * m + s;
    assert a + c == (x + q) * m + s && b + c == (y + q) * m + s;
    DivModUnique(a + c, m, x + q, s);
    DivModUnique(b + c, m, y + q, s);
  }

  lemma DropMultiple(a: nat, q: nat, m: nat)
    requires m > 0
    ensures (a + q * m) % m == a % m
  {
    var x, r := a / m, a % m;
    assert a + q * m == (x + q) * m + r;
    DivModUnique(a + q * m, m, x + q, r);
  }

  /** k blocks of d are compressed. */
  ghost predicate Compressed(h0: seq<bv64>, d: seq<byte>, k: nat, h: seq<bv64>, t0: nat, t1: nat) {
    && |h0| == 8 && t0 < WORD && t1 < WORD && BLOCK * k <= |d|
    && (t0 + WORD * t1) % (WORD * WORD) == BLOCK * k % (WORD * WORD) && h == Chain(h0, d, k)
  }

  lemma {:induction false} ChainPrefix(h: seq<bv64>, d: seq<byte>, more: seq<byte>, n: nat)
    requires |h| == 8 && BLOCK * n <= |d|
    ensures Chain(h, d + more, n) == Chain(h, d, n)
  {
    hide F;
    if n > 0 {
      ChainPrefix(h, d, more, n - 1);
      assert BlockAt(d + more, n - 1) == BlockAt(d, n - 1);
    }
  }

  lemma FedIsCompressed(h0: seq<bv64>, d: seq<byte>, more: seq<byte>, h: seq<bv64>, t0: nat, t1: nat, buffered: seq<byte>)
    requires Fed(h0, d, h, t0, t1, buffered)
    ensures Compressed(h0, d + more, LastBlock(|d|), h, t0, t1)
    ensures buffered + more == (d + more)[BLOCK * LastBlock(|d|)..] && |buffered| <= BLOCK
    ensures d != [] ==> buffered != []
  {
    hide Chain;
    LastBlockBounds(|d|);
    ChainPrefix(h0, d, more, LastBlock(|d|));
    DropPrefix(d, more, BLOCK * LastBlock(|d|));
    hide LastBlock;
    assert |buffered| == |d| - BLOCK * LastBlock(|d|);
  }

  lemma DropPrefix(d: seq<byte>, more: seq<byte>, n: nat)
    requires n <= |d|
    ensures d[n..] + more == (d + more)[n..]
  {
  }

  lemma CompressedIsFed(h0: seq<bv64>, d: seq<byte>, k: nat, h: seq<bv64>, t0: nat, t1: nat)
    requires Compressed(h0, d, k, h, t0, t1) && 0 < |d| - BLOCK * k <= BLOCK
    ensures Fed(h0, d, h, t0, t1, d[BLOCK * k..])
  {
    LastIs(|d|, k);
  }

  lemma LastIs(n: nat, k: nat)
    requires 0 < n - BLOCK * k <= BLOCK
    ensures LastBlock(n) == k
  {
  }

  lemma NextBlock(h0: seq<bv64>, d: seq<byte>, k: nat, h: seq<bv64>, t0: nat, t1: nat, block: seq<byte>, u0: nat, u1: nat)
    requires Compressed(h0, d, k, h, t0, t1) && BLOCK * (k + 1) <= |d| && block == d[BLOCK * k..BLOCK * k + BLOCK]
    requires u0 < WORD && u1 < WORD && (u0 + WORD * u1) % (WORD * WORD) == (BLOCK * k + BLOCK) % (WORD * WORD)
    ensures Compressed(h0, d, k + 1, CompressWords(h, block, u0 as bv64, u1 as bv64, 0, 0), u0, u1)
  {
    hide F, CompressWords;
    CounterWords(h, block, BLOCK * (k + 1), u0, u1);
    assert BlockAt(d, k) == block;
  }

  /** F takes the two words of the counter. */
  lemma CounterWords(h: seq<bv64>, block: seq<byte>, n: nat, u0: nat, u1: nat)
    requires |h| == 8 && |block| == BLOCK && u0 < WORD && u1 < WORD && (u0 + WORD * u1) % (WORD * WORD) == n % (WORD * WORD)
    ensures F(h, block, n, false, false) == CompressWords(h, block, u0 as bv64, u1 as bv64, 0, 0)
  {
    hide CompressWords;
    WordParts(n, u0, u1);
  }

  /** The fields of blake2b_param as blake2b_init and blake2b_init_key set them. */
  method ParamBlock(keylen: nat, outlen: nat) returns (block: seq<byte>)
    requires keylen < 256 && outlen < 256
    ensures IsParamBlock(block, keylen, outlen)
  {
    var p := new byte[PARAM_BYTES](_ => 0);
    p[0], p[1], p[2], p[3] := outlen, keylen, 1, 1;
    return p[..];
  }

  lemma FedNothing(h: seq<bv64>)
    requires |h| == 8
    ensures Fed(h, [], h, 0, 0, [])
  {
  }

  /** blake2b_init_param: the initial vector xor the words of the block. */
  method InitParam(p: seq<byte>, ghost keylen: nat, ghost outlen: nat) returns (h: seq<bv64>)
    requires keylen <= KEY_BYTES && outlen <= OUT_BYTES && IsParamBlock(p, keylen, outlen)
    ensures h == Start(keylen, outlen)
  {
    hide LeValue, Load64, Start;
    h := IV;
    for i := 0 to 8
      invariant |h| == 8
      invariant forall k :: i <= k < 8 ==> h[k] == IV[k]
      invariant forall k :: 0 <= k < i ==> h[k] == IV[k] ^ Load64(p[8 * k..8 * k + 8])
    {
      h := h[i := h[i] ^ Load64(p[8 * i..8 * i + 8])];
    }
    StartIsParamBlock(p, keylen, outlen);
  }

  class Blake2b {
    var h: seq<bv64>
    var t0: nat
    var t1: nat
    var f0: bv64
    var f1: bv64
    const buf: array<byte>
    var buflen: nat
    var outlen: nat
    var lastNode: bool
    ghost const h0: seq<bv64>
    ghost var data: seq<byte>

    /** data is what has been fed since the start. */
    ghost predicate Streaming()
      reads this, buf
    {
      && buf.Length == BLOCK && buflen <= BLOCK && outlen <= OUT_BYTES
      && f0 == 0 && f1 == 0 && Fed(h0, data, h, t0, t1, buf[..buflen])
    }

    /** blake2b_init: the parameter block holds two lengths, and 1 for fanout and depth. */
    constructor (keylen: nat, outlen: nat)
      requires keylen <= KEY_BYTES && 1 <= outlen <= OUT_BYTES
      ensures Streaming() && fresh(buf) && data == [] && h0 == Start(keylen, outlen) && this.outlen == outlen && !lastNode
    {
      hide LeValue, Load64, Start, Fed, IsParamBlock;
      var p := ParamBlock(keylen, outlen);
      var start := InitParam(p, keylen, outlen);
      FedNothing(start);
      h := start;
      t0, t1, f0, f1 := 0, 0, 0, 0;
      buf := new byte[BLOCK](_ => 0);
      buflen, this.outlen, lastNode := 0, outlen, false;
      h0, data := Start(keylen, outlen), [];
    }

    /** blake2b_increment_counter */
    method IncrementCounter(inc: nat, ghost total: nat)
      requires t0 < WORD && t1 < WORD && inc < WORD && (t0 + WORD * t1) % (WORD * WORD) == total % (WORD * WORD)
      modifies this`t0, this`t1
      ensures t0 < WORD && t1 < WORD && (t0 + WORD * t1) % (WORD * WORD) == (total + inc) % (WORD * WORD)
    {
      CounterStep(t0, t1, inc, total);
      t0 := (t0 + inc) % WORD;
      t1 := (t1 + if t0 < inc then 1 else 0) % WORD;
    }

    /** A full block that is not the last. */
    method Compress(block: seq<byte>, ghost d: seq<byte>, ghost k: nat)
      requires Compressed(h0, d, k, h, t0, t1) && f0 == 0 && f1 == 0
      requires BLOCK * (k + 1) <= |d| && block == d[BLOCK * k..BLOCK * k + BLOCK]
      modifies this`h, this`t0, this`t1
      ensures Compressed(h0, d, k + 1, h, t0, t1)
    {
      hide CompressWords, Chain;
      ghost var a, b := t0, t1;
      IncrementCounter(BLOCK, BLOCK * k);
      NextBlock(h0, d, k, h, a, b, block, t0, t1);
      h := CompressWords(h, block, t0 as bv64, t1 as bv64, f0, f1);
    }

    /** blake2b_update: the state depends on all that has been fed, not on the pieces it came in. */
    method Update(input: seq<byte>)
      requires Streaming()
      modifies this, buf
      ensures Streaming() && data == old(data) + input && outlen == old(outlen) && lastNode == old(lastNode)
    {
      hide CompressWords, Chain, Fed, Compressed;
      ghost var all := data + input;
      FedIsCompressed(h0, data, input, h, t0, t1, buf[..buflen]);
      if |input| > 0 {
        ghost var k := LastBlock(|data|);
        var rest;
        rest, k := FullBlocks(input, all, k);
        ghost var kept := buf[..buflen];
        KeepRest(rest);
        assert buf[..buflen] == all[BLOCK * k..];
        CompressedIsFed(h0, all, k, h, t0, t1);
      } else {
        assert all == data;
      }
      data := all;
    }

    /** The rest fits into the buffer behind what is there. */
    method KeepRest(rest: seq<byte>)
      requires buf.Length == BLOCK && buflen + |rest| <= BLOCK
      modifies this`buflen, buf
      ensures buflen == old(buflen) + |rest| && buf[..buflen] == old(buf[..buflen]) + rest
    {
      forall i | 0 <= i < |rest| {
        buf[buflen + i] := rest[i];
      }
      buflen := buflen + |rest|;
      assert buf[..buflen] == old(buf[..buflen]) + rest;
    }

    /** As long as more than a block is there: first what is buffered, then whole blocks of the input. */
    method FullBlocks(input: seq<byte>, ghost all: seq<byte>, ghost k0: nat) returns (rest: seq<byte>, ghost k: nat)
      requires buf.Length == BLOCK && buflen <= BLOCK && f0 == 0 && f1 == 0 && |input| > 0
      requires Compressed(h0, all, k0, h, t0, t1) && BLOCK * k0 <= |all| && buf[..buflen] + input == all[BLOCK * k0..]
      modifies this`h, this`t0, this`t1, this`buflen, buf
      ensures Compressed(h0, all, k, h, t0, t1) && buflen <= BLOCK && |rest| > 0 && buflen + |rest| <= BLOCK
      ensures BLOCK * k <= |all| && buf[..buflen] + rest == all[BLOCK * k..]
    {
      hide CompressWords, Chain, Compressed;
      rest, k := input, k0;
      var left := buflen;
      var fill := BLOCK - left;
      if |input| > fill {
        buflen := 0;
        FillBuffer(input, left, fill, all, k);
        Compress(buf[..], all, k);
        k := k + 1;
        rest := rest[fill..];
        while |rest| > BLOCK
          invariant Compressed(h0, all, k, h, t0, t1) && f0 == 0 && f1 == 0 && buflen == 0
          invariant |rest| > 0 && BLOCK * k <= |all| && rest == all[BLOCK * k..]
        {
          MiddleBlock(all, k, rest);
          Compress(rest[..BLOCK], all, k);
          rest := rest[BLOCK..];
          k := k + 1;
        }
        assert buf[..buflen] + rest == rest;
      }
    }

    /** Zeros behind what is buffered. */
    method PadBuffer()
      requires buf.Length == BLOCK && buflen <= BLOCK
      modifies buf
      ensures buf[..][..buflen] == old(buf[..buflen]) && forall i :: buflen <= i < BLOCK ==> buf[..][i] == 0
    {
      forall i | buflen <= i < BLOCK {
        buf[i] := 0;
      }
      assert buf[..][..buflen] == old(buf[..buflen]);
    }

    /** blake2b_final: refused when it has been done before, or when there is too little room. */
    method Final(room: nat) returns (out: Option<seq<byte>>)
      requires (Streaming() || f0 == ONES) && buf.Length == BLOCK && buflen <= BLOCK
      modifies this, buf
      ensures room < old(outlen) || old(f0) != 0 ==> out == None && h == old(h) && f0 == old(f0)
      ensures room >= old(outlen) && old(f0) == 0 ==>
        f0 == ONES && out == Some(Truncated(Store(FinalHash(h0, old(data), old(lastNode))), old(outlen)))
    {
      hide CompressWords, Chain, Fed, Compressed, FinalHash, Store, Truncated;
      if room < outlen {
        return None;
      }
      if f0 != 0 {
        return None;
      }
      ghost var buffered := buf[..buflen];
      FedCounter(h0, data, h, t0, t1, buffered);
      ghost var k := LastBlock(|data|);
      IncrementCounter(buflen, BLOCK * k);
      if lastNode {
        f1 := ONES;
      }
      f0 := ONES;
      PadBuffer();
      LastCompressed(h0, data, h, buffered, buf[..], t0, t1, lastNode);
      h := CompressWords(h, buf[..], t0 as bv64, t1 as bv64, f0, f1);
      return Some(Truncated(Store(h), outlen));
    }

    method FillBuffer(input: seq<byte>, left: nat, fill: nat, ghost all: seq<byte>, ghost k: nat)
      requires buf.Length == BLOCK && left + fill == BLOCK && fill < |input|
      requires BLOCK * k <= |all| && buf[..left] + input == all[BLOCK * k..]
      modifies buf
      ensures BLOCK * (k + 1) < |all| && buf[..] == all[BLOCK * k..BLOCK * k + BLOCK] && input[fill..] == all[BLOCK * (k + 1)..]
    {
      ghost var start := buf[..left];
      forall i | 0 <= i < fill {
        buf[left + i] := input[i];
      }
      assert buf[..] == start + input[..fill];
      FirstBlock(all, k, start, input, fill);
    }
  }

  function Truncated(bytes: seq<byte>, n: nat): seq<byte> {
    if n <= |bytes| then bytes[..n] else bytes
  }

  lemma FedCounter(h0: seq<bv64>, d: seq<byte>, h: seq<bv64>, t0: nat, t1: nat, buffered: seq<byte>)
    requires Fed(h0, d, h, t0, t1, buffered)
    ensures t0 < WORD && t1 < WORD && (t0 + WORD * t1) % (WORD * WORD) == BLOCK * LastBlock(|d|) % (WORD * WORD)
    ensures |h0| == 8 && h == Chain(h0, d, LastBlock(|d|)) && BLOCK * LastBlock(|d|) <= |d|
    ensures buffered == d[BLOCK * LastBlock(|d|)..] && |buffered| == |d| - BLOCK * LastBlock(|d|) <= BLOCK
  {
    LastBlockBounds(|d|);
    hide Chain, LastBlock;
  }

  /** The last compression: the counter is the length of everything, and zeros fill the block. */
  lemma LastCompressed(h0: seq<bv64>, d: seq<byte>, h: seq<bv64>, buffered: seq<byte>, block: seq<byte>, t0: nat, t1: nat,
                       lastNode: bool)
    requires |h0| == 8 && h == Chain(h0, d, LastBlock(|d|)) && BLOCK * LastBlock(|d|) <= |d|
    requires buffered == d[BLOCK * LastBlock(|d|)..] && |buffered| <= |block| == BLOCK
    requires block[..|buffered|] == buffered && forall i :: |buffered| <= i < BLOCK ==> block[i] == 0
    requires t0 < WORD && t1 < WORD && (t0 + WORD * t1) % (WORD * WORD) == (BLOCK * LastBlock(|d|) + |buffered|) % (WORD * WORD)
    ensures CompressWords(h, block, t0 as bv64, t1 as bv64, ONES, if lastNode then ONES else 0) == FinalHash(h0, d, lastNode)
  {
    hide CompressWords, Chain, LastBlock;
    WordParts(|d|, t0, t1);
    PaddedBlock(d, LastBlock(|d|), buffered, block);
  }

  lemma PaddedBlock(d: seq<byte>, k: nat, buffered: seq<byte>, block: seq<byte>)
    requires BLOCK * k <= |d| && buffered == d[BLOCK * k..] && |buffered| <= |block| == BLOCK
    requires block[..|buffered|] == buffered && forall i :: |buffered| <= i < BLOCK ==> block[i] == 0
    ensures BlockAt(d, k) == block
  {
    forall i | 0 <= i < BLOCK
      ensures BlockAt(d, k)[i] == block[i]
    {
      assert i < |buffered| ==> block[..|buffered|][i] == block[i];
    }
  }

  // ---- The whole hash.

  function Concat(pieces: seq<seq<byte>>): seq<byte> {
    if pieces == [] then [] else Concat(pieces[..|pieces| - 1]) + pieces[|pieces| - 1]
  }

  lemma {:induction false} StoreLength(h: seq<bv64>)
    ensures |Store(h)| == 8 * |h|
  {
    if h != [] {
      StoreLength(h[1..]);
    }
  }

  /** Word i of the hash, low byte first, stands in the bytes from 8 * i on. */
  lemma {:induction false} StoreAt(h: seq<bv64>, i: nat)
    requires i < |h|
    ensures 8 * i + 8 <= |Store(h)| && LeValue(Store(h)[8 * i..8 * i + 8]) == h[i] as nat
  {
    hide LeValue, LeBytes;
    StoreLength(h);
    var first, rest := LeBytes(h[0] as nat, 8), Store(h[1..]);
    assert Store(h) == first + rest;
    if i == 0 {
      assert Store(h)[0..8] == first;
      ValueOfBytes(h[0]);
    } else {
      StoreAt(h[1..], i - 1);
      assert Store(h)[8 * i..8 * i + 8] == rest[8 * (i - 1)..8 * (i - 1) + 8];
    }
  }

  lemma ValueOfBytes(w: bv64)
    ensures LeValue(LeBytes(w as nat, 8)) == w as nat
  {
    hide LeValue, LeBytes, Pow2;
    Pow2Values();
    Pow2Add(8, 8);
    Pow2Add(16, 16);
    Pow2Add(32, 32);
    LeValueBytes(w as nat, 8);
  }

  /** Start, feed and finish: however the message is cut into pieces, the result is its digest. */
  method Hash(key: seq<byte>, pieces: seq<seq<byte>>, outlen: nat) returns (digest: Option<seq<byte>>)
    ensures digest.Some? <==> 1 <= outlen <= OUT_BYTES && |key| <= KEY_BYTES
    ensures digest.Some? ==> digest.value == Digest(key, Concat(pieces), outlen) && |digest.value| == outlen
  {
    hide Chain, Fed, Compressed, FinalHash, Start, Store, Pad;
    if outlen < 1 || outlen > OUT_BYTES || |key| > KEY_BYTES {
      return None;
    }
    var s := new Blake2b(|key|, outlen);
    ghost var head: seq<byte> := [];
    if |key| > 0 {
      s.Update(Pad(key));
      head := Pad(key);
      assert [] + Pad(key) == Pad(key);
    }
    var i := 0;
    assert head + Concat(pieces[..0]) == head;
    while i < |pieces|
      invariant 0 <= i <= |pieces| && s.Streaming() && fresh(s) && fresh(s.buf) && s.outlen == outlen && !s.lastNode
      invariant s.data == head + Concat(pieces[..i]) && s.h0 == Start(|key|, outlen)
    {
      s.Update(pieces[i]);
      assert pieces[..i + 1][..i] == pieces[..i];
      Assoc(head, Concat(pieces[..i]), pieces[i]);
      i := i + 1;
    }
    assert pieces[..i] == pieces;
    assert head + Concat(pieces) == Message(key, Concat(pieces)) by {
      assert [] + Concat(pieces) == Concat(pieces);
    }
    StoreLength(FinalHash(s.h0, s.data, false));
    digest := s.Final(outlen);
  }

  lemma FirstBlock(all: seq<byte>, k: nat, start: seq<byte>, input: seq<byte>, fill: nat)
    requires BLOCK * k <= |all| && start + input == all[BLOCK * k..] && |start| + fill == BLOCK && fill < |input|
    ensures BLOCK * (k + 1) < |all| && start + input[..fill] == all[BLOCK * k..BLOCK * k + BLOCK]
    ensures input[fill..] == all[BLOCK * (k + 1)..]
  {
    var t := start + input;
    assert t[..BLOCK] == start + input[..fill] && t[BLOCK..] == input[fill..];
    assert all[BLOCK * k..][..BLOCK] == all[BLOCK * k..BLOCK * k + BLOCK];
    assert all[BLOCK * k..][BLOCK..] == all[BLOCK * (k + 1)..];
  }

  lemma MiddleBlock(all: seq<byte>, k: nat, rest: seq<byte>)
    requires BLOCK * k <= |all| && rest == all[BLOCK * k..] && |rest| > BLOCK
    ensures BLOCK * (k + 1) < |all| && rest[..BLOCK] == all[BLOCK * k..BLOCK * k + BLOCK]
    ensures rest[BLOCK..] == all[BLOCK * (k + 1)..]
  {
  }
}
