/** Canonical Huffman codes, section 3.2.2 of RFC 1951: how a list of code lengths names a code,
    and when the words of that code can be told apart. */
module Canonical {
  import opened Wrappers
  import opened Arith
  import opened Bits

  function Zeros(n: nat): (s: seq<nat>)
    ensures |s| == n
  {
    seq(n, _ => 0)
  }

  /** How many symbols have length l. */
  function Count(lens: seq<nat>, l: nat): nat {
    if lens == [] then 0
    else Count(lens[..|lens| - 1], l) + if lens[|lens| - 1] == l then 1 else 0
  }

  /** The smallest code of length l, step 2 of the algorithm in section 3.2.2. */
  function NextCode(lens: seq<nat>, l: nat): nat {
    if l <= 1 then 0 else 2 * (NextCode(lens, l - 1) + Count(lens, l - 1))
  }

  /** Step 3: symbols of one length take consecutive codes, in symbol order. */
  function Code(lens: seq<nat>, s: nat): nat
    requires s < |lens|
  {
    NextCode(lens, lens[s]) + Count(lens[..s], lens[s])
  }

  /** The bits sent for symbol s. */
  function Codeword(lens: seq<nat>, s: nat): (w: seq<bool>)
    requires s < |lens|
    ensures |w| == lens[s]
  {
    MsbBits(Code(lens, s), lens[s])
  }

  /** The Kraft sum of the codes of length at most l, in units of 2^-l. */
  function Kraft(lens: seq<nat>, l: nat): nat {
    if lens == [] then 0
    else
      var last := lens[|lens| - 1];
      Kraft(lens[..|lens| - 1], l) + if 0 < last <= l then Pow2(l - last) else 0
  }

  ghost predicate Bounded(lens: seq<nat>, m: nat) {
    forall i :: 0 <= i < |lens| ==> lens[i] <= m
  }

  /** No code space is used twice. */
  ghost predicate Decodable(lens: seq<nat>, m: nat) {
    Bounded(lens, m) && Kraft(lens, m) <= Pow2(m)
  }

  /** All code space is used exactly once. */
  ghost predicate Complete(lens: seq<nat>, m: nat) {
    Bounded(lens, m) && Kraft(lens, m) == Pow2(m)
  }

  /** Symbol s is sent at the front of bits. */
  ghost predicate Sends(lens: seq<nat>, s: nat, bits: seq<bool>) {
    s < |lens| && lens[s] > 0 && Codeword(lens, s) <= bits
  }

  ghost function DecodeSym(lens: seq<nat>, bits: seq<bool>): (r: Option<nat>)
    ensures r.Some? ==> Sends(lens, r.value, bits)
    ensures r.None? ==> forall s :: !Sends(lens, s, bits)
  {
    if s: nat :| Sends(lens, s, bits) then Some(s) else None
  }

  lemma {:induction false} KraftStep(lens: seq<nat>, l: nat)
    requires l >= 1
    ensures Kraft(lens, l) == 2 * Kraft(lens, l - 1) + Count(lens, l)
  {
    if lens != [] {
      KraftStep(lens[..|lens| - 1], l);
    }
  }

  /** The codes of lengths up to l fill the code space from the bottom: the next free code of
      length l is their Kraft sum. */
  lemma {:induction false} FirstFree(lens: seq<nat>, l: nat)
    requires l >= 1
    ensures NextCode(lens, l) + Count(lens, l) == Kraft(lens, l)
    ensures NextCode(lens, l) == 2 * Kraft(lens, l - 1)
  {
    KraftStep(lens, l);
    if l == 1 {
      KraftZero(lens);
    } else {
      FirstFree(lens, l - 1);
    }
  }

  lemma {:induction false} KraftZero(lens: seq<nat>)
    ensures Kraft(lens, 0) == 0
  {
    if lens != [] {
      KraftZero(lens[..|lens| - 1]);
    }
  }

  lemma {:induction false} CountPrefix(lens: seq<nat>, s: nat, t: nat, l: nat)
    requires s <= t <= |lens|
    ensures Count(lens[..s], l) <= Count(lens[..t], l)
    ensures s < t && lens[s] == l ==> Count(lens[..s], l) < Count(lens[..t], l)
    decreases t
  {
    if s < t {
      assert lens[..t][..t - 1] == lens[..t - 1];
      CountPrefix(lens, s, t - 1, l);
    }
  }

  lemma {:induction false} KraftScale(lens: seq<nat>, l: nat, m: nat)
    requires l <= m
    ensures Kraft(lens, l) * Pow2(m - l) <= Kraft(lens, m)
    decreases m
  {
    if l < m {
      KraftScale(lens, l, m - 1);
      KraftStep(lens, m);
      assert Pow2(m - l) == 2 * Pow2(m - 1 - l);
      MulTwo(Kraft(lens, l), Pow2(m - 1 - l));
    } else {
      assert Pow2(0) == 1;
    }
  }

  /** A code of length l lies in the stretch of code space set aside for length l. */
  lemma CodeRange(lens: seq<nat>, s: nat)
    requires s < |lens| && lens[s] > 0
    ensures 2 * Kraft(lens, lens[s] - 1) <= Code(lens, s) < Kraft(lens, lens[s])
  {
    FirstFree(lens, lens[s]);
    assert lens[..|lens|] == lens;
    CountPrefix(lens, s, |lens|, lens[s]);
  }

  lemma CodeFits(lens: seq<nat>, s: nat, m: nat)
    requires Decodable(lens, m) && s < |lens| && lens[s] > 0
    ensures Code(lens, s) < Pow2(lens[s])
  {
    var l := lens[s];
    CodeRange(lens, s);
    KraftScale(lens, l, m);
    Pow2Add(l, m - l);
    MulCancel(Kraft(lens, l), Pow2(l), Pow2(m - l));
  }

  /** Dropping the low bits of a longer code never gives a shorter one. */
  lemma ShorterIsBelow(lens: seq<nat>, s: nat, t: nat)
    requires s < |lens| && t < |lens| && 0 < lens[s] < lens[t]
    ensures Code(lens, t) / Pow2(lens[t] - lens[s]) > Code(lens, s)
  {
    CodeRange(lens, s);
    CodeRange(lens, t);
    var k, c, p := Kraft(lens, lens[s]), Code(lens, t), Pow2(lens[t] - lens[s]);
    KraftScale(lens, lens[s], lens[t] - 1);
    MulTwo(k, Pow2(lens[t] - 1 - lens[s]));
    DivAtLeast(c, k, p);
  }

  /** No codeword starts another: the code can be decoded. */
  lemma PrefixFree(lens: seq<nat>, m: nat, s: nat, t: nat)
    requires Decodable(lens, m)
    requires s < |lens| && t < |lens| && s != t && lens[s] > 0 && lens[t] > 0
    ensures !(Codeword(lens, s) <= Codeword(lens, t))
  {
    CodeFits(lens, s, m);
    CodeFits(lens, t, m);
    if Codeword(lens, s) <= Codeword(lens, t) {
      var c, l, n := Code(lens, t), lens[s], lens[t];
      MsbBitsTake(c, n, l);
      assert Codeword(lens, t)[..l] == Codeword(lens, s);
      if l < n {
        ShorterIsBelow(lens, s, t);
        DivBelow(c, l, n);
        MsbBitsInjective(c / Pow2(n - l), Code(lens, s), l);
      } else {
        assert Pow2(0) == 1;
        MsbBitsInjective(c, Code(lens, s), l);
        if s < t {
          CountPrefix(lens, s, t, l);
        } else {
          CountPrefix(lens, t, s, l);
        }
      }
    }
  }

  lemma DivBelow(c: nat, l: nat, n: nat)
    requires l <= n && c < Pow2(n)
    ensures c / Pow2(n - l) < Pow2(l)
  {
    Pow2Add(l, n - l);
    DivAtLeast(c, Pow2(l), Pow2(n - l));
  }

  /** The symbol at the front of a bit string is unique. */
  lemma SendsUnique(lens: seq<nat>, m: nat, s: nat, t: nat, bits: seq<bool>)
    requires Decodable(lens, m) && Sends(lens, s, bits) && Sends(lens, t, bits)
    ensures s == t
  {
    PrefixesNest(Codeword(lens, s), Codeword(lens, t), bits);
    if s != t {
      PrefixFree(lens, m, s, t);
      PrefixFree(lens, m, t, s);
    }
  }

  lemma PrefixesNest(a: seq<bool>, b: seq<bool>, c: seq<bool>)
    requires a <= c && b <= c
    ensures a <= b || b <= a
  {
    assert |a| <= |b| ==> a == b[..|a|];
    assert |b| <= |a| ==> b == a[..|b|];
  }

  /** Decoding gives back the symbol whose codeword was sent. */
  lemma DecodeSent(lens: seq<nat>, m: nat, s: nat, rest: seq<bool>)
    requires Decodable(lens, m) && s < |lens| && lens[s] > 0
    ensures DecodeSym(lens, Codeword(lens, s) + rest) == Some(s)
  {
    var bits := Codeword(lens, s) + rest;
    assert Sends(lens, s, bits);
    SendsUnique(lens, m, s, DecodeSym(lens, bits).value, bits);
  }

  lemma {:induction false} NthOfLength(lens: seq<nat>, l: nat, k: nat) returns (s: nat)
    requires k < Count(lens, l)
    ensures s < |lens| && lens[s] == l && Count(lens[..s], l) == k
  {
    var n := |lens| - 1;
    if k < Count(lens[..n], l) {
      s := NthOfLength(lens[..n], l, k);
      assert lens[..n][..s] == lens[..s];
    } else {
      s := n;
    }
  }

  /** In a complete code every long enough bit string starts with a codeword. */
  lemma CompleteDecodes(lens: seq<nat>, m: nat, bits: seq<bool>) returns (s: nat)
    requires Complete(lens, m) && |bits| >= m
    ensures Sends(lens, s, bits)
  {
    var v := FromMsb(bits[..m]);
    MsbFromMsb(bits[..m]);
    KraftZero(lens);
    assert Pow2(0) == 1;
    s := FindInterval(lens, m, v, m);
    var l := lens[s];
    MsbBitsTake(v, m, l);
    assert bits[..m][..l] == bits[..l];
  }

  lemma {:induction false} FindInterval(lens: seq<nat>, m: nat, v: nat, l: nat) returns (s: nat)
    requires l <= m && v / Pow2(m - l) < Kraft(lens, l)
    ensures s < |lens| && 0 < lens[s] <= m && Code(lens, s) == v / Pow2(m - lens[s])
    decreases l
  {
    KraftZero(lens);
    hide Kraft, Pow2, NextCode;
    var u := v / Pow2(m - l);
    if v / Pow2(m - (l - 1)) < Kraft(lens, l - 1) {
      s := FindInterval(lens, m, v, l - 1);
    } else {
      DivTwice(v, m - l);
      FirstFree(lens, l);
      assert u >= NextCode(lens, l);
      s := NthOfLength(lens, l, u - NextCode(lens, l));
    }
  }

  lemma DivTwice(v: nat, k: nat)
    ensures v / Pow2(k + 1) == (v / Pow2(k)) / 2
  {
    var p := Pow2(k);
    var q := v / p;
    assert v == q * p + v % p;
    assert q == 2 * (q / 2) + q % 2;
    assert v == (q / 2) * (2 * p) + ((q % 2) * p + v % p);
    assert 0 <= (q % 2) * p + v % p < 2 * p;
    DivModUnique(v, 2 * p, q / 2, (q % 2) * p + v % p);
  }

  lemma {:induction false} CountBeyond(lens: seq<nat>, m: nat, l: nat)
    requires Bounded(lens, m) && l > m
    ensures Count(lens, l) == 0
  {
    if lens != [] {
      CountBeyond(lens[..|lens| - 1], m, l);
    }
  }

  lemma {:induction false} KraftExact(lens: seq<nat>, m: nat, l: nat)
    requires Bounded(lens, m) && m <= l
    ensures Kraft(lens, l) == Kraft(lens, m) * Pow2(l - m)
    decreases l
  {
    if m < l {
      KraftExact(lens, m, l - 1);
      KraftStep(lens, l);
      CountBeyond(lens, m, l);
      MulTwo(Kraft(lens, m), Pow2(l - 1 - m));
    } else {
      assert Pow2(0) == 1;
    }
  }

  /** Completeness does not depend on the longest length one allows for. */
  lemma CompleteAt(lens: seq<nat>, m: nat, l: nat)
    requires Bounded(lens, m) && m <= l
    ensures Complete(lens, m) <==> Complete(lens, l)
  {
    KraftExact(lens, m, l);
    Pow2Add(m, l - m);
    MulEqual(Kraft(lens, m), Pow2(m), Pow2(l - m));
  }

  lemma MulEqual(a: nat, b: nat, p: nat)
    requires p >= 1
    ensures a == b <==> a * p == b * p
  {
    if a * p == b * p {
      MulCancel(a, b, p);
      MulCancel(b, a, p);
    }
  }

  lemma {:induction false} CountUpdate(lens: seq<nat>, i: nat, v: nat, l: nat)
    requires i < |lens|
    ensures Count(lens[i := v], l)
         == Count(lens, l) + (if v == l then 1 else 0) - (if lens[i] == l then 1 else 0)
  {
    var n := |lens| - 1;
    if i < n {
      CountUpdate(lens[..n], i, v, l);
      assert lens[i := v][..n] == lens[..n][i := v];
    } else {
      assert lens[i := v][..n] == lens[..n];
    }
  }
}
