/** From symbol frequencies to the codes of a Huffman table (libs/fpng/fpng.cpp:681-709). */
module HuffmanTable {
  import opened Arith
  import opened Bits
  import opened Canonical
  import opened LimitLengths
  import opened MinimumRedundancy
  import opened RadixSort

  /** The used symbols with their frequencies, in symbol order. */
  function Used(count: seq<uint16>): (s: seq<SymFreq>)
    ensures |s| <= |count|
  {
    if count == [] then []
    else
      var n := |count| - 1;
      Used(count[..n]) + if count[n] > 0 then [SymFreq(count[n], n)] else []
  }

  /** Every used symbol is listed once. */
  ghost predicate Lists(count: seq<uint16>, s: seq<SymFreq>) {
    && (forall i :: 0 <= i < |s| ==> s[i].sym < |count| && s[i].key == count[s[i].sym] > 0)
    && (forall i, j :: 0 <= i < j < |s| ==> s[i].sym != s[j].sym)
    && (forall x :: 0 <= x < |count| && count[x] > 0 ==> SymFreq(count[x], x) in s)
  }

  lemma {:induction false} UsedLists(count: seq<uint16>)
    ensures Lists(count, Used(count))
  {
    hide Lists;
    if count == [] {
      NoneListed();
    } else {
      var n := |count| - 1;
      UsedLists(count[..n]);
      OneMoreListed(count, Used(count[..n]));
    }
  }

  lemma NoneListed()
    ensures Lists([], [])
  {
  }

  lemma OneMoreListed(count: seq<uint16>, s: seq<SymFreq>)
    requires count != [] && Lists(count[..|count| - 1], s)
    ensures var n := |count| - 1;
      Lists(count, s + if count[n] > 0 then [SymFreq(count[n], n)] else [])
  {
    var n := |count| - 1;
    var t := s + if count[n] > 0 then [SymFreq(count[n], n)] else [];
    forall i | 0 <= i < |t|
      ensures t[i].sym < |count| && t[i].key == count[t[i].sym] > 0 && (i < |s| ==> t[i].sym < n)
    {
      assert i < |s| ==> t[i] == s[i];
    }
    forall x | 0 <= x < |count| && count[x] > 0
      ensures SymFreq(count[x], x) in t
    {
      if x < n {
        assert SymFreq(count[..n][x], x) in s;
      } else {
        assert t[|s|] == SymFreq(count[n], n);
      }
    }
  }

  lemma ListsPermuted(count: seq<uint16>, s: seq<SymFreq>, t: seq<SymFreq>)
    requires Lists(count, s) && multiset(s) == multiset(t)
    ensures Lists(count, t)
  {
    SameMembers(s, t);
    forall i | 0 <= i < |t|
      ensures t[i].sym < |count| && t[i].key == count[t[i].sym] > 0
    {
      assert t[i] in s;
    }
    forall i, j | 0 <= i < j < |t|
      ensures t[i].sym != t[j].sym
    {
      if t[i].sym == t[j].sym {
        Twice(t, i, j);
        Once(s, t[i]);
      }
    }
  }

  lemma SameMembers(s: seq<SymFreq>, t: seq<SymFreq>)
    requires multiset(s) == multiset(t)
    ensures forall x :: x in s <==> x in t
  {
    assert forall x :: x in s <==> x in multiset(s);
  }

  lemma Twice(t: seq<SymFreq>, i: nat, j: nat)
    requires i < j < |t| && t[i] == t[j]
    ensures multiset(t)[t[i]] >= 2
  {
    assert t == t[..j] + [t[j]] + t[j + 1..];
    assert t[i] in t[..j];
  }

  lemma {:induction false} Once(s: seq<SymFreq>, x: SymFreq)
    requires forall i, j :: 0 <= i < j < |s| ==> s[i].sym != s[j].sym
    ensures multiset(s)[x] <= 1
  {
    if s != [] {
      var n := |s| - 1;
      Once(s[..n], x);
      assert s == s[..n] + [s[n]];
      assert s[n] == x ==> x !in s[..n];
    }
  }

  lemma KeysSnoc(s: seq<SymFreq>, x: SymFreq)
    ensures Keys(s + [x]) == Keys(s) + [x.key]
  {
  }

  lemma {:induction false} SumUsed(count: seq<uint16>)
    ensures Sum(Keys(Used(count))) == Sum(count)
  {
    if count != [] {
      var n := |count| - 1;
      SumUsed(count[..n]);
      SumSnoc(count[..n], count[n]);
      assert count[..n] + [count[n]] == count;
      if count[n] > 0 {
        KeysSnoc(Used(count[..n]), SymFreq(count[n], n));
        SumSnoc(Keys(Used(count[..n])), count[n]);
      } else {
        assert Used(count) == Used(count[..n]);
      }
    }
  }

  lemma {:induction false} SumInsert(a: seq<nat>, v: nat, b: seq<nat>)
    ensures Sum(a + [v] + b) == Sum(a + b) + v
  {
    if a == [] {
      assert [] + [v] + b == [v] + b && ([v] + b)[1..] == b && [] + b == b;
    } else {
      SumInsert(a[1..], v, b);
      assert (a + [v] + b)[1..] == a[1..] + [v] + b && (a + b)[1..] == a[1..] + b;
    }
  }

  lemma {:induction false} SumPermuted(s: seq<SymFreq>, t: seq<SymFreq>)
    requires multiset(s) == multiset(t)
    ensures Sum(Keys(s)) == Sum(Keys(t))
  {
    if s == [] {
      assert |multiset(t)| == 0;
    } else {
      SameMembers(s, t);
      assert s[0] in s;
      var j :| 0 <= j < |t| && t[j] == s[0];
      RemoveOne(s, t, j);
      SumPermuted(s[1..], t[..j] + t[j + 1..]);
      SumWithout(t, j);
      assert Keys(s)[1..] == Keys(s[1..]);
    }
  }

  lemma RemoveOne(s: seq<SymFreq>, t: seq<SymFreq>, j: nat)
    requires multiset(s) == multiset(t) && j < |t| && s != [] && t[j] == s[0]
    ensures multiset(s[1..]) == multiset(t[..j] + t[j + 1..])
  {
    assert s == [s[0]] + s[1..];
    assert t == t[..j] + [t[j]] + t[j + 1..];
    assert multiset(s[1..]) == multiset(s) - multiset{s[0]};
    assert multiset(t[..j] + t[j + 1..]) == multiset(t) - multiset{t[j]};
  }

  lemma SumWithout(t: seq<SymFreq>, j: nat)
    requires j < |t|
    ensures Sum(Keys(t)) == Sum(Keys(t[..j] + t[j + 1..])) + t[j].key
  {
    SumInsert(Keys(t[..j]), t[j].key, Keys(t[j + 1..]));
    assert Keys(t[..j] + t[j + 1..]) == Keys(t[..j]) + Keys(t[j + 1..]);
    assert Keys(t) == Keys(t[..j]) + [t[j].key] + Keys(t[j + 1..]);
  }

  method CollectUsed(count: seq<uint16>) returns (syms: array<SymFreq>, used: nat)
    ensures fresh(syms) && syms.Length == |count| && used <= |count|
    ensures syms[..used] == Used(count)
  {
    syms := new SymFreq[|count|](_ => SymFreq(0, 0));
    used := 0;
    var i := 0;
    while i < |count|
      invariant 0 <= i <= |count| && used <= i
      invariant syms[..used] == Used(count[..i])
    {
      assert count[..i + 1][..i] == count[..i];
      if count[i] > 0 {
        syms[used] := SymFreq(count[i], i);
        used := used + 1;
      }
      i := i + 1;
    }
    assert count[..i] == count;
  }

  /** c[l] codes have length l, for every l. */
  ghost predicate Counts(lens: seq<nat>, c: seq<int>) {
    && |c| == MAX_SUPPORTED + 1
    && forall l :: 0 <= l <= MAX_SUPPORTED ==> c[l] == Count(lens, l)
  }

  lemma {:induction false} CountsKraft(lens: seq<nat>, c: seq<int>, l: nat)
    requires Counts(lens, c) && l <= MAX_SUPPORTED
    ensures CountKraft(c, l) == Kraft(lens, l)
  {
    if l == 0 {
      KraftZero(lens);
    } else {
      CountsKraft(lens, c, l - 1);
      KraftStep(lens, l);
    }
  }

  method CountLengths(syms: array<SymFreq>, n: nat) returns (numCodes: array<int>)
    requires n <= syms.Length
    requires forall i :: 0 <= i < n ==> 1 <= syms[i].key <= MAX_SUPPORTED
    ensures fresh(numCodes) && Counts(KeysOf(syms, n), numCodes[..])
    ensures Codes(numCodes[..], 1, MAX_SUPPORTED) == n
  {
    hide Counts, Codes;
    numCodes := new int[MAX_SUPPORTED + 1](_ => 0);
    ghost var lens := KeysOf(syms, n);
    CountNone(numCodes[..]);
    assert lens[..0] == [];
    var i := 0;
    while i < n
      invariant 0 <= i <= n
      invariant Counts(lens[..i], numCodes[..]) && Codes(numCodes[..], 1, MAX_SUPPORTED) == i
    {
      var l := syms[i].key;
      CountOne(lens, i, numCodes[..]);
      ghost var c := numCodes[..];
      numCodes[l] := numCodes[l] + 1;
      assert numCodes[..] == c[l := c[l] + 1];
      i := i + 1;
    }
    assert lens[..n] == lens;
  }

  lemma CountNone(c: seq<int>)
    requires |c| == MAX_SUPPORTED + 1 && forall l :: 0 <= l < |c| ==> c[l] == 0
    ensures Counts([], c) && Codes(c, 1, MAX_SUPPORTED) == 0
  {
    OnlyLongest(c, MAX_SUPPORTED);
    hide Codes;
  }

  lemma CountOne(lens: seq<nat>, i: nat, c: seq<int>)
    requires i < |lens| && 1 <= lens[i] <= MAX_SUPPORTED && Counts(lens[..i], c)
    ensures |c| == MAX_SUPPORTED + 1
    ensures var d := c[lens[i] := c[lens[i]] + 1];
      Counts(lens[..i + 1], d) && Codes(d, 1, MAX_SUPPORTED) == Codes(c, 1, MAX_SUPPORTED) + 1
  {
    hide Codes;
    assert lens[..i + 1][..i] == lens[..i];
    CodesUpdate(c, 1, MAX_SUPPORTED, lens[i], c[lens[i]] + 1);
  }

  // ---- Giving the lengths to the symbols: the most frequent symbol, last in order, gets the first.

  ghost predicate Distinct(srt: seq<SymFreq>) {
    forall p, q :: 0 <= p < q < |srt| ==> srt[p].sym != srt[q].sym
  }

  ghost predicate InRange(srt: seq<SymFreq>, n: nat) {
    forall p :: 0 <= p < |srt| ==> srt[p].sym < n
  }

  ghost predicate Owned(srt: seq<SymFreq>, j: nat, x: nat) {
    exists p :: j <= p < |srt| && srt[p].sym == x
  }

  /** The symbols at positions j.. have got lengths up to i, longest first; no other symbol has one. */
  ghost predicate Placed(sizes: seq<nat>, srt: seq<SymFreq>, i: nat, j: nat) {
    && j <= |srt| && InRange(srt, |sizes|)
    && (forall p :: 0 <= p < j ==> sizes[srt[p].sym] == 0)
    && (forall p :: j <= p < |srt| ==> 1 <= sizes[srt[p].sym] <= i)
    && (forall p, q :: j <= p <= q < |srt| ==> sizes[srt[p].sym] >= sizes[srt[q].sym])
    && (forall x :: 0 <= x < |sizes| && sizes[x] > 0 ==> Owned(srt, j, x))
  }

  /** How many symbols have length k once only l codes of length i, and all longer ones, are left. */
  ghost function Due(c: seq<int>, i: nat, l: int, k: nat): int
    requires k < |c|
  {
    if k < i then c[k] else if k == i then c[k] - l else 0
  }

  ghost predicate Tallied(sizes: seq<nat>, c: seq<int>, i: nat, l: int) {
    forall k :: 1 <= k < |c| ==> Count(sizes, k) == Due(c, i, l, k)
  }

  lemma PlaceOne(sizes: seq<nat>, srt: seq<SymFreq>, i: nat, j: nat)
    requires Placed(sizes, srt, i, j) && j >= 1 && i >= 1 && Distinct(srt)
    ensures srt[j - 1].sym < |sizes| && sizes[srt[j - 1].sym] == 0
    ensures Placed(sizes[srt[j - 1].sym := i], srt, i, j - 1)
  {
    var x := srt[j - 1].sym;
    var sizes' := sizes[x := i];
    forall y | 0 <= y < |sizes| && sizes'[y] > 0
      ensures Owned(srt, j - 1, y)
    {
      assert y != x ==> Owned(srt, j, y);
    }
  }

  lemma TallyOne(sizes: seq<nat>, c: seq<int>, i: nat, l: int, x: nat)
    requires Tallied(sizes, c, i, l) && 1 <= i < |c| && x < |sizes| && sizes[x] == 0
    ensures Tallied(sizes[x := i], c, i, l - 1)
  {
    var sizes' := sizes[x := i];
    forall k | 1 <= k < |c|
      ensures Count(sizes', k) == Due(c, i, l - 1, k)
    {
      CountUpdate(sizes, x, i, k);
    }
  }

  /** Length i is given out: on to the next. */
  lemma TallyNext(sizes: seq<nat>, c: seq<int>, i: nat)
    requires Tallied(sizes, c, i, 0) && 1 <= i && i + 1 < |c|
    ensures Tallied(sizes, c, i + 1, c[i + 1])
  {
    forall k | 1 <= k < |c|
      ensures Count(sizes, k) == Due(c, i + 1, c[i + 1], k)
    {
      assert Count(sizes, k) == Due(c, i, 0, k);
    }
  }

  /** How many codes of lengths from..limit there are. */
  lemma CodesPop(c: seq<int>, i: nat, limit: nat)
    requires 1 <= i <= limit < |c|
    ensures Codes(c, i, limit) == c[i] + Codes(c, i + 1, limit)
    decreases limit
  {
    if i < limit {
      CodesPop(c, i, limit - 1);
    }
  }

  lemma {:induction false} CountZeros(n: nat, l: nat)
    requires l >= 1
    ensures Count(Zeros(n), l) == 0
  {
    if n > 0 {
      CountZeros(n - 1, l);
      assert Zeros(n)[..n - 1] == Zeros(n - 1);
    }
  }

  method GiveLengths(n: nat, syms: array<SymFreq>, used: nat, numCodes: array<int>, limit: nat)
    returns (sizes: seq<nat>)
    requires used <= syms.Length && InRange(syms[..used], n) && Distinct(syms[..used])
    requires numCodes.Length == MAX_SUPPORTED + 1 && 1 <= limit <= MAX_SUPPORTED
    requires NonNegative(numCodes[..]) && Codes(numCodes[..], 1, limit) == used
    ensures |sizes| == n && Placed(sizes, syms[..used], limit, 0)
    ensures forall k :: 1 <= k <= limit ==> Count(sizes, k) == numCodes[k]
  {
    ghost var srt, c := syms[..used], numCodes[..];
    hide Placed, Tallied, Distinct, Codes, InRange;
    var j := used;
    sizes := Zeros(n);
    var i := 1;
    CodesPop(c, 1, limit);
    GiveStart(srt, c, n, limit);
    while i <= limit
      invariant 1 <= i <= limit + 1 && 0 <= j <= used && |sizes| == n
      invariant Placed(sizes, srt, if i <= limit then i else limit, j)
      invariant j == Codes(c, i, limit)
      invariant Tallied(sizes, c, if i <= limit then i else limit, if i <= limit then c[i] else 0)
    {
      CodesPop(c, i, limit);
      var l := numCodes[i];
      while l > 0
        invariant 0 <= l && 0 <= j <= used && |sizes| == n
        invariant j == l + Codes(c, i + 1, limit)
        invariant Placed(sizes, srt, i, j) && Tallied(sizes, c, i, l)
      {
        CodesPositive(c, i + 1, limit);
        PlaceOne(sizes, srt, i, j);
        TallyOne(sizes, c, i, l, srt[j - 1].sym);
        j := j - 1;
        sizes := sizes[syms[j].sym := i];
        l := l - 1;
      }
      if i < limit {
        TallyNext(sizes, c, i);
        PlacedWiden(sizes, srt, i, j);
      }
      i := i + 1;
    }
  }

  lemma GiveStart(srt: seq<SymFreq>, c: seq<int>, n: nat, limit: nat)
    requires InRange(srt, n) && |c| == MAX_SUPPORTED + 1 && 1 <= limit <= MAX_SUPPORTED
    ensures Placed(Zeros(n), srt, 1, |srt|) && Tallied(Zeros(n), c, 1, c[1])
  {
    forall k | 1 <= k < |c|
      ensures Count(Zeros(n), k) == Due(c, 1, c[1], k)
    {
      CountZeros(n, k);
    }
  }

  lemma PlacedWiden(sizes: seq<nat>, srt: seq<SymFreq>, i: nat, j: nat)
    requires Placed(sizes, srt, i, j)
    ensures Placed(sizes, srt, i + 1, j)
  {
  }

  /** Every used symbol's code, sent low bit first, is its canonical codeword. */
  ghost predicate SendsCodes(sizes: seq<nat>, codes: seq<nat>, n: nat) {
    && n <= |sizes| && n <= |codes|
    && forall x :: 0 <= x < n && sizes[x] > 0 ==>
         codes[x] < Pow2(sizes[x]) && ToBits(codes[x], sizes[x]) == Codeword(sizes, x)
  }

  method FirstCodes(numCodes: array<int>, limit: nat, ghost sizes: seq<nat>) returns (nextCode: seq<nat>)
    requires numCodes.Length == MAX_SUPPORTED + 1 && 1 <= limit <= MAX_SUPPORTED
    requires forall k :: 1 <= k <= limit ==> Count(sizes, k) == numCodes[k]
    ensures |nextCode| == MAX_SUPPORTED + 1
    ensures forall k :: 1 <= k <= limit ==> nextCode[k] == NextCode(sizes, k)
  {
    nextCode := Zeros(MAX_SUPPORTED + 1);
    var j, i: nat := 0, 2;
    while i <= limit
      invariant 2 <= i <= limit + 1 || (limit == 1 && i == 2)
      invariant |nextCode| == MAX_SUPPORTED + 1
      invariant j == NextCode(sizes, i - 1)
      invariant forall k :: 1 <= k < i ==> nextCode[k] == NextCode(sizes, k)
    {
      j := (j + numCodes[i - 1]) * 2;
      nextCode := nextCode[i := j];
      i := i + 1;
    }
  }

  /** Codes of each length already given to symbols before i. */
  ghost predicate Numbered(sizes: seq<nat>, i: nat, nextCode: seq<nat>, limit: nat) {
    && i <= |sizes| && limit < |nextCode|
    && forall k :: 1 <= k <= limit ==> nextCode[k] == NextCode(sizes, k) + Count(sizes[..i], k)
  }

  lemma NumberOne(sizes: seq<nat>, i: nat, nextCode: seq<nat>, limit: nat)
    requires Numbered(sizes, i, nextCode, limit) && i < |sizes| && sizes[i] <= limit
    ensures sizes[i] > 0 ==> nextCode[sizes[i]] == Code(sizes, i)
    ensures Numbered(sizes, i + 1, if sizes[i] == 0 then nextCode else nextCode[sizes[i] := nextCode[sizes[i]] + 1], limit)
  {
    assert sizes[..i + 1][..i] == sizes[..i];
  }

  method AssignCodes(sizes: seq<nat>, numCodes: array<int>, limit: nat) returns (codes: seq<nat>)
    requires numCodes.Length == MAX_SUPPORTED + 1 && 1 <= limit <= MAX_SUPPORTED
    requires Bounded(sizes, limit)
    requires forall k :: 1 <= k <= limit ==> Count(sizes, k) == numCodes[k]
    ensures |codes| == |sizes| && SendsCodes(sizes, codes, |sizes|)
  {
    hide Pow2, MsbBits, ToBits, Numbered, Code, SendsCodes;
    var nextCode := FirstCodes(numCodes, limit, sizes);
    FirstNumbered(sizes, nextCode, limit);
    codes := [];
    NoneSent(sizes);
    var i: nat := 0;
    while i < |sizes|
      invariant i <= |sizes| && |codes| == i && |nextCode| == MAX_SUPPORTED + 1
      invariant Numbered(sizes, i, nextCode, limit) && SendsCodes(sizes, codes, i)
    {
      NumberOne(sizes, i, nextCode, limit);
      var codeSize := sizes[i];
      var revCode: nat := 0;
      if codeSize != 0 {
        var code := nextCode[codeSize];
        nextCode := nextCode[codeSize := code + 1];
        revCode := ReverseCode(code, codeSize);
      }
      OneMoreSent(sizes, codes, i, revCode);
      codes := codes + [revCode];
      i := i + 1;
    }
  }

  lemma FirstNumbered(sizes: seq<nat>, nextCode: seq<nat>, limit: nat)
    requires limit < |nextCode| && forall k :: 1 <= k <= limit ==> nextCode[k] == NextCode(sizes, k)
    ensures Numbered(sizes, 0, nextCode, limit)
  {
    assert sizes[..0] == [];
  }

  lemma NoneSent(sizes: seq<nat>)
    ensures SendsCodes(sizes, [], 0)
  {
  }

  lemma OneMoreSent(sizes: seq<nat>, codes: seq<nat>, i: nat, code: nat)
    requires SendsCodes(sizes, codes, i) && |codes| == i < |sizes|
    requires sizes[i] > 0 ==> code < Pow2(sizes[i]) && ToBits(code, sizes[i]) == Codeword(sizes, i)
    ensures SendsCodes(sizes, codes + [code], i + 1)
  {
    hide Pow2, ToBits, Codeword;
  }

  /** What a Huffman table made from frequencies is: every used symbol, and no other, gets a code of
      at most limit bits; the code fills the code space exactly unless one symbol alone is used;
      and a more frequent symbol never gets a longer code than a rarer one. */
  ghost predicate TableFor(count: seq<uint16>, limit: nat, sizes: seq<nat>, codes: seq<nat>) {
    && |sizes| == |codes| == |count|
    && Bounded(sizes, limit)
    && (forall x :: 0 <= x < |count| ==> (sizes[x] > 0 <==> count[x] > 0))
    && (|Used(count)| >= 2 ==> Complete(sizes, limit))
    && (|Used(count)| == 1 ==> forall x :: 0 <= x < |count| && count[x] > 0 ==> sizes[x] == 1)
    && (forall x, y :: 0 <= x < |count| && 0 <= y < |count| && count[x] > count[y] > 0 ==> sizes[x] <= sizes[y])
    && SendsCodes(sizes, codes, |sizes|)
  }

  /** The counts a limited table ends with: all codes, none beyond the limit, an exact fill. */
  ghost predicate Shaped(c: seq<int>, used: nat, limit: nat) {
    && |c| == MAX_SUPPORTED + 1 && 1 <= limit <= MAX_SUPPORTED && NonNegative(c)
    && Codes(c, 1, limit) == used
    && (used >= 2 ==> CountKraft(c, limit) == Pow2(limit))
    && (used == 1 ==> c[1] == 1 && forall k :: 2 <= k <= limit ==> c[k] == 0)
  }

  lemma SizesComplete(sizes: seq<nat>, c: seq<int>, limit: nat, l: nat)
    requires l <= limit < |c| && forall k :: 1 <= k <= limit ==> Count(sizes, k) == c[k]
    ensures Kraft(sizes, l) == CountKraft(c, l)
  {
    if l == 0 {
      KraftZero(sizes);
    } else {
      SizesComplete(sizes, c, limit, l - 1);
      KraftStep(sizes, l);
    }
  }

  lemma PlacedUsed(count: seq<uint16>, sizes: seq<nat>, srt: seq<SymFreq>, limit: nat)
    requires Lists(count, srt) && Placed(sizes, srt, limit, 0) && |sizes| == |count|
    ensures Bounded(sizes, limit)
    ensures forall x :: 0 <= x < |count| ==> (sizes[x] > 0 <==> count[x] > 0)
  {
    forall x | 0 <= x < |count|
      ensures sizes[x] > 0 <==> count[x] > 0
      ensures sizes[x] <= limit
    {
      assert count[x] > 0 ==> SymFreq(count[x], x) in srt;
      assert sizes[x] > 0 ==> Owned(srt, 0, x);
    }
  }

  lemma PlacedOrder(count: seq<uint16>, sizes: seq<nat>, srt: seq<SymFreq>, limit: nat, x: nat, y: nat)
    requires Lists(count, srt) && Placed(sizes, srt, limit, 0) && |sizes| == |count| && KeySorted(srt)
    requires x < |count| && y < |count| && count[x] > count[y] > 0
    ensures sizes[x] <= sizes[y]
  {
    assert SymFreq(count[x], x) in srt && SymFreq(count[y], y) in srt;
    var p :| 0 <= p < |srt| && srt[p] == SymFreq(count[x], x);
    var q :| 0 <= q < |srt| && srt[q] == SymFreq(count[y], y);
    assert p <= q ==> srt[p].key <= srt[q].key;
  }

  lemma {:induction false} CountPositive(sizes: seq<nat>, x: nat)
    requires x < |sizes|
    ensures Count(sizes, sizes[x]) >= 1
  {
    var n := |sizes| - 1;
    if x < n {
      CountPositive(sizes[..n], x);
    }
  }

  lemma TableFound(count: seq<uint16>, sizes: seq<nat>, codes: seq<nat>, srt: seq<SymFreq>, c: seq<int>, limit: nat)
    requires Lists(count, srt) && KeySorted(srt) && |srt| == |Used(count)|
    requires |sizes| == |codes| == |count| && Placed(sizes, srt, limit, 0)
    requires Shaped(c, |srt|, limit) && forall k :: 1 <= k <= limit ==> Count(sizes, k) == c[k]
    requires SendsCodes(sizes, codes, |sizes|)
    ensures TableFor(count, limit, sizes, codes)
  {
    PlacedUsed(count, sizes, srt, limit);
    SizesComplete(sizes, c, limit, limit);
    forall x, y | 0 <= x < |count| && 0 <= y < |count| && count[x] > count[y] > 0
      ensures sizes[x] <= sizes[y]
    {
      PlacedOrder(count, sizes, srt, limit, x, y);
    }
    forall x | 0 <= x < |count| && count[x] > 0 && |srt| == 1
      ensures sizes[x] == 1
    {
      CountPositive(sizes, x);
    }
  }

  /** Lengths of a minimum-redundancy code, counted and cut to the limit. */
  lemma LengthsCounted(w: seq<nat>, lens: seq<nat>, c: seq<int>)
    requires Tame(w) && MinimumRedundancyLengths(w, lens) && |w| >= 1
    requires Counts(lens, c)
    ensures NonNegative(c)
    ensures |w| >= 2 ==> CountKraft(c, MAX_SUPPORTED) == Pow2(MAX_SUPPORTED)
    ensures |w| == 1 ==> c[1] == 1 && forall k :: 2 <= k <= MAX_SUPPORTED ==> c[k] == 0
  {
    LengthsFit(w, lens);
    if |w| >= 2 {
      CountsKraft(lens, c, MAX_SUPPORTED);
      assert Bounded(lens, MAX_SUPPORTED);
      if |w| <= MAX_SUPPORTED {
        CompleteAt(lens, |w|, MAX_SUPPORTED);
      } else {
        CompleteAt(lens, MAX_SUPPORTED, |w|);
      }
    } else {
      assert lens == [1];
      assert [1][..0] == [];
      forall k | 0 <= k <= MAX_SUPPORTED
        ensures Count([1], k) == if k == 1 then 1 else 0
      {
      }
    }
  }

  lemma TameKeys(count: seq<uint16>, srt: seq<SymFreq>)
    requires Lists(count, srt) && KeySorted(srt) && 2 * Sum(Keys(srt)) <= 3 * 0xFFFF
    ensures Tame(Keys(srt))
  {
    hide Sum;
  }

  lemma SortedTame(count: seq<uint16>, s: seq<SymFreq>, srt: seq<SymFreq>)
    requires s == Used(count) && SortedVersion(s, srt) && 2 * Sum(count) <= 3 * 0xFFFF
    ensures Tame(Keys(srt)) && Lists(count, srt) && |srt| == |s|
  {
    UsedLists(count);
    ListsPermuted(count, s, srt);
    SumUsed(count);
    SumPermuted(s, srt);
    assert |multiset(s)| == |multiset(srt)|;
    hide Lists, Sum, Used, Keys;
    TameKeys(count, srt);
  }

  /** The same symbols in the same order, whatever the keys have become. */
  lemma SameSymbols(count: seq<uint16>, srt: seq<SymFreq>, t: seq<SymFreq>)
    requires Lists(count, srt) && |t| == |srt| && forall i :: 0 <= i < |t| ==> t[i].sym == srt[i].sym
    ensures InRange(t, |count|) && Distinct(t)
  {
  }

  lemma PlacedSame(sizes: seq<nat>, t: seq<SymFreq>, srt: seq<SymFreq>, limit: nat)
    requires Placed(sizes, t, limit, 0) && |t| == |srt| && forall i :: 0 <= i < |t| ==> t[i].sym == srt[i].sym
    ensures Placed(sizes, srt, limit, 0)
  {
    forall x | 0 <= x < |sizes| && sizes[x] > 0
      ensures Owned(srt, 0, x)
    {
      assert Owned(t, 0, x);
    }
  }

  lemma EnforcedShaped(c0: seq<int>, c: seq<int>, used: nat, limit: nat)
    requires |c0| == MAX_SUPPORTED + 1 && 1 <= limit <= MAX_SUPPORTED && NonNegative(c0)
    requires Codes(c0, 1, MAX_SUPPORTED) == used
    requires used == 1 ==> c0[1] == 1 && forall k :: 2 <= k <= MAX_SUPPORTED ==> c0[k] == 0
    requires used == 0 ==> forall k :: 1 <= k <= MAX_SUPPORTED ==> c0[k] == 0
    requires used <= 1 ==> c == c0
    requires used > 1 ==> Limited(c, limit, used, Pow2(limit))
    ensures Shaped(c, used, limit)
  {
    if used <= 1 {
      FewCodes(c, limit);
    }
  }

  lemma {:induction false} FewCodes(c: seq<int>, l: nat)
    requires 1 <= l < |c| && forall k :: 2 <= k <= l ==> c[k] == 0
    ensures Codes(c, 1, l) == c[1]
  {
    if l > 1 {
      FewCodes(c, l - 1);
    }
  }

  /** The used symbols in order of frequency, their keys turned into code lengths. */
  method BuildLengths(count: seq<uint16>) returns (syms: array<SymFreq>, used: nat, ghost srt: seq<SymFreq>)
    requires |count| < 0x10000 && 2 * Sum(count) <= 3 * 0xFFFF
    ensures fresh(syms) && |srt| == used <= syms.Length && used == |Used(count)|
    ensures Lists(count, srt) && KeySorted(srt) && Tame(Keys(srt))
    ensures forall i :: 0 <= i < used ==> syms[i].sym == srt[i].sym
    ensures MinimumRedundancyLengths(Keys(srt), KeysOf(syms, used))
  {
    hide Tame, Lists, KeySorted, MinimumRedundancyLengths, Sum, Used;
    var syms0;
    syms0, used := CollectUsed(count);
    var syms1 := new SymFreq[|count|](_ => SymFreq(0, 0));
    ghost var s := syms0[..used];
    syms := RadixSortSyms(used, syms0, syms1);
    srt := syms[..used];
    SortedTame(count, s, srt);
    SortedKeys(s, srt);
    CalculateMinimumRedundancy(syms, used);
  }

  lemma SortedKeys(s: seq<SymFreq>, srt: seq<SymFreq>)
    requires SortedVersion(s, srt)
    ensures KeySorted(srt)
  {
  }

  /** The whole pipeline: collect, sort, build, count, limit, give out, number. */
  method OptimizeHuffmanTable(count: seq<uint16>, limit: nat) returns (sizes: seq<nat>, codes: seq<nat>)
    requires |count| < 0x10000 && 1 <= limit <= MAX_SUPPORTED
    requires 2 * Sum(count) <= 3 * 0xFFFF && |Used(count)| <= Pow2(limit)
    ensures TableFor(count, limit, sizes, codes)
  {
    hide Tame, Lists, KeySorted, MinimumRedundancyLengths, TableFor, Pow2, Sum, Used, Codes, CountKraft;
    hide InRange, Distinct, Placed, Shaped, SendsCodes;
    var syms, used, srt := BuildLengths(count);
    SameSymbols(count, srt, syms[..used]);
    var numCodes := CountTable(syms, used, Keys(srt));
    sizes := LimitAndGive(|count|, syms, used, numCodes, limit);
    PlacedSame(sizes, syms[..used], srt, limit);
    PlacedUsed(count, sizes, srt, limit);
    codes := AssignCodes(sizes, numCodes, limit);
    TableFound(count, sizes, codes, srt, numCodes[..], limit);
  }

  method CountTable(syms: array<SymFreq>, used: nat, ghost w: seq<nat>) returns (numCodes: array<int>)
    requires used <= syms.Length && |w| == used && Tame(w)
    requires MinimumRedundancyLengths(w, KeysOf(syms, used))
    ensures fresh(numCodes) && numCodes.Length == MAX_SUPPORTED + 1 && NonNegative(numCodes[..])
    ensures Codes(numCodes[..], 1, MAX_SUPPORTED) == used
    ensures used >= 2 ==> CountKraft(numCodes[..], MAX_SUPPORTED) == Pow2(MAX_SUPPORTED)
    ensures used == 1 ==> numCodes[1] == 1 && forall k :: 2 <= k <= MAX_SUPPORTED ==> numCodes[k] == 0
    ensures used == 0 ==> forall k :: 1 <= k <= MAX_SUPPORTED ==> numCodes[k] == 0
  {
    if used >= 1 {
      LengthsFit(w, KeysOf(syms, used));
    }
    hide Pow2, CountKraft;
    numCodes := CountLengths(syms, used);
    if used >= 1 {
      LengthsCounted(w, KeysOf(syms, used), numCodes[..]);
    }
  }

  method LimitAndGive(n: nat, syms: array<SymFreq>, used: nat, numCodes: array<int>, limit: nat)
    returns (sizes: seq<nat>)
    requires used <= syms.Length && InRange(syms[..used], n) && Distinct(syms[..used])
    requires numCodes.Length == MAX_SUPPORTED + 1 && NonNegative(numCodes[..]) && 1 <= limit <= MAX_SUPPORTED
    requires Codes(numCodes[..], 1, MAX_SUPPORTED) == used <= Pow2(limit)
    requires used >= 2 ==> CountKraft(numCodes[..], MAX_SUPPORTED) == Pow2(MAX_SUPPORTED)
    requires used == 1 ==> numCodes[1] == 1 && forall k :: 2 <= k <= MAX_SUPPORTED ==> numCodes[k] == 0
    requires used == 0 ==> forall k :: 1 <= k <= MAX_SUPPORTED ==> numCodes[k] == 0
    modifies numCodes
    ensures |sizes| == n && Placed(sizes, syms[..used], limit, 0)
    ensures Shaped(numCodes[..], used, limit)
    ensures forall k :: 1 <= k <= limit ==> Count(sizes, k) == numCodes[k]
  {
    ghost var c0 := numCodes[..];
    hide Pow2, CountKraft, Placed;
    assert syms as object != numCodes;
    EnforceMaxCodeSize(numCodes, used, limit);
    EnforcedShaped(c0, numCodes[..], used, limit);
    sizes := GiveLengths(n, syms, used, numCodes, limit);
  }
}
