/** The header of a dynamic Huffman block as fpng writes it (libs/fpng/fpng.cpp:731-816), and the
    proof that section 3.2.7 of RFC 1951 reads back the code lengths that went in. */
module DynamicHeader {
  import opened Bits
  import opened BitWriter
  import opened Canonical
  import opened Wrappers
  import opened FpngFrequencies
  import opened HeaderRuns
  import opened HuffmanTable
  import opened MinimumRedundancy
  import Inflate

  datatype Table = Table(sizes: seq<nat>, codes: seq<nat>)

  /** bits are a header that any reader of RFC 1951 takes for the codes c. */
  ghost predicate IsHeader(bits: seq<bool>, c: Inflate.Codes) {
    forall rest: seq<bool> :: Inflate.ReadDynamicHeader(bits + rest) == Some(Inflate.Read(c, rest))
  }

  // ---- The code length alphabet in its transmission order.

  /** Three-bit lengths of the first n symbols in transmission order. */
  function ClenBits(cl: seq<nat>, n: nat): seq<bool>
    requires |cl| == 19 && n <= 19
  {
    if n == 0 then [] else ClenBits(cl, n - 1) + ToBits(cl[Inflate.LENGTH_ORDER[n - 1]], 3)
  }

  function Swizzled(cl: seq<nat>, i: nat, n: nat): (s: seq<nat>)
    requires |cl| == 19 && i <= n <= 19
    ensures |s| == n - i
    decreases n - i
  {
    if i == n then [] else [cl[Inflate.LENGTH_ORDER[i]]] + Swizzled(cl, i + 1, n)
  }

  function ClenTail(cl: seq<nat>, i: nat, n: nat): seq<bool>
    requires |cl| == 19 && i <= n <= 19
    decreases n - i
  {
    if i == n then [] else ToBits(cl[Inflate.LENGTH_ORDER[i]], 3) + ClenTail(cl, i + 1, n)
  }

  lemma {:induction false} ClenBitsTail(cl: seq<nat>, i: nat, n: nat)
    requires |cl| == 19 && i <= n <= 19
    ensures ClenBits(cl, i) + ClenTail(cl, i, n) == ClenBits(cl, n)
    decreases n - i
  {
    if i < n {
      ClenBitsTail(cl, i + 1, n);
      var b := ToBits(cl[Inflate.LENGTH_ORDER[i]], 3);
      Assoc(ClenBits(cl, i), b, ClenTail(cl, i + 1, n));
    }
  }

  lemma OrderBelow(i: nat)
    requires i < 19
    ensures Inflate.LENGTH_ORDER[i] < 19
  {
  }

  lemma {:induction false} ReadClensSent(cl: seq<nat>, i: nat, n: nat, rest: seq<bool>)
    requires |cl| == 19 && i <= n <= 19 && Bounded(cl, 7)
    ensures Inflate.ReadClens(n - i, ClenTail(cl, i, n) + rest) == Some(Inflate.Read(Swizzled(cl, i, n), rest))
    decreases n - i
  {
    if i < n {
      hide Pow2, ToBits, FromBits;
      OrderBelow(i);
      var v := cl[Inflate.LENGTH_ORDER[i]];
      Pow2Values();
      var tail := ClenTail(cl, i + 1, n) + rest;
      Assoc(ToBits(v, 3), ClenTail(cl, i + 1, n), rest);
      ReadSent(ClenTail(cl, i, n) + rest, v, 3, tail);
      ReadClensSent(cl, i + 1, n, rest);
    } else {
      assert ClenTail(cl, i, n) + rest == rest;
    }
  }

  /** Where each symbol stands in transmission order. */
  const PLACE: seq<nat> := [3, 17, 15, 13, 11, 9, 7, 5, 4, 6, 8, 10, 12, 14, 16, 18, 0, 1, 2]

  lemma PlaceInverts(i: nat)
    requires i < 19
    ensures Inflate.LENGTH_ORDER[i] < 19 && PLACE[Inflate.LENGTH_ORDER[i]] == i
    ensures PLACE[i] < 19 && Inflate.LENGTH_ORDER[PLACE[i]] == i
  {
  }

  lemma {:induction false} SwizzledAt(cl: seq<nat>, i: nat, n: nat, k: nat)
    requires |cl| == 19 && i <= k < n <= 19
    ensures Swizzled(cl, i, n)[k - i] == cl[Inflate.LENGTH_ORDER[k]]
    decreases n - i
  {
    if i < k {
      SwizzledAt(cl, i + 1, n, k);
    }
  }

  lemma {:induction false} SwizzledTake(cl: seq<nat>, n: nat, k: nat)
    requires |cl| == 19 && k <= n <= 19
    ensures Swizzled(cl, 0, n)[..k] == Swizzled(cl, 0, k)
  {
    forall i | 0 <= i < k
      ensures Swizzled(cl, 0, n)[i] == Swizzled(cl, 0, k)[i]
    {
      SwizzledAt(cl, 0, n, i);
      SwizzledAt(cl, 0, k, i);
    }
  }

  lemma {:induction false} UnswizzleAt(cl: seq<nat>, n: nat, s: nat)
    requires |cl| == 19 && n <= 19 && s < 19
    ensures Inflate.Unswizzle(Swizzled(cl, 0, n))[s] == if PLACE[s] < n then cl[s] else 0
  {
    if n > 0 {
      UnswizzleAt(cl, n - 1, s);
      SwizzledTake(cl, n, n - 1);
      SwizzledAt(cl, 0, n, n - 1);
      PlaceInverts(n - 1);
      PlaceInverts(s);
    }
  }

  /** Trailing zeros in transmission order need not be sent. */
  lemma UnswizzleSent(cl: seq<nat>, n: nat)
    requires |cl| == 19 && n <= 19
    requires forall i :: n <= i < 19 ==> cl[Inflate.LENGTH_ORDER[i]] == 0
    ensures Inflate.Unswizzle(Swizzled(cl, 0, n)) == cl
  {
    forall s | 0 <= s < 19
      ensures Inflate.Unswizzle(Swizzled(cl, 0, n))[s] == cl[s]
    {
      UnswizzleAt(cl, n, s);
      PlaceInverts(s);
    }
  }

  // ---- The whole header.

  function SizeBits(nlit: nat, ndist: nat, nclen: nat): seq<bool>
    requires 257 <= nlit && 1 <= ndist && 4 <= nclen
  {
    ToBits(nlit - 257, 5) + ToBits(ndist - 1, 5) + ToBits(nclen - 4, 4)
  }

  function HeaderBits(nlit: nat, ndist: nat, cl: seq<nat>, nclen: nat, items: seq<Item>): seq<bool>
    requires 257 <= nlit && 1 <= ndist && 4 <= nclen <= 19 && |cl| == 19
    requires forall i :: 0 <= i < |items| ==> items[i].code < |cl|
  {
    SizeBits(nlit, ndist, nclen) + ClenBits(cl, nclen) + ItemBits(cl, items)
  }

  lemma HeaderRead(c: Inflate.Codes, cl: seq<nat>, nclen: nat, items: seq<Item>)
    requires 257 <= |c.lit| <= 286 && 1 <= |c.dist| <= 30 && Inflate.ValidCodes(c)
    requires |cl| == 19 && 4 <= nclen <= 19 && Complete(cl, 7) && Coded(cl, items)
    requires forall i :: nclen <= i < 19 ==> cl[Inflate.LENGTH_ORDER[i]] == 0
    requires Valid([], items) && Unpack([], items) == c.lit + c.dist
    ensures IsHeader(HeaderBits(|c.lit|, |c.dist|, cl, nclen, items), c)
  {
    forall rest: seq<bool>
      ensures Inflate.ReadDynamicHeader(HeaderBits(|c.lit|, |c.dist|, cl, nclen, items) + rest)
           == Some(Inflate.Read(c, rest))
    {
      HeaderReadRest(c, cl, nclen, items, rest);
    }
  }

  lemma HeaderReadRest(c: Inflate.Codes, cl: seq<nat>, nclen: nat, items: seq<Item>, rest: seq<bool>)
    requires 257 <= |c.lit| <= 286 && 1 <= |c.dist| <= 30 && Inflate.ValidCodes(c)
    requires |cl| == 19 && 4 <= nclen <= 19 && Complete(cl, 7) && Coded(cl, items)
    requires forall i :: nclen <= i < 19 ==> cl[Inflate.LENGTH_ORDER[i]] == 0
    requires Valid([], items) && Unpack([], items) == c.lit + c.dist
    ensures Inflate.ReadDynamicHeader(HeaderBits(|c.lit|, |c.dist|, cl, nclen, items) + rest)
         == Some(Inflate.Read(c, rest))
  {
    var nlit, ndist := |c.lit|, |c.dist|;
    var b3 := ItemBits(cl, items) + rest;
    var bits := HeaderBits(nlit, ndist, cl, nclen, items) + rest;
    HeaderSplit(nlit, ndist, cl, nclen, items, rest);
    hide HeaderBits, ClenBits, ItemBits, Inflate.ReadSizes, Inflate.ReadClens, Inflate.ReadDynamicCodes, Inflate.Unswizzle, Complete, Unpack, Inflate.ValidCodes;
    SizesRead(bits, nlit, ndist, nclen, ClenBits(cl, nclen) + b3);
    CompleteDecodable(cl, 7);
    ClensRead(cl, nclen, b3);
    UnswizzleSent(cl, nclen);
    CodesRead(c, cl, nclen, items, rest);
  }

  lemma SizesRead(bits: seq<bool>, nlit: nat, ndist: nat, nclen: nat, rest: seq<bool>)
    requires 257 <= nlit <= 286 && 1 <= ndist <= 30 && 4 <= nclen <= 19
    requires bits == ToBits(nlit - 257, 5) + (ToBits(ndist - 1, 5) + (ToBits(nclen - 4, 4) + rest))
    ensures Inflate.ReadSizes(bits) == Some(Inflate.Read(Inflate.Sizes(nlit, ndist, nclen), rest))
  {
    hide Pow2, ToBits;
    Pow2Values();
    var b1 := ToBits(nclen - 4, 4) + rest;
    var b0 := ToBits(ndist - 1, 5) + b1;
    ReadSent(bits, nlit - 257, 5, b0);
    ReadSent(b0, ndist - 1, 5, b1);
    ReadSent(b1, nclen - 4, 4, rest);
  }

  lemma CodesRead(c: Inflate.Codes, cl: seq<nat>, nclen: nat, items: seq<Item>, rest: seq<bool>)
    requires Inflate.ValidCodes(c) && Decodable(cl, 7) && Coded(cl, items)
    requires Valid([], items) && Unpack([], items) == c.lit + c.dist
    ensures Inflate.ReadDynamicCodes(Inflate.Sizes(|c.lit|, |c.dist|, nclen), cl, ItemBits(cl, items) + rest)
         == Some(Inflate.Read(c, rest))
  {
    hide Inflate.ValidCodes, Unpack, ItemBits;
    var nlit := |c.lit|;
    ReadItems(cl, 7, nlit + |c.dist|, items, rest, []);
    assert (c.lit + c.dist)[..nlit] == c.lit && (c.lit + c.dist)[nlit..] == c.dist;
  }

  lemma CompleteDecodable(cl: seq<nat>, m: nat)
    requires Complete(cl, m)
    ensures Decodable(cl, m) && Bounded(cl, m)
  {
  }

  lemma ClensRead(cl: seq<nat>, n: nat, rest: seq<bool>)
    requires |cl| == 19 && n <= 19 && Bounded(cl, 7)
    ensures Inflate.ReadClens(n, ClenBits(cl, n) + rest) == Some(Inflate.Read(Swizzled(cl, 0, n), rest))
  {
    ClenBitsTail(cl, 0, n);
    assert ClenBits(cl, 0) + ClenTail(cl, 0, n) == ClenTail(cl, 0, n);
    ReadClensSent(cl, 0, n, rest);
  }

  lemma HeaderSplit(nlit: nat, ndist: nat, cl: seq<nat>, nclen: nat, items: seq<Item>, rest: seq<bool>)
    requires 257 <= nlit && 1 <= ndist && 4 <= nclen <= 19 && |cl| == 19
    requires forall i :: 0 <= i < |items| ==> items[i].code < |cl|
    ensures HeaderBits(nlit, ndist, cl, nclen, items) + rest
         == ToBits(nlit - 257, 5) + (ToBits(ndist - 1, 5) + (ToBits(nclen - 4, 4) +
            (ClenBits(cl, nclen) + (ItemBits(cl, items) + rest))))
  {
    var a, b, c, d, e := ToBits(nlit - 257, 5), ToBits(ndist - 1, 5), ToBits(nclen - 4, 4), ClenBits(cl, nclen), ItemBits(cl, items);
    assert a + b + c + d + e + rest == a + (b + (c + (d + (e + rest))));
  }

  // ---- Writing it.

  /** Drops trailing zero lengths, but keeps at least lo. */
  method TrimCount(sizes: seq<nat>, hi: nat, lo: nat) returns (n: nat)
    requires lo <= hi <= |sizes|
    ensures lo <= n <= hi && forall i :: n <= i < hi ==> sizes[i] == 0
    ensures n > lo ==> sizes[n - 1] != 0
  {
    n := hi;
    while n > lo && sizes[n - 1] == 0
      invariant lo <= n <= hi && forall i :: n <= i < hi ==> sizes[i] == 0
    {
      n := n - 1;
    }
  }

  lemma {:induction false} TrimKraft(sizes: seq<nat>, n: nat, m: nat)
    requires n <= |sizes| && forall i :: n <= i < |sizes| ==> sizes[i] == 0
    ensures Kraft(sizes[..n], m) == Kraft(sizes, m)
    decreases |sizes|
  {
    if n < |sizes| {
      var k := |sizes| - 1;
      TrimKraft(sizes[..k], n, m);
      assert sizes[..k][..n] == sizes[..n];
    } else {
      assert sizes[..n] == sizes;
    }
  }

  lemma TrimComplete(sizes: seq<nat>, n: nat, m: nat, l: nat)
    requires n <= |sizes| && (forall i :: n <= i < |sizes| ==> sizes[i] == 0) && Complete(sizes, m) && m <= l
    ensures Complete(sizes[..n], l)
  {
    TrimKraft(sizes, n, m);
    CompleteAt(sizes[..n], m, l);
  }

  // ---- The code length code always has two symbols: a zero and a nonzero length were packed.

  lemma {:induction false} SameCode(acc: seq<nat>, items: seq<Item>, c: nat)
    requires Valid(acc, items) && forall i :: 0 <= i < |items| ==> items[i].code == c
    ensures c == 0 || c >= 17 ==> forall k :: |acc| <= k < |Unpack(acc, items)| ==> Unpack(acc, items)[k] == 0
    ensures 0 < c < 16 ==> forall k :: |acc| <= k < |Unpack(acc, items)| ==> Unpack(acc, items)[k] == c
    ensures acc <= Unpack(acc, items)
    ensures c == 16 && acc == [] ==> items == []
    decreases |items|
  {
    if items != [] {
      SameCode(Expand(acc, items[0]), items[1..], c);
    }
  }

  lemma {:induction false} OccursSomewhere(items: seq<Item>, i: nat)
    requires i < |items|
    ensures Occurs(items, items[i].code) > 0
  {
    var n := |items| - 1;
    if i < n {
      OccursSomewhere(items[..n], i);
    }
  }

  lemma TwoCodes(items: seq<Item>, a: nat, b: nat) returns (i: nat, j: nat)
    requires Valid([], items) && a < |Unpack([], items)| && b < |Unpack([], items)|
    requires Unpack([], items)[a] == 0 && Unpack([], items)[b] > 0
    ensures i < |items| && j < |items| && items[i].code != items[j].code
  {
    i, j := 0, 0;
    assert items != [];
    if k :| 0 <= k < |items| && items[k].code != items[0].code {
      j := k;
    } else {
      SameCode([], items, items[0].code);
    }
  }

  lemma TwoUsed(count: seq<uint16>, x: nat, y: nat)
    requires x < |count| && y < |count| && x != y && count[x] > 0 && count[y] > 0
    ensures |Used(count)| >= 2
  {
    UsedLists(count);
    var s := Used(count);
    assert SymFreq(count[x], x) in s && SymFreq(count[y], y) in s;
    var i :| 0 <= i < |s| && s[i] == SymFreq(count[x], x);
    var j :| 0 <= j < |s| && s[j] == SymFreq(count[y], y);
    assert i != j;
  }

  /** The frequencies of the code length alphabet add up to the number of items. */
  lemma {:induction false} CountedSum(items: seq<Item>, count: seq<nat>)
    requires Counted(items, count)
    ensures Sum(count) == |items|
  {
    if items == [] {
      SumZeros(19);
      assert count == Zeros(19);
    } else {
      var n := |items| - 1;
      var c := items[n].code;
      OccursSomewhere(items, n);
      var count' := count[c := count[c] - 1];
      CountedSum(items[..n], count');
      SumUpdate(count, c, count[c] - 1);
    }
  }

  lemma {:induction false} ItemsFit(items: seq<Item>)
    ensures |items| <= Size(items)
  {
    if items != [] {
      ItemsFit(items[..|items| - 1]);
    }
  }

  /** The lengths of both codes, trimmed, as section 3.2.7 sends them. */
  ghost predicate Trims(c: Inflate.Codes, lit: seq<nat>, dist: seq<nat>) {
    && 257 <= |c.lit| <= 286 <= |lit| && 1 <= |c.dist| <= 30 <= |dist|
    && c.lit == lit[..|c.lit|] && (forall i :: |c.lit| <= i < |lit| ==> lit[i] == 0)
    && c.dist == dist[..|c.dist|] && (forall i :: |c.dist| <= i < |dist| ==> dist[i] == 0)
    && (|c.dist| > 1 ==> dist[|c.dist| - 1] != 0)
  }

  lemma TrimmedValid(c: Inflate.Codes, lit: seq<nat>, dist: seq<nat>)
    requires Trims(c, lit, dist) && Complete(lit, 12) && Complete(dist, 12) && lit[256] > 0
    ensures Inflate.ValidCodes(c)
    ensures forall i :: 0 <= i < |c.lit + c.dist| ==> (c.lit + c.dist)[i] < 16
  {
    TrimComplete(lit, |c.lit|, 12, 15);
    TrimComplete(dist, |c.dist|, 12, 15);
  }

  /** The packed lengths and the code they are sent in. */
  method PackHeader(lens: seq<nat>, ghost a: nat, ghost b: nat) returns (items: seq<Item>, cl: Table)
    requires |lens| <= 0x1000 && forall i :: 0 <= i < |lens| ==> lens[i] < 16
    requires a < |lens| && b < |lens| && lens[a] == 0 && lens[b] > 0
    ensures Valid([], items) && Unpack([], items) == lens
    ensures |cl.sizes| == |cl.codes| == 19 && Complete(cl.sizes, 7) && Coded(cl.sizes, items)
    ensures SendsCodes(cl.sizes, cl.codes, 19)
  {
    var count;
    items, count := PackLengths(lens);
    CountedSum(items, count);
    ItemsFit(items);
    CountsFit(items, count);
    Pow2Values();
    ghost var i, j := TwoCodes(items, a, b);
    OccursSomewhere(items, i);
    OccursSomewhere(items, j);
    TwoUsed(count, items[i].code, items[j].code);
    hide Pow2, Sum, Used, Occurs, Unpack, Valid, SendsCodes, Complete;
    var sizes, codes := OptimizeHuffmanTable(count, 7);
    cl := Table(sizes, codes);
    CodedItems(items, count, sizes, codes);
  }

  lemma CountsFit(items: seq<Item>, count: seq<nat>)
    requires Counted(items, count) && Sum(count) <= 0x1000
    ensures forall c :: 0 <= c < |count| ==> count[c] < 0x10000
  {
    forall c | 0 <= c < |count|
      ensures count[c] < 0x10000
    {
      EntryBelowSum(count, c);
    }
  }

  lemma CodedItems(items: seq<Item>, count: seq<uint16>, sizes: seq<nat>, codes: seq<nat>)
    requires Counted(items, count) && TableFor(count, 7, sizes, codes)
    ensures Coded(sizes, items)
  {
    forall i | 0 <= i < |items|
      ensures items[i].code < |sizes| && sizes[items[i].code] > 0
    {
      OccursSomewhere(items, i);
    }
  }

  lemma {:induction false} ClenLength(cl: seq<nat>, n: nat)
    requires |cl| == 19 && n <= 19
    ensures |ClenBits(cl, n)| == 3 * n
  {
    if n > 0 {
      ClenLength(cl, n - 1);
    }
  }

  method PutClens(w: BitWriter, cl: seq<nat>, n: nat) returns (ok: bool)
    requires w.Valid() && w.bitBufSize <= 7 && |cl| == 19 && n <= 19 && Bounded(cl, 7)
    modifies w, w.dst
    ensures ok ==> w.Valid() && w.bitBufSize <= 7 && w.Written() == old(w.Written()) + ClenBits(cl, n)
    ensures !ok ==> |old(w.Written())| + |ClenBits(cl, n)| > 8 * w.dst.Length
  {
    ghost var before := w.Written();
    var i := 0;
    Pow2Values();
    assert before + ClenBits(cl, 0) == before;
    hide Pow2;
    while i < n
      invariant 0 <= i <= n && w.Valid() && w.bitBufSize <= 7
      invariant w.Written() == before + ClenBits(cl, i)
    {
      ok := w.DynPutBits(cl[Inflate.LENGTH_ORDER[i]], 3);
      if !ok {
        ClenLength(cl, i);
        ClenLength(cl, n);
        return false;
      }
      Assoc(before, ClenBits(cl, i), ToBits(cl[Inflate.LENGTH_ORDER[i]], 3));
      i := i + 1;
    }
    return true;
  }

  method PutItem(w: BitWriter, cl: Table, x: Item) returns (ok: bool)
    requires w.Valid() && w.bitBufSize <= 7 && |cl.sizes| == |cl.codes| == 19 && Bounded(cl.sizes, 7)
    requires SendsCodes(cl.sizes, cl.codes, 19)
    requires x.code <= 18 && cl.sizes[x.code] > 0 && x.extra < Pow2(ExtraBits(x.code))
    modifies w, w.dst
    ensures ok ==> w.Valid() && w.bitBufSize <= 7
    ensures ok ==> w.Written() == old(w.Written()) + (Codeword(cl.sizes, x.code) + ToBits(x.extra, ExtraBits(x.code)))
    ensures !ok ==> |old(w.Written())| + |Codeword(cl.sizes, x.code)| + ExtraBits(x.code) > 8 * w.dst.Length
  {
    hide Pow2;
    ghost var before, a, b := w.Written(), Codeword(cl.sizes, x.code), ToBits(x.extra, ExtraBits(x.code));
    ok := w.DynPutBits(cl.codes[x.code], cl.sizes[x.code]);
    if !ok {
      return false;
    }
    if x.code >= 16 {
      ok := w.DynPutBits(x.extra, ExtraBits(x.code));
    } else {
      assert b == [];
    }
    Assoc(before, a, b);
  }

  method PutItems(w: BitWriter, cl: Table, items: seq<Item>) returns (ok: bool)
    requires w.Valid() && w.bitBufSize <= 7 && |cl.sizes| == |cl.codes| == 19 && Bounded(cl.sizes, 7)
    requires SendsCodes(cl.sizes, cl.codes, 19) && Coded(cl.sizes, items) && Valid([], items)
    modifies w, w.dst
    ensures ok ==> w.Valid() && w.bitBufSize <= 7 && w.Written() == old(w.Written()) + ItemBits(cl.sizes, items)
    ensures !ok ==> |old(w.Written())| + |ItemBits(cl.sizes, items)| > 8 * w.dst.Length
  {
    ghost var before := w.Written();
    var i := 0;
    assert items[..0] == [] && ItemBits(cl.sizes, []) == [] && before + [] == before;
    ValidItems([], items);
    hide Pow2, Valid, ItemBits, ToBits, Codeword, SendsCodes, Bounded, BitWriter.Valid, BitWriter.Written;
    while i < |items|
      invariant 0 <= i <= |items| && w.Valid() && w.bitBufSize <= 7
      invariant w.Written() == before + ItemBits(cl.sizes, items[..i])
    {
      ok := PutItem(w, cl, items[i]);
      ItemBitsNext(cl.sizes, items, i, before);
      if !ok {
        ItemBitsGrow(cl.sizes, items, i + 1);
        return false;
      }
      i := i + 1;
    }
    assert items[..i] == items;
    return true;
  }

  lemma {:induction false} ItemBitsGrow(cl: seq<nat>, items: seq<Item>, n: nat)
    requires n <= |items| && forall k :: 0 <= k < |items| ==> items[k].code < |cl|
    ensures |ItemBits(cl, items[..n])| <= |ItemBits(cl, items)|
    decreases |items| - n
  {
    if n < |items| {
      ItemBitsNext(cl, items, n, []);
      ItemBitsGrow(cl, items, n + 1);
      hide ItemBits;
    } else {
      assert items[..n] == items;
    }
  }

  lemma ItemBitsNext(cl: seq<nat>, items: seq<Item>, i: nat, before: seq<bool>)
    requires i < |items| && forall k :: 0 <= k < |items| ==> items[k].code < |cl|
    ensures before + ItemBits(cl, items[..i]) + (Codeword(cl, items[i].code) + ToBits(items[i].extra, ExtraBits(items[i].code)))
         == before + ItemBits(cl, items[..i + 1])
  {
    hide ItemBits, ToBits, Codeword, ExtraBits;
    TakeOne(items, i);
    ItemBitsSnoc(cl, items[..i], items[i]);
    var u, a, b := ItemBits(cl, items[..i]), Codeword(cl, items[i].code), ToBits(items[i].extra, ExtraBits(items[i].code));
    Assoc(before, u, a + b);
    Assoc(u, a, b);
  }

  lemma TakeOne(items: seq<Item>, i: nat)
    requires i < |items|
    ensures items[..i + 1] == items[..i] + [items[i]]
    ensures forall k :: 0 <= k < i ==> items[..i][k] == items[k]
  {
  }

  lemma {:induction false} ValidItems(acc: seq<nat>, items: seq<Item>)
    requires Valid(acc, items)
    ensures forall i :: 0 <= i < |items| ==> items[i].code <= 18 && items[i].extra < Pow2(ExtraBits(items[i].code))
    decreases |items|
  {
    if items != [] {
      ValidItems(Expand(acc, items[0]), items[1..]);
    }
  }

  /** Frequencies fpng can build both codes from: the end of block is one of at least two literals. */
  ghost predicate BlockCounts(litCount: seq<uint16>, distCount: seq<uint16>) {
    && |litCount| == 288 && |distCount| == 32
    && litCount[286] == litCount[287] == 0 && distCount[30] == distCount[31] == 0
    && litCount[256] == 1 && |Used(litCount)| >= 2 && |Used(distCount)| >= 2 && distCount[0] == 0
    && 2 * Sum(litCount) <= 3 * 0xFFFF && 2 * Sum(distCount) <= 3 * 0xFFFF
  }

  /** Both codes and their lengths, trimmed. */
  method BlockTables(litCount: seq<uint16>, distCount: seq<uint16>)
    returns (lit: Table, dist: Table, nlit: nat, ndist: nat)
    requires BlockCounts(litCount, distCount)
    ensures TableFor(litCount, 12, lit.sizes, lit.codes) && TableFor(distCount, 12, dist.sizes, dist.codes)
    ensures 257 <= nlit <= 286 && 1 <= ndist <= 30 && |lit.sizes| == 288 && |dist.sizes| == 32
    ensures Trims(Inflate.Codes(lit.sizes[..nlit], dist.sizes[..ndist]), lit.sizes, dist.sizes)
    ensures Complete(lit.sizes, 12) && Complete(dist.sizes, 12) && lit.sizes[256] > 0 && dist.sizes[0] == 0
  {
    CountsUsable(litCount, distCount);
    hide Pow2, Sum, Used, TableFor, Complete, BlockCounts, Trims;
    var sizes, codes := OptimizeHuffmanTable(litCount, 12);
    lit := Table(sizes, codes);
    TableFacts(litCount, lit);
    sizes, codes := OptimizeHuffmanTable(distCount, 12);
    dist := Table(sizes, codes);
    TableFacts(distCount, dist);
    nlit := TrimCount(lit.sizes, 286, 257);
    ndist := TrimCount(dist.sizes, 30, 1);
    Trimmed(lit.sizes, dist.sizes, nlit, ndist);
  }

  lemma CountsUsable(litCount: seq<uint16>, distCount: seq<uint16>)
    requires BlockCounts(litCount, distCount)
    ensures |litCount| == 288 && |distCount| == 32 && |Used(litCount)| >= 2 && |Used(distCount)| >= 2
    ensures |Used(litCount)| <= Pow2(12) && |Used(distCount)| <= Pow2(12)
    ensures 2 * Sum(litCount) <= 3 * 0xFFFF && 2 * Sum(distCount) <= 3 * 0xFFFF
    ensures litCount[286] == litCount[287] == 0 && distCount[30] == distCount[31] == 0
    ensures litCount[256] == 1 && distCount[0] == 0
  {
    hide Used, Sum;
    Pow2Values();
  }

  lemma Trimmed(lit: seq<nat>, dist: seq<nat>, nlit: nat, ndist: nat)
    requires |lit| == 288 && |dist| == 32 && 257 <= nlit <= 286 && 1 <= ndist <= 30
    requires lit[286] == lit[287] == 0 && dist[30] == dist[31] == 0
    requires (forall i :: nlit <= i < 286 ==> lit[i] == 0) && (forall i :: ndist <= i < 30 ==> dist[i] == 0)
    requires ndist > 1 ==> dist[ndist - 1] != 0
    ensures Trims(Inflate.Codes(lit[..nlit], dist[..ndist]), lit, dist)
  {
  }

  lemma TableFacts(count: seq<uint16>, t: Table)
    requires TableFor(count, 12, t.sizes, t.codes) && |Used(count)| >= 2
    ensures |t.sizes| == |t.codes| == |count| && Complete(t.sizes, 12)
    ensures forall x :: 0 <= x < |count| ==> (t.sizes[x] > 0 <==> count[x] > 0)
  {
    hide SendsCodes, Complete;
  }

  /** Writes the block type and the header; false when the buffer is full. */
  method StartDynamicBlock(w: BitWriter, litCount: seq<uint16>, distCount: seq<uint16>)
    returns (ok: bool, lit: Table, dist: Table, ghost hb: seq<bool>, ghost c: Inflate.Codes)
    requires w.Valid() && w.bitBufSize <= 48
    requires BlockCounts(litCount, distCount)
    modifies w, w.dst
    ensures TableFor(litCount, 12, lit.sizes, lit.codes) && TableFor(distCount, 12, dist.sizes, dist.codes)
    ensures IsHeader(hb, c) && Trims(c, lit.sizes, dist.sizes)
    ensures ok ==> w.Valid() && w.bitBufSize <= 7 && w.Written() == old(w.Written()) + ToBits(2, 2) + hb
    ensures !ok ==> |old(w.Written())| + 2 + |hb| > 8 * w.dst.Length
  {
    hide BlockCounts, TableFor, IsHeader, Unpack, Valid, Complete, SendsCodes, ItemBits, ClenBits;
    var nlit, ndist;
    lit, dist, nlit, ndist := BlockTables(litCount, distCount);
    c := Inflate.Codes(lit.sizes[..nlit], dist.sizes[..ndist]);
    TrimmedValid(c, lit.sizes, dist.sizes);
    assert (c.lit + c.dist)[nlit] == 0 && (c.lit + c.dist)[256] > 0;
    var items, cl := PackHeader(lit.sizes[..nlit] + dist.sizes[..ndist], nlit, 256);
    var nclen := ClenCount(cl.sizes);
    HeaderRead(c, cl.sizes, nclen, items);
    CompleteDecodable(cl.sizes, 7);
    hb := HeaderBits(nlit, ndist, cl.sizes, nclen, items);
    ok := PutHeader(w, nlit, ndist, cl, nclen, items);
  }

  /** How many code length code lengths are sent: up to the last nonzero one, and at least four. */
  method ClenCount(cl: seq<nat>) returns (n: nat)
    requires |cl| == 19
    ensures 4 <= n <= 19 && forall i :: n <= i < 19 ==> cl[Inflate.LENGTH_ORDER[i]] == 0
  {
    n := 19;
    while n > 0 && cl[Inflate.LENGTH_ORDER[n - 1]] == 0
      invariant 0 <= n <= 19 && forall i :: n <= i < 19 ==> cl[Inflate.LENGTH_ORDER[i]] == 0
    {
      n := n - 1;
    }
    if n < 4 {
      n := 4;
    }
  }

  method PutHeader(w: BitWriter, nlit: nat, ndist: nat, cl: Table, nclen: nat, items: seq<Item>) returns (ok: bool)
    requires w.Valid() && w.bitBufSize <= 48
    requires 257 <= nlit <= 286 && 1 <= ndist <= 30 && 4 <= nclen <= 19
    requires |cl.sizes| == |cl.codes| == 19 && Bounded(cl.sizes, 7)
    requires SendsCodes(cl.sizes, cl.codes, 19) && Coded(cl.sizes, items) && Valid([], items)
    modifies w, w.dst
    ensures ok ==> w.Valid() && w.bitBufSize <= 7
    ensures ok ==> w.Written() == old(w.Written()) + ToBits(2, 2) + HeaderBits(nlit, ndist, cl.sizes, nclen, items)
    ensures !ok ==> |old(w.Written())| + 2 + |HeaderBits(nlit, ndist, cl.sizes, nclen, items)| > 8 * w.dst.Length
  {
    hide Pow2, ToBits, ItemBits, ClenBits, SendsCodes, Valid, Bounded, BitWriter.Valid, BitWriter.Written;
    ghost var w0 := w.Written();
    ok := PutSizes(w, nlit, ndist, nclen);
    if !ok {
      return;
    }
    ok := PutClens(w, cl.sizes, nclen);
    if !ok {
      return;
    }
    ok := PutItems(w, cl, items);
    ThreeParts(w0 + ToBits(2, 2), SizeBits(nlit, ndist, nclen), ClenBits(cl.sizes, nclen), ItemBits(cl.sizes, items));
  }

  method PutSizes(w: BitWriter, nlit: nat, ndist: nat, nclen: nat) returns (ok: bool)
    requires w.Valid() && w.bitBufSize <= 48
    requires 257 <= nlit <= 286 && 1 <= ndist <= 30 && 4 <= nclen <= 19
    modifies w, w.dst
    ensures ok ==> w.Valid() && w.bitBufSize <= 7
    ensures ok ==> w.Written() == old(w.Written()) + ToBits(2, 2) + SizeBits(nlit, ndist, nclen)
    ensures !ok ==> |old(w.Written())| + 2 + |SizeBits(nlit, ndist, nclen)| > 8 * w.dst.Length
  {
    hide Pow2, ToBits, BitWriter.Valid, BitWriter.Written;
    Pow2Values();
    ghost var w0 := w.Written();
    ok := w.DynPutBits(2, 2);
    if !ok {
      return;
    }
    ok := w.DynPutBits(nlit - 257, 5);
    if !ok {
      return;
    }
    ok := w.DynPutBits(ndist - 1, 5);
    if !ok {
      return;
    }
    ok := w.DynPutBits(nclen - 4, 4);
    ThreeParts(w0 + ToBits(2, 2), ToBits(nlit - 257, 5), ToBits(ndist - 1, 5), ToBits(nclen - 4, 4));
  }

  lemma ThreeParts(w: seq<bool>, a: seq<bool>, b: seq<bool>, c: seq<bool>)
    ensures w + a + b + c == w + (a + b + c)
  {
  }
}
