/** How fpng's decoder reads a dynamic block header (libs/fpng/fpng.cpp:1954-2102), bit by bit from a
    buffered reader, and what it accepts. */
module FpngHeader {
  import opened Arith
  import opened Bits
  import opened BitReader
  import opened Canonical
  import opened Wrappers
  import opened FpngTable
  import opened Inflate

  /** No way on: the reading failed, or it used up input that has to be left at the end. */
  ghost predicate Hopeless<T>(r: Option<Read<T>>) {
    r.None? || |r.value.rest| < 64
  }

  function At(s: seq<nat>, i: nat): nat {
    if i < |s| then s[i] else 0
  }

  /** One or two distance codes of one bit; the first is for one pixel, a second is the next one. */
  ghost predicate GoodDistances(dist: seq<nat>, chans: nat)
    requires chans >= 1
  {
    && 1 <= Count(dist, 1) <= 2
    && At(dist, chans - 1) == 1
    && (Count(dist, 1) == 2 ==> At(dist, chans) == 1)
  }

  /** The literal code lengths, read one symbol at a time. */
  ghost function ReadLitLens(n: Sizes, cl: seq<nat>, bits: seq<bool>, chans: nat): (r: Option<Read<seq<nat>>>)
    requires chans >= 1
    ensures r.Some? ==> |r.value.value| == n.nlit
    ensures r.Some? ==> |r.value.rest| <= |bits| && Accepted(r.value.value) && Bounded(r.value.value, TABLE_BITS)
  {
    match ReadLens(cl, n.nlit + n.ndist, bits, [])
    case None => None
    case Some(lens) =>
      var lit, dist := lens.value[..n.nlit], lens.value[n.nlit..];
      if Bounded(lens.value, TABLE_BITS) && GoodDistances(dist, chans) && Accepted(lit) then Some(Read(lit, lens.rest))
      else None
  }

  ghost function ReadAfterSizes(n: Sizes, bits: seq<bool>, chans: nat): (r: Option<Read<seq<nat>>>)
    requires chans >= 1 && n.nclen <= 19
    ensures r.Some? ==> |r.value.value| == n.nlit
    ensures r.Some? ==> |r.value.rest| <= |bits| && Accepted(r.value.value) && Bounded(r.value.value, TABLE_BITS)
  {
    match ReadClens(n.nclen, bits)
    case None => None
    case Some(clens) =>
      if !Accepted(Unswizzle(clens.value)) then None
      else ReadLitLens(n, Unswizzle(clens.value), clens.rest, chans)
  }

  function ReadAnySizes(bits: seq<bool>): (r: Option<Read<Sizes>>)
    ensures r.Some? ==> 257 <= r.value.value.nlit <= 288 && 1 <= r.value.value.ndist <= 32 && 4 <= r.value.value.nclen <= 19
    ensures r.Some? ==> |bits| >= 14 && r.value.rest == bits[14..]
  {
    if |bits| < 14 then None
    else
      Pow2Values();
      var nlit, ndist, nclen := 257 + FromBits(bits[..5]), 1 + FromBits(bits[5..][..5]), 4 + FromBits(bits[10..][..4]);
      Some(Read(Sizes(nlit, ndist, nclen), bits[14..]))
  }

  ghost function ReadFpngHeader(bits: seq<bool>, chans: nat): (r: Option<Read<seq<nat>>>)
    requires chans >= 1
    ensures r.Some? ==> |r.value.value| <= 288
    ensures r.Some? ==> |r.value.rest| <= |bits| && Accepted(r.value.value) && Bounded(r.value.value, TABLE_BITS)
  {
    match ReadAnySizes(bits)
    case None => None
    case Some(n) => if n.value.nclen > 19 then None else ReadAfterSizes(n.value, n.rest, chans)
  }

  // ---- The reader's steps.

  function Prepend(acc: seq<nat>, r: Option<Read<seq<nat>>>): Option<Read<seq<nat>>> {
    match r
    case None => None
    case Some(x) => Some(Read(acc + x.value, x.rest))
  }

  lemma ClenStep(n: nat, bits: seq<bool>, acc: seq<nat>)
    requires n > 0 && |bits| >= 3
    ensures Prepend(acc, ReadClens(n, bits)) == Prepend(acc + [FromBits(bits[..3])], ReadClens(n - 1, bits[3..]))
  {
    var r := ReadClens(n - 1, bits[3..]);
    if r.Some? {
      assert acc + ([FromBits(bits[..3])] + r.value.value) == acc + [FromBits(bits[..3])] + r.value.value;
    }
  }

  /** acc are the lengths read, cl the same lengths where they belong. */
  ghost predicate ClensSoFar(cl: seq<nat>, acc: seq<nat>, i: nat) {
    |acc| == i <= 19 && cl == Unswizzle(acc) && Bounded(cl, 7)
  }

  /** Reading from start has come to acc and rest. */
  ghost predicate ClensLeft(n: nat, start: seq<bool>, i: nat, acc: seq<nat>, rest: seq<bool>) {
    i <= n && Prepend(acc, ReadClens(n - i, rest)) == ReadClens(n, start)
  }

  /** Three bits for each code length symbol, in transmission order; the others stay zero. */
  method ReadClenSizes(r: BitReader, n: nat) returns (ok: bool, cl: array<nat>)
    requires r.Valid() && r.bitBufSize >= 32 && n <= 19
    modifies r
    ensures r.Valid() && fresh(cl) && cl.Length == 19
    ensures ok ==> r.bitBufSize >= 32 && Bounded(cl[..], 7)
    ensures ok ==> ReadClens(n, old(r.Rest())).Some? && Unswizzle(ReadClens(n, old(r.Rest())).value.value) == cl[..]
    ensures ok ==> ReadClens(n, old(r.Rest())).value.rest == r.Rest()
    ensures !ok ==> Hopeless(ReadClens(n, old(r.Rest())))
  {
    hide BitReader.Rest, BitReader.Valid, ReadClens, Unswizzle, ClensSoFar, ClensLeft, Hopeless;
    cl := new nat[19](_ => 0);
    ghost var start := r.Rest();
    ghost var acc: seq<nat> := [];
    var i: nat := 0;
    assert cl[..] == Zeros(19);
    NothingBefore(n, start, cl[..]);
    while i < n
      invariant i <= n && r.Valid() && r.bitBufSize >= 32 && cl.Length == 19
      invariant ClensSoFar(cl[..], acc, i) && ClensLeft(n, start, i, acc, r.Rest())
    {
      ok, acc := ReadClen(r, n, i, cl, acc, start);
      if !ok {
        return false, cl;
      }
      i := i + 1;
    }
    AllClens(n, start, acc, cl[..], r.Rest());
    return true, cl;
  }

  lemma NothingBefore(n: nat, bits: seq<bool>, cl: seq<nat>)
    requires cl == Zeros(19)
    ensures ClensSoFar(cl, [], 0) && ClensLeft(n, bits, 0, [], bits)
  {
    var r := ReadClens(n, bits);
    if r.Some? {
      assert [] + r.value.value == r.value.value;
    }
    assert Unswizzle([]) == Zeros(19);
  }

  lemma AllClens(n: nat, start: seq<bool>, acc: seq<nat>, cl: seq<nat>, bits: seq<bool>)
    requires ClensSoFar(cl, acc, n) && ClensLeft(n, start, n, acc, bits)
    ensures |acc| == n <= 19 && ReadClens(n, start) == Some(Read(acc, bits)) && Unswizzle(acc) == cl && Bounded(cl, 7)
  {
    assert acc + [] == acc;
  }

  /** The next three bits. */
  method ReadClen(r: BitReader, ghost n: nat, i: nat, cl: array<nat>, ghost acc0: seq<nat>, ghost start: seq<bool>)
    returns (ok: bool, ghost acc: seq<nat>)
    requires r.Valid() && r.bitBufSize >= 32 && i < n <= 19
    requires cl.Length == 19 && ClensSoFar(cl[..], acc0, i) && ClensLeft(n, start, i, acc0, r.Rest())
    modifies r, cl
    ensures r.Valid()
    ensures ok ==> r.bitBufSize >= 32 && ClensSoFar(cl[..], acc, i + 1) && ClensLeft(n, start, i + 1, acc, r.Rest())
    ensures !ok ==> Hopeless(ReadClens(n, start))
  {
    hide BitReader.Rest, BitReader.Valid, ReadClens, Unswizzle, FromBits, Pow2;
    Pow2Values();
    ghost var bits, before := r.Rest(), cl[..];
    var v;
    ok, v := r.Get(3);
    ClenStep(n - i, bits, acc0);
    acc := acc0 + [v];
    if !ok {
      return;
    }
    UnswizzleSnoc(acc0, v);
    PutClen(before, i, v);
    cl[LENGTH_ORDER[i]] := v;
    assert cl[..] == before[LENGTH_ORDER[i] := v];
  }

  lemma PutClen(cl: seq<nat>, i: nat, v: nat)
    requires |cl| == 19 && Bounded(cl, 7) && v <= 7 && i < 19
    ensures LENGTH_ORDER[i] < 19 && Bounded(cl[LENGTH_ORDER[i] := v], 7)
  {
    OrderBelow(i);
  }

  lemma OrderBelow(i: nat)
    requires i < 19
    ensures LENGTH_ORDER[i] < 19
  {
  }

  lemma UnswizzleSnoc(acc: seq<nat>, v: nat)
    requires |acc| < 19
    ensures LENGTH_ORDER[|acc|] < 19
    ensures Unswizzle(acc + [v]) == Unswizzle(acc)[LENGTH_ORDER[|acc|] := v]
  {
    var n := |acc|;
    OrderBelow(n);
    UnswizzleLast(acc + [v], acc, n, v);
  }

  lemma UnswizzleLast(all: seq<nat>, acc: seq<nat>, n: nat, v: nat)
    requires n < 19 && all == acc + [v] && n == |acc| && LENGTH_ORDER[n] < 19
    ensures Unswizzle(all) == Unswizzle(acc)[LENGTH_ORDER[n] := v]
  {
    assert all[..n] == acc && all[n] == v;
  }

  // ---- Code lengths.

  lemma {:induction false} LensExtend(cl: seq<nat>, n: nat, bits: seq<bool>, acc: seq<nat>)
    ensures var r := ReadLens(cl, n, bits, acc); r.Some? ==> acc <= r.value.value
    decreases |bits|
  {
    hide Repeat, FromBits;
    var s := ReadSym(cl, bits);
    if |acc| < n && s.Some? && ReadLens(cl, n, bits, acc).Some? {
      var v, rest := s.value.value, s.value.rest;
      if v < 16 {
        LensExtend(cl, n, rest, acc + [v]);
      } else if v == 16 {
        var k := ReadBits(rest, 2).value;
        LensExtend(cl, n, k.rest, acc + Repeat(acc[|acc| - 1], 3 + k.value));
      } else if v == 17 {
        var k := ReadBits(rest, 3).value;
        LensExtend(cl, n, k.rest, acc + Repeat(0, 3 + k.value));
      } else {
        var k := ReadBits(rest, 7).value;
        LensExtend(cl, n, k.rest, acc + Repeat(0, 11 + k.value));
      }
    }
  }

  /** Reading lengths cannot end in a list that the decoder takes. */
  ghost predicate Refused(r: Option<Read<seq<nat>>>) {
    Hopeless(r) || !Bounded(r.value.value, TABLE_BITS)
  }

  lemma TooLong(cl: seq<nat>, n: nat, bits: seq<bool>, acc: seq<nat>, v: nat)
    requires v > TABLE_BITS
    ensures Refused(ReadLens(cl, n, bits, acc + [v]))
  {
    LensExtend(cl, n, bits, acc + [v]);
    var r := ReadLens(cl, n, bits, acc + [v]);
    if r.Some? {
      assert r.value.value[|acc|] == v;
    }
  }

  lemma ShortOfInput(cl: seq<nat>, n: nat, bits: seq<bool>, acc: seq<nat>)
    requires |bits| < 64
    ensures Refused(ReadLens(cl, n, bits, acc))
  {
  }

  /** One symbol of the code length alphabet. */
  lemma LensStep(cl: seq<nat>, n: nat, bits: seq<bool>, acc: seq<nat>, e: Entry)
    requires |acc| < n && MeansFirst(cl, e, bits)
    ensures e.len == 0 ==> ReadLens(cl, n, bits, acc).None?
    ensures e.len > 0 && e.sym < 16 ==> ReadLens(cl, n, bits, acc) == ReadLens(cl, n, bits[e.len..], acc + [e.sym])
  {
    hide Repeat, FromBits;
  }

  function RepeatBits(sym: nat): nat {
    if sym == 16 then 2 else if sym == 17 then 3 else 7
  }

  function RepeatBase(sym: nat): nat {
    if sym == 18 then 11 else 3
  }

  function Repeated(acc: seq<nat>, sym: nat): nat {
    if sym == 16 && acc != [] then acc[|acc| - 1] else 0
  }

  lemma RepeatStep(cl: seq<nat>, n: nat, bits: seq<bool>, acc: seq<nat>, e: Entry, k: nat)
    requires |acc| < n && MeansFirst(cl, e, bits) && 16 <= e.sym <= 18 && e.len > 0
    requires |bits[e.len..]| >= RepeatBits(e.sym) && k == FromBits(bits[e.len..][..RepeatBits(e.sym)])
    ensures ReadLens(cl, n, bits, acc) == if e.sym == 16 && acc == [] then None
         else ReadLens(cl, n, bits[e.len..][RepeatBits(e.sym)..], acc + Repeat(Repeated(acc, e.sym), RepeatBase(e.sym) + k))
  {
    hide Repeat, FromBits;
  }

  method Lookup12(r: BitReader, table: seq<Entry>, ghost lens: seq<nat>) returns (e: Entry)
    requires r.Valid() && r.bitBufSize >= TABLE_BITS
    requires Decodable(lens, 15) && Bounded(lens, TABLE_BITS) && Single(lens, table)
    ensures MeansFirst(lens, e, r.Rest())
  {
    hide Pow2, ToBits, Decodable, BitReader.Rest, BitReader.Valid;
    Pow2Values();
    var x := r.Peek(TABLE_BITS);
    FirstMeans(lens, x, table[x], r.Rest());
    return table[x];
  }

  method PutRepeat(codeSizes: array<nat>, cur: nat, v: nat, n: nat)
    requires cur + n <= codeSizes.Length
    modifies codeSizes
    ensures codeSizes[..cur + n] == old(codeSizes[..cur]) + Repeat(v, n)
    ensures codeSizes[cur + n..] == old(codeSizes[cur + n..])
  {
    var i: nat := 0;
    while i < n
      invariant i <= n && codeSizes[..cur] == old(codeSizes[..cur])
      invariant forall k :: cur <= k < cur + i ==> codeSizes[k] == v
      invariant codeSizes[cur + n..] == old(codeSizes[cur + n..])
    {
      codeSizes[cur + i] := v;
      i := i + 1;
    }
    assert codeSizes[..cur + n] == codeSizes[..cur] + codeSizes[cur..cur + n];
    assert codeSizes[cur..cur + n] == Repeat(v, n);
  }

  const MAX_CODES: nat := 320

  /** cur lengths are read: none above 12 bits, none of the nonzero ones below minCodeSize. */
  ghost predicate LensSoFar(sizes: seq<nat>, cur: nat, minCodeSize: nat, total: nat) {
    && |sizes| == MAX_CODES && cur <= total <= MAX_CODES
    && Bounded(sizes[..cur], TABLE_BITS) && AtLeast(sizes[..cur], minCodeSize)
    && forall k :: cur <= k < MAX_CODES ==> sizes[k] == 0
  }

  lemma SoFarOne(sizes: seq<nat>, cur: nat, minCodeSize: nat, total: nat, v: nat)
    requires LensSoFar(sizes, cur, minCodeSize, total) && cur < total && v <= TABLE_BITS
    ensures LensSoFar(sizes[cur := v], cur + 1, if 0 < v < minCodeSize then v else minCodeSize, total)
    ensures sizes[cur := v][..cur + 1] == sizes[..cur] + [v]
  {
    var t := sizes[cur := v];
    assert t[..cur + 1] == sizes[..cur] + [v];
    assert forall k :: 0 <= k < cur ==> t[..cur + 1][k] == sizes[..cur][k];
    assert t[..cur + 1][cur] == v;
  }

  lemma SoFarRepeat(sizes: seq<nat>, sizes': seq<nat>, cur: nat, minCodeSize: nat, total: nat, sym: nat, n: nat)
    requires LensSoFar(sizes, cur, minCodeSize, total) && cur + n <= total && |sizes'| == |sizes|
    requires sizes'[..cur + n] == sizes[..cur] + Repeat(Repeated(sizes[..cur], sym), n)
    requires sizes'[cur + n..] == sizes[cur + n..]
    ensures LensSoFar(sizes', cur + n, minCodeSize, total)
  {
    var t := sizes'[..cur + n];
    forall k | cur <= k < cur + n
      ensures t[k] == Repeated(sizes[..cur], sym)
    {
      assert t[k] == (sizes[..cur] + Repeat(Repeated(sizes[..cur], sym), n))[k];
    }
    forall k | 0 <= k < cur
      ensures t[k] == sizes[..cur][k]
    {
      assert t[k] == (sizes[..cur] + Repeat(Repeated(sizes[..cur], sym), n))[k];
    }
    forall k | cur + n <= k < MAX_CODES
      ensures sizes'[k] == 0
    {
      assert sizes'[k] == sizes'[cur + n..][k - (cur + n)] == sizes[cur + n..][k - (cur + n)];
    }
  }

  /** A repeat: its count, then the length it repeats. */
  method RepeatCodeSize(r: BitReader, codeSizes: array<nat>, cur0: nat, total: nat, sym: nat, ghost minCodeSize: nat,
                        ghost cl: seq<nat>)
    returns (ok: bool, cur: nat)
    requires r.Valid() && r.bitBufSize >= 32 && 16 <= sym <= 18
    requires LensSoFar(codeSizes[..], cur0, minCodeSize, total) && cur0 < total
    modifies r, codeSizes
    ensures r.Valid() && |old(r.Rest())| >= RepeatBits(sym)
    ensures ok ==> r.bitBufSize >= 32 && cur0 < cur && LensSoFar(codeSizes[..], cur, minCodeSize, total)
    ensures var k := FromBits(old(r.Rest())[..RepeatBits(sym)]);
      && (ok ==> !(sym == 16 && cur0 == 0) && r.Rest() == old(r.Rest())[RepeatBits(sym)..])
      && (ok ==> codeSizes[..cur] == old(codeSizes[..cur0]) + Repeat(Repeated(old(codeSizes[..cur0]), sym), RepeatBase(sym) + k))
      && (!ok ==> (sym == 16 && cur0 == 0) || Refused(ReadLens(cl, total, old(r.Rest())[RepeatBits(sym)..],
            old(codeSizes[..cur0]) + Repeat(Repeated(old(codeSizes[..cur0]), sym), RepeatBase(sym) + k))))
  {
    ghost var acc := codeSizes[..cur0];
    ghost var sizes := codeSizes[..];
    assert sizes[..cur0] == acc;
    cur := cur0;
    assert |r.Rest()| >= r.bitBufSize;
    hide BitReader.Rest, BitReader.Valid, FromBits, Repeat, LensSoFar;
    var k;
    ok, k := r.Get(RepeatBits(sym));
    if !ok {
      ShortOfInput(cl, total, r.Rest(), acc + Repeat(Repeated(acc, sym), RepeatBase(sym) + k));
      return;
    }
    if sym == 16 && cur0 == 0 {
      return false, cur;
    }
    var repLen := RepeatBase(sym) + k;
    if cur0 + repLen > total {
      return false, cur;
    }
    LengthsTotal(sizes, cur0, minCodeSize, total);
    var size := if sym == 16 then codeSizes[cur0 - 1] else 0;
    PutRepeat(codeSizes, cur0, size, repLen);
    SoFarRepeat(sizes, codeSizes[..], cur0, minCodeSize, total, sym, repLen);
    assert codeSizes[..][..cur0 + repLen] == codeSizes[..cur0 + repLen];
    cur := cur0 + repLen;
  }

  lemma LengthsTotal(sizes: seq<nat>, cur: nat, minCodeSize: nat, total: nat)
    requires LensSoFar(sizes, cur, minCodeSize, total)
    ensures |sizes| == MAX_CODES >= total
  {
  }

  method OneCodeSize(r: BitReader, table: seq<Entry>, codeSizes: array<nat>, cur0: nat, total: nat, min0: nat, ghost cl: seq<nat>)
    returns (ok: bool, cur: nat, minCodeSize: nat)
    requires r.Valid() && r.bitBufSize >= 32
    requires |cl| == 19 && Decodable(cl, 15) && Bounded(cl, TABLE_BITS) && Single(cl, table)
    requires LensSoFar(codeSizes[..], cur0, min0, total) && cur0 < total
    modifies r, codeSizes
    ensures ok ==> r.Valid() && r.bitBufSize >= 32 && cur0 < cur && LensSoFar(codeSizes[..], cur, minCodeSize, total)
    ensures ok ==> ReadLens(cl, total, old(r.Rest()), old(codeSizes[..cur0])) == ReadLens(cl, total, r.Rest(), codeSizes[..cur])
    ensures !ok ==> Refused(ReadLens(cl, total, old(r.Rest()), old(codeSizes[..cur0])))
  {
    hide BitReader.Rest, BitReader.Valid, Decodable, Bounded, Single, ReadLens, Repeat, LensSoFar, FromBits;
    ghost var bits, sizes := r.Rest(), codeSizes[..];
    LengthsTotal(sizes, cur0, min0, total);
    ghost var acc := codeSizes[..cur0];
    cur, minCodeSize := cur0, min0;
    var e := Lookup12(r, table, cl);
    LensStep(cl, total, bits, acc, e);
    if e.len == 0 {
      return false, cur, minCodeSize;
    }
    ok := r.Skip(e.len);
    if !ok {
      AfterSymbol(cl, total, bits, acc, e);
      return;
    }
    if e.sym <= 15 {
      if e.sym > TABLE_BITS {
        TooLong(cl, total, r.Rest(), acc, e.sym);
        return false, cur, minCodeSize;
      }
      if e.sym != 0 {
        minCodeSize := if e.sym < minCodeSize then e.sym else minCodeSize;
      }
      SoFarOne(sizes, cur0, min0, total, e.sym);
      codeSizes[cur0] := e.sym;
      assert codeSizes[..] == sizes[cur0 := e.sym] && codeSizes[..][..cur0 + 1] == codeSizes[..cur0 + 1];
      assert sizes[..cur0] == acc;
      cur := cur0 + 1;
    } else {
      ok, cur := RepeatCodeSize(r, codeSizes, cur0, total, e.sym, minCodeSize, cl);
      RepeatStep(cl, total, bits, acc, e, FromBits(bits[e.len..][..RepeatBits(e.sym)]));
    }
  }

  lemma AfterSymbol(cl: seq<nat>, n: nat, bits: seq<bool>, acc: seq<nat>, e: Entry)
    requires |acc| < n && MeansFirst(cl, e, bits) && e.len > 0 && |bits[e.len..]| < 64
    ensures Refused(ReadLens(cl, n, bits, acc))
  {
    hide Repeat, FromBits;
  }

  method ReadCodeSizes(r: BitReader, table: seq<Entry>, total: nat, ghost cl: seq<nat>)
    returns (ok: bool, codeSizes: array<nat>, minCodeSize: nat)
    requires r.Valid() && r.bitBufSize >= 32 && total <= MAX_CODES
    requires |cl| == 19 && Decodable(cl, 15) && Bounded(cl, TABLE_BITS) && Single(cl, table)
    modifies r
    ensures fresh(codeSizes) && codeSizes.Length == MAX_CODES
    ensures ok ==> r.Valid() && r.bitBufSize >= 32 && LensSoFar(codeSizes[..], total, minCodeSize, total)
    ensures ok ==> ReadLens(cl, total, old(r.Rest()), []) == Some(Read(codeSizes[..total], r.Rest()))
    ensures !ok ==> Refused(ReadLens(cl, total, old(r.Rest()), []))
  {
    codeSizes := new nat[MAX_CODES](_ => 0);
    minCodeSize := 15;
    ghost var bits := r.Rest();
    var cur: nat := 0;
    assert codeSizes[..0] == [];
    assert LensSoFar(codeSizes[..], 0, 15, total);
    hide BitReader.Rest, BitReader.Valid, Decodable, Bounded, Single, ReadLens, LensSoFar;
    while cur < total
      invariant codeSizes.Length == MAX_CODES && r.Valid() && r.bitBufSize >= 32 && cur <= total
      invariant LensSoFar(codeSizes[..], cur, minCodeSize, total)
      invariant ReadLens(cl, total, bits, []) == ReadLens(cl, total, r.Rest(), codeSizes[..cur])
    {
      ok, cur, minCodeSize := OneCodeSize(r, table, codeSizes, cur, total, minCodeSize, cl);
      if !ok {
        return;
      }
      CurBound(codeSizes[..], cur, minCodeSize, total);
    }
    AllLens(cl, total, r.Rest(), codeSizes[..total]);
    return true, codeSizes, minCodeSize;
  }

  lemma CurBound(sizes: seq<nat>, cur: nat, minCodeSize: nat, total: nat)
    requires LensSoFar(sizes, cur, minCodeSize, total)
    ensures cur <= total
  {
  }

  lemma AllLens(cl: seq<nat>, n: nat, bits: seq<bool>, acc: seq<nat>)
    requires |acc| == n
    ensures ReadLens(cl, n, bits, acc) == Some(Read(acc, bits))
  {
  }

  // ---- The whole header.

  method GetSizes(r: BitReader) returns (ok: bool, n: Sizes)
    requires r.Valid() && r.bitBufSize >= 32
    modifies r
    ensures ok ==> r.Valid() && r.bitBufSize >= 32 && n.nclen <= 19 && n.nlit <= 288 && n.ndist <= 32 && 257 <= n.nlit
    ensures ok ==> ReadAnySizes(old(r.Rest())) == Some(Read(n, r.Rest()))
    ensures !ok ==> Hopeless(ReadAnySizes(old(r.Rest())))
  {
    Pow2Values();
    ghost var bits := r.Rest();
    hide BitReader.Rest, BitReader.Valid, FromBits, Pow2;
    n := Sizes(0, 0, 0);
    var nlit, ndist, nclen;
    ok, nlit := r.Get(5);
    if !ok {
      return;
    }
    ok, ndist := r.Get(5);
    if !ok {
      return;
    }
    ok, nclen := r.Get(4);
    if !ok {
      return;
    }
    assert bits[5..][5..] == bits[10..] && bits[10..][4..] == bits[14..];
    n := Sizes(257 + nlit, 1 + ndist, 4 + nclen);
  }

  method CountOnes(codeSizes: array<nat>, from: nat, n: nat) returns (ones: nat)
    requires from + n <= codeSizes.Length
    ensures ones == Count(codeSizes[from..from + n], 1)
  {
    ones := 0;
    var i: nat := 0;
    while i < n
      invariant i <= n && ones == Count(codeSizes[from..from + i], 1)
    {
      assert codeSizes[from..from + i + 1][..i] == codeSizes[from..from + i];
      if codeSizes[from + i] == 1 {
        ones := ones + 1;
      }
      i := i + 1;
    }
  }

  method CheckDistances(codeSizes: array<nat>, nlit: nat, ndist: nat, chans: nat, ghost minCodeSize: nat) returns (ok: bool)
    requires 257 <= nlit <= 288 && ndist <= 32 && (chans == 3 || chans == 4)
    requires LensSoFar(codeSizes[..], nlit + ndist, minCodeSize, nlit + ndist)
    ensures ok <==> GoodDistances(codeSizes[..nlit + ndist][nlit..], chans)
  {
    var ones := CountOnes(codeSizes, nlit, ndist);
    ghost var dist := codeSizes[..nlit + ndist][nlit..];
    assert dist == codeSizes[nlit..nlit + ndist];
    assert At(dist, chans - 1) == codeSizes[..][nlit + chans - 1] && At(dist, chans) == codeSizes[..][nlit + chans];
    if ones < 1 || ones > 2 {
      return false;
    }
    if codeSizes[nlit + chans - 1] != 1 {
      return false;
    }
    if ones == 2 && codeSizes[nlit + chans] != 1 {
      return false;
    }
    return true;
  }

  lemma LitOf(sizes: seq<nat>, n: nat, nlit: nat, minCodeSize: nat)
    requires nlit <= n && LensSoFar(sizes, n, minCodeSize, n)
    ensures Bounded(sizes[..n], TABLE_BITS) && Bounded(sizes[..nlit], TABLE_BITS) && AtLeast(sizes[..nlit], minCodeSize)
    ensures sizes[..n][..nlit] == sizes[..nlit]
  {
    assert sizes[..n][..nlit] == sizes[..nlit];
    forall s | 0 <= s < nlit
      ensures sizes[..nlit][s] <= TABLE_BITS && (sizes[..nlit][s] > 0 ==> sizes[..nlit][s] >= minCodeSize)
    {
      assert sizes[..nlit][s] == sizes[..n][s];
    }
  }

  lemma BoundedWider(lens: seq<nat>)
    requires Bounded(lens, 7)
    ensures Bounded(lens, TABLE_BITS)
  {
  }

  /** prepare_dynamic_block: the table finds the symbols of the code in the header, two at a time. */
  method PrepareDynamicBlock(r: BitReader, chans: nat) returns (ok: bool, table: array<Entry>, ghost lit: seq<nat>)
    requires r.Valid() && r.bitBufSize >= 32 && (chans == 3 || chans == 4)
    modifies r
    ensures fresh(table)
    ensures ok ==> r.Valid() && r.bitBufSize >= 32
    ensures ok ==> ReadFpngHeader(old(r.Rest()), chans) == Some(Read(lit, r.Rest()))
    ensures ok ==> Packed(lit, table[..]) && Decodable(lit, 15) && Bounded(lit, TABLE_BITS)
    ensures !ok ==> Hopeless(ReadFpngHeader(old(r.Rest()), chans))
  {
    hide BitReader.Rest, BitReader.Valid, Packed, Single, Accepted, Decodable, Bounded, LensSoFar, ReadLens, ReadClens, Unswizzle, GoodDistances, AtLeast;
    table := new Entry[0];
    lit := [];
    var n;
    ok, n := GetSizes(r);
    if !ok {
      return;
    }
    var cl;
    ok, cl := ReadClenSizes(r, n.nclen);
    if !ok {
      return;
    }
    var clenTable;
    BoundedWider(cl[..]);
    ok, clenTable := BuildDecoderTable(cl[..]);
    if !ok {
      return;
    }
    AcceptedDecodable(cl[..]);
    var codeSizes, minCodeSize;
    ok, codeSizes, minCodeSize := ReadCodeSizes(r, clenTable[..], n.nlit + n.ndist, cl[..]);
    if !ok {
      return;
    }
    LitOf(codeSizes[..], n.nlit + n.ndist, n.nlit, minCodeSize);
    ok := CheckDistances(codeSizes, n.nlit, n.ndist, chans, minCodeSize);
    if !ok {
      return;
    }
    lit := codeSizes[..n.nlit];
    assert codeSizes[..][..n.nlit] == lit && codeSizes[..][..n.nlit + n.ndist] == codeSizes[..n.nlit + n.ndist];
    ok, table := BuildDecoderTable(codeSizes[..n.nlit]);
    if !ok {
      return;
    }
    AcceptedDecodable(lit);
    PackTable(lit, table, minCodeSize);
  }

  // ---- What any reader of the standard takes for fpng's codes, this one does too.

  lemma StandardHeader(bits: seq<bool>, chans: nat, c: Codes, rest: seq<bool>)
    requires ReadDynamicHeader(bits) == Some(Read(c, rest)) && (chans == 3 || chans == 4)
    requires Bounded(c.lit, TABLE_BITS) && |c.dist| == chans + 1
    requires (forall i :: 0 <= i < chans - 1 ==> c.dist[i] == 0) && c.dist[chans - 1] == c.dist[chans] == 1
    ensures ReadFpngHeader(bits, chans) == Some(Read(c.lit, rest))
  {
    hide ReadLens, ReadClens, Unswizzle, Complete, Bounded, FromBits;
    SizesSame(bits);
    var n := ReadSizes(bits).value;
    var cl := Unswizzle(ReadClens(n.value.nclen, n.rest).value.value);
    ClensAccepted(cl);
    var lens := ReadLens(cl, n.value.nlit + n.value.ndist, ReadClens(n.value.nclen, n.rest).value.rest, []).value;
    TwoOnes(c.dist, chans);
    LitDist(lens.value, c, n.value.nlit);
  }

  lemma SizesSame(bits: seq<bool>)
    ensures ReadSizes(bits).Some? ==> ReadAnySizes(bits) == ReadSizes(bits)
  {
    hide FromBits;
    if |bits| >= 14 {
      assert bits[5..][5..] == bits[10..] && bits[10..][4..] == bits[14..];
    }
  }

  lemma ClensAccepted(cl: seq<nat>)
    requires Complete(cl, 7)
    ensures Accepted(cl)
  {
    CompleteAt(cl, 7, 15);
  }

  lemma LitDist(lens: seq<nat>, c: Codes, nlit: nat)
    requires nlit <= |lens| && c.lit == lens[..nlit] && c.dist == lens[nlit..]
    requires Bounded(c.lit, TABLE_BITS) && Bounded(c.dist, TABLE_BITS) && Complete(c.lit, 15)
    ensures Bounded(lens, TABLE_BITS) && Accepted(c.lit)
  {
    forall i | 0 <= i < |lens|
      ensures lens[i] <= TABLE_BITS
    {
      assert i < nlit ==> lens[i] == c.lit[i];
      assert i >= nlit ==> lens[i] == c.dist[i - nlit];
    }
  }

  lemma TwoOnes(dist: seq<nat>, chans: nat)
    requires (chans == 3 || chans == 4) && |dist| == chans + 1
    requires (forall i :: 0 <= i < chans - 1 ==> dist[i] == 0) && dist[chans - 1] == dist[chans] == 1
    ensures GoodDistances(dist, chans) && Bounded(dist, TABLE_BITS)
  {
    var z := dist[..chans - 1];
    NoOnes(z);
    assert dist[..chans][..chans - 1] == z;
    assert Count(dist[..chans], 1) == 1;
  }

  lemma {:induction false} NoOnes(z: seq<nat>)
    requires forall i :: 0 <= i < |z| ==> z[i] == 0
    ensures Count(z, 1) == 0
  {
    if z != [] {
      NoOnes(z[..|z| - 1]);
    }
  }
}
