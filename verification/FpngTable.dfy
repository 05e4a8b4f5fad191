/** The decoder's table of 12-bit windows (libs/fpng/fpng.cpp:1833-1895, 2079-2099). An entry holds
    the symbol at the front of its window, and in the literal table also the symbol after it when
    both fit; the packed fields of an entry are the fields of a datatype here. */
module FpngTable {
  import opened Arith
  import opened Bits
  import opened Canonical
  import opened Wrappers
  import opened HuffmanTable
  import Inflate

  const TABLE_BITS: nat := 12
  const TABLE_SIZE: nat := 4096

  datatype Entry = Entry(sym: nat, len: nat, sym2: nat, len2: nat)

  const EMPTY: Entry := Entry(0, 0, 0, 0)

  // ---- Which length lists are taken: complete codes, and codes of one word.

  /** How many symbols have a length above k. */
  function Longer(lens: seq<nat>, k: nat): nat {
    if lens == [] then 0
    else Longer(lens[..|lens| - 1], k) + if lens[|lens| - 1] > k then 1 else 0
  }

  ghost predicate Accepted(lens: seq<nat>) {
    Complete(lens, 15) || (Bounded(lens, 15) && Longer(lens, 0) == 1)
  }

  lemma {:induction false} LongerStep(lens: seq<nat>, k: nat)
    requires k >= 1
    ensures Longer(lens, k - 1) == Longer(lens, k) + Count(lens, k)
  {
    if lens != [] {
      LongerStep(lens[..|lens| - 1], k);
    }
  }

  lemma {:induction false} NoneLonger(lens: seq<nat>, k: nat)
    requires Bounded(lens, k)
    ensures Longer(lens, k) == 0
  {
    if lens != [] {
      NoneLonger(lens[..|lens| - 1], k);
    }
  }

  lemma {:induction false} LongerMonotone(lens: seq<nat>, k: nat)
    ensures Longer(lens, k) <= Longer(lens, 0)
    decreases k
  {
    if k > 0 {
      LongerStep(lens, k);
      LongerMonotone(lens, k - 1);
    }
  }

  lemma {:induction false} KraftOfFew(lens: seq<nat>, m: nat)
    ensures Kraft(lens, m) <= Longer(lens, 0) * Pow2(m)
  {
    if lens != [] {
      var n := |lens| - 1;
      KraftOfFew(lens[..n], m);
      if lens[n] > 0 {
        assert (Longer(lens[..n], 0) + 1) * Pow2(m) == Longer(lens[..n], 0) * Pow2(m) + Pow2(m);
        if lens[n] <= m {
          Pow2Monotone(m - lens[n], m);
        }
      }
    }
  }

  lemma AcceptedDecodable(lens: seq<nat>)
    requires Accepted(lens)
    ensures Decodable(lens, 15)
  {
    KraftOfFew(lens, 15);
    assert 1 * Pow2(15) == Pow2(15);
  }

  // ---- Lookups.

  /** e is what one 12-bit window says about the first symbol in it, among symbols below i. */
  ghost predicate Slot(lens: seq<nat>, i: nat, x: nat, e: Entry) {
    && (e.len > 0 ==> e.sym < i && Sends(lens, e.sym, ToBits(x, TABLE_BITS)) && lens[e.sym] == e.len)
    && (e.len == 0 ==> forall s :: 0 <= s < i ==> !Sends(lens, s, ToBits(x, TABLE_BITS)))
  }

  ghost predicate Single(lens: seq<nat>, table: seq<Entry>) {
    && |table| == TABLE_SIZE
    && forall x :: 0 <= x < TABLE_SIZE ==> Slot(lens, |lens|, x, table[x]) && table[x].len2 == 0
  }

  /** e also names the symbol after a first literal, exactly when the window holds all of it. */
  ghost predicate Pair(lens: seq<nat>, x: nat, e: Entry) {
    && Slot(lens, |lens|, x, e)
    && (e.len2 > 0 ==> 0 < e.len && e.sym < 256 && e.len + e.len2 <= TABLE_BITS)
    && (e.len2 > 0 ==> Sends(lens, e.sym2, ToBits(x, TABLE_BITS)[e.len..]) && lens[e.sym2] == e.len2)
    && (e.len2 == 0 && e.len > 0 && e.sym < 256 ==> NoSymbol(lens, ToBits(x, TABLE_BITS), e.len))
  }

  ghost predicate NoSymbol(lens: seq<nat>, w: seq<bool>, k: nat) {
    k <= |w| && forall s :: 0 <= s < |lens| ==> !Sends(lens, s, w[k..])
  }

  ghost predicate Packed(lens: seq<nat>, table: seq<Entry>) {
    |table| == TABLE_SIZE && forall x :: 0 <= x < TABLE_SIZE ==> Pair(lens, x, table[x])
  }

  /** What a reader of one symbol at a time finds in bits that start with the window. */
  ghost predicate MeansFirst(lens: seq<nat>, e: Entry, bits: seq<bool>) {
    && (e.len == 0 ==> Inflate.ReadSym(lens, bits).None?)
    && (e.len > 0 ==> e.len <= TABLE_BITS && e.len <= |bits| && e.sym < |lens|)
    && (e.len > 0 ==> Inflate.ReadSym(lens, bits) == Some(Inflate.Read(e.sym, bits[e.len..])))
  }

  ghost predicate Means(lens: seq<nat>, e: Entry, bits: seq<bool>) {
    && MeansFirst(lens, e, bits)
    && (e.len2 > 0 ==> 0 < e.len && e.len + e.len2 <= TABLE_BITS && e.len + e.len2 <= |bits|)
    && (e.len2 > 0 ==> e.sym < 256 && e.sym2 < |lens|)
    && (e.len2 > 0 ==> Inflate.ReadSym(lens, bits[e.len..]) == Some(Inflate.Read(e.sym2, bits[e.len..][e.len2..])))
  }

  lemma SentIsRead(lens: seq<nat>, s: nat, bits: seq<bool>)
    requires Decodable(lens, 15) && Sends(lens, s, bits)
    ensures Inflate.ReadSym(lens, bits) == Some(Inflate.Read(s, bits[lens[s]..])) && lens[s] <= |bits|
  {
    SendsUnique(lens, 15, s, DecodeSym(lens, bits).value, bits);
  }

  lemma SendsFurther(lens: seq<nat>, s: nat, a: seq<bool>, b: seq<bool>)
    requires a <= b
    ensures Sends(lens, s, a) ==> Sends(lens, s, b)
    ensures Sends(lens, s, b) && lens[s] <= |a| ==> Sends(lens, s, a)
  {
  }

  lemma NothingSent(lens: seq<nat>, w: seq<bool>, bits: seq<bool>)
    requires w <= bits && |w| == TABLE_BITS && Bounded(lens, TABLE_BITS)
    requires forall s :: 0 <= s < |lens| ==> !Sends(lens, s, w)
    ensures Inflate.ReadSym(lens, bits).None?
  {
    forall s | Sends(lens, s, bits)
      ensures false
    {
      SendsFurther(lens, s, w, bits);
    }
  }

  lemma FirstMeans(lens: seq<nat>, x: nat, e: Entry, bits: seq<bool>)
    requires Decodable(lens, 15) && Bounded(lens, TABLE_BITS) && Slot(lens, |lens|, x, e)
    requires |bits| >= TABLE_BITS && bits[..TABLE_BITS] == ToBits(x, TABLE_BITS)
    ensures MeansFirst(lens, e, bits)
  {
    hide ToBits, Codeword, Decodable;
    var w := ToBits(x, TABLE_BITS);
    if e.len == 0 {
      NothingSent(lens, w, bits);
    } else {
      SendsFurther(lens, e.sym, w, bits);
      SentIsRead(lens, e.sym, bits);
    }
  }

  lemma EntryMeans(lens: seq<nat>, x: nat, e: Entry, bits: seq<bool>)
    requires Decodable(lens, 15) && Bounded(lens, TABLE_BITS) && Pair(lens, x, e)
    requires |bits| >= TABLE_BITS && bits[..TABLE_BITS] == ToBits(x, TABLE_BITS)
    ensures Means(lens, e, bits)
  {
    FirstMeans(lens, x, e, bits);
    hide ToBits, Codeword, Decodable;
    var w := ToBits(x, TABLE_BITS);
    if e.len2 > 0 {
      assert w[e.len..] <= bits[e.len..];
      SendsFurther(lens, e.sym2, w[e.len..], bits[e.len..]);
      SentIsRead(lens, e.sym2, bits[e.len..]);
    }
  }

  /** A table lookup, symbol by symbol: what every use of the table relies on. */
  lemma Lookup(lens: seq<nat>, table: seq<Entry>, x: nat, bits: seq<bool>)
    requires Decodable(lens, 15) && Bounded(lens, TABLE_BITS) && Packed(lens, table) && x < TABLE_SIZE
    requires |bits| >= TABLE_BITS && bits[..TABLE_BITS] == ToBits(x, TABLE_BITS)
    ensures Means(lens, table[x], bits)
  {
    hide Pair, Means;
    EntryMeans(lens, x, table[x], bits);
  }

  /** In a complete code no slot is left empty. */
  lemma EverySlotFilled(lens: seq<nat>, table: seq<Entry>, x: nat)
    requires Complete(lens, 15) && Bounded(lens, TABLE_BITS) && Single(lens, table) && x < TABLE_SIZE
    ensures table[x].len > 0
  {
    CompleteAt(lens, TABLE_BITS, 15);
    var s := CompleteDecodes(lens, TABLE_BITS, ToBits(x, TABLE_BITS));
  }

  // ---- Building the table of single symbols.

  ghost predicate LengthCounts(lens: seq<nat>, c: seq<nat>) {
    |c| == 16 && forall l :: 0 <= l < 16 ==> c[l] == Count(lens, l)
  }

  method CountCodes(lens: seq<nat>) returns (numCodes: array<nat>)
    requires Bounded(lens, 15)
    ensures fresh(numCodes) && numCodes.Length == 16 && LengthCounts(lens, numCodes[..])
  {
    numCodes := new nat[16](_ => 0);
    var i := 0;
    assert lens[..0] == [];
    while i < |lens|
      invariant 0 <= i <= |lens| && LengthCounts(lens[..i], numCodes[..])
    {
      assert lens[..i + 1][..i] == lens[..i];
      ghost var c := numCodes[..];
      numCodes[lens[i]] := numCodes[lens[i]] + 1;
      assert numCodes[..] == c[lens[i] := c[lens[i]] + 1];
      i := i + 1;
    }
    assert lens[..i] == lens;
  }

  /** The first codes of lengths 1 to n are known. */
  ghost predicate FirstCodes(lens: seq<nat>, next: seq<nat>, n: nat) {
    |next| == 17 && n < 17 && forall l :: 1 <= l <= n ==> next[l] == NextCode(lens, l)
  }

  lemma FirstCodesNext(lens: seq<nat>, c: seq<nat>, next: seq<nat>, i: nat)
    requires LengthCounts(lens, c) && 1 <= i <= 15 && FirstCodes(lens, next, i)
    ensures var total := (next[i] + c[i]) * 2;
      total == NextCode(lens, i + 1) && FirstCodes(lens, next[i + 1 := total], i + 1)
  {
  }

  /** The first code of every length, and twice the Kraft sum. */
  method FirstOfLength(ghost lens: seq<nat>, numCodes: array<nat>) returns (nextCode: array<nat>, total: nat)
    requires numCodes.Length == 16 && LengthCounts(lens, numCodes[..])
    ensures fresh(nextCode) && nextCode.Length == 17 && FirstCodes(lens, nextCode[..], 16)
    ensures total == 2 * Kraft(lens, 15)
  {
    FirstFree(lens, 16);
    nextCode := new nat[17](_ => 0);
    total := 0;
    var i: nat := 1;
    assert FirstCodes(lens, nextCode[..], 1);
    hide NextCode, Kraft, Count, FirstCodes, LengthCounts;
    while i <= 15
      invariant 1 <= i <= 16 && nextCode.Length == 17 && total == nextCode[i]
      invariant FirstCodes(lens, nextCode[..], i)
    {
      ghost var next := nextCode[..];
      FirstCodesNext(lens, numCodes[..], next, i);
      total := (total + numCodes[i]) * 2;
      nextCode[i + 1] := total;
      assert nextCode[..] == next[i + 1 := total];
      i := i + 1;
    }
    LastCode(lens, nextCode[..]);
  }

  lemma LastCode(lens: seq<nat>, next: seq<nat>)
    requires FirstCodes(lens, next, 16)
    ensures next[16] == NextCode(lens, 16)
  {
    hide NextCode;
  }

  /** Is there exactly one code word? Read from the longest length down, as long as at most one is seen. */
  method OneWord(lens: seq<nat>, numCodes: array<nat>) returns (one: bool)
    requires Bounded(lens, 15)
    requires numCodes.Length == 16 && LengthCounts(lens, numCodes[..])
    ensures one <==> Longer(lens, 0) == 1
  {
    var j: nat, i: nat := 0, 15;
    NoneLonger(lens, 15);
    while i != 0
      invariant i <= 15 && j == Longer(lens, i)
    {
      LongerStep(lens, i);
      j := j + numCodes[i];
      i := i - 1;
      if j > 1 {
        LongerMonotone(lens, i);
        return false;
      }
    }
    return j == 1;
  }

  /** The canonical code of every used symbol, counting up within each length. */
  method NumberCodes(lens: seq<nat>, nextCode: array<nat>) returns (codes: seq<nat>)
    requires Bounded(lens, 15) && nextCode.Length == 17 && FirstCodes(lens, nextCode[..], 16)
    modifies nextCode
    ensures |codes| == |lens| && forall s :: 0 <= s < |lens| && lens[s] > 0 ==> codes[s] == Code(lens, s)
  {
    codes := [];
    var i: nat := 0;
    while i < |lens|
      invariant i <= |lens| && |codes| == i && Numbered(lens, i, nextCode[..], 15)
      invariant forall s :: 0 <= s < i && lens[s] > 0 ==> codes[s] == Code(lens, s)
    {
      ghost var before := nextCode[..];
      NumberOne(lens, i, before, 15);
      codes := codes + [nextCode[lens[i]]];
      nextCode[lens[i]] := nextCode[lens[i]] + 1;
      assert nextCode[..] == before[lens[i] := before[lens[i]] + 1];
      i := i + 1;
    }
  }

  /** The windows that start with symbol i's codeword are those with its reversed code in the low bits. */
  lemma WindowSends(lens: seq<nat>, i: nat, rev: nat, x: nat)
    requires i < |lens| && 0 < lens[i] <= TABLE_BITS
    requires rev < Pow2(lens[i]) && ToBits(rev, lens[i]) == Codeword(lens, i)
    ensures Sends(lens, i, ToBits(x, TABLE_BITS)) <==> x % Pow2(lens[i]) == rev
  {
    hide Codeword, ToBits, Pow2, FromBits;
    var l, w := lens[i], ToBits(x, TABLE_BITS);
    ToBitsTake(x, TABLE_BITS, l);
    FromToBits(x, l);
    FromToBitsFits(rev, l);
    ToBitsMod(x, l);
    assert Codeword(lens, i) <= w <==> w[..l] == Codeword(lens, i);
  }

  lemma Sandwich(q: nat, k: nat, j: nat)
    ensures q * j <= k * j || q * j >= k * j + j
  {
    if q <= k {
      MulMonotone(q, k, j);
    } else {
      MulMonotone(k + 1, q, j);
    }
  }

  lemma NotBetween(rev: nat, k: nat, j: nat, x: nat)
    requires rev < j && k * j + rev < x < k * j + rev + j
    ensures x % j != rev
  {
    if x % j == rev {
      var q := x / j;
      assert x == q * j + rev;
      Sandwich(q, k, j);
    }
  }

  /** Slots below cur know about symbol i already, the others only about earlier symbols. */
  ghost predicate Filling(lens: seq<nat>, i: nat, table: seq<Entry>, cur: nat) {
    && |table| == TABLE_SIZE
    && forall x :: 0 <= x < TABLE_SIZE ==>
         Slot(lens, if x < cur then i + 1 else i, x, table[x]) && table[x].len2 == 0
  }

  lemma SlotSkipped(lens: seq<nat>, i: nat, x: nat, e: Entry)
    requires Slot(lens, i, x, e) && !Sends(lens, i, ToBits(x, TABLE_BITS))
    ensures Slot(lens, i + 1, x, e)
  {
  }

  lemma SmallMod(x: nat, m: nat)
    requires x < m
    ensures x % m == x
  {
  }

  lemma FillFirst(lens: seq<nat>, i: nat, table: seq<Entry>, rev: nat)
    requires Filling(lens, i, table, 0)
    requires i < |lens| && 0 < lens[i] <= TABLE_BITS
    requires rev < Pow2(lens[i]) && ToBits(rev, lens[i]) == Codeword(lens, i)
    ensures Filling(lens, i, table, rev)
  {
    hide Slot, Sends, Pow2, ToBits, Codeword;
    forall x: nat | x < TABLE_SIZE && x < rev
      ensures Slot(lens, i + 1, x, table[x])
    {
      assert Slot(lens, i, x, table[x]);
      WindowSends(lens, i, rev, x);
      SmallMod(x, Pow2(lens[i]));
      SlotSkipped(lens, i, x, table[x]);
    }
  }

  lemma FillNext(lens: seq<nat>, i: nat, table: seq<Entry>, rev: nat, k: nat)
    requires i < |lens| && 0 < lens[i] <= TABLE_BITS
    requires rev < Pow2(lens[i]) && ToBits(rev, lens[i]) == Codeword(lens, i)
    requires k * Pow2(lens[i]) + rev < TABLE_SIZE && Filling(lens, i, table, k * Pow2(lens[i]) + rev)
    ensures Filling(lens, i, table[k * Pow2(lens[i]) + rev := Entry(i, lens[i], 0, 0)], (k + 1) * Pow2(lens[i]) + rev)
  {
    hide Slot, Sends, Pow2, ToBits, Codeword;
    var j := Pow2(lens[i]);
    var cur := k * j + rev;
    assert (k + 1) * j + rev == cur + j;
    var filled := table[cur := Entry(i, lens[i], 0, 0)];
    forall x: nat | cur <= x < TABLE_SIZE && x < cur + j
      ensures Slot(lens, i + 1, x, filled[x])
    {
      assert Slot(lens, i, x, table[x]);
      WindowSends(lens, i, rev, x);
      if x == cur {
        DivModUnique(cur, j, k, rev);
        SlotTaken(lens, i, x);
      } else {
        NotBetween(rev, k, j, x);
        SlotSkipped(lens, i, x, table[x]);
      }
    }
  }

  lemma SlotTaken(lens: seq<nat>, i: nat, x: nat)
    requires Sends(lens, i, ToBits(x, TABLE_BITS))
    ensures Slot(lens, i + 1, x, Entry(i, lens[i], 0, 0))
  {
  }

  /** One symbol's slots: every window that starts with its codeword. */
  method FillSlots(lens: seq<nat>, i: nat, code: nat, table: array<Entry>)
    requires i < |lens| && 0 < lens[i] <= TABLE_BITS && code == Code(lens, i)
    requires Filling(lens, i, table[..], 0)
    modifies table
    ensures Filling(lens, i + 1, table[..], 0)
  {
    var rev := ReverseCode(code, lens[i]);
    FillFirst(lens, i, table[..], rev);
    ghost var k: nat := 0;
    hide Filling, Pow2;
    var newCode := rev;
    assert newCode == k * Pow2(lens[i]) + rev;
    while newCode < table.Length
      invariant table.Length == TABLE_SIZE && newCode == k * Pow2(lens[i]) + rev
      invariant Filling(lens, i, table[..], newCode)
    {
      FillNext(lens, i, table[..], rev, k);
      ghost var before := table[..];
      table[newCode] := Entry(i, lens[i], 0, 0);
      assert table[..] == before[newCode := Entry(i, lens[i], 0, 0)];
      assert (k + 1) * Pow2(lens[i]) == k * Pow2(lens[i]) + Pow2(lens[i]);
      newCode := newCode + Pow2(lens[i]);
      k := k + 1;
    }
    FillDone(lens, i, table[..], newCode);
  }

  lemma FillDone(lens: seq<nat>, i: nat, table: seq<Entry>, cur: nat)
    requires Filling(lens, i, table, cur) && cur >= TABLE_SIZE
    ensures Filling(lens, i + 1, table, 0)
  {
  }

  lemma FillUnused(lens: seq<nat>, i: nat, table: seq<Entry>)
    requires Filling(lens, i, table, 0) && i < |lens| && lens[i] == 0
    ensures Filling(lens, i + 1, table, 0)
  {
  }

  method BuildDecoderTable(lens: seq<nat>) returns (ok: bool, table: array<Entry>)
    requires Bounded(lens, TABLE_BITS)
    ensures ok <==> Accepted(lens)
    ensures fresh(table) && (ok ==> Single(lens, table[..]))
  {
    table := new Entry[TABLE_SIZE](_ => EMPTY);
    var numCodes := CountCodes(lens);
    var nextCode, total := FirstOfLength(lens, numCodes);
    hide Kraft, Longer, Pow2, Code, Sends;
    Pow2Values();
    if total != 0x10000 {
      var one := OneWord(lens, numCodes);
      if !one {
        return false, table;
      }
    }
    var codes := NumberCodes(lens, nextCode);
    var i: nat := 0;
    assert Filling(lens, 0, table[..], 0);
    hide Filling, Single;
    while i < |lens|
      invariant i <= |lens| && Filling(lens, i, table[..], 0)
    {
      if lens[i] != 0 {
        FillSlots(lens, i, codes[i], table);
      } else {
        FillUnused(lens, i, table[..]);
      }
      i := i + 1;
    }
    FilledSingle(lens, table[..]);
    return true, table;
  }

  lemma FilledSingle(lens: seq<nat>, table: seq<Entry>)
    requires Filling(lens, |lens|, table, 0)
    ensures Single(lens, table)
  {
  }

  // ---- Adding the next symbol where it fits.

  /** The window left after the first symbol, looked up as if zero bits followed it. */
  lemma NextWindow(lens: seq<nat>, x: nat, e: Entry, next: Entry)
    requires Slot(lens, |lens|, x, e) && 0 < e.len <= TABLE_BITS && e.sym < 256
    requires Slot(lens, |lens|, Shr(x, e.len), next) && 0 < next.len <= TABLE_BITS - e.len
    ensures Pair(lens, x, e.(sym2 := next.sym, len2 := next.len))
  {
    hide ToBits, Codeword;
    var y := Shr(x, e.len);
    ToBitsDrop(x, TABLE_BITS, e.len);
    ToBitsTake(y, TABLE_BITS, TABLE_BITS - e.len);
    SendsFurther(lens, next.sym, ToBits(y, TABLE_BITS - e.len), ToBits(y, TABLE_BITS));
  }

  /** First symbols never change while second ones are added. */
  ghost predicate Packing(lens: seq<nat>, table: seq<Entry>, i: nat) {
    && |table| == TABLE_SIZE
    && forall x :: 0 <= x < TABLE_SIZE ==> Slot(lens, |lens|, x, table[x]) && (x < i ==> Pair(lens, x, table[x])) && (x >= i ==> table[x].len2 == 0)
  }

  lemma {:induction false} ShrBelow(x: nat, k: nat)
    ensures Shr(x, k) <= x
    decreases k
  {
    if k > 0 {
      ShrBelow(x / 2, k - 1);
    }
  }

  lemma PackOne(lens: seq<nat>, table: seq<Entry>, i: nat, e: Entry)
    requires Packing(lens, table, i) && i < TABLE_SIZE && Pair(lens, i, e)
    ensures Packing(lens, table[i := e], i + 1)
  {
  }

  /** What slot i becomes: minCodeSize is a lower bound on what could still follow. */
  function WithNext(table: seq<Entry>, i: nat, minCodeSize: nat): Entry
    requires |table| == TABLE_SIZE && i < TABLE_SIZE
  {
    var e := table[i];
    if e.sym >= 256 || e.len == 0 || e.len > TABLE_BITS || TABLE_BITS - e.len < minCodeSize then e
    else
      var nextBits := (ShrBelow(i, e.len); Shr(i, e.len));
      var next := table[nextBits];
      if next.len == 0 || TABLE_BITS - e.len < next.len then e
      else e.(sym2 := next.sym, len2 := next.len)
  }

  /** minCodeSize is no longer than any code in use. */
  ghost predicate AtLeast(lens: seq<nat>, minCodeSize: nat) {
    forall s :: 0 <= s < |lens| && lens[s] > 0 ==> lens[s] >= minCodeSize
  }

  lemma NextPairs(lens: seq<nat>, table: seq<Entry>, i: nat, minCodeSize: nat)
    requires Packing(lens, table, i) && i < TABLE_SIZE
    requires Decodable(lens, 15) && Bounded(lens, TABLE_BITS) && AtLeast(lens, minCodeSize)
    ensures Pair(lens, i, WithNext(table, i, minCodeSize))
  {
    var e := table[i];
    assert e.len <= TABLE_BITS;
    hide Slot, Pair, NoSymbol, AtLeast, Decodable;
    var r := WithNext(table, i, minCodeSize);
    var nextBits := Shr(i, e.len);
    ShrBelow(i, e.len);
    var next := table[nextBits];
    if e.len == 0 || e.sym >= 256 {
      NotLiteral(lens, i, e);
    } else if TABLE_BITS - e.len < minCodeSize {
      TooShort(lens, ToBits(i, TABLE_BITS), e.len, minCodeSize);
      NoNext(lens, i, e);
    } else if next.len == 0 || TABLE_BITS - e.len < next.len {
      NotThere(lens, i, e.len, next);
      NoNext(lens, i, e);
    } else {
      NextWindow(lens, i, e, next);
    }
  }

  lemma NotLiteral(lens: seq<nat>, i: nat, e: Entry)
    requires Slot(lens, |lens|, i, e) && e.len2 == 0 && (e.len == 0 || e.sym >= 256)
    ensures Pair(lens, i, e)
  {
  }

  lemma NoNext(lens: seq<nat>, i: nat, e: Entry)
    requires Slot(lens, |lens|, i, e) && e.len2 == 0 && NoSymbol(lens, ToBits(i, TABLE_BITS), e.len)
    ensures Pair(lens, i, e)
  {
  }

  lemma TooShort(lens: seq<nat>, w: seq<bool>, k: nat, minCodeSize: nat)
    requires k <= |w| && |w| - k < minCodeSize && AtLeast(lens, minCodeSize)
    ensures NoSymbol(lens, w, k)
  {
  }

  /** What does not show in the rest of the window is not in it. */
  lemma NotThere(lens: seq<nat>, x: nat, k: nat, next: Entry)
    requires Decodable(lens, 15) && k <= TABLE_BITS && Slot(lens, |lens|, Shr(x, k), next)
    requires next.len == 0 || TABLE_BITS - k < next.len
    ensures NoSymbol(lens, ToBits(x, TABLE_BITS), k)
  {
    var y := Shr(x, k);
    ToBitsDrop(x, TABLE_BITS, k);
    ToBitsTake(y, TABLE_BITS, TABLE_BITS - k);
    hide ToBits, Codeword, Decodable;
    var a, b := ToBits(y, TABLE_BITS - k), ToBits(y, TABLE_BITS);
    forall s | 0 <= s < |lens|
      ensures !Sends(lens, s, a)
    {
      SendsFurther(lens, s, a, b);
      if Sends(lens, s, a) && next.len > 0 {
        SendsUnique(lens, 15, s, next.sym, b);
      }
    }
  }

  method PackTable(ghost lens: seq<nat>, table: array<Entry>, minCodeSize: nat)
    requires Single(lens, table[..])
    requires Decodable(lens, 15) && Bounded(lens, TABLE_BITS) && AtLeast(lens, minCodeSize)
    modifies table
    ensures Packed(lens, table[..])
  {
    var i: nat := 0;
    assert Packing(lens, table[..], 0);
    hide Packing, Packed, Single, WithNext, Decodable, Bounded, AtLeast;
    while i < TABLE_SIZE
      invariant i <= TABLE_SIZE == table.Length && Packing(lens, table[..], i)
    {
      NextPairs(lens, table[..], i, minCodeSize);
      ghost var before := table[..];
      PackOne(lens, before, i, WithNext(before, i, minCodeSize));
      table[i] := WithNext(table[..], i, minCodeSize);
      assert table[..] == before[i := WithNext(before, i, minCodeSize)];
      i := i + 1;
    }
    PackedAll(lens, table[..]);
  }

  lemma PackedAll(lens: seq<nat>, table: seq<Entry>)
    requires Packing(lens, table, TABLE_SIZE)
    ensures Packed(lens, table)
  {
  }
}
