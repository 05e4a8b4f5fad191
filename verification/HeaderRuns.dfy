/** The run-length coding of code lengths in a dynamic block header: how fpng packs them
    (libs/fpng/fpng.cpp:711-729, 756-785) and why the reader of section 3.2.7 of RFC 1951 gets
    them back. */
module HeaderRuns {
  import opened Bits
  import opened Canonical
  import opened Wrappers
  import Inflate

  /** One symbol of the code length alphabet with the value of its extra bits. */
  datatype Item = Item(code: nat, extra: nat)

  function ExtraBits(code: nat): nat {
    if code == 16 then 2 else if code == 17 then 3 else if code == 18 then 7 else 0
  }

  /** What an item adds to the lengths read so far. */
  function Expand(acc: seq<nat>, x: Item): (r: seq<nat>)
    ensures |r| >= |acc|
  {
    if x.code < 16 then acc + [x.code]
    else if x.code == 16 then if acc == [] then acc else acc + Inflate.Repeat(acc[|acc| - 1], 3 + x.extra)
    else if x.code == 17 then acc + Inflate.Repeat(0, 3 + x.extra)
    else acc + Inflate.Repeat(0, 11 + x.extra)
  }

  ghost predicate ValidItem(acc: seq<nat>, x: Item) {
    x.code <= 18 && x.extra < Pow2(ExtraBits(x.code)) && (x.code == 16 ==> acc != [])
  }

  function Unpack(acc: seq<nat>, items: seq<Item>): (r: seq<nat>)
    ensures |r| >= |acc|
    decreases |items|
  {
    if items == [] then acc else Unpack(Expand(acc, items[0]), items[1..])
  }

  ghost predicate Valid(acc: seq<nat>, items: seq<Item>)
    decreases |items|
  {
    items == [] || (ValidItem(acc, items[0]) && Valid(Expand(acc, items[0]), items[1..]))
  }

  lemma {:induction false} UnpackSnoc(acc: seq<nat>, items: seq<Item>, x: Item)
    ensures Unpack(acc, items + [x]) == Expand(Unpack(acc, items), x)
    ensures Valid(acc, items) && ValidItem(Unpack(acc, items), x) ==> Valid(acc, items + [x])
    decreases |items|
  {
    if items == [] {
      assert [] + [x] == [x] && [x][1..] == [];
    } else {
      UnpackSnoc(Expand(acc, items[0]), items[1..], x);
      assert (items + [x])[0] == items[0] && (items + [x])[1..] == items[1..] + [x];
    }
  }

  /** The bits of the items in the code with lengths cl. */
  function ItemBits(cl: seq<nat>, items: seq<Item>): seq<bool>
    requires forall i :: 0 <= i < |items| ==> items[i].code < |cl|
  {
    if items == [] then []
    else Codeword(cl, items[0].code) + ToBits(items[0].extra, ExtraBits(items[0].code)) + ItemBits(cl, items[1..])
  }

  ghost predicate Coded(cl: seq<nat>, items: seq<Item>) {
    forall i :: 0 <= i < |items| ==> items[i].code < |cl| && cl[items[i].code] > 0
  }

  lemma {:induction false} ItemBitsSnoc(cl: seq<nat>, items: seq<Item>, x: Item)
    requires forall i :: 0 <= i < |items| ==> items[i].code < |cl|
    requires x.code < |cl|
    ensures ItemBits(cl, items + [x]) == ItemBits(cl, items) + Codeword(cl, x.code) + ToBits(x.extra, ExtraBits(x.code))
  {
    if items == [] {
      assert [] + [x] == [x] && [x][1..] == [];
      assert ItemBits(cl, []) == [];
    } else {
      ItemBitsSnoc(cl, items[1..], x);
      hide Codeword, ToBits;
      assert (items + [x])[0] == items[0] && (items + [x])[1..] == items[1..] + [x];
      var y := items[0];
      Assoc(Codeword(cl, y.code) + ToBits(y.extra, ExtraBits(y.code)), ItemBits(cl, items[1..]) + Codeword(cl, x.code), ToBits(x.extra, ExtraBits(x.code)));
      Assoc(Codeword(cl, y.code) + ToBits(y.extra, ExtraBits(y.code)), ItemBits(cl, items[1..]), Codeword(cl, x.code));
    }
  }

  lemma ReadSent(bits: seq<bool>, v: nat, n: nat, rest: seq<bool>)
    requires bits == ToBits(v, n) + rest && v < Pow2(n)
    ensures Inflate.ReadBits(bits, n) == Some(Inflate.Read(v, rest))
  {
    assert bits[..n] == ToBits(v, n) && bits[n..] == rest;
    FromToBitsFits(v, n);
  }

  lemma ReadSymSent(cl: seq<nat>, m: nat, s: nat, bits: seq<bool>, rest: seq<bool>)
    requires Decodable(cl, m) && s < |cl| && cl[s] > 0 && bits == Codeword(cl, s) + rest
    ensures Inflate.ReadSym(cl, bits) == Some(Inflate.Read(s, rest))
  {
    DecodeSent(cl, m, s, rest);
    assert bits[cl[s]..] == rest;
  }

  /** Reading one item's bits expands it and leaves what follows. */
  lemma ReadItem(cl: seq<nat>, m: nat, n: nat, x: Item, tail: seq<bool>, acc: seq<nat>)
    requires Decodable(cl, m) && x.code < |cl| && cl[x.code] > 0
    requires ValidItem(acc, x) && |acc| < n
    ensures Inflate.ReadLens(cl, n, Codeword(cl, x.code) + ToBits(x.extra, ExtraBits(x.code)) + tail, acc)
         == Inflate.ReadLens(cl, n, tail, Expand(acc, x))
  {
    var e := ToBits(x.extra, ExtraBits(x.code));
    var bits := Codeword(cl, x.code) + e + tail;
    assert bits == Codeword(cl, x.code) + (e + tail);
    ReadSymSent(cl, m, x.code, bits, e + tail);
    ReadSent(e + tail, x.extra, ExtraBits(x.code), tail);
    assert x.code < 16 ==> e + tail == tail;
  }

  lemma FirstItem(cl: seq<nat>, acc: seq<nat>, items: seq<Item>, rest: seq<bool>)
    requires items != [] && Coded(cl, items) && Valid(acc, items)
    ensures var x := items[0];
      && x.code < |cl| && cl[x.code] > 0 && ValidItem(acc, x) && Valid(Expand(acc, x), items[1..]) && Coded(cl, items[1..])
      && |Expand(acc, x)| > |acc| && Unpack(acc, items) == Unpack(Expand(acc, x), items[1..])
      && ItemBits(cl, items) + rest
         == Codeword(cl, x.code) + ToBits(x.extra, ExtraBits(x.code)) + (ItemBits(cl, items[1..]) + rest)
  {
    hide Codeword, ToBits;
    var x := items[0];
    Assoc(Codeword(cl, x.code) + ToBits(x.extra, ExtraBits(x.code)), ItemBits(cl, items[1..]), rest);
  }

  lemma NoItems(cl: seq<nat>, n: nat, rest: seq<bool>, acc: seq<nat>)
    requires |acc| == n
    ensures Inflate.ReadLens(cl, n, ItemBits(cl, []) + rest, acc) == Some(Inflate.Read(Unpack(acc, []), rest))
  {
    assert ItemBits(cl, []) + rest == rest;
  }

  /** Reading the bits of all items gives back the lengths they stand for. */
  lemma {:induction false} ReadItems(cl: seq<nat>, m: nat, n: nat, items: seq<Item>, rest: seq<bool>, acc: seq<nat>)
    requires Decodable(cl, m) && Coded(cl, items) && Valid(acc, items) && |Unpack(acc, items)| == n
    ensures Inflate.ReadLens(cl, n, ItemBits(cl, items) + rest, acc)
         == Some(Inflate.Read(Unpack(acc, items), rest))
    decreases |items|
  {
    hide Inflate.ReadLens, ItemBits, Codeword, ToBits, Decodable, Valid, ValidItem, Expand;
    if items == [] {
      assert Unpack(acc, []) == acc;
      NoItems(cl, n, rest, acc);
    } else {
      FirstItem(cl, acc, items, rest);
      hide Unpack;
      ReadItem(cl, m, n, items[0], ItemBits(cl, items[1..]) + rest, acc);
      ReadItems(cl, m, n, items[1..], rest, Expand(acc, items[0]));
    }
  }

  // ---- Packing.

  /** How often each symbol of the code length alphabet occurs. */
  ghost function Occurs(items: seq<Item>, c: nat): nat {
    if items == [] then 0
    else Occurs(items[..|items| - 1], c) + if items[|items| - 1].code == c then 1 else 0
  }

  ghost predicate Counted(items: seq<Item>, count: seq<nat>) {
    && |count| == 19
    && (forall i :: 0 <= i < |items| ==> items[i].code <= 18)
    && (forall c :: 0 <= c <= 18 ==> count[c] == Occurs(items, c))
  }

  /** The bytes an item takes in packed_code_sizes. */
  function Size(items: seq<Item>): nat {
    if items == [] then 0
    else Size(items[..|items| - 1]) + if items[|items| - 1].code >= 16 then 2 else 1
  }

  lemma CountedSnoc(items: seq<Item>, count: seq<nat>, x: Item)
    requires Counted(items, count) && x.code <= 18
    ensures Counted(items + [x], count[x.code := count[x.code] + 1])
    ensures Size(items + [x]) == Size(items) + if x.code >= 16 then 2 else 1
  {
    assert (items + [x])[..|items|] == items;
  }

  /** An item that can be read after the items so far extends what they stand for. */
  lemma AppendItem(items: seq<Item>, count: seq<nat>, x: Item)
    requires Valid([], items) && Counted(items, count) && ValidItem(Unpack([], items), x)
    ensures Valid([], items + [x]) && Counted(items + [x], count[x.code := count[x.code] + 1])
    ensures Unpack([], items + [x]) == Expand(Unpack([], items), x)
    ensures Size(items + [x]) == Size(items) + if x.code >= 16 then 2 else 1
  {
    UnpackSnoc([], items, x);
    CountedSnoc(items, count, x);
  }

  class Packer {
    var items: seq<Item>
    var count: seq<nat>

    ghost predicate Ok()
      reads this
    {
      Valid([], items) && Counted(items, count) && Size(items) <= |Unpack([], items)|
    }

    constructor ()
      ensures Ok() && items == [] && Unpack([], items) == []
    {
      items := [];
      count := Zeros(19);
    }

    method Put(x: Item)
      requires Ok() && ValidItem(Unpack([], items), x)
      modifies this
      ensures items == old(items) + [x]
      ensures Ok() && Unpack([], items) == Expand(old(Unpack([], items)), x)
    {
      AppendItem(items, count, x);
      count := count[x.code := count[x.code] + 1];
      items := items + [x];
    }

    /** The same length n times, as it is. */
    method PutPlain(v: nat, n: nat)
      requires Ok() && v < 16
      modifies this
      ensures Ok() && Unpack([], items) == old(Unpack([], items)) + Inflate.Repeat(v, n)
      ensures items == old(items) + Plain(v, n)
    {
      var k := n;
      while k > 0
        invariant 0 <= k <= n && Ok()
        invariant Unpack([], items) == old(Unpack([], items)) + Inflate.Repeat(v, n - k)
        invariant items == old(items) + Plain(v, n - k)
      {
        ghost var u := Unpack([], items);
        Put(Item(v, 0));
        RepeatSnoc(v, n - k);
        k := k - 1;
      }
    }

    /** DEFL_RLE_PREV_CODE_SIZE */
    method FlushRepeats(prev: nat, rep: nat)
      requires Ok() && prev < 16 && rep <= 6
      requires rep > 0 ==> Unpack([], items) != [] && Unpack([], items)[|Unpack([], items)| - 1] == prev
      modifies this
      ensures Ok() && Unpack([], items) == old(Unpack([], items)) + Inflate.Repeat(prev, rep)
      ensures items == old(items) + RepeatItems(prev, rep)
    {
      if rep < 3 {
        PutPlain(prev, rep);
      } else {
        Put(Item(16, rep - 3));
      }
    }

    /** DEFL_RLE_ZERO_CODE_SIZE */
    method FlushZeros(z: nat)
      requires Ok() && z <= 138
      modifies this
      ensures Ok() && Unpack([], items) == old(Unpack([], items)) + Inflate.Repeat(0, z)
      ensures items == old(items) + ZeroItems(z)
    {
      Pow2Values();
      if z < 3 {
        PutPlain(0, z);
      } else if z <= 10 {
        Put(Item(17, z - 3));
      } else {
        Put(Item(18, z - 11));
      }
    }
  }

  lemma RepeatSnoc(v: nat, n: nat)
    ensures Inflate.Repeat(v, n + 1) == Inflate.Repeat(v, n) + [v]
  {
  }

  // ---- Which items: the lengths cut into runs.

  /** A length n times, as it is. */
  function Plain(v: nat, n: nat): (s: seq<Item>)
    ensures |s| == n
  {
    seq(n, _ => Item(v, 0))
  }

  /** n zeros: one or two as they are, more in as few items as can be. */
  function ZeroItems(n: nat): seq<Item> {
    if n < 3 then Plain(0, n)
    else if n <= 10 then [Item(17, n - 3)]
    else if n <= 138 then [Item(18, n - 11)]
    else [Item(18, 127)] + ZeroItems(n - 138)
  }

  /** n more of a length. */
  function RepeatItems(v: nat, n: nat): seq<Item> {
    if n < 3 then Plain(v, n)
    else if n <= 6 then [Item(16, n - 3)]
    else [Item(16, 3)] + RepeatItems(v, n - 6)
  }

  /** How often v stands in front. */
  function Lead(s: seq<nat>, v: nat): (n: nat)
    ensures n <= |s|
  {
    if s == [] || s[0] != v then 0 else 1 + Lead(s[1..], v)
  }

  /** Run by run: zeros, or a length once and then repeated. */
  function ItemsOf(s: seq<nat>): seq<Item>
    decreases |s|
  {
    if s == [] then []
    else
      var v, n := s[0], Lead(s, s[0]);
      assert n == 1 + Lead(s[1..], v);
      (if v == 0 then ZeroItems(n) else [Item(v, 0)] + RepeatItems(v, n - 1)) + ItemsOf(s[n..])
  }

  /** What is still to be put when s is still to be read. */
  function Owed(s: seq<nat>, z: nat, rep: nat, prev: nat): seq<Item> {
    if prev >= 16 then ItemsOf(s)
    else (if prev == 0 then ZeroItems(z + Lead(s, 0)) else RepeatItems(prev, rep + Lead(s, prev))) + ItemsOf(s[Lead(s, prev)..])
  }

  /** A run that goes on. */
  lemma OwedSame(s: seq<nat>, z: nat, rep: nat)
    requires s != [] && s[0] < 16
    ensures s[0] == 0 ==> Owed(s, z, rep, 0) == Owed(s[1..], z + 1, rep, 0)
    ensures s[0] > 0 ==> Owed(s, z, rep, s[0]) == Owed(s[1..], z, rep + 1, s[0])
  {
    hide ItemsOf, ZeroItems, RepeatItems;
    assert s[1..][Lead(s[1..], s[0])..] == s[Lead(s, s[0])..];
  }

  /** A run that is over. */
  lemma OwedNew(s: seq<nat>, z: nat, rep: nat, prev: nat)
    requires s == [] || s[0] != prev
    ensures Owed(s, z, rep, prev) == (if prev >= 16 then [] else if prev == 0 then ZeroItems(z) else RepeatItems(prev, rep)) + ItemsOf(s)
  {
    hide ItemsOf, ZeroItems, RepeatItems;
    assert s[0..] == s && [] + ItemsOf(s) == ItemsOf(s);
  }

  /** A run that begins. */
  lemma OwedFirst(s: seq<nat>)
    requires s != [] && s[0] < 16
    ensures ItemsOf(s) == if s[0] == 0 then Owed(s[1..], 1, 0, 0) else [Item(s[0], 0)] + Owed(s[1..], 0, 0, s[0])
  {
    var v := s[0];
    assert s[1..][Lead(s[1..], v)..] == s[Lead(s, v)..];
    if v > 0 {
      Assoc([Item(v, 0)], RepeatItems(v, Lead(s, v) - 1), ItemsOf(s[Lead(s, v)..]));
    }
  }

  /** A full run is put at once. */
  lemma OwedFull(s: seq<nat>, prev: nat)
    requires prev < 16
    ensures prev == 0 ==> Owed(s, 138, 0, 0) == ZeroItems(138) + Owed(s, 0, 0, 0)
    ensures prev > 0 ==> Owed(s, 0, 6, prev) == RepeatItems(prev, 6) + Owed(s, 0, 0, prev)
  {
    var n, rest := Lead(s, prev), ItemsOf(s[Lead(s, prev)..]);
    if prev == 0 {
      assert ZeroItems(138 + n) == ZeroItems(138) + ZeroItems(n);
      Assoc(ZeroItems(138), ZeroItems(n), rest);
    } else {
      assert RepeatItems(prev, 6 + n) == RepeatItems(prev, 6) + RepeatItems(prev, n);
      Assoc(RepeatItems(prev, 6), RepeatItems(prev, n), rest);
    }
  }

  lemma NothingOwed()
    ensures ItemsOf([]) == [] && ZeroItems(0) == []
    ensures forall v :: RepeatItems(v, 0) == []
  {
  }

  /** The lengths read so far, the items given out for them, and what is pending: z zeros or rep
      repeats of the last length. */
  ghost predicate Pending(u: seq<nat>, done: seq<nat>, z: nat, rep: nat, prev: nat) {
    && z <= 138 && rep <= 6 && (z == 0 || rep == 0)
    && prev == (if done == [] then 0xFF else done[|done| - 1])
    && u + Inflate.Repeat(0, z) + Inflate.Repeat(prev, rep) == done
    && (rep > 0 ==> 0 < prev < 16)
    && (done != [] && prev > 0 ==> z == 0 && u != [] && u[|u| - 1] == prev)
  }

  lemma FlushedRepeats(u: seq<nat>, done: seq<nat>, rep: nat, prev: nat)
    requires Pending(u, done, 0, rep, prev)
    ensures Pending(u + Inflate.Repeat(prev, rep), done, 0, 0, prev)
  {
  }

  lemma FlushedZeros(u: seq<nat>, done: seq<nat>, z: nat, prev: nat)
    requires Pending(u, done, z, 0, prev)
    ensures Pending(u + Inflate.Repeat(0, z), done, 0, 0, prev)
    ensures u + Inflate.Repeat(0, z) == done
  {
  }

  lemma AddZero(u: seq<nat>, done: seq<nat>, z: nat, prev: nat)
    requires Pending(u, done, z, 0, prev) && z < 138
    ensures Pending(u, done + [0], z + 1, 0, 0)
  {
    RepeatSnoc(0, z);
  }

  lemma AddNew(u: seq<nat>, done: seq<nat>, prev: nat, size: nat)
    requires Pending(u, done, 0, 0, prev) && size > 0
    ensures Pending(u + [size], done + [size], 0, 0, size)
  {
  }

  lemma AddRepeat(u: seq<nat>, done: seq<nat>, rep: nat, prev: nat)
    requires Pending(u, done, 0, rep, prev) && done != [] && 0 < prev < 16 && rep < 6
    ensures Pending(u, done + [prev], 0, rep + 1, prev)
  {
    RepeatSnoc(prev, rep);
  }

  lemma LastGiven(u: seq<nat>, done: seq<nat>, z: nat, rep: nat, prev: nat)
    requires Pending(u, done, z, rep, prev)
    ensures rep > 0 ==> z == 0 && 0 < prev < 16 && u != [] && u[|u| - 1] == prev && u + Inflate.Repeat(prev, rep) == done
    ensures z > 0 ==> rep == 0
    ensures (0 < prev < 16 ==> done != []) && (prev > 0 ==> z == 0)
    ensures z <= 138 && rep <= 6
  {
    assert done == [] ==> |Inflate.Repeat(0, z)| == 0;
  }

  method PackLengths(lens: seq<nat>) returns (items: seq<Item>, count: seq<nat>)
    requires forall i :: 0 <= i < |lens| ==> lens[i] < 16
    ensures Valid([], items) && Unpack([], items) == lens
    ensures Counted(items, count) && Size(items) <= |lens|
    ensures items == ItemsOf(lens)
  {
    hide Unpack, Valid, Counted, Size, Packer.Ok, Pending, Owed, ItemsOf;
    var p := new Packer();
    var z: nat, rep: nat, prev: nat := 0, 0, 0xFF;
    var i := 0;
    NothingPending(Unpack([], p.items), lens);
    FirstOwed(lens);
    while i < |lens|
      invariant 0 <= i <= |lens| && p.Ok() && fresh(p) && z < 138 && rep < 6
      invariant Pending(Unpack([], p.items), lens[..i], z, rep, prev)
      invariant p.items + Owed(lens[i..], z, rep, prev) == ItemsOf(lens)
    {
      z, rep := PackOne(p, lens[..i], lens[i..], z, rep, prev);
      assert lens[..i + 1] == lens[..i] + [lens[i]];
      assert lens[i..][1..] == lens[i + 1..];
      prev := lens[i];
      i := i + 1;
    }
    assert lens[..i] == lens && lens[i..] == [];
    FlushLast(p, lens, z, rep, prev);
    OkMeans(p);
    items, count := p.items, p.count;
  }

  lemma FirstOwed(lens: seq<nat>)
    ensures [] + Owed(lens[0..], 0, 0, 0xFF) == ItemsOf(lens)
  {
    assert lens[0..] == lens;
  }

  lemma NothingPending(u: seq<nat>, lens: seq<nat>)
    requires u == []
    ensures Pending(u, lens[..0], 0, 0, 0xFF)
  {
  }

  /** What is still counted when the lengths end. */
  method FlushLast(p: Packer, ghost lens: seq<nat>, z: nat, rep: nat, prev: nat)
    requires p.Ok() && Pending(Unpack([], p.items), lens, z, rep, prev)
    modifies p
    ensures p.Ok() && Unpack([], p.items) == lens
    ensures p.items == old(p.items) + Owed([], z, rep, prev)
  {
    OwedNew([], z, rep, prev);
    NothingOwed();
    hide Unpack, Valid, Counted, Size, Packer.Ok, Pending, Owed, ItemsOf, ZeroItems, RepeatItems;
    LastGiven(Unpack([], p.items), lens, z, rep, prev);
    if rep > 0 {
      p.FlushRepeats(prev, rep);
    } else {
      FlushedZeros(Unpack([], p.items), lens, z, prev);
      p.FlushZeros(z);
    }
  }

  lemma OkMeans(p: Packer)
    requires p.Ok()
    ensures Valid([], p.items) && Counted(p.items, p.count) && Size(p.items) <= |Unpack([], p.items)|
  {
  }

  /** One round of the loop over the lengths. */
  method PackOne(p: Packer, ghost done: seq<nat>, left: seq<nat>, z0: nat, rep0: nat, prev: nat)
    returns (z: nat, rep: nat)
    requires left != [] && p.Ok() && left[0] < 16 && Pending(Unpack([], p.items), done, z0, rep0, prev)
    requires z0 < 138 && rep0 < 6
    modifies p
    ensures p.Ok() && Pending(Unpack([], p.items), done + [left[0]], z, rep, left[0])
    ensures z < 138 && rep < 6
    ensures p.items + Owed(left[1..], z, rep, left[0]) == old(p.items) + Owed(left, z0, rep0, prev)
  {
    hide Unpack, Valid, Counted, Size, Pending, Packer.Ok, Owed, ItemsOf, ZeroItems, RepeatItems;
    z, rep := z0, rep0;
    LastGiven(Unpack([], p.items), done, z, rep, prev);
    if left[0] == 0 {
      z := PackZero(p, done, left, z, rep, prev);
      rep := 0;
    } else {
      rep := PackSize(p, done, left, z, rep, prev);
      z := 0;
    }
  }

  method PackZero(p: Packer, ghost done: seq<nat>, ghost left: seq<nat>, z0: nat, rep: nat, prev: nat) returns (z: nat)
    requires left != [] && left[0] == 0 && p.Ok() && Pending(Unpack([], p.items), done, z0, rep, prev) && z0 < 138 && rep < 6
    modifies p
    ensures p.Ok() && Pending(Unpack([], p.items), done + [0], z, 0, 0) && z < 138
    ensures p.items + Owed(left[1..], z, 0, 0) == old(p.items) + Owed(left, z0, rep, prev)
  {
    hide Unpack, Valid, Counted, Size, Pending, Packer.Ok, Owed, ItemsOf, ZeroItems, RepeatItems;
    z := z0;
    LastGiven(Unpack([], p.items), done, z, rep, prev);
    ZeroOwed(left, z, rep, prev, p.items);
    if rep > 0 {
      FlushedRepeats(Unpack([], p.items), done, rep, prev);
      p.FlushRepeats(prev, rep);
    }
    AddZero(Unpack([], p.items), done, z, prev);
    z := z + 1;
    if z == 138 {
      FlushedZeros(Unpack([], p.items), done + [0], z, 0);
      OwedFull(left[1..], 0);
      Assoc(p.items, ZeroItems(138), Owed(left[1..], 0, 0, 0));
      p.FlushZeros(z);
      z := 0;
    }
  }

  /** A zero to be read, behind zeros, behind a run, or first. */
  lemma ZeroOwed(left: seq<nat>, z: nat, rep: nat, prev: nat, items: seq<Item>)
    requires left != [] && left[0] == 0 && (prev > 0 ==> z == 0) && (rep > 0 ==> 0 < prev < 16)
    ensures items + Owed(left, z, rep, prev) == (if rep > 0 then items + RepeatItems(prev, rep) else items) + Owed(left[1..], z + 1, 0, 0)
  {
    NothingOwed();
    hide Owed, ItemsOf, ZeroItems, RepeatItems;
    if prev == 0 {
      OwedSame(left, z, rep);
    } else {
      OwedNew(left, z, rep, prev);
      OwedFirst(left);
      Assoc(items, RepeatItems(prev, rep), ItemsOf(left));
      assert [] + ItemsOf(left) == ItemsOf(left);
    }
  }

  method PackSize(p: Packer, ghost done: seq<nat>, left: seq<nat>, z0: nat, rep0: nat, prev: nat) returns (rep: nat)
    requires left != [] && 0 < left[0] < 16 && p.Ok() && Pending(Unpack([], p.items), done, z0, rep0, prev) && z0 < 138 && rep0 < 6
    modifies p
    ensures p.Ok() && Pending(Unpack([], p.items), done + [left[0]], 0, rep, left[0]) && rep < 6
    ensures p.items + Owed(left[1..], 0, rep, left[0]) == old(p.items) + Owed(left, z0, rep0, prev)
  {
    hide Unpack, Valid, Counted, Size, Pending, Packer.Ok, Owed, ItemsOf, ZeroItems, RepeatItems;
    rep := rep0;
    var size := left[0];
    LastGiven(Unpack([], p.items), done, z0, rep, prev);
    SizeOwed(left, z0, rep, prev, p.items);
    if z0 > 0 {
      FlushedZeros(Unpack([], p.items), done, z0, prev);
      p.FlushZeros(z0);
    }
    if size != prev {
      if rep > 0 {
        FlushedRepeats(Unpack([], p.items), done, rep, prev);
        p.FlushRepeats(prev, rep);
        rep := 0;
      }
      AddNew(Unpack([], p.items), done, prev, size);
      PlainItem(Unpack([], p.items), size);
      Assoc(p.items, [Item(size, 0)], Owed(left[1..], 0, 0, size));
      p.Put(Item(size, 0));
    } else {
      AddRepeat(Unpack([], p.items), done, rep, prev);
      rep := rep + 1;
      if rep == 6 {
        LastGiven(Unpack([], p.items), done + [size], 0, rep, prev);
        FlushedRepeats(Unpack([], p.items), done + [size], rep, prev);
        OwedFull(left[1..], size);
        Assoc(p.items, RepeatItems(size, 6), Owed(left[1..], 0, 0, size));
        p.FlushRepeats(prev, rep);
        rep := 0;
      }
    }
  }

  /** A length to be read: what is flushed first, the length itself, and what is owed then. */
  lemma SizeOwed(left: seq<nat>, z: nat, rep: nat, prev: nat, items: seq<Item>)
    requires left != [] && 0 < left[0] < 16 && (prev > 0 ==> z == 0) && (rep > 0 ==> 0 < prev < 16) && (z > 0 ==> prev == 0)
    ensures left[0] == prev ==> items + Owed(left, z, rep, prev) == items + Owed(left[1..], 0, rep + 1, prev)
    ensures left[0] != prev ==>
      var flushed := if z > 0 then items + ZeroItems(z) else if rep > 0 then items + RepeatItems(prev, rep) else items;
      items + Owed(left, z, rep, prev) == flushed + ([Item(left[0], 0)] + Owed(left[1..], 0, 0, left[0]))
  {
    NothingOwed();
    hide Owed, ItemsOf, ZeroItems, RepeatItems;
    if left[0] == prev {
      OwedSame(left, z, rep);
    } else {
      OwedNew(left, z, rep, prev);
      OwedFirst(left);
      Assoc(items, if prev >= 16 then [] else if prev == 0 then ZeroItems(z) else RepeatItems(prev, rep), ItemsOf(left));
    }
  }

  lemma PlainItem(acc: seq<nat>, v: nat)
    requires v < 16
    ensures ValidItem(acc, Item(v, 0)) && Expand(acc, Item(v, 0)) == acc + [v]
  {
    assert Pow2(0) == 1;
  }
}
