/** The in-place minimum-redundancy code of Moffat and Katajainen, as fpng uses it to turn symbol
    frequencies into Huffman code lengths (libs/fpng/fpng.cpp:640-663). */
module MinimumRedundancy {
  import opened Arith
  import opened Bits
  import opened Canonical
  import Redundancy

  type uint16 = x: int | 0 <= x < 0x10000

  /** One used symbol: its frequency, later its code length, and its index. */
  datatype SymFreq = SymFreq(key: uint16, sym: nat)

  function Keys(s: seq<SymFreq>): (k: seq<nat>)
    ensures |k| == |s|
    ensures forall i :: 0 <= i < |s| ==> k[i] == s[i].key
  {
    seq(|s|, i requires 0 <= i < |s| => s[i].key)
  }

  function Sum(s: seq<nat>): nat {
    if s == [] then 0 else s[0] + Sum(s[1..])
  }

  function Fib(n: nat): nat {
    if n < 2 then n else Fib(n - 1) + Fib(n - 2)
  }

  ghost predicate Sorted(s: seq<nat>) {
    forall i, j :: 0 <= i <= j < |s| ==> s[i] <= s[j]
  }

  ghost predicate Positive(s: seq<nat>) {
    forall i :: 0 <= i < |s| ==> s[i] >= 1
  }

  /** Frequencies for which no key but the root's can leave 16 bits. */
  ghost predicate Tame(w: seq<nat>) {
    Sorted(w) && Positive(w) && 2 * Sum(w) <= 3 * 0xFFFF
  }

  // ---- First pass: merging. Slots 0..root hold parents of picked internal nodes, root..next the
  // ---- weights of the others, leaf..n the frequencies not yet picked.

  /** What the first pass has done: the weights picked as first and second child of each internal
      node, and the 16-bit weights the finished nodes were stored with. */
  datatype Merge = Merge(first: seq<nat>, second: seq<nat>, weight: seq<nat>)

  function Pick(g: Merge, v: nat): Merge {
    if |g.first| == |g.second| then g.(first := g.first + [v]) else g.(second := g.second + [v])
  }

  function Finish(g: Merge): Merge
    requires |g.first| == |g.second| == |g.weight| + 1
  {
    var k := |g.weight|;
    g.(weight := g.weight + [(g.first[k] + g.second[k]) % 0x10000])
  }

  function PickCount(g: Merge): nat {
    |g.first| + |g.second|
  }

  /** Slots 0..root of a hold parents: later nodes, in order, none with three children. */
  ghost predicate Parents(a: seq<nat>, root: nat, bound: nat) {
    && root <= |a|
    && (forall k :: 0 <= k < root ==> k < a[k] < bound)
    && (forall j, k :: 0 <= j <= k < root ==> a[j] <= a[k])
    && (forall j, k :: 0 <= j && j + 2 <= k < root ==> a[j] < a[k])
  }

  ghost predicate PickedBy(g: Merge, v: nat, p: nat) {
    && p < |g.first|
    && (g.first[p] == v || (p < |g.second| && g.second[p] == v))
  }

  /** What the slots of a hold: parents, waiting weights, unread frequencies. */
  ghost predicate Slots(w: seq<nat>, a: seq<nat>, root: nat, leaf: nat, g: Merge) {
    && root <= |g.weight| <= |a| == |w| && leaf <= |a|
    && (forall k :: 0 <= k < root ==> PickedBy(g, g.weight[k], a[k]))
    && (forall k :: root <= k < |g.weight| ==> a[k] == g.weight[k])
    && (forall i :: leaf <= i < |a| ==> a[i] == w[i])
  }

  /** Stored weights are sums of two picks, modulo 2^16. */
  ghost predicate Stored(g: Merge) {
    && |g.weight| <= |g.second| <= |g.first| <= |g.weight| + 1
    && forall k :: 0 <= k < |g.weight| ==> g.weight[k] == (g.first[k] + g.second[k]) % 0x10000
  }

  ghost predicate Shape(n: nat, w: seq<nat>, a: seq<nat>, root: nat, leaf: nat, g: Merge) {
    var next := |g.weight|;
    && |w| == |a| == n && next < n && root <= next && leaf <= n && leaf + root == PickCount(g)
    && Stored(g) && Slots(w, a, root, leaf, g) && Parents(a, root, next + 1)
    && (|g.first| == next ==> root < next && (root >= 1 ==> a[root - 1] < next))
    && (|g.second| == next && root >= 2 ==> a[root - 2] < next)
  }

  /** The picks are made in order of weight, nothing lighter than `last` is left, and no weight is
      lost: what was picked for unfinished nodes, what waits and what is unread add up. */
  ghost predicate Ordered(g: Merge) {
    && |g.second| <= |g.first|
    && Sorted(g.first) && Sorted(g.second) && Positive(g.first)
    && (forall k :: 0 <= k < |g.second| ==> g.first[k] <= g.second[k])
    && (forall j, k :: 0 <= j < k < |g.first| && j < |g.second| ==> g.second[j] <= g.first[k])
  }

  ghost predicate Exact(g: Merge) {
    && |g.weight| <= |g.second| <= |g.first|
    && forall k :: 0 <= k < |g.weight| ==> g.weight[k] == g.first[k] + g.second[k]
  }

  ghost predicate Least(w: seq<nat>, root: nat, leaf: nat, g: Merge, last: nat) {
    && leaf <= |w| && root <= |g.weight| && last >= 1
    && (forall i :: leaf <= i < |w| ==> last <= w[i])
    && (forall k :: root <= k < |g.weight| ==> last <= g.weight[k])
    && (forall k :: 0 <= k < |g.first| ==> g.first[k] <= last)
    && (forall k :: 0 <= k < |g.second| ==> g.second[k] <= last)
  }

  ghost predicate Conserves(w: seq<nat>, root: nat, leaf: nat, g: Merge) {
    && leaf <= |w| && root <= |g.weight| <= |g.second| <= |g.first|
    && Sum(w[leaf..]) + Sum(g.weight[root..]) + Sum(g.first[|g.weight|..]) + Sum(g.second[|g.weight|..])
       == Sum(w)
  }

  /** All weights that are still to be put together. */
  ghost function Pool(w: seq<nat>, root: nat, leaf: nat, g: Merge): seq<nat>
    requires leaf <= |w| && root <= |g.weight| <= |g.second| <= |g.first|
  {
    g.weight[root..] + w[leaf..] + (g.first[|g.weight|..] + g.second[|g.weight|..])
  }

  /** No code for all the weights costs less than the nodes so far and some code for what is left. */
  ghost predicate Cheapest(w: seq<nat>, root: nat, leaf: nat, g: Merge) {
    && leaf <= |w| && root <= |g.weight| <= |g.second| <= |g.first|
    && forall c: nat :: Redundancy.AtLeast(Pool(w, root, leaf, g), c) ==> Redundancy.AtLeast(w, c + Sum(g.weight))
  }

  lemma {:induction false} SumSnoc(a: seq<nat>, v: nat)
    ensures Sum(a + [v]) == Sum(a) + v
  {
    if a == [] {
      assert [v][1..] == [];
    } else {
      SumSnoc(a[1..], v);
      assert (a + [v])[1..] == a[1..] + [v];
    }
  }

  lemma SumPop(a: seq<nat>, i: nat)
    requires i < |a|
    ensures Sum(a[i..]) == a[i] + Sum(a[i + 1..])
  {
    assert a[i..][1..] == a[i + 1..];
  }

  lemma ParentsPush(a: seq<nat>, root: nat, next: nat)
    requires Parents(a, root, next + 1) && root < next < |a|
    requires root >= 2 ==> a[root - 2] < next
    ensures Parents(a[root := next], root + 1, next + 1)
  {
    assert forall j :: 0 <= j <= root - 2 ==> a[j] <= a[root - 2];
  }

  /** Picking the internal node at the head of its queue: it becomes a child of node next. */
  lemma PickRootSlots(w: seq<nat>, a: seq<nat>, root: nat, leaf: nat, g: Merge)
    requires Stored(g) && Slots(w, a, root, leaf, g) && root < |g.weight| == |g.second| && leaf > root
    ensures Stored(Pick(g, a[root]))
    ensures Slots(w, a[root := |g.weight|], root + 1, leaf, Pick(g, a[root]))
  {
    var a', g' := a[root := |g.weight|], Pick(g, a[root]);
    forall k | 0 <= k < root + 1
      ensures PickedBy(g', g'.weight[k], a'[k])
    {
      assert k < root ==> PickedBy(g, g.weight[k], a[k]);
    }
  }

  lemma PickRootShape(n: nat, w: seq<nat>, a: seq<nat>, root: nat, leaf: nat, g: Merge)
    requires Shape(n, w, a, root, leaf, g) && root < |g.weight| == |g.second| && leaf > root
    ensures Shape(n, w, a[root := |g.weight|], root + 1, leaf, Pick(g, a[root]))
  {
    hide Slots, Stored, Parents, Pick;
    ParentsPair(a, root, |g.weight| + 1);
    StoredSizes(g);
    PickSizes(g, a[root]);
    ParentsPush(a, root, |g.weight|);
    PickRootSlots(w, a, root, leaf, g);
  }

  lemma ParentsPair(a: seq<nat>, root: nat, bound: nat)
    requires Parents(a, root, bound)
    ensures root >= 2 ==> a[root - 2] <= a[root - 1]
  {
  }

  lemma StoredSizes(g: Merge)
    requires Stored(g)
    ensures |g.weight| <= |g.second| <= |g.first| <= |g.weight| + 1
  {
  }

  lemma PickSizes(g: Merge, v: nat)
    requires |g.weight| <= |g.second| <= |g.first| <= |g.weight| + 1
    ensures var g' := Pick(g, v);
      && PickCount(g') == PickCount(g) + 1 && g'.weight == g.weight
      && |g'.first| == |g.first| + (if |g.first| == |g.second| then 1 else 0)
  {
  }

  lemma PickStored(g: Merge, v: nat)
    requires Stored(g) && |g.second| == |g.weight|
    ensures Stored(Pick(g, v)) && Pick(g, v).weight == g.weight
  {
  }

  lemma StillPicked(g: Merge, v: nat, x: nat, p: nat)
    requires PickedBy(g, x, p)
    ensures PickedBy(Pick(g, v), x, p)
  {
  }

  lemma PickLeafSlots(w: seq<nat>, a: seq<nat>, root: nat, leaf: nat, g: Merge)
    requires Stored(g) && Slots(w, a, root, leaf, g) && |g.second| == |g.weight| && leaf < |w|
    ensures Stored(Pick(g, w[leaf])) && Slots(w, a, root, leaf + 1, Pick(g, w[leaf]))
  {
    hide Stored, PickedBy, Pick;
    PickStored(g, w[leaf]);
    forall k | 0 <= k < root
      ensures PickedBy(Pick(g, w[leaf]), g.weight[k], a[k])
    {
      StillPicked(g, w[leaf], g.weight[k], a[k]);
    }
  }

  lemma PickLeafShape(n: nat, w: seq<nat>, a: seq<nat>, root: nat, leaf: nat, g: Merge)
    requires Shape(n, w, a, root, leaf, g) && |g.second| == |g.weight| && leaf < n
    ensures Shape(n, w, a, root, leaf + 1, Pick(g, w[leaf]))
  {
    hide Slots, Stored, Parents, Pick;
    ParentsPair(a, root, |g.weight| + 1);
    StoredSizes(g);
    PickSizes(g, w[leaf]);
    PickLeafSlots(w, a, root, leaf, g);
  }

  lemma FinishStored(g: Merge)
    requires Stored(g) && |g.second| == |g.weight| + 1
    ensures Stored(Finish(g))
  {
  }

  lemma FinishSlots(w: seq<nat>, a: seq<nat>, root: nat, leaf: nat, g: Merge)
    requires Slots(w, a, root, leaf, g) && |g.first| == |g.second| == |g.weight| + 1
    requires |g.weight| < |a| && leaf > |g.weight|
    ensures Slots(w, a[|g.weight| := Finish(g).weight[|g.weight|]], root, leaf, Finish(g))
  {
    var a', g' := a[|g.weight| := Finish(g).weight[|g.weight|]], Finish(g);
    forall k | 0 <= k < root
      ensures PickedBy(g', g'.weight[k], a'[k])
    {
      assert PickedBy(g, g.weight[k], a[k]);
    }
  }

  /** Both children of node next are picked: its weight joins the queue. */
  lemma FinishShape(n: nat, w: seq<nat>, a: seq<nat>, root: nat, leaf: nat, g: Merge)
    requires Shape(n, w, a, root, leaf, g) && |g.second| == |g.weight| + 1
    requires |g.weight| + 1 < n && leaf > |g.weight|
    ensures Shape(n, w, a[|g.weight| := Finish(g).weight[|g.weight|]], root, leaf, Finish(g))
  {
    FinishStored(g);
    FinishSlots(w, a, root, leaf, g);
  }

  lemma SortedSnoc(s: seq<nat>, last: nat, v: nat)
    requires Sorted(s) && last <= v && forall k :: 0 <= k < |s| ==> s[k] <= last
    ensures Sorted(s + [v])
  {
  }

  lemma PickInOrder(g: Merge, w: seq<nat>, root: nat, leaf: nat, last: nat, v: nat)
    requires Ordered(g) && Least(w, root, leaf, g, last) && last <= v
    requires |g.first| <= |g.second| + 1
    ensures Ordered(Pick(g, v))
  {
    hide Sorted;
    SortedSnoc(g.first, last, v);
    SortedSnoc(g.second, last, v);
  }

  lemma QueueInOrder(g: Merge)
    requires Ordered(g) && Exact(g)
    ensures Sorted(g.weight)
  {
  }

  lemma PickAdds(g: Merge, v: nat)
    requires |g.weight| <= |g.second| <= |g.first|
    ensures var g', k := Pick(g, v), |g.weight|;
      Sum(g'.first[k..]) + Sum(g'.second[k..]) == Sum(g.first[k..]) + Sum(g.second[k..]) + v
  {
    var k := |g.weight|;
    assert (g.first + [v])[k..] == g.first[k..] + [v];
    assert (g.second + [v])[k..] == g.second[k..] + [v];
    SumSnoc(g.first[k..], v);
    SumSnoc(g.second[k..], v);
  }

  lemma PickRootConserves(w: seq<nat>, root: nat, leaf: nat, g: Merge)
    requires Conserves(w, root, leaf, g) && root < |g.weight| && |g.first| <= |g.second| + 1
    ensures Conserves(w, root + 1, leaf, Pick(g, g.weight[root]))
  {
    SumPop(g.weight, root);
    PickAdds(g, g.weight[root]);
  }

  lemma PickLeafConserves(w: seq<nat>, root: nat, leaf: nat, g: Merge)
    requires Conserves(w, root, leaf, g) && leaf < |w| && |g.first| <= |g.second| + 1
    ensures Conserves(w, root, leaf + 1, Pick(g, w[leaf]))
  {
    SumPop(w, leaf);
    PickAdds(g, w[leaf]);
  }

  lemma Headed(s: seq<nat>, i: nat)
    requires i < |s|
    ensures s[i..] == [s[i]] + s[i + 1..]
  {
  }

  /** The next of a queue goes from the waiting weights to the picked ones. */
  lemma PickedPool(a: seq<nat>, b: seq<nat>, x: seq<nat>, y: seq<nat>, v: nat)
    ensures multiset(([v] + a) + b + (x + y)) == multiset(a + b + ((x + [v]) + y))
    ensures multiset(([v] + a) + b + (x + y)) == multiset(a + b + (x + (y + [v])))
    ensures multiset(b + ([v] + a) + (x + y)) == multiset(b + a + ((x + [v]) + y))
    ensures multiset(b + ([v] + a) + (x + y)) == multiset(b + a + (x + (y + [v])))
  {
  }

  lemma PickTail(g: Merge, v: nat)
    requires |g.weight| <= |g.second| <= |g.first|
    ensures var g', k := Pick(g, v), |g.weight|;
      if |g.first| == |g.second| then g'.first[k..] == g.first[k..] + [v] && g'.second == g.second
      else g'.first == g.first && g'.second[k..] == g.second[k..] + [v]
  {
  }

  lemma PickRootCheapest(w: seq<nat>, root: nat, leaf: nat, g: Merge)
    requires Cheapest(w, root, leaf, g) && root < |g.weight| && |g.first| <= |g.second| + 1
    ensures Cheapest(w, root + 1, leaf, Pick(g, g.weight[root]))
  {
    var v, k := g.weight[root], |g.weight|;
    var g' := Pick(g, v);
    Headed(g.weight, root);
    PickTail(g, v);
    PickedPool(g.weight[root + 1..], w[leaf..], g.first[k..], g.second[k..], v);
    var old', new' := Pool(w, root, leaf, g), Pool(w, root + 1, leaf, g');
    forall c: nat | Redundancy.AtLeast(new', c) ensures Redundancy.AtLeast(w, c + Sum(g'.weight)) {
      Redundancy.SameAtLeast(old', new', c);
    }
  }

  lemma PickLeafCheapest(w: seq<nat>, root: nat, leaf: nat, g: Merge)
    requires Cheapest(w, root, leaf, g) && leaf < |w| && |g.first| <= |g.second| + 1
    ensures Cheapest(w, root, leaf + 1, Pick(g, w[leaf]))
  {
    var v, k := w[leaf], |g.weight|;
    var g' := Pick(g, v);
    Headed(w, leaf);
    PickTail(g, v);
    PickedPool(w[leaf + 1..], g.weight[root..], g.first[k..], g.second[k..], v);
    var old', new' := Pool(w, root, leaf, g), Pool(w, root, leaf + 1, g');
    forall c: nat | Redundancy.AtLeast(new', c) ensures Redundancy.AtLeast(w, c + Sum(g'.weight)) {
      Redundancy.SameAtLeast(old', new', c);
    }
  }

  lemma FinishedPool(a: seq<nat>, b: seq<nat>, x: nat, y: nat)
    ensures multiset(a + b + ([x] + [y])) == multiset([x, y] + (a + b))
    ensures multiset((a + [x + y]) + b + ([] + [])) == multiset([x + y] + (a + b))
  {
  }

  lemma FinishTail(w: seq<nat>, root: nat, leaf: nat, g: Merge)
    requires |g.first| == |g.second| == |g.weight| + 1 && leaf <= |w| && root <= |g.weight|
    requires g.first[|g.weight|] + g.second[|g.weight|] < 0x10000
    ensures var g', k := Finish(g), |g.weight|; var v := g.first[k] + g.second[k];
      && g'.weight == g.weight + [v] && g'.weight[root..] == g.weight[root..] + [v]
      && Pool(w, root, leaf, g) == g.weight[root..] + w[leaf..] + ([g.first[k]] + [g.second[k]])
      && Pool(w, root, leaf, g') == (g.weight[root..] + [v]) + w[leaf..] + ([] + [])
  {
    var k := |g.weight|;
    assert g.first[k..] == [g.first[k]] && g.second[k..] == [g.second[k]];
    assert g.first[k + 1..] == [] && g.second[k + 1..] == [];
  }

  /** Putting the two lightest together loses nothing. */
  lemma FinishCheapest(w: seq<nat>, root: nat, leaf: nat, g: Merge)
    requires Cheapest(w, root, leaf, g) && |g.first| == |g.second| == |g.weight| + 1
    requires Least(w, root, leaf, g, g.second[|g.weight|]) && g.first[|g.weight|] <= g.second[|g.weight|]
    requires g.first[|g.weight|] + g.second[|g.weight|] < 0x10000
    ensures Cheapest(w, root, leaf, Finish(g))
  {
    hide *;
    var g' := Finish(g);
    Bounds(w, root, leaf, g);
    FinishPools(w, root, leaf, g);
    LeastRest(w, root, leaf, g);
    forall c: nat | Redundancy.AtLeast(Pool(w, root, leaf, g'), c) ensures Redundancy.AtLeast(w, c + Sum(g'.weight)) {
      FinishOne(w, root, leaf, g, g', c);
    }
    CheapestMeans(w, root, leaf, g');
  }

  lemma FinishPools(w: seq<nat>, root: nat, leaf: nat, g: Merge)
    requires |g.first| == |g.second| == |g.weight| + 1 && leaf <= |w| && root <= |g.weight|
    requires g.first[|g.weight|] + g.second[|g.weight|] < 0x10000
    ensures var g', x, y, rest := Finish(g), g.first[|g.weight|], g.second[|g.weight|], g.weight[root..] + w[leaf..];
      && root <= |g'.weight| <= |g'.second| <= |g'.first| && Sum(g'.weight) == Sum(g.weight) + x + y
      && multiset(Pool(w, root, leaf, g)) == multiset([x, y] + rest)
      && multiset(Pool(w, root, leaf, g')) == multiset([x + y] + rest)
  {
    hide Pool, Sum;
    var x, y := g.first[|g.weight|], g.second[|g.weight|];
    FinishTail(w, root, leaf, g);
    FinishedPool(g.weight[root..], w[leaf..], x, y);
    SumSnoc(g.weight, x + y);
  }

  lemma Bounds(w: seq<nat>, root: nat, leaf: nat, g: Merge)
    requires Cheapest(w, root, leaf, g)
    ensures leaf <= |w| && root <= |g.weight| <= |g.second| <= |g.first|
  {
  }

  lemma FinishOne(w: seq<nat>, root: nat, leaf: nat, g: Merge, g': Merge, c: nat)
    requires Cheapest(w, root, leaf, g) && |g.first| == |g.second| == |g.weight| + 1
    requires leaf <= |w| && root <= |g.weight| && root <= |g'.weight| <= |g'.second| <= |g'.first|
    requires var x, y, rest := g.first[|g.weight|], g.second[|g.weight|], g.weight[root..] + w[leaf..];
      && x <= y && (forall i :: 0 <= i < |rest| ==> y <= rest[i]) && Sum(g'.weight) == Sum(g.weight) + x + y
      && multiset(Pool(w, root, leaf, g)) == multiset([x, y] + rest)
      && multiset(Pool(w, root, leaf, g')) == multiset([x + y] + rest)
    requires Redundancy.AtLeast(Pool(w, root, leaf, g'), c)
    ensures Redundancy.AtLeast(w, c + Sum(g'.weight))
  {
    hide Cheapest, Pool, Redundancy.AtLeast, Sum;
    var x, y, rest := g.first[|g.weight|], g.second[|g.weight|], g.weight[root..] + w[leaf..];
    PoolMerged(Pool(w, root, leaf, g), Pool(w, root, leaf, g'), x, y, rest, c);
    CheapestAt(w, root, leaf, g, c + x + y);
  }

  lemma PoolMerged(pool: seq<nat>, pool': seq<nat>, x: nat, y: nat, rest: seq<nat>, c: nat)
    requires x <= y && forall i :: 0 <= i < |rest| ==> y <= rest[i]
    requires multiset(pool) == multiset([x, y] + rest) && multiset(pool') == multiset([x + y] + rest)
    requires Redundancy.AtLeast(pool', c)
    ensures Redundancy.AtLeast(pool, c + x + y)
  {
    hide Redundancy.AtLeast;
    Redundancy.SameAtLeast([x + y] + rest, pool', c);
    Redundancy.Merging(x, y, rest, c);
    Redundancy.SameAtLeast(pool, [x, y] + rest, c + x + y);
  }

  lemma CheapestMeans(w: seq<nat>, root: nat, leaf: nat, g: Merge)
    requires leaf <= |w| && root <= |g.weight| <= |g.second| <= |g.first|
    requires forall c: nat | Redundancy.AtLeast(Pool(w, root, leaf, g), c) :: Redundancy.AtLeast(w, c + Sum(g.weight))
    ensures Cheapest(w, root, leaf, g)
  {
  }

  lemma LeastRest(w: seq<nat>, root: nat, leaf: nat, g: Merge)
    requires |g.second| == |g.weight| + 1 && Least(w, root, leaf, g, g.second[|g.weight|])
    ensures var rest := g.weight[root..] + w[leaf..]; forall i :: 0 <= i < |rest| ==> g.second[|g.weight|] <= rest[i]
  {
  }

  lemma CheapestAt(w: seq<nat>, root: nat, leaf: nat, g: Merge, c: nat)
    requires Cheapest(w, root, leaf, g) && Redundancy.AtLeast(Pool(w, root, leaf, g), c)
    ensures Redundancy.AtLeast(w, c + Sum(g.weight))
  {
  }

  /** What a pick must take to stay least: the lighter of the two queue heads. */
  lemma PickLeast(w: seq<nat>, root: nat, leaf: nat, g: Merge, last: nat, v: nat)
    requires Least(w, root, leaf, g, last) && Sorted(w) && Sorted(g.weight) && last <= v
    requires leaf < |w| ==> v <= w[leaf]
    requires root < |g.weight| ==> v <= g.weight[root]
    ensures Least(w, root, leaf, Pick(g, v), v)
  {
  }

  /** A node that is not the root weighs at most two thirds of everything, so 16 bits hold it. */
  lemma NodeFits(w: seq<nat>, root: nat, leaf: nat, g: Merge)
    requires Conserves(w, root, leaf, g)
    requires |g.first| == |g.second| == |g.weight| + 1
    requires Least(w, root, leaf, g, g.second[|g.weight|]) && Ordered(g)
    requires 2 * Sum(w) <= 3 * 0xFFFF && (leaf < |w| || root < |g.weight|)
    ensures g.first[|g.weight|] + g.second[|g.weight|] < 0x10000
  {
    var k := |g.weight|;
    LastSums(g);
    if leaf < |w| {
      SumPop(w, leaf);
    } else {
      SumPop(g.weight, root);
    }
  }

  lemma LastSums(g: Merge)
    requires |g.first| == |g.second| == |g.weight| + 1
    ensures Sum(g.first[|g.weight|..]) == g.first[|g.weight|]
    ensures Sum(g.second[|g.weight|..]) == g.second[|g.weight|]
  {
    SumPop(g.first, |g.weight|);
    SumPop(g.second, |g.weight|);
    assert g.first[|g.weight| + 1..] == [] && g.second[|g.weight| + 1..] == [];
  }

  lemma FinishConserves(w: seq<nat>, root: nat, leaf: nat, g: Merge)
    requires Conserves(w, root, leaf, g)
    requires |g.first| == |g.second| == |g.weight| + 1
    requires g.first[|g.weight|] + g.second[|g.weight|] < 0x10000
    ensures Conserves(w, root, leaf, Finish(g))
  {
    var g' := Finish(g);
    LastSums(g);
    SumSnoc(g.weight[root..], g.first[|g.weight|] + g.second[|g.weight|]);
    assert g'.weight[root..] == g.weight[root..] + [g.first[|g.weight|] + g.second[|g.weight|]];
    assert g'.first[|g'.weight|..] == [] && g'.second[|g'.weight|..] == [];
    assert Sum([]) == 0;
  }

  ghost predicate Balanced(w: seq<nat>, root: nat, leaf: nat, g: Merge, last: nat) {
    && Ordered(g) && Exact(g) && Least(w, root, leaf, g, last)
    && Conserves(w, root, leaf, g) && Cheapest(w, root, leaf, g)
  }

  lemma PickBalanced(w: seq<nat>, root: nat, leaf: nat, g: Merge, last: nat, fromRoot: bool)
    requires Balanced(w, root, leaf, g, last) && Sorted(w) && |g.first| <= |g.second| + 1
    requires if fromRoot then root < |g.weight| && (leaf < |w| ==> g.weight[root] < w[leaf])
             else leaf < |w| && (root < |g.weight| ==> w[leaf] <= g.weight[root])
    ensures fromRoot ==> Balanced(w, root + 1, leaf, Pick(g, g.weight[root]), g.weight[root])
    ensures !fromRoot ==> Balanced(w, root, leaf + 1, Pick(g, w[leaf]), w[leaf])
  {
    hide Cheapest, Sum;
    var v := if fromRoot then g.weight[root] else w[leaf];
    QueueInOrder(g);
    PickInOrder(g, w, root, leaf, last, v);
    PickLeast(w, root, leaf, g, last, v);
    if fromRoot {
      PickRootConserves(w, root, leaf, g);
      PickRootCheapest(w, root, leaf, g);
    } else {
      PickLeafConserves(w, root, leaf, g);
      PickLeafCheapest(w, root, leaf, g);
    }
  }

  lemma FinishLeast(w: seq<nat>, root: nat, leaf: nat, g: Merge)
    requires |g.first| == |g.second| == |g.weight| + 1
    requires Least(w, root, leaf, g, g.second[|g.weight|])
    requires g.first[|g.weight|] + g.second[|g.weight|] < 0x10000
    ensures Least(w, root, leaf, Finish(g), g.second[|g.weight|])
  {
  }

  lemma FinishOrdered(g: Merge)
    requires Ordered(g) && Exact(g) && |g.first| == |g.second| == |g.weight| + 1
    requires g.first[|g.weight|] + g.second[|g.weight|] < 0x10000
    ensures Ordered(Finish(g)) && Exact(Finish(g))
  {
  }

  lemma FinishBalanced(w: seq<nat>, root: nat, leaf: nat, g: Merge)
    requires |g.first| == |g.second| == |g.weight| + 1
    requires Balanced(w, root, leaf, g, g.second[|g.weight|])
    requires 2 * Sum(w) <= 3 * 0xFFFF && (leaf < |w| || root < |g.weight|)
    ensures Balanced(w, root, leaf, Finish(g), g.second[|g.weight|])
  {
    NodeFits(w, root, leaf, g);
    hide Least, Exact, Conserves, Cheapest;
    FinishCheapest(w, root, leaf, g);
    FinishConserves(w, root, leaf, g);
    FinishLeast(w, root, leaf, g);
    FinishOrdered(g);
  }

  // ---- The two picks of one iteration, as they change the keys and the two queue heads.

  datatype Queues = Queues(a: seq<nat>, root: nat, leaf: nat)

  ghost predicate FromRoot(q: Queues, next: nat)
    requires q.root <= next < |q.a| && q.leaf <= |q.a|
  {
    q.leaf >= |q.a| || (q.root < next && q.a[q.root] < q.a[q.leaf])
  }

  ghost function Head(q: Queues, next: nat): nat
    requires q.root <= next < |q.a| && q.leaf <= |q.a|
  {
    if FromRoot(q, next) then q.a[q.root] else q.a[q.leaf]
  }

  /** Queues after taking the head and storing v in slot next. */
  ghost function Advance(q: Queues, next: nat, v: nat): Queues
    requires q.root <= next < |q.a| && q.leaf <= |q.a|
  {
    if FromRoot(q, next) then Queues(q.a[next := v][q.root := next], q.root + 1, q.leaf)
    else Queues(q.a[next := v], q.root, q.leaf + 1)
  }

  lemma SlotFree(n: nat, w: seq<nat>, a: seq<nat>, root: nat, leaf: nat, g: Merge, v: nat)
    requires Shape(n, w, a, root, leaf, g) && leaf > |g.weight|
    ensures Shape(n, w, a[|g.weight| := v], root, leaf, g)
  {
    assert forall k :: 0 <= k < root ==> PickedBy(g, g.weight[k], a[k]);
  }

  lemma LeafAhead(n: nat, w: seq<nat>, a: seq<nat>, root: nat, leaf: nat, g: Merge)
    requires Shape(n, w, a, root, leaf, g) && |g.second| == |g.weight|
    ensures leaf > |g.weight| && |g.first| <= |g.second| + 1 && |a| == |w| == n && root <= |g.weight| < n
    ensures root < |g.weight| ==> a[root] == g.weight[root]
    ensures leaf < n ==> a[leaf] == w[leaf]
  {
  }

  lemma AdvanceShape(w: seq<nat>, q: Queues, g: Merge, v: nat)
    requires Shape(|w|, w, q.a, q.root, q.leaf, g) && |g.second| == |g.weight|
    requires q.leaf <= |q.a| == |w| && q.root <= |g.weight| < |q.a|
    requires q.leaf >= |w| ==> q.root < |g.weight|
    ensures var q' := Advance(q, |g.weight|, v);
      Shape(|w|, w, q'.a, q'.root, q'.leaf, Pick(g, Head(q, |g.weight|)))
  {
    hide Shape, Pick;
    LeafAhead(|w|, w, q.a, q.root, q.leaf, g);
    SlotFree(|w|, w, q.a, q.root, q.leaf, g, v);
    var next := |g.weight|;
    if FromRoot(q, next) {
      PickRootShape(|w|, w, q.a[next := v], q.root, q.leaf, g);
    } else {
      PickLeafShape(|w|, w, q.a[next := v], q.root, q.leaf, g);
    }
  }

  lemma AdvanceBalanced(w: seq<nat>, q: Queues, g: Merge, v: nat, last: nat)
    requires |q.a| == |w| && q.root <= |g.weight| < |w| && q.leaf <= |w|
    requires q.root < |g.weight| ==> q.a[q.root] == g.weight[q.root]
    requires q.leaf < |w| ==> q.a[q.leaf] == w[q.leaf]
    requires q.leaf >= |w| ==> q.root < |g.weight|
    requires Balanced(w, q.root, q.leaf, g, last) && Sorted(w) && |g.first| <= |g.second| + 1
    ensures var q', h := Advance(q, |g.weight|, v), Head(q, |g.weight|);
      Balanced(w, q'.root, q'.leaf, Pick(g, h), h)
  {
    hide Balanced;
    if FromRoot(q, |g.weight|) {
      PickBalanced(w, q.root, q.leaf, g, last, true);
    } else {
      PickBalanced(w, q.root, q.leaf, g, last, false);
    }
  }

  // ---- Which weights the first m nodes took.

  /** Of the internal nodes with a parent, the first r have one among the first m nodes. */
  ghost predicate Split(a: seq<nat>, root: nat, m: nat, r: nat) {
    && r <= root <= |a| && r <= m
    && (forall k :: 0 <= k < r ==> a[k] < m) && (forall k :: r <= k < root ==> a[k] >= m)
  }

  /** The first m nodes took the first r nodes and, for the rest of their 2m children, the lightest
      leaves; so those leaves weigh what the other nodes of the m weigh. */
  ghost predicate Levelled(w: seq<nat>, a: seq<nat>, root: nat, g: Merge) {
    forall m: nat, r: nat :: 1 <= m <= |g.weight| && m + 1 < |w| && Split(a, root, m, r) ==>
      r <= 2 * m && 2 * m - r <= |w| && Sum(w[..2 * m - r]) == Sum(g.weight[r..m])
  }

  lemma {:induction false} SumCat(a: seq<nat>, b: seq<nat>)
    ensures Sum(a + b) == Sum(a) + Sum(b)
  {
    if a == [] {
      assert a + b == b;
    } else {
      SumCat(a[1..], b);
      assert (a + b)[1..] == a[1..] + b;
    }
  }

  lemma SumSplit(a: seq<nat>, i: nat)
    requires i <= |a|
    ensures Sum(a) == Sum(a[..i]) + Sum(a[i..])
  {
    SumCat(a[..i], a[i..]);
    assert a == a[..i] + a[i..];
  }

  lemma SplitSame(a: seq<nat>, root: nat, a': seq<nat>, root': nat, m: nat, r: nat)
    requires Split(a', root', m, r) && r <= root <= root' && root <= |a|
    requires forall k :: 0 <= k < root ==> a'[k] == a[k]
    ensures Split(a, root, m, r)
  {
  }

  lemma AllBelow(a: seq<nat>, root: nat, m: nat, r: nat)
    requires Split(a, root, m, r) && forall k :: 0 <= k < root ==> a[k] < m
    ensures r == root
  {
    NotNegative(a, r);
  }

  lemma NotNegative(a: seq<nat>, k: nat)
    ensures k < |a| ==> a[k] >= 0
  {
  }

  lemma AdvanceLevelled(w: seq<nat>, q: Queues, g: Merge, v: nat)
    requires q.root <= |g.weight| < |q.a| && q.leaf <= |q.a| && Levelled(w, q.a, q.root, g)
    requires q.leaf >= |q.a| ==> q.root < |g.weight|
    ensures var q', h := Advance(q, |g.weight|, v), Head(q, |g.weight|);
      Levelled(w, q'.a, q'.root, Pick(g, h))
  {
    var q', g' := Advance(q, |g.weight|, v), Pick(g, Head(q, |g.weight|));
    hide Sum, Levelled;
    forall m: nat, r: nat | 1 <= m <= |g.weight| && m + 1 < |w| && Split(q'.a, q'.root, m, r) ensures Split(q.a, q.root, m, r) {
      if FromRoot(q, |g.weight|) {
        assert q'.a[q.root] == |g.weight|;
      }
      SplitSame(q.a, q.root, q'.a, q'.root, m, r);
    }
    assert g'.weight == g.weight;
    StillLevelled(w, q.a, q.root, g, q'.a, q'.root, g');
  }

  lemma StillLevelled(w: seq<nat>, a: seq<nat>, root: nat, g: Merge, a': seq<nat>, root': nat, g': Merge)
    requires Levelled(w, a, root, g) && g'.weight == g.weight
    requires forall m: nat, r: nat :: 1 <= m <= |g.weight| && m + 1 < |w| && Split(a', root', m, r) ==> Split(a, root, m, r)
    ensures Levelled(w, a', root', g')
  {
    hide Split, Sum;
  }

  lemma FinishLevelled(w: seq<nat>, a: seq<nat>, root: nat, leaf: nat, g: Merge, v: nat)
    requires Levelled(w, a, root, g) && |g.first| == |g.second| == |g.weight| + 1 && root <= |g.weight| < |a|
    requires Parents(a, root, |g.weight| + 1) && leaf + root == 2 * |g.weight| + 2
    requires |g.weight| + 2 < |w| ==> Conserves(w, root, leaf, Finish(g))
    ensures Levelled(w, a[|g.weight| := v], root, Finish(g))
  {
    var next, a', g' := |g.weight|, a[|g.weight| := v], Finish(g);
    forall m: nat, r: nat | 1 <= m <= |g'.weight| && m + 1 < |w| && Split(a', root, m, r)
      ensures r <= 2 * m && 2 * m - r <= |w| && Sum(w[..2 * m - r]) == Sum(g'.weight[r..m])
    {
      if m <= next {
        SplitSame(a, root, a', root, m, r);
        assert g'.weight[r..m] == g.weight[r..m];
      } else {
        AllBelow(a', root, m, r);
        FinishedTakes(w, root, leaf, g');
      }
    }
  }

  lemma FinishedTakes(w: seq<nat>, root: nat, leaf: nat, g: Merge)
    requires Conserves(w, root, leaf, g) && |g.first| == |g.second| == |g.weight|
    ensures Sum(w[..leaf]) == Sum(g.weight[root..|g.weight|])
  {
    assert g.first[|g.weight|..] == [] && g.second[|g.weight|..] == [] && Sum([]) == 0;
    assert g.weight[root..|g.weight|] == g.weight[root..];
    SumSplit(w, leaf);
  }

  /** The first pass is over: the root's children hold all the weight. */
  ghost predicate Merged(w: seq<nat>, g: Merge) {
    var k := |w| - 2;
    && |w| >= 2 && |g.weight| == |g.first| == |g.second| == k + 1
    && Ordered(g)
    && (forall i :: 0 <= i < k ==> g.weight[i] == g.first[i] + g.second[i])
    && g.first[k] + g.second[k] == Sum(w)
    && Redundancy.AtLeast(w, Sum(g.weight[..k]) + Sum(w))
  }

  ghost predicate Merging(w: seq<nat>, q: Queues, g: Merge, last: nat) {
    && Shape(|w|, w, q.a, q.root, q.leaf, g)
    && (Tame(w) ==> Balanced(w, q.root, q.leaf, g, last) && Levelled(w, q.a, q.root, g))
  }

  lemma PickMerging(w: seq<nat>, q: Queues, g: Merge, v: nat, last: nat)
    requires Merging(w, q, g, last) && |g.second| == |g.weight| && |q.a| == |w|
    requires q.leaf <= |w| && q.root <= |g.weight| < |w|
    requires q.leaf >= |w| ==> q.root < |g.weight|
    ensures var h := Head(q, |g.weight|); Merging(w, Advance(q, |g.weight|, v), Pick(g, h), h)
  {
    LeafAhead(|w|, w, q.a, q.root, q.leaf, g);
    AdvanceShape(w, q, g, v);
    hide Shape, Balanced, Advance, Pick, Head, Levelled;
    if Tame(w) {
      AdvanceBalanced(w, q, g, v, last);
      AdvanceLevelled(w, q, g, v);
    }
  }

  /** Both picks of the last node take everything that is left. */
  lemma LastPicks(w: seq<nat>, root: nat, leaf: nat, g: Merge, last: nat)
    requires Balanced(w, root, leaf, g, last) && leaf == |w| && root == |g.weight| == |w| - 2
    requires |g.first| == |g.second| == |g.weight| + 1
    ensures Merged(w, Finish(g))
  {
    LastSums(g);
    assert w[leaf..] == [] && g.weight[root..] == [] && Sum([]) == 0;
    LastTwo(w, root, leaf, g);
    assert Finish(g).weight[..|w| - 2] == g.weight;
  }

  lemma LastTwo(w: seq<nat>, root: nat, leaf: nat, g: Merge)
    requires Cheapest(w, root, leaf, g) && leaf == |w| && root == |g.weight|
    requires |g.first| == |g.second| == |g.weight| + 1 && g.first[root] <= g.second[root]
    ensures Redundancy.AtLeast(w, g.first[root] + g.second[root] + Sum(g.weight))
  {
    var x, y := g.first[root], g.second[root];
    TwoWeights(x, y);
    assert g.weight[root..] + w[leaf..] + (g.first[root..] + g.second[root..]) == [x, y];
    CheapestAt(w, root, leaf, g, x + y);
  }

  lemma TwoWeights(x: nat, y: nat)
    requires x <= y
    ensures Redundancy.AtLeast([x, y], x + y)
  {
    Redundancy.OneWeight(x + y);
    assert [x + y] + [] == [x + y] && [x, y] + [] == [x, y];
    Redundancy.Merging(x, y, [], 0);
  }

  lemma FinishMerging(w: seq<nat>, q: Queues, g: Merge)
    requires |g.first| == |g.second| == |g.weight| + 1
    requires Merging(w, q, g, g.second[|g.weight|])
    requires |g.weight| + 1 < |w| && q.leaf > |g.weight| && |q.a| == |w|
    requires q.leaf <= |w| && q.root <= |g.weight| && q.leaf + q.root == 2 * |g.weight| + 2
    ensures Shape(|w|, w, q.a[|g.weight| := Finish(g).weight[|g.weight|]], q.root, q.leaf, Finish(g))
    ensures Tame(w) ==> if |g.weight| + 2 == |w| then Merged(w, Finish(g))
      else Balanced(w, q.root, q.leaf, Finish(g), g.second[|g.weight|])
    ensures Tame(w) ==> Levelled(w, q.a[|g.weight| := Finish(g).weight[|g.weight|]], q.root, Finish(g))
  {
    FinishShape(|w|, w, q.a, q.root, q.leaf, g);
    ShapeParents(|w|, w, q.a, q.root, q.leaf, g);
    hide Shape, Balanced, Finish, Merged, Levelled, Parents;
    if Tame(w) {
      if |g.weight| + 2 == |w| {
        LastPicks(w, q.root, q.leaf, g, g.second[|g.weight|]);
      } else {
        FinishBalanced(w, q.root, q.leaf, g);
        ConservesOf(w, q.root, q.leaf, Finish(g), g.second[|g.weight|]);
      }
      FinishLevelled(w, q.a, q.root, q.leaf, g, Finish(g).weight[|g.weight|]);
    }
  }

  lemma ShapeParents(n: nat, w: seq<nat>, a: seq<nat>, root: nat, leaf: nat, g: Merge)
    requires Shape(n, w, a, root, leaf, g)
    ensures Parents(a, root, |g.weight| + 1)
  {
  }

  lemma ConservesOf(w: seq<nat>, root: nat, leaf: nat, g: Merge, last: nat)
    requires Balanced(w, root, leaf, g, last)
    ensures Conserves(w, root, leaf, g)
  {
  }

  ghost function KeysOf(A: array<SymFreq>, n: nat): (k: seq<nat>)
    requires n <= A.Length
    reads A
    ensures |k| == n && forall i :: 0 <= i < n ==> k[i] == A[i].key
  {
    Keys(A[..n])
  }

  twostate predicate OnlyKeys(A: array<SymFreq>, n: nat)
    reads A
  {
    && (forall i :: 0 <= i < A.Length ==> A[i].sym == old(A[i].sym))
    && (forall i :: n <= i < A.Length ==> A[i] == old(A[i]))
  }

  method SetKey(A: array<SymFreq>, n: nat, i: nat, v: uint16)
    requires i < n <= A.Length
    modifies A
    ensures KeysOf(A, n) == old(KeysOf(A, n))[i := v] && OnlyKeys(A, n)
  {
    A[i] := A[i].(key := v);
  }

  lemma FirstCheapest(w: seq<nat>, g: Merge)
    requires |w| >= 2 && Sorted(w) && g == Merge([w[0]], [w[1]], [w[0] + w[1]])
    ensures Cheapest(w, 0, 2, g)
  {
    var x, y, rest := w[0], w[1], w[2..];
    assert w == [x, y] + rest;
    assert g.weight[0..] + w[2..] + (g.first[1..] + g.second[1..]) == [x + y] + rest;
    assert [x + y][1..] == [] && Sum([x + y]) == x + y;
    forall c: nat | Redundancy.AtLeast(Pool(w, 0, 2, g), c) ensures Redundancy.AtLeast(w, c + Sum(g.weight)) {
      Redundancy.Merging(x, y, rest, c);
    }
  }

  lemma FirstLevelled(w: seq<nat>, a: seq<nat>, g: Merge)
    requires |w| >= 2 && Tame(w) && a == w[0 := (w[0] + w[1]) % 0x10000] && g == Merge([w[0]], [w[1]], [a[0]])
    ensures Levelled(w, a, 0, g)
  {
    if |w| >= 3 {
      SumPop(w, 0);
      SumPop(w, 1);
      SumPop(w, 2);
      assert w[0..] == w;
      assert w[..2] == [w[0], w[1]] && w[..2][1..] == [w[1]] && w[..2][1..][1..] == [];
      assert g.weight[0..1] == [w[0] + w[1]] && g.weight[0..1][1..] == [];
    }
  }

  lemma FirstNode(w: seq<nat>, a: seq<nat>) returns (g: Merge)
    requires |w| >= 2 && a == w[0 := (w[0] + w[1]) % 0x10000]
    ensures g == Merge([w[0]], [w[1]], [a[0]]) && Shape(|w|, w, a, 0, 2, g)
    ensures Tame(w) ==> if |w| == 2 then Merged(w, g) else Balanced(w, 0, 2, g, w[1])
    ensures Tame(w) ==> Levelled(w, a, 0, g)
  {
    hide *;
    g := Merge([w[0]], [w[1]], [a[0]]);
    FirstShape(w, a, g);
    if Tame(w) {
      FirstLevelled(w, a, g);
      if |w| == 2 {
        FirstOnly(w, a, g);
      } else {
        FirstBalanced(w, a, g);
      }
    }
  }

  lemma FirstShape(w: seq<nat>, a: seq<nat>, g: Merge)
    requires |w| >= 2 && a == w[0 := (w[0] + w[1]) % 0x10000] && g == Merge([w[0]], [w[1]], [a[0]])
    ensures Shape(|w|, w, a, 0, 2, g)
  {
  }

  lemma FirstOnly(w: seq<nat>, a: seq<nat>, g: Merge)
    requires |w| == 2 && Tame(w) && a == w[0 := (w[0] + w[1]) % 0x10000] && g == Merge([w[0]], [w[1]], [a[0]])
    ensures Merged(w, g)
  {
    SumPop(w, 0);
    SumPop(w, 1);
    assert w[0..] == w && w[2..] == [];
    TwoWeights(w[0], w[1]);
    assert w == [w[0], w[1]] && g.weight[..0] == [] && Sum([]) == 0;
  }

  lemma FirstBalanced(w: seq<nat>, a: seq<nat>, g: Merge)
    requires |w| > 2 && Tame(w) && a == w[0 := (w[0] + w[1]) % 0x10000] && g == Merge([w[0]], [w[1]], [a[0]])
    ensures Balanced(w, 0, 2, g, w[1])
  {
    SumPop(w, 0);
    SumPop(w, 1);
    assert w[0..] == w;
    FirstCheapest(w, g);
    SumPop(w, 2);
    assert a[0] == w[0] + w[1];
    assert g.weight[0..] == [a[0]];
    SumPop([a[0]], 0);
    assert [a[0]][1..] == [];
    assert g.first[1..] == [] && g.second[1..] == [];
  }

  /** One of the two picks of an iteration: the lighter queue head is added to slot next, which
      holds base so far; a picked internal node gets next as its parent. */
  method PickInto(A: array<SymFreq>, n: nat, root: nat, leaf: nat, next: nat, base: uint16,
                  ghost w: seq<nat>, ghost g: Merge, ghost last: nat)
    returns (root': nat, leaf': nat, ghost g': Merge, ghost last': nat)
    requires root <= next < n <= A.Length && next < leaf <= n && next < 0x10000
    requires leaf >= n ==> root < next
    requires |g.second| == |g.weight| == next && |w| == n
    requires Merging(w, Queues(KeysOf(A, n), root, leaf), g, last)
    modifies A
    ensures root' <= next && next < leaf' <= n && root' + leaf' == root + leaf + 1
    ensures g' == Pick(g, last') && Merging(w, Queues(KeysOf(A, n), root', leaf'), g', last')
    ensures A[next].key == (base + last') % 0x10000
    ensures OnlyKeys(A, n)
  {
    hide Merging;
    ghost var q := Queues(KeysOf(A, n), root, leaf);
    last' := Head(q, next);
    g' := Pick(g, last');
    PickMerging(w, q, g, (base + last') % 0x10000, last);
    root', leaf' := root, leaf;
    if leaf >= n || (root < next && A[root].key < A[leaf].key) {
      SetKey(A, n, next, (base + A[root].key) % 0x10000);
      SetKey(A, n, root, next);
      root' := root + 1;
    } else {
      SetKey(A, n, next, (base + A[leaf].key) % 0x10000);
      leaf' := leaf + 1;
    }
    assert Queues(KeysOf(A, n), root', leaf') == Advance(q, next, (base + last') % 0x10000);
  }

  /** The first pass: who every internal node's parent is. */
  method MergeAll(A: array<SymFreq>, n: nat) returns (ghost g: Merge)
    requires 2 <= n <= A.Length && n <= 0x10000
    modifies A
    ensures OnlyKeys(A, n)
    ensures |g.weight| == |g.first| == |g.second| == n - 1
    ensures Shape(n, old(KeysOf(A, n)), KeysOf(A, n), n - 2, n, g)
    ensures Tame(old(KeysOf(A, n))) ==> Merged(old(KeysOf(A, n)), g) && Levelled(old(KeysOf(A, n)), KeysOf(A, n), n - 2, g)
  {
    hide Shape, Merged, Balanced, Levelled, Tame, Keys, PickCount;
    ghost var w := KeysOf(A, n);
    SetKey(A, n, 0, (A[0].key + A[1].key) % 0x10000);
    g := FirstNode(w, KeysOf(A, n));
    ghost var last: nat := w[1];
    var root: nat, leaf: nat, next: nat := 0, 2, 1;
    while next < n - 1
      invariant 1 <= next <= n - 1
      invariant |g.weight| == |g.first| == |g.second| == next
      invariant root < next < leaf <= n && root + leaf == 2 * next
      invariant Shape(n, w, KeysOf(A, n), root, leaf, g)
      invariant Tame(w) ==> if next == n - 1 then Merged(w, g) else Balanced(w, root, leaf, g, last)
      invariant Tame(w) ==> Levelled(w, KeysOf(A, n), root, g)
      invariant OnlyKeys(A, n)
    {
      root, leaf, g, last := PickInto(A, n, root, leaf, next, 0, w, g, last);
      root, leaf, g, last := PickInto(A, n, root, leaf, next, A[next].key, w, g, last);
      ghost var q := Queues(KeysOf(A, n), root, leaf);
      FinishMerging(w, q, g);
      g := Finish(g);
      SameSlot(q.a, next, g.weight[next]);
      next := next + 1;
    }
  }

  lemma SameSlot(a: seq<nat>, i: nat, v: nat)
    requires i < |a| && a[i] == v
    ensures a[i := v] == a
  {
  }

  // ---- Second and third pass: from parents to depths, and from internal depths to code lengths.

  /** The depth of internal node k below the root, node n - 2. */
  ghost function Depth(p: seq<nat>, n: nat, k: nat): (d: nat)
    requires n >= 2 && k <= n - 2 <= |p| && Parents(p, n - 2, n - 1)
    ensures d <= n - 2 - k
    ensures d == 0 <==> k == n - 2
    decreases n - k
  {
    if k == n - 2 then 0 else 1 + Depth(p, n, p[k])
  }

  lemma {:induction false} DepthFalls(p: seq<nat>, n: nat, j: nat, k: nat)
    requires n >= 2 && j <= k <= n - 2 <= |p| && Parents(p, n - 2, n - 1)
    ensures Depth(p, n, j) >= Depth(p, n, k)
    decreases n - j
  {
    if k < n - 2 {
      DepthFalls(p, n, p[j], p[k]);
    }
  }

  /** No node has three children, so a level is at most twice as wide as the one above it. */
  lemma {:induction false} LevelWidth(p: seq<nat>, n: nat, lo: nat, hi: nat)
    requires n >= 2 && lo <= hi < n - 2 <= |p| && Parents(p, n - 2, n - 1)
    ensures hi - lo <= 2 * (p[hi] - p[lo]) + 1
    decreases hi - lo
  {
    if hi - lo >= 2 {
      LevelWidth(p, n, lo, hi - 2);
      assert p[hi - 2] < p[hi];
    }
  }

  lemma FibGrows(a: nat, b: nat)
    requires a <= b
    ensures Fib(a) <= Fib(b)
    decreases b
  {
    if a < b {
      FibGrows(a, b - 1);
    }
  }

  /** Every step up adds a sibling at least as heavy as the heavier child left behind. */
  lemma {:induction false} Climb(w: seq<nat>, p: seq<nat>, n: nat, g: Merge, k: nat, m: nat)
    requires n == |w| >= 2 && k <= n - 2 <= |p| && Parents(p, n - 2, n - 1) && Merged(w, g)
    requires forall i :: 0 <= i < n - 2 ==> PickedBy(g, g.weight[i], p[i])
    requires g.first[k] + g.second[k] >= Fib(m + 1) && g.second[k] >= Fib(m)
    ensures Fib(m + 1 + Depth(p, n, k)) <= Sum(w)
    decreases n - k
  {
    hide Merged, PickedBy, Parents;
    if k < n - 2 {
      ParentWeighs(w, p, n, g, k);
      DepthStep(p, n, k);
      assert Fib(m + 2) == Fib(m + 1) + Fib(m);
      hide Depth, Fib;
      Climb(w, p, n, g, p[k], m + 1);
    } else {
      MergedTop(w, p, n, g);
    }
  }

  /** A parent weighs what its child weighs, and at least the heavier of the child's children once more. */
  lemma ParentWeighs(w: seq<nat>, p: seq<nat>, n: nat, g: Merge, k: nat)
    requires n == |w| >= 2 && k < n - 2 <= |p| && Parents(p, n - 2, n - 1) && Merged(w, g)
    requires PickedBy(g, g.weight[k], p[k])
    ensures k < p[k] <= n - 2 && |g.first| == |g.second| == n - 1
    ensures g.first[p[k]] + g.second[p[k]] >= g.first[k] + g.second[k] + g.second[k]
    ensures g.second[p[k]] >= g.first[k] + g.second[k]
  {
    hide Sum, Redundancy.AtLeast;
    var q := p[k];
    assert g.second[k] <= g.first[q] <= g.second[q];
  }

  lemma MergedTop(w: seq<nat>, p: seq<nat>, n: nat, g: Merge)
    requires n == |w| >= 2 && n - 2 <= |p| && Parents(p, n - 2, n - 1) && Merged(w, g)
    ensures |g.first| == |g.second| == n - 1 && g.first[n - 2] + g.second[n - 2] == Sum(w) && Depth(p, n, n - 2) == 0
  {
  }

  lemma DepthFib(w: seq<nat>, p: seq<nat>, n: nat, g: Merge, k: nat)
    requires n == |w| >= 2 && k <= n - 2 <= |p| && Parents(p, n - 2, n - 1) && Merged(w, g)
    requires forall i :: 0 <= i < n - 2 ==> PickedBy(g, g.weight[i], p[i])
    ensures Fib(Depth(p, n, k) + 3) <= Sum(w)
  {
    assert Fib(2) == 1 && Fib(3) == 2;
    assert g.first[k] >= 1 && g.second[k] >= g.first[k];
    hide Merged, Fib, Depth;
    Climb(w, p, n, g, k, 2);
  }

  lemma {:induction false} KraftCons(x: nat, s: seq<nat>, m: nat)
    ensures Kraft([x] + s, m) == Kraft(s, m) + if 0 < x <= m then Pow2(m - x) else 0
  {
    if s == [] {
      assert [x] + s == [x];
      assert [x][..0] == [];
    } else {
      KraftCons(x, s[..|s| - 1], m);
      assert ([x] + s)[..|s|] == [x] + s[..|s| - 1];
    }
  }

  method FindDepths(A: array<SymFreq>, n: nat)
    requires 2 <= n <= A.Length && n <= 0x10000
    requires Parents(KeysOf(A, n), n - 2, n - 1)
    modifies A
    ensures OnlyKeys(A, n)
    ensures forall k :: 0 <= k <= n - 2 ==> A[k].key == Depth(old(KeysOf(A, n)), n, k)
  {
    hide Keys, Parents;
    ghost var p := KeysOf(A, n);
    SetKey(A, n, n - 2, 0);
    var next := n - 3;
    while next >= 0
      invariant -1 <= next <= n - 3
      invariant OnlyKeys(A, n)
      invariant forall k :: 0 <= k <= next ==> A[k].key == p[k]
      invariant forall k :: next < k <= n - 2 ==> A[k].key == Depth(p, n, k)
    {
      DepthStep(p, n, next);
      SetKey(A, n, next, A[A[next].key].key + 1);
      next := next - 1;
    }
  }

  /** Internal nodes 0..root lie at depth dpth or below, root..prev just above dpth: they leave
      avbl places at depth dpth. */
  ghost predicate Levels(p: seq<nat>, n: nat, root: int, prev: int, avbl: int, dpth: nat)
    requires n >= 2 && n - 2 <= |p| && Parents(p, n - 2, n - 1)
  {
    && -1 <= root <= prev <= n - 2 && dpth <= n
    && avbl == (if dpth == 0 then 1 else 2 * (prev - root))
    && (dpth == 0 ==> root == n - 2)
    && (forall k :: 0 <= k <= root ==> Depth(p, n, k) >= dpth)
    && (forall k :: root < k <= prev ==> Depth(p, n, k) == dpth - 1)
    && (forall k :: prev < k <= n - 2 ==> Depth(p, n, k) < dpth - 1)
  }

  /** One level down: the nodes at depth dpth fit the places there and open two places each. */
  lemma NextLevel(p: seq<nat>, n: nat, root: int, prev: int, avbl: int, dpth: nat, root': int)
    requires n >= 2 && n - 2 <= |p| && Parents(p, n - 2, n - 1)
    requires Levels(p, n, root, prev, avbl, dpth) && avbl > 0
    requires -1 <= root' <= root
    requires forall k :: root' < k <= root ==> Depth(p, n, k) == dpth
    requires root' >= 0 ==> Depth(p, n, root') != dpth
    ensures root - root' <= avbl && dpth < n
    ensures dpth == 0 ==> root - root' == 1
    ensures Levels(p, n, root', root, 2 * (root - root'), dpth + 1)
  {
    if dpth == 0 {
      assert Depth(p, n, n - 2) == 0;
      assert n >= 3 ==> Depth(p, n, n - 3) != 0;
    } else {
      assert Depth(p, n, prev) == dpth - 1;
      if root' < root {
        var lo, hi := root' + 1, root;
        LevelWidth(p, n, lo, hi);
        assert Depth(p, n, lo) == 1 + Depth(p, n, p[lo]) && Depth(p, n, hi) == 1 + Depth(p, n, p[hi]);
        assert root < p[lo] <= p[hi] <= prev;
      }
    }
    forall k | 0 <= k <= root'
      ensures Depth(p, n, k) >= dpth + 1
    {
      DepthFalls(p, n, k, root');
    }
  }

  lemma ParentAbove(p: seq<nat>, n: nat, k: nat, dpth: nat)
    requires n >= 2 && n - 2 <= |p| && Parents(p, n - 2, n - 1)
    requires k <= n - 2 && Depth(p, n, k) >= dpth >= 1
    ensures exists q :: k < q <= n - 2 && Depth(p, n, q) >= dpth - 1
  {
    assert Depth(p, n, k) == 1 + Depth(p, n, p[k]);
  }

  /** When no place is left, no node is left. */
  lemma NoneLeft(p: seq<nat>, n: nat, root: int, prev: int, dpth: nat)
    requires n >= 2 && n - 2 <= |p| && Parents(p, n - 2, n - 1)
    requires Levels(p, n, root, prev, 0, dpth)
    ensures root == -1
  {
    assert root == prev && dpth >= 1;
    if root >= 0 {
      ParentAbove(p, n, root, dpth);
    }
  }

  ghost predicate Falling(s: seq<nat>) {
    forall i, j :: 0 <= i <= j < |s| ==> s[i] >= s[j]
  }

  /** Code lengths given out so far, deepest places still open. */
  ghost predicate GivenOut(lens: seq<nat>, n: nat, avbl: int, dpth: nat) {
    && Falling(lens) && dpth <= n && avbl >= 0
    && (forall i :: 0 <= i < |lens| ==> 1 <= lens[i] <= dpth)
    && Kraft(lens, n) + avbl * Pow2(n - dpth) == Pow2(n)
  }

  lemma GiveOut(lens: seq<nat>, n: nat, avbl: int, dpth: nat)
    requires GivenOut(lens, n, avbl, dpth) && avbl >= 1 && dpth >= 1
    ensures GivenOut([dpth] + lens, n, avbl - 1, dpth)
  {
    KraftCons(dpth, lens, n);
    assert avbl * Pow2(n - dpth) == (avbl - 1) * Pow2(n - dpth) + Pow2(n - dpth);
  }

  lemma GoDown(lens: seq<nat>, n: nat, used: nat, dpth: nat)
    requires GivenOut(lens, n, used, dpth) && dpth < n
    ensures GivenOut(lens, n, 2 * used, dpth + 1)
  {
    assert Pow2(n - dpth) == 2 * Pow2(n - dpth - 1);
    MulTwo(used, Pow2(n - dpth - 1));
  }

  // ---- What the code lengths cost.

  ghost predicate SplitAll(p: seq<nat>, n: nat, m: nat, r: nat)
    requires n >= 2
  {
    Split(p, n - 2, m, r)
  }

  /** The leaves that the first m nodes took, without the nodes among them, weigh what the other nodes of
      the m weigh; wt has the weights of all nodes. */
  ghost predicate LevelSums(w: seq<nat>, wt: seq<nat>, p: seq<nat>, n: nat) {
    && |w| == n >= 2 && |wt| == n - 1
    && forall m: nat, r: nat :: 1 <= m < n && SplitAll(p, n, m, r) ==>
      r <= 2 * m && 2 * m - r <= n && Sum(w[..2 * m - r]) == Sum(wt[r..m])
  }

  lemma LevelSumsFound(w: seq<nat>, p: seq<nat>, n: nat, g: Merge)
    requires |w| == |p| == n >= 2 && Merged(w, g) && Levelled(w, p, n - 2, g) && Parents(p, n - 2, n - 1)
    ensures LevelSums(w, g.weight[..n - 2] + [Sum(w)], p, n)
  {
    var wt := g.weight[..n - 2] + [Sum(w)];
    forall m: nat, r: nat | 1 <= m < n && SplitAll(p, n, m, r)
      ensures r <= 2 * m && 2 * m - r <= n && Sum(w[..2 * m - r]) == Sum(wt[r..m])
    {
      if m < n - 1 {
        assert wt[r..m] == g.weight[r..m];
      } else {
        AllBelow(p, n - 2, m, r);
        AllTaken(w, wt, n);
      }
    }
  }

  lemma AllTaken(w: seq<nat>, wt: seq<nat>, n: nat)
    requires |w| == n >= 2 && |wt| == n - 1 && wt[n - 2] == Sum(w)
    ensures Sum(w[..n]) == Sum(wt[n - 2..n - 1])
  {
    assert w[..n] == w && wt[n - 2..n - 1] == [Sum(w)] && [Sum(w)][1..] == [];
  }

  /** The nodes above some depth split the nodes below it off. */
  lemma LevelSplit(p: seq<nat>, n: nat, root: nat, root': int, dpth: nat)
    requires n >= 2 && n - 2 <= |p| && Parents(p, n - 2, n - 1)
    requires -1 <= root' <= root <= n - 2
    requires forall k :: 0 <= k <= root' ==> Depth(p, n, k) >= dpth + 1
    requires forall k :: root' < k <= root ==> Depth(p, n, k) == dpth
    requires forall k :: root < k <= n - 2 ==> Depth(p, n, k) < dpth
    ensures SplitAll(p, n, root + 1, root' + 1)
  {
    var m, r := root + 1, root' + 1;
    assert Depth(p, n, n - 2) == 0;
    forall k | 0 <= k < r ensures p[k] < m {
      DepthStep(p, n, k);
    }
    forall k | r <= k < n - 2 ensures p[k] >= m {
      DepthStep(p, n, k);
    }
  }

  lemma DepthStep(p: seq<nat>, n: nat, k: nat)
    requires n >= 2 && k < n - 2 <= |p| && Parents(p, n - 2, n - 1)
    ensures k < p[k] <= n - 2 && Depth(p, n, k) == 1 + Depth(p, n, p[k])
  {
  }

  /** The nodes at one depth weigh what the leaves below them weigh. */
  lemma LevelSum(w: seq<nat>, wt: seq<nat>, p: seq<nat>, n: nat, root: int, root': int, dpth: nat)
    requires LevelSums(w, wt, p, n) && n - 2 <= |p| && Parents(p, n - 2, n - 1) && dpth <= n
    requires -1 <= root' <= root <= n - 2 && 2 * (root - root') + root' + 1 <= n
    requires Levels(p, n, root', root, 2 * (root - root'), dpth + 1)
    ensures Sum(w[..2 * (root - root') + root' + 1]) == Sum(wt[root' + 1..root + 1])
  {
    hide Depth, Sum;
    if root == -1 {
      assert w[..0] == [] && wt[0..0] == [];
    } else {
      LevelSplit(p, n, root, root', dpth);
      hide Levels, Parents, SplitAll;
      assert 2 * (root + 1) - (root' + 1) == 2 * (root - root') + root' + 1;
    }
  }

  /** The lengths given out, and what the other leaves cost down to this depth, are the weights of the nodes
      so far. */
  ghost predicate CostSoFar(w: seq<nat>, wt: seq<nat>, a: seq<nat>, root: int, next: int, dpth: nat) {
    && |w| == |a| && -1 <= root < |wt| && -1 <= next < |w|
    && Redundancy.Cost(w[next + 1..], a[next + 1..]) + dpth * Sum(w[..next + 1]) == Sum(wt[root + 1..])
  }

  lemma {:induction false} CostGiven(w: seq<nat>, a: seq<nat>, a': seq<nat>, next: int, next': int, dpth: nat)
    requires |w| == |a| == |a'| && -1 <= next' <= next < |w|
    requires forall k :: next' < k <= next ==> a'[k] == dpth
    requires forall k :: next < k < |w| ==> a'[k] == a[k]
    ensures Redundancy.Cost(w[next' + 1..], a'[next' + 1..])
      == Redundancy.Cost(w[next + 1..], a[next + 1..]) + dpth * Sum(w[next' + 1..next + 1])
    decreases next - next'
  {
    if next' == next {
      assert a'[next + 1..] == a[next + 1..];
      assert w[next + 1..next + 1] == [] && Sum([]) == 0;
    } else {
      CostGiven(w, a, a', next, next' + 1, dpth);
      var i := next' + 1;
      CostHead(w, a', i);
      SumHead(w, i, next + 1);
      hide Sum, Redundancy.Cost;
      MulSum(dpth, w[i], Sum(w[i + 1..next + 1]));
    }
  }

  lemma CostHead(w: seq<nat>, a: seq<nat>, i: nat)
    requires i < |w| == |a|
    ensures Redundancy.Cost(w[i..], a[i..]) == w[i] * a[i] + Redundancy.Cost(w[i + 1..], a[i + 1..])
  {
    assert w[i..][1..] == w[i + 1..] && a[i..][1..] == a[i + 1..];
  }

  lemma SumHead(w: seq<nat>, i: nat, j: nat)
    requires i < j <= |w|
    ensures Sum(w[i..j]) == w[i] + Sum(w[i + 1..j])
  {
    assert w[i..j][1..] == w[i + 1..j];
  }

  lemma MulSum(d: nat, x: nat, y: nat)
    ensures d * (x + y) == x * d + d * y
  {
  }

  lemma SumMiddle(w: seq<nat>, i: nat, j: nat)
    requires i <= j <= |w|
    ensures Sum(w[..j]) == Sum(w[..i]) + Sum(w[i..j]) && Sum(w[i..]) == Sum(w[i..j]) + Sum(w[j..])
  {
    SumSplit(w[..j], i);
    assert w[..j][..i] == w[..i] && w[..j][i..] == w[i..j];
    SumSplit(w[i..], j - i);
    assert w[i..][..j - i] == w[i..j] && w[i..][j - i..] == w[j..];
  }

  /** One level further down: the leaves that go on cost one bit more each, which is what the nodes there
      weigh. */
  lemma CostLevel(w: seq<nat>, wt: seq<nat>, a: seq<nat>, a': seq<nat>, root: int, root': int, next: int, next': int, dpth: nat)
    requires CostSoFar(w, wt, a, root, next, dpth) && |a'| == |a|
    requires -1 <= root' <= root && -1 <= next' <= next
    requires forall k :: next' < k <= next ==> a'[k] == dpth
    requires forall k :: next < k < |w| ==> a'[k] == a[k]
    requires Sum(w[..next' + 1]) == Sum(wt[root' + 1..root + 1])
    ensures CostSoFar(w, wt, a', root', next', dpth + 1)
  {
    CostGiven(w, a, a', next, next', dpth);
    SumMiddle(w, next' + 1, next + 1);
    SumMiddle(wt, root' + 1, root + 1);
    hide Sum, Redundancy.Cost;
    var x, y := Sum(w[..next' + 1]), Sum(w[next' + 1..next + 1]);
    MulSum(dpth, x, y);
    MulSum(x, dpth, 1);
  }

  lemma CostStart(w: seq<nat>, wt: seq<nat>, a: seq<nat>)
    requires |w| == |a| == |wt| + 1
    ensures CostSoFar(w, wt, a, |w| - 2, |w| - 1, 0)
  {
    assert w[|w|..] == [] && wt[|wt|..] == [] && Sum([]) == 0;
  }

  lemma CostEnd(w: seq<nat>, wt: seq<nat>, a: seq<nat>, dpth: nat)
    requires CostSoFar(w, wt, a, -1, -1, dpth)
    ensures Redundancy.Cost(w, a) == Sum(wt)
  {
    assert w[0..] == w && a[0..] == a && wt[0..] == wt && w[..0] == [] && Sum([]) == 0;
  }

  /** v is the depth of a leaf: one below some internal node. */
  ghost predicate LeafDepth(p: seq<nat>, n: nat, v: nat)
    requires n >= 2 && n - 2 <= |p| && Parents(p, n - 2, n - 1)
  {
    exists k :: 0 <= k <= n - 2 && Depth(p, n, k) + 1 == v
  }

  /** Slots 0..root still hold depths, slots after next hold code lengths. */
  ghost predicate Giving(a: seq<nat>, p: seq<nat>, n: nat, root: int, next: int, avbl: int, dpth: nat)
    requires n >= 2 && n - 2 <= |p| && Parents(p, n - 2, n - 1)
  {
    && |a| == n && -1 <= root <= n - 2 && root <= next < n && next >= -1
    && (forall k :: 0 <= k <= root ==> a[k] == Depth(p, n, k))
    && GivenOut(a[next + 1..], n, avbl, dpth)
    && (forall i :: next < i < n ==> LeafDepth(p, n, a[i]))
  }

  lemma GiveSlot(a: seq<nat>, p: seq<nat>, n: nat, root: int, next: int, avbl: int, dpth: nat)
    requires n >= 2 && n - 2 <= |p| && Parents(p, n - 2, n - 1)
    requires Giving(a, p, n, root, next, avbl, dpth) && avbl >= 1 && dpth >= 1 && root < next
    requires LeafDepth(p, n, dpth)
    ensures Giving(a[next := dpth], p, n, root, next - 1, avbl - 1, dpth)
  {
    hide GivenOut, LeafDepth;
    GiveOut(a[next + 1..], n, avbl, dpth);
    assert a[next := dpth][next..] == [dpth] + a[next + 1..];
  }

  /** Gives dpth to the places of one level that no internal node takes. */
  method GiveLevel(A: array<SymFreq>, n: nat, root: int, next: int, avbl: int, used: nat, dpth: uint16,
                   ghost p: seq<nat>)
    returns (next': int, avbl': int)
    requires 2 <= n <= A.Length
    requires n - 2 <= |p| && Parents(p, n - 2, n - 1)
    requires Giving(KeysOf(A, n), p, n, root, next, avbl, dpth)
    requires used <= avbl && next == avbl + used + root
    requires used < avbl ==> dpth >= 1 && LeafDepth(p, n, dpth)
    modifies A
    ensures OnlyKeys(A, n)
    ensures avbl' == used && next' == used + used + root
    ensures Giving(KeysOf(A, n), p, n, root, next', avbl', dpth)
    ensures forall k :: next' < k <= next ==> KeysOf(A, n)[k] == dpth
    ensures forall k :: next < k < n ==> KeysOf(A, n)[k] == old(KeysOf(A, n))[k]
  {
    hide LeafDepth;
    next', avbl' := next, avbl;
    while avbl' > used
      invariant used <= avbl' && next' == avbl' + used + root
      invariant OnlyKeys(A, n)
      invariant Giving(KeysOf(A, n), p, n, root, next', avbl', dpth)
      invariant forall k :: next' < k <= next ==> KeysOf(A, n)[k] == dpth
      invariant forall k :: next < k < n ==> KeysOf(A, n)[k] == old(KeysOf(A, n))[k]
    {
      GiveSlot(KeysOf(A, n), p, n, root, next', avbl', dpth);
      SetKey(A, n, next', dpth);
      next' := next' - 1;
      avbl' := avbl' - 1;
    }
  }

  lemma StartGiving(a: seq<nat>, p: seq<nat>, n: nat)
    requires n >= 2 && n - 2 <= |p| && Parents(p, n - 2, n - 1) && |a| == n
    requires forall k :: 0 <= k <= n - 2 ==> a[k] == Depth(p, n, k)
    ensures Levels(p, n, n - 2, n - 2, 1, 0) && Giving(a, p, n, n - 2, n - 1, 1, 0)
  {
    assert Kraft([], n) == 0;
    assert a[n..] == [];
    assert Depth(p, n, n - 2) == 0;
  }

  lemma EndGiving(a: seq<nat>, p: seq<nat>, n: nat, root: int, prev: int, dpth: nat)
    requires n >= 2 && n - 2 <= |p| && Parents(p, n - 2, n - 1)
    requires Levels(p, n, root, prev, 0, dpth) && Giving(a, p, n, root, root, 0, dpth)
    ensures Falling(a) && Complete(a, n) && forall i :: 0 <= i < n ==> LeafDepth(p, n, a[i])
  {
    NoneLeft(p, n, root, prev, dpth);
    assert a[root + 1..] == a;
  }

  /** What one round of the third pass does to the places, the nodes and the slots. */
  lemma DownOneLevel(a: seq<nat>, p: seq<nat>, n: nat, root: int, next: int, used: nat, dpth: nat)
    requires n >= 2 && n - 2 <= |p| && Parents(p, n - 2, n - 1)
    requires Giving(a, p, n, root, next, used, dpth) && dpth < n
    ensures Giving(a, p, n, root, next, 2 * used, dpth + 1)
  {
    GoDown(a[next + 1..], n, used, dpth);
  }

  /** Counts the internal nodes at depth dpth. */
  method CountLevel(A: array<SymFreq>, n: nat, root: int, next: int, avbl: int, dpth: nat,
                    ghost prev: int, ghost p: seq<nat>)
    returns (root': int, used: nat)
    requires 2 <= n <= A.Length
    requires n - 2 <= |p| && Parents(p, n - 2, n - 1)
    requires Levels(p, n, root, prev, avbl, dpth) && avbl > 0
    requires Giving(KeysOf(A, n), p, n, root, next, avbl, dpth)
    ensures -1 <= root' <= root && used == root - root' && used <= avbl && dpth < n
    ensures used < avbl ==> dpth >= 1 && LeafDepth(p, n, dpth)
    ensures Levels(p, n, root', root, 2 * used, dpth + 1)
  {
    root', used := root, 0;
    while root' >= 0 && A[root'].key == dpth
      invariant -1 <= root' <= root && used == root - root'
      invariant forall k :: root' < k <= root ==> Depth(p, n, k) == dpth
    {
      used := used + 1;
      root' := root' - 1;
    }
    NextLevel(p, n, root, prev, avbl, dpth, root');
    assert dpth >= 1 ==> Depth(p, n, prev) + 1 == dpth;
  }

  lemma FewerLeft(a: seq<nat>, p: seq<nat>, n: nat, root: int, root': int, next: int, avbl: int, dpth: nat)
    requires n >= 2 && n - 2 <= |p| && Parents(p, n - 2, n - 1)
    requires Giving(a, p, n, root, next, avbl, dpth) && -1 <= root' <= root
    ensures Giving(a, p, n, root', next, avbl, dpth)
  {
  }

  /** The cost so far, when the weights of the nodes are sums of leaves. */
  ghost predicate CostKept(w: seq<nat>, wt: seq<nat>, p: seq<nat>, n: nat, a: seq<nat>, root: int, next: int, dpth: nat) {
    LevelSums(w, wt, p, n) ==> CostSoFar(w, wt, a, root, next, dpth)
  }

  lemma CostKeptStart(w: seq<nat>, wt: seq<nat>, p: seq<nat>, n: nat, a: seq<nat>)
    requires |a| == n
    ensures CostKept(w, wt, p, n, a, n - 2, n - 1, 0)
  {
    hide CostSoFar;
    if LevelSums(w, wt, p, n) {
      CostStart(w, wt, a);
    }
  }

  lemma CostKeptLevel(w: seq<nat>, wt: seq<nat>, p: seq<nat>, n: nat, a: seq<nat>, a': seq<nat>, root: int, root': int,
                      next: int, next': int, dpth: nat)
    requires n >= 2 && n - 2 <= |p| && Parents(p, n - 2, n - 1) && dpth <= n && |a| == |a'| == n
    requires CostKept(w, wt, p, n, a, root, next, dpth)
    requires -1 <= root' <= root <= n - 2 && -1 <= next' == 2 * (root - root') + root' <= next < n
    requires Levels(p, n, root', root, 2 * (root - root'), dpth + 1)
    requires forall k :: next' < k <= next ==> a'[k] == dpth
    requires forall k :: next < k < n ==> a'[k] == a[k]
    ensures CostKept(w, wt, p, n, a', root', next', dpth + 1)
  {
    hide Levels, Parents, CostSoFar, LevelSums;
    if LevelSums(w, wt, p, n) {
      SumsSized(w, wt, p, n);
      CostBounds(w, wt, a, root, next, dpth);
      LevelSum(w, wt, p, n, root, root', dpth);
      CostLevel(w, wt, a, a', root, root', next, next', dpth);
    }
  }

  lemma CostKeptEnd(w: seq<nat>, wt: seq<nat>, p: seq<nat>, n: nat, a: seq<nat>, dpth: nat)
    requires CostKept(w, wt, p, n, a, -1, -1, dpth)
    ensures LevelSums(w, wt, p, n) ==> Redundancy.Cost(w, a) == Sum(wt)
  {
    hide CostSoFar, LevelSums;
    if LevelSums(w, wt, p, n) {
      CostEnd(w, wt, a, dpth);
    }
  }

  /** The third pass: code lengths for the frequencies, longest first, from internal depths. */
  method LeafLengths(A: array<SymFreq>, n: nat, ghost p: seq<nat>, ghost w: seq<nat>, ghost wt: seq<nat>)
    requires 2 <= n <= A.Length && n < 0x10000
    requires n - 2 <= |p| && Parents(p, n - 2, n - 1)
    requires forall k :: 0 <= k <= n - 2 ==> A[k].key == Depth(p, n, k)
    modifies A
    ensures OnlyKeys(A, n)
    ensures Falling(KeysOf(A, n)) && Complete(KeysOf(A, n), n)
    ensures forall i :: 0 <= i < n ==> LeafDepth(p, n, A[i].key)
    ensures LevelSums(w, wt, p, n) ==> Redundancy.Cost(w, KeysOf(A, n)) == Sum(wt)
  {
    hide Levels, Giving, LeafDepth, Falling, Complete, Parents, LevelSums, CostKept, Sum, Redundancy.Cost, Depth, Keys;
    CostKeptStart(w, wt, p, n, KeysOf(A, n));
    var avbl: int, dpth: nat := 1, 0;
    var root, next := n - 2, n - 1;
    ghost var prev := n - 2;
    StartGiving(KeysOf(A, n), p, n);
    while avbl > 0
      invariant -1 <= root && next == avbl + root && dpth <= n && avbl >= 0
      invariant Levels(p, n, root, prev, avbl, dpth)
      invariant OnlyKeys(A, n)
      invariant Giving(KeysOf(A, n), p, n, root, next, avbl, dpth)
      invariant CostKept(w, wt, p, n, KeysOf(A, n), root, next, dpth)
      decreases root + 1, avbl
    {
      var root', used := CountLevel(A, n, root, next, avbl, dpth, prev, p);
      ghost var was, high := KeysOf(A, n), next;
      FewerLeft(KeysOf(A, n), p, n, root, root', next, avbl, dpth);
      next, avbl := GiveLevel(A, n, root', next, avbl, used, dpth, p);
      CostKeptLevel(w, wt, p, n, was, KeysOf(A, n), root, root', high, next, dpth);
      DownOneLevel(KeysOf(A, n), p, n, root', next, used, dpth);
      prev, root := root, root';
      avbl, dpth := 2 * used, dpth + 1;
    }
    EndGiving(KeysOf(A, n), p, n, root, prev, dpth);
    NoneLeft(p, n, root, prev, dpth);
    CostKeptEnd(w, wt, p, n, KeysOf(A, n), dpth);
  }

  lemma SumsSized(w: seq<nat>, wt: seq<nat>, p: seq<nat>, n: nat)
    requires LevelSums(w, wt, p, n)
    ensures |w| == n == |wt| + 1
  {
  }

  lemma CostBounds(w: seq<nat>, wt: seq<nat>, a: seq<nat>, root: int, next: int, dpth: nat)
    requires CostSoFar(w, wt, a, root, next, dpth)
    ensures |w| == |a| && -1 <= root < |wt| && -1 <= next < |w|
  {
  }

  /** The code lengths of n frequencies w: longest first and an exactly filled code. When 16 bits suffice
      for the sums, no prefix code takes fewer bits for a message with these frequencies, and no codeword
      is longer than the Fibonacci numbers allow. */
  ghost predicate MinimumRedundancyLengths(w: seq<nat>, lens: seq<nat>) {
    && |lens| == |w| && Falling(lens) && Positive(lens)
    && (|w| == 1 ==> lens == [1])
    && (|w| >= 2 ==> Complete(lens, |w|))
    && (|w| >= 2 && Tame(w) ==> Redundancy.AtLeast(w, Redundancy.Cost(w, lens)))
    && (|w| >= 2 && Tame(w) ==> forall i :: 0 <= i < |w| ==> Fib(lens[i] + 2) <= Sum(w))
  }

  /** Fib(26) is above anything 16 bits can carry here: no code is longer than 23 bits, well inside
      the 32 that the table of code counts has room for. */
  lemma LengthsFit(w: seq<nat>, lens: seq<nat>)
    requires |w| >= 1 && Tame(w) && MinimumRedundancyLengths(w, lens)
    ensures Bounded(lens, 23)
  {
    FibTable();
    forall i | 0 <= i < |lens|
      ensures lens[i] <= 23
    {
      if |w| >= 2 && lens[i] >= 24 {
        FibGrows(26, lens[i] + 2);
      }
    }
  }

  lemma FibTable()
    ensures Fib(26) == 121393
  {
    assert Fib(8) == 21 && Fib(9) == 34;
    assert Fib(10) == 55 && Fib(11) == 89 && Fib(12) == 144 && Fib(13) == 233;
    assert Fib(14) == 377 && Fib(15) == 610 && Fib(16) == 987 && Fib(17) == 1597;
    assert Fib(18) == 2584 && Fib(19) == 4181 && Fib(20) == 6765 && Fib(21) == 10946;
    assert Fib(22) == 17711 && Fib(23) == 28657 && Fib(24) == 46368 && Fib(25) == 75025;
  }

  lemma MergedParents(n: nat, w: seq<nat>, p: seq<nat>, g: Merge)
    requires n >= 2 && Shape(n, w, p, n - 2, n, g) && |g.weight| == |g.first| == n - 1
    ensures Parents(p, n - 2, n - 1)
    ensures forall i :: 0 <= i < n - 2 ==> PickedBy(g, g.weight[i], p[i])
  {
  }

  lemma LeavesBounded(n: nat, w: seq<nat>, p: seq<nat>, g: Merge, lens: seq<nat>)
    requires n == |w| == |lens| >= 2 && n - 2 <= |p| && Parents(p, n - 2, n - 1) && Merged(w, g)
    requires forall i :: 0 <= i < n - 2 ==> PickedBy(g, g.weight[i], p[i])
    requires forall i :: 0 <= i < n ==> LeafDepth(p, n, lens[i])
    ensures forall i :: 0 <= i < n ==> Fib(lens[i] + 2) <= Sum(w)
  {
    hide Fib, Merged;
    forall i | 0 <= i < n
      ensures Fib(lens[i] + 2) <= Sum(w)
    {
      assert LeafDepth(p, n, lens[i]);
      var k :| 0 <= k <= n - 2 && Depth(p, n, k) + 1 == lens[i];
      DepthFib(w, p, n, g, k);
    }
  }

  lemma LeavesPositive(p: seq<nat>, n: nat, lens: seq<nat>)
    requires n == |lens| >= 2 && n - 2 <= |p| && Parents(p, n - 2, n - 1)
    requires forall i :: 0 <= i < n ==> LeafDepth(p, n, lens[i])
    ensures Positive(lens)
  {
  }

  lemma MergedLeast(w: seq<nat>, g: Merge)
    requires Merged(w, g)
    ensures |w| >= 2 && |g.weight| == |w| - 1 && Redundancy.AtLeast(w, Sum(g.weight[..|w| - 2]) + Sum(w))
  {
  }

  lemma LengthsFound(n: nat, w: seq<nat>, p: seq<nat>, g: Merge, lens: seq<nat>)
    requires n == |w| == |lens| >= 2 && Shape(n, w, p, n - 2, n, g) && |g.weight| == |g.first| == n - 1
    requires Tame(w) ==> Merged(w, g)
    requires n - 2 <= |p| && Parents(p, n - 2, n - 1)
    requires forall i :: 0 <= i < n ==> LeafDepth(p, n, lens[i])
    requires Falling(lens) && Complete(lens, n)
    requires Tame(w) ==> Redundancy.Cost(w, lens) == Sum(g.weight[..n - 2] + [Sum(w)])
    ensures MinimumRedundancyLengths(w, lens)
  {
    hide Merged, Tame, Shape, Parents, PickedBy, LeafDepth, Falling, Complete, Fib, Sum, Depth, Positive,
      Redundancy.AtLeast, Redundancy.Cost;
    MergedParents(n, w, p, g);
    LeavesPositive(p, n, lens);
    if Tame(w) {
      LeavesBounded(n, w, p, g, lens);
      MergedLeast(w, g);
      SumSnoc(g.weight[..n - 2], Sum(w));
    }
  }

  method CalculateMinimumRedundancy(A: array<SymFreq>, n: nat)
    requires n <= A.Length && n < 0x10000
    modifies A
    ensures OnlyKeys(A, n)
    ensures MinimumRedundancyLengths(old(KeysOf(A, n)), KeysOf(A, n))
  {
    if n == 0 {
      return;
    } else if n == 1 {
      SetKey(A, 1, 0, 1);
      return;
    }
    hide Merged, Tame, Shape, Parents, LeafDepth, Falling, Complete, MinimumRedundancyLengths, Levelled, LevelSums,
      Sum, Redundancy.Cost;
    ghost var w := KeysOf(A, n);
    ghost var g := MergeAll(A, n);
    ghost var p := KeysOf(A, n);
    MergedParents(n, w, p, g);
    ghost var wt := g.weight[..n - 2] + [Sum(w)];
    if Tame(w) {
      LevelSumsFound(w, p, n, g);
    }
    FindDepths(A, n);
    LeafLengths(A, n, p, w, wt);
    LengthsFound(n, w, p, g, KeysOf(A, n));
  }
}
