/** What makes code lengths minimal (section 3.2.1 of RFC 1951 names the code): the cost of code lengths for
    weights, the lengths that some prefix code has, and why putting the two lightest weights together
    loses nothing. */
module Redundancy {
  import opened Arith
  import opened Bits

  /** How many bits a message takes in which each symbol occurs as often as it weighs. */
  function Cost(w: seq<nat>, lens: seq<nat>): nat
    requires |lens| == |w|
  {
    if w == [] then 0 else w[0] * lens[0] + Cost(w[1..], lens[1..])
  }

  /** Kraft's sum, in units of the length m. */
  function Taken(lens: seq<nat>, m: nat): nat
    requires forall i :: 0 <= i < |lens| ==> lens[i] <= m
  {
    if lens == [] then 0 else Pow2(m - lens[0]) + Taken(lens[1..], m)
  }

  /** Lengths of some prefix code, none longer than m. */
  ghost predicate Fits(lens: seq<nat>, m: nat) {
    (forall i :: 0 <= i < |lens| ==> lens[i] <= m) && Taken(lens, m) <= Pow2(m)
  }

  /** No prefix code for these weights costs less than c. */
  ghost predicate AtLeast(w: seq<nat>, c: nat) {
    forall lens: seq<nat>, m: nat :: |lens| == |w| && Fits(lens, m) ==> Cost(w, lens) >= c
  }

  // ---- Both sums at one place, and in another order.

  function Without<T>(s: seq<T>, i: nat): (r: seq<T>)
    requires i < |s|
    ensures |r| == |s| - 1
  {
    s[..i] + s[i + 1..]
  }

  lemma WithoutLater<T>(s: seq<T>, i: nat)
    requires 0 < i < |s|
    ensures Without(s, i) == [s[0]] + Without(s[1..], i - 1) && Without(s, i)[1..] == Without(s[1..], i - 1)
  {
  }

  lemma {:induction false} CostAt(w: seq<nat>, lens: seq<nat>, i: nat)
    requires |lens| == |w| && i < |w|
    ensures Cost(w, lens) == w[i] * lens[i] + Cost(Without(w, i), Without(lens, i))
  {
    if i == 0 {
      assert Without(w, 0) == w[1..] && Without(lens, 0) == lens[1..];
    } else {
      CostAt(w[1..], lens[1..], i - 1);
      WithoutLater(w, i);
      WithoutLater(lens, i);
    }
  }

  lemma {:induction false} TakenAt(lens: seq<nat>, m: nat, i: nat)
    requires (forall k :: 0 <= k < |lens| ==> lens[k] <= m) && i < |lens|
    ensures forall k :: 0 <= k < |lens| - 1 ==> Without(lens, i)[k] <= m
    ensures Taken(lens, m) == Pow2(m - lens[i]) + Taken(Without(lens, i), m)
  {
    hide Pow2;
    if i == 0 {
      assert Without(lens, 0) == lens[1..];
    } else {
      TakenAt(lens[1..], m, i - 1);
      WithoutLater(lens, i);
    }
  }

  lemma TakeOut(w: seq<nat>, u: seq<nat>) returns (i: nat)
    requires w != [] && multiset(w) == multiset(u)
    ensures i < |u| && u[i] == w[0] && multiset(w[1..]) == multiset(Without(u, i)) && |w| == |u|
  {
    assert |w| == |multiset(w)| == |multiset(u)| == |u|;
    assert w[0] in multiset(u);
    i :| 0 <= i < |u| && u[i] == w[0];
    LessOne(w, 0);
    LessOne(u, i);
    assert Without(w, 0) == w[1..];
  }

  lemma LessOne(s: seq<nat>, i: nat)
    requires i < |s|
    ensures multiset(Without(s, i)) == multiset(s) - multiset{s[i]}
  {
    assert s == s[..i] + ([s[i]] + s[i + 1..]);
  }

  lemma PutIn(s: seq<nat>, i: nat, v: nat)
    requires i <= |s|
    ensures var t := s[..i] + ([v] + s[i..]); |t| == |s| + 1 && t[i] == v && Without(t, i) == s
  {
  }

  /** Weights in another order cost no less. */
  lemma {:induction false} Reordered(w: seq<nat>, u: seq<nat>, lens: seq<nat>, m: nat) returns (other: seq<nat>)
    requires multiset(w) == multiset(u) && |lens| == |w|
    requires forall i :: 0 <= i < |lens| ==> lens[i] <= m
    ensures |other| == |u| && (forall i :: 0 <= i < |other| ==> other[i] <= m)
    ensures Taken(other, m) == Taken(lens, m) && Cost(u, other) == Cost(w, lens)
    decreases |w|
  {
    hide Pow2, Taken, Cost;
    if w == [] {
      assert |multiset(u)| == 0;
      other := [];
    } else {
      var i := TakeOut(w, u);
      var rest := Reordered(w[1..], Without(u, i), lens[1..], m);
      other := rest[..i] + ([lens[0]] + rest[i..]);
      PutIn(rest, i, lens[0]);
      assert Without(lens, 0) == lens[1..] && Without(w, 0) == w[1..];
      CostAt(w, lens, 0);
      TakenAt(lens, m, 0);
      CostAt(u, other, i);
      TakenAt(other, m, i);
    }
  }

  lemma SameAtLeast(w: seq<nat>, u: seq<nat>, c: nat)
    requires multiset(w) == multiset(u) && AtLeast(u, c)
    ensures AtLeast(w, c)
  {
    forall lens: seq<nat>, m: nat | |lens| == |w| && Fits(lens, m) ensures Cost(w, lens) >= c {
      var other := Reordered(w, u, lens, m);
      assert Fits(other, m);
    }
  }

  // ---- The two lightest can be siblings at the bottom.

  function Longest(lens: seq<nat>): (x: nat)
    requires lens != []
    ensures x in lens && forall i :: 0 <= i < |lens| ==> lens[i] <= x
  {
    if |lens| == 1 then lens[0]
    else
      var y := Longest(lens[1..]);
      assert forall i :: 0 < i < |lens| ==> lens[i] == lens[1..][i - 1];
      if lens[0] > y then lens[0] else y
  }

  lemma {:induction false} Scaled(lens: seq<nat>, x: nat, m: nat)
    requires x <= m && forall i :: 0 <= i < |lens| ==> lens[i] <= x
    ensures Taken(lens, m) == Taken(lens, x) * Pow2(m - x)
  {
    hide Pow2;
    if lens != [] {
      Scaled(lens[1..], x, m);
      Pow2Add(x - lens[0], m - x);
      Distribute(Pow2(x - lens[0]), Taken(lens[1..], x), Pow2(m - x));
    }
  }

  /** So the unit can be the longest length. */
  lemma FitsLongest(lens: seq<nat>, x: nat, m: nat)
    requires x <= m && Fits(lens, m) && forall i :: 0 <= i < |lens| ==> lens[i] <= x
    ensures Fits(lens, x)
  {
    Scaled(lens, x, m);
    Pow2Add(x, m - x);
    hide Pow2;
    if Taken(lens, x) > Pow2(x) {
      MoreTimes(Pow2(x), Taken(lens, x), Pow2(m - x));
    }
  }

  lemma Distribute(a: nat, b: nat, f: nat)
    ensures (a + b) * f == a * f + b * f
  {
  }

  lemma MoreTimes(a: nat, b: nat, f: nat)
    requires a < b && f > 0
    ensures a * f < b * f
  {
  }

  /** Lengths below the unit take an even part. */
  lemma {:induction false} EvenTaken(lens: seq<nat>, x: nat)
    requires forall i :: 0 <= i < |lens| ==> lens[i] < x
    ensures Taken(lens, x) % 2 == 0
  {
    if lens != [] {
      EvenTaken(lens[1..], x);
      assert Pow2(x - lens[0]) == 2 * Pow2(x - lens[0] - 1);
    }
  }

  /** A longest codeword that is alone can lose a bit. */
  lemma Shortened(w: seq<nat>, lens: seq<nat>, x: nat, i: nat)
    requires |lens| == |w| && Fits(lens, x) && i < |lens| && lens[i] == x >= 1
    requires forall k :: 0 <= k < |lens| && k != i ==> lens[k] < x
    ensures Fits(lens[i := x - 1], x) && Cost(w, lens[i := x - 1]) <= Cost(w, lens)
  {
    var less := lens[i := x - 1];
    assert Without(less, i) == Without(lens, i);
    TakenAt(lens, x, i);
    TakenAt(less, x, i);
    EvenTaken(Without(lens, i), x);
    assert Pow2(0) == 1 && Pow2(1) == 2 && Pow2(x) == 2 * Pow2(x - 1);
    CostAt(w, lens, i);
    CostAt(w, less, i);
    assert w[i] * (x - 1) <= w[i] * x;
  }

  function Swap(lens: seq<nat>, i: nat, j: nat): (r: seq<nat>)
    requires i < |lens| && j < |lens|
    ensures |r| == |lens|
  {
    lens[i := lens[j]][j := lens[i]]
  }

  /** A lighter weight may have the longer codeword. */
  lemma Swapped(w: seq<nat>, lens: seq<nat>, m: nat, i: nat, j: nat)
    requires |lens| == |w| && Fits(lens, m) && i < j < |w|
    requires w[i] <= w[j] && lens[i] <= lens[j]
    ensures Fits(Swap(lens, i, j), m) && Cost(w, Swap(lens, i, j)) <= Cost(w, lens)
  {
    SwappedFits(lens, m, i, j);
    SwappedCosts(w, lens, i, j);
  }

  lemma SwappedFits(lens: seq<nat>, m: nat, i: nat, j: nat)
    requires Fits(lens, m) && i < j < |lens|
    ensures Fits(Swap(lens, i, j), m)
  {
    hide Taken, Pow2, Without;
    SwapWithout(lens, i, j);
    TakenTwo(lens, m, i, j);
    TakenTwo(Swap(lens, i, j), m, i, j);
  }

  lemma SwappedCosts(w: seq<nat>, lens: seq<nat>, i: nat, j: nat)
    requires |lens| == |w| && i < j < |w| && w[i] <= w[j] && lens[i] <= lens[j]
    ensures Cost(w, Swap(lens, i, j)) <= Cost(w, lens)
  {
    hide Cost, Without;
    SwapWithout(lens, i, j);
    CostTwo(w, lens, i, j);
    CostTwo(w, Swap(lens, i, j), i, j);
    Crossed(w[i], w[j], lens[i], lens[j]);
  }

  lemma SwapWithout(lens: seq<nat>, i: nat, j: nat)
    requires i < j < |lens|
    ensures Without(Without(Swap(lens, i, j), j), i) == Without(Without(lens, j), i)
  {
  }

  lemma TakenTwo(lens: seq<nat>, m: nat, i: nat, j: nat)
    requires (forall k :: 0 <= k < |lens| ==> lens[k] <= m) && i < j < |lens|
    ensures forall k :: 0 <= k < |lens| - 2 ==> Without(Without(lens, j), i)[k] <= m
    ensures Taken(lens, m) == Pow2(m - lens[j]) + Pow2(m - lens[i]) + Taken(Without(Without(lens, j), i), m)
  {
    hide Taken, Pow2;
    TakenAt(lens, m, j);
    assert Without(lens, j)[i] == lens[i];
    TakenAt(Without(lens, j), m, i);
  }

  lemma CostTwo(w: seq<nat>, lens: seq<nat>, i: nat, j: nat)
    requires |lens| == |w| && i < j < |w|
    ensures Cost(w, lens) == w[j] * lens[j] + w[i] * lens[i] + Cost(Without(Without(w, j), i), Without(Without(lens, j), i))
  {
    hide Cost;
    CostAt(w, lens, j);
    assert Without(lens, j)[i] == lens[i] && Without(w, j)[i] == w[i];
    CostAt(Without(w, j), Without(lens, j), i);
  }

  lemma Crossed(a: nat, b: nat, x: nat, y: nat)
    requires a <= b && x <= y
    ensures a * y + b * x <= a * x + b * y
  {
    assert (b - a) * (y - x) >= 0;
    assert (b - a) * (y - x) == b * y - b * x - a * y + a * x;
  }

  lemma {:induction false} AllZero(lens: seq<nat>)
    requires forall i :: 0 <= i < |lens| ==> lens[i] == 0
    ensures Taken(lens, 0) == |lens|
  {
    if lens != [] {
      AllZero(lens[1..]);
    }
  }

  function Total(lens: seq<nat>): nat {
    if lens == [] then 0 else lens[0] + Total(lens[1..])
  }

  lemma {:induction false} TotalFalls(lens: seq<nat>, i: nat, v: nat)
    requires i < |lens| && v < lens[i]
    ensures Total(lens[i := v]) < Total(lens)
  {
    if i > 0 {
      TotalFalls(lens[1..], i - 1, v);
      assert lens[i := v][1..] == lens[1..][i - 1 := v];
    } else {
      assert lens[i := v][1..] == lens[1..];
    }
  }

  /** With the two lightest weights first, some lengths that cost no more give both the same length. */
  lemma {:induction false} Siblings(w: seq<nat>, lens: seq<nat>, m: nat) returns (other: seq<nat>, x: nat)
    requires |lens| == |w| >= 2 && Fits(lens, m)
    requires w[0] <= w[1] && forall i :: 2 <= i < |w| ==> w[1] <= w[i]
    ensures |other| == |w| && x >= 1 && other[0] == other[1] == x && Fits(other, x) && Cost(w, other) <= Cost(w, lens)
    decreases Total(lens)
  {
    x := Longest(lens);
    FitsLongest(lens, x, m);
    if x == 0 {
      AllZero(lens);
      assert false;
    }
    var i :| 0 <= i < |lens| && lens[i] == x;
    if j :| 0 <= j < |lens| && j != i && lens[j] == x {
      other := BothLongest(w, lens, x, i, j);
    } else {
      Shortened(w, lens, x, i);
      TotalFalls(lens, i, x - 1);
      other, x := Siblings(w, lens[i := x - 1], x);
    }
  }

  lemma BothLongest(w: seq<nat>, lens: seq<nat>, x: nat, i: nat, j: nat) returns (other: seq<nat>)
    requires |lens| == |w| >= 2 && Fits(lens, x)
    requires w[0] <= w[1] && forall k :: 2 <= k < |w| ==> w[1] <= w[k]
    requires i < |w| && j < |w| && i != j && lens[i] == lens[j] == x
    ensures |other| == |w| && other[0] == other[1] == x && Fits(other, x) && Cost(w, other) <= Cost(w, lens)
  {
    other := lens;
    if i > 0 {
      Swapped(w, other, x, 0, i);
      other := Swap(other, 0, i);
    }
    var k := if j == 0 then i else j;
    assert other[0] == x && other[k] == x && k > 0;
    if k > 1 {
      Swapped(w, other, x, 1, k);
      other := Swap(other, 1, k);
    }
  }

  /** Putting the two lightest together: what the others cost, and their own weight once. */
  lemma Merging(a: nat, b: nat, rest: seq<nat>, c: nat)
    requires a <= b && (forall i :: 0 <= i < |rest| ==> b <= rest[i]) && AtLeast([a + b] + rest, c)
    ensures AtLeast([a, b] + rest, c + a + b)
  {
    var w := [a, b] + rest;
    forall lens: seq<nat>, m: nat | |lens| == |w| && Fits(lens, m) ensures Cost(w, lens) >= c + a + b {
      var other, x := Siblings(w, lens, m);
      var merged := [x - 1] + other[2..];
      MergedFits(other, x);
      MergedCost(a, b, rest, other, x);
      assert Cost([a + b] + rest, merged) >= c;
    }
  }

  lemma MergedFits(other: seq<nat>, x: nat)
    requires |other| >= 2 && x >= 1 && other[0] == other[1] == x && Fits(other, x)
    ensures Fits([x - 1] + other[2..], x)
  {
    var merged := [x - 1] + other[2..];
    assert merged[1..] == other[2..] && other[1..][1..] == other[2..];
    assert Pow2(0) == 1 && Pow2(1) == 2;
    assert Taken(other, x) == Pow2(0) + Taken(other[1..], x);
    assert Taken(other[1..], x) == Pow2(0) + Taken(other[2..], x);
  }

  lemma MergedCost(a: nat, b: nat, rest: seq<nat>, other: seq<nat>, x: nat)
    requires |other| == |rest| + 2 && x >= 1 && other[0] == other[1] == x
    ensures Cost([a, b] + rest, other) == Cost([a + b] + rest, [x - 1] + other[2..]) + a + b
  {
    hide Cost;
    Pairs(a, b, rest, other, x);
    CostHead(a, [b] + rest, x, [x] + other[2..]);
    CostHead(b, rest, x, other[2..]);
    CostHead(a + b, rest, x - 1, other[2..]);
    OneLess(a, b, x);
  }

  lemma Pairs(a: nat, b: nat, rest: seq<nat>, other: seq<nat>, x: nat)
    requires |other| == |rest| + 2 && other[0] == other[1] == x
    ensures [a, b] + rest == [a] + ([b] + rest) && other == [x] + ([x] + other[2..])
  {
  }

  lemma OneLess(a: nat, b: nat, x: nat)
    requires x >= 1
    ensures a * x + b * x == (a + b) * (x - 1) + a + b
  {
    Distribute(a, b, x);
    assert (a + b) * x == (a + b) * (x - 1) + (a + b);
  }

  lemma CostHead(a: nat, rest: seq<nat>, x: nat, lens: seq<nat>)
    requires |rest| == |lens|
    ensures Cost([a] + rest, [x] + lens) == a * x + Cost(rest, lens)
  {
    assert ([a] + rest)[1..] == rest && ([x] + lens)[1..] == lens;
  }

  lemma OneWeight(x: nat)
    ensures AtLeast([x], 0)
  {
  }
}
