/** Walking the game's own std::map (src/bf/stl.h:164-210): a tree whose nodes know their parents, with
    one sentinel for all missing children, and the linear searches built on the walk
    (src/bf/input.cpp:93-118). The colour field tells the sentinel from the nodes. */
module GameMap {
  import opened Wrappers

  datatype Color = Red | Black

  class Node<V> {
    var left: Node?<V>
    var parent: Node?<V>
    var right: Node?<V>
    var key: int
    var value: V
    var color: Color

    constructor (key: int, value: V, color: Color)
      ensures this.key == key && this.value == value && this.color == color
    {
      this.key, this.value, this.color := key, value, color;
      left, parent, right := null, null, null;
    }

    /** The node after this one, or the sentinel: the leftmost node to the right, or else the first
        ancestor that this node is to the left of. */
    method Next(ghost head: Node<V>, ghost t: Tree<V>, ghost i: nat) returns (node: Node<V>)
      requires ValidMap(head, t) && i < |InOrder(t)| && InOrder(t)[i] == this
      ensures node == After(head, t, i)
    {
      ghost var sub, off := SubOf(t, i);
      SubRep(head, t, head, sub, off);
      hide ValidMap, NoDuplicates;
      HeadBlack(head, t);
      if color == Red {
        node := right;
        if node.color == Black {
          LeafBlack(head, t, sub, off);
          node := Climb(this, head, t, i, sub, off);
        } else {
          node := Descend(node, head, t, i, sub, off);
        }
        return;
      }
      return this;
    }
  }

  lemma LeafBlack<V>(head: Node<V>, t: Tree<V>, sub: Tree<V>, off: nat)
    requires ValidMap(head, t) && SubAt(t, sub, off) && sub.Bin? && sub.node.right != null && sub.node.right.color == Black
    ensures sub.right.Leaf?
  {
    SubRep(head, t, head, sub, off);
  }

  /** What comes after place i. */
  ghost function After<V>(head: Node<V>, t: Tree<V>, i: nat): Node<V>
    requires i < |InOrder(t)|
  {
    if i + 1 < |InOrder(t)| then InOrder(t)[i + 1] else head
  }

  lemma HeadBlack<V>(head: Node<V>, t: Tree<V>)
    requires ValidMap(head, t)
    ensures head.color == Black && Rep(head, t, head) && head !in Nodes(t)
  {
  }

  /** Leftmost of the right subtree. */
  method Descend<V>(from: Node<V>, ghost head: Node<V>, ghost t: Tree<V>, ghost i: nat, ghost sub: Tree<V>, ghost off: nat)
    returns (node: Node<V>)
    requires head.color == Black && Rep(head, t, head) && SubAt(t, sub, off) && sub.Bin? && off + |InOrder(sub.left)| == i
    requires from == sub.node.right && from.color == Red && i < |InOrder(t)|
    ensures node == After(head, t, i)
  {
    SubRep(head, t, head, sub, off);
    ghost var s := sub.right;
    RightSub(t, sub, off);
    SubRep(head, t, head, s, i + 1);
    node := from;
    var node2 := node.left;
    while node2.color == Red
      invariant Rep(head, t, head) && head.color == Black
      invariant s.Bin? && SubAt(t, s, i + 1) && node == s.node && node2 == Root(s.left, head) && node.left == node2
      decreases |InOrder(s)|
    {
      LeftSub(t, s, i + 1);
      s := s.left;
      SubRep(head, t, head, s, i + 1);
      node := node2;
      node2 := node2.left;
    }
    SubRep(head, t, head, s, i + 1);
    FirstOfSub(t, s, i + 1);
  }

  lemma RightSub<V>(t: Tree<V>, sub: Tree<V>, off: nat)
    requires SubAt(t, sub, off) && sub.Bin?
    ensures SubAt(t, sub.right, off + |InOrder(sub.left)| + 1)
  {
    assert SubAt(sub.right, sub.right, 0);
    SubTrans(t, sub, off, sub.right, |InOrder(sub.left)| + 1);
  }

  lemma LeftSub<V>(t: Tree<V>, sub: Tree<V>, off: nat)
    requires SubAt(t, sub, off) && sub.Bin?
    ensures SubAt(t, sub.left, off)
  {
    assert SubAt(sub.left, sub.left, 0);
    SubTrans(t, sub, off, sub.left, 0);
  }

  lemma FirstOfSub<V>(t: Tree<V>, s: Tree<V>, off: nat)
    requires SubAt(t, s, off) && s.Bin? && s.left.Leaf?
    ensures off < |InOrder(t)| && InOrder(t)[off] == s.node
  {
    SubInOrder(t, s, off);
    assert InOrder(s)[0] == s.node;
  }

  lemma NodeOfSub<V>(t: Tree<V>, s: Tree<V>, off: nat)
    requires SubAt(t, s, off) && s.Bin?
    ensures off + |InOrder(s.left)| < |InOrder(t)| && InOrder(t)[off + |InOrder(s.left)|] == s.node
    ensures |InOrder(s)| == |InOrder(s.left)| + 1 + |InOrder(s.right)|
  {
    SubInOrder(t, s, off);
    assert InOrder(s)[|InOrder(s.left)|] == s.node;
  }

  /** A right child is not also the left child. */
  lemma ChildrenDiffer<V>(head: Node<V>, t: Tree<V>, up: Tree<V>, off: nat)
    requires head !in Nodes(t) && NoDuplicates(InOrder(t)) && SubAt(t, up, off) && up.Bin? && up.left.Bin?
    ensures Root(up.left, head) != Root(up.right, head)
  {
    LeftSub(t, up, off);
    NodeOfSub(t, up.left, off);
    SubNodes(t, up.left, off);
    if up.right.Bin? {
      RightSub(t, up, off);
      NodeOfSub(t, up.right, off + |InOrder(up.left)| + 1);
      SubInOrder(t, up.left, off);
      NodeOfSub(up, up.left, 0) by {
        assert SubAt(up, up.left, 0) by {
          assert SubAt(up.left, up.left, 0);
        }
      }
    }
  }

  /** up is the subtree right above s. */
  ghost predicate Up<V>(t: Tree<V>, s: Tree<V>, off: nat, up: Tree<V>, upOff: nat) {
    && SubAt(t, up, upOff) && up.Bin?
    && ((up.left == s && upOff == off) || (up.right == s && off == upOff + |InOrder(up.left)| + 1))
  }

  /** node is what stands above s: the sentinel above the whole tree. */
  ghost predicate StandsAbove<V>(head: Node<V>, t: Tree<V>, s: Tree<V>, off: nat, node: Node<V>)
    requires SubAt(t, s, off) && s.Bin?
  {
    if s == t && off == 0 then node == head else node == ParentOf(t, s, off).0.node
  }

  lemma ParentStandsAbove<V>(head: Node<V>, t: Tree<V>, s: Tree<V>, off: nat)
    requires Rep(head, t, head) && SubAt(t, s, off) && s.Bin?
    ensures s.node.parent != null && StandsAbove(head, t, s, off, s.node.parent)
  {
    if !(s == t && off == 0) {
      var up := ParentOf(t, s, off);
      SubRep(head, t, head, up.0, up.1);
    }
  }

  /** The two ways up: from the left, and the node is next; from the right. */
  lemma OneUp<V>(head: Node<V>, t: Tree<V>, s: Tree<V>, off: nat, node: Node<V>) returns (up: Tree<V>, upOff: nat)
    requires Rep(head, t, head) && head !in Nodes(t) && NoDuplicates(InOrder(t)) && head.color == Black
    requires SubAt(t, s, off) && s.Bin? && StandsAbove(head, t, s, off, node) && node.color == Red
    ensures Up(t, s, off, up, upOff) && node == up.node && node.right != null && node.parent != null
    ensures s.node != node.right ==> up.left == s && upOff == off
    ensures s.node == node.right ==> up.right == s && off == upOff + |InOrder(up.left)| + 1
    ensures SubAt(t, up, upOff) && up.Bin? && StandsAbove(head, t, up, upOff, node.parent)
  {
    assert !(s == t && off == 0);
    up, upOff := ParentOf(t, s, off).0, ParentOf(t, s, off).1;
    SubRep(head, t, head, up, upOff);
    ParentStandsAbove(head, t, up, upOff);
    if up.left == s && upOff == off {
      ChildrenDiffer(head, t, up, upOff);
    }
  }

  lemma TopIsEnd<V>(head: Node<V>, t: Tree<V>, s: Tree<V>, off: nat, node: Node<V>)
    requires Rep(head, t, head) && SubAt(t, s, off) && s.Bin? && StandsAbove(head, t, s, off, node) && node.color == Black
    ensures s == t && off == 0 && node == head
  {
    if !(s == t && off == 0) {
      var up := ParentOf(t, s, off);
      SubRep(head, t, head, up.0, up.1);
    }
  }

  lemma Larger<V>(t: Tree<V>, s: Tree<V>, off: nat, up: Tree<V>, upOff: nat)
    requires Up(t, s, off, up, upOff)
    ensures |InOrder(s)| < |InOrder(up)| <= |InOrder(t)|
    ensures up.right == s && off == upOff + |InOrder(up.left)| + 1 ==> upOff + |InOrder(up)| == off + |InOrder(s)|
  {
    SubInOrder(t, up, upOff);
  }

  /** Up to the first ancestor on the right. */
  method Climb<V>(from: Node<V>, ghost head: Node<V>, ghost t: Tree<V>, ghost i: nat, ghost sub: Tree<V>, ghost off0: nat)
    returns (node: Node<V>)
    requires ValidMap(head, t) && SubAt(t, sub, off0) && sub.Bin? && from == sub.node && off0 + |InOrder(sub.left)| == i
    requires sub.right.Leaf? && i < |InOrder(t)|
    ensures node == After(head, t, i)
  {
    ghost var s: Tree<V>, off: nat := sub, off0;
    var node2 := from;
    ParentStandsAbove(head, t, s, off);
    node := node2.parent;
    assert |InOrder(sub)| == |InOrder(sub.left)| + 1;
    hide SubAt, InOrder, StandsAbove, Rep, Nodes, NoDuplicates, Up;
    while node.color == Red
      invariant s.Bin? && SubAt(t, s, off) && node2 == s.node && off + |InOrder(s)| == i + 1
      invariant StandsAbove(head, t, s, off, node) && Rep(head, t, head) && head.color == Black
      decreases |InOrder(t)| - |InOrder(s)|
    {
      ghost var up, upOff := OneUp(head, t, s, off, node);
      Larger(t, s, off, up, upOff);
      UpIsSub(t, s, off, up, upOff);
      if node2 != node.right {
        NodeOfSub(t, up, upOff);
        return;
      }
      s, off := up, upOff;
      node2 := node;
      node := node.parent;
    }
    TopIsEnd(head, t, s, off, node);
  }

  lemma UpIsSub<V>(t: Tree<V>, s: Tree<V>, off: nat, up: Tree<V>, upOff: nat)
    requires Up(t, s, off, up, upOff)
    ensures SubAt(t, up, upOff) && up.Bin?
  {
  }

  /** The shape of a tree. */
  datatype Tree<!V> = Leaf | Bin(left: Tree<V>, node: Node<V>, right: Tree<V>)

  function InOrder<V>(t: Tree<V>): seq<Node<V>> {
    if t.Leaf? then [] else InOrder(t.left) + [t.node] + InOrder(t.right)
  }

  ghost function Nodes<V>(t: Tree<V>): set<Node<V>> {
    if t.Leaf? then {} else Nodes(t.left) + {t.node} + Nodes(t.right)
  }

  function Root<V>(t: Tree<V>, head: Node<V>): Node<V> {
    if t.Leaf? then head else t.node
  }

  /** The nodes of t are linked as t says, below p. */
  ghost predicate Rep<V>(head: Node<V>, t: Tree<V>, p: Node<V>)
    reads Nodes(t)
  {
    t.Bin? ==>
      && t.node.color == Red && t.node.parent == p
      && t.node.left == Root(t.left, head) && t.node.right == Root(t.right, head)
      && Rep(head, t.left, t.node) && Rep(head, t.right, t.node)
  }

  ghost predicate NoDuplicates<V>(s: seq<Node<V>>) {
    forall i, j :: 0 <= i < j < |s| ==> s[i] != s[j]
  }

  /** A valid map: the sentinel points at the root and at the first node. */
  ghost predicate ValidMap<V>(head: Node<V>, t: Tree<V>)
    reads Nodes(t), head
  {
    && head.color == Black && head !in Nodes(t) && head.parent == Root(t, head)
    && head.left == (if InOrder(t) == [] then head else InOrder(t)[0])
    && Rep(head, t, head) && NoDuplicates(InOrder(t))
  }

  ghost predicate Sorted<V>(s: seq<Node<V>>)
    reads s
  {
    forall i, j :: 0 <= i < j < |s| ==> s[i].key < s[j].key
  }

  // ---- Subtrees.

  /** sub is the part of t whose nodes come after the first off ones. */
  ghost predicate SubAt<V>(t: Tree<V>, sub: Tree<V>, off: nat) {
    || (sub == t && off == 0)
    || (t.Bin? && (SubAt(t.left, sub, off) || (off > |InOrder(t.left)| && SubAt(t.right, sub, off - |InOrder(t.left)| - 1))))
  }

  lemma {:induction false} InOrderNodes<V>(t: Tree<V>, n: Node<V>)
    ensures n in InOrder(t) <==> n in Nodes(t)
  {
    if t.Bin? {
      InOrderNodes(t.left, n);
      InOrderNodes(t.right, n);
    }
  }

  lemma {:induction false} SubInOrder<V>(t: Tree<V>, sub: Tree<V>, off: nat)
    requires SubAt(t, sub, off)
    ensures off + |InOrder(sub)| <= |InOrder(t)| && InOrder(t)[off..off + |InOrder(sub)|] == InOrder(sub)
  {
    if !(sub == t && off == 0) {
      var l := InOrder(t.left);
      if SubAt(t.left, sub, off) {
        SubInOrder(t.left, sub, off);
        assert InOrder(t)[off..off + |InOrder(sub)|] == l[off..off + |InOrder(sub)|];
      } else {
        SubInOrder(t.right, sub, off - |l| - 1);
        assert InOrder(t)[off..off + |InOrder(sub)|] == InOrder(t.right)[off - |l| - 1..off - |l| - 1 + |InOrder(sub)|];
      }
    }
  }

  lemma {:induction false} SubNodes<V>(t: Tree<V>, sub: Tree<V>, off: nat)
    requires SubAt(t, sub, off)
    ensures Nodes(sub) <= Nodes(t)
  {
    if !(sub == t && off == 0) {
      if SubAt(t.left, sub, off) {
        SubNodes(t.left, sub, off);
      } else {
        SubNodes(t.right, sub, off - |InOrder(t.left)| - 1);
      }
    }
  }

  lemma {:induction false} SubTrans<V>(t: Tree<V>, a: Tree<V>, x: nat, b: Tree<V>, y: nat)
    requires SubAt(t, a, x) && SubAt(a, b, y)
    ensures SubAt(t, b, x + y)
  {
    if !(a == t && x == 0) {
      if SubAt(t.left, a, x) {
        SubTrans(t.left, a, x, b, y);
      } else {
        SubTrans(t.right, a, x - |InOrder(t.left)| - 1, b, y);
      }
    }
  }

  /** Every place is the root of some subtree. */
  lemma {:induction false} SubOf<V>(t: Tree<V>, i: nat) returns (sub: Tree<V>, off: nat)
    requires i < |InOrder(t)|
    ensures SubAt(t, sub, off) && sub.Bin? && off + |InOrder(sub.left)| == i && sub.node == InOrder(t)[i]
  {
    var l := |InOrder(t.left)|;
    if i < l {
      sub, off := SubOf(t.left, i);
    } else if i == l {
      sub, off := t, 0;
    } else {
      sub, off := SubOf(t.right, i - l - 1);
      off := off + l + 1;
    }
  }

  /** The subtree above a subtree, if there is one, and its place. */
  ghost function ParentOf<V>(t: Tree<V>, sub: Tree<V>, off: nat): (r: (Tree<V>, nat))
    requires SubAt(t, sub, off) && sub.Bin? && !(sub == t && off == 0)
    ensures Up(t, sub, off, r.0, r.1)
  {
    var l := |InOrder(t.left)|;
    if SubAt(t.left, sub, off) then
      if sub == t.left && off == 0 then (t, 0) else
        var r := ParentOf(t.left, sub, off);
        (r.0, r.1)
    else if sub == t.right && off - l - 1 == 0 then (t, 0)
    else
      var r := ParentOf(t.right, sub, off - l - 1);
      (r.0, r.1 + l + 1)
  }

  /** The links of a subtree's root. */
  lemma {:induction false} SubRep<V>(head: Node<V>, t: Tree<V>, p: Node<V>, sub: Tree<V>, off: nat)
    requires Rep(head, t, p) && SubAt(t, sub, off) && sub.Bin?
    ensures sub.node.color == Red && sub.node.left == Root(sub.left, head) && sub.node.right == Root(sub.right, head)
    ensures sub.left.Bin? ==> sub.left.node.parent == sub.node && sub.left.node.color == Red
    ensures sub.right.Bin? ==> sub.right.node.parent == sub.node && sub.right.node.color == Red
  {
    if !(sub == t && off == 0) {
      if SubAt(t.left, sub, off) {
        SubRep(head, t.left, t.node, sub, off);
      } else {
        SubRep(head, t.right, t.node, sub, off - |InOrder(t.left)| - 1);
      }
    }
  }

  // ---- Walking and searching.

  /** The loop from head->left to head: every node once, in key order. */
  method Walk<V>(head: Node<V>, ghost t: Tree<V>) returns (visited: seq<Node<V>>)
    requires ValidMap(head, t)
    ensures visited == InOrder(t)
  {
    visited := [];
    FirstNode(head, t);
    var node := head.left;
    hide InOrder;
    while node != head
      invariant ValidMap(head, t) && visited <= InOrder(t)
      invariant node == At(head, t, |visited|)
      decreases |InOrder(t)| - |visited|
    {
      ghost var i := |visited|;
      Inside(head, t, i);
      assert visited + [node] == InOrder(t)[..i + 1];
      visited := visited + [node];
      AllAllocated(t);
      node := node.Next(head, t, i);
    }
    Outside(head, t, |visited|);
  }

  /** Everything in a tree exists, so that a call that changes nothing leaves it as it is. */
  lemma {:induction false} AllAllocated<V>(t: Tree<V>)
    ensures forall n :: n in Nodes(t) ==> allocated(n)
  {
    if t.Bin? {
      AllAllocated(t.left);
      AllAllocated(t.right);
    }
  }

  /** The node at place i, and the sentinel at the end. */
  ghost function At<V>(head: Node<V>, t: Tree<V>, i: nat): Node<V> {
    if i < |InOrder(t)| then InOrder(t)[i] else head
  }

  lemma FirstNode<V>(head: Node<V>, t: Tree<V>)
    requires ValidMap(head, t)
    ensures head.left == At(head, t, 0)
  {
  }

  lemma Inside<V>(head: Node<V>, t: Tree<V>, i: nat)
    requires i <= |InOrder(t)| && At(head, t, i) != head
    ensures i < |InOrder(t)|
  {
  }

  lemma Outside<V>(head: Node<V>, t: Tree<V>, i: nat)
    requires ValidMap(head, t) && i <= |InOrder(t)| && At(head, t, i) == head
    ensures i == |InOrder(t)|
  {
    if i < |InOrder(t)| {
      InOrderNodes(t, InOrder(t)[i]);
    }
  }

  lemma InOrderAllocated<V>(t: Tree<V>)
    ensures forall i :: 0 <= i < |InOrder(t)| ==> allocated(InOrder(t)[i]) && InOrder(t)[i] in Nodes(t)
  {
    AllAllocated(t);
    forall i | 0 <= i < |InOrder(t)|
      ensures InOrder(t)[i] in Nodes(t)
    {
      InOrderNodes(t, InOrder(t)[i]);
    }
  }

  /** Binary search, as the game looks a key up. */
  ghost function Lookup<V>(t: Tree<V>, key: int): Option<V>
    reads Nodes(t)
  {
    if t.Leaf? then None
    else if key < t.node.key then Lookup(t.left, key)
    else if key > t.node.key then Lookup(t.right, key)
    else Some(t.node.value)
  }

  lemma SortedParts<V>(a: seq<Node<V>>, n: Node<V>, b: seq<Node<V>>)
    requires Sorted(a + [n] + b)
    ensures Sorted(a) && Sorted(b)
    ensures (forall i :: 0 <= i < |a| ==> a[i].key < n.key) && (forall i :: 0 <= i < |b| ==> n.key < b[i].key)
  {
    var s := a + [n] + b;
    assert forall i :: 0 <= i < |a| ==> s[i] == a[i];
    assert s[|a|] == n;
    assert forall i :: 0 <= i < |b| ==> s[|a| + 1 + i] == b[i];
    forall i, j | 0 <= i < j < |b|
      ensures b[i].key < b[j].key
    {
      assert s[|a| + 1 + i] == b[i] && s[|a| + 1 + j] == b[j];
    }
    forall i | 0 <= i < |b|
      ensures n.key < b[i].key
    {
      assert s[|a| + 1 + i] == b[i];
    }
  }

  /** The key of some node is found with its value. */
  lemma {:induction false} LookupFinds<V>(t: Tree<V>, key: int, i: nat)
    requires Sorted(InOrder(t)) && i < |InOrder(t)| && InOrder(t)[i].key == key
    ensures Lookup(t, key) == Some(InOrder(t)[i].value)
  {
    var l := InOrder(t.left);
    SortedParts(l, t.node, InOrder(t.right));
    if i < |l| {
      LookupFinds(t.left, key, i);
    } else if i > |l| {
      LookupFinds(t.right, key, i - |l| - 1);
    }
  }

  /** The key of no node is not found. */
  lemma {:induction false} LookupMisses<V>(t: Tree<V>, key: int)
    requires Sorted(InOrder(t)) && forall i :: 0 <= i < |InOrder(t)| ==> InOrder(t)[i].key != key
    ensures Lookup(t, key) == None
  {
    if t.Bin? {
      var s, l, r := InOrder(t), InOrder(t.left), InOrder(t.right);
      SortedParts(l, t.node, r);
      assert s[|l|] == t.node;
      assert forall i :: 0 <= i < |l| ==> s[i] == l[i];
      forall i | 0 <= i < |r|
        ensures r[i].key != key
      {
        assert s[|l| + 1 + i] == r[i];
      }
      LookupMisses(t.left, key);
      LookupMisses(t.right, key);
    }
  }

  /** ControlMap::findAxisRemap: the linear search finds what the map's own lookup finds. */
  method FindAxisRemap<V>(head: Node?<V>, ghost t: Tree<V>, input: int) returns (found: Option<V>)
    requires if head == null then t.Leaf? else ValidMap(head, t) && Sorted(InOrder(t))
    ensures found == Lookup(t, input)
  {
    if head == null {
      return None;
    }
    FirstNode(head, t);
    var node := head.left;
    ghost var i: nat := 0;
    hide InOrder, Lookup;
    while node != head
      invariant ValidMap(head, t) && Sorted(InOrder(t)) && i <= |InOrder(t)| && node == At(head, t, i)
      invariant forall k :: 0 <= k < i ==> InOrder(t)[k].key != input
      decreases |InOrder(t)| - i
    {
      Inside(head, t, i);
      if node.key == input {
        LookupFinds(t, input, i);
        return Some(node.value);
      }
      AllAllocated(t);
      InOrderAllocated(t);
      node := node.Next(head, t, i);
      i := i + 1;
    }
    Outside(head, t, i);
    LookupMisses(t, input);
    return None;
  }

  /** ControlMap::findTrigger: is the trigger there, and is it held? A value is the state of a remap,
      or nothing for a null pointer. */
  method FindTrigger(head: Node?<Option<bool>>, ghost t: Tree<Option<bool>>, input: int) returns (found: bool, held: bool)
    requires if head == null then t.Leaf? else ValidMap(head, t) && Sorted(InOrder(t))
    ensures found <==> Lookup(t, input).Some? && Lookup(t, input).value.Some?
    ensures held <==> Lookup(t, input) == Some(Some(true))
  {
    var remap := FindAxisRemap(head, t, input);
    match remap {
      case Some(Some(state)) => return true, state;
      case _ => return false, false;
    }
  }
}
