// The priority queue (priq.C, priq.h): a complete binary tree of linked elements in heap order.

module PriorityQueue {
  import opened AvlItems

  type uns16 = x: int | 0 <= x < 0x1_0000
  type byte = x: int | 0 <= x < 0x100

  // ---- The order of the elements

  datatype Cost = Cost(cost0: uns32, cost1: uns16, tie1: byte, tie2: uns32)

  // Lower costs first; among equal costs, higher tie breakers first.
  predicate Less(a: Cost, b: Cost) {
    if a.cost0 < b.cost0 then true
    else if a.cost0 > b.cost0 then false
    else if a.cost1 < b.cost1 then true
    else if a.cost1 > b.cost1 then false
    else if a.tie1 > b.tie1 then true
    else if a.tie1 < b.tie1 then false
    else a.tie2 > b.tie2
  }

  lemma LessIsStrictOrder(a: Cost, b: Cost, c: Cost)
    ensures !Less(a, a)
    ensures Less(a, b) && Less(b, c) ==> Less(a, c)
    ensures !Less(a, b) && !Less(b, c) ==> !Less(a, c)
    ensures !Less(a, b) && !Less(b, a) ==> a == b
  {
  }

  class PriQElt {
    var left: PriQElt?
    var right: PriQElt?
    var parent: PriQElt?
    var cost: Cost

    constructor ()
      ensures left == null && right == null && parent == null && cost == Cost(0, 0, 0, 0)
    {
      left, right, parent, cost := null, null, null, Cost(0, 0, 0, 0);
    }

    predicate CostsLess(oqe: PriQElt)
      reads `cost, oqe`cost
    {
      Less(cost, oqe.cost)
    }
  }

  // ---- The shape: the elements in level order, each linked to its parent and children

  ghost function At(s: seq<PriQElt>, i: int): PriQElt? {
    if 0 <= i < |s| then s[i] else null
  }

  ghost predicate Distinct(s: seq<PriQElt>) {
    forall i, j :: 0 <= i < j < |s| ==> s[i] != s[j]
  }

  ghost predicate NodeAt(s: seq<PriQElt>, i: nat)
    requires i < |s|
    reads s
  {
    && s[i].left == At(s, 2 * i + 1)
    && s[i].right == At(s, 2 * i + 2)
    && s[i].parent == if i == 0 then null else s[(i - 1) / 2]
  }

  ghost predicate Linked(s: seq<PriQElt>)
    reads s
  {
    Distinct(s) && forall i :: 0 <= i < |s| ==> NodeAt(s, i)
  }

  function Up(i: nat): nat
    requires i > 0
  {
    (i - 1) / 2
  }

  // The element at position i is no less than its parent.
  ghost predicate Ordered(s: seq<PriQElt>, i: nat)
    requires i < |s|
    reads s`cost
  {
    i > 0 ==> !s[i].CostsLess(s[Up(i)])
  }

  ghost predicate Heap(s: seq<PriQElt>)
    reads s`cost
  {
    forall i :: 0 <= i < |s| ==> Ordered(s, i)
  }

  // Heap order but at position k, where the parent of k is still no more than the children of k.
  ghost predicate HeapBut(s: seq<PriQElt>, k: nat)
    requires k < |s|
    reads s`cost
  {
    && (forall i :: 0 < i < |s| && i != k && Up(i) != k ==> Ordered(s, i))
    && (k > 0 ==> forall i :: 0 < i < |s| && Up(i) == k ==> !s[i].CostsLess(s[Up(k)]))
  }

  ghost predicate ChildrenOrdered(s: seq<PriQElt>, k: nat)
    reads s`cost
  {
    forall i :: 0 < i < |s| && Up(i) == k ==> Ordered(s, i)
  }

  ghost function Swap(s: seq<PriQElt>, p: nat, c: nat): (t: seq<PriQElt>)
    requires p < |s| && c < |s|
  {
    s[p := s[c]][c := s[p]]
  }

  ghost function Set(s: seq<PriQElt>): set<PriQElt> {
    set x | x in s
  }

  // What was taken off is in order, and no greater than what is left.
  ghost predicate Rising(q: seq<PriQElt>, left: set<PriQElt>, all: set<PriQElt>, costs: map<PriQElt, Cost>)
    requires all <= costs.Keys
  {
    && (forall x :: x in q ==> x in all) && left <= all
    && (forall i, j :: 0 <= i < j < |q| ==> !Less(costs[q[j]], costs[q[i]]))
    && (forall i, x :: 0 <= i < |q| && x in left ==> !Less(costs[x], costs[q[i]]))
  }

  lemma RisingOn(q: seq<PriQElt>, was: set<PriQElt>, left: set<PriQElt>, all: set<PriQElt>, costs: map<PriQElt, Cost>,
          top: PriQElt)
    requires all <= costs.Keys && Rising(q, was, all, costs) && top in was && left == was - {top}
    requires forall x :: x in was ==> !Less(costs[x], costs[top])
    requires Distinct(q) && Set(q) == all - was
    ensures Rising(q + [top], left, all, costs) && Distinct(q + [top]) && Set(q + [top]) == all - left
  {
    hide Less;
    SetSnoc(q, top);
  }

  lemma NoneIn()
    ensures Set([]) == {}
  {
  }

  lemma SetSnoc(s: seq<PriQElt>, x: PriQElt)
    ensures Set(s + [x]) == Set(s) + {x}
  {
  }

  lemma SwapSet(s: seq<PriQElt>, p: nat, c: nat)
    requires p < |s| && c < |s|
    ensures Set(Swap(s, p, c)) == Set(s)
  {
    var t := Swap(s, p, c);
    forall x | x in Set(s)
      ensures x in Set(t)
    {
      var i :| 0 <= i < |s| && s[i] == x;
      assert t[if i == p then c else if i == c then p else i] == x;
    }
  }

  lemma PutSet(s: seq<PriQElt>, i: nat, y: PriQElt)
    requires i < |s| && Distinct(s) && y !in Set(s)
    ensures Set(s[i := y]) == Set(s) - {s[i]} + {y} && Distinct(s[i := y])
  {
    var t := s[i := y];
    forall x | x in Set(s) - {s[i]} + {y}
      ensures x in Set(t)
    {
      if x != y {
        var j :| 0 <= j < |s| && s[j] == x;
        assert t[j] == x;
      } else {
        assert t[i] == x;
      }
    }
  }

  lemma DropSet(s: seq<PriQElt>)
    requires s != [] && Distinct(s)
    ensures Set(s[..|s| - 1]) == Set(s) - {s[|s| - 1]}
  {
    var t := s[..|s| - 1];
    forall x | x in Set(s) - {s[|s| - 1]}
      ensures x in Set(t)
    {
      var j :| 0 <= j < |s| && s[j] == x;
      assert t[j] == x;
    }
  }

  // Heap order after another element has taken a place.
  lemma PutHeap(s: seq<PriQElt>, k: nat, y: PriQElt)
    requires k < |s| && Heap(s)
    ensures HeapBut(s[k := y], k)
  {
    var t := s[k := y];
    forall i | 0 < i < |t| && i != k && Up(i) != k
      ensures Ordered(t, i)
    {
      assert Ordered(s, i);
    }
    forall i | k > 0 && 0 < i < |t| && Up(i) == k
      ensures !t[i].CostsLess(t[Up(k)])
    {
      assert Ordered(s, i) && Ordered(s, k);
      LessIsStrictOrder(s[i].cost, s[k].cost, s[Up(k)].cost);
    }
  }

  // A new last element, and a last element gone.
  lemma AppendHeap(s: seq<PriQElt>, x: PriQElt)
    requires Heap(s)
    ensures HeapBut(s + [x], |s|) && ChildrenOrdered(s + [x], |s|)
  {
    assert forall i :: 0 <= i < |s| ==> (s + [x])[i] == s[i] && Ordered(s, i);
  }

  lemma DropHeap(s: seq<PriQElt>)
    requires s != [] && Heap(s)
    ensures Heap(s[..|s| - 1])
  {
    var t := s[..|s| - 1];
    forall i | 0 <= i < |t|
      ensures Ordered(t, i)
    {
      assert Ordered(s, i);
    }
  }

  // One step up of an element that is less than its parent.
  lemma RiseStep(s: seq<PriQElt>, k: nat)
    requires 0 < k < |s| && HeapBut(s, k) && ChildrenOrdered(s, k) && s[k].CostsLess(s[Up(k)])
    ensures HeapBut(Swap(s, Up(k), k), Up(k)) && ChildrenOrdered(Swap(s, Up(k), k), Up(k))
  {
    var t, p := Swap(s, Up(k), k), Up(k);
    assert p != k ==> Ordered(s, p) || p == 0;
    forall i | 0 < i < |t| && i != p
      ensures Ordered(t, i)
      ensures p > 0 && Up(i) == p ==> !t[i].CostsLess(t[Up(p)])
    {
      LessIsStrictOrder(s[k].cost, s[p].cost, s[i].cost);
    }
  }

  // One step down of an element that is more than the lesser of its children.
  lemma SinkStep(s: seq<PriQElt>, k: nat, c: nat)
    requires k < |s| && 0 < c < |s| && Up(c) == k && HeapBut(s, k) && s[c].CostsLess(s[k])
    requires forall i :: 0 < i < |s| && Up(i) == k ==> !s[i].CostsLess(s[c])
    ensures HeapBut(Swap(s, k, c), c)
  {
    var t := Swap(s, k, c);
    forall i | 0 < i < |t| && i != c && Up(i) != c
      ensures Ordered(t, i)
    {
      assert i == k || Up(i) == k || Ordered(s, i);
    }
    forall i | 0 < i < |t| && Up(i) == c
      ensures !t[i].CostsLess(t[Up(c)])
    {
      assert Ordered(s, i);
    }
  }

  // Nothing is less than the element on top of a heap.
  lemma {:induction false} TopIsLeast(s: seq<PriQElt>, i: nat)
    requires Heap(s) && i < |s|
    ensures !s[i].CostsLess(s[0])
    decreases i
  {
    if i > 0 {
      TopIsLeast(s, Up(i));
      assert Ordered(s, i);
      LessIsStrictOrder(s[i].cost, s[Up(i)].cost, s[0].cost);
    }
  }

  // ---- Finding the last position by the bits of its number

  // The number reached from m by k steps down, each taking the next bit of path.
  function Walk(m: nat, path: nat, k: nat): nat
    decreases k
  {
    if k == 0 then m else Walk(2 * m + path % 2, path / 2, k - 1)
  }

  lemma {:induction false} WalkGrows(m: nat, path: nat, k: nat)
    ensures k > 0 ==> Walk(m, path, k) >= 2 * m
    ensures Walk(m, path, k) >= m
    decreases k
  {
    if k > 0 {
      WalkGrows(2 * m + path % 2, path / 2, k - 1);
    }
  }

  // The bits of a number, last bit first, lead from the root to the position with that number.
  method PathTo(number: nat) returns (path: nat, k: nat)
    requires number >= 1
    ensures Walk(1, path, k) == number && (k == 0 <==> number == 1)
  {
    var n := number;
    path, k := 0, 0;
    while n >= 2
      invariant n >= 1 && Walk(n, path, k) == number && (k == 0 ==> n == number) && (k > 0 ==> number >= 2)
    {
      path := 2 * path + n % 2;
      n := n / 2;
      k := k + 1;
    }
  }

  // x with a and b exchanged.
  ghost function Other(a: PriQElt, b: PriQElt, x: PriQElt?): (y: PriQElt?)
    ensures x != null ==> y != null
  {
    if x == a then b else if x == b then a else x
  }

  // z, or y in the place of x.
  ghost function Instead(x: PriQElt, y: PriQElt, z: PriQElt?): (r: PriQElt?)
    ensures z != null ==> r != null
  {
    if z == x then y else z
  }

  class PriQ {
    var root: PriQElt?
    var nelts: nat
    ghost var level: seq<PriQElt>  // the elements, top to bottom and left to right
    ghost var elems: set<PriQElt>

    constructor ()
      ensures Valid() && elems == {}
    {
      root, nelts, level, elems := null, 0, [], {};
    }

    ghost predicate Shape()
      reads this, elems
    {
      elems == Set(level) && nelts == |level| && root == At(level, 0) && Linked(level)
    }

    ghost predicate Valid()
      reads this, elems
    {
      Shape() && Heap(level)
    }

    // What the links around an element and its child say in a linked tree.
    ghost predicate Family(parent: PriQElt, child: PriQElt, g: PriQElt?, sib: PriQElt?, l: PriQElt?, r: PriQElt?)
      reads `root, parent, child, (if g == null then {} else {g})
    {
      && parent.parent == g && child.parent == parent && child.left == l && child.right == r
      && parent != child && parent !in {g, sib, l, r} && child !in {g, sib, l, r}
      && (parent.left == child || parent.right == child) && parent.left != parent.right
      && sib == (if parent.left == child then parent.right else parent.left)
      && (sib != null ==> sib !in {g, l, r}) && (l != null ==> l !in {g, r}) && (r != null ==> r != g)
      && (if g == null then root == parent
            else root != parent && (g.left == parent || g.right == parent) && g.left != g.right)
      && root != child && (g != null ==> g.left != child && g.right != child)
    }

    // Exchanges an element and its child.
    method SwapLinks(parent: PriQElt, child: PriQElt, ghost g: PriQElt?, ghost sib: PriQElt?, ghost l: PriQElt?,
            ghost r: PriQElt?)
      requires Family(parent, child, g, sib, l, r)
      modifies `root, parent`left, parent`right, parent`parent, child`left, child`right, child`parent
      modifies (if g == null then {} else {g})`left, (if g == null then {} else {g})`right
      modifies (if sib == null then {} else {sib})`parent, (if l == null then {} else {l})`parent,
               (if r == null then {} else {r})`parent
      ensures root == Other(parent, child, old(root))
      ensures child.parent == g && parent.parent == child
      ensures child.left == Other(parent, child, old(parent.left))
              && child.right == Other(parent, child, old(parent.right))
      ensures parent.left == l && parent.right == r
      ensures sib != null ==> sib.parent == child
      ensures l != null ==> l.parent == parent
      ensures r != null ==> r.parent == parent
      ensures g != null ==> g.left == Other(parent, child, old(g.left)) && g.right == Other(parent, child, old(g.right))
    {
      var left := child.left;
      var right := child.right;
      child.parent := parent.parent;
      if child.parent == null {
        root := child;
      } else {
        if child.parent.left == parent {
          child.parent.left := child;
        } else if child.parent.right == parent {
          child.parent.right := child;
        }
      }
      if parent.left == child {
        child.left := parent;
        child.right := parent.right;
        if child.right != null {
          child.right.parent := child;
        }
      } else if parent.right == child {
        child.right := parent;
        child.left := parent.left;
        if child.left != null {
          child.left.parent := child;
        }
      }
      parent.left := left;
      if left != null {
        left.parent := parent;
      }
      parent.right := right;
      if right != null {
        right.parent := parent;
      }
      parent.parent := child;
    }

    lemma FamilyAt(p: nat, c: nat, sib: PriQElt?)
      requires Shape() && 0 < c < |level| && p == Up(c)
      requires sib == At(level, if c == 2 * p + 1 then c + 1 else c - 1)
      ensures Family(level[p], level[c], level[p].parent, sib, level[c].left, level[c].right)
      ensures level[p].parent == At(level, if p == 0 then -1 else Up(p)) && level[c].left == At(level, 2 * c + 1)
              && level[c].right == At(level, 2 * c + 2)
    {
      assert NodeAt(level, p) && NodeAt(level, c);
      assert p > 0 ==> NodeAt(level, Up(p));
    }

    // Only its parent and its children lead to an element.
    lemma Kin(p: nat, c: nat, i: nat)
      requires Shape() && 0 < c < |level| && p == Up(c) && i < |level| && i != p && i != c
      ensures level[i].left != level[c] && level[i].right != level[c]
      ensures level[i].left == level[p] || level[i].right == level[p] ==> p > 0 && i == Up(p)
      ensures level[i].parent == level[p] <==> level[i] == At(level, if c == 2 * p + 1 then c + 1 else c - 1)
      ensures level[i].parent == level[c] <==> level[i] == level[c].left || level[i] == level[c].right
    {
      assert NodeAt(level, i) && NodeAt(level, c);
    }

    // Exchanges the links of the elements at positions p and c.
    method ExchangeLinks(parent: PriQElt, child: PriQElt, ghost p: nat, ghost c: nat)
      requires Shape() && 0 < c < |level| && p == Up(c) && level[p] == parent && level[c] == child
      modifies `root, elems`left, elems`right, elems`parent
      ensures root == Other(parent, child, old(root))
      ensures child.left == Other(parent, child, old(parent.left))
              && child.right == Other(parent, child, old(parent.right))
      ensures parent.left == old(child.left) && parent.right == old(child.right)
      ensures child.parent == old(parent.parent) && parent.parent == child
      ensures forall i :: 0 <= i < |level| && i != p && i != c ==>
                && level[i].left == Other(parent, child, old(level[i].left))
                && level[i].right == Other(parent, child, old(level[i].right))
                && level[i].parent == Other(parent, child, old(level[i].parent))
    {
      hide Heap, NodeAt;
      ghost var sib := At(level, if c == 2 * p + 1 then c + 1 else c - 1);
      ghost var g, l, r := parent.parent, child.left, child.right;
      FamilyAt(p, c, sib);
      forall i | 0 <= i < |level| && i != p && i != c
        ensures level[i].left != child && level[i].right != child
        ensures level[i].left == parent || level[i].right == parent ==> level[i] == g
        ensures level[i].parent == parent <==> level[i] == sib
        ensures level[i].parent == child <==> level[i] == l || level[i] == r
      {
        Kin(p, c, i);
      }
      SwapLinks(parent, child, g, sib, l, r);
    }

    // Exchanges the elements at positions p and c.
    method NodeSwap(parent: PriQElt, child: PriQElt, ghost p: nat, ghost c: nat)
      requires Shape() && 0 < c < |level| && p == Up(c) && level[p] == parent && level[c] == child
      modifies `root, `level, elems`left, elems`right, elems`parent
      ensures Shape() && level == Swap(old(level), p, c)
    {
      hide Heap;
      ghost var s, t := level, Swap(level, p, c);
      assert forall k :: At(t, k) == Other(parent, child, At(s, k));
      ExchangeLinks(parent, child, p, c);
      forall i | 0 <= i < |s|
        ensures NodeAt(t, i)
      {
        assert old(NodeAt(s, i)) && old(NodeAt(s, p)) && old(NodeAt(s, c));
      }
      SwapSet(s, p, c);
      level := t;
    }

    // Moves x up, past the elements it is less than.
    method Rise(x: PriQElt, ghost start: nat)
      requires Shape() && start < |level| && level[start] == x
      requires HeapBut(level, start) && ChildrenOrdered(level, start)
      modifies `root, `level, elems`left, elems`right, elems`parent
      ensures Valid() && |level| == |old(level)|
    {
      ghost var k: nat := start;
      while x.parent != null && x.CostsLess(x.parent)
        invariant Shape() && k < |level| == |old(level)| && level[k] == x
        invariant HeapBut(level, k) && ChildrenOrdered(level, k)
        decreases k
      {
        assert NodeAt(level, k);
        RiseOne(x, k);
        k := Up(k);
      }
      assert NodeAt(level, k);
    }

    method RiseOne(x: PriQElt, ghost k: nat)
      requires Shape() && 0 < k < |level| && level[k] == x && x.parent == level[Up(k)] && x.CostsLess(level[Up(k)])
      requires HeapBut(level, k) && ChildrenOrdered(level, k)
      modifies `root, `level, elems`left, elems`right, elems`parent
      ensures Shape() && level == Swap(old(level), Up(k), k)
      ensures HeapBut(level, Up(k)) && ChildrenOrdered(level, Up(k))
    {
      hide ChildrenOrdered, HeapBut, Linked;
      RiseStep(level, k);
      NodeSwap(x.parent, x, Up(k), k);
    }

    // The least of x and its children.
    method SmallestChild(x: PriQElt, ghost k: nat) returns (smallest: PriQElt, ghost c: nat)
      requires Shape() && k < |level| && level[k] == x
      ensures c < |level| && level[c] == smallest
      ensures smallest == x ==> ChildrenOrdered(level, k)
      ensures smallest != x ==> 0 < c && Up(c) == k && smallest.CostsLess(x)
      ensures forall i :: 0 < i < |level| && Up(i) == k ==> !level[i].CostsLess(smallest)
    {
      assert NodeAt(level, k);
      smallest := x;
      c := k;
      if x.left != null && x.left.CostsLess(smallest) {
        smallest := x.left;
        c := 2 * k + 1;
      }
      if x.right != null && x.right.CostsLess(smallest) {
        smallest := x.right;
        c := 2 * k + 2;
      }
      assert forall i :: 0 < i < |level| && Up(i) == k ==> i == 2 * k + 1 || i == 2 * k + 2;
    }

    // Moves x down, past the lesser of its children, while that one is less than x.
    method Sink(x: PriQElt, ghost start: nat) returns (ghost k: nat)
      requires Shape() && start < |level| && level[start] == x && HeapBut(level, start)
      modifies `root, `level, elems`left, elems`right, elems`parent
      ensures Shape() && |level| == |old(level)|
      ensures k < |level| && level[k] == x && HeapBut(level, k) && ChildrenOrdered(level, k)
    {
      k := start;
      while true
        invariant Shape() && k < |level| == |old(level)| && level[k] == x
        invariant HeapBut(level, k)
        decreases |level| - k
      {
        var smallest, c := SmallestChild(x, k);
        if smallest == x {
          break;
        }
        SinkOne(x, smallest, k, c);
        k := c;
      }
    }

    method SinkOne(x: PriQElt, smallest: PriQElt, ghost k: nat, ghost c: nat)
      requires Shape() && 0 < c < |level| && Up(c) == k && level[k] == x && level[c] == smallest
      requires HeapBut(level, k) && smallest.CostsLess(x)
      requires forall i :: 0 < i < |level| && Up(i) == k ==> !level[i].CostsLess(smallest)
      modifies `root, `level, elems`left, elems`right, elems`parent
      ensures Shape() && level == Swap(old(level), k, c) && HeapBut(level, c)
    {
      hide HeapBut, Linked;
      SinkStep(level, k, c);
      NodeSwap(x, smallest, k, c);
    }

    // Follows the given number of the k bits of a path from the top.
    method Follow(bits: nat, steps: nat, ghost k: nat) returns (x: PriQElt, path: nat, ghost m: nat)
      requires Shape() && level != [] && steps <= k
      requires Walk(1, bits, k) <= |level| + if steps < k then 1 else 0
      ensures 1 <= m <= |level| && level[m - 1] == x && Walk(m, path, k - steps) == Walk(1, bits, k)
    {
      x, path, m := root, bits, 1;
      var left: nat := steps;
      while left > 0
        invariant left <= steps && 1 <= m <= |level| && level[m - 1] == x
        invariant Walk(m, path, k - steps + left) == Walk(1, bits, k)
      {
        assert NodeAt(level, m - 1);
        WalkGrows(2 * m + path % 2, path / 2, k - steps + left - 1);
        if path % 2 == 1 {
          x := x.right;
        } else {
          x := x.left;
        }
        m := 2 * m + path % 2;
        path := path / 2;
        left := left - 1;
      }
    }

    // Adds an element that is not on the queue.
    method Add(x: PriQElt)
      requires Valid() && x !in elems
      modifies this, x`left, x`right, x`parent, elems`left, elems`right, elems`parent
      ensures Valid() && elems == old(elems) + {x}
    {
      x.left, x.right, x.parent := null, null, null;
      var path, k := PathTo(1 + nelts);
      if root == null {
        nelts := nelts + 1;
        root := x;
        level, elems := [x], {x};
        return;
      }
      var last, rest, m := Follow(path, k - 1, k);
      Append(x, last, rest % 2 == 1, m);
      Rise(x, |level| - 1);
    }

    // Hangs x below the element with number m, in the next free position.
    method Append(x: PriQElt, last: PriQElt, right: bool, ghost m: nat)
      requires Valid() && x !in elems && x.left == null && x.right == null
      requires 1 <= m <= |level| && level[m - 1] == last && |level| + 1 == 2 * m + if right then 1 else 0
      modifies `nelts, `level, `elems, x`parent, last`left, last`right
      ensures Shape() && level == old(level) + [x] && elems == old(elems) + {x}
      ensures HeapBut(level, |level| - 1) && ChildrenOrdered(level, |level| - 1)
    {
      hide Heap, HeapBut, ChildrenOrdered;
      AppendHeap(level, x);
      nelts := nelts + 1;
      if right {
        last.right := x;
      } else {
        last.left := x;
      }
      x.parent := last;
      ghost var s := level;
      level, elems := s + [x], elems + {x};
      forall i | 0 <= i < |level|
        ensures NodeAt(level, i)
      {
        if i < |s| {
          assert old(NodeAt(s, i));
        }
      }
    }

    // Takes any element off the queue.
    method Delete(x: PriQElt)
      requires Valid() && (elems == {} || x in elems)
      modifies this, elems`left, elems`right, elems`parent
      ensures Valid() && elems == old(elems) - {x}
    {
      if nelts == 0 {
        return;
      }
      assert level[0] in elems;
      var path, k := PathTo(nelts);
      var last, _, m := Follow(path, k, k);
      DropLast(last);
      if last == x {
        if last == root {
          root := null;
        }
        return;
      }
      assert x in Set(level);
      ghost var i :| 0 <= i < |level| && level[i] == x;
      PutInstead(x, last, i);
      var k' := Sink(last, i);
      Rise(last, k');
    }

    // Unlinks the last element.
    method DropLast(last: PriQElt)
      requires Valid() && level != [] && level[|level| - 1] == last
      modifies `nelts, `level, `elems, elems`left, elems`right
      ensures level == old(level)[..|old(level)| - 1] && elems == old(elems) - {last} && last !in elems
      ensures nelts == |level| && Linked(level) && Heap(level) && elems == Set(level)
      ensures root == old(root) == At(old(level), 0)
    {
      hide Heap;
      ghost var s := level;
      DropSet(s);
      DropHeap(s);
      nelts := nelts - 1;
      assert NodeAt(s, |s| - 1);
      assert |s| > 1 ==> NodeAt(s, Up(|s| - 1));
      var parent := last.parent;
      if parent != null {
        if parent.left == last {
          parent.left := null;
        } else {
          parent.right := null;
        }
      }
      level, elems := s[..|s| - 1], elems - {last};
      forall i | 0 <= i < |level|
        ensures NodeAt(level, i)
      {
        assert old(NodeAt(s, i));
      }
    }

    // Puts last in the place of x.
    method PutInstead(x: PriQElt, last: PriQElt, ghost i: nat)
      requires Valid() && i < |level| && level[i] == x && last !in elems
      modifies `root, `level, `elems, elems`left, elems`right, elems`parent, last`left, last`right, last`parent
      ensures Shape() && level == old(level)[i := last] && elems == old(elems) - {x} + {last}
      ensures HeapBut(level, i)
    {
      ghost var s := level;
      PutSet(s, i, last);
      PutHeap(s, i, last);
      PutLinks(x, last, i);
      level, elems := s[i := last], elems - {x} + {last};
    }

    // The links of x become those of last, and the links to x lead to last.
    method PassLinks(x: PriQElt, last: PriQElt, ghost i: nat)
      requires Shape() && i < |level| && level[i] == x && last !in elems
      modifies `root, elems`left, elems`right, elems`parent, last`left, last`right, last`parent
      ensures root == Instead(x, last, old(root))
      ensures last.left == old(x.left) && last.right == old(x.right) && last.parent == old(x.parent)
      ensures forall j :: 0 <= j < |level| && j != i ==>
                && level[j].left == Instead(x, last, old(level[j].left))
                && level[j].right == Instead(x, last, old(level[j].right))
                && level[j].parent == Instead(x, last, old(level[j].parent))
    {
      hide Heap, NodeAt;
      ghost var g, l, r := x.parent, x.left, x.right;
      PlaceOf(i);
      forall j | 0 <= j < |level| && j != i
        ensures level[j] != x && level[j] != last
        ensures level[j].left == x || level[j].right == x <==> level[j] == g
        ensures level[j].parent == x <==> level[j] == l || level[j] == r
      {
        KinOf(i, j);
      }
      ReplaceLinks(x, last, g, l, r);
    }

    lemma KinOf(i: nat, j: nat)
      requires Shape() && i < |level| && j < |level| && i != j
      ensures level[j].left == level[i] || level[j].right == level[i] <==> level[j] == level[i].parent
      ensures level[j].parent == level[i] <==> level[j] == level[i].left || level[j] == level[i].right
    {
      assert NodeAt(level, i) && NodeAt(level, j);
    }

    method PutLinks(x: PriQElt, last: PriQElt, ghost i: nat)
      requires Shape() && i < |level| && level[i] == x && last !in elems
      modifies `root, elems`left, elems`right, elems`parent, last`left, last`right, last`parent
      ensures root == At(level[i := last], 0)
      ensures Linked(level[i := last])
    {
      ghost var s, t := level, level[i := last];
      PutSet(s, i, last);
      assert forall k :: At(t, k) == Instead(x, last, At(s, k));
      PassLinks(x, last, i);
      forall j | 0 <= j < |s|
        ensures NodeAt(t, j)
      {
        assert old(NodeAt(s, j)) && old(NodeAt(s, i));
      }
    }

    // The neighbours of the element at position i.
    lemma PlaceOf(i: nat)
      requires Shape() && i < |level|
      ensures var x, g, l, r := level[i], level[i].parent, level[i].left, level[i].right;
              && g == At(level, if i == 0 then -1 else Up(i)) && l == At(level, 2 * i + 1) && r == At(level, 2 * i + 2)
              && x !in {g, l, r} && (l != null ==> l != r)
              && (if g == null then root == x
                  else g !in {l, r} && (g.left == x || g.right == x) && g.left != g.right && root != x)
    {
      assert NodeAt(level, i);
      assert i > 0 ==> NodeAt(level, Up(i));
    }

    // last takes over the links of x.
    method ReplaceLinks(x: PriQElt, last: PriQElt, ghost g: PriQElt?, ghost l: PriQElt?, ghost r: PriQElt?)
      requires x.parent == g && x.left == l && x.right == r && x !in {last, g, l, r} && last !in {g, l, r}
      requires g != null ==> g !in {l, r} && (g.left == x || g.right == x) && g.left != g.right
      requires g != null ==> root != x
      requires g == null ==> root == x
      requires l != null ==> l != r
      modifies `root, last`left, last`right, last`parent
      modifies (if g == null then {} else {g})`left, (if g == null then {} else {g})`right
      modifies (if l == null then {} else {l})`parent, (if r == null then {} else {r})`parent
      ensures root == (if old(root) == x then last else old(root))
      ensures last.parent == g && last.left == l && last.right == r
      ensures l != null ==> l.parent == last
      ensures r != null ==> r.parent == last
      ensures g != null ==> g.left == if old(g.left) == x then last else old(g.left)
      ensures g != null ==> g.right == if old(g.right) == x then last else old(g.right)
    {
      last.parent := x.parent;
      if x.parent != null {
        if x.parent.left == x {
          x.parent.left := last;
        } else if x.parent.right == x {
          x.parent.right := last;
        }
      } else {
        root := last;
      }
      last.left := x.left;
      last.right := x.right;
      if last.left != null {
        last.left.parent := last;
      }
      if last.right != null {
        last.right.parent := last;
      }
    }

    lemma RootIsLeast()
      requires Valid()
      ensures root == null <==> elems == {}
      ensures root != null ==> root in elems && forall x :: x in elems ==> !x.CostsLess(root)
    {
      if root != null {
        assert level[0] in elems;
        forall x | x in elems
          ensures !x.CostsLess(root)
        {
          var i :| 0 <= i < |level| && level[i] == x;
          TopIsLeast(level, i);
        }
      }
    }

    // Takes off the element on top; none of the others is less.
    method RmHead() returns (top: PriQElt?)
      requires Valid()
      modifies this, elems`left, elems`right, elems`parent
      ensures Valid()
      ensures top == old(root) && (top == null <==> old(elems) == {})
      ensures top != null ==> top in old(elems) && elems == old(elems) - {top}
      ensures top != null ==> forall x :: x in old(elems) ==> !x.CostsLess(top)
      ensures top == null ==> elems == {}
    {
      RootIsLeast();
      top := root;
      if top == null {
        return;
      }
      Delete(top);
    }

    // Taking off the head until nothing is left gives every element once, in nondecreasing order.
    method Drain() returns (q: seq<PriQElt>)
      requires Valid()
      modifies this, elems`left, elems`right, elems`parent
      ensures Valid() && elems == {} && Distinct(q) && Set(q) == old(elems)
      ensures forall i, j :: 0 <= i < j < |q| ==> !q[j].CostsLess(q[i])
    {
      hide Valid, Less, Set;
      q := [];
      NoneIn();
      ghost var all, costs := elems, map x | x in elems :: x.cost;
      while true
        invariant Valid() && Distinct(q) && elems <= all && Set(q) == all - elems
        invariant forall x :: x in all ==> x.cost == costs[x]
        invariant Rising(q, elems, all, costs)
        decreases |elems|
      {
        hide Distinct;
        ghost var was := elems;
        var top := RmHead();
        if top == null {
          break;
        }
        assert forall x :: x in was ==> !Less(costs[x], costs[top]);
        RisingOn(q, was, elems, all, costs, top);
        q := q + [top];
      }
    }
  }
}
