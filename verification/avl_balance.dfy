// The rebalancing steps of avl.C on tree values, and the heights they preserve.

module AvlBalance {
  import opened AvlItems
  import opened AvlShape

  // A rotation of the links alone.
  function RotateLeft(t: Tree): Tree
    requires t.Node? && t.r.Node?
  {
    Node(t.r.item, t.r.bal, Node(t.item, t.bal, t.l, t.r.l), t.r.r)
  }

  function RotateRight(t: Tree): Tree
    requires t.Node? && t.l.Node?
  {
    Node(t.l.item, t.l.bal, t.l.l, Node(t.item, t.bal, t.l.r, t.r))
  }

  function ShiftLeft(t: Tree): Tree
    requires t.Node? && t.r.Node?
  {
    var s := t.r;
    if s.bal == 1 then Node(s.item, 0, Node(t.item, 0, t.l, s.l), s.r)
    else Node(s.item, -1, Node(t.item, 1, t.l, s.l), s.r)
  }

  function ShiftRight(t: Tree): Tree
    requires t.Node? && t.l.Node?
  {
    var s := t.l;
    if s.bal == -1 then Node(s.item, 0, s.l, Node(t.item, 0, s.r, t.r))
    else Node(s.item, 1, s.l, Node(t.item, -1, s.r, t.r))
  }

  function ShiftLeftThenRight(t: Tree): Tree
    requires t.Node? && t.l.Node? && t.l.r.Node?
  {
    var s, g := t.l, t.l.r;
    Node(g.item, 0,
         Node(s.item, if g.bal == 1 then -1 else 0, s.l, g.l),
         Node(t.item, if g.bal == -1 then 1 else 0, g.r, t.r))
  }

  function ShiftRightThenLeft(t: Tree): Tree
    requires t.Node? && t.r.Node? && t.r.l.Node?
  {
    var s, g := t.r, t.r.l;
    Node(g.item, 0,
         Node(t.item, if g.bal == 1 then -1 else 0, t.l, g.l),
         Node(s.item, if g.bal == -1 then 1 else 0, g.r, s.r))
  }

  // The factor at the root is exact, but may be as far as two from zero.
  ghost predicate NearlyBalanced(t: Tree) {
    && t.Node? && Balanced(t.l) && Balanced(t.r)
    && t.bal == Height(t.r) - Height(t.l) && -2 <= t.bal <= 2
  }

  // The rotation chosen for the factors at the root and at its heavier child.
  ghost function Rotated(t: Tree): Tree
    requires NearlyBalanced(t)
  {
    if t.bal == -2 then
      (if t.l.bal == 1 then ShiftLeftThenRight(t) else ShiftRight(t))
    else if t.bal == 2 then
      (if t.r.bal == -1 then ShiftRightThenLeft(t) else ShiftLeft(t))
    else
      t
  }

  lemma Associate(a: seq<AVLitem>, b: seq<AVLitem>, c: seq<AVLitem>, d: seq<AVLitem>, e: seq<AVLitem>)
    ensures (a + b + c) + d + e == a + b + (c + d + e)
  {
  }

  lemma RotateLeftOrder(t: Tree)
    requires t.Node? && t.r.Node?
    ensures Inorder(RotateLeft(t)) == Inorder(t)
  {
    var s := t.r;
    Associate(Inorder(t.l), [t.item], Inorder(s.l), [s.item], Inorder(s.r));
  }

  lemma RotateRightOrder(t: Tree)
    requires t.Node? && t.l.Node?
    ensures Inorder(RotateRight(t)) == Inorder(t)
  {
    var s := t.l;
    Associate(Inorder(s.l), [s.item], Inorder(s.r), [t.item], Inorder(t.r));
  }

  lemma ShiftLeftOrder(t: Tree)
    requires t.Node? && t.r.Node?
    ensures Inorder(ShiftLeft(t)) == Inorder(t)
  {
    RotateLeftOrder(t);
    assert Inorder(ShiftLeft(t)) == Inorder(RotateLeft(t));
  }

  lemma ShiftRightOrder(t: Tree)
    requires t.Node? && t.l.Node?
    ensures Inorder(ShiftRight(t)) == Inorder(t)
  {
    RotateRightOrder(t);
    assert Inorder(ShiftRight(t)) == Inorder(RotateRight(t));
  }

  // A double shift is two rotations, up to the factors it sets.
  lemma ShiftLeftThenRightOrder(t: Tree)
    requires t.Node? && t.l.Node? && t.l.r.Node?
    ensures Inorder(ShiftLeftThenRight(t)) == Inorder(t)
  {
    var u := Node(t.item, t.bal, RotateLeft(t.l), t.r);
    RotateLeftOrder(t.l);
    RotateRightOrder(u);
    var v, w := RotateRight(u), ShiftLeftThenRight(t);
    assert Inorder(w.l) == Inorder(v.l) && Inorder(w.r) == Inorder(v.r);
  }

  lemma ShiftRightThenLeftOrder(t: Tree)
    requires t.Node? && t.r.Node? && t.r.l.Node?
    ensures Inorder(ShiftRightThenLeft(t)) == Inorder(t)
  {
    var u := Node(t.item, t.bal, t.l, RotateRight(t.r));
    RotateRightOrder(t.r);
    RotateLeftOrder(u);
    var v, w := RotateLeft(u), ShiftRightThenLeft(t);
    assert Inorder(w.l) == Inorder(v.l) && Inorder(w.r) == Inorder(v.r);
  }

  lemma ShiftLeftThenRightBalanced(t: Tree)
    requires NearlyBalanced(t) && t.bal == -2 && t.l.bal == 1
    ensures Balanced(ShiftLeftThenRight(t)) && Height(ShiftLeftThenRight(t)) == Height(t) - 1
  {
    var g := t.l.r;
    assert Balanced(g);
    var u := ShiftLeftThenRight(t);
    assert Balanced(u.l) && Balanced(u.r);
  }

  lemma ShiftRightThenLeftBalanced(t: Tree)
    requires NearlyBalanced(t) && t.bal == 2 && t.r.bal == -1
    ensures Balanced(ShiftRightThenLeft(t)) && Height(ShiftRightThenLeft(t)) == Height(t) - 1
  {
    var g := t.r.l;
    assert Balanced(g);
    var u := ShiftRightThenLeft(t);
    assert Balanced(u.l) && Balanced(u.r);
  }

  // A rotation keeps the order, restores every factor, and shrinks the tree by one exactly
  // when the heavier child was not even.
  lemma RotatedCorrect(t: Tree)
    requires NearlyBalanced(t)
    ensures Balanced(Rotated(t)) && Rotated(t).Node?
    ensures Inorder(Rotated(t)) == Inorder(t)
    ensures Height(Rotated(t)) ==
            if (t.bal == -2 && t.l.bal != 0) || (t.bal == 2 && t.r.bal != 0) then Height(t) - 1 else Height(t)
  {
    if t.bal == -2 {
      if t.l.bal == 1 {
        ShiftLeftThenRightOrder(t);
        ShiftLeftThenRightBalanced(t);
      } else {
        ShiftRightOrder(t);
      }
    } else if t.bal == 2 {
      if t.r.bal == -1 {
        ShiftRightThenLeftOrder(t);
        ShiftRightThenLeftBalanced(t);
      } else {
        ShiftLeftOrder(t);
      }
    }
  }

  // ---- Insertion

  // The item attached as a leaf, no factor touched.
  ghost function Attach(t: Tree, x: AVLitem): Tree {
    match t
    case Nil => Node(x, 0, Nil, Nil)
    case Node(n, b, l, r) =>
      if x.key < n.key then Node(n, b, Attach(l, x), r) else Node(n, b, l, Attach(r, x))
  }

  // One step of the factors towards the side x is on, from the root of t down to x.
  ghost function Adjust(t: Tree, x: AVLitem): Tree {
    match t
    case Nil => Nil
    case Node(n, b, l, r) =>
      if n == x then t
      else if x.key < n.key then Node(n, b - 1, Adjust(l, x), r)
      else Node(n, b + 1, l, Adjust(r, x))
  }

  // All factors on the search path for k are zero.
  ghost predicate EvenPath(t: Tree, k: nat) {
    match t
    case Nil => true
    case Node(n, b, l, r) => b == 0 && (if k < n.key then EvenPath(l, k) else EvenPath(r, k))
  }

  ghost predicate EvenBelow(t: Tree, k: nat) {
    t.Node? && (if k < t.item.key then EvenPath(t.l, k) else EvenPath(t.r, k))
  }

  lemma {:induction false} AttachPlug(c: Ctx, t: Tree, x: AVLitem)
    requires AllBelow(Before(c), x.key) && AllAbove(After(c), x.key)
    ensures Attach(Plug(c, t), x) == Plug(c, Attach(t, x))
    decreases c
  {
    match c
    case Top =>
    case InLeft(n, b, r, up) =>
      assert After(c)[0] == n;
      assert After(c) == ([n] + Inorder(r)) + After(up);
      assert forall i :: 0 <= i < |After(up)| ==> After(up)[i] == After(c)[1 + |Inorder(r)| + i];
      AttachPlug(up, Node(n, b, t, r), x);
    case InRight(n, b, l, up) =>
      assert Before(c)[|Before(c)| - 1] == n;
      assert forall i :: 0 <= i < |Before(up)| ==> Before(up)[i] == Before(c)[i];
      AttachPlug(up, Node(n, b, l, t), x);
  }

  // Attaching below an even path makes the tree one higher, and the factor at its root odd.
  lemma {:induction false} EvenGrows(t: Tree, x: AVLitem)
    requires Balanced(t) && EvenPath(t, x.key) && x !in Items(t)
    ensures Balanced(Adjust(Attach(t, x), x))
    ensures Height(Adjust(Attach(t, x), x)) == Height(t) + 1
    ensures Adjust(Attach(t, x), x).Node?
    ensures t.Node? ==> Adjust(Attach(t, x), x).bal != 0
  {
    if t.Node? {
      if x.key < t.item.key {
        EvenGrows(t.l, x);
      } else {
        EvenGrows(t.r, x);
      }
    }
  }

  // The whole insertion step below the balance point: the subtree becomes balanced again, and
  // keeps its height unless its own factor was zero.
  lemma AddBalances(t: Tree, x: AVLitem)
    requires t.Node? && Balanced(t) && EvenBelow(t, x.key) && x !in Items(t)
    ensures NearlyBalanced(Adjust(Attach(t, x), x))
    ensures Balanced(Rotated(Adjust(Attach(t, x), x)))
    ensures t.bal != 0 ==> Height(Rotated(Adjust(Attach(t, x), x))) == Height(t)
  {
    var a := Adjust(Attach(t, x), x);
    if x.key < t.item.key {
      EvenGrows(t.l, x);
    } else {
      EvenGrows(t.r, x);
    }
    RotatedCorrect(a);
  }

  // The subtree at the balance point after an insertion.
  ghost function Grown(t: Tree, x: AVLitem): Tree
    requires t.Node? && Balanced(t) && EvenBelow(t, x.key) && x !in Items(t)
  {
    AddBalances(t, x);
    Rotated(Adjust(Attach(t, x), x))
  }

  lemma GrownFacts(t: Tree, x: AVLitem)
    requires t.Node? && Balanced(t) && EvenBelow(t, x.key) && x !in Items(t)
    ensures Balanced(Grown(t, x)) && Grown(t, x).Node?
    ensures t.bal != 0 ==> Height(Grown(t, x)) == Height(t)
    ensures Inorder(Grown(t, x)) == Inorder(Attach(t, x))
    ensures Items(Grown(t, x)) == Items(t) + {x}
  {
    AddBalances(t, x);
    var a := Attach(t, x);
    RotatedCorrect(Adjust(a, x));
    AdjustOrder(a, x);
    AttachItems(t, x);
    ItemsInorder(a);
    ItemsInorder(Grown(t, x));
  }

  lemma {:induction false} AdjustOrder(t: Tree, x: AVLitem)
    ensures Inorder(Adjust(t, x)) == Inorder(t)
    ensures Items(Adjust(t, x)) == Items(t)
  {
    if t.Node? {
      AdjustOrder(t.l, x);
      AdjustOrder(t.r, x);
    }
  }

  lemma {:induction false} AttachItems(t: Tree, x: AVLitem)
    ensures Items(Attach(t, x)) == Items(t) + {x}
  {
    if t.Node? {
      AttachItems(t.l, x);
      AttachItems(t.r, x);
    }
  }

  ghost predicate Small(t: Tree) {
    t.Node? ==> -1 <= t.bal <= 1 && Small(t.l) && Small(t.r)
  }

  lemma {:induction false} BalancedSmall(t: Tree)
    requires Balanced(t)
    ensures Small(t)
  {
    if t.Node? {
      BalancedSmall(t.l);
      BalancedSmall(t.r);
    }
  }

  lemma {:induction false} AttachSmall(t: Tree, x: AVLitem)
    requires Small(t)
    ensures Small(Attach(t, x))
  {
    if t.Node? {
      AttachSmall(t.l, x);
      AttachSmall(t.r, x);
    }
  }

  // ---- Height and size

  // The fewest items a balanced tree of height h can hold.
  function MinItems(h: nat): (n: nat) {
    if h == 0 then 0 else if h == 1 then 1 else 1 + MinItems(h - 1) + MinItems(h - 2)
  }

  lemma {:induction false} MinItemsMonotone(g: nat, h: nat)
    requires g <= h
    ensures MinItems(g) <= MinItems(h)
    decreases h
  {
    if g < h {
      MinItemsMonotone(g, h - 1);
    }
  }

  lemma {:induction false} BalancedSize(t: Tree)
    requires Balanced(t)
    ensures |Inorder(t)| >= MinItems(Height(t))
  {
    if t.Node? {
      BalancedSize(t.l);
      BalancedSize(t.r);
      var h := Height(t);
      if h > 1 {
        MinItemsMonotone(h - 2, Height(t.l));
        MinItemsMonotone(h - 2, Height(t.r));
      }
    }
  }

  lemma MinItems18()
    ensures MinItems(17) == 4180 && MinItems(18) == 6764
  {
    assert MinItems(5) == 12 && MinItems(6) == 20;
    assert MinItems(8) == 54 && MinItems(9) == 88;
    assert MinItems(11) == 232 && MinItems(12) == 376;
    assert MinItems(14) == 986 && MinItems(15) == 1596;
  }

  lemma MinItems27()
    ensures MinItems(26) == 317810 && MinItems(27) == 514228
  {
    MinItems18();
    assert MinItems(20) == 17710 && MinItems(21) == 28656;
    assert MinItems(23) == 75024 && MinItems(24) == 121392;
  }

  lemma MinItems34()
    ensures MinItems(33) == 9227464 && MinItems(34) == 14930351
  {
    MinItems27();
    assert MinItems(29) == 1346268 && MinItems(30) == 2178308;
    assert MinItems(32) == 5702886;
  }

  // Fewer than 14930351 items: no item has more than 32 ancestors. Fewer than 9227464: no more
  // than 31.
  lemma DepthBound(c: Ctx, t: Tree)
    requires Balanced(Plug(c, t)) && t.Node?
    requires |Inorder(Plug(c, t))| < 14930351
    ensures Depth(c) + Height(t) <= 33
  {
    HeightPlug(c, t);
    BalancedSize(Plug(c, t));
    MinItems34();
    if Height(Plug(c, t)) >= 34 {
      MinItemsMonotone(34, Height(Plug(c, t)));
    }
  }
}
