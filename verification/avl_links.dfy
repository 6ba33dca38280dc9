// Rewriting the links of items in the heap: rotations, and hanging a subtree in a hole (avl.C).

module AvlLinks {
  import opened AvlItems
  import opened AvlShape
  import Balance = AvlBalance

  // ---- The four shifts

  method LeftRotate(ya: AVLitem, ghost t: Tree) returns (p: AVLitem)
    requires t.Node? && t.r.Node? && t.item == ya
    requires Repr(t) && Sorted(Inorder(t))
    modifies ya`right, t.r.item`left
    ensures p == t.r.item && Repr(Balance.RotateLeft(t))
  {
    FocusNode(t);
    FocusNode(t.r);
    ghost var a, b, c := t.l, t.r.l, t.r.r;
    assert {ya, t.r.item} !! Items(a) && {ya, t.r.item} !! Items(b) && {ya, t.r.item} !! Items(c);
    assert Repr(a) && Repr(b) && Repr(c);
    p := ya.right;
    var q := p.left;
    p.left := ya;
    ya.right := q;
    assert Repr(a) && Repr(b) && Repr(c);
  }

  method RightRotate(ya: AVLitem, ghost t: Tree) returns (p: AVLitem)
    requires t.Node? && t.l.Node? && t.item == ya
    requires Repr(t) && Sorted(Inorder(t))
    modifies ya`left, t.l.item`right
    ensures p == t.l.item && Repr(Balance.RotateRight(t))
  {
    FocusNode(t);
    FocusNode(t.l);
    ghost var a, b, c := t.l.l, t.l.r, t.r;
    assert {ya, t.l.item} !! Items(a) && {ya, t.l.item} !! Items(b) && {ya, t.l.item} !! Items(c);
    assert Repr(a) && Repr(b) && Repr(c);
    p := ya.left;
    var q := p.right;
    p.right := ya;
    ya.left := q;
    assert Repr(a) && Repr(b) && Repr(c);
  }

  // The three topmost items are apart from each other and from what hangs below them.
  lemma Crown(t: Tree)
    requires t.Node? && Sorted(Inorder(t))
    ensures t.l.Node? ==> t.item != t.l.item && t.l.item !in Items(t.r)
    ensures t.l.Node? ==> {t.item, t.l.item} !! Items(t.l.l) && {t.item, t.l.item} !! Items(t.l.r)
    ensures t.r.Node? ==> t.item != t.r.item && t.r.item !in Items(t.l)
    ensures t.r.Node? ==> {t.item, t.r.item} !! Items(t.r.l) && {t.item, t.r.item} !! Items(t.r.r)
    ensures t.item !in Items(t.l) && t.item !in Items(t.r)
    ensures Items(t.l) !! Items(t.r)
  {
    FocusNode(t);
    if t.l.Node? {
      FocusNode(t.l);
    }
    if t.r.Node? {
      FocusNode(t.r);
    }
  }

  method ShiftLeft(ya: AVLitem, s: AVLitem, ghost t: Tree) returns (p: AVLitem)
    requires t.Node? && t.r.Node? && t.item == ya && t.r.item == s
    requires Repr(t) && Sorted(Inorder(t))
    modifies ya`left, ya`right, ya`balance, s`left, s`right, s`balance
    ensures p == s && Repr(Balance.ShiftLeft(t))
  {
    var _ := LeftRotate(ya, t);
    ghost var u := Balance.RotateLeft(t);
    Balance.RotateLeftOrder(t);
    Crown(u);
    assert Repr(u.l) && Repr(u.r);
    if s.balance == 1 {
      s.balance := 0;
      ya.balance := 0;
    } else {
      s.balance := -1;
      ya.balance := 1;
    }
    p := s;
    assert Repr(u.l.l) && Repr(u.l.r) && Repr(u.r);
  }

  method ShiftRight(ya: AVLitem, s: AVLitem, ghost t: Tree) returns (p: AVLitem)
    requires t.Node? && t.l.Node? && t.item == ya && t.l.item == s
    requires Repr(t) && Sorted(Inorder(t))
    modifies ya`left, ya`right, ya`balance, s`left, s`right, s`balance
    ensures p == s && Repr(Balance.ShiftRight(t))
  {
    var _ := RightRotate(ya, t);
    ghost var u := Balance.RotateRight(t);
    Balance.RotateRightOrder(t);
    Crown(u);
    assert Repr(u.l) && Repr(u.r);
    if s.balance == -1 {
      s.balance := 0;
      ya.balance := 0;
    } else {
      s.balance := 1;
      ya.balance := -1;
    }
    p := s;
    assert Repr(u.r.l) && Repr(u.r.r) && Repr(u.l);
  }

  // The factors a double shift leaves: gs on top, lo and hi below it.
  method SetFactors(lo: AVLitem, hi: AVLitem, gs: AVLitem, ghost t: Tree)
    requires t.Node? && t.l.Node? && t.r.Node? && t.item == gs && t.l.item == lo && t.r.item == hi
    requires Repr(t) && Sorted(Inorder(t)) && -1 <= t.bal <= 1
    modifies lo`balance, hi`balance, gs`balance
    ensures Repr(Node(gs, 0,
                      Node(lo, if t.bal == 1 then -1 else 0, t.l.l, t.l.r),
                      Node(hi, if t.bal == -1 then 1 else 0, t.r.l, t.r.r)))
  {
    hide Inorder;
    Crown(t);
    ghost var a, b, c, d := t.l.l, t.l.r, t.r.l, t.r.r;
    assert Repr(a) && Repr(b) && Repr(c) && Repr(d);
    lo.balance := if gs.balance == 1 then -1 else 0;
    hi.balance := if gs.balance == -1 then 1 else 0;
    gs.balance := 0;
    assert Repr(a) && Repr(b) && Repr(c) && Repr(d);
    assert Repr(Node(lo, if t.bal == 1 then -1 else 0, a, b));
    assert Repr(Node(hi, if t.bal == -1 then 1 else 0, c, d));
  }

  method ShiftLeftThenRight(ya: AVLitem, s: AVLitem, gs: AVLitem, ghost t: Tree) returns (p: AVLitem)
    requires t.Node? && t.l.Node? && t.l.r.Node? && t.item == ya && t.l.item == s && t.l.r.item == gs
    requires Repr(t) && Sorted(Inorder(t)) && -1 <= t.l.r.bal <= 1
    modifies ya`left, ya`right, ya`balance, s`left, s`right, s`balance, gs`left, gs`right, gs`balance
    ensures p == gs && Repr(Balance.ShiftLeftThenRight(t))
  {
    Crown(t);
    FocusNode(t);
    ghost var l := Balance.RotateLeft(t.l);
    Balance.RotateLeftOrder(t.l);
    ItemsAllocated(t.r);
    assert Repr(t.r) && Repr(t.l);
    var sub := LeftRotate(s, t.l);
    assert Repr(l) && Repr(t.r);
    ya.left := sub;
    ghost var u := Node(ya, t.bal, l, t.r);
    assert Repr(l) && Repr(t.r);
    var _ := RightRotate(ya, u);
    Balance.RotateRightOrder(u);
    SetFactors(s, ya, gs, Balance.RotateRight(u));
    p := gs;
  }

  method ShiftRightThenLeft(ya: AVLitem, s: AVLitem, gs: AVLitem, ghost t: Tree) returns (p: AVLitem)
    requires t.Node? && t.r.Node? && t.r.l.Node? && t.item == ya && t.r.item == s && t.r.l.item == gs
    requires Repr(t) && Sorted(Inorder(t)) && -1 <= t.r.l.bal <= 1
    modifies ya`left, ya`right, ya`balance, s`left, s`right, s`balance, gs`left, gs`right, gs`balance
    ensures p == gs && Repr(Balance.ShiftRightThenLeft(t))
  {
    Crown(t);
    FocusNode(t);
    ghost var r := Balance.RotateRight(t.r);
    Balance.RotateRightOrder(t.r);
    ItemsAllocated(t.l);
    assert Repr(t.l) && Repr(t.r);
    var sub := RightRotate(s, t.r);
    assert Repr(r) && Repr(t.l);
    ya.right := sub;
    ghost var u := Node(ya, t.bal, t.l, r);
    assert Repr(r) && Repr(t.l);
    var _ := LeftRotate(ya, u);
    Balance.RotateLeftOrder(u);
    SetFactors(ya, s, gs, Balance.RotateLeft(u));
    p := gs;
  }

  method Rebalance(ya: AVLitem, ghost t: Tree) returns (r: AVLitem)
    requires Balance.NearlyBalanced(t) && t.item == ya
    requires Repr(t) && Sorted(Inorder(t))
    modifies Items(t)`left, Items(t)`right, Items(t)`balance
    ensures r == Root(Balance.Rotated(t)) && Repr(Balance.Rotated(t))
  {
    r := ya;
    assert t.bal == -2 ==> t.l.Node? && Repr(t.l);
    assert t.bal == 2 ==> t.r.Node? && Repr(t.r);
    if ya.balance == -2 {
      assert ya.left in Items(t);
      if ya.left.balance == 1 {
        assert t.l.r.Node? && Repr(t.l.r) && Balanced(t.l.r) && t.l.r.item in Items(t.l);
        r := ShiftLeftThenRight(ya, ya.left, ya.left.right, t);
      } else {
        r := ShiftRight(ya, ya.left, t);
      }
    } else if ya.balance == 2 {
      assert ya.right in Items(t);
      if ya.right.balance == -1 {
        assert t.r.l.Node? && Repr(t.r.l) && Balanced(t.r.l) && t.r.l.item in Items(t.r);
        r := ShiftRightThenLeft(ya, ya.right, ya.right.left, t);
      } else {
        r := ShiftLeft(ya, ya.right, t);
      }
    }
  }

  // Walks from ya down to the new item, moving each factor towards it.
  method AdjustFactors(ya: AVLitem, item: AVLitem, ghost u: Tree)
    requires Repr(u) && Root(u) == ya && item in Items(u) && Sorted(Inorder(u)) && Balance.Small(u)
    modifies Items(u)`balance
    ensures Repr(Balance.Adjust(u, item))
  {
    var p := ya;
    ghost var c, sub := Top, u;
    while p != item
      invariant p == Root(sub) && CtxRepr(c, p) && Repr(sub)
      invariant item in Items(sub) && Items(sub) <= Items(u) && Balance.Small(sub)
      invariant Inorder(Plug(c, sub)) == Inorder(u)
      invariant Plug(c, Balance.Adjust(sub, item)) == Balance.Adjust(u, item)
      decreases sub
    {
      Focus(c, sub);
      WhichSide(sub, item);
      ghost var n, b, l, r := sub.item, sub.bal, sub.l, sub.r;
      assert Repr(l) && Repr(r);
      ghost var before := Plug(c, sub);
      if item.key < p.key {
        p.balance := p.balance - 1;
        p := p.left;
        c, sub := InLeft(n, b - 1, r, c), l;
      } else {
        p.balance := p.balance + 1;
        p := p.right;
        c, sub := InRight(n, b + 1, l, c), r;
      }
      InorderPlug(c.up, Node(n, b, l, r));
      InorderPlug(c.up, Node(n, c.bal, l, r));
    }
    ReprPlug(c, sub);
  }

  ghost predicate Apart(c: Ctx) {
    match c
    case Top => true
    case InLeft(n, _, r, up) => n !in Items(r) && n !in CtxItems(up)
    case InRight(n, _, l, up) => n !in Items(l) && n !in CtxItems(up)
  }

  lemma ApartInTree(c: Ctx, t: Tree)
    requires Sorted(Inorder(Plug(c, t)))
    ensures Apart(c)
  {
    if !c.Top? {
      FocusCtx(c, t);
    }
  }

  // Fills the hole of c with h; the key tells on which side of fp the hole is.
  method HangByKey(fp: AVLitem, key: nat, h: AVLitem?, ghost c: Ctx, ghost was: AVLitem?)
    requires !c.Top? && fp == c.n && CtxRepr(c, was) && Apart(c)
    requires if c.InLeft? then key < fp.key else key > fp.key
    modifies fp`left, fp`right
    ensures CtxRepr(c, h)
  {
    if key < fp.key {
      fp.left := h;
    } else {
      fp.right := h;
    }
  }

  // Fills the hole of c, which p filled so far, with h.
  method HangByItem(fp: AVLitem, p: AVLitem, h: AVLitem?, ghost c: Ctx)
    requires !c.Top? && fp == c.n && CtxRepr(c, p) && Apart(c)
    requires c.InRight? ==> p !in Items(c.l)
    modifies fp`left, fp`right
    ensures CtxRepr(c, h)
  {
    if fp.left == p {
      fp.left := h;
    } else if fp.right == p {
      fp.right := h;
    }
  }

  // A new item takes over the links and the factor of p.
  method TakeOver(item: AVLitem, p: AVLitem, ghost t: Tree)
    requires Root(t) == p && Repr(t) && item !in Items(t)
    modifies item`left, item`right, item`balance
    ensures Repr(Node(item, t.bal, t.l, t.r))
  {
    ghost var l, r := t.l, t.r;
    assert Repr(l) && Repr(r);
    item.right := p.right;
    item.left := p.left;
    item.balance := p.balance;
    assert Repr(l) && Repr(r);
  }

  lemma TreeReplace(c: Ctx, t: Tree, y: AVLitem)
    requires t.Node? && t.item.key == y.key && Sorted(Inorder(Plug(c, t)))
    ensures Sorted(Inorder(Plug(c, Node(y, t.bal, t.l, t.r))))
  {
    InorderNode(c, t);
    InorderNode(c, Node(y, t.bal, t.l, t.r));
    SortedReplace(Before(c) + Inorder(t.l), t.item, y, Inorder(t.r) + After(c));
  }

  lemma SortedReplace(a: seq<AVLitem>, x: AVLitem, y: AVLitem, b: seq<AVLitem>)
    requires Sorted(a + [x] + b) && x.key == y.key
    ensures Sorted(a + [y] + b)
  {
    var s, t := a + [x] + b, a + [y] + b;
    assert forall i :: 0 <= i < |s| ==> t[i].key == s[i].key;
  }

  method SettleBelow(ya: AVLitem, item: AVLitem, ghost ty: Tree) returns (r: AVLitem)
    requires Repr(Balance.Attach(ty, item)) && Root(ty) == ya && Sorted(Inorder(Balance.Attach(ty, item)))
    requires Balanced(ty) && item !in Items(ty) && Balance.EvenBelow(ty, item.key)
    modifies Items(Balance.Attach(ty, item))`left, Items(Balance.Attach(ty, item))`right,
             Items(Balance.Attach(ty, item))`balance
    ensures Repr(Balance.Grown(ty, item)) && r == Root(Balance.Grown(ty, item))
  {
    ghost var u := Balance.Attach(ty, item);
    Balance.BalancedSmall(ty);
    Balance.AttachSmall(ty, item);
    Balance.AttachItems(ty, item);
    Balance.AdjustOrder(u, item);
    Balance.AddBalances(ty, item);
    AdjustFactors(ya, item, u);
    r := Rebalance(ya, Balance.Adjust(u, item));
  }

  // What a method that works inside a subtree needs to know of the tree around it.
  lemma Isolate(c: Ctx, t: Tree)
    requires Repr(Plug(c, t)) && Sorted(Inorder(Plug(c, t)))
    ensures CtxRepr(c, Root(t)) && Repr(t) && Sorted(Inorder(t))
    ensures Root(Plug(c, t)) == TopItem(c, Root(t))
    ensures Items(t) <= Items(Plug(c, t)) && CtxItems(c) <= Items(Plug(c, t)) && CtxItems(c) !! Items(t)
    ensures Apart(c) && forall x :: x in CtxItems(c) ==> allocated(x)
  {
    ReprPlug(c, t);
    RootPlug(c, t);
    ItemsPlug(c, t);
    FocusTree(c, t);
    ApartInTree(c, t);
    CtxItemsAllocated(c);
  }

  // Putting back a subtree with the same items in the same order.
  lemma Splice(c: Ctx, u: Tree, w: Tree)
    requires Inorder(u) == Inorder(w) && CtxRepr(c, Root(w)) && Repr(w)
    ensures Repr(Plug(c, w)) && Root(Plug(c, w)) == TopItem(c, Root(w))
    ensures Inorder(Plug(c, w)) == Inorder(Plug(c, u)) && Items(Plug(c, w)) == Items(Plug(c, u))
  {
    ReprPlug(c, w);
    RootPlug(c, w);
    InorderPlug(c, u);
    InorderPlug(c, w);
    ItemsInorder(Plug(c, w));
    ItemsInorder(Plug(c, u));
  }

  lemma HangPlace(c: Ctx, k: int)
    requires !c.Top? && Splits(c, k)
    ensures if c.InLeft? then k < c.n.key else c.n.key < k
  {
    if c.InLeft? {
      assert After(c)[0] == c.n;
    } else {
      assert Before(c)[|Before(c)| - 1] == c.n;
    }
  }
}
