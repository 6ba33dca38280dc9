// The parts of AVLtree::remove that work on items and on the stack of ancestors (stack.h).

module AvlUnlink {
  import opened AvlItems
  import opened AvlShape
  import opened AvlLinks
  import Balance = AvlBalance

  // A fixed stack of 32 slots.
  class Stack {
    const stack: array<AVLitem?>
    var sp: nat
    var marker: nat
    ghost var view: seq<AVLitem>

    ghost predicate Valid()
      reads this, stack
    {
      && stack.Length == 32 && sp == |view| <= 32
      && forall i :: 0 <= i < sp ==> stack[i] == view[i]
    }

    constructor ()
      ensures Valid() && view == [] && fresh(this) && fresh(stack)
    {
      stack := new AVLitem?[32](i => null);
      sp, marker, view := 0, 0, [];
    }

    method Push(p: AVLitem)
      requires Valid() && |view| < 32
      modifies `sp, `view, stack
      ensures Valid() && view == old(view) + [p]
    {
      stack[sp] := p;
      sp := sp + 1;
      view := view + [p];
    }

    method Pop() returns (p: AVLitem?)
      requires Valid()
      modifies `sp, `view
      ensures Valid()
      ensures old(view) == [] ==> p == null && view == []
      ensures old(view) != [] ==> p == old(view)[|old(view)| - 1] && view == old(view)[..|old(view)| - 1]
    {
      if sp > 0 {
        sp := sp - 1;
        p := stack[sp];
        view := view[..sp];
      } else {
        p := null;
      }
    }

    method Mark()
      requires Valid()
      modifies `marker
      ensures Valid() && marker == |view|
    {
      marker := sp;
    }

    method ReplaceMark(p: AVLitem)
      requires Valid() && marker < |view|
      modifies `view, stack
      ensures Valid() && view == old(view)[marker := p]
    {
      stack[marker] := p;
      view := view[marker := p];
    }

    predicate IsEmpty()
      requires Valid()
      reads this, stack
      ensures IsEmpty() <==> view == []
    {
      sp == 0
    }
  }

  // ---- One step up: the subtree s in the hole of c has become one lower

  // The subtree at the parent, its factor moved away from the lower side.
  ghost function Lowered(c: Ctx, s: Tree): Tree
    requires !c.Top?
  {
    match c
    case InLeft(n, b, r, _) => Node(n, b + 1, s, r)
    case InRight(n, b, l, _) => Node(n, b - 1, l, s)
  }

  lemma LoweredNearly(c: Ctx, s: Tree)
    requires !c.Top? && Balanced(s) && CtxBalanced(c, Height(s) + 1)
    ensures Balance.NearlyBalanced(Lowered(c, s)) && Items(Lowered(c, s)) <= Items(s) + CtxItems(c)
  {
  }

  // The parent's subtree after the step is one lower in its turn in these cases.
  ghost predicate StillLower(u: Tree)
    requires Balance.NearlyBalanced(u)
  {
    u.bal == 0 || (u.bal == -2 && u.l.bal != 0) || (u.bal == 2 && u.r.bal != 0)
  }

  // The height the rest of the tree expects at the parent.
  ghost function Expected(c: Ctx, s: Tree): nat
    requires !c.Top?
  {
    1 + if c.InLeft? then Max(Height(s) + 1, Height(c.r)) else Max(Height(c.l), Height(s) + 1)
  }

  lemma ExpectedHeight(c: Ctx, s: Tree)
    requires !c.Top? && CtxBalanced(c, Height(s) + 1)
    ensures CtxBalanced(c.up, Expected(c, s))
  {
  }

  lemma LoweredHeight(c: Ctx, s: Tree)
    requires !c.Top? && Balanced(s) && CtxBalanced(c, Height(s) + 1) && Balance.NearlyBalanced(Lowered(c, s))
    ensures var u := Lowered(c, s);
            Expected(c, s) == Height(Balance.Rotated(u)) + if StillLower(u) then 1 else 0
  {
    var u := Lowered(c, s);
    Balance.RotatedCorrect(u);
    assert Expected(c, s) == Height(u) + if u.bal == 0 then 1 else 0;
  }

  lemma LoweredOrder(c: Ctx, s: Tree)
    requires !c.Top?
    ensures Inorder(Plug(c.up, Lowered(c, s))) == Inorder(Plug(c, s))
  {
    InorderPlug(c, s);
    InorderPlug(c.up, Lowered(c, s));
    match c
    case InLeft(n, b, r, up) => Regroup(Before(up), Inorder(s), [n], Inorder(r), After(up));
    case InRight(n, b, l, up) => Regroup(Before(up), Inorder(l), [n], Inorder(s), After(up));
  }

  // Moves the parent's factor.
  method Lower(parent: AVLitem, child: AVLitem?, imbal: int, ghost c: Ctx, ghost s: Tree)
    requires !c.Top? && c.n == parent && CtxRepr(c, child) && Root(s) == child && Repr(s)
    requires Apart(c) && parent !in Items(s)
    requires c.InRight? ==> child == null || child !in Items(c.l)
    requires -1 <= c.bal <= 1 && (child == null ==> imbal == if c.InLeft? then 1 else -1)
    modifies parent`balance
    ensures Repr(Lowered(c, s)) && CtxRepr(c.up, parent)
  {
    if child == null {
      parent.balance := parent.balance + imbal;
    } else if parent.left == child {
      parent.balance := parent.balance + 1;
    } else if parent.right == child {
      parent.balance := parent.balance - 1;
    }
  }

  // One step up: moves the parent's factor, and rotates at the parent if need be.
  method ClimbStep(parent: AVLitem, child: AVLitem?, imbal: int, ghost c: Ctx, ghost s: Tree)
      returns (r: AVLitem, rotated: bool, even: bool)
    requires !c.Top? && c.n == parent && CtxRepr(c, child) && Root(s) == child && Repr(s)
    requires Balanced(s) && CtxBalanced(c, Height(s) + 1) && Sorted(Inorder(Plug(c, s)))
    requires child == null ==> imbal == if c.InLeft? then 1 else -1
    modifies Items(Lowered(c, s))`left, Items(Lowered(c, s))`right, Items(Lowered(c, s))`balance
    ensures Balance.NearlyBalanced(Lowered(c, s))
    ensures Repr(Balance.Rotated(Lowered(c, s))) && r == Root(Balance.Rotated(Lowered(c, s)))
    ensures rotated <==> Lowered(c, s).bal == 2 || Lowered(c, s).bal == -2
    ensures !rotated ==> !even && r == parent && r.balance == Lowered(c, s).bal
    ensures rotated ==> (even <==> !StillLower(Lowered(c, s)))
    ensures CtxRepr(c.up, parent)
  {
    ghost var u := Lowered(c, s);
    LoweredNearly(c, s);
    LoweredOrder(c, s);
    FocusCtx(c, s);
    ApartInTree(c, s);
    FocusTree(c.up, u);
    CtxItemsAllocated(c.up);
    Lower(parent, child, imbal, c, s);
    assert Repr(u.l) && Repr(u.r);
    rotated := parent.balance == -2 || parent.balance == 2;
    even := (parent.balance == -2 && parent.left.balance == 0) || (parent.balance == 2 && parent.right.balance == 0);
    r := Rebalance(parent, u);
  }

  // What one step up leaves: same items, same order, and the height the rest expects.
  lemma ClimbFacts(c: Ctx, s: Tree)
    requires !c.Top? && Balanced(s) && CtxBalanced(c, Height(s) + 1) && Balance.NearlyBalanced(Lowered(c, s))
    ensures var u := Lowered(c, s); var w := Balance.Rotated(u);
            && w.Node? && Balanced(w) && CtxBalanced(c.up, Height(w) + if StillLower(u) then 1 else 0)
            && Items(w) <= Items(s) + CtxItems(c)
            && Inorder(Plug(c.up, w)) == Inorder(Plug(c, s))
  {
    hide Height;
    var u := Lowered(c, s);
    var w := Balance.Rotated(u);
    ExpectedHeight(c, s);
    LoweredHeight(c, s);
    LoweredOrder(c, s);
    Balance.RotatedCorrect(u);
    ItemsInorder(u);
    ItemsInorder(w);
    InorderPlug(c.up, u);
    InorderPlug(c.up, w);
  }

  // ---- Taking the predecessor of an item with two subtrees out of its place

  // A path of right children only.
  ghost predicate RightSpine(c: Ctx) {
    match c
    case Top => true
    case InLeft(_, _, _, _) => false
    case InRight(_, _, _, up) => RightSpine(up)
  }

  // Walks to the last item of p's left subtree, stacking p and the items on the way.
  method FindPredecessor(p: AVLitem, st: Stack, ghost c: Ctx, ghost sub: Tree)
      returns (q: AVLitem, fq: AVLitem, ghost rel: Ctx, ghost qs: Tree)
    requires sub.Node? && sub.item == p && sub.l.Node? && Repr(sub)
    requires st.Valid() && st.view == Ancestors(c) && |st.view| + Height(sub) <= 33
    modifies st`sp, st`view, st`marker, st.stack
    ensures st.Valid() && st.marker == Depth(c) && st.view == Ancestors(c) + [p] + Ancestors(rel)
    ensures RightSpine(rel) && Plug(rel, qs) == sub.l && qs.Node? && qs.item == q && qs.r.Nil?
    ensures fq == (if rel.Top? then p else rel.n) && Repr(sub)
  {
    hide CtxRepr;
    ItemsAllocated(sub);
    assert Repr(sub.l);
    st.Mark();
    st.Push(p);
    fq := p;
    q := p.left;
    rel, qs := Top, sub.l;
    assert st.view == Ancestors(c) + [p] + Ancestors(rel);
    while q.right != null
      invariant st.Valid() && st.marker == Depth(c) && st.view == Ancestors(c) + [p] + Ancestors(rel)
      invariant RightSpine(rel) && Plug(rel, qs) == sub.l && qs.Node? && qs.item == q
      invariant fq == (if rel.Top? then p else rel.n) && Repr(sub)
      decreases qs
    {
      HeightPlug(rel, qs);
      assert Repr(sub.l);
      ReprPlug(rel, qs);
      fq := q;
      st.Push(fq);
      q := q.right;
      rel, qs := GoRight(rel, qs), qs.r;
      assert st.view == Ancestors(c) + [p] + Ancestors(rel);
    }
    assert Repr(sub.l);
    ReprPlug(rel, qs);
  }

  // The parts around the predecessor are apart from each other.
  lemma PredecessorApart(sub: Tree, rel: Ctx, qs: Tree)
    requires sub.Node? && Sorted(Inorder(sub)) && Plug(rel, qs) == sub.l && qs.Node?
    ensures Apart(rel) && qs.item !in Items(qs.l) && qs.item !in Items(sub.r) && qs.item !in CtxItems(rel)
            && qs.item != sub.item
    ensures sub.item !in Items(qs.l) && sub.item !in Items(sub.r) && sub.item !in CtxItems(rel)
    ensures CtxItems(rel) !! Items(qs.l) && CtxItems(rel) !! Items(sub.r)
  {
    hide Plug;
    FocusNode(sub);
    ItemsPlug(rel, qs);
    FocusTree(rel, qs);
    FocusNode(qs);
    ApartInTree(rel, qs);
  }

  lemma PredecessorHeld(sub: Tree, rel: Ctx, qs: Tree)
    requires sub.Node? && Repr(sub) && Plug(rel, qs) == sub.l && qs.Node?
    ensures Repr(qs) && Repr(qs.l) && Repr(sub.r) && CtxRepr(rel, qs.item)
    ensures sub.item.left == TopItem(rel, qs.item)
  {
    assert Repr(sub.l) && Repr(sub.r);
    ReprPlug(rel, qs);
    RootPlug(rel, qs);
  }

  // The predecessor q of p leaves its place.
  method Unhook(p: AVLitem, q: AVLitem, fq: AVLitem, child: AVLitem?, ghost rel: Ctx)
    requires RightSpine(rel) && CtxRepr(rel, q) && Apart(rel) && q !in CtxItems(rel)
    requires fq == (if rel.Top? then p else rel.n) && (rel.Top? ==> p.left == q)
    modifies fq`left, fq`right
    ensures CtxRepr(rel, child) && (rel.Top? ==> p.left == child && p.right == old(p.right))
  {
    if fq.left == q {
      fq.left := child;
    } else if fq.right == q {
      fq.right := child;
    }
  }

  // The predecessor q of p takes over the links and the factor of p.
  method SwapIn(p: AVLitem, q: AVLitem, fq: AVLitem, ghost sub: Tree, ghost rel: Ctx, ghost qs: Tree)
      returns (child: AVLitem?, imbal: int)
    requires sub.Node? && sub.item == p && sub.l.Node? && Repr(sub) && Sorted(Inorder(sub))
    requires RightSpine(rel) && Plug(rel, qs) == sub.l && qs.Node? && qs.item == q && qs.r.Nil?
    requires fq == (if rel.Top? then p else rel.n)
    modifies fq`left, fq`right, q`left, q`right, q`balance
    ensures child == Root(qs.l) && Repr(qs.l) && Repr(sub.r) && CtxRepr(rel, child)
    ensures q.left == TopItem(rel, child) && q.right == Root(sub.r) && q.balance == sub.bal
    ensures imbal == if rel.Top? then 1 else -1
  {
    ghost var ql, r := qs.l, sub.r;
    PredecessorApart(sub, rel, qs);
    PredecessorHeld(sub, rel, qs);
    ItemsAllocated(ql);
    ItemsAllocated(r);
    CtxItemsAllocated(rel);
    child := q.left;
    imbal := if fq == p then 1 else -1;
    TopItemIn(rel, q);
    Unhook(p, q, fq, child, rel);
    assert Repr(ql) && Repr(r) && p.left == TopItem(rel, child);
    CopyLinks(p, q);
    assert Repr(ql) && Repr(r);
  }

  method CopyLinks(p: AVLitem, q: AVLitem)
    modifies q`left, q`right, q`balance
    ensures q.left == old(p.left) && q.right == old(p.right) && q.balance == old(p.balance)
  {
    q.left := p.left;
    q.right := p.right;
    q.balance := p.balance;
  }

  lemma {:induction false} ReprCompose(c: Ctx, o: Ctx, h: AVLitem?)
    ensures CtxRepr(Compose(c, o), h) <==> CtxRepr(c, h) && CtxRepr(o, TopItem(c, h))
    ensures TopItem(Compose(c, o), h) == TopItem(o, TopItem(c, h))
    decreases c
  {
    if !c.Top? {
      ReprCompose(c.up, o, c.n);
    }
  }

  lemma {:induction false} BalancedCompose(c: Ctx, o: Ctx, t: Tree)
    ensures CtxBalanced(Compose(c, o), Height(t)) <==> CtxBalanced(c, Height(t)) && CtxBalanced(o, Height(Plug(c, t)))
    decreases c
  {
    match c
    case Top =>
    case InLeft(n, b, r, up) => BalancedCompose(up, o, Node(n, b, t, r));
    case InRight(n, b, l, up) => BalancedCompose(up, o, Node(n, b, l, t));
  }

  lemma {:induction false} SpineEnd(c: Ctx)
    requires RightSpine(c)
    ensures After(c) == []
  {
    if !c.Top? {
      SpineEnd(c.up);
    }
  }

  // The items in order, without the item at the root of sub.
  ghost function Rest(c: Ctx, sub: Tree): seq<AVLitem>
    requires sub.Node?
  {
    Before(c) + Inorder(sub.l) + (Inorder(sub.r) + After(c))
  }

  // The tree around q's left subtree, once q has taken the place of p.
  function Promoted(c: Ctx, sub: Tree, rel: Ctx, q: AVLitem): Ctx
    requires sub.Node?
  {
    Compose(rel, InLeft(q, sub.bal, sub.r, c))
  }

  lemma PromotedOrder(c: Ctx, sub: Tree, rel: Ctx, qs: Tree)
    requires sub.Node? && RightSpine(rel) && Plug(rel, qs) == sub.l && qs.Node? && qs.r.Nil?
    ensures Inorder(Plug(Promoted(c, sub, rel, qs.item), qs.l))
         == Rest(c, sub)
  {
    var q, o := qs.item, InLeft(qs.item, sub.bal, sub.r, c);
    PlugCompose(rel, o, qs.l);
    InorderPlug(o, Plug(rel, qs.l));
    InorderPlug(rel, qs.l);
    InorderPlug(rel, qs);
    SpineEnd(rel);
    var B, L := Before(rel), Inorder(qs.l);
    assert Inorder(sub.l) == B + (L + [q] + []) + [];
    assert Inorder(Plug(rel, qs.l)) == B + L + [];
    PromotedSeq(Before(c), B, L, [q], Inorder(sub.r), After(c));
  }

  lemma PromotedSeq(a: seq<AVLitem>, b: seq<AVLitem>, l: seq<AVLitem>, q: seq<AVLitem>, r: seq<AVLitem>,
          z: seq<AVLitem>)
    ensures a + (b + l + []) + (q + r + z) == a + (b + (l + q + []) + []) + (r + z)
  {
  }

  lemma PromotedBalanced(c: Ctx, sub: Tree, rel: Ctx, qs: Tree)
    requires sub.Node? && Plug(rel, qs) == sub.l && qs.Node? && qs.r.Nil?
    requires Balanced(sub) && CtxBalanced(c, Height(sub))
    ensures Balanced(qs.l) && CtxBalanced(Promoted(c, sub, rel, qs.item), Height(qs.l) + 1)
  {
    BalancedPlug(rel, qs);
    BalancedCompose(rel, InLeft(qs.item, sub.bal, sub.r, c), qs);
  }
}
