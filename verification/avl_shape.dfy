// Items of the balanced trees (avl.h), and the values a heap of linked items stands for:
// a tree, and a tree with a hole in it (a path from an item back up to the root).

module AvlItems {

  type uns32 = x: int | 0 <= x < 0x1_0000_0000
  type uns64 = x: int | 0 <= x < 0x1_0000_0000_0000_0000

  const MAX_KEY: uns64 := 0xffff_ffff_ffff_ffff

  // A three-bit signed field: the balance factor.
  type int3 = x: int | -4 <= x < 4

  // Unsigned 32-bit arithmetic wraps.
  function Word(n: int): uns32 {
    n % 0x1_0000_0000
  }

  lemma WordStep(n: int)
    ensures Word(Word(n) + 1) == Word(n + 1)
    ensures Word(Word(n) - 1) == Word(n - 1)
  {
  }

  // One more and one less.
  function Succ(n: uns32): uns32 {
    if n == 0xffff_ffff then 0 else n + 1
  }

  function Pred(n: uns32): uns32 {
    if n == 0 then 0xffff_ffff else n - 1
  }

  // The two 32-bit halves of an index as one number.
  function KeyOf(a: uns32, b: uns32): uns64 {
    a * 0x1_0000_0000 + b
  }

  // Comparing first halves, then second halves, is comparing the numbers.
  lemma KeyOrder(a: uns32, b: uns32, c: uns32, d: uns32)
    ensures KeyOf(a, b) < KeyOf(c, d) <==> a < c || (a == c && b < d)
    ensures KeyOf(a, b) == KeyOf(c, d) <==> a == c && b == d
  {
  }

  // Stepping down with a borrow, and up with a carry, from one half to the other.
  lemma KeySteps(a: uns32, b: uns32)
    ensures b != 0 ==> KeyOf(a, b) - 1 == KeyOf(a, b - 1)
    ensures b == 0 && a != 0 ==> KeyOf(a, b) - 1 == KeyOf(a - 1, 0xffff_ffff)
    ensures b != 0xffff_ffff ==> KeyOf(a, b) + 1 == KeyOf(a, b + 1)
    ensures b == 0xffff_ffff && a != 0xffff_ffff ==> KeyOf(a, b) + 1 == KeyOf(a + 1, 0)
    ensures KeyOf(a, b) == MAX_KEY <==> a == 0xffff_ffff && b == 0xffff_ffff
  {
  }

  class AVLitem {
    const key: uns64  // KeyOf the two indexes
    var right: AVLitem?
    var left: AVLitem?
    var balance: int3
    var inDb: bool
    var sll: AVLitem?

    constructor (a: uns32, b: uns32)
      ensures key == KeyOf(a, b)
      ensures right == null && left == null && balance == 0 && !inDb && sll == null
    {
      key := KeyOf(a, b);
      right, left, balance, inDb, sll := null, null, 0, false, null;
    }
  }
}

module AvlShape {
  import opened AvlItems

  datatype Tree = Nil | Node(item: AVLitem, bal: int, l: Tree, r: Tree)

  // A tree with a hole: the hole is the left (right) child of n, whose other child is r (l).
  datatype Ctx =
    | Top
    | InLeft(n: AVLitem, bal: int, r: Tree, up: Ctx)
    | InRight(n: AVLitem, bal: int, l: Tree, up: Ctx)

  function Root(t: Tree): AVLitem? {
    if t.Nil? then null else t.item
  }

  ghost function Items(t: Tree): set<AVLitem> {
    match t
    case Nil => {}
    case Node(n, _, l, r) => Items(l) + {n} + Items(r)
  }

  ghost function Inorder(t: Tree): seq<AVLitem> {
    match t
    case Nil => []
    case Node(n, _, l, r) => Inorder(l) + [n] + Inorder(r)
  }

  ghost function Height(t: Tree): nat {
    match t
    case Nil => 0
    case Node(_, _, l, r) => 1 + Max(Height(l), Height(r))
  }

  function Max(a: int, b: int): int {
    if a < b then b else a
  }

  // Every balance factor is exactly the height difference, and is at most one.
  ghost predicate Balanced(t: Tree) {
    match t
    case Nil => true
    case Node(_, b, l, r) =>
      Balanced(l) && Balanced(r) && b == Height(r) - Height(l) && -1 <= b <= 1
  }

  // The heap holds tree t.
  ghost predicate Repr(t: Tree)
    reads Items(t)`left, Items(t)`right, Items(t)`balance
  {
    match t
    case Nil => true
    case Node(n, b, l, r) =>
      n.left == Root(l) && n.right == Root(r) && n.balance == b && Repr(l) && Repr(r)
  }

  ghost function CtxItems(c: Ctx): set<AVLitem> {
    match c
    case Top => {}
    case InLeft(n, _, r, up) => {n} + Items(r) + CtxItems(up)
    case InRight(n, _, l, up) => {n} + Items(l) + CtxItems(up)
  }

  // The heap holds c, and the pointer at the hole is h.
  ghost predicate CtxRepr(c: Ctx, h: AVLitem?)
    reads CtxItems(c)`left, CtxItems(c)`right, CtxItems(c)`balance
  {
    match c
    case Top => true
    case InLeft(n, b, r, up) =>
      n.left == h && n.right == Root(r) && n.balance == b && Repr(r) && CtxRepr(up, n)
    case InRight(n, b, l, up) =>
      n.right == h && n.left == Root(l) && n.balance == b && Repr(l) && CtxRepr(up, n)
  }

  // The root pointer of a tree whose hole is filled by h.
  function TopItem(c: Ctx, h: AVLitem?): AVLitem? {
    match c
    case Top => h
    case InLeft(n, _, _, up) => TopItem(up, n)
    case InRight(n, _, _, up) => TopItem(up, n)
  }

  function Plug(c: Ctx, t: Tree): Tree {
    match c
    case Top => t
    case InLeft(n, b, r, up) => Plug(up, Node(n, b, t, r))
    case InRight(n, b, l, up) => Plug(up, Node(n, b, l, t))
  }

  // The items before (after) the hole, in order.
  ghost function Before(c: Ctx): seq<AVLitem> {
    match c
    case Top => []
    case InLeft(_, _, _, up) => Before(up)
    case InRight(n, _, l, up) => Before(up) + Inorder(l) + [n]
  }

  ghost function After(c: Ctx): seq<AVLitem> {
    match c
    case Top => []
    case InLeft(n, _, r, up) => [n] + Inorder(r) + After(up)
    case InRight(_, _, _, up) => After(up)
  }

  // The rest of a balanced tree whose hole expects a subtree of height h.
  ghost predicate CtxBalanced(c: Ctx, h: nat) {
    match c
    case Top => true
    case InLeft(_, b, r, up) =>
      Balanced(r) && b == Height(r) - h && -1 <= b <= 1 && CtxBalanced(up, 1 + Max(h, Height(r)))
    case InRight(_, b, l, up) =>
      Balanced(l) && b == h - Height(l) && -1 <= b <= 1 && CtxBalanced(up, 1 + Max(Height(l), h))
  }

  function Depth(c: Ctx): nat {
    if c.Top? then 0 else 1 + Depth(c.up)
  }

  // The items on the way from the root down to the hole.
  function Ancestors(c: Ctx): (s: seq<AVLitem>)
    ensures |s| == Depth(c)
  {
    if c.Top? then [] else Ancestors(c.up) + [c.n]
  }

  function Compose(c: Ctx, o: Ctx): Ctx {
    match c
    case Top => o
    case InLeft(n, b, r, up) => InLeft(n, b, r, Compose(up, o))
    case InRight(n, b, l, up) => InRight(n, b, l, Compose(up, o))
  }

  // Strictly increasing keys.
  ghost predicate Sorted(s: seq<AVLitem>) {
    forall i, j :: 0 <= i < j < |s| ==> s[i].key < s[j].key
  }

  ghost predicate AllLess(a: seq<AVLitem>, b: seq<AVLitem>) {
    forall i, j :: 0 <= i < |a| && 0 <= j < |b| ==> a[i].key < b[j].key
  }

  ghost predicate AllBelow(s: seq<AVLitem>, k: int) {
    forall i :: 0 <= i < |s| ==> s[i].key < k
  }

  ghost predicate AllAbove(s: seq<AVLitem>, k: int) {
    forall i :: 0 <= i < |s| ==> k < s[i].key
  }

  lemma {:induction false} ItemsAllocated(t: Tree)
    ensures forall x :: x in Items(t) ==> allocated(x)
  {
    if t.Node? {
      ItemsAllocated(t.l);
      ItemsAllocated(t.r);
    }
  }

  lemma {:induction false} CtxItemsAllocated(c: Ctx)
    ensures forall x :: x in CtxItems(c) ==> allocated(x)
  {
    match c
    case Top =>
    case InLeft(n, b, r, up) =>
      ItemsAllocated(r);
      CtxItemsAllocated(up);
    case InRight(n, b, l, up) =>
      ItemsAllocated(l);
      CtxItemsAllocated(up);
  }

  lemma Regroup(a: seq<AVLitem>, b: seq<AVLitem>, c: seq<AVLitem>, d: seq<AVLitem>, e: seq<AVLitem>)
    ensures a + (b + c + d) + e == (a + b) + c + (d + e)
    ensures a + (b + c + d) + e == a + b + (c + d + e)
    ensures a + (b + c + d) + e == (a + b + c) + d + e
  {
  }

  // ---- Splitting a tree at a position, and joining the parts again

  lemma {:induction false} ReprPlug(c: Ctx, t: Tree)
    ensures Repr(Plug(c, t)) <==> CtxRepr(c, Root(t)) && Repr(t)
    decreases c
  {
    match c
    case Top =>
    case InLeft(n, b, r, up) => ReprPlug(up, Node(n, b, t, r));
    case InRight(n, b, l, up) => ReprPlug(up, Node(n, b, l, t));
  }

  lemma {:induction false} RootPlug(c: Ctx, t: Tree)
    ensures Root(Plug(c, t)) == TopItem(c, Root(t))
    decreases c
  {
    match c
    case Top =>
    case InLeft(n, b, r, up) => RootPlug(up, Node(n, b, t, r));
    case InRight(n, b, l, up) => RootPlug(up, Node(n, b, l, t));
  }

  lemma {:induction false} InorderPlug(c: Ctx, t: Tree)
    ensures Inorder(Plug(c, t)) == Before(c) + Inorder(t) + After(c)
    decreases c
  {
    match c
    case Top =>
    case InLeft(n, b, r, up) =>
      InorderPlug(up, Node(n, b, t, r));
      Regroup(Before(up), Inorder(t), [n], Inorder(r), After(up));
    case InRight(n, b, l, up) =>
      InorderPlug(up, Node(n, b, l, t));
      Regroup(Before(up), Inorder(l), [n], Inorder(t), After(up));
  }

  lemma InorderNode(c: Ctx, t: Tree)
    requires t.Node?
    ensures Inorder(Plug(c, t)) == (Before(c) + Inorder(t.l)) + [t.item] + (Inorder(t.r) + After(c))
  {
    InorderPlug(c, t);
    Regroup(Before(c), Inorder(t.l), [t.item], Inorder(t.r), After(c));
  }

  lemma {:induction false} BalancedPlug(c: Ctx, t: Tree)
    ensures Balanced(Plug(c, t)) <==> Balanced(t) && CtxBalanced(c, Height(t))
    decreases c
  {
    match c
    case Top =>
    case InLeft(n, b, r, up) => BalancedPlug(up, Node(n, b, t, r));
    case InRight(n, b, l, up) => BalancedPlug(up, Node(n, b, l, t));
  }

  lemma {:induction false} HeightPlug(c: Ctx, t: Tree)
    ensures Height(Plug(c, t)) >= Height(t) + Depth(c)
    decreases c
  {
    match c
    case Top =>
    case InLeft(n, b, r, up) => HeightPlug(up, Node(n, b, t, r));
    case InRight(n, b, l, up) => HeightPlug(up, Node(n, b, l, t));
  }

  lemma {:induction false} PlugCompose(c: Ctx, o: Ctx, t: Tree)
    ensures Plug(Compose(c, o), t) == Plug(o, Plug(c, t))
    decreases c
  {
    match c
    case Top =>
    case InLeft(n, b, r, up) => PlugCompose(up, o, Node(n, b, t, r));
    case InRight(n, b, l, up) => PlugCompose(up, o, Node(n, b, l, t));
  }

  // ---- Membership and disjointness, from the order of the keys

  ghost function Set(s: seq<AVLitem>): set<AVLitem> {
    set x | x in s
  }

  lemma SetConcat(a: seq<AVLitem>, b: seq<AVLitem>)
    ensures Set(a + b) == Set(a) + Set(b)
  {
  }

  lemma {:induction false} ItemsInorder(t: Tree)
    ensures Items(t) == Set(Inorder(t))
  {
    if t.Node? {
      ItemsInorder(t.l);
      ItemsInorder(t.r);
      SetConcat(Inorder(t.l) + [t.item], Inorder(t.r));
      SetConcat(Inorder(t.l), [t.item]);
    }
  }

  lemma {:induction false} CtxItemsOrder(c: Ctx)
    ensures CtxItems(c) == Set(Before(c)) + Set(After(c))
  {
    match c
    case Top =>
    case InLeft(n, b, r, up) =>
      ItemsInorder(r);
      CtxItemsOrder(up);
      SetConcat([n] + Inorder(r), After(up));
      SetConcat([n], Inorder(r));
    case InRight(n, b, l, up) =>
      ItemsInorder(l);
      CtxItemsOrder(up);
      SetConcat(Before(up) + Inorder(l), [n]);
      SetConcat(Before(up), Inorder(l));
  }

  lemma SortedConcat(a: seq<AVLitem>, b: seq<AVLitem>)
    requires Sorted(a + b)
    ensures Sorted(a) && Sorted(b) && AllLess(a, b)
  {
    var s := a + b;
    assert forall m :: 0 <= m < |a| ==> a[m] == s[m];
    forall m, n | 0 <= m < n < |b|
      ensures b[m].key < b[n].key
    {
      assert s[|a| + m] == b[m] && s[|a| + n] == b[n];
    }
    forall i, j | 0 <= i < |a| && 0 <= j < |b|
      ensures a[i].key < b[j].key
    {
      assert s[i] == a[i] && s[|a| + j] == b[j];
    }
  }

  lemma LessConcat(a: seq<AVLitem>, b: seq<AVLitem>, c: seq<AVLitem>)
    requires AllLess(a, b + c)
    ensures AllLess(a, b) && AllLess(a, c)
  {
    assert forall j :: 0 <= j < |b| ==> b[j] == (b + c)[j];
    assert forall j :: 0 <= j < |c| ==> c[j] == (b + c)[|b| + j];
  }

  lemma OrderedDisjoint(a: seq<AVLitem>, b: seq<AVLitem>)
    requires AllLess(a, b)
    ensures Set(a) !! Set(b)
  {
  }

  lemma SortedThree(a: seq<AVLitem>, b: seq<AVLitem>, c: seq<AVLitem>)
    requires Sorted(a + b + c)
    ensures Sorted(a) && Sorted(b) && Sorted(c)
    ensures AllLess(a, b) && AllLess(b, c) && AllLess(a, c)
    ensures Set(a) !! Set(b) && Set(b) !! Set(c) && Set(a) !! Set(c)
  {
    assert a + b + c == a + (b + c);
    SortedConcat(a, b + c);
    SortedConcat(b, c);
    LessConcat(a, b, c);
    OrderedDisjoint(a, b);
    OrderedDisjoint(b, c);
    OrderedDisjoint(a, c);
  }

  lemma FocusNode(t: Tree)
    requires t.Node? && Sorted(Inorder(t))
    ensures t.item !in Items(t.l) && t.item !in Items(t.r)
    ensures Items(t.l) !! Items(t.r)
    ensures Sorted(Inorder(t.l)) && Sorted(Inorder(t.r))
    ensures AllBelow(Inorder(t.l), t.item.key) && AllAbove(Inorder(t.r), t.item.key)
  {
    SortedThree(Inorder(t.l), [t.item], Inorder(t.r));
    assert t.item in Set([t.item]) && [t.item][0] == t.item;
    ItemsInorder(t.l);
    ItemsInorder(t.r);
  }

  // A subtree is disjoint from the tree around it, and keys order them.
  lemma FocusTree(c: Ctx, t: Tree)
    requires Sorted(Inorder(Plug(c, t)))
    ensures CtxItems(c) !! Items(t)
    ensures Sorted(Inorder(t)) && Sorted(Before(c)) && Sorted(After(c))
    ensures AllLess(Before(c), Inorder(t)) && AllLess(Inorder(t), After(c))
  {
    InorderPlug(c, t);
    SortedThree(Before(c), Inorder(t), After(c));
    ItemsInorder(t);
    CtxItemsOrder(c);
  }

  // At a focused item: the item, its subtrees and the rest of the tree are pairwise disjoint,
  // and keys order them.
  lemma Focus(c: Ctx, t: Tree)
    requires t.Node?
    requires Sorted(Inorder(Plug(c, t)))
    ensures t.item !in Items(t.l) && t.item !in Items(t.r) && t.item !in CtxItems(c)
    ensures Items(t.l) !! Items(t.r)
    ensures CtxItems(c) !! Items(t)
    ensures Sorted(Inorder(t)) && Sorted(Inorder(t.l)) && Sorted(Inorder(t.r))
    ensures AllBelow(Inorder(t.l), t.item.key) && AllAbove(Inorder(t.r), t.item.key)
    ensures AllBelow(Before(c), t.item.key) && AllAbove(After(c), t.item.key)
  {
    FocusTree(c, t);
    FocusNode(t);
    assert Inorder(t)[|Inorder(t.l)|] == t.item;
  }

  // At the innermost item of a context: it is disjoint from the rest, and key order tells on
  // which side the hole is.
  lemma FocusCtx(c: Ctx, t: Tree)
    requires !c.Top?
    requires Sorted(Inorder(Plug(c, t)))
    ensures c.n !in Items(t) && c.n !in CtxItems(c.up)
    ensures Items(t) !! CtxItems(c)
    ensures Items(t) !! CtxItems(c.up)
    ensures c.InLeft? ==> c.n !in Items(c.r) && Items(c.r) !! CtxItems(c.up) && Items(c.r) !! Items(t)
    ensures c.InRight? ==> c.n !in Items(c.l) && Items(c.l) !! CtxItems(c.up) && Items(c.l) !! Items(t)
    ensures c.InLeft? ==> AllBelow(Inorder(t), c.n.key)
    ensures c.InRight? ==> AllAbove(Inorder(t), c.n.key)
  {
    match c
    case InLeft(n, b, r, up) => Focus(up, Node(n, b, t, r));
    case InRight(n, b, l, up) => Focus(up, Node(n, b, l, t));
  }

  lemma TopItemIn(c: Ctx, h: AVLitem?)
    ensures !c.Top? ==> TopItem(c, h) != null && TopItem(c, h) in CtxItems(c)
    ensures !c.Top? ==> forall g: AVLitem? :: TopItem(c, g) == TopItem(c, h)
  {
  }

  lemma {:induction false} DepthCompose(c: Ctx, o: Ctx)
    ensures Depth(Compose(c, o)) == Depth(c) + Depth(o)
    ensures Ancestors(Compose(c, o)) == Ancestors(o) + Ancestors(c)
  {
    if !c.Top? {
      DepthCompose(c.up, o);
      assert (Ancestors(o) + Ancestors(c.up)) + [c.n] == Ancestors(o) + (Ancestors(c.up) + [c.n]);
    }
  }

  // ---- Searching

  // The key k belongs at the hole of c.
  ghost predicate Splits(c: Ctx, k: int) {
    AllBelow(Before(c), k) && AllAbove(After(c), k)
  }

  function Parent(c: Ctx): AVLitem? {
    if c.Top? then null else c.n
  }

  function GoLeft(c: Ctx, t: Tree): Ctx
    requires t.Node?
  {
    InLeft(t.item, t.bal, t.r, c)
  }

  function GoRight(c: Ctx, t: Tree): Ctx
    requires t.Node?
  {
    InRight(t.item, t.bal, t.l, c)
  }

  lemma DescendLeft(c: Ctx, t: Tree, k: int)
    requires t.Node? && Sorted(Inorder(Plug(c, t))) && Splits(c, k) && k < t.item.key
    ensures Splits(GoLeft(c, t), k) && Plug(GoLeft(c, t), t.l) == Plug(c, t)
  {
    Focus(c, t);
  }

  lemma DescendRight(c: Ctx, t: Tree, k: int)
    requires t.Node? && Sorted(Inorder(Plug(c, t))) && Splits(c, k) && t.item.key < k
    ensures Splits(GoRight(c, t), k) && Plug(GoRight(c, t), t.r) == Plug(c, t)
  {
    Focus(c, t);
  }

  // The hole where k belongs: where k falls in the order, and that k is nowhere else.
  lemma SplitsOrder(c: Ctx, k: int)
    requires Splits(c, k)
    ensures forall j :: 0 <= j < |Before(c) + After(c)| ==> (Before(c) + After(c))[j].key != k
  {
  }

  lemma WhichSide(t: Tree, x: AVLitem)
    requires t.Node? && x in Items(t) && x != t.item && Sorted(Inorder(t))
    ensures if x.key < t.item.key then x in Items(t.l) else x.key > t.item.key && x in Items(t.r)
  {
    FocusNode(t);
    ItemsInorder(t.l);
    ItemsInorder(t.r);
  }

  lemma {:induction false} ItemsPlug(c: Ctx, t: Tree)
    ensures Items(Plug(c, t)) == CtxItems(c) + Items(t)
    decreases c
  {
    match c
    case Top =>
    case InLeft(n, b, r, up) => ItemsPlug(up, Node(n, b, t, r));
    case InRight(n, b, l, up) => ItemsPlug(up, Node(n, b, l, t));
  }
}
