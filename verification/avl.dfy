// The threaded AVL tree (avl.C, avl.h, stack.h): items linked in the heap, kept equal to a
// tree value, with a list threaded through the items in key order.

module Avl {
  import opened AvlItems
  import opened AvlShape
  import opened AvlLinks
  import opened AvlUnlink
  import opened AvlPaths
  import Balance = AvlBalance

  // ---- What the tree stands for: its items in key order

  ghost function Rank(s: seq<AVLitem>, k: int): (r: nat)
    ensures r <= |s|
  {
    if s == [] || s[0].key >= k then 0 else 1 + Rank(s[1..], k)
  }

  ghost function At(s: seq<AVLitem>, i: int): AVLitem? {
    if 0 <= i < |s| then s[i] else null
  }

  // Insertion by key: an item with the same key is replaced.
  ghost function WithItem(s: seq<AVLitem>, x: AVLitem): seq<AVLitem> {
    var i := Rank(s, x.key);
    if i < |s| && s[i].key == x.key then s[i := x] else s[..i] + [x] + s[i..]
  }

  ghost function Without(s: seq<AVLitem>, i: nat): seq<AVLitem>
    requires i < |s|
  {
    s[..i] + s[i + 1..]
  }

  // Removal by key.
  ghost function WithoutKey(s: seq<AVLitem>, k: int): seq<AVLitem> {
    var i := Rank(s, k);
    if i < |s| && s[i].key == k then Without(s, i) else s
  }

  ghost predicate HasKey(s: seq<AVLitem>, k: int) {
    exists i :: 0 <= i < |s| && s[i].key == k
  }

  lemma {:induction false} RankIs(s: seq<AVLitem>, k: int, i: nat)
    requires i <= |s| && AllBelow(s[..i], k)
    requires forall j :: i <= j < |s| ==> k <= s[j].key
    ensures Rank(s, k) == i
  {
    if i > 0 {
      assert s[..i][0] == s[0];
      assert s[1..][..i - 1] == s[..i][1..];
      RankIs(s[1..], k, i - 1);
    }
  }

  // The rank splits a sorted sequence into the smaller keys and the others.
  lemma {:induction false} RankSplits(s: seq<AVLitem>, k: int)
    requires Sorted(s)
    ensures AllBelow(s[..Rank(s, k)], k)
    ensures forall j :: Rank(s, k) <= j < |s| ==> k <= s[j].key
  {
    if s != [] && s[0].key < k {
      RankSplits(s[1..], k);
      var r := Rank(s, k);
      forall j | 0 <= j < r
        ensures s[..r][j].key < k
      {
        if j > 0 {
          assert s[1..][..r - 1][j - 1] == s[j];
        }
      }
      forall j | r <= j < |s|
        ensures k <= s[j].key
      {
        assert s[j] == s[1..][j - 1];
      }
    }
  }

  lemma RankOfNext(s: seq<AVLitem>, i: nat, k: int)
    requires Sorted(s) && i < |s| && s[i].key == k - 1
    ensures Rank(s, k) == i + 1
  {
    RankIs(s, k, i + 1);
  }

  // The item with key k - 1 comes just before the rank of k.
  lemma NextAtItem(c: Ctx, t: Tree, k: int)
    requires t.Node? && t.item.key == k - 1 && Sorted(Inorder(Plug(c, t)))
    ensures At(Inorder(Plug(c, t)), Rank(Inorder(Plug(c, t)), k) - 1) == t.item
  {
    InorderNode(c, t);
    NextInSeq(Before(c) + Inorder(t.l), t.item, Inorder(t.r) + After(c), k);
  }

  lemma NextInSeq(a: seq<AVLitem>, x: AVLitem, b: seq<AVLitem>, k: int)
    requires x.key == k - 1 && Sorted(a + [x] + b)
    ensures At(a + [x] + b, Rank(a + [x] + b, k) - 1) == x
  {
    assert (a + [x] + b)[|a|] == x;
    RankOfNext(a + [x] + b, |a|, k);
  }

  // The rank of a key that belongs between two parts, or comes right after the first.
  lemma RankOfHole(a: seq<AVLitem>, b: seq<AVLitem>, k: int)
    requires AllBelow(a, k) && forall j :: 0 <= j < |b| ==> k <= b[j].key
    ensures Rank(a + b, k) == |a|
    ensures At(a + b, |a| - 1) == At(a, |a| - 1) && At(a + b, |a|) == At(b, 0)
  {
    var s := a + b;
    assert s[..|a|] == a;
    forall j | |a| <= j < |s|
      ensures k <= s[j].key
    {
      assert s[j] == b[j - |a|];
    }
    RankIs(s, k, |a|);
  }

  lemma NextAtHole(c: Ctx, k: int)
    requires Splits(c, k - 1)
    ensures At(Inorder(Plug(c, Nil)), Rank(Inorder(Plug(c, Nil)), k) - 1) == At(Before(c), |Before(c)| - 1)
  {
    InorderPlug(c, Nil);
    assert Before(c) + [] + After(c) == Before(c) + After(c);
    RankOfHole(Before(c), After(c), k);
  }

  ghost predicate Within(s: seq<AVLitem>, all: set<AVLitem>) {
    forall i :: 0 <= i < |s| ==> s[i] in all
  }

  // The list threaded through s starts at head.
  ghost predicate Threaded(s: seq<AVLitem>, head: AVLitem?, all: set<AVLitem>)
    requires Within(s, all)
    reads all`sll
  {
    head == At(s, 0) && forall i {:trigger s[i].sll} :: 0 <= i < |s| ==> s[i].sll == At(s, i + 1)
  }

  class AVLtree {
    var root: AVLitem?
    var count: uns32
    var instance: uns32
    var sllhead: AVLitem?
    ghost var tree: Tree
    ghost var contents: seq<AVLitem>  // in key order
    ghost var items: set<AVLitem>

    constructor ()
      ensures Valid() && contents == [] && fresh(this)
    {
      root, count, instance, sllhead := null, 0, 0, null;
      tree, contents, items := Nil, [], {};
    }

    ghost predicate Linked()
      reads `root, `tree, Items(tree)`left, Items(tree)`right, Items(tree)`balance
    {
      root == Root(tree) && Repr(tree) && Sorted(Inorder(tree))
    }

    ghost predicate Listed()
      reads `sllhead, `contents, `items, items`sll
    {
      Within(contents, items) && Threaded(contents, sllhead, items)
    }

    // The tree, the list and the ghost view agree.
    ghost predicate Coherent()
      reads `root, `sllhead, `tree, `contents, `items, items`sll, Items(tree)`left, Items(tree)`right,
            Items(tree)`balance
    {
      contents == Inorder(tree) && items == Items(tree) && Linked() && Balanced(tree) && Listed()
    }

    ghost predicate Valid()
      reads this, items, Items(tree)
    {
      && Coherent()
      && count == Word(|contents|)
      && forall x :: x in items ==> x.inDb
    }

    method Find(k: uns64) returns (r: AVLitem?)
      requires Linked()
      ensures r != null ==> r in Inorder(tree) && r.key == k
      ensures r == null ==> !HasKey(Inorder(tree), k)
    {
      r := root;
      ghost var c, sub := Top, tree;
      while r != null
        invariant r == Root(sub) && Repr(sub) && Plug(c, sub) == tree && Splits(c, k)
        decreases sub
      {
        if k > r.key {
          DescendRight(c, sub, k);
          c, sub := GoRight(c, sub), sub.r;
          r := r.right;
        } else if k < r.key {
          DescendLeft(c, sub, k);
          c, sub := GoLeft(c, sub), sub.l;
          r := r.left;
        } else {
          InorderNode(c, sub);
          return;
        }
      }
      InorderPlug(c, sub);
      SplitsOrder(c, k);
    }

    // The item before the given key.
    method Previous(k: uns64) returns (r: AVLitem?)
      requires Linked()
      ensures r == At(Inorder(tree), Rank(Inorder(tree), k) - 1)
    {
      if k == 0 {
        assert Rank(Inorder(tree), k) == 0;
        return null;
      }
      var key := k - 1;
      var lastRight: AVLitem? := null;
      var ptr := root;
      ghost var c, sub := Top, tree;
      while ptr != null
        invariant ptr == Root(sub) && Repr(sub) && Plug(c, sub) == tree && Splits(c, key)
        invariant lastRight == At(Before(c), |Before(c)| - 1)
        decreases sub
      {
        if key > ptr.key {
          DescendRight(c, sub, key);
          c, sub := GoRight(c, sub), sub.r;
          lastRight := ptr;
          ptr := ptr.right;
        } else if key < ptr.key {
          DescendLeft(c, sub, key);
          c, sub := GoLeft(c, sub), sub.l;
          ptr := ptr.left;
        } else {
          NextAtItem(c, sub, k);
          return ptr;
        }
      }
      NextAtHole(c, k);
      return lastRight;
    }

    // The place for key k: the item holding it, or the item to hang it under; and the balance
    // point, the last item on the way whose factor was not zero.
    method InsertPoint(k: nat)
      returns (p: AVLitem?, ya: AVLitem?, fya: AVLitem?, fp: AVLitem?, ghost c: Ctx, ghost sub: Tree,
               ghost cy: Ctx, ghost ty: Tree)
      requires Linked()
      ensures Plug(c, sub) == tree && Splits(c, k) && p == Root(sub) && fp == Parent(c)
      ensures sub.Node? ==> sub.item.key == k
      ensures Plug(cy, ty) == tree && Splits(cy, k) && ya == Root(ty) && fya == Parent(cy)
      ensures tree.Node? ==> ty.Node?
      ensures tree.Node? && sub.Nil? ==> Balance.EvenBelow(ty, k)
      ensures cy.Top? || (ty.Node? && ty.bal != 0)
    {
      p, ya, fya, fp := root, root, null, null;
      c, sub, cy, ty := Top, tree, Top, tree;
      while p != null && p.key != k
        invariant p == Root(sub) && Repr(sub) && fp == Parent(c)
        invariant Plug(c, sub) == tree && Splits(c, k)
        invariant Plug(cy, ty) == tree && Splits(cy, k) && ya == Root(ty) && fya == Parent(cy)
        invariant tree.Node? ==> ty.Node?
        invariant tree.Node? && Balance.EvenPath(sub, k) ==> Balance.EvenBelow(ty, k)
        invariant cy.Top? || (ty.Node? && ty.bal != 0)
        decreases sub
      {
        if p.balance != 0 {
          ya, fya := p, fp;
          cy, ty := c, sub;
        }
        fp := p;
        if k < p.key {
          DescendLeft(c, sub, k);
          c, sub := GoLeft(c, sub), sub.l;
          p := p.left;
        } else {
          DescendRight(c, sub, k);
          c, sub := GoRight(c, sub), sub.r;
          p := p.right;
        }
      }
    }

    // Splices item into the threaded list s, at position i.
    method ThreadIn(item: AVLitem, prev: AVLitem?, ghost s: seq<AVLitem>, ghost i: nat, ghost all: set<AVLitem>)
      requires Sorted(s) && Within(s, all) && item !in all && i <= |s|
      requires Threaded(s, sllhead, all) && prev == At(s, i - 1)
      modifies `sllhead, item`sll, all`sll
      ensures Within(s[..i] + [item] + s[i..], all + {item})
      ensures Threaded(s[..i] + [item] + s[i..], sllhead, all + {item})
    {
      ghost var t := s[..i] + [item] + s[i..];
      if prev == null {
        item.sll := sllhead;
        sllhead := item;
      } else {
        item.sll := prev.sll;
        prev.sll := item;
      }
      forall j | 0 <= j < |t|
        ensures t[j].sll == At(t, j + 1)
      {
        if j < i {
          assert t[j] == s[j];
        } else if j > i {
          assert t[j] == s[j - 1];
        }
      }
    }

    // Puts item in the place of the i-th item of the threaded list s.
    method ThreadOver(item: AVLitem, p: AVLitem, prev: AVLitem?, ghost s: seq<AVLitem>, ghost i: nat,
            ghost all: set<AVLitem>)
      requires Sorted(s) && Within(s, all) && item !in all && i < |s| && s[i] == p
      requires Threaded(s, sllhead, all) && prev == At(s, i - 1)
      modifies `sllhead, item`sll, all`sll
      ensures Within(s[i := item], all - {p} + {item}) && Threaded(s[i := item], sllhead, all - {p} + {item})
    {
      item.sll := p.sll;
      if prev == null {
        sllhead := item;
      } else {
        prev.sll := item;
      }
    }

    // Fills the hole of c, which p filled so far, with h.
    method Graft(fp: AVLitem?, p: AVLitem, h: AVLitem?, ghost c: Ctx)
      requires fp == Parent(c) && CtxRepr(c, p) && Apart(c) && root == TopItem(c, p)
      requires c.InRight? ==> p !in Items(c.l)
      modifies `root, (if fp == null then {} else {fp})`left, (if fp == null then {} else {fp})`right
      ensures CtxRepr(c, h) && root == TopItem(c, h)
    {
      if fp == null {
        root := h;
      } else {
        HangByItem(fp, p, h, c);
      }
    }

    method Hang(fp: AVLitem?, key: nat, h: AVLitem?, ghost c: Ctx, ghost was: AVLitem?)
      requires fp == Parent(c) && CtxRepr(c, was) && Apart(c) && root == TopItem(c, was) && Splits(c, key)
      modifies `root, (if fp == null then {} else {fp})`left, (if fp == null then {} else {fp})`right
      ensures CtxRepr(c, h) && root == TopItem(c, h)
    {
      if fp == null {
        root := h;
      } else {
        HangPlace(c, key);
        HangByKey(fp, key, h, c, was);
        TopItemIn(c, was);
      }
    }

    // Puts item in place of the item p, which has the same key.
    method ReplaceAt(item: AVLitem, p: AVLitem, ffp: AVLitem?, ghost c: Ctx, ghost sub: Tree)
      requires Linked() && Plug(c, sub) == tree && Root(sub) == p && ffp == Parent(c)
      requires item !in Items(tree) && item.key == p.key
      modifies `root, `tree, item`left, item`right, item`balance, (if ffp == null then {} else {ffp})`left,
               (if ffp == null then {} else {ffp})`right
      ensures tree == Plug(c, Node(item, sub.bal, sub.l, sub.r)) && Linked()
    {
      ghost var t := Node(item, sub.bal, sub.l, sub.r);
      ReprPlug(c, sub);
      RootPlug(c, sub);
      ItemsPlug(c, sub);
      FocusTree(c, sub);
      ApartInTree(c, sub);
      CtxItemsAllocated(c);
      if !c.Top? {
        FocusCtx(c, sub);
      }
      TakeOver(item, p, sub);
      assert CtxRepr(c, p);
      ItemsAllocated(t);
      Graft(ffp, p, item, c);
      ReprPlug(c, t);
      RootPlug(c, t);
      TreeReplace(c, sub, item);
      tree := Plug(c, t);
    }

    // Hangs the new item under fp, as a leaf.
    method LinkLeaf(item: AVLitem, fp: AVLitem, ghost c: Ctx)
      requires Linked() && Plug(c, Nil) == tree && Splits(c, item.key) && fp == Parent(c)
      requires item !in Items(tree) && item.left == null && item.right == null && item.balance == 0
      modifies `tree, fp`left, fp`right
      ensures tree == old(Balance.Attach(tree, item)) && Linked()
      ensures tree == Plug(c, Node(item, 0, Nil, Nil))
    {
      ghost var leaf := Node(item, 0, Nil, Nil);
      ReprPlug(c, Nil);
      RootPlug(c, Nil);
      ItemsPlug(c, Nil);
      ApartInTree(c, Nil);
      HangPlace(c, item.key);
      HangByKey(fp, item.key, item, c, null);
      assert Repr(leaf);
      ReprPlug(c, leaf);
      RootPlug(c, leaf);
      TopItemIn(c, null);
      Balance.AttachPlug(c, Nil, item);
      SortedInsert(c, item);
      tree := Plug(c, leaf);
    }

    // Moves the factors below the balance point, rotates there if need be, and hangs the result
    // where the balance point was.
    method Settle(item: AVLitem, ya: AVLitem, fya: AVLitem?, ghost cy: Ctx, ghost ty: Tree)
      requires Linked() && tree == Plug(cy, Balance.Attach(ty, item)) && fya == Parent(cy) && Root(ty) == ya
      requires Balanced(ty) && item !in Items(ty) && Balance.EvenBelow(ty, item.key) && Splits(cy, item.key)
      modifies `root, `tree, Items(tree)`left, Items(tree)`right, Items(tree)`balance
      ensures tree == Plug(cy, Balance.Grown(ty, item)) && Inorder(tree) == old(Inorder(tree)) && Linked()
    {
      hide Items;
      ghost var u, w := Balance.Attach(ty, item), Balance.Grown(ty, item);
      Isolate(cy, u);
      Balance.AttachItems(ty, item);
      Balance.GrownFacts(ty, item);
      ItemsInorder(u);
      ItemsInorder(w);
      var r := SettleBelow(ya, item, ty);
      Install(fya, item.key, r, ya, cy, u, w);
    }

    // Hangs the rebuilt subtree w where the subtree u was.
    method Install(fp: AVLitem?, key: nat, r: AVLitem, ghost was: AVLitem?, ghost c: Ctx, ghost u: Tree, ghost w: Tree)
      requires tree == Plug(c, u) && Sorted(Inorder(tree)) && fp == Parent(c) && Splits(c, key)
      requires CtxRepr(c, was) && Apart(c) && root == TopItem(c, was)
      requires Repr(w) && r == Root(w) && Inorder(u) == Inorder(w) && Items(w) !! CtxItems(c)
      modifies `root, `tree, (if fp == null then {} else {fp})`left, (if fp == null then {} else {fp})`right
      ensures tree == Plug(c, w) && Inorder(tree) == old(Inorder(tree)) && Linked()
    {
      ItemsAllocated(w);
      Hang(fp, key, r, c, was);
      Splice(c, u, w);
      tree := Plug(c, w);
    }

    // Adds an item. The item must be a fresh one: links, factor and list pointer are not cleared.
    method Add(item: AVLitem)
      requires Valid() && item !in items
      requires item.left == null && item.right == null && item.balance == 0
      modifies this, item, items
      ensures Valid()
      ensures contents == old(WithItem(contents, item))
      ensures items <= old(items) + {item} && forall x :: x in old(items) && x !in items ==> !x.inDb
      ensures instance == Word(old(instance) + 1)
    {
      item.inDb := true;
      instance := Word(instance + 1);
      var p := Place(item);
      Account(item, p, old(items), |old(contents)|);
    }

    method Account(item: AVLitem, p: AVLitem?, ghost was: set<AVLitem>, ghost n: nat)
      requires Coherent() && count == Word(n) && item.inDb && item !in was && forall x :: x in was ==> x.inDb
      requires p != null ==> p in was && items == was - {p} + {item} && |contents| == n
      requires p == null ==> items == was + {item} && |contents| == n + 1
      modifies `count, was`inDb
      ensures Valid() && forall x :: x in was && x !in items ==> !x.inDb
    {
      if p != null {
        p.inDb := false;
      } else {
        count := Word(count + 1);
        WordStep(n);
      }
    }

    // Puts item into the tree and the list; returns the item it replaces, if any.
    method Place(item: AVLitem) returns (p: AVLitem?)
      requires Coherent() && item !in items
      requires item.left == null && item.right == null && item.balance == 0
      modifies `root, `sllhead, `tree, `contents, `items, item`left, item`right, item`balance, item`sll, items`left,
               items`right, items`balance, items`sll
      ensures Coherent() && contents == old(WithItem(contents, item))
      ensures p != null ==> p in old(items) && items == old(items) - {p} + {item} && |contents| == |old(contents)|
      ensures p == null ==> items == old(items) + {item} && |contents| == |old(contents)| + 1
    {
      var q, ya, fya, fp, c, sub, cy, ty := InsertPoint(item.key);
      p := q;
      if p != null {
        Replace(item, p, fp, c, sub);
      } else {
        Insert(item, ya, fya, fp, c, cy, ty);
      }
    }

    method Insert(item: AVLitem, ya: AVLitem?, fya: AVLitem?, fp: AVLitem?, ghost c: Ctx, ghost cy: Ctx, ghost ty: Tree)
      requires Coherent() && Plug(c, Nil) == tree && Splits(c, item.key) && fp == Parent(c)
      requires item !in items && item.left == null && item.right == null && item.balance == 0
      requires Plug(cy, ty) == tree && Splits(cy, item.key) && ya == Root(ty) && fya == Parent(cy)
      requires tree.Node? ==> ty.Node? && Balance.EvenBelow(ty, item.key)
      requires cy.Top? || (ty.Node? && ty.bal != 0)
      modifies `root, `sllhead, `tree, `contents, `items, item`left, item`right, item`balance, item`sll, items`left,
               items`right, items`balance, items`sll
      ensures Coherent() && contents == old(WithItem(contents, item)) && |contents| == |old(contents)| + 1
      ensures items == old(items) + {item}
    {
      hide Inorder;
      ghost var i := |Before(c)|;
      InsertOrder(c, item);
      GrowTree(item, ya, fya, fp, c, cy, ty);
      RethreadIn(item, i);
      contents := contents[..i] + [item] + contents[i..];
      items := items + {item};
    }

    method GrowTree(item: AVLitem, ya: AVLitem?, fya: AVLitem?, fp: AVLitem?, ghost c: Ctx, ghost cy: Ctx,
            ghost ty: Tree)
      requires Linked() && Balanced(tree) && Plug(c, Nil) == tree && Splits(c, item.key) && fp == Parent(c)
      requires items == Items(tree) && item !in items && item.left == null && item.right == null && item.balance == 0
      requires Plug(cy, ty) == tree && Splits(cy, item.key) && ya == Root(ty) && fya == Parent(cy)
      requires tree.Node? ==> ty.Node? && Balance.EvenBelow(ty, item.key)
      requires cy.Top? || (ty.Node? && ty.bal != 0)
      modifies `root, `tree, item`left, item`right, item`balance, items`left, items`right, items`balance
      ensures Linked() && Balanced(tree) && Items(tree) == items + {item}
      ensures Inorder(tree) == Inorder(Plug(c, Node(item, 0, Nil, Nil)))
    {
      if root == null {
        TopOfNil(c);
        root := item;
        tree := Node(item, 0, Nil, Nil);
      } else {
        InsertPlaces(c, cy, ty, item);
        InsertFacts(cy, ty, item);
        assert fp in items;
        LinkLeaf(item, fp, c);
        ItemsPlug(cy, ty);
        Balance.AttachItems(Plug(cy, ty), item);
        Settle(item, ya, fya, cy, ty);
      }
    }

    // The list after item has entered the tree.
    method RethreadIn(item: AVLitem, ghost i: nat)
      requires Linked() && Sorted(contents) && Within(contents, items) && item !in items && i <= |contents|
      requires Inorder(tree) == contents[..i] + [item] + contents[i..] && Items(tree) <= items + {item}
      requires Threaded(contents, sllhead, items)
      modifies `sllhead, item`sll, items`sll
      ensures Linked() && Within(contents[..i] + [item] + contents[i..], items + {item})
      ensures Threaded(contents[..i] + [item] + contents[i..], sllhead, items + {item})
    {
      RankOfMiddle(contents[..i], item, contents[i..]);
      var prev := Previous(item.key);
      assert prev == At(contents, i - 1);
      ThreadIn(item, prev, contents, i, items);
    }

    method Replace(item: AVLitem, p: AVLitem, fp: AVLitem?, ghost c: Ctx, ghost sub: Tree)
      requires Coherent() && Plug(c, sub) == tree && Root(sub) == p && fp == Parent(c)
      requires item !in items && item.key == p.key
      modifies `root, `sllhead, `tree, `contents, `items, item`left, item`right, item`balance, item`sll, items`left,
               items`right, items`sll
      ensures Coherent() && contents == old(WithItem(contents, item)) && |contents| == |old(contents)|
      ensures p in old(items) && items == old(items) - {p} + {item}
    {
      hide Sorted;
      ghost var i, t := |Before(c)| + |Inorder(sub.l)|, Plug(c, Node(item, sub.bal, sub.l, sub.r));
      ReplaceOrder(c, sub, item);
      ReplaceFacts(c, sub, item);
      ReplaceAt(item, p, fp, c, sub);
      RethreadOver(item, p, i);
      contents := contents[i := item];
      items := items - {p} + {item};
    }

    // Walks down to the item, stacking its ancestors. The stack has room for them.
    method Locate(item: AVLitem, st: Stack) returns (p: AVLitem?, fp: AVLitem?, ghost c: Ctx, ghost sub: Tree)
      requires Linked() && Balanced(tree) && Sorted(Inorder(tree)) && st.Valid() && st.view == []
      requires !Overflows(tree, item)
      modifies st`sp, st`view, st.stack
      ensures Plug(c, sub) == tree && p == Root(sub) && fp == Parent(c) && Linked()
      ensures st.Valid() && st.view == Ancestors(c)
      ensures p == if item in Items(tree) then item else null
    {
      ItemsAllocated(tree);
      p, fp := root, null;
      c, sub := Top, tree;
      while p != null && p != item
        invariant p == Root(sub) && fp == Parent(c) && Linked() && Plug(c, sub) == tree
        invariant st.Valid() && st.view == Ancestors(c) && Walk(tree, item, Depth(c)) == sub
        invariant item in Items(sub) <==> item in Items(tree)
        decreases sub
      {
        Isolate(c, sub);
        SearchGoesOn(c, sub, item);
        fp := p;
        st.Push(p);
        assert Repr(sub);
        if item.key < p.key {
          p := p.left;
          c, sub := GoLeft(c, sub), sub.l;
        } else if item.key > p.key {
          p := p.right;
          c, sub := GoRight(c, sub), sub.r;
        }
      }
    }

    // Takes the i-th item off the threaded list.
    method Unthread(item: AVLitem, ghost i: nat)
      requires Coherent() && i < |contents| && contents[i] == item
      modifies `sllhead, items`sll
      ensures Linked() && Within(Without(contents, i), items - {item})
              && Threaded(Without(contents, i), sllhead, items - {item})
    {
      RankIs(contents, item.key, i);
      var prev := Previous(item.key);
      Unlink(item, prev, i);
    }

    method Unlink(item: AVLitem, prev: AVLitem?, ghost i: nat)
      requires Coherent() && i < |contents| && contents[i] == item && prev == At(contents, i - 1)
      modifies `sllhead, items`sll
      ensures Linked() && Within(Without(contents, i), items - {item})
              && Threaded(Without(contents, i), sllhead, items - {item})
    {
      ghost var s, t := contents, Without(contents, i);
      if prev == null {
        sllhead := item.sll;
      } else {
        prev.sll := item.sll;
      }
      forall j | 0 <= j < |t|
        ensures t[j].sll == At(t, j + 1) && t[j] in items - {item}
      {
        if j < i {
          assert t[j] == s[j];
        } else {
          assert t[j] == s[j + 1];
        }
      }
    }

    // Takes an item with at most one subtree out of the tree.
    method DetachSimple(p: AVLitem, fp: AVLitem?, ghost c: Ctx, ghost sub: Tree)
        returns (child: AVLitem?, imbal: int, ghost s: Tree)
      requires Linked() && Balanced(tree) && Plug(c, sub) == tree && Root(sub) == p && fp == Parent(c)
      requires sub.l.Nil? || sub.r.Nil?
      modifies `root, (if fp == null then {} else {fp})`left, (if fp == null then {} else {fp})`right
      ensures Climbing(c, s, child, child, false, false, imbal)
      ensures Inorder(Plug(c, s)) == Rest(c, sub)
      ensures Items(s) <= Items(sub)
    {
      hide Balanced;
      s := if sub.r.Nil? then sub.l else sub.r;
      SimpleFacts(c, sub, s);
      SimpleOrder(c, sub, s);
      child, imbal := SkipItem(p, fp, c, s);
    }

    // Hangs p's only subtree where p was.
    method SkipItem(p: AVLitem, fp: AVLitem?, ghost c: Ctx, ghost s: Tree) returns (child: AVLitem?, imbal: int)
      requires Repr(s) && Root(s) == (if p.right == null then p.left else p.right) && CtxItems(c) !! Items(s)
      requires fp == Parent(c) && CtxRepr(c, p) && Apart(c) && root == TopItem(c, p)
      requires c.InRight? ==> p !in Items(c.l)
      requires p != fp && (p.left == null || p.right == null)
      modifies `root, (if fp == null then {} else {fp})`left, (if fp == null then {} else {fp})`right
      ensures CtxRepr(c, child) && root == TopItem(c, child)
      ensures child == Root(s) && Repr(s)
      ensures child == null && !c.Top? ==> imbal == if c.InLeft? then 1 else -1
    {
      imbal := 0;
      if p.left == null && p.right == null {
        child := null;
        if fp != null {
          imbal := if fp.left == p then 1 else -1;
        }
      } else if p.right == null {
        child := p.left;
      } else {
        child := p.right;
      }
      if c.InRight? {
        RootIn(c.l);
      }
      ItemsAllocated(s);
      Graft(fp, p, child, c);
    }

    // Takes an item with two subtrees out of the tree: its predecessor takes its place.
    method DetachTwo(p: AVLitem, fp: AVLitem?, st: Stack, ghost c: Ctx, ghost sub: Tree)
        returns (child: AVLitem?, imbal: int, ghost c': Ctx, ghost s': Tree)
      requires Linked() && Balanced(tree) && Plug(c, sub) == tree && Root(sub) == p && fp == Parent(c)
      requires sub.l.Node? && sub.r.Node?
      requires st.Valid() && st.view == Ancestors(c) && |Inorder(tree)| < 14930351
      modifies `root, Items(tree)`left, Items(tree)`right, Items(tree)`balance, st`sp, st`view, st`marker, st.stack
      ensures st.Valid() && st.view == Ancestors(c')
      ensures Climbing(c', s', child, child, false, false, imbal)
      ensures Inorder(Plug(c', s')) == Rest(c, sub)
      ensures CtxItems(c') <= Items(tree) && Items(s') <= Items(tree)
    {
      hide Inorder;
      PredecessorRoom(c, sub);
      ItemsAllocated(tree);
      var q, fq, rel, qs := FindPredecessor(p, st, c, sub);
      c', s' := Promoted(c, sub, rel, q), qs.l;
      PromotedItems(c, sub, rel, qs);
      CtxItemsAllocated(c');
      ItemsAllocated(s');
      child, imbal := Promote(p, q, fp, fq, c, sub, rel, qs);
      MarkedView(Ancestors(c), p, q, Ancestors(rel));
      DepthCompose(rel, InLeft(q, sub.bal, sub.r, c));
      st.ReplaceMark(q);
    }

    // The predecessor q of p takes its place in the tree.
    method Promote(p: AVLitem, q: AVLitem, fp: AVLitem?, fq: AVLitem,
                   ghost c: Ctx, ghost sub: Tree, ghost rel: Ctx, ghost qs: Tree)
        returns (child: AVLitem?, imbal: int)
      requires Linked() && Balanced(tree) && Plug(c, sub) == tree && Root(sub) == p && sub.l.Node? && fp == Parent(c)
      requires RightSpine(rel) && Plug(rel, qs) == sub.l && qs.Node? && qs.item == q && qs.r.Nil?
      requires fq == (if rel.Top? then p else rel.n)
      modifies `root, Items(tree)`left, Items(tree)`right, Items(tree)`balance
      ensures Climbing(Promoted(c, sub, rel, q), qs.l, child, child, false, false, imbal)
      ensures Inorder(Plug(Promoted(c, sub, rel, q), qs.l)) == Rest(c, sub)
    {
      hide Repr;
      PromotedPlaces(c, sub, rel, qs);
      PromotedFacts(c, sub, rel, qs);
      child, imbal := TakePlace(p, q, fp, fq, c, sub, rel, qs);
    }

    method TakePlace(p: AVLitem, q: AVLitem, fp: AVLitem?, fq: AVLitem,
                     ghost c: Ctx, ghost sub: Tree, ghost rel: Ctx, ghost qs: Tree)
        returns (child: AVLitem?, imbal: int)
      requires Root(sub) == p && sub.l.Node? && Repr(sub) && Sorted(Inorder(sub))
      requires CtxRepr(c, p) && Apart(c) && root == TopItem(c, p) && fp == Parent(c)
      requires CtxItems(c) !! Items(sub) && (c.InRight? ==> p !in Items(c.l))
      requires RightSpine(rel) && Plug(rel, qs) == sub.l && qs.Node? && qs.item == q && qs.r.Nil?
      requires fq == (if rel.Top? then p else rel.n)
      requires fq in Items(sub) && CtxItems(rel) <= Items(sub) && Items(qs) <= Items(sub)
      modifies `root, fq`left, fq`right, q`left, q`right, q`balance, (if fp == null then {} else {fp})`left,
               (if fp == null then {} else {fp})`right
      ensures child == Root(qs.l) && Repr(qs.l) && CtxRepr(Promoted(c, sub, rel, q), child)
      ensures root == TopItem(Promoted(c, sub, rel, q), child)
      ensures imbal == if Promoted(c, sub, rel, q).InLeft? then 1 else -1
    {
      hide Repr;
      CtxItemsAllocated(c);
      ItemsAllocated(sub);
      child, imbal := SwapIn(p, q, fq, sub, rel, qs);
      assert CtxRepr(c, p);
      if c.InRight? {
        RootIn(c.l);
      }
      ItemsAllocated(qs.l);
      ItemsAllocated(sub.r);
      CtxItemsAllocated(rel);
      Graft(fp, p, q, c);
      assert Repr(qs.l) && Repr(sub.r) && CtxRepr(rel, child);
      ReprCompose(rel, InLeft(q, sub.bal, sub.r, c), child);
    }

    // What holds on the way back up: a subtree s has become one lower (unless even), and after a
    // rotation (pending) the pointer at the hole of c still leads to its former root.
    ghost predicate Climbing(c: Ctx, s: Tree, hole: AVLitem?, child: AVLitem?, pending: bool, even: bool, imbal: int)
      reads `root, CtxItems(c)`left, CtxItems(c)`right, CtxItems(c)`balance, Items(s)`left, Items(s)`right,
            Items(s)`balance
    {
      && CtxRepr(c, hole) && Repr(s) && Root(s) == child && root == TopItem(c, hole)
      && (!pending ==> hole == child && !even)
      && Balanced(s) && CtxBalanced(c, Height(s) + if even then 0 else 1)
      && (child == null ==> !pending && (!c.Top? ==> imbal == if c.InLeft? then 1 else -1))
      && Sorted(Inorder(Plug(c, s)))
    }

    // Back up the stack after a subtree has become one lower, until a factor absorbs it.
    method Climb(start: AVLitem?, imbal: int, st: Stack, ghost c0: Ctx, ghost s0: Tree, ghost all: set<AVLitem>)
      requires st.Valid() && st.view == Ancestors(c0)
      requires Climbing(c0, s0, start, start, false, false, imbal)
      requires CtxItems(c0) <= all && Items(s0) <= all
      modifies `root, `tree, all`left, all`right, all`balance, st`sp, st`view
      ensures Linked() && Balanced(tree) && Inorder(tree) == Inorder(Plug(c0, s0))
    {
      hide Repr, Inorder, Items, CtxItems;
      var child, rotationDone, even := start, false, false;
      var parent: AVLitem? := null;
      ghost var c, s, hole := c0, s0, start;
      while true
        invariant st.Valid() && st.view == Ancestors(c)
        invariant CtxItems(c) <= all && Items(s) <= all
        invariant Climbing(c, s, hole, child, rotationDone, even, imbal)
        invariant Inorder(Plug(c, s)) == Inorder(Plug(c0, s0))
        decreases c
      {
        parent := st.Pop();
        if parent == null {
          tree := s;
          break;
        }
        assert st.view == Ancestors(c.up) && (st.view == [] <==> c.up.Top?);
        var absorbed;
        absorbed, parent, rotationDone, even, c, s, hole := ClimbFrom(parent, child, imbal, rotationDone, even, c, s,
            hole, all);
        if absorbed {
          tree := Plug(c, s);
          break;
        }
        child := parent;
      }
      FixRoot(parent, child, st);
    }

    method FixRoot(parent: AVLitem?, child: AVLitem?, st: Stack)
      requires st.Valid() && (parent == null ==> st.view == [] && child == Root(tree))
      requires parent != null ==> root == Root(tree) && (st.view == [] ==> root == parent)
      requires Repr(tree) && Sorted(Inorder(tree))
      modifies `root
      ensures Linked()
    {
      if st.IsEmpty() {
        root := parent;
      }
      if parent == null {
        root := child;
      }
    }

    // One item of the stack.
    method ClimbFrom(parent: AVLitem, child: AVLitem?, imbal: int, rotationDone: bool, even: bool,
                     ghost c: Ctx, ghost s: Tree, ghost hole: AVLitem?, ghost all: set<AVLitem>)
        returns (absorbed: bool, r: AVLitem, rotated: bool, even': bool, ghost c': Ctx, ghost s': Tree,
                ghost hole': AVLitem?)
      requires !c.Top? && c.n == parent && Climbing(c, s, hole, child, rotationDone, even, imbal)
      requires CtxItems(c) <= all && Items(s) <= all
      modifies all`left, all`right, all`balance
      ensures Inorder(Plug(c', s')) == Inorder(Plug(c, s))
      ensures absorbed ==> Repr(Plug(c', s')) && Balanced(Plug(c', s')) && root == Root(Plug(c', s'))
      ensures absorbed && c.up.Top? ==> root == r
      ensures !absorbed ==> c' == c.up && CtxItems(c') <= all && Items(s') <= all && Climbing(c', s', hole', r, rotated,
              even', imbal)
    {
      hide CtxRepr;
      Isolate2(c, s, hole);
      c', s', hole' := c, s, hole;
      if rotationDone {
        HangByKey(parent, child.key, child, c, hole);
        if even {
          Rejoin(c, s);
          return true, parent, false, true, c, s, child;
        }
      }
      absorbed, r, rotated, even', c', s', hole' := ClimbOn(parent, child, imbal, c, s, all);
    }

    method ClimbOn(parent: AVLitem, child: AVLitem?, imbal: int, ghost c: Ctx, ghost s: Tree, ghost all: set<AVLitem>)
        returns (absorbed: bool, r: AVLitem, rotated: bool, even: bool, ghost c': Ctx, ghost s': Tree,
                ghost hole: AVLitem?)
      requires !c.Top? && c.n == parent && Climbing(c, s, child, child, false, false, imbal)
      requires CtxItems(c) <= all && Items(s) <= all
      modifies all`left, all`right, all`balance
      ensures Inorder(Plug(c', s')) == Inorder(Plug(c, s))
      ensures absorbed ==> Repr(Plug(c', s')) && Balanced(Plug(c', s')) && root == Root(Plug(c', s'))
      ensures absorbed && c.up.Top? ==> root == r
      ensures !absorbed ==> c' == c.up && CtxItems(c') <= all && Items(s') <= all && Climbing(c', s', hole, r, rotated,
              even, imbal)
    {
      hide Repr, Inorder, Balanced, CtxBalanced, Height, Lowered, Balance.Rotated, StillLower, TopItem;
      Isolate2(c, s, child);
      LoweredNearly(c, s);
      ClimbFacts(c, s);
      r, rotated, even := ClimbStep(parent, child, imbal, c, s);
      c', s', hole := c.up, Balance.Rotated(Lowered(c, s)), parent;
      ClimbEnds(c, s, child, rotated, even);
      absorbed := !rotated && r.balance != 0;
      if absorbed {
        Rejoin(c', s');
      }
    }

    // Takes p out of the tree, and restores the balance.
    method Detach(p: AVLitem, fp: AVLitem?, st: Stack, ghost c: Ctx, ghost sub: Tree)
      requires Linked() && Balanced(tree) && Plug(c, sub) == tree && Root(sub) == p && fp == Parent(c)
      requires st.Valid() && st.view == Ancestors(c) && |Inorder(tree)| < 14930351
      modifies `root, `tree, Items(tree)`left, Items(tree)`right, Items(tree)`balance, st`sp, st`view, st`marker,
               st.stack
      ensures Linked() && Balanced(tree)
      ensures Inorder(tree) == Rest(c, sub)
    {
      ghost var all, c', s' := Items(tree), c, sub;
      var child, imbal;
      DetachPlaces(c, sub);
      assert Repr(sub);
      if p.left == null || p.right == null {
        child, imbal, s' := DetachSimple(p, fp, c, sub);
      } else {
        child, imbal, c', s' := DetachTwo(p, fp, st, c, sub);
      }
      Climb(child, imbal, st, c', s', all);
    }

    // Takes the item at the root of sub off the list and out of the tree.
    method TakeOut(item: AVLitem, fp: AVLitem?, st: Stack, ghost c: Ctx, ghost sub: Tree)
      requires Coherent() && Plug(c, sub) == tree && Root(sub) == item && fp == Parent(c)
      requires st.Valid() && st.view == Ancestors(c) && |contents| < 14930351
      modifies `root, `tree, `sllhead, `contents, `items, items`left, items`right, items`balance, items`sll
      modifies st`sp, st`view, st`marker, st.stack
      ensures Coherent() && items == old(items) - {item} && item in old(items)
      ensures contents == old(WithoutKey(contents, item.key)) && |contents| == |old(contents)| - 1
    {
      hide At, Inorder, Listed, Sorted, WithoutKey, Before, Balanced, Repr;
      ghost var i := |Before(c)| + |Inorder(sub.l)|;
      RemoveFacts(c, sub, contents, i);
      Delist(item, i);
      assert items == Set(contents);
      Detach(item, fp, st, c, sub);
      ItemsInorder(tree);
    }

    method Delist(item: AVLitem, ghost i: nat)
      requires Coherent() && i < |contents| && contents[i] == item
      modifies `sllhead, `contents, `items, items`sll
      ensures Linked() && Balanced(tree) && Listed()
      ensures contents == old(Without(contents, i)) && items == old(items) - {item}
    {
      Unthread(item, i);
      contents := Without(contents, i);
      items := items - {item};
    }

    // Takes an item out of the tree; nothing happens if no item has its key.
    method Remove(item: AVLitem)
      requires Valid()
      requires if item in items then |contents| < 14930351 else !Overflows(tree, item)
      modifies this, items
      ensures Valid()
      ensures item in old(items) ==> contents == old(WithoutKey(contents, item.key)) && items == old(items) - {item}
      ensures item in old(items) ==> !item.inDb && instance == Word(old(instance) + 1)
      ensures item !in old(items) ==> contents == old(contents) && items == old(items) && instance == old(instance)
    {
      var st := new Stack();
      FitsExactly(tree, item);
      var p, fp, c, sub := Locate(item, st);
      if p == null {
        return;
      }
      RemoveHere(item, fp, st, c, sub);
    }

    method RemoveHere(item: AVLitem, fp: AVLitem?, st: Stack, ghost c: Ctx, ghost sub: Tree)
      requires Valid() && Plug(c, sub) == tree && Root(sub) == item && fp == Parent(c)
      requires st.Valid() && st.view == Ancestors(c) && |contents| < 14930351
      modifies this, items, st`sp, st`view, st`marker, st.stack
      ensures Valid() && item in old(items)
      ensures contents == old(WithoutKey(contents, item.key)) && items == old(items) - {item}
      ensures !item.inDb && instance == Word(old(instance) + 1)
    {
      hide Coherent;
      instance := Word(instance + 1);
      WordStep(|contents|);
      count := Word(count - 1);
      TakeOut(item, fp, st, c, sub);
      Retire(item, old(items));
    }

    method Retire(item: AVLitem, ghost was: set<AVLitem>)
      requires Coherent() && items == was - {item} && count == Word(|contents|) && forall x :: x in was ==> x.inDb
      modifies item`inDb
      ensures Valid() && !item.inDb
    {
      item.inDb := false;
    }

    // The list after item has taken the place of p in the tree.
    method RethreadOver(item: AVLitem, p: AVLitem, ghost i: nat)
      requires Linked() && Sorted(contents) && Within(contents, items) && item !in items
      requires i < |contents| && contents[i] == p && item.key == p.key
      requires Inorder(tree) == contents[i := item] && Items(tree) <= items + {item}
               && Threaded(contents, sllhead, items)
      modifies `sllhead, item`sll, items`sll
      ensures Linked() && Within(contents[i := item], items - {p} + {item})
      ensures Threaded(contents[i := item], sllhead, items - {p} + {item})
    {
      RankIs(contents[i := item], item.key, i);
      assert i > 0 ==> contents[i := item][i - 1] == contents[i - 1];
      var prev := Previous(item.key);
      assert prev == At(contents, i - 1);
      ThreadOver(item, p, prev, contents, i, items);
    }
  }

  // A tree in two parts, the pointer at the hole of c not yet set.
  lemma Isolate2(c: Ctx, t: Tree, h: AVLitem?)
    requires !c.Top? && CtxRepr(c, h) && Repr(t) && Sorted(Inorder(Plug(c, t)))
    ensures Items(t) !! CtxItems(c) && c.n in Items(Plug(c, t)) && Apart(c)
    ensures t.Node? ==> if c.InLeft? then t.item.key < c.n.key else t.item.key > c.n.key
    ensures TopItem(c, h) == TopItem(c, Root(t))
    ensures Items(t) <= Items(Plug(c, t)) && CtxItems(c) <= Items(Plug(c, t))
  {
    FocusCtx(c, t);
    FocusTree(c, t);
    ApartInTree(c, t);
    ItemsPlug(c, t);
    TopItemIn(c, h);
    if t.Node? {
      assert Inorder(t)[|Inorder(t.l)|] == t.item;
    }
  }

  // Where a step up leaves off: the height that is expected there.
  lemma ClimbEnds(c: Ctx, s: Tree, child: AVLitem?, rotated: bool, even: bool)
    requires !c.Top? && Balance.NearlyBalanced(Lowered(c, s))
    requires var u := Lowered(c, s); CtxBalanced(c.up, Height(Balance.Rotated(u)) + if StillLower(u) then 1 else 0)
    requires rotated <==> Lowered(c, s).bal == 2 || Lowered(c, s).bal == -2
    requires if rotated then even <==> !StillLower(Lowered(c, s)) else !even
    ensures var u := Lowered(c, s); var w := Balance.Rotated(u);
            && CtxBalanced(c.up, Height(w) + if even || (!rotated && u.bal != 0) then 0 else 1)
            && (!rotated ==> w == u && Root(w) == c.n)
    ensures TopItem(c.up, c.n) == TopItem(c, child)
  {
    hide Height, CtxBalanced;
  }

  lemma Rejoin(c: Ctx, t: Tree)
    requires CtxRepr(c, Root(t)) && Repr(t) && Balanced(t) && CtxBalanced(c, Height(t))
    ensures Repr(Plug(c, t)) && Balanced(Plug(c, t)) && Root(Plug(c, t)) == TopItem(c, Root(t))
  {
    ReprPlug(c, t);
    BalancedPlug(c, t);
    RootPlug(c, t);
  }

  lemma SimpleOrder(c: Ctx, sub: Tree, s: Tree)
    requires sub.Node? && Sorted(Inorder(Plug(c, sub)))
    requires (sub.r.Nil? && s == sub.l) || (sub.l.Nil? && s == sub.r)
    ensures Inorder(Plug(c, s)) == Rest(c, sub)
    ensures Sorted(Inorder(Plug(c, s)))
  {
    InorderNode(c, sub);
    InorderPlug(c, s);
    OneSide(Before(c), Inorder(sub.l), Inorder(sub.r), After(c));
    SortedGap(Before(c) + Inorder(sub.l), sub.item, Inorder(sub.r) + After(c));
  }

  // What is around an item with at most one subtree.
  lemma SimpleFacts(c: Ctx, sub: Tree, s: Tree)
    requires sub.Node? && Repr(Plug(c, sub)) && Sorted(Inorder(Plug(c, sub))) && Balanced(Plug(c, sub))
    requires (sub.r.Nil? && s == sub.l) || (sub.l.Nil? && s == sub.r)
    ensures Repr(s) && CtxRepr(c, sub.item) && Root(Plug(c, sub)) == TopItem(c, sub.item)
    ensures sub.item.left == Root(sub.l) && sub.item.right == Root(sub.r)
    ensures Apart(c) && CtxItems(c) !! Items(s) && sub.item !in CtxItems(c)
    ensures c.Top? || c.n in CtxItems(c)
    ensures c.InRight? ==> sub.item !in Items(c.l)
    ensures Balanced(s) && CtxBalanced(c, Height(s) + 1)
  {
    Isolate(c, sub);
    SimpleBalanced(c, sub, s);
    if !c.Top? {
      FocusCtx(c, sub);
    }
  }

  // What does not depend on the heap when the predecessor qs.item takes the place of sub.item.
  lemma PromotedFacts(c: Ctx, sub: Tree, rel: Ctx, qs: Tree)
    requires sub.Node? && Sorted(Inorder(Plug(c, sub))) && Balanced(Plug(c, sub))
    requires RightSpine(rel) && Plug(rel, qs) == sub.l && qs.Node? && qs.r.Nil?
    ensures var c', s' := Promoted(c, sub, rel, qs.item), qs.l;
            && Balanced(s') && CtxBalanced(c', Height(s') + 1) && Sorted(Inorder(Plug(c', s')))
            && Inorder(Plug(c', s')) == Rest(c, sub)
  {
    PromotedSorted(c, sub, rel, qs);
    BalancedPlug(c, sub);
    PromotedBalanced(c, sub, rel, qs);
  }

  // The parts of the tree around an item p with two subtrees and its predecessor.
  lemma PromotedPlaces(c: Ctx, sub: Tree, rel: Ctx, qs: Tree)
    requires sub.Node? && Repr(Plug(c, sub)) && Sorted(Inorder(Plug(c, sub)))
    requires Plug(rel, qs) == sub.l && qs.Node?
    ensures Repr(sub) && Sorted(Inorder(sub)) && CtxRepr(c, sub.item) && Apart(c)
    ensures Root(Plug(c, sub)) == TopItem(c, sub.item)
    ensures CtxItems(c) !! Items(sub) && (c.Top? || c.n in CtxItems(c)) && (c.InRight? ==> sub.item !in Items(c.l))
    ensures CtxItems(rel) <= Items(sub) && Items(qs) <= Items(sub) && (rel.Top? || rel.n in CtxItems(rel))
    ensures CtxItems(c) <= Items(Plug(c, sub)) && Items(sub) <= Items(Plug(c, sub))
  {
    Isolate(c, sub);
    InnermostIn(c);
    InnermostIn(rel);
    ItemsPlug(rel, qs);
    if !c.Top? {
      FocusCtx(c, sub);
    }
  }

  lemma DetachPlaces(c: Ctx, sub: Tree)
    requires sub.Node? && Repr(Plug(c, sub))
    ensures Repr(sub) && Items(sub) <= Items(Plug(c, sub)) && CtxItems(c) <= Items(Plug(c, sub))
    ensures c.Top? || c.n in Items(Plug(c, sub))
    ensures forall x :: x in Items(sub.l) ==> x in Items(Plug(c, sub))
    ensures forall x :: x in Items(sub.r) ==> x in Items(Plug(c, sub))
  {
    ReprPlug(c, sub);
    ItemsPlug(c, sub);
    InnermostIn(c);
  }

  // Taking the item at the root of sub out of the order.
  lemma RemoveFacts(c: Ctx, sub: Tree, s: seq<AVLitem>, i: nat)
    requires sub.Node? && s == Inorder(Plug(c, sub)) && Sorted(s) && i == |Before(c)| + |Inorder(sub.l)|
    ensures i < |s| && s[i] == sub.item && sub.item in Items(Plug(c, sub))
    ensures Without(s, i) == Rest(c, sub) == WithoutKey(s, sub.item.key)
    ensures Set(Without(s, i)) == Items(Plug(c, sub)) - {sub.item}
  {
    InorderNode(c, sub);
    ItemsInorder(Plug(c, sub));
    RemoveInSeq(s, i, Before(c) + Inorder(sub.l), sub.item, Inorder(sub.r) + After(c), Rest(c, sub));
  }

  lemma RemoveInSeq(s: seq<AVLitem>, i: nat, a: seq<AVLitem>, x: AVLitem, b: seq<AVLitem>, w: seq<AVLitem>)
    requires s == a + [x] + b && w == a + b && Sorted(s) && i == |a|
    ensures i < |s| && s[i] == x && Without(s, i) == w == WithoutKey(s, x.key)
    ensures x in Set(s) && Set(w) == Set(s) - {x}
  {
    assert s[|a|] == x;
    RankIs(s, x.key, |a|);
    SortedThree(a, [x], b);
    SetConcat(a + [x], b);
    SetConcat(a, [x]);
    SetConcat(a, b);
    assert x in Set([x]);
  }

  lemma PredecessorRoom(c: Ctx, sub: Tree)
    requires sub.Node? && Repr(Plug(c, sub)) && Balanced(Plug(c, sub)) && |Inorder(Plug(c, sub))| < 14930351
    ensures Repr(sub) && Depth(c) + Height(sub) <= 33
  {
    ReprPlug(c, sub);
    Balance.DepthBound(c, sub);
  }

  lemma PromotedSorted(c: Ctx, sub: Tree, rel: Ctx, qs: Tree)
    requires sub.Node? && Sorted(Inorder(Plug(c, sub)))
    requires RightSpine(rel) && Plug(rel, qs) == sub.l && qs.Node? && qs.r.Nil?
    ensures var w := Inorder(Plug(Promoted(c, sub, rel, qs.item), qs.l));
            w == Rest(c, sub) && Sorted(w)
  {
    InorderNode(c, sub);
    PromotedOrder(c, sub, rel, qs);
    SortedGap(Before(c) + Inorder(sub.l), sub.item, Inorder(sub.r) + After(c));
  }

  lemma PromotedItems(c: Ctx, sub: Tree, rel: Ctx, qs: Tree)
    requires sub.Node? && Plug(rel, qs) == sub.l && qs.Node?
    ensures CtxItems(Promoted(c, sub, rel, qs.item)) <= Items(Plug(c, sub))
    ensures Items(qs.l) <= Items(Plug(c, sub))
  {
    ItemsPlug(c, sub);
    ItemsCompose(rel, InLeft(qs.item, sub.bal, sub.r, c));
    SpineItems(sub, rel, qs);
  }

  lemma SpineItems(sub: Tree, rel: Ctx, qs: Tree)
    requires sub.Node? && Plug(rel, qs) == sub.l && qs.Node?
    ensures CtxItems(rel) <= Items(sub) && Items(qs.l) <= Items(sub) && qs.item in Items(sub)
            && Items(sub.r) <= Items(sub)
  {
    ItemsPlug(rel, qs);
    RootIn(qs);
  }

  lemma MarkedView(a: seq<AVLitem>, p: AVLitem, q: AVLitem, b: seq<AVLitem>)
    ensures (a + [p] + b)[|a| := q] == a + [q] + b
  {
  }

  lemma InnermostIn(c: Ctx)
    ensures c.Top? || c.n in CtxItems(c)
  {
  }

  lemma {:induction false} ItemsCompose(c: Ctx, o: Ctx)
    ensures CtxItems(Compose(c, o)) == CtxItems(c) + CtxItems(o)
  {
    if !c.Top? {
      ItemsCompose(c.up, o);
    }
  }

  lemma SimpleBalanced(c: Ctx, sub: Tree, s: Tree)
    requires sub.Node? && Balanced(Plug(c, sub))
    requires (sub.r.Nil? && s == sub.l) || (sub.l.Nil? && s == sub.r)
    ensures Balanced(s) && CtxBalanced(c, Height(s) + 1)
  {
    BalancedPlug(c, sub);
  }

  lemma RootIn(t: Tree)
    ensures t.Node? ==> t.item in Items(t)
  {
  }

  lemma OneSide(a: seq<AVLitem>, l: seq<AVLitem>, r: seq<AVLitem>, b: seq<AVLitem>)
    ensures r == [] ==> a + l + b == a + l + (r + b)
    ensures l == [] ==> a + r + b == a + l + (r + b)
  {
    assert a + [] == a && [] + b == b;
  }

  lemma SortedGap(a: seq<AVLitem>, x: AVLitem, b: seq<AVLitem>)
    requires Sorted(a + [x] + b)
    ensures Sorted(a + b) && a + b == Without(a + [x] + b, |a|)
  {
    var s, t := a + [x] + b, a + b;
    forall i, j | 0 <= i < j < |t|
      ensures t[i].key < t[j].key
    {
      assert t[i] == s[if i < |a| then i else i + 1] && t[j] == s[if j < |a| then j else j + 1];
    }
  }

  // One more round of a search that does not overflow the stack.
  lemma SearchGoesOn(c: Ctx, t: Tree, x: AVLitem)
    requires t.Node? && x != t.item && Sorted(Inorder(Plug(c, t)))
    requires Walk(Plug(c, t), x, Depth(c)) == t && !Overflows(Plug(c, t), x)
    ensures Depth(c) < STACK_SIZE && x.key != t.item.key
    ensures Walk(Plug(c, t), x, Depth(c) + 1) == if x.key < t.item.key then t.l else t.r
    ensures x in Items(if x.key < t.item.key then t.l else t.r) <==> x in Items(t)
  {
    hide Walk, Overflows, Plug;
    NextRound(Plug(c, t), t, x, Depth(c));
    FocusTree(c, t);
    if x in Items(t) {
      WhichSide(t, x);
    }
  }

  lemma RankOfMiddle(a: seq<AVLitem>, x: AVLitem, b: seq<AVLitem>)
    requires Sorted(a + [x] + b)
    ensures At(a + [x] + b, Rank(a + [x] + b, x.key) - 1) == At(a, |a| - 1)
  {
    var s := a + [x] + b;
    assert s[|a|] == x;
    RankIs(s, x.key, |a|);
  }

  lemma TopOfNil(c: Ctx)
    requires Plug(c, Nil).Nil?
    ensures c.Top?
  {
    HeightPlug(c, Nil);
  }

  // Filling an empty place of the tree with a new leaf inserts the item in the order.
  lemma InsertOrder(c: Ctx, x: AVLitem)
    requires Splits(c, x.key) && Sorted(Inorder(Plug(c, Nil)))
    ensures var s, i := Inorder(Plug(c, Nil)), |Before(c)|;
            && i <= |s|
            && Inorder(Plug(c, Node(x, 0, Nil, Nil))) == s[..i] + [x] + s[i..] == WithItem(s, x)
    ensures Sorted(Inorder(Plug(c, Node(x, 0, Nil, Nil))))
  {
    hide Sorted;
    SortedInsert(c, x);
    InorderPlug(c, Nil);
    var a, b := Before(c), After(c);
    assert a + [] + b == a + b && (a + b)[..|a|] == a && (a + b)[|a|..] == b;
    RankOfHole(a, b, x.key);
    assert |b| > 0 ==> (a + b)[|a|] == b[0];
  }

  // The empty place and the balance point are on the same search path.
  lemma InsertPlaces(c: Ctx, cy: Ctx, ty: Tree, x: AVLitem)
    requires Splits(c, x.key) && Splits(cy, x.key) && Plug(c, Nil) == Plug(cy, ty) && ty.Node?
    ensures Plug(c, Node(x, 0, Nil, Nil)) == Plug(cy, Balance.Attach(ty, x)) == Balance.Attach(Plug(cy, ty), x)
    ensures !c.Top? && c.n in Items(Plug(c, Nil))
  {
    HeightPlug(cy, ty);
    Balance.AttachPlug(c, Nil, x);
    Balance.AttachPlug(cy, ty, x);
    ItemsPlug(c, Nil);
  }

  // An insertion leaves the whole tree balanced.
  lemma InsertFacts(cy: Ctx, ty: Tree, x: AVLitem)
    requires Balanced(Plug(cy, ty)) && x !in Items(Plug(cy, ty))
    requires ty.Node? && Balance.EvenBelow(ty, x.key) && (cy.Top? || ty.bal != 0)
    ensures Balanced(ty) && x !in Items(ty)
    ensures Balanced(Plug(cy, Balance.Grown(ty, x)))
    ensures Items(Plug(cy, Balance.Grown(ty, x))) == Items(Plug(cy, ty)) + {x}
  {
    BalancedPlug(cy, ty);
    ItemsPlug(cy, ty);
    Balance.GrownFacts(ty, x);
    BalancedPlug(cy, Balance.Grown(ty, x));
    ItemsPlug(cy, Balance.Grown(ty, x));
  }

  // Replacing the item at a position of the tree replaces it in the order.
  lemma ReplaceOrder(c: Ctx, t: Tree, x: AVLitem)
    requires t.Node? && Sorted(Inorder(Plug(c, t))) && t.item.key == x.key
    ensures var s, i := Inorder(Plug(c, t)), |Before(c)| + |Inorder(t.l)|;
            && i < |s| && s[i] == t.item
            && Inorder(Plug(c, Node(x, t.bal, t.l, t.r))) == s[i := x] == WithItem(s, x)
  {
    InorderNode(c, t);
    InorderNode(c, Node(x, t.bal, t.l, t.r));
    ReplaceInSeq(Before(c) + Inorder(t.l), t.item, Inorder(t.r) + After(c), x);
  }

  lemma ReplaceInSeq(a: seq<AVLitem>, p: AVLitem, b: seq<AVLitem>, x: AVLitem)
    requires Sorted(a + [p] + b) && p.key == x.key
    ensures (a + [p] + b)[|a|] == p && (a + [p] + b)[|a| := x] == a + [x] + b
    ensures WithItem(a + [p] + b, x) == (a + [p] + b)[|a| := x]
  {
    var s := a + [p] + b;
    assert s[|a|] == p;
    RankIs(s, x.key, |a|);
  }

  lemma ReplaceFacts(c: Ctx, t: Tree, x: AVLitem)
    requires t.Node? && Sorted(Inorder(Plug(c, t))) && Balanced(Plug(c, t))
    ensures var u := Plug(c, Node(x, t.bal, t.l, t.r));
            && Balanced(u) && Items(u) == Items(Plug(c, t)) - {t.item} + {x}
            && (c.Top? || c.n in Items(Plug(c, t)))
  {
    hide Plug;
    BalancedPlug(c, t);
    BalancedPlug(c, Node(x, t.bal, t.l, t.r));
    ReplaceItems(c, t, x);
  }

  lemma ReplaceItems(c: Ctx, t: Tree, x: AVLitem)
    requires t.Node? && Sorted(Inorder(Plug(c, t)))
    ensures Items(Plug(c, Node(x, t.bal, t.l, t.r))) == Items(Plug(c, t)) - {t.item} + {x}
    ensures c.Top? || c.n in Items(Plug(c, t))
  {
    ItemsPlug(c, t);
    ItemsPlug(c, Node(x, t.bal, t.l, t.r));
    FocusTree(c, t);
    FocusNode(t);
  }

  lemma SortedInsert(c: Ctx, x: AVLitem)
    requires Splits(c, x.key) && Sorted(Inorder(Plug(c, Nil)))
    ensures Inorder(Plug(c, Node(x, 0, Nil, Nil))) == Before(c) + [x] + After(c)
    ensures Sorted(Before(c) + [x] + After(c))
  {
    InorderPlug(c, Nil);
    InorderPlug(c, Node(x, 0, Nil, Nil));
    FocusTree(c, Nil);
    assert Before(c) + [] + After(c) == Before(c) + After(c);
    SortedConcat(Before(c), After(c));
    JoinSorted(Before(c), x, After(c));
  }

  lemma JoinSorted(a: seq<AVLitem>, x: AVLitem, b: seq<AVLitem>)
    requires Sorted(a) && Sorted(b) && AllLess(a, b) && AllBelow(a, x.key) && AllAbove(b, x.key)
    ensures Sorted(a + [x] + b)
  {
  }
}
