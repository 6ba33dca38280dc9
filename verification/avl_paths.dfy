// How many ancestors the search of AVLtree::remove stacks (avl.C, stack.h): exactly when 32 slots are enough.

module AvlPaths {
  import opened AvlItems
  import opened AvlShape
  import opened AvlBalance

  const STACK_SIZE: nat := 32

  // Where the search for x stands after n rounds. A round at another item with the key of x goes nowhere.
  function Walk(t: Tree, x: AVLitem, n: nat): Tree
    decreases n
  {
    if n == 0 || t.Nil? || t.item == x then t
    else if x.key < t.item.key then Walk(t.l, x, n - 1)
    else if x.key > t.item.key then Walk(t.r, x, n - 1)
    else Walk(t, x, n - 1)
  }

  // The search goes on after n rounds, and stacks one more item.
  predicate Pushes(t: Tree, x: AVLitem, n: nat) {
    Walk(t, x, n).Node? && Walk(t, x, n).item != x
  }

  predicate Overflows(t: Tree, x: AVLitem) {
    Pushes(t, x, STACK_SIZE)
  }

  lemma {:induction false} WalkOn(t: Tree, x: AVLitem, m: nat, n: nat)
    ensures Walk(t, x, m + n) == Walk(Walk(t, x, m), x, n)
    decreases m
  {
    if m > 0 && t.Node? && t.item != x {
      WalkOn(if x.key < t.item.key then t.l else if x.key > t.item.key then t.r else t, x, m - 1, n);
    } else if m > 0 {
      WalkEnds(t, x, m + n);
      WalkEnds(t, x, n);
    }
  }

  lemma WalkEnds(t: Tree, x: AVLitem, n: nat)
    requires t.Nil? || t.item == x
    ensures Walk(t, x, n) == t
  {
  }

  lemma {:induction false} PushedBefore(t: Tree, x: AVLitem, m: nat, n: nat)
    requires m <= n && Pushes(t, x, n)
    ensures Pushes(t, x, m)
    decreases n
  {
    if m < n {
      WalkOn(t, x, n - 1, 1);
      PushedBefore(t, x, m, n - 1);
    }
  }

  // An item that is another's equal stops the search for ever.
  lemma {:induction false} EqualStays(t: Tree, x: AVLitem, n: nat)
    requires t.Node? && t.item != x && t.item.key == x.key
    ensures Walk(t, x, n) == t && Pushes(t, x, n)
  {
    if n > 0 {
      EqualStays(t, x, n - 1);
    }
  }

  // One more round of a search that does not overflow the stack.
  lemma NextRound(u: Tree, t: Tree, x: AVLitem, d: nat)
    requires t.Node? && x != t.item && Walk(u, x, d) == t && !Overflows(u, x)
    ensures d < STACK_SIZE && x.key != t.item.key
    ensures Walk(u, x, d + 1) == if x.key < t.item.key then t.l else t.r
  {
    WalkOn(u, x, d, 1);
    if d >= STACK_SIZE {
      PushedBefore(u, x, STACK_SIZE, d);
    } else if x.key == t.item.key {
      WalkOn(u, x, d, STACK_SIZE - d);
      EqualStays(t, x, STACK_SIZE - d);
    }
  }

  // ---- The keys alone

  datatype KeyTree = Tip | Fork(l: KeyTree, key: uns64, r: KeyTree)

  function KeysOf(t: Tree): KeyTree {
    if t.Nil? then Tip else Fork(KeysOf(t.l), t.item.key, KeysOf(t.r))
  }

  function Size(t: KeyTree): nat {
    if t.Tip? then 0 else Size(t.l) + 1 + Size(t.r)
  }

  function Levels(t: KeyTree): nat {
    if t.Tip? then 0 else 1 + Max(Levels(t.l), Levels(t.r))
  }

  predicate Even(t: KeyTree) {
    t.Fork? ==> Even(t.l) && Even(t.r) && -1 <= Levels(t.r) - Levels(t.l) <= 1
  }

  predicate Has(t: KeyTree, k: nat) {
    t.Fork? && (k == t.key || Has(t.l, k) || Has(t.r, k))
  }

  // All keys are at least lo and below hi, in order.
  predicate InOrder(t: KeyTree, lo: nat, hi: nat) {
    t.Fork? ==> lo <= t.key < hi && InOrder(t.l, lo, t.key) && InOrder(t.r, t.key + 1, hi)
  }

  // The items a search for k passes before it finds the key, or leaves the tree.
  function Passed(t: KeyTree, k: nat): nat {
    if t.Tip? || k == t.key then 0 else 1 + Passed(if k < t.key then t.l else t.r, k)
  }

  lemma {:induction false} EvenSize(t: KeyTree)
    requires Even(t)
    ensures Size(t) >= MinItems(Levels(t))
  {
    if t.Fork? {
      EvenSize(t.l);
      EvenSize(t.r);
      var h := Levels(t);
      if h > 1 {
        MinItemsMonotone(h - 2, Levels(t.l));
        MinItemsMonotone(h - 2, Levels(t.r));
      }
    }
  }

  lemma {:induction false} PassedLevels(t: KeyTree, k: nat, lo: nat, hi: nat)
    requires InOrder(t, lo, hi)
    ensures Passed(t, k) <= Levels(t) && (Has(t, k) ==> lo <= k < hi && Passed(t, k) < Levels(t))
  {
    if t.Fork? {
      PassedLevels(t.l, k, lo, t.key);
      PassedLevels(t.r, k, t.key + 1, hi);
    }
  }

  // The thinnest tree of h levels, with keys from lo on: its least key is on the last level.
  function Thinnest(h: nat, lo: nat): (t: KeyTree)
    requires lo + MinItems(h) <= MAX_KEY
  {
    if h == 0 then Tip
    else if h == 1 then Fork(Tip, lo, Tip)
    else Fork(Thinnest(h - 1, lo), lo + MinItems(h - 1), Thinnest(h - 2, lo + MinItems(h - 1) + 1))
  }

  lemma {:induction false} ThinnestIs(h: nat, lo: nat)
    requires lo + MinItems(h) <= MAX_KEY
    ensures var t := Thinnest(h, lo);
            Even(t) && InOrder(t, lo, lo + MinItems(h)) && Levels(t) == h && Size(t) == MinItems(h)
  {
    if h >= 2 {
      ThinnestIs(h - 1, lo);
      ThinnestIs(h - 2, lo + MinItems(h - 1) + 1);
    }
  }

  lemma {:induction false} ThinnestPassed(h: nat, lo: nat, k: nat)
    requires lo + MinItems(h) <= MAX_KEY && k <= lo
    ensures k < lo ==> Passed(Thinnest(h, lo), k) == h && !Has(Thinnest(h, lo), k)
    ensures k == lo && h > 0 ==> Passed(Thinnest(h, lo), k) == h - 1 && Has(Thinnest(h, lo), k)
  {
    if h >= 2 {
      ThinnestPassed(h - 1, lo, k);
      ThinnestPassed(h - 2, lo + MinItems(h - 1) + 1, k);
      MinItemsMonotone(1, h - 1);
    }
  }

  ghost predicate Program(t: KeyTree, b: nat) {
    Even(t) && InOrder(t, 0, MAX_KEY + 1) && Size(t) < b
  }

  ghost predicate AbsentFits(t: KeyTree, k: uns64, b: nat) {
    Program(t, b) && !Has(t, k) ==> Passed(t, k) <= STACK_SIZE
  }

  ghost predicate PresentFits(t: KeyTree, k: uns64, b: nat) {
    Program(t, b) && Has(t, k) ==> Passed(t, k) <= STACK_SIZE
  }

  // A search for a key that is absent fits the stack in all balanced trees of fewer than b items exactly if b is
  // at most 9227464.
  lemma AbsentBound(b: nat)
    ensures b <= 9227464 <==> forall t: KeyTree, k: uns64 :: AbsentFits(t, k, b)
  {
    hide AbsentFits, MinItems;
    if b <= 9227464 {
      forall t: KeyTree, k: uns64
        ensures AbsentFits(t, k, b)
      {
        AbsentPasses(t, k, b);
      }
    } else {
      MinItems34();
      AbsentOverflow(b, 0, 33);
    }
  }

  lemma AbsentOverflow(b: nat, k: uns64, h: nat)
    requires MinItems(h) < b && MinItems(h) < MAX_KEY && h > STACK_SIZE && k == 0
    ensures exists t: KeyTree :: !AbsentFits(t, k, b)
  {
    hide Even, InOrder, MinItems, Thinnest, Size, Has, Passed;
    ThinnestIs(h, 1);
    ThinnestPassed(h, 1, 0);
    Wider(Thinnest(h, 1), 1, 1 + MinItems(h), 0, MAX_KEY + 1);
    assert !AbsentFits(Thinnest(h, 1), k, b);
  }

  // For a key that is present the bound is 14930351.
  lemma PresentBound(b: nat)
    ensures b <= 14930351 <==> forall t: KeyTree, k: uns64 :: PresentFits(t, k, b)
  {
    hide PresentFits, MinItems;
    if b <= 14930351 {
      forall t: KeyTree, k: uns64
        ensures PresentFits(t, k, b)
      {
        PresentPasses(t, k, b);
      }
    } else {
      MinItems34();
      PresentOverflow(b, 0, 34);
    }
  }

  lemma PresentOverflow(b: nat, k: uns64, h: nat)
    requires MinItems(h) < b && MinItems(h) < MAX_KEY && h > STACK_SIZE + 1 && k == 0
    ensures exists t: KeyTree :: !PresentFits(t, k, b)
  {
    hide Even, InOrder, MinItems, Thinnest, Size, Has, Passed;
    ThinnestIs(h, 0);
    ThinnestPassed(h, 0, 0);
    Wider(Thinnest(h, 0), 0, MinItems(h), 0, MAX_KEY + 1);
    assert !PresentFits(Thinnest(h, 0), k, b);
  }

  lemma {:induction false} Wider(t: KeyTree, lo: nat, hi: nat, lo': nat, hi': nat)
    requires InOrder(t, lo, hi) && lo' <= lo && hi <= hi'
    ensures InOrder(t, lo', hi')
  {
    if t.Fork? {
      Wider(t.l, lo, t.key, lo', t.key);
      Wider(t.r, t.key + 1, hi, t.key + 1, hi');
    }
  }

  lemma AbsentPasses(t: KeyTree, k: uns64, b: nat)
    requires b <= 9227464
    ensures AbsentFits(t, k, b) && (Program(t, b) ==> Passed(t, k) <= STACK_SIZE)
  {
    hide Even, InOrder, MinItems, Size, Levels, Passed, Has;
    if !Program(t, b) {
      return;
    }
    EvenSize(t);
    PassedLevels(t, k, 0, MAX_KEY + 1);
    MinItems34();
    if Levels(t) > 32 {
      MinItemsMonotone(33, Levels(t));
    }
  }

  lemma PresentPasses(t: KeyTree, k: uns64, b: nat)
    requires b <= 14930351
    ensures PresentFits(t, k, b)
  {
    hide Even, InOrder, MinItems, Size, Levels, Passed, Has;
    if !Program(t, b) {
      return;
    }
    EvenSize(t);
    PassedLevels(t, k, 0, MAX_KEY + 1);
    MinItems34();
    if Levels(t) > 33 {
      MinItemsMonotone(34, Levels(t));
    }
  }

  // ---- The items of a tree, and their keys

  lemma {:induction false} KeysFacts(t: Tree)
    ensures Levels(KeysOf(t)) == Height(t) && Size(KeysOf(t)) == |Inorder(t)| && (Balanced(t) ==> Even(KeysOf(t)))
    ensures forall k: nat :: Has(KeysOf(t), k) <==> exists x :: x in Items(t) && x.key == k
  {
    if t.Node? {
      KeysFacts(t.l);
      KeysFacts(t.r);
    }
  }

  lemma SplitKeys(t: Tree)
    requires t.Node? && Sorted(Inorder(t))
    ensures Sorted(Inorder(t.l)) && Sorted(Inorder(t.r))
    ensures forall x :: x in Items(t.l) ==> x.key < t.item.key
    ensures forall x :: x in Items(t.r) ==> x.key > t.item.key
  {
    SortedThree(Inorder(t.l), [t.item], Inorder(t.r));
    ItemsInorder(t.l);
    ItemsInorder(t.r);
    assert [t.item][0] == t.item;
  }

  lemma {:induction false} KeysInOrder(t: Tree, lo: nat, hi: nat)
    requires Sorted(Inorder(t)) && forall x :: x in Items(t) ==> lo <= x.key < hi
    ensures InOrder(KeysOf(t), lo, hi)
  {
    if t.Node? {
      SplitKeys(t);
      KeysInOrder(t.l, lo, t.item.key);
      KeysInOrder(t.r, t.item.key + 1, hi);
    }
  }

  lemma OneItemPerKey(t: Tree, x: AVLitem, y: AVLitem)
    requires Sorted(Inorder(t)) && x in Items(t) && y in Items(t) && x.key == y.key
    ensures x == y
  {
    ItemsInorder(t);
  }

  // If x is in the tree, or nothing with its key is, the search stacks the items passed.
  lemma {:induction false} PushesArePassed(t: Tree, x: AVLitem, n: nat)
    requires forall y :: y in Items(t) && y.key == x.key ==> y == x
    ensures Pushes(t, x, n) <==> n < Passed(KeysOf(t), x.key)
    decreases n
  {
    if n > 0 && t.Node? && t.item != x {
      PushesArePassed(if x.key < t.item.key then t.l else t.r, x, n - 1);
    }
  }

  // The exact condition for the search of a removal to stay within the stack, for the trees the program builds.
  lemma FitsExactly(t: Tree, x: AVLitem)
    requires Balanced(t) && Sorted(Inorder(t))
    ensures Overflows(t, x) <==>
            (exists y :: y in Items(t) && y != x && y.key == x.key) || Passed(KeysOf(t), x.key) > STACK_SIZE
    ensures x in Items(t) && |Inorder(t)| < 14930351 ==> !Overflows(t, x)
    ensures (forall y :: y in Items(t) ==> y.key != x.key) && |Inorder(t)| < 9227464 ==> !Overflows(t, x)
  {
    hide Balanced, Sorted, Items, Inorder, Overflows, Passed, Even, Has, InOrder;
    if y :| y in Items(t) && y != x && y.key == x.key {
      EqualLoops(t, x, y, STACK_SIZE);
      OverflowIs(t, x);
      if x in Items(t) {
        OneItemPerKey(t, x, y);
      }
    } else {
      OverflowIs(t, x);
      PushesArePassed(t, x, STACK_SIZE);
      KeysFacts(t);
      KeysInOrder(t, 0, MAX_KEY + 1);
      if x in Items(t) && |Inorder(t)| < 14930351 {
        PresentPasses(KeysOf(t), x.key, 14930351);
      }
      if |Inorder(t)| < 9227464 {
        AbsentPasses(KeysOf(t), x.key, 9227464);
      }
    }
  }

  lemma OverflowIs(t: Tree, x: AVLitem)
    ensures Overflows(t, x) <==> Pushes(t, x, STACK_SIZE)
  {
  }

  // An item outside the tree whose key is present: the search never ends.
  lemma {:induction false} EqualLoops(t: Tree, x: AVLitem, y: AVLitem, n: nat)
    requires Sorted(Inorder(t)) && y in Items(t) && y != x && y.key == x.key
    ensures Pushes(t, x, n)
    decreases t
  {
    if x in Items(t) {
      OneItemPerKey(t, x, y);
    } else if t.item == y {
      EqualStays(t, x, n);
    } else if n > 0 {
      SplitKeys(t);
      EqualLoops(if x.key < t.item.key then t.l else t.r, x, y, n - 1);
    }
  }
}
