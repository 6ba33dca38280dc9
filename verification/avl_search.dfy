// The iterator over an AVL tree (avl.C, avl.h), which tolerates changes of the tree between its steps.

module AvlSearching {
  import opened AvlItems
  import opened AvlShape
  import opened Avl

  // The first item after a key (after -1: the first of all).
  ghost function FirstAfter(s: seq<AVLitem>, bound: int): AVLitem? {
    At(s, Rank(s, bound + 1))
  }

  lemma FirstAfterIs(s: seq<AVLitem>, bound: int)
    requires Sorted(s)
    ensures FirstAfter(s, bound) == null ==> forall x :: x in s ==> x.key <= bound
    ensures FirstAfter(s, bound) != null ==>
              FirstAfter(s, bound) in s && FirstAfter(s, bound).key > bound &&
              forall x :: x in s && x.key > bound ==> x.key >= FirstAfter(s, bound).key
  {
    RankSplits(s, bound + 1);
    var r := Rank(s, bound + 1);
    forall x | x in s
      ensures x.key <= bound || (r < |s| && x.key >= s[r].key)
    {
      var j :| 0 <= j < |s| && s[j] == x;
      assert j < r ==> s[..r][j] == x;
      assert j > r ==> s[r].key < s[j].key;
    }
  }

  // The item after s[i] is the first after its key.
  lemma Following(s: seq<AVLitem>, i: nat)
    requires Sorted(s) && i < |s|
    ensures FirstAfter(s, s[i].key) == At(s, i + 1)
  {
    RankIs(s, s[i].key + 1, i + 1);
  }

  // The item before the first after a key has that key, or the one before it.
  lemma LastUpTo(s: seq<AVLitem>, k: int, x: AVLitem?)
    requires Sorted(s) && x == At(s, Rank(s, k + 1) - 1)
    ensures x == null ==> FirstAfter(s, k) == At(s, 0)
    ensures x != null ==> x in s && x.key <= k && FirstAfter(s, x.key) == FirstAfter(s, k)
  {
    RankSplits(s, k + 1);
    var r := Rank(s, k + 1);
    if r > 0 {
      assert s[..r][r - 1] == s[r - 1];
      Following(s, r - 1);
    }
  }

  // What the iterator returns after it returned a key (-1: at first), when the tree holds s. After a change the search
  // for what follows the largest key begins anew.
  ghost function Returned(s: seq<AVLitem>, bound: int, changed: bool): AVLitem? {
    if changed && bound == MAX_KEY then At(s, 0) else FirstAfter(s, bound)
  }

  // After the largest key comes nothing, but the first item of all if the tree has changed; after any other key, the
  // first item with a larger one, whether it has changed or not.
  lemma ReturnedIs(s: seq<AVLitem>, bound: int, changed: bool)
    requires Sorted(s)
    ensures bound == MAX_KEY ==> Returned(s, bound, changed) == if changed && s != [] then s[0] else null
    ensures bound != MAX_KEY && Returned(s, bound, changed) == null ==> forall x :: x in s ==> x.key <= bound
    ensures var r := Returned(s, bound, changed);
            bound != MAX_KEY && r != null ==>
              r in s && r.key > bound && forall x :: x in s && x.key > bound ==> x.key >= r.key
  {
    FirstAfterIs(s, bound);
  }

  class AVLsearch {
    const tree: AVLtree
    var instance: uns32
    var place: uns64        // c_index1 and c_index2
    var current: AVLitem?
    ghost var bound: int    // the key returned last, or -1

    // The tree has changed lag times since the iterator looked at it last; if it has not, the iterator is on an item.
    ghost predicate InStep(lag: nat)
      reads this, tree`instance, tree`items
    {
      && tree.instance == Word(instance + lag) && lag < 0x1_0000_0000
      && (current == null ==> bound == -1)
      && (current != null ==> bound == place && (lag == 0 ==> current in tree.items && current.key == place))
    }

    constructor (tree: AVLtree)
      ensures this.tree == tree && bound == -1 && InStep(0)
    {
      this.tree, instance, place, current, bound := tree, tree.instance, 0, null, -1;
    }

    lemma NoItem(s: set<AVLitem>)
      ensures forall x :: x in s ==> x as object != this
    {
    }

    // Goes to the last item up to a key; with the largest key, to no item.
    method Seek(key: uns64)
      requires tree.Valid()
      modifies `place, `current
      ensures if key == MAX_KEY then current == null else current == At(tree.contents, Rank(tree.contents, key + 1) - 1)
      ensures current != null ==> place == current.key && current in tree.items
      ensures tree.Valid()
    {
      hide AVLtree.Valid, Rank, FirstAfter;
      ListFacts(tree);
      NoItem(tree.items);
      NoItem(Items(tree.tree));
      ItemsAllocated(tree.tree);
      place := key;
      current := null;
      if tree.root == null {
        return;
      }
      if key == MAX_KEY {
        return;
      }
      TreeLinked(tree);
      current := tree.Previous(key + 1);
      if current != null {
        place := current.key;
      }
    }

    // The next item of the tree as it now is.
    method Next(ghost lag: nat) returns (r: AVLitem?)
      requires tree.Valid() && InStep(lag)
      modifies `instance, `place, `current, `bound
      ensures r == Returned(tree.contents, old(bound), lag > 0)
      ensures r != null ==> InStep(0) && bound == r.key && r in tree.items
      ensures r == null ==> bound == old(bound)
      ensures tree.Valid()
    {
      hide AVLtree.Valid, Rank, Sorted;
      ListFacts(tree);
      NoItem(tree.items);
      NoItem(Items(tree.tree));
      ItemsAllocated(tree.tree);
      if tree.root == null {
        EmptyHasNone(tree.contents, bound);
        return null;
      }
      Sync(lag);
      r := Step();
    }

    // On to the next item of the list, or to its head.
    method Step() returns (r: AVLitem?)
      requires tree.Valid() && tree.root != null && (current != null ==> current in tree.items)
      modifies `place, `current, `bound
      ensures r == if old(current) == null then At(tree.contents, 0) else FirstAfter(tree.contents, old(current.key))
      ensures r != null ==> current == r && place == r.key && bound == r.key && r in tree.items
      ensures r == null ==> bound == old(bound)
    {
      hide AVLtree.Valid, Rank, Sorted;
      ListFacts(tree);
      if current == null {
        current := tree.sllhead;
      } else if current.sll == null {
        return null;
      } else {
        current := current.sll;
      }
      place := current.key;
      bound := place;
      return current;
    }

    // The search for what comes after a key, however old the iterator is; for the largest key it begins at the head
    // of the list.
    method SeekNext(key: uns64, ghost lag: nat) returns (r: AVLitem?)
      requires tree.Valid() && tree.instance == Word(instance + lag) && lag < 0x1_0000_0000
      modifies `instance, `place, `current, `bound
      ensures r == if key == MAX_KEY then At(tree.contents, 0) else FirstAfter(tree.contents, key)
      ensures r != null ==> InStep(0) && bound == r.key && r in tree.items
      ensures tree.Valid()
    {
      hide AVLtree.Valid, Rank, FirstAfter;
      ListFacts(tree);
      NoItem(tree.items);
      NoItem(Items(tree.tree));
      ItemsAllocated(tree.tree);
      FirstOfAll(tree.contents);
      Seek(key);
      if key != MAX_KEY {
        LastUpTo(tree.contents, key, current);
      }
      bound := if current == null then -1 else place;
      r := Next(lag);
    }

    // The tree may change between two steps.
    method AddMeanwhile(item: AVLitem, ghost lag: nat)
      requires tree.Valid() && InStep(lag) && lag + 1 < 0x1_0000_0000
      requires item !in tree.items && item.left == null && item.right == null && item.balance == 0
      modifies tree, item, tree.items
      ensures tree.Valid() && InStep(lag + 1) && tree.contents == old(WithItem(tree.contents, item))
    {
      hide AVLtree.Valid;
      OneMore(instance, lag);
      tree.Add(item);
    }

    method RemoveMeanwhile(item: AVLitem, ghost lag: nat)
      requires tree.Valid() && InStep(lag) && lag + 1 < 0x1_0000_0000 && item in tree.items
               && |tree.contents| < 14930351
      modifies tree, tree.items
      ensures tree.Valid() && InStep(lag + 1) && tree.contents == old(WithoutKey(tree.contents, item.key))
    {
      hide AVLtree.Valid;
      OneMore(instance, lag);
      tree.Remove(item);
    }

    // Catches up with changes of the tree: finds the place again by its key.
    method Sync(ghost lag: nat)
      requires tree.Valid() && InStep(lag) && tree.root != null
      modifies `instance, `place, `current
      ensures instance == tree.instance && (current != null ==> current in tree.items)
      ensures (if current == null then At(tree.contents, 0) else FirstAfter(tree.contents, current.key)) ==
              Returned(tree.contents, bound, lag > 0)
    {
      LagShows(instance, lag);
      FirstOfAll(tree.contents);
      if instance != tree.instance {
        if current != null {
          Seek(place);
          if bound != MAX_KEY {
            LastUpTo(tree.contents, bound, current);
          }
        }
        instance := tree.instance;
      }
    }
  }

  lemma OneMore(instance: uns32, lag: nat)
    ensures Word(Word(instance + lag) + 1) == Word(instance + (lag + 1))
  {
    WordStep(instance + lag);
  }

  lemma LagShows(instance: uns32, lag: nat)
    requires lag < 0x1_0000_0000
    ensures Word(instance + lag) == instance <==> lag == 0
  {
  }

  lemma EmptyHasNone(s: seq<AVLitem>, k: int)
    requires s == []
    ensures FirstAfter(s, k) == null
  {
  }

  lemma TreeLinked(t: AVLtree)
    requires t.Valid()
    ensures t.Linked() && t.contents == Inorder(t.tree)
  {
  }

  lemma FirstOfAll(s: seq<AVLitem>)
    ensures FirstAfter(s, -1) == At(s, 0)
  {
  }

  lemma ListFacts(t: AVLtree)
    requires t.Valid()
    ensures Sorted(t.contents) && t.contents == Inorder(t.tree) && t.sllhead == At(t.contents, 0)
    ensures t.root == null <==> t.contents == []
    ensures forall x :: x in t.contents <==> x in t.items
    ensures forall x :: x in t.items ==> x.sll == FirstAfter(t.contents, x.key)
  {
    ItemsInorder(t.tree);
    forall x | x in t.items
      ensures x.sll == FirstAfter(t.contents, x.key)
    {
      var i :| 0 <= i < |t.contents| && t.contents[i] == x;
      Following(t.contents, i);
    }
  }

  // ---- A walk through a tree that changes

  function LastKey(rets: seq<AVLitem>): int {
    if rets == [] then -1 else rets[|rets| - 1].key
  }

  // The calls of Next up to the first that returns null: what the tree held at each, whether it had changed since the
  // one before, and what was returned.
  ghost predicate Walks(snaps: seq<seq<AVLitem>>, changed: seq<bool>, rets: seq<AVLitem>) {
    && |snaps| == |changed| == |rets| + 1 && (forall i :: 0 <= i <= |rets| ==> Sorted(snaps[i]))
    && (forall i :: 0 < i <= |rets| && !changed[i] ==> snaps[i] == snaps[i - 1])
    && (forall i :: 0 <= i < |rets| ==> rets[i] == Returned(snaps[i], LastKey(rets[..i]), changed[i]))
    && Returned(snaps[|rets|], LastKey(rets), changed[|rets|]) == null
  }

  // The walk begins anew: the tree changed after the largest key was returned.
  predicate Restarts(changed: seq<bool>, rets: seq<AVLitem>, i: nat) {
    0 < i < |rets| && i < |changed| && changed[i] && rets[i - 1].key == MAX_KEY
  }

  lemma Step(snaps: seq<seq<AVLitem>>, changed: seq<bool>, rets: seq<AVLitem>, i: nat)
    requires Walks(snaps, changed, rets) && i < |rets|
    ensures rets[i] in snaps[i]
    ensures Restarts(changed, rets, i) || rets[i].key > LastKey(rets[..i])
    ensures forall x ::
              x in snaps[i] && (Restarts(changed, rets, i) || x.key > LastKey(rets[..i])) ==> x.key >= rets[i].key
  {
    var s := snaps[i];
    FirstAfterIs(s, LastKey(rets[..i]));
    if i > 0 {
      assert rets[..i][i - 1] == rets[i - 1];
    }
    if Restarts(changed, rets, i) {
      FirstAfterIs(s, -1);
      FirstOfAll(s);
    }
  }

  // The keys returned increase strictly if and only if the walk does not begin anew.
  lemma WalkIncreases(snaps: seq<seq<AVLitem>>, changed: seq<bool>, rets: seq<AVLitem>)
    requires Walks(snaps, changed, rets)
    ensures (forall i, j :: 0 <= i < j < |rets| ==> rets[i].key < rets[j].key) <==>
            forall i :: 0 < i < |rets| ==> !Restarts(changed, rets, i)
  {
    if forall i :: 0 < i < |rets| ==> !Restarts(changed, rets, i) {
      forall i, j | 0 <= i < j < |rets|
        ensures rets[i].key < rets[j].key
      {
        Increases(snaps, changed, rets, i, j);
      }
    }
  }

  lemma {:induction false} Increases(snaps: seq<seq<AVLitem>>, changed: seq<bool>, rets: seq<AVLitem>, i: nat, j: nat)
    requires Walks(snaps, changed, rets) && i < j < |rets| && forall k :: 0 < k < |rets| ==> !Restarts(changed, rets, k)
    ensures rets[i].key < rets[j].key
    decreases j
  {
    Step(snaps, changed, rets, j);
    assert rets[..j][j - 1] == rets[j - 1];
    if i < j - 1 {
      Increases(snaps, changed, rets, i, j - 1);
    }
  }

  // Keys that are still to come are not passed over.
  lemma NotPassed(snaps: seq<seq<AVLitem>>, changed: seq<bool>, rets: seq<AVLitem>, k: nat, i: nat)
    requires Walks(snaps, changed, rets) && i < |rets| && HasKey(snaps[i], k)
    requires i == 0 || Restarts(changed, rets, i) || k > rets[i - 1].key
    ensures rets[i].key <= k
  {
    hide Returned;
    Step(snaps, changed, rets, i);
    if i > 0 {
      assert rets[..i][i - 1] == rets[i - 1];
    }
  }

  // The walk begins at m, and has come to n.
  lemma {:induction false} NotSkipped(snaps: seq<seq<AVLitem>>, changed: seq<bool>, rets: seq<AVLitem>,
                                      k: nat, m: nat, n: nat)
    requires Walks(snaps, changed, rets) && forall s :: s in snaps ==> HasKey(s, k)
    requires m <= n <= |rets| && (m == 0 || Restarts(changed, rets, m))
    ensures n == m || k > rets[n - 1].key || exists i :: m <= i < n && rets[i].key == k
  {
    hide HasKey, LastKey, Restarts, Returned;
    if n > m {
      NotSkipped(snaps, changed, rets, k, m, n - 1);
      if n - 1 == m || k > rets[n - 2].key {
        assert snaps[n - 1] in snaps;
        NotPassed(snaps, changed, rets, k, n - 1);
      }
    }
  }

  // From where a walk begins to the first null, every key that is in the tree throughout is returned.
  lemma FoundFrom(snaps: seq<seq<AVLitem>>, changed: seq<bool>, rets: seq<AVLitem>, k: nat, m: nat)
    requires Walks(snaps, changed, rets) && forall s :: s in snaps ==> HasKey(s, k)
    requires m == 0 || Restarts(changed, rets, m)
    ensures exists i :: m <= i < |rets| && rets[i].key == k
  {
    hide HasKey, Restarts, Returned;
    if m > 0 {
      LateEnough(changed, rets, m);
    }
    NotSkipped(snaps, changed, rets, k, m, |rets|);
    assert snaps[|rets|] in snaps;
    AtEnd(snaps, changed, rets, k);
  }

  lemma LateEnough(changed: seq<bool>, rets: seq<AVLitem>, m: nat)
    requires Restarts(changed, rets, m)
    ensures m < |rets|
  {
  }

  lemma AtEnd(snaps: seq<seq<AVLitem>>, changed: seq<bool>, rets: seq<AVLitem>, k: nat)
    requires Walks(snaps, changed, rets) && HasKey(snaps[|rets|], k)
    ensures rets != [] && k <= rets[|rets| - 1].key
  {
    FirstAfterIs(snaps[|rets|], LastKey(rets));
  }

  // Every key that is in the tree throughout is returned; exactly once if and only if the walk does not begin anew.
  lemma WalkIsComplete(snaps: seq<seq<AVLitem>>, changed: seq<bool>, rets: seq<AVLitem>, k: nat)
    requires Walks(snaps, changed, rets) && forall s :: s in snaps ==> HasKey(s, k)
    ensures exists i :: 0 <= i < |rets| && rets[i].key == k
    ensures (forall i, j :: 0 <= i < j < |rets| ==> !(rets[i].key == k && rets[j].key == k)) <==>
            forall i :: 0 < i < |rets| ==> !Restarts(changed, rets, i)
  {
    FoundFrom(snaps, changed, rets, k, 0);
    WalkIncreases(snaps, changed, rets);
    if m: nat :| 0 < m < |rets| && Restarts(changed, rets, m) {
      FoundFrom(snaps, changed, rets, k, m);
      FoundBefore(snaps, changed, rets, k, m);
    }
  }

  lemma FoundBefore(snaps: seq<seq<AVLitem>>, changed: seq<bool>, rets: seq<AVLitem>, k: nat, m: nat)
    requires Walks(snaps, changed, rets) && forall s :: s in snaps ==> HasKey(s, k)
    requires Restarts(changed, rets, m)
    ensures exists i :: 0 <= i < m && rets[i].key == k
  {
    NotSkipped(snaps, changed, rets, k, 0, m);
    assert rets[..m][m - 1] == rets[m - 1];
    assert snaps[0] in snaps && HasKey(snaps[0], k);
  }

  // Where a walk that seeks the i-th item begins: after it; but at the head, for an item with the largest key.
  function StartAfter(key: uns64, i: nat): nat {
    if key == MAX_KEY then 0 else i + 1
  }

  lemma SeekStarts(s: seq<AVLitem>, i: nat)
    requires Sorted(s) && i < |s|
    ensures (if s[i].key == MAX_KEY then At(s, 0) else FirstAfter(s, s[i].key)) == At(s, StartAfter(s[i].key, i))
  {
    Following(s, i);
  }
}
