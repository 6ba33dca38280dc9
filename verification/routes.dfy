// The IP routing table (rte.C, rte.h): entries in the order of their keys, each pointing to the nearest entry
// that encloses it, and the search for the best match.

module Routes {
  import opened Avl
  import opened AvlItems
  import opened AvlSearching
  import opened Common
  import opened Prefixes
  import Shape = AvlShape

  class INrte {
    const key: Prefix
    const elt: AVLitem  // the entry as an item of the tree
    var prefix: INrte?
    var valid: bool     // has a route

    constructor (key: Prefix)
      requires Normal(key)
      ensures this.key == key && prefix == null && !valid
      ensures fresh(elt) && elt.key == TreeKey(key) && elt.left == null && elt.right == null && elt.balance == 0
    {
      MaskIsWord(key);
      this.key, prefix, valid := key, null, false;
      elt := new AVLitem(key.net, Mask(key));
    }
  }

  // The key of which 255.255.255.255/32 is the last.
  const HOST_LAST := Prefix(LAST, 0)

  ghost predicate Ordered(es: seq<INrte>) {
    forall i, j :: 0 <= i < j < |es| ==> Less(es[i].key, es[j].key)
  }

  ghost predicate Keyed(es: seq<INrte>) {
    Ordered(es) && forall e :: e in es ==> Normal(e.key)
  }

  // o is another entry that encloses e.
  predicate Encloses(o: INrte, e: INrte) {
    o.key != e.key && IsChild(e.key, o.key)
  }

  // p is the nearest entry among es that encloses e, or null if none does.
  ghost predicate Nearest(es: seq<INrte>, e: INrte, p: INrte?) {
    if p == null then forall o :: o in es ==> !Encloses(o, e)
    else p in es && Encloses(p, e) && forall o :: o in es && Encloses(o, e) ==> IsChild(p.key, o.key)
  }

  ghost predicate Pointed(es: seq<INrte>)
    reads (set e | e in es)`prefix
  {
    forall e :: e in es ==> Nearest(es, e, e.prefix)
  }

  lemma SameKey(es: seq<INrte>, p: INrte, q: INrte)
    requires Keyed(es) && p in es && q in es && p.key == q.key
    ensures p == q
  {
    var i, j :| 0 <= i < |es| && 0 <= j < |es| && es[i] == p && es[j] == q;
    LessTotal(p.key, q.key);
  }

  ghost predicate SameKeys(es: seq<INrte>, fs: seq<INrte>) {
    (forall e :: e in es ==> exists f :: f in fs && f.key == e.key)
        && (forall f :: f in fs ==> exists e :: e in es && e.key == f.key)
  }

  lemma Alike(es: seq<INrte>, fs: seq<INrte>)
    ensures SameKeys(es, fs) == SameKeys(fs, es)
  {
  }

  // What encloses an entry of one table has its like in the other.
  lemma LikeEncloses(es: seq<INrte>, fs: seq<INrte>, e: INrte, f: INrte, p: INrte)
    requires SameKeys(es, fs) && Nearest(es, e, p) && Nearest(fs, f, f.prefix) && e.key == f.key
    ensures f.prefix != null && IsChild(f.prefix.key, p.key)
  {
    hide IsChild;
    var o :| o in fs && o.key == p.key;
    assert Encloses(o, f);
  }

  // In whatever order two tables were filled with the same prefixes, their pointers lead to the same prefixes.
  lemma AnyOrder(es: seq<INrte>, fs: seq<INrte>, e: INrte, f: INrte)
    requires Keyed(es) && Pointed(es) && Keyed(fs) && Pointed(fs) && SameKeys(es, fs)
    requires e in es && f in fs && e.key == f.key
    ensures if e.prefix == null then f.prefix == null else f.prefix != null && f.prefix.key == e.prefix.key
  {
    hide Nearest, Keyed, IsChild, Less, SameKeys;
    Alike(es, fs);
    if e.prefix != null {
      LikeEncloses(es, fs, e, f, e.prefix);
    }
    if f.prefix != null {
      LikeEncloses(fs, es, f, e, f.prefix);
      ChildOrder(e.prefix.key, f.prefix.key);
      ChildOrder(f.prefix.key, e.prefix.key);
      LessTotal(e.prefix.key, f.prefix.key);
    }
  }

  // ---- The keys of the tree: network number and mask

  function TreeKey(p: Prefix): uns64
    requires Normal(p)
  {
    MaskIsWord(p);
    KeyOf(p.net, Mask(p))
  }

  lemma MaskIsWord(p: Prefix)
    requires Normal(p)
    ensures 0 <= Mask(p) < SPACE && (Mask(p) == LAST <==> p.zeros == 0)
  {
    MaskOrder(p, HOST_LAST);
    PowOrder(32, p.zeros);
    assert Pow2(4) == 0x10 && Pow2(8) == 0x100 && Pow2(12) == 0x1000 && Pow2(16) == 0x1_0000;
    assert Pow2(20) == 0x10_0000 && Pow2(24) == 0x100_0000 && Pow2(28) == 0x1000_0000 && Pow2(32) == SPACE;
  }

  // The order of the table is that of the tree, and one key is the largest.
  lemma TreeOrder(p: Prefix, o: Prefix)
    requires Normal(p) && Normal(o)
    ensures Less(p, o) <==> TreeKey(p) < TreeKey(o)
    ensures TreeKey(p) == MAX_KEY <==> p == HOST_LAST
  {
    hide Pow2;
    MaskIsWord(p);
    MaskIsWord(o);
    KeyOrder(p.net, Mask(p), o.net, Mask(o));
    KeySteps(p.net, Mask(p));
    MaskOrder(p, HOST_LAST);
  }

  // ---- Climbing from an entry to those that enclose it

  // From p, everything that encloses the address x (at a longer mask than zeros, if p does not) can be reached.
  ghost predicate Reaches(es: seq<INrte>, p: INrte?, o: INrte) {
    p != null && p in es && IsChild(p.key, o.key)
  }

  // The last entry before an address reaches all that hold it.
  lemma LastReaches(es: seq<INrte>, i: nat, addr: nat, o: INrte)
    requires Keyed(es) && i <= |es| && o in es[..i] && Matches(o.key, addr) && es[i - 1].key.net <= addr
    ensures Reaches(es, es[i - 1], o)
  {
    var k :| 0 <= k < i && es[k] == o;
    Between(o.key, es[i - 1].key, addr);
  }

  // One step up reaches whatever the entry itself is not.
  lemma StepReaches(es: seq<INrte>, p: INrte, o: INrte)
    requires Reaches(es, p, o) && o in es && o.key != p.key && Nearest(es, p, p.prefix)
    ensures Reaches(es, p.prefix, o)
  {
    assert Encloses(o, p);
  }

  // The number of entries before a key.
  function Below(es: seq<INrte>, key: Prefix): (n: nat)
    ensures n <= |es|
  {
    if es == [] || !Less(es[0].key, key) then 0 else 1 + Below(es[1..], key)
  }

  lemma {:induction false} BelowSplits(es: seq<INrte>, key: Prefix)
    requires Keyed(es)
    ensures forall i :: 0 <= i < |es| ==> (i < Below(es, key) <==> Less(es[i].key, key))
  {
    if es != [] {
      assert forall e :: e in es[1..] ==> e in es;
      BelowSplits(es[1..], key);
      forall i | 0 <= i < |es|
        ensures i < Below(es, key) <==> Less(es[i].key, key)
      {
        if i > 0 {
          assert es[1..][i - 1] == es[i];
          assert Less(es[0].key, es[i].key);
        }
      }
    }
  }

  lemma UpIsEarlier(es: seq<INrte>, p: INrte)
    requires Keyed(es) && p in es && Nearest(es, p, p.prefix) && p.prefix != null
    ensures Below(es, p.prefix.key) < Below(es, p.key)
  {
    var q := p.prefix;
    ChildOrder(p.key, q.key);
    BelowSplits(es, p.key);
    BelowSplits(es, q.key);
    var i :| 0 <= i < |es| && es[i] == q;
    LessTotal(q.key, q.key);
    assert i < Below(es, p.key);
  }

  // ---- What a new entry changes

  ghost predicate Grown(es: seq<INrte>, i: nat, rte: INrte, fs: seq<INrte>) {
    i <= |es| && fs == es[..i] + [rte] + es[i..]
  }

  lemma GrownMembers(es: seq<INrte>, i: nat, rte: INrte, fs: seq<INrte>)
    requires Grown(es, i, rte, fs)
    ensures forall e :: e in fs <==> e == rte || e in es
  {
    assert es == es[..i] + es[i..];
  }

  lemma GrownKeyed(es: seq<INrte>, i: nat, rte: INrte, fs: seq<INrte>)
    requires Grown(es, i, rte, fs) && Keyed(es) && Normal(rte.key) && i == Below(es, rte.key)
    requires i < |es| ==> es[i].key != rte.key
    ensures Keyed(fs)
  {
    BelowSplits(es, rte.key);
    GrownMembers(es, i, rte, fs);
    forall j, k | 0 <= j < k < |fs|
      ensures Less(fs[j].key, fs[k].key)
    {
      if j == i {
        LessTotal(rte.key, es[k - 1].key);
        assert i < k - 1 ==> Less(es[i].key, es[k - 1].key);
        LessTotal(rte.key, es[i].key);
      }
    }
  }

  // An entry under the new one keeps its pointer only if it leads to another such entry.
  lemma ChildPointer(es: seq<INrte>, fs: seq<INrte>, rte: INrte, c: INrte, p: INrte?)
    requires (forall e :: e in fs <==> e == rte || e in es) && Nearest(es, c, p) && Encloses(rte, c)
    ensures Nearest(fs, c, if p != null && IsChild(p.key, rte.key) then p else rte)
  {
    forall o | o in fs && Encloses(o, c)
      ensures IsChild((if p != null && IsChild(p.key, rte.key) then p else rte).key, o.key)
    {
      if o != rte && !IsChild(p.key, rte.key) {
        if Mask(p.key) >= Mask(rte.key) {
          Nested(c.key, p.key, rte.key);
        } else {
          Nested(c.key, rte.key, p.key);
          ChildTransitive(rte.key, p.key, o.key);
        }
      }
      if o == rte && !(p != null && IsChild(p.key, rte.key)) {
        Itself(rte.key, c.key);
      }
    }
  }

  lemma Itself(o: Prefix, p: Prefix)
    requires IsChild(p, o)
    ensures IsChild(o, o)
  {
    AndTwice(p.net, o.zeros, o.zeros);
  }

  lemma OnlyChild(p: Prefix)
    requires p == HOST_LAST
    ensures IsChild(p, p)
  {
    assert Pow2(0) == 1;
  }

  lemma OtherPointer(es: seq<INrte>, fs: seq<INrte>, rte: INrte, c: INrte, p: INrte?)
    requires (forall e :: e in fs <==> e == rte || e in es) && Nearest(es, c, p) && !Encloses(rte, c)
    ensures Nearest(fs, c, p)
  {
  }

  // The entries under another follow it without a gap.
  lemma ChildrenTogether(fs: seq<INrte>, i: nat, j: nat, k: nat)
    requires Keyed(fs) && i < j < k < |fs| && IsChild(fs[k].key, fs[i].key)
    ensures IsChild(fs[j].key, fs[i].key)
  {
    Between(fs[i].key, fs[j].key, fs[k].key.net);
  }

  // ---- The program

  class INtbl {
    const root: AVLtree
    var rtes: map<AVLitem, INrte>   // an item is part of its entry
    ghost var entries: seq<INrte>   // the entries in the order of the tree

    constructor ()
      ensures Valid() && entries == [] && fresh(root)
    {
      root := new AVLtree();
      rtes, entries := map[], [];
    }

    // The items of the tree are those of the entries.
    ghost predicate Held()
      reads this, root`contents
    {
      && |entries| == |root.contents|
      && forall k :: 0 <= k < |entries| ==> ItemIs(k)
    }

    ghost predicate ItemIs(k: nat)
      requires k < |entries| && k < |root.contents|
      reads this, root`contents
    {
      var e := entries[k];
      Normal(e.key) && e.elt == root.contents[k] && e.elt in rtes && rtes[e.elt] == e && e.elt.key == TreeKey(e.key)
    }

    ghost predicate Valid()
      reads this, root, root.items, Shape.Items(root.tree), (set e | e in entries)`prefix
    {
      root.Valid() && Held() && Keyed(entries) && Pointed(entries)
    }

    // An entry, the items and the table are objects of their own.
    lemma Apart(items: set<AVLitem>, t: set<AVLitem>, e: INrte?)
      ensures e as object? != root && forall x :: x in items || x in t ==> x as object != this && x as object != e
    {
    }

    // The entry of an item.
    lemma EntryOf(item: AVLitem, k: nat)
      requires Held() && k < |entries| && root.contents[k] == item
      ensures item in rtes && rtes[item] == entries[k] && Normal(entries[k].key) && item.key == TreeKey(entries[k].key)
    {
      assert ItemIs(k);
    }

    lemma KeyUnique(k: nat, key: Prefix)
      requires Held() && k < |entries| && Normal(key)
      ensures Normal(entries[k].key) && root.contents[k].key == TreeKey(entries[k].key)
      ensures root.contents[k].key == TreeKey(key) <==> entries[k].key == key
    {
      assert ItemIs(k);
      TreeOrder(entries[k].key, key);
      TreeOrder(key, entries[k].key);
      LessTotal(entries[k].key, key);
    }

    // The entry with a key, if there is one.
    method Find(key: Prefix) returns (rte: INrte?)
      requires Valid() && Normal(key)
      ensures rte == null ==> forall e :: e in entries ==> e.key != key
      ensures rte != null ==> rte in entries && rte.key == key
    {
      hide And, AVLtree.Linked, AVLtree.Valid, ItemIs, Keyed, Mask, Nearest, Normal, Pointed, Pow2, Shape.Inorder,
           TreeKey;
      ListFacts(root);
      TreeLinked(root);
      var item := root.Find(TreeKey(key));
      forall k | 0 <= k < |entries|
        ensures root.contents[k].key == TreeKey(key) <==> entries[k].key == key
      {
        KeyUnique(k, key);
      }
      if item == null {
        return null;
      }
      ghost var k :| 0 <= k < |root.contents| && root.contents[k] == item;
      EntryOf(item, k);
      return rtes[item];
    }

    // The nearest enclosing entry, found by climbing from the previous entry.
    method FindPrefix(rte: INrte, ghost es: seq<INrte>, parent0: INrte?) returns (parent: INrte?)
      requires Keyed(es) && Pointed(es) && rte !in es && Normal(rte.key)
      requires forall e :: e in es ==> e.key != rte.key
      requires parent0 == null || parent0 in es
      requires forall o :: o in es && Encloses(o, rte) ==> Reaches(es, parent0, o)
      ensures Nearest(es, rte, parent) && (parent == null || parent in es)
    {
      parent := parent0;
      while parent != null && !IsChild(rte.key, parent.key)
        invariant parent == null || parent in es
        invariant forall o :: o in es && Encloses(o, rte) ==> Reaches(es, parent, o)
        decreases if parent == null then 0 else Below(es, parent.key) + 1
      {
        hide Below;
        if parent.prefix != null {
          UpIsEarlier(es, parent);
        }
        forall o | o in es && Encloses(o, rte)
          ensures Reaches(es, parent.prefix, o)
        {
          StepReaches(es, parent, o);
        }
        parent := parent.prefix;
      }
    }

    // The walk that started at position start has come to position k: entries behind it, but for the new one, have
    // their new pointers, and the others still have the old ones. The new one is met only if it is alone.
    ghost predicate Walked(rte: INrte, es: seq<INrte>, i: nat, start: nat, k: nat, was: INrte?)
      reads `entries, (set e | e in entries)`prefix
    {
      && start <= k <= |entries| && (k > start ==> start == i + 1 || es == [])
      && (rte in entries ==> rte.prefix == if start == i && k > start then rte else was)
      && (forall j :: start <= j < k && j != i ==> Nearest(entries, entries[j], entries[j].prefix))
      && forall j :: 0 <= j < |entries| && j != i && !(start <= j < k) ==> Nearest(es, entries[j], entries[j].prefix)
    }

    // One round: an entry under the new one that has no nearer one now points to it.
    method Adopt(rte: INrte, child: INrte, ghost es: seq<INrte>, ghost i: nat, ghost start: nat, ghost k: nat,
            ghost was: INrte?)
      requires Grown(es, i, rte, entries) && Keyed(entries) && rte !in es && (es == [] ==> was == null)
      requires Walked(rte, es, i, start, k, was) && start in {i + 1, 0} && k < |entries| && entries[k] == child
      requires IsChild(child.key, rte.key) && (start == 0 ==> rte.key == HOST_LAST)
      modifies child`prefix
      ensures Walked(rte, es, i, start, k + 1, was)
    {
      hide And, Grown, IsChild, Keyed, Less, Mask, Nearest, Normal, Pow2;
      AllOld(es, i, rte, entries);
      NoneAfterLast(entries, i);
      if k != i {
        ChildPointer(es, entries, rte, child, child.prefix);
      }
      if child.prefix != null && IsChild(child.prefix.key, rte.key) {
        return;
      }
      child.prefix := rte;
    }

    lemma ApartFrom(iter: AVLsearch, items: set<AVLitem>, t: set<AVLitem>)
      ensures iter as object != this && iter as object != root
      ensures forall e: INrte :: e in entries ==> e as object != iter
      ensures forall x :: x in items || x in t ==> x as object != iter
    {
    }

    // Entries under the new one that had no nearer one now point to it. The iterator, which is older than the entry,
    // is sent to it: the walk starts with the next entry, but at the head of the list when there can be no key after
    // it. There it meets the new entry itself, if that is the only one.
    method SetChildren(rte: INrte, iter: AVLsearch, ghost es: seq<INrte>, ghost i: nat, ghost lag: nat)
      requires root.Valid() && Held() && iter.tree == root
      requires root.instance == Word(iter.instance + lag) && lag < 0x1_0000_0000
      requires Grown(es, i, rte, entries) && Keyed(entries) && rte !in es && (es == [] ==> rte.prefix == null)
      requires forall e :: e in es ==> Nearest(es, e, e.prefix)
      modifies iter`instance, iter`place, iter`current, iter`bound, (set e | e in entries)`prefix
      ensures root.Valid() && Held()
      ensures forall e :: e in es ==> Nearest(entries, e, e.prefix)
      ensures rte.prefix == if es == [] && rte.key == HOST_LAST then rte else old(rte.prefix)
    {
      hide And, AVLsearch.InStep, AVLtree.Linked, AVLtree.Valid, Grown, Held, IsChild, Keyed, Less, Mask, Nearest;
      hide Normal, Pow2, Shape.Inorder, TreeKey, Walked;
      ghost var was := rte.prefix;
      ghost var start := StartOfWalk(rte, es, i);
      ghost var k := start;
      ApartFrom(iter, root.items, Shape.Items(root.tree));
      var item := iter.SeekNext(TreeKey(rte.key), lag);
      while item != null
        invariant root.Valid() && Held() && item == At(root.contents, k)
        invariant item != null ==> iter.InStep(0) && iter.bound == item.key
        invariant Walked(rte, es, i, start, k, was)
        decreases |entries| - k
      {
        AtItem(item, k);
        var child := rtes[item];
        if !IsChild(child.key, rte.key) {
          break;
        }
        Shape.ItemsAllocated(root.tree);
        Apart(root.items, Shape.Items(root.tree), child);
        Adopt(rte, child, es, i, start, k, was);
        item := iter.Next(0);
        k := k + 1;
      }
      EndOfWalk(rte, es, i, start, k, was, item);
    }

    lemma AtItem(item: AVLitem, k: nat)
      requires root.Valid() && Held() && item == At(root.contents, k)
      ensures k < |entries| && item in rtes && rtes[item] == entries[k] && entries[k] in entries
      ensures FirstAfter(root.contents, item.key) == At(root.contents, k + 1)
    {
      hide AVLtree.Valid, FirstAfter;
      ListFacts(root);
      EntryOf(item, k);
      Following(root.contents, k);
    }

    lemma StartOfWalk(rte: INrte, es: seq<INrte>, i: nat) returns (start: nat)
      requires root.Valid() && Held() && Grown(es, i, rte, entries) && Keyed(entries) && rte !in es
      requires forall e :: e in es ==> Nearest(es, e, e.prefix)
      ensures start in {i + 1, 0} && (start == 0 <==> rte.key == HOST_LAST) && Normal(rte.key)
      ensures Walked(rte, es, i, start, start, rte.prefix)
      ensures At(root.contents, start) ==
              if TreeKey(rte.key) == MAX_KEY then At(root.contents, 0)
              else FirstAfter(root.contents, TreeKey(rte.key))
    {
      hide And, AVLtree.Valid, FirstAfter, Grown, Keyed, Less, Mask, Nearest, Normal, Pow2, TreeKey;
      AllOld(es, i, rte, entries);
      KeyIsNormal(entries, rte);
      TreeOrder(rte.key, rte.key);
      KeyUnique(i, rte.key);
      ListFacts(root);
      SeekStarts(root.contents, i);
      start := StartAfter(TreeKey(rte.key), i);
    }

    lemma EndOfWalk(rte: INrte, es: seq<INrte>, i: nat, start: nat, k: nat, was: INrte?, item: AVLitem?)
      requires Held() && Grown(es, i, rte, entries) && Keyed(entries) && rte !in es
      requires start in {i + 1, 0} && (start == 0 <==> rte.key == HOST_LAST) && Walked(rte, es, i, start, k, was)
      requires item == At(root.contents, k) && (item != null ==> k < |entries| && !IsChild(entries[k].key, rte.key))
      ensures forall e :: e in es ==> Nearest(entries, e, e.prefix)
      ensures rte.prefix == if es == [] && rte.key == HOST_LAST then rte else was
    {
      hide And, Grown, IsChild, Keyed, Less, Mask, Nearest, Normal, Pow2;
      AllOld(es, i, rte, entries);
      NoneAfterLast(entries, i);
      RestPointers(es, entries, rte, i, start, k);
      if es == [] && rte.key == HOST_LAST {
        OnlyChild(rte.key);
      }
    }

    // A new entry enters the tree.
    method Enter(rte: INrte, ghost es: seq<INrte>, ghost i: nat)
      requires Valid() && es == entries && i == Below(es, rte.key) && Normal(rte.key)
      requires rte.elt !in root.items && rte.elt.key == TreeKey(rte.key) && forall e :: e in es ==> e.key != rte.key
      requires rte.elt.left == null && rte.elt.right == null && rte.elt.balance == 0
      modifies `rtes, `entries, root, rte.elt, root.items
      ensures root.Valid() && Held() && Keyed(entries) && Grown(es, i, rte, entries) && Pointed(es)
      ensures root.instance == Word(old(root.instance) + 1)
    {
      hide And, At, AVLtree.Linked, AVLtree.Valid, Below, IsChild, Keyed, Less, Mask, Nearest, Normal, Pow2, Rank;
      hide Shape.Inorder, TreeKey;
      Apart(root.items, {rte.elt}, null);
      ListFacts(root);
      ghost var was := root.contents;
      RankBelow(rte.key, i);
      root.Add(rte.elt);
      Apart(root.items, Shape.Items(root.tree), null);
      rtes := rtes[rte.elt := rte];
      entries := es[..i] + [rte] + es[i..];
      forall k | 0 <= k < |entries|
        ensures ItemIs(k)
      {
        assert k != i ==> old(ItemIs(if k < i then k else k - 1));
      }
      GrownKeyed(es, i, rte, entries);
    }

    // The entry before one in the table.
    method EntryBefore(rte: INrte, ghost i: nat) returns (parent: INrte?)
      requires root.Valid() && Held() && i < |entries| && entries[i] == rte && Normal(rte.key)
      ensures parent == if i > 0 then entries[i - 1] else null
    {
      hide And, AVLtree.Linked, AVLtree.Valid, ItemIs, Less, Mask, Normal, Pow2, Shape.Inorder, TreeKey;
      TreeLinked(root);
      ListFacts(root);
      KeyUnique(i, rte.key);
      Place(root.contents, i);
      var item := root.Previous(TreeKey(rte.key));
      if item == null {
        return null;
      }
      EntryOf(item, i - 1);
      return rtes[item];
    }

    // The place of a key in the tree is that in the table.
    lemma RankBelow(key: Prefix, i: nat)
      requires Held() && Keyed(entries) && Normal(key) && i == Below(entries, key)
      ensures Rank(root.contents, TreeKey(key)) == i
      ensures (forall e :: e in entries ==> e.key != key) ==>
                !(i < |root.contents| && root.contents[i].key == TreeKey(key))
    {
      BelowSplits(entries, key);
      forall k | 0 <= k < |entries|
        ensures k < i <==> root.contents[k].key < TreeKey(key)
        ensures root.contents[k].key == TreeKey(key) <==> entries[k].key == key
      {
        KeyUnique(k, key);
        TreeOrder(entries[k].key, key);
      }
      RankIs(root.contents, TreeKey(key), i);
    }

    // The entry for a key, made if there is none. The pointers are right afterwards, unless the very first entry
    // is 255.255.255.255/32: it then points to itself.
    method Add(key: Prefix) returns (rte: INrte)
      requires Valid() && Normal(key)
      modifies this, root, root.items, (set e | e in entries)`prefix
      ensures root.Valid() && Held() && Keyed(entries) && rte in entries && rte.key == key
      ensures if exists e :: e in old(entries) && e.key == key then entries == old(entries) && rte in old(entries)
              else fresh(rte) && !rte.valid && Grown(old(entries), Below(old(entries), key), rte, entries)
      ensures Valid() <==> !(old(entries) == [] && key == HOST_LAST)
      ensures !Valid() ==> rte.prefix == rte
    {
      hide And, AVLtree.Linked, AVLtree.Valid, Below, Grown, IsChild, ItemIs, Keyed, Less, Mask, Nearest, Normal, Pow2;
      hide Shape.Inorder, TreeKey;
      Shape.ItemsAllocated(root.tree);
      var iter := new AVLsearch(root);
      var found := Find(key);
      if found != null {
        return found;
      }
      rte := new INrte(key);
      ghost var es, i := entries, Below(entries, key);
      Enter(rte, es, i);
      AllOld(es, i, rte, entries);
      Shape.ItemsAllocated(root.tree);
      Apart(root.items, Shape.Items(root.tree), rte);
      var parent0 := EntryBefore(rte, i);
      ReachesAll(es, i, rte);
      rte.prefix := FindPrefix(rte, es, parent0);
      OwnPointer(es, entries, rte, rte.prefix);
      SetChildren(rte, iter, es, i, 1);
      if es == [] && key == HOST_LAST {
        NotItself(entries, rte);
      }
    }

    // The valid entry with the longest mask that matches the address.
    method BestMatch(addr: nat) returns (rte: INrte?)
      requires Valid() && addr < SPACE
      ensures rte == null <==> forall o :: o in entries && o.valid ==> !Matches(o.key, addr)
      ensures rte != null ==> rte in entries && rte.valid && Matches(rte.key, addr)
      ensures rte != null ==> forall o :: o in entries && o.valid && Matches(o.key, addr) ==>
              Mask(o.key) <= Mask(rte.key)
    {
      hide Nearest, IsChild, Below, Less, Matches, Held, AVLtree.Valid;
      rte := Descend(addr);
      while rte != null
        invariant rte == null || rte in entries
        invariant forall o :: o in entries && o.valid && Matches(o.key, addr) ==> Reaches(entries, rte, o)
        decreases if rte == null then 0 else Below(entries, rte.key) + 1
      {
        if Matches(rte.key, addr) && rte.valid {
          ReachedIsLonger(entries, rte);
          return;
        }
        if rte.prefix != null {
          UpIsEarlier(entries, rte);
        }
        forall o | o in entries && o.valid && Matches(o.key, addr)
          ensures Reaches(entries, rte.prefix, o)
        {
          if o.key == rte.key {
            SameKey(entries, o, rte);
          }
          StepReaches(entries, rte, o);
        }
        PrefixKnown(entries, rte);
        rte := rte.prefix;
      }
    }

    // Down the tree, to the last entry that does not come after the address.
    method Descend(addr: nat) returns (rte: INrte?)
      requires Valid() && addr < SPACE
      ensures rte == null || rte in entries
      ensures forall o :: o in entries && Matches(o.key, addr) ==> Reaches(entries, rte, o)
    {
      hide And, AVLtree.Linked, AVLtree.Valid, IsChild, ItemIs, Keyed, Less, Matches, Nearest, Normal, Pointed, Pow2;
      hide At, FirstAfter, Mask, Shape.Inorder;
      ListFacts(root);
      TreeLinked(root);
      var p, prev: INrte? := root.root, null;
      ghost var t, n, m := root.tree, 0, |entries|;  // the subtree at p has the items from n up to m
      while p != null
        invariant p == Shape.Root(t) && Shape.Repr(t) && n <= m <= |entries| && Shape.Inorder(t) == root.contents[n..m]
        invariant prev == if n == 0 then null else entries[n - 1]
        invariant n > 0 ==> entries[n - 1].key.net <= addr
        invariant m < |entries| ==> addr < entries[m].key.net
        decreases t
      {
        ghost var k := Middle(t, root.contents, n, m);
        EntryOf(p, k);
        var e := rtes[p];
        if addr < e.key.net {
          p := p.left;
          t, m := t.l, k;
        } else if addr > e.key.net || LAST > Mask(e.key) {
          prev := e;
          p := p.right;
          t, n := t.r, k + 1;
        } else {
          LastEntry(entries, k + 1, addr);
          return e;
        }
      }
      LeafIsEmpty(t);
      LastEntry(entries, n, addr);
      return prev;
    }
  }

  lemma Place(s: seq<AVLitem>, i: nat)
    requires Shape.Sorted(s) && i < |s|
    ensures Rank(s, s[i].key) == i
  {
    RankIs(s, s[i].key, i);
  }

  // Where the item at the root of a tree is in the list, and its subtrees.
  lemma Middle(t: Shape.Tree, s: seq<AVLitem>, n: nat, m: nat) returns (k: nat)
    requires n <= m <= |s| && Shape.Inorder(t) == s[n..m] && t.Node?
    ensures n <= k < m && s[k] == t.item && Shape.Inorder(t.l) == s[n..k] && Shape.Inorder(t.r) == s[k + 1..m]
  {
    k := n + |Shape.Inorder(t.l)|;
    var q := Shape.Inorder(t.l) + [t.item] + Shape.Inorder(t.r);
    assert q[..k - n] == s[n..k] && q[k - n] == s[k] && q[k - n + 1..] == s[k + 1..m];
  }

  lemma LeafIsEmpty(t: Shape.Tree)
    requires Shape.Root(t) == null
    ensures Shape.Inorder(t) == []
  {
  }

  // The last of the entries before the address, when the next one is after it or the last is its host route.
  lemma LastEntry(es: seq<INrte>, i: nat, addr: nat)
    requires Keyed(es) && i <= |es| && addr < SPACE && (i > 0 ==> es[i - 1].key.net <= addr)
    requires i == |es| || addr < es[i].key.net || (i > 0 && es[i - 1].key.net == addr && Mask(es[i - 1].key) >= LAST)
    ensures forall o :: o in es && Matches(o.key, addr) ==> Reaches(es, if i == 0 then null else es[i - 1], o)
  {
    forall o | o in es && Matches(o.key, addr)
      ensures Reaches(es, if i == 0 then null else es[i - 1], o)
    {
      var k :| 0 <= k < |es| && es[k] == o;
      MatchesBelow(o.key, addr);
      if i > 0 {
        MaskOrder(es[i - 1].key, HOST_LAST);
        MaskOrder(o.key, es[i - 1].key);
      }
      InOrder(es, i - 1, k);
      InOrder(es, i, k);
      assert k < i;
      LastReaches(es, i, addr, o);
    }
  }

  lemma InOrder(es: seq<INrte>, i: int, j: int)
    requires Ordered(es)
    ensures 0 <= i < j < |es| ==> Less(es[i].key, es[j].key)
  {
  }

  lemma MatchesBelow(p: Prefix, addr: nat)
    requires Matches(p, addr)
    ensures p.net <= addr
  {
  }

  // Whatever encloses a new entry can be reached from the entry before it.
  lemma ReachesAll(es: seq<INrte>, i: nat, rte: INrte)
    requires Keyed(es) && i == Below(es, rte.key) && Normal(rte.key)
    ensures forall o :: o in es && Encloses(o, rte) ==> Reaches(es, if i > 0 then es[i - 1] else null, o)
  {
    BelowSplits(es, rte.key);
    forall o | o in es && Encloses(o, rte)
      ensures Reaches(es, if i > 0 then es[i - 1] else null, o)
    {
      ChildOrder(rte.key, o.key);
      var k :| 0 <= k < |es| && es[k] == o;
      assert k < i && Less(es[i - 1].key, rte.key);
      LastReaches(es, i, rte.key.net, o);
    }
  }

  lemma OwnPointer(es: seq<INrte>, fs: seq<INrte>, rte: INrte, p: INrte?)
    requires (forall e :: e in fs <==> e == rte || e in es) && Nearest(es, rte, p)
    ensures Nearest(fs, rte, p)
  {
  }

  lemma NotItself(es: seq<INrte>, rte: INrte)
    requires rte in es && rte.prefix == rte
    ensures !Pointed(es)
  {
    assert !Nearest(es, rte, rte);
  }

  lemma PrefixKnown(es: seq<INrte>, e: INrte)
    requires Pointed(es) && e in es
    ensures e.prefix == null || e.prefix in es
  {
  }

  lemma ReachedIsLonger(es: seq<INrte>, p: INrte)
    ensures forall o :: Reaches(es, p, o) ==> Mask(o.key) <= Mask(p.key)
  {
  }

  lemma KeyIsNormal(es: seq<INrte>, e: INrte)
    requires Keyed(es) && e in es
    ensures Normal(e.key)
  {
  }

  lemma AllOld(es: seq<INrte>, i: nat, rte: INrte, fs: seq<INrte>)
    requires Grown(es, i, rte, fs) && Keyed(fs) && rte !in es
    ensures i < |fs| && fs[i] == rte && |fs| == |es| + 1 && (i > 0 ==> fs[i - 1] == es[i - 1])
    ensures forall e :: e in fs <==> e == rte || e in es
    ensures forall j, k :: 0 <= j < k < |fs| ==> fs[j].key != fs[k].key
    ensures forall j :: 0 <= j < |fs| && j != i ==> fs[j] in es && fs[j] != rte
  {
    GrownMembers(es, i, rte, fs);
    forall j, k | 0 <= j < k < |fs|
      ensures fs[j].key != fs[k].key
    {
      LessTotal(fs[j].key, fs[k].key);
    }
  }

  // After the walk, which stopped at k, the entries outside it are not under the new one.
  lemma RestPointers(es: seq<INrte>, fs: seq<INrte>, rte: INrte, i: nat, start: nat, k: nat)
    requires Grown(es, i, rte, fs) && Keyed(fs) && rte !in es && start <= k <= |fs|
    requires start == if rte.key == HOST_LAST then 0 else i + 1
    requires k < |fs| ==> !IsChild(fs[k].key, rte.key)
    requires k > start ==> start == i + 1 || es == []
    requires forall j :: start <= j < k && j != i ==> Nearest(fs, fs[j], fs[j].prefix)
    requires forall j :: 0 <= j < |fs| && j != i && !(start <= j < k) ==> Nearest(es, fs[j], fs[j].prefix)
    ensures forall e :: e in es ==> Nearest(fs, e, e.prefix)
  {
    AllOld(es, i, rte, fs);
    NoneAfterLast(fs, i);
    hide Nearest;
    forall e | e in es
      ensures Nearest(fs, e, e.prefix)
    {
      assert e in fs;
      var j :| 0 <= j < |fs| && fs[j] == e;
      if !(start <= j < k) {
        if IsChild(e.key, rte.key) {
          ChildOrder(e.key, rte.key);
          LessTotal(rte.key, e.key);
          if k < j {
            ChildrenTogether(fs, i, k, j);
          }
        }
        OtherPointer(es, fs, rte, e, e.prefix);
      }
    }
  }

  lemma NoneAfterLast(fs: seq<INrte>, i: nat)
    requires Keyed(fs) && i < |fs|
    ensures fs[i].key == HOST_LAST ==> i == |fs| - 1
    ensures forall e :: e in fs && IsChild(e.key, HOST_LAST) ==> e.key == HOST_LAST
  {
    forall e | e in fs && IsChild(e.key, HOST_LAST)
      ensures e.key == HOST_LAST
    {
      MaskOrder(e.key, HOST_LAST);
    }
    if fs[i].key == HOST_LAST && i + 1 < |fs| {
      MaskOrder(HOST_LAST, fs[i + 1].key);
    }
  }
}
