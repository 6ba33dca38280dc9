// The lists of LSAs (lsalist.h, lsalist.C): singly linked, with a tail pointer and a size.

module LsaLists {
  import opened Retransmission

  class LsaListElement {
    var next: LsaListElement?
    const lsap: Lsa

    constructor (lsap: Lsa)
      ensures this.lsap == lsap && next == null
    {
      this.lsap, next := lsap, null;
    }
  }

  function Vals(es: seq<LsaListElement>): (q: seq<Lsa>)
    ensures |q| == |es| && forall i :: 0 <= i < |es| ==> q[i] == es[i].lsap
  {
    seq(|es|, i requires 0 <= i < |es| => es[i].lsap)
  }

  ghost predicate Distinct(es: seq<LsaListElement>) {
    forall i, j :: 0 <= i < j < |es| ==> es[i] != es[j]
  }

  ghost function Follower(es: seq<LsaListElement>, i: nat): LsaListElement? {
    if i + 1 < |es| then es[i + 1] else null
  }

  ghost predicate Chain(es: seq<LsaListElement>, head: LsaListElement?, tail: LsaListElement?)
    reads set e | e in es
  {
    && Distinct(es)
    && head == (if es == [] then null else es[0]) && tail == (if es == [] then null else es[|es| - 1])
    && forall i :: 0 <= i < |es| ==> es[i].next == Follower(es, i)
  }

  ghost function Cut(es: seq<LsaListElement>, k: nat): seq<LsaListElement>
    requires k < |es|
  {
    es[..k] + es[k + 1..]
  }

  lemma CutChain(es: seq<LsaListElement>, k: nat, rest: seq<LsaListElement>)
    requires k < |es| && Distinct(es) && rest == Cut(es, k)
    ensures Distinct(rest)
    ensures forall i :: 0 <= i < |rest| ==>
              && rest[i] == es[if i < k then i else i + 1] && (k > 0 ==> (rest[i] == es[k - 1] <==> i + 1 == k))
              && Follower(rest, i) == if i + 1 == k then Follower(es, k) else Follower(es, if i < k then i else i + 1)
    ensures (if rest == [] then null else rest[0]) == if k == 0 then Follower(es, 0) else es[0]
    ensures (if rest == [] then null else rest[|rest| - 1]) ==
            if k == |es| - 1 then (if k == 0 then null else es[k - 1]) else es[|es| - 1]
    ensures es[|es| - 1] == es[k] <==> k == |es| - 1
  {
  }

  lemma ValsOfParts(a: seq<LsaListElement>, b: seq<LsaListElement>)
    ensures Vals(a + b) == Vals(a) + Vals(b)
  {
  }

  lemma ValsOfOne()
    ensures forall e :: Vals([e]) == [e.lsap]
  {
  }

  lemma FollowerOfOne(e: LsaListElement)
    ensures Follower([e], 0) == null
  {
  }

  lemma CutVals(es: seq<LsaListElement>, k: nat)
    requires k < |es|
    ensures Vals(Cut(es, k)) == Vals(es)[..k] + Vals(es)[k + 1..] && |Cut(es, k)| == |es| - 1
  {
    var q, v := Cut(es, k), Vals(es);
    forall i | 0 <= i < |q|
      ensures Vals(q)[i] == (v[..k] + v[k + 1..])[i]
    {
      assert q[i] == es[if i < k then i else i + 1];
    }
  }

  lemma JoinChain(a: seq<LsaListElement>, b: seq<LsaListElement>)
    requires Distinct(a) && Distinct(b) && forall e :: e in a ==> e !in b
    ensures Distinct(a + b)
    ensures forall i :: 0 <= i < |a| + |b| ==> (a + b)[i] == if i < |a| then a[i] else b[i - |a|]
    ensures forall i :: 0 <= i < |a| + |b| ==>
              Follower(a + b, i) == if i < |a| - 1 then Follower(a, i)
                  else if i == |a| - 1 then (if b == [] then null else b[0])
                                    else Follower(b, i - |a|)
  {
    var ab := a + b;
    forall i | 0 <= i < |a| + |b|
      ensures ab[i] == if i < |a| then a[i] else b[i - |a|]
    {
    }
    forall i, j | 0 <= i < j < |ab|
      ensures ab[i] != ab[j]
    {
      assert i < |a| <= j ==> a[i] in a && b[j - |a|] in b;
    }
  }

  lemma {:induction false} WithoutAt(q: seq<Lsa>, x: Lsa, k: nat)
    requires k < |q| && q[k] == x && x !in q[..k]
    ensures Without(q, x) == q[..k] + q[k + 1..]
  {
    if k > 0 {
      assert q[0] in q[..k];
      assert q[1..][..k - 1] == q[1..k];
      WithoutAt(q[1..], x, k - 1);
      assert q[..k] == [q[0]] + q[1..k] && q[1..][k..] == q[k + 1..];
    }
  }

  lemma {:induction false} WithoutNone(q: seq<Lsa>, x: Lsa)
    requires x !in q
    ensures Without(q, x) == q
  {
    if q != [] {
      WithoutNone(q[1..], x);
    }
  }

  lemma {:induction false} CollectedAppend(q: seq<Lsa>, l: Lsa, db: set<Lsa>)
    ensures Collected(q + [l], db) == Collected(q, db) + if l in db then [l] else []
  {
    if q == [] {
      assert q + [l] == [l];
    } else {
      assert (q + [l])[1..] == q[1..] + [l];
      CollectedAppend(q[1..], l, db);
    }
  }

  lemma ChainHead(es: seq<LsaListElement>, head: LsaListElement?, tail: LsaListElement?)
    requires Chain(es, head, tail)
    ensures head == (if es == [] then null else es[0]) && (es == [] ==> Vals(es) == [])
  {
  }

  lemma ChainNext(es: seq<LsaListElement>, head: LsaListElement?, tail: LsaListElement?, k: nat)
    requires Chain(es, head, tail) && k < |es|
    ensures es[k].next == Follower(es, k)
  {
  }

  lemma CollectedNext(es: seq<LsaListElement>, q: seq<Lsa>, seen: nat, ep: LsaListElement, db: set<Lsa>)
    requires q == Vals(es) && seen < |es| && es[seen..] != [] && (es[seen..][0] == ep || es[seen] == ep)
    ensures Collected(q[..seen + 1], db) == Collected(q[..seen], db) + if ep.lsap in db then [ep.lsap] else []
  {
    assert q[..seen + 1] == q[..seen] + [ep.lsap];
    CollectedAppend(q[..seen], ep.lsap, db);
  }

  lemma KeepFirst(es: seq<LsaListElement>, was: seq<LsaListElement>, k: nat, seen: nat)
    requires k < |es| && seen < |was| && es[k..] == was[seen..]
    ensures es[k + 1..] == was[seen + 1..] && Vals(es)[..k + 1] == Vals(es)[..k] + [es[k].lsap] && es[k] == was[seen]
  {
    assert es[k + 1..] == es[k..][1..] && was[seen + 1..] == was[seen..][1..];
  }

  lemma CutFirst(es: seq<LsaListElement>, was: seq<LsaListElement>, k: nat, seen: nat)
    requires k < |es| && seen < |was| && es[k..] == was[seen..]
    ensures Cut(es, k)[k..] == was[seen + 1..] && Vals(Cut(es, k))[..k] == Vals(es)[..k]
            && Follower(es, k) == Follower(was, seen)
    ensures Follower(es, k) == if k < |Cut(es, k)| then Cut(es, k)[k] else null
    ensures es[k] == was[seen] && (forall e :: e in Cut(es, k) ==> e in es)
            && (k > 0 ==> Cut(es, k)[k - 1] == es[k - 1])
  {
    assert es[k + 1..] == es[k..][1..] && was[seen + 1..] == was[seen..][1..];
  }

  class LsaList {
    var head: LsaListElement?
    var tail: LsaListElement?
    var size: int
    ghost var es: seq<LsaListElement>

    ghost predicate Valid()
      reads this, set e | e in es
    {
      Chain(es, head, tail) && size == |es|
    }

    ghost function Items(): seq<Lsa>
      reads `es
    {
      Vals(es)
    }

    constructor ()
      ensures Valid() && Items() == [] && es == []
    {
      head, tail, size, es := null, null, 0, [];
    }

    method AddEntry(lsap: Lsa)
      requires Valid()
      modifies this, set e | e in es
      ensures Valid() && Items() == old(Items()) + [lsap]
      ensures forall e :: e in es ==> e in old(es) || fresh(e)
    {
      hide Chain, Vals;
      ValsOfOne();
      var ep := new LsaListElement(lsap);
      Attach(ep, es);
      size := size + 1;
      ValsOfParts(es, [ep]);
      es := es + [ep];
    }

    method Attach(ep: LsaListElement, ghost a: seq<LsaListElement>)
      requires Chain(a, head, tail) && ep !in a && ep.next == null
      modifies `head, `tail, set e | e in a
      ensures Chain(a + [ep], head, tail)
    {
      hide Follower;
      JoinChain(a, [ep]);
      FollowerOfOne(ep);
      if head == null {
        head := ep;
        tail := ep;
      } else {
        tail.next := ep;
        tail := ep;
      }
    }

    method FirstEntry() returns (l: Lsa?)
      requires Valid()
      ensures if Items() == [] then l == null else l == Items()[0]
    {
      l := if head != null then head.lsap else null;
    }

    // Takes the k-th element out.
    method Unlink(ep: LsaListElement, prev: LsaListElement?, ghost k: nat)
      requires Valid() && k < |es| && ep == es[k] && prev == if k == 0 then null else es[k - 1]
      modifies this, set e | e in es
      ensures Valid() && es == Cut(old(es), k) && ep.next == old(ep.next)
      ensures Items() == old(Items())[..k] + old(Items())[k + 1..]
    {
      hide Chain;
      ghost var rest := Cut(es, k);
      CutVals(es, k);
      hide Follower, Cut, Distinct, Vals, Chain;
      Rechain(ep, prev, es, k, rest);
      size := size - 1;
      es := rest;
    }

    method Rechain(ep: LsaListElement, prev: LsaListElement?, ghost es: seq<LsaListElement>, ghost k: nat,
            ghost rest: seq<LsaListElement>)
      requires Chain(es, head, tail) && k < |es| && ep == es[k] && prev == (if k == 0 then null else es[k - 1])
               && rest == Cut(es, k)
      modifies `head, `tail, if prev == null then {} else {prev}
      ensures Chain(rest, head, tail) && ep.next == old(ep.next)
    {
      CutChain(es, k, rest);
      var next := ep.next;
      hide Follower, Cut;
      if prev == null {
        head := next;
      } else {
        prev.next := next;
      }
      if tail == ep {
        tail := prev;
      }
    }

    // Removes the first entry for an LSA; says whether there was one.
    method Remove(lsap: Lsa) returns (found: bool)
      requires Valid()
      modifies this, set e | e in es
      ensures Valid() && found == (lsap in old(Items())) && Items() == Without(old(Items()), lsap)
      ensures forall e :: e in es ==> e in old(es)
    {
      hide Chain, Vals, Without;
      var ep, prev;
      ghost var k;
      ep, prev, k := Locate(lsap);
      if ep == null {
        WithoutNone(Items(), lsap);
        return false;
      }
      WithoutAt(Items(), lsap, k);
      Unlink(ep, prev, k);
      return true;
    }

    method Locate(lsap: Lsa) returns (ep: LsaListElement?, prev: LsaListElement?, ghost k: nat)
      requires Valid()
      ensures ep == null ==> lsap !in Items()
      ensures ep != null ==> k < |es| && ep == es[k] && prev == if k == 0 then null else es[k - 1]
      ensures ep != null ==> k < |Items()| && Items()[k] == lsap
      ensures k <= |Items()| && lsap !in Items()[..k]
    {
      hide Chain, Distinct;
      prev, ep, k := null, head, 0;
      ChainHead(es, head, tail);
      while ep != null
        invariant k <= |es| && ep == (if k < |es| then es[k] else null) && prev == if k == 0 then null else es[k - 1]
        invariant lsap !in Items()[..k]
        decreases |es| - k
      {
        if ep.lsap == lsap {
          return;
        }
        assert Items()[..k + 1] == Items()[..k] + [ep.lsap];
        ChainNext(es, head, tail, k);
        prev := ep;
        ep := ep.next;
        k := k + 1;
      }
      assert Items()[..k] == Items();
    }

    method Clear()
      modifies this
      ensures Valid() && Items() == [] && es == []
    {
      head, tail, size, es := null, null, 0, [];
    }

    // Removes the entries for LSAs that left the database; says how many they were.
    method GarbageCollect(db: set<Lsa>) returns (n: int)
      requires Valid()
      modifies this, set e | e in es
      ensures Valid() && Items() == Collected(old(Items()), db) && n == |old(Items())| - |Items()|
      ensures forall e :: e in es ==> e in old(es)
    {
      hide Chain, Vals, Distinct;
      ChainHead(es, head, tail);
      var oldsize := size;
      var prev: LsaListElement?, ep := null, head;
      ghost var was, items := es, Items();
      ghost var k: nat, seen: nat := 0, 0;
      assert Collected(items[..0], db) == [];
      while ep != null
        invariant Collecting(was, items, ep, prev, k, seen, db)
        decreases |was| - seen
      {
        CollectingEnds(was, items, ep, prev, k, seen, db);
        hide Collecting;
        ep, prev, k := CollectOne(was, items, ep, prev, k, seen, db);
        seen := seen + 1;
      }
      assert Items()[..k] == Items() && items[..seen] == items;
      return oldsize - size;
    }

    // The first k elements are what is left of the first elements seen.
    ghost predicate Collecting(was: seq<LsaListElement>, items: seq<Lsa>, ep: LsaListElement?, prev: LsaListElement?,
                               k: nat, seen: nat, db: set<Lsa>)
      reads this, set e | e in es
    {
      && Valid() && items == Vals(was) && seen <= |was| && k <= |es| && |es| - k == |was| - seen
      && ep == (if k < |es| then es[k] else null) && prev == (if k == 0 then null else es[k - 1])
      && es[k..] == was[seen..] && Items()[..k] == Collected(items[..seen], db) && forall e :: e in es ==> e in was
    }

    lemma CollectingEnds(was: seq<LsaListElement>, items: seq<Lsa>, ep: LsaListElement?, prev: LsaListElement?, k: nat,
            seen: nat, db: set<Lsa>)
      requires Collecting(was, items, ep, prev, k, seen, db)
      ensures ep == null <==> seen == |was|
      ensures seen <= |was|
    {
    }

    method CollectOne(ghost was: seq<LsaListElement>, ghost items: seq<Lsa>, ep: LsaListElement, prev: LsaListElement?,
                      ghost k: nat, ghost seen: nat, db: set<Lsa>)
      returns (next: LsaListElement?, prev': LsaListElement?, ghost k': nat)
      requires Collecting(was, items, ep, prev, k, seen, db)
      modifies this, set e | e in es
      ensures Collecting(was, items, next, prev', k', seen + 1, db) && seen < |was|
      ensures forall e :: e in es ==> e in old(es)
    {
      hide Collected, Chain, Cut, Vals, Distinct;
      ChainNext(es, head, tail, k);
      CollectedNext(was, items, seen, ep, db);
      next := ep.next;
      if ep.lsap in db {
        KeepFirst(es, was, k, seen);
        prev', k' := ep, k + 1;
      } else {
        CutFirst(es, was, k, seen);
        Unlink(ep, prev, k);
        prev', k' := prev, k;
      }
    }

    // Moves the entries of another list to the end.
    method Append(olst: LsaList)
      requires Valid() && olst.Valid() && olst != this && forall e :: e in es ==> e !in olst.es
      modifies this, olst, set e | e in es
      ensures Valid() && olst.Valid() && Items() == old(Items()) + old(olst.Items()) && olst.Items() == []
      ensures es == old(es) + old(olst.es)
    {
      hide Follower, Distinct, Vals, Chain;
      ghost var a, b := es, olst.es;
      ChainHead(b, olst.head, olst.tail);
      ValsOfParts(a, b);
      if olst.head == null {
        assert a + b == a;
        return;
      }
      Splice(olst, a, b);
      size := size + olst.size;
      es := a + b;
      olst.Clear();
    }

    // The pointers of the two lists become one chain.
    method Splice(olst: LsaList, ghost a: seq<LsaListElement>, ghost b: seq<LsaListElement>)
      requires Chain(a, head, tail) && Chain(b, olst.head, olst.tail) && b != [] && forall e :: e in a ==> e !in b
      modifies `head, `tail, set e | e in a
      ensures Chain(a + b, head, tail)
    {
      hide Follower;
      ghost var ab := a + b;
      JoinChain(a, b);
      if head == null {
        head := olst.head;
      } else {
        tail.next := olst.head;
      }
      tail := olst.tail;
    }
  }

  // Walks a list; the element it is on may be removed, once, before the walk goes on.
  class LsaListIterator {
    const list: LsaList
    var prev: LsaListElement?
    var current: LsaListElement?

    constructor (list: LsaList)
      ensures this.list == list && current == null && At(0)
    {
      this.list, prev, current := list, null, null;
    }

    // k elements have been passed.
    ghost predicate At(k: nat)
      reads this, list
    {
      k <= |list.es| && current == if k == 0 then null else list.es[k - 1]
    }

    // The iterator is on the k-th element and knows the one before.
    ghost predicate On(k: nat)
      reads this, list
    {
      0 < k && At(k) && prev == if k == 1 then null else list.es[k - 2]
    }

    // The next LSA, or null at the end, where the walk begins anew.
    method GetNext(ghost k: nat) returns (lsap: Lsa?)
      requires list.Valid() && At(k)
      modifies `prev, `current
      ensures k < |list.es| ==> On(k + 1) && lsap == list.Items()[k]
      ensures k == |list.es| ==> lsap == null && At(0)
    {
      hide Chain;
      ChainHead(list.es, list.head, list.tail);
      if k > 0 {
        ChainNext(list.es, list.head, list.tail, k - 1);
      }
      prev := current;
      current := if current != null then current.next else list.head;
      lsap := if current != null then current.lsap else null;
    }

    method RemoveCurrent(ghost k: nat)
      requires list.Valid() && On(k)
      modifies `current, list, set e | e in list.es
      ensures list.Valid() && At(k - 1) && list.Items() == old(list.Items())[..k - 1] + old(list.Items())[k..]
      ensures forall e :: e in list.es ==> e in old(list.es)
    {
      hide Chain, Vals;
      list.Unlink(current, prev, k - 1);
      current := prev;
    }
  }
}
