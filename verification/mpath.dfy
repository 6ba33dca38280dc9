// Multipath entries (rte.C): sorted lists of at most MAXPATH next hops.

module MultiPath {
  import opened AvlItems

  const MAXPATH := 4

  datatype NH = NH(if_addr: uns32, phyint: int, gw: uns32)

  predicate Before(a: NH, b: NH) {
    if a.if_addr < b.if_addr then true
    else if a.if_addr > b.if_addr then false
    else if a.phyint < b.phyint then true
    else if a.phyint > b.phyint then false
    else a.gw < b.gw
  }

  ghost predicate Sorted(s: seq<NH>) {
    forall i, j :: 0 <= i < j < |s| ==> Before(s[i], s[j])
  }

  ghost function Set(s: seq<NH>): set<NH> {
    set x | x in s
  }

  // The next hops of both, in order, each once.
  function Union(a: seq<NH>, b: seq<NH>): seq<NH> {
    if a == [] then b
    else if b == [] then a
    else if Before(a[0], b[0]) then [a[0]] + Union(a[1..], b)
    else if Before(b[0], a[0]) then [b[0]] + Union(a, b[1..])
    else Union(a, b[1..])
  }

  function Take(s: seq<NH>): seq<NH> {
    if |s| <= MAXPATH then s else s[..MAXPATH]
  }

  lemma SetCons(s: seq<NH>)
    requires s != []
    ensures Set(s) == {s[0]} + Set(s[1..])
  {
    assert s == [s[0]] + s[1..];
  }

  lemma {:induction false} UnionSet(a: seq<NH>, b: seq<NH>)
    ensures Set(Union(a, b)) == Set(a) + Set(b)
  {
    if a != [] && b != [] {
      SetCons(a);
      SetCons(b);
      if Before(a[0], b[0]) {
        UnionSet(a[1..], b);
        SetCons([a[0]] + Union(a[1..], b));
      } else {
        UnionSet(a, b[1..]);
        SetCons([b[0]] + Union(a, b[1..]));
      }
    }
  }

  // Everything in s comes after x.
  ghost predicate AllAfter(x: NH, s: seq<NH>) {
    forall y :: y in s ==> Before(x, y)
  }

  lemma SortedCons(x: NH, s: seq<NH>)
    requires Sorted(s) && AllAfter(x, s)
    ensures Sorted([x] + s)
  {
    var t := [x] + s;
    forall i, j | 0 <= i < j < |t|
      ensures Before(t[i], t[j])
    {
      assert t[j] == s[j - 1] && s[j - 1] in s;
    }
  }

  lemma {:induction false} UnionSorted(a: seq<NH>, b: seq<NH>)
    requires Sorted(a) && Sorted(b)
    ensures Sorted(Union(a, b))
  {
    if a != [] && b != [] {
      if Before(a[0], b[0]) {
        UnionSorted(a[1..], b);
        UnionSet(a[1..], b);
        assert AllAfter(a[0], Union(a[1..], b)) by {
          forall y | y in Union(a[1..], b)
            ensures Before(a[0], y)
          {
            assert y in Set(a[1..]) + Set(b);
          }
        }
        SortedCons(a[0], Union(a[1..], b));
      } else {
        UnionSorted(a, b[1..]);
        if Before(b[0], a[0]) {
          UnionSet(a, b[1..]);
          assert AllAfter(b[0], Union(a, b[1..])) by {
            forall y | y in Union(a, b[1..])
              ensures Before(b[0], y)
            {
              assert y in Set(a) + Set(b[1..]);
            }
          }
          SortedCons(b[0], Union(a, b[1..]));
        }
      }
    }
  }

  lemma UnionStep(a: seq<NH>, b: seq<NH>, i: nat, j: nat)
    requires i < |a| && j < |b|
    ensures Before(b[j], a[i]) ==> Union(a[i..], b[j..]) == [b[j]] + Union(a[i..], b[j + 1..])
    ensures !Before(a[i], b[j]) && !Before(b[j], a[i]) ==> Union(a[i..], b[j..]) == Union(a[i..], b[j + 1..])
  {
    assert a[i..][1..] == a[i + 1..] && b[j..][1..] == b[j + 1..];
  }

  // What MPath::merge computes; a null entry is the empty list, and a full entry absorbs the other.
  function Merged(a: seq<NH>, b: seq<NH>): seq<NH> {
    if a == [] then b
    else if b == [] then a
    else if |a| == MAXPATH then a
    else if |b| == MAXPATH then b
    else Take(Union(a, b))
  }

  // Merging keeps the order and never exceeds MAXPATH. Nothing is made up, and nothing is lost unless
  // MAXPATH next hops are kept.
  lemma MergedFacts(a: seq<NH>, b: seq<NH>)
    requires Sorted(a) && Sorted(b) && |a| <= MAXPATH && |b| <= MAXPATH
    ensures Sorted(Merged(a, b)) && |Merged(a, b)| <= MAXPATH
    ensures Set(Merged(a, b)) <= Set(a) + Set(b)
    ensures |Merged(a, b)| < MAXPATH ==> Set(Merged(a, b)) == Set(a) + Set(b)
    ensures Merged(a, b) == [] <==> a == [] && b == []
  {
    UnionSet(a, b);
    UnionSorted(a, b);
    if a != [] {
      assert a[0] in Set(a) && a[0] in Union(a, b);
    }
  }

  // ---- What is lost, and when the order of merging matters

  lemma {:induction false} SortedSize(s: seq<NH>)
    requires Sorted(s)
    ensures |Set(s)| == |s|
  {
    if s != [] {
      SortedSize(s[1..]);
      SetCons(s);
    }
  }

  lemma AllOfIt(a: set<NH>, b: set<NH>)
    requires a <= b && |b| <= |a|
    ensures a == b
  {
    assert b == a + (b - a);
  }

  // A merge loses nothing if and only if the next hops of both fit one entry.
  lemma NothingLost(a: seq<NH>, b: seq<NH>)
    requires Sorted(a) && Sorted(b) && |a| <= MAXPATH && |b| <= MAXPATH
    ensures Set(Merged(a, b)) == Set(a) + Set(b) <==> |Set(a) + Set(b)| <= MAXPATH
  {
    hide Merged;
    MergedFacts(a, b);
    SortedSize(Merged(a, b));
    if |Set(a) + Set(b)| <= MAXPATH && |Merged(a, b)| == MAXPATH {
      AllOfIt(Set(Merged(a, b)), Set(a) + Set(b));
    }
  }

  // There is one sorted list of given next hops.
  lemma {:induction false} SortedUnique(s: seq<NH>, t: seq<NH>)
    requires Sorted(s) && Sorted(t) && Set(s) == Set(t)
    ensures s == t
  {
    if s == [] {
      SortedSize(t);
    } else {
      assert s[0] in Set(s) && t != [];
      assert t[0] in Set(t) && s[0] == t[0];
      TailSet(s);
      TailSet(t);
      SortedUnique(s[1..], t[1..]);
    }
  }

  lemma TailSet(s: seq<NH>)
    requires s != [] && Sorted(s)
    ensures Set(s[1..]) == Set(s) - {s[0]}
  {
    SetCons(s);
  }

  // Which entry comes first makes a difference only between two full ones.
  lemma Commutes(a: seq<NH>, b: seq<NH>)
    requires Sorted(a) && Sorted(b) && |a| <= MAXPATH && |b| <= MAXPATH
    ensures Merged(a, b) == Merged(b, a) <==> a == b || |a| < MAXPATH || |b| < MAXPATH
  {
    hide Union;
    UnionSet(a, b);
    UnionSet(b, a);
    UnionSorted(a, b);
    UnionSorted(b, a);
    SortedUnique(Union(a, b), Union(b, a));
  }

  // Entries merged one after the other, as the links of shortest paths are.
  function MergedAll(es: seq<seq<NH>>): seq<NH> {
    if es == [] then [] else Merged(MergedAll(es[..|es| - 1]), es[|es| - 1])
  }

  ghost predicate Entries(es: seq<seq<NH>>) {
    forall e :: e in es ==> Sorted(e) && |e| <= MAXPATH
  }

  ghost function Hops(es: seq<seq<NH>>): set<NH> {
    if es == [] then {} else Hops(es[..|es| - 1]) + Set(es[|es| - 1])
  }

  // All of them keep all their next hops if and only if these fit one entry.
  lemma {:induction false} NoneLost(es: seq<seq<NH>>)
    requires Entries(es)
    ensures Sorted(MergedAll(es)) && |MergedAll(es)| <= MAXPATH && Set(MergedAll(es)) <= Hops(es)
    ensures Set(MergedAll(es)) == Hops(es) <==> |Hops(es)| <= MAXPATH
  {
    hide Merged;
    if es != [] {
      var m, e := MergedAll(es[..|es| - 1]), es[|es| - 1];
      NoneLost(es[..|es| - 1]);
      MergedFacts(m, e);
      NothingLost(m, e);
      SortedSize(MergedAll(es));
      if |Hops(es)| <= MAXPATH {
        Fewer(Hops(es[..|es| - 1]), Hops(es));
      }
    }
  }

  lemma Fewer(a: set<NH>, b: set<NH>)
    requires a <= b
    ensures |a| <= |b|
  {
    assert b == a + (b - a);
  }

  // If they fit, they may be merged in any order.
  lemma AnyOrderIfFits(es: seq<seq<NH>>, fs: seq<seq<NH>>)
    requires Entries(es) && Entries(fs)
    requires Hops(es) == Hops(fs) && |Hops(es)| <= MAXPATH
    ensures MergedAll(es) == MergedAll(fs)
  {
    NoneLost(es);
    NoneLost(fs);
    SortedUnique(MergedAll(es), MergedAll(fs));
  }

  // ---- If they do not fit, the order matters

  lemma {:induction false} FullAbsorbs(e: seq<NH>, es: seq<seq<NH>>)
    requires |e| == MAXPATH
    ensures MergedAll([e] + es) == e && Hops([e] + es) == Set(e) + Hops(es)
  {
    if es == [] {
      assert ([e] + es)[..0] == [] && [e] + es == [e];
    } else {
      FullAbsorbs(e, es[..|es| - 1]);
      assert ([e] + es)[..|es|] == [e] + es[..|es| - 1];
    }
  }

  lemma Inserted(s: seq<NH>, x: NH) returns (t: seq<NH>)
    requires Sorted(s) && x !in s
    ensures Sorted(t) && Set(t) == Set(s) + {x}
  {
    UnionSet(s, [x]);
    UnionSorted(s, [x]);
    t := Union(s, [x]);
  }

  // Any next hops can be listed in order.
  lemma {:induction false} Listed(h: set<NH>) returns (s: seq<NH>)
    ensures Sorted(s) && Set(s) == h && |s| == |h|
  {
    s := [];
    if h != {} {
      var x :| x in h;
      var r := Listed(h - {x});
      assert x !in Set(r);
      s := Inserted(r, x);
    }
    SortedSize(s);
  }

  function Singles(s: seq<NH>): seq<seq<NH>> {
    if s == [] then [] else Singles(s[..|s| - 1]) + [[s[|s| - 1]]]
  }

  lemma {:induction false} SinglesAre(s: seq<NH>)
    ensures Entries(Singles(s)) && Hops(Singles(s)) == Set(s)
  {
    if s != [] {
      SinglesAre(s[..|s| - 1]);
      assert Singles(s)[..|Singles(s)| - 1] == Singles(s[..|s| - 1]);
      assert s == s[..|s| - 1] + [s[|s| - 1]];
    }
  }

  // The same entries in two orders give the same result, if their next hops are these.
  ghost predicate Agree(es: seq<seq<NH>>, fs: seq<seq<NH>>, h: set<NH>) {
    Entries(es) && Hops(es) == h && Hops(fs) == h && multiset(es) == multiset(fs) ==> MergedAll(es) == MergedAll(fs)
  }

  // The outcome is the same for all orders if and only if the next hops fit one entry.
  lemma OrderFree(h: set<NH>)
    ensures |h| <= MAXPATH <==> forall es: seq<seq<NH>>, fs: seq<seq<NH>> :: Agree(es, fs, h)
  {
    if |h| <= MAXPATH {
      forall es: seq<seq<NH>>, fs: seq<seq<NH>>
        ensures Agree(es, fs, h)
      {
        if Entries(es) && Hops(es) == h && Hops(fs) == h && multiset(es) == multiset(fs) {
          SameEntries(es, fs);
          AnyOrderIfFits(es, fs);
        }
      }
    } else {
      var es, fs := TwoOrders(h);
      assert !Agree(es, fs, h);
    }
  }

  lemma SameEntries(es: seq<seq<NH>>, fs: seq<seq<NH>>)
    requires Entries(es) && multiset(es) == multiset(fs)
    ensures Entries(fs)
  {
    forall e | e in fs
      ensures e in es
    {
      assert e in multiset(fs);
    }
  }

  // Two full entries, of which the first absorbs everything.
  lemma TwoOrders(h: set<NH>) returns (es: seq<seq<NH>>, fs: seq<seq<NH>>)
    requires |h| > MAXPATH
    ensures Entries(es) && Hops(es) == h && Hops(fs) == h && multiset(es) == multiset(fs)
    ensures MergedAll(es) != MergedAll(fs)
  {
    hide Hops, Merged, MergedAll, Singles;
    var s := Listed(h);
    var a, b, rest := s[..MAXPATH], s[1..MAXPATH + 1], Singles(s);
    SinglesAre(s);
    FullAbsorbs(b, rest);
    FullAbsorbs(a, [b] + rest);
    FullAbsorbs(a, rest);
    FullAbsorbs(b, [a] + rest);
    es, fs := [a] + ([b] + rest), [b] + ([a] + rest);
    assert Set(a) <= h && Set(b) <= h;
    assert a[0] == s[0] && b[0] == s[1] && Before(s[0], s[1]);
  }

  // ---- The program

  method Merge(mp1: seq<NH>, mp2: seq<NH>) returns (out: seq<NH>)
    requires |mp1| <= MAXPATH && |mp2| <= MAXPATH
    ensures out == Merged(mp1, mp2)
  {
    hide Before;
    if |mp1| == 0 {
      return mp2;
    } else if |mp2| == 0 {
      return mp1;
    } else if |mp1| == MAXPATH {
      return mp1;
    } else if |mp2| == MAXPATH {
      return mp2;
    }
    var paths := new NH[MAXPATH](_ => NH(0, 0, 0));
    var n: nat, i: nat, j: nat := 0, 0, 0;
    assert mp1[0..] == mp1 && mp2[0..] == mp2 && paths[..0] + Union(mp1, mp2) == Union(mp1, mp2);
    while i < |mp1| && n < MAXPATH
      invariant i <= |mp1| && j <= |mp2| && n <= MAXPATH
      invariant n == MAXPATH ==> Merged(mp1, mp2) == paths[..n]
      invariant n < MAXPATH ==> Union(mp1, mp2) == paths[..n] + Union(mp1[i..], mp2[j..])
    {
      n, j := MergeBelow(mp1, mp2, paths, n, i, j);
      if n < MAXPATH {
        EmitFirst(mp1, mp2, i, j);
        n := Put(paths, n, mp1[i], Union(mp1[i + 1..], mp2[j..]));
      }
      i := i + 1;
    }
    n := MergeRest(mp1, mp2, paths, n, j);
    out := paths[..n];
  }

  method MergeRest(mp1: seq<NH>, mp2: seq<NH>, paths: array<NH>, n0: nat, j0: nat) returns (n: nat)
    requires paths.Length == MAXPATH && n0 <= MAXPATH && j0 <= |mp2|
    requires mp1 != [] && mp2 != [] && |mp1| < MAXPATH && |mp2| < MAXPATH
    requires n0 == MAXPATH ==> Merged(mp1, mp2) == paths[..n0]
    requires n0 < MAXPATH ==> Union(mp1, mp2) == paths[..n0] + mp2[j0..]
    modifies paths
    ensures n <= MAXPATH && paths[..n] == Merged(mp1, mp2)
  {
    hide Union;
    n := n0;
    var j := j0;
    while j < |mp2| && n < MAXPATH
      invariant j <= |mp2| && n <= MAXPATH
      invariant n == MAXPATH ==> Merged(mp1, mp2) == paths[..n]
      invariant n < MAXPATH ==> Union(mp1, mp2) == paths[..n] + mp2[j..]
    {
      assert mp2[j..] == [mp2[j]] + mp2[j + 1..];
      n := Put(paths, n, mp2[j], mp2[j + 1..]);
      j := j + 1;
    }
  }

  // Copies the next hops of mp2 that come before mp1[i], and skips one that equals it.
  method MergeBelow(mp1: seq<NH>, mp2: seq<NH>, paths: array<NH>, n0: nat, i: nat, j0: nat) returns (n: nat, j: nat)
    requires paths.Length == MAXPATH && n0 < MAXPATH && i < |mp1| && j0 <= |mp2|
    requires mp1 != [] && mp2 != [] && |mp1| < MAXPATH && |mp2| < MAXPATH
    requires Union(mp1, mp2) == paths[..n0] + Union(mp1[i..], mp2[j0..])
    modifies paths
    ensures j <= |mp2| && n <= MAXPATH
    ensures n == MAXPATH ==> Merged(mp1, mp2) == paths[..n]
    ensures n < MAXPATH ==> Union(mp1, mp2) == paths[..n] + Union(mp1[i..], mp2[j..])
    ensures n < MAXPATH && j < |mp2| ==> Before(mp1[i], mp2[j])
  {
    n, j := n0, j0;
    while j < |mp2| && n < MAXPATH
      invariant j <= |mp2| && n <= MAXPATH
      invariant n == MAXPATH ==> Merged(mp1, mp2) == paths[..n]
      invariant n < MAXPATH ==> Union(mp1, mp2) == paths[..n] + Union(mp1[i..], mp2[j..])
    {
      UnionStep(mp1, mp2, i, j);
      if Before(mp1[i], mp2[j]) {
        break;
      } else if Before(mp2[j], mp1[i]) {
        n := Put(paths, n, mp2[j], Union(mp1[i..], mp2[j + 1..]));
      }
      j := j + 1;
    }
  }

  method Put(paths: array<NH>, n: nat, x: NH, ghost rest: seq<NH>) returns (m: nat)
    requires paths.Length == MAXPATH && n < MAXPATH
    modifies paths
    ensures m == n + 1 && paths[..m] == old(paths[..n]) + [x]
    ensures m == MAXPATH ==> Take(paths[..m] + rest) == paths[..m]
    ensures paths[..m] + rest == old(paths[..n]) + ([x] + rest)
  {
    ghost var out := paths[..n];
    paths[n] := x;
    m := n + 1;
    assert paths[..m] == out + [x];
  }

  lemma EmitFirst(a: seq<NH>, b: seq<NH>, i: nat, j: nat)
    requires i < |a| && j <= |b| && (j < |b| ==> Before(a[i], b[j]))
    ensures Union(a[i..], b[j..]) == [a[i]] + Union(a[i + 1..], b[j..])
  {
    assert a[i..] == [a[i]] + a[i + 1..];
    if j < |b| {
      assert a[i..][1..] == a[i + 1..];
    }
  }
}
