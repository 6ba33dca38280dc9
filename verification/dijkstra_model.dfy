// The shortest path computation of spfcalc.C on values: what one link does to the search, what
// every step keeps, and what holds when the candidate list is empty.

module ShortestPaths {
  import opened MultiPath

  const RTR := 1  // LST_RTR
  const NET := 2  // LST_NET
  const MAX_COST := 0xffff

  datatype Link =
    | Stub(sl_rte: int, l_fwdcst: nat)   // -1: no routing table entry
    | Transit(tl_nbr: int, l_fwdcst: nat)  // -1: not bidirectional

  // Router-LSAs and network-LSAs; the router's own LSA in each area is a root.
  // hop(v, i, w, m) is the next hops that the i-th link of v gives w: they depend on the interfaces when
  // v is a root or a network attached to one, and are the next hops m of v otherwise.
  datatype Graph = Graph(kind: seq<int>, links: seq<seq<Link>>, roots: set<nat>,
          hop: (nat, nat, nat, seq<NH>) -> seq<NH>) {
    // Costs fit sixteen bits; a network's links cost nothing and lead to routers.
    ghost predicate WellFormed() {
      && |kind| == |links|
      && (forall v :: 0 <= v < |kind| ==> kind[v] == RTR || kind[v] == NET)
      && (forall r :: r in roots ==> r < |kind| && kind[r] == RTR)
      && (forall v, i :: 0 <= v < |links| && 0 <= i < |links[v]| ==> LinkOk(v, links[v][i]))
      && forall v: nat, i: nat, w: nat, m: seq<NH> :: Entry(m) ==> Entry(hop(v, i, w, m))
    }

    ghost predicate LinkOk(v: nat, l: Link)
      requires v < |kind|
    {
      && 0 <= l.l_fwdcst <= MAX_COST
      && (l.Transit? ==>
            && -1 <= l.tl_nbr < |kind|
            && (kind[v] == NET ==> l.l_fwdcst == 0 && (l.tl_nbr >= 0 ==> kind[l.tl_nbr] == RTR)))
    }

    // A router's links cost at least one, as its interfaces do.
    ghost predicate Positive() {
      forall v, i :: 0 <= v < |links| && v < |kind| && kind[v] == RTR && 0 <= i < |links[v]| && links[v][i].Transit? ==>
        links[v][i].l_fwdcst >= 1
    }

    // The i-th link of v leads to w.
    predicate Edge(v: nat, i: nat, w: nat) {
      v < |links| && i < |links[v]| && links[v][i].Transit? && links[v][i].tl_nbr == w
    }

    function Len(v: nat, i: nat): nat
      requires v < |links| && i < |links[v]|
    {
      links[v][i].l_fwdcst
    }
  }

  // A multipath entry; the empty list stands for none.
  ghost predicate Entry(m: seq<NH>) {
    Sorted(m) && |m| <= MAXPATH
  }

  // ---- Paths from a root

  datatype Path = Start(root: nat) | Step(prev: Path, i: nat, to: nat)

  function End(p: Path): nat {
    if p.Start? then p.root else p.to
  }

  ghost predicate IsPath(g: Graph, p: Path) {
    match p
    case Start(r) => r in g.roots
    case Step(q, i, w) => IsPath(g, q) && g.Edge(End(q), i, w)
  }

  ghost function Length(g: Graph, p: Path): nat
    requires IsPath(g, p)
  {
    match p
    case Start(r) => 0
    case Step(q, i, w) => Length(g, q) + g.Len(End(q), i)
  }

  // d is the length of a shortest path to w.
  ghost predicate Shortest(g: Graph, w: nat, d: nat) {
    && (exists p :: IsPath(g, p) && End(p) == w && Length(g, p) == d)
    && (forall p :: IsPath(g, p) && End(p) == w ==> d <= Length(g, p))
  }

  ghost predicate Reachable(g: Graph, w: nat) {
    exists p :: IsPath(g, p) && End(p) == w
  }

  // ---- The state of the search

  datatype Mark = Uninit | OnCand | OnTree

  datatype View = View(
    mark: seq<Mark>,
    dist: seq<nat>,                // cost0
    hops: seq<set<(nat, nat)>>,    // the links merged into t_mpath
    mpath: seq<seq<NH>>,           // t_mpath
    direct: seq<bool>,             // t_direct
    order: seq<nat>,               // the nodes taken off the candidate list so far
    pos: seq<nat>,                 // their positions in it
    popped: seq<Found>)            // what was known of each of them when it was taken off

  datatype Found = Found(dist: nat, hops: set<(nat, nat)>, mpath: seq<NH>)

  ghost predicate Sized(g: Graph, s: View) {
    && g.WellFormed()
    && |s.mark| == |s.dist| == |s.hops| == |s.mpath| == |s.direct| == |s.pos| == |g.kind|
  }

  // What scanning the i-th link of v, which leads to w, does.
  function Relax(g: Graph, s: View, v: nat, i: nat, w: nat): View
    requires v < |g.links| && i < |g.links[v]| && v < |s.dist|
    requires w < |s.mark| == |s.dist| == |s.hops| == |s.mpath| == |s.direct|
  {
    var cost := s.dist[v] + g.Len(v, i);
    var hop := g.hop(v, i, w, s.mpath[v]);
    if s.mark[w] == OnTree || (s.mark[w] == OnCand && cost > s.dist[w]) then
      s
    else if s.mark[w] == OnCand && cost == s.dist[w] then
      s.(hops := s.hops[w := s.hops[w] + {(v, i)}], mpath := s.mpath[w := Merged(s.mpath[w], hop)],
         direct := s.direct[w := s.direct[w] || v in g.roots])
    else
      s.(mark := s.mark[w := OnCand], dist := s.dist[w := cost],
         hops := s.hops[w := {(v, i)}], mpath := s.mpath[w := Merged([], hop)],
         direct := s.direct[w := v in g.roots])
  }

  function Settle(s: View, v: nat): View
    requires v < |s.mark| == |s.pos| == |s.dist| == |s.hops| == |s.mpath|
  {
    s.(mark := s.mark[v := OnTree], order := s.order + [v], pos := s.pos[v := |s.order|],
       popped := s.popped + [Found(s.dist[v], s.hops[v], s.mpath[v])])
  }

  // v's links from number k on have not been scanned yet; all other nodes on the tree are done.
  ghost predicate Scanned(s: View, v: int, k: nat, u: nat, i: nat)
    requires u < |s.mark|
  {
    s.mark[u] == OnTree && (u == v ==> i < k)
  }

  ghost predicate Marked(s: View, w: nat)
    requires w < |s.mark|
  {
    s.mark[w] != Uninit
  }

  // The nodes on the tree are those taken off, once each.
  ghost predicate OrderOk(s: View)
    requires |s.pos| == |s.mark|
  {
    && (forall k :: 0 <= k < |s.order| ==>
          s.order[k] < |s.mark| && s.mark[s.order[k]] == OnTree && s.pos[s.order[k]] == k)
    && (forall v :: 0 <= v < |s.mark| && s.mark[v] == OnTree ==> s.pos[v] < |s.order| && s.order[s.pos[v]] == v)
  }

  // What was known of a node when it was taken off has not changed; a path to it has no more links than
  // nodes were taken off before.
  ghost predicate Frozen(g: Graph, s: View)
    requires Sized(g, s)
  {
    && |s.popped| == |s.order|
    && forall k :: 0 <= k < |s.order| ==>
         && s.order[k] < |s.mark|
         && s.popped[k] == Found(s.dist[s.order[k]], s.hops[s.order[k]], s.mpath[s.order[k]])
         && s.popped[k].dist <= MAX_COST * k
  }

  // Taken off in nondecreasing order, and nothing on the list is less.
  ghost predicate Monotone(s: View)
    requires |s.pos| == |s.mark| == |s.dist|
  {
    && (forall u, w :: 0 <= u < |s.mark| && 0 <= w < |s.mark| && s.mark[u] == OnTree && s.mark[w] == OnTree
          && s.pos[u] <= s.pos[w]
          ==> s.dist[u] <= s.dist[w])
    && (forall u, w :: 0 <= u < |s.mark| && 0 <= w < |s.mark| && s.mark[u] == OnTree && s.mark[w] == OnCand
          ==> s.dist[u] <= s.dist[w])
  }

  // If routers' links cost something: a network is strictly farther than every router taken off before it.
  ghost predicate NetsFirst(g: Graph, s: View)
    requires Sized(g, s)
  {
    g.Positive() ==>
      forall u, w :: 0 <= u < |s.mark| && 0 <= w < |s.mark| && s.mark[u] == OnTree && Marked(s, w)
          && g.kind[u] == RTR && g.kind[w] == NET && (s.mark[w] == OnTree ==> s.pos[u] < s.pos[w])
        ==> s.dist[u] < s.dist[w]
  }

  // A link has been taken into account: its hop has been merged if it is one of the best, and is not too late.
  ghost predicate LinkDone(g: Graph, s: View, u: nat, i: nat, w: nat)
    requires Sized(g, s) && u < |s.mark| && w < |s.mark| && g.Edge(u, i, w)
  {
    && Marked(s, w) && s.dist[w] <= s.dist[u] + g.Len(u, i)
    && (s.dist[w] == s.dist[u] + g.Len(u, i) && (s.mark[w] == OnTree ==> s.pos[u] < s.pos[w]) ==>
          (u, i) in s.hops[w])
  }

  // Every scanned link has been taken into account.
  ghost predicate LinksDone(g: Graph, s: View, v: int, k: nat)
    requires Sized(g, s)
  {
    forall u: nat, i: nat, w: nat :: u < |s.mark| && w < |s.mark| && g.Edge(u, i, w) && Scanned(s, v, k, u, i)
      ==> LinkDone(g, s, u, i, w)
  }

  // The merged hops come from shorter nodes already taken off.
  ghost predicate HopOk(g: Graph, s: View, v: int, k: nat, u: nat, i: nat, w: nat)
    requires Sized(g, s) && w < |s.mark|
  {
    && g.Edge(u, i, w) && u < |s.mark| && Scanned(s, v, k, u, i) && s.dist[w] == s.dist[u] + g.Len(u, i)
    && (s.mark[w] == OnTree ==> s.pos[u] < s.pos[w])
  }

  ghost predicate HopsOk(g: Graph, s: View, v: int, k: nat)
    requires Sized(g, s)
  {
    && (forall w, u, i :: 0 <= w < |s.mark| && Marked(s, w) && (u, i) in s.hops[w] ==> HopOk(g, s, v, k, u, i, w))
    && (forall w :: 0 <= w < |s.mark| && Marked(s, w) && w !in g.roots ==> exists u: nat, i: nat :: (u, i) in s.hops[w])
    && (forall w :: 0 <= w < |s.mark| && Marked(s, w) ==>
          (s.direct[w] <==> exists u, i :: (u, i) in s.hops[w] && u in g.roots))
  }

  // x is a next hop that one of the hops merged into w gives it.
  ghost predicate Given(g: Graph, s: View, w: nat, x: NH)
    requires Sized(g, s) && w < |s.mark|
  {
    exists u: nat, i: nat :: (u, i) in s.hops[w] && u < |s.mark| && x in g.hop(u, i, w, s.mpath[u])
  }

  // The next hops of a node are those given to it, unless there are too many.
  ghost predicate PathsOk(g: Graph, s: View)
    requires Sized(g, s)
  {
    forall w :: 0 <= w < |s.mark| && Marked(s, w) ==> PathOk(g, s, w)
  }

  ghost predicate PathOk(g: Graph, s: View, w: nat)
    requires Sized(g, s) && w < |s.mark|
  {
    && Entry(s.mpath[w])
    && (forall x :: x in s.mpath[w] ==> Given(g, s, w, x))
    && (|s.mpath[w]| < MAXPATH ==> forall x :: Given(g, s, w, x) ==> x in s.mpath[w])
  }

  ghost predicate RootsOk(g: Graph, s: View)
    requires Sized(g, s)
  {
    forall r :: r in g.roots ==> Marked(s, r) && s.dist[r] == 0
  }

  // No 32-bit cost wraps.
  ghost predicate Bounded(s: View, settled: nat)
    requires |s.dist| == |s.mark|
  {
    forall w :: 0 <= w < |s.mark| && Marked(s, w) ==> s.dist[w] <= MAX_COST * settled
  }

  // What holds while the links of v are scanned, up to number k (between nodes, v is -1).
  ghost predicate Inv(g: Graph, s: View, v: int, k: nat) {
    && Sized(g, s) && OrderOk(s) && Frozen(g, s) && Monotone(s) && NetsFirst(g, s) && RootsOk(g, s)
    && LinksDone(g, s, v, k) && HopsOk(g, s, v, k) && PathsOk(g, s) && Bounded(s, |s.order|)
  }

  // What is known of the node taken off last.
  ghost predicate Current(g: Graph, s: View, v: nat)
    requires Sized(g, s)
  {
    && v < |s.mark| && s.mark[v] == OnTree && s.order != [] && s.pos[v] == |s.order| - 1
    && s.dist[v] <= MAX_COST * (|s.order| - 1)
  }

  // ---- The start: nothing is known but the roots

  ghost predicate Blank(g: Graph, s: View)
    requires Sized(g, s)
  {
    && s.order == [] && s.popped == []
    && forall w :: 0 <= w < |s.mark| ==>
         && s.mark[w] == (if w in g.roots then OnCand else Uninit)
         && s.dist[w] == 0 && s.hops[w] == {} && s.mpath[w] == [] && !s.direct[w]
  }

  lemma StartInv(g: Graph, s: View)
    requires Sized(g, s) && Blank(g, s)
    ensures Inv(g, s, -1, 0)
  {
    forall w | 0 <= w < |s.mark| && Marked(s, w)
      ensures PathOk(g, s, w)
    {
    }
  }

  // ---- Scanning one link

  lemma RelaxOrder(g: Graph, s: View, v: nat, i: nat, w: nat)
    requires Inv(g, s, v, i) && Current(g, s, v) && g.Edge(v, i, w) && w < |s.mark|
    ensures var t := Relax(g, s, v, i, w); Sized(g, t) && OrderOk(t) && Frozen(g, t) && Monotone(t)
  {
    hide HopsOk, LinksDone, Merged, NetsFirst, PathsOk, RootsOk;
  }

  lemma RelaxNets(g: Graph, s: View, v: nat, i: nat, w: nat)
    requires Inv(g, s, v, i) && Current(g, s, v) && g.Edge(v, i, w) && w < |s.mark|
    ensures NetsFirst(g, Relax(g, s, v, i, w))
  {
    assert g.LinkOk(v, g.links[v][i]);
  }

  lemma RelaxSearch(g: Graph, s: View, v: nat, i: nat, w: nat)
    requires Inv(g, s, v, i) && Current(g, s, v) && g.Edge(v, i, w) && w < |s.mark|
    ensures var t := Relax(g, s, v, i, w);
            && Sized(g, t) && OrderOk(t) && Frozen(g, t) && Monotone(t) && NetsFirst(g, t) && RootsOk(g, t)
            && Bounded(t, |t.order|) && Current(g, t, v)
  {
    hide PathsOk;
    assert g.LinkOk(v, g.links[v][i]);
    RelaxOrder(g, s, v, i, w);
    RelaxNets(g, s, v, i, w);
  }

  lemma RelaxLinks(g: Graph, s: View, v: nat, i: nat, w: nat)
    requires Inv(g, s, v, i) && Current(g, s, v) && g.Edge(v, i, w) && w < |s.mark|
    ensures LinksDone(g, Relax(g, s, v, i, w), v, i + 1)
  {
    var t := Relax(g, s, v, i, w);
    assert g.LinkOk(v, g.links[v][i]);
    forall u: nat, j: nat, x: nat | u < |t.mark| && x < |t.mark| && g.Edge(u, j, x) && Scanned(t, v, i + 1, u, j)
      ensures LinkDone(g, t, u, j, x)
    {
      if (u, j) != (v, i) {
        assert Scanned(s, v, i, u, j);
      }
    }
  }

  lemma RelaxHops(g: Graph, s: View, v: nat, i: nat, w: nat)
    requires Inv(g, s, v, i) && Current(g, s, v) && g.Edge(v, i, w) && w < |s.mark|
    ensures HopsOk(g, Relax(g, s, v, i, w), v, i + 1)
  {
    RelaxHopOk(g, s, v, i, w);
    RelaxFirstHops(g, s, v, i, w);
  }

  lemma RelaxHopOk(g: Graph, s: View, v: nat, i: nat, w: nat)
    requires Inv(g, s, v, i) && Current(g, s, v) && g.Edge(v, i, w) && w < |s.mark|
    ensures var t := Relax(g, s, v, i, w);
            forall x, u, j :: 0 <= x < |t.mark| && Marked(t, x) && (u, j) in t.hops[x] ==>
                HopOk(g, t, v, i + 1, u, j, x)
  {
    hide Bounded, Merged, NetsFirst, PathsOk, RootsOk;
    var t := Relax(g, s, v, i, w);
    forall x, u, j | 0 <= x < |t.mark| && Marked(t, x) && (u, j) in t.hops[x]
      ensures HopOk(g, t, v, i + 1, u, j, x)
    {
      if (u, j) in s.hops[x] && Marked(s, x) && (x != w || (u, j) != (v, i)) {
        assert HopOk(g, s, v, i, u, j, x);
      }
    }
  }

  lemma RelaxFirstHops(g: Graph, s: View, v: nat, i: nat, w: nat)
    requires Inv(g, s, v, i) && Current(g, s, v) && g.Edge(v, i, w) && w < |s.mark|
    ensures var t := Relax(g, s, v, i, w);
            forall x :: 0 <= x < |t.mark| && Marked(t, x) ==>
              && (x !in g.roots ==> exists u: nat, j: nat :: (u, j) in t.hops[x])
              && (t.direct[x] <==> exists u, j :: (u, j) in t.hops[x] && u in g.roots)
  {
    var t := Relax(g, s, v, i, w);
    forall x | 0 <= x < |t.mark| && Marked(t, x)
      ensures x !in g.roots ==> exists u: nat, j: nat :: (u, j) in t.hops[x]
      ensures t.direct[x] <==> exists u, j :: (u, j) in t.hops[x] && u in g.roots
    {
      if t.hops[x] == s.hops[x] {
        assert Marked(s, x) || t.hops[x] == {(v, i)};
      } else {
        assert (v, i) in t.hops[x];
        assert t.hops[x] == {(v, i)} || t.hops[x] == s.hops[x] + {(v, i)};
      }
    }
  }

  // The next hops given to other nodes do not change: they come from nodes on the tree.
  lemma RelaxGiven(g: Graph, s: View, v: nat, i: nat, w: nat, y: nat, x: NH)
    requires Inv(g, s, v, i) && Current(g, s, v) && g.Edge(v, i, w) && w < |s.mark| && y < |s.mark| && Marked(s, y)
    requires Relax(g, s, v, i, w).hops[y] == s.hops[y]
    ensures Given(g, Relax(g, s, v, i, w), y, x) <==> Given(g, s, y, x)
  {
    var t := Relax(g, s, v, i, w);
    forall u: nat, j: nat | (u, j) in s.hops[y]
      ensures u < |s.mark| && t.mpath[u] == s.mpath[u]
    {
      assert HopOk(g, s, v, i, u, j, y);
    }
  }

  lemma RelaxMerged(g: Graph, s: View, v: nat, i: nat, w: nat, x: NH)
    requires Inv(g, s, v, i) && Current(g, s, v) && g.Edge(v, i, w) && w < |s.mark|
    requires Relax(g, s, v, i, w).hops[w] != s.hops[w] || s.mark[w] == Uninit
    ensures var t := Relax(g, s, v, i, w);
            Given(g, t, w, x) <==>
              x in g.hop(v, i, w, s.mpath[v])
              || (s.mark[w] == OnCand && s.dist[v] + g.Len(v, i) == s.dist[w] && Given(g, s, w, x))
  {
    var t := Relax(g, s, v, i, w);
    assert (v, i) in t.hops[w] && t.mpath[v] == s.mpath[v];
    forall u: nat, j: nat | (u, j) in s.hops[w] && s.mark[w] == OnCand
      ensures u < |s.mark| && t.mpath[u] == s.mpath[u]
    {
      assert HopOk(g, s, v, i, u, j, w);
    }
  }

  lemma NotYetMerged(g: Graph, s: View, v: nat, i: nat, w: nat)
    requires Inv(g, s, v, i) && w < |s.mark| && Marked(s, w)
    ensures (v, i) !in s.hops[w]
  {
    forall u: nat, j: nat | (u, j) in s.hops[w]
      ensures (u, j) != (v, i)
    {
      assert HopOk(g, s, v, i, u, j, w);
    }
  }

  lemma RelaxPathAt(g: Graph, s: View, v: nat, i: nat, w: nat)
    requires Inv(g, s, v, i) && Current(g, s, v) && g.Edge(v, i, w) && w < |s.mark|
    requires Relax(g, s, v, i, w) != s
    ensures PathOk(g, Relax(g, s, v, i, w), w)
  {
    var t := Relax(g, s, v, i, w);
    var equal := s.mark[w] == OnCand && s.dist[v] + g.Len(v, i) == s.dist[w];
    var m, hop := if equal then s.mpath[w] else [], g.hop(v, i, w, s.mpath[v]);
    assert PathOk(g, s, v) && (equal ==> PathOk(g, s, w));
    MergedFacts(m, hop);
    if Marked(s, w) {
      NotYetMerged(g, s, v, i, w);
    }
    assert (v, i) in t.hops[w];
    forall x
      ensures Given(g, t, w, x) <==> x in hop || (equal && Given(g, s, w, x))
    {
      RelaxMerged(g, s, v, i, w, x);
    }
    PathMerged(g, s, t, w, m, hop, equal);
  }

  lemma PathMerged(g: Graph, s: View, t: View, w: nat, m: seq<NH>, hop: seq<NH>, equal: bool)
    requires Sized(g, s) && Sized(g, t) && w < |s.mark|
    requires Entry(m) && Entry(hop) && t.mpath[w] == Merged(m, hop)
    requires if equal then m == s.mpath[w] && PathOk(g, s, w) else m == []
    requires forall x :: Given(g, t, w, x) <==> x in hop || (equal && Given(g, s, w, x))
    ensures PathOk(g, t, w)
  {
    MergedFacts(m, hop);
    var z := t.mpath[w];
    forall x
      ensures x in z ==> Given(g, t, w, x)
      ensures |z| < MAXPATH && Given(g, t, w, x) ==> x in z
    {
      assert x in z <==> x in MultiPath.Set(z);
      assert x in m <==> x in MultiPath.Set(m);
      assert x in hop <==> x in MultiPath.Set(hop);
      if |z| < MAXPATH {
        FewFromFew(m, hop);
      }
    }
  }

  lemma FewFromFew(m: seq<NH>, hop: seq<NH>)
    requires Entry(m) && Entry(hop) && |Merged(m, hop)| < MAXPATH
    ensures |m| < MAXPATH
  {
  }

  lemma RelaxPaths(g: Graph, s: View, v: nat, i: nat, w: nat)
    requires Inv(g, s, v, i) && Current(g, s, v) && g.Edge(v, i, w) && w < |s.mark|
    ensures PathsOk(g, Relax(g, s, v, i, w))
  {
    var t := Relax(g, s, v, i, w);
    if t != s {
      RelaxPathAt(g, s, v, i, w);
      forall y | 0 <= y < |t.mark| && Marked(t, y) && y != w
        ensures PathOk(g, t, y)
      {
        assert PathOk(g, s, y);
        forall x
          ensures Given(g, t, y, x) <==> Given(g, s, y, x)
        {
          RelaxGiven(g, s, v, i, w, y, x);
        }
      }
    }
  }

  lemma RelaxInv(g: Graph, s: View, v: nat, i: nat, w: nat)
    requires Inv(g, s, v, i) && Current(g, s, v) && g.Edge(v, i, w) && w < |s.mark|
    ensures Inv(g, Relax(g, s, v, i, w), v, i + 1) && Current(g, Relax(g, s, v, i, w), v)
  {
    RelaxSearch(g, s, v, i, w);
    RelaxLinks(g, s, v, i, w);
    RelaxHops(g, s, v, i, w);
    RelaxPaths(g, s, v, i, w);
  }

  // A link that leads nowhere.
  lemma SkipInv(g: Graph, s: View, v: nat, i: nat)
    requires Inv(g, s, v, i) && forall w: nat :: !g.Edge(v, i, w)
    ensures Inv(g, s, v, i + 1)
  {
    forall w, u, j | 0 <= w < |s.mark| && Marked(s, w) && (u, j) in s.hops[w]
      ensures HopOk(g, s, v, i + 1, u, j, w)
    {
      assert HopOk(g, s, v, i, u, j, w);
    }
  }

  // What scanning the i-th link of v does.
  function ScanOne(g: Graph, s: View, v: nat, i: nat): View
    requires |g.links| == |s.mark| == |s.dist| == |s.hops| == |s.mpath| == |s.direct|
    requires v < |g.links| && i < |g.links[v]|
  {
    var l := g.links[v][i];
    if l.Transit? && 0 <= l.tl_nbr < |s.mark| then Relax(g, s, v, i, l.tl_nbr) else s
  }

  lemma ScanInv(g: Graph, s: View, v: nat, i: nat)
    requires Inv(g, s, v, i) && Current(g, s, v) && i < |g.links[v]|
    ensures var t := ScanOne(g, s, v, i);
            && Inv(g, t, v, i + 1) && Current(g, t, v) && t.order == s.order && t.popped == s.popped
            && t.dist[v] == s.dist[v] && t.mpath[v] == s.mpath[v]
  {
    hide Monotone;
    var l := g.links[v][i];
    assert g.LinkOk(v, l);
    if l.Transit? && l.tl_nbr >= 0 {
      RelaxInv(g, s, v, i, l.tl_nbr);
    } else {
      SkipInv(g, s, v, i);
    }
  }

  // ---- Taking a node off the list

  // v comes first: no node on the list is nearer, and no network on the list is as near as a router v.
  ghost predicate First(g: Graph, s: View, v: nat)
    requires Sized(g, s)
  {
    && v < |s.mark| && s.mark[v] == OnCand
    && (forall w :: 0 <= w < |s.mark| && s.mark[w] == OnCand ==> s.dist[v] <= s.dist[w])
    && (forall w :: 0 <= w < |s.mark| && s.mark[w] == OnCand && g.kind[v] == RTR && g.kind[w] == NET ==>
          s.dist[v] < s.dist[w])
  }

  lemma SettleOrder(g: Graph, s: View, v: nat)
    requires Inv(g, s, -1, 0) && First(g, s, v)
    ensures Sized(g, Settle(s, v)) && OrderOk(Settle(s, v)) && Frozen(g, Settle(s, v)) && Monotone(Settle(s, v))
  {
  }

  lemma SettleSearch(g: Graph, s: View, v: nat)
    requires Inv(g, s, -1, 0) && First(g, s, v)
    ensures var t := Settle(s, v);
            && Sized(g, t) && OrderOk(t) && Frozen(g, t) && Monotone(t) && NetsFirst(g, t) && RootsOk(g, t)
            && Bounded(t, |t.order|) && Current(g, t, v)
  {
    SettleOrder(g, s, v);
  }

  lemma SettleHops(g: Graph, s: View, v: nat)
    requires Inv(g, s, -1, 0) && First(g, s, v)
    ensures LinksDone(g, Settle(s, v), v, 0) && HopsOk(g, Settle(s, v), v, 0)
  {
    var t := Settle(s, v);
    forall w, u, i | 0 <= w < |t.mark| && Marked(t, w) && (u, i) in t.hops[w]
      ensures HopOk(g, t, v, 0, u, i, w)
    {
      assert HopOk(g, s, -1, 0, u, i, w);
    }
    forall u: nat, i: nat, w: nat | u < |t.mark| && w < |t.mark| && g.Edge(u, i, w) && Scanned(t, v, 0, u, i)
      ensures LinkDone(g, t, u, i, w)
    {
      assert Scanned(s, -1, 0, u, i);
    }
  }

  lemma SettleInv(g: Graph, s: View, v: nat)
    requires Inv(g, s, -1, 0) && First(g, s, v)
    ensures Inv(g, Settle(s, v), v, 0) && Current(g, Settle(s, v), v)
  {
    SettleSearch(g, s, v);
    SettleHops(g, s, v);
  }

  // All links of v have been scanned.
  lemma NodeDone(g: Graph, s: View, v: nat)
    requires v < |g.links| && Inv(g, s, v, |g.links[v]|)
    ensures Inv(g, s, -1, 0)
  {
    forall w, u, i | 0 <= w < |s.mark| && Marked(s, w) && (u, i) in s.hops[w]
      ensures HopOk(g, s, -1, 0, u, i, w)
    {
      assert HopOk(g, s, v, |g.links[v]|, u, i, w);
    }
    forall u: nat, i: nat, w: nat | u < |s.mark| && w < |s.mark| && g.Edge(u, i, w) && Scanned(s, -1, 0, u, i)
      ensures LinkDone(g, s, u, i, w)
    {
      assert Scanned(s, v, |g.links[v]|, u, i);
    }
  }

  // ---- When the candidate list is empty

  ghost predicate Done(g: Graph, s: View) {
    Inv(g, s, -1, 0) && forall w :: 0 <= w < |s.mark| ==> s.mark[w] != OnCand
  }

  // Every path leads to a node on the tree that is no farther than the path is long.
  lemma {:induction false} PathCovered(g: Graph, s: View, p: Path)
    requires Done(g, s) && IsPath(g, p)
    ensures End(p) < |s.mark| && s.mark[End(p)] == OnTree && s.dist[End(p)] <= Length(g, p)
  {
    match p
    case Start(r) => assert Marked(s, r);
    case Step(q, i, w) =>
      PathCovered(g, s, q);
      assert g.LinkOk(End(q), g.links[End(q)][i]);
      assert Scanned(s, -1, 0, End(q), i);
      assert Marked(s, w);
  }

  // Every node on the tree has a path as long as its distance.
  lemma {:induction false} PathTo(g: Graph, s: View, w: nat) returns (p: Path)
    requires Inv(g, s, -1, 0) && w < |s.mark| && s.mark[w] == OnTree
    ensures IsPath(g, p) && End(p) == w && Length(g, p) == s.dist[w]
    decreases s.pos[w]
  {
    assert Marked(s, w);
    if w in g.roots {
      p := Start(w);
    } else {
      var u: nat, i: nat :| (u, i) in s.hops[w];
      assert HopOk(g, s, -1, 0, u, i, w);
      var q := PathTo(g, s, u);
      p := Step(q, i, w);
    }
  }

  // The nodes taken off are exactly the reachable ones, each once; their distances are the lengths of
  // shortest paths, and never decrease along the way.
  lemma ShortestFound(g: Graph, s: View)
    requires Done(g, s)
    ensures forall k, l :: 0 <= k < l < |s.order| ==>
            s.order[k] != s.order[l] && s.dist[s.order[k]] <= s.dist[s.order[l]]
    ensures forall w: nat :: Reachable(g, w) <==> w in s.order
    ensures forall w :: w in s.order ==> Shortest(g, w, s.dist[w])
  {
    forall w: nat
      ensures Reachable(g, w) <==> w in s.order
    {
      if Reachable(g, w) {
        var p :| IsPath(g, p) && End(p) == w;
        PathCovered(g, s, p);
        assert s.order[s.pos[w]] == w;
      }
      if w in s.order {
        var p := PathTo(g, s, w);
      }
    }
    forall w | w in s.order
      ensures Shortest(g, w, s.dist[w])
    {
      var p := PathTo(g, s, w);
      forall q | IsPath(g, q) && End(q) == w
        ensures s.dist[w] <= Length(g, q)
      {
        PathCovered(g, s, q);
      }
    }
  }

  // The link (u, i) is the last step of a shortest path to w.
  ghost predicate LastStep(g: Graph, u: nat, i: nat, w: nat) {
    g.Edge(u, i, w) && exists d: nat, e: nat :: Shortest(g, u, d) && Shortest(g, w, e) && e == d + g.Len(u, i)
  }

  // The next hops merged into a node are those over exactly the last steps of its shortest paths that come from nodes
  // taken off before it.
  lemma ParentsMerged(g: Graph, s: View, u: nat, i: nat, w: nat)
    requires Done(g, s) && w in s.order
    ensures LastStep(g, u, i, w) ==> u in s.order && u < |s.pos|
    ensures (u, i) in s.hops[w] <==> LastStep(g, u, i, w) && s.pos[u] < s.pos[w]
  {
    ShortestFound(g, s);
    assert Marked(s, w);
    if (u, i) in s.hops[w] {
      assert HopOk(g, s, -1, 0, u, i, w);
      assert s.order[s.pos[u]] == u;
    }
    if LastStep(g, u, i, w) {
      StepDistance(g, s, u, i, w);
      assert Scanned(s, -1, 0, u, i);
    }
  }

  lemma StepDistance(g: Graph, s: View, u: nat, i: nat, w: nat)
    requires Done(g, s) && w in s.order && LastStep(g, u, i, w)
    ensures u in s.order && u < |s.dist| && s.dist[w] == s.dist[u] + g.Len(u, i)
  {
    ShortestFound(g, s);
    var d: nat, e: nat :| Shortest(g, u, d) && Shortest(g, w, e) && e == d + g.Len(u, i);
    var p :| IsPath(g, p) && End(p) == u && Length(g, p) == d;
    assert Reachable(g, u);
    ShortestUnique(g, u, d, s.dist[u]);
    ShortestUnique(g, w, e, s.dist[w]);
  }

  // If routers' links cost something, all of them do: networks go first.
  lemma AllParentsMerged(g: Graph, s: View, u: nat, i: nat, w: nat)
    requires Done(g, s) && g.Positive() && w in s.order
    ensures LastStep(g, u, i, w) ==> u in s.order && s.pos[u] < s.pos[w]
    ensures (u, i) in s.hops[w] <==> LastStep(g, u, i, w)
  {
    ParentsMerged(g, s, u, i, w);
    if LastStep(g, u, i, w) {
      StepDistance(g, s, u, i, w);
      StepForward(g, s, u, i, w);
    }
  }

  lemma StepForward(g: Graph, s: View, u: nat, i: nat, w: nat)
    requires Done(g, s) && g.Positive() && g.Edge(u, i, w) && u in s.order && w in s.order
    requires u < |s.dist| && s.dist[w] == s.dist[u] + g.Len(u, i)
    ensures s.pos[u] < s.pos[w]
  {
    hide Frozen, HopsOk, LinksDone, PathsOk, RootsOk, Bounded;
    assert g.LinkOk(u, g.links[u][i]);
  }

  // At the moment a node was taken off, its distance was final, and so were its next hops: they are given by last
  // steps of its shortest paths, and by all of those that come from nodes taken off before, if and only if these
  // next hops fit one entry.
  lemma FinalWhenTaken(g: Graph, s: View, k: nat)
    requires Done(g, s) && k < |s.order|
    ensures |s.popped| == |s.order|
    ensures var w, f := s.order[k], s.popped[k];
            && Shortest(g, w, f.dist)
            && (forall u: nat, i: nat :: (u, i) in f.hops <==> LastStep(g, u, i, w) && s.pos[u] < k)
            && (forall x :: x in f.mpath ==> FromTaken(g, s, w, x))
            && ((forall x :: FromTaken(g, s, w, x) ==> x in f.mpath) <==>
                exists h: set<NH> :: |h| <= MAXPATH && Covers(g, s, w, h))
  {
    var w, f := s.order[k], s.popped[k];
    ShortestFound(g, s);
    forall u: nat, i: nat
      ensures LastStep(g, u, i, w) ==> u in s.order && u < |s.mpath| && u < |s.pos|
      ensures (u, i) in s.hops[w] <==> LastStep(g, u, i, w) && s.pos[u] < k
    {
      ParentsMerged(g, s, u, i, w);
    }
    forall x: NH
      ensures FromTaken(g, s, w, x) <==> Given(g, s, w, x)
    {
    }
    PathKept(g, s, w);
  }

  // x is given to w over the last step of a shortest path, from a node taken off before.
  ghost predicate FromTaken(g: Graph, s: View, w: nat, x: NH) {
    w < |s.pos| && exists u: nat, i: nat ::
      LastStep(g, u, i, w) && u < |s.mpath| && u < |s.pos| && s.pos[u] < s.pos[w] && x in g.hop(u, i, w, s.mpath[u])
  }

  ghost predicate Covers(g: Graph, s: View, w: nat, h: set<NH>) {
    forall x :: FromTaken(g, s, w, x) ==> x in h
  }

  lemma PathKept(g: Graph, s: View, w: nat)
    requires Sized(g, s) && w < |s.mark| && PathOk(g, s, w)
    requires forall x :: FromTaken(g, s, w, x) <==> Given(g, s, w, x)
    ensures (forall x :: FromTaken(g, s, w, x) ==> x in s.mpath[w]) <==>
            exists h: set<NH> :: |h| <= MAXPATH && Covers(g, s, w, h)
  {
    hide Given, FromTaken;
    var m := s.mpath[w];
    SortedSize(m);
    assert forall x :: x in m <==> x in MultiPath.Set(m);
    if forall x :: FromTaken(g, s, w, x) ==> x in m {
      assert Covers(g, s, w, MultiPath.Set(m));
    }
    if h: set<NH> :| |h| <= MAXPATH && Covers(g, s, w, h) {
      if |m| == MAXPATH {
        assert MultiPath.Set(m) <= h;
        AllOfIt(MultiPath.Set(m), h);
      }
    }
  }

  // If routers' links cost something, these are the next hops over all shortest paths.
  lemma FromAllParents(g: Graph, s: View, w: nat, x: NH)
    requires Done(g, s) && g.Positive() && w in s.order
    ensures FromTaken(g, s, w, x) <==> FromShortest(g, s, w, x)
  {
    if FromShortest(g, s, w, x) {
      var u: nat, i: nat :| LastStep(g, u, i, w) && u < |s.mpath| && x in g.hop(u, i, w, s.mpath[u]);
      AllParentsMerged(g, s, u, i, w);
    }
  }

  // x is given to w over the last step of a shortest path.
  ghost predicate FromShortest(g: Graph, s: View, w: nat, x: NH) {
    exists u: nat, i: nat :: LastStep(g, u, i, w) && u < |s.mpath| && x in g.hop(u, i, w, s.mpath[u])
  }

  lemma ShortestUnique(g: Graph, w: nat, d: nat, e: nat)
    requires Shortest(g, w, d) && Shortest(g, w, e)
    ensures d == e
  {
    var p :| IsPath(g, p) && End(p) == w && Length(g, p) == d;
    var q :| IsPath(g, q) && End(q) == w && Length(g, q) == e;
  }

  // ---- A parent that comes too late

  ghost predicate Alike(g: Graph, s: View) {
    |g.links| == |s.mark| == |s.dist| == |s.hops| == |s.mpath| == |s.direct| == |s.pos|
  }

  // The links of v from number i on are scanned.
  ghost function ScanFrom(g: Graph, s: View, v: nat, i: nat): (t: View)
    requires Alike(g, s) && v < |g.links| && i <= |g.links[v]|
    ensures Alike(g, t)
    decreases |g.links[v]| - i
  {
    if i == |g.links[v]| then s else ScanFrom(g, ScanOne(g, s, v, i), v, i + 1)
  }

  // One round of the program: v comes first, is put on the tree, and its links are scanned.
  ghost predicate Round(g: Graph, s: View, v: nat, t: View) {
    Sized(g, s) && First(g, s, v) && t == ScanFrom(g, Settle(s, v), v, 0)
  }

  lemma {:induction false} ScannedKeeps(g: Graph, s: View, v: nat, i: nat)
    requires Alike(g, s) && Inv(g, s, v, i) && Current(g, s, v) && i <= |g.links[v]|
    ensures Inv(g, ScanFrom(g, s, v, i), -1, 0)
    decreases |g.links[v]| - i
  {
    hide Inv;
    if i == |g.links[v]| {
      NodeDone(g, s, v);
    } else {
      ScanInv(g, s, v, i);
      ScannedKeeps(g, ScanOne(g, s, v, i), v, i + 1);
    }
  }

  lemma RoundKeeps(g: Graph, s: View, v: nat, t: View)
    requires Inv(g, s, -1, 0) && Round(g, s, v, t)
    ensures Inv(g, t, -1, 0)
  {
    hide Inv;
    SettleInv(g, s, v);
    ScannedKeeps(g, Settle(s, v), v, 0);
  }

  // Router 0, the root, reaches router 1 and network 2 at cost 1; the link from router 1 to the network costs nothing.
  function ZeroCost(): Graph {
    var none: seq<NH> := [];
    Graph([RTR, RTR, NET], [[Transit(1, 1), Transit(2, 1)], [Transit(2, 0), Transit(0, 1)],
                           [Transit(0, 0), Transit(1, 0)]], {0}, (v: nat, i: nat, w: nat, m: seq<NH>) => none)
  }

  function Round0(): View {
    View([OnCand, Uninit, Uninit], [0, 0, 0], [{}, {}, {}], [[], [], []], [false, false, false], [], [0, 0, 0], [])
  }

  function Round1(): View {
    View([OnTree, OnCand, OnCand], [0, 1, 1], [{}, {(0, 0)}, {(0, 1)}], [[], [], []], [false, true, true],
         [0], [0, 0, 0], [Found(0, {}, [])])
  }

  function Round2(): View {
    View([OnTree, OnCand, OnTree], [0, 1, 1], [{}, {(0, 0), (2, 1)}, {(0, 1)}], [[], [], []], [false, true, true],
         [0, 2], [0, 0, 1], [Found(0, {}, []), Found(1, {(0, 1)}, [])])
  }

  function Round3(): View {
    Settle(Round2(), 1)
  }

  lemma Scan2(g: Graph, s: View, v: nat, t: View, u: View)
    requires Alike(g, s) && v < |g.links| && |g.links[v]| == 2 && t == ScanOne(g, s, v, 0) && Alike(g, t)
    requires u == ScanOne(g, t, v, 1) && Alike(g, u)
    ensures ScanFrom(g, s, v, 0) == u
  {
    hide ScanOne;
    assert ScanFrom(g, u, v, 2) == u;
    assert ScanFrom(g, t, v, 1) == u;
  }

  lemma RoundOne()
    ensures Round(ZeroCost(), Round0(), 0, Round1())
  {
    var g, s := ZeroCost(), Settle(Round0(), 0);
    var t := ScanOne(g, s, 0, 0);
    assert t == s.(mark := [OnTree, OnCand, Uninit], dist := [0, 1, 0], hops := [{}, {(0, 0)}, {}],
                   direct := [false, true, false]);
    assert ScanOne(g, t, 0, 1) == Round1();
    Scan2(g, s, 0, t, Round1());
  }

  lemma RoundTwo()
    ensures Round(ZeroCost(), Round1(), 2, Round2())
  {
    var g, s := ZeroCost(), Settle(Round1(), 2);
    var hops: set<(nat, nat)> := {(0, 0)};
    assert hops + {(2, 1)} == {(0, 0), (2, 1)};
    assert ScanOne(g, s, 2, 0) == s;
    assert ScanOne(g, s, 2, 1) == Round2();
    Scan2(g, s, 2, s, Round2());
  }

  lemma RoundThree()
    ensures Round(ZeroCost(), Round2(), 1, Round3())
  {
    var g, s := ZeroCost(), Settle(Round2(), 1);
    assert ScanOne(g, s, 1, 0) == s && ScanOne(g, s, 1, 1) == s;
    Scan2(g, s, 1, s, s);
  }

  lemma ZeroCostOk()
    ensures ZeroCost().WellFormed()
  {
    var g := ZeroCost();
    forall v, i | 0 <= v < |g.links| && 0 <= i < |g.links[v]|
      ensures g.LinkOk(v, g.links[v][i])
    {
    }
  }

  lemma LateStep()
    requires Inv(ZeroCost(), Round3(), -1, 0)
    ensures Done(ZeroCost(), Round3()) && LastStep(ZeroCost(), 1, 0, 2) && (1, 0) !in Round3().hops[2]
  {
    hide Inv, Shortest, Reachable;
    ShortestFound(ZeroCost(), Round3());
    assert Round3().order == [0, 2, 1] && Round3().dist == [0, 1, 1];
    assert 1 in Round3().order && 2 in Round3().order;
  }

  // The network goes first, so the link from router 1, the last step of a shortest path to it, is never merged.
  lemma ParentTooLate()
    ensures Inv(ZeroCost(), Round0(), -1, 0) && Round(ZeroCost(), Round0(), 0, Round1())
    ensures Round(ZeroCost(), Round1(), 2, Round2()) && Round(ZeroCost(), Round2(), 1, Round3())
    ensures Done(ZeroCost(), Round3()) && LastStep(ZeroCost(), 1, 0, 2) && (1, 0) !in Round3().hops[2]
  {
    hide Done, Inv, LastStep, Round;
    var g := ZeroCost();
    ZeroCostOk();
    StartInv(g, Round0());
    RoundOne();
    RoundTwo();
    RoundThree();
    RoundKeeps(g, Round0(), 0, Round1());
    RoundKeeps(g, Round1(), 2, Round2());
    RoundKeeps(g, Round2(), 1, Round3());
    LateStep();
  }
}
