// The intra-area route calculation (OSPF::dijkstra in spfcalc.C) over the linked priority queue, and the
// routing table entries it fills.

module Dijkstra {
  import opened AvlItems
  import opened MultiPath
  import P = PriorityQueue
  import S = ShortestPaths
  import R = RouteEntries

  // A router-LSA or network-LSA.
  class TNode {
    const elt: P.PriQElt        // the queue element it is derived from
    const lsaType: int
    const links: seq<S.Link>
    var tState: S.Mark
    var tDirect: bool
    var tMpath: seq<NH>

    constructor (lsaType: int, links: seq<S.Link>)
      ensures this.lsaType == lsaType && this.links == links && fresh(elt) && tState == S.Uninit
    {
      elt := new P.PriQElt();
      this.lsaType, this.links := lsaType, links;
      tState, tDirect, tMpath := S.Uninit, false, [];
    }
  }

  class Spf {
    const g: S.Graph                          // what the node objects say, by number
    const nodes: seq<TNode>
    const ids: map<P.PriQElt, nat>            // the cast from an element down to its node
    const roots: seq<nat>                     // our own router-LSA in each area
    const area: seq<nat>
    const dest: seq<int>                      // t_dest
    const stubHop: (nat, nat) -> seq<NH>      // next hops of the stubs attached to us
    const table: R.Table
    ghost var s: S.View

    constructor (g: S.Graph, nodes: seq<TNode>, ids: map<P.PriQElt, nat>, roots: seq<nat>, area: seq<nat>,
                 dest: seq<int>, stubHop: (nat, nat) -> seq<NH>, table: R.Table)
      ensures this.g == g && this.nodes == nodes && this.ids == ids && this.roots == roots && this.area == area
      ensures this.dest == dest && this.stubHop == stubHop && this.table == table
    {
      this.g, this.nodes, this.ids, this.roots, this.area := g, nodes, ids, roots, area;
      this.dest, this.stubHop, this.table := dest, stubHop, table;
    }

    // The objects say what the graph says; a router has one LSA in each area.
    ghost predicate Static() {
      && g.WellFormed() && |nodes| == |g.kind| == |area| == |dest| && |nodes| <= 65537
      && (forall v :: 0 <= v < |nodes| ==> nodes[v].lsaType == g.kind[v] && nodes[v].links == g.links[v])
      && (forall v :: 0 <= v < |nodes| ==> nodes[v].elt in ids && ids[nodes[v].elt] == v)
      && (forall e :: e in ids ==> ids[e] < |nodes| && nodes[ids[e]].elt == e)
      && (forall r :: r in roots <==> r in g.roots)
      && (forall i, j :: 0 <= i < j < |roots| ==> roots[i] != roots[j])
      && (forall r, i, w, m :: r in g.roots ==> g.hop(r, i, w, m) == g.hop(r, i, w, []))
      && (forall v :: 0 <= v < |dest| ==> 0 <= dest[v] < |table.rtes|)
      && (forall v, i :: 0 <= v < |nodes| && 0 <= i < |g.links[v]| && g.links[v][i].Stub? ==>
            -1 <= g.links[v][i].sl_rte < |table.rtes|)
      && (forall v, i :: |stubHop(v, i)| <= MAXPATH)
    }

    // The fields of node w say what the view says.
    ghost predicate NodeIs(w: nat)
      requires w < |nodes| == |s.mark| == |s.dist| == |s.direct| == |s.mpath|
      reads `s, {nodes[w]}`tState, {nodes[w]}`tDirect, {nodes[w]}`tMpath, nodes[w].elt`cost
    {
      var n := nodes[w];
      && n.tState == s.mark[w] && |n.tMpath| <= MAXPATH
      && (s.mark[w] != S.Uninit ==>
            n.elt.cost.cost0 == s.dist[w] && n.elt.cost.cost1 == 0 && n.elt.cost.tie1 == n.lsaType)
      && (s.mark[w] != S.Uninit && w !in g.roots ==> n.tDirect == s.direct[w] && n.tMpath == s.mpath[w])
    }

    ghost predicate Coupled(cand: P.PriQ)
      reads `s, nodes`tState, nodes`tDirect, nodes`tMpath, ids.Keys`cost, cand, cand.elems
    {
      && Static() && S.Sized(g, s) && cand.Valid()
      && (forall w :: 0 <= w < |nodes| ==> NodeIs(w))
      && (forall w :: 0 <= w < |nodes| ==> (nodes[w].elt in cand.elems <==> s.mark[w] == S.OnCand))
      && cand.elems <= ids.Keys
    }

    lemma Apart(w: nat, x: nat)
      requires Static() && w < |nodes| && x < |nodes| && w != x
      ensures nodes[w] != nodes[x] && nodes[w].elt != nodes[x].elt
    {
    }

    // Scans link i of node v, which leads to node w.
    method ScanTransit(cand: P.PriQ, v: nat, i: nat, w: nat)
      requires Coupled(cand) && v < |nodes| && w < |nodes| && g.Edge(v, i, w) && s.mark[v] == S.OnTree
      requires s.mark[w] != S.OnTree ==> s.dist[v] + g.Len(v, i) < 0x1_0000_0000
      requires S.Entry(s.mpath[v]) && (s.mark[w] == S.OnCand ==> S.Entry(s.mpath[w]))
      modifies `s, cand, cand.elems`left, cand.elems`right, cand.elems`parent, nodes[w], nodes[w].elt
      ensures Coupled(cand) && s == S.Relax(g, old(s), v, i, w)
    {
      hide Improved, P.PriQ.Valid, S.Relax, SameCost, ViaHop;
      var V, W := nodes[v], nodes[w];
      assert NodeIs(v) && NodeIs(w);
      if W.tState == S.OnTree {
        RelaxNot(g, s, v, i, w);
        return;
      }
      RelaxIs(g, s, v, i, w);
      var newCost: uns32 := V.elt.cost.cost0 + V.links[i].l_fwdcst;
      if W.tState == S.OnCand && newCost > W.elt.cost.cost0 {
        return;
      }
      FoundPath(cand, v, i, w, newCost);
    }

    // A first, better or equal path to w.
    method FoundPath(cand: P.PriQ, v: nat, i: nat, w: nat, newCost: uns32)
      requires Coupled(cand) && v < |nodes| && w < |nodes| && s.mark[v] == S.OnTree && s.mark[w] != S.OnTree
      requires S.Entry(s.mpath[v]) && (s.mark[w] == S.OnCand ==> S.Entry(s.mpath[w]))
      modifies `s, cand, cand.elems`left, cand.elems`right, cand.elems`parent, nodes[w], nodes[w].elt
      ensures Coupled(cand)
      ensures s == ViaHop(g, if old(s).mark[w] != S.OnCand || newCost < old(s).dist[w]
              then Improved(g, old(s), v, w, newCost)
                             else SameCost(g, old(s), v, w), v, i, w)
    {
      assert NodeIs(w);
      if nodes[w].tState != S.OnCand || newCost < nodes[w].elt.cost.cost0 {
        Improve(cand, v, w, newCost);
      } else {
        AlsoVia(cand, v, w);
      }
      AddNextHop(cand, v, i, w);
    }

    // A first path, or a better one: w enters the candidate list, or leaves it and enters again under its
    // new cost, without next hops.
    method Improve(cand: P.PriQ, v: nat, w: nat, newCost: uns32)
      requires Coupled(cand) && v < |nodes| && w < |nodes|
      modifies `s, cand, cand.elems`left, cand.elems`right, cand.elems`parent, nodes[w], nodes[w].elt
      ensures Coupled(cand) && s == Improved(g, old(s), v, w, newCost)
    {
      assert NodeIs(w);
      if nodes[w].tState == S.OnCand {
        cand.Delete(nodes[w].elt);
      }
      forall x | 0 <= x < |nodes|
        ensures nodes[x].elt in cand.elems <==> x != w && s.mark[x] == S.OnCand
      {
        if x != w {
          Apart(w, x);
        }
      }
      Enlist(cand, v, w, newCost);
    }

    method Enlist(cand: P.PriQ, v: nat, w: nat, newCost: uns32)
      requires Static() && S.Sized(g, s) && cand.Valid() && cand.elems <= ids.Keys
      requires v < |nodes| && w < |nodes|
      requires forall x :: 0 <= x < |nodes| ==> NodeIs(x)
      requires forall x :: 0 <= x < |nodes| ==> (nodes[x].elt in cand.elems <==> x != w && s.mark[x] == S.OnCand)
      modifies `s, cand, cand.elems`left, cand.elems`right, cand.elems`parent, nodes[w], nodes[w].elt
      ensures Coupled(cand) && s == Improved(g, old(s), v, w, newCost)
    {
      SetPath(v, w, newCost);
      ghost var was := cand.elems;
      cand.Add(nodes[w].elt);
      forall x | 0 <= x < |nodes|
        ensures NodeIs(x) && (nodes[x].elt in cand.elems <==> s.mark[x] == S.OnCand)
      {
        if x != w {
          Apart(w, x);
        }
        assert nodes[x].elt in was <==> x != w && old(s.mark[x]) == S.OnCand;
      }
    }

    method SetPath(v: nat, w: nat, newCost: uns32)
      requires Static() && S.Sized(g, s) && v < |nodes| && w < |nodes|
      requires forall x :: 0 <= x < |nodes| ==> NodeIs(x)
      modifies `s, nodes[w], nodes[w].elt`cost
      ensures s == Improved(g, old(s), v, w, newCost)
      ensures forall x :: 0 <= x < |nodes| ==> NodeIs(x)
    {
      var W := nodes[w];
      W.tDirect := v in roots;
      W.elt.cost := W.elt.cost.(cost0 := newCost, cost1 := 0, tie1 := W.lsaType);
      W.tState := S.OnCand;
      W.tMpath := [];
      s := Improved(g, s, v, w, newCost);
      forall x | 0 <= x < |nodes|
        ensures NodeIs(x)
      {
        assert old(NodeIs(x));
        if x != w {
          Apart(w, x);
        }
      }
    }

    // Another path of the same cost.
    method AlsoVia(cand: P.PriQ, v: nat, w: nat)
      requires Coupled(cand) && v < |nodes| && w < |nodes| && s.mark[w] == S.OnCand
      modifies `s, nodes[w]
      ensures Coupled(cand) && s == SameCost(g, old(s), v, w)
    {
      if v in roots {
        nodes[w].tDirect := true;
      }
      s := SameCost(g, s, v, w);
      forall x | 0 <= x < |nodes|
        ensures NodeIs(x)
      {
        assert old(NodeIs(x));
        if x != w {
          Apart(w, x);
        }
      }
    }

    // Merges the next hops of link i of v into those of w.
    method AddNextHop(cand: P.PriQ, v: nat, i: nat, w: nat)
      requires Coupled(cand) && v < |nodes| && w < |nodes| && s.mark[v] == S.OnTree && s.mark[w] == S.OnCand
      requires S.Entry(s.mpath[v]) && S.Entry(s.mpath[w])
      modifies `s, nodes[w]
      ensures Coupled(cand)
      ensures s == ViaHop(g, old(s), v, i, w)
    {
      assert NodeIs(v) && NodeIs(w);
      assert S.Entry(g.hop(v, i, w, s.mpath[v]));
      var newNh := g.hop(v, i, w, nodes[v].tMpath);
      nodes[w].tMpath := Merge(nodes[w].tMpath, newNh);
      s := ViaHop(g, s, v, i, w);
      R.MergedFits(old(nodes[w].tMpath), newNh);
      forall x | 0 <= x < |nodes|
        ensures NodeIs(x)
      {
        assert old(NodeIs(x));
        if x != w {
          Apart(w, x);
        }
      }
    }

    // ---- What the routing table entries are offered

    // What node v, taken off at distance d with next hops m, offers before its links from number i on.
    ghost function NodeOffers(v: nat, d: nat, m: seq<NH>, i: nat): seq<R.Given>
      requires Static() && v < |nodes| && i <= |g.links[v]|
    {
      if i == 0 then
        [R.Given(dest[v], R.Offer(Word(d), area[v], if v in g.roots then R.NoHop else R.NewHops(m)))]
      else
        NodeOffers(v, d, m, i - 1) + StubOffer(v, d, m, i - 1)
    }

    ghost function StubOffer(v: nat, d: nat, m: seq<NH>, i: nat): seq<R.Given>
      requires Static() && v < |nodes| && i < |g.links[v]|
    {
      match g.links[v][i]
      case Transit(_, _) => []
      case Stub(k, c) =>
        if k < 0 then []
        else [R.Given(k, R.Offer(Word(d + c), area[v], R.NewHops(if v in g.roots then stubHop(v, i) else m)))]
    }

    // What the first n nodes taken off offer.
    ghost function AllOffers(order: seq<nat>, popped: seq<S.Found>, n: nat): seq<R.Given>
      requires Static() && n <= |order| == |popped| && forall k :: 0 <= k < |order| ==> order[k] < |nodes|
    {
      if n == 0 then []
      else
        var v := order[n - 1];
        AllOffers(order, popped, n - 1) + NodeOffers(v, popped[n - 1].dist, popped[n - 1].mpath, |g.links[v]|)
    }

    lemma {:induction false} OffersGrow(order: seq<nat>, popped: seq<S.Found>, v: nat, f: S.Found, n: nat)
      requires Static() && n <= |order| == |popped| && v < |nodes| && forall k :: 0 <= k < |order| ==>
               order[k] < |nodes|
      ensures AllOffers(order + [v], popped + [f], n) == AllOffers(order, popped, n)
    {
      if n > 0 {
        OffersGrow(order, popped, v, f, n - 1);
        assert (order + [v])[n - 1] == order[n - 1] && (popped + [f])[n - 1] == popped[n - 1];
      }
    }

    lemma OffersNext(order: seq<nat>, popped: seq<S.Found>, v: nat, f: S.Found)
      requires Static() && |order| == |popped| && v < |nodes| && forall k :: 0 <= k < |order| ==> order[k] < |nodes|
      ensures AllOffers(order + [v], popped + [f], |order| + 1)
           == AllOffers(order, popped, |order|) + NodeOffers(v, f.dist, f.mpath, |g.links[v]|)
    {
      OffersGrow(order, popped, v, f, |order|);
      assert (order + [v])[|order|] == v && (popped + [f])[|order|] == f;
    }

    // Takes v's own offer, then scans its links.
    method ScanNode(cand: P.PriQ, v: nat)
      requires Coupled(cand) && table.Valid() && S.Inv(g, s, v, 0) && S.Current(g, s, v)
      modifies `s, table`log, cand, ids.Keys, nodes, table.rtes
      ensures Coupled(cand) && table.Valid() && S.Inv(g, s, -1, 0)
      ensures s.order == old(s.order) && s.popped == old(s.popped)
      ensures table.log == old(table.log) + NodeOffers(v, old(s.dist[v]), old(s.mpath[v]), |g.links[v]|)
    {
      NoWrap(g, s, v, 0);
      ghost var log := table.log;
      OfferNode(v);
      ScanLinks(cand, v, log);
    }

    method ScanLinks(cand: P.PriQ, v: nat, ghost log: seq<R.Given>)
      requires Coupled(cand) && table.Valid() && S.Inv(g, s, v, 0) && S.Current(g, s, v)
      requires table.log == log + NodeOffers(v, s.dist[v], s.mpath[v], 0)
      modifies `s, table`log, cand, ids.Keys, nodes, table.rtes
      ensures Coupled(cand) && table.Valid() && S.Inv(g, s, -1, 0)
      ensures s.order == old(s.order) && s.popped == old(s.popped)
      ensures table.log == log + NodeOffers(v, old(s.dist[v]), old(s.mpath[v]), |g.links[v]|)
    {
      ghost var d, m := s.dist[v], s.mpath[v];
      var n, i: nat := |nodes[v].links|, 0;
      assert n == |g.links[v]|;
      while i < n
        invariant i <= |g.links[v]| && Coupled(cand) && table.Valid() && S.Inv(g, s, v, i) && S.Current(g, s, v)
        invariant s.order == old(s.order) && s.popped == old(s.popped) && s.dist[v] == d && s.mpath[v] == m
        invariant table.log == log + NodeOffers(v, d, m, i)
      {
        ScanStep(cand, v, i, log);
        i := i + 1;
      }
      assert i == n;
      S.NodeDone(g, s, v);
    }

    method ScanStep(cand: P.PriQ, v: nat, i: nat, ghost log: seq<R.Given>)
      requires Coupled(cand) && table.Valid() && S.Inv(g, s, v, i) && S.Current(g, s, v) && i < |g.links[v]|
      requires table.log == log + NodeOffers(v, s.dist[v], s.mpath[v], i)
      modifies `s, table`log, cand, ids.Keys, nodes, table.rtes
      ensures Coupled(cand) && table.Valid() && S.Inv(g, s, v, i + 1) && S.Current(g, s, v)
      ensures s.order == old(s.order) && s.popped == old(s.popped) && s.dist[v] == old(s.dist[v])
              && s.mpath[v] == old(s.mpath[v])
      ensures table.log == log + NodeOffers(v, s.dist[v], s.mpath[v], i + 1)
    {
      NoWrap(g, s, v, i);
      S.ScanInv(g, s, v, i);
      Associate(log, NodeOffers(v, s.dist[v], s.mpath[v], i), StubOffer(v, s.dist[v], s.mpath[v], i));
      ScanLink(cand, v, i);
    }

    method OfferNode(v: nat)
      requires Static() && S.Sized(g, s) && table.Valid() && v < |nodes| && NodeIs(v) && s.mark[v] == S.OnTree
      requires s.dist[v] < 0x1_0000_0000
      modifies table`log, table.rtes
      ensures table.Valid() && table.log == old(table.log) + NodeOffers(v, s.dist[v], s.mpath[v], 0)
    {
      var hops := if v in roots then R.NoHop else R.NewHops(nodes[v].tMpath);
      table.Offer(dest[v], R.Offer(nodes[v].elt.cost.cost0, area[v], hops));
    }

    // One link of v: a stub is offered to its entry; a transit link may improve its neighbour.
    method ScanLink(cand: P.PriQ, v: nat, i: nat)
      requires Coupled(cand) && table.Valid() && v < |nodes| && i < |g.links[v]| && s.mark[v] == S.OnTree
               && Fits(g, s, v, i)
      modifies `s, table`log, cand, ids.Keys, nodes, table.rtes
      ensures Coupled(cand) && table.Valid() && s == S.ScanOne(g, old(s), v, i)
      ensures table.log == old(table.log) + StubOffer(v, old(s.dist[v]), old(s.mpath[v]), i)
    {
      assert g.LinkOk(v, g.links[v][i]) && NodeIs(v);
      match nodes[v].links[i]
      case Stub(k, c) =>
        if k >= 0 {
          OfferStub(v, i, k, c);
        }
      case Transit(w, c) =>
        if w >= 0 {
          ScanTransit(cand, v, i, w);
        }
    }

    method OfferStub(v: nat, i: nat, k: nat, c: nat)
      requires Static() && S.Sized(g, s) && table.Valid() && v < |nodes| && NodeIs(v) && s.mark[v] == S.OnTree
      requires i < |g.links[v]| && g.links[v][i] == S.Stub(k, c)
      modifies table`log, table.rtes
      ensures table.Valid() && table.log == old(table.log) + StubOffer(v, s.dist[v], s.mpath[v], i)
    {
      var cost := Word(nodes[v].elt.cost.cost0 + c);
      table.Offer(k, R.Offer(cost, area[v], R.NewHops(if v in roots then stubHop(v, i) else nodes[v].tMpath)));
    }

    // ---- The whole calculation

    // Puts our own router-LSAs on the candidate list.
    method DijkInit(cand: P.PriQ)
      requires Static() && cand.Valid() && cand.elems == {} && S.Sized(g, s) && Fresh(s, 0)
      requires forall w :: 0 <= w < |nodes| ==> NodeIs(w)
      modifies `s, cand, ids.Keys, nodes
      ensures Coupled(cand) && S.Inv(g, s, -1, 0) && s.order == [] && s.popped == []
    {
      var i := 0;
      while i < |roots|
        invariant 0 <= i <= |roots| && Coupled(cand) && Fresh(s, i)
      {
        AddRoot(cand, i);
        i := i + 1;
      }
      FreshInv();
    }

    // Nothing is known but the first k roots.
    ghost predicate Fresh(s: S.View, k: nat)
      requires Static() && S.Sized(g, s)
    {
      && s.order == [] && s.popped == [] && k <= |roots|
      && forall w :: 0 <= w < |s.mark| ==>
           && s.mark[w] == (if w in roots[..k] then S.OnCand else S.Uninit)
           && s.dist[w] == 0 && s.hops[w] == {} && s.mpath[w] == [] && !s.direct[w]
    }

    lemma FreshInv()
      requires Static() && S.Sized(g, s) && Fresh(s, |roots|)
      ensures S.Inv(g, s, -1, 0)
    {
      assert roots[..|roots|] == roots;
      S.StartInv(g, s);
    }

    method AddRoot(cand: P.PriQ, i: nat)
      requires Coupled(cand) && i < |roots| && Fresh(s, i)
      modifies `s, cand, ids.Keys, nodes
      ensures Coupled(cand) && Fresh(s, i + 1)
    {
      hide P.PriQ.Valid;
      var r := roots[i];
      assert r in g.roots && r !in roots[..i];
      assert roots[..i + 1] == roots[..i] + [r];
      SetRoot(r);
      ghost var was := cand.elems;
      cand.Add(nodes[r].elt);
      forall x | 0 <= x < |nodes|
        ensures NodeIs(x) && (nodes[x].elt in cand.elems <==> s.mark[x] == S.OnCand)
      {
        if x != r {
          Apart(r, x);
        }
        assert nodes[x].elt in was <==> old(s.mark[x]) == S.OnCand;
      }
    }

    method SetRoot(r: nat)
      requires Static() && S.Sized(g, s) && r < |nodes| && r in g.roots && s.dist[r] == 0
      requires forall x :: 0 <= x < |nodes| ==> NodeIs(x)
      modifies `s, nodes[r], nodes[r].elt`cost
      ensures s == old(s).(mark := old(s).mark[r := S.OnCand])
      ensures forall x :: 0 <= x < |nodes| ==> NodeIs(x)
    {
      assert NodeIs(r);
      nodes[r].elt.cost := nodes[r].elt.cost.(cost0 := 0, cost1 := 0, tie1 := nodes[r].lsaType);
      nodes[r].tState := S.OnCand;
      s := s.(mark := s.mark[r := S.OnCand]);
      forall x | 0 <= x < |nodes|
        ensures NodeIs(x)
      {
        assert old(NodeIs(x));
        if x != r {
          Apart(r, x);
        }
      }
    }

    // The element on top of the candidate list comes first; no element, no candidate.
    lemma TopIsFirst(cand: P.PriQ)
      requires Coupled(cand) && S.Inv(g, s, -1, 0)
      ensures cand.root == null ==> S.Done(g, s)
      ensures cand.root != null ==> cand.root in ids && S.First(g, s, ids[cand.root])
    {
      cand.RootIsLeast();
      if cand.root == null {
        assert forall w :: 0 <= w < |nodes| ==> nodes[w].elt !in cand.elems;
      } else {
        var v := ids[cand.root];
        assert NodeIs(v);
        forall w | 0 <= w < |s.mark| && s.mark[w] == S.OnCand
          ensures s.dist[v] <= s.dist[w] && (g.kind[v] == S.RTR && g.kind[w] == S.NET ==> s.dist[v] < s.dist[w])
        {
          assert NodeIs(w) && nodes[w].elt in cand.elems;
        }
      }
    }

    // Takes the first node off the candidate list and puts it on the tree.
    method SettleNext(cand: P.PriQ) returns (found: bool, v: nat)
      requires Coupled(cand) && S.Inv(g, s, -1, 0)
      modifies `s, cand, ids.Keys`left, ids.Keys`right, ids.Keys`parent, nodes`tState
      ensures Coupled(cand)
      ensures !found ==> s == old(s) && S.Done(g, s)
      ensures found ==> S.First(g, old(s), v) && s == S.Settle(old(s), v)
    {
      hide P.Less, P.PriQ.Valid, S.Inv;
      TopIsFirst(cand);
      var top := cand.RmHead();
      if top == null {
        return false, 0;
      }
      v := ids[top];
      found := true;
      PutOnTree(v);
      forall x | 0 <= x < |nodes|
        ensures nodes[x].elt in cand.elems <==> s.mark[x] == S.OnCand
      {
        if x != v {
          Apart(v, x);
        }
      }
    }

    method PutOnTree(v: nat)
      requires Static() && S.Sized(g, s) && v < |nodes| && s.mark[v] == S.OnCand
      requires forall x :: 0 <= x < |nodes| ==> NodeIs(x)
      modifies `s, {nodes[v]}`tState
      ensures s == S.Settle(old(s), v)
      ensures forall x :: 0 <= x < |nodes| ==> NodeIs(x)
    {
      nodes[v].tState := S.OnTree;
      s := S.Settle(s, v);
      forall x | 0 <= x < |nodes|
        ensures NodeIs(x)
      {
        assert old(NodeIs(x));
        if x != v {
          Apart(v, x);
        }
      }
    }

    method ResetNodes()
      requires Static() && forall w :: 0 <= w < |nodes| ==> |nodes[w].tMpath| <= MAXPATH
      modifies nodes`tState
      ensures forall w :: 0 <= w < |nodes| ==> nodes[w].tState == S.Uninit
    {
      var i := 0;
      while i < |nodes|
        invariant 0 <= i <= |nodes|
        invariant forall w :: 0 <= w < i ==> nodes[w].tState == S.Uninit
      {
        nodes[i].tState := S.Uninit;
        i := i + 1;
      }
    }

    // The fields of all nodes say what the view says.
    ghost predicate NodesAre()
      reads `s, nodes`tState, nodes`tDirect, nodes`tMpath, ids.Keys`cost
    {
      Static() && S.Sized(g, s) && forall w :: 0 <= w < |nodes| ==> NodeIs(w)
    }

    // One run: afterwards the nodes taken off are the reachable ones, with their distances and next hops in their
    // fields, and every entry is what their offers have made of it.
    method RunDijkstra()
      requires Static() && forall w :: 0 <= w < |nodes| ==> |nodes[w].tMpath| <= MAXPATH
      requires table.Distinct()
      modifies `s, ids.Keys, nodes, table, table.rtes
      ensures S.Done(g, s) && NodesAre() && table.Valid()
      ensures table.log == AllOffers(s.order, s.popped, |s.order|)
      ensures table.nDijkstras == old(table.nDijkstras) + 1
      ensures forall k :: 0 <= k < |table.rtes| ==> table.base[k] == old(table.rtes[k].State())
      ensures forall w :: 0 <= w < |nodes| ==> |nodes[w].tMpath| <= MAXPATH
    {
      hide Coupled, S.Done, S.Inv, StubOffer, AllOffers, NodesAre;
      var cand := Begin();
      NothingYet();
      SettleAll(cand);
      PathsFit(cand);
    }

    // Nodes are taken off until none is left.
    method SettleAll(cand: P.PriQ)
      requires Coupled(cand) && table.Valid() && S.Inv(g, s, -1, 0)
      requires table.log == AllOffers(s.order, s.popped, |s.order|)
      modifies `s, table`log, cand, ids.Keys, nodes, table.rtes
      ensures Coupled(cand) && table.Valid() && S.Done(g, s)
      ensures table.log == AllOffers(s.order, s.popped, |s.order|)
    {
      hide Coupled, S.Done, S.Inv, StubOffer, AllOffers, Static;
      RoundFacts(cand);
      while true
        invariant Static() && |s.order| == |s.popped| && |s.order| <= |nodes|
        invariant forall k :: 0 <= k < |s.order| ==> s.order[k] < |nodes|
        invariant Coupled(cand) && table.Valid() && S.Inv(g, s, -1, 0)
        invariant table.log == AllOffers(s.order, s.popped, |s.order|)
        decreases |nodes| - |s.order|
      {
        var more := SettleAndScan(cand);
        if !more {
          break;
        }
        RoundFacts(cand);
      }
    }

    lemma RoundFacts(cand: P.PriQ)
      requires Coupled(cand) && S.Inv(g, s, -1, 0)
      ensures Static() && |s.order| == |s.popped| && |s.order| <= |nodes|
      ensures forall k :: 0 <= k < |s.order| ==> s.order[k] < |nodes|
    {
      SettledFew(g, s);
    }

    lemma NothingYet()
      requires Static()
      ensures AllOffers([], [], 0) == []
    {
    }

    lemma PathsFit(cand: P.PriQ)
      requires Coupled(cand)
      ensures NodesAre() && forall w :: 0 <= w < |nodes| ==> |nodes[w].tMpath| <= MAXPATH
    {
      forall w | 0 <= w < |nodes|
        ensures |nodes[w].tMpath| <= MAXPATH
      {
        assert NodeIs(w);
      }
    }

    // The state the run starts from.
    method Begin() returns (cand: P.PriQ)
      requires Static() && forall w :: 0 <= w < |nodes| ==> |nodes[w].tMpath| <= MAXPATH
      requires table.Distinct()
      modifies `s, ids.Keys, nodes, table
      ensures fresh(cand) && Coupled(cand) && table.Valid() && S.Inv(g, s, -1, 0)
      ensures s.order == [] && s.popped == [] && table.log == []
      ensures table.nDijkstras == old(table.nDijkstras) + 1
      ensures forall k :: 0 <= k < |table.rtes| ==> table.base[k] == old(table.rtes[k].State())
    {
      table.NextRun();
      cand := StartSearch();
    }

    method StartSearch() returns (cand: P.PriQ)
      requires Static() && forall w :: 0 <= w < |nodes| ==> |nodes[w].tMpath| <= MAXPATH
      modifies `s, ids.Keys, nodes
      ensures fresh(cand) && Coupled(cand) && S.Inv(g, s, -1, 0) && s.order == [] && s.popped == []
    {
      ResetNodes();
      cand := new P.PriQ();
      s := Blank(|nodes|);
      DijkInit(cand);
    }

    method SettleAndScan(cand: P.PriQ) returns (more: bool)
      requires Coupled(cand) && table.Valid() && S.Inv(g, s, -1, 0)
      requires table.log == AllOffers(s.order, s.popped, |s.order|)
      modifies `s, table`log, cand, ids.Keys, nodes, table.rtes
      ensures Coupled(cand) && table.Valid() && S.Inv(g, s, -1, 0)
      ensures table.log == AllOffers(s.order, s.popped, |s.order|)
      ensures if more then |old(s.order)| < |s.order| <= |nodes| else S.Done(g, s)
    {
      var v;
      more, v := SettleFirst(cand);
      if more {
        ScanNode(cand, v);
        SettledFew(g, s);
      }
    }

    method SettleFirst(cand: P.PriQ) returns (found: bool, v: nat)
      requires Coupled(cand) && table.Valid() && S.Inv(g, s, -1, 0)
      requires table.log == AllOffers(s.order, s.popped, |s.order|)
      modifies `s, cand, ids.Keys`left, ids.Keys`right, ids.Keys`parent, nodes`tState
      ensures Coupled(cand) && table.Valid() && table.log == old(table.log)
      ensures !found ==> s == old(s) && S.Done(g, s)
      ensures found ==> S.Inv(g, s, v, 0) && S.Current(g, s, v) && |s.order| == |old(s.order)| + 1
      ensures found ==>
                AllOffers(s.order, s.popped, |s.order|) == table.log + NodeOffers(v, s.dist[v], s.mpath[v],
                    |g.links[v]|)
    {
      hide AllOffers, Static;
      ghost var was := s;
      found, v := SettleNext(cand);
      if found {
        SettleOffers(was, v);
      }
    }

    lemma SettleOffers(was: S.View, v: nat)
      requires Static() && S.Inv(g, was, -1, 0) && S.First(g, was, v)
      ensures var t := S.Settle(was, v);
              && S.Inv(g, t, v, 0) && S.Current(g, t, v) && |t.order| == |t.popped| == |was.order| + 1
              && |was.popped| == |was.order| && (forall k :: 0 <= k < |t.order| ==> t.order[k] < |nodes|)
              && AllOffers(t.order, t.popped, |t.order|) ==
                 AllOffers(was.order, was.popped, |was.order|) + NodeOffers(v, t.dist[v], t.mpath[v], |g.links[v]|)
    {
      S.SettleInv(g, was, v);
      SettledFew(g, was);
      OffersNext(was.order, was.popped, v, S.Found(was.dist[v], was.hops[v], was.mpath[v]));
    }

    // The calculation and the scan of the routing table after it.
    method FullCalculation()
      requires Static() && forall w :: 0 <= w < |nodes| ==> |nodes[w].tMpath| <= MAXPATH
      requires table.Distinct()
      modifies `s, ids.Keys, nodes, table, table.rtes
      ensures S.Done(g, s) && NodesAre() && table.nDijkstras == old(table.nDijkstras) + 1
      ensures table.log == AllOffers(s.order, s.popped, |s.order|)
      ensures forall k :: 0 <= k < |table.rtes| ==>
                var run := table.nDijkstras;
                table.rtes[k].State() == R.Scanned(R.OfferedAll(old(table.rtes[k].State()), run, R.For(table.log, k)),
                    run)
    {
      hide S.Done, S.Sized, Static;
      RunDijkstra();
      table.ScanAll();
    }

    // ---- What the offers of a finished run say

    // A route to entry k over a vertex v at shortest distance d: the entry of v itself, or a stub of v.
    ghost predicate RouteVia(k: int, v: nat, d: nat, cost: nat)
      requires Static()
    {
      && v < |nodes| && S.Shortest(g, v, d)
      && ((dest[v] == k && cost == d)
          || exists i, c :: 0 <= i < |g.links[v]| && g.links[v][i] == S.Stub(k, c) && cost == d + c)
    }

    ghost predicate RouteCost(k: int, cost: nat)
      requires Static()
    {
      exists v: nat, d: nat :: RouteVia(k, v, d, cost)
    }

    ghost predicate ViaNode(v: nat, d: nat, i: nat, k: int, cost: nat)
      requires Static() && v < |nodes| && i <= |g.links[v]|
    {
      (dest[v] == k && cost == d) || exists j, c :: 0 <= j < i && g.links[v][j] == S.Stub(k, c) && cost == d + c
    }

    lemma {:induction false} NodeOffersCosts(v: nat, d: nat, m: seq<NH>, i: nat, k: nat, cost: nat)
      requires Static() && v < |nodes| && i <= |g.links[v]| && d + S.MAX_COST < 0x1_0000_0000
      ensures OfferedCost(NodeOffers(v, d, m, i), k, cost) <==> ViaNode(v, d, i, k, cost)
    {
      if i > 0 {
        NodeOffersCosts(v, d, m, i - 1, k, cost);
        assert g.LinkOk(v, g.links[v][i - 1]);
        var a, b := NodeOffers(v, d, m, i - 1), StubOffer(v, d, m, i - 1);
        CostConcat(a, b, k, cost);
        if OfferedCost(b, k, cost) {
          assert g.links[v][i - 1] == S.Stub(k, cost - d);
        }
        if ViaNode(v, d, i, k, cost) && !ViaNode(v, d, i - 1, k, cost) {
          assert g.links[v][i - 1] == S.Stub(k, cost - d);
          assert b[0].entry == k && b[0].offer.cost == cost;
        }
      } else {
        assert NodeOffers(v, d, m, 0)[0].entry == dest[v] && NodeOffers(v, d, m, 0)[0].offer.cost == d;
      }
    }

    lemma {:induction false} AllOffersCosts(order: seq<nat>, popped: seq<S.Found>, n: nat, k: nat, cost: nat)
      requires Static() && n <= |order| == |popped| && (forall j :: 0 <= j < |order| ==> order[j] < |nodes|)
      requires forall j :: 0 <= j < |order| ==> popped[j].dist + S.MAX_COST < 0x1_0000_0000
      ensures OfferedCost(AllOffers(order, popped, n), k, cost) <==>
              exists j :: 0 <= j < n && ViaNode(order[j], popped[j].dist, |g.links[order[j]]|, k, cost)
    {
      if n > 0 {
        var v, f := order[n - 1], popped[n - 1];
        AllOffersCosts(order, popped, n - 1, k, cost);
        NodeOffersCosts(v, f.dist, f.mpath, |g.links[v]|, k, cost);
        CostConcat(AllOffers(order, popped, n - 1), NodeOffers(v, f.dist, f.mpath, |g.links[v]|), k, cost);
      }
    }

    // A node at a shortest distance has been taken off, at that distance,
    lemma ShortestTaken(v: nat, d: nat) returns (j: nat)
      requires Static() && S.Done(g, s) && S.Shortest(g, v, d)
      ensures j < |s.order| == |s.popped| && s.order[j] == v && s.popped[j].dist == d
    {
      S.ShortestFound(g, s);
      var p :| S.IsPath(g, p) && S.End(p) == v && S.Length(g, p) == d;
      assert S.Reachable(g, v);
      S.ShortestUnique(g, v, d, s.dist[v]);
      j := s.pos[v];
    }

    // and each distance at which a node was taken off is a shortest one.
    lemma TakenShortest(j: nat)
      requires Static() && S.Done(g, s) && j < |s.order|
      ensures |s.order| == |s.popped| && S.Shortest(g, s.order[j], s.popped[j].dist)
    {
      hide S.Shortest;
      S.ShortestFound(g, s);
      assert s.order[j] in s.order;
    }

    // The costs a finished run has offered an entry are those of its routes over shortest paths.
    lemma OffersAreRoutes(k: nat, cost: nat)
      requires Static() && S.Done(g, s)
      ensures |s.order| == |s.popped| && forall j :: 0 <= j < |s.order| ==> s.order[j] < |nodes|
      ensures OfferedCost(AllOffers(s.order, s.popped, |s.order|), k, cost) <==> RouteCost(k, cost)
    {
      hide S.Shortest, OfferedCost, AllOffers;
      SettledFew(g, s);
      AllOffersCosts(s.order, s.popped, |s.order|, k, cost);
      if RouteCost(k, cost) {
        var v: nat, d: nat :| RouteVia(k, v, d, cost);
        var j := ShortestTaken(v, d);
        assert ViaNode(s.order[j], s.popped[j].dist, |g.links[s.order[j]]|, k, cost);
      }
      if j :| 0 <= j < |s.order| && ViaNode(s.order[j], s.popped[j].dist, |g.links[s.order[j]]|, k, cost) {
        TakenShortest(j);
        assert RouteVia(k, s.order[j], s.popped[j].dist, cost);
      }
    }

    // Only the entries of our own router-LSAs are offered no next hops.
    lemma {:induction false} HopsOffered(order: seq<nat>, popped: seq<S.Found>, n: nat, k: nat)
      requires Static() && n <= |order| == |popped| && forall j :: 0 <= j < |order| ==> order[j] < |nodes|
      requires forall r :: r in g.roots ==> dest[r] != k
      ensures WithHops(AllOffers(order, popped, n), k)
    {
      if n > 0 {
        HopsOffered(order, popped, n - 1, k);
        NodeHops(order[n - 1], popped[n - 1].dist, popped[n - 1].mpath, |g.links[order[n - 1]]|, k);
      }
    }

    lemma {:induction false} NodeHops(v: nat, d: nat, m: seq<NH>, i: nat, k: nat)
      requires Static() && v < |nodes| && i <= |g.links[v]| && forall r :: r in g.roots ==> dest[r] != k
      ensures WithHops(NodeOffers(v, d, m, i), k)
    {
      if i > 0 {
        NodeHops(v, d, m, i - 1, k);
      }
    }

    // After a full calculation, an entry that this run has made intra-area has the least cost of all routes
    // to it over shortest paths; without such a route it is not intra-area.
    lemma LeastRoute(e: R.Entry, k: nat, run: nat)
      requires Static() && S.Done(g, s) && e.rType != R.RtDirect && !R.Current(e, run)
      requires |s.order| == |s.popped| && forall j :: 0 <= j < |s.order| ==> s.order[j] < |nodes|
      requires forall r :: r in g.roots ==> dest[r] != k
      ensures var f := R.Scanned(R.OfferedAll(e, run, R.For(AllOffers(s.order, s.popped, |s.order|), k)), run);
              f.rType == R.RtSpf ==> RouteCost(k, f.cost) && forall c: nat :: RouteCost(k, c) ==> f.cost <= c
    {
      hide AllOffers;
      var log := AllOffers(s.order, s.popped, |s.order|);
      var os := R.For(log, k);
      if os != [] {
        HopsOffered(s.order, s.popped, |s.order|, k);
        ForHops(log, k);
        R.BestOffer(e, run, os);
        var f := R.OfferedAll(e, run, os);
        ForMembers(log, k, f.cost);
        OffersAreRoutes(k, f.cost);
        forall c: nat | RouteCost(k, c)
          ensures f.cost <= c
        {
          OffersAreRoutes(k, c);
          ForMembers(log, k, c);
        }
      }
    }

    // The same after any history of runs and other changes of the entry.
    lemma LeastRouteEver(e: R.Entry, evs: seq<R.Event>, k: nat)
      requires Static() && S.Done(g, s) && R.History(e, evs) && e.rType != R.RtSpf
      requires R.After(e, evs).rType != R.RtDirect && forall r :: r in g.roots ==> dest[r] != k
      requires |s.order| == |s.popped| && forall j :: 0 <= j < |s.order| ==> s.order[j] < |nodes|
      ensures var run := R.FullCalculation(R.For(AllOffers(s.order, s.popped, |s.order|), k));
              var f := R.After(e, evs + [run]);
              f.rType == R.RtSpf ==> RouteCost(k, f.cost) && forall c: nat :: RouteCost(k, c) ==> f.cost <= c
    {
      hide AllOffers, S.Done;
      var all := evs + [R.FullCalculation(R.For(AllOffers(s.order, s.popped, |s.order|), k))];
      assert all[..|all| - 1] == evs;
      R.MarkerIsLatest(e, evs);
      LeastRoute(R.After(e, evs), k, R.Runs(all));
    }

    // ---- The next hops a finished run offers

    // A next hop that v offers entry k at this cost, by itself or one of its first i links: a node offers those it was
    // taken off with; we offer none for ourselves, and for our own stubs those of the interface.
    ghost predicate NodeHop(v: nat, f: S.Found, i: nat, k: nat, x: NH, cost: nat)
      requires Static() && v < |nodes| && i <= |g.links[v]|
    {
      || (dest[v] == k && cost == f.dist && v !in g.roots && x in f.mpath)
      || exists j, c :: 0 <= j < i && g.links[v][j] == S.Stub(k, c) && cost == f.dist + c
                        && x in if v in g.roots then stubHop(v, j) else f.mpath
    }

    ghost predicate RouteHop(k: nat, x: NH, cost: nat)
      reads `s
      requires Static() && |s.order| == |s.popped| && forall j :: 0 <= j < |s.order| ==> s.order[j] < |nodes|
    {
      exists j :: 0 <= j < |s.order| && NodeHop(s.order[j], s.popped[j], |g.links[s.order[j]]|, k, x, cost)
    }

    lemma StubOffersHop(v: nat, f: S.Found, i: nat, k: nat, x: NH, cost: nat)
      requires Static() && v < |nodes| && i < |g.links[v]| && f.dist + S.MAX_COST < 0x1_0000_0000
      ensures OfferedHop(StubOffer(v, f.dist, f.mpath, i), k, x, cost) <==>
              && f.dist <= cost && g.links[v][i] == S.Stub(k, cost - f.dist)
              && x in if v in g.roots then stubHop(v, i) else f.mpath
    {
      assert g.LinkOk(v, g.links[v][i]);
      var b := StubOffer(v, f.dist, f.mpath, i);
      assert b == [] || b == [b[0]];
      assert b != [] ==> b[0].offer.hops.NewHops?;
    }

    lemma {:induction false} NodeOffersHops(v: nat, f: S.Found, i: nat, k: nat, x: NH, cost: nat)
      requires Static() && v < |nodes| && i <= |g.links[v]| && f.dist + S.MAX_COST < 0x1_0000_0000
      ensures OfferedHop(NodeOffers(v, f.dist, f.mpath, i), k, x, cost) <==> NodeHop(v, f, i, k, x, cost)
    {
      hide StubOffer;
      if i > 0 {
        NodeOffersHops(v, f, i - 1, k, x, cost);
        StubOffersHop(v, f, i - 1, k, x, cost);
        HopConcat(NodeOffers(v, f.dist, f.mpath, i - 1), StubOffer(v, f.dist, f.mpath, i - 1), k, x, cost);
        hide OfferedHop;
      } else {
        assert NodeOffers(v, f.dist, f.mpath, 0)[0].entry == dest[v];
      }
    }

    lemma {:induction false} AllOffersHops(order: seq<nat>, popped: seq<S.Found>, n: nat, k: nat, x: NH, cost: nat)
      requires Static() && n <= |order| == |popped| && (forall j :: 0 <= j < |order| ==> order[j] < |nodes|)
      requires forall j :: 0 <= j < |order| ==> popped[j].dist + S.MAX_COST < 0x1_0000_0000
      ensures OfferedHop(AllOffers(order, popped, n), k, x, cost) <==>
              exists j :: 0 <= j < n && NodeHop(order[j], popped[j], |g.links[order[j]]|, k, x, cost)
    {
      hide OfferedHop, NodeHop, NodeOffers;
      if n == 0 {
        NoHopOffered(k, x, cost);
      } else {
        var v, f := order[n - 1], popped[n - 1];
        AllOffersHops(order, popped, n - 1, k, x, cost);
        NodeOffersHops(v, f, |g.links[v]|, k, x, cost);
        HopConcat(AllOffers(order, popped, n - 1), NodeOffers(v, f.dist, f.mpath, |g.links[v]|), k, x, cost);
      }
    }

    // After any history of runs and other changes of the entry: the next hops of an entry that a run has made
    // intra-area are offered over shortest paths, at the cost of the entry, and are all of those offered if and only if
    // some set of at most MAXPATH next hops has them all.
    lemma RouteHopsEver(e: R.Entry, evs: seq<R.Event>, k: nat)
      requires Static() && S.Done(g, s) && R.History(e, evs) && e.rType != R.RtSpf
      requires R.After(e, evs).rType != R.RtDirect && forall r :: r in g.roots ==> dest[r] != k
      requires forall v, i :: MultiPath.Sorted(stubHop(v, i))
      ensures |s.order| == |s.popped| && forall j :: 0 <= j < |s.order| ==> s.order[j] < |nodes|
      ensures var run := R.FullCalculation(R.For(AllOffers(s.order, s.popped, |s.order|), k));
              var f := R.After(e, evs + [run]);
              f.rType == R.RtSpf ==>
                && (forall x :: x in f.mpath ==> RouteHop(k, x, f.cost))
                && ((forall x :: RouteHop(k, x, f.cost) ==> x in f.mpath) <==>
                    exists h: set<NH> :: |h| <= MAXPATH && forall x :: RouteHop(k, x, f.cost) ==> x in h)
    {
      hide AllOffers, NodeHop, OfferedHop, R.OfferedHops, R.HopsAt, S.Done;
      SettledFewer();
      var log := AllOffers(s.order, s.popped, |s.order|);
      var os := R.For(log, k);
      HopsOffered(s.order, s.popped, |s.order|, k);
      ForHops(log, k);
      OffersFit(s.order, s.popped, |s.order|, k);
      ForFit(log, k);
      R.RunDecides(e, evs, os);
      var f := R.After(e, evs + [R.FullCalculation(os)]);
      forall x: NH
        ensures x in R.OfferedHops(os, f.cost) <==> RouteHop(k, x, f.cost)
      {
        ForHop(log, k, x, f.cost);
        AllOffersHops(s.order, s.popped, |s.order|, k, x, f.cost);
      }
      if f.rType == R.RtSpf {
        SetSays(f.mpath, R.OfferedHops(os, f.cost));
      }
    }

    lemma SettledFewer()
      requires Static() && S.Done(g, s)
      ensures |s.order| == |s.popped| && forall j :: 0 <= j < |s.order| ==> s.order[j] < |nodes|
      ensures forall j :: 0 <= j < |s.order| ==>
                s.popped[j].dist + S.MAX_COST < 0x1_0000_0000 && S.Entry(s.popped[j].mpath)
    {
      SettledFew(g, s);
      forall j | 0 <= j < |s.order|
        ensures S.Entry(s.popped[j].mpath)
      {
        assert S.Marked(s, s.order[j]) && S.PathOk(g, s, s.order[j]);
      }
    }

    // Every offer of a node comes through the area of that node.
    lemma {:induction false} NodeAreas(v: nat, d: nat, m: seq<NH>, i: nat)
      requires Static() && v < |nodes| && i <= |g.links[v]|
      ensures forall o :: o in NodeOffers(v, d, m, i) ==> o.offer.area == area[v]
    {
      if i > 0 {
        NodeAreas(v, d, m, i - 1);
      }
    }

    // All next hops offered are entries.
    lemma {:induction false} OffersFit(order: seq<nat>, popped: seq<S.Found>, n: nat, k: nat)
      requires Static() && n <= |order| == |popped| && (forall j :: 0 <= j < |order| ==> order[j] < |nodes|)
      requires forall v, i :: MultiPath.Sorted(stubHop(v, i))
      requires forall j :: 0 <= j < |order| ==> S.Entry(popped[j].mpath)
      ensures FitHops(AllOffers(order, popped, n))
    {
      if n > 0 {
        OffersFit(order, popped, n - 1, k);
        NodeFit(order[n - 1], popped[n - 1], |g.links[order[n - 1]]|);
      }
    }

    lemma {:induction false} NodeFit(v: nat, f: S.Found, i: nat)
      requires Static() && v < |nodes| && i <= |g.links[v]| && S.Entry(f.mpath)
      requires forall v, i :: MultiPath.Sorted(stubHop(v, i))
      ensures FitHops(NodeOffers(v, f.dist, f.mpath, i))
    {
      if i > 0 {
        NodeFit(v, f, i - 1);
      }
    }
  }

  // An offer of this next hop and cost to entry k.
  ghost predicate OfferedHop(log: seq<R.Given>, k: nat, x: NH, cost: nat) {
    exists j :: 0 <= j < |log| && log[j].entry == k && log[j].offer.cost == cost && log[j].offer.hops.NewHops?
                && x in log[j].offer.hops.mp
  }

  lemma NoHopOffered(k: nat, x: NH, cost: nat)
    ensures !OfferedHop([], k, x, cost)
  {
  }

  ghost predicate FitHops(log: seq<R.Given>) {
    forall j :: 0 <= j < |log| && log[j].offer.hops.NewHops? ==> S.Entry(log[j].offer.hops.mp)
  }

  lemma HopConcat(a: seq<R.Given>, b: seq<R.Given>, k: nat, x: NH, cost: nat)
    ensures OfferedHop(a + b, k, x, cost) <==> OfferedHop(a, k, x, cost) || OfferedHop(b, k, x, cost)
  {
    assert forall j :: 0 <= j < |a| ==> (a + b)[j] == a[j];
    assert forall j :: 0 <= j < |b| ==> (a + b)[|a| + j] == b[j];
  }

  lemma {:induction false} ForHop(log: seq<R.Given>, k: nat, x: NH, cost: nat)
    requires R.AllHops(R.For(log, k))
    ensures x in R.OfferedHops(R.For(log, k), cost) <==> OfferedHop(log, k, x, cost)
  {
    if log != [] {
      var n := |log| - 1;
      var a, b := R.For(log[..n], k), if log[n].entry == k then [log[n].offer] else [];
      assert R.For(log, k) == a + b;
      assert forall o :: o in a + b <==> o in a || o in b;
      ForHop(log[..n], k, x, cost);
      HopConcat(log[..n], [log[n]], k, x, cost);
      assert log == log[..n] + [log[n]];
      assert OfferedHop([log[n]], k, x, cost) <==>
             log[n].entry == k && log[n].offer.cost == cost && log[n].offer.hops.NewHops? && x in log[n].offer.hops.mp;
    }
  }

  lemma {:induction false} ForFit(log: seq<R.Given>, k: nat)
    requires FitHops(log) && R.AllHops(R.For(log, k))
    ensures R.Fit(R.For(log, k)) && forall o :: o in R.For(log, k) ==> MultiPath.Sorted(o.hops.mp)
  {
    if log != [] {
      var n := |log| - 1;
      var a, b := R.For(log[..n], k), if log[n].entry == k then [log[n].offer] else [];
      assert R.For(log, k) == a + b;
      assert forall o :: o in a + b <==> o in a || o in b;
      ForFit(log[..n], k);
    }
  }

  lemma SetSays(m: seq<NH>, h: set<NH>)
    requires MultiPath.Set(m) <= h && (MultiPath.Set(m) == h <==> |h| <= MAXPATH)
    ensures forall x :: x in m ==> x in h
    ensures (forall x :: x in h ==> x in m) <==> exists g: set<NH> :: |g| <= MAXPATH && forall x :: x in h ==> x in g
  {
    assert forall x :: x in m <==> x in MultiPath.Set(m);
    if g: set<NH> :| |g| <= MAXPATH && forall x :: x in h ==> x in g {
      Smaller(h, g);
    }
    if forall x :: x in h ==> x in m {
      assert MultiPath.Set(m) == h;
      assert |h| <= MAXPATH && forall x :: x in h ==> x in h;
    }
  }

  ghost function Blank(n: nat): S.View {
    S.View(seq(n, _ => S.Uninit), seq(n, _ => 0), seq(n, _ => {}), seq(n, _ => []), seq(n, _ => false), [],
        seq(n, _ => 0), [])
  }

  // An offer of this cost to entry k.
  ghost predicate OfferedCost(log: seq<R.Given>, k: nat, cost: nat) {
    exists j :: 0 <= j < |log| && log[j].entry == k && log[j].offer.cost == cost
  }

  ghost predicate WithHops(log: seq<R.Given>, k: nat) {
    forall j :: 0 <= j < |log| && log[j].entry == k ==> log[j].offer.hops.NewHops?
  }

  lemma {:induction false} ForHops(log: seq<R.Given>, k: nat)
    requires WithHops(log, k)
    ensures R.AllHops(R.For(log, k))
  {
    if log != [] {
      ForHops(log[..|log| - 1], k);
    }
  }

  lemma CostConcat(a: seq<R.Given>, b: seq<R.Given>, k: nat, cost: nat)
    ensures OfferedCost(a + b, k, cost) <==> OfferedCost(a, k, cost) || OfferedCost(b, k, cost)
  {
    assert forall j :: 0 <= j < |a| ==> (a + b)[j] == a[j];
    assert forall j :: 0 <= j < |b| ==> (a + b)[|a| + j] == b[j];
  }

  lemma {:induction false} ForMembers(log: seq<R.Given>, k: nat, cost: nat)
    ensures OfferedCost(log, k, cost) <==> exists o :: o in R.For(log, k) && o.cost == cost
  {
    if log != [] {
      var n := |log| - 1;
      ForMembers(log[..n], k, cost);
      CostConcat(log[..n], [log[n]], k, cost);
      assert log == log[..n] + [log[n]];
      var a, b := R.For(log[..n], k), if log[n].entry == k then [log[n].offer] else [];
      assert R.For(log, k) == a + b;
      assert forall o :: o in a + b <==> o in a || o in b;
    }
  }

  // The steps the program takes to relax a link.
  ghost function Improved(g: S.Graph, s: S.View, v: nat, w: nat, cost: nat): S.View
    requires w < |s.mark| == |s.dist| == |s.direct| == |s.hops| == |s.mpath|
  {
    s.(mark := s.mark[w := S.OnCand], dist := s.dist[w := cost], direct := s.direct[w := v in g.roots],
       hops := s.hops[w := {}], mpath := s.mpath[w := []])
  }

  ghost function SameCost(g: S.Graph, s: S.View, v: nat, w: nat): S.View
    requires w < |s.direct|
  {
    s.(direct := s.direct[w := s.direct[w] || v in g.roots])
  }

  ghost function ViaHop(g: S.Graph, s: S.View, v: nat, i: nat, w: nat): S.View
    requires w < |s.hops| == |s.mpath| && v < |s.mpath|
  {
    s.(hops := s.hops[w := s.hops[w] + {(v, i)}], mpath := s.mpath[w := Merged(s.mpath[w], g.hop(v, i, w, s.mpath[v]))])
  }

  lemma RelaxIs(g: S.Graph, s: S.View, v: nat, i: nat, w: nat)
    requires S.Sized(g, s) && v < |s.mark| && w < |s.mark| && i < |g.links[v]| && v != w
    ensures var cost := s.dist[v] + g.Len(v, i);
            S.Relax(g, s, v, i, w) ==
              if s.mark[w] == S.OnTree || (s.mark[w] == S.OnCand && cost > s.dist[w]) then s
              else if s.mark[w] == S.OnCand && cost == s.dist[w] then ViaHop(g, SameCost(g, s, v, w), v, i, w)
              else ViaHop(g, Improved(g, s, v, w, cost), v, i, w)
  {
    var cost := s.dist[v] + g.Len(v, i);
    var r, t := S.Relax(g, s, v, i, w), ViaHop(g, Improved(g, s, v, w, cost), v, i, w);
    var none: set<(nat, nat)> := {};
    assert none + {(v, i)} == {(v, i)};
    if s.mark[w] != S.OnTree && (s.mark[w] == S.OnCand ==> cost < s.dist[w]) {
      assert r.hops == t.hops && r.mpath == t.mpath;
    }
  }

  lemma RelaxNot(g: S.Graph, s: S.View, v: nat, i: nat, w: nat)
    requires S.Sized(g, s) && v < |s.mark| && w < |s.mark| && i < |g.links[v]| && s.mark[w] == S.OnTree
    ensures S.Relax(g, s, v, i, w) == s
  {
  }

  lemma Associate(a: seq<R.Given>, b: seq<R.Given>, c: seq<R.Given>)
    ensures (a + b) + c == a + (b + c)
  {
  }

  // The costs of the i-th link of v fit thirty-two bits.
  ghost predicate Fits(g: S.Graph, s: S.View, v: nat, i: nat)
    requires S.Sized(g, s) && v < |s.mark|
  {
    && S.Entry(s.mpath[v])
    && s.dist[v] < 0x1_0000_0000
    && forall w: nat :: w < |s.mark| && g.Edge(v, i, w) ==>
         && (s.mark[w] == S.OnCand ==> S.Entry(s.mpath[w]))
         && (s.mark[w] != S.OnTree ==> s.dist[v] + g.Len(v, i) < 0x1_0000_0000)
  }

  lemma NoWrap(g: S.Graph, s: S.View, v: nat, i: nat)
    requires S.Inv(g, s, v, i) && S.Current(g, s, v) && |s.mark| <= 65537
    ensures Fits(g, s, v, i) && |s.order| <= |s.mark|
  {
    assert S.PathOk(g, s, v);
    AllSettled(s.order, |s.mark|);
    forall w: nat | w < |s.mark| && g.Edge(v, i, w)
      ensures s.mark[w] == S.OnCand ==> S.Entry(s.mpath[w])
      ensures s.mark[w] != S.OnTree ==> s.dist[v] + g.Len(v, i) < 0x1_0000_0000
    {
      assert g.LinkOk(v, g.links[v][i]);
      if s.mark[w] == S.OnCand {
        assert S.PathOk(g, s, w);
      }
      if s.mark[w] != S.OnTree {
        FewSettled(s.order, |s.mark|, w);
      }
    }
  }

  lemma SettledFew(g: S.Graph, s: S.View)
    requires S.Inv(g, s, -1, 0)
    ensures |s.order| <= |s.mark| && forall k :: 0 <= k < |s.order| ==> s.order[k] < |s.mark|
  {
    AllSettled(s.order, |s.mark|);
  }

  lemma AllSettled(order: seq<nat>, n: nat)
    requires forall k :: 0 <= k < |order| ==> order[k] < n
    requires forall j, k :: 0 <= j < k < |order| ==> order[j] != order[k]
    ensures |order| <= n
  {
    Smaller(Elems(order), Upto(n));
  }

  lemma FewSettled(order: seq<nat>, n: nat, w: nat)
    requires w < n && w !in order && (forall k :: 0 <= k < |order| ==> order[k] < n)
    requires forall j, k :: 0 <= j < k < |order| ==> order[j] != order[k]
    ensures |order| < n
  {
    Smaller(Elems(order), Upto(n) - {w});
  }

  ghost function Upto(n: nat): (r: set<nat>)
    ensures |r| == n && forall x: nat :: x in r <==> x < n
  {
    if n == 0 then {} else Upto(n - 1) + {n - 1}
  }

  ghost function Elems(s: seq<nat>): (r: set<nat>)
    requires forall j, k :: 0 <= j < k < |s| ==> s[j] != s[k]
    ensures |r| == |s| && forall x :: x in r <==> x in s
  {
    if s == [] then {}
    else
      assert s == s[..|s| - 1] + [s[|s| - 1]];
      Elems(s[..|s| - 1]) + {s[|s| - 1]}
  }

  lemma {:induction false} Smaller<T>(a: set<T>, b: set<T>)
    requires a <= b
    ensures |a| <= |b|
    decreases b
  {
    if a != {} {
      var x :| x in a;
      Smaller(a - {x}, b - {x});
    }
  }
}
