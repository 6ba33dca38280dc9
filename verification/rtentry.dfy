// Intra-area routing table entries (RTE::new_intra and OSPF::rt_scan in spfcalc.C).

module RouteEntries {
  import opened AvlItems
  import opened MultiPath

  const LSInfinity: uns32 := 0xff_ffff

  datatype RType = RtDirect | RtSpf | RtSpfia | RtExt1 | RtExt2 | RtReject | RtStatic | RtNone

  // What a vertex of the tree offers an entry: a cost, through an area, and next hops. Only the
  // calculating router itself has none to offer.
  datatype Offer = Offer(cost: uns32, area: nat, hops: HopUpdate)
  datatype HopUpdate = NoHop | NewHops(mp: seq<NH>)

  datatype Entry = Entry(rType: RType, dijkRun: nat, cost: uns32, area: nat, mpath: seq<NH>, changed: bool)

  // Seen already in this run.
  predicate Current(e: Entry, run: nat) {
    e.rType == RtSpf && e.dijkRun == run % 2
  }

  function Offered(e: Entry, run: nat, o: Offer): Entry {
    if e.rType == RtDirect || (Current(e, run) && o.cost > e.cost) then
      e
    else
      Entry(RtSpf, run % 2, o.cost, o.area,
            match o.hops
            case NoHop => e.mpath
            case NewHops(mp) => if Current(e, run) && o.cost == e.cost then Merged(mp, e.mpath) else mp,
            e.changed || e.rType != RtSpf || e.area != o.area)
  }

  function Unreachable(e: Entry): Entry {
    e.(rType := RtNone, cost := LSInfinity, area := 0, mpath := [])
  }

  // The part of rt_scan that concerns intra-area routes: entries left over from an earlier run go, and so
  // do entries without next hops.
  function Scanned(e: Entry, run: nat): Entry {
    var e1 := if e.rType == RtSpf && e.dijkRun != run % 2 then Unreachable(e).(changed := true) else e;
    if (e1.rType == RtSpf || e1.rType == RtSpfia) && e1.mpath == [] then Unreachable(e1) else e1
  }

  function OfferedAll(e: Entry, run: nat, os: seq<Offer>): Entry {
    if os == [] then e else Offered(OfferedAll(e, run, os[..|os| - 1]), run, os[|os| - 1])
  }

  class RTE {
    var rType: RType
    var dijkRun: nat
    var cost: uns32
    var area: nat
    var mpath: seq<NH>
    var changed: bool

    constructor ()
      ensures State() == Entry(RtNone, 0, 0xffff_ffff, 0, [], false)
    {
      rType, dijkRun, cost, area, mpath, changed := RtNone, 0, 0xffff_ffff, 0, [], false;
    }

    ghost function State(): Entry
      reads `rType, `dijkRun, `cost, `area, `mpath, `changed
    {
      Entry(rType, dijkRun, cost, area, mpath, changed)
    }

    method NewIntra(run: nat, o: Offer)
      requires |mpath| <= MAXPATH && (o.hops.NewHops? ==> |o.hops.mp| <= MAXPATH)
      modifies this
      ensures State() == Offered(old(State()), run, o) && |mpath| <= MAXPATH
    {
      MergedFits(if o.hops.NewHops? then o.hops.mp else [], mpath);
      var merge := false;
      if rType == RtDirect {
        return;
      } else if rType != RtSpf {
        changed := true;
      } else if dijkRun != run % 2 {
        // First time in this run.
      } else if o.cost > cost {
        return;
      } else if o.cost == cost {
        merge := true;
      }
      dijkRun := run % 2;
      if o.area != area {
        changed := true;
      }
      rType := RtSpf;
      cost := o.cost;
      area := o.area;
      if o.hops.NoHop? {
        return;
      }
      var newnh := o.hops.mp;
      if merge {
        newnh := Merge(newnh, mpath);
      }
      mpath := newnh;
    }

    method Scan(run: nat)
      requires |mpath| <= MAXPATH
      modifies this
      ensures State() == Scanned(old(State()), run) && |mpath| <= MAXPATH
    {
      if rType == RtSpf && dijkRun != run % 2 {
        DeclareUnreachable();
        changed := true;
      }
      if (rType == RtSpf || rType == RtSpfia) && mpath == [] {
        DeclareUnreachable();
      }
    }

    method DeclareUnreachable()
      modifies this
      ensures State() == Unreachable(old(State()))
    {
      rType, cost, area, mpath := RtNone, LSInfinity, 0, [];
    }
  }

  lemma MergedFits(a: seq<NH>, b: seq<NH>)
    requires |a| <= MAXPATH && |b| <= MAXPATH
    ensures |Merged(a, b)| <= MAXPATH
  {
  }

  // An offer to the entry with this number.
  datatype Given = Given(entry: int, offer: Offer)

  // The offers made to one entry.
  function For(log: seq<Given>, k: int): seq<Offer> {
    if log == [] then []
    else For(log[..|log| - 1], k) + if log[|log| - 1].entry == k then [log[|log| - 1].offer] else []
  }

  lemma ForStep(log: seq<Given>, x: Given, k: int, e: Entry, run: nat)
    ensures OfferedAll(e, run, For(log + [x], k)) ==
            if x.entry == k then Offered(OfferedAll(e, run, For(log, k)), run, x.offer)
                else OfferedAll(e, run, For(log, k))
  {
    assert (log + [x])[..|log|] == log;
    var os := For(log, k);
    assert (os + [x.offer])[..|os|] == os && os + [] == os;
  }

  // The entries during a run of the Dijkstra calculation.
  class Table {
    const rtes: seq<RTE>
    var nDijkstras: nat
    ghost var base: seq<Entry>  // the entries before the run
    ghost var log: seq<Given>   // the offers made in it

    constructor (rtes: seq<RTE>)
      ensures this.rtes == rtes && nDijkstras == 0
    {
      this.rtes, nDijkstras, base, log := rtes, 0, [], [];
    }

    ghost predicate Distinct()
      reads rtes`mpath
    {
      && (forall j, k :: 0 <= j < k < |rtes| ==> rtes[j] != rtes[k])
      && forall k :: 0 <= k < |rtes| ==> |rtes[k].mpath| <= MAXPATH
    }

    // The entries are what the offers of this run have made of them.
    ghost predicate Valid()
      reads `base, `log, `nDijkstras, rtes`rType, rtes`dijkRun, rtes`cost, rtes`area, rtes`mpath, rtes`changed
    {
      && (forall j, k :: 0 <= j < k < |rtes| ==> rtes[j] != rtes[k])
      && |base| == |rtes| && forall k :: 0 <= k < |rtes| ==> EntryIs(k)
    }

    ghost predicate EntryIs(k: nat)
      requires k < |rtes| == |base|
      reads `base, `log, `nDijkstras, rtes`rType, rtes`dijkRun, rtes`cost, rtes`area, rtes`mpath, rtes`changed
    {
      |rtes[k].mpath| <= MAXPATH && rtes[k].State() == OfferedAll(base[k], nDijkstras, For(log, k))
    }

    method Offer(k: nat, o: Offer)
      requires Valid() && k < |rtes| && (o.hops.NewHops? ==> |o.hops.mp| <= MAXPATH)
      modifies `log, rtes[k]
      ensures Valid() && log == old(log) + [Given(k, o)]
    {
      assert EntryIs(k);
      rtes[k].NewIntra(nDijkstras, o);
      ghost var was := log;
      log := log + [Given(k, o)];
      forall j | 0 <= j < |rtes|
        ensures EntryIs(j)
      {
        assert old(EntryIs(j));
        ForStep(was, Given(k, o), j, base[j], nDijkstras);
      }
    }

    // A new run begins.
    method NextRun()
      requires Distinct()
      modifies this
      ensures Valid() && log == [] && nDijkstras == old(nDijkstras) + 1
      ensures forall k :: 0 <= k < |rtes| ==> base[k] == rtes[k].State()
    {
      nDijkstras := nDijkstras + 1;
      log, base := [], seq(|rtes|, k requires 0 <= k < |rtes| reads this, rtes => rtes[k].State());
    }

    method ScanOne(i: nat)
      requires i < |rtes| == |base| && EntryIs(i) && forall j, k :: 0 <= j < k < |rtes| ==> rtes[j] != rtes[k]
      modifies rtes[i]
      ensures |rtes[i].mpath| <= MAXPATH
      ensures rtes[i].State() == Scanned(OfferedAll(base[i], nDijkstras, For(log, i)), nDijkstras)
      ensures forall k :: 0 <= k < |rtes| && k != i ==> rtes[k] != rtes[i]
    {
      rtes[i].Scan(nDijkstras);
    }

    // The scan at the end of a run.
    method ScanAll()
      requires Valid()
      modifies rtes
      ensures Distinct()
      ensures forall k :: 0 <= k < |rtes| ==>
                rtes[k].State() == Scanned(OfferedAll(base[k], nDijkstras, For(log, k)), nDijkstras)
    {
      var i := 0;
      while i < |rtes|
        invariant 0 <= i <= |rtes|
        invariant forall k :: i <= k < |rtes| ==> EntryIs(k)
        invariant forall k :: 0 <= k < i ==>
                    |rtes[k].mpath| <= MAXPATH
                    && rtes[k].State() == Scanned(OfferedAll(base[k], nDijkstras, For(log, k)), nDijkstras)
      {
        assert forall k :: i < k < |rtes| ==> EntryIs(k) && rtes[k] != rtes[i];
        ScanOne(i);
        assert forall k :: i < k < |rtes| ==> EntryIs(k);
        i := i + 1;
      }
    }
  }

  // ---- One run

  predicate Least(os: seq<Offer>, c: nat) {
    (exists o :: o in os && o.cost == c) && (forall o :: o in os ==> c <= o.cost)
  }

  predicate AllHops(os: seq<Offer>) {
    forall o :: o in os ==> o.hops.NewHops?
  }

  // The next hops of all offers of cost c, merged.
  function HopsAt(os: seq<Offer>, c: nat): seq<NH>
    requires AllHops(os)
  {
    if os == [] then []
    else
      var rest := HopsAt(os[..|os| - 1], c);
      if os[|os| - 1].cost == c then Merged(os[|os| - 1].hops.mp, rest) else rest
  }

  lemma {:induction false} NoHopsAt(os: seq<Offer>, c: nat)
    requires AllHops(os) && forall o :: o in os ==> o.cost != c
    ensures HopsAt(os, c) == []
  {
    if os != [] {
      NoHopsAt(os[..|os| - 1], c);
    }
  }

  predicate Fit(os: seq<Offer>) {
    AllHops(os) && forall o :: o in os ==> |o.hops.mp| <= MAXPATH
  }

  // The next hops of all offers of cost c.
  ghost function OfferedHops(os: seq<Offer>, c: nat): set<NH>
    requires AllHops(os)
  {
    set o, x | o in os && o.cost == c && x in o.hops.mp :: x
  }

  // None of them is lost if and only if they fit one entry.
  lemma {:induction false} HopsKept(os: seq<Offer>, c: nat)
    requires Fit(os) && forall o :: o in os ==> Sorted(o.hops.mp)
    ensures Keeps(HopsAt(os, c), OfferedHops(os, c))
  {
    hide Keeps, Merged, OfferedHops;
    if os == [] {
      NothingKept(c);
    } else {
      var o, rest := os[|os| - 1], os[..|os| - 1];
      HopsKept(rest, c);
      HopsSplit(os, c);
      assert o in os;
      if o.cost == c {
        KeepsOn(o.hops.mp, HopsAt(rest, c), OfferedHops(rest, c));
      }
    }
  }

  // The entry has next hops of h only, and all of them if and only if they fit.
  ghost predicate Keeps(m: seq<NH>, h: set<NH>) {
    && Sorted(m) && |m| <= MAXPATH && MultiPath.Set(m) <= h
    && (MultiPath.Set(m) == h <==> |h| <= MAXPATH) && (m == [] <==> h == {})
  }

  lemma NothingKept(c: nat)
    ensures Keeps([], OfferedHops([], c))
  {
  }

  lemma KeepsOn(mp: seq<NH>, m: seq<NH>, h: set<NH>)
    requires Sorted(mp) && |mp| <= MAXPATH && Keeps(m, h)
    ensures Keeps(Merged(mp, m), h + MultiPath.Set(mp))
  {
    hide Merged, Sorted;
    MergedFacts(mp, m);
    NothingLost(mp, m);
    SortedSize(Merged(mp, m));
    Fewer(h, h + MultiPath.Set(mp));
    SetOfNone(mp);
    if |h + MultiPath.Set(mp)| <= MAXPATH {
      assert MultiPath.Set(mp) + MultiPath.Set(m) == h + MultiPath.Set(mp);
    }
  }

  lemma SetOfNone(s: seq<NH>)
    ensures s == [] <==> MultiPath.Set(s) == {}
  {
    if s != [] {
      assert s[0] in MultiPath.Set(s);
    }
  }

  lemma HopsSplit(os: seq<Offer>, c: nat)
    requires os != [] && AllHops(os)
    ensures var o := os[|os| - 1];
            OfferedHops(os, c) ==
              if o.cost == c then OfferedHops(os[..|os| - 1], c) + MultiPath.Set(o.hops.mp)
              else OfferedHops(os[..|os| - 1], c)
  {
    assert os == os[..|os| - 1] + [os[|os| - 1]];
  }

  // An entry not seen yet in this run ends with the least offer, and all next hops offered at that cost.
  lemma {:induction false} BestOffer(e: Entry, run: nat, os: seq<Offer>)
    requires !Current(e, run) && e.rType != RtDirect && os != [] && AllHops(os)
    ensures var f := OfferedAll(e, run, os); Current(f, run) && Least(os, f.cost) && f.mpath == HopsAt(os, f.cost)
  {
    var n := |os| - 1;
    var o := os[n];
    assert os == os[..n] + [o];
    if n == 0 {
      assert HopsAt(os, o.cost) == Merged(o.hops.mp, []);
    } else {
      BestOffer(e, run, os[..n]);
      var f := OfferedAll(e, run, os[..n]);
      if o.cost < f.cost {
        NoHopsAt(os[..n], o.cost);
      }
    }
  }

  // An entry that a run offers nothing: an intra-area one goes, and is marked as changed; so does an inter-area one
  // without next hops.
  lemma NothingOffered(e: Entry, run: nat)
    requires !Current(e, run)
    ensures Scanned(e, run) ==
            if e.rType == RtSpf then Entry(RtNone, e.dijkRun, LSInfinity, 0, [], true)
            else if e.rType == RtSpfia && e.mpath == [] then Entry(RtNone, e.dijkRun, LSInfinity, 0, [], e.changed)
            else e
  {
  }

  // What a run whose offers all come through one area leaves: the area, and the mark of a change, made exactly if the
  // entry was not intra-area before, or in another area. Without next hops the entry goes.
  lemma {:induction false} OneArea(e: Entry, run: nat, os: seq<Offer>, a: nat)
    requires !Current(e, run) && e.rType != RtDirect && os != [] && AllHops(os) && forall o :: o in os ==> o.area == a
    ensures var f := OfferedAll(e, run, os);
            && Current(f, run) && f.area == a && (f.changed <==> e.changed || e.rType != RtSpf || e.area != a)
            && Scanned(f, run) ==
               if f.mpath == [] then Entry(RtNone, f.dijkRun, LSInfinity, 0, [], f.changed) else f
  {
    var n := |os| - 1;
    assert os[n] in os;
    if n == 0 {
      assert os[..0] == [];
      assert OfferedAll(e, run, os[..0]) == e;
    } else {
      OneArea(e, run, os[..n], a);
    }
  }

  // ---- Any number of runs

  // Between runs, other parts of the program change the entry; none of them makes it intra-area.
  datatype Event = FullCalculation(os: seq<Offer>) | OtherChange(to: Entry)

  ghost predicate Possible(e: Entry, ev: Event) {
    ev.OtherChange? && ev.to.rType == RtSpf ==> e.rType == RtSpf && ev.to.dijkRun == e.dijkRun
  }

  ghost predicate History(e: Entry, evs: seq<Event>)
  {
    evs != [] ==> History(e, evs[..|evs| - 1]) && Possible(After(e, evs[..|evs| - 1]), evs[|evs| - 1])
  }

  function Runs(evs: seq<Event>): nat {
    if evs == [] then 0 else Runs(evs[..|evs| - 1]) + if evs[|evs| - 1].FullCalculation? then 1 else 0
  }

  function After(e: Entry, evs: seq<Event>): Entry {
    if evs == [] then e
    else
      var f := After(e, evs[..|evs| - 1]);
      match evs[|evs| - 1]
      case FullCalculation(os) => Scanned(OfferedAll(f, Runs(evs), os), Runs(evs))
      case OtherChange(to) => to
  }

  // After the latest run, the one-bit marker of every intra-area entry is the bit of that run.
  lemma {:induction false} MarkerIsLatest(e: Entry, evs: seq<Event>)
    requires History(e, evs) && e.rType != RtSpf
    ensures After(e, evs).rType == RtSpf ==> After(e, evs).dijkRun == Runs(evs) % 2
  {
    if evs != [] {
      MarkerIsLatest(e, evs[..|evs| - 1]);
    }
  }

  // A run after any history: the entry is intra-area exactly when this run offered it next hops, and
  // then it has the least cost offered and the next hops offered at that cost: all of them, if and only if they fit.
  lemma RunDecides(e: Entry, evs: seq<Event>, os: seq<Offer>)
    requires History(e, evs) && e.rType != RtSpf && After(e, evs).rType != RtDirect && AllHops(os)
    ensures var f := After(e, evs + [FullCalculation(os)]);
            && (f.rType == RtSpf <==> os != [] && exists c: nat :: Least(os, c) && HopsAt(os, c) != [])
            && (f.rType == RtSpf ==> Least(os, f.cost) && f.mpath == HopsAt(os, f.cost))
            && (f.rType == RtSpf && Fit(os) && (forall o :: o in os ==> Sorted(o.hops.mp)) ==>
                  MultiPath.Set(f.mpath) <= OfferedHops(os, f.cost)
                  && (MultiPath.Set(f.mpath) == OfferedHops(os, f.cost) <==> |OfferedHops(os, f.cost)| <= MAXPATH))
  {
    hide OfferedHops;
    MarkerIsLatest(e, evs);
    var all := evs + [FullCalculation(os)];
    assert all[..|all| - 1] == evs;
    var f := After(e, evs);
    if os != [] {
      BestOffer(f, Runs(all), os);
      var g := OfferedAll(f, Runs(all), os);
      LeastUnique(os, g.cost);
      if Fit(os) && forall o :: o in os ==> Sorted(o.hops.mp) {
        HopsKept(os, g.cost);
      }
    }
  }

  lemma LeastUnique(os: seq<Offer>, c: nat)
    requires Least(os, c)
    ensures forall d: nat :: Least(os, d) ==> d == c
  {
  }
}
