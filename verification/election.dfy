// Designated Router election (ifcfsm.C, section 9.4 of RFC 2328) on one interface.

module Election {
  import opened Common

  const UNKNOWN_ADDR: nat := 0

  // What the election reads of a neighbour: its address doubles as the name it declares roles by.
  datatype Nbr = Nbr(state: NbrState, pri: nat, id: nat, addr: nat, dr: nat, bdr: nat) {
    predicate DeclaredDr() {
      dr == addr
    }

    predicate DeclaredBdr() {
      bdr == addr
    }

    predicate Eligible() {
      !(state.Down? || state.Attempt? || state.Init?) && pri != 0
    }
  }

  // The router itself.
  datatype Self = Self(addr: nat, pri: nat, id: nat)

  datatype Roles = Roles(dr: nat, bdr: nat)

  datatype IfState = IfsDr | IfsBackup | IfsOther

  // ---- Who competes, and who wins

  datatype Cand = Cand(declared: bool, pri: nat, id: nat, addr: nat)

  predicate Above(x: Cand, y: Cand) {
    if x.declared != y.declared then x.declared
    else if x.pri != y.pri then x.pri > y.pri
    else x.id > y.id
  }

  function BackupBid(n: Nbr): Cand {
    Cand(n.DeclaredBdr(), n.pri, n.id, n.addr)
  }

  function DrBid(n: Nbr): Cand {
    Cand(true, n.pri, n.id, n.addr)
  }

  // The Backup is elected among those that do not claim to be Designated Router.
  ghost function BackupCands(ns: set<Nbr>, me: Self, r: Roles): set<Cand> {
    (set n | n in ns && n.Eligible() && !n.DeclaredDr() :: BackupBid(n)) +
    (if r.dr != me.addr && me.pri != 0 then {Cand(r.bdr == me.addr, me.pri, me.id, me.addr)} else {})
  }

  ghost function DrCands(ns: set<Nbr>, me: Self, r: Roles): set<Cand> {
    (set n | n in ns && n.Eligible() && n.DeclaredDr() :: DrBid(n)) +
    (if r.dr == me.addr && me.pri != 0 then {Cand(true, me.pri, me.id, me.addr)} else {})
  }

  ghost predicate Best(cs: set<Cand>, w: Cand) {
    w in cs && forall c :: c in cs && c != w ==> Above(w, c)
  }

  // The address of the best candidate.
  ghost predicate Wins(cs: set<Cand>, addr: nat) {
    if cs == {} then addr == UNKNOWN_ADDR else exists w :: Best(cs, w) && w.addr == addr
  }

  lemma WinsOnce(cs: set<Cand>, x: nat, y: nat)
    requires Wins(cs, x) && Wins(cs, y)
    ensures x == y
  {
    if cs != {} {
      var v, w :| Best(cs, v) && v.addr == x && Best(cs, w) && w.addr == y;
      assert v != w ==> Above(v, w) && Above(w, v);
    }
  }

  // Router IDs and addresses tell the routers on the segment apart.
  ghost predicate Segment(ns: set<Nbr>, me: Self) {
    && me.addr != UNKNOWN_ADDR
    && (forall n :: n in ns ==> n.id != me.id && n.addr != me.addr && n.addr != UNKNOWN_ADDR)
    && (forall m, n :: m in ns && n in ns && m != n ==> m.id != n.id && m.addr != n.addr)
  }

  // ---- One pass, and the election, as relations between the roles before and after

  ghost predicate Pass(ns: set<Nbr>, me: Self, r: Roles, s: Roles) {
    && Wins(BackupCands(ns, me, r), s.bdr)
    && if DrCands(ns, me, r) == {} then s.dr == s.bdr else Wins(DrCands(ns, me, r), s.dr)
  }

  lemma PassOnce(ns: set<Nbr>, me: Self, r: Roles, s: Roles, t: Roles)
    requires Pass(ns, me, r, s) && Pass(ns, me, r, t)
    ensures s == t
  {
    WinsOnce(BackupCands(ns, me, r), s.bdr, t.bdr);
    if DrCands(ns, me, r) != {} {
      WinsOnce(DrCands(ns, me, r), s.dr, t.dr);
    }
  }

  // A second pass is due when the router's own part changed.
  predicate Again(me: Self, before: Roles, after: Roles) {
    || (after.dr != before.dr && (after.dr == me.addr || before.dr == me.addr))
    || (after.bdr != before.bdr && (after.bdr == me.addr || before.bdr == me.addr))
  }

  ghost predicate Elects(ns: set<Nbr>, me: Self, r: Roles, s: Roles) {
    exists m :: Pass(ns, me, r, m) && if Again(me, r, m) then Pass(ns, me, m, s) else s == m
  }

  // ---- What an election is worth

  // The winner when the router's own bid changes.
  lemma OwnBid(ns: set<Nbr>, me: Self, r: Roles, s: Roles, x: nat)
    requires Segment(ns, me) && Wins(BackupCands(ns, me, r), x)
    requires (r.dr == me.addr) == (s.dr == me.addr) || me.pri == 0
    requires (r.bdr == me.addr) == (s.bdr == me.addr) || (x == me.addr) == (s.bdr == me.addr)
    ensures Wins(BackupCands(ns, me, s), x)
  {
    var before, after := BackupCands(ns, me, r), BackupCands(ns, me, s);
    var bid, other := Cand(r.bdr == me.addr, me.pri, me.id, me.addr), Cand(s.bdr == me.addr, me.pri, me.id, me.addr);
    if before == after {
      return;
    }
    assert bid in before && other in after;
    var w :| Best(before, w) && w.addr == x;
    var v := if w == bid then other else w;
    assert x == me.addr <==> w == bid;
    forall c | c in after && c != v
      ensures Above(v, c)
    {
      assert c != other ==> c in before;
    }
    assert Best(after, v);
  }

  lemma MeNoNeighbour(ns: set<Nbr>, me: Self, r: Roles, s: Roles)
    requires Segment(ns, me) && Pass(ns, me, r, s)
    ensures s.bdr == me.addr ==> r.dr != me.addr && me.pri != 0
    ensures s.dr == me.addr ==> me.pri != 0 && (r.dr == me.addr || (s.bdr == me.addr && DrCands(ns, me, r) == {}))
  {
  }

  // A router is never its own Backup.
  lemma NeverBoth(ns: set<Nbr>, me: Self, r: Roles, s: Roles)
    requires Segment(ns, me) && Elects(ns, me, r, s)
    ensures !(s.dr == me.addr && s.bdr == me.addr)
  {
    var m :| Pass(ns, me, r, m) && if Again(me, r, m) then Pass(ns, me, m, s) else s == m;
    MeNoNeighbour(ns, me, r, m);
    if Again(me, r, m) {
      MeNoNeighbour(ns, me, m, s);
      if s.dr == me.addr && s.bdr == me.addr {
        OwnBid(ns, me, r, m, m.bdr);
        WinsOnce(BackupCands(ns, me, m), m.bdr, s.bdr);
      }
    }
  }

  // Only a change of the router's own claim to be Designated Router can upset the outcome of a pass.
  lemma Steady(ns: set<Nbr>, me: Self, r: Roles, s: Roles)
    requires Segment(ns, me) && Pass(ns, me, r, s) && (r.dr == me.addr) == (s.dr == me.addr)
    ensures Pass(ns, me, s, s)
  {
    OwnBid(ns, me, r, s, s.bdr);
  }

  lemma SecondPass(ns: set<Nbr>, me: Self, r: Roles, m: Roles, s: Roles)
    requires Segment(ns, me) && Pass(ns, me, r, m) && Pass(ns, me, m, s) && (r.dr == me.addr) != (m.dr == me.addr)
    ensures (m.dr == me.addr) == (s.dr == me.addr)
  {
    MeNoNeighbour(ns, me, r, m);
    MeNoNeighbour(ns, me, m, s);
    var bid := Cand(true, me.pri, me.id, me.addr);
    if m.dr == me.addr {
      assert DrCands(ns, me, m) == {bid};
    } else if DrCands(ns, me, m) == {} && me.pri != 0 {
      assert DrCands(ns, me, r) == {bid};
    }
  }

  // Another pass over unchanged neighbours changes nothing: two passes always reach the fixed point.
  lemma FixedPoint(ns: set<Nbr>, me: Self, r: Roles, s: Roles)
    requires Segment(ns, me) && Elects(ns, me, r, s)
    ensures Pass(ns, me, s, s)
  {
    hide Pass;
    var m :| Pass(ns, me, r, m) && if Again(me, r, m) then Pass(ns, me, m, s) else s == m;
    if (r.dr == me.addr) == (m.dr == me.addr) {
      Steady(ns, me, r, m);
      if Again(me, r, m) {
        PassOnce(ns, me, m, m, s);
      }
    } else {
      SecondPass(ns, me, r, m, s);
      Steady(ns, me, m, s);
    }
  }

  lemma Idempotent(ns: set<Nbr>, me: Self, r: Roles, s: Roles, t: Roles)
    requires Segment(ns, me) && Elects(ns, me, r, s) && Elects(ns, me, s, t)
    ensures s == t
  {
    FixedPoint(ns, me, r, s);
    var m :| Pass(ns, me, s, m) && if Again(me, s, m) then Pass(ns, me, m, t) else t == m;
    PassOnce(ns, me, s, s, m);
    PassOnce(ns, me, s, s, t);
  }

  // Bids in the fields' own terms: a claim counts before the priority, the priority before the Router ID.
  predicate Outranks(claim: bool, pri: nat, id: nat, claim2: bool, pri2: nat, id2: nat) {
    if claim == claim2 then pri > pri2 || (pri == pri2 && id > id2) else claim
  }

  // A neighbour that is in 2-Way or above and not barred by its priority.
  predicate MayServe(n: Nbr) {
    n.pri > 0 && (n.state.TwoWay? || n.state.ExStart? || n.state.Exchange? || n.state.Loading? || n.state.Full?)
  }

  // The Backup outranks every other neighbour that may serve and does not claim to be Designated Router; it is one of
  // them, or this router.
  lemma BackupOutranks(ns: set<Nbr>, me: Self, r: Roles, s: Roles, n: Nbr)
    requires Segment(ns, me) && Pass(ns, me, r, s) && n in ns && MayServe(n) && n.dr != n.addr && n.addr != s.bdr
    ensures s.bdr == me.addr ==>
              Outranks(r.bdr == me.addr, me.pri, me.id, n.bdr == n.addr, n.pri, n.id)
    ensures forall w :: w in ns && w.addr == s.bdr ==>
              MayServe(w) && w.dr != w.addr
              && Outranks(w.bdr == w.addr, w.pri, w.id, n.bdr == n.addr, n.pri, n.id)
    ensures s.bdr == me.addr || exists w :: w in ns && w.addr == s.bdr
  {
    assert BackupBid(n) in BackupCands(ns, me, r);
    var c :| Best(BackupCands(ns, me, r), c) && c.addr == s.bdr;
  }

  // This router becomes Backup exactly if it competes and outranks them.
  lemma OwnBackup(ns: set<Nbr>, me: Self, r: Roles, s: Roles)
    requires Segment(ns, me) && Pass(ns, me, r, s)
    ensures s.bdr == me.addr <==>
            && r.dr != me.addr && me.pri != 0
            && forall n :: n in ns && MayServe(n) && n.dr != n.addr ==>
                 Outranks(r.bdr == me.addr, me.pri, me.id, n.bdr == n.addr, n.pri, n.id)
  {
    var cs := BackupCands(ns, me, r);
    var bid := Cand(r.bdr == me.addr, me.pri, me.id, me.addr);
    if s.bdr == me.addr {
      MeNoNeighbour(ns, me, r, s);
      forall n | n in ns && MayServe(n) && n.dr != n.addr
        ensures Outranks(r.bdr == me.addr, me.pri, me.id, n.bdr == n.addr, n.pri, n.id)
      {
        BackupOutranks(ns, me, r, s, n);
      }
    } else if r.dr != me.addr && me.pri != 0 {
      assert bid in cs;
      var c :| Best(cs, c) && c.addr == s.bdr;
      assert Above(c, bid);
    }
  }

  // The Designated Router is the first by priority and Router ID of those that claim to be it.
  lemma ClaimantOutranks(ns: set<Nbr>, me: Self, r: Roles, s: Roles, n: Nbr)
    requires Segment(ns, me) && Pass(ns, me, r, s) && n in ns && MayServe(n) && n.dr == n.addr && n.addr != s.dr
    ensures s.dr == me.addr ==> r.dr == me.addr && Outranks(true, me.pri, me.id, true, n.pri, n.id)
    ensures forall w :: w in ns && w.addr == s.dr ==>
              MayServe(w) && w.dr == w.addr && Outranks(true, w.pri, w.id, true, n.pri, n.id)
    ensures s.dr == me.addr || exists w :: w in ns && w.addr == s.dr
  {
    assert DrBid(n) in DrCands(ns, me, r);
    var c :| Best(DrCands(ns, me, r), c) && c.addr == s.dr;
  }

  // Without a claimant the Backup is promoted.
  lemma Promoted(ns: set<Nbr>, me: Self, r: Roles, s: Roles)
    requires Pass(ns, me, r, s) && forall n :: n in ns && MayServe(n) ==> n.dr != n.addr
    ensures s.dr == if r.dr == me.addr && me.pri > 0 then me.addr else s.bdr
  {
    assert DrCands(ns, me, r) == if r.dr == me.addr && me.pri > 0 then {Cand(true, me.pri, me.id, me.addr)} else {};
  }

  // A router that claims to be Designated Router and one that claims to be Backup keep their roles, whatever the
  // priorities and the arrival of others; so all routers on the segment elect the same two.
  lemma Incumbents(ns: set<Nbr>, me: Self, r: Roles, s: Roles, dr: nat, bdr: nat)
    requires Segment(ns, me) && dr != bdr && Elects(ns, me, r, s)
    requires forall n :: n in ns && MayServe(n) ==>
               (n.dr == n.addr <==> n.addr == dr) && (n.bdr == n.addr <==> n.addr == bdr)
    requires (r.dr == me.addr <==> dr == me.addr) && (r.bdr == me.addr <==> bdr == me.addr)
    requires (dr == me.addr && me.pri != 0) || exists n :: n in ns && MayServe(n) && n.addr == dr
    requires (bdr == me.addr && me.pri != 0) || exists n :: n in ns && MayServe(n) && n.addr == bdr
    ensures s == Roles(dr, bdr)
  {
    var m :| Pass(ns, me, r, m) && if Again(me, r, m) then Pass(ns, me, m, s) else s == m;
    IncumbentDr(ns, me, r, dr);
    IncumbentBackup(ns, me, r, dr, bdr);
    WinsOnce(BackupCands(ns, me, r), m.bdr, bdr);
    WinsOnce(DrCands(ns, me, r), m.dr, dr);
  }

  lemma IncumbentDr(ns: set<Nbr>, me: Self, r: Roles, dr: nat)
    requires Segment(ns, me)
    requires forall n :: n in ns && n.Eligible() ==> (n.DeclaredDr() <==> n.addr == dr)
    requires r.dr == me.addr <==> dr == me.addr
    requires (dr == me.addr && me.pri != 0) || exists n :: n in ns && n.Eligible() && n.addr == dr
    ensures DrCands(ns, me, r) != {} && Wins(DrCands(ns, me, r), dr)
  {
    var bid: Cand;
    if dr == me.addr {
      bid := Cand(true, me.pri, me.id, me.addr);
    } else {
      var d :| d in ns && d.Eligible() && d.addr == dr;
      bid := DrBid(d);
    }
    assert DrCands(ns, me, r) == {bid};
    assert Best({bid}, bid);
  }

  lemma IncumbentBackup(ns: set<Nbr>, me: Self, r: Roles, dr: nat, bdr: nat)
    requires Segment(ns, me) && dr != bdr
    requires forall n :: n in ns && n.Eligible() ==>
               (n.DeclaredDr() <==> n.addr == dr) && (n.DeclaredBdr() <==> n.addr == bdr)
    requires (r.dr == me.addr <==> dr == me.addr) && (r.bdr == me.addr <==> bdr == me.addr)
    requires (bdr == me.addr && me.pri != 0) || exists n :: n in ns && n.Eligible() && n.addr == bdr
    ensures Wins(BackupCands(ns, me, r), bdr)
  {
    var bid: Cand;
    if bdr == me.addr {
      bid := Cand(true, me.pri, me.id, me.addr);
    } else {
      var b :| b in ns && b.Eligible() && b.addr == bdr;
      bid := BackupBid(b);
    }
    assert Best(BackupCands(ns, me, r), bid);
  }

  // As long as a router is eligible, some router is elected.
  lemma SomeoneServes(ns: set<Nbr>, me: Self, r: Roles, s: Roles)
    requires Segment(ns, me) && Elects(ns, me, r, s)
    ensures s.dr == UNKNOWN_ADDR <==> me.pri == 0 && forall n :: n in ns ==> !n.Eligible()
  {
    FixedPoint(ns, me, r, s);
    forall n | n in ns && n.Eligible()
      ensures s.dr != UNKNOWN_ADDR
    {
      assert DrBid(n) in DrCands(ns, me, s) || BackupBid(n) in BackupCands(ns, me, s);
    }
    if me.pri != 0 {
      var own := Cand(s.bdr == me.addr, me.pri, me.id, me.addr);
      assert s.dr != me.addr ==> own in BackupCands(ns, me, s);
    }
  }

  // ---- The program

  class SpfIfc {
    const self: Self
    var nbrs: seq<Nbr>
    var dr: nat
    var bdr: nat
    var drNbr: Option<Nbr>  // the neighbour that is Designated Router
    var state: IfState

    constructor (self: Self, nbrs: seq<Nbr>) {
      this.self, this.nbrs, dr, bdr, drNbr, state := self, nbrs, UNKNOWN_ADDR, UNKNOWN_ADDR, None, IfsOther;
    }

    ghost function Nbrs(): set<Nbr>
      reads `nbrs
    {
      SetOf(nbrs)
    }

    // n is the neighbour with this address; none for the router's own and for no address.
    ghost predicate IsAt(n: Option<Nbr>, addr: nat)
      reads `nbrs
    {
      if n.None? then addr == self.addr || addr == UNKNOWN_ADDR else n.value in Nbrs() && n.value.addr == addr
    }

    method ElectBackup() returns (bdrNbr: Option<Nbr>)
      requires Segment(Nbrs(), self)
      modifies `bdr
      ensures Wins(BackupCands(Nbrs(), self, Roles(dr, old(bdr))), bdr)
      ensures IsAt(bdrNbr, bdr)
    {
      hide Segment;
      ghost var r := Roles(dr, bdr);
      var declared, cPri, cId := false, 0, 0;
      bdrNbr := None;
      if dr != self.addr && self.pri != 0 {
        declared, bdr, cPri, cId := bdr == self.addr, self.addr, self.pri, self.id;
      } else {
        bdr := UNKNOWN_ADDR;
      }
      ghost var seen: set<Nbr> := {};
      assert Leads(BackupCands(seen, self, r), Cand(declared, cPri, cId, bdr));
      hide BackupCands, Leads, Wins;
      for i := 0 to |nbrs|
        invariant seen == SetOf(nbrs[..i])
        invariant Leads(BackupCands(seen, self, r), Cand(declared, cPri, cId, bdr))
        invariant IsAt(bdrNbr, bdr)
      {
        var np := nbrs[i];
        BackupStep(Nbrs(), seen, self, r, np, Cand(declared, cPri, cId, bdr));
        seen := seen + {np};
        assert nbrs[..i + 1] == nbrs[..i] + [np];
        if !np.Eligible() || np.DeclaredDr() {
          continue;
        }
        if declared && !np.DeclaredBdr() {
          continue;
        }
        if declared == np.DeclaredBdr() && (np.pri < cPri || (np.pri == cPri && np.id < cId)) {
          continue;
        }
        bdrNbr, bdr, declared, cPri, cId := Some(np), np.addr, np.DeclaredBdr(), np.pri, np.id;
      }
      assert nbrs[..|nbrs|] == nbrs;
      LeaderWins(BackupCands(Nbrs(), self, r), Cand(declared, cPri, cId, bdr));
    }

    method ElectDr(bdrNbr: Option<Nbr>)
      requires Segment(Nbrs(), self)
      requires IsAt(bdrNbr, bdr)
      modifies `dr, `drNbr
      ensures var cs := DrCands(Nbrs(), self, Roles(old(dr), bdr)); if cs == {} then dr == bdr else Wins(cs, dr)
      ensures IsAt(drNbr, dr)
    {
      hide Segment, Wins;
      ghost var r := Roles(dr, bdr);
      var cPri, cId := 0, 0;
      ghost var claimed := false;
      drNbr := None;
      if dr == self.addr && self.pri != 0 {
        cPri, cId, claimed := self.pri, self.id, true;
      } else {
        dr := UNKNOWN_ADDR;
      }
      ghost var seen: set<Nbr> := {};
      assert Leads(DrCands(seen, self, r), Cand(claimed, cPri, cId, dr));
      hide DrCands, Leads, Wins;
      for i := 0 to |nbrs|
        invariant seen == SetOf(nbrs[..i])
        invariant Leads(DrCands(seen, self, r), Cand(claimed, cPri, cId, dr))
        invariant IsAt(drNbr, dr)
      {
        var np := nbrs[i];
        DrStep(Nbrs(), seen, self, r, np, Cand(claimed, cPri, cId, dr));
        seen := seen + {np};
        assert nbrs[..i + 1] == nbrs[..i] + [np];
        if !np.Eligible() || !np.DeclaredDr() || np.pri < cPri || (np.pri == cPri && np.id < cId) {
          continue;
        }
        drNbr, dr, cPri, cId, claimed := Some(np), np.addr, np.pri, np.id, true;
      }
      assert nbrs[..|nbrs|] == nbrs;
      LeaderWins(DrCands(Nbrs(), self, r), Cand(claimed, cPri, cId, dr));
      DrLeads(Nbrs(), self, r, Cand(claimed, cPri, cId, dr));
      if dr == UNKNOWN_ADDR {
        dr, drNbr := bdr, bdrNbr;
      }
    }

    // Elects as section 9.4 of RFC 2328 says, and takes up the router's own part in the outcome.
    method Elect()
      requires Segment(Nbrs(), self)
      modifies `dr, `bdr, `drNbr, `state
      ensures Elects(Nbrs(), self, Roles(old(dr), old(bdr)), Roles(dr, bdr))
      ensures IsAt(drNbr, dr)
      ensures state == if dr == self.addr then IfsDr else if bdr == self.addr then IfsBackup else IfsOther
    {
      var prevDr, prevBdr := dr, bdr;
      ghost var r, first := Roles(dr, bdr), Roles(dr, bdr);
      var pass := 1;
      while pass <= 2
        invariant 1 <= pass <= 3
        invariant pass == 1 ==> Roles(dr, bdr) == r
        invariant pass == 2 ==> Pass(Nbrs(), self, r, Roles(dr, bdr)) && Again(self, r, Roles(dr, bdr))
        invariant pass == 3 ==> Elects(Nbrs(), self, r, Roles(dr, bdr))
        invariant pass > 1 ==> IsAt(drNbr, dr)
      {
        first := Roles(dr, bdr);
        var bdrNbr := ElectBackup();
        assert DrCands(Nbrs(), self, first) == DrCands(Nbrs(), self, Roles(dr, bdr));
        ElectDr(bdrNbr);
        assert Pass(Nbrs(), self, first, Roles(dr, bdr));
        pass := pass + 1;
        if dr != prevDr && (dr == self.addr || prevDr == self.addr) {
          continue;
        } else if bdr == prevBdr {
          break;
        } else if bdr == self.addr || prevBdr == self.addr {
          continue;
        } else {
          break;
        }
      }
      if dr == self.addr {
        state := IfsDr;
      } else if bdr == self.addr {
        state := IfsBackup;
      } else {
        state := IfsOther;
      }
    }
  }

  ghost function SetOf(s: seq<Nbr>): set<Nbr> {
    set n | n in s
  }

  // How the loops keep the best candidate so far.
  ghost predicate Leads(cs: set<Cand>, w: Cand) {
    if cs == {} then w == Cand(false, 0, 0, UNKNOWN_ADDR) else Best(cs, w)
  }

  lemma LeadsOn(cs: set<Cand>, w: Cand, bid: Cand)
    requires Leads(cs, w) && bid.pri > 0 && forall c :: c in cs && c.id == bid.id ==> c == bid
    ensures Leads(cs + {bid}, if Above(w, bid) then w else bid)
  {
  }

  lemma BackupStep(ns: set<Nbr>, seen: set<Nbr>, me: Self, r: Roles, np: Nbr, w: Cand)
    requires Segment(ns, me) && seen <= ns && np in ns && Leads(BackupCands(seen, me, r), w)
    ensures Leads(BackupCands(seen + {np}, me, r),
                  if np.Eligible() && !np.DeclaredDr() && !Above(w, BackupBid(np)) then BackupBid(np) else w)
  {
    var cs := BackupCands(seen, me, r);
    if np.Eligible() && !np.DeclaredDr() {
      assert BackupCands(seen + {np}, me, r) == cs + {BackupBid(np)};
      LeadsOn(cs, w, BackupBid(np));
    } else {
      assert BackupCands(seen + {np}, me, r) == cs;
    }
  }

  lemma DrStep(ns: set<Nbr>, seen: set<Nbr>, me: Self, r: Roles, np: Nbr, w: Cand)
    requires Segment(ns, me) && seen <= ns && np in ns && Leads(DrCands(seen, me, r), w)
    ensures Leads(DrCands(seen + {np}, me, r), if np.Eligible() && np.DeclaredDr() && !Above(w, DrBid(np))
            then DrBid(np) else w)
  {
    var cs := DrCands(seen, me, r);
    if np.Eligible() && np.DeclaredDr() {
      assert DrCands(seen + {np}, me, r) == cs + {DrBid(np)};
      LeadsOn(cs, w, DrBid(np));
    } else {
      assert DrCands(seen + {np}, me, r) == cs;
    }
  }

  lemma LeaderWins(cs: set<Cand>, w: Cand)
    requires Leads(cs, w)
    ensures Wins(cs, w.addr)
  {
  }

  // Claims to be Designated Router carry a priority and an address.
  lemma DrLeads(ns: set<Nbr>, me: Self, r: Roles, w: Cand)
    requires Segment(ns, me) && Leads(DrCands(ns, me, r), w)
    ensures w.addr == UNKNOWN_ADDR <==> DrCands(ns, me, r) == {}
  {
  }
}
