// When Database Exchange can still be finished: from every state that two routers can reach, some course of events
// makes both Full, unless the slave's answer is lost and the slave will not give it again.

module ExchangeProgress {
  import opened AvlItems
  import opened Common
  import opened Instances
  import opened DatabaseExchange

  // ---- Runs

  ghost predicate Alive(sys: System) {
    Inv(sys) && Tidy(sys.m) && Tidy(sys.s) && !sys.restarted
  }

  lemma {:induction false} RunThen(sys: System, xs: seq<Step>, ys: seq<Step>)
    ensures Run(sys, xs + ys) == Run(Run(sys, xs), ys)
  {
    hide Next;
    if ys == [] {
      assert xs + ys == xs;
    } else {
      assert (xs + ys)[..|xs + ys| - 1] == xs + ys[..|ys| - 1];
      RunThen(sys, xs, ys[..|ys| - 1]);
    }
  }

  lemma RunOne(sys: System, x: Step)
    ensures Run(sys, [x]) == Next(sys, x)
  {
    assert [x][..0] == [];
    assert Run(sys, []) == sys;
  }

  lemma StaysAlive(sys: System, x: Step, t: System)
    requires Alive(sys) && t == Next(sys, x) && !t.restarted
    ensures Alive(t)
  {
    hide Inv, Tidy, Next;
    NextKeeps(sys, x, t);
    NextTidy(sys, x, t);
  }

  // t can be reached from sys.
  ghost predicate Leads(sys: System, t: System) {
    exists xs :: Run(sys, xs) == t
  }

  lemma LeadsSelf(sys: System)
    ensures Leads(sys, sys)
  {
    assert Run(sys, []) == sys;
  }

  lemma LeadsOne(sys: System, x: Step, t: System)
    requires t == Next(sys, x)
    ensures Leads(sys, t)
  {
    RunOne(sys, x);
  }

  lemma LeadsOn(sys: System, t: System, u: System)
    requires Leads(sys, t) && Leads(t, u)
    ensures Leads(sys, u)
  {
    hide Run;
    var xs :| Run(sys, xs) == t;
    var ys :| Run(t, ys) == u;
    RunThen(sys, xs, ys);
  }

  // ---- The channels may lose everything, or all but one packet

  lemma {:induction false} LoseAll(sys: System)
    requires Alive(sys)
    ensures var t := sys.(toS := [], toM := []); Leads(sys, t) && Alive(t)
    decreases |sys.toS| + |sys.toM|
  {
    hide Inv, Tidy;
    if sys.toS == [] && sys.toM == [] {
      LeadsSelf(sys);
    } else {
      var w := if sys.toS != [] then Slave else Master;
      var t := Next(sys, Lose(w, 0));
      assert t == Lost(sys, w, 0);
      StaysAlive(sys, Lose(w, 0), t);
      LoseAll(t);
      LeadsOne(sys, Lose(w, 0), t);
      LeadsOn(sys, t, sys.(toS := [], toM := []));
    }
  }

  lemma {:induction false} LoseOthers(sys: System, p: Pkt)
    requires Alive(sys) && p in sys.toM
    ensures var t := sys.(toS := [], toM := [p]); Leads(sys, t) && Alive(t)
    decreases |sys.toS| + |sys.toM|
  {
    hide Inv, Tidy;
    if sys.toS == [] && sys.toM == [p] {
      LeadsSelf(sys);
    } else {
      var w := if sys.toS != [] then Slave else Master;
      var i := if w == Master && sys.toM[0] == p then 1 else 0;
      var t := Next(sys, Lose(w, i));
      LoseOther(sys, p, w, i);
      StaysAlive(sys, Lose(w, i), t);
      LoseOthers(t, p);
      LeadsOne(sys, Lose(w, i), t);
      LeadsOn(sys, t, sys.(toS := [], toM := [p]));
    }
  }

  lemma LoseOther(sys: System, p: Pkt, w: Which, i: nat)
    requires !sys.restarted && p in sys.toM && (sys.toS != [] || sys.toM != [p])
    requires w == if sys.toS != [] then Slave else Master
    requires i == if w == Master && sys.toM[0] == p then 1 else 0
    ensures i < |Channel(sys, w)| && Next(sys, Lose(w, i)) == Lost(sys, w, i) && p in Lost(sys, w, i).toM
    ensures |Lost(sys, w, i).toS| + |Lost(sys, w, i).toM| < |sys.toS| + |sys.toM|
    ensures Lost(sys, w, i) == sys.(toS := Lost(sys, w, i).toS, toM := Lost(sys, w, i).toM)
  {
    if w == Master {
      if sys.toM[0] == p {
        assert |sys.toM| == 1 ==> sys.toM == [p];
      } else {
        assert sys.toM == [sys.toM[0]] + sys.toM[1..];
      }
    }
  }

  // ---- One request satisfied

  // What is still to be described.
  function Work(x: Side): nat {
    |x.list| + if x.allSent then 0 else 1
  }

  // The side after learning what it requests first, with room for one header in a packet.
  lemma LearnFirst(x: Side, y: Side)
    requires SideOk(x) && Tidy(x) && x.rq != [] && y == Install(x, x.rq[0], 1)
    ensures !AtLeast(x.db, x.rq[0]) && y.rq == x.rq[1..] && y.ddseq == x.ddseq && y.master == x.master
    ensures y.rq != [] ==> y.pkt == x.pkt && y.st == x.st && y.list == x.list && y.allSent == x.allSent
                           && y.done == x.done && y.held == x.held
    ensures y.rq == [] && x.st == Loading ==> y.st == Full && y.pkt == x.pkt && y.done == x.done && y.held == x.held
    ensures y.rq == [] && x.st == Exchange ==>
              y.pkt.Some? && y.held && Work(y) <= Work(x) && (Work(y) < Work(x) || Work(x) == 0)
              && (x.master ==> !y.done) && x.pkt.None?
  {
    hide ListOk, GotOk, AtLeast, Fill;
    assert x.rq[0] in x.rq;
    var z := Entered(x, x.rq[0]);
    assert z.rq == x.rq[1..];
    if z.rq == [] && x.st == Exchange {
      SendWorks(z);
    }
  }

  // A packet with room for one header leaves less to describe.
  lemma SendWorks(x: Side)
    requires x.st == Exchange
    ensures var y := SendDD(x, 1);
            && y.pkt.Some? && y.held && Work(y) <= Work(x) && (Work(y) < Work(x) || Work(x) == 0) && y.ddseq == x.ddseq
            && y.rq == x.rq && y.master == x.master && (x.master ==> y.st == x.st && y.done == x.done)
  {
    hide Fill;
    if x.list != [] {
      FillTakes(x, x.list);
    }
    FillSuffix(x, x.list, 1);
  }

  lemma FillTakes(x: Side, list: seq<Hdr>)
    requires list != []
    ensures |Fill(x, list, 1).rest| < |list|
  {
    FillSuffix(x, list[1..], 1);
    FillSuffix(x, list[1..], 0);
  }

  // ---- Who is ahead shows in the sequence numbers

  lemma MasterIsAhead(sys: System)
    requires Coupled(sys) && sys.m.st != ExStart && sys.m.ddseq == Succ(sys.s.ddseq)
    ensures MasterAhead(sys)
  {
    hide PhaseOk, Tail, OldToM;
  }

  lemma SlaveIsAhead(sys: System)
    requires Coupled(sys) && sys.s.st != ExStart && sys.m.ddseq == sys.s.ddseq
    ensures SlaveAhead(sys)
  {
    hide PhaseOk, Tail, OldToM;
  }

  // A side learns what it requests first.
  lemma LearnStep(sys: System, w: Which, t: System)
    requires Alive(sys) && At(sys, w).rq != [] && t == Next(sys, Learn(w, At(sys, w).rq[0], 1))
    ensures Alive(t) && Leads(sys, t) && At(t, w) == Install(At(sys, w), At(sys, w).rq[0], 1)
    ensures w == Master ==> t.s == sys.s && t.toM == sys.toM
    ensures w == Slave ==> t.m == sys.m
    ensures w == Slave && t.s.pkt.Some? && t.s.pkt != sys.s.pkt && t.s.held ==> t.s.pkt.value in t.toM
    ensures w == Slave ==> forall p :: p in sys.toM ==> p in t.toM
  {
    hide ListOk, GotOk, AtLeast, Install, Starting, SlaveAhead, MasterAhead;
    CoupledSides(sys);
    LearnFirst(At(sys, w), Install(At(sys, w), At(sys, w).rq[0], 1));
    StaysAlive(sys, Learn(w, At(sys, w).rq[0], 1), t);
    LeadsOne(sys, Learn(w, At(sys, w).rq[0], 1), t);
  }

  // The master learns what it lacks, until it has a packet to send.
  lemma {:induction false} MasterReady(sys: System) returns (t: System)
    requires Alive(sys) && MasterAhead(sys) && !sys.m.done
    ensures Alive(t) && Leads(sys, t) && MasterAhead(t) && !t.m.done && t.m.pkt.Some? && t.s == sys.s
    ensures Work(t.m) <= Work(sys.m) && (sys.m.pkt.None? ==> Work(t.m) < Work(sys.m) || Work(sys.m) == 0)
    decreases |sys.m.rq|
  {
    hide ListOk, GotOk, Tail, OldToM, Install, Next;
    t := sys;
    LeadsSelf(sys);
    CoupledSides(sys);
    if sys.m.pkt.None? {
      assert sys.m.st == Exchange && sys.m.rq != [];
      var u := Next(sys, Learn(Master, sys.m.rq[0], 1));
      LearnStep(sys, Master, u);
      LearnFirst(sys.m, u.m);
      MasterIsAhead(u);
      t := MasterReady(u);
      LeadsOn(sys, u, t);
    }
  }

  // The slave learns what it lacks, until its answer is on its way.
  lemma {:induction false} SlaveReady(sys: System) returns (t: System)
    requires Alive(sys) && SlaveAhead(sys) && (sys.s.pkt.Some? ==> sys.s.pkt.value in sys.toM)
    ensures Alive(t) && Leads(sys, t) && SlaveAhead(t) && t.s.pkt.Some? && t.s.pkt.value in t.toM && t.m == sys.m
    ensures Work(t.s) <= Work(sys.s) && (sys.s.pkt.None? ==> Work(t.s) < Work(sys.s) || Work(sys.s) == 0)
    decreases |sys.s.rq|
  {
    hide ListOk, GotOk, Tail, OldToM, Install, Next;
    t := sys;
    LeadsSelf(sys);
    CoupledSides(sys);
    if sys.s.pkt.None? {
      assert sys.s.st == Exchange && sys.s.rq != [];
      var u := Next(sys, Learn(Slave, sys.s.rq[0], 1));
      LearnStep(sys, Slave, u);
      LearnFirst(sys.s, u.s);
      SlaveIsAhead(u);
      t := SlaveReady(u);
      LeadsOn(sys, u, t);
    }
  }

  // ---- One packet delivered

  lemma AcceptWorks(x: Side, p: Pkt)
    requires SideOk(x) && Judge(x, p) == Accept && x.st == Exchange
    ensures var y := AcceptDD(x, p, 1);
            Work(y) <= Work(x) && (y.pkt.Some? ==> y.held && (Work(y) < Work(x) || Work(x) == 0))
  {
    hide ListOk, GotOk, Fill, Process;
    ProcessKeeps(x.(peerMore := p.more, pkt := None), p.hdrs);
    var z := Absorb(x, p);
    assert Work(z) == Work(x) && z.st == Exchange;
    SendWorks(z);
  }

  // The slave's answer is the next packet for the master.
  lemma AnswerAccepted(sys: System)
    requires Coupled(sys) && SlaveAhead(sys) && sys.s.pkt.Some?
    ensures Judge(sys.m, sys.s.pkt.value) == Accept && (sys.m.st == ExStart || sys.m.st == Exchange)
    ensures sys.s.pkt.value.more == (sys.s.list != [])
  {
    hide OldToM, Tail;
  }

  // The master takes the slave's answer.
  lemma MasterTakes(sys: System) returns (t: System)
    requires Alive(sys) && SlaveAhead(sys) && sys.s.pkt.Some? && sys.s.pkt.value in sys.toM
    ensures Alive(t) && Leads(sys, t) && MasterAhead(t) && t.s == sys.s && t.m.st != ExStart
    ensures sys.m.st == Exchange ==>
              && Work(t.m) <= Work(sys.m) && (t.m.pkt.Some? ==> Work(t.m) < Work(sys.m) || Work(sys.m) == 0)
              && (!t.m.done ==> Work(sys.m) > 0 || Work(sys.s) > 0)
  {
    hide ListOk, GotOk, Tail, OldToM, AcceptDD, Tidy, Judge, SlaveAhead, MasterAhead;
    var p := sys.s.pkt.value;
    var u := sys.(toS := [], toM := [p]);
    LoseOthers(sys, p);
    AnswerAccepted(sys);
    AcceptFacts(sys.m, p, 1);
    t := Next(u, Deliver(Master, 1));
    StaysAlive(u, Deliver(Master, 1), t);
    LeadsOne(u, Deliver(Master, 1), t);
    LeadsOn(sys, u, t);
    NumbersWhenSlaveAhead(sys);
    MasterIsAhead(t);
    if sys.m.st == Exchange {
      AcceptWorks(sys.m, p);
    }
  }

  lemma NumbersWhenSlaveAhead(sys: System)
    requires SlaveAhead(sys)
    ensures sys.m.ddseq == sys.s.ddseq && sys.s.st != ExStart && sys.m.pkt.Some? && !sys.m.done
  {
  }

  // The master's packet is the next for the slave.
  lemma OfferAccepted(sys: System)
    requires Coupled(sys) && MasterAhead(sys) && sys.m.pkt.Some? && !sys.m.done
    ensures Judge(sys.s, sys.m.pkt.value) == Accept && sys.s.st == Exchange && sys.m.held
    ensures sys.m.ddseq == sys.m.pkt.value.seqno
  {
    hide OldToM, Tail;
  }

  // The slave takes the master's packet, sent again.
  lemma SlaveTakes(sys: System) returns (t: System)
    requires Alive(sys) && MasterAhead(sys) && sys.m.pkt.Some? && !sys.m.done
    ensures Alive(t) && Leads(sys, t) && SlaveAhead(t) && t.m == sys.m && (t.s.pkt.Some? ==> t.s.pkt.value in t.toM)
    ensures Work(t.s) <= Work(sys.s) && (t.s.pkt.Some? ==> Work(t.s) < Work(sys.s) || Work(sys.s) == 0)
  {
    hide ListOk, GotOk, Tail, OldToM, AcceptDD, Tidy, Judge, SlaveAhead, MasterAhead;
    var p := sys.m.pkt.value;
    OfferAccepted(sys);
    var u := sys.(toS := [], toM := []);
    LoseAll(sys);
    var v := Next(u, Retransmit(Master));
    StaysAlive(u, Retransmit(Master), v);
    LeadsOne(u, Retransmit(Master), v);
    t := Next(v, Deliver(Slave, 1));
    AcceptFacts(sys.s, p, 1);
    AcceptWorks(sys.s, p);
    StaysAlive(v, Deliver(Slave, 1), t);
    LeadsOne(v, Deliver(Slave, 1), t);
    LeadsOn(sys, u, v);
    LeadsOn(sys, v, t);
    SlaveIsAhead(t);
  }

  // The master sends its packet again, and the slave its answer.
  lemma AskAgain(sys: System) returns (t: System)
    requires Alive(sys) && SlaveAhead(sys) && sys.s.pkt.Some? && sys.s.held && sys.m.st != ExStart
    ensures Alive(t) && Leads(sys, t) && t == sys.(toS := [], toM := [sys.s.pkt.value]) && SlaveAhead(t)
  {
    hide HistoryOk, Tail, OldToM, AcceptDD, Tidy;
    var u := sys.(toS := [], toM := []);
    LoseAll(sys);
    var v := Next(u, Retransmit(Master));
    assert sys.m.held && v.toS == [sys.m.pkt.value];
    StaysAlive(u, Retransmit(Master), v);
    LeadsOne(u, Retransmit(Master), v);
    assert Judge(sys.s, sys.m.pkt.value) == Again;
    t := Next(v, Deliver(Slave, 1));
    StaysAlive(v, Deliver(Slave, 1), t);
    LeadsOne(v, Deliver(Slave, 1), t);
    LeadsOn(sys, u, v);
    LeadsOn(sys, v, t);
    SlaveIsAhead(t);
  }

  // The slave answers the master's first packet.
  lemma FirstTaken(sys: System) returns (t: System)
    requires Alive(sys) && Starting(sys)
    ensures Alive(t) && Leads(sys, t) && SlaveAhead(t) && t.s.pkt.Some? && t.s.pkt.value in t.toM
  {
    hide HistoryOk, Tail, OldToM, AcceptDD, Tidy, SlaveAhead, MasterAhead;
    var p := sys.m.pkt.value;
    var u := sys.(toS := [], toM := []);
    LoseAll(sys);
    var v := Next(u, Retransmit(Master));
    assert v.toS == [p];
    StaysAlive(u, Retransmit(Master), v);
    LeadsOne(u, Retransmit(Master), v);
    assert Judge(sys.s, p) == Accept;
    AcceptFacts(sys.s, p, 1);
    FirstAnswer(sys.s, p, 1);
    t := Next(v, Deliver(Slave, 1));
    StaysAlive(v, Deliver(Slave, 1), t);
    LeadsOne(v, Deliver(Slave, 1), t);
    LeadsOn(sys, u, v);
    LeadsOn(sys, v, t);
    SlaveIsAhead(t);
  }

  // ---- To the end

  // Both sides are Full.
  ghost predicate Finished(sys: System) {
    !sys.restarted && sys.m.st == Full && sys.s.st == Full
  }

  // After ExchangeDone, a side that learns what it lacks becomes Full.
  lemma {:induction false} AllLearnt(sys: System) returns (t: System)
    requires Alive(sys) && MasterAhead(sys) && sys.m.done
    ensures Alive(t) && Leads(sys, t) && Finished(t)
    decreases |sys.m.rq| + |sys.s.rq|
  {
    hide ListOk, GotOk, Tail, OldToM, Install, Next;
    t := sys;
    LeadsSelf(sys);
    CoupledSides(sys);
    if sys.m.st == Loading || sys.s.st == Loading {
      var w := if sys.m.st == Loading then Master else Slave;
      var u := Next(sys, Learn(w, At(sys, w).rq[0], 1));
      LearnStep(sys, w, u);
      LearnFirst(At(sys, w), At(u, w));
      OtherSame(sys, w, u);
      MasterIsAhead(u);
      t := AllLearnt(u);
      LeadsOn(sys, u, t);
    }
  }

  lemma OtherSame(sys: System, w: Which, t: System)
    requires !sys.restarted && At(sys, w).rq != [] && t == Next(sys, Learn(w, At(sys, w).rq[0], 1))
    ensures w == Slave ==> t.m == sys.m
    ensures w == Master ==> t.s == sys.s
  {
    hide Install, AtLeast;
  }

  // The slave's answer is on its way: each round leaves less to describe, until both are done.
  lemma {:induction false} Rounds(sys: System) returns (t: System)
    requires Alive(sys) && SlaveAhead(sys) && sys.s.pkt.Some? && sys.s.pkt.value in sys.toM
    ensures Alive(t) && Leads(sys, t) && Finished(t)
    decreases if sys.m.st == ExStart then 1 else 0, Work(sys.m) + Work(sys.s)
  {
    hide Inv, Tidy, SlaveAhead, MasterAhead, Work, Next, Alive;
    var a := MasterTakes(sys);
    AnswerDue(sys);
    if a.m.done {
      t := AllLearnt(a);
      LeadsOn(sys, a, t);
    } else {
      t := FromMaster(sys, a);
    }
  }

  lemma AnswerDue(sys: System)
    requires Alive(sys) && SlaveAhead(sys) && sys.s.pkt.Some?
    ensures sys.m.st == ExStart || sys.m.st == Exchange
  {
    AnswerAccepted(sys);
  }

  lemma Begun(sys: System)
    requires MasterAhead(sys)
    ensures sys.m.st != ExStart
  {
  }

  // The rest of a round.
  lemma {:induction false} FromMaster(sys: System, a: System) returns (t: System)
    requires Alive(a) && Leads(sys, a) && MasterAhead(a) && a.s == sys.s && a.m.st != ExStart && !a.m.done
    requires sys.m.st == Exchange ==>
               && Work(a.m) <= Work(sys.m) && (a.m.pkt.Some? ==> Work(a.m) < Work(sys.m) || Work(sys.m) == 0)
               && (Work(sys.m) > 0 || Work(sys.s) > 0)
    requires sys.m.st == ExStart || sys.m.st == Exchange
    ensures Alive(t) && Leads(sys, t) && Finished(t)
    decreases if sys.m.st == ExStart then 1 else 0, Work(sys.m) + Work(sys.s), 0
  {
    hide Inv, Tidy, SlaveAhead, MasterAhead, Work, Next, Alive;
    var b := MasterReady(a);
    var c := SlaveTakes(b);
    var d := SlaveReady(c);
    LeadsOn(sys, a, b);
    LeadsOn(sys, b, c);
    LeadsOn(sys, c, d);
    Begun(b);
    t := Rounds(d);
    LeadsOn(sys, d, t);
  }

  // ---- Exactly when

  // The slave's answer is not on its way, and will not be given again: the master has not begun, and can only send its
  // first packet, or the slave has freed the answer.
  ghost predicate Hopeless(sys: System) {
    && SlaveAhead(sys) && sys.s.pkt.Some? && sys.s.pkt.value !in sys.toM
    && (sys.m.st == ExStart || !sys.s.held)
  }

  lemma CanFinish(sys: System) returns (t: System)
    requires Alive(sys) && !Hopeless(sys)
    ensures Leads(sys, t) && Finished(t)
  {
    hide HistoryOk, Tidy, Next;
    LeadsSelf(sys);
    if MasterAhead(sys) {
      if sys.m.done {
        t := AllLearnt(sys);
      } else {
        var b := MasterReady(sys);
        var c := SlaveTakes(b);
        var d := SlaveReady(c);
        t := Rounds(d);
        LeadsOn(sys, b, c);
        LeadsOn(sys, c, d);
        LeadsOn(sys, d, t);
      }
    } else {
      var a := sys;
      if Starting(sys) {
        a := FirstTaken(sys);
      } else if sys.s.pkt.Some? && sys.s.pkt.value !in sys.toM {
        a := AskAgain(sys);
      }
      var b := SlaveReady(a);
      t := Rounds(b);
      LeadsOn(sys, a, b);
      LeadsOn(sys, b, t);
    }
  }

  // Whatever happens in a hopeless state, it stays so until the adjacency is restarted.
  lemma HopelessStays(sys: System, x: Step, t: System)
    requires Inv(sys) && !sys.restarted && Hopeless(sys) && t == Next(sys, x)
    ensures t.restarted || Hopeless(t)
  {
    hide HistoryOk, AcceptDD, Install;
    NextKeeps(sys, x, t);
    if x.Deliver? && Channel(sys, x.to) != [] {
      HopelessDelivery(sys, x.to, x.room);
    } else if x.Learn? && !AtLeast(At(sys, x.at).db, x.h) {
      HopelessLearning(sys, x.at, x.h, x.room, Install(At(sys, x.at), x.h, x.room));
    } else if (x.Lose? || x.Repeat?) && x.i < |Channel(sys, x.to)| {
      Pieces(Channel(sys, x.to), x.i);
    }
    if !t.restarted {
      SlaveIsAhead(t);
    }
  }

  lemma HopelessDelivery(sys: System, w: Which, n: nat)
    requires Inv(sys) && Hopeless(sys) && Channel(sys, w) != []
    ensures var t := Delivered(sys, w, n);
            t.restarted || (t.m == sys.m && t.s == sys.s && forall p :: p in t.toM ==> p in sys.toM)
  {
    hide HistoryOk, AcceptDD;
    assert Channel(sys, w)[0] in Channel(sys, w);
  }

  lemma HopelessLearning(sys: System, w: Which, h: Hdr, n: nat, z: Side)
    requires Inv(sys) && Hopeless(sys) && !AtLeast(At(sys, w).db, h) && z == Install(At(sys, w), h, n)
    ensures var t := PutAndSend(sys, w, z);
            && t.toM == sys.toM && t.s.pkt == sys.s.pkt && t.s.held == sys.s.held && t.s.ddseq == sys.s.ddseq
            && t.m.ddseq == sys.m.ddseq && (t.m.st == ExStart <==> sys.m.st == ExStart)
            && (t.s.st == ExStart <==> sys.s.st == ExStart)
  {
    hide HistoryOk, Install;
    InstallFacts(At(sys, w), h, n, z);
  }

  lemma {:induction false} HopelessForGood(sys: System, xs: seq<Step>)
    requires Inv(sys) && !sys.restarted && Hopeless(sys)
    ensures Run(sys, xs).restarted || Hopeless(Run(sys, xs))
  {
    hide Inv, Hopeless, Next;
    if xs != [] {
      var r := Run(sys, xs[..|xs| - 1]);
      HopelessForGood(sys, xs[..|xs| - 1]);
      if r.restarted {
        StaysRestarted(r, xs[|xs| - 1]);
      } else {
        EveryRun(sys, xs[..|xs| - 1]);
        HopelessStays(r, xs[|xs| - 1], Run(sys, xs));
      }
    }
  }

  // From a state that can be reached, some course of events makes both sides Full if and only if the slave's answer is
  // on its way, or will be given, or given again.
  lemma FinishesExactly(sys: System)
    requires Alive(sys)
    ensures (exists xs :: Finished(Run(sys, xs))) <==> !Hopeless(sys)
  {
    hide Inv, Tidy, Hopeless, Run, Finished;
    if Hopeless(sys) {
      forall xs
        ensures !Finished(Run(sys, xs))
      {
        HopelessForGood(sys, xs);
        EveryRun(sys, xs);
        NotFull(Run(sys, xs));
      }
    } else {
      var t := CanFinish(sys);
      var xs :| Run(sys, xs) == t;
      assert Finished(Run(sys, xs));
    }
  }

  lemma NotFull(sys: System)
    requires sys.restarted || (Inv(sys) && Hopeless(sys))
    ensures !Finished(sys)
  {
    hide HistoryOk;
  }

  // So it is in every state of every run from any two databases and sequence numbers.
  lemma EveryStateFinishes(mseq: uns32, mdb: map<Key, Inst>, mbound: nat, maged: set<Key>, sseq: uns32,
                           sdb: map<Key, Inst>, sbound: nat, saged: set<Key>, xs: seq<Step>)
    requires (forall k :: k in mdb ==> k < mbound) && (forall k :: k in sdb ==> k < sbound)
    ensures var r := Run(Start(mseq, mdb, mbound, maged, sseq, sdb, sbound, saged), xs);
            !r.restarted ==> ((exists ys :: Finished(Run(r, ys))) <==> !Hopeless(r))
  {
    hide Run, Hopeless, Finished, HistoryOk, PhaseOk;
    var sys := Start(mseq, mdb, mbound, maged, sseq, sdb, sbound, saged);
    if !Run(sys, xs).restarted {
      StartOk(mseq, mdb, mbound, maged, sseq, sdb, sbound, saged);
      EveryRunTidy(sys, xs);
      FinishesExactly(Run(sys, xs));
    }
  }
}
