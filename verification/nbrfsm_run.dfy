// The neighbour state machine as the program runs it, on neighbour objects and a pending list linked through
// them; every method does what Adjacencies says of values.

module NeighbourProgram {
  import opened Common
  import opened NeighbourMachine
  import opened Adjacencies

  // The linear search in the table.
  method RunFsm(state: NbrState, event: Event) returns (row: Option<Tran>)
    ensures row == FirstMatch(0, state, event)
  {
    hide NbrFsm;
    var i := 0;
    while i < ROWS
      invariant i <= ROWS && FirstMatch(i, state, event) == FirstMatch(0, state, event)
    {
      var transition := NbrFsm(i);
      if !In(state, transition.states) {
        i := i + 1;
        continue;
      }
      if transition.event != event {
        i := i + 1;
        continue;
      }
      return Some(transition);
    }
    return None;
  }

  ghost function After(q: seq<SpfNbr>, i: nat): SpfNbr? {
    if i + 1 < |q| then q[i + 1] else null
  }

  lemma {:induction false} DropAt(q: seq<SpfNbr>, n: SpfNbr, k: nat)
    requires NoDup(q) && k < |q| && q[k] == n
    ensures Drop(q, n) == q[..k] + q[k + 1..]
  {
    if k > 0 {
      TailNoDup(q);
      assert q[0] != n;
      hide NoDup;
      DropAt(q[1..], n, k - 1);
      DropSlices(q, k);
    }
  }

  lemma DropSlices(q: seq<SpfNbr>, k: nat)
    requires 0 < k < |q|
    ensures q[..k] + q[k + 1..] == [q[0]] + (q[1..][..k - 1] + q[1..][k..])
  {
  }

  // Who follows whom when the k-th goes.
  lemma AfterCut(was: seq<SpfNbr>, k: nat, rest: seq<SpfNbr>)
    requires k < |was| && rest == was[..k] + was[k + 1..] && NoDup(was)
    ensures forall i :: 0 <= i < |rest| ==>
              && rest[i] == was[if i < k then i else i + 1] && rest[i] != was[k]
              && (k > 0 ==> (rest[i] == was[k - 1] <==> i + 1 == k))
              && After(rest, i) == if i + 1 == k then After(was, k) else After(was, if i < k then i else i + 1)
    ensures (if rest == [] then null else rest[0]) == if k == 0 then After(was, 0) else was[0]
    ensures (if rest == [] then null else rest[|rest| - 1]) ==
            if k == |was| - 1 then (if k == 0 then null else was[k - 1]) else was[|was| - 1]
    ensures was[|was| - 1] == was[k] <==> k == |was| - 1
  {
  }

  ghost predicate Chain(head: SpfNbr?, tail: SpfNbr?, pend: seq<SpfNbr>, all: set<SpfNbr>)
    reads all`nextPend, all`adjPend
  {
    && (forall n :: n in pend ==> n in all) && NoDup(pend)
    && head == (if pend == [] then null else pend[0]) && tail == (if pend == [] then null else pend[|pend| - 1])
    && (forall i :: 0 <= i < |pend| ==> pend[i].nextPend == After(pend, i))
    && forall n :: n in all ==> (n.adjPend <==> n in pend)
  }

  class Ospf {
    const maxDds: nat
    var nDbxNbrs: int
    var nLclInits: int
    var nRmtInits: int
    var adjHead: SpfNbr?
    var adjTail: SpfNbr?
    ghost var sys: Sys  // what the fields stand for

    constructor (maxDds: nat)
      ensures Valid() && sys == Sys(map[], [], map[], 0, 0, 0, maxDds)
    {
      this.maxDds := maxDds;
      nDbxNbrs, nLclInits, nRmtInits, adjHead, adjTail := 0, 0, 0, null, null;
      sys := Sys(map[], [], map[], 0, 0, 0, maxDds);
    }

    // The pending list runs through the neighbours.
    ghost predicate Linked()
      reads `adjHead, `adjTail, `sys, sys.nbrs.Keys`nextPend, sys.nbrs.Keys`adjPend
    {
      Chain(adjHead, adjTail, sys.pend, sys.nbrs.Keys)
    }

    ghost predicate Mirrors()
      reads `nDbxNbrs, `nLclInits, `nRmtInits, `sys
      reads sys.nbrs.Keys`state, sys.nbrs.Keys`rmtInit, sys.full.Keys`nFull
    {
      && nDbxNbrs == sys.dbx && nLclInits == sys.lcl && nRmtInits == sys.rmt && maxDds == sys.maxDds
      && (forall n :: n in sys.nbrs ==> sys.nbrs[n] == Info(n.state, n.rmtInit, n.ifp) && n.ifp in sys.full)
      && forall i :: i in sys.full ==> sys.full[i] == i.nFull
    }

    ghost predicate Valid()
      reads this, sys.nbrs.Keys, sys.full.Keys
    {
      Linked() && Mirrors()
    }

    // What the fields say of a neighbour.
    lemma Known(np: SpfNbr)
      requires Valid() && np in sys.nbrs
      ensures sys.nbrs[np] == Info(np.state, np.rmtInit, np.ifp) && np.ifp in sys.full
      ensures nLclInits == sys.lcl && nRmtInits == sys.rmt && maxDds == sys.maxDds
    {
    }

    ghost method Requeue(pend: seq<SpfNbr>)
      requires Mirrors() && Chain(adjHead, adjTail, pend, sys.nbrs.Keys)
      modifies `sys
      ensures Valid() && sys == old(sys).(pend := pend)
    {
      sys := sys.(pend := pend);
    }

    method AddPendAdj(np: SpfNbr)
      requires Valid() && np in sys.nbrs
      modifies `adjHead, `adjTail, `sys, sys.nbrs.Keys`nextPend, np`adjPend
      ensures Valid() && sys == old(sys).(pend := Queued(old(sys).pend, np))
    {
      hide Mirrors;
      if np.adjPend {
        return;
      }
      np.adjPend := true;
      np.nextPend := null;
      if adjHead == null {
        adjHead := np;
        adjTail := np;
      } else {
        adjTail.nextPend := np;
        adjTail := np;
      }
      Requeue(sys.pend + [np]);
    }

    method DelPendAdj(np: SpfNbr)
      requires Valid() && np in sys.nbrs
      modifies `adjHead, `adjTail, `sys, sys.nbrs.Keys`nextPend, np`adjPend
      ensures Valid() && sys == old(sys).(pend := Drop(old(sys).pend, np))
    {
      hide Mirrors;
      DropFacts(sys.pend, np);
      if np.adjPend {
        TakeOff(np);
      }
    }

    method TakeOff(np: SpfNbr)
      requires Valid() && np in sys.nbrs && np in sys.pend && NoDup(sys.pend)
      modifies `adjHead, `adjTail, `sys, sys.nbrs.Keys`nextPend, np`adjPend
      ensures Valid() && sys == old(sys).(pend := Drop(old(sys).pend, np))
    {
      hide Drop, Mirrors, NoDup;
      ghost var pend := sys.pend;
      var prev: SpfNbr?;
      ghost var k;
      prev, k := BeforeOnList(np, pend);
      DropFacts(pend, np);
      DropAt(pend, np, k);
      CutOut(np, prev, pend, k, Drop(pend, np));
      Requeue(Drop(pend, np));
    }

    method BeforeOnList(np: SpfNbr, ghost pend: seq<SpfNbr>) returns (prev: SpfNbr?, ghost k: nat)
      requires Chain(adjHead, adjTail, pend, sys.nbrs.Keys) && np in pend
      ensures k < |pend| && np == pend[k] && prev == if k == 0 then null else pend[k - 1]
    {
      prev, k := null, 0;
      var nbr := adjHead;
      while nbr != np
        invariant k < |pend| && nbr == pend[k] && np !in pend[..k] && prev == if k == 0 then null else pend[k - 1]
        decreases |pend| - k
      {
        prev := nbr;
        nbr := nbr.nextPend;
        assert np !in pend[..k + 1];
        k := k + 1;
      }
    }

    method CutOut(np: SpfNbr, prev: SpfNbr?, ghost was: seq<SpfNbr>, ghost k: nat, ghost rest: seq<SpfNbr>)
      requires Chain(adjHead, adjTail, was, sys.nbrs.Keys)
      requires k < |was| && np == was[k] && prev == if k == 0 then null else was[k - 1]
      requires rest == was[..k] + was[k + 1..] && NoDup(rest) && forall m :: m in rest <==> m in was && m != np
      modifies `adjHead, `adjTail, sys.nbrs.Keys`nextPend, np`adjPend
      ensures Chain(adjHead, adjTail, rest, sys.nbrs.Keys)
    {
      hide After, NoDup;
      AfterCut(was, k, rest);
      if prev == null {
        adjHead := np.nextPend;
      } else {
        prev.nextPend := np.nextPend;
      }
      if adjTail == np {
        adjTail := prev;
      }
      np.adjPend := false;
      forall i | 0 <= i < |rest|
        ensures rest[i].nextPend == After(rest, i)
      {
        assert rest[i] == was[if i < k then i else i + 1];
      }
    }

    // The first of the pending adjacencies leaves the list.
    method GetNextAdj() returns (np: SpfNbr?)
      requires Valid()
      modifies `adjHead, `adjTail, `sys, sys.nbrs.Keys`adjPend
      ensures Valid() && (np == null <==> old(sys).pend == [])
      ensures np != null ==> np == old(sys).pend[0] && sys == old(sys).(pend := old(sys).pend[1..])
      ensures np == null ==> sys == old(sys)
    {
      np := adjHead;
      if np == null {
        return;
      }
      ghost var was := sys.pend;
      TailNoDup(was);
      adjHead := np.nextPend;
      if adjHead == null {
        adjTail := null;
      }
      np.adjPend := false;
      sys := sys.(pend := was[1..]);
      forall i | 0 <= i < |sys.pend|
        ensures sys.pend[i].nextPend == After(sys.pend, i)
      {
        assert sys.pend[i] == was[i + 1];
      }
    }

    method SetState(np: SpfNbr, st: NbrState)
      requires Valid() && np in sys.nbrs
      modifies `sys, np`state
      ensures Valid() && sys == Put(old(sys), np, st)
    {
      hide Chain;
      np.state := st;
      sys := Put(sys, np, st);
      assert sys.nbrs.Keys == old(sys.nbrs.Keys);
    }

    method CountInit()
      requires Valid()
      modifies `nLclInits, `sys
      ensures Valid() && sys == old(sys).(lcl := old(sys).lcl + 1)
    {
      nLclInits := nLclInits + 1;
      sys := sys.(lcl := sys.lcl + 1);
    }

    method CountRemoteInit(np: SpfNbr)
      requires Valid() && np in sys.nbrs
      modifies `nRmtInits, `sys, np`rmtInit
      ensures Valid() && sys.rmt == old(sys).rmt + 1
      ensures sys == old(sys).(rmt := sys.rmt, nbrs := old(sys).nbrs[np := old(sys).nbrs[np].(rmt := true)])
    {
      hide Chain;
      np.rmtInit := true;
      nRmtInits := nRmtInits + 1;
      sys := sys.(rmt := sys.rmt + 1, nbrs := sys.nbrs[np := sys.nbrs[np].(rmt := true)]);
      assert sys.nbrs.Keys == old(sys.nbrs.Keys);
    }

    method CountDbx(d: int)
      requires Valid()
      modifies `nDbxNbrs, `sys
      ensures Valid() && sys == old(sys).(dbx := old(sys).dbx + d)
    {
      nDbxNbrs := nDbxNbrs + d;
      sys := sys.(dbx := sys.dbx + d);
    }

    // Evaluates whether to begin an adjacency on this router's own accord.
    method NbaEval1(np: SpfNbr, env: Env)
      requires Valid() && np in sys.nbrs
      modifies `nLclInits, `adjHead, `adjTail, `sys, sys.nbrs.Keys`nextPend, np`adjPend, np`state
      ensures Valid() && sys == TryLocal(old(sys), np, env)
    {
      hide Drop, Queued, Valid;
      Known(np);
      SetState(np, TwoWay);
      if !env.wanted {
        DelPendAdj(np);
      } else if !env.more {
        DelPendAdj(np);
      } else if nLclInits < maxDds {
        SetState(np, ExStart);
        CountInit();
        DelPendAdj(np);
      } else {
        AddPendAdj(np);
      }
    }

    // Evaluates whether to go along with an adjacency that the neighbour has begun.
    method NbaEval2(np: SpfNbr, env: Env)
      requires Valid() && np in sys.nbrs
      modifies `nRmtInits, `adjHead, `adjTail, `sys, sys.nbrs.Keys`nextPend, np`adjPend, np`state, np`rmtInit
      ensures Valid() && sys == TryRemote(old(sys), np, env)
    {
      hide Drop, Queued, Valid;
      Known(np);
      if !env.wanted {
        SetState(np, TwoWay);
      } else if nRmtInits < maxDds {
        CountRemoteInit(np);
        SetState(np, ExStart);
        DelPendAdj(np);
      } else {
        SetState(np, TwoWay);
        AddPendAdj(np);
      }
    }

    method DoAction(np: SpfNbr, a: Action, env: Env)
      requires Valid() && np in sys.nbrs
      modifies `nLclInits, `nRmtInits, `adjHead, `adjTail, `sys, sys.nbrs.Keys`nextPend, np`adjPend, np`state,
               np`rmtInit
      ensures Valid() && sys == Act(old(sys), np, a, env)
      ensures sys.nbrs.Keys == old(sys.nbrs.Keys) && sys.full == old(sys.full)
    {
      hide Drop, Queued, Valid;
      Known(np);
      match a {
        case Eval1 => NbaEval1(np, env);
        case Eval2 => NbaEval2(np, env);
        case ExchangeDone => SetState(np, if env.rqEmpty then Full else Loading);
        case Reeval =>
          if !env.wanted {
            DelPendAdj(np);
            SetState(np, TwoWay);
          }
        case RestartDd =>
          DelPendAdj(np);
          AddPendAdj(np);
        case Delete => DelPendAdj(np);
        case ClearLists => DelPendAdj(np);
        case HelloCheck =>
          if env.nbma {
            if !env.wanted && np.state.Attempt? {
              SetState(np, Down);
              DelPendAdj(np);
            } else if env.wanted && np.state.Down? {
              SetState(np, Attempt);
            }
          }
        case Nothing =>
        case StartHellos =>
        case RestartInact =>
        case StartInact =>
        case Snapshot =>
      }
    }

    method ExitDbxchg(np: SpfNbr)
      requires Valid() && np in sys.nbrs
      modifies `nLclInits, `nRmtInits, `sys, np`rmtInit
      ensures Valid() && sys == ExitDbx(old(sys), np)
      ensures sys.nbrs.Keys == old(sys.nbrs.Keys) && sys.full == old(sys.full)
    {
      hide Chain;
      sys := ExitDbx(sys, np);
      assert sys.nbrs.Keys == old(sys.nbrs.Keys);
      if np.rmtInit {
        nRmtInits := nRmtInits - 1;
      } else {
        nLclInits := nLclInits - 1;
      }
      np.rmtInit := false;
    }

    method CountFull(np: SpfNbr, d: int)
      requires Valid() && np in sys.nbrs
      modifies `sys, np.ifp`nFull
      ensures Valid() && sys == AddFull(old(sys), np.ifp, d) && sys.full.Keys == old(sys.full.Keys)
    {
      np.ifp.nFull := np.ifp.nFull + d;
      sys := AddFull(sys, np.ifp, d);
    }

    method KeepBooks(np: SpfNbr, before: NbrState)
      requires Valid() && np in sys.nbrs
      modifies `nDbxNbrs, `nLclInits, `nRmtInits, `sys, np`rmtInit, np.ifp`nFull
      ensures Valid() && sys == Book(old(sys), np, before)
      ensures sys.nbrs.Keys == old(sys.nbrs.Keys) && sys.full.Keys == old(sys.full.Keys)
    {
      hide ExitDbx, Valid;
      Known(np);
      if before == np.state {
        return;
      }
      if np.state.Full? {
        CountFull(np, 1);
        CountDbx(-1);
        ExitDbxchg(np);
      } else if Rank(before) <= Rank(ExStart) && Rank(np.state) > Rank(ExStart) {
        CountDbx(1);
      } else if before.Full? {
        CountFull(np, -1);
      } else if Rank(np.state) <= Rank(TwoWay) && Rank(before) >= Rank(ExStart) {
        if Rank(before) > Rank(ExStart) {
          CountDbx(-1);
        }
        ExitDbxchg(np);
      }
    }

    method NbrFsm(np: SpfNbr, event: Event, env: Env)
      requires Valid() && np in sys.nbrs
      modifies this, sys.nbrs.Keys`state, sys.nbrs.Keys`rmtInit, sys.nbrs.Keys`adjPend, sys.nbrs.Keys`nextPend,
               sys.full.Keys`nFull
      ensures Valid() && sys == Fire(old(sys), np, event, env)
      ensures sys.nbrs.Keys == old(sys.nbrs.Keys) && sys.full.Keys == old(sys.full.Keys)
    {
      hide Act, Book, FirstMatch, Valid;
      Known(np);
      var before := np.state;
      var row := RunFsm(np.state, event);
      if row.None? {
        return;
      }
      SetState(np, Target(row.value, before));
      DoAction(np, row.value.action, env);
      KeepBooks(np, before);
    }

    // Once a second: begins pending adjacencies, first come first served, up to the limit.
    method StartPending(envs: SpfNbr -> Env)
      requires Valid() && Inv(sys)
      modifies this, sys.nbrs.Keys`state, sys.nbrs.Keys`rmtInit, sys.nbrs.Keys`adjPend, sys.nbrs.Keys`nextPend,
               sys.full.Keys`nFull
      ensures Valid() && Inv(sys) && (sys.pend == [] || nLclInits == maxDds)
      ensures exists k :: 0 <= k <= |old(sys.pend)| && sys.pend == old(sys.pend)[k..]
    {
      hide Inv, Fire, Chain;
      ghost var k := 0;
      while nLclInits < maxDds
        invariant Valid() && Inv(sys)
        invariant sys.nbrs.Keys == old(sys.nbrs.Keys) && sys.full.Keys == old(sys.full.Keys)
        invariant k <= |old(sys.pend)| && sys.pend == old(sys.pend)[k..]
        decreases |sys.pend|
      {
        ghost var before := sys;
        PendingKnown(before);
        var np := GetNextAdj();
        if np == null {
          break;
        }
        NbrFsm(np, Eval, envs(np));
        StartFirstKeeps(before, envs(np), sys);
        k := k + 1;
      }
      InvBounds(sys);
    }

    // The body of a network-LSA: this router and the neighbours that are Full, which the count announces.
    method NlRawOrig(isDr: bool, ifp: SpfIfc, nlst: seq<SpfNbr>, myId: nat) returns (ids: array?<nat>)
      requires Valid() && Inv(sys) && ifp in sys.full
      requires NoDup(nlst) && forall n :: n in nlst <==> n in sys.nbrs && n.ifp == ifp
      ensures ids == null <==> !isDr || FullIds(nlst) == []
      ensures ids != null ==> fresh(ids) && ids[..] == [myId] + FullIds(nlst)
    {
      FullCounted(ifp, nlst);
      if !isDr {
        return null;
      } else if ifp.nFull == 0 {
        return null;
      }
      ids := new nat[ifp.nFull + 1];
      FillIds(nlst, myId, ids);
    }

    // if_nfull is the number of neighbours the loop will list.
    lemma FullCounted(ifp: SpfIfc, nlst: seq<SpfNbr>)
      requires Valid() && Inv(sys) && ifp in sys.full
      requires NoDup(nlst) && forall n :: n in nlst <==> n in sys.nbrs && n.ifp == ifp
      ensures ifp.nFull == |FullIds(nlst)|
    {
      FullIdsCount(nlst);
      assert FullNbrs(sys.nbrs, ifp) == set n | n in nlst && n.state.Full?;
    }
  }

  method FillIds(nlst: seq<SpfNbr>, myId: nat, ids: array<nat>)
    requires ids.Length == |FullIds(nlst)| + 1
    modifies ids
    ensures ids[..] == [myId] + FullIds(nlst)
  {
    ids[0] := myId;
    var next := 0;
    for k := 0 to |nlst|
      invariant next == |FullIds(nlst[..k])| && next < ids.Length && ids[..next + 1] == [myId] + FullIds(nlst[..k])
    {
      assert nlst[..k + 1][..k] == nlst[..k];
      FullIdsGrow(nlst, k + 1);
      if nlst[k].state.Full? {
        next := next + 1;
        ids[next] := nlst[k].id;
      }
    }
    assert nlst[..|nlst|] == nlst;
  }

  function FullIds(q: seq<SpfNbr>): seq<nat>
    reads q`state
  {
    if q == [] then []
    else FullIds(q[..|q| - 1]) + if q[|q| - 1].state.Full? then [q[|q| - 1].id] else []
  }

  lemma {:induction false} FullIdsGrow(q: seq<SpfNbr>, k: nat)
    requires k <= |q|
    ensures |FullIds(q[..k])| <= |FullIds(q)|
    decreases |q| - k
  {
    if k == |q| {
      assert q[..k] == q;
    } else {
      FullIdsGrow(q, k + 1);
      assert q[..k + 1][..k] == q[..k];
    }
  }

  lemma {:induction false} FullIdsCount(q: seq<SpfNbr>)
    requires NoDup(q)
    ensures |FullIds(q)| == |set n | n in q && n.state.Full?|
  {
    var s := set n | n in q && n.state.Full?;
    if q == [] {
      assert s == {};
    } else {
      var rest, n := q[..|q| - 1], q[|q| - 1];
      FullIdsCount(rest);
      var r := set n | n in rest && n.state.Full?;
      assert q == rest + [n] && n !in rest;
      assert s == if n.state.Full? then r + {n} else r;
    }
  }

  lemma PendingKnown(s: Sys)
    requires Inv(s)
    ensures forall n :: n in s.pend ==> n in s.nbrs
    ensures forall m :: m in s.nbrs ==> s.nbrs[m].ifp in s.full
  {
  }

  lemma InvBounds(s: Sys)
    requires Inv(s)
    ensures s.lcl <= s.maxDds && s.rmt <= s.maxDds
  {
  }
}
