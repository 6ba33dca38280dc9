// All the neighbours of a router and its counters of adjacencies in progress (nbrfsm.C): what every event keeps,
// and the program that keeps it, whose pending adjacencies are linked through the neighbours.

module Adjacencies {
  import opened Common
  import opened NeighbourMachine

  class SpfIfc {
    var nFull: int  // if_nfull

    constructor ()
      ensures nFull == 0
    {
      nFull := 0;
    }
  }

  class SpfNbr {
    const ifp: SpfIfc
    const id: nat
    var state: NbrState
    var rmtInit: bool       // n_rmt_init: the neighbour began the exchange
    var adjPend: bool       // n_adj_pend
    var nextPend: SpfNbr?   // n_next_pend

    constructor (ifp: SpfIfc, id: nat)
      ensures this.ifp == ifp && this.id == id && state == Down && !rmtInit && !adjPend
    {
      this.ifp, this.id, state, rmtInit, adjPend, nextPend := ifp, id, Down, false, false, null;
    }
  }

  // ---- The machine, on values

  datatype Info = Info(state: NbrState, rmt: bool, ifp: SpfIfc)

  datatype Sys = Sys(nbrs: map<SpfNbr, Info>, pend: seq<SpfNbr>, full: map<SpfIfc, int>, dbx: int, lcl: int, rmt: int,
          maxDds: nat)

  // What an event depends on beside the machine: whether the interface wants the adjacency and needs more of them,
  // whether the request list is empty, and whether the network has no broadcast.
  datatype Env = Env(wanted: bool, more: bool, rqEmpty: bool, nbma: bool)

  predicate Forming(s: NbrState) {
    s.ExStart? || s.Exchange? || s.Loading?
  }

  function Drop(q: seq<SpfNbr>, n: SpfNbr): seq<SpfNbr> {
    if q == [] then [] else if q[0] == n then q[1..] else [q[0]] + Drop(q[1..], n)
  }

  function Queued(q: seq<SpfNbr>, n: SpfNbr): seq<SpfNbr> {
    if n in q then q else q + [n]
  }

  function Put(s: Sys, n: SpfNbr, st: NbrState): Sys
    requires n in s.nbrs
  {
    s.(nbrs := s.nbrs[n := s.nbrs[n].(state := st)])
  }

  function TryLocal(s: Sys, n: SpfNbr, env: Env): Sys
    requires n in s.nbrs
  {
    if !env.wanted || !env.more then Put(s, n, TwoWay).(pend := Drop(s.pend, n))
    else if s.lcl < s.maxDds then Put(s, n, ExStart).(lcl := s.lcl + 1, pend := Drop(s.pend, n))
    else Put(s, n, TwoWay).(pend := Queued(s.pend, n))
  }

  function TryRemote(s: Sys, n: SpfNbr, env: Env): Sys
    requires n in s.nbrs
  {
    if !env.wanted then Put(s, n, TwoWay)
    else if s.rmt < s.maxDds then
      s.(nbrs := s.nbrs[n := s.nbrs[n].(state := ExStart, rmt := true)], rmt := s.rmt + 1, pend := Drop(s.pend, n))
    else Put(s, n, TwoWay).(pend := Queued(s.pend, n))
  }

  function CheckHellos(s: Sys, n: SpfNbr, env: Env): Sys
    requires n in s.nbrs
  {
    if !env.nbma then s
    else if !env.wanted && s.nbrs[n].state.Attempt? then Put(s, n, Down).(pend := Drop(s.pend, n))
    else if env.wanted && s.nbrs[n].state.Down? then Put(s, n, Attempt)
    else s
  }

  function Act(s: Sys, n: SpfNbr, a: Action, env: Env): (t: Sys)
    requires n in s.nbrs
    ensures t.nbrs.Keys == s.nbrs.Keys && t.nbrs[n].ifp == s.nbrs[n].ifp && t.full == s.full
  {
    match a
    case Eval1 => TryLocal(s, n, env)
    case Eval2 => TryRemote(s, n, env)
    case ExchangeDone => Put(s, n, if env.rqEmpty then Full else Loading)
    case Reeval => if env.wanted then s else Put(s, n, TwoWay).(pend := Drop(s.pend, n))
    case RestartDd => s.(pend := Queued(Drop(s.pend, n), n))
    case Delete => s.(pend := Drop(s.pend, n))
    case ClearLists => s.(pend := Drop(s.pend, n))
    case HelloCheck => CheckHellos(s, n, env)
    case Nothing => s
    case StartHellos => s
    case RestartInact => s
    case StartInact => s
    case Snapshot => s
  }

  function ExitDbx(s: Sys, n: SpfNbr): Sys
    requires n in s.nbrs
  {
    var t := s.(nbrs := s.nbrs[n := s.nbrs[n].(rmt := false)]);
    if s.nbrs[n].rmt then t.(rmt := t.rmt - 1) else t.(lcl := t.lcl - 1)
  }

  function AddFull(s: Sys, i: SpfIfc, d: int): Sys
    requires i in s.full
  {
    s.(full := s.full[i := s.full[i] + d])
  }

  // The accounts after a change of state.
  function Book(s: Sys, n: SpfNbr, before: NbrState): Sys
    requires n in s.nbrs && s.nbrs[n].ifp in s.full
  {
    var after := s.nbrs[n].state;
    if before == after then s
    else if after.Full? then ExitDbx(AddFull(s, s.nbrs[n].ifp, 1).(dbx := s.dbx - 1), n)
    else if Rank(before) <= Rank(ExStart) && Rank(after) > Rank(ExStart) then s.(dbx := s.dbx + 1)
    else if before.Full? then AddFull(s, s.nbrs[n].ifp, -1)
    else if Rank(after) <= Rank(TwoWay) && Rank(before) >= Rank(ExStart) then
      ExitDbx(s.(dbx := if Rank(before) > Rank(ExStart) then s.dbx - 1 else s.dbx), n)
    else s
  }

  function Fire(s: Sys, n: SpfNbr, e: Event, env: Env): Sys
    requires n in s.nbrs && forall m :: m in s.nbrs ==> s.nbrs[m].ifp in s.full
  {
    match FirstMatch(0, s.nbrs[n].state, e)
    case None => s
    case Some(row) =>
      Fired(s, n, row.action, Target(row, s.nbrs[n].state), env)
  }

  function Fired(s: Sys, n: SpfNbr, a: Action, st: NbrState, env: Env): Sys
    requires n in s.nbrs && s.nbrs[n].ifp in s.full
  {
    var t := Act(Put(s, n, st), n, a, env);
    Book(t, n, s.nbrs[n].state)
  }

  // ---- What the counters count

  predicate IsDbx(i: Info) {
    i.state.Exchange? || i.state.Loading?
  }

  predicate IsLocal(i: Info) {
    Forming(i.state) && !i.rmt
  }

  predicate IsRemote(i: Info) {
    Forming(i.state) && i.rmt
  }

  predicate IsFull(i: Info) {
    i.state.Full?
  }

  ghost function Those(m: map<SpfNbr, Info>, p: Info -> bool): set<SpfNbr> {
    set n | n in m && p(m[n])
  }

  ghost function Count(m: map<SpfNbr, Info>, p: Info -> bool): nat {
    |Those(m, p)|
  }

  ghost function FullNbrs(m: map<SpfNbr, Info>, i: SpfIfc): set<SpfNbr> {
    set n | n in m && IsFull(m[n]) && m[n].ifp == i
  }

  ghost function FullOn(m: map<SpfNbr, Info>, i: SpfIfc): nat {
    |FullNbrs(m, i)|
  }

  predicate NoDup(q: seq<SpfNbr>) {
    forall i, j :: 0 <= i < j < |q| ==> q[i] != q[j]
  }

  ghost predicate Inv(s: Sys) {
    && s.dbx == Count(s.nbrs, IsDbx)
    && s.lcl == Count(s.nbrs, IsLocal) <= s.maxDds
    && s.rmt == Count(s.nbrs, IsRemote) <= s.maxDds
    && (forall n :: n in s.nbrs ==> s.nbrs[n].ifp in s.full && (s.nbrs[n].rmt ==> Forming(s.nbrs[n].state)))
    && (forall i :: i in s.full ==> s.full[i] == FullOn(s.nbrs, i))
    && NoDup(s.pend)
    && (forall n :: n in s.pend ==> n in s.nbrs && s.nbrs[n].state.TwoWay?)
  }

  function One(b: bool): int {
    if b then 1 else 0
  }

  lemma SetSplit(a: set<SpfNbr>, n: SpfNbr)
    ensures |a| == |a - {n}| + One(n in a)
  {
    assert n in a ==> a == (a - {n}) + {n};
    assert n !in a ==> a == a - {n};
  }

  lemma CountChange(m: map<SpfNbr, Info>, n: SpfNbr, v: Info, p: Info -> bool, m': map<SpfNbr, Info>)
    requires n in m && m' == m[n := v]
    ensures Count(m', p) == Count(m, p) - One(p(m[n])) + One(p(v))
  {
    var before, after := Those(m, p), Those(m', p);
    assert before - {n} == after - {n};
    SetSplit(before, n);
    SetSplit(after, n);
  }

  lemma FullChange(m: map<SpfNbr, Info>, n: SpfNbr, v: Info, i: SpfIfc, m': map<SpfNbr, Info>)
    requires n in m && v.ifp == m[n].ifp && m' == m[n := v]
    ensures FullOn(m', i) == FullOn(m, i) + if m[n].ifp == i then One(IsFull(v)) - One(IsFull(m[n])) else 0
  {
    var before, after := FullNbrs(m, i), FullNbrs(m', i);
    assert before - {n} == after - {n};
    SetSplit(before, n);
    SetSplit(after, n);
  }

  // t is s after the neighbour n went from its information to v.
  ghost predicate Moved(s: Sys, n: SpfNbr, v: Info, t: Sys)
    requires n in s.nbrs && v.ifp in s.full
  {
    var u := s.nbrs[n];
    && v.ifp == u.ifp && t.nbrs == s.nbrs[n := v] && t.maxDds == s.maxDds
    && t.dbx == s.dbx - One(IsDbx(u)) + One(IsDbx(v))
    && t.lcl == s.lcl - One(IsLocal(u)) + One(IsLocal(v)) && (IsLocal(v) && !IsLocal(u) ==> s.lcl < s.maxDds)
    && t.rmt == s.rmt - One(IsRemote(u)) + One(IsRemote(v)) && (IsRemote(v) && !IsRemote(u) ==> s.rmt < s.maxDds)
    && t.full == s.full[v.ifp := s.full[v.ifp] - One(IsFull(u)) + One(IsFull(v))]
    && (v.rmt ==> Forming(v.state))
  }

  // What becomes of the pending list.
  ghost predicate Requeued(s: Sys, n: SpfNbr, v: Info, t: Sys) {
    if v.state.TwoWay? then t.pend in {s.pend, Drop(s.pend, n), Queued(s.pend, n), Queued(Drop(s.pend, n), n)}
    else t.pend == Drop(s.pend, n) || (t.pend == s.pend && n !in s.pend)
  }

  lemma {:induction false} DropFacts(q: seq<SpfNbr>, n: SpfNbr)
    requires NoDup(q)
    ensures NoDup(Drop(q, n)) && n !in Drop(q, n)
    ensures forall m :: m in Drop(q, n) <==> m in q && m != n
    ensures n !in q ==> Drop(q, n) == q
  {
    if q != [] {
      var rest := q[1..];
      assert q == [q[0]] + rest;
      assert q[0] !in rest;
      assert NoDup(rest) by {
        assert forall i :: 0 <= i < |rest| ==> rest[i] == q[i + 1];
      }
      if q[0] != n {
        DropFacts(rest, n);
        NoDupCons(q[0], Drop(rest, n));
      }
    }
  }

  lemma NoDupCons(x: SpfNbr, q: seq<SpfNbr>)
    requires NoDup(q) && x !in q
    ensures NoDup([x] + q)
  {
  }

  lemma MovedKeeps(s: Sys, n: SpfNbr, v: Info, t: Sys)
    requires Inv(s) && n in s.nbrs && v.ifp in s.full && Moved(s, n, v, t) && Requeued(s, n, v, t)
    ensures Inv(t)
  {
    CountChange(s.nbrs, n, v, IsDbx, t.nbrs);
    CountChange(s.nbrs, n, v, IsLocal, t.nbrs);
    CountChange(s.nbrs, n, v, IsRemote, t.nbrs);
    forall i | i in t.full
      ensures t.full[i] == FullOn(t.nbrs, i)
    {
      FullChange(s.nbrs, n, v, i, t.nbrs);
    }
    RequeuedKeeps(s, n, v, t);
  }

  lemma RequeuedKeeps(s: Sys, n: SpfNbr, v: Info, t: Sys)
    requires Inv(s) && n in s.nbrs && t.nbrs == s.nbrs[n := v] && Requeued(s, n, v, t)
    ensures NoDup(t.pend) && forall m :: m in t.pend ==> m in t.nbrs && t.nbrs[m].state.TwoWay?
  {
    DropFacts(s.pend, n);
  }

  // How far the action takes the neighbour, before the accounts are made up.
  ghost predicate Acted(s: Sys, n: SpfNbr, w: Info, t: Sys)
    requires n in s.nbrs
  {
    var u := s.nbrs[n];
    && w.ifp == u.ifp && t.nbrs == s.nbrs[n := w] && t.full == s.full && t.dbx == s.dbx && t.maxDds == s.maxDds
    && if w.state.ExStart? && !u.state.ExStart? then
         && (u.state.Init? || u.state.TwoWay?)
         && if w.rmt then t.rmt == s.rmt + 1 <= s.maxDds && t.lcl == s.lcl
              else t.lcl == s.lcl + 1 <= s.maxDds && t.rmt == s.rmt
       else
         && t.rmt == s.rmt && t.lcl == s.lcl && w.rmt == u.rmt
         && match w.state
            case Exchange => u.state.Exchange? || u.state.ExStart?
            case Loading => u.state.Loading? || u.state.Exchange?
            case Full => u.state.Full? || u.state.Exchange? || u.state.Loading?
            case _ => true
  }

  lemma BookMoves(s: Sys, n: SpfNbr, w: Info, m: Sys, t: Sys, v: Info)
    requires Inv(s) && n in s.nbrs && Acted(s, n, w, m)
    requires w.ifp in m.full && t == Book(m, n, s.nbrs[n].state) && v == w.(rmt := w.rmt && Forming(w.state))
    ensures Moved(s, n, v, t) && t.pend == m.pend
  {
    hide Count, FullOn;
    assert m.nbrs[n] == w;
    assert s.full[w.ifp := s.full[w.ifp] - 0] == s.full;
  }

  // In which states each action is taken.
  lemma ActionStates(u: NbrState, e: Event, a: Action, st: NbrState)
    requires Response(u, e) == Some((a, st))
    ensures a.Eval1? || a.Eval2? ==> st == u && (u.Init? || u.TwoWay?)
    ensures a.Snapshot? ==> u.ExStart? && st.Exchange?
    ensures a.ExchangeDone? ==> u.Exchange? && st.Exchange?
    ensures a.Reeval? || a.HelloCheck? ==> st == u && !u.TwoWay? && (a.HelloCheck? <==> Rank(u) < Rank(TwoWay))
    ensures a.RestartDd? ==> st.TwoWay?
    ensures a.Delete? || a.ClearLists? || a.StartHellos? || a.StartInact? ==> Rank(st) < Rank(TwoWay)
    ensures a.StartHellos? || a.StartInact? ==> u.Down?
    ensures a.Nothing? || a.RestartInact? ==> st == u || (u.Loading? && st.Full?) || (u.Attempt? && st.Init?)
  {
  }

  // What each action does to the neighbour and to the pending list.
  lemma ActActs(s: Sys, n: SpfNbr, e: Event, a: Action, st: NbrState, env: Env, m: Sys, w: Info)
    requires Inv(s) && n in s.nbrs && Response(s.nbrs[n].state, e) == Some((a, st))
    requires m == Act(Put(s, n, st), n, a, env) && n in m.nbrs && w == m.nbrs[n]
    ensures Acted(s, n, w, m) && Requeued(s, n, w, m)
  {
    hide Count, FullOn, NoDup, Drop, Response;
    ActionStates(s.nbrs[n].state, e, a, st);
    DropFacts(s.pend, n);
  }

  // Every event moves one neighbour, and the accounts follow.
  lemma FireKeeps(s: Sys, n: SpfNbr, e: Event, env: Env, t: Sys)
    requires Inv(s) && n in s.nbrs && t == Fire(s, n, e, env)
    ensures Inv(t) && t.nbrs.Keys == s.nbrs.Keys && t.maxDds == s.maxDds
  {
    TableResponse(s.nbrs[n].state, e);
    hide FirstMatch;
    if Response(s.nbrs[n].state, e).Some? {
      var r := Response(s.nbrs[n].state, e).value;
      FiredKeeps(s, n, e, r.0, r.1, env, t);
    }
  }

  lemma FiredKeeps(s: Sys, n: SpfNbr, e: Event, a: Action, st: NbrState, env: Env, t: Sys)
    requires Inv(s) && n in s.nbrs && Response(s.nbrs[n].state, e) == Some((a, st)) && t == Fired(s, n, a, st, env)
    ensures Inv(t) && t.nbrs.Keys == s.nbrs.Keys && t.maxDds == s.maxDds
  {
    hide Act, Book, Count, FullOn, NoDup, Response;
    var m := Act(Put(s, n, st), n, a, env);
    var w := m.nbrs[n];
    ActActs(s, n, e, a, st, env, m, w);
    BookMoves(s, n, w, m, t, w.(rmt := w.rmt && Forming(w.state)));
    MovedKeeps(s, n, w.(rmt := w.rmt && Forming(w.state)), t);
  }

  // ---- Where an event takes the neighbour

  // What an event finds: the state of the neighbour, and whether there is room for one more exchange begun by this
  // router, and by the neighbour.
  datatype Case = Case(u: NbrState, e: Event, env: Env, local: bool, remote: bool)

  function CaseOf(s: Sys, n: SpfNbr, e: Event, env: Env): Case
    requires n in s.nbrs
  {
    Case(s.nbrs[n].state, e, env, s.lcl < s.maxDds, s.rmt < s.maxDds)
  }

  // The neighbour is considered on the router's own accord, or because it has begun itself.
  predicate Considered(c: Case) {
    (c.u.Init? && c.e.TwoWaySeen?) || (c.u.TwoWay? && c.e.Eval?)
  }

  predicate Asks(c: Case) {
    (c.u.Init? || c.u.TwoWay?) && c.e.DdRcvd?
  }

  predicate MayBegin(c: Case) {
    c.env.wanted && ((Considered(c) && c.env.more && c.local) || (Asks(c) && c.remote))
  }

  // The adjacency is broken off, to begin again.
  predicate BrokenOff(c: Case) {
    (Forming(c.u) || c.u.Full?) && (c.e.AdjTmo? || (!c.u.ExStart? && (c.e.DdSeqNo? || c.e.BadLsReq?)))
  }

  // It is no longer wanted.
  predicate GivenUp(c: Case) {
    (Forming(c.u) || c.u.Full?) && c.e.Eval? && !c.env.wanted
  }

  // The state an action leaves, and whether the neighbour is pending then.
  function StateOf(c: Case, a: Action, st: NbrState): NbrState {
    match a
    case Eval1 => if c.env.wanted && c.env.more && c.local then ExStart else TwoWay
    case Eval2 => if c.env.wanted && c.remote then ExStart else TwoWay
    case ExchangeDone => if c.env.rqEmpty then Full else Loading
    case Reeval => if c.env.wanted then st else TwoWay
    case HelloCheck =>
      if !c.env.nbma then st
      else if !c.env.wanted && st.Attempt? then Down
      else if c.env.wanted && st.Down? then Attempt
      else st
    case _ => st
  }

  function PendOf(c: Case, a: Action, was: bool): bool {
    match a
    case Eval1 => c.env.wanted && c.env.more && !c.local
    case Eval2 => if c.env.wanted then !c.remote else was
    case Reeval => c.env.wanted && was
    case RestartDd => true
    case Delete => false
    case ClearLists => false
    case HelloCheck => was && !(c.env.nbma && !c.env.wanted && c.u.Attempt?)
    case _ => was
  }

  // By the table in closed form.
  function StateAfter(c: Case): NbrState {
    var r := Response(c.u, c.e);
    if r.None? then c.u else StateOf(c, r.value.0, r.value.1)
  }

  function PendAfter(c: Case, was: bool): bool {
    var r := Response(c.u, c.e);
    if r.None? then was else PendOf(c, r.value.0, was)
  }

  lemma ActState(s: Sys, n: SpfNbr, a: Action, c: Case, st: NbrState, w: Sys)
    requires n in s.nbrs && c.local == (s.lcl < s.maxDds) && c.remote == (s.rmt < s.maxDds)
    requires w == Act(Put(s, n, st), n, a, c.env)
    ensures w.nbrs[n].state == StateOf(c, a, st)
    ensures forall m :: m in s.nbrs && m != n ==> w.nbrs[m] == s.nbrs[m]
  {
    hide Drop, Queued;
  }

  // The pending list, with n on it or not: where it was, or behind the others.
  function PendIs(q: seq<SpfNbr>, n: SpfNbr, on: bool, again: bool): seq<SpfNbr> {
    if !on then Drop(q, n) else if n in q && !again then q else Drop(q, n) + [n]
  }

  lemma PendIsFacts(q: seq<SpfNbr>, n: SpfNbr, on: bool, again: bool)
    requires NoDup(q)
    ensures n in PendIs(q, n, on, again) <==> on
    ensures Drop(PendIs(q, n, on, again), n) == Drop(q, n)
  {
    hide NoDup, Drop, Queued;
    DropFacts(q, n);
    QueuedDrops(q, n);
    QueuedDrops(Drop(q, n), n);
  }

  lemma ActPend(s: Sys, n: SpfNbr, a: Action, c: Case, st: NbrState, w: Sys)
    requires NoDup(s.pend) && n in s.nbrs && c.local == (s.lcl < s.maxDds) && c.remote == (s.rmt < s.maxDds)
    requires w == Act(Put(s, n, st), n, a, c.env) && (a.HelloCheck? ==> st == c.u)
    ensures w.pend == PendIs(s.pend, n, PendOf(c, a, n in s.pend), a.RestartDd?)
  {
    hide NoDup, Drop, Queued;
    DropFacts(s.pend, n);
    QueuedDrops(s.pend, n);
    QueuedDrops(Drop(s.pend, n), n);
  }

  // The accounts do not change the state.
  lemma Accounts(s: Sys, n: SpfNbr, before: NbrState, t: Sys)
    requires n in s.nbrs && s.nbrs[n].ifp in s.full && t == Book(s, n, before)
    ensures t.nbrs.Keys == s.nbrs.Keys && t.nbrs[n].state == s.nbrs[n].state && t.pend == s.pend
    ensures forall m :: m in s.nbrs && m != n ==> t.nbrs[m] == s.nbrs[m]
  {
  }

  lemma Restarts(c: Case)
    ensures BrokenOff(c) <==> Response(c.u, c.e).Some? && Response(c.u, c.e).value.0 == RestartDd
  {
    hide Rank;
  }

  // What an event comes to.
  lemma FireIs(s: Sys, n: SpfNbr, e: Event, env: Env, t: Sys, c: Case)
    requires Inv(s) && n in s.nbrs && t == Fire(s, n, e, env) && c == CaseOf(s, n, e, env)
    ensures t.nbrs.Keys == s.nbrs.Keys && forall m :: m in s.nbrs && m != n ==> t.nbrs[m] == s.nbrs[m]
    ensures t.nbrs[n].state == StateAfter(c)
    ensures (n in t.pend <==> PendAfter(c, n in s.pend)) && Drop(t.pend, n) == Drop(s.pend, n)
    ensures n in t.pend ==> t.pend == if n in s.pend && !BrokenOff(c) then s.pend else Drop(s.pend, n) + [n]
  {
    hide Response, FirstMatch, Book, Act, Count, FullOn, NoDup, Drop, StateOf, PendOf, BrokenOff;
    TableResponse(c.u, e);
    Restarts(c);
    if Response(c.u, e).Some? {
      var r := Response(c.u, e).value;
      ActionStates(c.u, e, r.0, r.1);
      var w := Act(Put(s, n, r.1), n, r.0, env);
      ActState(s, n, r.0, c, r.1, w);
      ActPend(s, n, r.0, c, r.1, w);
      PendIsFacts(s.pend, n, PendOf(c, r.0, n in s.pend), r.0.RestartDd?);
      Accounts(w, n, c.u, t);
    }
  }

  // Who becomes Full, Loading, Exchange and ExStart.
  lemma GoesOn(c: Case)
    ensures var u, v, e := c.u, StateAfter(c), c.e;
            && (v.Full? && !u.Full? <==> (u.Exchange? && e.ExchDone? && c.env.rqEmpty) || (u.Loading? && e.LoadDone?))
            && (v.Loading? && !u.Loading? <==> u.Exchange? && e.ExchDone? && !c.env.rqEmpty)
            && (v.Exchange? && !u.Exchange? <==> u.ExStart? && e.NegDone?)
            && (v.ExStart? && !u.ExStart? <==> MayBegin(c))
  {
    hide Rank;
  }

  // Who falls back to 2-Way, or does not get further, and who to less.
  lemma FallsBack(c: Case)
    ensures var u, v, e := c.u, StateAfter(c), c.e;
            && (v.TwoWay? && !u.TwoWay? <==>
                  (u.Init? && (Considered(c) || Asks(c)) && !MayBegin(c)) || GivenUp(c) || BrokenOff(c))
            && (v.Init? && !u.Init? <==>
                  (e.Hello? && (u.Down? || u.Attempt?)) || (e.OneWay? && Rank(u) >= Rank(TwoWay)))
            && (v.Attempt? && !u.Attempt? <==> u.Down? && (e.Start? || (e.Eval? && c.env.nbma && c.env.wanted)))
            && (v.Down? && !u.Down? <==>
                  (e.Destroy? || e.LlDown? || e.Inactive? || (u.Attempt? && e.Eval? && c.env.nbma && !c.env.wanted))
                  && !u.Down?)
  {
  }

  // Who is pending afterwards: those there is no room for yet, those to begin again, and those that were in 2-Way and
  // are not reconsidered.
  lemma WhoWaits(c: Case, was: bool)
    requires was ==> c.u.TwoWay?
    ensures PendAfter(c, was) <==>
              || BrokenOff(c)
              || (Considered(c) && c.env.wanted && c.env.more && !c.local)
              || (Asks(c) && c.env.wanted && !c.remote)
              || (!Considered(c) && !(Asks(c) && c.env.wanted) && StateAfter(c).TwoWay? && was)
  {
    hide Rank;
  }

  // Where an event takes a neighbour, and whether it is pending then, behind all others if it was not before or is to
  // begin again; no other neighbour changes, and the others that are pending keep their order.
  lemma EventTakes(s: Sys, n: SpfNbr, e: Event, env: Env, t: Sys, c: Case)
    requires Inv(s) && n in s.nbrs && t == Fire(s, n, e, env) && c == CaseOf(s, n, e, env)
    ensures n in t.nbrs && Drop(t.pend, n) == Drop(s.pend, n)
    ensures forall m :: m in s.nbrs && m != n ==> m in t.nbrs && t.nbrs[m] == s.nbrs[m]
    ensures var u, v := c.u, t.nbrs[n].state;
            && (v.Full? && !u.Full? <==> (u.Exchange? && e.ExchDone? && env.rqEmpty) || (u.Loading? && e.LoadDone?))
            && (v.Loading? && !u.Loading? <==> u.Exchange? && e.ExchDone? && !env.rqEmpty)
            && (v.Exchange? && !u.Exchange? <==> u.ExStart? && e.NegDone?)
            && (v.ExStart? && !u.ExStart? <==> MayBegin(c))
            && (v.TwoWay? && !u.TwoWay? <==>
                  (u.Init? && (Considered(c) || Asks(c)) && !MayBegin(c)) || GivenUp(c) || BrokenOff(c))
    ensures n in t.pend <==>
              || BrokenOff(c)
              || (Considered(c) && env.wanted && env.more && !c.local)
              || (Asks(c) && env.wanted && !c.remote)
              || (!Considered(c) && !(Asks(c) && env.wanted) && t.nbrs[n].state.TwoWay? && n in s.pend)
    ensures n in t.pend ==> t.pend == if n in s.pend && !BrokenOff(c) then s.pend else Drop(s.pend, n) + [n]
  {
    hide Fire, Count, FullOn, NoDup, Drop, StateAfter, PendAfter, MayBegin, Considered, Asks, GivenUp, BrokenOff;
    FireIs(s, n, e, env, t, c);
    GoesOn(c);
    FallsBack(c);
    WhoWaits(c, n in s.pend);
  }

  lemma {:induction false} QueuedDrops(q: seq<SpfNbr>, n: SpfNbr)
    requires NoDup(q)
    ensures Drop(Queued(q, n), n) == Drop(q, n) && Drop(Drop(q, n), n) == Drop(q, n) && n in Queued(q, n)
    ensures Queued(q, n) == if n in q then q else Drop(q, n) + [n]
  {
    DropFacts(q, n);
    DropFacts(Drop(q, n), n);
    if n !in q {
      DropLast(q, n);
    }
  }

  lemma {:induction false} DropLast(q: seq<SpfNbr>, n: SpfNbr)
    requires n !in q
    ensures Drop(q + [n], n) == q
  {
    if q == [] {
    } else {
      assert (q + [n])[1..] == q[1..] + [n];
      DropLast(q[1..], n);
    }
  }

  // ---- Runs

  datatype Step =
    | Appears(n: SpfNbr, ifp: SpfIfc)
    | Happens(n: SpfNbr, e: Event, env: Env)
    | StartNext(env: Env)                 // the aging timer starts the first pending adjacency
    | Rescan(n: SpfNbr, needed: bool)     // adj_change, for another link to the same neighbour
    | Goes(n: SpfNbr)                     // a neighbour that is down is deleted

  function StartFirst(s: Sys, env: Env): Sys
    requires s.pend != [] && s.pend[0] in s.nbrs && forall m :: m in s.nbrs ==> s.nbrs[m].ifp in s.full
  {
    Fire(s.(pend := s.pend[1..]), s.pend[0], Eval, env)
  }

  ghost function Next(s: Sys, x: Step): Sys
    requires Inv(s)
  {
    match x
    case Appears(n, ifp) =>
      if n in s.nbrs then s
      else s.(nbrs := s.nbrs[n := Info(Down, false, ifp)], full := if ifp in s.full then s.full else s.full[ifp := 0])
    case Happens(n, e, env) => if n in s.nbrs then Fire(s, n, e, env) else s
    case StartNext(env) => if s.lcl < s.maxDds && s.pend != [] then StartFirst(s, env) else s
    case Rescan(n, needed) =>
      if n !in s.nbrs || !s.nbrs[n].state.TwoWay? then s
      else s.(pend := if needed then Queued(s.pend, n) else Drop(s.pend, n))
    case Goes(n) => if n in s.nbrs && s.nbrs[n].state.Down? then s.(nbrs := s.nbrs - {n}) else s
  }

  lemma AppearsKeeps(s: Sys, n: SpfNbr, ifp: SpfIfc, t: Sys)
    requires Inv(s) && n !in s.nbrs
    requires t == s.(nbrs := s.nbrs[n := Info(Down, false, ifp)], full := if ifp in s.full then s.full
             else s.full[ifp := 0])
    ensures Inv(t)
  {
    assert Those(t.nbrs, IsDbx) == Those(s.nbrs, IsDbx) && Those(t.nbrs, IsLocal) == Those(s.nbrs, IsLocal);
    assert Those(t.nbrs, IsRemote) == Those(s.nbrs, IsRemote);
    forall i | i in t.full
      ensures t.full[i] == FullOn(t.nbrs, i)
    {
      assert FullNbrs(t.nbrs, i) == FullNbrs(s.nbrs, i);
      assert i !in s.full ==> FullNbrs(s.nbrs, i) == {};
    }
  }

  lemma GoesKeeps(s: Sys, n: SpfNbr, t: Sys)
    requires Inv(s) && n in s.nbrs && s.nbrs[n].state.Down? && t == s.(nbrs := s.nbrs - {n})
    ensures Inv(t)
  {
    assert Those(t.nbrs, IsDbx) == Those(s.nbrs, IsDbx) && Those(t.nbrs, IsLocal) == Those(s.nbrs, IsLocal);
    assert Those(t.nbrs, IsRemote) == Those(s.nbrs, IsRemote);
    forall i | i in t.full
      ensures t.full[i] == FullOn(t.nbrs, i)
    {
      assert FullNbrs(t.nbrs, i) == FullNbrs(s.nbrs, i);
    }
  }

  lemma TailNoDup(q: seq<SpfNbr>)
    requires NoDup(q) && q != []
    ensures NoDup(q[1..]) && q[0] !in q[1..]
  {
    assert forall i :: 0 <= i < |q[1..]| ==> q[1..][i] == q[i + 1];
  }

  // Starting the first pending adjacency takes it off the list for good: the timer's loop ends.
  lemma StartFirstKeeps(s: Sys, env: Env, t: Sys)
    requires Inv(s) && s.lcl < s.maxDds && s.pend != [] && t == StartFirst(s, env)
    ensures Inv(t) && t.pend == s.pend[1..] && t.nbrs.Keys == s.nbrs.Keys && t.maxDds == s.maxDds
    ensures env.wanted && env.more ==> t.nbrs[s.pend[0]].state.ExStart? && t.lcl == s.lcl + 1
  {
    hide Count, FullOn, Fire;
    TailNoDup(s.pend);
    var n, r := s.pend[0], s.(pend := s.pend[1..]);
    FireKeeps(r, n, Eval, env, t);
    EvalStarts(r, n, env, t);
  }

  // What evaluating a neighbour in 2-Way comes to below the limit.
  lemma EvalStarts(s: Sys, n: SpfNbr, env: Env, t: Sys)
    requires n in s.nbrs && s.nbrs[n].state.TwoWay? && forall m :: m in s.nbrs ==> s.nbrs[m].ifp in s.full
    requires NoDup(s.pend) && n !in s.pend && s.lcl < s.maxDds && t == Fire(s, n, Eval, env) && n in t.nbrs
    ensures t.pend == s.pend
    ensures env.wanted && env.more ==> t.nbrs[n].state.ExStart? && t.lcl == s.lcl + 1
  {
    hide FirstMatch, NbrFsm, Drop, Queued;
    TableResponse(TwoWay, Eval);
    DropFacts(s.pend, n);
  }

  lemma RescanKeeps(s: Sys, n: SpfNbr, needed: bool, t: Sys)
    requires Inv(s) && n in s.nbrs && s.nbrs[n].state.TwoWay?
    requires t == s.(pend := if needed then Queued(s.pend, n) else Drop(s.pend, n))
    ensures Inv(t)
  {
    DropFacts(s.pend, n);
  }

  // Every step keeps the counters and the pending list right.
  lemma NextKeeps(s: Sys, x: Step, t: Sys)
    requires Inv(s) && t == Next(s, x)
    ensures Inv(t) && t.maxDds == s.maxDds
  {
    hide Inv, Fire, StartFirst, Drop, Queued;
    match x
    case Appears(n, ifp) =>
      if n !in s.nbrs {
        AppearsKeeps(s, n, ifp, t);
      }
    case Happens(n, e, env) =>
      if n in s.nbrs {
        FireKeeps(s, n, e, env, t);
      }
    case StartNext(env) =>
      if s.lcl < s.maxDds && s.pend != [] {
        StartFirstKeeps(s, env, t);
      }
    case Rescan(n, needed) =>
      if n in s.nbrs && s.nbrs[n].state.TwoWay? {
        RescanKeeps(s, n, needed, t);
      }
    case Goes(n) =>
      if n in s.nbrs && s.nbrs[n].state.Down? {
        GoesKeeps(s, n, t);
      }
  }

  ghost predicate Run(s: seq<Sys>, xs: seq<Step>) {
    && |s| == |xs| + 1
    && s[0].nbrs == map[] && s[0].full == map[] && s[0].pend == [] && s[0].dbx == s[0].lcl == s[0].rmt == 0
    && forall i :: 0 <= i < |xs| ==> Inv(s[i]) ==> s[i + 1] == Next(s[i], xs[i])
  }

  // In every state of every run the counters are what their names say.
  lemma {:induction false} EveryRun(s: seq<Sys>, xs: seq<Step>, i: nat)
    requires Run(s, xs) && i <= |xs|
    ensures Inv(s[i]) && s[i].maxDds == s[0].maxDds
  {
    if i == 0 {
      assert Those(s[0].nbrs, IsDbx) == {} && Those(s[0].nbrs, IsLocal) == {} && Those(s[0].nbrs, IsRemote) == {};
    } else {
      EveryRun(s, xs, i - 1);
      NextKeeps(s[i - 1], xs[i - 1], s[i]);
    }
  }

  // MaxAge LSAs may go when n_dbx_nbrs is zero: then no neighbour is in Exchange or Loading.
  lemma NoneExchanging(s: Sys)
    requires Inv(s)
    ensures s.dbx == 0 <==> forall n :: n in s.nbrs ==> !IsDbx(s.nbrs[n])
  {
    assert s.dbx == 0 <==> Those(s.nbrs, IsDbx) == {};
    assert forall n :: n in s.nbrs && IsDbx(s.nbrs[n]) ==> n in Those(s.nbrs, IsDbx);
  }
}
