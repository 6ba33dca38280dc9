// Link state retransmission lists (spfack.C): three lists to a neighbour, a window, a timer, and in every LSA the
// number of lists it is on.

module Retransmission {
  import opened Common
  import Adj = Adjacencies

  type SpfNbr = Adj.SpfNbr

  class Lsa {
    var rxmt: int  // lsa_rxmt

    constructor ()
      ensures rxmt == 0
    {
      rxmt := 0;
    }
  }

  const WINDOW_MOD: nat := 0x1_0000  // n_rxmt_window is 16 bits wide

  // ---- Lists

  function Without(q: seq<Lsa>, x: Lsa): seq<Lsa> {
    if q == [] then [] else if q[0] == x then q[1..] else [q[0]] + Without(q[1..], x)
  }

  // The valid LSAs of a list.
  function Collected(q: seq<Lsa>, db: set<Lsa>): seq<Lsa> {
    if q == [] then [] else (if q[0] in db then [q[0]] else []) + Collected(q[1..], db)
  }

  // A list after invalid LSAs went from its front.
  function Pruned(q: seq<Lsa>, db: set<Lsa>): seq<Lsa> {
    if q == [] || q[0] in db then q else Pruned(q[1..], db)
  }

  // ---- One neighbour

  // LSAs flooded but not yet retransmitted, those retransmitted just now, and those whose retransmission failed.
  datatype Nb = Nb(rx: seq<Lsa>, sent: seq<Lsa>, failed: seq<Lsa>, count: int, window: nat, timer: bool)

  ghost function All(n: Nb): multiset<Lsa> {
    multiset(n.rx) + multiset(n.sent) + multiset(n.failed)
  }

  // What the outside decides: which LSAs are in the database, how long each must still wait for its
  // retransmission, when a packet is full, and the configured limit of the window.
  datatype Env = Env(db: set<Lsa>, wait: Lsa -> nat, full: nat -> bool, maxWindow: nat)

  datatype Source = FromRx | FromFailed | Nowhere

  datatype Pick = Pick(n: Nb, source: Source, nexttime: nat)

  // get_next_rxmt.
  function NextRxmt(n: Nb, env: Env): Pick {
    var rx := Pruned(n.rx, env.db);
    if rx != [] && env.wait(rx[0]) == 0 then Pick(n.(rx := rx, count := n.count - (|n.rx| - |rx|)), FromRx, 0)
    else
      var failed := Pruned(n.failed, env.db);
      Pick(n.(rx := rx, failed := failed, count := n.count - (|n.rx| - |rx|) - (|n.failed| - |failed|)),
           if failed != [] then FromFailed else Nowhere,
           if rx != [] then env.wait(rx[0]) else 0)
  }

  // Moves the LSA picked to the list of those just retransmitted.
  function MoveTaken(n: Nb, s: Source): Nb
    requires (s.FromRx? && n.rx != []) || (s.FromFailed? && n.failed != [])
  {
    if s.FromRx? then n.(rx := n.rx[1..], sent := n.sent + [n.rx[0]])
    else n.(failed := n.failed[1..], sent := n.sent + [n.failed[0]])
  }

  lemma {:induction false} PrunedShorter(q: seq<Lsa>, db: set<Lsa>)
    ensures |Pruned(q, db)| <= |q| && (Pruned(q, db) != [] ==> Pruned(q, db)[0] in db)
  {
    if q != [] && q[0] !in db {
      PrunedShorter(q[1..], db);
    }
  }

  datatype Sent = Sent(n: Nb, npkts: nat, nexttime: nat)

  // The loop of rxmt_updates, after k LSAs in npkts packets.
  function Fill(n: Nb, env: Env, k: nat, npkts: nat): Sent
    decreases |n.rx| + |n.failed|
  {
    PrunedShorter(n.rx, env.db);
    PrunedShorter(n.failed, env.db);
    var p := NextRxmt(n, env);
    if p.source.Nowhere? then Sent(p.n, npkts, p.nexttime)
    else
      var pkts := if env.full(k) then npkts + 1 else npkts;
      if env.full(k) && pkts > n.window then Sent(p.n, pkts, p.nexttime)
      else Fill(MoveTaken(p.n, p.source), env, k + 1, pkts)
  }

  // rxmt_updates.
  function Updates(n: Nb, env: Env): Nb {
    var s := Fill(n, env, 0, 0);
    if s.npkts > 0 || s.nexttime > 0 then s.n.(timer := true) else s.n
  }

  // add_to_rxlist.
  function Added(n: Nb, l: Lsa): Nb {
    n.(rx := n.rx + [l], count := n.count + 1, timer := n.timer || n.count + 1 == 1)
  }

  function Doubled(window: nat, max: nat): nat {
    var w := window * 2 % WINDOW_MOD;
    if w > max then max else w
  }

  function Unlisted(n: Nb, l: Lsa): Nb {
    if l in n.rx then n.(rx := Without(n.rx, l))
    else if l in n.sent then n.(sent := Without(n.sent, l))
    else n.(failed := Without(n.failed, l))
  }

  // remove_from_rxlist of an LSA on one of the lists. The last acknowledgment awaited opens the window.
  function Acked(n: Nb, l: Lsa, env: Env): Nb {
    var u := Unlisted(n, l);
    var m := if l in n.rx || l !in n.sent || u.sent != [] then u
             else Updates(u.(window := Doubled(n.window, env.maxWindow), timer := false), env);
    m.(count := m.count - 1)
  }

  // LsaRxmtTimer::action, when the timer has run out.
  function Fired(n: Nb, env: Env): Nb {
    var p := NextRxmt(n.(failed := n.failed + n.sent, sent := [], timer := false), env);
    var m := Updates(if p.source.Nowhere? then p.n else p.n.(window := 1), env);
    var rx, failed := Collected(m.rx, env.db), Collected(m.failed, env.db);
    m.(rx := rx, failed := failed, count := m.count - (|m.rx| - |rx|) - (|m.failed| - |failed|))
  }

  function Cleared(n: Nb): Nb {
    Nb([], [], [], 0, 1, false)
  }

  // ---- What every operation on a neighbour keeps

  ghost predicate Once(n: Nb) {
    forall l :: l in All(n) ==> All(n)[l] == 1
  }

  // The count is the total size of the lists, no LSA is listed twice, and the timer runs if there is any.
  ghost predicate Ok(n: Nb) {
    n.count == |All(n)| && Once(n) && (All(n) != multiset{} ==> n.timer)
  }

  // n's lists hold what m's do, but for LSAs that are not in the database.
  ghost predicate Thinned(m: Nb, n: Nb, db: set<Lsa>) {
    && n.count - |All(n)| == m.count - |All(m)|
    && All(n) <= All(m) && forall l :: l in db ==> All(n)[l] == All(m)[l]
  }

  lemma {:induction false} PrunedHolds(q: seq<Lsa>, db: set<Lsa>)
    ensures multiset(Pruned(q, db)) <= multiset(q)
    ensures forall l :: l in db ==> multiset(Pruned(q, db))[l] == multiset(q)[l]
  {
    if q != [] && q[0] !in db {
      PrunedHolds(q[1..], db);
      assert q == [q[0]] + q[1..];
    }
  }

  lemma {:induction false} CollectedHolds(q: seq<Lsa>, db: set<Lsa>)
    ensures multiset(Collected(q, db)) <= multiset(q) && |Collected(q, db)| <= |q|
    ensures forall l :: multiset(Collected(q, db))[l] == if l in db then multiset(q)[l] else 0
  {
    if q != [] {
      CollectedHolds(q[1..], db);
      assert q == [q[0]] + q[1..];
    }
  }

  lemma {:induction false} WithoutHolds(q: seq<Lsa>, x: Lsa)
    requires x in q
    ensures multiset(Without(q, x)) == multiset(q) - multiset{x} && |Without(q, x)| == |q| - 1
  {
    assert q == [q[0]] + q[1..];
    if q[0] != x {
      WithoutHolds(q[1..], x);
    }
  }

  lemma NextRxmtThins(n: Nb, env: Env, p: Pick)
    requires p == NextRxmt(n, env)
    ensures Thinned(n, p.n, env.db) && p.n.sent == n.sent && p.n.window == n.window && p.n.timer == n.timer
    ensures p.source.FromRx? ==> p.n.rx != [] && p.n.rx[0] in env.db
    ensures p.source.FromFailed? ==> p.n.failed != [] && p.n.failed[0] in env.db
    ensures p.source.Nowhere? ==> p.n.failed == [] && (p.n.rx != [] ==> p.nexttime > 0)
  {
    PrunedHolds(n.rx, env.db);
    PrunedHolds(n.failed, env.db);
    PrunedShorter(n.rx, env.db);
    PrunedShorter(n.failed, env.db);
  }

  lemma MoveTakenHolds(n: Nb, s: Source)
    requires (s.FromRx? && n.rx != []) || (s.FromFailed? && n.failed != [])
    ensures All(MoveTaken(n, s)) == All(n) && MoveTaken(n, s).count == n.count
  {
    if s.FromRx? {
      assert n.rx == [n.rx[0]] + n.rx[1..];
    } else {
      assert n.failed == [n.failed[0]] + n.failed[1..];
    }
  }

  lemma {:induction false} FillKeeps(n: Nb, env: Env, k: nat, npkts: nat, s: Sent)
    requires s == Fill(n, env, k, npkts) && (npkts == 0 ==> env.full(k))
    ensures Thinned(n, s.n, env.db) && s.n.window == n.window && s.n.timer == n.timer && s.npkts >= npkts
    ensures s.npkts == 0 ==> s.n.sent == n.sent && s.n.failed == [] && (s.n.rx != [] ==> s.nexttime > 0)
    decreases |n.rx| + |n.failed|
  {
    hide All;
    PrunedShorter(n.rx, env.db);
    PrunedShorter(n.failed, env.db);
    var p := NextRxmt(n, env);
    NextRxmtThins(n, env, p);
    hide Thinned;
    if !p.source.Nowhere? {
      var pkts := if env.full(k) then npkts + 1 else npkts;
      if !(env.full(k) && pkts > n.window) {
        var m := MoveTaken(p.n, p.source);
        MoveTakenHolds(p.n, p.source);
        hide NextRxmt, MoveTaken;
        FillKeeps(m, env, k + 1, pkts, s);
        ThinnedOver(n, p.n, m, s.n, env.db);
      }
    }
  }

  lemma ThinnedOver(a: Nb, b: Nb, c: Nb, d: Nb, db: set<Lsa>)
    requires Thinned(a, b, db) && All(c) == All(b) && c.count == b.count && Thinned(c, d, db)
    ensures Thinned(a, d, db)
  {
  }

  // After rxmt_updates the timer runs if anything is left, provided it ran or nothing was waiting for an ack.
  lemma UpdatesKeeps(n: Nb, env: Env, m: Nb)
    requires m == Updates(n, env) && env.full(0) && (n.sent != [] ==> n.timer)
    ensures Thinned(n, m, env.db) && (All(m) != multiset{} ==> m.timer)
  {
    FillKeeps(n, env, 0, 0, Fill(n, env, 0, 0));
  }

  lemma AddedOk(n: Nb, l: Lsa)
    requires Ok(n) && l !in All(n)
    ensures Ok(Added(n, l)) && All(Added(n, l)) == All(n) + multiset{l} && n.rx <= Added(n, l).rx
  {
  }

  // Taking an LSA off, and then perhaps some that are not in the database.
  lemma TakenOff(n: Nb, l: Lsa, u: Nb, m: Nb, db: set<Lsa>)
    requires Ok(n) && l in All(n) && l in db && All(u) == All(n) - multiset{l} && u.count == n.count
             && Thinned(u, m, db)
    requires All(m) != multiset{} ==> m.timer
    ensures Ok(m.(count := m.count - 1)) && All(m) <= All(n) && l !in All(m)
    ensures forall x :: x in db && x != l ==> All(m)[x] == All(n)[x]
  {
  }

  lemma UnlistedHolds(n: Nb, l: Lsa)
    requires l in All(n)
    ensures All(Unlisted(n, l)) == All(n) - multiset{l}
  {
    if l in n.rx {
      WithoutHolds(n.rx, l);
    } else if l in n.sent {
      WithoutHolds(n.sent, l);
    } else {
      WithoutHolds(n.failed, l);
    }
  }

  // The last acknowledgment awaited: more are sent.
  lemma WindowOpens(n: Nb, l: Lsa, u: Nb, env: Env, v: Nb)
    requires Ok(n) && l in All(n) && l in env.db && env.full(0) && All(u) == All(n) - multiset{l} && u.count == n.count
    requires u.sent == [] && v == Updates(u.(window := Doubled(n.window, env.maxWindow), timer := false), env)
    ensures Ok(v.(count := v.count - 1)) && All(v) <= All(n) && l !in All(v)
    ensures forall x :: x in env.db && x != l ==> All(v)[x] == All(n)[x]
  {
    var w := u.(window := Doubled(n.window, env.maxWindow), timer := false);
    assert All(w) == All(u);
    hide Updates, All;
    UpdatesKeeps(w, env, v);
    TakenOff(n, l, w, v, env.db);
  }

  // An acknowledged LSA is on no list any more; the others in the database stay.
  lemma AckedOk(n: Nb, l: Lsa, env: Env, m: Nb, u: Nb)
    requires Ok(n) && l in All(n) && l in env.db && env.full(0) && m == Acked(n, l, env) && u == Unlisted(n, l)
    ensures Ok(m) && All(m) <= All(n) && l !in All(m)
    ensures forall x :: x in env.db && x != l ==> All(m)[x] == All(n)[x]
  {
    UnlistedHolds(n, l);
    assert u.count == n.count && u.timer == n.timer;
    hide Unlisted, Updates, All;
    if l in n.rx || l !in n.sent || u.sent != [] {
      assert m == u.(count := u.count - 1);
      TakenOff(n, l, u, u, env.db);
    } else {
      WindowOpens(n, l, u, env, Updates(u.(window := Doubled(n.window, env.maxWindow), timer := false), env));
    }
  }

  lemma CollectsOk(n: Nb, c: Nb, db: set<Lsa>, m: Nb)
    requires Ok(n) && Thinned(n, c, db) && (All(c) != multiset{} ==> c.timer)
    requires m == c.(rx := Collected(c.rx, db), failed := Collected(c.failed, db),
                     count := c.count - (|c.rx| - |Collected(c.rx, db)|) - (|c.failed| - |Collected(c.failed, db)|))
    ensures Ok(m) && All(m) <= All(n) && forall x :: x in db ==> All(m)[x] == All(n)[x]
    ensures forall x :: x in m.rx || x in m.failed ==> x in db
  {
    CollectedHolds(c.rx, db);
    CollectedHolds(c.failed, db);
    assert forall x :: x in m.rx <==> x in multiset(m.rx);
    assert forall x :: x in m.failed <==> x in multiset(m.failed);
  }

  lemma ThinnedTwice(a: Nb, b: Nb, c: Nb, db: set<Lsa>)
    requires Thinned(a, b, db) && Thinned(b, c, db)
    ensures Thinned(a, c, db)
  {
  }

  lemma FiredStart(n: Nb, env: Env, p: Pick, b: Nb)
    requires p == NextRxmt(n.(failed := n.failed + n.sent, sent := [], timer := false), env)
    requires b == if p.source.Nowhere? then p.n else p.n.(window := 1)
    ensures Thinned(n, b, env.db) && b.sent == []
  {
    var a := n.(failed := n.failed + n.sent, sent := [], timer := false);
    NextRxmtThins(a, env, p);
    hide NextRxmt;
    assert All(a) == All(n);
    assert All(b) == All(p.n);
  }

  // When the timer runs out, only what is not in the database leaves the lists, and the timer runs again.
  lemma FiredOk(n: Nb, env: Env, m: Nb, p: Pick)
    requires Ok(n) && env.full(0) && m == Fired(n, env)
    requires p == NextRxmt(n.(failed := n.failed + n.sent, sent := [], timer := false), env)
    ensures Ok(m) && All(m) <= All(n)
    ensures forall x :: x in env.db ==> All(m)[x] == All(n)[x]
    ensures forall x :: x in m.rx || x in m.failed ==> x in env.db
  {
    hide NextRxmt, Updates, Collected, All, Thinned, Ok;
    var b := if p.source.Nowhere? then p.n else p.n.(window := 1);
    var c := Updates(b, env);
    FiredStart(n, env, p, b);
    UpdatesKeeps(b, env, c);
    ThinnedTwice(n, b, c, env.db);
    CollectsOk(n, c, env.db, m);
  }

  // ---- What is retransmitted

  // The first valid LSA of a list need not wait.
  ghost predicate Ready(q: seq<Lsa>, env: Env) {
    exists j :: 0 <= j < |q| && q[j] in env.db && env.wait(q[j]) == 0 && forall i :: 0 <= i < j ==> q[i] !in env.db
  }

  ghost predicate AnyValid(q: seq<Lsa>, db: set<Lsa>) {
    exists l :: l in q && l in db
  }

  // Only invalid LSAs went, from the front.
  lemma {:induction false} PrunedSuffix(q: seq<Lsa>, db: set<Lsa>, r: seq<Lsa>)
    requires r == Pruned(q, db)
    ensures |r| <= |q| && r == q[|q| - |r|..]
    ensures forall i :: 0 <= i < |q| - |r| ==> q[i] !in db
    ensures r != [] ==> r[0] in db
  {
    if q != [] && q[0] !in db {
      PrunedSuffix(q[1..], db, r);
      assert r == q[1..][|q| - 1 - |r|..] == q[|q| - |r|..];
      forall i | 0 <= i < |q| - |r|
        ensures q[i] !in db
      {
        if i > 0 {
          assert q[i] == q[1..][i - 1];
        }
      }
    }
  }

  lemma PrunedFirst(q: seq<Lsa>, env: Env, r: seq<Lsa>)
    requires r == Pruned(q, env.db)
    ensures r != [] <==> AnyValid(q, env.db)
    ensures r != [] && env.wait(r[0]) == 0 <==> Ready(q, env)
    ensures r != [] ==> r[0] in env.db
  {
    PrunedSuffix(q, env.db, r);
    hide Pruned;
    var k := |q| - |r|;
    if r != [] {
      assert q[k] == r[0] && q[k] in q;
    }
  }

  // The next LSA is the first valid one not yet retransmitted, if that need not wait; else the first valid one whose
  // retransmission failed.
  lemma PickExactly(n: Nb, env: Env, p: Pick)
    requires p == NextRxmt(n, env)
    ensures p.source.FromRx? <==> Ready(n.rx, env)
    ensures p.source.FromFailed? <==> !Ready(n.rx, env) && AnyValid(n.failed, env.db)
    ensures p.source.FromRx? ==> p.n.rx != [] && p.n.rx[0] in env.db && env.wait(p.n.rx[0]) == 0
    ensures p.source.FromFailed? ==> p.n.failed != [] && p.n.failed[0] in env.db
    ensures p.source.Nowhere? ==>
              p.n.failed == [] && (p.n.rx != [] ==> p.n.rx[0] in env.db && env.wait(p.n.rx[0]) > 0)
    ensures p.n.sent == n.sent && p.n.window == n.window
  {
    hide Ready, AnyValid, Pruned;
    PrunedFirst(n.rx, env, Pruned(n.rx, env.db));
    PrunedFirst(n.failed, env, Pruned(n.failed, env.db));
  }

  // The packets begun by c LSAs, the first of which is the k-th sent.
  ghost function Begun(env: Env, k: nat, c: nat): nat
    decreases c
  {
    if c == 0 then 0 else (if env.full(k) then 1 else 0) + Begun(env, k + 1, c - 1)
  }

  // From n to m, after k LSAs in npkts packets: valid LSAs go out, in as many packets as the window lets; if in fewer,
  // all that is left has to wait.
  ghost predicate SentFrom(n: Nb, m: Nb, env: Env, k: nat, npkts: nat) {
    && n.sent <= m.sent && m.window == n.window
    && (forall j :: |n.sent| <= j < |m.sent| ==> m.sent[j] in env.db)
    && var pkts := npkts + Begun(env, k, |m.sent| - |n.sent|);
    && pkts <= n.window
    && (pkts < n.window ==> m.failed == [] && (m.rx != [] ==> m.rx[0] in env.db && env.wait(m.rx[0]) > 0))
  }

  lemma {:induction false} FillSends(n: Nb, env: Env, k: nat, npkts: nat, s: Sent)
    requires s == Fill(n, env, k, npkts) && npkts <= n.window
    ensures SentFrom(n, s.n, env, k, npkts)
    ensures s.n.sent == n.sent ==> NextRxmt(n, env).source.Nowhere? || npkts == n.window
    decreases |n.rx| + |n.failed|
  {
    hide Ready, AnyValid;
    PrunedShorter(n.rx, env.db);
    PrunedShorter(n.failed, env.db);
    var p := NextRxmt(n, env);
    PickExactly(n, env, p);
    if !p.source.Nowhere? {
      var pkts := if env.full(k) then npkts + 1 else npkts;
      if !(env.full(k) && pkts > n.window) {
        FillSends(MoveTaken(p.n, p.source), env, k + 1, pkts, s);
        SentOneMore(n, MoveTaken(p.n, p.source), s.n, env, k, npkts, pkts);
      }
    }
  }

  lemma SentOneMore(n: Nb, a: Nb, m: Nb, env: Env, k: nat, npkts: nat, pkts: nat)
    requires SentFrom(a, m, env, k + 1, pkts) && a.window == n.window && |a.sent| == |n.sent| + 1 && n.sent <= a.sent
    requires a.sent[|n.sent|] in env.db && pkts == npkts + if env.full(k) then 1 else 0
    ensures SentFrom(n, m, env, k, npkts)
  {
    assert m.sent[|n.sent|] == a.sent[|n.sent|];
  }

  // A packet is begun, or a time to wait is reported, only when something goes out or is left.
  lemma {:induction false} FillEnds(n: Nb, env: Env, k: nat, npkts: nat, s: Sent)
    requires s == Fill(n, env, k, npkts)
    ensures n.sent <= s.n.sent && (s.nexttime > 0 ==> s.n.rx != [])
    ensures s.npkts > npkts ==> s.n.sent != n.sent || s.n.rx != [] || s.n.failed != []
    decreases |n.rx| + |n.failed|
  {
    hide Ready, AnyValid;
    PrunedShorter(n.rx, env.db);
    PrunedShorter(n.failed, env.db);
    var p := NextRxmt(n, env);
    PickExactly(n, env, p);
    if !p.source.Nowhere? {
      var pkts := if env.full(k) then npkts + 1 else npkts;
      if !(env.full(k) && pkts > n.window) {
        FillEnds(MoveTaken(p.n, p.source), env, k + 1, pkts, s);
      }
    }
  }

  // rxmt_updates starts the timer exactly if something goes out, or is left to be sent.
  lemma UpdatesTimer(n: Nb, env: Env, m: Nb)
    requires m == Updates(n, env) && env.full(0)
    ensures m.timer <==> n.timer || m.sent != n.sent || m.rx != [] || m.failed != []
  {
    hide Fill, All, Thinned;
    FillEnds(n, env, 0, 0, Fill(n, env, 0, 0));
    FillKeeps(n, env, 0, 0, Fill(n, env, 0, 0));
  }

  // rxmt_updates sends as much as the window lets, and something if anything may be sent.
  lemma UpdatesSends(n: Nb, env: Env, m: Nb)
    requires m == Updates(n, env)
    ensures SentFrom(n, m, env, 0, 0)
    ensures n.window > 0 && (Ready(n.rx, env) || AnyValid(n.failed, env.db)) ==> m.sent != n.sent
  {
    hide Fill, NextRxmt, SentFrom;
    PickExactly(n, env, NextRxmt(n, env));
    FillSends(n, env, 0, 0, Fill(n, env, 0, 0));
    SameSent(n, Fill(n, env, 0, 0).n, m, env);
  }

  lemma SameSent(n: Nb, a: Nb, m: Nb, env: Env)
    requires SentFrom(n, a, env, 0, 0) && m.(timer := true) == a.(timer := true)
    ensures SentFrom(n, m, env, 0, 0)
  {
  }

  // When the timer runs out, one packet is sent if any valid LSA was sent in vain or need not wait any longer.
  lemma FiredSends(n: Nb, env: Env, m: Nb)
    requires m == Fired(n, env)
    ensures Ready(n.rx, env) || AnyValid(n.failed, env.db) || AnyValid(n.sent, env.db) ==>
              m.sent != [] && m.window == 1 && Begun(env, 0, |m.sent|) <= 1
    ensures forall l :: l in m.sent ==> l in env.db
  {
    hide NextRxmt, Updates, Collected;
    var a := n.(failed := n.failed + n.sent, sent := [], timer := false);
    var p := NextRxmt(a, env);
    PickExactly(a, env, p);
    assert AnyValid(a.failed, env.db) <==> AnyValid(n.failed, env.db) || AnyValid(n.sent, env.db);
    var b := if p.source.Nowhere? then p.n else p.n.(window := 1);
    StillPicked(a, env, p);
    UpdatesSends(b, env, Updates(b, env));
  }

  // What was picked is still there.
  lemma StillPicked(a: Nb, env: Env, p: Pick)
    requires p == NextRxmt(a, env)
    ensures !p.source.Nowhere? ==> Ready(p.n.rx, env) || AnyValid(p.n.failed, env.db)
  {
    PickExactly(a, env, p);
    if p.source.FromFailed? {
      assert p.n.failed[0] in p.n.failed;
    }
  }

  // The last acknowledgment awaited doubles the window, up to the maximum, and the next LSAs go out.
  lemma AckedSends(n: Nb, l: Lsa, env: Env, m: Nb)
    requires m == Acked(n, l, env) && n.sent == [l] && l !in n.rx
    ensures n.window < WINDOW_MOD / 2 ==>
              m.window == if 2 * n.window > env.maxWindow then env.maxWindow else 2 * n.window
    ensures Begun(env, 0, |m.sent|) <= m.window
    ensures m.window > 0 && (Ready(n.rx, env) || AnyValid(n.failed, env.db)) ==> m.sent != []
    ensures Begun(env, 0, |m.sent|) < m.window ==>
              m.failed == [] && (m.rx != [] ==> m.rx[0] in env.db && env.wait(m.rx[0]) > 0)
  {
    hide Updates;
    var u := n.(sent := [], window := Doubled(n.window, env.maxWindow), timer := false);
    assert Without([l], l) == [];
    UpdatesSends(u, env, Updates(u, env));
  }

  // The window closes altogether only when doubling it leaves the 16 bits.
  lemma WindowCloses(window: nat, max: nat)
    requires 0 < window < WINDOW_MOD && max > 0
    ensures Doubled(window, max) == 0 <==> window == WINDOW_MOD / 2
  {
  }

  // ---- All neighbours, the database, and the counts in the LSAs

  // A neighbour: how far the adjacency is, what is still to be described to it, and its retransmission lists.
  datatype Peer = Peer(state: NbrState, dd: seq<Lsa>, lists: Nb)

  // refs has lsa_rxmt of every LSA there ever was; maxAge are those to be flushed.
  datatype Sys = Sys(nbrs: map<SpfNbr, Peer>, refs: map<Lsa, int>, db: set<Lsa>, maxAge: set<Lsa>)

  // Exchange or above: such neighbours are flooded to.
  predicate Floods(s: NbrState) {
    s.Exchange? || s.Loading? || s.Full?
  }

  ghost function Listed(p: Peer): multiset<Lsa> {
    multiset(p.dd) + All(p.lists)
  }

  ghost function Holders(nbrs: map<SpfNbr, Peer>, l: Lsa): set<SpfNbr> {
    set i | i in nbrs && l in All(nbrs[i].lists)
  }

  // The count is the size of the lists and the timer runs if there is any; no LSA is listed twice, not even for
  // description and retransmission; and there is nothing on any list before Exchange.
  ghost predicate PeerOk(p: Peer) {
    && Ok(p.lists) && (forall l :: l in Listed(p) ==> Listed(p)[l] == 1)
    && (!Floods(p.state) ==> p.dd == [] && All(p.lists) == multiset{})
  }

  // lsa_rxmt of an LSA in the database is the number of neighbours that have it on their lists.
  ghost predicate Inv(s: Sys) {
    && (forall i :: i in s.nbrs ==> PeerOk(s.nbrs[i]) && forall l :: l in Listed(s.nbrs[i]) ==> l in s.refs)
    && s.db <= s.refs.Keys
    && forall l :: l in s.refs ==> CountOk(s, l)
  }

  ghost predicate CountOk(s: Sys, l: Lsa)
    requires l in s.refs
  {
    s.refs[l] >= |Holders(s.nbrs, l)| && (l in s.db ==> s.refs[l] == |Holders(s.nbrs, l)|)
  }

  // ---- Steps

  // refct is zero: no list has the LSA.
  ghost predicate Unreferenced(s: Sys, l: Lsa) {
    l !in s.maxAge && forall i :: i in s.nbrs ==> l !in Listed(s.nbrs[i])
  }

  // What AddLSA needs to know: the database copy, if there is one; the object that is allocated, if one is; whether
  // the copy is on a list other than those modelled here; and whether the new instance has age MaxAge.
  datatype New = New(current: Option<Lsa>, alloc: Lsa, elsewhere: bool, aged: bool)

  // The object of the new instance: the database copy, if it is on no list, or a new one.
  ghost function Object(s: Sys, n: New): Lsa {
    if n.current.Some? && Unreferenced(s, n.current.value) && !n.elsewhere then n.current.value else n.alloc
  }

  // AddLSA.
  ghost function Entered(s: Sys, n: New): Sys {
    var l := Object(s, n);
    s.(refs := if l in s.refs then s.refs else s.refs[l := 0],
       db := s.db - (if n.current.Some? then {n.current.value} else {}) + {l},
       maxAge := if n.aged then s.maxAge + {l} else s.maxAge)
  }

  // The neighbours among these that LSA::flood adds to, once each.
  ghost function Reached(s: Sys, to: set<SpfNbr>): set<SpfNbr> {
    set i | i in s.nbrs && i in to && Floods(s.nbrs[i].state)
  }

  ghost function Flooded(s: Sys, l: Lsa, to: set<SpfNbr>): Sys
    requires l in s.refs
  {
    s.(nbrs := map i | i in s.nbrs ::
         if i in Reached(s, to) then s.nbrs[i].(lists := Added(s.nbrs[i].lists, l)) else s.nbrs[i],
       refs := s.refs[l := s.refs[l] + |Reached(s, to)|])
  }

  ghost function Put(s: Sys, i: SpfNbr, p: Peer): Sys {
    s.(nbrs := s.nbrs[i := p])
  }

  // One round of the loop in send_dd: an entry that is no longer valid goes, one of age MaxAge is retransmitted
  // instead, and the others are described.
  ghost function Described(s: Sys, i: SpfNbr): Sys
    requires i in s.nbrs && s.nbrs[i].dd != []
  {
    var p := s.nbrs[i];
    var l, q := p.dd[0], p.(dd := p.dd[1..]);
    if l in s.db && l in s.maxAge && l in s.refs then
      Put(s, i, q.(lists := Added(q.lists, l))).(refs := s.refs[l := s.refs[l] + 1])
    else
      Put(s, i, q)
  }

  ghost function Release(refs: map<Lsa, int>, n: Nb): map<Lsa, int> {
    map l | l in refs :: refs[l] - One(l in All(n))
  }

  // maxage_free.
  predicate MaxAgeFree(dbx: nat, overflow: bool, external: bool) {
    if dbx == 0 then true else if !overflow then false else external
  }

  // n_dbx_nbrs counts them.
  ghost function Exchanging(s: Sys): set<SpfNbr> {
    set i | i in s.nbrs && (s.nbrs[i].state.Exchange? || s.nbrs[i].state.Loading?)
  }

  // free_maxage_lsas may let go of the LSA.
  ghost predicate MayGo(s: Sys, l: Lsa, overflow: bool, external: bool) {
    && l in s.maxAge && l in s.db && l in s.refs && s.refs[l] == 0
    && MaxAgeFree(|Exchanging(s)|, overflow, external)
  }

  function One(b: bool): int {
    if b then 1 else 0
  }

  datatype Step =
    | Appears(i: SpfNbr)
    | AddLsa(n: New, to: set<SpfNbr>)                   // an instance enters the database and is flooded
    | Begins(i: SpfNbr, list: seq<Lsa>)                 // NegDone: the summary list is filled from the database
    | Describes(i: SpfNbr)
    | Advances(i: SpfNbr, st: NbrState)                 // ExchDone, LoadDone
    | Leaves(i: SpfNbr, st: NbrState)                   // back to a state below Exchange
    | Ack(i: SpfNbr, l: Lsa, env: Env)
    | TimerOut(i: SpfNbr, env: Env)
    | Free(l: Lsa, overflow: bool, external: bool)
    | Rollover(l: Lsa, overflow: bool, external: bool, n: New, to: set<SpfNbr>)  // an LSA that wraps its numbers

  // The object allocated is new; the database copy is in the database.
  ghost predicate Fits(s: Sys, n: New) {
    n.alloc !in s.refs && (n.current.Some? ==> n.current.value in s.db)
  }

  ghost function EnteredAndFlooded(s: Sys, n: New, to: set<SpfNbr>): Sys {
    Flooded(Entered(s, n), Object(s, n), to)
  }

  // Steps that cannot be taken change nothing.
  ghost function Next(s: Sys, x: Step): Sys {
    match x
    case Appears(i) => if i in s.nbrs then s else Put(s, i, Peer(Down, [], Cleared(Nb([], [], [], 0, 1, false))))
    case AddLsa(n, to) => if Fits(s, n) then EnteredAndFlooded(s, n, to) else s
    case Begins(i, list) =>
      if i in s.nbrs && s.nbrs[i].state.ExStart? && multiset(list) <= multiset(s.db) then
        Put(s, i, s.nbrs[i].(state := Exchange, dd := s.nbrs[i].dd + list))
      else s
    case Describes(i) => if i in s.nbrs && s.nbrs[i].dd != [] then Described(s, i) else s
    case Advances(i, st) =>
      if i in s.nbrs && Floods(s.nbrs[i].state) && Floods(st) then Put(s, i, s.nbrs[i].(state := st)) else s
    case Leaves(i, st) =>
      if i in s.nbrs && !Floods(st) then
        Put(s, i, Peer(st, [], Cleared(s.nbrs[i].lists))).(refs := Release(s.refs, s.nbrs[i].lists))
      else s
    case Ack(i, l, env) =>
      if i in s.nbrs && l in s.db && l in s.refs && l in All(s.nbrs[i].lists) then
        Put(s, i, s.nbrs[i].(lists := Acked(s.nbrs[i].lists, l, env.(db := s.db)))).(refs := s.refs[l := s.refs[l] - 1])
      else s
    case TimerOut(i, env) =>
      if i in s.nbrs && s.nbrs[i].lists.timer then
        Put(s, i, s.nbrs[i].(lists := Fired(s.nbrs[i].lists, env.(db := s.db))))
      else s
    case Free(l, overflow, external) =>
      if MayGo(s, l, overflow, external) then s.(db := s.db - {l}, maxAge := s.maxAge - {l}) else s
    case Rollover(l, overflow, external, n, to) =>
      if MayGo(s, l, overflow, external) && n.current == Some(l) && Fits(s, n) then
        EnteredAndFlooded(s.(maxAge := s.maxAge - {l}), n, to)
      else s
  }

  predicate Legal(x: Step) {
    match x
    case Ack(_, _, env) => env.full(0)
    case TimerOut(_, env) => env.full(0)
    case _ => true
  }

  // ---- One neighbour changes

  // One neighbour goes from p to q.
  lemma HoldersChange(nbrs: map<SpfNbr, Peer>, i: SpfNbr, q: Peer, l: Lsa, after: map<SpfNbr, Peer>)
    requires i in nbrs && after == nbrs[i := q]
    ensures |Holders(after, l)| == |Holders(nbrs, l)| - One(l in All(nbrs[i].lists)) + One(l in All(q.lists))
  {
    hide All;
    var a, b := Holders(nbrs, l), Holders(after, l);
    assert a - {i} == b - {i};
    Toggle(a, b, i);
  }

  // Two sets that differ in one element at most.
  lemma Toggle<T>(a: set<T>, b: set<T>, i: T)
    requires a - {i} == b - {i}
    ensures |b| == |a| - One(i in a) + One(i in b)
  {
    assert a == if i in a then (a - {i}) + {i} else a - {i};
    assert b == if i in b then (b - {i}) + {i} else b - {i};
  }

  // The invariant, when one neighbour changes and the counts follow.
  lemma ChangeKeeps(s: Sys, i: SpfNbr, q: Peer, t: Sys)
    requires Inv(s) && i in s.nbrs && t.nbrs == s.nbrs[i := q] && PeerOk(q) && t.db == s.db
    requires t.refs.Keys == s.refs.Keys && forall l :: l in Listed(q) ==> l in s.refs
    requires forall l :: l in s.refs && l in s.db ==>
             t.refs[l] == s.refs[l] - One(l in All(s.nbrs[i].lists)) + One(l in All(q.lists))
    requires forall l :: l in s.refs && l !in s.db ==>
             t.refs[l] >= s.refs[l] - One(l in All(s.nbrs[i].lists)) + One(l in All(q.lists))
    ensures Inv(t)
  {
    hide PeerOk, All, Listed;
    forall l | l in t.refs
      ensures CountOk(t, l)
    {
      HoldersChange(s.nbrs, i, q, l, t.nbrs);
    }
  }

  // The retransmission lists have only lost LSAs.
  lemma ThinnerOk(p: Peer, q: Peer)
    requires PeerOk(p) && q.dd == p.dd && q.state == p.state && Ok(q.lists) && All(q.lists) <= All(p.lists)
    ensures PeerOk(q) && Listed(q) <= Listed(p)
  {
    forall l | l in Listed(q)
      ensures Listed(q)[l] == 1
    {
      assert Listed(q)[l] <= Listed(p)[l];
    }
  }

  lemma AckedPeer(p: Peer, l: Lsa, env: Env, q: Peer)
    requires PeerOk(p) && l in All(p.lists) && l in env.db && env.full(0)
    requires q == p.(lists := Acked(p.lists, l, env))
    ensures PeerOk(q) && l !in All(q.lists)
    ensures forall x :: x in Listed(q) ==> x in Listed(p)
    ensures forall x :: x in All(q.lists) ==> x in All(p.lists)
    ensures forall x :: x in env.db && x != l ==> (x in All(q.lists) <==> x in All(p.lists))
  {
    hide Acked, All, Ok, Unlisted;
    AckedOk(p.lists, l, env, q.lists, Unlisted(p.lists, l));
    ThinnerOk(p, q);
  }

  lemma AckKeeps(s: Sys, i: SpfNbr, l: Lsa, env: Env, q: Peer, t: Sys)
    requires Inv(s) && i in s.nbrs && l in s.db && l in s.refs && l in All(s.nbrs[i].lists) && env.full(0)
             && env.db == s.db
    requires q == s.nbrs[i].(lists := Acked(s.nbrs[i].lists, l, env))
    requires t == Put(s, i, q).(refs := s.refs[l := s.refs[l] - 1])
    ensures Inv(t)
  {
    hide Acked, All, Holders, Listed, PeerOk;
    AckedPeer(s.nbrs[i], l, env, q);
    ChangeKeeps(s, i, q, t);
  }

  lemma FiredPeer(p: Peer, env: Env, q: Peer)
    requires PeerOk(p) && env.full(0) && q == p.(lists := Fired(p.lists, env))
    ensures PeerOk(q)
    ensures forall x :: x in Listed(q) ==> x in Listed(p)
    ensures forall x :: x in All(q.lists) ==> x in All(p.lists)
    ensures forall x :: x in env.db ==> (x in All(q.lists) <==> x in All(p.lists))
  {
    hide Fired, All, Ok, NextRxmt;
    var n := p.lists;
    FiredOk(n, env, q.lists, NextRxmt(n.(failed := n.failed + n.sent, sent := [], timer := false), env));
    ThinnerOk(p, q);
  }

  lemma TimerOutKeeps(s: Sys, i: SpfNbr, env: Env, q: Peer, t: Sys)
    requires Inv(s) && i in s.nbrs && env.full(0) && env.db == s.db
    requires q == s.nbrs[i].(lists := Fired(s.nbrs[i].lists, env)) && t == Put(s, i, q)
    ensures Inv(t)
  {
    hide Fired, All, Holders, Listed, PeerOk;
    FiredPeer(s.nbrs[i], env, q);
    ChangeKeeps(s, i, q, t);
  }

  lemma EmptyPeer(q: Peer)
    requires q.dd == [] && q.lists == Cleared(q.lists)
    ensures PeerOk(q) && All(q.lists) == multiset{} && Listed(q) == multiset{}
  {
  }

  lemma LeavesKeeps(s: Sys, i: SpfNbr, q: Peer, t: Sys)
    requires Inv(s) && i in s.nbrs && q.dd == [] && q.lists == Cleared(q.lists)
    requires t == Put(s, i, q).(refs := Release(s.refs, s.nbrs[i].lists))
    ensures Inv(t)
  {
    hide All, Holders, Listed, PeerOk;
    EmptyPeer(q);
    ChangeKeeps(s, i, q, t);
  }

  // The summary list is new, and has every LSA once.
  lemma BegunPeer(p: Peer, list: seq<Lsa>, db: set<Lsa>, q: Peer)
    requires PeerOk(p) && p.state.ExStart? && multiset(list) <= multiset(db)
    requires q == p.(state := Exchange, dd := p.dd + list)
    ensures PeerOk(q) && q.lists == p.lists && forall l :: l in Listed(q) ==> l in db
  {
    assert p.dd + list == list && Listed(q) == multiset(list);
    hide Ok, All;
    forall l | l in Listed(q)
      ensures l in db && Listed(q)[l] == 1
    {
      assert multiset(list)[l] <= multiset(db)[l];
    }
  }

  lemma BeginsKeeps(s: Sys, i: SpfNbr, list: seq<Lsa>, q: Peer, t: Sys)
    requires Inv(s) && i in s.nbrs && s.nbrs[i].state.ExStart? && multiset(list) <= multiset(s.db)
    requires q == s.nbrs[i].(state := Exchange, dd := s.nbrs[i].dd + list) && t == Put(s, i, q)
    ensures Inv(t)
  {
    hide All, Holders, Listed, PeerOk;
    BegunPeer(s.nbrs[i], list, s.db, q);
    ChangeKeeps(s, i, q, t);
  }

  lemma AdvancedPeer(p: Peer, q: Peer)
    requires PeerOk(p) && Floods(p.state) && Floods(q.state) && q == p.(state := q.state)
    ensures PeerOk(q) && Listed(q) == Listed(p)
  {
    hide All, Ok;
    assert Listed(q) == Listed(p);
  }

  lemma AdvancesKeeps(s: Sys, i: SpfNbr, q: Peer, t: Sys)
    requires Inv(s) && i in s.nbrs && Floods(s.nbrs[i].state) && Floods(q.state)
    requires q == s.nbrs[i].(state := q.state) && t == Put(s, i, q)
    ensures Inv(t)
  {
    hide All, Holders, Listed, PeerOk;
    AdvancedPeer(s.nbrs[i], q);
    ChangeKeeps(s, i, q, t);
  }

  // An entry of the summary list may go to the retransmission lists: it is on one of them at any time.
  lemma MovedPeer(p: Peer, l: Lsa, move: bool, q: Peer)
    requires PeerOk(p) && p.dd != [] && l == p.dd[0]
    requires q == p.(dd := p.dd[1..], lists := if move then Added(p.lists, l) else p.lists)
    ensures PeerOk(q) && l !in All(p.lists)
    ensures forall x :: (x in Listed(q) ==> x in Listed(p))
    ensures forall x :: x in All(q.lists) <==> x in All(p.lists) || (move && x == l)
  {
    hide Ok, All, Added;
    assert p.dd == [l] + p.dd[1..];
    assert Listed(p)[l] >= 1 + All(p.lists)[l];
    if move {
      AddedOk(p.lists, l);
    }
    assert Listed(q) <= Listed(p);
    forall x | x in Listed(q)
      ensures Listed(q)[x] == 1
    {
      assert Listed(q)[x] <= Listed(p)[x];
    }
  }

  lemma DescribesKeeps(s: Sys, i: SpfNbr, l: Lsa, move: bool, q: Peer, t: Sys)
    requires Inv(s) && i in s.nbrs && s.nbrs[i].dd != [] && l == s.nbrs[i].dd[0] && (move ==> l in s.refs)
    requires q == s.nbrs[i].(dd := s.nbrs[i].dd[1..],
                             lists := if move then Added(s.nbrs[i].lists, l) else s.nbrs[i].lists)
    requires t == Put(s, i, q).(refs := if move then s.refs[l := s.refs[l] + 1] else s.refs)
    ensures Inv(t)
  {
    hide PeerOk, All, Added, Holders, Listed;
    MovedPeer(s.nbrs[i], l, move, q);
    ChangeKeeps(s, i, q, t);
  }

  // ---- An instance enters the database and is flooded

  lemma EnteredKeeps(s: Sys, n: New, t: Sys)
    requires Inv(s) && Fits(s, n) && t == Entered(s, n)
    ensures Inv(t) && Object(s, n) in t.db && t.refs[Object(s, n)] == 0 && t.nbrs == s.nbrs
    ensures forall i :: i in t.nbrs ==> Object(s, n) !in Listed(t.nbrs[i])
  {
    hide PeerOk, All;
    var l := Object(s, n);
    forall i | i in s.nbrs
      ensures l !in Listed(s.nbrs[i]) && l !in All(s.nbrs[i].lists)
    {
    }
    hide Listed, All;
    assert Holders(s.nbrs, l) == {};
    forall x | x in t.refs
      ensures CountOk(t, x)
    {
      assert x in s.refs ==> CountOk(s, x);
    }
  }

  lemma AddedPeer(p: Peer, l: Lsa, q: Peer)
    requires PeerOk(p) && Floods(p.state) && l !in Listed(p) && q == p.(lists := Added(p.lists, l))
    ensures PeerOk(q) && All(q.lists) == All(p.lists) + multiset{l} && Listed(q) == Listed(p) + multiset{l}
  {
    hide All, Ok, Added;
    AddedOk(p.lists, l);
    assert Listed(q) == Listed(p) + multiset{l};
    forall x | x in Listed(q)
      ensures Listed(q)[x] == 1
    {
      assert x != l ==> x in Listed(p);
    }
  }

  lemma FloodedKeeps(s: Sys, l: Lsa, to: set<SpfNbr>, t: Sys)
    requires Inv(s) && l in s.db && s.refs[l] == 0 && forall i :: i in s.nbrs ==> l !in Listed(s.nbrs[i])
    requires t == Flooded(s, l, to)
    ensures Inv(t)
  {
    hide PeerOk, All, Added, CountOk, Holders, Listed, Reached;
    forall i | i in s.nbrs
      ensures PeerOk(t.nbrs[i]) && forall x :: x in Listed(t.nbrs[i]) ==> x in t.refs
    {
      FloodedPeer(s, l, to, i, t);
    }
    forall x | x in t.refs
      ensures CountOk(t, x)
    {
      FloodedCount(s, l, to, x, t);
    }
  }

  lemma FloodedCount(s: Sys, l: Lsa, to: set<SpfNbr>, x: Lsa, t: Sys)
    requires Inv(s) && l in s.db && s.refs[l] == 0 && forall i :: i in s.nbrs ==> l !in Listed(s.nbrs[i])
    requires t == Flooded(s, l, to) && x in t.refs
    ensures CountOk(t, x)
  {
    hide PeerOk, All, Added, Listed, Reached;
    assert CountOk(s, x);
    forall i | i in s.nbrs
      ensures x in All(t.nbrs[i].lists) <==> x in All(s.nbrs[i].lists) || (x == l && i in Reached(s, to))
    {
      FloodedPeer(s, l, to, i, t);
    }
    ReachedKnown(s, to);
    if x == l {
      NoHolders(s, l);
      assert Holders(t.nbrs, l) == Reached(s, to);
    } else {
      assert Holders(t.nbrs, x) == Holders(s.nbrs, x);
    }
  }

  lemma ReachedKnown(s: Sys, to: set<SpfNbr>)
    ensures Reached(s, to) <= s.nbrs.Keys
  {
  }

  lemma NoHolders(s: Sys, l: Lsa)
    requires forall i :: i in s.nbrs ==> l !in Listed(s.nbrs[i])
    ensures Holders(s.nbrs, l) == {} && forall i :: i in s.nbrs ==> l !in All(s.nbrs[i].lists)
  {
    forall i | i in s.nbrs
      ensures l !in All(s.nbrs[i].lists)
    {
      assert l !in Listed(s.nbrs[i]);
    }
  }

  lemma FloodedPeer(s: Sys, l: Lsa, to: set<SpfNbr>, i: SpfNbr, t: Sys)
    requires Inv(s) && l in s.refs && i in s.nbrs && l !in Listed(s.nbrs[i]) && t == Flooded(s, l, to)
    ensures PeerOk(t.nbrs[i]) && forall x :: x in Listed(t.nbrs[i]) ==> x in t.refs
    ensures forall x :: x in All(t.nbrs[i].lists) <==> x in All(s.nbrs[i].lists) || (x == l && i in Reached(s, to))
  {
    hide PeerOk, All, Listed, Added;
    var p, q := s.nbrs[i], t.nbrs[i];
    assert q == if i in Reached(s, to) then p.(lists := Added(p.lists, l)) else p;
    if i in Reached(s, to) {
      AddedPeer(p, l, q);
    }
  }

  lemma AddLsaKeeps(s: Sys, n: New, to: set<SpfNbr>, t: Sys)
    requires Inv(s) && Fits(s, n) && t == EnteredAndFlooded(s, n, to)
    ensures Inv(t)
  {
    hide Inv, Entered, Flooded, Object;
    EnteredKeeps(s, n, Entered(s, n));
    FloodedKeeps(Entered(s, n), Object(s, n), to, t);
  }

  // ---- Runs

  lemma AppearsKeeps(s: Sys, i: SpfNbr, p: Peer, t: Sys)
    requires Inv(s) && i !in s.nbrs && p == Peer(Down, [], Cleared(p.lists)) && t == Put(s, i, p)
    ensures Inv(t)
  {
    hide All, Listed, PeerOk;
    EmptyPeer(p);
    forall l | l in t.refs
      ensures CountOk(t, l)
    {
      assert CountOk(s, l);
      assert Holders(t.nbrs, l) == Holders(s.nbrs, l);
    }
  }

  lemma GoesKeeps(s: Sys, l: Lsa, t: Sys)
    requires Inv(s) && t == s.(db := t.db, maxAge := t.maxAge) && t.db <= s.db
    ensures Inv(t)
  {
    forall x | x in t.refs
      ensures CountOk(t, x)
    {
      assert CountOk(s, x);
    }
  }

  lemma NextKeeps(s: Sys, x: Step, t: Sys)
    requires Inv(s) && Legal(x) && t == Next(s, x)
    ensures Inv(t)
  {
    hide All, Acked, Fired, Added, Release, Inv, EnteredAndFlooded, Listed;
    match x
    case Appears(i) =>
      if i !in s.nbrs {
        AppearsKeeps(s, i, Peer(Down, [], Cleared(Nb([], [], [], 0, 1, false))), t);
      }
    case AddLsa(n, to) =>
      if t != s {
        AddLsaKeeps(s, n, to, t);
      }
    case Begins(i, list) =>
      if t != s {
        BeginsKeeps(s, i, list, s.nbrs[i].(state := Exchange, dd := s.nbrs[i].dd + list), t);
      }
    case Describes(i) =>
      if i in s.nbrs && s.nbrs[i].dd != [] {
        DescribedKeeps(s, i, t);
      }
    case Advances(i, st) =>
      if t != s {
        AdvancesKeeps(s, i, s.nbrs[i].(state := st), t);
      }
    case Leaves(i, st) =>
      if t != s {
        LeavesKeeps(s, i, Peer(st, [], Cleared(s.nbrs[i].lists)), t);
      }
    case Ack(i, l, env) =>
      if t != s {
        AckKeeps(s, i, l, env.(db := s.db), s.nbrs[i].(lists := Acked(s.nbrs[i].lists, l, env.(db := s.db))), t);
      }
    case TimerOut(i, env) =>
      if t != s {
        TimerOutKeeps(s, i, env.(db := s.db), s.nbrs[i].(lists := Fired(s.nbrs[i].lists, env.(db := s.db))), t);
      }
    case Free(l, _, _) => GoesKeeps(s, l, t);
    case Rollover(l, _, _, n, to) =>
      if t != s {
        var u := s.(maxAge := s.maxAge - {l});
        GoesKeeps(s, l, u);
        AddLsaKeeps(u, n, to, t);
      }
  }

  lemma DescribedKeeps(s: Sys, i: SpfNbr, t: Sys)
    requires Inv(s) && i in s.nbrs && s.nbrs[i].dd != [] && t == Described(s, i)
    ensures Inv(t)
  {
    hide Inv, Added;
    var p := s.nbrs[i];
    var l := p.dd[0];
    var move := l in s.db && l in s.maxAge && l in s.refs;
    DescribesKeeps(s, i, l, move, t.nbrs[i], t);
  }

  ghost predicate Run(s: seq<Sys>, xs: seq<Step>) {
    && |s| == |xs| + 1 && s[0] == Sys(map[], map[], {}, {})
    && forall i :: 0 <= i < |xs| ==> Legal(xs[i]) && s[i + 1] == Next(s[i], xs[i])
  }

  lemma {:induction false} EveryRun(s: seq<Sys>, xs: seq<Step>, i: nat)
    requires Run(s, xs) && i <= |xs|
    ensures Inv(s[i])
  {
    hide Next;
    if i > 0 {
      EveryRun(s, xs, i - 1);
      NextKeeps(s[i - 1], xs[i - 1], s[i]);
    }
  }

  // An LSA is removed from the database exactly at age MaxAge, when no list holds it and no neighbour is in Exchange or
  // Loading, or the router is in overflow state and the LSA is an AS-external one. Nothing else changes.
  lemma FreedExactly(s: Sys, l: Lsa, overflow: bool, external: bool, t: Sys)
    requires Inv(s) && t == Next(s, Free(l, overflow, external)) && l in s.db
    ensures l !in t.db <==>
            && l in s.maxAge && (forall i :: i in s.nbrs ==> l !in All(s.nbrs[i].lists))
            && ((forall i :: i in s.nbrs ==> !s.nbrs[i].state.Exchange? && !s.nbrs[i].state.Loading?)
                || (overflow && external))
    ensures t == if l in t.db then s else s.(db := s.db - {l}, maxAge := s.maxAge - {l})
  {
    hide All, PeerOk;
    assert CountOk(s, l);
    assert Holders(s.nbrs, l) == {} <==> forall i :: i in s.nbrs ==> l !in All(s.nbrs[i].lists) by {
      assert forall i :: i in s.nbrs && l in All(s.nbrs[i].lists) ==> i in Holders(s.nbrs, l);
    }
    assert forall i :: i in s.nbrs && (s.nbrs[i].state.Exchange? || s.nbrs[i].state.Loading?) ==> i in Exchanging(s);
    assert Exchanging(s) == {} <==>
           forall i :: i in s.nbrs ==> !s.nbrs[i].state.Exchange? && !s.nbrs[i].state.Loading?;
  }

  // Nothing lists the object of a new instance yet.
  lemma ObjectUnlisted(s: Sys, n: New, l: Lsa)
    requires Inv(s) && Fits(s, n) && l == Object(s, n)
    ensures forall i :: i in s.nbrs ==> l !in Listed(s.nbrs[i]) && l !in All(s.nbrs[i].lists)
    ensures l in s.refs ==> s.refs[l] == 0
    ensures n.current == Some(l) ==> l !in s.maxAge
  {
    hide PeerOk, All;
    assert forall i :: i in s.nbrs ==> All(s.nbrs[i].lists) <= Listed(s.nbrs[i]);
    if l in s.refs {
      assert CountOk(s, l) && Holders(s.nbrs, l) == {};
    }
  }

  // A new instance takes the place of the database copy. It gets an object of its own if the copy is on any list, and
  // is then listed for exactly the neighbours flooded to; those of age MaxAge are to be flushed.
  lemma EnteredExactly(s: Sys, n: New, to: set<SpfNbr>, t: Sys, l: Lsa)
    requires Inv(s) && Fits(s, n) && t == Next(s, AddLsa(n, to)) && l == Object(s, n)
    ensures n.current == Some(l) ==> l !in s.maxAge && forall i :: i in s.nbrs ==> l !in Listed(s.nbrs[i])
    ensures t.db == s.db - (if n.current.Some? then {n.current.value} else {}) + {l}
    ensures forall x :: x in t.maxAge <==> x in s.maxAge || (n.aged && x == l)
    ensures t.nbrs.Keys == s.nbrs.Keys && l in t.refs && t.refs[l] == |Reached(s, to)|
    ensures forall i :: i in s.nbrs ==>
              && (l in All(t.nbrs[i].lists) <==> i in to && Floods(s.nbrs[i].state))
              && (if i in Reached(s, to) then t.nbrs[i] == s.nbrs[i].(lists := Added(s.nbrs[i].lists, l))
                  else t.nbrs[i] == s.nbrs[i])
  {
    hide Inv, Listed, All, Object, Added;
    ObjectUnlisted(s, n, l);
    forall i | i in s.nbrs
      ensures l in All(Added(s.nbrs[i].lists, l))
    {
      AddedHas(s.nbrs[i].lists, l);
    }
  }

  lemma AddedHas(n: Nb, l: Lsa)
    ensures l in All(Added(n, l))
  {
  }

  // When the timer of a neighbour runs out with something to retransmit, some of it goes out.
  lemma Resends(s: Sys, i: SpfNbr, env: Env, t: Sys)
    requires i in s.nbrs && s.nbrs[i].lists.timer && t == Next(s, TimerOut(i, env))
    ensures i in t.nbrs
    ensures var n, now := s.nbrs[i].lists, env.(db := s.db);
            Ready(n.rx, now) || AnyValid(n.failed, s.db) || AnyValid(n.sent, s.db) ==> t.nbrs[i].lists.sent != []
  {
    hide Fired, Ready, AnyValid;
    FiredSends(s.nbrs[i].lists, env.(db := s.db), t.nbrs[i].lists);
  }

  // The counter that maxage_free looks at is right, in every state of the neighbour machine.
  lemma CounterIsRight(a: Adj.Sys, s: Sys)
    requires Adj.Inv(a) && a.nbrs.Keys == s.nbrs.Keys && forall i :: i in a.nbrs ==> a.nbrs[i].state == s.nbrs[i].state
    ensures a.dbx == |Exchanging(s)|
  {
    assert Adj.Those(a.nbrs, Adj.IsDbx) == Exchanging(s);
  }

  // ---- The program

  class Neighbour {
    var rx: seq<Lsa>
    var sent: seq<Lsa>
    var failed: seq<Lsa>
    var rxmtCount: int
    var window: nat
    var timer: bool

    constructor ()
      ensures State() == Nb([], [], [], 0, 1, false) && Ok(State())
    {
      rx, sent, failed, rxmtCount, window, timer := [], [], [], 0, 1, false;
      new;
      assert All(State()) == multiset{};
    }

    function State(): Nb
      reads this
    {
      Nb(rx, sent, failed, rxmtCount, window, timer)
    }

    // The next LSA to be retransmitted, and the list it is on; invalid LSAs in front of it go.
    method GetNextRxmt(env: Env) returns (lsap: Lsa?, source: Source, nexttime: nat)
      modifies this
      ensures NextRxmt(old(State()), env) == Pick(State(), source, nexttime) && |rx| + |failed| <= old(|rx| + |failed|)
      ensures source.Nowhere? <==> lsap == null
      ensures source.FromRx? ==> rx != [] && lsap == rx[0]
      ensures source.FromFailed? ==> failed != [] && lsap == failed[0]
    {
      nexttime, lsap := 0, null;
      ghost var was := State();
      while true
        invariant lsap == null && State() == was.(rx := rx, failed := failed, count :=
                  was.count - (|was.rx| - |rx|) - (|was.failed| - |failed|))
        invariant Pruned(rx, env.db) == Pruned(was.rx, env.db) && Pruned(failed, env.db) == Pruned(was.failed, env.db)
        invariant failed != was.failed ==> rx == Pruned(rx, env.db) && (rx == [] || nexttime > 0)
        invariant nexttime == 0 || (rx != [] && rx[0] in env.db && nexttime == env.wait(rx[0]))
        decreases |rx| + |failed|, if nexttime == 0 then 1 else 0
      {
        if nexttime == 0 && rx != [] {
          if rx[0] !in env.db {
            rx, rxmtCount := rx[1..], rxmtCount - 1;
          } else if env.wait(rx[0]) > 0 {
            nexttime := env.wait(rx[0]);
          } else {
            return rx[0], FromRx, 0;
          }
        } else if failed != [] {
          if failed[0] in env.db {
            return failed[0], FromFailed, nexttime;
          }
          failed, rxmtCount := failed[1..], rxmtCount - 1;
        } else {
          return null, Nowhere, nexttime;
        }
      }
    }

    // Sends a window of retransmissions.
    method RxmtUpdates(env: Env)
      modifies this
      ensures State() == Updates(old(State()), env)
    {
      hide NextRxmt;
      ghost var was := State();
      var npkts, k := 0, 0;
      var lsap, source, nexttime := GetNextRxmt(env);
      ghost var p := Pick(State(), source, nexttime);
      FillStep(was, env, 0, 0);
      hide Fill, NextRxmt, MoveTaken;
      while lsap != null
        invariant p == Pick(State(), source, nexttime)
        invariant source.Nowhere? <==> lsap == null
        invariant source.FromRx? ==> rx != [] && lsap == rx[0]
        invariant source.FromFailed? ==> failed != [] && lsap == failed[0]
        invariant Fill(was, env, 0, 0) == FillFrom(p, env, k, npkts)
        decreases |rx| + |failed|
      {
        if env.full(k) {
          npkts := npkts + 1;
          if npkts > window {
            break;
          }
        }
        MoveToSent(lsap, source);
        FillStep(State(), env, k + 1, npkts);
        k := k + 1;
        lsap, source, nexttime := GetNextRxmt(env);
        p := Pick(State(), source, nexttime);
      }
      if npkts > 0 {
        timer := true;
      } else if nexttime > 0 {
        timer := true;
      }
    }

    method MoveToSent(lsap: Lsa, source: Source)
      requires (source.FromRx? && rx != [] && lsap == rx[0])
               || (source.FromFailed? && failed != [] && lsap == failed[0])
      modifies this
      ensures State() == MoveTaken(old(State()), source)
      ensures |rx| + |failed| < old(|rx| + |failed|)
    {
      if source.FromRx? {
        rx := rx[1..];
      } else {
        failed := failed[1..];
      }
      sent := sent + [lsap];
    }

    method AddToRxlist(lsap: Lsa)
      modifies this, lsap
      ensures State() == Added(old(State()), lsap) && lsap.rxmt == old(lsap.rxmt) + 1
    {
      rx := rx + [lsap];
      lsap.rxmt := lsap.rxmt + 1;
      rxmtCount := rxmtCount + 1;
      if rxmtCount == 1 {
        timer := true;
      }
    }

    // Whether the LSA was on a list; it is then taken off.
    method RemoveFromRxlist(lsap: Lsa, env: Env) returns (found: bool)
      modifies this, lsap
      ensures found == (lsap in All(old(State())))
      ensures State() == (if found then Acked(old(State()), lsap, env) else old(State()))
      ensures lsap.rxmt == old(lsap.rxmt) - One(found)
    {
      hide Updates;
      if lsap in rx {
        rx := Without(rx, lsap);
      } else if lsap in sent {
        sent := Without(sent, lsap);
        if sent == [] {
          window := Doubled(window, env.maxWindow);
          timer := false;
          RxmtUpdates(env);
        }
      } else if lsap in failed {
        failed := Without(failed, lsap);
      } else {
        return false;
      }
      lsap.rxmt := lsap.rxmt - 1;
      rxmtCount := rxmtCount - 1;
      return true;
    }

    method ClearRxmtList()
      modifies this, set l | l in rx + sent + failed
      ensures State() == Cleared(old(State()))
      ensures forall l :: l in old(rx + sent + failed) ==> l.rxmt == old(l.rxmt) - old(All(State()))[l]
    {
      ghost var all := All(State());
      assert forall l :: l in rx + sent + failed <==> l in rx || l in sent || l in failed;
      Release1(sent);
      Release1(rx);
      Release1(failed);
      rx, sent, failed, rxmtCount, window, timer := [], [], [], 0, 1, false;
    }

    // The retransmission timer has run out.
    method Action(env: Env)
      modifies this
      ensures State() == Fired(old(State()), env)
    {
      hide Updates, NextRxmt;
      timer := false;
      failed := failed + sent;
      sent := [];
      var lsap, source, nexttime := GetNextRxmt(env);
      if lsap != null {
        window := 1;
      }
      RxmtUpdates(env);
      var oldRx, oldFailed := |rx|, |failed|;
      rx := Collected(rx, env.db);
      rxmtCount := rxmtCount - (oldRx - |rx|);
      failed := Collected(failed, env.db);
      rxmtCount := rxmtCount - (oldFailed - |failed|);
    }
  }

  // Every LSA loses its references from one list.
  method Release1(q: seq<Lsa>)
    modifies set l | l in q
    ensures forall l :: l in q ==> l.rxmt == old(l.rxmt) - multiset(q)[l]
  {
    for i := 0 to |q|
      invariant forall l :: l in q ==> l.rxmt == old(l.rxmt) - multiset(q[..i])[l]
    {
      assert q[..i + 1] == q[..i] + [q[i]];
      q[i].rxmt := q[i].rxmt - 1;
    }
    assert q[..|q|] == q;
  }

  // The rest of the loop of rxmt_updates, when an LSA has been picked.
  function FillFrom(p: Pick, env: Env, k: nat, npkts: nat): Sent
    requires (p.source.FromRx? ==> p.n.rx != []) && (p.source.FromFailed? ==> p.n.failed != [])
  {
    if p.source.Nowhere? then Sent(p.n, npkts, p.nexttime)
    else
      var pkts := if env.full(k) then npkts + 1 else npkts;
      if env.full(k) && pkts > p.n.window then Sent(p.n, pkts, p.nexttime)
      else Fill(MoveTaken(p.n, p.source), env, k + 1, pkts)
  }

  lemma FillStep(n: Nb, env: Env, k: nat, npkts: nat)
    ensures var p := NextRxmt(n, env);
            && (p.source.FromRx? ==> p.n.rx != []) && (p.source.FromFailed? ==> p.n.failed != [])
            && Fill(n, env, k, npkts) == FillFrom(p, env, k, npkts)
  {
  }
}
