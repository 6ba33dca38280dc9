// Flooding (spflood.C, spfack.C; section 13 of RFC 2328) among any number of routers, over links that
// may lose, repeat and reorder packets.

module Flooding {
  import opened Common
  import opened Instances

  // ---- The routers and the packets

  datatype Msg =
    | Update(src: Router, dst: Router, key: Key, inst: Inst)
    | Ack(src: Router, dst: Router, key: Key, inst: Inst)

  datatype State = State(
    db: map<(Router, Key), Inst>,            // the databases
    sess: map<(Router, Router), nat>,        // (a, b): a is in Exchange or above with b, in the exchange of this number
    offer: map<(Router, Router), nat>,       // (a, b): the number of the exchange that a offers b
    answered: set<(Router, Router, nat)>,    // (a, b, n): a has answered the offer n of b
    dd: set<(Router, Router, Key)>,          // (a, b, k): a has k on its summary list for b
    fly: map<(Router, Router, Key), Inst>,   // (a, b, k): a has described this instance of k, b has not seen it
    rq: map<(Router, Router, Key), Inst>,    // (a, b, k): a has this instance of k on its request list for b
    rx: set<(Router, Router, Key)>,          // (a, b, k): a has k on its retransmission lists for b
    sent: set<Msg>)                          // every LSA and acknowledgment ever sent

  ghost predicate Has(s: State, a: Router, k: Key) {
    (a, k) in s.db
  }

  // a's copy of k is at least as recent as i.
  ghost predicate AtLeast(s: State, a: Router, k: Key, i: Inst) {
    (a, k) in s.db && !Newer(i, s.db[(a, k)])
  }

  function Offer(s: State, a: Router, b: Router): nat {
    if (a, b) in s.offer then s.offer[(a, b)] else 0
  }

  // Enters an instance into a's database, and floods it: onto the retransmission list of every neighbour
  // in Exchange or above, except the one it came from and those known from the request list to have it
  // already; requests it satisfies are removed. Lists hold database copies: the copy that is replaced is
  // no longer valid and leaves them.
  function Flood(s: State, a: Router, k: Key, i: Inst, from: Option<Router>): State {
    State(
      s.db[(a, k) := i],
      s.sess,
      s.offer,
      s.answered,
      (set e | e in s.dd && !(e.0 == a && e.2 == k)),
      s.fly,
      (map e | e in s.rq && !(e.0 == a && e.2 == k && !Newer(s.rq[e], i)) :: s.rq[e]),
      (set e | e in s.rx && !(e.0 == a && e.2 == k))
      + (set p | p in s.sess && p.0 == a && from != Some(p.1)
               && !((a, p.1, k) in s.rq && !Newer(i, s.rq[(a, p.1, k)])) :: (a, p.1, k)),
      s.sent)
  }

  function Sending(s: State, m: Msg): State {
    s.(sent := s.sent + {m})
  }

  // a ends its exchange with b, or begins anew: its lists are cleared, and its next offer has another number.
  // b is not told.
  function Leave(s: State, a: Router, b: Router): State {
    s.(sess := s.sess - {(a, b)},
       offer := s.offer[(a, b) := Offer(s, a, b) + 1],
       dd := (set e | e in s.dd && !(e.0 == a && e.1 == b)),
       fly := (map e | e in s.fly && !(e.0 == a && e.1 == b) :: s.fly[e]),
       rq := (map e | e in s.rq && !(e.0 == a && e.1 == b) :: s.rq[e]),
       rx := (set e | e in s.rx && !(e.0 == a && e.1 == b)))
  }

  // a enters Exchange with b, and lists its whole database.
  function Enter(s: State, a: Router, b: Router, n: nat): State {
    s.(sess := s.sess[(a, b) := n],
       answered := s.answered + {(a, b, n)},
       dd := s.dd + (set e | e in s.db && e.0 == a :: (a, b, e.1)))
  }

  // Both are in the same exchange.
  predicate Matched(s: State, a: Router, b: Router) {
    (a, b) in s.sess && (b, a) in s.sess && s.sess[(a, b)] == s.sess[(b, a)]
  }

  // What a router may do with a more recent LSA: take it, acknowledging it later or not (a Designated
  // Router floods it back instead); drop it, because it came too soon after the last one; or, if it is one
  // of its own, originate an instance that is more recent still.
  datatype Choice = Take(ack: bool) | Drop | Reoriginate(inst: Inst)

  // SpfNbr::recv_update, for one LSA with a good checksum. replied: the database copy has been sent in
  // answer to an older one recently.
  function RecvUpdate(s: State, m: Msg, c: Choice, replied: bool): State
    requires m.Update?
  {
    var b, a, k := m.dst, m.src, m.key;
    if (b, a) !in s.sess then
      s
    else if (b, k) !in s.db || Newer(m.inst, s.db[(b, k)]) then
      match c
      case Drop => s
      case Reoriginate(i) => if Newer(i, m.inst) then Flood(s, b, k, i, None) else s
      case Take(ack) =>
        var t := Flood(s, b, k, m.inst, Some(a));
        if ack then Sending(t, Ack(b, a, k, m.inst)) else t
    else if (b, a, k) in s.rq then
      Leave(s, b, a)
    else if m.inst == s.db[(b, k)] then
      if (b, a, k) in s.rx then s.(rx := s.rx - {(b, a, k)}) else Sending(s, Ack(b, a, k, m.inst))
    else if s.db[(b, k)].seqno == MAX_LS_SEQ || replied then
      s
    else
      Sending(s, Update(b, a, k, s.db[(b, k)]))
  }

  // SpfNbr::recv_ack, for one header.
  function RecvAck(s: State, m: Msg): State
    requires m.Ack?
  {
    var a, b, k := m.dst, m.src, m.key;
    if (a, b) in s.sess && (a, k) in s.db && s.db[(a, k)] == m.inst then s.(rx := s.rx - {(a, b, k)}) else s
  }

  datatype Step =
    | Deliver(m: Msg, choice: Choice, replied: bool)
    | SendCopy(a: Router, b: Router, k: Key)           // flooding, retransmission, answer to a request
    | Originate(a: Router, k: Key, i: Inst)
    | Answers(a: Router, b: Router, n: nat)            // a becomes the slave of b
    | Joins(a: Router, b: Router)                      // a, the master, hears that b has answered its offer
    | Describes(a: Router, b: Router, k: Key)          // a puts its header of k into a packet for b
    | Heeds(a: Router, b: Router, k: Key)              // b processes that header
    | Leaves(a: Router, b: Router)

  // Steps that cannot be taken change nothing. Messages stay in sent: they may be lost, delivered
  // again, and overtake each other. The router with the higher identity is the master. A slave may answer any
  // offer of the master, however old, but not the one the master has begun to act on.
  function Next(s: State, x: Step): State {
    match x
    case Deliver(m, c, replied) =>
      if m !in s.sent then s else if m.Update? then RecvUpdate(s, m, c, replied) else RecvAck(s, m)
    case SendCopy(a, b, k) =>
      if (a, b) in s.sess && (a, k) in s.db then Sending(s, Update(a, b, k, s.db[(a, k)])) else s
    case Originate(a, k, i) =>
      if (a, k) in s.db && !Newer(i, s.db[(a, k)]) then s else Flood(s, a, k, i, None)
    case Answers(a, b, n) =>
      if a < b && (a, b) !in s.sess && n <= Offer(s, b, a) && !((b, a) in s.sess && s.sess[(b, a)] == n)
      then Enter(s, a, b, n) else s
    case Joins(a, b) =>
      if b < a && (a, b) !in s.sess && (b, a, Offer(s, a, b)) in s.answered then Enter(s, a, b, Offer(s, a, b)) else s
    case Describes(a, b, k) =>
      if (a, b, k) in s.dd && (a, k) in s.db
      then s.(dd := s.dd - {(a, b, k)}, fly := s.fly[(a, b, k) := s.db[(a, k)]]) else s
    case Heeds(a, b, k) =>
      if !Matched(s, a, b) || (a, b, k) !in s.fly then s
      else
        var i := s.fly[(a, b, k)];
        s.(fly := s.fly - {(a, b, k)},
           rq := if (b, k) !in s.db || Newer(i, s.db[(b, k)]) then s.rq[(b, a, k) := i] else s.rq)
    case Leaves(a, b) => Leave(s, a, b)
  }

  function Run(s: State, xs: seq<Step>): State {
    if xs == [] then s else Next(Run(s, xs[..|xs| - 1]), xs[|xs| - 1])
  }

  // ---- What every step keeps

  // What is known of b's copy of a's LSA: b has it, or it is still listed somewhere.
  ghost predicate Covered(s: State, a: Router, b: Router, k: Key) {
    (a, k) in s.db ==>
      || AtLeast(s, b, k, s.db[(a, k)])
      || (a, b, k) in s.rx
      || (a, b, k) in s.dd
      || ((a, b, k) in s.fly && !Newer(s.db[(a, k)], s.fly[(a, b, k)]))
      || ((b, a, k) in s.rq && !Newer(s.db[(a, k)], s.rq[(b, a, k)]))
  }

  // a is in an exchange that b is in as well, or, as the master, may still join.
  ghost predicate Open(s: State, a: Router, b: Router) {
    (a, b) in s.sess &&
      if (b, a) in s.sess then s.sess[(a, b)] == s.sess[(b, a)] else a < b && s.sess[(a, b)] == Offer(s, b, a)
  }

  ghost predicate AllCovered(s: State) {
    forall a, b, k :: Open(s, a, b) ==> Covered(s, a, b, k)
  }

  // A router has at least what it ever sent or acknowledged.
  ghost predicate SentOk(s: State) {
    forall m :: m in s.sent ==> AtLeast(s, m.src, m.key, m.inst)
  }

  // A router has at least what it described and what is requested of it; and there are lists only from Exchange on.
  ghost predicate ListsOk(s: State) {
    && (forall e :: e in s.rq ==> (e.0, e.1) in s.sess && AtLeast(s, e.1, e.2, s.rq[e]))
    && (forall e :: e in s.fly ==> (e.0, e.1) in s.sess && AtLeast(s, e.0, e.2, s.fly[e]))
    && (forall e :: e in s.dd ==> (e.0, e.1) in s.sess && (e.0, e.2) in s.db)
    && (forall e :: e in s.rx ==> (e.0, e.1) in s.sess && (e.0, e.2) in s.db)
  }

  // No request is already satisfied.
  ghost predicate Wanted(s: State) {
    forall e :: e in s.rq ==> !AtLeast(s, e.0, e.2, s.rq[e])
  }

  // In one exchange a key is described once: what is requested in it is neither still to be described nor on its way.
  ghost predicate Once(s: State) {
    && (forall e :: e in s.rq && Open(s, e.0, e.1) ==>
          Matched(s, e.0, e.1) && (e.1, e.0, e.2) !in s.dd && (e.1, e.0, e.2) !in s.fly)
    && (forall e :: e in s.dd ==> e !in s.fly)
  }

  // A slave is in an exchange that its master has offered.
  ghost predicate Offered(s: State) {
    forall a, b :: (a, b) in s.sess ==> a != b && (a < b ==> s.sess[(a, b)] <= Offer(s, b, a))
  }

  ghost predicate Inv(s: State) {
    Offered(s) && AllCovered(s) && SentOk(s) && ListsOk(s) && Wanted(s) && Once(s)
  }

  // Any databases, no exchange yet.
  ghost predicate Initial(s: State) {
    s.sess == map[] && s.answered == {} && s.dd == {} && s.fly == map[] && s.rq == map[] && s.rx == {} && s.sent == {}
  }

  // No router ever goes back to an older instance.
  ghost predicate Grows(s: State, t: State) {
    forall a, k :: (a, k) in s.db ==> AtLeast(t, a, k, s.db[(a, k)])
  }

  lemma FloodCovers(s: State, a: Router, k: Key, i: Inst, from: Option<Router>)
    requires AllCovered(s) && ListsOk(s) && ((a, k) in s.db ==> Newer(i, s.db[(a, k)]))
    requires from.Some? ==> AtLeast(s, from.value, k, i)
    ensures AllCovered(Flood(s, a, k, i, from))
  {
    var t := Flood(s, a, k, i, from);
    forall x: Router, y: Router, l: Key | Open(t, x, y)
      ensures Covered(t, x, y, l)
    {
      assert Open(s, x, y) && Covered(s, x, y, l);
    }
  }

  lemma FloodOnce(s: State, a: Router, k: Key, i: Inst, from: Option<Router>)
    requires Inv(s)
    ensures Once(Flood(s, a, k, i, from))
  {
    hide Newer, AllCovered, SentOk, Offered;
  }

  lemma FloodLists(s: State, a: Router, k: Key, i: Inst, from: Option<Router>)
    requires Inv(s) && ((a, k) in s.db ==> Newer(i, s.db[(a, k)]))
    ensures ListsOk(Flood(s, a, k, i, from)) && Wanted(Flood(s, a, k, i, from))
  {
    hide AllCovered, Once, SentOk, Offered;
  }

  lemma FloodKeeps(s: State, a: Router, k: Key, i: Inst, from: Option<Router>)
    requires Inv(s) && ((a, k) in s.db ==> Newer(i, s.db[(a, k)]))
    requires from.Some? ==> AtLeast(s, from.value, k, i)
    ensures Inv(Flood(s, a, k, i, from)) && Grows(s, Flood(s, a, k, i, from))
  {
    hide AllCovered, Once, ListsOk, Wanted;
    FloodCovers(s, a, k, i, from);
    FloodOnce(s, a, k, i, from);
    FloodLists(s, a, k, i, from);
  }

  lemma LeaveCovers(s: State, a: Router, b: Router)
    requires Inv(s)
    ensures AllCovered(Leave(s, a, b))
  {
    hide Newer, SentOk, Once;
    var t := Leave(s, a, b);
    forall x: Router, y: Router, l: Key | Open(t, x, y)
      ensures Covered(t, x, y, l)
    {
      assert Open(s, x, y) && Covered(s, x, y, l);
    }
  }

  lemma LeaveOnce(s: State, a: Router, b: Router)
    requires Inv(s)
    ensures Once(Leave(s, a, b))
  {
    hide Newer, AllCovered, SentOk;
  }

  lemma LeaveKeeps(s: State, a: Router, b: Router)
    requires Inv(s)
    ensures Inv(Leave(s, a, b)) && Grows(s, Leave(s, a, b))
  {
    hide AllCovered, Once;
    LeaveCovers(s, a, b);
    LeaveOnce(s, a, b);
  }

  lemma SendingKeeps(s: State, m: Msg)
    requires Inv(s) && AtLeast(s, m.src, m.key, m.inst)
    ensures Inv(Sending(s, m)) && Grows(s, Sending(s, m))
  {
    var t := Sending(s, m);
    forall x: Router, y: Router, l: Key | Open(t, x, y)
      ensures Covered(t, x, y, l)
    {
      assert Open(s, x, y) && Covered(s, x, y, l);
    }
  }

  // Taking an LSA off a list once the neighbour is known to have it.
  lemma AcknowledgedKeeps(s: State, a: Router, b: Router, k: Key)
    requires Inv(s) && (a, k) in s.db && AtLeast(s, b, k, s.db[(a, k)])
    ensures Inv(s.(rx := s.rx - {(a, b, k)})) && Grows(s, s.(rx := s.rx - {(a, b, k)}))
  {
    var t := s.(rx := s.rx - {(a, b, k)});
    forall x: Router, y: Router, l: Key | Open(t, x, y)
      ensures Covered(t, x, y, l)
    {
      assert Open(s, x, y) && Covered(s, x, y, l);
    }
  }

  lemma UpdateKeeps(s: State, m: Msg, c: Choice, replied: bool)
    requires Inv(s) && m in s.sent && m.Update?
    ensures Inv(RecvUpdate(s, m, c, replied)) && Grows(s, RecvUpdate(s, m, c, replied))
  {
    var b, a, k := m.dst, m.src, m.key;
    if (b, a) in s.sess {
      if (b, k) !in s.db || Newer(m.inst, s.db[(b, k)]) {
        match c
        case Drop =>
        case Reoriginate(i) =>
          if Newer(i, m.inst) {
            FloodKeeps(s, b, k, i, None);
          }
        case Take(ack) =>
          FloodKeeps(s, b, k, m.inst, Some(a));
          if ack {
            SendingKeeps(Flood(s, b, k, m.inst, Some(a)), Ack(b, a, k, m.inst));
          }
      } else if (b, a, k) in s.rq {
        LeaveKeeps(s, b, a);
      } else if m.inst == s.db[(b, k)] {
        if (b, a, k) in s.rx {
          AcknowledgedKeeps(s, b, a, k);
        } else {
          SendingKeeps(s, Ack(b, a, k, m.inst));
        }
      } else if !(s.db[(b, k)].seqno == MAX_LS_SEQ || replied) {
        SendingKeeps(s, Update(b, a, k, s.db[(b, k)]));
      }
    }
  }

  lemma EnterCovers(s: State, a: Router, b: Router, n: nat)
    requires Inv(s) && a != b && (a, b) !in s.sess
    requires (b, a) in s.sess && s.sess[(b, a)] == n ==> Open(s, b, a)
    ensures AllCovered(Enter(s, a, b, n))
  {
    hide Newer, SentOk, Once;
    var t := Enter(s, a, b, n);
    forall x: Router, y: Router, l: Key | Open(t, x, y)
      ensures Covered(t, x, y, l)
    {
      if (x, y) == (a, b) {
        assert (x, l) in s.db ==> (x, y, l) in t.dd;
      } else {
        assert Open(s, x, y) && Covered(s, x, y, l);
      }
    }
  }

  lemma EnterOnce(s: State, a: Router, b: Router, n: nat)
    requires Inv(s) && a != b && (a, b) !in s.sess
    requires (b, a) in s.sess && s.sess[(b, a)] == n ==> Open(s, b, a)
    ensures Once(Enter(s, a, b, n))
  {
    hide Newer, AllCovered, SentOk, Offered;
  }

  lemma EnterKeeps(s: State, a: Router, b: Router, n: nat)
    requires Inv(s) && a != b && (a, b) !in s.sess && n <= Offer(s, if a < b then b else a, if a < b then a else b)
    requires (b, a) in s.sess && s.sess[(b, a)] == n ==> Open(s, b, a)
    ensures Inv(Enter(s, a, b, n)) && Grows(s, Enter(s, a, b, n))
  {
    hide AllCovered, Once;
    EnterCovers(s, a, b, n);
    EnterOnce(s, a, b, n);
  }

  lemma DescribesKeeps(s: State, a: Router, b: Router, k: Key)
    requires Inv(s)
    ensures Inv(Next(s, Describes(a, b, k))) && Grows(s, Next(s, Describes(a, b, k)))
  {
    var t := Next(s, Describes(a, b, k));
    forall x: Router, y: Router, l: Key | Open(t, x, y)
      ensures Covered(t, x, y, l)
    {
      assert Open(s, x, y) && Covered(s, x, y, l);
    }
  }

  lemma HeedsCovers(s: State, a: Router, b: Router, k: Key)
    requires Inv(s)
    ensures AllCovered(Next(s, Heeds(a, b, k)))
  {
    hide SentOk;
    var t := Next(s, Heeds(a, b, k));
    forall x: Router, y: Router, l: Key | Open(t, x, y)
      ensures Covered(t, x, y, l)
    {
      assert Open(s, x, y) && Covered(s, x, y, l);
    }
  }

  lemma HeedsOnce(s: State, a: Router, b: Router, k: Key)
    requires Inv(s)
    ensures Once(Next(s, Heeds(a, b, k)))
  {
    hide Newer, AllCovered, SentOk, Offered;
  }

  lemma HeedsKeeps(s: State, a: Router, b: Router, k: Key)
    requires Inv(s)
    ensures Inv(Next(s, Heeds(a, b, k))) && Grows(s, Next(s, Heeds(a, b, k)))
  {
    hide AllCovered, Once;
    HeedsCovers(s, a, b, k);
    HeedsOnce(s, a, b, k);
  }

  lemma NextKeeps(s: State, x: Step)
    requires Inv(s)
    ensures Inv(Next(s, x)) && Grows(s, Next(s, x))
  {
    match x
    case Deliver(m, c, replied) =>
      if m in s.sent {
        if m.Update? {
          UpdateKeeps(s, m, c, replied);
        } else if (m.dst, m.src) in s.sess && (m.dst, m.key) in s.db && s.db[(m.dst, m.key)] == m.inst {
          AcknowledgedKeeps(s, m.dst, m.src, m.key);
        }
      }
    case SendCopy(a, b, k) =>
      if (a, b) in s.sess && (a, k) in s.db {
        SendingKeeps(s, Update(a, b, k, s.db[(a, k)]));
      }
    case Originate(a, k, i) =>
      if !((a, k) in s.db && !Newer(i, s.db[(a, k)])) {
        FloodKeeps(s, a, k, i, None);
      }
    case Answers(a, b, n) =>
      if Next(s, x) != s {
        EnterKeeps(s, a, b, n);
      }
    case Joins(a, b) =>
      if Next(s, x) != s {
        EnterKeeps(s, a, b, Offer(s, a, b));
      }
    case Describes(a, b, k) => DescribesKeeps(s, a, b, k);
    case Heeds(a, b, k) => HeedsKeeps(s, a, b, k);
    case Leaves(a, b) => LeaveKeeps(s, a, b);
  }

  // Whatever is lost, repeated or reordered: no router goes back, and while two routers are in the same exchange each
  // one's copy is with the other, or listed for it.
  lemma {:induction false} EveryRun(s: State, xs: seq<Step>)
    requires Initial(s)
    ensures Inv(Run(s, xs)) && Grows(s, Run(s, xs))
  {
    if xs != [] {
      var r := Run(s, xs[..|xs| - 1]);
      EveryRun(s, xs[..|xs| - 1]);
      NextKeeps(r, xs[|xs| - 1]);
      forall a, k | (a, k) in s.db
        ensures AtLeast(Run(s, xs), a, k, s.db[(a, k)])
      {
        assert AtLeast(r, a, k, s.db[(a, k)]);
      }
    }
  }

  // Neighbours that have exchanged their databases and satisfied their requests.
  ghost predicate Full(s: State, a: Router, b: Router) {
    Matched(s, a, b) && forall k ::
      && (a, b, k) !in s.dd && (a, b, k) !in s.fly && (a, b, k) !in s.rq
      && (b, a, k) !in s.dd && (b, a, k) !in s.fly && (b, a, k) !in s.rq
  }

  lemma FullNeighbours(s: State, xs: seq<Step>, a: Router, b: Router, k: Key)
    requires Initial(s) && Full(Run(s, xs), a, b) && (a, k) in Run(s, xs).db
    ensures AtLeast(Run(s, xs), b, k, Run(s, xs).db[(a, k)]) || (a, b, k) in Run(s, xs).rx
  {
    EveryRun(s, xs);
    assert Covered(Run(s, xs), a, b, k);
  }

  // A chain of Full neighbours.
  ghost predicate Chain(s: State, p: seq<Router>) {
    p != [] && forall j :: 0 < j < |p| ==> Full(s, p[j - 1], p[j])
  }

  ghost predicate SameDatabase(s: State, a: Router, b: Router) {
    forall k :: ((a, k) in s.db <==> (b, k) in s.db) && ((a, k) in s.db ==> s.db[(a, k)] == s.db[(b, k)])
  }

  // When all retransmission lists are empty, routers connected over Full adjacencies have equal databases.
  lemma {:induction false} QuietMeansEqual(s: State, xs: seq<Step>, p: seq<Router>)
    requires Initial(s) && Run(s, xs).rx == {} && Chain(Run(s, xs), p)
    ensures SameDatabase(Run(s, xs), p[0], p[|p| - 1])
  {
    if |p| > 1 {
      var r := Run(s, xs);
      var n := |p| - 1;
      QuietMeansEqual(s, xs, p[..n]);
      assert Full(r, p[n - 1], p[n]);
      EveryRun(s, xs);
      forall k: nat
        ensures (p[n - 1], k) in r.db <==> (p[n], k) in r.db
        ensures (p[n], k) in r.db ==> r.db[(p[n - 1], k)] == r.db[(p[n], k)]
      {
        assert Covered(r, p[n - 1], p[n], k) && Covered(r, p[n], p[n - 1], k);
      }
    }
  }

  lemma RunThree(s: State, x: Step, y: Step, z: Step)
    ensures Run(s, [x, y, z]) == Next(Next(Next(s, x), y), z)
  {
    assert [x, y, z][..2] == [x, y] && [x, y][..1] == [x] && [x][..0] == [];
    assert Run(s, [x]) == Next(s, x);
    assert Run(s, [x, y]) == Next(Run(s, [x]), y);
  }

  // The packet b sends back when a's copy of k reaches it.
  function Answer(s: State, a: Router, b: Router, k: Key): Msg
    requires (a, k) in s.db
  {
    if (b, k) in s.db && Newer(s.db[(b, k)], s.db[(a, k)]) then Update(b, a, k, s.db[(b, k)])
        else Ack(b, a, k, s.db[(a, k)])
  }

  // a's copy reaches b, which answers.
  lemma CopyArrives(s: State, a: Router, b: Router, k: Key)
    requires a != b && (a, b) in s.sess && (b, a) in s.sess && (a, k) in s.db && (b, a, k) !in s.rq
    requires (b, a, k) in s.rx && (b, k) in s.db ==> s.db[(b, k)] != s.db[(a, k)]
    requires (b, k) in s.db && Newer(s.db[(b, k)], s.db[(a, k)]) ==> s.db[(b, k)].seqno != MAX_LS_SEQ
    ensures var copy := Update(a, b, k, s.db[(a, k)]);
            var t := Next(Next(s, SendCopy(a, b, k)), Deliver(copy, Take(true), false));
            Answer(s, a, b, k) in t.sent && t.sess == s.sess && (a, k) in t.db && t.db[(a, k)] == s.db[(a, k)]
            && ((a, b, k) in t.rq ==> (a, b, k) in s.rq)
  {
  }

  // Who answered has an instance at least as recent.
  lemma AnswerIsHad(s: State, t: State, a: Router, b: Router, k: Key)
    requires (a, k) in s.db && SentOk(t) && Answer(s, a, b, k) in t.sent
    ensures AtLeast(t, b, k, s.db[(a, k)])
  {
  }

  // The answer reaches a, and clears the entry.
  lemma AnswerArrives(t: State, a: Router, b: Router, k: Key, m: Msg)
    requires (a, b) in t.sess && (a, k) in t.db && (a, b, k) !in t.rq && m in t.sent
    requires m == Ack(b, a, k, t.db[(a, k)]) || m == Update(b, a, k, m.inst)
    requires m.Update? ==> Newer(m.inst, t.db[(a, k)])
    ensures var u := Next(t, Deliver(m, Take(true), false));
            (a, b, k) !in u.rx && (a, b) in u.sess
  {
  }

  // One retransmission and its answer, both received, clear the entry of the retransmission list; the
  // neighbour then has an instance at least as recent as the one sent. (Both may list the same instance for each
  // other: CrossingClears.)
  lemma RoundTripClears(s: State, a: Router, b: Router, k: Key)
    requires Inv(s) && (a, b) in s.sess && (b, a) in s.sess && (a, b, k) in s.rx
    requires (a, b, k) !in s.rq && (b, a, k) !in s.rq
    requires (b, a, k) in s.rx ==> s.db[(b, k)] != s.db[(a, k)]
    requires (b, k) in s.db && Newer(s.db[(b, k)], s.db[(a, k)]) ==> s.db[(b, k)].seqno != MAX_LS_SEQ
    ensures var copy := Update(a, b, k, s.db[(a, k)]);
            var t := Run(s, [SendCopy(a, b, k), Deliver(copy, Take(true), false),
                Deliver(Answer(s, a, b, k), Take(true), false)]);
            (a, b, k) !in t.rx && AtLeast(t, b, k, s.db[(a, k)]) && (a, b) in t.sess
  {
    hide Next, AllCovered, Once, SentOk;
    var copy := Update(a, b, k, s.db[(a, k)]);
    var xs := [SendCopy(a, b, k), Deliver(copy, Take(true), false), Deliver(Answer(s, a, b, k), Take(true), false)];
    var s1 := Next(s, xs[0]);
    var s2 := Next(s1, xs[1]);
    RunThree(s, xs[0], xs[1], xs[2]);
    CopyArrives(s, a, b, k);
    AnswerArrives(s2, a, b, k, Answer(s, a, b, k));
    NextKeeps(s, xs[0]);
    NextKeeps(s1, xs[1]);
    NextKeeps(s2, xs[2]);
    AnswerIsHad(s, s2, a, b, k);
  }

  // A copy of what b has counts as the acknowledgment, if b waits for one, and is acknowledged otherwise.
  lemma DuplicateSettles(s: State, m: Msg, c: Choice, replied: bool)
    requires m in s.sent && m.Update? && (m.dst, m.src) in s.sess && (m.dst, m.src, m.key) !in s.rq
    requires (m.dst, m.key) in s.db && s.db[(m.dst, m.key)] == m.inst
    ensures var t, e := Next(s, Deliver(m, c, replied)), (m.dst, m.src, m.key);
            && t.rx == s.rx - {e}
            && t.sent == (if e in s.rx then s.sent else s.sent + {Ack(m.dst, m.src, m.key, m.inst)})
            && t == s.(rx := t.rx, sent := t.sent)
  {
  }

  // When both list the same instance for each other, as after hearing it from a third router, each one's copy clears
  // the other's entry, and no acknowledgment is needed.
  lemma CrossingClears(s: State, a: Router, b: Router, k: Key, c: Choice, d: Choice)
    requires a != b && (a, b) in s.sess && (b, a) in s.sess && (a, b, k) in s.rx && (b, a, k) in s.rx
    requires (a, b, k) !in s.rq && (b, a, k) !in s.rq
    requires (a, k) in s.db && (b, k) in s.db && s.db[(a, k)] == s.db[(b, k)]
    ensures var i := s.db[(a, k)];
            var t := Next(Next(s, SendCopy(a, b, k)), SendCopy(b, a, k));
            var u := Next(Next(t, Deliver(Update(a, b, k, i), c, false)), Deliver(Update(b, a, k, i), d, false));
            && u.rx == s.rx - {(a, b, k), (b, a, k)} && u.sent == t.sent && u.db == s.db
  {
    hide Next;
    var i := s.db[(a, k)];
    CopySent(s, a, b, k);
    var s1 := Next(s, SendCopy(a, b, k));
    CopySent(s1, b, a, k);
    var t := Next(s1, SendCopy(b, a, k));
    DuplicateSettles(t, Update(a, b, k, i), c, false);
    var v := Next(t, Deliver(Update(a, b, k, i), c, false));
    DuplicateSettles(v, Update(b, a, k, i), d, false);
  }

  lemma CopySent(s: State, a: Router, b: Router, k: Key)
    requires (a, b) in s.sess && (a, k) in s.db
    ensures Next(s, SendCopy(a, b, k)) == Sending(s, Update(a, b, k, s.db[(a, k)]))
  {
  }

  // A more recent instance is taken, and listed for every other neighbour in an exchange, but for those that have
  // described it, or a more recent one, themselves; whatever it satisfies is no longer requested.
  lemma TakenAndListed(s: State, m: Msg, ack: bool)
    requires m in s.sent && m.Update? && (m.dst, m.src) in s.sess
    requires (m.dst, m.key) in s.db ==> Newer(m.inst, s.db[(m.dst, m.key)])
    ensures var t := Next(s, Deliver(m, Take(ack), false));
            && t.db == s.db[(m.dst, m.key) := m.inst] && t.sess == s.sess
            && t.sent == (if ack then s.sent + {Ack(m.dst, m.src, m.key, m.inst)} else s.sent)
            && (forall e :: e in t.rq <==>
                  e in s.rq && (e.0 == m.dst && e.2 == m.key ==> Newer(s.rq[e], m.inst)))
            && (forall n: Router :: (m.dst, n, m.key) in t.rx <==>
                  (m.dst, n) in s.sess && n != m.src
                  && ((m.dst, n, m.key) in s.rq ==> Newer(m.inst, s.rq[(m.dst, n, m.key)])))
  {
  }

  // A router's own new instance is listed for every neighbour in an exchange, but for those that have described it, or
  // a more recent one, themselves.
  lemma OriginatedAndListed(s: State, a: Router, k: Key, i: Inst)
    requires (a, k) in s.db ==> Newer(i, s.db[(a, k)])
    ensures var t := Next(s, Originate(a, k, i));
            && t.db == s.db[(a, k) := i] && t.sess == s.sess && t.sent == s.sent
            && (forall n: Router :: (a, n, k) in t.rx <==>
                  (a, n) in s.sess && ((a, n, k) in s.rq ==> Newer(i, s.rq[(a, n, k)])))
  {
  }

  // A router that receives an instance of its own that is more recent than the one it has may outbid it.
  lemma Outbid(s: State, m: Msg, i: Inst, replied: bool)
    requires m in s.sent && m.Update? && (m.dst, m.src) in s.sess && Newer(i, m.inst)
    requires (m.dst, m.key) in s.db ==> Newer(m.inst, s.db[(m.dst, m.key)])
    ensures Next(s, Deliver(m, Reoriginate(i), replied)) == Next(s, Originate(m.dst, m.key, i))
    ensures Next(s, Deliver(m, Drop, replied)) == s
  {
  }

  // ---- How an adjacency comes about

  // The slave answers the master's offer, which joins; both then describe their whole databases.
  lemma BothEnter(s: State, a: Router, b: Router)
    requires a < b && (a, b) !in s.sess && (b, a) !in s.sess
    ensures var t := Next(Next(s, Answers(a, b, Offer(s, b, a))), Joins(b, a));
            && Matched(t, a, b) && t.db == s.db
            && forall k :: ((a, k) in s.db ==> (a, b, k) in t.dd) && ((b, k) in s.db ==> (b, a, k) in t.dd)
  {
  }

  // A key is described, and the other side requests it exactly if it has nothing as recent.
  lemma DescribedOnce(s: State, a: Router, b: Router, k: Key)
    requires Inv(s) && Matched(s, a, b) && (a, b, k) in s.dd
    ensures var t := Next(Next(s, Describes(a, b, k)), Heeds(a, b, k));
            && t.dd == s.dd - {(a, b, k)} && t.fly == s.fly && t.db == s.db
            && ((b, a, k) in t.rq <==> !AtLeast(s, b, k, s.db[(a, k)]))
            && ((b, a, k) in t.rq ==> t.rq[(b, a, k)] == s.db[(a, k)])
  {
  }

  // A request is answered, and satisfied.
  lemma RequestMet(s: State, a: Router, b: Router, k: Key, ack: bool)
    requires Inv(s) && Matched(s, a, b) && (b, a, k) in s.rq
    ensures (a, k) in s.db
    ensures var copy := Update(a, b, k, s.db[(a, k)]);
            var t := Next(Next(s, SendCopy(a, b, k)), Deliver(copy, Take(ack), false));
            (b, a, k) !in t.rq && (b, k) in t.db && t.db[(b, k)] == s.db[(a, k)]
  {
  }
}
