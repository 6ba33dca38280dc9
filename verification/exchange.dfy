// Database Exchange between two routers (spfdd.C, and ospf_rmreq in spflood.C; sections 10.6 and 10.8 of
// RFC 2328), over channels that keep the order of packets but may lose and repeat them.

module DatabaseExchange {
  import opened AvlItems
  import opened Common
  import opened Instances

  // The header of an LSA instance.
  datatype Hdr = Hdr(key: Key, inst: Inst)

  // A Database Description packet.
  datatype Pkt = Pkt(init: bool, more: bool, ms: bool, seqno: uns32, hdrs: seq<Hdr>)

  // The exchange begins in ExStart.
  type Phase = s: NbrState | s == ExStart || s == Exchange || s == Loading || s == Full witness ExStart

  // One router's view of its neighbour.
  datatype Side = Side(
    master: bool,
    st: Phase,
    ddseq: uns32,
    db: map<Key, Inst>,       // the database
    bound: nat,               // all its keys are below this
    aged: set<Key>,           // the keys whose instance has reached MaxAge
    list: seq<Hdr>,           // the database summary list
    allSent: bool,            // database_sent
    pkt: Option<Pkt>,         // the packet we were sending
    held: bool,               // the packet is still kept for retransmission
    peerMore: bool,           // the more bit received last
    rq: seq<Hdr>,             // the link state request list
    rx: set<Key>,             // keys that went to the retransmission lists instead of being described
    snapshot: seq<Hdr>,       // for the proof: the summary list at its start,
    gave: seq<Hdr>,           // the headers described so far,
    got: seq<Hdr>,            // the headers processed so far,
    done: bool)               // and whether ExchangeDone has been fired

  datatype System = System(m: Side, s: Side, toM: seq<Pkt>, toS: seq<Pkt>, restarted: bool)

  // The database in key order, as its threaded trees list it.
  function Listing(db: map<Key, Inst>, n: nat): seq<Hdr> {
    if n == 0 then []
    else Listing(db, n - 1) + if n - 1 in db then [Hdr(n - 1, db[n - 1])] else []
  }

  // ---- Sending

  // The entry is still the database copy.
  predicate Current(db: map<Key, Inst>, h: Hdr) {
    h.key in db && db[h.key] == h.inst
  }

  // The database has this instance, or a more recent one.
  predicate AtLeast(db: map<Key, Inst>, h: Hdr) {
    h.key in db && !Newer(h.inst, db[h.key])
  }

  // Headers for the next packet, with room for n more: superseded entries are dropped, and those that have
  // reached MaxAge go to the retransmission list instead.
  datatype Filled = Filled(hdrs: seq<Hdr>, rest: seq<Hdr>, rx: set<Key>)

  function Fill(x: Side, list: seq<Hdr>, n: nat): Filled {
    if list == [] then Filled([], [], {})
    else if !Current(x.db, list[0]) then Fill(x, list[1..], n)
    else if list[0].key in x.aged then
      var f := Fill(x, list[1..], n);
      f.(rx := f.rx + {list[0].key})
    else if n == 0 then Filled([], list, {})
    else
      var f := Fill(x, list[1..], n - 1);
      f.(hdrs := [list[0]] + f.hdrs)
  }

  // SpfNbr::nba_exchdone.
  function ExchDone(x: Side): Side {
    x.(st := if x.rq == [] then Full else Loading, done := true)
  }

  // SpfNbr::send_dd, with room for n headers in a packet.
  function SendDD(x: Side, n: nat): Side {
    if x.st == ExStart then
      x.(pkt := Some(Pkt(true, true, true, x.ddseq, [])), held := true, allSent := false)
    else
      var f := Fill(x, x.list, n);
      var y := x.(list := f.rest, rx := x.rx + f.rx, allSent := x.allSent || f.rest == [], held := true,
                  pkt := Some(Pkt(false, f.rest != [], x.master, x.ddseq, f.hdrs)), gave := x.gave + f.hdrs);
      if !x.master && y.allSent && !x.peerMore then ExchDone(y) else y
  }

  // ---- Receiving

  // SpfNbr::process_dd_contents.
  function Process(x: Side, hdrs: seq<Hdr>): Side {
    if hdrs == [] then x
    else
      var y := Process(x, hdrs[..|hdrs| - 1]);
      var h := hdrs[|hdrs| - 1];
      y.(got := y.got + [h], rq := if AtLeast(y.db, h) then y.rq else y.rq + [h])
  }

  // What a received packet makes of the receiver: it is ignored; it repeats the last one, which is answered
  // again; the adjacency is restarted; or it is the next in sequence.
  datatype Verdict = Ignore | Again | Restart | Accept

  function Judge(x: Side, p: Pkt): Verdict {
    match x.st
    case ExStart =>
      if p.ms == x.master then Ignore
      else if x.master && !p.init && p.seqno == x.ddseq then Accept
      else if !x.master && p.init && p.more && p.hdrs == [] then Accept
      else Ignore
    case Exchange =>
      if p.ms == x.master || p.init then Restart
      else if x.master then
        (if p.seqno == x.ddseq then Accept else if p.seqno == Pred(x.ddseq) then Ignore else Restart)
      else
        (if p.seqno == Succ(x.ddseq) then Accept else if p.seqno == x.ddseq then Again else Restart)
    case _ =>
      if p.ms == x.master || p.init then Restart
      else if x.master && p.seqno == Pred(x.ddseq) then Ignore
      else if !x.master && p.seqno == x.ddseq then
        (if x.pkt.Some? && x.held then Again else if x.st == Full then Restart else Ignore)
      else Restart
  }

  // SpfNbr::nba_snapshot, and the state Exchange.
  function Snapshot(x: Side): Side {
    x.(st := Exchange, list := x.list + Listing(x.db, x.bound), snapshot := x.list + Listing(x.db, x.bound))
  }

  // The rest of SpfNbr::recv_dd for a packet that is next in sequence: what it says is taken in,
  function Absorb(x: Side, p: Pkt): Side {
    var x1 := if x.st == ExStart then Snapshot(x) else x;
    var x2 := Process(x1.(peerMore := p.more, pkt := None), p.hdrs);
    x2.(ddseq := if x.master then Succ(x.ddseq) else p.seqno)
  }

  // and the master may be done, or either side sends its next packet if it has nothing left to request.
  function Proceed(x: Side, n: nat): Side {
    if x.master && x.allSent && !x.peerMore then ExchDone(x)
    else if x.rq == [] then SendDD(x, n)
    else x
  }

  function AcceptDD(x: Side, p: Pkt, n: nat): Side {
    Proceed(Absorb(x, p), n)
  }

  // A more recent instance enters the database. The list entries it replaces become invalid; a request it
  // satisfies is removed, and the last one removed lets the exchange go on (SpfNbr::ospf_rmreq).
  function Install(x: Side, h: Hdr, n: nat): Side {
    var z := Entered(x, h);
    if z.rq == x.rq || z.rq != [] then z
    else if z.st == Loading then z.(st := Full)
    else SendDD(z, n)
  }

  function Entered(x: Side, h: Hdr): Side {
    x.(db := x.db[h.key := h.inst], bound := if h.key < x.bound then x.bound else h.key + 1, aged := x.aged - {h.key},
       rq := Satisfied(x.rq, h))
  }

  // The first request for the key of h, if h satisfies it, is removed.
  function Satisfied(rq: seq<Hdr>, h: Hdr): seq<Hdr> {
    if rq == [] then []
    else if rq[0].key == h.key then (if Newer(rq[0].inst, h.inst) then rq else rq[1..])
    else [rq[0]] + Satisfied(rq[1..], h)
  }

  // ---- The system

  datatype Which = Master | Slave

  datatype Step =
    | Deliver(to: Which, room: nat)
    | Lose(to: Which, i: nat)
    | Repeat(to: Which, i: nat)
    | Retransmit(from: Which)        // the timer; a slave's runs in ExStart only
    | Learn(at: Which, h: Hdr, room: nat)
    | Age(at: Which, k: Key)
    | HoldExpires                    // the slave frees its last packet

  function Transmit(sys: System, from: Which): System {
    match from
    case Master => if sys.m.pkt.Some? && sys.m.held then sys.(toS := sys.toS + [sys.m.pkt.value]) else sys
    case Slave => if sys.s.pkt.Some? && sys.s.held then sys.(toM := sys.toM + [sys.s.pkt.value]) else sys
  }

  function Put(sys: System, w: Which, x: Side): System {
    if w == Master then sys.(m := x) else sys.(s := x)
  }

  function At(sys: System, w: Which): Side {
    if w == Master then sys.m else sys.s
  }

  // A side that has just prepared a new packet sends it.
  function PutAndSend(sys: System, w: Which, x: Side): System {
    var sys1 := Put(sys, w, x);
    if x.pkt.Some? && x.pkt != At(sys, w).pkt then Transmit(sys1, w) else sys1
  }

  function Receive(sys: System, w: Which, p: Pkt, n: nat): System {
    match Judge(At(sys, w), p)
    case Ignore => sys
    case Again => Transmit(sys, w)
    case Restart => sys.(restarted := true)
    case Accept =>
      var x := AcceptDD(At(sys, w), p, n);
      var sys1 := Put(sys, w, x);
      if x.pkt.Some? then Transmit(sys1, w) else sys1
  }

  function Channel(sys: System, to: Which): seq<Pkt> {
    if to == Slave then sys.toS else sys.toM
  }

  function WithChannel(sys: System, to: Which, ch: seq<Pkt>): System {
    if to == Slave then sys.(toS := ch) else sys.(toM := ch)
  }

  function Delivered(sys: System, w: Which, n: nat): System
    requires Channel(sys, w) != []
  {
    Receive(WithChannel(sys, w, Channel(sys, w)[1..]), w, Channel(sys, w)[0], n)
  }

  function Lost(sys: System, w: Which, i: nat): System
    requires i < |Channel(sys, w)|
  {
    WithChannel(sys, w, Channel(sys, w)[..i] + Channel(sys, w)[i + 1..])
  }

  function Repeated(sys: System, w: Which, i: nat): System
    requires i < |Channel(sys, w)|
  {
    WithChannel(sys, w, Channel(sys, w)[..i] + [Channel(sys, w)[i]] + Channel(sys, w)[i..])
  }

  // Steps that cannot be taken change nothing.
  function Next(sys: System, x: Step): System {
    if sys.restarted then sys
    else
      match x
      case Deliver(w, n) => if Channel(sys, w) == [] then sys else Delivered(sys, w, n)
      case Lose(w, i) => if i < |Channel(sys, w)| then Lost(sys, w, i) else sys
      case Repeat(w, i) => if i < |Channel(sys, w)| then Repeated(sys, w, i) else sys
      case Retransmit(w) => if w == Master || sys.s.st == ExStart then Transmit(sys, w) else sys
      case Learn(w, h, n) => if AtLeast(At(sys, w).db, h) then sys else PutAndSend(sys, w, Install(At(sys, w), h, n))
      case Age(w, k) => Put(sys, w, At(sys, w).(aged := At(sys, w).aged + {k}))
      case HoldExpires => if sys.s.done then Put(sys, Slave, sys.s.(held := false)) else sys
  }

  function Run(sys: System, xs: seq<Step>): System {
    if xs == [] then sys else Next(Run(sys, xs[..|xs| - 1]), xs[|xs| - 1])
  }

  function Fresh(master: bool, ddseq: uns32, db: map<Key, Inst>, bound: nat, aged: set<Key>): Side {
    Side(master, ExStart, ddseq, db, bound, aged, [], false, Some(Pkt(true, true, true, ddseq, [])), true, true, [], {},
        [], [], [], false)
  }

  // Both routers have started the adjacency and sent their first packet.
  function Start(mseq: uns32, mdb: map<Key, Inst>, mbound: nat, maged: set<Key>, sseq: uns32, sdb: map<Key, Inst>,
          sbound: nat, saged: set<Key>): System {
    var m, s := Fresh(true, mseq, mdb, mbound, maged), Fresh(false, sseq, sdb, sbound, saged);
    System(m, s, [s.pkt.value], [m.pkt.value], false)
  }

  // ---- What every step keeps: one side

  // An entry of the summary list that need not be described: it has reached MaxAge and went to the retransmission
  // lists, or a more recent instance has replaced it.
  ghost predicate LeftOut(db: map<Key, Inst>, rx: set<Key>, h: Hdr) {
    (Current(db, h) && h.key in rx) || (h.key in db && Newer(db[h.key], h.inst))
  }

  // The keys that reached MaxAge before they were described.
  ghost function AgedOut(x: Side): set<Key> {
    x.rx * x.aged
  }

  // gave is list, in order, but for entries that need not be described.
  ghost predicate Thinned(db: map<Key, Inst>, rx: set<Key>, list: seq<Hdr>, gave: seq<Hdr>) {
    if list == [] then gave == []
    else
      || (gave != [] && gave[0] == list[0] && Thinned(db, rx, list[1..], gave[1..]))
      || (LeftOut(db, rx, list[0]) && Thinned(db, rx, list[1..], gave))
  }

  // Entries of the list are in the database, or have been replaced there.
  ghost predicate ListOk(x: Side) {
    && |x.list| <= |x.snapshot| && x.snapshot[|x.snapshot| - |x.list|..] == x.list
    && Thinned(x.db, AgedOut(x), x.snapshot[..|x.snapshot| - |x.list|], x.gave)
    && forall h :: h in x.list ==> AtLeast(x.db, h)
  }

  // What has been processed is in the database, or requested.
  ghost predicate GotOk(x: Side) {
    forall h :: h in x.got ==> AtLeast(x.db, h) || h in x.rq
  }

  ghost predicate HistoryOk(x: Side) {
    (forall k :: k in x.db ==> k < x.bound) && ListOk(x) && GotOk(x)
  }

  ghost predicate PhaseOk(x: Side) {
    && (x.done <==> x.st == Loading || x.st == Full)
    && (x.st == ExStart ==> x.list == [] && x.snapshot == [] && x.gave == [] && x.got == [] && x.rq == [] && !x.allSent
                            && x.pkt == Some(Pkt(true, true, true, x.ddseq, [])))
    && (x.st != ExStart && x.allSent ==> x.list == [])
    && (x.st == Full ==> x.rq == [])
    && (x.st == Exchange ==> (x.rq == [] <==> x.pkt.Some?))
    && (x.st != ExStart && x.pkt.Some? ==>
          x.pkt.value == Pkt(false, x.list != [], x.master, x.ddseq, x.pkt.value.hdrs) && (x.list == [] ==> x.allSent))
    && (!x.done ==> x.held)
  }

  ghost predicate SideOk(x: Side) {
    HistoryOk(x) && PhaseOk(x)
  }

  lemma {:induction false} ListingIs(db: map<Key, Inst>, n: nat, h: Hdr)
    ensures h in Listing(db, n) <==> h.key < n && Current(db, h)
  {
    if n > 0 {
      ListingIs(db, n - 1, h);
    }
  }

  lemma {:induction false} FillSuffix(x: Side, list: seq<Hdr>, n: nat)
    ensures var f := Fill(x, list, n); |f.rest| <= |list| && list[|list| - |f.rest|..] == f.rest
    decreases |list|
  {
    if list != [] {
      FillSuffix(x, list[1..], n);
      if n > 0 {
        FillSuffix(x, list[1..], n - 1);
      }
      var f := Fill(x, list, n);
      if f.rest != list {
        assert list[|list| - |f.rest|..] == list[1..][|list| - 1 - |f.rest|..];
      }
    }
  }

  // The number of entries Fill takes off the list.
  ghost function Taken(x: Side, list: seq<Hdr>, n: nat): (k: nat)
    ensures k <= |list|
  {
    FillSuffix(x, list, n);
    |list| - |Fill(x, list, n).rest|
  }

  lemma {:induction false} ThinnedConcat(db: map<Key, Inst>, rx: set<Key>, a: seq<Hdr>, ga: seq<Hdr>, b: seq<Hdr>,
          gb: seq<Hdr>)
    requires Thinned(db, rx, a, ga) && Thinned(db, rx, b, gb)
    ensures Thinned(db, rx, a + b, ga + gb)
    decreases |a|
  {
    if a == [] {
      assert a + b == b && ga + gb == gb;
    } else {
      assert (a + b)[1..] == a[1..] + b;
      if ga != [] && ga[0] == a[0] && Thinned(db, rx, a[1..], ga[1..]) {
        ThinnedConcat(db, rx, a[1..], ga[1..], b, gb);
        assert (ga + gb)[1..] == ga[1..] + gb;
      } else {
        ThinnedConcat(db, rx, a[1..], ga, b, gb);
      }
    }
  }

  // The entries taken off the list are in the packet, or need not be.
  lemma {:induction false} FillThins(x: Side, rx: set<Key>, list: seq<Hdr>, n: nat)
    requires Fill(x, list, n).rx <= rx
    requires forall h :: h in list ==> AtLeast(x.db, h)
    ensures Thinned(x.db, rx, list[..Taken(x, list, n)], Fill(x, list, n).hdrs)
    decreases |list|
  {
    if list == [] || (n == 0 && Current(x.db, list[0]) && list[0].key !in x.aged) {
      assert list[..0] == [];
    } else {
      FillOne(x, list, n);
      assert list[0] in list && AtLeast(x.db, list[0]);
      var described := Current(x.db, list[0]) && list[0].key !in x.aged;
      var n' := if described then n - 1 else n;
      FillThins(x, rx, list[1..], n');
      var f, g, k := Fill(x, list, n), Fill(x, list[1..], n'), Taken(x, list[1..], n');
      ThinOne(x.db, rx, list, k, g.hdrs, f.hdrs, described);
    }
  }

  lemma ThinOne(db: map<Key, Inst>, rx: set<Key>, list: seq<Hdr>, k: nat, rest: seq<Hdr>, gave: seq<Hdr>,
          described: bool)
    requires k < |list| && Thinned(db, rx, list[1..][..k], rest)
    requires gave == if described then [list[0]] + rest else rest
    requires described || LeftOut(db, rx, list[0])
    ensures Thinned(db, rx, list[..k + 1], gave)
  {
    assert list[..k + 1][1..] == list[1..][..k];
    assert described ==> gave[1..] == rest;
  }

  lemma FillOne(x: Side, list: seq<Hdr>, n: nat)
    requires list != [] && !(n == 0 && Current(x.db, list[0]) && list[0].key !in x.aged)
    ensures var h := list[0];
            var described := Current(x.db, h) && h.key !in x.aged;
            var n' := if described then n - 1 else n;
            var f, g := Fill(x, list, n), Fill(x, list[1..], n');
            && f.rest == g.rest && f.hdrs == (if described then [h] + g.hdrs else g.hdrs) && g.rx <= f.rx
            && Taken(x, list, n) == Taken(x, list[1..], n') + 1
            && f.rx == g.rx + (if Current(x.db, h) && h.key in x.aged then {h.key} else {})
            && (!described ==> h.key in f.rx || !Current(x.db, h))
  {
  }

  // Of the entries taken off the list, a packet holds exactly those that are in the database and younger than MaxAge,
  // and exactly those that have reached MaxAge go to the retransmission lists. What is left did not fit.
  lemma {:induction false} FillExactly(x: Side, list: seq<Hdr>, n: nat)
    ensures var f, k := Fill(x, list, n), Taken(x, list, n);
            && f.rest == list[k..] && |f.hdrs| <= n
            && (forall h :: h in f.hdrs <==> h in list[..k] && Current(x.db, h) && h.key !in x.aged)
            && (forall l :: l in f.rx <==> l in x.aged && exists h :: h in list[..k] && Current(x.db, h) && h.key == l)
            && (f.rest != [] ==> |f.hdrs| == n && Current(x.db, f.rest[0]) && f.rest[0].key !in x.aged)
    decreases |list|
  {
    hide Current;
    FillSuffix(x, list, n);
    if list != [] && !(n == 0 && Current(x.db, list[0]) && list[0].key !in x.aged) {
      FillOne(x, list, n);
      var described := Current(x.db, list[0]) && list[0].key !in x.aged;
      var n' := if described then n - 1 else n;
      FillExactly(x, list[1..], n');
      var k := Taken(x, list, n);
      assert list[..k] == [list[0]] + list[1..][..k - 1];
      assert list[k..] == list[1..][k - 1..];
    }
  }

  // A side in Exchange whose turn it is, with no packet kept.
  ghost predicate MaySend(x: Side) {
    && HistoryOk(x)
    && x.st == Exchange && !x.done && x.rq == [] && (x.allSent ==> x.list == [])
  }

  // What sending the next packet does to a side.
  ghost predicate Sent(x: Side, y: Side) {
    && y.pkt.Some? && y.pkt.value == Pkt(false, y.list != [], x.master, x.ddseq, y.pkt.value.hdrs)
    && y.gave == x.gave + y.pkt.value.hdrs && y.held && (y.list == [] ==> y.allSent)
    && (if !x.master && y.allSent && !x.peerMore then y.done && y.st == Full else !y.done && y.st == Exchange)
    && y.master == x.master && y.ddseq == x.ddseq && y.db == x.db && y.got == x.got && y.rq == x.rq
    && y.peerMore == x.peerMore && y.snapshot == x.snapshot
  }

  lemma SendDDFacts(x: Side, n: nat, y: Side)
    requires MaySend(x) && y == SendDD(x, n)
    ensures Sent(x, y) && SideOk(y)
  {
    SendDDList(x, y, n, Fill(x, x.list, n));
  }

  lemma SendDDList(x: Side, y: Side, n: nat, f: Filled)
    requires MaySend(x) && f == Fill(x, x.list, n) && y.snapshot == x.snapshot && y.db == x.db
    requires y.list == f.rest && y.rx == x.rx + f.rx && y.gave == x.gave + f.hdrs && y.aged == x.aged
    ensures ListOk(y)
  {
    var w, k := |x.snapshot| - |x.list|, Taken(x, x.list, n);
    FillSuffix(x, x.list, n);
    Parts(x.snapshot, w, x.list, k);
    SendDDThins(x, n, w, k, x.snapshot[..w + k], x.gave + f.hdrs);
    ListIs(y, w + k);
  }

  lemma ListIs(y: Side, w: nat)
    requires w + |y.list| == |y.snapshot| && y.snapshot[w..] == y.list
    requires Thinned(y.db, AgedOut(y), y.snapshot[..w], y.gave)
    requires forall h :: h in y.list ==> AtLeast(y.db, h)
    ensures ListOk(y)
  {
  }

  lemma SendDDThins(x: Side, n: nat, w: nat, k: nat, walked: seq<Hdr>, gave: seq<Hdr>)
    requires ListOk(x) && w == |x.snapshot| - |x.list| && k == Taken(x, x.list, n)
    requires walked == x.snapshot[..w] + x.list[..k] && gave == x.gave + Fill(x, x.list, n).hdrs
    ensures Thinned(x.db, (x.rx + Fill(x, x.list, n).rx) * x.aged, walked, gave)
  {
    var rx := (x.rx + Fill(x, x.list, n).rx) * x.aged;
    FillExactly(x, x.list, n);
    Rebase(x.db, AgedOut(x), x.db, rx, x.snapshot[..w], x.gave);
    FillThins(x, rx, x.list, n);
    ThinnedConcat(x.db, rx, x.snapshot[..w], x.gave, x.list[..k], Fill(x, x.list, n).hdrs);
  }

  lemma Parts(s: seq<Hdr>, w: nat, list: seq<Hdr>, k: nat)
    requires w <= |s| && s[w..] == list && k <= |list|
    ensures s[..w + k] == s[..w] + list[..k] && s[w + k..] == list[k..]
  {
    assert s == s[..w] + list;
  }

  // More entries may be left out later, none fewer.
  lemma {:induction false} Rebase(db: map<Key, Inst>, rx: set<Key>, db': map<Key, Inst>, rx': set<Key>, list: seq<Hdr>,
          gave: seq<Hdr>)
    requires Thinned(db, rx, list, gave)
    requires forall h :: LeftOut(db, rx, h) ==> LeftOut(db', rx', h)
    ensures Thinned(db', rx', list, gave)
    decreases |list|
  {
    if list != [] {
      if gave != [] && gave[0] == list[0] && Thinned(db, rx, list[1..], gave[1..]) {
        Rebase(db, rx, db', rx', list[1..], gave[1..]);
      } else {
        Rebase(db, rx, db', rx', list[1..], gave);
      }
    }
  }

  lemma {:induction false} ProcessKeeps(x: Side, hdrs: seq<Hdr>)
    ensures Process(x, hdrs) == x.(got := Process(x, hdrs).got, rq := Process(x, hdrs).rq)
  {
    if hdrs != [] {
      ProcessKeeps(x, hdrs[..|hdrs| - 1]);
    }
  }

  lemma {:induction false} ProcessFacts(x: Side, hdrs: seq<Hdr>)
    requires GotOk(x)
    ensures var y := Process(x, hdrs);
            && GotOk(y) && y.got == x.got + hdrs
            && y == x.(got := y.got, rq := y.rq)
  {
    if hdrs == [] {
      assert x.got + [] == x.got;
    } else {
      var n := |hdrs| - 1;
      ProcessFacts(x, hdrs[..n]);
      assert hdrs == hdrs[..n] + [hdrs[n]];
      assert (x.got + hdrs[..n]) + [hdrs[n]] == x.got + hdrs;
      var y := Process(x, hdrs[..n]);
      var h := hdrs[n];
      assert !AtLeast(y.db, h) ==> h in y.rq + [h];
    }
  }

  // ---- One side receives the next packet, or learns an LSA

  function HdrsOf(p: Option<Pkt>): seq<Hdr> {
    if p.Some? then p.value.hdrs else []
  }

  // A packet a side keeps says what is left on its list.
  ghost predicate PktOk(x: Side) {
    x.pkt.Some? ==> !x.pkt.value.init && x.pkt.value == Pkt(false, x.list != [], x.master, x.ddseq, x.pkt.value.hdrs)
  }

  lemma SnapshotFacts(x: Side)
    requires SideOk(x) && x.st == ExStart
    ensures var y := Snapshot(x); HistoryOk(y) && y.list == Listing(x.db, x.bound)
  {
    var y := Snapshot(x);
    assert y.list == Listing(x.db, x.bound) && y.snapshot[..0] == [];
    forall h | h in y.list
      ensures AtLeast(y.db, h)
    {
      ListingIs(x.db, x.bound, h);
    }
  }

  // What accepting a packet does to a side.
  ghost predicate Accepted(x: Side, p: Pkt, y: Side) {
    && y.master == x.master && y.db == x.db && y.st != ExStart
    && y.got == x.got + p.hdrs && y.gave == x.gave + HdrsOf(y.pkt) && y.peerMore == p.more
    && y.ddseq == (if x.master then Succ(x.ddseq) else p.seqno)
    && PktOk(y)
    && (x.master ==> (y.done <==> x.allSent && !p.more))
    && (x.master && y.done ==> y.pkt.None? && y.list == [])
    && (!x.master && y.done ==> y.pkt.Some? && y.list == [] && !p.more)
    && (!x.master && y.pkt.Some? && y.list == [] && !p.more ==> y.done)
  }

  // A side that has taken in a packet and not sent its own yet.
  ghost predicate Turn(x: Side) {
    && HistoryOk(x)
    && x.st == Exchange && !x.done && x.pkt.None? && x.held && (x.allSent ==> x.list == [])
  }

  lemma AbsorbFacts(x: Side, p: Pkt)
    requires SideOk(x) && Judge(x, p) == Accept
    ensures var y := Absorb(x, p);
            && Turn(y) && y.master == x.master && y.db == x.db && y.got == x.got + p.hdrs && y.gave == x.gave
            && y.peerMore == p.more && y.ddseq == (if x.master then Succ(x.ddseq) else p.seqno)
                 && y.allSent == x.allSent
  {
    if x.st == ExStart {
      SnapshotFacts(x);
    }
    var x1 := if x.st == ExStart then Snapshot(x) else x;
    ProcessFacts(x1.(peerMore := p.more, pkt := None), p.hdrs);
  }

  lemma ProceedFacts(x: Side, n: nat)
    requires Turn(x)
    ensures var y := Proceed(x, n);
            && SideOk(y) && y.master == x.master && y.db == x.db && y.st != ExStart
            && y.got == x.got && y.gave == x.gave + HdrsOf(y.pkt) && y.peerMore == x.peerMore && y.ddseq == x.ddseq
            && PktOk(y)
            && (x.master ==> (y.done <==> x.allSent && !x.peerMore))
            && (x.master && y.done ==> y.pkt.None? && y.list == [])
            && (!x.master && y.done ==> y.pkt.Some? && y.list == [] && !x.peerMore)
            && (!x.master && y.pkt.Some? && y.list == [] && !x.peerMore ==> y.done)
  {
    assert x.gave + [] == x.gave;
    if !(x.master && x.allSent && !x.peerMore) && x.rq == [] {
      SendDDFacts(x, n, SendDD(x, n));
    }
  }

  lemma AcceptFacts(x: Side, p: Pkt, n: nat)
    requires SideOk(x) && Judge(x, p) == Accept
    ensures SideOk(AcceptDD(x, p, n)) && Accepted(x, p, AcceptDD(x, p, n))
  {
    AbsorbFacts(x, p);
    ProceedFacts(Absorb(x, p), n);
  }

  lemma {:induction false} SatisfiedFacts(rq: seq<Hdr>, h: Hdr)
    ensures forall r :: r in Satisfied(rq, h) ==> r in rq
    ensures forall r :: r in rq && r !in Satisfied(rq, h) ==> r.key == h.key && !Newer(r.inst, h.inst)
    ensures |Satisfied(rq, h)| == |rq| ==> Satisfied(rq, h) == rq
    decreases |rq|
  {
    if rq != [] && rq[0].key != h.key {
      SatisfiedFacts(rq[1..], h);
    }
  }

  // What learning an LSA does to a side: at most, it sends the packet it was waiting to send.
  ghost predicate Learnt(x: Side, y: Side) {
    && y.master == x.master && y.ddseq == x.ddseq && y.got == x.got && y.peerMore == x.peerMore
    && (if y.pkt == x.pkt then y.gave == x.gave && y.list == x.list && y.allSent == x.allSent && y.done == x.done
          && y.held == x.held && (y.st == ExStart <==> x.st == ExStart)
        else x.pkt.None? && x.st == Exchange && y.pkt.Some? && y.gave == x.gave + y.pkt.value.hdrs && PktOk(y)
             && (if x.master then !y.done
                 else y.done <==> y.list == [] && !x.peerMore))
  }

  lemma InstallBase(x: Side, h: Hdr)
    requires SideOk(x) && !AtLeast(x.db, h)
    ensures var y := Entered(x, h).(rq := x.rq); HistoryOk(y)
  {
    hide Satisfied;
    var y := Entered(x, h).(rq := x.rq);
    Rebase(x.db, AgedOut(x), y.db, AgedOut(y), x.snapshot[..|x.snapshot| - |x.list|], x.gave);
  }

  lemma InstallReady(x: Side, h: Hdr)
    requires SideOk(x) && !AtLeast(x.db, h)
    ensures HistoryOk(Entered(x, h))
  {
    InstallBase(x, h);
    SatisfiedFacts(x.rq, h);
  }

  // No request satisfied, or some left.
  lemma StillWaiting(x: Side, h: Hdr, z: Side)
    requires SideOk(x) && z == Entered(x, h) && HistoryOk(z) && (z.rq == x.rq || z.rq != [])
    ensures SideOk(z) && Learnt(x, z)
  {
  }

  // The last request satisfied in Loading.
  lemma LoadingDone(x: Side, h: Hdr, z: Side)
    requires SideOk(x) && z == Entered(x, h) && HistoryOk(z) && z.rq == [] && x.st == Loading
    ensures SideOk(z.(st := Full)) && Learnt(x, z.(st := Full))
  {
  }

  // The last request satisfied in Exchange.
  lemma GoesOn(x: Side, h: Hdr, z: Side, y: Side)
    requires SideOk(x) && z == Entered(x, h) && HistoryOk(z) && z.rq == [] && x.rq != [] && x.st == Exchange
    requires SideOk(y) && Sent(z, y)
    ensures Learnt(x, y)
  {
  }

  lemma InstallFacts(x: Side, h: Hdr, n: nat, y: Side)
    requires SideOk(x) && !AtLeast(x.db, h) && y == Install(x, h, n)
    ensures SideOk(y) && Learnt(x, y)
  {
    var z := Entered(x, h);
    InstallReady(x, h);
    if z.rq == x.rq || z.rq != [] {
      StillWaiting(x, h, z);
    } else if x.st == Loading {
      LoadingDone(x, h, z);
    } else {
      SendDDFacts(z, n, SendDD(z, n));
      GoesOn(x, h, z, y);
    }
  }

  // ---- What every step keeps: both sides and the packets between them

  // Copies of the current packet come after all others.
  ghost predicate Tail(ch: seq<Pkt>, cur: Option<Pkt>) {
    forall i, k :: 0 <= i < k < |ch| && cur == Some(ch[i]) ==> cur == Some(ch[k])
  }

  // Neither has accepted a packet yet.
  ghost predicate Starting(sys: System) {
    && sys.m.st == ExStart && sys.s.st == ExStart
    && (forall p :: p in sys.toS ==> sys.m.pkt == Some(p))
    && (forall p :: p in sys.toM ==> sys.s.pkt == Some(p))
  }

  // A packet from the slave that the master has seen, or will ignore.
  ghost predicate OldToM(sys: System, p: Pkt) {
    if sys.m.st == ExStart then p.init && p.ms else !p.init && !p.ms && p.seqno == Pred(sys.s.ddseq)
  }

  // The slave has processed the master's latest packet.
  ghost predicate SlaveAhead(sys: System) {
    var m, s := sys.m, sys.s;
    && s.st != ExStart && s.ddseq == m.ddseq && m.pkt.Some? && !m.done && m.pkt.value.seqno == m.ddseq
    && s.got == m.gave && s.gave == m.got + HdrsOf(s.pkt) && s.peerMore == m.pkt.value.more
    && (forall p :: p in sys.toS ==> m.pkt == Some(p))
    && (forall p :: p in sys.toM ==> OldToM(sys, p) || s.pkt == Some(p)) && Tail(sys.toM, s.pkt)
    && (s.done <==> s.pkt.Some? && s.list == [] && !s.peerMore)
  }

  // The master has processed the slave's latest packet.
  ghost predicate MasterAhead(sys: System) {
    var m, s := sys.m, sys.s;
    && s.st != ExStart && m.st != ExStart && m.ddseq == Succ(s.ddseq) && s.pkt.Some?
    && m.got == s.gave && m.gave == s.got + HdrsOf(m.pkt)
    && (forall p :: p in sys.toS ==> p.ms && (p.seqno == s.ddseq || m.pkt == Some(p))) && Tail(sys.toS, m.pkt)
    && (forall p :: p in sys.toM ==> !p.init && !p.ms && p.seqno == s.ddseq)
    && (m.done <==> s.done)
    && (m.done ==> m.pkt.None? && m.list == [] && s.list == [])
  }

  ghost predicate Coupled(sys: System) {
    && PhaseOk(sys.m) && PhaseOk(sys.s) && sys.m.master && !sys.s.master
    && (Starting(sys) || SlaveAhead(sys) || MasterAhead(sys))
  }

  ghost predicate Inv(sys: System) {
    HistoryOk(sys.m) && HistoryOk(sys.s) && Coupled(sys)
  }

  lemma TailShrinks(ch: seq<Pkt>, cur: Option<Pkt>, i: nat)
    requires Tail(ch, cur) && i < |ch|
    ensures Tail(ch[1..], cur) && Tail(ch[..i] + ch[i + 1..], cur) && Tail(ch[..i] + [ch[i]] + ch[i..], cur)
  {
    var less, more := ch[..i] + ch[i + 1..], ch[..i] + [ch[i]] + ch[i..];
    forall j, k | 0 <= j < k < |less| && cur == Some(less[j])
      ensures cur == Some(less[k])
    {
      assert less[j] == ch[if j < i then j else j + 1] && less[k] == ch[if k < i then k else k + 1];
    }
    forall j, k | 0 <= j < k < |more| && cur == Some(more[j])
      ensures cur == Some(more[k])
    {
      assert more[j] == ch[if j <= i then j else j - 1] && more[k] == ch[if k <= i then k else k - 1];
    }
  }

  lemma Pieces(ch: seq<Pkt>, i: nat)
    requires i < |ch|
    ensures forall p :: p in ch[1..] ==> p in ch
    ensures forall p :: p in ch[..i] + ch[i + 1..] ==> p in ch
    ensures forall p :: p in ch[..i] + [ch[i]] + ch[i..] ==> p in ch
  {
  }

  lemma TailGrows(ch: seq<Pkt>, p: Pkt)
    requires Tail(ch, Some(p)) || forall q :: q in ch ==> q != p
    ensures Tail(ch + [p], Some(p))
  {
    var more := ch + [p];
    forall i, k | 0 <= i < k < |more| && more[i] == p
      ensures more[k] == p
    {
      assert more[i] == ch[i] && ch[i] in ch;
    }
  }

  // The channels may lose and repeat packets.
  lemma ChannelKeeps(sys: System, toS: seq<Pkt>, toM: seq<Pkt>)
    requires Coupled(sys)
    requires forall p :: p in toS ==> p in sys.toS
    requires forall p :: p in toM ==> p in sys.toM
    requires Tail(sys.toS, sys.m.pkt) ==> Tail(toS, sys.m.pkt)
    requires Tail(sys.toM, sys.s.pkt) ==> Tail(toM, sys.s.pkt)
    ensures Coupled(sys.(toS := toS, toM := toM))
  {
    var t := sys.(toS := toS, toM := toM);
    assert forall p :: OldToM(t, p) == OldToM(sys, p);
  }

  lemma LossKeeps(sys: System, w: Which, i: nat)
    requires Coupled(sys) && i < |Channel(sys, w)|
    ensures Coupled(WithChannel(sys, w, Channel(sys, w)[1..])) && Coupled(Lost(sys, w, i))
            && Coupled(Repeated(sys, w, i))
  {
    var ch, cur := Channel(sys, w), if w == Slave then sys.m.pkt else sys.s.pkt;
    if Tail(ch, cur) {
      TailShrinks(ch, cur, i);
    }
    Pieces(ch, i);
    if w == Slave {
      ChannelKeeps(sys, ch[1..], sys.toM);
      ChannelKeeps(sys, ch[..i] + ch[i + 1..], sys.toM);
      ChannelKeeps(sys, ch[..i] + [ch[i]] + ch[i..], sys.toM);
    } else {
      ChannelKeeps(sys, sys.toS, ch[1..]);
      ChannelKeeps(sys, sys.toS, ch[..i] + ch[i + 1..]);
      ChannelKeeps(sys, sys.toS, ch[..i] + [ch[i]] + ch[i..]);
    }
  }

  // Sending the current packet again.
  lemma MasterTransmits(sys: System)
    requires Coupled(sys) && sys.m.pkt.Some?
    ensures Coupled(sys.(toS := sys.toS + [sys.m.pkt.value]))
  {
    if MasterAhead(sys) {
      TailGrows(sys.toS, sys.m.pkt.value);
    }
  }

  lemma SlaveTransmits(sys: System)
    requires Coupled(sys) && sys.s.pkt.Some?
    ensures Coupled(sys.(toM := sys.toM + [sys.s.pkt.value]))
  {
    if SlaveAhead(sys) {
      TailGrows(sys.toM, sys.s.pkt.value);
    }
  }

  lemma TransmitKeeps(sys: System, w: Which, t: System)
    requires Coupled(sys) && t == Transmit(sys, w)
    ensures Coupled(t) && t.m == sys.m && t.s == sys.s && t.restarted == sys.restarted
  {
    if w == Master && sys.m.pkt.Some? {
      MasterTransmits(sys);
    }
    if w == Slave && sys.s.pkt.Some? {
      SlaveTransmits(sys);
    }
  }

  // A side and its packet, if it has one, take effect.
  function Effect(sys: System, w: Which, y: Side): System {
    if y.pkt.Some? then Transmit(Put(sys, w, y), w) else Put(sys, w, y)
  }

  // The slave accepts the packet at the head of its channel, and becomes y.
  lemma SlaveAccepts(sys: System, y: Side)
    requires Coupled(sys) && sys.toS != [] && Judge(sys.s, sys.toS[0]) == Accept
    requires PhaseOk(y) && Accepted(sys.s, sys.toS[0], y)
    ensures Coupled(Effect(sys.(toS := sys.toS[1..]), Slave, y))
  {
    var p, m, s := sys.toS[0], sys.m, sys.s;
    assert p in sys.toS;
    assert m.pkt == Some(p);
    var t := Effect(sys.(toS := sys.toS[1..]), Slave, y);
    forall q | q in t.toS
      ensures q == p
    {
      var k :| 0 <= k < |sys.toS[1..]| && sys.toS[1..][k] == q;
      assert sys.toS[k + 1] == q && q in sys.toS;
    }
    assert forall q :: q in sys.toM ==> OldToM(t, q) && y.pkt != Some(q);
    assert SlaveAhead(t);
  }

  // The master accepts only the slave's current packet.
  lemma MasterExpects(sys: System)
    requires Coupled(sys) && sys.toM != [] && Judge(sys.m, sys.toM[0]) == Accept
    ensures SlaveAhead(sys) && sys.s.pkt == Some(sys.toM[0])
    ensures forall q :: q in sys.toM ==> q == sys.toM[0]
  {
    assert sys.toM[0] in sys.toM;
    forall k | 0 < k < |sys.toM|
      ensures sys.toM[k] == sys.toM[0]
    {
    }
  }

  // The master accepts the packet at the head of its channel, and becomes y.
  lemma MasterAccepts(sys: System, y: Side)
    requires Coupled(sys) && sys.toM != [] && Judge(sys.m, sys.toM[0]) == Accept
    requires PhaseOk(y) && Accepted(sys.m, sys.toM[0], y)
    ensures Coupled(Effect(sys.(toM := sys.toM[1..]), Master, y))
  {
    MasterExpects(sys);
    var p, m, s := sys.toM[0], sys.m, sys.s;
    var t := Effect(sys.(toM := sys.toM[1..]), Master, y);
    assert p == Pkt(false, s.list != [], false, s.ddseq, p.hdrs);
    assert y.done <==> s.done by {
      assert m.st == ExStart ==> !m.allSent && m.pkt.value.more;
      assert m.st != ExStart ==> m.pkt.value.more == (m.list != []);
    }
    assert forall q :: q in sys.toS ==> q.ms && q.seqno == s.ddseq && y.pkt != Some(q);
    assert forall q :: q in sys.toM[1..] ==> q in sys.toM;
    if y.pkt.Some? {
      TailGrows(sys.toS, y.pkt.value);
    }
    assert MasterAhead(t);
  }

  // A side becomes y by learning an LSA; it may then send the packet it was waiting to send.
  lemma SlaveLearns(sys: System, y: Side)
    requires Coupled(sys) && PhaseOk(y) && Learnt(sys.s, y)
    ensures Coupled(if y.pkt != sys.s.pkt then Effect(sys, Slave, y) else Put(sys, Slave, y))
  {
    if y.pkt != sys.s.pkt {
      assert SlaveAhead(sys);
      assert forall p :: p in sys.toM ==> OldToM(sys, p) && p != y.pkt.value;
      TailGrows(sys.toM, y.pkt.value);
      assert SlaveAhead(Effect(sys, Slave, y));
    }
  }

  lemma MasterLearns(sys: System, y: Side)
    requires Coupled(sys) && PhaseOk(y) && Learnt(sys.m, y)
    ensures Coupled(if y.pkt != sys.m.pkt then Effect(sys, Master, y) else Put(sys, Master, y))
  {
    if y.pkt != sys.m.pkt {
      assert MasterAhead(sys);
      assert forall p :: p in sys.toS ==> p.seqno == sys.s.ddseq && p != y.pkt.value;
      TailGrows(sys.toS, y.pkt.value);
      assert MasterAhead(Effect(sys, Master, y));
    }
  }

  lemma ReceiveKeeps(sys: System, w: Which, n: nat)
    requires Inv(sys) && Channel(sys, w) != []
    ensures Delivered(sys, w, n).restarted || Inv(Delivered(sys, w, n))
  {
    hide HistoryOk, AcceptDD, Starting, SlaveAhead, MasterAhead, Accepted;
    var ch := Channel(sys, w);
    var u := WithChannel(sys, w, ch[1..]);
    LossKeeps(sys, w, 0);
    match Judge(At(sys, w), ch[0])
    case Ignore =>
    case Again => TransmitKeeps(u, w, Transmit(u, w));
    case Restart =>
    case Accept =>
      AcceptFacts(At(sys, w), ch[0], n);
      if w == Slave {
        SlaveAccepts(sys, AcceptDD(sys.s, ch[0], n));
      } else {
        MasterAccepts(sys, AcceptDD(sys.m, ch[0], n));
      }
  }

  lemma LearnKeeps(sys: System, w: Which, h: Hdr, n: nat)
    requires Inv(sys)
    requires !AtLeast(At(sys, w).db, h)
    ensures Inv(PutAndSend(sys, w, Install(At(sys, w), h, n)))
  {
    InstallFacts(At(sys, w), h, n, Install(At(sys, w), h, n));
    if w == Slave {
      SlaveLearns(sys, Install(sys.s, h, n));
    } else {
      MasterLearns(sys, Install(sys.m, h, n));
    }
  }

  // Ageing, and the end of the slave's hold time, touch nothing the invariants speak of.
  lemma QuietCoupled(sys: System, m: Side, s: Side)
    requires Coupled(sys) && PhaseOk(m) && PhaseOk(s)
    requires m.(aged := {}, held := true) == sys.m.(aged := {}, held := true)
    requires s.(aged := {}, held := true) == sys.s.(aged := {}, held := true)
    ensures Coupled(sys.(m := m, s := s))
  {
    var t := sys.(m := m, s := s);
    assert forall p :: OldToM(t, p) == OldToM(sys, p);
    assert Starting(sys) ==> Starting(t);
    assert SlaveAhead(sys) ==> SlaveAhead(t);
    assert MasterAhead(sys) ==> MasterAhead(t);
  }

  lemma QuietHistory(x: Side, y: Side)
    requires HistoryOk(x) && y.(aged := {}, held := true) == x.(aged := {}, held := true) && x.aged <= y.aged
    ensures HistoryOk(y)
  {
    Rebase(x.db, AgedOut(x), y.db, AgedOut(y), x.snapshot[..|x.snapshot| - |x.list|], x.gave);
  }

  lemma QuietKeeps(sys: System, m: Side, s: Side)
    requires Inv(sys) && PhaseOk(m) && PhaseOk(s)
    requires m.(aged := {}, held := true) == sys.m.(aged := {}, held := true) && sys.m.aged <= m.aged
    requires s.(aged := {}, held := true) == sys.s.(aged := {}, held := true) && sys.s.aged <= s.aged
    ensures Inv(sys.(m := m, s := s))
  {
    QuietCoupled(sys, m, s);
    QuietHistory(sys.m, m);
    QuietHistory(sys.s, s);
  }

  lemma AgeKeeps(sys: System, w: Which, k: Key)
    requires Inv(sys)
    ensures Inv(Put(sys, w, At(sys, w).(aged := At(sys, w).aged + {k})))
  {
    var y := At(sys, w).(aged := At(sys, w).aged + {k});
    QuietKeeps(sys, if w == Master then y else sys.m, if w == Slave then y else sys.s);
  }

  lemma HoldKeeps(sys: System)
    requires Inv(sys) && sys.s.done
    ensures Inv(Put(sys, Slave, sys.s.(held := false)))
  {
    QuietKeeps(sys, sys.m, sys.s.(held := false));
  }

  // The channels' steps.
  lemma ChannelStep(sys: System, x: Step, t: System)
    requires Inv(sys) && !sys.restarted && t == Next(sys, x) && (x.Lose? || x.Repeat? || x.Retransmit?)
    ensures Inv(t)
  {
    hide HistoryOk, MasterAhead, SlaveAhead, Starting;
    match x
    case Lose(w, i) => if i < |Channel(sys, w)| { LossKeeps(sys, w, i); }
    case Repeat(w, i) => if i < |Channel(sys, w)| { LossKeeps(sys, w, i); }
    case Retransmit(w) => TransmitKeeps(sys, w, Transmit(sys, w));
  }

  // The steps inside one router.
  lemma RouterStep(sys: System, x: Step, t: System)
    requires Inv(sys) && !sys.restarted && t == Next(sys, x) && (x.Learn? || x.Age? || x.HoldExpires?)
    ensures Inv(t)
  {
    match x
    case Learn(w, h, n) => if !AtLeast(At(sys, w).db, h) { LearnKeeps(sys, w, h, n); }
    case Age(w, k) => AgeKeeps(sys, w, k);
    case HoldExpires => if sys.s.done { HoldKeeps(sys); }
  }

  lemma NextKeeps(sys: System, x: Step, t: System)
    requires Inv(sys) && !sys.restarted && t == Next(sys, x)
    ensures t.restarted || Inv(t)
  {
    if x.Deliver? {
      if Channel(sys, x.to) != [] {
        ReceiveKeeps(sys, x.to, x.room);
      }
    } else if x.Learn? || x.Age? || x.HoldExpires? {
      RouterStep(sys, x, t);
    } else {
      ChannelStep(sys, x, t);
    }
  }

  lemma {:induction false} EveryRun(sys: System, xs: seq<Step>)
    requires Inv(sys) && !sys.restarted
    ensures Run(sys, xs).restarted || Inv(Run(sys, xs))
  {
    if xs != [] {
      EveryRun(sys, xs[..|xs| - 1]);
      if !Run(sys, xs[..|xs| - 1]).restarted {
        NextKeeps(Run(sys, xs[..|xs| - 1]), xs[|xs| - 1], Run(sys, xs));
      }
    }
  }

  lemma StartOk(mseq: uns32, mdb: map<Key, Inst>, mbound: nat, maged: set<Key>, sseq: uns32, sdb: map<Key, Inst>,
          sbound: nat, saged: set<Key>)
    requires (forall k :: k in mdb ==> k < mbound) && (forall k :: k in sdb ==> k < sbound)
    ensures Inv(Start(mseq, mdb, mbound, maged, sseq, sdb, sbound, saged))
            && !Start(mseq, mdb, mbound, maged, sseq, sdb, sbound, saged).restarted
  {
  }

  // What ExchangeDone at w means.
  lemma DoneFacts(r: System, w: Which)
    requires Coupled(r) && At(r, w).done
    ensures var x, y := At(r, w), At(r, if w == Master then Slave else Master);
            y.list == [] && x.got == y.gave && y.st != ExStart
  {
    var x := At(r, w);
    assert x.got + [] == x.got;
  }

  // In every run in which the adjacency is not restarted: when a side has fired ExchangeDone, it has
  // processed exactly the headers the other side described, in order; nothing is left on the other side's
  // summary list, and only entries that were replaced or went to the retransmission lists were not described.
  // A side that is Full has every one of those headers, or a more recent instance, in its database.
  lemma ExchangeIsComplete(mseq: uns32, mdb: map<Key, Inst>, mbound: nat, maged: set<Key>, sseq: uns32,
          sdb: map<Key, Inst>, sbound: nat, saged: set<Key>,
                           xs: seq<Step>, w: Which)
    requires (forall k :: k in mdb ==> k < mbound) && (forall k :: k in sdb ==> k < sbound)
    requires !Run(Start(mseq, mdb, mbound, maged, sseq, sdb, sbound, saged), xs).restarted
    ensures var r := Run(Start(mseq, mdb, mbound, maged, sseq, sdb, sbound, saged), xs);
            var x, y := At(r, w), At(r, if w == Master then Slave else Master);
            && (x.done ==> x.got == y.gave && y.list == [] && Thinned(y.db, AgedOut(y), y.snapshot, y.gave))
            && (x.st == Full ==> x.done && forall h :: h in y.gave ==> AtLeast(x.db, h))
  {
    var sys := Start(mseq, mdb, mbound, maged, sseq, sdb, sbound, saged);
    StartOk(mseq, mdb, mbound, maged, sseq, sdb, sbound, saged);
    EveryRun(sys, xs);
    var r := Run(sys, xs);
    var x, y := At(r, w), At(r, if w == Master then Slave else Master);
    if x.done {
      DoneFacts(r, w);
      NothingLeft(y);
    }
  }

  lemma NothingLeft(y: Side)
    requires ListOk(y) && y.list == []
    ensures Thinned(y.db, AgedOut(y), y.snapshot, y.gave)
  {
    assert y.snapshot[..|y.snapshot|] == y.snapshot;
  }

  // ---- What is described, and what is requested

  ghost predicate Increasing(s: seq<Hdr>) {
    forall i, j :: 0 <= i < j < |s| ==> s[i].key < s[j].key
  }

  ghost predicate AllBelow(s: seq<Hdr>, t: seq<Hdr>) {
    forall g, h :: g in s && h in t ==> g.key < h.key
  }

  ghost predicate Apart(s: seq<Hdr>) {
    forall i, j :: 0 <= i < j < |s| ==> s[i].key != s[j].key
  }

  // Each key is described once; what is requested was described, no key is requested twice, and no request is already
  // satisfied. In Loading there are requests.
  ghost predicate Tidy(x: Side) {
    && Increasing(x.gave) && Increasing(x.list) && AllBelow(x.gave, x.list)
    && (forall h :: h in x.rq ==> h in x.got && !AtLeast(x.db, h)) && Apart(x.rq)
    && (x.st == Loading ==> x.rq != [])
  }

  lemma {:induction false} ListingRises(db: map<Key, Inst>, n: nat)
    ensures Increasing(Listing(db, n)) && forall h :: h in Listing(db, n) ==> h.key < n
  {
    if n > 0 {
      ListingRises(db, n - 1);
    }
  }

  // The first of an increasing list is before the others.
  lemma FirstBelow(list: seq<Hdr>)
    requires list != [] && Increasing(list)
    ensures Increasing(list[1..]) && forall h :: h in list[1..] ==> list[0].key < h.key
  {
    forall h | h in list[1..]
      ensures list[0].key < h.key
    {
      var i :| 0 <= i < |list[1..]| && list[1..][i] == h;
      assert list[i + 1] == h;
    }
  }

  lemma PutFirst(h: Hdr, s: seq<Hdr>)
    requires Increasing(s) && forall g :: g in s ==> h.key < g.key
    ensures Increasing([h] + s)
  {
  }

  // A packet holds entries of the list, before those that are left.
  lemma {:induction false} FillRises(x: Side, list: seq<Hdr>, n: nat)
    requires Increasing(list)
    ensures var f := Fill(x, list, n);
            && Increasing(f.hdrs) && Increasing(f.rest) && AllBelow(f.hdrs, f.rest)
            && (forall h :: h in f.hdrs || h in f.rest ==> h in list)
    decreases |list|
  {
    hide Current, Increasing;
    if list == [] || (n == 0 && Current(x.db, list[0]) && list[0].key !in x.aged) {
      NoneRise(x, list, n);
    } else {
      FillOne(x, list, n);
      FirstBelow(list);
      var h := list[0];
      var described := Current(x.db, h) && h.key !in x.aged;
      var n' := if described then n - 1 else n;
      FillRises(x, list[1..], n');
      PutFirst(h, Fill(x, list[1..], n').hdrs);
    }
  }

  lemma NoneRise(x: Side, list: seq<Hdr>, n: nat)
    requires Increasing(list)
    requires list == [] || (n == 0 && Current(x.db, list[0]) && list[0].key !in x.aged)
    ensures Fill(x, list, n) == Filled([], list, {}) && Increasing([])
  {
  }

  lemma JoinRises(a: seq<Hdr>, b: seq<Hdr>)
    requires Increasing(a) && Increasing(b) && AllBelow(a, b)
    ensures Increasing(a + b)
  {
    forall i, j | 0 <= i < j < |a + b|
      ensures (a + b)[i].key < (a + b)[j].key
    {
      if i < |a| <= j {
        assert a[i] in a && b[j - |a|] in b;
      }
    }
  }

  lemma SendTidy(x: Side, n: nat)
    requires Tidy(x) && x.st == Exchange
    ensures Tidy(SendDD(x, n)) || x.rq != []
    ensures SendDD(x, n).rq == x.rq && SendDD(x, n).db == x.db && SendDD(x, n).got == x.got
  {
    hide AtLeast, Fill;
    FillRises(x, x.list, n);
    JoinRises(x.gave, Fill(x, x.list, n).hdrs);
  }

  // After a packet a header is requested exactly if it was before, or is in the packet and the database has nothing as
  // recent.
  lemma {:induction false} ProcessRequests(x: Side, hdrs: seq<Hdr>)
    ensures var y := Process(x, hdrs);
            && y.db == x.db && y.got == x.got + hdrs && x.rq <= y.rq
            && (forall h :: h in y.rq <==> h in x.rq || (h in hdrs && !AtLeast(x.db, h)))
            && (Apart(x.rq) && Apart(x.got + hdrs) && (forall h :: h in x.rq ==> h in x.got) ==> Apart(y.rq))
  {
    hide AtLeast;
    if hdrs == [] {
      assert x.got + [] == x.got;
    } else {
      var n := |hdrs| - 1;
      var y, z, h := Process(x, hdrs[..n]), Process(x, hdrs), hdrs[n];
      ProcessRequests(x, hdrs[..n]);
      assert hdrs == hdrs[..n] + [h];
      assert (x.got + hdrs[..n]) + [h] == x.got + hdrs;
      if Apart(x.got + hdrs) && Apart(x.rq) && forall r :: r in x.rq ==> r in x.got {
        ApartPrefix(x.got + hdrs[..n], h);
        assert forall r :: r in y.rq ==> r in x.got + hdrs[..n];
      }
    }
  }

  lemma ApartPrefix(s: seq<Hdr>, h: Hdr)
    requires Apart(s + [h])
    ensures Apart(s) && forall r :: r in s ==> r.key != h.key
  {
    assert forall i :: 0 <= i < |s| ==> (s + [h])[i] == s[i];
    assert (s + [h])[|s|] == h;
  }

  lemma AbsorbTidy(x: Side, p: Pkt)
    requires SideOk(x) && Tidy(x) && Judge(x, p) == Accept && Increasing(x.got + p.hdrs)
    ensures Tidy(Absorb(x, p)) && Absorb(x, p).st == Exchange
  {
    hide AtLeast, ListOk, GotOk;
    ListingRises(x.db, x.bound);
    var x1 := if x.st == ExStart then Snapshot(x) else x;
    var x2 := x1.(peerMore := p.more, pkt := None);
    assert x1.list == if x.st == ExStart then Listing(x.db, x.bound) else x.list;
    ProcessKeeps(x2, p.hdrs);
    ProcessRequests(x2, p.hdrs);
  }

  lemma AcceptTidy(x: Side, p: Pkt, n: nat)
    requires SideOk(x) && Tidy(x) && Judge(x, p) == Accept && Increasing(x.got + p.hdrs)
    ensures Tidy(AcceptDD(x, p, n))
  {
    hide Absorb, Judge, AtLeast, Fill, Apart, Increasing, AllBelow;
    AbsorbTidy(x, p);
    SendTidy(Absorb(x, p), n);
  }

  lemma ApartTail(rq: seq<Hdr>)
    requires Apart(rq) && rq != []
    ensures Apart(rq[1..]) && forall r :: r in rq <==> r == rq[0] || r in rq[1..]
    ensures forall r :: r in rq[1..] ==> r.key != rq[0].key
  {
    assert rq == [rq[0]] + rq[1..];
    forall r | r in rq[1..]
      ensures r.key != rq[0].key
    {
      var i :| 0 <= i < |rq[1..]| && rq[1..][i] == r;
      assert rq[i + 1] == r;
    }
  }

  lemma ApartPut(h: Hdr, s: seq<Hdr>)
    requires Apart(s) && forall g :: g in s ==> h.key != g.key
    ensures Apart([h] + s)
  {
  }

  // Exactly the requests that h satisfies go.
  lemma {:induction false} SatisfiedTidy(rq: seq<Hdr>, h: Hdr)
    requires Apart(rq)
    ensures Apart(Satisfied(rq, h))
    ensures forall r :: r in Satisfied(rq, h) <==> r in rq && !(r.key == h.key && !Newer(r.inst, h.inst))
    decreases |rq|
  {
    hide Apart, Newer;
    if rq != [] {
      ApartTail(rq);
      SatisfiedTidy(rq[1..], h);
      if rq[0].key != h.key {
        ApartPut(rq[0], Satisfied(rq[1..], h));
      }
    }
  }

  lemma InstallTidy(x: Side, h: Hdr, n: nat)
    requires SideOk(x) && Tidy(x) && !AtLeast(x.db, h)
    ensures Tidy(Install(x, h, n))
  {
    hide ListOk, GotOk, Increasing, AllBelow, Fill, Apart;
    SatisfiedTidy(x.rq, h);
    var z := Entered(x, h);
    assert Tidy(z.(st := if z.rq == [] && z.st == Loading then Full else z.st));
    if z.rq == [] && x.rq != [] && x.st == Exchange {
      SendTidy(z, n);
    }
  }

  // The packet a side accepts continues what it has processed to what the other has described.
  lemma NextInSequence(sys: System, w: Which)
    requires Coupled(sys) && Channel(sys, w) != [] && Judge(At(sys, w), Channel(sys, w)[0]) == Accept
    ensures At(sys, w).got + Channel(sys, w)[0].hdrs == At(sys, if w == Master then Slave else Master).gave
  {
    if w == Master {
      MasterExpects(sys);
    } else {
      assert sys.toS[0] in sys.toS;
    }
  }

  lemma NextTidy(sys: System, x: Step, t: System)
    requires Inv(sys) && Tidy(sys.m) && Tidy(sys.s) && !sys.restarted && t == Next(sys, x) && !t.restarted
    ensures Tidy(t.m) && Tidy(t.s)
  {
    hide HistoryOk, Coupled, Tidy, AcceptDD, Install, Judge;
    if x.Deliver? && Channel(sys, x.to) != [] {
      var p := Channel(sys, x.to)[0];
      if Judge(At(sys, x.to), p) == Accept {
        NextInSequence(sys, x.to);
        Rises(At(sys, if x.to == Master then Slave else Master));
        CoupledSides(sys);
        AcceptTidy(At(sys, x.to), p, x.room);
      }
    } else if x.Learn? && !AtLeast(At(sys, x.at).db, x.h) {
      CoupledSides(sys);
      InstallTidy(At(sys, x.at), x.h, x.room);
    } else if x.Age? {
      TidyAged(At(sys, x.at), At(sys, x.at).aged + {x.k});
    } else if x.HoldExpires? {
      TidyHeld(sys.s);
    }
  }

  lemma Rises(x: Side)
    requires Tidy(x)
    ensures Increasing(x.gave)
  {
  }

  lemma CoupledSides(sys: System)
    requires Inv(sys)
    ensures SideOk(sys.m) && SideOk(sys.s)
  {
  }

  lemma TidyAged(x: Side, aged: set<Key>)
    requires Tidy(x)
    ensures Tidy(x.(aged := aged))
  {
  }

  lemma TidyHeld(x: Side)
    requires Tidy(x)
    ensures Tidy(x.(held := false))
  {
  }

  lemma {:induction false} EveryRunTidy(sys: System, xs: seq<Step>)
    requires Inv(sys) && Tidy(sys.m) && Tidy(sys.s) && !sys.restarted && !Run(sys, xs).restarted
    ensures Inv(Run(sys, xs)) && Tidy(Run(sys, xs).m) && Tidy(Run(sys, xs).s)
  {
    hide Inv, Tidy, Next;
    EveryRun(sys, xs);
    if xs != [] {
      var r := Run(sys, xs[..|xs| - 1]);
      if r.restarted {
        StaysRestarted(r, xs[|xs| - 1]);
      }
      EveryRunTidy(sys, xs[..|xs| - 1]);
      NextTidy(r, xs[|xs| - 1], Run(sys, xs));
    }
  }

  // In every run without a restart: a side requests only what the other described and what it lacks, and each key once;
  // after ExchangeDone it is Full exactly if it has everything the other described, or something more recent.
  lemma RequestsAreMissing(mseq: uns32, mdb: map<Key, Inst>, mbound: nat, maged: set<Key>, sseq: uns32,
          sdb: map<Key, Inst>, sbound: nat, saged: set<Key>, xs: seq<Step>, w: Which)
    requires (forall k :: k in mdb ==> k < mbound) && (forall k :: k in sdb ==> k < sbound)
    requires !Run(Start(mseq, mdb, mbound, maged, sseq, sdb, sbound, saged), xs).restarted
    ensures var r := Run(Start(mseq, mdb, mbound, maged, sseq, sdb, sbound, saged), xs);
            var x, y := At(r, w), At(r, if w == Master then Slave else Master);
            && (forall h :: h in x.rq <==> h in x.got && !AtLeast(x.db, h)) && Apart(x.rq)
            && (x.done ==> (x.st == Full <==> forall h :: h in y.gave ==> AtLeast(x.db, h)))
  {
    hide Run, AtLeast, ListOk, Starting, SlaveAhead, MasterAhead;
    var sys := Start(mseq, mdb, mbound, maged, sseq, sdb, sbound, saged);
    StartOk(mseq, mdb, mbound, maged, sseq, sdb, sbound, saged);
    EveryRunTidy(sys, xs);
    var r := Run(sys, xs);
    var x, y := At(r, w), At(r, if w == Master then Slave else Master);
    if x.done {
      DoneFacts(r, w);
      assert x.st != Full ==> x.rq[0] in x.rq;
    }
  }

  // ---- When the adjacency is restarted

  // What restarts it: a copy of the other side's first packet reaches a side beyond ExStart; or the master's last
  // packet reaches a slave that is Full again, after the slave freed its answer.
  predicate Fatal(x: Side, p: Pkt) {
    && x.st != ExStart
    && (p.init || (!x.master && x.st == Full && !(x.pkt.Some? && x.held) && p.seqno == x.ddseq))
  }

  predicate FatalAt(sys: System, w: Which) {
    Channel(sys, w) != [] && Fatal(At(sys, w), Channel(sys, w)[0])
  }

  // Exactly the delivery of such a packet restarts the adjacency.
  lemma RestartsExactly(sys: System, x: Step, t: System)
    requires Inv(sys) && !sys.restarted && t == Next(sys, x)
    ensures t.restarted <==> x.Deliver? && FatalAt(sys, x.to)
  {
    hide Inv, Judge, Fatal, Install, AcceptDD;
    if x.Deliver? && Channel(sys, x.to) != [] {
      JudgedFatal(sys, x.to, Channel(sys, x.to)[0]);
    }
  }

  lemma JudgedFatal(sys: System, w: Which, p: Pkt)
    requires Inv(sys) && p in Channel(sys, w)
    ensures Judge(At(sys, w), p) == Restart <==> Fatal(At(sys, w), p)
  {
    hide HistoryOk, Tail, HdrsOf;
    if Starting(sys) {
    } else if SlaveAhead(sys) {
    } else {
    }
  }

  // In every run, the adjacency is restarted if and only if a fatal packet is delivered.
  lemma {:induction false} RunRestarts(sys: System, xs: seq<Step>)
    requires Inv(sys) && !sys.restarted
    ensures Run(sys, xs).restarted <==> exists i :: 0 <= i < |xs| && FatalStep(Run(sys, xs[..i]), xs[i])
  {
    hide Inv, Next, FatalStep;
    if xs != [] {
      var n := |xs| - 1;
      var before := xs[..n];
      assert forall i :: 0 <= i < n ==> before[..i] == xs[..i] && before[i] == xs[i];
      RunRestarts(sys, before);
      EveryRun(sys, before);
      RunStep(sys, xs, before);
    }
  }

  ghost predicate FatalStep(sys: System, x: Step) {
    !sys.restarted && x.Deliver? && FatalAt(sys, x.to)
  }

  lemma RunStep(sys: System, xs: seq<Step>, before: seq<Step>)
    requires xs != [] && before == xs[..|xs| - 1] && (Run(sys, before).restarted || Inv(Run(sys, before)))
    ensures Run(sys, xs).restarted <==> Run(sys, before).restarted || FatalStep(Run(sys, before), xs[|xs| - 1])
    ensures Run(sys, before).restarted ==> !FatalStep(Run(sys, before), xs[|xs| - 1])
  {
    hide Inv, FatalAt;
    var r := Run(sys, before);
    if r.restarted {
      StaysRestarted(r, xs[|xs| - 1]);
    } else {
      RestartsExactly(r, xs[|xs| - 1], Next(r, xs[|xs| - 1]));
    }
  }

  lemma StaysRestarted(sys: System, x: Step)
    requires sys.restarted
    ensures Next(sys, x).restarted
  {
  }

  // The slave has answered the master's first packet, and no answer is on its way.
  ghost predicate Stuck(sys: System) {
    && Inv(sys) && !sys.restarted && sys.m.st == ExStart && sys.s.st != ExStart && sys.s.pkt.Some?
    && forall p :: p in sys.toM ==> p.init && p.ms
  }

  // All the master sends then is its first packet, which can only restart the adjacency.
  lemma StuckStays(sys: System, x: Step, t: System)
    requires Stuck(sys) && t == Next(sys, x)
    ensures t.restarted || Stuck(t)
  {
    hide HistoryOk, Coupled, AcceptDD, Install;
    NextKeeps(sys, x, t);
    if x.Deliver? && Channel(sys, x.to) != [] {
      StuckDelivery(sys, x.to, x.room);
    } else if x.Learn? && !AtLeast(At(sys, x.at).db, x.h) {
      StuckLearning(sys, x.at, x.h, x.room, Install(At(sys, x.at), x.h, x.room));
    } else if (x.Lose? || x.Repeat?) && x.i < |Channel(sys, x.to)| {
      Pieces(Channel(sys, x.to), x.i);
    }
  }

  lemma StuckDelivery(sys: System, w: Which, n: nat)
    requires Stuck(sys) && Channel(sys, w) != []
    requires Delivered(sys, w, n).restarted || Inv(Delivered(sys, w, n))
    ensures Delivered(sys, w, n).restarted || Stuck(Delivered(sys, w, n))
  {
    hide HistoryOk, AcceptDD;
    assert Channel(sys, w)[0] in Channel(sys, w);
  }

  lemma StuckLearning(sys: System, w: Which, h: Hdr, n: nat, z: Side)
    requires Stuck(sys) && !AtLeast(At(sys, w).db, h)
    requires z == Install(At(sys, w), h, n) && Inv(PutAndSend(sys, w, z))
    ensures Stuck(PutAndSend(sys, w, z))
  {
    hide HistoryOk, Install;
    InstallFacts(At(sys, w), h, n, z);
  }

  lemma {:induction false} StuckForGood(sys: System, xs: seq<Step>)
    requires Stuck(sys)
    ensures Run(sys, xs).restarted || Stuck(Run(sys, xs))
  {
    if xs != [] {
      StuckForGood(sys, xs[..|xs| - 1]);
      if !Run(sys, xs[..|xs| - 1]).restarted {
        StuckStays(Run(sys, xs[..|xs| - 1]), xs[|xs| - 1], Run(sys, xs));
      }
    }
  }

  // An exchange that loses the slave's first answer never gets anywhere: whatever happens afterwards, the
  // master is still in ExStart, or the adjacency has been restarted.
  lemma FirstReplyLost(start: System, xs: seq<Step>, n: nat, t: System)
    requires Inv(start) && !start.restarted && start.m.st == ExStart && start.s.st == ExStart
    requires |start.toS| == 1 && start.toM == [start.s.pkt.value]
    requires t == Next(Next(start, Deliver(Slave, n)), Lose(Master, 1))
    ensures Run(t, xs).restarted || Run(t, xs).m.st == ExStart
  {
    hide AcceptDD, HistoryOk, Run;
    var p := start.toS[0];
    assert p in start.toS && start.m.pkt == Some(p);
    var y := AcceptDD(start.s, p, n);
    AcceptFacts(start.s, p, n);
    var u := Next(start, Deliver(Slave, n));
    NextKeeps(start, Deliver(Slave, n), u);
    NextKeeps(u, Lose(Master, 1), t);
    FirstAnswer(start.s, p, n);
    assert u.toM == [start.s.pkt.value, y.pkt.value] && t.toM == [start.s.pkt.value];
    StuckForGood(t, xs);
  }

  // The first packet describes nothing, so that the slave answers at once.
  lemma FirstAnswer(x: Side, p: Pkt, n: nat)
    requires SideOk(x) && !x.master && Judge(x, p) == Accept && x.st == ExStart
    ensures AcceptDD(x, p, n).pkt.Some? && AcceptDD(x, p, n).held
  {
  }

  // One round of the loop that fills a packet, for what the packet and the retransmission lists hold already.
  lemma FillStep(x: Side, list: seq<Hdr>, n: nat, hdrs: seq<Hdr>, rx: set<Key>)
    requires list != []
    ensures var f, g, h := Fill(x, list, n), Fill(x, list[1..], n), list[0];
            if !Current(x.db, h) then f == g
            else if h.key in x.aged then f.hdrs == g.hdrs && f.rest == g.rest && rx + f.rx == rx + {h.key} + g.rx
            else if n == 0 then f == Filled([], list, {})
            else
              var k := Fill(x, list[1..], n - 1);
              hdrs + f.hdrs == hdrs + [h] + k.hdrs && f.rest == k.rest && f.rx == k.rx
  {
  }

  lemma FillNothing(x: Side, n: nat)
    ensures Fill(x, [], n) == Filled([], [], {})
  {
  }

  lemma AcceptRequests(x: Side, p: Pkt, n: nat)
    ensures AcceptDD(x, p, n).rq == Absorb(x, p).rq
    ensures forall h :: h in Absorb(x, p).rq <==> h in x.rq || (h in p.hdrs && !AtLeast(x.db, h))
  {
    hide Process, Fill, AtLeast;
    var x1 := if x.st == ExStart then Snapshot(x) else x;
    ProcessRequests(x1.(peerMore := p.more, pkt := None), p.hdrs);
  }

  // ---- The neighbour structure, updated in place

  class SpfNbr {
    var side: Side

    constructor (side: Side)
      ensures this.side == side
    {
      this.side := side;
    }

    // SpfNbr::process_dd_contents.
    method ProcessDDContents(hdrs: seq<Hdr>)
      modifies this
      ensures side == Process(old(side), hdrs)
    {
      var i := 0;
      while i < |hdrs|
        invariant 0 <= i <= |hdrs| && side == Process(old(side), hdrs[..i])
      {
        var h := hdrs[i];
        assert hdrs[..i + 1][..i] == hdrs[..i];
        side := side.(got := side.got + [h]);
        if !AtLeast(side.db, h) {
          side := side.(rq := side.rq + [h]);
        }
        i := i + 1;
      }
      assert hdrs[..|hdrs|] == hdrs;
    }

    // The loop of SpfNbr::send_dd that drains the summary list into a packet.
    method FillPacket(n: nat) returns (hdrs: seq<Hdr>)
      modifies this
      ensures var f := Fill(old(side), old(side).list, n);
              hdrs == f.hdrs && side == old(side).(list := f.rest, rx := old(side).rx + f.rx)
    {
      hide Fill, Current;
      ghost var was, all := side, Fill(side, side.list, n);
      hdrs := [];
      var room := n;
      while side.list != []
        invariant side == was.(list := side.list, rx := side.rx)
        invariant var f := Fill(was, side.list, room);
                  hdrs + f.hdrs == all.hdrs && f.rest == all.rest && side.rx + f.rx == was.rx + all.rx
        decreases |side.list|
      {
        var h := side.list[0];
        FillStep(was, side.list, room, hdrs, side.rx);
        if !Current(side.db, h) {
          side := side.(list := side.list[1..]);
        } else if h.key in side.aged {
          side := side.(list := side.list[1..], rx := side.rx + {h.key});
        } else if room == 0 {
          break;
        } else {
          hdrs := hdrs + [h];
          side := side.(list := side.list[1..]);
          room := room - 1;
        }
      }
      FillNothing(was, room);
    }

    // SpfNbr::send_dd.
    method SendPacket(n: nat)
      modifies this
      ensures side == SendDD(old(side), n)
    {
      if side.st == ExStart {
        side := side.(pkt := Some(Pkt(true, true, true, side.ddseq, [])), held := true, allSent := false);
        return;
      }
      var hdrs := FillPacket(n);
      var more := side.list != [];
      if !more {
        side := side.(allSent := true);
      }
      side := side.(pkt := Some(Pkt(false, more, side.master, side.ddseq, hdrs)), held := true);
      side := side.(gave := side.gave + hdrs);
      if !side.master && side.allSent && !side.peerMore {
        side := side.(st := if side.rq == [] then Full else Loading, done := true);
      }
    }

    // SpfNbr::recv_dd: returns what became of the packet.
    method RecvDD(p: Pkt, n: nat) returns (v: Verdict)
      modifies this
      ensures v == Judge(old(side), p)
      ensures side == if v == Accept then AcceptDD(old(side), p, n) else old(side)
      ensures v == Accept ==>
                forall h :: h in side.rq <==> h in old(side).rq || (h in p.hdrs && !AtLeast(old(side).db, h))
    {
      hide Process, Proceed, Listing;
      ghost var was := side;
      var seqno := p.seqno;
      var claim := !p.ms;
      match side.st {
        case ExStart =>
          if claim != side.master {
            return Ignore;
          }
          if !(side.master && !p.init && seqno == side.ddseq) && !(!side.master && p.init && p.more && p.hdrs == []) {
            return Ignore;
          }
          side := Snapshot(side);
        case Exchange =>
          if claim != side.master || p.init {
            return Restart;
          } else if side.master {
            if seqno != side.ddseq {
              return if seqno == Pred(side.ddseq) then Ignore else Restart;
            }
          } else if seqno != Succ(side.ddseq) {
            return if seqno == side.ddseq then Again else Restart;
          }
        case _ =>
          if claim != side.master || p.init {
            return Restart;
          } else if side.master && seqno == Pred(side.ddseq) {
            return Ignore;
          } else if !side.master && seqno == side.ddseq {
            return if side.pkt.Some? && side.held then Again else if side.st == Full then Restart else Ignore;
          }
          return Restart;
      }
      v := Accept;
      TakeIn(p);
      GoOn(n);
      AcceptRequests(was, p, n);
    }

    // What the packet says is taken in,
    method TakeIn(p: Pkt)
      requires side.st != ExStart
      modifies this
      ensures side == Absorb(old(side), p)
    {
      side := side.(peerMore := p.more, pkt := None);
      ProcessKeeps(side, p.hdrs);
      ProcessDDContents(p.hdrs);
      side := side.(ddseq := if side.master then Succ(side.ddseq) else p.seqno);
    }

    // and the exchange is over, or goes on.
    method GoOn(n: nat)
      modifies this
      ensures side == Proceed(old(side), n)
    {
      if side.master {
        if side.allSent && !side.peerMore {
          side := side.(st := if side.rq == [] then Full else Loading, done := true);
          return;
        }
      }
      if side.rq == [] {
        SendPacket(n);
      }
    }
  }
}
