// Aging without touching the LSAs (dbage.h, dbage.C): doubly linked lists in 3601 bins, and a moving first bin.

module Aging {
  import opened Common

  const BINS: nat := 3601

  // ---- Ages and bins

  function Age2Bin(bin0: nat, x: nat): (b: nat)
    requires bin0 <= MAX_AGE && x <= MAX_AGE
    ensures b <= MAX_AGE
  {
    if x <= bin0 then bin0 - x else MAX_AGE + 1 + bin0 - x
  }

  function Bin2Age(bin0: nat, b: nat): nat
    requires bin0 <= MAX_AGE && b <= MAX_AGE
  {
    Age2Bin(bin0, b)
  }

  function NextBin0(bin0: nat): nat {
    if bin0 + 1 > MAX_AGE then 0 else bin0 + 1
  }

  lemma TickAges(bin0: nat, b: nat)
    requires bin0 <= MAX_AGE && b <= MAX_AGE
    ensures Bin2Age(NextBin0(bin0), b) == if Bin2Age(bin0, b) == MAX_AGE then 0 else Bin2Age(bin0, b) + 1
  {
  }

  // ---- What a second does to the ages, and how long an LSA lasts

  // The LSAs that age, with their ages.
  function Ticked<L>(ages: map<L, nat>): map<L, nat> {
    map l | l in ages && ages[l] + 1 < MAX_AGE :: ages[l] + 1
  }

  function Older<L>(ages: map<L, nat>): map<L, nat> {
    map l | l in ages :: if ages[l] == MAX_AGE then 0 else ages[l] + 1
  }

  function Survivors<L>(ages: map<L, nat>): map<L, nat> {
    map l | l in ages && ages[l] != MAX_AGE :: ages[l]
  }

  predicate Young<L>(ages: map<L, nat>) {
    forall l :: l in ages ==> ages[l] < MAX_AGE
  }

  lemma OneSecond<L>(ages: map<L, nat>)
    requires Young(ages)
    ensures Survivors(Older(ages)) == Ticked(ages) && Young(Ticked(ages)) && Older(ages).Keys == ages.Keys
  {
  }

  // LSAs come and go between the seconds. An LSA is filed by its received age: one of age MaxAge is flushed, and one
  // with the DoNotAge bit does not age.
  datatype Event<L> = Second | Files(l: L, age: nat) | Takes(l: L)

  function Filed<L>(ages: map<L, nat>, l: L, age: nat): map<L, nat> {
    if age < MAX_AGE then ages[l := age] else ages - {l}
  }

  function Happened<L>(ages: map<L, nat>, e: Event<L>): map<L, nat> {
    match e
    case Second => Ticked(ages)
    case Files(l, age) => Filed(ages, l, age)
    case Takes(l) => ages - {l}
  }

  function After<L>(ages: map<L, nat>, es: seq<Event<L>>): map<L, nat>
    decreases es
  {
    if es == [] then ages else After(Happened(ages, es[0]), es[1..])
  }

  function Seconds<L>(es: seq<Event<L>>): nat {
    if es == [] then 0 else Seconds(es[1..]) + if es[0].Second? then 1 else 0
  }

  predicate Concerns<L(==)>(e: Event<L>, l: L) {
    !e.Second? && e.l == l
  }

  // Whatever happens to other LSAs, an LSA is flushed exactly MaxAge minus its age at the start seconds later.
  lemma {:induction false} FlushedExactly<L>(ages: map<L, nat>, l: L, es: seq<Event<L>>)
    requires l in ages && ages[l] < MAX_AGE && forall e :: e in es ==> !Concerns(e, l)
    ensures l in After(ages, es) <==> ages[l] + Seconds(es) < MAX_AGE
    ensures l in After(ages, es) ==> After(ages, es)[l] == ages[l] + Seconds(es)
    decreases es
  {
    if es != [] {
      assert !Concerns(es[0], l);
      var next := Happened(ages, es[0]);
      if l in next {
        FlushedExactly(next, l, es[1..]);
      } else {
        StaysOut(next, l, es[1..]);
      }
    }
  }

  lemma {:induction false} StaysOut<L>(ages: map<L, nat>, l: L, es: seq<Event<L>>)
    requires l !in ages && forall e :: e in es ==> !Concerns(e, l)
    ensures l !in After(ages, es)
    decreases es
  {
    if es != [] {
      assert !Concerns(es[0], l);
      StaysOut(Happened(ages, es[0]), l, es[1..]);
    }
  }

  // ---- Doubly linked lists

  class Lsa {
    var rcvage: nat   // lsa_rcvage
    var inBin: bool   // in_agebin
    var bin: nat      // lsa_agebin
    var fwd: Lsa?     // lsa_agefwd
    var rv: Lsa?      // lsa_agerv

    constructor (age: nat)
      ensures rcvage == age && !inBin
    {
      rcvage, inBin, bin, fwd, rv := age, false, 0, null, null;
    }
  }

  ghost predicate Distinct(q: seq<Lsa>) {
    forall i, j :: 0 <= i < j < |q| ==> q[i] != q[j]
  }

  ghost function First(q: seq<Lsa>): Lsa? {
    if q == [] then null else q[0]
  }

  ghost function NextOf(q: seq<Lsa>, i: nat): Lsa? {
    if i + 1 < |q| then q[i + 1] else null
  }

  ghost function PrevOf(q: seq<Lsa>, i: nat): Lsa?
    requires i < |q|
  {
    if i > 0 then q[i - 1] else null
  }

  ghost predicate Linked(q: seq<Lsa>, head: Lsa?)
    reads (set l | l in q)`fwd, (set l | l in q)`rv
  {
    && Distinct(q) && head == First(q)
    && forall i :: 0 <= i < |q| ==> q[i].fwd == NextOf(q, i) && q[i].rv == PrevOf(q, i)
  }

  ghost function Cut(q: seq<Lsa>, k: nat): seq<Lsa>
    requires k < |q|
  {
    q[..k] + q[k + 1..]
  }

  lemma CutFacts(q: seq<Lsa>, k: nat, r: seq<Lsa>)
    requires k < |q| && Distinct(q) && r == Cut(q, k)
    ensures |r| == |q| - 1 && Distinct(r) && First(r) == (if k == 0 then NextOf(q, 0) else First(q))
    ensures forall l :: l in r <==> l in q && l != q[k]
    ensures forall i :: 0 <= i < |r| ==>
              && r[i] == q[if i < k then i else i + 1]
              && (PrevOf(q, k) != null ==> (r[i] == PrevOf(q, k) <==> i + 1 == k))
              && (NextOf(q, k) != null ==> (r[i] == NextOf(q, k) <==> i == k))
              && NextOf(r, i) == (if i + 1 == k then NextOf(q, k) else NextOf(q, if i < k then i else i + 1))
              && PrevOf(r, i) == (if i == k then PrevOf(q, k) else PrevOf(q, if i < k then i else i + 1))
  {
    assert q == q[..k] + [q[k]] + q[k + 1..];
  }

  lemma PushFacts(l: Lsa, q: seq<Lsa>, r: seq<Lsa>)
    requires Distinct(q) && l !in q && r == [l] + q
    ensures Distinct(r) && First(r) == l && NextOf(r, 0) == First(q) && PrevOf(r, 0) == null
    ensures forall i :: 0 < i < |r| ==>
              && r[i] == q[i - 1] && (r[i] == First(q) <==> i == 1) && NextOf(r, i) == NextOf(q, i - 1)
              && PrevOf(r, i) == if i == 1 then l else PrevOf(q, i - 1)
  {
  }

  method PushFront(heads: array<Lsa?>, b: nat, l: Lsa, ghost q: seq<Lsa>)
    requires b < heads.Length && Linked(q, heads[b]) && l !in q
    modifies heads, l`fwd, l`rv, (set x | x in q)`rv
    ensures Linked([l] + q, heads[b]) && forall c :: 0 <= c < heads.Length && c != b ==> heads[c] == old(heads[c])
  {
    hide NextOf, PrevOf, Distinct;
    ghost var r := [l] + q;
    PushFacts(l, q, r) by {
      assert Linked(q, heads[b]);
    }
    l.fwd := heads[b];
    l.rv := null;
    if heads[b] != null {
      heads[b].rv := l;
    }
    heads[b] := l;
    forall i | 0 <= i < |r|
      ensures r[i].fwd == NextOf(r, i) && r[i].rv == PrevOf(r, i)
    {
      if i > 0 {
        assert r[i] == q[i - 1];
      }
    }
  }

  method Unlink(heads: array<Lsa?>, b: nat, l: Lsa, ghost q: seq<Lsa>, ghost k: nat)
    requires b < heads.Length && Linked(q, heads[b]) && k < |q| && q[k] == l
    modifies heads, (set x | x in q)`fwd, (set x | x in q)`rv
    ensures Linked(Cut(q, k), heads[b]) && forall c :: 0 <= c < heads.Length && c != b ==> heads[c] == old(heads[c])
    ensures NextOf(q, k) == old(l.fwd)
  {
    hide NextOf, PrevOf, Distinct, Cut, First;
    ghost var r := Cut(q, k);
    CutFacts(q, k, r);
    KnownNeighbours(q, k);
    if l.rv != null {
      l.rv.fwd := l.fwd;
    } else {
      heads[b] := l.fwd;
    }
    if l.fwd != null {
      l.fwd.rv := l.rv;
    }
    forall i | 0 <= i < |r|
      ensures r[i].fwd == NextOf(r, i) && r[i].rv == PrevOf(r, i)
    {
      assert r[i] == q[if i < k then i else i + 1];
    }
  }

  lemma KnownNeighbours(q: seq<Lsa>, k: nat)
    requires k < |q| && Distinct(q)
    ensures NextOf(q, k) != null ==> NextOf(q, k) in q && NextOf(q, k) != q[k]
    ensures PrevOf(q, k) != null ==> PrevOf(q, k) in q && PrevOf(q, k) != q[k] && PrevOf(q, k) != NextOf(q, k)
    ensures (PrevOf(q, k) == null <==> k == 0) && (NextOf(q, k) == null <==> k == |q| - 1)
  {
  }

  // ---- The bins

  class Ager {
    const heads: array<Lsa?>        // AgeBins
    var bin0: nat
    var maxAgeList: seq<Lsa>        // MaxAge_list
    ghost var bins: seq<seq<Lsa>>   // the list in each bin
    ghost var lsas: set<Lsa>

    // The bins hold the LSAs that are in a bin, each in its own.
    ghost predicate Valid()
      reads this, heads, lsas
    {
      && bin0 <= MAX_AGE && heads.Length == BINS && |bins| == BINS
      && (forall b :: 0 <= b < BINS ==> Listed(bins[b], b))
      && (forall l :: l in lsas && l.inBin ==> l.bin < BINS && l in bins[l.bin])
    }

    ghost predicate Listed(q: seq<Lsa>, b: nat)
      requires b < heads.Length
      reads heads, lsas, `lsas
    {
      (forall l :: l in q ==> l in lsas && l.inBin && l.bin == b) && Linked(q, heads[b])
    }

    constructor ()
      ensures Valid() && lsas == {} && bin0 == 0 && maxAgeList == [] && fresh(heads)
    {
      heads := new Lsa?[BINS](_ => null);
      bin0, maxAgeList, lsas := 0, [], {};
      bins := seq(BINS, _ => []);
    }

    // A new LSA becomes known.
    ghost method Adopt(l: Lsa)
      requires Valid() && !l.inBin
      modifies `lsas
      ensures Valid() && lsas == old(lsas) + {l} && bins == old(bins) && AgeMap() == old(AgeMap())
    {
      hide Linked;
      lsas := lsas + {l};
      assert forall b :: 0 <= b < BINS ==> Listed(bins[b], b);
    }

    // Whether an LSA in a bin ages, and its age.
    predicate Ages(l: Lsa)
      reads l
    {
      l.inBin && l.rcvage < DO_NOT_AGE
    }

    function AgeOf(l: Lsa): nat
      reads l, `bin0
    {
      if bin0 <= MAX_AGE && l.bin <= MAX_AGE then Bin2Age(bin0, l.bin) else 0
    }

    ghost function AgeMap(): map<Lsa, nat>
      reads this, lsas
    {
      map l | l in lsas && Ages(l) :: AgeOf(l)
    }

    lemma OtherBins(b: nat)
      requires Valid() && b < BINS
      ensures forall c, l :: 0 <= c < BINS && c != b && l in bins[c] ==> l !in bins[b]
    {
    }

    // Takes an LSA out of its bin, in which it is the k-th.
    method StopAging(l: Lsa) returns (ghost k: nat)
      requires Valid() && l in lsas
      modifies heads, `bins, l`inBin, lsas`fwd, lsas`rv
      ensures Valid() && !l.inBin
      ensures if !old(l.inBin) then bins == old(bins)
              else
                var q := old(bins[l.bin]);
                k < |q| && q[k] == l && bins == old(bins)[old(l.bin) := Cut(q, k)] && NextOf(q, k) == old(l.fwd)
      ensures AgeMap() == old(AgeMap()) - {l}
    {
      hide Bin2Age, Cut, Listed, NextOf;
      k := 0;
      if l.inBin {
        k := TakeOut(l);
      }
    }

    method TakeOut(l: Lsa) returns (ghost k: nat)
      requires Valid() && l in lsas && l.inBin
      modifies heads, `bins, l`inBin, lsas`fwd, lsas`rv
      ensures Valid() && !l.inBin && k < |old(bins[l.bin])| && old(bins[l.bin])[k] == l
      ensures bins == old(bins)[old(l.bin) := Cut(old(bins[l.bin]), k)] && NextOf(old(bins[l.bin]), k) == old(l.fwd)
    {
      hide Linked, Cut, NextOf, Distinct, PrevOf;
      ghost var b, q := l.bin, bins[l.bin];
      k :| 0 <= k < |q| && q[k] == l;
      OtherBins(b);
      LinkedDistinct(q, heads[b]);
      CutFacts(q, k, Cut(q, k));
      Unlink(heads, l.bin, l, q, k);
      l.inBin := false;
      bins := bins[b := Cut(q, k)];
      assert Listed(bins[b], b);
    }

    // Files an LSA by its received age; one of age MaxAge is to be flushed instead.
    method StartAging(l: Lsa)
      requires Valid() && l in lsas && (l.rcvage <= MAX_AGE || l.rcvage >= DO_NOT_AGE)
      modifies heads, `bins, `maxAgeList, l`inBin, l`bin, lsas`fwd, lsas`rv
      ensures Valid()
      ensures l.rcvage == MAX_AGE ==> !l.inBin && maxAgeList == old(maxAgeList) + [l] && AgeOf(l) == 0
      ensures l.rcvage != MAX_AGE ==>
                l.inBin && AgeOf(l) == (if l.rcvage >= DO_NOT_AGE then 0 else l.rcvage) && maxAgeList == old(maxAgeList)
      ensures AgeMap() == Filed(old(AgeMap()), l, l.rcvage)
    {
      hide AgeMap, Listed, Linked, Cut, NextOf;
      NotAging(l);
      if l.inBin {
        ghost var k := StopAging(l);
      }
      if l.rcvage == MAX_AGE {
        StartOver(l);
        return;
      }
      var bin := if l.rcvage >= DO_NOT_AGE then Age2Bin(bin0, 0) else Age2Bin(bin0, l.rcvage);
      FileIn(l, bin);
    }

    method FileIn(l: Lsa, b: nat)
      requires Valid() && l in lsas && !l.inBin && b < BINS
      modifies heads, `bins, l`inBin, l`bin, lsas`fwd, lsas`rv
      ensures Valid() && l.inBin && l.bin == b
      ensures AgeMap() == if l.rcvage < DO_NOT_AGE then old(AgeMap())[l := Bin2Age(bin0, b)] else old(AgeMap())
    {
      hide Bin2Age, Linked, Listed;
      PutIn(l, b);
    }

    lemma NotAging(l: Lsa)
      ensures !Ages(l) ==> AgeMap() - {l} == AgeMap()
    {
    }

    method PutIn(l: Lsa, b: nat)
      requires Valid() && l in lsas && !l.inBin && b < BINS
      modifies heads, `bins, l`inBin, l`bin, lsas`fwd, lsas`rv
      ensures Valid() && l.inBin && l.bin == b && bins == old(bins)[b := [l] + old(bins[b])]
    {
      hide Linked;
      ghost var q := bins[b];
      OtherBins(b);
      PushFront(heads, b, l, q);
      l.inBin := true;
      l.bin := b;
      bins := bins[b := [l] + q];
      assert Listed(bins[b], b);
    }

    // Reoriginates an LSA with age MaxAge, in place.
    method AgePrematurely(l: Lsa) returns (ghost k: nat)
      requires Valid() && l in lsas && l.inBin
      modifies heads, `bins, `maxAgeList, l`inBin, l`bin, l`rcvage, lsas`fwd, lsas`rv
      ensures Valid() && !l.inBin && l.rcvage == MAX_AGE && maxAgeList == old(maxAgeList) + [l] && AgeOf(l) == 0
      ensures k < |old(bins[l.bin])| && old(bins[l.bin])[k] == l
      ensures bins == old(bins)[old(l.bin) := Cut(old(bins[l.bin]), k)]
    {
      hide Linked, Cut, NextOf;
      k := TakeOut(l);
      l.rcvage := MAX_AGE;
      StartOver(l);
    }

    method StartOver(l: Lsa)
      requires Valid() && l in lsas && !l.inBin && l.rcvage == MAX_AGE
      modifies `maxAgeList, l`bin
      ensures Valid() && maxAgeList == old(maxAgeList) + [l] && AgeMap() == old(AgeMap()) && AgeOf(l) == 0
    {
      hide Linked;
      l.bin := Age2Bin(bin0, 0);
      maxAgeList := maxAgeList + [l];
    }

    // Flushes what has reached MaxAge. LSAs that do not age may stay.
    method MaxageLsas(keep: Lsa -> bool)
      requires Valid()
      modifies heads, `bins, `maxAgeList, lsas
      ensures Valid()
      ensures forall l :: l in lsas && old(l.inBin && AgeOf(l) == MAX_AGE && !(l.rcvage >= DO_NOT_AGE && keep(l))) ==>
                !l.inBin && l.rcvage == MAX_AGE && l in maxAgeList
      ensures forall l :: l in lsas && !old(l.inBin && AgeOf(l) == MAX_AGE && !(l.rcvage >= DO_NOT_AGE && keep(l))) ==>
                l.inBin == old(l.inBin) && l.bin == old(l.bin) && l.rcvage == old(l.rcvage)
    {
      hide Linked, Age2Bin;
      var b := Age2Bin(bin0, MAX_AGE);
      BinOfMaxAge(bin0);
      assert forall l :: l in lsas ==> (l in bins[b] <==> l.inBin && AgeOf(l) == MAX_AGE);
      FlushBin(b, keep);
    }

    // Flushes what is in one bin, but for what is kept.
    method FlushBin(b: nat, keep: Lsa -> bool)
      requires Valid() && b < BINS
      modifies heads, `bins, `maxAgeList, lsas
      ensures Valid()
      ensures forall l :: l in lsas && old(l in bins[b] && !(l.rcvage >= DO_NOT_AGE && keep(l))) ==>
                !l.inBin && l.rcvage == MAX_AGE && l in maxAgeList
      ensures forall l :: l in lsas && !old(l in bins[b] && !(l.rcvage >= DO_NOT_AGE && keep(l))) ==>
                l.inBin == old(l.inBin) && l.bin == old(l.bin) && l.rcvage == old(l.rcvage)
    {
      hide Linked, Cut, NextOf, Age2Bin, Distinct, Bin2Age;
      ghost var kept: seq<Lsa>, rem: seq<Lsa> := [], bins[b];
      FirstInBin(b);
      var lsap := heads[b];
      while lsap != null
        invariant Valid() && bins[b] == kept + rem && lsap == First(rem)
        invariant forall l :: l in rem ==> l in old(bins[b]) && l.rcvage == old(l.rcvage)
        invariant forall l :: l in lsas && old(l in bins[b] && !(l.rcvage >= DO_NOT_AGE && keep(l))) ==>
                    l in rem || (!l.inBin && l.rcvage == MAX_AGE && l in maxAgeList)
        invariant forall l :: l in lsas && !old(l in bins[b] && !(l.rcvage >= DO_NOT_AGE && keep(l))) ==>
                    l.inBin == old(l.inBin) && l.bin == old(l.bin) && l.rcvage == old(l.rcvage)
        decreases |rem|
      {
        var next := lsap.fwd;
        NextInBin(b, kept, rem);
        if lsap.rcvage >= DO_NOT_AGE && keep(lsap) {
          kept := kept + [lsap];
        } else {
          ghost var k := AgePrematurely(lsap);
          CutAfter(kept, rem, k);
        }
        rem := rem[1..];
        lsap := next;
      }
    }

    // No aging LSA has reached MaxAge: those were flushed.
    ghost predicate NoneDue()
      reads this, lsas
    {
      forall l :: l in lsas && Ages(l) ==> AgeOf(l) < MAX_AGE
    }

    // The next bin becomes the first: every LSA in a bin is a second older, but from MaxAge on counts anew.
    method Advance()
      requires Valid()
      modifies `bin0
      ensures Valid() && AgeMap() == Older(old(AgeMap()))
    {
      hide Listed, Bin2Age;
      ghost var was := bin0;
      bin0 := bin0 + 1;
      if bin0 > MAX_AGE {
        bin0 := 0;
      }
      assert forall b :: 0 <= b < BINS ==> Listed(bins[b], b);
      forall b: nat | b <= MAX_AGE
        ensures Bin2Age(bin0, b) == if Bin2Age(was, b) == MAX_AGE then 0 else Bin2Age(was, b) + 1
      {
        TickAges(was, b);
      }
    }

    // The flush takes exactly the LSAs whose age is MaxAge.
    method Flush(keep: Lsa -> bool)
      requires Valid()
      modifies heads, `bins, `maxAgeList, lsas
      ensures Valid() && AgeMap() == Survivors(old(AgeMap()))
      ensures forall l :: l in old(AgeMap()) && l !in AgeMap() ==> l.rcvage == MAX_AGE && l in maxAgeList
    {
      hide Listed, Bin2Age;
      MaxageLsas(keep);
    }

    // One second: all aging LSAs get a second older, and those that reach MaxAge are flushed.
    method Dbage(keep: Lsa -> bool)
      requires Valid() && NoneDue()
      modifies heads, `bin0, `bins, `maxAgeList, lsas
      ensures Valid() && NoneDue() && AgeMap() == Ticked(old(AgeMap()))
      ensures forall l :: l in old(AgeMap()) && l !in AgeMap() ==> l.rcvage == MAX_AGE && l in maxAgeList
    {
      hide Valid, AgeMap, NoneDue;
      ghost var ages := AgeMap();
      NoneDueIs();
      Advance();
      Flush(keep);
      OneSecond(ages);
      NoneDueIs();
    }

    lemma NoneDueIs()
      ensures NoneDue() <==> Young(AgeMap())
    {
      assert forall l :: l in AgeMap() <==> l in lsas && Ages(l);
    }

    lemma FirstInBin(b: nat)
      requires Valid() && b < BINS
      ensures heads[b] == First(bins[b])
    {
    }

    lemma NextInBin(b: nat, kept: seq<Lsa>, rem: seq<Lsa>)
      requires Valid() && b < BINS && bins[b] == kept + rem && rem != []
      ensures rem[0].fwd == First(rem[1..]) && rem[0] in lsas && rem[0].inBin && rem[0].bin == b && Distinct(kept + rem)
    {
      assert bins[b][|kept|] == rem[0];
    }
  }

  lemma CutAfter(kept: seq<Lsa>, rem: seq<Lsa>, k: nat)
    requires rem != [] && Distinct(kept + rem) && k < |kept + rem| && (kept + rem)[k] == rem[0]
    ensures Cut(kept + rem, k) == kept + rem[1..]
    ensures rem[0] !in rem[1..]
  {
    var q := kept + rem;
    assert q[|kept|] == rem[0];
    assert k == |kept|;
    assert forall j :: 0 <= j < |rem| ==> q[|kept| + j] == rem[j];
  }

  // The flush bin holds exactly what has reached MaxAge.
  lemma BinOfMaxAge(bin0: nat)
    requires bin0 <= MAX_AGE
    ensures forall b :: 0 <= b <= MAX_AGE ==> (Bin2Age(bin0, b) == MAX_AGE <==> b == Age2Bin(bin0, MAX_AGE))
  {
  }

  lemma LinkedDistinct(q: seq<Lsa>, head: Lsa?)
    requires Linked(q, head)
    ensures Distinct(q)
  {
  }
}
