// LSA instances, and which of two is more recent (LSA::cmp_instance in spflood.C).

module Instances {
  import opened Common

  const MAX_LS_SEQ := 0x7fff_ffff

  type Router = nat
  type Key = nat

  datatype Inst = Inst(seqno: int, xsum: nat)

  predicate Newer(a: Inst, b: Inst) {
    a.seqno > b.seqno || (a.seqno == b.seqno && a.xsum > b.xsum)
  }

  // The 15 low bits of an age field, at most MaxAge.
  function AgeOf(field: nat): nat {
    var age := field % DO_NOT_AGE;
    if age > MAX_AGE then MAX_AGE else age
  }

  // LSA::cmp_instance: 1 when the received instance is more recent than the database copy.
  function CmpInstance(db: Inst, dbAge: nat, rcvd: Inst, rcvdAge: nat): int {
    var r, d := AgeOf(rcvdAge), AgeOf(dbAge);
    if rcvd.seqno > db.seqno then 1
    else if rcvd.seqno < db.seqno then -1
    else if rcvd.xsum > db.xsum then 1
    else if rcvd.xsum < db.xsum then -1
    else if r == MAX_AGE && d != MAX_AGE then 1
    else if r != MAX_AGE && d == MAX_AGE then -1
    else if r + MAX_AGE_DIFF < d then 1
    else if r > d + MAX_AGE_DIFF then -1
    else 0
  }

  // Swapping the sides swaps the answer.
  lemma CmpInstanceSwaps(a: Inst, ageA: nat, b: Inst, ageB: nat)
    ensures CmpInstance(a, ageA, b, ageB) == -CmpInstance(b, ageB, a, ageA)
  {
  }

  // One age wins over another: MaxAge over any younger, so that a flush gets through; else the one that is younger by
  // more than MaxAgeDiff.
  predicate AgeWins(age: nat, other: nat) {
    if age == MAX_AGE || other == MAX_AGE then age > other else other - age > MAX_AGE_DIFF
  }

  // The received instance wins exactly if its sequence number and checksum do, or both are equal and its age does;
  // the database copy wins likewise.
  lemma WhichWins(db: Inst, dbAge: nat, rcvd: Inst, rcvdAge: nat)
    ensures CmpInstance(db, dbAge, rcvd, rcvdAge) == 1 <==>
            Newer(rcvd, db) || (rcvd == db && AgeWins(AgeOf(rcvdAge), AgeOf(dbAge)))
    ensures CmpInstance(db, dbAge, rcvd, rcvdAge) == -1 <==>
            Newer(db, rcvd) || (rcvd == db && AgeWins(AgeOf(dbAge), AgeOf(rcvdAge)))
    ensures -1 <= CmpInstance(db, dbAge, rcvd, rcvdAge) <= 1
  {
  }

  // A flush wins over every younger copy of the same instance.
  lemma FlushWins(i: Inst, dbAge: nat, rcvdAge: nat)
    requires AgeOf(rcvdAge) == MAX_AGE && AgeOf(dbAge) < MAX_AGE
    ensures CmpInstance(i, dbAge, i, rcvdAge) == 1
  {
  }

  // "The same instance" is not transitive: ages 900 apart count as the same, ages 1800 apart do not.
  lemma SameInstanceIsNotTransitive()
    ensures var i := Inst(1, 7);
            CmpInstance(i, 0, i, 900) == 0 && CmpInstance(i, 900, i, 1800) == 0 && CmpInstance(i, 0, i, 1800) == -1
  {
  }

  // Sequence number and checksum alone decide exactly when the ages do not: when the instances differ
  // in one of those, or the ages are both MaxAge, or neither is and they are at most MaxAgeDiff apart.
  lemma OrderDecides(db: Inst, dbAge: nat, rcvd: Inst, rcvdAge: nat)
    ensures CmpInstance(db, dbAge, rcvd, rcvdAge) == (if Newer(rcvd, db) then 1 else if Newer(db, rcvd) then -1 else 0)
       <==> db != rcvd || ((AgeOf(dbAge) == MAX_AGE <==> AgeOf(rcvdAge) == MAX_AGE)
                           && AgeOf(dbAge) <= AgeOf(rcvdAge) + MAX_AGE_DIFF
                           && AgeOf(rcvdAge) <= AgeOf(dbAge) + MAX_AGE_DIFF)
  {
  }
}
