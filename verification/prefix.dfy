// IP prefixes as the routing table compares them (rte.h). Masks are contiguous: a prefix is its network number
// and the number of zero bits at the end of its mask, and masking an address rounds it down.

module Prefixes {
  import opened Common

  const SPACE: nat := 0x1_0000_0000
  const LAST: nat := 0xffff_ffff

  datatype Prefix = Prefix(net: nat, zeros: nat)

  function Mask(p: Prefix): int {
    SPACE - Pow2(p.zeros)
  }

  // x & mask, for the mask that ends in this number of zeros.
  function And(x: nat, zeros: nat): nat {
    ModBelow(x, Pow2(zeros));
    x - x % Pow2(zeros)
  }

  lemma ModBelow(x: nat, s: nat)
    requires s > 0
    ensures x % s <= x
  {
  }

  predicate Normal(p: Prefix) {
    p.zeros <= 32 && p.net < SPACE && And(p.net, p.zeros) == p.net
  }

  // is_child: p lies within o.
  predicate IsChild(p: Prefix, o: Prefix) {
    And(p.net, o.zeros) == o.net && Mask(p) >= Mask(o)
  }

  predicate Matches(p: Prefix, addr: nat) {
    And(addr, p.zeros) == p.net
  }

  // The order of the table.
  predicate Less(p: Prefix, o: Prefix) {
    p.net < o.net || (p.net == o.net && Mask(p) < Mask(o))
  }

  // ---- Powers and rounding

  lemma {:induction false} PowOrder(i: nat, j: nat)
    ensures Pow2(i) < Pow2(j) <==> i < j
  {
    if i > 0 && j > 0 {
      PowOrder(i - 1, j - 1);
    }
  }

  lemma {:induction false} PowDivides(i: nat, j: nat) returns (m: nat)
    requires i <= j
    ensures Pow2(j) == m * Pow2(i) && m >= 1
    decreases j
  {
    if i == j {
      m := 1;
    } else {
      var n := PowDivides(i, j - 1);
      m := 2 * n;
      assert 2 * (n * Pow2(i)) == (2 * n) * Pow2(i);
    }
  }

  lemma {:induction false} Product(a: nat, b: nat, s: nat)
    ensures a < b ==> a * s + s <= b * s
    ensures a <= b ==> a * s <= b * s
    decreases b
  {
    if a < b {
      Product(a, b - 1, s);
      assert b * s == (b - 1) * s + s;
    }
  }

  lemma DivMod(x: nat, s: nat)
    requires s > 0
    ensures x == (x / s) * s + x % s && 0 <= x % s < s
  {
  }

  // The multiple of s below x.
  lemma RoundIs(x: nat, s: nat, q: nat)
    requires s > 0 && q * s <= x < q * s + s
    ensures x - x % s == q * s
  {
    DivMod(x, s);
    Product(x / s, q, s);
    Product(q, x / s, s);
  }

  lemma RoundFacts(x: nat, zeros: nat, s: nat) returns (q: nat)
    requires s == Pow2(zeros)
    ensures And(x, zeros) == q * s && q * s <= x < q * s + s
  {
    hide Pow2;
    q := x / s;
    DivMod(x, s);
  }

  lemma Associate(b: nat, m: nat, s: nat)
    ensures b * (m * s) == (b * m) * s
  {
  }

  // Rounding to a coarser grid swallows rounding to a finer one.
  lemma AndTwice(x: nat, i: nat, j: nat)
    requires i <= j
    ensures And(And(x, i), j) == And(x, j)
  {
    var s, t := Pow2(i), Pow2(j);
    var m := PowDivides(i, j);
    var a := RoundFacts(x, i, s);
    var b := RoundFacts(x, j, t);
    hide Pow2;
    Associate(b, m, s);
    Product(a, b * m, s);
    Product(b * m, a, s);
    RoundIs(a * s, t, b);
  }

  lemma AndBetween(x: nat, addr: nat, zeros: nat)
    requires And(addr, zeros) <= x <= addr
    ensures And(x, zeros) == And(addr, zeros)
  {
    var q := RoundFacts(addr, zeros, Pow2(zeros));
    RoundIs(x, Pow2(zeros), q);
  }

  // ---- Prefixes

  lemma MaskOrder(p: Prefix, o: Prefix)
    ensures Mask(p) >= Mask(o) <==> p.zeros <= o.zeros
    ensures Mask(p) == Mask(o) <==> p.zeros == o.zeros
  {
    PowOrder(o.zeros, p.zeros);
    PowOrder(p.zeros, o.zeros);
  }

  lemma LessTotal(p: Prefix, o: Prefix)
    ensures Less(p, o) || Less(o, p) || p == o
    ensures !(Less(p, o) && Less(o, p)) && !Less(p, p)
  {
    MaskOrder(p, o);
    MaskOrder(o, p);
  }

  lemma ChildTransitive(p: Prefix, o: Prefix, q: Prefix)
    requires IsChild(p, o) && IsChild(o, q)
    ensures IsChild(p, q)
  {
    MaskOrder(o, q);
    AndTwice(p.net, o.zeros, q.zeros);
  }

  lemma ChildOrder(p: Prefix, o: Prefix)
    requires IsChild(p, o)
    ensures p == o || Less(o, p)
  {
    MaskOrder(p, o);
  }

  // Two prefixes that hold a third are nested.
  lemma Nested(p: Prefix, o: Prefix, q: Prefix)
    requires IsChild(p, o) && IsChild(p, q) && Mask(o) >= Mask(q)
    ensures IsChild(o, q)
  {
    MaskOrder(o, q);
    AndTwice(p.net, o.zeros, q.zeros);
  }

  // What comes between a prefix and an address it holds lies within the prefix.
  lemma Between(o: Prefix, p: Prefix, addr: nat)
    requires Normal(o) && Normal(p) && Matches(o, addr) && p.net <= addr && (o == p || Less(o, p))
    ensures IsChild(p, o)
  {
    MaskOrder(p, o);
    MaskOrder(o, p);
    AndBetween(p.net, addr, o.zeros);
    if p.zeros > o.zeros {
      AndTwice(p.net, o.zeros, p.zeros);
      AndBetween(o.net, p.net, p.zeros);
    }
  }

  // And clears the last bits and keeps the others.
  function BitAt(x: nat, i: nat): nat {
    x / Pow2(i) % 2
  }

  lemma QuotientOf(x: nat, i: nat, s: nat)
    requires s == Pow2(i)
    ensures And(x, i) == (x / s) * s
  {
    hide Pow2;
    DivMod(x, s);
  }

  lemma QuotientIs(x: nat, s: nat, q: nat)
    requires s > 0 && x == q * s
    ensures x / s == q
  {
    DivMod(x, s);
    Product(x / s, q, s);
    Product(q, x / s, s);
  }

  lemma AndBits(x: nat, zeros: nat, i: nat)
    ensures BitAt(And(x, zeros), i) == if i < zeros then 0 else BitAt(x, i)
  {
    if i >= zeros {
      KeptBit(x, zeros, i, And(x, zeros), Pow2(i));
    } else {
      ClearedBit(x, zeros, i, And(x, zeros), Pow2(i));
    }
  }

  lemma KeptBit(x: nat, zeros: nat, i: nat, a: nat, s: nat)
    requires zeros <= i && a == And(x, zeros) && s == Pow2(i)
    ensures a / s == x / s
  {
    hide Pow2, And;
    AndTwice(x, zeros, i);
    QuotientOf(x, i, s);
    QuotientOf(a, i, s);
    QuotientIs((x / s) * s, s, x / s);
    QuotientIs((a / s) * s, s, a / s);
  }

  lemma ClearedBit(x: nat, zeros: nat, i: nat, a: nat, s: nat)
    requires i < zeros && a == And(x, zeros) && s == Pow2(i)
    ensures a / s % 2 == 0
  {
    assert Pow2(i + 1) == 2 * s;
    hide Pow2, And;
    var m := PowDivides(i + 1, zeros);
    var q := RoundFacts(x, zeros, Pow2(zeros));
    Associate(q, m, 2 * s);
    TwiceOut(q * m, s);
    QuotientIs(a, s, 2 * (q * m));
    Even(q * m);
  }

  lemma Even(n: nat)
    ensures 2 * n % 2 == 0
  {
  }

  lemma TwiceOut(n: nat, s: nat)
    ensures n * (2 * s) == (2 * n) * s
  {
  }
}
