// The LSA checksum (cksum.C; section 12.1.7 of RFC 2328): Fletcher's sums in blocks, in 32-bit signed integers.

module Fletcher {

  newtype int32 = x: int | -0x8000_0000 <= x < 0x8000_0000

  type Byte = n: nat | n < 256

  const MODX: nat := 4102
  const INT_MAX: int := 0x7fff_ffff

  // ---- The sums, unreduced

  function Sum0(m: seq<Byte>): nat {
    if m == [] then 0 else Sum0(m[..|m| - 1]) + m[|m| - 1]
  }

  // The sum of the sums of all prefixes.
  function Sum1(m: seq<Byte>): nat {
    if m == [] then 0 else Sum1(m[..|m| - 1]) + Sum0(m)
  }

  predicate Congruent(a: int, b: int) {
    (a - b) % 255 == 0
  }

  // What a receiver accepts.
  predicate Verified(m: seq<Byte>) {
    Congruent(Sum0(m), 0) && Congruent(Sum1(m), 0)
  }

  lemma Scale(k: int, a: int, b: int)
    requires Congruent(a, b)
    ensures Congruent(k * a, k * b)
  {
    var q := (a - b) / 255;
    Factor(k, a, b, q);
    assert 255 * (k * q) % 255 == 0;
  }

  lemma Factor(k: int, a: int, b: int, q: int)
    requires a - b == 255 * q
    ensures k * a - k * b == 255 * (k * q)
  {
    assert k * a - k * b == k * (a - b) == k * (255 * q);
  }

  lemma Spread(k: int, a: int, b: int)
    requires Congruent(a, b)
    ensures k * (a - b) % 255 == 0
  {
    Scale(k, a, b);
    assert k * a - k * b == k * (a - b);
  }

  lemma Distances(n: int, i: int, j: int, x: int, y: int)
    ensures (n - i) * (y - x) + (n - j) * (x - y) == (j - i) * y - (j - i) * x
  {
  }

  // A byte counts in Sum1 once for each prefix it is in.
  lemma {:induction false} Change(m: seq<Byte>, i: nat, v: Byte)
    requires i < |m|
    ensures Sum0(m[i := v]) == Sum0(m) - m[i] + v
    ensures Sum1(m[i := v]) == Sum1(m) + (|m| - i) * (v - m[i])
  {
    var n, m' := |m|, m[i := v];
    if i < n - 1 {
      assert m'[..n - 1] == m[..n - 1][i := v];
      Change(m[..n - 1], i, v);
      assert (n - 1 - i) * (v - m[i]) + (v - m[i]) == (n - i) * (v - m[i]);
    } else {
      assert m'[..n - 1] == m[..n - 1];
      assert (n - i) * (v - m[i]) == v - m[i];
    }
  }

  // ---- What the checksum detects

  // One changed byte is detected unless the new value is congruent to the old one: only 0 and 255 are confused.
  lemma OneByte(m: seq<Byte>, i: nat, v: Byte)
    requires i < |m| && Verified(m)
    ensures Verified(m[i := v]) <==> Congruent(v, m[i])
  {
    hide Sum0, Sum1;
    Change(m, i, v);
    Shifted(Sum0(m), v - m[i]);
    if Congruent(v, m[i]) {
      Spread(|m| - i, v, m[i]);
      Shifted(Sum1(m), (|m| - i) * (v - m[i]));
    }
  }

  lemma Shifted(a: int, d: int)
    requires a % 255 == 0
    ensures (a + d) % 255 == 0 <==> d % 255 == 0
  {
  }

  // Two exchanged bytes are detected unless their distance times their difference is a multiple of 255.
  lemma Exchange(m: seq<Byte>, i: nat, j: nat)
    requires i < j < |m| && Verified(m)
    ensures Verified(m[i := m[j]][j := m[i]]) <==> Congruent((j - i) * m[j], (j - i) * m[i])
  {
    hide Sum0, Sum1;
    Change(m, i, m[j]);
    Change(m[i := m[j]], j, m[i]);
    Distances(|m|, i, j, m[i], m[j]);
    Shifted(Sum1(m), (j - i) * m[j] - (j - i) * m[i]);
  }

  // ---- Blocks

  // c1 after n bytes of 255, from c0 = c1 = 254, the largest values between blocks.
  function Peak(n: nat): int {
    254 + 254 * n + 255 * (n * (n + 1) / 2)
  }

  // The accumulators after a block, started at c0 and c1.
  function Run0(c0: int, b: seq<Byte>): int {
    c0 + Sum0(b)
  }

  function Run1(c0: int, c1: int, b: seq<Byte>): int {
    c1 + |b| * c0 + Sum1(b)
  }

  lemma Triangle(n: nat)
    ensures (n + 1) * (n + 2) / 2 == n * (n + 1) / 2 + n + 1
  {
    assert (n + 1) * (n + 2) == n * (n + 1) + 2 * (n + 1);
  }

  lemma {:induction false} SumBounds(b: seq<Byte>)
    ensures Sum0(b) <= 255 * |b| && Sum1(b) <= 255 * (|b| * (|b| + 1) / 2)
  {
    if b != [] {
      SumBounds(b[..|b| - 1]);
      Triangle(|b| - 1);
    }
  }

  function AllOnes(n: nat): (b: seq<Byte>)
    ensures |b| == n && forall i :: 0 <= i < n ==> b[i] == 255
  {
    seq(n, _ => 255)
  }

  lemma {:induction false} OnesSums(n: nat, b: seq<Byte>)
    requires b == AllOnes(n)
    ensures Sum0(b) == 255 * n && Sum1(b) == 255 * (n * (n + 1) / 2)
  {
    if n > 0 {
      assert b[..n - 1] == AllOnes(n - 1);
      OnesSums(n - 1, b[..n - 1]);
      Triangle(n - 1);
    }
  }

  lemma {:induction false} PeakGrows(n: nat, k: nat)
    requires n <= k
    ensures Peak(n) <= Peak(k)
    decreases k
  {
    if n < k {
      PeakGrows(n, k - 1);
      Triangle(k - 1);
    }
  }

  lemma RunBelowPeak(c0: int, c1: int, b: seq<Byte>)
    requires 0 <= c0 <= 254 && 0 <= c1 <= 254
    ensures 0 <= Run0(c0, b) && 0 <= Run1(c0, c1, b) <= Peak(|b|)
  {
    SumBounds(b);
    assert 0 <= |b| * c0 <= |b| * 254;
  }

  // MODX is the largest size of a block for which c1 fits.
  lemma LargestBlock(size: nat)
    ensures size <= MODX <==>
            forall c0: int, c1: int, b: seq<Byte> :: 0 <= c0 <= 254 && 0 <= c1 <= 254 && |b| <= size ==>
                Run1(c0, c1, b) <= INT_MAX
  {
    if size <= MODX {
      forall c0: int, c1: int, b: seq<Byte> | 0 <= c0 <= 254 && 0 <= c1 <= 254 && |b| <= size
        ensures Run1(c0, c1, b) <= INT_MAX
      {
        RunBelowPeak(c0, c1, b);
        PeakGrows(|b|, MODX);
        assert Peak(MODX) <= INT_MAX;
      }
    } else {
      var b := AllOnes(MODX + 1);
      OnesSums(MODX + 1, b);
      assert Run1(254, 254, b) == Peak(MODX + 1) > INT_MAX;
    }
  }

  lemma {:induction false} Append(a: seq<Byte>, b: seq<Byte>)
    ensures Sum0(a + b) == Sum0(a) + Sum0(b) && Sum1(a + b) == Sum1(a) + |b| * Sum0(a) + Sum1(b)
    decreases |b|
  {
    if b == [] {
      assert a + b == a;
    } else {
      var n := |b| - 1;
      assert (a + b)[..|a| + n] == a + b[..n];
      Append(a, b[..n]);
      assert n * Sum0(a) + Sum0(a) == (n + 1) * Sum0(a);
    }
  }

  // A block keeps the accumulators congruent to the sums.
  lemma BlockKeeps(a: seq<Byte>, b: seq<Byte>, c0: int, c1: int)
    requires Congruent(Sum0(a), c0) && Congruent(Sum1(a), c1)
    ensures Congruent(Sum0(a + b), Run0(c0, b)) && Congruent(Sum1(a + b), Run1(c0, c1, b))
  {
    hide Sum0, Sum1;
    Append(a, b);
    Scale(|b|, Sum0(a), c0);
  }

  lemma NextRun(c0: int, c1: int, b: seq<Byte>, x: Byte)
    requires 0 <= c0 <= 254 && 0 <= c1 <= 254 && |b| < MODX
    ensures Run0(c0, b + [x]) == Run0(c0, b) + x && Run1(c0, c1, b + [x]) == Run1(c0, c1, b) + Run0(c0, b + [x])
    ensures 0 <= Run0(c0, b + [x]) <= INT_MAX && 0 <= Run1(c0, c1, b + [x]) <= INT_MAX
  {
    assert (b + [x])[..|b|] == b;
    assert (|b| + 1) * c0 == |b| * c0 + c0;
    RunBelowPeak(c0, c1, b + [x]);
    SumBounds(b + [x]);
    LargestBlock(MODX);
  }

  // ---- Placing the checksum

  // Division in C truncates toward zero.
  function CMod(a: int, b: nat): int
    requires b > 0
  {
    if a >= 0 then a % b else -((-a) % b)
  }

  // The two bytes at p, p + 1 that make both sums multiples of 255.
  lemma Placed(m: seq<Byte>, p: nat, c0: int, c1: int, iq: Byte, ir: Byte)
    requires p + 1 < |m| && m[p] == 0 && m[p + 1] == 0
    requires Congruent(Sum0(m), c0) && Congruent(Sum1(m), c1)
    requires Congruent(iq, (|m| - (p + 1)) * c0 - c1) && Congruent(ir, -c0 - iq)
    ensures Verified(m[p := iq][p + 1 := ir])
  {
    hide Sum0, Sum1;
    Change(m, p, iq);
    Change(m[p := iq], p + 1, ir);
    var k := |m| - (p + 1);
    var rest: int := -c0 - iq;
    Scale(k, ir, rest);
    Weights(k, c0, iq);
    Balance(Sum0(m), Sum1(m), c0, c1, iq, ir, k * iq, k * ir, k * c0);
  }

  lemma Weights(k: int, c0: int, iq: int)
    ensures (k + 1) * iq == k * iq + iq && k * (-c0 - iq) == -(k * c0) - k * iq
  {
  }

  lemma Balance(s0: int, s1: int, c0: int, c1: int, iq: int, ir: int, kiq: int, kir: int, kc0: int)
    requires Congruent(s0, c0) && Congruent(s1, c1) && Congruent(iq, kc0 - c1) && Congruent(ir, -c0 - iq)
    requires Congruent(kir, -kc0 - kiq)
    ensures Congruent(s0 + iq + ir, 0) && Congruent(s1 + (kiq + iq) + kir, 0)
  {
  }

  // ---- The program

  // The checksum of the n bytes from base on; with an offset, it is also put into the message there.
  method Fletcher(a: array<Byte>, base: nat, n: nat, offset: nat) returns (cksum: nat, ghost x: Byte, ghost y: Byte)
    requires base + n <= a.Length && n <= 0xffff && (offset > 0 ==> offset < n)
    modifies a
    ensures offset == 0 ==> a[..] == old(a[..]) && (cksum == 0 <==> Verified(a[base..base + n]))
    ensures offset > 0 ==> Verified(a[base..base + n])
    ensures offset > 0 ==> a[..] == old(a[..])[base + offset - 1 := x][base + offset := y]
  {
    hide Sum0, Sum1, Congruent;
    x, y := 0, 0;
    if offset > 0 {
      a[base + offset - 1] := 0;
      a[base + offset] := 0;
    }
    ghost var m: seq<Byte> := a[base..base + n];
    var c0: int32, c1: int32;
    c0, c1 := Accumulate(a, base, n, m);
    cksum := c1 as nat * 256 + c0 as nat;
    SmallZero(Sum0(m), c0 as int, Sum1(m), c1 as int);
    if offset > 0 {
      var iq: Byte, ir: Byte := CheckBytes(n, offset, c0, c1);
      Placed(m, offset - 1, c0 as int, c1 as int, iq, ir);
      a[base + offset - 1] := iq;
      a[base + offset] := ir;
      x, y := iq, ir;
      assert a[base..base + n] == m[offset - 1 := x][offset := y];
      assert a[..] == old(a[..])[base + offset - 1 := x][base + offset := y];
    }
  }

  lemma SmallZero(s0: int, c0: int, s1: int, c1: int)
    requires Congruent(s0, c0) && Congruent(s1, c1) && 0 <= c0 <= 254 && 0 <= c1 <= 254
    ensures c1 * 256 + c0 == 0 <==> Congruent(s0, 0) && Congruent(s1, 0)
  {
  }

  // The sums in blocks of MODX, reduced after each block. No intermediate value leaves the 32-bit integers.
  method Accumulate(a: array<Byte>, base: nat, n: nat, ghost m: seq<Byte>) returns (c0: int32, c1: int32)
    requires base + n <= a.Length && m == a[base..base + n]
    ensures 0 <= c0 <= 254 && 0 <= c1 <= 254 && Congruent(Sum0(m), c0 as int) && Congruent(Sum1(m), c1 as int)
  {
    hide Sum0, Sum1, Congruent, Peak;
    c0, c1 := 0, 0;
    NoBytes();
    var ptr := 0;
    while ptr < n
      invariant 0 <= ptr <= n && 0 <= c0 <= 254 && 0 <= c1 <= 254
      invariant Congruent(Sum0(m[..ptr]), c0 as int) && Congruent(Sum1(m[..ptr]), c1 as int)
    {
      var stop := ptr + MODX;
      if stop > n {
        stop := n;
      }
      ghost var start, s0, s1 := ptr, c0 as int, c1 as int;
      EmptyRun(s0, s1);
      assert m[start..start] == [];
      while ptr < stop
        invariant start <= ptr <= stop
        invariant c0 as int == Run0(s0, m[start..ptr]) && c1 as int == Run1(s0, s1, m[start..ptr]) && c0 >= 0 && c1 >= 0
      {
        assert m[start..ptr + 1] == m[start..ptr] + [m[ptr]];
        NextRun(s0, s1, m[start..ptr], m[ptr]);
        c0 := c0 + a[base + ptr] as int32;
        c1 := c1 + c0;
        ptr := ptr + 1;
      }
      BlockKeeps(m[..start], m[start..stop], s0, s1);
      assert m[..stop] == m[..start] + m[start..stop];
      Reduced(Sum0(m[..stop]), c0 as int);
      Reduced(Sum1(m[..stop]), c1 as int);
      c0 := c0 % 255;
      c1 := c1 % 255;
    }
    assert m[..n] == m;
  }

  lemma NoBytes()
    ensures forall m: seq<Byte> :: Congruent(Sum0(m[..0]), 0) && Congruent(Sum1(m[..0]), 0)
  {
    assert forall m: seq<Byte> :: m[..0] == [];
  }

  lemma EmptyRun(c0: int, c1: int)
    ensures Run0(c0, []) == c0 && Run1(c0, c1, []) == c1
  {
  }

  lemma Reduced(s: int, c: int)
    requires Congruent(s, c)
    ensures Congruent(s, c % 255)
  {
  }

  method CheckBytes(n: nat, offset: nat, c0: int32, c1: int32) returns (x: Byte, y: Byte)
    requires 0 < offset < n <= 0xffff && 0 <= c0 <= 254 && 0 <= c1 <= 254
    ensures x > 0 && y > 0
    ensures Congruent(x, (n - offset) * (c0 as int) - (c1 as int)) && Congruent(y, -(c0 as int) - x)
  {
    hide Congruent, CMod;
    ghost var k := (n - offset) * (c0 as int);
    ProductFits(n - offset, c0 as int);
    var t := (n - offset) as int32 * c0 - c1;
    FirstByte(k, c1 as int);
    var iq := CMod(t as int, 255) as int32;
    if iq <= 0 {
      iq := iq + 255;
    }
    var ir := 510 - c0 - iq;
    SecondByte(c0 as int, iq as int);
    if ir > 255 {
      ir := ir - 255;
    }
    return iq as Byte, ir as Byte;
  }

  lemma {:induction false} ProductFits(k: nat, c: int)
    requires 0 <= c <= 254
    ensures 0 <= k * c <= 254 * k
  {
    if k > 0 {
      ProductFits(k - 1, c);
      assert k * c == (k - 1) * c + c;
    }
  }

  lemma FirstByte(k: int, c1: int)
    ensures var r := CMod(k - c1, 255); -255 < r < 255 && Congruent(if r <= 0 then r + 255 else r, k - c1)
  {
  }

  lemma SecondByte(c0: int, iq: int)
    requires 0 <= c0 <= 254 && 1 <= iq <= 255
    ensures var r := 510 - c0 - iq; 1 <= r <= 509 && Congruent(if r > 255 then r - 255 else r, -c0 - iq)
  {
  }

  // ---- LSAs: all bytes but the two of the age, the checksum in bytes 16 and 17, the length in bytes 18 and 19

  function LsLength(lsa: seq<Byte>): nat
    requires |lsa| >= 20
  {
    lsa[18] as int * 256 + lsa[19] as int
  }

  predicate WellFormed(lsa: seq<Byte>) {
    |lsa| >= 20 && 20 <= LsLength(lsa) <= |lsa|
  }

  ghost predicate Good(lsa: seq<Byte>)
    requires WellFormed(lsa)
  {
    Verified(lsa[2..LsLength(lsa)])
  }

  method VerifyCksum(lsa: array<Byte>) returns (ok: bool)
    requires WellFormed(lsa[..])
    modifies lsa
    ensures lsa[..] == old(lsa[..]) && (ok <==> Good(lsa[..]))
  {
    hide Verified;
    var len := lsa[18] as int * 256 + lsa[19] as int;
    var cksum, x, y := Fletcher(lsa, 2, len - 2, 0);
    assert lsa[..][2..len] == lsa[2..len];
    return cksum == 0;
  }

  method GenerateCksum(lsa: array<Byte>) returns (ghost x: Byte, ghost y: Byte)
    requires WellFormed(lsa[..])
    modifies lsa
    ensures WellFormed(lsa[..]) && Good(lsa[..]) && lsa[..] == old(lsa[..])[16 := x][17 := y]
  {
    hide Verified;
    var len := lsa[18] as int * 256 + lsa[19] as int;
    var cksum;
    cksum, x, y := Fletcher(lsa, 2, len - 2, 15);
    assert lsa[..][2..len] == lsa[2..len];
  }

  // Routers may change the age of an LSA as they pass it on.
  lemma AgeIsFree(lsa: seq<Byte>, x: Byte, y: Byte)
    requires WellFormed(lsa)
    ensures WellFormed(lsa[0 := x][1 := y]) && (Good(lsa[0 := x][1 := y]) <==> Good(lsa))
  {
    assert lsa[0 := x][1 := y][2..] == lsa[2..];
    var n := LsLength(lsa);
    assert lsa[0 := x][1 := y][2..n] == lsa[2..n];
  }
}
