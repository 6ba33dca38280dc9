// The Patricia tree (pat.C, pat.h) with keys of one length, and what becomes of it with keys of several.

module Patricia {
  import opened Common

  const MAX_BIT: nat := 0xffff_ffff

  // ---- Keys, bit by bit

  function Mask(j: nat): bv8
    requires j < 8
  {
    match j
    case 0 => 0x80
    case 1 => 0x40
    case 2 => 0x20
    case 3 => 0x10
    case 4 => 0x08
    case 5 => 0x04
    case 6 => 0x02
    case 7 => 0x01
  }

  // The bits of the key, then those of its length in bits, then zeros. (The sentinel tests bit MAX_BIT; both
  // outcomes lead to the sentinel.)
  predicate BitCheck(str: seq<bv8>, bit: nat) {
    var bitlen := 8 * |str|;
    if bit < bitlen then (str[bit / 8] & Mask(bit % 8)) != 0
    else if bit < bitlen + 32 then bitlen / Pow2(bit - bitlen) % 2 == 1
    else false
  }

  lemma ByteBits(a: bv8, b: bv8)
    requires forall j :: 0 <= j < 8 ==> ((a & Mask(j)) != 0) == ((b & Mask(j)) != 0)
    ensures a == b
  {
    assert Mask(0) == 0x80 && Mask(1) == 0x40 && Mask(2) == 0x20 && Mask(3) == 0x10;
    assert Mask(4) == 0x08 && Mask(5) == 0x04 && Mask(6) == 0x02 && Mask(7) == 0x01;
    assert forall j :: 0 <= j < 8 ==> (a & Mask(j)) == (b & Mask(j)) || ((a & Mask(j)) != 0 && (b & Mask(j)) != 0);
    assert (a & 0x80 != 0) == (b & 0x80 != 0) && (a & 0x40 != 0) == (b & 0x40 != 0);
    assert (a & 0x20 != 0) == (b & 0x20 != 0) && (a & 0x10 != 0) == (b & 0x10 != 0);
    assert (a & 0x08 != 0) == (b & 0x08 != 0) && (a & 0x04 != 0) == (b & 0x04 != 0);
    assert (a & 0x02 != 0) == (b & 0x02 != 0) && (a & 0x01 != 0) == (b & 0x01 != 0);
  }

  // Keys of one length with the same bits are the same.
  lemma SameBits(a: seq<bv8>, b: seq<bv8>)
    requires |a| == |b| && forall i :: 0 <= i < 8 * |a| ==> BitCheck(a, i) == BitCheck(b, i)
    ensures a == b
  {
    forall n | 0 <= n < |a|
      ensures a[n] == b[n]
    {
      forall j | 0 <= j < 8
        ensures ((a[n] & Mask(j)) != 0) == ((b[n] & Mask(j)) != 0)
      {
        assert BitCheck(a, 8 * n + j) == BitCheck(b, 8 * n + j);
      }
      ByteBits(a[n], b[n]);
    }
  }

  // The first length bit is zero.
  lemma LengthBit(a: seq<bv8>)
    ensures !BitCheck(a, 8 * |a|)
  {
  }

  class PatEntry {
    const key: seq<bv8>
    var zeroptr: PatEntry?
    var oneptr: PatEntry?
    var chkbit: nat

    constructor (key: seq<bv8>)
      ensures this.key == key
    {
      this.key, zeroptr, oneptr, chkbit := key, null, null, 0;
    }
  }

  // ---- The tree that the cyclic links stand for: every entry is a leaf, and all but the sentinel also
  // host one node, which lies on the way to their leaf

  datatype Trie = Leaf(e: PatEntry) | Node(host: PatEntry, bit: nat, zero: Trie, one: Trie)

  function Ptr(t: Trie): PatEntry {
    if t.Leaf? then t.e else t.host
  }

  ghost function Leaves(t: Trie): set<PatEntry> {
    match t
    case Leaf(e) => {e}
    case Node(_, _, z, o) => Leaves(z) + Leaves(o)
  }

  ghost function Hosts(t: Trie): set<PatEntry> {
    match t
    case Leaf(_) => {}
    case Node(h, _, z, o) => {h} + Hosts(z) + Hosts(o)
  }

  // The bits by which the trie tells entries apart: the sentinel counts as the key of zeros, followed by a
  // one where other keys have their first length bit.
  ghost predicate Bit(nil: PatEntry, n: nat, e: PatEntry, i: nat) {
    if e == nil then i == n else BitCheck(e.key, i)
  }

  ghost predicate AllBits(nil: PatEntry, n: nat, t: Trie, i: nat, b: bool) {
    forall e :: e in Leaves(t) ==> Bit(nil, n, e, i) == b
  }

  // All entries of t have the same bits below position i.
  ghost predicate Agree(nil: PatEntry, n: nat, t: Trie, i: nat) {
    forall j, d, e :: 0 <= j < i && d in Leaves(t) && e in Leaves(t) ==> Bit(nil, n, d, j) == Bit(nil, n, e, j)
  }

  // t tests no bit before i.
  predicate From(t: Trie, i: nat) {
    t.Node? ==> i <= t.bit
  }

  // Bits are tested in increasing order, and split the entries.
  ghost predicate Ordered(nil: PatEntry, n: nat, t: Trie) {
    match t
    case Leaf(_) => true
    case Node(h, b, z, o) =>
      && b <= n && From(z, b + 1) && From(o, b + 1) && Agree(nil, n, t, b)
      && AllBits(nil, n, z, b, false) && AllBits(nil, n, o, b, true)
      && Ordered(nil, n, z) && Ordered(nil, n, o)
  }

  // Every node has its own host, whose leaf is below it.
  ghost predicate Hosted(t: Trie) {
    match t
    case Leaf(_) => true
    case Node(h, _, z, o) =>
      && h in Leaves(t) && h !in Hosts(z) && h !in Hosts(o) && Hosts(z) !! Hosts(o)
      && Hosted(z) && Hosted(o)
  }

  datatype Fields = Fields(chkbit: nat, zeroptr: PatEntry, oneptr: PatEntry)

  ghost function Shadow(t: Trie): (m: map<PatEntry, Fields>)
    ensures m.Keys == Hosts(t)
  {
    match t
    case Leaf(_) => map[]
    case Node(h, b, z, o) => Shadow(z) + Shadow(o) + map[h := Fields(b, Ptr(z), Ptr(o))]
  }

  ghost predicate Holds(h: PatEntry, f: Fields)
    reads h
  {
    h.chkbit == f.chkbit && h.zeroptr == f.zeroptr && h.oneptr == f.oneptr
  }

  ghost predicate Repr(m: map<PatEntry, Fields>)
    reads m.Keys
  {
    forall h :: h in m ==> Holds(h, m[h])
  }

  // ---- Searching

  function Child(t: Trie, k: seq<bv8>): Trie
    requires t.Node?
  {
    if BitCheck(k, t.bit) then t.one else t.zero
  }

  function Lookup(t: Trie, k: seq<bv8>): PatEntry {
    if t.Leaf? then t.e else Lookup(Child(t, k), k)
  }

  lemma {:induction false} LookupIn(t: Trie, k: seq<bv8>)
    ensures Lookup(t, k) in Leaves(t)
  {
    if t.Node? {
      LookupIn(Child(t, k), k);
    }
  }

  // The search ends at the entry with this key, if there is one.
  lemma {:induction false} LookupFinds(nil: PatEntry, n: nat, t: Trie, k: seq<bv8>, e: PatEntry)
    requires Ordered(nil, n, t) && e in Leaves(t) && e != nil && e.key == k
    ensures Lookup(t, k) == e
  {
    if t.Node? {
      assert e in Leaves(t.zero) ==> !Bit(nil, n, e, t.bit);
      LookupFinds(nil, n, Child(t, k), k, e);
    }
  }

  lemma {:induction false} HostsAreLeaves(t: Trie)
    requires Hosted(t)
    ensures Hosts(t) <= Leaves(t)
  {
    if t.Node? {
      HostsAreLeaves(t.zero);
      HostsAreLeaves(t.one);
    }
  }

  lemma SidesApart(nil: PatEntry, n: nat, t: Trie)
    requires t.Node? && Ordered(nil, n, t)
    ensures Leaves(t.zero) !! Leaves(t.one)
  {
    forall e | e in Leaves(t.zero)
      ensures e !in Leaves(t.one)
    {
      assert !Bit(nil, n, e, t.bit);
    }
  }

  // Every leaf of s but the sentinel is hosted in s, or above it, where bits before i are tested.
  ghost predicate Placed(nil: PatEntry, s: Trie, i: nat)
    reads Leaves(s)
  {
    forall e :: e in Leaves(s) ==> e == nil || e in Hosts(s) || e.chkbit < i
  }

  // The part of the tree below a node reached by a search.
  ghost predicate Within(nil: PatEntry, n: nat, m: map<PatEntry, Fields>, s: Trie)
    reads Leaves(s)
  {
    && (forall h :: h in Hosts(s) ==> h in m && m[h] == Shadow(s)[h])
    && nil !in Hosts(s) && Hosted(s)
    && Ordered(nil, n, s) && (s.Node? ==> Placed(nil, s, s.bit))
  }

  // One step down: the pointer leads to a node that tests a later bit, to the sentinel, or up, to the
  // host of a node on the way.
  lemma StepDown(nil: PatEntry, n: nat, m: map<PatEntry, Fields>, s: Trie, k: seq<bv8>, c: Trie)
    requires Within(nil, n, m, s) && s.Node? && Repr(m) && c == Child(s, k)
    ensures Within(nil, n, m, c) && Lookup(c, k) == Lookup(s, k)
    ensures Ptr(c) == if BitCheck(k, s.bit) then s.host.oneptr else s.host.zeroptr
    ensures s.host.chkbit == s.bit
    ensures c.Node? ==> c.bit > s.bit && c.host.chkbit == c.bit
    ensures c.Leaf? && c.e != nil ==> c.e.chkbit <= s.bit
  {
    assert Holds(s.host, m[s.host]);
    StepShadow(nil, n, m, s, k, c);
    StepPlaced(nil, n, m, s, k, c);
    if c.Node? {
      assert Holds(c.host, m[c.host]);
    }
  }

  lemma StepShadow(nil: PatEntry, n: nat, m: map<PatEntry, Fields>, s: Trie, k: seq<bv8>, c: Trie)
    requires Within(nil, n, m, s) && s.Node? && c == Child(s, k)
    ensures forall h :: h in Hosts(c) ==> h in m && m[h] == Shadow(c)[h]
  {
    forall h | h in Hosts(c)
      ensures h in m && m[h] == Shadow(c)[h]
    {
      assert h in Hosts(s) && Shadow(s)[h] == Shadow(c)[h];
    }
  }

  lemma StepPlaced(nil: PatEntry, n: nat, m: map<PatEntry, Fields>, s: Trie, k: seq<bv8>, c: Trie)
    requires Within(nil, n, m, s) && s.Node? && c == Child(s, k) && s.host.chkbit == s.bit
    ensures Placed(nil, c, s.bit + 1)
  {
    SidesApart(nil, n, s);
    HostsAreLeaves(s.zero);
    HostsAreLeaves(s.one);
    forall e | e in Leaves(c)
      ensures e == nil || e in Hosts(c) || e.chkbit < s.bit + 1
    {
      assert e in Leaves(s);
    }
  }

  // ---- Adding an entry

  // A node for x above t, testing bit i.
  function NewNode(t: Trie, x: PatEntry, i: nat): Trie {
    if BitCheck(x.key, i) then Node(x, i, t, Leaf(x)) else Node(x, i, Leaf(x), t)
  }

  // x enters on the way its key takes, above the first node that tests a later bit than i.
  function Place(t: Trie, x: PatEntry, i: nat): Trie {
    if t.Leaf? || t.bit >= i then NewNode(t, x, i)
    else if BitCheck(x.key, t.bit) then t.(one := Place(t.one, x, i))
    else t.(zero := Place(t.zero, x, i))
  }

  // x differs from e at bit i first.
  ghost predicate DiffersAt(nil: PatEntry, n: nat, x: PatEntry, e: PatEntry, i: nat) {
    && x != nil && i <= n && Bit(nil, n, x, i) != Bit(nil, n, e, i)
    && forall j :: 0 <= j < i ==> Bit(nil, n, x, j) == Bit(nil, n, e, j)
  }

  lemma {:induction false} PlaceLeaves(t: Trie, x: PatEntry, i: nat)
    ensures Leaves(Place(t, x, i)) == Leaves(t) + {x} && Hosts(Place(t, x, i)) == Hosts(t) + {x}
  {
    if !(t.Leaf? || t.bit >= i) {
      PlaceLeaves(t.zero, x, i);
      PlaceLeaves(t.one, x, i);
    }
  }

  lemma NewNodeOrdered(nil: PatEntry, n: nat, t: Trie, x: PatEntry, i: nat, e: PatEntry)
    requires Ordered(nil, n, t) && (t.Leaf? || t.bit >= i) && e == Lookup(t, x.key) && DiffersAt(nil, n, x, e, i)
    ensures Ordered(nil, n, NewNode(t, x, i))
  {
    LookupIn(t, x.key);
    if t.Node? {
      LookupIn(Child(t, x.key), x.key);
      assert Bit(nil, n, e, t.bit) == BitCheck(x.key, t.bit);
    }
    assert forall d :: d in Leaves(t) ==> Bit(nil, n, d, i) == Bit(nil, n, e, i);
    assert forall d, j :: d in Leaves(t) && 0 <= j < i ==> Bit(nil, n, d, j) == Bit(nil, n, e, j);
  }

  lemma {:induction false} PlaceOrdered(nil: PatEntry, n: nat, t: Trie, x: PatEntry, i: nat, e: PatEntry)
    requires Ordered(nil, n, t) && e == Lookup(t, x.key) && DiffersAt(nil, n, x, e, i)
    ensures Ordered(nil, n, Place(t, x, i))
    ensures forall lo: nat :: From(t, lo) && lo <= i ==> From(Place(t, x, i), lo)
  {
    if t.Leaf? || t.bit >= i {
      NewNodeOrdered(nil, n, t, x, i, e);
    } else {
      var c := Child(t, x.key);
      LookupIn(c, x.key);
      PlaceOrdered(nil, n, c, x, i, e);
      PlaceLeaves(c, x, i);
      PlaceAgree(nil, n, t, x, i, e);
    }
  }

  lemma PlaceAgree(nil: PatEntry, n: nat, t: Trie, x: PatEntry, i: nat, e: PatEntry)
    requires t.Node? && t.bit < i && Agree(nil, n, t, t.bit) && e in Leaves(t) && DiffersAt(nil, n, x, e, i)
    ensures Agree(nil, n, Place(t, x, i), t.bit)
  {
    PlaceLeaves(t, x, i);
    forall j, d | 0 <= j < t.bit && d in Leaves(t) + {x}
      ensures Bit(nil, n, d, j) == Bit(nil, n, e, j)
    {
    }
  }

  lemma {:induction false} PlaceHosted(t: Trie, x: PatEntry, i: nat)
    requires Hosted(t) && x !in Leaves(t) && x !in Hosts(t)
    ensures Hosted(Place(t, x, i))
  {
    if !(t.Leaf? || t.bit >= i) {
      PlaceLeaves(t.zero, x, i);
      PlaceLeaves(t.one, x, i);
      PlaceHosted(t.zero, x, i);
      PlaceHosted(t.one, x, i);
    }
  }

  // ---- Keys of different lengths

  // The bit that add chooses for x when its search ends at e: the first of x's key that differs, or the one after.
  ghost predicate Chosen(x: PatEntry, e: PatEntry, i: nat) {
    && i <= 8 * |x.key| && (i < 8 * |x.key| ==> BitCheck(x.key, i) != BitCheck(e.key, i))
    && forall j :: 0 <= j < i ==> BitCheck(x.key, j) == BitCheck(e.key, j)
  }

  // What add does: the root is not put below x when it tests the bit chosen itself.
  function Added(t: Trie, x: PatEntry, i: nat): Trie {
    if t.Node? && t.bit == i then
      if BitCheck(x.key, i) then t.(one := Place(t.one, x, i)) else t.(zero := Place(t.zero, x, i))
    else Place(t, x, i)
  }

  // All entries can be found.
  ghost predicate AllFound(nil: PatEntry, t: Trie) {
    forall d :: d in Leaves(t) && d != nil ==> Lookup(t, d.key) == d
  }

  // Not told apart by the bit chosen, x hides e.
  lemma {:induction false} Hidden(t: Trie, x: PatEntry, i: nat, e: PatEntry)
    requires e == Lookup(t, x.key) && forall j :: 0 <= j <= i ==> BitCheck(x.key, j) == BitCheck(e.key, j)
    ensures Lookup(Place(t, x, i), e.key) == x
  {
    if !(t.Leaf? || t.bit >= i) {
      Hidden(Child(t, x.key), x, i, e);
    }
  }

  // With keys of different lengths, adding x keeps every entry to be found if and only if the bit chosen tells x from
  // the entry its search ended at.
  lemma AnyLengths(nil: PatEntry, n: nat, t: Trie, x: PatEntry, i: nat, e: PatEntry)
    requires Ordered(nil, n, t) && x != nil && e == Lookup(t, x.key) && e != nil && e != x && Chosen(x, e, i) && i <= n
    ensures AllFound(nil, Added(t, x, i)) <==> BitCheck(x.key, i) != BitCheck(e.key, i)
  {
    var u := Added(t, x, i);
    LookupIn(t, x.key);
    if t.Node? {
      LookupIn(Child(t, x.key), x.key);
      PlaceLeaves(Child(t, x.key), x, i);
    }
    if BitCheck(x.key, i) != BitCheck(e.key, i) {
      PlaceLeaves(t, x, i);
      PlaceOrdered(nil, n, t, x, i, e);
      forall d | d in Leaves(u) && d != nil
        ensures Lookup(u, d.key) == d
      {
        LookupFinds(nil, n, u, d.key, d);
      }
    } else {
      assert e in Leaves(u);
      if t.Node? && t.bit == i {
        Hidden(Child(t, x.key), x, i, e);
      } else {
        PlaceLeaves(t, x, i);
        Hidden(t, x, i, e);
      }
    }
  }

  // A key that is the beginning of a stored one, whose next bit is zero: the stored entry is lost.
  lemma PrefixHides(nil: PatEntry, x: PatEntry, e: PatEntry)
    requires nil != x && nil != e && x != e && nil.key == [] && e.key == [0x80, 0] && x.key == [0x80]
    ensures var t := Added(Leaf(nil), e, 0);
            Ordered(nil, 16, t) && Lookup(t, x.key) == e && Chosen(x, e, 8) && !AllFound(nil, Added(t, x, 8))
  {
    var t := Added(Leaf(nil), e, 0);
    LengthBit(x.key);
    assert forall j :: 0 <= j < 8 ==> BitCheck(x.key, j) == BitCheck(e.key, j);
    assert t == Node(e, 0, Leaf(nil), Leaf(e));
    AnyLengths(nil, 16, t, x, 8, e);
  }

  // ---- Removing an entry

  function Other(t: Trie, k: seq<bv8>): Trie
    requires t.Node?
  {
    if BitCheck(k, t.bit) then t.zero else t.one
  }

  // The last node on the way of k, what is on its other side, and the host of the node before it (up, if
  // there is none).
  function Last(t: Trie, k: seq<bv8>): PatEntry
    requires t.Node?
  {
    if Child(t, k).Leaf? then t.host else Last(Child(t, k), k)
  }

  function Sibling(t: Trie, k: seq<bv8>): Trie
    requires t.Node?
  {
    if Child(t, k).Leaf? then Other(t, k) else Sibling(Child(t, k), k)
  }

  function Grand(t: Trie, k: seq<bv8>, up: PatEntry): PatEntry
    requires t.Node?
  {
    if Child(t, k).Leaf? then up else Grand(Child(t, k), k, t.host)
  }

  // The host of the node before the one that e hosts.
  function Above(t: Trie, k: seq<bv8>, e: PatEntry, up: PatEntry): PatEntry
    requires t.Node?
  {
    if t.host == e || Child(t, k).Leaf? then up else Above(Child(t, k), k, e, t.host)
  }

  datatype Walked = Walked(p: PatEntry, g: PatEntry, gg: PatEntry)

  // The last node on the way of k goes; the node hosted by e gets the host p.
  function Removed(t: Trie, k: seq<bv8>, e: PatEntry, p: PatEntry): Trie
    requires t.Node?
  {
    if Child(t, k).Leaf? then Other(t, k)
    else
      var h := if t.host == e then p else t.host;
      if BitCheck(k, t.bit) then Node(h, t.bit, t.zero, Removed(t.one, k, e, p))
      else Node(h, t.bit, Removed(t.zero, k, e, p), t.one)
  }

  // What is known of t when the search for the key of e ends in it.
  ghost predicate Ends(nil: PatEntry, n: nat, t: Trie, k: seq<bv8>, e: PatEntry, p: PatEntry) {
    t.Node? && Ordered(nil, n, t) && Hosted(t) && Lookup(t, k) == e && Last(t, k) == p
  }

  lemma EndsBelow(nil: PatEntry, n: nat, t: Trie, k: seq<bv8>, e: PatEntry, p: PatEntry)
    requires Ends(nil, n, t, k, e, p) && Child(t, k).Node?
    ensures Ends(nil, n, Child(t, k), k, e, p)
    ensures e in Leaves(Child(t, k)) && e !in Leaves(Other(t, k)) && e !in Hosts(Other(t, k)) && p in Hosts(Child(t, k))
            && p != t.host
    ensures p !in Hosts(Other(t, k))
  {
    LookupIn(Child(t, k), k);
    SidesApart(nil, n, t);
    HostsAreLeaves(Other(t, k));
    LastIn(Child(t, k), k);
  }

  lemma {:induction false} LastIn(t: Trie, k: seq<bv8>)
    requires t.Node?
    ensures Last(t, k) in Hosts(t)
  {
    if Child(t, k).Node? {
      LastIn(Child(t, k), k);
    }
  }

  lemma {:induction false} RemovedSets(nil: PatEntry, n: nat, t: Trie, k: seq<bv8>, e: PatEntry, p: PatEntry)
    requires Ends(nil, n, t, k, e, p) && (e == p || e in Hosts(t) || p in Hosts(t))
    ensures Leaves(Removed(t, k, e, p)) == Leaves(t) - {e}
    ensures Hosts(Removed(t, k, e, p)) == Hosts(t) - {if e in Hosts(t) then e else p}
  {
    LookupIn(t, k);
    LastIn(t, k);
    SidesApart(nil, n, t);
    HostsAreLeaves(Other(t, k));
    if Child(t, k).Node? {
      EndsBelow(nil, n, t, k, e, p);
      RemovedSets(nil, n, Child(t, k), k, e, p);
    }
  }

  lemma SubsetAgree(nil: PatEntry, n: nat, t: Trie, u: Trie, i: nat)
    requires Agree(nil, n, t, i) && Leaves(u) <= Leaves(t)
    ensures Agree(nil, n, u, i)
  {
  }

  lemma {:induction false} RemovedOrdered(nil: PatEntry, n: nat, t: Trie, k: seq<bv8>, e: PatEntry, p: PatEntry)
    requires Ends(nil, n, t, k, e, p) && (e == p || e in Hosts(t) || p in Hosts(t))
    ensures Ordered(nil, n, Removed(t, k, e, p))
    ensures forall lo: nat :: From(t, lo) ==> From(Removed(t, k, e, p), lo)
  {
    if Child(t, k).Node? {
      EndsBelow(nil, n, t, k, e, p);
      RemovedOrdered(nil, n, Child(t, k), k, e, p);
      RemovedSets(nil, n, Child(t, k), k, e, p);
      RemovedSets(nil, n, t, k, e, p);
      SubsetAgree(nil, n, t, Removed(t, k, e, p), t.bit);
    }
  }

  // e's node is in t; or its node is above t, and p's leaf is in t.
  lemma {:induction false} RemovedHosted(nil: PatEntry, n: nat, t: Trie, k: seq<bv8>, e: PatEntry, p: PatEntry)
    requires Ends(nil, n, t, k, e, p)
    ensures Hosted(Removed(t, k, e, p))
  {
    LastIn(t, k);
    if Child(t, k).Node? {
      var c := Child(t, k);
      EndsBelow(nil, n, t, k, e, p);
      RemovedHosted(nil, n, c, k, e, p);
      RemovedSets(nil, n, c, k, e, p);
      HostsAreLeaves(c);
      HostsAreLeaves(t);
      HostsAreLeaves(Other(t, k));
    }
  }

  // The fields of the hosts in the new tree, from those in the old one: sp takes the place of the last node,
  // below g, and p takes over the node of e, below gg.
  ghost function Rewired(m: map<PatEntry, Fields>, k: seq<bv8>, e: PatEntry, p: PatEntry, g: PatEntry, gg: PatEntry,
                         sp: PatEntry, h: PatEntry): Fields
    requires h in m && e in m
  {
    var src := if h == p then e else h;
    if src == g then OnSide(m[src], k, sp)
    else if p != e && src == gg then OnSide(m[src], k, p)
    else m[src]
  }

  ghost function OnSide(f: Fields, k: seq<bv8>, x: PatEntry): Fields {
    if BitCheck(k, f.chkbit) then f.(oneptr := x) else f.(zeroptr := x)
  }

  // g and gg, seen from t on: inside t, or no host in t.
  lemma {:induction false} GrandIn(t: Trie, k: seq<bv8>, up: PatEntry, e: PatEntry)
    requires t.Node?
    ensures Grand(t, k, up) == up || Grand(t, k, up) in Hosts(t)
    ensures Above(t, k, e, up) == up || Above(t, k, e, up) in Hosts(t)
  {
    if Child(t, k).Node? {
      GrandIn(Child(t, k), k, t.host, e);
    }
  }

  // How g and gg lie with respect to t.
  ghost predicate Lies(t: Trie, k: seq<bv8>, e: PatEntry, up: PatEntry, g: PatEntry, gg: PatEntry)
    requires t.Node?
  {
    && up !in Hosts(t) && g == Grand(t, k, up)
    && (if e in Hosts(t) then gg == Above(t, k, e, up) else gg !in Hosts(t))
  }

  lemma LiesBelow(nil: PatEntry, n: nat, t: Trie, k: seq<bv8>, e: PatEntry, p: PatEntry, up: PatEntry, g: PatEntry,
          gg: PatEntry)
    requires Ends(nil, n, t, k, e, p) && Child(t, k).Node? && Lies(t, k, e, up, g, gg)
    ensures Lies(Child(t, k), k, e, t.host, g, gg)
    ensures Child(Child(t, k), k).Leaf? ==> g == t.host
    ensures Child(Child(t, k), k).Node? ==> g in Hosts(Child(t, k)) && (gg == t.host <==> Child(t, k).host == e)
    ensures g !in Hosts(Other(t, k)) && gg !in Hosts(Other(t, k))
  {
    var c := Child(t, k);
    EndsBelow(nil, n, t, k, e, p);
    GrandIn(c, k, t.host, e);
    GrandIn(t, k, up, e);
    if Child(c, k).Node? {
      EndsBelow(nil, n, c, k, e, p);
      GrandIn(Child(c, k), k, c.host, e);
    }
  }

  lemma {:induction false} RemovedShadow(nil: PatEntry, n: nat, t: Trie, k: seq<bv8>, e: PatEntry, p: PatEntry,
                                         up: PatEntry, g: PatEntry, gg: PatEntry, sp: PatEntry,
                                             m: map<PatEntry, Fields>)
    requires Ends(nil, n, t, k, e, p) && Lies(t, k, e, up, g, gg) && sp == Ptr(Sibling(t, k)) && e in m
    requires forall h :: h in Hosts(t) ==> h in m && m[h] == Shadow(t)[h]
    ensures var r := Removed(t, k, e, p);
            forall h :: h in Hosts(r) ==> h in m && Shadow(r)[h] == Rewired(m, k, e, p, g, gg, sp, h)
  {
    hide Hosts;
    var c, r := Child(t, k), Removed(t, k, e, p);
    OtherKept(nil, n, t, k, e, p, up, g, gg, sp, m);
    if c.Node? {
      EndsBelow(nil, n, t, k, e, p);
      LiesBelow(nil, n, t, k, e, p, up, g, gg);
      ChildShadow(t, k);
      RemovedShadow(nil, n, c, k, e, p, t.host, g, gg, sp, m);
      RemovedSets(nil, n, c, k, e, p);
      RemovedTop(nil, n, t, k, e, p, up, g, gg, sp, m);
      ShadowParts(r, Removed(c, k, e, p), Other(t, k));
    }
  }

  lemma ShadowParts(r: Trie, a: Trie, b: Trie)
    requires r.Node? && ((r.zero == a && r.one == b) || (r.zero == b && r.one == a)) && Hosts(a) !! Hosts(b)
    ensures Hosts(r) == {r.host} + Hosts(a) + Hosts(b)
    ensures forall h :: h in Hosts(r) ==>
              Shadow(r)[h] == if h == r.host then Fields(r.bit, Ptr(r.zero), Ptr(r.one))
                  else if h in Hosts(a) then Shadow(a)[h] else Shadow(b)[h]
  {
  }

  lemma ChildShadow(t: Trie, k: seq<bv8>)
    requires t.Node? && Hosted(t)
    ensures forall h :: h in Hosts(Child(t, k)) ==> Shadow(t)[h] == Shadow(Child(t, k))[h]
    ensures forall h :: h in Hosts(Other(t, k)) ==> Shadow(t)[h] == Shadow(Other(t, k))[h] && h != t.host
  {
  }

  lemma OtherKept(nil: PatEntry, n: nat, t: Trie, k: seq<bv8>, e: PatEntry, p: PatEntry,
                  up: PatEntry, g: PatEntry, gg: PatEntry, sp: PatEntry, m: map<PatEntry, Fields>)
    requires Ends(nil, n, t, k, e, p) && Lies(t, k, e, up, g, gg) && e in m
    requires forall h :: h in Hosts(t) ==> h in m && m[h] == Shadow(t)[h]
    ensures forall h :: h in Hosts(Other(t, k)) ==> h in m && Shadow(Other(t, k))[h] == Rewired(m, k, e, p, g, gg, sp,
            h)
  {
    ChildShadow(t, k);
    if Child(t, k).Node? {
      EndsBelow(nil, n, t, k, e, p);
      LiesBelow(nil, n, t, k, e, p, up, g, gg);
    }
  }

  lemma RemovedTop(nil: PatEntry, n: nat, t: Trie, k: seq<bv8>, e: PatEntry, p: PatEntry,
                   up: PatEntry, g: PatEntry, gg: PatEntry, sp: PatEntry, m: map<PatEntry, Fields>)
    requires Ends(nil, n, t, k, e, p) && Lies(t, k, e, up, g, gg) && sp == Ptr(Sibling(t, k)) && e in m
    requires forall h :: h in Hosts(t) ==> h in m && m[h] == Shadow(t)[h]
    requires Child(t, k).Node?
    ensures var r := Removed(t, k, e, p);
            r.Node? && r.host in m && Fields(r.bit, Ptr(r.zero), Ptr(r.one)) == Rewired(m, k, e, p, g, gg, sp, r.host)
  {
    EndsBelow(nil, n, t, k, e, p);
    LiesBelow(nil, n, t, k, e, p, up, g, gg);
  }

  // What a search for the key of e has still to find from s on, whose predecessor is up: the hosts w of the
  // last node, of the one before it, and of the one before the node of e.
  ghost predicate Walking(s: Trie, k: seq<bv8>, e: PatEntry, up: PatEntry, gg: PatEntry?, inTree: bool, w: Walked) {
    s.Node? ==>
      && Last(s, k) == w.p && Grand(s, k, up) == w.g
      && (e in Hosts(s) ==> gg == null && Above(s, k, e, up) == w.gg)
      && (inTree && e !in Hosts(s) ==> gg == w.gg)
      && (!inTree ==> e !in Hosts(s))
  }

  lemma WalkStep(nil: PatEntry, n: nat, s: Trie, k: seq<bv8>, e: PatEntry, up: PatEntry, gg: PatEntry?, inTree: bool,
          w: Walked)
    requires s.Node? && Ordered(nil, n, s) && Hosted(s) && Walking(s, k, e, up, gg, inTree, w)
    requires inTree ==> Lookup(s, k) == e
    ensures var c, gg' := Child(s, k), if s.host == e && gg == null then up else gg;
            && Walking(c, k, e, s.host, gg', inTree, w)
            && (c.Leaf? ==> w.p == s.host && w.g == up && (inTree ==> gg' == w.gg))
  {
    LookupIn(Child(s, k), k);
    SidesApart(nil, n, s);
    HostsAreLeaves(Other(s, k));
  }

  // The fields of the last node: e on the side of k, the sibling on the other.
  lemma {:induction false} LastFields(nil: PatEntry, n: nat, t: Trie, k: seq<bv8>, e: PatEntry, p: PatEntry, f: Fields)
    requires Ends(nil, n, t, k, e, p) && p in Hosts(t) && f == Shadow(t)[p]
    ensures Ptr(Sibling(t, k)) != e
    ensures if BitCheck(k, f.chkbit) then f.oneptr == e && f.zeroptr == Ptr(Sibling(t, k))
            else f.zeroptr == e && f.oneptr == Ptr(Sibling(t, k))
  {
    var c := Child(t, k);
    LookupIn(c, k);
    SidesApart(nil, n, t);
    HostsAreLeaves(Other(t, k));
    if c.Node? {
      EndsBelow(nil, n, t, k, e, p);
      ChildShadow(t, k);
      LastFields(nil, n, c, k, e, p, Shadow(c)[p]);
    }
  }

  // g, gg, p and e are different where the program relies on it.
  lemma {:induction false} WayDistinct(nil: PatEntry, n: nat, t: Trie, k: seq<bv8>, e: PatEntry, p: PatEntry,
          up: PatEntry)
    requires Ends(nil, n, t, k, e, p) && e in Hosts(t) && up !in Hosts(t) && Child(t, k).Node?
    ensures Grand(t, k, up) in Hosts(t) && Grand(t, k, up) != p
    ensures p != e ==> Above(t, k, e, up) != p && Above(t, k, e, up) != Grand(t, k, up) && Above(t, k, e, up) != e
    ensures t.host != p
    ensures p != e && t.host != e ==> Above(t, k, e, up) in Hosts(t)
  {
    var c := Child(t, k);
    EndsBelow(nil, n, t, k, e, p);
    LookupIn(Child(c, k), k);
    SidesApart(nil, n, c);
    HostsAreLeaves(Other(c, k));
    if Child(c, k).Node? {
      if e in Hosts(c) {
        WayDistinct(nil, n, c, k, e, p, t.host);
      } else {
        GrandBelow(nil, n, c, k, e, p, t.host);
      }
    }
  }

  lemma {:induction false} GrandBelow(nil: PatEntry, n: nat, t: Trie, k: seq<bv8>, e: PatEntry, p: PatEntry,
          up: PatEntry)
    requires Ends(nil, n, t, k, e, p) && Child(t, k).Node?
    ensures Grand(t, k, up) in Hosts(t) && Grand(t, k, up) != p
  {
    var c := Child(t, k);
    EndsBelow(nil, n, t, k, e, p);
    if Child(c, k).Node? {
      GrandBelow(nil, n, c, k, e, p, t.host);
    }
  }

  lemma UpDoesNotMatter(t: Trie, k: seq<bv8>, e: PatEntry, up: PatEntry, other: PatEntry)
    requires t.Node? && Child(t, k).Node?
    ensures Grand(t, k, up) == Grand(t, k, other) && (t.host != e ==> Above(t, k, e, up) == Above(t, k, e, other))
  {
  }

  // Every entry but the sentinel hosts a node, and all keys have one length.
  ghost predicate Complete(nil: PatEntry, keylen: nat, hosts: set<PatEntry>, leaves: set<PatEntry>) {
    nil !in hosts && leaves == hosts + {nil} && forall e :: e in hosts ==> |e.key| == keylen
  }

  // What a removal leaves on top.
  lemma RemovedRoot(t: Trie, k: seq<bv8>, e: PatEntry, p: PatEntry)
    requires t.Node? && p == Last(t, k)
    ensures Child(t, k).Leaf? ==> p == t.host && Removed(t, k, e, p) == Other(t, k) == Sibling(t, k)
    ensures Child(t, k).Node? ==> Ptr(Removed(t, k, e, p)) == if t.host == e then p else t.host
  {
  }

  class PatTree {
    var root: PatEntry
    var size: nat
    const keylen: nat          // the length of the keys
    ghost const nil: PatEntry  // the sentinel
    ghost var trie: Trie
    ghost var shadow: map<PatEntry, Fields>  // what the entries must hold

    ghost predicate Linked()
      reads this, nil, shadow.Keys
    {
      root == Ptr(trie) && Repr(shadow) && NilKept()
    }

    ghost predicate Valid()
      reads this, nil, shadow.Keys
    {
      Linked() && Shaped(trie, shadow) && size == |shadow.Keys|
    }

    ghost predicate Shaped(u: Trie, f: map<PatEntry, Fields>) {
      f == Shadow(u) && Ordered(nil, 8 * keylen, u) && Hosted(u) && Complete(nil, keylen, Hosts(u), Leaves(u))
    }

    // The stored entries.
    ghost function Entries(): set<PatEntry>
      reads `shadow
    {
      shadow.Keys
    }

    constructor (keylen: nat)
      requires 0 < keylen && 8 * keylen < MAX_BIT
      ensures Valid() && Entries() == {} && this.keylen == keylen && fresh(nil)
    {
      var e := new PatEntry([]);
      root, size, this.keylen, nil := e, 0, keylen, e;
      trie, shadow := Leaf(e), map[];
      new;
      root.zeroptr := root;
      root.oneptr := root;
      root.chkbit := MAX_BIT;
    }

    lemma StartWithin(m: map<PatEntry, Fields>)
      requires Valid() && m == shadow
      ensures Within(nil, 8 * keylen, m, trie) && Repr(m)
      ensures trie.Node? ==> root.chkbit == trie.bit
      ensures trie.Leaf? ==> root == nil
    {
      if trie.Node? {
        assert Holds(trie.host, m[trie.host]);
      }
    }

    // Follows the links until one does not lead to a later bit.
    method Search(k: seq<bv8>) returns (t: PatEntry)
      requires Valid()
      ensures t == Lookup(trie, k)
    {
      hide Hosts;
      ghost var m, n, s, r := shadow, 8 * keylen, trie, Lookup(trie, k);
      StartWithin(m);
      t := root;
      var i := t.chkbit;
      while true
        invariant Repr(m) && Within(nil, n, m, s) && t == Ptr(s) && Lookup(s, k) == r
        invariant s.Node? ==> i == s.bit <= n
        invariant s.Leaf? ==> t == nil && i == MAX_BIT
        decreases s, if s.Node? then 1 else 0
      {
        if s.Node? {
          ghost var c := Child(s, k);
          StepDown(nil, n, m, s, k, c);
          s := c;
          assert s.Node? ==> s.bit <= n;
        }
        t := if BitCheck(k, i) then t.oneptr else t.zeroptr;
        if i >= t.chkbit {
          break;
        }
        i := t.chkbit;
      }
    }

    // The entry with this key, if there is one. The empty key may find the sentinel.
    method Find(k: seq<bv8>) returns (r: PatEntry?)
      requires Valid()
      ensures r != null ==> r.key == k && (r in Entries() || (k == [] && r == nil))
      ensures r == null ==> forall e :: e in Entries() ==> e.key != k
    {
      var t := Search(k);
      LookupIn(trie, k);
      forall e | e in Entries() && e.key == k
        ensures t == e
      {
        LookupFinds(nil, 8 * keylen, trie, k, e);
      }
      FoundInTree(k, t);
      if |k| == |t.key| && k == t.key {
        return t;
      }
      return null;
    }

    // The first bit in which the key of entry differs from that of t, or the number of bits.
    method FirstDifference(entry: PatEntry, t: PatEntry) returns (i: nat)
      requires |entry.key| == keylen && (t == nil || |t.key| == keylen) && nil.key == []
      requires t != nil ==> t.key != entry.key
      requires entry != nil && 0 < keylen
      ensures DiffersAt(nil, 8 * keylen, entry, t, i)
    {
      i := 0;
      while i < 8 * keylen && BitCheck(entry.key, i) == BitCheck(t.key, i)
        invariant 0 <= i <= 8 * keylen && forall j :: 0 <= j < i ==> BitCheck(entry.key, j) == BitCheck(t.key, j)
      {
        i := i + 1;
      }
      LengthBit(entry.key);
      forall j: nat
        ensures !BitCheck(nil.key, j)
      {
        NoBits(j);
      }
      if i == 8 * keylen && t != nil {
        SameBits(entry.key, t.key);
      }
    }

    // The recursive step: node enters below child, if child tests an earlier bit than i; else above it.
    method Insert(child: PatEntry, node: PatEntry, i: nat, parent: PatEntry,
                  ghost t: Trie, ghost m: map<PatEntry, Fields>, ghost n: nat, ghost f: map<PatEntry, Fields>)
                          returns (r: PatEntry)
      requires f == Shadow(Place(t, node, i))
      requires child == Ptr(t) && Repr(m) && Within(nil, n, m, t) && i <= n < MAX_BIT && nil.chkbit == MAX_BIT
      requires t.Node? ==> parent.chkbit < t.bit && child.chkbit == t.bit
      requires t.Leaf? ==> t.e == nil || t.e.chkbit <= parent.chkbit
      requires node !in Leaves(t) && node !in m
      modifies Hosts(t)`zeroptr, Hosts(t)`oneptr, node`chkbit, node`zeroptr, node`oneptr
      ensures r == Ptr(Place(t, node, i)) && Repr(f)
      decreases t
    {
      if child.chkbit >= i || child.chkbit <= parent.chkbit {
        MakeNode(child, node, i, t, m, n, f);
        return node;
      }
      InsertUnder(child, node, i, t, m, n, f);
      r := child;
    }

    method MakeNode(child: PatEntry, node: PatEntry, i: nat, ghost t: Trie, ghost m: map<PatEntry, Fields>,
            ghost n: nat, ghost f: map<PatEntry, Fields>)
      requires f == Shadow(NewNode(t, node, i))
      requires child == Ptr(t) && Repr(m) && Within(nil, n, m, t) && node !in m
      modifies node`chkbit, node`zeroptr, node`oneptr
      ensures Repr(f)
    {
      hide Shadow;
      PartHolds(nil, n, m, t);
      assert node !in Hosts(t);
      hide Leaves, Hosted, Ordered;
      node.chkbit := i;
      node.zeroptr := if BitCheck(node.key, i) then child else node;
      node.oneptr := if BitCheck(node.key, i) then node else child;
      NodeHolds(NewNode(t, node, i));
    }

    method InsertUnder(child: PatEntry, node: PatEntry, i: nat, ghost t: Trie, ghost m: map<PatEntry, Fields>,
            ghost n: nat, ghost f: map<PatEntry, Fields>)
      requires f == Shadow(Place(t, node, i))
      requires t.Node? && child == t.host && Repr(m) && Within(nil, n, m, t) && i <= n < MAX_BIT
               && nil.chkbit == MAX_BIT
      requires t.bit < i && child.chkbit == t.bit
      requires node !in Leaves(t) && node !in m
      modifies Hosts(t)`zeroptr, Hosts(t)`oneptr, node`chkbit, node`zeroptr, node`oneptr
      ensures Repr(f)
      decreases t, 0
    {
      hide Ordered, Hosted, Leaves, Hosts, Shadow;
      ghost var c, other := Child(t, node.key), if BitCheck(node.key, t.bit) then t.zero else t.one;
      StepDown(nil, n, m, t, node.key, c);
      ghost var fo, fc := Shadow(other), Shadow(Place(c, node, i));
      BelowApart(nil, n, m, t, c, other, fo);
      PlaceLeaves(c, node, i);
      var q := Insert(if BitCheck(node.key, child.chkbit) then child.oneptr
          else child.zeroptr, node, i, child, c, m, n, fc);
      LinkChild(child, node, q, t, Place(c, node, i), other, fc, fo, Place(t, node, i), f);
    }

    lemma BelowApart(nil: PatEntry, n: nat, m: map<PatEntry, Fields>, t: Trie, c: Trie, other: Trie,
            fo: map<PatEntry, Fields>)
      requires t.Node? && Within(nil, n, m, t) && Repr(m) && fo == Shadow(other)
      requires (c == t.zero && other == t.one) || (c == t.one && other == t.zero)
      ensures Repr(fo) && Hosts(c) !! Hosts(other) && t.host !in Hosts(c) && t.host !in Hosts(other)
      ensures Hosts(other) <= m.Keys && t.host in m && t.host in Hosts(t)
              && Holds(t.host, Fields(t.bit, Ptr(t.zero), Ptr(t.one)))
      ensures Leaves(c) <= Leaves(t) && Hosts(c) <= Hosts(t)
      ensures forall x :: x in fo ==> allocated(x)
    {
      PartHolds(nil, n, m, t);
      NodeParts(t);
      assert t.host in Hosts(t);
    }

    // Makes q, the root of c, the child on node's side of child.
    method LinkChild(child: PatEntry, node: PatEntry, q: PatEntry, ghost t: Trie, ghost c: Trie, ghost other: Trie,
                     ghost fc: map<PatEntry, Fields>, ghost fo: map<PatEntry, Fields>, ghost u: Trie,
                             ghost f: map<PatEntry, Fields>)
      requires t.Node? && child == t.host && q == Ptr(c) && Repr(fc) && Repr(fo) && fc == Shadow(c)
               && fo == Shadow(other)
      requires other == if BitCheck(node.key, t.bit) then t.zero else t.one
      requires child !in fc && child !in fo && child.chkbit == t.bit
      requires if BitCheck(node.key, t.bit) then child.zeroptr == Ptr(other) else child.oneptr == Ptr(other)
      requires u == (if BitCheck(node.key, t.bit) then t.(one := c) else t.(zero := c)) && f == Shadow(u)
               && Hosts(c) !! Hosts(other)
      modifies child`zeroptr, child`oneptr
      ensures Repr(f)
    {
      hide Hosts, Leaves, Shadow, Hosted, Ordered;
      if BitCheck(node.key, child.chkbit) {
        child.oneptr := q;
      } else {
        child.zeroptr := q;
      }
      assert Repr(fc) && Repr(fo);
      ShadowParts(u, c, other);
    }

    // Adds an entry whose key is not in the tree.
    method Add(entry: PatEntry)
      requires Valid() && entry !in Entries() && entry != nil && |entry.key| == keylen
      requires forall e :: e in Entries() ==> e.key != entry.key
      modifies `root, `size, `trie, `shadow, Entries()`zeroptr, Entries()`oneptr, entry`chkbit, entry`zeroptr,
               entry`oneptr
      ensures Valid() && Entries() == old(Entries()) + {entry}
    {
      hide *;
      ghost var u, f := AddLinks(entry);
      size := size + 1;
      Settle(u, f);
    }

    method AddLinks(entry: PatEntry) returns (ghost u: Trie, ghost f: map<PatEntry, Fields>)
      requires Valid() && entry !in Entries() && entry != nil && |entry.key| == keylen
      requires forall e :: e in Entries() ==> e.key != entry.key
      modifies `root, Entries()`zeroptr, Entries()`oneptr, entry`chkbit, entry`zeroptr, entry`oneptr
      ensures root == Ptr(u) && Repr(f) && Shaped(u, f) && f.Keys == Entries() + {entry} && |f.Keys| == size + 1
      ensures NilKept()
    {
      hide Ordered, Hosted, Leaves, Hosts, Shadow, Place, Repr;
      var i;
      i, u, f := Distinguish(entry);
      Enter(entry, i, shadow, 8 * keylen, u, f);
    }

    // The sentinel never changes.
    ghost predicate NilKept()
      reads nil
    {
      nil.zeroptr == nil && nil.oneptr == nil && nil.chkbit == MAX_BIT && nil.key == [] && 0 < keylen
          && 8 * keylen < MAX_BIT
    }

    // The links now stand for u.
    ghost method Settle(u: Trie, f: map<PatEntry, Fields>)
      requires root == Ptr(u) && Repr(f) && Shaped(u, f) && size == |f.Keys| && NilKept()
      modifies `trie, `shadow
      ensures Valid() && shadow == f && Entries() == f.Keys
    {
      hide Ordered, Hosted, Leaves, Hosts, Shadow;
      trie, shadow := u, f;
    }

    // Puts the entry in its place.
    method Enter(entry: PatEntry, i: nat, ghost m: map<PatEntry, Fields>, ghost n: nat, ghost u: Trie,
            ghost f: map<PatEntry, Fields>)
      requires u == Place(trie, entry, i) && f == Shadow(u)
      requires Valid() && entry !in Hosts(trie) && entry != nil && i <= n && n == 8 * keylen && m == shadow
      requires trie.Node? ==> trie.bit != i
      modifies `root, shadow.Keys`zeroptr, shadow.Keys`oneptr, entry`chkbit, entry`zeroptr, entry`oneptr
      ensures root == Ptr(u) && Repr(f)
    {
      hide Shadow, Ordered;
      StartWithin(m);
      EmptyIs();
      if size == 0 || root.chkbit > i {
        NewRoot(entry, i, m, n, f);
      } else {
        InsertUnder(root, entry, i, trie, m, n, f);
      }
    }

    lemma EmptyIs()
      requires Valid()
      ensures size == 0 <==> trie.Leaf?
    {
      if trie.Node? {
        assert trie.host in Hosts(trie);
      }
    }

    lemma FoundInTree(k: seq<bv8>, t: PatEntry)
      requires Valid() && t == Lookup(trie, k)
      ensures t == nil || (t in Entries() && |t.key| == keylen)
    {
      LookupIn(trie, k);
    }

    // The first bit that tells entry from the entry its search ends at, and what placing it there means.
    method Distinguish(entry: PatEntry) returns (i: nat, ghost u: Trie, ghost f: map<PatEntry, Fields>)
      requires Valid() && entry !in Entries() && entry != nil && |entry.key| == keylen
      requires forall e :: e in Entries() ==> e.key != entry.key
      ensures i <= 8 * keylen && (trie.Node? ==> trie.bit != i)
      ensures u == Place(trie, entry, i) && f == Shadow(u) && Shaped(u, f) && f.Keys == Entries() + {entry}
      ensures |f.Keys| == size + 1
    {
      hide Ordered, Hosted, Leaves, Hosts, Shadow, Place, Lookup;
      var t := Search(entry.key);
      FoundInTree(entry.key, t);
      i := FirstDifference(entry, t);
      u := Place(trie, entry, i);
      f := Shadow(u);
      PlaceFacts(entry, i, t, u, f);
      if trie.Node? {
        SameBitTaken(entry, i, t);
      }
    }

    // The entry goes on top.
    method NewRoot(entry: PatEntry, i: nat, ghost m: map<PatEntry, Fields>, ghost n: nat,
            ghost f: map<PatEntry, Fields>)
      requires f == Shadow(NewNode(trie, entry, i))
      requires root == Ptr(trie) && Repr(m) && Within(nil, n, m, trie) && entry !in m
      modifies `root, entry`chkbit, entry`zeroptr, entry`oneptr
      ensures root == entry && Repr(f)
    {
      hide Shadow, Hosted;
      PartHolds(nil, n, m, trie);
      if BitCheck(entry.key, i) {
        entry.zeroptr := root;
        entry.oneptr := entry;
      } else {
        entry.oneptr := root;
        entry.zeroptr := entry;
      }
      entry.chkbit := i;
      root := entry;
      NodeHolds(NewNode(trie, entry, i));
    }

    lemma PlaceFacts(entry: PatEntry, i: nat, t: PatEntry, u: Trie, f: map<PatEntry, Fields>)
      requires u == Place(trie, entry, i) && f == Shadow(u)
      requires Valid() && entry !in Hosts(trie) && entry != nil && t == Lookup(trie, entry.key)
      requires DiffersAt(nil, 8 * keylen, entry, t, i) && |entry.key| == keylen
      ensures Shaped(u, f) && f.Keys == Entries() + {entry}
    {
      hide Ordered, Hosted, Leaves, Hosts, Shadow, Place, Lookup;
      PlaceLeaves(trie, entry, i);
      PlaceOrdered(nil, 8 * keylen, trie, entry, i, t);
      PlaceHosted(trie, entry, i);
    }

    // The bit in which entry and the entry found differ is not one that the search for it tested.
    lemma SameBitTaken(entry: PatEntry, i: nat, t: PatEntry)
      requires Valid() && trie.Node? && t == Lookup(trie, entry.key) && entry != nil
      requires DiffersAt(nil, 8 * keylen, entry, t, i)
      ensures trie.bit != i
    {
      LookupIn(Child(trie, entry.key), entry.key);
    }

    // Walks down to where the key of entry ends, keeping the hosts of the last node (p), of the one before it
    // (g), and of the one before the node that entry hosts (gg).
    method Locate(entry: PatEntry) returns (t: PatEntry, p: PatEntry, g: PatEntry, gg: PatEntry?)
      requires Valid() && |entry.key| == keylen
      ensures t == Lookup(trie, entry.key) && (entry in Entries() ==> t == entry)
      ensures t != nil ==> trie.Node? && p == Last(trie, entry.key) && g == Grand(trie, entry.key, root)
      ensures t == entry ==> entry in Entries() && trie.Node? && gg == Above(trie, entry.key, entry, root)
    {
      ghost var k, m, n, s, r := entry.key, shadow, 8 * keylen, trie, Lookup(trie, entry.key);
      ghost var w := WayOf(k, entry);
      ghost var inTree := entry in Entries();
      StartWithin(m);
      StartWalk(k, entry, w);
      t, p, g, gg := root, root, root, null;
      var i := t.chkbit;
      while true
        invariant Repr(m) && Within(nil, n, m, s) && t == Ptr(s) && Lookup(s, k) == r
        invariant s.Node? ==> i == s.bit <= n
        invariant s.Leaf? ==> t == nil && i == MAX_BIT && r == nil
        invariant Walking(s, k, entry, p, gg, inTree, w)
        decreases s, if s.Node? then 1 else 0
      {
        ghost var up, seen := p, gg;
        if t == entry && gg == null {
          gg := p;
        }
        g := p;
        p := t;
        if s.Node? {
          ghost var c := Child(s, k);
          StepDown(nil, n, m, s, k, c);
          WalkStep(nil, n, s, k, entry, up, seen, inTree, w);
          s := c;
        }
        t := if BitCheck(entry.key, i) then t.oneptr else t.zeroptr;
        if i >= t.chkbit {
          break;
        }
        i := t.chkbit;
      }
    }

    // Removes an entry; nothing happens if it is not in the tree.
    method Remove(entry: PatEntry)
      requires Valid() && |entry.key| == keylen
      modifies this, Entries()
      ensures Valid() && Entries() == old(Entries()) - {entry}
    {
      hide Ordered, Hosted, Leaves, Hosts, Shadow, Removed, Lookup, Last, Above, Grand, Repr;
      var t, p, g, gg := Locate(entry);
      if t != entry {
        return;
      }
      ghost var u, f := RemoveLinks(entry, p, g, gg);
      size := size - 1;
      Settle(u, f);
    }

    method RemoveLinks(entry: PatEntry, p: PatEntry, g: PatEntry, gg: PatEntry)
            returns (ghost u: Trie, ghost f: map<PatEntry, Fields>)
      requires Valid() && entry in Entries() && |entry.key| == keylen && trie.Node? && p == Last(trie, entry.key)
      requires g == Grand(trie, entry.key, root) && gg == Above(trie, entry.key, entry, root)
      modifies `root, shadow.Keys
      ensures root == Ptr(u) && Repr(f) && Shaped(u, f) && f.Keys == Entries() - {entry} && |f.Keys| == size - 1
      ensures NilKept()
    {
      hide Ordered, Hosted, Leaves, Hosts, Shadow, Removed, Lookup, Last, Above, Grand;
      u := Removed(trie, entry.key, entry, p);
      f := Shadow(u);
      RemovedFacts(entry, p, u, f);
      Unlink(entry, p, g, gg, u, f);
    }

    method Unlink(entry: PatEntry, p: PatEntry, g: PatEntry, gg: PatEntry, ghost u: Trie,
            ghost f: map<PatEntry, Fields>)
      requires Valid() && entry in Entries() && |entry.key| == keylen && trie.Node? && p == Last(trie, entry.key)
      requires g == Grand(trie, entry.key, root) && gg == Above(trie, entry.key, entry, root)
      requires u == Removed(trie, entry.key, entry, p) && f == Shadow(u) && f.Keys == Entries() - {entry}
      modifies `root, shadow.Keys
      ensures root == Ptr(u) && Repr(f)
    {
      hide Ordered, Hosted, Leaves, Hosts, Shadow, Removed, Lookup, Last, Above, Grand, Sibling;
      ghost var m, sp := shadow, Ptr(Sibling(trie, entry.key));
      RelinkReady(entry, p, g, gg, m, sp);
      RemovedRoot(trie, entry.key, entry, p);
      if g == p {
        TopOnly(entry, f);
        Relink(entry, p, g, gg, sp);
        assert Repr(f);
      } else {
        RewiredShadow(entry, p, g, gg, m, sp, u, f);
        RelinkBelow(entry, p, g, gg, m, sp);
      }
    }

    // The last node is the first one too.
    lemma TopOnly(entry: PatEntry, f: map<PatEntry, Fields>)
      requires Valid() && trie.Node? && entry == trie.host && f == Shadow(Other(trie, entry.key))
      ensures Repr(f) && entry !in f && forall x :: x in f ==> allocated(x)
    {
      assert Repr(Shadow(trie));
      NodeParts(trie);
    }

    // There is a node before the last one.
    method RelinkBelow(entry: PatEntry, p: PatEntry, g: PatEntry, gg: PatEntry, ghost m: map<PatEntry, Fields>,
            ghost sp: PatEntry)
      requires Repr(m) && entry in m && p in m && g in m && gg in m && nil !in m
      requires sp == if p.zeroptr == entry then p.oneptr else p.zeroptr
      requires g != p && root != p && (p != entry && entry != root ==> gg != g && gg != p && gg != entry)
      modifies `root, m.Keys
      ensures root == if entry != old(root) then old(root) else p
      ensures forall h :: h in m && h != entry ==>
                Holds(h, Rewired(m, entry.key, entry, p, g, if entry == old(root) then nil else gg, sp, h))
    {
      assert Holds(entry, m[entry]) && Holds(p, m[p]) && Holds(g, m[g]) && Holds(gg, m[gg]);
      Relink(entry, p, g, gg, sp);
      forall h | h in m && h != entry
        ensures Holds(h, Rewired(m, entry.key, entry, p, g, if entry == old(root) then nil else gg, sp, h))
      {
        assert old(Holds(h, m[h]));
        if h != p && h != g && h != gg {
          assert Holds(h, m[h]);
        }
      }
    }

    lemma RelinkReady(entry: PatEntry, p: PatEntry, g: PatEntry, gg: PatEntry, m: map<PatEntry, Fields>, sp: PatEntry)
      requires Valid() && entry in Entries() && |entry.key| == keylen && p == Last(trie, entry.key)
      requires g == Grand(trie, entry.key, root) && gg == Above(trie, entry.key, entry, root)
      requires m == shadow && sp == Ptr(Sibling(trie, entry.key))
      ensures p in Hosts(trie) && g in Hosts(trie) && gg in Hosts(trie) && Repr(m)
      ensures sp == if p.zeroptr == entry then p.oneptr else p.zeroptr
      ensures g == p ==> entry == p && root == p && gg == p && Child(trie, entry.key).Leaf?
      ensures g != p ==> root != p && Child(trie, entry.key).Node?
      ensures g != p && p != entry && entry != root ==> gg != g && gg != p && gg != entry
    {
      var k, n := entry.key, 8 * keylen;
      LookupFinds(nil, n, trie, k, entry);
      LastIn(trie, k);
      GrandIn(trie, k, root, entry);
      LastFields(nil, n, trie, k, entry, p, m[p]);
      assert Holds(p, m[p]);
      if Child(trie, k).Node? {
        WayDistinct(nil, n, trie, k, entry, p, nil);
        UpDoesNotMatter(trie, k, entry, root, nil);
      } else {
        HostsAreLeaves(Other(trie, k));
        SidesApart(nil, n, trie);
      }
    }

    // The fields of the new tree, from those of the old one.
    lemma RewiredShadow(entry: PatEntry, p: PatEntry, g: PatEntry, gg: PatEntry, m: map<PatEntry, Fields>, sp: PatEntry,
                        u: Trie, f: map<PatEntry, Fields>)
      requires Valid() && entry in Entries() && |entry.key| == keylen && p == Last(trie, entry.key)
      requires g == Grand(trie, entry.key, root) && gg == Above(trie, entry.key, entry, root)
               && Child(trie, entry.key).Node?
      requires m == shadow && sp == Ptr(Sibling(trie, entry.key))
      requires u == Removed(trie, entry.key, entry, p) && f == Shadow(u)
      ensures forall h :: h in f ==> h in m && f[h] == Rewired(m, entry.key, entry, p, g, if entry == root then nil
              else gg, sp, h)
    {
      var k, n := entry.key, 8 * keylen;
      LookupFinds(nil, n, trie, k, entry);
      UpDoesNotMatter(trie, k, entry, root, nil);
      RemovedShadow(nil, n, trie, k, entry, p, nil, g, if entry == root then nil else gg, sp, m);
    }

    // Takes the last node p out, below g; p then takes over the node of entry, below gg.
    method Relink(entry: PatEntry, p: PatEntry, g: PatEntry, gg: PatEntry?, ghost sp: PatEntry)
      requires Full(p) && Full(g) && Full(entry) && (gg != null ==> Full(gg))
      requires sp == if p.zeroptr == entry then p.oneptr else p.zeroptr
      requires g == p ==> entry == p && root == p
      requires g != p && p != entry && entry != root ==> gg != null && gg != g && gg != p && gg != entry
      requires g != p ==> root != p
      modifies `root, p`chkbit, p`zeroptr, p`oneptr, g`zeroptr, g`oneptr
      modifies (if gg == null then {} else {gg})`zeroptr, (if gg == null then {} else {gg})`oneptr
      ensures root == if entry != old(root) then old(root) else if g == p then sp else p
      ensures g != p && g != entry ==> Holds(g, OnSide(old(FieldsOf(g)), entry.key, sp))
      ensures g != p && p != entry ==> Holds(p, if g == entry then OnSide(old(FieldsOf(entry)), entry.key, sp)
              else old(FieldsOf(entry)))
      ensures g != p && p != entry && entry != old(root) ==> Holds(gg, OnSide(old(FieldsOf(gg)), entry.key, p))
      ensures gg != null && (g == p || p == entry || entry == old(root)) && gg != g && gg != p ==>
              Holds(gg, old(FieldsOf(gg)))
    {
      var key := entry.key;
      var upleft := p.zeroptr == entry;
      var isHeadNodeDeleted := entry == root;
      if BitCheck(key, g.chkbit) {
        g.oneptr := if upleft then p.oneptr else p.zeroptr;
        if isHeadNodeDeleted {
          root := g.oneptr;
        }
      } else {
        g.zeroptr := if upleft then p.oneptr else p.zeroptr;
        if isHeadNodeDeleted {
          root := g.zeroptr;
        }
      }
      if p != entry {
        if isHeadNodeDeleted {
          root := p;
        } else if BitCheck(key, gg.chkbit) {
          gg.oneptr := p;
        } else {
          gg.zeroptr := p;
        }
        p.chkbit := entry.chkbit;
        p.oneptr := entry.oneptr;
        p.zeroptr := entry.zeroptr;
      }
    }

    ghost predicate Full(h: PatEntry)
      reads h
    {
      h.zeroptr != null && h.oneptr != null
    }

    ghost function FieldsOf(h: PatEntry): Fields
      requires Full(h)
      reads h
    {
      Fields(h.chkbit, h.zeroptr, h.oneptr)
    }

    lemma RemovedFacts(entry: PatEntry, p: PatEntry, u: Trie, f: map<PatEntry, Fields>)
      requires Valid() && entry in Hosts(trie) && |entry.key| == keylen && trie.Node? && p == Last(trie, entry.key)
      requires u == Removed(trie, entry.key, entry, p) && f == Shadow(u)
      ensures Shaped(u, f) && f.Keys == Entries() - {entry}
    {
      hide Ordered, Hosted, Leaves, Hosts, Shadow, Removed, Lookup, Last;
      LookupFinds(nil, 8 * keylen, trie, entry.key, entry);
      RemovedSets(nil, 8 * keylen, trie, entry.key, entry, p);
      RemovedOrdered(nil, 8 * keylen, trie, entry.key, entry, p);
      RemovedHosted(nil, 8 * keylen, trie, entry.key, entry, p);
    }

    ghost function WayOf(k: seq<bv8>, e: PatEntry): Walked
      reads `root, `trie
    {
      if trie.Node? then Walked(Last(trie, k), Grand(trie, k, root), Above(trie, k, e, root)) else Walked(e, e, e)
    }

    lemma StartWalk(k: seq<bv8>, e: PatEntry, w: Walked)
      requires Valid() && k == e.key && |k| == keylen && w == WayOf(k, e)
      ensures Walking(trie, k, e, root, null, e in Entries(), w)
      ensures e in Entries() ==> Lookup(trie, k) == e
      ensures Lookup(trie, k) == e ==> e in Entries()
    {
      LookupIn(trie, k);
      if e in Entries() {
        LookupFinds(nil, 8 * keylen, trie, k, e);
      }
    }
  }

  lemma PartHolds(nil: PatEntry, n: nat, m: map<PatEntry, Fields>, t: Trie)
    requires Within(nil, n, m, t) && Repr(m)
    ensures Repr(Shadow(t))
  {
    forall h | h in Shadow(t)
      ensures Holds(h, Shadow(t)[h])
    {
      assert Holds(h, m[h]);
    }
  }

  lemma NodeParts(t: Trie)
    requires t.Node? && Repr(Shadow(t)) && Hosted(t)
    ensures Repr(Shadow(t.zero)) && Repr(Shadow(t.one)) && Holds(t.host, Fields(t.bit, Ptr(t.zero), Ptr(t.one)))
  {
    var m := Shadow(t);
    assert Holds(t.host, m[t.host]);
    forall h | h in Shadow(t.zero)
      ensures Holds(h, Shadow(t.zero)[h])
    {
      assert Holds(h, m[h]);
    }
    forall h | h in Shadow(t.one)
      ensures Holds(h, Shadow(t.one)[h])
    {
      assert Holds(h, m[h]);
    }
  }

  lemma NodeHolds(t: Trie)
    requires t.Node? && Repr(Shadow(t.zero)) && Repr(Shadow(t.one))
             && Holds(t.host, Fields(t.bit, Ptr(t.zero), Ptr(t.one)))
    ensures Repr(Shadow(t))
  {
  }

  lemma NoBits(j: nat)
    ensures !BitCheck([], j)
  {
  }
}
