// How LSAs are taken apart, kept and put together again (rtrlsa.C, netlsa.C, summlsa.C, lsa.C, lsdb.C).

module LsaCodec {
  import opened Common
  import opened Fletcher
  import opened Instances

  // The memory from the header of a received LSA on. What lies beyond the LSA may be anything.
  type Memory = nat -> Byte

  function Bytes(mem: Memory, from: nat, to: nat): (s: seq<Byte>)
    requires from <= to
    ensures |s| == to - from && forall i :: 0 <= i < |s| ==> s[i] == mem(from + i)
  {
    seq(to - from, i requires 0 <= i < to - from => mem(from + i))
  }

  lemma BytesJoin(mem: Memory, a: nat, b: nat, c: nat)
    requires a <= b <= c
    ensures Bytes(mem, a, c) == Bytes(mem, a, b) + Bytes(mem, b, c)
  {
  }

  function Word16(mem: Memory, i: nat): nat {
    mem(i) as int * 0x100 + mem(i + 1) as int
  }

  function Word32(mem: Memory, i: nat): nat {
    Word16(mem, i) * 0x1_0000 + Word16(mem, i + 2)
  }

  function Put16(n: nat): seq<Byte> {
    [n / 0x100 % 0x100, n % 0x100]
  }

  function Put32(n: nat): seq<Byte> {
    Put16(n / 0x1_0000 % 0x1_0000) + Put16(n % 0x1_0000)
  }

  lemma Halves(a: nat, b: nat)
    requires a < 0x1_0000 && b < 0x1_0000
    ensures (a * 0x1_0000 + b) / 0x1_0000 % 0x1_0000 == a && (a * 0x1_0000 + b) % 0x1_0000 == b
  {
  }

  lemma Put16Word(mem: Memory, i: nat)
    ensures Put16(Word16(mem, i)) == Bytes(mem, i, i + 2) && Word16(mem, i) < 0x1_0000
  {
  }

  lemma Put32Word(mem: Memory, i: nat)
    ensures Put32(Word32(mem, i)) == Bytes(mem, i, i + 4)
  {
    Put16Word(mem, i);
    Put16Word(mem, i + 2);
    Halves(Word16(mem, i), Word16(mem, i + 2));
    BytesJoin(mem, i, i + 2, i + 4);
  }

  // ---- Bodies: offsets count from the header, which has 20 bytes; len is the length of the LSA

  const HEADER: nat := 20

  datatype Link = Link(ltype: Byte, id: nat, data: nat, cost: nat)

  // What parsing the links from offset p on gives; odd means that the body cannot be rebuilt from it.
  datatype Links = Links(links: seq<Link>, odd: bool, end: nat)

  function LinkAt(mem: Memory, p: nat): Link {
    Link(mem(p + 8), Word32(mem, p), Word32(mem, p + 4), Word16(mem, p + 10))
  }

  function ParseLinks(mem: Memory, len: nat, p: nat, n: nat): Links
    decreases n
  {
    if n == 0 then Links([], false, p)
    else if p > len then Links([], true, p)
    else
      var rest := ParseLinks(mem, len, p + 12 + 4 * mem(p + 9), n - 1);
      Links([LinkAt(mem, p)] + rest.links, rest.odd || mem(p + 9) != 0, rest.end)
  }

  // A router-LSA: router type, a zero, the number of links, and the links.
  function RouterOdd(mem: Memory, len: nat): bool {
    var ls := ParseLinks(mem, len, 24, Word16(mem, 22));
    mem(21) != 0 || ls.odd || ls.end != len
  }

  function LinkBytes(l: Link): (s: seq<Byte>)
    ensures |s| == 12
  {
    Put32(l.id) + Put32(l.data) + [l.ltype, 0] + Put16(l.cost)
  }

  function LinksBytes(ls: seq<Link>): (s: seq<Byte>)
    ensures |s| == 12 * |ls|
  {
    if ls == [] then [] else LinkBytes(ls[0]) + LinksBytes(ls[1..])
  }

  lemma LinkRebuilt(mem: Memory, p: nat)
    requires mem(p + 9) == 0
    ensures LinkBytes(LinkAt(mem, p)) == Bytes(mem, p, p + 12)
  {
    hide Put16, Put32, Word16, Word32;
    Put32Word(mem, p);
    Put32Word(mem, p + 4);
    Put16Word(mem, p + 10);
    BytesJoin(mem, p, p + 4, p + 8);
    BytesJoin(mem, p, p + 8, p + 10);
    BytesJoin(mem, p, p + 10, p + 12);
    assert Bytes(mem, p + 8, p + 10) == [mem(p + 8), mem(p + 9)];
  }

  lemma {:induction false} LinksRebuilt(mem: Memory, len: nat, p: nat, n: nat, r: Links)
    requires r == ParseLinks(mem, len, p, n) && !r.odd
    ensures |r.links| == n && r.end == p + 12 * n && LinksBytes(r.links) == Bytes(mem, p, r.end)
    decreases n
  {
    hide LinkBytes, LinkAt;
    if n > 0 {
      var rest := ParseLinks(mem, len, p + 12, n - 1);
      LinksRebuilt(mem, len, p + 12, n - 1, rest);
      LinkRebuilt(mem, p);
      BytesJoin(mem, p, p + 12, r.end);
      assert r.links[1..] == rest.links;
    }
  }

  // The links of a body that is not odd lie one after the other.
  lemma {:induction false} LinksAt(mem: Memory, len: nat, p: nat, n: nat, r: Links)
    requires r == ParseLinks(mem, len, p, n) && !r.odd
    ensures |r.links| == n && r.end == p + 12 * n
    ensures forall k :: 0 <= k < n ==> r.links[k] == LinkAt(mem, p + 12 * k) && mem(p + 12 * k + 9) == 0
    decreases n
  {
    hide LinkAt;
    if n > 0 {
      var rest := ParseLinks(mem, len, p + 12, n - 1);
      LinksAt(mem, len, p + 12, n - 1, rest);
      forall k | 0 <= k < n
        ensures r.links[k] == LinkAt(mem, p + 12 * k) && mem(p + 12 * k + 9) == 0
      {
        if k > 0 {
          assert r.links[k] == rest.links[k - 1] && p + 12 + 12 * (k - 1) == p + 12 * k;
        }
      }
    }
  }

  // No TOS metrics, and nothing missing.
  lemma {:induction false} LinksFit(mem: Memory, len: nat, p: nat, n: nat)
    requires len == p + 12 * n && forall k :: 0 <= k < n ==> mem(p + 12 * k + 9) == 0
    ensures !ParseLinks(mem, len, p, n).odd && ParseLinks(mem, len, p, n).end == len
    decreases n
  {
    hide LinkAt;
    if n > 0 {
      assert mem(p + 12 * 0 + 9) == 0;
      forall k | 0 <= k < n - 1
        ensures mem(p + 12 + 12 * k + 9) == 0
      {
        assert mem(p + 12 * (k + 1) + 9) == 0;
      }
      LinksFit(mem, len, p + 12, n - 1);
    }
  }

  // Exactly the router-LSAs with a zero after the type, links without TOS metrics and nothing behind them are not odd.
  lemma RouterOddExactly(mem: Memory, len: nat)
    ensures var n := Word16(mem, 22);
            !RouterOdd(mem, len) <==>
            mem(21) == 0 && len == 24 + 12 * n && forall k :: 0 <= k < n ==> mem(24 + 12 * k + 9) == 0
  {
    hide Word16, ParseLinks;
    var n := Word16(mem, 22);
    if !RouterOdd(mem, len) {
      LinksAt(mem, len, 24, n, ParseLinks(mem, len, 24, n));
    } else if len == 24 + 12 * n && forall k :: 0 <= k < n ==> mem(24 + 12 * k + 9) == 0 {
      LinksFit(mem, len, 24, n);
    }
  }

  function RouterBytes(rtype: Byte, n: nat, links: seq<Link>): seq<Byte> {
    [rtype, 0] + Put16(n) + LinksBytes(links)
  }

  // A router-LSA that is not odd is rebuilt from its links.
  lemma RouterRebuilt(mem: Memory, len: nat, n: nat, ls: Links)
    requires n == Word16(mem, 22) && ls == ParseLinks(mem, len, 24, n) && !RouterOdd(mem, len)
    ensures len >= 24 && RouterBytes(mem(20), n, ls.links) == Bytes(mem, HEADER, len)
  {
    hide Put16, Word16, ParseLinks, LinksBytes;
    LinksRebuilt(mem, len, 24, n, ls);
    Put16Word(mem, 22);
    BytesJoin(mem, 20, 22, 24);
    BytesJoin(mem, 20, 24, len);
    assert Bytes(mem, 20, 22) == [mem(20), mem(21)];
  }

  // A network-LSA: the mask, and router IDs as long as there are four bytes left.
  function ParseIds(mem: Memory, p: nat, left: int): seq<nat>
    decreases left
  {
    if left < 4 then [] else [Word32(mem, p)] + ParseIds(mem, p + 4, left - 4)
  }

  lemma {:induction false} IdsAt(mem: Memory, p: nat, left: int)
    ensures var ids := ParseIds(mem, p, left);
            && |ids| == (if left < 0 then 0 else left / 4)
            && forall k :: 0 <= k < |ids| ==> ids[k] == Word32(mem, p + 4 * k)
    decreases left
  {
    hide Word32;
    if left >= 4 {
      IdsAt(mem, p + 4, left - 4);
      var ids, rest := ParseIds(mem, p, left), ParseIds(mem, p + 4, left - 4);
      forall k | 0 <= k < |ids|
        ensures ids[k] == Word32(mem, p + 4 * k)
      {
        if k > 0 {
          assert ids[k] == rest[k - 1] && p + 4 + 4 * (k - 1) == p + 4 * k;
        }
      }
    }
  }

  function NetOdd(len: nat): bool {
    len < 24 || (len - 24) % 4 != 0
  }

  function IdsBytes(ids: seq<nat>): (s: seq<Byte>)
    ensures |s| == 4 * |ids|
  {
    if ids == [] then [] else Put32(ids[0]) + IdsBytes(ids[1..])
  }

  lemma {:induction false} IdsRebuilt(mem: Memory, p: nat, left: nat, ids: seq<nat>)
    requires ids == ParseIds(mem, p, left) && left % 4 == 0
    ensures IdsBytes(ids) == Bytes(mem, p, p + left)
    decreases left
  {
    hide Put32, Word32;
    if left > 0 {
      IdsRebuilt(mem, p + 4, left - 4, ids[1..]);
      Put32Word(mem, p);
      BytesJoin(mem, p, p + 4, p + left);
    }
  }

  lemma NetLong(len: nat)
    requires !NetOdd(len)
    ensures len >= 24
  {
  }

  lemma NetRebuilt(mem: Memory, len: nat, ids: seq<nat>)
    requires !NetOdd(len) && ids == ParseIds(mem, 24, len - 24)
    ensures Put32(Word32(mem, 20)) + IdsBytes(ids) == Bytes(mem, HEADER, len)
  {
    hide Put32, Word32, ParseIds, IdsBytes;
    IdsRebuilt(mem, 24, len - 24, ids);
    Put32Word(mem, 20);
    BytesJoin(mem, 20, 24, len);
  }

  // A summary-LSA: the mask, and a metric of 24 bits.
  const INFINITY: nat := 0xff_ffff

  function SummOdd(mem: Memory, len: nat): bool {
    Word32(mem, 24) > INFINITY || len != 28
  }

  lemma SummRebuilt(mem: Memory, len: nat)
    requires !SummOdd(mem, len)
    ensures Put32(Word32(mem, 20)) + Put32(Word32(mem, 24) % (INFINITY + 1)) == Bytes(mem, HEADER, len)
  {
    hide Put32, Word32;
    Put32Word(mem, 20);
    Put32Word(mem, 24);
    BytesJoin(mem, 20, 24, 28);
  }

  // ---- The link nodes of an LSA, in order

  class LinkNode {
    var ltype: Byte
    var id: nat
    var data: nat
    var cost: nat

    constructor ()
    {
      ltype, id, data, cost := 0, 0, 0, 0;
    }

    function Value(): Link
      reads this
    {
      Link(ltype, id, data, cost)
    }

    method Fill(l: Link)
      modifies this
      ensures Value() == l
    {
      ltype, id, data, cost := l.ltype, l.id, l.data, l.cost;
    }
  }

  ghost predicate Distinct(ns: seq<LinkNode>) {
    forall i, j :: 0 <= i < j < |ns| ==> ns[i] != ns[j]
  }

  function Values(ns: seq<LinkNode>): (s: seq<Link>)
    reads set n | n in ns
    ensures |s| == |ns| && forall i :: 0 <= i < |ns| ==> s[i] == ns[i].Value()
  {
    if ns == [] then [] else Values(ns[..|ns| - 1]) + [ns[|ns| - 1].Value()]
  }

  function Ids(ls: seq<Link>): (s: seq<nat>)
    ensures |s| == |ls| && forall k :: 0 <= k < |ls| ==> s[k] == ls[k].id
  {
    if ls == [] then [] else Ids(ls[..|ls| - 1]) + [ls[|ls| - 1].id]
  }

  // The node for the next link: the one at this place if it has the right type, or a new one.
  method NodeAt(ns: seq<LinkNode>, i: nat, l: Link, anyType: bool) returns (ms: seq<LinkNode>)
    requires i <= |ns| && Distinct(ns)
    modifies set n | n in ns
    ensures |ms| > i && Distinct(ms) && Values(ms[..i + 1]) == old(Values(ns[..i])) + [l]
    ensures forall n :: n in ms ==> n in ns || fresh(n)
  {
    hide Values;
    ghost var vals := Values(ns[..i]);
    if i < |ns| && (anyType || ns[i].ltype == l.ltype) {
      ms := ns;
    } else {
      var node := new LinkNode();
      ms := ns[..i] + [node] + (if anyType then [] else ns[i..]);
      assert ms[i] == node;
    }
    assert ms[..i] == ns[..i];
    OthersThan(ms, i);
    label Found:
    ms[i].Fill(l);
    assert Values(ns[..i]) == vals;
    ValuesKept(ns[..i], ms, i);
  }

  lemma OthersThan(ms: seq<LinkNode>, i: nat)
    requires Distinct(ms) && i < |ms|
    ensures ms[i] !in ms[..i]
  {
  }

  lemma ValuesKept(ns: seq<LinkNode>, ms: seq<LinkNode>, i: nat)
    requires i < |ms| && ms[..i] == ns
    ensures Values(ms[..i + 1]) == Values(ns) + [ms[i].Value()]
  {
    assert ms[..i + 1][..i] == ns;
  }

  lemma NoValues(ns: seq<LinkNode>)
    ensures Values(ns[..0]) == [] && Ids([]) == []
  {
  }

  // Router links from offset p on, into the nodes.
  method ParseRouterLinks(mem: Memory, len: nat, n: nat, old0: seq<LinkNode>)
          returns (ns: seq<LinkNode>, odd: bool, end: nat)
    requires Distinct(old0)
    modifies set x | x in old0
    ensures Distinct(ns) && Links(Values(ns), odd, end) == ParseLinks(mem, len, 24, n)
    ensures forall x :: x in ns ==> x in old0 || fresh(x)
  {
    hide LinkAt, Values, ParseLinks, Distinct;
    var i: nat, p: nat, all := 0, 24, old0;
    odd := false;
    ghost var total := ParseLinks(mem, len, 24, n);
    NoValues(all);
    while i < n && p <= len
      invariant i <= n && i <= |all| && Distinct(all) && forall x :: x in all ==> x in old0 || fresh(x)
      invariant total == Joined(Values(all[..i]), odd, ParseLinks(mem, len, p, n - i))
      decreases n - i
    {
      JoinedStep(Values(all[..i]), odd, mem, len, p, n - i);
      all := NodeAt(all, i, LinkAt(mem, p), false);
      if mem(p + 9) != 0 {
        odd := true;
      }
      p := p + 12 + 4 * mem(p + 9);
      i := i + 1;
    }
    if i < n {
      odd := true;
    }
    JoinedEnd(Values(all[..i]), mem, len, p, n - i);
    PartDistinct(all, i);
    ns, end := all[..i], p;
  }

  function Joined(before: seq<Link>, odd: bool, r: Links): Links {
    Links(before + r.links, odd || r.odd, r.end)
  }

  lemma JoinedStep(before: seq<Link>, odd: bool, mem: Memory, len: nat, p: nat, n: nat)
    requires n > 0 && p <= len
    ensures Joined(before, odd, ParseLinks(mem, len, p, n)) ==
            Joined(before + [LinkAt(mem, p)], odd || mem(p + 9) != 0,
                ParseLinks(mem, len, p + 12 + 4 * mem(p + 9), n - 1))
  {
    var rest := ParseLinks(mem, len, p + 12 + 4 * mem(p + 9), n - 1);
    assert before + ([LinkAt(mem, p)] + rest.links) == (before + [LinkAt(mem, p)]) + rest.links;
  }

  lemma JoinedEnd(before: seq<Link>, mem: Memory, len: nat, p: nat, n: nat)
    requires n == 0 || p > len
    ensures ParseLinks(mem, len, p, n) == Links([], n > 0, p) && before + [] == before
  {
  }

  lemma PartDistinct(ns: seq<LinkNode>, i: nat)
    requires Distinct(ns) && i <= |ns|
    ensures Distinct(ns[..i]) && forall x :: x in ns[..i] ==> x in ns
  {
  }

  const LT_PP: Byte := 1

  // The router IDs of a network-LSA, into the nodes.
  method ParseNetIds(mem: Memory, len: nat, old0: seq<LinkNode>) returns (ns: seq<LinkNode>, left: int)
    requires Distinct(old0)
    modifies set x | x in old0
    ensures Distinct(ns) && Ids(Values(ns)) == ParseIds(mem, 24, len - 24) && (left != 0 <==> NetOdd(len))
    ensures forall l :: l in Values(ns) ==> l.ltype == LT_PP && l.cost == 0
    ensures forall x :: x in ns ==> x in old0 || fresh(x)
  {
    hide Word32, Values, ParseIds, Ids, Distinct;
    var i: nat, p: nat, all := 0, 24, old0;
    left := len - 24;
    ghost var total := ParseIds(mem, 24, left);
    NoValues(all);
    while left >= 4
      invariant i <= |all| && Distinct(all) && forall x :: x in all ==> x in old0 || fresh(x)
      invariant total == Ids(Values(all[..i])) + ParseIds(mem, p, left)
      invariant forall l :: l in Values(all[..i]) ==> l.ltype == LT_PP && l.cost == 0
      invariant left == len - p && p % 4 == 0 && p >= 24 && (left < 0 ==> p == 24)
      decreases left
    {
      var l := Link(LT_PP, Word32(mem, p), if i < |all| then all[i].data else 0, 0);
      IdsStep(Values(all[..i]), l, mem, p, left);
      all := NodeAt(all, i, l, true);
      left := left - 4;
      p := p + 4;
      i := i + 1;
    }
    NoIds(mem, p, left);
    PartDistinct(all, i);
    ns := all[..i];
  }

  lemma IdsStep(ls: seq<Link>, l: Link, mem: Memory, p: nat, left: int)
    requires left >= 4 && l.id == Word32(mem, p)
    ensures Ids(ls) + ParseIds(mem, p, left) == Ids(ls + [l]) + ParseIds(mem, p + 4, left - 4)
  {
    assert (ls + [l])[..|ls|] == ls;
    assert Ids(ls) + ([l.id] + ParseIds(mem, p + 4, left - 4)) == (Ids(ls) + [l.id]) + ParseIds(mem, p + 4, left - 4);
  }

  lemma NoIds(mem: Memory, p: nat, left: int)
    requires left < 4
    ensures ParseIds(mem, p, left) == []
  {
  }

  // ---- Building into a buffer

  // buf holds s from i on.
  ghost predicate Holds(buf: array<Byte>, i: nat, s: seq<Byte>)
    reads buf
  {
    i + |s| <= buf.Length && buf[i..i + |s|] == s
  }

  method Write(buf: array<Byte>, i: nat, s: seq<Byte>, ghost before: seq<Byte>)
    requires i + |s| <= buf.Length && |before| == i && Holds(buf, 0, before)
    modifies buf
    ensures Holds(buf, 0, before + s)
  {
    for k := 0 to |s|
      invariant Holds(buf, 0, before + s[..k])
    {
      buf[i + k] := s[k];
      assert before + s[..k + 1] == (before + s[..k]) + [s[k]];
    }
    assert s[..|s|] == s;
  }

  lemma {:induction false} LinksBytesSnoc(ls: seq<Link>, l: Link)
    ensures LinksBytes(ls + [l]) == LinksBytes(ls) + LinkBytes(l)
  {
    hide LinkBytes;
    if ls == [] {
      assert ls + [l] == [l];
      assert LinksBytes([l]) == LinkBytes(l) + LinksBytes([]);
    } else {
      assert (ls + [l])[1..] == ls[1..] + [l];
      LinksBytesSnoc(ls[1..], l);
    }
  }

  lemma {:induction false} IdsBytesSnoc(ids: seq<nat>, id: nat)
    ensures IdsBytes(ids + [id]) == IdsBytes(ids) + Put32(id)
  {
    hide Put32;
    if ids == [] {
      assert ids + [id] == [id];
      assert IdsBytes([id]) == Put32(id) + IdsBytes([]);
    } else {
      assert (ids + [id])[1..] == ids[1..] + [id];
      IdsBytesSnoc(ids[1..], id);
    }
  }

  method BuildLinks(buf: array<Byte>, ns: seq<LinkNode>, ghost before: seq<Byte>)
    requires |before| == 24 && 24 + 12 * |ns| <= buf.Length && Holds(buf, 0, before)
    modifies buf
    ensures Holds(buf, 0, before + LinksBytes(Values(ns)))
  {
    hide LinkBytes, Values, Holds;
    NoValues(ns);
    assert before + LinksBytes([]) == before;
    for k := 0 to |ns|
      invariant Holds(buf, 0, before + LinksBytes(Values(ns[..k])))
    {
      ghost var done := LinksBytes(Values(ns[..k]));
      LinksBytesSnoc(Values(ns[..k]), ns[k].Value());
      ValuesKept(ns[..k], ns, k);
      Write(buf, 24 + 12 * k, LinkBytes(ns[k].Value()), before + done);
      assert (before + done) + LinkBytes(ns[k].Value()) == before + (done + LinkBytes(ns[k].Value()));
    }
    assert ns[..|ns|] == ns;
  }

  method BuildIds(buf: array<Byte>, ns: seq<LinkNode>, ghost before: seq<Byte>)
    requires |before| == 24 && 24 + 4 * |ns| <= buf.Length && Holds(buf, 0, before)
    modifies buf
    ensures Holds(buf, 0, before + IdsBytes(Ids(Values(ns))))
  {
    hide Put32, Values, Ids, Holds;
    NoValues(ns);
    assert before + IdsBytes([]) == before;
    for k := 0 to |ns|
      invariant Holds(buf, 0, before + IdsBytes(Ids(Values(ns[..k]))))
    {
      ghost var ids := Ids(Values(ns[..k]));
      ghost var done := IdsBytes(ids);
      ValuesKept(ns[..k], ns, k);
      IdsSnoc(Values(ns[..k]), ns[k].Value());
      IdsBytesSnoc(ids, ns[k].id);
      Write(buf, 24 + 4 * k, Put32(ns[k].id), before + done);
      assert (before + done) + Put32(ns[k].id) == before + (done + Put32(ns[k].id));
    }
    assert ns[..|ns|] == ns;
  }

  lemma IdsSnoc(ls: seq<Link>, l: Link)
    ensures Ids(ls + [l]) == Ids(ls) + [l.id]
  {
    assert (ls + [l])[..|ls|] == ls;
  }

  // ---- An LSA in the database

  const LST_RTR: Byte := 1
  const LST_NET: Byte := 2
  const LST_SUMM: Byte := 3

  class Lsa {
    const lsType: Byte
    const lsId: nat
    const advRtr: nat
    var rcvage: nat
    var opts: Byte
    var seqno: nat
    var xsum: nat
    var length: nat
    var parsed: bool
    var odd: bool                // exception: the body is kept as received
    var body: seq<Byte>
    var rtype: Byte              // of a router-LSA
    var nLinks: nat
    var links: seq<LinkNode>     // of a router- or network-LSA
    var mask: nat                // of a network- or summary-LSA, kept in its routing table entry
    var cost: nat                // of a summary-LSA
    ghost var original: seq<Byte>  // the LSA as it was received last

    function Header(age: nat): (h: seq<Byte>)
      reads this
      ensures |h| == 20
    {
      Put16(age) + [opts, lsType] + Put32(lsId) + Put32(advRtr) + Put32(seqno) + Put16(xsum) + Put16(length)
    }

    // What is stored of the body.
    ghost function Body(): seq<Byte>
      reads `odd, `body, `rtype, `nLinks, `links, `mask, `cost, set n | n in links
    {
      if odd then body
      else if lsType == LST_RTR then RouterBytes(rtype, nLinks, Values(links))
      else if lsType == LST_NET then Put32(mask) + IdsBytes(Ids(Values(links)))
      else Put32(mask) + Put32(cost)
    }

    // Everything received but the age can be rebuilt.
    ghost predicate Valid()
      reads this, set n | n in links
    {
      && Distinct(links) && |original| == length && length >= 20
           && (lsType == LST_RTR || lsType == LST_NET || lsType == LST_SUMM)
      && Header(0)[2..] == original[2..20] && Body() == original[20..]
    }

    // The body cannot be rebuilt from what parsing it gives.
    predicate OddBody(mem: Memory)
      reads `length
    {
      if lsType == LST_RTR then RouterOdd(mem, length)
      else if lsType == LST_NET then NetOdd(length)
      else SummOdd(mem, length)
    }

    // The fields hold what a body that is not odd says.
    ghost predicate Reads(mem: Memory)
      reads `length, `rtype, `nLinks, `links, `mask, `cost, set n | n in links
    {
      if lsType == LST_RTR then
        && rtype == mem(20) && nLinks == |links| == Word16(mem, 22)
        && forall k :: 0 <= k < |links| ==> links[k].Value() == LinkAt(mem, 24 + 12 * k)
      else if lsType == LST_NET then
        && mask == Word32(mem, 20) && 24 + 4 * |links| == length
        && forall k :: 0 <= k < |links| ==> links[k].ltype == LT_PP && links[k].id == Word32(mem, 24 + 4 * k)
                                            && links[k].cost == 0
      else
        mask == Word32(mem, 20) && cost == Word32(mem, 24)
    }

    // A live LSA has been taken apart; one of age MaxAge, or with something odd about it, is kept as received.
    ghost predicate TakenApart(mem: Memory)
      reads `parsed, `rcvage, `odd, `length, `rtype, `nLinks, `links, `mask, `cost, set n | n in links
    {
      && (parsed <==> rcvage != MAX_AGE)
      && (odd <==> rcvage == MAX_AGE || OddBody(mem))
      && (parsed && lsType == LST_RTR ==> Values(links) == ParseLinks(mem, length, 24, Word16(mem, 22)).links)
      && (!odd ==> Reads(mem))
    }

    // What the body says, when it has been put into the fields.
    lemma NowReads(mem: Memory)
      requires !OddBody(mem)
      requires lsType == LST_RTR ==> rtype == mem(20) && nLinks == Word16(mem, 22)
                                     && Values(links) == ParseLinks(mem, length, 24, Word16(mem, 22)).links
      requires lsType == LST_NET ==> mask == Word32(mem, 20) && Ids(Values(links)) == ParseIds(mem, 24, length - 24)
                                     && forall l :: l in Values(links) ==> l.ltype == LT_PP && l.cost == 0
      requires lsType != LST_RTR && lsType != LST_NET ==>
                 mask == Word32(mem, 20) && cost == Word32(mem, 24) % (INFINITY + 1)
      ensures Reads(mem)
    {
      hide Word16, Word32, LinkAt, ParseLinks, ParseIds;
      if lsType == LST_RTR {
        LinksAt(mem, length, 24, Word16(mem, 22), ParseLinks(mem, length, 24, Word16(mem, 22)));
      } else if lsType == LST_NET {
        IdsAt(mem, 24, length - 24);
        assert forall k :: 0 <= k < |links| ==> Values(links)[k] in Values(links);
        assert forall k :: 0 <= k < |links| ==> links[k].id == Ids(Values(links))[k];
      }
    }

    // hdr_parse.
    method HdrParse(mem: Memory)
      requires mem(3) == lsType && Word32(mem, 4) == lsId && Word32(mem, 8) == advRtr
      modifies `rcvage, `opts, `seqno, `xsum, `length
      ensures Header(0)[2..] == Bytes(mem, 2, 20) && length == Word16(mem, 18)
      ensures rcvage == if Word16(mem, 0) % DO_NOT_AGE >= MAX_AGE then MAX_AGE else Word16(mem, 0)
    {
      hide Put16, Put32, Word16, Word32, Bytes;
      rcvage := Word16(mem, 0);
      if rcvage % DO_NOT_AGE >= MAX_AGE {
        rcvage := MAX_AGE;
      }
      opts, seqno, xsum, length := mem(2), Word32(mem, 12), Word16(mem, 16), Word16(mem, 18);
      HeaderRebuilt(mem);
      HeaderTail();
    }

    lemma HeaderTail()
      ensures Header(0)[2..] ==
              [opts, lsType] + Put32(lsId) + Put32(advRtr) + Put32(seqno) + Put16(xsum) + Put16(length)
    {
      hide Put32;
      TailOf(Put16(0), [opts, lsType], Put32(lsId), Put32(advRtr), Put32(seqno), Put16(xsum), Put16(length));
    }

    // The type-specific parse.
    method ParseRtr(mem: Memory)
      requires Distinct(links) && lsType == LST_RTR
      modifies `rtype, `nLinks, `links, `odd, set n | n in links
      ensures Distinct(links) && (odd <==> old(odd) || RouterOdd(mem, length))
      ensures rtype == mem(20) && nLinks == Word16(mem, 22)
      ensures Values(links) == ParseLinks(mem, length, 24, Word16(mem, 22)).links
      ensures forall n :: n in links ==> n in old(links) || fresh(n)
    {
      hide ParseLinks, Values, Word16, Distinct;
      rtype, nLinks := mem(20), Word16(mem, 22);
      var strange, end;
      links, strange, end := ParseRouterLinks(mem, length, nLinks, links);
      odd := odd || mem(21) != 0 || strange || end != length;
    }

    method ParseNet(mem: Memory)
      requires Distinct(links) && lsType == LST_NET
      modifies `mask, `links, `odd, set n | n in links
      ensures Distinct(links) && (odd <==> old(odd) || NetOdd(length))
      ensures mask == Word32(mem, 20) && Ids(Values(links)) == ParseIds(mem, 24, length - 24)
      ensures forall l :: l in Values(links) ==> l.ltype == LT_PP && l.cost == 0
      ensures forall n :: n in links ==> n in old(links) || fresh(n)
    {
      hide ParseIds, Values, Ids, Word32, Distinct, NetOdd;
      mask := Word32(mem, 20);
      var left;
      links, left := ParseNetIds(mem, length, links);
      odd := odd || left != 0;
    }

    method ParseSumm(mem: Memory)
      modifies `mask, `cost, `odd
      ensures odd <==> old(odd) || SummOdd(mem, length)
      ensures mask == Word32(mem, 20) && cost == Word32(mem, 24) % (INFINITY + 1)
    {
      hide Word32;
      mask, cost := Word32(mem, 20), Word32(mem, 24) % (INFINITY + 1);
      odd := odd || Word32(mem, 24) > INFINITY || length != 28;
    }

    method Parse(mem: Memory)
      requires Distinct(links) && length >= 20
      modifies `rtype, `nLinks, `mask, `cost, `links, `odd, set n | n in links
      ensures Distinct(links) && (!odd ==> Body() == Bytes(mem, HEADER, length))
      ensures odd <==> old(odd) || OddBody(mem)
      ensures !OddBody(mem) ==> Reads(mem)
      ensures lsType == LST_RTR ==> Values(links) == ParseLinks(mem, length, 24, Word16(mem, 22)).links
      ensures forall n :: n in links ==> n in old(links) || fresh(n)
    {
      hide ParseLinks, ParseIds, Values, RouterBytes, IdsBytes, Put32, Word32, Word16, Distinct, Reads, RouterOdd,
           NetOdd, SummOdd;
      if lsType == LST_RTR {
        ParseRtr(mem);
        if !odd {
          RouterRebuilt(mem, length, nLinks, ParseLinks(mem, length, 24, nLinks));
        }
      } else if lsType == LST_NET {
        ParseNet(mem);
        if !odd {
          NetLong(length);
          NetRebuilt(mem, length, Ids(Values(links)));
        }
      } else {
        ParseSumm(mem);
        if !odd {
          SummRebuilt(mem, length);
        }
      }
      if !OddBody(mem) {
        NowReads(mem);
      }
    }

    // Takes an LSA apart, or keeps its body as it is: one of age MaxAge, or with something odd about it.
    method ParseLsa(mem: Memory)
      requires Distinct(links) && length >= 20 && !parsed
      modifies this, set n | n in links
      ensures rcvage == old(rcvage) && opts == old(opts) && seqno == old(seqno) && xsum == old(xsum)
              && length == old(length)
      ensures Distinct(links) && Body() == Bytes(mem, HEADER, length) && original == old(original)
      ensures TakenApart(mem)
      ensures forall n :: n in links ==> n in old(links) || fresh(n)
    {
      hide RouterBytes, IdsBytes, Put32, Values, Distinct, Reads, OddBody, ParseLinks;
      if rcvage != MAX_AGE {
        odd := false;
        parsed := true;
        Parse(mem);
      } else {
        odd := true;
      }
      body := [];
      if odd {
        body := Bytes(mem, HEADER, length);
      }
    }

    constructor (mem: Memory)
      requires LST_RTR <= mem(3) <= LST_SUMM && Word16(mem, 18) >= 20
      ensures Valid() && original == Bytes(mem, 0, Word16(mem, 18)) && fresh(set n | n in links)
      ensures lsType == mem(3) && lsId == Word32(mem, 4) && advRtr == Word32(mem, 8) && TakenApart(mem)
    {
      hide Word16, Word32, RouterBytes, IdsBytes, Put32, Put16, Values, Body, TakenApart;
      lsType, lsId, advRtr := mem(3), Word32(mem, 4), Word32(mem, 8);
      rcvage, opts, seqno, xsum, length, parsed, odd, body := 0, 0, 0, 0, 20, false, false, [];
      rtype, nLinks, links, mask, cost := 0, 0, [], 0, 0;
      new;
      HdrParse(mem);
      ParseLsa(mem);
      original := Bytes(mem, 0, length);
    }

    // Replaces the LSA in place by an instance with other contents.
    method Replace(mem: Memory)
      requires Distinct(links) && mem(3) == lsType && Word32(mem, 4) == lsId && Word32(mem, 8) == advRtr
               && Word16(mem, 18) >= 20
      requires lsType == LST_RTR || lsType == LST_NET || lsType == LST_SUMM
      modifies this, set n | n in links
      ensures Valid() && original == Bytes(mem, 0, Word16(mem, 18)) && TakenApart(mem)
      ensures forall n :: n in links ==> n in old(links) || fresh(n)
    {
      hide Word16, Word32, RouterBytes, IdsBytes, Put32, Put16, Values, Distinct, Body, TakenApart;
      parsed := false;
      HdrParse(mem);
      ParseLsa(mem);
      original := Bytes(mem, 0, length);
    }

    // A refresh with the same contents only changes the header.
    method Refresh(mem: Memory)
      requires Valid() && mem(3) == lsType && Word32(mem, 4) == lsId && Word32(mem, 8) == advRtr
               && Word16(mem, 18) == length
      requires Bytes(mem, HEADER, length) == original[20..]
      modifies `rcvage, `opts, `seqno, `xsum, `length, `original
      ensures Valid() && original == Bytes(mem, 0, Word16(mem, 18))
    {
      hide Word16, Word32, RouterBytes, IdsBytes, Put32, Put16, Values, Distinct, Body;
      HdrParse(mem);
      original := Bytes(mem, 0, length);
    }

    // The LSA as it goes out, with its present age.
    method BuildLsa(age: nat) returns (buf: array<Byte>)
      requires Valid()
      ensures fresh(buf) && buf[..] == Put16(age) + original[2..]
    {
      hide RouterBytes, IdsBytes, Put32, Put16, Values, Header, Holds, Valid;
      ValidLength();
      buf := new Byte[length](_ => 0);
      ghost var h := Header(age);
      ghost var b := Body();
      Whole(age, h);
      NothingHeld(buf);
      Write(buf, 0, Header(age), []);
      assert [] + h == h;
      if odd {
        Write(buf, 20, body, h);
      } else {
        Build(buf, h);
      }
      assert Body() == b;
      AllHeld(buf, h + b);
    }

    // A received instance says the same as this one, at its present age.
    ghost predicate SameAs(mem: Memory, age: nat)
      requires Valid()
      reads this, set n | n in links
    {
      && (AgeOf(Word16(mem, 0)) == MAX_AGE <==> AgeOf(age) == MAX_AGE)
      && mem(2) == opts && Word16(mem, 18) == length && Bytes(mem, HEADER, length) == original[20..]
    }

    // Whether a received instance differs from this one: cmp_contents. Two ages differ only when one is MaxAge.
    method CmpContents(mem: Memory, age: nat) returns (changed: bool)
      requires Valid()
      ensures !changed <==> SameAs(mem, age)
    {
      hide Valid, Put16, Word16;
      ValidLength();
      var dbcopy := BuildLsa(age);
      var rcvd, db := AgeOf(Word16(mem, 0)), AgeOf(age);
      if rcvd != db && (rcvd == MAX_AGE || db == MAX_AGE) {
        return true;
      }
      if mem(2) != opts || Word16(mem, 18) != length {
        return true;
      }
      Put16Long(age);
      for k := 20 to length
        invariant forall i :: 20 <= i < k ==> mem(i) == original[i]
      {
        assert dbcopy[..][k] == original[2..][k - 2];
        if mem(k) != dbcopy[k] {
          assert Bytes(mem, HEADER, length)[k - 20] != original[20..][k - 20];
          return true;
        }
      }
      return false;
    }

    lemma ValidLength()
      requires Valid()
      ensures |original| == length >= 20
    {
    }

    // The object is no longer the database copy, which changes nothing it holds.
    method UnParse()
      requires Valid()
      modifies `parsed
      ensures Valid() && !parsed
    {
      hide Put16, Put32, RouterBytes, IdsBytes, Values, Ids, Distinct;
      parsed := false;
    }

    // A more recent instance of this LSA takes its place: in the same object when nothing refers to it, in a new one
    // otherwise. Then the old object still holds what it held.
    method Update(mem: Memory, age: nat, referenced: bool) returns (lsa: Lsa)
      requires Valid() && mem(3) == lsType && Word32(mem, 4) == lsId && Word32(mem, 8) == advRtr
               && Word16(mem, 18) >= 20
      modifies this, set n | n in links
      ensures lsa.Valid() && lsa.original == Bytes(mem, 0, Word16(mem, 18))
      ensures lsa.lsType == lsType && lsa.lsId == lsId && lsa.advRtr == advRtr
      ensures if referenced then fresh(lsa) && Valid() && original == old(original) && !parsed else lsa == this
      ensures referenced || !old(SameAs(mem, age)) ==> lsa.TakenApart(mem)
      ensures !referenced && old(SameAs(mem, age)) ==>
                parsed == old(parsed) && odd == old(odd) && Body() == old(Body()) && links == old(links)
    {
      hide Word16, Word32, Body, Header;
      lsa := this;
      var changed := CmpContents(mem, age);
      if referenced {
        lsa := new Lsa(mem);
        UnParse();
      } else if changed {
        Replace(mem);
      } else {
        Refresh(mem);
      }
    }

    // The type-specific build.
    method Build(buf: array<Byte>, ghost h: seq<Byte>)
      requires !odd && |h| == 20 && buf.Length == 20 + |Body()| && Holds(buf, 0, h)
      modifies buf
      ensures Holds(buf, 0, h + Body())
    {
      hide IdsBytes, LinksBytes, Put32, Put16, Values, Ids, Holds;
      BodyLengths();
      if lsType == LST_RTR {
        ghost var top := [rtype, 0] + Put16(nLinks);
        Write(buf, 20, [rtype, 0] + Put16(nLinks), h);
        BuildLinks(buf, links, h + top);
        assert (h + top) + LinksBytes(Values(links)) == h + (top + LinksBytes(Values(links)));
      } else if lsType == LST_NET {
        Write(buf, 20, Put32(mask), h);
        BuildIds(buf, links, h + Put32(mask));
        assert (h + Put32(mask)) + IdsBytes(Ids(Values(links))) == h + (Put32(mask) + IdsBytes(Ids(Values(links))));
      } else {
        Write(buf, 20, Put32(mask) + Put32(cost), h);
      }
    }

    lemma BodyLengths()
      ensures !odd && lsType == LST_RTR ==> |Body()| == 4 + 12 * |links|
      ensures !odd && lsType == LST_NET ==> |Body()| == 4 + 4 * |links|
      ensures |Put32(mask)| == 4 && |Put32(cost)| == 4 && |Put16(nLinks)| == 2
    {
      hide LinksBytes, IdsBytes, Values, Ids;
    }

    lemma HeaderSplit(age: nat)
      ensures Header(age) == Put16(age) + Header(0)[2..]
    {
      hide Put32;
    }

    lemma Whole(age: nat, h: seq<Byte>)
      requires Valid() && h == Header(age)
      ensures |h| == 20 && h + Body() == Put16(age) + original[2..] && |h + Body()| == length
    {
      hide Put16, Put32, Body, Header, Distinct;
      HeaderSplit(age);
      Parts(Put16(age), original);
    }
  }

  lemma Parts(a: seq<Byte>, s: seq<Byte>)
    requires |s| >= 20
    ensures (a + s[2..20]) + s[20..] == a + s[2..]
  {
    assert s[2..20] + s[20..] == s[2..];
  }

  lemma TailOf(a: seq<Byte>, b: seq<Byte>, c: seq<Byte>, d: seq<Byte>, e: seq<Byte>, f: seq<Byte>, g: seq<Byte>)
    ensures (a + b + c + d + e + f + g)[|a|..] == b + c + d + e + f + g
  {
  }

  lemma Put16Long(n: nat)
    ensures |Put16(n)| == 2
  {
  }

  lemma NothingHeld(buf: array<Byte>)
    ensures Holds(buf, 0, [])
  {
  }

  lemma AllHeld(buf: array<Byte>, s: seq<Byte>)
    requires Holds(buf, 0, s) && |s| == buf.Length
    ensures buf[..] == s
  {
  }

  lemma HeaderRebuilt(mem: Memory)
    ensures [mem(2), mem(3)] + Put32(Word32(mem, 4)) + Put32(Word32(mem, 8)) + Put32(Word32(mem, 12)) +
            Put16(Word16(mem, 16)) + Put16(Word16(mem, 18)) == Bytes(mem, 2, 20)
  {
    hide Put32, Put16, Word16, Word32;
    Put32Word(mem, 4);
    Put32Word(mem, 8);
    Put32Word(mem, 12);
    Put16Word(mem, 16);
    Put16Word(mem, 18);
    BytesJoin(mem, 2, 4, 8);
    BytesJoin(mem, 2, 8, 12);
    BytesJoin(mem, 2, 12, 16);
    BytesJoin(mem, 2, 16, 18);
    BytesJoin(mem, 2, 18, 20);
    assert Bytes(mem, 2, 4) == [mem(2), mem(3)];
  }

  // ---- What it is for

  // Whatever an accepted LSA contains, it comes out as it came in, but for the age; so one that passed the
  // checksum passes it again when the database is checked.
  method CheckAges(lsa: Lsa, age: nat) returns (ok: bool)
    requires lsa.Valid() && WellFormed(lsa.original) && LsLength(lsa.original) == |lsa.original|
    ensures ok <==> Good(lsa.original)
  {
    hide Verified;
    var hdr := lsa.BuildLsa(age);
    OutAsIn(hdr[..], lsa.original);
    ok := VerifyCksum(hdr);
  }

  lemma OutAsIn(out: seq<Byte>, original: seq<Byte>)
    requires WellFormed(original) && |out| == |original| && out[2..] == original[2..]
    ensures WellFormed(out) && (Good(out) <==> Good(original))
  {
    hide Verified;
    assert forall i :: 2 <= i < |out| ==> out[i] == out[2..][i - 2] && original[i] == original[2..][i - 2];
    var n := LsLength(original);
    assert out[2..n] == original[2..n];
  }
}
