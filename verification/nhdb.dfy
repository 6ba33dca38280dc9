// The database of next hops (MPath::create in rte.C): one object for each padded array of next hops, found by its
// bytes in a Patricia tree.

module NextHopTable {
  import opened Patricia
  import opened MultiPath

  const NH_SIZE := 12

  // A next hop as it lies in memory.
  type Image = s: seq<bv8> | |s| == NH_SIZE witness [0, 0, 0, 0, 0, 0, 0, 0, 0, 0, 0, 0]

  const ZERO: Image := [0, 0, 0, 0, 0, 0, 0, 0, 0, 0, 0, 0]

  // The bytes of an array of next hops.
  function Flat(ps: seq<Image>): (s: seq<bv8>)
    ensures |s| == NH_SIZE * |ps|
  {
    if ps == [] then [] else ps[0] + Flat(ps[1..])
  }

  function Padded(ps: seq<Image>): (s: seq<Image>)
    requires |ps| <= MAXPATH
    ensures |s| == MAXPATH
  {
    ps + seq(MAXPATH - |ps|, _ => ZERO)
  }

  // p begins q, and what follows in q is zero.
  ghost predicate ZerosFollow(ps: seq<Image>, qs: seq<Image>) {
    ps <= qs && forall j :: |ps| <= j < |qs| ==> qs[j] == ZERO
  }

  lemma {:induction false} FlatInjective(ps: seq<Image>, qs: seq<Image>)
    requires |ps| == |qs| && Flat(ps) == Flat(qs)
    ensures ps == qs
  {
    if ps != [] {
      assert Flat(ps)[..NH_SIZE] == ps[0] && Flat(ps)[NH_SIZE..] == Flat(ps[1..]);
      assert Flat(qs)[..NH_SIZE] == qs[0] && Flat(qs)[NH_SIZE..] == Flat(qs[1..]);
      FlatInjective(ps[1..], qs[1..]);
      assert ps == [ps[0]] + ps[1..] && qs == [qs[0]] + qs[1..];
    }
  }

  // Two lists of next hops have the same key if and only if they differ by zero next hops at the end only.
  lemma SameKey(ps: seq<Image>, qs: seq<Image>)
    requires |ps| <= MAXPATH && |qs| <= MAXPATH
    ensures Flat(Padded(ps)) == Flat(Padded(qs)) <==> ZerosFollow(ps, qs) || ZerosFollow(qs, ps)
  {
    if Flat(Padded(ps)) == Flat(Padded(qs)) {
      FlatInjective(Padded(ps), Padded(qs));
      assert forall j :: 0 <= j < |ps| ==> Padded(ps)[j] == ps[j];
      assert forall j :: 0 <= j < |qs| ==> Padded(qs)[j] == qs[j];
    }
    if ZerosFollow(ps, qs) || ZerosFollow(qs, ps) {
      assert Padded(ps) == Padded(qs);
    }
  }

  class MPathTable {
    const nhdb: PatTree
    var paths: map<PatEntry, seq<Image>>  // the first npaths next hops of an entry

    ghost predicate Valid()
      reads this, nhdb, nhdb.nil, nhdb.shadow.Keys
    {
      && nhdb.Valid() && nhdb.keylen == NH_SIZE * MAXPATH && paths.Keys == nhdb.Entries()
      && forall e :: e in paths ==> |paths[e]| <= MAXPATH && e.key == Flat(Padded(paths[e]))
    }

    constructor ()
      ensures Valid() && paths == map[] && fresh(nhdb) && fresh(nhdb.nil)
    {
      nhdb := new PatTree(NH_SIZE * MAXPATH);
      paths := map[];
    }

    // The rest of the array is zero.
    method Pad(nPaths: nat, hops: array<Image>)
      requires nPaths <= MAXPATH == hops.Length
      modifies hops
      ensures hops[..] == Padded(old(hops[..nPaths])) && hops[..nPaths] == old(hops[..nPaths])
    {
      ghost var ps := hops[..nPaths];
      for i := nPaths to MAXPATH
        invariant hops[..i] == Padded(ps)[..i]
      {
        hops[i] := ZERO;
      }
    }

    // An entry was made for a list that differs by zero next hops at most.
    ghost predicate Known(ps: seq<Image>)
      reads this
    {
      exists e :: e in paths && (ZerosFollow(paths[e], ps) || ZerosFollow(ps, paths[e]))
    }

    lemma KeyDecides(ps: seq<Image>, e: PatEntry)
      requires Valid() && |ps| <= MAXPATH && e in paths
      ensures e.key == Flat(Padded(ps)) <==> ZerosFollow(paths[e], ps) || ZerosFollow(ps, paths[e])
    {
      SameKey(paths[e], ps);
    }

    // The entry with this key, made if there is none.
    method Entry(ps: seq<Image>, key: seq<bv8>) returns (entry: PatEntry)
      requires Valid() && |ps| <= MAXPATH && key == Flat(Padded(ps))
      modifies `paths, nhdb, nhdb.Entries()
      ensures Valid() && entry in paths && entry.key == key
      ensures paths == if entry in old(paths) then old(paths) else old(paths)[entry := ps]
      ensures entry !in old(paths) ==> forall e :: e in old(paths) ==> e.key != key
    {
      hide PatTree.Valid, Flat, Padded;
      var found := nhdb.Find(key);
      if found != null {
        return found;
      }
      entry := new PatEntry(key);
      nhdb.Add(entry);
      paths := paths[entry := ps];
    }

    // The entry for the first nPaths elements of the array, which is padded with zeros. It is one made before, with
    // the next hops it was made with, if and only if one was made for a list that differs by zero next hops at most.
    method Create(nPaths: nat, hops: array<Image>, ghost ps: seq<Image>) returns (entry: PatEntry)
      requires Valid() && nPaths <= MAXPATH == hops.Length && ps == hops[..nPaths]
      modifies this, hops, nhdb, nhdb.Entries()
      ensures Valid() && entry in paths && hops[..] == Padded(ps)
      ensures entry in old(paths) <==> old(Known(ps))
      ensures paths == if entry in old(paths) then old(paths) else old(paths)[entry := ps]
      ensures ZerosFollow(paths[entry], ps) || ZerosFollow(ps, paths[entry])
    {
      hide PatTree.Valid, Flat, Padded, ZerosFollow;
      forall e | e in paths
        ensures e.key == Flat(Padded(ps)) <==> ZerosFollow(paths[e], ps) || ZerosFollow(ps, paths[e])
      {
        KeyDecides(ps, e);
      }
      Pad(nPaths, hops);
      entry := Entry(hops[..nPaths], Flat(hops[..]));
      KeyDecides(ps, entry);
    }
  }

  // No two entries are for the same next hops: whether two lists share an entry depends on trailing zeros alone.
  lemma OneEntry(t: MPathTable, d: PatEntry, e: PatEntry)
    requires t.Valid() && d in t.paths && e in t.paths
    ensures d == e <==> ZerosFollow(t.paths[d], t.paths[e]) || ZerosFollow(t.paths[e], t.paths[d])
  {
    SameKey(t.paths[d], t.paths[e]);
    if d.key == e.key {
      LookupFinds(t.nhdb.nil, 8 * t.nhdb.keylen, t.nhdb.trie, d.key, d);
      LookupFinds(t.nhdb.nil, 8 * t.nhdb.keylen, t.nhdb.trie, d.key, e);
    }
  }
}
