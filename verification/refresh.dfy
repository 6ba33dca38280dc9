// Spreading the refresh of LSAs over time (dbage.C): a counter for each of the coming seconds, and one queue.

module Refreshing {
  import opened Common

  const LS_REFRESH_TIME: nat := 1800

  // RefreshBins, RefreshBin0 and pending_refresh.
  datatype Rq<L> = Rq(bins: seq<int>, bin0: nat, pending: seq<L>)

  function Sum(s: seq<int>): int {
    if s == [] then 0 else s[0] + Sum(s[1..])
  }

  ghost predicate Shaped<L>(r: Rq<L>) {
    |r.bins| == MAX_AGE_DIFF && r.bin0 < MAX_AGE_DIFF && forall i :: 0 <= i < |r.bins| ==> r.bins[i] >= 0
  }

  // The counters add up to the length of the queue.
  ghost predicate Inv<L>(r: Rq<L>) {
    Shaped(r) && Sum(r.bins) == |r.pending|
  }

  // schedule_refresh, with the slot drawn; out of range, or without randomness, it is the current one.
  function Scheduled<L>(r: Rq<L>, l: L, random: bool, slot: int): Rq<L>
    requires Shaped(r)
  {
    var s := if !random || slot < 0 || slot >= MAX_AGE_DIFF then r.bin0 else slot;
    r.(bins := r.bins[s := r.bins[s] + 1], pending := r.pending + [l])
  }

  function Count<L>(r: Rq<L>): nat
    requires Shaped(r)
  {
    if r.bins[r.bin0] <= |r.pending| then r.bins[r.bin0] else |r.pending|
  }

  // do_refreshes: what is left.
  function Done<L>(r: Rq<L>): Rq<L>
    requires Shaped(r)
  {
    Rq(r.bins[r.bin0 := 0], if r.bin0 + 1 >= MAX_AGE_DIFF then 0 else r.bin0 + 1, r.pending[Count(r)..])
  }

  lemma {:induction false} SumUpdate(s: seq<int>, i: nat, v: int)
    requires i < |s|
    ensures Sum(s[i := v]) == Sum(s) - s[i] + v
  {
    if i > 0 {
      assert s[i := v][1..] == s[1..][i - 1 := v];
      SumUpdate(s[1..], i - 1, v);
    } else {
      assert s[i := v][1..] == s[1..];
    }
  }

  lemma {:induction false} SumAtLeast(s: seq<int>, i: nat)
    requires i < |s| && forall j :: 0 <= j < |s| ==> s[j] >= 0
    ensures 0 <= s[i] <= Sum(s)
    ensures Sum(s) >= 0
  {
    SumPositive(s[1..]);
    if i > 0 {
      SumAtLeast(s[1..], i - 1);
    }
  }

  lemma {:induction false} SumPositive(s: seq<int>)
    requires forall j :: 0 <= j < |s| ==> s[j] >= 0
    ensures Sum(s) >= 0
  {
    if s != [] {
      SumPositive(s[1..]);
    }
  }

  // ---- Runs

  datatype Step<L> = Schedule(l: L, random: bool, slot: int) | Second

  ghost function After<L>(r: Rq<L>, xs: seq<Step<L>>): Rq<L>
    requires Shaped(r)
    ensures Shaped(After(r, xs))
    decreases |xs|
  {
    if xs == [] then r else After(Stepped(r, xs[0]), xs[1..])
  }

  ghost function Stepped<L>(r: Rq<L>, x: Step<L>): (t: Rq<L>)
    requires Shaped(r)
    ensures Shaped(t)
  {
    match x
    case Schedule(l, random, slot) => Scheduled(r, l, random, slot)
    case Second => Done(r)
  }

  // What leaves the queue, in order, and what enters it.
  ghost function Taken<L>(r: Rq<L>, xs: seq<Step<L>>): seq<L>
    requires Shaped(r)
    decreases |xs|
  {
    if xs == [] then [] else (if xs[0].Second? then r.pending[..Count(r)] else []) + Taken(Stepped(r, xs[0]), xs[1..])
  }

  ghost function Entered<L>(xs: seq<Step<L>>): seq<L> {
    if xs == [] then [] else (if xs[0].Schedule? then [xs[0].l] else []) + Entered(xs[1..])
  }

  ghost function Seconds<L>(xs: seq<Step<L>>): nat {
    if xs == [] then 0 else (if xs[0].Second? then 1 else 0) + Seconds(xs[1..])
  }

  lemma StepKeeps<L>(r: Rq<L>, x: Step<L>)
    requires Inv(r)
    ensures Inv(Stepped(r, x)) && (x.Second? ==> Count(r) == r.bins[r.bin0])
  {
    SumAtLeast(r.bins, r.bin0);
    match x
    case Schedule(l, random, slot) =>
      var s := if !random || slot < 0 || slot >= MAX_AGE_DIFF then r.bin0 else slot;
      SumUpdate(r.bins, s, r.bins[s] + 1);
    case Second =>
      SumUpdate(r.bins, r.bin0, 0);
  }

  lemma {:induction false} RunKeeps<L>(r: Rq<L>, xs: seq<Step<L>>)
    requires Inv(r)
    ensures Inv(After(r, xs))
    decreases |xs|
  {
    hide Sum, Stepped;
    if xs != [] {
      StepKeeps(r, xs[0]);
      RunKeeps(Stepped(r, xs[0]), xs[1..]);
    }
  }

  // Nothing is lost, repeated or overtaken.
  lemma {:induction false} FirstInFirstOut<L>(r: Rq<L>, xs: seq<Step<L>>)
    requires Shaped(r)
    ensures Taken(r, xs) + After(r, xs).pending == r.pending + Entered(xs)
    decreases |xs|
  {
    if xs != [] {
      var t := Stepped(r, xs[0]);
      FirstInFirstOut(t, xs[1..]);
      var rest := Taken(t, xs[1..]);
      assert r.pending == r.pending[..Count(r)] + r.pending[Count(r)..];
      calc {
        Taken(r, xs) + After(r, xs).pending;
        (if xs[0].Second? then r.pending[..Count(r)] else []) + (rest + After(t, xs[1..]).pending);
        (if xs[0].Second? then r.pending[..Count(r)] else []) + (t.pending + Entered(xs[1..]));
        r.pending + Entered(xs);
      }
    }
  }

  // What the counters of the next d seconds add up to.
  ghost function Due<L>(r: Rq<L>, d: nat): int
    requires Shaped(r)
    decreases d
  {
    if d == 0 then 0 else Due(r, d - 1) + r.bins[(r.bin0 + d - 1) % MAX_AGE_DIFF]
  }

  lemma {:induction false} DueGrows<L>(r: Rq<L>, t: Rq<L>, d: nat)
    requires Shaped(r) && Shaped(t) && r.bin0 == t.bin0 && forall i :: 0 <= i < MAX_AGE_DIFF ==> r.bins[i] <= t.bins[i]
    ensures Due(r, d) <= Due(t, d)
  {
    if d > 0 {
      DueGrows(r, t, d - 1);
    }
  }

  lemma {:induction false} DueNext<L>(r: Rq<L>, t: Rq<L>, d: nat)
    requires Shaped(r) && t == Done(r) && d < MAX_AGE_DIFF
    ensures Due(r, d + 1) == r.bins[r.bin0] + Due(t, d)
  {
    if d > 0 {
      DueNext(r, t, d - 1);
      var i := (r.bin0 + d) % MAX_AGE_DIFF;
      assert i != r.bin0 && i == (t.bin0 + d - 1) % MAX_AGE_DIFF;
    } else {
      assert r.bin0 % MAX_AGE_DIFF == r.bin0;
      assert Due(r, 1) == Due(r, 0) + r.bins[r.bin0];
    }
  }

  lemma {:induction false} TakenInTime<L>(r: Rq<L>, xs: seq<Step<L>>, d: nat)
    requires Inv(r) && d <= Seconds(xs) && d <= MAX_AGE_DIFF
    ensures |Taken(r, xs)| >= Due(r, d)
    decreases |xs|
  {
    if xs != [] && d > 0 {
      var t := Stepped(r, xs[0]);
      StepKeeps(r, xs[0]);
      if xs[0].Second? {
        TakenInTime(t, xs[1..], d - 1);
        DueNext(r, t, d - 1);
      } else {
        TakenInTime(t, xs[1..], d);
        DueGrows(r, t, d);
      }
    }
  }

  lemma {:induction false} SumAppend(s: seq<int>, x: int)
    ensures Sum(s + [x]) == Sum(s) + x
  {
    if s == [] {
      assert s + [x] == [x];
    } else {
      assert (s + [x])[1..] == s[1..] + [x];
      SumAppend(s[1..], x);
    }
  }

  lemma {:induction false} SumJoin(s: seq<int>, t: seq<int>)
    ensures Sum(s + t) == Sum(s) + Sum(t)
  {
    if s == [] {
      assert s + t == t;
    } else {
      assert (s + t)[1..] == s[1..] + t;
      SumJoin(s[1..], t);
    }
  }

  lemma Wrapped(x: nat)
    requires x < 2 * MAX_AGE_DIFF
    ensures x % MAX_AGE_DIFF == if x < MAX_AGE_DIFF then x else x - MAX_AGE_DIFF
  {
  }

  // The counters up to the end of the array.
  lemma {:induction false} DueBefore<L>(r: Rq<L>, d: nat, bins: seq<int>, b: nat)
    requires Shaped(r) && b + d <= MAX_AGE_DIFF && bins == r.bins && b == r.bin0
    ensures Due(r, d) == Sum(bins[b..b + d])
  {
    if d > 0 {
      DueBefore(r, d - 1, bins, b);
      Wrapped(b + d - 1);
      assert bins[b..b + d] == bins[b..b + d - 1] + [bins[b + d - 1]];
      SumAppend(bins[b..b + d - 1], bins[b + d - 1]);
    }
  }

  // Going round the counters once adds all of them up.
  lemma {:induction false} DueIs<L>(r: Rq<L>, d: nat, bins: seq<int>, b: nat)
    requires Shaped(r) && d <= MAX_AGE_DIFF <= b + d && bins == r.bins && b == r.bin0
    ensures Due(r, d) == Sum(bins[b..]) + Sum(bins[..b + d - MAX_AGE_DIFF])
  {
    if b + d == MAX_AGE_DIFF {
      DueBefore(r, d, bins, b);
      assert bins[b..b + d] == bins[b..] && bins[..0] == [];
    } else {
      var k := b + d - 1 - MAX_AGE_DIFF;
      DueIs(r, d - 1, bins, b);
      Wrapped(b + d - 1);
      assert bins[..k + 1] == bins[..k] + [bins[k]];
      SumAppend(bins[..k], bins[k]);
    }
  }

  // Whatever is on the queue now is taken within MaxAgeDiff seconds, in order: an LSA scheduled at the age for
  // refresh is refreshed before it reaches MaxAge.
  lemma RefreshedInTime<L>(r: Rq<L>, xs: seq<Step<L>>)
    requires Inv(r) && Seconds(xs) >= MAX_AGE_DIFF
    ensures r.pending <= Taken(r, xs) && LS_REFRESH_TIME + MAX_AGE_DIFF < MAX_AGE
  {
    assert LS_REFRESH_TIME + MAX_AGE_DIFF < MAX_AGE;
    hide *;
    TakenInTime(r, xs, MAX_AGE_DIFF);
    DueAll(r);
    InvSum(r);
    FirstInFirstOut(r, xs);
    Prefix(Taken(r, xs), After(r, xs).pending, r.pending, Entered(xs));
  }

  lemma InvSum<L>(r: Rq<L>)
    requires Inv(r)
    ensures Shaped(r) && Sum(r.bins) == |r.pending|
  {
  }

  lemma DueAll<L>(r: Rq<L>)
    requires Shaped(r)
    ensures Due(r, MAX_AGE_DIFF) == Sum(r.bins)
  {
    hide Due, Sum;
    var bins, b := r.bins, r.bin0;
    DueIs(r, MAX_AGE_DIFF, bins, b);
    SumJoin(bins[..b], bins[b..]);
    assert bins == bins[..b] + bins[b..];
  }

  lemma Prefix<L>(a: seq<L>, b: seq<L>, c: seq<L>, d: seq<L>)
    requires a + b == c + d && |c| <= |a|
    ensures c <= a
  {
    assert forall i :: 0 <= i < |c| ==> (a + b)[i] == a[i] && (c + d)[i] == c[i];
  }

  // ---- The program

  class Refresher<L> {
    const bins: array<int>
    var bin0: nat
    var pending: seq<L>

    constructor ()
      ensures fresh(bins) && bins.Length == MAX_AGE_DIFF && Inv(State()) && pending == []
    {
      bins := new int[MAX_AGE_DIFF](_ => 0);
      bin0, pending := 0, [];
      new;
      SumZero(bins[..]);
    }

    ghost function State(): Rq<L>
      reads this, bins
    {
      Rq(bins[..], bin0, pending)
    }

    method ScheduleRefresh(l: L, random: bool, drawn: int)
      requires Inv(State())
      modifies this, bins
      ensures State() == Scheduled(old(State()), l, random, drawn) && Inv(State())
    {
      StepKeeps(State(), Schedule(l, random, drawn));
      var slot := drawn;
      if !random || slot < 0 || slot >= MAX_AGE_DIFF {
        slot := bin0;
      }
      bins[slot] := bins[slot] + 1;
      pending := pending + [l];
    }

    // The LSAs whose turn it is.
    method DoRefreshes() returns (taken: seq<L>)
      requires Inv(State())
      modifies this, bins
      ensures State() == Done(old(State())) && Inv(State())
      ensures taken == old(State()).pending[..Count(old(State()))]
    {
      StepKeeps(State(), Second);
      ghost var was := State();
      var count := bins[bin0];
      bins[bin0] := 0;
      taken := [];
      while count > 0 && pending != []
        invariant |taken| <= |was.pending| && taken == was.pending[..|taken|] && pending == was.pending[|taken|..]
        invariant bin0 == was.bin0 && bins[..] == was.bins[was.bin0 := 0]
        invariant count >= 0 && count + |taken| == was.bins[was.bin0]
      {
        taken := taken + [pending[0]];
        pending := pending[1..];
        count := count - 1;
      }
      assert count == 0 && |taken| == Count(was);
      bin0 := bin0 + 1;
      if bin0 >= MAX_AGE_DIFF {
        bin0 := 0;
      }
    }
  }

  lemma {:induction false} SumZero(s: seq<int>)
    requires forall i :: 0 <= i < |s| ==> s[i] == 0
    ensures Sum(s) == 0
  {
    if s != [] {
      SumZero(s[1..]);
    }
  }
}
