// Timers (timer.C, timer.h, OSPF::tick in ospf.C): the elements of one priority queue, keyed by
// the time at which they fire.

module Timers {
  import opened AvlItems
  import opened PriorityQueue

  const SECOND := 1000

  datatype SPFtime = SPFtime(sec: uns32, msec: uns32)

  // The sum of a time and a number of milliseconds.
  function TimeAdd(a: SPFtime, milliseconds: uns32): SPFtime {
    var m := Word(a.msec + milliseconds);
    SPFtime(Word(a.sec + m / SECOND), m % SECOND)
  }

  function Millis(a: SPFtime): nat {
    a.sec * SECOND + a.msec
  }

  // While the second count does not wrap, sums are exact.
  lemma TimeAddExact(a: SPFtime, ms: uns32)
    requires a.msec < SECOND && ms < 0x1_0000_0000 - SECOND && Millis(a) + ms < 0x1_0000_0000 * SECOND
    ensures Millis(TimeAdd(a, ms)) == Millis(a) + ms && TimeAdd(a, ms).msec < SECOND
  {
    var m := a.msec + ms;
    assert m == m / SECOND * SECOND + m % SECOND;
  }

  // The key under which a timer is queued.
  predicate KeyIs(c: Cost, t: SPFtime) {
    c.cost0 == t.sec && c.cost1 == t.msec
  }

  // Not later than now.
  predicate Due(c: Cost, now: SPFtime) {
    c.cost0 < now.sec || (c.cost0 == now.sec && c.cost1 <= now.msec)
  }

  lemma DueFirst(a: Cost, b: Cost, now: SPFtime)
    requires !Less(b, a) && Due(b, now)
    ensures Due(a, now)
  {
  }

  // A timer is due exactly when its time has come,
  lemma DueExactly(c: Cost, t: SPFtime, now: SPFtime)
    requires KeyIs(c, t) && t.msec < SECOND && now.msec < SECOND
    ensures Due(c, now) <==> Millis(t) <= Millis(now)
  {
  }

  // and the queue has the one with the earlier time first.
  lemma EarlierFirst(a: Cost, s: SPFtime, b: Cost, t: SPFtime)
    requires KeyIs(a, s) && KeyIs(b, t) && s.msec < SECOND && t.msec < SECOND && Millis(s) < Millis(t)
    ensures Less(a, b) && !Less(b, a)
  {
  }

  class Timer {
    const elt: PriQElt    // the base class
    const repeats: bool   // an interval timer
    var active: bool
    var period: uns32

    constructor (repeats: bool)
      ensures !active && fresh(elt) && this.repeats == repeats
    {
      elt := new PriQElt();
      this.repeats, active, period := repeats, false, 0;
    }
  }

  class TimerQ {
    const timerq: PriQ
    const timers: map<PriQElt, Timer>  // the cast from an element down to its timer
    var now: SPFtime

    // A timer is active exactly when it is on the queue.
    ghost predicate Valid()
      reads this, timerq, timerq.elems, timers.Values
    {
      && timerq.Valid() && now.msec < SECOND && timerq.elems <= timers.Keys
      && forall e :: e in timers ==>
           timers[e] in timers.Values && timers[e].elt == e && (timers[e].active <==> e in timerq.elems)
    }

    ghost predicate Has(t: Timer) {
      t.elt in timers && timers[t.elt] == t
    }

    constructor (timers: map<PriQElt, Timer>)
      requires forall e :: e in timers ==> timers[e].elt == e && !timers[e].active
      ensures Valid() && this.timers == timers && timerq.elems == {}
    {
      timerq := new PriQ();
      this.timers, now := timers, SPFtime(0, 0);
    }

    // Does nothing to a running timer.
    method Start(t: Timer, milliseconds: uns32)
      requires Valid() && Has(t)
      modifies timerq, timerq.elems, t, t.elt
      ensures Valid() && t.active
      ensures timerq.elems == old(timerq.elems) + {t.elt}
      ensures old(!t.active) ==> t.period == milliseconds && KeyIs(t.elt.cost, TimeAdd(now, milliseconds))
      ensures old(t.active) ==> t.elt.cost == old(t.elt.cost) && t.period == old(t.period)
      ensures forall e :: e in old(timerq.elems) ==> e.cost == old(e.cost)
    {
      if t.active {
        return;
      }
      t.period := milliseconds;
      t.active := true;
      Enqueue(t, TimeAdd(now, milliseconds));
    }

    // Keys change only off the queue.
    method Enqueue(t: Timer, at: SPFtime)
      requires timerq.Valid() && t.elt !in timerq.elems && at.msec < SECOND
      modifies timerq, timerq.elems`left, timerq.elems`right, timerq.elems`parent, t.elt
      ensures timerq.Valid() && timerq.elems == old(timerq.elems) + {t.elt} && KeyIs(t.elt.cost, at)
    {
      t.elt.cost := t.elt.cost.(cost0 := at.sec, cost1 := at.msec);
      timerq.Add(t.elt);
    }

    // Does nothing to a timer that is not running.
    method Stop(t: Timer)
      requires Valid() && Has(t)
      modifies timerq, timerq.elems, t`active
      ensures Valid() && !t.active
      ensures timerq.elems == old(timerq.elems) - {t.elt}
      ensures forall e :: e in old(timerq.elems) ==> e.cost == old(e.cost)
    {
      if !t.active {
        return;
      }
      t.active := false;
      timerq.Delete(t.elt);
    }

    // One round of the tick loop: takes off the earliest timer if it is due, and fires it. An interval
    // timer is queued again, one period after the time it was due; the tick loop ends when no active
    // timer is due.
    method TickOne() returns (fired: bool, top: PriQElt?)
      requires Valid()
      modifies timerq, timerq.elems, (set e | e in timerq.elems && e in timers :: timers[e])`active
      ensures Valid()
      ensures !fired ==> timerq.elems == old(timerq.elems)
      ensures !fired ==> forall e :: e in timers && timers[e].active ==> !Due(e.cost, now)
      ensures fired ==> top != null && top in old(timerq.elems) && old(Due(top.cost, now))
      ensures fired ==> forall e :: e in old(timerq.elems) ==> !Less(old(e.cost), old(top.cost))
      ensures fired ==> timerq.elems == if timers[top].repeats then old(timerq.elems) else old(timerq.elems) - {top}
      ensures fired && timers[top].repeats ==>
                KeyIs(top.cost, TimeAdd(old(SPFtime(top.cost.cost0, top.cost.cost1)), timers[top].period))
      ensures forall e :: e in old(timerq.elems) && (!fired || e != top) ==> e.cost == old(e.cost)
    {
      top := timerq.root;
      fired := top != null && Due(top.cost, now);
      timerq.RootIsLeast();
      if !fired {
        if top != null {
          forall e | e in timerq.elems
            ensures !Due(e.cost, now)
          {
            if Due(e.cost, now) {
              DueFirst(top.cost, e.cost, now);
            }
          }
        }
        return;
      }
      var head := timerq.RmHead();
      assert head == top;
      Fire(timers[top]);
    }

    method Fire(t: Timer)
      requires timerq.Valid() && t.elt !in timerq.elems
      modifies timerq, timerq.elems`left, timerq.elems`right, timerq.elems`parent, t.elt, t`active
      ensures timerq.Valid()
      ensures timerq.elems == if t.repeats then old(timerq.elems) + {t.elt} else old(timerq.elems)
      ensures t.repeats ==> t.active == old(t.active) && KeyIs(t.elt.cost,
              TimeAdd(old(SPFtime(t.elt.cost.cost0, t.elt.cost.cost1)), t.period))
      ensures !t.repeats ==> !t.active && t.elt.cost == old(t.elt.cost)
    {
      if t.repeats {
        Enqueue(t, TimeAdd(SPFtime(t.elt.cost.cost0, t.elt.cost.cost1), t.period));
      } else {
        t.active := false;
      }
    }
  }
}
