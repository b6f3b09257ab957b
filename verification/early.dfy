/** When a receive call stops the engine. The routine compares its cursor with the count the caller asks
    for now, whatever was armed: so a call for less can stop a running engine early, and a call for more
    never stops it. */
module EarlyStops {
  import opened Rings
  import opened Engines
  import L = Lengths
  import P = ReceivePolls
  import R = Receiving

  /** The engine as if the call were for the whole ring: only the return looks at the difference. */
  function Whole(r: R.Rx): R.Rx {
    r.(nb := |r.e.ring|)
  }

  /** Inside or after a call for `nb` on an engine that a call for the whole ring has armed. */
  predicate Running(r: R.Rx, nb: nat) {
    R.FullInv(Whole(r)) && r.e.running && r.nb == nb
  }

  lemma BeginRunning(s: R.Rx, bufs: seq<R.Mbuf>, nb: nat)
    requires R.FullInv(s) && s.pc.Resting? && s.e.running && nb <= |bufs|
    ensures var r := R.Begin(s, bufs, nb);
            Running(r, nb) && r.pc == R.Polling(0) && r.e == s.e && r.entry == |r.got| && R.Inv(r)
  {
    R.BeginFull(s, s.bufs);
    assert Whole(R.Begin(s, bufs, nb)) == R.Begin(s, s.bufs, |s.e.ring|);
  }

  lemma HwRunning(r: R.Rx, nb: nat, t: Tick)
    requires Running(r, nb)
    ensures var m := R.Next(r, R.Hw(t));
            && Running(m, nb) && m.pc == r.pc && m.e.used == r.e.used && |m.e.ring| == |r.e.ring|
            && m.e.hw.completed >= r.e.hw.completed
  {
    R.StepFull(Whole(r), t);
    StepSound(r.e, t);
    hide R.Armed, R.EpochTransfers;
  }

  lemma CpuRunning(r: R.Rx, nb: nat)
    requires Running(r, nb) && !r.pc.Returning?
    ensures Running(R.CpuStep(r), nb) && R.CpuStep(r).e == r.e.(used := R.CpuStep(r).e.used)
  {
    R.CpuFull(Whole(r));
    assert Whole(R.CpuStep(r)) == R.CpuStep(Whole(r));
    hide R.FullInv;
  }

  /** The driver always finds the count the channel has. */
  lemma ReadsExact(r: R.Rx, nb: nat)
    requires Running(r, nb)
    ensures R.Fits(r) && r.e.wb == r.e.hw.completed <= |r.e.ring| <= 64 && 2 <= |r.e.ring|
    ensures r.e.used <= r.e.hw.completed
    ensures r.pc.Harvesting? ==> r.pc.next <= r.pc.upto <= |r.bufs|
  {
  }

  // ---------------------------------------------------------------- calls that cannot stop

  /** A call for another count than the cursor will have: the count has passed `nb` before it began, or
      never comes to it. */
  predicate Passing(r: R.Rx, nb: nat, used: nat, from: nat) {
    && r.e.running && (!r.pc.Resting? ==> Running(r, nb) && r.e.hw.completed >= from)
    && match r.pc
       case Resting => true
       case Polling(t) => t <= 100 && r.e.used == used && (used == nb ==> r.e.wb >= from + t)
       case Rereading(t, seen) =>
         t <= 100 && r.e.used == used && from <= seen <= r.e.wb && (used == nb ==> seen >= from + t)
       case Harvesting(_, _, upto) => upto >= from
       case Returning(_) => r.e.used != nb
  }

  lemma PassingCpu(r: R.Rx, nb: nat, used: nat, from: nat)
    requires R.Fits(r) && Passing(r, nb, used, from) && (nb < from || nb > |r.e.ring|) && used <= from
    ensures Passing(R.CpuStep(r), nb, used, from) && |R.CpuStep(r).e.ring| == |r.e.ring|
  {
    if !r.pc.Resting? {
      ReadsExact(r, nb);
      if !r.pc.Returning? {
        CpuRunning(r, nb);
        ReadsExact(R.CpuStep(r), nb);
      }
    }
    hide Running;
  }

  lemma PassingHw(r: R.Rx, nb: nat, used: nat, from: nat, t: Tick)
    requires R.Fits(r) && Passing(r, nb, used, from)
    ensures var m := R.Next(r, R.Hw(t)); Passing(m, nb, used, from) && |m.e.ring| == |r.e.ring|
  {
    if !r.pc.Resting? {
      HwRunning(r, nb, t);
      ReadsExact(r, nb);
      ReadsExact(R.Next(r, R.Hw(t)), nb);
    }
    hide Running;
  }

  lemma {:induction false} ExecPassing(r: R.Rx, evs: seq<R.Event>, nb: nat, used: nat, from: nat)
    requires R.Fits(r) && Passing(r, nb, used, from) && R.Quiet(evs) && (nb < from || nb > |r.e.ring|) && used <= from
    ensures Passing(R.Exec(r, evs), nb, used, from) && |R.Exec(r, evs).e.ring| == |r.e.ring|
  {
    R.ExecOne(r, [], R.Cpu);
    if evs != [] {
      var init, last := evs[..|evs| - 1], evs[|evs| - 1];
      ExecPassing(r, init, nb, used, from);
      R.ExecOne(r, init, last);
      assert init + [last] == evs;
      hide R.Exec, R.CpuStep, Passing, R.Fits;
      if last.Cpu? {
        PassingCpu(R.Exec(r, init), nb, used, from);
      } else {
        PassingHw(R.Exec(r, init), nb, used, from, last.tick);
      }
    }
  }

  // ---------------------------------------------------------------- calls that can

  /** The count is `nb` and the channel does nothing: the call finds it, if the cursor is not there yet,
      and stops. */
  predicate Closing(r: R.Rx, nb: nat, used: nat) {
    && (!r.pc.Resting? ==> Running(r, nb) && r.e.wb == nb)
    && match r.pc
       case Resting => !r.e.running
       case Polling(t) => r.e.used == used && (used != nb ==> t == 0)
       case Rereading(t, seen) => r.e.used == used && seen == nb && (used != nb ==> t == 0)
       case Harvesting(_, _, upto) => upto == nb
       case Returning(_) => r.e.used == nb
  }

  lemma ClosingCpu(r: R.Rx, nb: nat, used: nat)
    requires R.Fits(r) && Closing(r, nb, used)
    ensures Closing(R.CpuStep(r), nb, used)
  {
    if !r.pc.Resting? {
      ReadsExact(r, nb);
      if !r.pc.Returning? {
        CpuRunning(r, nb);
      }
    }
    hide R.FullInv;
  }

  lemma {:induction false} StepsClosing(r: R.Rx, k: nat, nb: nat, used: nat)
    requires R.Fits(r) && Closing(r, nb, used)
    ensures Closing(R.Exec(r, R.Steps(k)), nb, used)
  {
    hide *;
    R.StepsLast(k);
    if k > 0 {
      StepsClosing(r, k - 1, nb, used);
      R.ExecOne(r, R.Steps(k - 1), R.Cpu);
      NextCpu(R.Exec(r, R.Steps(k - 1)));
      ClosingCpu(R.Exec(r, R.Steps(k - 1)), nb, used);
    } else {
      R.ExecOne(r, [], R.Cpu);
    }
  }

  lemma NextCpu(r: R.Rx)
    requires R.Fits(r)
    ensures R.Next(r, R.Cpu) == R.CpuStep(r)
  {
  }

  lemma {:induction false} Delivers(r: R.Rx, nb: nat, k: nat)
    requires Running(r, nb) && r.e.hw.completed + k <= |r.e.ring|
    ensures R.Fits(r)
    ensures var m := R.Exec(r, R.Deliver(k, 64));
            && Running(m, nb) && m == r.(e := m.e) && m.e.used == r.e.used && |m.e.ring| == |r.e.ring|
            && m.e.hw.completed == r.e.hw.completed + k
  {
    ReadsExact(r, nb);
    R.ExecOne(r, [], R.Cpu);
    if k > 0 {
      var t := Tick(false, 64, false);
      Delivers(r, nb, k - 1);
      assert R.Deliver(k, 64) == R.Deliver(k - 1, 64) + [R.Hw(t)];
      R.ExecOne(r, R.Deliver(k - 1, 64), R.Hw(t));
      hide R.Exec, R.Deliver, Running, R.Fits;
      DeliverOne(R.Exec(r, R.Deliver(k - 1, 64)), nb, t);
    } else {
      assert R.Deliver(0, 64) == [];
    }
  }

  lemma DeliverOne(r: R.Rx, nb: nat, t: Tick)
    requires R.Fits(r) && Running(r, nb) && r.e.hw.completed < |r.e.ring| && t.bytes == 64
    ensures var m := R.Next(r, R.Hw(t));
            && Running(m, nb) && m == r.(e := m.e) && m.e.used == r.e.used && |m.e.ring| == |r.e.ring|
            && m.e.hw.completed == r.e.hw.completed + 1
  {
    HwRunning(r, nb, t);
    L.Delivered(Whole(r), t);
    assert R.Next(Whole(r), R.Hw(t)).e == R.Next(r, R.Hw(t)).e;
    hide R.FullInv;
  }

  /** Some schedule of a call for `nb` ends with the engine stopped. */
  ghost predicate CanStop(s: R.Rx, bufs: seq<R.Mbuf>, nb: nat)
    requires R.Fits(s) && nb <= |bufs|
  {
    exists evs :: R.Quiet(evs) && !R.Exec(R.Begin(s, bufs, nb), evs).e.running
  }

  lemma {:induction false} StopsWhenReached(s: R.Rx, bufs: seq<R.Mbuf>, nb: nat)
    requires R.FullInv(s) && s.pc.Resting? && s.e.running && s.e.hw.completed <= nb <= |bufs| && nb <= |s.e.ring|
    requires R.Fits(s)
    ensures CanStop(s, bufs, nb)
  {
    var r, k, steps := R.Begin(s, bufs, nb), nb - s.e.hw.completed, 204 + |s.e.ring|;
    BeginRunning(s, bufs, nb);
    Delivers(r, nb, k);
    var m := R.Exec(r, R.Deliver(k, 64));
    ReadsExact(m, nb);
    assert Closing(m, nb, s.e.used);
    hide R.Exec, R.Begin, R.FullInv, Running, Closing;
    StepsClosing(m, steps, nb, s.e.used);
    R.ExecAppend(r, R.Deliver(k, 64), R.Steps(steps));
    StepsAfter(R.Deliver(k, 64), steps);
    var evs := R.Deliver(k, 64) + R.Steps(steps);
    R.EveryCallEnds(s, bufs, nb, evs);
    ClosedAtRest(R.Exec(r, evs), nb, s.e.used);
  }

  lemma ClosedAtRest(r: R.Rx, nb: nat, used: nat)
    requires Closing(r, nb, used) && r.pc.Resting?
    ensures !r.e.running
  {
  }

  lemma {:induction false} StepsAfter(evs: seq<R.Event>, k: nat)
    ensures R.CpuSteps(evs + R.Steps(k)) >= k
  {
    if k > 0 {
      StepsAfter(evs, k - 1);
      assert (evs + R.Steps(k))[..|evs| + k - 1] == evs + R.Steps(k - 1);
    }
  }

  /** On an engine that a call for the whole ring has armed and started, a later call for `nb` buffers can
      stop it exactly when the count has not passed `nb`, and `nb` is not more than the ring. So a call
      for less than the ring can stop the engine with descriptors still armed, one for what the cursor
      already has stops it when nothing comes in, and one for more than the ring leaves an engine running
      that has nothing left to do. */
  lemma CanStopExactly(s: R.Rx, bufs: seq<R.Mbuf>, nb: nat)
    requires R.FullInv(s) && R.Fits(s) && s.pc.Resting? && s.e.running && nb <= |bufs|
    ensures CanStop(s, bufs, nb) <==> s.e.hw.completed <= nb <= |s.e.ring|
  {
    BeginRunning(s, bufs, nb);
    ReadsExact(R.Begin(s, bufs, nb), nb);
    hide R.FullInv, R.Exec, R.Begin, Running;
    if s.e.hw.completed <= nb <= |s.e.ring| {
      StopsWhenReached(s, bufs, nb);
    } else {
      forall evs | R.Quiet(evs)
        ensures R.Exec(R.Begin(s, bufs, nb), evs).e.running
      {
        ExecPassing(R.Begin(s, bufs, nb), evs, nb, s.e.used, s.e.hw.completed);
      }
    }
  }
}
