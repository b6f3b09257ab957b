/** All receive descriptors share one writeback slot. When does each harvested buffer carry the length
    of its own packet? */
module Lengths {
  import opened Rings
  import opened Engines
  import R = Receiving

  /** Every buffer handed over in the current epoch carries the length of the transfer into it. */
  predicate OwnLengths(s: R.Rx) {
    s.e.running && R.Reported(s) <= |s.bufs| && s.mark + R.Reported(s) <= |s.e.hw.done| ==>
      forall i :: 0 <= i < R.Reported(s) ==> s.bufs[i].pktLen == s.e.hw.done[s.mark + i].len
  }

  /** Over every run in which calls are for the whole ring and packet lengths lie between the bounds. */
  ghost predicate AlwaysOwnLengths(n: nat, base: nat, port: nat, lo: nat, hi: nat)
    requires n > 0
  {
    forall evs :: R.FullCalls(evs, n) && R.LengthsWithin(evs, lo, hi)
        ==> OwnLengths(R.Exec(R.Fresh(n, base, port), evs))
  }

  lemma {:induction false} DoneLengths(n: nat, base: nat, port: nat, evs: seq<R.Event>, len: nat)
    requires Placed(base, n) && R.FullCalls(evs, n) && R.LengthsWithin(evs, len, len)
    ensures forall t :: t in R.Exec(R.Fresh(n, base, port), evs).e.hw.done ==> t.len == len
  {
    if evs != [] {
      var init, last := evs[..|evs| - 1], evs[|evs| - 1];
      DoneLengths(n, base, port, init, len);
      R.FreshInv(n, base, port);
      R.ExecFull(R.Fresh(n, base, port), init);
      if last.Hw? {
        StepLength(R.Exec(R.Fresh(n, base, port), init), last.tick);
      }
    }
  }

  /** What a hardware step delivers. */
  lemma StepLength(s: R.Rx, t: Tick)
    requires R.FullInv(s)
    ensures var r := R.Next(s, R.Hw(t));
            r.e.hw.done == s.e.hw.done ||
            (1 <= t.bytes <= R.BUFFER_BYTES && exists a :: r.e.hw.done == s.e.hw.done + [a] && a.len == t.bytes)
    ensures s.e.running && s.e.hw.completed < |s.e.ring| && 1 <= t.bytes <= R.BUFFER_BYTES ==>
      R.Next(s, R.Hw(t)) == s.(e := Complete(s.e, s.e.hw.completed, t))
  {
    StepSound(s.e, t);
    if s.e.hw.busy {
      LocateSlot(s.e.base, |s.e.ring|, s.e.hw.completed);
      var a := Transfer(s.e.hw.completed, Destination(s.e.ring[s.e.hw.completed]), t.bytes);
      assert R.Next(s, R.Hw(t)).e.hw.done != s.e.hw.done ==> R.Next(s, R.Hw(t)).e.hw.done == s.e.hw.done + [a];
    }
  }

  /** Arm, deliver two packets, read the count twice, rewrite the first buffer. */
  function TwoPackets(bufs: seq<R.Mbuf>, lo: nat, hi: nat): seq<R.Event> {
    [R.Call(bufs, |bufs|)] + [R.Hw(Tick(false, lo, false))] + [R.Hw(Tick(false, hi, false))] + [R.Cpu] + [R.Cpu]
        + [R.Cpu]
  }

  lemma {:induction false} Unrolled(s: R.Rx, bufs: seq<R.Mbuf>, lo: nat, hi: nat)
    requires R.Fits(s)
    ensures R.Exec(s, TwoPackets(bufs, lo, hi)) ==
      R.Next(R.Next(R.Next(R.Next(R.Next(R.Next(s, R.Call(bufs, |bufs|)), R.Hw(Tick(false, lo, false))),
          R.Hw(Tick(false, hi, false))), R.Cpu), R.Cpu), R.Cpu)
  {
    hide R.Exec, R.Next, R.Fits;
    var call, first, second := R.Call(bufs, |bufs|), R.Hw(Tick(false, lo, false)), R.Hw(Tick(false, hi, false));
    R.ExecOne(s, [], call);
    R.ExecOne(s, [call], first);
    R.ExecOne(s, [call] + [first], second);
    R.ExecOne(s, [call] + [first] + [second], R.Cpu);
    R.ExecOne(s, [call] + [first] + [second] + [R.Cpu], R.Cpu);
    R.ExecOne(s, [call] + [first] + [second] + [R.Cpu] + [R.Cpu], R.Cpu);
  }

  /** A whole ring armed and nothing delivered yet. */
  lemma JustArmed(n: nat, base: nat, port: nat, bufs: seq<R.Mbuf>)
    requires Placed(base, n) && |bufs| == n
    ensures var s := R.Next(R.Fresh(n, base, port), R.Call(bufs, |bufs|));
            && R.FullInv(s) && s.pc == R.Polling(0) && s.e.running && s.e.used == 0 && s.e.hw.completed == 0
                && s.mark == 0
            && s.e.hw.done == [] && s.bufs == bufs && s.port == port && |s.e.ring| == n
  {
    R.FreshInv(n, base, port);
    hide R.FullInv, R.Arm, InitRing, Placed;
    R.BeginFull(R.Fresh(n, base, port), bufs) by { FreshFull(n, base, port); }
    NothingDelivered(R.Next(R.Fresh(n, base, port), R.Call(bufs, |bufs|)));
  }

  lemma FreshFull(n: nat, base: nat, port: nat)
    requires n > 0 && R.Inv(R.Fresh(n, base, port))
    ensures R.FullInv(R.Fresh(n, base, port))
  {
  }

  lemma NothingDelivered(s: R.Rx)
    requires R.FullInv(s) && s.e.running && s.pc.Polling? && s.got == [] && s.e.hw.done == []
    ensures s.e.used == 0 && s.e.hw.completed == 0
  {
  }

  lemma BothDelivered(s: R.Rx, lo: nat, hi: nat)
    requires R.FullInv(s) && s.e.running && s.e.hw.completed == 0 && 2 <= |s.e.ring| && s.e.hw.done == []
    requires 1 <= lo <= R.BUFFER_BYTES && 1 <= hi <= R.BUFFER_BYTES
    ensures var r := R.Next(R.Next(s, R.Hw(Tick(false, lo, false))), R.Hw(Tick(false, hi, false)));
            && r == s.(e := r.e) && r.e.running && r.e.wb == 2 && r.e.wbLen == hi && r.e.used == s.e.used
            && |r.e.hw.done| == 2 && r.e.hw.done[0].len == lo
  {
    hide R.FullInv, R.Next;
    R.StepFull(s, Tick(false, lo, false));
    Delivered(s, Tick(false, lo, false));
    Delivered(R.Next(s, R.Hw(Tick(false, lo, false))), Tick(false, hi, false));
  }

  /** On an armed ring every delivery is counted, and its length is where the driver looks. */
  lemma Delivered(s: R.Rx, t: Tick)
    requires R.FullInv(s) && s.e.running && s.e.hw.completed < |s.e.ring| && 1 <= t.bytes <= R.BUFFER_BYTES
    ensures var r := R.Next(s, R.Hw(t));
            && r == s.(e := r.e) && r.e.running && r.e.used == s.e.used && r.e.ring == s.e.ring
            && r.e.hw.completed == s.e.hw.completed + 1 == r.e.wb && r.e.wbLen == t.bytes
            && |r.e.hw.done| == |s.e.hw.done| + 1 && r.e.hw.done[|s.e.hw.done|].len == t.bytes
            && s.e.hw.done <= r.e.hw.done
  {
    StepLength(s, t);
  }

  /** When two packets have come in between two polls, the first buffer gets the length of the second. */
  lemma TwoPacketsMix(n: nat, base: nat, port: nat, bufs: seq<R.Mbuf>, lo: nat, hi: nat)
    requires Placed(base, n) && |bufs| == n && 1 <= lo <= R.BUFFER_BYTES && 1 <= hi <= R.BUFFER_BYTES
    ensures var s := R.Exec(R.Fresh(n, base, port), TwoPackets(bufs, lo, hi));
            && s.e.running && s.mark == 0 && R.Reported(s) == 1 && |s.bufs| == n && |s.e.hw.done| == 2
            && s.bufs[0].pktLen == hi && s.e.hw.done[0].len == lo
  {
    Unrolled(R.Fresh(n, base, port), bufs, lo, hi);
    JustArmed(n, base, port, bufs);
    var s1 := R.Next(R.Fresh(n, base, port), R.Call(bufs, |bufs|));
    BothDelivered(s1, lo, hi);
    var s3 := R.Next(R.Next(s1, R.Hw(Tick(false, lo, false))), R.Hw(Tick(false, hi, false)));
    hide R.FullInv, R.Begin, R.Fresh, R.Exec, R.Next, TwoPackets;
    HarvestFirst(s3);
  }

  /** Two reads that agree on two buffers, and the first buffer rewritten. */
  lemma HarvestFirst(s: R.Rx)
    requires R.Fits(s) && s.pc == R.Polling(0) && s.e.running && s.e.wb == 2 && s.e.used == 0 && |s.bufs| >= 2
    ensures var r := R.Next(R.Next(R.Next(s, R.Cpu), R.Cpu), R.Cpu);
            r == s.(pc := R.Harvesting(2, 1, 2), bufs := r.bufs, got := r.got) && |r.bufs| == |s.bufs|
            && r.bufs[0].pktLen == s.e.wbLen
  {
    assert R.CpuStep(s) == s.(pc := R.Rereading(0, 2));
    assert R.CpuStep(R.CpuStep(s)) == s.(pc := R.Harvesting(2, 0, 2));
  }

  /** Exactly when all packets have one length. */
  lemma OwnLengthsIffUniform(n: nat, base: nat, port: nat, lo: nat, hi: nat)
    requires Placed(base, n) && 1 <= lo <= hi <= R.BUFFER_BYTES
    ensures AlwaysOwnLengths(n, base, port, lo, hi) <==> lo == hi
  {
    if lo == hi {
      forall evs | R.FullCalls(evs, n) && R.LengthsWithin(evs, lo, hi)
        ensures OwnLengths(R.Exec(R.Fresh(n, base, port), evs))
      {
        R.UniformLengths(n, base, port, evs, lo);
        DoneLengths(n, base, port, evs, lo);
      }
    } else {
      var bufs := seq(n, k requires 0 <= k < n => R.Mbuf(2048 * k, 128, 0, 0, 1, [], 0, 0, 0, 0, 0));
      var evs := TwoPackets(bufs, lo, hi);
      TwoPacketsMix(n, base, port, bufs, lo, hi);
      assert R.FullCalls(evs, n) && R.LengthsWithin(evs, lo, hi);
    }
  }
}
