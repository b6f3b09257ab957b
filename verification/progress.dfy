/** Which rounds of the forwarding loop come to an end, and that the others are reached. */
module ForwardProgress {
  import opened Rings
  import opened Engines
  import opened Transmit
  import opened Forwarding
  import Lengths
  import R = Receiving
  import T = Sending

  lemma {:induction false} ExecOne(s: Sys, evs: seq<Event>, ev: Event)
    requires Fits(s)
    ensures Exec(s, evs + [ev]) == Next(Exec(s, evs), ev)
    ensures Exec(s, []) == s
  {
    assert (evs + [ev])[..|evs|] == evs;
  }

  lemma {:induction false} ExecLast(s: Sys, evs: seq<Event>)
    requires Fits(s)
    ensures if evs == [] then Exec(s, evs) == s
            else Exec(s, evs) == Next(Exec(s, evs[..|evs| - 1]), evs[|evs| - 1])
  {
  }

  lemma {:induction false} ExecAppend(s: Sys, a: seq<Event>, b: seq<Event>)
    requires Fits(s)
    ensures Exec(s, a + b) == Exec(Exec(s, a), b)
  {
    hide Exec, Next, Fits;
    if b == [] {
      assert a + b == a;
      ExecOne(Exec(s, a), [], Cpu);
    } else {
      var init, last := b[..|b| - 1], b[|b| - 1];
      ExecAppend(s, a, init);
      assert b == init + [last] && a + b == (a + init) + [last];
      ExecOne(s, a + init, last);
      ExecOne(Exec(s, a), init, last);
    }
  }

  lemma LengthsAppend(a: seq<Event>, b: seq<Event>, lo: nat, hi: nat)
    requires LengthsWithin(a, lo, hi) && LengthsWithin(b, lo, hi)
    ensures LengthsWithin(a + b, lo, hi)
  {
  }

  // ---------------------------------------------------------------- a harvest that cannot be sent

  /** Waiting for the transmission of a whole ring. */
  predicate Stalled(s: Sys, n: nat) {
    s.pc == InTransmit(n) && s.tx.pc.Waiting?
  }

  lemma StallCount(tx: T.Tx, n: nat)
    requires T.Inv(tx) && tx.e.running && |tx.e.ring| == n >= 2
    requires tx.pc.Waiting? && |tx.batch| == n && |T.Taken(tx.batch, n)| == n
    ensures T.CpuStep(tx) == tx
  {
  }

  lemma StallStep(s: Sys, ev: Event, n: nat, lo: nat, hi: nat)
    requires Fits(s) && Inv(s, n, lo, hi) && Stalled(s, n)
    ensures Stalled(Next(s, ev), n)
  {
    SliceSingle(s, n, lo, hi) by { hide Inv; }
    HarvestMeetsTransmit(s.rx.bufs, s.idx, n, lo, hi) by { hide AllHarvested; }
    assert s.tx.batch == Batch(s.rx.bufs, s.idx, n);
    StallCount(s.tx, n) by { hide T.Inv, T.Taken, Batch; }
  }

  lemma {:induction false} StallsForever(s: Sys, evs: seq<Event>, n: nat, lo: nat, hi: nat)
    requires Fits(s) && Inv(s, n, lo, hi) && Stalled(s, n) && LengthsWithin(evs, lo, hi)
    ensures Stalled(Exec(s, evs), n)
  {
    if evs != [] {
      hide Inv, Stalled, Next, R.TickWithin;
      StallsForever(s, evs[..|evs| - 1], n, lo, hi);
      ExecInv(s, evs[..|evs| - 1], n, lo, hi);
      StallStep(Exec(s, evs[..|evs| - 1]), evs[|evs| - 1], n, lo, hi);
    }
  }

  lemma HoldingStep(s: Sys, ev: Event, n: nat, lo: nat, hi: nat)
    requires Fits(s) && Inv(s, n, lo, hi) && s.pc == Holding(n) && s.idx + n <= n && |s.rx.bufs| == n
    ensures var r := Next(s, ev);
            if ev.Cpu? then Stalled(r, n) else r.pc == Holding(n) && r.idx == s.idx && |r.rx.bufs| == n
  {
    assert !s.tx.e.running;
  }

  /** Before the loop hands over a whole ring, and ever after. */
  lemma {:induction false} FullHarvestStalls(s: Sys, evs: seq<Event>, n: nat, lo: nat, hi: nat)
    requires Fits(s) && Inv(s, n, lo, hi) && s.pc == Holding(n) && |s.rx.bufs| == n && s.idx + n <= n
    requires LengthsWithin(evs, lo, hi)
    ensures var r := Exec(s, evs); r.pc == Holding(n) || Stalled(r, n)
    ensures var r := Exec(s, evs); r.pc == Holding(n) ==> r.idx == s.idx && |r.rx.bufs| == n
  {
    if evs != [] {
      var init, last := evs[..|evs| - 1], evs[|evs| - 1];
      FullHarvestStalls(s, init, n, lo, hi) by { hide Inv; }
      ExecInv(s, init, n, lo, hi) by { hide Inv; }
      var before := Exec(s, init);
      if before.pc == Holding(n) {
        HoldingStep(before, last, n, lo, hi) by { hide Inv; }
      } else {
        StallStep(before, last, n, lo, hi) by { hide Inv; }
      }
    }
  }

  // ---------------------------------------------------------------- inside a transmit call

  /** Some prefix of the run is back at the head of the loop. */
  predicate Back(s: Sys, evs: seq<Event>)
    requires Fits(s)
  {
    Exec(s, evs).pc.AtHead? || (evs != [] && Back(s, evs[..|evs| - 1]))
  }

  lemma {:induction false} BackLater(s: Sys, evs: seq<Event>, ev: Event)
    requires Fits(s)
    ensures Back(s, evs + [ev]) <==> Back(s, evs) || Exec(s, evs + [ev]).pc.AtHead?
  {
    assert (evs + [ev])[..|evs|] == evs;
  }

  /** What the transmit engine sees of a run. */
  function TxView(evs: seq<Event>): seq<T.Event> {
    if evs == [] then [] else
      match evs[|evs| - 1]
      case Cpu => TxView(evs[..|evs| - 1]) + [T.Cpu]
      case RxHw(_, _) => TxView(evs[..|evs| - 1])
      case TxHw(t) => TxView(evs[..|evs| - 1]) + [T.Hw(t)]
  }

  lemma {:induction false} TxViewOne(evs: seq<Event>, ev: Event)
    ensures TxView(evs + [ev]) ==
      match ev
      case Cpu => TxView(evs) + [T.Cpu]
      case RxHw(_, _) => TxView(evs)
      case TxHw(t) => TxView(evs) + [T.Hw(t)]
  {
    assert (evs + [ev])[..|evs|] == evs;
  }

  /** One step of the whole, as the transmit engine sees it. */
  lemma TransmitStep(s: Sys, ev: Event)
    requires Fits(s) && s.pc.InTransmit?
    ensures var r := Next(s, ev);
            match ev
            case Cpu =>
              if s.tx.pc.Leaving? then r.pc.AtHead? else r.pc == s.pc && r.tx == T.Next(s.tx, T.Cpu)
            case RxHw(_, _) => r.pc == s.pc && r.tx == s.tx
            case TxHw(t) => r.pc == s.pc && r.tx == T.Next(s.tx, T.Hw(t))
  {
    hide R.CpuStep, R.Begin, Batch;
  }

  /** Until it is back at the head, the forwarder runs the transmit engine. */
  lemma {:induction false} TransmitRuns(s: Sys, evs: seq<Event>)
    requires Fits(s) && s.pc.InTransmit?
    ensures Back(s, evs) || (Exec(s, evs).pc == s.pc && Exec(s, evs).tx == T.Exec(s.tx, TxView(evs)))
  {
    ExecLast(s, evs);
    if evs != [] {
      var init, last := evs[..|evs| - 1], evs[|evs| - 1];
      TransmitRuns(s, init);
      assert init + [last] == evs;
      TxViewOne(init, last);
      BackLater(s, init, last);
      hide Next, T.Next, Back, TxView, Exec, T.Exec;
      if !Back(s, init) {
        TransmitStep(Exec(s, init), last);
        if !last.RxHw? {
          T.ExecOne(s.tx, TxView(init), if last.Cpu? then T.Cpu else T.Hw(last.tick));
        }
      }
    }
  }

  /** The transmit channel counts an empty descriptor only if `counts` allows it. */
  predicate Allowed(evs: seq<Event>, counts: bool) {
    forall k :: 0 <= k < |evs| && evs[k].TxHw? && evs[k].tick.countsEmpty ==> counts
  }

  function TxTicks(evs: seq<Event>): nat {
    if evs == [] then 0 else TxTicks(evs[..|evs| - 1]) + if evs[|evs| - 1].TxHw? then 1 else 0
  }

  lemma TxTicksLast(evs: seq<Event>)
    requires evs != []
    ensures var init, last := evs[..|evs| - 1], evs[|evs| - 1];
            && TxTicks(evs) == TxTicks(init) + (if last.TxHw? then 1 else 0)
            && evs == init + [last]
  {
  }

  lemma {:induction false} TxViewAllowed(evs: seq<Event>, counts: bool)
    requires Allowed(evs, counts)
    ensures T.Allowed(TxView(evs), counts) && T.Ticks(TxView(evs)) == TxTicks(evs)
  {
    if evs != [] {
      var init, last := evs[..|evs| - 1], evs[|evs| - 1];
      TxViewAllowed(init, counts);
      TxTicksLast(evs);
      TxViewOne(init, last);
      assert last.TxHw? && last.tick.countsEmpty ==> counts;
      if !last.RxHw? {
        var ev := if last.Cpu? then T.Cpu else T.Hw(last.tick);
        T.AllowedOne(TxView(init), ev, counts);
        T.TicksOne(TxView(init), ev);
      }
      hide *;
    }
  }

  /** The slice held is a loaded batch that fits. */
  lemma SliceLoaded(s: Sys, n: nat, lo: nat, hi: nat)
    requires Inv(s, n, lo, hi) && s.pc.Holding?
    requires s.idx + s.pc.ret <= |s.rx.bufs| == n
    ensures var pkts := Batch(s.rx.bufs, s.idx, s.pc.ret);
            && T.Inv(s.tx) && s.tx.pc.Resting? && |s.tx.e.ring| == n && 0 < s.pc.ret && n <= 64
            && AllWellFormed(pkts) && T.AllSingle(pkts) && T.Loaded(T.Taken(pkts, n)) && |T.Taken(pkts, n)| == s.pc.ret
  {
    var ret := s.pc.ret;
    var items := T.Taken(Batch(s.rx.bufs, s.idx, ret), n);
    assert 1 <= lo;
    SliceSingle(s, n, lo, hi) by { hide Inv; }
    HarvestMeetsTransmit(s.rx.bufs, s.idx, ret, lo, hi) by { hide AllHarvested; }
    hide T.Taken, Batch, R.FullInv, R.HarvestInv, Intact, SentPrefix, SliceDelivered;
    forall c | 0 <= c < ret
      ensures items[c].len > 0
    {
      assert R.Single(s.rx.bufs[s.idx + c], lo, hi);
    }
  }

  lemma BatchHandedOver(s: Sys)
    requires Fits(s) && s.pc.Holding? && s.idx + s.pc.ret <= |s.rx.bufs|
    ensures var r := Next(s, Cpu);
            && r.pc == InTransmit(s.pc.ret) && r.tx == T.Begin(s.tx, Batch(s.rx.bufs, s.idx, s.pc.ret))
            && r.rx == s.rx && r.idx == s.idx
  {
    hide Batch, T.Begin;
  }

  /** A call that is past its wait loop, or whose next poll takes it there, is back in two steps. */
  lemma {:induction false} TwoSteps(s: Sys, evs: seq<Event>)
    requires Fits(s) && s.pc.InTransmit?
    requires Exec(s, evs).pc == s.pc && !Exec(s, evs).tx.pc.Resting?
    requires !T.CpuStep(Exec(s, evs).tx).pc.Waiting?
    ensures Back(s, evs + [Cpu] + [Cpu])
  {
    ExecOne(s, evs, Cpu);
    ExecOne(s, evs + [Cpu], Cpu);
    BackLater(s, evs, Cpu);
    BackLater(s, evs + [Cpu], Cpu);
    hide Exec, Next, Back;
    TransmitStep(Exec(s, evs), Cpu);
    if Exec(s, evs + [Cpu]).pc.InTransmit? {
      TransmitStep(Exec(s, evs + [Cpu]), Cpu);
    }
  }

  lemma InTransmitActive(s: Sys, n: nat, lo: nat, hi: nat)
    requires Inv(s, n, lo, hi) && s.pc.InTransmit?
    ensures !s.tx.pc.Resting?
  {
  }

  /** On a channel that does not count empty descriptors a short harvest is sent, whatever the
      schedule: once the channel has taken as many steps as there are buffers, two more steps of the
      application find the loop back at its head. */
  lemma {:induction false} ShortHarvestReturns(s: Sys, evs: seq<Event>, n: nat, lo: nat, hi: nat)
    requires Fits(s) && Inv(s, n, lo, hi) && s.pc.Holding? && s.pc.ret < n && s.idx + s.pc.ret <= |s.rx.bufs| == n
    requires Allowed(evs, false) && LengthsWithin(evs, lo, hi) && TxTicks(evs) >= s.pc.ret
    ensures Back(Next(s, Cpu), evs + [Cpu] + [Cpu])
  {
    var r := Next(s, Cpu);
    var pkts := Batch(s.rx.bufs, s.idx, s.pc.ret);
    BatchHandedOver(s);
    SliceLoaded(s, n, lo, hi) by { hide Inv; }
    NextInv(s, Cpu, n, lo, hi) by { hide Inv; }
    TxViewAllowed(evs, false);
    T.CeilingSingles(pkts, n, false);
    hide Inv, Batch, Next, TxView, Allowed, TxTicks, T.Ceiling, T.Taken, T.Begin, T.Inv, T.Ticks;
    TransmitRuns(r, evs);
    BackLater(r, evs, Cpu);
    BackLater(r, evs + [Cpu], Cpu);
    hide Back, Exec, T.Exec;
    if !Back(r, evs) {
      ExecInv(r, evs, n, lo, hi);
      InTransmitActive(Exec(r, evs), n, lo, hi);
      T.InevitableAtCeiling(s.tx, pkts, TxView(evs));
      T.ExecOne(r.tx, TxView(evs), T.Cpu);
      TwoSteps(r, evs);
    }
  }

  /** `k` steps of the transmit channel and nothing else. */
  function TxOnly(k: nat, counts: bool): (evs: seq<Event>)
    ensures |evs| == k && Allowed(evs, counts) && forall lo, hi :: LengthsWithin(evs, lo, hi)
  {
    seq(k, _ => TxHw(Tick(counts, 0, true)))
  }

  lemma {:induction false} TxOnlyView(k: nat, counts: bool)
    ensures TxView(TxOnly(k, counts)) == T.HwOnly(k, counts) && TxTicks(TxOnly(k, counts)) == k
  {
    if k > 0 {
      TxOnlyView(k - 1, counts);
      assert TxOnly(k, counts)[..k - 1] == TxOnly(k - 1, counts);
      T.HwOnlyLast(k, counts);
    }
  }

  lemma {:induction false} TxOnlyNotBack(s: Sys, k: nat, counts: bool)
    requires Fits(s) && s.pc.InTransmit?
    ensures !Back(s, TxOnly(k, counts)) && Exec(s, TxOnly(k, counts)).pc == s.pc
  {
    ExecLast(s, TxOnly(k, counts));
    if k > 0 {
      TxOnlyNotBack(s, k - 1, counts);
      var init := TxOnly(k - 1, counts);
      assert TxOnly(k, counts) == init + [TxHw(Tick(counts, 0, true))];
      BackLater(s, init, TxHw(Tick(counts, 0, true)));
      hide Back, Exec, Next, TxOnly;
      TransmitStep(Exec(s, init), TxHw(Tick(counts, 0, true)));
    }
  }

  /** On one that counts them, the stop mark can be counted before the driver looks. */
  lemma CountedMarkHangs(s: Sys, n: nat, lo: nat, hi: nat)
    requires Fits(s) && Inv(s, n, lo, hi) && s.pc.Holding? && s.pc.ret < n && s.idx + s.pc.ret <= |s.rx.bufs| == n
    ensures !Back(Next(s, Cpu), TxOnly(s.pc.ret + 1, true) + [Cpu] + [Cpu])
  {
    var r, k := Next(s, Cpu), s.pc.ret + 1;
    var pkts := Batch(s.rx.bufs, s.idx, s.pc.ret);
    BatchHandedOver(s);
    SliceLoaded(s, n, lo, hi) by { hide Inv; }
    assert T.Ceiling(T.Taken(pkts, n), n, true) == k;
    var evs := TxOnly(k, true);
    TxOnlyView(k, true);
    assert |pkts| == s.pc.ret;
    hide Inv, Batch, Next, TxView, TxOnly, T.Ceiling, T.Taken, T.Begin, T.Inv, T.HwOnly, T.Ticks;
    TransmitRuns(r, evs);
    TxOnlyNotBack(r, k, true);
    T.ExecProgress(s.tx, pkts, T.HwOnly(k, true), true);
    T.HwOnlyWaits(r.tx, k, true);
    T.BeginProgress(s.tx, pkts, true);
    T.BeginExact(s.tx, pkts);
    T.HwOnlyExact(r.tx, k, true);
    T.Poll(Exec(r, evs).tx);
    assert Exec(r, evs).tx.e.wb == k;
    hide Back, Exec, T.Exec;
    ExecOne(r, evs, Cpu);
    ExecOne(r, evs + [Cpu], Cpu);
    BackLater(r, evs, Cpu);
    BackLater(r, evs + [Cpu], Cpu);
    TransmitStep(Exec(r, evs), Cpu);
    TransmitStep(Exec(r, evs + [Cpu]), Cpu);
  }

  /** Every schedule that gives the transmit channel as many steps as there are buffers and then the
      application two has been back at the head of the loop. */
  ghost predicate AlwaysReturns(s: Sys, counts: bool, lo: nat, hi: nat)
    requires Fits(s) && s.pc.Holding?
  {
    forall evs :: Allowed(evs, counts) && LengthsWithin(evs, lo, hi) && TxTicks(evs) >= s.pc.ret ==>
                    Back(Next(s, Cpu), evs + [Cpu] + [Cpu])
  }

  lemma {:induction false} StalledNeverBack(s: Sys, evs: seq<Event>, n: nat, lo: nat, hi: nat)
    requires Fits(s) && Inv(s, n, lo, hi) && Stalled(s, n) && LengthsWithin(evs, lo, hi)
    ensures !Back(s, evs)
  {
    StallsForever(s, evs, n, lo, hi) by { hide Inv; }
    if evs != [] {
      StalledNeverBack(s, evs[..|evs| - 1], n, lo, hi) by { hide Inv, Back; }
    }
  }

  lemma HoldingBounds(s: Sys, n: nat, lo: nat, hi: nat)
    requires Inv(s, n, lo, hi) && s.pc.Holding?
    ensures 0 < s.pc.ret <= n && s.idx + s.pc.ret <= |s.rx.bufs| == n
  {
  }

  /** Coming back is inevitable exactly for harvests smaller than the ring, on a channel that does not
      count empty descriptors. */
  lemma ForwardingInevitable(s: Sys, n: nat, counts: bool)
    requires Reachable(s, n, 1, R.BUFFER_BYTES) && Fits(s) && s.pc.Holding?
    ensures AlwaysReturns(s, counts, 1, R.BUFFER_BYTES) <==> s.pc.ret < n && !counts
  {
    var lo, hi := 1, R.BUFFER_BYTES;
    ReachableInv(s, n, lo, hi);
    HoldingBounds(s, n, lo, hi);
    hide Inv, Reachable, Back, Exec, Next;
    if s.pc.ret == n {
      HoldingStep(s, Cpu, n, lo, hi);
      NextInv(s, Cpu, n, lo, hi);
      var evs := TxOnly(n, false);
      TxOnlyView(n, false);
      assert LengthsWithin(evs + [Cpu] + [Cpu], lo, hi) by { assert LengthsWithin(evs, lo, hi); }
      StalledNeverBack(Next(s, Cpu), evs + [Cpu] + [Cpu], n, lo, hi);
      assert Allowed(evs, counts) && LengthsWithin(evs, lo, hi) && TxTicks(evs) >= s.pc.ret;
    } else if counts {
      CountedMarkHangs(s, n, lo, hi);
      var evs := TxOnly(s.pc.ret + 1, true);
      TxOnlyView(s.pc.ret + 1, true);
      assert Allowed(evs, counts) && LengthsWithin(evs, lo, hi) && TxTicks(evs) >= s.pc.ret;
    } else {
      forall evs | Allowed(evs, counts) && LengthsWithin(evs, lo, hi) && TxTicks(evs) >= s.pc.ret
        ensures Back(Next(s, Cpu), evs + [Cpu] + [Cpu])
      {
        ShortHarvestReturns(s, evs, n, lo, hi);
      }
    }
  }

  /** The round the loop is in can come to an end. */
  ghost predicate CanFinish(s: Sys, lo: nat, hi: nat)
    requires Fits(s)
  {
    exists evs :: LengthsWithin(evs, lo, hi) && Exec(s, evs).pc.AtHead?
  }

  lemma {:induction false} BackReaches(s: Sys, evs: seq<Event>, lo: nat, hi: nat) returns (k: nat)
    requires Fits(s) && Back(s, evs) && LengthsWithin(evs, lo, hi)
    ensures k <= |evs| && LengthsWithin(evs[..k], lo, hi) && Exec(s, evs[..k]).pc.AtHead?
  {
    if Exec(s, evs).pc.AtHead? {
      k := |evs|;
      assert evs[..k] == evs;
    } else {
      k := BackReaches(s, evs[..|evs| - 1], lo, hi);
      assert evs[..|evs| - 1][..k] == evs[..k];
    }
  }

  lemma {:induction false} CanFinishAfter(s: Sys, evs: seq<Event>, lo: nat, hi: nat)
    requires Fits(s) && LengthsWithin(evs, lo, hi) && Exec(Next(s, Cpu), evs).pc.AtHead?
    ensures CanFinish(s, lo, hi)
  {
    hide Exec, Next, Fits;
    var all := [Cpu] + evs;
    assert LengthsWithin(all, lo, hi) by { assert LengthsWithin([Cpu], lo, hi); LengthsAppend([Cpu], evs, lo, hi); }
    ExecOne(s, [], Cpu);
    assert [] + [Cpu] == [Cpu];
    ExecAppend(s, [Cpu], evs);
    assert Exec(s, all).pc.AtHead?;
  }

  lemma ShortCanFinish(s: Sys, n: nat, lo: nat, hi: nat)
    requires Fits(s) && Inv(s, n, lo, hi) && s.pc.Holding? && s.pc.ret < n && s.idx + s.pc.ret <= |s.rx.bufs| == n
    ensures CanFinish(s, lo, hi)
  {
    var only := TxOnly(s.pc.ret, false);
    TxOnlyView(s.pc.ret, false);
    assert LengthsWithin(only, lo, hi) && LengthsWithin([Cpu], lo, hi);
    hide *;
    LengthsAppend(only, [Cpu], lo, hi);
    LengthsAppend(only + [Cpu], [Cpu], lo, hi);
    ShortHarvestReturns(s, only, n, lo, hi);
    var k := BackReaches(Next(s, Cpu), only + [Cpu] + [Cpu], lo, hi);
    CanFinishAfter(s, (only + [Cpu] + [Cpu])[..k], lo, hi);
  }

  /** A forwarding step gets done exactly when the harvest is smaller than the ring: a whole ring
      harvested at once can never be sent, and the loop never comes back. */
  lemma ForwardingBoundary(s: Sys, n: nat)
    requires Reachable(s, n, 1, R.BUFFER_BYTES) && Fits(s) && s.pc.Holding?
    ensures s.pc.ret <= n && (CanFinish(s, 1, R.BUFFER_BYTES) <==> s.pc.ret < n)
  {
    var lo, hi := 1, R.BUFFER_BYTES;
    ReachableInv(s, n, lo, hi);
    HoldingBounds(s, n, lo, hi);
    hide Inv, Reachable, Next, Exec, Back;
    if s.pc.ret < n {
      ShortCanFinish(s, n, lo, hi);
    } else {
      forall evs | LengthsWithin(evs, lo, hi)
        ensures !Exec(s, evs).pc.AtHead?
      {
        FullHarvestStalls(s, evs, n, lo, hi);
      }
    }
  }
}
