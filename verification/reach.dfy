/** Runs of one engine as runs of the whole forwarder, and with them that harvests of every size, the
    whole ring included, do happen. */
module ForwardRuns {
  import opened Rings
  import opened Engines
  import opened Transmit
  import opened Forwarding
  import Lengths
  import P = ForwardProgress
  import R = Receiving

  /** A run of the receive engine, with the payloads that come in on its wire. */
  function RxLift(evs: seq<R.Event>, payload: nat -> int): seq<Event> {
    if evs == [] then [] else
      match evs[|evs| - 1]
      case Cpu => RxLift(evs[..|evs| - 1], payload) + [Cpu]
      case Hw(t) => RxLift(evs[..|evs| - 1], payload) + [RxHw(t, payload(|evs|))]
      case _ => RxLift(evs[..|evs| - 1], payload)
  }

  lemma {:induction false} RxLiftLengths(evs: seq<R.Event>, payload: nat -> int, lo: nat, hi: nat)
    requires R.LengthsWithin(evs, lo, hi)
    ensures LengthsWithin(RxLift(evs, payload), lo, hi)
  {
    if evs != [] {
      RxLiftLengths(evs[..|evs| - 1], payload, lo, hi);
    }
  }

  /** One step inside a receive call, as the receive engine sees it. */
  lemma ReceiveStep(s: Sys, ev: R.Event, payload: int)
    requires Fits(s) && s.pc.InReceive? && (ev.Cpu? || ev.Hw?) && (ev.Cpu? ==> !s.rx.pc.Returning?)
    ensures var r := Next(s, if ev.Cpu? then Cpu else RxHw(ev.tick, payload));
            && r == s.(rx := r.rx, mem := r.mem, arrived := r.arrived) && r.rx == R.Next(s.rx, ev)
  {
    hide R.CpuStep;
  }

  /** Quiet steps never leave rest, and a step of the driver leads there from a return. */
  lemma RestIsFinal(s: R.Rx, ev: R.Event)
    requires R.Fits(s) && (ev.Cpu? || ev.Hw?) && !R.Next(s, ev).pc.Resting?
    ensures !s.pc.Resting? && (ev.Cpu? ==> !s.pc.Returning?)
  {
  }

  /** Until the receive call is over, the forwarder runs the receive engine. */
  lemma {:induction false} ReceiveRuns(s: Sys, evs: seq<R.Event>, payload: nat -> int)
    requires Fits(s) && s.pc.InReceive? && R.Quiet(evs) && !R.Exec(s.rx, evs).pc.Resting?
    ensures var r := Exec(s, RxLift(evs, payload));
            r == s.(rx := r.rx, mem := r.mem, arrived := r.arrived) && r.rx == R.Exec(s.rx, evs)
  {
    P.ExecLast(s, []);
    R.ExecOne(s.rx, [], R.Cpu);
    if evs != [] {
      var init, last := evs[..|evs| - 1], evs[|evs| - 1];
      R.ExecOne(s.rx, init, last);
      assert init + [last] == evs;
      var lifted := RxLift(init, payload);
      var ev := if last.Cpu? then Cpu else RxHw(last.tick, payload(|evs|));
      assert RxLift(evs, payload) == lifted + [ev];
      hide Exec, R.Exec, Next, R.Next, RxLift, Fits;
      RestIsFinal(R.Exec(s.rx, init), last);
      ReceiveRuns(s, init, payload);
      P.ExecOne(s, lifted, ev);
      ReceiveStep(Exec(s, lifted), last, payload(|evs|));
    }
  }

  // ---------------------------------------------------------------- a harvest of any size

  /** Just armed: nothing delivered, nothing reported. */
  predicate Armed(s: R.Rx, n: nat) {
    && R.FullInv(s) && s.e.running && s.pc == R.Polling(0) && s.e.used == 0 && |s.e.ring| == n
    && s.mark == |s.e.hw.done|
  }

  /** What a run of deliveries leads to. */
  predicate Delivered(s: R.Rx, r: R.Rx, m: nat) {
    && R.FullInv(r) && r == s.(e := r.e) && r.e.running && r.e.used == s.e.used && |r.e.ring| == |s.e.ring|
    && r.e.hw.completed == m == r.e.wb
  }

  lemma {:induction false} Delivers(s: R.Rx, n: nat, m: nat, bytes: nat)
    requires Armed(s, n) && m <= n && 1 <= bytes <= R.BUFFER_BYTES
    ensures Delivered(s, R.Exec(s, R.Deliver(m, bytes)), m)
  {
    if m > 0 {
      Delivers(s, n, m - 1, bytes);
      var before := R.Deliver(m - 1, bytes);
      assert R.Deliver(m, bytes) == before + [R.Hw(Tick(false, bytes, false))];
      R.ExecOne(s, before, R.Hw(Tick(false, bytes, false)));
      hide R.Exec, R.Deliver;
      DeliverOne(s, R.Exec(s, before), n, m - 1, bytes);
    } else {
      R.ExecOne(s, [], R.Cpu);
      hide R.Exec;
    }
  }

  lemma DeliverOne(s: R.Rx, r: R.Rx, n: nat, m: nat, bytes: nat)
    requires Delivered(s, r, m) && m < n == |s.e.ring| && 1 <= bytes <= R.BUFFER_BYTES
    ensures Delivered(s, R.Next(r, R.Hw(Tick(false, bytes, false))), m + 1)
  {
    Lengths.Delivered(r, Tick(false, bytes, false));
    R.StepFull(r, Tick(false, bytes, false));
    hide R.FullInv, R.Next;
  }

  /** Two reads of the count, and then `j` buffers of `m` rewritten. */
  lemma {:induction false} Harvests(s: R.Rx, m: nat, j: nat)
    requires R.Fits(s) && s.pc == R.Polling(0) && s.e.running && s.e.used == 0 && s.e.wb == m
    requires 0 < m <= |s.bufs| && m < 0x1_0000 && j <= m
    ensures var r := R.Exec(s, R.Steps(2 + j));
            r.pc == R.Harvesting(m, j, m) && r.e == s.e && |r.bufs| == |s.bufs| && R.Fits(r)
  {
    R.StepsLast(2 + j);
    R.StepsLast(1 + j);
    R.StepsLast(j);
    hide R.Exec, R.Next, R.Steps;
    R.ExecOne(s, R.Steps(1 + j), R.Cpu);
    if j > 0 {
      Harvests(s, m, j - 1);
      HarvestOne(R.Exec(s, R.Steps(1 + j)), m, j - 1);
    } else {
      R.ExecOne(s, [], R.Cpu);
      ReadTwice(s, m);
    }
  }

  lemma ReadTwice(s: R.Rx, m: nat)
    requires R.Fits(s) && s.pc == R.Polling(0) && s.e.running && s.e.used == 0 && s.e.wb == m && 0 < m < 0x1_0000
    ensures R.Next(R.Next(s, R.Cpu), R.Cpu) == s.(pc := R.Harvesting(m, 0, m))
  {
    assert R.CpuStep(s) == s.(pc := R.Rereading(0, m));
  }

  lemma HarvestOne(s: R.Rx, m: nat, j: nat)
    requires R.Fits(s) && s.pc == R.Harvesting(m, j, m) && j < m <= |s.bufs|
    ensures var r := R.Next(s, R.Cpu); r.pc == R.Harvesting(m, j + 1, m) && r.e == s.e && |r.bufs| == |s.bufs|
  {
    hide R.Harvest;
  }

  /** The whole call: `m` deliveries, the reads, the harvest, and the cursor. */
  function Harvest(m: nat, bytes: nat): seq<R.Event> {
    R.Deliver(m, bytes) + R.Steps(3 + m)
  }

  lemma {:induction false} HarvestReturns(s: R.Rx, n: nat, m: nat, bytes: nat)
    requires Armed(s, n) && 0 < m <= n <= |s.bufs| && n <= 64 && 1 <= bytes <= R.BUFFER_BYTES && R.Fits(s)
    ensures R.Exec(s, Harvest(m, bytes)).pc == R.Returning(m)
    ensures R.Quiet(Harvest(m, bytes))
  {
    Delivers(s, n, m, bytes);
    var mid := R.Exec(s, R.Deliver(m, bytes));
    R.ExecAppend(s, R.Deliver(m, bytes), R.Steps(3 + m));
    hide R.FullInv, R.Deliver, R.Exec;
    Harvests(mid, m, m);
    R.StepsLast(3 + m);
    R.ExecOne(mid, R.Steps(2 + m), R.Cpu);
    hide R.Steps;
  }

  /** The loop arms the ring, `m` packets come in, and the call returns them. */
  function HarvestRun(m: nat, bytes: nat): seq<Event> {
    [Cpu] + RxLift(Harvest(m, bytes), _ => 0) + [Cpu]
  }

  lemma BeginArms(s: Sys, n: nat, lo: nat, hi: nat)
    requires Fits(s) && Inv(s, n, lo, hi) && s.pc.AtHead? && !s.rx.e.running
    ensures var r := Next(s, Cpu);
            r.pc == InReceive && Armed(r.rx, n) && |r.rx.bufs| == n <= 64 && R.Fits(r.rx)
  {
    R.BeginFull(s.rx, s.rx.bufs) by { hide R.FullInv; }
    ReceiveBegins(s.rx, n) by { hide R.FullInv; }
    hide R.Begin;
  }

  lemma HarvestLengths(m: nat, bytes: nat, lo: nat, hi: nat)
    requires lo <= bytes <= hi
    ensures R.LengthsWithin(Harvest(m, bytes), lo, hi)
  {
  }

  /** From the head of the loop with the receive engine stopped, a harvest of any size can come about. */
  lemma {:induction false} HarvestHappens(s: Sys, n: nat, m: nat, lo: nat, hi: nat)
    requires Fits(s) && Inv(s, n, lo, hi) && s.pc.AtHead? && !s.rx.e.running && 0 < m <= n
    ensures LengthsWithin(HarvestRun(m, lo), lo, hi) && Exec(s, HarvestRun(m, lo)).pc == Holding(m)
  {
    var run := Harvest(m, lo);
    var lifted := RxLift(run, _ => 0);
    HarvestLengths(m, lo, lo, hi);
    RxLiftLengths(run, _ => 0, lo, hi);
    P.LengthsAppend([Cpu], lifted, lo, hi);
    P.LengthsAppend([Cpu] + lifted, [Cpu], lo, hi);
    assert 1 <= lo <= R.BUFFER_BYTES;
    BeginArms(s, n, lo, hi) by { hide Inv; }
    hide Inv, Exec, Next, Armed, Harvest, RxLift, R.Exec, R.Fits;
    var r := Next(s, Cpu);
    HarvestReturns(r.rx, n, m, lo);
    ReceiveRuns(r, run, _ => 0);
    P.ExecOne(s, [], Cpu);
    assert [] + [Cpu] == [Cpu];
    P.ExecAppend(s, [Cpu], lifted);
    P.ExecOne(s, [Cpu] + lifted, Cpu);
    ReturnHolds(Exec(r, lifted), m);
  }

  lemma ReturnHolds(s: Sys, m: nat)
    requires Fits(s) && s.pc.InReceive? && s.rx.pc == R.Returning(m) && m > 0
    ensures Next(s, Cpu).pc == Holding(m)
  {
    hide R.CpuStep;
  }

  /** So the forwarder reaches a harvest of every size, and the whole ring is one of them. */
  lemma EveryHarvestReachable(n: nat, m: nat, rxBase: nat, txBase: nat, port: nat, bufs: seq<R.Mbuf>, lo: nat, hi: nat)
    requires Placed(rxBase, n) && Placed(txBase, n) && |bufs| == n && Distinct(bufs)
    requires 1 <= lo <= hi <= R.BUFFER_BYTES && 0 < m <= n
    ensures exists s :: Reachable(s, n, lo, hi) && s.pc == Holding(m)
  {
    var start := Forwarding.Launch(n, rxBase, txBase, port, bufs);
    LaunchInv(n, rxBase, txBase, port, bufs, lo, hi);
    HarvestHappens(start, n, m, lo, hi) by { hide Inv; }
    hide Inv, Exec, HarvestRun, Distinct;
    var s := Exec(start, HarvestRun(m, lo));
    assert IsRun(s, n, lo, hi, rxBase, txBase, port, bufs, HarvestRun(m, lo));
    assert Reachable(s, n, lo, hi);
  }

  /** And so does it reach the state it never gets out of. */
  lemma StallReachable(n: nat, rxBase: nat, txBase: nat, port: nat, bufs: seq<R.Mbuf>, lo: nat, hi: nat)
    requires Placed(rxBase, n) && Placed(txBase, n) && |bufs| == n && Distinct(bufs)
    requires 1 <= lo <= hi <= R.BUFFER_BYTES
    ensures exists s :: Reachable(s, n, lo, hi) && P.Stalled(s, n)
  {
    var start := Forwarding.Launch(n, rxBase, txBase, port, bufs);
    LaunchInv(n, rxBase, txBase, port, bufs, lo, hi);
    assert 2 <= n;
    HarvestHappens(start, n, n, lo, hi) by { hide Inv; }
    hide Inv, Exec, HarvestRun, Distinct, Next, P.Stalled;
    var evs := HarvestRun(n, lo);
    var s := Exec(start, evs);
    ExecInv(start, evs, n, lo, hi);
    P.HoldingBounds(s, n, lo, hi);
    P.HoldingStep(s, Cpu, n, lo, hi);
    P.ExecOne(start, evs, Cpu);
    P.LengthsAppend(evs, [Cpu], lo, hi);
    assert IsRun(Next(s, Cpu), n, lo, hi, rxBase, txBase, port, bufs, evs + [Cpu]);
    assert Reachable(Next(s, Cpu), n, lo, hi);
  }
}
