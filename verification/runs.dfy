/** What the two calls of a forwarding round do, as runs of the whole forwarder. */
module RoundRuns {
  import opened Rings
  import opened Engines
  import opened Transmit
  import opened Forwarding
  import opened ForwardRuns
  import Device
  import P = ForwardProgress
  import R = Receiving
  import RecvSide = ReceiveRoutine
  import T = Sending
  import XmitSide = Transmitting

  /** The whole receive call, from the head of the loop. */
  function ReceiveEvents(run: seq<R.Event>, payload: nat -> int): seq<Event> {
    [Cpu] + RxLift(run, payload) + [Cpu]
  }

  lemma {:induction false} ReceiveRun(s: Sys, run: seq<R.Event>, payload: nat -> int, last: R.Rx, ret: nat)
    requires Fits(s) && s.pc.AtHead? && R.Quiet(run)
    requires last == R.Exec(R.Begin(s.rx, s.rx.bufs, |s.rx.bufs|), run) && last.pc == R.Returning(ret)
    ensures var r := Exec(s, ReceiveEvents(run, payload));
            r == s.(rx := R.CpuStep(last), pc := if ret > 0 then Holding(ret) else AtHead, recv := s.recv + ret,
                    recvBatch := s.recvBatch + (if ret > 0 then 1 else 0), mem := r.mem, arrived := r.arrived)
  {
    var r := Next(s, Cpu);
    assert r == s.(rx := R.Begin(s.rx, s.rx.bufs, |s.rx.bufs|), pc := InReceive) by { hide R.Begin; }
    hide Exec, Next, R.Exec, R.Begin, R.Fits, RxLift;
    ReceiveRuns(r, run, payload) by { BeginActive(s); }
    P.ExecOne(s, [], Cpu);
    assert [] + [Cpu] == [Cpu];
    P.ExecAppend(s, [Cpu], RxLift(run, payload));
    P.ExecOne(s, [Cpu] + RxLift(run, payload), Cpu);
    ReturnStep(Exec(r, RxLift(run, payload)), ret);
  }

  lemma BeginActive(s: Sys)
    requires Fits(s)
    ensures R.Fits(R.Begin(s.rx, s.rx.bufs, |s.rx.bufs|))
  {
    hide R.Begin;
  }

  lemma ReturnStep(s: Sys, ret: nat)
    requires Fits(s) && s.pc.InReceive? && s.rx.pc == R.Returning(ret)
    ensures Next(s, Cpu) == s.(rx := R.CpuStep(s.rx), pc := if ret > 0 then Holding(ret) else AtHead,
                               recv := s.recv + ret, recvBatch := s.recvBatch + if ret > 0 then 1 else 0)
  {
    hide R.CpuStep;
  }

  // ---------------------------------------------------------------- the transmit call

  function RxTicks(ticks: seq<Tick>, payload: nat -> int): (evs: seq<Event>)
    ensures |evs| == |ticks|
  {
    seq(|ticks|, k requires 0 <= k < |ticks| => RxHw(ticks[k], payload(k)))
  }

  function TxTicks(ticks: seq<Tick>): (evs: seq<Event>)
    ensures |evs| == |ticks|
  {
    seq(|ticks|, k requires 0 <= k < |ticks| => TxHw(ticks[k]))
  }

  lemma RxHwStep(s: Sys, t: Tick, payload: int)
    requires Fits(s)
    ensures var r := Next(s, RxHw(t, payload));
            r == s.(rx := s.rx.(e := Step(s.rx.e, t)), mem := r.mem, arrived := r.arrived)
  {
    hide Step;
  }

  lemma TxHwStep(s: Sys, t: Tick)
    requires Fits(s)
    ensures var r := Next(s, TxHw(t)); r == s.(tx := s.tx.(e := Step(s.tx.e, t)), sent := r.sent)
  {
    hide Step;
  }

  lemma {:induction false} RxTicksRun(s: Sys, ticks: seq<Tick>, payload: nat -> int)
    requires Fits(s)
    ensures var r := Exec(s, RxTicks(ticks, payload));
            r == s.(rx := s.rx.(e := Device.Run(s.rx.e, ticks)), mem := r.mem, arrived := r.arrived)
  {
    Device.RunLast(s.rx.e, ticks);
    P.ExecOne(s, [], Cpu);
    if ticks == [] {
      assert RxTicks(ticks, payload) == [];
    } else {
      var init, last := ticks[..|ticks| - 1], ticks[|ticks| - 1];
      var ev := RxHw(last, payload(|ticks| - 1));
      assert RxTicks(ticks, payload) == RxTicks(init, payload) + [ev];
      hide Exec, Next, Device.Run, Step, RxTicks, Fits;
      P.ExecOne(s, RxTicks(init, payload), ev);
      RxTicksRun(s, init, payload);
      RxHwStep(Exec(s, RxTicks(init, payload)), last, payload(|ticks| - 1));
    }
  }

  lemma {:induction false} TxTicksRun(s: Sys, ticks: seq<Tick>)
    requires Fits(s)
    ensures var r := Exec(s, TxTicks(ticks)); r == s.(tx := s.tx.(e := Device.Run(s.tx.e, ticks)), sent := r.sent)
  {
    Device.RunLast(s.tx.e, ticks);
    P.ExecOne(s, [], Cpu);
    if ticks == [] {
      assert TxTicks(ticks) == [];
    } else {
      var init, last := ticks[..|ticks| - 1], ticks[|ticks| - 1];
      assert TxTicks(ticks) == TxTicks(init) + [TxHw(last)];
      hide Exec, Next, Device.Run, Step, TxTicks, Fits;
      P.ExecOne(s, TxTicks(init), TxHw(last));
      TxTicksRun(s, init);
      TxHwStep(Exec(s, TxTicks(init)), last);
    }
  }

  /** One poll of a transmit call, with both channels at work before it. */
  function PollRound(ticks: seq<Tick>, rxTicks: seq<Tick>, payload: nat -> int): seq<Event> {
    RxTicks(rxTicks, payload) + TxTicks(ticks) + [Cpu]
  }

  function Polls(env: nat -> seq<Tick>, rxEnv: nat -> seq<Tick>, payload: nat -> nat -> int, k: nat): seq<Event> {
    if k == 0 then [] else
      Polls(env, rxEnv, payload, k - 1) + PollRound(env(k - 1), rxEnv(k - 1), payload(k - 1))
  }

  lemma {:induction false} RoundRun(s: Sys, ticks: seq<Tick>, rxTicks: seq<Tick>, payload: nat -> int)
    requires Fits(s) && s.pc.InTransmit? && s.tx.pc.Waiting? && T.Fits(s.tx.(e := Device.Run(s.tx.e, ticks)))
    ensures var r := Exec(s, PollRound(ticks, rxTicks, payload));
            r == s.(tx := T.CpuStep(s.tx.(e := Device.Run(s.tx.e, ticks))),
                rx := s.rx.(e := Device.Run(s.rx.e, rxTicks)),
                    mem := r.mem, arrived := r.arrived, sent := r.sent)
  {
    hide Exec, Next, Device.Run, RxTicks, TxTicks, Fits, T.CpuStep;
    var rxs, txs := RxTicks(rxTicks, payload), TxTicks(ticks);
    RxTicksRun(s, rxTicks, payload);
    P.ExecAppend(s, rxs, txs);
    TxTicksRun(Exec(s, rxs), ticks);
    P.ExecOne(s, rxs + txs, Cpu);
    PollStep(Exec(s, rxs + txs));
  }

  /** The state `k` polls into a transmit call. */
  predicate Polled(s: Sys, r: Sys, env: nat -> seq<Tick>, rxEnv: nat -> seq<Tick>, k: nat)
    requires Fits(s)
  {
    r == s.(tx := T.Exec(s.tx, XmitSide.Rounds(env, k)), rx := s.rx.(e := Device.Runs(s.rx.e, rxEnv, k)),
            mem := r.mem, arrived := r.arrived, sent := r.sent)
  }

  lemma {:induction false} PollsRun(s: Sys, env: nat -> seq<Tick>, rxEnv: nat -> seq<Tick>,
      payload: nat -> nat -> int, k: nat)
    requires Fits(s) && s.pc.InTransmit? && !T.Exec(s.tx, XmitSide.Rounds(env, k)).pc.Resting?
    ensures Polled(s, Exec(s, Polls(env, rxEnv, payload, k)), env, rxEnv, k)
  {
    PollsLast(s, env, rxEnv, payload, k);
    hide *;
    if k > 0 {
      WaitsBefore(s.tx, env, k);
      PollsRun(s, env, rxEnv, payload, k - 1);
      PolledNext(s, Polls(env, rxEnv, payload, k - 1), env, rxEnv, payload, k);
    }
  }

  lemma PollsLast(s: Sys, env: nat -> seq<Tick>, rxEnv: nat -> seq<Tick>, payload: nat -> nat -> int, k: nat)
    requires Fits(s)
    ensures T.Fits(s.tx)
    ensures if k == 0 then Polled(s, Exec(s, Polls(env, rxEnv, payload, k)), env, rxEnv, k)
            else Polls(env, rxEnv, payload, k) ==
                 Polls(env, rxEnv, payload, k - 1) + PollRound(env(k - 1), rxEnv(k - 1), payload(k - 1))
  {
    P.ExecOne(s, [], Cpu);
    T.ExecOne(s.tx, [], T.Cpu);
  }

  lemma WaitsBefore(s: T.Tx, env: nat -> seq<Tick>, k: nat)
    requires T.Fits(s) && k > 0 && !T.Exec(s, XmitSide.Rounds(env, k)).pc.Resting?
    ensures T.Exec(s, XmitSide.Rounds(env, k - 1)).pc.Waiting?
  {
    RoundFacts(s, env, k);
    hide *;
    var before := T.Exec(s, XmitSide.Rounds(env, k - 1));
    StepWaits(before.(e := Device.Run(before.e, env(k - 1))));
  }

  lemma StepWaits(s: T.Tx)
    requires T.Fits(s) && !T.CpuStep(s).pc.Resting?
    ensures s.pc.Waiting?
  {
  }

  lemma PolledNext(s: Sys, evs: seq<Event>, env: nat -> seq<Tick>, rxEnv: nat -> seq<Tick>,
      payload: nat -> nat -> int, k: nat)
    requires Fits(s) && s.pc.InTransmit? && k > 0 && Polled(s, Exec(s, evs), env, rxEnv, k - 1)
    requires T.Exec(s.tx, XmitSide.Rounds(env, k - 1)).pc.Waiting?
    ensures Polled(s, Exec(s, evs + PollRound(env(k - 1), rxEnv(k - 1), payload(k - 1))), env, rxEnv, k)
  {
    var ticks, rxTicks := env(k - 1), rxEnv(k - 1);
    RoundFacts(s.tx, env, k);
    assert Device.Runs(s.rx.e, rxEnv, k) == Device.Run(Device.Runs(s.rx.e, rxEnv, k - 1), rxTicks);
    hide Exec, T.Exec, T.CpuStep, Device.Run, Device.Runs, PollRound, Fits, T.Fits, XmitSide.Rounds;
    P.ExecAppend(s, evs, PollRound(ticks, rxTicks, payload(k - 1)));
    RoundRun(Exec(s, evs), ticks, rxTicks, payload(k - 1));
  }

  lemma RoundFacts(s: T.Tx, env: nat -> seq<Tick>, k: nat)
    requires T.Fits(s) && k > 0
    ensures var before := T.Exec(s, XmitSide.Rounds(env, k - 1));
            var after := before.(e := Device.Run(before.e, env(k - 1)));
            T.Fits(after) && T.Exec(s, XmitSide.Rounds(env, k)) == T.CpuStep(after)
  {
    XmitSide.ExecRound(s, env, k - 1);
  }

  lemma PollStep(s: Sys)
    requires Fits(s) && s.pc.InTransmit? && s.tx.pc.Waiting?
    ensures Next(s, Cpu) == s.(tx := T.CpuStep(s.tx))
  {
    hide T.CpuStep;
  }

  /** The whole transmit call, from the slice in hand: back to the head of the loop when it returns, or
      still waiting. */
  function TransmitEvents(env: nat -> seq<Tick>, rxEnv: nat -> seq<Tick>, payload: nat -> nat -> int, k: nat,
                          returned: bool): seq<Event> {
    [Cpu] + Polls(env, rxEnv, payload, k) + if returned then [Cpu] else []
  }

  lemma {:induction false} TransmitRun(s: Sys, env: nat -> seq<Tick>, rxEnv: nat -> seq<Tick>,
      payload: nat -> nat -> int, k: nat,
                    last: T.Tx, ret: nat)
    requires Fits(s) && s.pc == Holding(ret) && s.idx + ret <= |s.rx.bufs|
    requires last == T.Exec(T.Begin(s.tx, Batch(s.rx.bufs, s.idx, ret)), XmitSide.Rounds(env, k))
    requires last.pc == T.Leaving(ret) || last.pc == T.Waiting(ret)
    ensures var r := Exec(s, TransmitEvents(env, rxEnv, payload, k, last.pc.Leaving?));
            var rx := s.rx.(e := Device.Runs(s.rx.e, rxEnv, k));
            if last.pc.Leaving? then
              r == s.(tx := T.CpuStep(last), rx := rx, pc := AtHead, idx := (s.idx + ret) % |s.rx.bufs|,
                      xmit := s.xmit + ret, xmitBatch := s.xmitBatch + 1,
                      mem := r.mem, arrived := r.arrived, sent := r.sent)
            else
              r == s.(tx := last, rx := rx, pc := InTransmit(ret), mem := r.mem, arrived := r.arrived, sent := r.sent)
  {
    hide Exec, Next, T.Exec, T.Begin, Batch, Device.Runs, Fits, Polls, XmitSide.Rounds;
    var polls, begun := Polls(env, rxEnv, payload, k), Next(s, Cpu);
    BatchBegun(s);
    PollsRun(begun, env, rxEnv, payload, k);
    P.ExecOne(s, [], Cpu);
    assert [] + [Cpu] == [Cpu];
    P.ExecAppend(s, [Cpu], polls);
    CallEnds(s, [Cpu] + polls, last.pc.Leaving?);
    if last.pc.Leaving? {
      LeaveStep(Exec(begun, polls), ret);
    }
  }

  lemma {:induction false} CallEnds(s: Sys, evs: seq<Event>, returned: bool)
    requires Fits(s)
    ensures Exec(s, evs + if returned then [Cpu] else []) == if returned then Next(Exec(s, evs), Cpu) else Exec(s, evs)
  {
    P.ExecOne(s, evs, Cpu);
    assert evs + [] == evs;
    hide Exec;
  }

  lemma BatchBegun(s: Sys)
    requires Fits(s) && s.pc.Holding? && s.idx + s.pc.ret <= |s.rx.bufs|
    ensures Next(s, Cpu) == s.(tx := T.Begin(s.tx, Batch(s.rx.bufs, s.idx, s.pc.ret)), pc := InTransmit(s.pc.ret))
    ensures T.Fits(s.tx)
  {
    hide Batch, T.Begin;
  }

  lemma LeaveStep(s: Sys, ret: nat)
    requires Fits(s) && s.pc.InTransmit? && s.tx.pc == T.Leaving(ret)
    ensures Next(s, Cpu) == s.(tx := T.CpuStep(s.tx), pc := AtHead, idx := (s.idx + ret) % |s.rx.bufs|,
                               xmit := s.xmit + ret, xmitBatch := s.xmitBatch + 1)
  {
    hide T.CpuStep;
  }
}
