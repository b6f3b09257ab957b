/** The receive routine over the driver's objects, with the hardware running between its reads. */
module ReceiveRoutine {
  import opened Rings
  import opened Engines
  import opened Transmit
  import opened Device
  import Registers
  import P = ReceivePolls
  import R = Receiving

  /** The caller's array as values. `world` holds whatever the buffers chain to. */
  ghost function Buffers(pkts: seq<Mbuf>, world: set<Mbuf>): (b: seq<R.Mbuf>)
    reads pkts, world
    ensures |b| == |pkts|
  {
    seq(|pkts|, k requires 0 <= k < |pkts| reads pkts, world => BufferAt(pkts[k], world))
  }

  /** No buffer occurs twice, and no chain runs through the array. */
  ghost predicate Apart(pkts: seq<Mbuf>, world: set<Mbuf>) {
    && (forall i, j :: 0 <= i < j < |pkts| ==> pkts[i] != pkts[j])
    && (forall i :: 0 <= i < |pkts| ==> pkts[i] !in world)
  }

  // ---------------------------------------------------------------- arming

  lemma {:induction false} ArmNone(ring: seq<Desc>, base: nat, used: nat, bufs: seq<R.Mbuf>)
    requires used < |ring|
    ensures R.Arm(ring, base, used, bufs[..0]) == (ring, used)
  {
  }

  lemma {:induction false} ArmNext(ring: seq<Desc>, base: nat, used: nat, bufs: seq<R.Mbuf>, k: nat)
    requires used < |ring| && k < |bufs|
    ensures var (r, u) := R.Arm(ring, base, used, bufs[..k]);
            R.Arm(ring, base, used, bufs[..k + 1]) ==
              (r[u := R.ArmDesc(r[u], bufs[k], StreamSlot(base, |ring|))], NextSlot(u, |ring|))
  {
    assert bufs[..k + 1][..k] == bufs[..k];
  }

  lemma ArmDescByAddr(d: Desc, m: R.Mbuf, o: R.Mbuf, wbAddr: nat)
    requires m.iova == o.iova && m.off == o.off
    ensures R.ArmDesc(d, m, wbAddr) == R.ArmDesc(d, o, wbAddr)
  {
  }

  method ArmRing(engine: XdmaEngine, rxPkts: array<Mbuf>, nb: nat, ghost world: set<Mbuf>)
    requires engine.Valid() && engine.used < engine.ring.Length && nb <= rxPkts.Length
    modifies engine`used, engine.ring
    ensures engine.Valid()
    ensures (engine.Descs(), engine.used) ==
      R.Arm(old(engine.Descs()), engine.virt + engine.virt2phy, old(engine.used), Buffers(rxPkts[..], world)[..nb])
  {
    hide R.Arm, R.ArmDesc, Placed, StreamSlot, NextSlot, Chain;
    ghost var bufs := Buffers(rxPkts[..], world);
    ghost var before, u, base := engine.Descs(), engine.used, engine.virt + engine.virt2phy;
    ArmNone(before, base, u, bufs);
    for count := 0 to nb
      invariant engine.used < engine.ring.Length && engine.Valid()
      invariant (engine.Descs(), engine.used) == R.Arm(before, base, u, bufs[..count])
    {
      var mb := rxPkts[count];
      ArmNext(before, base, u, bufs, count);
      ArmDescByAddr(engine.Descs()[engine.used], BufferAt(mb, {}), bufs[count],
          StreamSlot(base, engine.ring.Length));
      engine.C2hDescSet(mb);
    }
  }

  // ---------------------------------------------------------------- harvesting

  /** One buffer is closed as a packet of one segment, with the length found in the shared writeback
      slot. The walk over further segments in the source always breaks after the first. */
  method PrepareSegmentedPacket(engine: XdmaEngine, id: nat, rxPkts: array<Mbuf>, ghost world: set<Mbuf>)
      returns (mb: Mbuf)
    requires id < rxPkts.Length && Apart(rxPkts[..], world)
    modifies rxPkts[id]
    ensures mb == rxPkts[id]
    ensures mb.nbSegs == 1 && mb.next == null && mb.pktLen == engine.wbLen && mb.dataLen == engine.wbLen % 0x1_0000
    ensures mb.port == engine.portId && mb.packetType == mb.olFlags == mb.vlanTci == mb.rss == 0
    ensures Buffers(rxPkts[..], world) ==
      old(Buffers(rxPkts[..], world))[id := R.Harvest(old(BufferAt(rxPkts[id], world)), engine.wbLen, engine.portId)]
  {
    mb := rxPkts[id];
    ghost var was := Buffers(rxPkts[..], world);
    mb.nbSegs := 1;
    mb.pktLen := engine.wbLen;
    mb.dataLen := engine.wbLen % 0x1_0000;
    mb.packetType := 0;
    mb.olFlags := 0;
    mb.port := engine.portId;
    mb.vlanTci := 0;
    mb.rss := 0;
    mb.next := null;
    forall k | 0 <= k < rxPkts.Length && k != id
      ensures BufferAt(rxPkts[k], world) == was[k]
    {
      assert rxPkts[k] != mb;
    }
  }

  // ---------------------------------------------------------------- runs of the machine

  function HwEvents(ticks: seq<Tick>): (evs: seq<R.Event>)
    ensures |evs| == |ticks|
  {
    seq(|ticks|, k requires 0 <= k < |ticks| => R.Hw(ticks[k]))
  }

  lemma {:induction false} ExecTicks(s: R.Rx, evs: seq<R.Event>, ticks: seq<Tick>)
    requires R.Fits(s)
    ensures R.Exec(s, evs + HwEvents(ticks)) == R.Exec(s, evs).(e := Run(R.Exec(s, evs).e, ticks))
  {
    RunLast(R.Exec(s, evs).e, ticks);
    if ticks == [] {
      assert evs + HwEvents(ticks) == evs;
    } else {
      var init, last := ticks[..|ticks| - 1], ticks[|ticks| - 1];
      assert evs + HwEvents(ticks) == (evs + HwEvents(init)) + [R.Hw(last)];
      R.ExecOne(s, evs + HwEvents(init), R.Hw(last));
      hide R.Exec, Run, Step, HwEvents, R.Fits;
      ExecTicks(s, evs, init);
    }
  }

  /** The hardware runs, then the driver takes a step. */
  lemma {:induction false} ExecRound(s: R.Rx, evs: seq<R.Event>, ticks: seq<Tick>)
    requires R.Fits(s) && R.Quiet(evs)
    ensures var before := R.Exec(s, evs);
            var after := before.(e := Run(before.e, ticks));
            var more := evs + HwEvents(ticks) + [R.Cpu];
            R.Fits(after) && R.Exec(s, more) == R.CpuStep(after) && R.Quiet(more)
  {
    ExecTicks(s, evs, ticks);
    R.ExecOne(s, evs + HwEvents(ticks), R.Cpu);
  }

  /** Every armed slot has its buffer in the array, and so has every completed one. */
  predicate Backed(e: Engine, len: nat) {
    && e.running && e.hw.completed <= len && e.wb <= len
    && forall i :: len <= i < |e.ring| ==> e.ring[i].len == 0
  }

  lemma {:induction false} RunBacked(e: Engine, ticks: seq<Tick>, len: nat)
    requires Sound(e) && e.dir == C2H && Backed(e, len)
    ensures Sound(Run(e, ticks)) && Run(e, ticks).dir == C2H && Backed(Run(e, ticks), len)
  {
    if ticks != [] {
      RunBacked(e, ticks[..|ticks| - 1], len);
      var before := Run(e, ticks[..|ticks| - 1]);
      StepSound(before, ticks[|ticks| - 1]);
      if before.hw.busy {
        LocateSlot(before.base, |before.ring|, before.hw.completed);
      }
    }
  }

  /** `s` is what `run` makes of `start`, and mirrors the engine and the caller's array. */
  ghost predicate Mirrors(s: R.Rx, start: R.Rx, run: seq<R.Event>, engine: XdmaEngine, rxPkts: array<Mbuf>,
      world: set<Mbuf>)
    reads engine, engine.ring, rxPkts, rxPkts[..], world
  {
    && engine.Valid() && R.Fits(start) && R.Quiet(run) && s == R.Exec(start, run)
    && s.e == engine.State() && s.bufs == Buffers(rxPkts[..], world) && s.port == engine.portId
    && Sound(s.e) && s.e.dir == C2H && Backed(s.e, rxPkts.Length)
  }

  lemma {:induction false} MirrorsKept(s: R.Rx, ticks: seq<Tick>, start: R.Rx, run: seq<R.Event>, len: nat)
    requires R.Fits(start) && R.Quiet(run) && s == R.Exec(start, run) && Sound(s.e) && s.e.dir == C2H
        && Backed(s.e, len)
    ensures var t := s.(e := Run(s.e, ticks));
            var more := run + HwEvents(ticks) + [R.Cpu];
            && R.Fits(t) && R.Exec(start, more) == R.CpuStep(t) && R.Quiet(more) && Sound(t.e) && t.e.dir == C2H
            && Backed(t.e, len) && t.e.wb <= len && t.e.wb <= |t.e.ring|
  {
    ExecRound(start, run, ticks);
    RunBacked(s.e, ticks, len);
  }

  /** The hardware runs before the driver's next step. */
  method Meanwhile(engine: XdmaEngine, rxPkts: array<Mbuf>, ticks: seq<Tick>, ghost world: set<Mbuf>,
                   ghost start: R.Rx, ghost s: R.Rx, ghost run: seq<R.Event>)
    returns (ghost t: R.Rx)
    requires Mirrors(s, start, run, engine, rxPkts, world)
    modifies engine`wb, engine`wbLen, engine`hw
    ensures engine.Valid() && t == s.(e := engine.State()) && engine.State() == Run(old(engine.State()), ticks)
    ensures var more := run + HwEvents(ticks) + [R.Cpu];
            R.Fits(t) && R.Exec(start, more) == R.CpuStep(t) && R.Quiet(more)
    ensures Sound(t.e) && t.e.dir == C2H && Backed(t.e, rxPkts.Length)
    ensures engine.wb <= rxPkts.Length && engine.wb <= engine.ring.Length
  {
    MirrorsKept(s, ticks, start, run, rxPkts.Length);
    hide Sound, Backed, R.Exec, R.CpuStep, Run;
    engine.Hardware(ticks);
    t := s.(e := engine.State());
  }

  /** Closes the buffers from `from` up to `upto`, in place and in order. */
  method PreparePackets(engine: XdmaEngine, rxPkts: array<Mbuf>, upto: nat, from: nat, env: nat -> seq<Tick>,
                        ghost world: set<Mbuf>, ghost start: R.Rx, ghost s0: R.Rx, ghost run0: seq<R.Event>)
    returns (ghost s: R.Rx, ghost run: seq<R.Event>)
    requires Mirrors(s0, start, run0, engine, rxPkts, world) && Apart(rxPkts[..], world)
    requires s0.pc.Harvesting? && s0.pc.next == from && s0.pc.upto == upto && upto <= rxPkts.Length
    modifies engine`wb, engine`wbLen, engine`hw, rxPkts, rxPkts[..]
    ensures rxPkts[..] == old(rxPkts[..])
    ensures Mirrors(s, start, run, engine, rxPkts, world) && s.e.used == s0.e.used && s.nb == s0.nb
    ensures s.pc == R.Harvesting(s0.pc.ret, if from < upto then upto else from, upto)
  {
    hide Sound, Backed, R.Exec, Run, Placed, BufferAt, R.Harvest;
    s, run := s0, run0;
    var id := from;
    while id < upto
      invariant from <= id && (id <= upto || id == from)
      invariant rxPkts[..] == old(rxPkts[..])
      invariant s.pc == R.Harvesting(s0.pc.ret, id, upto) && s.e.used == s0.e.used && s.nb == s0.nb
      invariant Mirrors(s, start, run, engine, rxPkts, world)
    {
      ghost var t := Meanwhile(engine, rxPkts, env(202 + id), world, start, s, run);
      var mb := PrepareSegmentedPacket(engine, id, rxPkts, world);
      rxPkts[id] := mb;
      assert rxPkts[..] == old(rxPkts[..]);
      s, run := R.CpuStep(t), run + HwEvents(env(202 + id)) + [R.Cpu];
      id := id + 1;
    }
  }

  // ---------------------------------------------------------------- the routine

  /** What a caller must keep to while the engine runs: the array that was armed, unchanged. */
  ghost predicate SameArray(s: R.Rx, rxPkts: array<Mbuf>, world: set<Mbuf>)
    reads rxPkts, rxPkts[..], world
  {
    s.e.running ==> s.bufs == Buffers(rxPkts[..], world) && Backed(s.e, rxPkts.Length)
  }

  lemma BeginBacked(s: R.Rx, bufs: seq<R.Mbuf>, nb: nat)
    requires R.Inv(s) && s.pc.Resting? && nb <= |bufs| && (s.e.running ==> Backed(s.e, |bufs|))
    ensures R.Fits(s)
    ensures var r := R.Begin(s, bufs, nb);
            R.Inv(r) && Sound(r.e) && r.e.dir == C2H && Backed(r.e, |bufs|) && r.pc == R.Polling(0) && r.port == s.port
  {
    R.BeginInv(s, bufs, nb);
    if !s.e.running {
      R.ArmAt(s.e.ring, s.e.base, 0, bufs[..Min(nb, |s.e.ring|)]);
    }
  }

  lemma {:induction false} ExecNone(s: R.Rx)
    requires R.Fits(s)
    ensures R.Exec(s, []) == s && R.Quiet([])
  {
  }

  lemma IdleReceiver(s: R.Rx)
    requires R.Inv(s) && !s.e.running
    ensures s.e.used == 0 && !s.e.hw.busy && |s.e.ring| > 0
  {
  }

  /** The routine up to its poll loop. */
  method BeginCall(engine: XdmaEngine, rxPkts: array<Mbuf>, nbPkts: nat, ghost world: set<Mbuf>, ghost s0: R.Rx)
    returns (nb: nat, ghost start: R.Rx)
    requires engine.Valid() && engine.bar.Valid() && engine.dir == C2H && nbPkts <= rxPkts.Length
    requires s0.e == engine.State() && R.Inv(s0) && s0.pc.Resting? && s0.port == engine.portId
    requires SameArray(s0, rxPkts, world)
    modifies engine`used, engine`running, engine`status, engine`hw, engine.ring, engine.bar
    ensures engine.Valid() && engine.bar.Valid() && R.Fits(s0) && engine.status == 0
    ensures start == R.Begin(s0, Buffers(rxPkts[..], world), nbPkts) && nb == start.nb && start.pc == R.Polling(0)
    ensures Mirrors(start, start, [], engine, rxPkts, world)
    ensures engine.bar.trace == old(engine.bar.trace) + if old(engine.running) then [] else StartWrites(engine, 0)
  {
    hide Sound, Backed, R.Inv, R.Arm, R.Exec, Placed, BufferAt, Registers.Writes, Buffers;
    engine.status := 0;
    BeginBacked(s0, Buffers(rxPkts[..], world), nbPkts);
    start := R.Begin(s0, Buffers(rxPkts[..], world), nbPkts);
    ExecNone(start);
    nb := nbPkts;
    if !engine.running {
      IdleReceiver(s0);
      nb := Min(nbPkts, engine.ring.Length);
      ArmRing(engine, rxPkts, nb, world);
      BaseBelow(engine);
      engine.RxEngineStart(engine.virt);
    }
  }

  lemma UsedFree(e: Engine, used: nat, len: nat)
    requires Sound(e) && Backed(e, len)
    ensures Sound(e.(used := used)) && Backed(e.(used := used), len)
  {
  }

  /** The harvest, and the cursor moved to the count that was seen. */
  method HarvestTo(engine: XdmaEngine, rxPkts: array<Mbuf>, seen: nat, env: nat -> seq<Tick>,
                   ghost world: set<Mbuf>, ghost start: R.Rx, ghost s0: R.Rx, ghost run0: seq<R.Event>)
    returns (nbCmptDesc: nat, ghost s: R.Rx, ghost run: seq<R.Event>)
    requires Mirrors(s0, start, run0, engine, rxPkts, world) && Apart(rxPkts[..], world)
    requires s0.pc == R.Harvesting((seen - engine.used) % 0x1_0000, engine.used, seen)
    requires seen <= rxPkts.Length && seen <= engine.ring.Length
    modifies engine`used, engine`status, engine`wb, engine`wbLen, engine`hw, rxPkts, rxPkts[..]
    ensures rxPkts[..] == old(rxPkts[..]) && s.nb == s0.nb && Mirrors(s, start, run, engine, rxPkts, world)
    ensures s.pc == R.Returning(nbCmptDesc) && nbCmptDesc == (seen - old(engine.used)) % 0x1_0000 && engine.status == 1
  {
    hide R.Exec, R.Fits, Sound, Backed, Placed, BufferAt, Buffers, Run, R.Harvest;
    s, run := PreparePackets(engine, rxPkts, seen, engine.used, env, world, start, s0, run0);
    nbCmptDesc := (seen - engine.used) % 0x1_0000;
    ghost var t := Meanwhile(engine, rxPkts, env(202 + seen), world, start, s, run);
    UsedFree(t.e, seen, rxPkts.Length);
    engine.used := seen;
    s, run := R.CpuStep(t), run + HwEvents(env(202 + seen)) + [R.Cpu];
    engine.status := 1;
  }

  /** One read of the count, whichever of the two. */
  method ReadCount(engine: XdmaEngine, rxPkts: array<Mbuf>, ticks: seq<Tick>, ghost world: set<Mbuf>,
                   ghost start: R.Rx, ghost s0: R.Rx, ghost run0: seq<R.Event>)
    returns (seen: nat, ghost s: R.Rx, ghost run: seq<R.Event>)
    requires Mirrors(s0, start, run0, engine, rxPkts, world) && (s0.pc.Polling? || s0.pc.Rereading?)
    modifies engine`wb, engine`wbLen, engine`hw
    ensures Mirrors(s, start, run, engine, rxPkts, world) && seen == engine.wb == s.e.wb && s.e.used == s0.e.used
    ensures s.nb == s0.nb && seen <= rxPkts.Length && seen <= engine.ring.Length
    ensures s.pc == match s0.pc
                    case Polling(t) => R.Rereading(t, seen)
                    case Rereading(t, first) =>
                      if first == seen && first != s0.e.used
                      then R.Harvesting((first - s0.e.used) % 0x1_0000, s0.e.used, first)
                      else if t < 100 then R.Polling(t + 1) else R.Returning(0)
  {
    hide R.Exec, R.Fits, Sound, Backed, Placed, BufferAt, Buffers, Run;
    ghost var t := Meanwhile(engine, rxPkts, ticks, world, start, s0, run0);
    seen := engine.wb;
    s, run := R.CpuStep(t), run0 + HwEvents(ticks) + [R.Cpu];
  }

  /** A harvest is of at least one buffer: counts and cursor are at most 64 apart. */
  lemma FoundPositive(s: R.Rx, seen: nat)
    requires Sound(s.e) && seen <= |s.e.ring| && seen != s.e.used && s.e.used <= |s.e.ring|
    ensures (seen - s.e.used) % 0x1_0000 > 0
  {
  }

  /** One round of the poll loop: two reads of the count and, if they agree on something new, the
      harvest. */
  method Poll(engine: XdmaEngine, rxPkts: array<Mbuf>, tries: nat, env: nat -> seq<Tick>,
              ghost world: set<Mbuf>, ghost start: R.Rx, ghost s0: R.Rx, ghost run0: seq<R.Event>)
    returns (harvested: bool, nbCmptDesc: nat, ghost s: R.Rx, ghost run: seq<R.Event>)
    requires Mirrors(s0, start, run0, engine, rxPkts, world) && Apart(rxPkts[..], world) && s0.pc == R.Polling(tries)
    modifies engine`used, engine`status, engine`wb, engine`wbLen, engine`hw, rxPkts, rxPkts[..]
    ensures rxPkts[..] == old(rxPkts[..]) && s.nb == s0.nb
    ensures Mirrors(s, start, run, engine, rxPkts, world)
    ensures s.pc == if harvested then R.Returning(nbCmptDesc)
                    else if tries < 100 then R.Polling(tries + 1) else R.Returning(0)
    ensures if harvested then engine.status == 1 && nbCmptDesc > 0
            else nbCmptDesc == 0 && engine.status == old(engine.status)
  {
    hide R.Exec, R.Fits, Sound, Backed, Placed, BufferAt, Buffers, Run, R.Harvest;
    nbCmptDesc := 0;
    var seen, again;
    seen, s, run := ReadCount(engine, rxPkts, env(2 * tries), world, start, s0, run0);
    again, s, run := ReadCount(engine, rxPkts, env(2 * tries + 1), world, start, s, run);
    harvested := seen == again && seen != engine.used;
    if harvested {
      FoundPositive(s, seen);
      nbCmptDesc, s, run := HarvestTo(engine, rxPkts, seen, env, world, start, s, run);
    }
  }

  /** At most 101 rounds. */
  method PollLoop(engine: XdmaEngine, rxPkts: array<Mbuf>, env: nat -> seq<Tick>, ghost world: set<Mbuf>,
      ghost start: R.Rx)
    returns (nbCmptDesc: nat, ghost s: R.Rx, ghost run: seq<R.Event>)
    requires Mirrors(start, start, [], engine, rxPkts, world) && Apart(rxPkts[..], world) && start.pc == R.Polling(0)
    modifies engine`used, engine`status, engine`wb, engine`wbLen, engine`hw, rxPkts, rxPkts[..]
    ensures rxPkts[..] == old(rxPkts[..]) && s.nb == start.nb
    ensures Mirrors(s, start, run, engine, rxPkts, world) && s.pc == R.Returning(nbCmptDesc)
    ensures engine.status == if nbCmptDesc > 0 then 1 else old(engine.status)
  {
    hide Mirrors, Apart, R.Exec;
    s, run, nbCmptDesc := start, [], 0;
    for tries: nat := 0 to 101
      invariant Mirrors(s, start, run, engine, rxPkts, world) && s.nb == start.nb
      invariant rxPkts[..] == old(rxPkts[..])
      invariant nbCmptDesc == 0 && engine.status == old(engine.status)
      invariant s.pc == if tries <= 100 then R.Polling(tries) else R.Returning(0)
    {
      var harvested;
      harvested, nbCmptDesc, s, run := Poll(engine, rxPkts, tries, env, world, start, s, run);
      if harvested {
        return;
      }
    }
  }

  /** The receive routine. `env` is what the hardware does between the driver's steps: before the two
      reads of poll `k` at 2k and 2k + 1, before buffer `k` is rewritten at 202 + k, and after. */
  method RecvPkts(engine: XdmaEngine, rxPkts: array<Mbuf>, nbPkts: nat, env: nat -> seq<Tick>,
                  ghost world: set<Mbuf>, ghost s0: R.Rx)
    returns (nbCmptDesc: nat, ghost last: R.Rx, ghost run: seq<R.Event>)
    requires engine.Valid() && engine.bar.Valid() && engine.dir == C2H && nbPkts <= rxPkts.Length && nbPkts < 0x1_0000
    requires Apart(rxPkts[..], world)
    requires s0.e == engine.State() && R.Inv(s0) && s0.pc.Resting? && s0.port == engine.portId
    requires SameArray(s0, rxPkts, world)
    modifies engine`used, engine`running, engine`status, engine`wb, engine`wbLen, engine`hw, engine.ring, engine.bar
    modifies rxPkts, rxPkts[..]
    ensures engine.Valid() && engine.bar.Valid() && rxPkts[..] == old(rxPkts[..])
    ensures R.Fits(s0) && R.Quiet(run) && last == R.Exec(R.Begin(s0, old(Buffers(rxPkts[..], world)), nbPkts), run)
    ensures last.pc == R.Returning(nbCmptDesc) && engine.State() == R.CpuStep(last).e
    ensures engine.State() == if last.e.used == last.nb then Stop(last.e) else last.e
    ensures engine.status == if nbCmptDesc > 0 then 1 else 0
    ensures var start := R.Begin(s0, old(Buffers(rxPkts[..], world)), nbPkts);
            var counts := P.Reads(start, run);
            if nbCmptDesc == 0 then |counts| == 202 && P.NoneBefore(counts, start.e.used, 101)
            else exists k: nat ::
                   P.First(counts, start.e.used, k) && nbCmptDesc == P.Gain(start.e.used, counts[2 * k])
    ensures Buffers(rxPkts[..], world) == last.bufs
    ensures engine.bar.trace == old(engine.bar.trace) + (if old(engine.running) then [] else StartWrites(engine, 0)) +
      if last.e.used == last.nb then Registers.Writes(engine.chan, Registers.StopOp) else []
  {
    hide *;
    ghost var bufs := Buffers(rxPkts[..], world);
    var nb;
    ghost var start;
    nb, start := BeginCall(engine, rxPkts, nbPkts, world, s0);
    nbCmptDesc, last, run := PollLoop(engine, rxPkts, env, world, start);
    ReturnFacts(last, start, run, engine, rxPkts, world, nbCmptDesc);
    P.GivesUpExactlyWhen(s0, bufs, nbPkts, run);
    if engine.used == nb {
      engine.EngineStop(env(203 + engine.ring.Length));
    }
  }

  lemma {:induction false} ReturnFacts(s: R.Rx, start: R.Rx, run: seq<R.Event>, engine: XdmaEngine,
      rxPkts: array<Mbuf>, world: set<Mbuf>,
                    ret: nat)
    requires Mirrors(s, start, run, engine, rxPkts, world) && s.pc == R.Returning(ret)
    ensures engine.Valid() && R.Quiet(run) && s == R.Exec(start, run) && s.bufs == Buffers(rxPkts[..], world)
    ensures R.CpuStep(s).e == if engine.used == s.nb then Stop(engine.State()) else engine.State()
    ensures s.e.used == engine.used && s.e == engine.State()
  {
    hide R.Exec, Placed, Stop;
  }
}
