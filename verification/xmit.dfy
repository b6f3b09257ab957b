/** The transmit routine over the driver's objects, with the hardware running between its polls. */
module Transmitting {
  import opened Rings
  import opened Words
  import opened Engines
  import opened Transmit
  import opened Device
  import Registers
  import T = Sending

  /** How a call ends, or that it is still in its wait loop when the observer's patience ends. */
  datatype Outcome = Returned(value: nat) | StillWaiting

  ghost function Packets(pkts: seq<Mbuf>, world: set<Mbuf>): (p: seq<Packet>)
    reads pkts, world
    ensures |p| == |pkts|
  {
    seq(|pkts|, k requires 0 <= k < |pkts| reads pkts, world => PacketAt(pkts[k], world))
  }

  ghost predicate AllWithin(pkts: seq<Mbuf>, world: set<Mbuf>)
    reads pkts, world
  {
    forall k :: 0 <= k < |pkts| ==> pkts[k] in world && Within(pkts[k], pkts[k].nbSegs, world)
  }

  // ---------------------------------------------------------------- filling

  lemma {:induction false} FillConcat(ring: seq<Desc>, used: nat, a: seq<Item>, b: seq<Item>)
    requires used < |ring|
    ensures var (r, u) := Fill(ring, used, a); Fill(ring, used, a + b) == Fill(r, u, b)
  {
    if b == [] {
      assert a + b == a;
    } else {
      FillConcat(ring, used, a, b[..|b| - 1]);
      assert (a + b)[..|a + b| - 1] == a + b[..|b| - 1];
    }
  }

  /** What has been accepted so far and what is left to accept. */
  lemma {:induction false} AcceptedNext(pkts: seq<Packet>, count: nat, avail: nat)
    requires count <= |pkts|
    ensures count == |pkts| ==> Accepted(pkts[count..], avail) == 0
    ensures count < |pkts| && pkts[count].nbSegs > avail ==> Accepted(pkts[count..], avail) == 0
    ensures count < |pkts| && pkts[count].nbSegs <= avail ==>
      Accepted(pkts[count..], avail) == 1 + Accepted(pkts[count + 1..], avail - pkts[count].nbSegs)
  {
    if count < |pkts| {
      assert pkts[count..][1..] == pkts[count + 1..];
    }
  }

  lemma FlatNext(pkts: seq<Packet>, count: nat)
    requires count < |pkts|
    ensures Flat(pkts[..count + 1]) == Flat(pkts[..count]) + Items(pkts[count])
  {
    assert pkts[..count + 1][..count] == pkts[..count];
  }

  lemma FlatNone(pkts: seq<Packet>)
    ensures Flat(pkts[..0]) == []
  {
  }

  lemma {:induction false} AcceptedAtMost(pkts: seq<Packet>, avail: nat)
    requires forall k :: 0 <= k < |pkts| ==> pkts[k].nbSegs >= 1
    ensures Accepted(pkts, avail) <= avail
  {
    if pkts != [] && pkts[0].nbSegs <= avail {
      AcceptedAtMost(pkts[1..], avail - pkts[0].nbSegs);
    }
  }

  method LoadBatch(engine: XdmaEngine, txPkts: array<Mbuf>, from: nat, nb: nat, ghost world: set<Mbuf>)
    returns (count: nat)
    requires engine.used < engine.ring.Length && from + nb <= txPkts.Length
    requires AllWithin(txPkts[from..from + nb], world)
    modifies engine`used, engine.ring
    ensures engine.used < engine.ring.Length
    ensures var pkts := Packets(txPkts[from..from + nb], world);
            && count == Accepted(pkts, engine.ring.Length)
            && (engine.Descs(), engine.used) == Fill(old(engine.Descs()), old(engine.used), Flat(pkts[..count]))
  {
    hide Accepted, Flat, Fill, Items, Chain;
    ghost var pkts := Packets(txPkts[from..from + nb], world);
    ghost var before, u := engine.Descs(), engine.used;
    count := 0;
    var avail: nat := engine.ring.Length;
    FlatNone(pkts);
    FillNone(before, u);
    assert pkts[0..] == pkts;
    while count < nb
      invariant count <= nb && engine.used < engine.ring.Length
      invariant Accepted(pkts, engine.ring.Length) == count + Accepted(pkts[count..], avail)
      invariant (engine.Descs(), engine.used) == Fill(before, u, Flat(pkts[..count]))
    {
      AcceptedNext(pkts, count, avail);
      var mb := txPkts[from + count];
      assert txPkts[from..from + nb][count] == mb;
      assert pkts[count] == PacketAt(mb, world);
      var nsegs := mb.nbSegs;
      if nsegs > avail {
        break;
      }
      avail := avail - nsegs;
      FlatNext(pkts, count);
      FillConcat(before, u, Flat(pkts[..count]), Items(pkts[count]));
      engine.H2cDescSet(mb, world);
      count := count + 1;
    }
    AcceptedNext(pkts, count, avail);
  }

  /** The stop mark, then the adjacency counts. */
  method MarkBatch(engine: XdmaEngine, head: nat, count: nat)
    requires engine.used < engine.ring.Length && head == 0 && count <= 65
    modifies engine.ring
    ensures engine.Descs() == Adjoin(Mark(old(engine.Descs()), engine.used), count,
        if count == 0 then 0 else count - 1)
  {
    ghost var marked := Mark(engine.Descs(), engine.used);
    engine.ControlSet(engine.used, COMPLETED | STOPPED);
    var rounds: nat := if count == 0 then 0 else count - 1;
    for i: nat := 0 to rounds
      invariant engine.Descs() == Adjoin(marked, count, i)
    {
      engine.AdjacentSet((head + i) % engine.ring.Length, count - 2 - i);
    }
  }

  // ---------------------------------------------------------------- the routine

  function HwEvents(ticks: seq<Tick>): (evs: seq<T.Event>)
    ensures |evs| == |ticks|
  {
    seq(|ticks|, k requires 0 <= k < |ticks| => T.Hw(ticks[k]))
  }

  /** The first `k` rounds of the wait loop: in each the hardware runs, then the driver polls. */
  function Rounds(env: nat -> seq<Tick>, k: nat): seq<T.Event> {
    if k == 0 then [] else Rounds(env, k - 1) + HwEvents(env(k - 1)) + [T.Cpu]
  }

  lemma {:induction false} ExecTicks(s: T.Tx, evs: seq<T.Event>, ticks: seq<Tick>)
    requires T.Fits(s)
    ensures T.Exec(s, evs + HwEvents(ticks)) == T.Exec(s, evs).(e := Run(T.Exec(s, evs).e, ticks))
  {
    RunLast(T.Exec(s, evs).e, ticks);
    if ticks == [] {
      assert evs + HwEvents(ticks) == evs;
    } else {
      var init, last := ticks[..|ticks| - 1], ticks[|ticks| - 1];
      assert evs + HwEvents(ticks) == (evs + HwEvents(init)) + [T.Hw(last)];
      T.ExecOne(s, evs + HwEvents(init), T.Hw(last));
      hide T.Exec, Run, Step, HwEvents, T.Fits;
      ExecTicks(s, evs, init);
    }
  }

  lemma ExecRound(s: T.Tx, env: nat -> seq<Tick>, k: nat)
    requires T.Fits(s)
    ensures var before := T.Exec(s, Rounds(env, k));
            var after := before.(e := Run(before.e, env(k)));
            && T.Fits(after) && T.Exec(s, Rounds(env, k) + HwEvents(env(k))) == after
            && T.Exec(s, Rounds(env, k + 1)) == T.CpuStep(after)
  {
    ExecTicks(s, Rounds(env, k), env(k));
    T.ExecOne(s, Rounds(env, k) + HwEvents(env(k)), T.Cpu);
  }

  /** The wait loop, over a machine state that mirrors the engine. Before each poll the channels of
      this engine and of another one are at work. */
  method AwaitCount(engine: XdmaEngine, other: XdmaEngine, nbPkts: nat, env: nat -> seq<Tick>,
                    otherEnv: nat -> seq<Tick>, patience: nat, ghost start: T.Tx)
    returns (exited: bool, ghost k: nat)
    requires engine.Valid() && T.Fits(start) && start.e == engine.State() && start.pc == T.Waiting(nbPkts)
    requires other.Valid() && other != engine
    modifies engine`wb, engine`wbLen, engine`hw, other`wb, other`wbLen, other`hw
    ensures other.Valid() && other.State() == Runs(old(other.State()), otherEnv, k)
    ensures engine.Valid() && engine.State() == T.Exec(start, Rounds(env, k)).e
    ensures T.Exec(start, Rounds(env, k)).pc == if exited then T.Leaving(nbPkts) else T.Waiting(nbPkts)
    ensures k <= patience && (exited || k == patience)
  {
    hide Rounds, Run, T.Exec;
    ghost var others := other.State();
    ExecStart(start, env);
    for i: nat := 0 to patience
      invariant other.Valid() && other.State() == Runs(others, otherEnv, i)
      invariant engine.State() == T.Exec(start, Rounds(env, i)).e
          && T.Exec(start, Rounds(env, i)).pc == T.Waiting(nbPkts)
      invariant engine.Valid()
    {
      ExecRound(start, env, i);
      other.Hardware(otherEnv(i));
      engine.Hardware(env(i));
      if engine.wb % 0x100_0000 == nbPkts {
        return true, i + 1;
      }
    }
    return false, patience;
  }

  lemma {:induction false} ExecStart(s: T.Tx, env: nat -> seq<Tick>)
    requires T.Fits(s)
    ensures Rounds(env, 0) == [] && T.Exec(s, []) == s
  {
  }

  /** The routine up to its wait loop. */
  method BeginBatch(engine: XdmaEngine, txPkts: array<Mbuf>, from: nat, nbPkts: nat, ghost world: set<Mbuf>,
      ghost s0: T.Tx)
    requires engine.Valid() && engine.bar.Valid() && engine.dir == H2C && !engine.running && !engine.hw.busy
    requires from + nbPkts <= txPkts.Length && T.Fits(s0) && s0.e == engine.State()
    requires AllWithin(txPkts[from..from + nbPkts], world)
    requires AllWellFormed(Packets(txPkts[from..from + nbPkts], world))
    modifies engine`used, engine`running, engine`hw, engine.ring, engine.bar
    ensures engine.Valid() && engine.bar.Valid()
    ensures var pkts := Packets(txPkts[from..from + nbPkts], world);
            && engine.State() == T.Begin(s0, pkts).e
            && engine.bar.trace == old(engine.bar.trace) + StartWrites(engine, Accepted(pkts, engine.ring.Length) - 2)
  {
    hide Registers.Writes, Accepted, Flat, Fill, Adjoin, Mark, Packets, Placed;
    engine.running := true;
    var head: nat := 0;
    var count := LoadBatch(engine, txPkts, from, nbPkts, world);
    CountFits(Packets(txPkts[from..from + nbPkts], world), engine);
    MarkBatch(engine, head, count);
    BaseBelow(engine);
    engine.TxEngineStart(engine.virt + DESC_BYTES * head, count as int - 2);
  }

  lemma {:induction false} CountFits(pkts: seq<Packet>, engine: XdmaEngine)
    requires engine.Valid() && AllWellFormed(pkts)
    ensures Accepted(pkts, engine.ring.Length) <= 65
  {
    AcceptedAtMost(pkts, engine.ring.Length);
  }

  lemma IdleEngine(s: T.Tx)
    requires T.Inv(s) && !s.e.running
    ensures T.Fits(s) && !s.e.hw.busy
  {
  }

  /** The transfers `after` are those `before` and then the batch, packet by packet, once each and in
      order, and nothing else but possibly the empty stop mark. */
  predicate Appended(before: seq<Transfer>, after: seq<Transfer>, pkts: seq<Packet>) {
    && |before| + |pkts| <= |after| <= |before| + |pkts| + 1
    && after[..|before|] == before
    && after[|before|..|before| + |pkts|] == T.Carried(Flat(pkts))
    && (|after| > |before| + |pkts| ==> after[|before| + |pkts|].len == 0)
  }

  lemma {:induction false} RoundsQuiet(env: nat -> seq<Tick>, k: nat)
    ensures T.Quiet(Rounds(env, k))
  {
    if k > 0 {
      RoundsQuiet(env, k - 1);
    }
  }

  /** A call that returns has sent its batch of single-segment packets, if it leaves a descriptor. */
  lemma {:induction false} ReturnedMeansSent(s0: T.Tx, pkts: seq<Packet>, env: nat -> seq<Tick>, k: nat)
    requires T.Inv(s0) && s0.pc.Resting? && AllWellFormed(pkts) && T.AllSingle(pkts) && |pkts| < |s0.e.ring|
    requires T.Exec(T.Begin(s0, pkts), Rounds(env, k)).pc.Leaving?
    ensures Appended(s0.e.hw.done, T.Exec(T.Begin(s0, pkts), Rounds(env, k)).e.hw.done, pkts)
  {
    var start, evs := T.Begin(s0, pkts), Rounds(env, k);
    RoundsQuiet(env, k);
    QuietProper(evs);
    T.BeginInv(s0, pkts);
    BeginFacts(s0, pkts);
    hide *;
    T.ExecInv(start, evs);
    T.ExecRing(start, evs);
    T.ExecMark(start, evs);
    T.ExecHistory(start, evs);
    SentAppended(T.Exec(start, evs), s0.e.hw.done);
  }

  lemma {:induction false} SentOnReturn(s0: T.Tx, pkts: seq<Packet>, env: nat -> seq<Tick>, k: nat)
    requires T.Inv(s0) && s0.pc.Resting? && AllWellFormed(pkts)
    requires T.Exec(T.Begin(s0, pkts), Rounds(env, k)).pc.Leaving?
    ensures T.AllSingle(pkts) && pkts != [] ==>
      && |pkts| < |s0.e.ring|
      && Appended(s0.e.hw.done, T.CpuStep(T.Exec(T.Begin(s0, pkts), Rounds(env, k))).e.hw.done, pkts)
  {
    if T.AllSingle(pkts) && pkts != [] {
      ReturnedMeansShort(s0, pkts, env, k);
      ReturnedMeansSent(s0, pkts, env, k);
    }
  }

  /** A batch that fills the ring never returns. */
  lemma {:induction false} ReturnedMeansShort(s0: T.Tx, pkts: seq<Packet>, env: nat -> seq<Tick>, k: nat)
    requires T.Inv(s0) && s0.pc.Resting? && AllWellFormed(pkts) && T.AllSingle(pkts) && pkts != []
    requires T.Exec(T.Begin(s0, pkts), Rounds(env, k)).pc.Leaving?
    ensures |pkts| < |s0.e.ring|
  {
    var start, evs := T.Begin(s0, pkts), Rounds(env, k);
    RoundsQuiet(env, k);
    QuietProper(evs);
    T.BeginInv(s0, pkts);
    BeginFacts(s0, pkts);
    hide *;
    T.ExecInv(start, evs);
    T.ExecRing(start, evs);
    T.ExecMark(start, evs);
    T.ExecHistory(start, evs);
    T.ExitShort(T.Exec(start, evs));
  }

  lemma QuietProper(evs: seq<T.Event>)
    requires T.Quiet(evs)
    ensures T.Proper(evs)
  {
  }

  lemma BeginFacts(s: T.Tx, pkts: seq<Packet>)
    requires T.Fits(s) && T.Inv(s) && s.pc.Resting?
    ensures var r := T.Begin(s, pkts);
            && r.pc == T.Waiting(|pkts|) && r.batch == pkts && r.mark == |s.e.hw.done|
            && r.e.running && r.e.hw.done == s.e.hw.done && |r.e.ring| == |s.e.ring|
  {
  }

  lemma SentAppended(s: T.Tx, before: seq<Transfer>)
    requires T.Inv(s) && s.pc.Leaving? && s.e.running && T.AllSingle(s.batch) && |s.batch| < |s.e.ring|
    requires s.mark == |before| && before <= s.e.hw.done
    ensures Appended(before, s.e.hw.done, s.batch)
  {
    T.ExitSent(s);
    hide T.Inv, T.AllSingle, T.Carried, Flat;
    assert T.SinceMark(s)[..|s.batch|] == s.e.hw.done[|before|..|before| + |s.batch|];
  }

  /** The call returns in time: once the hardware has been given as many steps as there are packets,
      it does so unless the channel has counted the empty stop mark before the driver looked. */
  lemma {:induction false} ReturnsInTime(s0: T.Tx, pkts: seq<Packet>, env: nat -> seq<Tick>, patience: nat)
    requires T.Inv(s0) && s0.pc.Resting? && AllWellFormed(pkts) && T.AllSingle(pkts)
    requires |pkts| < |s0.e.ring| && T.Loaded(T.Taken(pkts, |s0.e.ring|)) && patience > 0
    requires T.Ticks(Rounds(env, patience)) >= |pkts|
    ensures var s := T.Exec(T.Begin(s0, pkts), Rounds(env, patience));
            s.pc.Waiting? ==> T.Missed(s) && !T.Allowed(Rounds(env, patience), false)
  {
    var evs := LastRound(env, patience);
    SinglesRoom(s0, pkts);
    hide *;
    T.ExitOrMissed(s0, pkts, evs);
    if T.Allowed(Rounds(env, patience), false) {
      T.InevitableAtCeiling(s0, pkts, evs);
    }
  }

  /** The rounds up to the last poll. */
  lemma LastRound(env: nat -> seq<Tick>, k: nat) returns (evs: seq<T.Event>)
    requires k > 0
    ensures Rounds(env, k) == evs + [T.Cpu] && T.Quiet(evs) && T.Ticks(evs) == T.Ticks(Rounds(env, k))
    ensures T.Allowed(Rounds(env, k), false) ==> T.Allowed(evs, false)
  {
    evs := Rounds(env, k - 1) + HwEvents(env(k - 1));
    RoundsQuiet(env, k);
    assert (evs + [T.Cpu])[..|evs|] == evs;
    assert forall j :: 0 <= j < |evs| ==> (evs + [T.Cpu])[j] == evs[j];
  }

  lemma SinglesRoom(s: T.Tx, pkts: seq<Packet>)
    requires T.Inv(s) && AllWellFormed(pkts) && T.AllSingle(pkts)
    requires |pkts| < |s.e.ring| && T.Loaded(T.Taken(pkts, |s.e.ring|))
    ensures |pkts| < 0x1_0000 && T.Ceiling(T.Taken(pkts, |s.e.ring|), |s.e.ring|, false) == |pkts|
  {
    T.CeilingSingles(pkts, |s.e.ring|, false);
  }

  /** The transmit routine. `env(k)` is what its channel does before the k-th poll, `otherEnv(k)` what
      the channel of another engine does, and `patience` the number of polls after which the observer
      stops looking. */
  method XmitPkts(engine: XdmaEngine, other: XdmaEngine, txPkts: array<Mbuf>, from: nat, nbPkts: nat,
                  env: nat -> seq<Tick>, otherEnv: nat -> seq<Tick>, patience: nat,
                  ghost world: set<Mbuf>, ghost s0: T.Tx)
    returns (out: Outcome, ghost polls: nat)
    requires engine.Valid() && engine.bar.Valid() && engine.dir == H2C
    requires from + nbPkts <= txPkts.Length && nbPkts < 0x1_0000
    requires AllWithin(txPkts[from..from + nbPkts], world)
    requires AllWellFormed(Packets(txPkts[from..from + nbPkts], world))
    requires s0.e == engine.State() && T.Inv(s0) && (s0.pc.Resting? || engine.running)
    requires other.Valid() && other != engine && other.ring != engine.ring
    modifies engine`used, engine`running, engine`wb, engine`wbLen, engine`hw, engine.ring, engine.bar
    modifies other`wb, other`wbLen, other`hw
    ensures engine.Valid() && engine.bar.Valid()
    ensures other.Valid() && other.State() == Runs(old(other.State()), otherEnv, polls)
    ensures old(engine.running) ==>
      out == Returned(0xFFFF) && engine.State() == old(engine.State()) && engine.bar.trace == old(engine.bar.trace)
    ensures !old(engine.running) ==>
      var last := T.Exec(T.Begin(s0, Packets(txPkts[from..from + nbPkts], world)), Rounds(env, polls));
      match out
      case Returned(value) => value == nbPkts && last.pc == T.Leaving(nbPkts) && engine.State() == T.CpuStep(last).e
      case StillWaiting => polls == patience && last.pc == T.Waiting(nbPkts) && engine.State() == last.e
    ensures !old(engine.running) && out.Returned? ==>
      var pkts := Packets(txPkts[from..from + nbPkts], world);
      out.value == Accepted(pkts, engine.ring.Length) <==> SumSegs(pkts) <= engine.ring.Length
    ensures !old(engine.running) ==>
      var count := Accepted(Packets(txPkts[from..from + nbPkts], world), engine.ring.Length);
      engine.bar.trace == old(engine.bar.trace) + StartWrites(engine, count - 2) +
        if out.Returned? then Registers.Writes(engine.chan, Registers.StopOp) else []
    ensures
      var pkts := Packets(txPkts[from..from + nbPkts], world);
      !old(engine.running) && out.Returned? && T.AllSingle(pkts) && nbPkts > 0 ==>
        nbPkts < engine.ring.Length && Appended(old(engine.hw.done), engine.hw.done, pkts)
  {
    hide Appended, SumSegs, T.AllSingle, T.Exec, Rounds, Registers.Writes, Packets, Placed, Accepted, Program,
        Start, Stop,
        StartWrites, T.Inv, Run, T.Begin;
    polls := 0;
    if engine.running {
      return Returned(0xFFFF), 0;
    }
    IdleEngine(s0);
    AcceptedFits(Packets(txPkts[from..from + nbPkts], world), engine.ring.Length);
    ghost var start := T.Begin(s0, Packets(txPkts[from..from + nbPkts], world));
    BeginFacts(s0, Packets(txPkts[from..from + nbPkts], world));
    BeginBatch(engine, txPkts, from, nbPkts, world, s0);
    var exited;
    exited, polls := AwaitCount(engine, other, nbPkts, env, otherEnv, patience, start);
    if !exited {
      return StillWaiting, polls;
    }
    engine.EngineStop(env(patience));
    out := Returned(nbPkts);
    SentOnReturn(s0, Packets(txPkts[from..from + nbPkts], world), env, polls);
  }
}
