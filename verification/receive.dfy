/** The receive engine as two processes: the driver arming the ring once and harvesting over many
    calls, and the channel hardware filling buffers between any two of its reads. */
module Receiving {
  import opened Words
  import opened Rings
  import opened Engines
  import opened Transmit

  /** A packet buffer: where its data is, and the metadata a receive fills in. `rest` is what
      follows it in its chain. */
  datatype Mbuf = Mbuf(iova: nat, off: nat, dataLen: nat, pktLen: nat, nbSegs: nat, rest: seq<Segment>,
                       packetType: nat, olFlags: nat, port: nat, vlanTci: nat, rss: nat)

  function DataAddr(m: Mbuf): nat { (m.iova + m.off) % TWO64 }

  const BUFFER_BYTES: nat := 64

  function ArmDesc(d: Desc, m: Mbuf, wbAddr: nat): Desc {
    d.(dstLo := Lo(DataAddr(m)), dstHi := Hi(DataAddr(m)), srcLo := Lo(wbAddr), srcHi := Hi(wbAddr),
       len := BUFFER_BYTES, control := SetFlags(d.control, COMPLETED))
  }

  /** Arms one descriptor per buffer from cursor `used`, wrapping at the end of the ring. */
  function Arm(ring: seq<Desc>, base: nat, used: nat, bufs: seq<Mbuf>): (r: (seq<Desc>, nat))
    requires used < |ring|
    ensures |r.0| == |ring| && r.1 < |ring|
  {
    if bufs == [] then (ring, used) else
      var (before, u) := Arm(ring, base, used, bufs[..|bufs| - 1]);
      (before[u := ArmDesc(before[u], bufs[|bufs| - 1], StreamSlot(base, |ring|))], NextSlot(u, |ring|))
  }

  /** What a harvest writes into a buffer: one segment, closed, with the length found in the
      writeback slot, the 16-bit field cutting it. */
  function Harvest(m: Mbuf, wbLen: nat, port: nat): Mbuf {
    m.(nbSegs := 1, pktLen := wbLen, dataLen := wbLen % 0x1_0000, packetType := 0, olFlags := 0,
       port := port, vlanTci := 0, rss := 0, rest := [])
  }

  /** Where the driver thread is: outside the routine, before the first or the second read of the
      count, rewriting buffers, or about to return `ret`. */
  datatype Pc = Resting
              | Polling(tries: nat)
              | Rereading(tries: nat, seen: nat)
              | Harvesting(ret: nat, next: nat, upto: nat)
              | Returning(ret: nat)

  /** `bufs` is the caller's array and `nb` its count argument; `got` is the history of the data
      addresses reported to callers, `entry` its length when the current call began, and `mark`
      the length of the transfer history when the ring was last armed. */
  datatype Rx = Rx(e: Engine, pc: Pc, nb: nat, bufs: seq<Mbuf>, port: nat,
                   got: seq<nat>, entry: nat, mark: nat)

  datatype Event = Cpu | Hw(tick: Tick) | Call(bufs: seq<Mbuf>, nb: nat) | DevStop

  predicate Fits(s: Rx) {
    s.e.ring != [] && (if s.e.running then true else s.pc.Resting? && s.e.used < |s.e.ring|)
  }

  /** The receive routine up to its poll loop: it arms and starts an engine that is not running.
      While the engine runs, callers keep passing the array that was armed. */
  function Begin(s: Rx, bufs: seq<Mbuf>, nb: nat): (r: Rx)
    requires Fits(s) && nb <= |bufs|
    ensures Fits(r)
  {
    if s.e.running then s.(pc := Polling(0), nb := nb, entry := |s.got|) else
      var m := Min(nb, |s.e.ring|);
      var (ring, used) := Arm(s.e.ring, s.e.base, s.e.used, bufs[..m]);
      s.(e := Start(s.e.(ring := ring, used := used)), pc := Polling(0), nb := m, bufs := bufs,
         entry := |s.got|, mark := |s.e.hw.done|)
  }

  function Retry(tries: nat): Pc {
    if tries + 1 > 100 then Returning(0) else Polling(tries + 1)
  }

  /** One step of the driver. The count is 16 bits wide in the return value. */
  function CpuStep(s: Rx): (r: Rx)
    requires Fits(s)
    ensures Fits(r)
  {
    match s.pc
    case Resting => s
    case Polling(t) => s.(pc := Rereading(t, s.e.wb))
    case Rereading(t, seen) =>
      if seen == s.e.wb && seen != s.e.used
      then s.(pc := Harvesting((seen - s.e.used) % 0x1_0000, s.e.used, seen))
      else s.(pc := Retry(t))
    case Harvesting(ret, next, upto) =>
      if next < upto && next < |s.bufs| then
        s.(bufs := s.bufs[next := Harvest(s.bufs[next], s.e.wbLen, s.port)],
           got := s.got + [DataAddr(s.bufs[next])], pc := Harvesting(ret, next + 1, upto))
      else s.(e := s.e.(used := upto), pc := Returning(ret))
    case Returning(_) =>
      s.(e := if s.e.used == s.nb then Stop(s.e) else s.e, pc := Resting)
  }

  function Next(s: Rx, ev: Event): (r: Rx)
    requires Fits(s)
    ensures Fits(r)
  {
    match ev
    case Cpu => CpuStep(s)
    case Hw(t) => s.(e := Step(s.e, t))
    case Call(bufs, nb) => if s.pc.Resting? && nb <= |bufs| then Begin(s, bufs, nb) else s
    case DevStop => if s.pc.Resting? then s.(e := Stop(s.e)) else s
  }

  function Exec(s: Rx, evs: seq<Event>): (r: Rx)
    requires Fits(s)
    ensures Fits(r)
  {
    if evs == [] then s else Next(Exec(s, evs[..|evs| - 1]), evs[|evs| - 1])
  }

  lemma {:induction false} ExecOne(s: Rx, evs: seq<Event>, ev: Event)
    requires Fits(s)
    ensures Exec(s, evs + [ev]) == Next(Exec(s, evs), ev)
    ensures Exec(s, [ev]) == Next(s, ev) && Exec(s, []) == s
  {
    assert (evs + [ev])[..|evs|] == evs && [ev][..0] == [];
  }

  lemma {:induction false} ExecAppend(s: Rx, a: seq<Event>, b: seq<Event>)
    requires Fits(s)
    ensures Exec(s, a + b) == Exec(Exec(s, a), b)
  {
    hide Exec, Next, Fits;
    if b == [] {
      assert a + b == a;
      ExecOne(Exec(s, a), [], Cpu);
    } else {
      var init, last := b[..|b| - 1], b[|b| - 1];
      ExecAppend(s, a, init);
      assert b == init + [last] && a + b == (a + init) + [last];
      ExecOne(s, a + init, last);
      ExecOne(Exec(s, a), init, last);
    }
  }

  function Fresh(n: nat, base: nat, port: nat): Rx {
    Rx(Setup(C2H, n, base), Resting, 0, [], port, [], 0, 0)
  }

  // ---------------------------------------------------------------- every life of the engine

  lemma {:induction false} ArmAt(ring: seq<Desc>, base: nat, used: nat, bufs: seq<Mbuf>)
    requires used < |ring| && used + |bufs| <= |ring|
    ensures Arm(ring, base, used, bufs).1 == (if used + |bufs| == |ring| then 0 else used + |bufs|)
    ensures forall i :: 0 <= i < |ring| ==>
      Arm(ring, base, used, bufs).0[i] ==
        if used <= i < used + |bufs| then ArmDesc(ring[i], bufs[i - used], StreamSlot(base, |ring|)) else ring[i]
  {
    if bufs != [] {
      var init := bufs[..|bufs| - 1];
      ArmAt(ring, base, used, init);
      var (before, u) := Arm(ring, base, used, init);
      assert u == used + |init| && before[u] == ring[u];
    }
  }

  /** What holds of a receive engine at every moment, whatever its callers ask for. */
  predicate Inv(s: Rx) {
    && Sound(s.e) && s.e.dir == C2H && Fits(s) && s.e.used <= |s.e.ring|
    && (s.pc.Polling? ==> s.pc.tries <= 100)
    && (s.pc.Rereading? ==> s.pc.tries <= 100 && s.pc.seen <= |s.e.ring|)
    && (s.pc.Harvesting? ==> s.pc.upto <= |s.e.ring|)
  }

  lemma BeginInv(s: Rx, bufs: seq<Mbuf>, nb: nat)
    requires Inv(s) && nb <= |bufs|
    ensures Inv(Begin(s, bufs, nb))
  {
    if !s.e.running {
      var armed := bufs[..Min(nb, |s.e.ring|)];
      ArmAt(s.e.ring, s.e.base, 0, armed);
      var ring := Arm(s.e.ring, s.e.base, 0, armed).0;
      Marks();
      forall i | 0 <= i < |ring|
        ensures Link(ring[i]) == Link(s.e.ring[i])
        ensures ring[i].control == s.e.ring[i].control || ring[i].control == SetFlags(s.e.ring[i].control, COMPLETED)
      {
      }
    }
  }

  lemma NextInv(s: Rx, ev: Event)
    requires Inv(s)
    ensures Inv(Next(s, ev))
  {
    match ev {
      case Hw(t) => StepSound(s.e, t);
      case Call(bufs, nb) => if s.pc.Resting? && nb <= |bufs| { BeginInv(s, bufs, nb); }
      case Cpu => StopSound(s.e);
      case DevStop => StopSound(s.e);
    }
  }

  /** The idle state is restored by every stop, over any sequence of calls, stops and hardware
      steps, whatever counts the callers pass. */
  lemma {:induction false} ExecInv(s: Rx, evs: seq<Event>)
    requires Inv(s)
    ensures Inv(Exec(s, evs))
  {
    if evs != [] {
      ExecInv(s, evs[..|evs| - 1]);
      NextInv(Exec(s, evs[..|evs| - 1]), evs[|evs| - 1]);
    }
  }

  lemma FreshInv(n: nat, base: nat, port: nat)
    requires Placed(base, n)
    ensures Inv(Fresh(n, base, port))
  {
    SetupSound(C2H, n, base);
  }

  // ---------------------------------------------------------------- exactly once

  function Addrs(done: seq<Transfer>): (s: seq<nat>)
    ensures |s| == |done|
  {
    seq(|done|, k requires 0 <= k < |done| => done[k].addr)
  }

  /** Every caller passes an array of `n` buffers and asks for `n`; nobody stops the device. */
  predicate FullCalls(evs: seq<Event>, n: nat) {
    forall k :: 0 <= k < |evs| ==>
      !evs[k].DevStop? && (evs[k].Call? ==> evs[k].nb == n == |evs[k].bufs|)
  }

  /** How many slots of the current epoch have been handed to callers. */
  function Reported(s: Rx): nat {
    if s.pc.Harvesting? then s.pc.next else s.e.used
  }

  /** The hardware is where its count says, and slot k of the epoch was filled by transfer k. */
  predicate EpochTransfers(s: Rx) {
    && s.mark + s.e.hw.completed == |s.e.hw.done| && s.e.hw.completed <= |s.e.ring|
    && (s.e.hw.busy <==> s.e.hw.completed < |s.e.ring|)
    && forall j :: s.mark <= j < |s.e.hw.done| ==>
         s.e.hw.done[j].slot == j - s.mark && s.e.hw.done[j].addr == Destination(s.e.ring[j - s.mark])
  }

  /** Every slot is armed with the buffer of the same index, names the slot where the driver looks for the
      length, and has its completion counted. */
  predicate Armed(ring: seq<Desc>, base: nat, bufs: seq<Mbuf>) {
    |bufs| == |ring| && forall i :: 0 <= i < |ring| ==>
      && ring[i].len == 64 && ring[i].control.genuine && (ring[i].control.stopped <==> i + 1 == |ring|)
      && Destination(ring[i]) == (bufs[i].iova + bufs[i].off) % TWO64
      && Source(ring[i]) == (base + 64 * |ring| + 32) % TWO64
      && ring[i].control.completed
  }

  /** The driver's counters agree with what it has handed over in this call. */
  predicate CallCounts(s: Rx) {
    && s.mark <= s.entry <= |s.got| && s.entry < s.mark + |s.e.ring|
    && match s.pc
       case Resting => true
       case Polling(t) => t <= 100 && |s.got| == s.entry && s.e.used < |s.e.ring|
       case Rereading(t, seen) => t <= 100 && |s.got| == s.entry && s.e.used <= seen <= s.e.wb && s.e.used < |s.e.ring|
       case Harvesting(ret, next, upto) =>
         s.e.used <= next <= upto <= s.e.wb && s.e.used < upto && ret == upto - s.e.used
             && |s.got| == s.entry + next - s.e.used
       case Returning(ret) => |s.got| == s.entry + ret
  }

  predicate EpochInv(s: Rx) {
    && Armed(s.e.ring, s.e.base, s.bufs) && EpochTransfers(s) && CallCounts(s)
    && s.mark + Reported(s) == |s.got| && Reported(s) <= s.e.hw.completed
    && (s.pc.Resting? ==> s.e.used < |s.e.ring|) && (!s.pc.Resting? ==> s.nb == |s.e.ring|)
  }

  /** What holds when every call is for the whole ring. */
  predicate FullInv(s: Rx) {
    && Inv(s) && s.got <= Addrs(s.e.hw.done)
    && (if s.e.running then EpochInv(s) else |s.got| == |s.e.hw.done|)
  }

  /** What arming makes of a slot, the last one or another. */
  lemma ArmedSlot(d: Desc, m: Mbuf, wbAddr: nat, last: bool)
    requires wbAddr < TWO64
    requires if last then d.control == LAST_MARK else d.control == BLANK || d.control == SetFlags(BLANK, COMPLETED)
    ensures var r := ArmDesc(d, m, wbAddr);
            && r.len == 64 && r.control.genuine && (r.control.stopped <==> last) && r.control.completed
            && Destination(r) == DataAddr(m) && Source(r) == wbAddr
  {
    Marks();
    SplitJoin(DataAddr(m));
    SplitJoin(wbAddr);
  }

  lemma {:induction false} ArmedAfter(ring: seq<Desc>, base: nat, bufs: seq<Mbuf>)
    requires ring != [] && |bufs| == |ring| && ReceiveControls(ring)
    ensures Armed(Arm(ring, base, 0, bufs).0, base, bufs) && Arm(ring, base, 0, bufs).1 == 0
  {
    ArmAt(ring, base, 0, bufs);
    var after := Arm(ring, base, 0, bufs).0;
    hide Arm, ArmDesc, Destination, Source, SetFlags;
    forall i | 0 <= i < |ring|
      ensures && after[i].len == 64 && after[i].control.genuine && (after[i].control.stopped <==> i + 1 == |ring|)
              && Destination(after[i]) == (bufs[i].iova + bufs[i].off) % TWO64 && after[i].control.completed
              && Source(after[i]) == (base + 64 * |ring| + 32) % TWO64
    {
      ArmedSlot(ring[i], bufs[i], StreamSlot(base, |ring|), i + 1 == |ring|);
    }
  }

  lemma BeginFull(s: Rx, bufs: seq<Mbuf>)
    requires FullInv(s) && s.pc.Resting? && |bufs| == |s.e.ring|
    ensures FullInv(Begin(s, bufs, |bufs|))
  {
    BeginInv(s, bufs, |bufs|);
    if !s.e.running {
      assert bufs[..|bufs|] == bufs;
      ArmedAfter(s.e.ring, s.e.base, bufs);
      var r := Begin(s, bufs, |bufs|);
      assert Armed(r.e.ring, r.e.base, r.bufs) && s.e.used == 0 && 0 < |s.e.ring|;
      hide Arm, Armed, Inv, ArmDesc, ReceiveControls;
      assert EpochInv(r);
    }
  }

  lemma StepFull(s: Rx, t: Tick)
    requires FullInv(s)
    ensures FullInv(Next(s, Hw(t)))
  {
    NextInv(s, Hw(t));
    if s.e.running && s.e.hw.busy {
      var i := s.e.hw.completed;
      LocateSlot(s.e.base, |s.e.ring|, i);
      var r := Next(s, Hw(t));
      assert r.e == if 1 <= t.bytes <= s.e.ring[i].len then Complete(s.e, i, t) else s.e;
      assert r.e.ring == s.e.ring && r.bufs == s.bufs;
      hide Armed;
      assert EpochTransfers(r);
    }
  }

  /** Where an epoch's counters are. */
  lemma InEpoch(s: Rx)
    requires FullInv(s) && !s.pc.Resting?
    ensures s.e.running && s.e.wb == s.e.hw.completed <= |s.e.ring| == |s.bufs|
    ensures s.pc.Harvesting? ==> s.pc.next <= s.pc.upto <= s.e.wb
  {
  }

  /** A harvest leaves a buffer where it is. */
  lemma HarvestArmed(ring: seq<Desc>, base: nat, bufs: seq<Mbuf>, i: nat, wbLen: nat, port: nat)
    requires Armed(ring, base, bufs) && i < |bufs|
    ensures Armed(ring, base, bufs[i := Harvest(bufs[i], wbLen, port)])
  {
  }

  /** The next buffer reported is the next one delivered. */
  lemma HarvestGot(s: Rx)
    requires s.got <= Addrs(s.e.hw.done) && EpochInv(s) && s.pc.Harvesting? && s.pc.next < s.pc.upto
    requires s.e.wb <= s.e.hw.completed && s.pc.next < |s.bufs|
    ensures s.got + [DataAddr(s.bufs[s.pc.next])] <= Addrs(s.e.hw.done)
  {
    var addrs := Addrs(s.e.hw.done);
    assert addrs[|s.got|] == s.e.hw.done[s.mark + s.pc.next].addr == DataAddr(s.bufs[s.pc.next]);
    assert addrs[..|s.got|] == s.got && addrs[..|s.got| + 1] == s.got + [addrs[|s.got|]];
  }

  lemma HarvestFull(s: Rx)
    requires FullInv(s) && s.pc.Harvesting? && s.pc.next < s.pc.upto
    ensures FullInv(CpuStep(s))
  {
    NextInv(s, Cpu) by { hide EpochInv; }
    InEpoch(s) by { hide FullInv; }
    hide Inv, Harvest, Armed, DataAddr;
    HarvestArmed(s.e.ring, s.e.base, s.bufs, s.pc.next, s.e.wbLen, s.port);
    HarvestGot(s) by { hide EpochInv; }
    hide Addrs;
    assert EpochTransfers(CpuStep(s));
    hide EpochTransfers;
  }

  /** A call that returns hands nothing more over, and when it stops the engine nothing is left. */
  lemma ReturnFull(s: Rx)
    requires FullInv(s) && s.pc.Returning?
    ensures FullInv(CpuStep(s))
  {
    NextInv(s, Cpu);
    var r := CpuStep(s);
    assert r.bufs == s.bufs && r.got == s.got && r.e.hw.done == s.e.hw.done;
    assert r.e.running ==> EpochTransfers(r);
    hide Armed, EpochTransfers, Sound, ClearRing;
  }

  lemma CpuFull(s: Rx)
    requires FullInv(s)
    ensures FullInv(CpuStep(s))
  {
    if s.pc.Harvesting? && s.pc.next < s.pc.upto {
      HarvestFull(s) by { hide FullInv; }
    } else if s.pc.Returning? {
      ReturnFull(s) by { hide FullInv; }
    } else {
      PollFull(s) by { hide FullInv; }
    }
  }

  lemma PollCounts(s: Rx)
    requires Fits(s) && CallCounts(s) && s.mark + Reported(s) == |s.got| && Reported(s) <= s.e.hw.completed
    requires s.e.wb == s.e.hw.completed <= |s.e.ring| <= 64 && s.nb == |s.e.ring|
    requires s.pc.Polling? || s.pc.Rereading? || (s.pc.Harvesting? && s.pc.next == s.pc.upto)
    ensures var r := CpuStep(s);
            && r == s.(pc := r.pc, e := s.e.(used := r.e.used)) && !r.pc.Resting?
            && CallCounts(r) && s.mark + Reported(r) == |s.got| && Reported(r) <= s.e.hw.completed
  {
  }

  /** The steps that only read counters or close a harvest. */
  lemma PollFull(s: Rx)
    requires FullInv(s) && !s.pc.Returning? && (s.pc.Harvesting? ==> s.pc.next >= s.pc.upto)
    ensures FullInv(CpuStep(s))
  {
    NextInv(s, Cpu) by { hide EpochInv; }
    if !s.pc.Resting? {
      InEpoch(s) by { hide FullInv; }
      assert |s.e.ring| <= 64 by { hide EpochInv; }
      hide Inv, Armed, Addrs, CallCounts, CpuStep;
      PollCounts(s) by { hide EpochTransfers; }
      assert EpochTransfers(CpuStep(s));
      hide EpochTransfers;
    }
  }

  lemma NextFull(s: Rx, ev: Event)
    requires FullInv(s) && !ev.DevStop? && (ev.Call? ==> ev.nb == |s.e.ring| == |ev.bufs|)
    ensures FullInv(Next(s, ev)) && |Next(s, ev).e.ring| == |s.e.ring|
  {
    SameRing(s, ev);
    hide FullInv;
    match ev {
      case Cpu => CpuFull(s);
      case Hw(t) => StepFull(s, t);
      case Call(bufs, _) => if s.pc.Resting? { BeginFull(s, bufs); }
    }
  }

  lemma SameRing(s: Rx, ev: Event)
    requires FullInv(s)
    ensures Fits(s) && |Next(s, ev).e.ring| == |s.e.ring|
  {
    if ev.Hw? {
      StepSound(s.e, ev.tick);
    }
  }

  lemma {:induction false} ExecFull(s: Rx, evs: seq<Event>)
    requires FullInv(s) && FullCalls(evs, |s.e.ring|)
    ensures FullInv(Exec(s, evs)) && |Exec(s, evs).e.ring| == |s.e.ring|
  {
    if evs != [] {
      var init, last := evs[..|evs| - 1], evs[|evs| - 1];
      ExecFull(s, init);
      NextFull(Exec(s, init), last);
      hide FullInv, Next;
    }
  }

  lemma FreshFull(n: nat, base: nat, port: nat)
    requires Placed(base, n)
    ensures Fits(Fresh(n, base, port)) && FullInv(Fresh(n, base, port)) && |Fresh(n, base, port).e.ring| == n
  {
    FreshInv(n, base, port);
  }

  lemma ReportedByState(s: Rx)
    requires FullInv(s)
    ensures s.got <= Addrs(s.e.hw.done)
    ensures !s.e.running ==> |s.got| == |s.e.hw.done|
    ensures s.pc.Returning? ==> |s.got| == s.entry + s.pc.ret && s.pc.ret <= |s.e.ring|
    ensures s.e.running ==>
      && s.mark <= |s.got| <= s.mark + |s.e.ring| && |s.bufs| == |s.e.ring|
      && forall j :: s.mark <= j < |s.got| ==>
           s.e.hw.done[j].slot == j - s.mark && s.got[j] == DataAddr(s.bufs[j - s.mark])
  {
    if s.e.running {
      forall j | s.mark <= j < |s.got|
        ensures s.e.hw.done[j].slot == j - s.mark && s.got[j] == DataAddr(s.bufs[j - s.mark])
      {
        assert s.got[j] == Addrs(s.e.hw.done)[j] == s.e.hw.done[j].addr == Destination(s.e.ring[j - s.mark]);
      }
    }
  }

  /** Exactly once, over any run in which every call is for the whole ring: what callers have been
      given is, in order, a prefix of what the hardware has delivered, and all of it whenever the
      engine is stopped; a call returns exactly the number of buffers it adds; and the slots handed
      over in an epoch are 0, 1, 2, ..., each naming the buffer whose address was programmed in the
      descriptor of that index. */
  lemma {:induction false} ReportedExactlyOnce(n: nat, base: nat, port: nat, evs: seq<Event>)
    requires Placed(base, n) && FullCalls(evs, n)
    ensures var s := Exec(Fresh(n, base, port), evs);
            && s.got <= Addrs(s.e.hw.done)
            && (!s.e.running ==> |s.got| == |s.e.hw.done|)
            && (s.pc.Returning? ==> |s.got| == s.entry + s.pc.ret && s.pc.ret <= n)
            && (s.e.running ==>
                  && s.mark <= |s.got| <= s.mark + n && |s.bufs| == n
                  && forall j :: s.mark <= j < |s.got| ==>
                       s.e.hw.done[j].slot == j - s.mark && s.got[j] == DataAddr(s.bufs[j - s.mark]))
  {
    hide *;
    FreshFull(n, base, port);
    ExecFull(Fresh(n, base, port), evs);
    ReportedByState(Exec(Fresh(n, base, port), evs));
  }

  /** When the receive routine is about to stop the engine, the hardware has already halted at the
      last descriptor and everything it delivered has been handed over: resetting the count loses
      nothing, and the next epoch starts from an idle engine. */
  lemma {:induction false} StopLosesNothing(n: nat, base: nat, port: nat, evs: seq<Event>)
    requires Placed(base, n) && FullCalls(evs, n)
    ensures var s := Exec(Fresh(n, base, port), evs);
            s.pc.Returning? && s.e.used == s.nb ==>
              && !s.e.hw.busy && s.e.hw.completed == n == s.e.wb && |s.got| == |s.e.hw.done|
              && Idle(CpuStep(s).e) && CpuStep(s).e.hw.done == s.e.hw.done
  {
    FreshInv(n, base, port);
    ExecFull(Fresh(n, base, port), evs);
    var s := Exec(Fresh(n, base, port), evs);
    if s.pc.Returning? {
      StopSound(s.e);
    }
  }

  // ---------------------------------------------------------------- every call ends

  /** No new call and no device stop. */
  predicate Quiet(evs: seq<Event>) {
    forall k :: 0 <= k < |evs| ==> evs[k].Cpu? || evs[k].Hw?
  }

  /** The driver alone. */
  function Steps(k: nat): (evs: seq<Event>)
    ensures |evs| == k && Quiet(evs)
  {
    seq(k, _ => Cpu)
  }

  lemma StepsLast(k: nat)
    ensures if k == 0 then Steps(k) == [] else Steps(k) == Steps(k - 1) + [Cpu]
    ensures [] + [Cpu] == [Cpu]
  {
  }

  /** `m` packets come in. */
  function Deliver(m: nat, bytes: nat): (evs: seq<Event>)
    ensures |evs| == m && Quiet(evs) && forall n: nat :: FullCalls(evs, n)
  {
    seq(m, _ => Hw(Tick(false, bytes, false)))
  }

  function CpuSteps(evs: seq<Event>): nat {
    if evs == [] then 0 else CpuSteps(evs[..|evs| - 1]) + if evs[|evs| - 1].Cpu? then 1 else 0
  }

  /** Driver steps that are left of a call, at most: two per poll, one per buffer, and three. */
  function Remaining(pc: Pc, n: nat): int {
    match pc
    case Resting => 0
    case Returning(_) => 1
    case Harvesting(_, next, upto) => 2 + if next <= upto then upto - next else 0
    case Rereading(t, _) => 2 * (100 - t) + n + 3
    case Polling(t) => 2 * (100 - t) + n + 4
  }

  lemma StepLeft(s: Rx, ev: Event)
    requires Inv(s) && !ev.Call? && !ev.DevStop?
    ensures var left := Remaining(Next(s, ev).pc, |s.e.ring|);
            0 <= left && (left == 0 || left + (if ev.Cpu? then 1 else 0) <= Remaining(s.pc, |s.e.ring|))
    ensures |Next(s, ev).e.ring| == |s.e.ring|
  {
    if ev.Hw? {
      StepSound(s.e, ev.tick);
    }
    hide Sound;
  }

  lemma {:induction false} StepsLeft(s: Rx, evs: seq<Event>)
    requires Inv(s) && Quiet(evs)
    ensures var left := Remaining(Exec(s, evs).pc, |s.e.ring|);
            0 <= left && (left == 0 || left + CpuSteps(evs) <= Remaining(s.pc, |s.e.ring|))
    ensures |Exec(s, evs).e.ring| == |s.e.ring|
  {
    if evs != [] {
      var init, last := evs[..|evs| - 1], evs[|evs| - 1];
      StepsLeft(s, init);
      ExecInv(s, init);
      StepLeft(Exec(s, init), last);
      hide Inv, Next;
    } else {
      hide Sound;
    }
  }

  /** Every call returns: under any schedule it takes at most 101 polls of two reads each, one step
      per harvested buffer and three more, whatever count was asked for. */
  lemma {:induction false} EveryCallEnds(s: Rx, bufs: seq<Mbuf>, nb: nat, evs: seq<Event>)
    requires Inv(s) && s.pc.Resting? && nb <= |bufs| && Quiet(evs)
    requires CpuSteps(evs) >= 204 + |s.e.ring|
    ensures Exec(Begin(s, bufs, nb), evs).pc.Resting?
  {
    BeginInv(s, bufs, nb);
    StepsLeft(Begin(s, bufs, nb), evs);
    ExecInv(Begin(s, bufs, nb), evs);
  }

  // ---------------------------------------------------------------- what the ring must be asked for

  /** The first call after arming: what it reports is what has completed since. */
  predicate ReportsTruth(s: Rx) {
    s.pc.Harvesting? ==> s.pc.ret == s.pc.upto
  }

  ghost predicate FirstCallTruthful(s: Rx)
    requires Fits(s)
  {
    forall evs :: Quiet(evs) ==> ReportsTruth(Exec(s, evs))
  }

  predicate FirstCallInv(s: Rx) {
    Inv(s) && ReportsTruth(s) && (s.pc.Polling? || s.pc.Rereading? ==> s.e.used == 0)
  }

  lemma {:induction false} FirstCallKeeps(s: Rx, evs: seq<Event>)
    requires FirstCallInv(s) && Quiet(evs)
    ensures FirstCallInv(Exec(s, evs))
  {
    if evs != [] {
      var init, last := evs[..|evs| - 1], evs[|evs| - 1];
      FirstCallKeeps(s, init);
      var before := Exec(s, init);
      NextInv(before, last);
      if last.Hw? {
        StepSound(before.e, last.tick);
      }
    }
  }

  /** The cursor that armed the ring is read as the count already seen, so the first call after
      arming tells the truth exactly when it asked for the whole ring. */
  lemma TruthNeedsWholeRing(s: Rx, bufs: seq<Mbuf>, nb: nat)
    requires Inv(s) && s.pc.Resting? && !s.e.running && 1 <= nb <= |bufs|
    ensures FirstCallTruthful(Begin(s, bufs, nb)) <==> nb >= |s.e.ring|
  {
    var n := |s.e.ring|;
    var r := Begin(s, bufs, nb);
    BeginInv(s, bufs, nb);
    ArmAt(s.e.ring, s.e.base, 0, bufs[..Min(nb, n)]);
    if nb >= n {
      forall evs | Quiet(evs)
        ensures ReportsTruth(Exec(r, evs))
      {
        FirstCallKeeps(r, evs);
      }
    } else {
      var evs := [Cpu, Cpu];
      assert evs[..1] == [Cpu] && [Cpu][..0] == [];
      assert Exec(r, []) == r;
      assert Exec(r, [Cpu]) == CpuStep(r) == r.(pc := Rereading(0, 0));
      assert Exec(r, evs) == CpuStep(CpuStep(r));
      assert Quiet(evs) && !ReportsTruth(Exec(r, evs));
    }
  }

  // ---------------------------------------------------------------- what a harvest leaves

  /** The stream delivers only lengths from lo to hi. */
  predicate LengthsWithin(evs: seq<Event>, lo: nat, hi: nat) {
    forall k :: 0 <= k < |evs| && evs[k].Hw? ==> TickWithin(evs[k].tick, lo, hi)
  }

  predicate TickWithin(t: Tick, lo: nat, hi: nat) {
    1 <= t.bytes <= BUFFER_BYTES ==> lo <= t.bytes <= hi
  }

  /** The buffers of the current or last epoch that have been harvested. */
  function HarvestedCount(s: Rx): nat {
    if s.e.running then Reported(s) else if s.e.hw.done == [] then 0 else |s.bufs|
  }

  /** What an upper layer finds besides the lengths: the port, and nothing of an earlier use. */
  predicate Clean(m: Mbuf, port: nat) {
    m.port == port && m.packetType == 0 && m.olFlags == 0 && m.vlanTci == 0 && m.rss == 0
  }

  /** A single closed segment whose two lengths agree and lie within the bounds. */
  predicate Single(m: Mbuf, lo: nat, hi: nat) {
    m.nbSegs == 1 && m.rest == [] && m.dataLen == m.pktLen && lo <= m.pktLen <= hi
  }

  predicate HarvestInv(s: Rx, lo: nat, hi: nat) {
    && (s.e.hw.done != [] ==> lo <= s.e.wbLen <= hi)
    && (HarvestedCount(s) <= |s.bufs| ==>
          forall i :: 0 <= i < HarvestedCount(s) ==> Single(s.bufs[i], lo, hi) && Clean(s.bufs[i], s.port))
  }

  lemma HwHarvest(s: Rx, t: Tick, lo: nat, hi: nat)
    requires FullInv(s) && HarvestInv(s, lo, hi) && hi <= BUFFER_BYTES && TickWithin(t, lo, hi)
    ensures HarvestInv(Next(s, Hw(t)), lo, hi)
  {
    StepSound(s.e, t);
    if s.e.running && s.e.hw.busy {
      LocateSlot(s.e.base, |s.e.ring|, s.e.hw.completed);
    }
    hide EpochTransfers, CallCounts, Addrs;
  }

  lemma CpuHarvest(s: Rx, lo: nat, hi: nat)
    requires FullInv(s) && HarvestInv(s, lo, hi) && hi <= BUFFER_BYTES
    ensures HarvestInv(CpuStep(s), lo, hi)
  {
    if s.pc.Harvesting? && s.pc.next < s.pc.upto {
      assert s.e.hw.done != [];
      var i := s.pc.next;
      var m := Harvest(s.bufs[i], s.e.wbLen, s.port);
      assert Single(m, lo, hi) && Clean(m, s.port);
      hide FullInv, Harvest, Single, Clean;
    } else {
      assert s.e.running && !CpuStep(s).e.running ==> Reported(s) == |s.bufs|;
      hide EpochTransfers, Armed, Inv, Addrs;
    }
  }

  lemma NextHarvest(s: Rx, ev: Event, lo: nat, hi: nat)
    requires FullInv(s) && HarvestInv(s, lo, hi) && hi <= BUFFER_BYTES
    requires !ev.DevStop? && (ev.Call? ==> ev.nb == |s.e.ring| == |ev.bufs|)
    requires ev.Hw? ==> TickWithin(ev.tick, lo, hi)
    ensures HarvestInv(Next(s, ev), lo, hi)
  {
    match ev {
      case Hw(t) => HwHarvest(s, t, lo, hi);
      case Cpu => CpuHarvest(s, lo, hi);
      case Call(bufs, nb) =>
        if s.pc.Resting? && !s.e.running {
          ArmAt(s.e.ring, s.e.base, 0, bufs[..nb]);
        }
    }
    hide EpochInv, Single, Clean;
  }

  lemma {:induction false} ExecHarvest(s: Rx, evs: seq<Event>, lo: nat, hi: nat)
    requires FullInv(s) && HarvestInv(s, lo, hi) && hi <= BUFFER_BYTES
    requires FullCalls(evs, |s.e.ring|) && LengthsWithin(evs, lo, hi)
    ensures HarvestInv(Exec(s, evs), lo, hi)
  {
    if evs != [] {
      var init, last := evs[..|evs| - 1], evs[|evs| - 1];
      ExecHarvest(s, init, lo, hi);
      ExecFull(s, init);
      NextHarvest(Exec(s, init), last, lo, hi);
    }
  }

  lemma {:induction false} ExecPort(s: Rx, evs: seq<Event>)
    requires Fits(s)
    ensures Exec(s, evs).port == s.port
  {
    if evs != [] {
      ExecPort(s, evs[..|evs| - 1]);
    }
  }

  /** If the whole stream has one packet length, every buffer handed over carries it in both length
      fields, as a single closed segment, although all descriptors share one writeback slot. */
  lemma {:induction false} UniformLengths(n: nat, base: nat, port: nat, evs: seq<Event>, len: nat)
    requires Placed(base, n) && FullCalls(evs, n) && 1 <= len <= BUFFER_BYTES && LengthsWithin(evs, len, len)
    ensures var s := Exec(Fresh(n, base, port), evs);
            HarvestedCount(s) <= |s.bufs| &&
            forall i :: 0 <= i < HarvestedCount(s) ==> Single(s.bufs[i], len, len) && Clean(s.bufs[i], port)
  {
    FreshInv(n, base, port);
    ExecFull(Fresh(n, base, port), evs);
    ExecPort(Fresh(n, base, port), evs);
    ExecHarvest(Fresh(n, base, port), evs, len, len);
  }
}
