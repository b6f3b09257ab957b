/** The forwarding loop over the driver's objects: receive into one array of buffers, transmit the
    slice just received, and move the loop's own cursor. */
module ForwardLoop {
  import opened Rings
  import opened Engines
  import opened Transmit
  import opened Device
  import R = Receiving
  import T = Sending
  import RecvSide = ReceiveRoutine
  import XmitSide = Transmitting
  import Forwarding
  import P = ForwardProgress
  import RoundRuns

  /** A receive engine between two calls, when every call is for the whole ring. */
  predicate RxHead(s: R.Rx, n: nat) {
    R.FullInv(s) && R.HarvestInv(s, 1, R.BUFFER_BYTES) && s.pc.Resting? && |s.e.ring| == n
  }

  lemma {:induction false} CallKeeps(s: R.Rx, evs: seq<R.Event>)
    requires R.Fits(s) && R.Quiet(evs)
    ensures var r := R.Exec(s, evs);
            r.entry == s.entry && r.mark == s.mark && r.port == s.port && r.nb == s.nb && s.got <= r.got
  {
    if evs != [] {
      CallKeeps(s, evs[..|evs| - 1]);
    }
  }

  lemma FullBegin(s: R.Rx, bufs: seq<R.Mbuf>, n: nat)
    requires RxHead(s, n) && |bufs| == n && (s.e.running ==> s.bufs == bufs)
    ensures var r := R.Begin(s, bufs, n);
            && R.FullInv(r) && R.HarvestInv(r, 1, R.BUFFER_BYTES) && |r.e.ring| == n && r.e.running
            && r.entry == |s.got| && r.got == s.got && r.port == s.port && r.nb == n
            && r.mark + s.e.used == |s.got|
  {
    R.BeginFull(s, bufs);
    R.NextHarvest(s, R.Call(bufs, n), 1, R.BUFFER_BYTES);
  }

  lemma QuietFull(evs: seq<R.Event>, n: nat)
    requires R.Quiet(evs)
    ensures R.FullCalls(evs, n) && R.LengthsWithin(evs, 1, R.BUFFER_BYTES)
  {
  }

  /** Where a call that is about to return stands in its epoch. */
  lemma ReturnStands(s: R.Rx, n: nat, ret: nat)
    requires R.FullInv(s) && R.HarvestInv(s, 1, R.BUFFER_BYTES) && s.pc == R.Returning(ret) && |s.e.ring| == n
    ensures s.e.running && |s.got| == s.entry + ret && s.mark + s.e.used == |s.got| && s.e.used <= n == |s.bufs|
    ensures forall i :: 0 <= i < s.e.used ==> R.Single(s.bufs[i], 1, R.BUFFER_BYTES)
    ensures forall j :: s.mark <= j < |s.got| ==> s.got[j] == R.DataAddr(s.bufs[j - s.mark])
  {
    R.ReportedByState(s);
  }

  lemma ReturnKeeps(s: R.Rx, n: nat, ret: nat)
    requires R.FullInv(s) && R.HarvestInv(s, 1, R.BUFFER_BYTES) && s.pc == R.Returning(ret) && |s.e.ring| == n
        && s.nb == n
    ensures var r := R.CpuStep(s);
            && RxHead(r, n) && r.bufs == s.bufs && r.got == s.got && r.port == s.port
            && r.e.used == (if s.e.used == n then 0 else s.e.used)
            && (r.e.running ==> RecvSide.Backed(r.e, n))
  {
    R.CpuFull(s);
    R.NextHarvest(s, R.Cpu, 1, R.BUFFER_BYTES);
  }

  /** One receive call for the whole ring. */
  lemma {:induction false} ReceiveCall(s: R.Rx, bufs: seq<R.Mbuf>, n: nat, run: seq<R.Event>, last: R.Rx, ret: nat)
    requires RxHead(s, n) && |bufs| == n && (s.e.running ==> s.bufs == bufs) && R.Quiet(run) && R.Fits(s)
    requires last == R.Exec(R.Begin(s, bufs, n), run) && last.pc == R.Returning(ret)
    ensures |last.got| == |s.got| + ret && s.got <= last.got && s.e.used + ret == last.e.used <= n == |last.bufs|
    ensures forall i :: s.e.used <= i < s.e.used + ret ==>
      R.Single(last.bufs[i], 1, R.BUFFER_BYTES) && last.got[|s.got| + i - s.e.used] == R.DataAddr(last.bufs[i])
    ensures var r := R.CpuStep(last);
            && RxHead(r, n) && r.bufs == last.bufs && r.got == last.got && r.port == s.port
            && r.e.used == (if last.e.used == n then 0 else last.e.used)
            && (r.e.running ==> RecvSide.Backed(r.e, n))
  {
    hide *;
    var start := R.Begin(s, bufs, n);
    FullBegin(s, bufs, n);
    QuietFull(run, n);
    CallKeeps(start, run);
    R.ExecFull(start, run);
    R.ExecHarvest(start, run, 1, R.BUFFER_BYTES);
    ReturnStands(last, n, ret);
    ReturnKeeps(last, n, ret);
    forall i | s.e.used <= i < s.e.used + ret
      ensures last.got[|s.got| + i - s.e.used] == R.DataAddr(last.bufs[i])
    {
      var j := last.mark + i;
      assert last.got[j] == R.DataAddr(last.bufs[j - last.mark]);
    }
  }

  // ---------------------------------------------------------------- what the transmit wire carries

  /** The addresses of the transfers that carried data. */
  function Loads(done: seq<Transfer>): seq<nat> {
    if done == [] then [] else
      var last := done[|done| - 1];
      Loads(done[..|done| - 1]) + if last.len > 0 then [last.addr] else []
  }

  lemma {:induction false} LoadsConcat(a: seq<Transfer>, b: seq<Transfer>)
    ensures Loads(a + b) == Loads(a) + Loads(b)
  {
    if b == [] {
      assert a + b == a;
    } else {
      LoadsConcat(a, b[..|b| - 1]);
      assert (a + b)[..|a + b| - 1] == a + b[..|b| - 1];
    }
  }

  function ItemAddrs(items: seq<Item>): (s: seq<nat>)
    ensures |s| == |items|
  {
    seq(|items|, k requires 0 <= k < |items| => items[k].addr)
  }

  lemma {:induction false} LoadsCarried(items: seq<Item>)
    requires T.Loaded(items)
    ensures Loads(T.Carried(items)) == ItemAddrs(items)
  {
    if items != [] {
      var init := items[..|items| - 1];
      LoadsCarried(init);
      assert T.Carried(items)[..|items| - 1] == T.Carried(init);
      assert ItemAddrs(items) == ItemAddrs(init) + [items[|items| - 1].addr];
    }
  }

  /** A batch that was sent adds its addresses, and the empty stop mark nothing. */
  lemma {:induction false} LoadsAppended(before: seq<Transfer>, after: seq<Transfer>, pkts: seq<Packet>)
    requires XmitSide.Appended(before, after, pkts) && T.Loaded(Flat(pkts)) && |Flat(pkts)| == |pkts|
    ensures Loads(after) == Loads(before) + ItemAddrs(Flat(pkts))
  {
    var m := |before| + |pkts|;
    var batch, tail := after[|before|..m], after[m..];
    assert after == (before + batch) + tail;
    LoadsConcat(before + batch, tail);
    LoadsConcat(before, batch);
    LoadsCarried(Flat(pkts));
    hide Flat, T.Carried, ItemAddrs;
    assert Loads(tail) == [] by {
      if tail != [] {
        assert tail[0].len == 0 && |tail| == 1;
        assert tail[..0] == [];
      }
    }
  }

  // ---------------------------------------------------------------- the slice

  lemma {:induction false} OnePacket(m: Mbuf, outside: set<Mbuf>, all: set<Mbuf>)
    requires R.Single(BufferAt(m, outside), 1, R.BUFFER_BYTES) && m in all
    ensures PacketAt(m, all) == Packet(1, [Segment(m.iova, m.off, m.dataLen)]) && m.dataLen >= 1
    ensures Within(m, m.nbSegs, all)
  {
    assert Within(m.next, 0, all);
    assert Chain(m.next, 0, all) == [];
  }

  /** The buffers of a slice, as the packets the transmit routine takes them for. */
  lemma SlicePackets(pkts: seq<Mbuf>, idx: nat, ret: nat, outside: set<Mbuf>, all: set<Mbuf>)
    requires idx + ret <= |pkts| && forall i :: 0 <= i < |pkts| ==> pkts[i] in all
    requires forall i :: idx <= i < idx + ret ==> R.Single(RecvSide.Buffers(pkts, outside)[i], 1, R.BUFFER_BYTES)
    ensures XmitSide.AllWithin(pkts[idx..idx + ret], all)
    ensures var ps := XmitSide.Packets(pkts[idx..idx + ret], all);
            && AllWellFormed(ps) && T.AllSingle(ps) && T.Loaded(Flat(ps)) && |Flat(ps)| == ret
            && ps == Forwarding.Batch(RecvSide.Buffers(pkts, outside), idx, ret)
            && forall c :: 0 <= c < ret ==> Flat(ps)[c].addr == R.DataAddr(RecvSide.Buffers(pkts, outside)[idx + c])
  {
    var ps := XmitSide.Packets(pkts[idx..idx + ret], all);
    var bufs, slice := RecvSide.Buffers(pkts, outside), pkts[idx..idx + ret];
    forall c | 0 <= c < ret
      ensures IsSingle(ps[c], bufs[idx + c]) && slice[c] in all && Within(slice[c], slice[c].nbSegs, all)
      ensures ps[c] == Forwarding.PacketOf(bufs[idx + c])
    {
      var i := idx + c;
      assert R.Single(bufs[i], 1, R.BUFFER_BYTES);
      OnePacket(pkts[i], outside, all);
    }
    assert ps == Forwarding.Batch(bufs, idx, ret);
    hide *;
    SinglesFlat(ps, bufs[idx..idx + ret]);
  }

  predicate IsSingle(p: Packet, m: R.Mbuf) {
    p == Packet(1, [Segment(m.iova, m.off, m.dataLen)]) && m.dataLen >= 1
  }

  lemma {:induction false} SinglesFlat(ps: seq<Packet>, bufs: seq<R.Mbuf>)
    requires |ps| == |bufs| && forall c :: 0 <= c < |ps| ==> IsSingle(ps[c], bufs[c])
    ensures AllWellFormed(ps) && T.AllSingle(ps) && T.Loaded(Flat(ps)) && |Flat(ps)| == |ps|
    ensures forall c :: 0 <= c < |ps| ==> Flat(ps)[c].addr == R.DataAddr(bufs[c])
  {
    Forwarding.FlatSingles(ps);
  }

  /** The addresses that the slice adds to what was sent are those that the receive call reported. */
  lemma SliceAddrs(pkts: seq<Mbuf>, idx: nat, ret: nat, outside: set<Mbuf>, all: set<Mbuf>, before: seq<nat>,
      got: seq<nat>)
    requires idx + ret <= |pkts| && forall i :: 0 <= i < |pkts| ==> pkts[i] in all
    requires before <= got && |got| == |before| + ret
    requires forall i :: idx <= i < idx + ret ==>
      && R.Single(RecvSide.Buffers(pkts, outside)[i], 1, R.BUFFER_BYTES)
      && got[|before| + i - idx] == R.DataAddr(RecvSide.Buffers(pkts, outside)[i])
    ensures before + ItemAddrs(Flat(XmitSide.Packets(pkts[idx..idx + ret], all))) == got
  {
    SlicePackets(pkts, idx, ret, outside, all);
    hide RecvSide.Buffers, XmitSide.Packets, Flat, R.Single, R.DataAddr;
    var sent := ItemAddrs(Flat(XmitSide.Packets(pkts[idx..idx + ret], all)));
    forall j | 0 <= j < |got|
      ensures (before + sent)[j] == got[j]
    {
      if j >= |before| {
        var i := idx + j - |before|;
        assert got[|before| + i - idx] == R.DataAddr(RecvSide.Buffers(pkts, outside)[i]);
      }
    }
  }

  /** The loop's own variables. */
  datatype Tally = Tally(idx: nat, recv: nat, xmit: nat, recvBatch: nat, xmitBatch: nat)

  function TallyOf(s: Forwarding.Sys): Tally {
    Tally(s.idx, s.recv, s.xmit, s.recvBatch, s.xmitBatch)
  }

  /** What holds whenever the loop is about to call the receive routine, or is done: the objects are
      in the state `s` of the forwarder, and the loop's variables are its variables. */
  ghost predicate AtHead(rx: XdmaEngine, tx: XdmaEngine, pkts: array<Mbuf>, outside: set<Mbuf>,
                         s: Forwarding.Sys, t: Tally)
    reads rx, rx.ring, rx.bar, tx, tx.ring, tx.bar, pkts, pkts[..], outside
  {
    && Paired(rx, tx, pkts) && RecvSide.Apart(pkts[..], outside)
    && RxReady(rx, pkts, outside, s.rx) && TxReady(tx, s.tx) && s.pc.AtHead? && t == TallyOf(s)
    && t.idx == rx.used && t.recv == t.xmit == |s.rx.got| && t.recvBatch == t.xmitBatch
    && Loads(tx.hw.done) == s.rx.got
  }

  /** Two engines whose rings and the array of buffers have one size. */
  ghost predicate Paired(rx: XdmaEngine, tx: XdmaEngine, pkts: array<Mbuf>)
    reads rx.bar, tx.bar
  {
    && rx.dir == C2H && tx.dir == H2C && rx.bar.Valid() && tx.bar.Valid() && rx.ring != tx.ring
    && rx.ring.Length == tx.ring.Length == pkts.Length
  }

  ghost predicate RxReady(rx: XdmaEngine, pkts: array<Mbuf>, outside: set<Mbuf>, rxs: R.Rx)
    reads rx, rx.ring, pkts, pkts[..], outside
  {
    && rx.Valid() && rxs.e == rx.State() && RxHead(rxs, pkts.Length) && rxs.port == rx.portId
    && RecvSide.SameArray(rxs, pkts, outside) && rxs.bufs == RecvSide.Buffers(pkts[..], outside)
  }

  ghost predicate TxReady(tx: XdmaEngine, txs: T.Tx)
    reads tx, tx.ring
  {
    tx.Valid() && txs.e == tx.State() && T.Inv(txs) && txs.pc.Resting?
  }

  /** `run` takes a receive call from its beginning to its return. */
  predicate Received(rx0: R.Rx, rx1: R.Rx, run: seq<R.Event>, ret: nat) {
    && R.Fits(rx0) && R.Quiet(run)
    && var last := R.Exec(R.Begin(rx0, rx0.bufs, |rx0.bufs|), run);
       last.pc == R.Returning(ret) && rx1 == R.CpuStep(last)
  }

  /** The receive half of a round. */
  method ReceiveSlice(rx: XdmaEngine, pkts: array<Mbuf>, env: nat -> seq<Tick>, ghost outside: set<Mbuf>,
                      ghost rx0: R.Rx)
    returns (ret: nat, ghost rx1: R.Rx, ghost run: seq<R.Event>)
    requires rx.bar.Valid() && rx.dir == C2H && rx.ring.Length == pkts.Length && RecvSide.Apart(pkts[..], outside)
    requires RxReady(rx, pkts, outside, rx0)
    modifies rx`used, rx`running, rx`status, rx`wb, rx`wbLen, rx`hw, rx.ring, rx.bar, pkts, pkts[..]
    ensures rx.bar.Valid() && pkts[..] == old(pkts[..])
    ensures RxReady(rx, pkts, outside, rx1) && Received(rx0, rx1, run, ret)
    ensures rx0.got <= rx1.got && |rx1.got| == |rx0.got| + ret && rx0.e.used + ret <= pkts.Length
    ensures rx.used == if rx0.e.used + ret == pkts.Length then 0 else rx0.e.used + ret
    ensures forall i :: rx0.e.used <= i < rx0.e.used + ret ==>
      && R.Single(RecvSide.Buffers(pkts[..], outside)[i], 1, R.BUFFER_BYTES)
      && rx1.got[|rx0.got| + i - rx0.e.used] == R.DataAddr(RecvSide.Buffers(pkts[..], outside)[i])
  {
    hide R.Single, R.DataAddr, R.Exec, R.Begin, R.CpuStep, RecvSide.Buffers, RecvSide.Apart, RecvSide.Backed, Placed;
    HeadInv(rx0, pkts.Length);
    ghost var bufs := RecvSide.Buffers(pkts[..], outside);
    ghost var last;
    ret, last, run := RecvSide.RecvPkts(rx, pkts, pkts.Length, env, outside, rx0);
    ReceiveCall(rx0, bufs, pkts.Length, run, last, ret);
    rx1 := R.CpuStep(last);
  }

  lemma HeadInv(s: R.Rx, n: nat)
    requires RxHead(s, n)
    ensures R.Inv(s) && s.pc.Resting? && n <= 64 && s.e.used < n
  {
  }

  ghost function Elements(pkts: seq<Mbuf>): set<Mbuf> {
    set m | m in pkts
  }

  /** The first `k` polls of a transmit call for a slice of the buffers lead from `tx0` to `last`. */
  predicate Transmitted(tx0: T.Tx, last: T.Tx, bufs: seq<R.Mbuf>, idx: nat, ret: nat, env: nat -> seq<Tick>, k: nat) {
    && T.Fits(tx0) && idx + ret <= |bufs|
    && last == T.Exec(T.Begin(tx0, Forwarding.Batch(bufs, idx, ret)), XmitSide.Rounds(env, k))
  }

  /** The transmit half of a round: the slice from the loop's cursor on, with the receive channel at
      work as well. */
  method TransmitSlice(tx: XdmaEngine, rx: XdmaEngine, pkts: array<Mbuf>, idx: nat, ret: nat, env: nat -> seq<Tick>,
                       rxEnv: nat -> seq<Tick>, patience: nat, ghost outside: set<Mbuf>, ghost tx0: T.Tx,
                       ghost rx0: R.Rx, ghost before: seq<nat>)
    returns (out: XmitSide.Outcome, ghost last: T.Tx, ghost polls: nat)
    requires tx.bar.Valid() && tx.dir == H2C && tx.ring.Length == pkts.Length && TxReady(tx, tx0)
    requires rx != tx && rx.ring != tx.ring && RxReady(rx, pkts, outside, rx0)
    requires idx + ret <= pkts.Length && 0 < ret && before <= rx0.got && |rx0.got| == |before| + ret
    requires Loads(tx.hw.done) == before
    requires forall i :: idx <= i < idx + ret ==>
      && R.Single(RecvSide.Buffers(pkts[..], outside)[i], 1, R.BUFFER_BYTES)
      && rx0.got[|before| + i - idx] == R.DataAddr(RecvSide.Buffers(pkts[..], outside)[i])
    modifies tx`used, tx`running, tx`wb, tx`wbLen, tx`hw, tx.ring, tx.bar, rx`wb, rx`wbLen, rx`hw
    ensures tx.bar.Valid() && tx.Valid()
    ensures RxReady(rx, pkts, outside, rx0.(e := Runs(rx0.e, rxEnv, polls)))
    ensures Transmitted(tx0, last, rx0.bufs, idx, ret, env, polls)
    ensures out.StillWaiting? ==> last.pc == T.Waiting(ret) && last.e == tx.State()
    ensures out.Returned? ==>
      && out.value == ret && last.pc == T.Leaving(ret) && TxReady(tx, T.CpuStep(last))
      && ret < pkts.Length && Loads(tx.hw.done) == rx0.got
  {
    hide *;
    SliceReady(pkts, idx, ret, outside, before, rx0.got);
    TxIdle(tx, tx0);
    RxAlive(rx, pkts, outside, rx0);
    ghost var ps := XmitSide.Packets(pkts[idx..idx + ret], Elements(pkts[..]));
    ghost var done, rxs := tx.hw.done, rx.State();
    out, polls := XmitSide.XmitPkts(tx, rx, pkts, idx, ret, env, rxEnv, patience, Elements(pkts[..]), tx0);
    last := T.Exec(T.Begin(tx0, ps), XmitSide.Rounds(env, polls));
    TransmittedBy(tx0, last, rx0.bufs, idx, ret, env, polls, ps);
    RxStill(rx, pkts, outside, rx0, rxEnv, polls);
    if out.Returned? {
      TxReadyAgain(tx0, ps, env, polls);
      TxReadyFrom(tx, T.CpuStep(last));
      LoadsAppended(done, tx.hw.done, ps);
    }
  }

  lemma {:induction false} TransmittedBy(tx0: T.Tx, last: T.Tx, bufs: seq<R.Mbuf>, idx: nat, ret: nat,
      env: nat -> seq<Tick>, k: nat,
                      ps: seq<Packet>)
    requires T.Fits(tx0) && idx + ret <= |bufs| && ps == Forwarding.Batch(bufs, idx, ret)
    requires last == T.Exec(T.Begin(tx0, ps), XmitSide.Rounds(env, k))
    ensures Transmitted(tx0, last, bufs, idx, ret, env, k)
  {
  }

  lemma RxAlive(rx: XdmaEngine, pkts: array<Mbuf>, outside: set<Mbuf>, s: R.Rx)
    requires RxReady(rx, pkts, outside, s)
    ensures rx.Valid() && rx.State() == s.e && s.bufs == RecvSide.Buffers(pkts[..], outside) && |s.bufs| == pkts.Length
    ensures RxHead(s, pkts.Length) && s.port == rx.portId
  {
  }

  /** The receive engine after its channel has been at work, everything else unchanged. */
  lemma {:induction false} RxStill(rx: XdmaEngine, pkts: array<Mbuf>, outside: set<Mbuf>, s: R.Rx,
      env: nat -> seq<Tick>, k: nat)
    requires RxHead(s, pkts.Length) && s.bufs == RecvSide.Buffers(pkts[..], outside) && s.port == rx.portId
    requires rx.Valid() && rx.State() == Runs(s.e, env, k)
    ensures RxReady(rx, pkts, outside, s.(e := Runs(s.e, env, k)))
  {
    RunsReady(s, pkts.Length, env, k);
    hide RxHead, Runs, RecvSide.Buffers, RecvSide.Backed, Placed;
  }

  lemma {:induction false} MeanwhileReady(s: R.Rx, n: nat, ticks: seq<Tick>)
    requires RxHead(s, n)
    ensures RxHead(s.(e := Run(s.e, ticks)), n) && Run(s.e, ticks).running == s.e.running
    ensures s.e.running ==> RecvSide.Backed(Run(s.e, ticks), n)
  {
    if ticks != [] {
      var init, last := ticks[..|ticks| - 1], ticks[|ticks| - 1];
      MeanwhileReady(s, n, init);
      var r := s.(e := Run(s.e, init));
      R.StepFull(r, last);
      R.NextHarvest(r, R.Hw(last), 1, R.BUFFER_BYTES);
      StepSound(r.e, last);
    }
  }

  lemma {:induction false} RunsReady(s: R.Rx, n: nat, env: nat -> seq<Tick>, k: nat)
    requires RxHead(s, n)
    ensures RxHead(s.(e := Runs(s.e, env, k)), n) && Runs(s.e, env, k).running == s.e.running
    ensures s.e.running ==> RecvSide.Backed(Runs(s.e, env, k), n)
  {
    if k > 0 {
      RunsReady(s, n, env, k - 1);
      hide RxHead, RecvSide.Backed, Run;
      MeanwhileReady(s.(e := Runs(s.e, env, k - 1)), n, env(k - 1));
    } else {
      MeanwhileReady(s, n, []);
    }
  }

  lemma SliceReady(pkts: array<Mbuf>, idx: nat, ret: nat, outside: set<Mbuf>, before: seq<nat>, got: seq<nat>)
    requires idx + ret <= pkts.Length && before <= got && |got| == |before| + ret
    requires forall i :: idx <= i < idx + ret ==>
      && R.Single(RecvSide.Buffers(pkts[..], outside)[i], 1, R.BUFFER_BYTES)
      && got[|before| + i - idx] == R.DataAddr(RecvSide.Buffers(pkts[..], outside)[i])
    ensures XmitSide.AllWithin(pkts[idx..idx + ret], Elements(pkts[..]))
    ensures var ps := XmitSide.Packets(pkts[idx..idx + ret], Elements(pkts[..]));
            && AllWellFormed(ps) && T.AllSingle(ps) && T.Loaded(Flat(ps)) && |Flat(ps)| == ret
            && before + ItemAddrs(Flat(ps)) == got
            && ps == Forwarding.Batch(RecvSide.Buffers(pkts[..], outside), idx, ret)
  {
    SlicePackets(pkts[..], idx, ret, outside, Elements(pkts[..]));
    SliceAddrs(pkts[..], idx, ret, outside, Elements(pkts[..]), before, got);
    assert pkts[..][idx..idx + ret] == pkts[idx..idx + ret];
  }

  lemma TxIdle(tx: XdmaEngine, s: T.Tx)
    requires TxReady(tx, s)
    ensures tx.Valid() && s.e == tx.State() && T.Inv(s) && T.Fits(s) && s.pc.Resting? && !tx.running
    ensures tx.ring.Length <= 64
  {
  }

  lemma TxReadyFrom(tx: XdmaEngine, s: T.Tx)
    requires tx.Valid() && s.e == tx.State() && T.Inv(s) && s.pc.Resting?
    ensures TxReady(tx, s)
  {
  }

  lemma {:induction false} TxReadyAgain(s: T.Tx, ps: seq<Packet>, env: nat -> seq<Tick>, polls: nat)
    requires T.Inv(s) && s.pc.Resting? && AllWellFormed(ps)
    requires T.Exec(T.Begin(s, ps), XmitSide.Rounds(env, polls)).pc.Leaving?
    ensures var r := T.CpuStep(T.Exec(T.Begin(s, ps), XmitSide.Rounds(env, polls))); T.Inv(r) && r.pc.Resting?
  {
    T.BeginInv(s, ps);
    XmitSide.RoundsQuiet(env, polls);
    T.ExecInv(T.Begin(s, ps), XmitSide.Rounds(env, polls));
    T.NextInv(T.Exec(T.Begin(s, ps), XmitSide.Rounds(env, polls)), T.Cpu);
  }

  // ---------------------------------------------------------------- the loop

  /** What the thread holds between the two halves of a round. */
  ghost predicate Held(rx: XdmaEngine, tx: XdmaEngine, pkts: array<Mbuf>, outside: set<Mbuf>, txs: T.Tx, idx: nat,
                       ret: nat, before: seq<nat>, got: seq<nat>)
    reads rx, rx.bar, tx, tx.ring, tx.bar, pkts, pkts[..], outside
  {
    && Paired(rx, tx, pkts) && RecvSide.Apart(pkts[..], outside) && TxReady(tx, txs)
    && before <= got && |got| == |before| + ret && idx + ret <= pkts.Length && Loads(tx.hw.done) == before
    && idx < pkts.Length && rx.used == (if idx + ret == pkts.Length then 0 else idx + ret)
    && forall i :: idx <= i < idx + ret ==>
         && R.Single(RecvSide.Buffers(pkts[..], outside)[i], 1, R.BUFFER_BYTES)
         && got[|before| + i - idx] == R.DataAddr(RecvSide.Buffers(pkts[..], outside)[i])
  }

  /** The first half: from the loop head to a slice in hand. */
  method TakeSlice(rx: XdmaEngine, tx: XdmaEngine, pkts: array<Mbuf>, env: nat -> seq<Tick>,
                   ghost outside: set<Mbuf>, ghost s: Forwarding.Sys, ghost t: Tally)
    returns (ret: nat, ghost rx1: R.Rx, ghost run: seq<R.Event>)
    requires AtHead(rx, tx, pkts, outside, s, t)
    modifies rx`used, rx`running, rx`status, rx`wb, rx`wbLen, rx`hw, rx.ring, rx.bar, pkts, pkts[..]
    ensures pkts[..] == old(pkts[..]) && RxReady(rx, pkts, outside, rx1) && Received(s.rx, rx1, run, ret)
    ensures Held(rx, tx, pkts, outside, s.tx, t.idx, ret, s.rx.got, rx1.got)
  {
    hide RxHead, RecvSide.Buffers, RecvSide.Backed, RecvSide.Apart, TxReady, Loads, R.Single, R.DataAddr, Placed,
        Received;
    HeadInv(s.rx, pkts.Length);
    ret, rx1, run := ReceiveSlice(rx, pkts, env, outside, s.rx);
  }

  /** The second half: the slice goes out, or the observer gives up waiting. */
  method PassSlice(rx: XdmaEngine, tx: XdmaEngine, pkts: array<Mbuf>, idx: nat, ret: nat, env: nat -> seq<Tick>,
                   rxEnv: nat -> seq<Tick>, patience: nat, ghost outside: set<Mbuf>, ghost rx0: R.Rx, ghost tx0: T.Tx,
                   ghost before: seq<nat>)
    returns (out: XmitSide.Outcome, ghost last: T.Tx, ghost polls: nat)
    requires Held(rx, tx, pkts, outside, tx0, idx, ret, before, rx0.got) && RxReady(rx, pkts, outside, rx0) && ret > 0
    modifies tx`used, tx`running, tx`wb, tx`wbLen, tx`hw, tx.ring, tx.bar, rx`wb, rx`wbLen, rx`hw
    ensures RxReady(rx, pkts, outside, rx0.(e := Runs(rx0.e, rxEnv, polls)))
    ensures Transmitted(tx0, last, rx0.bufs, idx, ret, env, polls)
    ensures out.StillWaiting? ==> last.pc == T.Waiting(ret) && tx.Valid() && last.e == tx.State()
    ensures out.Returned? ==>
      && out.value == ret && last.pc == T.Leaving(ret)
      && Held(rx, tx, pkts, outside, T.CpuStep(last), (idx + ret) % pkts.Length, 0, rx0.got, rx0.got)
  {
    hide RxHead, RecvSide.Buffers, RecvSide.Backed, RecvSide.Apart, TxReady, Loads, R.Single, R.DataAddr, Placed,
         RxReady, Transmitted, T.CpuStep, Runs;
    Forwarding.WrapCursor(idx, ret, pkts.Length);
    out, last, polls := TransmitSlice(tx, rx, pkts, idx, ret, env, rxEnv, patience, outside, tx0, rx0, before);
  }

  /** A round is over: the thread is back at the head. */
  lemma RoundOver(rx: XdmaEngine, tx: XdmaEngine, pkts: array<Mbuf>, outside: set<Mbuf>, s: Forwarding.Sys,
                  before: seq<nat>)
    requires Held(rx, tx, pkts, outside, s.tx, s.idx, 0, before, s.rx.got) && RxReady(rx, pkts, outside, s.rx)
    requires s.pc.AtHead? && s.recv == s.xmit == |s.rx.got| && s.recvBatch == s.xmitBatch
    ensures AtHead(rx, tx, pkts, outside, s, Tally(s.idx, s.recv, s.xmit, s.recvBatch, s.xmitBatch))
  {
  }

  lemma HeadFacts(rx: XdmaEngine, tx: XdmaEngine, pkts: array<Mbuf>, outside: set<Mbuf>, s: Forwarding.Sys, t: Tally)
    requires AtHead(rx, tx, pkts, outside, s, t)
    ensures t == Tally(s.idx, s.recv, s.xmit, s.recvBatch, s.xmitBatch)
    ensures t.recv == t.xmit == |s.rx.got| && t.recvBatch == t.xmitBatch
    ensures Forwarding.Fits(s) && s.pc.AtHead? && |s.rx.bufs| == pkts.Length
  {
  }

  lemma HeldFacts(rx: XdmaEngine, tx: XdmaEngine, pkts: array<Mbuf>, outside: set<Mbuf>, txs: T.Tx, idx: nat, ret: nat,
                  before: seq<nat>, got: seq<nat>)
    requires Held(rx, tx, pkts, outside, txs, idx, ret, before, got)
    ensures |got| == |before| + ret && idx + ret <= pkts.Length && pkts.Length > 0
  {
  }

  /** The receive half as a run of the forwarder. */
  lemma ReceiveHalf(s: Forwarding.Sys, rx1: R.Rx, run: seq<R.Event>, ret: nat, payload: nat -> int)
      returns (m: Forwarding.Sys)
    requires Forwarding.Fits(s) && s.pc.AtHead? && Received(s.rx, rx1, run, ret)
    ensures m == Forwarding.Exec(s, RoundRuns.ReceiveEvents(run, payload)) && Forwarding.Fits(m)
    ensures m.rx == rx1 && m.tx == s.tx && m.idx == s.idx && m.xmit == s.xmit && m.xmitBatch == s.xmitBatch
    ensures m.recv == s.recv + ret && m.recvBatch == s.recvBatch + if ret > 0 then 1 else 0
    ensures m.pc == if ret > 0 then Forwarding.Holding(ret) else Forwarding.AtHead
  {
    hide Forwarding.Exec, R.Exec, R.Begin, R.CpuStep, RoundRuns.ReceiveEvents;
    var last := R.Exec(R.Begin(s.rx, s.rx.bufs, |s.rx.bufs|), run);
    RoundRuns.ReceiveRun(s, run, payload, last, ret);
    m := Forwarding.Exec(s, RoundRuns.ReceiveEvents(run, payload));
  }

  /** The transmit half as a run of the forwarder. */
  lemma TransmitHalf(m: Forwarding.Sys, last: T.Tx, ret: nat, env: nat -> seq<Tick>, rxEnv: nat -> seq<Tick>,
                     payload: nat -> nat -> int, polls: nat) returns (s: Forwarding.Sys)
    requires Forwarding.Fits(m) && m.pc == Forwarding.Holding(ret)
    requires Transmitted(m.tx, last, m.rx.bufs, m.idx, ret, env, polls)
    requires last.pc == T.Leaving(ret) || last.pc == T.Waiting(ret)
    ensures s == Forwarding.Exec(m, RoundRuns.TransmitEvents(env, rxEnv, payload, polls, last.pc.Leaving?))
    ensures Forwarding.Fits(s) && s.rx == m.rx.(e := Runs(m.rx.e, rxEnv, polls))
    ensures s.recv == m.recv && s.recvBatch == m.recvBatch
    ensures last.pc.Leaving? ==>
      && s.pc.AtHead? && s.tx == T.CpuStep(last) && s.xmit == m.xmit + ret && s.xmitBatch == m.xmitBatch + 1
      && s.idx == (m.idx + ret) % |m.rx.bufs|
    ensures last.pc.Waiting? ==> s.pc == Forwarding.InTransmit(ret) && s.tx == last
  {
    hide Forwarding.Exec, T.Exec, T.Begin, T.CpuStep, Forwarding.Batch, RoundRuns.TransmitEvents, Runs, XmitSide.Rounds;
    RoundRuns.TransmitRun(m, env, rxEnv, payload, polls, last, ret);
    s := Forwarding.Exec(m, RoundRuns.TransmitEvents(env, rxEnv, payload, polls, last.pc.Leaving?));
  }

  /** The objects in the middle of a transmit call that has been given up on. */
  ghost predicate Stuck(rx: XdmaEngine, tx: XdmaEngine, pkts: array<Mbuf>, outside: set<Mbuf>, s: Forwarding.Sys)
    reads rx, rx.ring, tx, tx.ring, pkts, pkts[..], outside
  {
    RxReady(rx, pkts, outside, s.rx) && tx.Valid() && s.tx.e == tx.State() && s.pc.InTransmit? && s.tx.pc.Waiting?
  }

  /** One round of the loop, as a run of the forwarder. `payload(0)` is what comes in on the receive wire
      during the receive call, and `payload(k + 1)` before poll k of the transmit call. */
  method ForwardRound(rx: XdmaEngine, tx: XdmaEngine, pkts: array<Mbuf>, t0: Tally, rxEnv: nat -> seq<Tick>,
                      txEnv: nat -> seq<Tick>, during: nat -> seq<Tick>, patience: nat, ghost outside: set<Mbuf>,
                      ghost payload: nat -> nat -> int, ghost s0: Forwarding.Sys)
    returns (t: Tally, stalled: bool, ghost s: Forwarding.Sys, ghost evs: seq<Forwarding.Event>)
    requires AtHead(rx, tx, pkts, outside, s0, t0)
    modifies rx`used, rx`running, rx`status, rx`wb, rx`wbLen, rx`hw, rx.ring, rx.bar, pkts, pkts[..]
    modifies tx`used, tx`running, tx`wb, tx`wbLen, tx`hw, tx.ring, tx.bar
    ensures pkts[..] == old(pkts[..])
    ensures Forwarding.Fits(s0) && s == Forwarding.Exec(s0, evs)
    ensures if stalled then Stuck(rx, tx, pkts, outside, s) else AtHead(rx, tx, pkts, outside, s, t)
  {
    hide *;
    HeadFacts(rx, tx, pkts, outside, s0, t0);
    t, stalled := t0, false;
    var ret;
    ghost var rx1, run;
    ret, rx1, run := TakeSlice(rx, tx, pkts, rxEnv, outside, s0, t0);
    HeldFacts(rx, tx, pkts, outside, s0.tx, t.idx, ret, s0.rx.got, rx1.got);
    s := ReceiveHalf(s0, rx1, run, ret, payload(0));
    evs := RoundRuns.ReceiveEvents(run, payload(0));
    RxAlive(rx, pkts, outside, rx1);
    ghost var before := s0.rx.got;
    var pktsLen: nat := 0;
    for i := t.idx to t.idx + ret {
      pktsLen := pkts[i].dataLen;
    }
    if ret > 0 {
      t := t.(recv := t.recv + ret, recvBatch := t.recvBatch + 1);
      var out;
      ghost var last, polls;
      out, last, polls := PassSlice(rx, tx, pkts, t.idx, ret, txEnv, during, patience, outside, rx1, s0.tx, before);
      ghost var wire := (k: nat) => payload(k + 1);
      ghost var more := RoundRuns.TransmitEvents(txEnv, during, wire, polls, last.pc.Leaving?);
      P.ExecAppend(s0, evs, more);
      s := TransmitHalf(s, last, ret, txEnv, during, wire, polls);
      evs := evs + more;
      if out.StillWaiting? {
        stalled := true;
        NowStuck(rx, tx, pkts, outside, s);
        return;
      }
      before := rx1.got;
      t := t.(idx := (t.idx + out.value) % pkts.Length, xmit := t.xmit + out.value, xmitBatch := t.xmitBatch + 1);
    }
    RoundOver(rx, tx, pkts, outside, s, before);
  }

  lemma NowStuck(rx: XdmaEngine, tx: XdmaEngine, pkts: array<Mbuf>, outside: set<Mbuf>, s: Forwarding.Sys)
    requires RxReady(rx, pkts, outside, s.rx) && tx.Valid() && s.tx.e == tx.State() && s.pc.InTransmit?
        && s.tx.pc.Waiting?
    ensures Stuck(rx, tx, pkts, outside, s)
  {
  }

  /** The forwarding loop, `rounds` times around. It asks for the whole array every time, and its exit
      on time is the end of the rounds. `rxEnv`, `txEnv` and `during` are what the channels do in each
      round: the receive channel between the steps of the receive call, the transmit channel between
      the polls of the transmit call, and the receive channel there too. Whatever they do and whatever
      comes in, the whole is a run of the forwarder; and at every return to the head of the loop the
      cursor is the receive engine's own, the counters agree, and the transmit engine has carried
      exactly the buffers the receive engine reported, in order. */
  method FpgaToFpga(rx: XdmaEngine, tx: XdmaEngine, pkts: array<Mbuf>, rounds: nat,
                    rxEnv: nat -> nat -> seq<Tick>, txEnv: nat -> nat -> seq<Tick>, during: nat -> nat -> seq<Tick>,
                    patience: nat, ghost outside: set<Mbuf>, ghost payload: nat -> nat -> nat -> int,
                    ghost s0: Forwarding.Sys)
    returns (t: Tally, stalled: bool, ghost s: Forwarding.Sys, ghost evs: seq<Forwarding.Event>)
    requires AtHead(rx, tx, pkts, outside, s0, Tally(0, 0, 0, 0, 0))
    modifies rx`used, rx`running, rx`status, rx`wb, rx`wbLen, rx`hw, rx.ring, rx.bar, pkts, pkts[..]
    modifies tx`used, tx`running, tx`wb, tx`wbLen, tx`hw, tx.ring, tx.bar
    ensures pkts[..] == old(pkts[..])
    ensures Forwarding.Fits(s0) && s == Forwarding.Exec(s0, evs)
    ensures if stalled then Stuck(rx, tx, pkts, outside, s) else AtHead(rx, tx, pkts, outside, s, t)
    ensures !stalled ==> t.idx == rx.used && t.recv == t.xmit == |Loads(tx.hw.done)|
    ensures !stalled ==> Loads(tx.hw.done) <= R.Addrs(rx.hw.done)
    ensures Forwarding.Reachable(s0, pkts.Length, 1, R.BUFFER_BYTES) ==>
      Forwarding.Reachable(s, pkts.Length, 1, R.BUFFER_BYTES)
  {
    hide *;
    t, stalled, s, evs := Tally(0, 0, 0, 0, 0), false, s0, [];
    HeadFacts(rx, tx, pkts, outside, s0, t);
    P.ExecOne(s0, [], Forwarding.Cpu);
    for round: nat := 0 to rounds
      invariant pkts[..] == old(pkts[..])
      invariant s == Forwarding.Exec(s0, evs) && !stalled
      invariant AtHead(rx, tx, pkts, outside, s, t)
    {
      ghost var more;
      t, stalled, s, more := ForwardRound(rx, tx, pkts, t, rxEnv(round), txEnv(round), during(round), patience,
                                          outside, payload(round), s);
      P.ExecAppend(s0, evs, more);
      evs := evs + more;
      if stalled {
        StaysReachable(s0, evs, pkts.Length);
        return;
      }
    }
    StaysReachable(s0, evs, pkts.Length);
    HeadForwarded(rx, tx, pkts, outside, s, t);
  }

  /** A run from a reachable state leads to a reachable state. */
  lemma {:induction false} StaysReachable(s: Forwarding.Sys, evs: seq<Forwarding.Event>, n: nat)
    requires Forwarding.Fits(s)
    ensures Forwarding.Reachable(s, n, 1, R.BUFFER_BYTES) ==>
      Forwarding.Reachable(Forwarding.Exec(s, evs), n, 1, R.BUFFER_BYTES)
  {
    if Forwarding.Reachable(s, n, 1, R.BUFFER_BYTES) {
      var rxBase: nat, txBase: nat, port: nat, bufs: seq<R.Mbuf>, before: seq<Forwarding.Event> :|
        Forwarding.IsRun(s, n, 1, R.BUFFER_BYTES, rxBase, txBase, port, bufs, before);
      hide Forwarding.Exec, Forwarding.Distinct, Forwarding.Launch, Forwarding.Fits, Placed;
      var start := Forwarding.Launch(n, rxBase, txBase, port, bufs);
      P.ExecAppend(start, before, evs);
      assert Forwarding.LengthsWithin(before + evs, 1, R.BUFFER_BYTES);
      assert Forwarding.IsRun(Forwarding.Exec(s, evs), n, 1, R.BUFFER_BYTES, rxBase, txBase, port, bufs, before + evs);
    }
  }

  lemma HeadForwarded(rx: XdmaEngine, tx: XdmaEngine, pkts: array<Mbuf>, outside: set<Mbuf>, s: Forwarding.Sys,
      t: Tally)
    requires AtHead(rx, tx, pkts, outside, s, t)
    ensures t.idx == rx.used && t.recv == t.xmit == |Loads(tx.hw.done)| && Loads(tx.hw.done) <= R.Addrs(rx.hw.done)
  {
  }

  /** Two fresh engines and any array of distinct buffers make a start; and if no two buffers share a
      data address, the forwarder's results hold of it. */
  method Launch(n: nat, rxNumber: nat, txNumber: nat, rxVirt: nat, txVirt: nat, virt2phy: int, pkts: array<Mbuf>,
                ghost outside: set<Mbuf>)
    returns (rx: XdmaEngine, tx: XdmaEngine, ghost s: Forwarding.Sys)
    requires pkts.Length == n && RecvSide.Apart(pkts[..], outside) && rxNumber < 4 && txNumber < 4
    requires rxVirt + virt2phy >= 0 && txVirt + virt2phy >= 0
    requires Placed(rxVirt + virt2phy, n) && Placed(txVirt + virt2phy, n)
    ensures AtHead(rx, tx, pkts, outside, s, Tally(0, 0, 0, 0, 0))
    ensures Forwarding.Distinct(RecvSide.Buffers(pkts[..], outside)) ==> Forwarding.Reachable(s, n, 1, R.BUFFER_BYTES)
  {
    hide AtHead, RecvSide.Apart, RecvSide.Buffers, Forwarding.Distinct, Forwarding.Reachable, Placed, InitRing;
    var rxBar := new Bar();
    var txBar := new Bar();
    rx := new XdmaEngine(C2H, rxNumber, rxBar, rxVirt, virt2phy, n);
    tx := new XdmaEngine(H2C, txNumber, txBar, txVirt, virt2phy, n);
    FreshHead(rx, tx, pkts, outside, n, rxVirt + virt2phy, txVirt + virt2phy);
    ghost var bufs := RecvSide.Buffers(pkts[..], outside);
    s := Forwarding.Launch(n, rxVirt + virt2phy, txVirt + virt2phy, 0, bufs);
    LaunchReachable(n, rxVirt + virt2phy, txVirt + virt2phy, bufs);
  }

  lemma FreshHead(rx: XdmaEngine, tx: XdmaEngine, pkts: array<Mbuf>, outside: set<Mbuf>, n: nat, rxBase: nat,
      txBase: nat)
    requires Placed(rxBase, n) && Placed(txBase, n) && RecvSide.Apart(pkts[..], outside) && Paired(rx, tx, pkts)
    requires rx.Valid() && tx.Valid() && pkts.Length == n && rx.portId == 0
    requires rx.State() == R.Fresh(n, rxBase, 0).e && tx.State() == T.Fresh(n, txBase).e
    ensures var bufs := RecvSide.Buffers(pkts[..], outside);
            AtHead(rx, tx, pkts, outside, Forwarding.Launch(n, rxBase, txBase, 0, bufs), Tally(0, 0, 0, 0, 0))
  {
    R.FreshInv(n, rxBase, 0);
    T.FreshInv(n, txBase);
  }

  lemma LaunchReachable(n: nat, rxBase: nat, txBase: nat, bufs: seq<R.Mbuf>)
    requires Placed(rxBase, n) && Placed(txBase, n) && |bufs| == n
    ensures Forwarding.Distinct(bufs) ==>
      Forwarding.Reachable(Forwarding.Launch(n, rxBase, txBase, 0, bufs), n, 1, R.BUFFER_BYTES)
  {
    if Forwarding.Distinct(bufs) {
      var s := Forwarding.Launch(n, rxBase, txBase, 0, bufs);
      P.ExecOne(s, [], Forwarding.Cpu);
      hide Forwarding.Distinct, Forwarding.Exec;
      assert Forwarding.LengthsWithin([], 1, R.BUFFER_BYTES);
      assert Forwarding.IsRun(s, n, 1, R.BUFFER_BYTES, rxBase, txBase, 0, bufs, []);
    }
  }
}
