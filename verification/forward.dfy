/** The forwarding loop over a receive and a transmit engine of the same ring size, as three
    processes: the application thread, the receive hardware and the transmit hardware. Packets move
    through buffer memory: the receive hardware writes a payload at a buffer's data address, and the
    transmit hardware sends whatever lies at the address it was given. */
module Forwarding {
  import opened Rings
  import opened Engines
  import opened Transmit
  import R = Receiving
  import T = Sending

  datatype Frame = Frame(payload: int, len: nat)

  /** Where the application thread is: at the head of its loop, inside the receive call, holding
      `ret` buffers it is about to send, or inside the transmit call for them. */
  datatype Pc = AtHead | InReceive | Holding(ret: nat) | InTransmit(ret: nat)

  /** `idx`, `recv`, `xmit` and the batch counters are the loop's own variables; `arrived` and
      `sent` are the histories of the two wires. */
  datatype Sys = Sys(rx: R.Rx, tx: T.Tx, pc: Pc, idx: nat, recv: nat, xmit: nat, recvBatch: nat,
                     xmitBatch: nat, mem: map<nat, int>, arrived: seq<Frame>, sent: seq<Frame>)

  datatype Event = Cpu | RxHw(tick: Tick, payload: int) | TxHw(tick: Tick)

  function PacketOf(m: R.Mbuf): Packet {
    Packet(m.nbSegs, [Segment(m.iova, m.off, m.dataLen)] + m.rest)
  }

  /** The packets the loop passes to the transmit call: `ret` of them from its own cursor on. */
  function Batch(bufs: seq<R.Mbuf>, idx: nat, ret: nat): seq<Packet>
    requires idx + ret <= |bufs|
  {
    seq(ret, c requires 0 <= c < ret => PacketOf(bufs[idx + c]))
  }

  predicate Fits(s: Sys) {
    && R.Fits(s.rx) && T.Fits(s.tx) && |s.rx.bufs| == |s.rx.e.ring|
  }

  function LoadAt(mem: map<nat, int>, a: nat): int {
    if a in mem then mem[a] else 0
  }

  function RxStep(s: Sys, t: Tick, payload: int): (r: Sys)
    requires Fits(s)
    ensures Fits(r)
  {
    var rx := R.Next(s.rx, R.Hw(t));
    if |rx.e.hw.done| > |s.rx.e.hw.done| then
      var last := rx.e.hw.done[|rx.e.hw.done| - 1];
      s.(rx := rx, mem := s.mem[last.addr := payload], arrived := s.arrived + [Frame(payload, last.len)])
    else s.(rx := rx)
  }

  function TxStep(s: Sys, t: Tick): (r: Sys)
    requires Fits(s)
    ensures Fits(r)
  {
    var tx := T.Next(s.tx, T.Hw(t));
    if |tx.e.hw.done| > |s.tx.e.hw.done| && tx.e.hw.done[|tx.e.hw.done| - 1].len > 0 then
      var last := tx.e.hw.done[|tx.e.hw.done| - 1];
      s.(tx := tx, sent := s.sent + [Frame(LoadAt(s.mem, last.addr), last.len)])
    else s.(tx := tx)
  }

  /** The loop asks for the whole array every time. */
  function BeginReceive(s: Sys): (r: Sys)
    requires Fits(s) && s.pc.AtHead?
    ensures Fits(r)
  {
    s.(rx := R.Begin(s.rx, s.rx.bufs, |s.rx.bufs|), pc := InReceive)
  }

  /** A receive call that returned buffers is counted and leads to a transmit call. */
  function InsideReceive(s: Sys): (r: Sys)
    requires Fits(s) && s.pc.InReceive?
    ensures Fits(r)
  {
    var rx := R.CpuStep(s.rx);
    if !s.rx.pc.Returning? then s.(rx := rx)
    else if s.rx.pc.ret > 0 then
      s.(rx := rx, pc := Holding(s.rx.pc.ret), recv := s.recv + s.rx.pc.ret, recvBatch := s.recvBatch + 1)
    else s.(rx := rx, pc := AtHead)
  }

  /** What goes out is the slice from the loop's own cursor on, as long as the receive call said. */
  function BeginTransmit(s: Sys): (r: Sys)
    requires Fits(s) && s.pc.Holding?
    ensures Fits(r)
  {
    if s.idx + s.pc.ret > |s.rx.bufs| then s
    else s.(tx := T.Begin(s.tx, Batch(s.rx.bufs, s.idx, s.pc.ret)), pc := InTransmit(s.pc.ret))
  }

  /** The cursor and the count advance by what the transmit call returns: its argument. */
  function InsideTransmit(s: Sys): (r: Sys)
    requires Fits(s) && s.pc.InTransmit?
    ensures Fits(r)
  {
    var tx := T.CpuStep(s.tx);
    if s.tx.pc.Leaving? then
      s.(tx := tx, pc := AtHead, idx := (s.idx + s.tx.pc.nb) % |s.rx.bufs|, xmit := s.xmit + s.tx.pc.nb,
         xmitBatch := s.xmitBatch + 1)
    else s.(tx := tx)
  }

  /** One step of the application thread. */
  function CpuStep(s: Sys): (r: Sys)
    requires Fits(s)
    ensures Fits(r)
  {
    match s.pc
    case AtHead => BeginReceive(s)
    case InReceive => InsideReceive(s)
    case Holding(_) => BeginTransmit(s)
    case InTransmit(_) => InsideTransmit(s)
  }

  function Next(s: Sys, ev: Event): (r: Sys)
    requires Fits(s)
    ensures Fits(r)
  {
    match ev
    case Cpu => CpuStep(s)
    case RxHw(t, payload) => RxStep(s, t, payload)
    case TxHw(t) => TxStep(s, t)
  }

  function Exec(s: Sys, evs: seq<Event>): (r: Sys)
    requires Fits(s)
    ensures Fits(r)
  {
    if evs == [] then s else Next(Exec(s, evs[..|evs| - 1]), evs[|evs| - 1])
  }

  /** Both engines fresh, and one array of buffers, whatever their metadata. */
  function Launch(n: nat, rxBase: nat, txBase: nat, port: nat, bufs: seq<R.Mbuf>): Sys {
    Sys(R.Fresh(n, rxBase, port).(bufs := bufs), T.Fresh(n, txBase), AtHead, 0, 0, 0, 0, 0, map[], [], [])
  }

  // ---------------------------------------------------------------- the invariant

  /** No two buffers share a data address. */
  predicate Distinct(bufs: seq<R.Mbuf>) {
    forall i, j :: 0 <= i < j < |bufs| ==> R.DataAddr(bufs[i]) != R.DataAddr(bufs[j])
  }

  predicate RxSide(s: Sys, n: nat, lo: nat, hi: nat) {
    && R.FullInv(s.rx) && R.HarvestInv(s.rx, lo, hi)
    && |s.rx.e.ring| == n == |s.rx.bufs| && Distinct(s.rx.bufs)
  }

  predicate TxSide(s: Sys, n: nat) {
    T.Inv(s.tx) && |s.tx.e.ring| == n
  }

  /** The slot after the last one handed over in this epoch, or in the last one when it is over. */
  function Cursor(rx: R.Rx): nat {
    if rx.e.running then rx.e.used else |rx.e.ring|
  }

  /** The loop's cursor and counters track the engines' hidden ones. */
  predicate Tracks(s: Sys) {
    match s.pc
    case AtHead =>
      && s.rx.pc.Resting? && s.tx.pc.Resting? && s.idx == s.rx.e.used
      && s.xmit == s.recv == |s.rx.got| && s.xmitBatch == s.recvBatch
    case InReceive =>
      && !s.rx.pc.Resting? && s.tx.pc.Resting?
      && s.idx + (if s.rx.pc.Returning? then s.rx.pc.ret else 0) == s.rx.e.used
      && s.xmit == s.recv == s.rx.entry && s.xmitBatch == s.recvBatch
    case Holding(ret) =>
      && s.rx.pc.Resting? && s.tx.pc.Resting? && 0 < ret && s.idx + ret == Cursor(s.rx)
      && s.xmit + ret == s.recv == |s.rx.got| && s.xmitBatch + 1 == s.recvBatch
    case InTransmit(ret) =>
      && s.rx.pc.Resting? && !s.tx.pc.Resting? && s.tx.e.running && 0 < ret && s.idx + ret == Cursor(s.rx)
      && s.xmit + ret == s.recv == |s.rx.got| && s.xmitBatch + 1 == s.recvBatch
      && s.idx + ret <= |s.rx.bufs| && s.tx.batch == Batch(s.rx.bufs, s.idx, ret)
  }

  /** The buffers in the application's hands. */
  function Held(pc: Pc): nat {
    if pc.Holding? || pc.InTransmit? then pc.ret else 0
  }

  /** The slice held is the slice just delivered. */
  predicate SliceDelivered(s: Sys) {
    && s.xmit + Held(s.pc) <= |s.rx.e.hw.done| && s.idx + Held(s.pc) <= |s.rx.bufs|
    && forall j :: s.xmit <= j < s.xmit + Held(s.pc) ==>
         s.rx.e.hw.done[j].addr == R.DataAddr(s.rx.bufs[s.idx + j - s.xmit])
  }

  /** A delivered packet stays in its buffer until its transmission has been completed. */
  predicate Intact(s: Sys, lo: nat, hi: nat) {
    && |s.arrived| == |s.rx.e.hw.done| && s.xmit <= |s.arrived|
    && (s.rx.e.running ==> s.rx.mark <= s.xmit)
    && (forall j :: 0 <= j < |s.arrived| ==> lo <= s.arrived[j].len <= hi)
    && forall j :: s.xmit <= j < |s.arrived| ==>
         LoadAt(s.mem, s.rx.e.hw.done[j].addr) == s.arrived[j].payload
  }

  /** Packets of the batch that have left. */
  function Left(s: Sys): nat {
    if s.pc.InTransmit? then Min(s.tx.e.hw.completed, s.pc.ret) else 0
  }

  predicate SentPrefix(s: Sys, lo: nat, hi: nat) {
    && |s.sent| == s.xmit + Left(s) && |s.sent| <= |s.arrived|
    && forall j :: 0 <= j < |s.sent| ==>
         s.sent[j].payload == s.arrived[j].payload && lo <= s.sent[j].len <= hi
  }

  predicate Inv(s: Sys, n: nat, lo: nat, hi: nat) {
    && 2 <= n && 1 <= lo <= hi <= R.BUFFER_BYTES
    && RxSide(s, n, lo, hi) && TxSide(s, n) && Tracks(s) && SliceDelivered(s) && Intact(s, lo, hi)
        && SentPrefix(s, lo, hi)
  }

  lemma LaunchInv(n: nat, rxBase: nat, txBase: nat, port: nat, bufs: seq<R.Mbuf>, lo: nat, hi: nat)
    requires Placed(rxBase, n) && Placed(txBase, n) && |bufs| == n && Distinct(bufs)
    requires 1 <= lo <= hi <= R.BUFFER_BYTES
    ensures Fits(Launch(n, rxBase, txBase, port, bufs)) && Inv(Launch(n, rxBase, txBase, port, bufs), n, lo, hi)
  {
    R.FreshInv(n, rxBase, port);
    T.FreshInv(n, txBase);
  }

  // ---------------------------------------------------------------- receive hardware

  /** What a hardware step does to a receive engine. */
  lemma RxStepEffect(rx: R.Rx, t: Tick)
    requires R.FullInv(rx)
    ensures var r := R.Next(rx, R.Hw(t));
            && r == rx.(e := r.e) && r.e == rx.e.(wb := r.e.wb, wbLen := r.e.wbLen, hw := r.e.hw)
            && (r.e.hw.done == rx.e.hw.done ||
                (&& rx.e.running && rx.e.hw.completed < |rx.e.ring| && rx.mark + rx.e.hw.completed == |rx.e.hw.done|
                 && 1 <= t.bytes <= R.BUFFER_BYTES
                 && r.e.hw.done == rx.e.hw.done + [Transfer(rx.e.hw.completed,
                     R.DataAddr(rx.bufs[rx.e.hw.completed]), t.bytes)]))
  {
    StepSound(rx.e, t);
    if rx.e.hw.busy {
      LocateSlot(rx.e.base, |rx.e.ring|, rx.e.hw.completed);
    }
  }

  /** The transfers of the current epoch went to the buffers in order. */
  lemma EpochAddrs(rx: R.Rx)
    requires R.FullInv(rx) && rx.e.running
    ensures |rx.bufs| == |rx.e.ring| && rx.mark <= |rx.e.hw.done| <= rx.mark + |rx.bufs|
    ensures forall j :: rx.mark <= j < |rx.e.hw.done| ==> rx.e.hw.done[j].addr == R.DataAddr(rx.bufs[j - rx.mark])
  {
    forall j | rx.mark <= j < |rx.e.hw.done|
      ensures rx.e.hw.done[j].addr == R.DataAddr(rx.bufs[j - rx.mark])
    {
      assert rx.e.hw.done[j].addr == Destination(rx.e.ring[j - rx.mark]);
    }
  }

  /** A delivery into a buffer that is not awaiting transmission disturbs no packet that is. */
  lemma DeliveryIntact(s: Sys, r: Sys, a: nat, t: Transfer, frame: Frame, lo: nat, hi: nat)
    requires Intact(s, lo, hi) && SliceDelivered(s) && SentPrefix(s, lo, hi)
    requires t.addr == a && lo <= frame.len <= hi
    requires forall j :: s.xmit <= j < |s.rx.e.hw.done| ==> s.rx.e.hw.done[j].addr != a
    requires r == s.(rx := r.rx, mem := s.mem[a := frame.payload], arrived := s.arrived + [frame])
    requires r.rx.bufs == s.rx.bufs && r.rx.mark == s.rx.mark && r.rx.e.running == s.rx.e.running
    requires r.rx.e.hw.done == s.rx.e.hw.done + [t]
    ensures Intact(r, lo, hi) && SliceDelivered(r) && SentPrefix(r, lo, hi)
  {
  }

  /** Neither wire moves and no packet leaves its buffer. */
  lemma QuietIntact(s: Sys, r: Sys, lo: nat, hi: nat)
    requires Intact(s, lo, hi) && SliceDelivered(s) && SentPrefix(s, lo, hi)
    requires r == s.(rx := r.rx, tx := r.tx) && Left(r) == Left(s)
    requires r.rx.e.hw.done == s.rx.e.hw.done && r.rx.bufs == s.rx.bufs
    requires r.rx.mark == s.rx.mark && r.rx.e.running == s.rx.e.running
    ensures Intact(r, lo, hi) && SliceDelivered(r) && SentPrefix(r, lo, hi)
  {
  }

  lemma RxSideStep(s: Sys, t: Tick, payload: int, n: nat, lo: nat, hi: nat)
    requires Fits(s) && Inv(s, n, lo, hi) && R.TickWithin(t, lo, hi)
    ensures var r := RxStep(s, t, payload);
            RxSide(r, n, lo, hi) && TxSide(r, n) && Tracks(r) && r.rx == R.Next(s.rx, R.Hw(t))
  {
    R.StepFull(s.rx, t) by { hide R.FullInv; }
    R.NextHarvest(s.rx, R.Hw(t), lo, hi) by { hide R.FullInv, R.HarvestInv; }
    RxStepEffect(s.rx, t) by { hide R.FullInv; }
    hide R.FullInv, R.HarvestInv, T.Inv, R.Next, Intact, SliceDelivered, SentPrefix, Distinct;
  }

  /** Where a delivery goes: to the next buffer of the epoch, which holds no packet in waiting. */
  lemma DeliveryApart(s: Sys, n: nat, lo: nat, hi: nat)
    requires Inv(s, n, lo, hi) && s.rx.e.running && s.rx.e.hw.completed < n
    requires s.rx.mark + s.rx.e.hw.completed == |s.rx.e.hw.done|
    ensures forall j :: s.xmit <= j < |s.rx.e.hw.done| ==>
      s.rx.e.hw.done[j].addr != R.DataAddr(s.rx.bufs[s.rx.e.hw.completed])
  {
    EpochAddrs(s.rx) by { hide R.FullInv; }
    hide R.FullInv, R.HarvestInv, T.Inv, Tracks, SliceDelivered, SentPrefix;
    forall j | s.xmit <= j < |s.rx.e.hw.done|
      ensures s.rx.e.hw.done[j].addr != R.DataAddr(s.rx.bufs[s.rx.e.hw.completed])
    {
      assert s.rx.e.hw.done[j].addr == R.DataAddr(s.rx.bufs[j - s.rx.mark]);
    }
  }

  lemma RxStepInv(s: Sys, t: Tick, payload: int, n: nat, lo: nat, hi: nat)
    requires Fits(s) && Inv(s, n, lo, hi) && R.TickWithin(t, lo, hi)
    ensures Inv(RxStep(s, t, payload), n, lo, hi)
  {
    var r := RxStep(s, t, payload);
    RxSideStep(s, t, payload, n, lo, hi) by { hide Inv; }
    RxStepEffect(s.rx, t) by { hide R.FullInv; }
    assert |s.rx.bufs| == |s.rx.e.ring| == n;
    hide R.FullInv, R.HarvestInv, T.Inv, R.Next, RxSide, TxSide, Tracks, Intact, SliceDelivered, SentPrefix, Distinct;
    if r.rx.e.hw.done != s.rx.e.hw.done {
      var c := s.rx.e.hw.completed;
      DeliveryApart(s, n, lo, hi) by { hide Inv; }
      var a := R.DataAddr(s.rx.bufs[c]);
      assert lo <= t.bytes <= hi;
      DeliveryIntact(s, r, a, Transfer(c, a, t.bytes), Frame(payload, t.bytes), lo, hi);
    } else {
      QuietIntact(s, r, lo, hi);
    }
  }

  // ---------------------------------------------------------------- transmit hardware

  lemma {:induction false} FlatSingles(pkts: seq<Packet>)
    requires AllWellFormed(pkts) && T.AllSingle(pkts)
    ensures |Flat(pkts)| == |pkts|
    ensures forall k :: 0 <= k < |pkts| ==>
      Flat(pkts)[k] == Item(BusAddr(pkts[k].chain[0]), pkts[k].chain[0].len, true)
  {
    if pkts != [] {
      FlatSingles(pkts[..|pkts| - 1]);
    }
  }

  /** The slice of buffers is what its batch describes to the hardware. */
  predicate Describes(items: seq<Item>, bufs: seq<R.Mbuf>, idx: nat, ret: nat) {
    && |items| == ret && idx + ret <= |bufs|
    && forall c :: 0 <= c < ret ==> items[c] == Item(R.DataAddr(bufs[idx + c]), bufs[idx + c].dataLen, true)
  }

  /** Buffers idx to idx + ret are single closed segments with lengths within the bounds. */
  predicate AllHarvested(bufs: seq<R.Mbuf>, idx: nat, ret: nat, lo: nat, hi: nat) {
    idx + ret <= |bufs| && forall i :: idx <= i < idx + ret ==> R.Single(bufs[i], lo, hi)
  }

  lemma BatchPackets(bufs: seq<R.Mbuf>, idx: nat, ret: nat, lo: nat, hi: nat)
    requires AllHarvested(bufs, idx, ret, lo, hi)
    ensures var pkts := Batch(bufs, idx, ret);
            && AllWellFormed(pkts) && T.AllSingle(pkts)
            && forall c :: 0 <= c < ret ==>
                 BusAddr(pkts[c].chain[0]) == R.DataAddr(bufs[idx + c]) && pkts[c].chain[0].len == bufs[idx + c].dataLen
  {
    var pkts := Batch(bufs, idx, ret);
    forall c | 0 <= c < ret
      ensures pkts[c] == PacketOf(bufs[idx + c]) && R.Single(bufs[idx + c], lo, hi)
    {
      var i := idx + c;
      assert R.Single(bufs[i], lo, hi);
    }
  }

  /** The buffers a receive call returned meet what the transmit routine asks: each is a packet of a
      single segment, and the batch is accepted whole. */
  lemma {:induction false} HarvestMeetsTransmit(bufs: seq<R.Mbuf>, idx: nat, ret: nat, lo: nat, hi: nat)
    requires AllHarvested(bufs, idx, ret, lo, hi)
    ensures AllWellFormed(Batch(bufs, idx, ret)) && T.AllSingle(Batch(bufs, idx, ret))
    ensures Describes(T.Taken(Batch(bufs, idx, ret), |bufs|), bufs, idx, ret)
    ensures Accepted(Batch(bufs, idx, ret), |bufs|) == ret
  {
    var pkts := Batch(bufs, idx, ret);
    BatchPackets(bufs, idx, ret, lo, hi);
    FlatSingles(pkts);
    assert Describes(Flat(pkts), bufs, idx, ret);
    T.SinglesCount(pkts);
    AcceptedFits(pkts, |bufs|);
    hide Describes, Batch, Flat, WellFormed, AllHarvested, T.AllSingle;
    assert pkts[..|pkts|] == pkts;
  }

  /** What a hardware step does to a transmit engine with a batch of nonempty items in it. */
  lemma TxStepEffect(tx: T.Tx, t: Tick)
    requires T.Inv(tx)
    ensures var r := T.Next(tx, T.Hw(t));
            var items := T.Taken(tx.batch, |tx.e.ring|);
            var c := tx.e.hw.completed;
            && T.Inv(r) && r == tx.(e := r.e) && r.e == tx.e.(wb := r.e.wb, wbLen := r.e.wbLen, hw := r.e.hw)
            && ((r.e.hw.done == tx.e.hw.done && r.e.hw.completed == c) ||
                (&& tx.e.running && r.e.hw.completed == c + 1
                 && |r.e.hw.done| == |tx.e.hw.done| + 1 && r.e.hw.done[..|tx.e.hw.done|] == tx.e.hw.done
                 && var d := r.e.hw.done[|tx.e.hw.done|];
                    if c < |items| then d == Transfer(c, items[c].addr, items[c].len) else d.len == 0))
            && (tx.pc.Resting? ==> !tx.e.running)
  {
    var r := T.Next(tx, T.Hw(t));
    T.HwInv(tx, t);
    StepSound(tx.e, t);
    if r.e.hw.done != tx.e.hw.done {
      var items := T.Taken(tx.batch, |tx.e.ring|);
      var c := tx.e.hw.completed;
      var d := Transfer(c, Source(tx.e.ring[c]), tx.e.ring[c].len);
      assert r.e.hw.done == tx.e.hw.done + [d];
      hide T.Taken;
      assert T.InFlight(tx.e, items, Accepted(tx.batch, |tx.e.ring|), tx.mark);
    }
  }

  /** A transmission from an intact slice extends what was sent by the next frame that arrived. */
  lemma EmissionPrefix(s: Sys, r: Sys, lo: nat, hi: nat, ret: nat, c: nat, items: seq<Item>)
    requires Intact(s, lo, hi) && SentPrefix(s, lo, hi) && SliceDelivered(s)
    requires s.pc == InTransmit(ret) && c == s.tx.e.hw.completed < ret && Describes(items, s.rx.bufs, s.idx, ret)
    requires lo <= items[c].len <= hi
    requires r == s.(tx := r.tx, sent := s.sent + [Frame(LoadAt(s.mem, items[c].addr), items[c].len)])
    requires r.tx.e.hw.completed == c + 1
    ensures SentPrefix(r, lo, hi)
  {
    var j := s.xmit + c;
    assert s.rx.e.hw.done[j].addr == R.DataAddr(s.rx.bufs[s.idx + c]) == items[c].addr;
    assert LoadAt(s.mem, items[c].addr) == s.arrived[j].payload;
  }

  /** The slice in flight is harvested and of bounded lengths. */
  lemma SliceSingle(s: Sys, n: nat, lo: nat, hi: nat)
    requires Inv(s, n, lo, hi) && Held(s.pc) > 0
    ensures |s.rx.bufs| == n && AllHarvested(s.rx.bufs, s.idx, Held(s.pc), lo, hi)
  {
    assert s.rx.e.hw.done != [];
    assert s.idx + Held(s.pc) <= R.HarvestedCount(s.rx) <= n;
  }

  lemma TxSideStep(s: Sys, t: Tick, n: nat, lo: nat, hi: nat)
    requires Fits(s) && Inv(s, n, lo, hi)
    ensures var r := TxStep(s, t);
            RxSide(r, n, lo, hi) && TxSide(r, n) && Tracks(r) && r.rx == s.rx && r.tx == T.Next(s.tx, T.Hw(t))
  {
    TxStepEffect(s.tx, t) by { hide T.Inv; }
    hide R.FullInv, R.HarvestInv, T.Inv, T.Next, R.Fits, T.Fits, Batch, Intact, SliceDelivered, SentPrefix, Distinct;
  }

  lemma TxStepInv(s: Sys, t: Tick, n: nat, lo: nat, hi: nat)
    requires Fits(s) && Inv(s, n, lo, hi)
    ensures Inv(TxStep(s, t), n, lo, hi)
  {
    var r := TxStep(s, t);
    TxSideStep(s, t, n, lo, hi) by { hide Inv; }
    if r.tx.e.hw.completed == s.tx.e.hw.completed {
      TxStepEffect(s.tx, t) by { hide T.Inv; }
      hide R.FullInv, R.HarvestInv, T.Inv, T.Next, RxSide, TxSide, Tracks, Intact, SliceDelivered, SentPrefix;
      QuietIntact(s, r, lo, hi);
    } else {
      TxEmits(s, t, n, lo, hi) by { hide Inv; }
      hide RxSide, TxSide, Tracks, Intact, SliceDelivered, SentPrefix, TxStep;
    }
  }

  /** What the transmit hardware works on is the slice. */
  lemma SliceInFlight(s: Sys, n: nat, lo: nat, hi: nat)
    requires Inv(s, n, lo, hi) && s.tx.e.running
    ensures s.pc == InTransmit(Held(s.pc)) && Held(s.pc) > 0 && |s.tx.e.ring| == |s.rx.bufs| == n
    ensures s.idx + Held(s.pc) <= |s.rx.bufs| && s.tx.batch == Batch(s.rx.bufs, s.idx, Held(s.pc))
    ensures T.Inv(s.tx)
  {
    assert T.Inv(s.tx) && !s.tx.pc.Resting?;
    hide R.FullInv, R.HarvestInv, T.Inv, Intact, SliceDelivered, SentPrefix, Batch;
  }

  /** What a completed transmission puts on the wire: the next item, or nothing for the empty mark. */
  lemma TxStepSends(s: Sys, t: Tick, items: seq<Item>)
    requires Fits(s) && T.Inv(s.tx) && items == T.Taken(s.tx.batch, |s.tx.e.ring|)
    requires TxStep(s, t).tx.e.hw.completed != s.tx.e.hw.completed
    requires forall k :: 0 <= k < |items| ==> items[k].len > 0
    ensures var r, c := TxStep(s, t), s.tx.e.hw.completed;
            && r == s.(tx := r.tx, sent := r.sent) && r.tx.e.hw.completed == c + 1
            && r.sent == s.sent +
                 if c < |items| then [Frame(LoadAt(s.mem, items[c].addr), items[c].len)] else []
  {
    TxStepEffect(s.tx, t) by { hide T.Inv; }
    hide T.Inv, T.Taken, T.Next, LoadAt;
  }

  /** A completed transmission is of the next buffer of the slice, or of the empty mark after it. */
  lemma TxEmits(s: Sys, t: Tick, n: nat, lo: nat, hi: nat)
    requires Fits(s) && Inv(s, n, lo, hi) && TxStep(s, t).tx.e.hw.completed != s.tx.e.hw.completed
    ensures var r := TxStep(s, t); Intact(r, lo, hi) && SliceDelivered(r) && SentPrefix(r, lo, hi)
  {
    var r := TxStep(s, t);
    InvParts(s, n, lo, hi);
    TxStepIsHw(s, t);
    hide *;
    TxRunning(s.tx, t);
    SliceInFlight(s, n, lo, hi);
    SliceSingle(s, n, lo, hi);
    var ret, c, items := Held(s.pc), s.tx.e.hw.completed, T.Taken(s.tx.batch, n);
    HarvestMeetsTransmit(s.rx.bufs, s.idx, ret, lo, hi);
    LengthsOf(items, s.rx.bufs, s.idx, ret, lo, hi);
    TxStepSends(s, t, items);
    if c < ret {
      EmissionPrefix(s, r, lo, hi, ret, c, items);
      SentIntact(s, r, lo, hi);
    } else {
      LeftOver(s, r, ret);
      QuietIntact(s, r, lo, hi);
    }
  }

  lemma LeftOver(s: Sys, r: Sys, ret: nat)
    requires s.pc == r.pc == InTransmit(ret) && r.tx.e.hw.completed == s.tx.e.hw.completed + 1 > ret
    ensures Left(r) == Left(s)
  {
  }

  lemma InvParts(s: Sys, n: nat, lo: nat, hi: nat)
    requires Inv(s, n, lo, hi)
    ensures T.Inv(s.tx) && Intact(s, lo, hi) && SliceDelivered(s) && SentPrefix(s, lo, hi) && 1 <= lo
  {
  }

  lemma TxStepIsHw(s: Sys, t: Tick)
    requires Fits(s)
    ensures T.Fits(s.tx) && TxStep(s, t).tx == T.Next(s.tx, T.Hw(t))
  {
    hide T.Next;
  }

  lemma TxRunning(tx: T.Tx, t: Tick)
    requires T.Inv(tx) && T.Fits(tx) && T.Next(tx, T.Hw(t)).e.hw.completed != tx.e.hw.completed
    ensures tx.e.running
  {
    StepSound(tx.e, t);
  }

  lemma LengthsOf(items: seq<Item>, bufs: seq<R.Mbuf>, idx: nat, ret: nat, lo: nat, hi: nat)
    requires AllHarvested(bufs, idx, ret, lo, hi) && Describes(items, bufs, idx, ret) && 1 <= lo
    ensures |items| == ret && forall k :: 0 <= k < ret ==> lo <= items[k].len <= hi && items[k].len > 0
  {
    forall k | 0 <= k < ret
      ensures lo <= items[k].len <= hi
    {
      assert R.Single(bufs[idx + k], lo, hi);
    }
  }

  lemma SentIntact(s: Sys, r: Sys, lo: nat, hi: nat)
    requires Intact(s, lo, hi) && SliceDelivered(s) && r == s.(tx := r.tx, sent := r.sent)
    ensures Intact(r, lo, hi) && SliceDelivered(r)
  {
  }

  // ---------------------------------------------------------------- the application thread

  /** What beginning a receive call does to the engine. */
  lemma ReceiveBegins(rx: R.Rx, n: nat)
    requires R.FullInv(rx) && rx.pc.Resting? && |rx.bufs| == n == |rx.e.ring|
    ensures var r := R.Begin(rx, rx.bufs, n);
            && r.pc == R.Polling(0) && r.bufs == rx.bufs && r.entry == |rx.got| && r.e.hw.done == rx.e.hw.done
            && r.e.running && r.e.used == rx.e.used && |r.e.ring| == n
            && r.mark == if rx.e.running then rx.mark else |rx.got|
  {
    if !rx.e.running {
      R.ArmAt(rx.e.ring, rx.e.base, 0, rx.bufs[..n]);
    }
  }

  lemma HeadSides(s: Sys, n: nat, lo: nat, hi: nat)
    requires Fits(s) && Inv(s, n, lo, hi) && s.pc.AtHead?
    ensures var r := BeginReceive(s); RxSide(r, n, lo, hi) && TxSide(r, n) && Tracks(r)
  {
    R.BeginFull(s.rx, s.rx.bufs) by { hide R.FullInv; }
    R.NextHarvest(s.rx, R.Call(s.rx.bufs, n), lo, hi) by { hide R.FullInv, R.HarvestInv; }
    ReceiveBegins(s.rx, n) by { hide R.FullInv; }
    assert R.Next(s.rx, R.Call(s.rx.bufs, n)) == BeginReceive(s).rx;
    hide R.FullInv, R.HarvestInv, T.Inv, R.Begin, R.Next, Distinct, Intact, SliceDelivered, SentPrefix;
  }

  lemma HeadInv(s: Sys, n: nat, lo: nat, hi: nat)
    requires Fits(s) && Inv(s, n, lo, hi) && s.pc.AtHead?
    ensures Inv(BeginReceive(s), n, lo, hi)
  {
    HeadSides(s, n, lo, hi) by { hide Inv; }
    ReceiveBegins(s.rx, n) by { hide R.FullInv; }
    hide RxSide, TxSide, R.Begin;
  }

  /** The buffers keep their addresses. */
  predicate SameAddrs(a: seq<R.Mbuf>, b: seq<R.Mbuf>) {
    |a| == |b| && forall i :: 0 <= i < |a| ==> R.DataAddr(a[i]) == R.DataAddr(b[i])
  }

  /** What a driver step inside a receive call does to the engine. */
  lemma ReceiveSteps(rx: R.Rx)
    requires R.FullInv(rx) && !rx.pc.Resting?
    ensures var r := R.CpuStep(rx);
            && r.e.hw.done == rx.e.hw.done && r.mark == rx.mark && r.entry == rx.entry && rx.e.running
            && SameAddrs(r.bufs, rx.bufs) && |r.e.ring| == |rx.e.ring|
            && if rx.pc.Returning? then
                 && r.pc.Resting? && r.got == rx.got && |rx.got| == rx.entry + rx.pc.ret == rx.mark + rx.e.used
                 && r.e.used == (if rx.e.used == |rx.e.ring| then 0 else rx.e.used)
                 && (r.e.running <==> rx.e.used < |rx.e.ring|) && (rx.pc.ret == 0 ==> r.e.running)
               else
                 && !r.pc.Resting? && r.e.running && r.e.used == rx.e.used + if r.pc.Returning? then r.pc.ret else 0
  {
  }

  lemma SameAddrsKeep(s: Sys, r: Sys, lo: nat, hi: nat)
    requires Intact(s, lo, hi) && SentPrefix(s, lo, hi) && Held(s.pc) == 0
        && r == s.(rx := r.rx, pc := r.pc, recv := r.recv, recvBatch := r.recvBatch)
    requires r.rx.e.hw.done == s.rx.e.hw.done && r.rx.mark == s.rx.mark && s.rx.e.running && !r.pc.InTransmit?
    ensures Intact(r, lo, hi) && SentPrefix(r, lo, hi)
  {
  }

  /** Rewriting metadata keeps the data addresses apart. */
  lemma DistinctAfter(a: seq<R.Mbuf>, b: seq<R.Mbuf>)
    requires Distinct(b) && SameAddrs(a, b)
    ensures Distinct(a)
  {
    forall i, j | 0 <= i < j < |a|
      ensures R.DataAddr(a[i]) != R.DataAddr(a[j])
    {
      assert R.DataAddr(b[i]) != R.DataAddr(b[j]);
    }
  }

  /** What a receive call returns lies in its epoch. */
  lemma ReturnedSlice(rx: R.Rx, ret: nat)
    requires R.FullInv(rx) && rx.e.running && rx.pc == R.Returning(ret)
    ensures rx.entry + ret == |rx.got| == rx.mark + rx.e.used <= |rx.e.hw.done| && rx.mark <= rx.entry
  {
    hide R.Armed, R.Inv;
  }

  /** A receive call returns the slice that starts at the loop's cursor. */
  lemma SliceReturned(s: Sys, r: Sys, n: nat, ret: nat)
    requires R.FullInv(s.rx) && s.rx.e.running && s.rx.pc == R.Returning(ret) && |s.rx.e.ring| == n
    requires r.rx.e.hw.done == s.rx.e.hw.done && r.rx.bufs == s.rx.bufs && Held(r.pc) <= ret
    requires s.idx + ret == s.rx.e.used && s.xmit == s.rx.entry && r.idx == s.idx && r.xmit == s.xmit
    ensures SliceDelivered(r)
  {
    hide R.FullInv, R.DataAddr;
    EpochAddrs(s.rx);
    ReturnedSlice(s.rx, ret);
    forall j | s.xmit <= j < s.xmit + Held(r.pc)
      ensures s.rx.e.hw.done[j].addr == R.DataAddr(s.rx.bufs[s.idx + j - s.xmit])
    {
      assert s.idx + j - s.xmit == j - s.rx.mark;
    }
  }

  lemma InsideSides(s: Sys, n: nat, lo: nat, hi: nat)
    requires Fits(s) && Inv(s, n, lo, hi) && s.pc.InReceive?
    ensures RxSide(InsideReceive(s), n, lo, hi) && TxSide(InsideReceive(s), n) && Tracks(InsideReceive(s))
  {
    var r := InsideReceive(s);
    R.CpuFull(s.rx) by { hide R.FullInv; }
    R.NextHarvest(s.rx, R.Cpu, lo, hi) by { hide R.FullInv, R.HarvestInv; }
    ReceiveSteps(s.rx) by { hide R.FullInv; }
    assert R.Next(s.rx, R.Cpu) == r.rx;
    DistinctAfter(r.rx.bufs, s.rx.bufs);
    hide R.FullInv, R.HarvestInv, T.Inv, R.CpuStep, R.Next, Intact, SentPrefix, SliceDelivered, Distinct;
  }

  lemma InsideInv(s: Sys, n: nat, lo: nat, hi: nat)
    requires Fits(s) && Inv(s, n, lo, hi) && s.pc.InReceive?
    ensures Inv(InsideReceive(s), n, lo, hi)
  {
    var r := InsideReceive(s);
    InsideSides(s, n, lo, hi) by { hide Inv; }
    ReceiveSteps(s.rx) by { hide R.FullInv; }
    SameAddrsKeep(s, r, lo, hi);
    if s.rx.pc.Returning? {
      assert r.rx.bufs == s.rx.bufs && |s.rx.e.ring| == n;
      hide R.HarvestInv, T.Inv, RxSide, TxSide, Intact, SentPrefix;
      SliceReturned(s, r, n, s.rx.pc.ret);
    } else {
      assert Held(r.pc) == 0 && |r.rx.bufs| == |s.rx.bufs|;
      hide R.FullInv, R.HarvestInv, T.Inv, RxSide, TxSide, Intact, SentPrefix, Tracks;
    }
  }

  lemma HoldingSides(s: Sys, n: nat, lo: nat, hi: nat)
    requires Fits(s) && 2 <= n && TxSide(s, n) && Tracks(s) && s.pc.Holding? && |s.rx.bufs| == n
    requires AllHarvested(s.rx.bufs, s.idx, s.pc.ret, lo, hi)
    ensures var r := BeginTransmit(s);
            && TxSide(r, n) && Tracks(r) && r == s.(tx := r.tx, pc := InTransmit(s.pc.ret)) && r.tx.e.hw.completed == 0
  {
    HarvestMeetsTransmit(s.rx.bufs, s.idx, s.pc.ret, lo, hi)
        by { hide AllHarvested, Tracks, TxSide, Batch, Describes, AllWellFormed, T.AllSingle; }
    BatchOut(s, n) by { hide TxSide, Tracks, Batch; }
  }

  lemma BatchOut(s: Sys, n: nat)
    requires Fits(s) && 2 <= n && TxSide(s, n) && Tracks(s) && s.pc.Holding? && s.idx + s.pc.ret <= |s.rx.bufs| == n
    requires AllWellFormed(Batch(s.rx.bufs, s.idx, s.pc.ret))
    ensures var r := BeginTransmit(s);
            && TxSide(r, n) && Tracks(r) && r == s.(tx := r.tx, pc := InTransmit(s.pc.ret)) && r.tx.e.hw.completed == 0
  {
    hide Batch, AllWellFormed, T.Inv, T.Begin;
    TransmitBegins(s.tx, Batch(s.rx.bufs, s.idx, s.pc.ret)) by { hide Tracks; }
  }

  lemma HoldingInv(s: Sys, n: nat, lo: nat, hi: nat)
    requires Fits(s) && Inv(s, n, lo, hi) && s.pc.Holding?
    ensures Inv(BeginTransmit(s), n, lo, hi)
  {
    hide RxSide, TxSide, Tracks, Intact, SentPrefix, SliceDelivered, AllHarvested, Batch, BeginTransmit;
    HoldingHeld(s, n);
    SliceSingle(s, n, lo, hi) by { hide Inv; }
    HoldingSides(s, n, lo, hi);
    HandedOver(s, BeginTransmit(s), n, lo, hi);
  }

  lemma HoldingHeld(s: Sys, n: nat)
    requires Tracks(s) && s.pc.Holding?
    ensures Held(s.pc) == s.pc.ret > 0
  {
  }

  /** What beginning a transmit call does to the engine. */
  lemma TransmitBegins(tx: T.Tx, pkts: seq<Packet>)
    requires T.Inv(tx) && tx.pc.Resting? && AllWellFormed(pkts)
    ensures var r := T.Begin(tx, pkts);
            && T.Inv(r) && r.pc == T.Waiting(|pkts|) && r.e.running && r.batch == pkts
            && |r.e.ring| == |tx.e.ring| && r.e.hw.completed == 0
  {
    T.BeginInv(tx, pkts);
    hide Program;
  }

  lemma HandedOver(s: Sys, r: Sys, n: nat, lo: nat, hi: nat)
    requires RxSide(s, n, lo, hi) && Intact(s, lo, hi) && SentPrefix(s, lo, hi) && SliceDelivered(s)
    requires s.pc.Holding? && r == s.(tx := r.tx, pc := InTransmit(s.pc.ret)) && r.tx.e.hw.completed == 0
    ensures RxSide(r, n, lo, hi) && Intact(r, lo, hi) && SentPrefix(r, lo, hi) && SliceDelivered(r)
  {
    hide R.FullInv, R.HarvestInv;
  }

  /** What a driver step inside a transmit call does to the engine. */
  lemma TransmitSteps(tx: T.Tx)
    requires T.Inv(tx) && tx.e.running
    ensures var r := T.CpuStep(tx);
            && T.Inv(r) && |r.e.ring| == |tx.e.ring| && r.e.hw.completed == tx.e.hw.completed && tx.pc.nb == |tx.batch|
            && if tx.pc.Leaving? then r.pc.Resting? && tx.e.hw.completed >= |tx.batch|
               else !r.pc.Resting? && r.e.running && r.batch == tx.batch
  {
    T.NextInv(tx, T.Cpu);
  }

  /** The receive cursor between calls. */
  lemma CursorBetweenCalls(rx: R.Rx)
    requires R.FullInv(rx) && rx.pc.Resting?
    ensures if rx.e.running then rx.e.used < |rx.e.ring| else rx.e.used == 0
  {
  }

  lemma WrapCursor(idx: nat, ret: nat, n: nat)
    requires 0 < n && idx + ret <= n
    ensures (idx + ret) % n == if idx + ret == n then 0 else idx + ret
  {
  }

  lemma TransmissionDone(s: Sys, r: Sys, n: nat, lo: nat, hi: nat)
    requires RxSide(s, n, lo, hi) && Intact(s, lo, hi) && SentPrefix(s, lo, hi) && SliceDelivered(s)
    requires s.pc.InTransmit? && s.tx.e.hw.completed >= s.pc.ret && r.idx <= n
    requires r == s.(tx := r.tx, pc := AtHead, idx := r.idx, xmit := s.xmit + s.pc.ret, xmitBatch := r.xmitBatch)
    ensures RxSide(r, n, lo, hi) && Intact(r, lo, hi) && SentPrefix(r, lo, hi) && SliceDelivered(r)
  {
    hide R.FullInv, R.HarvestInv, Distinct;
  }

  lemma TransmittingSides(s: Sys, n: nat, lo: nat, hi: nat)
    requires Fits(s) && 2 <= n && RxSide(s, n, lo, hi) && TxSide(s, n) && Tracks(s) && s.pc.InTransmit?
    ensures var r := InsideTransmit(s); RxSide(r, n, lo, hi) && TxSide(r, n) && Tracks(r)
    ensures s.tx.pc.Leaving? ==> s.tx.pc.nb == s.pc.ret && s.tx.e.hw.completed >= s.pc.ret && InsideTransmit(s).idx <= n
  {
    hide T.Inv, T.CpuStep, R.FullInv, R.HarvestInv, Distinct;
    TransmitSteps(s.tx);
    CursorBetweenCalls(s.rx);
    WrapCursor(s.idx, s.pc.ret, n);
    assert |s.tx.batch| == s.pc.ret;
    hide Batch;
  }

  lemma TransmittingInv(s: Sys, n: nat, lo: nat, hi: nat)
    requires Fits(s) && Inv(s, n, lo, hi) && s.pc.InTransmit?
    ensures Inv(InsideTransmit(s), n, lo, hi)
  {
    hide Intact, SentPrefix, SliceDelivered, RxSide, TxSide, Tracks;
    TransmittingSides(s, n, lo, hi);
    var r := InsideTransmit(s);
    if s.tx.pc.Leaving? {
      TransmissionDone(s, r, n, lo, hi);
    } else {
      StillTransmitting(s);
      QuietIntact(s, r, lo, hi);
    }
  }

  lemma StillTransmitting(s: Sys)
    requires Fits(s) && s.pc.InTransmit? && !s.tx.pc.Leaving?
    ensures var r := InsideTransmit(s); r == s.(tx := r.tx) && Left(r) == Left(s)
  {
  }

  /** The stream delivers only lengths from lo to hi. */
  predicate LengthsWithin(evs: seq<Event>, lo: nat, hi: nat) {
    forall k :: 0 <= k < |evs| && evs[k].RxHw? ==> R.TickWithin(evs[k].tick, lo, hi)
  }

  lemma NextInv(s: Sys, ev: Event, n: nat, lo: nat, hi: nat)
    requires Fits(s) && Inv(s, n, lo, hi) && (ev.RxHw? ==> R.TickWithin(ev.tick, lo, hi))
    ensures Inv(Next(s, ev), n, lo, hi)
  {
    hide Inv, RxStep, TxStep, BeginReceive, InsideReceive, BeginTransmit, InsideTransmit, R.TickWithin;
    match ev {
      case RxHw(t, payload) => RxStepInv(s, t, payload, n, lo, hi);
      case TxHw(t) => TxStepInv(s, t, n, lo, hi);
      case Cpu =>
        match s.pc {
          case AtHead => HeadInv(s, n, lo, hi);
          case InReceive => InsideInv(s, n, lo, hi);
          case Holding(_) => HoldingInv(s, n, lo, hi);
          case InTransmit(_) => TransmittingInv(s, n, lo, hi);
        }
    }
  }

  lemma {:induction false} ExecInv(s: Sys, evs: seq<Event>, n: nat, lo: nat, hi: nat)
    requires Fits(s) && Inv(s, n, lo, hi) && LengthsWithin(evs, lo, hi)
    ensures Inv(Exec(s, evs), n, lo, hi)
  {
    if evs != [] {
      hide Inv, Next, R.TickWithin;
      ExecInv(s, evs[..|evs| - 1], n, lo, hi);
      NextInv(Exec(s, evs[..|evs| - 1]), evs[|evs| - 1], n, lo, hi);
    }
  }

  // ---------------------------------------------------------------- what the forwarder achieves

  /** Some run of the forwarder from launch, over any interleaving of its three processes. */
  ghost predicate Reachable(s: Sys, n: nat, lo: nat, hi: nat) {
    exists rxBase: nat, txBase: nat, port: nat, bufs: seq<R.Mbuf>, evs: seq<Event> ::
      IsRun(s, n, lo, hi, rxBase, txBase, port, bufs, evs)
  }

  predicate IsRun(s: Sys, n: nat, lo: nat, hi: nat, rxBase: nat, txBase: nat, port: nat, bufs: seq<R.Mbuf>,
      evs: seq<Event>) {
    && Placed(rxBase, n) && Placed(txBase, n) && |bufs| == n && Distinct(bufs) && LengthsWithin(evs, lo, hi)
    && Fits(Launch(n, rxBase, txBase, port, bufs))
    && s == Exec(Launch(n, rxBase, txBase, port, bufs), evs)
  }

  lemma ReachableInv(s: Sys, n: nat, lo: nat, hi: nat)
    requires Reachable(s, n, lo, hi) && 1 <= lo <= hi <= R.BUFFER_BYTES
    ensures Fits(s) && Inv(s, n, lo, hi)
  {
    var rxBase: nat, txBase: nat, port: nat, bufs: seq<R.Mbuf>, evs: seq<Event> :|
      IsRun(s, n, lo, hi, rxBase, txBase, port, bufs, evs);
    LaunchInv(n, rxBase, txBase, port, bufs, lo, hi);
    hide Inv, Launch;
    ExecInv(Launch(n, rxBase, txBase, port, bufs), evs, n, lo, hi);
  }

  function Payloads(frames: seq<Frame>): (p: seq<int>)
    ensures |p| == |frames|
  {
    seq(|frames|, j requires 0 <= j < |frames| => frames[j].payload)
  }

  /** At every moment of every run: what has been sent is, in order and without loss or repetition, a
      prefix of what has arrived, at least all that the loop has counted as sent. */
  lemma ForwardsInOrder(s: Sys, n: nat)
    requires Reachable(s, n, 1, R.BUFFER_BYTES)
    ensures s.xmit <= |s.sent| <= |s.arrived|
    ensures Payloads(s.sent) == Payloads(s.arrived)[..|s.sent|]
  {
    hide RxSide, TxSide, Tracks, SliceDelivered, Reachable;
    ReachableInv(s, n, 1, R.BUFFER_BYTES);
  }

  /** If all packets of the stream have one length, they leave whole: frame for frame, length
      included. */
  lemma ForwardsExactly(s: Sys, n: nat, len: nat)
    requires Reachable(s, n, len, len) && 1 <= len <= R.BUFFER_BYTES
    ensures s.xmit <= |s.sent| <= |s.arrived| && s.sent == s.arrived[..|s.sent|]
  {
    hide RxSide, TxSide, Tracks, SliceDelivered, Reachable;
    ReachableInv(s, n, len, len);
  }

  /** At the head of the loop the cursor is the receive engine's own, the counters agree with each
      other, with what the receive engine handed over, and with what went out. */
  lemma CountersAgreeAtHead(s: Sys, n: nat)
    requires Reachable(s, n, 1, R.BUFFER_BYTES) && s.pc.AtHead?
    ensures s.idx == s.rx.e.used
    ensures s.xmit == s.recv == |s.rx.got| == |s.sent| && s.xmitBatch == s.recvBatch
  {
    ReachableInv(s, n, 1, R.BUFFER_BYTES);
    hide RxSide, TxSide, Intact, SliceDelivered;
  }

  // ---------------------------------------------------------------- who may touch a buffer

  /** Slot `k` is the current descriptor of a busy channel or lies ahead of it. */
  predicate Ahead(e: Engine, k: nat) {
    e.hw.busy && k < |e.ring| && e.hw.at <= SlotAddr(e.base, |e.ring|, k)
  }

  /** The receive hardware may still write buffer `i`. */
  predicate RxHolds(s: Sys, i: nat)
    requires i < |s.rx.bufs|
  {
    exists k :: 0 <= k < |s.rx.e.ring| && Ahead(s.rx.e, k) && Destination(s.rx.e.ring[k]) == R.DataAddr(s.rx.bufs[i])
  }

  /** The transmit hardware may still read buffer `i`. */
  predicate TxHolds(s: Sys, i: nat)
    requires i < |s.rx.bufs|
  {
    exists k ::
      && 0 <= k < |s.tx.e.ring| && Ahead(s.tx.e, k) && s.tx.e.ring[k].len > 0
      && Source(s.tx.e.ring[k]) == R.DataAddr(s.rx.bufs[i])
  }

  /** The application thread is about to touch buffer `i`: to rewrite it in a harvest, to hand it to
      the transmit call, or to arm it. */
  predicate AppHolds(s: Sys, i: nat) {
    match s.pc
    case AtHead => !s.rx.e.running
    case InReceive => s.rx.pc.Harvesting? && s.rx.pc.next <= i < s.rx.pc.upto
    case Holding(ret) => s.idx <= i < s.idx + ret
    case InTransmit(_) => false
  }

  lemma RxHoldsBeyond(s: Sys, n: nat, lo: nat, hi: nat, i: nat)
    requires Inv(s, n, lo, hi) && i < n && |s.rx.bufs| == n && RxHolds(s, i)
    ensures s.rx.e.running && s.rx.e.hw.completed <= i
  {
    hide TxSide, Tracks, SliceDelivered, Intact, SentPrefix, R.HarvestInv;
    var k :| 0 <= k < |s.rx.e.ring| && Ahead(s.rx.e, k) && Destination(s.rx.e.ring[k]) == R.DataAddr(s.rx.bufs[i]);
    assert Destination(s.rx.e.ring[k]) == R.DataAddr(s.rx.bufs[k]);
    assert k == i;
  }

  lemma TxHoldsInSlice(s: Sys, n: nat, lo: nat, hi: nat, i: nat)
    requires Inv(s, n, lo, hi) && i < n && |s.rx.bufs| == n && TxHolds(s, i)
    ensures s.pc.InTransmit? && s.idx <= i < s.idx + s.pc.ret
  {
    TxHoldsRuns(s, n, i);
    SliceSingle(s, n, lo, hi) by { hide Inv; }
    hide Inv, RxSide, TxSide, T.Inv, Batch, T.Taken, Accepted, Seen;
    HarvestMeetsTransmit(s.rx.bufs, s.idx, s.pc.ret, lo, hi)
        by { hide AllHarvested, Describes, AllWellFormed, T.AllSingle; }
    InSlice(s.tx.e, T.Taken(s.tx.batch, n), Accepted(s.tx.batch, n), s.rx.bufs, s.idx, s.pc.ret, i);
  }

  /** Whatever the transmit hardware may read belongs to the batch in the ring. */
  lemma {:induction false} TxHoldsRuns(s: Sys, n: nat, i: nat)
    requires TxSide(s, n) && Tracks(s) && RxBuffers(s, n) && i < |s.rx.bufs| && TxHolds(s, i)
    ensures s.pc.InTransmit? && s.tx.batch == Batch(s.rx.bufs, s.idx, s.pc.ret) && |s.tx.e.ring| == n
    ensures Seen(s.tx.e.ring, s.tx.e.base, T.Taken(s.tx.batch, n), Accepted(s.tx.batch, n))
  {
  }

  predicate RxBuffers(s: Sys, n: nat) {
    |s.rx.bufs| == n && Distinct(s.rx.bufs)
  }

  /** An address found in a loaded descriptor is that of a buffer of the slice. */
  lemma InSlice(e: Engine, items: seq<Item>, count: nat, bufs: seq<R.Mbuf>, idx: nat, ret: nat, i: nat)
    requires Seen(e.ring, e.base, items, count) && Describes(items, bufs, idx, ret) && Distinct(bufs) && i < |bufs|
    requires exists k ::
      0 <= k < |e.ring| && Ahead(e, k) && e.ring[k].len > 0 && Source(e.ring[k]) == R.DataAddr(bufs[i])
    ensures idx <= i < idx + ret
  {
    var k :| 0 <= k < |e.ring| && Ahead(e, k) && e.ring[k].len > 0 && Source(e.ring[k]) == R.DataAddr(bufs[i]);
    hide Ahead, R.DataAddr;
    assert k < ret && items[k].addr == R.DataAddr(bufs[idx + k]);
    assert idx + k == i;
  }

  /** Exclusive ownership, at every moment of every run: no buffer is in two hands among the receive
      hardware, the transmit hardware and the application thread; a buffer being transmitted lies
      below the receive completion count; and when the loop is about to arm or poll, nothing is
      being transmitted and all that was handed over has gone out. */
  lemma ExclusiveOwnership(s: Sys, n: nat, i: nat)
    requires Reachable(s, n, 1, R.BUFFER_BYTES) && i < n
    ensures |s.rx.bufs| == n
    ensures !(RxHolds(s, i) && TxHolds(s, i)) && !(RxHolds(s, i) && AppHolds(s, i))
        && !(TxHolds(s, i) && AppHolds(s, i))
    ensures TxHolds(s, i) && s.rx.e.running ==> i < s.rx.e.hw.completed
    ensures s.pc.AtHead? || s.pc.InReceive? ==> !s.tx.e.hw.busy && |s.sent| == s.recv
  {
    ReachableInv(s, n, 1, R.BUFFER_BYTES);
    assert |s.rx.bufs| == n;
    if RxHolds(s, i) {
      RxHoldsBeyond(s, n, 1, R.BUFFER_BYTES, i) by { hide Inv; }
    }
    if TxHolds(s, i) {
      TxHoldsInSlice(s, n, 1, R.BUFFER_BYTES, i) by { hide Inv; }
    }
    BelowCompletion(s, n, 1, R.BUFFER_BYTES) by { hide Inv; }
    hide RxHolds, TxHolds, RxSide, TxSide, SliceDelivered, Intact, R.FullInv, Inv;
  }

  /** What the application thread holds or has handed over lies below the completion count. */
  lemma BelowCompletion(s: Sys, n: nat, lo: nat, hi: nat)
    requires Inv(s, n, lo, hi)
    ensures s.rx.e.running && Held(s.pc) > 0 ==> s.idx + Held(s.pc) <= s.rx.e.hw.completed
    ensures s.rx.pc.Harvesting? ==> s.rx.e.running && s.rx.pc.upto <= s.rx.e.hw.completed
    ensures s.pc.AtHead? || s.pc.InReceive? ==> !s.tx.e.hw.busy && |s.sent| == s.recv
  {
    hide R.HarvestInv, SliceDelivered, Intact;
  }
}
