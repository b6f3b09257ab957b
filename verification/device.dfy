/** The driver's objects, updated in place: the configuration BAR, packet buffers, and engines. Each
    routine is proved to do what the specification functions of the other modules say. */
module Device {
  import opened Words
  import opened Rings
  import opened Engines
  import opened Transmit
  import Registers
  import R = Receiving

  /** A packet buffer and its metadata. */
  class Mbuf {
    const iova: nat
    var off: nat
    var dataLen: nat
    var pktLen: nat
    var nbSegs: nat
    var next: Mbuf?
    var packetType: nat
    var olFlags: nat
    var port: nat
    var vlanTci: nat
    var rss: nat

    constructor (iova: nat, off: nat)
      ensures this.iova == iova && this.off == off && nbSegs == 1 && next == null
    {
      this.iova, this.off, nbSegs, next := iova, off, 1, null;
      dataLen, pktLen, packetType, olFlags, port, vlanTci, rss := 0, 0, 0, 0, 0, 0, 0;
    }
  }

  /** The first `n` segments of a chain, as far as it runs inside `world`. */
  ghost function Chain(m: Mbuf?, n: nat, world: set<Mbuf>): seq<Segment>
    reads world
  {
    if n == 0 || m == null || m !in world then []
    else [Segment(m.iova, m.off, m.dataLen)] + Chain(m.next, n - 1, world)
  }

  /** The first `n` segments of the chain lie inside `world`. */
  ghost predicate Within(m: Mbuf?, n: nat, world: set<Mbuf>)
    reads world
  {
    n == 0 || m == null || (m in world && Within(m.next, n - 1, world))
  }

  /** The packet that starts at `m`. */
  ghost function PacketAt(m: Mbuf, world: set<Mbuf>): Packet
    reads m, world
  {
    Packet(m.nbSegs, Chain(m, m.nbSegs, world))
  }

  /** A buffer as a receive sees it, when what follows it in its chain lies in `world`. */
  ghost function BufferAt(m: Mbuf, world: set<Mbuf>): R.Mbuf
    reads m, world
  {
    R.Mbuf(m.iova, m.off, m.dataLen, m.pktLen, m.nbSegs, Chain(m.next, |world|, world),
           m.packetType, m.olFlags, m.port, m.vlanTci, m.rss)
  }

  /** The registers, and the history of writes to them. */
  class Bar {
    var regs: map<nat, nat>
    ghost var trace: seq<Registers.Write>

    constructor ()
      ensures Valid() && trace == []
    {
      regs, trace := map[], [];
    }

    function Read(addr: nat): nat
      reads this
    {
      if addr in regs then regs[addr] else 0
    }

    ghost predicate Valid()
      reads this
    {
      forall addr: nat :: Read(addr) == Registers.Value(trace, addr, 0)
    }

    method RegWrite(c: Registers.Chan, role: Registers.Role, value: nat)
      requires Valid()
      modifies this
      ensures Valid() && trace == old(trace) + [Registers.Write(c, role, value)]
    {
      regs := regs[Registers.Reg(c, role) := value];
      trace := trace + [Registers.Write(c, role, value)];
      forall addr: nat
        ensures Read(addr) == Registers.Value(trace, addr, 0)
      {
        Registers.ValueLast(old(trace), Registers.Write(c, role, value), addr, 0);
      }
    }
  }

  /** A descriptor as it lies in memory, with its 32-bit control word. */
  datatype RawDesc = RawDesc(control: bv32, len: nat, srcLo: nat, srcHi: nat, dstLo: nat, dstHi: nat,
                             nextLo: nat, nextHi: nat)

  function Cooked(d: RawDesc): Desc {
    Desc(Words.Read(d.control), d.len, d.srcLo, d.srcHi, d.dstLo, d.dstHi, d.nextLo, d.nextHi)
  }

  /** The hardware running alone for a while. */
  function Run(e: Engine, ticks: seq<Tick>): Engine {
    if ticks == [] then e else Step(Run(e, ticks[..|ticks| - 1]), ticks[|ticks| - 1])
  }

  /** The same for a number of such whiles. */
  function Runs(e: Engine, env: nat -> seq<Tick>, k: nat): Engine {
    if k == 0 then e else Run(Runs(e, env, k - 1), env(k - 1))
  }

  /** One engine. The memory it shares with the hardware, and the hardware channel itself, are
      fields too: `Hardware` is the other process. */
  class XdmaEngine {
    const dir: Dir
    const chan: Registers.Chan
    const bar: Bar
    const virt: nat
    const virt2phy: int
    const ring: array<RawDesc>
    const portId: nat
    var used: nat
    var running: bool
    var status: nat
    var wb: nat
    var wbLen: nat
    var hw: Channel

    ghost predicate Valid()
      reads this, ring
    {
      && virt + virt2phy >= 0 && Placed(virt + virt2phy, ring.Length) && used <= ring.Length
      && chan.dir == dir && Registers.Valid(chan)
    }

    /** The ring as the other modules see it: the control words read out. */
    function Descs(): (ds: seq<Desc>)
      reads ring
      ensures |ds| == ring.Length && forall k :: 0 <= k < ring.Length ==> ds[k] == Cooked(ring[k])
    {
      seq(ring.Length, k requires 0 <= k < ring.Length reads ring => Cooked(ring[k]))
    }

    function State(): Engine
      requires virt + virt2phy >= 0
      reads this, ring
    {
      Engines.Engine(dir, virt + virt2phy, Descs(), used, running, wb, wbLen, hw)
    }

    /** Setup: everything zero but the descriptor ring, which is initialised. The port of a fresh
        engine is zero, and nothing ever changes it. */
    constructor (dir: Dir, number: nat, bar: Bar, virt: nat, virt2phy: int, n: nat)
      requires virt + virt2phy >= 0 && Placed(virt + virt2phy, n) && number < 4
      ensures Valid() && fresh(ring) && ring.Length == n && this.bar == bar && chan.number == number && portId == 0
      ensures State() == Engines.Setup(dir, n, virt + virt2phy)
    {
      this.dir, this.chan, this.bar, this.virt, this.virt2phy := dir, Registers.Chan(dir, number), bar, virt, virt2phy;
      this.ring := new RawDesc[n](_ => RawDesc(0, 0, 0, 0, 0, 0, 0, 0));
      portId, used, running, status, wb, wbLen, hw := 0, 0, false, 0, 0, 0, Channel(false, 0, 0, [], 0);
      new;
      RingInit();
    }

    method RingInit()
      requires virt + virt2phy >= 0
      modifies ring
      ensures Descs() == InitRing(ring.Length, virt + virt2phy)
    {
      for i := 0 to ring.Length
        invariant forall k :: 0 <= k < i ==> Cooked(ring[k]) == InitDesc(k, ring.Length, virt + virt2phy)
      {
        var control: bv32 := 0xAD4B_0000;
        var nextAddr: nat := 0;
        if i == ring.Length - 1 {
          control := 0xAD4B_0013;
        } else {
          nextAddr := virt + DESC_BYTES * (i + 1) + virt2phy;
        }
        ring[i] := RawDesc(control, 0, 0, 0, 0, 0, Lo(nextAddr), Hi(nextAddr));
      }
    }

    method RingClear()
      modifies ring
      ensures Descs() == ClearRing(dir, old(Descs()))
    {
      for i := 0 to ring.Length
        invariant forall k :: 0 <= k < i ==> Cooked(ring[k]) == ClearDesc(dir, Cooked(old(ring[k])))
        invariant forall k :: i <= k < ring.Length ==> ring[k] == old(ring[k])
      {
        var d := ring[i].(len := 0, dstHi := 0, dstLo := 0, srcHi := 0, srcLo := 0);
        if dir == H2C {
          d := d.(control := 0xAD4B_0000);
        }
        ring[i] := d;
      }
    }

    method GetDesc() returns (id: nat)
      requires used < ring.Length
      modifies this`used
      ensures id == old(used) && used == NextSlot(old(used), ring.Length)
    {
      id := used;
      used := (id + 1) % ring.Length;
    }

    /** The or-assignment to the control word of descriptor `i`. */
    method ControlSet(i: nat, field: bv32)
      requires i < ring.Length && field <= 0xFF
      modifies ring
      ensures ring[..] == old(ring[..])[i := old(ring[i]).(control := WordSetFlags(old(ring[i]).control, field))]
      ensures var d := old(Descs()[i]);
              Descs() == old(Descs())[i := d.(control := SetFlags(d.control, field))]
    {
      hide WordSetFlags, Words.Read;
      ReadOfFlagSet(ring[i].control, field);
      ring[i] := ring[i].(control := WordSetFlags(ring[i].control, field));
    }

    /** The field has six bits: a larger count would spill over. */
    method AdjacentSet(i: nat, nxtAdj: nat)
      requires i < ring.Length && nxtAdj < 64
      modifies ring
      ensures var word := WordSetAdjacent(old(ring[i]).control, Bits(nxtAdj));
              ring[..] == old(ring[..])[i := old(ring[i]).(control := word)]
      ensures var d := old(Descs()[i]);
              Descs() == old(Descs())[i := d.(control := SetAdjacent(d.control, nxtAdj))]
    {
      hide WordSetAdjacent, Words.Read, Bits;
      ReadOfAdjacentSet(ring[i].control, nxtAdj);
      ring[i] := ring[i].(control := WordSetAdjacent(ring[i].control, Bits(nxtAdj)));
    }

    /** One round of the walk below: the descriptor of one segment, `left` segments after it. */
    method SegmentSet(m: Mbuf, left: nat)
      requires used < ring.Length
      modifies this`used, ring
      ensures var item := Item((m.iova + m.off) % TWO64, m.dataLen, left == 0);
              Descs() == old(Descs())[old(used) := Write(old(Descs()[used]), item)]
      ensures used == NextSlot(old(used), ring.Length)
    {
      var id := GetDesc();
      var addr := (m.iova + m.off) % TWO64;
      ring[id] := ring[id].(len := m.dataLen, srcLo := Lo(addr), srcHi := Hi(addr));
      if left == 0 {
        ControlSet(id, EOP | COMPLETED);
      }
    }

    /** One descriptor per segment of a chain. */
    method H2cDescSet(mb: Mbuf, ghost world: set<Mbuf>)
      requires used < ring.Length && mb in world && Within(mb, mb.nbSegs, world)
      modifies this`used, ring
      ensures used < ring.Length
      ensures (Descs(), used) == Fill(old(Descs()), old(used), Items(PacketAt(mb, world)))
    {
      hide Fill, Rest, Write, Lo, Hi, NextSlot;
      ghost var items := Rest(mb, mb.nbSegs, world);
      ghost var before, u := Descs(), used;
      RestItems(mb, world);
      var nsegs := mb.nbSegs;
      var m: Mbuf? := mb;
      ghost var k := 0;
      FillNone(before, u);
      assert items[..0] == [];
      while nsegs != 0 && m != null
        invariant used < ring.Length && k <= |items|
        invariant Within(m, nsegs, world)
        invariant Rest(m, nsegs, world) == items[k..]
        invariant (Descs(), used) == Fill(before, u, items[..k])
        decreases nsegs
      {
        RestFirst(m, nsegs, world);
        FillNext(before, u, items, k);
        SegmentSet(m, nsegs - 1);
        nsegs := nsegs - 1;
        m := m.next;
        k := k + 1;
      }
      RestNone(m, nsegs, world);
      assert items[..k] == items;
    }

    method C2hDescSet(mb: Mbuf)
      requires Valid() && used < ring.Length
      modifies this`used, ring
      ensures used == NextSlot(old(used), ring.Length)
      ensures
        var armed := R.ArmDesc(old(Descs()[used]), BufferAt(mb, {}), StreamSlot(virt + virt2phy, ring.Length));
        Descs() == old(Descs())[old(used) := armed]
    {
      var id := GetDesc();
      var dst := (mb.iova + mb.off) % TWO64;
      var src := (virt + 64 * ring.Length + 32 + virt2phy) % TWO64;
      ring[id] := ring[id].(dstLo := Lo(dst), dstHi := Hi(dst), srcLo := Lo(src), srcHi := Hi(src), len := 64);
      ControlSet(id, COMPLETED);
    }

    function Reg(role: Registers.Role): nat {
      Registers.Reg(chan, role)
    }

    /** The 64-bit address in a pair of registers. */
    function RegPair(lo: Registers.Role, hi: Registers.Role): nat
      reads bar
    {
      Join(bar.Read(Reg(lo)), bar.Read(Reg(hi)))
    }

    /** The hardware side of a control-register write: RUN going up makes the channel fetch from the
        address it finds in its registers, and report where they say if poll mode is on; RUN going down
        halts it. */
    method Doorbell()
      modifies this`hw
      ensures hw == ChannelAfter(bar.Read(Reg(Registers.Ctrl)), RegPair(Registers.DescLo, Registers.DescHi),
                                 RegPair(Registers.WbLo, Registers.WbHi), old(hw))
    {
      var ctrl := bar.Read(Reg(Registers.Ctrl));
      var first := RegPair(Registers.DescLo, Registers.DescHi);
      hw := ChannelAfter(ctrl, first, RegPair(Registers.WbLo, Registers.WbHi), hw);
    }

    /** `first` is the virtual address of the first descriptor. */
    method TxEngineStart(first: nat, adj: int)
      requires Valid() && bar.Valid() && dir == H2C && !hw.busy && 0 <= first + virt2phy < TWO64
      modifies this`running, this`hw, bar
      ensures bar.Valid() && Valid()
      ensures bar.trace == old(bar.trace) + Registers.Writes(chan,
          Registers.StartOp(first + virt2phy, virt + DESC_BYTES * ring.Length + virt2phy, adj))
      ensures State() == old(State()).(running := true, hw := Channel(true, first + virt2phy, 0, old(hw).done,
          virt + 32 * ring.Length + virt2phy))
    {
      hide Registers.Value, Lo, Hi, Join, ChannelAfter, Descs, Registers.PollMode;
      ghost var before := bar.trace;
      running := true;
      var phys := first + virt2phy;
      var wbAddr := virt + DESC_BYTES * ring.Length + virt2phy;
      bar.RegWrite(chan, Registers.DescLo, Lo(phys));
      bar.RegWrite(chan, Registers.DescHi, Hi(phys));
      bar.RegWrite(chan, Registers.Adjacent, if adj > 0 then adj else 0);
      bar.RegWrite(chan, Registers.WbLo, Lo(wbAddr));
      bar.RegWrite(chan, Registers.WbHi, Hi(wbAddr));
      bar.RegWrite(chan, Registers.Ctrl, Registers.RUN + Registers.ENABLES);
      StartSeen(before, chan, Registers.StartOp(phys, wbAddr, adj), bar);
      Doorbell();
    }

    method RxEngineStart(first: nat)
      requires Valid() && bar.Valid() && dir == C2H && !hw.busy && 0 <= first + virt2phy < TWO64
      modifies this`running, this`hw, bar
      ensures bar.Valid() && Valid()
      ensures bar.trace == old(bar.trace) + Registers.Writes(chan,
          Registers.StartOp(first + virt2phy, virt + DESC_BYTES * ring.Length + virt2phy, 0))
      ensures State() == old(State()).(running := true, hw := Channel(true, first + virt2phy, 0, old(hw).done,
          virt + 32 * ring.Length + virt2phy))
    {
      hide Registers.Value, Lo, Hi, Join, ChannelAfter, Descs, Registers.PollMode;
      ghost var before := bar.trace;
      running := true;
      var phys := first + virt2phy;
      var wbAddr := virt + DESC_BYTES * ring.Length + virt2phy;
      bar.RegWrite(chan, Registers.DescLo, Lo(phys));
      bar.RegWrite(chan, Registers.DescHi, Hi(phys));
      bar.RegWrite(chan, Registers.WbLo, Lo(wbAddr));
      bar.RegWrite(chan, Registers.WbHi, Hi(wbAddr));
      bar.RegWrite(chan, Registers.Ctrl, Registers.RUN + Registers.ENABLES);
      StartSeen(before, chan, Registers.StartOp(phys, wbAddr, 0), bar);
      Doorbell();
    }

    /** Both stop routines: they differ only in the order of the last assignments. Since RUN goes down
        first, nothing the hardware might do meanwhile shows. */
    method EngineStop(meanwhile: seq<Tick>)
      requires Valid() && bar.Valid()
      modifies this`running, this`used, this`wb, this`wbLen, this`hw, ring, bar
      ensures bar.Valid() && Valid()
      ensures bar.trace == old(bar.trace) + Registers.Writes(chan, Registers.StopOp)
      ensures State() == Stop(old(State()))
    {
      ghost var before := bar.trace;
      bar.RegWrite(chan, Registers.Ctrl, Registers.ENABLES);
      Registers.ValueLast(before, Registers.Write(chan, Registers.Ctrl, Registers.ENABLES), Reg(Registers.Ctrl), 0);
      assert bar.Read(Reg(Registers.Ctrl)) == Registers.ENABLES;
      Doorbell();
      hide Registers.Value, ClearRing;
      Halted(meanwhile);
      RingClear();
      Halted(meanwhile);
      running := false;
      used := 0;
      wb := 0;
      Halted(meanwhile);
    }

    /** A halted channel changes nothing. */
    method Halted(ticks: seq<Tick>)
      requires Valid() && !hw.busy
      modifies this`wb, this`wbLen, this`hw
      ensures Valid() && wb == old(wb) && wbLen == old(wbLen) && hw == old(hw)
    {
      RunHalted(State(), ticks);
      Hardware(ticks);
    }

    /** The other process: whatever the hardware does between two steps of the driver. */
    method Hardware(ticks: seq<Tick>)
      requires Valid()
      modifies this`wb, this`wbLen, this`hw
      ensures Valid() && State() == Run(old(State()), ticks)
    {
      ghost var before := State();
      for i := 0 to |ticks|
        invariant State() == Run(before, ticks[..i])
      {
        var e := Step(State(), ticks[i]);
        StepFrame(State(), ticks[i]);
        wb, wbLen, hw := e.wb, e.wbLen, e.hw;
        assert ticks[..i + 1][..i] == ticks[..i];
      }
      assert ticks[..|ticks|] == ticks;
    }
  }

  lemma BaseBelow(engine: XdmaEngine)
    requires engine.Valid()
    ensures 0 <= engine.virt + engine.virt2phy < TWO64
  {
  }

  /** What a start of the whole ring writes to the registers. */
  function StartWrites(engine: XdmaEngine, adj: int): seq<Registers.Write>
    requires engine.virt + engine.virt2phy >= 0
  {
    var base := engine.virt + engine.virt2phy;
    Registers.Writes(engine.chan, Registers.StartOp(base, base + DESC_BYTES * engine.ring.Length, adj))
  }

  lemma {:induction false} RunLast(e: Engine, ticks: seq<Tick>)
    ensures Run(e, ticks) == if ticks == [] then e else Step(Run(e, ticks[..|ticks| - 1]), ticks[|ticks| - 1])
  {
  }

  lemma {:induction false} RunHalted(e: Engine, ticks: seq<Tick>)
    requires !e.hw.busy
    ensures Run(e, ticks) == e
  {
    if ticks != [] {
      RunHalted(e, ticks[..|ticks| - 1]);
    }
  }

  lemma StepFrame(e: Engine, t: Tick)
    ensures Step(e, t) == e.(wb := Step(e, t).wb, wbLen := Step(e, t).wbLen, hw := Step(e, t).hw)
  {
  }

  function ChannelAfter(ctrl: nat, first: nat, wbAddr: nat, hw: Channel): Channel {
    if ctrl % 2 == 0 then hw.(busy := false)
    else if hw.busy then hw
    else Channel(true, first, 0, hw.done, if Registers.PollMode(ctrl) then wbAddr else 0)
  }

  /** What a channel finds in its registers when RUN goes up. */
  lemma StartSeen(before: seq<Registers.Write>, c: Registers.Chan, op: Registers.Op, bar: Bar)
    requires Registers.Valid(c) && op.StartOp? && op.first < TWO64 && op.wb < TWO64
    requires bar.Valid() && bar.trace == before + Registers.Writes(c, op)
    ensures forall hw: Channel :: !hw.busy ==>
      ChannelAfter(bar.Read(Registers.Reg(c, Registers.Ctrl)),
                   Join(bar.Read(Registers.Reg(c, Registers.DescLo)), bar.Read(Registers.Reg(c, Registers.DescHi))),
                   Join(bar.Read(Registers.Reg(c, Registers.WbLo)), bar.Read(Registers.Reg(c, Registers.WbHi))), hw)
        == Channel(true, op.first, 0, hw.done, op.wb)
  {
    var ws := Registers.Writes(c, op);
    var last := ws[|ws| - 1];
    var prior := before + ws[..|ws| - 1];
    assert bar.trace == prior + [last];
    Registers.StartReadies(before, c, op, 0);
    Registers.ValueLast(prior, last, Registers.Reg(c, Registers.Ctrl), 0);
    Registers.ValueLast(prior, last, Registers.Reg(c, Registers.DescLo), 0);
    Registers.ValueLast(prior, last, Registers.Reg(c, Registers.DescHi), 0);
    Registers.ValueLast(prior, last, Registers.Reg(c, Registers.WbLo), 0);
    Registers.ValueLast(prior, last, Registers.Reg(c, Registers.WbHi), 0);
    SplitJoin(op.first);
    SplitJoin(op.wb);
  }

  /** The descriptors that are still to be made of a chain. */
  ghost function Rest(m: Mbuf?, n: nat, world: set<Mbuf>): seq<Item>
    reads world
  {
    if n == 0 || m == null || m !in world then []
    else [Item((m.iova + m.off) % TWO64, m.dataLen, n == 1)] + Rest(m.next, n - 1, world)
  }

  lemma RestFirst(m: Mbuf, n: nat, world: set<Mbuf>)
    requires n > 0 && m in world
    ensures Rest(m, n, world) == [Item((m.iova + m.off) % TWO64, m.dataLen, n == 1)] + Rest(m.next, n - 1, world)
  {
  }

  lemma {:induction false} RestNone(m: Mbuf?, n: nat, world: set<Mbuf>)
    requires n == 0 || m == null
    ensures Rest(m, n, world) == []
  {
  }

  lemma {:induction false} FillNone(ring: seq<Desc>, used: nat)
    requires used < |ring|
    ensures Fill(ring, used, []) == (ring, used)
  {
  }

  lemma {:induction false} RestChain(m: Mbuf?, n: nat, world: set<Mbuf>)
    ensures |Chain(m, n, world)| == |Rest(m, n, world)| <= n
    ensures forall j :: 0 <= j < |Rest(m, n, world)| ==>
      Rest(m, n, world)[j] == Item(BusAddr(Chain(m, n, world)[j]), Chain(m, n, world)[j].len, j + 1 == n)
  {
    if n > 0 && m != null && m in world {
      RestChain(m.next, n - 1, world);
    }
  }

  lemma {:induction false} RestItems(m: Mbuf, world: set<Mbuf>)
    requires m in world
    ensures Rest(m, m.nbSegs, world) == Items(PacketAt(m, world))
  {
    RestChain(m, m.nbSegs, world);
  }

  lemma {:induction false} FillNext(ring: seq<Desc>, used: nat, items: seq<Item>, k: nat)
    requires used < |ring| && k < |items|
    ensures var (r, u) := Fill(ring, used, items[..k]);
            Fill(ring, used, items[..k + 1]) == (r[u := Write(r[u], items[k])], NextSlot(u, |ring|))
  {
    assert items[..k + 1][..k] == items[..k];
  }
}
