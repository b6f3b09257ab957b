/** The channel registers in the configuration BAR, as the start and stop routines write them. */
module Registers {
  import opened Rings

  const H2C_CTRL: nat := 0x0004
  const H2C_WB_LO: nat := 0x0088
  const H2C_WB_HI: nat := 0x008c
  const C2H_CTRL: nat := 0x1004
  const C2H_WB_LO: nat := 0x1088
  const C2H_WB_HI: nat := 0x108c
  const H2C_DESC_LO: nat := 0x4080
  const H2C_DESC_HI: nat := 0x4084
  const H2C_DESC_ADJ: nat := 0x4088
  const C2H_DESC_LO: nat := 0x5080
  const C2H_DESC_HI: nat := 0x5084

  const RUN: nat := 1
  /** The interrupt enables and the poll-mode bit that both routines write with or without RUN. */
  const ENABLES: nat := 0x02 + 0x04 + 0x08 + 0x10 + 0x3E00 + 0xF8_0000 + 0x400_0000

  /** Bit 26 makes a channel write its count back to the address it finds in its registers. */
  predicate PollMode(ctrl: nat) {
    ctrl / 0x400_0000 % 2 == 1
  }

  /** The control word that raises RUN, bit for bit. */
  lemma ControlWord()
    ensures RUN + ENABLES == 0x4F8_3E1F && ENABLES == 0x4F8_3E1E && PollMode(RUN + ENABLES)
  {
  }

  /** One hardware channel: a direction and a two-bit number. */
  datatype Chan = Chan(dir: Dir, number: nat)

  predicate Valid(c: Chan) {
    c.number < 4
  }

  /** The registers of a channel, by role. `Adjacent` exists for the transmit direction only. */
  datatype Role = Ctrl | WbLo | WbHi | DescLo | DescHi | Adjacent

  function Base(dir: Dir, role: Role): nat {
    match (dir, role)
    case (H2C, Ctrl) => H2C_CTRL
    case (H2C, WbLo) => H2C_WB_LO
    case (H2C, WbHi) => H2C_WB_HI
    case (H2C, DescLo) => H2C_DESC_LO
    case (H2C, DescHi) => H2C_DESC_HI
    case (_, Adjacent) => H2C_DESC_ADJ
    case (C2H, Ctrl) => C2H_CTRL
    case (C2H, WbLo) => C2H_WB_LO
    case (C2H, WbHi) => C2H_WB_HI
    case (C2H, DescLo) => C2H_DESC_LO
    case (C2H, DescHi) => C2H_DESC_HI
  }

  predicate Has(dir: Dir, role: Role) {
    role.Adjacent? ==> dir == H2C
  }

  function Reg(c: Chan, role: Role): nat {
    Base(c.dir, role) + c.number * 0x100
  }

  /** Which block of registers a role belongs to: the channel's own or its scatter-gather engine's. */
  predicate SgDma(role: Role) {
    role.DescLo? || role.DescHi? || role.Adjacent?
  }

  /** The 32-bit words before the register in its block. */
  function WordsBefore(role: Role): nat {
    match role
    case Ctrl => 1
    case WbLo => 4 + 12 + 4 + 14
    case WbHi => 4 + 12 + 4 + 14 + 1
    case DescLo => 1 + 31
    case DescHi => 1 + 31 + 1
    case Adjacent => 1 + 31 + 2
  }

  /** The offsets that the driver computes are those of the register blocks: a 4 KB target for each
      direction and kind of block, 256 bytes for each channel in it, and the field's place in the block. */
  lemma LayoutAgrees(c: Chan, role: Role)
    requires Valid(c) && Has(c.dir, role)
    ensures Reg(c, role) == (if c.dir == H2C then 0 else 0x1000) + (if SgDma(role) then 0x4000 else 0) +
                            0x100 * c.number + 4 * WordsBefore(role)
  {
  }

  /** No register serves two channels or two roles. */
  lemma RegistersApart(c: Chan, role: Role, d: Chan, other: Role)
    requires Valid(c) && Valid(d) && Has(c.dir, role) && Has(d.dir, other)
    ensures Reg(c, role) == Reg(d, other) ==> c == d && role == other
  {
    assert Base(c.dir, role) % 0x100 != Base(d.dir, other) % 0x100
        || Base(c.dir, role) / 0x1000 != Base(d.dir, other) / 0x1000 || (c.dir == d.dir && role == other);
  }

  /** One register write, by whom and in what role. */
  datatype Write = Write(chan: Chan, role: Role, value: nat)

  predicate Legal(w: Write) {
    Valid(w.chan) && Has(w.chan.dir, w.role)
  }

  /** What the register at `addr` holds after the writes. */
  function Value(trace: seq<Write>, addr: nat, initial: nat): nat {
    if trace == [] then initial else
      var last := trace[|trace| - 1];
      if Reg(last.chan, last.role) == addr then last.value else Value(trace[..|trace| - 1], addr, initial)
  }

  /** The writes of one channel, in order. */
  function Own(trace: seq<Write>, c: Chan): seq<Write> {
    if trace == [] then [] else
      var last := trace[|trace| - 1];
      if last.chan == c then Own(trace[..|trace| - 1], c) + [last] else Own(trace[..|trace| - 1], c)
  }

  /** Non-interference: in any interleaving of writes of all channels, a channel's registers hold
      what that channel's own writes alone would leave there. */
  lemma {:induction false} ChannelsIndependent(trace: seq<Write>, c: Chan, role: Role, initial: nat)
    requires forall k :: 0 <= k < |trace| ==> Legal(trace[k])
    requires Valid(c) && Has(c.dir, role)
    ensures Value(trace, Reg(c, role), initial) == Value(Own(trace, c), Reg(c, role), initial)
  {
    if trace != [] {
      var init, last := trace[..|trace| - 1], trace[|trace| - 1];
      assert Legal(last);
      ChannelsIndependent(init, c, role, initial);
      RegistersApart(last.chan, last.role, c, role);
      if last.chan == c {
        assert Own(trace, c)[..|Own(trace, c)| - 1] == Own(init, c);
      }
    }
  }

  /** A start with its first descriptor, writeback address and adjacency argument; or a stop. */
  datatype Op = StartOp(first: nat, wb: nat, adj: int) | StopOp

  /** What the start and stop routines write, in the order they write it. */
  function Writes(c: Chan, op: Op): seq<Write> {
    match op
    case StartOp(first, wb, adj) =>
      [Write(c, DescLo, Lo(first)), Write(c, DescHi, Hi(first))] +
      (if c.dir == H2C then [Write(c, Adjacent, if adj > 0 then adj else 0)] else []) +
      [Write(c, WbLo, Lo(wb)), Write(c, WbHi, Hi(wb)), Write(c, Ctrl, RUN + ENABLES)]
    case StopOp => [Write(c, Ctrl, ENABLES)]
  }

  /** The writes of a whole life of one engine. */
  function Life(c: Chan, ops: seq<Op>): seq<Write> {
    if ops == [] then [] else Life(c, ops[..|ops| - 1]) + Writes(c, ops[|ops| - 1])
  }

  /** The registers a start must have set by the time RUN goes up. */
  predicate Ready(trace: seq<Write>, c: Chan, op: Op, initial: nat) {
    && op.StartOp?
    && Value(trace, Reg(c, DescLo), initial) == Lo(op.first) && Value(trace, Reg(c, DescHi), initial) == Hi(op.first)
    && Value(trace, Reg(c, WbLo), initial) == Lo(op.wb) && Value(trace, Reg(c, WbHi), initial) == Hi(op.wb)
    && (c.dir == H2C ==> Value(trace, Reg(c, Adjacent), initial) == if op.adj > 0 then op.adj else 0)
  }

  lemma {:induction false} ValueLast(trace: seq<Write>, w: Write, addr: nat, initial: nat)
    ensures Value(trace + [w], addr, initial) ==
      if Reg(w.chan, w.role) == addr then w.value else Value(trace, addr, initial)
  {
    assert (trace + [w])[..|trace|] == trace;
  }

  /** After all writes of a start but the last, everything the start programs is in place. */
  lemma StartReadies(before: seq<Write>, c: Chan, op: Op, initial: nat)
    requires Valid(c) && op.StartOp?
    ensures var ws := Writes(c, op); Ready(before + ws[..|ws| - 1], c, op, initial)
  {
    var lo, hi := Write(c, DescLo, Lo(op.first)), Write(c, DescHi, Hi(op.first));
    var adj := Write(c, Adjacent, if op.adj > 0 then op.adj else 0);
    var wlo, whi := Write(c, WbLo, Lo(op.wb)), Write(c, WbHi, Hi(op.wb));
    var t2 := before + [lo] + [hi];
    var t3 := if c.dir == H2C then t2 + [adj] else t2;
    var t5 := t3 + [wlo] + [whi];
    var ws := Writes(c, op);
    assert t5 == before + ws[..|ws| - 1];
    forall addr: nat
      ensures Value(t5, addr, initial) ==
        if addr == Reg(c, WbHi) then whi.value else if addr == Reg(c, WbLo) then wlo.value
        else if c.dir == H2C && addr == Reg(c, Adjacent) then adj.value
        else if addr == Reg(c, DescHi) then hi.value else if addr == Reg(c, DescLo) then lo.value
        else Value(before, addr, initial)
    {
      ValueLast(t3 + [wlo], whi, addr, initial);
      ValueLast(t3, wlo, addr, initial);
      ValueLast(t2, adj, addr, initial);
      ValueLast(before + [lo], hi, addr, initial);
      ValueLast(before, lo, addr, initial);
    }
  }

  predicate RaisesRun(w: Write, c: Chan) {
    w.chan == c && w.role == Ctrl && w.value % 2 == 1
  }

  /** A life cut just after a write that raises RUN ends with a whole start. */
  lemma {:induction false} RunEndsStart(c: Chan, ops: seq<Op>, own: seq<Write>) returns (k: nat)
    requires own <= Life(c, ops) && own != [] && RaisesRun(own[|own| - 1], c)
    ensures k < |ops| && ops[k].StartOp? && own == Life(c, ops[..k]) + Writes(c, ops[k])
    ensures PollMode(own[|own| - 1].value)
  {
    var init, last := ops[..|ops| - 1], ops[|ops| - 1];
    var before := Life(c, init);
    if |own| <= |before| {
      assert own <= before;
      k := RunEndsStart(c, init, own);
      assert init[..k] == ops[..k];
    } else {
      var ws := Writes(c, last);
      var j := |own| - |before| - 1;
      assert own[|own| - 1] == ws[j];
      assert j == |ws| - 1;
      k := |ops| - 1;
      assert own == before + ws;
    }
  }

  lemma {:induction false} ReadyFromOwn(trace: seq<Write>, c: Chan, op: Op, initial: nat)
    requires (forall k :: 0 <= k < |trace| ==> Legal(trace[k])) && Valid(c) && Ready(Own(trace, c), c, op, initial)
    ensures Ready(trace, c, op, initial)
  {
    ChannelsIndependent(trace, c, DescLo, initial);
    ChannelsIndependent(trace, c, DescHi, initial);
    ChannelsIndependent(trace, c, WbLo, initial);
    ChannelsIndependent(trace, c, WbHi, initial);
    if c.dir == H2C {
      ChannelsIndependent(trace, c, Adjacent, initial);
    }
    hide Value, Reg, Own;
  }

  lemma {:induction false} OwnLast(trace: seq<Write>, c: Chan)
    requires trace != [] && trace[|trace| - 1].chan == c
    ensures Own(trace, c) == Own(trace[..|trace| - 1], c) + [trace[|trace| - 1]]
  {
  }

  /** The registers just before the last write of a channel's `before + start`. */
  lemma {:induction false} ReadyBefore(trace: seq<Write>, c: Chan, before: seq<Write>, op: Op, initial: nat)
    requires (forall k :: 0 <= k < |trace| ==> Legal(trace[k])) && Valid(c) && op.StartOp?
    requires trace != [] && trace[|trace| - 1].chan == c && Own(trace, c) == before + Writes(c, op)
    ensures Ready(trace[..|trace| - 1], c, op, initial)
  {
    var init, ws := trace[..|trace| - 1], Writes(c, op);
    OwnLast(trace, c);
    assert Own(init, c) == (before + ws)[..|before + ws| - 1] == before + ws[..|ws| - 1];
    StartReadies(before, c, op, initial);
    hide Ready, Writes;
    ReadyFromOwn(init, c, op, initial);
  }

  /** The start that trace `trace`, up to the write that raises RUN, has just completed. */
  predicate Completes(trace: seq<Write>, c: Chan, ops: seq<Op>, k: nat) {
    k < |ops| && ops[k].StartOp? && Own(trace, c) == Life(c, ops[..k]) + Writes(c, ops[k])
  }

  /** At every RUN edge of every interleaving: if the channel's own writes so far are the beginning
      of some life of its engine, then the write that raises RUN belongs to a start, and at that
      moment the registers already hold that start's first descriptor and writeback addresses, and
      its adjacency for the transmit direction; and the write turns poll mode on. */
  lemma {:induction false} ReadyAtRun(trace: seq<Write>, c: Chan, ops: seq<Op>, initial: nat)
    requires (forall k :: 0 <= k < |trace| ==> Legal(trace[k])) && Valid(c)
    requires trace != [] && RaisesRun(trace[|trace| - 1], c) && Own(trace, c) <= Life(c, ops)
    ensures exists k: nat :: Completes(trace, c, ops, k) && Ready(trace[..|trace| - 1], c, ops[k], initial)
    ensures PollMode(trace[|trace| - 1].value)
  {
    OwnLast(trace, c);
    var k := RunEndsStart(c, ops, Own(trace, c));
    assert Completes(trace, c, ops, k);
    ReadyBefore(trace, c, Life(c, ops[..k]), ops[k], initial);
  }
}
