/** One DMA engine: the driver's view of it (ring, cursor, running flag), the completion counter in
    shared memory, and the hardware channel as a second process that runs between any two reads. */
module Engines {
  import opened Rings

  /** One completed descriptor: its slot, the host address it read or wrote, and the byte count. */
  datatype Transfer = Transfer(slot: nat, addr: nat, len: nat)

  /** The channel hardware. `wbTo` is where it writes its count back, 0 when poll mode is off, and `done`
      the history of all its transfers, oldest first. */
  datatype Channel = Channel(busy: bool, at: nat, completed: nat, done: seq<Transfer>, wbTo: nat)

  /** `used` is desc_used, `wb` the completed_desc_count word, `wbLen` the stream writeback length. */
  datatype Engine = Engine(dir: Dir, base: nat, ring: seq<Desc>, used: nat, running: bool,
                           wb: nat, wbLen: nat, hw: Channel)

  /** What the environment decides in one hardware step: whether an empty descriptor is counted
      as completed, how many bytes the stream has for the next buffer (0 for none yet), and whether
      the count is written back although the descriptor does not say COMPLETED. */
  datatype Tick = Tick(countsEmpty: bool, bytes: nat, reports: bool)

  function Halt(e: Engine): Engine {
    e.(hw := e.hw.(busy := false))
  }

  /** Whether completing `d` puts the count into the word that the driver polls: poll mode is on and
      names that word, and the descriptor says COMPLETED or the channel reports it anyway. */
  predicate Reports(e: Engine, d: Desc, t: Tick) {
    e.hw.wbTo == CountSlot(e.base, |e.ring|) && (d.control.completed || t.reports)
  }

  /** Transfers the descriptor in `slot`, writes back the count, and follows the link unless the
      descriptor says STOPPED. The length of what a stream delivered goes where the source address
      points, and the driver sees it if that is the slot it reads. */
  function Complete(e: Engine, slot: nat, t: Tick): Engine
    requires slot < |e.ring|
  {
    var d := e.ring[slot];
    var done := if e.dir == H2C then Transfer(slot, Source(d), d.len)
                else Transfer(slot, Destination(d), t.bytes);
    e.(wb := if Reports(e, d, t) then e.hw.completed + 1 else e.wb,
       wbLen := if e.dir == C2H && Source(d) == StreamSlot(e.base, |e.ring|) then t.bytes else e.wbLen,
       hw := Channel(!d.control.stopped, if d.control.stopped then e.hw.at else Link(d),
                     e.hw.completed + 1, e.hw.done + [done], e.hw.wbTo))
  }

  /** One hardware step. A null or foreign link, a wrong magic, or an uncounted empty descriptor
      halts the channel; a receive channel waits until the stream fills a buffer. */
  function Step(e: Engine, t: Tick): Engine {
    if !e.hw.busy then e else
      match Locate(e.base, |e.ring|, e.hw.at)
      case Nowhere => Halt(e)
      case Slot(i) =>
        var d := e.ring[i];
        if !d.control.genuine || (e.dir == H2C && d.len == 0 && !t.countsEmpty) then Halt(e)
        else if e.dir == C2H && !(1 <= t.bytes <= d.len) then e
        else Complete(e, i, t)
  }

  function Setup(dir: Dir, n: nat, base: nat): Engine {
    Engine(dir, base, InitRing(n, base), 0, false, 0, 0, Channel(false, 0, 0, [], 0))
  }

  /** RUN goes 0 to 1 with the first-descriptor register naming slot 0, and poll mode on. */
  function Start(e: Engine): Engine {
    e.(running := true, hw := e.hw.(busy := true, at := e.base, completed := 0, wbTo := CountSlot(e.base, |e.ring|)))
  }

  /** RUN is cleared, then the ring, the counter, the flag and the cursor. */
  function Stop(e: Engine): Engine {
    e.(ring := ClearRing(e.dir, e.ring), used := 0, running := false, wb := 0,
       hw := e.hw.(busy := false))
  }

  /** What holds of an engine that is not running. */
  predicate Idle(e: Engine) {
    && !e.running && !e.hw.busy && e.used == 0 && e.wb == 0
    && (forall i :: 0 <= i < |e.ring| ==> Unprogrammed(e.ring[i]))
    && (e.dir == H2C ==> IdleSendControls(e.ring))
  }

  /** The polled count never runs ahead, and is exact when the last descriptor completed says COMPLETED. */
  predicate CountReported(e: Engine)
    requires e.hw.completed <= |e.ring|
  {
    && e.hw.wbTo == CountSlot(e.base, |e.ring|) && e.wb <= e.hw.completed
    && (e.hw.completed > 0 && e.ring[e.hw.completed - 1].control.completed ==> e.wb == e.hw.completed)
  }

  /** What holds of an engine at every moment of its life. */
  predicate Sound(e: Engine) {
    && Placed(e.base, |e.ring|) && Linked(e.ring, e.base)
    && (e.dir == C2H ==> ReceiveControls(e.ring))
    && (e.running ==> e.hw.completed <= |e.ring| && CountReported(e))
    && (e.hw.busy ==> e.running && e.hw.at == SlotAddr(e.base, |e.ring|, e.hw.completed))
    && (!e.running ==> Idle(e))
  }

  lemma SetupSound(dir: Dir, n: nat, base: nat)
    requires Placed(base, n)
    ensures Sound(Setup(dir, n, base)) && Idle(Setup(dir, n, base))
  {
    InitRingLinked(n, base);
  }

  lemma StopSound(e: Engine)
    requires Placed(e.base, |e.ring|) && Linked(e.ring, e.base)
    requires e.dir == C2H ==> ReceiveControls(e.ring)
    ensures Sound(Stop(e)) && Idle(Stop(e))
  {
  }

  /** A hardware step keeps the engine sound, touches neither ring nor driver state, and completes
      at most the descriptor after the last completed one. */
  lemma StepSound(e: Engine, t: Tick)
    requires Sound(e)
    ensures Sound(Step(e, t))
    ensures Step(e, t) == e.(wb := Step(e, t).wb, wbLen := Step(e, t).wbLen, hw := Step(e, t).hw)
    ensures
      || Step(e, t).hw.done == e.hw.done
      || (e.hw.busy && e.hw.completed < |e.ring| && Step(e, t) == Complete(e, e.hw.completed, t))
  {
    if e.hw.busy {
      LocateSlot(e.base, |e.ring|, e.hw.completed);
    }
  }
}
