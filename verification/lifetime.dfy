/** Engine lifetime: what stop, close and remove do to the memory of a device. Close runs twice on the
    way to a removal, and each block is still released exactly once. */
module Lifetime {
  import opened Rings

  /** A queue's engine: the blocks it holds, 0 for none. */
  datatype Queue = Queue(dir: Dir, self: nat, swRing: nat, zone: nat)

  /** What happens to a device, as far as memory is concerned. */
  datatype Act = Stop(engine: nat) | Free(block: nat)

  /** `rxArray` and `txArray` are the blocks of the queue tables; the tables hold as many queues as
      the counts say. `log` is the history. */
  datatype Dev = Dev(rx: seq<Queue>, tx: seq<Queue>, rxArray: nat, txArray: nat, started: bool, configured: bool,
                     attached: bool, mac: nat, access: nat, log: seq<Act>)

  /** Releasing nothing does nothing. */
  function FreeIf(block: nat): seq<Act> {
    if block != 0 then [Free(block)] else []
  }

  function Release(q: Queue): seq<Act> {
    FreeIf(q.swRing) + FreeIf(q.zone) + [Free(q.self)]
  }

  /** Releases the queues of the given direction, and skips the others. */
  function ReleaseAll(qs: seq<Queue>, dir: Dir): seq<Act> {
    if qs == [] then [] else
      ReleaseAll(qs[..|qs| - 1], dir) + if qs[|qs| - 1].dir == dir then Release(qs[|qs| - 1]) else []
  }

  function StopAll(qs: seq<Queue>): (s: seq<Act>)
    ensures |s| == |qs|
  {
    seq(|qs|, k requires 0 <= k < |qs| => Stop(qs[k].self))
  }

  function DevStop(d: Dev): Dev {
    d.(log := d.log + StopAll(d.tx) + StopAll(d.rx))
  }

  /** The driver's close. It leaves the tables as they are. */
  function DevClose(d: Dev): Dev {
    var s := if d.started then DevStop(d) else d;
    s.(log := s.log + ReleaseAll(s.rx, C2H) + ReleaseAll(s.tx, H2C))
  }

  /** The exported close: it clears the started flag first, and the tables afterwards. */
  function PmdDevClose(d: Dev): Dev {
    var c := DevClose(d.(started := false));
    c.(rx := [], rxArray := 0, tx := [], txArray := 0, log := c.log + FreeIf(c.rxArray) + FreeIf(c.txArray))
  }

  /** The library's stop, which calls the driver's on a started device only. */
  function EthStop(d: Dev): Dev {
    if d.started then DevStop(d).(started := false) else d
  }

  function PortClose(d: Dev): Dev {
    if d.attached then PmdDevClose(EthStop(d)) else d
  }

  /** The driver's part of a removal, with the second close. */
  function Uninit(d: Dev): Dev {
    var c := if d.configured then DevClose(d) else d;
    c.(rx := [], tx := [], mac := 0, access := 0, log := c.log + FreeIf(c.mac) + FreeIf(c.access))
  }

  function PortRemove(d: Dev): Dev {
    if d.attached then Uninit(PortClose(d)).(attached := false) else d
  }

  // ---------------------------------------------------------------- conservation

  function Freed(log: seq<Act>): multiset<nat> {
    if log == [] then multiset{} else
      Freed(log[..|log| - 1]) + if log[|log| - 1].Free? then multiset{log[|log| - 1].block} else multiset{}
  }

  function Block(b: nat): multiset<nat> {
    if b != 0 then multiset{b} else multiset{}
  }

  function Blocks(qs: seq<Queue>): multiset<nat> {
    if qs == [] then multiset{} else
      var q := qs[|qs| - 1];
      Blocks(qs[..|qs| - 1]) + Block(q.swRing) + Block(q.zone) + multiset{q.self}
  }

  /** What the device still holds: its engines with their rings and zones, the tables, and the two
      blocks of the device itself. */
  function Owned(d: Dev): multiset<nat> {
    Blocks(d.rx) + Blocks(d.tx) + Block(d.rxArray) + Block(d.txArray) + Block(d.mac) + Block(d.access)
  }

  lemma {:induction false} FreedConcat(a: seq<Act>, b: seq<Act>)
    ensures Freed(a + b) == Freed(a) + Freed(b)
  {
    if b == [] {
      assert a + b == a;
    } else {
      FreedConcat(a, b[..|b| - 1]);
      assert (a + b)[..|a + b| - 1] == a + b[..|b| - 1];
    }
  }

  lemma FreedIf(block: nat)
    ensures Freed(FreeIf(block)) == Block(block)
  {
    assert FreeIf(block)[..0] == [];
  }

  lemma FreedRelease(q: Queue)
    ensures Freed(Release(q)) == Block(q.swRing) + Block(q.zone) + multiset{q.self}
  {
    FreedIf(q.swRing);
    FreedIf(q.zone);
    FreedConcat(FreeIf(q.swRing), FreeIf(q.zone));
    FreedConcat(FreeIf(q.swRing) + FreeIf(q.zone), [Free(q.self)]);
    assert [Free(q.self)][..0] == [];
  }

  predicate AllOf(qs: seq<Queue>, dir: Dir) {
    forall k :: 0 <= k < |qs| ==> qs[k].dir == dir
  }

  lemma {:induction false} FreedReleaseAll(qs: seq<Queue>, dir: Dir)
    requires AllOf(qs, dir)
    ensures Freed(ReleaseAll(qs, dir)) == Blocks(qs)
  {
    if qs != [] {
      var init, q := qs[..|qs| - 1], qs[|qs| - 1];
      FreedReleaseAll(init, dir);
      FreedRelease(q);
      FreedConcat(ReleaseAll(init, dir), Release(q));
    }
  }

  lemma {:induction false} FreedStopAll(qs: seq<Queue>)
    ensures Freed(StopAll(qs)) == multiset{}
  {
    if qs != [] {
      FreedStopAll(qs[..|qs| - 1]);
      assert StopAll(qs)[..|qs| - 1] == StopAll(qs[..|qs| - 1]);
    }
  }

  /** A table releases nothing of a queue of the other direction. */
  lemma {:induction false} ReleasesOnly(qs: seq<Queue>, dir: Dir, b: nat)
    requires Free(b) in ReleaseAll(qs, dir)
    ensures exists k :: 0 <= k < |qs| && qs[k].dir == dir && (b == qs[k].self || b == qs[k].swRing || b == qs[k].zone)
  {
    var init, q := qs[..|qs| - 1], qs[|qs| - 1];
    if Free(b) in ReleaseAll(init, dir) {
      ReleasesOnly(init, dir, b);
      var k :| 0 <= k < |init| && init[k].dir == dir &&
               (b == init[k].self || b == init[k].swRing || b == init[k].zone);
      assert qs[k] == init[k];
    }
  }

  /** Every queue is in the table of its direction, as setup puts it. */
  predicate Sorted(d: Dev) {
    AllOf(d.rx, C2H) && AllOf(d.tx, H2C)
  }

  lemma StopFrees(d: Dev)
    ensures Freed(DevStop(d).log) == Freed(d.log)
  {
    FreedConcat(d.log, StopAll(d.tx));
    FreedConcat(d.log + StopAll(d.tx), StopAll(d.rx));
    FreedStopAll(d.tx);
    FreedStopAll(d.rx);
  }

  /** The driver's close releases what the tables name, whatever they named before. */
  lemma CloseFrees(d: Dev)
    requires Sorted(d)
    ensures Freed(DevClose(d).log) == Freed(d.log) + Blocks(d.rx) + Blocks(d.tx)
  {
    StopFrees(d);
    var s := if d.started then DevStop(d) else d;
    FreedConcat(s.log, ReleaseAll(s.rx, C2H));
    FreedConcat(s.log + ReleaseAll(s.rx, C2H), ReleaseAll(s.tx, H2C));
    FreedReleaseAll(s.rx, C2H);
    FreedReleaseAll(s.tx, H2C);
  }

  /** What may be done to a device, in any order and as often as one likes. */
  datatype Op = StartOp | StopOp | CloseOp | UninitOp | RemoveOp

  function Do(d: Dev, op: Op): Dev {
    match op
    case StartOp => d.(started := true)
    case StopOp => EthStop(d)
    case CloseOp => PortClose(d)
    case UninitOp => Uninit(d)
    case RemoveOp => PortRemove(d)
  }

  function DoAll(d: Dev, ops: seq<Op>): Dev {
    if ops == [] then d else Do(DoAll(d, ops[..|ops| - 1]), ops[|ops| - 1])
  }

  /** Released and still held: together what there was. */
  predicate Conserves(d: Dev, r: Dev) {
    Freed(r.log) + Owned(r) == Freed(d.log) + Owned(d) && Sorted(r) && r.configured == d.configured
  }

  lemma PmdCloseConserves(d: Dev)
    requires Sorted(d)
    ensures Conserves(d, PmdDevClose(d)) && PmdDevClose(d).rx == [] && PmdDevClose(d).tx == []
  {
    var c := DevClose(d.(started := false));
    CloseFrees(d.(started := false));
    FreedIf(c.rxArray);
    FreedIf(c.txArray);
    FreedConcat(c.log, FreeIf(c.rxArray));
    FreedConcat(c.log + FreeIf(c.rxArray), FreeIf(c.txArray));
  }

  lemma PortCloseConserves(d: Dev)
    requires Sorted(d)
    ensures Conserves(d, PortClose(d)) && (d.attached ==> PortClose(d).rx == [] && PortClose(d).tx == [])
  {
    StopFrees(d);
    PmdCloseConserves(EthStop(d));
  }

  lemma NothingOwned()
    ensures Blocks([]) == multiset{} && Block(0) == multiset{}
  {
  }

  lemma Regroup(f: multiset<nat>, x: multiset<nat>, y: multiset<nat>, a: multiset<nat>, b: multiset<nat>,
      m: multiset<nat>, c: multiset<nat>)
    ensures f + x + y + m + c + (multiset{} + multiset{} + a + b + multiset{} + multiset{}) ==
      f + (x + y + a + b + m + c)
  {
  }

  lemma UninitConserves(d: Dev)
    requires Sorted(d) && d.configured
    ensures Conserves(d, Uninit(d))
  {
    var c := DevClose(d);
    CloseFrees(d);
    FreedIf(c.mac);
    FreedIf(c.access);
    FreedConcat(c.log, FreeIf(c.mac));
    FreedConcat(c.log + FreeIf(c.mac), FreeIf(c.access));
    NothingOwned();
    Regroup(Freed(d.log), Blocks(d.rx), Blocks(d.tx), Block(d.rxArray), Block(d.txArray), Block(d.mac),
        Block(d.access)) by { hide *; }
    hide Freed, Block, Blocks, FreeIf, ReleaseAll;
  }

  lemma DoConserves(d: Dev, op: Op)
    requires Sorted(d) && d.configured
    ensures Conserves(d, Do(d, op))
  {
    match op {
      case StartOp =>
      case StopOp => StopFrees(d);
      case CloseOp => PortCloseConserves(d);
      case UninitOp => UninitConserves(d);
      case RemoveOp => PortCloseConserves(d); UninitConserves(PortClose(d));
    }
  }

  lemma {:induction false} DoAllConserves(d: Dev, ops: seq<Op>)
    requires Sorted(d) && d.configured
    ensures Conserves(d, DoAll(d, ops))
  {
    if ops != [] {
      DoAllConserves(d, ops[..|ops| - 1]);
      DoConserves(DoAll(d, ops[..|ops| - 1]), ops[|ops| - 1]);
    }
  }

  // ---------------------------------------------------------------- stopped before released

  predicate StoppedAll(log: seq<Act>, qs: seq<Queue>) {
    forall k :: 0 <= k < |qs| ==> Stop(qs[k].self) in log
  }

  /** Whatever is released is released after every engine has been stopped. */
  predicate StoppedFirst(log: seq<Act>, qs: seq<Queue>) {
    forall k :: 0 <= k < |log| && log[k].Free? ==> StoppedAll(log[..k], qs)
  }

  lemma StopsFirst(log: seq<Act>, more: seq<Act>, qs: seq<Queue>)
    requires StoppedFirst(log, qs)
    requires StoppedAll(log, qs) || forall k :: 0 <= k < |more| ==> more[k].Stop?
    ensures StoppedFirst(log + more, qs) && (StoppedAll(log, qs) ==> StoppedAll(log + more, qs))
  {
    forall k | 0 <= k < |log + more| && (log + more)[k].Free?
      ensures StoppedAll((log + more)[..k], qs)
    {
      if k < |log| {
        assert (log + more)[..k] == log[..k];
      } else {
        assert log <= (log + more)[..k];
      }
    }
  }

  lemma StopAllStops(log: seq<Act>, qs: seq<Queue>)
    ensures StoppedAll(log + StopAll(qs), qs)
  {
    forall k | 0 <= k < |qs|
      ensures Stop(qs[k].self) in log + StopAll(qs)
    {
      assert (log + StopAll(qs))[|log| + k] == Stop(qs[k].self);
    }
  }

  /** The tables are as they were, or every engine has been stopped. */
  predicate Quiesces(d: Dev, r: Dev) {
    var qs := d.tx + d.rx;
    StoppedFirst(r.log, qs) && (StoppedAll(r.log, qs) || (r.started && r.rx == d.rx && r.tx == d.tx))
  }

  lemma StopQuiesces(d: Dev, r: Dev)
    requires Quiesces(d, r) && r.started
    ensures StoppedFirst(DevStop(r).log, d.tx + d.rx) && StoppedAll(DevStop(r).log, d.tx + d.rx)
  {
    var qs, stops := d.tx + d.rx, StopAll(r.tx) + StopAll(r.rx);
    assert DevStop(r).log == r.log + stops;
    StopsFirst(r.log, stops, qs);
    if !StoppedAll(r.log, qs) {
      assert stops == StopAll(qs);
      StopAllStops(r.log, qs);
    }
  }

  /** Once every engine has been stopped, anything may follow. */
  lemma DoneQuiesces(d: Dev, r: Dev, more: seq<Act>)
    requires StoppedFirst(r.log, d.tx + d.rx) && StoppedAll(r.log, d.tx + d.rx)
    ensures StoppedFirst(r.log + more, d.tx + d.rx) && StoppedAll(r.log + more, d.tx + d.rx)
  {
    StopsFirst(r.log, more, d.tx + d.rx);
  }

  lemma CloseQuiesces(d: Dev, r: Dev)
    requires Quiesces(d, r)
    ensures StoppedFirst(DevClose(r).log, d.tx + d.rx) && StoppedAll(DevClose(r).log, d.tx + d.rx)
  {
    var s := if r.started then DevStop(r) else r;
    if r.started {
      StopQuiesces(d, r);
    }
    var more := ReleaseAll(s.rx, C2H) + ReleaseAll(s.tx, H2C);
    assert DevClose(r).log == s.log + more;
    DoneQuiesces(d, s, more);
  }

  lemma PortCloseQuiesces(d: Dev, r: Dev)
    requires Quiesces(d, r) && r.attached
    ensures StoppedFirst(PortClose(r).log, d.tx + d.rx) && StoppedAll(PortClose(r).log, d.tx + d.rx)
  {
    if r.started {
      StopQuiesces(d, r);
    }
    var c := EthStop(r).(started := false);
    CloseQuiesces(d, c);
    var more := FreeIf(c.rxArray) + FreeIf(c.txArray);
    assert PortClose(r).log == DevClose(c).log + more;
    DoneQuiesces(d, DevClose(c), more);
  }

  lemma UninitQuiesces(d: Dev, r: Dev)
    requires Quiesces(d, r) && r.configured
    ensures StoppedFirst(Uninit(r).log, d.tx + d.rx) && StoppedAll(Uninit(r).log, d.tx + d.rx)
  {
    CloseQuiesces(d, r);
    var more := FreeIf(r.mac) + FreeIf(r.access);
    assert Uninit(r).log == DevClose(r).log + more;
    DoneQuiesces(d, DevClose(r), more);
  }

  lemma {:induction false} DoAllQuiesces(d: Dev, ops: seq<Op>)
    requires Sorted(d) && d.configured && d.started && d.log == []
    ensures Quiesces(d, DoAll(d, ops))
  {
    if ops != [] {
      var r := DoAll(d, ops[..|ops| - 1]);
      DoAllQuiesces(d, ops[..|ops| - 1]);
      DoAllConserves(d, ops[..|ops| - 1]);
      match ops[|ops| - 1] {
        case StartOp =>
        case StopOp => if r.started { StopQuiesces(d, r); }
        case CloseOp => if r.attached { PortCloseQuiesces(d, r); }
        case UninitOp => UninitQuiesces(d, r);
        case RemoveOp => if r.attached { PortCloseQuiesces(d, r); UninitQuiesces(d, PortClose(r)); }
      }
    }
  }

  // ---------------------------------------------------------------- exactly once

  /** A device as setup leaves it: attached, configured and started, every queue in its table,
      and nothing released yet. */
  predicate Fresh(d: Dev) {
    Sorted(d) && d.configured && d.started && d.attached && d.log == []
  }

  ghost predicate NoBlockTwice(m: multiset<nat>) {
    forall b :: m[b] <= 1
  }

  predicate Empty(d: Dev) {
    d.rx == [] && d.tx == [] && d.rxArray == 0 == d.txArray && d.mac == 0 == d.access
  }

  lemma {:induction false} RemovedIsEmpty(d: Dev, ops: seq<Op>)
    requires Fresh(d)
    ensures DoAll(d, ops).attached || Empty(DoAll(d, ops))
    ensures RemoveOp in ops ==> !DoAll(d, ops).attached
  {
    if ops != [] {
      RemovedIsEmpty(d, ops[..|ops| - 1]);
      assert ops == ops[..|ops| - 1] + [ops[|ops| - 1]];
      hide StopAll, ReleaseAll, FreeIf, Sorted;
      DoEmpties(DoAll(d, ops[..|ops| - 1]), ops[|ops| - 1]);
      hide Do, Empty;
    }
  }

  lemma DoEmpties(d: Dev, op: Op)
    requires d.attached || Empty(d)
    ensures Do(d, op).attached || Empty(Do(d, op))
    ensures !Do(d, op).attached <==> !d.attached || op.RemoveOp?
  {
    hide StopAll, ReleaseAll, FreeIf;
  }

  lemma EmptyOwnsNothing(d: Dev)
    requires Empty(d)
    ensures Owned(d) == multiset{}
  {
  }

  /** Exactly once, for any number of queues and in any order of starts, stops, closes, driver
      uninits and removals, however often each: no block is ever released twice or without being
      held; every release comes after every engine has been stopped; and after a removal every
      engine, software ring, memory zone and table has been released. */
  lemma {:induction false} ReleasedExactlyOnce(d: Dev, ops: seq<Op>)
    requires Fresh(d) && NoBlockTwice(Owned(d))
    ensures var r := DoAll(d, ops);
            && NoBlockTwice(Freed(r.log)) && Freed(r.log) <= Owned(d)
            && StoppedFirst(r.log, d.tx + d.rx)
            && (RemoveOp in ops ==> Freed(r.log) == Owned(d))
  {
    var r := DoAll(d, ops);
    DoAllConserves(d, ops);
    DoAllQuiesces(d, ops);
    RemovedIsEmpty(d, ops);
    if !r.attached {
      EmptyOwnsNothing(r);
    }
    FreshFreedNothing(d);
    hide Freed, Owned, StoppedFirst, StoppedAll, NoBlockTwice, DoAll, Sorted;
    PartOf(Freed(r.log), Owned(r), Owned(d));
  }

  lemma FreshFreedNothing(d: Dev)
    requires d.log == []
    ensures Freed(d.log) == multiset{}
  {
  }

  lemma PartOf(f: multiset<nat>, o: multiset<nat>, all: multiset<nat>)
    requires f + o == multiset{} + all && NoBlockTwice(all)
    ensures f <= all && NoBlockTwice(f) && (o == multiset{} ==> f == all)
  {
    assert f + o == all;
    forall b
      ensures f[b] <= 1
    {
      assert (f + o)[b] == f[b] + o[b];
    }
  }

  lemma {:induction false} SelfOwned(qs: seq<Queue>, k: nat)
    requires k < |qs|
    ensures qs[k].self in Blocks(qs)
  {
    if k < |qs| - 1 {
      SelfOwned(qs[..|qs| - 1], k);
    }
  }

  /** What the callers of the driver's close add is needed: on its own it may run twice exactly when
      there are no queues. */
  lemma BareCloseTwice(d: Dev)
    requires Fresh(d) && NoBlockTwice(Owned(d))
    ensures NoBlockTwice(Freed(DevClose(DevClose(d)).log)) <==> d.rx == [] && d.tx == []
  {
    CloseFrees(d);
    CloseFrees(DevClose(d));
    FreshFreedNothing(d);
    NothingOwned();
    assert DevClose(d).rx == d.rx && DevClose(d).tx == d.tx;
    if d.rx != [] {
      SelfOwned(d.rx, 0);
    } else if d.tx != [] {
      SelfOwned(d.tx, 0);
    }
    hide Freed, DevClose, Owned, Blocks, Block;
    Doubled(Freed(DevClose(DevClose(d)).log), Blocks(d.rx), Blocks(d.tx));
  }

  lemma Doubled(twice: multiset<nat>, x: multiset<nat>, y: multiset<nat>)
    requires twice == multiset{} + x + y + x + y
    ensures x != multiset{} || y != multiset{} ==> !NoBlockTwice(twice)
    ensures x == multiset{} && y == multiset{} ==> NoBlockTwice(twice)
  {
    if x != multiset{} {
      var b :| b in x;
      assert twice[b] >= 2;
    } else if y != multiset{} {
      var b :| b in y;
      assert twice[b] >= 2;
    }
  }

  /** One removal releases everything, although it closes twice. */
  lemma RemoveReleases(d: Dev)
    requires Fresh(d) && NoBlockTwice(Owned(d))
    ensures Freed(PortRemove(d).log) == Owned(d) && StoppedFirst(PortRemove(d).log, d.tx + d.rx)
  {
    DoOne(d, RemoveOp);
    hide Freed, Owned, StoppedFirst, NoBlockTwice, PortRemove, DoAll, Fresh;
    ReleasedExactlyOnce(d, [RemoveOp]);
  }

  lemma {:induction false} DoOne(d: Dev, op: Op)
    ensures DoAll(d, [op]) == Do(d, op)
  {
    hide Do;
    assert [op][..0] == [] && DoAll(d, []) == d;
  }
}
