/** In which order a device lets go of its memory: what is reached through a block is released before the
    block itself, and nothing is touched after its release. */
module ReleaseOrder {
  import opened Rings
  import opened Lifetime

  /** Every `a` in the history comes before every `b`. */
  predicate Before(log: seq<Act>, a: Act, b: Act) {
    forall i, j :: 0 <= i < |log| && 0 <= j < |log| && log[i] == a && log[j] == b ==> i < j
  }

  /** The queue's engine is stopped, and its software ring and memory zone are released, before the engine
      that names them, and the engine before the table that names it. */
  predicate NeverDangling(log: seq<Act>, q: Queue, table: nat) {
    && (q.swRing != 0 ==> Before(log, Free(q.swRing), Free(q.self)))
    && (q.zone != 0 ==> Before(log, Free(q.zone), Free(q.self)))
    && Before(log, Stop(q.self), Free(q.self))
    && (table != 0 ==> Before(log, Free(q.self), Free(table)))
  }

  /** All queues in the order in which they are let go. */
  function Queues(d: Dev): seq<Queue> {
    d.rx + d.tx
  }

  /** The engines are released in table order, the receive side first. */
  predicate InOrder(log: seq<Act>, d: Dev) {
    forall j, k :: 0 <= j < k < |Queues(d)| ==> Before(log, Free(Queues(d)[j].self), Free(Queues(d)[k].self))
  }

  /** The block of the table that names queue `k`. */
  function TableOf(d: Dev, k: nat): nat {
    if k < |d.rx| then d.rxArray else d.txArray
  }

  // ---------------------------------------------------------------- one after the other

  /** Every `b` has an `a` before it. */
  predicate Led(log: seq<Act>, a: Act, b: Act) {
    forall j :: 0 <= j < |log| && log[j] == b ==> a in log[..j]
  }

  lemma LedConcat(x: seq<Act>, y: seq<Act>, a: Act, b: Act)
    requires Led(x, a, b) && (b !in y || a in x || Led(y, a, b))
    ensures Led(x + y, a, b)
  {
    forall j | 0 <= j < |x + y| && (x + y)[j] == b
      ensures a in (x + y)[..j]
    {
      if j < |x| {
        assert (x + y)[..j] == x[..j];
      } else {
        assert (x + y)[..j] == x + y[..j - |x|];
        assert y[j - |x|] == b;
      }
    }
  }

  lemma LedNone(log: seq<Act>, a: Act, b: Act)
    ensures b !in log ==> Led(log, a, b)
  {
  }

  lemma {:induction false} InFreed(log: seq<Act>, b: nat)
    ensures b in Freed(log) <==> Free(b) in log
  {
    if log != [] {
      InFreed(log[..|log| - 1], b);
      assert log == log[..|log| - 1] + [log[|log| - 1]];
    }
  }

  lemma {:induction false} FreedTwice(log: seq<Act>, b: nat, i: nat, j: nat)
    requires i < j < |log| && log[i] == log[j] == Free(b)
    ensures Freed(log)[b] >= 2
  {
    var init := log[..|log| - 1];
    if j < |log| - 1 {
      FreedTwice(init, b, i, j);
    } else {
      assert init[i] == Free(b);
      InFreed(init, b);
    }
  }

  /** What is released only once and leads comes before. */
  lemma {:induction false} LedBefore(log: seq<Act>, a: nat, b: Act)
    requires Led(log, Free(a), b) && NoBlockTwice(Freed(log))
    ensures Before(log, Free(a), b)
  {
    forall i, j | 0 <= i < |log| && 0 <= j < |log| && log[i] == Free(a) && log[j] == b
      ensures i < j
    {
      var k :| 0 <= k < j && log[..j][k] == Free(a);
      if k < i {
        FreedTwice(log, a, k, i);
      } else if i < k {
        FreedTwice(log, a, i, k);
      }
    }
  }

  // ---------------------------------------------------------------- one queue and all of them

  /** The order in which queue `k` of `qs` is let go, while its table still stands. */
  predicate Ordered(log: seq<Act>, qs: seq<Queue>, k: nat, table: nat)
    requires k < |qs|
  {
    var q := qs[k];
    && (q.swRing != 0 ==> Led(log, Free(q.swRing), Free(q.self)))
    && (q.zone != 0 ==> Led(log, Free(q.zone), Free(q.self)))
    && Before(log, Stop(q.self), Free(q.self))
    && (table != 0 ==> Led(log, Free(q.self), Free(table)))
    && AfterEarlier(log, qs, k)
  }

  /** The engines of the queues before it are released before its own. */
  predicate AfterEarlier(log: seq<Act>, qs: seq<Queue>, k: nat)
    requires k < |qs|
  {
    forall j :: 0 <= j < k ==> Led(log, Free(qs[j].self), Free(qs[k].self))
  }

  /** All releases of both tables, one queue after the other. */
  function ReleaseEach(qs: seq<Queue>): seq<Act> {
    if qs == [] then [] else ReleaseEach(qs[..|qs| - 1]) + Release(qs[|qs| - 1])
  }

  lemma {:induction false} ReleaseEachIsAll(qs: seq<Queue>, dir: Dir)
    requires AllOf(qs, dir)
    ensures ReleaseEach(qs) == ReleaseAll(qs, dir)
  {
    if qs != [] {
      ReleaseEachIsAll(qs[..|qs| - 1], dir);
    }
  }

  /** The blocks of one queue. */
  function BlocksOf(q: Queue): multiset<nat> {
    Block(q.swRing) + Block(q.zone) + multiset{q.self}
  }

  lemma {:induction false} EachLast(qs: seq<Queue>, q: Queue)
    ensures ReleaseEach(qs + [q]) == ReleaseEach(qs) + Release(q) && Blocks(qs + [q]) == Blocks(qs) + BlocksOf(q)
    ensures ReleaseEach([]) == [] && Blocks([]) == multiset{}
  {
    assert (qs + [q])[..|qs|] == qs;
    hide Release;
  }

  lemma {:induction false} EachConcat(a: seq<Queue>, b: seq<Queue>)
    ensures ReleaseEach(a + b) == ReleaseEach(a) + ReleaseEach(b) && Blocks(a + b) == Blocks(a) + Blocks(b)
  {
    hide *;
    if b == [] {
      assert a + b == a;
      EachLast(a, Queue(H2C, 0, 0, 0));
    } else {
      var init, q := b[..|b| - 1], b[|b| - 1];
      assert b == init + [q] && a + b == (a + init) + [q];
      EachConcat(a, init);
      EachLast(a + init, q);
      EachLast(init, q);
      Assoc(ReleaseEach(a), ReleaseEach(init), Release(q));
    }
  }

  lemma Assoc(x: seq<Act>, y: seq<Act>, z: seq<Act>)
    ensures (x + y) + z == x + (y + z)
  {
  }

  lemma {:induction false} FreedEach(qs: seq<Queue>)
    ensures Freed(ReleaseEach(qs)) == Blocks(qs)
    ensures forall i :: 0 <= i < |ReleaseEach(qs)| ==> ReleaseEach(qs)[i].Free?
  {
    hide ReleaseEach, Blocks, Freed;
    EachLast([], Queue(H2C, 0, 0, 0));
    if qs == [] {
      FreedNone();
    } else {
      var init, q := qs[..|qs| - 1], qs[|qs| - 1];
      assert qs == init + [q];
      EachLast(init, q);
      FreedEach(init);
      FreedRelease(q);
      FreedConcat(ReleaseEach(init), Release(q));
    }
  }

  lemma FreedNone()
    ensures Freed([]) == multiset{}
  {
  }

  /** Within one queue: the ring and the zone, then the engine. */
  lemma ReleaseLed(q: Queue)
    requires NoBlockTwice(BlocksOf(q))
    ensures q.swRing != 0 ==> Led(Release(q), Free(q.swRing), Free(q.self))
    ensures q.zone != 0 ==> Led(Release(q), Free(q.zone), Free(q.self))
    ensures Free(q.self) in Release(q)
  {
    assert BlocksOf(q)[q.self] <= 1;
    var log := Release(q);
    assert log[|log| - 1] == Free(q.self);
    assert q.swRing != 0 ==> log[0] == Free(q.swRing);
    assert q.zone != 0 ==> log[|log| - 2] == Free(q.zone);
  }

  lemma PartTwice(m: multiset<nat>, o: multiset<nat>)
    requires NoBlockTwice(m + o)
    ensures NoBlockTwice(m) && NoBlockTwice(o) && forall b :: b in m ==> b !in o
  {
    forall b
      ensures m[b] <= 1 && o[b] <= 1 && (b in m ==> b !in o)
    {
      assert (m + o)[b] == m[b] + o[b];
    }
  }

  /** Over all queues: each is let go in that order, and nothing of it anywhere else. */
  lemma {:induction false} EachLed(qs: seq<Queue>, k: nat)
    requires k < |qs| && NoBlockTwice(Blocks(qs))
    ensures var q, log := qs[k], ReleaseEach(qs);
            && (q.swRing != 0 ==> Led(log, Free(q.swRing), Free(q.self)))
            && (q.zone != 0 ==> Led(log, Free(q.zone), Free(q.self)))
            && Free(q.self) in log
  {
    var init, last, q := qs[..|qs| - 1], qs[|qs| - 1], qs[k];
    assert qs == init + [last];
    EachLast(init, last);
    FreedEach(init);
    FreedRelease(last);
    InFreed(ReleaseEach(init), q.self);
    InFreed(Release(last), q.self);
    if k < |init| {
      SelfOwned(init, k);
    }
    hide ReleaseEach, Release, Blocks, Block, NoBlockTwice, Led, Freed;
    PartTwice(Blocks(init), BlocksOf(last));
    if k < |init| {
      EachLed(init, k);
    } else {
      ReleaseLed(last);
    }
    if q.swRing != 0 {
      LedNone(ReleaseEach(init), Free(q.swRing), Free(q.self));
      LedConcat(ReleaseEach(init), Release(last), Free(q.swRing), Free(q.self));
    }
    if q.zone != 0 {
      LedNone(ReleaseEach(init), Free(q.zone), Free(q.self));
      LedConcat(ReleaseEach(init), Release(last), Free(q.zone), Free(q.self));
    }
  }

  /** One queue after the other. */
  lemma {:induction false} EachInOrder(qs: seq<Queue>, k: nat)
    requires k < |qs| && NoBlockTwice(Blocks(qs))
    ensures AfterEarlier(ReleaseEach(qs), qs, k)
  {
    var front, back := qs[..k], qs[k..];
    assert qs == front + back;
    EachConcat(front, back);
    PartTwice(Blocks(front), Blocks(back));
    SelfOwned(back, 0);
    FreedEach(front);
    InFreed(ReleaseEach(front), qs[k].self);
    hide ReleaseEach, Blocks, NoBlockTwice, Freed, Led;
    forall j | 0 <= j < k
      ensures Led(ReleaseEach(qs), Free(qs[j].self), Free(qs[k].self))
    {
      EachLed(front, j);
      LedNone(ReleaseEach(front), Free(qs[j].self), Free(qs[k].self));
      LedConcat(ReleaseEach(front), ReleaseEach(back), Free(qs[j].self), Free(qs[k].self));
    }
  }

  // ---------------------------------------------------------------- what is appended to the history

  lemma BeforeConcat(x: seq<Act>, y: seq<Act>, a: Act, b: Act)
    requires Before(x, a, b) && (a !in y || (b !in x && b !in y))
    ensures Before(x + y, a, b)
  {
    forall i, j | 0 <= i < |x + y| && 0 <= j < |x + y| && (x + y)[i] == a && (x + y)[j] == b
      ensures i < j
    {
      assert i >= |x| ==> a in y;
    }
  }

  lemma OrderedMore(log: seq<Act>, y: seq<Act>, qs: seq<Queue>, k: nat, table: nat)
    requires k < |qs| && Ordered(log, qs, k, table)
    requires var q := qs[k];
             && (Free(q.self) !in y ||
                 (&& (q.swRing != 0 ==> Led(y, Free(q.swRing), Free(q.self)))
                  && (q.zone != 0 ==> Led(y, Free(q.zone), Free(q.self)))
                  && AfterEarlier(y, qs, k)))
             && (Stop(q.self) !in y || (Free(q.self) !in log && Free(q.self) !in y))
             && (table == 0 || Free(table) !in y || Free(q.self) in log)
    ensures Ordered(log + y, qs, k, table)
  {
    var q := qs[k];
    hide Led, Before;
    BeforeConcat(log, y, Stop(q.self), Free(q.self));
    forall j | 0 <= j < k
      ensures Led(log + y, Free(qs[j].self), Free(q.self))
    {
      LedConcat(log, y, Free(qs[j].self), Free(q.self));
    }
    if q.swRing != 0 {
      LedConcat(log, y, Free(q.swRing), Free(q.self));
    }
    if q.zone != 0 {
      LedConcat(log, y, Free(q.zone), Free(q.self));
    }
    if table != 0 {
      LedConcat(log, y, Free(q.self), Free(table));
    }
  }

  lemma {:induction false} OrderedClose(log: seq<Act>, qs: seq<Queue>, k: nat, table: nat)
    requires k < |qs| && Ordered(log, qs, k, table) && NoBlockTwice(Blocks(qs))
    requires Free(qs[k].self) !in log && (table != 0 ==> table !in Blocks(qs))
    ensures Ordered(log + ReleaseEach(qs), qs, k, table) && Free(qs[k].self) in log + ReleaseEach(qs)
  {
    EachLed(qs, k);
    EachInOrder(qs, k);
    FreedEach(qs);
    InFreed(ReleaseEach(qs), table);
    hide *;
    OrderedMore(log, ReleaseEach(qs), qs, k, table);
  }

  // ---------------------------------------------------------------- over whole histories

  predicate AllOrdered(d: Dev, log: seq<Act>) {
    forall k :: 0 <= k < |Queues(d)| ==> Ordered(log, Queues(d), k, TableOf(d, k))
  }

  predicate NoneReleased(d: Dev, log: seq<Act>) {
    forall k :: 0 <= k < |Queues(d)| ==> Free(Queues(d)[k].self) !in log
  }

  predicate AllReleased(d: Dev, log: seq<Act>) {
    forall k :: 0 <= k < |Queues(d)| ==> Free(Queues(d)[k].self) in log
  }

  /** Either the tables stand as they were, or every queue has been released and they are empty. */
  predicate Stage(d: Dev, r: Dev) {
    && ((r.rx == d.rx && r.tx == d.tx) || (r.rx == [] && r.tx == [] && AllReleased(d, r.log)))
    && (r.rxArray == d.rxArray || r.rxArray == 0) && (r.txArray == d.txArray || r.txArray == 0)
    && (r.mac == d.mac || r.mac == 0) && (r.access == d.access || r.access == 0)
  }

  predicate Kept(d: Dev, r: Dev) {
    && Stage(d, r) && AllOrdered(d, r.log) && Sorted(r)
    && Freed(r.log) + Owned(r) == Owned(d)
  }

  lemma QueueBlocks(d: Dev)
    ensures Owned(d) == Blocks(Queues(d)) + (Block(d.rxArray) + Block(d.txArray) + Block(d.mac) + Block(d.access))
  {
    EachConcat(d.rx, d.tx);
  }

  /** The blocks of the tables and of the device itself. */
  predicate Outer(d: Dev, b: nat) {
    b != 0 && (b == d.rxArray || b == d.txArray || b == d.mac || b == d.access)
  }

  /** Blocks of different owners differ. */
  lemma Apart(d: Dev, k: nat)
    requires k < |Queues(d)| && NoBlockTwice(Owned(d))
    ensures NoBlockTwice(Blocks(Queues(d)))
    ensures forall b :: Outer(d, b) ==> b != Queues(d)[k].self && b !in Blocks(Queues(d))
  {
    QueueBlocks(d);
    var rest := Block(d.rxArray) + Block(d.txArray) + Block(d.mac) + Block(d.access);
    SelfOwned(Queues(d), k);
    PartTwice(Blocks(Queues(d)), rest);
    assert forall b :: Outer(d, b) ==> b in rest;
  }

  /** While the tables stand, nothing of them has been released. */
  lemma StandingHeld(d: Dev, r: Dev)
    requires Kept(d, r) && NoBlockTwice(Owned(d)) && r.rx == d.rx && r.tx == d.tx
    ensures NoneReleased(d, r.log)
  {
    QueueBlocks(r);
    PartTwice(Freed(r.log), Owned(r));
    forall k | 0 <= k < |Queues(d)|
      ensures Free(Queues(d)[k].self) !in r.log
    {
      SelfOwned(Queues(d), k);
      InFreed(r.log, Queues(d)[k].self);
    }
  }

  lemma StopChunk(d: Dev, log: seq<Act>, stops: seq<Act>)
    requires AllOrdered(d, log) && NoneReleased(d, log) && forall i :: 0 <= i < |stops| ==> stops[i].Stop?
    ensures AllOrdered(d, log + stops) && NoneReleased(d, log + stops)
  {
    forall k | 0 <= k < |Queues(d)|
      ensures Ordered(log + stops, Queues(d), k, TableOf(d, k))
    {
      OrderedMore(log, stops, Queues(d), k, TableOf(d, k));
    }
  }

  lemma CloseChunk(d: Dev, log: seq<Act>)
    requires AllOrdered(d, log) && NoneReleased(d, log) && NoBlockTwice(Owned(d))
    ensures var after := log + ReleaseEach(Queues(d)); AllOrdered(d, after) && AllReleased(d, after)
  {
    forall k | 0 <= k < |Queues(d)|
      ensures Ordered(log + ReleaseEach(Queues(d)), Queues(d), k, TableOf(d, k))
      ensures Free(Queues(d)[k].self) in log + ReleaseEach(Queues(d))
    {
      Apart(d, k);
      assert TableOf(d, k) != 0 ==> Outer(d, TableOf(d, k));
      hide Ordered, Blocks, Owned, ReleaseEach, NoBlockTwice;
      OrderedClose(log, Queues(d), k, TableOf(d, k));
    }
  }

  /** The device's own blocks and the tables come last. */
  lemma TailChunk(d: Dev, log: seq<Act>, y: seq<Act>)
    requires AllOrdered(d, log) && AllReleased(d, log) && NoBlockTwice(Owned(d))
    requires forall i :: 0 <= i < |y| ==> y[i].Free? && Outer(d, y[i].block)
    ensures AllOrdered(d, log + y) && AllReleased(d, log + y)
  {
    forall k | 0 <= k < |Queues(d)|
      ensures Ordered(log + y, Queues(d), k, TableOf(d, k)) && Free(Queues(d)[k].self) in log + y
    {
      Apart(d, k);
      assert Free(Queues(d)[k].self) !in y;
      hide Ordered, Owned, NoBlockTwice, Outer, Blocks;
      OrderedMore(log, y, Queues(d), k, TableOf(d, k));
    }
  }

  /** Only the history changes in a stop. */
  lemma StopAppends(r: Dev)
    ensures var stops := StopAll(r.tx) + StopAll(r.rx);
            && DevStop(r) == r.(log := r.log + stops) && Owned(DevStop(r)) == Owned(r)
            && (forall i :: 0 <= i < |stops| ==> stops[i].Stop?)
            && (r.rx == [] && r.tx == [] ==> stops == [] && r.log + stops == r.log)
  {
    hide Blocks, Block;
  }

  lemma StopKept(d: Dev, r: Dev)
    requires Kept(d, r) && NoBlockTwice(Owned(d))
    ensures Kept(d, DevStop(r))
  {
    StopFrees(r);
    StopAppends(r);
    hide AllOrdered, AllReleased, NoneReleased, Freed, Owned, NoBlockTwice, StopAll, AllOf, DevStop;
    if r.rx == d.rx && r.tx == d.tx {
      StandingHeld(d, r) by { hide Kept; }
      StopChunk(d, r.log, StopAll(r.tx) + StopAll(r.rx));
    }
  }

  lemma CloseKept(d: Dev, r: Dev)
    requires Kept(d, r) && NoBlockTwice(Owned(d))
    ensures var c := DevClose(r); AllOrdered(d, c.log) && AllReleased(d, c.log) && c == r.(log := c.log)
  {
    var s := if r.started then DevStop(r) else r;
    hide AllOrdered, AllReleased, NoneReleased, Freed, Blocks, Block, NoBlockTwice, Owned;
    StopKept(d, r) by { hide Kept; }
    assert DevClose(r).log == s.log + (ReleaseAll(s.rx, C2H) + ReleaseAll(s.tx, H2C));
    if r.rx == d.rx && r.tx == d.tx {
      ReleaseEachIsAll(r.rx, C2H);
      ReleaseEachIsAll(r.tx, H2C);
      EachConcat(r.rx, r.tx);
      StandingHeld(d, s);
      CloseChunk(d, s.log);
    } else {
      assert DevClose(r).log == s.log;
    }
  }

  lemma PmdKept(d: Dev, r: Dev)
    requires Kept(d, r) && NoBlockTwice(Owned(d))
    ensures Kept(d, PmdDevClose(r))
  {
    var o := r.(started := false);
    var c := DevClose(o);
    var y := FreeIf(c.rxArray) + FreeIf(c.txArray);
    hide AllOrdered, AllReleased, Freed, Blocks, Block, NoBlockTwice, DevClose, AllOf;
    assert Owned(o) == Owned(r);
    hide Owned;
    assert Kept(d, o);
    CloseKept(d, o) by { hide Kept; }
    PmdCloseConserves(r);
    assert PmdDevClose(r).log == c.log + y;
    TailChunk(d, c.log, y);
  }

  lemma UninitKept(d: Dev, r: Dev)
    requires Kept(d, r) && NoBlockTwice(Owned(d)) && r.configured
    ensures Kept(d, Uninit(r))
  {
    var c := DevClose(r);
    var y := FreeIf(c.mac) + FreeIf(c.access);
    hide AllOrdered, AllReleased, Freed, Blocks, Block, NoBlockTwice, DevClose, AllOf, Owned;
    CloseKept(d, r) by { hide Kept; }
    UninitConserves(r);
    assert Uninit(r).log == c.log + y;
    TailChunk(d, c.log, y);
  }

  lemma DoKept(d: Dev, r: Dev, op: Op)
    requires Kept(d, r) && NoBlockTwice(Owned(d)) && r.configured
    ensures Kept(d, Do(r, op))
  {
    hide Kept, NoBlockTwice, Owned, DevStop, PmdDevClose, Uninit;
    match op {
      case StartOp => Flags(d, r, r.(started := true));
      case StopOp => EthStopKept(d, r);
      case CloseOp => PortCloseKept(d, r);
      case UninitOp => UninitKept(d, r);
      case RemoveOp =>
        if r.attached {
          PortCloseKept(d, r);
          UninitKept(d, PortClose(r));
          Flags(d, Uninit(PortClose(r)), PortRemove(r));
        }
    }
  }

  /** The flags do not matter. */
  lemma Flags(d: Dev, r: Dev, s: Dev)
    requires Kept(d, r) && s == r.(started := s.started, attached := s.attached)
    ensures Kept(d, s)
  {
    hide AllOrdered, AllReleased, Freed, Blocks, Block, AllOf;
  }

  lemma EthStopKept(d: Dev, r: Dev)
    requires Kept(d, r) && NoBlockTwice(Owned(d))
    ensures Kept(d, EthStop(r)) && EthStop(r).configured == r.configured
  {
    hide Kept, NoBlockTwice, Owned;
    StopKept(d, r);
    Flags(d, DevStop(r), DevStop(r).(started := false));
  }

  lemma PortCloseKept(d: Dev, r: Dev)
    requires Kept(d, r) && NoBlockTwice(Owned(d))
    ensures Kept(d, PortClose(r)) && PortClose(r).configured == r.configured
  {
    EthStopKept(d, r);
    PmdConfigured(EthStop(r));
    hide Kept, NoBlockTwice, Owned, EthStop, PmdDevClose;
    PmdKept(d, EthStop(r));
  }

  lemma PmdConfigured(r: Dev)
    ensures PmdDevClose(r).configured == r.configured
  {
  }

  lemma {:induction false} DoAllKept(d: Dev, ops: seq<Op>)
    requires Fresh(d) && NoBlockTwice(Owned(d))
    ensures Kept(d, DoAll(d, ops))
  {
    if ops == [] {
      FreshFreedNothing(d);
    } else {
      DoAllKept(d, ops[..|ops| - 1]);
      DoAllConserves(d, ops[..|ops| - 1]);
      hide Kept, Do, Owned;
      DoKept(d, DoAll(d, ops[..|ops| - 1]), ops[|ops| - 1]);
    }
  }

  /** Over any such sequence, too, engines are released in table order. */
  lemma {:induction false} ReleasedInOrder(d: Dev, ops: seq<Op>)
    requires Fresh(d) && NoBlockTwice(Owned(d))
    ensures InOrder(DoAll(d, ops).log, d)
  {
    DoAllKept(d, ops);
    ReleasedExactlyOnce(d, ops);
    var log, qs := DoAll(d, ops).log, Queues(d);
    hide DoAll, Led, Before, Freed, Owned, NoBlockTwice, Queues, Fresh;
    forall j, k | 0 <= j < k < |qs|
      ensures Before(log, Free(qs[j].self), Free(qs[k].self))
    {
      assert Ordered(log, qs, k, TableOf(d, k));
      LedBefore(log, qs[j].self, Free(qs[k].self));
    }
  }

  /** Nothing dangles, over any sequence of starts, stops, closes, uninits and removals: no engine is
      released before what is reached through it, none is touched afterwards, and no table is released
      before the engines it names. */
  lemma {:induction false} NothingDangles(d: Dev, ops: seq<Op>, k: nat)
    requires Fresh(d) && NoBlockTwice(Owned(d)) && k < |Queues(d)|
    ensures NeverDangling(DoAll(d, ops).log, Queues(d)[k], TableOf(d, k))
  {
    DoAllKept(d, ops);
    ReleasedExactlyOnce(d, ops);
    var log, q := DoAll(d, ops).log, Queues(d)[k];
    assert Ordered(log, Queues(d), k, TableOf(d, k));
    hide DoAll, Led, Before, Freed, Owned, NoBlockTwice, Kept;
    if q.swRing != 0 {
      LedBefore(log, q.swRing, Free(q.self));
    }
    if q.zone != 0 {
      LedBefore(log, q.zone, Free(q.self));
    }
    if TableOf(d, k) != 0 {
      LedBefore(log, q.self, Free(TableOf(d, k)));
    }
  }
}
