/** A device as an object: the two queue tables and the blocks they live in, updated in place by stop,
    close and removal. */
module Ports {
  import opened Rings
  import opened Lifetime
  import O = ReleaseOrder

  lemma StopAllAt(qs: seq<Queue>)
    ensures |StopAll(qs)| == |qs| && forall k :: 0 <= k < |qs| ==> StopAll(qs)[k] == Stop(qs[k].self)
  {
  }

  lemma StopAllNext(qs: seq<Queue>, k: nat)
    requires k < |qs|
    ensures StopAll(qs[..k + 1]) == StopAll(qs[..k]) + [Stop(qs[k].self)]
  {
  }

  lemma {:induction false} ReleaseAllNext(qs: seq<Queue>, k: nat, dir: Dir)
    requires k < |qs|
    ensures ReleaseAll(qs[..k + 1], dir) == ReleaseAll(qs[..k], dir) + if qs[k].dir == dir then Release(qs[k]) else []
  {
    assert qs[..k + 1][..k] == qs[..k];
  }

  /** Nothing but releases since then. */
  predicate Releases(before: seq<Act>, after: seq<Act>) {
    before <= after && forall k :: |before| <= k < |after| ==> after[k].Free?
  }

  lemma {:induction false} ReleaseAllFrees(qs: seq<Queue>, dir: Dir)
    ensures forall k :: 0 <= k < |ReleaseAll(qs, dir)| ==> ReleaseAll(qs, dir)[k].Free?
  {
    if qs != [] {
      ReleaseAllFrees(qs[..|qs| - 1], dir);
    }
  }

  class EthDev {
    var nbRx: nat
    var nbTx: nat
    var rxQueues: array?<Queue>
    var txQueues: array?<Queue>
    var rxTable: nat
    var txTable: nat
    var started: bool
    var configured: bool
    var attached: bool
    var macAddrs: nat
    var hwAccess: nat
    ghost var log: seq<Act>

    ghost predicate Valid()
      reads this
    {
      && (nbRx > 0 ==> rxQueues != null && nbRx <= rxQueues.Length)
      && (nbTx > 0 ==> txQueues != null && nbTx <= txQueues.Length)
    }

    ghost function RxTable(): seq<Queue>
      requires Valid()
      reads this, rxQueues
    {
      if nbRx == 0 then [] else rxQueues[..nbRx]
    }

    ghost function TxTable(): seq<Queue>
      requires Valid()
      reads this, txQueues
    {
      if nbTx == 0 then [] else txQueues[..nbTx]
    }

    ghost function State(): Dev
      requires Valid()
      reads this, rxQueues, txQueues
    {
      Dev(RxTable(), TxTable(), rxTable, txTable, started, configured, attached, macAddrs, hwAccess, log)
    }

    /** Two tables of queues, as setup fills them. */
    constructor (rxQueues: array<Queue>, txQueues: array<Queue>, rxTable: nat, txTable: nat, macAddrs: nat,
        hwAccess: nat)
      ensures Valid() && State() == Dev(rxQueues[..], txQueues[..], rxTable, txTable, true, true, true, macAddrs,
          hwAccess, [])
    {
      nbRx, nbTx, this.rxQueues, this.txQueues := rxQueues.Length, txQueues.Length, rxQueues, txQueues;
      this.rxTable, this.txTable, started, configured, attached := rxTable, txTable, true, true, true;
      this.macAddrs, this.hwAccess, log := macAddrs, hwAccess, [];
    }

    method RteFree(block: nat)
      modifies this`log
      ensures log == old(log) + FreeIf(block)
    {
      if block != 0 {
        log := log + [Free(block)];
      }
    }

    method StopEngine(engine: Queue)
      modifies this`log
      ensures log == old(log) + [Stop(engine.self)]
    {
      log := log + [Stop(engine.self)];
    }

    method ReleaseEngine(engine: Queue)
      modifies this`log
      ensures log == old(log) + Release(engine)
    {
      RteFree(engine.swRing);
      RteFree(engine.zone);
      log := log + [Free(engine.self)];
    }

    method XdmaDevStop()
      requires Valid()
      modifies this`log
      ensures Valid() && State() == DevStop(old(State()))
      ensures |log| == |old(log)| + nbTx + nbRx && old(log) <= log
      ensures forall k :: 0 <= k < nbTx ==> log[|old(log)| + k] == Stop(txQueues[k].self)
      ensures forall k :: 0 <= k < nbRx ==> log[|old(log)| + nbTx + k] == Stop(rxQueues[k].self)
    {
      ghost var before, rx, tx := log, RxTable(), TxTable();
      StopNone(tx);
      hide StopAll;
      for channelId: nat := 0 to nbTx
        invariant log == before + StopAll(tx[..channelId])
      {
        StopAllNext(tx, channelId);
        StopEngine(txQueues[channelId]);
      }
      assert tx[..nbTx] == tx;
      StopNone(rx);
      for channelId: nat := 0 to nbRx
        invariant log == before + StopAll(tx) + StopAll(rx[..channelId])
      {
        StopAllNext(rx, channelId);
        StopEngine(rxQueues[channelId]);
      }
      assert rx[..nbRx] == rx;
      StopAllAt(tx);
      StopAllAt(rx);
    }

    method XdmaDevClose()
      requires Valid()
      modifies this`log
      ensures Valid() && State() == DevClose(old(State()))
      ensures !started ==> Releases(old(log), log)
    {
      ReleaseAllFrees(RxTable(), C2H);
      ReleaseAllFrees(TxTable(), H2C);
      hide StopAll, ReleaseAll;
      if started {
        XdmaDevStop();
      }
      ReleaseTable(rxQueues, nbRx, RxTable(), C2H);
      ReleaseTable(txQueues, nbTx, TxTable(), H2C);
    }

    /** The same loop over either table. */
    method ReleaseTable(queues: array?<Queue>, nb: nat, ghost table: seq<Queue>, dir: Dir)
      requires nb == |table| && (nb > 0 ==> queues != null && nb <= queues.Length && table == queues[..nb])
      modifies this`log
      ensures log == old(log) + ReleaseAll(table, dir)
    {
      hide ReleaseAll, Release;
      ghost var before := log;
      ReleaseNone(table, dir);
      for channelId: nat := 0 to nb
        invariant log == before + ReleaseAll(table[..channelId], dir)
      {
        ReleaseAllNext(table, channelId, dir);
        if queues[channelId].dir == dir {
          ReleaseEngine(queues[channelId]);
        }
      }
      assert table[..nb] == table;
    }

    method RtePmdXdmaDevClose()
      requires Valid()
      modifies this
      ensures Valid() && State() == PmdDevClose(old(State())) && !started
      ensures Releases(old(log), log)
    {
      hide DevClose;
      started := false;
      CloseKeeps(State());
      XdmaDevClose();
      DropTables();
    }

    method DropTables()
      requires Valid()
      modifies this`nbRx, this`nbTx, this`rxQueues, this`txQueues, this`rxTable, this`txTable, this`log
      ensures Valid() && nbRx == nbTx == rxTable == txTable == 0
      ensures log == old(log) + FreeIf(old(rxTable)) + FreeIf(old(txTable))
    {
      nbRx := 0;
      RteFree(rxTable);
      rxQueues, rxTable := null, 0;
      nbTx := 0;
      RteFree(txTable);
      txQueues, txTable := null, 0;
    }

    /** The library's stop. */
    method RteEthDevStop()
      requires Valid()
      modifies this
      ensures Valid() && State() == EthStop(old(State())) && !started && rxQueues == old(rxQueues)
          && txQueues == old(txQueues)
    {
      hide StopAll;
      if started {
        XdmaDevStop();
        started := false;
      }
    }

    method ClosePort()
      requires Valid()
      modifies this
      ensures Valid() && State() == PortClose(old(State()))
      ensures !old(attached) ==> State() == old(State())
    {
      if !attached {
        return;
      }
      RteEthDevStop();
      RtePmdXdmaDevClose();
    }

    method XdmaEthDevUninit()
      requires Valid()
      modifies this
      ensures Valid() && State() == Uninit(old(State()))
      ensures !old(configured) ==> log == old(log) + FreeIf(old(macAddrs)) + FreeIf(old(hwAccess))
    {
      hide StopAll, ReleaseAll, FreeIf;
      if configured {
        XdmaDevClose();
      }
      nbRx, nbTx := 0, 0;
      RteFree(macAddrs);
      macAddrs := 0;
      RteFree(hwAccess);
      hwAccess := 0;
    }

    method RemovePort()
      requires Valid()
      modifies this
      ensures Valid() && State() == PortRemove(old(State())) && !attached
      ensures !old(attached) ==> State() == old(State())
      ensures Fresh(old(State())) && NoBlockTwice(Owned(old(State()))) ==>
        Freed(log) == Owned(old(State())) && StoppedFirst(log, old(TxTable() + RxTable()))
      ensures Fresh(old(State())) && NoBlockTwice(Owned(old(State()))) ==>
        forall k :: 0 <= k < |O.Queues(old(State()))| ==>
          O.NeverDangling(log, O.Queues(old(State()))[k], O.TableOf(old(State()), k))
      ensures Fresh(old(State())) && NoBlockTwice(Owned(old(State()))) ==> O.InOrder(log, old(State()))
      ensures old(attached) ==>
        EndsWith(log, FreeIf(old(rxTable)) + FreeIf(old(txTable)) + FreeIf(old(macAddrs)) + FreeIf(old(hwAccess)))
    {
      hide Freed, Owned, StoppedFirst, Fresh, NoBlockTwice, PortClose, Uninit, O.NeverDangling, O.InOrder, EndsWith;
      RemoveEnds(State());
      if Fresh(State()) && NoBlockTwice(Owned(State())) {
        RemoveReleases(State());
        RemoveDanglesNothing(State());
      }
      if !attached {
        return;
      }
      ClosePort();
      XdmaEthDevUninit();
      attached := false;
    }
  }

  predicate EndsWith(log: seq<Act>, tail: seq<Act>) {
    |tail| <= |log| && log[|log| - |tail|..] == tail
  }

  /** The tables go after the queues, and the device's own blocks last. */
  lemma RemoveEnds(d: Dev)
    ensures d.attached ==>
      EndsWith(PortRemove(d).log, FreeIf(d.rxArray) + FreeIf(d.txArray) + FreeIf(d.mac) + FreeIf(d.access))
  {
    if d.attached {
      var c := DevClose(EthStop(d).(started := false));
      var tail := FreeIf(d.rxArray) + FreeIf(d.txArray) + FreeIf(d.mac) + FreeIf(d.access);
      CloseKeeps(EthStop(d).(started := false));
      var p := PortClose(d);
      assert p.rx == [] && p.tx == [] && !p.started && p.mac == d.mac && p.access == d.access;
      assert p.log == c.log + (FreeIf(d.rxArray) + FreeIf(d.txArray));
      assert DevClose(p).log == p.log;
      assert PortRemove(d).log == c.log + tail;
    }
  }

  lemma RemoveDanglesNothing(d: Dev)
    requires Fresh(d) && NoBlockTwice(Owned(d))
    ensures O.InOrder(PortRemove(d).log, d)
    ensures forall k :: 0 <= k < |O.Queues(d)| ==> O.NeverDangling(PortRemove(d).log, O.Queues(d)[k], O.TableOf(d, k))
  {
    hide PortRemove;
    DoOne(d, RemoveOp);
    assert DoAll(d, [RemoveOp]) == PortRemove(d);
    hide *;
    O.ReleasedInOrder(d, [RemoveOp]);
    forall k | 0 <= k < |O.Queues(d)|
      ensures O.NeverDangling(PortRemove(d).log, O.Queues(d)[k], O.TableOf(d, k))
    {
      O.NothingDangles(d, [RemoveOp], k);
    }
  }

  lemma CloseKeeps(d: Dev)
    ensures DevClose(d) == d.(log := DevClose(d).log)
  {
  }

  lemma StopNone(qs: seq<Queue>)
    ensures StopAll(qs[..0]) == []
  {
  }

  lemma {:induction false} ReleaseNone(qs: seq<Queue>, dir: Dir)
    ensures ReleaseAll(qs[..0], dir) == []
  {
  }
}
