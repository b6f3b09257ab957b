/** What an engine that is not running looks like, after any life. */
module IdleState {
  import opened Words
  import opened Rings
  import opened Engines
  import opened Transmit
  import T = Sending
  import R = Receiving

  lemma UpdateClears(ring: seq<Desc>, i: nat, d: Desc)
    requires i < |ring| && ClearDesc(H2C, d) == ClearDesc(H2C, ring[i])
    ensures ClearRing(H2C, ring[i := d]) == ClearRing(H2C, ring)
  {
  }

  lemma {:induction false} FillClears(ring: seq<Desc>, used: nat, items: seq<Item>)
    requires used < |ring|
    ensures ClearRing(H2C, Fill(ring, used, items).0) == ClearRing(H2C, ring)
  {
    if items != [] {
      var last := items[|items| - 1];
      FillClears(ring, used, items[..|items| - 1]);
      var (before, u) := Fill(ring, used, items[..|items| - 1]);
      UpdateClears(before, u, Write(before[u], last));
    }
  }

  lemma {:induction false} AdjoinClears(ring: seq<Desc>, count: nat, k: nat)
    requires ring != [] && (k == 0 || k < count)
    ensures ClearRing(H2C, Adjoin(ring, count, k)) == ClearRing(H2C, ring)
  {
    if k > 0 {
      AdjoinClears(ring, count, k - 1);
      var before := Adjoin(ring, count, k - 1);
      var i := (k - 1) % |ring|;
      UpdateClears(before, i, before[i].(control := SetAdjacent(before[i].control, count - 1 - k)));
    }
  }

  /** A clear undoes a batch, whatever the batch. */
  lemma ProgramClears(ring: seq<Desc>, used: nat, pkts: seq<Packet>)
    requires used < |ring|
    ensures ClearRing(H2C, Program(ring, used, pkts).0) == ClearRing(H2C, ring)
  {
    var count := Accepted(pkts, |ring|);
    var filling := Fill(ring, used, Flat(pkts[..count]));
    var filled, u := filling.0, filling.1;
    FillClears(ring, used, Flat(pkts[..count]));
    UpdateClears(filled, u, filled[u].(control := SetFlags(filled[u].control, COMPLETED | STOPPED)));
    AdjoinClears(Mark(filled, u), count, if count == 0 then 0 else count - 1);
  }

  /** Whether a transmit call or a device stop has happened. */
  predicate Touched(evs: seq<T.Event>) {
    exists k :: 0 <= k < |evs| && (evs[k].Call? || evs[k].DevStop?)
  }

  /** The ring is one that a clear makes blank; between runs it is blank already, or still as setup
      left it when nothing has been asked of the engine. */
  predicate Canonical(s: T.Tx, n: nat, base: nat, touched: bool) {
    && s.e.dir == H2C && s.e.base == base && ClearRing(H2C, s.e.ring) == ClearRing(H2C, InitRing(n, base))
    && (s.pc.Resting? ==> !s.e.running) && (!s.pc.Resting? ==> touched)
    && (!s.e.running ==>
          && !s.e.hw.busy && s.e.used == 0 && s.e.wb == 0
          && s.e.ring == if touched then ClearRing(H2C, InitRing(n, base)) else InitRing(n, base))
  }

  lemma ClearTwice(ring: seq<Desc>)
    ensures ClearRing(H2C, ClearRing(H2C, ring)) == ClearRing(H2C, ring)
  {
  }

  lemma HwCanonical(s: T.Tx, t: Tick, n: nat, base: nat, touched: bool)
    requires T.Fits(s) && Canonical(s, n, base, touched)
    ensures Canonical(T.Next(s, T.Hw(t)), n, base, touched)
  {
    hide ClearRing, InitRing;
  }

  lemma CallCanonical(s: T.Tx, pkts: seq<Packet>, n: nat, base: nat, touched: bool)
    requires T.Fits(s) && Canonical(s, n, base, touched)
    ensures Canonical(T.Next(s, T.Call(pkts)), n, base, true)
  {
    if s.pc.Resting? {
      ProgramClears(s.e.ring, s.e.used, pkts);
    }
    hide ClearRing, InitRing, Program;
  }

  lemma StopCanonical(s: T.Tx, n: nat, base: nat, touched: bool)
    requires T.Fits(s) && Canonical(s, n, base, touched)
    ensures Canonical(T.Next(s, T.DevStop), n, base, true)
    ensures Canonical(T.CpuStep(s), n, base, touched)
  {
    ClearTwice(InitRing(n, base));
    hide ClearRing, InitRing;
  }

  lemma TouchedNext(evs: seq<T.Event>)
    requires evs != []
    ensures var last := evs[|evs| - 1];
            Touched(evs) <==> Touched(evs[..|evs| - 1]) || last.Call? || last.DevStop?
  {
    var init, last := evs[..|evs| - 1], evs[|evs| - 1];
    if Touched(init) {
      var k :| 0 <= k < |init| && (init[k].Call? || init[k].DevStop?);
      assert evs[k] == init[k];
    }
    if Touched(evs) {
      var k :| 0 <= k < |evs| && (evs[k].Call? || evs[k].DevStop?);
      assert k < |init| ==> init[k] == evs[k];
    }
  }

  lemma {:induction false} ExecCanonical(n: nat, base: nat, evs: seq<T.Event>)
    requires 0 < n
    ensures Canonical(T.Exec(T.Fresh(n, base), evs), n, base, Touched(evs))
  {
    if evs != [] {
      var init, last := evs[..|evs| - 1], evs[|evs| - 1];
      var s := T.Exec(T.Fresh(n, base), init);
      ExecCanonical(n, base, init);
      TouchedNext(evs);
      hide Canonical, Touched, T.Fresh;
      match last {
        case Hw(t) => HwCanonical(s, t, n, base, Touched(init));
        case Call(pkts) => CallCanonical(s, pkts, n, base, Touched(init));
        case Cpu => StopCanonical(s, n, base, Touched(init));
        case DevStop => StopCanonical(s, n, base, Touched(init));
      }
    }
  }

  /** Over any sequence of calls, stops and hardware steps: whenever the transmit engine is not
      running, the channel is halted, cursor and counter are zero, and the ring is, descriptor for
      descriptor, the one that setup made, without the setup's mark on the last descriptor once a
      call or a stop has happened. */
  lemma {:induction false} TransmitIdle(n: nat, base: nat, evs: seq<T.Event>)
    requires 0 < n
    ensures var e := T.Exec(T.Fresh(n, base), evs).e;
            !e.running ==>
              && !e.hw.busy && e.used == 0 && e.wb == 0 && |e.ring| == n
              && forall i :: 0 <= i < n ==>
                   e.ring[i] == InitDesc(i, n, base).(
                     control := if i + 1 == n && !Touched(evs) then LAST_MARK else BLANK)
  {
    ExecCanonical(n, base, evs);
  }

  /** Likewise for the receive engine, whatever counts its callers ask for: it is halted and zeroed,
      nothing is programmed, the links are still the simple path, and only the last descriptor
      carries the stop mark. */
  lemma {:induction false} ReceiveIdle(n: nat, base: nat, port: nat, evs: seq<R.Event>)
    requires Placed(base, n)
    ensures var e := R.Exec(R.Fresh(n, base, port), evs).e;
            !e.running ==> Idle(e) && Linked(e.ring, e.base) && ReceiveControls(e.ring)
  {
    R.FreshInv(n, base, port);
    R.ExecInv(R.Fresh(n, base, port), evs);
  }
}
