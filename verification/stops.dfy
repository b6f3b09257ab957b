/** Device stops between receive calls: what they lose, and that nothing else changes. */
module DeviceStops {
  import opened Rings
  import opened Engines
  import R = Receiving

  /** The deliveries that no stop has discarded, how many of them there were when the ring was last
      armed, and how many were discarded. */
  datatype Kept = Kept(done: seq<Transfer>, mark: nat, lost: nat)

  /** A stop that finds the engine running discards what has been delivered and not yet reported. */
  function After(s: R.Rx, k: Kept, ev: R.Event): Kept
    requires R.Fits(s)
  {
    match ev
    case Cpu => k
    case Hw(_) =>
      var done := R.Next(s, ev).e.hw.done;
      if |done| > |s.e.hw.done| then k.(done := k.done + [done[|done| - 1]]) else k
    case Call(bufs, nb) => if s.pc.Resting? && nb <= |bufs| && !s.e.running then k.(mark := |k.done|) else k
    case DevStop =>
      if s.pc.Resting? && s.e.running && k.mark + s.e.used <= |k.done| then
        Kept(k.done[..k.mark + s.e.used], k.mark, k.lost + |k.done| - k.mark - s.e.used)
      else k
  }

  function KeptBy(s: R.Rx, evs: seq<R.Event>): Kept
    requires R.Fits(s)
  {
    if evs == [] then Kept(s.e.hw.done, s.mark, 0)
    else After(R.Exec(s, evs[..|evs| - 1]), KeptBy(s, evs[..|evs| - 1]), evs[|evs| - 1])
  }

  /** Every call is for the whole ring; anybody may stop the device. */
  predicate WholeCalls(evs: seq<R.Event>, n: nat) {
    forall k :: 0 <= k < |evs| ==> evs[k].Call? ==> evs[k].nb == n == |evs[k].bufs|
  }

  /** The engine as it would be if the discarded deliveries had never come. */
  function View(s: R.Rx, k: Kept): R.Rx {
    s.(e := s.e.(hw := s.e.hw.(done := k.done)), mark := k.mark)
  }

  lemma ViewStep(s: R.Rx, k: Kept, ev: R.Event)
    requires R.Fits(s) && !ev.DevStop?
    ensures View(R.Next(s, ev), After(s, k, ev)) == R.Next(View(s, k), ev)
  {
    hide R.Arm, R.Harvest, R.DataAddr;
    if ev.Hw? {
      ViewHw(s, k, ev.tick);
    }
    hide Step;
  }

  lemma ViewHw(s: R.Rx, k: Kept, t: Tick)
    requires R.Fits(s)
    ensures View(R.Next(s, R.Hw(t)), After(s, k, R.Hw(t))) == R.Next(View(s, k), R.Hw(t))
  {
  }

  /** The stop leaves the engine as the routine's own stop does, with all that is kept reported. */
  lemma ViewStop(s: R.Rx, k: Kept)
    requires R.Fits(s) && R.FullInv(View(s, k))
    ensures R.FullInv(View(R.Next(s, R.DevStop), After(s, k, R.DevStop)))
  {
    if s.pc.Resting? {
      StopSound(View(s, k).e);
      var r, kept := R.Next(s, R.DevStop), After(s, k, R.DevStop);
      assert View(r, kept).e == Stop(View(s, k).e).(hw := Stop(View(s, k).e).hw.(done := kept.done));
      hide Linked, Placed, R.Armed;
      assert R.Addrs(kept.done) == R.Addrs(k.done)[..|kept.done|];
    }
  }

  lemma ViewNext(s: R.Rx, k: Kept, ev: R.Event, n: nat)
    requires R.Fits(s) && R.FullInv(View(s, k)) && |s.e.ring| == n && (ev.Call? ==> ev.nb == n == |ev.bufs|)
    ensures R.FullInv(View(R.Next(s, ev), After(s, k, ev))) && |R.Next(s, ev).e.ring| == n
  {
    hide R.FullInv;
    match ev {
      case Cpu => ViewStep(s, k, ev); R.CpuFull(View(s, k));
      case Hw(t) => ViewStep(s, k, ev); R.StepFull(View(s, k), t);
      case Call(bufs, _) =>
        ViewStep(s, k, ev);
        if s.pc.Resting? {
          R.BeginFull(View(s, k), bufs);
        }
      case DevStop => ViewStop(s, k);
    }
    RingKept(s, ev);
  }

  lemma RingKept(s: R.Rx, ev: R.Event)
    requires R.Fits(s)
    ensures |R.Next(s, ev).e.ring| == |s.e.ring|
  {
  }

  lemma {:induction false} KeptLast(s: R.Rx, evs: seq<R.Event>, ev: R.Event)
    requires R.Fits(s)
    ensures R.Exec(s, []) == s && KeptBy(s, []) == Kept(s.e.hw.done, s.mark, 0)
    ensures R.Exec(s, evs + [ev]) == R.Next(R.Exec(s, evs), ev)
    ensures KeptBy(s, evs + [ev]) == After(R.Exec(s, evs), KeptBy(s, evs), ev)
  {
    R.ExecOne(s, evs, ev);
    assert (evs + [ev])[..|evs|] == evs;
    hide After, R.Next;
  }

  lemma {:induction false} ExecKept(s: R.Rx, evs: seq<R.Event>)
    requires R.FullInv(s) && WholeCalls(evs, |s.e.ring|)
    ensures R.FullInv(View(R.Exec(s, evs), KeptBy(s, evs))) && |R.Exec(s, evs).e.ring| == |s.e.ring|
  {
    KeptLast(s, [], R.Cpu);
    if evs == [] {
      assert View(s, KeptBy(s, evs)) == s;
    } else {
      var init, last := evs[..|evs| - 1], evs[|evs| - 1];
      assert init + [last] == evs;
      KeptLast(s, init, last);
      ExecKept(s, init);
      hide R.FullInv, R.Exec, R.Next, View, After, KeptBy;
      ViewNext(R.Exec(s, init), KeptBy(s, init), last, |s.e.ring|);
    }
  }

  /** Kept and lost together are all that was delivered. */
  lemma {:induction false} KeptAndLost(s: R.Rx, evs: seq<R.Event>)
    requires R.Fits(s)
    ensures |R.Exec(s, evs).e.hw.done| == |KeptBy(s, evs).done| + KeptBy(s, evs).lost
  {
    hide *;
    KeptLast(s, [], R.Cpu);
    if evs != [] {
      var init, last := evs[..|evs| - 1], evs[|evs| - 1];
      assert init + [last] == evs;
      KeptLast(s, init, last);
      KeptAndLost(s, init);
      CountNext(R.Exec(s, init), KeptBy(s, init), last);
    }
  }

  lemma CountNext(s: R.Rx, k: Kept, ev: R.Event)
    requires R.Fits(s) && |s.e.hw.done| == |k.done| + k.lost
    ensures |R.Next(s, ev).e.hw.done| == |After(s, k, ev).done| + After(s, k, ev).lost
  {
    hide R.Arm, R.Harvest, R.DataAddr;
  }

  /** Exactly once, over any run in which every call is for the whole ring and the device may be
      stopped between calls at any time: what callers have been given is, in order, a prefix of the
      deliveries that no stop discarded, and all of them whenever the engine is stopped; a call
      returns exactly what it adds; and each slot reported names the buffer programmed at its index.
      Discarded is exactly what had been delivered and not reported when a stop came. */
  lemma {:induction false} ReportedOrDiscarded(n: nat, base: nat, port: nat, evs: seq<R.Event>)
    requires Placed(base, n) && WholeCalls(evs, n)
    ensures var s := R.Exec(R.Fresh(n, base, port), evs);
            var k := KeptBy(R.Fresh(n, base, port), evs);
            && s.got <= R.Addrs(k.done) && |s.e.hw.done| == |k.done| + k.lost
            && (!s.e.running ==> |s.got| == |k.done|)
            && (s.pc.Returning? ==> |s.got| == s.entry + s.pc.ret && s.pc.ret <= n)
            && (s.e.running ==>
                  && k.mark <= |s.got| <= k.mark + n && |s.bufs| == n
                  && forall j :: k.mark <= j < |s.got| ==>
                       k.done[j].slot == j - k.mark && s.got[j] == R.DataAddr(s.bufs[j - k.mark]))
  {
    hide *;
    R.FreshFull(n, base, port);
    ExecKept(R.Fresh(n, base, port), evs);
    KeptAndLost(R.Fresh(n, base, port), evs);
    ReportedByView(R.Exec(R.Fresh(n, base, port), evs), KeptBy(R.Fresh(n, base, port), evs), n);
  }

  lemma ReportedByView(s: R.Rx, k: Kept, n: nat)
    requires R.FullInv(View(s, k)) && |s.e.ring| == n
    ensures s.got <= R.Addrs(k.done) && (!s.e.running ==> |s.got| == |k.done|)
    ensures s.pc.Returning? ==> |s.got| == s.entry + s.pc.ret && s.pc.ret <= n
    ensures s.e.running ==>
      && k.mark <= |s.got| <= k.mark + n && |s.bufs| == n
      && forall j :: k.mark <= j < |s.got| ==>
           k.done[j].slot == j - k.mark && s.got[j] == R.DataAddr(s.bufs[j - k.mark])
  {
    hide R.FullInv, R.Addrs, R.DataAddr;
    R.ReportedByState(View(s, k));
  }

  /** What a stop between calls loses: the deliveries that have completed and not been reported. */
  lemma {:induction false} StopDiscards(n: nat, base: nat, port: nat, evs: seq<R.Event>)
    requires Placed(base, n) && WholeCalls(evs, n)
    ensures var s := R.Exec(R.Fresh(n, base, port), evs);
            var k := KeptBy(R.Fresh(n, base, port), evs);
            s.pc.Resting? && s.e.running ==>
              && s.e.used <= s.e.hw.completed
              && After(s, k, R.DevStop).lost == k.lost + s.e.hw.completed - s.e.used
              && R.Addrs(After(s, k, R.DevStop).done) == s.got
  {
    R.FreshFull(n, base, port);
    var start := R.Fresh(n, base, port);
    ExecKept(start, evs);
    var s, k := R.Exec(start, evs), KeptBy(start, evs);
    hide R.Exec, KeptBy, R.Fresh, R.Armed;
    if s.pc.Resting? && s.e.running {
      assert R.Addrs(k.done)[..|s.got|] == s.got;
    }
  }
}
