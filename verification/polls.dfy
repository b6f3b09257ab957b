/** What a receive call's polls find: it gives up after 101 of them and not before, and returns what the
    first poll finds whose two reads agree on something new. */
module ReceivePolls {
  import opened Rings
  import opened Engines
  import R = Receiving

  /** The count in shared memory at each step of the driver, in order. */
  function Reads(s: R.Rx, evs: seq<R.Event>): (obs: seq<nat>)
    requires R.Fits(s)
    ensures |obs| == R.CpuSteps(evs)
  {
    if evs == [] then [] else
      var before := Reads(s, evs[..|evs| - 1]);
      if evs[|evs| - 1].Cpu? then before + [R.Exec(s, evs[..|evs| - 1]).e.wb] else before
  }

  /** Poll k consists of reads 2k and 2k + 1. It finds something when they agree on another count than
      the cursor `used`. */
  predicate Finds(obs: seq<nat>, used: nat, k: nat) {
    2 * k + 1 < |obs| && obs[2 * k] == obs[2 * k + 1] != used
  }

  /** The 16-bit return value for a count that has moved on from the cursor. */
  function Gain(used: int, seen: int): nat {
    (seen - used) % 0x1_0000
  }

  predicate NoneBefore(obs: seq<nat>, used: nat, m: nat) {
    forall k: nat :: k < m ==> !Finds(obs, used, k)
  }

  predicate First(obs: seq<nat>, used: nat, k: nat) {
    k <= 100 && Finds(obs, used, k) && NoneBefore(obs, used, k)
  }

  /** Where the call is, given what has been read so far. */
  ghost predicate Follows(r: R.Rx, used: nat, obs: seq<nat>) {
    match r.pc
    case Resting => true
    case Polling(t) =>
      t <= 100 && |obs| == 2 * t && NoneBefore(obs, used, t) && r.e.used == used && |r.got| == r.entry
    case Rereading(t, seen) =>
      && t <= 100 && |obs| == 2 * t + 1 && obs[2 * t] == seen && NoneBefore(obs, used, t)
      && r.e.used == used && |r.got| == r.entry
    case Harvesting(ret, _, upto) =>
      r.e.used == used && exists k: nat :: First(obs, used, k) && upto == obs[2 * k] && ret == Gain(used, upto)
    case Returning(ret) =>
      || (ret == 0 && |obs| == 202 && NoneBefore(obs, used, 101) && r.e.used == used && |r.got| == r.entry)
      || exists k: nat :: First(obs, used, k) && r.e.used == obs[2 * k] && ret == Gain(used, obs[2 * k])
  }

  lemma FirstStays(obs: seq<nat>, used: nat, k: nat, x: nat)
    requires First(obs, used, k)
    ensures First(obs + [x], used, k)
  {
    forall j: nat | j < k
      ensures !Finds(obs + [x], used, j)
    {
      assert !Finds(obs, used, j);
    }
  }

  /** Two more reads. */
  lemma NoneYet(obs: seq<nat>, used: nat, t: nat, x: nat)
    requires NoneBefore(obs, used, t) && 2 * t <= |obs| <= 2 * t + 1
    ensures NoneBefore(obs + [x], used, t)
    ensures |obs| == 2 * t + 1 && (obs[2 * t] != x || x == used) ==> NoneBefore(obs + [x], used, t + 1)
  {
    forall j: nat | j < t
      ensures !Finds(obs + [x], used, j)
    {
      assert !Finds(obs, used, j);
    }
  }

  lemma SearchStep(r: R.Rx, used: nat, obs: seq<nat>)
    requires R.Inv(r) && Follows(r, used, obs) && (r.pc.Polling? || r.pc.Rereading?)
    ensures Follows(R.CpuStep(r), used, obs + [r.e.wb])
  {
    var t := r.pc.tries;
    var more := obs + [r.e.wb];
    NoneYet(obs, used, t, r.e.wb);
    if r.pc.Rereading? && r.pc.seen == r.e.wb != used {
      assert First(more, used, t);
    }
  }

  lemma LaterStep(r: R.Rx, used: nat, obs: seq<nat>)
    requires R.Inv(r) && Follows(r, used, obs) && !r.pc.Polling? && !r.pc.Rereading?
    ensures Follows(R.CpuStep(r), used, obs + [r.e.wb])
  {
    if r.pc.Harvesting? {
      var k: nat :| First(obs, used, k) && r.pc.upto == obs[2 * k] && r.pc.ret == Gain(used, r.pc.upto);
      FirstStays(obs, used, k, r.e.wb);
      assert (obs + [r.e.wb])[2 * k] == obs[2 * k];
    }
  }

  lemma {:induction false} ReadsLast(s: R.Rx, evs: seq<R.Event>)
    requires R.Fits(s)
    ensures if evs == [] then R.Exec(s, evs) == s && Reads(s, evs) == [] else
              var before := R.Exec(s, evs[..|evs| - 1]);
              && R.Exec(s, evs) == R.Next(before, evs[|evs| - 1])
              && (evs[|evs| - 1].Cpu? ==> R.Exec(s, evs) == R.CpuStep(before))
              && Reads(s, evs) ==
                   Reads(s, evs[..|evs| - 1]) + if evs[|evs| - 1].Cpu? then [before.e.wb] else []
  {
    hide R.CpuStep;
  }

  lemma {:induction false} ExecFollows(start: R.Rx, evs: seq<R.Event>)
    requires R.Inv(start) && start.pc == R.Polling(0) && start.entry == |start.got| && R.Quiet(evs)
    ensures R.Inv(R.Exec(start, evs)) && Follows(R.Exec(start, evs), start.e.used, Reads(start, evs))
  {
    ReadsLast(start, evs);
    hide R.Inv, R.Exec, Reads, R.Next;
    if evs != [] {
      var init, last := evs[..|evs| - 1], evs[|evs| - 1];
      ExecFollows(start, init);
      var before, obs := R.Exec(start, init), Reads(start, init);
      R.NextInv(before, last);
      if last.Hw? {
        StepSame(before, last.tick);
      } else if before.pc.Polling? || before.pc.Rereading? {
        SearchStep(before, start.e.used, obs);
      } else {
        LaterStep(before, start.e.used, obs);
      }
    }
  }

  lemma StepSame(s: R.Rx, t: Tick)
    requires R.Inv(s)
    ensures var r := R.Next(s, R.Hw(t)); r.pc == s.pc && r.e.used == s.e.used && r.got == s.got && r.entry == s.entry
  {
    StepSound(s.e, t);
  }

  /** Both counts are at most 64 apart. */
  lemma FoundIsPositive(s: R.Rx, used: nat, seen: nat)
    requires R.Inv(s) && s.e.used == seen != used && used <= |s.e.ring|
    ensures Gain(used, seen) != 0
  {
    assert |s.e.ring| <= 64;
  }

  lemma BeginPolls(s: R.Rx, bufs: seq<R.Mbuf>, nb: nat)
    requires R.Inv(s) && s.pc.Resting? && nb <= |bufs|
    ensures var r := R.Begin(s, bufs, nb);
            && R.Inv(r) && r.pc == R.Polling(0) && r.entry == |r.got| && r.got == s.got && |r.e.ring| == |s.e.ring|
  {
    R.BeginInv(s, bufs, nb);
  }

  lemma {:induction false} SameSize(s: R.Rx, evs: seq<R.Event>)
    requires R.Inv(s) && R.Quiet(evs)
    ensures |R.Exec(s, evs).e.ring| == |s.e.ring|
  {
    R.StepsLeft(s, evs);
  }

  /** A call gives up exactly when it has polled 101 times, two reads each, and none of the polls has found
      anything; otherwise it returns what the first poll found that found something. So it neither gives
      up early nor misses a count that stands still over the two reads of a poll. */
  lemma {:induction false} GivesUpExactlyWhen(s: R.Rx, bufs: seq<R.Mbuf>, nb: nat, evs: seq<R.Event>)
    requires R.Inv(s) && s.pc.Resting? && nb <= |bufs| && R.Quiet(evs)
    requires R.Exec(R.Begin(s, bufs, nb), evs).pc.Returning?
    ensures var start := R.Begin(s, bufs, nb);
            var r, obs := R.Exec(start, evs), Reads(start, evs);
            && (r.pc.ret == 0 <==> |obs| == 202 && NoneBefore(obs, start.e.used, 101))
            && (r.pc.ret == 0 ==> r.got == s.got && r.e.used == start.e.used)
            && (r.pc.ret != 0 ==> exists k: nat :: First(obs, start.e.used, k)
                                     && r.e.used == obs[2 * k] && r.pc.ret == Gain(start.e.used, obs[2 * k]))
  {
    var start := R.Begin(s, bufs, nb);
    BeginPolls(s, bufs, nb);
    assert start.e.used <= |start.e.ring|;
    ExecFollows(start, evs);
    SameSize(start, evs);
    GotGrows(start, evs);
    var r, obs, used := R.Exec(start, evs), Reads(start, evs), start.e.used;
    hide R.Inv, R.Exec, R.Begin, Reads;
    if k: nat :| First(obs, used, k) && r.e.used == obs[2 * k] && r.pc.ret == Gain(used, obs[2 * k]) {
      FoundIsPositive(r, used, obs[2 * k]);
      assert Finds(obs, used, k);
    }
  }

  lemma {:induction false} GotGrows(s: R.Rx, evs: seq<R.Event>)
    requires R.Fits(s) && R.Quiet(evs)
    ensures s.got <= R.Exec(s, evs).got && R.Exec(s, evs).entry == s.entry
  {
    if evs != [] {
      GotGrows(s, evs[..|evs| - 1]);
    }
  }

  /** While a call is still polling it has taken two reads for each poll behind it, and none found anything. */
  lemma {:induction false} StillPolling(s: R.Rx, bufs: seq<R.Mbuf>, nb: nat, evs: seq<R.Event>)
    requires R.Inv(s) && s.pc.Resting? && nb <= |bufs| && R.Quiet(evs)
    requires R.CpuSteps(evs) <= 202
    ensures var start := R.Begin(s, bufs, nb);
            var obs := Reads(start, evs);
            NoneBefore(obs, start.e.used, 101) ==>
              if |obs| < 202 then R.Exec(start, evs).pc.Polling? || R.Exec(start, evs).pc.Rereading?
              else R.Exec(start, evs).pc == R.Returning(0)
  {
    BeginPolls(s, bufs, nb);
    if NoneBefore(Reads(R.Begin(s, bufs, nb), evs), R.Begin(s, bufs, nb).e.used, 101) {
      Searching(R.Begin(s, bufs, nb), evs);
    }
  }

  lemma {:induction false} Searching(start: R.Rx, evs: seq<R.Event>)
    requires R.Inv(start) && start.pc == R.Polling(0) && start.entry == |start.got| && R.Quiet(evs)
    requires R.CpuSteps(evs) <= 202 && NoneBefore(Reads(start, evs), start.e.used, 101)
    ensures var r := R.Exec(start, evs);
            if R.CpuSteps(evs) < 202 then r.pc.Polling? || r.pc.Rereading? else r.pc == R.Returning(0)
  {
    if evs != [] {
      var init, last := evs[..|evs| - 1], evs[|evs| - 1];
      ExecFollows(start, init);
      var obs := Reads(start, init);
      forall k: nat | k < 101
        ensures !Finds(obs, start.e.used, k)
      {
        assert !Finds(Reads(start, evs), start.e.used, k);
      }
      Searching(start, init);
      var before := R.Exec(start, init);
      if last.Hw? {
        StepSame(before, last.tick);
      } else if before.pc.Rereading? {
        assert !Finds(Reads(start, evs), start.e.used, before.pc.tries);
      }
    }
  }
}
