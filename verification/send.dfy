/** The transmit engine as two processes: the driver filling, starting, polling and stopping, and
    the channel hardware running between any two of its steps. */
module Sending {
  import opened Rings
  import opened Engines
  import opened Transmit

  /** Where the driver thread is: outside the transmit routine, in its wait loop, or past it and
      about to stop the engine. */
  datatype Pc = Resting | Waiting(nb: nat) | Leaving(nb: nat)

  /** `batch` is the batch last handed over and `mark` the length of the transfer history then. */
  datatype Tx = Tx(e: Engine, pc: Pc, batch: seq<Packet>, mark: nat)

  /** One step of the whole: the driver thread, the hardware, a call of the transmit routine, or a
      device stop from another thread. */
  datatype Event = Cpu | Hw(tick: Tick) | Call(pkts: seq<Packet>) | DevStop

  predicate Fits(s: Tx) {
    s.e.used < |s.e.ring|
  }

  /** The transmit routine up to its wait loop. It does nothing when the engine is running. */
  function Begin(s: Tx, pkts: seq<Packet>): (r: Tx)
    requires Fits(s)
    ensures Fits(r)
  {
    if s.e.running then s else
      var (ring, used) := Program(s.e.ring, s.e.used, pkts);
      Tx(Start(s.e.(ring := ring, used := used)), Waiting(|pkts|), pkts, |s.e.hw.done|)
  }

  function CpuStep(s: Tx): (r: Tx)
    requires Fits(s)
    ensures Fits(r)
  {
    match s.pc
    case Resting => s
    case Waiting(nb) => if s.e.wb % 0x100_0000 == nb then s.(pc := Leaving(nb)) else s
    case Leaving(_) => s.(e := Stop(s.e), pc := Resting)
  }

  function Next(s: Tx, ev: Event): (r: Tx)
    requires Fits(s)
    ensures Fits(r)
  {
    match ev
    case Cpu => CpuStep(s)
    case Hw(t) => s.(e := Step(s.e, t))
    case Call(pkts) => if s.pc.Resting? then Begin(s, pkts) else s
    case DevStop => s.(e := Stop(s.e))
  }

  function Exec(s: Tx, evs: seq<Event>): (r: Tx)
    requires Fits(s)
    ensures Fits(r)
  {
    if evs == [] then s else Next(Exec(s, evs[..|evs| - 1]), evs[|evs| - 1])
  }

  function Fresh(n: nat, base: nat): Tx {
    Tx(Setup(H2C, n, base), Resting, [], 0)
  }

  function Taken(batch: seq<Packet>, n: nat): seq<Item> {
    Flat(batch[..Accepted(batch, n)])
  }

  /** The transfers that carry out `items`, in order, once each. */
  function Carried(items: seq<Item>): seq<Transfer> {
    seq(|items|, k requires 0 <= k < |items| => Transfer(k, items[k].addr, items[k].len))
  }

  /** How far the count can go when no empty descriptor is counted: a full ring carries its stop
      mark on slot 0. */
  function Limit(items: seq<Item>, n: nat): nat {
    if |items| < n then |items| else 1
  }

  /** While a batch is out: the ring describes it, and what has been transferred since it was handed
      over is a prefix of it, plus at most the empty stop mark. */
  predicate InFlight(e: Engine, items: seq<Item>, count: nat, mark: nat) {
    && Seen(e.ring, e.base, items, count)
    && |e.hw.done| == mark + e.hw.completed
    && e.hw.completed <= Limit(items, |e.ring|) + 1
    && (e.hw.completed > Limit(items, |e.ring|) ==> |items| < |e.ring|)
    && (e.hw.busy ==> if |items| < |e.ring| then e.hw.completed <= |items| else e.hw.completed == 0)
    && (forall k :: 0 <= k < e.hw.completed && k < |items| ==> e.hw.done[mark + k] == Carried(items)[k])
    && (e.hw.completed == |items| + 1 ==> e.hw.done[mark + |items|].len == 0)
  }

  predicate Inv(s: Tx) {
    && Sound(s.e) && s.e.dir == H2C && Fits(s)
    && (s.pc.Resting? ==> !s.e.running)
    && (s.e.running ==>
          && s.pc.nb == |s.batch| && AllWellFormed(s.batch)
          && InFlight(s.e, Taken(s.batch, |s.e.ring|), Accepted(s.batch, |s.e.ring|), s.mark)
          && (s.pc.Leaving? ==> s.e.hw.completed >= s.pc.nb))
  }

  /** The packets of every call are as the library makes them. */
  predicate Proper(evs: seq<Event>) {
    forall k :: 0 <= k < |evs| ==> evs[k].Call? ==> AllWellFormed(evs[k].pkts)
  }

  lemma FreshInv(n: nat, base: nat)
    requires Placed(base, n)
    ensures Inv(Fresh(n, base))
  {
    SetupSound(H2C, n, base);
  }

  lemma BeginInv(s: Tx, pkts: seq<Packet>)
    requires Inv(s) && s.pc.Resting? && AllWellFormed(pkts)
    ensures Inv(Begin(s, pkts))
  {
    ProgramSeen(s.e.ring, s.e.base, pkts);
    var items := Taken(pkts, |s.e.ring|);
    AcceptedFits(pkts, |s.e.ring|);
    var r := Begin(s, pkts);
    hide Program, Flat, Accepted;
    assert InFlight(r.e, items, Accepted(pkts, |r.e.ring|), r.mark);
    LocateSlot(r.e.base, |r.e.ring|, 0);
  }

  lemma StepInFlight(e: Engine, t: Tick, items: seq<Item>, count: nat, mark: nat)
    requires Sound(e) && e.dir == H2C && InFlight(e, items, count, mark)
    ensures InFlight(Step(e, t), items, count, mark)
  {
    StepSound(e, t);
  }

  lemma HwInv(s: Tx, t: Tick)
    requires Inv(s)
    ensures Inv(Next(s, Hw(t)))
    ensures Step(s.e, t).hw.completed >= s.e.hw.completed
  {
    StepSound(s.e, t);
    if s.e.running {
      StepInFlight(s.e, t, Taken(s.batch, |s.e.ring|), Accepted(s.batch, |s.e.ring|), s.mark);
    }
  }

  lemma NextInv(s: Tx, ev: Event)
    requires Inv(s) && (ev.Call? ==> AllWellFormed(ev.pkts))
    ensures Inv(Next(s, ev))
  {
    match ev {
      case Hw(t) => HwInv(s, t);
      case Call(pkts) => if s.pc.Resting? { BeginInv(s, pkts); }
      case Cpu => StopSound(s.e);
      case DevStop => StopSound(s.e);
    }
  }

  lemma {:induction false} ExecInv(s: Tx, evs: seq<Event>)
    requires Inv(s) && Proper(evs)
    ensures Inv(Exec(s, evs))
  {
    if evs != [] {
      ExecInv(s, evs[..|evs| - 1]);
      NextInv(Exec(s, evs[..|evs| - 1]), evs[|evs| - 1]);
    }
  }

  // ---------------------------------------------------------------- what an exit means

  predicate AllSingle(pkts: seq<Packet>) {
    forall k :: 0 <= k < |pkts| ==> pkts[k].nbSegs == 1
  }

  lemma {:induction false} SinglesCount(pkts: seq<Packet>)
    requires AllWellFormed(pkts)
    ensures |pkts| <= SumSegs(pkts) && (AllSingle(pkts) <==> SumSegs(pkts) == |pkts|)
  {
    if pkts != [] {
      var init, last := pkts[..|pkts| - 1], pkts[|pkts| - 1];
      SinglesCount(init);
      if SumSegs(pkts) == |pkts| {
        assert pkts == init + [last];
      }
    }
  }

  /** Whether the wait loop has been left for a batch that is still in the ring. */
  predicate Exited(s: Tx) {
    s.pc.Leaving? && s.e.running
  }

  /** The transfers since the batch was handed over. */
  function SinceMark(s: Tx): seq<Transfer>
    requires s.mark <= |s.e.hw.done|
  {
    s.e.hw.done[s.mark..]
  }

  /** Transmit completion, over the whole life of the engine: whatever calls, stops and hardware
      steps came before, once the wait loop is left for a batch of single-segment packets that
      leaves a descriptor free, exactly its packets have been transferred, once each and in order;
      beyond them there is at most the empty stop mark. */
  lemma {:induction false} SentExactly(n: nat, base: nat, evs: seq<Event>)
    requires Placed(base, n) && Proper(evs)
    ensures var s := Exec(Fresh(n, base), evs);
            Exited(s) && AllSingle(s.batch) && |s.batch| < n ==>
              && s.mark <= |s.e.hw.done|
              && var sent := SinceMark(s);
                 && |s.batch| <= |sent| <= |s.batch| + 1
                 && sent[..|s.batch|] == Carried(Flat(s.batch))
                 && (|sent| > |s.batch| ==> sent[|s.batch|].len == 0)
  {
    FreshInv(n, base);
    ExecInv(Fresh(n, base), evs);
    var s := Exec(Fresh(n, base), evs);
    ExecRing(Fresh(n, base), evs);
    if Exited(s) && AllSingle(s.batch) && |s.batch| < n {
      ExitSent(s);
    }
  }

  lemma ExitSent(s: Tx)
    requires Inv(s) && Exited(s) && AllSingle(s.batch) && |s.batch| < |s.e.ring|
    ensures && s.mark <= |s.e.hw.done|
            && var sent := SinceMark(s);
               && |s.batch| <= |sent| <= |s.batch| + 1
               && sent[..|s.batch|] == Carried(Flat(s.batch))
               && (|sent| > |s.batch| ==> sent[|s.batch|].len == 0)
  {
    var n := |s.e.ring|;
    SinglesCount(s.batch);
    AcceptedFits(s.batch, n);
    FlatLength(s.batch);
    assert s.batch[..|s.batch|] == s.batch;
    assert Taken(s.batch, n) == Flat(s.batch);
    assert SinceMark(s)[..|s.batch|] == Carried(Flat(s.batch));
  }

  /** A batch of single-segment packets that fills the ring is never left. */
  lemma ExitShort(s: Tx)
    requires Inv(s) && Exited(s) && AllSingle(s.batch) && s.batch != []
    ensures |s.batch| < |s.e.ring|
  {
    SinglesTaken(s.batch, |s.e.ring|);
    hide Taken, Accepted, AllSingle, WellFormed;
  }

  /** Without a device stop the transfer history only grows, and the engine runs until the call is over. */
  lemma {:induction false} ExecHistory(s: Tx, evs: seq<Event>)
    requires Fits(s) && Quiet(evs) && (s.pc.Resting? || s.e.running)
    ensures s.e.hw.done <= Exec(s, evs).e.hw.done
    ensures Exec(s, evs).pc.Resting? || Exec(s, evs).e.running
  {
    if evs != [] {
      ExecHistory(s, evs[..|evs| - 1]);
    }
  }

  lemma {:induction false} ExecRing(s: Tx, evs: seq<Event>)
    requires Inv(s) && Proper(evs)
    ensures |Exec(s, evs).e.ring| == |s.e.ring| && Exec(s, evs).e.base == s.e.base
  {
    if evs != [] {
      var before := Exec(s, evs[..|evs| - 1]);
      ExecRing(s, evs[..|evs| - 1]);
      ExecInv(s, evs[..|evs| - 1]);
      match evs[|evs| - 1] {
        case Hw(t) => StepSound(before.e, t);
        case _ =>
      }
    }
  }

  // ---------------------------------------------------------------- progress

  /** Driver and hardware only. */
  predicate Quiet(evs: seq<Event>) {
    forall k :: 0 <= k < |evs| ==> evs[k].Cpu? || evs[k].Hw?
  }

  /** Driver and hardware only, and an empty descriptor is counted only if `counts` allows it. */
  predicate Allowed(evs: seq<Event>, counts: bool) {
    Quiet(evs) && forall k :: 0 <= k < |evs| ==> evs[k].Hw? && evs[k].tick.countsEmpty ==> counts
  }

  lemma {:induction false} ExecMark(s: Tx, evs: seq<Event>)
    requires Fits(s) && Quiet(evs)
    ensures Exec(s, evs).mark == s.mark && Exec(s, evs).batch == s.batch
  {
    if evs != [] {
      ExecMark(s, evs[..|evs| - 1]);
    }
  }

  function Ticks(evs: seq<Event>): nat {
    if evs == [] then 0 else Ticks(evs[..|evs| - 1]) + if evs[|evs| - 1].Hw? then 1 else 0
  }

  predicate Loaded(items: seq<Item>) {
    forall k :: 0 <= k < |items| ==> items[k].len > 0
  }

  /** How many items come before the first empty one. */
  function Leading(items: seq<Item>): (k: nat)
    ensures k <= |items| && (forall j :: 0 <= j < k ==> items[j].len > 0) && (k < |items| ==> items[k].len == 0)
    ensures k == |items| <==> Loaded(items)
  {
    if items == [] || items[0].len == 0 then 0 else 1 + Leading(items[1..])
  }

  /** How far the count can go. A channel that counts empty descriptors runs up to the stop mark and
      counts it too when it is empty; one that does not halts before the first empty descriptor. A
      full ring carries its stop mark on slot 0. */
  function Ceiling(items: seq<Item>, n: nat, counts: bool): (c: nat)
    ensures c <= Limit(items, n) + 1 && (|items| >= n ==> c <= 1)
  {
    if counts then if |items| < n then |items| + 1 else 1
    else Min(Leading(items), if |items| < n then |items| else 1)
  }

  /** After `t` hardware steps that all treat empty descriptors alike the count is `t`, up to the
      ceiling, for as long as the driver waits. */
  predicate Progress(s: Tx, batch: seq<Packet>, n: nat, t: nat, counts: bool) {
    s.pc.Waiting? ==>
      var c := Ceiling(Taken(batch, n), n, counts);
      && s.e.running && s.batch == batch
      && s.e.hw.completed == Min(t, c) && (t < c ==> s.e.hw.busy)
  }

  /** One hardware step, `done` descriptors into the ring. */
  lemma StepCounts(e: Engine, t: Tick, items: seq<Item>, count: nat, mark: nat, done: nat)
    requires Sound(e) && e.dir == H2C && e.running && InFlight(e, items, count, mark)
    requires var c := Ceiling(items, |e.ring|, t.countsEmpty);
             e.hw.completed == Min(done, c) && (done < c ==> e.hw.busy)
    ensures var c := Ceiling(items, |e.ring|, t.countsEmpty);
            var r := Step(e, t);
            && r.running && r.hw.completed == Min(done + 1, c) && (done + 1 < c ==> r.hw.busy)
  {
    hide Leading;
    StepSound(e, t);
    LocateSlot(e.base, |e.ring|, e.hw.completed);
  }

  lemma StepProgress(s: Tx, t: Tick, batch: seq<Packet>, n: nat, ticks: nat)
    requires Inv(s) && |s.e.ring| == n && Progress(s, batch, n, ticks, t.countsEmpty)
    ensures Progress(Next(s, Hw(t)), batch, n, ticks + 1, t.countsEmpty)
  {
    if s.pc.Waiting? {
      var items := Taken(batch, n);
      hide Taken, Ceiling, InFlight;
      StepCounts(s.e, t, items, Accepted(batch, n), s.mark, ticks);
    }
  }

  /** Every hardware step treats empty descriptors in the same way. */
  predicate Uniform(evs: seq<Event>, counts: bool) {
    Quiet(evs) && forall k :: 0 <= k < |evs| ==> evs[k].Hw? ==> evs[k].tick.countsEmpty == counts
  }

  lemma BeginProgress(s0: Tx, pkts: seq<Packet>, counts: bool)
    requires Inv(s0) && s0.pc.Resting? && AllWellFormed(pkts)
    ensures Inv(Begin(s0, pkts)) && Progress(Begin(s0, pkts), pkts, |s0.e.ring|, 0, counts)
    ensures Begin(s0, pkts).mark == |s0.e.hw.done| && Begin(s0, pkts).batch == pkts
    ensures Begin(s0, pkts).pc == Waiting(|pkts|) && Begin(s0, pkts).e.running
    ensures |Begin(s0, pkts).e.ring| == |s0.e.ring|
  {
    BeginInv(s0, pkts);
    hide Program, Taken, Accepted;
  }

  lemma {:induction false} ExecProgress(s0: Tx, pkts: seq<Packet>, evs: seq<Event>, counts: bool)
    requires Inv(s0) && s0.pc.Resting? && AllWellFormed(pkts) && Uniform(evs, counts)
    ensures Along(s0, pkts, Exec(Begin(s0, pkts), evs), Ticks(evs), counts)
  {
    BeginProgress(s0, pkts, counts);
    ExecLast(Begin(s0, pkts), evs);
    hide Inv, Begin, Exec, Progress;
    if evs != [] {
      var init, last := evs[..|evs| - 1], evs[|evs| - 1];
      ExecProgress(s0, pkts, init, counts);
      AlongNext(s0, pkts, Exec(Begin(s0, pkts), init), last, Ticks(init), counts);
    }
  }

  /** Everything known of a state `t` such hardware steps into a batch. */
  predicate Along(s0: Tx, pkts: seq<Packet>, s: Tx, t: nat, counts: bool) {
    && Inv(s) && |s.e.ring| == |s0.e.ring| && Progress(s, pkts, |s0.e.ring|, t, counts)
    && s.mark == |s0.e.hw.done| && s.batch == pkts
  }

  lemma AlongNext(s0: Tx, pkts: seq<Packet>, s: Tx, ev: Event, t: nat, counts: bool)
    requires Along(s0, pkts, s, t, counts) && (ev.Cpu? || (ev.Hw? && ev.tick.countsEmpty == counts))
    ensures Along(s0, pkts, Next(s, ev), t + if ev.Hw? then 1 else 0, counts)
  {
    NextInv(s, ev);
    if ev.Hw? {
      StepSound(s.e, ev.tick);
      StepProgress(s, ev.tick, pkts, |s0.e.ring|, t);
    }
    hide Inv, Ceiling, Taken;
  }

  /** What one poll finds while the driver waits. */
  lemma Poll(s: Tx)
    requires Inv(s) && s.pc.Waiting? && s.e.running && |s.batch| < 0x1_0000
    ensures CpuStep(s) == (if s.e.wb == |s.batch| then s.(pc := Leaving(|s.batch|)) else s)
    ensures s.e.wb == |s.batch| ==> Exited(CpuStep(s))
    ensures |s.e.hw.done| == s.mark + s.e.hw.completed && s.e.wb <= s.e.hw.completed
  {
    hide Taken, Accepted, Seen, Linked, AllWellFormed;
    assert s.e.wb <= 64 && s.pc.nb == |s.batch|;
    SmallMod(s.e.wb, 0x100_0000);
    hide Inv;
  }

  /** The driver finds the count the channel has. */
  predicate CountExact(e: Engine) {
    e.hw.wbTo == CountSlot(e.base, |e.ring|) && e.wb == e.hw.completed
  }

  /** A channel that reports every descriptor keeps it so. */
  lemma {:induction false} HwOnlyExact(s: Tx, k: nat, counts: bool)
    requires Fits(s) && CountExact(s.e)
    ensures CountExact(Exec(s, HwOnly(k, counts)).e)
  {
    ExecOne(s, [], Cpu);
    HwOnlyLast(k, counts);
    if k > 0 {
      HwOnlyExact(s, k - 1, counts);
      ExecOne(s, HwOnly(k - 1, counts), Hw(Tick(counts, 0, true)));
      hide HwOnly, Exec;
    }
  }

  lemma {:induction false} SinglesEop(pkts: seq<Packet>)
    requires AllWellFormed(pkts) && AllSingle(pkts)
    ensures forall k :: 0 <= k < |Flat(pkts)| ==> Flat(pkts)[k].eop
  {
    if pkts != [] {
      SinglesEop(pkts[..|pkts| - 1]);
    }
  }

  /** So does any channel while a batch of single-segment packets is out, since every descriptor of it
      says COMPLETED, the stop mark included. */
  lemma {:induction false} SinglesExact(s: Tx)
    requires Inv(s) && s.e.running && AllSingle(s.batch)
    ensures CountExact(s.e)
  {
    var n := |s.e.ring|;
    var taken := s.batch[..Accepted(s.batch, n)];
    assert AllWellFormed(taken) && AllSingle(taken);
    SinglesEop(taken);
    hide Accepted, Flat, AllSingle, AllWellFormed;
  }

  /** Some schedule takes the driver out of the wait loop. */
  ghost predicate ExitReachable(s: Tx, counts: bool)
    requires Fits(s)
  {
    exists evs :: Allowed(evs, counts) && !Exec(s, evs).pc.Waiting?
  }

  /** `k` hardware steps and nothing else. */
  function HwOnly(k: nat, counts: bool): (evs: seq<Event>)
    ensures |evs| == k && Uniform(evs, counts) && Allowed(evs, counts)
  {
    seq(k, _ => Hw(Tick(counts, 0, true)))
  }

  lemma HwOnlyLast(k: nat, counts: bool)
    ensures k == 0 ==> HwOnly(k, counts) == []
    ensures k > 0 ==> HwOnly(k, counts) == HwOnly(k - 1, counts) + [Hw(Tick(counts, 0, true))]
  {
  }

  lemma {:induction false} HwOnlyWaits(s: Tx, k: nat, counts: bool)
    requires Fits(s)
    ensures Exec(s, HwOnly(k, counts)).pc == s.pc && Ticks(HwOnly(k, counts)) == k
  {
    if k > 0 {
      HwOnlyWaits(s, k - 1, counts);
      HwOnlyLast(k, counts);
      hide HwOnly;
    }
  }

  lemma {:induction false} ExecLast(s: Tx, evs: seq<Event>)
    requires Fits(s)
    ensures if evs == [] then Exec(s, evs) == s
            else Exec(s, evs) == Next(Exec(s, evs[..|evs| - 1]), evs[|evs| - 1])
  {
  }

  lemma {:induction false} ExecOne(s: Tx, evs: seq<Event>, ev: Event)
    requires Fits(s)
    ensures Exec(s, evs + [ev]) == Next(Exec(s, evs), ev)
    ensures Exec(s, []) == s
  {
    assert (evs + [ev])[..|evs|] == evs;
  }

  lemma {:induction false} TicksOne(evs: seq<Event>, ev: Event)
    ensures Ticks(evs + [ev]) == Ticks(evs) + if ev.Hw? then 1 else 0
  {
    assert (evs + [ev])[..|evs|] == evs;
  }

  lemma AllowedOne(evs: seq<Event>, ev: Event, counts: bool)
    requires Allowed(evs, counts) && (ev.Cpu? || (ev.Hw? && (ev.tick.countsEmpty ==> counts)))
    ensures Allowed(evs + [ev], counts)
  {
  }

  lemma BeginExact(s0: Tx, pkts: seq<Packet>)
    requires Inv(s0) && s0.pc.Resting? && AllWellFormed(pkts)
    ensures CountExact(Begin(s0, pkts).e)
  {
    hide Program;
  }

  /** After as many undisturbed hardware steps as there are packets, and one poll. */
  lemma TicksThenPoll(s0: Tx, pkts: seq<Packet>, counts: bool)
    requires Inv(s0) && s0.pc.Resting? && AllWellFormed(pkts) && |pkts| < 0x1_0000
    requires |pkts| <= Ceiling(Taken(pkts, |s0.e.ring|), |s0.e.ring|, counts)
    ensures var evs := HwOnly(|pkts|, counts) + [Cpu];
            var s := Exec(Begin(s0, pkts), evs);
            && Allowed(evs, counts) && s.pc == Leaving(|pkts|)
            && Exited(s) && s.e.hw.completed == |pkts| && |s.e.hw.done| == |s0.e.hw.done| + |pkts|
  {
    var k := |pkts|;
    BeginProgress(s0, pkts, counts);
    var start := Begin(s0, pkts);
    BeginExact(s0, pkts);
    hide Inv, Begin, Taken, Ceiling, Exec, Ticks, Allowed, HwOnly, Uniform;
    HwOnlyWaits(start, k, counts);
    HwOnlyExact(start, k, counts);
    ExecProgress(s0, pkts, HwOnly(k, counts), counts);
    ExecOne(start, HwOnly(k, counts), Cpu);
    AllowedOne(HwOnly(k, counts), Cpu, counts);
    Poll(Exec(start, HwOnly(k, counts)));
  }

  /** The count never passes the ceiling while the driver waits. */
  lemma {:induction false} CountBelow(s0: Tx, pkts: seq<Packet>, evs: seq<Event>, counts: bool)
    requires Inv(s0) && s0.pc.Resting? && AllWellFormed(pkts) && Allowed(evs, counts)
    ensures var s := Exec(Begin(s0, pkts), evs);
            && Inv(s) && (s.pc.Waiting? ==> s.e.running)
            && (s.pc.Waiting? ==> s.e.hw.completed <= Ceiling(Taken(pkts, |s0.e.ring|), |s0.e.ring|, counts))
  {
    BeginProgress(s0, pkts, counts);
    ExecInv(Begin(s0, pkts), evs);
    ExecHistory(Begin(s0, pkts), evs);
    if counts {
      ExecRing(Begin(s0, pkts), evs);
      ExecMark(Begin(s0, pkts), evs);
      hide Leading, Taken, Begin, Exec;
    } else {
      ExecProgress(s0, pkts, evs, counts);
      hide Inv, Leading, Taken, Begin, Exec, Ceiling;
    }
  }

  lemma {:induction false} NoExitBeyond(s0: Tx, pkts: seq<Packet>, evs: seq<Event>, counts: bool)
    requires Inv(s0) && s0.pc.Resting? && AllWellFormed(pkts) && Allowed(evs, counts) && |pkts| < 0x1_0000
    requires |pkts| > Ceiling(Taken(pkts, |s0.e.ring|), |s0.e.ring|, counts)
    ensures Exec(Begin(s0, pkts), evs).pc == Waiting(|pkts|)
  {
    BeginProgress(s0, pkts, counts);
    if evs != [] {
      var init := evs[..|evs| - 1];
      NoExitBeyond(s0, pkts, init, counts);
      CountBelow(s0, pkts, init, counts);
      ExecMark(Begin(s0, pkts), init);
      var s := Exec(Begin(s0, pkts), init);
      hide Inv, Begin, Taken, Ceiling;
      Poll(s);
    }
  }

  lemma SomeFits(s: Tx)
    requires Inv(s)
    ensures Fits(s)
  {
  }

  /** For any batch at all, and channels of either kind: the wait loop can be left exactly when the
      packet count it waits for is within what the programmed descriptors can complete. */
  lemma ExitBoundary(s0: Tx, pkts: seq<Packet>, counts: bool)
    requires Inv(s0) && s0.pc.Resting? && AllWellFormed(pkts) && |pkts| < 0x1_0000
    ensures ExitReachable(Begin(s0, pkts), counts) <==>
            |pkts| <= Ceiling(Taken(pkts, |s0.e.ring|), |s0.e.ring|, counts)
  {
    SomeFits(s0);
    hide Taken, Ceiling, Inv;
    if |pkts| <= Ceiling(Taken(pkts, |s0.e.ring|), |s0.e.ring|, counts) {
      TicksThenPoll(s0, pkts, counts);
      assert !Exec(Begin(s0, pkts), HwOnly(|pkts|, counts) + [Cpu]).pc.Waiting?;
    } else {
      forall evs | Allowed(evs, counts)
        ensures Exec(Begin(s0, pkts), evs).pc.Waiting?
      {
        NoExitBeyond(s0, pkts, evs, counts);
      }
    }
  }

  lemma {:induction false} SinglesTaken(pkts: seq<Packet>, n: nat)
    requires AllWellFormed(pkts) && AllSingle(pkts) && 2 <= n
    ensures |pkts| < n ==> Taken(pkts, n) == Flat(pkts) && |Flat(pkts)| == |pkts|
    ensures |pkts| >= n ==> |Taken(pkts, n)| == n
  {
    SinglesCount(pkts);
    AcceptedFits(pkts, n);
    AcceptsLongestPrefix(pkts, n);
    FlatLength(pkts);
    assert pkts[..|pkts|] == pkts;
    var c := Accepted(pkts, n);
    SinglesCount(pkts[..c]);
    FlatLength(pkts[..c]);
    if c < |pkts| {
      SinglesCount(pkts[..c + 1]);
    }
  }

  /** The exact boundary for single-segment packets: the wait loop can be left if and only if the
      batch is smaller than the ring and, on a channel that does not count empty descriptors, has no
      empty packet. */
  lemma SingleSegmentBoundary(s0: Tx, pkts: seq<Packet>, counts: bool)
    requires Inv(s0) && s0.pc.Resting? && AllWellFormed(pkts) && AllSingle(pkts) && |pkts| < 0x1_0000
    ensures ExitReachable(Begin(s0, pkts), counts) <==>
            |pkts| < |s0.e.ring| && (counts || Loaded(Taken(pkts, |s0.e.ring|)))
  {
    SinglesTaken(pkts, |s0.e.ring|);
    ExitBoundary(s0, pkts, counts);
    assert |s0.e.ring| >= 2;
    hide Taken, Leading, Loaded;
  }

  /** Every exit under every schedule finds all segments of the batch transferred. */
  ghost predicate AlwaysComplete(s: Tx, segs: nat, counts: bool)
    requires Fits(s)
  {
    forall evs :: Allowed(evs, counts) && Exited(Exec(s, evs)) ==> |Exec(s, evs).e.hw.done| >= s.mark + segs
  }

  lemma {:induction false} ExitAtLeast(s: Tx, evs: seq<Event>)
    requires Inv(s) && Quiet(evs) && Exited(Exec(s, evs))
    ensures |Exec(s, evs).e.hw.done| >= s.mark + |s.batch|
  {
    ExecInv(s, evs);
    ExecMark(s, evs);
  }

  /** The wait loop compares a packet count with a descriptor count. So for any batch, on channels of
      either kind, leaving it means that the whole batch was transferred exactly when every packet has
      one segment, or when it cannot be left. */
  lemma {:induction false} CompletionNeedsSingleSegments(s0: Tx, pkts: seq<Packet>, counts: bool)
    requires Inv(s0) && s0.pc.Resting? && AllWellFormed(pkts) && |pkts| < 0x1_0000
    ensures AlwaysComplete(Begin(s0, pkts), SumSegs(pkts), counts) <==>
            AllSingle(pkts) || |pkts| > Ceiling(Taken(pkts, |s0.e.ring|), |s0.e.ring|, counts)
  {
    SinglesCount(pkts);
    BeginProgress(s0, pkts, counts);
    var s := Begin(s0, pkts);
    hide Inv, Taken, Ceiling, Begin, AllSingle;
    if |pkts| > Ceiling(Taken(pkts, |s0.e.ring|), |s0.e.ring|, counts) {
      forall evs | Allowed(evs, counts)
        ensures !Exited(Exec(s, evs))
      {
        NoExitBeyond(s0, pkts, evs, counts);
      }
    } else if AllSingle(pkts) {
      forall evs | Allowed(evs, counts) && Exited(Exec(s, evs))
        ensures |Exec(s, evs).e.hw.done| >= s.mark + SumSegs(pkts)
      {
        ExitAtLeast(s, evs);
      }
    } else {
      TicksThenPoll(s0, pkts, counts);
      var evs := HwOnly(|pkts|, counts) + [Cpu];
      assert Allowed(evs, counts) && Exited(Exec(s, evs)) && |Exec(s, evs).e.hw.done| < s.mark + SumSegs(pkts);
    }
  }

  // ---------------------------------------------------------------- the value returned

  /** Whenever a call is about to return, its value is the number of packets it accepted if and only
      if all segments of the batch fit the ring. */
  lemma {:induction false} ReturnValue(s0: Tx, pkts: seq<Packet>, evs: seq<Event>)
    requires Inv(s0) && s0.pc.Resting? && AllWellFormed(pkts) && Quiet(evs)
    requires Exec(Begin(s0, pkts), evs).pc.Leaving?
    ensures Exec(Begin(s0, pkts), evs).pc.nb == Accepted(pkts, |s0.e.ring|) <==> SumSegs(pkts) <= |s0.e.ring|
  {
    BeginProgress(s0, pkts, true);
    ExecInv(Begin(s0, pkts), evs);
    ExecMark(Begin(s0, pkts), evs);
    ExecHistory(Begin(s0, pkts), evs);
    AcceptedFits(pkts, |s0.e.ring|);
    hide Taken, Accepted, Exec, Begin;
  }

  /** Some schedule makes the call return a count that it has not accepted. */
  ghost predicate Misreports(s0: Tx, pkts: seq<Packet>, counts: bool)
    requires Fits(s0)
  {
    exists evs :: Allowed(evs, counts) && Exec(Begin(s0, pkts), evs).pc.Leaving? &&
                  Exec(Begin(s0, pkts), evs).pc.nb != Accepted(pkts, |s0.e.ring|)
  }

  /** Exactly the batches that overflow the ring and can still be left do that. */
  lemma {:induction false} MisreportsOverflow(s0: Tx, pkts: seq<Packet>, counts: bool)
    requires Inv(s0) && s0.pc.Resting? && AllWellFormed(pkts) && |pkts| < 0x1_0000
    ensures Misreports(s0, pkts, counts) <==>
            SumSegs(pkts) > |s0.e.ring| && |pkts| <= Ceiling(Taken(pkts, |s0.e.ring|), |s0.e.ring|, counts)
  {
    SomeFits(s0);
    hide Taken, Ceiling, Inv, Begin;
    if |pkts| <= Ceiling(Taken(pkts, |s0.e.ring|), |s0.e.ring|, counts) {
      TicksThenPoll(s0, pkts, counts);
      var evs := HwOnly(|pkts|, counts) + [Cpu];
      assert Quiet(evs);
      ReturnValue(s0, pkts, evs);
      forall evs | Allowed(evs, counts) && Exec(Begin(s0, pkts), evs).pc.Leaving?
        ensures Exec(Begin(s0, pkts), evs).pc.nb == Accepted(pkts, |s0.e.ring|) <==> SumSegs(pkts) <= |s0.e.ring|
      {
        ReturnValue(s0, pkts, evs);
      }
    } else {
      forall evs | Allowed(evs, counts)
        ensures Exec(Begin(s0, pkts), evs).pc.Waiting?
      {
        NoExitBeyond(s0, pkts, evs, counts);
      }
    }
  }

  /** Two packets of two and three segments on a fresh ring of four: one is accepted and sent, the
      other dropped, and the call returns 2. */
  lemma TwoReportedOneSent(base: nat, a: Segment, b: Segment)
    requires Placed(base, 4) && a.len > 0 && b.len > 0
    ensures var pkts := [Packet(2, [a, b]), Packet(3, [a, b, a])];
            var s0 := Fresh(4, base);
            Accepted(pkts, 4) == 1 && Misreports(s0, pkts, false)
  {
    var p, q := Packet(2, [a, b]), Packet(3, [a, b, a]);
    var pkts := [p, q];
    assert pkts[1..] == [q];
    assert Accepted(pkts, 4) == 1;
    assert pkts[..1] == [p] && [p][..0] == [];
    assert Flat([]) == [] && Flat([p]) == Flat([]) + Transmit.Items(p) == Transmit.Items(p);
    assert SumSegs(pkts) == SumSegs([p]) + 3 == 5 by { assert [p] == pkts[..1]; }
    assert Loaded(Taken(pkts, 4));
    FreshInv(4, base);
    MisreportsOverflow(Fresh(4, base), pkts, false);
  }

  // ---------------------------------------------------------------- inevitability

  /** While the driver waits, the count follows the hardware, and may pass the batch by the stop mark. */
  predicate Counted(s: Tx, k: nat, t: nat) {
    s.pc.Waiting? ==>
      && s.e.running && (t < k ==> s.e.hw.busy && s.e.hw.completed == t)
      && (t >= k ==> k <= s.e.hw.completed <= k + 1)
  }

  lemma StepCounted(s: Tx, t: Tick, k: nat, ticks: nat)
    requires Inv(s) && Counted(s, k, ticks) && Loaded(Taken(s.batch, |s.e.ring|))
    requires |Taken(s.batch, |s.e.ring|)| == k < |s.e.ring|
    ensures Counted(Next(s, Hw(t)), k, ticks + 1)
  {
    if s.pc.Waiting? {
      StepSound(s.e, t);
      LocateSlot(s.e.base, |s.e.ring|, s.e.hw.completed);
      HwInv(s, t);
      var items := Taken(s.batch, |s.e.ring|);
      hide Taken;
      assert InFlight(s.e, items, Accepted(s.batch, |s.e.ring|), s.mark);
      assert InFlight(Step(s.e, t), items, Accepted(s.batch, |s.e.ring|), s.mark);
    }
  }

  lemma {:induction false} ExecCounted(s0: Tx, pkts: seq<Packet>, evs: seq<Event>)
    requires Inv(s0) && s0.pc.Resting? && AllWellFormed(pkts) && Quiet(evs)
    requires Loaded(Taken(pkts, |s0.e.ring|)) && |Taken(pkts, |s0.e.ring|)| < |s0.e.ring|
    ensures var s := Exec(Begin(s0, pkts), evs);
            && Inv(s) && s.batch == pkts && |s.e.ring| == |s0.e.ring|
            && Counted(s, |Taken(pkts, |s0.e.ring|)|, Ticks(evs))
  {
    BeginProgress(s0, pkts, false);
    ExecLast(Begin(s0, pkts), evs);
    BeginBusy(s0, pkts);
    hide Inv, Taken, Begin, Loaded, Exec, Counted;
    if evs != [] {
      var init, last := evs[..|evs| - 1], evs[|evs| - 1];
      ExecCounted(s0, pkts, init);
      CountedNext(Exec(Begin(s0, pkts), init), last, |Taken(pkts, |s0.e.ring|)|, Ticks(init));
    }
  }

  lemma CountedNext(s: Tx, ev: Event, k: nat, ticks: nat)
    requires Inv(s) && Counted(s, k, ticks) && Loaded(Taken(s.batch, |s.e.ring|)) && (ev.Hw? || ev.Cpu?)
    requires |Taken(s.batch, |s.e.ring|)| == k < |s.e.ring|
    ensures var r := Next(s, ev);
            && Inv(r) && r.batch == s.batch && |r.e.ring| == |s.e.ring|
            && Counted(r, k, ticks + if ev.Hw? then 1 else 0)
  {
    NextInv(s, ev);
    if ev.Hw? {
      StepSound(s.e, ev.tick);
      StepCounted(s, ev.tick, k, ticks);
    }
    hide Inv, Taken, Loaded;
  }

  lemma BeginBusy(s0: Tx, pkts: seq<Packet>)
    requires Fits(s0) && !s0.e.running
    ensures Begin(s0, pkts).e.hw.busy && Begin(s0, pkts).e.hw.completed == 0 && Begin(s0, pkts).e.running
    ensures forall k: nat :: Counted(Begin(s0, pkts), k, 0)
  {
  }

  /** Under any schedule of channels of any kind, once the hardware has taken as many steps as there
      are packets, the next poll leaves the loop, if none has before, unless the channel has counted
      the empty stop mark in the meantime. */
  lemma {:induction false} ExitOrMissed(s0: Tx, pkts: seq<Packet>, evs: seq<Event>)
    requires Inv(s0) && s0.pc.Resting? && AllWellFormed(pkts) && AllSingle(pkts) && Quiet(evs)
    requires |pkts| < |s0.e.ring| && Loaded(Taken(pkts, |s0.e.ring|)) && Ticks(evs) >= |pkts|
    ensures var s := Exec(Begin(s0, pkts), evs + [Cpu]);
            s.pc.Waiting? ==> Missed(s)
  {
    SinglesTaken(pkts, |s0.e.ring|);
    ExecCounted(s0, pkts, evs);
    ExecOne(Begin(s0, pkts), evs, Cpu);
    assert |s0.e.ring| <= 64;
    var s := Exec(Begin(s0, pkts), evs);
    hide Inv, Begin, Taken, Flat, Exec;
    if s.pc.Waiting? {
      Poll(s);
      SinglesExact(s);
    }
  }

  /** The count has passed what the driver waits for. */
  predicate Missed(s: Tx) {
    s.pc.Waiting? && s.e.running && s.e.wb > s.pc.nb
  }

  /** Then it waits forever. */
  lemma {:induction false} MissedForever(s: Tx, evs: seq<Event>)
    requires Inv(s) && Missed(s) && s.pc.nb < 0x1_0000 && Quiet(evs)
    ensures Missed(Exec(s, evs)) && Exec(s, evs).pc == s.pc
  {
    if evs != [] {
      var init := evs[..|evs| - 1];
      MissedForever(s, init);
      ExecInv(s, init);
      var m := Exec(s, init);
      match evs[|evs| - 1] {
        case Hw(t) => HwInv(m, t); StepSound(m.e, t);
        case Cpu => Poll(m);
      }
    }
  }

  /** Every schedule that gives the hardware `k` steps has the next poll leave the loop. */
  ghost predicate Inevitable(s: Tx, k: nat, counts: bool)
    requires Fits(s)
  {
    forall evs :: Allowed(evs, counts) && Ticks(evs) >= k ==> !Exec(s, evs + [Cpu]).pc.Waiting?
  }

  /** Leaving the loop is inevitable, for single-segment packets that leave a descriptor free, exactly
      when no packet is empty and the channel does not count empty descriptors. */
  lemma ExitInevitable(s0: Tx, pkts: seq<Packet>, counts: bool)
    requires Inv(s0) && s0.pc.Resting? && AllWellFormed(pkts) && AllSingle(pkts) && |pkts| < |s0.e.ring|
    ensures Inevitable(Begin(s0, pkts), |pkts|, counts) <==> !counts && Loaded(Taken(pkts, |s0.e.ring|))
  {
    SinglesTaken(pkts, |s0.e.ring|);
    BeginProgress(s0, pkts, counts);
    assert |s0.e.ring| <= 64;
    var start := Begin(s0, pkts);
    var c := Ceiling(Taken(pkts, |s0.e.ring|), |s0.e.ring|, counts);
    CeilingSingles(pkts, |s0.e.ring|, counts);
    hide Inv, Taken, Begin, Ceiling, Flat, Loaded, Exec, Ticks, HwOnly;
    if c == |pkts| {
      forall evs | Allowed(evs, counts) && Ticks(evs) >= |pkts|
        ensures !Exec(start, evs + [Cpu]).pc.Waiting?
      {
        InevitableAtCeiling(s0, pkts, evs);
      }
    } else {
      var k := |pkts| + 1;
      var evs := HwOnly(k, counts);
      HwOnlyWaits(start, k, counts);
      BeginExact(s0, pkts);
      HwOnlyExact(start, k, counts);
      ExecProgress(s0, pkts, evs, counts);
      ExecOne(start, evs, Cpu);
      Poll(Exec(start, evs));
      assert Allowed(evs, counts) && Exec(start, evs + [Cpu]).pc.Waiting?;
    }
  }

  lemma {:induction false} InevitableAtCeiling(s0: Tx, pkts: seq<Packet>, evs: seq<Event>)
    requires Inv(s0) && s0.pc.Resting? && AllWellFormed(pkts) && AllSingle(pkts) && |pkts| < 0x1_0000
    requires Ceiling(Taken(pkts, |s0.e.ring|), |s0.e.ring|, false) == |pkts|
    requires Allowed(evs, false) && Ticks(evs) >= |pkts|
    ensures !Exec(Begin(s0, pkts), evs + [Cpu]).pc.Waiting?
  {
    hide Inv, Taken, Begin, Ceiling, Exec, Ticks;
    SomeFits(s0);
    ExecProgress(s0, pkts, evs, false);
    ExecOne(Begin(s0, pkts), evs, Cpu);
    if Exec(Begin(s0, pkts), evs).pc.Waiting? {
      Poll(Exec(Begin(s0, pkts), evs));
      SinglesExact(Exec(Begin(s0, pkts), evs));
    }
  }

  lemma CeilingSingles(pkts: seq<Packet>, n: nat, counts: bool)
    requires AllWellFormed(pkts) && AllSingle(pkts) && |pkts| < n && 2 <= n
    ensures Ceiling(Taken(pkts, n), n, counts) <= |pkts| + 1
    ensures Ceiling(Taken(pkts, n), n, counts) == |pkts| <==> !counts && Loaded(Taken(pkts, n))
  {
    SinglesTaken(pkts, n);
    hide Taken, Loaded;
  }
}
