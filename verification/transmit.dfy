/** How a batch of packets becomes a descriptor list: greedy acceptance, one descriptor per
    segment, the end mark, and the adjacency counts. */
module Transmit {
  import opened Words
  import opened Rings

  /** One mbuf of a chain: where its bytes are and how many. */
  datatype Segment = Segment(iova: nat, off: nat, len: nat)

  /** A packet as the driver meets it: the segment count its head claims, and its chain. */
  datatype Packet = Packet(nbSegs: nat, chain: seq<Segment>)

  /** One descriptor's worth of work. */
  datatype Item = Item(addr: nat, len: nat, eop: bool)

  function BusAddr(s: Segment): nat { (s.iova + s.off) % TWO64 }

  function Min(a: int, b: int): int { if a <= b then a else b }

  /** What the library that allocates packets promises of each. */
  predicate WellFormed(p: Packet) {
    1 <= p.nbSegs <= |p.chain|
  }

  predicate AllWellFormed(pkts: seq<Packet>) {
    forall k :: 0 <= k < |pkts| ==> WellFormed(pkts[k])
  }

  /** The walk over a chain stops at the claimed count or at the end of the chain, and only the
      segment that exhausts the count ends the packet. */
  function Items(p: Packet): (s: seq<Item>)
    ensures |s| <= p.nbSegs && (WellFormed(p) ==> |s| == p.nbSegs)
  {
    seq(Min(p.nbSegs, |p.chain|), j requires 0 <= j < |p.chain| =>
      Item(BusAddr(p.chain[j]), p.chain[j].len, j + 1 == p.nbSegs))
  }

  function Flat(pkts: seq<Packet>): seq<Item> {
    if pkts == [] then [] else Flat(pkts[..|pkts| - 1]) + Items(pkts[|pkts| - 1])
  }

  function SumSegs(pkts: seq<Packet>): nat {
    if pkts == [] then 0 else SumSegs(pkts[..|pkts| - 1]) + pkts[|pkts| - 1].nbSegs
  }

  /** How many packets are accepted when `avail` descriptors are left: the loop stops at the first
      packet that claims more than what is left. */
  function Accepted(pkts: seq<Packet>, avail: nat): (c: nat)
    ensures c <= |pkts|
  {
    if pkts == [] || pkts[0].nbSegs > avail then 0
    else 1 + Accepted(pkts[1..], avail - pkts[0].nbSegs)
  }

  function Write(d: Desc, it: Item): Desc {
    d.(len := it.len, srcLo := Lo(it.addr), srcHi := Hi(it.addr),
       control := if it.eop then SetFlags(d.control, EOP | COMPLETED) else d.control)
  }

  /** The cursor after taking the descriptor it names. */
  function NextSlot(used: nat, n: nat): (r: nat)
    requires used < n
    ensures r == if used + 1 == n then 0 else used + 1
  {
    (used + 1) % n
  }

  /** Programs the items one by one from cursor `used`, wrapping at the end of the ring. */
  function Fill(ring: seq<Desc>, used: nat, items: seq<Item>): (r: (seq<Desc>, nat))
    requires used < |ring|
    ensures |r.0| == |ring| && r.1 < |ring|
  {
    if items == [] then (ring, used) else
      var (before, u) := Fill(ring, used, items[..|items| - 1]);
      (before[u := Write(before[u], items[|items| - 1])], NextSlot(u, |ring|))
  }

  function Mark(ring: seq<Desc>, i: nat): seq<Desc>
    requires i < |ring|
  {
    ring[i := ring[i].(control := SetFlags(ring[i].control, COMPLETED | STOPPED))]
  }

  /** The first `k` rounds of the adjacency loop for a batch of `count` packets. */
  function Adjoin(ring: seq<Desc>, count: nat, k: nat): (r: seq<Desc>)
    requires ring != [] && (k == 0 || k < count)
    ensures |r| == |ring|
  {
    if k == 0 then ring else
      var before := Adjoin(ring, count, k - 1);
      var i := (k - 1) % |ring|;
      before[i := before[i].(control := SetAdjacent(before[i].control, count - 1 - k))]
  }

  /** The ring and the cursor after a whole batch has been programmed. */
  function Program(ring: seq<Desc>, used: nat, pkts: seq<Packet>): (r: (seq<Desc>, nat))
    requires used < |ring|
    ensures |r.0| == |ring| && r.1 < |ring|
  {
    var count := Accepted(pkts, |ring|);
    var (filled, u) := Fill(ring, used, Flat(pkts[..count]));
    (Adjoin(Mark(filled, u), count, if count == 0 then 0 else count - 1), u)
  }

  // ---------------------------------------------------------------- greedy acceptance

  lemma {:induction false} SumSegsFront(pkts: seq<Packet>)
    requires pkts != []
    ensures SumSegs(pkts) == pkts[0].nbSegs + SumSegs(pkts[1..])
  {
    if |pkts| > 1 {
      SumSegsFront(pkts[..|pkts| - 1]);
      assert pkts[..|pkts| - 1][1..] == pkts[1..][..|pkts| - 2];
    }
  }

  /** Greedy acceptance takes exactly the longest prefix whose claimed segments fit: that prefix
      fits, and every longer one does not. */
  lemma {:induction false} AcceptsLongestPrefix(pkts: seq<Packet>, avail: nat)
    ensures SumSegs(pkts[..Accepted(pkts, avail)]) <= avail
    ensures forall k :: Accepted(pkts, avail) < k <= |pkts| ==> SumSegs(pkts[..k]) > avail
  {
    if pkts != [] {
      if pkts[0].nbSegs <= avail {
        AcceptsLongestPrefix(pkts[1..], avail - pkts[0].nbSegs);
      }
      forall k | 1 <= k <= |pkts|
        ensures SumSegs(pkts[..k]) == pkts[0].nbSegs + SumSegs(pkts[1..][..k - 1])
      {
        SumSegsFront(pkts[..k]);
        assert pkts[..k][1..] == pkts[1..][..k - 1];
      }
    }
  }

  lemma {:induction false} FlatLength(pkts: seq<Packet>)
    ensures |Flat(pkts)| <= SumSegs(pkts)
    ensures AllWellFormed(pkts) ==> |Flat(pkts)| == SumSegs(pkts) && |pkts| <= |Flat(pkts)|
  {
    if pkts != [] {
      FlatLength(pkts[..|pkts| - 1]);
    }
  }

  // ---------------------------------------------------------------- what the ring holds

  /** Item k is written to slot used + k and nowhere else; no slot is taken twice in a batch that
      fits; the cursor advances by the number of items, modulo the ring. */
  lemma {:induction false} FillAt(ring: seq<Desc>, used: nat, items: seq<Item>)
    requires used + |items| <= |ring| && used < |ring|
    ensures Fill(ring, used, items).1 == (if used + |items| == |ring| then 0 else used + |items|)
    ensures forall i :: 0 <= i < |ring| ==>
      Fill(ring, used, items).0[i] ==
        if used <= i < used + |items| then Write(ring[i], items[i - used]) else ring[i]
  {
    if items != [] {
      var init := items[..|items| - 1];
      FillAt(ring, used, init);
      var (before, u) := Fill(ring, used, init);
      assert u == used + |init| && before[u] == ring[u];
    }
  }

  lemma AdjoinNext(ring: seq<Desc>, count: nat, k: nat)
    requires ring != [] && 0 < k < count <= |ring|
    ensures var before := Adjoin(ring, count, k - 1);
            Adjoin(ring, count, k) ==
              before[k - 1 := before[k - 1].(control := SetAdjacent(before[k - 1].control, count - 1 - k))]
  {
    SmallMod(k - 1, |ring|);
    hide SetAdjacent;
  }

  lemma SmallMod(x: nat, n: nat)
    requires x < n
    ensures x % n == x
  {
  }

  lemma {:induction false} AdjoinAt(ring: seq<Desc>, count: nat, k: nat)
    requires ring != [] && (k == 0 || k < count) && count <= |ring|
    ensures forall i :: 0 <= i < |ring| ==>
      Adjoin(ring, count, k)[i] ==
        if i < k then ring[i].(control := SetAdjacent(ring[i].control, count - 2 - i))
        else ring[i]
  {
    if k > 0 {
      AdjoinAt(ring, count, k - 1);
      AdjoinNext(ring, count, k);
      hide Adjoin, SetAdjacent;
    }
  }

  /** A transmit ring as setup or the last stop left it. */
  predicate IdleRing(ring: seq<Desc>, base: nat) {
    && Placed(base, |ring|) && Linked(ring, base) && IdleSendControls(ring)
    && forall i :: 0 <= i < |ring| ==> Unprogrammed(ring[i])
  }

  /** Slot i of the ring once `count` packets, `items` in all, are programmed and the mark is at `u`. */
  function Programmed(ring: seq<Desc>, items: seq<Item>, count: nat, u: nat, i: nat): Desc
    requires i < |ring|
  {
    var d := if i < |items| then Write(ring[i], items[i]) else ring[i];
    var m := if i == u then d.(control := SetFlags(d.control, COMPLETED | STOPPED)) else d;
    if i + 1 < count then m.(control := SetAdjacent(m.control, count - 2 - i)) else m
  }

  lemma {:induction false} AcceptedFits(pkts: seq<Packet>, n: nat)
    requires AllWellFormed(pkts)
    ensures |Flat(pkts[..Accepted(pkts, n)])| <= n && Accepted(pkts, n) <= |Flat(pkts[..Accepted(pkts, n)])|
    ensures SumSegs(pkts) <= n <==> Accepted(pkts, n) == |pkts|
  {
    AcceptsLongestPrefix(pkts, n);
    FlatLength(pkts[..Accepted(pkts, n)]);
    assert pkts[..|pkts|] == pkts;
  }

  lemma FillMarkAdjoinAt(ring: seq<Desc>, items: seq<Item>, count: nat)
    requires ring != [] && count <= |items| <= |ring|
    ensures var (filled, u) := Fill(ring, 0, items);
            var after := Adjoin(Mark(filled, u), count, if count == 0 then 0 else count - 1);
            && u == (if |items| == |ring| then 0 else |items|)
            && forall i :: 0 <= i < |ring| ==> after[i] == Programmed(ring, items, count, u, i)
  {
    FillAt(ring, 0, items);
    var filling := Fill(ring, 0, items);
    var filled, u := filling.0, filling.1;
    var marked := Mark(filled, u);
    AdjoinAt(marked, count, if count == 0 then 0 else count - 1);
    forall i | 0 <= i < |ring|
      ensures Adjoin(marked, count, if count == 0 then 0 else count - 1)[i] == Programmed(ring, items, count, u, i)
    {
      var d := if i < |items| then Write(ring[i], items[i]) else ring[i];
      assert filled[i] == d;
      assert marked[i] == if i == u then d.(control := SetFlags(d.control, COMPLETED | STOPPED)) else d;
    }
  }

  lemma {:induction false} ProgramAt(ring: seq<Desc>, pkts: seq<Packet>)
    requires ring != [] && AllWellFormed(pkts)
    ensures var count := Accepted(pkts, |ring|);
            var items := Flat(pkts[..count]);
            var u := if |items| == |ring| then 0 else |items|;
            && Program(ring, 0, pkts).1 == u
            && forall i :: 0 <= i < |ring| ==> Program(ring, 0, pkts).0[i] == Programmed(ring, items, count, u, i)
  {
    hide Accepted, Flat, Fill, Adjoin, Mark, Programmed, WellFormed;
    var count := Accepted(pkts, |ring|);
    AcceptedFits(pkts, |ring|);
    FillMarkAdjoinAt(ring, Flat(pkts[..count]), count);
  }

  lemma Marks()
    ensures BLANK == Control(true, 0, false, false, false) && LAST_MARK == Control(true, 0, true, true, true)
  {
  }

  /** Which slots are marked when the last item of a batch is closed: where a packet ends, and at the stop
      mark, which is on slot 0 of a full ring. */
  predicate Marked(ring: seq<Desc>, items: seq<Item>) {
    && (forall i :: 0 <= i < |items| <= |ring| ==>
          && (ring[i].control.eop <==> items[i].eop)
          && (ring[i].control.completed <==> items[i].eop || (i == 0 && |items| == |ring|)))
    && (|items| < |ring| ==> ring[|items|].control.completed)
    && (forall i :: |items| < i < |ring| ==>
          ring[i].control == BLANK || (i + 1 == |ring| && ring[i].control == LAST_MARK))
  }

  /** What the hardware sees in each slot of a freshly programmed ring. */
  predicate Seen(ring: seq<Desc>, base: nat, items: seq<Item>, count: nat) {
    && Placed(base, |ring|) && Linked(ring, base) && |items| <= |ring| && count <= |items|
    && (forall i :: 0 <= i < |ring| ==> ring[i].control.genuine)
    && (forall i :: 0 <= i < |items| ==>
          && ring[i].len == items[i].len && Source(ring[i]) == items[i].addr
          && ring[i].control.adjacent == if i + 1 < count then count - 2 - i else 0)
    && (forall i :: |items| <= i < |ring| ==> ring[i].len == 0)
    && (|items| < |ring| ==>
          && (forall i :: 0 <= i < |items| ==> !ring[i].control.stopped)
          && ring[|items|].control.stopped)
    && (|items| == |ring| ==> ring[0].control.stopped)
    && Marked(ring, items)
  }

  lemma ProgrammedSeen(ring: seq<Desc>, base: nat, items: seq<Item>, count: nat, u: nat, i: nat)
    requires IdleRing(ring, base) && count <= |items| <= |ring| && i < |ring|
    requires u == if |items| == |ring| then 0 else |items|
    requires forall k :: 0 <= k < |items| ==> items[k].addr < TWO64
    ensures var d := Programmed(ring, items, count, u, i);
            && Link(d) == Link(ring[i]) && d.control.genuine
            && (i < |items| ==> d.len == items[i].len && Source(d) == items[i].addr)
            && (i < |items| ==> d.control.adjacent == if i + 1 < count then count - 2 - i else 0)
            && (i < |items| < |ring| ==> !d.control.stopped)
            && (i == u ==> d.control.stopped && d.control.completed)
            && (|items| <= i ==> d.len == 0)
            && (|items| < i ==> d.control == ring[i].control)
  {
    Marks();
    if i < |items| {
      SplitJoin(items[i].addr);
    }
  }

  /** The end marks of slot i. Setup's mark on the last descriptor meets the end of a packet there. */
  lemma ProgrammedMarks(ring: seq<Desc>, base: nat, items: seq<Item>, count: nat, u: nat, i: nat)
    requires IdleRing(ring, base) && count <= |items| <= |ring| && i < |items|
    requires u == if |items| == |ring| then 0 else |items|
    requires items[|items| - 1].eop
    ensures var d := Programmed(ring, items, count, u, i);
            && (d.control.eop <==> items[i].eop)
            && (d.control.completed <==> items[i].eop || (i == 0 && |items| == |ring|))
  {
    Marks();
  }

  /** A batch ends with the end of its last packet. */
  lemma {:induction false} LastEnds(pkts: seq<Packet>)
    requires AllWellFormed(pkts) && Flat(pkts) != []
    ensures Flat(pkts)[|Flat(pkts)| - 1].eop
  {
    var p := pkts[|pkts| - 1];
    assert WellFormed(p) && Items(p)[|Items(p)| - 1].eop;
  }

  lemma {:induction false} ProgramSeen(ring: seq<Desc>, base: nat, pkts: seq<Packet>)
    requires IdleRing(ring, base) && AllWellFormed(pkts)
    ensures var count := Accepted(pkts, |ring|);
            Seen(Program(ring, 0, pkts).0, base, Flat(pkts[..count]), count)
  {
    var count := Accepted(pkts, |ring|);
    var items := Flat(pkts[..count]);
    AcceptedFits(pkts, |ring|);
    ItemsOfBatch(pkts[..count]);
    ProgramAt(ring, pkts);
    if items != [] {
      LastEnds(pkts[..count]);
    }
    hide Accepted, Flat, Program, Programmed, IdleRing;
    SeenFromSlots(ring, Program(ring, 0, pkts).0, base, items, count);
  }

  /** Slot by slot. */
  lemma SeenFromSlots(ring: seq<Desc>, after: seq<Desc>, base: nat, items: seq<Item>, count: nat)
    requires IdleRing(ring, base) && count <= |items| <= |ring| == |after|
    requires forall k :: 0 <= k < |items| ==> items[k].addr < TWO64
    requires items != [] ==> items[|items| - 1].eop
    requires var u := if |items| == |ring| then 0 else |items|;
             forall i :: 0 <= i < |ring| ==> after[i] == Programmed(ring, items, count, u, i)
    ensures Seen(after, base, items, count)
  {
    var u := if |items| == |ring| then 0 else |items|;
    forall i | 0 <= i < |ring|
      ensures Link(after[i]) == SlotAddr(base, |after|, i + 1) && after[i].control.genuine
      ensures i < |items| ==>
        && after[i].len == items[i].len && Source(after[i]) == items[i].addr
        && after[i].control.adjacent == (if i + 1 < count then count - 2 - i else 0)
        && (|items| < |ring| ==> !after[i].control.stopped)
        && (after[i].control.eop <==> items[i].eop)
        && (after[i].control.completed <==> items[i].eop || (i == 0 && |items| == |ring|))
      ensures |items| <= i ==> after[i].len == 0 && (|items| < i ==> after[i].control == ring[i].control)
      ensures i == u ==> after[i].control.stopped && after[i].control.completed
    {
      ProgrammedSeen(ring, base, items, count, u, i);
      if i < |items| {
        ProgrammedMarks(ring, base, items, count, u, i);
      }
      hide Programmed, Source;
    }
    hide Programmed, Source, Link, SlotAddr;
  }

  lemma {:induction false} ItemsOfBatch(pkts: seq<Packet>)
    ensures forall i :: 0 <= i < |Flat(pkts)| ==> Flat(pkts)[i].addr < TWO64
  {
    if pkts != [] {
      ItemsOfBatch(pkts[..|pkts| - 1]);
    }
  }
}
