/** Descriptors and the ring of them in one physically contiguous zone. */
module Rings {
  import opened Words

  const DESC_BYTES: nat := 32
  const PAGE: nat := 4096
  const TWO32: nat := 0x1_0000_0000
  const TWO64: nat := 0x1_0000_0000_0000_0000

  const BLANK: Control := Read(0xAD4B_0000)
  const LAST_MARK: Control := Read(0xAD4B_0013)

  datatype Dir = C2H | H2C

  datatype Desc = Desc(control: Control, len: nat,
                       srcLo: nat, srcHi: nat, dstLo: nat, dstHi: nat, nextLo: nat, nextHi: nat)

  function Lo(a: nat): nat { a % TWO32 }

  function Hi(a: nat): nat { a / TWO32 % TWO32 }

  function Join(lo: nat, hi: nat): nat { hi * TWO32 + lo }

  /** A 64-bit address survives being split over two 32-bit fields. */
  lemma SplitJoin(a: nat)
    requires a < TWO64
    ensures Join(Lo(a), Hi(a)) == a
  {
    assert a / TWO32 < TWO32;
  }

  function Source(d: Desc): nat { Join(d.srcLo, d.srcHi) }

  function Destination(d: Desc): nat { Join(d.dstLo, d.dstHi) }

  function Link(d: Desc): nat { Join(d.nextLo, d.nextHi) }

  /** Where the zone may lie: page-aligned, not at zero, and its page inside the address space.
      The adjacency field bounds the ring by 64 descriptors. */
  predicate Placed(base: nat, n: nat) {
    2 <= n <= 64 && base % PAGE == 0 && PAGE <= base && base + PAGE <= TWO64
  }

  /** Physical address of slot `i`; slot `n` does not exist and reads as the null link. */
  function SlotAddr(base: nat, n: nat, i: nat): nat {
    if i < n then base + DESC_BYTES * i else 0
  }

  /** Where the channel writes its count, just behind the ring. */
  function CountSlot(base: nat, n: nat): nat { base + DESC_BYTES * n }

  /** Where the stream length is read; every receive descriptor names it as its source. */
  function StreamSlot(base: nat, n: nat): nat { (base + 64 * n + 32) % TWO64 }

  datatype Place = Nowhere | Slot(index: nat)

  /** The slot a physical address names, if it names one. */
  function Locate(base: nat, n: nat, a: nat): (r: Place)
    ensures r.Slot? ==> r.index < n
  {
    if n == 0 then Nowhere
    else if a == base + DESC_BYTES * (n - 1) then Slot(n - 1)
    else Locate(base, n - 1, a)
  }

  lemma {:induction false} LocateUpTo(base: nat, n: nat, a: nat, i: nat)
    ensures i < n && a == base + DESC_BYTES * i ==> Locate(base, n, a) == Slot(i)
    ensures a < base ==> Locate(base, n, a) == Nowhere
  {
    if n > 0 {
      LocateUpTo(base, n - 1, a, i);
    }
  }

  lemma {:induction false} LocateSlot(base: nat, n: nat, i: nat)
    requires Placed(base, n)
    ensures i < n ==> Locate(base, n, SlotAddr(base, n, i)) == Slot(i)
    ensures i >= n ==> Locate(base, n, SlotAddr(base, n, i)) == Nowhere
    ensures SlotAddr(base, n, i) < TWO64
  {
    LocateUpTo(base, n, SlotAddr(base, n, i), i);
  }

  /** The next links form the simple path 0, 1, ..., n-1, null. */
  predicate Linked(ring: seq<Desc>, base: nat) {
    forall i :: 0 <= i < |ring| ==> Link(ring[i]) == SlotAddr(base, |ring|, i + 1)
  }

  function InitDesc(i: nat, n: nat, base: nat): Desc {
    var next := SlotAddr(base, n, i + 1);
    Desc(if i + 1 == n then LAST_MARK else BLANK, 0, 0, 0, 0, 0, Lo(next), Hi(next))
  }

  function InitRing(n: nat, base: nat): (ring: seq<Desc>) {
    seq(n, i requires 0 <= i < n => InitDesc(i, n, base))
  }

  lemma InitRingLinked(n: nat, base: nat)
    requires Placed(base, n)
    ensures Linked(InitRing(n, base), base)
    ensures forall i :: 0 <= i < n ==> Link(InitRing(n, base)[i]) == if i + 1 < n then base + 32 * (i + 1) else 0
  {
    forall i | 0 <= i < n
      ensures Link(InitRing(n, base)[i]) == SlotAddr(base, n, i + 1)
    {
      LocateSlot(base, n, i + 1);
      SplitJoin(SlotAddr(base, n, i + 1));
    }
  }

  function ClearDesc(dir: Dir, d: Desc): Desc {
    d.(len := 0, dstHi := 0, dstLo := 0, srcHi := 0, srcLo := 0,
       control := if dir == H2C then BLANK else d.control)
  }

  function ClearRing(dir: Dir, ring: seq<Desc>): seq<Desc> {
    seq(|ring|, i requires 0 <= i < |ring| => ClearDesc(dir, ring[i]))
  }

  /** Nothing is programmed: no length, no address. */
  predicate Unprogrammed(d: Desc) {
    d.len == 0 && d.srcLo == 0 && d.srcHi == 0 && d.dstLo == 0 && d.dstHi == 0
  }

  /** The control words of an armed or idle receive ring, whatever was armed before. */
  predicate ReceiveControls(ring: seq<Desc>) {
    forall i :: 0 <= i < |ring| ==>
      if i + 1 == |ring| then ring[i].control == LAST_MARK
      else ring[i].control == BLANK || ring[i].control == SetFlags(BLANK, COMPLETED)
  }

  /** The control words of an idle transmit ring: blank, but for the mark that setup leaves on the
      last descriptor until the first stop. */
  predicate IdleSendControls(ring: seq<Desc>) {
    forall i :: 0 <= i < |ring| ==>
      ring[i].control == BLANK || (i + 1 == |ring| && ring[i].control == LAST_MARK)
  }
}
