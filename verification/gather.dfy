/** Reading a programmed ring back: by following next links, and by block fetches driven by the
    adjacency counts. The first recovers the batch; the second visits the same descriptors. */
module Gather {
  import opened Rings
  import opened Transmit

  /** What the hardware reads out of one slot. */
  datatype Node = Node(next: Place, stopped: bool, adjacent: nat, load: Item)

  function NodeOf(ring: seq<Desc>, base: nat, i: nat): Node
    requires i < |ring|
  {
    var d := ring[i];
    Node(Locate(base, |ring|, Link(d)), d.control.stopped, d.control.adjacent,
         Item(Source(d), d.len, d.control.eop))
  }

  function Nodes(ring: seq<Desc>, base: nat): (nodes: seq<Node>)
    ensures |nodes| == |ring|
  {
    seq(|ring|, i requires 0 <= i < |ring| => NodeOf(ring, base, i))
  }

  function Range(lo: nat, hi: nat): (s: seq<nat>)
    ensures |s| == if lo <= hi then hi - lo else 0
    ensures forall k :: 0 <= k < |s| ==> s[k] == lo + k
  {
    seq(if lo <= hi then hi - lo else 0, k requires 0 <= k => lo + k)
  }

  lemma RangeSplit(lo: nat, mid: nat, hi: nat)
    requires lo <= mid <= hi
    ensures Range(lo, hi) == Range(lo, mid) + Range(mid, hi)
  {
  }

  /** The slots met from `at` on by following next links, up to and including the first STOPPED
      one. */
  function Chase(nodes: seq<Node>, at: Place, fuel: nat): (s: seq<nat>)
    ensures forall k :: 0 <= k < |s| ==> s[k] < |nodes|
    decreases fuel
  {
    match at
    case Nowhere => []
    case Slot(i) =>
      if i >= |nodes| then []
      else if nodes[i].stopped || fuel == 0 then [i]
      else [i] + Chase(nodes, nodes[i].next, fuel - 1)
  }

  /** From slot `i` the links run one by one to the first STOPPED slot, `s`. */
  predicate PathTo(nodes: seq<Node>, i: nat, s: nat) {
    && i <= s < |nodes| && nodes[s].stopped
    && forall k :: i <= k < s ==> !nodes[k].stopped && nodes[k].next == Slot(k + 1)
  }

  lemma {:induction false} ChaseIsRange(nodes: seq<Node>, i: nat, s: nat, fuel: nat)
    requires PathTo(nodes, i, s) && s - i <= fuel
    ensures Chase(nodes, Slot(i), fuel) == Range(i, s + 1)
    decreases s - i
  {
    if i < s {
      ChaseIsRange(nodes, i + 1, s, fuel - 1);
      RangeSplit(i, i + 1, s + 1);
    }
    assert Range(i, i + 1) == [i];
  }

  // ---------------------------------------------------------------- decoding

  /** A segment as the hardware sees it. */
  datatype Part = Part(addr: nat, len: nat)

  function Parts(p: Packet): seq<Part>
    requires WellFormed(p)
  {
    seq(p.nbSegs, j requires 0 <= j < p.nbSegs => 
      Part((p.chain[j].iova + p.chain[j].off) % TWO64, p.chain[j].len))
  }

  function AllParts(pkts: seq<Packet>): (s: seq<seq<Part>>)
    requires AllWellFormed(pkts)
    ensures |s| == |pkts|
  {
    seq(|pkts|, k requires 0 <= k < |pkts| => Parts(pkts[k]))
  }

  /** Splits a run of descriptors into packets: EOP closes the packet that is open. */
  function Group(items: seq<Item>, open: seq<Part>): seq<seq<Part>> {
    if items == [] then
      if open == [] then [] else [open]
    else
      var grown := open + [Part(items[0].addr, items[0].len)];
      if items[0].eop then [grown] + Group(items[1..], []) else Group(items[1..], grown)
  }

  /** What is to be transferred among the slots met: all of them, but for an empty last one, which
      is the stop mark. */
  function Load(nodes: seq<Node>, slots: seq<nat>): seq<Item>
    requires forall k :: 0 <= k < |slots| ==> slots[k] < |nodes|
  {
    if slots == [] then [] else
      var n := if nodes[slots[|slots| - 1]].load.len == 0 then |slots| - 1 else |slots|;
      seq(n, k requires 0 <= k < |slots| => nodes[slots[k]].load)
  }

  /** The packets a ring describes, starting from the descriptor at its base. */
  function Decode(ring: seq<Desc>, base: nat): seq<seq<Part>> {
    var nodes := Nodes(ring, base);
    Group(Load(nodes, Chase(nodes, Locate(base, |ring|, base), |ring|)), [])
  }

  lemma {:induction false} GroupPacket(p: Packet, j: nat, rest: seq<Item>)
    requires WellFormed(p) && j < p.nbSegs
    ensures Group(Items(p)[j..] + rest, Parts(p)[..j]) == [Parts(p)] + Group(rest, [])
    decreases p.nbSegs - j
  {
    var items := Items(p)[j..] + rest;
    assert items[0] == Items(p)[j];
    assert items[1..] == Items(p)[j + 1..] + rest;
    assert Parts(p)[..j] + [Part(items[0].addr, items[0].len)] == Parts(p)[..j + 1];
    if j + 1 < p.nbSegs {
      GroupPacket(p, j + 1, rest);
    } else {
      assert items[1..] == rest && Parts(p)[..j + 1] == Parts(p);
    }
  }

  lemma {:induction false} FlatFront(pkts: seq<Packet>)
    requires pkts != []
    ensures Flat(pkts) == Items(pkts[0]) + Flat(pkts[1..])
  {
    var init, last := pkts[..|pkts| - 1], pkts[|pkts| - 1];
    if init == [] {
      assert pkts[1..] == [] && Flat(init) == [];
    } else {
      FlatFront(init);
      assert pkts[1..][..|pkts[1..]| - 1] == init[1..];
      assert Flat(pkts[1..]) == Flat(init[1..]) + Items(last);
      assert Items(pkts[0]) + (Flat(init[1..]) + Items(last)) == (Items(pkts[0]) + Flat(init[1..])) + Items(last);
    }
  }

  /** Flattening and grouping at EOP are inverse. */
  lemma {:induction false} GroupFlat(pkts: seq<Packet>)
    requires AllWellFormed(pkts)
    ensures Group(Flat(pkts), []) == AllParts(pkts)
  {
    if pkts != [] {
      FlatFront(pkts);
      GroupFlat(pkts[1..]);
      assert Items(pkts[0])[0..] == Items(pkts[0]) && Parts(pkts[0])[..0] == [];
      GroupPacket(pkts[0], 0, Flat(pkts[1..]));
      assert AllParts(pkts) == [Parts(pkts[0])] + AllParts(pkts[1..]);
    }
  }

  /** The nodes of a freshly programmed ring that is not full. */
  predicate Listed(nodes: seq<Node>, items: seq<Item>, count: nat) {
    && PathTo(nodes, 0, |items|) && nodes[|items|].load.len == 0 && count <= |items|
    && forall i :: 0 <= i < |items| ==>
         nodes[i].load == items[i] && nodes[i].adjacent == if i + 1 < count then count - 2 - i else 0
  }

  lemma SeenListed(ring: seq<Desc>, base: nat, items: seq<Item>, count: nat)
    requires Seen(ring, base, items, count) && |items| < |ring|
    ensures Listed(Nodes(ring, base), items, count)
  {
    forall i | 0 <= i < |ring|
      ensures Locate(base, |ring|, Link(ring[i])) == if i + 1 < |ring| then Slot(i + 1) else Nowhere
    {
      LocateSlot(base, |ring|, i + 1);
    }
  }

  lemma LoadListed(nodes: seq<Node>, items: seq<Item>, count: nat)
    requires Listed(nodes, items, count)
    ensures Load(nodes, Range(0, |items| + 1)) == items
  {
    var slots := Range(0, |items| + 1);
    assert slots[|slots| - 1] == |items|;
  }

  lemma {:induction false} ProgramListed(ring: seq<Desc>, base: nat, pkts: seq<Packet>)
    requires IdleRing(ring, base) && AllWellFormed(pkts)
    requires SumSegs(pkts[..Accepted(pkts, |ring|)]) < |ring|
    ensures var count := Accepted(pkts, |ring|);
            var items := Flat(pkts[..count]);
            && |items| == SumSegs(pkts[..count]) && Locate(base, |ring|, base) == Slot(0)
            && Listed(Nodes(Program(ring, 0, pkts).0, base), items, count)
  {
    var count := Accepted(pkts, |ring|);
    FlatLength(pkts[..count]);
    ProgramSeen(ring, base, pkts);
    SeenListed(Program(ring, 0, pkts).0, base, Flat(pkts[..count]), count);
    LocateSlot(base, |ring|, 0);
    hide Program, Accepted, Flat, IdleRing, Nodes, Listed, Seen, Locate;
  }

  lemma {:induction false} DecodeListed(ring: seq<Desc>, base: nat, items: seq<Item>, count: nat)
    requires Listed(Nodes(ring, base), items, count) && Locate(base, |ring|, base) == Slot(0)
    ensures Decode(ring, base) == Group(items, [])
  {
    ChaseIsRange(Nodes(ring, base), 0, |items|, |ring|);
    LoadListed(Nodes(ring, base), items, count);
  }

  /** Gather round trip: the ring a batch leaves behind decodes to exactly the accepted packets,
      segment by segment with whole 64-bit addresses, as long as they leave one descriptor free. */
  lemma {:induction false} GatherRoundTrip(ring: seq<Desc>, base: nat, pkts: seq<Packet>)
    requires IdleRing(ring, base) && AllWellFormed(pkts)
    requires SumSegs(pkts[..Accepted(pkts, |ring|)]) < |ring|
    ensures Decode(Program(ring, 0, pkts).0, base) == AllParts(pkts[..Accepted(pkts, |ring|)])
  {
    var count := Accepted(pkts, |ring|);
    ProgramListed(ring, base, pkts);
    DecodeListed(Program(ring, 0, pkts).0, base, Flat(pkts[..count]), count);
    GroupFlat(pkts[..count]);
  }

  // ---------------------------------------------------------------- block fetch

  /** One fetch: `size` descriptors from slot `first` on, of which the engine runs `visited`. */
  datatype Block = Block(first: nat, size: nat, visited: seq<nat>)

  /** The slots up to and including the first STOPPED one. */
  function Cut(nodes: seq<Node>, slots: seq<nat>): (r: seq<nat>)
    requires forall k :: 0 <= k < |slots| ==> slots[k] < |nodes|
    ensures r <= slots && (slots != [] ==> r != [])
  {
    if slots == [] then []
    else if nodes[slots[0]].stopped then [slots[0]]
    else [slots[0]] + Cut(nodes, slots[1..])
  }

  /** Fetches `extra + 1` adjacent descriptors at a time: the first count comes from the
      first_desc_adjacent register, each later one from Nxt_adj of the last descriptor fetched,
      whose next link names the next block. */
  function Fetch(nodes: seq<Node>, at: Place, extra: nat, fuel: nat): seq<Block>
    decreases fuel
  {
    match at
    case Nowhere => []
    case Slot(i) =>
      if i + extra >= |nodes| then [Block(i, extra + 1, [])]
      else
        var visited := Cut(nodes, Range(i, i + extra + 1));
        var last := nodes[i + extra];
        [Block(i, extra + 1, visited)] +
        if nodes[visited[|visited| - 1]].stopped || fuel == 0 then []
        else Fetch(nodes, last.next, last.adjacent, fuel - 1)
  }

  function Visits(blocks: seq<Block>): seq<nat> {
    if blocks == [] then [] else blocks[0].visited + Visits(blocks[1..])
  }

  lemma {:induction false} CutIsRange(nodes: seq<Node>, i: nat, hi: nat, s: nat)
    requires PathTo(nodes, i, s) && i < hi <= s + 1
    ensures Cut(nodes, Range(i, hi)) == Range(i, hi)
    decreases hi - i
  {
    var r := Range(i, hi);
    assert r[1..] == Range(i + 1, hi);
    if i + 1 < hi {
      CutIsRange(nodes, i + 1, hi, s);
    }
  }

  /** A block that stays between slot 0 and the stop mark at `s`, alone when it reaches the mark. */
  predicate Contained(b: Block, s: nat) {
    b.size > 0 && b.first + b.size <= s + 1 && (b.size > 1 ==> b.first + b.size <= s)
  }

  /** All bytes of the block lie in one page of memory. */
  predicate InOnePage(b: Block, base: nat) {
    b.size > 0 && (base + DESC_BYTES * b.first) / PAGE == (base + DESC_BYTES * (b.first + b.size) - 1) / PAGE
  }

  lemma ContainedInOnePage(b: Block, base: nat, n: nat, s: nat)
    requires Placed(base, n) && s < n && Contained(b, s)
    ensures InOnePage(b, base)
  {
    var first, end := base + DESC_BYTES * b.first, base + DESC_BYTES * (b.first + b.size);
    assert base <= first < end <= base + PAGE;
    assert first / PAGE == base / PAGE == (end - 1) / PAGE;
  }

  /** The blocks visit slots i to s, once each and in order, and none reaches past s. */
  predicate Covers(blocks: seq<Block>, i: nat, s: nat) {
    Visits(blocks) == Range(i, s + 1) && forall k :: 0 <= k < |blocks| ==> Contained(blocks[k], s)
  }

  lemma CoversFront(b: Block, later: seq<Block>, i: nat, next: nat, s: nat)
    requires i <= next <= s + 1 && b.visited == Range(i, next) && Contained(b, s) && Covers(later, next, s)
    ensures Covers([b] + later, i, s)
  {
    assert ([b] + later)[1..] == later;
    RangeSplit(i, next, s + 1);
  }

  lemma CoversNothing(i: nat, s: nat)
    requires i == s + 1
    ensures Covers([], i, s)
  {
  }

  /** Every adjacency count at or after slot `i` leads no further than the stop mark at `s`. */
  predicate AdjacencySafe(nodes: seq<Node>, i: nat, s: nat)
    requires s < |nodes|
  {
    forall k :: i <= k < s ==>
      k + 1 + nodes[k].adjacent <= s && (nodes[k].adjacent > 0 ==> k + 1 + nodes[k].adjacent < s)
  }

  lemma {:induction false} FetchOne(nodes: seq<Node>, i: nat, extra: nat, fuel: nat, visited: seq<nat>)
    requires i + extra < |nodes| && visited == Cut(nodes, Range(i, i + extra + 1))
    requires visited != [] && visited[|visited| - 1] == i + extra
    ensures nodes[i + extra].stopped ==> Fetch(nodes, Slot(i), extra, fuel) == [Block(i, extra + 1, visited)]
    ensures !nodes[i + extra].stopped && fuel > 0 ==>
      Fetch(nodes, Slot(i), extra, fuel) ==
        [Block(i, extra + 1, visited)] + Fetch(nodes, nodes[i + extra].next, nodes[i + extra].adjacent, fuel - 1)
  {
    hide Cut, Range;
  }

  lemma OnPath(nodes: seq<Node>, i: nat, k: nat, s: nat)
    requires PathTo(nodes, i, s) && i <= k <= s
    ensures k < |nodes| && (nodes[k].stopped <==> k == s) && (k < s ==> nodes[k].next == Slot(k + 1))
  {
  }

  lemma {:induction false} FetchStep(nodes: seq<Node>, i: nat, extra: nat, s: nat, fuel: nat)
    requires PathTo(nodes, i, s) && s - i <= fuel && i + extra <= s
    ensures i + extra < |nodes|
    ensures i + extra == s ==> Fetch(nodes, Slot(i), extra, fuel) == [Block(i, extra + 1, Range(i, i + extra + 1))]
    ensures i + extra < s ==>
      Fetch(nodes, Slot(i), extra, fuel) == [Block(i, extra + 1, Range(i, i + extra + 1))] +
        Fetch(nodes, Slot(i + extra + 1), nodes[i + extra].adjacent, fuel - 1)
  {
    hide *;
    OnPath(nodes, i, i + extra, s);
    CutIsRange(nodes, i, i + extra + 1, s);
    FetchOne(nodes, i, extra, fuel, Range(i, i + extra + 1));
  }

  lemma BlockStep(nodes: seq<Node>, i: nat, extra: nat, s: nat)
    requires PathTo(nodes, i, s) && AdjacencySafe(nodes, i, s)
    requires i + extra <= s && (extra > 0 ==> i + extra < s)
    ensures Contained(Block(i, extra + 1, Range(i, i + extra + 1)), s) && s < |nodes|
    ensures i + extra < s ==>
      var next, more := i + extra + 1, nodes[i + extra].adjacent;
      && PathTo(nodes, next, s) && AdjacencySafe(nodes, next, s)
      && next + more <= s && (more > 0 ==> next + more < s)
  {
  }

  lemma {:induction false} FetchIsRange(nodes: seq<Node>, i: nat, extra: nat, s: nat, fuel: nat)
    requires PathTo(nodes, i, s) && s - i <= fuel && AdjacencySafe(nodes, i, s)
    requires i + extra <= s && (extra > 0 ==> i + extra < s)
    ensures Covers(Fetch(nodes, Slot(i), extra, fuel), i, s)
    decreases s - i
  {
    hide *;
    var next := i + extra + 1;
    var b := Block(i, extra + 1, Range(i, next));
    BlockStep(nodes, i, extra, s);
    FetchStep(nodes, i, extra, s, fuel);
    if next <= s {
      FetchIsRange(nodes, next, nodes[next - 1].adjacent, s, fuel - 1);
      CoversFront(b, Fetch(nodes, Slot(next), nodes[next - 1].adjacent, fuel - 1), i, next, s);
    } else {
      CoversNothing(next, s);
      CoversFront(b, [], i, next, s);
      assert [b] + [] == [b];
    }
  }

  /** What the transmit routine hands to the start routine, and what that writes to the register. */
  function FirstAdjacent(count: nat): nat {
    if count > 2 then count - 2 else 0
  }

  lemma {:induction false} FetchListed(nodes: seq<Node>, items: seq<Item>, count: nat, fuel: nat)
    requires Listed(nodes, items, count) && |items| <= fuel
    ensures var blocks := Fetch(nodes, Slot(0), FirstAdjacent(count), fuel);
            Visits(blocks) == Chase(nodes, Slot(0), fuel) && Covers(blocks, 0, |items|)
  {
    ChaseIsRange(nodes, 0, |items|, fuel);
    FetchIsRange(nodes, 0, FirstAdjacent(count), |items|, fuel);
  }

  lemma CoversInOnePage(blocks: seq<Block>, base: nat, n: nat, s: nat)
    requires Placed(base, n) && s < n && Covers(blocks, 0, s)
    ensures forall k :: 0 <= k < |blocks| ==> InOnePage(blocks[k], base)
  {
    forall k | 0 <= k < |blocks|
      ensures InOnePage(blocks[k], base)
    {
      ContainedInOnePage(blocks[k], base, n, s);
    }
  }

  /** Block fetching refines pointer chasing: after any batch that leaves a descriptor free, the
      fetches driven by the register and the Nxt_adj fields visit exactly the descriptors that
      following next links visits, once each and in the same order; no block crosses a page, and
      no block of several passes the filled descriptors. */
  lemma {:induction false} FetchRefinesChase(ring: seq<Desc>, base: nat, pkts: seq<Packet>)
    requires IdleRing(ring, base) && AllWellFormed(pkts)
    requires SumSegs(pkts[..Accepted(pkts, |ring|)]) < |ring|
    ensures var count := Accepted(pkts, |ring|);
            var nodes := Nodes(Program(ring, 0, pkts).0, base);
            var at := Locate(base, |ring|, base);
            var blocks := Fetch(nodes, at, FirstAdjacent(count), |ring|);
            && Visits(blocks) == Chase(nodes, at, |ring|)
            && Covers(blocks, 0, SumSegs(pkts[..count]))
            && forall k :: 0 <= k < |blocks| ==> InOnePage(blocks[k], base)
  {
    var count := Accepted(pkts, |ring|);
    var items := Flat(pkts[..count]);
    var nodes := Nodes(Program(ring, 0, pkts).0, base);
    ProgramListed(ring, base, pkts);
    FetchListed(nodes, items, count, |ring|);
    CoversInOnePage(Fetch(nodes, Slot(0), FirstAdjacent(count), |ring|), base, |ring|, |items|);
  }
}
