/** The 32-bit control word of a descriptor: magic in bits 16..31, Nxt_adj in bits 8..13, flags in
    bits 0..7. The driver updates it with `|=` and mask-and-shift. `Read` takes out of a word what
    those updates and the hardware look at; the state machines keep that, the driver's ring keeps
    the words, and the lemmas here show that updating what was read is reading the updated word. */
module Words {
  const MAGIC: bv32 := 0xAD4B_0000
  const STOPPED: bv32 := 0x01
  const COMPLETED: bv32 := 0x02
  const EOP: bv32 := 0x10

  /** `rest` is the word outside the two fields the driver writes: the magic and bits 14 and 15. */
  datatype Fields = Fields(rest: bv32, adjacent: bv32, flags: bv32)

  function View(word: bv32): Fields {
    Fields(word & 0xFFFF_C000, (word & 0x0000_3F00) >> 8, word & 0x0000_00FF)
  }

  /** What a descriptor's word says: whether its magic is right, how many descriptors are adjacent
      to the next one, and the three flags in use. */
  datatype Control = Control(genuine: bool, adjacent: nat, stopped: bool, completed: bool, eop: bool)

  function MagicIn(word: bv32): bv32 {
    word & 0xFFFF_0000
  }

  function AdjacentIn(word: bv32): nat {
    ((word & 0x0000_3F00) >> 8) as nat
  }

  function Read(word: bv32): Control {
    Control(MagicIn(word) == MAGIC, AdjacentIn(word),
            word & STOPPED != 0, word & COMPLETED != 0, word & EOP != 0)
  }

  /** Where in the word they are. */
  lemma BitPositions()
    ensures STOPPED == 1 << 0 && COMPLETED == 1 << 1 && EOP == 1 << 4 && MAGIC == 0xAD4B << 16
  {
  }

  function WordSetFlags(word: bv32, field: bv32): bv32 {
    word | field
  }

  function WordSetAdjacent(word: bv32, nxtAdj: bv32): bv32 {
    (word & 0xFFFF_C0FF) | (nxtAdj << 8)
  }

  function SetFlags(c: Control, field: bv32): Control {
    c.(stopped := c.stopped || field & STOPPED != 0,
       completed := c.completed || field & COMPLETED != 0,
       eop := c.eop || field & EOP != 0)
  }

  function SetAdjacent(c: Control, nxtAdj: nat): Control {
    c.(adjacent := nxtAdj)
  }

  lemma FlagsFit(f: bv32)
    requires f <= 0xFF
    ensures f & 0xFF == f
  {
  }

  lemma FlagsThroughOr(c: bv32, f: bv32)
    requires f & 0xFF == f
    ensures (c | f) & 0xFF == (c & 0xFF) | f
  {
  }

  lemma RestThroughOr(c: bv32, f: bv32)
    requires f & 0xFF == f
    ensures (c | f) & 0xFFFF_C000 == c & 0xFFFF_C000
  {
  }

  lemma AdjacentThroughOr(c: bv32, f: bv32)
    requires f & 0xFF == f
    ensures WordSetFlags(c, f) & 0x3F00 == c & 0x3F00
  {
  }

  lemma ViewOfMaskedFlagSet(word: bv32, field: bv32)
    requires field & 0xFF == field
    ensures View(WordSetFlags(word, field)) == View(word).(flags := View(word).flags | field)
  {
    FlagsThroughOr(word, field);
    RestThroughOr(word, field);
    AdjacentThroughOr(word, field);
  }

  lemma ViewOfFlagSet(word: bv32, field: bv32)
    requires field <= 0xFF
    ensures View(WordSetFlags(word, field)) == View(word).(flags := View(word).flags | field)
  {
    FlagsFit(field);
    ViewOfMaskedFlagSet(word, field);
  }

  lemma ViewOfAdjacentSet(word: bv32, nxtAdj: bv32)
    requires nxtAdj < 64
    ensures View(WordSetAdjacent(word, nxtAdj)) == View(word).(adjacent := nxtAdj)
  {
  }

  /** The 32-bit word of a small int. */
  function Bits(a: nat): bv32 {
    if a == 0 then 0 else Bits(a - 1) + 1
  }

  /** What the driver computes as an int and shifts into the field is what is read back. */
  lemma {:induction false} BitsRoundTrip(a: nat)
    requires a < 64
    ensures Bits(a) < 64 && Bits(a) as nat == a
  {
    if a > 0 {
      BitsRoundTrip(a - 1);
    }
  }

  lemma FlagThroughOr(word: bv32, field: bv32)
    ensures var now, wanted := Read(WordSetFlags(word, field)), SetFlags(Read(word), field);
            now.stopped == wanted.stopped && now.completed == wanted.completed && now.eop == wanted.eop
  {
  }

  lemma MagicThroughOr(c: bv32, f: bv32)
    requires f & 0xFF == f
    ensures MagicIn(WordSetFlags(c, f)) == MagicIn(c)
  {
  }

  lemma SameNumber(a: bv32, b: bv32)
    requires a == b
    ensures a as nat == b as nat
  {
  }

  lemma AdjacentInThroughOr(c: bv32, f: bv32)
    requires f & 0xFF == f
    ensures AdjacentIn(WordSetFlags(c, f)) == AdjacentIn(c)
  {
    AdjacentThroughOr(c, f);
    hide WordSetFlags;
    SameNumber((WordSetFlags(c, f) & 0x3F00) >> 8, (c & 0x3F00) >> 8);
  }

  lemma ReadRest(word: bv32)
    ensures Read(word).genuine == (MagicIn(word) == MAGIC) && Read(word).adjacent == AdjacentIn(word)
  {
    hide AdjacentIn, MagicIn;
  }

  lemma OtherFieldsThroughOr(word: bv32, field: bv32)
    requires field & 0xFF == field
    ensures Read(WordSetFlags(word, field)).genuine == Read(word).genuine
    ensures Read(WordSetFlags(word, field)).adjacent == Read(word).adjacent
  {
    hide *;
    MagicThroughOr(word, field);
    AdjacentInThroughOr(word, field);
    ReadRest(word);
    ReadRest(WordSetFlags(word, field));
  }

  /** `|=` on the word is setting the flags of the control. */
  lemma ReadOfFlagSet(word: bv32, field: bv32)
    requires field <= 0xFF
    ensures Read(WordSetFlags(word, field)) == SetFlags(Read(word), field)
  {
    assert SetFlags(Read(word), field).genuine == Read(word).genuine
        && SetFlags(Read(word), field).adjacent == Read(word).adjacent;
    FlagsFit(field);
    hide *;
    FlagThroughOr(word, field);
    OtherFieldsThroughOr(word, field);
  }

  lemma MagicThroughShift(c: bv32, a: bv32)
    requires a < 64
    ensures WordSetAdjacent(c, a) & 0xFFFF_0000 == c & 0xFFFF_0000
  {
  }

  lemma FlagThroughShift(c: bv32, a: bv32)
    ensures WordSetAdjacent(c, a) & STOPPED == c & STOPPED
    ensures WordSetAdjacent(c, a) & COMPLETED == c & COMPLETED
    ensures WordSetAdjacent(c, a) & EOP == c & EOP
  {
  }

  lemma AdjacentThroughShift(c: bv32, a: bv32)
    requires a < 64
    ensures (WordSetAdjacent(c, a) & 0x0000_3F00) >> 8 == a
  {
  }

  lemma ReadOfShift(word: bv32, nxtAdj: bv32)
    requires nxtAdj < 64
    ensures Read(WordSetAdjacent(word, nxtAdj)) == SetAdjacent(Read(word), nxtAdj as nat)
  {
    hide WordSetAdjacent;
    MagicThroughShift(word, nxtAdj);
    FlagThroughShift(word, nxtAdj);
    AdjacentThroughShift(word, nxtAdj);
  }

  /** Mask, shift and `|=` on the word is replacing the adjacency of the control. */
  lemma {:induction false} ReadOfAdjacentSet(word: bv32, nxtAdj: nat)
    requires nxtAdj < 64
    ensures Read(WordSetAdjacent(word, Bits(nxtAdj))) == SetAdjacent(Read(word), nxtAdj)
  {
    BitsRoundTrip(nxtAdj);
    ReadOfShift(word, Bits(nxtAdj));
  }

  lemma WordFromFields(c: bv32)
    ensures c == (c & 0xFF) | (((c & 0x3F00) >> 8) << 8) | (c & 0xFFFF_C000)
  {
  }

  /** The view loses nothing. */
  lemma ViewInjective(c: bv32, d: bv32)
    requires View(c) == View(d)
    ensures c == d
  {
    WordFromFields(c);
    WordFromFields(d);
  }

  datatype WordOp = FlagSet(field: bv32) | AdjacentSet(nxtAdj: bv32)

  predicate InRange(op: WordOp) {
    match op
    case FlagSet(f) => f <= 0xFF
    case AdjacentSet(a) => a < 64
  }

  function ApplyAll(word: bv32, ops: seq<WordOp>): bv32 {
    if ops == [] then word else
      var before := ApplyAll(word, ops[..|ops| - 1]);
      match ops[|ops| - 1]
      case FlagSet(f) => WordSetFlags(before, f)
      case AdjacentSet(a) => WordSetAdjacent(before, a)
  }

  /** `flags` together with all flags ever set. */
  function Accumulated(flags: bv32, ops: seq<WordOp>): bv32 {
    if ops == [] then flags else
      match ops[|ops| - 1]
      case FlagSet(f) => Accumulated(flags, ops[..|ops| - 1]) | f
      case AdjacentSet(_) => Accumulated(flags, ops[..|ops| - 1])
  }

  /** The last adjacency set, or `initial` when there was none. */
  function LastAdjacent(initial: bv32, ops: seq<WordOp>): bv32 {
    if ops == [] then initial else
      match ops[|ops| - 1]
      case FlagSet(_) => LastAdjacent(initial, ops[..|ops| - 1])
      case AdjacentSet(a) => a
  }

  /** Over any sequence of in-range sets on any word: flags accumulate, adjacency is
      last-write-wins, and the rest of the word, magic included, never changes. */
  lemma {:induction false} FieldsIndependent(word: bv32, ops: seq<WordOp>)
    requires forall k :: 0 <= k < |ops| ==> InRange(ops[k])
    ensures View(ApplyAll(word, ops)) ==
            Fields(View(word).rest, LastAdjacent(View(word).adjacent, ops),
                    Accumulated(View(word).flags, ops))
  {
    if ops != [] {
      var init, last := ops[..|ops| - 1], ops[|ops| - 1];
      assert InRange(last);
      FieldsIndependent(word, init);
      match last {
        case FlagSet(f) => ViewOfFlagSet(ApplyAll(word, init), f);
        case AdjacentSet(a) => ViewOfAdjacentSet(ApplyAll(word, init), a);
      }
    }
  }
}
