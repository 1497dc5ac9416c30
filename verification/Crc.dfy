/**
 The CRC-32 arithmetic of dspmain_crc32.c and dsptestsck.c: the reflected table, the
 table-driven byte update, and the bit-at-a-time definition they must agree with
 (section 8 of RFC 1952).
 */
module Crc {
  import opened Folds

  const POLYNOMIAL: bv32 := 0xEDB8_8320
  const ALL_ONES: bv32 := 0xFFFF_FFFF

  function Xor(a: bv32, b: bv32): bv32 { a ^ b }

  function Xor8(a: bv8, b: bv8): bv8 { a ^ b }

  function Half(r: bv32): bv32 { r >> 1 }

  function Low(r: bv32): bool { r & 1 == 1 }

  function Carry(c: bool): bv32 { if c then POLYNOMIAL else 0 }

  /** One turn of the inner loop of gen_table: shift right, and add the polynomial if a one fell out. */
  function ShiftStep(r: bv32): bv32 {
    Xor(Half(r), Carry(Low(r)))
  }

  /** What gen_table leaves at index b: eight turns starting from b. */
  function TableEntry(b: bv8): bv32 {
    Iterate(ShiftStep, b as bv32, 8)
  }

  /** The table-driven update with the low byte of a pixel word: tab[(word ^ crc) & 0xff] ^ (crc >> 8). */
  function TableUpdate(crc: bv32, word: bv32): bv32 {
    Xor(TableEntry(TableIndex(crc, word)), crc >> 8)
  }

  function TableIndex(crc: bv32, word: bv32): bv8 {
    ((word ^ crc) & 0xff) as bv8
  }

  /**
   The bit-serial definition.  Each message bit, least significant first, is added to the bit
   about to leave the register; if the sum is one the polynomial is added to what is left.
   */
  function FeedBit(crc: bv32, bit: bool): bv32 {
    Xor(Half(crc), Carry(Low(crc) != bit))
  }

  /** A word and what is left of it after each of eight shifts. */
  function Shifted(w: bv32): (ws: seq<bv32>)
    ensures |ws| == 9 && ws[0] == w && ws[8] == w >> 8
  {
    [w, w >> 1, w >> 2, w >> 3, w >> 4, w >> 5, w >> 6, w >> 7, w >> 8]
  }

  /** The bits of a byte, least significant first. */
  function BitsOf(b: bv8): seq<bool> {
    LowBits(Shifted(b as bv32)[..8])
  }

  function LowBits(ws: seq<bv32>): seq<bool> {
    seq(|ws|, i requires 0 <= i < |ws| => Low(ws[i]))
  }

  function FeedByte(crc: bv32, b: bv8): bv32 {
    Fold(FeedBit, crc, BitsOf(b))
  }

  /** The register after a whole message. */
  function Register(crc: bv32, message: seq<bv8>): bv32 {
    Fold(FeedByte, crc, message)
  }

  /** The CRC-32 of a message: preset to ones, complemented at the end. */
  function Crc32(message: seq<bv8>): bv32 {
    !Register(ALL_ONES, message)
  }

  // ---- addition of words ----

  lemma XorCommutative(a: bv32, b: bv32)
    ensures Xor(a, b) == Xor(b, a)
  {
  }

  lemma XorAssociative(a: bv32, b: bv32, c: bv32)
    ensures Xor(a, Xor(b, c)) == Xor(Xor(a, b), c)
  {
    assert a ^ (b ^ c) == (a ^ b) ^ c;
  }

  lemma XorZero(a: bv32)
    ensures Xor(a, 0) == a
  {
  }

  lemma XorCancels(a: bv32, b: bv32, c: bv32)
    requires Xor(a, b) == Xor(a, c)
    ensures b == c
  {
  }

  lemma XorSwap(a: bv32, b: bv32, c: bv32)
    ensures Xor(Xor(a, b), c) == Xor(Xor(a, c), b)
  {
    XorAssociative(a, b, c);
    XorCommutative(b, c);
    XorAssociative(a, c, b);
  }

  lemma XorInterchange(a: bv32, b: bv32, c: bv32, d: bv32)
    ensures Xor(Xor(a, b), Xor(c, d)) == Xor(Xor(a, c), Xor(b, d))
  {
    XorAssociative(Xor(a, b), c, d);
    XorSwap(a, b, c);
    XorAssociative(Xor(a, c), b, d);
  }

  // ---- the shift step ----

  lemma HalfLinear(a: bv32, b: bv32)
    ensures Half(Xor(a, b)) == Xor(Half(a), Half(b))
  {
  }

  lemma LowLinear(a: bv32, b: bv32)
    ensures Low(Xor(a, b)) == (Low(a) != Low(b))
  {
  }

  lemma CarryLinear(p: bool, q: bool)
    ensures Carry(p != q) == Xor(Carry(p), Carry(q))
  {
  }

  /** The step is linear over the field of two elements. */
  lemma ShiftStepLinear(a: bv32, b: bv32)
    ensures ShiftStep(Xor(a, b)) == Xor(ShiftStep(a), ShiftStep(b))
  {
    HalfLinear(a, b);
    LowLinear(a, b);
    CarryLinear(Low(a), Low(b));
    XorInterchange(Half(a), Half(b), Carry(Low(a)), Carry(Low(b)));
  }

  /** Nothing is lost in a step: the carry can be read off the top bit. */
  lemma ShiftStepInjective(a: bv32, b: bv32)
    requires ShiftStep(a) == ShiftStep(b)
    ensures a == b
  {
  }

  lemma ShiftsLinear(a: bv32, b: bv32, n: nat)
    ensures Iterate(ShiftStep, Xor(a, b), n) == Xor(Iterate(ShiftStep, a, n), Iterate(ShiftStep, b, n))
  {
    forall x, y ensures ShiftStep(Xor(x, y)) == Xor(ShiftStep(x), ShiftStep(y)) {
      ShiftStepLinear(x, y);
    }
    IterateHomomorphism(ShiftStep, Xor, a, b, n);
  }

  lemma ShiftsInjective(a: bv32, b: bv32, n: nat)
    requires Iterate(ShiftStep, a, n) == Iterate(ShiftStep, b, n)
    ensures a == b
  {
    forall x, y | ShiftStep(x) == ShiftStep(y) ensures x == y {
      ShiftStepInjective(x, y);
    }
    IterateInjective(ShiftStep, a, b, n);
  }

  lemma ShiftEven(x: bv32)
    requires !Low(x)
    ensures ShiftStep(x) == Half(x)
  {
    XorZero(Half(x));
  }

  lemma ShiftsChain(w: bv32)
    ensures Half(w) == w >> 1 && Half(w >> 1) == w >> 2 && Half(w >> 2) == w >> 3 && Half(w >> 3) == w >> 4
    ensures Half(w >> 4) == w >> 5 && Half(w >> 5) == w >> 6 && Half(w >> 6) == w >> 7 && Half(w >> 7) == w >> 8
  {
  }

  lemma ShiftedChain(w: bv32)
    ensures forall i :: 0 <= i < 8 ==> Shifted(w)[i + 1] == Half(Shifted(w)[i])
  {
    ShiftsChain(w);
  }

  lemma ClearLowByte(w: bv32)
    requires w & 0xff == 0
    ensures !Low(w) && !Low(w >> 1) && !Low(w >> 2) && !Low(w >> 3)
    ensures !Low(w >> 4) && !Low(w >> 5) && !Low(w >> 6) && !Low(w >> 7)
  {
  }

  /** Eight steps only move a word whose low byte is clear. */
  lemma ShiftsMoveHighBytes(w: bv32)
    requires w & 0xff == 0
    ensures Iterate(ShiftStep, w, 8) == w >> 8
  {
    var ws := Shifted(w);
    ClearLowByte(w);
    ShiftedChain(w);
    forall i | 0 <= i < 8 ensures ShiftStep(ws[i]) == ws[i + 1] {
      ShiftEven(ws[i]);
    }
    IterateChain(ShiftStep, ws);
  }

  // ---- the table is the bit-serial definition ----

  /** Shifting a register with a word added in is feeding the word's low bit and keeping the rest. */
  lemma FeedBitIsShift(crc: bv32, w: bv32)
    ensures ShiftStep(Xor(crc, w)) == Xor(FeedBit(crc, Low(w)), Half(w))
  {
    HalfLinear(crc, w);
    LowLinear(crc, w);
    XorSwap(Half(crc), Half(w), Carry(Low(crc) != Low(w)));
  }

  lemma ByteRunsOut(b: bv8)
    ensures (b as bv32) >> 8 == 0
  {
  }

  /** Feeding eight bits is eight shifts of the register with the byte added in. */
  lemma FeedByteIsShifts(crc: bv32, b: bv8)
    ensures FeedByte(crc, b) == Iterate(ShiftStep, Xor(crc, b as bv32), 8)
  {
    var ws := Shifted(b as bv32);
    ShiftedChain(b as bv32);
    forall c: bv32, i | 0 <= i < 8
      ensures ShiftStep(Xor(c, ws[i])) == Xor(FeedBit(c, BitsOf(b)[i]), ws[i + 1])
    {
      FeedBitIsShift(c, ws[i]);
    }
    IterateIsFold(ShiftStep, FeedBit, Xor, crc, ws, BitsOf(b));
    ByteRunsOut(b);
    XorZero(FeedByte(crc, b));
  }

  lemma TableIndexIsLowByte(crc: bv32, word: bv32)
    ensures TableIndex(crc, word) as bv32 == Xor(crc, word) & 0xff
  {
  }

  lemma SplitLowByte(w: bv32)
    ensures w == Xor(w & 0xff, w & 0xffff_ff00)
    ensures (w & 0xffff_ff00) & 0xff == 0 && (w & 0xffff_ff00) >> 8 == w >> 8
  {
  }

  lemma ByteLeavesHighPart(crc: bv32, b: bv8)
    ensures Xor(crc, b as bv32) >> 8 == crc >> 8
  {
  }

  lemma ShiftsSplit(low: bv32, high: bv32)
    requires high & 0xff == 0
    ensures Iterate(ShiftStep, Xor(low, high), 8) == Xor(Iterate(ShiftStep, low, 8), high >> 8)
  {
    ShiftsLinear(low, high, 8);
    ShiftsMoveHighBytes(high);
  }

  /** One lookup and one shift do what the bit-serial definition does with the whole byte. */
  lemma TableUpdateIsBitSerial(crc: bv32, b: bv8)
    ensures TableUpdate(crc, b as bv32) == FeedByte(crc, b)
  {
    var w := Xor(crc, b as bv32);
    FeedByteIsShifts(crc, b);
    SplitLowByte(w);
    ShiftsSplit(w & 0xff, w & 0xffff_ff00);
    TableIndexIsLowByte(crc, b as bv32);
    ByteLeavesHighPart(crc, b);
  }

  lemma TableIndexIgnoresHighBytes(crc: bv32, word: bv32, b: bv8)
    requires word & 0xff == b as bv32
    ensures TableIndex(crc, word) == TableIndex(crc, b as bv32)
  {
  }

  /** Whatever lies above the low byte of a pixel word does not matter to the update. */
  lemma TableUpdateOfLowByte(crc: bv32, word: bv32, b: bv8)
    requires word & 0xff == b as bv32
    ensures TableUpdate(crc, word) == FeedByte(crc, b)
  {
    TableIndexIgnoresHighBytes(crc, word, b);
    TableUpdateIsBitSerial(crc, b);
  }

  // ---- superposition, composition, injectivity ----

  lemma XorWidens(x: bv8, y: bv8)
    ensures Xor8(x, y) as bv32 == Xor(x as bv32, y as bv32)
  {
  }

  lemma FeedByteLinear(c: bv32, d: bv32, x: bv8, y: bv8)
    ensures FeedByte(Xor(c, d), Xor8(x, y)) == Xor(FeedByte(c, x), FeedByte(d, y))
  {
    FeedByteIsShifts(Xor(c, d), Xor8(x, y));
    FeedByteIsShifts(c, x);
    FeedByteIsShifts(d, y);
    XorWidens(x, y);
    XorInterchange(c, d, x as bv32, y as bv32);
    ShiftsLinear(Xor(c, x as bv32), Xor(d, y as bv32), 8);
  }

  /** Superposition: adding two messages of one length adds their registers. */
  lemma RegisterLinear(c: bv32, d: bv32, xs: seq<bv8>, ys: seq<bv8>)
    requires |xs| == |ys|
    ensures Register(Xor(c, d), Zip(Xor8, xs, ys)) == Xor(Register(c, xs), Register(d, ys))
  {
    forall a, e, x, y ensures FeedByte(Xor(a, e), Xor8(x, y)) == Xor(FeedByte(a, x), FeedByte(e, y)) {
      FeedByteLinear(a, e, x, y);
    }
    FoldHomomorphism(FeedByte, Xor, Xor8, c, d, xs, ys);
  }

  /** A published value: the CRC-32 of the letter a is E8B7BE43; that of nothing is 0. */
  lemma KnownValues()
    ensures Crc32([0x61]) == 0xE8B7_BE43 && Crc32([]) == 0
  {
    var ws: seq<bv32> := [0xFFFF_FF9E, 0x7FFF_FFCF, 0xD247_7CC7, 0x849B_3D43, 0xAFF5_1D81,
      0xBA42_0DE0, 0x5D21_06F0, 0x2E90_8378, 0x1748_41BC];
    KnownSteps(ws);
    FeedByteIsShifts(ALL_ONES, 0x61);
    assert Xor(ALL_ONES, 0x61) == ws[0];
    IterateChain(ShiftStep, ws);
    OneByte(0x61);
  }

  lemma OneByte(b: bv8)
    ensures Register(ALL_ONES, [b]) == FeedByte(ALL_ONES, b)
  {
    var message := [b];
    assert message[..|message| - 1] == [];
    assert Register(ALL_ONES, []) == ALL_ONES;
  }

  lemma KnownSteps(ws: seq<bv32>)
    requires ws == [0xFFFF_FF9E, 0x7FFF_FFCF, 0xD247_7CC7, 0x849B_3D43, 0xAFF5_1D81,
      0xBA42_0DE0, 0x5D21_06F0, 0x2E90_8378, 0x1748_41BC]
    ensures forall i :: 0 <= i < 8 ==> ShiftStep(ws[i]) == ws[i + 1]
  {
  }

  /** Updating over one stretch and then another is updating over both joined. */
  lemma RegisterComposes(crc: bv32, xs: seq<bv8>, ys: seq<bv8>)
    ensures Register(crc, xs + ys) == Register(Register(crc, xs), ys)
  {
    FoldConcat(FeedByte, crc, xs, ys);
  }

  lemma FeedByteInjectiveInState(c: bv32, d: bv32, b: bv8)
    requires FeedByte(c, b) == FeedByte(d, b)
    ensures c == d
  {
    FeedByteIsShifts(c, b);
    FeedByteIsShifts(d, b);
    ShiftsInjective(Xor(c, b as bv32), Xor(d, b as bv32), 8);
    XorCommutative(c, b as bv32);
    XorCommutative(d, b as bv32);
    XorCancels(b as bv32, c, d);
  }

  /** A register difference survives any common continuation. */
  lemma RegisterInjectiveInState(c: bv32, d: bv32, message: seq<bv8>)
    requires Register(c, message) == Register(d, message)
    ensures c == d
  {
    forall a, e, b | FeedByte(a, b) == FeedByte(e, b) ensures a == e {
      FeedByteInjectiveInState(a, e, b);
    }
    FoldInjective(FeedByte, c, d, message);
  }

  // ---- error detection ----

  /** Eight shifts: the round one byte costs. */
  function ShiftByte(r: bv32): bv32 {
    Iterate(ShiftStep, r, 8)
  }

  function Join(low: bv8, high: bv32): bv32 {
    low as bv32 | (high << 8)
  }

  /** A window of bytes as one little-endian word. */
  function Word(bs: seq<bv8>): bv32 {
    FoldRight(Join, 0, bs)
  }

  lemma JoinLow(low: bv8, high: bv32)
    ensures Join(low, high) & 0xff == low as bv32
  {
  }

  lemma JoinHigh(low: bv8, high: bv32)
    requires high & 0xff00_0000 == 0
    ensures Join(low, high) >> 8 == high
  {
  }

  lemma JoinBound(low: bv8, high: bv32)
    ensures high == 0 ==> Join(low, high) & 0xffff_ff00 == 0
    ensures high & 0xffff_ff00 == 0 ==> Join(low, high) & 0xffff_0000 == 0
    ensures high & 0xffff_0000 == 0 ==> Join(low, high) & 0xff00_0000 == 0
  {
  }

  lemma WordBound(bs: seq<bv8>)
    requires |bs| <= 3
    ensures Word(bs) & 0xff00_0000 == 0
  {
    if |bs| > 0 {
      JoinBound(bs[0], Word(bs[1..]));
    }
    if |bs| > 1 {
      JoinBound(bs[1], Word(bs[2..]));
      assert bs[1..][1..] == bs[2..];
    }
    if |bs| > 2 {
      JoinBound(bs[2], Word(bs[3..]));
      assert bs[2..][1..] == bs[3..];
    }
  }

  lemma JoinInjective(a: bv8, b: bv8, u: bv32, v: bv32)
    requires u & 0xff00_0000 == 0 && v & 0xff00_0000 == 0
    requires Join(a, u) == Join(b, v)
    ensures a == b && u == v
  {
    JoinLow(a, u);
    JoinLow(b, v);
    JoinHigh(a, u);
    JoinHigh(b, v);
  }

  /** Feeding the low byte of a word shifts the whole word through and leaves its high part added in. */
  lemma FeedJoined(crc: bv32, low: bv8, high: bv32)
    requires high & 0xff00_0000 == 0
    ensures ShiftByte(Xor(crc, Join(low, high))) == Xor(FeedByte(crc, low), high)
  {
    var w := Join(low, high);
    JoinLow(low, high);
    JoinHigh(low, high);
    SplitLowByte(w);
    XorAssociative(crc, w & 0xff, w & 0xffff_ff00);
    ShiftsSplit(Xor(crc, w & 0xff), w & 0xffff_ff00);
    FeedByteIsShifts(crc, low);
  }

  /** One register reaches one register through two windows of at most four bytes only if they are equal. */
  lemma ShortWindowInjective(crc: bv32, xs: seq<bv8>, ys: seq<bv8>)
    requires |xs| == |ys| <= 4
    requires Register(crc, xs) == Register(crc, ys)
    ensures xs == ys
  {
    forall a, b, rest: seq<bv8> {:trigger Join(b, FoldRight(Join, 0, rest)), FeedByte(a, b)} | |rest| < 4
      ensures ShiftByte(Xor(a, Join(b, FoldRight(Join, 0, rest)))) == Xor(FeedByte(a, b), FoldRight(Join, 0, rest))
    {
      WordBound(rest);
      FeedJoined(a, b, Word(rest));
    }
    forall a, b, us: seq<bv8>, vs: seq<bv8>
      {:trigger Join(a, FoldRight(Join, 0, us)), Join(b, FoldRight(Join, 0, vs))}
      | |us| == |vs| < 4 && Join(a, FoldRight(Join, 0, us)) == Join(b, FoldRight(Join, 0, vs))
      ensures a == b && FoldRight(Join, 0, us) == FoldRight(Join, 0, vs)
    {
      WordBound(us);
      WordBound(vs);
      JoinInjective(a, b, Word(us), Word(vs));
    }
    forall a, b | ShiftByte(a) == ShiftByte(b) ensures a == b {
      ShiftsInjective(a, b, 8);
    }
    forall a, b, c | Xor(a, b) == Xor(a, c) ensures b == c {
      XorCancels(a, b, c);
    }
    WindowInjective(FeedByte, ShiftByte, Xor, Join, 0, 4, crc, xs, ys);
  }

  lemma ComplementInjective(xs: seq<bv8>, ys: seq<bv8>)
    requires Crc32(xs) == Crc32(ys)
    ensures Register(ALL_ONES, xs) == Register(ALL_ONES, ys)
  {
  }

  lemma WindowDeterminesRegister(crc: bv32, before: seq<bv8>, xs: seq<bv8>, ys: seq<bv8>, after: seq<bv8>)
    requires |xs| == |ys| <= 4
    requires Register(crc, before + xs + after) == Register(crc, before + ys + after)
    ensures xs == ys
  {
    var r := Register(crc, before);
    RegisterComposes(crc, before, xs);
    RegisterComposes(crc, before, ys);
    RegisterComposes(crc, before + xs, after);
    RegisterComposes(crc, before + ys, after);
    RegisterInjectiveInState(Register(r, xs), Register(r, ys), after);
    ShortWindowInjective(r, xs, ys);
  }

  /**
   Burst detection: messages of any length that differ only inside a window of at most four
   consecutive bytes have different CRCs.
   */
  lemma BurstDetected(before: seq<bv8>, xs: seq<bv8>, ys: seq<bv8>, after: seq<bv8>)
    requires |xs| == |ys| <= 4
    requires xs != ys
    ensures Crc32(before + xs + after) != Crc32(before + ys + after)
  {
    if Crc32(before + xs + after) == Crc32(before + ys + after) {
      ComplementInjective(before + xs + after, before + ys + after);
      WindowDeterminesRegister(ALL_ONES, before, xs, ys, after);
    }
  }
}
