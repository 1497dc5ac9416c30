/**
 The code the DSP runs while a transfer may be in flight: gen_table, which fills the table area,
 and the four crc_update loops, which walk the half-buffer that is not being written.
 */
module CrcKernels {
  import opened Folds
  import opened Crc
  import opened Memory
  import opened Pixels
  import opened Edma

  /** Byte k of entry n of the finished table. */
  function EntryByte(n: int, k: int): bv8
    requires 0 <= n < 256 && 0 <= k < 4
  {
    ByteOf(TableEntry(n as bv8), k)
  }

  /** t is the finished table as it lies in memory, low byte first. */
  ghost predicate IsTable(t: seq<bv8>) {
    |t| == TABLE_BYTES && forall n, k :: 0 <= n < 256 && 0 <= k < 4 ==> t[4 * n + k] == EntryByte(n, k)
  }

  lemma TheTable() returns (t: seq<bv8>)
    ensures IsTable(t)
  {
    var entries := seq(256, n requires 0 <= n < 256 => seq(4, k requires 0 <= k < 4 => EntryByte(n, k)));
    t := InARow(entries, 256);
    forall n, k | 0 <= n < 256 && 0 <= k < 4 ensures t[4 * n + k] == EntryByte(n, k) {
      assert t[4 * n + k] == entries[n][k];
    }
  }

  lemma InARow<T>(entries: seq<seq<T>>, count: nat) returns (t: seq<T>)
    requires |entries| == count && forall n :: 0 <= n < count ==> |entries[n]| == 4
    ensures |t| == 4 * count
    ensures forall n, k :: 0 <= n < count && 0 <= k < 4 ==> t[4 * n + k] == entries[n][k]
  {
    t := seq(4 * count, j requires 0 <= j < 4 * count => entries[j / 4][j % 4]);
    forall n, k | 0 <= n < count && 0 <= k < 4 ensures t[4 * n + k] == entries[n][k] {
      assert (4 * n + k) / 4 == n && (4 * n + k) % 4 == k;
    }
  }

  /** The first n bytes of the table area are those of t. */
  ghost predicate Filled(d: Dsp, t: seq<bv8>, n: nat)
    requires n <= |t| == TABLE_BYTES
    reads d.mem
  {
    d.mem.Length == MEMORY_BYTES && forall j :: 0 <= j < n ==> d.mem[L1DADDR + j] == t[j]
  }

  ghost predicate TableReady(d: Dsp)
    reads d.mem
  {
    exists t :: IsTable(t) && Filled(d, t, TABLE_BYTES)
  }

  /** The CPU may read `data` from the half at addr: the table is ready and the half is not in flight. */
  ghost predicate Reading(d: Dsp, addr: int, data: seq<bv8>)
    reads d, d.mem
  {
    && d.Valid()
    && TableReady(d)
    && (addr == d.ping || addr == d.pong)
    && |data| <= d.size
    && d.Holds(addr, data)
    && (d.pending ==> d.goal.target != addr)
  }

  // ---- gen_table ----

  lemma ShiftStepBranches(r: bv32)
    ensures ShiftStep(r) == if r & 1 == 1 then (r >> 1) ^ 0xEDB8_8320 else r >> 1
  {
    XorZero(Half(r));
  }

  /** The inner loop of gen_table for one table index. */
  method GenEntry(b: bv8) returns (remainder: bv32)
    ensures remainder == TableEntry(b)
  {
    remainder := b as bv32;
    var bit := 8;
    while bit > 0
      invariant 0 <= bit <= 8
      invariant Iterate(ShiftStep, remainder, bit) == TableEntry(b)
    {
      ShiftStepBranches(remainder);
      if remainder & 1 == 1 {
        remainder := (remainder >> 1) ^ 0xEDB8_8320;
      } else {
        remainder := remainder >> 1;
      }
      bit := bit - 1;
    }
  }

  /** tab_ptr[b] = remainder, as the four bytes of the word. */
  method StoreEntry(d: Dsp, ghost t: seq<bv8>, b: nat, bytes: seq<bv8>)
    requires d.Valid() && b < 256 && |t| == TABLE_BYTES && |bytes| == 4
    requires forall k :: 0 <= k < 4 ==> t[4 * b + k] == bytes[k]
    requires Filled(d, t, 4 * b)
    modifies d.mem, d`inFlight, d`tr, d`goal, d`irqRaised, d`sem
    ensures d.Valid()
    ensures Filled(d, t, 4 * b + 4)
    ensures forall x :: 0 <= x < MEMORY_BYTES && !d.InTable(x) && !d.Busy(x) ==> d.mem[x] == old(d.mem[x])
    ensures d.goal.target == old(d.goal.target) && d.goal.bytes == old(d.goal.bytes)
  {
    StoreTableByte(d, t, 4 * b + 0, bytes[0]);
    StoreTableByte(d, t, 4 * b + 1, bytes[1]);
    StoreTableByte(d, t, 4 * b + 2, bytes[2]);
    StoreTableByte(d, t, 4 * b + 3, bytes[3]);
  }

  method StoreTableByte(d: Dsp, ghost t: seq<bv8>, j: nat, b: bv8)
    requires d.Valid() && j < |t| == TABLE_BYTES && b == t[j]
    requires Filled(d, t, j)
    modifies d.mem, d`inFlight, d`tr, d`goal, d`irqRaised, d`sem
    ensures d.Valid()
    ensures Filled(d, t, j + 1)
    ensures forall x :: 0 <= x < MEMORY_BYTES && !d.InTable(x) && !d.Busy(x) ==> d.mem[x] == old(d.mem[x])
    ensures d.goal.target == old(d.goal.target) && d.goal.bytes == old(d.goal.bytes)
  {
    d.Store(L1DADDR + j, b);
  }

  /** gen_table: all 256 entries, while the first transfer is already running. */
  method GenTable(d: Dsp)
    requires d.Valid()
    modifies d.mem, d`inFlight, d`tr, d`goal, d`irqRaised, d`sem
    ensures d.Valid() && TableReady(d)
    ensures forall x :: 0 <= x < MEMORY_BYTES && !d.InTable(x) && !d.Busy(x) ==> d.mem[x] == old(d.mem[x])
    ensures d.goal.target == old(d.goal.target) && d.goal.bytes == old(d.goal.bytes)
  {
    ghost var t := TheTable();
    for b := 0 to 256
      invariant d.Valid()
      invariant Filled(d, t, 4 * b)
      invariant forall x :: 0 <= x < MEMORY_BYTES && !d.InTable(x) && !d.Busy(x) ==> d.mem[x] == old(d.mem[x])
      invariant d.goal.target == old(d.goal.target) && d.goal.bytes == old(d.goal.bytes)
    {
      var entry := GenEntry(b as bv8);
      StoreEntry(d, t, b, EntryBytes(t, b, entry));
    }
  }

  // ---- reads ----

  method ReadByte(d: Dsp, addr: int, ghost data: seq<bv8>, i: nat) returns (b: bv8)
    requires Reading(d, addr, data) && i < |data|
    modifies d.mem, d`inFlight, d`tr, d`goal, d`irqRaised, d`sem
    ensures Reading(d, addr, data) && b == data[i]
    ensures d.goal.target == old(d.goal.target) && d.goal.bytes == old(d.goal.bytes)
  {
    b := d.Load(addr + i);
  }

  lemma ByteIndex(i: bv8)
    ensures 0 <= i as int < 256 && (i as int) as bv8 == i
  {
  }

  /** The bytes of entry n, as the table holds them. */
  function EntryBytes(ghost t: seq<bv8>, n: nat, entry: bv32): (bs: seq<bv8>)
    requires IsTable(t) && n < 256 && entry == TableEntry(n as bv8)
    ensures |bs| == 4 && forall k :: 0 <= k < 4 ==> t[4 * n + k] == bs[k]
    ensures Word32(bs[0], bs[1], bs[2], bs[3]) == entry
  {
    WordRoundTrip(entry);
    assert forall k :: 0 <= k < 4 ==> EntryByte(n, k) == ByteOf(entry, k);
    [ByteOf(entry, 0), ByteOf(entry, 1), ByteOf(entry, 2), ByteOf(entry, 3)]
  }

  /** Where entry i lies in the table, and that its bytes make up the entry. */
  lemma EntryInTable(d: Dsp, i: bv8) returns (t: seq<bv8>, bytes: seq<bv8>)
    requires TableReady(d)
    ensures 0 <= i as int < 256 && |t| == TABLE_BYTES && Filled(d, t, TABLE_BYTES) && |bytes| == 4
    ensures forall k :: 0 <= k < 4 ==> t[4 * (i as int) + k] == bytes[k]
    ensures Word32(bytes[0], bytes[1], bytes[2], bytes[3]) == TableEntry(i)
  {
    ByteIndex(i);
    t :| IsTable(t) && Filled(d, t, TABLE_BYTES);
    bytes := EntryBytes(t, i as int, TableEntry(i));
  }

  /** tab_ptr[i] */
  method Lookup(d: Dsp, addr: int, ghost data: seq<bv8>, i: bv8) returns (entry: bv32)
    requires Reading(d, addr, data)
    modifies d.mem, d`inFlight, d`tr, d`goal, d`irqRaised, d`sem
    ensures Reading(d, addr, data) && entry == TableEntry(i)
    ensures d.goal.target == old(d.goal.target) && d.goal.bytes == old(d.goal.bytes)
  {
    ghost var t, bytes := EntryInTable(d, i);
    entry := ReadEntry(d, addr, data, t, i as int, bytes);
  }

  method ReadEntry(d: Dsp, addr: int, ghost data: seq<bv8>, ghost t: seq<bv8>, n: nat, ghost bytes: seq<bv8>)
    returns (entry: bv32)
    requires Reading(d, addr, data) && n < 256
    requires |t| == TABLE_BYTES && Filled(d, t, TABLE_BYTES)
    requires |bytes| == 4 && forall k :: 0 <= k < 4 ==> t[4 * n + k] == bytes[k]
    modifies d.mem, d`inFlight, d`tr, d`goal, d`irqRaised, d`sem
    ensures Reading(d, addr, data) && entry == Word32(bytes[0], bytes[1], bytes[2], bytes[3])
    ensures d.goal.target == old(d.goal.target) && d.goal.bytes == old(d.goal.bytes)
  {
    var b0 := ReadTableByte(d, addr, data, t, 4 * n + 0);
    var b1 := ReadTableByte(d, addr, data, t, 4 * n + 1);
    var b2 := ReadTableByte(d, addr, data, t, 4 * n + 2);
    var b3 := ReadTableByte(d, addr, data, t, 4 * n + 3);
    entry := Word32(b0, b1, b2, b3);
  }

  method ReadTableByte(d: Dsp, addr: int, ghost data: seq<bv8>, ghost t: seq<bv8>, j: nat) returns (b: bv8)
    requires Reading(d, addr, data) && j < |t| == TABLE_BYTES && Filled(d, t, TABLE_BYTES)
    modifies d.mem, d`inFlight, d`tr, d`goal, d`irqRaised, d`sem
    ensures Reading(d, addr, data) && Filled(d, t, TABLE_BYTES) && b == t[j]
    ensures d.goal.target == old(d.goal.target) && d.goal.bytes == old(d.goal.bytes)
  {
    b := d.Load(L1DADDR + j);
  }

  /** tab_ptr[(word ^ crc) & 0xff] ^ (crc >> 8) */
  method Update(d: Dsp, addr: int, ghost data: seq<bv8>, crc: bv32, word: bv32) returns (r: bv32)
    requires Reading(d, addr, data)
    modifies d.mem, d`inFlight, d`tr, d`goal, d`irqRaised, d`sem
    ensures Reading(d, addr, data) && r == TableUpdate(crc, word)
    ensures d.goal.target == old(d.goal.target) && d.goal.bytes == old(d.goal.bytes)
  {
    var entry := Lookup(d, addr, data, TableIndex(crc, word));
    r := Xor(entry, crc >> 8);
  }

  /** A 16-bit load. */
  method Read16(d: Dsp, addr: int, ghost data: seq<bv8>, i: nat) returns (w: bv32)
    requires Reading(d, addr, data) && i + 2 <= |data|
    modifies d.mem, d`inFlight, d`tr, d`goal, d`irqRaised, d`sem
    ensures Reading(d, addr, data)
    ensures w & 0xff == data[i] as bv32 && (w >> 8) & 0xff == data[i + 1] as bv32
    ensures d.goal.target == old(d.goal.target) && d.goal.bytes == old(d.goal.bytes)
  {
    var b0 := ReadByte(d, addr, data, i);
    var b1 := ReadByte(d, addr, data, i + 1);
    Word16Bytes(b0, b1);
    w := Word16(b0, b1);
  }

  function WordOf(b0: bv8, b1: bv8, b2: bv8, b3: bv8): (w: bv32)
    ensures w & 0xff == b0 as bv32 && (w >> 8) & 0xff == b1 as bv32
    ensures (w >> 16) & 0xff == b2 as bv32 && (w >> 24) & 0xff == b3 as bv32
  {
    Word32Bytes(b0, b1, b2, b3);
    Word32(b0, b1, b2, b3)
  }

  /** dii->user[0] = crc */
  method StoreCrc(d: Dsp, addr: int, ghost data: seq<bv8>, crc: bv32)
    requires Reading(d, addr, data)
    modifies d`user0
    ensures Reading(d, addr, data) && d.user0 == crc
  {
    d.user0 := crc;
  }

  lemma AllOf(data: seq<bv8>, i: nat)
    requires i == |data|
    ensures data[..i] == data
  {
  }

  /** A 32-bit load. */
  method Read32(d: Dsp, addr: int, ghost data: seq<bv8>, i: nat) returns (w: bv32)
    requires Reading(d, addr, data) && i + 4 <= |data|
    modifies d.mem, d`inFlight, d`tr, d`goal, d`irqRaised, d`sem
    ensures Reading(d, addr, data)
    ensures w & 0xff == data[i] as bv32 && (w >> 8) & 0xff == data[i + 1] as bv32
    ensures (w >> 16) & 0xff == data[i + 2] as bv32 && (w >> 24) & 0xff == data[i + 3] as bv32
    ensures d.goal.target == old(d.goal.target) && d.goal.bytes == old(d.goal.bytes)
  {
    var b0 := ReadByte(d, addr, data, i);
    var b1 := ReadByte(d, addr, data, i + 1);
    var b2 := ReadByte(d, addr, data, i + 2);
    var b3 := ReadByte(d, addr, data, i + 3);
    w := WordOf(b0, b1, b2, b3);
  }

  // ---- one pixel: the register moves from one prefix of the data to the next ----

  method Pixel8At(d: Dsp, addr: int, ghost data: seq<bv8>, i: nat, crc: bv32, ghost start: bv32) returns (r: bv32)
    requires Reading(d, addr, data) && i + 1 <= |data|
    requires crc == Register(start, data[..i])
    modifies d.mem, d`inFlight, d`tr, d`goal, d`irqRaised, d`sem
    ensures Reading(d, addr, data)
    ensures r == Register(start, data[..i + 1])
    ensures d.goal.target == old(d.goal.target) && d.goal.bytes == old(d.goal.bytes)
  {
    var pixel := ReadByte(d, addr, data, i);
    r := Update(d, addr, data, crc, pixel as bv32);
    TableUpdateIsBitSerial(crc, pixel);
    RegisterNext(start, data, i);
  }

  method Pixel16At(d: Dsp, addr: int, ghost data: seq<bv8>, i: nat, crc: bv32, ghost start: bv32) returns (r: bv32)
    requires Reading(d, addr, data) && i + 2 <= |data|
    requires crc == Register(start, data[..i])
    modifies d.mem, d`inFlight, d`tr, d`goal, d`irqRaised, d`sem
    ensures Reading(d, addr, data)
    ensures r == Register(start, data[..i + 2])
    ensures d.goal.target == old(d.goal.target) && d.goal.bytes == old(d.goal.bytes)
  {
    var pixel := Read16(d, addr, data, i);
    r := Update(d, addr, data, crc, pixel);
    r := Update(d, addr, data, r, pixel >> 8);
    Pixel16(crc, pixel, data[i], data[i + 1]);
    RegisterNext(start, data, i);
    RegisterNext(start, data, i + 1);
  }

  method Pixel24At(d: Dsp, addr: int, ghost data: seq<bv8>, i: nat, crc: bv32, ghost start: bv32) returns (r: bv32)
    requires Reading(d, addr, data) && i + 4 <= |data|
    requires crc == Register(start, DropFourth(data[..i]))
    modifies d.mem, d`inFlight, d`tr, d`goal, d`irqRaised, d`sem
    ensures Reading(d, addr, data)
    ensures r == Register(start, DropFourth(data[..i + 4]))
    ensures d.goal.target == old(d.goal.target) && d.goal.bytes == old(d.goal.bytes)
  {
    var pixel := Read32(d, addr, data, i);
    r := Update(d, addr, data, crc, pixel);
    r := Update(d, addr, data, r, pixel >> 8);
    r := Update(d, addr, data, r, pixel >> 16);
    Pixel24(crc, pixel, data[i], data[i + 1], data[i + 2]);
    RegisterNextThree(start, data, i);
  }

  method Pixel32At(d: Dsp, addr: int, ghost data: seq<bv8>, i: nat, crc: bv32, ghost start: bv32) returns (r: bv32)
    requires Reading(d, addr, data) && i + 4 <= |data|
    requires crc == Register(start, data[..i])
    modifies d.mem, d`inFlight, d`tr, d`goal, d`irqRaised, d`sem
    ensures Reading(d, addr, data)
    ensures r == Register(start, data[..i + 4])
    ensures d.goal.target == old(d.goal.target) && d.goal.bytes == old(d.goal.bytes)
  {
    var pixel := Read32(d, addr, data, i);
    r := Update(d, addr, data, crc, pixel);
    r := Update(d, addr, data, r, pixel >> 8);
    r := Update(d, addr, data, r, pixel >> 16);
    r := Update(d, addr, data, r, pixel >> 24);
    Pixel32(crc, pixel, data[i], data[i + 1], data[i + 2], data[i + 3]);
    RegisterNextFour(start, data, i);
  }

  lemma RegisterNext(crc: bv32, data: seq<bv8>, i: nat)
    requires i < |data|
    ensures Register(crc, data[..i + 1]) == FeedByte(Register(crc, data[..i]), data[i])
  {
    RegisterAppend(crc, data[..i], data[i]);
    assert data[..i + 1] == data[..i] + [data[i]];
  }

  lemma RegisterNextThree(crc: bv32, data: seq<bv8>, i: nat)
    requires i + 4 <= |data|
    ensures Register(crc, DropFourth(data[..i + 4])) ==
      FeedByte(FeedByte(FeedByte(Register(crc, DropFourth(data[..i])), data[i]), data[i + 1]), data[i + 2])
  {
    var seen := DropFourth(data[..i]);
    assert data[..i + 4][..i] == data[..i];
    assert data[..i + 4][i..i + 3] == [data[i]] + [data[i + 1]] + [data[i + 2]];
    assert DropFourth(data[..i + 4]) == ((seen + [data[i]]) + [data[i + 1]]) + [data[i + 2]];
    RegisterAppend(crc, seen, data[i]);
    RegisterAppend(crc, seen + [data[i]], data[i + 1]);
    RegisterAppend(crc, (seen + [data[i]]) + [data[i + 1]], data[i + 2]);
  }

  lemma RegisterNextFour(crc: bv32, data: seq<bv8>, i: nat)
    requires i + 4 <= |data|
    ensures Register(crc, data[..i + 4]) ==
      FeedByte(FeedByte(FeedByte(FeedByte(Register(crc, data[..i]), data[i]), data[i + 1]), data[i + 2]), data[i + 3])
  {
    RegisterNext(crc, data, i);
    RegisterNext(crc, data, i + 1);
    RegisterNext(crc, data, i + 2);
    RegisterNext(crc, data, i + 3);
  }

  // ---- the four loops ----

  method CrcUpdate8(d: Dsp, addr: int, bytes: nat, ghost data: seq<bv8>)
    requires Reading(d, addr, data) && bytes == |data|
    modifies d.mem, d`inFlight, d`tr, d`goal, d`irqRaised, d`sem, d`user0
    ensures Reading(d, addr, data)
    ensures d.user0 == Register(old(d.user0), data)
    ensures d.goal.target == old(d.goal.target) && d.goal.bytes == old(d.goal.bytes)
  {
    var crc := d.user0;
    ghost var start, i := crc, 0;
    var p, end := addr, addr + bytes;
    while p < end
      invariant p == addr + i && i <= bytes
      invariant Reading(d, addr, data)
      invariant crc == Register(start, data[..i])
      invariant d.user0 == start
      invariant d.goal.target == old(d.goal.target) && d.goal.bytes == old(d.goal.bytes)
      decreases end - p
    {
      crc := Pixel8At(d, addr, data, p - addr, crc, start);
      p, i := p + 1, i + 1;
    }
    AllOf(data, i);
    StoreCrc(d, addr, data, crc);
  }

  method CrcUpdate16(d: Dsp, addr: int, bytes: nat, ghost data: seq<bv8>)
    requires Reading(d, addr, data) && bytes == |data| && bytes % 2 == 0
    modifies d.mem, d`inFlight, d`tr, d`goal, d`irqRaised, d`sem, d`user0
    ensures Reading(d, addr, data)
    ensures d.user0 == Register(old(d.user0), data)
    ensures d.goal.target == old(d.goal.target) && d.goal.bytes == old(d.goal.bytes)
  {
    var crc := d.user0;
    ghost var start, i, left := crc, 0, bytes / 2;
    var p, end := addr, addr + bytes;
    while p < end
      invariant p == addr + i && i <= bytes && bytes - i == 2 * left
      invariant Reading(d, addr, data)
      invariant crc == Register(start, data[..i])
      invariant d.user0 == start
      invariant d.goal.target == old(d.goal.target) && d.goal.bytes == old(d.goal.bytes)
      decreases end - p
    {
      crc := Pixel16At(d, addr, data, p - addr, crc, start);
      p, i, left := p + 2, i + 2, left - 1;
    }
    AllOf(data, i);
    StoreCrc(d, addr, data, crc);
  }

  method CrcUpdate24(d: Dsp, addr: int, bytes: nat, ghost data: seq<bv8>)
    requires Reading(d, addr, data) && bytes == |data| && bytes % 4 == 0
    modifies d.mem, d`inFlight, d`tr, d`goal, d`irqRaised, d`sem, d`user0
    ensures Reading(d, addr, data)
    ensures d.user0 == Register(old(d.user0), DropFourth(data))
    ensures d.goal.target == old(d.goal.target) && d.goal.bytes == old(d.goal.bytes)
  {
    var crc := d.user0;
    ghost var start, i, left := crc, 0, bytes / 4;
    var p, end := addr, addr + bytes;
    while p < end
      invariant p == addr + i && i <= bytes && bytes - i == 4 * left
      invariant Reading(d, addr, data)
      invariant crc == Register(start, DropFourth(data[..i]))
      invariant d.user0 == start
      invariant d.goal.target == old(d.goal.target) && d.goal.bytes == old(d.goal.bytes)
      decreases end - p
    {
      crc := Pixel24At(d, addr, data, p - addr, crc, start);
      p, i, left := p + 4, i + 4, left - 1;
    }
    AllOf(data, i);
    StoreCrc(d, addr, data, crc);
  }

  method CrcUpdate32(d: Dsp, addr: int, bytes: nat, ghost data: seq<bv8>)
    requires Reading(d, addr, data) && bytes == |data| && bytes % 4 == 0
    modifies d.mem, d`inFlight, d`tr, d`goal, d`irqRaised, d`sem, d`user0
    ensures Reading(d, addr, data)
    ensures d.user0 == Register(old(d.user0), data)
    ensures d.goal.target == old(d.goal.target) && d.goal.bytes == old(d.goal.bytes)
  {
    var crc := d.user0;
    ghost var start, i, left := crc, 0, bytes / 4;
    var p, end := addr, addr + bytes;
    while p < end
      invariant p == addr + i && i <= bytes && bytes - i == 4 * left
      invariant Reading(d, addr, data)
      invariant crc == Register(start, data[..i])
      invariant d.user0 == start
      invariant d.goal.target == old(d.goal.target) && d.goal.bytes == old(d.goal.bytes)
      decreases end - p
    {
      crc := Pixel32At(d, addr, data, p - addr, crc, start);
      p, i, left := p + 4, i + 4, left - 1;
    }
    AllOf(data, i);
    StoreCrc(d, addr, data, crc);
  }

  /** dii->process: the callback selected for the pixel format. */
  method Process(d: Dsp, k: Kernel, addr: int, bytes: nat, ghost data: seq<bv8>)
    requires Reading(d, addr, data) && bytes == |data| && WholePixels(k, bytes)
    modifies d.mem, d`inFlight, d`tr, d`goal, d`irqRaised, d`sem, d`user0, d`consumed
    ensures Reading(d, addr, data)
    ensures d.user0 == Register(old(d.user0), Visible(k, data))
    ensures d.consumed == old(d.consumed) + data
    ensures d.goal.target == old(d.goal.target) && d.goal.bytes == old(d.goal.bytes)
  {
    d.consumed := d.consumed + data;
    match k
    case Kernel8 => CrcUpdate8(d, addr, bytes, data);
    case Kernel16 => CrcUpdate16(d, addr, bytes, data);
    case Kernel24 => CrcUpdate24(d, addr, bytes, data);
    case Kernel32 => CrcUpdate32(d, addr, bytes, data);
  }
}
