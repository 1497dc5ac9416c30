/**
 The test program's own CRC: a table in an array and one pass over each row, no DMA.
 */
module CpuCrc {
  import opened Crc
  import opened Memory
  import opened Pixels
  import opened Edma
  import opened CrcKernels
  import opened CrcService
  import opened ServiceLaws
  import Wire

  const MAX_CRC_WIDTH := 1024

  ghost predicate AreEntries(words: seq<bv32>) {
    |words| == 256 && forall b :: 0 <= b < 256 ==> words[b] == TableEntry(b as bv8)
  }

  ghost predicate TableFilled(tab: array<bv32>)
    reads tab
  {
    AreEntries(tab[..])
  }

  lemma TheEntries() returns (words: seq<bv32>)
    ensures AreEntries(words)
  {
    words := seq(256, b requires 0 <= b < 256 => TableEntry(b as bv8));
  }

  /** gen_table into g_tab_ptr. */
  method GenTable(tab: array<bv32>)
    requires tab.Length == 256
    modifies tab
    ensures TableFilled(tab)
  {
    ghost var words := TheEntries();
    for b := 0 to 256
      invariant tab[..b] == words[..b]
    {
      tab[b] := GenEntry(b as bv8);
    }
    assert tab[..] == tab[..256] == words[..256] == words;
  }

  /** g_tab_ptr[(word ^ crc) & 0xff] ^ (crc >> 8) */
  method Update(tab: array<bv32>, crc: bv32, word: bv32) returns (r: bv32)
    requires TableFilled(tab)
    ensures r == TableUpdate(crc, word)
  {
    var i := TableIndex(crc, word);
    ByteIndex(i);
    r := Xor(tab[i as int], crc >> 8);
  }

  /** crc_update: the first pixel format indexes with data ^ (crc & 0xff). */
  method CrcUpdate(tab: array<bv32>, crc: bv32, data: seq<bv8>) returns (r: bv32)
    requires TableFilled(tab)
    ensures r == Register(crc, data)
  {
    r := crc;
    for i := 0 to |data|
      invariant r == Register(crc, data[..i])
    {
      TableUpdateIsBitSerial(r, data[i]);
      RegisterNext(crc, data, i);
      r := Update(tab, r, data[i] as bv32);
    }
    assert data[..|data|] == data;
  }

  method CrcUpdate16(tab: array<bv32>, crc: bv32, data: seq<bv8>) returns (r: bv32)
    requires TableFilled(tab) && |data| % 2 == 0
    ensures r == Register(crc, data)
  {
    r := crc;
    var pixels := |data| / 2;
    for n := 0 to pixels
      invariant r == Register(crc, data[..2 * n])
    {
      r := Pixel16At(tab, crc, data, 2 * n, r);
    }
    assert data[..2 * pixels] == data;
  }

  method Pixel16At(tab: array<bv32>, ghost start: bv32, data: seq<bv8>, i: nat, crc: bv32) returns (r: bv32)
    requires TableFilled(tab) && i + 2 <= |data|
    requires crc == Register(start, data[..i])
    ensures r == Register(start, data[..i + 2])
  {
    var pixel := Word16(data[i], data[i + 1]);
    Word16Bytes(data[i], data[i + 1]);
    Pixel16(crc, pixel, data[i], data[i + 1]);
    RegisterNext(start, data, i);
    RegisterNext(start, data, i + 1);
    r := Update(tab, crc, pixel);
    r := Update(tab, r, pixel >> 8);
  }

  method CrcUpdate24(tab: array<bv32>, crc: bv32, data: seq<bv8>) returns (r: bv32)
    requires TableFilled(tab) && |data| % 4 == 0
    ensures r == Register(crc, DropFourth(data))
  {
    r := crc;
    var pixels := |data| / 4;
    for n := 0 to pixels
      invariant r == Register(crc, DropFourth(data[..4 * n]))
    {
      r := Pixel24At(tab, crc, data, 4 * n, r);
    }
    assert data[..4 * pixels] == data;
  }

  method Pixel24At(tab: array<bv32>, ghost start: bv32, data: seq<bv8>, i: nat, crc: bv32) returns (r: bv32)
    requires TableFilled(tab) && i + 4 <= |data|
    requires crc == Register(start, DropFourth(data[..i]))
    ensures r == Register(start, DropFourth(data[..i + 4]))
  {
    var pixel := Load32(data, i);
    Pixel24(crc, pixel, data[i], data[i + 1], data[i + 2]);
    RegisterNextThree(start, data, i);
    r := Update(tab, crc, pixel);
    r := Update(tab, r, pixel >> 8);
    r := Update(tab, r, pixel >> 16);
  }

  method CrcUpdate32(tab: array<bv32>, crc: bv32, data: seq<bv8>) returns (r: bv32)
    requires TableFilled(tab) && |data| % 4 == 0
    ensures r == Register(crc, data)
  {
    r := crc;
    var pixels := |data| / 4;
    for n := 0 to pixels
      invariant r == Register(crc, data[..4 * n])
    {
      r := Pixel32At(tab, crc, data, 4 * n, r);
    }
    assert data[..4 * pixels] == data;
  }

  method Pixel32At(tab: array<bv32>, ghost start: bv32, data: seq<bv8>, i: nat, crc: bv32) returns (r: bv32)
    requires TableFilled(tab) && i + 4 <= |data|
    requires crc == Register(start, data[..i])
    ensures r == Register(start, data[..i + 4])
  {
    var pixel := Load32(data, i);
    Pixel32(crc, pixel, data[i], data[i + 1], data[i + 2], data[i + 3]);
    RegisterNextFour(start, data, i);
    r := Update(tab, crc, pixel);
    r := Update(tab, r, pixel >> 8);
    r := Update(tab, r, pixel >> 16);
    r := Update(tab, r, pixel >> 24);
  }

  method Load32(data: seq<bv8>, i: nat) returns (w: bv32)
    requires i + 4 <= |data|
    ensures w & 0xff == data[i] as bv32 && (w >> 8) & 0xff == data[i + 1] as bv32
    ensures (w >> 16) & 0xff == data[i + 2] as bv32 && (w >> 24) & 0xff == data[i + 3] as bv32
  {
    Word32Bytes(data[i], data[i + 1], data[i + 2], data[i + 3]);
    w := Word32(data[i], data[i + 1], data[i + 2], data[i + 3]);
  }

  /** One row, by the routine for its format. */
  method CrcRow(tab: array<bv32>, format: int, crc: bv32, data: seq<bv8>) returns (r: bv32)
    requires TableFilled(tab) && 1 <= format <= 4 && WholePixels(KernelOf(format), |data|)
    ensures r == Register(crc, Visible(KernelOf(format), data))
  {
    if format == 1 {
      r := CrcUpdate(tab, crc, data);
    } else if format == 2 {
      r := CrcUpdate16(tab, crc, data);
    } else if format == 3 {
      r := CrcUpdate24(tab, crc, data);
    } else {
      r := CrcUpdate32(tab, crc, data);
    }
  }

  lemma StridedNext(m: seq<bv8>, src: Address, stride: int, n: nat, z: nat)
    requires |m| == MEMORY_BYTES
    ensures Strided(m, src, stride, n, z + 1) == Strided(m, src, stride, n, z) + Row(m, RowAddress(src, stride, z), n)
  {
    var at := RowAddress(src, stride, z);
    StridedSplit(m, src, stride, n, z, 1);
    assert Strided(m, Wrap(at + stride), stride, n, 0) == [];
  }

  /** The visible stream grows by the visible bytes of one row. */
  lemma RowExtends(m: seq<bv8>, k: Kernel, crc: bv32, src: Address, stride: int, n: nat, z: nat)
    requires |m| == MEMORY_BYTES
    requires WholePixels(k, n)
    ensures Register(crc, Visible(k, Strided(m, src, stride, n, z + 1))) ==
      Register(Register(crc, Visible(k, Strided(m, src, stride, n, z))),
        Visible(k, Row(m, RowAddress(src, stride, z), n)))
  {
    StridedNext(m, src, stride, n, z);
    KernelComposes(k, crc, Strided(m, src, stride, n, z), Row(m, RowAddress(src, stride, z), n));
  }

  /** The per-row loops of main: rows MAX_CRC_WIDTH pixels apart, complemented at the end. */
  method CpuCrc(mem: array<bv8>, tab: array<bv32>, base: Address, format: int, width: Word, height: Word)
    returns (crc: bv32)
    requires mem.Length == MEMORY_BYTES && TableFilled(tab)
    requires 1 <= format <= 4
    ensures crc == FormatCrc(mem[..], Image(format, base, width, height, MAX_CRC_WIDTH * PixelBytes(format)))
  {
    var bytesPerPixel := if format == 3 then 4 else format;
    ReadsFormat(format);
    var register := CpuRows(mem, tab, base, format, width, bytesPerPixel, height);
    crc := !register;
    ghost var i := Image(format, base, width, height, MAX_CRC_WIDTH * bytesPerPixel);
    RegisterIsFormatCrc(mem[..], i, width * bytesPerPixel, register, crc);
  }

  method CpuRows(mem: array<bv8>, tab: array<bv32>, base: Address, format: int, width: nat, bytesPerPixel: nat,
    height: nat)
    returns (crc: bv32)
    requires mem.Length == MEMORY_BYTES && TableFilled(tab)
    requires 1 <= format <= 4 && bytesPerPixel == BytesPerPixel(KernelOf(format))
    ensures crc == Register(ALL_ONES,
      Visible(KernelOf(format), Strided(mem[..], base, MAX_CRC_WIDTH * bytesPerPixel, width * bytesPerPixel, height)))
  {
    ghost var k, m := KernelOf(format), mem[..];
    var stride, rowBytes := MAX_CRC_WIDTH * bytesPerPixel, width * bytesPerPixel;
    RowsAreWholePixels(k, width, 1);
    crc := ALL_ONES;
    for z := 0 to height
      invariant crc == Register(ALL_ONES, Visible(k, Strided(m, base, stride, rowBytes, z)))
    {
      RowExtends(m, k, ALL_ONES, base, stride, rowBytes, z);
      RowAddressClosed(base, stride, z);
      var row := ReadRow(mem, Wrap(base + stride * z), rowBytes);
      crc := CrcRow(tab, format, crc, row);
    }
  }

  method ReadRow(mem: array<bv8>, at: Address, n: nat) returns (row: seq<bv8>)
    requires mem.Length == MEMORY_BYTES
    ensures row == Row(mem[..], at, n)
  {
    row := [];
    for i := 0 to n
      invariant |row| == i && forall j :: 0 <= j < i ==> row[j] == mem[ByteAddress(at, j)]
    {
      row := row + [mem[ByteAddress(at, i)]];
    }
  }

  /** The images of the test program. */
  predicate OfTest(i: Image) {
    && 1 <= i.format <= 4 && 1 <= i.width <= 1024 && 1 <= i.height <= 1024
    && i.stride == 1024 * PixelBytes(i.format)
  }

  /** They are within what the DSP service supports. */
  lemma TestShapesArePlain(i: Image)
    requires OfTest(i) && Clear(i)
    ensures !Refused(i) && Plain(i) && Streamable(i)
  {
    StreamableExact(i);
  }

  /**
   The comparison main prints: for every format, width and height within the test's limits, the
   CRC the DSP puts in the message is the one computed row by row on the CPU.
   */
  method Compare(d: Dsp, tab: array<bv32>, i: Image) returns (same: bool)
    requires Placed(d) && !d.pending && !d.inFlight && d.sem == 0
    requires TableFilled(tab) && OfTest(i) && Clear(i)
    modifies d, d.mem
    ensures same
  {
    TestShapesArePlain(i);
    ghost var m := d.mem[..];
    var crc := CpuCrc(d.mem, tab, i.addr, i.format, i.width, i.height);
    var crc32 := ProcessCrc32(d, i, 0, true, true);
    SameNumber(m, i, crc32, crc);
    same := Wire.Unsigned(crc32) == crc as int;
  }

  /** The int in the message is, read as unsigned, the checksum of the image. */
  lemma SameNumber(m: seq<bv8>, i: Image, crc32: Wire.Int32, crc: bv32)
    requires |m| == MEMORY_BYTES && OfTest(i) && Clear(i)
    requires crc32 == ServiceAnswer(m, i, 0, true) && crc == FormatCrc(m, i)
    ensures Wire.Unsigned(crc32) == crc as int
  {
    TestShapesArePlain(i);
    StreamedAnswer(m, i, 0, crc32, crc);
    UnsignedIsMod(crc32);
  }

  lemma UnsignedIsMod(v: Wire.Int32)
    ensures Wire.Unsigned(v) == v % 0x1_0000_0000
  {
  }
}
