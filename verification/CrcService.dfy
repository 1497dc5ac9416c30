/**
 process_CRC32MSGSUBID on the DSP: the guard in front of streaming, which requests it lets through
 although they do not fit, and the number it leaves in the message.
 */
module CrcService {
  import opened Crc
  import opened Memory
  import opened Pixels
  import opened Edma
  import opened PingPong
  import Wire

  const L1DBUFBYTES := 15 * 1024 + 512
  const L1DBUF1 := L1DADDR + 1 * 1024
  const L1DBUF2 := L1DADDR + 16 * 1024 + 512
  const SCRATCH_BYTES := 32 * 1024

  type Word = w: int | 0 <= w < 0x1_0000_0000

  /** The fields of a checksum request as the streamer takes them: all unsigned but format and stride. */
  datatype Image = Image(format: int, addr: Address, width: Word, height: Word, stride: int)

  /** The switch on format: 4, 3 and 2 have their own kernel, everything else is taken as bytes. */
  function KernelOf(format: int): Kernel {
    if format == 4 then Kernel32 else if format == 3 then Kernel24 else if format == 2 then Kernel16 else Kernel8
  }

  /** The CRC-32 of an image: the visible bytes of its rows, in order. */
  function ImageCrc(m: seq<bv8>, k: Kernel, src: Address, width: nat, height: nat, stride: int): bv32
    requires |m| == MEMORY_BYTES
  {
    Crc32(Visible(k, Strided(m, src, stride, width * BytesPerPixel(k), height)))
  }

  // ---- the scratch area ----

  /** The DSP with its two halves where the service puts them. */
  ghost predicate Placed(d: Dsp)
  {
    d.mem.Length == MEMORY_BYTES && d.ping == L1DBUF1 && d.pong == L1DBUF2 && d.size == L1DBUFBYTES
  }

  /** The table, the ping buffer and the pong buffer tile the scratch area without overlap. */
  lemma ScratchLayout(d: Dsp)
    requires Placed(d)
    ensures d.Layout()
    ensures forall x :: d.InScratch(x) <==> L1DADDR <= x < L1DADDR + SCRATCH_BYTES
  {
  }

  predicate RowOutside(src: Address, n: nat) {
    forall i :: 0 <= i < n ==> !(L1DADDR <= ByteAddress(src, i) < L1DADDR + SCRATCH_BYTES)
  }

  /** No visible byte of the image lies in the scratch area. */
  predicate ImageOutside(src: Address, stride: int, n: nat, rows: nat)
    decreases rows
  {
    rows == 0 || (RowOutside(src, n) && ImageOutside(Wrap(src + stride), stride, n, rows - 1))
  }

  lemma {:induction false} OutsideIsOutside(d: Dsp, src: Address, stride: int, n: nat, rows: nat)
    requires Placed(d)
    ensures d.RowsOutside(src, stride, n, rows) == ImageOutside(src, stride, n, rows)
    decreases rows
  {
    if rows > 0 {
      ScratchLayout(d);
      assert d.RowOutside(src, n) == RowOutside(src, n);
      OutsideIsOutside(d, Wrap(src + stride), stride, n, rows - 1);
    }
  }

  // ---- the guard ----

  /** width * bytes_per_pixel in 32-bit unsigned arithmetic. */
  function RowBytes32(k: Kernel, width: Word): Word {
    (width * BytesPerPixel(k)) % 0x1_0000_0000
  }

  /** The test process_CRC32MSGSUBID makes before streaming. */
  predicate GuardPasses(k: Kernel, width: Word, height: Word) {
    !(width < 1 || height < 1 || RowBytes32(k, width) > L1DBUFBYTES)
  }

  /** A row fits a half-buffer, and the height stays positive when it is stored in an int. */
  predicate Fits(k: Kernel, width: Word, height: Word) {
    1 <= width * BytesPerPixel(k) <= L1DBUFBYTES && 1 <= height < 0x8000_0000
  }

  /**
   The guard lets through every shape that fits; of those that do not fit it lets through exactly
   the ones whose row length wraps to at most a half-buffer, and the ones of fitting width whose
   height is negative once it is stored in an int.
   */
  lemma GuardExact(k: Kernel, width: Word, height: Word)
    ensures Fits(k, width, height) ==> GuardPasses(k, width, height)
    ensures GuardPasses(k, width, height) && !Fits(k, width, height) <==>
      && 1 <= height
      && (|| (0x1_0000_0000 <= width * BytesPerPixel(k) && RowBytes32(k, width) <= L1DBUFBYTES)
          || (1 <= width * BytesPerPixel(k) <= L1DBUFBYTES && 0x8000_0000 <= height))
  {
    match k
    case Kernel8 =>
    case Kernel16 =>
    case Kernel24 =>
    case Kernel32 =>
  }

  /** A width whose row length wraps: the guard passes although the row is far longer than a half-buffer. */
  lemma GuardAdmitsWrappedWidth()
    ensures GuardPasses(Kernel32, 0x4000_0001, 1)
    ensures !Fits(Kernel32, 0x4000_0001, 1)
  {
  }

  /**
   Behind the guard ping_pong_bytes is divided by the row length, and the guard admits a row length
   of zero: exactly for widths that are multiples of 2^32 / bytes_per_pixel, which bytes do not have.
   */
  lemma GuardAdmitsZeroRowLength(k: Kernel, width: Word, height: Word)
    ensures GuardPasses(k, width, height) && RowBytes32(k, width) == 0 <==>
      && 1 <= height
      && match k
         case Kernel8 => false
         case Kernel16 => width == 0x8000_0000
         case _ => width == 0x4000_0000 || width == 0x8000_0000 || width == 0xC000_0000
  {
    WrapsToZero(width, RowBytes32(k, width), BytesPerPixel(k));
  }

  lemma WrapsToZero(width: Word, r: Word, f: nat)
    requires f == 1 || f == 2 || f == 4
    requires r == (width * f) % 0x1_0000_0000
    ensures r == 0 <==>
      width == 0 || (f >= 2 && width == 0x8000_0000) || (f == 4 && (width == 0x4000_0000 || width == 0xC000_0000))
  {
    var q := (width * f) / 0x1_0000_0000;
    assert width * f == 0x1_0000_0000 * q + r && 0 <= q < 4;
  }

  // ---- the stride ----

  /**
   A block read with the engine's 16-bit row index is the block of the image, whatever memory
   holds, exactly when the stride fits the index or the block has at most one row.
   */
  lemma StrideExact(src: Address, stride: int, n: nat, rows: nat)
    requires -0x8000_0000 <= stride < 0x8000_0000 && n >= 1
    ensures (forall m :: |m| == MEMORY_BYTES ==>
      Strided(m, src, SignExtend16(stride), n, rows) == Strided(m, src, stride, n, rows))
      <==> StrideOk(stride, rows)
  {
    if StrideOk(stride, rows) {
      forall m: seq<bv8> | |m| == MEMORY_BYTES
        ensures Strided(m, src, SignExtend16(stride), n, rows) == Strided(m, src, stride, n, rows)
      {
        StrideKept(m, src, stride, n, rows);
      }
    } else {
      var m := Misread(src, stride, n, rows);
    }
  }

  /** One byte set, where the engine finds the second row and the image has it elsewhere. */
  lemma Misread(src: Address, stride: int, n: nat, rows: nat) returns (m: seq<bv8>)
    requires -0x8000_0000 <= stride < 0x8000_0000 && n >= 1 && !StrideOk(stride, rows)
    ensures |m| == MEMORY_BYTES
    ensures Strided(m, src, SignExtend16(stride), n, rows) != Strided(m, src, stride, n, rows)
  {
    var wrong, right := Wrap(src + SignExtend16(stride)), Wrap(src + stride);
    WrapSeparates(src, SignExtend16(stride), stride);
    m := OneByte(wrong);
    SecondRowAt(m, src, SignExtend16(stride), n, rows);
    SecondRowAt(m, src, stride, n, rows);
    assert m[wrong] != m[right];
  }

  lemma OneByte(at: Address) returns (m: seq<bv8>)
    ensures |m| == MEMORY_BYTES && forall x :: 0 <= x < MEMORY_BYTES ==> m[x] == if x == at then 1 else 0
  {
    m := seq(MEMORY_BYTES, x => if x == at then 1 else 0);
  }

  lemma SecondRowAt(m: seq<bv8>, src: Address, stride: int, n: nat, rows: nat)
    requires |m| == MEMORY_BYTES && n >= 1 && rows >= 2
    ensures |Strided(m, src, stride, n, rows)| > n && Strided(m, src, stride, n, rows)[n] == m[Wrap(src + stride)]
  {
    var next := Wrap(src + stride);
    StridedHead(m, src, stride, n, rows, Strided(m, src, stride, n, rows), 0);
    StridedHead(m, next, stride, n, rows - 1, Strided(m, next, stride, n, rows - 1), 0);
    assert ByteAddress(next, 0) == next;
  }

  lemma WrapSeparates(src: Address, x: int, y: int)
    requires x != y && -0x8000_0000 <= x < 0x8000_0000 && -0x8000_0000 <= y < 0x8000_0000
    ensures Wrap(src + x) != Wrap(src + y)
  {
  }

  /**
   A request that goes wrong: bytes, one pixel wide, two rows 40000 apart.  It fits, both rows make up
   one block, and some memory holds an image whose checksum is not that of the block delivered.
   */
  lemma WideStrideMisread(src: Address) returns (m: seq<bv8>)
    ensures |m| == MEMORY_BYTES
    ensures Fits(Kernel8, 1, 2) && RowsPerDma(L1DBUFBYTES, 1, 2) == 2
    ensures Crc32(Strided(m, src, SignExtend16(40000), 1, 2)) != ImageCrc(m, Kernel8, src, 1, 2, 40000)
  {
    m := Misread(src, 40000, 1, 2);
    var got, meant := Strided(m, src, SignExtend16(40000), 1, 2), Strided(m, src, 40000, 1, 2);
    StridedLength(m, src, SignExtend16(40000), 1, 2);
    StridedLength(m, src, 40000, 1, 2);
    assert got == [] + got + [] && meant == [] + meant + [];
    BurstDetected([], got, meant, []);
  }

  // ---- the answer ----

  /** What streaming needs of a request the guard lets through. */
  predicate Streamable(i: Image) {
    var k := KernelOf(i.format);
    GuardPasses(k, i.width, i.height) ==>
      && Fits(k, i.width, i.height)
      && StrideOk(i.stride, RowsPerDma(L1DBUFBYTES, i.width * BytesPerPixel(k), i.height))
      && ImageOutside(i.addr, i.stride, i.width * BytesPerPixel(k), i.height)
  }

  /** The C int with the bits of a word. */
  function IntOf(w: bv32): Wire.Int32 {
    Wire.Signed(w as int)
  }

  /**
   What the service answers when memory is m: the field as it came when the guard refuses, the
   CRC-32 of the image when it can be streamed, 0 when streaming is refused.
   */
  function ServiceAnswer(m: seq<bv8>, i: Image, field: Wire.Int32, streams: bool): Wire.Int32
    requires |m| == MEMORY_BYTES
  {
    var k := KernelOf(i.format);
    if !GuardPasses(k, i.width, i.height) then field
    else if streams then IntOf(ImageCrc(m, k, i.addr, i.width, i.height, i.stride))
    else 0
  }

  lemma StreamableIsLegal(d: Dsp, i: Image)
    requires Placed(d) && Streamable(i) && GuardPasses(KernelOf(i.format), i.width, i.height)
    ensures Legal(d, i.addr, i.stride, i.width * BytesPerPixel(KernelOf(i.format)), i.height)
  {
    ScratchLayout(d);
    OutsideIsOutside(d, i.addr, i.stride, i.width * BytesPerPixel(KernelOf(i.format)), i.height);
  }

  /** process_dma_in with the register preset, and the complement at the end. */
  method StreamCrc(d: Dsp, k: Kernel, addr: Address, width: nat, height: nat, stride: int,
                   channelsGranted: bool, linkAccepted: bool) returns (crc: bv32)
    requires Legal(d, addr, stride, width * BytesPerPixel(k), height)
    requires !d.pending && !d.inFlight && d.sem == 0 && d.user0 == ALL_ONES
    modifies d, d.mem
    ensures !d.pending && !d.inFlight && d.sem == 0
    ensures channelsGranted && linkAccepted ==> crc == ImageCrc(old(d.mem[..]), k, addr, width, height, stride)
    ensures !channelsGranted || !linkAccepted ==> crc == 0
    ensures forall x :: 0 <= x < MEMORY_BYTES && !d.InScratch(x) ==> d.mem[x] == old(d.mem[x])
  {
    ProcessDmaIn(d, k, addr, width, height, stride, channelsGranted, linkAccepted);
    crc := !d.user0;
  }

  /**
   process_CRC32MSGSUBID.  `field` is the crc32 field of the message as it arrived; the result is
   that field as it is sent back.
   */
  method ProcessCrc32(d: Dsp, i: Image, field: Wire.Int32, channelsGranted: bool, linkAccepted: bool)
    returns (crc32: Wire.Int32)
    requires Placed(d) && Streamable(i)
    requires !d.pending && !d.inFlight && d.sem == 0
    modifies d, d.mem
    ensures crc32 == ServiceAnswer(old(d.mem[..]), i, field, channelsGranted && linkAccepted)
    ensures !d.pending && !d.inFlight && d.sem == 0
    ensures forall x :: 0 <= x < MEMORY_BYTES && !d.InScratch(x) ==> d.mem[x] == old(d.mem[x])
  {
    var kernel := Kernel8;
    if i.format == 4 {
      kernel := Kernel32;
    } else if i.format == 3 {
      kernel := Kernel24;
    } else if i.format == 2 {
      kernel := Kernel16;
    }
    d.user0 := ALL_ONES;
    if !GuardPasses(kernel, i.width, i.height) {
      return field;
    }
    StreamableIsLegal(d, i);
    var crc := StreamCrc(d, kernel, i.addr, i.width, i.height, i.stride, channelsGranted, linkAccepted);
    crc32 := IntOf(crc);
  }
}
