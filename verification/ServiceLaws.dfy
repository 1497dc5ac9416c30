/**
 What the DSP answers, said from the request's own fields and the bytes of memory, number by number: how
 each format is read, when a request is refused, and what a product keeps of its 64 bits.
 */
module ServiceLaws {
  import opened Framing
  import opened Crc
  import opened Memory
  import opened Pixels
  import opened Edma
  import opened PingPong
  import opened CrcService
  import opened DspTask
  import opened Daemon
  import opened ImageTheorems
  import Wire

  // ---- the bytes of an image ----

  /** Bytes a pixel takes in memory. */
  function PixelBytes(format: int): nat {
    if format == 3 || format == 4 then 4 else if format == 2 then 2 else 1
  }

  /** Bytes of it that go into the checksum: all but the top one of a 24-bit pixel. */
  function UsedBytes(format: int): nat {
    if format == 3 then 3 else PixelBytes(format)
  }

  /** The first `used` bytes of the pixel at a. */
  function PixelAt(m: Snapshot, a: int, used: nat): seq<bv8> {
    seq(used, j requires 0 <= j < used => m[(a + j) % 0x1_0000_0000])
  }

  /** Those of width pixels, `size` bytes apart. */
  function RowAt(m: Snapshot, a: int, width: nat, size: nat, used: nat): seq<bv8> {
    Flatten(seq(width, p requires 0 <= p < width => PixelAt(m, a + size * p, used)))
  }

  /** Those of height rows, stride bytes apart. */
  function ImageAt(m: Snapshot, a: int, width: nat, height: nat, stride: int, size: nat, used: nat): seq<bv8> {
    Flatten(seq(height, r requires 0 <= r < height => RowAt(m, a + stride * r, width, size, used)))
  }

  lemma PixelWraps(m: Snapshot, a: int, used: nat)
    ensures PixelAt(m, Wrap(a), used) == PixelAt(m, a, used)
  {
    forall j | 0 <= j < used
      ensures PixelAt(m, Wrap(a), used)[j] == PixelAt(m, a, used)[j]
    {
      WrapAdds(a, j);
    }
  }

  lemma RowWraps(m: Snapshot, a: int, width: nat, size: nat, used: nat)
    ensures RowAt(m, Wrap(a), width, size, used) == RowAt(m, a, width, size, used)
  {
    forall p | 0 <= p < width
      ensures PixelAt(m, Wrap(a) + size * p, used) == PixelAt(m, a + size * p, used)
    {
      WrapAdds(a, size * p);
      PixelWraps(m, Wrap(a) + size * p, used);
      PixelWraps(m, a + size * p, used);
    }
    assert seq(width, p requires 0 <= p < width => PixelAt(m, Wrap(a) + size * p, used))
        == seq(width, p requires 0 <= p < width => PixelAt(m, a + size * p, used));
  }

  lemma RowAtNext(m: Snapshot, a: int, width: nat, size: nat, used: nat)
    requires width > 0
    ensures RowAt(m, a, width, size, used) == PixelAt(m, a, used) + RowAt(m, a + size, width - 1, size, used)
  {
    var all := seq(width, p requires 0 <= p < width => PixelAt(m, a + size * p, used));
    var later := seq(width - 1, p requires 0 <= p < width - 1 => PixelAt(m, a + size + size * p, used));
    forall p | 0 <= p < width - 1
      ensures all[1..][p] == later[p]
    {
      assert a + size * (p + 1) == a + size + size * p;
    }
    assert all[1..] == later;
    assert all[0] == PixelAt(m, a, used);
  }

  lemma ImageAtNext(m: Snapshot, a: int, width: nat, height: nat, stride: int, size: nat, used: nat)
    requires height > 0
    ensures ImageAt(m, a, width, height, stride, size, used)
         == RowAt(m, a, width, size, used) + ImageAt(m, a + stride, width, height - 1, stride, size, used)
  {
    var all := seq(height, r requires 0 <= r < height => RowAt(m, a + stride * r, width, size, used));
    var later := seq(height - 1, r requires 0 <= r < height - 1 => RowAt(m, a + stride
      + stride * r, width, size, used));
    forall r | 0 <= r < height - 1
      ensures all[1..][r] == later[r]
    {
      assert a + stride * (r + 1) == a + stride + stride * r;
    }
    assert all[1..] == later;
    assert all[0] == RowAt(m, a, width, size, used);
  }

  lemma {:induction false} ImageWraps(m: Snapshot, a: int, width: nat, height: nat, stride: int, size: nat, used: nat)
    ensures ImageAt(m, Wrap(a), width, height, stride, size, used) == ImageAt(m, a, width, height, stride, size, used)
    decreases height
  {
    if height > 0 {
      ImageAtNext(m, Wrap(a), width, height, stride, size, used);
      ImageAtNext(m, a, width, height, stride, size, used);
      RowWraps(m, a, width, size, used);
      ImageWraps(m, Wrap(a) + stride, width, height - 1, stride, size, used);
      ImageWraps(m, a + stride, width, height - 1, stride, size, used);
      WrapAdds(a, stride);
    }
  }

  /** The rows of a strided image, one after the other: row r starts stride * r behind the first. */
  function RowsOf(m: Snapshot, src: int, stride: int, n: nat, rows: nat): seq<seq<bv8>> {
    seq(rows, r requires 0 <= r < rows => Row(m, Wrap(src + stride * r), n))
  }

  lemma RowsNext(m: Snapshot, src: int, stride: int, n: nat, rows: nat)
    requires rows > 0
    ensures RowsOf(m, src, stride, n, rows) == [Row(m, Wrap(src), n)] + RowsOf(m, src + stride, stride, n, rows - 1)
  {
    var all, later := RowsOf(m, src, stride, n, rows), RowsOf(m, src + stride, stride, n, rows - 1);
    forall r | 0 <= r < rows - 1
      ensures all[1..][r] == later[r]
    {
      assert src + stride * (r + 1) == src + stride + stride * r;
    }
    assert all[1..] == later;
    assert all == [all[0]] + all[1..];
  }

  lemma RowsWrap(m: Snapshot, src: int, stride: int, n: nat, rows: nat)
    ensures RowsOf(m, Wrap(src), stride, n, rows) == RowsOf(m, src, stride, n, rows)
  {
    forall r | 0 <= r < rows
      ensures RowsOf(m, Wrap(src), stride, n, rows)[r] == RowsOf(m, src, stride, n, rows)[r]
    {
      WrapAdds(src, stride * r);
    }
  }

  /** What process_dma_in hands over is the image's rows in this order. */
  lemma {:induction false} StridedIsRows(m: Snapshot, src: Address, stride: int, n: nat, rows: nat)
    ensures Strided(m, src, stride, n, rows) == Flatten(RowsOf(m, src, stride, n, rows))
    decreases rows
  {
    if rows > 0 {
      StridedIsRows(m, Wrap(src + stride), stride, n, rows - 1);
      RowsGrow(m, src, stride, n, rows, Strided(m, Wrap(src + stride), stride, n, rows - 1));
    }
  }

  lemma RowsGrow(m: Snapshot, src: Address, stride: int, n: nat, rows: nat, rest: seq<bv8>)
    requires rows > 0 && rest == Flatten(RowsOf(m, Wrap(src + stride), stride, n, rows - 1))
    ensures Row(m, src, n) + rest == Flatten(RowsOf(m, src, stride, n, rows))
  {
    RowsWrap(m, src + stride, stride, n, rows - 1);
    RowsNext(m, src, stride, n, rows);
    FirstOfRows(Row(m, src, n), RowsOf(m, src + stride, stride, n, rows - 1));
  }

  lemma FirstOfRows<T>(first: seq<T>, later: seq<seq<T>>)
    ensures Flatten([first] + later) == first + Flatten(later)
  {
    assert ([first] + later)[1..] == later;
  }

  // ---- what the kernels read is that ----

  /** Bytes of a pixel in memory and bytes used of it, kernel by kernel. */
  predicate Reads(k: Kernel, size: nat, used: nat) {
    match k
    case Kernel8 => size == used == 1
    case Kernel16 => size == used == 2
    case Kernel24 => size == 4 && used == 3
    case Kernel32 => size == used == 4
  }

  lemma VisiblePixel(m: Snapshot, k: Kernel, a: Address, size: nat, used: nat)
    requires Reads(k, size, used)
    ensures Visible(k, Row(m, a, size)) == PixelAt(m, a, used)
  {
    var row := Row(m, a, size);
    if k == Kernel24 {
      assert DropFourth(row[..0]) == [];
      assert DropFourth(row) == row[0..3];
    }
  }

  lemma RowSplit(m: Snapshot, a: Address, n: nat, rest: nat)
    ensures Row(m, a, n + rest) == Row(m, a, n) + Row(m, Wrap(a + n), rest)
  {
    forall i | n <= i < n + rest
      ensures ByteAddress(a, i) == ByteAddress(Wrap(a + n), i - n)
    {
      WrapAdds(a + n, i - n);
    }
  }

  lemma {:induction false} VisibleRow(m: Snapshot, k: Kernel, a: Address, width: nat, size: nat, used: nat, n: nat)
    requires Reads(k, size, used) && n == size * width
    ensures Visible(k, Row(m, a, n)) == RowAt(m, a, width, size, used)
    decreases width
  {
    if width == 0 {
      NothingVisible(m, k, a);
    } else {
      var rest := size * (width - 1);
      VisibleRow(m, k, Wrap(a + size), width - 1, size, used, rest);
      VisibleRowGrows(m, k, a, width, size, used, n, rest);
    }
  }

  lemma VisibleRowGrows(m: Snapshot, k: Kernel, a: Address, width: nat, size: nat, used: nat, n: nat, rest: nat)
    requires Reads(k, size, used) && width > 0 && n == size * width && rest == size * (width - 1)
    requires Visible(k, Row(m, Wrap(a + size), rest)) == RowAt(m, Wrap(a + size), width - 1, size, used)
    ensures Visible(k, Row(m, a, n)) == RowAt(m, a, width, size, used)
  {
    VisibleRowNext(m, k, a, width, size, used, n, rest);
    RowWraps(m, a + size, width - 1, size, used);
    RowAtNext(m, a, width, size, used);
  }

  lemma NothingVisible(m: Snapshot, k: Kernel, a: Address)
    ensures Visible(k, Row(m, a, 0)) == []
  {
    assert Row(m, a, 0) == [];
  }

  lemma VisibleRowNext(m: Snapshot, k: Kernel, a: Address, width: nat, size: nat, used: nat, n: nat, rest: nat)
    requires Reads(k, size, used) && width > 0 && n == size * width && rest == size * (width - 1)
    ensures Visible(k, Row(m, a, n)) == PixelAt(m, a, used) + Visible(k, Row(m, Wrap(a + size), rest))
  {
    assert n == size + rest;
    RowSplit(m, a, size, rest);
    PixelsAreWhole(k, size, used, width - 1);
    VisibleConcat(k, Row(m, a, size), Row(m, Wrap(a + size), rest));
    VisiblePixel(m, k, a, size, used);
  }

  lemma PixelsAreWhole(k: Kernel, size: nat, used: nat, width: nat)
    requires Reads(k, size, used)
    ensures WholePixels(k, size * width) && size == BytesPerPixel(k)
  {
  }

  lemma {:induction false} VisibleImage(m: Snapshot, k: Kernel, a: Address, width: nat, height: nat, stride: int,
    size: nat, used: nat)
    requires Reads(k, size, used)
    ensures Visible(k, Strided(m, a, stride, size * width, height)) == ImageAt(m, a, width, height, stride, size, used)
    decreases height
  {
    if height > 0 {
      var next := Wrap(a + stride);
      PixelsAreWhole(k, size, used, width);
      VisibleOfRows(m, k, a, stride, size * width, height);
      VisibleRow(m, k, a, width, size, used, size * width);
      VisibleImage(m, k, next, width, height - 1, stride, size, used);
      ImageWraps(m, a + stride, width, height - 1, stride, size, used);
      ImageAtNext(m, a, width, height, stride, size, used);
    }
  }

  lemma ReadsFormat(format: int)
    ensures Reads(KernelOf(format), PixelBytes(format), UsedBytes(format))
  {
  }

  // ---- which requests are refused, and which the code is made for ----

  predicate Refused(i: Image) {
    i.width == 0 || i.height == 0 || (i.width * PixelBytes(i.format)) % 0x1_0000_0000 > 15872
  }

  /** The address of column c of row r. */
  function SourceOf(i: Image, r: int, c: int): Address {
    (i.addr + i.stride * r + c) % 0x1_0000_0000
  }

  /** No byte of the rows lies in the 32 KiB of scratch memory. */
  predicate Clear(i: Image) {
    forall r, c :: 0 <= r < i.height && 0 <= c < i.width * PixelBytes(i.format) ==>
      !(0x10F0_C000 <= SourceOf(i, r, c) < 0x10F1_4000)
  }

  /** A row fits a half-buffer, and several rows go into one block only if the stride fits 16 bits. */
  predicate Plain(i: Image) {
    var n := i.width * PixelBytes(i.format);
    && n <= 15872 && i.height < 0x8000_0000
    && (-0x8000 <= i.stride < 0x8000 || i.height <= 1 || 2 * n > 15872)
    && Clear(i)
  }

  /** Columns of rows further on are columns of the rest of the image. */
  lemma SourceNext(i: Image, r: nat, c: nat)
    ensures SourceOf(i.(addr := Wrap(i.addr + i.stride)), r, c) == SourceOf(i, r + 1, c)
  {
    WrapAdds(i.addr + i.stride, i.stride * r + c);
    assert i.stride * (r + 1) == i.stride + i.stride * r;
  }

  lemma SourceFirst(i: Image, c: nat)
    ensures SourceOf(i, 0, c) == ByteAddress(i.addr, c)
  {
  }

  /** The column tests of Clear, for rows of n bytes. */
  predicate ClearRows(i: Image, n: nat) {
    forall r, c :: 0 <= r < i.height && 0 <= c < n ==> !(0x10F0_C000 <= SourceOf(i, r, c) < 0x10F1_4000)
  }

  lemma FirstRowClear(i: Image, n: nat)
    requires i.height > 0 && ClearRows(i, n)
    ensures RowOutside(i.addr, n)
  {
    forall c | 0 <= c < n
      ensures !(L1DADDR <= ByteAddress(i.addr, c) < L1DADDR + SCRATCH_BYTES)
    {
      SourceFirst(i, c);
      assert !(0x10F0_C000 <= SourceOf(i, 0, c) < 0x10F1_4000);
    }
  }

  lemma OtherRowsClear(i: Image, next: Image, n: nat)
    requires i.height > 0 && next == i.(addr := Wrap(i.addr + i.stride), height := i.height - 1)
    ensures RowOutside(i.addr, n) && ClearRows(next, n) ==> ClearRows(i, n)
    ensures ClearRows(i, n) ==> ClearRows(next, n)
  {
    forall r, c | 0 <= r < next.height && 0 <= c < n
      ensures SourceOf(next, r, c) == SourceOf(i, r + 1, c)
    {
      SourceNext(i, r, c);
    }
    forall r, c | 0 <= r < i.height && 0 <= c < n && RowOutside(i.addr, n) && ClearRows(next, n)
      ensures !(0x10F0_C000 <= SourceOf(i, r, c) < 0x10F1_4000)
    {
      if r == 0 {
        SourceFirst(i, c);
      } else {
        assert SourceOf(next, r - 1, c) == SourceOf(i, r, c);
      }
    }
  }

  lemma {:induction false} OutsideIsClear(i: Image, n: nat)
    ensures ImageOutside(i.addr, i.stride, n, i.height) <==> ClearRows(i, n)
    decreases i.height
  {
    if i.height > 0 {
      var next := i.(addr := Wrap(i.addr + i.stride), height := i.height - 1);
      OutsideIsClear(next, n);
      OtherRowsClear(i, next, n);
      if ClearRows(i, n) {
        FirstRowClear(i, n);
      }
    }
  }

  lemma OneRowPerBlock(n: nat, height: nat)
    requires 1 <= n <= 15872 && height >= 1
    ensures RowsPerDma(L1DBUFBYTES, n, height) <= 1 <==> height <= 1 || 2 * n > 15872
  {
    var q := L1DBUFBYTES / n;
    assert q * n <= L1DBUFBYTES < (q + 1) * n;
    if q >= 2 {
      MulMonotone(n, 2, q);
    } else {
      MulMonotone(n, q + 1, 2);
    }
  }

  /** The guard refuses exactly the refused requests, and streaming is made for exactly the plain ones. */
  lemma StreamableExact(i: Image)
    ensures GuardPasses(KernelOf(i.format), i.width, i.height) <==> !Refused(i)
    ensures Streamable(i) <==> Refused(i) || Plain(i)
  {
    var n := i.width * PixelBytes(i.format);
    ReadsFormat(i.format);
    assert BytesPerPixel(KernelOf(i.format)) == PixelBytes(i.format);
    OutsideIsClear(i, n);
    if !Refused(i) && n <= 15872 {
      OneRowPerBlock(n, i.height);
    }
  }

  // ---- the answer to a checksum request ----

  lemma SignedBits(u: int)
    requires 0 <= u < 0x1_0000_0000
    ensures Wire.Signed(u) % 0x1_0000_0000 == u
  {
  }

  /** The answer keeps all bits of the checksum. */
  lemma AnswerBits(w: bv32)
    ensures IntOf(w) % 0x1_0000_0000 == w as int
  {
    SignedBits(w as int);
  }

  /** The CRC-32 an image of this format is to have. */
  function FormatCrc(m: Snapshot, i: Image): bv32 {
    Crc32(ImageAt(m, i.addr, i.width, i.height, i.stride, PixelBytes(i.format), UsedBytes(i.format)))
  }

  lemma ImageCrcIsFormatCrc(m: Snapshot, i: Image)
    ensures ImageCrc(m, KernelOf(i.format), i.addr, i.width, i.height, i.stride) == FormatCrc(m, i)
  {
    var size, used := PixelBytes(i.format), UsedBytes(i.format);
    ReadsFormat(i.format);
    PixelsAreWhole(KernelOf(i.format), size, used, i.width);
    assert i.width * size == size * i.width;
    VisibleImage(m, KernelOf(i.format), i.addr, i.width, i.height, i.stride, size, used);
  }

  /** A register over the visible bytes, complemented, is that number. */
  lemma RegisterIsFormatCrc(m: Snapshot, i: Image, n: nat, register: bv32, crc: bv32)
    requires n == i.width * BytesPerPixel(KernelOf(i.format)) && crc == !register
    requires register == Register(ALL_ONES, Visible(KernelOf(i.format), Strided(m, i.addr, i.stride, n, i.height)))
    ensures crc == FormatCrc(m, i)
  {
    ImageCrcIsFormatCrc(m, i);
  }

  lemma StreamedAnswer(m: Snapshot, i: Image, field: Wire.Int32, answer: Wire.Int32, crc: bv32)
    requires !Refused(i) && answer == ServiceAnswer(m, i, field, true) && crc == FormatCrc(m, i)
    ensures answer % 0x1_0000_0000 == crc as int
  {
    StreamableExact(i);
    ImageCrcIsFormatCrc(m, i);
    AnswerBits(crc);
  }

  /**
   The service's answer by format number.  Formats 4 and 2 and bytes are checked whole, 4, 2 and 1 bytes
   a pixel; of the four bytes of a pixel of format 3 the last is left out.
   */
  lemma AnswerByFormat(m: Snapshot, i: Image, field: Wire.Int32)
    ensures Refused(i) ==> ServiceAnswer(m, i, field, true) == ServiceAnswer(m, i, field, false) == field
    ensures !Refused(i) ==> ServiceAnswer(m, i, field, false) == 0
    ensures !Refused(i) ==> ServiceAnswer(m, i, field, true) % 0x1_0000_0000 == FormatCrc(m, i) as int
    ensures i.format == 4 ==> FormatCrc(m, i) == Crc32(ImageAt(m, i.addr, i.width, i.height, i.stride, 4, 4))
    ensures i.format == 3 ==> FormatCrc(m, i) == Crc32(ImageAt(m, i.addr, i.width, i.height, i.stride, 4, 3))
    ensures i.format == 2 ==> FormatCrc(m, i) == Crc32(ImageAt(m, i.addr, i.width, i.height, i.stride, 2, 2))
    ensures !(2 <= i.format <= 4) ==> FormatCrc(m, i) == Crc32(ImageAt(m, i.addr, i.width, i.height, i.stride, 1, 1))
  {
    StreamableExact(i);
    if !Refused(i) {
      StreamedAnswer(m, i, field, ServiceAnswer(m, i, field, true), FormatCrc(m, i));
    }
  }

  // ---- answers to requests as the client makes them ----

  /** The image a checksum request names: its fields as unsigned numbers, but for format and stride. */
  function Named(r: Wire.Request): Image
    requires r.Crc32?
  {
    Image(r.format, r.addr % 0x1_0000_0000, r.width % 0x1_0000_0000, r.height % 0x1_0000_0000, r.strideBytes)
  }

  /**
   v answers r when the DSP finds things as in at: the low 32 bits of the product; 0 for a refused image;
   for a plain one its CRC-32, or 0 when no channels can be had.
   */
  predicate IsAnswer(r: Wire.Request, at: Situation, v: int) {
    match r
    case Mult(_, x, y) => LowBitsOf(v, x * y)
    case Crc32(_, _, _, _, _, _) =>
      && -0x8000_0000 <= v < 0x8000_0000
      && (Refused(Named(r)) ==> v == 0)
      && (!Refused(Named(r)) && Plain(Named(r)) ==>
            v % 0x1_0000_0000 == if at.streams then FormatCrc(at.mem, Named(r)) as int else 0)
  }

  lemma RightIsAnswer(r: Wire.Request, at: Situation)
    ensures IsAnswer(r, at, RightAnswer(at, BodyOf(r)))
  {
    match r
    case Mult(_, x, y) => TruncatedExact(x * y, Truncated(x * y));
    case Crc32(_, _, _, _, _, _) => ChecksumIsAnswer(r, at, Named(r), RightAnswer(at, BodyOf(r)));
  }

  lemma ChecksumIsAnswer(r: Wire.Request, at: Situation, i: Image, v: Wire.Int32)
    requires r.Crc32? && i == Named(r) && v == ComputedCrc(at, BodyOf(r))
    ensures Refused(i) ==> v == 0
    ensures !Refused(i) && Plain(i) ==> v % 0x1_0000_0000 == if at.streams then FormatCrc(at.mem, i) as int else 0
  {
    FieldsAreUnsigned(r, ImageOf(BodyOf(r)));
    StreamableExact(i);
    if Streamable(i) {
      ServiceNumber(at.mem, i, at.streams, v);
    }
  }

  lemma ServiceNumber(m: Snapshot, i: Image, streams: bool, v: Wire.Int32)
    requires v == ServiceAnswer(m, i, 0, streams)
    ensures Refused(i) ==> v == 0
    ensures !Refused(i) ==> v % 0x1_0000_0000 == if streams then FormatCrc(m, i) as int else 0
  {
    StreamableExact(i);
    if !Refused(i) && streams {
      StreamedAnswer(m, i, 0, v, FormatCrc(m, i));
    }
  }

  /** The fields the DSP reads are those the client named. */
  lemma FieldsAreUnsigned(r: Wire.Request, i: Image)
    requires r.Crc32? && i == ImageOf(BodyOf(r))
    ensures i == Named(r)
  {
  }

  // ---- what the answer depends on ----

  /** Byte c of a row goes into the checksum. */
  predicate Used(format: int, c: int) {
    format == 3 ==> c % 4 != 3
  }

  lemma UsedIsSeen(i: Image, m1: Snapshot, m2: Snapshot, r: nat, c: nat)
    ensures Used(i.format, c) <==> Seen(KernelOf(i.format), c)
    ensures SameAt(m1, m2, i.addr, i.stride, r, c) <==> m1[SourceOf(i, r, c)] == m2[SourceOf(i, r, c)]
  {
    RowAddressClosed(i.addr, i.stride, r);
    WrapAdds(i.addr + i.stride * r, c);
  }

  /**
   Memories that agree on the bytes used of the image give the same answer, whatever stands between its
   rows and, in format 3, in the top byte of each pixel.
   */
  lemma OnlyUsedBytesMatter(m1: Snapshot, m2: Snapshot, i: Image, field: Wire.Int32, streams: bool)
    requires forall r, c :: (0 <= r < i.height && 0 <= c < i.width * PixelBytes(i.format) && Used(i.format, c) ==>
      m1[SourceOf(i, r, c)] == m2[SourceOf(i, r, c)])
    ensures ServiceAnswer(m1, i, field, streams) == ServiceAnswer(m2, i, field, streams)
  {
    var k := KernelOf(i.format);
    ReadsFormat(i.format);
    forall r, c | 0 <= r < i.height && 0 <= c < i.width * BytesPerPixel(k) && Seen(k, c)
      ensures SameAt(m1, m2, i.addr, i.stride, r, c)
    {
      UsedIsSeen(i, m1, m2, r, c);
    }
    OnlySeenBytesMatter(m1, m2, k, i.addr, i.width, i.height, i.stride);
  }

  /** Images that differ in exactly one byte used never get the same answer when both are streamed. */
  lemma OneByteTellsApart(m1: Snapshot, m2: Snapshot, i: Image, field: Wire.Int32, row: nat, col: nat)
    requires !Refused(i)
    requires row < i.height && col < i.width * PixelBytes(i.format) && Used(i.format, col)
    requires m1[SourceOf(i, row, col)] != m2[SourceOf(i, row, col)]
    requires forall r, c ::
      (0 <= r < i.height && 0 <= c < i.width * PixelBytes(i.format) && Used(i.format, c) && (r != row || c != col) ==>
        m1[SourceOf(i, r, c)] == m2[SourceOf(i, r, c)])
    ensures ServiceAnswer(m1, i, field, true) != ServiceAnswer(m2, i, field, true)
  {
    var k := KernelOf(i.format);
    UsedAgree(m1, m2, i, row, col, i.width * PixelBytes(i.format));
    ReadsFormat(i.format);
    UsedIsSeen(i, m1, m2, row, col);
    SingleByteChangeDetected(m1, m2, k, i.addr, i.width, i.height, i.stride, row, col);
    StreamableExact(i);
    DifferentAnswers(ImageCrc(m1, k, i.addr, i.width, i.height, i.stride),
      ImageCrc(m2, k, i.addr, i.width, i.height, i.stride));
  }

  lemma DifferentAnswers(a: bv32, b: bv32)
    requires a != b
    ensures IntOf(a) != IntOf(b)
  {
    AnswerBits(a);
    AnswerBits(b);
    WordOfInt(a);
    WordOfInt(b);
  }

  lemma WordOfInt(w: bv32)
    ensures (w as int) as bv32 == w
  {
  }

  lemma UsedAgree(m1: Snapshot, m2: Snapshot, i: Image, row: nat, col: nat, n: nat)
    requires forall r, c ::
      (0 <= r < i.height && 0 <= c < n && Used(i.format, c) && (r != row || c != col) ==>
        m1[SourceOf(i, r, c)] == m2[SourceOf(i, r, c)])
    ensures AgreeExcept(m1, m2, KernelOf(i.format), i.addr, i.stride, n, i.height, row, col)
  {
    forall r, c | 0 <= r < i.height && 0 <= c < n && Seen(KernelOf(i.format), c) && (r != row || c != col)
      ensures SameAt(m1, m2, i.addr, i.stride, r, c)
    {
      UsedIsSeen(i, m1, m2, r, c);
    }
  }
}
