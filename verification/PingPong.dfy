/**
 process_dma_in: image rows are streamed through two half-buffers, one being filled by the
 engine while the CPU consumes the other.
 */
module PingPong {
  import opened Crc
  import opened Memory
  import opened Pixels
  import opened Edma
  import opened CrcKernels

  /** MINMAX(rows, 1, height) */
  function MinMax(v: int, lo: int, hi: int): int {
    if v < lo then lo else if v > hi then hi else v
  }

  function RowsPerDma(size: nat, rowBytes: nat, height: nat): int
    requires rowBytes > 0
  {
    MinMax(size / rowBytes, 1, height)
  }

  /** Between the rows of one block the engine steps by a signed 16-bit index. */
  predicate StrideOk(stride: int, rows: int) {
    Fits16(stride) || rows <= 1
  }

  /** A block fits, and it could not have a row more. */
  lemma RowsFit(size: nat, rowBytes: nat, height: nat)
    requires 1 <= rowBytes <= size && height >= 1
    ensures var r := RowsPerDma(size, rowBytes, height);
      && 1 <= r <= height && r <= size && rowBytes * r <= size
      && (r == height || rowBytes * (r + 1) > size)
  {
    var q := size / rowBytes;
    assert q * rowBytes <= size < (q + 1) * rowBytes;
    var r := RowsPerDma(size, rowBytes, height);
    MulMonotone(rowBytes, r, q);
    MulMonotone(r, 1, rowBytes);
  }

  lemma MulMonotone(a: nat, b: int, c: int)
    requires b <= c
    ensures a * b <= a * c && b * a <= c * a
  {
  }

  /** A single row is the same whatever the stride; more rows need the stride the image has. */
  lemma StrideKept(m: seq<bv8>, src: Address, stride: int, n: nat, rows: nat)
    requires |m| == MEMORY_BYTES
    requires StrideOk(stride, rows)
    ensures Strided(m, src, SignExtend16(stride), n, rows) == Strided(m, src, stride, n, rows)
  {
    if Fits16(stride) {
      assert SignExtend16(stride) == stride;
    } else if rows == 1 {
      assert Strided(m, Wrap(src + stride), stride, n, 0) == [];
      assert Strided(m, Wrap(src + SignExtend16(stride)), SignExtend16(stride), n, 0) == [];
    }
  }

  lemma OutsideKept(d: Dsp, src: Address, stride: int, n: nat, rows: nat)
    requires StrideOk(stride, rows) && d.RowsOutside(src, stride, n, rows)
    ensures d.RowsOutside(src, SignExtend16(stride), n, rows)
  {
    if Fits16(stride) {
      assert SignExtend16(stride) == stride;
    }
  }

  lemma {:induction false} RowsOutsideSplit(d: Dsp, src: Address, stride: int, n: nat, j: nat, k: nat)
    requires d.RowsOutside(src, stride, n, j + k)
    ensures d.RowsOutside(src, stride, n, j)
    ensures d.RowsOutside(RowAddress(src, stride, j), stride, n, k)
    decreases j
  {
    if j > 0 {
      RowsOutsideSplit(d, Wrap(src + stride), stride, n, j - 1, k);
    }
  }

  /** A block of rows the engine can take in one transfer. */
  ghost predicate Block(d: Dsp, src: Address, stride: int, rowBytes: nat, rows: int) {
    && 1 <= rowBytes <= d.size && 1 <= rows <= d.size && rowBytes * rows <= d.size
    && StrideOk(stride, rows)
    && d.RowsOutside(src, stride, rowBytes, rows)
  }

  /** MY_SET_PARAM_SRC, MY_SET_PARAM_AB, DMA_START for the next block; `into` is the half the site names. */
  method StartBlock(d: Dsp, src: Address, stride: int, rowBytes: nat, rows: int, into: int)
    requires d.Valid() && d.Chained() && !d.pending
    requires d.first.srcBIdx == SignExtend16(stride) && d.first.dstBIdx == rowBytes
    requires Block(d, src, stride, rowBytes, rows)
    requires into == d.HalfOf(d.starts)
    modifies d`live, d`inFlight, d`tr, d`pending, d`goal, d`srcWritten, d`countsWritten, d`starts
    ensures d.Valid() && d.Chained() && d.pending
    ensures d.starts == old(d.starts) + 1
    ensures d.goal.target == into
    ensures d.goal.bytes == Strided(d.image, src, stride, rowBytes, rows)
  {
    d.ChainedRoute();
    StrideKept(d.image, src, stride, rowBytes, rows);
    OutsideKept(d, src, stride, rowBytes, rows);
    PackRoundTrip(rowBytes, rows);
    d.SetParamSrc(src);
    d.SetParamAB(rowBytes, rows);
    d.Start();
  }

  /**
   Everything is accounted for: what has been processed, what waits in a half-buffer, and the rows
   still in memory make up the whole image.
   */
  ghost predicate Accounted(d: Dsp, m: seq<bv8>, consumed: seq<bv8>, data: seq<bv8>, src: Address, stride: int,
                            rowBytes: nat, height: nat, whole: seq<bv8>)
  {
    && |m| == MEMORY_BYTES
    && consumed + data + Strided(m, src, stride, rowBytes, height) == whole
    && d.RowsOutside(src, stride, rowBytes, height)
  }

  /** The channel is programmed for rows of rowBytes; its next transfer does not go to the half at addr. */
  ghost predicate Routed(d: Dsp, addr: int, stride: int, rowBytes: nat)
    reads d`live, d`linkPing, d`linkPong, d`starts, d`first
  {
    && d.Chained()
    && addr != d.HalfOf(d.starts)
    && d.first.srcBIdx == SignExtend16(stride) && d.first.dstBIdx == rowBytes
  }

  /** Start the next block while the half at addr holds data to be processed. */
  method StartNext(d: Dsp, addr: int, ghost data: seq<bv8>, src: Address, stride: int, rowBytes: nat, rows: int,
    into: int)
    requires Block(d, src, stride, rowBytes, rows)
    requires Reading(d, addr, data) && !d.pending && Routed(d, addr, stride, rowBytes)
    requires into == d.HalfOf(d.starts)
    modifies d`live, d`inFlight, d`tr, d`pending, d`goal, d`srcWritten, d`countsWritten, d`starts
    ensures Reading(d, addr, data) && d.pending && Routed(d, into, stride, rowBytes)
    ensures d.starts == old(d.starts) + 1
    ensures d.goal.target == into && d.goal.bytes == Strided(d.image, src, stride, rowBytes, rows)
  {
    d.HalvesAlternate(d.starts);
    StartBlock(d, src, stride, rowBytes, rows, into);
  }

  /**
   One turn of the pipeline: start the next block into one half, process the other half while the
   engine runs, wait.
   */
  method Turn(d: Dsp, k: Kernel, addr: int, bytes: nat, ghost data: seq<bv8>, src: Address, stride: int, rowBytes: nat,
              rows: int, into: int)
    requires Block(d, src, stride, rowBytes, rows)
    requires Reading(d, addr, data) && !d.pending && Routed(d, addr, stride, rowBytes)
    requires bytes == |data| && WholePixels(k, bytes)
    requires into == d.HalfOf(d.starts)
    modifies d.mem, d`live, d`inFlight, d`tr, d`pending, d`goal, d`srcWritten, d`countsWritten, d`starts
    modifies d`irqRaised, d`sem, d`user0, d`consumed
    ensures Reading(d, into, Strided(d.image, src, stride, rowBytes, rows)) && !d.pending
      && Routed(d, into, stride, rowBytes)
    ensures d.starts == old(d.starts) + 1
    ensures d.consumed == old(d.consumed) + data
    ensures d.user0 == Register(old(d.user0), Visible(k, data))
  {
    StartNext(d, addr, data, src, stride, rowBytes, rows, into);
    Overlap(d, k, addr, bytes, data);
  }

  /** Process one half while the engine fills the other, then wait for it. */
  method Overlap(d: Dsp, k: Kernel, addr: int, bytes: nat, ghost data: seq<bv8>)
    requires Reading(d, addr, data) && d.pending
    requires bytes == |data| && WholePixels(k, bytes)
    modifies d.mem, d`inFlight, d`tr, d`goal, d`irqRaised, d`sem, d`pending, d`user0, d`consumed
    ensures !d.pending && Reading(d, d.goal.target, d.goal.bytes)
    ensures d.goal.target == old(d.goal.target) && d.goal.bytes == old(d.goal.bytes)
    ensures d.consumed == old(d.consumed) + data
    ensures d.user0 == Register(old(d.user0), Visible(k, data))
  {
    Process(d, k, addr, bytes, data);
    d.Wait();
  }

  /** Moving one block from memory to a half, and the other half to the callback, keeps the account. */
  lemma NextBlock(d: Dsp, m: seq<bv8>, consumed: seq<bv8>, data: seq<bv8>, src: Address, stride: int, rowBytes: nat,
                  rows: nat, height: nat, whole: seq<bv8>)
    requires rows <= height
    requires Accounted(d, m, consumed, data, src, stride, rowBytes, height, whole)
    ensures Accounted(d, m, consumed + data, Strided(m, src, stride, rowBytes, rows), Wrap(src + stride * rows), stride,
                      rowBytes, height - rows, whole)
    ensures |Strided(m, src, stride, rowBytes, rows)| == rowBytes * rows
    ensures d.RowsOutside(src, stride, rowBytes, rows)
  {
    RowAddressClosed(src, stride, rows);
    var next := RowAddress(src, stride, rows);
    NextRows(d, src, stride, rowBytes, rows, height, next);
    NextBytes(m, consumed + data, src, stride, rowBytes, rows, height, next);
    StridedLength(m, src, stride, rowBytes, rows);
  }

  lemma NextRows(d: Dsp, src: Address, stride: int, rowBytes: nat, rows: nat, height: nat, next: Address)
    requires rows <= height && next == RowAddress(src, stride, rows) && d.RowsOutside(src, stride, rowBytes, height)
    ensures d.RowsOutside(src, stride, rowBytes, rows) && d.RowsOutside(next, stride, rowBytes, height - rows)
  {
    RowsOutsideSplit(d, src, stride, rowBytes, rows, height - rows);
  }

  lemma NextBytes(m: seq<bv8>, before: seq<bv8>, src: Address, stride: int, rowBytes: nat, rows: nat, height: nat,
    next: Address)
    requires |m| == MEMORY_BYTES && rows <= height && next == RowAddress(src, stride, rows)
    ensures before + Strided(m, src, stride, rowBytes, height)
         == before + Strided(m, src, stride, rowBytes, rows) + Strided(m, next, stride, rowBytes, height - rows)
  {
    StridedSplit(m, src, stride, rowBytes, rows, height - rows);
    ConcatAssociative(before, Strided(m, src, stride, rowBytes, rows),
      Strided(m, next, stride, rowBytes, height - rows));
  }

  /** The state between two turns: the register covers what has been processed, and nothing is lost. */
  ghost predicate Streaming(d: Dsp, k: Kernel, crc: bv32, addr: int, data: seq<bv8>, src: Address, stride: int,
                            rowBytes: nat, height: nat, whole: seq<bv8>)
    reads d, d.mem
  {
    && Reading(d, addr, data) && !d.pending
    && Routed(d, addr, stride, rowBytes)
    && Accounted(d, d.image, d.consumed, data, src, stride, rowBytes, height, whole)
    && WholePixels(k, |data|)
    && d.user0 == Register(crc, Visible(k, d.consumed))
  }

  lemma KernelExtends(k: Kernel, crc: bv32, consumed: seq<bv8>, data: seq<bv8>, before: bv32, after: bv32)
    requires WholePixels(k, |data|)
    requires before == Register(crc, Visible(k, consumed))
    requires after == Register(before, Visible(k, data))
    ensures after == Register(crc, Visible(k, consumed + data))
  {
    KernelComposes(k, crc, consumed, data);
  }

  /** Every block of at most `limit` rows fits a half-buffer, and its rows can be stepped over. */
  ghost predicate Sized(d: Dsp, stride: int, rowBytes: nat, limit: int) {
    && 1 <= rowBytes <= d.size && 1 <= limit <= d.size && rowBytes * limit <= d.size
    && StrideOk(stride, limit)
  }

  lemma SmallerBlockFits(d: Dsp, stride: int, rowBytes: nat, limit: int, rows: int)
    requires Sized(d, stride, rowBytes, limit) && 1 <= rows <= limit
    ensures Sized(d, stride, rowBytes, rows)
  {
    MulMonotone(rowBytes, rows, limit);
  }

  /**
   What each site of process_dma_in does: program and start the next block of `rows` rows into the
   half the site names, process the other half, wait, and move src and height past the block.
   */
  method Advance(d: Dsp, k: Kernel, ghost crc: bv32, addr: int, bytes: nat, ghost data: seq<bv8>, src: Address,
    stride: int, width: nat, rowBytes: nat, rows: int, height: int, into: int, ghost whole: seq<bv8>)
    returns (next: Address, left: int, bytesInto: nat, ghost loaded: seq<bv8>)
    requires rowBytes == width * BytesPerPixel(k)
    requires 1 <= rows <= height && Sized(d, stride, rowBytes, rows)
    requires Streaming(d, k, crc, addr, data, src, stride, rowBytes, height, whole) && bytes == |data|
    requires into == d.HalfOf(d.starts)
    modifies d.mem, d`live, d`inFlight, d`tr, d`pending, d`goal, d`srcWritten, d`countsWritten, d`starts
    modifies d`irqRaised, d`sem, d`user0, d`consumed
    ensures left == height - rows && bytesInto == |loaded|
    ensures Streaming(d, k, crc, into, loaded, next, stride, rowBytes, left, whole)
    ensures d.starts == old(d.starts) + 1
  {
    loaded := Strided(d.image, src, stride, rowBytes, rows);
    NextBlock(d, d.image, d.consumed, data, src, stride, rowBytes, rows, height, whole);
    RowsAreWholePixels(k, width, rows);
    ghost var consumed, before := d.consumed, d.user0;
    bytesInto := rowBytes * rows;
    Turn(d, k, addr, bytes, data, src, stride, rowBytes, rows, into);
    KernelExtends(k, crc, consumed, data, before, d.user0);
    next := Wrap(src + stride * rows);
    left := height - rows;
  }

  /** The image a request asks for is legal for process_dma_in. */
  ghost predicate Legal(d: Dsp, src: Address, stride: int, rowBytes: nat, height: nat) {
    && d.Layout()
    && 1 <= rowBytes <= d.size && 1 <= height
    && StrideOk(stride, RowsPerDma(d.size, rowBytes, height))
    && d.RowsOutside(src, stride, rowBytes, height)
  }

  /** The channel is set up and the first block started into ping. */
  method FirstStart(d: Dsp, src: Address, stride: int, rowBytes: nat, rows: int)
    requires d.Valid() && !d.pending
    requires Block(d, src, stride, rowBytes, rows)
    modifies d`live, d`linkPing, d`linkPong, d`first, d`inFlight, d`tr, d`pending, d`goal
    modifies d`srcWritten, d`countsWritten, d`starts
    ensures d.Valid() && d.pending && Routed(d, d.ping, stride, rowBytes) && d.starts == 1
    ensures d.goal.target == d.ping && d.goal.bytes == Strided(d.image, src, stride, rowBytes, rows)
  {
    assert SignExtend16(rowBytes) == rowBytes;
    d.SetParamLink(stride, rowBytes);
    StartBlock(d, src, stride, rowBytes, rows, d.ping);
  }

  /** The first block goes to ping; the table is generated meanwhile. */
  method FirstBlock(d: Dsp, k: Kernel, src: Address, stride: int, width: nat, rowBytes: nat, rows: int, height: int,
                    ghost whole: seq<bv8>)
    returns (next: Address, left: int, bytesInto: nat, ghost loaded: seq<bv8>)
    requires rowBytes == width * BytesPerPixel(k) && 1 <= rows <= height && Sized(d, stride, rowBytes, rows)
    requires d.Valid() && !d.pending && d.consumed == []
    requires d.RowsOutside(src, stride, rowBytes, height)
    requires whole == Strided(d.image, src, stride, rowBytes, height)
    modifies d.mem, d`live, d`linkPing, d`linkPong, d`first, d`inFlight, d`tr, d`pending, d`goal
    modifies d`srcWritten, d`countsWritten, d`starts, d`irqRaised, d`sem
    ensures left == height - rows && bytesInto == |loaded|
    ensures Streaming(d, k, d.user0, d.ping, loaded, next, stride, rowBytes, left, whole)
    ensures d.starts == 1
  {
    loaded := Strided(d.image, src, stride, rowBytes, rows);
    FirstAccount(d, d.image, src, stride, rowBytes, rows, height, whole);
    RowsAreWholePixels(k, width, rows);
    assert Visible(k, []) == [];
    bytesInto := rowBytes * rows;
    FirstStart(d, src, stride, rowBytes, rows);
    SetupAndWait(d);
    next := Wrap(src + stride * rows);
    left := height - rows;
  }

  /** dii->setup while the first transfer runs, then the wait for it. */
  method SetupAndWait(d: Dsp)
    requires d.Valid() && d.pending
    modifies d.mem, d`inFlight, d`tr, d`pending, d`goal, d`irqRaised, d`sem
    ensures !d.pending && Reading(d, d.goal.target, d.goal.bytes)
    ensures d.goal.target == old(d.goal.target) && d.goal.bytes == old(d.goal.bytes)
  {
    GenTable(d);
    d.Wait();
  }

  lemma FirstAccount(d: Dsp, m: seq<bv8>, src: Address, stride: int, rowBytes: nat, rows: nat, height: nat,
    whole: seq<bv8>)
    requires |m| == MEMORY_BYTES && rows <= height
    requires d.RowsOutside(src, stride, rowBytes, height)
    requires whole == Strided(m, src, stride, rowBytes, height)
    ensures Accounted(d, m, [], Strided(m, src, stride, rowBytes, rows), Wrap(src + stride * rows), stride, rowBytes,
                      height - rows, whole)
    ensures |Strided(m, src, stride, rowBytes, rows)| == rowBytes * rows
    ensures d.RowsOutside(src, stride, rowBytes, rows)
  {
    var none: seq<bv8> := [];
    assert none + none == none && none + whole == whole;
    NextBlock(d, m, none, none, src, stride, rowBytes, rows, height, whole);
  }

  /**
   process_dma_in.  Whatever the engine's pace, the callback is handed the rows of the image, each
   once and in order, and the register ends up covering exactly their visible bytes.
   */
  method ProcessDmaIn(d: Dsp, k: Kernel, src0: Address, width: nat, height0: nat, stride: int,
                      channelsGranted: bool, linkAccepted: bool)
    requires Legal(d, src0, stride, width * BytesPerPixel(k), height0)
    requires !d.pending && !d.inFlight && d.sem == 0
    modifies d, d.mem
    ensures !d.pending && !d.inFlight && d.sem == 0
    ensures channelsGranted && linkAccepted ==>
      && d.consumed == Strided(old(d.mem[..]), src0, stride, width * BytesPerPixel(k), height0)
      && d.user0 == Register(old(d.user0), Visible(k, d.consumed))
    ensures !channelsGranted || !linkAccepted ==> d.consumed == [] && d.user0 == old(d.user0)
    ensures forall x :: 0 <= x < MEMORY_BYTES && !d.InScratch(x) ==> d.mem[x] == old(d.mem[x])
  {
    d.image, d.consumed := d.mem[..], [];
    if !channelsGranted {
      return;
    }
    var height := height0;
    var src := src0;
    var rowBytes := width * BytesPerPixel(k);
    var rowsPerDma := MinMax(d.size / rowBytes, 1, height);
    if linkAccepted {
      ghost var whole := Strided(d.image, src0, stride, rowBytes, height0);
      RowsFit(d.size, rowBytes, height);
      StreamImage(d, k, src, stride, width, rowBytes, rowsPerDma, height, whole);
    }
  }

  /** What follows once the channel is linked: the first block, then the loop if rows are left. */
  method StreamImage(d: Dsp, k: Kernel, src0: Address, stride: int, width: nat, rowBytes: nat, rowsPerDma: int,
    height0: int,
                     ghost whole: seq<bv8>)
    requires rowBytes == width * BytesPerPixel(k) && 1 <= rowsPerDma <= height0
    requires Sized(d, stride, rowBytes, rowsPerDma)
    requires d.Valid() && !d.pending && d.consumed == []
    requires d.RowsOutside(src0, stride, rowBytes, height0)
    requires whole == Strided(d.image, src0, stride, rowBytes, height0)
    modifies d.mem, d`live, d`linkPing, d`linkPong, d`first, d`inFlight, d`tr, d`pending, d`goal
    modifies d`srcWritten, d`countsWritten, d`starts, d`irqRaised, d`sem, d`user0, d`consumed
    ensures d.Valid() && !d.pending
    ensures d.consumed == whole && d.user0 == Register(old(d.user0), Visible(k, whole))
  {
    ghost var crc, data := d.user0, [];
    var src, height, bytesInPing;
    src, height, bytesInPing, data := FirstBlock(d, k, src0, stride, width, rowBytes, rowsPerDma, height0, whole);
    if height < 1 {
      Finish(d, k, crc, d.ping, bytesInPing, data, src, stride, rowBytes, whole);
    } else {
      StreamBlocks(d, k, crc, bytesInPing, data, src, stride, width, rowBytes, rowsPerDma, height, whole);
    }
  }

  /** The loop that peels two blocks per iteration, and the tail after it. */
  method StreamBlocks(d: Dsp, k: Kernel, ghost crc: bv32, bytes0: nat, ghost data0: seq<bv8>, src0: Address,
    stride: int, width: nat, rowBytes: nat, rowsPerDma: int, height0: int, ghost whole: seq<bv8>)
    requires rowBytes == width * BytesPerPixel(k)
    requires height0 >= 1 && Sized(d, stride, rowBytes, rowsPerDma)
    requires Streaming(d, k, crc, d.ping, data0, src0, stride, rowBytes, height0, whole) && bytes0 == |data0|
    requires d.starts % 2 == 1
    modifies d.mem, d`live, d`inFlight, d`tr, d`pending, d`goal, d`srcWritten, d`countsWritten, d`starts
    modifies d`irqRaised, d`sem, d`user0, d`consumed
    ensures d.Valid() && !d.pending
    ensures d.consumed == whole
    ensures d.user0 == Register(crc, Visible(k, whole))
  {
    var src, height, bytesInPing;
    ghost var data;
    src, height, bytesInPing, data :=
      FullBlocks(d, k, crc, bytes0, data0, src0, stride, width, rowBytes, rowsPerDma, height0, whole);
    StreamTail(d, k, crc, bytesInPing, data, src, stride, width, rowBytes, rowsPerDma, height, whole);
  }

  method FullBlocks(d: Dsp, k: Kernel, ghost crc: bv32, bytes0: nat, ghost data0: seq<bv8>, src0: Address,
    stride: int, width: nat, rowBytes: nat, rowsPerDma: int, height0: int, ghost whole: seq<bv8>)
    returns (src: Address, height: int, bytesInPing: nat, ghost data: seq<bv8>)
    requires rowBytes == width * BytesPerPixel(k)
    requires height0 >= 1 && Sized(d, stride, rowBytes, rowsPerDma)
    requires Streaming(d, k, crc, d.ping, data0, src0, stride, rowBytes, height0, whole) && bytes0 == |data0|
    requires d.starts % 2 == 1
    modifies d.mem, d`live, d`inFlight, d`tr, d`pending, d`goal, d`srcWritten, d`countsWritten, d`starts
    modifies d`irqRaised, d`sem, d`user0, d`consumed
    ensures 0 <= height < 2 * rowsPerDma && bytesInPing == |data|
    ensures Streaming(d, k, crc, d.ping, data, src, stride, rowBytes, height, whole)
    ensures d.starts % 2 == 1
  {
    src, height, bytesInPing, data := src0, height0, bytes0, data0;
    while height >= rowsPerDma * 2
      invariant 0 <= height
      invariant Streaming(d, k, crc, d.ping, data, src, stride, rowBytes, height, whole)
      invariant bytesInPing == |data|
      invariant d.starts % 2 == 1
    {
      src, height, bytesInPing, data :=
        TwoBlocks(d, k, crc, bytesInPing, data, src, stride, width, rowBytes, rowsPerDma, rowsPerDma, height, whole);
    }
  }

  /** Into pong while ping is processed, then into ping while pong is. */
  method TwoBlocks(d: Dsp, k: Kernel, ghost crc: bv32, bytes0: nat, ghost data0: seq<bv8>, src0: Address, stride: int,
                   width: nat, rowBytes: nat, first: int, second: int, height0: int, ghost whole: seq<bv8>)
    returns (src: Address, height: int, bytesInPing: nat, ghost data: seq<bv8>)
    requires rowBytes == width * BytesPerPixel(k)
    requires 1 <= first && 1 <= second && first + second <= height0
    requires Sized(d, stride, rowBytes, first) && Sized(d, stride, rowBytes, second)
    requires Streaming(d, k, crc, d.ping, data0, src0, stride, rowBytes, height0, whole) && bytes0 == |data0|
    requires d.starts % 2 == 1
    modifies d.mem, d`live, d`inFlight, d`tr, d`pending, d`goal, d`srcWritten, d`countsWritten, d`starts
    modifies d`irqRaised, d`sem, d`user0, d`consumed
    ensures height == height0 - first - second && bytesInPing == |data|
    ensures Streaming(d, k, crc, d.ping, data, src, stride, rowBytes, height, whole)
    ensures d.starts == old(d.starts) + 2
  {
    var bytesInPong;
    // start pong, process ping, wait for pong
    src, height, bytesInPong, data :=
      Advance(d, k, crc, d.ping, bytes0, data0, src0, stride, width, rowBytes, first, height0, d.pong, whole);
    // start ping, process pong, wait for ping
    src, height, bytesInPing, data :=
      Advance(d, k, crc, d.pong, bytesInPong, data, src, stride, width, rowBytes, second, height, d.ping, whole);
  }

  /** Fewer than two full blocks are left: an uneven rest is split in half, a single block is not. */
  method StreamTail(d: Dsp, k: Kernel, ghost crc: bv32, bytes0: nat, ghost data0: seq<bv8>, src0: Address, stride: int,
                    width: nat, rowBytes: nat, limit: int, height0: int, ghost whole: seq<bv8>)
    requires rowBytes == width * BytesPerPixel(k)
    requires 0 <= height0 < 2 * limit && Sized(d, stride, rowBytes, limit)
    requires Streaming(d, k, crc, d.ping, data0, src0, stride, rowBytes, height0, whole) && bytes0 == |data0|
    requires d.starts % 2 == 1
    modifies d.mem, d`live, d`inFlight, d`tr, d`pending, d`goal, d`srcWritten, d`countsWritten, d`starts
    modifies d`irqRaised, d`sem, d`user0, d`consumed
    ensures d.Valid() && !d.pending
    ensures d.consumed == whole
    ensures d.user0 == Register(crc, Visible(k, whole))
  {
    var src, height, bytesInPing := src0, height0, bytes0;
    ghost var data := data0;
    if height > limit {
      // the uneven rest is split in half: its first half goes to pong, what is left of it to ping
      var rowsPerDma := height / 2;
      SmallerBlockFits(d, stride, rowBytes, limit, rowsPerDma);
      SmallerBlockFits(d, stride, rowBytes, limit, height - rowsPerDma);
      src, height, bytesInPing, data := TwoBlocks(d, k, crc, bytes0, data, src, stride, width, rowBytes, rowsPerDma,
        height - rowsPerDma, height, whole);
    }
    if height > 0 {
      var bytesInPong;
      SmallerBlockFits(d, stride, rowBytes, limit, height);
      // start pong, process ping, wait for pong
      src, height, bytesInPong, data :=
        Advance(d, k, crc, d.ping, bytesInPing, data, src, stride, width, rowBytes, height, height, d.pong, whole);
      // process pong
      Finish(d, k, crc, d.pong, bytesInPong, data, src, stride, rowBytes, whole);
    } else {
      // process ping
      Finish(d, k, crc, d.ping, bytesInPing, data, src, stride, rowBytes, whole);
    }
  }

  /** The last half is processed with nothing left to transfer. */
  method Finish(d: Dsp, k: Kernel, ghost crc: bv32, addr: int, bytes: nat, ghost data: seq<bv8>, src: Address,
    stride: int, rowBytes: nat, ghost whole: seq<bv8>)
    requires Streaming(d, k, crc, addr, data, src, stride, rowBytes, 0, whole) && bytes == |data|
    modifies d.mem, d`inFlight, d`tr, d`goal, d`irqRaised, d`sem, d`user0, d`consumed
    ensures d.Valid() && !d.pending
    ensures d.consumed == whole
    ensures d.user0 == Register(crc, Visible(k, whole))
  {
    ghost var consumed, before := d.consumed, d.user0;
    assert consumed + data + Strided(d.image, src, stride, rowBytes, 0) == consumed + data;
    Process(d, k, addr, bytes, data);
    KernelExtends(k, crc, consumed, data, before, d.user0);
  }
}
