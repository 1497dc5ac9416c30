/**
 The four pixel kernels: which bytes of the image each of them feeds to the CRC, and what its
 table updates over a whole pixel word amount to.
 */
module Pixels {
  import opened Crc
  import opened Memory

  datatype Kernel = Kernel8 | Kernel16 | Kernel24 | Kernel32

  function BytesPerPixel(k: Kernel): nat {
    match k
    case Kernel8 => 1
    case Kernel16 => 2
    case Kernel24 => 4
    case Kernel32 => 4
  }

  /** n bytes are a whole number of pixels. */
  predicate WholePixels(k: Kernel, n: nat) {
    match k
    case Kernel8 => true
    case Kernel16 => n % 2 == 0
    case Kernel24 => n % 4 == 0
    case Kernel32 => n % 4 == 0
  }

  lemma RowsAreWholePixels(k: Kernel, width: nat, rows: nat)
    ensures WholePixels(k, width * BytesPerPixel(k) * rows)
  {
    var pixels := width * rows;
    match k
    case Kernel8 =>
    case Kernel16 => assert width * 2 * rows == 2 * pixels;
    case Kernel24 => assert width * 4 * rows == 4 * pixels;
    case Kernel32 => assert width * 4 * rows == 4 * pixels;
  }

  /** The first three bytes of every four. */
  function DropFourth(bytes: seq<bv8>): seq<bv8> {
    if |bytes| < 4 then []
    else DropFourth(bytes[..|bytes| - 4]) + bytes[|bytes| - 4..|bytes| - 1]
  }

  /** The bytes a kernel feeds to the CRC, in order. */
  function Visible(k: Kernel, bytes: seq<bv8>): seq<bv8> {
    if k == Kernel24 then DropFourth(bytes) else bytes
  }

  lemma {:induction false} DropFourthConcat(xs: seq<bv8>, ys: seq<bv8>)
    requires |ys| % 4 == 0
    ensures DropFourth(xs + ys) == DropFourth(xs) + DropFourth(ys)
    decreases |ys|
  {
    if ys == [] {
      assert xs + ys == xs;
    } else {
      var init, last := ys[..|ys| - 4], ys[|ys| - 4..|ys| - 1];
      LastFour(xs, ys);
      DropFourthConcat(xs, init);
      ConcatAssociative(DropFourth(xs), DropFourth(init), last);
    }
  }

  lemma LastFour<T>(xs: seq<T>, ys: seq<T>)
    requires |ys| >= 4
    ensures (xs + ys)[..|xs + ys| - 4] == xs + ys[..|ys| - 4]
    ensures (xs + ys)[|xs + ys| - 4..|xs + ys| - 1] == ys[|ys| - 4..|ys| - 1]
  {
  }

  lemma VisibleConcat(k: Kernel, xs: seq<bv8>, ys: seq<bv8>)
    requires WholePixels(k, |ys|)
    ensures Visible(k, xs + ys) == Visible(k, xs) + Visible(k, ys)
  {
    if k == Kernel24 {
      DropFourthConcat(xs, ys);
    }
  }

  lemma {:induction false} DropFourthLength(bytes: seq<bv8>, pixels: nat)
    requires |bytes| == 4 * pixels
    ensures |DropFourth(bytes)| == 3 * pixels
    decreases pixels
  {
    if pixels > 0 {
      DropFourthLength(bytes[..4 * (pixels - 1)], pixels - 1);
    }
  }

  /** Index by index: byte j of pixel i of the image is byte j of group i of what is fed. */
  lemma {:induction false} DropFourthAt(bytes: seq<bv8>, pixels: nat, i: nat, j: nat)
    requires |bytes| == 4 * pixels
    requires i < pixels && j < 3
    ensures |DropFourth(bytes)| == 3 * pixels
    ensures DropFourth(bytes)[3 * i + j] == bytes[4 * i + j]
    decreases pixels
  {
    var init := bytes[..4 * (pixels - 1)];
    DropFourthLength(init, pixels - 1);
    assert DropFourth(bytes) == DropFourth(init) + bytes[4 * pixels - 4..4 * pixels - 1];
    if i < pixels - 1 {
      DropFourthAt(init, pixels - 1, i, j);
    }
  }

  /** Updating over two stretches of whole pixels in turn is updating over both joined. */
  lemma KernelComposes(k: Kernel, crc: bv32, xs: seq<bv8>, ys: seq<bv8>)
    requires WholePixels(k, |ys|)
    ensures Register(crc, Visible(k, xs + ys)) == Register(Register(crc, Visible(k, xs)), Visible(k, ys))
  {
    VisibleConcat(k, xs, ys);
    RegisterComposes(crc, Visible(k, xs), Visible(k, ys));
  }

  lemma RegisterAppend(crc: bv32, xs: seq<bv8>, b: bv8)
    ensures Register(crc, xs + [b]) == FeedByte(Register(crc, xs), b)
  {
    assert (xs + [b])[..|xs + [b]| - 1] == xs;
  }

  // ---- what the updates of one pixel amount to ----

  lemma Word16Bytes(b0: bv8, b1: bv8)
    ensures Word16(b0, b1) & 0xff == b0 as bv32
    ensures (Word16(b0, b1) >> 8) & 0xff == b1 as bv32
  {
  }

  lemma Word32Bytes(b0: bv8, b1: bv8, b2: bv8, b3: bv8)
    ensures var w := Word32(b0, b1, b2, b3);
      && w & 0xff == b0 as bv32
      && (w >> 8) & 0xff == b1 as bv32
      && (w >> 16) & 0xff == b2 as bv32
      && (w >> 24) & 0xff == b3 as bv32
  {
  }

  /** Updates with successive words feed their low bytes in turn. */
  lemma TwoUpdates(crc: bv32, w0: bv32, w1: bv32, b0: bv8, b1: bv8)
    requires w0 & 0xff == b0 as bv32 && w1 & 0xff == b1 as bv32
    ensures TableUpdate(TableUpdate(crc, w0), w1) == FeedByte(FeedByte(crc, b0), b1)
  {
    TableUpdateOfLowByte(crc, w0, b0);
    TableUpdateOfLowByte(FeedByte(crc, b0), w1, b1);
  }

  lemma ThreeUpdates(crc: bv32, w0: bv32, w1: bv32, w2: bv32, b0: bv8, b1: bv8, b2: bv8)
    requires w0 & 0xff == b0 as bv32 && w1 & 0xff == b1 as bv32 && w2 & 0xff == b2 as bv32
    ensures TableUpdate(TableUpdate(TableUpdate(crc, w0), w1), w2) == FeedByte(FeedByte(FeedByte(crc, b0), b1), b2)
  {
    var first := TableUpdate(crc, w0);
    TableUpdateOfLowByte(crc, w0, b0);
    TwoUpdates(first, w1, w2, b1, b2);
  }

  /** Two updates with a 16-bit pixel feed its two bytes, low byte first. */
  lemma Pixel16(crc: bv32, w: bv32, b0: bv8, b1: bv8)
    requires w & 0xff == b0 as bv32 && (w >> 8) & 0xff == b1 as bv32
    ensures TableUpdate(TableUpdate(crc, w), w >> 8) == FeedByte(FeedByte(crc, b0), b1)
  {
    TwoUpdates(crc, w, w >> 8, b0, b1);
  }

  /** Three updates with a 32-bit pixel feed its three low bytes and nothing of the top one. */
  lemma Pixel24(crc: bv32, w: bv32, b0: bv8, b1: bv8, b2: bv8)
    requires w & 0xff == b0 as bv32 && (w >> 8) & 0xff == b1 as bv32 && (w >> 16) & 0xff == b2 as bv32
    ensures TableUpdate(TableUpdate(TableUpdate(crc, w), w >> 8), w >> 16)
      == FeedByte(FeedByte(FeedByte(crc, b0), b1), b2)
  {
    ThreeUpdates(crc, w, w >> 8, w >> 16, b0, b1, b2);
  }

  lemma Pixel32(crc: bv32, w: bv32, b0: bv8, b1: bv8, b2: bv8, b3: bv8)
    requires w & 0xff == b0 as bv32 && (w >> 8) & 0xff == b1 as bv32
    requires (w >> 16) & 0xff == b2 as bv32 && (w >> 24) & 0xff == b3 as bv32
    ensures TableUpdate(TableUpdate(TableUpdate(TableUpdate(crc, w), w >> 8), w >> 16), w >> 24) ==
      FeedByte(FeedByte(FeedByte(FeedByte(crc, b0), b1), b2), b3)
  {
    Pixel24(crc, w, b0, b1, b2);
    TableUpdateOfLowByte(FeedByte(FeedByte(FeedByte(crc, b0), b1), b2), w >> 24, b3);
  }
}
